/**
 The change counter that heartbeat answers carry, and the API writes that advance it:
 `handle_object` and `handle_array` over data sets and arrays of structs.
 */
module Version {
  import opened Common
  import opened JsonLookup
  import opened JsonScan
  import opened JsonStruct
  import opened JsonText

  /** One data handler: its attribute table and whether it has a setter. */
  datatype Handler = Handler(attrs: seq<Attr>, writable: bool)

  /** `objects[h]` is the struct behind data handler `h`, `arrays[h]` the structs behind
      array handler `h`. Setters store what they are given, getters read it back. */
  datatype Store = Store(objects: seq<seq<byte>>, arrays: seq<seq<seq<byte>>>, version: nat)

  datatype Config = Config(objects: seq<Handler>, arrays: seq<Handler>, doubles: Doubles)

  /** API writes with a body, and the application's own bump of the counter. */
  datatype Event =
    | PutObject(h: nat, body: string)
    | PutElement(h: nat, index: nat, body: string)
    | Touch

  ghost predicate WithinStruct(attrs: seq<Attr>, mem: seq<byte>) {
    forall i :: 0 <= i < |attrs| ==> Inside(attrs[i], |mem|)
  }

  ghost predicate Valid(c: Config, s: Store) {
    && (forall v :: |c.doubles.store(v)| == 8)
    && |c.objects| == |s.objects| && |c.arrays| == |s.arrays|
    && (forall h :: 0 <= h < |s.objects| ==> WithinStruct(c.objects[h].attrs, s.objects[h]))
    && (forall h, i :: 0 <= h < |s.arrays| && 0 <= i < |s.arrays[h]| ==> WithinStruct(c.arrays[h].attrs, s.arrays[h][i]))
    && s.version < WORD
  }

  ghost predicate Addressed(s: Store, e: Event) {
    match e
    case PutObject(h, body) => h < |s.objects|
    case PutElement(h, _, body) => h < |s.arrays|
    case Touch => true
  }

  function Bumped(version: nat): nat {
    (version + 1) % WORD
  }

  /** The struct as it comes out of populating, and whether that changed it. */
  ghost function NewObject(c: Config, s: Store, h: nat, body: string): seq<byte>
    requires Valid(c, s) && h < |s.objects|
  {
    Populated(c.doubles, body, c.objects[h].attrs, s.objects[h])
  }

  ghost function NewElement(c: Config, s: Store, h: nat, i: nat, body: string): seq<byte>
    requires Valid(c, s) && h < |s.arrays| && i < |s.arrays[h]|
  {
    Populated(c.doubles, body, c.arrays[h].attrs, s.arrays[h][i])
  }

  /** Whether an event advances the counter. */
  ghost predicate Counts(c: Config, s: Store, e: Event)
    requires Valid(c, s) && Addressed(s, e)
  {
    match e
    case PutObject(h, body) => NewObject(c, s, h, body) != s.objects[h]
    case PutElement(h, i, body) => i < |s.arrays[h]| && NewElement(c, s, h, i, body) != s.arrays[h][i]
    case Touch => true
  }

  ghost function Step(c: Config, s: Store, e: Event): (r: Store)
    requires Valid(c, s) && Addressed(s, e)
    ensures Valid(c, r)
    ensures r.version == if Counts(c, s, e) then Bumped(s.version) else s.version
  {
    var version := if Counts(c, s, e) then Bumped(s.version) else s.version;
    match e
    case PutObject(h, body) =>
      if c.objects[h].writable then s.(objects := s.objects[h := NewObject(c, s, h, body)], version := version)
      else s.(version := version)
    case PutElement(h, i, body) =>
      if i < |s.arrays[h]| && c.arrays[h].writable
      then s.(arrays := s.arrays[h := s.arrays[h][i := NewElement(c, s, h, i, body)]], version := version)
      else s.(version := version)
    case Touch => s.(version := version)
  }

  /** The handlers as they run: a copy is populated and compared with the original. */
  class Device {
    const config: Config
    var objects: seq<seq<byte>>
    var arrays: seq<seq<seq<byte>>>
    var version: nat

    ghost function State(): Store
      reads this
    {
      Store(objects, arrays, version)
    }

    method PopulateCopy(data: seq<byte>, body: string, attrs: seq<Attr>) returns (tmp: seq<byte>)
      requires (forall v :: |config.doubles.store(v)| == 8) && WithinStruct(attrs, data)
      ensures tmp == Populated(config.doubles, body, attrs, data)
    {
      var copy := new byte[|data|](i requires 0 <= i < |data| => data[i]);
      assert copy[..] == data;
      PopulateStruct(config.doubles, body, copy, attrs);
      tmp := copy[..];
    }

    method HandleObject(h: nat, body: string)
      requires Valid(config, State()) && h < |objects|
      modifies this
      ensures State() == Step(config, old(State()), PutObject(h, body))
    {
      hide Populated, WithinStruct;
      var data := objects[h];
      var tmp := PopulateCopy(data, body, config.objects[h].attrs);
      if data != tmp {
        version := (version + 1) % WORD;
      }
      if config.objects[h].writable {
        objects := objects[h := tmp];
      }
    }

    method HandleArray(h: nat, index: nat, body: string)
      requires Valid(config, State()) && h < |arrays|
      modifies this
      ensures State() == Step(config, old(State()), PutElement(h, index, body))
    {
      hide Populated, WithinStruct;
      if index < |arrays[h]| {
        var data := arrays[h][index];
        var tmp := PopulateCopy(data, body, config.arrays[h].attrs);
        if tmp != data {
          version := (version + 1) % WORD;
        }
        if config.arrays[h].writable {
          arrays := arrays[h := arrays[h][index := tmp]];
        }
      }
    }

    method UpdateState()
      requires Valid(config, State())
      modifies this
      ensures State() == Step(config, old(State()), Touch)
    {
      version := (version + 1) % WORD;
    }
  }

  // ------------------------------------------------------------------- whole runs

  ghost predicate SameShape(s: Store, r: Store) {
    |s.objects| == |r.objects| && |s.arrays| == |r.arrays|
  }

  ghost predicate AllAddressed(s: Store, evs: seq<Event>) {
    forall k :: 0 <= k < |evs| ==> Addressed(s, evs[k])
  }

  lemma StepKeepsShape(c: Config, s: Store, e: Event)
    requires Valid(c, s) && Addressed(s, e)
    ensures SameShape(s, Step(c, s, e))
  {
  }

  ghost function Run(c: Config, s: Store, evs: seq<Event>): (r: Store)
    requires Valid(c, s) && AllAddressed(s, evs)
    ensures Valid(c, r) && SameShape(s, r)
  {
    if evs == [] then s
    else
      var r := Run(c, s, evs[..|evs| - 1]);
      StepKeepsShape(c, r, evs[|evs| - 1]);
      Step(c, r, evs[|evs| - 1])
  }

  /** How many events of the run advance the counter. */
  ghost function Changes(c: Config, s: Store, evs: seq<Event>): nat
    requires Valid(c, s) && AllAddressed(s, evs)
  {
    if evs == [] then 0
    else
      Changes(c, s, evs[..|evs| - 1])
      + if Counts(c, Run(c, s, evs[..|evs| - 1]), evs[|evs| - 1]) then 1 else 0
  }

  /** A write that does not advance the counter changes no stored data. */
  lemma UncountedChangesNothing(c: Config, s: Store, e: Event)
    requires Valid(c, s) && Addressed(s, e) && !Counts(c, s, e)
    ensures Step(c, s, e) == s
  {
    match e {
      case PutObject(h, body) => assert s.objects[h := s.objects[h]] == s.objects;
      case PutElement(h, i, body) =>
        if i < |s.arrays[h]| {
          assert s.arrays[h][i := s.arrays[h][i]] == s.arrays[h];
          assert s.arrays[h := s.arrays[h]] == s.arrays;
        }
      case Touch =>
    }
  }

  lemma StepCounts(c: Config, s: Store, e: Event)
    requires Valid(c, s) && Addressed(s, e)
    ensures Step(c, s, e).version == if Counts(c, s, e) then Bumped(s.version) else s.version
  {
    hide Populated;
  }

  lemma {:induction false} CounterCounts(c: Config, s: Store, evs: seq<Event>)
    requires Valid(c, s) && AllAddressed(s, evs)
    ensures Run(c, s, evs).version == (s.version + Changes(c, s, evs)) % WORD
    ensures Changes(c, s, evs) <= |evs|
    decreases |evs|
  {
    hide Step, Counts, Bumped;
    if evs != [] {
      CounterCounts(c, s, evs[..|evs| - 1]);
      StepCounts(c, Run(c, s, evs[..|evs| - 1]), evs[|evs| - 1]);
      BumpedModulo(s.version + Changes(c, s, evs[..|evs| - 1]));
    }
  }

  lemma BumpedModulo(n: nat)
    ensures Bumped(n % WORD) == (n + 1) % WORD
  {
  }

  /** Two heartbeat answers carry the same version if and only if the changes between
      them are a multiple of the counter's range. */
  lemma SameVersionIff(c: Config, s: Store, evs: seq<Event>)
    requires Valid(c, s) && AllAddressed(s, evs)
    ensures Run(c, s, evs).version == s.version <==> Changes(c, s, evs) % WORD == 0
  {
    hide Run, Changes, Step, Counts, AllAddressed;
    assert s.version < WORD;
    CounterCounts(c, s, evs);
    SumModulo(s.version, Changes(c, s, evs));
  }

  lemma SumModulo(a: nat, n: nat)
    requires a < WORD
    ensures (a + n) % WORD == a <==> n % WORD == 0
  {
  }

  lemma {:induction false} NoChangeNoDifference(c: Config, s: Store, evs: seq<Event>)
    requires Valid(c, s) && AllAddressed(s, evs) && Changes(c, s, evs) == 0
    ensures Run(c, s, evs) == s
    decreases |evs|
  {
    if evs != [] {
      NoChangeNoDifference(c, s, evs[..|evs| - 1]);
      UncountedChangesNothing(c, s, evs[|evs| - 1]);
    }
  }

  lemma {:induction false} ChangesGrow(c: Config, s: Store, evs: seq<Event>, k: nat)
    requires Valid(c, s) && AllAddressed(s, evs) && k <= |evs|
    ensures Changes(c, s, evs[..k]) <= Changes(c, s, evs)
    decreases |evs|
  {
    if k == |evs| {
      assert evs[..k] == evs;
    } else {
      assert evs[..|evs| - 1][..k] == evs[..k];
      ChangesGrow(c, s, evs[..|evs| - 1], k);
    }
  }

  /** The counter is a sound validator: if two answers carry the same version, and fewer
      than one range of the counter was counted between them, then no write in between
      changed any stored data set or element, not even for a while. */
  lemma SameVersionSameData(c: Config, s: Store, evs: seq<Event>, k: nat)
    requires Valid(c, s) && AllAddressed(s, evs) && k <= |evs|
    requires Changes(c, s, evs) < WORD && Run(c, s, evs).version == s.version
    ensures Run(c, s, evs[..k]) == s
  {
    hide Run, Changes, Step, Counts, Valid;
    SameVersionIff(c, s, evs);
    ChangesGrow(c, s, evs, k);
    NoChangeNoDifference(c, s, evs[..k]);
  }

  /** A handler without a setter: a write through it changes no data, ever, but advances
      the counter when its text asks for a change. The counter moves without a change of
      data if and only if that happens, or the application touches it. */
  lemma WhenTheCounterMovesForNothing(c: Config, s: Store, e: Event)
    requires Valid(c, s) && Addressed(s, e)
    ensures var r := Step(c, s, e);
      r.version != s.version && r.objects == s.objects && r.arrays == s.arrays
      <==> Counts(c, s, e) && match e
                              case PutObject(h, _) => !c.objects[h].writable
                              case PutElement(h, _, _) => !c.arrays[h].writable
                              case Touch => true
  {
    var r := Step(c, s, e);
    assert Bumped(s.version) != s.version;
    match e {
      case PutObject(h, body) =>
        if c.objects[h].writable {
          assert r.objects[h] == NewObject(c, s, h, body);
        }
      case PutElement(h, i, body) =>
        if i < |s.arrays[h]| && c.arrays[h].writable {
          assert r.arrays[h][i] == NewElement(c, s, h, i, body);
        }
      case Touch =>
    }
  }

  // ------------------------------------------------------- what a written text does

  /** What field `a` of a struct holds once the object `v` is written to it. */
  ghost function Written(f: Doubles, v: Json, a: Attr, w: seq<byte>): seq<byte>
    requires v.Obj? && |w| == Width(a)
  {
    var k := First(v.fields, a.name);
    if k < |v.fields| then ValueMeaning(f, v.fields[k].item.value, a, w) else w
  }

  /** The object gives some field a value that the struct does not hold. */
  ghost predicate AsksForAChange(f: Doubles, v: Json, attrs: seq<Attr>, mem: seq<byte>)
    requires v.Obj? && WithinStruct(attrs, mem)
  {
    exists i :: 0 <= i < |attrs| && Written(f, v, attrs[i], Window(mem, attrs[i])) != Window(mem, attrs[i])
  }

  /** The API's texts: an object, with blanks in front and anything behind. */
  ghost predicate IsText(before: string, v: Json) {
    Blanks(before) && v.Obj? && Ok(v, 0)
  }

  lemma FieldIsWritten(f: Doubles, before: string, v: Json, post: string, attrs: seq<Attr>, mem: seq<byte>, i: nat)
    requires (forall d :: |f.store(d)| == 8) && IsText(before, v) && Layout(attrs, |mem|) && Named(attrs) && i < |attrs|
    ensures Window(Populated(f, before + Text(v) + post, attrs, mem), attrs[i])
            == Written(f, v, attrs[i], Window(mem, attrs[i]))
  {
    hide Populated, Window, Text, First, ValueMeaning, Ok, Blanks, Layout, Named, Inside;
    PopulatingMeans(f, before, v, post, attrs, mem, i);
  }

  lemma ChangesIffAskedTo(f: Doubles, before: string, v: Json, post: string, attrs: seq<Attr>, mem: seq<byte>)
    requires (forall d :: |f.store(d)| == 8) && IsText(before, v) && Layout(attrs, |mem|) && Named(attrs)
    ensures Populated(f, before + Text(v) + post, attrs, mem) != mem <==> AsksForAChange(f, v, attrs, mem)
  {
    hide Populated, Window, Text, Written, Ok, Blanks, Named;
    var json := before + Text(v) + post;
    var r := Populated(f, json, attrs, mem);
    forall i | 0 <= i < |attrs|
      ensures Window(r, attrs[i]) == Written(f, v, attrs[i], Window(mem, attrs[i]))
    {
      FieldIsWritten(f, before, v, post, attrs, mem, i);
    }
    if !AsksForAChange(f, v, attrs, mem) {
      forall k | 0 <= k < |mem|
        ensures r[k] == mem[k]
      {
        if i :| 0 <= i < |attrs| && InField(attrs[i], k) {
          SameByte(r, mem, attrs[i], k);
        } else {
          OnlyPresentFieldsChange(f, json, attrs, mem, k);
        }
      }
    }
  }

  /** A write to a data set advances the counter if and only if its text gives some field
      a value that the set does not hold. */
  lemma ObjectCountsIff(c: Config, s: Store, h: nat, before: string, v: Json, post: string)
    requires Valid(c, s) && h < |s.objects| && IsText(before, v)
    requires Layout(c.objects[h].attrs, |s.objects[h]|) && Named(c.objects[h].attrs)
    ensures Step(c, s, PutObject(h, before + Text(v) + post)).version != s.version
            <==> AsksForAChange(c.doubles, v, c.objects[h].attrs, s.objects[h])
  {
    hide Populated, Layout, Named, IsText, AsksForAChange, Text;
    ChangesIffAskedTo(c.doubles, before, v, post, c.objects[h].attrs, s.objects[h]);
    BumpedMoves(s.version);
  }

  /** A write to an element likewise, if there is such an element. */
  lemma ElementCountsIff(c: Config, s: Store, h: nat, i: nat, before: string, v: Json, post: string)
    requires Valid(c, s) && h < |s.arrays| && IsText(before, v) && Named(c.arrays[h].attrs)
    requires i < |s.arrays[h]| ==> Layout(c.arrays[h].attrs, |s.arrays[h][i]|)
    ensures Step(c, s, PutElement(h, i, before + Text(v) + post)).version != s.version
            <==> i < |s.arrays[h]| && AsksForAChange(c.doubles, v, c.arrays[h].attrs, s.arrays[h][i])
  {
    hide Populated, Layout, Named, IsText, AsksForAChange, Text;
    if i < |s.arrays[h]| {
      ChangesIffAskedTo(c.doubles, before, v, post, c.arrays[h].attrs, s.arrays[h][i]);
    }
    BumpedMoves(s.version);
  }

  lemma BumpedMoves(version: nat)
    requires version < WORD
    ensures Bumped(version) != version && Bumped(version) == if version + 1 == WORD then 0 else version + 1
  {
  }

  /** Each field of a data set with a setter then holds what the text says; without one
      the set stays as it was. */
  lemma ObjectIsStored(c: Config, s: Store, h: nat, before: string, v: Json, post: string, i: nat)
    requires Valid(c, s) && h < |s.objects| && IsText(before, v) && i < |c.objects[h].attrs|
    requires Layout(c.objects[h].attrs, |s.objects[h]|) && Named(c.objects[h].attrs)
    ensures var r, a := Step(c, s, PutObject(h, before + Text(v) + post)), c.objects[h].attrs[i];
            var w := Window(s.objects[h], a);
            Window(r.objects[h], a) == if c.objects[h].writable then Written(c.doubles, v, a, w) else w
  {
    hide Populated, Layout, Named, IsText, Written, Text, Window;
    FieldIsWritten(c.doubles, before, v, post, c.objects[h].attrs, s.objects[h], i);
  }

  /** Each field of the element, too. */
  lemma ElementIsStored(c: Config, s: Store, h: nat, j: nat, before: string, v: Json, post: string, i: nat)
    requires Valid(c, s) && h < |s.arrays| && j < |s.arrays[h]| && IsText(before, v) && i < |c.arrays[h].attrs|
    requires Layout(c.arrays[h].attrs, |s.arrays[h][j]|) && Named(c.arrays[h].attrs)
    ensures var r, a := Step(c, s, PutElement(h, j, before + Text(v) + post)), c.arrays[h].attrs[i];
            var w := Window(s.arrays[h][j], a);
            Window(r.arrays[h][j], a) == if c.arrays[h].writable then Written(c.doubles, v, a, w) else w
  {
    hide Populated, Layout, Named, IsText, Written, Text, Window;
    FieldIsWritten(c.doubles, before, v, post, c.arrays[h].attrs, s.arrays[h][j], i);
  }

  /** A write stays where it is addressed; the application's bump moves the counter by one
      and touches no data. */
  lemma WritesStayLocal(c: Config, s: Store, e: Event)
    requires Valid(c, s) && Addressed(s, e)
    ensures var r := Step(c, s, e);
      && (!e.PutObject? ==> r.objects == s.objects)
      && (!e.PutElement? ==> r.arrays == s.arrays)
      && (e.PutObject? ==> forall k :: 0 <= k < |s.objects| && k != e.h ==> r.objects[k] == s.objects[k])
      && (e.PutElement? ==> forall k, i :: 0 <= k < |s.arrays| && 0 <= i < |s.arrays[k]| && (k != e.h || i != e.index)
                              ==> r.arrays[k][i] == s.arrays[k][i])
      && (e.Touch? ==> r.version == if s.version + 1 == WORD then 0 else s.version + 1)
  {
    hide Populated;
  }

  /** A client that writes back the text it was just given does not move the counter. */
  lemma EchoDoesNotCount(c: Config, s: Store, h: nat, post: string)
    requires Valid(c, s) && h < |s.objects| && DoublesOk(c.doubles)
    requires Layout(c.objects[h].attrs, |s.objects[h]|) && Named(c.objects[h].attrs)
    requires forall i :: 0 <= i < |c.objects[h].attrs| ==>
               Faithful(c.objects[h].attrs[i], Window(s.objects[h], c.objects[h].attrs[i]))
    ensures !Counts(c, s, PutObject(h, ObjectText(Members(c.doubles, c.objects[h].attrs, s.objects[h])) + post))
  {
    hide Populated, Members, ObjectText, Layout, Named, DoublesOk, Faithful, Window;
    WritingBackChangesNothing(c.doubles, c.objects[h].attrs, s.objects[h], post);
  }

  /** Nor does one that writes back the text of one array element. */
  lemma ElementEchoDoesNotCount(c: Config, s: Store, h: nat, i: nat, post: string)
    requires Valid(c, s) && h < |s.arrays| && i < |s.arrays[h]| && DoublesOk(c.doubles)
    requires Layout(c.arrays[h].attrs, |s.arrays[h][i]|) && Named(c.arrays[h].attrs)
    requires forall k :: 0 <= k < |c.arrays[h].attrs| ==>
               Faithful(c.arrays[h].attrs[k], Window(s.arrays[h][i], c.arrays[h].attrs[k]))
    ensures !Counts(c, s, PutElement(h, i, ObjectText(Members(c.doubles, c.arrays[h].attrs, s.arrays[h][i])) + post))
  {
    hide Populated, Members, ObjectText, Layout, Named, DoublesOk, Faithful, Window;
    WritingBackChangesNothing(c.doubles, c.arrays[h].attrs, s.arrays[h][i], post);
  }
}
