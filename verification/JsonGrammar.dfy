/**
 What the one-pass scanner of JsonScan accepts, as a grammar that is read by recursive
 descent. On every text, well formed or not, the two find the same.
 */
module JsonGrammar {
  import opened Common
  import opened JsonText
  import opened JsonScan
  import opened JsonLookup

  // ------------------------------------------------------------------- the grammar

  /** How many blanks a text begins with. */
  function Gap(u: string): (n: nat)
    ensures n <= |u| && (n < |u| ==> !Blank(u[n]))
    ensures Blanks(u[..n])
  {
    if u == "" || !Blank(u[0]) then 0 else 1 + Gap(u[1..])
  }

  /** The length of the value that a text begins with, inside `depth` brackets. No more
      than 30 may be open. */
  function ValueLen(u: string, depth: nat): (r: Option<nat>)
    ensures r.Some? ==> 0 < r.value <= |u|
    decreases |u|, 0
  {
    if u == "" then None
    else if u[0] == '{' then if depth < 30 then Plus(1, FieldsLen(u[1..], depth + 1)) else None
    else if u[0] == '[' then if depth < 30 then Plus(1, ItemsLen(u[1..], depth + 1)) else None
    else ScalarLength(u)
  }

  /** The length of a colon, with the blanks around it. */
  function ColonLen(u: string): (r: Option<nat>)
    ensures r.Some? ==> r.value <= |u|
  {
    var g := Gap(u);
    if CharAt(u, g, ':') then Some(g + 1 + Gap(u[g + 1..])) else None
  }

  /** The length of a field's name, the colon and the blanks up to the field's value. */
  function KeyLen(v: string): (r: Option<nat>)
    ensures r.Some? ==> 0 < r.value <= |v|
  {
    if v == "" || v[0] != '\"' || StringLength(v[1..]).None? then None
    else
      var n := StringLength(v[1..]).value + 2;
      Plus(n, ColonLen(v[n..]))
  }

  function KeyName(v: string): string
    requires KeyLen(v).Some?
  {
    v[1..1 + StringLength(v[1..]).value]
  }

  /** What stands behind a value in a list: the list's closing bracket, or a comma. The
      numbers count the characters up to and including it. */
  datatype Next = Closing(n: nat) | More(n: nat) | Neither

  function Element(w: string, depth: nat, close: char): (r: Next)
    ensures !r.Neither? ==> 0 < r.n <= |w|
    decreases |w|, 1
  {
    match ValueLen(w, depth)
    case None => Neither
    case Some(n) =>
      var e := n + Gap(w[n..]);
      if CharAt(w, e, close) then Closing(e + 1) else if CharAt(w, e, ',') then More(e + 1) else Neither
  }

  /** The rest of an object, behind its opening bracket or a comma, up to its closing one.
      A comma may stand in front of the closing bracket. */
  function FieldsLen(u: string, depth: nat): (r: Option<nat>)
    ensures r.Some? ==> 0 < r.value <= |u|
    decreases |u|, 2
  {
    var g := Gap(u);
    var k := KeyLen(u[g..]);
    if CharAt(u, g, '}') then Some(g + 1)
    else if k.None? then None
    else match Element(u[g + k.value..], depth, '}')
      case Neither => None
      case Closing(n) => Some(g + k.value + n)
      case More(n) => var m := g + k.value + n; Plus(m, FieldsLen(u[m..], depth))
  }

  /** The rest of an array likewise. */
  function ItemsLen(u: string, depth: nat): (r: Option<nat>)
    ensures r.Some? ==> 0 < r.value <= |u|
    decreases |u|, 2
  {
    var g := Gap(u);
    if CharAt(u, g, ']') then Some(g + 1)
    else match Element(u[g..], depth, ']')
      case Neither => None
      case Closing(n) => Some(g + n)
      case More(n) => var m := g + n; Plus(m, ItemsLen(u[m..], depth))
  }

  /** The value of the first field called `name`, in the rest of an object that begins at
      character `at`. All in front of it must be well formed; what follows it is not read. */
  function FieldAt(u: string, name: string, at: nat): Answer
    decreases |u|, 1
  {
    var g := Gap(u);
    var k := KeyLen(u[g..]);
    if k.None? then Failed
    else if KeyName(u[g..]) == name then FoundValue(u, g + k.value, at)
    else BehindValue(u, g + k.value, name, at)
  }

  function FoundValue(u: string, m: nat, at: nat): Answer
    requires m <= |u|
  {
    match ValueLen(u[m..], 1)
    case None => Failed
    case Some(n) => Found(at + m, n)
  }

  function BehindValue(u: string, m: nat, name: string, at: nat): Answer
    requires m <= |u|
    decreases |u|, 0
  {
    match Element(u[m..], 1, '}')
    case More(n) => FieldAt(u[m + n..], name, at + m + n)
    case _ => Failed
  }

  function ValueOf(json: string, name: string): Answer {
    var g := Gap(json);
    if CharAt(json, g, '{') then FieldAt(json[g + 1..], name, g + 1) else Failed
  }

  // --------------------------------------------------------------------- the steps

  lemma GapIsSkipped(u: string, path: string, sc: Scanner)
    requires sc.j <= sc.i
    ensures Scan(u, path, sc) == Scan(u[Gap(u)..], path, sc.(i := sc.i + Gap(u)))
  {
    hide Scan, Gap, Blanks;
    assert u == u[..Gap(u)] + u[Gap(u)..];
    BlanksSkipped(u[..Gap(u)], u[Gap(u)..], path, sc);
  }

  /** What closes the innermost open bracket. */
  predicate Closes(sc: Scanner, c: char) {
    sc.nesting != "" && Pairs(sc.nesting[|sc.nesting| - 1], c)
  }

  lemma OneStep(u: string, path: string, sc: Scanner)
    requires u != "" && sc.j <= sc.i
    ensures var m := Advance(u, path, sc);
            Scan(u, path, sc) == if m.Stop? then m.answer else Scan(u[m.used..], path, m.next)
  {
    hide Advance;
  }

  lemma KeyCloses(u: string, path: string, sc: Scanner)
    requires CharAt(u, 0, '}') && sc.want == Key && sc.j <= sc.i && Closes(sc, '}')
    ensures Scan(u, path, sc) == Closed(path, sc, 1, u[1..])
  {
    hide Scan, StringLength;
    OneStep(u, path, sc);
  }

  lemma KeyIsTaken(u: string, path: string, sc: Scanner)
    requires CharAt(u, 0, '\"') && StringLength(u[1..]).Some? && sc.want == Key && sc.j <= sc.i && sc.ed <= |sc.nesting|
    requires |sc.nesting| == sc.ed ==> sc.pos > 0 && CharAt(path, sc.pos - 1, '.')
    ensures var n := StringLength(u[1..]).value;
            var matched := |sc.nesting| == sc.ed && KeyMatches(u[1..n + 1], path, sc.pos);
            Scan(u, path, sc)
            == Scan(u[n + 2..], path, sc.(i := sc.i + n + 2, pos := if matched then sc.pos + n else sc.pos, want := Colon))
  {
    hide Scan, StringLength, KeyMatches;
    OneStep(u, path, sc);
  }

  lemma KeyIsRefused(u: string, path: string, sc: Scanner)
    requires sc.want == Key && sc.j <= sc.i && (u != "" ==> !Blank(u[0])) && !CharAt(u, 0, '}')
    requires CharAt(u, 0, '\"') ==> StringLength(u[1..]).None?
    ensures Scan(u, path, sc) == Failed
  {
    hide StringLength, KeyMatches;
  }

  lemma ColonStep(u: string, path: string, sc: Scanner)
    requires sc.want == Colon && sc.j <= sc.i && (u != "" ==> !Blank(u[0]))
    ensures Scan(u, path, sc) ==
            if CharAt(u, 0, ':') then Scan(u[1..], path, sc.(i := sc.i + 1, want := Value)) else Failed
  {
  }

  lemma CommaStep(u: string, path: string, sc: Scanner)
    requires sc.want == CommaOrEnd && sc.j <= sc.i && (u != "" ==> !Blank(u[0])) && sc.ed < |sc.nesting|
    ensures Scan(u, path, sc) ==
            if CharAt(u, 0, ',')
            then Scan(u[1..], path, sc.(i := sc.i + 1, want := if sc.nesting[|sc.nesting| - 1] == '{' then Key else Value))
            else if u != "" && Closes(sc, u[0]) then Closed(path, sc, 1, u[1..])
            else Failed
  {
  }

  /** Behind a value at the depth of the path only a comma goes on. */
  lemma TopCommaStep(u: string, path: string, sc: Scanner)
    requires sc.want == CommaOrEnd && sc.j <= sc.i && (u != "" ==> !Blank(u[0]))
    requires sc.nesting == "{" && sc.ed == 1 && sc.pos > 0 && CharAt(path, sc.pos - 1, '.')
    ensures Scan(u, path, sc) ==
            if CharAt(u, 0, ',') then Scan(u[1..], path, sc.(i := sc.i + 1, want := Key)) else Failed
  {
  }

  lemma ScalarStep(u: string, path: string, sc: Scanner)
    requires sc.want == Value && sc.j <= sc.i && u != "" && !Blank(u[0]) && u[0] != '{' && u[0] != '['
    requires u[0] == ']' ==> !Closes(sc, ']')
    ensures Scan(u, path, sc) ==
            match ScalarLength(u) case None => Failed case Some(n) => Passed(path, sc, n, u[n..])
  {
    hide StringLength, NumberLength;
  }

  lemma TooDeep(u: string, path: string, sc: Scanner)
    requires sc.want == Value && sc.j <= sc.i && u != "" && (u[0] == '{' || u[0] == '[') && |sc.nesting| >= 30
    ensures Scan(u, path, sc) == Failed
  {
  }

  lemma NothingIsFound(path: string, sc: Scanner)
    requires sc.j <= sc.i
    ensures Scan("", path, sc) == Failed
  {
  }

  /** Behind the outermost value nothing is found any more. */
  lemma {:induction false} NothingBehind(u: string, path: string, sc: Scanner)
    requires sc.want == CommaOrEnd && sc.nesting == "" && sc.j <= sc.i
    ensures Scan(u, path, sc) == Failed
    decreases |u|
  {
    if u != "" && Blank(u[0]) {
      NothingBehind(u[1..], path, sc.(i := sc.i + 1));
    }
  }

  // -------------------------------------------------------------- values and lists

  lemma ColonAgrees(u: string, path: string, sc: Scanner)
    requires sc.want == Colon && sc.j <= sc.i
    ensures match ColonLen(u)
            case None => Scan(u, path, sc) == Failed
            case Some(k) =>
              Scan(u, path, sc) == Scan(u[k..], path, sc.(i := sc.i + k, want := Value)) && (k < |u| ==> !Blank(u[k]))
  {
    hide Scan, Gap, Blanks, Blank;
    var g := Gap(u);
    GapIsSkipped(u, path, sc);
    ColonStep(u[g..], path, sc.(i := sc.i + g));
    if CharAt(u, g, ':') {
      assert u[g..][1..] == u[g + 1..];
      GapIsSkipped(u[g + 1..], path, sc.(i := sc.i + g + 1, want := Value));
      assert u[g + 1..][Gap(u[g + 1..])..] == u[g + 1 + Gap(u[g + 1..])..];
    }
  }

  lemma KeyAgrees(u: string, path: string, sc: Scanner)
    requires sc.want == Key && sc.j <= sc.i && sc.ed <= |sc.nesting| && (u != "" ==> !Blank(u[0])) && !CharAt(u, 0, '}')
    requires |sc.nesting| == sc.ed ==> sc.pos > 0 && CharAt(path, sc.pos - 1, '.')
    ensures match KeyLen(u)
            case None => Scan(u, path, sc) == Failed
            case Some(k) =>
              var name := KeyName(u);
              var matched := |sc.nesting| == sc.ed && KeyMatches(name, path, sc.pos);
              && Scan(u, path, sc)
                 == Scan(u[k..], path, sc.(i := sc.i + k, pos := if matched then sc.pos + |name| else sc.pos, want := Value))
              && (k < |u| ==> !Blank(u[k]))
  {
    hide Scan, ColonLen, StringLength, KeyMatches, Blank;
    if CharAt(u, 0, '\"') && StringLength(u[1..]).Some? {
      var n := StringLength(u[1..]).value;
      var matched := |sc.nesting| == sc.ed && KeyMatches(u[1..n + 1], path, sc.pos);
      KeyIsTaken(u, path, sc);
      ColonAgrees(u[n + 2..], path, sc.(i := sc.i + n + 2, pos := if matched then sc.pos + n else sc.pos, want := Colon));
      if ColonLen(u[n + 2..]).Some? {
        assert u[n + 2..][ColonLen(u[n + 2..]).value..] == u[n + 2 + ColonLen(u[n + 2..]).value..];
      }
    } else {
      KeyIsRefused(u, path, sc);
    }
  }

  /** Behind a value inside an object or array: a comma, or the closing bracket. */
  lemma CommaAgrees(u: string, path: string, sc: Scanner)
    requires sc.want == CommaOrEnd && sc.j <= sc.i && sc.ed < |sc.nesting|
    requires Pairs(sc.nesting[|sc.nesting| - 1], if sc.nesting[|sc.nesting| - 1] == '{' then '}' else ']')
    ensures var e := Gap(u); var inObject := sc.nesting[|sc.nesting| - 1] == '{';
            Scan(u, path, sc)
            == if CharAt(u, e, if inObject then '}' else ']') then Closed(path, sc, e + 1, u[e + 1..])
               else if CharAt(u, e, ',')
               then Scan(u[e + 1..], path, sc.(i := sc.i + e + 1, want := if inObject then Key else Value))
               else Failed
  {
    hide Scan, Gap, Blanks, Blank;
    var e := Gap(u);
    GapIsSkipped(u, path, sc);
    CommaStep(u[e..], path, sc.(i := sc.i + e));
    if e < |u| {
      assert u[e..][1..] == u[e + 1..];
    }
  }

  lemma {:induction false} ValueAgrees(u: string, path: string, sc: Scanner)
    requires AtHand(path, sc) && (u != "" ==> !Blank(u[0])) && !(CharAt(u, 0, ']') && Closes(sc, ']'))
    ensures match ValueLen(u, |sc.nesting|)
            case None => Scan(u, path, sc) == Failed
            case Some(n) => Scan(u, path, sc) == Passed(path, sc, n, u[n..])
    decreases |u|, 0
  {
    hide Scan, Passed, Closed, Blank, ScalarLength, FieldsLen, ItemsLen, PathEnds;
    if u == "" {
      NothingIsFound(path, sc);
    } else if u[0] != '{' && u[0] != '[' {
      ScalarStep(u, path, sc);
    } else if |sc.nesting| >= 30 {
      TooDeep(u, path, sc);
    } else {
      var o := Opened(sc, u[0]);
      assert u == [u[0]] + u[1..];
      BracketIsScanned(u[0], u[1..], path, sc);
      if u[0] == '{' {
        FieldsAgree(u[1..], path, o);
        PassedBehind(u, path, sc, FieldsLen(u[1..], |sc.nesting| + 1));
      } else {
        ItemsAgree(u[1..], path, o);
        PassedBehind(u, path, sc, ItemsLen(u[1..], |sc.nesting| + 1));
      }
    }
  }

  lemma PassedBehind(u: string, path: string, sc: Scanner, r: Option<nat>)
    requires AtHand(path, sc) && u != "" && (r.Some? ==> 0 < r.value < |u|)
    ensures r.Some? ==>
              Closed(path, Opened(sc, u[0]), r.value, u[1..][r.value..]) == Passed(path, sc, r.value + 1, u[r.value + 1..])
  {
    hide Passed, Closed, Opened, AtHand;
    if r.Some? {
      assert u[1..][r.value..] == u[r.value + 1..];
      ClosedIsPassed(path, sc, u[0], r.value - 1, u[r.value + 1..]);
    }
  }

  /** Where the scan goes on does not depend on how the scanner got there. */
  lemma ClosedLater(u: string, m: nat, w: string, path: string, sc: Scanner, sc': Scanner)
    requires m <= |u| && w == u[m..] && sc.nesting != "" && sc.j <= sc.i && sc' == sc.(i := sc.i + m, want := sc'.want)
    ensures forall n: nat :: 0 < n <= |w| ==> Closed(path, sc', n, w[n..]) == Closed(path, sc, m + n, u[m + n..])
  {
    hide Scan, PathEnds;
    forall n: nat | 0 < n <= |w|
      ensures Closed(path, sc', n, w[n..]) == Closed(path, sc, m + n, u[m + n..])
    {
      assert w[n..] == u[m + n..];
    }
  }

  lemma InsideIsPassed(path: string, sc: Scanner, n: nat, post: string)
    requires sc.j <= sc.i && n > 0 && sc.ed < |sc.nesting|
    ensures Passed(path, sc, n, post) == Scan(post, path, sc.(i := sc.i + n, want := CommaOrEnd))
  {
    hide Scan;
  }

  function Closer(sc: Scanner): char
    requires sc.nesting != ""
  {
    if sc.nesting[|sc.nesting| - 1] == '{' then '}' else ']'
  }

  /** A value inside an object or array, and what stands behind it. */
  lemma {:induction false} ElementAgrees(w: string, path: string, sc: Scanner)
    requires sc.want == Value && sc.j <= sc.i && sc.ed < |sc.nesting| && Closes(sc, Closer(sc))
    requires (w != "" ==> !Blank(w[0])) && !(CharAt(w, 0, ']') && Closes(sc, ']'))
    ensures match Element(w, |sc.nesting|, Closer(sc))
            case Neither => Scan(w, path, sc) == Failed
            case Closing(n) => Scan(w, path, sc) == Closed(path, sc, n, w[n..])
            case More(n) =>
              Scan(w, path, sc) == Scan(w[n..], path, sc.(i := sc.i + n, want := if Closer(sc) == '}' then Key else Value))
    decreases |w|, 1
  {
    hide Scan, Passed, Closed, Blank, Blanks, ValueLen, Gap, PathEnds;
    ValueAgrees(w, path, sc);
    if ValueLen(w, |sc.nesting|).Some? {
      var n := ValueLen(w, |sc.nesting|).value;
      var sc1 := sc.(i := sc.i + n, want := CommaOrEnd);
      InsideIsPassed(path, sc, n, w[n..]);
      CommaAgrees(w[n..], path, sc1);
      var g := Gap(w[n..]);
      if n + g < |w| {
        assert w[n..][g + 1..] == w[n + g + 1..];
        ClosedLater(w, n, w[n..], path, sc, sc1);
      }
    }
  }

  /** The rest of an object that the path does not go into. */
  lemma {:induction false} FieldsAgree(u: string, path: string, sc: Scanner)
    requires sc.want == Key && sc.j <= sc.i && sc.ed < |sc.nesting| && sc.nesting[|sc.nesting| - 1] == '{'
    ensures match FieldsLen(u, |sc.nesting|)
            case None => Scan(u, path, sc) == Failed
            case Some(n) => Scan(u, path, sc) == Closed(path, sc, n, u[n..])
    decreases |u|, 2
  {
    hide Scan, Closed, Blank, Blanks, KeyLen, KeyName, KeyMatches, Element, Gap;
    var g := Gap(u);
    var sc1 := sc.(i := sc.i + g);
    GapIsSkipped(u, path, sc);
    if CharAt(u, g, '}') {
      KeyCloses(u[g..], path, sc1);
      ClosedLater(u, g, u[g..], path, sc, sc1);
    } else {
      KeyAgrees(u[g..], path, sc1);
      if KeyLen(u[g..]).Some? {
        var k := KeyLen(u[g..]).value;
        assert u[g..][k..] == u[g + k..];
        FieldBehindKey(u, g + k, path, sc);
      }
    }
  }

  lemma {:induction false} FieldBehindKey(u: string, m: nat, path: string, sc: Scanner)
    requires sc.want == Key && sc.j <= sc.i && sc.ed < |sc.nesting| && sc.nesting[|sc.nesting| - 1] == '{'
    requires 0 < m <= |u| && (m < |u| ==> !Blank(u[m]))
    ensures var a := Scan(u[m..], path, sc.(i := sc.i + m, want := Value));
            match Element(u[m..], |sc.nesting|, '}')
            case Neither => a == Failed
            case Closing(n) => a == Closed(path, sc, m + n, u[m + n..])
            case More(n) =>
              match Plus(m + n, FieldsLen(u[m + n..], |sc.nesting|))
              case None => a == Failed
              case Some(l) => a == Closed(path, sc, l, u[l..])
    decreases |u|, 1
  {
    hide Scan, Closed, Blank, Element, FieldsLen;
    var w := u[m..];
    var sc2 := sc.(i := sc.i + m, want := Value);
    ElementAgrees(w, path, sc2);
    ClosedLater(u, m, w, path, sc, sc2);
    if Element(w, |sc.nesting|, '}').More? {
      FieldsGoOn(u, m, Element(w, |sc.nesting|, '}').n, path, sc);
    }
  }

  lemma {:induction false} FieldsGoOn(u: string, m: nat, n: nat, path: string, sc: Scanner)
    requires sc.want == Key && sc.j <= sc.i && sc.ed < |sc.nesting| && sc.nesting[|sc.nesting| - 1] == '{'
    requires n > 0 && m + n <= |u|
    ensures u[m..][n..] == u[m + n..]
    ensures var sc' := sc.(i := sc.i + m + n);
            match Plus(m + n, FieldsLen(u[m + n..], |sc.nesting|))
            case None => Scan(u[m + n..], path, sc') == Failed
            case Some(l) => Scan(u[m + n..], path, sc') == Closed(path, sc, l, u[l..])
    decreases |u|, 0
  {
    hide Scan, Closed, FieldsLen;
    var sc' := sc.(i := sc.i + m + n);
    FieldsAgree(u[m + n..], path, sc');
    ClosedLater(u, m + n, u[m + n..], path, sc, sc');
  }

  /** The rest of an array. */
  lemma {:induction false} ItemsAgree(u: string, path: string, sc: Scanner)
    requires sc.want == Value && sc.j <= sc.i && sc.ed < |sc.nesting| && sc.nesting[|sc.nesting| - 1] == '['
    ensures match ItemsLen(u, |sc.nesting|)
            case None => Scan(u, path, sc) == Failed
            case Some(n) => Scan(u, path, sc) == Closed(path, sc, n, u[n..])
    decreases |u|, 2
  {
    hide Scan, Closed, Blank, Blanks, Element, Gap;
    var g := Gap(u);
    var w := u[g..];
    var sc1 := sc.(i := sc.i + g);
    GapIsSkipped(u, path, sc);
    ClosedLater(u, g, w, path, sc, sc1);
    if CharAt(u, g, ']') {
      assert w == "]" + w[1..];
      CloseIsScanned(']', w[1..], path, sc1);
    } else {
      ElementAgrees(w, path, sc1);
      if Element(w, |sc.nesting|, ']').More? {
        ItemsGoOn(u, g, Element(w, |sc.nesting|, ']').n, path, sc);
      }
    }
  }

  lemma {:induction false} ItemsGoOn(u: string, m: nat, n: nat, path: string, sc: Scanner)
    requires sc.want == Value && sc.j <= sc.i && sc.ed < |sc.nesting| && sc.nesting[|sc.nesting| - 1] == '['
    requires n > 0 && m + n <= |u|
    ensures u[m..][n..] == u[m + n..]
    ensures var sc' := sc.(i := sc.i + m + n);
            match Plus(m + n, ItemsLen(u[m + n..], |sc.nesting|))
            case None => Scan(u[m + n..], path, sc') == Failed
            case Some(l) => Scan(u[m + n..], path, sc') == Closed(path, sc, l, u[l..])
    decreases |u|, 1
  {
    hide Scan, Closed, ItemsLen;
    var sc' := sc.(i := sc.i + m + n);
    ItemsAgree(u[m + n..], path, sc');
    ClosedLater(u, m + n, u[m + n..], path, sc, sc');
  }

  // ------------------------------------------------------------------- the lookup

  /** A name that is one component of a path. */
  predicate Component(name: string) {
    name != "" && forall k :: 0 <= k < |name| ==> name[k] != '.' && name[k] != '['
  }

  lemma MatchesIffEqual(key: string, name: string)
    requires Component(name)
    ensures KeyMatches(key, "$." + name, 2) <==> key == name
  {
    var path := "$." + name;
    assert path[2..] == name && forall k :: 0 <= k < |name| ==> path[2 + k] == name[k];
    assert path[2..2 + |name|] == name == name[..|name|];
    if KeyMatches(key, path, 2) {
      assert path[2..2 + |key|] == name[..|key|];
    }
  }

  /** Behind a field that was not sought. */
  lemma NextField(w: string, n: nat, path: string, sc: Scanner)
    requires sc.j <= sc.i && sc.nesting == "{" && sc.ed == 1 && sc.pos == 2 && |path| > 2 && path[1] == '.' && 0 < n <= |w|
    ensures var e := n + Gap(w[n..]); var a := Passed(path, sc, n, w[n..]);
            if CharAt(w, e, ',') then a == Scan(w[e + 1..], path, sc.(i := sc.i + e + 1, j := sc.i, want := Key))
            else a == Failed
  {
    hide Scan, Gap, Blanks, Blank;
    var g := Gap(w[n..]);
    var sc1 := sc.(i := sc.i + n, j := sc.i, want := CommaOrEnd);
    GapIsSkipped(w[n..], path, sc1);
    assert w[n..][g..] == w[n + g..];
    TopCommaStep(w[n + g..], path, sc1.(i := sc1.i + g));
    if n + g < |w| {
      assert w[n + g..][1..] == w[n + g + 1..];
    }
  }

  lemma EmptyObjectEnds(u: string, path: string, sc: Scanner)
    requires CharAt(u, 0, '}') && sc.want == Key && sc.j <= sc.i && sc.nesting == "{" && sc.ed == 1
    ensures Scan(u, path, sc) == Failed
  {
    hide Scan;
    KeyCloses(u, path, sc);
    NothingBehind(u[1..], path, sc.(i := sc.i + 1, nesting := "", want := CommaOrEnd));
  }

  lemma {:induction false} FieldAtAgrees(u: string, name: string, sc: Scanner)
    requires Component(name) && sc.j <= sc.i && sc == Scanner(sc.i, sc.j, "{", 1, 2, Key)
    ensures Scan(u, "$." + name, sc) == FieldAt(u, name, sc.i)
    decreases |u|, 1
  {
    hide Scan, Gap, KeyLen, KeyName, KeyMatches, ValueLen, Element, Passed, Blanks, Blank, Component, FoundValue, BehindValue;
    var path, g := "$." + name, Gap(u);
    var v := u[g..];
    var sc1 := sc.(i := sc.i + g);
    GapIsSkipped(u, path, sc);
    if CharAt(v, 0, '}') {
      NoKeyHere(v);
      EmptyObjectEnds(v, path, sc1);
    } else {
      KeyAgrees(v, path, sc1);
      if KeyLen(v).Some? {
        var k := KeyLen(v).value;
        assert v[k..] == u[g + k..];
        MatchesIffEqual(KeyName(v), name);
        FieldValueAgrees(u, g + k, name, KeyName(v) == name, sc);
      }
    }
  }

  lemma NoKeyHere(v: string)
    requires CharAt(v, 0, '}')
    ensures KeyLen(v).None?
  {
  }

  lemma {:induction false} FieldValueAgrees(u: string, m: nat, name: string, matched: bool, sc: Scanner)
    requires Component(name) && sc.j <= sc.i && sc == Scanner(sc.i, sc.j, "{", 1, 2, Key)
    requires 0 < m <= |u| && (m < |u| ==> !Blank(u[m]))
    ensures var sc2 := sc.(i := sc.i + m, pos := if matched then 2 + |name| else 2, want := Value);
            Scan(u[m..], "$." + name, sc2) == if matched then FoundValue(u, m, sc.i) else BehindValue(u, m, name, sc.i)
    decreases |u|, 0
  {
    hide Scan, Gap, ValueLen, FieldAt, Blanks, Blank;
    var path, w := "$." + name, u[m..];
    var sc2 := sc.(i := sc.i + m, pos := if matched then 2 + |name| else 2, want := Value);
    ValueAgrees(w, path, sc2);
    if !matched && ValueLen(w, 1).Some? {
      var n := ValueLen(w, 1).value;
      NextField(w, n, path, sc2);
      var e := n + Gap(w[n..]);
      if CharAt(w, e, ',') {
        assert w[e + 1..] == u[m + e + 1..];
        FieldAtAgrees(u[m + e + 1..], name, sc2.(i := sc2.i + e + 1, j := sc2.i, want := Key));
      }
    }
  }

  lemma TopScalar(u: string, path: string, sc: Scanner)
    requires sc == Scanner(sc.i, sc.j, "", 0, 1, Value) && sc.j <= sc.i && |path| > 1
    requires u != "" && !Blank(u[0]) && u[0] != '{' && u[0] != '['
    ensures Scan(u, path, sc) == Failed
  {
    hide Scan, ScalarLength, Blank;
    ScalarStep(u, path, sc);
    if ScalarLength(u).Some? {
      var n := ScalarLength(u).value;
      NothingBehind(u[n..], path, sc.(i := sc.i + n, j := sc.i, want := CommaOrEnd));
    }
  }

  lemma TopArray(u: string, path: string, sc: Scanner)
    requires sc == Scanner(sc.i, sc.j, "", 0, 1, Value) && sc.j <= sc.i && |path| > 1 && CharAt(u, 0, '[')
    ensures Scan(u, path, sc) == Failed
  {
    hide Scan, ItemsLen;
    var o := sc.(i := sc.i + 1, j := sc.i, nesting := "[");
    ArrayIsEntered(u, path, sc);
    ItemsAgree(u[1..], path, o);
    if ItemsLen(u[1..], 1).Some? {
      var n := ItemsLen(u[1..], 1).value;
      NothingBehind(u[1..][n..], path, o.(i := o.i + n, nesting := "", want := CommaOrEnd));
    }
  }

  lemma ArrayIsEntered(u: string, path: string, sc: Scanner)
    requires sc == Scanner(sc.i, sc.j, "", 0, 1, Value) && sc.j <= sc.i && CharAt(u, 0, '[')
    ensures Scan(u, path, sc) == Scan(u[1..], path, sc.(i := sc.i + 1, j := sc.i, nesting := "["))
  {
    hide Scan, ScalarLength;
    assert "" + "[" == "[";
    OneStep(u, path, sc);
  }

  lemma ObjectIsEntered(u: string, path: string, sc: Scanner)
    requires sc == Scanner(sc.i, sc.j, "", 0, 1, Value) && sc.j <= sc.i && CharAt(u, 0, '{') && CharAt(path, 1, '.')
    ensures Scan(u, path, sc) == Scan(u[1..], path, Scanner(sc.i + 1, sc.i, "{", 1, 2, Key))
  {
    hide Scan, ScalarLength;
    assert "" + "{" == "{";
    OneStep(u, path, sc);
  }

  /** On every text the scanner finds what the grammar says, and fails where the grammar
      does. */
  lemma LocateIsTheGrammar(json: string, name: string)
    requires Component(name)
    ensures Locate(json, name) == ValueOf(json, name)
  {
    hide Scan, Gap, FieldAt, Blanks, Blank, Component;
    var path, g := "$." + name, Gap(json);
    var sc := Scanner(0, 0, "", 0, 1, Value);
    var sc1 := sc.(i := g);
    GapIsSkipped(json, path, sc);
    if g == |json| {
      assert json[g..] == "";
      NothingIsFound(path, sc1);
    } else if json[g] == '{' {
      ObjectIsEntered(json[g..], path, sc1);
      assert json[g..][1..] == json[g + 1..];
      FieldAtAgrees(json[g + 1..], name, Scanner(g + 1, g, "{", 1, 2, Key));
    } else {
      if json[g] == '[' {
        TopArray(json[g..], path, sc1);
      } else {
        TopScalar(json[g..], path, sc1);
      }
    }
  }
}
