/**
 Lookups in objects of any shape: values nested to any depth the scanner allows, and blanks
 wherever JSON has them.
 */
module JsonLookup {
  import opened Common
  import opened JsonText
  import opened JsonScan

  datatype Json = Leaf(tok: Token) | Arr(items: seq<Item>, blank: string) | Obj(fields: seq<Field>, blank: string)

  /** A value with the blanks around it. */
  datatype Item = Item(before: string, value: Json, after: string)

  /** A name with the blanks around it, and its value. */
  datatype Field = Field(before: string, name: string, after: string, item: Item)

  function Text(v: Json): string {
    match v
    case Leaf(tok) => TokenText(tok)
    case Arr(items, blank) => "[" + (if items == [] then blank else ItemsText(items)) + "]"
    case Obj(fields, blank) => "{" + (if fields == [] then blank else FieldsText(fields)) + "}"
  }

  function ItemText(x: Item): string {
    x.before + Text(x.value) + x.after
  }

  function ItemsText(xs: seq<Item>): string
    requires xs != []
  {
    ItemText(xs[0]) + if |xs| == 1 then "" else "," + ItemsText(xs[1..])
  }

  function NameText(f: Field): string {
    f.before + "\"" + f.name + "\"" + f.after + ":"
  }

  function FieldText(f: Field): string {
    NameText(f) + ItemText(f.item)
  }

  function FieldsText(fs: seq<Field>): string
    requires fs != []
  {
    FieldText(fs[0]) + if |fs| == 1 then "" else "," + FieldsText(fs[1..])
  }

  predicate Blanks(s: string) {
    forall k :: 0 <= k < |s| ==> Blank(s[k])
  }

  /** What the scanner reads as one key, escapes included. */
  ghost predicate KeyOk(name: string) {
    forall post :: StringLength(name + "\"" + post) == Some(|name|)
  }

  /** A value that the scanner takes with `depth` brackets open around it. */
  ghost predicate Ok(v: Json, depth: nat) {
    match v
    case Leaf(tok) => TokenOk(tok)
    case Arr(items, blank) =>
      depth < MAX_DEPTH && Blanks(blank) && forall k :: 0 <= k < |items| ==> ItemOk(items[k], depth + 1)
    case Obj(fields, blank) =>
      depth < MAX_DEPTH && Blanks(blank) && forall k :: 0 <= k < |fields| ==> FieldOk(fields[k], depth + 1)
  }

  ghost predicate ItemOk(x: Item, depth: nat) {
    Blanks(x.before) && Ok(x.value, depth) && Blanks(x.after)
  }

  ghost predicate FieldOk(f: Field, depth: nat) {
    Blanks(f.before) && KeyOk(f.name) && Blanks(f.after) && ItemOk(f.item, depth)
  }

  // --------------------------------------------------------------------- the steps

  lemma {:induction false} BlanksSkipped(b: string, rest: string, path: string, sc: Scanner)
    requires Blanks(b) && sc.j <= sc.i
    ensures Scan(b + rest, path, sc) == Scan(rest, path, sc.(i := sc.i + |b|))
    decreases |b|
  {
    hide AtValue, AtKey, AtComma;
    if b == "" {
      assert b + rest == rest;
    } else {
      assert (b + rest)[1..] == b[1..] + rest;
      BlanksSkipped(b[1..], rest, path, sc.(i := sc.i + 1));
    }
  }

  /** Where a scan goes on behind a closing bracket that takes it to the end of a value. */
  function Closed(path: string, sc: Scanner, n: nat, post: string): Answer
    requires sc.nesting != "" && sc.j <= sc.i && n > 0
  {
    var out := sc.nesting[..|sc.nesting| - 1];
    if |out| == sc.ed && PathEnds(path, sc.pos) then Found(sc.j, sc.i + n - sc.j)
    else Scan(post, path, sc.(i := sc.i + n, nesting := out, want := CommaOrEnd))
  }

  predicate Pairs(open: char, close: char) {
    (open == '{' && close == '}') || (open == '[' && close == ']')
  }

  lemma CloseIsScanned(close: char, post: string, path: string, sc: Scanner)
    requires sc.nesting != "" && sc.j <= sc.i && (sc.want == Key || sc.ed < |sc.nesting|)
    requires Pairs(sc.nesting[|sc.nesting| - 1], close)
    requires sc.want == CommaOrEnd || (sc.want == Value && close == ']') || (sc.want == Key && close == '}')
    ensures Scan([close] + post, path, sc) == Closed(path, sc, 1, post)
  {
    assert ([close] + post)[1..] == post;
    assert ([close] + post)[0] == close;
  }

  lemma CommaIsScanned(post: string, path: string, sc: Scanner)
    requires sc.nesting != "" && sc.j <= sc.i && sc.want == CommaOrEnd
    ensures var inObject := sc.nesting[|sc.nesting| - 1] == '{';
            Scan("," + post, path, sc) == Scan(post, path, sc.(i := sc.i + 1, want := if inObject then Key else Value))
  {
    assert ("," + post)[1..] == post;
  }

  /** Where a value starts, for the path. */
  function Begun(sc: Scanner): Scanner {
    if |sc.nesting| == sc.ed then sc.(j := sc.i) else sc
  }

  /** The scanner may take a value here: below the path's depth nothing matters, at it the
      path does not go on into the value. */
  predicate AtHand(path: string, sc: Scanner) {
    sc.want == Value && sc.j <= sc.i && sc.ed <= |sc.nesting| && (|sc.nesting| == sc.ed ==> !CharAt(path, sc.pos, '.'))
  }

  /** Inside a value that has just been opened. */
  function Opened(sc: Scanner, bracket: char): Scanner {
    var b := Begun(sc);
    b.(i := b.i + 1, nesting := b.nesting + [bracket], want := if bracket == '{' then Key else Value)
  }

  lemma BracketAdvances(bracket: char, post: string, path: string, sc: Scanner)
    requires AtHand(path, sc) && |sc.nesting| < MAX_DEPTH && (bracket == '[' || bracket == '{')
    ensures AtValue([bracket] + post, path, sc) == Go(Opened(sc, bracket), 1)
  {
    hide ScalarLength, AfterClose, AfterValue;
    assert ([bracket] + post)[0] == bracket;
  }

  lemma BracketIsScanned(bracket: char, post: string, path: string, sc: Scanner)
    requires AtHand(path, sc) && |sc.nesting| < MAX_DEPTH && (bracket == '[' || bracket == '{')
    ensures Scan([bracket] + post, path, sc) == Scan(post, path, Opened(sc, bracket))
  {
    hide AtValue, Opened, CharAt;
    BracketAdvances(bracket, post, path, sc);
    assert ([bracket] + post)[1..] == post;
  }

  lemma NameAdvances(name: string, post: string, path: string, sc: Scanner)
    requires KeyOk(name) && sc.want == Key && sc.j <= sc.i && sc.ed <= |sc.nesting|
    requires |sc.nesting| == sc.ed ==> sc.pos > 0 && CharAt(path, sc.pos - 1, '.')
    ensures var matched := |sc.nesting| == sc.ed && KeyMatches(name, path, sc.pos);
            var next := sc.(i := sc.i + |name| + 2, pos := if matched then sc.pos + |name| else sc.pos, want := Colon);
            Scan("\"" + name + "\"" + post, path, sc) == Scan(post, path, next)
  {
    hide StringLength, KeyMatches;
    var u := "\"" + name + "\"" + post;
    assert u[1..] == name + "\"" + post && u[1..|name| + 1] == name;
    assert u[|name| + 2..] == post;
  }

  /** A name and its colon, with the blanks around them. */
  lemma NameIsScanned(f: Field, post: string, path: string, sc: Scanner)
    requires Blanks(f.before) && KeyOk(f.name) && Blanks(f.after)
    requires sc.want == Key && sc.j <= sc.i && sc.ed <= |sc.nesting|
    requires |sc.nesting| == sc.ed ==> sc.pos > 0 && CharAt(path, sc.pos - 1, '.')
    ensures var matched := |sc.nesting| == sc.ed && KeyMatches(f.name, path, sc.pos);
            var next := sc.(i := sc.i + |NameText(f)|, pos := if matched then sc.pos + |f.name| else sc.pos, want := Value);
            Scan(NameText(f) + post, path, sc) == Scan(post, path, next)
  {
    hide Scan, KeyMatches, KeyOk, Blanks;
    var rest := f.after + (":" + post);
    assert NameText(f) + post == f.before + ("\"" + f.name + "\"" + rest);
    BlanksSkipped(f.before, "\"" + f.name + "\"" + rest, path, sc);
    var sc1 := sc.(i := sc.i + |f.before|);
    NameAdvances(f.name, rest, path, sc1);
    var matched := |sc.nesting| == sc.ed && KeyMatches(f.name, path, sc.pos);
    var sc2 := sc1.(i := sc1.i + |f.name| + 2, pos := if matched then sc.pos + |f.name| else sc.pos, want := Colon);
    BlanksSkipped(f.after, ":" + post, path, sc2);
    var sc3 := sc2.(i := sc2.i + |f.after|);
    ColonIsScanned(post, path, sc3);
  }

  lemma ColonIsScanned(post: string, path: string, sc: Scanner)
    requires sc.want == Colon && sc.j <= sc.i
    ensures Scan(":" + post, path, sc) == Scan(post, path, sc.(i := sc.i + 1, want := Value))
  {
    assert (":" + post)[1..] == post;
  }

  /** Where a scan goes on behind a value of `n` characters. */
  function Passed(path: string, sc: Scanner, n: nat, post: string): Answer
    requires sc.j <= sc.i && n > 0
  {
    var b := Begun(sc);
    if |sc.nesting| == sc.ed && PathEnds(path, sc.pos) then Found(sc.i, n)
    else Scan(post, path, b.(i := b.i + n, want := CommaOrEnd))
  }

  lemma LeafIsScanned(s: string, post: string, path: string, sc: Scanner)
    requires Scalar(s, post) && sc.want == Value && sc.j <= sc.i
    ensures Scan(s + post, path, sc) == Passed(path, sc, |s|, post)
  {
    hide ScalarLength, Blank, AfterClose;
    assert (s + post)[0] == s[0] && (s + post)[|s|..] == post;
  }

  // ------------------------------------------------------------------ nested values

  /** What follows the opening bracket of an array, and the position behind it. */
  lemma ArrayParts(v: Json, post: string)
    requires v.Arr?
    ensures var inner := if v.items == [] then v.blank else ItemsText(v.items);
            Text(v) + post == "[" + (inner + ("]" + post)) && |Text(v)| == |inner| + 2
  {
    hide ItemsText;
  }

  lemma ObjectParts(v: Json, post: string)
    requires v.Obj?
    ensures var inner := if v.fields == [] then v.blank else FieldsText(v.fields);
            Text(v) + post == "{" + (inner + ("}" + post)) && |Text(v)| == |inner| + 2
  {
    hide FieldsText;
  }

  /** Behind its closing bracket a value has been passed. */
  lemma ClosedIsPassed(path: string, sc: Scanner, bracket: char, n: nat, post: string)
    requires AtHand(path, sc)
    ensures var o := Opened(sc, bracket);
            Closed(path, o.(i := o.i + n), 1, post) == Passed(path, sc, n + 2, post)
    ensures Closed(path, Opened(sc, bracket), n + 1, post) == Passed(path, sc, n + 2, post)
  {
    hide Scan, PathEnds, CharAt;
    var o := Opened(sc, bracket);
    assert o.nesting[..|o.nesting| - 1] == sc.nesting;
  }

  /** A value of any depth is passed as a whole. */
  lemma {:induction false} ValueIsScanned(v: Json, post: string, path: string, sc: Scanner)
    requires Ok(v, |sc.nesting|) && AtHand(path, sc) && Ends(post)
    ensures Text(v) != "" && Scan(Text(v) + post, path, sc) == Passed(path, sc, |Text(v)|, post)
    decreases v
  {
    hide Scan, Text, TokenText, Scalar, Ends, Passed, Closed, ItemsText, FieldsText, ItemOk, FieldOk, Blanks, PathEnds, CharAt;
    match v {
      case Leaf(tok) =>
        TokenIsScalar(tok, post);
        ScalarIsText(TokenText(tok), post);
        LeafIsText(tok);
        LeafIsScanned(TokenText(tok), post, path, sc);
      case Arr(items, blank) =>
        var o := Opened(sc, '[');
        ArrayParts(v, post);
        if items == [] {
          BracketIsScanned('[', blank + ("]" + post), path, sc);
          BlanksSkipped(blank, "]" + post, path, o);
          CloseIsScanned(']', post, path, o.(i := o.i + |blank|));
          ClosedIsPassed(path, sc, '[', |blank|, post);
        } else {
          BracketIsScanned('[', ItemsText(items) + ("]" + post), path, sc);
          ItemsAreScanned(items, post, path, o);
          ClosedIsPassed(path, sc, '[', |ItemsText(items)|, post);
        }
      case Obj(fields, blank) =>
        var o := Opened(sc, '{');
        ObjectParts(v, post);
        if fields == [] {
          BracketIsScanned('{', blank + ("}" + post), path, sc);
          BlanksSkipped(blank, "}" + post, path, o);
          CloseIsScanned('}', post, path, o.(i := o.i + |blank|));
          ClosedIsPassed(path, sc, '{', |blank|, post);
        } else {
          BracketIsScanned('{', FieldsText(fields) + ("}" + post), path, sc);
          FieldsAreScanned(fields, post, path, o);
          ClosedIsPassed(path, sc, '{', |FieldsText(fields)|, post);
        }
    }
  }

  lemma LeafIsText(tok: Token)
    ensures Text(Leaf(tok)) == TokenText(tok)
  {
  }

  lemma ScalarIsText(s: string, post: string)
    requires Scalar(s, post)
    ensures s != ""
  {
  }

  /** A value with blanks around it, deeper than the path. */
  lemma {:induction false} ItemIsScanned(x: Item, post: string, path: string, sc: Scanner)
    requires ItemOk(x, |sc.nesting|) && sc.want == Value && sc.j <= sc.i && sc.ed < |sc.nesting| && Ends(post)
    ensures Scan(ItemText(x) + post, path, sc) == Scan(post, path, sc.(i := sc.i + |ItemText(x)|, want := CommaOrEnd))
    decreases x
  {
    hide Scan, Blanks, Ok, Text;
    var rest := x.after + post;
    assert ItemText(x) + post == x.before + (Text(x.value) + rest);
    BlanksSkipped(x.before, Text(x.value) + rest, path, sc);
    BlanksEnd(x.after, post);
    ValueIsScanned(x.value, rest, path, sc.(i := sc.i + |x.before|));
    BlanksSkipped(x.after, post, path, sc.(i := sc.i + |x.before| + |Text(x.value)|, want := CommaOrEnd));
  }

  lemma BlanksEnd(b: string, post: string)
    requires Blanks(b) && Ends(post)
    ensures Ends(b + post)
  {
    if b == "" {
      assert b + post == post;
    }
  }

  lemma {:induction false} ItemsAreScanned(xs: seq<Item>, post: string, path: string, sc: Scanner)
    requires xs != [] && (forall k :: 0 <= k < |xs| ==> ItemOk(xs[k], |sc.nesting|))
    requires sc.want == Value && sc.j <= sc.i && sc.ed < |sc.nesting| && sc.nesting[|sc.nesting| - 1] == '['
    ensures Scan(ItemsText(xs) + ("]" + post), path, sc) == Closed(path, sc, |ItemsText(xs)| + 1, post)
    decreases xs
  {
    hide Scan, ItemText, ItemOk;
    var n := |ItemText(xs[0])|;
    var sc1 := sc.(i := sc.i + n, want := CommaOrEnd);
    if |xs| == 1 {
      assert ItemsText(xs) + ("]" + post) == ItemText(xs[0]) + ("]" + post);
      ItemIsScanned(xs[0], "]" + post, path, sc);
      CloseIsScanned(']', post, path, sc1);
    } else {
      var rest := ItemsText(xs[1..]) + ("]" + post);
      assert ItemsText(xs) + ("]" + post) == ItemText(xs[0]) + ("," + rest);
      ItemIsScanned(xs[0], "," + rest, path, sc);
      CommaIsScanned(rest, path, sc1);
      ItemsAreScanned(xs[1..], post, path, sc1.(i := sc1.i + 1, want := Value));
    }
  }

  lemma {:induction false} FieldIsScanned(f: Field, post: string, path: string, sc: Scanner)
    requires FieldOk(f, |sc.nesting|) && sc.want == Key && sc.j <= sc.i && sc.ed < |sc.nesting| && Ends(post)
    ensures Scan(FieldText(f) + post, path, sc) == Scan(post, path, sc.(i := sc.i + |FieldText(f)|, want := CommaOrEnd))
    decreases f
  {
    hide Scan, Blanks, ItemOk, NameText, ItemText, KeyOk;
    assert FieldText(f) + post == NameText(f) + (ItemText(f.item) + post);
    NameIsScanned(f, ItemText(f.item) + post, path, sc);
    ItemIsScanned(f.item, post, path, sc.(i := sc.i + |NameText(f)|, want := Value));
  }

  lemma {:induction false} FieldsAreScanned(fs: seq<Field>, post: string, path: string, sc: Scanner)
    requires fs != [] && (forall k :: 0 <= k < |fs| ==> FieldOk(fs[k], |sc.nesting|))
    requires sc.want == Key && sc.j <= sc.i && sc.ed < |sc.nesting| && sc.nesting[|sc.nesting| - 1] == '{'
    ensures Scan(FieldsText(fs) + ("}" + post), path, sc) == Closed(path, sc, |FieldsText(fs)| + 1, post)
    decreases fs
  {
    hide Scan, FieldText, FieldOk;
    var n := |FieldText(fs[0])|;
    var sc1 := sc.(i := sc.i + n, want := CommaOrEnd);
    if |fs| == 1 {
      assert FieldsText(fs) + ("}" + post) == FieldText(fs[0]) + ("}" + post);
      FieldIsScanned(fs[0], "}" + post, path, sc);
      CloseIsScanned('}', post, path, sc1);
    } else {
      var rest := FieldsText(fs[1..]) + ("}" + post);
      assert FieldsText(fs) + ("}" + post) == FieldText(fs[0]) + ("," + rest);
      FieldIsScanned(fs[0], "," + rest, path, sc);
      CommaIsScanned(rest, path, sc1);
      FieldsAreScanned(fs[1..], post, path, sc1.(i := sc1.i + 1, want := Key));
    }
  }

  // ------------------------------------------------------------------------ lookups

  /** A name that stands in a path as one component. */
  predicate Sought(name: string) {
    name != "" && forall k :: 0 <= k < |name| ==> name[k] != '.' && name[k] != '['
  }

  lemma FieldsTextParts(fs: seq<Field>)
    requires fs != []
    ensures FieldsText(fs) == FieldText(fs[0]) + if |fs| == 1 then "" else "," + FieldsText(fs[1..])
  {
  }

  /** The first field with a name, or the number of fields if there is none. */
  function First(fs: seq<Field>, name: string): (k: nat)
    ensures k <= |fs| && (k < |fs| ==> fs[k].name == name)
    ensures forall i :: 0 <= i < k ==> fs[i].name != name
  {
    if fs == [] || fs[0].name == name then 0 else 1 + First(fs[1..], name)
  }

  /** Where the value of a field starts in the text of the fields. */
  function ValueAt(fs: seq<Field>, k: nat): nat
    requires k < |fs|
  {
    if k == 0 then |NameText(fs[0])| + |fs[0].item.before| else |FieldText(fs[0])| + 1 + ValueAt(fs[1..], k - 1)
  }

  /** The scanner inside the object, before a key, with the path not yet matched. */
  function BeforeKey(i: nat, j: nat): Scanner {
    Scanner(i, j, "{", 1, 2, Key)
  }

  lemma KeyDecides(name: string, target: string)
    requires Sought(target)
    ensures KeyMatches(name, "$." + target, 2) <==> name == target
  {
  }

  /** The field sought is found; any other is passed. */
  lemma FieldDecides(f: Field, target: string, post: string, i: nat, j: nat)
    requires FieldOk(f, 1) && Sought(target) && Ends(post) && j <= i
    ensures var v := i + |NameText(f)| + |f.item.before|;
            v <= i + |FieldText(f)| && Scan(FieldText(f) + post, "$." + target, BeforeKey(i, j))
            == if f.name == target then Found(v, |Text(f.item.value)|)
               else Scan(post, "$." + target, Scanner(i + |FieldText(f)|, v, "{", 1, 2, CommaOrEnd))
  {
    hide Scan, Blanks, Ok, Text, NameText, KeyOk, Sought, KeyMatches;
    var path, x := "$." + target, f.item;
    var v := i + |NameText(f)| + |x.before|;
    var pos := if f.name == target then 2 + |target| else 2;
    var rest := x.after + post;
    assert FieldText(f) + post == NameText(f) + (x.before + (Text(x.value) + rest));
    KeyDecides(f.name, target);
    SoughtIsNotEmpty(target);
    NameIsScanned(f, x.before + (Text(x.value) + rest), path, BeforeKey(i, j));
    BlanksSkipped(x.before, Text(x.value) + rest, path, Scanner(i + |NameText(f)|, j, "{", 1, pos, Value));
    BlanksEnd(x.after, post);
    ValueIsScanned(x.value, rest, path, Scanner(v, j, "{", 1, pos, Value));
    BlanksSkipped(x.after, post, path, Scanner(v + |Text(x.value)|, v, "{", 1, 2, CommaOrEnd));
  }

  lemma SoughtIsNotEmpty(target: string)
    requires Sought(target)
    ensures target != "" && !CharAt("$." + target, 2, '.')
  {
  }

  lemma EndMisses(post: string, path: string, i: nat, j: nat)
    requires CharAt(path, 1, '.') && j <= i
    ensures Scan("}" + post, path, Scanner(i, j, "{", 1, 2, CommaOrEnd)) == Failed
  {
  }

  lemma {:induction false} FieldsAreSearched(fs: seq<Field>, target: string, post: string, i: nat, j: nat)
    requires fs != [] && (forall k :: 0 <= k < |fs| ==> FieldOk(fs[k], 1)) && Sought(target) && j <= i
    ensures var k := First(fs, target);
            Scan(FieldsText(fs) + ("}" + post), "$." + target, BeforeKey(i, j))
            == if k < |fs| then Found(i + ValueAt(fs, k), |Text(fs[k].item.value)|) else Failed
    decreases fs
  {
    hide Scan, FieldText, NameText, FieldOk, Sought;
    var v, n := i + |NameText(fs[0])| + |fs[0].item.before|, |FieldText(fs[0])|;
    FieldHolds(fs[0]);
    if |fs| == 1 {
      assert FieldsText(fs) + ("}" + post) == FieldText(fs[0]) + ("}" + post);
      FieldDecides(fs[0], target, "}" + post, i, j);
      EndMisses(post, "$." + target, i + n, v);
    } else {
      var rest := FieldsText(fs[1..]) + ("}" + post);
      assert FieldsText(fs) + ("}" + post) == FieldText(fs[0]) + ("," + rest);
      FieldDecides(fs[0], target, "," + rest, i, j);
      CommaIsScanned(rest, "$." + target, Scanner(i + n, v, "{", 1, 2, CommaOrEnd));
      FieldsAreSearched(fs[1..], target, post, i + n + 1, v);
    }
  }

  lemma FieldHolds(f: Field)
    ensures |NameText(f)| + |f.item.before| <= |FieldText(f)|
  {
  }

  /** Behind the end of the text's value nothing is found. */
  lemma {:induction false} NothingBehind(post: string, path: string, sc: Scanner)
    requires sc.nesting == "" && sc.want == CommaOrEnd && sc.j <= sc.i
    ensures Scan(post, path, sc) == Failed
    decreases |post|
  {
    if post != "" && Blank(post[0]) {
      NothingBehind(post[1..], path, sc.(i := sc.i + 1));
    }
  }

  lemma BraceAdvances(post: string, path: string, i: nat)
    requires CharAt(path, 1, '.')
    ensures Advance("{" + post, path, Scanner(i, 0, "", 0, 1, Value)) == Go(BeforeKey(i + 1, i), 1)
  {
  }

  lemma BraceIsScanned(post: string, path: string, i: nat)
    requires CharAt(path, 1, '.')
    ensures Scan("{" + post, path, Scanner(i, 0, "", 0, 1, Value)) == Scan(post, path, BeforeKey(i + 1, i))
  {
    hide Advance, CharAt;
    BraceAdvances(post, path, i);
    assert ("{" + post)[1..] == post;
  }

  lemma ObjectIsSearched(before: string, v: Json, post: string, target: string)
    requires Blanks(before) && v.Obj? && Ok(v, 0) && Sought(target)
    ensures var k, i := First(v.fields, target), |before| + 1;
            Locate(before + Text(v) + post, target)
            == if k < |v.fields| then Found(i + ValueAt(v.fields, k), |Text(v.fields[k].item.value)|) else Failed
  {
    hide Scan, Text, FieldsText, FieldOk, Sought, Blanks, ValueAt;
    var path, fs, i := "$." + target, v.fields, |before| + 1;
    var inner := if fs == [] then v.blank else FieldsText(fs);
    ObjectParts(v, post);
    assert before + Text(v) + post == before + (Text(v) + post);
    BlanksSkipped(before, Text(v) + post, path, Scanner(0, 0, "", 0, 1, Value));
    BraceIsScanned(inner + ("}" + post), path, |before|);
    if fs == [] {
      BlanksSkipped(v.blank, "}" + post, path, BeforeKey(i, |before|));
      CloseIsScanned('}', post, path, BeforeKey(i + |v.blank|, |before|));
      NothingBehind(post, path, Scanner(i + |v.blank| + 1, |before|, "", 1, 2, CommaOrEnd));
    } else {
      FieldsAreSearched(fs, target, post, i, |before|);
    }
  }

  predicate StandsAt(t: string, u: string, o: nat) {
    o + |t| <= |u| && u[o..o + |t|] == t
  }

  lemma StandsThere(before: string, t: string, after: string)
    ensures StandsAt(t, before + t + after, |before|)
  {
  }

  lemma StandsLater(t: string, u: string, o: nat, before: string, after: string)
    requires StandsAt(t, u, o)
    ensures StandsAt(t, before + u + after, |before| + o)
  {
  }

  lemma {:induction false} ValueStands(fs: seq<Field>, k: nat)
    requires k < |fs|
    ensures StandsAt(Text(fs[k].item.value), FieldsText(fs), ValueAt(fs, k))
    decreases |fs|
  {
    hide Text, FieldText, NameText, StandsAt, FieldsText;
    var x, t, rest := fs[0].item, Text(fs[k].item.value), if |fs| == 1 then "" else "," + FieldsText(fs[1..]);
    FieldsTextParts(fs);
    if k == 0 {
      StandsThere(NameText(fs[0]) + x.before, t, x.after + rest);
      FieldParts(fs[0], rest);
    } else {
      ValueStands(fs[1..], k - 1);
      StandsLater(t, FieldsText(fs[1..]), ValueAt(fs[1..], k - 1), FieldText(fs[0]) + ",", "");
      assert FieldsText(fs) == FieldText(fs[0]) + "," + FieldsText(fs[1..]) + "";
    }
  }

  lemma FieldParts(f: Field, rest: string)
    ensures FieldText(f) + rest == NameText(f) + f.item.before + Text(f.item.value) + (f.item.after + rest)
  {
    hide NameText, Text;
  }

  lemma LookupTakes(json: string, name: string, o: nat, t: string)
    requires Locate(json, name) == Found(o, |t|) && StandsAt(t, json, o)
    ensures Lookup(json, name) == Some(t)
  {
  }

  /** In the text of any object, with values nested to any depth and blanks anywhere, a
      lookup yields the text of the value of the first field with that name, character
      by character, and nothing when no field has it. */
  lemma LookupFindsTheField(before: string, v: Json, post: string, name: string)
    requires Blanks(before) && v.Obj? && Ok(v, 0) && Sought(name)
    ensures var k := First(v.fields, name);
            Lookup(before + Text(v) + post, name)
            == if k < |v.fields| then Some(Text(v.fields[k].item.value)) else None
  {
    hide Text, FieldsText, Ok, Sought, Blanks, ValueAt, Locate, StandsAt;
    var k := First(v.fields, name);
    ObjectIsSearched(before, v, post, name);
    if k < |v.fields| {
      var t, u := Text(v.fields[k].item.value), FieldsText(v.fields);
      ValueStands(v.fields, k);
      StandsLater(t, u, ValueAt(v.fields, k), before + "{", "}" + post);
      ObjectParts(v, post);
      assert before + Text(v) + post == before + (Text(v) + post) == before + "{" + u + ("}" + post);
      LookupTakes(before + Text(v) + post, name, |before| + 1 + ValueAt(v.fields, k), t);
    }
  }

  lemma FieldIsOk(f: Field, depth: nat)
    requires FieldOk(f, depth)
    ensures Ok(f.item.value, depth)
  {
    hide Ok;
  }

  // ---------------------------------------------------------------- printed objects

  /** A printed member as a field: no escapes in its name, a scalar value, no blanks. */
  function AsField(m: Member): Field {
    Field("", m.name, "", Item("", Leaf(m.tok), ""))
  }

  function Fields(ms: seq<Member>): (fs: seq<Field>)
    ensures |fs| == |ms|
    ensures forall i :: 0 <= i < |ms| ==> fs[i] == AsField(ms[i])
  {
    if ms == [] then [] else Fields(ms[..|ms| - 1]) + [AsField(ms[|ms| - 1])]
  }

  lemma MemberIsField(m: Member)
    ensures FieldText(AsField(m)) == MemberText(m)
  {
    hide TokenText;
    LeafIsText(m.tok);
    assert NameText(AsField(m)) == KeyText(m.name);
    assert ItemText(AsField(m).item) == TokenText(m.tok);
  }

  lemma MembersTextParts(ms: seq<Member>)
    requires ms != []
    ensures MembersText(ms) == MemberText(ms[0]) + if |ms| == 1 then "" else "," + MembersText(ms[1..])
  {
    hide MemberText;
  }

  lemma {:induction false} FieldsAreMembers(ms: seq<Member>)
    requires ms != []
    ensures FieldsText(Fields(ms)) == MembersText(ms)
    decreases |ms|
  {
    hide FieldText, MemberText, FieldsText, MembersText, Fields, AsField;
    FieldsTextParts(Fields(ms));
    MembersTextParts(ms);
    MemberIsField(ms[0]);
    if |ms| > 1 {
      FieldsAreMembers(ms[1..]);
      assert Fields(ms)[1..] == Fields(ms[1..]);
    }
  }

  lemma PrintedText(ms: seq<Member>)
    ensures Text(Obj(Fields(ms), "")) == ObjectText(ms)
  {
    hide MembersText, FieldsText, Fields;
    if ms == [] {
      NoMembers();
    } else {
      FieldsAreMembers(ms);
    }
  }

  lemma NoMembers()
    ensures MembersText([]) == ""
  {
  }

  lemma LeafIsOk(tok: Token, depth: nat)
    requires TokenOk(tok)
    ensures Ok(Leaf(tok), depth)
  {
  }

  lemma PrintedIsOk(ms: seq<Member>)
    requires MembersOk(ms)
    ensures Ok(Obj(Fields(ms), ""), 0)
  {
    hide PlainName, TokenOk, KeyOk, Fields;
    forall i | 0 <= i < |ms|
      ensures FieldOk(Fields(ms)[i], 1)
    {
      PlainIsKeyOk(ms[i].name);
      LeafIsOk(ms[i].tok, 1);
    }
  }

  lemma PlainIsKeyOk(name: string)
    requires PlainName(name)
    ensures KeyOk(name) && Sought(name)
  {
    forall post
      ensures StringLength(name + "\"" + post) == Some(|name|)
    {
      NameIsPassed(name, post);
    }
  }

  lemma NamesDecide(ms: seq<Member>, k: nat)
    requires MembersOk(ms) && k < |ms|
    ensures First(Fields(ms), ms[k].name) == k
  {
    var fs := Fields(ms);
    var n := First(fs, ms[k].name);
    assert fs[k].name == ms[k].name;
    assert fs[n].name == ms[n].name;
  }
}
