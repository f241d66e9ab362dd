/**
 `mg_json_get`: locating the value of a top-level attribute in a JSON text.

 The scanner keeps a stack of open brackets, a position in the path and an
 expectation. The paths used by the firmware are `$.` followed by an attribute's
 name, with no array index, so the index counters of the scanner stay at rest and
 are not modelled; its three error codes are one, since every caller treats them alike.
 */
module JsonScan {
  import opened Common
  import opened JsonText

  const MAX_DEPTH := 30

  datatype Want = Value | Key | Colon | CommaOrEnd

  /** `ed` is the depth the path has been followed to, `pos` the position in the path. */
  datatype Scanner = Scanner(i: nat, j: nat, nesting: string, ed: nat, pos: nat, want: Want)

  datatype Answer = Found(ofs: nat, len: nat) | Failed

  datatype Move = Stop(answer: Answer) | Go(next: Scanner, used: nat)

  predicate PathEnds(path: string, pos: nat) {
    pos >= |path|
  }

  /** How long the scalar value at the start of a text is. */
  function ScalarLength(u: string): (r: Option<nat>)
    requires u != ""
    ensures r.Some? ==> 0 < r.value <= |u|
  {
    if u[0] == 't' && |u| > 3 && u[..4] == "true" then Some(4)
    else if u[0] == 'n' && |u| > 3 && u[..4] == "null" then Some(4)
    else if u[0] == 'f' && |u| > 4 && u[..5] == "false" then Some(5)
    else if u[0] == '-' || Digit(u[0]) then NumberLength(u)
    else if u[0] == '\"' then
      match StringLength(u[1..])
      case None => None
      case Some(n) => Some(n + 2)
    else None
  }

  function NumberLength(u: string): (r: Option<nat>)
    requires u != "" && (u[0] == '-' || Digit(u[0]))
    ensures r.Some? && 0 < r.value <= |u|
  {
    AtodConsumes(u);
    Some(Atod(u).len)
  }

  lemma AtodConsumes(u: string)
    requires u != "" && (u[0] == '-' || Digit(u[0]))
    ensures Atod(u).len > 0
  {
  }

  /** A value has just ended at character `last`: it is the one sought, or the scan goes on. */
  function AfterValue(path: string, sc: Scanner, last: nat, used: nat): Move
    requires sc.j <= last
  {
    if |sc.nesting| == sc.ed && PathEnds(path, sc.pos) then Stop(Found(sc.j, last - sc.j + 1))
    else Go(sc.(i := last + 1, want := CommaOrEnd), used)
  }

  /** A closing bracket. */
  function AfterClose(path: string, sc: Scanner, c: char): Move
    requires sc.j <= sc.i
  {
    if sc.nesting == "" then Stop(Failed)
    else
      var top := sc.nesting[|sc.nesting| - 1];
      if !((top == '{' && c == '}') || (top == '[' && c == ']')) then Stop(Failed)
      else AfterValue(path, sc.(nesting := sc.nesting[..|sc.nesting| - 1]), sc.i, 1)
  }

  function AtValue(u: string, path: string, sc0: Scanner): Move
    requires u != "" && sc0.j <= sc0.i
  {
    var c := u[0];
    var sc := if |sc0.nesting| == sc0.ed then sc0.(j := sc0.i) else sc0;
    if c == '{' then
      if |sc.nesting| >= MAX_DEPTH then Stop(Failed)
      else if |sc.nesting| == sc.ed && CharAt(path, sc.pos, '.')
      then Go(Scanner(sc.i + 1, sc.j, sc.nesting + "{", sc.ed + 1, sc.pos + 1, Key), 1)
      else Go(sc.(i := sc.i + 1, nesting := sc.nesting + "{", want := Key), 1)
    else if c == '[' then
      if |sc.nesting| >= MAX_DEPTH then Stop(Failed)
      else Go(sc.(i := sc.i + 1, nesting := sc.nesting + "["), 1)
    else if c == ']' && sc.nesting != "" then AfterClose(path, sc, c)
    else
      match ScalarLength(u)
      case None => Stop(Failed)
      case Some(n) => AfterValue(path, sc, sc.i + n - 1, n)
  }

  /** The key just read is the next component of the path. */
  predicate KeyMatches(key: string, path: string, pos: nat) {
    && pos + |key| <= |path| && path[pos..pos + |key|] == key
    && (pos + |key| == |path| || path[pos + |key|] == '.' || path[pos + |key|] == '[')
  }

  function AtKey(u: string, path: string, sc: Scanner): Move
    requires u != "" && sc.j <= sc.i
  {
    if u[0] == '\"' then
      match StringLength(u[1..])
      case None => Stop(Failed)
      case Some(n) =>
        if |sc.nesting| < sc.ed then Stop(Failed)
        else if |sc.nesting| == sc.ed && !(sc.pos > 0 && CharAt(path, sc.pos - 1, '.')) then Stop(Failed)
        else
          var matched := |sc.nesting| == sc.ed && KeyMatches(u[1..n + 1], path, sc.pos);
          Go(sc.(i := sc.i + n + 2, pos := if matched then sc.pos + n else sc.pos, want := Colon), n + 2)
    else if u[0] == '}' then AfterClose(path, sc, '}')
    else Stop(Failed)
  }

  function AtComma(u: string, path: string, sc: Scanner): Move
    requires u != "" && sc.j <= sc.i
  {
    if sc.nesting == "" then Stop(Failed)
    else if u[0] == ',' then
      Go(sc.(i := sc.i + 1, want := if sc.nesting[|sc.nesting| - 1] == '{' then Key else Value), 1)
    else if u[0] == ']' || u[0] == '}' then
      if |sc.nesting| == sc.ed && u[0] == '}' && sc.pos > 0 && CharAt(path, sc.pos - 1, '.') then Stop(Failed)
      else AfterClose(path, sc, u[0])
    else Stop(Failed)
  }

  /** One iteration of the loop, at the text from the scanner's position on. */
  function Advance(u: string, path: string, sc: Scanner): (m: Move)
    requires u != "" && sc.j <= sc.i
    ensures m.Go? ==> 0 < m.used <= |u| && m.next.i == sc.i + m.used && m.next.j <= m.next.i
  {
    if Blank(u[0]) then Go(sc.(i := sc.i + 1), 1)
    else match sc.want
      case Value => AtValue(u, path, sc)
      case Key => AtKey(u, path, sc)
      case Colon => if u[0] == ':' then Go(sc.(i := sc.i + 1, want := Value), 1) else Stop(Failed)
      case CommaOrEnd => AtComma(u, path, sc)
  }

  function Scan(u: string, path: string, sc: Scanner): Answer
    requires sc.j <= sc.i
    decreases |u|
  {
    if u == "" then Failed
    else match Advance(u, path, sc)
      case Stop(a) => a
      case Go(sc', n) => Scan(u[n..], path, sc')
  }

  /** The location of `$.name` in a text. */
  function Locate(json: string, name: string): Answer {
    Scan(json, "$." + name, Scanner(0, 0, "", 0, 1, Value))
  }

  /** `mg_json_get` as a loop over the text. */
  method JsonGet(json: string, name: string) returns (a: Answer)
    ensures a == Locate(json, name)
    ensures a.Found? ==> a.ofs + a.len <= |json|
  {
    var path := "$." + name;
    var sc := Scanner(0, 0, "", 0, 1, Value);
    while sc.i < |json|
      invariant sc.j <= sc.i <= |json|
      invariant Locate(json, name) == Scan(json[sc.i..], path, sc)
      decreases |json| - sc.i
    {
      var u := json[sc.i..];
      FoundInside(u, path, sc);
      match Advance(u, path, sc) {
        case Stop(ans) =>
          return ans;
        case Go(next, n) =>
          assert u[n..] == json[next.i..];
          sc := next;
      }
    }
    return Failed;
  }

  lemma FoundInside(u: string, path: string, sc: Scanner)
    requires u != "" && sc.j <= sc.i
    ensures var m := Advance(u, path, sc);
            m.Stop? && m.answer.Found? ==> m.answer.ofs + m.answer.len <= sc.i + |u|
  {
  }

  // ------------------------------------------------------- objects as they are printed

  datatype Token = IntTok(v: int) | DoubleTok(n: Number) | BoolTok(b: bool) | StringTok(bs: seq<byte>) | NullTok

  predicate TokenOk(t: Token) {
    t.DoubleTok? ==> Printable(t.n)
  }

  function TokenText(t: Token): (s: string)
  {
    match t
    case IntTok(v) => NumberText(IntNumber(v))
    case DoubleTok(n) => NumberText(n)
    case BoolTok(b) => if b then "true" else "false"
    case StringTok(bs) => "\"" + Escape(bs) + "\""
    case NullTok => "null"
  }

  datatype Member = Member(name: string, tok: Token)

  predicate PlainChar(c: char) {
    c != '\0' && c != '.' && c != '[' && EscapeLetter(c).None?
  }

  /** A name that needs no escaping and can stand in a path. */
  predicate PlainName(name: string) {
    name != "" && forall k :: 0 <= k < |name| ==> PlainChar(name[k])
  }

  predicate MembersOk(ms: seq<Member>) {
    && (forall k :: 0 <= k < |ms| ==> PlainName(ms[k].name) && TokenOk(ms[k].tok))
    && (forall j, k :: 0 <= j < k < |ms| ==> ms[j].name != ms[k].name)
  }

  function KeyText(name: string): string {
    "\"" + name + "\":"
  }

  function MemberText(m: Member): string {
    KeyText(m.name) + TokenText(m.tok)
  }

  function MembersText(ms: seq<Member>): string {
    if ms == [] then ""
    else if |ms| == 1 then MemberText(ms[0])
    else MemberText(ms[0]) + "," + MembersText(ms[1..])
  }

  function ObjectText(ms: seq<Member>): string {
    "{" + MembersText(ms) + "}"
  }

  lemma {:induction false} NameIsPassed(name: string, post: string)
    requires forall k :: 0 <= k < |name| ==> PlainChar(name[k])
    ensures StringLength(name + "\"" + post) == Some(|name|)
    decreases |name|
  {
    if name == "" {
      assert name + "\"" + post == "\"" + post;
    } else {
      assert (name + "\"" + post)[1..] == name[1..] + "\"" + post;
      NameIsPassed(name[1..], post);
    }
  }

  /** In front of `post`, `s` is read as one whole value. */
  predicate Scalar(s: string, post: string) {
    s != "" && ScalarLength(s + post) == Some(|s|) && !Blank(s[0]) && s[0] !in "{[]"
  }

  lemma TokenIsScalar(t: Token, post: string)
    requires TokenOk(t) && Ends(post)
    ensures Scalar(TokenText(t), post)
  {
    hide StringLength, Atod, NumberText, IntNumber, Escape, Scalar;
    match t {
      case IntTok(v) =>
        IntIsParsed(v, post);
        NumberIsScalar(IntNumber(v), post);
      case DoubleTok(n) =>
        NumberIsParsed(n, post);
        NumberIsScalar(n, post);
      case BoolTok(b) =>
        WordIsScalar(if b then "true" else "false", post);
      case StringTok(bs) =>
        StringIsScalar(bs, post);
      case NullTok =>
        WordIsScalar("null", post);
    }
  }

  lemma NumberIsScalar(n: Number, post: string)
    requires Printable(n)
    requires Atod(NumberText(n) + post).len == |NumberText(n)|
    ensures Scalar(NumberText(n), post) && (NumberText(n)[0] == '-' || Digit(NumberText(n)[0]))
  {
    FirstOfNumber(n);
    hide Atod, NumberText;
  }

  lemma WordIsScalar(s: string, post: string)
    requires s == "true" || s == "false" || s == "null"
    ensures Scalar(s, post)
  {
  }

  lemma StringIsScalar(bs: seq<byte>, post: string)
    ensures Scalar("\"" + Escape(bs) + "\"", post)
  {
    hide StringLength, NumberLength, Escape;
    var s := "\"" + Escape(bs) + "\"";
    assert (s + post)[1..] == Escape(bs) + "\"" + post;
    EscapeIsPassed(bs, post);
    assert s[0] == '\"';
  }

  lemma FirstOfNumber(n: Number)
    requires Printable(n)
    ensures NumberText(n) != "" && (NumberText(n)[0] == '-' || Digit(NumberText(n)[0]))
  {
  }

  /** The token that a lookup yields, if any. */
  function Lookup(json: string, name: string): Option<string> {
    match Locate(json, name)
    case Failed => None
    case Found(o, n) => if o + n <= |json| then Some(json[o..o + n]) else None
  }
}
