/**
 Device data as C structs in memory, described by attribute tables: printing a struct
 as the members of a JSON object, and populating a struct from a JSON text.
 */
module JsonStruct {
  import opened Common
  import opened JsonText
  import opened JsonScan
  import opened JsonLookup

  datatype Kind = Int | Bool | Double | Str | Other

  /** One row of an attribute table. */
  datatype Attr = Attr(name: string, kind: Kind, offset: nat, size: nat)

  /** How doubles are printed and stored is not modelled: `show` gives the text of the
      double in eight bytes, `store` the eight bytes of a value. */
  datatype Doubles = Doubles(show: seq<byte> -> Number, store: real -> seq<byte>)

  ghost predicate DoublesOk(f: Doubles) {
    && (forall bs :: Printable(f.show(bs)))
    && (forall v :: |f.store(v)| == 8)
  }

  function Width(a: Attr): nat {
    match a.kind
    case Int => 4
    case Bool => 1
    case Double => 8
    case Str => a.size
    case Other => 0
  }

  predicate Inside(a: Attr, n: nat) {
    a.offset + Width(a) <= n && (a.kind.Str? ==> a.size > 0)
  }

  predicate Apart(a: Attr, b: Attr) {
    a.offset + Width(a) <= b.offset || b.offset + Width(b) <= a.offset
  }

  /** The fields of one C struct of `n` bytes. */
  predicate Layout(attrs: seq<Attr>, n: nat) {
    && (forall i :: 0 <= i < |attrs| ==> Inside(attrs[i], n))
    && (forall i, j :: 0 <= i < j < |attrs| ==> Apart(attrs[i], attrs[j]))
  }

  /** The path buffer of populating holds 99 characters, two of them `$.`. */
  predicate Named(attrs: seq<Attr>) {
    && (forall i :: 0 <= i < |attrs| ==> PlainName(attrs[i].name) && |attrs[i].name| <= 97)
    && (forall i, j :: 0 <= i < j < |attrs| ==> attrs[i].name != attrs[j].name)
  }

  function Window(mem: seq<byte>, a: Attr): (w: seq<byte>)
    requires Inside(a, |mem|)
    ensures |w| == Width(a)
  {
    mem[a.offset..a.offset + Width(a)]
  }

  function Store(mem: seq<byte>, o: nat, w: seq<byte>): (r: seq<byte>)
    requires o + |w| <= |mem|
    ensures |r| == |mem| && r[o..o + |w|] == w
    ensures forall k :: 0 <= k < |mem| && (k < o || o + |w| <= k) ==> r[k] == mem[k]
  {
    mem[..o] + w + mem[o + |w|..]
  }

  // ------------------------------------------------------------- 32-bit integers

  predicate Int32(v: int) {
    -0x8000_0000 <= v < 0x8000_0000
  }

  function LowByte(n: int): byte {
    n % 256
  }

  function Word32(v: int): (w: seq<byte>)
    ensures |w| == 4
  {
    var u := v % WORD;
    [LowByte(u), LowByte(u / 256), LowByte(u / 65536), LowByte(u / 16777216)]
  }

  function Unsigned(b0: int, b1: int, b2: int, b3: int): int {
    b0 + 256 * (b1 + 256 * (b2 + 256 * b3))
  }

  function IntOf(w: seq<byte>): (v: int)
    requires |w| == 4
    ensures Int32(v)
  {
    var u := Unsigned(w[0], w[1], w[2], w[3]);
    if u < 0x8000_0000 then u else u - WORD
  }

  lemma DigitsOf(u: int)
    requires 0 <= u < WORD
    ensures Unsigned(u % 256, u / 256 % 256, u / 65536 % 256, u / 16777216 % 256) == u
  {
    var a := u / 256;
    var b := a / 256;
    assert b == u / 65536 && b / 256 == u / 16777216;
    assert u == 256 * a + u % 256 && a == 256 * b + a % 256 && b == 256 * (b / 256) + b % 256;
  }

  lemma DigitsBack(b0: byte, b1: byte, b2: byte, b3: byte)
    ensures var u := Unsigned(b0, b1, b2, b3);
            0 <= u < WORD && u % 256 == b0 && u / 256 % 256 == b1 && u / 65536 % 256 == b2 && u / 16777216 % 256 == b3
  {
    var u := Unsigned(b0, b1, b2, b3);
    assert u / 256 == Unsigned(b1, b2, b3, 0);
    assert u / 65536 == Unsigned(b2, b3, 0, 0);
    assert u / 16777216 == b3;
  }

  lemma IntOfWord(v: int)
    requires Int32(v)
    ensures IntOf(Word32(v)) == v
  {
    hide Unsigned;
    DigitsOf(v % WORD);
  }

  lemma WordOfInt(w: seq<byte>)
    requires |w| == 4
    ensures Word32(IntOf(w)) == w
  {
    hide Unsigned, IntOf;
    DigitsBack(w[0], w[1], w[2], w[3]);
    UnsignedOfInt(w);
  }

  lemma UnsignedOfInt(w: seq<byte>)
    requires |w| == 4
    ensures IntOf(w) % WORD == Unsigned(w[0], w[1], w[2], w[3])
  {
  }

  /** The conversion of a double to `int`: towards zero, and saturating as the
      target's conversion instruction does. */
  function ToInt(d: real): (v: int)
    ensures Int32(v)
  {
    var t := if d >= 0.0 then d.Floor else -((-d).Floor);
    if t < -0x8000_0000 then -0x8000_0000 else if t >= 0x8000_0000 then 0x7fff_ffff else t
  }

  /** The integer next to `d` on the side of zero. */
  lemma ToIntIsTowardsZero(d: real)
    requires -2147483649.0 < d < 2147483648.0
    ensures var v := ToInt(d) as real;
            if d >= 0.0 then 0.0 <= v <= d < v + 1.0 else v - 1.0 < d <= v <= 0.0
  {
  }

  lemma ToIntSaturates(d: real)
    ensures d >= 2147483648.0 ==> ToInt(d) == 0x7fff_ffff
    ensures d <= -2147483649.0 ==> ToInt(d) == -0x8000_0000
  {
  }

  lemma WrapOnce(u: int, k: int)
    requires k > 0
    ensures (u - 256 * k) / 256 == u / 256 - k && (u - 256 * k) % 256 == u % 256
  {
    var q, r := u / 256, u % 256;
    assert u - 256 * k == 256 * (q - k) + r;
  }

  lemma TwiceAndThrice(v: int)
    ensures v / 65536 == v / 256 / 256 && v / 16777216 == v / 256 / 256 / 256
  {
  }

  lemma WrapKeepsBytes(u: int)
    ensures var v := u - WORD;
      && v % 256 == u % 256 && v / 256 % 256 == u / 256 % 256
      && v / 65536 % 256 == u / 65536 % 256 && v / 16777216 % 256 == u / 16777216 % 256
  {
    TwiceAndThrice(u);
    TwiceAndThrice(u - WORD);
    WrapOnce(u, 0x100_0000);
    WrapOnce(u / 256, 0x1_0000);
    WrapOnce(u / 256 / 256, 0x100);
    WrapOnce(u / 256 / 256 / 256, 1);
  }

  /** The lowest byte comes first. */
  lemma LittleEndian(w: seq<byte>)
    requires |w| == 4
    ensures IntOf(w) % 256 == w[0] && IntOf(w) / 256 % 256 == w[1]
    ensures IntOf(w) / 65536 % 256 == w[2] && IntOf(w) / 16777216 % 256 == w[3]
  {
    DigitsBack(w[0], w[1], w[2], w[3]);
    WrapKeepsBytes(Unsigned(w[0], w[1], w[2], w[3]));
    hide Unsigned;
  }

  // -------------------------------------------------------------------- printing

  function TokenOf(f: Doubles, a: Attr, w: seq<byte>): Token
    requires |w| == Width(a)
  {
    match a.kind
    case Int => IntTok(IntOf(w))
    case Bool => BoolTok(w[0] != 0)
    case Double => DoubleTok(f.show(w))
    case Str => StringTok(w)
    case Other => NullTok
  }

  /** The members that printing the struct writes. */
  function Members(f: Doubles, attrs: seq<Attr>, mem: seq<byte>): (ms: seq<Member>)
    requires forall i :: 0 <= i < |attrs| ==> Inside(attrs[i], |mem|)
    ensures |ms| == |attrs|
    ensures forall i :: 0 <= i < |attrs| ==>
              ms[i] == Member(attrs[i].name, TokenOf(f, attrs[i], Window(mem, attrs[i])))
  {
    if attrs == [] then []
    else
      var a := attrs[|attrs| - 1];
      Members(f, attrs[..|attrs| - 1], mem) + [Member(a.name, TokenOf(f, a, Window(mem, a)))]
  }

  lemma {:induction false} MembersTextSnoc(ms: seq<Member>, m: Member)
    ensures MembersText(ms + [m]) == (if ms == [] then "" else MembersText(ms) + ",") + MemberText(m)
    decreases |ms|
  {
    hide MemberText;
    if ms != [] {
      MembersTextSnoc(ms[1..], m);
      assert (ms + [m])[1..] == ms[1..] + [m];
    }
  }

  /** `print_struct`: the text of all members, and its length. */
  method PrintStruct(f: Doubles, attrs: seq<Attr>, mem: seq<byte>) returns (out: string, len: nat)
    requires forall i :: 0 <= i < |attrs| ==> Inside(attrs[i], |mem|)
    ensures out == MembersText(Members(f, attrs, mem))
    ensures len == |out|
  {
    hide MembersText, MemberText, TokenText, Window;
    out, len := "", 0;
    var i := 0;
    NoMembers();
    while i < |attrs|
      invariant 0 <= i <= |attrs|
      invariant out == MembersText(Members(f, attrs[..i], mem)) && len == |out|
    {
      var a := attrs[i];
      var m := Member(a.name, TokenOf(f, a, Window(mem, a)));
      var text := (if i == 0 then "" else ",") + MemberText(m);
      assert attrs[..i + 1][..i] == attrs[..i];
      MembersTextSnoc(Members(f, attrs[..i], mem), m);
      out := out + text;
      len := len + |text|;
      i := i + 1;
    }
    assert attrs[..i] == attrs;
  }

  // ------------------------------------------------------------------ populating

  function GetNum(tok: Option<string>): Option<real> {
    if tok.Some? && tok.value != "" && (tok.value[0] == '-' || Digit(tok.value[0]))
    then Some(Atod(tok.value).value) else None
  }

  function GetBool(tok: Option<string>): Option<bool> {
    if tok.Some? && tok.value != "" && (tok.value[0] == 't' || tok.value[0] == 'f')
    then Some(tok.value[0] == 't') else None
  }

  /** What storing an unescaped string leaves in a buffer: a bad escape stops
      it without a NUL, a string that does not fit is cut. */
  function Terminated(d: Decoded, w: seq<byte>): (r: seq<byte>)
    requires |d.out| <= |w|
    ensures |r| == |w|
  {
    if d.bad || w == [] then d.out + w[|d.out|..]
    else if |d.out| < |w| then d.out + [0] + w[|d.out| + 1..]
    else d.out[..|w| - 1] + [0]
  }

  function GetString(tok: Option<string>, w: seq<byte>): (r: seq<byte>)
    ensures |r| == |w|
  {
    if tok.Some? && |tok.value| > 1 && tok.value[0] == '\"'
    then Terminated(Unescape(tok.value[1..|tok.value| - 1], |w|), w) else w
  }

  /** The bytes of a field after populating, from its token and its bytes before. */
  function NewWindow(f: Doubles, tok: Option<string>, a: Attr, w: seq<byte>): (r: seq<byte>)
    requires |w| == Width(a) && (forall v :: |f.store(v)| == 8)
    ensures |r| == |w|
    ensures tok.None? ==> r == w
  {
    match a.kind
    case Int => var d := GetNum(tok); if d.Some? then Word32(ToInt(d.value)) else w
    case Bool => var b := GetBool(tok); if b.Some? then [if b.value then 1 else 0] else w
    case Double => var d := GetNum(tok); if d.Some? then f.store(d.value) else w
    case Str => GetString(tok, w)
    case Other => w
  }

  function Populated(f: Doubles, json: string, attrs: seq<Attr>, mem: seq<byte>): (r: seq<byte>)
    requires forall v :: |f.store(v)| == 8
    requires forall i :: 0 <= i < |attrs| ==> Inside(attrs[i], |mem|)
    ensures |r| == |mem|
  {
    if attrs == [] then mem
    else
      var a := attrs[0];
      var w := NewWindow(f, Lookup(json, a.name), a, Window(mem, a));
      Populated(f, json, attrs[1..], Store(mem, a.offset, w))
  }

  method CopyInto(tmp: array<byte>, o: nat, w: seq<byte>)
    requires o + |w| <= tmp.Length
    modifies tmp
    ensures tmp[..] == Store(old(tmp[..]), o, w)
  {
    forall k | 0 <= k < |w| {
      tmp[o + k] := w[k];
    }
  }

  /** `populate_struct_from_json`, in place. */
  method PopulateStruct(f: Doubles, json: string, tmp: array<byte>, attrs: seq<Attr>)
    requires forall v :: |f.store(v)| == 8
    requires forall i :: 0 <= i < |attrs| ==> Inside(attrs[i], tmp.Length)
    modifies tmp
    ensures tmp[..] == Populated(f, json, attrs, old(tmp[..]))
  {
    hide NewWindow, Lookup, Window, Store;
    var i := 0;
    while i < |attrs|
      invariant 0 <= i <= |attrs|
      invariant Populated(f, json, attrs[i..], tmp[..]) == Populated(f, json, attrs, old(tmp[..]))
    {
      var a := attrs[i];
      var mem := tmp[..];
      var w := NewWindow(f, Lookup(json, a.name), a, Window(mem, a));
      CopyInto(tmp, a.offset, w);
      assert attrs[i..][1..] == attrs[i + 1..];
      i := i + 1;
    }
  }

  predicate InField(a: Attr, k: nat) {
    a.offset <= k < a.offset + Width(a)
  }

  /** Whatever the text, populating changes no byte outside the fields whose
      attributes are found in it. */
  lemma {:induction false} OnlyPresentFieldsChange(f: Doubles, json: string, attrs: seq<Attr>, mem: seq<byte>, k: nat)
    requires forall v :: |f.store(v)| == 8
    requires forall i :: 0 <= i < |attrs| ==> Inside(attrs[i], |mem|)
    requires k < |mem|
    requires forall i :: 0 <= i < |attrs| && InField(attrs[i], k) ==> Lookup(json, attrs[i].name).None?
    ensures Populated(f, json, attrs, mem)[k] == mem[k]
    decreases |attrs|
  {
    hide Lookup;
    if attrs != [] {
      var a, w0 := attrs[0], Window(mem, attrs[0]);
      var w := NewWindow(f, Lookup(json, a.name), a, w0);
      hide NewWindow;
      var mem' := Store(mem, a.offset, w);
      if InField(a, k) {
        assert mem'[k] == mem'[a.offset..a.offset + |w|][k - a.offset] == w0[k - a.offset];
      }
      OnlyPresentFieldsChange(f, json, attrs[1..], mem', k);
    }
  }

  lemma StoreElsewhere(mem: seq<byte>, a: Attr, b: Attr, w: seq<byte>)
    requires Inside(a, |mem|) && Inside(b, |mem|) && Apart(a, b) && |w| == Width(a)
    ensures Window(Store(mem, a.offset, w), b) == Window(mem, b)
  {
  }

  /** Each field is populated from its own token, whatever happens to the others. */
  lemma {:induction false} EachFieldOnItsOwn(f: Doubles, json: string, attrs: seq<Attr>, mem: seq<byte>, i: nat)
    requires forall v :: |f.store(v)| == 8
    requires Layout(attrs, |mem|) && i < |attrs|
    ensures Window(Populated(f, json, attrs, mem), attrs[i])
            == NewWindow(f, Lookup(json, attrs[i].name), attrs[i], Window(mem, attrs[i]))
    decreases |attrs|
  {
    hide Lookup, NewWindow;
    var a := attrs[0];
    var w := NewWindow(f, Lookup(json, a.name), a, Window(mem, a));
    var mem' := Store(mem, a.offset, w);
    var rest := attrs[1..];
    if i == 0 {
      assert Window(mem', a) == w;
      UntouchedWindow(f, json, rest, mem', a);
    } else {
      StoreElsewhere(mem, a, attrs[i], w);
      EachFieldOnItsOwn(f, json, rest, mem', i - 1);
    }
  }

  lemma {:induction false} UntouchedWindow(f: Doubles, json: string, attrs: seq<Attr>, mem: seq<byte>, b: Attr)
    requires forall v :: |f.store(v)| == 8
    requires forall i :: 0 <= i < |attrs| ==> Inside(attrs[i], |mem|) && Apart(b, attrs[i])
    requires Inside(b, |mem|)
    ensures Window(Populated(f, json, attrs, mem), b) == Window(mem, b)
    decreases |attrs|
  {
    hide Lookup, NewWindow, Window;
    if attrs != [] {
      var a := attrs[0];
      var w := NewWindow(f, Lookup(json, a.name), a, Window(mem, a));
      StoreElsewhere(mem, a, b, w);
      UntouchedWindow(f, json, attrs[1..], Store(mem, a.offset, w), b);
    }
  }

  // ------------------------------------------------------------- what tokens mean

  /** What a token of a JSON text means for a field: a token of another type
      than the field leaves the field alone. */
  function Meaning(f: Doubles, tok: Token, a: Attr, w: seq<byte>): (r: seq<byte>)
    requires |w| == Width(a)
  {
    match a.kind
    case Int => if tok.IntTok? then Word32(ToInt(tok.v as real))
                else if tok.DoubleTok? then Word32(ToInt(NumberValue(tok.n))) else w
    case Bool => if tok.BoolTok? then [if tok.b then 1 else 0] else w
    case Double => if tok.IntTok? then f.store(tok.v as real)
                   else if tok.DoubleTok? then f.store(NumberValue(tok.n)) else w
    case Str => if tok.StringTok? then CopyString(CString(tok.bs), w) else w
    case Other => w
  }

  /** A C string copied into a buffer and cut to fit: the bytes after its NUL stay. */
  function CopyString(s: seq<byte>, w: seq<byte>): (r: seq<byte>)
    ensures |r| == |w|
  {
    if w == [] then []
    else if |s| < |w| then s + [0] + w[|s| + 1..]
    else s[..|w| - 1] + [0]
  }

  lemma StringIsStored(bs: seq<byte>, w: seq<byte>)
    ensures GetString(Some("\"" + Escape(bs) + "\""), w) == CopyString(CString(bs), w)
  {
    hide Escape, Unescape, CString;
    var t := "\"" + Escape(bs) + "\"";
    assert t[1..|t| - 1] == Escape(bs);
    UnescapeEscape(bs, |w|);
    var s := CString(bs);
    assert |s| > |w| > 0 ==> s[..|w|][..|w| - 1] == s[..|w| - 1];
  }

  lemma {:induction false} CStringEnds(s: seq<byte>, rest: seq<byte>)
    requires 0 !in s
    ensures CString(s + [0] + rest) == s
    decreases |s|
  {
    var u := s + [0] + rest;
    if s != [] {
      assert u[1..] == s[1..] + [0] + rest;
      CStringEnds(s[1..], rest);
    }
  }

  /** The buffer then holds the string, or its beginning: one byte is kept for the NUL. */
  lemma CopiedStringIsCut(s: seq<byte>, w: seq<byte>)
    requires 0 !in s && w != []
    ensures CString(CopyString(s, w)) == if |s| < |w| then s else s[..|w| - 1]
  {
    hide CString;
    if |s| < |w| {
      CStringEnds(s, w[|s| + 1..]);
    } else {
      CStringEnds(s[..|w| - 1], []);
      assert s[..|w| - 1] + [0] + [] == s[..|w| - 1] + [0];
    }
  }

  lemma QuotedIsStored(x: string, w: seq<byte>)
    ensures GetString(Some("\"" + x + "\""), w) == Terminated(Unescape(x, |w|), w)
  {
    hide Unescape, Terminated;
    var t := "\"" + x + "\"";
    assert t[1..|t| - 1] == x;
  }

  /** A string with an unknown escape is stored up to it, without a NUL: the bytes from there on
      stay, whatever they were. */
  lemma BadEscapeLeavesTheRest(before: seq<byte>, c: char, post: string, w: seq<byte>)
    requires 0 !in before && |before| < |w| && c !in "btnfr\"\\u"
    ensures GetString(Some("\"" + (Escape(before) + ("\\" + [c] + post)) + "\""), w) == before + w[|before|..]
  {
    hide Unescape, Escape, GetString;
    var bad := "\\" + [c] + post;
    QuotedIsStored(Escape(before) + bad, w);
    UnescapeThen(before, bad, |w|);
    UnknownEscapeStops(c, post, |w| - |before|);
    assert before + [] == before;
  }

  lemma FirstChars(tok: Token)
    requires TokenOk(tok)
    ensures var t := TokenText(tok);
      && t != ""
      && ((t[0] == '-' || Digit(t[0])) <==> tok.IntTok? || tok.DoubleTok?)
      && ((t[0] == 't' || t[0] == 'f') <==> tok.BoolTok?) && (tok.BoolTok? ==> (t[0] == 't' <==> tok.b))
      && (t[0] == '\"' <==> tok.StringTok?)
      && (tok.StringTok? ==> |t| > 1)
  {
  }

  lemma IntAlone(v: int)
    ensures Atod(NumberText(IntNumber(v))).value == v as real
  {
    hide Atod, NumberText, IntNumber;
    IntIsParsed(v, "");
    assert NumberText(IntNumber(v)) + "" == NumberText(IntNumber(v));
  }

  lemma DoubleAlone(n: Number)
    requires Printable(n)
    ensures Atod(NumberText(n)).value == NumberValue(n)
  {
    hide Atod, NumberText, NumberValue;
    NumberIsParsed(n, "");
    assert NumberText(n) + "" == NumberText(n);
  }

  lemma TokenMeans(f: Doubles, tok: Token, a: Attr, w: seq<byte>)
    requires TokenOk(tok) && |w| == Width(a) && (forall v :: |f.store(v)| == 8)
    ensures NewWindow(f, Some(TokenText(tok)), a, w) == Meaning(f, tok, a, w)
  {
    hide Atod, NumberText, NumberValue, IntNumber, Escape, CString, GetString, Unescape, CopyString, ToInt, Word32;
    FirstChars(tok);
    if tok.IntTok? {
      IntAlone(tok.v);
    } else if tok.DoubleTok? {
      DoubleAlone(tok.n);
    } else if tok.StringTok? {
      StringIsStored(tok.bs, w);
    } else {
      NotAString(Some(TokenText(tok)), w);
    }
    if !tok.StringTok? {
      NotAString(Some(TokenText(tok)), w);
    }
  }

  lemma NotAString(tok: Option<string>, w: seq<byte>)
    requires tok.Some? ==> tok.value != "" && tok.value[0] != '\"'
    ensures GetString(tok, w) == w
  {
  }

  /** An array or an object leaves a field alone, whatever its type. */
  function ValueMeaning(f: Doubles, v: Json, a: Attr, w: seq<byte>): (r: seq<byte>)
    requires |w| == Width(a)
  {
    if v.Leaf? then Meaning(f, v.tok, a, w) else w
  }

  lemma ValueMeans(f: Doubles, v: Json, depth: nat, a: Attr, w: seq<byte>)
    requires Ok(v, depth) && |w| == Width(a) && (forall v :: |f.store(v)| == 8)
    ensures NewWindow(f, Some(Text(v)), a, w) == ValueMeaning(f, v, a, w)
  {
    hide NewWindow, Meaning, Text;
    if v.Leaf? {
      TokenMeans(f, v.tok, a, w);
      LeafIsText(v.tok);
    } else {
      BracketFirst(v);
      BracketMeansNothing(f, Text(v), a, w);
    }
  }

  lemma BracketFirst(v: Json)
    requires !v.Leaf?
    ensures Text(v) != "" && (Text(v)[0] == '[' || Text(v)[0] == '{')
  {
  }

  lemma BracketMeansNothing(f: Doubles, t: string, a: Attr, w: seq<byte>)
    requires t != "" && (t[0] == '[' || t[0] == '{') && |w| == Width(a) && (forall v :: |f.store(v)| == 8)
    ensures NewWindow(f, Some(t), a, w) == w
  {
  }

  lemma ValueIsOk(v: Json, k: nat)
    requires v.Obj? && Ok(v, 0) && k < |v.fields|
    ensures Ok(v.fields[k].item.value, 1)
  {
    hide FieldOk;
    FieldIsOk(v.fields[k], 1);
  }

  /** Populating from the text of an object of any shape, its fields in any order, repeated
      or absent: each field of the struct gets the meaning of the first field with its
      name, and without one keeps its bytes. */
  lemma PopulatingMeans(f: Doubles, before: string, v: Json, post: string, attrs: seq<Attr>, mem: seq<byte>, i: nat)
    requires forall d :: |f.store(d)| == 8
    requires Blanks(before) && v.Obj? && Ok(v, 0) && Layout(attrs, |mem|) && Named(attrs) && i < |attrs|
    ensures var w, w' := Window(mem, attrs[i]), Window(Populated(f, before + Text(v) + post, attrs, mem), attrs[i]);
            var k := First(v.fields, attrs[i].name);
            w' == if k < |v.fields| then ValueMeaning(f, v.fields[k].item.value, attrs[i], w) else w
  {
    hide Lookup, NewWindow, ValueMeaning, Text, Window, Populated, PlainName, Sought, Ok, First, Blanks;
    var json, a := before + Text(v) + post, attrs[i];
    EachFieldOnItsOwn(f, json, attrs, mem, i);
    PlainIsKeyOk(a.name);
    LookupFindsTheField(before, v, post, a.name);
    var k := First(v.fields, a.name);
    if k < |v.fields| {
      ValueIsOk(v, k);
      ValueMeans(f, v.fields[k].item.value, 1, a, Window(mem, a));
    }
  }

  // ------------------------------------------------------------------ round trips

  lemma MembersAreOk(f: Doubles, attrs: seq<Attr>, mem: seq<byte>)
    requires DoublesOk(f) && Layout(attrs, |mem|) && Named(attrs)
    ensures MembersOk(Members(f, attrs, mem))
  {
    hide PlainName, Window, Printable;
  }

  /** What a field holds after it was printed from bytes `src` and populated over bytes
      `dst`: integers exactly, truth values as 0 or 1, strings cut to fit and terminated. */
  function Restored(f: Doubles, a: Attr, src: seq<byte>, dst: seq<byte>): seq<byte>
    requires |src| == |dst| == Width(a)
  {
    match a.kind
    case Int => src
    case Bool => [if src[0] != 0 then 1 else 0]
    case Double => f.store(NumberValue(f.show(src)))
    case Str => CopyString(CString(src), dst)
    case Other => dst
  }

  lemma RestoredIsTheMeaning(f: Doubles, a: Attr, src: seq<byte>, dst: seq<byte>)
    requires |src| == |dst| == Width(a)
    ensures Meaning(f, TokenOf(f, a, src), a, dst) == Restored(f, a, src, dst)
  {
    hide NumberValue, CString, CopyString, IntOf, Word32;
    if a.kind.Int? {
      WordOfInt(src);
      assert (IntOf(src) as real).Floor == IntOf(src);
      assert (-(IntOf(src) as real)).Floor == -IntOf(src);
    }
  }

  /** Populating from a printed object: a field gets the meaning of the member with its name. */
  lemma PrintedMeans(f: Doubles, ms: seq<Member>, post: string, attrs: seq<Attr>, mem: seq<byte>, i: nat, k: nat)
    requires forall d :: |f.store(d)| == 8
    requires MembersOk(ms) && Layout(attrs, |mem|) && Named(attrs) && i < |attrs|
    requires k < |ms| && ms[k].name == attrs[i].name
    ensures Window(Populated(f, ObjectText(ms) + post, attrs, mem), attrs[i])
            == Meaning(f, ms[k].tok, attrs[i], Window(mem, attrs[i]))
  {
    hide ObjectText, Text, Ok, Window, Populated, PlainName, TokenOk, Meaning, MembersOk, First, Layout, Named, Fields;
    var v := Obj(Fields(ms), "");
    PrintedIsOk(ms);
    PrintedText(ms);
    assert "" + Text(v) == ObjectText(ms);
    PopulatingMeans(f, "", v, post, attrs, mem, i);
    NamesDecide(ms, k);
    assert v.fields[k] == AsField(ms[k]);
  }

  /** Print a struct, populate any memory from the text: every field is restored. */
  lemma PrintThenPopulate(f: Doubles, attrs: seq<Attr>, src: seq<byte>, dst: seq<byte>, post: string, i: nat)
    requires DoublesOk(f) && |src| == |dst| && Layout(attrs, |src|) && Named(attrs) && i < |attrs|
    ensures var json := ObjectText(Members(f, attrs, src)) + post;
            Window(Populated(f, json, attrs, dst), attrs[i])
            == Restored(f, attrs[i], Window(src, attrs[i]), Window(dst, attrs[i]))
  {
    hide ObjectText, Window, Populated, PlainName, TokenOk, Meaning, Restored, TokenOf, MembersOk;
    MembersAreOk(f, attrs, src);
    PrintedMeans(f, Members(f, attrs, src), post, attrs, dst, i, i);
    RestoredIsTheMeaning(f, attrs[i], Window(src, attrs[i]), Window(dst, attrs[i]));
  }

  /** A field that can be restored from its text: its string ends inside it, its
      truth value is 0 or 1, and it is no double. */
  predicate Faithful(a: Attr, w: seq<byte>)
    requires |w| == Width(a)
  {
    && (a.kind.Bool? ==> w[0] <= 1)
    && (a.kind.Str? ==> |CString(w)| < |w|)
    && !a.kind.Double?
  }

  lemma FaithfulStays(f: Doubles, a: Attr, w: seq<byte>)
    requires |w| == Width(a) && Faithful(a, w)
    ensures Restored(f, a, w, w) == w
  {
  }

  /** Sending a device's own data back changes nothing, so the change counter rests. */
  lemma WritingBackChangesNothing(f: Doubles, attrs: seq<Attr>, mem: seq<byte>, post: string)
    requires DoublesOk(f) && Layout(attrs, |mem|) && Named(attrs)
    requires forall i :: 0 <= i < |attrs| ==> Faithful(attrs[i], Window(mem, attrs[i]))
    ensures Populated(f, ObjectText(Members(f, attrs, mem)) + post, attrs, mem) == mem
  {
    hide Lookup, ObjectText, Window, Populated, PlainName, Restored, Members, Faithful;
    var json := ObjectText(Members(f, attrs, mem)) + post;
    var r := Populated(f, json, attrs, mem);
    forall k | 0 <= k < |mem|
      ensures r[k] == mem[k]
    {
      if i :| 0 <= i < |attrs| && InField(attrs[i], k) {
        PrintThenPopulate(f, attrs, mem, mem, post, i);
        FaithfulStays(f, attrs[i], Window(mem, attrs[i]));
        SameByte(r, mem, attrs[i], k);
      } else {
        OnlyPresentFieldsChange(f, json, attrs, mem, k);
      }
    }
  }

  lemma SameByte(r: seq<byte>, mem: seq<byte>, a: Attr, k: nat)
    requires |r| == |mem| && Inside(a, |mem|) && InField(a, k) && Window(r, a) == Window(mem, a)
    ensures r[k] == mem[k]
  {
    assert r[k] == Window(r, a)[k - a.offset];
    assert mem[k] == Window(mem, a)[k - a.offset];
  }

  /** A device that is populated from another device's text prints the same text:
      everything a reader of the text can see survives the trip. */
  lemma PopulatedPrintsTheSame(f: Doubles, attrs: seq<Attr>, src: seq<byte>, dst: seq<byte>, post: string)
    requires DoublesOk(f) && |src| == |dst| && Layout(attrs, |src|) && Named(attrs)
    requires forall i :: 0 <= i < |attrs| && attrs[i].kind.Str? ==> |CString(Window(src, attrs[i]))| < attrs[i].size
    requires forall i :: 0 <= i < |attrs| ==> !attrs[i].kind.Double?
    ensures var r := Populated(f, ObjectText(Members(f, attrs, src)) + post, attrs, dst);
            ObjectText(Members(f, attrs, r)) == ObjectText(Members(f, attrs, src))
  {
    hide ObjectText, Window, Populated, PlainName, Restored, CString;
    var r := Populated(f, ObjectText(Members(f, attrs, src)) + post, attrs, dst);
    forall i | 0 <= i < |attrs|
      ensures TokenText(Members(f, attrs, r)[i].tok) == TokenText(Members(f, attrs, src)[i].tok)
    {
      PrintThenPopulate(f, attrs, src, dst, post, i);
      PrintsAlike(f, attrs[i], Window(src, attrs[i]), Window(dst, attrs[i]));
    }
    SameTexts(Members(f, attrs, r), Members(f, attrs, src));
  }

  lemma PrintsAlike(f: Doubles, a: Attr, src: seq<byte>, dst: seq<byte>)
    requires |src| == |dst| == Width(a) && !a.kind.Double?
    requires a.kind.Str? ==> |CString(src)| < a.size
    ensures var w := Restored(f, a, src, dst);
            |w| == Width(a) && TokenText(TokenOf(f, a, w)) == TokenText(TokenOf(f, a, src))
  {
    hide NumberText, IntNumber, CString, Escape;
    if a.kind.Str? {
      var s := CString(src);
      EscapeStops(s, dst[|s| + 1..]);
      EscapeStops(s, src[|s| + 1..]);
      assert src == s + [0] + src[|s| + 1..];
    }
  }

  lemma {:induction false} EscapeStops(s: seq<byte>, rest: seq<byte>)
    requires 0 !in s
    ensures Escape(s + [0] + rest) == Escape(s)
    decreases |s|
  {
    hide EscapeChar;
    var u := s + [0] + rest;
    if s != [] {
      assert u[1..] == s[1..] + [0] + rest;
      EscapeStops(s[1..], rest);
    }
  }

  lemma {:induction false} SameTexts(ms: seq<Member>, ns: seq<Member>)
    requires |ms| == |ns|
    requires forall i :: 0 <= i < |ms| ==> ms[i].name == ns[i].name && TokenText(ms[i].tok) == TokenText(ns[i].tok)
    ensures ObjectText(ms) == ObjectText(ns)
    decreases |ms|
  {
    hide TokenText;
    if ms != [] {
      SameTexts(ms[1..], ns[1..]);
      assert "{" + MembersText(ms[1..]) + "}" == "{" + MembersText(ns[1..]) + "}";
      assert ("{" + MembersText(ms[1..]) + "}")[1..|MembersText(ms[1..])| + 1] == MembersText(ms[1..]);
    }
  }
}
