/**
 JSON text as the firmware writes and reads it: string escaping and unescaping,
 decimal numbers, and the scanner that locates `$.name` in a text.
 Characters of the text are byte values; `byte` is a byte of memory.
 */
module JsonText {
  import opened Common

  // -------------------------------------------------------------------- escaping

  /** The letter that follows the backslash, for the characters that are escaped. */
  function EscapeLetter(c: char): Option<char> {
    if c == 8 as char then Some('b')
    else if c == 12 as char then Some('f')
    else if c == '\n' then Some('n')
    else if c == '\r' then Some('r')
    else if c == '\t' then Some('t')
    else if c == '\\' then Some('\\')
    else if c == '\"' then Some('\"')
    else None
  }

  function UnescapeLetter(c: char): Option<char> {
    if c == 'b' then Some(8 as char)
    else if c == 'f' then Some(12 as char)
    else if c == 'n' then Some('\n')
    else if c == 'r' then Some('\r')
    else if c == 't' then Some('\t')
    else if c == '\\' then Some('\\')
    else if c == '\"' then Some('\"')
    else None
  }

  function EscapeChar(c: char): (r: string)
  {
    match EscapeLetter(c)
    case Some(l) => ['\\', l]
    case None => [c]
  }

  /** The letters are those of section 7 of RFC 8259, and unescaping knows no others. */
  lemma EscapesOfJson(l: char)
    ensures var c := UnescapeLetter(l);
      && (l == 'b' <==> c == Some(8 as char)) && (l == 't' <==> c == Some(9 as char))
      && (l == 'n' <==> c == Some(10 as char))
      && (l == 'f' <==> c == Some(12 as char)) && (l == 'r' <==> c == Some(13 as char))
      && (l == '\"' <==> c == Some('\"')) && (l == '\\' <==> c == Some('\\'))
      && (l !in "btnfr\"\\" <==> c == None)
  {
  }

  /** `qcpy`: the characters of a buffer up to its NUL or its end, escaped. */
  function Escape(bs: seq<byte>): string {
    if bs == [] || bs[0] == 0 then "" else EscapeChar(bs[0] as char) + Escape(bs[1..])
  }

  /** The C string in a buffer. */
  function CString(bs: seq<byte>): (r: seq<byte>)
    ensures |r| <= |bs| && r == bs[..|r|] && 0 !in r
    ensures |r| < |bs| ==> bs[|r|] == 0
  {
    if bs == [] || bs[0] == 0 then [] else [bs[0]] + CString(bs[1..])
  }

  /** `mg_pass_string`: the distance to the closing quote. */
  function StringLength(u: string): (r: Option<nat>)
    ensures r.Some? ==> r.value < |u|
  {
    if u == "" then None
    else if u[0] == '\\' && |u| > 1 && EscapeLetter(u[1]).Some? then Plus(2, StringLength(u[2..]))
    else if u[0] == '\0' then None
    else if u[0] == '\"' then Some(0)
    else Plus(1, StringLength(u[1..]))
  }

  function Plus(n: nat, r: Option<nat>): Option<nat> {
    if r.Some? then Some(n + r.value) else None
  }

  function HexDigit(c: char): Option<nat> {
    if '0' <= c <= '9' then Some(c as int - '0' as int)
    else if 'A' <= c <= 'F' then Some(c as int - '7' as int)
    else if 'a' <= c <= 'f' then Some(c as int - 'W' as int)
    else None
  }

  /** Four hexadecimal digits that stand for one byte. */
  function HexByte(u: string): Option<byte>
    requires |u| == 4
  {
    var a, b, c, d := HexDigit(u[0]), HexDigit(u[1]), HexDigit(u[2]), HexDigit(u[3]);
    if a.None? || b.None? || c.None? || d.None? then None
    else
      var v := ((a.value * 16 + b.value) * 16 + c.value) * 16 + d.value;
      if v < 256 then Some(v) else None
  }

  function CharByte(c: char): byte {
    c as int % 256
  }

  /** `out` is what the loop of `mg_json_unescape` stores; `bad` that it met an
      unknown escape and returned at once. */
  datatype Decoded = Decoded(out: seq<byte>, bad: bool)

  function Prepend(b: byte, d: Decoded): Decoded {
    Decoded([b] + d.out, d.bad)
  }

  function Unescape(u: string, room: nat): (d: Decoded)
    ensures |d.out| <= room
  {
    if u == "" || room == 0 then Decoded([], false)
    else if u[0] == '\\' && |u| > 5 && u[1] == 'u' then
      match HexByte(u[2..6])
      case None => Decoded([], false)
      case Some(b) => Prepend(b, Unescape(u[6..], room - 1))
    else if u[0] == '\\' && |u| > 1 then
      match UnescapeLetter(u[1])
      case None => Decoded([], true)
      case Some(c) => Prepend(CharByte(c), Unescape(u[2..], room - 1))
    else Prepend(CharByte(u[0]), Unescape(u[1..], room - 1))
  }

  /** What unescaping makes of an escaped string: the string, as far as there is room. */
  function Fitting(s: seq<byte>, room: nat): Decoded {
    Decoded(if |s| <= room then s else s[..room], false)
  }

  lemma EscapeEnds(bs: seq<byte>, room: nat)
    requires bs == [] || bs[0] == 0 || room == 0
    ensures Unescape(Escape(bs), room) == Fitting(CString(bs), room)
  {
  }

  lemma EscapeHead(bs: seq<byte>)
    requires bs != [] && bs[0] != 0
    ensures Escape(bs) == EscapeChar(bs[0] as char) + Escape(bs[1..])
    ensures CString(bs) == [bs[0]] + CString(bs[1..])
  {
  }

  /** Unescaping undoes escaping, as far as there is room. */
  lemma {:induction false} UnescapeEscape(bs: seq<byte>, room: nat)
    ensures Unescape(Escape(bs), room) == Fitting(CString(bs), room)
    decreases |bs|
  {
    hide Unescape, EscapeChar, Escape, CString;
    if bs == [] || bs[0] == 0 || room == 0 {
      EscapeEnds(bs, room);
    } else {
      UnescapeEscape(bs[1..], room - 1);
      UnescapeOne(bs[0], Escape(bs[1..]), room);
      EscapeHead(bs);
      var s := CString(bs[1..]);
      assert |s| >= room ==> ([bs[0]] + s)[..room] == [bs[0]] + s[..room - 1];
    }
  }

  /** What follows an escaped string is unescaped behind it. */
  lemma {:induction false} UnescapeThen(s: seq<byte>, post: string, room: nat)
    requires 0 !in s && |s| <= room
    ensures var d := Unescape(post, room - |s|); Unescape(Escape(s) + post, room) == Decoded(s + d.out, d.bad)
    decreases |s|
  {
    hide Unescape, EscapeChar;
    if s == [] {
      assert Escape(s) + post == post && s + Unescape(post, room).out == Unescape(post, room).out;
    } else {
      UnescapeThen(s[1..], post, room - 1);
      UnescapeOne(s[0], Escape(s[1..]) + post, room);
      assert Escape(s) + post == EscapeChar(s[0] as char) + (Escape(s[1..]) + post);
      var d := Unescape(post, room - |s|);
      assert [s[0]] + (s[1..] + d.out) == s + d.out;
    }
  }

  lemma UnescapeOne(b: byte, rest: string, room: nat)
    requires b != 0 && room > 0
    ensures Unescape(EscapeChar(b as char) + rest, room) == Prepend(b, Unescape(rest, room - 1))
  {
    var e := EscapeChar(b as char);
    var u := e + rest;
    assert u[|e|..] == rest;
    LettersUndo(b as char);
    hide EscapeLetter, UnescapeLetter;
  }

  lemma LettersUndo(c: char)
    ensures var l := EscapeLetter(c);
            if l.Some? then l.value != 'u' && UnescapeLetter(l.value) == Some(c) else c != '\\' && c != '\"'
  {
  }

  function HexChar(d: nat, upper: bool): char
    requires d < 16
  {
    if upper then "0123456789ABCDEF"[d] else "0123456789abcdef"[d]
  }

  lemma HexDigitIs(d: nat, upper: bool)
    requires d < 16
    ensures HexDigit(HexChar(d, upper)) == Some(d)
  {
  }

  function HexText(n: nat, upper: bool): (h: string)
    requires n < 65536
    ensures |h| == 4
  {
    [HexChar(n / 4096, upper), HexChar(n / 256 % 16, upper), HexChar(n / 16 % 16, upper), HexChar(n % 16, upper)]
  }

  lemma Nibbles(n: nat)
    ensures ((n / 4096 * 16 + n / 256 % 16) * 16 + n / 16 % 16) * 16 + n % 16 == n
  {
    var a := n / 16;
    var b := a / 16;
    assert b == n / 256 && b / 16 == n / 4096;
    assert n == a * 16 + n % 16 && a == b * 16 + a % 16 && b == b / 16 * 16 + b % 16;
  }

  lemma HexTextIsRead(n: nat, upper: bool)
    requires n < 65536
    ensures HexByte(HexText(n, upper)) == if n < 256 then Some(n) else None
  {
    hide HexDigit, HexChar;
    HexDigitIs(n / 4096, upper);
    HexDigitIs(n / 256 % 16, upper);
    HexDigitIs(n / 16 % 16, upper);
    HexDigitIs(n % 16, upper);
    Nibbles(n);
  }

  /** A byte written as `\\u` and four hexadecimal digits, of either case, is read back; with
      more than a byte behind it the escape ends the string. */
  lemma HexEscapeIsRead(n: nat, upper: bool, rest: string, room: nat)
    requires n < 65536 && room > 0
    ensures Unescape("\\u" + HexText(n, upper) + rest, room)
            == if n < 256 then Prepend(n, Unescape(rest, room - 1)) else Decoded([], false)
  {
    HexTextIsRead(n, upper);
    hide HexByte, HexText, UnescapeLetter;
    var u := "\\u" + HexText(n, upper) + rest;
    assert u[2..6] == HexText(n, upper) && u[6..] == rest;
  }

  /** No other character is a hexadecimal digit, and with one the escape ends the string. */
  lemma HexDigitIff(c: char)
    ensures HexDigit(c).Some? <==> c in "0123456789abcdefABCDEF"
  {
  }

  /** An unknown escape stops the string at once. */
  lemma UnknownEscapeStops(c: char, rest: string, room: nat)
    requires c !in "btnfr\"\\u" && room > 0
    ensures Unescape("\\" + [c] + rest, room) == Decoded([], true)
  {
  }

  /** The closing quote of an escaped string is found where it was printed. */
  lemma {:induction false} EscapeIsPassed(bs: seq<byte>, post: string)
    ensures StringLength(Escape(bs) + "\"" + post) == Some(|Escape(bs)|)
    decreases |bs|
  {
    if bs == [] || bs[0] == 0 {
      assert Escape(bs) + "\"" + post == "\"" + post;
    } else {
      EscapeIsPassed(bs[1..], post);
      var rest := Escape(bs[1..]) + "\"" + post;
      assert Escape(bs) + "\"" + post == EscapeChar(bs[0] as char) + rest;
      PassOne(bs[0], rest);
    }
  }

  lemma PassOne(b: byte, rest: string)
    requires b != 0
    ensures StringLength(EscapeChar(b as char) + rest) == Plus(|EscapeChar(b as char)|, StringLength(rest))
  {
    var e := EscapeChar(b as char);
    var u := e + rest;
    assert u[|e|..] == rest;
    if |e| == 2 {
      assert u[1..][1..] == rest;
    }
  }

  // --------------------------------------------------------------------- numbers

  predicate Digit(c: char) {
    '0' <= c <= '9'
  }

  predicate Digits(s: string) {
    forall k :: 0 <= k < |s| ==> Digit(s[k])
  }

  /** `mg_lld` on a magnitude. */
  function Decimal(n: nat): (s: string)
    ensures s != "" && Digits(s)
  {
    if n < 10 then [(n + '0' as int) as char] else Decimal(n / 10) + [(n % 10 + '0' as int) as char]
  }

  function DigitRun(u: string): (n: nat)
    ensures n <= |u|
  {
    if u == "" || !Digit(u[0]) then 0 else 1 + DigitRun(u[1..])
  }

  function DigitValue(s: string): nat
    requires Digits(s)
  {
    if s == "" then 0 else DigitValue(s[..|s| - 1]) * 10 + (s[|s| - 1] as int - '0' as int)
  }

  function FractionValue(s: string): real
    requires Digits(s)
  {
    if s == "" then 0.0 else ((s[0] as int - '0' as int) as real + FractionValue(s[1..])) / 10.0
  }

  function Power10(n: nat): real {
    if n == 0 then 1.0 else 10.0 * Power10(n - 1)
  }

  /** The exponent digits that `mg_atod` consumes, and their value. */
  function ExponentRun(u: string, e: nat): (r: (nat, nat))
    ensures r.0 <= |u|
  {
    if u == "" || !Digit(u[0]) || e >= 308 then (0, e)
    else
      var (n, v) := ExponentRun(u[1..], e * 10 + (u[0] as int - '0' as int));
      (n + 1, v)
  }

  lemma {:induction false} RunIsDigits(u: string)
    ensures Digits(u[..DigitRun(u)])
    decreases |u|
  {
    if u != "" && Digit(u[0]) {
      RunIsDigits(u[1..]);
      assert forall k :: 1 <= k < DigitRun(u) ==> u[k] == u[1..][k - 1];
    }
  }

  datatype Parsed = Parsed(value: real, len: nat)

  predicate CharAt(u: string, i: nat, c: char) {
    i < |u| && u[i] == c
  }

  function Run(u: string, from: nat): (r: string)
    requires from <= |u|
    ensures from + |r| <= |u| && Digits(r)
  {
    RunIsDigits(u[from..]);
    u[from..][..DigitRun(u[from..])]
  }

  /** Sign, whole part and fraction. */
  function Mantissa(u: string): (r: Parsed)
    ensures r.len <= |u|
  {
    var i0 := if CharAt(u, 0, '-') || CharAt(u, 0, '+') then 1 else 0;
    var whole := Run(u, i0);
    var i1 := i0 + |whole|;
    var frac := if CharAt(u, i1, '.') then Run(u, i1 + 1) else "";
    var d := DigitValue(whole) as real + FractionValue(frac);
    Parsed(if CharAt(u, 0, '-') then -d else d, if CharAt(u, i1, '.') then i1 + 1 + |frac| else i1)
  }

  function Exponent(u: string, m: Parsed): (r: Parsed)
    requires m.len <= |u|
    ensures r.len <= |u|
  {
    if !CharAt(u, m.len, 'e') && !CharAt(u, m.len, 'E') then m
    else
      var j0 := m.len + 1;
      var minus := CharAt(u, j0, '-');
      var j1 := if minus then j0 + 1 else j0;
      var j2 := if CharAt(u, j1, '+') then j1 + 1 else j1;
      var (n, e) := ExponentRun(u[j2..], 0);
      var e' := if e > 308 then 308 else e;
      PowerIsPositive(e');
      Parsed(if minus then m.value / Power10(e') else m.value * Power10(e'), j2 + n)
  }

  /** `mg_atod`, over the reals: the value of the number at the start of a text,
      and how many characters it takes. */
  function Atod(u: string): (r: Parsed)
    ensures r.len <= |u|
  {
    Exponent(u, Mantissa(u))
  }

  lemma {:induction false} PowerIsPositive(n: nat)
    ensures Power10(n) > 0.0
  {
    if n > 0 {
      PowerIsPositive(n - 1);
    }
  }

  /** A number as it is printed: sign, whole part and, for a double, a fraction. */
  datatype Number = Number(neg: bool, whole: string, frac: Option<string>)

  /** It starts with a minus or a digit; behind a minus, and behind the point, digits may be missing. */
  predicate Printable(n: Number) {
    (n.neg || n.whole != "") && Digits(n.whole) && (n.frac.Some? ==> Digits(n.frac.value))
  }

  function NumberText(n: Number): string {
    (if n.neg then "-" else "") + n.whole + FractionText(n)
  }

  function FractionText(n: Number): string {
    if n.frac.Some? then "." + n.frac.value else ""
  }

  /** What the digits of a number say it is worth. */
  function NumberValue(n: Number): real {
    if !Printable(n) then 0.0
    else
      var frac := if n.frac.Some? then n.frac.value else "";
      PowerIsPositive(|frac|);
      var d := DigitValue(n.whole) as real + DigitValue(frac) as real / Power10(|frac|);
      if n.neg then -d else d
  }

  function IntNumber(v: int): (n: Number)
    ensures Printable(n)
  {
    Number(v < 0, Decimal(if v < 0 then -v else v), None)
  }

  lemma {:induction false} RunStops(d: string, post: string)
    requires Digits(d) && (post != "" ==> !Digit(post[0]))
    ensures DigitRun(d + post) == |d|
    decreases |d|
  {
    if d == "" {
      assert d + post == post;
    } else {
      assert (d + post)[1..] == d[1..] + post;
      RunStops(d[1..], post);
    }
  }

  predicate Blank(c: char) {
    c == ' ' || c == '\t' || c == '\n' || c == '\r'
  }

  /** What ends a value in a text, or in a token of its own. */
  predicate Ends(post: string) {
    post == "" || post[0] == ',' || post[0] == '}' || post[0] == ']' || Blank(post[0])
  }

  lemma RunIs(u: string, from: nat, d: string, post: string)
    requires from <= |u| && u[from..] == d + post
    requires Digits(d) && (post != "" ==> !Digit(post[0]))
    ensures Run(u, from) == d
  {
    RunStops(d, post);
  }

  lemma WholeIsRun(n: Number, post: string)
    requires Printable(n) && EndsDigits(n, post)
    ensures var u := NumberText(n) + post; var i0 := if n.neg then 1 else 0;
            && (CharAt(u, 0, '-') <==> n.neg) && !CharAt(u, 0, '+')
            && Run(u, i0) == n.whole && u[i0 + |n.whole|..] == FractionText(n) + post
  {
    var u := NumberText(n) + post;
    var i0 := if n.neg then 1 else 0;
    if n.whole != "" {
      assert u[i0] == n.whole[0];
      assert Digit(u[i0]);
    }
    assert u[i0..] == n.whole + (FractionText(n) + post);
    RunIs(u, i0, n.whole, FractionText(n) + post);
  }

  lemma FractionIsRun(u: string, i1: nat, n: Number, post: string)
    requires Printable(n) && EndsDigits(n, post) && i1 <= |u| && u[i1..] == FractionText(n) + post
    ensures CharAt(u, i1, '.') <==> n.frac.Some?
    ensures n.frac.Some? ==> Run(u, i1 + 1) == n.frac.value
  {
    if n.frac.Some? {
      assert u[i1] == u[i1..][0] == '.';
      assert u[i1 + 1..] == n.frac.value + post;
      RunIs(u, i1 + 1, n.frac.value, post);
    } else if post != "" {
      assert u[i1] == u[i1..][0] == post[0];
    }
  }

  function DigitOf(c: char): int {
    c as int - '0' as int
  }

  lemma DigitValueParts(s: string)
    requires Digits(s) && s != ""
    ensures DigitValue(s) == DigitValue(s[..|s| - 1]) * 10 + DigitOf(s[|s| - 1])
  {
  }

  lemma FractionValueParts(s: string)
    requires Digits(s) && s != ""
    ensures FractionValue(s) == (DigitOf(s[0]) as real + FractionValue(s[1..])) / 10.0
  {
  }

  lemma NoDigits()
    ensures DigitValue("") == 0 && FractionValue("") == 0.0 && Power10(0) == 1.0
  {
  }

  lemma PowerParts(n: nat)
    ensures Power10(n + 1) == 10.0 * Power10(n)
  {
  }

  lemma {:induction false} DigitsFromTheLeft(s: string)
    requires Digits(s) && s != ""
    ensures DigitValue(s) as real == DigitOf(s[0]) as real * Power10(|s| - 1) + DigitValue(s[1..]) as real
    decreases |s|
  {
    hide DigitValue, Power10, DigitOf;
    NoDigits();
    DigitValueParts(s);
    if |s| == 1 {
      assert s[..0] == "" && s[1..] == "";
    } else {
      var s0 := s[..|s| - 1];
      DigitsFromTheLeft(s0);
      assert s0[1..] == s[1..][..|s| - 2];
      DigitValueParts(s[1..]);
      PowerParts(|s| - 2);
      TimesTen(DigitOf(s[0]) as real, Power10(|s| - 2), DigitValue(s0[1..]) as real, DigitValue(s0) as real);
    }
  }

  lemma TimesTen(d: real, p: real, rest: real, v: real)
    requires v == d * p + rest
    ensures v * 10.0 == d * (10.0 * p) + rest * 10.0
  {
  }

  /** The digits behind the point are worth their number, shifted by their count. */
  lemma {:induction false} FractionIsShifted(s: string)
    requires Digits(s)
    ensures FractionValue(s) * Power10(|s|) == DigitValue(s) as real
    decreases |s|
  {
    hide DigitValue, FractionValue, Power10, DigitOf;
    NoDigits();
    if s != "" {
      FractionIsShifted(s[1..]);
      DigitsFromTheLeft(s);
      FractionValueParts(s);
      PowerParts(|s| - 1);
      Shifted(DigitOf(s[0]) as real, FractionValue(s[1..]), Power10(|s| - 1));
    }
  }

  lemma Shifted(d: real, f: real, p: real)
    ensures (d + f) / 10.0 * (10.0 * p) == d * p + f * p
  {
    var x := (d + f) / 10.0;
    assert x * 10.0 == d + f;
    assert x * (10.0 * p) == (x * 10.0) * p;
  }

  lemma Quotient(f: real, p: real, v: real)
    requires f * p == v && p > 0.0
    ensures f == v / p
  {
  }

  lemma FractionIsWorth(s: string)
    requires Digits(s)
    ensures Power10(|s|) > 0.0 && FractionValue(s) == DigitValue(s) as real / Power10(|s|)
  {
    hide FractionValue, DigitValue, Power10;
    FractionIsShifted(s);
    PowerIsPositive(|s|);
    Quotient(FractionValue(s), Power10(|s|), DigitValue(s) as real);
  }

  /** What may follow the digits of a number that has no exponent. */
  predicate EndsDigits(n: Number, post: string) {
    post != "" ==> !Digit(post[0]) && (n.frac.None? ==> post[0] != '.')
  }

  /** Sign, whole part and fraction are consumed, and worth what their digits say. */
  lemma MantissaIsParsed(n: Number, post: string)
    requires Printable(n) && EndsDigits(n, post)
    ensures var r := Mantissa(NumberText(n) + post);
            r.len == |NumberText(n)| && r.value == NumberValue(n)
  {
    var u := NumberText(n) + post;
    var i1 := (if n.neg then 1 else 0) + |n.whole|;
    WholeIsRun(n, post);
    FractionIsRun(u, i1, n, post);
    FractionIsWorth(if n.frac.Some? then n.frac.value else "");
    hide Run, DigitValue, FractionValue, DigitRun, Digits, Power10;
  }

  lemma NumberIsParsed(n: Number, post: string)
    requires Printable(n) && Ends(post)
    ensures var r := Atod(NumberText(n) + post);
            r.len == |NumberText(n)| && r.value == NumberValue(n)
  {
    hide Mantissa, NumberValue;
    MantissaIsParsed(n, post);
    var u := NumberText(n) + post;
    assert post != "" ==> u[|NumberText(n)|] == post[0];
    hide NumberText;
  }

  lemma PlusMantissa(n: Number, post: string)
    requires Printable(n) && !n.neg && Ends(post)
    ensures var r := Mantissa("+" + NumberText(n) + post);
            r.len == |NumberText(n)| + 1 && r.value == NumberValue(n)
  {
    var u := "+" + NumberText(n) + post;
    assert u[1..] == n.whole + (FractionText(n) + post);
    RunIs(u, 1, n.whole, FractionText(n) + post);
    assert u[1 + |n.whole|..] == FractionText(n) + post;
    FractionIsRun(u, 1 + |n.whole|, n, post);
    FractionIsWorth(if n.frac.Some? then n.frac.value else "");
    hide Run, DigitValue, FractionValue, DigitRun, Digits, Power10;
  }

  lemma NoExponent(u: string, m: Parsed)
    requires m.len <= |u| && (m.len < |u| ==> u[m.len] != 'e' && u[m.len] != 'E')
    ensures Exponent(u, m) == m
  {
  }

  /** A plus in front changes nothing but the length. */
  lemma PlusIsSkipped(n: Number, post: string)
    requires Printable(n) && !n.neg && Ends(post)
    ensures var r := Atod("+" + NumberText(n) + post);
            r.len == |NumberText(n)| + 1 && r.value == NumberValue(n)
  {
    hide Mantissa, NumberText, NumberValue, Exponent;
    var u := "+" + NumberText(n) + post;
    PlusMantissa(n, post);
    assert post != "" ==> u[1 + |NumberText(n)|] == post[0];
    NoExponent(u, Mantissa(u));
  }

  // ------------------------------------------------------------------- exponents

  /** An exponent as it is written: its letter, its signs, and its digits. */
  datatype Scale = Scale(letter: char, neg: bool, plus: bool, digits: string)

  /** All its digits count: what stands before the last one has not reached 308 yet. */
  predicate InScale(e: Scale) {
    && (e.letter == 'e' || e.letter == 'E') && Digits(e.digits) && e.digits != ""
    && DigitValue(e.digits[..|e.digits| - 1]) < 308
  }

  function ScaleText(e: Scale): string {
    [e.letter] + (if e.neg then "-" else "") + (if e.plus then "+" else "") + e.digits
  }

  lemma {:induction false} DigitsAreCounted(s: string, k: nat)
    requires Digits(s) && k <= |s|
    ensures DigitValue(s[..k]) <= DigitValue(s)
    decreases |s|
  {
    if k == |s| {
      assert s[..k] == s;
    } else {
      assert s[..|s| - 1][..k] == s[..k];
      DigitsAreCounted(s[..|s| - 1], k);
    }
  }

  lemma RunEnds(u: string, e: nat)
    requires u != "" && Digit(u[0]) ==> e >= 308
    ensures ExponentRun(u, e) == (0, e)
  {
  }

  lemma RunGoesOn(u: string, e: nat)
    requires u != "" && Digit(u[0]) && e < 308
    ensures var (n, v) := ExponentRun(u[1..], e * 10 + DigitOf(u[0])); ExponentRun(u, e) == (n + 1, v)
  {
  }

  /** The digits of an exponent are read as their number. */
  lemma {:induction false} ExponentDigits(d: string, k: nat, post: string)
    requires Digits(d) && k <= |d| && (d != "" ==> DigitValue(d[..|d| - 1]) < 308)
    requires post != "" && Digit(post[0]) ==> DigitValue(d) >= 308
    ensures ExponentRun(d[k..] + post, DigitValue(d[..k])) == (|d| - k, DigitValue(d))
    decreases |d| - k
  {
    hide ExponentRun, DigitValue, DigitOf;
    var u := d[k..] + post;
    if k == |d| {
      assert u == post && d[..k] == d;
      RunEnds(post, DigitValue(d));
    } else {
      assert d[..|d| - 1][..k] == d[..k];
      DigitsAreCounted(d[..|d| - 1], k);
      assert u[0] == d[k] && u[1..] == d[k + 1..] + post;
      assert d[..k + 1][..k] == d[..k];
      DigitValueParts(d[..k + 1]);
      RunGoesOn(u, DigitValue(d[..k]));
      ExponentDigits(d, k + 1, post);
    }
  }

  /** An exponent scales the number by the power of ten that it says, up to 308. Digits behind
      those that reach 308 are not read. */
  lemma ExponentIsParsed(n: Number, e: Scale, post: string)
    requires Printable(n) && InScale(e) && (post != "" && Digit(post[0]) ==> DigitValue(e.digits) >= 308)
    ensures var r := Atod(NumberText(n) + ScaleText(e) + post);
            var p := Power10(if DigitValue(e.digits) > 308 then 308 else DigitValue(e.digits));
      && r.len == |NumberText(n) + ScaleText(e)| && p > 0.0
      && r.value == if e.neg then NumberValue(n) / p else NumberValue(n) * p
  {
    hide NumberText, NumberValue, Mantissa, ExponentRun, DigitValue, Power10, Exponent, ScaleText, Digit;
    var rest := ScaleText(e) + post;
    assert NumberText(n) + ScaleText(e) + post == NumberText(n) + rest;
    ScaleEndsDigits(n, e, post);
    MantissaIsParsed(n, rest);
    assert e.digits[0..] == e.digits && e.digits[..0] == "";
    NoDigits();
    ExponentDigits(e.digits, 0, post);
    ExponentOf(NumberText(n), e, post, Mantissa(NumberText(n) + rest));
  }

  lemma ScaleEndsDigits(n: Number, e: Scale, post: string)
    requires InScale(e)
    ensures EndsDigits(n, ScaleText(e) + post)
  {
    hide DigitValue;
  }

  lemma ScaleParts(before: string, e: Scale, post: string)
    requires InScale(e)
    ensures var u := before + (ScaleText(e) + post); var j0 := |before| + 1;
      var j1 := if e.neg then j0 + 1 else j0; var j2 := if e.plus then j1 + 1 else j1;
      && j2 + |e.digits| == |before| + |ScaleText(e)| <= |u|
      && (CharAt(u, |before|, 'e') || CharAt(u, |before|, 'E'))
      && (CharAt(u, j0, '-') <==> e.neg) && (CharAt(u, j1, '+') <==> e.plus) && u[j2..] == e.digits + post
  {
    hide DigitValue;
    var u := before + (ScaleText(e) + post);
    var j0 := |before| + 1;
    var j1 := if e.neg then j0 + 1 else j0;
    var j2 := if e.plus then j1 + 1 else j1;
    assert u[|before|] == e.letter && (e.neg ==> u[j0] == '-') && (e.plus ==> u[j1] == '+');
    assert u[j2] == e.digits[0] && Digit(u[j2]);
  }

  lemma ExponentOf(before: string, e: Scale, post: string, m: Parsed)
    requires InScale(e) && m.len == |before|
    requires ExponentRun(e.digits + post, 0) == (|e.digits|, DigitValue(e.digits))
    ensures var u, x := before + (ScaleText(e) + post), DigitValue(e.digits); var p := Power10(if x > 308 then 308 else x);
      && p > 0.0 && m.len <= |u|
      && Exponent(u, m) == Parsed(if e.neg then m.value / p else m.value * p, |before| + |ScaleText(e)|)
  {
    hide DigitValue, ExponentRun, Power10, ScaleText, CharAt;
    var x := DigitValue(e.digits);
    PowerIsPositive(if x > 308 then 308 else x);
    ScaleParts(before, e, post);
  }

  lemma {:induction false} PowersMultiply(a: nat, b: nat)
    ensures Power10(a + b) == Power10(a) * Power10(b)
    decreases a
  {
    if a > 0 {
      PowersMultiply(a - 1, b);
    }
  }

  /** The power by repeated squaring, as the code computes it. */
  method Scaled(d: real, exp: nat) returns (r: real)
    ensures r == d * Power10(exp)
  {
    hide Power10;
    NoDigits();
    if exp == 0 {
      return d;
    }
    var x, y, e := 10.0, 1.0, exp;
    ghost var k := 1;
    PowerParts(0);
    while e > 1
      invariant e >= 1 && k >= 1 && k * e <= exp
      invariant x == Power10(k) && y == Power10(exp - k * e)
    {
      if e % 2 == 1 {
        PowersMultiply(exp - k * e, k);
        LessOne(k, e);
        y, e := y * x, e - 1;
      }
      PowersMultiply(k, k);
      Halved(k, e);
      x, e, k := x * x, e / 2, k + k;
    }
    PowersMultiply(k, exp - k);
    r := d * (x * y);
  }

  lemma LessOne(k: nat, e: nat)
    requires e >= 1
    ensures k * (e - 1) == k * e - k
  {
  }

  lemma Halved(k: nat, e: nat)
    requires e % 2 == 0
    ensures (k + k) * (e / 2) == k * e
  {
  }

  lemma {:induction false} DecimalValue(n: nat)
    ensures DigitValue(Decimal(n)) == n
    decreases n
  {
    if n < 10 {
      assert Decimal(n)[..0] == "";
    } else {
      DecimalValue(n / 10);
      assert Decimal(n)[..|Decimal(n)| - 1] == Decimal(n / 10);
    }
  }

  lemma IntIsWorth(v: int)
    ensures NumberValue(IntNumber(v)) == v as real
  {
    DecimalValue(if v < 0 then -v else v);
    assert DigitValue("") == 0 && Power10(0) == 1.0;
    hide DigitValue;
  }

  /** A printed integer is read back, through its double, as itself. */
  lemma IntIsParsed(v: int, post: string)
    requires Ends(post)
    ensures var r := Atod(NumberText(IntNumber(v)) + post);
            r.value == v as real && r.len == |NumberText(IntNumber(v))|
  {
    hide Atod, NumberText, IntNumber, NumberValue;
    NumberIsParsed(IntNumber(v), post);
    IntIsWorth(v);
  }
}
