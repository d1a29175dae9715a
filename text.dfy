/** Text primitives of the Python runtime that the ATON core leans on: str.strip,
    str.split, str.join, str.replace for the quote escape, int()/float() of
    decimal text, str() of numbers, code-point string ordering and ASCII case
    folding.  Whitespace and digits are the ASCII ones. */
module Text {
  import opened Wrappers

  // ---------------------------------------------------------------------
  // Character classes

  predicate IsSpace(c: char) {
    c == ' ' || c == '\t' || c == '\n' || c == '\r' || c == '\U{000b}' || c == '\U{000c}'
  }

  predicate IsDigit(c: char) {
    '0' <= c <= '9'
  }

  predicate IsLetter(c: char) {
    ('a' <= c <= 'z') || ('A' <= c <= 'Z')
  }

  /** The characters of the regular-expression class \w (ASCII). */
  predicate IsWordChar(c: char) {
    IsLetter(c) || IsDigit(c) || c == '_'
  }

  function Upper(c: char): (u: char)
    ensures IsLetter(c) <==> IsLetter(u)
    ensures !IsLetter(c) ==> u == c
  {
    if 'a' <= c <= 'z' then (c as int - 32) as char else c
  }

  function UpperString(s: string): (u: string)
    ensures |u| == |s|
    ensures forall i :: 0 <= i < |s| ==> u[i] == Upper(s[i])
  {
    if s == [] then [] else [Upper(s[0])] + UpperString(s[1..])
  }

  /** Equality of two characters under ASCII case folding. */
  predicate SameFolded(a: char, b: char) {
    Upper(a) == Upper(b)
  }

  predicate IsDigits(s: string) {
    forall i :: 0 <= i < |s| ==> IsDigit(s[i])
  }

  predicate HasNoSpace(s: string) {
    forall i :: 0 <= i < |s| ==> !IsSpace(s[i])
  }

  // ---------------------------------------------------------------------
  // Searching

  predicate StartsWith(s: string, p: string) {
    |p| <= |s| && s[..|p|] == p
  }

  predicate EndsWith(s: string, p: string) {
    |p| <= |s| && s[|s| - |p|..] == p
  }

  predicate Contains(s: string, c: char) {
    c in s
  }

  /** str.index(c): the first position of c. */
  function IndexOf(s: string, c: char): (r: Option<nat>)
    ensures r.Some? <==> c in s
    ensures r.Some? ==> r.value < |s| && s[r.value] == c && c !in s[..r.value]
  {
    if s == [] then None
    else if s[0] == c then Some(0)
    else match IndexOf(s[1..], c)
      case None => None
      case Some(i) => Some(i + 1)
  }

  /** str.rindex(c): the last position of c. */
  function LastIndexOf(s: string, c: char): (r: Option<nat>)
    ensures r.Some? <==> c in s
    ensures r.Some? ==> r.value < |s| && s[r.value] == c && c !in s[r.value + 1..]
  {
    if s == [] then None
    else if s[|s| - 1] == c then Some(|s| - 1)
    else LastIndexOf(s[..|s| - 1], c)
  }

  /** Python slicing s[i:j] for 0 <= i, j: empty when j <= i, clamped at the end. */
  function Slice(s: string, i: nat, j: nat): (r: string)
    ensures i <= j <= |s| ==> r == s[i..j]
    ensures j <= i ==> r == []
  {
    var hi := if j <= |s| then j else |s|;
    if hi <= i then [] else s[i..hi]
  }

  // ---------------------------------------------------------------------
  // strip

  function LStrip(s: string): (r: string)
    ensures |r| <= |s| && r == s[|s| - |r|..]
    ensures r == [] || !IsSpace(r[0])
  {
    if s != [] && IsSpace(s[0]) then LStrip(s[1..]) else s
  }

  function RStrip(s: string): (r: string)
    ensures |r| <= |s| && r == s[..|r|]
    ensures r == [] || !IsSpace(r[|r| - 1])
  {
    if s != [] && IsSpace(s[|s| - 1]) then RStrip(s[..|s| - 1]) else s
  }

  /** str.strip(): leading and trailing whitespace removed. */
  function Strip(s: string): string {
    RStrip(LStrip(s))
  }

  /** str.strip(c) for one character c. */
  function StripChar(s: string, c: char): string {
    RStripChar(LStripChar(s, c), c)
  }

  function LStripChar(s: string, c: char): (r: string)
    ensures |r| <= |s| && r == s[|s| - |r|..]
  {
    if s != [] && s[0] == c then LStripChar(s[1..], c) else s
  }

  function RStripChar(s: string, c: char): (r: string)
    ensures |r| <= |s| && r == s[..|r|]
  {
    if s != [] && s[|s| - 1] == c then RStripChar(s[..|s| - 1], c) else s
  }

  lemma StripNoSpaceEnds(s: string)
    requires s == [] || (!IsSpace(s[0]) && !IsSpace(s[|s| - 1]))
    ensures Strip(s) == s
  {
  }

  lemma StripIdempotent(s: string)
    ensures Strip(Strip(s)) == Strip(s)
  {
    var l := LStrip(s);
    var r := RStrip(l);
    if r != [] {
      assert r == l[..|r|];
      assert r[0] == l[0];
    }
  }

  // ---------------------------------------------------------------------
  // split and join

  /** str.split(c): the pieces between the occurrences of c; never empty. */
  function Split(s: string, c: char): (r: seq<string>)
    ensures |r| >= 1
    ensures forall k :: 0 <= k < |r| ==> c !in r[k]
    ensures c in s ==> |r| >= 2 && r[0] == s[..IndexOf(s, c).value]
    ensures c !in s ==> r == [s]
    decreases |s|
  {
    match IndexOf(s, c)
    case None => [s]
    case Some(i) => [s[..i]] + Split(s[i + 1..], c)
  }

  /** sep.join(parts). */
  function Join(sep: string, parts: seq<string>): string {
    if parts == [] then []
    else if |parts| == 1 then parts[0]
    else parts[0] + sep + Join(sep, parts[1..])
  }

  lemma {:induction false} SplitJoin(parts: seq<string>, c: char)
    requires |parts| >= 1
    requires forall k :: 0 <= k < |parts| ==> c !in parts[k]
    ensures Split(Join([c], parts), c) == parts
    decreases |parts|
  {
    if |parts| == 1 {
      assert IndexOf(parts[0], c).None?;
    } else {
      var s := Join([c], parts);
      var tail := Join([c], parts[1..]);
      assert s == parts[0] + ([c] + tail);
      IndexOfAfterFree(parts[0], [c] + tail, c);
      assert IndexOf(s, c) == Some(|parts[0]|);
      assert s[..|parts[0]|] == parts[0];
      assert s[|parts[0]| + 1..] == tail;
      SplitJoin(parts[1..], c);
    }
  }

  lemma {:induction false} IndexOfAfterFree(a: string, b: string, c: char)
    requires c !in a && b != [] && b[0] == c
    ensures IndexOf(a + b, c) == Some(|a|)
    decreases |a|
  {
    if a != [] {
      assert (a + b)[1..] == a[1..] + b;
      IndexOfAfterFree(a[1..], b, c);
    }
  }

  lemma JoinSingleton(sep: string, p: string)
    ensures Join(sep, [p]) == p
  {
  }

  lemma {:induction false} JoinAppend(sep: string, parts: seq<string>, p: string)
    requires parts != []
    ensures Join(sep, parts + [p]) == Join(sep, parts) + sep + p
    decreases |parts|
  {
    if |parts| == 1 {
      assert parts + [p] == [parts[0], p];
    } else {
      assert (parts + [p])[1..] == parts[1..] + [p];
      JoinAppend(sep, parts[1..], p);
    }
  }

  // ---------------------------------------------------------------------
  // The quote escape used by every writer and reader of the format

  /** s.replace('"', '\\"'). */
  function EscapeQuotes(s: string): (r: string)
    ensures |r| >= |s|
    ensures r == [] <==> s == []
  {
    if s == [] then []
    else if s[0] == '"' then ['\\', '"'] + EscapeQuotes(s[1..])
    else [s[0]] + EscapeQuotes(s[1..])
  }

  /** s.replace('\\"', '"'): leftmost, non-overlapping. */
  function UnescapeQuotes(s: string): string {
    if |s| >= 2 && s[0] == '\\' && s[1] == '"' then ['"'] + UnescapeQuotes(s[2..])
    else if s == [] then []
    else [s[0]] + UnescapeQuotes(s[1..])
  }

  lemma EscapeNeverStartsWithQuote(s: string)
    ensures EscapeQuotes(s) == [] || EscapeQuotes(s)[0] != '"'
  {
  }

  /** Unescaping undoes escaping for every string. */
  lemma {:induction false} UnescapeEscape(s: string)
    ensures UnescapeQuotes(EscapeQuotes(s)) == s
    decreases |s|
  {
    if s != [] {
      var rest := EscapeQuotes(s[1..]);
      UnescapeEscape(s[1..]);
      if s[0] == '"' {
        assert EscapeQuotes(s) == ['\\', '"'] + rest;
        assert (['\\', '"'] + rest)[2..] == rest;
      } else {
        EscapeNeverStartsWithQuote(s[1..]);
        var e := [s[0]] + rest;
        assert EscapeQuotes(s) == e;
        assert e[1..] == rest;
        assert !(|e| >= 2 && e[0] == '\\' && e[1] == '"');
      }
    }
  }

  lemma EscapeQuotesNoChar(s: string, c: char)
    requires c != '"' && c != '\\' && c !in s
    ensures c !in EscapeQuotes(s)
  {
  }

  lemma {:induction false} EscapeQuotesLast(s: string)
    requires s != []
    ensures EscapeQuotes(s)[|EscapeQuotes(s)| - 1] == s[|s| - 1]
    decreases |s|
  {
    if |s| > 1 {
      EscapeQuotesLast(s[1..]);
    }
  }

  // ---------------------------------------------------------------------
  // Numbers as text

  function DigitChar(d: nat): char
    requires d < 10
  {
    ('0' as int + d) as char
  }

  function DigitOf(c: char): nat
    requires IsDigit(c)
  {
    c as int - '0' as int
  }

  /** The value of a run of decimal digits (leading zeros allowed, as int() does). */
  function DigitsValue(s: string): nat
    requires IsDigits(s)
  {
    if s == [] then 0 else DigitsValue(s[..|s| - 1]) * 10 + DigitOf(s[|s| - 1])
  }

  /** str(n) for a natural number. */
  function NatToString(n: nat): (r: string)
    ensures r != [] && IsDigits(r)
    ensures DigitsValue(r) == n
    decreases n
  {
    if n < 10 then [DigitChar(n)]
    else
      var r := NatToString(n / 10) + [DigitChar(n % 10)];
      assert r[..|r| - 1] == NatToString(n / 10);
      r
  }

  /** str(i) for a Python int. */
  function IntToString(i: int): (r: string)
    ensures r != [] && HasNoSpace(r)
    ensures !IsDigit(r[0]) ==> i < 0 && r[0] == '-' && IsDigits(r[1..])
    ensures i >= 0 ==> IsDigits(r)
  {
    if i < 0 then "-" + NatToString(-i) else NatToString(i)
  }

  function Pow10(n: nat): (r: nat)
    ensures r >= 1
  {
    if n == 0 then 1 else 10 * Pow10(n - 1)
  }

  lemma {:induction false} Pow10Add(a: nat, b: nat)
    ensures Pow10(a + b) == Pow10(a) * Pow10(b)
    decreases a
  {
    if a > 0 {
      Pow10Add(a - 1, b);
    }
  }

  lemma {:induction false} DigitsValueAppend(a: string, b: string)
    requires IsDigits(a) && IsDigits(b)
    ensures IsDigits(a + b)
    ensures DigitsValue(a + b) == DigitsValue(a) * Pow10(|b|) + DigitsValue(b)
    decreases |b|
  {
    if b == [] {
      assert a + b == a;
    } else {
      var b' := b[..|b| - 1];
      var d := DigitOf(b[|b| - 1]);
      assert (a + b)[..|a + b| - 1] == a + b';
      assert (a + b)[|a + b| - 1] == b[|b| - 1];
      DigitsValueAppend(a, b');
      var x, y, p := DigitsValue(a), DigitsValue(b'), Pow10(|b'|);
      assert DigitsValue(a + b) == (x * p + y) * 10 + d;
      assert DigitsValue(b) == y * 10 + d;
      assert Pow10(|b|) == p * 10;
      MulShift(x, p, y, d);
    }
  }

  lemma MulShift(x: int, p: int, y: int, d: int)
    ensures (x * p + y) * 10 + d == x * (p * 10) + (y * 10 + d)
  {
  }

  /** The string of n zeros. */
  function Zeros(n: nat): (r: string)
    ensures |r| == n && IsDigits(r) && DigitsValue(r) == 0
  {
    if n == 0 then [] else
      var r := Zeros(n - 1) + ['0'];
      assert r[..|r| - 1] == Zeros(n - 1);
      r
  }

  /** Digits of n left-padded with zeros to width w (n must fit). */
  function PadDigits(n: nat, w: nat): (r: string)
    requires w >= 1 && n < Pow10(w)
    ensures |r| == w
    ensures IsDigits(r) && DigitsValue(r) == n
  {
    var d := NatToString(n);
    NatToStringLength(n, w);
    var r := Zeros(w - |d|) + d;
    DigitsValueAppend(Zeros(w - |d|), d);
    r
  }

  lemma {:induction false} NatToStringLength(n: nat, w: nat)
    requires n < Pow10(w)
    ensures w >= 1 ==> |NatToString(n)| <= w
    decreases n
  {
    assert Pow10(0) == 1;
    if n >= 10 {
      assert n / 10 < Pow10(w - 1);
      NatToStringLength(n / 10, w - 1);
    }
  }

  /** Python int(text): surrounding whitespace ignored, optional sign, at least
      one ASCII digit.  (Underscore separators are not modelled.) */
  function ParseInt(text: string): (r: Option<int>)
    ensures r.Some? ==> Strip(text) != []
  {
    ParseIntText(Strip(text))
  }

  /** int() once the whitespace is gone: an optional sign and ASCII digits. */
  function ParseIntText(t: string): (r: Option<int>)
    ensures r.Some? ==> t != []
    ensures r.Some? && t[0] != '-' ==> r.value >= 0
  {
    if t == [] then None
    else if t[0] == '-' || t[0] == '+' then
      var d := t[1..];
      if d != [] && IsDigits(d) then
        var v: int := DigitsValue(d);
        Some(if t[0] == '-' then -v else v)
      else None
    else if IsDigits(t) then Some(DigitsValue(t))
    else None
  }

  lemma IntToStringRoundTrip(i: int)
    ensures ParseInt(IntToString(i)) == Some(i)
  {
    var s := IntToString(i);
    IntTextRoundTrip(i);
    StripNoSpaceEnds(s);
  }

  lemma IntTextRoundTrip(i: int)
    ensures ParseIntText(IntToString(i)) == Some(i)
  {
    var s := IntToString(i);
    if i < 0 {
      var d := NatToString(-i);
      assert s[0] == '-' && s[1..] == d;
    } else {
      assert IsDigit(s[0]);
    }
  }

  // ---------------------------------------------------------------------
  // Exact decimals: the model's Python floats

  /** Remove trailing zero digits: m*10^-e with no zero at the end of the fraction. */
  function Normalize(m: int, e: nat): (r: (int, nat))
    ensures IsNormalized(r.0, r.1)
    decreases e
  {
    if e > 0 && m % 10 == 0 then Normalize(m / 10, e - 1) else (m, e)
  }

  predicate IsNormalized(m: int, e: nat) {
    e == 0 || m % 10 != 0
  }

  function Abs(m: int): nat {
    if m < 0 then -m else m
  }

  function SignText(m: int): string {
    if m < 0 then "-" else ""
  }

  function Signed(neg: bool, mag: nat): int {
    if neg then -(mag as int) else mag
  }

  /** Python float(text) on finite decimals: surrounding whitespace ignored,
      an optional sign, digits with at most one '.' and at least one digit,
      then an optional exponent (e or E, an optional sign, digits).  The
      result is the exact decimal; None where float() raises. */
  function ParseDecimal(text: string): (r: Option<(int, nat)>)
    ensures r.Some? ==> IsNormalized(r.value.0, r.value.1)
  {
    var t := Strip(text);
    if t != [] && (t[0] == '-' || t[0] == '+') then ParseUnsignedDecimal(t[1..], t[0] == '-')
    else ParseUnsignedDecimal(t, false)
  }

  /** A float text after its sign: the mantissa, then an optional exponent;
      negated when neg. */
  function ParseUnsignedDecimal(body: string, neg: bool): (r: Option<(int, nat)>)
    ensures r.Some? ==> IsNormalized(r.value.0, r.value.1)
  {
    match ExponentMark(body)
    case None => ParseMantissa(body, neg, 0)
    case Some(p) =>
      match ParseExponent(body[p + 1..])
      case None => None
      case Some(x) => ParseMantissa(body[..p], neg, x)
  }

  predicate IsExponentMark(c: char) {
    c == 'e' || c == 'E'
  }

  predicate NoExponentMark(s: string) {
    forall k :: 0 <= k < |s| ==> !IsExponentMark(s[k])
  }

  /** The position of the first e or E. */
  function ExponentMark(s: string): (r: Option<nat>)
    ensures r.Some? ==> r.value < |s| && IsExponentMark(s[r.value]) && NoExponentMark(s[..r.value])
    ensures r.None? ==> NoExponentMark(s)
  {
    if s == [] then None
    else if IsExponentMark(s[0]) then Some(0)
    else match ExponentMark(s[1..])
      case None => None
      case Some(i) => Some(i + 1)
  }

  /** The exponent after the mark: an optional sign and at least one digit. */
  function ParseExponent(s: string): Option<int> {
    if s != [] && (s[0] == '+' || s[0] == '-') then
      if |s| > 1 && IsDigits(s[1..]) then Some(Signed(s[0] == '-', DigitsValue(s[1..]))) else None
    else if s != [] && IsDigits(s) then Some(DigitsValue(s))
    else None
  }

  /** Digits with at most one '.' and at least one digit, scaled by 10^x and
      negated when neg. */
  function ParseMantissa(body: string, neg: bool, x: int): (r: Option<(int, nat)>)
    ensures r.Some? ==> IsNormalized(r.value.0, r.value.1)
  {
    var point := IndexOf(body, '.');
    var ip := if point.Some? then body[..point.value] else body;
    var fp := if point.Some? then body[point.value + 1..] else [];
    if IsDigits(ip) && IsDigits(fp) && |ip| + |fp| >= 1 then
      DigitsValueAppend(ip, fp);
      Some(Scale(Signed(neg, DigitsValue(ip + fp)), |fp|, x))
    else None
  }

  /** m * 10^(x - f) as a normalized exact decimal. */
  function Scale(m: int, f: nat, x: int): (r: (int, nat))
    ensures IsNormalized(r.0, r.1)
  {
    if x >= f then (m * Pow10((x - f) as nat), 0) else Normalize(m, (f - x) as nat)
  }

  /** A first e or E after text free of them is found where it is. */
  lemma {:induction false} ExponentMarkAfterFree(a: string, b: string)
    requires NoExponentMark(a) && b != [] && IsExponentMark(b[0])
    ensures ExponentMark(a + b) == Some(|a|)
    decreases |a|
  {
    if a == [] {
      assert a + b == b;
    } else {
      assert (a + b)[1..] == a[1..] + b;
      ExponentMarkAfterFree(a[1..], b);
    }
  }

  lemma ParseUnsignedParts(ip: string, fp: string, neg: bool)
    requires IsDigits(ip) && fp != [] && IsDigits(fp)
    ensures IsDigits(ip + fp)
    ensures ParseUnsignedDecimal(ip + "." + fp, neg)
         == Some(Normalize(Signed(neg, DigitsValue(ip + fp)), |fp|))
  {
    var body := ip + ("." + fp);
    assert ip + "." + fp == body;
    assert '.' !in ip;
    IndexOfAfterFree(ip, "." + fp, '.');
    assert body[..|ip|] == ip;
    assert body[|ip| + 1..] == fp;
    assert NoExponentMark(body) by {
      assert forall k :: 0 <= k < |body| ==> IsDigit(body[k]) || body[k] == '.';
    }
    DigitsValueAppend(ip, fp);
  }

  /** Reading back sign, integer digits, '.', fraction digits. */
  lemma ParseDecimalParts(sign: string, ip: string, fp: string)
    requires sign == "-" || sign == ""
    requires ip != [] && IsDigits(ip) && fp != [] && IsDigits(fp)
    ensures IsDigits(ip + fp)
    ensures ParseDecimal(sign + (ip + "." + fp))
         == Some(Normalize(Signed(sign == "-", DigitsValue(ip + fp)), |fp|))
  {
    ParseUnsignedParts(ip, fp, sign == "-");
    SignedDecimalText(sign, ip + "." + fp);
  }

  lemma SignedDecimalText(sign: string, body: string)
    requires sign == "-" || sign == ""
    requires body != [] && IsDigit(body[0]) && IsDigit(body[|body| - 1])
    ensures ParseDecimal(sign + body) == ParseUnsignedDecimal(body, sign == "-")
  {
    var s := sign + body;
    assert s[|s| - 1] == body[|body| - 1];
    if sign == "-" {
      assert s[0] == '-' && s[1..] == body;
    } else {
      assert s == body;
    }
    StripNoSpaceEnds(s);
    ParseStripped(s);
  }

  /** ParseDecimal on a text with no surrounding whitespace. */
  lemma ParseStripped(t: string)
    requires Strip(t) == t
    ensures ParseDecimal(t)
         == if t != [] && (t[0] == '-' || t[0] == '+') then ParseUnsignedDecimal(t[1..], t[0] == '-')
            else ParseUnsignedDecimal(t, false)
  {
  }

  /** Integer part and remainder of mag / 10^e, as Python's divmod. */
  function DivModPow10(mag: nat, e: nat): (r: (nat, nat))
    ensures r.1 < Pow10(e) && r.0 * Pow10(e) + r.1 == mag
  {
    DivModBy(mag, Pow10(e))
  }

  function DivModBy(a: nat, b: nat): (r: (nat, nat))
    requires b > 0
    ensures r.1 < b && r.0 * b + r.1 == a
  {
    (a / b, a % b)
  }

  /** The digits of mag*10^-e around the point: integer part, '.', fraction
      (a lone 0 when the value is integral). */
  function PointDigits(mag: nat, e: nat): (r: string)
    ensures r != [] && IsDigit(r[0]) && IsDigit(r[|r| - 1])
    ensures HasNoSpace(r)
  {
    var qr := DivModPow10(mag, e);
    var ip := NatToString(qr.0);
    var fp := if e == 0 then "0" else PadDigits(qr.1, e);
    NoSpaceAppend(ip, ".");
    NoSpaceAppend(ip + ".", fp);
    ip + "." + fp
  }

  lemma NoSpaceAppend(a: string, b: string)
    requires HasNoSpace(a) && HasNoSpace(b)
    ensures HasNoSpace(a + b)
  {
  }

  /** The power of ten of the first significant digit of m*10^-e. */
  function SciExponent(m: int, e: nat): int {
    |NatToString(Abs(m))| - 1 - e
  }

  /** repr(float) is positional for zero and for 1e-4 <= |x| < 1e16, in
      exponent notation otherwise. */
  predicate Positional(m: int, e: nat) {
    m == 0 || -4 <= SciExponent(m, e) < 16
  }

  /** n as its significant digits times a power of ten. */
  function TrimZeros(n: nat): (r: (nat, nat))
    ensures r.0 * Pow10(r.1) == n
    ensures n > 0 ==> r.0 > 0 && r.0 % 10 != 0
    decreases n
  {
    if n > 0 && n % 10 == 0 then
      var t := TrimZeros(n / 10);
      MulTen(t.0, Pow10(t.1), n / 10);
      (t.0, t.1 + 1)
    else (n, 0)
  }

  lemma MulTen(a: nat, p: nat, q: nat)
    requires a * p == q
    ensures a * (10 * p) == q * 10
  {
  }

  /** Exponent notation: the first digit, the others after a point, then e,
      the exponent's sign and at least two of its digits. */
  function SciText(digits: string, x: int): (r: string)
    requires digits != []
  {
    Mantissa(digits) + "e" + ExponentText(x)
  }

  /** The first digit, and the others after a point. */
  function Mantissa(digits: string): string
    requires digits != []
  {
    [digits[0]] + (if |digits| > 1 then "." + digits[1..] else "")
  }

  function ExponentText(x: int): string {
    (if x < 0 then "-" else "+") + (if Abs(x) < 10 then "0" else "") + NatToString(Abs(x))
  }

  /** str() of an exact decimal, as Python prints a float: positional with
      at least one fraction digit, or d[.ddd]e+XX beyond the positional range. */
  function DecimalToString(m: int, e: nat): (r: string)
    ensures r != [] && HasNoSpace(r)
  {
    if Positional(m, e) then
      NoSpaceAppend(SignText(m), PointDigits(Abs(m), e));
      SignText(m) + PointDigits(Abs(m), e)
    else
      var d := NatToString(TrimZeros(Abs(m)).0);
      SciTextChars(d, SciExponent(m, e));
      NumberCharsAppend(SignText(m), SciText(d, SciExponent(m, e)));
      NumberCharsNoSpace(SignText(m) + SciText(d, SciExponent(m, e)));
      SignText(m) + SciText(d, SciExponent(m, e))
  }

  /** A character of a rendered number. */
  predicate NumberChar(c: char) {
    IsDigit(c) || c == '-' || c == '+' || c == '.' || c == 'e'
  }

  predicate NumberChars(s: string) {
    forall k :: 0 <= k < |s| ==> NumberChar(s[k])
  }

  lemma DigitsAreNumberChars(s: string)
    requires IsDigits(s)
    ensures NumberChars(s)
  {
  }

  lemma NumberCharsAppend(a: string, b: string)
    requires NumberChars(a) && NumberChars(b)
    ensures NumberChars(a + b)
  {
    forall k | 0 <= k < |a + b| ensures NumberChar((a + b)[k]) {
      if k >= |a| {
        assert (a + b)[k] == b[k - |a|];
      }
    }
  }

  lemma NumberCharsNoSpace(s: string)
    requires NumberChars(s)
    ensures HasNoSpace(s)
  {
  }

  /** Exponent notation is number characters, first and last a digit. */
  lemma SciTextChars(d: string, x: int)
    requires d != [] && IsDigits(d)
    ensures var r := SciText(d, x);
      NumberChars(r) && IsDigit(r[0]) && IsDigit(r[|r| - 1])
  {
    var mant := Mantissa(d);
    var sign := if x < 0 then "-" else "+";
    var pad := if Abs(x) < 10 then "0" else "";
    var digits := NatToString(Abs(x));
    DigitsAreNumberChars(d[1..]);
    DigitsAreNumberChars(digits);
    NumberCharsAppend(".", d[1..]);
    NumberCharsAppend([d[0]], if |d| > 1 then "." + d[1..] else "");
    NumberCharsAppend(mant, "e");
    NumberCharsAppend(sign, pad);
    NumberCharsAppend(sign + pad, digits);
    NumberCharsAppend(mant + "e", sign + pad + digits);
    assert SciText(d, x) == mant + "e" + (sign + pad + digits);
    assert SciText(d, x)[0] == d[0];
  }

  /** The digits of PointDigits, read back as one number, and its fraction width. */
  lemma PointDigitsValue(mag: nat, e: nat)
    ensures var qr := DivModPow10(mag, e);
            var ip := NatToString(qr.0);
            var fp := if e == 0 then "0" else PadDigits(qr.1, e);
            PointDigits(mag, e) == ip + "." + fp &&
            IsDigits(ip + fp) &&
            DigitsValue(ip + fp) == (if e == 0 then mag * 10 else mag) &&
            |fp| == (if e == 0 then 1 else e)
  {
    var qr := DivModPow10(mag, e);
    var ip := NatToString(qr.0);
    var fp := if e == 0 then "0" else PadDigits(qr.1, e);
    DigitsValueAppend(ip, fp);
    if e == 0 {
      assert DigitsValue(fp) == 0;
    }
  }

  lemma NormalizeIntegral(m: int)
    ensures Normalize(m * 10, 1) == (m, 0)
  {
    assert (m * 10) % 10 == 0;
    assert (m * 10) / 10 == m;
  }

  /** float(str(x)) == x, in both notations. */
  lemma DecimalRoundTrip(m: int, e: nat)
    requires IsNormalized(m, e)
    ensures ParseDecimal(DecimalToString(m, e)) == Some((m, e))
  {
    if Positional(m, e) {
      PointRoundTrip(m, e);
    } else {
      SciRoundTrip(m, e);
    }
  }

  /** |str(n * 10^z)| for n > 0. */
  lemma {:induction false} NatToStringZeros(n: nat, z: nat)
    requires n > 0
    ensures |NatToString(n * Pow10(z))| == |NatToString(n)| + z
    decreases z
  {
    if z > 0 {
      NatToStringZeros(n, z - 1);
      var k := n * Pow10(z - 1);
      MulTen(n, Pow10(z - 1), k);
      assert n * Pow10(z) == k * 10;
      assert (k * 10) / 10 == k && (k * 10) % 10 == 0;
    }
  }

  lemma ExponentTextParses(x: int)
    ensures ParseExponent(ExponentText(x)) == Some(x)
  {
    var t := ExponentText(x);
    var pad := if Abs(x) < 10 then "0" else "";
    var digits := NatToString(Abs(x));
    assert t[1..] == pad + digits;
    DigitsValueAppend(pad, digits);
    assert DigitsValue(pad) == 0;
  }

  /** Exponent notation reads back as its digits scaled by the exponent. */
  lemma SciTextParses(d: string, x: int, neg: bool)
    requires d != [] && IsDigits(d)
    ensures ParseUnsignedDecimal(SciText(d, x), neg) == Some(Scale(Signed(neg, DigitsValue(d)), |d| - 1, x))
  {
    assert SciText(d, x) == Mantissa(d) + ("e" + ExponentText(x));
    MantissaFree(d);
    ExponentParts(Mantissa(d), ExponentText(x), neg);
    ExponentTextParses(x);
    MantissaParses(d, neg, x);
  }

  /** A float text splits at its first e into mantissa and exponent. */
  lemma ExponentParts(mant: string, t: string, neg: bool)
    requires NoExponentMark(mant)
    ensures ParseUnsignedDecimal(mant + ("e" + t), neg)
         == match ParseExponent(t)
            case None => None
            case Some(x) => ParseMantissa(mant, neg, x)
  {
    var body := mant + ("e" + t);
    ExponentMarkAfterFree(mant, "e" + t);
    assert body[..|mant|] == mant;
    assert body[|mant| + 1..] == t;
  }

  lemma MantissaFree(d: string)
    requires d != [] && IsDigits(d)
    ensures NoExponentMark(Mantissa(d))
  {
    var mant := Mantissa(d);
    assert forall k :: 0 <= k < |mant| ==> IsDigit(mant[k]) || mant[k] == '.';
  }

  /** The mantissa reads back as the digits with |d| - 1 of them after the point. */
  lemma MantissaParses(d: string, neg: bool, x: int)
    requires d != [] && IsDigits(d)
    ensures ParseMantissa(Mantissa(d), neg, x) == Some(Scale(Signed(neg, DigitsValue(d)), |d| - 1, x))
  {
    if |d| > 1 {
      assert Mantissa(d) == [d[0]] + ("." + d[1..]);
      assert [d[0]] + d[1..] == d;
      PointMantissa([d[0]], d[1..], neg, x);
    } else {
      assert Mantissa(d) == d;
      WholeMantissa(d, neg, x);
    }
  }

  lemma PointMantissa(ip: string, fp: string, neg: bool, x: int)
    requires IsDigits(ip) && IsDigits(fp) && '.' !in ip && |ip| + |fp| >= 1
    ensures IsDigits(ip + fp)
    ensures ParseMantissa(ip + ("." + fp), neg, x) == Some(Scale(Signed(neg, DigitsValue(ip + fp)), |fp|, x))
  {
    var body := ip + ("." + fp);
    IndexOfAfterFree(ip, "." + fp, '.');
    assert body[..|ip|] == ip;
    assert body[|ip| + 1..] == fp;
    DigitsValueAppend(ip, fp);
  }

  lemma WholeMantissa(ip: string, neg: bool, x: int)
    requires IsDigits(ip) && ip != []
    ensures ParseMantissa(ip, neg, x) == Some(Scale(Signed(neg, DigitsValue(ip)), 0, x))
  {
    assert '.' !in ip by {
      assert forall k :: 0 <= k < |ip| ==> IsDigit(ip[k]);
    }
    assert ip + [] == ip;
  }

  lemma SignedScaled(neg: bool, n: nat, p: nat)
    ensures Signed(neg, n) * p == Signed(neg, n * p)
  {
  }

  lemma MagnitudeDigit(m: int)
    ensures Abs(m) % 10 == 0 ==> m % 10 == 0
  {
    if m < 0 && (-m) % 10 == 0 {
      var q := (-m) / 10;
      assert m == 10 * (-q);
    }
  }

  lemma SciRoundTrip(m: int, e: nat)
    requires IsNormalized(m, e) && !Positional(m, e)
    ensures ParseDecimal(DecimalToString(m, e)) == Some((m, e))
  {
    var tz := TrimZeros(Abs(m));
    var d := NatToString(tz.0);
    var x := SciExponent(m, e);
    SciDecimalText(m, e);
    SignedSciParses(SignText(m), d, x);
    assert (SignText(m) == "-") == (m < 0);
    assert DigitsValue(d) == tz.0;
    SciScale(m, e);
  }

  lemma SciDecimalText(m: int, e: nat)
    requires !Positional(m, e)
    ensures DecimalToString(m, e) == SignText(m) + SciText(NatToString(TrimZeros(Abs(m)).0), SciExponent(m, e))
  {
  }

  /** A sign followed by exponent notation reads back as its scaled digits. */
  lemma SignedSciParses(sign: string, d: string, x: int)
    requires sign == "-" || sign == ""
    requires d != [] && IsDigits(d)
    ensures ParseDecimal(sign + SciText(d, x)) == Some(Scale(Signed(sign == "-", DigitsValue(d)), |d| - 1, x))
  {
    SciTextChars(d, x);
    SignedDecimalText(sign, SciText(d, x));
    SciTextParses(d, x, sign == "-");
  }

  /** The significant digits scaled by the exponent give the value back. */
  lemma SciScale(m: int, e: nat)
    requires IsNormalized(m, e) && m != 0
    ensures var tz := TrimZeros(Abs(m));
      Scale(Signed(m < 0, tz.0), |NatToString(tz.0)| - 1, SciExponent(m, e)) == (m, e)
  {
    var mag := Abs(m);
    var tz := TrimZeros(mag);
    var f := |NatToString(tz.0)| - 1;
    var x := SciExponent(m, e);
    NatToStringZeros(tz.0, tz.1);
    assert x - f == tz.1 - e;
    if e == 0 {
      ScaleUp(m < 0, tz.0, tz.1, f, x);
      assert Signed(m < 0, mag) == m;
    } else {
      MagnitudeDigit(m);
      assert tz == (mag, 0);
      assert Signed(m < 0, mag) == m;
      ScaleDown(m, f, x);
    }
  }

  lemma ScaleUp(neg: bool, t: nat, z: nat, f: nat, x: int)
    requires x - f == z
    ensures Scale(Signed(neg, t), f, x) == (Signed(neg, t * Pow10(z)), 0)
  {
    SignedScaled(neg, t, Pow10(z));
  }

  lemma ScaleDown(m: int, f: nat, x: int)
    requires x < f && m % 10 != 0
    ensures Scale(m, f, x) == (m, (f - x) as nat)
  {
  }

  lemma {:induction false} PointRoundTrip(m: int, e: nat)
    requires IsNormalized(m, e) && Positional(m, e)
    ensures ParseDecimal(DecimalToString(m, e)) == Some((m, e))
  {
    var mag := Abs(m);
    var qr := DivModPow10(mag, e);
    var ip := NatToString(qr.0);
    var fp := if e == 0 then "0" else PadDigits(qr.1, e);
    PointDigitsValue(mag, e);
    assert DecimalToString(m, e) == SignText(m) + (ip + "." + fp);
    ParseDecimalParts(SignText(m), ip, fp);
    if e == 0 {
      assert Signed(m < 0, mag * 10) == m * 10;
      NormalizeIntegral(m);
    } else {
      assert Signed(m < 0, mag) == m;
    }
  }

  // ---------------------------------------------------------------------
  // Code-point ordering of strings (Python's str < str)

  predicate StrLess(a: string, b: string) {
    if a == [] then b != []
    else if b == [] then false
    else if a[0] != b[0] then a[0] < b[0]
    else StrLess(a[1..], b[1..])
  }

  lemma {:induction false} StrLessIrreflexive(a: string)
    ensures !StrLess(a, a)
    decreases |a|
  {
    if a != [] {
      StrLessIrreflexive(a[1..]);
    }
  }

  lemma {:induction false} StrLessTransitive(a: string, b: string, c: string)
    requires StrLess(a, b) && StrLess(b, c)
    ensures StrLess(a, c)
    decreases |a|
  {
    if a != [] && b != [] && c != [] && a[0] == b[0] && b[0] == c[0] {
      StrLessTransitive(a[1..], b[1..], c[1..]);
    }
  }

  lemma {:induction false} StrLessTotal(a: string, b: string)
    requires a != b
    ensures StrLess(a, b) || StrLess(b, a)
    decreases |a|
  {
    if a != [] && b != [] && a[0] == b[0] {
      assert a == [a[0]] + a[1..] && b == [b[0]] + b[1..];
      StrLessTotal(a[1..], b[1..]);
    }
  }

  lemma {:induction false} StrLessAsymmetric(a: string, b: string)
    requires StrLess(a, b)
    ensures !StrLess(b, a)
    decreases |a|
  {
    if a != [] && b != [] && a[0] == b[0] {
      StrLessAsymmetric(a[1..], b[1..]);
    }
  }
}
