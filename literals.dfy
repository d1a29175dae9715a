/** The literal syntax of ATON rows and defaults: how the encoders render a
    value and how the decoder's _parse_val / _parse_array read one back. */
module Literals {
  import opened Wrappers
  import opened Text
  import opened Values
  import opened Splitting

  // ---------------------------------------------------------------------
  // Rendering

  /** A string in double quotes, each inner quote escaped by a backslash. */
  function Quote(s: string): string {
    "\"" + EscapeQuotes(s) + "\""
  }

  /** A value in a row (_format_record): strings starting with '#' go out bare. */
  function FormatValue(v: Value): string {
    match v
    case Null => "null"
    case Bool(b) => if b then "true" else "false"
    case Str(s) => if StartsWith(s, "#") then s else Quote(s)
    case _ => PyStr(v)
  }

  /** A value in a defaults line (_format_defaults), and a value in a
      streamed row (_format_value): strings are always quoted. */
  function FormatQuoted(v: Value): string {
    match v
    case Str(s) => Quote(s)
    case Bool(b) => if b then "true" else "false"
    case Null => "null"
    case _ => PyStr(v)
  }

  // ---------------------------------------------------------------------
  // Parsing

  /** _parse_val: null/true/false, a quoted string, a bare '#' token, an
      array, a float when the text holds '.', an int, else the text itself. */
  function ParseVal(v: string): Value
    decreases |v|, 1
  {
    if v == "null" then Null
    else if v == "true" then Bool(true)
    else if v == "false" then Bool(false)
    else if StartsWith(v, "\"") && EndsWith(v, "\"") then Str(UnescapeQuotes(Slice(v, 1, |v| - 1)))
    else if StartsWith(v, "#") then Str(v)
    else if StartsWith(v, "[") && EndsWith(v, "]") then ParseArray(v)
    else ParseNumber(v)
  }

  /** float(v) if '.' in v else int(v), or v itself where that raises. */
  function ParseNumber(v: string): Value {
    if '.' in v then
      match ParseDecimal(v)
      case Some(d) => Float(d.0, d.1)
      case None => Str(v)
    else
      match ParseInt(v)
      case Some(i) => Int(i)
      case None => Str(v)
  }

  /** Text that is no keyword, quote, '#' token or array goes to ParseNumber. */
  lemma ParseValPlainStart(v: string)
    requires v != [] && v[0] != 'n' && v[0] != 't' && v[0] != 'f' && v[0] != '"' && v[0] != '#' && v[0] != '['
    ensures ParseVal(v) == ParseNumber(v)
  {
    assert v != "null" && v != "true" && v != "false" by {
      assert "null"[0] == 'n' && "true"[0] == 't' && "false"[0] == 'f';
    }
    assert !StartsWith(v, "\"") && !StartsWith(v, "#") && !StartsWith(v, "[");
  }

  /** An array item's text once stripped of whitespace and single quotes. */
  function ItemText(item: string): (r: string)
    ensures |r| <= |item|
  {
    StripChar(Strip(item), '\'')
  }

  /** _parse_array: the items between the brackets, split on ',' outside
      quotes and nested brackets, each parsed as a value. */
  function ParseArray(v: string): Value
    requires StartsWith(v, "[") && EndsWith(v, "]")
    decreases |v|, 0
  {
    assert v[0] == '[' && v[|v| - 1] == ']';
    var content := Strip(v[1..|v| - 1]);
    if content == [] then Arr([])
    else
      var items := SplitSmart(content, ',');
      SplitSmartWithin(content, ',');
      Arr(seq(|items|, k requires 0 <= k < |items| => ParseVal(ItemText(items[k]))))
  }

  // ---------------------------------------------------------------------
  // Character classes of rendered text

  /** No character the splitter treats specially inside brackets, and no newline. */
  predicate Unmarked(s: string) {
    forall k :: 0 <= k < |s| ==> !(s[k] == '\\' || s[k] == '"' || s[k] == '[' || s[k] == ']' || s[k] == '\n')
  }

  /** The text of a rendered number. */
  predicate NumberText(s: string) {
    s != [] && (IsDigit(s[0]) || s[0] == '-') && IsDigit(s[|s| - 1]) &&
    forall k :: 0 <= k < |s| ==> NumberChar(s[k])
  }

  lemma IntText(i: int)
    ensures NumberText(IntToString(i)) && '.' !in IntToString(i)
  {
    var s := IntToString(i);
    if i < 0 {
      assert s[0] == '-' && IsDigits(s[1..]);
      assert forall k :: 1 <= k < |s| ==> s[k] == s[1..][k - 1];
    }
  }

  /** str(float) is number text, and holds a point or an exponent mark. */
  lemma FloatText(m: int, e: nat)
    ensures NumberText(DecimalToString(m, e))
    ensures '.' in DecimalToString(m, e) || 'e' in DecimalToString(m, e)
  {
    if Positional(m, e) {
      assert DecimalToString(m, e) == SignText(m) + PointDigits(Abs(m), e);
      PointText(m, e);
    } else {
      var d := NatToString(TrimZeros(Abs(m)).0);
      assert DecimalToString(m, e) == SignText(m) + SciText(d, SciExponent(m, e));
      SciFloatText(m, d, SciExponent(m, e));
    }
  }

  lemma PointText(m: int, e: nat)
    ensures var s := SignText(m) + PointDigits(Abs(m), e);
      NumberText(s) && '.' in s
  {
    var p := PointDigits(Abs(m), e);
    PointDigitsChars(Abs(m), e);
    SignedNumberText(SignText(m), p);
    assert '.' in SignText(m) + p by {
      var k :| 0 <= k < |p| && p[k] == '.';
      assert (SignText(m) + p)[|SignText(m)| + k] == '.';
    }
  }

  lemma PointDigitsChars(mag: nat, e: nat)
    ensures NumberChars(PointDigits(mag, e)) && '.' in PointDigits(mag, e)
  {
    var qr := DivModPow10(mag, e);
    var ip := NatToString(qr.0);
    var fp := if e == 0 then "0" else PadDigits(qr.1, e);
    assert PointDigits(mag, e) == ip + "." + fp;
    DigitsAreNumberChars(ip);
    DigitsAreNumberChars(fp);
    NumberCharsAppend(ip, ".");
    NumberCharsAppend(ip + ".", fp);
    assert (ip + "." + fp)[|ip|] == '.';
  }

  /** A sign in front of digits-led number characters is number text. */
  lemma SignedNumberText(sign: string, p: string)
    requires sign == "-" || sign == ""
    requires NumberChars(p) && p != [] && IsDigit(p[0]) && IsDigit(p[|p| - 1])
    ensures NumberText(sign + p)
  {
    NumberCharsAppend(sign, p);
    assert (sign + p)[|sign + p| - 1] == p[|p| - 1];
  }

  lemma SciFloatText(m: int, d: string, x: int)
    requires d != [] && IsDigits(d)
    ensures var s := SignText(m) + SciText(d, x);
      NumberText(s) && 'e' in s
  {
    var s := SignText(m) + SciText(d, x);
    SciTextChars(d, x);
    NumberCharsAppend(SignText(m), SciText(d, x));
    assert s == SignText(m) + Mantissa(d) + "e" + ExponentText(x);
    assert s[|SignText(m) + Mantissa(d)|] == 'e';
  }

  /** str(float) has a point exactly when it is positional or has more than
      one significant digit: 1e+16 and 1e-05 have none. */
  lemma FloatPoint(m: int, e: nat)
    ensures '.' in DecimalToString(m, e)
        <==> Positional(m, e) || |NatToString(TrimZeros(Abs(m)).0)| > 1
  {
    if Positional(m, e) {
      assert DecimalToString(m, e) == SignText(m) + PointDigits(Abs(m), e);
      PointText(m, e);
    } else {
      var d := NatToString(TrimZeros(Abs(m)).0);
      assert DecimalToString(m, e) == SignText(m) + SciText(d, SciExponent(m, e));
      SciPoint(SignText(m), d, SciExponent(m, e));
    }
  }

  lemma SciPoint(sign: string, d: string, x: int)
    requires sign == "-" || sign == ""
    requires d != [] && IsDigits(d)
    ensures '.' in sign + SciText(d, x) <==> |d| > 1
  {
    var s := sign + SciText(d, x);
    assert s == sign + Mantissa(d) + "e" + ExponentText(x);
    if |d| > 1 {
      assert s[|sign| + 1] == '.';
    } else {
      assert Mantissa(d) == [d[0]];
      NoPointInExponent(x);
      NoPointAppend(sign, Mantissa(d));
      NoPointAppend(sign + Mantissa(d), "e");
      NoPointAppend(sign + Mantissa(d) + "e", ExponentText(x));
    }
  }

  lemma NoPointInExponent(x: int)
    ensures '.' !in ExponentText(x)
  {
    var digits := NatToString(Abs(x));
    assert forall k :: 0 <= k < |digits| ==> IsDigit(digits[k]);
    NoPointAppend((if x < 0 then "-" else "+") + (if Abs(x) < 10 then "0" else ""), digits);
  }

  lemma NoPointAppend(a: string, b: string)
    requires '.' !in a && '.' !in b
    ensures '.' !in a + b
  {
  }

  /** Number text is read back by the splitter as one part. */
  lemma NumberTextSafe(s: string)
    requires NumberText(s)
    ensures SafeField(s) && Unmarked(s) && Plain(s, ',')
  {
    TrackPlain(s, ',', false, 0);
  }

  // ---------------------------------------------------------------------
  // Reading back what was rendered

  lemma QuoteRoundTrip(s: string)
    ensures ParseVal(Quote(s)) == Str(s)
  {
    var q := Quote(s);
    assert q[0] == '"' && q[|q| - 1] == '"';
    QuotedParse(q);
    assert Slice(q, 1, |q| - 1) == EscapeQuotes(s);
    UnescapeEscape(s);
  }

  /** Text between double quotes is read as the string it holds. */
  lemma QuotedParse(v: string)
    requires |v| >= 2 && v[0] == '"' && v[|v| - 1] == '"'
    ensures ParseVal(v) == Str(UnescapeQuotes(Slice(v, 1, |v| - 1)))
  {
    assert v != "null" && v != "true" && v != "false" by {
      assert "null"[0] == 'n' && "true"[0] == 't' && "false"[0] == 'f';
    }
    assert StartsWith(v, "\"") && EndsWith(v, "\"");
  }


  lemma IntRoundTrip(i: int)
    ensures ParseVal(IntToString(i)) == Int(i)
  {
    var s := IntToString(i);
    IntText(i);
    ParseValPlainStart(s);
    IntToStringRoundTrip(i);
  }

  /** A float whose text has a point reads back as itself. */
  lemma FloatRoundTrip(m: int, e: nat)
    requires IsNormalized(m, e) && '.' in DecimalToString(m, e)
    ensures ParseVal(DecimalToString(m, e)) == Float(m, e)
  {
    var s := DecimalToString(m, e);
    FloatText(m, e);
    ParseValPlainStart(s);
    DecimalRoundTrip(m, e);
  }

  /** A float printed in exponent notation with one significant digit has no
      point, so the decoder's int() attempt fails and it reads back as the
      string of its text. */
  lemma PointlessFloatReadsAsString(m: int, e: nat)
    requires '.' !in DecimalToString(m, e)
    ensures ParseVal(DecimalToString(m, e)) == Str(DecimalToString(m, e))
  {
    var s := DecimalToString(m, e);
    FloatText(m, e);
    ParseValPlainStart(s);
    StripNoSpaceEnds(s);
    LetterNotInt(s, 'e');
  }

  /** int() refuses a text holding a printable ASCII character other than a
      digit, a sign or the digit separator '_'. */
  lemma LetterNotInt(t: string, c: char)
    requires c in t && '!' <= c <= '~' && !IsDigit(c) && c != '-' && c != '+' && c != '_'
    ensures ParseIntText(t).None?
  {
    var k :| 0 <= k < |t| && t[k] == c;
    if t[0] == '-' || t[0] == '+' {
      assert t[1..][k - 1] == c;
    }
  }

  /** 0.00001 is written 1e-05 and read back as the string '1e-05'. */
  lemma SmallFloatReadsAsString()
    ensures DecimalToString(1, 5) == "1e-05"
    ensures ParseVal("1e-05") == Str("1e-05")
  {
    assert NatToString(1) == "1";
    assert !Positional(1, 5);
    assert TrimZeros(1) == (1, 0);
    assert ExponentText(-5) == "-05";
    assert SciText("1", -5) == "1e-05";
    assert '.' !in "1e-05";
    PointlessFloatReadsAsString(1, 5);
  }

  /** A string renders in a row so that it reads back as itself (bare when
      it starts with '#', quoted otherwise). */
  lemma StringRoundTrip(s: string)
    ensures ParseVal(FormatValue(Str(s))) == Str(s)
  {
    if !StartsWith(s, "#") {
      QuoteRoundTrip(s);
    } else {
      assert s[0] == '#' && "null"[0] == 'n' && "true"[0] == 't' && "false"[0] == 'f';
      assert !StartsWith(s, "\"");
    }
  }

  /** A word of letters other than null/true/false: read back as a string. */
  predicate Word(w: string) {
    w != [] && (forall k :: 0 <= k < |w| ==> IsLetter(w[k])) && w != "null" && w != "true" && w != "false"
  }

  lemma WordRoundTrip(w: string)
    requires Word(w)
    ensures ParseVal(w) == Str(w)
  {
    WordNoKeyword(w);
    WordNoNumber(w);
  }

  /** A word is no keyword, quote, '#' token or array: ParseNumber reads it. */
  lemma WordNoKeyword(w: string)
    requires Word(w)
    ensures ParseVal(w) == ParseNumber(w)
  {
    if w[0] == 'n' || w[0] == 't' || w[0] == 'f' {
      assert !StartsWith(w, "\"") && !StartsWith(w, "#") && !StartsWith(w, "[");
    } else {
      ParseValPlainStart(w);
    }
  }

  /** A word holds no '.' and no digit, so int(w) raises and w stays a string. */
  lemma WordNoNumber(w: string)
    requires Word(w)
    ensures ParseNumber(w) == Str(w)
  {
    assert '.' !in w;
    StripNoSpaceEnds(w);
    assert !IsDigit(w[0]) && w[0] != '-' && w[0] != '+';
  }

  /** A float the decoder reads back: normalized, and its text has a point
      (see FloatPoint for when it has). */
  predicate FloatReadsBack(m: int, e: nat) {
    IsNormalized(m, e) && '.' in DecimalToString(m, e)
  }

  /** Array items that repr() renders in a form _parse_array reads back. */
  predicate ArrayItem(v: Value) {
    v.Int? || (v.Float? && FloatReadsBack(v.mantissa, v.exponent)) || (v.Str? && Word(v.s))
  }

  lemma ItemRoundTrip(v: Value)
    requires ArrayItem(v)
    ensures SafeField(Repr(v)) && Unmarked(Repr(v))
    ensures ParseVal(ItemText(Repr(v))) == v
  {
    match v
    case Int(i) =>
      NumberItem(IntToString(i), v);
      NumberItemText(IntToString(i));
    case Float(m, e) =>
      NumberItem(DecimalToString(m, e), v);
      NumberItemText(DecimalToString(m, e));
    case Str(w) => WordItem(w);
  }

  lemma NumberItem(r: string, v: Value)
    requires ArrayItem(v) && !v.Str? && r == Repr(v)
    ensures NumberText(r) && ParseVal(r) == v
  {
    match v
    case Int(i) =>
      IntText(i);
      IntRoundTrip(i);
    case Float(m, e) =>
      FloatText(m, e);
      FloatRoundTrip(m, e);
  }

  lemma NumberItemText(r: string)
    requires NumberText(r)
    ensures SafeField(r) && Unmarked(r) && ItemText(r) == r
  {
    NumberTextSafe(r);
    StripNoSpaceEnds(r);
  }

  lemma WordItem(w: string)
    requires Word(w)
    ensures SafeField(Repr(Str(w))) && Unmarked(Repr(Str(w)))
    ensures ParseVal(ItemText(Repr(Str(w)))) == Str(w)
  {
    var r := "'" + w + "'";
    assert forall k :: 0 <= k < |w| ==> PlainReprChar(w[k]) by {
      assert forall k :: 0 <= k < |w| ==> IsLetter(w[k]);
    }
    PlainRepr(w);
    assert Repr(Str(w)) == r;
    WordText(w);
    StripNoSpaceEnds(r);
    WordUnquoted(w);
    assert ItemText(r) == w;
    WordRoundTrip(w);
  }

  /** A quoted word has no character the splitter or the entry checks act on. */
  lemma WordText(w: string)
    requires Word(w)
    ensures var r := "'" + w + "'"; SafeField(r) && Unmarked(r)
  {
    var r := "'" + w + "'";
    assert forall k :: 1 <= k < |r| - 1 ==> r[k] == w[k - 1];
    TrackPlain(r, ',', false, 0);
  }

  lemma WordUnquoted(w: string)
    requires Word(w)
    ensures StripChar("'" + w + "'", '\'') == w
  {
    var r := "'" + w + "'";
    assert r[1..] == w + "'";
    assert LStripChar(w + "'", '\'') == w + "'";
    assert (w + "'")[..|w|] == w;
    assert RStripChar(w, '\'') == w;
  }

  /** The items' reprs, as repr() of a list joins them. */
  function ItemReprs(xs: seq<Value>): (rs: seq<string>)
    ensures |rs| == |xs| && forall k :: 0 <= k < |xs| ==> rs[k] == Repr(xs[k])
  {
    seq(|xs|, k requires 0 <= k < |xs| => Repr(xs[k]))
  }

  lemma JoinFirst(sep: string, xs: seq<string>)
    requires xs != [] && xs[0] != []
    ensures Join(sep, xs) != [] && Join(sep, xs)[0] == xs[0][0]
  {
  }

  lemma {:induction false} JoinLast(sep: string, xs: seq<string>)
    requires xs != [] && xs[|xs| - 1] != []
    ensures Join(sep, xs) != [] && Join(sep, xs)[|Join(sep, xs)| - 1] == xs[|xs| - 1][|xs[|xs| - 1]| - 1]
    decreases |xs|
  {
    if |xs| > 1 {
      JoinLast(sep, xs[1..]);
      assert Join(sep, xs) == xs[0] + sep + Join(sep, xs[1..]);
    }
  }

  lemma {:induction false} JoinUnmarked(sep: string, xs: seq<string>)
    requires Unmarked(sep) && forall k :: 0 <= k < |xs| ==> Unmarked(xs[k])
    ensures Unmarked(Join(sep, xs))
    decreases |xs|
  {
    if |xs| > 1 {
      JoinUnmarked(sep, xs[1..]);
      var t := Join(sep, xs[1..]);
      assert Join(sep, xs) == xs[0] + sep + t;
      forall k | 0 <= k < |xs[0] + sep + t| ensures !((xs[0] + sep + t)[k] == '\\' || (xs[0] + sep + t)[k] == '"' ||
        (xs[0] + sep + t)[k] == '[' || (xs[0] + sep + t)[k] == ']' || (xs[0] + sep + t)[k] == '\n') {
        if k < |xs[0]| {
          assert (xs[0] + sep + t)[k] == xs[0][k];
        } else if k < |xs[0] + sep| {
          assert (xs[0] + sep + t)[k] == sep[k - |xs[0]|];
        } else {
          assert (xs[0] + sep + t)[k] == t[k - |xs[0] + sep|];
        }
      }
    }
  }

  /** Inside brackets no split happens and the depth is kept. */
  lemma {:induction false} TrackInside(s: string, delim: char, depth: int)
    requires Unmarked(s) && depth != 0
    ensures Track(s, delim, false, depth) == Some((false, depth))
    decreases |s|
  {
    if s != [] {
      TrackInside(s[1..], delim, depth);
    }
  }

  /** The items read back from bracketed text. */
  function ParsedItems(rs: seq<string>): (ys: seq<Value>)
    ensures |ys| == |rs| && forall k :: 0 <= k < |rs| ==> ys[k] == ParseVal(ItemText(rs[k]))
  {
    seq(|rs|, k requires 0 <= k < |rs| => ParseVal(ItemText(rs[k])))
  }

  /** Bracketed text always goes to _parse_array. */
  lemma BracketDispatch(v: string)
    requires StartsWith(v, "[") && EndsWith(v, "]")
    ensures ParseVal(v) == ParseArray(v)
  {
    assert v[0] == '[';
    assert v != "null" && v != "true" && v != "false" by {
      assert "null"[0] == 'n' && "true"[0] == 't' && "false"[0] == 'f';
    }
    assert !StartsWith(v, "\"") && !StartsWith(v, "#");
  }

  /** The content between the brackets is split and parsed item by item. */
  lemma BracketContent(j: string)
    requires j == [] || (!IsSpace(j[0]) && !IsSpace(j[|j| - 1]))
    ensures ParseArray("[" + j + "]") == if j == [] then Arr([]) else Arr(ParsedItems(SplitSmart(j, ',')))
  {
    var v := "[" + j + "]";
    assert v[1..|v| - 1] == j;
    StripNoSpaceEnds(j);
  }

  lemma ParseBracketed(j: string)
    requires j == [] || (!IsSpace(j[0]) && !IsSpace(j[|j| - 1]))
    ensures ParseVal("[" + j + "]") == if j == [] then Arr([]) else Arr(ParsedItems(SplitSmart(j, ',')))
  {
    var v := "[" + j + "]";
    assert v[0] == '[' && v[|v| - 1] == ']';
    BracketDispatch(v);
    BracketContent(j);
  }

  /** An array of such items: its text is one part, and it reads back. */
  lemma ArrayRoundTrip(xs: seq<Value>)
    requires forall k :: 0 <= k < |xs| ==> ArrayItem(xs[k])
    ensures SafeField(Repr(Arr(xs))) && '\n' !in Repr(Arr(xs))
    ensures ParseVal(Repr(Arr(xs))) == Arr(xs)
  {
    var j := Join(", ", ItemReprs(xs));
    assert Repr(Arr(xs)) == "[" + j + "]";
    ItemsJoined(xs);
    ParseBracketed(j);
    ArrayTrack(j);
  }

  /** The joined reprs of array items: unmarked, with no space at either
      end, and split back into the items. */
  lemma ItemsJoined(xs: seq<Value>)
    requires forall k :: 0 <= k < |xs| ==> ArrayItem(xs[k])
    ensures var j := Join(", ", ItemReprs(xs));
      Unmarked(j) && (j == [] <==> xs == []) &&
      (j != [] ==> !IsSpace(j[0]) && !IsSpace(j[|j| - 1]) && ParsedItems(SplitSmart(j, ',')) == xs)
  {
    var rs := ItemReprs(xs);
    ItemsEach(xs);
    JoinUnmarked(", ", rs);
    if xs != [] {
      JoinEnds(rs);
      JoinSplit(rs);
      assert ParsedItems(rs) == xs;
    }
  }

  lemma ItemsEach(xs: seq<Value>)
    requires forall k :: 0 <= k < |xs| ==> ArrayItem(xs[k])
    ensures forall k :: 0 <= k < |xs| ==>
      SafeField(ItemReprs(xs)[k]) && Unmarked(ItemReprs(xs)[k]) && ParseVal(ItemText(ItemReprs(xs)[k])) == xs[k]
  {
    forall k | 0 <= k < |xs| ensures SafeField(Repr(xs[k])) && Unmarked(Repr(xs[k])) && ParseVal(ItemText(Repr(xs[k]))) == xs[k] {
      ItemRoundTrip(xs[k]);
    }
  }

  lemma JoinEnds(rs: seq<string>)
    requires rs != [] && forall k :: 0 <= k < |rs| ==> SafeField(rs[k])
    ensures Join(", ", rs) != [] && !IsSpace(Join(", ", rs)[0]) && !IsSpace(Join(", ", rs)[|Join(", ", rs)| - 1])
  {
    assert SafeField(rs[0]) && SafeField(rs[|rs| - 1]);
    JoinFirst(", ", rs);
    JoinLast(", ", rs);
  }

  lemma ArrayTrack(j: string)
    requires Unmarked(j)
    ensures SafeField("[" + j + "]") && '\n' !in "[" + j + "]"
  {
    var v := "[" + j + "]";
    assert forall k :: 0 < k < |v| - 1 ==> v[k] == j[k - 1];
    assert v[0] == '[' && Width(v) == 1 && v[1..] == j + "]";
    TrackInside(j, ',', 1);
    TrackAppend(j, "]", ',', false, 1);
  }

  // ---------------------------------------------------------------------
  // Whole literals of a row or a defaults line

  /** A bare '#' token: '#' followed by word characters (the references of
      dictionary compression have this form). */
  predicate BareToken(s: string) {
    s != [] && s[0] == '#' && forall k :: 1 <= k < |s| ==> IsWordChar(s[k])
  }

  /** A string that survives quoting and splitting: no newline (rows are
      lines) and no final backslash (it would pair with the closing quote). */
  predicate QuotableString(s: string) {
    '\n' !in s && ClosedEnd(s)
  }

  /** Values the row literal grammar reads back as themselves.  Dicts are
      never read back (their text is not a literal), lists only as arrays of
      ints, floats and words, and '#' strings only as bare tokens. */
  predicate RowSafe(v: Value) {
    match v
    case Null => true
    case Bool(_) => true
    case Int(_) => true
    case Float(m, e) => FloatReadsBack(m, e)
    case Str(s) => QuotableString(s) && (StartsWith(s, "#") ==> BareToken(s))
    case Arr(xs) => forall k :: 0 <= k < |xs| ==> ArrayItem(xs[k])
    case Obj(_) => false
  }

  /** Literal text that the decoder takes as one field of a data line. */
  predicate LiteralShape(t: string) {
    SafeField(t) && '\n' !in t && t[0] != '@' && t[|t| - 1] != ':'
  }

  /** A row literal is one field of a data line that reads back as its value. */
  lemma RowLiteral(v: Value)
    requires RowSafe(v)
    ensures LiteralShape(FormatValue(v))
    ensures ParseVal(FormatValue(v)) == v
  {
    match v
    case Null => KeywordLiteral("null");
    case Bool(b) => KeywordLiteral(if b then "true" else "false");
    case Int(i) => NumberLiteral(v);
    case Float(m, e) => NumberLiteral(v);
    case Str(s) =>
      StringRoundTrip(s);
      if StartsWith(s, "#") {
        TokenLiteral(s);
      } else {
        QuotedLiteral(s);
      }
    case Arr(xs) =>
      ArrayRoundTrip(xs);
      ArrayEnds(xs);
  }

  /** A defaults literal (always quoted for strings) reads back as its value. */
  lemma DefaultLiteral(v: Value)
    requires RowSafe(v) && IsHashable(v)
    ensures LiteralShape(FormatQuoted(v))
    ensures ParseVal(FormatQuoted(v)) == v
  {
    match v
    case Str(s) =>
      QuotedLiteral(s);
      QuoteRoundTrip(s);
    case Null => RowLiteral(v);
    case Bool(_) => RowLiteral(v);
    case Int(_) => RowLiteral(v);
    case Float(_, _) => RowLiteral(v);
  }

  lemma KeywordLiteral(w: string)
    requires w == "null" || w == "true" || w == "false"
    ensures LiteralShape(w)
  {
    TrackPlain(w, ',', false, 0);
  }

  lemma NumberLiteral(v: Value)
    requires (v.Int? || v.Float?) && RowSafe(v)
    ensures LiteralShape(FormatValue(v)) && ParseVal(FormatValue(v)) == v
  {
    var t := FormatValue(v);
    assert t == Repr(v);
    NumberItem(t, v);
    NumberTextSafe(t);
    assert NumberChar(t[0]) && NumberChar(t[|t| - 1]);
  }

  lemma TokenLiteral(s: string)
    requires BareToken(s)
    ensures LiteralShape(s)
  {
    assert Plain(s, ',');
    TrackPlain(s, ',', false, 0);
  }

  lemma QuotedLiteral(s: string)
    requires QuotableString(s)
    ensures LiteralShape(Quote(s))
  {
    var q := Quote(s);
    TrackQuoted(s, ',', 0);
    EscapeQuotesNoChar(s, '\n');
    assert q[0] == '"' && q[|q| - 1] == '"';
  }

  lemma ArrayEnds(xs: seq<Value>)
    ensures Repr(Arr(xs))[0] == '[' && Repr(Arr(xs))[|Repr(Arr(xs))| - 1] == ']'
  {
  }
}
