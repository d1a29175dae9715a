/** The decoder's quote- and bracket-aware splitter (_split_smart): a
    delimiter separates parts only outside double quotes and at bracket
    depth 0, the pair backslash-quote never toggles the quote state, and
    every part is stripped, empty parts dropped. */
module Splitting {
  import opened Wrappers
  import opened Text

  /** The part collected so far is closed: stripped (and kept) when non-empty. */
  function Flush(parts: seq<string>, curr: string): seq<string> {
    if curr != [] then parts + [Strip(curr)] else parts
  }

  /** The non-empty parts, in order. */
  function NonEmptyParts(parts: seq<string>): (r: seq<string>)
    ensures forall p :: p in r ==> p != [] && p in parts
    ensures (forall k :: 0 <= k < |parts| ==> parts[k] != []) ==> r == parts
  {
    if parts == [] then []
    else (if parts[0] == [] then [] else [parts[0]]) + NonEmptyParts(parts[1..])
  }

  /** The scanner's state between characters: the current part, the quote
      flag, the bracket depth and the parts closed so far. */
  datatype ScanState = ScanState(curr: string, inQ: bool, depth: int, parts: seq<string>)

  /** The scanner consumes backslash-quote as one pair, every other character alone. */
  function Width(rest: string): (w: nat)
    requires rest != []
    ensures 1 <= w <= |rest|
  {
    if rest[0] == '\\' && |rest| >= 2 && rest[1] == '"' then 2 else 1
  }

  /** The next character is a split point. */
  predicate IsSplit(rest: string, delim: char, inQ: bool, depth: int)
    requires rest != []
  {
    Width(rest) == 1 && rest[0] == delim && rest[0] != '"' && rest[0] != '[' && rest[0] != ']' &&
    !inQ && depth == 0
  }

  /** The quote flag and depth after the next character (or pair). */
  function Flags(rest: string, inQ: bool, depth: int): (bool, int)
    requires rest != []
  {
    if Width(rest) == 2 then (inQ, depth)
    else if rest[0] == '"' then (!inQ, depth)
    else if rest[0] == '[' && !inQ then (inQ, depth + 1)
    else if rest[0] == ']' && !inQ then (inQ, depth - 1)
    else (inQ, depth)
  }

  /** One step of the scanner. */
  function Next(rest: string, delim: char, st: ScanState): ScanState
    requires rest != []
  {
    if IsSplit(rest, delim, st.inQ, st.depth) then st.(curr := [], parts := Flush(st.parts, st.curr))
    else
      var fl := Flags(rest, st.inQ, st.depth);
      ScanState(st.curr + rest[..Width(rest)], fl.0, fl.1, st.parts)
  }

  /** The scanner run over the remaining text `rest` from state st. */
  function Scan(rest: string, delim: char, st: ScanState): seq<string>
    decreases |rest|
  {
    if rest == [] then NonEmptyParts(Flush(st.parts, st.curr))
    else Scan(rest[Width(rest)..], delim, Next(rest, delim, st))
  }

  const Start := ScanState([], false, 0, [])

  /** _split_smart(text, delim) */
  function SplitSmart(text: string, delim: char): seq<string> {
    Scan(text, delim, Start)
  }

  /** A single character's step, in the order the decoder tests the cases. */
  function CharStep(c: char, delim: char, st: ScanState): ScanState {
    if c == '"' then st.(curr := st.curr + [c], inQ := !st.inQ)
    else if c == '[' && !st.inQ then st.(curr := st.curr + [c], depth := st.depth + 1)
    else if c == ']' && !st.inQ then st.(curr := st.curr + [c], depth := st.depth - 1)
    else if c == delim && !st.inQ && st.depth == 0 then st.(curr := [], parts := Flush(st.parts, st.curr))
    else st.(curr := st.curr + [c])
  }

  /** The pair backslash-quote at position i joins the current part. */
  lemma PairStep(text: string, i: nat, delim: char, st: ScanState)
    requires i + 1 < |text| && text[i] == '\\' && text[i + 1] == '"'
    ensures Scan(text[i..], delim, st) == Scan(text[i + 2..], delim, st.(curr := st.curr + [text[i], text[i + 1]]))
  {
    var rest := text[i..];
    assert rest[0] == text[i] && rest[1] == text[i + 1];
    assert rest[..2] == [text[i], text[i + 1]];
    assert rest[2..] == text[i + 2..];
  }

  /** Any other character at position i is one step of CharStep. */
  lemma SingleStep(text: string, i: nat, delim: char, st: ScanState)
    requires i < |text| && !(text[i] == '\\' && i + 1 < |text| && text[i + 1] == '"')
    ensures Scan(text[i..], delim, st) == Scan(text[i + 1..], delim, CharStep(text[i], delim, st))
  {
    var rest := text[i..];
    assert rest[0] == text[i];
    if |rest| >= 2 {
      assert rest[1] == text[i + 1];
    }
    assert Width(rest) == 1;
    assert rest[..1] == [text[i]];
    assert rest[1..] == text[i + 1..];
    assert Next(rest, delim, st) == CharStep(text[i], delim, st);
  }

  /** The scanner as the decoder runs it: one pass over the characters. */
  method SplitSmartScan(text: string, delim: char) returns (r: seq<string>)
    ensures r == SplitSmart(text, delim)
  {
    var parts: seq<string> := [];
    var curr: string := [];
    var inQ := false;
    var depth := 0;
    var i := 0;
    while i < |text|
      invariant 0 <= i <= |text|
      invariant Scan(text[i..], delim, ScanState(curr, inQ, depth, parts)) == SplitSmart(text, delim)
      decreases |text| - i
    {
      var c := text[i];
      ghost var st := ScanState(curr, inQ, depth, parts);
      if c == '\\' && i + 1 < |text| && text[i + 1] == '"' {
        PairStep(text, i, delim, st);
        curr := curr + [c, text[i + 1]];
        i := i + 2;
        continue;
      }
      SingleStep(text, i, delim, st);
      if c == '"' {
        inQ := !inQ;
      } else if c == '[' && !inQ {
        depth := depth + 1;
      } else if c == ']' && !inQ {
        depth := depth - 1;
      } else if c == delim && !inQ && depth == 0 {
        if curr != [] {
          parts := parts + [Strip(curr)];
        }
        curr := [];
        i := i + 1;
        continue;
      }
      curr := curr + [c];
      i := i + 1;
    }
    if curr != [] {
      parts := parts + [Strip(curr)];
    }
    r := NonEmptyParts(parts);
  }

  // ---------------------------------------------------------------------
  // What the parts are

  predicate AllStripped(parts: seq<string>) {
    forall p :: p in parts ==> Strip(p) == p
  }

  lemma AppendStripped(parts: seq<string>, x: string)
    requires AllStripped(parts) && Strip(x) == x
    ensures AllStripped(parts + [x])
  {
  }

  lemma FlushStripped(parts: seq<string>, curr: string)
    requires AllStripped(parts)
    ensures AllStripped(Flush(parts, curr))
  {
    if curr != [] {
      StripIdempotent(curr);
      AppendStripped(parts, Strip(curr));
    }
  }

  /** Non-empty parts without surrounding whitespace. */
  predicate GoodParts(parts: seq<string>) {
    forall p :: p in parts ==> p != [] && Strip(p) == p
  }

  lemma {:induction false} ScanStripped(rest: string, delim: char, st: ScanState)
    requires AllStripped(st.parts)
    ensures GoodParts(Scan(rest, delim, st))
    decreases |rest|
  {
    FlushStripped(st.parts, st.curr);
    if rest != [] {
      ScanStripped(rest[Width(rest)..], delim, Next(rest, delim, st));
    }
  }

  /** Every part is non-empty and has no surrounding whitespace. */
  lemma SplitSmartParts(text: string, delim: char)
    ensures GoodParts(SplitSmart(text, delim))
  {
    ScanStripped(text, delim, Start);
  }

  predicate AllWithin(parts: seq<string>, bound: nat) {
    forall p :: p in parts ==> |p| <= bound
  }

  lemma {:induction false} ScanWithin(rest: string, delim: char, st: ScanState, bound: nat)
    requires AllWithin(st.parts, bound) && |st.curr| + |rest| <= bound
    ensures AllWithin(Scan(rest, delim, st), bound)
    decreases |rest|
  {
    if rest != [] {
      ScanWithin(rest[Width(rest)..], delim, Next(rest, delim, st), bound);
    }
  }

  /** No part is longer than the text. */
  lemma SplitSmartWithin(text: string, delim: char)
    ensures forall p :: p in SplitSmart(text, delim) ==> |p| <= |text|
  {
    ScanWithin(text, delim, Start, |text|);
  }

  // ---------------------------------------------------------------------
  // Scanning a chunk that holds no split point

  /** The quote flag and depth after scanning chunk, or None when a split
      point occurs inside it. */
  function Track(chunk: string, delim: char, inQ: bool, depth: int): Option<(bool, int)>
    decreases |chunk|
  {
    if chunk == [] then Some((inQ, depth))
    else if IsSplit(chunk, delim, inQ, depth) then None
    else
      var fl := Flags(chunk, inQ, depth);
      Track(chunk[Width(chunk)..], delim, fl.0, fl.1)
  }

  /** The chunk's last character cannot pair with what follows it. */
  predicate ClosedEnd(chunk: string) {
    chunk == [] || chunk[|chunk| - 1] != '\\'
  }

  /** A step inside a chunk is the same step inside any text it begins. */
  lemma StepPrefix(chunk: string, rest: string)
    requires chunk != [] && ClosedEnd(chunk)
    ensures Width(chunk + rest) == Width(chunk)
    ensures (chunk + rest)[0] == chunk[0]
    ensures (chunk + rest)[..Width(chunk)] == chunk[..Width(chunk)]
    ensures (chunk + rest)[Width(chunk)..] == chunk[Width(chunk)..] + rest
  {
    var t := chunk + rest;
    assert t[0] == chunk[0];
    if |chunk| >= 2 {
      assert t[1] == chunk[1];
    }
  }

  /** A chunk without a split point only extends the current part. */
  lemma {:induction false} ScanChunk(chunk: string, rest: string, delim: char, st: ScanState)
    requires Track(chunk, delim, st.inQ, st.depth).Some? && ClosedEnd(chunk)
    ensures var fl := Track(chunk, delim, st.inQ, st.depth).value;
      Scan(chunk + rest, delim, st) == Scan(rest, delim, ScanState(st.curr + chunk, fl.0, fl.1, st.parts))
    decreases |chunk|
  {
    if chunk == [] {
      assert chunk + rest == rest;
      assert st.curr + chunk == st.curr;
    } else {
      var w := Width(chunk);
      StepPrefix(chunk, rest);
      var fl := Flags(chunk, st.inQ, st.depth);
      var st' := ScanState(st.curr + chunk[..w], fl.0, fl.1, st.parts);
      assert Next(chunk + rest, delim, st) == st';
      assert st.curr + chunk[..w] + chunk[w..] == st.curr + chunk;
      ScanChunk(chunk[w..], rest, delim, st');
    }
  }

  /** Tracking a concatenation: the second chunk starts from where the first ends. */
  lemma {:induction false} TrackAppend(a: string, b: string, delim: char, inQ: bool, depth: int)
    requires Track(a, delim, inQ, depth).Some? && ClosedEnd(a)
    ensures var fl := Track(a, delim, inQ, depth).value;
      Track(a + b, delim, inQ, depth) == Track(b, delim, fl.0, fl.1)
    decreases |a|
  {
    if a == [] {
      assert a + b == b;
    } else {
      StepPrefix(a, b);
      var fl := Flags(a, inQ, depth);
      TrackAppend(a[Width(a)..], b, delim, fl.0, fl.1);
    }
  }

  /** Characters the scanner treats specially. */
  predicate Special(c: char, delim: char) {
    c == '\\' || c == '"' || c == '[' || c == ']' || c == delim
  }

  predicate Plain(s: string, delim: char) {
    forall k :: 0 <= k < |s| ==> !Special(s[k], delim)
  }

  /** Text without special characters changes nothing. */
  lemma {:induction false} TrackPlain(s: string, delim: char, inQ: bool, depth: int)
    requires Plain(s, delim)
    ensures Track(s, delim, inQ, depth) == Some((inQ, depth))
    decreases |s|
  {
    if s != [] {
      TrackPlain(s[1..], delim, inQ, depth);
    }
  }

  /** Inside quotes, an escaped string never closes them. */
  lemma {:induction false} TrackEscaped(s: string, delim: char, depth: int)
    ensures Track(EscapeQuotes(s), delim, true, depth) == Some((true, depth))
    decreases |s|
  {
    if s != [] {
      var rest := EscapeQuotes(s[1..]);
      TrackEscaped(s[1..], delim, depth);
      if s[0] == '"' {
        var e := ['\\', '"'] + rest;
        assert EscapeQuotes(s) == e && e[2..] == rest;
      } else {
        var e := [s[0]] + rest;
        EscapeNeverStartsWithQuote(s[1..]);
        assert EscapeQuotes(s) == e && e[1..] == rest;
        assert |e| >= 2 ==> e[1] == rest[0];
      }
    }
  }

  /** "\"" + escaped s + "\"" opens and closes one quote, unless s ends with a
      backslash (which pairs with the closing quote). */
  lemma TrackQuoted(s: string, delim: char, depth: int)
    requires ClosedEnd(s)
    ensures Track("\"" + EscapeQuotes(s) + "\"", delim, false, depth) == Some((false, depth))
    ensures ClosedEnd("\"" + EscapeQuotes(s) + "\"")
  {
    var e := EscapeQuotes(s);
    TrackEscaped(s, delim, depth);
    if s != [] {
      EscapeQuotesLast(s);
    }
    assert ClosedEnd(e);
    TrackAppend(e, "\"", delim, true, depth);
    assert Track("\"", delim, true, depth) == Some((false, depth));
    var q := "\"" + e + "\"";
    assert q[0] == '"' && Width(q) == 1 && q[1..] == e + "\"";
  }

  // ---------------------------------------------------------------------
  // Splitting what the encoder joins

  /** A part the splitter reads back as itself. */
  predicate SafeField(f: string) {
    f != [] && !IsSpace(f[0]) && !IsSpace(f[|f| - 1]) && ClosedEnd(f) &&
    Track(f, ',', false, 0) == Some((false, 0))
  }

  lemma StripPadded(pad: string, f: string)
    requires pad == [] || pad == " "
    requires f != [] && !IsSpace(f[0]) && !IsSpace(f[|f| - 1])
    ensures Strip(pad + f) == f
  {
    if pad == " " {
      assert (pad + f)[0] == ' ' && (pad + f)[1..] == f;
      assert LStrip(pad + f) == LStrip(f);
    }
    StripNoSpaceEnds(f);
  }

  /** At the end of the text the current part is flushed. */
  lemma ScanAtEnd(curr: string, parts: seq<string>)
    ensures Scan([], ',', ScanState(curr, false, 0, parts)) == NonEmptyParts(Flush(parts, curr))
  {
  }

  /** The last field: the part is closed at the end of the text. */
  lemma LastField(f: string, pad: string, parts: seq<string>)
    requires SafeField(f) && (pad == [] || pad == " ")
    ensures Scan(f, ',', ScanState(pad, false, 0, parts)) == NonEmptyParts(parts + [f])
  {
    StripPadded(pad, f);
    ScanChunkEnd(f, ScanState(pad, false, 0, parts));
    ScanAtEnd(pad + f, parts);
  }

  /** A chunk without a split point that ends the text. */
  lemma ScanChunkEnd(chunk: string, st: ScanState)
    requires Track(chunk, ',', st.inQ, st.depth).Some? && ClosedEnd(chunk)
    ensures var fl := Track(chunk, ',', st.inQ, st.depth).value;
      Scan(chunk, ',', st) == Scan([], ',', ScanState(st.curr + chunk, fl.0, fl.1, st.parts))
  {
    ScanChunk(chunk, [], ',', st);
    assert chunk + [] == chunk;
  }

  /** A field followed by the separator. */
  lemma FieldThenComma(f: string, tail: string, pad: string, parts: seq<string>)
    requires SafeField(f) && (pad == [] || pad == " ")
    ensures Scan(f + (", " + tail), ',', ScanState(pad, false, 0, parts))
         == Scan(tail, ',', ScanState(" ", false, 0, parts + [f]))
  {
    StripPadded(pad, f);
    ScanChunk(f, ", " + tail, ',', ScanState(pad, false, 0, parts));
    CommaSpace(tail, pad + f, parts);
  }

  lemma {:induction false} JoinScan(fs: seq<string>, pad: string, parts: seq<string>)
    requires fs != [] && (pad == [] || pad == " ")
    requires forall k :: 0 <= k < |fs| ==> SafeField(fs[k])
    ensures Scan(Join(", ", fs), ',', ScanState(pad, false, 0, parts)) == NonEmptyParts(parts + fs)
    decreases |fs|
  {
    if |fs| == 1 {
      LastField(fs[0], pad, parts);
      assert [fs[0]] == fs;
    } else {
      var tail := Join(", ", fs[1..]);
      assert Join(", ", fs) == fs[0] + (", " + tail);
      FieldThenComma(fs[0], tail, pad, parts);
      JoinScan(fs[1..], " ", parts + [fs[0]]);
      assert parts + [fs[0]] + fs[1..] == parts + fs;
    }
  }

  /** The separator ", " closes the current part and starts the next with a space. */
  lemma CommaSpace(tail: string, curr: string, parts: seq<string>)
    requires curr != []
    ensures Scan(", " + tail, ',', ScanState(curr, false, 0, parts))
         == Scan(tail, ',', ScanState(" ", false, 0, parts + [Strip(curr)]))
  {
    var s1 := ", " + tail;
    var st1 := ScanState(curr, false, 0, parts);
    assert s1[0] == ',' && Width(s1) == 1 && s1[1..] == " " + tail;
    assert IsSplit(s1, ',', false, 0);
    var st2 := ScanState([], false, 0, parts + [Strip(curr)]);
    assert Next(s1, ',', st1) == st2;
    assert Scan(s1, ',', st1) == Scan(" " + tail, ',', st2);
    var s2 := " " + tail;
    assert s2[0] == ' ' && Width(s2) == 1 && s2[1..] == tail && s2[..1] == " ";
    assert !IsSplit(s2, ',', false, 0);
    assert Flags(s2, false, 0) == (false, 0);
    assert Next(s2, ',', st2) == ScanState(" ", false, 0, parts + [Strip(curr)]);
  }

  /** ", ".join(fs) splits on ',' back into fs when every field is safe. */
  lemma JoinSplit(fs: seq<string>)
    requires forall k :: 0 <= k < |fs| ==> SafeField(fs[k])
    ensures SplitSmart(Join(", ", fs), ',') == fs
  {
    if fs != [] {
      JoinScan(fs, [], []);
      assert [] + fs == fs;
    }
  }
}
