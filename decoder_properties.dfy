/** What the decoder's pieces mean: the metadata line parts, the header,
    the inner row loop, the positional record mapping and the outer scan. */
module DecoderProperties {
  import opened Wrappers
  import opened Text
  import opened Values
  import opened Errors
  import opened Splitting
  import opened Literals
  import opened Decoder

  // ---------------------------------------------------------------------
  // Metadata lines

  /** The content of a metadata line runs from after its first '[' to its
      last ']', brackets inside included. */
  lemma ContentBetween(pre: string, c: string, post: string)
    requires '[' !in pre && ']' !in post
    ensures Content(pre + "[" + c + "]" + post) == Success(c)
  {
    var front := pre + "[" + c;
    var line := front + "]" + post;
    FirstOpen(pre, c, post);
    LastClose(front, post);
    ContentAt(line, |pre|, |front|);
    SliceMiddle(pre, c, post);
  }

  /** Content is the slice between the two bracket positions. */
  lemma ContentAt(line: string, a: nat, b: nat)
    requires IndexOf(line, '[') == Some(a) && LastIndexOf(line, ']') == Some(b)
    ensures Content(line) == Success(Slice(line, a + 1, b))
  {
  }

  lemma FirstOpen(pre: string, c: string, post: string)
    requires '[' !in pre
    ensures IndexOf(pre + "[" + c + "]" + post, '[') == Some(|pre|)
  {
    IndexOfAfterFree(pre, "[" + c + "]" + post, '[');
    assert pre + "[" + c + "]" + post == pre + ("[" + c + "]" + post);
  }

  lemma LastClose(front: string, post: string)
    requires ']' !in post
    ensures LastIndexOf(front + "]" + post, ']') == Some(|front|)
  {
    var line := front + "]" + post;
    assert line[|front|] == ']';
    assert line[|front| + 1..] == post;
    LastIndexAt(line, ']', |front|);
  }

  lemma SliceMiddle(pre: string, c: string, post: string)
    ensures Slice(pre + "[" + c + "]" + post, |pre| + 1, |pre + "[" + c|) == c
  {
    var line := pre + "[" + c + "]" + post;
    assert |pre + "[" + c| == |pre| + 1 + |c|;
    assert line[|pre| + 1..|pre| + 1 + |c|] == c;
  }

  /** The last position of c is the one after which c no longer occurs. */
  lemma {:induction false} LastIndexAt(s: string, c: char, b: nat)
    requires b < |s| && s[b] == c && c !in s[b + 1..]
    ensures LastIndexOf(s, c) == Some(b)
    decreases |s|
  {
    if b < |s| - 1 {
      var t := s[..|s| - 1];
      assert s[|s| - 1] in s[b + 1..];
      assert t[b + 1..] == s[b + 1..|s| - 1];
      LastIndexAt(t, c, b);
    }
  }

  /** An item key:value splits at its first ':' into the key and the rest. */
  lemma KeyValueParts(k: string, v: string)
    requires ':' !in k
    ensures ':' in k + ":" + v
    ensures KeyPart(k + ":" + v) == k && ValuePart(k + ":" + v) == v
  {
    var item := k + ":" + v;
    IndexOfAfterFree(k, ":" + v, ':');
    assert item == k + (":" + v);
    assert item[..|k|] == k && item[|k| + 1..] == v;
  }

  /** A dictionary value written as "escaped" is read back, unless the
      string ends with '"' (see DictValueQuirk). */
  lemma DictValueQuote(s: string)
    requires s == [] || s[|s| - 1] != '"'
    ensures DictValue(Quote(s)) == s
  {
    DictValueOfQuote(s);
    QuoteUnquoted(s);
    UnescapeEscape(s);
  }

  /** A quoted value has no surrounding whitespace to strip. */
  lemma DictValueOfQuote(s: string)
    ensures DictValue(Quote(s)) == UnescapeQuotes(StripChar(Quote(s), '"'))
  {
    QuoteStripped(s);
  }

  /** strip('"') of a quoted value is the escaped string. */
  lemma QuoteUnquoted(s: string)
    requires s == [] || s[|s| - 1] != '"'
    ensures StripChar(Quote(s), '"') == EscapeQuotes(s)
  {
    EscapeEnds(s);
    QuotedStrip(Quote(s), EscapeQuotes(s));
  }

  /** Neither end of e is a '"'. */
  predicate FreeEnds(e: string) {
    e == [] || (e[0] != '"' && e[|e| - 1] != '"')
  }

  /** Escaping keeps a last character other than '"', and never starts with '"'. */
  lemma EscapeEnds(s: string)
    requires s == [] || s[|s| - 1] != '"'
    ensures FreeEnds(EscapeQuotes(s))
  {
    if s != [] {
      EscapeQuotesLast(s);
      EscapeNeverStartsWithQuote(s);
    }
  }

  lemma QuotedStrip(q: string, e: string)
    requires q == "\"" + e + "\""
    requires FreeEnds(e)
    ensures StripChar(q, '"') == e
  {
    StripQuotes(e);
  }

  /** A quoted value has no surrounding whitespace. */
  lemma QuoteStripped(s: string)
    ensures Strip(Quote(s)) == Quote(s)
  {
    var q := Quote(s);
    assert q[0] == '"' && q[|q| - 1] == '"';
    StripNoSpaceEnds(q);
  }

  /** strip('"') of "e" is e when e neither starts nor ends with '"'. */
  lemma StripQuotes(e: string)
    requires e == [] || (e[0] != '"' && e[|e| - 1] != '"')
    ensures StripChar("\"" + e + "\"", '"') == e
  {
    LStripOne(e + "\"");
    assert "\"" + e + "\"" == "\"" + (e + "\"");
    if e == [] {
      assert e + "\"" == "\"";
      assert LStripChar("\"", '"') == [];
    } else {
      assert (e + "\"")[0] == e[0];
      RStripOne(e);
    }
  }

  /** One leading '"' goes, and stripping goes on from there. */
  lemma LStripOne(t: string)
    ensures LStripChar("\"" + t, '"') == LStripChar(t, '"')
  {
    assert ("\"" + t)[1..] == t;
  }

  /** One trailing '"' after e, which does not end with '"', goes. */
  lemma RStripOne(e: string)
    requires e != [] && e[|e| - 1] != '"'
    ensures RStripChar(e + "\"", '"') == e
  {
    assert (e + "\"")[..|e|] == e;
  }

  /** strip('"') also eats the escaped quote at the end of a value: a
      dictionary string that ends with '"' reads back with that quote
      turned into a backslash. */
  lemma DictValueQuirk(t: string)
    ensures DictValue(Quote(t + "\"")) == t + "\\"
  {
    DictValueOfQuote(t + "\"");
    StripQuoteEnd(t);
    UnescapeBackslash(t);
  }

  /** strip('"') of the quoted text of a string ending with '"'. */
  lemma StripQuoteEnd(t: string)
    ensures StripChar(Quote(t + "\""), '"') == EscapeQuotes(t) + "\\"
  {
    QuoteOfQuoteEnd(t);
    EscapedThenBackslash(t);
    StripTwoQuotes(EscapeQuotes(t) + "\\");
  }

  lemma UnescapeBackslash(t: string)
    ensures UnescapeQuotes(EscapeQuotes(t) + "\\") == t + "\\"
  {
    UnescapeThen(t, "\\");
    assert UnescapeQuotes("\\") == "\\";
  }

  /** The quoted text of a string ending with '"'. */
  lemma QuoteOfQuoteEnd(t: string)
    ensures Quote(t + "\"") == "\"" + (EscapeQuotes(t) + "\\") + "\"\""
  {
    EscapeSnocQuote(t);
  }

  lemma EscapedThenBackslash(t: string)
    ensures var e := EscapeQuotes(t) + "\\"; e != [] && e[0] != '"' && e[|e| - 1] != '"'
  {
    EscapeNeverStartsWithQuote(t);
  }

  /** Escaping a final '"' appends \" to the escaped rest. */
  lemma {:induction false} EscapeSnocQuote(t: string)
    ensures EscapeQuotes(t + "\"") == EscapeQuotes(t) + "\\\""
    decreases |t|
  {
    if t == [] {
      assert [] + "\"" == "\"";
      assert "\""[1..] == [];
    } else {
      assert (t + "\"")[0] == t[0];
      assert (t + "\"")[1..] == t[1..] + "\"";
      EscapeSnocQuote(t[1..]);
    }
  }

  /** strip('"') of "e"" removes the one leading and both trailing quotes. */
  lemma StripTwoQuotes(e: string)
    requires e != [] && e[0] != '"' && e[|e| - 1] != '"'
    ensures StripChar("\"" + e + "\"\"", '"') == e
  {
    var t := e + "\"\"";
    assert "\"" + e + "\"\"" == "\"" + t;
    LStripOne(t);
    assert t[0] == e[0];
    assert LStripChar(t, '"') == t;
    assert t[..|t| - 1] == e + "\"";
    RStripOne(e);
  }

  /** Unescaping an escaped string followed by text that does not start
      with '"' unescapes the two parts separately. */
  lemma {:induction false} UnescapeThen(t: string, u: string)
    requires NoQuoteStart(u)
    ensures UnescapeQuotes(EscapeQuotes(t) + u) == t + UnescapeQuotes(u)
    decreases |t|
  {
    if t == [] {
      assert EscapeQuotes(t) + u == u;
    } else {
      UnescapeThen(t[1..], u);
      UnescapeCons(t, u);
    }
  }

  /** The step of UnescapeThen: the first character of t comes back first. */
  lemma UnescapeCons(t: string, u: string)
    requires t != [] && NoQuoteStart(u)
    requires UnescapeQuotes(EscapeQuotes(t[1..]) + u) == t[1..] + UnescapeQuotes(u)
    ensures UnescapeQuotes(EscapeQuotes(t) + u) == t + UnescapeQuotes(u)
  {
    var rest := EscapeQuotes(t[1..]);
    var head := if t[0] == '"' then ['\\', '"'] else [t[0]];
    EscapeCons(t);
    ConcatAssoc(head, rest, u);
    if t[0] == '"' {
      UnescapePair(rest + u);
    } else {
      EscapedNoQuoteStart(t[1..], u);
      UnescapeHead(t[0], rest + u);
    }
    PrependAssoc(t, UnescapeQuotes(u));
  }

  lemma EscapeCons(t: string)
    requires t != []
    ensures EscapeQuotes(t) == (if t[0] == '"' then ['\\', '"'] else [t[0]]) + EscapeQuotes(t[1..])
  {
  }

  lemma PrependAssoc(t: string, x: string)
    requires t != []
    ensures [t[0]] + (t[1..] + x) == t + x
  {
  }

  /** s does not begin with '"'. */
  predicate NoQuoteStart(s: string) {
    s == [] || s[0] != '"'
  }

  lemma EscapedNoQuoteStart(t: string, u: string)
    requires NoQuoteStart(u)
    ensures NoQuoteStart(EscapeQuotes(t) + u)
  {
    EscapeNeverStartsWithQuote(t);
    if EscapeQuotes(t) == [] {
      assert EscapeQuotes(t) + u == u;
    }
  }

  /** An escaped quote unescapes to '"'. */
  lemma UnescapePair(r: string)
    ensures UnescapeQuotes(['\\', '"'] + r) == ['"'] + UnescapeQuotes(r)
  {
    assert (['\\', '"'] + r)[2..] == r;
  }

  /** Any other character before text that does not start with '"' stays. */
  lemma UnescapeHead(c: char, r: string)
    requires c != '"' && NoQuoteStart(r)
    ensures UnescapeQuotes([c] + r) == [c] + UnescapeQuotes(r)
  {
    var w := [c] + r;
    assert w[1..] == r;
    assert r != [] ==> w[1] == r[0];
  }

  // ---------------------------------------------------------------------
  // Table headers

  /** Splitting a + [c] + b on c: the first piece is a. */
  lemma SplitFirst(a: string, b: string, c: char)
    requires c !in a
    ensures Split(a + [c] + b, c)[0] == a
    ensures |Split(a + [c] + b, c)| >= 2 && Split(a + [c] + b, c)[1..] == Split(b, c)
  {
    var s := a + [c] + b;
    IndexOfAfterFree(a, [c] + b, c);
    assert s == a + ([c] + b);
    assert s[..|a|] == a && s[|a| + 1..] == b;
  }

  /** The header the encoder writes, name(n):, names the table and its
      record count. */
  lemma HeaderRoundTrip(name: string, n: nat)
    requires '(' !in name
    ensures var line := name + "(" + IntToString(n) + "):";
      IsHeader(line) && HeaderName(line) == name && HeaderCount(line) == Some(n)
  {
    var digits := IntToString(n);
    var line := name + "(" + digits + "):";
    assert IsDigits(digits);
    assert '(' !in digits && ')' !in digits;
    assert line == name + ['('] + (digits + "):");
    SplitFirst(name, digits + "):", '(');
    assert '(' !in digits + "):";
    assert Split(digits + "):", '(') == [digits + "):"];
    assert digits + "):" == digits + [')'] + ":";
    SplitFirst(digits, ":", ')');
    IntToStringRoundTrip(n);
    assert EndsWith(line, "):");
  }

  // ---------------------------------------------------------------------
  // Records: value i goes to column i

  /** The i-th parsed value of a row is its i-th field, stripped, parsed
      and looked up in the dictionary. */
  lemma {:induction false} RowValueAt(fields: seq<string>, dictionary: Dict<string>, i: nat)
    requires i < |fields|
    ensures RowValues(fields, dictionary)[i] == FieldValue(fields[i], dictionary)
    decreases |fields|
  {
    var init := fields[..|fields| - 1];
    var last := FieldValue(fields[|fields| - 1], dictionary);
    assert RowValues(fields, dictionary) == RowValues(init, dictionary) + [last];
    IndexSnoc(RowValues(init, dictionary), last, i);
    if i < |fields| - 1 {
      RowValueAt(init, dictionary, i);
      assert init[i] == fields[i];
    }
  }

  lemma IndexSnoc<T>(a: seq<T>, b: T, i: nat)
    requires i <= |a|
    ensures (a + [b])[i] == if i < |a| then a[i] else b
  {
  }

  /** Writing pairs from idx on leaves a key none of them names as it was. */
  lemma {:induction false} PutAllOther(pairs: Dict<Value>, idx: nat, rec: Record, k: string)
    requires forall j :: idx <= j < |pairs| ==> pairs[j].0 != k
    ensures Get(PutAll(pairs, idx, rec), k) == Get(rec, k)
    decreases |pairs| - idx
  {
    if idx < |pairs| {
      PutAllOther(pairs, idx + 1, Put(rec, pairs[idx].0, pairs[idx].1), k);
    }
  }

  /** With distinct keys, every pair written from idx on is in the result. */
  lemma {:induction false} PutAllHit(pairs: Dict<Value>, idx: nat, rec: Record, j: nat)
    requires DistinctKeys(pairs) && idx <= j < |pairs|
    ensures Get(PutAll(pairs, idx, rec), pairs[j].0) == Some(pairs[j].1)
    decreases |pairs| - idx
  {
    var next := Put(rec, pairs[idx].0, pairs[idx].1);
    if idx == j {
      PutAllOther(pairs, j + 1, next, pairs[j].0);
    } else {
      PutAllHit(pairs, idx + 1, next, j);
    }
  }

  /** The default entries leave a key no column from idx on names as it was. */
  lemma {:induction false} DefaultsOfOther(schema: Schema, idx: nat, defaults: Dict<Value>, acc: Record, k: string)
    requires forall j :: idx <= j < |schema| ==> schema[j].0 != k
    ensures Get(DefaultsOf(schema, idx, defaults, acc), k) == Get(acc, k)
    decreases |schema| - idx
  {
    if idx < |schema| {
      var name := schema[idx].0;
      DefaultsOfOther(schema, idx + 1, defaults, if HasKey(defaults, name) then Put(acc, name, Get(defaults, name).value) else acc, k);
    }
  }

  /** A key that already holds its default keeps it. */
  lemma {:induction false} DefaultsOfKeeps(schema: Schema, idx: nat, defaults: Dict<Value>, acc: Record, k: string)
    requires Get(acc, k) == Get(defaults, k)
    ensures Get(DefaultsOf(schema, idx, defaults, acc), k) == Get(defaults, k)
    decreases |schema| - idx
  {
    if idx < |schema| {
      var name := schema[idx].0;
      DefaultsOfKeeps(schema, idx + 1, defaults, if HasKey(defaults, name) then Put(acc, name, Get(defaults, name).value) else acc, k);
    }
  }

  /** A column from idx on that has a default gets it. */
  lemma {:induction false} DefaultsOfHit(schema: Schema, idx: nat, defaults: Dict<Value>, acc: Record, j: nat)
    requires idx <= j < |schema| && HasKey(defaults, schema[j].0)
    ensures Get(DefaultsOf(schema, idx, defaults, acc), schema[j].0) == Get(defaults, schema[j].0)
    decreases |schema| - idx
  {
    var name := schema[idx].0;
    var next := if HasKey(defaults, name) then Put(acc, name, Get(defaults, name).value) else acc;
    if idx == j {
      DefaultsOfKeeps(schema, j + 1, defaults, next, name);
    } else {
      DefaultsOfHit(schema, idx + 1, defaults, next, j);
    }
  }

  /** A key without a default is never written. */
  lemma {:induction false} DefaultsOfNoDefault(schema: Schema, idx: nat, defaults: Dict<Value>, acc: Record, k: string)
    requires !HasKey(defaults, k)
    ensures Get(DefaultsOf(schema, idx, defaults, acc), k) == Get(acc, k)
    decreases |schema| - idx
  {
    if idx < |schema| {
      var name := schema[idx].0;
      DefaultsOfNoDefault(schema, idx + 1, defaults, if HasKey(defaults, name) then Put(acc, name, Get(defaults, name).value) else acc, k);
    }
  }

  /** The values a data line holds, parsed. */
  function LineValues(line: string, dictionary: Dict<string>): seq<Value> {
    RowValues(RowFields(line), dictionary)
  }

  /** The zipped pairs have the schema's distinct names as keys. */
  lemma ColumnsDistinct(schema: Schema, values: seq<Value>)
    requires DistinctKeys(schema)
    ensures DistinctKeys(Columns(schema, values))
    ensures forall j :: 0 <= j < |Columns(schema, values)| ==> Columns(schema, values)[j] == (schema[j].0, values[j])
  {
  }

  /** Column i of a row that reaches it holds value i. */
  lemma RecordValue(line: string, schema: Schema, defaults: Dict<Value>, dictionary: Dict<string>, i: nat)
    requires DistinctKeys(schema) && i < |schema| && i < |LineValues(line, dictionary)|
    ensures Get(RecordOf(line, schema, defaults, dictionary), schema[i].0) == Some(LineValues(line, dictionary)[i])
  {
    var values := LineValues(line, dictionary);
    ColumnsDistinct(schema, values);
    PutAllHit(Columns(schema, values), 0, DefaultsOf(schema, 0, defaults, []), i);
  }

  /** A column past the row's last value takes its default, or is absent. */
  lemma RecordDefault(line: string, schema: Schema, defaults: Dict<Value>, dictionary: Dict<string>, i: nat)
    requires DistinctKeys(schema) && |LineValues(line, dictionary)| <= i < |schema|
    ensures Get(RecordOf(line, schema, defaults, dictionary), schema[i].0) == Get(defaults, schema[i].0)
  {
    var values := LineValues(line, dictionary);
    var k := schema[i].0;
    var base := DefaultsOf(schema, 0, defaults, []);
    ColumnsDistinct(schema, values);
    PutAllOther(Columns(schema, values), 0, base, k);
    if HasKey(defaults, k) {
      DefaultsOfHit(schema, 0, defaults, [], i);
    } else {
      DefaultsOfNoDefault(schema, 0, defaults, [], k);
    }
  }

  /** A record has no key outside the schema. */
  lemma RecordOnlySchema(line: string, schema: Schema, defaults: Dict<Value>, dictionary: Dict<string>, k: string)
    requires forall j :: 0 <= j < |schema| ==> schema[j].0 != k
    ensures Get(RecordOf(line, schema, defaults, dictionary), k) == None
  {
    var values := LineValues(line, dictionary);
    PutAllOther(Columns(schema, values), 0, DefaultsOf(schema, 0, defaults, []), k);
    DefaultsOfOther(schema, 0, defaults, [], k);
  }

  /** A bare '#' token names a dictionary entry: it is replaced by the
      entry when the dictionary has it, and kept as a string otherwise. */
  lemma ReferenceResolved(ref: string, dictionary: Dict<string>)
    requires BareToken(ref)
    ensures FieldValue(ref, dictionary) == if HasKey(dictionary, ref) then Str(Get(dictionary, ref).value) else Str(ref)
  {
    TokenLiteral(ref);
    StripNoSpaceEnds(ref);
    StringRoundTrip(ref);
    assert FormatValue(Str(ref)) == ref;
  }

  // ---------------------------------------------------------------------
  // Data lines after a header

  /** A line the row loop steps over: blank or '@' once stripped. */
  predicate Skipped(line: string) {
    var l := Strip(line);
    l == [] || StartsWith(l, "@")
  }

  /** Lines a to b (exclusive) are all skipped. */
  predicate AllSkipped(lines: seq<string>, a: nat, b: nat)
    requires a <= b <= |lines|
  {
    forall k :: a <= k < b ==> Skipped(lines[k])
  }

  lemma SkippedMore(lines: seq<string>, a: nat, b: nat)
    requires a < |lines| && a + 1 <= b <= |lines| && Skipped(lines[a]) && AllSkipped(lines, a + 1, b)
    ensures AllSkipped(lines, a, b)
  {
  }

  /** One round of the row loop, one line at a time. */
  lemma NextRowStep(lines: seq<string>, i: nat)
    requires i < |lines|
    ensures NextRowAt(lines, i) == if Skipped(lines[i]) then NextRowAt(lines, i + 1)
      else if IsHeader(Strip(lines[i])) then (i, None) else (i + 1, Some(Strip(lines[i])))
  {
  }

  /** One round of the row loop that reads a row steps over skipped lines
      and then reads the next data line, moving past it. */
  lemma {:induction false} NextRowRead(lines: seq<string>, i: nat)
    requires i <= |lines|
    ensures var r := NextRowAt(lines, i);
      r.1.Some? ==> i < r.0 && r.1.value == Strip(lines[r.0 - 1]) && IsDataLine(r.1.value) &&
                    AllSkipped(lines, i, r.0 - 1)
    decreases |lines| - i
  {
    if i < |lines| {
      NextRowStep(lines, i);
      if Skipped(lines[i]) {
        NextRowRead(lines, i + 1);
        var r := NextRowAt(lines, i + 1);
        assert NextRowAt(lines, i) == r;
        if r.1.Some? {
          SkippedMore(lines, i, r.0 - 1);
        }
      } else if !IsHeader(Strip(lines[i])) {
        var l := Strip(lines[i]);
        assert NextRowAt(lines, i) == (i + 1, Some(l));
        assert i + 1 - 1 == i;
      }
    }
  }

  /** One round of the row loop that reads no row steps over skipped lines
      up to a header or the end of the text. */
  lemma {:induction false} NextRowStop(lines: seq<string>, i: nat)
    requires i <= |lines|
    ensures var r := NextRowAt(lines, i);
      r.1.None? ==> (r.0 == |lines| || (!Skipped(lines[r.0]) && IsHeader(Strip(lines[r.0])))) &&
                    AllSkipped(lines, i, r.0)
    decreases |lines| - i
  {
    if i < |lines| {
      NextRowStep(lines, i);
      if Skipped(lines[i]) {
        NextRowStop(lines, i + 1);
        var r := NextRowAt(lines, i + 1);
        assert NextRowAt(lines, i) == r;
        if r.1.None? {
          SkippedMore(lines, i, r.0);
        }
      } else if IsHeader(Strip(lines[i])) {
        assert NextRowAt(lines, i) == (i, None);
      }
    }
  }

  /** The rows from position a on are all data lines. */
  predicate DataFrom(rs: seq<string>, a: nat)
    requires a <= |rs|
  {
    forall k :: a <= k < |rs| ==> IsDataLine(rs[k])
  }

  /** r starts with rows and adds only data lines. */
  predicate Extends(r: seq<string>, rows: seq<string>) {
    |rows| <= |r| && r[..|rows|] == rows && DataFrom(r, |rows|)
  }

  /** The rows after one round: a data line read is added. */
  function More(rows: seq<string>, row: Option<string>): seq<string> {
    if row.Some? then rows + [row.value] else rows
  }

  lemma ExtendsMore(r: seq<string>, rows: seq<string>, row: Option<string>)
    requires row.Some? ==> IsDataLine(row.value)
    requires Extends(r, More(rows, row))
    ensures Extends(r, rows) && |More(rows, row)| <= |rows| + 1
  {
    if row.Some? {
      var more := rows + [row.value];
      assert r[..|rows|] == r[..|more|][..|rows|];
      assert r[|rows|] == more[|rows|];
    }
  }

  /** One round of the range loop: the row it reads, if any, is a data line. */
  lemma RowsOneRound(lines: seq<string>, i: nat, n: int, rows: seq<string>)
    requires i <= |lines| && n > 0
    ensures var next := NextRowAt(lines, i);
      RowsFrom(lines, i, n, rows) == RowsFrom(lines, next.0, n - 1, More(rows, next.1)) &&
      (next.1.Some? ==> IsDataLine(next.1.value))
  {
    NextRowRead(lines, i);
  }

  /** The rounds after a header read at most n rows, keep the rows before,
      and every row they add is a data line. */
  lemma {:induction false} RowsRead(lines: seq<string>, i: nat, n: int, rows: seq<string>)
    requires i <= |lines|
    ensures var r := RowsFrom(lines, i, n, rows);
      Extends(r.1, rows) && |r.1| <= |rows| + (if n > 0 then n else 0)
    decreases n
  {
    if n > 0 {
      var next := NextRowAt(lines, i);
      RowsOneRound(lines, i, n, rows);
      RowsRead(lines, next.0, n - 1, More(rows, next.1));
      ExtendsMore(RowsFrom(lines, next.0, n - 1, More(rows, next.1)).1, rows, next.1);
    } else {
      assert rows[..|rows|] == rows;
    }
  }

  /** A header ends the rows of the table before it: no round moves past it. */
  lemma {:induction false} RowsStopAtHeader(lines: seq<string>, i: nat, n: int, rows: seq<string>)
    requires i < |lines| && !Skipped(lines[i]) && IsHeader(Strip(lines[i]))
    ensures RowsFrom(lines, i, n, rows) == (i, rows)
    decreases n
  {
    if n > 0 {
      assert NextRowAt(lines, i) == (i, None);
      RowsStopAtHeader(lines, i, n - 1, rows);
    }
  }

  /** span holds lines i to i + |span| - 1, stripped, and each of them is
      a data line. */
  predicate SpanOf(lines: seq<string>, i: nat, span: seq<string>)
    decreases |span|
  {
    i + |span| <= |lines| &&
    (span != [] ==> span[0] == Strip(lines[i]) && IsDataLine(span[0]) && SpanOf(lines, i + 1, span[1..]))
  }

  lemma SpanHead(lines: seq<string>, i: nat, span: seq<string>)
    requires span != [] && SpanOf(lines, i, span)
    ensures i < |lines| && span[0] == Strip(lines[i]) && IsDataLine(span[0]) && SpanOf(lines, i + 1, span[1..])
  {
  }

  /** One round of the range loop on a data line reads that line. */
  lemma RowsDataStep(lines: seq<string>, i: nat, n: nat, rows: seq<string>)
    requires 0 < n && i < |lines| && IsDataLine(Strip(lines[i]))
    ensures RowsFrom(lines, i, n, rows) == RowsFrom(lines, i + 1, n - 1, rows + [Strip(lines[i])])
  {
    NextRowStep(lines, i);
    assert NextRowAt(lines, i) == (i + 1, Some(Strip(lines[i])));
  }

  lemma RowStep(lines: seq<string>, i: nat, n: nat, row: string, rows: seq<string>)
    requires 0 < n && i < |lines| && row == Strip(lines[i]) && IsDataLine(row)
    ensures RowsFrom(lines, i, n, rows) == RowsFrom(lines, i + 1, n - 1, rows + [row])
  {
    RowsDataStep(lines, i, n, rows);
  }

  lemma SpanJoin(rows: seq<string>, span: seq<string>)
    requires span != []
    ensures (rows + [span[0]]) + span[1..] == rows + span
  {
    assert [span[0]] + span[1..] == span;
    ConcatAssoc(rows, [span[0]], span[1..]);
  }

  /** n data lines in a row, from line i on, are the next n rows of the
      table, in order and stripped. */
  lemma {:induction false} RowsConsecutive(lines: seq<string>, i: nat, span: seq<string>, n: int, rows: seq<string>)
    requires SpanOf(lines, i, span) && n == |span|
    ensures RowsFrom(lines, i, n, rows) == (i + n, rows + span)
    decreases n
  {
    if n == 0 {
      assert rows + span == rows;
    } else {
      SpanHead(lines, i, span);
      RowsConsecutive(lines, i + 1, span[1..], n - 1, rows + [span[0]]);
      RowStep(lines, i, n, span[0], rows);
      SpanJoin(rows, span);
    }
  }

  lemma ConcatAssoc<T>(a: seq<T>, b: seq<T>, c: seq<T>)
    ensures (a + b) + c == a + (b + c)
  {
  }

  // ---------------------------------------------------------------------
  // The outer scan

  /** A line the outer loop reads as a table header. */
  predicate TableHeader(line: string) {
    var l := Strip(line);
    l != [] && !StartsWith(l, "@") && IsHeader(l)
  }

  /** A line the outer loop steps over without any effect: blank, an '@'
      line other than @dict, @schema and @defaults (such as @query), or a
      line outside any table that is not a header. */
  predicate Ignored(line: string) {
    var l := Strip(line);
    l == [] ||
    (!StartsWith(l, "@dict") && !StartsWith(l, "@schema") && !StartsWith(l, "@defaults") &&
     (StartsWith(l, "@") || !IsHeader(l)))
  }

  lemma IgnoredLine(lines: seq<string>, i: nat, st: DecodeState)
    requires i < |lines| && Ignored(lines[i])
    ensures DecodeFrom(lines, i, st) == DecodeFrom(lines, i + 1, st)
  {
    IgnoredStep(lines, i, st);
  }

  lemma IgnoredStep(lines: seq<string>, i: nat, st: DecodeState)
    requires i < |lines| && Ignored(lines[i])
    ensures StepAt(lines, i, st) == Success((i + 1, st))
  {
    var l := Strip(lines[i]);
    if l == [] {
      assert StepAt(lines, i, st) == Success((i + 1, st));
    } else if StartsWith(l, "@") {
      assert StepAt(lines, i, st) == Success((i + 1, st));
    } else {
      assert !IsHeader(l);
      assert StepAt(lines, i, st) == Success((i + 1, st));
    }
  }

  /** A line other than a header leaves the tables as they are. */
  lemma StepKeepsResult(lines: seq<string>, i: nat, st: DecodeState)
    requires i < |lines| && !TableHeader(lines[i])
    ensures StepAt(lines, i, st).Success? ==> StepAt(lines, i, st).value.1.result == st.result
  {
    var line := Strip(lines[i]);
    if line == [] {
    } else if StartsWith(line, "@dict") {
      match DictLine(line)
      case Failure(_) =>
      case Success(d) => assert StepAt(lines, i, st) == Success((i + 1, st.(dictionary := d)));
    } else if StartsWith(line, "@schema") {
      match SchemaLine(line)
      case Failure(_) =>
      case Success(c) => assert StepAt(lines, i, st) == Success((i + 1, st.(schema := c)));
    } else if StartsWith(line, "@defaults") {
      match DefaultsLine(line, st.dictionary)
      case Failure(_) =>
      case Success(d) => assert StepAt(lines, i, st) == Success((i + 1, st.(defaults := d)));
    } else {
      assert StepAt(lines, i, st) == Success((i + 1, st));
    }
  }

  /** Without a header from line i on, the scan adds no table. */
  lemma {:induction false} NoHeaderKeepsResult(lines: seq<string>, i: nat, st: DecodeState)
    requires i <= |lines|
    requires forall k :: i <= k < |lines| ==> !TableHeader(lines[k])
    ensures DecodeFrom(lines, i, st).0.Success? ==> DecodeFrom(lines, i, st).0.value == st.result
    decreases |lines| - i
  {
    if i < |lines| {
      StepKeepsResult(lines, i, st);
      match StepAt(lines, i, st)
      case Failure(_) =>
      case Success(next) => NoHeaderKeepsResult(lines, next.0, next.1);
    }
  }

  /** Without an @dict line from line i on, the instance keeps its dictionary. */
  lemma {:induction false} NoDictKeepsDictionary(lines: seq<string>, i: nat, st: DecodeState)
    requires i <= |lines|
    requires forall k :: i <= k < |lines| ==> !StartsWith(Strip(lines[k]), "@dict")
    ensures DecodeFrom(lines, i, st).1 == st.dictionary
    decreases |lines| - i
  {
    if i < |lines| {
      match StepAt(lines, i, st)
      case Failure(_) =>
      case Success(next) => NoDictKeepsDictionary(lines, next.0, next.1);
    }
  }

  /** A text without a table header decodes to {} (or fails). */
  lemma NoHeaderNoTables(text: string, dictionary: Dict<string>)
    requires forall k :: 0 <= k < |Lines(text)| ==> !TableHeader(Lines(text)[k])
    ensures DecodeSpec(text, dictionary).0.Success? ==> DecodeSpec(text, dictionary).0.value == []
  {
    NoHeaderKeepsResult(Lines(text), 0, DecodeState([], [], [], dictionary));
  }

  /** A text without an @dict line leaves the decoder's dictionary, from an
      earlier call, in place for the next one. */
  lemma DictionaryPersists(text: string, dictionary: Dict<string>)
    requires forall k :: 0 <= k < |Lines(text)| ==> !StartsWith(Strip(Lines(text)[k]), "@dict")
    ensures DecodeSpec(text, dictionary).1 == dictionary
  {
    NoDictKeepsDictionary(Lines(text), 0, DecodeState([], [], [], dictionary));
  }

  /** The empty text decodes to {}. */
  lemma DecodeEmptyText(dictionary: Dict<string>)
    ensures DecodeSpec("", dictionary) == (Success([]), dictionary)
  {
    assert Lines("") == [""];
  }

  /** A line that starts with a metadata keyword starts with '@'. */
  lemma NoMetadata(l: string)
    ensures StartsWith(l, "@dict") || StartsWith(l, "@schema") || StartsWith(l, "@defaults") ==> StartsWith(l, "@")
  {
    if |l| >= 1 {
      assert l[..1] == [l[0]];
    }
  }

  /** A table header on line i with count n reads the next n rows and
      stores their records under the header's name, replacing any table of
      that name read before. */
  lemma HeaderStep(lines: seq<string>, i: nat, st: DecodeState, n: int)
    requires i < |lines| && TableHeader(lines[i]) && HeaderCount(Strip(lines[i])) == Some(n)
    ensures var rows := RowsFrom(lines, i + 1, n, []);
      StepAt(lines, i, st) ==
        Success((rows.0, st.(result := Put(st.result, HeaderName(Strip(lines[i])),
          RecordsOf(rows.1, st.schema, st.defaults, st.dictionary)))))
  {
    NoMetadata(Strip(lines[i]));
  }

  /** A line whose first character is not '@' does not start with "@". */
  lemma NotAtStart(line: string)
    requires line != [] && line[0] != '@'
    ensures !StartsWith(line, "@")
  {
    assert line[..1] == [line[0]];
  }

  /** A header line with no whitespace at its ends and no '@' in front is
      read, unchanged by strip(), as a table header. */
  lemma TableHeaderOfLine(line: string)
    requires line != [] && !IsSpace(line[0]) && !IsSpace(line[|line| - 1]) && line[0] != '@'
    requires IsHeader(line)
    ensures Strip(line) == line && TableHeader(line)
  {
    NotAtStart(line);
    StripNoSpaceEnds(line);
  }

  lemma HeaderChars(name: string, n: nat)
    requires name != []
    ensures var line := name + "(" + IntToString(n) + "):";
      line != [] && line[0] == name[0] && line[|line| - 1] == ':'
  {
  }

  lemma StrippedHeader(line: string, name: string, n: nat)
    requires Strip(line) == line && IsHeader(line) && HeaderName(line) == name && HeaderCount(line) == Some(n)
    ensures HeaderName(Strip(line)) == name && HeaderCount(Strip(line)) == Some(n)
  {
  }

  /** The header name(n): the encoder writes is, after strip(), read as a
      table header naming the table and its count. */
  lemma HeaderLine(name: string, n: nat)
    requires '(' !in name && name != [] && !IsSpace(name[0]) && name[0] != '@'
    ensures var line := name + "(" + IntToString(n) + "):";
      TableHeader(line) && HeaderName(Strip(line)) == name && HeaderCount(Strip(line)) == Some(n)
  {
    HeaderRoundTrip(name, n);
    HeaderChars(name, n);
    HeaderLineOf(name + "(" + IntToString(n) + "):", name, n);
  }

  /** A header line that starts with its name's first character and ends in
      ':' is, after strip(), read as that table header. */
  lemma HeaderLineOf(line: string, name: string, n: nat)
    requires line != [] && name != [] && line[0] == name[0] && line[|line| - 1] == ':'
    requires !IsSpace(name[0]) && name[0] != '@'
    requires IsHeader(line) && HeaderName(line) == name && HeaderCount(line) == Some(n)
    ensures TableHeader(line) && HeaderName(Strip(line)) == name && HeaderCount(Strip(line)) == Some(n)
  {
    TableHeaderOfLine(line);
    StrippedHeader(line, name, n);
  }

  /** A successful step moves the scan on to where the step stopped. */
  lemma DecodeStep(lines: seq<string>, i: nat, st: DecodeState, next: (nat, DecodeState))
    requires i < |lines| && StepAt(lines, i, st) == Success(next)
    ensures DecodeFrom(lines, i, st) == DecodeFrom(lines, next.0, next.1)
  {
  }

  /** A blank last line gives a header no row. */
  lemma BlankRowsNone(lines: seq<string>, i: nat)
    requires i + 1 == |lines| && Strip(lines[i]) == []
    ensures RowsFrom(lines, i, 1, []) == (i + 1, [])
  {
    NextRowStep(lines, i);
    assert NextRowAt(lines, i) == (i + 1, None);
  }

  /** Line i is a table header with count n whose rows, read to the end of
      the lines, are rows. */
  predicate HeaderRun(lines: seq<string>, i: nat, n: int, rows: seq<string>) {
    i < |lines| && TableHeader(lines[i]) && HeaderCount(Strip(lines[i])) == Some(n) &&
    RowsFrom(lines, i + 1, n, []) == (|lines|, rows)
  }

  /** A table header whose rows run to the end of the text: the scan ends
      with that table stored. */
  lemma HeaderTableEnd(lines: seq<string>, i: nat, st: DecodeState, n: int, rows: seq<string>)
    requires HeaderRun(lines, i, n, rows)
    ensures DecodeFrom(lines, i, st) ==
      (Success(Put(st.result, HeaderName(Strip(lines[i])), RecordsOf(rows, st.schema, st.defaults, st.dictionary))),
       st.dictionary)
  {
    HeaderTable(lines, i, st, n);
  }

  /** The scan after the last line returns the tables read. */
  lemma DecodeEnd(lines: seq<string>, i: nat, st: DecodeState)
    requires i == |lines|
    ensures DecodeFrom(lines, i, st) == (Success(st.result), st.dictionary)
  {
  }

  /** A table header with count n on line i: the scan goes on after its rows
      with the table stored. */
  lemma HeaderTable(lines: seq<string>, i: nat, st: DecodeState, n: int)
    requires i < |lines| && TableHeader(lines[i]) && HeaderCount(Strip(lines[i])) == Some(n)
    ensures var rows := RowsFrom(lines, i + 1, n, []);
      DecodeFrom(lines, i, st) ==
        DecodeFrom(lines, rows.0, st.(result := Put(st.result, HeaderName(Strip(lines[i])),
          RecordsOf(rows.1, st.schema, st.defaults, st.dictionary))))
  {
    HeaderStep(lines, i, st, n);
  }

  lemma HeaderOne(name: string)
    ensures name + "(" + IntToString(1) + "):" == name + "(1):"
  {
    assert IntToString(1) == "1";
  }

  /** A name the encoder can write in a header that the decoder reads back. */
  predicate TableName(name: string) {
    '(' !in name && name != [] && !IsSpace(name[0]) && name[0] != '@'
  }

  /** name(1): and a blank line: a header with count 1 and no row. */
  lemma BlankAfterHeader(name: string, blank: string)
    requires TableName(name) && Strip(blank) == []
    ensures var lines := [name + "(1):", blank];
      HeaderRun(lines, 0, 1, []) && HeaderName(Strip(lines[0])) == name
  {
    var lines := [name + "(1):", blank];
    HeaderOne(name);
    HeaderLine(name, 1);
    BlankRowsNone(lines, 1);
  }

  /** The record after a header with count 1 is lost when its row is blank,
      as the row of a record equal to its defaults is: the table comes back
      empty. */
  lemma EmptyRowLost(name: string, blank: string, st: DecodeState)
    requires TableName(name) && Strip(blank) == []
    ensures DecodeFrom([name + "(1):", blank], 0, st).0 == Success(Put(st.result, name, []))
  {
    BlankAfterHeader(name, blank);
    HeaderTableEnd([name + "(1):", blank], 0, st, 1, []);
  }
}
