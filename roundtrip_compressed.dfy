/** decode(encode(document, compress=True)) for a document of one table in
    the BALANCED mode and the modes that write the same text: the encoder
    writes the @dict line of the dictionary compression built, a blank line
    and the table with its repeated strings replaced by references; a fresh
    decoder reads the @dict line first and resolves every reference of a
    record's value through it, which gives back the table's own values. */
module CompressedRoundTrip {
  import opened Wrappers
  import opened Text
  import opened Values
  import opened Literals
  import opened Compression
  import CP = CompressionProperties
  import CE = CompressionEngine
  import CEP = CompressionEngineProperties
  import E = Encoder
  import D = Decoder
  import DP = DecoderProperties
  import RT = RoundTrip
  import DR = DocumentRoundTrip
  import DRef = DecoderReferences
  import DictRT = DictionaryRoundTrip

  // ---------------------------------------------------------------------
  // The dictionary

  /** Every key of the dictionary is a '#' reference. */
  predicate RefKeys(d: Dict<string>) {
    forall k :: 0 <= k < |d| ==> StartsWith(d[k].0, "#")
  }

  /** The strings of a document the @dict line can carry. */
  predicate SafeLeaves(data: Value) {
    forall s :: s in Strings(data) ==> !StartsWith(s, "#") && QuotableString(s) && (s == [] || s[|s| - 1] != '"')
  }

  lemma RefKeySafe(k: nat)
    ensures RT.SafeKey(Ref(k)) && StartsWith(Ref(k), "#")
  {
    var r := Ref(k);
    assert forall i :: 1 <= i < |r| ==> r[i] == NatToString(k)[i - 1];
  }

  /** The dictionary of a document with safe leaves: references as keys,
      each once, and entries the @dict line carries. */
  lemma DictionarySafe(data: Value, next: nat, minLength: int, minOccurrences: int)
    requires SafeLeaves(data)
    ensures var d := DictionaryOf(data, next, minLength, minOccurrences);
      RefKeys(d) && DistinctKeys(d) && DictRT.SafeDictionary(d)
  {
    CP.DictionaryKeysDistinct(data, next, minLength, minOccurrences);
    DictionaryEntries(data, next, minLength, minOccurrences);
    SafeEntries(data, DictionaryOf(data, next, minLength, minOccurrences), next);
  }

  /** The j-th entry of the dictionary is the reference next + j and a
      string of the document. */
  lemma DictionaryEntries(data: Value, next: nat, minLength: int, minOccurrences: int)
    ensures var d := DictionaryOf(data, next, minLength, minOccurrences);
      forall j :: 0 <= j < |d| ==> d[j].0 == Ref(next + j) && d[j].1 in Strings(data)
  {
    var d := DictionaryOf(data, next, minLength, minOccurrences);
    forall j | 0 <= j < |d| ensures d[j].0 == Ref(next + j) && d[j].1 in Strings(data) {
      EntryLeaf(data, next, minLength, minOccurrences, j);
      EntryKey(data, next, minLength, minOccurrences, j);
    }
  }

  lemma SafeEntries(data: Value, d: Dict<string>, next: nat)
    requires SafeLeaves(data)
    requires forall j :: 0 <= j < |d| ==> d[j].0 == Ref(next + j) && d[j].1 in Strings(data)
    ensures RefKeys(d) && DictRT.SafeDictionary(d)
  {
    forall j | 0 <= j < |d| ensures StartsWith(d[j].0, "#") && DictRT.SafeEntry(d[j]) {
      LeafEntrySafe(data, d[j], next + j);
    }
  }

  lemma LeafEntrySafe(data: Value, e: (string, string), k: nat)
    requires SafeLeaves(data) && e.1 in Strings(data) && e.0 == Ref(k)
    ensures StartsWith(e.0, "#") && DictRT.SafeEntry(e)
  {
    LeafSafe(data, e.1);
    RefEntrySafe(e, k);
  }

  lemma RefEntrySafe(e: (string, string), k: nat)
    requires e.0 == Ref(k) && QuotableString(e.1) && (e.1 == [] || e.1[|e.1| - 1] != '"')
    ensures StartsWith(e.0, "#") && DictRT.SafeEntry(e)
  {
    RefKeySafe(k);
  }

  /** The j-th key of the dictionary is the reference next + j. */
  lemma EntryKey(data: Value, next: nat, minLength: int, minOccurrences: int, j: nat)
    requires j < |DictionaryOf(data, next, minLength, minOccurrences)|
    ensures DictionaryOf(data, next, minLength, minOccurrences)[j].0 == Ref(next + j)
  {
  }

  /** Every value of the dictionary is a string of the document. */
  lemma EntryLeaf(data: Value, next: nat, minLength: int, minOccurrences: int, j: nat)
    requires j < |DictionaryOf(data, next, minLength, minOccurrences)|
    ensures DictionaryOf(data, next, minLength, minOccurrences)[j].1 in Strings(data)
  {
    var d := DictionaryOf(data, next, minLength, minOccurrences);
    assert d[j].1 in DictValues(d);
    CP.DictionaryContents(data, next, minLength, minOccurrences);
  }

  lemma LeafSafe(data: Value, s: string)
    requires SafeLeaves(data) && s in Strings(data)
    ensures !StartsWith(s, "#") && QuotableString(s) && (s == [] || s[|s| - 1] != '"')
  {
  }

  // ---------------------------------------------------------------------
  // Resolving a reference is undoing the rewrite

  /** A word is no reference. */
  lemma WordNotKey(d: Dict<string>, w: string)
    requires RefKeys(d) && Word(w)
    ensures !HasKey(d, w)
  {
    forall k | 0 <= k < |d| ensures d[k].0 != w {
      assert d[k].0[..1][0] == d[k].0[0];
    }
    if HasKey(d, w) {
      var i := CP.HasKeyIndex(d, w);
      assert false;
    }
  }

  /** A value a row writes, read by a decoder holding the dictionary in key
      order, is the value rewritten through the dictionary. */
  lemma ResolveIsReplace(v: Value, d: Dict<string>)
    requires DistinctKeys(d) && RefKeys(d) && RowSafe(v)
    ensures D.Substitute(v, E.SortByKey(d)) == Replace(v, d)
  {
    match v
    case Str(s) =>
      RT.SortByKeyGet(d, s);
      if HasKey(d, s) {
        var i := CP.HasKeyIndex(d, s);
      }
    case Arr(xs) =>
      forall k | 0 <= k < |xs| ensures Replace(xs[k], d) == xs[k] {
        if xs[k].Str? {
          WordNotKey(d, xs[k].s);
        }
      }
      assert Replace(v, d) == v;
    case _ =>
  }

  /** Python's == survives the rewrite of a value compared with a hashable
      default. */
  lemma PyEqReplace(a: Value, b: Value, d: Dict<string>)
    requires PyEq(a, b) && IsHashable(b)
    ensures PyEq(Replace(a, d), Replace(b, d))
  {
  }

  // ---------------------------------------------------------------------
  // The compressed table

  /** The records with each string leaf rewritten through m. */
  function Compressed(records: seq<Value>, m: Dict<string>): (cs: seq<Value>)
    ensures |cs| == |records| && forall i :: 0 <= i < |records| ==> cs[i] == Replace(records[i], m)
  {
    seq(|records|, i requires 0 <= i < |records| => Replace(records[i], m))
  }

  /** The rewrite of a document of one table is the table of rewritten
      records. */
  lemma ReplaceDocument(name: string, records: seq<Value>, m: Dict<string>)
    ensures Replace(Obj([(name, Arr(records))]), m) == Obj([(name, Arr(Compressed(records, m)))])
  {
    assert Replace(Arr(records), m) == Arr(Compressed(records, m));
  }

  /** The rewrite keeps a record's keys: a column of the rewritten record
      holds the column's value rewritten, and the schema is the same. */
  lemma ReplaceRecord(rec: Value, m: Dict<string>, k: string)
    requires rec.Obj?
    ensures Replace(rec, m).Obj?
    ensures E.FieldValue(Replace(rec, m).fields, k) == Replace(E.FieldValue(rec.fields, k), m)
    ensures E.SchemaOf(Replace(rec, m).fields) == E.SchemaOf(rec.fields)
  {
    var fs := Replace(rec, m).fields;
    DRef.FindSameKeys(rec.fields, fs, k);
    forall i | 0 <= i < |fs| ensures TypeTag(fs[i].1) == TypeTag(rec.fields[i].1) {
      ReplaceTag(rec.fields[i].1, m);
    }
  }

  /** The rewrite keeps a value's type tag. */
  lemma ReplaceTag(v: Value, m: Dict<string>)
    ensures TypeTag(Replace(v, m)) == TypeTag(v)
  {
    match v
    case Str(_) =>
    case Arr(_) =>
    case Obj(_) =>
    case _ =>
  }

  /** Only a dict rewrites to a dict. */
  lemma ReplaceObj(v: Value, m: Dict<string>)
    ensures Replace(v, m).Obj? <==> v.Obj?
  {
  }

  /** The compressed table has the table's schema. */
  lemma CompressedSchema(records: seq<Value>, m: Dict<string>)
    requires records != [] ==> records[0].Obj?
    ensures var cs := Compressed(records, m);
      (cs != [] ==> cs[0].Obj?) && E.TableSchema(cs) == E.TableSchema(records)
  {
    if records != [] {
      ReplaceRecord(records[0], m, "");
    }
  }

  // ---------------------------------------------------------------------
  // The compressed text

  /** The entries of the @dict line hold no line break. */
  lemma DictionaryEntriesFree(d: Dict<string>)
    requires DictRT.SafeDictionary(d)
    ensures '\n' !in Join(", ", E.DictEntries(E.SortByKey(d)))
  {
    var p := E.SortByKey(d);
    DictRT.SortByKeySafe(d);
    DictRT.DictEntriesAt(p);
    var es := E.DictEntries(p);
    forall k | 0 <= k < |es| ensures '\n' !in es[k] {
      QuotedLiteral(p[k].1);
      RT.ItemField(p[k].0, Quote(p[k].1));
    }
    RT.JoinFree(", ", es, '\n');
  }

  /** The @dict line is one line of the text. */
  lemma DictionaryLineText(d: Dict<string>)
    requires DictRT.SafeDictionary(d)
    ensures DR.LineText(E.DictionaryLine(d))
  {
    DictionaryEntriesFree(d);
    assert E.DictionaryLine(d) == "@dict[" + Join(", ", E.DictEntries(E.SortByKey(d))) + "]";
  }

  /** The @dict line is left alone by strip() and starts with @dict. */
  lemma DictionaryLineMeta(d: Dict<string>)
    ensures var l := E.DictionaryLine(d);
      Strip(l) == l && StartsWith(l, "@dict")
  {
    var c := Join(", ", E.DictEntries(E.SortByKey(d)));
    assert E.DictionaryLine(d) == "@dict" + "[" + c + "]";
    RT.MetaLine("@dict", c);
    RT.MetaStrip("@dict", c);
  }

  /** With a dictionary, the document of one table is laid out as the
      @dict line, a blank line and the table's parts. */
  lemma CompressedLayout(d: Dict<string>, name: string, records: seq<Value>, optimize: bool, queryable: bool, parts: seq<string>)
    requires d != [] && E.TableParts(name, records, optimize, queryable) == Success(parts)
    ensures E.Layout(d, Obj([(name, Arr(records))]), optimize, queryable) == Success(Join("\n", [E.DictionaryLine(d), ""] + parts))
  {
    var tables := [(name, Arr(records))];
    var none: seq<string> := [];
    assert tables[1..] == [];
    assert E.BodyFrom(tables, optimize, queryable, none) == E.BodyFrom([], optimize, queryable, none + parts);
    assert none + parts == parts;
  }

  /** The lines of a compressed table: the @dict line, a blank line, the
      table's head, a blank line, the header and the indented rows. */
  ghost predicate CompressedLines(lines: seq<string>, dl: string, head: seq<string>, name: string, rows: seq<string>) {
    |lines| == 2 + |head| + 2 + |rows| && lines[0] == dl && lines[1] == "" &&
    (forall k :: 0 <= k < |head| ==> lines[2 + k] == head[k]) &&
    lines[2 + |head|] == "" && lines[3 + |head|] == E.Header(name, |rows|) && RT.IndentedAt(lines, 4 + |head|, rows)
  }

  lemma CompressedLinesOf(dl: string, head: seq<string>, name: string, rows: seq<string>)
    requires forall k :: 0 <= k < |rows| ==> RT.RowText(rows[k])
    ensures CompressedLines([dl, ""] + (head + ["", E.Header(name, |rows|)] + RT.Indent(rows)), dl, head, name, rows)
  {
    var t := head + ["", E.Header(name, |rows|)] + RT.Indent(rows);
    var lines := [dl, ""] + t;
    RT.TableLinesOf(head, name, rows);
    assert forall k :: 0 <= k < |t| ==> lines[2 + k] == t[k];
    forall k | 0 <= k < |rows| ensures lines[4 + |head| + k] == "  " + rows[k] {
      assert lines[2 + (|head| + 2 + k)] == t[|head| + 2 + k];
    }
  }

  /** The compressed parts, joined, are the @dict line, a blank line and the
      table's parts with the header's break split off. */
  lemma CompressedJoin(dl: string, head: seq<string>, h: string, rows: seq<string>)
    ensures Join("\n", [dl, ""] + (head + ["\n" + h] + RT.Indent(rows))) ==
      Join("\n", [dl, ""] + (head + ["", h] + RT.Indent(rows)))
  {
    var pre := [dl, ""] + head;
    assert [dl, ""] + (head + ["\n" + h] + RT.Indent(rows)) == pre + ["\n" + h] + RT.Indent(rows);
    assert [dl, ""] + (head + ["", h] + RT.Indent(rows)) == pre + ["", h] + RT.Indent(rows);
    RT.JoinBreak(pre, h, RT.Indent(rows));
  }

  /** Every compressed part is one line of the text. */
  lemma CompressedPartsText(dl: string, head: seq<string>, h: string, rows: seq<string>, parts: seq<string>)
    requires DR.LineText(dl) && DR.LineText(h) && forall k :: 0 <= k < |head| ==> DR.LineText(head[k])
    requires forall k :: 0 <= k < |rows| ==> RT.RowText(rows[k])
    requires parts == [dl, ""] + (head + ["", h] + RT.Indent(rows))
    ensures |parts| >= 1 && forall k :: 0 <= k < |parts| ==> DR.LineText(parts[k])
  {
    var t := head + ["", h] + RT.Indent(rows);
    DR.PartsText(head, h, rows);
    forall k | 0 <= k < |parts| ensures DR.LineText(parts[k]) {
      if k >= 2 {
        assert parts[k] == t[k - 2];
      }
    }
  }

  /** The compressed text splits into the compressed table's lines. */
  lemma CompressedTextLines(text: string, dl: string, head: seq<string>, h: string, rows: seq<string>)
    requires DR.LineText(dl) && DR.LineText(h) && forall k :: 0 <= k < |head| ==> DR.LineText(head[k])
    requires forall k :: 0 <= k < |rows| ==> RT.RowText(rows[k])
    requires text == Join("\n", [dl, ""] + (head + ["\n" + h] + RT.Indent(rows)))
    ensures D.Lines(text) == [dl, ""] + (head + ["", h] + RT.Indent(rows))
  {
    var parts := [dl, ""] + (head + ["", h] + RT.Indent(rows));
    CompressedJoin(dl, head, h, rows);
    CompressedPartsText(dl, head, h, rows, parts);
    LineTextsLines(parts);
  }

  /** Lines that are each one line of the text split back out of their join. */
  lemma LineTextsLines(parts: seq<string>)
    requires |parts| >= 1 && forall k :: 0 <= k < |parts| ==> DR.LineText(parts[k])
    ensures D.Lines(Join("\n", parts)) == parts
  {
    RT.LinesOfParts(parts);
  }

  // ---------------------------------------------------------------------
  // Reading the compressed lines

  /** The @dict line sets the dictionary, in key order. */
  lemma DictionaryStep(lines: seq<string>, st: D.DecodeState, d: Dict<string>)
    requires 0 < |lines| && lines[0] == E.DictionaryLine(d) && DistinctKeys(d) && DictRT.SafeDictionary(d)
    ensures D.StepAt(lines, 0, st) == Success((1, st.(dictionary := E.SortByKey(d))))
  {
    DictionaryLineMeta(d);
    DictRT.DictionaryLineRoundTrip(d);
  }

  /** The @defaults line, read by a decoder holding a dictionary, sets the
      defaults with their references resolved. */
  lemma ResolvedDefaultsStep(lines: seq<string>, i: nat, st: D.DecodeState, cd: Dict<Value>)
    requires i < |lines| && lines[i] == E.DefaultsLine(cd) && DistinctKeys(cd) && RT.SafeDefaults(cd)
    ensures D.StepAt(lines, i, st) == Success((i + 1, st.(defaults := DRef.ResolveAll(E.SortByKey(cd), st.dictionary))))
  {
    RT.DefaultsLineRoundTrip(cd);
    RT.DefaultsLineFacts(cd);
    DRef.DefaultsLineResolved(E.DefaultsLine(cd), st.dictionary);
    RT.DefaultsLineStep(lines, i, st, DRef.ResolveAll(E.SortByKey(cd), st.dictionary));
  }

  /** The lines of a compressed table's head, one by one. */
  lemma CompressedHeadLines(lines: seq<string>, d: Dict<string>, name: string, schema: Schema, cd: Dict<Value>, queryable: bool, rows: seq<string>)
    requires CompressedLines(lines, E.DictionaryLine(d), RT.Head(name, schema, cd, queryable), name, rows)
    ensures var m := 2 + |RT.Head(name, schema, cd, queryable)|;
      m == 3 + (if cd != [] then 1 else 0) + (if queryable then 1 else 0) && m < |lines| &&
      lines[0] == E.DictionaryLine(d) && lines[1] == "" && lines[2] == E.SchemaLine(schema) &&
      (cd != [] ==> lines[3] == E.DefaultsLine(cd)) &&
      (queryable ==> lines[m - 1] == "@queryable[" + name + "]")
  {
    var head := RT.Head(name, schema, cd, queryable);
    RT.HeadAt(name, schema, cd, queryable);
    assert lines[2 + 0] == head[0];
    if cd != [] {
      assert lines[2 + 1] == head[1];
    }
    if queryable {
      assert lines[2 + (|head| - 1)] == head[|head| - 1];
    }
  }

  /** The steps over the @dict line and the blank line after it. */
  lemma DictionarySteps(lines: seq<string>, d: Dict<string>)
    requires 2 < |lines| && lines[0] == E.DictionaryLine(d) && lines[1] == ""
    requires DistinctKeys(d) && DictRT.SafeDictionary(d)
    ensures var st1 := D.DecodeState([], [], [], E.SortByKey(d));
      D.StepAt(lines, 0, D.DecodeState([], [], [], [])) == Success((1, st1)) &&
      D.StepAt(lines, 1, st1) == Success((2, st1))
  {
    DictionaryStep(lines, D.DecodeState([], [], [], []), d);
    assert DP.Ignored(lines[1]);
    DP.IgnoredStep(lines, 1, D.DecodeState([], [], [], E.SortByKey(d)));
  }

  /** The steps over the table's head, under the dictionary p. */
  lemma CompressedHeadSteps(lines: seq<string>, p: Dict<string>, name: string, schema: Schema, cd: Dict<Value>, queryable: bool, m: nat)
    requires m == 3 + (if cd != [] then 1 else 0) + (if queryable then 1 else 0) && m < |lines|
    requires lines[2] == E.SchemaLine(schema)
    requires cd != [] ==> lines[3] == E.DefaultsLine(cd)
    requires queryable ==> lines[m - 1] == "@queryable[" + name + "]"
    requires RT.SafeSchema(schema) && DistinctKeys(cd) && RT.SafeDefaults(cd)
    ensures var st1 := D.DecodeState([], [], [], p);
      var st2 := D.DecodeState([], schema, [], p);
      var st3 := D.DecodeState([], schema, DRef.ResolveAll(E.SortByKey(cd), p), p);
      var i1 := if cd != [] then 4 else 3;
      D.StepAt(lines, 2, st1) == Success((3, st2)) &&
      (i1 == 3 ==> st3 == st2) &&
      (i1 != 3 ==> D.StepAt(lines, 3, st2) == Success((4, st3))) &&
      (m != i1 ==> m == i1 + 1 && D.StepAt(lines, i1, st3) == Success((m, st3)))
  {
    var st1 := D.DecodeState([], [], [], p);
    var st2 := D.DecodeState([], schema, [], p);
    var st3 := D.DecodeState([], schema, DRef.ResolveAll(E.SortByKey(cd), p), p);
    RT.SchemaStep(lines, 2, st1, schema);
    if cd != [] {
      ResolvedDefaultsStep(lines, 3, st2, cd);
    } else {
      var none: Dict<Value> := [];
      assert DRef.ResolveAll(none, p) == none;
    }
    if queryable {
      RT.QueryableStep(lines, m - 1, st3, name);
    }
  }

  /** The scan over the compressed head, from the steps of its lines. */
  lemma CompressedChain(lines: seq<string>, i1: nat, m: nat, st0: D.DecodeState, st1: D.DecodeState, st2: D.DecodeState, st3: D.DecodeState)
    requires 3 <= i1 <= m < |lines|
    requires D.StepAt(lines, 0, st0) == Success((1, st1)) && D.StepAt(lines, 1, st1) == Success((2, st1))
    requires D.StepAt(lines, 2, st1) == Success((3, st2))
    requires i1 == 3 ==> st3 == st2
    requires i1 != 3 ==> i1 == 4 && D.StepAt(lines, 3, st2) == Success((4, st3))
    requires m != i1 ==> m == i1 + 1 && D.StepAt(lines, i1, st3) == Success((m, st3))
    ensures D.DecodeFrom(lines, 0, st0) == D.DecodeFrom(lines, m, st3)
  {
    DP.DecodeStep(lines, 0, st0, (1, st1));
    DP.DecodeStep(lines, 1, st1, (2, st1));
    DP.DecodeStep(lines, 2, st1, (3, st2));
    if i1 != 3 {
      DP.DecodeStep(lines, 3, st2, (4, st3));
    }
    if m != i1 {
      DP.DecodeStep(lines, i1, st3, (m, st3));
    }
  }

  /** The scan over the @dict line, the blank line and the table's head
      ends holding the dictionary, the schema and the resolved defaults. */
  lemma CompressedHeadScan(lines: seq<string>, d: Dict<string>, name: string, schema: Schema, cd: Dict<Value>, queryable: bool, m: nat)
    requires m == 3 + (if cd != [] then 1 else 0) + (if queryable then 1 else 0) && m < |lines|
    requires lines[0] == E.DictionaryLine(d) && lines[1] == "" && lines[2] == E.SchemaLine(schema)
    requires cd != [] ==> lines[3] == E.DefaultsLine(cd)
    requires queryable ==> lines[m - 1] == "@queryable[" + name + "]"
    requires DistinctKeys(d) && DictRT.SafeDictionary(d) && RT.SafeSchema(schema) && DistinctKeys(cd) && RT.SafeDefaults(cd)
    ensures D.DecodeFrom(lines, 0, D.DecodeState([], [], [], [])) ==
      D.DecodeFrom(lines, m, D.DecodeState([], schema, DRef.ResolveAll(E.SortByKey(cd), E.SortByKey(d)), E.SortByKey(d)))
  {
    var p := E.SortByKey(d);
    DictionarySteps(lines, d);
    CompressedHeadSteps(lines, p, name, schema, cd, queryable, m);
    CompressedChain(lines, if cd != [] then 4 else 3, m, D.DecodeState([], [], [], []), D.DecodeState([], [], [], p),
      D.DecodeState([], schema, [], p), D.DecodeState([], schema, DRef.ResolveAll(E.SortByKey(cd), p), p));
  }

  /** A fresh decoder reads the compressed lines as the one table, its rows
      parsed under the schema, the resolved defaults and the dictionary,
      and ends holding the dictionary. */
  lemma CompressedScan(lines: seq<string>, d: Dict<string>, name: string, schema: Schema, cd: Dict<Value>, queryable: bool, rows: seq<string>)
    requires CompressedLines(lines, E.DictionaryLine(d), RT.Head(name, schema, cd, queryable), name, rows)
    requires DistinctKeys(d) && DictRT.SafeDictionary(d) && RT.Readable(name, schema, cd, rows)
    ensures var p := E.SortByKey(d);
      D.DecodeFrom(lines, 0, D.DecodeState([], [], [], [])) ==
        (Success([(name, D.RecordsOf(rows, schema, DRef.ResolveAll(E.SortByKey(cd), p), p))]), p)
  {
    var p := E.SortByKey(d);
    var m := 2 + |RT.Head(name, schema, cd, queryable)|;
    var st3 := D.DecodeState([], schema, DRef.ResolveAll(E.SortByKey(cd), p), p);
    CompressedHeadLines(lines, d, name, schema, cd, queryable, rows);
    CompressedHeadScan(lines, d, name, schema, cd, queryable, m);
    RT.TailScan(lines, m, st3, name, rows);
    RT.PutFirst(name, D.RecordsOf(rows, schema, DRef.ResolveAll(E.SortByKey(cd), p), p));
  }

  // ---------------------------------------------------------------------
  // The compressed table read back

  /** Resolving through an empty dictionary changes nothing. */
  lemma ResolveAllNothing(r: Record)
    ensures DRef.ResolveAll(r, []) == r
  {
    var q := DRef.ResolveAll(r, []);
    forall j | 0 <= j < |r| ensures q[j] == r[j] {
      RT.SubstituteFresh(r[j].1);
    }
  }

  lemma ResolveNothing(rs: seq<Record>)
    ensures DRef.ResolveRecords(rs, []) == rs
  {
    forall i | 0 <= i < |rs| ensures DRef.ResolveRecords(rs, [])[i] == rs[i] {
      ResolveAllNothing(rs[i]);
    }
  }

  /** The text of a compressed table, with the dictionary compression built
      or with none, is read back by a fresh decoder as the table: its rows
      parsed with no dictionary and then every reference resolved through
      the dictionary in key order, which the decoder keeps. */
  lemma CompressedDecodes(d: Dict<string>, name: string, cr: seq<Value>, optimize: bool, queryable: bool, cd: Dict<Value>, ks: seq<nat>)
    requires DP.TableName(name) && '\n' !in name && DistinctKeys(d) && DictRT.SafeDictionary(d)
    requires cr != [] ==> cr[0].Obj? && forall j :: 0 <= j < |cr[0].fields| ==> RT.SafeKey(cr[0].fields[j].0)
    requires DR.ChosenDefaults(cr, optimize) == Success(cd) && RT.SafeDefaults(cd)
    requires DR.Covered(cr, E.TableSchema(cr), cd, ks)
    ensures E.Layout(d, Obj([(name, Arr(cr))]), optimize, queryable).Success?
    ensures var schema := E.TableSchema(cr);
      var p := E.SortByKey(d);
      D.DecodeSpec(E.Layout(d, Obj([(name, Arr(cr))]), optimize, queryable).value, []) ==
        (Success([(name, DRef.ResolveRecords(D.RecordsOf(DR.RowTexts(cr, schema, cd), schema, E.SortByKey(cd), []), p))]), p)
  {
    if d != [] {
      DictionaryDecodes(d, name, cr, optimize, queryable, cd, ks);
    } else {
      var schema := E.TableSchema(cr);
      var p := E.SortByKey(d);
      if cr != [] {
        DR.SchemaOfSafe(cr[0].fields);
        assert 0 < ks[0] <= |schema|;
      }
      DR.ChosenDistinct(cr, optimize);
      var rows := DR.RowTexts(cr, schema, cd);
      DR.RowsReadable(cr, schema, cd, ks);
      var head := RT.Head(name, schema, cd, queryable);
      var h := E.Header(name, |rows|);
      var out0 := D.RecordsOf(rows, schema, E.SortByKey(cd), []);
      DR.TablePartsOf(name, cr, optimize, queryable, cd);
      DR.TableText(name, cr, optimize, queryable, cd);
      DR.TableDecodes(Join("\n", head + ["\n" + h] + RT.Indent(rows)), name, schema, cd, queryable, rows);
      ResolveNothing(out0);
    }
  }

  /** The text of a compressed table with a dictionary, read back by a
      fresh decoder. */
  lemma DictionaryDecodes(d: Dict<string>, name: string, cr: seq<Value>, optimize: bool, queryable: bool, cd: Dict<Value>, ks: seq<nat>)
    requires d != []
    requires DP.TableName(name) && '\n' !in name && DistinctKeys(d) && DictRT.SafeDictionary(d)
    requires cr != [] ==> cr[0].Obj? && forall j :: 0 <= j < |cr[0].fields| ==> RT.SafeKey(cr[0].fields[j].0)
    requires DR.ChosenDefaults(cr, optimize) == Success(cd) && RT.SafeDefaults(cd)
    requires DR.Covered(cr, E.TableSchema(cr), cd, ks)
    ensures E.Layout(d, Obj([(name, Arr(cr))]), optimize, queryable).Success?
    ensures var schema := E.TableSchema(cr);
      var p := E.SortByKey(d);
      D.DecodeSpec(E.Layout(d, Obj([(name, Arr(cr))]), optimize, queryable).value, []) ==
        (Success([(name, DRef.ResolveRecords(D.RecordsOf(DR.RowTexts(cr, schema, cd), schema, E.SortByKey(cd), []), p))]), p)
  {
    var schema := E.TableSchema(cr);
    var p := E.SortByKey(d);
    if cr != [] {
      DR.SchemaOfSafe(cr[0].fields);
      assert 0 < ks[0] <= |schema|;
    }
    DR.ChosenDistinct(cr, optimize);
    var rows := DR.RowTexts(cr, schema, cd);
    DR.RowsReadable(cr, schema, cd, ks);
    var head := RT.Head(name, schema, cd, queryable);
    var h := E.Header(name, |rows|);
    DR.TablePartsOf(name, cr, optimize, queryable, cd);
    var dl := E.DictionaryLine(d);
    var text := Join("\n", [dl, ""] + (head + ["\n" + h] + RT.Indent(rows)));
    CompressedLayout(d, name, cr, optimize, queryable, head + ["\n" + h] + RT.Indent(rows));
    DictionaryLineText(d);
    DR.HeaderText(name, |rows|);
    DR.HeadText(name, schema, cd, queryable);
    CompressedTextLines(text, dl, head, h, rows);
    CompressedLinesOf(dl, head, name, rows);
    CompressedScan(D.Lines(text), d, name, schema, cd, queryable, rows);
    DRef.RecordsOfResolved(rows, schema, E.SortByKey(cd), p);
  }

  // ---------------------------------------------------------------------
  // Back to the table's own values

  /** A default as the decoder holds it: the compressed table's default
      with its reference, if any, resolved. */
  function ResolvedDefault(cd: Dict<Value>, d: Dict<string>, k: string): (r: Option<Value>)
    ensures r.Some? <==> HasKey(cd, k)
  {
    match Get(cd, k)
    case None => None
    case Some(x) => Some(Replace(x, d))
  }

  /** The decoded records hold the table's own values column by column:
      the record's value where the row wrote it; where the row left it
      out, the default with its reference resolved, which Python's == finds
      equal to the record's value. */
  predicate TableBackThrough(out: seq<Record>, records: seq<Value>, schema: Schema, cd: Dict<Value>, d: Dict<string>, ks: seq<nat>) {
    |out| == |records| && |ks| == |records| && (forall i :: 0 <= i < |records| ==> records[i].Obj?) &&
    forall i, j :: 0 <= i < |records| && 0 <= j < |schema| ==>
      DR.ColumnBack(Get(out[i], schema[j].0), E.FieldValue(records[i].fields, schema[j].0), j < ks[i], ResolvedDefault(cd, d, schema[j].0))
  }

  /** One column of one record: read from the compressed row, resolved
      through the dictionary, it is the record's own value or its default. */
  lemma ColumnThrough(out0: seq<Record>, records: seq<Value>, d: Dict<string>, schema: Schema, cd: Dict<Value>, ks: seq<nat>, i: nat, j: nat)
    requires DR.Covered(Compressed(records, Reverse(d)), schema, cd, ks)
    requires DR.TableBack(out0, Compressed(records, Reverse(d)), schema, cd, ks)
    requires RT.SafeDefaults(cd) && DistinctKeys(d) && RefKeys(d)
    requires forall k :: 0 <= k < |records| ==> Replace(Replace(records[k], Reverse(d)), d) == records[k]
    requires i < |records| && j < |schema|
    ensures records[i].Obj?
    ensures DR.ColumnBack(Get(DRef.ResolveAll(out0[i], E.SortByKey(d)), schema[j].0), E.FieldValue(records[i].fields, schema[j].0),
      j < ks[i], ResolvedDefault(cd, d, schema[j].0))
  {
    var cr := Compressed(records, Reverse(d));
    var nm := schema[j].0;
    ReplaceObj(records[i], Reverse(d));
    var cv := E.FieldValue(cr[i].fields, nm);
    var v := E.FieldValue(records[i].fields, nm);
    ReplaceRecord(cr[i], d, nm);
    assert v == Replace(cv, d);
    DRef.ResolveGet(out0[i], E.SortByKey(d), nm);
    if j < ks[i] {
      ResolveIsReplace(cv, d);
    } else {
      var idx := CP.HasKeyIndex(cd, nm);
      var x := cd[idx].1;
      ResolveIsReplace(x, d);
      PyEqReplace(cv, x, d);
    }
  }

  /** The rows of the compressed table, read and resolved, give back the
      table's own values. */
  lemma TableThrough(records: seq<Value>, d: Dict<string>, schema: Schema, cd: Dict<Value>, ks: seq<nat>)
    requires DR.Covered(Compressed(records, Reverse(d)), schema, cd, ks)
    requires DistinctKeys(schema) && DistinctKeys(cd) && RT.SafeDefaults(cd) && DistinctKeys(d) && RefKeys(d)
    requires forall k :: 0 <= k < |records| ==> Replace(Replace(records[k], Reverse(d)), d) == records[k]
    ensures var cr := Compressed(records, Reverse(d));
      TableBackThrough(DRef.ResolveRecords(D.RecordsOf(DR.RowTexts(cr, schema, cd), schema, E.SortByKey(cd), []), E.SortByKey(d)),
        records, schema, cd, d, ks)
  {
    var cr := Compressed(records, Reverse(d));
    var out0 := D.RecordsOf(DR.RowTexts(cr, schema, cd), schema, E.SortByKey(cd), []);
    DR.RecordsBack(cr, schema, cd, ks);
    forall i, j | 0 <= i < |records| && 0 <= j < |schema|
      ensures records[i].Obj?
      ensures DR.ColumnBack(Get(DRef.ResolveAll(out0[i], E.SortByKey(d)), schema[j].0), E.FieldValue(records[i].fields, schema[j].0),
        j < ks[i], ResolvedDefault(cd, d, schema[j].0))
    {
      ColumnThrough(out0, records, d, schema, cd, ks, i, j);
    }
    forall i | 0 <= i < |records| ensures records[i].Obj? {
      ReplaceObj(records[i], Reverse(d));
    }
  }

  // ---------------------------------------------------------------------
  // decode(encode(document, compress=True)) for one table

  /** The dictionary compress builds for the document {name: records}. */
  function TableDictionary(name: string, records: seq<Value>, st: CE.DictState): Dict<string> {
    DictionaryOf(Obj([(name, Arr(records))]), st.refCounter, st.minLength, st.minOccurrences)
  }

  /** The records as compress rewrites them. */
  function CompressedTable(name: string, records: seq<Value>, st: CE.DictState): seq<Value> {
    Compressed(records, Reverse(TableDictionary(name, records, st)))
  }

  /** BALANCED on {name: records}: the rewritten table, and the dictionary
      in the metadata. */
  lemma BalancedOutput(name: string, records: seq<Value>, st: CE.DictState)
    ensures var s := CE.BalancedSpec(Obj([(name, Arr(records))]), st);
      s.compressed == Obj([(name, Arr(CompressedTable(name, records, st)))]) &&
      E.DictionaryIn(s.metadata) == TableDictionary(name, records, st)
  {
    CEP.MergeDictionaryMeta(Obj([(name, Arr(records))]), st);
    ReplaceDocument(name, records, Reverse(TableDictionary(name, records, st)));
  }

  /** The dictionary maps the compressed records back to the records. */
  lemma CompressedBack(name: string, records: seq<Value>, st: CE.DictState)
    requires SafeLeaves(Obj([(name, Arr(records))]))
    ensures var d := TableDictionary(name, records, st);
      forall k :: 0 <= k < |records| ==> Replace(Replace(records[k], Reverse(d)), d) == records[k]
  {
    var data := Obj([(name, Arr(records))]);
    var d := TableDictionary(name, records, st);
    var cr := CompressedTable(name, records, st);
    CP.RoundTripWithoutHashLeaves(data, st.refCounter, st.minLength, st.minOccurrences);
    ReplaceDocument(name, records, Reverse(d));
    ReplaceDocument(name, cr, d);
    assert Compressed(cr, d) == records;
  }

  /** The text of a table rewritten through the reverse of a dictionary
      that maps it back, read by a fresh decoder: the dictionary in key
      order, and the table's own values. */
  lemma RewrittenRoundTrip(d: Dict<string>, name: string, records: seq<Value>, optimize: bool, queryable: bool, cd: Dict<Value>, ks: seq<nat>)
    requires DP.TableName(name) && '\n' !in name
    requires DistinctKeys(d) && DictRT.SafeDictionary(d) && RefKeys(d)
    requires forall k :: 0 <= k < |records| ==> Replace(Replace(records[k], Reverse(d)), d) == records[k]
    requires records != [] ==> records[0].Obj? && forall j :: 0 <= j < |records[0].fields| ==> RT.SafeKey(records[0].fields[j].0)
    requires DR.ChosenDefaults(Compressed(records, Reverse(d)), optimize) == Success(cd) && RT.SafeDefaults(cd)
    requires DR.Covered(Compressed(records, Reverse(d)), E.TableSchema(records), cd, ks)
    ensures E.Layout(d, Obj([(name, Arr(Compressed(records, Reverse(d))))]), optimize, queryable).Success?
    ensures var decoded := D.DecodeSpec(E.Layout(d, Obj([(name, Arr(Compressed(records, Reverse(d))))]), optimize, queryable).value, []);
      decoded.1 == E.SortByKey(d) && decoded.0.Success? && |decoded.0.value| == 1 && decoded.0.value[0].0 == name &&
      TableBackThrough(decoded.0.value[0].1, records, E.TableSchema(records), cd, d, ks)
  {
    var cr := Compressed(records, Reverse(d));
    CompressedSchema(records, Reverse(d));
    if records != [] {
      assert forall j :: 0 <= j < |cr[0].fields| ==> cr[0].fields[j].0 == records[0].fields[j].0;
      DR.SchemaOfSafe(cr[0].fields);
    }
    DR.ChosenDistinct(cr, optimize);
    CompressedDecodes(d, name, cr, optimize, queryable, cd, ks);
    TableThrough(records, d, E.TableSchema(records), cd, ks);
  }

  /** decode(encode({name: records}, compress=True)) in the BALANCED mode,
      with a fresh decoder, for a table whose name, keys, strings and
      defaults read back, none of whose strings starts with '#', and whose
      compressed rows each write a prefix of the schema: the decoder ends
      holding the dictionary in key order and gives one table of that
      name, one record per record, each column holding the record's value
      or a default equal to it. */
  lemma BalancedRoundTrip(name: string, records: seq<Value>, optimize: bool, queryable: bool, st: CE.DictState, cd: Dict<Value>, ks: seq<nat>)
    requires DP.TableName(name) && '\n' !in name
    requires records != [] ==> records[0].Obj? && forall j :: 0 <= j < |records[0].fields| ==> RT.SafeKey(records[0].fields[j].0)
    requires SafeLeaves(Obj([(name, Arr(records))]))
    requires DR.ChosenDefaults(CompressedTable(name, records, st), optimize) == Success(cd) && RT.SafeDefaults(cd)
    requires DR.Covered(CompressedTable(name, records, st), E.TableSchema(records), cd, ks)
    ensures var s := CE.BalancedSpec(Obj([(name, Arr(records))]), st);
      E.Layout(E.DictionaryIn(s.metadata), s.compressed, optimize, queryable).Success?
    ensures var s := CE.BalancedSpec(Obj([(name, Arr(records))]), st);
      var d := TableDictionary(name, records, st);
      var decoded := D.DecodeSpec(E.Layout(E.DictionaryIn(s.metadata), s.compressed, optimize, queryable).value, []);
      decoded.1 == E.SortByKey(d) && decoded.0.Success? && |decoded.0.value| == 1 && decoded.0.value[0].0 == name &&
      TableBackThrough(decoded.0.value[0].1, records, E.TableSchema(records), cd, d, ks)
  {
    BalancedOutput(name, records, st);
    DictionarySafe(Obj([(name, Arr(records))]), st.refCounter, st.minLength, st.minOccurrences);
    CompressedBack(name, records, st);
    RewrittenRoundTrip(TableDictionary(name, records, st), name, records, optimize, queryable, cd, ks);
  }

  /** The modes whose compressed text is BALANCED's: BALANCED, ULTRA, and
      ADAPTIVE under 10000 characters. */
  predicate WritesBalanced(mode: CE.Mode, size: nat) {
    mode == CE.Balanced || mode == CE.Ultra || (mode == CE.Adaptive && size < 10000)
  }

  /** These modes give BALANCED's data and dictionary. */
  lemma RunWritesBalanced(mode: CE.Mode, data: Value, size: nat, deltaEstimate: Ratio, st: CE.DictState)
    requires WritesBalanced(mode, size)
    ensures var s := CE.Run(mode, data, size, deltaEstimate, st);
      var b := CE.BalancedSpec(data, st);
      s.compressed == b.compressed && E.DictionaryIn(s.metadata) == E.DictionaryIn(b.metadata)
  {
    CEP.MergeDictionaryMeta(data, st);
    CEP.UltraExtendsBalanced(data, size, deltaEstimate, st);
    CEP.AdaptiveThresholds(data, size, deltaEstimate, st);
    CEP.FastIsBalanced(data, size, deltaEstimate, st);
  }

  /** encode(data, compress=True) then decode on a fresh decoder, for a
      document of one table, in the modes that write BALANCED's text and
      with validation off or passing. */
  lemma EncodeCompressedRoundTrip(c: E.Config, name: string, records: seq<Value>, size: nat, deltaEstimate: Ratio, st: CE.DictState,
                                  cd: Dict<Value>, ks: seq<nat>)
    requires WritesBalanced(c.mode, size)
    requires c.validate ==> E.ValidateSpec(Obj([(name, Arr(records))])).None?
    requires DP.TableName(name) && '\n' !in name
    requires records != [] ==> records[0].Obj? && forall j :: 0 <= j < |records[0].fields| ==> RT.SafeKey(records[0].fields[j].0)
    requires SafeLeaves(Obj([(name, Arr(records))]))
    requires DR.ChosenDefaults(CompressedTable(name, records, st), c.optimize) == Success(cd) && RT.SafeDefaults(cd)
    requires DR.Covered(CompressedTable(name, records, st), E.TableSchema(records), cd, ks)
    ensures E.EncodeSpec(c, Obj([(name, Arr(records))]), true, size, deltaEstimate, st).0.Success?
    ensures var decoded := D.DecodeSpec(E.EncodeSpec(c, Obj([(name, Arr(records))]), true, size, deltaEstimate, st).0.value, []);
      decoded.1 == E.SortByKey(TableDictionary(name, records, st)) && decoded.0.Success? && |decoded.0.value| == 1 &&
      decoded.0.value[0].0 == name &&
      TableBackThrough(decoded.0.value[0].1, records, E.TableSchema(records), cd, TableDictionary(name, records, st), ks)
  {
    RunWritesBalanced(c.mode, Obj([(name, Arr(records))]), size, deltaEstimate, st);
    BalancedRoundTrip(name, records, c.optimize, c.queryable, st, cd, ks);
  }
}
