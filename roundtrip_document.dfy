/** decode(encode(document)) for a document that holds one table, from the
    encoder's own functions to the decoder's: the text Layout writes is
    split back into the lines of the table, which a fresh decoder reads
    as the table's records. */
module DocumentRoundTrip {
  import opened Wrappers
  import opened Text
  import opened Values
  import opened Errors
  import opened Splitting
  import opened Literals
  import E = Encoder
  import D = Decoder
  import DP = DecoderProperties
  import EP = EncoderProperties
  import opened RoundTrip

  // ---------------------------------------------------------------------
  // The encoder's parts of one table

  /** The defaults the encoder picks for a table: none for an empty table
      or when it does not optimize. */
  function ChosenDefaults(records: seq<Value>, optimize: bool): Result<Dict<Value>, Error> {
    if records != [] && optimize then E.DefaultsSpec(records) else Success([])
  }

  /** The rows a table of dicts is written as, before their indentation. */
  function RowTexts(records: seq<Value>, schema: Schema, defaults: Dict<Value>): (rows: seq<string>)
    requires forall i :: 0 <= i < |records| ==> records[i].Obj?
    ensures |rows| == |records|
    ensures forall i :: 0 <= i < |records| ==> rows[i] == Join(", ", E.RowFields(records[i].fields, schema, defaults))
  {
    seq(|records|, i requires 0 <= i < |records| => Join(", ", E.RowFields(records[i].fields, schema, defaults)))
  }

  /** Records that are all dicts, under a schema with a column, are written
      one indented row each. */
  lemma RowsOfRecords(records: seq<Value>, schema: Schema, defaults: Dict<Value>)
    requires forall i :: 0 <= i < |records| ==> records[i].Obj?
    requires schema != [] || records == []
    ensures E.RowsSpec(records, schema, defaults) == Success(Indent(RowTexts(records, schema, defaults)))
  {
    forall i | 0 <= i < |records| ensures E.RowSpec(records[i], schema, defaults).Success? {
    }
    EP.RowsFromSucceeds(records, schema, defaults, []);
    EP.RowsFromMeaning(records, schema, defaults, []);
    var out := E.RowsSpec(records, schema, defaults).value;
    var want := Indent(RowTexts(records, schema, defaults));
    forall i | 0 <= i < |out| ensures out[i] == want[i] {
      assert out[0 + i] == "  " + E.RowSpec(records[i], schema, defaults).value;
    }
    assert out == want;
  }

  /** The parts of a table of dicts: its head, the header after a blank
      line, and its rows. */
  lemma TablePartsOf(name: string, records: seq<Value>, optimize: bool, queryable: bool, defaults: Dict<Value>)
    requires forall i :: 0 <= i < |records| ==> records[i].Obj?
    requires ChosenDefaults(records, optimize) == Success(defaults)
    requires E.TableSchema(records) != [] || records == []
    ensures E.TableParts(name, records, optimize, queryable) ==
      Success(Head(name, E.TableSchema(records), defaults, queryable) + ["\n" + E.Header(name, |records|)] +
        Indent(RowTexts(records, E.TableSchema(records), defaults)))
  {
    RowsOfRecords(records, E.TableSchema(records), defaults);
  }

  /** A document of one table is laid out as that table's parts. */
  lemma LayoutOf(name: string, records: seq<Value>, optimize: bool, queryable: bool, parts: seq<string>)
    requires E.TableParts(name, records, optimize, queryable) == Success(parts)
    ensures E.Layout([], Obj([(name, Arr(records))]), optimize, queryable) == Success(Join("\n", parts))
  {
    var tables := [(name, Arr(records))];
    var none: seq<string> := [];
    assert tables[1..] == [];
    assert E.BodyFrom(tables, optimize, queryable, none) == E.BodyFrom([], optimize, queryable, none + parts);
    assert none + parts == parts;
  }

  // ---------------------------------------------------------------------
  // From the text to the table's lines

  /** A part of the text that is one line the decoder's rstrip() leaves alone. */
  predicate LineText(s: string) {
    '\n' !in s && RightClean(s)
  }

  lemma SchemaLineText(schema: Schema)
    requires SafeSchema(schema)
    ensures LineText(E.SchemaLine(schema))
  {
    var es := E.SchemaEntries(schema);
    forall k | 0 <= k < |es| ensures '\n' !in es[k] {
      SchemaItemField(schema[k].0, schema[k].1);
    }
    JoinFree(", ", es, '\n');
    assert E.SchemaLine(schema) == "@schema[" + Join(", ", es) + "]";
  }

  lemma DefaultsLineText(d: Dict<Value>)
    requires SafeDefaults(d)
    ensures LineText(E.DefaultsLine(d))
  {
    var p := E.SortByKey(d);
    SortByKeySafe(d);
    DefaultEntriesAt(p);
    var es := E.DefaultEntries(p);
    forall k | 0 <= k < |es| ensures '\n' !in es[k] {
      DefaultLiteral(p[k].1);
      ItemField(p[k].0, FormatQuoted(p[k].1));
    }
    JoinFree(", ", es, '\n');
    assert E.DefaultsLine(d) == "@defaults[" + Join(", ", es) + "]";
  }

  lemma HeaderText(name: string, n: nat)
    requires '\n' !in name
    ensures LineText(E.Header(name, n))
  {
    var digits := IntToString(n);
    assert forall i :: 0 <= i < |digits| ==> digits[i] != '\n';
    assert E.Header(name, n) == name + "(" + digits + "):";
  }

  /** Every line of a readable table's head is one line of the text. */
  lemma HeadText(name: string, schema: Schema, defaults: Dict<Value>, queryable: bool)
    requires '\n' !in name && SafeSchema(schema) && SafeDefaults(defaults)
    ensures var head := Head(name, schema, defaults, queryable);
      forall k :: 0 <= k < |head| ==> LineText(head[k])
  {
    var head := Head(name, schema, defaults, queryable);
    HeadAt(name, schema, defaults, queryable);
    SchemaLineText(schema);
    if defaults != [] {
      DefaultsLineText(defaults);
    }
    assert LineText("@queryable[" + name + "]");
  }

  /** The head, the blank line, the header and the rows are each one line. */
  lemma PartsText(head: seq<string>, h: string, rows: seq<string>)
    requires forall k :: 0 <= k < |head| ==> LineText(head[k])
    requires LineText(h) && forall k :: 0 <= k < |rows| ==> RowText(rows[k])
    ensures var parts := head + ["", h] + Indent(rows);
      forall k :: 0 <= k < |parts| ==> LineText(parts[k])
  {
    var parts := head + ["", h] + Indent(rows);
    TableLinesAt(head, h, rows);
    forall k | 0 <= k < |parts| ensures LineText(parts[k]) {
      if k >= |head| + 2 {
        assert parts[k] == "  " + rows[k - |head| - 2];
      }
    }
  }

  /** The text of a table's parts splits into the table's lines. */
  lemma LinesAreTable(text: string, name: string, schema: Schema, defaults: Dict<Value>, queryable: bool, rows: seq<string>)
    requires Readable(name, schema, defaults, rows)
    requires text == Join("\n", Head(name, schema, defaults, queryable) + ["\n" + E.Header(name, |rows|)] + Indent(rows))
    ensures TableLines(D.Lines(text), Head(name, schema, defaults, queryable), name, rows)
  {
    var head := Head(name, schema, defaults, queryable);
    var h := E.Header(name, |rows|);
    JoinBreak(head, h, Indent(rows));
    HeadText(name, schema, defaults, queryable);
    HeaderText(name, |rows|);
    PartsText(head, h, rows);
    LinesOfParts(head + ["", h] + Indent(rows));
    TableLinesOf(head, name, rows);
  }

  // ---------------------------------------------------------------------
  // The table's schema, defaults and rows

  /** The first record's keys become the schema's names, each once, and
      safe keys give a schema that reads back. */
  lemma SchemaOfSafe(rec: Record)
    requires DistinctKeys(rec) && forall j :: 0 <= j < |rec| ==> SafeKey(rec[j].0)
    ensures DistinctKeys(E.SchemaOf(rec)) && SafeSchema(E.SchemaOf(rec))
  {
    var schema := E.SchemaOf(rec);
    forall j | 0 <= j < |schema| ensures SafeKey(schema[j].0) && TagText(schema[j].1) {
      TypeTagText(rec[j].1);
    }
  }

  /** Choosing defaults over columns with distinct names never repeats a name. */
  lemma {:induction false} ChooseDefaultsDistinct(acc: Dict<Value>, fv: Dict<seq<Value>>)
    requires DistinctKeys(acc)
    ensures DistinctKeys(E.ChooseDefaults(acc, fv))
    decreases |fv|
  {
    if fv != [] {
      var acc' := match E.DefaultFor(fv[0].1) case Some(d) => Put(acc, fv[0].0, d) case None => acc;
      if E.DefaultFor(fv[0].1).Some? {
        EP.PutDistinct(acc, fv[0].0, E.DefaultFor(fv[0].1).value);
      }
      ChooseDefaultsDistinct(acc', fv[1..]);
    }
  }

  /** The defaults the encoder picks name each column at most once. */
  lemma ChosenDistinct(records: seq<Value>, optimize: bool)
    requires ChosenDefaults(records, optimize).Success?
    ensures DistinctKeys(ChosenDefaults(records, optimize).value)
  {
    if records != [] && optimize {
      var sample := records[..E.SampleSize(|records|)];
      ChooseDefaultsDistinct([], E.FieldValues(E.Fields(sample)));
    }
  }

  /** A row with at least one field whose literals have the literal shape
      is read back as one data line. */
  lemma RowTextOf(fs: seq<string>)
    requires fs != [] && forall i :: 0 <= i < |fs| ==> LiteralShape(fs[i])
    ensures RowText(Join(", ", fs))
  {
    var row := Join(", ", fs);
    JoinEnds(fs);
    JoinFirst(", ", fs);
    JoinLast(", ", fs);
    JoinFree(", ", fs, '\n');
  }

  /** The records a round trip covers under a schema and defaults: dicts
      with distinct keys, the first ks[i] columns of record i written and
      readable, the rest elided, and at least one column written. */
  predicate Covered(records: seq<Value>, schema: Schema, defaults: Dict<Value>, ks: seq<nat>) {
    |ks| == |records| &&
    forall i :: 0 <= i < |records| ==>
      records[i].Obj? && DistinctKeys(records[i].fields) && 0 < ks[i] &&
      ElidedFrom(records[i].fields, schema, defaults, ks[i]) && WrittenSafe(records[i].fields, schema, ks[i])
  }

  /** The rows of covered records are data lines. */
  lemma RowsReadable(records: seq<Value>, schema: Schema, defaults: Dict<Value>, ks: seq<nat>)
    requires Covered(records, schema, defaults, ks)
    ensures var rows := RowTexts(records, schema, defaults);
      forall k :: 0 <= k < |rows| ==> RowText(rows[k])
  {
    var rows := RowTexts(records, schema, defaults);
    forall k | 0 <= k < |rows| ensures RowText(rows[k]) {
      var fs := E.RowFields(records[k].fields, schema, defaults);
      RowWritten(records[k].fields, schema, defaults, ks[k]);
      RowFieldsSafe(fs, records[k].fields, schema, ks[k]);
      RowTextOf(fs);
    }
  }

  /** RecordsOf parses row i into record i. */
  lemma {:induction false} RecordsOfAt(rows: seq<string>, schema: Schema, defaults: Dict<Value>, dictionary: Dict<string>, i: nat)
    requires i < |rows|
    ensures D.RecordsOf(rows, schema, defaults, dictionary)[i] == D.RecordOf(rows[i], schema, defaults, dictionary)
    decreases |rows|
  {
    var init := rows[..|rows| - 1];
    var front := D.RecordsOf(init, schema, defaults, dictionary);
    assert D.RecordsOf(rows, schema, defaults, dictionary) == front + [D.RecordOf(rows[|rows| - 1], schema, defaults, dictionary)];
    if i < |rows| - 1 {
      RecordsOfAt(init, schema, defaults, dictionary, i);
      assert init[i] == rows[i];
    }
  }

  /** Column j of record i, read back from its row under the decoded
      defaults: the record's value where it was written, the default
      (equal to the record's value) where it was elided. */
  lemma RecordBack(records: seq<Value>, schema: Schema, defaults: Dict<Value>, ks: seq<nat>, i: nat, j: nat)
    requires Covered(records, schema, defaults, ks) && DistinctKeys(schema) && DistinctKeys(defaults)
    requires i < |records| && j < |schema|
    ensures var got := Get(D.RecordOf(RowTexts(records, schema, defaults)[i], schema, E.SortByKey(defaults), []), schema[j].0);
      var v := E.FieldValue(records[i].fields, schema[j].0);
      if j < ks[i] then got == Some(v) else got == Get(defaults, schema[j].0) && got.Some? && PyEq(v, got.value)
  {
    var rec := records[i].fields;
    if j < ks[i] {
      RecordWritten(rec, schema, defaults, E.SortByKey(defaults), ks[i], j);
    } else {
      SortByKeyGet(defaults, schema[j].0);
      RecordDefaulted(rec, schema, defaults, E.SortByKey(defaults), ks[i], j);
    }
  }

  // ---------------------------------------------------------------------
  // decode(encode(document)) for one table

  /** What a column of a decoded record holds: the record's value where the
      row wrote it; where the row left it out, the table's default, which
      Python's == finds equal to the record's value. */
  predicate ColumnBack(got: Option<Value>, v: Value, written: bool, default: Option<Value>) {
    if written then got == Some(v) else got == default && got.Some? && PyEq(v, got.value)
  }

  /** The decoded records hold the covered records' values column by column. */
  predicate TableBack(out: seq<Record>, records: seq<Value>, schema: Schema, defaults: Dict<Value>, ks: seq<nat>)
    requires Covered(records, schema, defaults, ks)
  {
    |out| == |records| &&
    forall i, j :: 0 <= i < |records| && 0 <= j < |schema| ==>
      ColumnBack(Get(out[i], schema[j].0), E.FieldValue(records[i].fields, schema[j].0), j < ks[i], Get(defaults, schema[j].0))
  }

  /** The rows of covered records parse back into them. */
  lemma RecordsBack(records: seq<Value>, schema: Schema, defaults: Dict<Value>, ks: seq<nat>)
    requires Covered(records, schema, defaults, ks) && DistinctKeys(schema) && DistinctKeys(defaults)
    ensures TableBack(D.RecordsOf(RowTexts(records, schema, defaults), schema, E.SortByKey(defaults), []), records, schema, defaults, ks)
  {
    var rows := RowTexts(records, schema, defaults);
    var out := D.RecordsOf(rows, schema, E.SortByKey(defaults), []);
    forall i, j | 0 <= i < |records| && 0 <= j < |schema|
      ensures ColumnBack(Get(out[i], schema[j].0), E.FieldValue(records[i].fields, schema[j].0), j < ks[i], Get(defaults, schema[j].0))
    {
      RecordsOfAt(rows, schema, E.SortByKey(defaults), [], i);
      RecordBack(records, schema, defaults, ks, i, j);
    }
  }

  /** The text the encoder writes for a document holding one table of dicts
      is the table's parts, one per line. */
  lemma TableText(name: string, records: seq<Value>, optimize: bool, queryable: bool, defaults: Dict<Value>)
    requires forall i :: 0 <= i < |records| ==> records[i].Obj?
    requires ChosenDefaults(records, optimize) == Success(defaults)
    requires E.TableSchema(records) != [] || records == []
    ensures E.Layout([], Obj([(name, Arr(records))]), optimize, queryable) ==
      Success(Join("\n", Head(name, E.TableSchema(records), defaults, queryable) + ["\n" + E.Header(name, |records|)] +
        Indent(RowTexts(records, E.TableSchema(records), defaults))))
  {
    TablePartsOf(name, records, optimize, queryable, defaults);
    LayoutOf(name, records, optimize, queryable, E.TableParts(name, records, optimize, queryable).value);
  }

  /** A fresh decoder reads the text of a readable table's parts as that one
      table. */
  lemma TableDecodes(text: string, name: string, schema: Schema, defaults: Dict<Value>, queryable: bool, rows: seq<string>)
    requires Readable(name, schema, defaults, rows)
    requires text == Join("\n", Head(name, schema, defaults, queryable) + ["\n" + E.Header(name, |rows|)] + Indent(rows))
    ensures D.DecodeSpec(text, []) == (Success([(name, D.RecordsOf(rows, schema, E.SortByKey(defaults), []))]), [])
  {
    LinesAreTable(text, name, schema, defaults, queryable, rows);
    TableScan(D.Lines(text), name, schema, defaults, queryable, rows);
  }

  /** decode(encode({name: records})) on an uncompressed layout and a fresh
      decoder, for a table whose name, keys and defaults read back and whose
      rows each write a prefix of the schema: one table of that name, one
      record per record, each column holding the record's value or a
      default equal to it. */
  lemma OneTableRoundTrip(name: string, records: seq<Value>, optimize: bool, queryable: bool, defaults: Dict<Value>, ks: seq<nat>)
    requires DP.TableName(name) && '\n' !in name
    requires records != [] ==> records[0].Obj? && forall j :: 0 <= j < |records[0].fields| ==> SafeKey(records[0].fields[j].0)
    requires ChosenDefaults(records, optimize) == Success(defaults) && SafeDefaults(defaults)
    requires Covered(records, E.TableSchema(records), defaults, ks)
    ensures E.Layout([], Obj([(name, Arr(records))]), optimize, queryable).Success?
    ensures var decoded := D.DecodeSpec(E.Layout([], Obj([(name, Arr(records))]), optimize, queryable).value, []);
      decoded.1 == [] && decoded.0.Success? && |decoded.0.value| == 1 && decoded.0.value[0].0 == name &&
      TableBack(decoded.0.value[0].1, records, E.TableSchema(records), defaults, ks)
  {
    var schema := E.TableSchema(records);
    if records != [] {
      SchemaOfSafe(records[0].fields);
      assert 0 < ks[0] <= |schema|;
    }
    ChosenDistinct(records, optimize);
    var rows := RowTexts(records, schema, defaults);
    RowsReadable(records, schema, defaults, ks);
    TableText(name, records, optimize, queryable, defaults);
    TableDecodes(Join("\n", Head(name, schema, defaults, queryable) + ["\n" + E.Header(name, |rows|)] + Indent(rows)),
      name, schema, defaults, queryable, rows);
    RecordsBack(records, schema, defaults, ks);
  }
}
