/** The ATON encoder (core/encoder.py): validation of the document, schema
    and defaults inference, row rendering, and the line layout of a
    document: an optional @dict line, then per table its @schema line, an
    optional @defaults and @queryable line, a blank line, the header
    `name(n):` and one indented row per record. */
module Encoder {
  import opened Wrappers
  import opened Text
  import opened Values
  import opened Errors
  import opened Literals
  import opened Compression
  import opened CompressionEngine
  import opened QueryAst
  import opened QueryParsing
  import opened QueryEngine

  // ---------------------------------------------------------------------
  // _validate_data

  /** The index of the first record that is not a dict. */
  function FirstNonDict(records: seq<Value>): (r: Option<nat>)
    ensures r.Some? ==> r.value < |records| && !records[r.value].Obj?
    ensures r.Some? ==> forall j :: 0 <= j < r.value ==> records[j].Obj?
    ensures r.None? ==> forall j :: 0 <= j < |records| ==> records[j].Obj?
  {
    if records == [] then None
    else if !records[0].Obj? then Some(0)
    else match FirstNonDict(records[1..])
      case None => None
      case Some(i) => Some(i + 1)
  }

  /** What is wrong with one table, if anything. */
  function TableFault(name: string, table: Value): Option<EncodingFault> {
    if !table.Arr? then Some(TableNotList(name))
    else match FirstNonDict(table.items)
      case Some(i) => Some(RecordNotDictionary(i, name))
      case None => None
  }

  /** The fault of the first faulty table. */
  function TablesFault(tables: seq<(string, Value)>): (r: Option<EncodingFault>)
    ensures r.None? <==> forall t :: 0 <= t < |tables| ==> TableFault(tables[t].0, tables[t].1).None?
  {
    if tables == [] then None
    else match TableFault(tables[0].0, tables[0].1)
      case Some(f) => Some(f)
      case None =>
        assert forall t :: 1 <= t < |tables| ==> tables[t] == tables[1..][t - 1];
        TablesFault(tables[1..])
  }

  /** _validate_data: None when the document is accepted. */
  function ValidateSpec(data: Value): Option<EncodingFault> {
    if !data.Obj? then Some(DataNotDictionary) else TablesFault(data.fields)
  }

  /** A dict whose every table is a list of dicts. */
  predicate IsDocument(data: Value) {
    data.Obj? &&
    forall t :: 0 <= t < |data.fields| ==> TableOfDicts(data.fields[t].1)
  }

  predicate TableOfDicts(table: Value) {
    table.Arr? && forall i :: 0 <= i < |table.items| ==> table.items[i].Obj?
  }

  /** _validate_data: the tables in order, each record of a table in order. */
  method ValidateData(data: Value) returns (fault: Option<EncodingFault>)
    ensures fault == ValidateSpec(data)
  {
    if !data.Obj? {
      return Some(DataNotDictionary);
    }
    var tables := data.fields;
    var t := 0;
    while t < |tables|
      invariant 0 <= t <= |tables|
      invariant TablesFault(tables[t..]) == TablesFault(tables)
    {
      var (name, records) := tables[t];
      assert tables[t..][0] == tables[t] && tables[t..][1..] == tables[t + 1..];
      if !records.Arr? {
        return Some(TableNotList(name));
      }
      var i := 0;
      while i < |records.items|
        invariant 0 <= i <= |records.items|
        invariant forall j :: 0 <= j < i ==> records.items[j].Obj?
      {
        if !records.items[i].Obj? {
          return Some(RecordNotDictionary(i, name));
        }
        i := i + 1;
      }
      t := t + 1;
    }
    assert tables[t..] == [];
    fault := None;
  }

  // ---------------------------------------------------------------------
  // _infer_schema

  /** The record's keys in order, each with the type tag of its value. */
  function SchemaOf(record: Record): Schema {
    seq(|record|, i requires 0 <= i < |record| => (record[i].0, TypeTag(record[i].1)))
  }

  method InferSchema(record: Record) returns (schema: Schema)
    ensures schema == SchemaOf(record)
  {
    schema := [];
    var i := 0;
    while i < |record|
      invariant 0 <= i <= |record|
      invariant |schema| == i
      invariant forall j :: 0 <= j < i ==> schema[j] == (record[j].0, TypeTag(record[j].1))
    {
      var (key, value) := record[i];
      schema := schema + [(key, TypeTag(value))];
      i := i + 1;
    }
  }

  // ---------------------------------------------------------------------
  // _infer_defaults

  /** Counter's count for v: the number of values == v. */
  function Occurrences(values: seq<Value>, v: Value): (n: nat)
    ensures n <= |values|
  {
    if values == [] then 0
    else (if PyEq(values[0], v) then 1 else 0) + Occurrences(values[1..], v)
  }

  /** Each value's count. */
  function Counts(values: seq<Value>): (c: seq<nat>)
    ensures |c| == |values|
    ensures forall k :: 0 <= k < |values| ==> c[k] == Occurrences(values, values[k])
  {
    seq(|values|, k requires 0 <= k < |values| => Occurrences(values, values[k]))
  }

  /** The first position of a largest count (most_common keeps the first
      counted of equal counts). */
  function FirstMax(c: seq<nat>): (i: nat)
    requires c != []
    ensures i < |c|
    ensures forall j :: 0 <= j < |c| ==> c[j] <= c[i]
    ensures forall j :: 0 <= j < i ==> c[j] < c[i]
  {
    if |c| == 1 then 0
    else
      var b := FirstMax(c[..|c| - 1]);
      assert forall j :: 0 <= j < |c| - 1 ==> c[j] == c[..|c| - 1][j];
      if c[b] < c[|c| - 1] then |c| - 1 else b
  }

  /** Counter(values).most_common(1)[0], kept iff count / len(values) > 0.6
      (exact for the at most 100 sampled values); None where Counter raises
      a TypeError on an unhashable value. */
  function DefaultFor(values: seq<Value>): Option<Value> {
    if values == [] || exists k :: 0 <= k < |values| && !IsHashable(values[k]) then None
    else
      var i := FirstMax(Counts(values));
      if 5 * Occurrences(values, values[i]) > 3 * |values| then Some(values[i]) else None
  }

  /** The value appended to the column of values collected for key. */
  function AddValue(fv: Dict<seq<Value>>, key: string, v: Value): Dict<seq<Value>> {
    Put(fv, key, Get(fv, key).GetOr([]) + [v])
  }

  /** The values of one record added in its key order. */
  function AddRecord(fv: Dict<seq<Value>>, rec: Record): Dict<seq<Value>>
    decreases |rec|
  {
    if rec == [] then fv else AddRecord(AddValue(fv, rec[0].0, rec[0].1), rec[1..])
  }

  /** The values of the records added in order: field_values. */
  function FieldValues(records: seq<Record>): Dict<seq<Value>>
    decreases |records|
  {
    if records == [] then [] else AddRecord(FieldValues(records[..|records| - 1]), records[|records| - 1])
  }

  /** defaults[field] = most_common for every field whose test passes. */
  function ChooseDefaults(acc: Dict<Value>, fv: Dict<seq<Value>>): Dict<Value>
    decreases |fv|
  {
    if fv == [] then acc
    else
      var acc' := match DefaultFor(fv[0].1) case Some(d) => Put(acc, fv[0].0, d) case None => acc;
      ChooseDefaults(acc', fv[1..])
  }

  function SampleSize(n: nat): (s: nat)
    ensures s <= n && s <= 100 && (s == n || s == 100)
  {
    if n < 100 then n else 100
  }

  /** The dicts' items. */
  function Fields(rs: seq<Value>): (fs: seq<Record>)
    requires forall k :: 0 <= k < |rs| ==> rs[k].Obj?
    ensures |fs| == |rs| && forall k :: 0 <= k < |rs| ==> fs[k] == rs[k].fields
  {
    seq(|rs|, k requires 0 <= k < |rs| => rs[k].fields)
  }

  /** _infer_defaults: only the first min(100, n) records are looked at;
      .items() of a sampled record that is not a dict raises. */
  function DefaultsSpec(records: seq<Value>): Result<Dict<Value>, Error> {
    var sample := records[..SampleSize(|records|)];
    if FirstNonDict(sample).Some? then Failure(AttributeError)
    else Success(ChooseDefaults([], FieldValues(Fields(sample))))
  }

  method InferDefaults(records: seq<Value>) returns (r: Result<Dict<Value>, Error>)
    ensures r == DefaultsSpec(records)
  {
    var sample := records[..SampleSize(|records|)];
    var fieldValues := CollectFieldValues(sample);
    if fieldValues.Failure? {
      return Failure(fieldValues.error);
    }
    var defaults := PickDefaults(fieldValues.value);
    r := Success(defaults);
  }

  /** The first loop of _infer_defaults: every sampled record's items, in order. */
  method CollectFieldValues(sample: seq<Value>) returns (r: Result<Dict<seq<Value>>, Error>)
    ensures FirstNonDict(sample).Some? ==> r == Failure(AttributeError)
    ensures FirstNonDict(sample).None? ==> r == Success(FieldValues(Fields(sample)))
  {
    var fieldValues: Dict<seq<Value>> := [];
    var i := 0;
    while i < |sample|
      invariant 0 <= i <= |sample|
      invariant forall j :: 0 <= j < i ==> sample[j].Obj?
      invariant fieldValues == FieldValues(Fields(sample[..i]))
    {
      if !sample[i].Obj? {
        NonDictFound(sample, i);
        return Failure(AttributeError);
      }
      FieldsSnoc(sample, i);
      fieldValues := AddRecordValues(fieldValues, sample[i].fields);
      i := i + 1;
    }
    assert sample[..i] == sample;
    r := Success(fieldValues);
  }

  lemma NonDictFound(sample: seq<Value>, i: nat)
    requires i < |sample| && !sample[i].Obj?
    ensures FirstNonDict(sample).Some?
  {
  }

  lemma FieldsSnoc(rs: seq<Value>, i: nat)
    requires i < |rs| && forall j :: 0 <= j <= i ==> rs[j].Obj?
    ensures FieldValues(Fields(rs[..i + 1])) == AddRecord(FieldValues(Fields(rs[..i])), rs[i].fields)
  {
    var fs := Fields(rs[..i + 1]);
    assert fs[..i] == Fields(rs[..i]);
    assert fs[i] == rs[i].fields;
  }

  /** The second loop of _infer_defaults: a default for every field whose test passes. */
  method PickDefaults(fieldValues: Dict<seq<Value>>) returns (defaults: Dict<Value>)
    ensures defaults == ChooseDefaults([], fieldValues)
  {
    defaults := [];
    var k := 0;
    while k < |fieldValues|
      invariant 0 <= k <= |fieldValues|
      invariant ChooseDefaults(defaults, fieldValues[k..]) == ChooseDefaults([], fieldValues)
    {
      var (field, values) := fieldValues[k];
      assert fieldValues[k..][0] == fieldValues[k] && fieldValues[k..][1..] == fieldValues[k + 1..];
      var best := DefaultFor(values);
      if best.Some? {
        defaults := Put(defaults, field, best.value);
      }
      k := k + 1;
    }
  }

  /** Each entry of the record appended, in order, to the column of values
      collected for its key. */
  method AddRecordValues(fv: Dict<seq<Value>>, rec: Record) returns (r: Dict<seq<Value>>)
    ensures r == AddRecord(fv, rec)
  {
    r := fv;
    var j := 0;
    while j < |rec|
      invariant 0 <= j <= |rec|
      invariant AddRecord(r, rec[j..]) == AddRecord(fv, rec)
    {
      assert rec[j..][0] == rec[j] && rec[j..][1..] == rec[j + 1..];
      var (key, value) := rec[j];
      r := AddValue(r, key, value);
      j := j + 1;
    }
  }

  // ---------------------------------------------------------------------
  // _format_record

  /** record.get(name), None when absent. */
  function FieldValue(record: Record, name: string): Value {
    Get(record, name).GetOr(Null)
  }

  /** The column is left out of the row: it has a default and the value == it. */
  predicate Elided(record: Record, name: string, defaults: Dict<Value>) {
    HasKey(defaults, name) && PyEq(FieldValue(record, name), Get(defaults, name).value)
  }

  /** The literals of the columns that are not elided, in schema order. */
  function RowFields(record: Record, schema: Schema, defaults: Dict<Value>): seq<string>
    decreases |schema|
  {
    if schema == [] then []
    else
      var name := schema[|schema| - 1].0;
      RowFields(record, schema[..|schema| - 1], defaults) +
        (if Elided(record, name, defaults) then [] else [FormatValue(FieldValue(record, name))])
  }

  /** _format_record: .get() on a record that is not a dict raises (it is
      only called when the schema has a column). */
  function RowSpec(record: Value, schema: Schema, defaults: Dict<Value>): Result<string, Error> {
    if schema == [] then Success("")
    else if !record.Obj? then Failure(AttributeError)
    else Success(Join(", ", RowFields(record.fields, schema, defaults)))
  }

  method FormatRecord(record: Value, schema: Schema, defaults: Dict<Value>) returns (r: Result<string, Error>)
    ensures r == RowSpec(record, schema, defaults)
  {
    if schema == [] {
      return Success("");
    }
    if !record.Obj? {
      return Failure(AttributeError);
    }
    var values: seq<string> := [];
    var i := 0;
    while i < |schema|
      invariant 0 <= i <= |schema|
      invariant values == RowFields(record.fields, schema[..i], defaults)
    {
      var (name, _) := schema[i];
      assert schema[..i + 1][..i] == schema[..i] && schema[..i + 1][i].0 == name;
      var value := FieldValue(record.fields, name);
      if !(HasKey(defaults, name) && PyEq(value, Get(defaults, name).value)) {
        values := values + [FormatValue(value)];
      }
      i := i + 1;
    }
    assert schema[..i] == schema;
    r := Success(Join(", ", values));
  }

  // ---------------------------------------------------------------------
  // _format_schema, _format_defaults, _format_dictionary

  function SchemaEntries(schema: Schema): (es: seq<string>)
    ensures |es| == |schema|
    ensures forall k :: 0 <= k < |schema| ==> es[k] == schema[k].0 + ":" + schema[k].1
  {
    seq(|schema|, k requires 0 <= k < |schema| => schema[k].0 + ":" + schema[k].1)
  }

  /** _format_schema */
  function SchemaLine(schema: Schema): string {
    "@schema[" + Join(", ", SchemaEntries(schema)) + "]"
  }

  /** Insert x before the first entry whose key is not smaller. */
  function Insert<V>(x: (string, V), d: Dict<V>): (r: Dict<V>)
    ensures |r| == |d| + 1
  {
    if d == [] then [x]
    else if StrLess(d[0].0, x.0) then [d[0]] + Insert(x, d[1..])
    else [x] + d
  }

  /** sorted(d.items()) for a dict: its keys are distinct, so the values
      are never compared. */
  function SortByKey<V>(d: Dict<V>): (r: Dict<V>)
    ensures |r| == |d|
  {
    if d == [] then [] else Insert(d[0], SortByKey(d[1..]))
  }

  /** key:literal entries of a defaults line. */
  function DefaultEntries(d: Dict<Value>): seq<string>
    decreases |d|
  {
    if d == [] then []
    else DefaultEntries(d[..|d| - 1]) + [d[|d| - 1].0 + ":" + FormatQuoted(d[|d| - 1].1)]
  }

  function DefaultsLine(defaults: Dict<Value>): string {
    "@defaults[" + Join(", ", DefaultEntries(SortByKey(defaults))) + "]"
  }

  /** key:"escaped" entries of a dictionary line. */
  function DictEntries(d: Dict<string>): seq<string>
    decreases |d|
  {
    if d == [] then []
    else DictEntries(d[..|d| - 1]) + [d[|d| - 1].0 + ":" + Quote(d[|d| - 1].1)]
  }

  function DictionaryLine(dictionary: Dict<string>): string {
    "@dict[" + Join(", ", DictEntries(SortByKey(dictionary))) + "]"
  }

  method FormatDefaults(defaults: Dict<Value>) returns (line: string)
    ensures line == DefaultsLine(defaults)
  {
    var items := SortByKey(defaults);
    var entries: seq<string> := [];
    var i := 0;
    while i < |items|
      invariant 0 <= i <= |items|
      invariant entries == DefaultEntries(items[..i])
    {
      var (key, value) := items[i];
      assert items[..i + 1][..i] == items[..i] && items[..i + 1][i] == items[i];
      entries := entries + [key + ":" + FormatQuoted(value)];
      i := i + 1;
    }
    assert items[..i] == items;
    line := "@defaults[" + Join(", ", entries) + "]";
  }

  method FormatDictionary(dictionary: Dict<string>) returns (line: string)
    ensures line == DictionaryLine(dictionary)
  {
    var items := SortByKey(dictionary);
    var entries: seq<string> := [];
    var i := 0;
    while i < |items|
      invariant 0 <= i <= |items|
      invariant entries == DictEntries(items[..i])
    {
      var (key, value) := items[i];
      assert items[..i + 1][..i] == items[..i] && items[..i + 1][i] == items[i];
      entries := entries + [key + ":" + Quote(value)];
      i := i + 1;
    }
    assert items[..i] == items;
    line := "@dict[" + Join(", ", entries) + "]";
  }

  // ---------------------------------------------------------------------
  // encode

  /** The table header line. */
  function Header(name: string, n: nat): string {
    name + "(" + IntToString(n) + "):"
  }

  /** The rows of the remaining records after the rows acc; the first
      record that cannot be formatted stops the loop. */
  function RowsFrom(records: seq<Value>, schema: Schema, defaults: Dict<Value>, acc: seq<string>): Result<seq<string>, Error>
    decreases |records|
  {
    if records == [] then Success(acc)
    else
      match RowSpec(records[0], schema, defaults)
      case Failure(e) => Failure(e)
      case Success(row) => RowsFrom(records[1..], schema, defaults, acc + ["  " + row])
  }

  /** One indented row per record. */
  function RowsSpec(records: seq<Value>, schema: Schema, defaults: Dict<Value>): Result<seq<string>, Error> {
    RowsFrom(records, schema, defaults, [])
  }

  /** The schema of a table: the first record's, or none for an empty table. */
  function TableSchema(records: seq<Value>): Schema
    requires records != [] ==> records[0].Obj?
  {
    if records == [] then [] else SchemaOf(records[0].fields)
  }

  /** The parts of one table: @schema, @defaults when there are any,
      @queryable when asked for, the header after a blank line, the rows. */
  function TableParts(name: string, records: seq<Value>, optimize: bool, queryable: bool): Result<seq<string>, Error> {
    if records != [] && !records[0].Obj? then Failure(AttributeError)
    else
      var schema := TableSchema(records);
      var defaults :- if records != [] && optimize then DefaultsSpec(records) else Success([]);
      var rows :- RowsSpec(records, schema, defaults);
      Success([SchemaLine(schema)] + (if defaults != [] then [DefaultsLine(defaults)] else []) +
              (if queryable then ["@queryable[" + name + "]"] else []) +
              ["\n" + Header(name, |records|)] + rows)
  }

  /** The parts of a table of dicts once its defaults are chosen: the head
      lines, the header, then the rows, unless a row fails. */
  lemma TablePartsFrom(name: string, records: seq<Value>, optimize: bool, queryable: bool, defaults: Dict<Value>)
    requires records == [] || records[0].Obj?
    requires if records != [] && optimize then DefaultsSpec(records) == Success(defaults) else defaults == []
    ensures var schema := TableSchema(records);
      TableParts(name, records, optimize, queryable) ==
        match RowsSpec(records, schema, defaults)
        case Failure(e) => Failure(e)
        case Success(rows) =>
          Success([SchemaLine(schema)] + (if defaults != [] then [DefaultsLine(defaults)] else []) +
                  (if queryable then ["@queryable[" + name + "]"] else []) + ["\n" + Header(name, |records|)] + rows)
  {
  }

  /** The parts of the remaining tables after the parts acc: tables that
      are not lists are skipped. */
  function BodyFrom(tables: seq<(string, Value)>, optimize: bool, queryable: bool, acc: seq<string>): Result<seq<string>, Error>
    decreases |tables|
  {
    if tables == [] then Success(acc)
    else if !tables[0].1.Arr? then BodyFrom(tables[1..], optimize, queryable, acc)
    else
      match TableParts(tables[0].0, tables[0].1.items, optimize, queryable)
      case Failure(e) => Failure(e)
      case Success(more) => BodyFrom(tables[1..], optimize, queryable, acc + more)
  }

  function BodyParts(tables: seq<(string, Value)>, optimize: bool, queryable: bool): Result<seq<string>, Error> {
    BodyFrom(tables, optimize, queryable, [])
  }

  /** The text of a (possibly compressed) document with its dictionary:
      .items() of a document that is not a dict raises. */
  function Layout(dictionary: Dict<string>, data: Value, optimize: bool, queryable: bool): Result<string, Error> {
    if !data.Obj? then Failure(AttributeError)
    else
      var body :- BodyParts(data.fields, optimize, queryable);
      Success(Join("\n", (if dictionary != [] then [DictionaryLine(dictionary), ""] else []) + body))
  }

  /** metadata.get('dictionary', {}) */
  function DictionaryIn(metadata: Metadata): Dict<string> {
    var m := Get(metadata, "dictionary");
    if m.Some? && m.value.DictionaryMeta? then m.value.entries else []
  }

  /** The encoder's settings. */
  datatype Config = Config(optimize: bool, queryable: bool, validate: bool, mode: Mode)

  /** "Encoding failed: ..." around every exception of encode. */
  function EncodingWrap(r: Result<string, Error>): Result<string, Error> {
    match r
    case Success(_) => r
    case Failure(e) => Failure(EncodingFailed(e))
  }

  /** encode(data, compress): the text or the error, and the state of the
      engine's dictionary instance afterwards.  The serialized size and the
      delta estimate the adaptive mode consults are given. */
  function EncodeSpec(c: Config, data: Value, compress: bool, size: nat, deltaEstimate: Ratio, st: DictState): (Result<string, Error>, DictState) {
    if c.validate && ValidateSpec(data).Some? then
      (Failure(EncodingFailed(EncodingError(ValidateSpec(data).value))), st)
    else if compress && c.mode != Fast then
      var s := Run(c.mode, data, size, deltaEstimate, st);
      (EncodingWrap(Layout(DictionaryIn(s.metadata), s.compressed, c.optimize, c.queryable)), s.state)
    else
      (EncodingWrap(Layout([], data, c.optimize, c.queryable)), st)
  }

  /** The document {name: records, ...} of query data. */
  function Document(data: Data): Value {
    Obj(seq(|data|, t requires 0 <= t < |data| =>
      (data[t].0, Arr(seq(|data[t].1|, i requires 0 <= i < |data[t].1| => Obj(data[t].1[i]))))))
  }

  /** encode_with_query(data, query_string) */
  function EncodeWithQuerySpec(c: Config, data: Data, query: string, size: nat, deltaEstimate: Ratio, st: DictState): (Result<string, Error>, DictState) {
    match ParseSpec("@query[" + query + "]")
    case Failure(e) => (Failure(QueryEncodingFailed(e)), st)
    case Success(q) =>
      match Execute(data, q)
      case Failure(e) => (Failure(QueryEncodingFailed(e)), st)
      case Success(filtered) =>
        var enc := EncodeSpec(c, Document([(q.table, filtered)]), true, size, deltaEstimate, st);
        match enc.0
        case Failure(e) => (Failure(QueryEncodingFailed(e)), enc.1)
        case Success(text) => (Success("@query[" + query + "]\n\n" + text), enc.1)
  }

  /** The parts of one table, built as encode builds them. */
  method EncodeTable(name: string, records: seq<Value>, optimize: bool, queryable: bool) returns (r: Result<seq<string>, Error>)
    ensures r == TableParts(name, records, optimize, queryable)
  {
    if records != [] && !records[0].Obj? {
      return Failure(AttributeError);
    }
    var schema: Schema := [];
    var defaults: Dict<Value> := [];
    if records != [] {
      schema := InferSchema(records[0].fields);
      if optimize {
        var inferred := InferDefaults(records);
        if inferred.Failure? {
          assert TableParts(name, records, optimize, queryable) == Failure(inferred.error);
          return Failure(inferred.error);
        }
        defaults := inferred.value;
      }
    }
    var parts := [SchemaLine(schema)];
    if defaults != [] {
      var line := FormatDefaults(defaults);
      parts := parts + [line];
    }
    if queryable {
      parts := parts + ["@queryable[" + name + "]"];
    }
    parts := parts + ["\n" + Header(name, |records|)];
    assert schema == TableSchema(records);
    TablePartsFrom(name, records, optimize, queryable, defaults);
    var rows := FormatRows(records, schema, defaults);
    if rows.Failure? {
      return Failure(rows.error);
    }
    assert parts == [SchemaLine(schema)] + (if defaults != [] then [DefaultsLine(defaults)] else []) +
              (if queryable then ["@queryable[" + name + "]"] else []) + ["\n" + Header(name, |records|)];
    r := Success(parts + rows.value);
  }

  /** The rows of a table, each indented by two spaces: the loop over the
      records. */
  method FormatRows(records: seq<Value>, schema: Schema, defaults: Dict<Value>) returns (r: Result<seq<string>, Error>)
    ensures r == RowsSpec(records, schema, defaults)
  {
    var rows: seq<string> := [];
    var i := 0;
    while i < |records|
      invariant 0 <= i <= |records|
      invariant RowsFrom(records[i..], schema, defaults, rows) == RowsSpec(records, schema, defaults)
    {
      assert records[i..][0] == records[i] && records[i..][1..] == records[i + 1..];
      var row := FormatRecord(records[i], schema, defaults);
      if row.Failure? {
        return Failure(row.error);
      }
      rows := rows + ["  " + row.value];
      i := i + 1;
    }
    assert records[i..] == [];
    return Success(rows);
  }

  /** The text of a document and its dictionary: the loop over the tables. */
  method BuildLayout(dictionary: Dict<string>, data: Value, optimize: bool, queryable: bool) returns (r: Result<string, Error>)
    ensures r == Layout(dictionary, data, optimize, queryable)
  {
    if !data.Obj? {
      return Failure(AttributeError);
    }
    var parts: seq<string> := [];
    if dictionary != [] {
      var line := FormatDictionary(dictionary);
      parts := [line, ""];
    }
    var tables := data.fields;
    var body: seq<string> := [];
    var t := 0;
    while t < |tables|
      invariant 0 <= t <= |tables|
      invariant BodyFrom(tables[t..], optimize, queryable, body) == BodyParts(tables, optimize, queryable)
    {
      assert tables[t..][0] == tables[t] && tables[t..][1..] == tables[t + 1..];
      var (name, records) := tables[t];
      if records.Arr? {
        var more := EncodeTable(name, records.items, optimize, queryable);
        if more.Failure? {
          return Failure(more.error);
        }
        body := body + more.value;
      }
      t := t + 1;
    }
    assert tables[t..] == [];
    r := Success(Join("\n", parts + body));
  }

  class Encoder {
    const optimize: bool
    const queryable: bool
    const validate: bool
    const mode: Mode
    /** The compression engine, created in the encoder's mode. */
    const engine: Engine

    ghost predicate Valid() {
      engine.mode == mode
    }

    function Settings(): Config {
      Config(optimize, queryable, validate, mode)
    }

    constructor(optimize: bool, mode: Mode, queryable: bool, validate: bool)
      ensures Valid() && fresh(engine) && fresh(engine.dictionaryAlgorithm)
      ensures Settings() == Config(optimize, queryable, validate, mode)
      ensures engine.State() == DictState(5, 3, [], 0)
    {
      this.optimize := optimize;
      this.queryable := queryable;
      this.validate := validate;
      this.mode := mode;
      engine := new Engine(mode);
    }

    /** encode(data, compress) */
    method Encode(data: Value, compress: bool, size: nat, deltaEstimate: Ratio) returns (r: Result<string, Error>)
      requires Valid()
      modifies engine.dictionaryAlgorithm
      ensures (r, engine.State()) == EncodeSpec(Settings(), data, compress, size, deltaEstimate, old(engine.State()))
    {
      if validate {
        var fault := ValidateData(data);
        if fault.Some? {
          return Failure(EncodingFailed(EncodingError(fault.value)));
        }
      }
      var compressed := data;
      var dictionary: Dict<string> := [];
      if compress && mode != Fast {
        var metadata;
        compressed, metadata := engine.Compress(data, size, deltaEstimate);
        dictionary := DictionaryIn(metadata);
      }
      var text := BuildLayout(dictionary, compressed, optimize, queryable);
      r := EncodingWrap(text);
    }

    /** encode_with_query(data, query_string) */
    method EncodeWithQuery(data: Data, query: string, size: nat, deltaEstimate: Ratio) returns (r: Result<string, Error>)
      requires Valid()
      modifies engine.dictionaryAlgorithm
      ensures (r, engine.State()) == EncodeWithQuerySpec(Settings(), data, query, size, deltaEstimate, old(engine.State()))
    {
      var parsed := ParseSpec("@query[" + query + "]");
      if parsed.Failure? {
        return Failure(QueryEncodingFailed(parsed.error));
      }
      var q := parsed.value;
      var filtered := Execute(data, q);
      if filtered.Failure? {
        return Failure(QueryEncodingFailed(filtered.error));
      }
      var text := Encode(Document([(q.table, filtered.value)]), true, size, deltaEstimate);
      if text.Failure? {
        return Failure(QueryEncodingFailed(text.error));
      }
      r := Success("@query[" + query + "]\n\n" + text.value);
    }
  }
}
