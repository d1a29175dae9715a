/** What the encoder promises: which documents it accepts, how defaults are
    chosen, that rows and lines come out in order, and when the @dict line
    is absent. */
module EncoderProperties {
  import opened Wrappers
  import opened Text
  import opened Values
  import opened Errors
  import opened Literals
  import opened Compression
  import opened CompressionEngine
  import opened Encoder

  // ---------------------------------------------------------------------
  // Validation

  /** A document passes validation exactly when it is a dict of lists of dicts. */
  lemma ValidateAccepts(data: Value)
    ensures ValidateSpec(data).None? <==> IsDocument(data)
  {
    if data.Obj? {
      forall t | 0 <= t < |data.fields|
        ensures TableFault(data.fields[t].0, data.fields[t].1).None? <==> TableOfDicts(data.fields[t].1)
      {
      }
    }
  }

  /** With validation on, a rejected document fails with its fault, wrapped
      as an encoding failure, before anything is compressed. */
  lemma ValidationRejects(c: Config, data: Value, compress: bool, size: nat, deltaEstimate: Ratio, st: DictState)
    requires c.validate && !IsDocument(data)
    ensures ValidateSpec(data).Some?
    ensures EncodeSpec(c, data, compress, size, deltaEstimate, st) ==
            (Failure(EncodingFailed(EncodingError(ValidateSpec(data).value))), st)
  {
    ValidateAccepts(data);
  }

  /** Without validation, a document that is not a dict fails on .items(). */
  lemma NonDictWithoutValidation(c: Config, data: Value, size: nat, deltaEstimate: Ratio, st: DictState)
    requires !c.validate && !data.Obj?
    ensures EncodeSpec(c, data, false, size, deltaEstimate, st) == (Failure(EncodingFailed(AttributeError)), st)
  {
  }

  /** The fault names the first table that is not a list. */
  lemma {:induction false} FirstTableNotList(tables: seq<(string, Value)>, t: nat)
    requires t < |tables| && !tables[t].1.Arr?
    requires forall u :: 0 <= u < t ==> TableOfDicts(tables[u].1)
    ensures TablesFault(tables) == Some(TableNotList(tables[t].0))
    decreases t
  {
    if t > 0 {
      assert TableFault(tables[0].0, tables[0].1).None?;
      assert forall u :: 0 <= u < t - 1 ==> tables[1..][u] == tables[u + 1];
      FirstTableNotList(tables[1..], t - 1);
    }
  }

  // ---------------------------------------------------------------------
  // No @dict line without compression

  /** The text starts with the first part. */
  lemma JoinStarts(sep: string, parts: seq<string>)
    requires parts != []
    ensures StartsWith(Join(sep, parts), parts[0])
  {
    if |parts| > 1 {
      assert Join(sep, parts) == parts[0] + (sep + Join(sep, parts[1..]));
    }
  }

  /** The first part of a body is a @schema line. */
  lemma {:induction false} BodyStartsWithSchema(tables: seq<(string, Value)>, optimize: bool, queryable: bool, acc: seq<string>)
    requires acc == [] || StartsWith(acc[0], "@schema[")
    requires BodyFrom(tables, optimize, queryable, acc).Success?
    ensures var parts := BodyFrom(tables, optimize, queryable, acc).value;
      parts == [] || StartsWith(parts[0], "@schema[")
    decreases |tables|
  {
    if tables != [] {
      if tables[0].1.Arr? {
        var more := TableParts(tables[0].0, tables[0].1.items, optimize, queryable).value;
        var schema := TableSchema(tables[0].1.items);
        assert more[0] == SchemaLine(schema);
        assert (acc + more)[0] == if acc == [] then SchemaLine(schema) else acc[0];
        BodyStartsWithSchema(tables[1..], optimize, queryable, acc + more);
      } else {
        BodyStartsWithSchema(tables[1..], optimize, queryable, acc);
      }
    }
  }

  /** compress=False or the FAST mode: no compression happens, the engine
      is untouched, and the text begins with a @schema line (or is empty). */
  lemma NoDictionaryWithoutCompression(c: Config, data: Value, compress: bool, size: nat, deltaEstimate: Ratio, st: DictState)
    requires !compress || c.mode == Fast
    ensures EncodeSpec(c, data, compress, size, deltaEstimate, st).1 == st
    ensures var r := EncodeSpec(c, data, compress, size, deltaEstimate, st).0;
      r.Success? ==> r.value == [] || StartsWith(r.value, "@schema[")
  {
    var r := EncodeSpec(c, data, compress, size, deltaEstimate, st).0;
    if r.Success? {
      var parts := BodyParts(data.fields, c.optimize, c.queryable).value;
      BodyStartsWithSchema(data.fields, c.optimize, c.queryable, []);
      assert r.value == Join("\n", [] + parts);
      assert [] + parts == parts;
      if parts != [] {
        JoinStarts("\n", parts);
        assert StartsWith(parts[0], "@schema[");
      }
    }
  }

  // ---------------------------------------------------------------------
  // Defaults

  /** The default of a column is a most common value, counted more than 0.6
      times the number of values, among hashable values only. */
  lemma DefaultForChosen(values: seq<Value>)
    requires DefaultFor(values).Some?
    ensures var d := DefaultFor(values).value;
      d in values && 5 * Occurrences(values, d) > 3 * |values| &&
      (forall k :: 0 <= k < |values| ==> IsHashable(values[k]) && Occurrences(values, values[k]) <= Occurrences(values, d))
  {
    var i := FirstMax(Counts(values));
    assert forall k :: 0 <= k < |values| ==> Counts(values)[k] <= Counts(values)[i];
  }

  /** A column gets a default exactly when all its values are hashable and
      one of them occurs more than 0.6 times the number of values. */
  lemma DefaultForExists(values: seq<Value>)
    ensures DefaultFor(values).Some? <==>
      (forall k :: 0 <= k < |values| ==> IsHashable(values[k])) &&
      (exists k :: 0 <= k < |values| && 5 * Occurrences(values, values[k]) > 3 * |values|)
  {
    if values != [] && forall k :: 0 <= k < |values| ==> IsHashable(values[k]) {
      var i := FirstMax(Counts(values));
      assert Counts(values)[i] == Occurrences(values, values[i]);
      if exists k :: 0 <= k < |values| && 5 * Occurrences(values, values[k]) > 3 * |values| {
        var k :| 0 <= k < |values| && 5 * Occurrences(values, values[k]) > 3 * |values|;
        assert Counts(values)[k] <= Counts(values)[i];
      }
    }
  }

  /** Of several equally common values, the first one in the column wins. */
  lemma DefaultForFirst(values: seq<Value>, j: nat)
    requires DefaultFor(values).Some? && j < |values|
    requires Occurrences(values, values[j]) == Occurrences(values, DefaultFor(values).value)
    ensures exists i :: 0 <= i <= j && values[i] == DefaultFor(values).value
  {
    var i := FirstMax(Counts(values));
    assert Counts(values)[j] == Occurrences(values, values[j]);
    assert !(Counts(values)[j] < Counts(values)[i]);
  }

  /** The values of field k in the records, in record order. */
  function Column(records: seq<Record>, k: string): seq<Value>
    decreases |records|
  {
    if records == [] then []
    else
      var last := records[|records| - 1];
      Column(records[..|records| - 1], k) + (if HasKey(last, k) then [Get(last, k).value] else [])
  }

  /** Some record has field k. */
  predicate InSome(records: seq<Record>, k: string) {
    exists i :: 0 <= i < |records| && HasKey(records[i], k)
  }

  /** Find on a dict whose first key is another key. */
  lemma FindTail<V>(d: Dict<V>, k: string)
    requires d != [] && d[0].0 != k
    ensures Get(d, k) == Get(d[1..], k)
  {
  }

  /** A key absent from every entry is not found. */
  lemma {:induction false} Absent<V>(d: Dict<V>, k: string)
    requires forall j :: 0 <= j < |d| ==> d[j].0 != k
    ensures !HasKey(d, k)
    decreases |d|
  {
    if d != [] {
      assert forall j :: 0 <= j < |d[1..]| ==> d[1..][j] == d[j + 1];
      Absent(d[1..], k);
    }
  }

  /** With distinct keys, the first key does not occur again. */
  lemma DistinctTail<V>(d: Dict<V>)
    requires d != [] && DistinctKeys(d)
    ensures !HasKey(d[1..], d[0].0)
  {
    assert forall j :: 0 <= j < |d[1..]| ==> d[1..][j] == d[j + 1];
    Absent(d[1..], d[0].0);
  }

  /** No record has the field: its column is empty. */
  lemma {:induction false} ColumnEmpty(records: seq<Record>, k: string)
    requires !InSome(records, k)
    ensures Column(records, k) == []
    decreases |records|
  {
    if records != [] {
      var init := records[..|records| - 1];
      assert !InSome(init, k) by {
        forall i | 0 <= i < |init| ensures !HasKey(init[i], k) {
          assert init[i] == records[i];
        }
      }
      ColumnEmpty(init, k);
      assert !HasKey(records[|records| - 1], k);
    }
  }

  /** Adding one record's values: each of its fields gets its value appended. */
  lemma {:induction false} AddRecordMeaning(fv: Dict<seq<Value>>, rec: Record, k: string)
    requires DistinctKeys(rec)
    ensures Get(AddRecord(fv, rec), k) ==
      if HasKey(rec, k) then Some(Get(fv, k).GetOr([]) + [Get(rec, k).value]) else Get(fv, k)
    decreases |rec|
  {
    if rec != [] {
      var fv' := AddValue(fv, rec[0].0, rec[0].1);
      assert DistinctKeys(rec[1..]) by {
        forall i, j | 0 <= i < j < |rec[1..]| ensures rec[1..][i].0 != rec[1..][j].0 {
          assert rec[1..][i] == rec[i + 1] && rec[1..][j] == rec[j + 1];
        }
      }
      AddRecordMeaning(fv', rec[1..], k);
      if rec[0].0 == k {
        DistinctTail(rec);
      } else {
        FindTail(rec, k);
      }
    }
  }

  /** Some record has the field iff an earlier one or the last one has it. */
  lemma InSomeStep(records: seq<Record>, k: string)
    requires records != []
    ensures InSome(records, k) <==> InSome(records[..|records| - 1], k) || HasKey(records[|records| - 1], k)
  {
    var init := records[..|records| - 1];
    assert forall i :: 0 <= i < |init| ==> init[i] == records[i];
    if InSome(records, k) {
      var i :| 0 <= i < |records| && HasKey(records[i], k);
      if i < |init| {
        assert HasKey(init[i], k);
      }
    }
    if InSome(init, k) {
      var i :| 0 <= i < |init| && HasKey(init[i], k);
      assert HasKey(records[i], k);
    }
  }

  /** field_values[k]: present iff some record has k, and then its column. */
  lemma {:induction false} FieldValuesMeaning(records: seq<Record>, k: string)
    requires forall i :: 0 <= i < |records| ==> DistinctKeys(records[i])
    ensures Get(FieldValues(records), k) == if InSome(records, k) then Some(Column(records, k)) else None
    decreases |records|
  {
    if records != [] {
      var init := records[..|records| - 1];
      assert forall i :: 0 <= i < |init| ==> init[i] == records[i];
      FieldValuesMeaning(init, k);
      FieldValuesStep(records, k);
    }
  }

  /** One more record, assuming the meaning for the records before it. */
  lemma FieldValuesStep(records: seq<Record>, k: string)
    requires records != [] && DistinctKeys(records[|records| - 1])
    requires var init := records[..|records| - 1];
      Get(FieldValues(init), k) == if InSome(init, k) then Some(Column(init, k)) else None
    ensures Get(FieldValues(records), k) == if InSome(records, k) then Some(Column(records, k)) else None
  {
    var init := records[..|records| - 1];
    var last := records[|records| - 1];
    var g := Get(FieldValues(init), k);
    assert FieldValues(records) == AddRecord(FieldValues(init), last);
    assert Column(records, k) == Column(init, k) + (if HasKey(last, k) then [Get(last, k).value] else []);
    AddRecordMeaning(FieldValues(init), last, k);
    InSomeStep(records, k);
    if HasKey(last, k) {
      if !InSome(init, k) {
        ColumnEmpty(init, k);
      }
      assert g.GetOr([]) == Column(init, k);
    } else {
      assert Column(records, k) == Column(init, k);
    }
  }

  /** Keys(Put(d, k, v)) stays duplicate-free. */
  lemma PutDistinct<V>(d: Dict<V>, k: string, v: V)
    requires DistinctKeys(d)
    ensures DistinctKeys(Put(d, k, v))
  {
    var r := Put(d, k, v);
    assert forall i :: 0 <= i < |r| ==> r[i].0 == Keys(r)[i];
    assert forall i :: 0 <= i < |d| ==> d[i].0 == Keys(d)[i];
    if !HasKey(d, k) {
      assert forall i :: 0 <= i < |d| ==> d[i].0 != k;
    }
  }

  lemma {:induction false} AddRecordDistinct(fv: Dict<seq<Value>>, rec: Record)
    requires DistinctKeys(fv)
    ensures DistinctKeys(AddRecord(fv, rec))
    decreases |rec|
  {
    if rec != [] {
      PutDistinct(fv, rec[0].0, Get(fv, rec[0].0).GetOr([]) + [rec[0].1]);
      AddRecordDistinct(AddValue(fv, rec[0].0, rec[0].1), rec[1..]);
    }
  }

  lemma {:induction false} FieldValuesDistinct(records: seq<Record>)
    ensures DistinctKeys(FieldValues(records))
    decreases |records|
  {
    if records != [] {
      FieldValuesDistinct(records[..|records| - 1]);
      AddRecordDistinct(FieldValues(records[..|records| - 1]), records[|records| - 1]);
    }
  }

  /** Choosing over columns with distinct names, starting from defaults for
      none of them: each column has its own chosen default. */
  lemma {:induction false} ChooseDefaultsMeaning(acc: Dict<Value>, fv: Dict<seq<Value>>, k: string)
    requires DistinctKeys(fv)
    requires forall i :: 0 <= i < |fv| ==> !HasKey(acc, fv[i].0)
    ensures Get(ChooseDefaults(acc, fv), k) == if HasKey(fv, k) then DefaultFor(Get(fv, k).value) else Get(acc, k)
    decreases |fv|
  {
    if fv != [] {
      var acc' := match DefaultFor(fv[0].1) case Some(d) => Put(acc, fv[0].0, d) case None => acc;
      assert DistinctKeys(fv[1..]) by {
        forall i, j | 0 <= i < j < |fv[1..]| ensures fv[1..][i].0 != fv[1..][j].0 {
          assert fv[1..][i] == fv[i + 1] && fv[1..][j] == fv[j + 1];
        }
      }
      assert forall i :: 0 <= i < |fv[1..]| ==> !HasKey(acc', fv[1..][i].0) by {
        forall i | 0 <= i < |fv[1..]| ensures !HasKey(acc', fv[1..][i].0) {
          assert fv[1..][i] == fv[i + 1] && fv[i + 1].0 != fv[0].0;
        }
      }
      ChooseDefaultsMeaning(acc', fv[1..], k);
      if fv[0].0 == k {
        DistinctTail(fv);
      } else {
        FindTail(fv, k);
      }
    }
  }

  /** _infer_defaults: over the first min(100, n) records, field k gets a
      default exactly when some sampled record has it and the column of its
      values passes the test over the values of the records that have it. */
  lemma DefaultsMeaning(records: seq<Value>, k: string)
    requires forall i :: 0 <= i < |records| ==> records[i].Obj? && DistinctKeys(records[i].fields)
    ensures DefaultsSpec(records).Success?
    ensures var sample := Fields(records[..SampleSize(|records|)]);
      Get(DefaultsSpec(records).value, k) == if InSome(sample, k) then DefaultFor(Column(sample, k)) else None
  {
    var sample := Fields(records[..SampleSize(|records|)]);
    var fv := FieldValues(sample);
    FieldValuesDistinct(sample);
    FieldValuesMeaning(sample, k);
    ChooseDefaultsMeaning([], fv, k);
  }

  /** Defaults never hold a list or a dict. */
  lemma DefaultsHashable(records: seq<Value>, k: string)
    requires forall i :: 0 <= i < |records| ==> records[i].Obj? && DistinctKeys(records[i].fields)
    requires DefaultsSpec(records).Success? && HasKey(DefaultsSpec(records).value, k)
    ensures IsHashable(Get(DefaultsSpec(records).value, k).value)
  {
    DefaultsMeaning(records, k);
    var sample := Fields(records[..SampleSize(|records|)]);
    DefaultForChosen(Column(sample, k));
  }

  // ---------------------------------------------------------------------
  // Sorted @dict and @defaults entries

  predicate SortedKeys<V>(d: Dict<V>) {
    forall i, j :: 0 <= i < j < |d| ==> !StrLess(d[j].0, d[i].0)
  }

  lemma {:induction false} InsertSorted<V>(x: (string, V), d: Dict<V>)
    requires SortedKeys(d)
    ensures SortedKeys(Insert(x, d))
    ensures multiset(Insert(x, d)) == multiset(d) + multiset{x}
    decreases |d|
  {
    if d != [] && StrLess(d[0].0, x.0) {
      InsertSorted(x, d[1..]);
      var r := Insert(x, d[1..]);
      assert d == [d[0]] + d[1..];
      forall j | 0 <= j < |r| ensures !StrLess(r[j].0, d[0].0) {
        assert r[j] in multiset(r);
        if r[j] == x {
          StrLessAsymmetric(d[0].0, x.0);
        } else {
          assert r[j] in d[1..];
          var m :| 0 <= m < |d[1..]| && d[1..][m] == r[j];
          assert d[m + 1] == r[j];
        }
      }
    } else if d != [] {
      forall j | 0 <= j < |d| ensures !StrLess(d[j].0, x.0) {
        if j > 0 {
          StrLeTrans(x.0, d[0].0, d[j].0);
        }
      }
    }
  }

  /** a <= b and b <= c give a <= c. */
  lemma StrLeTrans(a: string, b: string, c: string)
    requires !StrLess(b, a) && !StrLess(c, b)
    ensures !StrLess(c, a)
  {
    if a != b && b != c {
      StrLessTotal(a, b);
      StrLessTotal(b, c);
      StrLessTransitive(a, b, c);
      StrLessAsymmetric(a, c);
    }
  }

  /** sorted(d.items()): ordered by key, and the same entries. */
  lemma {:induction false} SortByKeySorted<V>(d: Dict<V>)
    ensures SortedKeys(SortByKey(d))
    ensures multiset(SortByKey(d)) == multiset(d)
    decreases |d|
  {
    if d != [] {
      SortByKeySorted(d[1..]);
      InsertSorted(d[0], SortByKey(d[1..]));
      assert d == [d[0]] + d[1..];
    }
  }

  // ---------------------------------------------------------------------
  // Rows and tables

  /** The rows loop stops at the first record that cannot be formatted:
      it succeeds exactly when every record can be. */
  lemma {:induction false} RowsFromSucceeds(records: seq<Value>, schema: Schema, defaults: Dict<Value>, acc: seq<string>)
    ensures RowsFrom(records, schema, defaults, acc).Success? <==>
      forall i :: 0 <= i < |records| ==> RowSpec(records[i], schema, defaults).Success?
    decreases |records|
  {
    if records != [] {
      var r := RowSpec(records[0], schema, defaults);
      assert forall i :: 1 <= i < |records| ==> records[1..][i - 1] == records[i];
      if r.Success? {
        RowsFromSucceeds(records[1..], schema, defaults, acc + ["  " + r.value]);
      }
    }
  }

  /** One indented row per record, in order, after the rows already made. */
  lemma {:induction false} RowsFromMeaning(records: seq<Value>, schema: Schema, defaults: Dict<Value>, acc: seq<string>)
    requires RowsFrom(records, schema, defaults, acc).Success?
    ensures var out := RowsFrom(records, schema, defaults, acc).value;
      |out| == |acc| + |records| && out[..|acc|] == acc &&
      forall i :: 0 <= i < |records| ==>
        RowSpec(records[i], schema, defaults).Success? && out[|acc| + i] == "  " + RowSpec(records[i], schema, defaults).value
    decreases |records|
  {
    if records != [] {
      var r := RowSpec(records[0], schema, defaults);
      var acc' := acc + ["  " + r.value];
      RowsFromMeaning(records[1..], schema, defaults, acc');
      assert forall i :: 1 <= i < |records| ==> records[1..][i - 1] == records[i];
      var out := RowsFrom(records, schema, defaults, acc).value;
      assert out[..|acc'|] == acc';
      assert out[..|acc|] == acc'[..|acc|];
    }
  }

  /** The rows of a table, when it can be formatted: one per record, each
      indented by two spaces. */
  lemma RowsIndented(records: seq<Value>, schema: Schema, defaults: Dict<Value>)
    requires RowsSpec(records, schema, defaults).Success?
    ensures var rows := RowsSpec(records, schema, defaults).value;
      |rows| == |records| && forall i :: 0 <= i < |rows| ==> StartsWith(rows[i], "  ")
  {
    RowsFromMeaning(records, schema, defaults, []);
    var rows := RowsSpec(records, schema, defaults).value;
    forall i | 0 <= i < |rows| ensures StartsWith(rows[i], "  ") {
      assert rows[i] == "  " + RowSpec(records[i], schema, defaults).value;
    }
  }

  /** The parts of a table: its @schema line, the header naming the record
      count after a blank line, and one row per record last. */
  lemma TableLayout(name: string, records: seq<Value>, optimize: bool, queryable: bool)
    requires TableParts(name, records, optimize, queryable).Success?
    ensures var parts := TableParts(name, records, optimize, queryable).value;
      |parts| >= 2 + |records| &&
      StartsWith(parts[0], "@schema[") &&
      parts[|parts| - |records| - 1] == "\n" + Header(name, |records|) &&
      var rows := parts[|parts| - |records|..];
      forall i :: 0 <= i < |rows| ==> StartsWith(rows[i], "  ")
  {
    var head, rows := TableSplit(name, records, optimize, queryable);
    var parts := TableParts(name, records, optimize, queryable).value;
    assert parts[|parts| - |records|..] == rows;
    assert parts[|parts| - |records| - 1] == head[|head| - 1];
  }

  /** The parts of a table are its head lines and then its indented rows. */
  lemma TableSplit(name: string, records: seq<Value>, optimize: bool, queryable: bool) returns (head: seq<string>, rows: seq<string>)
    requires TableParts(name, records, optimize, queryable).Success?
    ensures TableParts(name, records, optimize, queryable).value == head + rows
    ensures |head| >= 2 && StartsWith(head[0], "@schema[") && head[|head| - 1] == "\n" + Header(name, |records|)
    ensures |rows| == |records| && forall i :: 0 <= i < |rows| ==> StartsWith(rows[i], "  ")
  {
    var schema := TableSchema(records);
    var defaults := if records != [] && optimize then DefaultsSpec(records).value else [];
    TablePartsValue(name, records, optimize, queryable);
    RowsIndented(records, schema, defaults);
    rows := RowsSpec(records, schema, defaults).value;
    head := [SchemaLine(schema)] + (if defaults != [] then [DefaultsLine(defaults)] else []) +
            (if queryable then ["@queryable[" + name + "]"] else []) + ["\n" + Header(name, |records|)];
    assert head[0] == SchemaLine(schema);
    SchemaLineStarts(schema);
  }

  /** TableParts on success, unfolded. */
  lemma TablePartsValue(name: string, records: seq<Value>, optimize: bool, queryable: bool)
    requires TableParts(name, records, optimize, queryable).Success?
    ensures var schema := TableSchema(records);
      var defaults := if records != [] && optimize then DefaultsSpec(records).value else [];
      RowsSpec(records, schema, defaults).Success? &&
      TableParts(name, records, optimize, queryable).value ==
        [SchemaLine(schema)] + (if defaults != [] then [DefaultsLine(defaults)] else []) +
        (if queryable then ["@queryable[" + name + "]"] else []) + ["\n" + Header(name, |records|)] +
        RowsSpec(records, schema, defaults).value
  {
  }

  lemma SchemaLineStarts(schema: Schema)
    ensures StartsWith(SchemaLine(schema), "@schema[")
  {
    assert SchemaLine(schema)[..8] == "@schema[";
  }

  /** An empty table: an empty @schema line and the header with count 0. */
  lemma EmptyTable(name: string, optimize: bool)
    ensures TableParts(name, [], optimize, false) == Success(["@schema[]", "\n" + name + "(0):"])
  {
    assert SchemaLine([]) == "@schema[]" by {
      assert SchemaEntries([]) == [];
    }
    assert IntToString(0) == "0";
    assert Header(name, 0) == name + "(0):";
    var parts := TableParts(name, [], optimize, false).value;
    assert |parts| == 2 && parts[0] == "@schema[]" && parts[1] == "\n" + Header(name, 0);
    assert "\n" + (name + "(0):") == "\n" + name + "(0):";
    assert parts == ["@schema[]", "\n" + name + "(0):"];
  }

  /** A row holds the literals of the columns before the first elided one,
      when every column from there on is elided. */
  lemma {:induction false} RowPrefix(record: Record, schema: Schema, defaults: Dict<Value>, k: nat)
    requires k <= |schema|
    requires forall i :: 0 <= i < k ==> !Elided(record, schema[i].0, defaults)
    requires forall i :: k <= i < |schema| ==> Elided(record, schema[i].0, defaults)
    ensures var r := RowFields(record, schema, defaults);
      |r| == k && forall i :: 0 <= i < k ==> r[i] == FormatValue(FieldValue(record, schema[i].0))
    decreases |schema|
  {
    if schema != [] {
      var init := schema[..|schema| - 1];
      assert forall i :: 0 <= i < |init| ==> init[i] == schema[i];
      if k == |schema| {
        RowPrefix(record, init, defaults, k - 1);
        RowKept(record, schema, defaults);
        var r0 := RowFields(record, init, defaults);
        var r := RowFields(record, schema, defaults);
        forall i | 0 <= i < k ensures r[i] == FormatValue(FieldValue(record, schema[i].0)) {
          if i < k - 1 {
            assert r[i] == r0[i];
          }
        }
      } else {
        RowPrefix(record, init, defaults, k);
        RowElided(record, schema, defaults);
      }
    }
  }

  /** The last column kept: its literal ends the row. */
  lemma RowKept(record: Record, schema: Schema, defaults: Dict<Value>)
    requires schema != [] && !Elided(record, schema[|schema| - 1].0, defaults)
    ensures RowFields(record, schema, defaults) ==
      RowFields(record, schema[..|schema| - 1], defaults) + [FormatValue(FieldValue(record, schema[|schema| - 1].0))]
  {
  }

  /** The last column elided: the row is that of the columns before it. */
  lemma RowElided(record: Record, schema: Schema, defaults: Dict<Value>)
    requires schema != [] && Elided(record, schema[|schema| - 1].0, defaults)
    ensures RowFields(record, schema, defaults) == RowFields(record, schema[..|schema| - 1], defaults)
  {
  }
}
