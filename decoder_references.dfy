/** The decoder instance keeps its dictionary between calls.  A decoder
    that holds a dictionary reads text without a @dict line as a fresh
    decoder does, except that every value of its defaults and records that
    is a string starting with '#' and a key of the dictionary is replaced
    by that key's entry (DecodeResolved).  FieldValue is the only place
    references are resolved, so a reference inside a list stays as it is. */
module DecoderReferences {
  import opened Wrappers
  import opened Text
  import opened Values
  import opened Errors
  import opened Splitting
  import opened Literals
  import D = Decoder
  import DP = DecoderProperties
  import RT = RoundTrip

  // ---------------------------------------------------------------------
  // Dicts with the same keys

  predicate SameKeys<A, B>(d: Dict<A>, e: Dict<B>) {
    |d| == |e| && forall i :: 0 <= i < |d| ==> d[i].0 == e[i].0
  }

  /** A key is found at the same place in two dicts with the same keys. */
  lemma FindSameKeys<A, B>(d: Dict<A>, e: Dict<B>, k: string)
    requires SameKeys(d, e)
    ensures Find(d, k) == Find(e, k)
  {
  }

  // ---------------------------------------------------------------------
  // Resolving references

  /** Each value of d with its reference, if any, resolved through m. */
  function ResolveAll(d: Dict<Value>, m: Dict<string>): (r: Dict<Value>)
    ensures SameKeys(d, r) && forall i :: 0 <= i < |d| ==> r[i].1 == D.Substitute(d[i].1, m)
  {
    seq(|d|, i requires 0 <= i < |d| => (d[i].0, D.Substitute(d[i].1, m)))
  }

  function ResolveRecords(rs: seq<Record>, m: Dict<string>): (r: seq<Record>)
    ensures |r| == |rs| && forall i :: 0 <= i < |rs| ==> r[i] == ResolveAll(rs[i], m)
  {
    seq(|rs|, i requires 0 <= i < |rs| => ResolveAll(rs[i], m))
  }

  function ResolveTables(t: D.Tables, m: Dict<string>): (r: D.Tables)
    ensures SameKeys(t, r) && forall i :: 0 <= i < |t| ==> r[i].1 == ResolveRecords(t[i].1, m)
  {
    seq(|t|, i requires 0 <= i < |t| => (t[i].0, ResolveRecords(t[i].1, m)))
  }

  /** A key of the resolved dict reads as its value in d, resolved. */
  lemma ResolveGet(d: Dict<Value>, m: Dict<string>, k: string)
    ensures Get(ResolveAll(d, m), k) == if HasKey(d, k) then Some(D.Substitute(Get(d, k).value, m)) else None
  {
    FindSameKeys(d, ResolveAll(d, m), k);
  }

  /** Storing a value and then resolving is resolving and then storing the
      resolved value. */
  lemma ResolvePut(d: Dict<Value>, m: Dict<string>, k: string, v: Value)
    ensures ResolveAll(Put(d, k, v), m) == Put(ResolveAll(d, m), k, D.Substitute(v, m))
  {
    var r := ResolveAll(d, m);
    FindSameKeys(d, r, k);
    match Find(d, k)
    case None =>
      assert ResolveAll(d + [(k, v)], m) == r + [(k, D.Substitute(v, m))];
    case Some(i) =>
      assert ResolveAll(d[i := (k, v)], m) == r[i := (k, D.Substitute(v, m))];
  }

  lemma ResolveTablesPut(t: D.Tables, m: Dict<string>, k: string, rs: seq<Record>)
    ensures ResolveTables(Put(t, k, rs), m) == Put(ResolveTables(t, m), k, ResolveRecords(rs, m))
  {
    var r := ResolveTables(t, m);
    FindSameKeys(t, r, k);
    match Find(t, k)
    case None =>
      assert ResolveTables(t + [(k, rs)], m) == r + [(k, ResolveRecords(rs, m))];
    case Some(i) =>
      assert ResolveTables(t[i := (k, rs)], m) == r[i := (k, ResolveRecords(rs, m))];
  }

  // ---------------------------------------------------------------------
  // The parsers under a dictionary

  /** A field read under m is the field read without a dictionary, resolved. */
  lemma FieldResolved(text: string, m: Dict<string>)
    ensures D.FieldValue(text, m) == D.Substitute(D.FieldValue(text, []), m)
  {
    RT.SubstituteFresh(ParseVal(Strip(text)));
  }

  lemma {:induction false} DefaultsFromResolved(items: seq<string>, m: Dict<string>, acc: Dict<Value>)
    ensures D.DefaultsFrom(items, m, ResolveAll(acc, m)) == ResolveAll(D.DefaultsFrom(items, [], acc), m)
    decreases |items|
  {
    if items != [] {
      var item := items[0];
      if ':' in item {
        var k, t := Strip(D.KeyPart(item)), D.ValuePart(item);
        FieldResolved(t, m);
        ResolvePut(acc, m, k, D.FieldValue(t, []));
        DefaultsFromResolved(items[1..], m, Put(acc, k, D.FieldValue(t, [])));
      } else {
        DefaultsFromResolved(items[1..], m, acc);
      }
    }
  }

  /** _parse_defaults under m: the defaults read without a dictionary,
      resolved, or the same error. */
  lemma DefaultsLineResolved(line: string, m: Dict<string>)
    ensures D.DefaultsLine(line, m) == match D.DefaultsLine(line, [])
      case Failure(e) => Failure(e)
      case Success(dd) => Success(ResolveAll(dd, m))
  {
    var none: Dict<Value> := [];
    assert ResolveAll(none, m) == none;
    if D.Content(line).Success? {
      DefaultsFromResolved(SplitSmart(D.Content(line).value, ','), m, none);
    }
  }

  lemma {:induction false} DefaultsOfResolved(schema: Schema, idx: nat, dd: Dict<Value>, m: Dict<string>, acc: Record)
    ensures D.DefaultsOf(schema, idx, ResolveAll(dd, m), ResolveAll(acc, m)) == ResolveAll(D.DefaultsOf(schema, idx, dd, acc), m)
    decreases |schema| - idx
  {
    if idx < |schema| {
      var name := schema[idx].0;
      ResolveGet(dd, m, name);
      if HasKey(dd, name) {
        ResolvePut(acc, m, name, Get(dd, name).value);
        DefaultsOfResolved(schema, idx + 1, dd, m, Put(acc, name, Get(dd, name).value));
      } else {
        DefaultsOfResolved(schema, idx + 1, dd, m, acc);
      }
    }
  }

  /** The fields of a row read under m: each read without a dictionary,
      resolved. */
  lemma RowValuesResolved(fs: seq<string>, m: Dict<string>)
    ensures forall i :: 0 <= i < |fs| ==> D.RowValues(fs, m)[i] == D.Substitute(D.RowValues(fs, [])[i], m)
  {
    forall i | 0 <= i < |fs| ensures D.RowValues(fs, m)[i] == D.Substitute(D.RowValues(fs, [])[i], m) {
      DP.RowValueAt(fs, m, i);
      DP.RowValueAt(fs, [], i);
      FieldResolved(fs[i], m);
    }
  }

  lemma ColumnsResolved(schema: Schema, vs: seq<Value>, ws: seq<Value>, m: Dict<string>)
    requires |ws| == |vs| && forall i :: 0 <= i < |vs| ==> ws[i] == D.Substitute(vs[i], m)
    ensures D.Columns(schema, ws) == ResolveAll(D.Columns(schema, vs), m)
  {
  }

  lemma {:induction false} PutAllResolved(pairs: Dict<Value>, idx: nat, rec: Record, m: Dict<string>)
    ensures D.PutAll(ResolveAll(pairs, m), idx, ResolveAll(rec, m)) == ResolveAll(D.PutAll(pairs, idx, rec), m)
    decreases |pairs| - idx
  {
    if idx < |pairs| {
      ResolvePut(rec, m, pairs[idx].0, pairs[idx].1);
      PutAllResolved(pairs, idx + 1, Put(rec, pairs[idx].0, pairs[idx].1), m);
    }
  }

  /** _parse_record under m, with the defaults read under m: the record read
      without a dictionary, resolved. */
  lemma RecordOfResolved(line: string, schema: Schema, dd: Dict<Value>, m: Dict<string>)
    ensures D.RecordOf(line, schema, ResolveAll(dd, m), m) == ResolveAll(D.RecordOf(line, schema, dd, []), m)
  {
    var fs := D.RowFields(line);
    var none: Record := [];
    assert ResolveAll(none, m) == none;
    RowValuesResolved(fs, m);
    ColumnsResolved(schema, D.RowValues(fs, []), D.RowValues(fs, m), m);
    DefaultsOfResolved(schema, 0, dd, m, none);
    PutAllResolved(D.Columns(schema, D.RowValues(fs, [])), 0, D.DefaultsOf(schema, 0, dd, none), m);
  }

  lemma {:induction false} RecordsOfResolved(rows: seq<string>, schema: Schema, dd: Dict<Value>, m: Dict<string>)
    ensures D.RecordsOf(rows, schema, ResolveAll(dd, m), m) == ResolveRecords(D.RecordsOf(rows, schema, dd, []), m)
    decreases |rows|
  {
    if rows != [] {
      RecordsOfResolved(rows[..|rows| - 1], schema, dd, m);
      RecordOfResolved(rows[|rows| - 1], schema, dd, m);
    }
  }

  // ---------------------------------------------------------------------
  // The scan under a dictionary

  /** The state of a fresh scan, seen by a decoder holding m. */
  function Lift(st: D.DecodeState, m: Dict<string>): D.DecodeState {
    D.DecodeState(ResolveTables(st.result, m), st.schema, ResolveAll(st.defaults, m), m)
  }

  /** One step of the scan over a line that is not a @dict line. */
  lemma StepResolved(lines: seq<string>, i: nat, st: D.DecodeState, m: Dict<string>)
    requires i < |lines| && st.dictionary == [] && !StartsWith(Strip(lines[i]), "@dict")
    ensures D.StepAt(lines, i, Lift(st, m)) == match D.StepAt(lines, i, st)
      case Failure(e) => Failure(e)
      case Success(next) => Success((next.0, Lift(next.1, m)))
  {
    var line := Strip(lines[i]);
    if line == [] || StartsWith(line, "@dict") || StartsWith(line, "@schema") {
    } else if StartsWith(line, "@defaults") {
      DefaultsLineResolved(line, m);
    } else if StartsWith(line, "@") {
    } else if D.IsHeader(line) && D.HeaderCount(line).Some? {
      var rows := D.RowsFrom(lines, i + 1, D.HeaderCount(line).value, []);
      var records := D.RecordsOf(rows.1, st.schema, st.defaults, []);
      RecordsOfResolved(rows.1, st.schema, st.defaults, m);
      ResolveTablesPut(st.result, m, D.HeaderName(line), records);
    }
  }

  /** A decoder holding m reads lines without a @dict line as a fresh
      decoder does, every reference in what it reads resolved through m,
      and keeps m. */
  lemma {:induction false} DecodeResolved(lines: seq<string>, i: nat, st: D.DecodeState, m: Dict<string>)
    requires i <= |lines| && st.dictionary == []
    requires forall k :: i <= k < |lines| ==> !StartsWith(Strip(lines[k]), "@dict")
    ensures D.DecodeFrom(lines, i, Lift(st, m)) == (match D.DecodeFrom(lines, i, st).0
      case Failure(e) => Failure(e)
      case Success(t) => Success(ResolveTables(t, m)), m)
    decreases |lines| - i
  {
    if i < |lines| {
      StepResolved(lines, i, st, m);
      match D.StepAt(lines, i, st)
      case Failure(e) =>
      case Success(next) =>
        DecodeResolved(lines, next.0, next.1, m);
    }
  }
}
