/** The ATON decoder (core/decoder.py): a line scanner that keeps the last
    @schema and @defaults it has seen, reads the records after each table
    header positionally against that schema, and replaces '#' references
    through the dictionary of the last @dict line, which the decoder instance
    keeps between calls.  The specification functions below follow the
    source's control flow line by line; the Decoder class runs the same
    loops and is proved equal to them. */
module Decoder {
  import opened Wrappers
  import opened Text
  import opened Values
  import opened Errors
  import opened Splitting
  import opened Literals

  /** decode's result: each table name with its records, in first-seen order. */
  type Tables = Dict<seq<Record>>

  // ---------------------------------------------------------------------
  // The pieces of a metadata line

  /** line[line.index('[') + 1 : line.rindex(']')]: index and rindex raise
      ValueError when the bracket is missing. */
  function Content(line: string): (r: Result<string, Error>)
    ensures r.Failure? <==> '[' !in line || ']' !in line
    ensures r.Failure? ==> r.error == ValueError
  {
    match (IndexOf(line, '['), LastIndexOf(line, ']'))
    case (Some(a), Some(b)) => Success(Slice(line, a + 1, b))
    case _ => Failure(ValueError)
  }

  /** item.split(':', 1)[0] for an item that holds ':'. */
  function KeyPart(item: string): (k: string)
    requires ':' in item
    ensures ':' !in k
  {
    item[..IndexOf(item, ':').value]
  }

  /** item.split(':', 1)[1] for an item that holds ':'. */
  function ValuePart(item: string): string
    requires ':' in item
  {
    item[IndexOf(item, ':').value + 1..]
  }

  /** A value of the @dict line: whitespace stripped, then every '"' at
      either end, then each escaped quote turned back into a quote. */
  function DictValue(v: string): string {
    UnescapeQuotes(StripChar(Strip(v), '"'))
  }

  /** The dict made from the remaining items after the entries acc; an item
      without ':' is skipped, a repeated key keeps its place and takes the
      later value. */
  function DictFrom(items: seq<string>, acc: Dict<string>): Dict<string>
    decreases |items|
  {
    if items == [] then acc
    else
      var item := items[0];
      DictFrom(items[1..], if ':' in item then Put(acc, Strip(KeyPart(item)), DictValue(ValuePart(item))) else acc)
  }

  /** _parse_dict */
  function DictLine(line: string): Result<Dict<string>, Error> {
    var content :- Content(line);
    Success(DictFrom(SplitSmart(content, ','), []))
  }

  /** The schema made from the remaining items after the columns acc. */
  function SchemaFrom(items: seq<string>, acc: Schema): Schema
    decreases |items|
  {
    if items == [] then acc
    else
      var item := items[0];
      SchemaFrom(items[1..], if ':' in item then acc + [(Strip(KeyPart(item)), Strip(ValuePart(item)))] else acc)
  }

  /** _parse_schema */
  function SchemaLine(line: string): Result<Schema, Error> {
    var content :- Content(line);
    Success(SchemaFrom(SplitSmart(content, ','), []))
  }

  /** A parsed '#' string that the dictionary knows is replaced by its
      entry; every other value, an unknown reference included, is kept. */
  function Substitute(v: Value, dictionary: Dict<string>): (r: Value)
    ensures r != v ==> v.Str? && StartsWith(v.s, "#") && HasKey(dictionary, v.s) && r == Str(Get(dictionary, v.s).value)
  {
    if v.Str? && StartsWith(v.s, "#") && HasKey(dictionary, v.s) then Str(Get(dictionary, v.s).value) else v
  }

  /** A field's text parsed and looked up in the dictionary. */
  function FieldValue(text: string, dictionary: Dict<string>): Value {
    Substitute(ParseVal(Strip(text)), dictionary)
  }

  /** The defaults made from the remaining items after the entries acc. */
  function DefaultsFrom(items: seq<string>, dictionary: Dict<string>, acc: Dict<Value>): Dict<Value>
    decreases |items|
  {
    if items == [] then acc
    else
      var item := items[0];
      DefaultsFrom(items[1..], dictionary,
        if ':' in item then Put(acc, Strip(KeyPart(item)), FieldValue(ValuePart(item), dictionary)) else acc)
  }

  /** _parse_defaults, under the decoder's current dictionary. */
  function DefaultsLine(line: string, dictionary: Dict<string>): Result<Dict<Value>, Error> {
    var content :- Content(line);
    Success(DefaultsFrom(SplitSmart(content, ','), dictionary, []))
  }

  // ---------------------------------------------------------------------
  // Records

  /** The record's default entries from column idx on, after the entries acc:
      each schema column that has a default gets it, in schema order. */
  function DefaultsOf(schema: Schema, idx: nat, defaults: Dict<Value>, acc: Record): Record
    decreases |schema| - idx
  {
    if idx >= |schema| then acc
    else
      var name := schema[idx].0;
      DefaultsOf(schema, idx + 1, defaults, if HasKey(defaults, name) then Put(acc, name, Get(defaults, name).value) else acc)
  }

  /** zip(schema, values): each column name with the value at the same
      position; columns past the last value are left out. */
  function Columns(schema: Schema, values: seq<Value>): (z: Dict<Value>)
    ensures |z| == if |schema| < |values| then |schema| else |values|
  {
    seq(if |schema| < |values| then |schema| else |values|, i requires 0 <= i < |schema| && i < |values| => (schema[i].0, values[i]))
  }

  /** The entries from position idx on written into rec, in order: what
      `record[name] = value` does once per pair. */
  function PutAll(pairs: Dict<Value>, idx: nat, rec: Record): Record
    decreases |pairs| - idx
  {
    if idx >= |pairs| then rec
    else PutAll(pairs, idx + 1, Put(rec, pairs[idx].0, pairs[idx].1))
  }

  /** The row's fields parsed, in order. */
  function RowValues(fields: seq<string>, dictionary: Dict<string>): (vs: seq<Value>)
    ensures |vs| == |fields|
  {
    if fields == [] then []
    else RowValues(fields[..|fields| - 1], dictionary) + [FieldValue(fields[|fields| - 1], dictionary)]
  }

  /** The fields of a data line: none for the empty line, the smart split
      at commas otherwise. */
  function RowFields(line: string): seq<string> {
    if line == [] then [] else SplitSmart(line, ',')
  }

  /** _parse_record */
  function RecordOf(line: string, schema: Schema, defaults: Dict<Value>, dictionary: Dict<string>): Record {
    PutAll(Columns(schema, RowValues(RowFields(line), dictionary)), 0, DefaultsOf(schema, 0, defaults, []))
  }

  // ---------------------------------------------------------------------
  // Lines

  /** '(' in line and line.endswith('):') */
  predicate IsHeader(line: string) {
    '(' in line && EndsWith(line, "):")
  }

  /** A line read as a record: not blank, not '@', not a header. */
  predicate IsDataLine(line: string) {
    line != [] && !StartsWith(line, "@") && !IsHeader(line)
  }

  /** line.split('(')[0] */
  function HeaderName(line: string): string {
    Split(line, '(')[0]
  }

  /** The count of a header: the text between the first '(' and the next
      ')' read as an integer; None where int() raises. */
  function HeaderCount(line: string): Option<int>
    requires '(' in line
  {
    ParseInt(Split(Split(line, '(')[1], ')')[0])
  }

  /** One round of `for _ in range(count)` from line i, the inner while
      loop: blank and '@' lines are skipped; a data line is read (the
      cursor moves past it and the stripped line is returned); a header or
      the end stops the round without moving the cursor. */
  function NextRowAt(lines: seq<string>, i: nat): (r: (nat, Option<string>))
    requires i <= |lines|
    ensures i <= r.0 <= |lines|
    decreases |lines| - i
  {
    if i == |lines| then (i, None)
    else
      var line := Strip(lines[i]);
      if line == [] || StartsWith(line, "@") then NextRowAt(lines, i + 1)
      else if IsHeader(line) then (i, None)
      else (i + 1, Some(line))
  }

  /** n rounds of the range loop from line i: where the cursor stops, and
      the data lines read, after the lines rows. */
  function RowsFrom(lines: seq<string>, i: nat, n: int, rows: seq<string>): (r: (nat, seq<string>))
    requires i <= |lines|
    ensures i <= r.0 <= |lines|
    decreases n
  {
    if n <= 0 then (i, rows)
    else
      var next := NextRowAt(lines, i);
      RowsFrom(lines, next.0, n - 1, if next.1.Some? then rows + [next.1.value] else rows)
  }

  /** The records parsed from the data lines rows, in order. */
  function RecordsOf(rows: seq<string>, schema: Schema, defaults: Dict<Value>, dictionary: Dict<string>): (rs: seq<Record>)
    ensures |rs| == |rows|
  {
    if rows == [] then []
    else RecordsOf(rows[..|rows| - 1], schema, defaults, dictionary) + [RecordOf(rows[|rows| - 1], schema, defaults, dictionary)]
  }

  /** What decode keeps while it scans: the tables so far, the last schema
      and defaults, and the instance's dictionary. */
  datatype DecodeState = DecodeState(result: Tables, schema: Schema, defaults: Dict<Value>, dictionary: Dict<string>)

  /** One round of the outer while loop at line i: where the cursor goes
      next and the new state, or the decoding error. */
  function StepAt(lines: seq<string>, i: nat, st: DecodeState): (r: Result<(nat, DecodeState), Error>)
    requires i < |lines|
    ensures r.Success? ==> i < r.value.0 <= |lines|
    ensures r.Success? && !StartsWith(Strip(lines[i]), "@dict") ==> r.value.1.dictionary == st.dictionary
  {
    var line := Strip(lines[i]);
    if line == [] then Success((i + 1, st))
    else if StartsWith(line, "@dict") then
      match DictLine(line)
      case Failure(e) => Failure(DecodingFailed(e))
      case Success(d) => Success((i + 1, st.(dictionary := d)))
    else if StartsWith(line, "@schema") then
      match SchemaLine(line)
      case Failure(e) => Failure(DecodingFailed(e))
      case Success(s) => Success((i + 1, st.(schema := s)))
    else if StartsWith(line, "@defaults") then
      match DefaultsLine(line, st.dictionary)
      case Failure(e) => Failure(DecodingFailed(e))
      case Success(d) => Success((i + 1, st.(defaults := d)))
    else if StartsWith(line, "@") then Success((i + 1, st))
    else if IsHeader(line) then
      match HeaderCount(line)
      case None => Failure(DecodingFailed(ValueError))
      case Some(n) =>
        var rows := RowsFrom(lines, i + 1, n, []);
        var records := RecordsOf(rows.1, st.schema, st.defaults, st.dictionary);
        Success((rows.0, st.(result := Put(st.result, HeaderName(line), records))))
    else Success((i + 1, st))
  }

  /** The outer while loop from line i: the result or the decoding error,
      and the instance's dictionary afterwards (an error leaves in place
      the dictionary of any @dict line read before it). */
  function DecodeFrom(lines: seq<string>, i: nat, st: DecodeState): (Result<Tables, Error>, Dict<string>)
    requires i <= |lines|
    decreases |lines| - i
  {
    if i == |lines| then (Success(st.result), st.dictionary)
    else
      match StepAt(lines, i, st)
      case Failure(e) => (Failure(e), st.dictionary)
      case Success(next) => DecodeFrom(lines, next.0, next.1)
  }

  /** The text cut at each newline, every piece with its trailing whitespace
      removed. */
  function Lines(text: string): (ls: seq<string>)
    ensures |ls| == |Split(text, '\n')|
    ensures forall k :: 0 <= k < |ls| ==> ls[k] == RStrip(Split(text, '\n')[k])
  {
    var parts := Split(text, '\n');
    seq(|parts|, k requires 0 <= k < |parts| => RStrip(parts[k]))
  }

  /** decode, on a decoder whose dictionary is `dictionary`. */
  function DecodeSpec(text: string, dictionary: Dict<string>): (Result<Tables, Error>, Dict<string>) {
    DecodeFrom(Lines(text), 0, DecodeState([], [], [], dictionary))
  }

  // ---------------------------------------------------------------------
  // The decoder object

  class ATONDecoder {
    const validate: bool
    /** The dictionary of the last @dict line decoded by this instance. */
    var dictionary: Dict<string>

    constructor(validate: bool)
      ensures this.validate == validate && dictionary == []
    {
      this.validate := validate;
      dictionary := [];
    }

    method Decode(text: string) returns (r: Result<Tables, Error>)
      modifies this
      ensures (r, dictionary) == DecodeSpec(text, old(dictionary))
    {
      var lines := Lines(text);
      var result: Tables := [];
      var schema: Schema := [];
      var defaults: Dict<Value> := [];
      var i := 0;
      while i < |lines|
        invariant 0 <= i <= |lines|
        invariant DecodeFrom(lines, i, DecodeState(result, schema, defaults, dictionary)) == DecodeSpec(text, old(dictionary))
        decreases |lines| - i
      {
        var step := ScanLine(lines, i, result, schema, defaults);
        if step.Failure? {
          return Failure(step.error);
        }
        var next := step.value.1;
        i, result, schema, defaults, dictionary := step.value.0, next.result, next.schema, next.defaults, next.dictionary;
      }
      r := Success(result);
    }

    /** One round of decode's while loop at line i. */
    method ScanLine(lines: seq<string>, i: nat, result: Tables, schema: Schema, defaults: Dict<Value>)
      returns (r: Result<(nat, DecodeState), Error>)
      requires i < |lines|
      ensures r == StepAt(lines, i, DecodeState(result, schema, defaults, dictionary))
    {
      var st := DecodeState(result, schema, defaults, dictionary);
      var line := Strip(lines[i]);
      if line == [] {
        r := Success((i + 1, st));
      } else if StartsWith(line, "@dict") {
        var d := ParseDict(line);
        r := if d.Failure? then Failure(DecodingFailed(d.error)) else Success((i + 1, st.(dictionary := d.value)));
      } else if StartsWith(line, "@schema") {
        var s := ParseSchema(line);
        r := if s.Failure? then Failure(DecodingFailed(s.error)) else Success((i + 1, st.(schema := s.value)));
      } else if StartsWith(line, "@defaults") {
        var d := ParseDefaults(line);
        r := if d.Failure? then Failure(DecodingFailed(d.error)) else Success((i + 1, st.(defaults := d.value)));
      } else if StartsWith(line, "@") {
        r := Success((i + 1, st));
      } else if IsHeader(line) {
        var table := HeaderName(line);
        var count := HeaderCount(line);
        if count.None? {
          return Failure(DecodingFailed(ValueError));
        }
        var j, records := ReadRows(lines, i + 1, count.value, schema, defaults);
        r := Success((j, st.(result := Put(result, table, records))));
      } else {
        r := Success((i + 1, st));
      }
    }

    /** The `for _ in range(count)` loop after a header at line i0 - 1.
        Parsing a record is pure, so the model first collects the data
        lines the rounds read and then parses them in the same order. */
    method ReadRows(lines: seq<string>, i0: nat, count: int, schema: Schema, defaults: Dict<Value>) returns (i: nat, records: seq<Record>)
      requires i0 <= |lines|
      ensures var rows := RowsFrom(lines, i0, count, []);
        i == rows.0 && records == RecordsOf(rows.1, schema, defaults, dictionary)
    {
      var rows;
      i, rows := ScanRows(lines, i0, count);
      records := ParseRecords(rows, schema, defaults);
    }

    /** The rounds of the range loop: where the cursor stops and the data
        lines read. */
    method ScanRows(lines: seq<string>, i0: nat, count: int) returns (i: nat, rows: seq<string>)
      requires i0 <= |lines|
      ensures (i, rows) == RowsFrom(lines, i0, count, [])
    {
      i := i0;
      rows := [];
      var left := count;
      while left > 0
        invariant i <= |lines|
        invariant RowsFrom(lines, i, left, rows) == RowsFrom(lines, i0, count, [])
      {
        var row;
        i, row := NextRow(lines, i);
        if row.Some? {
          rows := rows + [row.value];
        }
        left := left - 1;
      }
    }

    /** One round of the range loop: the inner while loop from line i0. */
    method NextRow(lines: seq<string>, i0: nat) returns (i: nat, row: Option<string>)
      requires i0 <= |lines|
      ensures (i, row) == NextRowAt(lines, i0)
    {
      i := i0;
      row := None;
      while i < |lines|
        invariant i0 <= i <= |lines|
        invariant NextRowAt(lines, i) == NextRowAt(lines, i0)
        decreases |lines| - i
      {
        var dataLine := Strip(lines[i]);
        if dataLine != [] && !StartsWith(dataLine, "@") && !IsHeader(dataLine) {
          row := Some(dataLine);
          i := i + 1;
          return;
        } else if StartsWith(dataLine, "@") || dataLine == [] {
          i := i + 1;
        } else {
          return;
        }
      }
    }

    /** self._parse_record on each data line, in order. */
    method ParseRecords(rows: seq<string>, schema: Schema, defaults: Dict<Value>) returns (records: seq<Record>)
      ensures records == RecordsOf(rows, schema, defaults, dictionary)
    {
      records := [];
      var k := 0;
      while k < |rows|
        invariant 0 <= k <= |rows|
        invariant records == RecordsOf(rows[..k], schema, defaults, dictionary)
      {
        var record := ParseRecord(rows[k], schema, defaults);
        assert rows[..k + 1][..k] == rows[..k];
        records := records + [record];
        k := k + 1;
      }
      assert rows[..k] == rows;
    }

    /** _parse_dict */
    method ParseDict(line: string) returns (r: Result<Dict<string>, Error>)
      ensures r == DictLine(line)
    {
      var content := Content(line);
      if content.Failure? {
        return Failure(content.error);
      }
      var items := SplitSmartScan(content.value, ',');
      var d: Dict<string> := [];
      var k := 0;
      while k < |items|
        invariant 0 <= k <= |items|
        invariant DictFrom(items[k..], d) == DictFrom(items, [])
      {
        var item := items[k];
        if ':' in item {
          d := Put(d, Strip(KeyPart(item)), DictValue(ValuePart(item)));
        }
        assert items[k..][1..] == items[k + 1..];
        k := k + 1;
      }
      r := Success(d);
    }

    /** _parse_schema */
    method ParseSchema(line: string) returns (r: Result<Schema, Error>)
      ensures r == SchemaLine(line)
    {
      var content := Content(line);
      if content.Failure? {
        return Failure(content.error);
      }
      var items := SplitSmartScan(content.value, ',');
      var schema: Schema := [];
      var k := 0;
      while k < |items|
        invariant 0 <= k <= |items|
        invariant SchemaFrom(items[k..], schema) == SchemaFrom(items, [])
      {
        var item := items[k];
        if ':' in item {
          schema := schema + [(Strip(KeyPart(item)), Strip(ValuePart(item)))];
        }
        assert items[k..][1..] == items[k + 1..];
        k := k + 1;
      }
      r := Success(schema);
    }

    /** _parse_defaults */
    method ParseDefaults(line: string) returns (r: Result<Dict<Value>, Error>)
      ensures r == DefaultsLine(line, dictionary)
    {
      var content := Content(line);
      if content.Failure? {
        return Failure(content.error);
      }
      var items := SplitSmartScan(content.value, ',');
      var defaults: Dict<Value> := [];
      var k := 0;
      while k < |items|
        invariant 0 <= k <= |items|
        invariant DefaultsFrom(items[k..], dictionary, defaults) == DefaultsFrom(items, dictionary, [])
      {
        var item := items[k];
        if ':' in item {
          defaults := Put(defaults, Strip(KeyPart(item)), FieldValue(ValuePart(item), dictionary));
        }
        assert items[k..][1..] == items[k + 1..];
        k := k + 1;
      }
      r := Success(defaults);
    }

    /** _parse_record */
    method ParseRecord(line: string, schema: Schema, defaults: Dict<Value>) returns (rec: Record)
      ensures rec == RecordOf(line, schema, defaults, dictionary)
    {
      var vals: seq<string> := [];
      if line != [] {
        vals := SplitSmartScan(line, ',');
      }
      var values := ParseFields(vals);
      rec := DefaultEntries(schema, defaults);
      rec := AssignValues(schema, values, rec);
    }

    /** The record's entries for the columns that have a default. */
    method DefaultEntries(schema: Schema, defaults: Dict<Value>) returns (rec: Record)
      ensures rec == DefaultsOf(schema, 0, defaults, [])
    {
      rec := [];
      var idx := 0;
      while idx < |schema|
        invariant 0 <= idx <= |schema|
        invariant DefaultsOf(schema, idx, defaults, rec) == DefaultsOf(schema, 0, defaults, [])
      {
        var name := schema[idx].0;
        if HasKey(defaults, name) {
          rec := Put(rec, name, Get(defaults, name).value);
        }
        idx := idx + 1;
      }
    }

    /** The value of every field of the row, dictionary references resolved. */
    method ParseFields(vals: seq<string>) returns (values: seq<Value>)
      ensures values == RowValues(vals, dictionary)
    {
      values := [];
      var idx := 0;
      while idx < |vals|
        invariant 0 <= idx <= |vals|
        invariant values == RowValues(vals[..idx], dictionary)
      {
        assert vals[..idx + 1][..idx] == vals[..idx];
        values := values + [FieldValue(vals[idx], dictionary)];
        idx := idx + 1;
      }
      assert vals[..idx] == vals;
    }

  }

  /** The loop over the schema's columns that writes each column's value
      into the record while a value is left; the rounds past the last value
      do nothing, so the loop runs over the zipped pairs. */
  method AssignValues(schema: Schema, values: seq<Value>, rec0: Record) returns (rec: Record)
    ensures rec == PutAll(Columns(schema, values), 0, rec0)
  {
    var pairs := Columns(schema, values);
    rec := rec0;
    var idx := 0;
    while idx < |pairs|
      invariant 0 <= idx <= |pairs|
      invariant PutAll(pairs, idx, rec) == PutAll(pairs, 0, rec0)
    {
      rec := Put(rec, pairs[idx].0, pairs[idx].1);
      idx := idx + 1;
    }
  }
}
