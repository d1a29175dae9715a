/** The ATON stream encoder (streaming/encoder.py): one table cut into
    chunks of chunk_size records.  The first chunk carries the @schema and
    @defaults lines and the header `name(k):`, every later chunk only the
    continuation header `name+(k):` and its non-empty rows.  Rows differ
    from the core encoder's in two ways: strings are always quoted, and
    picking defaults lets the TypeError of an unhashable value escape. */
module Streaming {
  import opened Wrappers
  import opened Text
  import opened Values
  import opened Errors
  import opened Literals
  import opened Compression
  import opened CompressionEngine
  import E = Encoder

  // ---------------------------------------------------------------------
  // The encoder and its chunks

  /** The settings of an ATONStreamEncoder.  stream_encode never consults
      the compression mode. */
  datatype StreamEncoder = StreamEncoder(chunkSize: Pos, compression: Mode)

  /** __init__: a chunk size below 1 raises ValueError. */
  function NewStreamEncoder(chunkSize: int, compression: Mode): (r: Result<StreamEncoder, Error>)
    ensures r.Failure? <==> chunkSize < 1
    ensures r.Failure? ==> r.error == ValueError
    ensures r.Success? ==> r.value.chunkSize == chunkSize && r.value.compression == compression
  {
    if chunkSize < 1 then Failure(ValueError) else Success(StreamEncoder(chunkSize, compression))
  }

  /** The metadata dict of a chunk; progress is the exact ratio
      (chunk_id + 1) / total_chunks. */
  datatype ChunkInfo = ChunkInfo(table: string, recordsInChunk: nat, startIdx: nat, endIdx: nat,
                                 totalRecords: nat, progress: Ratio)

  /** A StreamChunk (core/types.py): schema and defaults only on the first. */
  datatype StreamChunk = StreamChunk(chunkId: nat, totalChunks: nat, data: string, isFirst: bool, isLast: bool,
                                     metadata: ChunkInfo, schema: Option<Schema>, defaults: Option<Dict<Value>>)

  /** What the generator yields, in order, and the exception it then
      raises, if any. */
  datatype Stream = Stream(chunks: seq<StreamChunk>, error: Option<Error>)

  // ---------------------------------------------------------------------
  // Chunk arithmetic

  /** total_chunks = (n + chunk_size - 1) // chunk_size */
  function ChunkCount(n: nat, cs: Pos): nat {
    (n + cs - 1) / cs
  }

  /** start_idx = chunk_id * chunk_size */
  function ChunkStart(i: nat, cs: Pos): nat {
    i * cs
  }

  /** end_idx = min(start_idx + chunk_size, total_records) */
  function ChunkEnd(i: nat, n: nat, cs: Pos): nat {
    if ChunkStart(i, cs) + cs < n then ChunkStart(i, cs) + cs else n
  }

  /** records[start_idx:end_idx], empty when the slice starts past the end. */
  function ChunkRecords(records: seq<Value>, cs: Pos, i: nat): seq<Value> {
    if ChunkStart(i, cs) < |records| then records[ChunkStart(i, cs)..ChunkEnd(i, |records|, cs)] else []
  }

  // ---------------------------------------------------------------------
  // _format_record and _format_value

  /** The literals of the columns that are not elided, in schema order;
      _format_value quotes every string, '#' ones included. */
  function StreamFields(record: Record, schema: Schema, defaults: Dict<Value>): seq<string>
    decreases |schema|
  {
    if schema == [] then []
    else
      var name := schema[|schema| - 1].0;
      StreamFields(record, schema[..|schema| - 1], defaults) +
        (if E.Elided(record, name, defaults) then [] else [FormatQuoted(E.FieldValue(record, name))])
  }

  /** _format_record: .get() on a record that is not a dict raises (it is
      only called when the schema has a column). */
  function StreamRow(record: Value, schema: Schema, defaults: Dict<Value>): Result<string, Error> {
    if schema == [] then Success("")
    else if !record.Obj? then Failure(AttributeError)
    else Success(Join(", ", StreamFields(record.fields, schema, defaults)))
  }

  method FormatRecord(record: Value, schema: Schema, defaults: Dict<Value>) returns (r: Result<string, Error>)
    ensures r == StreamRow(record, schema, defaults)
  {
    if schema == [] {
      return Success("");
    }
    if !record.Obj? {
      return Failure(AttributeError);
    }
    var values: seq<string> := [];
    var i := 0;
    while i < |schema|
      invariant 0 <= i <= |schema|
      invariant values == StreamFields(record.fields, schema[..i], defaults)
    {
      var name := schema[i].0;
      assert schema[..i + 1][..i] == schema[..i];
      if !E.Elided(record.fields, name, defaults) {
        values := values + [FormatQuoted(E.FieldValue(record.fields, name))];
      }
      i := i + 1;
    }
    assert schema[..i] == schema;
    r := Success(Join(", ", values));
  }

  // ---------------------------------------------------------------------
  // _encode_full_chunk and _encode_rows_only

  /** The lines of the remaining records after the lines acc: each row
      indented; an empty row is kept only when keepEmpty.  The first record
      that cannot be formatted stops the loop. */
  function RowLinesFrom(records: seq<Value>, schema: Schema, defaults: Dict<Value>, keepEmpty: bool, acc: seq<string>): Result<seq<string>, Error>
    decreases |records|
  {
    if records == [] then Success(acc)
    else
      match StreamRow(records[0], schema, defaults)
      case Failure(e) => Failure(e)
      case Success(row) =>
        RowLinesFrom(records[1..], schema, defaults, keepEmpty, if keepEmpty || row != "" then acc + ["  " + row] else acc)
  }

  /** The header of a continuation chunk. */
  function ContinuationHeader(name: string, n: nat): string {
    name + "+(" + IntToString(n) + "):"
  }

  /** The lines of the first chunk before its rows. */
  function FullHead(records: seq<Value>, schema: Schema, defaults: Dict<Value>, name: string): seq<string> {
    [E.SchemaLine(schema)] + (if defaults != [] then [E.DefaultsLine(defaults)] else []) + ["\n" + E.Header(name, |records|)]
  }

  /** _encode_full_chunk: schema, defaults and header, then every row. */
  function FullChunkSpec(records: seq<Value>, schema: Schema, defaults: Dict<Value>, name: string): Result<string, Error> {
    var lines :- RowLinesFrom(records, schema, defaults, true, FullHead(records, schema, defaults, name));
    Success(Join("\n", lines))
  }

  /** _encode_rows_only: the continuation header, then the rows that are
      not empty. */
  function RowsOnlySpec(records: seq<Value>, schema: Schema, defaults: Dict<Value>, name: string): Result<string, Error> {
    var lines :- RowLinesFrom(records, schema, defaults, false, ["\n" + ContinuationHeader(name, |records|)]);
    Success(Join("\n", lines))
  }

  /** The row loop of both chunk encoders. */
  method AppendRows(records: seq<Value>, schema: Schema, defaults: Dict<Value>, keepEmpty: bool, head: seq<string>)
    returns (r: Result<seq<string>, Error>)
    ensures r == RowLinesFrom(records, schema, defaults, keepEmpty, head)
  {
    var lines := head;
    var i := 0;
    while i < |records|
      invariant 0 <= i <= |records|
      invariant RowLinesFrom(records[i..], schema, defaults, keepEmpty, lines) == RowLinesFrom(records, schema, defaults, keepEmpty, head)
    {
      assert records[i..][0] == records[i] && records[i..][1..] == records[i + 1..];
      var row := FormatRecord(records[i], schema, defaults);
      if row.Failure? {
        return Failure(row.error);
      }
      if keepEmpty || row.value != "" {
        lines := lines + ["  " + row.value];
      }
      i := i + 1;
    }
    r := Success(lines);
  }

  method EncodeFullChunk(records: seq<Value>, schema: Schema, defaults: Dict<Value>, name: string) returns (r: Result<string, Error>)
    ensures r == FullChunkSpec(records, schema, defaults, name)
  {
    var lines := [E.SchemaLine(schema)];
    if defaults != [] {
      lines := lines + [E.DefaultsLine(defaults)];
    }
    lines := lines + ["\n" + E.Header(name, |records|)];
    assert lines == FullHead(records, schema, defaults, name);
    var all := AppendRows(records, schema, defaults, true, lines);
    if all.Failure? {
      return Failure(all.error);
    }
    r := Success(Join("\n", all.value));
  }

  method EncodeRowsOnly(records: seq<Value>, schema: Schema, defaults: Dict<Value>, name: string) returns (r: Result<string, Error>)
    ensures r == RowsOnlySpec(records, schema, defaults, name)
  {
    var all := AppendRows(records, schema, defaults, false, ["\n" + ContinuationHeader(name, |records|)]);
    if all.Failure? {
      return Failure(all.error);
    }
    r := Success(Join("\n", all.value));
  }

  // ---------------------------------------------------------------------
  // _infer_defaults

  /** Values Counter can count. */
  predicate Hashables(values: seq<Value>) {
    forall k :: 0 <= k < |values| ==> IsHashable(values[k])
  }

  /** Some column of field_values holds a value Counter cannot count. */
  predicate SomeUnhashable(fv: Dict<seq<Value>>) {
    exists k :: 0 <= k < |fv| && !Hashables(fv[k].1)
  }

  /** _infer_defaults of the stream encoder: the core encoder's choice over
      the first min(100, n) records, except that Counter over a column
      holding a list or a dict raises TypeError, which nothing catches. */
  function StreamDefaultsSpec(records: seq<Value>): Result<Dict<Value>, Error> {
    if records == [] then Success([])
    else
      var sample := records[..E.SampleSize(|records|)];
      if E.FirstNonDict(sample).Some? then Failure(AttributeError)
      else
        var fv := E.FieldValues(E.Fields(sample));
        if SomeUnhashable(fv) then Failure(TypeError)
        else Success(E.ChooseDefaults([], fv))
  }

  method InferStreamDefaults(records: seq<Value>) returns (r: Result<Dict<Value>, Error>)
    ensures r == StreamDefaultsSpec(records)
  {
    if records == [] {
      return Success([]);
    }
    var sample := records[..E.SampleSize(|records|)];
    var collected := E.CollectFieldValues(sample);
    if collected.Failure? {
      return Failure(collected.error);
    }
    var fv := collected.value;
    var defaults: Dict<Value> := [];
    var k := 0;
    while k < |fv|
      invariant 0 <= k <= |fv|
      invariant forall j :: 0 <= j < k ==> Hashables(fv[j].1)
      invariant E.ChooseDefaults(defaults, fv[k..]) == E.ChooseDefaults([], fv)
    {
      var (field, values) := fv[k];
      assert fv[k..][0] == fv[k] && fv[k..][1..] == fv[k + 1..];
      if !Hashables(values) {
        return Failure(TypeError);
      }
      var best := E.DefaultFor(values);
      if best.Some? {
        defaults := Put(defaults, field, best.value);
      }
      k := k + 1;
    }
    r := Success(defaults);
  }

  // ---------------------------------------------------------------------
  // stream_encode

  /** The table stream_encode streams, or the error it raises first. */
  function StreamTable(data: Dict<Value>, tableName: Option<string>): Result<(string, seq<Value>), Error> {
    if data == [] then Failure(EncodingError(EmptyData))
    else if tableName.None? && |data| != 1 then Failure(EncodingError(MultipleTables))
    else
      var name := if tableName.Some? then tableName.value else data[0].0;
      var table: Option<Value> := Get(data, name);
      if table.None? then Failure(EncodingError(StreamTableNotFound(name)))
      else if !table.value.Arr? then Failure(EncodingError(TableNotList(name)))
      else Success((name, table.value.items))
  }

  /** The chunk chunk_id = i of a table of n records. */
  function ChunkAt(records: seq<Value>, cs: Pos, name: string, schema: Schema, defaults: Dict<Value>, i: nat): Result<StreamChunk, Error>
    requires i < ChunkCount(|records|, cs)
  {
    var total := ChunkCount(|records|, cs);
    var part := ChunkRecords(records, cs, i);
    var data :- if i == 0 then FullChunkSpec(part, schema, defaults, name) else RowsOnlySpec(part, schema, defaults, name);
    Success(StreamChunk(i, total, data, i == 0, i == total - 1,
      ChunkInfo(name, |part|, ChunkStart(i, cs), ChunkEnd(i, |records|, cs), |records|, Ratio(i + 1, total)),
      if i == 0 then Some(schema) else None, if i == 0 then Some(defaults) else None))
  }

  /** What encoding each chunk of the table gives, chunk_id = 0, 1, ... */
  function ChunkResults(records: seq<Value>, cs: Pos, name: string, schema: Schema, defaults: Dict<Value>)
    : (rs: seq<Result<StreamChunk, Error>>)
    ensures |rs| == ChunkCount(|records|, cs)
    ensures forall k :: 0 <= k < |rs| ==> rs[k] == ChunkAt(records, cs, name, schema, defaults, k)
  {
    seq(ChunkCount(|records|, cs), k requires 0 <= k < ChunkCount(|records|, cs) => ChunkAt(records, cs, name, schema, defaults, k))
  }

  /** The chunks from chunk_id = i on, after the chunks acc: each yielded
      in turn, until one fails to encode and the stream ends with its error. */
  function Collect(results: seq<Result<StreamChunk, Error>>, i: nat, acc: seq<StreamChunk>): Stream
    decreases |results| - i
  {
    if i >= |results| then Stream(acc, None)
    else
      match results[i]
      case Failure(e) => Stream(acc, Some(e))
      case Success(c) => Collect(results, i + 1, acc + [c])
  }

  /** stream_encode run to its end: the table's checks, schema and
      defaults inference when there are records, then the chunks. */
  function StreamSpec(enc: StreamEncoder, data: Dict<Value>, tableName: Option<string>): Stream {
    match StreamTable(data, tableName)
    case Failure(e) => Stream([], Some(e))
    case Success((name, records)) =>
      if records != [] && !records[0].Obj? then Stream([], Some(AttributeError))
      else
        match StreamDefaultsSpec(records)
        case Failure(e) => Stream([], Some(e))
        case Success(defaults) => Collect(ChunkResults(records, enc.chunkSize, name, E.TableSchema(records), defaults), 0, [])
  }

  /** The checks stream_encode makes on its arguments, in order. */
  method SelectTable(data: Dict<Value>, tableName: Option<string>) returns (r: Result<(string, seq<Value>), Error>)
    ensures r == StreamTable(data, tableName)
  {
    if data == [] {
      return Failure(EncodingError(EmptyData));
    }
    var name: string;
    if tableName.None? {
      if |data| != 1 {
        return Failure(EncodingError(MultipleTables));
      }
      name := data[0].0;
    } else {
      name := tableName.value;
    }
    var table: Option<Value> := Get(data, name);
    if table.None? {
      return Failure(EncodingError(StreamTableNotFound(name)));
    }
    if !table.value.Arr? {
      return Failure(EncodingError(TableNotList(name)));
    }
    r := Success((name, table.value.items));
  }

  /** One round of the chunk loop: the slice, its text and the chunk. */
  method EncodeChunk(records: seq<Value>, cs: Pos, name: string, schema: Schema, defaults: Dict<Value>, chunkId: nat)
    returns (r: Result<StreamChunk, Error>)
    requires chunkId < ChunkCount(|records|, cs)
    ensures r == ChunkAt(records, cs, name, schema, defaults, chunkId)
  {
    var total := (|records| + cs - 1) / cs;
    var startIdx := chunkId * cs;
    var endIdx := if startIdx + cs < |records| then startIdx + cs else |records|;
    ChunkInside(|records|, cs, chunkId);
    var part := records[startIdx..endIdx];
    assert part == ChunkRecords(records, cs, chunkId);
    var text: Result<string, Error>;
    if chunkId == 0 {
      text := EncodeFullChunk(part, schema, defaults, name);
    } else {
      text := EncodeRowsOnly(part, schema, defaults, name);
    }
    if text.Failure? {
      return Failure(text.error);
    }
    r := Success(StreamChunk(chunkId, total, text.value, chunkId == 0, chunkId == total - 1,
      ChunkInfo(name, |part|, startIdx, endIdx, |records|, Ratio(chunkId + 1, total)),
      if chunkId == 0 then Some(schema) else None, if chunkId == 0 then Some(defaults) else None));
  }

  /** The for chunk_id loop, each chunk yielded in turn. */
  method EmitChunks(records: seq<Value>, cs: Pos, name: string, schema: Schema, defaults: Dict<Value>)
    returns (chunks: seq<StreamChunk>, error: Option<Error>)
    ensures Stream(chunks, error) == Collect(ChunkResults(records, cs, name, schema, defaults), 0, [])
  {
    var total := (|records| + cs - 1) / cs;
    ghost var results := ChunkResults(records, cs, name, schema, defaults);
    assert total == |results|;
    chunks := [];
    for chunkId := 0 to total
      invariant Collect(results, chunkId, chunks) == Collect(results, 0, [])
    {
      var chunk := EncodeChunk(records, cs, name, schema, defaults, chunkId);
      assert chunk == results[chunkId];
      CollectStep(results, chunkId, chunks);
      if chunk.Failure? {
        return chunks, Some(chunk.error);
      }
      chunks := chunks + [chunk.value];
    }
    error := None;
  }

  method StreamEncode(enc: StreamEncoder, data: Dict<Value>, tableName: Option<string>) returns (chunks: seq<StreamChunk>, error: Option<Error>)
    ensures Stream(chunks, error) == StreamSpec(enc, data, tableName)
  {
    var table := SelectTable(data, tableName);
    if table.Failure? {
      return [], Some(table.error);
    }
    var (name, records) := table.value;
    var schema: Schema := [];
    var defaults: Dict<Value> := [];
    if records != [] {
      if !records[0].Obj? {
        return [], Some(AttributeError);
      }
      schema := E.InferSchema(records[0].fields);
      var inferred := InferStreamDefaults(records);
      if inferred.Failure? {
        return [], Some(inferred.error);
      }
      defaults := inferred.value;
    } else {
      assert StreamDefaultsSpec(records) == Success([]);
    }
    assert schema == E.TableSchema(records);
    chunks, error := EmitChunks(records, enc.chunkSize, name, schema, defaults);
  }

  /** One round of Collect. */
  lemma CollectStep(results: seq<Result<StreamChunk, Error>>, i: nat, acc: seq<StreamChunk>)
    requires i < |results|
    ensures Collect(results, i, acc) ==
      if results[i].Failure? then Stream(acc, Some(results[i].error)) else Collect(results, i + 1, acc + [results[i].value])
  {
  }

  /** A chunk before the last starts inside the table. */
  lemma ChunkInside(n: nat, cs: Pos, i: nat)
    requires i < ChunkCount(n, cs)
    ensures ChunkStart(i, cs) < n
  {
    var q := ChunkCount(n, cs);
    assert q * cs <= n + cs - 1;
    assert i * cs <= (q - 1) * cs by {
      MulMonotone(i, q - 1, cs);
    }
    assert (q - 1) * cs == q * cs - cs;
  }

  lemma MulMonotone(a: nat, b: nat, c: nat)
    requires a <= b
    ensures a * c <= b * c
  {
  }
}
