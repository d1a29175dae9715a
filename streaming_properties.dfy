/** What stream_encode promises: ceil(n / chunk_size) chunks whose slices
    put the table back together in order, numbered with their progress,
    exactly one of them opening with the @schema line; later chunks drop
    their empty rows; strings read back as written; defaults raise
    TypeError exactly when a sampled record holds a list or a dict. */
module StreamingProperties {
  import opened Wrappers
  import opened Text
  import opened Values
  import opened Errors
  import opened Literals
  import opened Compression
  import opened Streaming
  import E = Encoder
  import EP = EncoderProperties
  import RT = RoundTrip

  // ---------------------------------------------------------------------
  // Chunk arithmetic

  /** total_chunks is the ceiling of n / chunk_size. */
  lemma ChunkCountIsCeiling(n: nat, cs: Pos)
    ensures ChunkCount(n, cs) * cs >= n
    ensures ChunkCount(n, cs) > 0 ==> (ChunkCount(n, cs) - 1) * cs < n
    ensures n == 0 <==> ChunkCount(n, cs) == 0
  {
    var q := ChunkCount(n, cs);
    var r := (n + cs - 1) % cs;
    assert n + cs - 1 == q * cs + r && 0 <= r < cs;
    if q > 0 {
      assert (q - 1) * cs == q * cs - cs;
    }
  }

  /** Every chunk holds between 1 and chunk_size records; each ends where
      the next starts, and the last ends at the end of the table. */
  lemma ChunkBounds(n: nat, cs: Pos, i: nat)
    requires i < ChunkCount(n, cs)
    ensures ChunkStart(i, cs) < ChunkEnd(i, n, cs) <= n
    ensures ChunkEnd(i, n, cs) - ChunkStart(i, cs) <= cs
    ensures i + 1 < ChunkCount(n, cs) ==> ChunkEnd(i, n, cs) == ChunkStart(i + 1, cs)
    ensures i + 1 == ChunkCount(n, cs) ==> ChunkEnd(i, n, cs) == n
  {
    ChunkInside(n, cs, i);
    assert ChunkStart(i + 1, cs) == ChunkStart(i, cs) + cs;
    if i + 1 < ChunkCount(n, cs) {
      ChunkInside(n, cs, i + 1);
    } else {
      ChunkCountIsCeiling(n, cs);
    }
  }

  /** The records of chunks 0 .. k-1, in order. */
  function Gathered(records: seq<Value>, cs: Pos, k: nat): seq<Value> {
    if k == 0 then [] else Gathered(records, cs, k - 1) + ChunkRecords(records, cs, k - 1)
  }

  /** min(k * chunk_size, n) */
  function Reach(k: nat, n: nat, cs: Pos): nat {
    if k * cs < n then k * cs else n
  }

  /** Chunk k-1 runs from Reach(k-1) to Reach(k). */
  lemma ReachStep(n: nat, cs: Pos, k: nat)
    requires 0 < k <= ChunkCount(n, cs)
    ensures Reach(k - 1, n, cs) == ChunkStart(k - 1, cs)
    ensures Reach(k, n, cs) == ChunkEnd(k - 1, n, cs)
  {
    ChunkInside(n, cs, k - 1);
    assert k * cs == (k - 1) * cs + cs;
  }

  /** Chunk i is the slice between its start and end. */
  lemma ChunkSlice(records: seq<Value>, cs: Pos, i: nat)
    requires i < ChunkCount(|records|, cs)
    ensures ChunkStart(i, cs) <= ChunkEnd(i, |records|, cs) <= |records|
    ensures ChunkRecords(records, cs, i) == records[ChunkStart(i, cs)..ChunkEnd(i, |records|, cs)]
  {
    ChunkBounds(|records|, cs, i);
  }

  /** A prefix followed by the slice after it. */
  lemma PrefixThenSlice(records: seq<Value>, s: nat, e: nat)
    requires s <= e <= |records|
    ensures records[..s] + records[s..e] == records[..e]
  {
  }

  /** The first k chunks hold the first min(k * chunk_size, n) records. */
  lemma {:induction false} GatheredPrefix(records: seq<Value>, cs: Pos, k: nat)
    requires k <= ChunkCount(|records|, cs)
    ensures Gathered(records, cs, k) == records[..Reach(k, |records|, cs)]
  {
    if k > 0 {
      GatheredPrefix(records, cs, k - 1);
      ReachStep(|records|, cs, k);
      ChunkSlice(records, cs, k - 1);
      PrefixThenSlice(records, ChunkStart(k - 1, cs), ChunkEnd(k - 1, |records|, cs));
    }
  }

  /** All the chunks together hold the table. */
  lemma ChunksPartition(records: seq<Value>, cs: Pos)
    ensures Gathered(records, cs, ChunkCount(|records|, cs)) == records
  {
    var q := ChunkCount(|records|, cs);
    GatheredPrefix(records, cs, q);
    ChunkCountIsCeiling(|records|, cs);
    assert Reach(q, |records|, cs) == |records|;
  }

  // ---------------------------------------------------------------------
  // The chunks a stream yields

  /** records[start_idx:end_idx] of a chunk's metadata. */
  function Span(records: seq<Value>, info: ChunkInfo): seq<Value> {
    if info.startIdx <= info.endIdx <= |records| then records[info.startIdx..info.endIdx] else []
  }

  /** The records the chunks' metadata point at, one chunk after another. */
  function Spans(records: seq<Value>, chunks: seq<StreamChunk>): seq<Value>
    decreases |chunks|
  {
    if chunks == [] then [] else Spans(records, chunks[..|chunks| - 1]) + Span(records, chunks[|chunks| - 1].metadata)
  }

  /** The stream holds the results' chunks in order, all of them unless
      one is a failure, and then it ends with that failure's error. */
  predicate Collected(results: seq<Result<StreamChunk, Error>>, s: Stream) {
    |s.chunks| <= |results| &&
    (forall k :: 0 <= k < |s.chunks| ==> results[k] == Success(s.chunks[k])) &&
    (s.error.None? <==> |s.chunks| == |results|) &&
    (s.error.Some? ==> (|s.chunks| < |results| && results[|s.chunks|] == Failure(s.error.value)))
  }

  /** The chunk loop yields the chunks in order, all of them unless one
      fails to encode, and then its error. */
  lemma {:induction false} CollectMeaning(results: seq<Result<StreamChunk, Error>>, i: nat, acc: seq<StreamChunk>)
    requires i == |acc| <= |results|
    requires forall k :: 0 <= k < |acc| ==> results[k] == Success(acc[k])
    ensures Collected(results, Collect(results, i, acc))
    decreases |results| - i
  {
    if i < |results| && results[i].Success? {
      var acc' := acc + [results[i].value];
      assert forall k :: 0 <= k < |acc'| ==> results[k] == Success(acc'[k]) by {
        assert forall k :: 0 <= k < |acc| ==> acc'[k] == acc[k];
      }
      CollectMeaning(results, i + 1, acc');
    }
  }

  /** The stream of a table's chunks: chunk k of it is ChunkAt's chunk k. */
  lemma StreamOfChunks(records: seq<Value>, cs: Pos, name: string, schema: Schema, defaults: Dict<Value>)
    ensures var s := Collect(ChunkResults(records, cs, name, schema, defaults), 0, []);
      |s.chunks| <= ChunkCount(|records|, cs) &&
      (forall k :: 0 <= k < |s.chunks| ==> ChunkAt(records, cs, name, schema, defaults, k) == Success(s.chunks[k])) &&
      (s.error.None? <==> |s.chunks| == ChunkCount(|records|, cs)) &&
      (s.error.Some? ==> (|s.chunks| < ChunkCount(|records|, cs) &&
         ChunkAt(records, cs, name, schema, defaults, |s.chunks|) == Failure(s.error.value)))
  {
    var results := ChunkResults(records, cs, name, schema, defaults);
    CollectMeaning(results, 0, []);
    var s := Collect(results, 0, []);
    assert forall k :: 0 <= k < |s.chunks| ==> results[k] == Success(s.chunks[k]);
  }

  /** Chunk k's metadata points at chunk k's slice, for every k. */
  predicate Sliced(records: seq<Value>, cs: Pos, chunks: seq<StreamChunk>) {
    |chunks| <= ChunkCount(|records|, cs) &&
    forall k :: 0 <= k < |chunks| ==>
      chunks[k].metadata.startIdx == ChunkStart(k, cs) && chunks[k].metadata.endIdx == ChunkEnd(k, |records|, cs)
  }

  /** ChunkAt's chunks are sliced. */
  lemma ChunksSliced(records: seq<Value>, cs: Pos, name: string, schema: Schema, defaults: Dict<Value>, chunks: seq<StreamChunk>)
    requires |chunks| <= ChunkCount(|records|, cs)
    requires forall k :: 0 <= k < |chunks| ==> ChunkAt(records, cs, name, schema, defaults, k) == Success(chunks[k])
    ensures Sliced(records, cs, chunks)
  {
    forall k | 0 <= k < |chunks|
      ensures chunks[k].metadata.startIdx == ChunkStart(k, cs) && chunks[k].metadata.endIdx == ChunkEnd(k, |records|, cs)
    {
      assert ChunkAt(records, cs, name, schema, defaults, k) == Success(chunks[k]);
    }
  }

  /** The slices of chunks 0 .. k-1 are Gathered's. */
  lemma {:induction false} SpansGathered(records: seq<Value>, cs: Pos, chunks: seq<StreamChunk>)
    requires Sliced(records, cs, chunks)
    ensures Spans(records, chunks) == Gathered(records, cs, |chunks|)
    decreases |chunks|
  {
    if chunks != [] {
      var k := |chunks| - 1;
      var init := chunks[..k];
      assert Sliced(records, cs, init) by {
        assert forall j :: 0 <= j < |init| ==> init[j] == chunks[j];
      }
      SpansGathered(records, cs, init);
      ChunkSlice(records, cs, k);
      assert Span(records, chunks[k].metadata) == ChunkRecords(records, cs, k);
    }
  }

  /** What a chunk says about itself, chunk k of the stream. */
  predicate Numbered(c: StreamChunk, k: nat) {
    c.chunkId == k && k < c.totalChunks &&
    (c.isFirst <==> k == 0) && (c.isLast <==> k == c.totalChunks - 1) &&
    c.metadata.progress.num == k + 1 && c.metadata.progress.den == c.totalChunks &&
    (c.schema.Some? <==> k == 0) && (c.defaults.Some? <==> k == 0) &&
    0 < c.metadata.recordsInChunk == c.metadata.endIdx - c.metadata.startIdx
  }

  /** The first chunk's text opens with the @schema line; a later chunk's
      text opens with the blank line before its continuation header. */
  predicate Opening(c: StreamChunk, k: nat) {
    (k == 0 ==> StartsWith(c.data, "@schema[")) &&
    (k > 0 ==> c.data != [] && c.data[0] == '\n')
  }

  /** The head lines survive the row loop. */
  lemma {:induction false} RowLinesKeepHead(records: seq<Value>, schema: Schema, defaults: Dict<Value>, keepEmpty: bool, acc: seq<string>)
    requires RowLinesFrom(records, schema, defaults, keepEmpty, acc).Success?
    ensures var lines := RowLinesFrom(records, schema, defaults, keepEmpty, acc).value;
      |acc| <= |lines| && lines[..|acc|] == acc
    decreases |records|
  {
    if records != [] {
      var row := StreamRow(records[0], schema, defaults).value;
      var acc' := if keepEmpty || row != "" then acc + ["  " + row] else acc;
      RowLinesKeepHead(records[1..], schema, defaults, keepEmpty, acc');
      assert acc'[..|acc|] == acc;
    }
  }

  /** A text that opens with a character other than p's does not start with p. */
  lemma OtherOpening(t: string, p: string)
    requires t != [] && p != [] && t[0] != p[0]
    ensures !StartsWith(t, p)
  {
    if |p| <= |t| {
      assert t[..|p|][0] == t[0];
    }
  }

  /** The first chunk's text opens with its first head line, the @schema line. */
  lemma FirstOpening(part: seq<Value>, schema: Schema, defaults: Dict<Value>, name: string)
    requires FullChunkSpec(part, schema, defaults, name).Success?
    ensures StartsWith(FullChunkSpec(part, schema, defaults, name).value, "@schema[")
  {
    var head := FullHead(part, schema, defaults, name);
    RowLinesKeepHead(part, schema, defaults, true, head);
    var lines := RowLinesFrom(part, schema, defaults, true, head).value;
    assert lines[0] == E.SchemaLine(schema);
    EP.JoinStarts("\n", lines);
    var t := FullChunkSpec(part, schema, defaults, name).value;
    assert t[..|lines[0]|] == lines[0];
    assert t[..8] == lines[0][..8];
  }

  /** A continuation chunk's text opens with the blank line before its header. */
  lemma LaterOpening(part: seq<Value>, schema: Schema, defaults: Dict<Value>, name: string)
    requires RowsOnlySpec(part, schema, defaults, name).Success?
    ensures var t := RowsOnlySpec(part, schema, defaults, name).value; t != [] && t[0] == '\n'
  {
    var head := ["\n" + ContinuationHeader(name, |part|)];
    RowLinesKeepHead(part, schema, defaults, false, head);
    var lines := RowLinesFrom(part, schema, defaults, false, head).value;
    assert lines[0] == head[0];
    EP.JoinStarts("\n", lines);
    var t := RowsOnlySpec(part, schema, defaults, name).value;
    assert t[..|lines[0]|] == lines[0];
    assert t[0] == lines[0][0];
  }

  /** How the text of chunk i opens. */
  lemma ChunkOpening(records: seq<Value>, cs: Pos, name: string, schema: Schema, defaults: Dict<Value>, i: nat)
    requires i < ChunkCount(|records|, cs)
    requires ChunkAt(records, cs, name, schema, defaults, i).Success?
    ensures Opening(ChunkAt(records, cs, name, schema, defaults, i).value, i)
  {
    var part := ChunkRecords(records, cs, i);
    if i == 0 {
      FirstOpening(part, schema, defaults, name);
    } else {
      LaterOpening(part, schema, defaults, name);
    }
  }

  /** The fields of chunk i. */
  lemma ChunkNumbered(records: seq<Value>, cs: Pos, name: string, schema: Schema, defaults: Dict<Value>, i: nat)
    requires i < ChunkCount(|records|, cs)
    requires ChunkAt(records, cs, name, schema, defaults, i).Success?
    ensures var c := ChunkAt(records, cs, name, schema, defaults, i).value;
      Numbered(c, i) && c.totalChunks == ChunkCount(|records|, cs) &&
      c.metadata.table == name && c.metadata.totalRecords == |records|
  {
    ChunkBounds(|records|, cs, i);
  }

  // ---------------------------------------------------------------------
  // stream_encode

  /** A stream that reaches the chunk loop: its table, defaults and chunks. */
  lemma StreamParts(enc: StreamEncoder, data: Dict<Value>, tableName: Option<string>)
    returns (name: string, records: seq<Value>, defaults: Dict<Value>)
    requires var s := StreamSpec(enc, data, tableName); s.chunks != [] || s.error.None?
    ensures StreamTable(data, tableName) == Success((name, records))
    ensures records != [] ==> records[0].Obj?
    ensures StreamDefaultsSpec(records) == Success(defaults)
    ensures StreamSpec(enc, data, tableName) ==
      Collect(ChunkResults(records, enc.chunkSize, name, E.TableSchema(records), defaults), 0, [])
  {
    name, records := StreamTable(data, tableName).value.0, StreamTable(data, tableName).value.1;
    defaults := StreamDefaultsSpec(records).value;
  }

  /** A stream that ends without an error has ceil(n / chunk_size) chunks,
      and their slices, one after another, are the table's records. */
  lemma StreamCoversTable(enc: StreamEncoder, data: Dict<Value>, tableName: Option<string>)
    ensures var s := StreamSpec(enc, data, tableName);
      s.error.None? ==>
        StreamTable(data, tableName).Success? &&
        var records := StreamTable(data, tableName).value.1;
        |s.chunks| == ChunkCount(|records|, enc.chunkSize) && Spans(records, s.chunks) == records
  {
    var s := StreamSpec(enc, data, tableName);
    if s.error.None? {
      var name, records, defaults := StreamParts(enc, data, tableName);
      var schema := E.TableSchema(records);
      StreamOfChunks(records, enc.chunkSize, name, schema, defaults);
      ChunksSliced(records, enc.chunkSize, name, schema, defaults, s.chunks);
      SpansGathered(records, enc.chunkSize, s.chunks);
      ChunksPartition(records, enc.chunkSize);
    }
  }

  /** Every chunk yielded is numbered in order with its progress, and only
      chunk 0 carries the schema, the defaults and the @schema line. */
  lemma StreamChunksNumbered(enc: StreamEncoder, data: Dict<Value>, tableName: Option<string>)
    ensures var s := StreamSpec(enc, data, tableName);
      forall k :: 0 <= k < |s.chunks| ==> Numbered(s.chunks[k], k) && Opening(s.chunks[k], k)
  {
    var s := StreamSpec(enc, data, tableName);
    if s.chunks != [] {
      var name, records, defaults := StreamParts(enc, data, tableName);
      var schema := E.TableSchema(records);
      StreamOfChunks(records, enc.chunkSize, name, schema, defaults);
      forall k | 0 <= k < |s.chunks| ensures Numbered(s.chunks[k], k) && Opening(s.chunks[k], k) {
        ChunkNumbered(records, enc.chunkSize, name, schema, defaults, k);
        ChunkOpening(records, enc.chunkSize, name, schema, defaults, k);
      }
    }
  }

  /** In a stream that ends without an error exactly one chunk, the first,
      opens with the @schema line, and exactly one, the last, is marked
      last with progress 1. */
  lemma StreamOneHeader(enc: StreamEncoder, data: Dict<Value>, tableName: Option<string>)
    ensures var s := StreamSpec(enc, data, tableName);
      s.error.None? ==>
        forall k :: 0 <= k < |s.chunks| ==>
          (StartsWith(s.chunks[k].data, "@schema[") <==> k == 0) &&
          s.chunks[k].totalChunks == |s.chunks| &&
          (s.chunks[k].isLast <==> k == |s.chunks| - 1) &&
          (s.chunks[k].metadata.progress.num == s.chunks[k].metadata.progress.den <==> s.chunks[k].isLast)
  {
    var s := StreamSpec(enc, data, tableName);
    StreamChunksNumbered(enc, data, tableName);
    if s.error.None? && s.chunks != [] {
      var name, records, defaults := StreamParts(enc, data, tableName);
      var schema := E.TableSchema(records);
      StreamOfChunks(records, enc.chunkSize, name, schema, defaults);
      forall k | 0 <= k < |s.chunks|
        ensures s.chunks[k].totalChunks == |s.chunks|
        ensures StartsWith(s.chunks[k].data, "@schema[") <==> k == 0
      {
        ChunkNumbered(records, enc.chunkSize, name, schema, defaults, k);
        if k > 0 {
          OtherOpening(s.chunks[k].data, "@schema[");
        }
      }
    }
  }

  /** A stream stopped by an error after some chunks stopped at the chunk
      after them, which failed to encode. */
  lemma StreamStopsAtFailingChunk(enc: StreamEncoder, data: Dict<Value>, tableName: Option<string>)
    ensures var s := StreamSpec(enc, data, tableName);
      s.error.Some? && s.chunks != [] ==>
        StreamTable(data, tableName).Success? &&
        var (name, records) := StreamTable(data, tableName).value;
        records != [] && records[0].Obj? &&
        StreamDefaultsSpec(records).Success? &&
        |s.chunks| < ChunkCount(|records|, enc.chunkSize) &&
        ChunkAt(records, enc.chunkSize, name, E.TableSchema(records), StreamDefaultsSpec(records).value, |s.chunks|)
          == Failure(s.error.value)
  {
    var s := StreamSpec(enc, data, tableName);
    if s.error.Some? && s.chunks != [] {
      var name, records, defaults := StreamParts(enc, data, tableName);
      StreamOfChunks(records, enc.chunkSize, name, E.TableSchema(records), defaults);
    }
  }

  /** The table checks, in order: no tables, several tables and no name,
      a missing table, a table that is not a list. */
  lemma StreamTableChecks(data: Dict<Value>, tableName: Option<string>)
    ensures data == [] ==> StreamTable(data, tableName) == Failure(EncodingError(EmptyData))
    ensures data != [] && tableName.None? && |data| != 1 ==>
      StreamTable(data, tableName) == Failure(EncodingError(MultipleTables))
    ensures data != [] && tableName.Some? && !HasKey(data, tableName.value) ==>
      StreamTable(data, tableName) == Failure(EncodingError(StreamTableNotFound(tableName.value)))
    ensures data != [] && tableName.Some? && HasKey(data, tableName.value) && !Get(data, tableName.value).value.Arr? ==>
      StreamTable(data, tableName) == Failure(EncodingError(TableNotList(tableName.value)))
    ensures StreamTable(data, tableName).Success? ==>
      var (name, records) := StreamTable(data, tableName).value;
      Get(data, name) == Some(Arr(records)) && (tableName.Some? ==> name == tableName.value) &&
      (tableName.None? ==> [data[0].0] == Keys(data))
  {
  }

  /** A failed table check ends the stream before its first chunk. */
  lemma StreamTableFailure(enc: StreamEncoder, data: Dict<Value>, tableName: Option<string>)
    requires StreamTable(data, tableName).Failure?
    ensures StreamSpec(enc, data, tableName) == Stream([], Some(StreamTable(data, tableName).error))
  {
  }

  /** A table with no records yields nothing and ends cleanly; one whose
      first record is not a dict raises AttributeError before any chunk. */
  lemma StreamFirstRecord(enc: StreamEncoder, data: Dict<Value>, tableName: Option<string>)
    requires StreamTable(data, tableName).Success?
    ensures StreamTable(data, tableName).value.1 == [] ==> StreamSpec(enc, data, tableName) == Stream([], None)
    ensures var records := StreamTable(data, tableName).value.1;
      records != [] && !records[0].Obj? ==> StreamSpec(enc, data, tableName) == Stream([], Some(AttributeError))
  {
  }

  // ---------------------------------------------------------------------
  // Rows

  /** Records every row of which can be formatted. */
  predicate Formattable(records: seq<Value>, schema: Schema, defaults: Dict<Value>) {
    forall i :: 0 <= i < |records| ==> StreamRow(records[i], schema, defaults).Success?
  }

  /** The rows, one per record. */
  function StreamTexts(records: seq<Value>, schema: Schema, defaults: Dict<Value>): (rows: seq<string>)
    requires Formattable(records, schema, defaults)
    ensures |rows| == |records|
    ensures forall i :: 0 <= i < |records| ==> rows[i] == StreamRow(records[i], schema, defaults).value
  {
    seq(|records|, i requires 0 <= i < |records| => StreamRow(records[i], schema, defaults).value)
  }

  /** The indented lines of the rows, empty rows only when keepEmpty. */
  function IndentedRows(keepEmpty: bool, rows: seq<string>): seq<string> {
    if rows == [] then []
    else (if keepEmpty || rows[0] != "" then ["  " + rows[0]] else []) + IndentedRows(keepEmpty, rows[1..])
  }

  /** Keeping every row is indenting every row. */
  lemma {:induction false} KeepingEveryRow(rows: seq<string>)
    ensures IndentedRows(true, rows) == RT.Indent(rows)
    decreases |rows|
  {
    if rows != [] {
      KeepingEveryRow(rows[1..]);
      assert RT.Indent(rows) == ["  " + rows[0]] + RT.Indent(rows[1..]);
    }
  }

  /** Without keepEmpty a line is there iff it indents a row that is not empty. */
  lemma {:induction false} DroppingEmptyRows(rows: seq<string>, line: string)
    ensures line in IndentedRows(false, rows) <==> exists k :: 0 <= k < |rows| && rows[k] != "" && line == "  " + rows[k]
    decreases |rows|
  {
    if rows != [] {
      DroppingEmptyRows(rows[1..], line);
      if exists k :: 0 <= k < |rows[1..]| && rows[1..][k] != "" && line == "  " + rows[1..][k] {
        var k :| 0 <= k < |rows[1..]| && rows[1..][k] != "" && line == "  " + rows[1..][k];
        assert rows[k + 1] == rows[1..][k];
      }
      if exists k :: 0 <= k < |rows| && rows[k] != "" && line == "  " + rows[k] {
        var k :| 0 <= k < |rows| && rows[k] != "" && line == "  " + rows[k];
        if k > 0 {
          assert rows[1..][k - 1] == rows[k];
        }
      }
    }
  }

  /** The row loop succeeds iff every row can be formatted. */
  lemma {:induction false} RowLinesSucceed(records: seq<Value>, schema: Schema, defaults: Dict<Value>, keepEmpty: bool, acc: seq<string>)
    ensures RowLinesFrom(records, schema, defaults, keepEmpty, acc).Success? <==> Formattable(records, schema, defaults)
    decreases |records|
  {
    if records != [] {
      var rest := records[1..];
      var r := StreamRow(records[0], schema, defaults);
      if r.Success? {
        var acc' := if keepEmpty || r.value != "" then acc + ["  " + r.value] else acc;
        RowLinesSucceed(rest, schema, defaults, keepEmpty, acc');
        if !Formattable(rest, schema, defaults) {
          var i :| 0 <= i < |rest| && !StreamRow(rest[i], schema, defaults).Success?;
          assert rest[i] == records[i + 1];
        }
        if !Formattable(records, schema, defaults) {
          var i :| 0 <= i < |records| && !StreamRow(records[i], schema, defaults).Success?;
          assert rest[i - 1] == records[i];
        }
      }
    }
  }

  /** After the head lines the row loop adds the indented rows it keeps. */
  lemma {:induction false} RowLinesValue(records: seq<Value>, schema: Schema, defaults: Dict<Value>, keepEmpty: bool, acc: seq<string>)
    requires Formattable(records, schema, defaults)
    ensures RowLinesFrom(records, schema, defaults, keepEmpty, acc) ==
      Success(acc + IndentedRows(keepEmpty, StreamTexts(records, schema, defaults)))
    decreases |records|
  {
    if records != [] {
      var rest := records[1..];
      var texts := StreamTexts(records, schema, defaults);
      assert Formattable(rest, schema, defaults) by {
        assert forall i :: 0 <= i < |rest| ==> rest[i] == records[i + 1];
      }
      var r := StreamRow(records[0], schema, defaults).value;
      var line: seq<string> := if keepEmpty || r != "" then ["  " + r] else [];
      assert (if keepEmpty || r != "" then acc + ["  " + r] else acc) == acc + line;
      assert RowLinesFrom(records, schema, defaults, keepEmpty, acc) == RowLinesFrom(rest, schema, defaults, keepEmpty, acc + line);
      RowLinesValue(rest, schema, defaults, keepEmpty, acc + line);
      assert texts[0] == r;
      assert texts[1..] == StreamTexts(rest, schema, defaults);
      IndentedRowsCons(keepEmpty, texts, acc);
    } else {
      assert StreamTexts(records, schema, defaults) == [];
      assert acc + [] == acc;
    }
  }

  /** One row off the front of IndentedRows. */
  lemma IndentedRowsCons(keepEmpty: bool, rows: seq<string>, acc: seq<string>)
    requires rows != []
    ensures acc + IndentedRows(keepEmpty, rows) ==
      (acc + if keepEmpty || rows[0] != "" then ["  " + rows[0]] else []) + IndentedRows(keepEmpty, rows[1..])
  {
  }

  /** The text of chunk i: the first holds the head lines and every row,
      a later one the continuation header and only its non-empty rows. */
  lemma ChunkText(records: seq<Value>, cs: Pos, name: string, schema: Schema, defaults: Dict<Value>, i: nat)
    requires i < ChunkCount(|records|, cs)
    ensures var part := ChunkRecords(records, cs, i);
      ChunkAt(records, cs, name, schema, defaults, i).Success? <==> Formattable(part, schema, defaults)
    ensures var part := ChunkRecords(records, cs, i);
      Formattable(part, schema, defaults) ==>
        var data := ChunkAt(records, cs, name, schema, defaults, i).value.data;
        var rows := StreamTexts(part, schema, defaults);
        (i == 0 ==> data == Join("\n", FullHead(part, schema, defaults, name) + RT.Indent(rows))) &&
        (i > 0 ==> data == Join("\n", ["\n" + ContinuationHeader(name, |part|)] + IndentedRows(false, rows)))
  {
    var part := ChunkRecords(records, cs, i);
    if i == 0 {
      RowLinesSucceed(part, schema, defaults, true, FullHead(part, schema, defaults, name));
      if Formattable(part, schema, defaults) {
        RowLinesValue(part, schema, defaults, true, FullHead(part, schema, defaults, name));
        KeepingEveryRow(StreamTexts(part, schema, defaults));
      }
    } else {
      RowLinesSucceed(part, schema, defaults, false, ["\n" + ContinuationHeader(name, |part|)]);
      if Formattable(part, schema, defaults) {
        RowLinesValue(part, schema, defaults, false, ["\n" + ContinuationHeader(name, |part|)]);
      }
    }
  }

  /** A literal is never empty. */
  lemma QuotedNotEmpty(v: Value)
    ensures FormatQuoted(v) != []
  {
    match v
    case Str(s) =>
    case Int(n) =>
    case Float(m, e) =>
    case Arr(xs) =>
    case Obj(fs) =>
    case _ =>
  }

  /** No columns are written iff every column is elided. */
  lemma {:induction false} NoFieldsIffElided(record: Record, schema: Schema, defaults: Dict<Value>)
    ensures StreamFields(record, schema, defaults) == [] <==>
      forall j :: 0 <= j < |schema| ==> E.Elided(record, schema[j].0, defaults)
    decreases |schema|
  {
    if schema != [] {
      var init := schema[..|schema| - 1];
      assert forall j :: 0 <= j < |init| ==> init[j] == schema[j];
      NoFieldsIffElided(record, init, defaults);
    }
  }

  /** A row is empty, and so dropped in a continuation chunk, iff the
      schema is empty or every column of the record equals its default. */
  lemma EmptyRowIffAllDefaults(record: Value, schema: Schema, defaults: Dict<Value>)
    requires record.Obj?
    ensures StreamRow(record, schema, defaults) == Success("") <==>
      forall j :: 0 <= j < |schema| ==> E.Elided(record.fields, schema[j].0, defaults)
  {
    NoFieldsIffElided(record.fields, schema, defaults);
    var fs := StreamFields(record.fields, schema, defaults);
    if schema != [] && fs != [] {
      assert fs[0] != [] by {
        FirstFieldQuoted(record.fields, schema, defaults);
      }
      JoinFirst(", ", fs);
    }
  }

  /** Every written literal is a FormatQuoted one, so none is empty. */
  lemma {:induction false} FirstFieldQuoted(record: Record, schema: Schema, defaults: Dict<Value>)
    ensures forall k :: 0 <= k < |StreamFields(record, schema, defaults)| ==> StreamFields(record, schema, defaults)[k] != []
    decreases |schema|
  {
    if schema != [] {
      var init := schema[..|schema| - 1];
      FirstFieldQuoted(record, init, defaults);
      QuotedNotEmpty(E.FieldValue(record, schema[|schema| - 1].0));
    }
  }

  /** _format_value quotes every string, a '#' one included, so each reads
      back as the same string. */
  lemma StringsReadBack(s: string)
    ensures FormatQuoted(Str(s)) == Quote(s)
    ensures ParseVal(FormatQuoted(Str(s))) == Str(s)
  {
    QuoteRoundTrip(s);
  }

  // ---------------------------------------------------------------------
  // _infer_defaults

  /** Some sampled record holds a list or a dict. */
  predicate HoldsUnhashable(sample: seq<Record>) {
    exists i, j :: 0 <= i < |sample| && 0 <= j < |sample[i]| && !IsHashable(sample[i][j].1)
  }

  /** A value is in the column of k iff some record has it under k. */
  lemma {:induction false} InColumn(records: seq<Record>, k: string, x: Value)
    ensures x in EP.Column(records, k) <==> exists i :: 0 <= i < |records| && Get(records[i], k) == Some(x)
    decreases |records|
  {
    if records != [] {
      var init := records[..|records| - 1];
      var last := records[|records| - 1];
      InColumn(init, k, x);
      var tail: seq<Value> := if HasKey(last, k) then [Get(last, k).value] else [];
      assert EP.Column(records, k) == EP.Column(init, k) + tail;
      assert x in tail <==> Get(last, k) == Some(x);
      if exists i :: 0 <= i < |records| && Get(records[i], k) == Some(x) {
        var i :| 0 <= i < |records| && Get(records[i], k) == Some(x);
        if i < |init| {
          assert Get(init[i], k) == Some(x);
        }
      }
      if x in EP.Column(init, k) {
        var i :| 0 <= i < |init| && Get(init[i], k) == Some(x);
        assert records[i] == init[i];
      }
    }
  }

  /** With distinct keys, the value at a position is the one Get finds. */
  lemma GetAt<V>(d: Dict<V>, j: nat)
    requires DistinctKeys(d) && j < |d|
    ensures Get(d, d[j].0) == Some(d[j].1)
  {
    var f := Find(d, d[j].0);
  }

  /** A column of field_values holding an unhashable value comes from a
      sampled record holding it. */
  lemma UnhashableFromRecord(sample: seq<Record>, k: nat)
    requires forall i :: 0 <= i < |sample| ==> DistinctKeys(sample[i])
    requires k < |E.FieldValues(sample)| && !Hashables(E.FieldValues(sample)[k].1)
    ensures HoldsUnhashable(sample)
  {
    var fv := E.FieldValues(sample);
    var key := fv[k].0;
    var m :| 0 <= m < |fv[k].1| && !IsHashable(fv[k].1[m]);
    EP.FieldValuesDistinct(sample);
    GetAt(fv, k);
    EP.FieldValuesMeaning(sample, key);
    InColumn(sample, key, fv[k].1[m]);
    var i :| 0 <= i < |sample| && Get(sample[i], key) == Some(fv[k].1[m]);
    var j := Find(sample[i], key).value;
    assert !IsHashable(sample[i][j].1);
  }

  /** A sampled record holding an unhashable value puts it in its column. */
  lemma UnhashableInColumn(sample: seq<Record>, i: nat, j: nat)
    requires forall i :: 0 <= i < |sample| ==> DistinctKeys(sample[i])
    requires i < |sample| && j < |sample[i]| && !IsHashable(sample[i][j].1)
    ensures SomeUnhashable(E.FieldValues(sample))
  {
    var fv := E.FieldValues(sample);
    var key := sample[i][j].0;
    GetAt(sample[i], j);
    EP.FieldValuesMeaning(sample, key);
    InColumn(sample, key, sample[i][j].1);
    var k := Find(fv, key).value;
    assert fv[k].1 == EP.Column(sample, key);
    var m :| 0 <= m < |fv[k].1| && fv[k].1[m] == sample[i][j].1;
    assert !Hashables(fv[k].1);
  }

  /** A column of field_values holding an unhashable value iff a sampled
      record holding one. */
  lemma UnhashableColumn(sample: seq<Record>)
    requires forall i :: 0 <= i < |sample| ==> DistinctKeys(sample[i])
    ensures SomeUnhashable(E.FieldValues(sample)) <==> HoldsUnhashable(sample)
  {
    var fv := E.FieldValues(sample);
    if exists k :: 0 <= k < |fv| && !Hashables(fv[k].1) {
      var k :| 0 <= k < |fv| && !Hashables(fv[k].1);
      UnhashableFromRecord(sample, k);
    }
    if HoldsUnhashable(sample) {
      var i, j :| 0 <= i < |sample| && 0 <= j < |sample[i]| && !IsHashable(sample[i][j].1);
      UnhashableInColumn(sample, i, j);
    }
  }

  /** The stream's defaults against the core encoder's: the same when they
      exist; TypeError exactly when a sampled dict holds a list or a dict,
      where the core encoder picks defaults without raising. */
  lemma StreamDefaultsVersusCore(records: seq<Value>)
    requires forall i :: 0 <= i < |records| ==> records[i].Obj? ==> DistinctKeys(records[i].fields)
    ensures records != [] && StreamDefaultsSpec(records).Success? ==> StreamDefaultsSpec(records) == E.DefaultsSpec(records)
    ensures StreamDefaultsSpec(records) == Failure(TypeError) <==>
      var sample := records[..E.SampleSize(|records|)];
      records != [] && E.FirstNonDict(sample).None? && HoldsUnhashable(E.Fields(sample))
    ensures StreamDefaultsSpec(records) == Failure(TypeError) ==> E.DefaultsSpec(records).Success?
  {
    if records != [] {
      var sample := records[..E.SampleSize(|records|)];
      if E.FirstNonDict(sample).None? {
        var fs := E.Fields(sample);
        assert forall i :: 0 <= i < |fs| ==> fs[i] == records[i].fields;
        UnhashableColumn(fs);
        assert fs == E.Fields(sample);
      }
    }
  }
}
