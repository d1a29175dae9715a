/** encode_with_query: a parse or execution error is reported as a query
    encoding failure before anything is encoded, and on success the text
    after the @query[...] line is the encoding of exactly the records the
    query selects, which a fresh decoder reads back as that one table. */
module QueryEncoding {
  import opened Wrappers
  import opened Values
  import opened Errors
  import opened Compression
  import opened CompressionEngine
  import opened QueryAst
  import opened QueryParsing
  import opened QueryEngine
  import opened Encoder
  import EP = EncoderProperties
  import D = Decoder
  import DP = DecoderProperties
  import RT = RoundTrip
  import opened DocumentRoundTrip

  /** The table of a query result, as the list of dicts encode is given. */
  function Items(rs: Table): (items: seq<Value>)
    ensures |items| == |rs|
    ensures forall i :: 0 <= i < |rs| ==> items[i] == Obj(rs[i])
  {
    seq(|rs|, i requires 0 <= i < |rs| => Obj(rs[i]))
  }

  /** {table: records} is the one-table document of the records. */
  lemma DocumentOfOne(name: string, rs: Table)
    ensures Document([(name, rs)]) == Obj([(name, Arr(Items(rs)))])
    ensures IsDocument(Document([(name, rs)]))
  {
    var doc := Document([(name, rs)]);
    assert doc.fields[0].1.items == Items(rs);
  }

  /** A query that does not parse is reported, wrapped, and the engine's
      dictionary is left as it was. */
  lemma ParseErrorPropagated(c: Config, data: Data, query: string, size: nat, deltaEstimate: Ratio, st: DictState)
    requires ParseSpec("@query[" + query + "]").Failure?
    ensures EncodeWithQuerySpec(c, data, query, size, deltaEstimate, st) ==
            (Failure(QueryEncodingFailed(ParseSpec("@query[" + query + "]").error)), st)
  {
  }

  /** A parsed query that fails on the data (a missing table, sort keys of
      different kinds) is reported, wrapped, and nothing is encoded. */
  lemma ExecuteErrorPropagated(c: Config, data: Data, query: string, q: ParsedQuery, size: nat, deltaEstimate: Ratio, st: DictState)
    requires ParseSpec("@query[" + query + "]") == Success(q)
    requires Execute(data, q).Failure?
    ensures EncodeWithQuerySpec(c, data, query, size, deltaEstimate, st) ==
            (Failure(QueryEncodingFailed(Execute(data, q).error)), st)
  {
  }

  /** A query naming a table the data lacks fails with TableNotFound. */
  lemma MissingTableReported(c: Config, data: Data, query: string, q: ParsedQuery, size: nat, deltaEstimate: Ratio, st: DictState)
    requires ParseSpec("@query[" + query + "]") == Success(q)
    requires !HasKey(data, q.table)
    ensures EncodeWithQuerySpec(c, data, query, size, deltaEstimate, st) ==
            (Failure(QueryEncodingFailed(QueryError(TableNotFound(q.table)))), st)
  {
  }

  /** A fresh decoder reads text as one table of the name whose records
      hold the given records' values column by column. */
  predicate ReadsBackAs(text: string, name: string, records: seq<Value>, defaults: Dict<Value>, ks: seq<nat>)
    requires records != [] ==> records[0].Obj?
    requires Covered(records, TableSchema(records), defaults, ks)
  {
    var decoded := D.DecodeSpec(text, []);
    decoded.1 == [] && decoded.0.Success? && |decoded.0.value| == 1 && decoded.0.value[0].0 == name &&
    TableBack(decoded.0.value[0].1, records, TableSchema(records), defaults, ks)
  }

  /** Without compression, a query that parses and runs is answered with the
      @query[...] line, a blank line and the layout of {table: records}. */
  lemma FastQueryText(c: Config, data: Data, query: string, q: ParsedQuery, filtered: Table,
                      size: nat, deltaEstimate: Ratio, st: DictState)
    requires c.mode == Fast
    requires ParseSpec("@query[" + query + "]") == Success(q)
    requires Execute(data, q) == Success(filtered)
    requires Layout([], Obj([(q.table, Arr(Items(filtered)))]), c.optimize, c.queryable).Success?
    ensures EncodeWithQuerySpec(c, data, query, size, deltaEstimate, st) ==
            (Success("@query[" + query + "]\n\n" + Layout([], Obj([(q.table, Arr(Items(filtered)))]), c.optimize, c.queryable).value), st)
  {
    DocumentOfOne(q.table, filtered);
    EP.ValidateAccepts(Document([(q.table, filtered)]));
  }

  /** Without compression the text after the @query[...] line and the blank
      line is the layout of {table: Execute(data, q)}, and a fresh decoder
      reads it back as one table of that name holding the selected records
      column by column, for records that round-trip. */
  lemma SelectedRecordsDecode(c: Config, data: Data, query: string, q: ParsedQuery, filtered: Table,
                              size: nat, deltaEstimate: Ratio, st: DictState, defaults: Dict<Value>, ks: seq<nat>)
    requires c.mode == Fast
    requires ParseSpec("@query[" + query + "]") == Success(q)
    requires Execute(data, q) == Success(filtered)
    requires DP.TableName(q.table) && '\n' !in q.table
    requires filtered != [] ==> forall j :: 0 <= j < |filtered[0]| ==> RT.SafeKey(filtered[0][j].0)
    requires ChosenDefaults(Items(filtered), c.optimize) == Success(defaults) && RT.SafeDefaults(defaults)
    requires Covered(Items(filtered), TableSchema(Items(filtered)), defaults, ks)
    ensures var body := Layout([], Obj([(q.table, Arr(Items(filtered)))]), c.optimize, c.queryable);
      body.Success? &&
      EncodeWithQuerySpec(c, data, query, size, deltaEstimate, st) == (Success("@query[" + query + "]\n\n" + body.value), st) &&
      ReadsBackAs(body.value, q.table, Items(filtered), defaults, ks)
  {
    OneTableRoundTrip(q.table, Items(filtered), c.optimize, c.queryable, defaults, ks);
    FastQueryText(c, data, query, q, filtered, size, deltaEstimate, st);
  }
}
