/** ATONQueryEngine.execute: run a parsed query against ATON data.  The
    stages always run in the same order -- WHERE filter, SELECT projection,
    ORDER BY (Python's stable `sorted`), OFFSET, LIMIT -- each rebinding the
    list of records; the input data is a value and is never changed. */
module QueryEngine {
  import opened Wrappers
  import opened Text
  import opened Values
  import opened Errors
  import opened QueryAst

  type Table = seq<Record>
  /** The data a query runs on: table name -> list of records. */
  type Data = Dict<Table>

  // ---------------------------------------------------------------------
  // WHERE

  /** where_expression.evaluate(r): conditions and expressions evaluate; any
      other object has no `evaluate` attribute. */
  function Test(n: Node, rec: Record): Result<bool, Error> {
    if n.Opaque? then Failure(AttributeError) else EvalNode(n, rec)
  }

  /** The records the WHERE tree accepts, in order; the first record whose
      test raises makes the whole filter raise. */
  function Filter(n: Node, rs: Table): (r: Result<Table, Error>)
    ensures r.Success? <==> forall i :: 0 <= i < |rs| ==> Test(n, rs[i]).Success?
    ensures r.Success? ==> |r.value| <= |rs|
    ensures r.Success? ==> forall x :: x in r.value ==> x in rs && Test(n, x) == Success(true)
  {
    if rs == [] then Success([])
    else
      match Test(n, rs[0])
      case Failure(e) => Failure(e)
      case Success(keep) =>
        match Filter(n, rs[1..])
        case Failure(e) =>
          assert !Test(n, rs[1..][0]).Success? || exists i :: 0 <= i < |rs[1..]| && !Test(n, rs[1..][i]).Success?;
          Failure(e)
        case Success(rest) =>
          assert forall i :: 1 <= i < |rs| ==> rs[i] == rs[1..][i - 1];
          Success(if keep then [rs[0]] + rest else rest)
  }

  // ---------------------------------------------------------------------
  // SELECT

  /** The record cut down to the selected fields, each present, None where
      the record lacks it. */
  function Project(fields: seq<string>, rec: Record): (r: Record)
    ensures Keys(r) == Distinct(fields)
    ensures forall f :: f in fields ==> Get(r, f) == Some(Get(rec, f).GetOr(Null))
    ensures forall f :: f !in fields ==> !HasKey(r, f)
  {
    if fields == [] then []
    else
      var init := fields[..|fields| - 1];
      var f := fields[|fields| - 1];
      assert fields == init + [f];
      var prev := Project(init, rec);
      assert HasKey(prev, f) <==> f in init;
      Put(prev, f, Get(rec, f).GetOr(Null))
  }

  // ---------------------------------------------------------------------
  // ORDER BY

  /** x.get(field, 0) */
  function SortKey(field: string, rec: Record): Value {
    Get(rec, field).GetOr(Int(0))
  }

  function SortKeys(field: string, rs: Table): (keys: seq<Value>)
    ensures |keys| == |rs|
  {
    seq(|rs|, i requires 0 <= i < |rs| => SortKey(field, rs[i]))
  }

  /** Keys `sorted` can order without a TypeError: at most one key (nothing
      is compared), or any two of them, a key with itself included, can be
      compared with <. */
  predicate Comparable(keys: seq<Value>) {
    |keys| <= 1
    || forall i, j :: 0 <= i < |keys| && 0 <= j < |keys| ==> Compare(Lt, keys[i], keys[j]).Some?
  }

  /** a < b on sort keys: Python's < where it does not raise. */
  predicate KeyLess(a: Value, b: Value) {
    Compare(Lt, a, b) == Some(true)
  }

  /** a must come before b: a < b ascending, b < a with reverse=True. */
  predicate Precedes(desc: bool, a: Value, b: Value) {
    if desc then KeyLess(b, a) else KeyLess(a, b)
  }

  lemma PrecedesAsymmetric(desc: bool, a: Value, b: Value)
    requires Precedes(desc, a, b)
    ensures !Precedes(desc, b, a)
  {
    if desc { LessAsymmetric(b, a); } else { LessAsymmetric(a, b); }
  }

  /** Precedes as a relation for the sort. */
  function Prec(desc: bool): (Value, Value) -> bool {
    (a: Value, b: Value) => Precedes(desc, a, b)
  }

  /** A relation where no two keys precede each other. */
  ghost predicate Asymmetric(prec: (Value, Value) -> bool) {
    forall a, b :: prec(a, b) ==> !prec(b, a)
  }

  predicate InRange(idx: seq<nat>, n: nat) {
    forall i :: 0 <= i < |idx| ==> idx[i] < n
  }

  /** No adjacent pair is out of order, and adjacent pairs with equal keys
      are in input order (stability). */
  predicate SortedBy(prec: (Value, Value) -> bool, keys: seq<Value>, idx: seq<nat>)
    requires InRange(idx, |keys|)
  {
    forall i :: 0 <= i < |idx| - 1 ==>
      !prec(keys[idx[i + 1]], keys[idx[i]])
      && (!prec(keys[idx[i]], keys[idx[i + 1]]) ==> idx[i] < idx[i + 1])
  }

  /** Insert index j before the first element it must precede, so after
      every element of equal key. */
  function Insert(prec: (Value, Value) -> bool, keys: seq<Value>, order: seq<nat>, j: nat): (r: seq<nat>)
    requires InRange(order, |keys|) && j < |keys|
    ensures |r| == |order| + 1 && InRange(r, |keys|)
    ensures InRange(order, j) ==> InRange(r, j + 1)
    ensures order != [] ==> r[0] == j || r[0] == order[0]
  {
    if order == [] then [j]
    else if prec(keys[j], keys[order[0]]) then [j] + order
    else
      assert order == [order[0]] + order[1..];
      [order[0]] + Insert(prec, keys, order[1..], j)
  }

  /** Insertion adds j and loses nothing. */
  lemma {:induction false} InsertPermutation(prec: (Value, Value) -> bool, keys: seq<Value>, order: seq<nat>, j: nat)
    requires InRange(order, |keys|) && j < |keys|
    ensures multiset(Insert(prec, keys, order, j)) == multiset(order) + multiset{j}
  {
    if order == [] {
      assert Insert(prec, keys, order, j) == [j];
    } else if prec(keys[j], keys[order[0]]) {
      assert Insert(prec, keys, order, j) == [j] + order;
    } else {
      var tail := order[1..];
      InsertPermutation(prec, keys, tail, j);
      assert order == [order[0]] + tail;
      assert Insert(prec, keys, order, j) == [order[0]] + Insert(prec, keys, tail, j);
    }
  }

  /** A sorted order stays sorted behind a head that may come first. */
  lemma ConsSorted(prec: (Value, Value) -> bool, keys: seq<Value>, h: nat, rest: seq<nat>)
    requires h < |keys| && InRange(rest, |keys|) && SortedBy(prec, keys, rest)
    requires rest != [] ==> !prec(keys[rest[0]], keys[h])
    requires rest != [] ==> !prec(keys[h], keys[rest[0]]) ==> h < rest[0]
    ensures SortedBy(prec, keys, [h] + rest)
  {
    var r := [h] + rest;
    forall i | 0 <= i < |r| - 1
      ensures !prec(keys[r[i + 1]], keys[r[i]])
      ensures !prec(keys[r[i]], keys[r[i + 1]]) ==> r[i] < r[i + 1]
    {
      if i > 0 {
        assert r[i] == rest[i - 1] && r[i + 1] == rest[i];
      }
    }
  }

  /** Inserting an index later than all others keeps the order sorted and
      stable. */
  lemma {:induction false} InsertSorted(prec: (Value, Value) -> bool, keys: seq<Value>, order: seq<nat>, j: nat)
    requires Asymmetric(prec)
    requires InRange(order, j) && j < |keys|
    requires SortedBy(prec, keys, order)
    ensures SortedBy(prec, keys, Insert(prec, keys, order, j))
  {
    if order == [] {
    } else if prec(keys[j], keys[order[0]]) {
      ConsSorted(prec, keys, j, order);
    } else {
      var tail := order[1..];
      assert SortedBy(prec, keys, tail) by {
        forall i | 0 <= i < |tail| - 1
          ensures !prec(keys[tail[i + 1]], keys[tail[i]])
          ensures !prec(keys[tail[i]], keys[tail[i + 1]]) ==> tail[i] < tail[i + 1]
        {
          assert tail[i] == order[i + 1] && tail[i + 1] == order[i + 2];
        }
      }
      InsertSorted(prec, keys, tail, j);
      var rest := Insert(prec, keys, tail, j);
      assert tail != [] ==> order[1] == tail[0];
      ConsSorted(prec, keys, order[0], rest);
    }
  }

  /** [0, 1, ..., n-1] */
  function Range(n: nat): (r: seq<nat>)
    ensures |r| == n && forall i :: 0 <= i < n ==> r[i] == i
  {
    if n == 0 then [] else Range(n - 1) + [n - 1]
  }

  /** The positions 0..n-1 in the order a stable insertion sort puts them. */
  function SortedIndices(prec: (Value, Value) -> bool, keys: seq<Value>, n: nat): (r: seq<nat>)
    requires n <= |keys|
    ensures |r| == n && InRange(r, n) && InRange(r, |keys|)
  {
    if n == 0 then [] else Insert(prec, keys, SortedIndices(prec, keys, n - 1), n - 1)
  }

  /** The sort order holds each position exactly once. */
  lemma {:induction false} SortedIndicesPermutation(prec: (Value, Value) -> bool, keys: seq<Value>, n: nat)
    requires n <= |keys|
    ensures multiset(SortedIndices(prec, keys, n)) == multiset(Range(n))
  {
    if n == 0 {
      assert SortedIndices(prec, keys, n) == [] == Range(n);
    } else {
      SortedIndicesPermutation(prec, keys, n - 1);
      PermutationStep(prec, keys, n);
    }
  }

  /** One more insertion adds position n - 1. */
  lemma PermutationStep(prec: (Value, Value) -> bool, keys: seq<Value>, n: nat)
    requires 0 < n <= |keys|
    requires multiset(SortedIndices(prec, keys, n - 1)) == multiset(Range(n - 1))
    ensures multiset(SortedIndices(prec, keys, n)) == multiset(Range(n))
  {
    var prev := SortedIndices(prec, keys, n - 1);
    InsertPermutation(prec, keys, prev, n - 1);
    assert SortedIndices(prec, keys, n) == Insert(prec, keys, prev, n - 1);
    assert Range(n) == Range(n - 1) + [n - 1];
  }

  /** The sort order is a sorted, stable arrangement of the positions. */
  lemma {:induction false} SortedIndicesSorted(prec: (Value, Value) -> bool, keys: seq<Value>, n: nat)
    requires Asymmetric(prec) && n <= |keys|
    ensures SortedBy(prec, keys, SortedIndices(prec, keys, n))
  {
    if n == 0 {
      assert SortedIndices(prec, keys, n) == [];
    } else {
      SortedIndicesSorted(prec, keys, n - 1);
      SortedIndicesStep(prec, keys, n);
    }
  }

  /** One more insertion keeps the order sorted. */
  lemma SortedIndicesStep(prec: (Value, Value) -> bool, keys: seq<Value>, n: nat)
    requires Asymmetric(prec) && 0 < n <= |keys|
    requires SortedBy(prec, keys, SortedIndices(prec, keys, n - 1))
    ensures SortedBy(prec, keys, SortedIndices(prec, keys, n))
  {
    var prev := SortedIndices(prec, keys, n - 1);
    InsertSorted(prec, keys, prev, n - 1);
    assert SortedIndices(prec, keys, n) == Insert(prec, keys, prev, n - 1);
  }

  /** The records sorted stably by their sort keys, in descending order when
      desc holds. */
  function OrderBy(field: string, desc: bool, rs: Table): (r: Result<Table, Error>)
    ensures r.Success? <==> Comparable(SortKeys(field, rs))
    ensures r.Failure? ==> r.error == TypeError
    ensures r.Success? ==> |r.value| == |rs|
    ensures r.Success? ==> forall x :: x in r.value ==> x in rs
    ensures r.Success? ==> forall i :: 0 <= i < |rs| ==>
      r.value[i] == rs[SortedIndices(Prec(desc), SortKeys(field, rs), |rs|)[i]]
  {
    var keys := SortKeys(field, rs);
    if !Comparable(keys) then Failure(TypeError)
    else
      var idx := SortedIndices(Prec(desc), keys, |rs|);
      Success(seq(|rs|, i requires 0 <= i < |rs| => rs[idx[i]]))
  }

  // ---------------------------------------------------------------------
  // OFFSET and LIMIT

  /** A Python slice bound a (records[a:] or records[:a]) on a list of
      length n: negative bounds count from the end, and both clamp. */
  function SliceBound(n: nat, a: int): (k: nat)
    ensures k <= n
  {
    if a < 0 then (if a + n < 0 then 0 else a + n)
    else if a > n then n
    else a
  }

  // ---------------------------------------------------------------------
  // The pipeline

  function Where(where: Option<Node>, rs: Table): Result<Table, Error> {
    if where.Some? then Filter(where.value, rs) else Success(rs)
  }

  /** An empty field list is falsy and projects nothing. */
  function Select(fields: Option<seq<string>>, rs: Table): (r: Table)
    ensures |r| == |rs|
  {
    if fields.Some? && fields.value != [] then
      seq(|rs|, i requires 0 <= i < |rs| => Project(fields.value, rs[i]))
    else rs
  }

  /** An empty field name is falsy and sorts nothing. */
  function Order(orderBy: Option<string>, direction: SortOrder, rs: Table): Result<Table, Error> {
    if orderBy.Some? && orderBy.value != "" then OrderBy(orderBy.value, direction == Desc, rs)
    else Success(rs)
  }

  /** OFFSET 0 is falsy and skips nothing. */
  function Skip(offset: int, rs: Table): Table {
    if offset != 0 then rs[SliceBound(|rs|, offset)..] else rs
  }

  /** LIMIT 0 is falsy and limits nothing. */
  function Take(limit: Option<int>, rs: Table): Table {
    if limit.Some? && limit.value != 0 then rs[..SliceBound(|rs|, limit.value)] else rs
  }

  /** records[offset:] then records[:limit], each only when truthy. */
  function Window(offset: int, limit: Option<int>, rs: Table): (r: Table)
    ensures |r| <= |rs|
    ensures forall x :: x in r ==> x in rs
  {
    Take(limit, Skip(offset, rs))
  }

  /** The records before OFFSET and LIMIT apply: filtered, projected and
      sorted, never more than the table holds. */
  function Unwindowed(table: Table, q: ParsedQuery): (r: Result<Table, Error>)
    ensures r.Success? ==> |r.value| <= |table|
  {
    var filtered :- Where(q.whereExpression, table);
    Order(q.orderBy, q.orderDirection, Select(q.selectFields, filtered))
  }

  /** execute(data, query) */
  function Execute(data: Data, q: ParsedQuery): (r: Result<Table, Error>)
    ensures !HasKey(data, q.table) ==> r == Failure(QueryError(TableNotFound(q.table)))
  {
    match Get(data, q.table)
    case None => Failure(QueryError(TableNotFound(q.table)))
    case Some(table) =>
      var sorted :- Unwindowed(table, q);
      Success(Window(q.offset, q.limit, sorted))
  }
}
