/** What execute promises: WHERE keeps exactly the matching records in
    order, SELECT gives every record exactly the selected keys, ORDER BY is
    Python's stable sort, and OFFSET/LIMIT cut a window that is never
    longer than the table. */
module QueryEngineProperties {
  import opened Wrappers
  import opened Text
  import opened Values
  import opened Errors
  import opened QueryAst
  import opened QueryEngine

  // ---------------------------------------------------------------------
  // WHERE

  /** Positions of a tail, as positions of the whole list. */
  function Shift(idx: seq<nat>): (r: seq<nat>)
    ensures |r| == |idx| && forall k :: 0 <= k < |idx| ==> r[k] == idx[k] + 1
    ensures forall i :: i in r <==> i > 0 && i - 1 in idx
  {
    if idx == [] then [] else [idx[0] + 1] + Shift(idx[1..])
  }

  /** out is rs at the positions idx. */
  predicate At(rs: Table, out: Table, idx: seq<nat>) {
    |idx| == |out| && forall k :: 0 <= k < |idx| ==> idx[k] < |rs| && out[k] == rs[idx[k]]
  }

  predicate Increasing(idx: seq<nat>) {
    forall k, l :: 0 <= k < l < |idx| ==> idx[k] < idx[l]
  }

  /** idx holds exactly the positions whose test is true. */
  predicate Marks(n: Node, rs: Table, idx: seq<nat>) {
    forall i :: 0 <= i < |rs| ==> (i in idx <==> Test(n, rs[i]) == Success(true))
  }

  /** out is the subsequence of rs at the increasing positions idx, which
      are exactly the positions whose test is true. */
  predicate Selects(n: Node, rs: Table, out: Table, idx: seq<nat>) {
    At(rs, out, idx) && Increasing(idx) && Marks(n, rs, idx)
  }

  lemma AtCons(rs: Table, out: Table, idx: seq<nat>, keep: bool)
    requires rs != [] && At(rs[1..], out, idx)
    ensures keep ==> At(rs, [rs[0]] + out, [0] + Shift(idx))
    ensures !keep ==> At(rs, out, Shift(idx))
  {
    var sh := Shift(idx);
    forall k | 0 <= k < |sh|
      ensures sh[k] < |rs| && out[k] == rs[sh[k]]
    {
      assert rs[sh[k]] == rs[1..][idx[k]];
    }
    if keep {
      var o := [rs[0]] + out;
      assert forall k :: 1 <= k < |o| ==> o[k] == out[k - 1] && ([0] + sh)[k] == sh[k - 1];
    }
  }

  lemma IncreasingCons(idx: seq<nat>)
    requires Increasing(idx)
    ensures Increasing(Shift(idx)) && Increasing([0] + Shift(idx))
  {
    var sh := [0] + Shift(idx);
    forall k, l | 0 <= k < l < |sh|
      ensures sh[k] < sh[l]
    {
      assert sh[l] == idx[l - 1] + 1;
      if k > 0 { assert sh[k] == idx[k - 1] + 1; }
    }
  }

  lemma MarksCons(n: Node, rs: Table, idx: seq<nat>)
    requires rs != [] && Marks(n, rs[1..], idx)
    ensures Test(n, rs[0]) == Success(true) ==> Marks(n, rs, [0] + Shift(idx))
    ensures Test(n, rs[0]) != Success(true) ==> Marks(n, rs, Shift(idx))
  {
    var sh := Shift(idx);
    forall i | 1 <= i < |rs|
      ensures i in sh <==> Test(n, rs[i]) == Success(true)
    {
      assert rs[i] == rs[1..][i - 1];
    }
    assert 0 !in sh;
    assert forall i :: i in [0] + sh <==> i == 0 || i in sh;
  }

  /** The filtered list is the subsequence of the records whose test is
      true: idx lists their positions in increasing order. */
  lemma {:induction false} FilterSelects(n: Node, rs: Table) returns (idx: seq<nat>)
    requires Filter(n, rs).Success?
    ensures Selects(n, rs, Filter(n, rs).value, idx)
  {
    if rs == [] {
      idx := [];
    } else {
      assert Test(n, rs[0]).Success?;
      var rest := FilterSelects(n, rs[1..]);
      var keep := Test(n, rs[0]) == Success(true);
      AtCons(rs, Filter(n, rs[1..]).value, rest, keep);
      IncreasingCons(rest);
      MarksCons(n, rs, rest);
      idx := if keep then [0] + Shift(rest) else Shift(rest);
    }
  }

  /** Without a SELECT, every result record is a record of the table whose
      WHERE expression is true. */
  lemma ResultsSatisfyWhere(data: Data, q: ParsedQuery, table: Table, w: Node)
    requires Get(data, q.table) == Some(table) && q.whereExpression == Some(w)
    requires q.selectFields.None? && Execute(data, q).Success?
    ensures forall x :: x in Execute(data, q).value ==> x in table && Test(w, x) == Success(true)
  {
    var filtered := Filter(w, table).value;
    var sorted := Unwindowed(table, q).value;
    assert Select(q.selectFields, filtered) == filtered;
    assert forall x :: x in sorted ==> x in filtered;
  }

  // ---------------------------------------------------------------------
  // SELECT

  /** With a non-empty SELECT list every result record has exactly the
      selected keys, each once, in the order they were first listed. */
  lemma SelectedKeysExactly(data: Data, q: ParsedQuery, fs: seq<string>)
    requires q.selectFields == Some(fs) && fs != [] && Execute(data, q).Success?
    ensures forall x :: x in Execute(data, q).value ==>
      Keys(x) == Distinct(fs) && forall f :: HasKey(x, f) <==> f in fs
  {
    var table := Get(data, q.table).value;
    var filtered := Where(q.whereExpression, table).value;
    var projected := Select(q.selectFields, filtered);
    assert forall x :: x in projected ==> exists i :: 0 <= i < |filtered| && x == Project(fs, filtered[i]);
    var sorted := Unwindowed(table, q).value;
    assert forall x :: x in sorted ==> x in projected;
  }

  // ---------------------------------------------------------------------
  // ORDER BY

  /** Where a < b does not raise, KeyLess is Python's <, and its negations
      are <= and >=. */
  lemma KeyLessIsPythonLess(a: Value, b: Value)
    requires Compare(Lt, a, b).Some?
    ensures Compare(Lt, a, b) == Some(KeyLess(a, b))
    ensures Compare(Le, a, b) == Some(!KeyLess(b, a))
    ensures Compare(Ge, a, b) == Some(!KeyLess(a, b))
  {
    CompareMirror(Lt, b, a);
    CompareDefined(Gt, a, b);
    CompareComplement(a, b);
  }

  lemma PrecAsymmetric(desc: bool)
    ensures Asymmetric(Prec(desc))
  {
    forall a: Value, b: Value | Prec(desc)(a, b)
      ensures !Prec(desc)(b, a)
    {
      PrecedesAsymmetric(desc, a, b);
    }
  }

  /** ORDER BY is a stable sort: the result is the records rearranged by the
      permutation idx; adjacent keys are in order (<= ascending, >= with
      DESC, in Python's comparison); and adjacent records whose keys neither
      is less than the other keep their input order. */
  lemma OrderByIsStableSort(field: string, desc: bool, rs: Table) returns (idx: seq<nat>)
    requires OrderBy(field, desc, rs).Success?
    ensures multiset(idx) == multiset(Range(|rs|)) && InRange(idx, |rs|)
    ensures |OrderBy(field, desc, rs).value| == |idx| == |rs|
    ensures forall i :: 0 <= i < |rs| ==> OrderBy(field, desc, rs).value[i] == rs[idx[i]]
    ensures forall i :: 0 <= i < |rs| - 1 ==>
      Compare(if desc then Ge else Le,
              SortKey(field, OrderBy(field, desc, rs).value[i]),
              SortKey(field, OrderBy(field, desc, rs).value[i + 1])) == Some(true)
    ensures forall i :: 0 <= i < |rs| - 1 ==>
      var a := SortKey(field, OrderBy(field, desc, rs).value[i]);
      var b := SortKey(field, OrderBy(field, desc, rs).value[i + 1]);
      (Compare(Lt, a, b) == Some(false) && Compare(Lt, b, a) == Some(false)) ==> idx[i] < idx[i + 1]
  {
    var keys := SortKeys(field, rs);
    idx := SortedIndices(Prec(desc), keys, |rs|);
    SortedIndicesPermutation(Prec(desc), keys, |rs|);
    PrecAsymmetric(desc);
    SortedIndicesSorted(Prec(desc), keys, |rs|);
    var r := OrderBy(field, desc, rs).value;
    forall i | 0 <= i < |rs| - 1
      ensures Compare(if desc then Ge else Le, SortKey(field, r[i]), SortKey(field, r[i + 1])) == Some(true)
      ensures (Compare(Lt, SortKey(field, r[i]), SortKey(field, r[i + 1])) == Some(false)
               && Compare(Lt, SortKey(field, r[i + 1]), SortKey(field, r[i])) == Some(false)) ==> idx[i] < idx[i + 1]
    {
      var a, b := keys[idx[i]], keys[idx[i + 1]];
      assert SortKey(field, r[i]) == a && SortKey(field, r[i + 1]) == b;
      assert !Prec(desc)(b, a);
      KeyLessIsPythonLess(a, b);
      KeyLessIsPythonLess(b, a);
    }
  }

  /** Inserting a key that outranks none already placed appends it. */
  lemma {:induction false} InsertAppends(prec: (Value, Value) -> bool, keys: seq<Value>, order: seq<nat>, j: nat, k: Value)
    requires InRange(order, |keys|) && j < |keys| && keys[j] == k && !prec(k, k)
    requires forall i :: 0 <= i < |order| ==> keys[order[i]] == k
    ensures Insert(prec, keys, order, j) == order + [j]
  {
    if order != [] {
      InsertAppends(prec, keys, order[1..], j, k);
      assert order == [order[0]] + order[1..];
    }
  }

  /** When every key is the same tie, sorting leaves the positions in
      order. */
  lemma {:induction false} TiesKeepOrder(prec: (Value, Value) -> bool, keys: seq<Value>, n: nat, k: Value)
    requires n <= |keys| && !prec(k, k)
    requires forall i :: 0 <= i < n ==> keys[i] == k
    ensures SortedIndices(prec, keys, n) == Range(n)
  {
    if n > 0 {
      var prev := Range(n - 1);
      TiesKeepOrder(prec, keys, n - 1, k);
      InsertAppends(prec, keys, prev, n - 1, k);
    }
  }

  /** Sorting on a field no record has sorts on the key 0 everywhere, so the
      records keep their order in both directions. */
  lemma MissingSortFieldKeepsOrder(field: string, desc: bool, rs: Table)
    requires forall i :: 0 <= i < |rs| ==> !HasKey(rs[i], field)
    ensures OrderBy(field, desc, rs) == Success(rs)
  {
    var keys := SortKeys(field, rs);
    MissingKeysAreZero(field, rs);
    assert !Prec(desc)(Int(0), Int(0)) by {
      assert !NumLess(Num(Int(0)), Num(Int(0)));
    }
    TiesKeepOrder(Prec(desc), keys, |rs|, Int(0));
    IdentityOrder(field, desc, rs);
    SameElements(OrderBy(field, desc, rs).value, rs);
  }

  /** A field no record has gives every record the key 0. */
  lemma MissingKeysAreZero(field: string, rs: Table)
    requires forall i :: 0 <= i < |rs| ==> !HasKey(rs[i], field)
    ensures forall i :: 0 <= i < |rs| ==> SortKeys(field, rs)[i] == Int(0)
    ensures Comparable(SortKeys(field, rs))
  {
    var keys := SortKeys(field, rs);
    assert forall i :: 0 <= i < |rs| ==> keys[i] == SortKey(field, rs[i]) == Int(0);
  }

  /** Sorting that leaves the positions in order returns the table as it is. */
  lemma IdentityOrder(field: string, desc: bool, rs: Table)
    requires Comparable(SortKeys(field, rs))
    requires SortedIndices(Prec(desc), SortKeys(field, rs), |rs|) == Range(|rs|)
    ensures OrderBy(field, desc, rs).Success?
    ensures forall i :: 0 <= i < |rs| ==> OrderBy(field, desc, rs).value[i] == rs[i]
  {
  }

  lemma SameElements<T>(a: seq<T>, b: seq<T>)
    requires |a| == |b| && forall i :: 0 <= i < |a| ==> a[i] == b[i]
    ensures a == b
  {
  }

  /** Sorting fails when two records have keys of different kinds (numbers
      counting as one kind), or a None or dict key. */
  lemma MixedSortKeysFail(field: string, desc: bool, rs: Table, i: nat, j: nat)
    requires i < |rs| && j < |rs| && i != j
    requires var a, b := SortKey(field, rs[i]), SortKey(field, rs[j]);
      !(IsNumber(a) && IsNumber(b)) && !(a.Str? && b.Str?) && !(a.Arr? && b.Arr?)
    ensures OrderBy(field, desc, rs) == Failure(TypeError)
  {
    var keys := SortKeys(field, rs);
    assert keys[i] == SortKey(field, rs[i]) && keys[j] == SortKey(field, rs[j]);
    assert Compare(Lt, keys[i], keys[j]).None?;
  }

  /** Sorting fails when two records have keys Python's < refuses, lists
      included (lists that differ first at such a pair of elements). */
  lemma IncomparableSortKeysFail(field: string, desc: bool, rs: Table, i: nat, j: nat)
    requires i < |rs| && j < |rs| && i != j
    requires Compare(Lt, SortKey(field, rs[i]), SortKey(field, rs[j])).None?
    ensures OrderBy(field, desc, rs) == Failure(TypeError)
  {
    var keys := SortKeys(field, rs);
    assert keys[i] == SortKey(field, rs[i]) && keys[j] == SortKey(field, rs[j]);
  }

  // ---------------------------------------------------------------------
  // OFFSET, LIMIT and length

  /** The whole result is never longer than the queried table. */
  lemma ResultNoLongerThanTable(data: Data, q: ParsedQuery, table: Table)
    requires Get(data, q.table) == Some(table) && Execute(data, q).Success?
    ensures |Execute(data, q).value| <= |table|
  {
  }

  /** With a non-negative OFFSET and LIMIT the window of a list is the slice
      all[lo..hi]: OFFSET 0 starts at 0, an OFFSET past the end leaves
      nothing, and LIMIT 0 (falsy), an absent LIMIT or one past the end runs
      to the end. */
  lemma WindowSlice(offset: int, limit: Option<int>, all: Table)
    requires offset >= 0 && (limit.None? || limit.value >= 0)
    ensures var lo := if offset < |all| then offset else |all|;
      var hi := if limit.None? || limit.value == 0 || lo + limit.value > |all| then |all|
                else lo + limit.value;
      Window(offset, limit, all) == all[lo..hi]
  {
    var lo := if offset < |all| then offset else |all|;
    var skipped := Skip(offset, all);
    assert skipped == all[lo..];
    if limit.Some? && limit.value != 0 {
      var k := SliceBound(|skipped|, limit.value);
      assert Take(limit, skipped) == all[lo..][..k] == all[lo..lo + k];
    } else {
      assert Take(limit, skipped) == all[lo..] == all[lo..|all|];
    }
  }

  /** A negative OFFSET counts from the end: with no LIMIT it keeps the last
      -offset records (all of them when there are fewer). */
  lemma NegativeOffsetKeepsLast(offset: int, all: Table)
    requires offset < 0
    ensures var kept := if -offset < |all| then -offset else |all|;
      Window(offset, None, all) == all[|all| - kept..]
  {
  }

  /** Executed, a query returns its window of the sorted records. */
  lemma PaginationWindow(data: Data, q: ParsedQuery, table: Table)
    requires Get(data, q.table) == Some(table) && Unwindowed(table, q).Success?
    requires q.offset >= 0 && (q.limit.None? || q.limit.value >= 0)
    ensures var all := Unwindowed(table, q).value;
      var lo := if q.offset < |all| then q.offset else |all|;
      var hi := if q.limit.None? || q.limit.value == 0 || lo + q.limit.value > |all| then |all|
                else lo + q.limit.value;
      Execute(data, q) == Success(all[lo..hi])
  {
    var all := Unwindowed(table, q).value;
    assert Execute(data, q) == Success(Window(q.offset, q.limit, all));
    WindowSlice(q.offset, q.limit, all);
  }

  /** An OFFSET at or past the end of the table leaves nothing. */
  lemma OffsetPastEndIsEmpty(data: Data, q: ParsedQuery, table: Table)
    requires Get(data, q.table) == Some(table) && Unwindowed(table, q).Success?
    requires q.offset >= |table|
    ensures Execute(data, q) == Success([])
  {
    var all := Unwindowed(table, q).value;
    assert Skip(q.offset, all) == [];
  }

  /** A LIMIT of at least the table's length returns everything OFFSET
      leaves, as if there were no LIMIT. */
  lemma LargeLimitKeepsAll(data: Data, q: ParsedQuery, table: Table)
    requires Get(data, q.table) == Some(table) && q.limit.Some? && q.limit.value >= |table|
    ensures Execute(data, q) == Execute(data, q.(limit := None))
  {
    var q' := q.(limit := None);
    assert Unwindowed(table, q) == Unwindowed(table, q');
    if Unwindowed(table, q).Success? {
      var skipped := Skip(q.offset, Unwindowed(table, q).value);
      assert Take(q.limit, skipped) == skipped;
    }
  }

  /** LIMIT 0 is falsy: it returns the same as no LIMIT at all. */
  lemma LimitZeroIgnored(data: Data, q: ParsedQuery)
    requires q.limit == Some(0)
    ensures Execute(data, q) == Execute(data, q.(limit := None))
  {
    if Get(data, q.table).Some? {
      var table := Get(data, q.table).value;
      assert Unwindowed(table, q) == Unwindowed(table, q.(limit := None));
    }
  }
}
