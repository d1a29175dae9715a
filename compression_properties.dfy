/** What dictionary compression guarantees: the counts, the dictionary's
    contents and numbering, the shape-preserving rewrite, the round trip
    through the dictionary, and the bounds of the savings estimate. */
module CompressionProperties {
  import opened Wrappers
  import opened Text
  import opened Values
  import opened Compression

  // ---------------------------------------------------------------------
  // Dict helpers

  lemma GetAppend<V>(d: Dict<V>, e: (string, V), k: string)
    ensures Get(d + [e], k) == if HasKey(d, k) then Get(d, k)
                               else if e.0 == k then Some(e.1) else None
  {
    FindAppend(d, e, k);
  }

  lemma GetDistinct<V>(d: Dict<V>, k: nat)
    requires DistinctKeys(d) && k < |d|
    ensures Get(d, d[k].0) == Some(d[k].1)
  {
    var f := Find(d, d[k].0);
    assert f.Some?;
    assert f.value == k;
  }

  lemma HasKeyIndex<V>(d: Dict<V>, k: string) returns (i: nat)
    requires HasKey(d, k)
    ensures i < |d| && d[i].0 == k && Get(d, k) == Some(d[i].1)
  {
    i := Find(d, k).value;
  }

  lemma ValueIndex<V>(d: Dict<V>, v: V) returns (i: nat)
    requires v in DictValues(d)
    ensures i < |d| && d[i].1 == v
  {
    var vs := DictValues(d);
    var j :| 0 <= j < |vs| && vs[j] == v;
    i := j;
  }

  lemma DictValuesAppend<V>(d: Dict<V>, e: (string, V))
    ensures DictValues(d + [e]) == DictValues(d) + [e.1]
  {
  }

  // ---------------------------------------------------------------------
  // Counter

  lemma TallyGet(d: Dict<nat>, s: string, t: string)
    ensures Get(Tally(d, s), t) == if t == s then Some(Get(d, s).GetOr(0) + 1) else Get(d, t)
  {
  }

  lemma LastOccurrence(strs: seq<string>, t: string)
    requires strs != []
    ensures var init := strs[..|strs| - 1];
      && multiset(strs)[t] == multiset(init)[t] + (if strs[|strs| - 1] == t then 1 else 0)
      && (t in strs <==> t in init || strs[|strs| - 1] == t)
  {
    var init := strs[..|strs| - 1];
    assert strs == init + [strs[|strs| - 1]];
  }

  /** The count of one string t. */
  lemma {:induction false} CountGetOne(strs: seq<string>, t: string)
    ensures Get(Count(strs), t) == if t in strs then Some(multiset(strs)[t]) else None
  {
    if strs != [] {
      var init := strs[..|strs| - 1];
      var s := strs[|strs| - 1];
      var prev := Count(init);
      assert Count(strs) == Tally(prev, s);
      TallyGet(prev, s, t);
      CountGetOne(init, t);
      LastOccurrence(strs, t);
    }
  }

  /** Counter(strs) maps exactly the strings of strs, each to its number of
      occurrences. */
  lemma CountGet(strs: seq<string>)
    ensures forall t :: Get(Count(strs), t) == if t in strs then Some(multiset(strs)[t]) else None
  {
    forall t {
      CountGetOne(strs, t);
    }
  }

  /** Counter(strs) lists the strings in order of first occurrence. */
  lemma {:induction false} CountKeys(strs: seq<string>)
    ensures Keys(Count(strs)) == Distinct(strs)
  {
    if strs != [] {
      var init := strs[..|strs| - 1];
      var s := strs[|strs| - 1];
      CountKeys(init);
      CountGet(init);
      assert HasKey(Count(init), s) <==> s in init;
      assert s in init <==> s in Distinct(init);
    }
  }

  lemma CountMeaning(strs: seq<string>)
    ensures Keys(Count(strs)) == Distinct(strs)
    ensures forall t :: Get(Count(strs), t) == if t in strs then Some(multiset(strs)[t]) else None
  {
    CountKeys(strs);
    CountGet(strs);
  }

  lemma CountDistinctKeys(strs: seq<string>)
    ensures DistinctKeys(Count(strs))
  {
    CountMeaning(strs);
    var c := Count(strs);
    forall i, j | 0 <= i < j < |c| ensures c[i].0 != c[j].0 {
      assert Keys(c)[i] == c[i].0 && Keys(c)[j] == c[j].0;
    }
  }

  /** Every count is at least one. */
  lemma {:induction false} CountPositive(strs: seq<string>)
    ensures forall k :: 0 <= k < |Count(strs)| ==> Count(strs)[k].1 >= 1
  {
    if strs != [] {
      CountPositive(strs[..|strs| - 1]);
    }
  }

  // ---------------------------------------------------------------------
  // The dictionary

  /** With distinct keys, a counted string qualifies exactly when its count
      meets the thresholds and it is not reference-like. */
  lemma {:induction false} QualifyingMeaning(counts: Dict<nat>, minLength: int, minOccurrences: int)
    requires DistinctKeys(counts)
    ensures forall s :: s in Qualifying(counts, minLength, minOccurrences) <==>
      HasKey(counts, s) && Qualifies(s, Get(counts, s).value, minLength, minOccurrences)
  {
    if counts != [] {
      var init := counts[..|counts| - 1];
      var e := counts[|counts| - 1];
      assert counts == init + [e];
      QualifyingMeaning(init, minLength, minOccurrences);
      forall s {
        GetAppend(init, e, s);
      }
      assert !HasKey(init, e.0);
    }
  }

  /** No string is referenced twice. */
  lemma {:induction false} QualifyingDistinct(counts: Dict<nat>, minLength: int, minOccurrences: int)
    requires DistinctKeys(counts)
    ensures forall i, j :: 0 <= i < j < |Qualifying(counts, minLength, minOccurrences)| ==>
      Qualifying(counts, minLength, minOccurrences)[i] != Qualifying(counts, minLength, minOccurrences)[j]
  {
    if counts != [] {
      var init := counts[..|counts| - 1];
      var e := counts[|counts| - 1];
      assert counts == init + [e];
      QualifyingDistinct(init, minLength, minOccurrences);
      QualifyingMeaning(init, minLength, minOccurrences);
      assert !HasKey(init, e.0);
    }
  }

  /** The references of one compress call are distinct tokens. */
  lemma DictionaryKeysDistinct(data: Value, next: nat, minLength: int, minOccurrences: int)
    ensures DistinctKeys(DictionaryOf(data, next, minLength, minOccurrences))
  {
    var d := DictionaryOf(data, next, minLength, minOccurrences);
    forall i, j | 0 <= i < j < |d| ensures d[i].0 != d[j].0 {
      RefInjective(next + i, next + j);
    }
  }

  /** The dictionary's strings are distinct, so the reverse map is exact. */
  lemma DictionaryValuesDistinct(data: Value, next: nat, minLength: int, minOccurrences: int)
    ensures DistinctValues(DictionaryOf(data, next, minLength, minOccurrences))
  {
    CountDistinctKeys(Strings(data));
    QualifyingDistinct(Count(Strings(data)), minLength, minOccurrences);
  }

  /** A string is in the dictionary exactly when it is a string leaf of the
      data, at least minLength long, occurring at least minOccurrences
      times, and not starting with '#'. */
  lemma DictionaryContents(data: Value, next: nat, minLength: int, minOccurrences: int)
    ensures forall s :: s in DictValues(DictionaryOf(data, next, minLength, minOccurrences)) <==>
      s in Strings(data) && Qualifies(s, multiset(Strings(data))[s], minLength, minOccurrences)
  {
    var strs := Strings(data);
    var counts := Count(strs);
    var d := DictionaryOf(data, next, minLength, minOccurrences);
    var q := Qualifying(counts, minLength, minOccurrences);
    CountMeaning(strs);
    CountDistinctKeys(strs);
    QualifyingMeaning(counts, minLength, minOccurrences);
    assert DictValues(d) == q;
  }

  // ---------------------------------------------------------------------
  // First-seen order

  /** The index of the first occurrence of x in fs. */
  function FirstIndex(fs: seq<string>, x: string): (r: nat)
    requires x in fs
    ensures r < |fs| && fs[r] == x && forall j :: 0 <= j < r ==> fs[j] != x
  {
    if fs[0] == x then 0 else 1 + FirstIndex(fs[1..], x)
  }

  lemma FirstIndexPrefix(fs: seq<string>, y: string, x: string)
    requires x in fs
    ensures x in fs + [y] && FirstIndex(fs + [y], x) == FirstIndex(fs, x)
  {
    var a, b := FirstIndex(fs + [y], x), FirstIndex(fs, x);
    assert (fs + [y])[b] == x;
    assert !(a < b) && !(b < a);
  }

  lemma FirstIndexLast(fs: seq<string>, x: string)
    requires x !in fs
    ensures FirstIndex(fs + [x], x) == |fs|
  {
    assert (fs + [x])[|fs|] == x;
  }

  /** a and b occur in fs, the first a before the first b. */
  predicate SeenBefore(fs: seq<string>, a: string, b: string) {
    a in fs && b in fs && FirstIndex(fs, a) < FirstIndex(fs, b)
  }

  /** Distinct lists the strings in order of first occurrence. */
  lemma {:induction false} DistinctOrdered(fs: seq<string>)
    ensures forall i, j :: 0 <= i < j < |Distinct(fs)| ==> SeenBefore(fs, Distinct(fs)[i], Distinct(fs)[j])
  {
    if fs != [] {
      var init := fs[..|fs| - 1];
      var f := fs[|fs| - 1];
      assert fs == init + [f];
      DistinctOrdered(init);
      var d := Distinct(init);
      forall x | x in d ensures FirstIndex(fs, x) == FirstIndex(init, x) {
        FirstIndexPrefix(init, f, x);
      }
      if f !in d {
        FirstIndexLast(init, f);
        assert Distinct(fs) == d + [f];
        forall i, j | 0 <= i < j < |Distinct(fs)| ensures SeenBefore(fs, Distinct(fs)[i], Distinct(fs)[j]) {
          assert Distinct(fs)[i] == d[i] && d[i] in d;
          if j < |d| {
            assert Distinct(fs)[j] == d[j] && d[j] in d;
            assert SeenBefore(init, d[i], d[j]);
          }
        }
      }
    }
  }

  /** Both are keys, a before b. */
  predicate Ordered<V>(d: Dict<V>, a: string, b: string) {
    HasKey(d, a) && HasKey(d, b) && Find(d, a).value < Find(d, b).value
  }

  /** The qualifying strings keep the order of the counts. */
  lemma {:induction false} QualifyingOrdered(counts: Dict<nat>, minLength: int, minOccurrences: int)
    requires DistinctKeys(counts)
    ensures forall i, j :: 0 <= i < j < |Qualifying(counts, minLength, minOccurrences)| ==>
      Ordered(counts, Qualifying(counts, minLength, minOccurrences)[i], Qualifying(counts, minLength, minOccurrences)[j])
  {
    if counts != [] {
      var init := counts[..|counts| - 1];
      var e := counts[|counts| - 1];
      assert counts == init + [e];
      QualifyingOrdered(init, minLength, minOccurrences);
      QualifyingMeaning(init, minLength, minOccurrences);
      assert !HasKey(init, e.0);
      var prev := Qualifying(init, minLength, minOccurrences);
      var q := Qualifying(counts, minLength, minOccurrences);
      assert q == prev || q == prev + [e.0];
      forall i, j | 0 <= i < j < |q| ensures Ordered(counts, q[i], q[j]) {
        assert q[i] == prev[i] && q[i] in prev;
        assert HasKey(init, q[i]);
        FindAppend(init, e, q[i]);
        FindAppend(init, e, q[j]);
        assert Find(counts, q[i]) == Find(init, q[i]);
        if j < |prev| {
          assert q[j] == prev[j];
          assert Ordered(init, prev[i], prev[j]);
        } else {
          assert q[j] == e.0;
          assert Find(counts, q[j]) == Some(|init|);
        }
      }
    }
  }

  /** Lower reference numbers go to strings seen earlier in the traversal. */
  lemma FirstSeenOrder(data: Value, next: nat, minLength: int, minOccurrences: int)
    ensures var d := DictionaryOf(data, next, minLength, minOccurrences);
      forall k, l :: 0 <= k < l < |d| ==> SeenBefore(Strings(data), d[k].1, d[l].1)
  {
    var strs := Strings(data);
    var counts := Count(strs);
    var d := DictionaryOf(data, next, minLength, minOccurrences);
    var q := Qualifying(counts, minLength, minOccurrences);
    var ds := Distinct(strs);
    CountKeys(strs);
    CountDistinctKeys(strs);
    QualifyingOrdered(counts, minLength, minOccurrences);
    DistinctOrdered(strs);
    forall k, l | 0 <= k < l < |d| ensures SeenBefore(strs, d[k].1, d[l].1) {
      assert Ordered(counts, q[k], q[l]);
      var p, r := Find(counts, q[k]).value, Find(counts, q[l]).value;
      assert ds[p] == Keys(counts)[p] == q[k] == d[k].1;
      assert ds[r] == Keys(counts)[r] == q[l] == d[l].1;
      assert SeenBefore(strs, ds[p], ds[r]);
    }
  }

  // ---------------------------------------------------------------------
  // The reverse map

  lemma {:induction false} ReverseKeys(d: Dict<string>)
    ensures forall s :: HasKey(Reverse(d), s) <==> s in DictValues(d)
  {
    if d != [] {
      var init := d[..|d| - 1];
      var e := d[|d| - 1];
      assert d == init + [e];
      DictValuesAppend(init, e);
      ReverseKeys(init);
      forall s ensures HasKey(Reverse(d), s) <==> s in DictValues(d) {
        if s != e.1 {
          assert Get(Reverse(d), s) == Get(Reverse(init), s);
        }
      }
    }
  }

  /** With distinct values, the reverse map sends each string back to its
      token. */
  lemma {:induction false} ReverseInverts(d: Dict<string>)
    requires DistinctValues(d)
    ensures forall k :: 0 <= k < |d| ==> Get(Reverse(d), d[k].1) == Some(d[k].0)
  {
    if d != [] {
      var init := d[..|d| - 1];
      var e := d[|d| - 1];
      ReverseInverts(init);
      forall k | 0 <= k < |d| ensures Get(Reverse(d), d[k].1) == Some(d[k].0) {
        if k < |d| - 1 {
          assert d[k] == init[k];
          assert d[k].1 != e.1;
          assert Get(Reverse(d), d[k].1) == Get(Reverse(init), d[k].1);
        }
      }
    }
  }

  // ---------------------------------------------------------------------
  // The rewrite

  /** The value with every string leaf blanked: its shape, keys and
      non-string leaves. */
  function Erase(v: Value): Value
    decreases v
  {
    match v
    case Str(_) => Str("")
    case Arr(xs) => Arr(seq(|xs|, i requires 0 <= i < |xs| => Erase(xs[i])))
    case Obj(fs) => Obj(seq(|fs|, i requires 0 <= i < |fs| => (fs[i].0, Erase(fs[i].1))))
    case _ => v
  }

  /** Each string substituted through m. */
  function SubstAll(m: Dict<string>, ss: seq<string>): (r: seq<string>)
    ensures |r| == |ss| && forall i :: 0 <= i < |ss| ==> r[i] == Subst(m, ss[i])
  {
    if ss == [] then [] else [Subst(m, ss[0])] + SubstAll(m, ss[1..])
  }

  lemma SubstAllAppend(m: Dict<string>, a: seq<string>, b: seq<string>)
    ensures SubstAll(m, a + b) == SubstAll(m, a) + SubstAll(m, b)
  {
    assert SubstAll(m, a + b) == SubstAll(m, a) + SubstAll(m, b);
  }

  /** The rewrite keeps the shape: keys, nesting and non-string leaves. */
  lemma {:induction false} ReplaceShape(v: Value, m: Dict<string>)
    ensures Erase(Replace(v, m)) == Erase(v)
    decreases v
  {
    match v
    case Arr(xs) =>
      forall i | 0 <= i < |xs| ensures Erase(Replace(xs[i], m)) == Erase(xs[i]) {
        ReplaceShape(xs[i], m);
      }
    case Obj(fs) =>
      forall i | 0 <= i < |fs| ensures Erase(Replace(fs[i].1, m)) == Erase(fs[i].1) {
        ReplaceShape(fs[i].1, m);
      }
    case _ =>
  }

  /** The rewrite substitutes each string leaf, in traversal order. */
  lemma {:induction false} ReplaceStrings(v: Value, m: Dict<string>)
    ensures Strings(Replace(v, m)) == SubstAll(m, Strings(v))
    decreases v, 1
  {
    match v
    case Arr(xs) => ReplaceItemStrings(v, m, 0);
    case Obj(fs) => ReplaceFieldStrings(v, m, 0);
    case _ =>
  }

  lemma {:induction false} ReplaceItemStrings(whole: Value, m: Dict<string>, i: nat)
    requires whole.Arr? && i <= |whole.items|
    ensures ItemStrings(Replace(whole, m), i) == SubstAll(m, ItemStrings(whole, i))
    decreases whole, 0, |whole.items| - i
  {
    if i < |whole.items| {
      ReplaceStrings(whole.items[i], m);
      ReplaceItemStrings(whole, m, i + 1);
      SubstAllAppend(m, Strings(whole.items[i]), ItemStrings(whole, i + 1));
    }
  }

  lemma {:induction false} ReplaceFieldStrings(whole: Value, m: Dict<string>, i: nat)
    requires whole.Obj? && i <= |whole.fields|
    ensures FieldStrings(Replace(whole, m), i) == SubstAll(m, FieldStrings(whole, i))
    decreases whole, 0, |whole.fields| - i
  {
    if i < |whole.fields| {
      ReplaceStrings(whole.fields[i].1, m);
      ReplaceFieldStrings(whole, m, i + 1);
      SubstAllAppend(m, Strings(whole.fields[i].1), FieldStrings(whole, i + 1));
    }
  }

  lemma {:induction false} ItemStringsInclude(whole: Value, j: nat, i: nat)
    requires whole.Arr? && j <= i < |whole.items|
    ensures forall s :: s in Strings(whole.items[i]) ==> s in ItemStrings(whole, j)
    decreases i - j
  {
    if j < i {
      ItemStringsInclude(whole, j + 1, i);
    }
  }

  lemma {:induction false} FieldStringsInclude(whole: Value, j: nat, i: nat)
    requires whole.Obj? && j <= i < |whole.fields|
    ensures forall s :: s in Strings(whole.fields[i].1) ==> s in FieldStrings(whole, j)
    decreases i - j
  {
    if j < i {
      FieldStringsInclude(whole, j + 1, i);
    }
  }

  /** Rewriting through m1 and then m2 gives back v when m2 undoes m1 on
      every string leaf of v. */
  lemma {:induction false} ReplaceUndone(v: Value, m1: Dict<string>, m2: Dict<string>)
    requires forall s :: s in Strings(v) ==> Subst(m2, Subst(m1, s)) == s
    ensures Replace(Replace(v, m1), m2) == v
    decreases v
  {
    match v
    case Arr(xs) =>
      forall i | 0 <= i < |xs| ensures Replace(Replace(xs[i], m1), m2) == xs[i] {
        ItemStringsInclude(v, 0, i);
        ReplaceUndone(xs[i], m1, m2);
      }
    case Obj(fs) =>
      forall i | 0 <= i < |fs| ensures Replace(Replace(fs[i].1, m1), m2) == fs[i].1 {
        FieldStringsInclude(v, 0, i);
        ReplaceUndone(fs[i].1, m1, m2);
      }
    case Str(s) =>
      assert s in Strings(v);
    case _ =>
  }

  // ---------------------------------------------------------------------
  // What compress does

  /** A qualifying string leaf becomes its reference. */
  lemma QualifyingLeafReplaced(data: Value, next: nat, minLength: int, minOccurrences: int, s: string)
    requires s in Strings(data) && Qualifies(s, multiset(Strings(data))[s], minLength, minOccurrences)
    ensures var d := DictionaryOf(data, next, minLength, minOccurrences);
      exists k :: 0 <= k < |d| && d[k].1 == s && Subst(Reverse(d), s) == Ref(next + k)
  {
    var d := DictionaryOf(data, next, minLength, minOccurrences);
    DictionaryContents(data, next, minLength, minOccurrences);
    ReverseKeys(d);
    var k := ValueIndex(d, s);
    DictionaryValuesDistinct(data, next, minLength, minOccurrences);
    ReverseInverts(d);
    assert Subst(Reverse(d), s) == Ref(next + k);
  }

  /** Every other string is kept. */
  lemma OtherLeafKept(data: Value, next: nat, minLength: int, minOccurrences: int, s: string)
    requires !(s in Strings(data) && Qualifies(s, multiset(Strings(data))[s], minLength, minOccurrences))
    ensures Subst(Reverse(DictionaryOf(data, next, minLength, minOccurrences)), s) == s
  {
    DictionaryContents(data, next, minLength, minOccurrences);
    ReverseKeys(DictionaryOf(data, next, minLength, minOccurrences));
  }

  /** Mapping every reference back through the dictionary recovers the
      document, provided no string leaf of it is itself a reference of the
      dictionary. */
  lemma CompressRoundTrip(data: Value, next: nat, minLength: int, minOccurrences: int)
    requires forall s :: s in Strings(data) ==> !HasKey(DictionaryOf(data, next, minLength, minOccurrences), s)
    ensures var d := DictionaryOf(data, next, minLength, minOccurrences);
      Replace(Replace(data, Reverse(d)), d) == data
  {
    var d := DictionaryOf(data, next, minLength, minOccurrences);
    DictionaryKeysDistinct(data, next, minLength, minOccurrences);
    DictionaryValuesDistinct(data, next, minLength, minOccurrences);
    ReverseKeys(d);
    ReverseInverts(d);
    forall s | s in Strings(data) ensures Subst(d, Subst(Reverse(d), s)) == s {
      if HasKey(Reverse(d), s) {
        var k := ValueIndex(d, s);
        GetDistinct(d, k);
      }
    }
    ReplaceUndone(data, Reverse(d), d);
  }

  /** In particular the round trip holds when no string leaf starts with '#'. */
  lemma RoundTripWithoutHashLeaves(data: Value, next: nat, minLength: int, minOccurrences: int)
    requires forall s :: s in Strings(data) ==> !StartsWith(s, "#")
    ensures var d := DictionaryOf(data, next, minLength, minOccurrences);
      Replace(Replace(data, Reverse(d)), d) == data
  {
    var d := DictionaryOf(data, next, minLength, minOccurrences);
    forall s | s in Strings(data) ensures !HasKey(d, s) {
      if HasKey(d, s) {
        var i := HasKeyIndex(d, s);
        assert false;
      }
    }
    CompressRoundTrip(data, next, minLength, minOccurrences);
  }

  // ---------------------------------------------------------------------
  // The savings estimate

  function LengthSum(strs: seq<string>): nat {
    if strs == [] then 0 else LengthSum(strs[..|strs| - 1]) + |strs[|strs| - 1]|
  }

  lemma TotalCharsAppend(d: Dict<nat>, e: (string, nat))
    ensures TotalChars(d + [e]) == TotalChars(d) + |e.0| * e.1
  {
    assert (d + [e])[..|d|] == d;
  }

  lemma MulSucc(l: nat, c: nat)
    ensures l * (c + 1) == l * c + l
  {
  }

  lemma {:induction false} TotalCharsBump(d: Dict<nat>, i: nat)
    requires i < |d|
    ensures TotalChars(d[i := (d[i].0, d[i].1 + 1)]) == TotalChars(d) + |d[i].0|
  {
    var init := d[..|d| - 1];
    var u := d[i := (d[i].0, d[i].1 + 1)];
    if i == |d| - 1 {
      assert u[..|u| - 1] == init;
      MulSucc(|d[i].0|, d[i].1);
    } else {
      assert u[..|u| - 1] == init[i := (init[i].0, init[i].1 + 1)];
      TotalCharsBump(init, i);
    }
  }

  /** Counting one more occurrence of k adds len(k) to total_chars. */
  lemma TotalCharsIncrement(d: Dict<nat>, k: string)
    ensures TotalChars(Tally(d, k)) == TotalChars(d) + |k|
  {
    match Find(d, k)
    case None =>
      TallyNew(d, k);
      TotalCharsAppend(d, (k, 1));
    case Some(i) =>
      TallyOld(d, k, i);
      TotalCharsBump(d, i);
  }

  lemma TallyNew(d: Dict<nat>, k: string)
    requires Find(d, k).None?
    ensures Tally(d, k) == d + [(k, 1)]
  {
  }

  lemma TallyOld(d: Dict<nat>, k: string, i: nat)
    requires Find(d, k) == Some(i)
    ensures i < |d| && Tally(d, k) == d[i := (d[i].0, d[i].1 + 1)]
  {
  }

  /** total_chars is the total length of all string leaves. */
  lemma {:induction false} TotalIsLengthSum(strs: seq<string>)
    ensures TotalChars(Count(strs)) == LengthSum(strs)
  {
    if strs != [] {
      var init := strs[..|strs| - 1];
      var s := strs[|strs| - 1];
      var prev := Count(init);
      TotalIsLengthSum(init);
      TotalCharsIncrement(prev, s);
    }
  }

  lemma TermWithinTotal(len: int, c: int)
    requires len >= 3 && c >= 1
    ensures 0 <= (len - 3) * (c - 1) <= len * c
  {
    assert (len - 3) * (c - 1) <= len * (c - 1);
  }

  lemma {:induction false} SavedWithinTotal(counts: Dict<nat>, minLength: int, minOccurrences: int)
    requires minLength >= 3
    requires forall k :: 0 <= k < |counts| ==> counts[k].1 >= 1
    ensures 0 <= SavedChars(counts, minLength, minOccurrences) <= TotalChars(counts)
  {
    if counts != [] {
      var init := counts[..|counts| - 1];
      var s, c := counts[|counts| - 1].0, counts[|counts| - 1].1;
      assert forall k :: 0 <= k < |init| ==> init[k] == counts[k];
      SavedWithinTotal(init, minLength, minOccurrences);
      if |s| >= minLength && c >= minOccurrences {
        TermWithinTotal(|s|, c);
      }
    }
  }

  /** With minLength >= 3 the estimate lies between 0 and 1. */
  lemma EstimateBounded(data: Value, minLength: int, minOccurrences: int)
    requires minLength >= 3
    ensures var r := DictionaryEstimate(data, minLength, minOccurrences); 0 <= r.num <= r.den
  {
    CountPositive(Strings(data));
    SavedWithinTotal(Count(Strings(data)), minLength, minOccurrences);
  }

  lemma {:induction false} LengthSumEmpty(strs: seq<string>)
    requires forall s :: s in strs ==> s == ""
    ensures LengthSum(strs) == 0
  {
    if strs != [] {
      var init := strs[..|strs| - 1];
      assert strs[|strs| - 1] in strs;
      assert forall s :: s in init ==> s in strs;
      LengthSumEmpty(init);
    }
  }

  /** The estimate is 0 when the data holds no non-empty string. */
  lemma EstimateZeroWithoutText(data: Value, minLength: int, minOccurrences: int)
    requires forall s :: s in Strings(data) ==> s == ""
    ensures DictionaryEstimate(data, minLength, minOccurrences).num == 0
  {
    TotalIsLengthSum(Strings(data));
    LengthSumEmpty(Strings(data));
  }

  /** The estimate counts a reference-like string that compress never
      replaces. */
  lemma EstimateIgnoresHashExclusion(s: string, c: nat, minLength: int, minOccurrences: int)
    requires StartsWith(s, "#") && |s| >= minLength && |s| >= 4 && c >= minOccurrences && c >= 2
    ensures Qualifying([(s, c)], minLength, minOccurrences) == []
    ensures SavedChars([(s, c)], minLength, minOccurrences) > 0
  {
    assert [(s, c)][..0] == [];
    ProductPositive(|s| - 3, c - 1);
  }

  lemma ProductPositive(a: int, b: int)
    requires a >= 1 && b >= 1
    ensures a * b >= 1
  {
    assert a * b >= a * 1;
  }
}
