/** The @dict line: the dictionary the encoder writes in front of a
    compressed document is read back by the decoder, entry for entry, in
    key order, as long as every key is a plain word, and every value holds
    no line break and ends in neither '"' nor '\\'. */
module DictionaryRoundTrip {
  import opened Wrappers
  import opened Text
  import opened Values
  import opened Splitting
  import opened Literals
  import E = Encoder
  import D = Decoder
  import DP = DecoderProperties
  import RT = RoundTrip

  /** An entry the @dict line carries and reads back. */
  predicate SafeEntry(e: (string, string)) {
    RT.SafeKey(e.0) && QuotableString(e.1) && (e.1 == [] || e.1[|e.1| - 1] != '"')
  }

  predicate SafeDictionary(d: Dict<string>) {
    forall j :: 0 <= j < |d| ==> SafeEntry(d[j])
  }

  lemma SafeTail(d: Dict<string>)
    requires d != [] && SafeDictionary(d)
    ensures SafeDictionary(d[1..])
  {
    assert forall j :: 0 <= j < |d| - 1 ==> d[1..][j] == d[j + 1];
  }

  lemma SafeCons(e: (string, string), d: Dict<string>)
    requires SafeEntry(e) && SafeDictionary(d)
    ensures SafeDictionary([e] + d)
  {
    assert forall j :: 1 <= j < |d| + 1 ==> ([e] + d)[j] == d[j - 1];
  }

  lemma {:induction false} InsertSafe(x: (string, string), d: Dict<string>)
    requires SafeEntry(x) && SafeDictionary(d)
    ensures SafeDictionary(E.Insert(x, d))
    decreases |d|
  {
    if d == [] {
    } else if StrLess(d[0].0, x.0) {
      SafeTail(d);
      InsertSafe(x, d[1..]);
      SafeCons(d[0], E.Insert(x, d[1..]));
    } else {
      SafeCons(x, d);
    }
  }

  lemma {:induction false} SortByKeySafe(d: Dict<string>)
    requires SafeDictionary(d)
    ensures SafeDictionary(E.SortByKey(d))
    decreases |d|
  {
    if d != [] {
      SafeTail(d);
      SortByKeySafe(d[1..]);
      InsertSafe(d[0], E.SortByKey(d[1..]));
    }
  }

  /** The items of a @dict line: key:"value", one per entry, in order. */
  predicate DictItems(items: seq<string>, p: Dict<string>) {
    |items| == |p| && SafeDictionary(p) &&
    forall k :: 0 <= k < |items| ==> items[k] == p[k].0 + ":" + Quote(p[k].1)
  }

  lemma {:induction false} DictEntriesAt(p: Dict<string>)
    requires SafeDictionary(p)
    ensures DictItems(E.DictEntries(p), p)
    decreases |p|
  {
    if p != [] {
      var q := p[..|p| - 1];
      assert SafeDictionary(q) by {
        assert forall j :: 0 <= j < |q| ==> q[j] == p[j];
      }
      DictEntriesAt(q);
      assert forall j :: 0 <= j < |q| ==> q[j] == p[j];
    }
  }

  lemma DictItemsTail(items: seq<string>, p: Dict<string>)
    requires items != [] && DictItems(items, p)
    ensures DictItems(items[1..], p[1..])
  {
    SafeTail(p);
    assert forall j :: 0 <= j < |items| - 1 ==> items[1..][j] == items[j + 1] && p[1..][j] == p[j + 1];
  }

  /** Every item of a @dict line is one field. */
  lemma DictItemsSafe(items: seq<string>, p: Dict<string>)
    requires DictItems(items, p)
    ensures forall k :: 0 <= k < |items| ==> SafeField(items[k])
  {
    forall k | 0 <= k < |items| ensures SafeField(items[k]) {
      QuotedLiteral(p[k].1);
      RT.ItemField(p[k].0, Quote(p[k].1));
    }
  }

  /** The first item of a @dict line adds its entry. */
  lemma DictItemRead(items: seq<string>, p: Dict<string>, acc: Dict<string>)
    requires items != [] && DictItems(items, p) && !HasKey(acc, p[0].0)
    ensures D.DictFrom(items, acc) == D.DictFrom(items[1..], acc + [p[0]])
  {
    var (k, v) := p[0];
    assert items[0] == k + ":" + Quote(v);
    RT.ItemParts(k, Quote(v));
    DP.DictValueQuote(v);
    RT.PutNew(acc, k, v);
  }

  /** None of the keys of p is in acc. */
  predicate Fresh(acc: Dict<string>, p: Dict<string>) {
    forall j :: 0 <= j < |p| ==> !HasKey(acc, p[j].0)
  }

  lemma FreshStep(acc: Dict<string>, p: Dict<string>)
    requires p != [] && Fresh(acc, p) && DistinctKeys(p)
    ensures Fresh(acc + [p[0]], p[1..]) && DistinctKeys(p[1..])
  {
    RT.PutNew(acc, p[0].0, p[0].1);
    forall j | 0 <= j < |p| - 1 ensures !HasKey(acc + [p[0]], p[1..][j].0) {
      assert p[1..][j] == p[j + 1];
      assert Get(acc + [p[0]], p[j + 1].0) == Get(acc, p[j + 1].0);
    }
    assert forall i, j :: 0 <= i < j < |p| - 1 ==> p[1..][i] == p[i + 1] && p[1..][j] == p[j + 1];
  }

  lemma {:induction false} DictFromItems(items: seq<string>, p: Dict<string>, acc: Dict<string>)
    requires DictItems(items, p) && DistinctKeys(p) && Fresh(acc, p)
    ensures D.DictFrom(items, acc) == acc + p
    decreases |items|
  {
    if items == [] {
      assert acc + p == acc;
    } else {
      DictItemsTail(items, p);
      FreshStep(acc, p);
      DictItemRead(items, p, acc);
      DictFromItems(items[1..], p[1..], acc + [p[0]]);
      RT.HeadSplit(acc, p);
    }
  }

  lemma DictContent(d: Dict<string>, es: seq<string>)
    requires es == E.DictEntries(E.SortByKey(d))
    ensures D.Content(E.DictionaryLine(d)) == Success(Join(", ", es))
  {
    assert E.DictionaryLine(d) == "@dict" + "[" + Join(", ", es) + "]";
    RT.MetaContent("@dict", Join(", ", es));
  }

  /** The @dict line read back gives the dictionary in key order. */
  lemma DictionaryLineRoundTrip(d: Dict<string>)
    requires DistinctKeys(d) && SafeDictionary(d)
    ensures D.DictLine(E.DictionaryLine(d)) == Success(E.SortByKey(d))
  {
    var p := E.SortByKey(d);
    var es := E.DictEntries(p);
    DictContent(d, es);
    SortByKeySafe(d);
    DictEntriesAt(p);
    DictItemsSafe(es, p);
    JoinSplit(es);
    RT.SortByKeyDistinct(d);
    DictFromItems(es, p, []);
    assert [] + p == p;
  }

  /** ... and every reference reads as the string it stands for. */
  lemma DictionaryLineGet(d: Dict<string>, k: string)
    requires DistinctKeys(d) && SafeDictionary(d)
    ensures D.DictLine(E.DictionaryLine(d)).Success?
    ensures Get(D.DictLine(E.DictionaryLine(d)).value, k) == Get(d, k)
  {
    DictionaryLineRoundTrip(d);
    RT.SortByKeyGet(d, k);
  }
}
