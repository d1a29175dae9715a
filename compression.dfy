/** Dictionary compression of an ATON document: every string leaf that is
    long enough, frequent enough and not already reference-like is replaced
    by a reference token `#k`, and the dictionary maps each token back to
    its string. Delta and pattern compression are identity stubs. */
module Compression {
  import opened Wrappers
  import opened Text
  import opened Values

  // ---------------------------------------------------------------------
  // Metadata and estimates

  /** A metadata entry produced by one of the algorithms. */
  datatype Meta =
    | DictionaryMeta(entries: Dict<string>)
    | DeltaFieldsMeta(fields: seq<string>)
    | PatternsMeta(patterns: Dict<Value>)

  type Metadata = Dict<Meta>

  type Pos = n: int | n > 0 witness 1

  /** A savings estimate num/den, the exact value of the float the
      algorithms return. */
  datatype Ratio = Ratio(num: int, den: Pos)

  /** a < b on exact ratios. */
  predicate RatioLess(a: Ratio, b: Ratio) {
    a.num * b.den < b.num * a.den
  }

  /** The estimate `x / y if y > 0 else 0.0`. */
  function SavingsRatio(saved: int, total: nat): (r: Ratio)
    ensures total > 0 ==> r.num == saved && r.den == total
    ensures total == 0 ==> r.num == 0
  {
    if total > 0 then Ratio(saved, total) else Ratio(0, 1)
  }

  // ---------------------------------------------------------------------
  // Reference tokens

  /** The reference token f"#{k}". */
  function Ref(k: nat): (r: string)
    ensures |r| >= 2 && r[0] == '#' && r[1..] == NatToString(k)
    ensures StartsWith(r, "#")
  {
    "#" + NatToString(k)
  }

  lemma RefInjective(a: nat, b: nat)
    ensures Ref(a) == Ref(b) <==> a == b
  {
    if Ref(a) == Ref(b) {
      assert NatToString(a) == Ref(a)[1..] == Ref(b)[1..] == NatToString(b);
      assert DigitsValue(NatToString(a)) == a;
    }
  }

  // ---------------------------------------------------------------------
  // String leaves

  /** The string leaves of a value in traversal order: dict values and
      list items are visited, dict keys are not. */
  function Strings(v: Value): seq<string>
    decreases v, 1
  {
    match v
    case Str(s) => [s]
    case Arr(xs) => ItemStrings(v, 0)
    case Obj(fs) => FieldStrings(v, 0)
    case _ => []
  }

  /** The string leaves of the list items from index i on. */
  function ItemStrings(whole: Value, i: nat): seq<string>
    requires whole.Arr? && i <= |whole.items|
    decreases whole, 0, |whole.items| - i
  {
    if i == |whole.items| then []
    else Strings(whole.items[i]) + ItemStrings(whole, i + 1)
  }

  /** The string leaves of the dict values from index i on. */
  function FieldStrings(whole: Value, i: nat): seq<string>
    requires whole.Obj? && i <= |whole.fields|
    decreases whole, 0, |whole.fields| - i
  {
    if i == |whole.fields| then []
    else Strings(whole.fields[i].1) + FieldStrings(whole, i + 1)
  }

  // ---------------------------------------------------------------------
  // Counting and the dictionary

  /** Counter(strs): each distinct string with its number of occurrences,
      in order of first occurrence. */
  function Count(strs: seq<string>): Dict<nat> {
    if strs == [] then [] else Tally(Count(strs[..|strs| - 1]), strs[|strs| - 1])
  }

  /** One more occurrence of s. */
  function Tally(counts: Dict<nat>, s: string): Dict<nat> {
    Put(counts, s, Get(counts, s).GetOr(0) + 1)
  }

  /** The condition under which a counted string gets a reference. */
  predicate Qualifies(s: string, count: nat, minLength: int, minOccurrences: int) {
    |s| >= minLength && count >= minOccurrences && !StartsWith(s, "#")
  }

  /** The counted strings that get a reference, in counting order. */
  function Qualifying(counts: Dict<nat>, minLength: int, minOccurrences: int): (q: seq<string>)
    ensures |q| <= |counts|
  {
    if counts == [] then []
    else
      var prev := Qualifying(counts[..|counts| - 1], minLength, minOccurrences);
      var (s, c) := counts[|counts| - 1];
      if Qualifies(s, c, minLength, minOccurrences) then prev + [s] else prev
  }

  /** The dictionary the counting loop builds when the reference counter
      starts at next: the k-th qualifying string gets `#(next + k)`. */
  function Assign(counts: Dict<nat>, next: nat, minLength: int, minOccurrences: int): (d: Dict<string>)
    ensures |d| == |Qualifying(counts, minLength, minOccurrences)|
    ensures forall k :: 0 <= k < |d| ==>
      d[k] == (Ref(next + k), Qualifying(counts, minLength, minOccurrences)[k])
  {
    if counts == [] then []
    else
      var prev := Assign(counts[..|counts| - 1], next, minLength, minOccurrences);
      var (s, c) := counts[|counts| - 1];
      if Qualifies(s, c, minLength, minOccurrences) then prev + [(Ref(next + |prev|), s)] else prev
  }

  /** The dictionary `compress` builds for data. */
  function DictionaryOf(data: Value, next: nat, minLength: int, minOccurrences: int): Dict<string> {
    Assign(Count(Strings(data)), next, minLength, minOccurrences)
  }

  function DictValues<V>(d: Dict<V>): (r: seq<V>)
    ensures |r| == |d|
    ensures forall i :: 0 <= i < |d| ==> r[i] == d[i].1
  {
    if d == [] then [] else [d[0].1] + DictValues(d[1..])
  }

  predicate DistinctValues<V(==)>(d: Dict<V>) {
    forall i, j :: 0 <= i < j < |d| ==> d[i].1 != d[j].1
  }

  /** The reverse map, from each value to its key: a later entry overwrites
      an earlier one with the same value. */
  function Reverse(d: Dict<string>): Dict<string> {
    if d == [] then []
    else Put(Reverse(d[..|d| - 1]), d[|d| - 1].1, d[|d| - 1].0)
  }

  /** `s` after substitution through m, if it is a key of m. */
  function Subst(m: Dict<string>, s: string): string {
    if HasKey(m, s) then Get(m, s).value else s
  }

  /** _replace_strings: a copy of v in which each string leaf that is a key
      of refMap becomes its image. */
  function Replace(v: Value, refMap: Dict<string>): Value
    decreases v
  {
    match v
    case Str(s) => if HasKey(refMap, s) then Str(Get(refMap, s).value) else v
    case Arr(xs) => Arr(seq(|xs|, i requires 0 <= i < |xs| => Replace(xs[i], refMap)))
    case Obj(fs) => Obj(seq(|fs|, i requires 0 <= i < |fs| => (fs[i].0, Replace(fs[i].1, refMap))))
    case _ => v
  }

  // ---------------------------------------------------------------------
  // Savings estimate

  /** The total of length times count over the counted strings. */
  function TotalChars(counts: Dict<nat>): nat {
    if counts == [] then 0
    else
      var (s, c) := counts[|counts| - 1];
      TotalChars(counts[..|counts| - 1]) + |s| * c
  }

  /** The saved-characters sum of estimate_savings; it has no '#' test. */
  function SavedChars(counts: Dict<nat>, minLength: int, minOccurrences: int): int {
    if counts == [] then 0
    else
      var (s, c) := counts[|counts| - 1];
      SavedChars(counts[..|counts| - 1], minLength, minOccurrences)
        + if |s| >= minLength && c >= minOccurrences then (|s| - 3) * (c - 1) else 0
  }

  /** estimate_savings of the dictionary algorithm on data. */
  function DictionaryEstimate(data: Value, minLength: int, minOccurrences: int): Ratio {
    var counts := Count(Strings(data));
    SavingsRatio(SavedChars(counts, minLength, minOccurrences), TotalChars(counts))
  }

  // ---------------------------------------------------------------------
  // The stateful algorithm

  class DictionaryCompression {
    const minLength: int
    const minOccurrences: int
    /** The dictionary of the last compress call, token to string. */
    var dictionary: Dict<string>
    /** The next reference number; never reset. */
    var refCounter: nat

    constructor(minLength: int, minOccurrences: int)
      ensures this.minLength == minLength && this.minOccurrences == minOccurrences
      ensures dictionary == [] && refCounter == 0
    {
      this.minLength := minLength;
      this.minOccurrences := minOccurrences;
      dictionary := [];
      refCounter := 0;
    }

    /** _extract_strings: appends the string leaves of obj to strings. */
    method ExtractStrings(obj: Value, strings: seq<string>) returns (r: seq<string>)
      ensures r == strings + Strings(obj)
      decreases obj
    {
      r := strings;
      match obj {
        case Str(s) =>
          r := r + [s];
        case Obj(fs) =>
          var i := 0;
          while i < |fs|
            invariant 0 <= i <= |fs|
            invariant r + FieldStrings(obj, i) == strings + Strings(obj)
          {
            r := ExtractStrings(fs[i].1, r);
            i := i + 1;
          }
        case Arr(xs) =>
          var i := 0;
          while i < |xs|
            invariant 0 <= i <= |xs|
            invariant r + ItemStrings(obj, i) == strings + Strings(obj)
          {
            r := ExtractStrings(xs[i], r);
            i := i + 1;
          }
        case _ =>
      }
    }

    /** compress: rebuilds the dictionary from the string counts of data,
        numbering references from the current counter, and replaces every
        qualifying string leaf by its reference. */
    method Compress(data: Value) returns (compressed: Value, metadata: Metadata)
      modifies this
      ensures dictionary == DictionaryOf(data, old(refCounter), minLength, minOccurrences)
      ensures refCounter == old(refCounter) + |dictionary|
      ensures compressed == Replace(data, Reverse(dictionary))
      ensures metadata == [("dictionary", DictionaryMeta(dictionary))]
    {
      var strings := ExtractStrings(data, []);
      assert strings == Strings(data);
      var stringCounts := Count(strings);
      BuildDictionary(stringCounts);
      var reverseDict := Reverse(dictionary);
      compressed := Replace(data, reverseDict);
      metadata := [("dictionary", DictionaryMeta(dictionary))];
    }

    /** The dictionary-building loop of compress. */
    method BuildDictionary(counts: Dict<nat>)
      modifies this
      ensures dictionary == Assign(counts, old(refCounter), minLength, minOccurrences)
      ensures refCounter == old(refCounter) + |dictionary|
    {
      ghost var start := refCounter;
      dictionary := [];
      var i := 0;
      while i < |counts|
        invariant 0 <= i <= |counts|
        invariant dictionary == Assign(counts[..i], start, minLength, minOccurrences)
        invariant refCounter == start + |dictionary|
      {
        var s, c := counts[i].0, counts[i].1;
        assert counts[..i + 1][..i] == counts[..i];
        if |s| >= minLength && c >= minOccurrences && !StartsWith(s, "#") {
          var ref := Ref(refCounter);
          FreshRef(dictionary, start, s);
          dictionary := Put(dictionary, ref, s);
          refCounter := refCounter + 1;
        }
        i := i + 1;
      }
      assert counts[..i] == counts;
    }

    /** estimate_savings: the saved-characters and total-characters sums over
        the string counts of data, as a ratio. */
    method EstimateSavings(data: Value) returns (r: Ratio)
      ensures r == DictionaryEstimate(data, minLength, minOccurrences)
    {
      var strings := ExtractStrings(data, []);
      assert strings == Strings(data);
      var stringCounts := Count(strings);
      var total := SumTotalChars(stringCounts);
      var saved := SumSavedChars(stringCounts);
      r := if total > 0 then Ratio(saved, total) else Ratio(0, 1);
    }

    /** The total_chars sum of estimate_savings. */
    method SumTotalChars(counts: Dict<nat>) returns (total: nat)
      ensures total == TotalChars(counts)
    {
      total := 0;
      var i := 0;
      while i < |counts|
        invariant 0 <= i <= |counts|
        invariant total == TotalChars(counts[..i])
      {
        assert counts[..i + 1][..i] == counts[..i];
        total := total + |counts[i].0| * counts[i].1;
        i := i + 1;
      }
      assert counts[..i] == counts;
    }

    /** The saved_chars loop of estimate_savings. */
    method SumSavedChars(counts: Dict<nat>) returns (saved: int)
      ensures saved == SavedChars(counts, minLength, minOccurrences)
    {
      saved := 0;
      var i := 0;
      while i < |counts|
        invariant 0 <= i <= |counts|
        invariant saved == SavedChars(counts[..i], minLength, minOccurrences)
      {
        var s, c := counts[i].0, counts[i].1;
        assert counts[..i + 1][..i] == counts[..i];
        if |s| >= minLength && c >= minOccurrences {
          saved := saved + (|s| - 3) * (c - 1);
        }
        i := i + 1;
      }
      assert counts[..i] == counts;
    }
  }

  /** The next reference is not yet a key of a dictionary numbered from start. */
  lemma FreshRef(d: Dict<string>, start: nat, v: string)
    requires forall k :: 0 <= k < |d| ==> d[k].0 == Ref(start + k)
    ensures Put(d, Ref(start + |d|), v) == d + [(Ref(start + |d|), v)]
  {
    forall k | 0 <= k < |d| ensures d[k].0 != Ref(start + |d|) {
      RefInjective(start + k, start + |d|);
    }
  }

  // ---------------------------------------------------------------------
  // Delta and pattern compression (identity stubs)

  /** DeltaCompression.compress: the data unchanged, no delta fields. */
  function DeltaCompress(data: Value): (Value, Metadata) {
    (data, [("delta_fields", DeltaFieldsMeta([]))])
  }

  /** PatternCompression.compress: the data unchanged, no patterns. */
  function PatternCompress(data: Value): (Value, Metadata) {
    (data, [("patterns", PatternsMeta([]))])
  }

  /** PatternCompression.estimate_savings: len({}) * 0.05. */
  function PatternEstimate(data: Value): Ratio {
    Ratio(0, 1)
  }
}
