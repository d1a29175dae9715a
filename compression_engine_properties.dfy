/** What the mode dispatch guarantees: FAST and BALANCED agree, ULTRA only
    adds the stub algorithms' metadata, ADAPTIVE follows its thresholds and
    picks the first best estimate, and reference numbering carries over
    between calls without reusing a token. */
module CompressionEngineProperties {
  import opened Wrappers
  import opened Text
  import opened Values
  import opened Compression
  import opened CompressionProperties
  import opened CompressionEngine

  // ---------------------------------------------------------------------
  // Metadata merging

  /** The tail of a dict with distinct keys has distinct keys, none of
      them the head's. */
  lemma DistinctTail<V>(other: Dict<V>)
    requires DistinctKeys(other) && other != []
    ensures DistinctKeys(other[1..])
    ensures forall i :: 0 <= i < |other| - 1 ==> other[1..][i].0 != other[0].0
  {
    var rest := other[1..];
    forall i, j | 0 <= i < j < |rest| ensures rest[i].0 != rest[j].0 {
      assert rest[i] == other[i + 1] && rest[j] == other[j + 1];
    }
    forall i | 0 <= i < |rest| ensures rest[i].0 != other[0].0 {
      assert rest[i] == other[i + 1];
    }
  }

  /** After d.update(other), a key of other has other's value and every
      other key keeps d's. */
  lemma {:induction false} UpdateGet<V>(d: Dict<V>, other: Dict<V>, k: string)
    requires DistinctKeys(other)
    ensures Get(Update(d, other), k) == if HasKey(other, k) then Get(other, k) else Get(d, k)
    decreases |other|
  {
    if other != [] {
      var rest := other[1..];
      DistinctTail(other);
      UpdateGet(Put(d, other[0].0, other[0].1), rest, k);
      assert Get(other, k) == if other[0].0 == k then Some(other[0].1) else Get(rest, k);
    }
  }

  /** Merging one new key appends it. */
  lemma UpdateSingle<V>(d: Dict<V>, e: (string, V))
    requires !HasKey(d, e.0)
    ensures Update(d, [e]) == d + [e]
  {
    assert [e][1..] == [];
  }

  // ---------------------------------------------------------------------
  // The modes

  /** The dictionary algorithm's metadata is the one entry "dictionary". */
  lemma MergeDictionaryMeta(data: Value, st: DictState)
    ensures var s := Apply(DictionaryAlgorithm, data, st);
      |s.metadata| == 1 && s.metadata == [("dictionary", s.metadata[0].1)] && Update([], s.metadata) == s.metadata
  {
    var s := Apply(DictionaryAlgorithm, data, st);
    UpdateSingle([], s.metadata[0]);
  }

  /** FAST and BALANCED give the same result. */
  lemma FastIsBalanced(data: Value, size: nat, deltaEstimate: Ratio, st: DictState)
    ensures Run(Fast, data, size, deltaEstimate, st) == Run(Balanced, data, size, deltaEstimate, st)
  {
    MergeDictionaryMeta(data, st);
  }

  /** The delta and pattern stages leave data and state alone and add
      their metadata. */
  lemma ChainStubs(c: Value, meta: Metadata, st: DictState)
    ensures Chain(Algorithms[1..], c, meta, st) ==
      Step(c, Update(Update(meta, [("delta_fields", DeltaFieldsMeta([]))]), [("patterns", PatternsMeta([]))]), st)
  {
    var m2 := Update(meta, [("delta_fields", DeltaFieldsMeta([]))]);
    var m3 := Update(m2, [("patterns", PatternsMeta([]))]);
    assert Algorithms[1..] == [DeltaAlgorithm, PatternAlgorithm];
    assert [DeltaAlgorithm, PatternAlgorithm][1..] == [PatternAlgorithm];
    assert Chain([DeltaAlgorithm, PatternAlgorithm], c, meta, st) == Chain([PatternAlgorithm], c, m2, st);
    assert Chain([PatternAlgorithm], c, m2, st) == Chain([], c, m3, st);
  }

  /** After the dictionary stage, the stubs append their two entries. */
  lemma StubsAfterDictionary(m: Meta, c: Value, st: DictState)
    ensures Chain(Algorithms[1..], c, [("dictionary", m)], st) ==
      Step(c, [("dictionary", m)] + [("delta_fields", DeltaFieldsMeta([])), ("patterns", PatternsMeta([]))], st)
  {
    var m1: Metadata := [("dictionary", m)];
    var dm: Metadata := [("delta_fields", DeltaFieldsMeta([]))];
    var pm: Metadata := [("patterns", PatternsMeta([]))];
    ChainStubs(c, m1, st);
    UpdateSingle(m1, dm[0]);
    assert (m1 + dm)[0].0 == "dictionary" && (m1 + dm)[1].0 == "delta_fields";
    UpdateSingle(m1 + dm, pm[0]);
    assert m1 + dm + pm == m1 + (dm + pm);
  }

  /** ULTRA is the dictionary step followed by the stubs' metadata. */
  lemma UltraForm(data: Value, st: DictState)
    ensures var s := Apply(DictionaryAlgorithm, data, st);
      UltraSpec(data, st) ==
        Step(s.compressed, s.metadata + [("delta_fields", DeltaFieldsMeta([])), ("patterns", PatternsMeta([]))], s.state)
  {
    var s := Apply(DictionaryAlgorithm, data, st);
    MergeDictionaryMeta(data, st);
    assert UltraSpec(data, st) == Chain(Algorithms[1..], s.compressed, s.metadata, s.state);
    StubsAfterDictionary(s.metadata[0].1, s.compressed, s.state);
  }

  /** ULTRA produces BALANCED's data and dictionary state; its metadata
      is BALANCED's followed by the stubs' empty delta fields and patterns. */
  lemma UltraExtendsBalanced(data: Value, size: nat, deltaEstimate: Ratio, st: DictState)
    ensures var u := Run(Ultra, data, size, deltaEstimate, st);
      var b := Run(Balanced, data, size, deltaEstimate, st);
      && u.compressed == b.compressed
      && u.state == b.state
      && u.metadata == b.metadata + [("delta_fields", DeltaFieldsMeta([])), ("patterns", PatternsMeta([]))]
  {
    MergeDictionaryMeta(data, st);
    UltraForm(data, st);
  }

  /** ADAPTIVE below the thresholds: FAST under 1000 characters, BALANCED
      under 10000. */
  lemma AdaptiveThresholds(data: Value, size: nat, deltaEstimate: Ratio, st: DictState)
    ensures size < 1000 ==> Run(Adaptive, data, size, deltaEstimate, st) == Run(Fast, data, size, deltaEstimate, st)
    ensures 1000 <= size < 10000 ==>
      Run(Adaptive, data, size, deltaEstimate, st) == Run(Balanced, data, size, deltaEstimate, st)
  {
  }

  /** ADAPTIVE from 10000 characters on applies the dictionary algorithm
      when its estimate is at least both others (ties go to it). */
  lemma AdaptiveLargeDictionary(data: Value, size: nat, deltaEstimate: Ratio, st: DictState)
    requires size >= 10000
    requires var e := DictionaryEstimate(data, st.minLength, st.minOccurrences);
      !RatioLess(e, deltaEstimate) && !RatioLess(e, Ratio(0, 1))
    ensures Run(Adaptive, data, size, deltaEstimate, st) == Run(Fast, data, size, deltaEstimate, st)
  {
    var i := AdaptiveChoice(data, deltaEstimate, st);
    assert i == 0;
    assert Algorithms[i] == DictionaryAlgorithm;
  }

  /** ... the delta algorithm (which leaves data and state alone) when it
      beats the dictionary and is not beaten by the pattern algorithm. */
  lemma AdaptiveLargeDelta(data: Value, size: nat, deltaEstimate: Ratio, st: DictState)
    requires size >= 10000
    requires var e := DictionaryEstimate(data, st.minLength, st.minOccurrences);
      RatioLess(e, deltaEstimate) && !RatioLess(deltaEstimate, Ratio(0, 1))
    ensures Run(Adaptive, data, size, deltaEstimate, st) == Step(data, [("delta_fields", DeltaFieldsMeta([]))], st)
  {
    var i := AdaptiveChoice(data, deltaEstimate, st);
    assert i == 1;
    assert Algorithms[i] == DeltaAlgorithm;
  }

  /** ... and the pattern algorithm (which also leaves them alone) when
      both others estimate below zero. */
  lemma AdaptiveLargePattern(data: Value, size: nat, deltaEstimate: Ratio, st: DictState)
    requires size >= 10000
    requires var e := DictionaryEstimate(data, st.minLength, st.minOccurrences);
      RatioLess(e, Ratio(0, 1)) && RatioLess(deltaEstimate, Ratio(0, 1))
    ensures Run(Adaptive, data, size, deltaEstimate, st) == Step(data, [("patterns", PatternsMeta([]))], st)
  {
    var i := AdaptiveChoice(data, deltaEstimate, st);
    assert i == 2;
    assert Algorithms[i] == PatternAlgorithm;
  }

  /** Which algorithm the large-document branch picks. */
  lemma AdaptiveChoice(data: Value, deltaEstimate: Ratio, st: DictState) returns (i: nat)
    ensures i < 3 && i == Best(Estimates(data, deltaEstimate, st))
    ensures var e, zero := DictionaryEstimate(data, st.minLength, st.minOccurrences), Ratio(0, 1);
      && (i == 0 <==> !RatioLess(e, deltaEstimate) && !RatioLess(e, zero))
      && (i == 1 <==> RatioLess(e, deltaEstimate) && !RatioLess(deltaEstimate, zero))
      && (i == 2 <==> RatioLess(e, zero) && RatioLess(deltaEstimate, zero))
  {
    var es := Estimates(data, deltaEstimate, st);
    i := Best(es);
    var e, zero := es[0], es[2];
    assert es[1] == deltaEstimate;
    assert !RatioLess(es[i], e) && !RatioLess(es[i], deltaEstimate) && !RatioLess(es[i], zero);
    if i == 0 {
    } else if i == 1 {
      assert RatioLess(e, deltaEstimate);
    } else {
      assert RatioLess(e, zero) && RatioLess(deltaEstimate, zero);
    }
  }

  /** With minLength >= 3 (the engine uses 5) the dictionary estimate is
      never negative, so ADAPTIVE never picks the pattern algorithm. */
  lemma AdaptiveNeverPattern(data: Value, size: nat, deltaEstimate: Ratio, st: DictState)
    requires st.minLength >= 3
    ensures var r := Run(Adaptive, data, size, deltaEstimate, st);
      r == Run(Fast, data, size, deltaEstimate, st) || r == Run(Balanced, data, size, deltaEstimate, st) ||
      r == Step(data, [("delta_fields", DeltaFieldsMeta([]))], st)
  {
    if size >= 10000 {
      var e, zero := DictionaryEstimate(data, st.minLength, st.minOccurrences), Ratio(0, 1);
      EstimateBounded(data, st.minLength, st.minOccurrences);
      assert !RatioLess(e, zero);
      if !RatioLess(e, deltaEstimate) {
        AdaptiveLargeDictionary(data, size, deltaEstimate, st);
      } else {
        RatioLeLess(zero, e, deltaEstimate);
        AdaptiveLargeDelta(data, size, deltaEstimate, st);
      }
    }
  }

  // ---------------------------------------------------------------------
  // Reference numbering across calls

  /** The dictionary holds the last |dictionary| references handed out. */
  predicate Numbered(st: DictState) {
    |st.dictionary| <= st.refCounter &&
    forall k :: 0 <= k < |st.dictionary| ==>
      st.dictionary[k].0 == Ref(st.refCounter - |st.dictionary| + k)
  }

  /** Whether the mode always runs the dictionary algorithm. */
  predicate UsesDictionary(mode: Mode) {
    mode == Fast || mode == Balanced || mode == Ultra
  }

  /** The dictionary state after the dictionary algorithm has run. */
  function Rebuilt(data: Value, st: DictState): (r: DictState)
    ensures r.minLength == st.minLength && r.minOccurrences == st.minOccurrences
    ensures r.refCounter == st.refCounter + |r.dictionary|
  {
    var d := DictionaryOf(data, st.refCounter, st.minLength, st.minOccurrences);
    st.(dictionary := d, refCounter := st.refCounter + |d|)
  }

  /** The dictionary algorithm numbers its entries from the old counter. */
  lemma RebuiltNumbered(data: Value, st: DictState)
    ensures Numbered(Rebuilt(data, st))
  {
    var r := Rebuilt(data, st);
    forall k | 0 <= k < |r.dictionary|
      ensures r.dictionary[k].0 == Ref(r.refCounter - |r.dictionary| + k)
    {
      assert r.refCounter - |r.dictionary| + k == st.refCounter + k;
    }
  }

  /** A call either leaves the dictionary state alone or rebuilds the
      dictionary from the current counter; FAST, BALANCED and ULTRA always
      do the latter. */
  lemma RunState(mode: Mode, data: Value, size: nat, deltaEstimate: Ratio, st: DictState)
    ensures var r := Run(mode, data, size, deltaEstimate, st).state;
      (r == st || r == Rebuilt(data, st)) && (UsesDictionary(mode) ==> r == Rebuilt(data, st))
  {
    ApplyState(DictionaryAlgorithm, data, st);
    match mode
    case Fast =>
    case Balanced =>
    case Ultra => UltraForm(data, st);
    case Adaptive =>
      if size >= 10000 {
        AdaptiveLargeState(data, size, deltaEstimate, st);
      }
  }

  /** From 10000 characters on, ADAPTIVE runs one algorithm: the dictionary
      state is rebuilt or left alone. */
  lemma AdaptiveLargeState(data: Value, size: nat, deltaEstimate: Ratio, st: DictState)
    requires size >= 10000
    ensures var r := Run(Adaptive, data, size, deltaEstimate, st).state;
      r == st || r == Rebuilt(data, st)
  {
    var i := AdaptiveChoice(data, deltaEstimate, st);
    assert Run(Adaptive, data, size, deltaEstimate, st) == Apply(Algorithms[i], data, st);
    ApplyState(Algorithms[i], data, st);
  }

  /** Only the dictionary algorithm changes the dictionary state. */
  lemma ApplyState(algo: Algorithm, data: Value, st: DictState)
    ensures Apply(algo, data, st).state == if algo == DictionaryAlgorithm then Rebuilt(data, st) else st
  {
  }

  /** Every call keeps the dictionary numbered just below the counter, and
      the counter never goes down. */
  lemma RunKeepsNumbering(mode: Mode, data: Value, size: nat, deltaEstimate: Ratio, st: DictState)
    requires Numbered(st)
    ensures var r := Run(mode, data, size, deltaEstimate, st).state;
      Numbered(r) && r.refCounter >= st.refCounter &&
      r.minLength == st.minLength && r.minOccurrences == st.minOccurrences
  {
    RunState(mode, data, size, deltaEstimate, st);
    RebuiltNumbered(data, st);
  }

  /** Numbered states whose number ranges do not overlap share no token. */
  lemma NumberedDisjoint(a: DictState, b: DictState)
    requires Numbered(a) && Numbered(b)
    requires a.refCounter <= b.refCounter - |b.dictionary|
    ensures forall i, j :: 0 <= i < |a.dictionary| && 0 <= j < |b.dictionary| ==>
      a.dictionary[i].0 != b.dictionary[j].0
  {
    forall i, j | 0 <= i < |a.dictionary| && 0 <= j < |b.dictionary|
      ensures a.dictionary[i].0 != b.dictionary[j].0
    {
      RefInjective(a.refCounter - |a.dictionary| + i, b.refCounter - |b.dictionary| + j);
    }
  }

  /** Two calls that both run the dictionary algorithm never hand out the
      same reference token. */
  lemma ReferencesNeverReused(m1: Mode, m2: Mode, data1: Value, data2: Value, size1: nat, size2: nat,
                              delta1: Ratio, delta2: Ratio, st: DictState)
    requires UsesDictionary(m1) && UsesDictionary(m2)
    ensures var r1 := Run(m1, data1, size1, delta1, st).state;
      var r2 := Run(m2, data2, size2, delta2, r1).state;
      forall i, j :: 0 <= i < |r1.dictionary| && 0 <= j < |r2.dictionary| ==>
        r1.dictionary[i].0 != r2.dictionary[j].0
  {
    var r1 := Run(m1, data1, size1, delta1, st).state;
    RunState(m1, data1, size1, delta1, st);
    RunState(m2, data2, size2, delta2, r1);
    RebuiltNumbered(data1, st);
    RebuiltNumbered(data2, r1);
    NumberedDisjoint(r1, Rebuilt(data2, r1));
  }

  /** A new engine's dictionary state is numbered. */
  lemma FreshEngineNumbered()
    ensures Numbered(DictState(5, 3, [], 0))
  {
  }
}
