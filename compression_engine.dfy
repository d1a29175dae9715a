/** The compression engine: one of four modes chooses which algorithms run
    over a document, and one dictionary-compression instance is shared by
    all calls on an engine. */
module CompressionEngine {
  import opened Wrappers
  import opened Text
  import opened Values
  import opened Compression

  datatype Mode = Fast | Balanced | Ultra | Adaptive

  datatype Algorithm = DictionaryAlgorithm | DeltaAlgorithm | PatternAlgorithm

  /** The engine's algorithms, in order. */
  const Algorithms: seq<Algorithm> := [DictionaryAlgorithm, DeltaAlgorithm, PatternAlgorithm]

  /** The state of the shared dictionary-compression instance. */
  datatype DictState = DictState(minLength: int, minOccurrences: int, dictionary: Dict<string>, refCounter: nat)

  /** A compress result together with the dictionary instance's state after it. */
  datatype Step = Step(compressed: Value, metadata: Metadata, state: DictState)

  /** d.update(other): each entry of other is stored in order. */
  function Update<V>(d: Dict<V>, other: Dict<V>): Dict<V>
    decreases |other|
  {
    if other == [] then d else Update(Put(d, other[0].0, other[0].1), other[1..])
  }

  /** algo.compress(data) from the given dictionary state. */
  function Apply(algo: Algorithm, data: Value, st: DictState): Step {
    match algo
    case DictionaryAlgorithm =>
      var d := DictionaryOf(data, st.refCounter, st.minLength, st.minOccurrences);
      Step(Replace(data, Reverse(d)), [("dictionary", DictionaryMeta(d))],
           st.(dictionary := d, refCounter := st.refCounter + |d|))
    case DeltaAlgorithm =>
      Step(DeltaCompress(data).0, DeltaCompress(data).1, st)
    case PatternAlgorithm =>
      Step(PatternCompress(data).0, PatternCompress(data).1, st)
  }

  /** The algorithms applied in turn, each to the previous output, merging
      their metadata into meta. */
  function Chain(algos: seq<Algorithm>, data: Value, meta: Metadata, st: DictState): Step
    decreases |algos|
  {
    if algos == [] then Step(data, meta, st)
    else
      var s := Apply(algos[0], data, st);
      Chain(algos[1..], s.compressed, Update(meta, s.metadata), s.state)
  }

  /** The index of the first maximal estimate, as max(..., key=...) picks. */
  function Best(es: seq<Ratio>): (i: nat)
    requires es != []
    ensures i < |es|
    ensures forall j :: 0 <= j < |es| ==> !RatioLess(es[i], es[j])
    ensures forall j :: 0 <= j < i ==> RatioLess(es[j], es[i])
  {
    if |es| == 1 then 0
    else
      var init := es[..|es| - 1];
      var b := Best(init);
      var last := es[|es| - 1];
      if RatioLess(es[b], last) then
        assert forall j :: 0 <= j < |init| ==> es[j] == init[j];
        forall j | 0 <= j < |es| - 1 ensures RatioLess(es[j], last) && !RatioLess(last, es[j]) {
          RatioLeLess(es[j], es[b], last);
        }
        |es| - 1
      else
        b
  }

  /** b <= a and a < c give b < c. */
  lemma RatioLeLess(b: Ratio, a: Ratio, c: Ratio)
    requires !RatioLess(a, b) && RatioLess(a, c)
    ensures RatioLess(b, c) && !RatioLess(c, b)
  {
    MulLess(b.num * a.den, a.num * b.den + 1, c.den);
    MulLess(a.num * c.den, c.num * a.den, b.den);
    assert b.num * a.den * c.den <= a.num * b.den * c.den;
    assert a.num * c.den * b.den < c.num * a.den * b.den;
    assert (b.num * c.den) * a.den < (c.num * b.den) * a.den;
    MulLess(b.num * c.den, c.num * b.den, a.den);
  }

  /** The dictionary algorithm alone (_compress_fast). */
  function FastSpec(data: Value, st: DictState): Step {
    Apply(DictionaryAlgorithm, data, st)
  }

  /** The dictionary algorithm, its metadata merged into {} (_compress_balanced). */
  function BalancedSpec(data: Value, st: DictState): Step {
    var s := Apply(DictionaryAlgorithm, data, st);
    Step(s.compressed, Update([], s.metadata), s.state)
  }

  /** All algorithms chained (_compress_ultra). */
  function UltraSpec(data: Value, st: DictState): Step {
    Chain(Algorithms, data, [], st)
  }

  /** The estimates of the three algorithms, in order. */
  function Estimates(data: Value, deltaEstimate: Ratio, st: DictState): seq<Ratio> {
    [DictionaryEstimate(data, st.minLength, st.minOccurrences), deltaEstimate, PatternEstimate(data)]
  }

  /** _compress_adaptive, for a document whose JSON text has `size`
      characters and whose delta estimate is deltaEstimate. */
  function AdaptiveSpec(data: Value, size: nat, deltaEstimate: Ratio, st: DictState): Step {
    if size < 1000 then FastSpec(data, st)
    else if size < 10000 then BalancedSpec(data, st)
    else Apply(Algorithms[Best(Estimates(data, deltaEstimate, st))], data, st)
  }

  /** compress in the given mode. */
  function Run(mode: Mode, data: Value, size: nat, deltaEstimate: Ratio, st: DictState): Step {
    match mode
    case Fast => FastSpec(data, st)
    case Balanced => BalancedSpec(data, st)
    case Ultra => UltraSpec(data, st)
    case Adaptive => AdaptiveSpec(data, size, deltaEstimate, st)
  }

  class Engine {
    const mode: Mode
    /** The dictionary algorithm, shared by every call on this engine; the
        delta and pattern algorithms hold no state. */
    const dictionaryAlgorithm: DictionaryCompression

    constructor(mode: Mode)
      ensures this.mode == mode && fresh(dictionaryAlgorithm)
      ensures State() == DictState(5, 3, [], 0)
    {
      this.mode := mode;
      dictionaryAlgorithm := new DictionaryCompression(5, 3);
    }

    function State(): DictState
      reads dictionaryAlgorithm
    {
      DictState(dictionaryAlgorithm.minLength, dictionaryAlgorithm.minOccurrences,
                dictionaryAlgorithm.dictionary, dictionaryAlgorithm.refCounter)
    }

    /** compress: the mode's algorithms over data. The serialized size and
        the delta algorithm's estimate are given. */
    method Compress(data: Value, size: nat, deltaEstimate: Ratio) returns (compressed: Value, metadata: Metadata)
      modifies dictionaryAlgorithm
      ensures Step(compressed, metadata, State()) == Run(mode, data, size, deltaEstimate, old(State()))
    {
      match mode {
        case Fast => compressed, metadata := CompressFast(data);
        case Balanced => compressed, metadata := CompressBalanced(data);
        case Ultra => compressed, metadata := CompressUltra(data);
        case Adaptive => compressed, metadata := CompressAdaptive(data, size, deltaEstimate);
      }
    }

    method ApplyAlgorithm(algo: Algorithm, data: Value) returns (compressed: Value, metadata: Metadata)
      modifies dictionaryAlgorithm
      ensures Step(compressed, metadata, State()) == Apply(algo, data, old(State()))
    {
      match algo {
        case DictionaryAlgorithm => compressed, metadata := dictionaryAlgorithm.Compress(data);
        case DeltaAlgorithm => compressed, metadata := DeltaCompress(data).0, DeltaCompress(data).1;
        case PatternAlgorithm => compressed, metadata := PatternCompress(data).0, PatternCompress(data).1;
      }
    }

    method CompressFast(data: Value) returns (compressed: Value, metadata: Metadata)
      modifies dictionaryAlgorithm
      ensures Step(compressed, metadata, State()) == FastSpec(data, old(State()))
    {
      compressed, metadata := ApplyAlgorithm(Algorithms[0], data);
    }

    method CompressBalanced(data: Value) returns (compressed: Value, metadata: Metadata)
      modifies dictionaryAlgorithm
      ensures Step(compressed, metadata, State()) == BalancedSpec(data, old(State()))
    {
      compressed := data;
      var combined: Metadata := [];
      var meta;
      compressed, meta := ApplyAlgorithm(Algorithms[0], compressed);
      combined := Update(combined, meta);
      metadata := combined;
    }

    method CompressUltra(data: Value) returns (compressed: Value, metadata: Metadata)
      modifies dictionaryAlgorithm
      ensures Step(compressed, metadata, State()) == UltraSpec(data, old(State()))
    {
      compressed := data;
      var combined: Metadata := [];
      var i := 0;
      while i < |Algorithms|
        invariant 0 <= i <= |Algorithms|
        invariant Chain(Algorithms[i..], compressed, combined, State()) == UltraSpec(data, old(State()))
      {
        var meta;
        assert Algorithms[i..][1..] == Algorithms[i + 1..];
        compressed, meta := ApplyAlgorithm(Algorithms[i], compressed);
        combined := Update(combined, meta);
        i := i + 1;
      }
      metadata := combined;
    }

    method CompressAdaptive(data: Value, size: nat, deltaEstimate: Ratio) returns (compressed: Value, metadata: Metadata)
      modifies dictionaryAlgorithm
      ensures Step(compressed, metadata, State()) == AdaptiveSpec(data, size, deltaEstimate, old(State()))
    {
      if size < 1000 {
        compressed, metadata := CompressFast(data);
      } else if size < 10000 {
        compressed, metadata := CompressBalanced(data);
      } else {
        var dictionaryEstimate := dictionaryAlgorithm.EstimateSavings(data);
        var best := Best([dictionaryEstimate, deltaEstimate, PatternEstimate(data)]);
        compressed, metadata := ApplyAlgorithm(Algorithms[best], data);
      }
    }
  }
}
