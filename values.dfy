/** The Python values an ATON document carries (JSON-like data), the parts of
    Python's object protocol the core relies on (==, <, truthiness, str/repr,
    hashability), and dicts with string keys as insertion-ordered association
    lists. */
module Values {
  import opened Wrappers
  import opened Text

  /** A Python value: None, bool, int, float (as the exact decimal
      mantissa * 10^-exponent), str, list, or dict with string keys. */
  datatype Value =
    | Null
    | Bool(b: bool)
    | Int(i: int)
    | Float(mantissa: int, exponent: nat)
    | Str(s: string)
    | Arr(items: seq<Value>)
    | Obj(fields: seq<(string, Value)>)

  // ---------------------------------------------------------------------
  // Dicts with string keys

  /** A Python dict with string keys, in insertion order. */
  type Dict<V> = seq<(string, V)>
  type Record = Dict<Value>

  /** A table schema: the column names with their type tags, in order. */
  type Schema = seq<(string, string)>

  function Keys<V>(d: Dict<V>): (r: seq<string>)
    ensures |r| == |d|
    ensures forall i :: 0 <= i < |d| ==> r[i] == d[i].0
  {
    if d == [] then [] else [d[0].0] + Keys(d[1..])
  }

  /** The position of key k, if present. */
  function Find<V>(d: Dict<V>, k: string): (r: Option<nat>)
    ensures r.Some? ==> r.value < |d| && d[r.value].0 == k
    ensures r.Some? ==> forall j :: 0 <= j < r.value ==> d[j].0 != k
    ensures r.None? ==> forall j :: 0 <= j < |d| ==> d[j].0 != k
  {
    if d == [] then None
    else if d[0].0 == k then Some(0)
    else match Find(d[1..], k)
      case None => None
      case Some(i) => Some(i + 1)
  }

  /** k in d */
  predicate HasKey<V>(d: Dict<V>, k: string) {
    Find(d, k).Some?
  }

  /** d.get(k) */
  function Get<V>(d: Dict<V>, k: string): (r: Option<V>)
    ensures r.Some? <==> HasKey(d, k)
  {
    match Find(d, k)
    case None => None
    case Some(i) => Some(d[i].1)
  }

  /** d[k] = v: an existing key keeps its position, a new key goes last. */
  function Put<V>(d: Dict<V>, k: string, v: V): (r: Dict<V>)
    ensures Get(r, k) == Some(v)
    ensures forall k' :: k' != k ==> Get(r, k') == Get(d, k')
    ensures HasKey(d, k) ==> Keys(r) == Keys(d)
    ensures !HasKey(d, k) ==> Keys(r) == Keys(d) + [k]
  {
    match Find(d, k)
    case None =>
      FindAppendAll(d, (k, v));
      d + [(k, v)]
    case Some(i) =>
      FindUpdateAll(d, i, v);
      d[i := (k, v)]
  }

  lemma {:induction false} FindAppend<V>(d: Dict<V>, e: (string, V), k: string)
    ensures Find(d + [e], k) == if HasKey(d, k) then Find(d, k)
                                else if e.0 == k then Some(|d|) else None
    decreases |d|
  {
    if d != [] {
      assert (d + [e])[1..] == d[1..] + [e];
      FindAppend(d[1..], e, k);
    }
  }

  lemma FindAppendAll<V>(d: Dict<V>, e: (string, V))
    ensures forall k :: Find(d + [e], k) == if HasKey(d, k) then Find(d, k)
                                            else if e.0 == k then Some(|d|) else None
  {
    forall k {
      FindAppend(d, e, k);
    }
  }

  lemma FindUpdate<V>(d: Dict<V>, i: nat, v: V, k: string)
    requires i < |d|
    ensures Find(d[i := (d[i].0, v)], k) == Find(d, k)
  {
    var r := d[i := (d[i].0, v)];
    assert forall j :: 0 <= j < |d| ==> r[j].0 == d[j].0;
    match Find(d, k)
    case None =>
      assert Find(r, k).None?;
    case Some(j) =>
      assert Find(r, k) == Some(j);
  }

  lemma FindUpdateAll<V>(d: Dict<V>, i: nat, v: V)
    requires i < |d|
    ensures forall k :: Find(d[i := (d[i].0, v)], k) == Find(d, k)
  {
    forall k {
      FindUpdate(d, i, v, k);
    }
  }

  /** Every key occurs once (always true of a Python dict). */
  predicate DistinctKeys<V>(d: Dict<V>) {
    forall i, j :: 0 <= i < j < |d| ==> d[i].0 != d[j].0
  }

  /** The strings in order of first occurrence, each once. */
  function Distinct(fs: seq<string>): (d: seq<string>)
    ensures forall f :: f in d <==> f in fs
    ensures forall i, j :: 0 <= i < j < |d| ==> d[i] != d[j]
  {
    if fs == [] then []
    else
      var init := Distinct(fs[..|fs| - 1]);
      var f := fs[|fs| - 1];
      assert fs == fs[..|fs| - 1] + [f];
      if f in init then init else init + [f]
  }

  /** The dict's meaning as a finite map. */
  function AsMap<V>(d: Dict<V>): (m: map<string, V>)
    ensures forall k :: k in m <==> HasKey(d, k)
    ensures forall k :: k in m ==> Get(d, k) == Some(m[k])
  {
    if d == [] then map[]
    else
      var rest := AsMap(d[1..]);
      assert forall k :: k != d[0].0 ==> Find(d, k) == (match Find(d[1..], k) case None => None case Some(i) => Some(i + 1));
      rest[d[0].0 := d[0].1]
  }

  // ---------------------------------------------------------------------
  // Numbers: bool, int and float compare by value

  predicate IsNumber(v: Value) {
    v.Bool? || v.Int? || v.Float?
  }

  /** The exact value of a number, as (mantissa, exponent). */
  function Num(v: Value): (int, nat)
    requires IsNumber(v)
  {
    match v
    case Bool(b) => (if b then 1 else 0, 0)
    case Int(i) => (i, 0)
    case Float(m, e) => (m, e)
  }

  /** x < y on exact decimals (cross-multiplied). */
  predicate NumLess(x: (int, nat), y: (int, nat)) {
    x.0 * Pow10(y.1) < y.0 * Pow10(x.1)
  }

  predicate NumEq(x: (int, nat), y: (int, nat)) {
    x.0 * Pow10(y.1) == y.0 * Pow10(x.1)
  }

  lemma MulLess(a: int, b: int, k: int)
    requires k > 0
    ensures a < b <==> a * k < b * k
  {
    if a < b {
      assert (b - a) * k > 0;
    } else {
      assert (a - b) * k >= 0;
    }
  }

  lemma MulEq(a: int, b: int, k: int)
    requires k > 0
    ensures a == b <==> a * k == b * k
  {
    MulLess(a, b, k);
    MulLess(b, a, k);
  }

  lemma NumLessTransitive(x: (int, nat), y: (int, nat), z: (int, nat))
    requires NumLess(x, y) && NumLess(y, z)
    ensures NumLess(x, z)
  {
    var px, py, pz := Pow10(x.1), Pow10(y.1), Pow10(z.1);
    MulLess(x.0 * py, y.0 * px, pz);
    MulLess(y.0 * pz, z.0 * py, px);
    assert x.0 * py * pz < y.0 * px * pz;
    assert y.0 * pz * px < z.0 * py * px;
    assert x.0 * pz * py < z.0 * px * py;
    MulLess(x.0 * pz, z.0 * px, py);
  }

  lemma NumEqTransitive(x: (int, nat), y: (int, nat), z: (int, nat))
    requires NumEq(x, y) && NumEq(y, z)
    ensures NumEq(x, z)
  {
    var px, py, pz := Pow10(x.1), Pow10(y.1), Pow10(z.1);
    MulEq(x.0 * py, y.0 * px, pz);
    MulEq(y.0 * pz, z.0 * py, px);
    assert x.0 * py * pz == y.0 * px * pz;
    assert y.0 * pz * px == z.0 * py * px;
    assert x.0 * pz * py == z.0 * px * py;
    MulEq(x.0 * pz, z.0 * px, py);
  }

  lemma NumLessEqTransitive(x: (int, nat), y: (int, nat), z: (int, nat))
    requires NumLess(x, y) && NumEq(y, z)
    ensures NumLess(x, z)
  {
    var px, py, pz := Pow10(x.1), Pow10(y.1), Pow10(z.1);
    MulLess(x.0 * py, y.0 * px, pz);
    MulEq(y.0 * pz, z.0 * py, px);
    assert x.0 * py * pz < y.0 * px * pz;
    assert y.0 * pz * px == z.0 * py * px;
    assert x.0 * pz * py < z.0 * px * py;
    MulLess(x.0 * pz, z.0 * px, py);
  }

  lemma NumEqLessTransitive(x: (int, nat), y: (int, nat), z: (int, nat))
    requires NumEq(x, y) && NumLess(y, z)
    ensures NumLess(x, z)
  {
    var px, py, pz := Pow10(x.1), Pow10(y.1), Pow10(z.1);
    MulEq(x.0 * py, y.0 * px, pz);
    MulLess(y.0 * pz, z.0 * py, px);
    assert x.0 * py * pz == y.0 * px * pz;
    assert y.0 * pz * px < z.0 * py * px;
    assert x.0 * pz * py < z.0 * px * py;
    MulLess(x.0 * pz, z.0 * px, py);
  }

  /** On one exponent the order is the order of the mantissas. */
  lemma NumSameExponent(x: (int, nat), y: (int, nat))
    requires x.1 == y.1
    ensures NumLess(x, y) <==> x.0 < y.0
    ensures NumEq(x, y) <==> x.0 == y.0
  {
    MulLess(x.0, y.0, Pow10(x.1));
    MulEq(x.0, y.0, Pow10(x.1));
  }

  // ---------------------------------------------------------------------
  // Python ==

  /** Python's == on values: numbers by value across bool/int/float, lists
      element-wise, dicts by key set and values, everything else by kind.
      Dicts are compared from both sides; for dicts without repeated keys
      (every Python dict) this is the same as equal sizes plus every key of
      the first mapping to an equal value in the second. */
  predicate PyEq(a: Value, b: Value)
    decreases a
  {
    if IsNumber(a) && IsNumber(b) then NumEq(Num(a), Num(b))
    else match a
      case Null => b.Null?
      case Str(s) => b.Str? && b.s == s
      case Arr(xs) =>
        b.Arr? && |xs| == |b.items| &&
        forall i :: 0 <= i < |xs| ==> PyEq(xs[i], b.items[i])
      case Obj(fa) =>
        b.Obj? && |fa| == |b.fields| &&
        (forall i :: 0 <= i < |fa| ==>
          HasKey(b.fields, fa[i].0) && PyEq(fa[i].1, Get(b.fields, fa[i].0).value)) &&
        (forall j :: 0 <= j < |b.fields| ==>
          HasKey(fa, b.fields[j].0) && PyEq(fa[Find(fa, b.fields[j].0).value].1, b.fields[j].1))
      case _ => false
  }

  /** == is symmetric. */
  lemma {:induction false} PyEqSymmetric(a: Value, b: Value)
    requires PyEq(a, b)
    ensures PyEq(b, a)
    decreases a
  {
    if IsNumber(a) && IsNumber(b) {
    } else {
      match a
      case Arr(xs) =>
        forall i | 0 <= i < |xs|
          ensures PyEq(b.items[i], xs[i])
        {
          PyEqSymmetric(xs[i], b.items[i]);
        }
      case Obj(fa) =>
        var fb := b.fields;
        forall j | 0 <= j < |fb|
          ensures HasKey(fa, fb[j].0) && PyEq(fb[j].1, Get(fa, fb[j].0).value)
        {
          PyEqSymmetric(fa[Find(fa, fb[j].0).value].1, fb[j].1);
        }
        forall i | 0 <= i < |fa|
          ensures HasKey(fb, fa[i].0) && PyEq(fb[Find(fb, fa[i].0).value].1, fa[i].1)
        {
          PyEqSymmetric(fa[i].1, Get(fb, fa[i].0).value);
        }
      case _ =>
    }
  }

  lemma PyEqSymmetricIff(a: Value, b: Value)
    ensures PyEq(a, b) <==> PyEq(b, a)
  {
    if PyEq(a, b) {
      PyEqSymmetric(a, b);
    }
    if PyEq(b, a) {
      PyEqSymmetric(b, a);
    }
  }

  /** Floats carry no trailing zero digits, at every depth. */
  predicate WellFormed(v: Value)
    decreases v
  {
    match v
    case Float(m, e) => IsNormalized(m, e)
    case Arr(xs) => forall i :: 0 <= i < |xs| ==> WellFormed(xs[i])
    case Obj(fs) => forall i :: 0 <= i < |fs| ==> WellFormed(fs[i].1)
    case _ => true
  }

  /** Scalars of one kind: == is identity (floats written without trailing zeros). */
  predicate IsScalar(v: Value) {
    !v.Arr? && !v.Obj?
  }

  function Kind(v: Value): nat {
    match v
    case Null => 0
    case Bool(_) => 1
    case Int(_) => 2
    case Float(_, _) => 3
    case Str(_) => 4
    case Arr(_) => 5
    case Obj(_) => 6
  }

  lemma SameKindScalarEq(a: Value, b: Value)
    requires IsScalar(a) && Kind(a) == Kind(b) && WellFormed(a) && WellFormed(b)
    ensures PyEq(a, b) <==> a == b
  {
    match a
    case Bool(x) =>
      NumSameExponent(Num(a), Num(b));
    case Int(x) =>
      NumSameExponent(Num(a), Num(b));
    case Float(m, e) =>
      if PyEq(a, b) {
        FloatEqIdentity(m, e, b.mantissa, b.exponent);
      }
    case _ =>
  }

  /** Two normalized decimals with the same value are the same pair. */
  lemma FloatEqIdentity(m: int, e: nat, n: int, f: nat)
    requires IsNormalized(m, e) && IsNormalized(n, f)
    requires NumEq((m, e), (n, f))
    ensures m == n && e == f
  {
    if e > f {
      FactorTen(m, e, n, f);
      assert false;
    } else if f > e {
      FactorTen(n, f, m, e);
      assert false;
    } else {
      NumSameExponent((m, e), (n, f));
    }
  }

  /** m * 10^-e == n * 10^-f with e > f: m ends in a zero digit. */
  lemma FactorTen(m: int, e: nat, n: int, f: nat)
    requires e > f && NumEq((m, e), (n, f))
    ensures m % 10 == 0
  {
    var k := e - f;
    Pow10Add(k, f);
    var pk, pf := Pow10(k), Pow10(f);
    assert m * pf == n * (pk * pf);
    assert n * (pk * pf) == (n * pk) * pf;
    MulEq(m, n * pk, pf);
    assert pk == 10 * Pow10(k - 1);
    assert m == (n * Pow10(k - 1)) * 10;
  }

  // ---------------------------------------------------------------------
  // Python <, <=, >, >=

  datatype Ordering = Lt | Le | Gt | Ge

  /** a op b, or None where Python raises a TypeError (None operands, mixed
      kinds, dicts). */
  function Compare(op: Ordering, a: Value, b: Value): (r: Option<bool>)
    ensures (a.Null? || b.Null? || a.Obj? || b.Obj?) ==> r.None?
    ensures IsNumber(a) && IsNumber(b) ==> r.Some?
    ensures a.Str? && b.Str? ==> r.Some?
    decreases a, 1
  {
    if IsNumber(a) && IsNumber(b) then
      var x, y := Num(a), Num(b);
      Some(match op
        case Lt => NumLess(x, y)
        case Le => NumLess(x, y) || NumEq(x, y)
        case Gt => NumLess(y, x)
        case Ge => NumLess(y, x) || NumEq(x, y))
    else if a.Str? && b.Str? then
      Some(match op
        case Lt => StrLess(a.s, b.s)
        case Le => StrLess(a.s, b.s) || a.s == b.s
        case Gt => StrLess(b.s, a.s)
        case Ge => StrLess(b.s, a.s) || a.s == b.s)
    else if a.Arr? && b.Arr? then CompareItems(op, a, a.items, b.items, 0)
    else None
  }

  /** List comparison from index i: the first pair of elements that are not
      == decides with op; otherwise the lengths do. */
  function CompareItems(op: Ordering, ghost whole: Value, xs: seq<Value>, ys: seq<Value>, i: nat): Option<bool>
    requires whole.Arr? && whole.items == xs && i <= |xs|
    decreases whole, 0, |xs| - i
  {
    if i < |xs| && i < |ys| then
      if PyEq(xs[i], ys[i]) then CompareItems(op, whole, xs, ys, i + 1)
      else Compare(op, xs[i], ys[i])
    else
      Some(match op
        case Lt => |xs| - i < |ys| - i
        case Le => |xs| - i <= |ys| - i
        case Gt => |xs| - i > |ys| - i
        case Ge => |xs| - i >= |ys| - i)
  }

  /** The comparison with its operands swapped: a < b is b > a. */
  function Mirror(op: Ordering): Ordering {
    match op
    case Lt => Gt
    case Le => Ge
    case Gt => Lt
    case Ge => Le
  }

  function Negated(r: Option<bool>): Option<bool> {
    if r.Some? then Some(!r.value) else None
  }

  /** a op b == b op' a with op' the mirrored comparison. */
  lemma {:induction false} CompareMirror(op: Ordering, a: Value, b: Value)
    ensures Compare(op, a, b) == Compare(Mirror(op), b, a)
    decreases a, 1
  {
    if a.Arr? && b.Arr? && !(IsNumber(a) && IsNumber(b)) {
      CompareItemsMirror(op, a, b, 0);
    }
  }

  lemma {:induction false} CompareItemsMirror(op: Ordering, a: Value, b: Value, i: nat)
    requires a.Arr? && b.Arr? && i <= |a.items| && i <= |b.items|
    ensures CompareItems(op, a, a.items, b.items, i) == CompareItems(Mirror(op), b, b.items, a.items, i)
    decreases a, 0, |a.items| - i
  {
    var xs, ys := a.items, b.items;
    if i < |xs| && i < |ys| {
      PyEqSymmetricIff(xs[i], ys[i]);
      if PyEq(xs[i], ys[i]) {
        CompareItemsMirror(op, a, b, i + 1);
      } else {
        CompareMirror(op, xs[i], ys[i]);
      }
    }
  }

  /** a <= b is not (a > b), and a >= b is not (a < b), wherever they are defined. */
  lemma {:induction false} CompareComplement(a: Value, b: Value)
    ensures Compare(Le, a, b) == Negated(Compare(Gt, a, b))
    ensures Compare(Ge, a, b) == Negated(Compare(Lt, a, b))
    decreases a, 1
  {
    if IsNumber(a) && IsNumber(b) {
    } else if a.Str? && b.Str? {
      if a.s == b.s {
        StrLessIrreflexive(a.s);
      } else {
        StrLessTotal(a.s, b.s);
        if StrLess(a.s, b.s) {
          StrLessAsymmetric(a.s, b.s);
        }
      }
    } else if a.Arr? && b.Arr? {
      CompareItemsComplement(a, b, 0);
    }
  }

  lemma {:induction false} CompareItemsComplement(a: Value, b: Value, i: nat)
    requires a.Arr? && b.Arr? && i <= |a.items|
    ensures CompareItems(Le, a, a.items, b.items, i) == Negated(CompareItems(Gt, a, a.items, b.items, i))
    ensures CompareItems(Ge, a, a.items, b.items, i) == Negated(CompareItems(Lt, a, a.items, b.items, i))
    decreases a, 0, |a.items| - i
  {
    var xs, ys := a.items, b.items;
    if i < |xs| && i < |ys| {
      if PyEq(xs[i], ys[i]) {
        CompareItemsComplement(a, b, i + 1);
      } else {
        CompareComplement(xs[i], ys[i]);
      }
    }
  }

  /** a < b and a > b never both hold. */
  lemma {:induction false} LessExcludesGreater(a: Value, b: Value)
    requires Compare(Lt, a, b) == Some(true)
    ensures Compare(Gt, a, b) == Some(false)
    decreases a, 1
  {
    if IsNumber(a) && IsNumber(b) {
    } else if a.Str? && b.Str? {
      StrLessAsymmetric(a.s, b.s);
    } else if a.Arr? && b.Arr? {
      ItemsLessExcludesGreater(a, b, 0);
    }
  }

  lemma {:induction false} ItemsLessExcludesGreater(a: Value, b: Value, i: nat)
    requires a.Arr? && b.Arr? && i <= |a.items|
    requires CompareItems(Lt, a, a.items, b.items, i) == Some(true)
    ensures CompareItems(Gt, a, a.items, b.items, i) == Some(false)
    decreases a, 0, |a.items| - i
  {
    var xs, ys := a.items, b.items;
    if i < |xs| && i < |ys| {
      if PyEq(xs[i], ys[i]) {
        ItemsLessExcludesGreater(a, b, i + 1);
      } else {
        LessExcludesGreater(xs[i], ys[i]);
      }
    }
  }

  /** Whether a comparison raises does not depend on the operator. */
  lemma {:induction false} CompareDefined(op: Ordering, a: Value, b: Value)
    ensures Compare(op, a, b).Some? <==> Compare(Lt, a, b).Some?
    decreases a, 1
  {
    if a.Arr? && b.Arr? && !(IsNumber(a) && IsNumber(b)) {
      CompareItemsDefined(op, a, b, 0);
    }
  }

  lemma {:induction false} CompareItemsDefined(op: Ordering, a: Value, b: Value, i: nat)
    requires a.Arr? && b.Arr? && i <= |a.items|
    ensures CompareItems(op, a, a.items, b.items, i).Some? <==> CompareItems(Lt, a, a.items, b.items, i).Some?
    decreases a, 0, |a.items| - i
  {
    var xs, ys := a.items, b.items;
    if i < |xs| && i < |ys| {
      if PyEq(xs[i], ys[i]) {
        CompareItemsDefined(op, a, b, i + 1);
      } else {
        CompareDefined(op, xs[i], ys[i]);
      }
    }
  }

  /** a < b makes b < a false. */
  lemma LessAsymmetric(a: Value, b: Value)
    requires Compare(Lt, a, b) == Some(true)
    ensures Compare(Lt, b, a) == Some(false)
  {
    CompareMirror(Lt, b, a);
    LessExcludesGreater(a, b);
  }

  // ---------------------------------------------------------------------
  // Truthiness, hashability, type tags

  /** bool(v) */
  predicate Truthy(v: Value) {
    match v
    case Null => false
    case Bool(b) => b
    case Int(i) => i != 0
    case Float(m, _) => m != 0
    case Str(s) => s != []
    case Arr(xs) => xs != []
    case Obj(fs) => fs != []
  }

  /** Values Python can hash (Counter keys, `in` on a dict); lists and dicts cannot. */
  predicate IsHashable(v: Value) {
    !v.Arr? && !v.Obj?
  }

  /** The ATON type tag of a value (bool is tested before int). */
  function TypeTag(v: Value): (t: string)
    ensures t in {"bool", "int", "float", "str", "null", "array", "object"}
    ensures v.Bool? <==> t == "bool"
    ensures v.Str? <==> t == "str"
  {
    match v
    case Bool(_) => "bool"
    case Int(_) => "int"
    case Float(_, _) => "float"
    case Str(_) => "str"
    case Null => "null"
    case Arr(_) => "array"
    case Obj(_) => "object"
  }

  // ---------------------------------------------------------------------
  // str() and repr()

  /** str(v) */
  function PyStr(v: Value): string
    decreases v, 1
  {
    match v
    case Str(s) => s
    case _ => Repr(v)
  }

  /** The quote repr puts around a string: double quotes when the string
      holds a single quote and no double quote, single quotes otherwise. */
  function ReprQuote(s: string): (q: char)
    ensures q == '\'' || q == '"'
  {
    if '\'' in s && '"' !in s then '"' else '\''
  }

  /** Characters repr shows as \xNN: the ASCII controls other than tab,
      newline and carriage return, DEL, the C1 controls, the no-break
      space and the soft hyphen. */
  predicate HexEscaped(c: char) {
    (c as int < 32 && c != '\t' && c != '\n' && c != '\r') || (127 <= c as int <= 160) || c as int == 173
  }

  function HexDigit(n: nat): char
    requires n < 16
  {
    if n < 10 then DigitChar(n) else ('a' as int + n - 10) as char
  }

  /** One character as repr writes it inside quotes q. */
  function ReprChar(c: char, q: char): string {
    if c == q || c == '\\' then ['\\', c]
    else if c == '\t' then "\\t"
    else if c == '\n' then "\\n"
    else if c == '\r' then "\\r"
    else if HexEscaped(c) then "\\x" + [HexDigit(c as int / 16), HexDigit(c as int % 16)]
    else [c]
  }

  function ReprChars(s: string, q: char): string
    decreases |s|
  {
    if s == [] then [] else ReprChar(s[0], q) + ReprChars(s[1..], q)
  }

  /** repr(s) of a string. */
  function StrRepr(s: string): string {
    [ReprQuote(s)] + ReprChars(s, ReprQuote(s)) + [ReprQuote(s)]
  }

  predicate IsHexDigit(c: char) {
    IsDigit(c) || 'a' <= c <= 'f'
  }

  function HexValue(c: char): nat
    requires IsHexDigit(c)
  {
    if IsDigit(c) then DigitOf(c) else c as int - 'a' as int + 10
  }

  /** The text between repr's quotes q read back: the escapes repr writes
      are undone and a bare quote or an unknown escape is refused. */
  function ReadReprChars(t: string, q: char): Option<string>
    decreases |t|
  {
    if t == [] then Some([])
    else if t[0] == q then None
    else if t[0] != '\\' then Cons(t[0], ReadReprChars(t[1..], q))
    else if |t| < 2 then None
    else if t[1] == q || t[1] == '\\' then Cons(t[1], ReadReprChars(t[2..], q))
    else if t[1] == 't' then Cons('\t', ReadReprChars(t[2..], q))
    else if t[1] == 'n' then Cons('\n', ReadReprChars(t[2..], q))
    else if t[1] == 'r' then Cons('\r', ReadReprChars(t[2..], q))
    else if t[1] == 'x' && |t| >= 4 && IsHexDigit(t[2]) && IsHexDigit(t[3]) then
      Cons((16 * HexValue(t[2]) + HexValue(t[3])) as char, ReadReprChars(t[4..], q))
    else None
  }

  function Cons(c: char, r: Option<string>): Option<string> {
    if r.Some? then Some([c] + r.value) else None
  }

  /** A string literal as repr writes it, read back. */
  function ReadRepr(t: string): Option<string> {
    if |t| >= 2 && (t[0] == '\'' || t[0] == '"') && t[|t| - 1] == t[0] then ReadReprChars(t[1..|t| - 1], t[0])
    else None
  }

  lemma HexRoundTrip(n: nat)
    requires n < 16
    ensures IsHexDigit(HexDigit(n)) && HexValue(HexDigit(n)) == n
  {
  }

  /** Reading back one written character leaves the rest to read. */
  lemma ReadReprChar(c: char, q: char, rest: string)
    requires q == '\'' || q == '"'
    ensures ReadReprChars(ReprChar(c, q) + rest, q) == Cons(c, ReadReprChars(rest, q))
  {
    if c == q || c == '\\' || c == '\t' || c == '\n' || c == '\r' {
      ReadShortEscape(c, q, rest);
    } else if HexEscaped(c) {
      ReadHexEscape(c, q, rest);
    } else {
      var t := ReprChar(c, q) + rest;
      assert t[1..] == rest;
    }
  }

  lemma ReadShortEscape(c: char, q: char, rest: string)
    requires q == '\'' || q == '"'
    requires c == q || c == '\\' || c == '\t' || c == '\n' || c == '\r'
    ensures ReadReprChars(ReprChar(c, q) + rest, q) == Cons(c, ReadReprChars(rest, q))
  {
    var t := ReprChar(c, q) + rest;
    assert |ReprChar(c, q)| == 2 && t[0] == '\\';
    assert t[2..] == rest;
  }

  lemma ReadHexEscape(c: char, q: char, rest: string)
    requires q == '\'' || q == '"'
    requires c != q && c != '\\' && c != '\t' && c != '\n' && c != '\r' && HexEscaped(c)
    ensures ReadReprChars(ReprChar(c, q) + rest, q) == Cons(c, ReadReprChars(rest, q))
  {
    var hi, lo := c as int / 16, c as int % 16;
    HexRoundTrip(hi);
    HexRoundTrip(lo);
    var t := ReprChar(c, q) + rest;
    assert ReprChar(c, q) == "\\x" + [HexDigit(hi), HexDigit(lo)];
    assert t[0] == '\\' && t[1] == 'x' && t[2] == HexDigit(hi) && t[3] == HexDigit(lo) && t[4..] == rest;
    assert (16 * hi + lo) as char == c;
  }

  /** What repr writes between the quotes reads back as the string. */
  lemma {:induction false} ReprCharsRoundTrip(s: string, q: char)
    requires q == '\'' || q == '"'
    ensures ReadReprChars(ReprChars(s, q), q) == Some(s)
    decreases |s|
  {
    if s != [] {
      ReprCharsRoundTrip(s[1..], q);
      ReadReprChar(s[0], q, ReprChars(s[1..], q));
      assert [s[0]] + s[1..] == s;
    }
  }

  /** repr of a string reads back as the string. */
  lemma StrReprRoundTrip(s: string)
    ensures ReadRepr(StrRepr(s)) == Some(s)
  {
    var q := ReprQuote(s);
    var t := StrRepr(s);
    ReprCharsRoundTrip(s, q);
    assert t[1..|t| - 1] == ReprChars(s, q);
  }

  /** A string with no quote, backslash or escaped character is shown
      as itself between single quotes. */
  lemma {:induction false} PlainReprChars(s: string, q: char)
    requires forall k :: 0 <= k < |s| ==> PlainReprChar(s[k])
    requires q == '\'' || q == '"'
    ensures ReprChars(s, q) == s
    decreases |s|
  {
    if s != [] {
      PlainReprChars(s[1..], q);
      assert [s[0]] + s[1..] == s;
    }
  }

  predicate PlainReprChar(c: char) {
    c != '\'' && c != '"' && c != '\\' && c != '\t' && c != '\n' && c != '\r' && !HexEscaped(c)
  }

  lemma PlainRepr(s: string)
    requires forall k :: 0 <= k < |s| ==> PlainReprChar(s[k])
    ensures StrRepr(s) == "'" + s + "'"
  {
    assert '\'' !in s;
    PlainReprChars(s, '\'');
  }

  /** repr(v) */
  function Repr(v: Value): string
    decreases v, 0
  {
    match v
    case Null => "None"
    case Bool(b) => if b then "True" else "False"
    case Int(i) => IntToString(i)
    case Float(m, e) =>
      var n := Normalize(m, e);
      DecimalToString(n.0, n.1)
    case Str(s) => StrRepr(s)
    case Arr(xs) => "[" + Join(", ", seq(|xs|, i requires 0 <= i < |xs| => Repr(xs[i]))) + "]"
    case Obj(fs) =>
      "{" + Join(", ", seq(|fs|, i requires 0 <= i < |fs| => StrRepr(fs[i].0) + ": " + Repr(fs[i].1))) + "}"
  }
}
