/** The query AST of the ATON query language and its evaluation against one
    record: QueryCondition.evaluate, QueryExpression.evaluate and
    _eval_condition.  Python exceptions raised while comparing become
    Failure results. */
module QueryAst {
  import opened Wrappers
  import opened Text
  import opened Values
  import opened Errors

  /** field op value (value2 is the upper bound of BETWEEN, None otherwise). */
  datatype Condition = Condition(field: string, op: string, value: Value, value2: Value)

  /** An operand of an expression: a condition, a nested expression, or any
      other object (which evaluates to false). */
  datatype Node =
    | Leaf(cond: Condition)
    | Expr(op: string, operands: seq<Node>)
    | Opaque

  /** The direction of ORDER BY. */
  datatype SortOrder = Asc | Desc

  /** A parsed query: the table, then each optional clause (ASC, offset 0 and
      no limit when absent). */
  datatype ParsedQuery = ParsedQuery(
    table: string,
    selectFields: Option<seq<string>>,
    whereExpression: Option<Node>,
    orderBy: Option<string>,
    orderDirection: SortOrder,
    limit: Option<int>,
    offset: int)

  // ---------------------------------------------------------------------
  // LIKE

  /** One element of a LIKE pattern once `%` -> `.*` and `_` -> `.`. */
  datatype PatElem = Star | AnyChar | Lit(c: char)

  /** The regular expression a LIKE pattern becomes: `%` is `.*`, `_` and `.`
      are `.`, every other character stands for itself. */
  function CompilePattern(p: string): (r: seq<PatElem>)
    ensures |r| == |p|
    ensures forall i :: 0 <= i < |p| ==>
      r[i] == (if p[i] == '%' then Star else if p[i] == '_' || p[i] == '.' then AnyChar else Lit(p[i]))
  {
    if p == [] then []
    else [if p[0] == '%' then Star else if p[0] == '_' || p[0] == '.' then AnyChar else Lit(p[0])]
         + CompilePattern(p[1..])
  }

  /** One character of the subject against one non-star element: `.` never
      matches a newline; literals compare under ASCII case folding. */
  predicate ElemMatches(e: PatElem, c: char) {
    match e
    case Star => false
    case AnyChar => c != '\n'
    case Lit(l) => SameFolded(l, c)
  }

  /** The regex matches some prefix of s (re.match behaviour). */
  predicate MatchHere(pat: seq<PatElem>, s: string)
    decreases |pat|, |s|
  {
    if pat == [] then true
    else if pat[0] == Star then
      MatchHere(pat[1..], s) || (s != [] && s[0] != '\n' && MatchHere(pat, s[1..]))
    else s != [] && ElemMatches(pat[0], s[0]) && MatchHere(pat[1..], s[1..])
  }

  /** re.search: a match starting at some position of s. */
  predicate Search(pat: seq<PatElem>, s: string)
    decreases |s|
  {
    MatchHere(pat, s) || (s != [] && Search(pat, s[1..]))
  }

  /** Reference semantics: pat matches all of t.  A star takes any run of
      non-newline characters. */
  ghost predicate Matches(pat: seq<PatElem>, t: string)
    decreases |pat|
  {
    if pat == [] then t == []
    else if pat[0] == Star then
      exists k :: 0 <= k <= |t| && NoNewline(t[..k]) && Matches(pat[1..], t[k..])
    else t != [] && ElemMatches(pat[0], t[0]) && Matches(pat[1..], t[1..])
  }

  predicate NoNewline(t: string) {
    forall i :: 0 <= i < |t| ==> t[i] != '\n'
  }

  // ---------------------------------------------------------------------
  // Python `in`

  /** needle occurs as a contiguous part of hay. */
  predicate IsInfix(needle: string, hay: string)
    decreases |hay|
  {
    StartsWith(hay, needle) || (hay != [] && IsInfix(needle, hay[1..]))
  }

  /** x in container, or the TypeError Python raises. */
  function PyIn(x: Value, container: Value): (r: Result<bool, Error>)
    ensures container.Arr? ==> r == Success(exists i :: 0 <= i < |container.items| && PyEq(x, container.items[i]))
  {
    match container
    case Arr(xs) => Success(exists i :: 0 <= i < |xs| && PyEq(x, xs[i]))
    case Str(s) => if x.Str? then Success(IsInfix(x.s, s)) else Failure(TypeError)
    case Obj(fs) =>
      if !IsHashable(x) then Failure(TypeError)
      else Success(x.Str? && HasKey(fs, x.s))
    case _ => Failure(TypeError)
  }

  // ---------------------------------------------------------------------
  // QueryCondition.evaluate

  function OrderingOf(op: string): Option<Ordering> {
    if op == "<" then Some(Lt)
    else if op == ">" then Some(Gt)
    else if op == "<=" then Some(Le)
    else if op == ">=" then Some(Ge)
    else None
  }

  function FromCompare(r: Option<bool>): Result<bool, Error> {
    match r
    case None => Failure(TypeError)
    case Some(b) => Success(b)
  }

  /** The condition on one record. */
  function EvalCondition(c: Condition, record: Record): (r: Result<bool, Error>)
  {
    match Get(record, c.field)
    case None => Success(false)
    case Some(rv) =>
      if c.op == "=" then Success(PyEq(rv, c.value))
      else if c.op == "!=" then Success(!PyEq(rv, c.value))
      else if OrderingOf(c.op).Some? then
        if rv.Null? then Success(false) else FromCompare(Compare(OrderingOf(c.op).value, rv, c.value))
      else if c.op == "LIKE" then
        if !rv.Str? then Success(false)
        else Success(Search(CompilePattern(PyStr(c.value)), rv.s))
      else if c.op == "IN" then
        if Truthy(c.value) then PyIn(rv, c.value) else Success(false)
      else if c.op == "NOT IN" then
        if Truthy(c.value) then
          match PyIn(rv, c.value)
          case Failure(e) => Failure(e)
          case Success(b) => Success(!b)
        else Success(true)
      else if c.op == "BETWEEN" then
        if rv.Null? then Success(false)
        else
          match Compare(Le, c.value, rv)
          case None => Failure(TypeError)
          case Some(lowOk) => if !lowOk then Success(false) else FromCompare(Compare(Le, rv, c.value2))
      else Success(false)
  }

  // ---------------------------------------------------------------------
  // QueryExpression.evaluate and _eval_condition

  /** An operand: an expression or condition evaluates, anything else is false. */
  function EvalNode(n: Node, record: Record): Result<bool, Error>
    decreases n, 1
  {
    match n
    case Leaf(c) => EvalCondition(c, record)
    case Opaque => Success(false)
    case Expr(op, xs) =>
      if op == "AND" then EvalAll(n, 0, record)
      else if op == "OR" then EvalAny(n, 0, record)
      else if xs == [] then Failure(IndexError)
      else if op == "NOT" then
        match EvalNode(xs[0], record)
        case Failure(e) => Failure(e)
        case Success(b) => Success(!b)
      else EvalNode(xs[0], record)
  }

  /** all(...) over the operands from index i, stopping at the first false. */
  function EvalAll(whole: Node, i: nat, record: Record): Result<bool, Error>
    requires whole.Expr? && i <= |whole.operands|
    decreases whole, 0, |whole.operands| - i
  {
    if i == |whole.operands| then Success(true)
    else
      match EvalNode(whole.operands[i], record)
      case Failure(e) => Failure(e)
      case Success(b) => if !b then Success(false) else EvalAll(whole, i + 1, record)
  }

  /** any(...) over the operands from index i, stopping at the first true. */
  function EvalAny(whole: Node, i: nat, record: Record): Result<bool, Error>
    requires whole.Expr? && i <= |whole.operands|
    decreases whole, 0, |whole.operands| - i
  {
    if i == |whole.operands| then Success(false)
    else
      match EvalNode(whole.operands[i], record)
      case Failure(e) => Failure(e)
      case Success(b) => if b then Success(true) else EvalAny(whole, i + 1, record)
  }

  // ---------------------------------------------------------------------
  // Facts about conditions

  /** A condition on a field the record lacks is false, whatever the operator. */
  lemma MissingFieldIsFalse(c: Condition, record: Record)
    requires !HasKey(record, c.field)
    ensures EvalCondition(c, record) == Success(false)
  {
  }

  /** <, >, <= and >= are false on a None record value. */
  lemma OrderingOnNullIsFalse(c: Condition, record: Record)
    requires c.op in {"<", ">", "<=", ">="}
    requires Get(record, c.field) == Some(Null)
    ensures EvalCondition(c, record) == Success(false)
  {
  }

  /** On numbers, <, >, <= and >= compare values across bool, int and float. */
  lemma OrderingOnNumbers(c: Condition, record: Record, rv: Value)
    requires Get(record, c.field) == Some(rv)
    requires IsNumber(rv) && IsNumber(c.value)
    ensures c.op == "<" ==> EvalCondition(c, record) == Success(NumLess(Num(rv), Num(c.value)))
    ensures c.op == ">" ==> EvalCondition(c, record) == Success(NumLess(Num(c.value), Num(rv)))
    ensures c.op == "<=" ==> EvalCondition(c, record) == Success(!NumLess(Num(c.value), Num(rv)))
    ensures c.op == ">=" ==> EvalCondition(c, record) == Success(!NumLess(Num(rv), Num(c.value)))
  {
    var x, y := Num(rv), Num(c.value);
    MulLess(x.0, x.0, 1);
    assert NumLess(y, x) <==> !(NumLess(x, y) || NumEq(x, y));
  }

  /** On strings they compare by code point. */
  lemma OrderingOnStrings(c: Condition, record: Record, rv: Value)
    requires Get(record, c.field) == Some(rv)
    requires rv.Str? && c.value.Str?
    ensures c.op == "<" ==> EvalCondition(c, record) == Success(StrLess(rv.s, c.value.s))
    ensures c.op == ">=" ==> EvalCondition(c, record) == Success(!StrLess(rv.s, c.value.s))
  {
    if c.op == ">=" {
      if rv.s != c.value.s {
        StrLessTotal(rv.s, c.value.s);
      }
      if StrLess(c.value.s, rv.s) {
        StrLessAsymmetric(c.value.s, rv.s);
      }
      if rv.s == c.value.s {
        StrLessIrreflexive(rv.s);
      }
    }
  }

  /** Comparing with None, a dict, or a value of another kind raises TypeError. */
  lemma OrderingTypeError(c: Condition, record: Record, rv: Value)
    requires c.op in {"<", ">", "<=", ">="}
    requires Get(record, c.field) == Some(rv) && !rv.Null?
    requires c.value.Null? || c.value.Obj? || rv.Obj? || (IsNumber(rv) && c.value.Str?)
    ensures EvalCondition(c, record) == Failure(TypeError)
  {
  }

  /** BETWEEN on numbers is the inclusive range test low <= v <= high. */
  lemma BetweenInclusive(field: string, low: Value, high: Value, record: Record, rv: Value)
    requires Get(record, field) == Some(rv)
    requires IsNumber(rv) && IsNumber(low) && IsNumber(high)
    ensures EvalCondition(Condition(field, "BETWEEN", low, high), record)
         == Success(!NumLess(Num(rv), Num(low)) && !NumLess(Num(high), Num(rv)))
  {
    var x, l, h := Num(rv), Num(low), Num(high);
    assert (NumLess(l, x) || NumEq(l, x)) <==> !NumLess(x, l);
    assert (NumLess(x, h) || NumEq(x, h)) <==> !NumLess(h, x);
  }

  /** Both ends of BETWEEN belong to the range. */
  lemma BetweenEnds(field: string, low: Value, high: Value, record: Record)
    requires IsNumber(low) && IsNumber(high) && !NumLess(Num(high), Num(low))
    requires Get(record, field) == Some(low) || Get(record, field) == Some(high)
    ensures EvalCondition(Condition(field, "BETWEEN", low, high), record) == Success(true)
  {
    var rv := Get(record, field).value;
    BetweenInclusive(field, low, high, record, rv);
    MulLess(Num(rv).0, Num(rv).0, Pow10(Num(rv).1));
  }

  /** BETWEEN is false on a None record value. */
  lemma BetweenOnNullIsFalse(field: string, low: Value, high: Value, record: Record)
    requires Get(record, field) == Some(Null)
    ensures EvalCondition(Condition(field, "BETWEEN", low, high), record) == Success(false)
  {
  }

  /** IN with an empty (falsy) list is false and NOT IN is true. */
  lemma InEmptyList(field: string, value: Value, record: Record)
    requires !Truthy(value) && HasKey(record, field)
    ensures EvalCondition(Condition(field, "IN", value, Null), record) == Success(false)
    ensures EvalCondition(Condition(field, "NOT IN", value, Null), record) == Success(true)
  {
  }

  /** IN on a non-empty list is membership under ==; NOT IN is its negation. */
  lemma InListMembership(field: string, xs: seq<Value>, record: Record, rv: Value)
    requires xs != [] && Get(record, field) == Some(rv)
    ensures EvalCondition(Condition(field, "IN", Arr(xs), Null), record)
         == Success(exists i :: 0 <= i < |xs| && PyEq(rv, xs[i]))
    ensures EvalCondition(Condition(field, "NOT IN", Arr(xs), Null), record)
         == Success(!exists i :: 0 <= i < |xs| && PyEq(rv, xs[i]))
  {
  }

  /** Whenever the value is truthy, NOT IN succeeds exactly when IN does, with the opposite answer. */
  lemma NotInNegatesIn(field: string, value: Value, record: Record)
    requires Truthy(value) && HasKey(record, field)
    ensures var i := EvalCondition(Condition(field, "IN", value, Null), record);
            var n := EvalCondition(Condition(field, "NOT IN", value, Null), record);
            i.Success? <==> n.Success?
    ensures var i := EvalCondition(Condition(field, "IN", value, Null), record);
            var n := EvalCondition(Condition(field, "NOT IN", value, Null), record);
            i.Success? ==> n.value == !i.value
  {
  }

  /** LIKE never matches a value that is not a string. */
  lemma LikeNonStringIsFalse(c: Condition, record: Record, rv: Value)
    requires c.op == "LIKE" && Get(record, c.field) == Some(rv) && !rv.Str?
    ensures EvalCondition(c, record) == Success(false)
  {
  }

  /** LIKE holds when some part s[i..j] of the value matches the whole pattern. */
  lemma LikeMeaning(c: Condition, record: Record, s: string)
    requires c.op == "LIKE" && Get(record, c.field) == Some(Str(s))
    ensures EvalCondition(c, record).Success?
    ensures EvalCondition(c, record).value <==>
      exists i, j :: 0 <= i <= j <= |s| && Matches(CompilePattern(PyStr(c.value)), s[i..j])
  {
    var pat := CompilePattern(PyStr(c.value));
    SearchAnywhere(pat, s);
    if Search(pat, s) {
      var i :| 0 <= i <= |s| && MatchHere(pat, s[i..]);
      MatchHereMeaning(pat, s[i..]);
      var j :| 0 <= j <= |s[i..]| && Matches(pat, s[i..][..j]);
      assert s[i..][..j] == s[i..i + j];
    } else {
      forall i, j | 0 <= i <= j <= |s|
        ensures !Matches(pat, s[i..j])
      {
        MatchHereMeaning(pat, s[i..]);
        assert s[i..][..j - i] == s[i..j];
      }
    }
  }

  /** Any operator the evaluator does not know (including "<>") is false. */
  lemma UnknownOperatorIsFalse(c: Condition, record: Record)
    requires c.op !in {"=", "!=", "<", ">", "<=", ">=", "LIKE", "IN", "NOT IN", "BETWEEN"}
    ensures EvalCondition(c, record) == Success(false)
  {
  }

  // ---------------------------------------------------------------------
  // Facts about the matcher

  /** re.search finds a match at some position. */
  lemma {:induction false} SearchAnywhere(pat: seq<PatElem>, s: string)
    ensures Search(pat, s) <==> exists i :: 0 <= i <= |s| && MatchHere(pat, s[i..])
    decreases |s|
  {
    if s != [] {
      SearchAnywhere(pat, s[1..]);
      if Search(pat, s[1..]) {
        var i :| 0 <= i <= |s[1..]| && MatchHere(pat, s[1..][i..]);
        assert s[1..][i..] == s[i + 1..];
      }
      if exists i :: 0 <= i <= |s| && MatchHere(pat, s[i..]) {
        var i :| 0 <= i <= |s| && MatchHere(pat, s[i..]);
        assert s[0..] == s;
        if i > 0 {
          assert s[1..][i - 1..] == s[i..];
        }
      }
    } else {
      assert s[0..] == s;
    }
  }

  /** The matcher against the reference: it matches a prefix of s exactly
      when some prefix of s matches the whole pattern. */
  lemma {:induction false} MatchHereMeaning(pat: seq<PatElem>, s: string)
    ensures MatchHere(pat, s) <==> exists j :: 0 <= j <= |s| && Matches(pat, s[..j])
    decreases |pat|, |s|
  {
    if pat == [] {
      assert Matches(pat, s[..0]);
    } else if pat[0] == Star {
      MatchHereMeaning(pat[1..], s);
      if s != [] {
        MatchHereMeaning(pat, s[1..]);
      }
      if MatchHere(pat, s) {
        if MatchHere(pat[1..], s) {
          var j :| 0 <= j <= |s| && Matches(pat[1..], s[..j]);
          StarTakesNothing(pat, s[..j]);
        } else {
          var j :| 0 <= j <= |s[1..]| && Matches(pat, s[1..][..j]);
          StarTakesOneMore(pat, s, j);
        }
      }
      if exists j :: 0 <= j <= |s| && Matches(pat, s[..j]) {
        var j :| 0 <= j <= |s| && Matches(pat, s[..j]);
        var u := s[..j];
        var k :| 0 <= k <= |u| && NoNewline(u[..k]) && Matches(pat[1..], u[k..]);
        if k == 0 {
          assert u[0..] == u;
        } else {
          assert s[0] == u[..k][0];
          StarGivesBackOne(pat, s, j, k);
        }
      }
    } else {
      if s != [] {
        MatchHereMeaning(pat[1..], s[1..]);
        if MatchHere(pat, s) {
          var j :| 0 <= j <= |s[1..]| && Matches(pat[1..], s[1..][..j]);
          assert s[..j + 1][1..] == s[1..][..j];
          assert Matches(pat, s[..j + 1]);
        }
        if exists j :: 0 <= j <= |s| && Matches(pat, s[..j]) {
          var j :| 0 <= j <= |s| && Matches(pat, s[..j]);
          assert s[..j][1..] == s[1..][..j - 1];
        }
      }
    }
  }

  lemma StarTakesNothing(pat: seq<PatElem>, t: string)
    requires pat != [] && pat[0] == Star && Matches(pat[1..], t)
    ensures Matches(pat, t)
  {
    assert t[..0] == [] && t[0..] == t;
    assert NoNewline(t[..0]);
  }

  lemma StarTakesOneMore(pat: seq<PatElem>, s: string, j: nat)
    requires pat != [] && pat[0] == Star && s != [] && s[0] != '\n'
    requires j <= |s| - 1 && Matches(pat, s[1..][..j])
    ensures Matches(pat, s[..j + 1])
  {
    var t := s[1..][..j];
    var k :| 0 <= k <= |t| && NoNewline(t[..k]) && Matches(pat[1..], t[k..]);
    var u := s[..j + 1];
    assert t == s[1..j + 1];
    assert t[..k] == s[1..k + 1];
    assert u[..k + 1] == s[..k + 1] == [s[0]] + s[1..k + 1];
    assert u[k + 1..] == s[k + 1..j + 1] == t[k..];
    assert NoNewline(u[..k + 1]);
  }

  lemma StarGivesBackOne(pat: seq<PatElem>, s: string, j: nat, k: nat)
    requires pat != [] && pat[0] == Star && 0 < k <= j <= |s|
    requires NoNewline(s[..j][..k]) && Matches(pat[1..], s[..j][k..])
    ensures s[0] != '\n' && Matches(pat, s[1..][..j - 1])
  {
    var t := s[1..][..j - 1];
    assert s[..j][..k][0] == s[0];
    assert t[..k - 1] == s[..j][..k][1..];
    assert t[k - 1..] == s[..j][k..];
    assert NoNewline(t[..k - 1]);
  }

  /** Matching ignores ASCII case in the subject. */
  lemma {:induction false} MatchHereIgnoresCase(pat: seq<PatElem>, s: string)
    ensures MatchHere(pat, s) <==> MatchHere(pat, UpperString(s))
    decreases |pat|, |s|
  {
    var u := UpperString(s);
    if s != [] {
      assert u[1..] == UpperString(s[1..]);
      assert Upper(u[0]) == Upper(s[0]);
      assert u[0] != '\n' <==> s[0] != '\n';
    }
    if pat != [] {
      if pat[0] == Star {
        MatchHereIgnoresCase(pat[1..], s);
        if s != [] {
          MatchHereIgnoresCase(pat, s[1..]);
        }
      } else if s != [] {
        MatchHereIgnoresCase(pat[1..], s[1..]);
      }
    }
  }

  /** `%` alone matches every string. */
  lemma PercentMatchesEverything(s: string)
    ensures Search(CompilePattern("%"), s)
  {
    assert CompilePattern("%") == [Star];
    assert MatchHere([Star][1..], s);
  }

  // ---------------------------------------------------------------------
  // Facts about expressions

  /** AND is conjunction over all operands, true on none. */
  lemma AndIsConjunction(xs: seq<Node>, record: Record)
    requires forall i :: 0 <= i < |xs| ==> EvalNode(xs[i], record).Success?
    ensures EvalNode(Expr("AND", xs), record)
         == Success(forall i :: 0 <= i < |xs| ==> EvalNode(xs[i], record).value)
  {
    EvalAllFrom(Expr("AND", xs), 0, record);
  }

  lemma {:induction false} EvalAllFrom(whole: Node, i: nat, record: Record)
    requires whole.Expr? && i <= |whole.operands|
    requires forall j :: i <= j < |whole.operands| ==> EvalNode(whole.operands[j], record).Success?
    ensures EvalAll(whole, i, record)
         == Success(forall j :: i <= j < |whole.operands| ==> EvalNode(whole.operands[j], record).value)
    decreases |whole.operands| - i
  {
    if i < |whole.operands| {
      EvalAllFrom(whole, i + 1, record);
    }
  }

  /** OR is disjunction over all operands, false on none. */
  lemma OrIsDisjunction(xs: seq<Node>, record: Record)
    requires forall i :: 0 <= i < |xs| ==> EvalNode(xs[i], record).Success?
    ensures EvalNode(Expr("OR", xs), record)
         == Success(exists i :: 0 <= i < |xs| && EvalNode(xs[i], record).value)
  {
    EvalAnyFrom(Expr("OR", xs), 0, record);
  }

  lemma {:induction false} EvalAnyFrom(whole: Node, i: nat, record: Record)
    requires whole.Expr? && i <= |whole.operands|
    requires forall j :: i <= j < |whole.operands| ==> EvalNode(whole.operands[j], record).Success?
    ensures EvalAny(whole, i, record)
         == Success(exists j :: i <= j < |whole.operands| && EvalNode(whole.operands[j], record).value)
    decreases |whole.operands| - i
  {
    if i < |whole.operands| {
      EvalAnyFrom(whole, i + 1, record);
    }
  }

  /** AND stops at the first false operand: what follows is not evaluated. */
  lemma AndShortCircuits(xs: seq<Node>, k: nat, record: Record)
    requires k < |xs| && EvalNode(xs[k], record) == Success(false)
    requires forall i :: 0 <= i < k ==> EvalNode(xs[i], record) == Success(true)
    ensures EvalNode(Expr("AND", xs), record) == Success(false)
  {
    var w := Expr("AND", xs);
    var i := k;
    while i > 0
      invariant 0 <= i <= k
      invariant EvalAll(w, i, record) == Success(false)
      decreases i
    {
      i := i - 1;
    }
  }

  /** NOT negates its first operand; errors pass through. */
  lemma NotNegatesFirst(xs: seq<Node>, record: Record)
    requires xs != []
    ensures EvalNode(Expr("NOT", xs), record).Success? <==> EvalNode(xs[0], record).Success?
    ensures EvalNode(xs[0], record).Success? ==>
      EvalNode(Expr("NOT", xs), record).value == !EvalNode(xs[0], record).value
  {
  }

  /** Any other operator evaluates to its first operand. */
  lemma OtherOperatorIsFirst(op: string, xs: seq<Node>, record: Record)
    requires op !in {"AND", "OR", "NOT"} && xs != []
    ensures EvalNode(Expr(op, xs), record) == EvalNode(xs[0], record)
  {
  }

  /** NOT, or another operator, on no operands raises IndexError. */
  lemma NoOperandIndexError(op: string, record: Record)
    requires op !in {"AND", "OR"}
    ensures EvalNode(Expr(op, []), record) == Failure(IndexError)
  {
  }

  /** An operand that is neither a condition nor an expression is false. */
  lemma OpaqueIsFalse(record: Record)
    ensures EvalNode(Opaque, record) == Success(false)
  {
  }
}
