/** What the query parser accepts and the shape of what it builds. */
module QueryParsingProperties {
  import opened Wrappers
  import opened Text
  import opened Values
  import opened Errors
  import opened QueryAst
  import opened QueryTokenizer
  import opened QueryParsing
  import TP = TokenizerProperties

  // ---------------------------------------------------------------------
  // @query[...]

  lemma MarkerStartsWithAt(s: string, i: nat)
    requires MarkerAt(s, i)
    ensures s[i] == '@'
  {
    assert SameFolded(s[i + 0], Marker[0]);
  }

  /** A text without '@' is the query itself. */
  lemma PlainQueryUnchanged(s: string)
    requires '@' !in s
    ensures ExtractQuery(s) == s
  {
    var m := FindMarker(s, 0);
    if m.Some? {
      MarkerStartsWithAt(s, m.value);
    }
  }

  /** A query written as @query[q] is read back as q, whatever brackets q holds. */
  lemma WrappedQueryExtracted(q: string)
    ensures ExtractQuery(Marker + q + "]") == q
  {
    var s := Marker + q + "]";
    assert MarkerAt(s, 0) by {
      forall i | 0 <= i < |Marker|
        ensures SameFolded(s[i], Marker[i])
      {
        assert s[i] == Marker[i];
      }
    }
    assert FindMarker(s, 0) == Some(0);
    assert s[|s| - 1] == ']';
    assert LastIndex(s, ']', |Marker|, |s|) == Some(|s| - 1);
    assert s[|Marker|..|s| - 1] == q;
  }

  // ---------------------------------------------------------------------
  // The clauses

  /** An empty query has no table name. */
  lemma EmptyQueryRejected()
    ensures ParseSpec("") == Failure(QueryError(Expected("IDENTIFIER", None)))
  {
    assert FindMarker("", 0).None?;
    assert TokenizeSpec("") == Success([]);
  }

  /** The table name comes first; any other first token is "Expected IDENTIFIER, got <kind>". */
  lemma TableComesFirst(toks: seq<Token>)
    ensures QueryAt(toks).Success? ==> PeekAt(toks, 0, IDENTIFIER) && QueryAt(toks).value.0.table == toks[0].text
    ensures !PeekAt(toks, 0, IDENTIFIER) ==>
      QueryAt(toks) == Failure(QueryError(Expected("IDENTIFIER", if toks == [] then None else Some(KindName(toks[0].kind)))))
  {
  }

  predicate ClauseKeyword(k: Kind) {
    k == SELECT || k == WHERE || k == ORDER || k == LIMIT || k == OFFSET
  }

  /** A bare table name: every field has its default (no projection, no filter,
      no ordering, ascending, no limit, offset 0), and the tokens after it are
      left unread unless one of them opens a clause. */
  lemma TableOnlyDefaults(toks: seq<Token>)
    requires PeekAt(toks, 0, IDENTIFIER)
    requires |toks| == 1 || !ClauseKeyword(toks[1].kind)
    ensures QueryAt(toks) == Success((ParsedQuery(toks[0].text, None, None, None, Asc, None, 0), 1))
  {
  }

  /** parse() assembled from its stages: the table, then each optional
      clause from where the previous one stopped. */
  lemma QueryOfStages(toks: seq<Token>, sel: (Option<seq<string>>, nat), wh: (Option<Node>, nat),
                      ob: (Option<(string, SortOrder)>, nat), lim: (Option<int>, nat), off: (int, nat))
    requires PeekAt(toks, 0, IDENTIFIER)
    requires OptionalSelectAt(toks, 1) == Success(sel)
    requires sel.1 <= |toks| && OptionalWhereAt(toks, sel.1) == Success(wh)
    requires wh.1 <= |toks| && OptionalOrderByAt(toks, wh.1) == Success(ob)
    requires ob.1 <= |toks| && OptionalLimitAt(toks, ob.1) == Success(lim)
    requires lim.1 <= |toks| && OptionalOffsetAt(toks, lim.1) == Success(off)
    ensures QueryAt(toks) == Success((ParsedQuery(toks[0].text, sel.0, wh.0,
      if ob.0.Some? then Some(ob.0.value.0) else None, if ob.0.Some? then ob.0.value.1 else Asc, lim.0, off.0), off.1))
  {
  }

  /** Clauses are read in the fixed order SELECT, WHERE, ORDER BY, LIMIT,
      OFFSET: after LIMIT only OFFSET is looked for, so a WHERE (or any other
      clause) that follows it is never read. */
  lemma LimitEndsClauses(toks: seq<Token>, n: int)
    requires |toks| >= 3 && toks[0].kind == IDENTIFIER && toks[1].kind == LIMIT && toks[2].kind == NUMBER
    requires ParseInt(toks[2].text) == Some(n)
    requires !PeekAt(toks, 3, OFFSET)
    ensures QueryAt(toks) == Success((ParsedQuery(toks[0].text, None, None, None, Asc, Some(n), 0), 3))
  {
    assert OptionalLimitAt(toks, 1) == Success((Some(n), 3)) by {
      assert CountAt(toks, 1, LIMIT) == Success((n, 3));
    }
    QueryOfStages(toks, (None, 1), (None, 1), (None, 1), (Some(n), 3), (0, 3));
  }

  // ---------------------------------------------------------------------
  // Number tokens

  /** The unsigned part of a NUMBER token's text, and whether it has a sign. */
  function Unsigned(t: string): string {
    if t != [] && t[0] == '-' then t[1..] else t
  }

  /** The text of a NUMBER token has no surrounding whitespace. */
  lemma NumberTextUnspaced(t: string)
    requires NumberText(t)
    ensures t != [] && (t[0] == '-' || IsDigit(t[0]))
    ensures Strip(t) == t
  {
    assert t != [] && (t[0] == '-' || IsDigit(t[0])) && !IsSpace(t[|t| - 1]) by {
      var u := Unsigned(t);
      assert UnsignedNumberText(u);
      var k :| 1 <= k <= |u| && IsDigits(u[..k]) && (k == |u| || (u[k] == '.' && IsDigits(u[k + 1..])));
      assert IsDigit(u[0]) by { assert u[..k][0] == u[0]; }
      assert t[|t| - 1] == u[|u| - 1];
      if k == |u| {
        assert u[..k][k - 1] == u[|u| - 1];
      } else if k + 1 < |u| {
        assert u[k + 1..][|u| - k - 2] == u[|u| - 1];
      }
    }
    StripNoSpaceEnds(t);
  }

  /** NumberText splits into digits u[..k], then optionally a point and more digits. */
  lemma NumberTextSplit(t: string) returns (k: nat)
    requires NumberText(t)
    ensures var u := Unsigned(t);
      1 <= k <= |u| && IsDigits(u[..k]) && (k == |u| || (u[k] == '.' && IsDigits(u[k + 1..])))
    ensures '.' in t <==> k < |Unsigned(t)|
  {
    var u := Unsigned(t);
    assert UnsignedNumberText(u);
    k :| 1 <= k <= |u| && IsDigits(u[..k]) && (k == |u| || (u[k] == '.' && IsDigits(u[k + 1..])));
    if k < |u| {
      assert t[|t| - |u| + k] == '.';
    } else {
      forall j | 0 <= j < |t|
        ensures t[j] != '.'
      {
        if j < |t| - |u| {
          assert t[j] == '-';
        } else {
          assert t[j] == u[..k][j - (|t| - |u|)];
        }
      }
    }
  }

  /** int() of a text with a point fails. */
  lemma IntTextRejectsPoint(t: string)
    requires '.' in t
    ensures ParseIntText(t).None?
  {
    var j :| 0 <= j < |t| && t[j] == '.';
    if t[0] == '-' || t[0] == '+' {
      assert t[1..][j - 1] == '.';
    }
  }

  /** int() and float() of a NUMBER text read it as it is: there is no
      whitespace to strip, and a leading '-' is the sign. */
  lemma NumberTextConversions(t: string)
    requires NumberText(t)
    ensures ParseInt(t) == ParseIntText(t)
    ensures ParseDecimal(t) == ParseUnsignedDecimal(Unsigned(t), t[0] == '-')
  {
    NumberTextUnspaced(t);
    ParseStripped(t);
  }

  /** digits '.' digits parses. */
  lemma FractionParses(u: string, k: nat, neg: bool)
    requires 1 <= k < |u| && IsDigits(u[..k]) && u[k] == '.' && IsDigits(u[k + 1..])
    ensures ParseUnsignedDecimal(u, neg).Some?
  {
    assert u == u[..k] + u[k..];
    assert '.' !in u[..k];
    IndexOfAfterFree(u[..k], u[k..], '.');
  }

  /** Every number text the lexer produces converts without ValueError: to an
      int when it has no point, to a float otherwise. */
  lemma NumberTokenConverts(t: string)
    requires NumberText(t)
    ensures NumberValue(t).Success?
    ensures NumberValue(t).value.Int? <==> '.' !in t
  {
    var u := Unsigned(t);
    var k := NumberTextSplit(t);
    if k < |u| {
      FractionParses(u, k, t[0] == '-');
      NumberTextConversions(t);
    } else {
      assert u == u[..k];
      assert ParseIntText(t).Some?;
      NumberTextConversions(t);
    }
  }

  /** LIMIT and OFFSET take int() of the number: one with a point raises ValueError. */
  lemma FractionalCountRejected(toks: seq<Token>, p: nat, keyword: Kind)
    requires p + 2 <= |toks| && toks[p].kind == keyword && toks[p + 1].kind == NUMBER
    requires NumberText(toks[p + 1].text) && '.' in toks[p + 1].text
    ensures CountAt(toks, p, keyword) == Failure(ValueError)
  {
    var t := toks[p + 1].text;
    IntTextRejectsPoint(t);
    NumberTextConversions(t);
  }

  /** ORDER BY without a direction is ascending; ASC and DESC are read when present. */
  lemma OrderDirection(toks: seq<Token>, p: nat)
    requires p + 2 <= |toks| && toks[p].kind == ORDER && toks[p + 1].kind == IDENTIFIER
    ensures OrderByAt(toks, p).Success?
    ensures OrderByAt(toks, p).value.0 == (toks[p + 1].text, if PeekAt(toks, p + 2, DESC) then Desc else Asc)
    ensures OrderByAt(toks, p).value.1 == if PeekAt(toks, p + 2, ASC) || PeekAt(toks, p + 2, DESC) then p + 3 else p + 2
  {
  }

  // ---------------------------------------------------------------------
  // The SELECT list

  /** fs from position p: identifiers, each preceded by a comma, and no comma after them. */
  predicate CommaFields(toks: seq<Token>, p: nat, fs: seq<string>) {
    p + 2 * |fs| <= |toks|
    && (forall i :: 0 <= i < |fs| ==> toks[p + 2 * i].kind == COMMA && toks[p + 2 * i + 1] == Token(IDENTIFIER, fs[i]))
    && !PeekAt(toks, p + 2 * |fs|, COMMA)
  }

  /** What the `, field` loop reads is a comma-separated identifier list. */
  lemma {:induction false} FieldsRestSound(toks: seq<Token>, p: nat, acc: seq<string>)
    requires p <= |toks| && FieldsRest(toks, p, acc).Success?
    ensures var (fs, e) := FieldsRest(toks, p, acc).value;
      |acc| <= |fs| && fs[..|acc|] == acc && e == p + 2 * (|fs| - |acc|) && CommaFields(toks, p, fs[|acc|..])
    decreases |toks| - p
  {
    if PeekAt(toks, p, COMMA) {
      var f := toks[p + 1].text;
      assert FieldsRest(toks, p, acc) == FieldsRest(toks, p + 2, acc + [f]);
      FieldsRestSound(toks, p + 2, acc + [f]);
      var (fs, e) := FieldsRest(toks, p, acc).value;
      PrefixStep(fs, acc, f);
      CommaFieldsCons(toks, p, f, fs[|acc| + 1..]);
    } else {
      assert acc[|acc|..] == [];
    }
  }

  /** A list that starts with acc + [f] starts with acc, then f. */
  lemma PrefixStep(fs: seq<string>, acc: seq<string>, f: string)
    requires |acc| + 1 <= |fs| && fs[..|acc| + 1] == acc + [f]
    ensures fs[..|acc|] == acc && fs[|acc|..] == [f] + fs[|acc| + 1..]
  {
    assert fs[..|acc|] == (fs[..|acc| + 1])[..|acc|];
    assert fs[|acc|] == (fs[..|acc| + 1])[|acc|];
  }

  /** A comma and an identifier in front of a comma-separated list. */
  lemma CommaFieldsCons(toks: seq<Token>, p: nat, f: string, rest: seq<string>)
    requires p + 1 < |toks| && toks[p].kind == COMMA && toks[p + 1] == Token(IDENTIFIER, f)
    requires CommaFields(toks, p + 2, rest)
    ensures CommaFields(toks, p, [f] + rest)
  {
    forall i | 0 <= i < |rest| + 1
      ensures toks[p + 2 * i].kind == COMMA && toks[p + 2 * i + 1] == Token(IDENTIFIER, ([f] + rest)[i])
    {
      if i > 0 {
        assert toks[p + 2 + 2 * (i - 1)] == toks[p + 2 * i];
      }
    }
  }

  lemma CommaFieldsTail(toks: seq<Token>, p: nat, fs: seq<string>)
    requires CommaFields(toks, p, fs) && fs != []
    ensures CommaFields(toks, p + 2, fs[1..])
  {
    forall i | 0 <= i < |fs| - 1
      ensures toks[p + 2 + 2 * i].kind == COMMA && toks[p + 2 + 2 * i + 1] == Token(IDENTIFIER, fs[1..][i])
    {
      assert toks[p + 2 * (i + 1)].kind == COMMA && toks[p + 2 * (i + 1) + 1] == Token(IDENTIFIER, fs[i + 1]);
    }
  }

  /** A comma-separated identifier list is read in full. */
  lemma {:induction false} FieldsRestComplete(toks: seq<Token>, p: nat, acc: seq<string>, fs: seq<string>)
    requires p <= |toks| && CommaFields(toks, p, fs)
    ensures FieldsRest(toks, p, acc) == Success((acc + fs, p + 2 * |fs|))
    decreases |fs|
  {
    if fs == [] {
      assert acc + fs == acc;
    } else {
      var f := fs[0];
      assert toks[p + 2 * 0].kind == COMMA && toks[p + 2 * 0 + 1] == Token(IDENTIFIER, fs[0]);
      FieldsRestStep(toks, p, acc, f);
      CommaFieldsTail(toks, p, fs);
      FieldsRestComplete(toks, p + 2, acc + [f], fs[1..]);
      assert acc + [f] + fs[1..] == acc + fs;
    }
  }

  /** ", f" moves the loop two tokens on with f added. */
  lemma FieldsRestStep(toks: seq<Token>, p: nat, acc: seq<string>, f: string)
    requires p + 2 <= |toks| && toks[p].kind == COMMA && toks[p + 1] == Token(IDENTIFIER, f)
    ensures FieldsRest(toks, p, acc) == FieldsRest(toks, p + 2, acc + [f])
  {
  }

  /** SELECT f1, ..., fn: the fields are exactly the identifiers of the list,
      in order, and the list ends at the first token that is not a comma. */
  lemma SelectListSound(toks: seq<Token>, p: nat)
    requires p <= |toks| && SelectAt(toks, p).Success?
    ensures var (fs, e) := SelectAt(toks, p).value;
      toks[p].kind == SELECT && |fs| >= 1 && toks[p + 1] == Token(IDENTIFIER, fs[0])
      && e == p + 2 * |fs| && CommaFields(toks, p + 2, fs[1..])
  {
    var first := toks[p + 1].text;
    FieldsRestSound(toks, p + 2, [first]);
  }

  lemma SelectListComplete(toks: seq<Token>, p: nat, first: string, rest: seq<string>)
    requires p + 2 <= |toks| && toks[p].kind == SELECT && toks[p + 1] == Token(IDENTIFIER, first)
    requires CommaFields(toks, p + 2, rest)
    ensures SelectAt(toks, p) == Success(([first] + rest, p + 2 + 2 * |rest|))
  {
    FieldsRestComplete(toks, p + 2, [first], rest);
  }

  // ---------------------------------------------------------------------
  // The expression tree

  predicate AndNode(n: Node) {
    n.Expr? && n.op == "AND" && |n.operands| >= 1
  }

  /** An AND node is built for every and-expression, even over one condition. */
  lemma AndAlwaysBuilt(toks: seq<Token>, p: nat)
    requires p <= |toks| && AndAt(toks, p).Success?
    ensures AndNode(AndAt(toks, p).value.0)
  {
  }

  lemma {:induction false} OrRestAnds(toks: seq<Token>, p: nat, acc: seq<Node>)
    requires p <= |toks| && forall i :: 0 <= i < |acc| ==> AndNode(acc[i])
    ensures OrRest(toks, p, acc).Success? ==>
      forall i :: 0 <= i < |OrRest(toks, p, acc).value.0| ==> AndNode(OrRest(toks, p, acc).value.0[i])
    decreases |toks| - p
  {
    if PeekAt(toks, p, OR) {
      var n := AndAt(toks, p + 1);
      if n.Success? {
        AndAlwaysBuilt(toks, p + 1);
        OrRestAnds(toks, n.value.1, acc + [n.value.0]);
      }
    }
  }

  /** AND binds tighter than OR: an expression is one AND node, or an OR node
      over two or more AND nodes, and the OR node is there exactly when an OR
      follows the first and-expression. */
  lemma Precedence(toks: seq<Token>, p: nat)
    requires p <= |toks| && OrAt(toks, p).Success?
    ensures var n := OrAt(toks, p).value.0;
      AndNode(n) || (n.Expr? && n.op == "OR" && |n.operands| >= 2 && forall i :: 0 <= i < |n.operands| ==> AndNode(n.operands[i]))
    ensures OrAt(toks, p).value.0.Expr? && (OrAt(toks, p).value.0.op == "OR" <==> PeekAt(toks, AndAt(toks, p).value.1, OR))
  {
    AndAlwaysBuilt(toks, p);
    var (left, q) := AndAt(toks, p).value;
    if PeekAt(toks, q, OR) {
      OrRestAnds(toks, q, [left]);
      var next := AndAt(toks, q + 1).value;
      assert OrRest(toks, q, [left]) == OrRest(toks, next.1, [left] + [next.0]);
    }
  }

  /** A value the parser reads is never a list or a dictionary. */
  predicate Scalar(v: Value) {
    !v.Arr? && !v.Obj?
  }

  /** op is the text of one of the OPERATOR tokens. */
  predicate OperatorText(toks: seq<Token>, op: string) {
    exists i :: 0 <= i < |toks| && toks[i] == Token(OPERATOR, op)
  }

  /** The four kinds of condition the parser builds: IN over a non-empty list,
      LIKE, BETWEEN with both bounds, and a comparison whose operator is the
      text of an OPERATOR token; value2 is set only by BETWEEN. */
  predicate ParsedCondition(toks: seq<Token>, c: Condition) {
    (c.op == "IN" && c.value.Arr? && |c.value.items| >= 1
      && (forall i :: 0 <= i < |c.value.items| ==> Scalar(c.value.items[i])) && c.value2 == Null)
    || (c.op == "LIKE" && Scalar(c.value) && c.value2 == Null)
    || (c.op == "BETWEEN" && Scalar(c.value) && Scalar(c.value2))
    || (OperatorText(toks, c.op) && Scalar(c.value) && c.value2 == Null)
  }

  /** The trees the parser builds: AND over one or more operands, OR over two
      or more, NOT over exactly one, leaves as above, never an opaque operand. */
  predicate Shaped(toks: seq<Token>, n: Node)
    decreases n
  {
    match n
    case Leaf(c) => ParsedCondition(toks, c)
    case Expr(op, xs) =>
      ((op == "AND" && |xs| >= 1) || (op == "OR" && |xs| >= 2) || (op == "NOT" && |xs| == 1))
      && forall i :: 0 <= i < |xs| ==> Shaped(toks, xs[i])
    case Opaque => false
  }

  predicate AllShaped(toks: seq<Token>, xs: seq<Node>) {
    forall i :: 0 <= i < |xs| ==> Shaped(toks, xs[i])
  }

  lemma ValueScalar(toks: seq<Token>, p: nat)
    requires ValueAt(toks, p).Success?
    ensures Scalar(ValueAt(toks, p).value.0)
  {
  }

  lemma {:induction false} ValuesRestScalar(toks: seq<Token>, p: nat, acc: seq<Value>)
    requires p <= |toks| && forall i :: 0 <= i < |acc| ==> Scalar(acc[i])
    ensures ValuesRest(toks, p, acc).Success? ==>
      forall i :: 0 <= i < |ValuesRest(toks, p, acc).value.0| ==> Scalar(ValuesRest(toks, p, acc).value.0[i])
    decreases |toks| - p
  {
    if PeekAt(toks, p, COMMA) {
      var v := ValueAt(toks, p + 1);
      if v.Success? {
        ValueScalar(toks, p + 1);
        ValuesRestScalar(toks, v.value.1, acc + [v.value.0]);
      }
    }
  }

  lemma SpecialShaped(toks: seq<Token>, p: nat, field: string)
    requires p <= |toks| && SpecialAt(toks, p, field).Success?
    ensures ParsedCondition(toks, SpecialAt(toks, p, field).value.0)
  {
    if PeekAt(toks, p, IN) {
      var first := ValueAt(toks, p + 2).value;
      ValueScalar(toks, p + 2);
      ValuesRestScalar(toks, first.1, [first.0]);
    } else if PeekAt(toks, p, LIKE) {
      ValueScalar(toks, p + 1);
    } else {
      var low := ValueAt(toks, p + 1).value;
      ValueScalar(toks, p + 1);
      ValueScalar(toks, low.1 + 1);
    }
  }

  lemma FieldConditionShaped(toks: seq<Token>, p: nat)
    requires p <= |toks| && FieldConditionAt(toks, p).Success?
    ensures Shaped(toks, FieldConditionAt(toks, p).value.0)
  {
    var q := p + 1;
    var c := FieldConditionLeaf(toks, p);
    if PeekAt(toks, q, IN) || PeekAt(toks, q, LIKE) || PeekAt(toks, q, BETWEEN) {
      SpecialShaped(toks, q, toks[p].text);
    } else {
      ComparisonShaped(toks, p);
    }
  }

  /** A field condition is a leaf: the special form after the field, or
      field, operator and value. */
  lemma FieldConditionLeaf(toks: seq<Token>, p: nat) returns (c: Condition)
    requires p <= |toks| && FieldConditionAt(toks, p).Success?
    ensures FieldConditionAt(toks, p).value.0 == Leaf(c)
    ensures PeekAt(toks, p, IDENTIFIER)
    ensures var q := p + 1; PeekAt(toks, q, IN) || PeekAt(toks, q, LIKE) || PeekAt(toks, q, BETWEEN) ==>
      SpecialAt(toks, q, toks[p].text).Success? && c == SpecialAt(toks, q, toks[p].text).value.0
    ensures var q := p + 1; !(PeekAt(toks, q, IN) || PeekAt(toks, q, LIKE) || PeekAt(toks, q, BETWEEN)) ==>
      p + 2 <= |toks| && toks[p + 1].kind == OPERATOR && ValueAt(toks, p + 2).Success? &&
      c == Condition(toks[p].text, toks[p + 1].text, ValueAt(toks, p + 2).value.0, Null)
  {
    c := FieldConditionAt(toks, p).value.0.cond;
  }

  lemma ComparisonShaped(toks: seq<Token>, p: nat)
    requires p + 2 <= |toks| && toks[p].kind == IDENTIFIER && toks[p + 1].kind == OPERATOR
    requires ValueAt(toks, p + 2).Success?
    ensures ParsedCondition(toks, Condition(toks[p].text, toks[p + 1].text, ValueAt(toks, p + 2).value.0, Null))
  {
    ValueScalar(toks, p + 2);
    assert toks[p + 1] == Token(OPERATOR, toks[p + 1].text);
  }

  lemma {:induction false} OrShaped(toks: seq<Token>, p: nat)
    requires p <= |toks| && OrAt(toks, p).Success?
    ensures Shaped(toks, OrAt(toks, p).value.0)
    decreases |toks| - p, 4
  {
    var (left, q) := AndAt(toks, p).value;
    AndShaped(toks, p);
    if PeekAt(toks, q, OR) {
      OrRestShaped(toks, q, [left]);
      var next := AndAt(toks, q + 1).value;
      assert OrRest(toks, q, [left]) == OrRest(toks, next.1, [left] + [next.0]);
    }
  }

  lemma {:induction false} OrRestShaped(toks: seq<Token>, p: nat, acc: seq<Node>)
    requires p <= |toks| && AllShaped(toks, acc) && OrRest(toks, p, acc).Success?
    ensures AllShaped(toks, OrRest(toks, p, acc).value.0)
    decreases |toks| - p, 0
  {
    if PeekAt(toks, p, OR) {
      var next := AndAt(toks, p + 1).value;
      AndShaped(toks, p + 1);
      OrRestShaped(toks, next.1, acc + [next.0]);
    }
  }

  lemma {:induction false} AndShaped(toks: seq<Token>, p: nat)
    requires p <= |toks| && AndAt(toks, p).Success?
    ensures Shaped(toks, AndAt(toks, p).value.0)
    decreases |toks| - p, 3
  {
    var (first, q) := CondAt(toks, p).value;
    CondShaped(toks, p);
    AndRestShaped(toks, q, [first]);
  }

  lemma {:induction false} AndRestShaped(toks: seq<Token>, p: nat, acc: seq<Node>)
    requires p <= |toks| && AllShaped(toks, acc) && AndRest(toks, p, acc).Success?
    ensures AllShaped(toks, AndRest(toks, p, acc).value.0)
    decreases |toks| - p, 0
  {
    if PeekAt(toks, p, AND) {
      var next := CondAt(toks, p + 1).value;
      CondShaped(toks, p + 1);
      AndRestShaped(toks, next.1, acc + [next.0]);
    }
  }

  lemma {:induction false} CondShaped(toks: seq<Token>, p: nat)
    requires p <= |toks| && CondAt(toks, p).Success?
    ensures Shaped(toks, CondAt(toks, p).value.0)
    decreases |toks| - p, 2
  {
    if PeekAt(toks, p, LPAREN) {
      OrShaped(toks, p + 1);
    } else if PeekAt(toks, p, NOT) {
      CondShaped(toks, p + 1);
    } else {
      FieldConditionShaped(toks, p);
    }
  }

  /** Every WHERE expression the parser builds has the shape above. */
  lemma WhereShaped(toks: seq<Token>)
    requires QueryAt(toks).Success? && QueryAt(toks).value.0.whereExpression.Some?
    ensures Shaped(toks, QueryAt(toks).value.0.whereExpression.value)
  {
    var table := ConsumeAt(toks, 0, IDENTIFIER).value;
    var sel := OptionalSelectAt(toks, table.1).value;
    assert PeekAt(toks, sel.1, WHERE);
    OrShaped(toks, sel.1 + 1);
  }

  // ---------------------------------------------------------------------
  // Parentheses, NOT, and where parsing stops

  /** `( e )` is the node of e itself, no wrapper; it ends after the closing
      parenthesis, and a missing one is "Expected RPAREN". */
  lemma GroupIsInner(toks: seq<Token>, p: nat)
    requires PeekAt(toks, p, LPAREN)
    ensures CondAt(toks, p).Success? <==>
      OrAt(toks, p + 1).Success? && PeekAt(toks, OrAt(toks, p + 1).value.1, RPAREN)
    ensures CondAt(toks, p).Success? ==> CondAt(toks, p) == Success((OrAt(toks, p + 1).value.0, OrAt(toks, p + 1).value.1 + 1))
    ensures OrAt(toks, p + 1).Failure? ==> CondAt(toks, p) == Failure(OrAt(toks, p + 1).error)
    ensures OrAt(toks, p + 1).Success? && !PeekAt(toks, OrAt(toks, p + 1).value.1, RPAREN) ==>
      var e := OrAt(toks, p + 1).value.1;
      CondAt(toks, p) == Failure(QueryError(Expected("RPAREN", if e < |toks| then Some(KindName(toks[e].kind)) else None)))
  {
  }

  /** NOT applies to exactly the one condition that follows it, and an error
      in that condition is the error of the whole. */
  lemma NotWrapsNext(toks: seq<Token>, p: nat)
    requires PeekAt(toks, p, NOT)
    ensures CondAt(toks, p).Success? <==> CondAt(toks, p + 1).Success?
    ensures CondAt(toks, p + 1).Success? ==>
      CondAt(toks, p) == Success((Expr("NOT", [CondAt(toks, p + 1).value.0]), CondAt(toks, p + 1).value.1))
    ensures CondAt(toks, p + 1).Failure? ==> CondAt(toks, p) == Failure(CondAt(toks, p + 1).error)
  {
  }

  /** The operands gathered so far stay the first operands of an AND or OR. */
  lemma {:induction false} AndRestKeeps(toks: seq<Token>, p: nat, acc: seq<Node>)
    requires p <= |toks|
    ensures AndRest(toks, p, acc).Success? ==> AndRest(toks, p, acc).value.0[..|acc|] == acc
    decreases |toks| - p
  {
    if PeekAt(toks, p, AND) {
      var next := CondAt(toks, p + 1);
      if next.Success? {
        AndRestKeeps(toks, next.value.1, acc + [next.value.0]);
        assert (acc + [next.value.0])[..|acc|] == acc;
      }
    }
  }

  /** An and-expression is an AND node whose first operand is the first
      condition. */
  lemma AndStartsWithCondition(toks: seq<Token>, p: nat)
    requires p <= |toks| && AndAt(toks, p).Success?
    ensures CondAt(toks, p).Success?
    ensures AndAt(toks, p).value.0.Expr? && AndAt(toks, p).value.0.op == "AND"
    ensures AndAt(toks, p).value.0.operands[0] == CondAt(toks, p).value.0
  {
    var first := CondAt(toks, p).value;
    var rest := AndRest(toks, first.1, [first.0]);
    assert AndAt(toks, p) == Combine("AND", rest);
    AndRestKeeps(toks, first.1, [first.0]);
    assert rest.value.0[0] == rest.value.0[..1][0];
  }

  /** NOT binds tighter than AND: in `NOT c AND d` the NOT covers c alone and
      is the first operand of the AND. */
  lemma NotBindsTighterThanAnd(toks: seq<Token>, p: nat)
    requires PeekAt(toks, p, NOT) && AndAt(toks, p).Success?
    ensures CondAt(toks, p + 1).Success?
    ensures AndAt(toks, p).value.0.Expr? && AndAt(toks, p).value.0.op == "AND"
    ensures AndAt(toks, p).value.0.operands[0] == Expr("NOT", [CondAt(toks, p + 1).value.0])
  {
    AndStartsWithCondition(toks, p);
    NotWrapsNext(toks, p);
  }

  /** OFFSET is the last clause: after `t OFFSET n` nothing is read, so any
      tokens at all may follow (another OFFSET, a LIMIT, a WHERE, a stray
      parenthesis) and the query is the table with offset n. */
  lemma OffsetEndsQuery(toks: seq<Token>, n: int)
    requires |toks| >= 3 && toks[0].kind == IDENTIFIER && toks[1].kind == OFFSET && toks[2].kind == NUMBER
    requires ParseInt(toks[2].text) == Some(n)
    ensures QueryAt(toks) == Success((ParsedQuery(toks[0].text, None, None, None, Asc, None, n), 3))
  {
    assert OptionalOffsetAt(toks, 1) == Success((n, 3)) by {
      assert CountAt(toks, 1, OFFSET) == Success((n, 3));
    }
    QueryOfStages(toks, (None, 1), (None, 1), (None, 1), (None, 1), (n, 3));
  }

  // ---------------------------------------------------------------------
  // Operators of a parsed query

  /** The operators a condition can carry: IN, LIKE, BETWEEN and the seven
      comparison spellings (never NOT IN, which the evaluator also knows). */
  predicate KnownOp(op: string) {
    op == "IN" || op == "LIKE" || op == "BETWEEN" || TP.OperatorSpelling(op)
  }

  /** Every condition of the tree carries a known operator. */
  predicate KnownOps(n: Node)
    decreases n
  {
    match n
    case Leaf(c) => KnownOp(c.op)
    case Expr(_, xs) => forall i :: 0 <= i < |xs| ==> KnownOps(xs[i])
    case Opaque => true
  }

  /** Every OPERATOR token carries a comparison spelling. */
  predicate OperatorsSpelled(toks: seq<Token>) {
    forall i :: 0 <= i < |toks| && toks[i].kind == OPERATOR ==> TP.OperatorSpelling(toks[i].text)
  }

  /** A tree of the parser's shape over such tokens has known operators only. */
  lemma {:induction false} ShapedKnownOps(toks: seq<Token>, n: Node)
    requires OperatorsSpelled(toks) && Shaped(toks, n)
    ensures KnownOps(n)
    decreases n
  {
    match n
    case Leaf(c) =>
      if OperatorText(toks, c.op) {
        var i :| 0 <= i < |toks| && toks[i] == Token(OPERATOR, c.op);
        assert toks[i].kind == OPERATOR;
      }
    case Expr(_, xs) =>
      forall i | 0 <= i < |xs| ensures KnownOps(xs[i]) {
        ShapedKnownOps(toks, xs[i]);
      }
    case Opaque =>
  }

  /** From the text of a query to its WHERE tree: every condition's operator
      is IN, LIKE, BETWEEN or one of <=, >=, !=, <>, =, <, >. */
  lemma WhereOperatorsKnown(query: string)
    requires ParseSpec(query).Success? && ParseSpec(query).value.whereExpression.Some?
    ensures KnownOps(ParseSpec(query).value.whereExpression.value)
  {
    var text := ExtractQuery(query);
    var toks := TokenizeSpec(text).value;
    TP.OperatorTokens(text, 0);
    assert OperatorsSpelled(toks);
    WhereShaped(toks);
    ShapedKnownOps(toks, QueryAt(toks).value.0.whereExpression.value);
  }
}
