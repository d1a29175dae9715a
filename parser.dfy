/** QueryParser: the recursive-descent parser of the query language.  The
    grammar is read off the parser's methods, each one a function from a token
    list and a position to the value it builds and the position after it (or
    the error it raises); the QueryParser class keeps the token list and the
    cursor as fields, and each of its methods is proved to do what the
    function of the same name says. */
module QueryParsing {
  import opened Wrappers
  import opened Text
  import opened Values
  import opened Errors
  import opened QueryAst
  import opened QueryTokenizer

  /** What one parsing step yields: its value and the position after it. */
  type Parse<T> = Result<(T, nat), Error>

  // ---------------------------------------------------------------------
  // @query[...]

  const Marker := "@query["

  /** re.search(r'@query\[(.*)\]', s, IGNORECASE | DOTALL) starts at i. */
  predicate MarkerAt(s: string, i: nat) {
    FoldedAt(s, i, Marker)
  }

  /** The first position at or after i where the marker starts. */
  function FindMarker(s: string, i: nat): (r: Option<nat>)
    ensures r.Some? ==> i <= r.value && MarkerAt(s, r.value)
    ensures r.Some? ==> forall k :: i <= k < r.value ==> !MarkerAt(s, k)
    ensures r.None? ==> forall k :: i <= k ==> !MarkerAt(s, k)
    decreases |s| - i
  {
    if i + |Marker| > |s| then None
    else if MarkerAt(s, i) then Some(i)
    else FindMarker(s, i + 1)
  }

  /** The last index in [lo, hi) holding c. */
  function LastIndex(s: string, c: char, lo: nat, hi: nat): (r: Option<nat>)
    requires hi <= |s|
    ensures r.Some? ==> lo <= r.value < hi && s[r.value] == c
    ensures r.Some? ==> forall k :: r.value < k < hi ==> s[k] != c
    ensures r.None? ==> forall k :: lo <= k < hi ==> s[k] != c
    decreases hi
  {
    if hi <= lo then None
    else if s[hi - 1] == c then Some(hi - 1)
    else LastIndex(s, c, lo, hi - 1)
  }

  /** The query inside @query[...] when there is one (from the first marker to
      the last closing bracket after it: `.*` is greedy and spans lines), the
      whole text otherwise. */
  function ExtractQuery(s: string): string {
    match FindMarker(s, 0)
    case None => s
    case Some(i) =>
      match LastIndex(s, ']', i + |Marker|, |s|)
      case None => s
      case Some(j) => s[i + |Marker|..j]
  }

  // ---------------------------------------------------------------------
  // _current, _peek, _consume

  function CurrentAt(toks: seq<Token>, p: nat): Option<Token> {
    if p < |toks| then Some(toks[p]) else None
  }

  predicate PeekAt(toks: seq<Token>, p: nat, k: Kind) {
    p < |toks| && toks[p].kind == k
  }

  /** _consume(k): the token's text and one position on, or
      "Expected k, got <kind or EOF>". */
  function ConsumeAt(toks: seq<Token>, p: nat, k: Kind): (r: Parse<string>)
    ensures r.Success? <==> PeekAt(toks, p, k)
    ensures r.Success? ==> r.value == (toks[p].text, p + 1)
  {
    match CurrentAt(toks, p)
    case Some(t) =>
      if t.kind == k then Success((t.text, p + 1))
      else Failure(QueryError(Expected(KindName(k), Some(KindName(t.kind)))))
    case None => Failure(QueryError(Expected(KindName(k), None)))
  }

  // ---------------------------------------------------------------------
  // _parse_value

  /** value[1:-1] */
  function Unquote(t: string): (r: string)
    ensures |t| >= 2 ==> r == t[1..|t| - 1]
  {
    if |t| >= 2 then t[1..|t| - 1] else []
  }

  /** float(t) if '.' in t else int(t); a text Python rejects is a ValueError. */
  function NumberValue(t: string): Result<Value, Error> {
    if '.' in t then
      match ParseDecimal(t)
      case Some((m, e)) => Success(Float(m, e))
      case None => Failure(ValueError)
    else
      match ParseInt(t)
      case Some(i) => Success(Int(i))
      case None => Failure(ValueError)
  }

  /** An identifier in value position: TRUE, FALSE and NULL in any case, else the text. */
  function IdentifierValue(t: string): Value {
    var u := UpperString(t);
    if u == "TRUE" then Bool(true)
    else if u == "FALSE" then Bool(false)
    else if u == "NULL" then Null
    else Str(t)
  }

  function ValueAt(toks: seq<Token>, p: nat): (r: Parse<Value>)
    ensures r.Success? ==> p < |toks| && r.value.1 == p + 1
  {
    if PeekAt(toks, p, STRING) then Success((Str(Unquote(toks[p].text)), p + 1))
    else if PeekAt(toks, p, NUMBER) then
      var v :- NumberValue(toks[p].text);
      Success((v, p + 1))
    else if PeekAt(toks, p, IDENTIFIER) then Success((IdentifierValue(toks[p].text), p + 1))
    else Failure(QueryError(ExpectedValue))
  }

  // ---------------------------------------------------------------------
  // _parse_special_condition

  /** The `, value` repetitions of an IN list. */
  function ValuesRest(toks: seq<Token>, p: nat, acc: seq<Value>): (r: Parse<seq<Value>>)
    requires p <= |toks|
    ensures r.Success? ==> p <= r.value.1 <= |toks| && |r.value.0| >= |acc|
    decreases |toks| - p
  {
    if PeekAt(toks, p, COMMA) then
      var v :- ValueAt(toks, p + 1);
      ValuesRest(toks, v.1, acc + [v.0])
    else Success((acc, p))
  }

  /** `( value, ... )` after IN. */
  function InAt(toks: seq<Token>, p: nat, field: string): (r: Parse<Condition>)
    requires p <= |toks|
    ensures r.Success? ==> p < r.value.1 <= |toks|
  {
    var open :- ConsumeAt(toks, p, LPAREN);
    var first :- ValueAt(toks, open.1);
    var rest :- ValuesRest(toks, first.1, [first.0]);
    var close :- ConsumeAt(toks, rest.1, RPAREN);
    Success((Condition(field, "IN", Arr(rest.0), Null), close.1))
  }

  function SpecialAt(toks: seq<Token>, p: nat, field: string): (r: Parse<Condition>)
    requires p <= |toks|
    ensures r.Success? ==> p < r.value.1 <= |toks|
  {
    if PeekAt(toks, p, IN) then InAt(toks, p + 1, field)
    else if PeekAt(toks, p, LIKE) then LikeAt(toks, p + 1, field)
    else if PeekAt(toks, p, BETWEEN) then BetweenAt(toks, p + 1, field)
    else Failure(QueryError(InvalidSpecialCondition))
  }

  /** The pattern after LIKE. */
  function LikeAt(toks: seq<Token>, p: nat, field: string): (r: Parse<Condition>)
    ensures r.Success? ==> p < r.value.1 <= |toks|
  {
    var v :- ValueAt(toks, p);
    Success((Condition(field, "LIKE", v.0, Null), v.1))
  }

  /** `low AND high` after BETWEEN. */
  function BetweenAt(toks: seq<Token>, p: nat, field: string): (r: Parse<Condition>)
    ensures r.Success? ==> p < r.value.1 <= |toks|
  {
    var low :- ValueAt(toks, p);
    var mid :- ConsumeAt(toks, low.1, AND);
    var high :- ValueAt(toks, mid.1);
    Success((Condition(field, "BETWEEN", low.0, high.0), high.1))
  }

  // ---------------------------------------------------------------------
  // _parse_or_expression, _parse_and_expression, _parse_condition

  /** The node an operator builds over the operands parsed. */
  function Combine(op: string, r: Parse<seq<Node>>): (s: Parse<Node>)
    ensures s.Success? <==> r.Success?
    ensures s.Success? ==> s.value == (Expr(op, r.value.0), r.value.1)
  {
    var all :- r;
    Success((Expr(op, all.0), all.1))
  }

  function OrAt(toks: seq<Token>, p: nat): (r: Parse<Node>)
    requires p <= |toks|
    ensures r.Success? ==> p < r.value.1 <= |toks|
    decreases |toks| - p, 4
  {
    var left :- AndAt(toks, p);
    if PeekAt(toks, left.1, OR) then
      Combine("OR", OrRest(toks, left.1, [left.0]))
    else Success(left)
  }

  /** The `OR and-expression` repetitions. */
  function OrRest(toks: seq<Token>, p: nat, acc: seq<Node>): (r: Parse<seq<Node>>)
    requires p <= |toks|
    ensures r.Success? ==> p <= r.value.1 <= |toks| && |r.value.0| >= |acc|
    decreases |toks| - p, 0
  {
    if PeekAt(toks, p, OR) then
      var next :- AndAt(toks, p + 1);
      OrRest(toks, next.1, acc + [next.0])
    else Success((acc, p))
  }

  function AndAt(toks: seq<Token>, p: nat): (r: Parse<Node>)
    requires p <= |toks|
    ensures r.Success? ==> p < r.value.1 <= |toks|
    decreases |toks| - p, 3
  {
    var first :- CondAt(toks, p);
    Combine("AND", AndRest(toks, first.1, [first.0]))
  }

  /** The `AND condition` repetitions. */
  function AndRest(toks: seq<Token>, p: nat, acc: seq<Node>): (r: Parse<seq<Node>>)
    requires p <= |toks|
    ensures r.Success? ==> p <= r.value.1 <= |toks| && |r.value.0| >= |acc|
    decreases |toks| - p, 0
  {
    if PeekAt(toks, p, AND) then
      var next :- CondAt(toks, p + 1);
      AndRest(toks, next.1, acc + [next.0])
    else Success((acc, p))
  }

  function CondAt(toks: seq<Token>, p: nat): (r: Parse<Node>)
    requires p <= |toks|
    ensures r.Success? ==> p < r.value.1 <= |toks|
    decreases |toks| - p, 2
  {
    if PeekAt(toks, p, LPAREN) then GroupAt(toks, p)
    else if PeekAt(toks, p, NOT) then NotAt(toks, p)
    else FieldConditionAt(toks, p)
  }

  /** `( or-expression )`: the inner expression itself. */
  function GroupAt(toks: seq<Token>, p: nat): (r: Parse<Node>)
    requires p <= |toks|
    ensures r.Success? ==> p < r.value.1 <= |toks|
    decreases |toks| - p, 1
  {
    var open :- ConsumeAt(toks, p, LPAREN);
    var inner :- OrAt(toks, open.1);
    var close :- ConsumeAt(toks, inner.1, RPAREN);
    Success((inner.0, close.1))
  }

  /** `NOT condition`: a NOT node over the one condition that follows. */
  function NotAt(toks: seq<Token>, p: nat): (r: Parse<Node>)
    requires p <= |toks|
    ensures r.Success? ==> p < r.value.1 <= |toks|
    decreases |toks| - p, 1
  {
    var kw :- ConsumeAt(toks, p, NOT);
    var inner :- CondAt(toks, kw.1);
    Success((Expr("NOT", [inner.0]), inner.1))
  }

  /** `field op value`, or a field followed by IN, LIKE or BETWEEN. */
  function FieldConditionAt(toks: seq<Token>, p: nat): (r: Parse<Node>)
    requires p <= |toks|
    ensures r.Success? ==> p < r.value.1 <= |toks|
  {
    var field :- ConsumeAt(toks, p, IDENTIFIER);
    if PeekAt(toks, field.1, IN) || PeekAt(toks, field.1, LIKE) || PeekAt(toks, field.1, BETWEEN) then
      var c :- SpecialAt(toks, field.1, field.0);
      Success((Leaf(c.0), c.1))
    else
      var op :- ConsumeAt(toks, field.1, OPERATOR);
      var v :- ValueAt(toks, op.1);
      Success((Leaf(Condition(field.0, op.0, v.0, Null)), v.1))
  }

  // ---------------------------------------------------------------------
  // The clauses

  /** The `, field` repetitions of a SELECT list. */
  function FieldsRest(toks: seq<Token>, p: nat, acc: seq<string>): (r: Parse<seq<string>>)
    requires p <= |toks|
    ensures r.Success? ==> p <= r.value.1 <= |toks| && |r.value.0| >= |acc|
    decreases |toks| - p
  {
    if PeekAt(toks, p, COMMA) then
      var f :- ConsumeAt(toks, p + 1, IDENTIFIER);
      FieldsRest(toks, f.1, acc + [f.0])
    else Success((acc, p))
  }

  function SelectAt(toks: seq<Token>, p: nat): (r: Parse<seq<string>>)
    requires p <= |toks|
    ensures r.Success? ==> p < r.value.1 <= |toks|
  {
    var kw :- ConsumeAt(toks, p, SELECT);
    var first :- ConsumeAt(toks, kw.1, IDENTIFIER);
    FieldsRest(toks, first.1, [first.0])
  }

  function WhereAt(toks: seq<Token>, p: nat): (r: Parse<Node>)
    requires p <= |toks|
    ensures r.Success? ==> p < r.value.1 <= |toks|
  {
    var kw :- ConsumeAt(toks, p, WHERE);
    OrAt(toks, kw.1)
  }

  function OrderByAt(toks: seq<Token>, p: nat): (r: Parse<(string, SortOrder)>)
    requires p <= |toks|
    ensures r.Success? ==> p < r.value.1 <= |toks|
  {
    var kw :- ConsumeAt(toks, p, ORDER);
    var field :- ConsumeAt(toks, kw.1, IDENTIFIER);
    if PeekAt(toks, field.1, ASC) then Success(((field.0, Asc), field.1 + 1))
    else if PeekAt(toks, field.1, DESC) then Success(((field.0, Desc), field.1 + 1))
    else Success(((field.0, Asc), field.1))
  }

  /** LIMIT n or OFFSET n: the keyword, a NUMBER, and int() of its text. */
  function CountAt(toks: seq<Token>, p: nat, keyword: Kind): (r: Parse<int>)
    requires p <= |toks|
    ensures r.Success? ==> p < r.value.1 <= |toks|
  {
    var kw :- ConsumeAt(toks, p, keyword);
    var n :- ConsumeAt(toks, kw.1, NUMBER);
    match ParseInt(n.0)
    case Some(i) => Success((i, n.1))
    case None => Failure(ValueError)
  }

  /** An optional clause that is there. */
  function Present<T>(r: Parse<T>): (s: Parse<Option<T>>)
    ensures s.Success? <==> r.Success?
    ensures s.Success? ==> s.value == (Some(r.value.0), r.value.1)
    ensures s.Failure? ==> s.error == r.error
  {
    match r
    case Success((v, p)) => Success((Some(v), p))
    case Failure(e) => Failure(e)
  }

  // Each clause is parsed only when its keyword is next.

  function OptionalSelectAt(toks: seq<Token>, p: nat): (r: Parse<Option<seq<string>>>)
    requires p <= |toks|
    ensures r.Success? ==> p <= r.value.1 <= |toks|
  {
    if PeekAt(toks, p, SELECT) then Present(SelectAt(toks, p)) else Success((None, p))
  }

  function OptionalWhereAt(toks: seq<Token>, p: nat): (r: Parse<Option<Node>>)
    requires p <= |toks|
    ensures r.Success? ==> p <= r.value.1 <= |toks|
  {
    if PeekAt(toks, p, WHERE) then Present(WhereAt(toks, p)) else Success((None, p))
  }

  function OptionalOrderByAt(toks: seq<Token>, p: nat): (r: Parse<Option<(string, SortOrder)>>)
    requires p <= |toks|
    ensures r.Success? ==> p <= r.value.1 <= |toks|
  {
    if PeekAt(toks, p, ORDER) then Present(OrderByAt(toks, p)) else Success((None, p))
  }

  function OptionalLimitAt(toks: seq<Token>, p: nat): (r: Parse<Option<int>>)
    requires p <= |toks|
    ensures r.Success? ==> p <= r.value.1 <= |toks|
  {
    if PeekAt(toks, p, LIMIT) then Present(CountAt(toks, p, LIMIT)) else Success((None, p))
  }

  /** An absent OFFSET is 0. */
  function OptionalOffsetAt(toks: seq<Token>, p: nat): (r: Parse<int>)
    requires p <= |toks|
    ensures r.Success? ==> p <= r.value.1 <= |toks|
  {
    if PeekAt(toks, p, OFFSET) then CountAt(toks, p, OFFSET) else Success((0, p))
  }

  /** parse() on a token list: the table, then SELECT, WHERE, ORDER BY, LIMIT
      and OFFSET, each only if its keyword is next; whatever follows is left
      unread.  The position is where parsing stopped. */
  function QueryAt(toks: seq<Token>): (r: Parse<ParsedQuery>)
    ensures r.Success? ==> 0 < r.value.1 <= |toks|
  {
    var table :- ConsumeAt(toks, 0, IDENTIFIER);
    var sel :- OptionalSelectAt(toks, table.1);
    var wh :- OptionalWhereAt(toks, sel.1);
    var ob :- OptionalOrderByAt(toks, wh.1);
    var lim :- OptionalLimitAt(toks, ob.1);
    var off :- OptionalOffsetAt(toks, lim.1);
    var orderBy := if ob.0.Some? then Some(ob.0.value.0) else None;
    var direction := if ob.0.Some? then ob.0.value.1 else Asc;
    Success((ParsedQuery(table.0, sel.0, wh.0, orderBy, direction, lim.0, off.0), off.1))
  }

  /** QueryParser.parse(query_string). */
  function ParseSpec(query: string): Result<ParsedQuery, Error> {
    var toks :- TokenizeSpec(ExtractQuery(query));
    var q :- QueryAt(toks);
    Success(q.0)
  }

  /** A method's result and the parser's position, as one Parse value. */
  function Outcome<T>(r: Result<T, Error>, p: nat): Parse<T> {
    match r
    case Success(v) => Success((v, p))
    case Failure(e) => Failure(e)
  }

  // ---------------------------------------------------------------------
  // The parser object

  class QueryParser {
    var tokens: seq<Token>
    var pos: nat

    constructor()
      ensures tokens == [] && pos == 0
    {
      tokens := [];
      pos := 0;
    }

    predicate Valid()
      reads this
    {
      pos <= |tokens|
    }

    function Current(): Option<Token>
      reads this
    {
      CurrentAt(tokens, pos)
    }

    predicate Peek(k: Kind)
      reads this
    {
      PeekAt(tokens, pos, k)
    }

    method Consume(k: Kind) returns (r: Result<string, Error>)
      requires Valid()
      modifies this
      ensures Valid() && tokens == old(tokens)
      ensures Outcome(r, pos) == ConsumeAt(tokens, old(pos), k)
      ensures r.Failure? ==> pos == old(pos)
    {
      var current := Current();
      if current.None? || current.value.kind != k {
        var got := if current.Some? then Some(KindName(current.value.kind)) else None;
        return Failure(QueryError(Expected(KindName(k), got)));
      }
      pos := pos + 1;
      return Success(current.value.text);
    }

    method ParseTable() returns (r: Result<string, Error>)
      requires Valid()
      modifies this
      ensures Valid() && tokens == old(tokens)
      ensures Outcome(r, pos) == ConsumeAt(tokens, old(pos), IDENTIFIER)
    {
      r := Consume(IDENTIFIER);
    }

    method ParseSelect() returns (r: Result<seq<string>, Error>)
      requires Valid()
      modifies this
      ensures Valid() && tokens == old(tokens)
      ensures Outcome(r, pos) == SelectAt(tokens, old(pos))
    {
      var kw := Consume(SELECT);
      if kw.Failure? {
        return Failure(kw.error);
      }
      var first := Consume(IDENTIFIER);
      if first.Failure? {
        return Failure(first.error);
      }
      r := ParseMoreFields([first.value]);
    }

    /** The `, field` loop of ParseSelect, after the fields read so far. */
    method ParseMoreFields(start: seq<string>) returns (r: Result<seq<string>, Error>)
      requires Valid()
      modifies this
      ensures Valid() && tokens == old(tokens)
      ensures Outcome(r, pos) == FieldsRest(tokens, old(pos), start)
    {
      var fields := start;
      while Peek(COMMA)
        invariant Valid() && tokens == old(tokens)
        invariant FieldsRest(tokens, old(pos), start) == FieldsRest(tokens, pos, fields)
        decreases |tokens| - pos
      {
        var comma := Consume(COMMA);
        var f := Consume(IDENTIFIER);
        if f.Failure? {
          return Failure(f.error);
        }
        fields := fields + [f.value];
      }
      return Success(fields);
    }

    method ParseWhere() returns (r: Result<Node, Error>)
      requires Valid()
      modifies this
      ensures Valid() && tokens == old(tokens)
      ensures Outcome(r, pos) == WhereAt(tokens, old(pos))
    {
      var kw := Consume(WHERE);
      if kw.Failure? {
        return Failure(kw.error);
      }
      r := ParseOr();
    }

    method ParseOr() returns (r: Result<Node, Error>)
      requires Valid()
      modifies this
      ensures Valid() && tokens == old(tokens)
      ensures Outcome(r, pos) == OrAt(tokens, old(pos))
      decreases |tokens| - pos, 4
    {
      var left := ParseAnd();
      if left.Failure? || !Peek(OR) {
        return left;
      }
      var conditions := ParseMoreOrOperands([left.value]);
      if conditions.Failure? {
        return Failure(conditions.error);
      }
      return Success(Expr("OR", conditions.value));
    }

    /** The `OR and-expression` loop of ParseOr, after the operands read so far. */
    method ParseMoreOrOperands(start: seq<Node>) returns (r: Result<seq<Node>, Error>)
      requires Valid()
      modifies this
      ensures Valid() && tokens == old(tokens)
      ensures Outcome(r, pos) == OrRest(tokens, old(pos), start)
      decreases |tokens| - pos, 0
    {
      var conditions := start;
      while Peek(OR)
        invariant Valid() && tokens == old(tokens)
        invariant OrRest(tokens, old(pos), start) == OrRest(tokens, pos, conditions)
        decreases |tokens| - pos
      {
        var kw := Consume(OR);
        var next := ParseAnd();
        if next.Failure? {
          return Failure(next.error);
        }
        conditions := conditions + [next.value];
      }
      return Success(conditions);
    }

    method ParseAnd() returns (r: Result<Node, Error>)
      requires Valid()
      modifies this
      ensures Valid() && tokens == old(tokens)
      ensures Outcome(r, pos) == AndAt(tokens, old(pos))
      decreases |tokens| - pos, 3
    {
      var first := ParseCondition();
      if first.Failure? {
        return first;
      }
      var conditions := ParseMoreAndOperands([first.value]);
      if conditions.Failure? {
        return Failure(conditions.error);
      }
      return Success(Expr("AND", conditions.value));
    }

    /** The `AND condition` loop of ParseAnd, after the operands read so far. */
    method ParseMoreAndOperands(start: seq<Node>) returns (r: Result<seq<Node>, Error>)
      requires Valid()
      modifies this
      ensures Valid() && tokens == old(tokens)
      ensures Outcome(r, pos) == AndRest(tokens, old(pos), start)
      decreases |tokens| - pos, 0
    {
      var conditions := start;
      while Peek(AND)
        invariant Valid() && tokens == old(tokens)
        invariant AndRest(tokens, old(pos), start) == AndRest(tokens, pos, conditions)
        decreases |tokens| - pos
      {
        var kw := Consume(AND);
        var next := ParseCondition();
        if next.Failure? {
          return Failure(next.error);
        }
        conditions := conditions + [next.value];
      }
      return Success(conditions);
    }

    method ParseCondition() returns (r: Result<Node, Error>)
      requires Valid()
      modifies this
      ensures Valid() && tokens == old(tokens)
      ensures Outcome(r, pos) == CondAt(tokens, old(pos))
      decreases |tokens| - pos, 2
    {
      if Peek(LPAREN) {
        var open := Consume(LPAREN);
        var inner := ParseOr();
        if inner.Failure? {
          return inner;
        }
        var close := Consume(RPAREN);
        if close.Failure? {
          return Failure(close.error);
        }
        return inner;
      }
      if Peek(NOT) {
        var kw := Consume(NOT);
        var inner := ParseCondition();
        if inner.Failure? {
          return inner;
        }
        return Success(Expr("NOT", [inner.value]));
      }
      var field := Consume(IDENTIFIER);
      if field.Failure? {
        return Failure(field.error);
      }
      if Peek(IN) || Peek(LIKE) || Peek(BETWEEN) {
        var c := ParseSpecialCondition(field.value);
        if c.Failure? {
          return Failure(c.error);
        }
        return Success(Leaf(c.value));
      }
      var op := Consume(OPERATOR);
      if op.Failure? {
        return Failure(op.error);
      }
      var value := ParseValue();
      if value.Failure? {
        return Failure(value.error);
      }
      return Success(Leaf(Condition(field.value, op.value, value.value, Null)));
    }

    method ParseSpecialCondition(field: string) returns (r: Result<Condition, Error>)
      requires Valid()
      modifies this
      ensures Valid() && tokens == old(tokens)
      ensures Outcome(r, pos) == SpecialAt(tokens, old(pos), field)
    {
      if Peek(IN) {
        var kw := Consume(IN);
        assert pos == old(pos) + 1;
        r := ParseInList(field);
      } else if Peek(LIKE) {
        var kw := Consume(LIKE);
        assert pos == old(pos) + 1;
        r := ParseLikePattern(field);
      } else if Peek(BETWEEN) {
        var kw := Consume(BETWEEN);
        assert pos == old(pos) + 1;
        r := ParseBetweenRange(field);
      } else {
        r := Failure(QueryError(InvalidSpecialCondition));
      }
    }

    /** The LIKE branch of ParseSpecialCondition, after the keyword. */
    method ParseLikePattern(field: string) returns (r: Result<Condition, Error>)
      requires Valid()
      modifies this
      ensures Valid() && tokens == old(tokens)
      ensures Outcome(r, pos) == LikeAt(tokens, old(pos), field)
    {
      var pattern := ParseValue();
      if pattern.Failure? {
        return Failure(pattern.error);
      }
      return Success(Condition(field, "LIKE", pattern.value, Null));
    }

    /** The IN branch of ParseSpecialCondition, after the keyword. */
    method ParseInList(field: string) returns (r: Result<Condition, Error>)
      requires Valid()
      modifies this
      ensures Valid() && tokens == old(tokens)
      ensures Outcome(r, pos) == InAt(tokens, old(pos), field)
    {
      var open := Consume(LPAREN);
      if open.Failure? {
        return Failure(open.error);
      }
      var first := ParseValue();
      if first.Failure? {
        return Failure(first.error);
      }
      var values := ParseMoreValues([first.value]);
      if values.Failure? {
        return Failure(values.error);
      }
      var close := Consume(RPAREN);
      if close.Failure? {
        return Failure(close.error);
      }
      return Success(Condition(field, "IN", Arr(values.value), Null));
    }

    /** The `, value` loop of an IN list, after the values read so far. */
    method ParseMoreValues(start: seq<Value>) returns (r: Result<seq<Value>, Error>)
      requires Valid()
      modifies this
      ensures Valid() && tokens == old(tokens)
      ensures Outcome(r, pos) == ValuesRest(tokens, old(pos), start)
    {
      var values := start;
      while Peek(COMMA)
        invariant Valid() && tokens == old(tokens)
        invariant ValuesRest(tokens, old(pos), start) == ValuesRest(tokens, pos, values)
        decreases |tokens| - pos
      {
        var comma := Consume(COMMA);
        var v := ParseValue();
        if v.Failure? {
          return Failure(v.error);
        }
        values := values + [v.value];
      }
      return Success(values);
    }

    /** The BETWEEN branch of ParseSpecialCondition, after the keyword. */
    method ParseBetweenRange(field: string) returns (r: Result<Condition, Error>)
      requires Valid()
      modifies this
      ensures Valid() && tokens == old(tokens)
      ensures Outcome(r, pos) == BetweenAt(tokens, old(pos), field)
    {
      var low := ParseValue();
      if low.Failure? {
        return Failure(low.error);
      }
      var mid := Consume(AND);
      if mid.Failure? {
        return Failure(mid.error);
      }
      var high := ParseValue();
      if high.Failure? {
        return Failure(high.error);
      }
      return Success(Condition(field, "BETWEEN", low.value, high.value));
    }

    method ParseValue() returns (r: Result<Value, Error>)
      requires Valid()
      modifies this
      ensures Valid() && tokens == old(tokens)
      ensures Outcome(r, pos) == ValueAt(tokens, old(pos))
    {
      if Peek(STRING) {
        var text := Consume(STRING);
        return Success(Str(Unquote(text.value)));
      } else if Peek(NUMBER) {
        var text := Consume(NUMBER);
        r := NumberValue(text.value);
      } else if Peek(IDENTIFIER) {
        var text := Consume(IDENTIFIER);
        return Success(IdentifierValue(text.value));
      } else {
        return Failure(QueryError(ExpectedValue));
      }
    }

    method ParseOrderBy() returns (r: Result<(string, SortOrder), Error>)
      requires Valid()
      modifies this
      ensures Valid() && tokens == old(tokens)
      ensures Outcome(r, pos) == OrderByAt(tokens, old(pos))
    {
      var kw := Consume(ORDER);
      if kw.Failure? {
        return Failure(kw.error);
      }
      var field := Consume(IDENTIFIER);
      if field.Failure? {
        return Failure(field.error);
      }
      var direction := Asc;
      if Peek(ASC) {
        var asc := Consume(ASC);
      } else if Peek(DESC) {
        var desc := Consume(DESC);
        direction := Desc;
      }
      return Success((field.value, direction));
    }

    method ParseLimit() returns (r: Result<int, Error>)
      requires Valid()
      modifies this
      ensures Valid() && tokens == old(tokens)
      ensures Outcome(r, pos) == CountAt(tokens, old(pos), LIMIT)
    {
      r := ParseCount(LIMIT);
    }

    method ParseOffset() returns (r: Result<int, Error>)
      requires Valid()
      modifies this
      ensures Valid() && tokens == old(tokens)
      ensures Outcome(r, pos) == CountAt(tokens, old(pos), OFFSET)
    {
      r := ParseCount(OFFSET);
    }

    method ParseCount(keyword: Kind) returns (r: Result<int, Error>)
      requires Valid()
      modifies this
      ensures Valid() && tokens == old(tokens)
      ensures Outcome(r, pos) == CountAt(tokens, old(pos), keyword)
    {
      var kw := Consume(keyword);
      if kw.Failure? {
        return Failure(kw.error);
      }
      var value := Consume(NUMBER);
      if value.Failure? {
        return Failure(value.error);
      }
      match ParseInt(value.value)
      case Some(i) => return Success(i);
      case None => return Failure(ValueError);
    }

    method Parse(query: string) returns (r: Result<ParsedQuery, Error>)
      modifies this
      ensures r == ParseSpec(query)
    {
      var lexed := Tokenize(ExtractQuery(query));
      if lexed.Failure? {
        return Failure(lexed.error);
      }
      tokens := lexed.value;
      r := ParseClauses();
    }

    /** The clauses of parse(), from the first token. */
    method ParseClauses() returns (r: Result<ParsedQuery, Error>)
      modifies this
      ensures Valid() && tokens == old(tokens)
      ensures Outcome(r, pos) == QueryAt(tokens)
    {
      pos := 0;
      var table := ParseTable();
      if table.Failure? {
        return Failure(table.error);
      }
      var selectFields := OptionalSelect();
      if selectFields.Failure? {
        return Failure(selectFields.error);
      }
      var whereExpression := OptionalWhere();
      if whereExpression.Failure? {
        return Failure(whereExpression.error);
      }
      var ordering := OptionalOrderBy();
      if ordering.Failure? {
        return Failure(ordering.error);
      }
      var limit := OptionalLimit();
      if limit.Failure? {
        return Failure(limit.error);
      }
      var offset := OptionalOffset();
      if offset.Failure? {
        return Failure(offset.error);
      }
      var orderBy := if ordering.value.Some? then Some(ordering.value.value.0) else None;
      var orderDirection := if ordering.value.Some? then ordering.value.value.1 else Asc;
      return Success(ParsedQuery(table.value, selectFields.value, whereExpression.value, orderBy, orderDirection, limit.value, offset.value));
    }

    method OptionalSelect() returns (r: Result<Option<seq<string>>, Error>)
      requires Valid()
      modifies this
      ensures Valid() && tokens == old(tokens)
      ensures Outcome(r, pos) == OptionalSelectAt(tokens, old(pos))
    {
      if Peek(SELECT) {
        var c := ParseSelect();
        if c.Failure? {
          return Failure(c.error);
        }
        return Success(Some(c.value));
      }
      return Success(None);
    }

    method OptionalWhere() returns (r: Result<Option<Node>, Error>)
      requires Valid()
      modifies this
      ensures Valid() && tokens == old(tokens)
      ensures Outcome(r, pos) == OptionalWhereAt(tokens, old(pos))
    {
      if Peek(WHERE) {
        var c := ParseWhere();
        if c.Failure? {
          return Failure(c.error);
        }
        return Success(Some(c.value));
      }
      return Success(None);
    }

    method OptionalOrderBy() returns (r: Result<Option<(string, SortOrder)>, Error>)
      requires Valid()
      modifies this
      ensures Valid() && tokens == old(tokens)
      ensures Outcome(r, pos) == OptionalOrderByAt(tokens, old(pos))
    {
      if Peek(ORDER) {
        var c := ParseOrderBy();
        if c.Failure? {
          return Failure(c.error);
        }
        return Success(Some(c.value));
      }
      return Success(None);
    }

    method OptionalLimit() returns (r: Result<Option<int>, Error>)
      requires Valid()
      modifies this
      ensures Valid() && tokens == old(tokens)
      ensures Outcome(r, pos) == OptionalLimitAt(tokens, old(pos))
    {
      if Peek(LIMIT) {
        var c := ParseLimit();
        if c.Failure? {
          return Failure(c.error);
        }
        return Success(Some(c.value));
      }
      return Success(None);
    }

    method OptionalOffset() returns (r: Result<int, Error>)
      requires Valid()
      modifies this
      ensures Valid() && tokens == old(tokens)
      ensures Outcome(r, pos) == OptionalOffsetAt(tokens, old(pos))
    {
      if Peek(OFFSET) {
        var c := ParseOffset();
        if c.Failure? {
          return Failure(c.error);
        }
        return Success(c.value);
      }
      return Success(0);
    }
  }
}
