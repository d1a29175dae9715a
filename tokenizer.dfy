/** QueryTokenizer: the token patterns of the query language, tried in list
    order at each position (first match wins), whitespace dropped.  The
    patterns are the regular expressions of query/parser.py compiled with
    IGNORECASE, written out as matchers over ASCII. */
module QueryTokenizer {
  import opened Wrappers
  import opened Text
  import opened Errors

  /** The token names, in the order the patterns are tried. */
  datatype Kind =
    | SELECT | FROM | WHERE | ORDER | LIMIT | OFFSET | AND | OR | NOT | IN | LIKE
    | BETWEEN | ASC | DESC | IDENTIFIER | NUMBER | STRING | OPERATOR | COMMA
    | LPAREN | RPAREN | WHITESPACE

  datatype Token = Token(kind: Kind, text: string)

  /** The token name as the parser's messages spell it. */
  function KindName(k: Kind): string {
    match k
    case SELECT => "SELECT" case FROM => "FROM" case WHERE => "WHERE"
    case ORDER => "ORDER" case LIMIT => "LIMIT" case OFFSET => "OFFSET"
    case AND => "AND" case OR => "OR" case NOT => "NOT" case IN => "IN"
    case LIKE => "LIKE" case BETWEEN => "BETWEEN" case ASC => "ASC"
    case DESC => "DESC" case IDENTIFIER => "IDENTIFIER" case NUMBER => "NUMBER"
    case STRING => "STRING" case OPERATOR => "OPERATOR" case COMMA => "COMMA"
    case LPAREN => "LPAREN" case RPAREN => "RPAREN" case WHITESPACE => "WHITESPACE"
  }

  // ---------------------------------------------------------------------
  // The regular expressions of TOKEN_PATTERNS

  /** The character classes the patterns use: \s, \d, \w, [a-zA-Z_], one
      character, and [^c]. */
  datatype CharClass = Space | Digit | WordChar | IdentStart | Only(c: char) | Except(c: char)

  predicate InClass(cls: CharClass, c: char) {
    match cls
    case Space => IsSpace(c)
    case Digit => IsDigit(c)
    case WordChar => IsWordChar(c)
    case IdentStart => IsLetter(c) || c == '_'
    case Only(d) => c == d
    case Except(d) => c != d
  }

  /** The regular-expression forms the patterns are built from. */
  datatype Re =
    | WordBoundary                        // \b
    | Text(w: string)                     // literal text, matched ignoring case
    | One(cls: CharClass)                 // one character of the class
    | Run(cls: CharClass, atLeast: nat)   // cls* (atLeast 0) or cls+ (atLeast 1)
    | Opt(r: Re)                          // r?
    | Cat(a: Re, b: Re)                   // ab
    | Alt(a: Re, b: Re)                   // a|b

  datatype Pattern = Pattern(kind: Kind, re: Re)

  function KeywordRe(w: string): Re {
    Cat(WordBoundary, Cat(Text(w), WordBoundary))
  }

  /** '...' or "...": the quote, anything but that quote, the quote. */
  function QuotedRe(c: char): Re {
    Cat(One(Only(c)), Cat(Run(Except(c), 0), One(Only(c))))
  }

  /** \bORDER\s+BY\b */
  const OrderByRe := PhraseRe("ORDER", "BY")

  /** [a-zA-Z_][a-zA-Z0-9_]* */
  const IdentifierRe := Cat(One(IdentStart), Run(WordChar, 0))

  /** -?\d+\.?\d* */
  const NumberRe := Cat(MinusRe, Cat(Run(Digit, 1), FractionRe))
  const MinusRe := Opt(One(Only('-')))
  const FractionRe := Cat(Opt(One(Only('.'))), Run(Digit, 0))

  /** '[^']*'|"[^"]*" */
  const StringRe := Alt(QuotedRe('\''), QuotedRe('"'))

  /** <=|>=|!=|<>|=|<|> */
  const OperatorRe :=
    Alt(Text("<="), Alt(Text(">="), Alt(Text("!="), Alt(Text("<>"), Alt(Text("="), Alt(Text("<"), Text(">")))))))

  /** TOKEN_PATTERNS, in the order they are tried: the keywords, then the rest. */
  const Patterns: seq<Pattern> := KeywordPatterns + OtherPatterns

  const KeywordPatterns: seq<Pattern> := [
    Pattern(SELECT, KeywordRe("SELECT")),
    Pattern(FROM, KeywordRe("FROM")),
    Pattern(WHERE, KeywordRe("WHERE")),
    Pattern(ORDER, OrderByRe),
    Pattern(LIMIT, KeywordRe("LIMIT")),
    Pattern(OFFSET, KeywordRe("OFFSET")),
    Pattern(AND, KeywordRe("AND")),
    Pattern(OR, KeywordRe("OR")),
    Pattern(NOT, KeywordRe("NOT")),
    Pattern(IN, KeywordRe("IN")),
    Pattern(LIKE, KeywordRe("LIKE")),
    Pattern(BETWEEN, KeywordRe("BETWEEN")),
    Pattern(ASC, KeywordRe("ASC")),
    Pattern(DESC, KeywordRe("DESC"))
  ]

  const OtherPatterns: seq<Pattern> := [
    Pattern(IDENTIFIER, IdentifierRe),
    Pattern(NUMBER, NumberRe),
    Pattern(STRING, StringRe),
    Pattern(OPERATOR, OperatorRe),
    Pattern(COMMA, Text(",")),
    Pattern(LPAREN, Text("(")),
    Pattern(RPAREN, Text(")")),
    Pattern(WHITESPACE, Run(Space, 1))
  ]

  /** \b at position p: word-ness differs on its two sides. */
  predicate Boundary(q: string, p: nat)
    requires p <= |q|
  {
    var before := p > 0 && IsWordChar(q[p - 1]);
    var after := p < |q| && IsWordChar(q[p]);
    before != after
  }

  /** The text at pos equals w under ASCII case folding. */
  predicate FoldedAt(q: string, pos: nat, w: string) {
    pos + |w| <= |q| && forall i :: 0 <= i < |w| ==> SameFolded(q[pos + i], w[i])
  }

  /** The length of the run of characters of the class from pos. */
  function RunLength(q: string, pos: nat, cls: CharClass): (n: nat)
    requires pos <= |q|
    ensures pos + n <= |q|
    decreases |q| - pos
  {
    if pos < |q| && InClass(cls, q[pos]) then 1 + RunLength(q, pos + 1, cls) else 0
  }

  /** The run is the longest stretch of the class from pos. */
  lemma {:induction false} RunLengthMeaning(q: string, pos: nat, cls: CharClass)
    requires pos <= |q|
    ensures forall i :: pos <= i < pos + RunLength(q, pos, cls) ==> InClass(cls, q[i])
    ensures pos + RunLength(q, pos, cls) == |q| || !InClass(cls, q[pos + RunLength(q, pos, cls)])
    decreases |q| - pos
  {
    if pos < |q| && InClass(cls, q[pos]) {
      RunLengthMeaning(q, pos + 1, cls);
    }
  }

  /** pattern.match(q, pos): the length of the match at pos, or None.
      Repetition and options are greedy and alternation takes the first
      alternative that matches.  In every pattern of the list a repeated class
      is followed by a character outside it (or by nothing), so giving back
      characters never lets the rest match: the greedy match is the one the
      backtracking engine finds. */
  function MatchRe(re: Re, q: string, pos: nat): (r: Option<nat>)
    requires pos <= |q|
    ensures r.Some? ==> pos + r.value <= |q|
    decreases re, |q| - pos
  {
    match re
    case WordBoundary => if Boundary(q, pos) then Some(0) else None
    case Text(w) => if FoldedAt(q, pos, w) then Some(|w|) else None
    case One(cls) => if pos < |q| && InClass(cls, q[pos]) then Some(1) else None
    case Run(cls, atLeast) =>
      var n := RunLength(q, pos, cls);
      if n >= atLeast then Some(n) else None
    case Opt(r) =>
      var m := MatchRe(r, q, pos);
      if m.Some? then m else Some(0)
    case Cat(a, b) =>
      var m := MatchRe(a, q, pos);
      if m.None? then None
      else
        var m2 := MatchRe(b, q, pos + m.value);
        if m2.None? then None else Some(m.value + m2.value)
    case Alt(a, b) =>
      var m := MatchRe(a, q, pos);
      if m.Some? then m else MatchRe(b, q, pos)
  }

  /** The fewest characters a match of the expression takes. */
  function MinLength(re: Re): nat {
    match re
    case WordBoundary => 0
    case Text(w) => |w|
    case One(_) => 1
    case Run(_, atLeast) => atLeast
    case Opt(_) => 0
    case Cat(a, b) => MinLength(a) + MinLength(b)
    case Alt(a, b) => if MinLength(a) <= MinLength(b) then MinLength(a) else MinLength(b)
  }

  lemma {:induction false} MatchAtLeastMin(re: Re, q: string, pos: nat)
    requires pos <= |q|
    ensures MatchRe(re, q, pos).Some? ==> MatchRe(re, q, pos).value >= MinLength(re)
  {
    match re
    case Opt(r) =>
    case Cat(a, b) =>
      MatchAtLeastMin(a, q, pos);
      if MatchRe(a, q, pos).Some? {
        MatchAtLeastMin(b, q, pos + MatchRe(a, q, pos).value);
      }
    case Alt(a, b) =>
      MatchAtLeastMin(a, q, pos);
      MatchAtLeastMin(b, q, pos);
    case _ =>
  }

  /** No pattern matches the empty string, so the position always advances. */
  predicate NonEmptyPatterns(ps: seq<Pattern>) {
    forall j :: 0 <= j < |ps| ==> MinLength(ps[j].re) >= 1
  }

  lemma KeywordPatternsNonEmpty()
    ensures NonEmptyPatterns(KeywordPatterns)
  {
  }

  lemma OtherPatternsNonEmpty()
    ensures NonEmptyPatterns(OtherPatterns)
  {
  }

  lemma PatternsNonEmpty()
    ensures NonEmptyPatterns(Patterns)
  {
    KeywordPatternsNonEmpty();
    OtherPatternsNonEmpty();
    var k := |KeywordPatterns|;
    forall j | 0 <= j < |Patterns|
      ensures MinLength(Patterns[j].re) >= 1
    {
      if j < k {
        assert Patterns[j] == KeywordPatterns[j];
      } else {
        assert Patterns[j] == OtherPatterns[j - k];
      }
    }
  }

  /** The first of the patterns ps that matches at pos. */
  function FirstMatch(q: string, pos: nat, ps: seq<Pattern>): (r: Option<(Kind, nat)>)
    requires pos <= |q| && NonEmptyPatterns(ps)
    ensures r.Some? ==> 1 <= r.value.1 && pos + r.value.1 <= |q|
  {
    if ps == [] then None
    else
      var m := MatchRe(ps[0].re, q, pos);
      if m.Some? then
        MatchAtLeastMin(ps[0].re, q, pos);
        Some((ps[0].kind, m.value))
      else FirstMatch(q, pos, ps[1..])
  }

  /** The lexeme at pos: its pattern and its length. */
  function Lex(q: string, pos: nat): (r: Option<(Kind, nat)>)
    requires pos <= |q|
    ensures r.Some? ==> 1 <= r.value.1 && pos + r.value.1 <= |q|
  {
    PatternsNonEmpty();
    FirstMatch(q, pos, Patterns)
  }

  // ---------------------------------------------------------------------
  // The scan

  /** The tokens in front of what the rest of the scan produces. */
  function Prepend(ts: seq<Token>, r: Result<seq<Token>, Error>): Result<seq<Token>, Error> {
    match r
    case Failure(e) => Failure(e)
    case Success(rest) => Success(ts + rest)
  }

  /** tokenize(query): the lexemes that are not whitespace. */
  function TokenizeSpec(q: string): Result<seq<Token>, Error> {
    TokensFrom(q, 0)
  }

  /** The lexeme as tokenize keeps it: whitespace is dropped. */
  function Kept(k: Kind, text: string): seq<Token> {
    if k == WHITESPACE then [] else [Token(k, text)]
  }

  /** The non-whitespace lexemes from pos. */
  function TokensFrom(q: string, pos: nat): Result<seq<Token>, Error>
    requires pos <= |q|
    decreases |q| - pos
  {
    if pos == |q| then Success([])
    else
      var m := Lex(q, pos);
      if m.None? then Failure(QueryError(InvalidCharacter(pos, q[pos])))
      else
        var n := m.value.1;
        Prepend(Kept(m.value.0, q[pos..pos + n]), TokensFrom(q, pos + n))
  }

  /** QueryTokenizer.tokenize: the position advances over each match. */
  method Tokenize(q: string) returns (r: Result<seq<Token>, Error>)
    ensures r == TokenizeSpec(q)
  {
    var tokens: seq<Token> := [];
    var pos: nat := 0;
    PrependNothing(TokensFrom(q, 0));
    while pos < |q|
      invariant pos <= |q|
      invariant TokenizeSpec(q) == Prepend(tokens, TokensFrom(q, pos))
      decreases |q| - pos
    {
      var m := MatchAt(q, pos);
      if m.None? {
        NoMatchFails(q, pos);
        PrependFailure(tokens, TokensFrom(q, pos));
        return Failure(QueryError(InvalidCharacter(pos, q[pos])));
      }
      var (kind, len) := m.value;
      Advance(q, tokens, pos, kind, len);
      tokens := tokens + Kept(kind, q[pos..pos + len]);
      pos := pos + len;
    }
    TokensFromEnd(q);
    assert tokens + [] == tokens;
    r := Success(tokens);
  }

  /** The inner loop of tokenize: the patterns in order, the first match taken. */
  method MatchAt(q: string, pos: nat) returns (m: Option<(Kind, nat)>)
    requires pos <= |q|
    ensures m == Lex(q, pos)
  {
    var j := 0;
    PatternsNonEmpty();
    assert Patterns[0..] == Patterns;
    while j < |Patterns|
      invariant j <= |Patterns|
      invariant NonEmptyPatterns(Patterns[j..])
      invariant Lex(q, pos) == FirstMatch(q, pos, Patterns[j..])
      decreases |Patterns| - j
    {
      assert Patterns[j..][0] == Patterns[j];
      assert Patterns[j..][1..] == Patterns[j + 1..];
      var n := MatchRe(Patterns[j].re, q, pos);
      if n.Some? {
        return Some((Patterns[j].kind, n.value));
      }
      j := j + 1;
    }
    return None;
  }

  lemma NoMatchFails(q: string, pos: nat)
    requires pos < |q| && Lex(q, pos).None?
    ensures TokensFrom(q, pos) == Failure(QueryError(InvalidCharacter(pos, q[pos])))
  {
  }

  lemma TokensFromEnd(q: string)
    ensures TokensFrom(q, |q|) == Success([])
  {
  }

  lemma PrependNothing(r: Result<seq<Token>, Error>)
    ensures Prepend([], r) == r
  {
    if r.Success? {
      assert [] + r.value == r.value;
    }
  }

  lemma PrependFailure(ts: seq<Token>, r: Result<seq<Token>, Error>)
    requires r.Failure?
    ensures Prepend(ts, r) == r
  {
  }

  lemma PrependAppend(ts: seq<Token>, xs: seq<Token>, r: Result<seq<Token>, Error>)
    ensures Prepend(ts, Prepend(xs, r)) == Prepend(ts + xs, r)
  {
    if r.Success? {
      assert ts + (xs + r.value) == (ts + xs) + r.value;
    }
  }

  /** The loop invariant of tokenize survives one match. */
  lemma Advance(q: string, tokens: seq<Token>, pos: nat, k: Kind, n: nat)
    requires pos < |q| && Lex(q, pos) == Some((k, n))
    requires TokenizeSpec(q) == Prepend(tokens, TokensFrom(q, pos))
    ensures pos + n <= |q|
    ensures TokenizeSpec(q) == Prepend(tokens + Kept(k, q[pos..pos + n]), TokensFrom(q, pos + n))
  {
    StepTokens(q, pos, k, n);
    PrependAppend(tokens, Kept(k, q[pos..pos + n]), TokensFrom(q, pos + n));
  }

  /** One step of the scan, as the loop takes it. */
  lemma StepTokens(q: string, pos: nat, k: Kind, n: nat)
    requires pos < |q| && Lex(q, pos) == Some((k, n))
    ensures pos + n <= |q|
    ensures TokensFrom(q, pos) == Prepend(Kept(k, q[pos..pos + n]), TokensFrom(q, pos + n))
  {
  }

  // ---------------------------------------------------------------------
  // What tokenize promises

  /** FirstMatch is the first pattern of the list that matches. */
  lemma {:induction false} FirstMatchIsFirst(q: string, pos: nat, ps: seq<Pattern>)
    requires pos <= |q| && NonEmptyPatterns(ps)
    ensures FirstMatch(q, pos, ps).None? <==> forall i :: 0 <= i < |ps| ==> MatchRe(ps[i].re, q, pos).None?
    ensures FirstMatch(q, pos, ps).Some? ==>
      exists i :: 0 <= i < |ps| && MatchRe(ps[i].re, q, pos).Some?
        && FirstMatch(q, pos, ps) == Some((ps[i].kind, MatchRe(ps[i].re, q, pos).value))
        && forall h :: 0 <= h < i ==> MatchRe(ps[h].re, q, pos).None?
  {
    if ps != [] {
      var rest := ps[1..];
      assert NonEmptyPatterns(rest) by {
        forall j | 0 <= j < |rest| ensures MinLength(rest[j].re) >= 1 {
          assert rest[j] == ps[j + 1];
        }
      }
      FirstMatchIsFirst(q, pos, rest);
      if MatchRe(ps[0].re, q, pos).None? {
        forall i | 1 <= i < |ps| ensures ps[i] == rest[i - 1] {
        }
        if FirstMatch(q, pos, rest).Some? {
          var i :| 0 <= i < |rest| && MatchRe(rest[i].re, q, pos).Some?
            && FirstMatch(q, pos, rest) == Some((rest[i].kind, MatchRe(rest[i].re, q, pos).value))
            && forall h :: 0 <= h < i ==> MatchRe(rest[h].re, q, pos).None?;
          assert ps[i + 1] == rest[i];
        }
      }
    }
  }

  /** The patterns are tried in list order at each position and the first match wins. */
  lemma LexIsFirstMatch(q: string, pos: nat)
    requires pos <= |q|
    ensures Lex(q, pos).None? <==> forall i :: 0 <= i < |Patterns| ==> MatchRe(Patterns[i].re, q, pos).None?
    ensures Lex(q, pos).Some? ==>
      exists i :: 0 <= i < |Patterns| && MatchRe(Patterns[i].re, q, pos).Some?
        && Lex(q, pos) == Some((Patterns[i].kind, MatchRe(Patterns[i].re, q, pos).value))
        && forall h :: 0 <= h < i ==> MatchRe(Patterns[h].re, q, pos).None?
  {
    PatternsNonEmpty();
    FirstMatchIsFirst(q, pos, Patterns);
  }

  /** Whitespace is dropped: no token of a successful tokenization is whitespace. */
  lemma {:induction false} NoWhitespaceTokens(q: string, pos: nat)
    requires pos <= |q|
    ensures TokensFrom(q, pos).Success? ==>
      forall i :: 0 <= i < |TokensFrom(q, pos).value| ==> TokensFrom(q, pos).value[i].kind != WHITESPACE
    decreases |q| - pos
  {
    if pos < |q| && Lex(q, pos).Some? {
      var (k, n) := Lex(q, pos).value;
      NoWhitespaceTokens(q, pos + n);
      StepTokens(q, pos, k, n);
    }
  }

  /** The only error is an unmatched character, reported with its position. */
  lemma {:induction false} ErrorNamesPosition(q: string, pos: nat)
    requires pos <= |q|
    ensures TokensFrom(q, pos).Failure? ==>
      exists p :: pos <= p < |q| && Lex(q, p).None?
        && TokensFrom(q, pos).error == QueryError(InvalidCharacter(p, q[p]))
    decreases |q| - pos
  {
    if pos < |q| {
      if Lex(q, pos).None? {
        NoMatchFails(q, pos);
      } else {
        var (k, n) := Lex(q, pos).value;
        ErrorNamesPosition(q, pos + n);
        StepTokens(q, pos, k, n);
      }
    }
  }

  // ---------------------------------------------------------------------
  // The patterns, read back

  /** \bWORD\b: the word, in any case, with a word boundary on both sides. */
  lemma KeywordMeaning(w: string, q: string, pos: nat)
    requires pos <= |q|
    ensures MatchRe(KeywordRe(w), q, pos)
         == if Boundary(q, pos) && FoldedAt(q, pos, w) && Boundary(q, pos + |w|) then Some(|w|) else None
  {
    if Boundary(q, pos) && FoldedAt(q, pos, w) {
      assert MatchRe(Text(w), q, pos) == Some(|w|);
      assert MatchRe(WordBoundary, q, pos + |w|) == if Boundary(q, pos + |w|) then Some(0) else None;
    }
  }

  /** ORDER, at least one whitespace character, BY: one token, boundaries outside. */
  /** A match of length n shifted past a prefix of length k. */
  function After(k: nat, m: Option<nat>): (r: Option<nat>)
    ensures r.Some? <==> m.Some?
    ensures r.Some? ==> r.value == k + m.value
  {
    if m.None? then None else Some(k + m.value)
  }

  lemma BoundaryThen(r: Re, q: string, p: nat)
    requires p <= |q|
    ensures MatchRe(Cat(WordBoundary, r), q, p) == if Boundary(q, p) then MatchRe(r, q, p) else None
  {
    CatStep(WordBoundary, r, q, p);
  }

  lemma TextThen(w: string, r: Re, q: string, p: nat)
    requires p <= |q|
    ensures MatchRe(Cat(Text(w), r), q, p)
         == if FoldedAt(q, p, w) then After(|w|, MatchRe(r, q, p + |w|)) else None
  {
    CatStep(Text(w), r, q, p);
  }

  lemma RunThen(cls: CharClass, k: nat, r: Re, q: string, p: nat)
    requires p <= |q|
    ensures MatchRe(Cat(Run(cls, k), r), q, p)
         == var n := RunLength(q, p, cls);
            if n >= k then After(n, MatchRe(r, q, p + n)) else None
  {
    CatStep(Run(cls, k), r, q, p);
  }

  /** Two words separated by whitespace, between word boundaries. */
  function PhraseRe(w1: string, w2: string): Re {
    Cat(WordBoundary, Cat(Text(w1), Cat(Run(Space, 1), Cat(Text(w2), WordBoundary))))
  }

  /** Where PhraseRe(w1, w2) matches: w1 at a word boundary, whitespace, then w2
      ending at a word boundary. */
  predicate PhraseAt(q: string, pos: nat, w1: string, w2: string)
    requires pos <= |q|
  {
    Boundary(q, pos) && FoldedAt(q, pos, w1)
    && var ws := RunLength(q, pos + |w1|, Space);
       ws >= 1 && FoldedAt(q, pos + |w1| + ws, w2) && Boundary(q, pos + |w1| + ws + |w2|)
  }

  lemma BoundaryWordThen(w: string, r: Re, q: string, pos: nat)
    requires pos <= |q|
    ensures MatchRe(Cat(WordBoundary, Cat(Text(w), r)), q, pos)
         == if Boundary(q, pos) && FoldedAt(q, pos, w) then After(|w|, MatchRe(r, q, pos + |w|)) else None
  {
    BoundaryThen(Cat(Text(w), r), q, pos);
    TextThen(w, r, q, pos);
  }

  lemma WordThenBoundary(w: string, q: string, p: nat)
    requires p <= |q|
    ensures MatchRe(Cat(Text(w), WordBoundary), q, p)
         == if FoldedAt(q, p, w) && Boundary(q, p + |w|) then Some(|w|) else None
  {
    TextThen(w, WordBoundary, q, p);
  }

  lemma SpaceThenWord(w: string, q: string, p: nat)
    requires p <= |q|
    ensures MatchRe(Cat(Run(Space, 1), Cat(Text(w), WordBoundary)), q, p)
         == var ws := RunLength(q, p, Space);
            if ws >= 1 && FoldedAt(q, p + ws, w) && Boundary(q, p + ws + |w|) then Some(ws + |w|) else None
  {
    RunThen(Space, 1, Cat(Text(w), WordBoundary), q, p);
    WordThenBoundary(w, q, p + RunLength(q, p, Space));
  }

  lemma PhraseMeaning(w1: string, w2: string, q: string, pos: nat)
    requires pos <= |q|
    ensures MatchRe(PhraseRe(w1, w2), q, pos)
         == if PhraseAt(q, pos, w1, w2) then Some(|w1| + RunLength(q, pos + |w1|, Space) + |w2|) else None
  {
    BoundaryWordThen(w1, Cat(Run(Space, 1), Cat(Text(w2), WordBoundary)), q, pos);
    if FoldedAt(q, pos, w1) {
      SpaceThenWord(w2, q, pos + |w1|);
    }
  }

  /** NUMBER: an optional minus, at least one digit, then optionally a point and digits. */
  predicate UnsignedNumberText(u: string) {
    exists k :: 1 <= k <= |u| && IsDigits(u[..k]) && (k == |u| || (u[k] == '.' && IsDigits(u[k + 1..])))
  }

  predicate NumberText(t: string) {
    UnsignedNumberText(t) || (|t| >= 1 && t[0] == '-' && UnsignedNumberText(t[1..]))
  }

  lemma NumberMatchShape(q: string, pos: nat)
    requires pos <= |q| && MatchRe(NumberRe, q, pos).Some?
    ensures NumberText(q[pos..pos + MatchRe(NumberRe, q, pos).value])
  {
    var sign, d, dot, e := NumberParts(q, pos);
    NumberTextOf(q, pos, sign, d, dot, e);
  }

  /** The pieces a NUMBER match is made of. */
  /** The optional fraction of a number: a dot, then digits. */
  lemma FractionParts(q: string, p: nat) returns (dot: nat, e: nat)
    requires p <= |q|
    ensures MatchRe(FractionRe, q, p) == Some(dot + e)
    ensures dot == (if p < |q| && q[p] == '.' then 1 else 0)
    ensures e == RunLength(q, p + dot, Digit)
  {
    dot := if p < |q| && q[p] == '.' then 1 else 0;
    assert MatchRe(Opt(One(Only('.'))), q, p) == Some(dot);
    e := RunLength(q, p + dot, Digit);
    CatStep(Opt(One(Only('.'))), Run(Digit, 0), q, p);
  }

  /** The digits and fraction of a number after its sign. */
  lemma UnsignedParts(q: string, p: nat) returns (d: nat, dot: nat, e: nat)
    requires p <= |q|
    ensures MatchRe(Cat(Run(Digit, 1), FractionRe), q, p) == if d >= 1 then Some(d + dot + e) else None
    ensures d == RunLength(q, p, Digit)
    ensures dot == (if p + d < |q| && q[p + d] == '.' then 1 else 0)
    ensures e == RunLength(q, p + d + dot, Digit)
  {
    d := RunLength(q, p, Digit);
    dot, e := FractionParts(q, p + d);
    CatStep(Run(Digit, 1), FractionRe, q, p);
  }

  /** The sign, digits, point and fraction digits NumberRe takes at pos. */
  lemma NumberParts(q: string, pos: nat) returns (sign: nat, d: nat, dot: nat, e: nat)
    requires pos <= |q|
    ensures sign == (if pos < |q| && q[pos] == '-' then 1 else 0)
    ensures d == RunLength(q, pos + sign, Digit)
    ensures dot == (if pos + sign + d < |q| && q[pos + sign + d] == '.' then 1 else 0)
    ensures e == RunLength(q, pos + sign + d + dot, Digit)
    ensures MatchRe(NumberRe, q, pos) == if d >= 1 then Some(sign + d + dot + e) else None
  {
    sign := if pos < |q| && q[pos] == '-' then 1 else 0;
    assert MatchRe(MinusRe, q, pos) == Some(sign);
    d, dot, e := UnsignedParts(q, pos + sign);
    CatStep(MinusRe, Cat(Run(Digit, 1), FractionRe), q, pos);
  }

  /** What the parts say about the characters they cover. */
  lemma NumberPartsText(q: string, pos: nat, sign: nat, d: nat, dot: nat, e: nat)
    requires pos <= |q| && sign == (if pos < |q| && q[pos] == '-' then 1 else 0)
    requires d == RunLength(q, pos + sign, Digit)
    requires dot == (if pos + sign + d < |q| && q[pos + sign + d] == '.' then 1 else 0)
    requires e == RunLength(q, pos + sign + d + dot, Digit)
    ensures pos + sign + d + dot + e <= |q|
    ensures sign == 1 ==> q[pos] == '-'
    ensures forall i :: pos + sign <= i < pos + sign + d ==> IsDigit(q[i])
    ensures dot == 1 ==> q[pos + sign + d] == '.'
    ensures dot == 0 ==> e == 0
    ensures forall i :: pos + sign + d + dot <= i < pos + sign + d + dot + e ==> IsDigit(q[i])
  {
    RunLengthMeaning(q, pos + sign, Digit);
    RunLengthMeaning(q, pos + sign + d + dot, Digit);
  }

  lemma NumberTextOf(q: string, pos: nat, sign: nat, d: nat, dot: nat, e: nat)
    requires pos <= |q| && sign == (if pos < |q| && q[pos] == '-' then 1 else 0)
    requires d == RunLength(q, pos + sign, Digit) && d >= 1
    requires dot == (if pos + sign + d < |q| && q[pos + sign + d] == '.' then 1 else 0)
    requires e == RunLength(q, pos + sign + d + dot, Digit)
    ensures pos + sign + d + dot + e <= |q|
    ensures NumberText(q[pos..pos + sign + d + dot + e])
  {
    NumberPartsText(q, pos, sign, d, dot, e);
    var t := q[pos..pos + sign + d + dot + e];
    var u := t[sign..];
    assert IsDigits(u[..d]);
    if dot == 1 {
      assert u[d] == '.';
      assert IsDigits(u[d + 1..]);
    }
    assert 1 <= d <= |u| && IsDigits(u[..d]) && (d == |u| || (u[d] == '.' && IsDigits(u[d + 1..])));
    if sign == 1 {
      assert t[1..] == u;
    } else {
      assert t == u;
    }
  }

  /** One level of Cat, as MatchRe defines it. */
  lemma CatStep(a: Re, b: Re, q: string, pos: nat)
    requires pos <= |q|
    ensures MatchRe(Cat(a, b), q, pos)
         == (var m := MatchRe(a, q, pos);
             if m.None? then None
             else
               var m2 := MatchRe(b, q, pos + m.value);
               if m2.None? then None else Some(m.value + m2.value))
  {
  }

  /** STRING: a quote, no further quote of the same kind, then that quote. */
  /** A quoted string: the quote, the longest run of other characters, and
      the closing quote, which must be there. */
  lemma QuotedMeaning(c: char, q: string, pos: nat)
    requires pos <= |q|
    ensures MatchRe(QuotedRe(c), q, pos)
         == if pos < |q| && q[pos] == c && pos + 1 + RunLength(q, pos + 1, Except(c)) < |q|
            then Some(RunLength(q, pos + 1, Except(c)) + 2) else None
  {
    var body := Cat(Run(Except(c), 0), One(Only(c)));
    CatStep(One(Only(c)), body, q, pos);
    if pos < |q| && q[pos] == c {
      CatStep(Run(Except(c), 0), One(Only(c)), q, pos + 1);
      RunLengthMeaning(q, pos + 1, Except(c));
    }
  }

  lemma AltStep(a: Re, b: Re, q: string, pos: nat)
    requires pos <= |q|
    ensures MatchRe(Alt(a, b), q, pos)
         == if MatchRe(a, q, pos).Some? then MatchRe(a, q, pos) else MatchRe(b, q, pos)
  {
  }

  lemma StringMatchShape(q: string, pos: nat)
    requires pos <= |q| && MatchRe(StringRe, q, pos).Some?
    ensures var n := MatchRe(StringRe, q, pos).value;
      2 <= n && pos + n <= |q| && (q[pos] == '\'' || q[pos] == '"') && q[pos + n - 1] == q[pos]
      && forall i :: pos < i < pos + n - 1 ==> q[i] != q[pos]
  {
    AltStep(QuotedRe('\''), QuotedRe('"'), q, pos);
    QuotedMeaning('\'', q, pos);
    QuotedMeaning('"', q, pos);
    var c := q[pos];
    RunLengthMeaning(q, pos + 1, Except(c));
  }

  // ---------------------------------------------------------------------
  // Examples

  /** Keywords match in any case. */
  lemma LowerCaseKeyword()
    ensures Lex("select", 0) == Some((SELECT, 6))
  {
  }
}
