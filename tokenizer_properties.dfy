/** What tokenize promises about the tokens it returns: OPERATOR tokens
    carry one of the seven operator spellings, every keyword is recognised
    in any casing, and words that are no keyword (TRUE, FALSE, NULL among
    them) are identifiers. */
module TokenizerProperties {
  import opened Wrappers
  import opened Text
  import opened Errors
  import opened QueryTokenizer

  // ---------------------------------------------------------------------
  // The pattern list, generically

  /** Patterns that all fail at pos leave the match to the ones after them. */
  lemma {:induction false} FirstMatchAt(q: string, pos: nat, ps: seq<Pattern>, i: nat, n: nat)
    requires pos <= |q| && NonEmptyPatterns(ps) && i < |ps|
    requires forall h :: 0 <= h < i ==> MatchRe(ps[h].re, q, pos).None?
    requires MatchRe(ps[i].re, q, pos) == Some(n)
    ensures FirstMatch(q, pos, ps) == Some((ps[i].kind, n))
    decreases i
  {
    if i > 0 {
      var rest := ps[1..];
      assert NonEmptyPatterns(rest) by {
        forall j | 0 <= j < |rest| ensures MinLength(rest[j].re) >= 1 {
          assert rest[j] == ps[j + 1];
        }
      }
      forall h | 0 <= h < i - 1 ensures MatchRe(rest[h].re, q, pos).None? {
        assert rest[h] == ps[h + 1];
      }
      FirstMatchAt(q, pos, rest, i - 1, n);
      assert rest[i - 1] == ps[i];
    }
  }

  /** When every pattern of ps fails, FirstMatch gives nothing. */
  lemma {:induction false} FirstMatchNone(q: string, pos: nat, ps: seq<Pattern>)
    requires pos <= |q| && NonEmptyPatterns(ps)
    requires forall h :: 0 <= h < |ps| ==> MatchRe(ps[h].re, q, pos).None?
    ensures FirstMatch(q, pos, ps).None?
    decreases |ps|
  {
    if ps != [] {
      var rest := ps[1..];
      assert NonEmptyPatterns(rest) by {
        forall j | 0 <= j < |rest| ensures MinLength(rest[j].re) >= 1 {
          assert rest[j] == ps[j + 1];
        }
      }
      forall h | 0 <= h < |rest| ensures MatchRe(rest[h].re, q, pos).None? {
        assert rest[h] == ps[h + 1];
      }
      FirstMatchNone(q, pos, rest);
    }
  }

  /** If the only pattern of kind k is re, a lexeme of kind k is a match of re. */
  lemma {:induction false} FirstMatchKind(q: string, pos: nat, ps: seq<Pattern>, k: Kind, re: Re)
    requires pos <= |q| && NonEmptyPatterns(ps)
    requires forall h :: 0 <= h < |ps| && ps[h].kind == k ==> ps[h].re == re
    ensures FirstMatch(q, pos, ps).Some? && FirstMatch(q, pos, ps).value.0 == k ==>
      MatchRe(re, q, pos) == Some(FirstMatch(q, pos, ps).value.1)
    decreases |ps|
  {
    if ps != [] && MatchRe(ps[0].re, q, pos).None? {
      var rest := ps[1..];
      assert NonEmptyPatterns(rest) by {
        forall j | 0 <= j < |rest| ensures MinLength(rest[j].re) >= 1 {
          assert rest[j] == ps[j + 1];
        }
      }
      forall h | 0 <= h < |rest| && rest[h].kind == k ensures rest[h].re == re {
        assert rest[h] == ps[h + 1];
      }
      FirstMatchKind(q, pos, rest, k, re);
    }
  }

  // ---------------------------------------------------------------------
  // The keywords

  predicate IsKeyword(k: Kind) {
    k.SELECT? || k.FROM? || k.WHERE? || k.ORDER? || k.LIMIT? || k.OFFSET? || k.AND? || k.OR?
    || k.NOT? || k.IN? || k.LIKE? || k.BETWEEN? || k.ASC? || k.DESC?
  }

  /** The keyword patterns: each keyword's name between word boundaries,
      ORDER as the phrase ORDER BY. */
  predicate KeywordTable(ps: seq<Pattern>) {
    forall h :: 0 <= h < |ps| ==>
      IsKeyword(ps[h].kind) &&
      ps[h].re == (if ps[h].kind == ORDER then PhraseRe("ORDER", "BY") else KeywordRe(KindName(ps[h].kind)))
  }

  lemma KeywordPatternsTable()
    ensures KeywordTable(KeywordPatterns)
  {
  }

  /** The pattern of an OPERATOR token is the operator pattern. */
  lemma OperatorPatternOnly()
    ensures forall h :: 0 <= h < |Patterns| && Patterns[h].kind == OPERATOR ==> Patterns[h].re == OperatorRe
  {
    KeywordPatternsTable();
    var k := |KeywordPatterns|;
    forall h | 0 <= h < |Patterns|
      ensures Patterns[h].kind == OPERATOR ==> Patterns[h].re == OperatorRe
    {
      if h < k {
        assert Patterns[h] == KeywordPatterns[h];
      } else {
        assert Patterns[h] == OtherPatterns[h - k];
      }
    }
  }

  // ---------------------------------------------------------------------
  // OPERATOR tokens

  /** The seven spellings of OPERATOR. */
  predicate OperatorSpelling(t: string) {
    t == "<=" || t == ">=" || t == "!=" || t == "<>" || t == "=" || t == "<" || t == ">"
  }

  /** A symbol matched ignoring case is the symbol itself. */
  lemma SymbolText(w: string, q: string, pos: nat)
    requires pos <= |q| && forall i :: 0 <= i < |w| ==> !IsLetter(w[i])
    requires MatchRe(Text(w), q, pos).Some?
    ensures MatchRe(Text(w), q, pos) == Some(|w|) && q[pos..pos + |w|] == w
  {
    forall i | 0 <= i < |w| ensures q[pos + i] == w[i] {
      assert SameFolded(q[pos + i], w[i]);
    }
  }

  /** The text w (no letters in it) at pos. */
  predicate SymbolAt(q: string, pos: nat, w: string) {
    pos + |w| <= |q| && q[pos..pos + |w|] == w
  }

  lemma SymbolMatch(w: string, q: string, pos: nat)
    requires pos <= |q| && forall i :: 0 <= i < |w| ==> !IsLetter(w[i])
    ensures MatchRe(Text(w), q, pos) == if SymbolAt(q, pos, w) then Some(|w|) else None
  {
    if MatchRe(Text(w), q, pos).Some? {
      SymbolText(w, q, pos);
    } else if SymbolAt(q, pos, w) {
      forall i | 0 <= i < |w| ensures SameFolded(q[pos + i], w[i]) {
        assert q[pos..pos + |w|][i] == q[pos + i];
      }
    }
  }

  /** The first alternative a symbol: taken when the symbol is there. */
  lemma AltSymbol(w: string, rest: Re, q: string, pos: nat)
    requires pos <= |q| && forall i :: 0 <= i < |w| ==> !IsLetter(w[i])
    ensures MatchRe(Alt(Text(w), rest), q, pos) == if SymbolAt(q, pos, w) then Some(|w|) else MatchRe(rest, q, pos)
  {
    AltStep(Text(w), rest, q, pos);
    SymbolMatch(w, q, pos);
  }

  /** What the operator pattern matches is one of the seven spellings. */
  lemma OperatorMatchText(q: string, pos: nat)
    requires pos <= |q| && MatchRe(OperatorRe, q, pos).Some?
    ensures OperatorSpelling(q[pos..pos + MatchRe(OperatorRe, q, pos).value])
  {
    var r6 := Text(">");
    var r5 := Alt(Text("<"), r6);
    var r4 := Alt(Text("="), r5);
    var r3 := Alt(Text("<>"), r4);
    var r2 := Alt(Text("!="), r3);
    var r1 := Alt(Text(">="), r2);
    assert OperatorRe == Alt(Text("<="), r1);
    AltSymbol("<=", r1, q, pos);
    AltSymbol(">=", r2, q, pos);
    AltSymbol("!=", r3, q, pos);
    AltSymbol("<>", r4, q, pos);
    AltSymbol("=", r5, q, pos);
    AltSymbol("<", r6, q, pos);
    SymbolMatch(">", q, pos);
  }

  /** A lexeme of kind OPERATOR is one of the seven spellings. */
  lemma OperatorLexeme(q: string, pos: nat)
    requires pos <= |q| && Lex(q, pos).Some? && Lex(q, pos).value.0 == OPERATOR
    ensures OperatorSpelling(q[pos..pos + Lex(q, pos).value.1])
  {
    PatternsNonEmpty();
    OperatorPatternOnly();
    FirstMatchKind(q, pos, Patterns, OPERATOR, OperatorRe);
    OperatorMatchText(q, pos);
  }

  /** Every OPERATOR token tokenize returns holds one of the seven spellings. */
  lemma {:induction false} OperatorTokens(q: string, pos: nat)
    requires pos <= |q|
    ensures TokensFrom(q, pos).Success? ==>
      forall i :: 0 <= i < |TokensFrom(q, pos).value| && TokensFrom(q, pos).value[i].kind == OPERATOR ==>
        OperatorSpelling(TokensFrom(q, pos).value[i].text)
    decreases |q| - pos
  {
    if pos < |q| && Lex(q, pos).Some? {
      var (k, n) := Lex(q, pos).value;
      OperatorTokens(q, pos + n);
      StepTokens(q, pos, k, n);
      if k == OPERATOR {
        OperatorLexeme(q, pos);
      }
    }
  }

  // ---------------------------------------------------------------------
  // Keywords in any casing

  /** A word of capital letters, as the keyword names are spelled. */
  predicate UpperWord(w: string) {
    w != [] && forall i :: 0 <= i < |w| ==> 'A' <= w[i] <= 'Z'
  }

  /** The word w, in any casing, stands alone at pos: word boundaries on
      both sides. */
  predicate WordAt(q: string, pos: nat, w: string) {
    pos + |w| <= |q| && Boundary(q, pos) && FoldedAt(q, pos, w) && Boundary(q, pos + |w|)
  }

  /** For a word of capitals, matching ignoring case is matching the
      text's capitalisation. */
  lemma FoldedIsUpper(q: string, pos: nat, w: string)
    requires UpperWord(w) && pos + |w| <= |q|
    ensures FoldedAt(q, pos, w) <==> UpperString(q[pos..pos + |w|]) == w
  {
    var t := q[pos..pos + |w|];
    if FoldedAt(q, pos, w) {
      forall i | 0 <= i < |w| ensures UpperString(t)[i] == w[i] {
        assert t[i] == q[pos + i];
        assert SameFolded(q[pos + i], w[i]);
      }
    }
    if UpperString(t) == w {
      forall i | 0 <= i < |w| ensures SameFolded(q[pos + i], w[i]) {
        assert t[i] == q[pos + i];
        assert UpperString(t)[i] == Upper(t[i]);
      }
    }
  }

  /** The keyword whose name is w. */
  function KeywordNamed(w: string): Option<Kind> {
    if w == "SELECT" then Some(SELECT) else if w == "FROM" then Some(FROM)
    else if w == "WHERE" then Some(WHERE) else if w == "ORDER" then Some(ORDER)
    else if w == "LIMIT" then Some(LIMIT) else if w == "OFFSET" then Some(OFFSET)
    else if w == "AND" then Some(AND) else if w == "OR" then Some(OR)
    else if w == "NOT" then Some(NOT) else if w == "IN" then Some(IN)
    else if w == "LIKE" then Some(LIKE) else if w == "BETWEEN" then Some(BETWEEN)
    else if w == "ASC" then Some(ASC) else if w == "DESC" then Some(DESC)
    else None
  }

  /** Each keyword's name is a word of capitals naming that keyword only. */
  lemma KeywordName(k: Kind)
    requires IsKeyword(k)
    ensures UpperWord(KindName(k)) && KeywordNamed(KindName(k)) == Some(k)
  {
  }

  /** A character that folds to a capital letter is a letter. */
  lemma FoldedLetter(a: char, c: char)
    requires 'A' <= c <= 'Z' && SameFolded(a, c)
    ensures IsLetter(a) && IsWordChar(a) && !IsSpace(a)
  {
    assert Upper(c) == c;
    assert IsLetter(Upper(a));
  }

  /** The characters of a word standing at pos are letters. */
  lemma WordLetters(q: string, pos: nat, w: string)
    requires UpperWord(w) && FoldedAt(q, pos, w)
    ensures forall i :: pos <= i < pos + |w| ==> IsLetter(q[i]) && IsWordChar(q[i])
  {
    forall i | pos <= i < pos + |w| ensures IsLetter(q[i]) && IsWordChar(q[i]) {
      FoldedLetter(q[pos + (i - pos)], w[i - pos]);
    }
  }

  /** Where a word stands alone, the pattern of a keyword with another name
      fails: a shorter name ends inside the word, a longer one runs over its
      end. */
  lemma OtherWordFails(w: string, v: string, x: string, q: string, pos: nat)
    requires UpperWord(w) && UpperWord(v) && v != w && pos <= |q| && WordAt(q, pos, w)
    ensures MatchRe(KeywordRe(v), q, pos).None? && MatchRe(PhraseRe(v, x), q, pos).None?
  {
    KeywordMeaning(v, q, pos);
    PhraseMeaning(v, x, q, pos);
    if FoldedAt(q, pos, v) {
      WordLetters(q, pos, w);
      WordLetters(q, pos, v);
      if |v| == |w| {
        forall i | 0 <= i < |w| ensures v[i] == w[i] {
          assert SameFolded(q[pos + i], w[i]) && SameFolded(q[pos + i], v[i]);
          assert Upper(w[i]) == w[i] && Upper(v[i]) == v[i];
        }
        assert false;
      } else if |v| < |w| {
        assert !IsSpace(q[pos + |v|]);
        assert RunLength(q, pos + |v|, Space) == 0;
      }
    }
  }

  /** Where a word stands alone, every keyword pattern of another name fails. */
  lemma OtherKeywordsFail(w: string, q: string, pos: nat, ps: seq<Pattern>, i: nat)
    requires UpperWord(w) && pos <= |q| && WordAt(q, pos, w)
    requires KeywordTable(ps) && i <= |ps|
    requires forall h :: 0 <= h < i ==> KindName(ps[h].kind) != w
    ensures forall h :: 0 <= h < i ==> MatchRe(ps[h].re, q, pos).None?
  {
    forall h | 0 <= h < i ensures MatchRe(ps[h].re, q, pos).None? {
      KeywordName(ps[h].kind);
      OtherWordFails(w, KindName(ps[h].kind), "BY", q, pos);
    }
  }

  /** The keyword patterns ahead of a keyword's own are the other keywords'. */
  lemma KeywordIndex(k: Kind) returns (i: nat)
    requires IsKeyword(k)
    ensures i < |KeywordPatterns| && KeywordPatterns[i].kind == k
    ensures forall h :: 0 <= h < i ==> KeywordPatterns[h].kind != k
  {
    i := match k
      case SELECT => 0 case FROM => 1 case WHERE => 2 case ORDER => 3 case LIMIT => 4
      case OFFSET => 5 case AND => 6 case OR => 7 case NOT => 8 case IN => 9
      case LIKE => 10 case BETWEEN => 11 case ASC => 12 case DESC => 13;
  }

  /** The first patterns of the list are the keyword patterns. */
  lemma KeywordsFirst()
    ensures |KeywordPatterns| == 14 && |Patterns| == 22
    ensures forall h :: 0 <= h < 14 ==> Patterns[h] == KeywordPatterns[h]
    ensures Patterns[14] == Pattern(IDENTIFIER, IdentifierRe)
  {
  }

  /** Patterns ahead of position i of the list that are keywords of other
      names fail where the word w stands alone. */
  lemma KeywordsAheadFail(w: string, q: string, pos: nat, i: nat)
    requires UpperWord(w) && pos <= |q| && WordAt(q, pos, w) && i <= 14
    requires forall h :: 0 <= h < i ==> KindName(KeywordPatterns[h].kind) != w
    ensures forall h :: 0 <= h < i ==> MatchRe(Patterns[h].re, q, pos).None?
  {
    KeywordsFirst();
    KeywordPatternsTable();
    OtherKeywordsFail(w, q, pos, KeywordPatterns, i);
  }

  /** Every keyword but ORDER is recognised in any casing: where its name,
      however capitalised, stands between word boundaries, the lexeme is
      that keyword and the name's length. */
  lemma KeywordInAnyCase(q: string, pos: nat, k: Kind)
    requires IsKeyword(k) && k != ORDER && pos <= |q|
    requires pos + |KindName(k)| <= |q| && UpperString(q[pos..pos + |KindName(k)|]) == KindName(k)
    requires Boundary(q, pos) && Boundary(q, pos + |KindName(k)|)
    ensures Lex(q, pos) == Some((k, |KindName(k)|))
  {
    var w := KindName(k);
    KeywordName(k);
    FoldedIsUpper(q, pos, w);
    var i := KeywordIndex(k);
    forall h | 0 <= h < i ensures KindName(KeywordPatterns[h].kind) != w {
      KeywordPatternsTable();
      KeywordName(KeywordPatterns[h].kind);
    }
    KeywordsAheadFail(w, q, pos, i);
    KeywordPatternsTable();
    KeywordsFirst();
    KeywordMeaning(w, q, pos);
    PatternsNonEmpty();
    FirstMatchAt(q, pos, Patterns, i, |w|);
  }

  /** ORDER BY is recognised in any casing and with any whitespace between
      the words: the lexeme is ORDER and runs to the end of BY. */
  lemma OrderByInAnyCase(q: string, pos: nat)
    requires pos <= |q| && PhraseAt(q, pos, "ORDER", "BY")
    ensures Lex(q, pos) == Some((ORDER, 5 + RunLength(q, pos + 5, Space) + 2))
  {
    OrderByMatch(q, pos);
    PatternsNonEmpty();
    FirstMatchAt(q, pos, Patterns, 3, 5 + RunLength(q, pos + 5, Space) + 2);
  }

  /** At an ORDER BY phrase the three patterns ahead of ORDER's fail and
      ORDER's matches the phrase. */
  lemma OrderByMatch(q: string, pos: nat)
    requires pos <= |q| && PhraseAt(q, pos, "ORDER", "BY")
    ensures forall h :: 0 <= h < 3 ==> MatchRe(Patterns[h].re, q, pos).None?
    ensures Patterns[3].kind == ORDER && MatchRe(Patterns[3].re, q, pos) == Some(5 + RunLength(q, pos + 5, Space) + 2)
  {
    OrderWordAt(q, pos);
    KeywordsAheadFail("ORDER", q, pos, 3);
    OrderPatternMatch(q, pos);
  }

  /** ORDER's pattern matches the phrase to the end of BY. */
  lemma OrderPatternMatch(q: string, pos: nat)
    requires pos <= |q| && PhraseAt(q, pos, "ORDER", "BY")
    ensures Patterns[3].kind == ORDER && MatchRe(Patterns[3].re, q, pos) == Some(5 + RunLength(q, pos + 5, Space) + 2)
  {
    OrderPattern();
    PhraseMeaning("ORDER", "BY", q, pos);
  }

  /** ORDER's pattern is the fourth of the list. */
  lemma OrderPattern()
    ensures Patterns[3] == Pattern(ORDER, PhraseRe("ORDER", "BY"))
  {
    KeywordsFirst();
  }

  /** ORDER of an ORDER BY phrase stands alone: a space follows it. */
  lemma OrderWordAt(q: string, pos: nat)
    requires pos <= |q| && PhraseAt(q, pos, "ORDER", "BY")
    ensures WordAt(q, pos, "ORDER")
  {
    RunLengthMeaning(q, pos + 5, Space);
    WordLetters(q, pos, "ORDER");
  }

  /** A run of word characters that ends at a word boundary is a run of
      exactly that length. */
  lemma RunToBoundary(q: string, p: nat, e: nat)
    requires p <= e <= |q| && forall i :: p <= i < e ==> IsWordChar(q[i])
    requires e == |q| || !IsWordChar(q[e])
    ensures RunLength(q, p, WordChar) == e - p
    decreases e - p
  {
    if p < e {
      RunToBoundary(q, p + 1, e);
    }
  }

  /** A word standing alone matches the identifier pattern, to its end. */
  lemma IdentifierWord(q: string, pos: nat, w: string)
    requires UpperWord(w) && pos <= |q| && WordAt(q, pos, w)
    ensures MatchRe(IdentifierRe, q, pos) == Some(|w|)
  {
    WordLetters(q, pos, w);
    RunToBoundary(q, pos + 1, pos + |w|);
    CatStep(One(IdentStart), Run(WordChar, 0), q, pos);
  }

  /** A word naming no keyword matches no keyword pattern. */
  lemma NoKeywordMatches(q: string, pos: nat, w: string)
    requires UpperWord(w) && KeywordNamed(w).None? && pos <= |q| && WordAt(q, pos, w)
    ensures forall h :: 0 <= h < 14 ==> MatchRe(Patterns[h].re, q, pos).None?
  {
    forall h | 0 <= h < 14 ensures KindName(KeywordPatterns[h].kind) != w {
      KeywordPatternsTable();
      KeywordName(KeywordPatterns[h].kind);
    }
    KeywordsAheadFail(w, q, pos, 14);
  }

  /** A word of letters that names no keyword, standing alone in any
      casing, is an IDENTIFIER lexeme of its length. */
  lemma NonKeywordIsIdentifier(q: string, pos: nat, w: string)
    requires UpperWord(w) && KeywordNamed(w).None? && pos <= |q|
    requires pos + |w| <= |q| && UpperString(q[pos..pos + |w|]) == w
    requires Boundary(q, pos) && Boundary(q, pos + |w|)
    ensures Lex(q, pos) == Some((IDENTIFIER, |w|))
  {
    FoldedIsUpper(q, pos, w);
    NoKeywordMatches(q, pos, w);
    IdentifierWord(q, pos, w);
    KeywordsFirst();
    PatternsNonEmpty();
    FirstMatchAt(q, pos, Patterns, 14, |w|);
  }

  /** TRUE, FALSE and NULL are not keywords of the query language: in any
      casing they are identifiers. */
  lemma LiteralWordsAreIdentifiers(q: string, pos: nat, w: string)
    requires w == "TRUE" || w == "FALSE" || w == "NULL"
    requires pos + |w| <= |q| && UpperString(q[pos..pos + |w|]) == w
    requires Boundary(q, pos) && Boundary(q, pos + |w|)
    ensures Lex(q, pos) == Some((IDENTIFIER, |w|))
  {
    NonKeywordIsIdentifier(q, pos, w);
  }
}
