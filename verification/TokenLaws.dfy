/** Which token is found, said by the characters of the text alone. */
module TokenLaws {
  import opened Streams
  import opened CharStreams
  import opened Seqs
  import opened Lexing
  import opened LexingLaws

  /** The categories and words of the tokenizer, written out. */
  lemma Characters(x: int)
    ensures IsDigit(x) <==> '0' as int <= x <= '9' as int
    ensures IsSign(x) <==> x == '+' as int || x == '-' as int
    ensures IsExponent(x) <==> x == 'e' as int || x == 'E' as int
    ensures IsStringChar(x) <==>
      ('a' as int <= x <= 'z' as int || 'A' as int <= x <= 'Z' as int || '0' as int <= x <= '9' as int || StringMark(x))
    ensures QUOTE == '\"' as int && DOT == '.' as int && EOF == -1
    ensures NEWLINE == '\n' as int && RETURN == '\r' as int
    ensures NAN == ['n' as int, 'a' as int, 'n' as int]
    ensures POS_INF == ['+' as int, 'i' as int, 'n' as int, 'f' as int]
    ensures NEG_INF == ['-' as int, 'i' as int, 'n' as int, 'f' as int]
  {}

  /** The marks that may stand in a string. */
  ghost predicate StringMark(x: int) {
    || x == ' ' as int || x == '_' as int || x == '.' as int || x == ',' as int || x == '+' as int || x == '-' as int
    || x == '=' as int || x == ':' as int || x == '/' as int || x == '*' as int || x == '\\' as int
  }

  // ------------------------------------------------------------ symbols

  /** The first symbol of the list that stands there is found, whatever stands further back in the list. */
  lemma {:induction false} FirstSymbolFound(text: seq<int>, p: nat, symbols: seq<seq<int>>, i: nat)
    requires i < |symbols| && OccursAt(text, symbols[i], p)
    requires forall j: nat :: j < i ==> Passed(text, p, symbols[j])
    ensures FindSymbol(text, p, symbols) == Found(Symbol(symbols[i]), p + |symbols[i]|)
    decreases i
  {
    OccursAgreed(text, symbols[i], p);
    if 0 < i {
      assert Passed(text, p, symbols[0]);
      var rest := symbols[1..];
      forall j: nat | j < i - 1 ensures Passed(text, p, rest[j]) {
        assert rest[j] == symbols[j + 1];
      }
      hide Agreed, OccursAt;
      FirstSymbolFound(text, p, rest, i - 1);
    }
  }

  lemma SymbolFound(text: seq<int>, p: nat, c: Config, i: nat)
    requires i < |c.symbols| && OccursAt(text, c.symbols[i], p)
    requires forall j: nat :: j < i ==> Passed(text, p, c.symbols[j])
    ensures Lex(text, p, c) == Found(Symbol(c.symbols[i]), p + |c.symbols[i]|)
  {
    FirstSymbolFound(text, p, c.symbols, i);
    hide FindSymbol, FindFloat, FindInt, FindString, FindIdentifier, FindOther;
  }

  /** No symbol is found, and none throws, exactly if all are passed. */
  lemma {:induction false} NoSymbolFound(text: seq<int>, p: nat, symbols: seq<seq<int>>)
    ensures FindSymbol(text, p, symbols) == NotFound <==> forall i: nat :: i < |symbols| ==> Passed(text, p, symbols[i])
  {
    if symbols != [] {
      var rest := symbols[1..];
      NoSymbolFound(text, p, rest);
      hide Agreed;
      if forall i: nat :: i < |rest| ==> Passed(text, p, rest[i]) {
        forall i: nat | 0 < i < |symbols| ensures Passed(text, p, symbols[i]) {
          assert symbols[i] == rest[i - 1];
        }
      }
      if forall i: nat :: i < |symbols| ==> Passed(text, p, symbols[i]) {
        assert Passed(text, p, symbols[0]);
        forall i: nat | i < |rest| ensures Passed(text, p, rest[i]) {
          assert rest[i] == symbols[i + 1];
        }
      }
    }
  }

  // ------------------------------------------------------------ the other tokens

  ghost predicate NoSymbol(text: seq<int>, p: nat, c: Config) {
    forall i: nat :: i < |c.symbols| ==> Passed(text, p, c.symbols[i])
  }

  /** `nan`, `+inf` and `-inf` are floats of their own. */
  lemma SpecialFloatFound(text: seq<int>, p: nat, c: Config)
    requires NoSymbol(text, p, c)
    ensures OccursAt(text, ['n' as int, 'a' as int, 'n' as int], p) ==>
      Lex(text, p, c) == Found(Float(['n' as int, 'a' as int, 'n' as int]), p + 3)
    ensures OccursAt(text, ['+' as int, 'i' as int, 'n' as int, 'f' as int], p) ==>
      Lex(text, p, c) == Found(Float(['+' as int, 'i' as int, 'n' as int, 'f' as int]), p + 4)
    ensures OccursAt(text, ['-' as int, 'i' as int, 'n' as int, 'f' as int], p) ==>
      Lex(text, p, c) == Found(Float(['-' as int, 'i' as int, 'n' as int, 'f' as int]), p + 4)
  {
    NoSymbolFound(text, p, c.symbols);
    OccursAgreed(text, NAN, p);
    OccursAgreed(text, POS_INF, p);
    OccursAgreed(text, NEG_INF, p);
    StartsWith(text, NAN, p);
    StartsWith(text, POS_INF, p);
    StartsWith(text, NEG_INF, p);
    hide Agreed, OccursAt, FindSymbol, Number, FindInt, FindString, FindIdentifier, FindOther, Passed;
  }

  /** A letter, a digit, or one of the marks. */
  ghost predicate InsideString(x: int) {
    'a' as int <= x <= 'z' as int || 'A' as int <= x <= 'Z' as int || '0' as int <= x <= '9' as int || StringMark(x)
  }

  /** A quoted text is a string token: what stands between the quotes. */
  lemma StringFound(text: seq<int>, p: nat, q: nat, c: Config)
    requires NoSymbol(text, p, c) && p < q && At(text, p) == '\"' as int && At(text, q) == '\"' as int
    requires forall i: nat :: p < i < q ==> InsideString(At(text, i))
    ensures q < |text| && Lex(text, p, c) == Found(Str(text[p + 1..q]), q + 1)
  {
    hide Agreed, OccursAt, FindSymbol, Number, Digits, FindString, FindIdentifier, FindOther, Passed, InsideString;
    NoSymbolFound(text, p, c.symbols);
    QuotedFound(text, p, q);
    QuoteIsNoNumber(text, p);
    OccursAgreed(text, NAN, p);
    OccursAgreed(text, POS_INF, p);
    OccursAgreed(text, NEG_INF, p);
  }

  lemma QuotedFound(text: seq<int>, p: nat, q: nat)
    requires p < q && At(text, p) == '\"' as int && At(text, q) == '\"' as int
    requires forall i: nat :: p < i < q ==> InsideString(At(text, i))
    ensures q < |text| && FindString(text, p) == Found(Str(text[p + 1..q]), q + 1)
  {
    forall i: nat | p + 1 <= i < q ensures IsStringChar(At(text, i)) {
      assert InsideString(At(text, i));
    }
    assert q < |text| && !IsStringChar(At(text, q));
    RunEndUnique(text, p + 1, IsStringChar, q);
    hide RunEnd;
  }

  /** A character of an identifier behind its first: a byte of the alphabet, or a digit. */
  ghost predicate InsideIdentifier(c: Config, x: int) {
    (0 <= x < 256 && x in c.alpha) || '0' as int <= x <= '9' as int
  }

  /** A word that starts no other token is an identifier, as long as letters and digits follow. */
  lemma IdentifierFound(text: seq<int>, p: nat, q: nat, c: Config)
    requires NoSymbol(text, p, c) && p < q && !OccursAt(text, ['n' as int, 'a' as int, 'n' as int], p)
    requires 0 <= At(text, p) < 256 && At(text, p) in c.alpha && StartsIdentifierOnly(c, At(text, p))
    requires forall i: nat :: p < i < q ==> InsideIdentifier(c, At(text, i))
    requires !InsideIdentifier(c, At(text, q))
    ensures q <= |text| && Lex(text, p, c) == Found(Identifier(text[p..q]), q)
  {
    assert At(text, |text|) == EOF;
    NoSymbolFound(text, p, c.symbols);
    NanFirst(text, p, c);
    forall i: nat | p < i < q ensures c.IsAlphaNum(At(text, i)) {
      assert InsideIdentifier(c, At(text, i));
    }
    RunEndUnique(text, p + 1, c.IsAlphaNum, q);
    hide FindSymbol, RunEnd, OccursAt, Lex, Passed;
  }

  /**
   * The same for any first letter, also one that could start a number, if no number and no special float stands
   * there.
   */
  lemma AnyIdentifierFound(text: seq<int>, p: nat, q: nat, c: Config)
    requires NoSymbol(text, p, c) && NoSpecialFloat(text, p) && p < q
    requires forall e: nat :: !FloatAt(text, p, e) && !DecAt(text, p, e)
    requires 0 <= At(text, p) < 256 && At(text, p) in c.alpha && At(text, p) != '\"' as int
    requires forall i: nat :: p < i < q ==> InsideIdentifier(c, At(text, i))
    requires !InsideIdentifier(c, At(text, q))
    ensures q <= |text| && Lex(text, p, c) == Found(Identifier(text[p..q]), q)
  {
    assert At(text, |text|) == EOF;
    NoSymbolFound(text, p, c.symbols);
    NothingShows(text, p);
    OccursAgreed(text, NAN, p);
    OccursAgreed(text, POS_INF, p);
    OccursAgreed(text, NEG_INF, p);
    forall i: nat | p < i < q ensures c.IsAlphaNum(At(text, i)) {
      assert InsideIdentifier(c, At(text, i));
    }
    RunEndUnique(text, p + 1, c.IsAlphaNum, q);
    hide Agreed, OccursAt, FindSymbol, Number, Digits, RunEnd, Passed;
  }

  /** The longest float there is found, unless it is a mantissa in front of an exponent letter without digits. */
  lemma FloatFound(text: seq<int>, p: nat, q: nat, c: Config)
    requires NoSymbol(text, p, c) && LongestFloat(text, p, q) && !(MantissaAt(text, p, q) && Dangling(text, q))
    ensures p < q <= |text| && Lex(text, p, c) == Found(Float(text[p..q]), q)
  {
    hide Agreed, OccursAt, FindSymbol, Number, Digits, Passed, LongestFloat, MantissaAt, Dangling;
    NoSymbolFound(text, p, c.symbols);
    if !Number(text, p).ok { NumberFails(text, p, q); }
    NumberIsLongest(text, p);
    OneLongest(text, p, q, Number(text, p).end);
    NumberEnd(text, p);
    NumberStarts(text, p);
    OccursAgreed(text, NAN, p);
    OccursAgreed(text, POS_INF, p);
    OccursAgreed(text, NEG_INF, p);
  }

  lemma OneLongest(text: seq<int>, p: nat, q: nat, r: nat)
    requires LongestFloat(text, p, q) && LongestFloat(text, p, r)
    ensures q == r
  {
    hide FloatAt;
  }

  lemma NumberStarts(text: seq<int>, p: nat)
    requires Number(text, p).ok
    ensures NoSpecialFloat(text, p)
  {
    if Digits(text, p).ok {
      NumberIsNotSpecial(text, p);
    } else {
      StartsWith(text, NAN, p);
      StartsWith(text, POS_INF, p);
      StartsWith(text, NEG_INF, p);
      hide OccursAt;
    }
  }

  /** All separators in a row are skipped, and nothing else. */
  lemma SeparatorsSkipped(text: seq<int>, p: nat, q: nat, c: Config)
    requires p <= q <= |text|
    requires forall i: nat :: p <= i < q ==> 0 <= text[i] < 256 && text[i] in c.seps
    requires q < |text| ==> !(0 <= text[q] < 256 && text[q] in c.seps)
    ensures SkipSeparators(text, p, c) == q
  {
    RunEndUnique(text, p, c.IsSeparator, q);
  }

  /** A character at which no token starts is delivered as it is. */
  lemma CharFound(text: seq<int>, p: nat, c: Config)
    requires NoSymbol(text, p, c) && NoSpecialFloat(text, p)
    requires forall q: nat :: !FloatAt(text, p, q) && !DecAt(text, p, q)
    requires At(text, p) != EOF && At(text, p) != '\"' as int && !(0 <= At(text, p) < 256 && At(text, p) in c.alpha)
    ensures Lex(text, p, c) == Found(Char(At(text, p)), p + 1)
  {
    NoSymbolFound(text, p, c.symbols);
    NothingShows(text, p);
    OccursAgreed(text, NAN, p);
    OccursAgreed(text, POS_INF, p);
    OccursAgreed(text, NEG_INF, p);
    hide Agreed, OccursAt, FindSymbol, Number, Digits, RunEnd, Passed;
  }

  lemma NothingShows(text: seq<int>, p: nat)
    requires forall q: nat :: !FloatAt(text, p, q) && !DecAt(text, p, q)
    ensures !Number(text, p).ok && !Digits(text, p).ok && !Lost(p, Number(text, p))
  {
    DecIsDigits(text, p, p);
    NumberLost(text, p);
    if Number(text, p).ok { NumberIsLongest(text, p); }
    hide Number, Digits, DecAt, MantissaAt;
    if m: nat :| LetterOnly(text, p, m) {
      assert FloatAt(text, p, m);
    }
  }

  // ------------------------------------------------------------ one call after the other

  /** Call number `n` of `next`, counted from 0, delivers the token. */
  ghost predicate Delivers(text: seq<int>, p: nat, c: Config, n: nat, token: Token)
    decreases n
  {
    var o := Lex(text, SkipSeparators(text, p, c), c);
    o.Found? && if n == 0 then o.token == token else Delivers(text, o.end, c, n - 1, token)
  }

  /** Call number `n` throws, and none before it does. */
  ghost predicate ThrowsAfter(text: seq<int>, p: nat, c: Config, n: nat)
    decreases n
  {
    var o := Lex(text, SkipSeparators(text, p, c), c);
    if n == 0 then o == Threw else o.Found? && ThrowsAfter(text, o.end, c, n - 1)
  }

  /** The tokens are those of the calls, one after the other, and the call after the last one is the end or throws. */
  lemma {:induction false} TokensAreCalls(text: seq<int>, p: nat, c: Config)
    requires p <= |text| && ProperSymbols(c.symbols)
    ensures var r := Tokenize(text, p, c);
      forall n: nat :: n < |r.pieces| ==> Delivers(text, p, c, n, r.pieces[n].token) && r.pieces[n].token != Eof
    ensures var r := Tokenize(text, p, c);
      if r.threw then ThrowsAfter(text, p, c, |r.pieces|) else EndAfter(text, p, c, |r.pieces|)
    decreases |text| - p
  {
    hide Lex, SkipSeparators, ProperSymbols;
    var s := SkipSeparators(text, p, c);
    SeparatorsEnd(text, p, c);
    LexSpelled(text, s, c);
    LexFinds(text, s, c);
    var o := Lex(text, s, c);
    if o.Found? && o.token != Eof {
      TokensAreCalls(text, o.end, c);
      var r, rest := Tokenize(text, p, c), Tokenize(text, o.end, c);
      forall n: nat | n < |r.pieces| ensures Delivers(text, p, c, n, r.pieces[n].token) && r.pieces[n].token != Eof {
        if 0 < n { assert r.pieces[n] == rest.pieces[n - 1]; }
      }
    }
  }
}
