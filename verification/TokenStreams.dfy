/** The tokenizer over a character stream: every alternative puts back what it has read when it fails. */
module TokenStreams {
  import opened Streams
  import opened CharStreams
  import opened Lexing
  import opened Seqs
  import opened LexingLaws

  /** What a `try` routine returns. */
  datatype Tried = Yes(token: Token) | No | Thrown

  /**
   * The routine starting at `p` and leaving the cursor at `pos` found what is there; a failing one has moved nothing.
   */
  ghost predicate Agrees(o: Outcome, r: Tried, p: int, pos: int) {
    match o
    case Found(token, end) => r == Yes(token) && pos == end
    case NotFound => r == No && pos == p
    case Threw => r == Thrown
  }

  /** All characters before `look` were looked at, and the buffer keeps what it can of them. */
  ghost predicate Looked(seen0: int, oldest0: int, look: int, seen: int, oldest: int) {
    seen == Max(seen0, look) && oldest == Max(oldest0, seen - BUF_SIZE)
  }

  lemma RunStep(text: seq<int>, p: nat, q: nat, category: int -> bool, str: seq<int>)
    requires p <= q && category(At(text, q)) && !category(EOF)
    ensures q < |text| && RunEnd(text, q, category) == RunEnd(text, q + 1, category)
    ensures p <= |text| && str == text[p..q] ==> str + [text[q]] == text[p..q + 1]
  {}

  lemma RunStop(text: seq<int>, q: nat, category: int -> bool)
    requires !category(At(text, q))
    ensures RunEnd(text, q, category) == q
  {}

  lemma DigitsCases(text: seq<int>, p: nat)
    ensures SignEnd(text, p) == if IsSign(At(text, p)) then p + 1 else p
    ensures var e := RunEnd(text, SignEnd(text, p), IsDigit);
      Digits(text, p) == if SignEnd(text, p) < e then Scan(true, e, e + 1) else Scan(false, p, e + 1)
    ensures var e := RunEnd(text, SignEnd(text, p), IsDigit);
      SignEnd(text, p) < e ==> e <= |text| && text[p..e] == text[p..SignEnd(text, p)] + text[SignEnd(text, p)..e]
    ensures IsSign(At(text, p)) ==> p < |text| && text[p..p + 1] == [At(text, p)]
  {
    hide RunEnd;
    var a := SignEnd(text, p);
    var e := RunEnd(text, a, IsDigit);
    if a < e {
      assert e <= |text|;
      SliceJoin(text, p, a, e);
    }
  }

  class TokenStream {
    const cin: Stream<int>
    const config: Config
    /** What `cin` delivers. */
    ghost const text: seq<int>

    ghost predicate Valid()
      reads this, cin, cin.buffer
    {
      cin.Valid() && cin.items == Chars(text)
    }

    constructor (cin: Stream<int>, config: Config, ghost text: seq<int>)
      requires cin.Valid() && cin.items == Chars(text)
      ensures Valid() && this.cin == cin && this.config == config && this.text == text
    {
      this.cin := cin;
      this.config := config;
      this.text := text;
    }

    /** Reads on while the characters belong to the category. */
    method TakeRun(category: int -> bool) returns (str: seq<int>)
      requires Valid() && !category(EOF)
      modifies cin, cin.buffer
      ensures Valid() && var e := RunEnd(text, old(cin.Pos()), category);
        && cin.Pos() == e && |str| == e - old(cin.Pos())
        && (old(cin.Pos()) <= |text| ==> str == text[old(cin.Pos())..e])
        && Looked(old(cin.Seen()), old(cin.Oldest()), e + 1, cin.Seen(), cin.Oldest())
    {
      hide Window, Stream.Holds, RunEnd;
      ghost var p: nat := cin.Pos();
      str := [];
      var c := cin.Peek();
      while category(c)
        invariant Valid() && p <= cin.Pos() && c == At(text, cin.Pos())
        invariant RunEnd(text, p, category) == RunEnd(text, cin.Pos(), category)
        invariant |str| == cin.Pos() - p
        invariant p <= |text| ==> cin.Pos() <= |text| && str == text[p..cin.Pos()]
        invariant Looked(old(cin.Seen()), old(cin.Oldest()), cin.Pos() + 1, cin.Seen(), cin.Oldest())
        decreases |text| - cin.Pos()
      {
        RunStep(text, p, cin.Pos(), category, str);
        var d := cin.Get();
        str := str + [d];
        c := cin.Peek();
      }
      RunStop(text, cin.Pos(), category);
    }

    /** A sign, if there is one. */
    method TakeSign() returns (str: seq<int>)
      requires Valid()
      modifies cin, cin.buffer
      ensures Valid() && cin.Pos() == SignEnd(text, old(cin.Pos())) && |str| == cin.Pos() - old(cin.Pos())
      ensures old(cin.Pos()) < cin.Pos() ==> cin.Pos() <= |text| && str == text[old(cin.Pos())..cin.Pos()]
      ensures Looked(old(cin.Seen()), old(cin.Oldest()), old(cin.Pos()) + 1, cin.Seen(), cin.Oldest())
    {
      hide Window, Stream.Holds;
      ghost var p: nat := cin.Pos();
      str := [];
      var c := cin.Peek();
      if IsSign(c) {
        c := cin.Get();
        str := [c];
        assert text[p..p + 1] == [text[p]];
      }
    }

    /** Digits with an optional sign; a sign alone is put back. */
    method DecDigits() returns (ok: bool, str: seq<int>)
      requires Valid()
      modifies cin, cin.buffer
      ensures Valid() && var s := Digits(text, old(cin.Pos()));
        && ok == s.ok && cin.Pos() == s.end
        && (ok ==> s.end <= |text| && str == text[old(cin.Pos())..s.end])
        && (!ok ==> str == [])
        && Looked(old(cin.Seen()), old(cin.Oldest()), s.look, cin.Seen(), cin.Oldest())
    {
      hide Window, Stream.Holds, RunEnd, Digits, DigitsEnd, SignEnd;
      ghost var p: nat := cin.Pos();
      DigitsCases(text, p);
      str := TakeSign();
      var digits := TakeRun(IsDigit);
      ok := digits != [];
      if ok {
        str := str + digits;
      } else {
        var threw, t := cin.Unget(|str|);
        assert !threw;
        str := [];
      }
    }

    method TrySymbol(symbol: seq<int>) returns (ok: bool, threw: bool)
      requires Valid()
      modifies cin, cin.buffer
      ensures Valid() && var s := Word(text, old(cin.Pos()), symbol);
        && ok == s.ok && threw == Lost(old(cin.Pos()), s)
        && (!threw ==> cin.Pos() == s.end)
        && Looked(old(cin.Seen()), old(cin.Oldest()), s.look, cin.Seen(), cin.Oldest())
    {
      hide Window, Stream.Holds;
      ghost var p: nat := cin.Pos();
      var pos := 0;
      threw := false;
      while pos < |symbol|
        invariant pos <= |symbol| && Valid() && cin.Pos() == p + pos
        invariant Agreed(text, symbol, p, 0) == Agreed(text, symbol, p, pos)
        invariant Looked(old(cin.Seen()), old(cin.Oldest()), p + pos, cin.Seen(), cin.Oldest())
      {
        var c := cin.Peek();
        if symbol[pos] != c {
          var t;
          threw, t := cin.Unget(pos);
          return false, threw;
        }
        cin.Drop();
        pos := pos + 1;
      }
      ok := true;
    }

    method TrySymbols() returns (r: Tried)
      requires Valid()
      modifies cin, cin.buffer
      ensures Valid() && Agrees(FindSymbol(text, old(cin.Pos()), config.symbols), r, old(cin.Pos()), cin.Pos())
    {
      hide Window, Stream.Holds, Looked, Word;
      ghost var p: nat := cin.Pos();
      for i := 0 to |config.symbols|
        invariant Valid() && cin.Pos() == p
        invariant FindSymbol(text, p, config.symbols) == FindSymbol(text, p, config.symbols[i..])
      {
        var symbol := config.symbols[i];
        assert config.symbols[i..][0] == symbol && config.symbols[i..][1..] == config.symbols[i + 1..];
        WordEnd(text, p, symbol);
        var ok, threw := TrySymbol(symbol);
        if threw {
          return Thrown;
        }
        if ok {
          return Yes(Symbol(symbol));
        }
      }
      r := No;
    }

    /** The letter and the digits of an exponent. */
    method ScanExponent(ghost p: nat) returns (ok: bool, str: seq<int>)
      requires Valid() && cin.Pos() < |text|
      modifies cin, cin.buffer
      ensures Valid() && var q, s := old(cin.Pos()), Exponent(text, p, old(cin.Pos()));
        && ok == s.ok && cin.Pos() == (if ok then s.end else q + 1)
        && cin.Pos() <= |text| && str == text[q..cin.Pos()]
        && Looked(old(cin.Seen()), old(cin.Oldest()), s.look, cin.Seen(), cin.Oldest())
    {
      hide Window, Stream.Holds, Digits;
      ghost var q: nat := cin.Pos();
      var c := cin.Get();
      DigitsBound(text, q + 1);
      var digits;
      ok, digits := DecDigits();
      str := [c] + digits;
      assert ok ==> text[q..cin.Pos()] == [text[q]] + text[q + 1..cin.Pos()];
    }

    /** The dot and what may follow it. */
    method ScanFraction(ghost p: nat) returns (ok: bool, str: seq<int>)
      requires Valid() && cin.Pos() < |text|
      modifies cin, cin.buffer
      ensures Valid() && var q, s := old(cin.Pos()), Fraction(text, p, old(cin.Pos()));
        && ok == s.ok && (ok ==> cin.Pos() == s.end)
        && q <= cin.Pos() <= |text| && str == text[q..cin.Pos()]
        && Looked(old(cin.Seen()), old(cin.Oldest()), s.look, cin.Seen(), cin.Oldest())
    {
      hide Window, Stream.Holds, Digits, Exponent;
      ghost var q: nat := cin.Pos();
      DigitsBound(text, q + 1);
      var c := cin.Get();
      var found, digits := DecDigits();
      str := [c] + digits;
      assert text[q..cin.Pos()] == [text[q]] + text[q + 1..cin.Pos()];
      ghost var g: nat := cin.Pos();
      c := cin.Peek();
      if IsExponent(c) {
        ExponentBound(text, p, g);
        var exponent;
        ok, exponent := ScanExponent(p);
        SliceJoin(text, q, g, cin.Pos());
        str := str + exponent;
      } else {
        ok := true;
      }
    }

    /** The body of `tryFloat` up to the decision: all it has read is in `str`. */
    method ScanNumber() returns (ok: bool, str: seq<int>)
      requires Valid()
      modifies cin, cin.buffer
      ensures Valid() && var p, s := old(cin.Pos()), Number(text, old(cin.Pos()));
        && ok == s.ok && (ok ==> cin.Pos() == s.end && s.end <= |text| && str == text[p..s.end])
        && |str| == cin.Pos() - p
        && Looked(old(cin.Seen()), old(cin.Oldest()), s.look, cin.Seen(), cin.Oldest())
    {
      hide Window, Stream.Holds, Digits, Exponent, Fraction;
      ghost var p: nat := cin.Pos();
      DigitsBound(text, p);
      var rest;
      ok, str := DecDigits();
      ghost var d: nat := cin.Pos();
      var c := cin.Peek();
      if ok {
        if c == DOT {
          FractionBound(text, p, d);
          ok, rest := ScanFraction(p);
          SliceJoin(text, p, d, cin.Pos());
          str := str + rest;
        } else if IsExponent(c) {
          ExponentBound(text, p, d);
          ok, rest := ScanExponent(p);
          SliceJoin(text, p, d, cin.Pos());
          str := str + rest;
        } else {
          ok := false;
        }
      } else if c == DOT {
        BareBound(text, p);
        ok, str := ScanBareFraction();
      }
    }

    /** A dot with digits after it. */
    method ScanBareFraction() returns (ok: bool, str: seq<int>)
      requires Valid() && At(text, cin.Pos()) == DOT && !Digits(text, cin.Pos()).ok
      modifies cin, cin.buffer
      ensures Valid() && var p, s := old(cin.Pos()), Number(text, old(cin.Pos()));
        && ok == s.ok && (ok ==> cin.Pos() == s.end && s.end <= |text| && str == text[p..s.end])
        && |str| == cin.Pos() - p
        && Looked(old(cin.Seen()), old(cin.Oldest()), s.look, cin.Seen(), cin.Oldest())
    {
      hide Window, Stream.Holds, Digits, Exponent, Fraction;
      ghost var p: nat := cin.Pos();
      DigitsBound(text, p + 1);
      var c := cin.Get();
      var digits;
      ok, digits := DecDigits();
      str := [c] + digits;
      assert text[p..cin.Pos()] == [text[p]] + text[p + 1..cin.Pos()];
      if ok {
        ghost var g: nat := cin.Pos();
        c := cin.Peek();
        if IsExponent(c) {
          ExponentBound(text, p, g);
          var exponent;
          ok, exponent := ScanExponent(p);
          SliceJoin(text, p, g, cin.Pos());
          str := str + exponent;
        }
      }
    }

    method TryFloat() returns (r: Tried)
      requires Valid()
      modifies cin, cin.buffer
      ensures Valid() && Agrees(FindFloat(text, old(cin.Pos())), r, old(cin.Pos()), cin.Pos())
    {
      hide Window, Stream.Holds, Word, Number;
      ghost var p: nat := cin.Pos();
      WordEnd(text, p, NAN);
      WordEnd(text, p, POS_INF);
      WordEnd(text, p, NEG_INF);
      var ok, threw := TrySymbol(NAN);
      if ok {
        return Yes(Float(NAN));
      }
      ok, threw := TrySymbol(POS_INF);
      if ok {
        return Yes(Float(POS_INF));
      }
      ok, threw := TrySymbol(NEG_INF);
      if ok {
        return Yes(Float(NEG_INF));
      }
      var str;
      ok, str := ScanNumber();
      if ok {
        return Yes(Float(str));
      }
      var t;
      threw, t := cin.Unget(|str|);
      r := if threw then Thrown else No;
    }

    method TryInt() returns (r: Tried)
      requires Valid()
      modifies cin, cin.buffer
      ensures Valid() && Agrees(FindInt(text, old(cin.Pos())), r, old(cin.Pos()), cin.Pos())
    {
      hide Window, Stream.Holds, Digits, Looked;
      DigitsBound(text, cin.Pos());
      var ok, str := DecDigits();
      r := if ok then Yes(Int(str)) else No;
    }

    method TryString() returns (r: Tried)
      requires Valid()
      modifies cin, cin.buffer
      ensures Valid() && Agrees(FindString(text, old(cin.Pos())), r, old(cin.Pos()), cin.Pos())
    {
      hide Window, Stream.Holds, RunEnd, Looked;
      ghost var p: nat := cin.Pos();
      var c := cin.Peek();
      if c != QUOTE {
        return No;
      }
      cin.Drop();
      var ok, str := TakeString();
      r := if ok then Yes(Str(str)) else Thrown;
    }

    /** The characters of a string and the closing quote. */
    method TakeString() returns (ok: bool, str: seq<int>)
      requires Valid() && cin.Pos() <= |text|
      modifies cin, cin.buffer
      ensures Valid() && var q := RunEnd(text, old(cin.Pos()), IsStringChar);
        && ok == (At(text, q) == QUOTE) && (ok ==> str == text[old(cin.Pos())..q] && cin.Pos() == q + 1)
    {
      hide Window, Stream.Holds, RunEnd, Looked, IsStringChar;
      ghost var p: nat := cin.Pos();
      NotInString();
      str := [];
      var c := cin.Peek();
      while c != QUOTE
        invariant Valid() && p <= cin.Pos() <= |text| && c == At(text, cin.Pos())
        invariant RunEnd(text, p, IsStringChar) == RunEnd(text, cin.Pos(), IsStringChar)
        invariant str == text[p..cin.Pos()]
        decreases |text| - cin.Pos()
      {
        ghost var q: nat := cin.Pos();
        c := cin.Get();
        if !IsStringChar(c) {
          RunStop(text, q, IsStringChar);
          return false, [];
        }
        RunStep(text, p, q, IsStringChar, str);
        str := str + [c];
        c := cin.Peek();
      }
      RunStop(text, cin.Pos(), IsStringChar);
      cin.Drop();
      ok := true;
    }

    method TryIdentifier() returns (r: Tried)
      requires Valid()
      modifies cin, cin.buffer
      ensures Valid() && Agrees(FindIdentifier(text, old(cin.Pos()), config), r, old(cin.Pos()), cin.Pos())
    {
      hide Window, Stream.Holds, RunEnd, Looked;
      ghost var p: nat := cin.Pos();
      var c := cin.Peek();
      if !config.IsAlpha(c) {
        return No;
      }
      c := cin.Get();
      var rest := TakeRun(config.IsAlphaNum);
      assert text[p..cin.Pos()] == [text[p]] + text[p + 1..cin.Pos()];
      r := Yes(Identifier([c] + rest));
    }

    method SkipSeps()
      requires Valid()
      modifies cin, cin.buffer
      ensures Valid() && cin.Pos() == SkipSeparators(text, old(cin.Pos()), config)
    {
      hide Window, Stream.Holds, RunEnd, Looked;
      ghost var p: nat := cin.Pos();
      var c := cin.Peek();
      while c != EOF && config.IsSeparator(c)
        invariant Valid() && p <= cin.Pos() && c == At(text, cin.Pos())
        invariant RunEnd(text, p, config.IsSeparator) == RunEnd(text, cin.Pos(), config.IsSeparator)
        decreases |text| - cin.Pos()
      {
        RunStep(text, cin.Pos(), cin.Pos(), config.IsSeparator, []);
        cin.Drop();
        c := cin.Peek();
      }
      RunStop(text, cin.Pos(), config.IsSeparator);
    }

    /** The next token: exactly what the alternatives find at the first character that is no separator. */
    method Next() returns (r: Tried)
      requires Valid()
      modifies cin, cin.buffer
      ensures Valid() && r != No
      ensures var s := SkipSeparators(text, old(cin.Pos()), config); Agrees(Lex(text, s, config), r, s, cin.Pos())
    {
      hide Window, Stream.Holds, FindSymbol, FindFloat, FindInt, FindString, FindIdentifier, SkipSeparators;
      SkipSeps();
      r := TrySymbols();
      if r != No { return; }
      r := TryFloat();
      if r != No { return; }
      r := TryInt();
      if r != No { return; }
      r := TryString();
      if r != No { return; }
      r := TryIdentifier();
      if r != No { return; }
      var c := cin.Peek();
      if c == EOF {
        return Yes(Eof);
      }
      c := cin.Get();
      r := Yes(Char(c));
    }
  }

  lemma NotInString()
    ensures !IsStringChar(EOF) && !IsStringChar(QUOTE)
  {}

  lemma WordEnd(text: seq<int>, p: nat, word: seq<int>)
    ensures var s := Word(text, p, word);
      && s.end == (if s.ok then p + |word| else p) && (s.ok ==> s.look == s.end) && p <= s.look <= p + |word|
  {}

  function TokensOf(pieces: seq<Piece>): (r: seq<Token>)
    ensures |r| == |pieces| && forall n :: 0 <= n < |r| ==> r[n] == pieces[n].token
  {
    if pieces == [] then [] else [pieces[0].token] + TokensOf(pieces[1..])
  }

  lemma TokenizeStep(text: seq<int>, p: nat, c: Config, tokens: seq<Token>, token: Token, end: nat)
    requires p <= |text| && ProperSymbols(c.symbols) && Lex(text, SkipSeparators(text, p, c), c) == Found(token, end)
    requires token != Eof
    ensures p < end <= |text|
    ensures Tokenize(text, p, c).threw == Tokenize(text, end, c).threw
    ensures tokens + TokensOf(Tokenize(text, p, c).pieces) == tokens + [token] + TokensOf(Tokenize(text, end, c).pieces)
  {
    hide Lex, SkipSeparators, TokensOf;
    var s := SkipSeparators(text, p, c);
    SeparatorsEnd(text, p, c);
    LexSpelled(text, s, c);
    TokensFirst(Piece(text[p..s], token), Tokenize(text, end, c).pieces);
  }

  lemma TokensFirst(piece: Piece, rest: seq<Piece>)
    ensures TokensOf([piece] + rest) == [piece.token] + TokensOf(rest)
  {
    assert ([piece] + rest)[1..] == rest;
  }

  lemma TokenizeEnds(text: seq<int>, p: nat, c: Config)
    requires p <= |text| && ProperSymbols(c.symbols)
    ensures Lex(text, SkipSeparators(text, p, c), c) == Threw ==> Tokenize(text, p, c) == Pieces([], true, p)
    ensures Lex(text, SkipSeparators(text, p, c), c).Found? && Lex(text, SkipSeparators(text, p, c), c).token == Eof ==>
      Tokenize(text, p, c) == Pieces([], false, p)
  {
    hide Lex;
  }

  /** Calling `next` until the end comes to an end, and delivers the tokens that spell the text. */
  method ReadAll(tokenizer: TokenStream) returns (threw: bool, tokens: seq<Token>)
    requires tokenizer.Valid() && ProperSymbols(tokenizer.config.symbols) && tokenizer.cin.Pos() <= |tokenizer.text|
    modifies tokenizer.cin, tokenizer.cin.buffer
    ensures var r := Tokenize(tokenizer.text, old(tokenizer.cin.Pos()), tokenizer.config);
      threw == r.threw && tokens == TokensOf(r.pieces)
  {
    hide Window, Stream.Holds, Lex, SkipSeparators, Tokenize, ProperSymbols;
    ghost var text, p: nat, c := tokenizer.text, tokenizer.cin.Pos(), tokenizer.config;
    tokens := [];
    while true
      invariant tokenizer.Valid() && tokenizer.cin.Pos() <= |text|
      invariant Tokenize(text, p, c).threw == Tokenize(text, tokenizer.cin.Pos(), c).threw
      invariant TokensOf(Tokenize(text, p, c).pieces) ==
        tokens + TokensOf(Tokenize(text, tokenizer.cin.Pos(), c).pieces)
      decreases |text| - tokenizer.cin.Pos()
    {
      ghost var q: nat := tokenizer.cin.Pos();
      TokenizeEnds(text, q, c);
      var r := tokenizer.Next();
      if r == Thrown {
        return true, tokens;
      }
      if r.token == Eof {
        return false, tokens;
      }
      TokenizeStep(text, q, c, tokens, r.token, tokenizer.cin.Pos());
      tokens := tokens + [r.token];
    }
  }
}
