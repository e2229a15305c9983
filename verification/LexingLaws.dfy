/**
 * What the tokenizer's choices amount to: the language of its numbers, when it throws, and that its tokens spell the
 * text.
 */
module LexingLaws {
  import opened Streams
  import opened CharStreams
  import opened Seqs
  import opened Lexing

  // ------------------------------------------------------------ numbers

  /** A decimal number without dot stands in `[a, b)`. */
  ghost predicate DecAt(text: seq<int>, a: nat, b: nat) {
    SignEnd(text, a) < b && forall i: nat :: SignEnd(text, a) <= i < b ==> IsDigit(At(text, i))
  }

  /** Number, dot, number; one of the two may be missing. */
  ghost predicate MantissaAt(text: seq<int>, p: nat, q: nat) {
    || (exists d: nat :: DotAfter(text, p, d) && (q == d + 1 || DecAt(text, d + 1, q)))
    || (At(text, p) == DOT && DecAt(text, p + 1, q))
  }

  ghost predicate DotAfter(text: seq<int>, p: nat, d: nat) {
    DecAt(text, p, d) && At(text, d) == DOT
  }

  /** A float: a mantissa, or a mantissa or plain number with an exponent. */
  ghost predicate FloatAt(text: seq<int>, p: nat, q: nat) {
    MantissaAt(text, p, q) || exists m: nat :: ExponentAfter(text, p, m) && DecAt(text, m + 1, q)
  }

  ghost predicate ExponentAfter(text: seq<int>, p: nat, m: nat) {
    (DecAt(text, p, m) || MantissaAt(text, p, m)) && IsExponent(At(text, m))
  }

  ghost predicate LongestFloat(text: seq<int>, p: nat, q: nat) {
    FloatAt(text, p, q) && forall r: nat :: FloatAt(text, p, r) ==> r <= q
  }

  /** An exponent letter without a number after it. */
  ghost predicate Dangling(text: seq<int>, q: nat) {
    IsExponent(At(text, q)) && !Digits(text, q + 1).ok
  }

  lemma DecIsDigits(text: seq<int>, a: nat, b: nat)
    ensures Digits(text, a).ok ==> DecAt(text, a, Digits(text, a).end) && !IsDigit(At(text, Digits(text, a).end))
    ensures DecAt(text, a, b) ==>
      Digits(text, a).ok && b <= Digits(text, a).end && (!IsDigit(At(text, b)) ==> b == Digits(text, a).end)
  {
    var e := DigitsEnd(text, SignEnd(text, a));
    assert !IsDigit(At(text, e));
    if DecAt(text, a, b) {
      assert IsDigit(At(text, SignEnd(text, a)));
      if e < b { assert false; }
      assert b < e ==> IsDigit(At(text, b));
    }
  }

  /** End of the longest mantissa at `p`, `p` if there is none. */
  function MantissaEnd(text: seq<int>, p: nat): nat {
    var d := Digits(text, p);
    if d.ok && At(text, d.end) == DOT then Digits(text, d.end + 1).end
    else if !d.ok && At(text, p) == DOT && Digits(text, p + 1).ok then Digits(text, p + 1).end
    else p
  }

  lemma DotIsNoDigit(text: seq<int>, p: nat)
    requires At(text, p) == DOT
    ensures !IsDigit(At(text, p)) && !IsExponent(At(text, p)) && !Digits(text, p).ok
  {
    DecIsDigits(text, p, p);
    assert SignEnd(text, p) == p;
    hide SignEnd;
  }

  lemma LetterIsNoNumber(text: seq<int>, q: nat)
    requires IsExponent(At(text, q))
    ensures !Digits(text, q).ok
  {
    DecIsDigits(text, q, q);
    hide Digits;
  }

  lemma MantissaLongest(text: seq<int>, p: nat, q: nat)
    ensures p < MantissaEnd(text, p) ==> MantissaAt(text, p, MantissaEnd(text, p))
    ensures MantissaAt(text, p, q) ==> p < MantissaEnd(text, p) && q <= MantissaEnd(text, p)
    ensures MantissaAt(text, p, q) && IsExponent(At(text, q)) ==> q == MantissaEnd(text, p)
  {
    hide DecAt, Digits;
    var d := Digits(text, p);
    if IsExponent(At(text, q)) { LetterIsNoNumber(text, q); }
    DigitsBound(text, p);
    DecIsDigits(text, p, p);
    DigitsBound(text, d.end + 1);
    DecIsDigits(text, d.end + 1, q);
    DigitsBound(text, p + 1);
    DecIsDigits(text, p + 1, q);
    if d.ok && At(text, d.end) == DOT { assert DotAfter(text, p, d.end); }
    if At(text, p) == DOT { DotIsNoDigit(text, p); }
    forall e: nat | DotAfter(text, p, e) ensures d.ok && e == d.end {
      DotIsNoDigit(text, e);
      DecIsDigits(text, p, e);
    }
  }

  /** Where an exponent can start: after the plain number or after the mantissa. */
  lemma LetterPlaces(text: seq<int>, p: nat, m: nat)
    requires ExponentAfter(text, p, m)
    ensures (Digits(text, p).ok && m == Digits(text, p).end) || (p < MantissaEnd(text, p) && m == MantissaEnd(text, p))
  {
    DecIsDigits(text, p, m);
    MantissaLongest(text, p, m);
    hide Digits, MantissaEnd, DecAt, MantissaAt;
  }

  /** The scan, said by the end of the mantissa. */
  lemma NumberByMantissa(text: seq<int>, p: nat)
    ensures var s, d, g := Number(text, p), Digits(text, p), MantissaEnd(text, p);
      && (p < g && IsExponent(At(text, g)) ==> s == Exponent(text, p, g))
      && (p < g && !IsExponent(At(text, g)) ==> s.ok && s.end == g)
      && (p == g && d.ok && IsExponent(At(text, d.end)) ==> s == Exponent(text, p, d.end))
      && (p == g && !(d.ok && IsExponent(At(text, d.end))) ==> !s.ok)
      && p <= g && (p < g && d.ok ==> At(text, d.end) == DOT)
  {
    hide Digits, Exponent;
    DigitsBound(text, p);
    DigitsBound(text, Digits(text, p).end + 1);
    DigitsBound(text, p + 1);
  }

  /** Every float at `p` ends where the mantissa may end or in the exponent after it. */
  lemma FloatEnds(text: seq<int>, p: nat, q: nat)
    requires FloatAt(text, p, q)
    ensures var d, g := Digits(text, p), MantissaEnd(text, p);
      || (p < g && q <= g)
      || (p < g && IsExponent(At(text, g)) && DecAt(text, g + 1, q))
      || (d.ok && IsExponent(At(text, d.end)) && DecAt(text, d.end + 1, q))
  {
    hide Digits, MantissaEnd, DecAt, MantissaAt;
    MantissaLongest(text, p, q);
    if !MantissaAt(text, p, q) {
      var m: nat :| ExponentAfter(text, p, m) && DecAt(text, m + 1, q);
      LetterPlaces(text, p, m);
    }
  }

  /** A number token is the longest float at its position. */
  lemma NumberIsLongest(text: seq<int>, p: nat)
    requires Number(text, p).ok
    ensures LongestFloat(text, p, Number(text, p).end)
    ensures !(MantissaAt(text, p, Number(text, p).end) && Dangling(text, Number(text, p).end))
  {
    hide Digits, MantissaEnd, DecAt, MantissaAt, Number;
    var d, g, e := Digits(text, p), MantissaEnd(text, p), Number(text, p).end;
    NumberByMantissa(text, p);
    MantissaLongest(text, p, e);
    var m := if p < g then g else d.end;
    DigitsBound(text, p);
    DigitsBound(text, m + 1);
    DecIsDigits(text, p, m);
    if IsExponent(At(text, m)) {
      MantissaLongest(text, p, g);
      DecIsDigits(text, m + 1, e);
      assert ExponentAfter(text, p, m);
    } else {
      MantissaLongest(text, p, g);
    }
    forall r: nat | FloatAt(text, p, r) ensures r <= e {
      FloatEnds(text, p, r);
      DecIsDigits(text, g + 1, r);
      DecIsDigits(text, d.end + 1, r);
    }
  }

  /**
   * `tryFloat` fails on a number only where there is no float, or the longest one is cut off by a dangling exponent.
   */
  lemma NumberFails(text: seq<int>, p: nat, q: nat)
    requires !Number(text, p).ok && LongestFloat(text, p, q)
    ensures MantissaAt(text, p, q) && Dangling(text, q)
  {
    hide Digits, MantissaEnd, DecAt, MantissaAt, Number;
    var d, g := Digits(text, p), MantissaEnd(text, p);
    NumberByMantissa(text, p);
    FloatEnds(text, p, q);
    MantissaLongest(text, p, g);
    DecIsDigits(text, g + 1, q);
    DecIsDigits(text, d.end + 1, q);
    assert MantissaAt(text, p, g) ==> FloatAt(text, p, g);
  }

  // ------------------------------------------------------------ when it throws

  /** Short symbols are always put back. */
  lemma {:induction false} ShortSymbolsNeverThrow(text: seq<int>, p: nat, symbols: seq<seq<int>>)
    requires forall i :: 0 <= i < |symbols| ==> |symbols[i]| <= BUF_SIZE
    ensures FindSymbol(text, p, symbols) != Threw
  {
    if symbols != [] {
      assert |symbols[0]| <= BUF_SIZE;
      ShortSymbolsNeverThrow(text, p, symbols[1..]);
    }
  }

  /** The symbol neither stands at `p` nor throws there. */
  ghost predicate Passed(text: seq<int>, p: nat, symbol: seq<int>) {
    Agreed(text, symbol, p, 0) < |symbol| && Agreed(text, symbol, p, 0) < BUF_SIZE
  }

  /** The first symbol that is not passed decides, and makes it throw exactly if it agrees for too long. */
  ghost predicate ThrowsAt(text: seq<int>, p: nat, symbols: seq<seq<int>>, i: nat)
    requires i < |symbols|
  {
    && BUF_SIZE <= Agreed(text, symbols[i], p, 0) < |symbols[i]|
    && forall j: nat :: j < i ==> Passed(text, p, symbols[j])
  }

  lemma {:induction false} SymbolsThrow(text: seq<int>, p: nat, symbols: seq<seq<int>>)
    ensures FindSymbol(text, p, symbols) == Threw <==> exists i: nat :: i < |symbols| && ThrowsAt(text, p, symbols, i)
  {
    if symbols != [] {
      var rest := symbols[1..];
      SymbolsThrow(text, p, rest);
      hide Agreed;
      if i: nat :| i < |rest| && ThrowsAt(text, p, rest, i) && Passed(text, p, symbols[0]) {
        forall j: nat | j < i + 1 ensures Passed(text, p, symbols[j]) {
          if 0 < j { assert symbols[j] == rest[j - 1]; }
        }
        assert ThrowsAt(text, p, symbols, i + 1);
      }
      if i: nat :| i < |symbols| && ThrowsAt(text, p, symbols, i) {
        if 0 < i {
          forall j: nat | j < i - 1 ensures Passed(text, p, rest[j]) {
            assert rest[j] == symbols[j + 1];
          }
          assert Passed(text, p, symbols[0]) && ThrowsAt(text, p, rest, i - 1);
        }
      }
      if Lost(p, Word(text, p, symbols[0])) { assert ThrowsAt(text, p, symbols, 0); }
    }
  }

  ghost predicate NoSpecialFloat(text: seq<int>, p: nat) {
    !OccursAt(text, NAN, p) && !OccursAt(text, POS_INF, p) && !OccursAt(text, NEG_INF, p)
  }

  /** A number without dot and exponent stands in `[p, q)`, and nothing of a number follows. */
  ghost predicate IntegerAt(text: seq<int>, p: nat, q: nat) {
    DecAt(text, p, q) && !IsDigit(At(text, q)) && At(text, q) != DOT && !IsExponent(At(text, q))
  }

  /** The exponent letter at `m` has no digits after it, not even after a sign. */
  ghost predicate LetterOnly(text: seq<int>, p: nat, m: nat) {
    ExponentAfter(text, p, m) && !IsDigit(At(text, SignEnd(text, m + 1)))
  }

  /**
   * No float stands at `p`, but too many characters in front of the place where that shows: in front of the end of an
   * integer, or in front of the character after an exponent letter and its sign.
   */
  ghost predicate ShowsTooLate(text: seq<int>, p: nat) {
    || (exists q: nat :: IntegerAt(text, p, q) && BUF_SIZE <= q - p)
    || (exists m: nat :: LetterOnly(text, p, m) && BUF_SIZE <= SignEnd(text, m + 1) - p)
  }

  lemma NoDigits(text: seq<int>, a: nat)
    ensures Digits(text, a).ok <==> IsDigit(At(text, SignEnd(text, a)))
    ensures !Digits(text, a).ok ==> Digits(text, a).end == a && Digits(text, a).look == SignEnd(text, a) + 1
    ensures Digits(text, a).ok ==> Digits(text, a).look == Digits(text, a).end + 1
  {}

  lemma IntegerScan(text: seq<int>, p: nat, q: nat)
    requires IntegerAt(text, p, q)
    ensures Digits(text, p).ok && q == Digits(text, p).end <= |text| && Number(text, p) == Scan(false, p, q + 1)
  {
    DecIsDigits(text, p, q);
    NoDigits(text, p);
    DigitsBound(text, p);
    hide Digits, DecAt;
  }

  lemma LetterScan(text: seq<int>, p: nat, m: nat)
    requires LetterOnly(text, p, m)
    ensures Number(text, p) == Scan(false, p, SignEnd(text, m + 1) + 1)
  {
    hide Digits, MantissaEnd, Number, SignEnd;
    LetterPlaces(text, p, m);
    NumberByMantissa(text, p);
    NoDigits(text, m + 1);
  }

  /** Where a failing scan that has come past the first character has stopped. */
  lemma ScanStops(text: seq<int>, p: nat)
    requires !Number(text, p).ok
    ensures Number(text, p).look <= p + 3
            || (exists q: nat :: IntegerAt(text, p, q) && Number(text, p).look == q + 1)
            || (exists m: nat :: LetterOnly(text, p, m) && Number(text, p).look == SignEnd(text, m + 1) + 1)
  {
    hide Digits, MantissaEnd, DecAt, MantissaAt, Number;
    var d, g := Digits(text, p), MantissaEnd(text, p);
    NumberByMantissa(text, p);
    MantissaLongest(text, p, g);
    DecIsDigits(text, p, d.end);
    var m := if p < g then g else d.end;
    NoDigits(text, m + 1);
    if IsExponent(At(text, m)) && (p < g || d.ok) {
      assert LetterOnly(text, p, m);
      LetterScan(text, p, m);
    } else {
      PlainScan(text, p);
      assert d.ok ==> IntegerAt(text, p, d.end);
    }
  }

  lemma PlainScan(text: seq<int>, p: nat)
    requires MantissaEnd(text, p) == p && !(Digits(text, p).ok && IsExponent(At(text, Digits(text, p).end)))
    ensures Digits(text, p).ok ==>
      At(text, Digits(text, p).end) != DOT && Number(text, p).look == Digits(text, p).end + 1
    ensures !Digits(text, p).ok ==> Number(text, p).look <= p + 3
  {
    hide Digits;
    DigitsBound(text, p);
    DigitsBound(text, p + 1);
    DigitsBound(text, Digits(text, p).end + 1);
    NoDigits(text, p);
    NoDigits(text, p + 1);
  }

  /** What a failing attempt to read a float has looked at is lost exactly if its failure shows too late. */
  lemma NumberLost(text: seq<int>, p: nat)
    ensures Lost(p, Number(text, p)) <==> ShowsTooLate(text, p)
  {
    hide Number, IntegerAt, LetterOnly, SignEnd;
    if q: nat :| IntegerAt(text, p, q) && BUF_SIZE <= q - p {
      IntegerScan(text, p, q);
    }
    if m: nat :| LetterOnly(text, p, m) && BUF_SIZE <= SignEnd(text, m + 1) - p {
      LetterScan(text, p, m);
    }
    if Lost(p, Number(text, p)) {
      ScanStops(text, p);
    }
  }

  /**
   * The exact cases in which a token cannot be read: a symbol that agrees for too long, a number whose failure shows
   * too late, and a string with another character in front of its closing quote.
   */
  lemma LexThrows(text: seq<int>, p: nat, c: Config)
    ensures Lex(text, p, c) == Threw <==>
      ((exists i: nat :: i < |c.symbols| && ThrowsAt(text, p, c.symbols, i))
       || (FindSymbol(text, p, c.symbols) == NotFound
           && ((NoSpecialFloat(text, p) && ShowsTooLate(text, p))
               || (At(text, p) == QUOTE && At(text, RunEnd(text, p + 1, IsStringChar)) != QUOTE))))
  {
    SymbolsThrow(text, p, c.symbols);
    NumberLost(text, p);
    OccursAgreed(text, NAN, p);
    OccursAgreed(text, POS_INF, p);
    OccursAgreed(text, NEG_INF, p);
    hide OccursAt, Agreed, RunEnd, FindSymbol, Number, Digits, ThrowsAt, ShowsTooLate;
    if At(text, p) == QUOTE { QuoteIsNoNumber(text, p); }
  }

  lemma StartsWith(text: seq<int>, word: seq<int>, p: nat)
    requires word != []
    ensures OccursAt(text, word, p) ==> At(text, p) == word[0]
  {
    if OccursAt(text, word, p) { OccursChar(text, word, p, 0); }
  }

  lemma OccursChar(text: seq<int>, word: seq<int>, p: nat, j: nat)
    requires OccursAt(text, word, p) && j < |word|
    ensures At(text, p + j) == word[j]
  {}

  lemma QuoteIsNoNumber(text: seq<int>, p: nat)
    requires At(text, p) == QUOTE
    ensures NoSpecialFloat(text, p) && !Lost(p, Number(text, p)) && !Digits(text, p).ok && !Number(text, p).ok
  {
    StartsWith(text, NAN, p);
    StartsWith(text, POS_INF, p);
    StartsWith(text, NEG_INF, p);
    hide OccursAt;
    DigitsBound(text, p);
    DecIsDigits(text, p, p);
  }

  lemma NumberIsNotSpecial(text: seq<int>, p: nat)
    requires Digits(text, p).ok
    ensures NoSpecialFloat(text, p)
  {
    NoDigits(text, p);
    StartsWith(text, NAN, p);
    if OccursAt(text, POS_INF, p) { OccursChar(text, POS_INF, p, 0); OccursChar(text, POS_INF, p, 1); }
    if OccursAt(text, NEG_INF, p) { OccursChar(text, NEG_INF, p, 0); OccursChar(text, NEG_INF, p, 1); }
    hide OccursAt, Digits;
  }

  /** What becomes of a number: a float if one stands there, else the integer in front, unless that shows too late. */
  lemma NumberRead(text: seq<int>, p: nat, c: Config)
    requires FindSymbol(text, p, c.symbols) == NotFound && Digits(text, p).ok
    ensures Digits(text, p).end <= |text| && (Number(text, p).ok ==> p < Number(text, p).end <= |text|)
    ensures Lex(text, p, c) ==
      if Number(text, p).ok then Found(Float(text[p..Number(text, p).end]), Number(text, p).end)
      else if ShowsTooLate(text, p) then Threw
      else Found(Int(text[p..Digits(text, p).end]), Digits(text, p).end)
  {
    NumberIsNotSpecial(text, p);
    NumberLost(text, p);
    NumberEnd(text, p);
    DigitsBound(text, p);
    OccursAgreed(text, NAN, p);
    OccursAgreed(text, POS_INF, p);
    OccursAgreed(text, NEG_INF, p);
    hide OccursAt, Agreed, FindSymbol, Number, Digits, ShowsTooLate;
  }

  /** An integer is read exactly if it has fewer than 1024 characters, its sign included. Otherwise it throws. */
  lemma IntegerRead(text: seq<int>, p: nat, q: nat, c: Config)
    requires FindSymbol(text, p, c.symbols) == NotFound && IntegerAt(text, p, q)
    ensures q <= |text| && Lex(text, p, c) == if q - p < BUF_SIZE then Found(Int(text[p..q]), q) else Threw
  {
    IntegerScan(text, p, q);
    NumberRead(text, p, c);
    NumberLost(text, p);
    hide Digits, Number, ShowsTooLate, Lex, IntegerAt;
  }

  /** A minus and `n` digits. */
  function MinusDigits(n: nat): (r: seq<int>)
    ensures |r| == n + 1 && r[0] == MINUS && forall i :: 0 < i <= n ==> r[i] == 48
  {
    [MINUS] + seq(n, _ => 48)
  }

  /** Inputs on which it throws: a minus with 1023 digits, and the same with 1022 digits and a bare exponent letter. */
  lemma LongIntegerThrows(c: Config)
    requires c.symbols == []
    ensures Lex(MinusDigits(1023), 0, c) == Threw
    ensures FindInt(MinusDigits(1023), 0) == Found(Int(MinusDigits(1023)), 1024)
    ensures Lex(MinusDigits(1022), 0, c) == Found(Int(MinusDigits(1022)), 1023)
    ensures Lex(MinusDigits(1022) + [101], 0, c) == Threw
  {
    hide MinusDigits, Lex, FindInt;
    MinusInteger(1023, c);
    MinusInteger(1022, c);
    MinusLetter(1022, c);
  }

  lemma MinusLetter(n: nat, c: Config)
    requires c.symbols == [] && BUF_SIZE <= n + 2
    ensures Lex(MinusDigits(n) + [101], 0, c) == Threw
  {
    var text := MinusDigits(n) + [101];
    LetterBehind(text, n + 1);
    hide MinusDigits, Digits, DecAt, Number, Lex, LetterOnly;
    assert ShowsTooLate(text, 0) by { assert LetterOnly(text, 0, n + 1); }
    LetterScan(text, 0, n + 1);
    NumberRead(text, 0, c);
  }

  lemma LetterBehind(text: seq<int>, m: nat)
    requires 1 < m && |text| == m + 1 && text[0] == MINUS && text[m] == 101
    requires forall i :: 0 < i < m ==> text[i] == 48
    ensures LetterOnly(text, 0, m) && SignEnd(text, m + 1) == m + 1 && Digits(text, 0).ok
  {
    forall i: nat | 1 <= i < m ensures IsDigit(At(text, i)) {}
    assert DecAt(text, 0, m) && At(text, m + 1) == EOF;
    DecIsDigits(text, 0, m);
    hide Digits, DecAt;
  }

  lemma MinusInteger(n: nat, c: Config)
    requires c.symbols == [] && 0 < n
    ensures var text := MinusDigits(n);
      && FindInt(text, 0) == Found(Int(text), n + 1)
      && Lex(text, 0, c) == if n + 1 < BUF_SIZE then Found(Int(text), n + 1) else Threw
  {
    var text := MinusDigits(n);
    assert text[0..n + 1] == text;
    forall i: nat | 1 <= i < n + 1 ensures IsDigit(At(text, i)) {}
    assert IntegerAt(text, 0, n + 1);
    IntegerScan(text, 0, n + 1);
    IntegerRead(text, 0, n + 1, c);
    hide Digits, DecAt, Lex, Number;
  }

  /** A character that starts an identifier and no other token. */
  ghost predicate StartsIdentifierOnly(c: Config, x: int) {
    c.IsAlpha(x) && !IsDigit(x) && !IsSign(x) && x != DOT && x != QUOTE
  }

  /** An identifier is found whole exactly if it does not start with `nan`: that is taken for a float first. */
  lemma NanFirst(text: seq<int>, p: nat, c: Config)
    requires StartsIdentifierOnly(c, At(text, p)) && FindSymbol(text, p, c.symbols) == NotFound
    ensures Lex(text, p, c) == FindIdentifier(text, p, c) <==> !OccursAt(text, NAN, p)
    ensures OccursAt(text, NAN, p) ==> Lex(text, p, c) == Found(Float(NAN), p + 3)
  {
    OccursAgreed(text, NAN, p);
    OccursAgreed(text, POS_INF, p);
    OccursAgreed(text, NEG_INF, p);
    StartsWith(text, POS_INF, p);
    StartsWith(text, NEG_INF, p);
    NoNumberStarts(text, p);
    hide Agreed, OccursAt, RunEnd, FindSymbol, Number, Digits;
  }

  lemma NoNumberStarts(text: seq<int>, p: nat)
    requires !IsDigit(At(text, p)) && !IsSign(At(text, p)) && At(text, p) != DOT
    ensures !Digits(text, p).ok && !Number(text, p).ok && !Lost(p, Number(text, p))
  {
    DigitsBound(text, p);
    DecIsDigits(text, p, p);
  }

  /** "nano" becomes the float "nan"; as an identifier it would be four characters long. */
  lemma NanoIsSplit(c: Config)
    requires c == Config([110, 97, 111], [], [])
    ensures Lex([110, 97, 110, 111], 0, c) == Found(Float(NAN), 3)
    ensures FindIdentifier([110, 97, 110, 111], 0, c) == Found(Identifier([110, 97, 110, 111]), 4)
  {
    var text := [110, 97, 110, 111];
    NanFirst(text, 0, c);
    RunEndUnique(text, 1, c.IsAlphaNum, 4);
    assert text[0..4] == text;
  }

  // ------------------------------------------------------------ tokens spell the text

  ghost predicate ProperWord(word: seq<int>) {
    word != [] && forall j: nat :: j < |word| ==> word[j] != EOF
  }

  ghost predicate ProperSymbols(symbols: seq<seq<int>>) {
    forall i: nat :: i < |symbols| ==> ProperWord(symbols[i])
  }

  /**
   * The found token ends inside the text, is spelled by what it covers, and covers something unless the text is over.
   */
  ghost predicate Spelled(text: seq<int>, p: nat, o: Outcome) {
    match o
    case Found(token, end) =>
      && p <= end <= |text| && text[p..end] == token.Spelling()
      && (token == Eof <==> p == end) && (token == Eof ==> At(text, p) == EOF)
    case NotFound => true
    case Threw => true
  }

  lemma WordSpelled(text: seq<int>, p: nat, word: seq<int>)
    requires p <= |text| && ProperWord(word) && OccursAt(text, word, p)
    ensures p + |word| <= |text| && text[p..p + |word|] == word
  {
    if |text| < p + |word| {
      OccursChar(text, word, p, |text| - p);
    }
    forall j: nat | j < |word| ensures text[p + j] == word[j] {
      assert At(text, p + j) == word[j];
    }
  }

  lemma {:induction false} SymbolSpelled(text: seq<int>, p: nat, symbols: seq<seq<int>>)
    requires p <= |text| && ProperSymbols(symbols)
    ensures Spelled(text, p, FindSymbol(text, p, symbols))
  {
    if symbols != [] {
      assert ProperWord(symbols[0]);
      OccursAgreed(text, symbols[0], p);
      if OccursAt(text, symbols[0], p) { WordSpelled(text, p, symbols[0]); }
      assert ProperSymbols(symbols[1..]) by {
        forall i: nat | i < |symbols[1..]| ensures ProperWord(symbols[1..][i]) {
          assert ProperWord(symbols[i + 1]);
        }
      }
      hide Agreed, OccursAt, ProperWord, ProperSymbols;
      SymbolSpelled(text, p, symbols[1..]);
    }
  }

  lemma FloatSpelled(text: seq<int>, p: nat)
    requires p <= |text|
    ensures Spelled(text, p, FindFloat(text, p))
  {
    hide Agreed, OccursAt, Number;
    NumberEnd(text, p);
    OccursAgreed(text, NAN, p);
    OccursAgreed(text, POS_INF, p);
    OccursAgreed(text, NEG_INF, p);
    if OccursAt(text, NAN, p) { WordSpelled(text, p, NAN); }
    if OccursAt(text, POS_INF, p) { WordSpelled(text, p, POS_INF); }
    if OccursAt(text, NEG_INF, p) { WordSpelled(text, p, NEG_INF); }
  }

  lemma StringSpelled(text: seq<int>, p: nat)
    requires p <= |text|
    ensures Spelled(text, p, FindString(text, p))
  {
    hide RunEnd;
    if At(text, p) == QUOTE {
      var q := RunEnd(text, p + 1, IsStringChar);
      if At(text, q) == QUOTE {
        assert text[p..q + 1] == [text[p]] + text[p + 1..q] + [text[q]];
      }
    }
  }

  lemma OthersSpelled(text: seq<int>, p: nat, c: Config)
    requires p <= |text|
    ensures Spelled(text, p, FindInt(text, p))
    ensures Spelled(text, p, FindIdentifier(text, p, c))
    ensures Spelled(text, p, FindOther(text, p))
  {
    hide Digits, RunEnd;
    DigitsBound(text, p);
    assert p < |text| ==> text[p..p + 1] == [text[p]];
  }

  /** Every token is what its part of the text spells, and each but the last covers at least one character. */
  lemma LexSpelled(text: seq<int>, p: nat, c: Config)
    requires p <= |text| && ProperSymbols(c.symbols)
    ensures Spelled(text, p, Lex(text, p, c))
  {
    hide Spelled, FindSymbol, FindFloat, FindInt, FindString, FindIdentifier, FindOther, ProperSymbols;
    SymbolSpelled(text, p, c.symbols);
    FloatSpelled(text, p);
    StringSpelled(text, p);
    OthersSpelled(text, p, c);
  }

  ghost predicate EofFree(symbols: seq<seq<int>>) {
    forall i: nat :: i < |symbols| ==> EOF !in symbols[i]
  }

  /** Where the text is over only an empty symbol stands. */
  lemma {:induction false} SymbolAtEnd(text: seq<int>, p: nat, symbols: seq<seq<int>>)
    requires At(text, p) == EOF && EofFree(symbols)
    ensures FindSymbol(text, p, symbols) == if [] in symbols then Found(Symbol([]), p) else NotFound
  {
    if symbols != [] {
      var word := symbols[0];
      if word != [] { assert word[0] != EOF && At(text, p + 0) != word[0]; }
      assert symbols == [word] + symbols[1..];
      SymbolAtEnd(text, p, symbols[1..]);
    }
  }

  /**
   * The end is delivered exactly where the text is over, and only if no symbol is empty. With one, `next` stays
   * there.
   */
  lemma EmptySymbolStalls(text: seq<int>, p: nat, c: Config)
    requires EofFree(c.symbols)
    ensures Lex(text, p, c).Found? && Lex(text, p, c).token == Eof <==> At(text, p) == EOF && [] !in c.symbols
    ensures At(text, p) == EOF ==> Lex(text, p, c) == Found(if [] in c.symbols then Symbol([]) else Eof, p)
  {
    if At(text, p) == EOF {
      SymbolAtEnd(text, p, c.symbols);
      NoNumberStarts(text, p);
      OccursAgreed(text, NAN, p);
      OccursAgreed(text, POS_INF, p);
      OccursAgreed(text, NEG_INF, p);
      StartsWith(text, NAN, p);
      StartsWith(text, POS_INF, p);
      StartsWith(text, NEG_INF, p);
    } else {
      NeverEof(text, p, c.symbols);
    }
    hide Agreed, OccursAt, RunEnd, FindSymbol, Number, Digits;
  }

  lemma {:induction false} NeverEof(text: seq<int>, p: nat, symbols: seq<seq<int>>)
    ensures FindSymbol(text, p, symbols).Found? ==> FindSymbol(text, p, symbols).token.Symbol?
  {
    if symbols != [] { NeverEof(text, p, symbols[1..]); }
  }

  /** A token with the separators before it. */
  datatype Piece = Piece(separators: seq<int>, token: Token)

  /** All tokens up to the end or the first error, and where the rest of the text starts. */
  datatype Pieces = Pieces(pieces: seq<Piece>, threw: bool, rest: nat)

  function Tokenize(text: seq<int>, p: nat, c: Config): Pieces
    requires p <= |text| && ProperSymbols(c.symbols)
    decreases |text| - p
  {
    var s := SkipSeparators(text, p, c);
    LexSpelled(text, s, c);
    match Lex(text, s, c)
    case Found(token, end) =>
      if token == Eof then Pieces([], false, p)
      else
        var r := Tokenize(text, end, c);
        Pieces([Piece(text[p..s], token)] + r.pieces, r.threw, r.rest)
    case _ => Pieces([], true, p)
  }

  function Written(pieces: seq<Piece>): seq<int> {
    if pieces == [] then [] else pieces[0].separators + pieces[0].token.Spelling() + Written(pieces[1..])
  }

  lemma LexFinds(text: seq<int>, p: nat, c: Config)
    ensures Lex(text, p, c) != NotFound
  {
    hide FindSymbol, FindFloat, FindInt, FindString, FindIdentifier;
  }

  /** Tokenizing loses nothing: separators and spellings, written one after the other, are the text that was read. */
  lemma {:induction false} TokenizeWritesText(text: seq<int>, p: nat, c: Config)
    requires p <= |text| && ProperSymbols(c.symbols)
    ensures var r := Tokenize(text, p, c); p <= r.rest <= |text| && text[p..r.rest] == Written(r.pieces)
    ensures var r := Tokenize(text, p, c); !r.threw ==> At(text, SkipSeparators(text, r.rest, c)) == EOF
    ensures var r := Tokenize(text, p, c); r.threw ==> Lex(text, SkipSeparators(text, r.rest, c), c) == Threw
    decreases |text| - p
  {
    hide Lex, SkipSeparators;
    var s := SkipSeparators(text, p, c);
    SeparatorsEnd(text, p, c);
    LexSpelled(text, s, c);
    LexFinds(text, s, c);
    var o := Lex(text, s, c);
    if o.Found? && o.token != Eof {
      TokenizeWritesText(text, o.end, c);
      var r := Tokenize(text, o.end, c);
      SliceJoin(text, p, s, o.end);
      SliceJoin(text, p, o.end, r.rest);
      WrittenFirst(Piece(text[p..s], o.token), r.pieces);
    }
  }

  lemma SeparatorsEnd(text: seq<int>, p: nat, c: Config)
    requires p <= |text|
    ensures p <= SkipSeparators(text, p, c) <= |text|
  {}

  lemma WrittenFirst(piece: Piece, rest: seq<Piece>)
    ensures Written([piece] + rest) == piece.separators + piece.token.Spelling() + Written(rest)
  {
    assert ([piece] + rest)[1..] == rest;
  }

  // ------------------------------------------------------------ reaching the end

  /** Call number `n` of `next` delivers the end, and none before it does or throws. */
  ghost predicate EndAfter(text: seq<int>, p: nat, c: Config, n: nat)
    decreases n
  {
    var o := Lex(text, SkipSeparators(text, p, c), c);
    o.Found? && if o.token == Eof then n == 0 else 0 < n && EndAfter(text, o.end, c, n - 1)
  }

  lemma {:induction false} TokenizeReachesEnd(text: seq<int>, p: nat, c: Config) returns (n: nat)
    requires p <= |text| && ProperSymbols(c.symbols) && !Tokenize(text, p, c).threw
    ensures EndAfter(text, p, c, n)
    decreases |text| - p
  {
    hide Lex, SkipSeparators, ProperSymbols;
    var s := SkipSeparators(text, p, c);
    SeparatorsEnd(text, p, c);
    LexSpelled(text, s, c);
    var o := Lex(text, s, c);
    n := 0;
    if o.token != Eof {
      n := TokenizeReachesEnd(text, o.end, c);
      n := n + 1;
    }
  }

  lemma {:induction false} EndNeeds(text: seq<int>, p: nat, c: Config, n: nat)
    requires p <= |text| && EofFree(c.symbols) && EndAfter(text, p, c, n)
    ensures ProperSymbols(c.symbols) && !Tokenize(text, p, c).threw
    decreases n
  {
    hide Lex, SkipSeparators;
    var s := SkipSeparators(text, p, c);
    SeparatorsEnd(text, p, c);
    var o := Lex(text, s, c);
    EmptySymbolStalls(text, s, c);
    if 0 < n && [] in c.symbols {
      EndNeedsWords(text, o.end, c, n - 1);
    }
    WordsAreProper(c.symbols);
    if 0 < n {
      LexSpelled(text, s, c);
      EndNeeds(text, o.end, c, n - 1);
    }
  }

  lemma {:induction false} EndNeedsWords(text: seq<int>, p: nat, c: Config, n: nat)
    requires EofFree(c.symbols) && EndAfter(text, p, c, n)
    ensures [] !in c.symbols
    decreases n
  {
    hide Lex, SkipSeparators, EofFree;
    var o := Lex(text, SkipSeparators(text, p, c), c);
    if 0 < n {
      EndNeedsWords(text, o.end, c, n - 1);
    } else {
      EmptySymbolStalls(text, SkipSeparators(text, p, c), c);
    }
  }

  lemma WordsAreProper(symbols: seq<seq<int>>)
    requires EofFree(symbols)
    ensures ProperSymbols(symbols) <==> [] !in symbols
  {
    if [] !in symbols {
      forall i: nat | i < |symbols| ensures ProperWord(symbols[i]) {
        assert symbols[i] in symbols;
      }
    }
  }

  /** Calling `next` again and again gets to the end exactly if no symbol is empty and no token throws. */
  lemma EndReached(text: seq<int>, p: nat, c: Config)
    requires p <= |text| && EofFree(c.symbols)
    ensures ProperSymbols(c.symbols) <==> [] !in c.symbols
    ensures (exists n: nat :: EndAfter(text, p, c, n)) <==> ProperSymbols(c.symbols) && !Tokenize(text, p, c).threw
  {
    hide Tokenize, EndAfter, EofFree, ProperSymbols;
    WordsAreProper(c.symbols);
    if n: nat :| EndAfter(text, p, c, n) {
      EndNeeds(text, p, c, n);
    }
    if ProperSymbols(c.symbols) && !Tokenize(text, p, c).threw {
      var n := TokenizeReachesEnd(text, p, c);
    }
  }
}
