/** What the tokenizer has to find at a position of its text. */
module Lexing {
  import opened Streams
  import opened CharStreams

  const QUOTE := 34
  const PLUS := 43
  const MINUS := 45
  const DOT := 46

  const NAN: seq<int> := [110, 97, 110]
  const POS_INF: seq<int> := [43, 105, 110, 102]
  const NEG_INF: seq<int> := [45, 105, 110, 102]

  predicate IsDigit(c: int) {
    48 <= c <= 57
  }

  predicate IsSign(c: int) {
    c == PLUS || c == MINUS
  }

  predicate IsExponent(c: int) {
    c == 101 || c == 69
  }

  /** A category of characters: a map over the 256 byte values. */
  predicate InMap(chars: seq<int>, c: int) {
    0 <= c < 256 && c in chars
  }

  /** Letters, digits, blank, underscore, dot, comma, plus, minus, equals, colon, slash, star and backslash. */
  predicate IsStringChar(c: int) {
    || 97 <= c <= 122 || 65 <= c <= 90 || IsDigit(c)
    || c in [32, 95, 46, 44, 43, 45, 61, 58, 47, 42, 92]
  }

  datatype Config = Config(alpha: seq<int>, seps: seq<int>, symbols: seq<seq<int>>) {
    predicate IsAlpha(c: int) {
      InMap(alpha, c)
    }

    predicate IsAlphaNum(c: int) {
      IsAlpha(c) || IsDigit(c)
    }

    predicate IsSeparator(c: int) {
      InMap(seps, c)
    }
  }

  /** Tokens by their text. */
  datatype Token =
    | Eof
    | Char(c: int)
    | Int(text: seq<int>)
    | Float(text: seq<int>)
    | Identifier(text: seq<int>)
    | Str(text: seq<int>)
    | Symbol(text: seq<int>)
  {
    /** The characters the token stands for. */
    function Spelling(): seq<int> {
      match this
      case Eof => []
      case Char(c) => [c]
      case Str(s) => [QUOTE] + s + [QUOTE]
      case Int(s) => s
      case Float(s) => s
      case Identifier(s) => s
      case Symbol(s) => s
    }
  }

  datatype Outcome = Found(token: Token, end: nat) | NotFound | Threw

  // ------------------------------------------------------------ runs of characters

  /** End of the longest run of characters of the category at `p`. */
  function RunEnd(text: seq<int>, p: nat, category: int -> bool): (e: nat)
    ensures p <= e && (p <= |text| ==> e <= |text|)
    ensures e < |text| ==> !category(At(text, e))
    ensures forall i: nat :: p <= i < e ==> i < |text| && category(At(text, i))
    decreases |text| - p
  {
    if p < |text| && category(text[p]) then RunEnd(text, p + 1, category) else p
  }

  lemma RunEndUnique(text: seq<int>, p: nat, category: int -> bool, e: nat)
    requires p <= e <= |text| && (e < |text| ==> !category(At(text, e)))
    requires forall i: nat :: p <= i < e ==> category(At(text, i))
    ensures RunEnd(text, p, category) == e
  {
    var r := RunEnd(text, p, category);
    assert !(r < e);
    assert !(e < r);
  }

  function DigitsEnd(text: seq<int>, p: nat): nat {
    RunEnd(text, p, IsDigit)
  }

  // ------------------------------------------------------------ scans

  /** A scan from `p`: whether it found something, where that ends, and the end of what was looked at. */
  datatype Scan = Scan(ok: bool, end: nat, look: nat)

  /** What a failing scan has looked at no longer fits the buffer. */
  predicate Lost(p: nat, s: Scan) {
    !s.ok && p + BUF_SIZE < s.look
  }

  function SignEnd(text: seq<int>, p: nat): nat {
    if IsSign(At(text, p)) then p + 1 else p
  }

  /** `decDigits`: an optional sign and at least one digit. */
  function Digits(text: seq<int>, p: nat): Scan {
    var e := DigitsEnd(text, SignEnd(text, p));
    if SignEnd(text, p) < e then Scan(true, e, e + 1) else Scan(false, p, e + 1)
  }

  function Word(text: seq<int>, p: nat, word: seq<int>): Scan {
    var k := Agreed(text, word, p, 0);
    if k == |word| then Scan(true, p + k, p + k) else Scan(false, p, p + k + 1)
  }

  /** From the letter `e` on: the exponent has to have digits. */
  function Exponent(text: seq<int>, p: nat, q: nat): Scan {
    var x := Digits(text, q + 1);
    if x.ok then x else Scan(false, p, x.look)
  }

  /** After digits and a dot; more digits are optional. */
  function Fraction(text: seq<int>, p: nat, q: nat): Scan {
    var f := Digits(text, q + 1);
    if IsExponent(At(text, f.end)) then Exponent(text, p, f.end) else Scan(true, f.end, f.look)
  }

  /** The numbers of `tryFloat`: a dot, an exponent, or both. */
  function Number(text: seq<int>, p: nat): Scan {
    var d := Digits(text, p);
    if d.ok then
      if At(text, d.end) == DOT then Fraction(text, p, d.end)
      else if IsExponent(At(text, d.end)) then Exponent(text, p, d.end)
      else Scan(false, p, d.look)
    else if At(text, p) == DOT then
      var f := Digits(text, p + 1);
      if !f.ok then Scan(false, p, f.look)
      else if IsExponent(At(text, f.end)) then Exponent(text, p, f.end)
      else f
    else d
  }

  // ------------------------------------------------------------ tokens

  /** The first symbol, in the order of the list, that stands at `p`. */
  function FindSymbol(text: seq<int>, p: nat, symbols: seq<seq<int>>): Outcome {
    if symbols == [] then NotFound
    else
      var s := Word(text, p, symbols[0]);
      if s.ok then Found(Symbol(symbols[0]), s.end)
      else if Lost(p, s) then Threw
      else FindSymbol(text, p, symbols[1..])
  }

  function FindFloat(text: seq<int>, p: nat): Outcome {
    var s := Number(text, p);
    if StandsAt(text, NAN, p) then Found(Float(NAN), p + |NAN|)
    else if StandsAt(text, POS_INF, p) then Found(Float(POS_INF), p + |POS_INF|)
    else if StandsAt(text, NEG_INF, p) then Found(Float(NEG_INF), p + |NEG_INF|)
    else if s.ok then NumberEnd(text, p); Found(Float(text[p..s.end]), s.end)
    else if Lost(p, s) then Threw
    else NotFound
  }

  predicate StandsAt(text: seq<int>, word: seq<int>, p: nat) {
    Word(text, p, word).ok
  }

  function FindInt(text: seq<int>, p: nat): Outcome {
    var s := Digits(text, p);
    if s.ok then DigitsBound(text, p); Found(Int(text[p..s.end]), s.end) else NotFound
  }

  /** A quoted string; any other character before the closing quote throws. */
  function FindString(text: seq<int>, p: nat): Outcome {
    if At(text, p) != QUOTE then NotFound
    else
      var q := RunEnd(text, p + 1, IsStringChar);
      if At(text, q) == QUOTE then Found(Str(text[p + 1..q]), q + 1) else Threw
  }

  function FindIdentifier(text: seq<int>, p: nat, c: Config): Outcome {
    if !c.IsAlpha(At(text, p)) then NotFound
    else
      var e := RunEnd(text, p + 1, c.IsAlphaNum);
      Found(Identifier(text[p..e]), e)
  }

  /** The first alternative, unless it has found nothing. */
  function OrElse(a: Outcome, b: Outcome): Outcome {
    if a == NotFound then b else a
  }

  function FindOther(text: seq<int>, p: nat): Outcome {
    if At(text, p) == EOF then Found(Eof, p) else Found(Char(At(text, p)), p + 1)
  }

  /** The token at `p`, a position that is no separator. */
  function Lex(text: seq<int>, p: nat, c: Config): Outcome {
    OrElse(FindSymbol(text, p, c.symbols),
           OrElse(FindFloat(text, p),
                  OrElse(FindInt(text, p),
                         OrElse(FindString(text, p),
                                OrElse(FindIdentifier(text, p, c), FindOther(text, p))))))
  }

  function SkipSeparators(text: seq<int>, p: nat, c: Config): nat {
    RunEnd(text, p, c.IsSeparator)
  }

  // ------------------------------------------------------------ bounds

  lemma DigitsBound(text: seq<int>, p: nat)
    ensures var s := Digits(text, p); s.ok ==> p < s.end <= |text|
    ensures var s := Digits(text, p); !s.ok ==> s.end == p
    ensures var s := Digits(text, p); s.end < s.look <= s.end + 2
  {}

  lemma ExponentBound(text: seq<int>, p: nat, q: nat)
    ensures var s := Exponent(text, p, q); (s.ok ==> q + 1 < s.end <= |text|) && q + 1 < s.look
  {
    DigitsBound(text, q + 1);
    hide Digits;
  }

  lemma FractionBound(text: seq<int>, p: nat, q: nat)
    requires q < |text|
    ensures var s := Fraction(text, p, q); (s.ok ==> q < s.end <= |text|) && q + 1 < s.look
  {
    hide Digits, Exponent;
    DigitsBound(text, q + 1);
    ExponentBound(text, p, Digits(text, q + 1).end);
  }

  lemma NumberEnd(text: seq<int>, p: nat)
    ensures var s := Number(text, p); s.ok ==> p < s.end <= |text|
  {
    hide Digits, Exponent, Fraction;
    DigitsBound(text, p);
    var d := Digits(text, p);
    if d.ok {
      if At(text, d.end) == DOT { FractionBound(text, p, d.end); }
      ExponentBound(text, p, d.end);
    } else {
      DigitsBound(text, p + 1);
      ExponentBound(text, p, Digits(text, p + 1).end);
    }
  }

  lemma BareBound(text: seq<int>, p: nat)
    requires At(text, p) == DOT && !Digits(text, p).ok
    ensures p + 1 < Number(text, p).look
  {
    hide Digits, Exponent, Fraction;
    DigitsBound(text, p + 1);
    ExponentBound(text, p, Digits(text, p + 1).end);
  }
}
