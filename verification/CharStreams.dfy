/** A stream of the characters of a zero-terminated string. */
module CharStreams {
  import opened Streams

  const NEWLINE := 10
  const RETURN := 13

  /** Character `p` of the text, `EOF` from its end on. */
  function At(text: seq<int>, p: nat): int {
    if p < |text| then text[p] else EOF
  }

  /** All the characters a stream over `text` ever delivers. */
  function Chars(text: seq<int>): nat -> int {
    (p: nat) => At(text, p)
  }

  ghost predicate OccursAt(text: seq<int>, word: seq<int>, p: nat) {
    forall j: nat :: j < |word| ==> At(text, p + j) == word[j]
  }

  /** How many characters agree with the word before the first that does not. */
  function Agreed(text: seq<int>, word: seq<int>, p: nat, j: nat): (k: nat)
    requires j <= |word|
    ensures j <= k <= |word|
    ensures k < |word| ==> At(text, p + k) != word[k]
    ensures forall i: nat :: j <= i < k ==> At(text, p + i) == word[i]
    decreases |word| - j
  {
    if j < |word| && At(text, p + j) == word[j] then Agreed(text, word, p, j + 1) else j
  }

  lemma OccursAgreed(text: seq<int>, word: seq<int>, p: nat)
    ensures OccursAt(text, word, p) <==> Agreed(text, word, p, 0) == |word|
  {}

  /** The characters of the last line that take up a column. */
  function Column(text: seq<int>): nat {
    if text == [] then 0
    else
      var c := text[|text| - 1];
      if c == NEWLINE then 0 else Column(text[..|text| - 1]) + if c == RETURN then 0 else 1
  }

  /** The column counts the characters since the last newline, carriage returns not included. */
  lemma {:induction false} ColumnSince(text: seq<int>, b: nat)
    requires b <= |text| && (0 < b ==> text[b - 1] == '\n' as int)
    requires forall i :: b <= i < |text| ==> text[i] != '\n' as int
    ensures Column(text) == |text| - b - multiset(text[b..])['\r' as int]
  {
    if b < |text| {
      var before := text[..|text| - 1];
      ColumnSince(before, b);
      assert text[b..] == before[b..] + [text[|text| - 1]];
    }
  }

  class StrStream {
    /** The memory of the string: its characters, then a zero. */
    const str: seq<int>
    var lineNumber: int
    var colNumber: int
    var charNumber: nat

    /** The characters before the first zero. */
    ghost function Text(): seq<int>
      reads this
      requires Valid()
    {
      str[..|str| - 1]
    }

    ghost predicate Valid()
      reads this
    {
      && str != [] && str[|str| - 1] == 0 && (forall i :: 0 <= i < |str| - 1 ==> str[i] != 0)
      && charNumber < |str|
      && lineNumber == 1 + multiset(str[..charNumber])[NEWLINE]
      && colNumber == Column(str[..charNumber])
    }

    constructor (text: seq<int>)
      requires forall i :: 0 <= i < |text| ==> text[i] != 0
      ensures Valid() && Text() == text && charNumber == 0
    {
      str := text + [0];
      lineNumber, colNumber, charNumber := 1, 0, 0;
    }

    /** The `k`-th call delivers `Chars(Text())(k)`; at the end it stays there, and so do line and column. */
    method Next() returns (c: int)
      requires Valid()
      modifies this
      ensures Valid() && Text() == old(Text())
      ensures c == Chars(Text())(old(charNumber))
      ensures charNumber == if old(charNumber) < |Text()| then old(charNumber) + 1 else old(charNumber)
    {
      c := str[charNumber];
      if c == 0 {
        return EOF;
      }
      assert str[..charNumber + 1] == str[..charNumber] + [c];
      if c == NEWLINE {
        lineNumber := lineNumber + 1;
        colNumber := 0;
      } else if c != RETURN {
        colNumber := colNumber + 1;
      }
      charNumber := charNumber + 1;
    }
  }
}
