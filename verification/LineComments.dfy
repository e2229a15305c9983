/** The filter that removes line comments from a stream of characters. */
module LineComments {
  import opened Streams
  import opened CharStreams

  predicate Ends(c: int) {
    c == NEWLINE || c == EOF
  }

  /** The first newline, or the end, at or after `p`. */
  function LineEnd(text: seq<int>, p: nat): (e: nat)
    ensures p <= e && Ends(At(text, e)) && (p <= |text| ==> e <= |text|)
    ensures forall i: nat :: p <= i < e ==> !Ends(At(text, i))
    decreases |text| - p
  {
    if Ends(At(text, p)) then p else LineEnd(text, p + 1)
  }

  /** Where the next character to deliver stands. */
  function Skip(text: seq<int>, m: seq<int>, p: nat): (q: nat)
    ensures p <= q
  {
    if Agreed(text, m, p, 0) == |m| then LineEnd(text, p + |m|) else p
  }

  /** The text from `p` on without line comments: from every marker up to the end of its line. */
  function Strip(text: seq<int>, m: seq<int>, p: nat): (r: seq<int>)
    ensures |text| <= p ==> r == []
    decreases |text| - p
  {
    if |text| <= p then [] else
      var q := Skip(text, m, p);
      if |text| <= q then [] else [text[q]] + Strip(text, m, q + 1)
  }

  class LineCommentFilter {
    const cin: Stream<int>
    const lineComment: seq<int>
    /** What `cin` delivers. */
    ghost const text: seq<int>

    ghost predicate Valid()
      reads this, cin, cin.buffer
    {
      cin.Valid() && cin.items == Chars(text)
    }

    constructor (cin: Stream<int>, lineComment: seq<int>, ghost text: seq<int>)
      requires cin.Valid() && cin.items == Chars(text)
      ensures Valid() && this.cin == cin && this.lineComment == lineComment && this.text == text
    {
      this.cin := cin;
      this.lineComment := lineComment;
      this.text := text;
    }

    /** Moves the cursor to the next newline, or to where the text is over. */
    method EatLine()
      requires Valid()
      modifies cin, cin.buffer
      ensures Valid() && cin.Pos() == LineEnd(text, old(cin.Pos()))
    {
      hide Window, Stream.Holds;
      ghost var q: nat := cin.Pos();
      var next := cin.Peek();
      while next != NEWLINE && next != EOF
        invariant Valid() && q <= cin.Pos() && next == At(text, cin.Pos())
        invariant LineEnd(text, q) == LineEnd(text, cin.Pos())
        decreases |text| - cin.Pos()
      {
        var skipped := cin.Get();
        next := cin.Peek();
      }
    }

    /**
     * The next character outside of comments. It throws exactly when more than `BUF_SIZE - 1` characters agree
     * with the marker before one does not: they can no longer all be put back.
     */
    method Next() returns (threw: bool, c: int)
      requires Valid()
      modifies cin, cin.buffer
      ensures Valid()
      ensures threw <==> TooLate(text, lineComment, old(cin.Pos()))
      ensures !threw ==> c == At(text, Skip(text, lineComment, old(cin.Pos())))
      ensures !threw ==> cin.Pos() == Skip(text, lineComment, old(cin.Pos())) + 1
    {
      hide Window, Stream.Holds;
      ghost var p: nat := cin.Pos();
      var j := 0;
      while j < |lineComment|
        invariant j <= |lineComment| && Valid() && cin.Pos() == p + j
        invariant Agreed(text, lineComment, p, 0) == Agreed(text, lineComment, p, j)
        invariant cin.Oldest() <= Max(p, p + j - BUF_SIZE)
      {
        var next := cin.Peek();
        if next != lineComment[j] {
          var t;
          threw, t := cin.Unget(j);
          if !threw {
            c := cin.Get();
          } else {
            c := 0;
          }
          return;
        }
        var skipped := cin.Get();
        j := j + 1;
      }
      EatLine();
      c := cin.Get();
      threw := false;
    }

    /**
     * Calling `next` over and over delivers the stripped text, then the end. It throws exactly if one of the calls
     * does; a marker that fits the buffer never makes it throw.
     */
    method Deliver(n: nat) returns (threw: bool, r: seq<int>)
      requires Valid()
      modifies cin, cin.buffer
      ensures Valid() && (|lineComment| <= BUF_SIZE ==> !threw)
      ensures threw <==>
        exists k: nat :: k < n && TooLate(text, lineComment, PosAfter(text, lineComment, old(cin.Pos()), k))
      ensures !threw ==> |r| == n && forall k: nat :: k < n ==>
        r[k] == Chars(Strip(text, lineComment, old(cin.Pos())))(k)
    {
      hide Window, Stream.Holds, Agreed, Skip, Strip;
      ghost var p: nat := cin.Pos();
      r, threw := [], false;
      for i := 0 to n
        invariant Valid() && !threw && |r| == i && cin.Pos() == PosAfter(text, lineComment, p, i)
        invariant forall k: nat :: k < i ==> !TooLate(text, lineComment, PosAfter(text, lineComment, p, k))
        invariant forall k: nat :: k < i ==> r[k] == At(Strip(text, lineComment, p), k)
      {
        Delivered(text, lineComment, p, i);
        var c;
        threw, c := Next();
        if threw {
          return;
        }
        r := r + [c];
      }
    }
  }

  /** The cursor after `k` characters. */
  ghost function PosAfter(text: seq<int>, m: seq<int>, p: nat, k: nat): nat {
    if k == 0 then p else Skip(text, m, PosAfter(text, m, p, k - 1)) + 1
  }

  lemma {:induction false} PosAfterFirst(text: seq<int>, m: seq<int>, p: nat, k: nat)
    requires 0 < k
    ensures PosAfter(text, m, p, k) == PosAfter(text, m, Skip(text, m, p) + 1, k - 1)
  {
    if 1 < k { PosAfterFirst(text, m, p, k - 1); }
  }

  lemma {:induction false} PosAfterGrows(text: seq<int>, m: seq<int>, p: nat, k: nat)
    ensures p <= PosAfter(text, m, p, k)
  {
    if 0 < k { PosAfterGrows(text, m, p, k - 1); }
  }

  /** More characters agree with the marker than can be put back, and then one does not. */
  ghost predicate TooLate(text: seq<int>, m: seq<int>, p: nat) {
    BUF_SIZE <= Agreed(text, m, p, 0) < |m|
  }

  lemma StripStep(text: seq<int>, m: seq<int>, p: nat)
    ensures var q := Skip(text, m, p);
      Strip(text, m, p) == if |text| <= q then [] else [text[q]] + Strip(text, m, q + 1)
  {
    hide Skip;
  }

  lemma SkipCases(text: seq<int>, m: seq<int>, p: nat)
    ensures Skip(text, m, p) == if OccursAt(text, m, p) then LineEnd(text, p + |m|) else p
  {
    OccursAgreed(text, m, p);
    hide OccursAt;
  }

  /** The `k`-th character delivered is the `k`-th of the stripped text. */
  lemma {:induction false} Delivered(text: seq<int>, m: seq<int>, p: nat, k: nat)
    ensures At(text, Skip(text, m, PosAfter(text, m, p, k))) == At(Strip(text, m, p), k)
    decreases k
  {
    hide Strip, Skip;
    var q := Skip(text, m, p);
    StripStep(text, m, p);
    if |text| <= q {
      PosAfterGrows(text, m, p, k);
      if 0 < k {
        PosAfterFirst(text, m, p, k);
        PosAfterGrows(text, m, q + 1, k - 1);
      }
    } else if 0 < k {
      PosAfterFirst(text, m, p, k);
      Delivered(text, m, q + 1, k - 1);
    }
  }

  // ------------------------------------------------------------ what is stripped

  /** A marker that cannot reach over the end of a line. */
  ghost predicate WithinLine(m: seq<int>) {
    m != [] && forall j: nat :: j < |m| ==> !Ends(m[j])
  }

  ghost predicate NoLineEnds(s: seq<int>, p: nat, q: nat) {
    forall i: nat :: p <= i < q ==> !Ends(At(s, i))
  }

  /** The first `n` characters of `r` stand at `p`. */
  ghost predicate Verbatim(r: seq<int>, n: nat, text: seq<int>, p: nat) {
    forall j: nat :: j < n ==> At(r, j) == At(text, p + j)
  }

  lemma NoLineEndsTail(c: int, rest: seq<int>, n: nat)
    requires NoLineEnds([c] + rest, 0, n + 1)
    ensures NoLineEnds(rest, 0, n)
  {
    forall i: nat | i < n ensures !Ends(At(rest, i)) {
      assert At([c] + rest, i + 1) == At(rest, i);
    }
  }

  lemma VerbatimJoin(rest: seq<int>, n: nat, text: seq<int>, p: nat)
    requires p < |text| && Verbatim(rest, n, text, p + 1)
    ensures Verbatim([text[p]] + rest, n + 1, text, p)
  {
    forall j: nat | j < n + 1 ensures At([text[p]] + rest, j) == At(text, p + j) {
      if 0 < j { assert At(rest, j - 1) == At(text, p + 1 + (j - 1)); }
    }
  }

  /** As long as no line ends, the stripped text is the text. */
  lemma {:induction false} StripVerbatim(text: seq<int>, m: seq<int>, p: nat, n: nat)
    requires NoLineEnds(Strip(text, m, p), 0, n)
    ensures Verbatim(Strip(text, m, p), n, text, p)
    decreases n
  {
    if 0 < n {
      HeadKept(text, m, p, n);
      hide Strip, NoLineEnds, Verbatim;
      NoLineEndsTail(text[p], Strip(text, m, p + 1), n - 1);
      StripVerbatim(text, m, p + 1, n - 1);
      VerbatimJoin(Strip(text, m, p + 1), n - 1, text, p);
    }
  }

  lemma HeadKept(text: seq<int>, m: seq<int>, p: nat, n: nat)
    requires 0 < n && NoLineEnds(Strip(text, m, p), 0, n)
    ensures p < |text| && Strip(text, m, p) == [text[p]] + Strip(text, m, p + 1)
  {
    hide Strip, Skip, OccursAt;
    assert !Ends(At(Strip(text, m, p), 0));
    StripStep(text, m, p);
    SkipCases(text, m, p);
  }

  lemma MarkerHasNoEnds(s: seq<int>, m: seq<int>, k: nat)
    requires WithinLine(m) && OccursAt(s, m, k)
    ensures k < |s| && NoLineEnds(s, k, k + |m|)
  {
    forall i: nat | k <= i < k + |m| ensures !Ends(At(s, i)) {
      assert At(s, k + (i - k)) == m[i - k];
    }
    assert !Ends(At(s, k));
  }

  lemma MarkerShift(c: int, s: seq<int>, m: seq<int>, k: nat)
    requires OccursAt([c] + s, m, k + 1)
    ensures OccursAt(s, m, k)
  {
    forall j: nat | j < |m| ensures At(s, k + j) == m[j] {
      assert At([c] + s, k + 1 + j) == m[j];
    }
  }

  lemma NoMarkerFirst(text: seq<int>, m: seq<int>, p: nat)
    requires WithinLine(m)
    ensures !OccursAt(Strip(text, m, p), m, 0)
  {
    hide Strip, OccursAt;
    var r := Strip(text, m, p);
    if OccursAt(r, m, 0) {
      MarkerHasNoEnds(r, m, 0);
      HeadKept(text, m, p, |m|);
      StripVerbatim(text, m, p, |m|);
      MarkerMoves(r, text, m, p);
      SkippedHead(text, m, p);
    }
  }

  lemma MarkerMoves(r: seq<int>, text: seq<int>, m: seq<int>, p: nat)
    requires OccursAt(r, m, 0) && Verbatim(r, |m|, text, p)
    ensures OccursAt(text, m, p)
  {
    forall j: nat | j < |m| ensures At(text, p + j) == m[j] {
      assert At(r, 0 + j) == m[j];
    }
  }

  /** After a marker the first thing kept is the end of the line. */
  lemma SkippedHead(text: seq<int>, m: seq<int>, p: nat)
    requires OccursAt(text, m, p)
    ensures Ends(At(Strip(text, m, p), 0))
  {
    hide Strip, OccursAt;
    StripStep(text, m, p);
    SkipCases(text, m, p);
  }

  /** No marker is left anywhere. */
  lemma {:induction false} NoMarkerLeft(text: seq<int>, m: seq<int>, p: nat, k: nat)
    requires WithinLine(m)
    ensures !OccursAt(Strip(text, m, p), m, k)
    decreases k
  {
    hide Strip, Skip, OccursAt, At;
    if k == 0 {
      NoMarkerFirst(text, m, p);
    } else {
      var q := Skip(text, m, p);
      StripStep(text, m, p);
      NoMarkerLeft(text, m, q + 1, k - 1);
      if OccursAt(Strip(text, m, p), m, k) {
        MarkerHasNoEnds(Strip(text, m, p), m, k);
        MarkerShift(text[q], Strip(text, m, q + 1), m, k - 1);
      }
    }
  }

  /** Text without markers passes unchanged. */
  lemma {:induction false} StripNothing(text: seq<int>, m: seq<int>, p: nat)
    requires p <= |text| && forall k: nat :: p <= k < |text| ==> !OccursAt(text, m, k)
    ensures Strip(text, m, p) == text[p..]
    decreases |text| - p
  {
    hide Strip, Skip, OccursAt;
    StripStep(text, m, p);
    SkipCases(text, m, p);
    if p < |text| {
      StripNothing(text, m, p + 1);
    } else {
      StripEmpty(text, m, p);
    }
  }

  /** Stripping a second time changes nothing. */
  lemma StripIdempotent(text: seq<int>, m: seq<int>)
    requires WithinLine(m)
    ensures Strip(Strip(text, m, 0), m, 0) == Strip(text, m, 0)
  {
    var r := Strip(text, m, 0);
    forall k: nat | k < |r| ensures !OccursAt(r, m, k) {
      NoMarkerLeft(text, m, 0, k);
    }
    StripNothing(r, m, 0);
    assert r[0..] == r;
  }

  /** The first marker at or after `p`, or `e` if there is none before `e`. */
  function FirstMarker(text: seq<int>, m: seq<int>, p: nat, e: nat): (c: nat)
    requires p <= e
    ensures p <= c <= e
    ensures forall k: nat :: p <= k < c ==> !OccursAt(text, m, k)
    ensures c < e ==> OccursAt(text, m, c)
    decreases e - p
  {
    if p == e || Agreed(text, m, p, 0) == |m| then p else FirstMarker(text, m, p + 1, e)
  }

  /** Line by line: each line is kept up to its first marker, and so is the end of the line. */
  function StripLines(text: seq<int>, m: seq<int>, p: nat): seq<int>
    decreases |text| - p, 2
  {
    if |text| <= p then [] else
      var e := LineEnd(text, p);
      text[p..FirstMarker(text, m, p, e)] + LineTail(text, m, e)
  }

  function LineTail(text: seq<int>, m: seq<int>, e: nat): seq<int>
    decreases |text| - e, 1
  {
    if e < |text| then [text[e]] + StripLines(text, m, e + 1) else []
  }

  lemma MarkerBeforeEnd(text: seq<int>, m: seq<int>, p: nat)
    requires WithinLine(m) && OccursAt(text, m, p)
    ensures p + |m| <= LineEnd(text, p) && LineEnd(text, p + |m|) == LineEnd(text, p)
  {
    var e := LineEnd(text, p);
    MarkerHasNoEnds(text, m, p);
    LineEndUnique(text, p + |m|, e);
  }

  lemma LineEndUnique(text: seq<int>, p: nat, e: nat)
    requires p <= e && Ends(At(text, e)) && forall i: nat :: p <= i < e ==> !Ends(At(text, i))
    ensures LineEnd(text, p) == e
  {
    assert !(LineEnd(text, p) < e);
  }

  lemma {:induction false} StripIsByLine(text: seq<int>, m: seq<int>, p: nat)
    requires WithinLine(m)
    ensures Strip(text, m, p) == StripLines(text, m, p)
    decreases |text| - p
  {
    hide Strip, Skip, LineEnd, FirstMarker, OccursAt;
    StripStep(text, m, p);
    SkipCases(text, m, p);
    if p < |text| {
      var e := LineEnd(text, p);
      FirstMarkerStep(text, m, p, e);
      if OccursAt(text, m, p) {
        MarkerBeforeEnd(text, m, p);
        if e < |text| { StripIsByLine(text, m, e + 1); }
      } else {
        StripIsByLine(text, m, p + 1);
        if p < e { StripOneMore(text, m, p, e); }
      }
      assert text[p..p] == [];
    } else {
      StripEmpty(text, m, p);
    }
  }

  lemma StripEmpty(text: seq<int>, m: seq<int>, p: nat)
    requires |text| <= p
    ensures Strip(text, m, p) == [] == StripLines(text, m, p)
  {}

  lemma FirstMarkerStep(text: seq<int>, m: seq<int>, p: nat, e: nat)
    requires p <= e
    ensures FirstMarker(text, m, p, e) == if p == e || OccursAt(text, m, p) then p else FirstMarker(text, m, p + 1, e)
  {
    OccursAgreed(text, m, p);
    hide OccursAt;
  }

  /** One more character at the front of the rest of a line. */
  lemma StripOneMore(text: seq<int>, m: seq<int>, p: nat, e: nat)
    requires p < e <= |text| && e == LineEnd(text, p) && !OccursAt(text, m, p)
    ensures StripLines(text, m, p) == [text[p]] + StripLines(text, m, p + 1)
  {
    hide LineEnd, FirstMarker, OccursAt, LineTail;
    FirstMarkerStep(text, m, p, e);
    LineEndUnique(text, p + 1, e);
    var c := FirstMarker(text, m, p + 1, e);
    assert text[p..c] == [text[p]] + text[p + 1..c];
    SplitFirst([text[p]], text[p + 1..c], LineTail(text, m, e));
    if |text| <= p + 1 {
      StripEmpty(text, m, p + 1);
      TailEmpty(text, m, e);
    }
  }

  lemma TailEmpty(text: seq<int>, m: seq<int>, e: nat)
    requires |text| <= e
    ensures LineTail(text, m, e) == []
  {}

  lemma SplitFirst(a: seq<int>, b: seq<int>, c: seq<int>)
    ensures (a + b) + c == a + (b + c)
  {}

  /** The failure is real: a marker of 1025 equal characters and a text of 1024 of them. */
  lemma LongMarkerThrows(c: int)
    requires c != EOF
    ensures TooLate(seq(BUF_SIZE, _ => c), seq(BUF_SIZE + 1, _ => c), 0)
  {
    var text, m := seq(BUF_SIZE, _ => c), seq(BUF_SIZE + 1, _ => c);
    var k := Agreed(text, m, 0, 0);
    assert At(text, BUF_SIZE) != m[BUF_SIZE];
  }

  /** `e` is the first newline or end of the text at or after `p`. */
  ghost predicate LineEndsAt(text: seq<int>, p: nat, e: nat) {
    && p <= e && (e < |text| ==> text[e] == '\n' as int || text[e] == -1)
    && forall i: nat :: p <= i < e ==> i < |text| && text[i] != '\n' as int && text[i] != -1
  }

  /** Up to the first marker everything is kept, then nothing up to the end of the line, which is kept, and so on. */
  lemma {:induction false} StripFirstComment(text: seq<int>, m: seq<int>, p: nat, c: nat, e: nat)
    requires p <= c <= |text| && OccursAt(text, m, c) && LineEndsAt(text, c + |m|, e)
    requires forall k: nat :: p <= k < c ==> !OccursAt(text, m, k)
    ensures Strip(text, m, p) == text[p..c] + if e < |text| then [text[e]] + Strip(text, m, e + 1) else []
    decreases c - p
  {
    hide Strip, Skip, OccursAt;
    StripStep(text, m, p);
    SkipCases(text, m, p);
    if p < c {
      StripFirstComment(text, m, p + 1, c, e);
      assert text[p..c] == [text[p]] + text[p + 1..c];
      StripRest(text[p], text[p + 1..c], if e < |text| then [text[e]] + Strip(text, m, e + 1) else []);
    } else {
      assert text[p..c] == [];
      LineEndFound(text, c + |m|, e);
    }
  }

  lemma LineEndFound(text: seq<int>, p: nat, e: nat)
    requires LineEndsAt(text, p, e)
    ensures LineEnd(text, p) == e
  {
    forall i: nat | p <= i < e ensures !Ends(At(text, i)) {
      assert i < |text| && text[i] != '\n' as int && text[i] != -1;
    }
    LineEndUnique(text, p, e);
  }

  lemma StripRest(x: int, kept: seq<int>, rest: seq<int>)
    ensures [x] + (kept + rest) == ([x] + kept) + rest
  {}
}
