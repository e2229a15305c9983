/** The stream over single items, with its ring buffer of items that can be put back. */
module Streams {

  const EOF := -1

  const BUF_SIZE: nat := 1024

  function Max(a: int, b: int): (m: int)
    ensures m == a || m == b
    ensures a <= m && b <= m
  {
    if a <= b then b else a
  }

  /** Slot of the ring buffer for the `j`-th stored item. */
  function Slot(start: nat, j: nat): (i: nat)
    ensures i < BUF_SIZE
  {
    (start + j) % BUF_SIZE
  }

  lemma SlotsDiffer(start: nat, i: nat, j: nat)
    requires i < j < i + BUF_SIZE
    ensures Slot(start, i) != Slot(start, j)
  {}

  lemma SlotShift(start: nat, j: nat)
    ensures Slot(Slot(start, 1), j) == Slot(start, j + 1)
  {}

  /** The items kept are the window `[oldest, oldest + size)` of all items. */
  ghost predicate Window<T>(buffer: seq<T>, start: nat, size: nat, items: nat -> T, oldest: nat) {
    && |buffer| == BUF_SIZE
    && forall j: nat :: j < size ==> buffer[Slot(start, j)] == items(oldest + j)
  }

  lemma WindowPush<T>(buffer: seq<T>, start: nat, size: nat, items: nat -> T, oldest: nat)
    requires Window(buffer, start, size, items, oldest) && size < BUF_SIZE
    ensures Window(buffer[Slot(start, size) := items(oldest + size)], start, size + 1, items, oldest)
  {
    forall j: nat | j < size ensures Slot(start, j) != Slot(start, size) {
      SlotsDiffer(start, j, size);
    }
    hide Slot;
  }

  lemma WindowPop<T>(buffer: seq<T>, start: nat, size: nat, items: nat -> T, oldest: nat)
    requires Window(buffer, start, size + 1, items, oldest)
    ensures Window(buffer, Slot(start, 1), size, items, oldest + 1)
  {
    forall j: nat | j < size ensures buffer[Slot(Slot(start, 1), j)] == items(oldest + 1 + j) {
      SlotShift(start, j);
    }
  }

  /**
   * `items(k)` is what the `k`-th call of the virtual `next` returns. The streams of characters show for their own
   * `next` which items these are.
   */
  class Stream<T(0)> {
    const items: nat -> T
    const buffer: array<T>
    var start: nat
    var past: nat
    var future: nat
    /** Calls of `next` so far. */
    var produced: nat

    /** The stored items are those from `oldest` on. */
    ghost predicate Holds(oldest: nat)
      reads this, buffer
    {
      && buffer.Length == BUF_SIZE && start < BUF_SIZE && past + future <= BUF_SIZE
      && Window(buffer[..], start, past + future, items, oldest)
    }

    ghost predicate Valid()
      reads this, buffer
    {
      past + future <= produced && past + future <= BUF_SIZE && Holds(produced - past - future)
    }

    /** Index of the item `peek` shows. */
    ghost function Pos(): int
      reads this
    {
      produced - future
    }

    /** All items before this index were asked for. */
    ghost function Seen(): int
      reads this
    {
      produced
    }

    /** Index of the oldest item that can be put back. */
    ghost function Oldest(): int
      reads this
    {
      produced - past - future
    }

    constructor (items: nat -> T)
      ensures this.items == items && fresh(buffer)
      ensures Valid() && Pos() == 0 && Seen() == 0 && Oldest() == 0
    {
      this.items := items;
      start, past, future, produced := 0, 0, 0, 0;
      buffer := new T[BUF_SIZE];
    }

    method Next() returns (v: T)
      modifies this`produced
      ensures v == items(old(produced)) && produced == old(produced) + 1
    {
      v := items(produced);
      produced := produced + 1;
    }

    method PopFront(ghost oldest: nat) returns (threw: bool)
      requires Holds(oldest)
      modifies this`start, this`past
      ensures threw == (old(past) == 0)
      ensures threw ==> start == old(start) && past == old(past)
      ensures !threw ==> Holds(oldest + 1) && past == old(past) - 1
    {
      if past == 0 {
        return true;
      }
      WindowPop(buffer[..], start, past + future - 1, items, oldest);
      start := (start + 1) % BUF_SIZE;
      past := past - 1;
      threw := false;
    }

    /** Stores the next item; a full buffer gives up its oldest one, and has one to give up. */
    method PushBack(v: T, ghost oldest: nat) returns (threw: bool)
      requires Holds(oldest) && v == items(oldest + past + future) && future < BUF_SIZE
      modifies this`start, this`past, this`future, buffer
      ensures !threw && future == old(future) + 1
      ensures past == if old(past) + old(future) == BUF_SIZE then old(past) - 1 else old(past)
      ensures Holds(oldest + old(past) - past)
    {
      hide Window;
      threw := false;
      ghost var first := oldest;
      if past + future == BUF_SIZE {
        threw := PopFront(oldest);
        first := oldest + 1;
      }
      WindowPush(buffer[..], start, past + future, items, first);
      var end := (start + past + future) % BUF_SIZE;
      future := future + 1;
      buffer[end] := v;
    }

    /** Makes sure that there is an item to deliver, asking for the next one if need be. */
    method Fill() returns (threw: bool)
      requires Valid()
      modifies this, buffer
      ensures !threw && Valid() && 0 < future
      ensures Pos() == old(Pos()) && Seen() == Max(old(Seen()), Pos() + 1)
      ensures Oldest() == Max(old(Oldest()), Seen() - BUF_SIZE)
    {
      threw := false;
      if future == 0 {
        hide Window;
        ghost var oldest := produced - past;
        var v := Next();
        threw := PushBack(v, oldest);
      }
    }

    /** The item under the cursor. */
    method Current() returns (t: T)
      requires Valid() && 0 < future
      ensures t == items(Pos())
    {
      assert buffer[..][Slot(start, past)] == items(produced - past - future + past);
      t := buffer[(start + past) % BUF_SIZE];
    }

    method Peek() returns (t: T)
      requires Valid()
      modifies this, buffer
      ensures Valid() && Pos() == old(Pos()) && t == items(Pos())
      ensures Seen() == Max(old(Seen()), Pos() + 1) && Oldest() == Max(old(Oldest()), Seen() - BUF_SIZE)
    {
      hide Window;
      var threw := Fill();
      assert !threw;
      t := Current();
    }

    method Get() returns (t: T)
      requires Valid()
      modifies this, buffer
      ensures Valid() && Pos() == old(Pos()) + 1 && t == items(old(Pos()))
      ensures Seen() == Max(old(Seen()), Pos()) && Oldest() == Max(old(Oldest()), Seen() - BUF_SIZE)
    {
      hide Window;
      var threw := Fill();
      assert !threw;
      t := Current();
      past, future := past + 1, future - 1;
    }

    method Drop()
      requires Valid()
      modifies this, buffer
      ensures Valid() && Pos() == old(Pos()) + 1
      ensures Seen() == Max(old(Seen()), Pos()) && Oldest() == Max(old(Oldest()), Seen() - BUF_SIZE)
    {
      hide Window;
      var threw := Fill();
      assert !threw;
      past, future := past + 1, future - 1;
    }

    /** Puts `n` items back. It throws exactly when one of them is no longer stored, and then changes nothing. */
    method Unget(n: nat) returns (threw: bool, t: T)
      requires Valid()
      modifies this, buffer
      ensures Valid() && threw == (old(Pos()) - n < old(Oldest()))
      ensures threw ==> Pos() == old(Pos()) && Seen() == old(Seen()) && Oldest() == old(Oldest())
      ensures !threw ==> Pos() == old(Pos()) - n && t == items(Pos())
      ensures !threw ==> Seen() == Max(old(Seen()), Pos() + 1) && Oldest() == Max(old(Oldest()), Seen() - BUF_SIZE)
    {
      hide Window;
      if past < n {
        return true, items(0);
      }
      past, future := past - n, future + n;
      t := Peek();
      threw := false;
    }
  }

  /** The `n` items from `p` on. */
  ghost function ItemsFrom<T>(items: nat -> T, p: int, n: nat): seq<T>
    requires 0 <= p
  {
    seq(n, i requires 0 <= i => items(p + i))
  }

  method Read<T(0)>(s: Stream<T>, n: nat) returns (r: seq<T>)
    requires s.Valid()
    modifies s, s.buffer
    ensures s.Valid() && s.Pos() == old(s.Pos()) + n && r == ItemsFrom(s.items, old(s.Pos()), n)
    ensures s.Seen() == Max(old(s.Seen()), s.Pos()) && s.Oldest() == Max(old(s.Oldest()), s.Seen() - BUF_SIZE)
  {
    hide Window;
    r := [];
    for i := 0 to n
      invariant s.Valid() && s.Pos() == old(s.Pos()) + i && r == ItemsFrom(s.items, old(s.Pos()), i)
      invariant s.Seen() == Max(old(s.Seen()), s.Pos()) && s.Oldest() == Max(old(s.Oldest()), s.Seen() - BUF_SIZE)
    {
      var t := s.Get();
      r := r + [t];
    }
  }

  /**
   * What was just read can be put back and is read again: always for as many items as the buffer holds, never for
   * more.
   */
  method ReadAgain<T(0)>(s: Stream<T>, n: nat) returns (first: seq<T>, threw: bool, second: seq<T>)
    requires s.Valid()
    modifies s, s.buffer
    ensures s.Valid() && threw == (BUF_SIZE < n)
    ensures first == ItemsFrom(s.items, old(s.Pos()), n) && s.Pos() == old(s.Pos()) + n
    ensures !threw ==> second == first
  {
    hide Window;
    first := Read(s, n);
    var t;
    threw, t := s.Unget(n);
    second := [];
    if !threw {
      second := Read(s, n);
    }
  }
}
