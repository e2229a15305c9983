/** The cut `t*N/T` by which every parallel algorithm hands index ranges to its tasks. */
module Cuts {

  function Min(a: nat, b: nat): (m: nat)
    ensures m <= a && m <= b && (m == a || m == b)
  {
    if a <= b then a else b
  }

  /** Number of tasks for `n` items in blocks of `step` items: one a block, capped by threads and by `most`. */
  function TaskCount(n: nat, step: nat, threads: nat, most: nat): (tasks: nat)
    requires 0 < step
    ensures tasks <= most && tasks <= threads && tasks <= n
    ensures 0 < n && 0 < threads && 0 < most ==> 0 < tasks
  {
    BlocksBounds(n, step);
    Min((n + step - 1) / step, Min(threads, most))
  }

  lemma BlocksBounds(n: nat, step: nat)
    requires 0 < step
    ensures (n + step - 1) / step <= n
    ensures 0 < n ==> 0 < (n + step - 1) / step
  {
    MulMono(1, step, n);
    assert n * step == step * n;
    if 0 < n {
      DivMono(step, n + step - 1, step);
      assert n + step - 1 <= n * step by { assert n * step == (n - 1) * step + step; MulMono(1, step, n - 1); }
      DivMono(n + step - 1, n * step, step);
      DivUnique(n * step, step, n, 0);
    }
  }

  lemma DivUnique(a: nat, d: nat, q: nat, r: nat)
    requires 0 < d && a == q * d + r && r < d
    ensures a / d == q
  {
    var p := a / d;
    assert p * d <= a < (p + 1) * d;
    if q < p { MulMono(q + 1, p, d); }
    if p < q { MulMono(p + 1, q, d); }
  }

  lemma MulMono(a: nat, b: nat, c: nat)
    requires a <= b
    ensures a * c <= b * c
  {
    assert b * c == a * c + (b - a) * c;
  }

  lemma DivMono(a: nat, b: nat, d: nat)
    requires a <= b && 0 < d
    ensures a / d <= b / d
  {
    var p, q := a / d, b / d;
    assert p * d <= a && b < (q + 1) * d;
    if q < p { MulMono(q + 1, p, d); }
  }

  /** First item of task `t`. */
  function Cut(n: nat, tasks: nat, t: nat): (c: nat)
    requires 0 < tasks && t <= tasks
  {
    t * n / tasks
  }

  lemma CutEnds(n: nat, tasks: nat)
    requires 0 < tasks
    ensures Cut(n, tasks, 0) == 0 && Cut(n, tasks, tasks) == n
  {
    DivUnique(tasks * n, tasks, n, 0);
    DivUnique(0, tasks, 0, 0);
  }

  lemma CutMono(n: nat, tasks: nat, s: nat, t: nat)
    requires 0 < tasks && s <= t <= tasks
    ensures Cut(n, tasks, s) <= Cut(n, tasks, t) <= n
  {
    MulMono(s, t, n);
    DivMono(s * n, t * n, tasks);
    MulMono(t, tasks, n);
    DivMono(t * n, tasks * n, tasks);
    CutEnds(n, tasks);
  }

  /** The cut is the largest number of items that is at most `t` shares of the work. */
  lemma CutIsShare(n: nat, tasks: nat, t: nat)
    requires 0 < tasks && t <= tasks
    ensures Cut(n, tasks, t) * tasks <= t * n < (Cut(n, tasks, t) + 1) * tasks
  {}

  /**
   * As many tasks as there are blocks, unless threads or the limit allow fewer; the last block may be a smaller one.
   */
  lemma TaskCountIs(n: nat, step: nat, threads: nat, most: nat)
    requires 0 < step
    ensures var tasks := TaskCount(n, step, threads, most);
      && tasks <= threads && tasks <= most && (0 < tasks ==> (tasks - 1) * step < n)
      && (tasks == threads || tasks == most || n <= tasks * step)
  {
    var blocks := (n + step - 1) / step;
    assert blocks * step <= n + step - 1 < (blocks + 1) * step;
    OneMore(blocks, step);
    CountOfBlocks(n, step, blocks, TaskCount(n, step, threads, most), threads, most);
  }

  lemma CountOfBlocks(n: nat, step: nat, blocks: nat, tasks: nat, threads: nat, most: nat)
    requires tasks == Min(blocks, Min(threads, most)) && blocks * step < n + step <= blocks * step + step
    ensures 0 < tasks ==> (tasks - 1) * step < n
    ensures tasks == threads || tasks == most || n <= tasks * step
  {
    if 0 < tasks {
      OneMore(blocks - 1, step);
      MulMono(tasks - 1, blocks - 1, step);
    }
  }

  lemma OneMore(a: nat, b: nat)
    ensures (a + 1) * b == a * b + b
  {}

  /** A task of non-empty work starts before its end. */
  lemma CutBelow(n: nat, tasks: nat, t: nat)
    requires 0 < n && t < tasks
    ensures Cut(n, tasks, t) < n
  {
    var q := t * n / tasks;
    assert q * tasks <= t * n;
    MulMono(t + 1, tasks, n);
    assert (t + 1) * n == t * n + n;
    if n <= q { MulMono(n, q, tasks); }
  }

  lemma DivStrict(a: nat, b: nat, d: nat)
    requires 0 < d && a + d <= b
    ensures a / d < b / d
  {
    DivMono(a + d, b, d);
    assert a == a / d * d + a % d;
    DivUnique(a + d, d, a / d + 1, a % d);
  }

  /** No piece is empty when there are no more tasks than items. */
  lemma CutStrict(n: nat, tasks: nat, s: nat, t: nat)
    requires 0 < tasks <= n && s < t <= tasks
    ensures Cut(n, tasks, s) < Cut(n, tasks, t) <= n
  {
    CutMono(n, tasks, t, t);
    MulMono(s + 1, t, n);
    assert (s + 1) * n == s * n + n;
    DivStrict(s * n, t * n, tasks);
  }

  /** The pieces tile the index range: every item has exactly one owner. */
  lemma {:induction false} OwnerExists(n: nat, tasks: nat, t: nat, k: nat) returns (owner: nat)
    requires 0 < tasks && t <= tasks && k < Cut(n, tasks, t)
    ensures owner < t && Cut(n, tasks, owner) <= k < Cut(n, tasks, owner + 1)
  {
    CutEnds(n, tasks);
    hide Cut;
    if Cut(n, tasks, t - 1) <= k {
      owner := t - 1;
    } else {
      owner := OwnerExists(n, tasks, t - 1, k);
    }
  }

  lemma OwnerUnique(n: nat, tasks: nat, s: nat, t: nat, k: nat)
    requires 0 < tasks && s < tasks && t < tasks
    requires Cut(n, tasks, s) <= k < Cut(n, tasks, s + 1)
    requires Cut(n, tasks, t) <= k < Cut(n, tasks, t + 1)
    ensures s == t
  {
    hide Cut;
    if s < t {
      CutMono(n, tasks, s + 1, t);
    } else if t < s {
      CutMono(n, tasks, t + 1, s);
    }
  }
}
