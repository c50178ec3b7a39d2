/** Wrap-around index arithmetic shared by every slider on the page.
    `NextIndex` is `(currentIndex + 1) % length` and `PrevIndex` is
    `(currentIndex - 1 + length) % length`; the card carousels use the same
    steps over pages instead of slides (module Paging). */
module Rotation {

  /** The slot after `i` among `n` slots. `i` may lie outside `[0, n)` (a
      testimonial button can select a slot that does not exist); the result
      never does. */
  function NextIndex(i: nat, n: nat): (r: nat)
    requires n > 0
    ensures r < n
    ensures i + 1 < n ==> r == i + 1
    ensures i + 1 == n ==> r == 0
  {
    (i + 1) % n
  }

  /** The slot before `i` among `n` slots; `i - 1 + n` is never negative, so
      JavaScript's truncating `%` and Dafny's Euclidean `%` agree here. */
  function PrevIndex(i: nat, n: nat): (r: nat)
    requires n > 0
    ensures r < n
    ensures 0 < i <= n ==> r == i - 1
    ensures i == 0 ==> r == n - 1
  {
    (i - 1 + n) % n
  }

  /** The slot reached from `i` after `k` forward steps. */
  function Advance(i: nat, k: nat, n: nat): (r: nat)
    requires n > 0
    decreases k
  {
    if k == 0 then i else NextIndex(Advance(i, k - 1, n), n)
  }

  /** The slot reached from `i` after `k` backward steps. */
  function Retreat(i: nat, k: nat, n: nat): (r: nat)
    requires n > 0
    decreases k
  {
    if k == 0 then i else PrevIndex(Retreat(i, k - 1, n), n)
  }

  /** A backward step undoes a forward step. */
  lemma PrevUndoesNext(i: nat, n: nat)
    requires i < n
    ensures PrevIndex(NextIndex(i, n), n) == i
  {
  }

  /** A forward step undoes a backward step. */
  lemma NextUndoesPrev(i: nat, n: nat)
    requires i < n
    ensures NextIndex(PrevIndex(i, n), n) == i
  {
  }

  /** Stepping forward stays in range once in range. */
  lemma {:induction false} AdvanceInRange(i: nat, k: nat, n: nat)
    requires i < n
    ensures Advance(i, k, n) < n
  {
    if k > 0 {
      AdvanceInRange(i, k - 1, n);
    }
  }

  /** Stepping forward `a` then `b` times is stepping `a + b` times. */
  lemma {:induction false} AdvanceAdds(i: nat, a: nat, b: nat, n: nat)
    requires n > 0
    ensures Advance(Advance(i, a, n), b, n) == Advance(i, a + b, n)
  {
    if b > 0 {
      AdvanceAdds(i, a, b - 1, n);
    }
  }

  /** From slot `i`, `k` steps that do not pass the last slot reach `i + k`. */
  lemma {:induction false} AdvanceWithoutWrap(i: nat, k: nat, n: nat)
    requires i + k < n
    ensures Advance(i, k, n) == i + k
  {
    if k > 0 {
      AdvanceWithoutWrap(i, k - 1, n);
    }
  }

  /** `k` forward steps land on `(i + k) % n`. */
  lemma {:induction false} AdvanceIsModularSum(i: nat, k: nat, n: nat)
    requires i < n
    ensures Advance(i, k, n) == (i + k) % n
  {
    if k > 0 {
      AdvanceIsModularSum(i, k - 1, n);
      ModSuccessor(i + k - 1, n);
    }
  }

  /** `((x % n) + 1) % n == (x + 1) % n`. */
  lemma ModSuccessor(x: nat, n: nat)
    requires n > 0
    ensures ((x % n) + 1) % n == (x + 1) % n
  {
    var q, r := x / n, x % n;
    assert x == q * n + r;
    if r + 1 < n {
      assert x + 1 == q * n + (r + 1);
      ModUnique(x + 1, q, r + 1, n);
    } else {
      assert x + 1 == (q + 1) * n + 0;
      ModUnique(x + 1, q + 1, 0, n);
    }
  }

  /** The remainder is determined by any decomposition `x == q * n + r` with `0 <= r < n`. */
  lemma ModUnique(x: int, q: int, r: int, n: int)
    requires n > 0 && 0 <= r < n && x == q * n + r
    ensures x % n == r
  {
    var q', r' := x / n, x % n;
    assert x == q' * n + r';
    var d := q - q';
    assert d * n == q * n - q' * n;
    assert d * n == r' - r;
    if d >= 1 {
      MulAtLeast(d, n);
    } else if d <= -1 {
      assert (-d) * n == -(d * n);
      MulAtLeast(-d, n);
    }
  }

  /** A positive multiple of `n` is at least `n`. */
  lemma MulAtLeast(d: int, n: int)
    requires d >= 1 && n > 0
    ensures d * n >= n
  {
    assert d * n == (d - 1) * n + n;
    assert (d - 1) * n >= 0;
  }

  /** `n` forward steps return to the starting slot. */
  lemma FullCycleForward(i: nat, n: nat)
    requires i < n
    ensures Advance(i, n, n) == i
  {
    AdvanceIsModularSum(i, n, n);
    ModUnique(i + n, 1, i, n);
  }

  /** `k` backward steps undo `k` forward steps. */
  lemma {:induction false} RetreatUndoesAdvance(i: nat, k: nat, n: nat)
    requires i < n
    ensures Retreat(Advance(i, k, n), k, n) == i
  {
    if k > 0 {
      var j := Advance(i, k - 1, n);
      AdvanceInRange(i, k - 1, n);
      PrevUndoesNext(j, n);
      RetreatFirst(NextIndex(j, n), k - 1, n);
      RetreatUndoesAdvance(i, k - 1, n);
    }
  }

  /** Peels the first of `k + 1` backward steps. */
  lemma {:induction false} RetreatFirst(i: nat, k: nat, n: nat)
    requires n > 0
    ensures Retreat(i, k + 1, n) == Retreat(PrevIndex(i, n), k, n)
  {
    if k > 0 {
      RetreatFirst(i, k - 1, n);
    }
  }

  /** `n` backward steps return to the starting slot. */
  lemma FullCycleBackward(i: nat, n: nat)
    requires i < n
    ensures Retreat(i, n, n) == i
  {
    FullCycleForward(i, n);
    RetreatUndoesAdvance(i, n, n);
  }
}
