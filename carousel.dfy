/** Stepping through the displayed list in the carousel:
    `(prevIndex + 1) % images.length` and `(prevIndex - 1 + images.length) % images.length`.
    The index is never negative and the length is positive here, so Dafny's `%`
    and JavaScript's `%` give the same value. */
module Carousel {

  /** The index after the current one, wrapping from the last to the first. */
  function Next(i: nat, n: nat): (r: nat)
    requires n > 0
    ensures r < n
    ensures i < n - 1 ==> r == i + 1
    ensures i == n - 1 ==> r == 0
  {
    (i + 1) % n
  }

  /** The index before the current one, wrapping from the first to the last. */
  function Prev(i: nat, n: nat): (r: nat)
    requires n > 0
    ensures r < n
    ensures 0 < i < n ==> r == i - 1
    ensures i == 0 ==> r == n - 1
  {
    (i - 1 + n) % n
  }

  /** Going back after going forward returns to the same image. */
  lemma PrevAfterNext(i: nat, n: nat)
    requires i < n
    ensures Prev(Next(i, n), n) == i
  {
  }

  /** Going forward after going back returns to the same image. */
  lemma NextAfterPrev(i: nat, n: nat)
    requires i < n
    ensures Next(Prev(i, n), n) == i
  {
  }

  /** The index after `k` presses of "next" starting from `i`. */
  function NextTimes(i: nat, k: nat, n: nat): (r: nat)
    requires n > 0
  {
    if k == 0 then i else Next(NextTimes(i, k - 1, n), n)
  }

  /** Up to `n` presses of "next" move forward by `k` positions, wrapping once. */
  lemma {:induction false} NextTimesShift(i: nat, k: nat, n: nat)
    requires i < n && k <= n
    ensures NextTimes(i, k, n) == if i + k < n then i + k else i + k - n
  {
    if k > 0 {
      NextTimesShift(i, k - 1, n);
    }
  }

  /** `n` presses of "next" on a list of length `n` return to the starting image. */
  lemma NextCycle(i: nat, n: nat)
    requires i < n
    ensures NextTimes(i, n, n) == i
  {
    NextTimesShift(i, n, n);
  }
}
