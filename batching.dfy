/**
  The counting rule that decides when the buffered rows are sent to the
  spreadsheet, and what it implies for the size of every batch sent.
 */
module Batching {

  /**
    The flush test, made after the current tweet's row is buffered but on
    the number of tweets accepted BEFORE the current one.
   */
  predicate FlushDue(previous: nat, batchSize: nat): (b: bool)
    requires batchSize > 0
  {
    previous % batchSize == 0 && previous > 0
  }

  /** Rows left in the buffer after `n` accepted tweets, when every flush succeeded. */
  function Pending(n: nat, batchSize: nat): nat
    requires batchSize > 0
  {
    if n <= batchSize then n else (n - 1) % batchSize
  }

  /** Size of the `i`-th flush made by the counting rule: the first one carries one row more. */
  function Capacity(i: nat, batchSize: nat): nat {
    if i == 0 then batchSize + 1 else batchSize
  }

  /** Every batch has exactly the size the counting rule gives it. */
  ghost predicate Intermediate<T>(batches: seq<seq<T>>, batchSize: nat) {
    forall i :: 0 <= i < |batches| ==> |batches[i]| == Capacity(i, batchSize)
  }

  /**
    Every batch but the last has exactly the size the counting rule gives
    it; the last (possibly the final flush of the remainder) is non-empty
    and no larger than that size.
   */
  ghost predicate WellBatched<T>(batches: seq<seq<T>>, batchSize: nat) {
    forall i :: 0 <= i < |batches| ==>
      1 <= |batches[i]| <= Capacity(i, batchSize) &&
      (i < |batches| - 1 ==> |batches[i]| == Capacity(i, batchSize))
  }

  /** The batches laid end to end, in the order they were sent. */
  function Concat<T>(batches: seq<seq<T>>): seq<T> {
    if batches == [] then [] else Concat(batches[..|batches| - 1]) + batches[|batches| - 1]
  }

  lemma ConcatSnoc<T>(batches: seq<seq<T>>, b: seq<T>)
    ensures Concat(batches + [b]) == Concat(batches) + b
  {
    assert (batches + [b])[..|batches|] == batches;
  }

  lemma ModUnique(a: int, q: int, r: int, m: int)
    requires m > 0 && 0 <= r < m && a == q * m + r
    ensures a % m == r
  {
    var q', r' := a / m, a % m;
    assert q * m + r == q' * m + r';
    assert (q - q') * m == r' - r;
    if q' < q {
      MulAtLeast(q - q', m);
    } else if q' > q {
      MulAtLeast(q' - q, m);
    }
  }

  lemma MulAtLeast(k: int, m: int)
    requires k >= 1 && m > 0
    ensures k * m >= m
  {
  }

  /**
    One accepted tweet under the counting rule. When a flush is due the
    buffer, holding the new row, has the size of the current batch (one
    more than the batch size for the first flush), and is empty afterwards;
    otherwise it grows by the new row.
   */
  lemma PendingStep(p: nat, batchSize: nat, flushes: nat)
    requires batchSize > 0
    requires flushes == 0 <==> p <= batchSize
    ensures FlushDue(p, batchSize) ==>
      Pending(p, batchSize) + 1 == Capacity(flushes, batchSize) && Pending(p + 1, batchSize) == 0
    ensures !FlushDue(p, batchSize) ==> Pending(p + 1, batchSize) == Pending(p, batchSize) + 1
  {
    var b := batchSize;
    if p > b {
      var q, r := (p - 1) / b, (p - 1) % b;
      assert p - 1 == q * b + r;
      if r + 1 < b {
        ModUnique(p, q, r + 1, b);
      } else {
        ModUnique(p, q + 1, 0, b);
        assert FlushDue(p, b);
      }
    } else if p == b {
      ModUnique(p, 1, 0, b);
    }
  }

  /** Under the counting rule the buffer never holds more than the next batch's size. */
  lemma PendingBound(n: nat, batchSize: nat, flushes: nat)
    requires batchSize > 0
    requires flushes == 0 <==> n <= batchSize
    ensures Pending(n, batchSize) <= Capacity(flushes, batchSize)
    ensures flushes > 0 ==> Pending(n, batchSize) < batchSize
  {
  }
}
