/**
 Shift registers over an arbitrary state type: the n-fold application of a step, the serial feeding of bits, and the
 two facts about them that a table-driven checksum rests on.
 */
module Register {

  function Iterate<T>(step: T -> T, x: T, n: nat): T
    decreases n
  {
    if n == 0 then x else Iterate(step, step(x), n - 1)
  }

  function FeedAll<T>(feed: (T, bool) -> T, x: T, bits: seq<bool>): T
    decreases |bits|
  {
    if bits == [] then x else FeedAll(feed, feed(x, bits[0]), bits[1..])
  }

  /** The n lowest bits of x, lowest first, where `low` reads the lowest bit and `shift` drops it. */
  function LowBits<T>(low: T -> bool, shift: T -> T, x: T, n: nat): (bits: seq<bool>)
    ensures |bits| == n
    decreases n
  {
    if n == 0 then [] else [low(x)] + LowBits(low, shift, shift(x), n - 1)
  }

  ghost predicate Distributes<T(!new)>(step: T -> T, op: (T, T) -> T) {
    forall a, b :: step(op(a, b)) == op(step(a), step(b))
  }

  lemma {:induction false} IterateDistributes<T(!new)>(step: T -> T, op: (T, T) -> T, x: T, y: T, n: nat)
    requires Distributes(step, op)
    ensures Iterate(step, op(x, y), n) == op(Iterate(step, x, n), Iterate(step, y, n))
    decreases n
  {
    if n > 0 {
      IterateDistributes(step, op, step(x), step(y), n - 1);
    }
  }

  ghost predicate FeedsLowest<T(!new)>(step: T -> T, feed: (T, bool) -> T, low: T -> bool, shift: T -> T, op: (T, T) -> T)
  {
    forall c, x :: op(feed(c, low(x)), shift(x)) == step(op(c, x))
  }

  /** Feeding the bits of x one by one, and adding what is left of x, is stepping with all of x added at once. */
  lemma {:induction false} FeedLowBits<T(!new)>(step: T -> T, feed: (T, bool) -> T, low: T -> bool, shift: T -> T,
                                                op: (T, T) -> T, c: T, x: T, n: nat)
    requires FeedsLowest(step, feed, low, shift, op)
    ensures op(FeedAll(feed, c, LowBits(low, shift, x, n)), Iterate(shift, x, n)) == Iterate(step, op(c, x), n)
    decreases n
  {
    if n > 0 {
      assert LowBits(low, shift, x, n)[1..] == LowBits(low, shift, shift(x), n - 1);
      FeedLowBits(step, feed, low, shift, op, feed(c, low(x)), shift(x), n - 1);
    }
  }

  lemma {:induction false} IterateAdd<T>(step: T -> T, x: T, m: nat, n: nat)
    ensures Iterate(step, x, m + n) == Iterate(step, Iterate(step, x, m), n)
    decreases m
  {
    if m > 0 {
      IterateAdd(step, step(x), m - 1, n);
    }
  }

  lemma {:induction false} FeedAllConcat<T>(feed: (T, bool) -> T, x: T, u: seq<bool>, v: seq<bool>)
    ensures FeedAll(feed, x, u + v) == FeedAll(feed, FeedAll(feed, x, u), v)
    decreases |u|
  {
    if u == [] {
      assert u + v == v;
    } else {
      assert (u + v)[1..] == u[1..] + v;
      FeedAllConcat(feed, feed(x, u[0]), u[1..], v);
    }
  }

  ghost predicate DeterminedByParts<T(!new)>(low: T -> bool, shift: T -> T) {
    forall x, y :: low(x) == low(y) && shift(x) == shift(y) ==> x == y
  }

  lemma {:induction false} LowBitsDetermine<T(!new)>(low: T -> bool, shift: T -> T, x: T, y: T, n: nat)
    requires DeterminedByParts(low, shift)
    requires LowBits(low, shift, x, n) == LowBits(low, shift, y, n)
    requires Iterate(shift, x, n) == Iterate(shift, y, n)
    ensures x == y
    decreases n
  {
    if n > 0 {
      assert LowBits(low, shift, x, n)[1..] == LowBits(low, shift, shift(x), n - 1);
      assert LowBits(low, shift, y, n)[1..] == LowBits(low, shift, shift(y), n - 1);
      assert LowBits(low, shift, x, n)[0] == LowBits(low, shift, y, n)[0];
      LowBitsDetermine(low, shift, shift(x), shift(y), n - 1);
    }
  }

  ghost predicate InjectiveInState<T(!new)>(feed: (T, bool) -> T) {
    forall x, y, b :: feed(x, b) == feed(y, b) ==> x == y
  }

  /** Once two registers differ, feeding both the same bits never makes them meet. */
  lemma {:induction false} FeedAllInjective<T(!new)>(feed: (T, bool) -> T, x: T, y: T, bits: seq<bool>)
    requires InjectiveInState(feed) && x != y
    ensures FeedAll(feed, x, bits) != FeedAll(feed, y, bits)
    decreases |bits|
  {
    if bits != [] {
      var b := bits[0];
      assert feed(x, b) == feed(y, b) ==> x == y;
      FeedAllInjective(feed, feed(x, bits[0]), feed(y, bits[0]), bits[1..]);
    }
  }

  ghost predicate ClosesGap<T(!new)>(feed: (T, bool) -> T, apart: (T, T, nat) -> bool) {
    forall x, y, a, b, k: nat, j: nat :: apart(x, y, k) && k == j + 1 ==> apart(feed(x, a), feed(y, b), j)
  }

  /** Registers k + n apart are still k apart after n bits, whatever the bits are. */
  lemma {:induction false} FeedAllApart<T(!new)>(feed: (T, bool) -> T, apart: (T, T, nat) -> bool, x: T, y: T,
                                                 u: seq<bool>, v: seq<bool>, k: nat)
    requires ClosesGap(feed, apart) && |u| == |v| && apart(x, y, |u| + k)
    ensures apart(FeedAll(feed, x, u), FeedAll(feed, y, v), k)
    decreases |u|
  {
    if u != [] {
      var a, b := u[0], v[0];
      var n: nat, m: nat := |u| + k, |u| - 1 + k;
      assert apart(x, y, n) && n == m + 1;
      assert apart(feed(x, a), feed(y, b), m);
      FeedAllApart(feed, apart, feed(x, u[0]), feed(y, v[0]), u[1..], v[1..], k);
    }
  }
}
