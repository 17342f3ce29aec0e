/** Retry with exponential backoff (internal/reconciler/retry.go). Durations are int64
    nanoseconds; doubling wraps around as the machine does. */
module Retry {
  import opened Text

  const MAX_INT64: int := 0x7FFF_FFFF_FFFF_FFFF
  const TWO_64: int := 0x1_0000_0000_0000_0000

  /** The largest duration whose double is still a duration. */
  const HALF: int := 0x3FFF_FFFF_FFFF_FFFF

  predicate Duration(d: int) { -MAX_INT64 - 1 <= d <= MAX_INT64 }

  /** int64 wrap-around of the double of an int64. */
  function Wrap(x: int): int {
    if x > MAX_INT64 then x - TWO_64 else if x < -MAX_INT64 - 1 then x + TWO_64 else x
  }

  function Doubled(delay: int, maxDelay: int): int {
    if Wrap(2 * delay) > maxDelay then maxDelay else Wrap(2 * delay)
  }

  /** The wait before retry k + 1. */
  function Delay(initial: int, maxDelay: int, k: nat): int {
    if k == 0 then initial else Doubled(Delay(initial, maxDelay, k - 1), maxDelay)
  }

  function Pow2(k: nat): nat { if k == 0 then 1 else 2 * Pow2(k - 1) }

  function Min(a: int, b: int): int { if a <= b then a else b }

  function Sum(waits: seq<int>): int {
    if waits == [] then 0 else Sum(waits[..|waits| - 1]) + waits[|waits| - 1]
  }

  /** The capped doubling in closed form. */
  function Capped(initial: int, maxDelay: int, k: nat): int { Min(initial * Pow2(k), maxDelay) }

  /** The closed form of the total of the first n waits. */
  function TotalCapped(initial: int, maxDelay: int, n: nat): int {
    if n == 0 then 0 else TotalCapped(initial, maxDelay, n - 1) + Capped(initial, maxDelay, n - 1)
  }

  lemma ScaledTwice(initial: int, k: nat)
    requires k > 0
    ensures initial * Pow2(k) == 2 * (initial * Pow2(k - 1))
  {}

  lemma {:induction false} ScaledGrows(initial: int, j: nat, k: nat)
    requires initial >= 0 && j <= k
    ensures 0 <= initial * Pow2(j) <= initial * Pow2(k)
    decreases k - j
  {
    if j < k {
      ScaledGrows(initial, j + 1, k);
      ScaledTwice(initial, j + 1);
    }
  }

  lemma DoubledCapped(x: int, maxDelay: int)
    requires 0 <= x && 0 <= maxDelay <= MAX_INT64 && (maxDelay <= HALF || x <= HALF)
    ensures Doubled(Min(x, maxDelay), maxDelay) == Min(2 * x, maxDelay)
  {}

  /** The closed form, as long as every delay before this one still has a double. */
  lemma {:induction false} DelayCloses(initial: int, maxDelay: int, k: nat)
    requires 0 <= initial <= maxDelay <= MAX_INT64
    requires maxDelay <= HALF || k == 0 || initial * Pow2(k - 1) <= HALF
    ensures Delay(initial, maxDelay, k) == Capped(initial, maxDelay, k)
  {
    if k > 0 {
      var x := initial * Pow2(k - 1);
      ScaledTwice(initial, k);
      ScaledGrows(initial, k - 1, k - 1);
      if k > 1 {
        ScaledGrows(initial, k - 2, k - 1);
      }
      DelayCloses(initial, maxDelay, k - 1);
      CappedTwice(initial, maxDelay, k, x);
    }
  }

  lemma CappedTwice(initial: int, maxDelay: int, k: nat, x: int)
    requires k > 0 && 0 <= x == initial * Pow2(k - 1) && initial * Pow2(k) == 2 * x
    requires 0 <= maxDelay <= MAX_INT64 && (maxDelay <= HALF || x <= HALF)
    requires Delay(initial, maxDelay, k - 1) == Capped(initial, maxDelay, k - 1)
    ensures Delay(initial, maxDelay, k) == Capped(initial, maxDelay, k)
  {
    DoubledCapped(x, maxDelay);
  }

  lemma {:induction false} Exceeds(bound: nat) returns (k: nat)
    ensures Pow2(k) > bound
  {
    k := 0;
    if bound > 0 {
      k := Exceeds(bound / 2);
      k := k + 1;
    }
  }

  /** A delay that has outgrown half of int64 is followed by a negative one. */
  lemma Overflows(initial: int, maxDelay: int, k: nat)
    requires 0 < initial <= maxDelay && HALF < maxDelay <= MAX_INT64 && initial * Pow2(k) > HALF
    requires Delay(initial, maxDelay, k) == Capped(initial, maxDelay, k)
    ensures Delay(initial, maxDelay, k + 1) < 0 <= Capped(initial, maxDelay, k + 1)
  {
    var d := Delay(initial, maxDelay, k);
    WrapsNegative(d);
    assert Delay(initial, maxDelay, k + 1) == Doubled(d, maxDelay);
    ScaledGrows(initial, k, k + 1);
  }

  lemma AtLeast(a: int, b: nat)
    requires a > 0
    ensures a * b >= b
  {}

  /** The waits follow the closed form for ever exactly when the cap leaves room for one
      more doubling; otherwise some delay wraps to a negative one. */
  lemma BackoffClosedIff(initial: int, maxDelay: int)
    requires 0 <= initial <= maxDelay <= MAX_INT64
    ensures (forall k: nat :: Delay(initial, maxDelay, k) == Capped(initial, maxDelay, k))
       <==> initial == 0 || maxDelay <= HALF
  {
    if initial == 0 || maxDelay <= HALF {
      forall k: nat
        ensures Delay(initial, maxDelay, k) == Capped(initial, maxDelay, k)
      {
        DelayCloses(initial, maxDelay, k);
      }
    } else {
      var k := Exceeds(HALF);
      AtLeast(initial, Pow2(k));
      if Delay(initial, maxDelay, k) == Capped(initial, maxDelay, k) {
        Overflows(initial, maxDelay, k);
        assert Delay(initial, maxDelay, k + 1) != Capped(initial, maxDelay, k + 1);
      }
    }
  }

  /** The delay before the last retry of a call still had room to double. */
  predicate RoomFor(initial: int, attempts: nat) {
    attempts <= 2 || initial * Pow2(attempts - 3) <= HALF
  }

  /** The same for one call: the at most attempts - 1 waits of a call follow the closed form
      exactly when the cap leaves room for one more doubling or no delay the call doubles
      has outgrown half of int64. */
  lemma AttemptsClosedIff(initial: int, maxDelay: int, attempts: nat)
    requires 0 <= initial <= maxDelay <= MAX_INT64
    ensures (forall k: nat | k + 1 < attempts :: Delay(initial, maxDelay, k) == Capped(initial, maxDelay, k))
       <==> maxDelay <= HALF || RoomFor(initial, attempts)
  {
    if maxDelay <= HALF || RoomFor(initial, attempts) {
      forall k: nat | k + 1 < attempts
        ensures Delay(initial, maxDelay, k) == Capped(initial, maxDelay, k)
      {
        if k > 0 {
          ScaledGrows(initial, k - 1, attempts - 3);
        }
        DelayCloses(initial, maxDelay, k);
      }
    } else {
      var k := attempts - 3;
      if Delay(initial, maxDelay, k) == Capped(initial, maxDelay, k) {
        Overflows(initial, maxDelay, k);
        assert k + 1 + 1 < attempts && Delay(initial, maxDelay, k + 1) != Capped(initial, maxDelay, k + 1);
      }
    }
  }

  lemma WrapsNegative(d: int)
    requires HALF < d <= MAX_INT64
    ensures Wrap(2 * d) == 2 * d - TWO_64 < 0
  {}

  /** No wait exceeds the maximum exactly when the first does not: the initial delay alone
      is never capped. */
  lemma {:induction false} CapIff(initial: int, maxDelay: int)
    ensures (forall k: nat :: Delay(initial, maxDelay, k) <= maxDelay) <==> initial <= maxDelay
  {
    if initial <= maxDelay {
      forall k: nat
        ensures Delay(initial, maxDelay, k) <= maxDelay
      {
        assert k > 0 ==> Delay(initial, maxDelay, k) == Doubled(Delay(initial, maxDelay, k - 1), maxDelay);
      }
    } else {
      assert Delay(initial, maxDelay, 0) > maxDelay;
    }
  }

  lemma {:induction false} TotalCloses(initial: int, maxDelay: int, waits: seq<int>)
    requires 0 <= initial <= maxDelay <= HALF
    requires BackedOff(waits, initial, maxDelay)
    ensures Sum(waits) == TotalCapped(initial, maxDelay, |waits|)
  {
    if waits != [] {
      TotalCloses(initial, maxDelay, waits[..|waits| - 1]);
      DelayCloses(initial, maxDelay, |waits| - 1);
    }
  }

  /** Returned carries the error handed back, None for success. */
  datatype Ending = Returned(error: Option<string>) | ContextEnded

  /** The first n calls failed and none of the waits after them was cut short. */
  ghost predicate AllRetried(attempt: nat -> Option<string>, ended: nat -> bool, n: nat) {
    forall i: nat | i < n :: attempt(i).Some? && !ended(i)
  }

  /** The waits so far are the backoff delays. */
  ghost predicate BackedOff(waits: seq<int>, initial: int, maxDelay: int) {
    forall k: nat | k < |waits| :: waits[k] == Delay(initial, maxDelay, k)
  }

  /** `attempt(i)` is the error of the i-th call, None for success; `ended(i)` says that
      the context is done before the i-th wait is over. */
  method Retry(maxAttempts: int, initialDelay: int, maxDelay: int,
               attempt: nat -> Option<string>, ended: nat -> bool)
    returns (ending: Ending, calls: nat, waits: seq<int>)
    requires Duration(initialDelay) && Duration(maxDelay)
    ensures maxAttempts < 1 ==> calls == 0 && ending == Returned(None)
    ensures maxAttempts >= 1 ==> 1 <= calls <= maxAttempts && AllRetried(attempt, ended, calls - 1)
    ensures calls >= 1 ==>
              ending == if attempt(calls - 1).None? then Returned(None)
                        else if calls == maxAttempts then Returned(attempt(calls - 1))
                        else ContextEnded
    ensures ending.ContextEnded? ==> calls >= 1 && ended(calls - 1)
    ensures |waits| == if ending.ContextEnded? || calls == 0 then calls else calls - 1
    ensures BackedOff(waits, initialDelay, maxDelay)
  {
    var lastErr: Option<string> := None;
    var delay := initialDelay;
    calls, waits := 0, [];
    var i := 1;
    while i <= maxAttempts
      invariant 1 <= i && calls == i - 1 == |waits| && (if maxAttempts >= 1 then i <= maxAttempts else i == 1)
      invariant calls == 0 ==> lastErr.None?
      invariant delay == Delay(initialDelay, maxDelay, calls)
      invariant AllRetried(attempt, ended, calls) && BackedOff(waits, initialDelay, maxDelay)
      decreases maxAttempts - i
    {
      var err := attempt(calls);
      calls := calls + 1;
      if err.Some? {
        lastErr := err;
        if i == maxAttempts {
          break;
        }
        waits := waits + [delay];
        if ended(calls - 1) {
          return ContextEnded, calls, waits;
        }
        delay := Wrap(2 * delay);
        if delay > maxDelay {
          delay := maxDelay;
        }
        i := i + 1;
        continue;
      }
      return Returned(None), calls, waits;
    }
    return Returned(lastErr), calls, waits;
  }
}
