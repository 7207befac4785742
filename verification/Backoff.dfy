/** The retry ladder of the outbound queue. */
module Backoff {
  /** time.Duration: nanoseconds in 64 bits. */
  newtype Duration = d: int | -0x8000_0000_0000_0000 <= d < 0x8000_0000_0000_0000

  const MINUTE: Duration := 60_000_000_000
  const HOUR: Duration := 60 * MINUTE
  const RETRY_INTERVAL: Duration := 5 * MINUTE
  const MAX_ATTEMPTS := 12

  function Pow2(n: nat): (p: nat)
    ensures p >= 1
  {
    if n == 0 then 1 else 2 * Pow2(n - 1)
  }

  /** Minutes to wait after the given number of attempts. */
  function Minutes(attempts: int): (m: nat)
    ensures 5 <= m <= 360
  {
    if attempts <= 1 then 5
    else if 5 * Pow2(attempts - 1) < 360 then 5 * Pow2(attempts - 1)
    else 360
  }

  lemma {:induction false} Pow2Monotone(a: nat, b: nat)
    requires a <= b
    ensures Pow2(a) <= Pow2(b)
    decreases b
  {
    if a < b {
      Pow2Monotone(a, b - 1);
    }
  }

  /** Doubling never overflows, and the result is the capped power of two. */
  method Delay(attempts: int) returns (delay: Duration)
    ensures delay as int == Minutes(attempts) * MINUTE as int
  {
    delay := RETRY_INTERVAL;
    var i := 1;
    while i < attempts
      invariant 1 <= i && (if attempts <= 1 then i == 1 else i <= attempts)
      invariant delay as int == 5 * Pow2(i - 1) * MINUTE as int && 5 * Pow2(i - 1) < 360
    {
      delay := delay * 2;
      if delay >= 6 * HOUR {
        Pow2Monotone(i, attempts - 1);
        return 6 * HOUR;
      }
      i := i + 1;
    }
  }

  lemma MinutesMonotone(a: int, b: int)
    requires a <= b
    ensures Minutes(a) <= Minutes(b)
  {
    if 1 < a {
      Pow2Monotone(a - 1, b - 1);
    }
  }

  /** Minutes waited over the first n attempts. */
  function Ladder(n: nat): nat {
    if n == 0 then 0 else Ladder(n - 1) + Minutes(n)
  }

  /** Twelve attempts have eleven waits between them. */
  lemma FullLadder()
    ensures Ladder(MAX_ATTEMPTS - 1) == 2075
  {
    assert Pow2(1) == 2 && Pow2(2) == 4 && Pow2(3) == 8;
    assert Pow2(4) == 16 && Pow2(5) == 32 && Pow2(6) == 64 && Pow2(7) == 128;
    forall n: nat | 8 <= n <= 11 ensures Minutes(n) == 360 {
      Pow2Monotone(7, n - 1);
    }
    assert Ladder(3) == 35;
    assert Ladder(7) == 635 by {
      assert Ladder(5) == 155;
    }
    assert Ladder(9) == 1355;
  }
}
