/** The wrapping tick counter (TickType_t) and its relation to an unbounded ghost time.

    A tick is what the kernel sees; a plain `nat` is the true number of ticks since start-up.
    `Epoch` counts how often the counter has wrapped.  The port chooses a 16-bit or a 64-bit
    counter, so the modulus is left open: nothing here depends on its value.

    Tick and Epoch are remainder and quotient by M (TickIsRemainder); they are defined by
    counting down so that proofs about them stay linear.
 */
module Ticks {

  type Modulus = m: int | 2 <= m witness 2

  // One more than the largest tick count (portMAX_DELAY + 1).
  const M: Modulus

  function Tick(t: nat): (r: nat)
    ensures r < M
  {
    if t < M then t else Tick(t - M)
  }

  function Epoch(t: nat): nat {
    if t < M then 0 else 1 + Epoch(t - M)
  }

  // Arithmetic on TickType_t wraps modulo M, also when a difference is negative.
  function Wrap(x: int): (r: nat)
    ensures r < M
    decreases if x < 0 then -x else 0
  {
    if x < 0 then Wrap(x + M) else Tick(x)
  }

  lemma {:induction false} TickIsRemainder(t: nat)
    ensures t == Epoch(t) * M + Tick(t)
    ensures Tick(t) == t % M
  {
    if M <= t {
      TickIsRemainder(t - M);
      assert Epoch(t) * M == Epoch(t - M) * M + M;
      assert (t - M) % M == t % M by {
        RemainderOfShift(t);
      }
    }
  }

  lemma RemainderOfShift(t: int)
    ensures (t - M) % M == t % M
  {
    var d := (t - M) / M - t / M + 1;
    assert d * M == t % M - (t - M) % M by {
      assert t == (t / M) * M + t % M;
      assert t - M == ((t - M) / M) * M + (t - M) % M;
    }
    SmallMultiple(d);
  }

  lemma SmallMultiple(d: int)
    requires d * M < M && 0 < d * M + M
    ensures d == 0
  {
  }

  lemma {:induction false} WrapIsRemainder(x: int)
    ensures Wrap(x) == x % M
    decreases if x < 0 then -x else 0
  {
    if x < 0 {
      WrapIsRemainder(x + M);
      RemainderOfShift(x + M);
    } else {
      TickIsRemainder(x);
    }
  }

  // Two instants less than M apart are in the same epoch or in adjacent ones, and comparing
  // their ticks tells which.
  lemma {:induction false} Near(a: nat, b: nat)
    requires a <= b < a + M
    ensures if Tick(a) <= Tick(b)
            then Epoch(b) == Epoch(a) && b - a == Tick(b) - Tick(a)
            else Epoch(b) == Epoch(a) + 1 && b - a == Tick(b) - Tick(a) + M
    ensures Wrap(Tick(b) - Tick(a)) == b - a
  {
    if M <= a {
      Near(a - M, b - M);
    } else if M <= b {
      assert Tick(b - M) == b - M && Epoch(b - M) == 0;
    }
  }

  lemma {:induction false} EpochMonotone(a: nat, b: nat)
    requires a <= b
    ensures Epoch(a) <= Epoch(b)
  {
    if M <= a {
      EpochMonotone(a - M, b - M);
    }
  }

  lemma EarlierEpoch(a: nat, b: nat)
    requires Epoch(a) < Epoch(b)
    ensures a < b
  {
    if b <= a {
      EpochMonotone(b, a);
    }
  }

  // Within one epoch the tick counter orders instants as true time does.
  lemma {:induction false} SameEpochOrder(a: nat, b: nat)
    requires Epoch(a) == Epoch(b)
    ensures b - a == Tick(b) - Tick(a)
    ensures a < b <==> Tick(a) < Tick(b)
  {
    if M <= a && M <= b {
      SameEpochOrder(a - M, b - M);
    }
  }

  // Adding ticks and wrapping gives the tick of the true sum.
  lemma {:induction false} TickOfSum(a: nat, d: nat)
    requires d < M
    ensures Wrap(Tick(a) + d) == Tick(a + d)
    ensures Tick(a + d) == if Tick(a) + d < M then Tick(a) + d else Tick(a) + d - M
  {
    if M <= a {
      TickOfSum(a - M, d);
    }
  }

  // The instant of the next wrap after t.
  function EpochEnd(t: nat): nat {
    t + (M - Tick(t))
  }

  lemma {:induction false} EpochEndBounds(t: nat)
    ensures Tick(EpochEnd(t)) == 0
    ensures Epoch(EpochEnd(t)) == Epoch(t) + 1
  {
    if M <= t {
      EpochEndBounds(t - M);
    }
  }

  lemma BeforeEpochEnd(t: nat, x: nat)
    requires Epoch(t) <= Epoch(x)
    ensures x < EpochEnd(t) <==> Epoch(x) == Epoch(t)
  {
    EpochEndBounds(t);
    if x < EpochEnd(t) {
      if t <= x {
        Near(t, x);
      } else {
        EpochMonotone(x, t);
      }
    } else {
      EpochMonotone(EpochEnd(t), x);
    }
  }
}
