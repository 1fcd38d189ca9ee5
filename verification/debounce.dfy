/**
 * The generation counter `_wdtCount` that debounces device-change
 * notifications. It is a C# `int`, and `++` on it wraps around from
 * int.MaxValue to int.MinValue.
 */
module Debounce {

  const IntMin: int := -0x8000_0000
  const IntMax: int := 0x7FFF_FFFF
  /** The number of distinct 32-bit values. */
  const Modulus: int := 0x1_0000_0000

  predicate IsInt32(x: int) {
    IntMin <= x <= IntMax
  }

  /** The 32-bit value that `x` wraps to. */
  function Wrap(x: int): (r: int)
    ensures IsInt32(r)
    ensures (x - r) % Modulus == 0
  {
    (x - IntMin) % Modulus + IntMin
  }

  /** `++_wdtCount`: one more, wrapping at the top of the range. */
  function Increment(count: int): (r: int)
    requires IsInt32(count)
    ensures IsInt32(r)
    ensures r == Wrap(count + 1)
    ensures count < IntMax ==> r > count
  {
    if count == IntMax then IntMin else count + 1
  }

  /** The counter after `k` more notifications. */
  function Advance(count: int, k: nat): (r: int)
    requires IsInt32(count)
    ensures IsInt32(r)
  {
    if k == 0 then count else Increment(Advance(count, k - 1))
  }

  /** The tickets captured by `n` notifications in a row, starting from `count`. */
  function Tickets(count: int, n: nat): (r: seq<int>)
    requires IsInt32(count)
    ensures |r| == n
    ensures forall i :: 0 <= i < n ==> r[i] == Advance(count, i + 1)
  {
    seq(n, i requires 0 <= i < n => Advance(count, i + 1))
  }

  lemma WrapIdentity(x: int)
    requires IsInt32(x)
    ensures Wrap(x) == x
  {
  }

  lemma WrapStep(x: int)
    ensures Wrap(Wrap(x) + 1) == Wrap(x + 1)
  {
    var y := x - IntMin;
    var q := y / Modulus;
    assert y == q * Modulus + y % Modulus;
    if y % Modulus + 1 < Modulus {
      assert (y + 1) % Modulus == y % Modulus + 1 by {
        assert y + 1 == q * Modulus + (y % Modulus + 1);
      }
    } else {
      assert (y + 1) % Modulus == 0 by {
        assert y + 1 == (q + 1) * Modulus;
      }
    }
  }

  /** Counting `k` notifications is adding `k` modulo 2^32. */
  lemma {:induction false} AdvanceWraps(count: int, k: nat)
    requires IsInt32(count)
    ensures Advance(count, k) == Wrap(count + k)
  {
    if k == 0 {
      WrapIdentity(count);
    } else {
      AdvanceWraps(count, k - 1);
      WrapStep(count + k - 1);
    }
  }

  /** `a` notifications followed by `b` more are `a + b` notifications. */
  lemma {:induction false} AdvanceAdd(count: int, a: nat, b: nat)
    requires IsInt32(count)
    ensures Advance(count, a + b) == Advance(Advance(count, a), b)
  {
    if b > 0 {
      AdvanceAdd(count, a, b - 1);
    }
  }

  /** Two 32-bit values that are congruent modulo 2^32 are equal. */
  lemma WrapInjective(x: int, y: int)
    ensures Wrap(x) == Wrap(y) <==> (x - y) % Modulus == 0
  {
    var a := x - IntMin;
    var b := y - IntMin;
    assert a == (a / Modulus) * Modulus + a % Modulus;
    assert b == (b / Modulus) * Modulus + b % Modulus;
    if Wrap(x) == Wrap(y) {
      assert x - y == (a / Modulus - b / Modulus) * Modulus;
    } else {
      var d := a % Modulus - b % Modulus;
      assert x - y == (a / Modulus - b / Modulus) * Modulus + d;
      assert d != 0 && -Modulus < d < Modulus;
    }
  }

  /**
   * A ticket is superseded by any later notification: after `k` more
   * notifications, fewer than 2^32, the counter no longer equals it.
   */
  lemma {:induction false} TicketSuperseded(ticket: int, k: nat)
    requires IsInt32(ticket)
    requires 0 < k < Modulus
    ensures Advance(ticket, k) != ticket
  {
    AdvanceWraps(ticket, k);
    WrapIdentity(ticket);
    WrapInjective(ticket + k, ticket);
  }

  /**
   * In a burst of `n` notifications (at most 2^32 of them), the delayed check
   * of the i-th one finds its ticket current exactly when it is the last.
   */
  lemma {:induction false} OnlyLastTicketFires(count: int, n: nat)
    requires IsInt32(count)
    requires 0 < n <= Modulus
    ensures forall i :: 0 <= i < n ==> (Tickets(count, n)[i] == Advance(count, n) <==> i == n - 1)
  {
    forall i | 0 <= i < n
      ensures Tickets(count, n)[i] == Advance(count, n) <==> i == n - 1
    {
      if i < n - 1 {
        AdvanceAdd(count, i + 1, n - i - 1);
        TicketSuperseded(Advance(count, i + 1), n - i - 1);
      }
    }
  }
}
