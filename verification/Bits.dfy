/** Bit operations on unsigned words, written out on numbers, and the power-of-two rounding both containers use. */
module Bits {
  import opened Types

  function Pow2(n: nat): (p: nat)
    ensures p > 0
  {
    if n == 0 then 1 else 2 * Pow2(n - 1)
  }

  ghost predicate IsPow2(p: nat) {
    exists n: nat :: p == Pow2(n)
  }

  function Bit(x: nat, k: nat): bool {
    if k == 0 then x % 2 == 1 else Bit(x / 2, k - 1)
  }

  function Shr(x: nat, i: nat): nat {
    if i == 0 then x else Shr(x / 2, i - 1)
  }

  function Or(x: nat, y: nat): nat {
    if x == 0 then y
    else if y == 0 then x
    else (if x % 2 == 1 || y % 2 == 1 then 1 else 0) + 2 * Or(x / 2, y / 2)
  }

  function And(x: nat, y: nat): (r: nat)
    ensures r <= y
  {
    if x == 0 || y == 0 then 0
    else (if x % 2 == 1 && y % 2 == 1 then 1 else 0) + 2 * And(x / 2, y / 2)
  }

  /** The number of significant bits. */
  function Len(x: nat): nat {
    if x == 0 then 0 else 1 + Len(x / 2)
  }

  lemma {:induction false} BitShr(x: nat, i: nat, k: nat)
    ensures Bit(Shr(x, i), k) == Bit(x, i + k)
    decreases i
  {
    if i > 0 {
      BitShr(x / 2, i - 1, k);
    }
  }

  lemma {:induction false} BitZero(k: nat)
    ensures !Bit(0, k)
  {
    if k > 0 {
      BitZero(k - 1);
    }
  }

  lemma {:induction false} BitOr(x: nat, y: nat, k: nat)
    ensures Bit(Or(x, y), k) == (Bit(x, k) || Bit(y, k))
    decreases k
  {
    BitZero(k);
    if x != 0 && y != 0 && k > 0 {
      BitOr(x / 2, y / 2, k - 1);
      assert Or(x, y) / 2 == Or(x / 2, y / 2);
    }
  }

  lemma LenHalf(x: nat)
    requires x > 1
    ensures Len(x) == Len(x / 2) + 1 >= 2
    ensures Pow2(Len(x)) == 2 * Pow2(Len(x) - 1) && Pow2(Len(x) - 1) == 2 * Pow2(Len(x) - 2)
    ensures Bit(x, Len(x) - 1) == Bit(x / 2, Len(x) - 2)
  {
    assert Len(x / 2) == 1 + Len(x / 2 / 2);
  }

  lemma LenOne()
    ensures Len(1) == 1 && Pow2(1) == 2 && Pow2(0) == 1 && Bit(1, 0)
  {
    assert Len(1) == 1 + Len(1 / 2);
  }

  lemma {:induction false} LenBounds(x: nat)
    requires x > 0
    ensures Pow2(Len(x) - 1) <= x < Pow2(Len(x))
    ensures Bit(x, Len(x) - 1)
  {
    hide Bit, Pow2, Len;
    if x > 1 {
      LenBounds(x / 2);
      LenHalf(x);
    } else {
      LenOne();
    }
  }

  lemma {:induction false} BitAbove(x: nat, k: nat)
    requires k >= Len(x)
    ensures !Bit(x, k)
    decreases k
  {
    if x == 0 {
      BitZero(k);
    } else {
      BitAbove(x / 2, k - 1);
    }
  }

  /** A number whose bits are set below `n` and clear from `n` on is 2^n - 1. */
  lemma {:induction false} AllOnes(x: nat, n: nat)
    requires forall k :: 0 <= k < n ==> Bit(x, k)
    requires forall k :: n <= k < n + Len(x) ==> !Bit(x, k)
    ensures x == Pow2(n) - 1
    decreases n
  {
    if n == 0 {
      if x > 0 {
        LenBounds(x);
      }
    } else {
      assert Bit(x, 0);
      forall k | 0 <= k < n - 1
        ensures Bit(x / 2, k)
      {
        assert Bit(x, k + 1);
      }
      forall k | n - 1 <= k < n - 1 + Len(x / 2)
        ensures !Bit(x / 2, k)
      {
        assert !Bit(x, k + 1);
      }
      AllOnes(x / 2, n - 1);
    }
  }

  lemma {:induction false} Pow2Monotone(m: nat, n: nat)
    requires m <= n
    ensures Pow2(m) <= Pow2(n)
    ensures m < n ==> 2 * Pow2(m) <= Pow2(n)
    decreases n
  {
    if m < n {
      Pow2Monotone(m, n - 1);
    }
  }

  lemma Pow2Of64()
    ensures Pow2(64) == TWO_64 && Pow2(63) == TWO_63
  {
    assert Pow2(8) == 256;
    assert Pow2(16) == 0x1_0000;
    assert Pow2(24) == 0x100_0000;
    assert Pow2(32) == 0x1_0000_0000;
    assert Pow2(40) == 0x100_0000_0000;
    assert Pow2(48) == 0x1_0000_0000_0000;
    assert Pow2(56) == 0x100_0000_0000_0000;
  }

  lemma QuotientUnique(m: nat, q: nat, r: nat, q': nat, r': nat)
    requires q * m + r == q' * m + r' && r < m && r' < m
    ensures q == q'
  {
    if q < q' {
      MulStep(m, q, q');
    } else if q' < q {
      MulStep(m, q', q);
    }
  }

  lemma {:induction false} MulStep(m: nat, q: nat, q': nat)
    requires q < q'
    ensures q * m + m <= q' * m
    decreases q'
  {
    assert (q' - 1) * m + m == q' * m;
    if q < q' - 1 {
      MulStep(m, q, q' - 1);
    }
  }

  lemma DivMod(a: nat, m: nat)
    requires m > 0
    ensures a == a / m * m + a % m && a % m < m
  {
  }

  lemma DivModUnique(a: nat, m: nat, q: nat, r: nat)
    requires a == q * m + r && r < m
    ensures a / m == q && a % m == r
  {
    DivMod(a, m);
    QuotientUnique(m, q, r, a / m, a % m);
  }

  lemma HalfMod(x: nat, m: nat)
    requires m > 0
    ensures x % (2 * m) == x % 2 + 2 * (x / 2 % m)
  {
    var q, r := x / 2 / m, x / 2 % m;
    assert x / 2 == q * m + r;
    assert q * (2 * m) == 2 * (q * m);
    DivModUnique(x, 2 * m, q, 2 * r + x % 2);
  }

  lemma AndHalf(x: nat, m: nat)
    requires x > 0 && m > 0
    ensures And(x, 2 * m - 1) == x % 2 + 2 * And(x / 2, m - 1)
  {
    assert (2 * m - 1) / 2 == m - 1 && (2 * m - 1) % 2 == 1;
  }

  /** Masking with a power of two less one is the remainder. */
  lemma {:induction false} MaskIsMod(x: nat, n: nat, p: nat)
    requires p == Pow2(n)
    ensures And(x, p - 1) == x % p
    decreases n
  {
    if x == 0 || n == 0 {
      assert x % 1 == 0;
    } else {
      var h := Pow2(n - 1);
      AndHalf(x, h);
      HalfMod(x, h);
      MaskIsMod(x / 2, n - 1, h);
    }
  }

  /** The least power of two that is at least max(v, 2), for v up to 2^63; beyond, the sum wraps to 0. */
  method RoundUpPow2(v: U64) returns (r: U64)
    ensures v <= TWO_63 ==> IsPow2(r) && r >= 2 && r >= v
    ensures v <= TWO_63 ==> forall p: nat :: IsPow2(p) && p >= 2 && p >= v ==> r <= p
    ensures v > TWO_63 ==> r == 0
  {
    hide Len, Bit, Or, Shr, Pow2;
    if v < 2 {
      LenOne();
      return 2;
    }
    var w: nat := v - 1;
    var i := 1;
    ghost var n := Len(w);
    LenBounds(w);
    LenWord(w);
    forall k | k >= n
      ensures !Bit(w, k)
    {
      BitAbove(w, k);
    }
    while i < 64
      invariant i >= 1
      invariant forall k: nat :: n - i <= k < n ==> Bit(w, k)
      invariant forall k: nat :: k >= n ==> !Bit(w, k)
      decreases 64 - i
    {
      SmearStep(w, i, n);
      w := Or(w, Shr(w, i));
      i := 2 * i;
    }
    AllOnes(w, n);
    RoundedUp(v);
    r := (w + 1) % TWO_64;
  }

  lemma RoundedUp(v: U64)
    requires v >= 2
    ensures var r := Pow2(Len(v - 1)) % TWO_64;
      && (v <= TWO_63 ==> IsPow2(r) && r >= 2 && r >= v)
      && (v <= TWO_63 ==> forall p: nat :: IsPow2(p) && p >= 2 && p >= v ==> r <= p)
      && (v > TWO_63 ==> r == 0)
  {
    hide Len, Pow2;
    NextPow2(v);
  }

  lemma NextPow2(v: U64)
    requires v >= 2
    ensures Pow2(Len(v - 1)) >= v && Pow2(Len(v - 1)) >= 2
    ensures if v <= TWO_63 then Pow2(Len(v - 1)) < TWO_64 else Pow2(Len(v - 1)) == TWO_64
    ensures forall p: nat :: IsPow2(p) && p >= v ==> Pow2(Len(v - 1)) <= p
  {
    hide Len, Bit, Or, Shr, Pow2;
    var n := Len(v - 1);
    LenBounds(v - 1);
    LenWord(v - 1);
    Pow2Of64();
    if n < 64 {
      Pow2Monotone(n, 63);
    }
    forall p: nat | IsPow2(p) && p >= v
      ensures Pow2(n) <= p
    {
      var m: nat :| p == Pow2(m);
      if m < n {
        Pow2Monotone(m, n - 1);
      } else {
        Pow2Monotone(n, m);
      }
    }
  }

  lemma LenWord(w: U64)
    requires w > 0
    ensures Len(w) <= 64
    ensures w < TWO_63 <==> Len(w) < 64
  {
    LenBounds(w);
    Pow2Of64();
    if Len(w) > 64 {
      Pow2Monotone(64, Len(w) - 1);
    }
    if Len(w) < 64 {
      Pow2Monotone(Len(w), 63);
    }
  }

  lemma SmearStep(w: nat, i: nat, n: nat)
    requires forall k: nat :: n - i <= k < n ==> Bit(w, k)
    requires forall k: nat :: k >= n ==> !Bit(w, k)
    ensures forall k: nat :: n - 2 * i <= k < n ==> Bit(Or(w, Shr(w, i)), k)
    ensures forall k: nat :: k >= n ==> !Bit(Or(w, Shr(w, i)), k)
  {
    forall k: nat | n - 2 * i <= k < n
      ensures Bit(Or(w, Shr(w, i)), k)
    {
      BitOr(w, Shr(w, i), k);
      BitShr(w, i, k);
      assert k < n - i ==> Bit(w, i + k);
    }
    forall k: nat | k >= n
      ensures !Bit(Or(w, Shr(w, i)), k)
    {
      BitOr(w, Shr(w, i), k);
      BitShr(w, i, k);
      assert !Bit(w, i + k);
    }
  }
}
