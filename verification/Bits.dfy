/** Machine words as naturals, looked at bit by bit. Every operation has its width written out. */
module Bits {

  function Pow2(n: nat): (r: nat)
    ensures r > 0
  {
    if n == 0 then 1 else 2 * Pow2(n - 1)
  }

  /** Bit k of x, bit 0 being the least significant. */
  predicate Bit(x: nat, k: nat)
    decreases k
  {
    if k == 0 then x % 2 == 1 else Bit(x / 2, k - 1)
  }

  /** Truncation to w bits. */
  function Low(x: nat, w: nat): (r: nat)
    ensures r < Pow2(w)
  {
    if w == 0 then 0 else x % 2 + 2 * Low(x / 2, w - 1)
  }

  function ShiftLeft(x: nat, n: nat): nat {
    if n == 0 then x else 2 * ShiftLeft(x, n - 1)
  }

  /** x >> n */
  function Shr(x: nat, n: nat): nat {
    if n == 0 then x else Shr(x / 2, n - 1)
  }

  /** x << n in width w */
  function Shl(w: nat, x: nat, n: nat): (r: nat)
    ensures r < Pow2(w)
  {
    Low(ShiftLeft(x, n), w)
  }

  function And(w: nat, x: nat, y: nat): (r: nat)
    ensures r < Pow2(w)
  {
    if w == 0 then 0 else (if x % 2 == 1 && y % 2 == 1 then 1 else 0) + 2 * And(w - 1, x / 2, y / 2)
  }

  function Or(w: nat, x: nat, y: nat): (r: nat)
    ensures r < Pow2(w)
  {
    if w == 0 then 0 else (if x % 2 == 1 || y % 2 == 1 then 1 else 0) + 2 * Or(w - 1, x / 2, y / 2)
  }

  function Not(w: nat, x: nat): (r: nat)
    ensures r < Pow2(w)
  {
    if w == 0 then 0 else (if x % 2 == 1 then 0 else 1) + 2 * Not(w - 1, x / 2)
  }

  /** Wrap-around subtraction of w-bit numbers. */
  function Sub(w: nat, x: nat, y: nat): (r: nat)
    requires x < Pow2(w) && y < Pow2(w)
    ensures r < Pow2(w)
  {
    if y <= x then x - y else x + Pow2(w) - y
  }

  /** The number with the given bits, least significant first. */
  function FromBits(bs: seq<bool>): (r: nat)
    ensures r < Pow2(|bs|)
  {
    if bs == [] then 0 else (if bs[0] then 1 else 0) + 2 * FromBits(bs[1..])
  }

  /** Bit k is the binary digit of weight 2^k. */
  lemma {:induction false} BitIsDigit(x: nat, k: nat)
    ensures Bit(x, k) <==> x / Pow2(k) % 2 == 1
    decreases k
  {
    if k == 0 {
    } else {
      BitIsDigit(x / 2, k - 1);
      DivTwice(x, Pow2(k - 1));
    }
  }

  lemma DivTwice(x: nat, d: nat)
    requires d > 0
    ensures x / (2 * d) == x / 2 / d
  {
    var q := x / 2 / d;
    assert x / 2 == d * q + x / 2 % d;
    assert x == (2 * d) * q + (2 * (x / 2 % d) + x % 2) by { assert (2 * d) * q == 2 * (d * q); }
    DivMod(x, 2 * d, q, 2 * (x / 2 % d) + x % 2);
  }

  lemma {:induction false} BitLow(x: nat, w: nat, k: nat)
    ensures Bit(Low(x, w), k) == (k < w && Bit(x, k))
    decreases k
  {
    if w == 0 {
      BitZero(k);
    } else if k == 0 {
    } else {
      assert Low(x, w) / 2 == Low(x / 2, w - 1);
      BitLow(x / 2, w - 1, k - 1);
    }
  }

  lemma {:induction false} BitZero(k: nat)
    ensures !Bit(0, k)
  {
    if k == 0 {
    } else {
      BitZero(k - 1);
    }
  }

  lemma {:induction false} BitShr(x: nat, n: nat, k: nat)
    ensures Bit(Shr(x, n), k) == Bit(x, n + k)
    decreases n
  {
    if n == 0 {
    } else {
      BitShr(x / 2, n - 1, k);
    }
  }

  lemma {:induction false} BitShiftLeft(x: nat, n: nat, k: nat)
    ensures Bit(ShiftLeft(x, n), k) == (n <= k && Bit(x, k - n))
    decreases n
  {
    if n == 0 || k == 0 {
    } else {
      assert ShiftLeft(x, n) / 2 == ShiftLeft(x, n - 1);
      BitShiftLeft(x, n - 1, k - 1);
    }
  }

  lemma BitShl(w: nat, x: nat, n: nat, k: nat)
    ensures Bit(Shl(w, x, n), k) == (n <= k < w && Bit(x, k - n))
  {
    BitLow(ShiftLeft(x, n), w, k);
    BitShiftLeft(x, n, k);
  }

  lemma {:induction false} BitAnd(w: nat, x: nat, y: nat, k: nat)
    ensures Bit(And(w, x, y), k) == (k < w && Bit(x, k) && Bit(y, k))
    decreases k
  {
    if w == 0 {
      BitZero(k);
    } else if k == 0 {
    } else {
      assert And(w, x, y) / 2 == And(w - 1, x / 2, y / 2);
      BitAnd(w - 1, x / 2, y / 2, k - 1);
    }
  }

  lemma {:induction false} BitOr(w: nat, x: nat, y: nat, k: nat)
    ensures Bit(Or(w, x, y), k) == (k < w && (Bit(x, k) || Bit(y, k)))
    decreases k
  {
    if w == 0 {
      BitZero(k);
    } else if k == 0 {
    } else {
      assert Or(w, x, y) / 2 == Or(w - 1, x / 2, y / 2);
      BitOr(w - 1, x / 2, y / 2, k - 1);
    }
  }

  lemma {:induction false} BitNot(w: nat, x: nat, k: nat)
    ensures Bit(Not(w, x), k) == (k < w && !Bit(x, k))
    decreases k
  {
    if w == 0 {
      BitZero(k);
    } else if k == 0 {
    } else {
      assert Not(w, x) / 2 == Not(w - 1, x / 2);
      BitNot(w - 1, x / 2, k - 1);
    }
  }

  lemma {:induction false} BitOf(bs: seq<bool>, k: nat)
    ensures Bit(FromBits(bs), k) == (k < |bs| && bs[k])
    decreases k
  {
    if bs == [] {
      BitZero(k);
    } else if k == 0 {
    } else {
      assert FromBits(bs) / 2 == FromBits(bs[1..]);
      BitOf(bs[1..], k - 1);
    }
  }

  lemma {:induction false} Pow2Monotone(a: nat, b: nat)
    requires a <= b
    ensures Pow2(a) <= Pow2(b) && (a < b ==> Pow2(a) < Pow2(b))
    decreases b
  {
    if a == b {
    } else {
      Pow2Monotone(a, b - 1);
    }
  }

  lemma {:induction false} ShiftedOne(n: nat)
    ensures ShiftLeft(1, n) == Pow2(n) && ShiftLeft(2, n) == Pow2(n + 1)
  {
    if n == 0 {
    } else {
      ShiftedOne(n - 1);
    }
  }

  /** 2^hi - 2^lo has exactly the bits lo..hi-1. */
  lemma {:induction false} BitRun(hi: nat, lo: nat, k: nat)
    requires lo <= hi
    ensures Pow2(lo) <= Pow2(hi) && Bit(Pow2(hi) - Pow2(lo), k) == (lo <= k < hi)
    decreases k
  {
    Pow2Monotone(lo, hi);
    if lo == hi {
      BitZero(k);
    } else if k == 0 {
    } else {
      var l := if lo == 0 then 0 else lo - 1;
      Pow2Monotone(l, hi - 1);
      assert (Pow2(hi) - Pow2(lo)) / 2 == Pow2(hi - 1) - Pow2(l);
      BitRun(hi - 1, l, k - 1);
    }
  }

  /** Numbers with the same bits are equal. */
  lemma {:induction false} SameBits(x: nat, y: nat, w: nat)
    requires x < Pow2(w) && y < Pow2(w) && forall k: nat | k < w :: Bit(x, k) == Bit(y, k)
    ensures x == y
    decreases w
  {
    if w == 0 {
    } else {
      assert Bit(x, 0) == Bit(y, 0);
      forall k: nat | k < w - 1 ensures Bit(x / 2, k) == Bit(y / 2, k) {
        assert Bit(x, k + 1) == Bit(y, k + 1);
      }
      SameBits(x / 2, y / 2, w - 1);
    }
  }

  lemma {:induction false} HasBit(x: nat, w: nat)
    requires 0 < x < Pow2(w)
    ensures exists k: nat :: k < w && Bit(x, k)
  {
    if x % 2 == 1 {
      assert Bit(x, 0);
    } else {
      HasBit(x / 2, w - 1);
      var k: nat :| k < w - 1 && Bit(x / 2, k);
      assert Bit(x, k + 1);
    }
  }

  /** A word is nonzero iff it has a bit. */
  lemma {:induction false} NonZero(x: nat, w: nat)
    requires x < Pow2(w)
    ensures x != 0 <==> exists k: nat :: k < w && Bit(x, k)
  {
    if x == 0 {
      forall k: nat | k < w ensures !Bit(x, k) { BitZero(k); }
    } else {
      HasBit(x, w);
    }
  }

  /** Truncating changes nothing below 2^w. */
  lemma {:induction false} LowIsSame(x: nat, w: nat)
    requires x < Pow2(w)
    ensures Low(x, w) == x
  {
    if w == 0 {
    } else {
      LowIsSame(x / 2, w - 1);
    }
  }

  lemma {:induction false} HighBitsZero(x: nat, w: nat, k: nat)
    requires x < Pow2(w) && w <= k
    ensures !Bit(x, k)
    decreases k
  {
    if w == 0 { BitZero(k); } else { HighBitsZero(x / 2, w - 1, k - 1); }
  }

  /** Truncation is the remainder modulo 2^w. */
  lemma {:induction false} LowIsMod(x: nat, w: nat)
    ensures x % Pow2(w) == Low(x, w)
  {
    if w == 0 {
    } else {
      LowIsMod(x / 2, w - 1);
      ModDouble(x, Pow2(w - 1));
    }
  }

  lemma ModDouble(x: nat, p: nat)
    requires p > 0
    ensures x % (2 * p) == x % 2 + 2 * (x / 2 % p)
  {
    var h := x / 2;
    var q, r := h / p, h % p;
    assert h == p * q + r && x == 2 * h + x % 2;
    assert (2 * p) * q == 2 * (p * q);
    DivMod(x, 2 * p, q, 2 * r + x % 2);
  }

  lemma DivMod(x: nat, d: nat, q: nat, r: nat)
    requires d > 0 && x == d * q + r && r < d
    ensures x / d == q && x % d == r
  {
    var q1 := x / d;
    assert x == d * q1 + x % d;
    if q < q1 { MulMonotone(d, q + 1, q1); MulMonotone(d, q, q1); }
    if q1 < q { MulMonotone(d, q1 + 1, q); MulMonotone(d, q1, q); }
  }

  lemma MulMonotone(d: nat, a: nat, b: nat)
    requires a <= b
    ensures d * a <= d * b && d * (a + 1) == d * a + d
  {
  }
}
