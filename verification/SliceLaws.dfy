/** Laws of slice access, over every net, every slice and every value. */
module SliceLaws {
  import opened Bits
  import opened Nets

  /** With the mask computed in 64 bits, a slice write does exactly what is promised. */
  lemma WideWriteIsExact(bits: seq<Logic>, msb: nat, lsb: nat, value: nat)
    requires lsb <= msb
    ensures var m := Min(msb, lsb + 63);
      Written(bits, m, lsb, SliceMask(Uint64, m - lsb), value) == SliceSet(bits, msb, lsb, value)
  {
    hide SliceMask, Bit;
    var m := Min(msb, lsb + 63);
    forall p: nat | p < |bits|
      ensures Written(bits, m, lsb, SliceMask(Uint64, m - lsb), value)[p] == SliceSet(bits, msb, lsb, value)[p]
    {
      if lsb <= p { WideMaskBit(m - lsb, p - lsb); }
    }
  }

  /** The bits of the mask when the literal is shifted as a 32-bit int. */
  lemma NarrowMaskBit(n: nat, k: nat)
    requires n <= 63 && k < 64
    ensures Bit(SliceMask(Int32, n), k) == (n % 32 == 31 || k <= n % 32)
  {
    NarrowMask(n);
    OnesBit(n % 32, k);
    OnesBit(63, k);
  }

  lemma NarrowMask(n: nat)
    requires n <= 63
    ensures SliceMask(Int32, n) == if n % 32 == 31 then OnesUpTo(63) else OnesUpTo(n % 32)
  {
    hide Low, ShiftLeft;
    ShiftedOne(n % 32);
    LowOfPow2(n % 32 + 1, 32);
    LowOne(32);
    Pow2Monotone(n % 32 + 1, 32);
    if n % 32 < 31 { Pow2Monotone(n % 32 + 1, 31); }
  }

  /** When the mask with a 32-bit literal still gives the promised result: for slices of up to 31 bits
      and of 64 bits; for 32 bits if word-aligned or at the end of the net; for 33 to 63 bits only if
      the part that is left out lies beyond the net. */
  predicate NarrowIsEnough(size: nat, msb: nat, lsb: nat)
    requires lsb <= msb
  {
    var n := Min(msb, lsb + 63) - lsb;
    || n <= 30
    || n == 63
    || (n == 31 && (lsb % 32 == 0 || lsb + 32 >= size))
    || (32 <= n <= 62 && lsb + n - 31 >= size)
  }

  function NarrowWrite(bits: seq<Logic>, msb: nat, lsb: nat, value: nat): (r: seq<Logic>)
    requires lsb <= msb
    ensures |r| == |bits|
  {
    var m := Min(msb, lsb + 63);
    Written(bits, m, lsb, SliceMask(Int32, m - lsb), value)
  }

  lemma NarrowWriteBit(bits: seq<Logic>, msb: nat, lsb: nat, value: nat, p: nat)
    requires lsb <= msb && p < |bits|
    ensures var n := Min(msb, lsb + 63) - lsb;
      NarrowWrite(bits, msb, lsb, value)[p] ==
        if lsb <= p && p / 32 <= (lsb + n) / 32 && ((n % 32 == 31 && p < lsb + 64) || p <= lsb + n % 32)
        then FromBool(Bit(value, p - lsb)) else bits[p]
  {
    hide SliceMask;
    var n := Min(msb, lsb + 63) - lsb;
    if lsb <= p {
      if p - lsb < 64 {
        NarrowMaskBit(n, p - lsb);
      } else {
        SliceMaskRange(Int32, n);
        HighBitsZero(SliceMask(Int32, n), 64, p - lsb);
      }
    }
  }

  lemma NarrowEnough(bits: seq<Logic>, msb: nat, lsb: nat, value: nat)
    requires lsb <= msb && NarrowIsEnough(|bits|, msb, lsb)
    ensures NarrowWrite(bits, msb, lsb, value) == SliceSet(bits, msb, lsb, value)
  {
    hide NarrowWrite, Bit;
    forall p: nat | p < |bits|
      ensures NarrowWrite(bits, msb, lsb, value)[p] == SliceSet(bits, msb, lsb, value)[p]
    {
      NarrowWriteBit(bits, msb, lsb, value, p);
    }
  }

  /** Outside that condition, writing 0 into an all-x net goes wrong. */
  lemma NarrowNotEnough(size: nat, msb: nat, lsb: nat)
    requires lsb <= msb && !NarrowIsEnough(size, msb, lsb)
    ensures var bits := seq(size, _ => VX); NarrowWrite(bits, msb, lsb, 0) != SliceSet(bits, msb, lsb, 0)
  {
    hide NarrowWrite, Bit;
    var bits := seq(size, _ => VX);
    var n := Min(msb, lsb + 63) - lsb;
    var p := if n == 31 then lsb + 32 else lsb + n - 31;
    assert p < size && bits[p] == VX;
    NarrowWriteBit(bits, msb, lsb, 0, p);
    SliceSetAt(bits, msb, lsb, 0, p);
    assert NarrowWrite(bits, msb, lsb, 0)[p] != SliceSet(bits, msb, lsb, 0)[p];
  }

  /** Exactly when the setter with the 32-bit literal keeps its promise. */
  lemma NarrowWriteExactIff(size: nat, msb: nat, lsb: nat)
    requires lsb <= msb
    ensures NarrowIsEnough(size, msb, lsb) <==>
      forall bits: seq<Logic>, value: nat | |bits| == size ::
        NarrowWrite(bits, msb, lsb, value) == SliceSet(bits, msb, lsb, value)
  {
    hide NarrowWrite, NarrowIsEnough;
    if NarrowIsEnough(size, msb, lsb) {
      forall bits: seq<Logic>, value: nat | |bits| == size
        ensures NarrowWrite(bits, msb, lsb, value) == SliceSet(bits, msb, lsb, value)
      {
        NarrowEnough(bits, msb, lsb, value);
      }
    } else {
      NarrowNotEnough(size, msb, lsb);
    }
  }

  lemma SliceSetAt(bits: seq<Logic>, msb: nat, lsb: nat, value: nat, p: nat)
    ensures Shown(SliceSet(bits, msb, lsb, value), p) ==
      if p < |bits| && lsb <= p <= Min(msb, lsb + 63) then FromBool(Bit(value, p - lsb)) else Shown(bits, p)
  {
  }

  /** Reading back a slice of the net just written gives the value, truncated to the slice. */
  lemma GetAfterSet(bits: seq<Logic>, msb: nat, lsb: nat, value: nat)
    requires lsb <= msb <= lsb + 63 && msb < |bits|
    ensures SliceGet(SliceSet(bits, msb, lsb, value), msb, lsb) == value % Pow2(msb - lsb + 1)
  {
    hide Bit, SliceGet, Low;
    var w := msb - lsb + 1;
    var r := SliceSet(bits, msb, lsb, value);
    SliceGetBit(r, msb, lsb, 0);
    forall k: nat | k < w ensures Bit(SliceGet(r, msb, lsb), k) == Bit(Low(value, w), k) {
      SliceGetBit(r, msb, lsb, k);
      SliceSetAt(bits, msb, lsb, value, lsb + k);
      BitLow(value, w, k);
    }
    SameBits(SliceGet(r, msb, lsb), Low(value, w), w);
    LowIsMod(value, w);
  }

  /** A write does not show in a slice it does not overlap. */
  lemma DisjointSliceUnchanged(bits: seq<Logic>, msb: nat, lsb: nat, value: nat, msb2: nat, lsb2: nat)
    requires lsb <= msb && lsb2 <= msb2 && (msb < lsb2 || msb2 < lsb)
    ensures SliceGet(SliceSet(bits, msb, lsb, value), msb2, lsb2) == SliceGet(bits, msb2, lsb2)
  {
    hide Bit, SliceGet;
    var r, w := SliceSet(bits, msb, lsb, value), msb2 - lsb2 + 1;
    SliceGetBit(r, msb2, lsb2, 0);
    SliceGetBit(bits, msb2, lsb2, 0);
    forall k: nat | k < w ensures Bit(SliceGet(r, msb2, lsb2), k) == Bit(SliceGet(bits, msb2, lsb2), k) {
      SliceGetBit(r, msb2, lsb2, k);
      SliceGetBit(bits, msb2, lsb2, k);
      SliceSetAt(bits, msb, lsb, value, lsb2 + k);
    }
    SameBits(SliceGet(r, msb2, lsb2), SliceGet(bits, msb2, lsb2), w);
  }

  /** Writes to disjoint slices can be done in either order. */
  lemma DisjointWritesCommute(bits: seq<Logic>, msb: nat, lsb: nat, value: nat, msb2: nat, lsb2: nat, value2: nat)
    requires msb < lsb2 || msb2 < lsb
    ensures SliceSet(SliceSet(bits, msb, lsb, value), msb2, lsb2, value2)
         == SliceSet(SliceSet(bits, msb2, lsb2, value2), msb, lsb, value)
  {
    hide Bit;
    var one := SliceSet(SliceSet(bits, msb, lsb, value), msb2, lsb2, value2);
    var two := SliceSet(SliceSet(bits, msb2, lsb2, value2), msb, lsb, value);
    forall p: nat | p < |bits| ensures one[p] == two[p] {
      SliceSetAt(bits, msb, lsb, value, p);
      SliceSetAt(bits, msb2, lsb2, value2, p);
      SliceSetAt(SliceSet(bits, msb, lsb, value), msb2, lsb2, value2, p);
      SliceSetAt(SliceSet(bits, msb2, lsb2, value2), msb, lsb, value, p);
    }
  }

  predicate AnyUnknown(bits: seq<Logic>, msb: nat, lsb: nat) {
    exists p: nat :: lsb <= p <= msb && p < |bits| && Bval(bits[p])
  }

  /** After an x or z write the slice is unknown, unless it lies beyond the net, and it reads as 0. */
  lemma UnknownAfterXz(bits: seq<Logic>, msb: nat, lsb: nat, x: bool)
    requires lsb <= msb
    ensures AnyUnknown(XzSet(bits, msb, lsb, x), msb, lsb) <==> lsb < |bits|
    ensures SliceGet(XzSet(bits, msb, lsb, x), msb, lsb) == 0
  {
    hide Bit, SliceGet;
    var r, w := XzSet(bits, msb, lsb, x), msb - lsb + 1;
    assert forall p: nat | p < |bits| :: r[p] == if lsb <= p <= msb then Unknown(x) else bits[p];
    if lsb < |bits| { assert Bval(r[lsb]); }
    SliceGetBit(r, msb, lsb, 0);
    if SliceGet(r, msb, lsb) != 0 {
      HasBit(SliceGet(r, msb, lsb), w);
      var k: nat :| k < w && Bit(SliceGet(r, msb, lsb), k);
      SliceGetBit(r, msb, lsb, k);
    }
  }

  /** The bits lsb..msb have become x or z, all others are as before. */
  predicate IsXzWrite(before: seq<Logic>, after: seq<Logic>, msb: nat, lsb: nat, x: bool) {
    && |after| == |before|
    && forall p: nat | p < |before| :: after[p] == if lsb <= p <= msb then if x then VX else VZ else before[p]
  }

  lemma XzSetWrites(bits: seq<Logic>, msb: nat, lsb: nat, x: bool)
    ensures IsXzWrite(bits, XzSet(bits, msb, lsb, x), msb, lsb, x)
  {
    var r := XzSet(bits, msb, lsb, x);
    assert forall p: nat | p < |bits| :: r[p] == if lsb <= p <= msb then Unknown(x) else bits[p];
  }

  /** The bits lsb..msb, but at most 64, have become the digits of the value, all others are as before. */
  predicate IsSliceWrite(before: seq<Logic>, after: seq<Logic>, msb: nat, lsb: nat, value: nat) {
    && |after| == |before|
    && forall p: nat | p < |before| :: after[p] ==
         if lsb <= p <= msb && p <= lsb + 63 then if value / Pow2(p - lsb) % 2 == 1 then V1 else V0 else before[p]
  }

  lemma SliceSetWrites(bits: seq<Logic>, msb: nat, lsb: nat, value: nat)
    ensures IsSliceWrite(bits, SliceSet(bits, msb, lsb, value), msb, lsb, value)
  {
    hide Bit, Pow2;
    forall p: nat | p < |bits|
      ensures SliceSet(bits, msb, lsb, value)[p] ==
        if lsb <= p <= msb && p <= lsb + 63 then if value / Pow2(p - lsb) % 2 == 1 then V1 else V0 else bits[p]
    {
      SliceSetAt(bits, msb, lsb, value, p);
      if lsb <= p { BitIsDigit(value, p - lsb); }
    }
  }

  /** The encoding of a bit in the words of a vector. */
  lemma Encoding(v: seq<Word>, p: nat)
    requires p / 32 < |v|
    ensures var a, b := Bit(v[p / 32].aval, p % 32), Bit(v[p / 32].bval, p % 32);
      && (At(v, p) == V0 <==> !a && !b) && (At(v, p) == V1 <==> a && !b)
      && (At(v, p) == VZ <==> !a && b) && (At(v, p) == VX <==> a && b)
  {
  }

  /** After a value write of at most 64 bits no bit of the slice is unknown. */
  lemma KnownAfterSet(bits: seq<Logic>, msb: nat, lsb: nat, value: nat)
    requires lsb <= msb <= lsb + 63
    ensures !AnyUnknown(SliceSet(bits, msb, lsb, value), msb, lsb)
  {
    forall p: nat | lsb <= p <= msb && p < |bits| ensures !Bval(SliceSet(bits, msb, lsb, value)[p]) {
      SliceSetAt(bits, msb, lsb, value, p);
    }
  }

  /** Setting a whole net of at most 64 bits is writing the slice of all its bits, except that a one-bit
      net does not take the low bit of the value but whether the value is nonzero. */
  lemma WholeSetIsSliceIff(bits: seq<Logic>, value: nat)
    requires 1 <= |bits| <= 64
    ensures WholeSet(|bits|, value) == SliceSet(bits, |bits| - 1, 0, value) <==>
      |bits| != 1 || value == 0 || value % 2 == 1
  {
    var size := |bits|;
    var s := SliceSet(bits, size - 1, 0, value);
    if size == 1 {
      assert s == [FromBool(Bit(value, 0))];
      assert WholeSet(1, value)[0] == FromBool(value != 0) && s[0] == FromBool(Bit(value, 0));
    } else {
      assert WholeSet(size, value) == s;
    }
  }

  /** A whole net of any size bit by bit: the value's 64 bits, and 0 above. */
  lemma WholeSetAt(size: nat, value: nat, p: nat)
    requires p < size && size != 1 && value < Pow2(64)
    ensures |WholeSet(size, value)| == size
    ensures WholeSet(size, value)[p] == if p < 64 && value / Pow2(p) % 2 == 1 then V1 else V0
  {
    hide Bit, Pow2;
    BitIsDigit(value, p);
    if p >= 64 { HighBitsZero(value, 64, p); }
  }

  /** Reading back a whole net just set, of more than one bit, gives the value modulo its size; a slice above
      bit 63 reads 0. */
  lemma GetAfterWholeSet(size: nat, value: nat, msb: nat, lsb: nat)
    requires size > 1 && value < Pow2(64) && 64 <= lsb <= msb
    ensures SliceGet(WholeSet(size, value), 63, 0) == value % Pow2(size)
    ensures SliceGet(WholeSet(size, value), msb, lsb) == 0
  {
    hide Bit, SliceGet, Low, Pow2;
    var r, w := WholeSet(size, value), if size < 64 then 64 else size;
    Pow2Monotone(64, w);
    Pow2Monotone(size, w);
    SliceGetBit(r, 63, 0, 0);
    forall k: nat | k < w ensures Bit(SliceGet(r, 63, 0), k) == Bit(Low(value, size), k) {
      SliceGetBit(r, 63, 0, k);
      BitLow(value, size, k);
      if k >= 64 { HighBitsZero(value, 64, k); }
    }
    SameBits(SliceGet(r, 63, 0), Low(value, size), w);
    LowIsMod(value, size);
    SliceGetBit(r, msb, lsb, 0);
    if SliceGet(r, msb, lsb) != 0 {
      HasBit(SliceGet(r, msb, lsb), msb - lsb + 1);
      var k: nat :| k < msb - lsb + 1 && Bit(SliceGet(r, msb, lsb), k);
      SliceGetBit(r, msb, lsb, k);
      HighBitsZero(value, 64, lsb + k);
    }
  }
}
