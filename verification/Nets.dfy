/** Four-state nets read and written through vectors of 32-bit aval/bval words, the encoding of
    s_vpi_vecval in section 38.15 of IEEE 1800-2017. */
module Nets {
  import opened Bits

  datatype Logic = V0 | V1 | VX | VZ

  datatype Word = Word(aval: nat, bval: nat)

  /** bval says whether the bit is unknown, aval then distinguishes x from z. */
  function LogicOf(a: bool, b: bool): Logic {
    if b then (if a then VX else VZ) else if a then V1 else V0
  }

  predicate Aval(l: Logic) { l == V1 || l == VX }

  predicate Bval(l: Logic) { l == VX || l == VZ }

  function FromBool(b: bool): Logic {
    if b then V1 else V0
  }

  predicate WordOk(w: Word) {
    w.aval < Pow2(32) && w.bval < Pow2(32)
  }

  function WordBit(w: Word, k: nat): Logic {
    LogicOf(Bit(w.aval, k), Bit(w.bval, k))
  }

  /** Number of words of a net of the given size. */
  function Words(size: nat): nat
    requires size >= 1
  {
    (size - 1) / 32 + 1
  }

  /** Bit p of a vector of words. */
  function At(v: seq<Word>, p: nat): Logic
    requires p / 32 < |v|
  {
    WordBit(v[p / 32], p % 32)
  }

  /** The bit a net of these bits shows at position p; padding bits read as 0. */
  function Shown(bits: seq<Logic>, p: nat): Logic {
    if p < |bits| then bits[p] else V0
  }

  function AvalBits(bits: seq<Logic>, j: nat): (r: seq<bool>)
    ensures |r| == 32
  {
    seq(32, k requires 0 <= k < 32 => Aval(Shown(bits, 32 * j + k)))
  }

  function BvalBits(bits: seq<Logic>, j: nat): (r: seq<bool>)
    ensures |r| == 32
  {
    seq(32, k requires 0 <= k < 32 => Bval(Shown(bits, 32 * j + k)))
  }

  /** Word j of a net as the simulator delivers it. */
  function WordOf(bits: seq<Logic>, j: nat): (w: Word)
    ensures WordOk(w)
  {
    Word(FromBits(AvalBits(bits, j)), FromBits(BvalBits(bits, j)))
  }

  lemma WordOfBit(bits: seq<Logic>, j: nat, k: nat)
    requires k < 32
    ensures WordBit(WordOf(bits, j), k) == Shown(bits, 32 * j + k)
  {
    BitOf(AvalBits(bits, j), k);
    BitOf(BvalBits(bits, j), k);
  }

  // ---------------------------------------------------------------------------------------------
  // Writing a slice of up to 64 bits

  /** How the shift of the literal 2 in the mask of `stimc_net_set_bits_uint64` is evaluated: as an int
      by two's complement hardware with shift counts modulo 32, or in 64 bits as in the getter. */
  datatype Literal = Int32 | Uint64

  /** The low n+1 bits. */
  function OnesUpTo(n: nat): nat {
    Pow2(n + 1) - 1
  }

  /** ((2 << n) - 1) converted to 64 bits; n is msb - lsb, at most 63. */
  function SliceMask(lit: Literal, n: nat): (r: nat)
    requires n <= 63
  {
    match lit
    case Uint64 => Sub(64, Low(ShiftLeft(2, n), 64), Low(1, 64))
    case Int32 =>
      var d := Sub(32, Low(ShiftLeft(2, n % 32), 32), Low(1, 32));
      Pow2Monotone(32, 64);
      if d < Pow2(31) then d else d + Pow2(64) - Pow2(32)   // sign extension
  }

  /** The part of a 64-bit mask or value that belongs to the i-th word touched. */
  function Part(m: nat, i: nat, s0: nat): (r: nat)
    requires i <= 2 && s0 < 32 && 32 * i - s0 < 64
  {
    if i == 0 then Shl(64, m, s0) else Shr(m, 32 * i - s0)
  }

  lemma PartBit(m: nat, i: nat, s0: nat, k: nat)
    requires m < Pow2(64) && i <= 2 && s0 < 32 && 32 * i - s0 < 64 && k < 32
    ensures Bit(Part(m, i, s0), k) == (s0 <= 32 * i + k && Bit(m, 32 * i + k - s0))
  {
    if i == 0 { BitShl(64, m, s0, k); } else { BitShr(m, 32 * i - s0, k); }
  }

  /** `aval &= ~mask; aval |= val; bval &= ~mask`, the words being stored back in 32 bits. */
  function Store(w: Word, mask: nat, val: nat): (r: Word)
    ensures WordOk(r)
  {
    var a := Low(And(64, w.aval, Not(64, mask)), 32);
    Word(Low(Or(64, a, val), 32), Low(And(64, w.bval, Not(64, mask)), 32))
  }

  lemma StoreBit(w: Word, mask: nat, val: nat, k: nat)
    requires k < 32 && (Bit(val, k) ==> Bit(mask, k))
    ensures WordBit(Store(w, mask, val), k) == if Bit(mask, k) then FromBool(Bit(val, k)) else WordBit(w, k)
  {
    var a := Low(And(64, w.aval, Not(64, mask)), 32);
    BitLow(And(64, w.aval, Not(64, mask)), 32, k);
    BitAnd(64, w.aval, Not(64, mask), k);
    BitNot(64, mask, k);
    BitLow(Or(64, a, val), 32, k);
    BitOr(64, a, val, k);
    BitLow(And(64, w.bval, Not(64, mask)), 32, k);
    BitAnd(64, w.bval, Not(64, mask), k);
  }

  /** The effect of a slice write with a given mask: the words up to that of msb are touched. */
  function Written(bits: seq<Logic>, msb: nat, lsb: nat, mask: nat, value: nat): (r: seq<Logic>)
    ensures |r| == |bits|
  {
    seq(|bits|, p requires 0 <= p < |bits| =>
      if lsb <= p && p / 32 <= msb / 32 && Bit(mask, p - lsb) then FromBool(Bit(value, p - lsb)) else bits[p])
  }

  function Min(a: nat, b: nat): nat {
    if a < b then a else b
  }

  /** The promise: bits lsb..msb, but at most 64, become those of the value; all others stay. */
  function SliceSet(bits: seq<Logic>, msb: nat, lsb: nat, value: nat): (r: seq<Logic>)
    ensures |r| == |bits|
  {
    seq(|bits|, p requires 0 <= p < |bits| =>
      if lsb <= p <= Min(msb, lsb + 63) then FromBool(Bit(value, p - lsb)) else bits[p])
  }

  // ---------------------------------------------------------------------------------------------
  // X/Z slices of any length

  /** The 32-bit wrap-around mask of word j for the slice lsb..msb. */
  function XzMask(j: nat, msb: nat, lsb: nat): (r: nat)
    ensures r < Pow2(32)
  {
    var m := if j == msb / 32 then Low(ShiftLeft(2, msb % 32), 32) else Low(0, 32);
    Sub(32, m, Low(ShiftLeft(1, if j == lsb / 32 then lsb % 32 else 0), 32))
  }

  lemma {:induction false} LowOfPow2(h: nat, w: nat)
    requires h <= w
    ensures Low(Pow2(h), w) == if h == w then 0 else Pow2(h)
  {
    if w == 0 {
    } else if h < w {
      Pow2Monotone(h, w);
      LowIsSame(Pow2(h), w);
    } else {
      assert Pow2(w) / 2 == Pow2(w - 1);
      LowOfPow2(w - 1, w - 1);
    }
  }

  /** In word j the mask covers exactly the bits of the slice. */
  lemma XzMaskBit(j: nat, msb: nat, lsb: nat, k: nat)
    requires lsb <= msb && lsb / 32 <= j <= msb / 32 && k < 32
    ensures Bit(XzMask(j, msb, lsb), k) == (lsb <= 32 * j + k <= msb)
  {
    hide Pow2, Low, Bit, ShiftLeft, Sub;
    var hi := if j == msb / 32 then msb % 32 + 1 else 32;
    var lo := if j == lsb / 32 then lsb % 32 else 0;
    ShiftedOne(msb % 32);
    ShiftedOne(lo);
    LowOfPow2(hi, 32);
    LowZero(32);
    MaskRun(32, hi, lo, k);
  }

  lemma {:induction false} LowZero(w: nat)
    ensures Low(0, w) == 0
  {
    if w == 0 {
    } else {
      LowZero(w - 1);
    }
  }

  /** The wrap-around difference of two truncated powers of two. */
  lemma MaskRun(w: nat, hi: nat, lo: nat, k: nat)
    requires lo < hi <= w && k < w
    ensures Bit(Sub(w, Low(Pow2(hi), w), Low(Pow2(lo), w)), k) == (lo <= k < hi)
    ensures hi == w ==> Low(Pow2(hi), w) == 0
  {
    LowOfPow2(hi, w);
    LowOfPow2(lo, w);
    Pow2Monotone(lo, hi);
    BitRun(hi, lo, k);
  }

  /** `aval` and `bval` of a word whose masked bits become x or z. */
  function StoreXz(w: Word, mask: nat, x: bool): (r: Word)
    ensures WordOk(r)
  {
    Word(if x then Or(32, w.aval, mask) else And(32, w.aval, Not(32, mask)), Or(32, w.bval, mask))
  }

  lemma StoreXzBit(w: Word, mask: nat, x: bool, k: nat)
    requires k < 32
    ensures WordBit(StoreXz(w, mask, x), k) == if Bit(mask, k) then Unknown(x) else WordBit(w, k)
  {
    BitOr(32, w.aval, mask, k);
    BitOr(32, w.bval, mask, k);
    BitNot(32, mask, k);
    BitAnd(32, w.aval, Not(32, mask), k);
  }

  function Unknown(x: bool): Logic {
    if x then VX else VZ
  }

  /** The promise: exactly the bits lsb..msb become unknown. */
  function XzSet(bits: seq<Logic>, msb: nat, lsb: nat, x: bool): (r: seq<Logic>)
    ensures |r| == |bits|
  {
    seq(|bits|, p requires 0 <= p < |bits| => if lsb <= p <= msb then Unknown(x) else bits[p])
  }

  // ---------------------------------------------------------------------------------------------
  // Reading

  /** The value a slice reads as: unknown bits and bits beyond the net are 0. */
  function SliceGet(bits: seq<Logic>, msb: nat, lsb: nat): nat
    requires lsb <= msb
  {
    FromBits(seq(msb - lsb + 1, k requires 0 <= k <= msb - lsb => Shown(bits, lsb + k) == V1))
  }

  lemma SliceGetBit(bits: seq<Logic>, msb: nat, lsb: nat, k: nat)
    requires lsb <= msb
    ensures Bit(SliceGet(bits, msb, lsb), k) == (k <= msb - lsb && Shown(bits, lsb + k) == V1)
    ensures SliceGet(bits, msb, lsb) < Pow2(msb - lsb + 1)
  {
    BitOf(seq(msb - lsb + 1, k requires 0 <= k <= msb - lsb => Shown(bits, lsb + k) == V1), k);
  }

  /** The i-th word's contribution to a 64-bit result: known ones only, moved into place. */
  function Gather(w: Word, i: nat, s0: nat): (r: nat)
    requires i <= 2 && s0 < 32 && 32 * i - s0 < 64
  {
    var ones := And(64, w.aval, Not(64, w.bval));
    if i == 0 then Shr(ones, s0) else Shl(64, ones, 32 * i - s0)
  }

  lemma GatherBit(w: Word, i: nat, s0: nat, k: nat)
    requires WordOk(w) && i <= 2 && s0 < 32 && 32 * i - s0 < 64 && k < 64
    ensures Bit(Gather(w, i, s0), k) ==
      (32 * i <= k + s0 < 32 * i + 32 && WordBit(w, (k + s0) % 32) == V1)
  {
    hide Pow2, And, Not, Shl, Shr;
    var ones := And(64, w.aval, Not(64, w.bval));
    var q: int := k + s0 - 32 * i;
    if i == 0 { BitShr(ones, s0, k); } else { BitShl(64, ones, 32 * i - s0, k); }
    if q >= 0 {
      BitAnd(64, w.aval, Not(64, w.bval), q);
      BitNot(64, w.bval, q);
      if q >= 32 { HighBitsZero(w.aval, 32, q); } else { assert (k + s0) % 32 == q; }
    }
  }

  /** A whole-net write: a one-bit net becomes 1 for every nonzero value. */
  function WholeSet(size: nat, value: nat): seq<Logic> {
    if size == 1 then [FromBool(value != 0)] else seq(size, p requires 0 <= p < size => FromBool(Bit(value, p)))
  }

  /** The words of an all-x or all-z vector: 0xffffffff in bval, and in aval for x. */
  function AllUnknown(x: bool): Word {
    Word(if x then Not(32, 0) else 0, Not(32, 0))
  }

  lemma AllUnknownBit(x: bool, k: nat)
    requires k < 32
    ensures WordBit(AllUnknown(x), k) == Unknown(x)
  {
    BitNot(32, 0, k);
    BitZero(k);
  }

  /** `(value >> (32 * i)) & 0xffffffff` for the first two words, 0 for the others. */
  function ValueWord(value: nat, i: nat): Word {
    if i < 2 then Word(And(64, Shr(value, 32 * i), Not(32, 0)), 0) else Word(0, 0)
  }

  lemma ValueWordBit(value: nat, p: nat)
    requires value < Pow2(64)
    ensures WordBit(ValueWord(value, p / 32), p % 32) == FromBool(Bit(value, p))
  {
    hide Pow2, And, Not, Shr, Bit;
    BitZero(p % 32);
    if p < 64 {
      BitAnd(64, Shr(value, 32 * (p / 32)), Not(32, 0), p % 32);
      BitNot(32, 0, p % 32);
      BitShr(value, 32 * (p / 32), p % 32);
      assert 32 * (p / 32) + p % 32 == p;
    } else {
      HighBitsZero(value, 64, p);
    }
  }

  class Net {
    var bits: seq<Logic>

    constructor (init: seq<Logic>)
      requires init != []
      ensures bits == init
    {
      bits := init;
    }

    /** vpi_get_value with vpiVectorVal */
    method GetVector() returns (v: array<Word>)
      requires bits != []
      ensures fresh(v) && v.Length == Words(|bits|)
      ensures forall p: nat | p / 32 < v.Length :: At(v[..], p) == Shown(bits, p)
      ensures forall j | 0 <= j < v.Length :: WordOk(v[j])
    {
      var n := Words(|bits|);
      var shown := bits;
      v := new Word[n](j => WordOf(shown, j));
      forall p: nat | p / 32 < v.Length ensures At(v[..], p) == Shown(bits, p) {
        WordOfBit(bits, p / 32, p % 32);
        assert v[..][p / 32] == WordOf(bits, p / 32);
      }
    }

    /** vpi_put_value with vpiVectorVal: bits beyond the size of the net are ignored. */
    method PutVector(v: array<Word>)
      requires bits != [] && v.Length == Words(|bits|)
      modifies `bits
      ensures |bits| == old(|bits|)
      ensures forall p: nat | p < |bits| :: bits[p] == At(v[..], p)
    {
      var w, n := v[..], |bits|;
      bits := seq(n, p requires 0 <= p < n => At(w, p));
    }

    /** The word loop of `stimc_net_set_bits_uint64`. */
    method WriteWords(v: array<Word>, msb: nat, lsb: nat, mask: nat, value: nat)
      requires lsb <= msb <= lsb + 63 && mask < Pow2(64)
      modifies v
      ensures WrittenUpTo(v[..], old(v[..]), msb / 32 + 1, lsb, mask, value)
    {
      hide WrittenUpTo, Pow2, Bit, And;
      ghost var v0 := v[..];
      var jstart, s0, jstop := lsb / 32, lsb % 32, msb / 32;
      var val := And(64, value, mask);
      var i, j := 0, jstart;
      NothingWritten(v0, lsb, mask, value);
      while j < v.Length && j <= jstop && i < 3
        invariant j == jstart + i && i <= 3 && j <= jstop + 1
        invariant WrittenUpTo(v[..], v0, j, lsb, mask, value)
      {
        // a third word is only reached when the slice does not start at a word boundary
        assert 32 * i - s0 < 64;
        WriteStep(v[..], v0, i, lsb, mask, value);
        v[j] := Store(v[j], Part(mask, i, s0), Part(val, i, s0));
        i, j := i + 1, j + 1;
      }
      AllWritten(v[..], v0, j, jstop + 1, lsb, mask, value);
    }

    /** The words below j of a vector that was v0 have been processed. */
    static ghost predicate WrittenUpTo(v: seq<Word>, v0: seq<Word>, j: nat, lsb: nat, mask: nat, value: nat) {
      |v| == |v0| && forall p: nat | p / 32 < |v| :: At(v, p) == WriteAt(v0, j, lsb, mask, value, p)
    }

    static function WriteAt(v0: seq<Word>, j: nat, lsb: nat, mask: nat, value: nat, p: nat): Logic
      requires p / 32 < |v0|
    {
      if lsb <= p && p / 32 < j && Bit(mask, p - lsb) then FromBool(Bit(value, p - lsb)) else At(v0, p)
    }

    static lemma NothingWritten(v0: seq<Word>, lsb: nat, mask: nat, value: nat)
      ensures WrittenUpTo(v0, v0, lsb / 32, lsb, mask, value)
    {
    }

    /** The loop stops at the end of the vector or past the last word of the slice. */
    static lemma AllWritten(v: seq<Word>, v0: seq<Word>, j: nat, end: nat, lsb: nat, mask: nat, value: nat)
      requires WrittenUpTo(v, v0, j, lsb, mask, value) && (j == end || |v| <= j)
      requires j <= end
      ensures WrittenUpTo(v, v0, end, lsb, mask, value)
    {
    }

    static lemma WriteStep(v: seq<Word>, v0: seq<Word>, i: nat, lsb: nat, mask: nat, value: nat)
      requires var j, s0 := lsb / 32 + i, lsb % 32;
        j < |v| && i <= 2 && 32 * i - s0 < 64 && mask < Pow2(64) && WrittenUpTo(v, v0, j, lsb, mask, value)
      ensures var j, s0 := lsb / 32 + i, lsb % 32;
        WrittenUpTo(v[j := Store(v[j], Part(mask, i, s0), Part(And(64, value, mask), i, s0))],
                    v0, j + 1, lsb, mask, value)
    {
      var j, s0 := lsb / 32 + i, lsb % 32;
      var w := Store(v[j], Part(mask, i, s0), Part(And(64, value, mask), i, s0));
      forall p: nat | p / 32 < |v| ensures At(v[j := w], p) == WriteAt(v0, j + 1, lsb, mask, value, p) {
        assert At(v, p) == WriteAt(v0, j, lsb, mask, value, p);
        if p / 32 == j {
          PartOfSlice(mask, value, i, s0, p % 32);
          StoreBit(v[j], Part(mask, i, s0), Part(And(64, value, mask), i, s0), p % 32);
          assert p - lsb == 32 * i + p % 32 - s0;
        }
      }
    }

    static lemma PartOfSlice(mask: nat, value: nat, i: nat, s0: nat, k: nat)
      requires mask < Pow2(64) && i <= 2 && s0 < 32 && 32 * i - s0 < 64 && k < 32
      ensures Bit(Part(mask, i, s0), k) == (s0 <= 32 * i + k && Bit(mask, 32 * i + k - s0))
      ensures Bit(Part(And(64, value, mask), i, s0), k)
           == (Bit(Part(mask, i, s0), k) && Bit(value, 32 * i + k - s0))
    {
      PartBit(mask, i, s0, k);
      PartBit(And(64, value, mask), i, s0, k);
      if s0 <= 32 * i + k {
        BitAnd(64, value, mask, 32 * i + k - s0);
        if 32 * i + k - s0 >= 64 { HighBitsZero(mask, 64, 32 * i + k - s0); }
      }
    }

    /** `stimc_net_set_bits_uint64`; `lit` tells how the mask's literal is shifted. */
    method SetBitsUint64(msb: nat, lsb: nat, value: nat, lit: Literal)
      requires bits != [] && value < Pow2(64)
      modifies `bits
      ensures bits == if msb < lsb then old(bits)
                      else var m := Min(msb, lsb + 63); Written(old(bits), m, lsb, SliceMask(lit, m - lsb), value)
    {
      hide At, WrittenUpTo, SliceMask, Pow2, Shown;
      if msb < lsb { return; }
      var v := GetVector();
      ghost var v0 := v[..];
      var m := msb;
      if msb - lsb > 63 { m := lsb + 63; }
      SliceMaskRange(lit, m - lsb);
      WriteWords(v, m, lsb, SliceMask(lit, m - lsb), value);
      PutVector(v);
      SliceWritten(old(bits), v0, v[..], m, lsb, SliceMask(lit, m - lsb), value);
      assert bits == Written(old(bits), m, lsb, SliceMask(lit, m - lsb), value);
    }

    static lemma SliceWritten(bits0: seq<Logic>, v0: seq<Word>, v: seq<Word>, msb: nat, lsb: nat, mask: nat, value: nat)
      requires bits0 != [] && |v0| == Words(|bits0|) && WrittenUpTo(v, v0, msb / 32 + 1, lsb, mask, value)
      requires forall p: nat | p / 32 < |v0| :: At(v0, p) == Shown(bits0, p)
      ensures forall p: nat | p < |bits0| :: p / 32 < |v| && At(v, p) == Written(bits0, msb, lsb, mask, value)[p]
    {
    }

    /** The word loop of `stimc_net_set_bits_xz`. */
    method FillWords(v: array<Word>, msb: nat, lsb: nat, x: bool)
      requires lsb <= msb
      modifies v
      ensures FilledUpTo(v[..], old(v[..]), msb / 32 + 1, msb, lsb, x)
    {
      hide FilledUpTo;
      ghost var v0 := v[..];
      var j, jstop := lsb / 32, msb / 32;
      NothingFilled(v0, msb, lsb, x);
      while j < v.Length && j <= jstop
        invariant lsb / 32 <= j <= jstop + 1
        invariant FilledUpTo(v[..], v0, j, msb, lsb, x)
      {
        FillStep(v[..], v0, j, msb, lsb, x);
        v[j] := StoreXz(v[j], XzMask(j, msb, lsb), x);
        j := j + 1;
      }
      AllFilled(v[..], v0, j, msb, lsb, x);
    }

    static ghost predicate FilledUpTo(v: seq<Word>, v0: seq<Word>, j: nat, msb: nat, lsb: nat, x: bool) {
      |v| == |v0| && forall p: nat | p / 32 < |v| :: At(v, p) == FillAt(v0, j, msb, lsb, x, p)
    }

    static function FillAt(v0: seq<Word>, j: nat, msb: nat, lsb: nat, x: bool, p: nat): Logic
      requires p / 32 < |v0|
    {
      if lsb <= p <= msb && p / 32 < j then Unknown(x) else At(v0, p)
    }

    static lemma NothingFilled(v0: seq<Word>, msb: nat, lsb: nat, x: bool)
      ensures FilledUpTo(v0, v0, lsb / 32, msb, lsb, x)
    {
    }

    static lemma AllFilled(v: seq<Word>, v0: seq<Word>, j: nat, msb: nat, lsb: nat, x: bool)
      requires FilledUpTo(v, v0, j, msb, lsb, x) && j <= msb / 32 + 1 && (j == msb / 32 + 1 || |v| <= j)
      ensures FilledUpTo(v, v0, msb / 32 + 1, msb, lsb, x)
    {
    }

    static lemma FillStep(v: seq<Word>, v0: seq<Word>, j: nat, msb: nat, lsb: nat, x: bool)
      requires lsb <= msb && lsb / 32 <= j <= msb / 32 && j < |v| && FilledUpTo(v, v0, j, msb, lsb, x)
      ensures FilledUpTo(v[j := StoreXz(v[j], XzMask(j, msb, lsb), x)], v0, j + 1, msb, lsb, x)
    {
      hide StoreXz, XzMask, Bit;
      var w := StoreXz(v[j], XzMask(j, msb, lsb), x);
      forall p: nat | p / 32 < |v|
        ensures At(v[j := w], p) == FillAt(v0, j + 1, msb, lsb, x, p)
      {
        assert At(v, p) == FillAt(v0, j, msb, lsb, x, p);
        if p / 32 == j {
          assert 32 * j + p % 32 == p;
          XzMaskBit(j, msb, lsb, p % 32);
          StoreXzBit(v[j], XzMask(j, msb, lsb), x, p % 32);
        }
      }
      assert FilledUpTo(v[j := w], v0, j + 1, msb, lsb, x);
    }

    /** `stimc_net_set_bits_x` and `stimc_net_set_bits_z` */
    method SetBitsXz(msb: nat, lsb: nat, x: bool)
      requires bits != []
      modifies `bits
      ensures bits == XzSet(old(bits), msb, lsb, x) && |bits| == |old(bits)|
      ensures forall p: nat | p < |bits| ::
        bits[p] == if lsb <= p <= msb then if x then VX else VZ else old(bits)[p]
    {
      if msb < lsb {
        assert bits == XzSet(bits, msb, lsb, x);
        return;
      }
      var v := GetVector();
      FillWords(v, msb, lsb, x);
      PutVector(v);
      assert bits == XzSet(old(bits), msb, lsb, x);
    }

    /** `stimc_net_bits_are_xz` */
    method BitsAreXz(msb: nat, lsb: nat) returns (r: bool)
      requires bits != []
      ensures r <==> exists p: nat :: lsb <= p <= msb && p < |bits| && Bval(bits[p])
    {
      if msb < lsb { return false; }
      var v := GetVector();
      var j, jstop := lsb / 32, msb / 32;
      while j < v.Length && j <= jstop
        invariant lsb / 32 <= j <= jstop + 1
        invariant forall p: nat | lsb <= p <= msb && p / 32 < j && p < |bits| :: !Bval(bits[p])
        invariant forall p: nat | p / 32 < v.Length :: At(v[..], p) == Shown(bits, p)
      {
        var m := And(32, v[j].bval, XzMask(j, msb, lsb));
        MaskedWord(v[..], bits, j, msb, lsb);
        if m != 0 { return true; }
        j := j + 1;
      }
      forall p: nat | lsb <= p <= msb && p < |bits| ensures !Bval(bits[p]) {
        assert p / 32 < v.Length;
      }
      return false;
    }

    static lemma MaskedBit(v: seq<Word>, bits: seq<Logic>, j: nat, msb: nat, lsb: nat, k: nat)
      requires lsb <= msb && lsb / 32 <= j <= msb / 32 && j < |v| && k < 32
      requires At(v, 32 * j + k) == Shown(bits, 32 * j + k)
      ensures Bit(And(32, v[j].bval, XzMask(j, msb, lsb)), k) <==>
        lsb <= 32 * j + k <= msb && 32 * j + k < |bits| && Bval(bits[32 * j + k])
    {
      hide And, XzMask, Pow2;
      BitAnd(32, v[j].bval, XzMask(j, msb, lsb), k);
      XzMaskBit(j, msb, lsb, k);
      assert (32 * j + k) / 32 == j && (32 * j + k) % 32 == k;
    }

    /** The masked bval word is nonzero iff some bit of the slice in this word is unknown. */
    static lemma MaskedWord(v: seq<Word>, bits: seq<Logic>, j: nat, msb: nat, lsb: nat)
      requires lsb <= msb && lsb / 32 <= j <= msb / 32 && j < |v|
      requires forall p: nat | p / 32 < |v| :: At(v, p) == Shown(bits, p)
      ensures And(32, v[j].bval, XzMask(j, msb, lsb)) != 0 <==>
        exists p: nat :: lsb <= p <= msb && p / 32 == j && p < |bits| && Bval(bits[p])
    {
      hide And, XzMask, Pow2, Bit, At, Shown, Bval;
      var m := And(32, v[j].bval, XzMask(j, msb, lsb));
      NonZero(m, 32);
      if m != 0 {
        var k: nat :| k < 32 && Bit(m, k);
        MaskedBit(v, bits, j, msb, lsb, k);
        assert Bval(bits[32 * j + k]) && (32 * j + k) / 32 == j;
      }
      if exists p: nat :: lsb <= p <= msb && p / 32 == j && p < |bits| && Bval(bits[p]) {
        var p: nat :| lsb <= p <= msb && p / 32 == j && p < |bits| && Bval(bits[p]);
        assert 32 * j + p % 32 == p;
        MaskedBit(v, bits, j, msb, lsb, p % 32);
      }
    }

    /** The word loop of `stimc_net_get_bits_uint64`. */
    static method GatherWords(v: array<Word>, msb: nat, lsb: nat) returns (r: nat)
      requires lsb <= msb <= lsb + 63 && forall j | 0 <= j < v.Length :: WordOk(v[j])
      ensures r < Pow2(64)
      ensures forall k: nat | k < 64 :: Bit(r, k) == GatheredBit(v[..], msb / 32 + 1, lsb, k)
    {
      hide Pow2, GatheredBit, Gather, Or, At, Bit;
      var jstart, s0, jstop := lsb / 32, lsb % 32, msb / 32;
      var i, j := 0, jstart;
      r := FromBits([]);
      NothingGathered(v[..], lsb);
      while j < v.Length && j <= jstop && i < 3
        invariant j == jstart + i && i <= 3 && j <= jstop + 1 && r < Pow2(64)
        invariant forall k: nat | k < 64 :: Bit(r, k) == GatheredBit(v[..], j, lsb, k)
      {
        assert 32 * i - s0 < 64;
        GatherStep(v[..], r, i, lsb);
        r := Or(64, r, Gather(v[j], i, s0));
        i, j := i + 1, j + 1;
      }
      GatheredAll(v[..], j, jstop + 1, lsb);
    }

    /** Bit lsb+k, if it is a known one in a word below j. */
    static predicate GatheredBit(v: seq<Word>, j: nat, lsb: nat, k: nat) {
      (lsb + k) / 32 < j && (lsb + k) / 32 < |v| && At(v, lsb + k) == V1
    }

    static lemma NothingGathered(v: seq<Word>, lsb: nat)
      ensures FromBits([]) < Pow2(64)
      ensures forall k: nat | k < 64 :: Bit(FromBits([]), k) == GatheredBit(v, lsb / 32, lsb, k)
    {
      forall k: nat | k < 64 ensures Bit(FromBits([]), k) == GatheredBit(v, lsb / 32, lsb, k) {
        BitOf([], k);
      }
    }

    static lemma GatheredAll(v: seq<Word>, j: nat, end: nat, lsb: nat)
      requires j <= end && (j == end || |v| <= j)
      ensures forall k: nat | k < 64 :: GatheredBit(v, j, lsb, k) == GatheredBit(v, end, lsb, k)
    {
    }

    static lemma GatherStep(v: seq<Word>, r: nat, i: nat, lsb: nat)
      requires var j, s0 := lsb / 32 + i, lsb % 32;
        j < |v| && WordOk(v[j]) && i <= 2 && 32 * i - s0 < 64
        && forall k: nat | k < 64 :: Bit(r, k) == GatheredBit(v, j, lsb, k)
      ensures var j, s0 := lsb / 32 + i, lsb % 32;
        forall k: nat | k < 64 :: Bit(Or(64, r, Gather(v[j], i, s0)), k) == GatheredBit(v, j + 1, lsb, k)
    {
      hide Pow2, Gather, Or, Bit;
      var j, s0 := lsb / 32 + i, lsb % 32;
      forall k: nat | k < 64
        ensures Bit(Or(64, r, Gather(v[j], i, s0)), k) == GatheredBit(v, j + 1, lsb, k)
      {
        BitOr(64, r, Gather(v[j], i, s0), k);
        GatherBit(v[j], i, s0, k);
        assert lsb + k == 32 * (lsb / 32) + s0 + k;
        assert (lsb + k) / 32 == j <==> 32 * i <= k + s0 < 32 * i + 32;
        assert (lsb + k) % 32 == (k + s0) % 32;
      }
    }

    /** `stimc_net_get_bits_uint64`; C defines its shifts for slices of 1 to 64 bits. */
    method GetBitsUint64(msb: nat, lsb: nat) returns (r: nat)
      requires bits != [] && lsb <= msb <= lsb + 63
      ensures r == SliceGet(bits, msb, lsb)
    {
      hide Pow2, GatheredBit, SliceMask, SliceGet, At, Shown;
      var v := GetVector();
      var g := GatherWords(v, msb, lsb);
      r := And(64, g, SliceMask(Uint64, msb - lsb));
      GatheredIsSlice(bits, v[..], g, msb, lsb);
    }

    static lemma GatheredIsSlice(bits: seq<Logic>, v: seq<Word>, g: nat, msb: nat, lsb: nat)
      requires bits != [] && lsb <= msb <= lsb + 63 && |v| == Words(|bits|)
      requires forall p: nat | p / 32 < |v| :: At(v, p) == Shown(bits, p)
      requires forall k: nat | k < 64 :: Bit(g, k) == GatheredBit(v, msb / 32 + 1, lsb, k)
      ensures And(64, g, SliceMask(Uint64, msb - lsb)) == SliceGet(bits, msb, lsb)
    {
      hide Pow2, And, SliceMask, SliceGet, At, Bit;
      var n := msb - lsb;
      var r := And(64, g, SliceMask(Uint64, n));
      SliceGetBit(bits, msb, lsb, 0);
      Pow2Monotone(n + 1, 64);
      forall k: nat | k < 64 ensures Bit(r, k) == Bit(SliceGet(bits, msb, lsb), k) {
        BitAnd(64, g, SliceMask(Uint64, n), k);
        WideMaskBit(n, k);
        SliceGetBit(bits, msb, lsb, k);
        if k <= n && (lsb + k) / 32 < |v| { assert At(v, lsb + k) == Shown(bits, lsb + k); }
      }
      SameBits(r, SliceGet(bits, msb, lsb), 64);
    }

    /** `stimc_net_set_x` and `stimc_net_set_z` */
    method SetXz(x: bool)
      requires bits != []
      modifies `bits
      ensures bits == XzSet(old(bits), |old(bits)| - 1, 0, x) && |bits| == |old(bits)|
      ensures forall p: nat | p < |bits| :: bits[p] == if x then VX else VZ
    {
      hide Pow2, Bit, Not, LogicOf, WordBit;
      var n := |bits|;
      if n == 1 {
        bits := [Unknown(x)];
      } else {
        var vec := new Word[Words(n)](_ => AllUnknown(x));
        forall p: nat | p / 32 < vec.Length ensures At(vec[..], p) == Unknown(x) {
          AllUnknownBit(x, p % 32);
        }
        PutVector(vec);
      }
      assert bits == XzSet(old(bits), n - 1, 0, x);
    }

    /** `stimc_net_set_uint64` */
    method SetUint64(value: nat)
      requires bits != [] && value < Pow2(64)
      modifies `bits
      ensures bits == WholeSet(|old(bits)|, value) && |bits| == |old(bits)|
      ensures if |bits| == 1 then bits == [if value == 0 then V0 else V1]
              else forall p: nat | p < |bits| :: bits[p] == if Bit(value, p) then V1 else V0
    {
      hide Pow2, Bit, And, ValueWord;
      var n := |bits|;
      if n == 1 {
        bits := [FromBool(value != 0)];
      } else {
        var vec := new Word[Words(n)](_ => Word(0, 0));
        var i := 0;
        while i < vec.Length && i < 2
          invariant i <= 2 && bits == old(bits)
          invariant forall j | 0 <= j < vec.Length :: vec[j] == if j < i then ValueWord(value, j) else Word(0, 0)
        {
          vec[i] := ValueWord(value, i);
          i := i + 1;
        }
        forall p: nat | p / 32 < vec.Length ensures At(vec[..], p) == FromBool(Bit(value, p)) {
          ValueWordBit(value, p);
          HighWord(value, p / 32);
        }
        PutVector(vec);
        assert bits == WholeSet(n, value);
      }
    }

    static lemma HighWord(value: nat, j: nat)
      ensures j >= 2 ==> ValueWord(value, j) == Word(0, 0)
    {
    }

    /** `stimc_net_is_xz`: whole words are looked at, so the unused bits of the last one matter. */
    method IsXz() returns (r: bool)
      requires bits != []
      ensures r <==> exists p: nat :: p < |bits| && Bval(bits[p])
    {
      if |bits| == 1 { return Bval(bits[0]); }
      var v := GetVector();
      var i := 0;
      while i < v.Length
        invariant i <= v.Length
        invariant forall p: nat | p / 32 < i && p < |bits| :: !Bval(bits[p])
        invariant forall p: nat | p / 32 < v.Length :: At(v[..], p) == Shown(bits, p)
        invariant forall j | 0 <= j < v.Length :: WordOk(v[j])
      {
        UnknownWord(v[..], bits, i);
        if v[i].bval != 0 { return true; }
        i := i + 1;
      }
      return false;
    }

    /** The bval word is nonzero iff some bit of the net in this word is unknown: unused bits read as 0. */
    static lemma UnknownWord(v: seq<Word>, bits: seq<Logic>, j: nat)
      requires j < |v| && WordOk(v[j]) && forall p: nat | p / 32 < |v| :: At(v, p) == Shown(bits, p)
      ensures v[j].bval != 0 <==> exists p: nat :: p / 32 == j && p < |bits| && Bval(bits[p])
    {
      hide Bit, Pow2;
      NonZero(v[j].bval, 32);
      if v[j].bval != 0 {
        var k: nat :| k < 32 && Bit(v[j].bval, k);
        var p := 32 * j + k;
        assert p / 32 == j && p % 32 == k && Bval(At(v, p));
        assert p < |bits| && Bval(bits[p]);
      }
      if exists p: nat :: p / 32 == j && p < |bits| && Bval(bits[p]) {
        var p: nat :| p / 32 == j && p < |bits| && Bval(bits[p]);
        BitZero(p % 32);
        assert Bval(At(v, p)) && Bit(v[j].bval, p % 32);
      }
    }

    /** `stimc_net_get_uint64` */
    method GetUint64() returns (r: nat)
      requires bits != []
      ensures r == SliceGet(bits, 63, 0)
    {
      hide Pow2, GatheredBit, SliceMask, SliceGet, At, Shown;
      var v := GetVector();
      r := GatherWords(v, 63, 0);
      GatheredIsAll(bits, v[..], r);
    }

    static lemma GatheredIsAll(bits: seq<Logic>, v: seq<Word>, g: nat)
      requires bits != [] && |v| == Words(|bits|) && g < Pow2(64)
      requires forall p: nat | p / 32 < |v| :: At(v, p) == Shown(bits, p)
      requires forall k: nat | k < 64 :: Bit(g, k) == GatheredBit(v, 63 / 32 + 1, 0, k)
      ensures g == SliceGet(bits, 63, 0)
    {
      hide Pow2, SliceGet, At, Bit;
      SliceGetBit(bits, 63, 0, 0);
      forall k: nat | k < 64 ensures Bit(g, k) == Bit(SliceGet(bits, 63, 0), k) {
        SliceGetBit(bits, 63, 0, k);
        if k / 32 < |v| { assert At(v, k) == Shown(bits, k); }
      }
      SameBits(g, SliceGet(bits, 63, 0), 64);
    }
  }

  /** All masks fit in 64 bits. */
  lemma SliceMaskRange(lit: Literal, n: nat)
    requires n <= 63
    ensures SliceMask(lit, n) < Pow2(64)
  {
    hide Low, ShiftLeft, Sub, Pow2;
    Pow2Monotone(32, 64);
  }

  lemma WideMask(n: nat)
    requires n <= 63
    ensures SliceMask(Uint64, n) == OnesUpTo(n)
  {
    hide Pow2, Low, ShiftLeft;
    ShiftedOne(n);
    LowOfPow2(n + 1, 64);
    LowOne(64);
    Pow2Monotone(n + 1, 64);
  }

  lemma LowOne(w: nat)
    requires w >= 1
    ensures Low(1, w) == 1
  {
    LowZero(w - 1);
  }

  lemma OnesBit(n: nat, k: nat)
    ensures Bit(OnesUpTo(n), k) == (k <= n)
  {
    BitRun(n + 1, 0, k);
  }

  lemma WideMaskBit(n: nat, k: nat)
    requires n <= 63
    ensures Bit(SliceMask(Uint64, n), k) == (k <= n)
  {
    WideMask(n);
    OnesBit(n, k);
  }
}
