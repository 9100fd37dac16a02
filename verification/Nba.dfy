/** Non-blocking assignments: setter calls are queued and replayed at the simulator's read-write
    synchronisation, following the intent of section 10.4.2 of IEEE 1800-2017. */
module Nba {
  import opened Bits
  import opened Nets
  import opened SliceLaws
  import opened Buffers

  /** A queued setter call. Slice bounds are stored in 16 bits. */
  datatype Entry =
    | ZAll
    | XAll
    | Int32All(value: nat)   // the number, converted to uint64_t
    | Uint64All(value: nat)
    | ZBits(msb: nat, lsb: nat)
    | XBits(msb: nat, lsb: nat)
    | ValBits(msb: nat, lsb: nat, value: nat)

  const LIMIT := 0x1_0000

  predicate IsInt32(n: int) {
    -0x8000_0000 <= n < 0x8000_0000
  }

  /** The conversion of an int32_t to uint64_t, in which the queue stores it. */
  function ToUint64(n: int): (r: nat)
    requires IsInt32(n)
  {
    if n < 0 then n + 0x1_0000_0000_0000_0000 else n
  }

  /** The conversion back: the low 32 bits as two's complement. */
  function ToInt32(v: nat): (r: int)
    ensures IsInt32(r)
    ensures forall n: int | IsInt32(n) && v == ToUint64(n) :: r == n
  {
    var low := v % 0x1_0000_0000;
    if low < 0x8000_0000 then low else low - 0x1_0000_0000
  }

  predicate EntryOk(e: Entry) {
    match e
    case Uint64All(value) => value < Pow2(64)
    case ZBits(msb, lsb) => msb < LIMIT && lsb < LIMIT
    case XBits(msb, lsb) => msb < LIMIT && lsb < LIMIT
    case ValBits(msb, lsb, value) => msb < LIMIT && lsb < LIMIT && value < Pow2(64)
    case _ => true
  }

  /** The effect of the blocking setter a queued call stands for. `putInt` is the simulator's
      conversion of a 32-bit integer to the net's bits. */
  function Apply(bits: seq<Logic>, e: Entry, lit: Literal, putInt: (nat, int) -> seq<Logic>): (r: seq<Logic>)
    ensures |r| == |bits|
  {
    match e
    case ZAll => XzSet(bits, if bits == [] then 0 else |bits| - 1, 0, false)
    case XAll => XzSet(bits, if bits == [] then 0 else |bits| - 1, 0, true)
    case Int32All(value) =>
      var r := putInt(|bits|, ToInt32(value));
      if |r| == |bits| then r else bits
    case Uint64All(value) => if bits == [] then bits else WholeSet(|bits|, value)
    case ZBits(msb, lsb) => XzSet(bits, msb, lsb, false)
    case XBits(msb, lsb) => XzSet(bits, msb, lsb, true)
    case ValBits(msb, lsb, value) =>
      if msb < lsb then bits
      else var m := Min(msb, lsb + 63); Written(bits, m, lsb, SliceMask(lit, m - lsb), value)
  }

  /** Program order: the setters one after the other. */
  function ApplyAll(bits: seq<Logic>, es: seq<Entry>, lit: Literal, putInt: (nat, int) -> seq<Logic>): (r: seq<Logic>)
    ensures |r| == |bits|
  {
    if es == [] then bits
    else Apply(ApplyAll(bits, es[..|es| - 1], lit, putInt), es[|es| - 1], lit, putInt)
  }

  /** Replaying two batches is replaying their concatenation. */
  lemma {:induction false} ApplyAllConcat(bits: seq<Logic>, xs: seq<Entry>, ys: seq<Entry>,
                                          lit: Literal, putInt: (nat, int) -> seq<Logic>)
    ensures ApplyAll(bits, xs + ys, lit, putInt) == ApplyAll(ApplyAll(bits, xs, lit, putInt), ys, lit, putInt)
    decreases |ys|
  {
    hide Apply;
    if ys == [] {
      assert xs + ys == xs;
    } else {
      var m := |ys| - 1;
      ApplyAllConcat(bits, xs, ys[..m], lit, putInt);
      assert (xs + ys)[..|xs| + m] == xs + ys[..m];
    }
  }

  // What each setter leaves behind when it is replayed after the entries es, bit by bit.

  lemma AppliedLast(bits: seq<Logic>, es: seq<Entry>, e: Entry, lit: Literal, putInt: (nat, int) -> seq<Logic>)
    ensures ApplyAll(bits, es + [e], lit, putInt) == Apply(ApplyAll(bits, es, lit, putInt), e, lit, putInt)
  {
    assert (es + [e])[..|es|] == es;
  }

  lemma ApplyNext(bits: seq<Logic>, all: seq<Entry>, more: seq<Entry>, i: nat, lit: Literal,
                  putInt: (nat, int) -> seq<Logic>)
    requires i < |all|
    ensures ApplyAll(bits, (all + more)[..i + 1], lit, putInt)
         == Apply(ApplyAll(bits, all[..i], lit, putInt), all[i], lit, putInt)
  {
    assert (all + more)[..i + 1] == all[..i] + [all[i]];
    AppliedLast(bits, all[..i], all[i], lit, putInt);
  }

  /** `stimc_net_set_x_nonblock` and `stimc_net_set_z_nonblock` */
  lemma DeferredXz(bits: seq<Logic>, es: seq<Entry>, x: bool, lit: Literal, putInt: (nat, int) -> seq<Logic>)
    ensures var r := ApplyAll(bits, es + [if x then XAll else ZAll], lit, putInt);
      forall p: nat | p < |bits| :: r[p] == if x then VX else VZ
  {
    AppliedLast(bits, es, if x then XAll else ZAll, lit, putInt);
    if bits != [] { XzSetWrites(ApplyAll(bits, es, lit, putInt), |bits| - 1, 0, x); }
  }

  lemma ApplyXz(bits: seq<Logic>, msb: nat, lsb: nat, x: bool, lit: Literal, putInt: (nat, int) -> seq<Logic>)
    ensures Apply(bits, if x then XBits(msb, lsb) else ZBits(msb, lsb), lit, putInt) == XzSet(bits, msb, lsb, x)
  {
  }

  /** `stimc_net_set_bits_x_nonblock` and `stimc_net_set_bits_z_nonblock` */
  lemma DeferredBitsXz(bits: seq<Logic>, es: seq<Entry>, msb: nat, lsb: nat, x: bool, lit: Literal,
                       putInt: (nat, int) -> seq<Logic>)
    ensures var m, l := msb % 0x1_0000, lsb % 0x1_0000;
      var after := ApplyAll(bits, es + [if x then XBits(m, l) else ZBits(m, l)], lit, putInt);
      IsXzWrite(ApplyAll(bits, es, lit, putInt), after, m, l, x)
  {
    hide Apply, ApplyAll, XzSet, IsXzWrite;
    var before, m, l := ApplyAll(bits, es, lit, putInt), msb % 0x1_0000, lsb % 0x1_0000;
    AppliedLast(bits, es, if x then XBits(m, l) else ZBits(m, l), lit, putInt);
    ApplyXz(before, m, l, x, lit, putInt);
    XzSetWrites(before, m, l, x);
  }

  /** `stimc_net_set_uint64_nonblock` */
  lemma DeferredUint64(bits: seq<Logic>, es: seq<Entry>, value: nat, lit: Literal,
                       putInt: (nat, int) -> seq<Logic>)
    requires value < Pow2(64)
    ensures var r := ApplyAll(bits, es + [Uint64All(value)], lit, putInt);
      if |bits| == 1 then r == [if value == 0 then V0 else V1]
      else forall p: nat | p < |bits| :: r[p] == if p < 64 && value / Pow2(p) % 2 == 1 then V1 else V0
  {
    hide Pow2;
    AppliedLast(bits, es, Uint64All(value), lit, putInt);
    if |bits| != 1 {
      forall p: nat | p < |bits|
        ensures ApplyAll(bits, es + [Uint64All(value)], lit, putInt)[p]
             == if p < 64 && value / Pow2(p) % 2 == 1 then V1 else V0
      {
        WholeSetAt(|bits|, value, p);
      }
    }
  }

  /** `stimc_net_set_int32_nonblock`: the simulator is given the number itself. */
  lemma DeferredInt32(bits: seq<Logic>, es: seq<Entry>, number: int, lit: Literal, putInt: (nat, int) -> seq<Logic>)
    requires IsInt32(number) && |putInt(|bits|, number)| == |bits|
    ensures ApplyAll(bits, es + [Int32All(ToUint64(number))], lit, putInt) == putInt(|bits|, number)
  {
    AppliedLast(bits, es, Int32All(ToUint64(number)), lit, putInt);
  }

  /** `stimc_net_set_bits_uint64_nonblock`, where the mask of the setter is as wide as it has to be. */
  lemma DeferredBits(bits: seq<Logic>, es: seq<Entry>, msb: nat, lsb: nat, value: nat, lit: Literal,
                     putInt: (nat, int) -> seq<Logic>)
    requires var m, l := msb % 0x1_0000, lsb % 0x1_0000; l <= m && lit == Int32 ==> NarrowIsEnough(|bits|, m, l)
    ensures var m, l := msb % 0x1_0000, lsb % 0x1_0000;
      var after := ApplyAll(bits, es + [ValBits(m, l, value)], lit, putInt);
      IsSliceWrite(ApplyAll(bits, es, lit, putInt), after, m, l, value)
  {
    hide Written, SliceMask, Pow2, NarrowIsEnough;
    var before, m, l := ApplyAll(bits, es, lit, putInt), msb % 0x1_0000, lsb % 0x1_0000;
    AppliedLast(bits, es, ValBits(m, l, value), lit, putInt);
    if l <= m {
      if lit == Int32 { NarrowEnough(before, m, l, value); } else { WideWriteIsExact(before, m, l, value); }
      SliceSetWrites(before, m, l, value);
    }
  }

  /** The bits an entry may change. */
  predicate Touches(e: Entry, p: nat) {
    match e
    case ZBits(msb, lsb) => lsb <= p <= msb
    case XBits(msb, lsb) => lsb <= p <= msb
    case ValBits(msb, lsb, _) => lsb <= msb && lsb <= p <= lsb + 63
    case _ => true
  }

  lemma NotTouched(bits: seq<Logic>, e: Entry, lit: Literal, putInt: (nat, int) -> seq<Logic>, p: nat)
    requires p < |bits| && !Touches(e, p)
    ensures Apply(bits, e, lit, putInt)[p] == bits[p]
  {
    hide SliceMask;
    match e
    case ValBits(msb, lsb, value) =>
      if lsb <= msb && lsb <= p {
        var m := Min(msb, lsb + 63);
        SliceMaskRange(lit, m - lsb);
        HighBitsZero(SliceMask(lit, m - lsb), 64, p - lsb);
      }
    case _ =>
  }

  /** The last write wins: what an entry leaves in a bit stays there until a later one reaches the bit. */
  lemma {:induction false} LastWriteStays(bits: seq<Logic>, xs: seq<Entry>, ys: seq<Entry>, lit: Literal,
                                          putInt: (nat, int) -> seq<Logic>, p: nat)
    requires p < |bits| && forall y | y in ys :: !Touches(y, p)
    ensures ApplyAll(bits, xs + ys, lit, putInt)[p] == ApplyAll(bits, xs, lit, putInt)[p]
    decreases |ys|
  {
    hide Apply, Touches;
    if ys == [] {
      assert xs + ys == xs;
    } else {
      var m := |ys| - 1;
      LastWriteStays(bits, xs, ys[..m], lit, putInt, p);
      assert xs + ys == (xs + ys[..m]) + [ys[m]];
      AppliedLast(bits, xs + ys[..m], ys[m], lit, putInt);
      NotTouched(ApplyAll(bits, xs + ys[..m], lit, putInt), ys[m], lit, putInt, p);
    }
  }

  class NbaNet {
    const net: Net
    const lit: Literal
    const putInt: (nat, int) -> seq<Logic>
    const queue: Buffer<Entry>
    var callback: bool        // nba->cb_handle != NULL
    ghost var registered: int // synchronisation callbacks the simulator holds for this net

    ghost predicate Valid()
      reads this, net, queue, queue.data
    {
      && queue.Valid() && net.bits != []
      && (forall e | e in queue.Contents() :: EntryOk(e))
      && (callback <==> queue.num > 0)
      && registered == (if callback then 1 else 0)
    }

    constructor (net: Net, lit: Literal, putInt: (nat, int) -> seq<Logic>)
      requires net.bits != []
      ensures Valid() && this.net == net && this.lit == lit && this.putInt == putInt
      ensures queue.Contents() == [] && fresh(queue) && fresh(queue.data)
    {
      this.net, this.lit, this.putInt := net, lit, putInt;
      queue := new Buffer<Entry>();
      callback := false;
      registered := 0;
    }

    /** `stimc_net_nba_queue_append`: the first entry registers the callback, later ones rely on it. */
    method Append(e: Entry)
      requires Pending() && EntryOk(e)
      modifies this, queue, queue.data
      ensures Pending() && queue.Contents() == old(queue.Contents()) + [e]
      ensures callback && registered == old(registered) + (if old(callback) then 0 else 1)
      ensures queue.data == old(queue.data) || fresh(queue.data)
    {
      var _ := queue.Append(e, 4);
      if callback { return; }
      callback := true;
      registered := registered + 1;
    }

    /** The queue in the middle of a replay: not empty, but its callback is still held. */
    ghost predicate Pending()
      reads this, net, queue, queue.data
    {
      && queue.Valid() && net.bits != []
      && (forall e | e in queue.Contents() :: EntryOk(e))
      && (queue.num > 0 ==> callback)
      && registered == (if callback then 1 else 0)
    }

    /** What the net will be when the entries queued so far have been replayed. */
    ghost function Eventually(): (r: seq<Logic>)
      reads this, net, queue, queue.data
      requires queue.Valid()
      ensures |r| == |net.bits|
    {
      ApplyAll(net.bits, queue.Contents(), lit, putInt)
    }

    /** `stimc_net_set_bits_uint64_nonblock` */
    method SetBitsUint64Nonblock(msb: nat, lsb: nat, value: nat)
      requires Valid() && value < Pow2(64)
      modifies this, queue, queue.data
      ensures Valid() && queue.Contents() == old(queue.Contents()) + [ValBits(msb % LIMIT, lsb % LIMIT, value)]
      ensures var m, l := msb % 0x1_0000, lsb % 0x1_0000;
        (l <= m && lit == Int32 ==> NarrowIsEnough(|net.bits|, m, l)) ==>
          IsSliceWrite(old(Eventually()), Eventually(), m, l, value)
    {
      hide Pow2, Apply, NarrowIsEnough;
      Append(ValBits(msb % LIMIT, lsb % LIMIT, value));
      if msb % LIMIT < lsb % LIMIT || lit == Uint64 || NarrowIsEnough(|net.bits|, msb % LIMIT, lsb % LIMIT) {
        DeferredBits(net.bits, old(queue.Contents()), msb, lsb, value, lit, putInt);
      }
    }

    /** `stimc_net_set_bits_x_nonblock` and `stimc_net_set_bits_z_nonblock` */
    method SetBitsXzNonblock(msb: nat, lsb: nat, x: bool)
      requires Valid()
      modifies this, queue, queue.data
      ensures Valid()
      ensures queue.Contents() == old(queue.Contents())
        + [if x then XBits(msb % LIMIT, lsb % LIMIT) else ZBits(msb % LIMIT, lsb % LIMIT)]
      ensures IsXzWrite(old(Eventually()), Eventually(), msb % 0x1_0000, lsb % 0x1_0000, x)
    {
      hide Apply;
      var m, l := msb % LIMIT, lsb % LIMIT;
      var e := if x then XBits(m, l) else ZBits(m, l);
      Append(e);
      DeferredBitsXz(net.bits, old(queue.Contents()), msb, lsb, x, lit, putInt);
    }

    /** `stimc_net_set_x_nonblock` and `stimc_net_set_z_nonblock` */
    method SetXzNonblock(x: bool)
      requires Valid()
      modifies this, queue, queue.data
      ensures Valid() && queue.Contents() == old(queue.Contents()) + [if x then XAll else ZAll]
      ensures var r := Eventually(); forall p: nat | p < |net.bits| :: r[p] == if x then VX else VZ
    {
      hide Apply;
      var e := if x then XAll else ZAll;
      Append(e);
      assert Eventually() == ApplyAll(net.bits, old(queue.Contents()) + [e], lit, putInt);
      DeferredXz(net.bits, old(queue.Contents()), x, lit, putInt);
    }

    /** `stimc_net_set_uint64_nonblock` */
    method SetUint64Nonblock(value: nat)
      requires Valid() && value < Pow2(64)
      modifies this, queue, queue.data
      ensures Valid() && queue.Contents() == old(queue.Contents()) + [Uint64All(value)]
      ensures var r := Eventually();
        if |net.bits| == 1 then r == [if value == 0 then V0 else V1]
        else forall p: nat | p < |net.bits| :: r[p] == if p < 64 && value / Pow2(p) % 2 == 1 then V1 else V0
    {
      hide Pow2, Apply;
      Append(Uint64All(value));
      DeferredUint64(net.bits, old(queue.Contents()), value, lit, putInt);
    }

    /** `stimc_net_set_int32_nonblock` */
    method SetInt32Nonblock(number: int)
      requires Valid() && IsInt32(number)
      modifies this, queue, queue.data
      ensures Valid() && queue.Contents() == old(queue.Contents()) + [Int32All(ToUint64(number))]
      ensures |putInt(|net.bits|, number)| == |net.bits| ==> Eventually() == putInt(|net.bits|, number)
    {
      hide Apply;
      Append(Int32All(ToUint64(number)));
      if |putInt(|net.bits|, number)| == |net.bits| {
        DeferredInt32(net.bits, old(queue.Contents()), number, lit, putInt);
      }
    }

    /** One replayed entry: the blocking setter is called. */
    method Execute(e: Entry)
      requires net.bits != [] && EntryOk(e)
      modifies net`bits
      ensures net.bits == Apply(old(net.bits), e, lit, putInt)
    {
      hide Pow2, Written, XzSet, WholeSet, SliceMask, ToInt32;
      match e
      case ZAll => net.SetXz(false);
      case XAll => net.SetXz(true);
      case Int32All(value) =>
        var r := putInt(|net.bits|, ToInt32(value));
        if |r| == |net.bits| { net.bits := r; }
      case Uint64All(value) => net.SetUint64(value);
      case ZBits(msb, lsb) => net.SetBitsXz(msb, lsb, false);
      case XBits(msb, lsb) => net.SetBitsXz(msb, lsb, true);
      case ValBits(msb, lsb, value) => net.SetBitsUint64(msb, lsb, value, lit);
    }

    /** What a setter triggers queues further entries, at most as many as the limit says. */
    method SideEffects(limit: nat) returns (left: nat, ghost added: seq<Entry>)
      requires Pending() && callback
      modifies this, queue, queue.data
      ensures Pending() && callback && left + |added| == limit
      ensures queue.Contents() == old(queue.Contents()) + added
      ensures queue.data == old(queue.data) || fresh(queue.data)
    {
      left, added := limit, [];
      var more: bool := *;
      while more && left > 0
        invariant Pending() && callback && left + |added| == limit
        invariant queue.Contents() == old(queue.Contents()) + added
        invariant queue.data == old(queue.data) || fresh(queue.data)
        decreases left, more
      {
        var e: Entry := *;
        if !Acceptable(e) { break; }
        Append(e);
        added := added + [e];
        left := left - 1;
        more := *;
      }
    }

    /** Entry i is replayed, with what it triggers. */
    method ReplayNext(i: nat, limit: nat) returns (left: nat, ghost added: seq<Entry>)
      requires Pending() && callback && i < queue.num
      modifies this, net`bits, queue, queue.data
      ensures Pending() && callback && left + |added| == limit
      ensures queue.Contents() == old(queue.Contents()) + added
      ensures net.bits == Apply(old(net.bits), old(queue.Contents())[i], lit, putInt)
      ensures queue.data == old(queue.data) || fresh(queue.data)
    {
      hide Pow2, Apply, EntryOk;
      Execute(queue.data[i]);
      left, added := SideEffects(limit);
    }

    /** `stimc_net_nba_callback_wrapper`. A setter can have side effects that queue further entries for
        the same net, any number of them; they are replayed in the same go. */
    method Replay() returns (ghost added: seq<Entry>)
      requires Valid() && callback
      modifies this, net`bits, queue, queue.data
      ensures Valid() && !callback && queue.num == 0
      ensures net.bits == ApplyAll(old(net.bits), old(queue.Contents()) + added, lit, putInt)
      ensures net.bits == ApplyAll(old(Eventually()), added, lit, putInt)
      ensures queue.data == old(queue.data) || fresh(queue.data)
    {
      hide Pow2, Apply, EntryOk;
      var sideEffects: nat := *;
      added := [];
      var i := 0;
      while i < queue.num
        invariant Pending() && callback && i <= queue.num
        invariant queue.Contents() == old(queue.Contents()) + added
        invariant net.bits == ApplyAll(old(net.bits), queue.Contents()[..i], lit, putInt)
        invariant queue.data == old(queue.data) || fresh(queue.data)
        decreases sideEffects + queue.num - i
      {
        ghost var all, more := queue.Contents(), [];
        sideEffects, more := ReplayNext(i, sideEffects);
        ApplyNext(old(net.bits), all, more, i, lit, putInt);
        added := added + more;
        i := i + 1;
      }
      assert queue.Contents()[..i] == queue.Contents();
      ApplyAllConcat(old(net.bits), old(queue.Contents()), added, lit, putInt);
      callback := false;
      registered := registered - 1;
      queue.Clear();
    }

    predicate Acceptable(e: Entry)
      ensures Acceptable(e) ==> EntryOk(e)
    {
      EntryOk(e)
    }
  }

  /** When a slice survives being stored in 16 bits, for a net of the given size: the bounds fit; or
      only the upper one does not, and what is left of it still reaches the end of the net; or both the
      slice and what is left of it miss the net. */
  predicate BoundsSurvive(size: nat, msb: nat, lsb: nat) {
    || (msb < LIMIT && lsb < LIMIT)
    || (lsb < LIMIT <= msb && (lsb >= size || msb % LIMIT + 1 >= size))
    || (lsb >= LIMIT && (msb < lsb || lsb >= size) && (msb % LIMIT < lsb % LIMIT || lsb % LIMIT >= size))
  }

  lemma XzBoundsSurvive(bits: seq<Logic>, msb: nat, lsb: nat, x: bool)
    requires BoundsSurvive(|bits|, msb, lsb)
    ensures XzSet(bits, msb % LIMIT, lsb % LIMIT, x) == XzSet(bits, msb, lsb, x)
  {
  }

  /** Outside that condition, writing into an all-0 net shows the difference. */
  lemma XzBoundsLost(size: nat, msb: nat, lsb: nat, x: bool)
    requires !BoundsSurvive(size, msb, lsb)
    ensures var bits := seq(size, _ => V0);
      XzSet(bits, msb % LIMIT, lsb % LIMIT, x) != XzSet(bits, msb, lsb, x)
  {
    var bits := seq(size, _ => V0);
    var m, l := msb % LIMIT, lsb % LIMIT;
    var p := if lsb < LIMIT then Min(size - 1, msb) else if lsb <= msb && lsb < size then lsb else l;
    assert (lsb <= p <= msb) != (l <= p <= m);
    XzSetWrites(bits, m, l, x);
    XzSetWrites(bits, msb, lsb, x);
    assert XzSet(bits, m, l, x)[p] != XzSet(bits, msb, lsb, x)[p];
  }

  /** A deferred x or z write does what the immediate one does, on every net of the size, exactly then. */
  lemma DeferredXzIsFaithfulIff(size: nat, msb: nat, lsb: nat, x: bool)
    ensures BoundsSurvive(size, msb, lsb) <==>
      forall bits: seq<Logic> | |bits| == size ::
        XzSet(bits, msb % LIMIT, lsb % LIMIT, x) == XzSet(bits, msb, lsb, x)
  {
    hide XzSet, BoundsSurvive;
    if BoundsSurvive(size, msb, lsb) {
      forall bits: seq<Logic> | |bits| == size
        ensures XzSet(bits, msb % LIMIT, lsb % LIMIT, x) == XzSet(bits, msb, lsb, x)
      {
        XzBoundsSurvive(bits, msb, lsb, x);
      }
    } else {
      XzBoundsLost(size, msb, lsb, x);
    }
  }

  /** The same for a slice of values, of which the setter takes at most 64 bits: then it does not matter
      either what becomes of an upper bound that stays far enough up. */
  predicate ValueBoundsSurvive(size: nat, msb: nat, lsb: nat) {
    || (msb < LIMIT && lsb < LIMIT)
    || (lsb < LIMIT <= msb && (lsb >= size || msb % LIMIT + 1 >= size || msb % LIMIT >= lsb + 63))
    || (lsb >= LIMIT && (msb < lsb || lsb >= size) && (msb % LIMIT < lsb % LIMIT || lsb % LIMIT >= size))
  }

  /** The bits a slice write reaches. */
  predicate Covers(msb: nat, lsb: nat, p: nat) {
    lsb <= p <= Min(msb, lsb + 63)
  }

  /** Two slice writes of the same value agree if they reach the same bits of the net, aligned alike. */
  lemma SameCover(bits: seq<Logic>, msb: nat, lsb: nat, msb2: nat, lsb2: nat, value: nat)
    requires forall p: nat | p < |bits| :: Covers(msb, lsb, p) == Covers(msb2, lsb2, p)
    requires lsb != lsb2 ==> forall p: nat | p < |bits| :: !Covers(msb, lsb, p)
    ensures SliceSet(bits, msb, lsb, value) == SliceSet(bits, msb2, lsb2, value)
  {
    hide Bit;
    var a, b := SliceSet(bits, msb, lsb, value), SliceSet(bits, msb2, lsb2, value);
    forall p: nat | p < |bits| ensures a[p] == b[p] {
      assert Covers(msb, lsb, p) == Covers(msb2, lsb2, p);
      SliceSetAt(bits, msb, lsb, value, p);
      SliceSetAt(bits, msb2, lsb2, value, p);
    }
  }

  /** Writing 0 into an all-x net shows which bits were written. */
  lemma CoverShows(bits: seq<Logic>, msb: nat, lsb: nat, p: nat)
    requires p < |bits| && bits[p] == VX
    ensures Shown(SliceSet(bits, msb, lsb, 0), p) == VX <==> !Covers(msb, lsb, p)
  {
    SliceSetAt(bits, msb, lsb, 0, p);
  }

  /** A deferred value write does what is promised of the immediate one exactly then. */
  lemma DeferredWriteIsFaithfulIff(size: nat, msb: nat, lsb: nat)
    ensures ValueBoundsSurvive(size, msb, lsb) <==>
      forall bits: seq<Logic>, value: nat | |bits| == size ::
        SliceSet(bits, msb % LIMIT, lsb % LIMIT, value) == SliceSet(bits, msb, lsb, value)
  {
    hide SliceSet;
    var m, l := msb % LIMIT, lsb % LIMIT;
    if ValueBoundsSurvive(size, msb, lsb) {
      forall bits: seq<Logic>, value: nat | |bits| == size
        ensures SliceSet(bits, m, l, value) == SliceSet(bits, msb, lsb, value)
      {
        SameCover(bits, m, l, msb, lsb, value);
      }
    } else {
      var bits := seq(size, _ => VX);
      var p := if lsb < LIMIT then Min(size - 1, Min(msb, lsb + 63)) else if l < size && l <= m then l else lsb;
      assert Covers(msb, lsb, p) != Covers(m, l, p);
      CoverShows(bits, m, l, p);
      CoverShows(bits, msb, lsb, p);
    }
  }
}
