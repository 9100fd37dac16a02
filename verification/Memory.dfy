/** The kernel's memory as a value, and what the trigger and free loops do to it slot by slot. */
module Memory {
  import opened Objects
  import opened Handles
  import opened WaitSpec

  datatype Data = Data(handles: seq<Handle>, any: bool, timer: bool, timeout: bool,
                       state: ThreadState, resumeOnFinish: bool, cleanups: seq<nat>)

  const NEW_DATA := Data([], true, false, false, Created, false, [])

  datatype Mem = Mem(td: map<Thread, Data>, slots: map<Event, seq<Thread?>>)

  ghost function ViewOf(d: Data): View {
    View(Awaited(d.handles), d.any, d.timer, d.timeout, d.state, d.resumeOnFinish, d.cleanups)
  }

  ghost function Views(td: map<Thread, Data>): map<Thread, View> {
    map t | t in td :: ViewOf(td[t])
  }

  /** Every handle points at a slot holding its thread, and no handle is listed twice. */
  ghost predicate ThreadSide(m: Mem, t: Thread)
    requires t in m.td
  {
    && Distinct(m.td[t].handles)
    && forall h | h in m.td[t].handles ::
         h.event in m.slots && h.idx < |m.slots[h.event]| && m.slots[h.event][h.idx] == t
  }

  /** Every occupied slot is pointed at by a handle of the live thread it holds. */
  ghost predicate EventSide(m: Mem, e: Event)
    requires e in m.slots
  {
    forall k :: 0 <= k < |m.slots[e]| && m.slots[e][k] != null ==>
      m.slots[e][k] in m.td && Handle(e, k) in m.td[m.slots[e][k]].handles
  }

  /** Thread t holds handle (e, i) iff slot i of event e holds t. */
  ghost predicate Coherent(m: Mem) {
    && (forall t | t in m.td :: ThreadSide(m, t))
    && (forall e | e in m.slots :: EventSide(m, e))
  }

  lemma CoherentPaired(m: Mem, t: Thread, e: Event)
    requires Coherent(m) && t in m.td && e in m.slots
    ensures Distinct(m.td[t].handles) && Paired(m.td[t].handles, m.slots[e], e, t)
    ensures Count(m.td[t].handles, e) == Occurs(m.slots[e], 0, t)
  {
    assert ThreadSide(m, t) && EventSide(m, e);
    PairedCount(m.td[t].handles, m.slots[e], e, t);
  }

  /** The slots after every slot named by a handle of hs is set to null. */
  function ClearSlots(slots: map<Event, seq<Thread?>>, hs: seq<Handle>): map<Event, seq<Thread?>> {
    map e | e in slots ::
      seq(|slots[e]|, k requires 0 <= k < |slots[e]| => if Handle(e, k) in hs then null else slots[e][k])
  }

  /** Thread t leaves every queue it is in. */
  function LeaveAll(m: Mem, t: Thread): Mem
    requires t in m.td
  {
    Mem(m.td[t := m.td[t].(handles := [])], ClearSlots(m.slots, m.td[t].handles))
  }

  /** A running timeout is removed, and is not the reason for the wake-up. */
  function Disarmed(m: Mem, t: Thread): Mem
    requires t in m.td
  {
    var d := m.td[t];
    m.(td := m.td[t := d.(timer := false, timeout := d.timeout && !d.timer)])
  }

  /** Handles and slots can be followed without leaving the memory. */
  ghost predicate Walkable(m: Mem, e: Event, i: nat) {
    && e in m.slots && i < |m.slots[e]| && (m.slots[e][i] != null ==> m.slots[e][i] in m.td)
    && forall t, h | t in m.td && h in m.td[t].handles :: h.event in m.slots && h.idx < |m.slots[h.event]|
  }

  /** Slot i of a triggered event e: the loop body of `stimc_trigger_event`. */
  function TriggerSlot(m: Mem, e: Event, i: nat): Mem
    requires e in m.slots && i < |m.slots[e]| && (m.slots[e][i] != null ==> m.slots[e][i] in m.td)
  {
    var t := m.slots[e][i];
    if t == null then m
    else
      var rest := RemoveFirst(m.td[t].handles, e);
      var n := m.(td := m.td[t := m.td[t].(handles := rest)]);
      if !n.td[t].any && rest != [] then n.(slots := n.slots[e := n.slots[e][i := null]])
      else Disarmed(LeaveAll(n, t), t)
  }

  /** Slot i of a disappearing event e: the loop body of `stimc_event_thread_queue_free`. */
  function FreeSlot(m: Mem, e: Event, i: nat): Mem
    requires e in m.slots && i < |m.slots[e]| && (m.slots[e][i] != null ==> m.slots[e][i] in m.td)
  {
    var t := m.slots[e][i];
    if t == null then m
    else
      var d := m.td[t];
      var rest := RemoveFirst(d.handles, e);
      m.(td := m.td[t := d.(handles := rest, timeout := d.timeout || (rest == [] && d.timer))])
  }

  // ---------------------------------------------------------------------------------------------
  // The trigger loop. m0 is the memory before the trigger of e, m the memory before slot i.

  ghost predicate SeenBefore(s: seq<Thread?>, t: Thread, i: nat)
    requires i <= |s|
  {
    exists k :: 0 <= k < i && s[k] == t
  }

  ghost predicate StillAhead(s: seq<Thread?>, t: Thread, i: nat)
    requires i <= |s|
  {
    exists k :: i <= k < |s| && s[k] == t
  }

  ghost predicate OnlyOf(hs: seq<Handle>, e: Event) {
    forall h | h in hs :: h.event == e
  }

  /** t is already woken when the slots below i are done. */
  ghost predicate Woken(m0: Mem, e: Event, i: nat, t: Thread)
    requires e in m0.slots && i <= |m0.slots[e]| && t in m0.td
  {
    && SeenBefore(m0.slots[e], t, i)
    && (m0.td[t].any || (OnlyOf(m0.td[t].handles, e) && !StillAhead(m0.slots[e], t, i)))
  }

  /** Exactly one slot holds t. */
  ghost predicate Once(s: seq<Thread?>, t: Thread) {
    exists p :: OnlyAt(s, t, p)
  }

  ghost predicate OnlyAt(s: seq<Thread?>, t: Thread, p: nat) {
    p < |s| && forall k :: 0 <= k < |s| ==> (s[k] == t <==> k == p)
  }

  /** Handles were removed, but only handles of event e. */
  ghost predicate SameElsewhere(hs: seq<Handle>, hs0: seq<Handle>, e: Event) {
    && (forall h | h in hs :: h in hs0)
    && (forall h | h in hs0 && h.event != e :: h in hs)
  }

  ghost predicate WokenData(d: Data, d0: Data) {
    d == d0.(handles := [], timer := false, timeout := d0.timeout && !d0.timer)
  }

  /** A thread not (yet) woken: as many handles of e as slots of it still ahead, and they stay put. */
  ghost predicate Pending(m0: Mem, m: Mem, e: Event, i: nat, t: Thread)
    requires Shape(m0, m, e, i) && t in m.td
  {
    var d, d0, s0 := m.td[t], m0.td[t], m0.slots[e];
    && d == d0.(handles := d.handles)
    && Distinct(d.handles)
    && SameElsewhere(d.handles, d0.handles, e)
    && Count(d.handles, e) == Occurs(s0, i, t)
    && (d.any ==> d.handles == d0.handles)
    && (forall k :: 0 <= k < |s0| ==> (m.slots[e][k] == t <==> i <= k && s0[k] == t))
  }

  ghost predicate Shape(m0: Mem, m: Mem, e: Event, i: nat) {
    && m.td.Keys == m0.td.Keys && m.slots.Keys == m0.slots.Keys
    && (forall x | x in m.slots :: |m.slots[x]| == |m0.slots[x]|)
    && e in m0.slots && i <= |m0.slots[e]|
    && (forall k :: 0 <= k < |m.slots[e]| ==> m.slots[e][k] == null || m.slots[e][k] == m0.slots[e][k])
    && (forall k :: 0 <= k < |m0.slots[e]| && m0.slots[e][k] != null ==> m0.slots[e][k] in m0.td)
  }

  ghost predicate ThreadInv(m0: Mem, m: Mem, e: Event, i: nat, t: Thread)
    requires Shape(m0, m, e, i) && t in m.td
  {
    if Woken(m0, e, i, t) then WokenData(m.td[t], m0.td[t]) && Once(m.slots[e], t)
    else Pending(m0, m, e, i, t)
  }

  /** In the other events exactly the slots of woken threads are emptied. */
  ghost predicate OtherSlots(m0: Mem, m: Mem, e: Event, i: nat, x: Event)
    requires Shape(m0, m, e, i) && x in m.slots
  {
    forall k :: 0 <= k < |m0.slots[x]| ==>
      var t := m0.slots[x][k];
      m.slots[x][k] == if t != null && t in m0.td && Woken(m0, e, i, t) then null else t
  }

  ghost predicate TriggerInv(m0: Mem, m: Mem, e: Event, i: nat) {
    && Shape(m0, m, e, i)
    && (forall t | t in m.td :: ThreadInv(m0, m, e, i, t))
    && (forall x | x in m.slots && x != e :: OtherSlots(m0, m, e, i, x))
  }

  lemma TriggerInvInit(m0: Mem, e: Event)
    requires Coherent(m0) && e in m0.slots
    ensures TriggerInv(m0, m0, e, 0)
  {
    assert EventSide(m0, e);
    forall t | t in m0.td ensures ThreadInv(m0, m0, e, 0, t) {
      CoherentPaired(m0, t, e);
    }
  }

  lemma WokenStep(m0: Mem, e: Event, i: nat, t: Thread)
    requires e in m0.slots && i < |m0.slots[e]| && t in m0.td && m0.slots[e][i] != t
    ensures Woken(m0, e, i + 1, t) == Woken(m0, e, i, t)
  {
  }

  lemma OnceKept(s: seq<Thread?>, r: seq<Thread?>, u: Thread)
    requires |s| == |r| && Once(s, u)
    requires forall k :: 0 <= k < |s| ==> (r[k] == u <==> s[k] == u)
    ensures Once(r, u)
  {
    var p :| OnlyAt(s, u, p);
    assert OnlyAt(r, u, p);
  }

  /** A thread that does not own slot i is not affected by processing it. */
  lemma UntouchedThread(m0: Mem, m: Mem, n: Mem, e: Event, i: nat, u: Thread)
    requires Shape(m0, m, e, i) && i < |m0.slots[e]| && Shape(m0, n, e, i + 1)
    requires u in m.td && m0.slots[e][i] != u && n.td[u] == m.td[u]
    requires ThreadInv(m0, m, e, i, u)
    requires forall k :: 0 <= k < |m.slots[e]| ==> (n.slots[e][k] == u <==> m.slots[e][k] == u)
    ensures ThreadInv(m0, n, e, i + 1, u)
  {
    WokenStep(m0, e, i, u);
    if Woken(m0, e, i, u) {
      OnceKept(m.slots[e], n.slots[e], u);
    } else {
      assert Pending(m0, n, e, i + 1, u);
    }
  }

  /** An ALL waiter that still has something to wait for after slot i. */
  lemma PartialStep(m0: Mem, m: Mem, e: Event, i: nat, t: Thread, rest: seq<Handle>)
    requires TriggerInv(m0, m, e, i) && i < |m0.slots[e]| && t in m.td
    requires m.slots[e][i] == t && !m.td[t].any && !Woken(m0, e, i, t)
    requires rest == RemoveFirst(m.td[t].handles, e) && rest != []
    ensures !Woken(m0, e, i + 1, t)
    ensures Distinct(rest) && SameElsewhere(rest, m0.td[t].handles, e)
    ensures Count(rest, e) == Occurs(m0.slots[e], i + 1, t)
  {
    var hs, s0 := m.td[t].handles, m0.slots[e];
    assert ThreadInv(m0, m, e, i, t);
    RemoveFirstEffect(hs, e);
    assert Occurs(s0, i, t) == Occurs(s0, i + 1, t) + 1;
    OccursZero(s0, i + 1, t);
    CountZero(rest, e);
    assert rest[0] in rest && rest[0] in hs;
  }

  /** The last e-handle of an ALL waiter with no other event: it is woken, in slot i. */
  lemma LastStep(m0: Mem, m: Mem, e: Event, i: nat, t: Thread)
    requires TriggerInv(m0, m, e, i) && i < |m0.slots[e]| && t in m.td
    requires m.slots[e][i] == t && !m.td[t].any && !Woken(m0, e, i, t)
    requires RemoveFirst(m.td[t].handles, e) == []
    ensures Woken(m0, e, i + 1, t) && Once(m.slots[e], t)
  {
    var hs, s0 := m.td[t].handles, m0.slots[e];
    assert ThreadInv(m0, m, e, i, t);
    RemoveFirstEffect(hs, e);
    OccursZero(s0, i + 1, t);
    OccursZero(s0, i, t);
    assert s0[i] == t;
    assert SeenBefore(s0, t, i + 1);
    var f := FirstMatch(hs, e);
    assert forall h | h in hs :: h == hs[f];
    assert Count([], e) == 0;
    assert OnlyAt(m.slots[e], t, i);
  }

  /** An ANY waiter reached for the first time: of its slots only the one of the removed handle stays. */
  lemma AnyStep(m0: Mem, m: Mem, e: Event, i: nat, t: Thread, rest: seq<Handle>)
    requires Coherent(m0) && TriggerInv(m0, m, e, i) && i < |m0.slots[e]| && t in m.td
    requires m.slots[e][i] == t && m.td[t].any && !Woken(m0, e, i, t)
    requires rest == RemoveFirst(m.td[t].handles, e)
    ensures Woken(m0, e, i + 1, t)
    ensures Once(ClearSlots(m.slots, rest)[e], t)
    ensures forall h | h in rest :: h in m0.td[t].handles
    ensures forall h | h in m0.td[t].handles && h.event != e :: h in rest
  {
    var hs, s0 := m.td[t].handles, m0.slots[e];
    assert ThreadInv(m0, m, e, i, t);
    assert ThreadSide(m0, t) && EventSide(m0, e);
    assert s0[i] == t && Handle(e, i) in hs;
    RemoveFirstEffect(hs, e);
    var f := FirstMatch(hs, e);
    assert SeenBefore(s0, t, i + 1);
    assert !SeenBefore(s0, t, i);
    var p := hs[f].idx;
    assert hs[f] in hs && hs[f] == Handle(e, p);
    var now := ClearSlots(m.slots, rest)[e];
    assert now[p] == t;
    forall k | 0 <= k < |now| ensures now[k] == t <==> k == p {
      if now[k] == t {
        assert m.slots[e][k] == t && s0[k] == t;
        assert Handle(e, k) in hs;
      }
    }
    assert OnlyAt(now, t, p);
  }

  /** Slot i is null, or holds a thread that is woken already: nothing changes. */
  lemma SkipStep(m0: Mem, m: Mem, e: Event, i: nat)
    requires TriggerInv(m0, m, e, i) && i < |m0.slots[e]|
    requires m.slots[e][i] == null || (m.slots[e][i] in m.td && Woken(m0, e, i, m.slots[e][i]))
    ensures TriggerInv(m0, m, e, i + 1)
  {
    var s0 := m0.slots[e];
    forall u | u in m.td
      ensures Woken(m0, e, i + 1, u) == Woken(m0, e, i, u) && ThreadInv(m0, m, e, i + 1, u)
    {
      if s0[i] == u {
        assert ThreadInv(m0, m, e, i, u);
        assert Woken(m0, e, i, u) && StillAhead(s0, u, i);
        assert SeenBefore(s0, u, i + 1);
      } else {
        WokenStep(m0, e, i, u);
        UntouchedThread(m0, m, m, e, i, u);
      }
    }
    forall x | x in m.slots && x != e ensures OtherSlots(m0, m, e, i + 1, x) {
      assert OtherSlots(m0, m, e, i, x);
    }
  }

  lemma PartialPending(m0: Mem, m: Mem, n: Mem, e: Event, i: nat, t: Thread)
    requires Shape(m0, m, e, i) && i < |m0.slots[e]| && t in m.td && m0.slots[e][i] == t
    requires Shape(m0, n, e, i + 1) && Pending(m0, m, e, i, t) && !m.td[t].any
    requires n.td[t] == m.td[t].(handles := n.td[t].handles) && n.slots[e] == m.slots[e][i := null]
    requires Distinct(n.td[t].handles) && SameElsewhere(n.td[t].handles, m0.td[t].handles, e)
    requires Count(n.td[t].handles, e) == Occurs(m0.slots[e], i + 1, t)
    ensures Pending(m0, n, e, i + 1, t)
  {
  }

  lemma PartialThreads(m0: Mem, m: Mem, n: Mem, e: Event, i: nat, t: Thread, u: Thread)
    requires Shape(m0, m, e, i) && i < |m0.slots[e]| && Shape(m0, n, e, i + 1)
    requires t in m.td && u in m.td && m0.slots[e][i] == t && ThreadInv(m0, m, e, i, u)
    requires !m.td[t].any && !Woken(m0, e, i, t) && !Woken(m0, e, i + 1, t)
    requires n.td == m.td[t := m.td[t].(handles := n.td[t].handles)] && n.slots[e] == m.slots[e][i := null]
    requires Distinct(n.td[t].handles) && SameElsewhere(n.td[t].handles, m0.td[t].handles, e)
    requires Count(n.td[t].handles, e) == Occurs(m0.slots[e], i + 1, t)
    ensures ThreadInv(m0, n, e, i + 1, u)
  {
    if u == t {
      PartialPending(m0, m, n, e, i, t);
    } else {
      UntouchedThread(m0, m, n, e, i, u);
    }
  }

  lemma PartialSlotStep(m0: Mem, m: Mem, e: Event, i: nat, t: Thread, rest: seq<Handle>)
    requires TriggerInv(m0, m, e, i) && i < |m0.slots[e]| && t in m.td
    requires m.slots[e][i] == t && !m.td[t].any && !Woken(m0, e, i, t)
    requires rest == RemoveFirst(m.td[t].handles, e) && rest != []
    ensures TriggerInv(m0, Mem(m.td[t := m.td[t].(handles := rest)], m.slots[e := m.slots[e][i := null]]), e, i + 1)
  {
    hide ThreadInv, OtherSlots;
    var n := Mem(m.td[t := m.td[t].(handles := rest)], m.slots[e := m.slots[e][i := null]]);
    assert m0.slots[e][i] == t;
    PartialStep(m0, m, e, i, t, rest);
    assert n.td[t].handles == rest && n.slots[e] == m.slots[e][i := null];
    assert Shape(m0, n, e, i + 1);
    forall u | u in n.td ensures ThreadInv(m0, n, e, i + 1, u) {
      assert ThreadInv(m0, m, e, i, u);
      PartialThreads(m0, m, n, e, i, t, u);
    }
    forall x | x in n.slots && x != e ensures OtherSlots(m0, n, e, i + 1, x) {
      assert OtherSlots(m0, m, e, i, x);
      SameOtherSlots(m0, m, n, e, i, x);
    }
  }

  /** Processing slot i wakes nobody, so the other events stay as they are. */
  lemma SameOtherSlots(m0: Mem, m: Mem, n: Mem, e: Event, i: nat, x: Event)
    requires Shape(m0, m, e, i) && i < |m0.slots[e]| && Shape(m0, n, e, i + 1)
    requires x in m.slots && n.slots[x] == m.slots[x] && OtherSlots(m0, m, e, i, x)
    requires m0.slots[e][i] != null && m0.slots[e][i] in m0.td
    requires !Woken(m0, e, i, m0.slots[e][i]) && !Woken(m0, e, i + 1, m0.slots[e][i])
    ensures OtherSlots(m0, n, e, i + 1, x)
  {
  }

  /** Thread t is woken at slot i, its remaining handles `rest` being taken out of their events. */
  lemma WakeSlotStep(m0: Mem, m: Mem, n: Mem, e: Event, i: nat, t: Thread, rest: seq<Handle>)
    requires Coherent(m0) && TriggerInv(m0, m, e, i) && i < |m0.slots[e]| && t in m.td
    requires m.slots[e][i] == t && !Woken(m0, e, i, t)
    requires rest == RemoveFirst(m.td[t].handles, e) && (m.td[t].any || rest == [])
    requires n.slots == ClearSlots(m.slots, rest) && n.td.Keys == m.td.Keys
    requires WokenData(n.td[t], m.td[t]) && forall u | u in m.td && u != t :: n.td[u] == m.td[u]
    ensures TriggerInv(m0, n, e, i + 1)
  {
    assert m0.slots[e][i] == t;
    WakeThread(m0, m, e, i, t, rest);
    ClearedOnlyOf(m0, m, e, t, rest);
    ClearedShape(m0, m, n, e, i, rest);
    assert ThreadInv(m0, m, e, i, t);
    forall u | u in n.td ensures ThreadInv(m0, n, e, i + 1, u) {
      assert ThreadInv(m0, m, e, i, u);
      if u != t {
        UntouchedThread(m0, m, n, e, i, u);
      }
    }
    forall x | x in n.slots && x != e ensures OtherSlots(m0, n, e, i + 1, x) {
      WokenOtherSlots(m0, m, n, e, i, t, rest, x);
    }
  }

  lemma ClearedShape(m0: Mem, m: Mem, n: Mem, e: Event, i: nat, hs: seq<Handle>)
    requires Shape(m0, m, e, i) && i < |m0.slots[e]|
    requires n.slots == ClearSlots(m.slots, hs) && n.td.Keys == m.td.Keys
    ensures Shape(m0, n, e, i + 1)
  {
  }

  /** Either kind of waiter is woken, keeping exactly one slot. */
  lemma WakeThread(m0: Mem, m: Mem, e: Event, i: nat, t: Thread, rest: seq<Handle>)
    requires Coherent(m0) && TriggerInv(m0, m, e, i) && i < |m0.slots[e]| && t in m.td
    requires m.slots[e][i] == t && !Woken(m0, e, i, t)
    requires rest == RemoveFirst(m.td[t].handles, e) && (m.td[t].any || rest == [])
    ensures Woken(m0, e, i + 1, t) && Once(ClearSlots(m.slots, rest)[e], t)
    ensures forall h | h in rest :: h in m0.td[t].handles
    ensures forall h | h in m0.td[t].handles && h.event != e :: h in rest
  {
    if m.td[t].any {
      AnyStep(m0, m, e, i, t, rest);
    } else {
      assert ThreadInv(m0, m, e, i, t);
      LastStep(m0, m, e, i, t);
      assert ClearSlots(m.slots, rest)[e] == m.slots[e];
    }
  }

  /** `rest` only names slots that held t before the trigger. */
  lemma ClearedOnlyOf(m0: Mem, m: Mem, e: Event, t: Thread, rest: seq<Handle>)
    requires Coherent(m0) && t in m0.td && m.slots.Keys == m0.slots.Keys
    requires forall x | x in m.slots :: |m.slots[x]| == |m0.slots[x]|
    requires forall h | h in rest :: h in m0.td[t].handles
    ensures forall x, k | x in m.slots && 0 <= k < |m.slots[x]| && Handle(x, k) in rest :: m0.slots[x][k] == t
  {
  }

  lemma WokenOtherSlots(m0: Mem, m: Mem, n: Mem, e: Event, i: nat, t: Thread, rest: seq<Handle>, x: Event)
    requires Coherent(m0) && TriggerInv(m0, m, e, i) && Shape(m0, n, e, i + 1) && t in m.td
    requires i < |m0.slots[e]| && m0.slots[e][i] == t && !Woken(m0, e, i, t) && Woken(m0, e, i + 1, t)
    requires n.slots == ClearSlots(m.slots, rest)
    requires forall h | h in rest :: h in m0.td[t].handles
    requires forall h | h in m0.td[t].handles && h.event != e :: h in rest
    requires x in n.slots && x != e
    ensures OtherSlots(m0, n, e, i + 1, x)
  {
    assert OtherSlots(m0, m, e, i, x) && EventSide(m0, x) && ThreadSide(m0, t);
    forall k | 0 <= k < |m0.slots[x]|
      ensures var u := m0.slots[x][k];
        n.slots[x][k] == if u != null && u in m0.td && Woken(m0, e, i + 1, u) then null else u
    {
      var u := m0.slots[x][k];
      assert u == t <==> Handle(x, k) in rest;
      if u != null && u != t { WokenStep(m0, e, i, u); }
    }
  }

  lemma WokenSlotUnchanged(m: Mem, e: Event, i: nat)
    requires e in m.slots && i < |m.slots[e]| && m.slots[e][i] != null && m.slots[e][i] in m.td
    requires m.td[m.slots[e][i]].handles == [] && !m.td[m.slots[e][i]].timer
    ensures TriggerSlot(m, e, i) == m
  {
    var t := m.slots[e][i];
    assert RemoveFirst([], e) == [];
    assert m.td[t].(handles := []) == m.td[t] && m.td[t := m.td[t]] == m.td;
    var cleared := ClearSlots(m.slots, []);
    forall x | x in m.slots ensures cleared[x] == m.slots[x] {
    }
    assert cleared == m.slots;
    assert LeaveAll(m, t) == m && Disarmed(m, t) == m;
  }

  /** One iteration of the trigger loop keeps the loop invariant. */
  lemma TriggerSlotKeepsInv(m0: Mem, m: Mem, e: Event, i: nat)
    requires Coherent(m0) && TriggerInv(m0, m, e, i) && i < |m0.slots[e]|
    ensures m.slots[e][i] != null ==> m.slots[e][i] in m.td
    ensures TriggerInv(m0, TriggerSlot(m, e, i), e, i + 1)
  {
    hide Coherent, Pending, OtherSlots, OnlyOf, SeenBefore, StillAhead, Once;
    var t := m.slots[e][i];
    var n := TriggerSlot(m, e, i);
    if t == null {
      SkipStep(m0, m, e, i);
    } else if Woken(m0, e, i, t) {
      assert ThreadInv(m0, m, e, i, t);
      WokenSlotUnchanged(m, e, i);
      SkipStep(m0, m, e, i);
    } else {
      var rest := RemoveFirst(m.td[t].handles, e);
      assert ThreadInv(m0, m, e, i, t);
      if !m.td[t].any && rest != [] {
        PartialSlotStep(m0, m, e, i, t, rest);
        assert n == Mem(m.td[t := m.td[t].(handles := rest)], m.slots[e := m.slots[e][i := null]]);
      } else {
        assert n.slots == ClearSlots(m.slots, rest);
        WakeSlotStep(m0, m, n, e, i, t, rest);
      }
    }
  }

  lemma AwaitedOnly(hs: seq<Handle>, e: Event)
    ensures Awaited(hs) == {} <==> hs == []
    ensures Awaited(hs) == {e} <==> hs != [] && OnlyOf(hs, e)
  {
    if hs != [] { assert hs[0].event in Awaited(hs); }
    assert forall h | h in hs :: h.event in Awaited(hs);
    if hs != [] && OnlyOf(hs, e) { assert hs[0].event == e; }
  }

  lemma AwaitedNone(hs: seq<Handle>)
    ensures Awaited(hs) == {} <==> hs == []
  {
    if hs != [] { assert hs[0].event in Awaited(hs); }
  }

  lemma WaitsHere(m0: Mem, e: Event, t: Thread)
    requires Coherent(m0) && e in m0.slots && t in m0.td
    ensures SeenBefore(m0.slots[e], t, |m0.slots[e]|) <==> e in Awaited(m0.td[t].handles)
  {
  }

  /** During the loop all handles still name existing slots. */
  lemma TriggerHandlesValid(m0: Mem, m: Mem, e: Event, i: nat)
    requires Coherent(m0) && TriggerInv(m0, m, e, i) && i < |m0.slots[e]|
    ensures Walkable(m, e, i)
  {
  }

  /** After the whole loop, the woken threads are the ones the declarative rule wakes. */
  lemma WokenIffWakes(m0: Mem, e: Event, t: Thread)
    requires Coherent(m0) && e in m0.slots && t in m0.td
    ensures Woken(m0, e, |m0.slots[e]|, t) <==> Wakes(ViewOf(m0.td[t]), e)
  {
    WaitsHere(m0, e, t);
    AwaitedOnly(m0.td[t].handles, e);
    assert !StillAhead(m0.slots[e], t, |m0.slots[e]|);
  }

  lemma AwaitedElsewhere(hs: seq<Handle>, hs0: seq<Handle>, e: Event)
    requires SameElsewhere(hs, hs0, e) && Count(hs, e) == 0
    ensures Awaited(hs) == Awaited(hs0) - {e}
  {
    CountZero(hs, e);
    forall x ensures x in Awaited(hs) <==> x in Awaited(hs0) - {e} {
      if x in Awaited(hs) { var h :| h in hs && h.event == x; assert h in hs0; }
      if x in Awaited(hs0) - {e} { var h :| h in hs0 && h.event == x; assert h in hs; }
    }
  }

  lemma TriggerDoneView(m0: Mem, m: Mem, e: Event, t: Thread)
    requires Coherent(m0) && e in m0.slots && TriggerInv(m0, m, e, |m0.slots[e]|) && t in m.td
    ensures ViewOf(m.td[t]) == AfterTrigger(ViewOf(m0.td[t]), e)
  {
    assert ThreadInv(m0, m, e, |m0.slots[e]|, t);
    WokenIffWakes(m0, e, t);
    if !Wakes(ViewOf(m0.td[t]), e) {
      AwaitedElsewhere(m.td[t].handles, m0.td[t].handles, e);
    }
  }

  lemma TriggerDoneListed(m0: Mem, m: Mem, e: Event, t: Thread)
    requires Coherent(m0) && e in m0.slots && TriggerInv(m0, m, e, |m0.slots[e]|) && t in m.td
    ensures t in m.slots[e] <==> Wakes(ViewOf(m0.td[t]), e)
    ensures forall i, j :: 0 <= i < j < |m.slots[e]| && m.slots[e][i] == t ==> m.slots[e][j] != t
  {
    assert ThreadInv(m0, m, e, |m0.slots[e]|, t);
    WokenIffWakes(m0, e, t);
    if Wakes(ViewOf(m0.td[t]), e) {
      assert Once(m.slots[e], t);
      var p: nat :| OnlyAt(m.slots[e], t, p);
      assert m.slots[e][p] == t;
    }
  }

  /** The threads left in the triggered event's slots: exactly the woken ones, each once. */
  lemma TriggerDoneList(m0: Mem, m: Mem, e: Event)
    requires Coherent(m0) && e in m0.slots && TriggerInv(m0, m, e, |m0.slots[e]|)
    ensures var woken := Compact(m.slots[e]);
      && Distinct(woken) && Subsequence(woken, m0.slots[e])
      && (forall t | t in woken :: t in m0.td && Wakes(ViewOf(m0.td[t]), e))
      && (forall t | t in m0.td && Wakes(ViewOf(m0.td[t]), e) :: t in woken)
  {
    var r := m.slots[e];
    CompactMembers(r);
    forall t | t in m.td
      ensures t in r <==> Wakes(ViewOf(m0.td[t]), e)
      ensures forall i, j :: 0 <= i < j < |r| && r[i] == t ==> r[j] != t
    {
      TriggerDoneListed(m0, m, e, t);
    }
    assert forall k :: 0 <= k < |r| && r[k] != null ==> r[k] in m.td;
    CompactDistinct(r);
    CompactIsSubsequence(r, m0.slots[e]);
    forall t: Thread | t in Compact(r) ensures t in m0.td && Wakes(ViewOf(m0.td[t]), e) {
      assert t in r && t in m.td;
    }
    forall t | t in m0.td && Wakes(ViewOf(m0.td[t]), e) ensures t in Compact(r) {
      assert t in m.td && t in r;
    }
  }

  lemma TriggerDoneThread(m0: Mem, m: Mem, e: Event, t: Thread)
    requires Coherent(m0) && e in m0.slots && TriggerInv(m0, m, e, |m0.slots[e]|) && t in m.td
    ensures ThreadSide(m.(slots := m.slots[e := []]), t)
  {
    var n, len := m.(slots := m.slots[e := []]), |m0.slots[e]|;
    assert ThreadInv(m0, m, e, len, t) && ThreadSide(m0, t);
    if !Woken(m0, e, len, t) {
      CountZero(m.td[t].handles, e);
      forall h | h in m.td[t].handles
        ensures h.event in n.slots && h.idx < |n.slots[h.event]| && n.slots[h.event][h.idx] == t
      {
        assert h in m0.td[t].handles && OtherSlots(m0, m, e, len, h.event);
      }
    }
  }

  lemma TriggerDoneEvent(m0: Mem, m: Mem, e: Event, x: Event)
    requires Coherent(m0) && e in m0.slots && TriggerInv(m0, m, e, |m0.slots[e]|) && x in m.slots
    ensures EventSide(m.(slots := m.slots[e := []]), x)
  {
  }

  /** Clearing the triggered event's queue restores the pairing: no handle to e is left anywhere. */
  lemma TriggerDoneCoherent(m0: Mem, m: Mem, e: Event)
    requires Coherent(m0) && e in m0.slots && TriggerInv(m0, m, e, |m0.slots[e]|)
    ensures Coherent(m.(slots := m.slots[e := []]))
  {
    forall t | t in m.td ensures ThreadSide(m.(slots := m.slots[e := []]), t) {
      TriggerDoneThread(m0, m, e, t);
    }
    forall x | x in m.slots ensures EventSide(m.(slots := m.slots[e := []]), x) {
      TriggerDoneEvent(m0, m, e, x);
    }
  }

  lemma TriggerDoneViews(m0: Mem, m: Mem, e: Event)
    requires Coherent(m0) && e in m0.slots && TriggerInv(m0, m, e, |m0.slots[e]|)
    ensures Views(m.td) == TriggerAll(Views(m0.td), e)
  {
    forall t | t in m.td ensures ViewOf(m.td[t]) == AfterTrigger(ViewOf(m0.td[t]), e) {
      TriggerDoneView(m0, m, e, t);
    }
  }

  /** The loop and the clearing of the queue together are the declarative step. */
  lemma TriggerRefines(m0: Mem, m: Mem, e: Event)
    requires Coherent(m0) && e in m0.slots && TriggerInv(m0, m, e, |m0.slots[e]|)
    ensures e in m.slots && Subsequence(Compact(m.slots[e]), m0.slots[e])
    ensures ListsWoken(Views(m0.td), e, Compact(m.slots[e]))
    ensures Coherent(m.(slots := m.slots[e := []]))
    ensures Views(m.td) == TriggerAll(Views(m0.td), e)
  {
    TriggerDoneList(m0, m, e);
    TriggerDoneCoherent(m0, m, e);
    TriggerDoneViews(m0, m, e);
  }

  // ---------------------------------------------------------------------------------------------
  // The loop that removes all waiters of an event being freed.

  ghost predicate FreeThread(m0: Mem, m: Mem, e: Event, i: nat, t: Thread)
    requires e in m0.slots && i <= |m0.slots[e]| && t in m0.td && t in m.td
  {
    var d, d0, s0 := m.td[t], m0.td[t], m0.slots[e];
    && d == d0.(handles := d.handles, timeout := d0.timeout ||
         (d0.timer && SeenBefore(s0, t, i) && OnlyOf(d0.handles, e) && !StillAhead(s0, t, i)))
    && Distinct(d.handles)
    && SameElsewhere(d.handles, d0.handles, e)
    && Count(d.handles, e) == Occurs(s0, i, t)
  }

  ghost predicate FreeInv(m0: Mem, m: Mem, e: Event, i: nat) {
    && e in m0.slots && i <= |m0.slots[e]|
    && m.slots == m0.slots && m.td.Keys == m0.td.Keys
    && forall t | t in m.td :: FreeThread(m0, m, e, i, t)
  }

  lemma FreeInvInit(m0: Mem, e: Event)
    requires Coherent(m0) && e in m0.slots
    ensures FreeInv(m0, m0, e, 0)
  {
    forall t | t in m0.td ensures FreeThread(m0, m0, e, 0, t) {
      CoherentPaired(m0, t, e);
    }
  }

  lemma FreeSkip(m0: Mem, m: Mem, e: Event, i: nat, t: Thread)
    requires e in m0.slots && i < |m0.slots[e]| && t in m0.td && t in m.td
    requires FreeThread(m0, m, e, i, t) && m0.slots[e][i] != t
    ensures FreeThread(m0, m, e, i + 1, t)
  {
  }

  lemma FreeHit(m0: Mem, m: Mem, n: Mem, e: Event, i: nat, t: Thread)
    requires e in m0.slots && i < |m0.slots[e]| && t in m0.td && t in m.td && t in n.td
    requires FreeThread(m0, m, e, i, t) && m0.slots[e][i] == t
    requires var d, rest := m.td[t], RemoveFirst(m.td[t].handles, e);
      n.td[t] == d.(handles := rest, timeout := d.timeout || (rest == [] && d.timer))
    ensures FreeThread(m0, n, e, i + 1, t)
  {
    var s0, hs, hs0 := m0.slots[e], m.td[t].handles, m0.td[t].handles;
    var rest := RemoveFirst(hs, e);
    RemoveFirstEffect(hs, e);
    assert Occurs(s0, i, t) == Occurs(s0, i + 1, t) + 1;
    assert StillAhead(s0, t, i) && SeenBefore(s0, t, i + 1);
    OccursZero(s0, i + 1, t);
    CountZero(rest, e);
    assert SameElsewhere(rest, hs0, e);
    if rest == [] {
      var f := FirstMatch(hs, e);
      assert forall h | h in hs :: h == hs[f];
      assert OnlyOf(hs0, e);
    } else {
      assert rest[0] in rest;
      if OnlyOf(hs0, e) { assert rest[0].event == e; }
    }
  }

  /** One iteration of the free loop keeps its invariant. */
  lemma FreeSlotKeepsInv(m0: Mem, m: Mem, e: Event, i: nat)
    requires Coherent(m0) && FreeInv(m0, m, e, i) && i < |m0.slots[e]|
    ensures m.slots[e][i] != null ==> m.slots[e][i] in m.td
    ensures FreeInv(m0, FreeSlot(m, e, i), e, i + 1)
  {
    assert EventSide(m0, e);
    var n := FreeSlot(m, e, i);
    forall t | t in n.td ensures FreeThread(m0, n, e, i + 1, t) {
      assert FreeThread(m0, m, e, i, t);
      if m0.slots[e][i] == t { FreeHit(m0, m, n, e, i, t); } else { FreeSkip(m0, m, e, i, t); }
    }
  }

  lemma FreeDoneView(m0: Mem, m: Mem, e: Event, t: Thread)
    requires Coherent(m0) && e in m0.slots && FreeInv(m0, m, e, |m0.slots[e]|) && t in m.td
    ensures ViewOf(m.td[t]) == AfterFree(ViewOf(m0.td[t]), e)
  {
    assert FreeThread(m0, m, e, |m0.slots[e]|, t);
    WaitsHere(m0, e, t);
    AwaitedOnly(m0.td[t].handles, e);
    AwaitedElsewhere(m.td[t].handles, m0.td[t].handles, e);
    assert !StillAhead(m0.slots[e], t, |m0.slots[e]|);
  }

  lemma FreeDoneCoherent(m0: Mem, m: Mem, e: Event)
    requires Coherent(m0) && e in m0.slots && FreeInv(m0, m, e, |m0.slots[e]|)
    ensures Coherent(m.(slots := m.slots[e := []]))
  {
    var n := m.(slots := m.slots[e := []]);
    forall t | t in m.td ensures ThreadSide(n, t) {
      assert FreeThread(m0, m, e, |m0.slots[e]|, t) && ThreadSide(m0, t);
      CountZero(m.td[t].handles, e);
    }
    forall x | x in m.slots ensures EventSide(n, x) {
      assert EventSide(m0, x);
      assert forall t | t in m.td :: FreeThread(m0, m, e, |m0.slots[e]|, t);
    }
  }

  /** The free loop and the release of the queue are the declarative step, and restore the pairing. */
  lemma FreeRefines(m0: Mem, m: Mem, e: Event)
    requires Coherent(m0) && e in m0.slots && FreeInv(m0, m, e, |m0.slots[e]|)
    ensures Coherent(m.(slots := m.slots[e := []]))
    ensures Views(m.td) == FreeAll(Views(m0.td), e)
  {
    FreeDoneCoherent(m0, m, e);
    forall t | t in m.td ensures ViewOf(m.td[t]) == AfterFree(ViewOf(m0.td[t]), e) {
      FreeDoneView(m0, m, e, t);
    }
  }

  /** An event without waiters can be freed. */
  lemma EmptyEventCoherent(m: Mem, e: Event)
    requires Coherent(m) && e in m.slots && m.slots[e] == []
    ensures Coherent(m.(slots := m.slots - {e}))
  {
  }

  // ---------------------------------------------------------------------------------------------
  // Single updates: joining an event's queue, leaving all queues, disappearing.

  function Enqueue(m: Mem, t: Thread, e: Event): Mem
    requires t in m.td && e in m.slots
  {
    var d := m.td[t];
    Mem(m.td[t := d.(handles := d.handles + [Handle(e, |m.slots[e]|)])], m.slots[e := m.slots[e] + [t]])
  }

  lemma EnqueueCoherent(m: Mem, t: Thread, e: Event)
    requires Coherent(m) && t in m.td && e in m.slots
    ensures Coherent(Enqueue(m, t, e))
    ensures Awaited(Enqueue(m, t, e).td[t].handles) == Awaited(m.td[t].handles) + {e}
  {
  }

  lemma LeaveAllCoherent(m: Mem, t: Thread)
    requires Coherent(m) && t in m.td
    ensures Coherent(LeaveAll(m, t))
    ensures forall e, k | e in m.slots && 0 <= k < |m.slots[e]| :: LeaveAll(m, t).slots[e][k] != t
  {
  }

  lemma HandlesNameSlots(m: Mem, t: Thread)
    requires Coherent(m) && t in m.td
    ensures forall h | h in m.td[t].handles :: h.event in m.slots && h.idx < |m.slots[h.event]|
  {
  }

  /** A thread without handles is in no slot, so it can be freed. */
  lemma FreedCoherent(m: Mem, t: Thread)
    requires Coherent(m) && t in m.td && m.td[t].handles == []
    ensures Coherent(m.(td := m.td - {t}))
  {
  }

  /** Coherence only depends on handles and slots. */
  lemma SameHandlesCoherent(m: Mem, n: Mem)
    requires Coherent(m) && n.slots == m.slots && n.td.Keys == m.td.Keys
    requires forall t | t in m.td :: n.td[t].handles == m.td[t].handles
    ensures Coherent(n)
  {
  }

  /** Leaving all queues after a change of timer and timeout. */
  lemma ExpiredCoherent(m: Mem, t: Thread, d: Data)
    requires Coherent(m) && t in m.td && d.handles == m.td[t].handles
    ensures Coherent(LeaveAll(m.(td := m.td[t := d]), t))
    ensures LeaveAll(m.(td := m.td[t := d]), t).td == m.td[t := d.(handles := [])]
  {
  }

  lemma NewThreadCoherent(m: Mem, t: Thread, d: Data)
    requires Coherent(m) && t !in m.td && d.handles == []
    ensures Coherent(m.(td := m.td[t := d]))
  {
  }

  lemma NewEventCoherent(m: Mem, e: Event)
    requires Coherent(m) && e !in m.slots
    ensures Coherent(m.(slots := m.slots[e := []]))
  {
  }

  // ---------------------------------------------------------------------------------------------
  // From single memory updates to views

  lemma ViewsUpdate(td: map<Thread, Data>, t: Thread, d: Data)
    ensures Views(td[t := d]) == Views(td)[t := ViewOf(d)]
  {
  }

  /** Outside the teardown the running thread is in no queue and has no timer. */
  lemma CurrentIsIdle(s: Sys, td: map<Thread, Data>)
    requires Inv(s) && s.views == Views(td) && s.current != null && !s.ending
    ensures s.current in td && td[s.current].handles == [] && !td[s.current].timer
  {
    AwaitedNone(td[s.current].handles);
  }

  lemma IdleMayWait(s: Sys, td: map<Thread, Data>)
    requires s.views == Views(td) && s.current != null && s.current in td
    ensures MayWait(s) <==> td[s.current].handles == [] && !td[s.current].timer
  {
    AwaitedNone(td[s.current].handles);
  }

  /** Clearing a handle list without visiting the slots, as the waits do that clear it, is right exactly
      if the list is empty already. */
  lemma ClearedCoherentIff(m: Mem, t: Thread)
    requires Coherent(m) && t in m.td
    ensures Coherent(m.(td := m.td[t := m.td[t].(handles := [])])) <==> m.td[t].handles == []
  {
    var n := m.(td := m.td[t := m.td[t].(handles := [])]);
    if m.td[t].handles != [] {
      var h := m.td[t].handles[0];
      assert ThreadSide(m, t) && n.slots[h.event][h.idx] == t;
      assert !EventSide(n, h.event);
    } else {
      SameHandlesCoherent(m, n);
    }
  }

  lemma SpawnStep(s: Sys, td: map<Thread, Data>, t: Thread)
    requires s.views == Views(td) && t !in td && t !in s.gone && t !in s.lost
    ensures Enabled(s, Spawn(t))
    ensures Step(s, Spawn(t)) == s.(views := Views(td[t := NEW_DATA]), ready := s.ready + [t],
                                   late := if s.ending then s.late + {t} else s.late)
  {
    ViewsUpdate(td, t, NEW_DATA);
    AwaitedNone([]);
  }

  lemma UpdatedTwice(td: map<Thread, Data>, t: Thread, d1: Data, d2: Data)
    ensures td[t := d1][t := d2] == td[t := d2]
  {
  }

  /** Entering a wait on one event is the declarative step. */
  lemma WaitOneStep(s: Sys, td: map<Thread, Data>, d: Data, e: Event, timed: bool)
    requires MayWait(s) && s.views == Views(td) && e in s.events
    requires s.current in td && d == td[s.current].(handles := d.handles, timer := timed,
                                                   timeout := td[s.current].timeout && !timed)
    requires Awaited(d.handles) == {e}
    ensures Enabled(s, WaitOne(e, timed))
    ensures Step(s, WaitOne(e, timed)) == s.(views := Views(td[s.current := d]), current := null)
  {
    ViewsUpdate(td, s.current, d);
  }

  /** Entering a wait on a combination is the declarative step. */
  lemma WaitManyStep(s: Sys, td: map<Thread, Data>, d: Data, es: seq<Event>, any: bool, timed: bool)
    requires MayWait(s) && s.views == Views(td) && forall e | e in es :: e in s.events
    requires s.current in td && d == td[s.current].(handles := d.handles, any := any, timer := timed,
                                                   timeout := td[s.current].timeout && !timed)
    requires Awaited(d.handles) == Members(es)
    ensures Enabled(s, WaitMany(es, any, timed))
    ensures Step(s, WaitMany(es, any, timed)) == s.(views := Views(td[s.current := d]), current := null)
  {
    ViewsUpdate(td, s.current, d);
  }

  lemma SleepStep(s: Sys, td: map<Thread, Data>, d: Data)
    requires MayWait(s) && s.views == Views(td)
    requires s.current in td && d == td[s.current].(timer := true)
    ensures Enabled(s, Sleep)
    ensures Step(s, Sleep) == s.(views := Views(td[s.current := d]), current := null)
  {
    ViewsUpdate(td, s.current, d);
  }

  lemma LeaveStep(s: Sys, td: map<Thread, Data>, a: Action, st: ThreadState)
    requires Inv(s) && s.current != null && s.views == Views(td)
    requires (a == Halt && st == Stopped) || (a == Exit && st == StoppedToFinish) || (a == Return && st == Finished)
    requires s.current in td
    ensures Enabled(s, a)
    ensures Step(s, a) == s.(views := Views(td[s.current := td[s.current].(state := td[s.current].state.Raise(st))]),
                             current := null)
  {
    ViewsUpdate(td, s.current, td[s.current].(state := td[s.current].state.Raise(st)));
  }

  lemma FinishStep(s: Sys, td: map<Thread, Data>)
    requires Inv(s) && s.current != null && s.views == Views(td) && s.current in td
    ensures Enabled(s, Finish)
    ensures var d := td[s.current];
      Step(s, Finish) == s.(views := Views(td[s.current := d.(state := d.state.Raise(StoppedToFinish))]),
                            current := null, finishPending := true)
  {
    ViewsUpdate(td, s.current, td[s.current].(state := td[s.current].state.Raise(StoppedToFinish)));
  }

  lemma SetResumeStep(s: Sys, td: map<Thread, Data>, on: bool)
    requires Inv(s) && s.current != null && s.views == Views(td) && s.current in td
    ensures Enabled(s, SetResume(on))
    ensures Step(s, SetResume(on)) == s.(views := Views(td[s.current := td[s.current].(resumeOnFinish := on)]))
  {
    ViewsUpdate(td, s.current, td[s.current].(resumeOnFinish := on));
  }

  lemma AddCleanupStep(s: Sys, td: map<Thread, Data>, cb: nat)
    requires Inv(s) && s.current != null && s.views == Views(td) && s.current in td
    ensures Enabled(s, AddCleanup(cb))
    ensures var d := td[s.current];
      Step(s, AddCleanup(cb)) == s.(views := Views(td[s.current := d.(cleanups := [cb] + d.cleanups)]))
  {
    ViewsUpdate(td, s.current, td[s.current].(cleanups := [cb] + td[s.current].cleanups));
  }

  lemma TimerStep(s: Sys, td: map<Thread, Data>, t: Thread)
    requires s.views == Views(td) && t in td && td[t].timer && s.current == null && !s.ending && Swept(s)
    ensures Enabled(s, TimerFires(t))
    ensures var d := td[t];
      Step(s, TimerFires(t)) ==
        s.(views := Views(td[t := d.(handles := [], timer := false, timeout := d.timeout || d.handles != [])]),
           ready := s.ready + [t])
  {
    var d := td[t];
    ViewsUpdate(td, t, d.(handles := [], timer := false, timeout := d.timeout || d.handles != []));
    AwaitedNone(d.handles);
    AwaitedNone([]);
  }

  lemma ResumeStep(s: Sys, td: map<Thread, Data>, t: Thread)
    requires s.views == Views(td) && s.current == null && !s.finishPending && !s.ending && Swept(s)
    requires s.ready != [] && s.ready[0] == t && t in td
    ensures Enabled(s, Resume(t))
    ensures Step(s, Resume(t)) == s.(views := Views(td[t := td[t].(state := td[t].state.Raise(Running))]),
                                    ready := s.ready[1..], current := t)
  {
    ViewsUpdate(td, t, td[t].(state := td[t].state.Raise(Running)));
  }

  lemma CloseStep(s: Sys, td: map<Thread, Data>, t: Thread)
    requires s.views == Views(td) && s.current == null && t in td && td[t].state != Cleanup && t !in s.late
    requires s.ending || td[t].state == StoppedToFinish || td[t].state == Finished
    ensures Enabled(s, Close(t))
    ensures Step(s, Close(t)) == s.(views := Views(td[t := td[t].(state := Cleanup)]),
                                   owed := if OwesResume(ViewOf(td[t])) then s.owed + {t} else s.owed)
  {
    ViewsUpdate(td, t, td[t].(state := Cleanup));
  }

  lemma NewEventStep(s: Sys, e: Event)
    requires e !in s.events && e !in s.freed
    ensures Enabled(s, NewEvent(e)) && Step(s, NewEvent(e)) == s.(events := s.events + {e})
  {
  }

  lemma ResetStep(s: Sys)
    requires s.current == null && s.ending && s.views.Keys == s.late
    ensures Enabled(s, Reset)
    ensures Step(s, Reset) == s.(views := map[], ready := [], finishPending := false, ending := false,
                                 late := {}, lost := s.lost + s.late)
  {
  }

  lemma FinalResumeStep(s: Sys, t: Thread)
    requires s.current == null && t in s.owed && t in s.views
    ensures Enabled(s, FinalResume(t)) && Step(s, FinalResume(t)) == s.(current := t, owed := s.owed - {t})
  {
  }

  lemma DropStep(s: Sys, n: nat)
    requires s.current == null && s.finishPending && n <= |s.ready| && Swept(s)
    ensures Enabled(s, Drop(n)) && Step(s, Drop(n)) == s.(ready := s.ready[n..]) && Swept(Step(s, Drop(n)))
  {
  }

  lemma UnhookStep(s: Sys, td: map<Thread, Data>, t: Thread)
    requires s.views == Views(td) && t in td && Closed(s, t)
    ensures Enabled(s, Unhook(t))
    ensures Step(s, Unhook(t)) == s.(views := Views(td[t := td[t].(handles := [], timer := false)]))
  {
    ViewsUpdate(td, t, td[t].(handles := [], timer := false));
    AwaitedNone([]);
  }

  lemma CalledStep(s: Sys, td: map<Thread, Data>, t: Thread)
    requires s.views == Views(td) && t in td && Closed(s, t) && !Waiting(s.views[t]) && td[t].cleanups != []
    ensures var d := td[t];
      && Enabled(s, CallCleanup(t, d.cleanups[0]))
      && Step(s, CallCleanup(t, d.cleanups[0])) == s.(views := Views(td[t := d.(cleanups := d.cleanups[1..])]))
  {
    ViewsUpdate(td, t, td[t].(cleanups := td[t].cleanups[1..]));
  }

  lemma ReleaseStep(s: Sys, td: map<Thread, Data>, t: Thread)
    requires s.views == Views(td) && t in td && Closed(s, t) && !Waiting(s.views[t]) && td[t].cleanups == []
    ensures Enabled(s, Release(t))
    ensures Step(s, Release(t)) == s.(views := Views(td - {t}), gone := s.gone + {t})
  {
  }

  lemma FreeEventStep(s: Sys, e: Event)
    requires e in s.events
    ensures Enabled(s, FreeEvent(e))
    ensures Step(s, FreeEvent(e)) == s.(views := FreeAll(s.views, e), events := s.events - {e}, freed := s.freed + {e})
  {
  }

  lemma ForgetStep(s: Sys, e: Event)
    requires e in s.events && s.ending
    ensures Enabled(s, Forget(e)) && Step(s, Forget(e)) == s.(views := FreeAll(s.views, e))
  {
  }

  lemma CallUserStep(s: Sys, x: CleanupEntry)
    requires s.current == null && s.ending
    ensures Enabled(s, CallUser(x)) && Step(s, CallUser(x)) == s
  {
  }

  lemma NoViews(td: map<Thread, Data>)
    requires td == map[]
    ensures Views(td) == map[]
  {
  }

  /** Threads without handles are in no slot, so they can be given up all at once. */
  lemma DroppedCoherent(m: Mem)
    requires Coherent(m) && forall t | t in m.td :: m.td[t].handles == []
    ensures Coherent(m.(td := map[]))
  {
    forall e | e in m.slots ensures EventSide(m.(td := map[]), e) {
      assert EventSide(m, e);
    }
  }

  /** Threads that were never started have no handles. */
  lemma NeverStartedHoldNothing(s: Sys, td: map<Thread, Data>)
    requires Inv(s) && s.views == Views(td) && s.views.Keys == s.late
    ensures forall t | t in td :: td[t].handles == []
  {
    forall t | t in td ensures td[t].handles == [] {
      assert t in s.views.Keys && ViewInv(s, s.views[t]);
      AwaitedNone(td[t].handles);
    }
  }
}
