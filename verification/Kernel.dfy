/** The kernel itself: threads, events, the ready queue and the cleanup list, updated in place.
    Every operation is proved to perform one step of WaitSpec. */
module Kernels {
  import opened Objects
  import opened Handles
  import opened WaitSpec
  import opened Memory
  import opened RunTheorems
  import opened Calls

  class Kernel {
    // what malloc has handed out and free has not taken back
    var threads: set<Thread>
    var events: set<Event>

    var mainQueue: seq<Thread>
    var shadowQueue: seq<Thread>
    var current: Thread?
    var finishPending: bool
    var cleanup: seq<CleanupEntry>   // newest first

    ghost var asked: bool            // the simulator has been asked to finish since the last teardown
    ghost var next: nat              // first entry of shadowQueue not run yet
    ghost var added: nat             // entries in front of cleanup registered since the teardown began
    ghost var reached: nat           // entries behind those that the teardown has processed
    ghost var leaked: set<CleanupEntry> // entries registered during a teardown, given up at its end
    ghost var ending: bool           // inside the end-of-simulation teardown
    ghost var closing: set<Thread>   // inside stimc_thread_finish
    ghost var owed: set<Thread>
    ghost var gone: set<Thread>
    ghost var late: set<Thread>
    ghost var lost: set<Thread>
    ghost var freed: set<Event>
    ghost var log: seq<Action>       // the steps taken so far

    static ghost function DataOf(t: Thread): Data
      reads t`handles, t`any, t`timer, t`timeout, t`state, t`resumeOnFinish, t`cleanupQueue, t`called
    {
      Data(t.handles, t.any, t.timer, t.timeout, t.state, t.resumeOnFinish,
           if t.called <= |t.cleanupQueue| then t.cleanupQueue[t.called..] else [])
    }

    ghost function Memory(): Mem
      reads `threads, `events, events`slots
      reads threads`handles, threads`any, threads`timer, threads`timeout, threads`state, threads`resumeOnFinish
      reads threads`cleanupQueue, threads`called
    {
      Mem(map t | t in threads :: DataOf(t), map e | e in events :: e.slots)
    }

    /** The double-buffered ready queue is one queue: the rest of the batch, then the main queue. */
    ghost function Abs(): Sys
      reads `threads, `events, events`slots
      reads threads`handles, threads`any, threads`timer, threads`timeout, threads`state, threads`resumeOnFinish
      reads threads`cleanupQueue, threads`called
      reads `next, `shadowQueue, `mainQueue, `current, `finishPending, `ending, `owed, `gone, `late, `lost, `freed
    {
      Sys(Views(Memory().td), events, freed, (if next <= |shadowQueue| then shadowQueue[next..] else []) + mainQueue,
          current, finishPending, ending, owed, gone, late, lost)
    }

    /** A change to a single thread, seen in the memory as a whole. */
    twostate lemma OnlyThread(t: Thread)
      requires threads == old(threads) && events == old(events) && t in threads
      requires forall u | u in threads && u != t :: DataOf(u) == old(DataOf(u))
      requires forall e | e in events :: unchanged(e`slots)
      ensures t in Memory().td && Memory() == old(Memory()).(td := old(Memory()).td[t := DataOf(t)])
    {
      assert Memory().td == old(Memory()).td[t := DataOf(t)];
      assert Memory().slots == old(Memory()).slots;
    }

    /** A change to a single thread that keeps its handles. */
    twostate lemma OnlyData(t: Thread)
      requires threads == old(threads) && events == old(events) && t in threads
      requires forall u | u in threads && u != t :: DataOf(u) == old(DataOf(u))
      requires forall e | e in events :: unchanged(e`slots)
      requires old(Coherent(Memory())) && DataOf(t).handles == old(t.handles)
      ensures Coherent(Memory()) && Memory().td == old(Memory()).td[t := DataOf(t)]
    {
      OnlyThread(t);
      SameHandlesCoherent(old(Memory()), Memory());
    }

    /** An entry that the teardown has not reached: one of the `added` ones, which it never reaches, or one
        behind those already processed. */
    static ghost predicate Ahead(list: seq<CleanupEntry>, added: nat, reached: nat, x: CleanupEntry) {
      added + reached <= |list| && (x in list[..added] || x in list[added + reached..])
    }

    ghost predicate EntryOf(t: Thread)
      reads `cleanup, `added, `reached, `late, t`cleanupSelf, t`state, cleanup
    {
      var x := t.cleanupSelf;
      && x in cleanup && x.target == OfThread(t)
      && (x.cancel <==> t.state == Cleanup)
      && (t.state != Cleanup ==> Ahead(cleanup, added, reached, x))
      && (t in late <==> added <= |cleanup| && x in cleanup[..added])
    }

    ghost predicate EntryOfEvent(e: Event)
      reads `cleanup, `added, `reached, `leaked, e`cleanupSelf, cleanup, leaked
    {
      var x := e.cleanupSelf;
      x != null ==>
        && (x in leaked || (x in cleanup && Ahead(cleanup, added, reached, x)))
        && x.target == OfEvent(e) && !x.cancel
    }

    ghost predicate TargetLive(x: CleanupEntry)
      reads `threads, `events, x, threads`cleanupSelf, events`cleanupSelf
    {
      match x.target
      case OfThread(t) => t in threads && t.cleanupSelf == x
      case OfEvent(e) => e in events && e.cleanupSelf == x
      case OfUser => true
    }

    /** The cleanup list and the live objects match: one uncanceled entry per live thread and per
        event that registered itself, and no uncanceled entry for anything that is gone. Entries given
        up by an earlier teardown were never freed and are in no list. */
    ghost predicate Registered()
      reads `threads, `events, `cleanup, `added, `reached, `ending, `leaked, `late, cleanup, leaked
      reads threads`cleanupSelf, threads`state, events`cleanupSelf
    {
      && Distinct(cleanup) && added + reached <= |cleanup| && (!ending ==> added == 0 && reached == 0)
      && late <= threads
      && (forall x | x in leaked :: x !in cleanup)
      && (forall t | t in threads :: EntryOf(t))
      && (forall e | e in events :: EntryOfEvent(e))
      && (forall x | x in cleanup && Ahead(cleanup, added, reached, x) && !x.cancel :: TargetLive(x))
    }

    /** `closing` are the threads whose end has begun. Only those have had callbacks called, and they do
        not run any more. */
    ghost predicate ClosingMatches()
      reads `threads, `closing, `current, `owed, threads`state, threads`called, threads`cleanupQueue
    {
      forall t | t in threads ::
        && (t.state == Cleanup <==> t in closing)
        && t.called <= |t.cleanupQueue|
        && (t.called > 0 ==> t.state == Cleanup && t !in owed && t != current)
    }

    /** The state s is where the steps taken so far lead from the initial state. */
    static ghost predicate Reaches(log: seq<Action>, s: Sys) {
      Exec(INIT, log) == At(s) && Inv(s)
    }

    /** Every event anybody waits for is registered for cleanup. */
    ghost predicate Enrolled()
      reads `events, events`slots, events`cleanupSelf
    {
      forall e | e in events && e.slots != [] :: e.cleanupSelf != null
    }

    ghost predicate Valid()
      reads this, threads, events, cleanup, leaked
    {
      && next <= |shadowQueue|
      && Coherent(Memory())
      && Registered()
      && Enrolled()
      && ClosingMatches()
      && Reaches(log, Abs())
    }

    /** No event's queue has got a waiter. */
    twostate predicate NoNewWaiters()
      reads `events, events`slots
    {
      events == old(events) && forall e | e in events :: |e.slots| <= |old(e.slots)|
    }

    /** Only an event without waiters has come, gone, or lost its entry. */
    twostate lemma EnrolledBut(new e: Event)
      requires old(Enrolled()) && e.slots == [] && forall x | x in events :: x == e || x in old(events)
      requires forall x | x in old(events) && x != e :: unchanged(x`slots) && unchanged(x`cleanupSelf)
      ensures Enrolled()
    {
    }

    twostate lemma StillEnrolled()
      requires old(Enrolled()) && NoNewWaiters() && forall e | e in events :: unchanged(e`cleanupSelf)
      ensures Enrolled()
    {
    }

    /** An event that is waited for has an entry that the next teardown reaches, unless it was first waited
        for during an earlier one. */
    lemma WaitedIsRegistered(t: Thread, e: Event)
      requires Valid() && !ending && t in threads && e in Abs().views[t].awaited
      ensures e in events && e.cleanupSelf != null
      ensures e.cleanupSelf.target == OfEvent(e) && !e.cleanupSelf.cancel
      ensures e.cleanupSelf in cleanup || e.cleanupSelf in leaked
    {
      var h :| h in t.handles && h.event == e;
      assert ThreadSide(Memory(), t) && h in Memory().td[t].handles;
      assert EntryOfEvent(e);
    }

    /** The operation performed exactly the step a. */
    twostate predicate Did(new a: Action)
      reads this, threads, events
    {
      && Enabled(old(Abs()), a)
      && Abs() == Step(old(Abs()), a)
      && log == old(log) + [a]
    }

    /** What no API call touches: the batch being run and the progress of a teardown. */
    twostate predicate Steady()
      reads this
    {
      && shadowQueue == old(shadowQueue) && next == old(next) && reached == old(reached)
      && closing == old(closing) && ending == old(ending) && owed == old(owed) && gone == old(gone)
      && leaked == old(leaked) && asked == old(asked)
    }

    constructor ()
      ensures Valid() && Abs() == INIT && log == [] && Resting() && Idle()
      ensures threads == {} && events == {} && cleanup == [] && leaked == {}
    {
      threads, events := {}, {};
      mainQueue, shadowQueue := [], [];
      current, finishPending, asked, cleanup := null, false, false, [];
      next, added, reached, leaked, ending := 0, 0, 0, {}, false;
      closing, owed, gone, late, lost, freed, log := {}, {}, {}, {}, {}, {}, [];
    }

    /** Bookkeeping shared by all operations: one more enabled step leads to a reachable state. */
    static lemma Advance(log0: seq<Action>, s0: Sys, a: Action)
      requires Reaches(log0, s0) && Enabled(s0, a)
      ensures Reaches(log0 + [a], Step(s0, a))
    {
      StepKeepsInv(s0, a);
      ExecSnoc(INIT, log0, a);
    }

    ghost function Marks(): map<CleanupEntry, Mark>
      reads `cleanup, cleanup
    {
      map x | x in cleanup :: Mark(x.target, x.cancel)
    }

    /** No entry left the list or changed its target, and none was canceled but by a step that does so. */
    twostate predicate EntriesKept()
      reads `cleanup, `log, cleanup
    {
      MarksKept(old(Marks()), old(log), Marks(), log)
    }

    /** The cleanup list only got new entries, which during a teardown come in front of its own. */
    twostate predicate CleanupGrew()
      reads `cleanup, `added, `ending
    {
      && (forall x | x in cleanup :: x in old(cleanup) || fresh(x))
      && (forall x | x in old(cleanup) :: x in cleanup)
      && (ending && old(added) <= |old(cleanup)| ==>
            added <= |cleanup| && cleanup[added..] == old(cleanup)[old(added)..])
      && (!ending ==> added == old(added))
    }

    /** Only the entry x, if any, has been canceled. */
    twostate predicate Canceled(x: CleanupEntry?)
      reads `cleanup, cleanup
    {
      cleanup == old(cleanup) && forall y | y in cleanup :: y.cancel <==> old(y.cancel) || y == x
    }

    /** No reference to anything freed: slots and the ready queue hold live threads only, handles name
        live events and slots that hold their thread. The queue may hold freed threads during the
        teardown only, where it is discarded. */
    lemma NoStaleReferences()
      requires Valid()
      ensures forall e, k | e in events && 0 <= k < |e.slots| && e.slots[k] != null :: e.slots[k] in threads
      ensures forall t, h | t in threads && h in t.handles ::
        h.event in events && h.idx < |h.event.slots| && h.event.slots[h.idx] == t
      ensures !ending ==> forall t | t in shadowQueue[next..] + mainQueue :: t in threads
    {
      var m := Memory();
      forall e, k | e in events && 0 <= k < |e.slots| && e.slots[k] != null ensures e.slots[k] in threads {
        assert EventSide(m, e) && m.slots[e][k] == e.slots[k];
      }
      forall t, h | t in threads && h in t.handles
        ensures h.event in events && h.idx < |h.event.slots| && h.event.slots[h.idx] == t
      {
        assert ThreadSide(m, t) && h in m.td[t].handles;
      }
      if !ending {
        forall t | t in shadowQueue[next..] + mainQueue ensures t in threads {
          assert t in Abs().ready;
        }
      }
    }

    // -------------------------------------------------------------------------------------------
    // Triggering

    /** `stimc_thread_remove_event_handle` */
    method RemoveEventHandle(t: Thread, e: Event)
      requires t in threads
      modifies t`handles
      ensures t.handles == RemoveFirst(old(t.handles), e)
      ensures var m := old(Memory());
        Memory() == m.(td := m.td[t := m.td[t].(handles := t.handles)])
    {
      SwapRemove(t, e);
      OnlyThread(t);
    }

    method SwapRemove(t: Thread, e: Event)
      modifies t`handles
      ensures t.handles == RemoveFirst(old(t.handles), e)
    {
      var n := |t.handles|;
      var i := 0;
      while i < n
        invariant i <= n && t.handles == old(t.handles)
        invariant forall k :: 0 <= k < i ==> t.handles[k].event != e
      {
        if t.handles[i].event == e {
          FirstMatchUnique(t.handles, e, i);
          if i == n - 1 {
            t.handles := t.handles[..n - 1];
          } else {
            t.handles := t.handles[i := t.handles[n - 1]][..n - 1];
          }
          return;
        }
        i := i + 1;
      }
    }

    /** `stimc_event_remove_thread` */
    method RemoveThread(e: Event, i: nat)
      requires e in events && i < |e.slots|
      modifies e`slots
      ensures var m := old(Memory());
        Memory() == m.(slots := m.slots[e := m.slots[e][i := null]])
    {
      e.slots := e.slots[i := null];
      assert Memory().slots == old(Memory()).slots[e := e.slots];
      assert Memory().td == old(Memory()).td;
    }

    ghost function Slots(): map<Event, seq<Thread?>>
      reads `events, events`slots
    {
      map e | e in events :: e.slots
    }

    /** `stimc_event_remove_thread` for each of a thread's handles. */
    method LeaveSlots(hs: seq<Handle>)
      requires forall h | h in hs :: h.event in events && h.idx < |h.event.slots|
      modifies events`slots
      ensures Slots() == ClearSlots(old(Slots()), hs) && NoNewWaiters()
    {
      var j := 0;
      ghost var s0 := Slots();
      while j < |hs|
        invariant j <= |hs|
        invariant forall e | e in events :: |e.slots| == |s0[e]|
        invariant forall e, k | e in events && 0 <= k < |s0[e]| ::
                    e.slots[k] == if Handle(e, k) in hs[..j] then null else s0[e][k]
      {
        var h := hs[j];
        assert hs[..j + 1] == hs[..j] + [h];
        h.event.slots := h.event.slots[h.idx := null];
        j := j + 1;
      }
      assert hs[..j] == hs;
      forall e | e in events ensures e.slots == ClearSlots(s0, hs)[e] {
      }
      assert Slots() == ClearSlots(s0, hs);
    }

    /** Thread t leaves the queues of all events it still has handles of. */
    method TakeOut(t: Thread)
      requires t in threads
      requires forall h | h in t.handles :: h.event in events && h.idx < |h.event.slots|
      modifies t`handles, events`slots
      ensures Memory() == LeaveAll(old(Memory()), t)
      ensures t.handles == [] && NoNewWaiters()
    {
      ghost var m := Memory();
      LeaveSlots(t.handles);
      SameThreads();
      label L:
      t.handles := [];
      OnlyThread@L(t);
    }

    /** The memory, when only slots have changed. */
    twostate lemma SameThreads()
      requires threads == old(threads) && events == old(events)
      requires forall t | t in threads :: DataOf(t) == old(DataOf(t))
      ensures Memory() == old(Memory()).(slots := Slots())
    {
      assert Memory().td == old(Memory()).td;
    }

    /** The body of the loop in `stimc_trigger_event` for slot i. */
    method TriggerOne(e: Event, i: nat)
      requires Walkable(Memory(), e, i)
      modifies threads`handles, threads`timer, threads`timeout, events`slots
      ensures Memory() == TriggerSlot(old(Memory()), e, i)
    {
      var t := e.slots[i];
      if t == null { return; }
      RemoveFirstSubset(t.handles, e);
      RemoveEventHandle(t, e);
      if !t.any && |t.handles| > 0 {
        RemoveThread(e, i);
      } else {
        TakeOut(t);
        Disarm(t);
      }
    }

    /** The timer of a woken thread is removed, and then the wake-up is no timeout. */
    method Disarm(t: Thread)
      requires t in threads
      modifies t`timer, t`timeout
      ensures Memory() == Disarmed(old(Memory()), t)
    {
      if t.timer {
        t.timer := false;
        t.timeout := false;
      }
      OnlyThread(t);
    }

    /** `stimc_thread_queue_enqueue_all`: null entries are skipped. */
    method EnqueueAll(q: seq<Thread>, source: seq<Thread?>) returns (r: seq<Thread>)
      ensures r == q + Compact(source)
    {
      r := q;
      var i := 0;
      while i < |source|
        invariant i <= |source| && r == q + Compact(source[..i])
      {
        assert source[..i + 1][..i] == source[..i];
        if source[i] != null {
          r := r + [source[i]];
        }
        i := i + 1;
      }
      assert source[..i] == source;
    }

    /** The loop of `stimc_trigger_event` over the slots of e. */
    method TriggerSlots(e: Event)
      requires Coherent(Memory()) && e in events
      modifies threads`handles, threads`timer, threads`timeout, events`slots
      ensures TriggerInv(old(Memory()), Memory(), e, |e.slots|) && |e.slots| == |old(e.slots)|
    {
      hide Coherent, Enrolled, TriggerInv;
      ghost var m0 := Memory();
      var i := 0;
      TriggerInvInit(m0, e);
      while i < |e.slots|
        invariant |e.slots| == |m0.slots[e]| && i <= |e.slots|
        invariant TriggerInv(m0, Memory(), e, i)
      {
        TriggerHandlesValid(m0, Memory(), e, i);
        TriggerSlotKeepsInv(m0, Memory(), e, i);
        SlotLengths(m0, Memory(), e, i);
        TriggerOne(e, i);
        SlotLengths(m0, Memory(), e, i + 1);
        i := i + 1;
      }
    }

    static lemma SlotLengths(m0: Mem, m: Mem, e: Event, i: nat)
      requires TriggerInv(m0, m, e, i)
      ensures e in m.slots && |m.slots[e]| == |m0.slots[e]|
    {
    }

    static lemma AllLengths(m0: Mem, m: Mem, e: Event, i: nat)
      requires TriggerInv(m0, m, e, i)
      ensures forall x | x in m.slots :: x in m0.slots && |m.slots[x]| == |m0.slots[x]|
    {
      forall x | x in m.slots ensures x in m0.slots && |m.slots[x]| == |m0.slots[x]| {
        assert x != e ==> OtherSlots(m0, m, e, i, x);
      }
    }

    twostate lemma LengthsInMemory()
      requires events == old(events)
      requires var m0, m := old(Memory()), Memory();
        forall x | x in m.slots :: x in m0.slots && |m.slots[x]| == |m0.slots[x]|
      ensures NoNewWaiters()
    {
      forall x | x in events ensures |x.slots| <= |old(x.slots)| {
        assert Memory().slots[x] == x.slots && old(Memory()).slots[x] == old(x.slots);
      }
    }

    /** The same, as seen by the cleanup list. */
    method WalkSlots(e: Event)
      requires Coherent(Memory()) && e in events
      modifies threads`handles, threads`timer, threads`timeout, events`slots
      ensures TriggerInv(old(Memory()), Memory(), e, |e.slots|) && |e.slots| == |old(e.slots)| && NoNewWaiters()
    {
      hide Coherent, TriggerInv, Memory, NoNewWaiters;
      ghost var m0 := Memory();
      TriggerSlots(e);
      AllLengths(m0, Memory(), e, |e.slots|);
      LengthsInMemory();
    }

    /** The slot loop, the hand-over of the remaining slots to queue q, and the clearing of e. */
    method Drain(e: Event, q: seq<Thread>) returns (r: seq<Thread>, ghost woken: seq<Thread>)
      requires Coherent(Memory()) && e in events
      modifies threads`handles, threads`timer, threads`timeout, events`slots
      ensures Coherent(Memory()) && r == q + woken && Subsequence(woken, old(e.slots)) && NoNewWaiters()
      ensures Views(Memory().td) == TriggerAll(Views(old(Memory()).td), e)
      ensures ListsWoken(Views(old(Memory()).td), e, woken)
    {
      hide Coherent, Enrolled, TriggerInv, Compact, Subsequence, Views, ListsWoken;
      ghost var m0 := Memory();
      WalkSlots(e);
      ghost var m := Memory();
      assert e.slots == m.slots[e];
      TriggerRefines(m0, m, e);
      woken := Compact(e.slots);
      r := EnqueueAll(q, e.slots);
      ClearQueue(e);
    }

    /** `stimc_trigger_event`: every waiter loses e; exactly the ANY waiters of e and the ALL waiters
        with nothing left become ready, each once, in the order of their slots. */
    method TriggerEvent(e: Event) returns (ghost woken: seq<Thread>)
      requires Valid() && e in events && Quiet(Abs())
      modifies `mainQueue, `log, threads`handles, threads`timer, threads`timeout, events`slots
      ensures Valid() && Did(Trigger(e, woken)) && Subsequence(woken, old(e.slots))
    {
      hide Coherent, Enrolled, Reaches, Registered, ClosingMatches, Subsequence, Views, ListsWoken, TriggerAll, Memory;
      ghost var s0 := Abs();
      var q;
      q, woken := Drain(e, mainQueue);
      mainQueue := q;
      assert Abs().ready == s0.ready + woken;
      StillEnrolled();
      Commit(s0, Trigger(e, woken));
    }

    /** `stimc_thread_queue_clear` on an event's queue. */
    method ClearQueue(e: Event)
      requires e in events
      modifies e`slots
      ensures Memory() == old(Memory()).(slots := old(Memory()).slots[e := []])
    {
      e.slots := [];
      assert Memory().slots == old(Memory()).slots[e := []];
      assert Memory().td == old(Memory()).td;
    }

    // -------------------------------------------------------------------------------------------
    // Creating and freeing events

    /** The cleanup list and the teardown's position in it are the same. */
    twostate predicate SameList()
      reads this
    {
      && cleanup == old(cleanup) && added == old(added) && reached == old(reached) && ending == old(ending)
      && leaked == old(leaked) && late == old(late)
    }

    twostate lemma RegisteredWithEvent(new e: Event)
      requires old(Registered()) && e !in old(events) && events == old(events) + {e} && e.cleanupSelf == null
      requires threads == old(threads) && SameList()
      requires forall t | t in threads :: unchanged(t`cleanupSelf, t`state)
      requires forall x | x in old(events) :: unchanged(x`cleanupSelf)
      requires forall x | x in cleanup || x in leaked :: unchanged(x)
      ensures Registered()
    {
      forall t | t in threads ensures EntryOf(t) { assert old(EntryOf(t)); }
      forall x | x in events ensures EntryOfEvent(x) { assert x != e ==> old(EntryOfEvent(x)); }
      forall x | x in cleanup && Ahead(cleanup, added, reached, x) && !x.cancel ensures TargetLive(x) {
        assert old(TargetLive(x));
      }
    }

    /** `stimc_event_create` */
    method EventCreate() returns (e: Event)
      requires Valid()
      modifies `events, `log
      ensures Valid() && Did(NewEvent(e)) && fresh(e) && events == old(events) + {e}
    {
      hide Coherent, Enrolled, Reaches, Views, Registered, ClosingMatches, Enabled, Step, Memory;
      ghost var m, s0 := Memory(), Abs();
      e := new Event();
      AddEvent(e);
      EnrolledBut(e);
      NewEventStep(s0, e);
      Commit(s0, NewEvent(e));
    }

    method AddEvent(e: Event)
      requires Coherent(Memory()) && Registered() && e !in events && e.slots == [] && e.cleanupSelf == null
      modifies `events
      ensures Coherent(Memory()) && Registered() && events == old(events) + {e}
      ensures Memory().td == old(Memory()).td
    {
      hide Coherent, Enrolled, Registered;
      ghost var m := Memory();
      events := events + {e};
      assert Memory().td == m.td;
      assert Memory().slots == m.slots[e := []];
      NewEventCoherent(m, e);
      RegisteredWithEvent(e);
    }

    /** The body of the loop in `stimc_event_thread_queue_free` for slot i. */
    method FreeOne(e: Event, i: nat)
      requires e in events && i < |e.slots| && (e.slots[i] != null ==> e.slots[i] in threads)
      modifies threads`handles, threads`timeout
      ensures Memory() == FreeSlot(old(Memory()), e, i)
    {
      hide Memory, DataOf;
      var t := e.slots[i];
      ghost var m := Memory();
      SlotData(e, i);
      if t == null { return; }
      RemoveEventHandle(t, e);
      MarkAbandoned(t);
      assert Memory().td == m.td[t := Memory().td[t]];
    }

    lemma SlotData(e: Event, i: nat)
      requires e in events && i < |e.slots| && (e.slots[i] != null ==> e.slots[i] in threads)
      ensures var m, t := Memory(), e.slots[i];
        && e in m.slots && m.slots[e] == e.slots
        && (t != null ==> t in m.td && m.td[t] == DataOf(t) && m.td[t].handles == t.handles)
    {
    }

    /** A timed wait left without any event will report a timeout. */
    method MarkAbandoned(t: Thread)
      requires t in threads
      modifies t`timeout
      ensures var m := old(Memory());
        t in m.td && var d := m.td[t];
        Memory() == m.(td := m.td[t := d.(timeout := d.timeout || (d.handles == [] && d.timer))])
    {
      if |t.handles| == 0 && t.timer {
        t.timeout := true;
      }
      OnlyThread(t);
    }

    /** `stimc_event_thread_queue_free` */
    method FreeQueue(e: Event)
      requires Coherent(Memory()) && e in events
      modifies threads`handles, threads`timeout, e`slots
      ensures Coherent(Memory()) && e.slots == []
      ensures Views(Memory().td) == FreeAll(Views(old(Memory()).td), e)
    {
      hide Coherent, Enrolled, FreeInv, Views, FreeAll;
      ghost var m0 := Memory();
      var i := 0;
      FreeInvInit(m0, e);
      while i < |e.slots|
        invariant e.slots == m0.slots[e] && i <= |e.slots|
        invariant FreeInv(m0, Memory(), e, i)
        invariant unchanged(e`slots)
      {
        FreeSlotKeepsInv(m0, Memory(), e, i);
        FreeOne(e, i);
        i := i + 1;
      }
      FreeRefines(m0, Memory(), e);
      ClearQueue(e);
    }

    /** `stimc_event_free`: nobody is woken, no handle to e survives, and a timed wait that loses its
        last event will report a timeout. */
    method EventFree(e: Event)
      requires Valid() && e in events
      modifies `events, `freed, `log, threads`handles, threads`timeout, e`slots, cleanup`cancel, leaked`cancel
      ensures Valid() && Did(FreeEvent(e)) && events == old(events) - {e} && EntriesKept()
    {
      hide Coherent, Enrolled, Reaches, Views, FreeAll, Registered, ClosingMatches, Cancels, EntriesKept, Memory;
      hide Enabled, Step;
      ghost var s0 := Abs();
      FreeEventStep(s0, e);
      OwnEntry(e);
      FreeQueue(e);
      DropEvent(e);
      EnrolledBut(e);
      Commit(s0, FreeEvent(e));
      CanceledByStep(e.cleanupSelf, FreeEvent(e));
    }

    /** The step that has just been taken accounts for the one entry that has been canceled. */
    twostate lemma CanceledByStep(x: CleanupEntry?, new a: Action)
      requires Canceled(x) && log == old(log) + [a] && (x != null ==> Cancels(a, x.target))
      requires forall y | y in cleanup :: unchanged(y`target)
      ensures EntriesKept()
    {
      assert log[|old(log)|] == a;
    }

    /** The entry of an event names it, so freeing the event is what cancels it. */
    lemma OwnEntry(e: Event)
      requires Registered() && e in events
      ensures e.cleanupSelf != null ==> Cancels(FreeEvent(e), e.cleanupSelf.target)
    {
      assert EntryOfEvent(e);
    }

    method DropEvent(e: Event)
      requires Coherent(Memory()) && Registered() && e in events && e.slots == []
      modifies `events, `freed, cleanup`cancel, leaked`cancel
      ensures Coherent(Memory()) && Registered() && events == old(events) - {e} && freed == old(freed) + {e}
      ensures Memory().td == old(Memory()).td && Canceled(e.cleanupSelf)
    {
      hide Coherent, Enrolled, Registered;
      ghost var m := Memory();
      EmptyEventCoherent(m, e);
      Unregister(e);
      assert Memory().td == m.td;
      assert Memory().slots == m.slots - {e};
    }

    /** The event's cleanup entry is canceled, and its memory is given back. */
    method Unregister(e: Event)
      requires Registered() && e in events
      modifies `events, `freed, cleanup`cancel, leaked`cancel
      ensures Registered() && events == old(events) - {e} && freed == old(freed) + {e} && Canceled(e.cleanupSelf)
    {
      assert EntryOfEvent(e);
      if e.cleanupSelf != null {
        e.cleanupSelf.cancel := true;
      }
      events, freed := events - {e}, freed + {e};
    }

    // -------------------------------------------------------------------------------------------
    // Threads: creation and waiting

    /** A new entry at the front is ahead of the teardown, and changes this for no other. */
    static lemma AheadAdded(list: seq<CleanupEntry>, added: nat, list2: seq<CleanupEntry>, added2: nat,
                            reached: nat, ending: bool, x: CleanupEntry)
      requires added + reached <= |list| && (!ending ==> added == 0 && reached == 0)
      requires list2 == [x] + list && added2 == added + if ending then 1 else 0
      ensures forall y :: Ahead(list2, added2, reached, y) <==> y == x || Ahead(list, added, reached, y)
      ensures ending ==> list2[added2..] == list[added..] && list2[..added2] == [x] + list[..added]
    {
      if ending {
        assert list2[..added2] == [x] + list[..added] && list2[added2 + reached..] == list[added + reached..];
      } else {
        assert list2[..added2] == [] && list2[added2 + reached..] == list2 && list[added + reached..] == list;
      }
      forall y ensures Ahead(list2, added2, reached, y) <==> y == x || Ahead(list, added, reached, y) {
        assert y in [x] + list[..added] <==> y == x || y in list[..added];
        assert y in [x] + list <==> y == x || y in list;
      }
    }

    /** The list got the entry x in front. */
    twostate predicate Prepended(new x: CleanupEntry)
      reads this
    {
      && cleanup == [x] + old(cleanup) && added == old(added) + (if ending then 1 else 0)
      && reached == old(reached) && ending == old(ending) && leaked == old(leaked)
    }

    /** During a teardown the entries it goes through stay what they were. */
    twostate predicate CleanupGrewBy(new x: CleanupEntry)
      reads this
    {
      Prepended(x) && (ending ==> old(added) <= |old(cleanup)| && cleanup[added..] == old(cleanup)[old(added)..])
    }

    twostate lemma RegisteredWithThread(new t: Thread, new x: CleanupEntry)
      requires old(Registered()) && t !in old(threads) && threads == old(threads) + {t}
      requires Prepended(x) && x !in old(cleanup) && x !in leaked && t.cleanupSelf == x && t.state == Created
      requires x.target == OfThread(t) && !x.cancel
      requires events == old(events) && late == if ending then old(late) + {t} else old(late)
      requires forall u | u in old(threads) :: unchanged(u`cleanupSelf, u`state)
      requires forall e | e in events :: unchanged(e`cleanupSelf)
      requires forall y | y in old(cleanup) || y in leaked :: unchanged(y)
      ensures Registered() && CleanupGrewBy(x)
    {
      AheadAdded(old(cleanup), old(added), cleanup, added, reached, ending, x);
      assert forall u | u in old(threads) :: old(EntryOf(u));
      assert cleanup[0] == x;
      forall e | e in events ensures EntryOfEvent(e) { assert old(EntryOfEvent(e)); }
      forall y | y in cleanup && Ahead(cleanup, added, reached, y) && !y.cancel ensures TargetLive(y) {
        assert y != x ==> old(TargetLive(y));
      }
    }

    /** `stimc_thread_create`: the new thread is registered for cleanup at once. */
    method CreateThread() returns (t: Thread)
      requires Coherent(Memory()) && Registered() && ClosingMatches()
      modifies `threads, `cleanup, `added, `late
      ensures Coherent(Memory()) && Registered() && ClosingMatches()
      ensures t.cleanupSelf.target == OfThread(t) && !t.cleanupSelf.cancel
      ensures fresh(t) && threads == old(threads) + {t} && late == if ending then old(late) + {t} else old(late)
      ensures Memory() == old(Memory()).(td := old(Memory()).td[t := NEW_DATA])
      ensures CleanupGrew() && cleanup == [t.cleanupSelf] + old(cleanup)
    {
      hide Coherent, Enrolled, Registered, ClosingMatches, Memory;
      var x;
      t, x := AllocateThread();
      AddThread(t, x);
    }

    /** A thread and its entry, not yet known to the kernel. */
    static method AllocateThread() returns (t: Thread, x: CleanupEntry)
      ensures fresh(t) && fresh(x) && t.cleanupSelf == x && x.target == OfThread(t) && !x.cancel
      ensures DataOf(t) == NEW_DATA && t.called == 0 && t.cleanupQueue == []
    {
      x := new CleanupEntry();
      t := new Thread(x);
      x.target := OfThread(t);
    }

    method AddThread(t: Thread, x: CleanupEntry)
      requires Coherent(Memory()) && Registered() && ClosingMatches()
      requires t !in threads && t !in closing && x !in cleanup && x !in leaked && DataOf(t) == NEW_DATA
      requires t.cleanupSelf == x && x.target == OfThread(t) && !x.cancel && t.called == 0
      modifies `threads, `cleanup, `added, `late
      ensures Coherent(Memory()) && Registered() && ClosingMatches() && threads == old(threads) + {t}
      ensures Memory() == old(Memory()).(td := old(Memory()).td[t := NEW_DATA])
      ensures CleanupGrewBy(x) && late == (if ending then old(late) + {t} else old(late))
    {
      hide Coherent, Enrolled, Registered, ClosingMatches, CleanupGrewBy, Memory;
      threads, cleanup := threads + {t}, [x] + cleanup;
      if ending { added, late := added + 1, late + {t}; }
      OnlyNewThread(t);
      ClosingStill(t);
      RegisteredWithThread(t, x);
    }

    twostate lemma ClosingStill(new t: Thread)
      requires old(ClosingMatches()) && threads == old(threads) + {t} && t !in closing && closing == old(closing)
      requires current == old(current) && owed == old(owed) && t.state == Created && t.called == 0
      requires forall u | u in old(threads) :: unchanged(u`state, u`called, u`cleanupQueue)
      ensures ClosingMatches()
    {
    }

    twostate lemma OnlyNewThread(new t: Thread)
      requires old(Coherent(Memory())) && t !in old(threads) && threads == old(threads) + {t}
      requires events == old(events) && DataOf(t) == NEW_DATA
      requires forall u | u in old(threads) :: DataOf(u) == old(DataOf(u))
      requires forall e | e in events :: unchanged(e`slots)
      ensures Coherent(Memory()) && Memory() == old(Memory()).(td := old(Memory()).td[t := NEW_DATA])
    {
      hide Coherent, Enrolled;
      assert Memory().td == old(Memory()).td[t := DataOf(t)];
      assert Memory().slots == old(Memory()).slots;
      NewThreadCoherent(old(Memory()), t, DataOf(t));
    }

    twostate lemma RegisteredWithUser(new x: CleanupEntry)
      requires old(Registered()) && threads == old(threads) && events == old(events) && late == old(late)
      requires Prepended(x) && x !in old(cleanup) && x !in leaked && x.target.OfUser? && !x.cancel
      requires forall t | t in threads :: unchanged(t`cleanupSelf, t`state)
      requires forall e | e in events :: unchanged(e`cleanupSelf)
      requires forall y | y in old(cleanup) || y in leaked :: unchanged(y)
      ensures Registered() && CleanupGrewBy(x)
    {
      AheadAdded(old(cleanup), old(added), cleanup, added, reached, ending, x);
      forall t | t in threads ensures EntryOf(t) { assert old(EntryOf(t)); }
      forall e | e in events ensures EntryOfEvent(e) { assert old(EntryOfEvent(e)); }
      forall y | y in cleanup && Ahead(cleanup, added, reached, y) && !y.cancel ensures TargetLive(y) {
        assert y != x ==> old(TargetLive(y));
      }
    }

    /** `stimc_cleanup_add` as `stimc_module_init` and the registration of callbacks use it: an entry
        that belongs to no thread and no event and is never canceled. */
    method RegisterCleanup() returns (x: CleanupEntry)
      requires Valid()
      modifies `cleanup, `added
      ensures Valid() && Abs() == old(Abs()) && log == old(log)
      ensures fresh(x) && CleanupGrewBy(x) && CleanupGrew() && x.target == OfUser && !x.cancel
    {
      hide Coherent, Enrolled, Reaches, Views, Registered, ClosingMatches, Memory;
      x := new CleanupEntry();
      AddUser(x);
    }

    method AddUser(x: CleanupEntry)
      requires Registered() && x !in cleanup && x !in leaked && x.target == OfUser && !x.cancel
      modifies `cleanup, `added
      ensures Registered() && CleanupGrewBy(x)
    {
      hide Registered;
      cleanup := [x] + cleanup;
      if ending { added := added + 1; }
      RegisteredWithUser(x);
    }

    /** `stimc_spawn_thread` */
    method SpawnThread() returns (t: Thread)
      requires Valid()
      modifies `threads, `cleanup, `added, `late, `mainQueue, `log
      ensures Valid() && Did(Spawn(t)) && fresh(t) && threads == old(threads) + {t}
      ensures CleanupGrew() && cleanup == [t.cleanupSelf] + old(cleanup)
      ensures t.cleanupSelf.target == OfThread(t) && !t.cleanupSelf.cancel
    {
      hide Coherent, Enrolled, Reaches, Views, Registered, ClosingMatches, Enabled, Step, Memory;
      ghost var m, s0 := Memory(), Abs();
      LiveHandles();
      t := CreateThread();
      mainQueue := mainQueue + [t];
      assert Abs().ready == s0.ready + [t];
      SpawnStep(s0, m.td, t);
      Commit(s0, Spawn(t));
    }

    twostate lemma RegisteredWithEntry(e: Event, new x: CleanupEntry)
      requires old(Registered()) && threads == old(threads) && events == old(events) && late == old(late)
      requires e in events && e.cleanupSelf == x && old(e.cleanupSelf) == null
      requires Prepended(x) && x !in old(cleanup) && x !in leaked && x.target == OfEvent(e) && !x.cancel
      requires forall t | t in threads :: unchanged(t`cleanupSelf, t`state)
      requires forall y | y in events && y != e :: unchanged(y`cleanupSelf)
      requires forall y | y in old(cleanup) || y in leaked :: unchanged(y)
      ensures Registered() && CleanupGrewBy(x)
    {
      AheadAdded(old(cleanup), old(added), cleanup, added, reached, ending, x);
      forall t | t in threads ensures EntryOf(t) { assert old(EntryOf(t)); }
      forall y | y in events ensures EntryOfEvent(y) { assert y != e ==> old(EntryOfEvent(y)); }
      forall y | y in cleanup && Ahead(cleanup, added, reached, y) && !y.cancel ensures TargetLive(y) {
        assert y != x ==> old(TargetLive(y));
      }
    }

    /** The event has an entry: the one it had, or a new one in front of the list. */
    twostate predicate RegisteredFirst(e: Event)
      reads `cleanup, e`cleanupSelf
    {
      && e.cleanupSelf != null
      && if old(e.cleanupSelf) == null then cleanup == [e.cleanupSelf] + old(cleanup)
         else e.cleanupSelf == old(e.cleanupSelf) && cleanup == old(cleanup)
    }

    static predicate Ends(list: seq<CleanupEntry>, end: seq<CleanupEntry>) {
      |end| <= |list| && list[|list| - |end|..] == end
    }

    static lemma EndsReflexive(list: seq<CleanupEntry>)
      ensures Ends(list, list)
    {
    }

    static lemma EndsTransitive(list: seq<CleanupEntry>, middle: seq<CleanupEntry>, end: seq<CleanupEntry>)
      requires Ends(list, middle) && Ends(middle, end)
      ensures Ends(list, end)
    {
    }

    /** Some entries have been put in front of the list. */
    twostate predicate GrownInFront()
      reads `cleanup
    {
      Ends(cleanup, old(cleanup))
    }

    /** The first wait on an event registers the event for cleanup. */
    method RegisterEvent(e: Event)
      requires Registered() && e in events
      modifies `cleanup, `added, e`cleanupSelf
      ensures Registered() && e.cleanupSelf != null
      ensures CleanupGrew() && RegisteredFirst(e)
    {
      hide Registered;
      if e.cleanupSelf == null {
        var x := new CleanupEntry();
        x.target := OfEvent(e);
        AddEntry(e, x);
      }
    }

    method AddEntry(e: Event, x: CleanupEntry)
      requires Registered() && e in events && e.cleanupSelf == null
      requires x !in cleanup && x !in leaked && x.target == OfEvent(e) && !x.cancel
      modifies `cleanup, `added, e`cleanupSelf
      ensures Registered() && e.cleanupSelf == x && CleanupGrewBy(x)
    {
      hide Registered;
      e.cleanupSelf, cleanup := x, [x] + cleanup;
      if ending { added := added + 1; }
      RegisteredWithEntry(e, x);
    }

    /** `stimc_event_enqueue_thread` */
    method EnqueueThread(e: Event, t: Thread)
      requires Coherent(Memory()) && Registered() && Enrolled() && e in events && t in threads
      modifies `cleanup, `added, e`cleanupSelf, e`slots, t`handles
      ensures Coherent(Memory()) && Registered() && Enrolled() && e.cleanupSelf != null
      ensures Memory().td == old(Memory()).td[t := old(Memory()).td[t].(handles := t.handles)]
      ensures Awaited(t.handles) == Awaited(old(t.handles)) + {e}
      ensures CleanupGrew() && RegisteredFirst(e) && GrownInFront()
    {
      hide Coherent, Enrolled, Registered, Awaited, Memory;
      RegisterEvent(e);
      AppendWaiter(e, t);
      EnrolledWith(e);
    }

    twostate lemma EnrolledWith(e: Event)
      requires old(Enrolled()) && events == old(events) && e.cleanupSelf != null
      requires forall x | x in events && x != e :: unchanged(x`slots) && unchanged(x`cleanupSelf)
      ensures Enrolled()
    {
    }

    /** The thread takes a new slot of the event and remembers its index. */
    method AppendWaiter(e: Event, t: Thread)
      requires Coherent(Memory()) && e in events && t in threads
      modifies e`slots, t`handles
      ensures Coherent(Memory())
      ensures Memory().td == old(Memory()).td[t := old(Memory()).td[t].(handles := t.handles)]
      ensures Awaited(t.handles) == Awaited(old(t.handles)) + {e}
    {
      hide Coherent, Enrolled, Awaited, Memory;
      ghost var m := Memory();
      LiveData(t);
      LiveSlots(e);
      EnqueueCoherent(m, t, e);
      var idx := |e.slots|;
      TakeSlot(e, t);
      label L:
      t.handles := t.handles + [Handle(e, idx)];
      OnlyThread@L(t);
      assert Memory() == Enqueue(m, t, e);
    }

    lemma LiveSlots(e: Event)
      requires e in events
      ensures e in Memory().slots && Memory().slots[e] == e.slots
    {
    }

    method TakeSlot(e: Event, t: Thread)
      requires e in events
      modifies e`slots
      ensures e.slots == old(e.slots) + [t]
      ensures var m := old(Memory()); Memory() == m.(slots := m.slots[e := e.slots])
    {
      e.slots := e.slots + [t];
      assert Memory().slots == old(Memory()).slots[e := e.slots];
      assert Memory().td == old(Memory()).td;
    }

    /** `stimc_event_combination_clear`, with the new mode: a list cleared here must be empty already,
        because the slots are not visited. */
    method ClearCombination(t: Thread, any: bool)
      requires Coherent(Memory()) && t in threads && t.handles == []
      modifies t`handles, t`any
      ensures Coherent(Memory()) && t.handles == []
      ensures Memory().td == old(Memory()).td[t := old(Memory()).td[t].(any := any)]
    {
      t.handles := [];
      t.any := any;
      OnlyData(t);
    }

    /** The same with the mode as it is. */
    method ClearOnly(t: Thread)
      requires Coherent(Memory()) && t in threads && t.handles == []
      modifies t`handles, t`any
      ensures Coherent(Memory()) && t.handles == [] && Memory().td == old(Memory()).td
    {
      hide Coherent;
      ClearCombination(t, t.any);
    }

    static lemma NoMembers()
      ensures Members([]) == {}
    {
    }

    static lemma MembersSnoc(es: seq<Event>, i: nat)
      requires i < |es|
      ensures Members(es[..i + 1]) == Members(es[..i]) + {es[i]}
    {
    }

    /** `stimc_event_combination_enqueue_thread`; the list is cleared without visiting any slot. */
    method EnqueueCombination(t: Thread, any: bool, es: seq<Event>)
      requires Coherent(Memory()) && Registered() && Enrolled() && t in threads
      requires t.handles == [] && forall e | e in es :: e in events
      modifies `cleanup, `added, events`cleanupSelf, events`slots, t`handles, t`any
      ensures Coherent(Memory()) && Registered() && Enrolled() && forall e | e in es :: e.cleanupSelf != null
      ensures Memory().td == old(Memory()).td[t := old(Memory()).td[t].(handles := t.handles, any := any)]
      ensures Awaited(t.handles) == Members(es)
      ensures CleanupGrew() && GrownInFront()
    {
      hide Registered, Enrolled, Coherent, Members, Awaited, Memory, Ends, RegisteredFirst;
      ghost var m, list := Memory(), cleanup;
      LiveData(t);
      NoMembers();
      AwaitedNone(t.handles);
      ClearCombination(t, any);
      EndsReflexive(list);
      var i := 0;
      while i < |es|
        invariant i <= |es| && Coherent(Memory()) && Registered() && Enrolled()
        invariant forall k :: 0 <= k < i ==> es[k].cleanupSelf != null
        invariant Ends(cleanup, list)
        invariant Memory().td == m.td[t := m.td[t].(handles := t.handles, any := any)]
        invariant Awaited(t.handles) == Members(es[..i])
        invariant CleanupGrew()
      {
        MembersSnoc(es, i);
        ghost var d := Memory().td[t];
        ghost var list0 := cleanup;
        EnqueueThread(es[i], t);
        EndsTransitive(cleanup, list0, list);
        UpdatedTwice(m.td, t, d, d.(handles := t.handles));
        i := i + 1;
      }
      assert es[..i] == es;
    }

    /** `stimc_suspend`: control returns to the kernel, which clears stimc_current_thread. With it the
        step a, begun in state s0, is complete. */
    method Suspend(ghost s0: Sys, ghost a: Action)
      requires next <= |shadowQueue| && Coherent(Memory()) && Registered() && Enrolled() && ClosingMatches()
      requires Reaches(log, s0) && Enabled(s0, a) && Abs().(current := null) == Step(s0, a)
      modifies `current, `log
      ensures Valid() && Abs() == Step(s0, a) && log == old(log) + [a] && current == null
    {
      hide Coherent, Enrolled, Registered, ClosingMatches, Reaches, Enabled, Step, Views, Memory, Inv;
      Advance(log, s0, a);
      ClearCurrent();
      log := log + [a];
    }

    method ClearCurrent()
      requires ClosingMatches()
      modifies `current
      ensures ClosingMatches() && current == null
    {
      current := null;
    }

    /** The list is cleared, then the event appended. */
    method EnqueueOnly(e: Event, t: Thread)
      requires Coherent(Memory()) && Registered() && Enrolled() && e in events && t in threads && t.handles == []
      modifies `cleanup, `added, e`cleanupSelf, e`slots, t`handles, t`any
      ensures Coherent(Memory()) && Registered() && Enrolled() && e.cleanupSelf != null
      ensures Memory().td == old(Memory()).td[t := old(Memory()).td[t].(handles := t.handles)]
      ensures Awaited(t.handles) == {e}
      ensures CleanupGrew() && RegisteredFirst(e)
    {
      hide Coherent, Enrolled, Registered, Awaited, Memory;
      AwaitedNone(t.handles);
      ClearOnly(t);
      EnqueueThread(e, t);
    }

    /** `stimc_wait_event` */
    method WaitEvent(e: Event)
      requires Valid() && e in events && current != null && (ending ==> IsFree(current))
      modifies `cleanup, `added, `current, `log, threads`handles, threads`any, e`slots, e`cleanupSelf
      ensures Valid() && Did(WaitOne(e, false)) && CleanupGrew() && current == null && RegisteredFirst(e)
    {
      hide Coherent, Enrolled, Reaches, Registered, ClosingMatches, Views, Enabled, Step, Inv, Awaited;
      hide Memory, Abs, CleanupGrew, RegisteredFirst;
      var t := current;
      ghost var m, s0 := Memory(), Abs();
      CurrentIdle();
      EnqueueOnly(e, t);
      OnlyViews();
      WaitOneStep(s0, m.td, Memory().td[t], e, false);
      Suspend(s0, WaitOne(e, false));
    }

    /** The thread is in no event's queue and has no timer. Outside the teardown this holds of every
        running thread. A thread that is resumed by the teardown in the middle of a wait must not wait
        again: its list would be cleared with its old slots still in use. */
    predicate IsFree(t: Thread)
      reads t`handles, t`timer
    {
      t.handles == [] && !t.timer
    }

    /** A change to threads and slots only, seen from outside. */
    twostate lemma OnlyViews()
      requires events == old(events) && mainQueue == old(mainQueue) && shadowQueue == old(shadowQueue)
      requires next == old(next) && current == old(current) && finishPending == old(finishPending)
      requires ending == old(ending) && owed == old(owed) && gone == old(gone)
      requires late == old(late) && lost == old(lost) && freed == old(freed)
      ensures Abs() == old(Abs()).(views := Views(Memory().td))
    {
    }

    lemma CurrentIdle()
      requires Reaches(log, Abs()) && current != null && (ending ==> IsFree(current))
      ensures current in threads && IsFree(current)
      ensures MayWait(Abs()) && current in Memory().td && !Memory().td[current].timer
      ensures Abs().current == current && Abs().views == Views(Memory().td) && Abs().events == events
    {
      if !ending { CurrentIsIdle(Abs(), Memory().td); }
      IdleMayWait(Abs(), Memory().td);
    }

    /** The step a, begun in state s0, is complete. */
    ghost method Commit(s0: Sys, a: Action)
      requires next <= |shadowQueue| && Coherent(Memory()) && Registered() && Enrolled() && ClosingMatches()
      requires Reaches(log, s0) && Enabled(s0, a) && Abs() == Step(s0, a)
      modifies `log
      ensures Valid() && Abs() == Step(s0, a) && log == old(log) + [a]
    {
      hide Coherent, Enrolled, Registered, ClosingMatches, Reaches, Enabled, Step, Memory;
      Advance(log, s0, a);
      log := log + [a];
    }

    /** `stimc_wait_event_combination`; a consumed combination is freed by the caller's wrapper. */
    method WaitCombination(any: bool, es: seq<Event>)
      requires Valid() && current != null && (ending ==> IsFree(current)) && forall e | e in es :: e in events
      modifies `cleanup, `added, `current, `log, threads`handles, threads`any, events`slots, events`cleanupSelf
      ensures Valid() && Did(WaitMany(es, any, false)) && CleanupGrew() && current == null
      ensures GrownInFront() && forall e | e in es :: e.cleanupSelf != null
    {
      hide Coherent, Enrolled, Reaches, Registered, ClosingMatches, Views, Enabled, Step, Inv, Awaited, Members, Memory;
      hide Abs, CleanupGrew;
      var t := current;
      ghost var m, s0 := Memory(), Abs();
      CurrentIdle();
      EnqueueCombination(t, any, es);
      OnlyViews();
      WaitManyStep(s0, m.td, Memory().td[t], es, any, false);
      Suspend(s0, WaitMany(es, any, false));
    }

    /** The start of a timed event wait: the timeout flag is reset. */
    method ResetTimeout(t: Thread)
      requires Coherent(Memory()) && t in threads
      modifies t`timeout
      ensures Coherent(Memory())
      ensures Memory().td == old(Memory()).td[t := old(Memory()).td[t].(timeout := false)]
    {
      t.timeout := false;
      OnlyData(t);
    }

    /** `stimc_wait_time_int_exp` up to the suspension: the delay callback is registered. */
    method ArmTimer(t: Thread)
      requires Coherent(Memory()) && t in threads
      modifies t`timer
      ensures Coherent(Memory())
      ensures Memory().td == old(Memory()).td[t := old(Memory()).td[t].(timer := true)]
    {
      t.timer := true;
      OnlyData(t);
    }

    method EnqueueArmed(e: Event, t: Thread)
      requires Coherent(Memory()) && Registered() && Enrolled() && e in events && t in threads && t.handles == []
      modifies `cleanup, `added, e`cleanupSelf, e`slots, t`handles, t`timer
      ensures Coherent(Memory()) && Registered() && Enrolled() && e.cleanupSelf != null
      ensures Memory().td == old(Memory()).td[t := old(Memory()).td[t].(handles := t.handles, timer := true)]
      ensures Awaited(t.handles) == {e}
      ensures CleanupGrew() && RegisteredFirst(e)
    {
      hide Coherent, Enrolled, Registered, Awaited, Memory, RegisteredFirst;
      LiveData(t);
      ghost var td, d := Memory().td, Memory().td[t];
      AwaitedNone(t.handles);
      EnqueueThread(e, t);
      ArmTimer(t);
      UpdatedTwice(td, t, d.(handles := t.handles), d.(handles := t.handles, timer := true));
    }

    /** The part of `stimc_wait_event_timeout` before the suspension; the handle list is not cleared. */
    method EnqueueTimed(e: Event, t: Thread)
      requires Coherent(Memory()) && Registered() && Enrolled() && e in events && t in threads && t.handles == []
      modifies `cleanup, `added, e`cleanupSelf, e`slots, t`handles, t`timer, t`timeout
      ensures Coherent(Memory()) && Registered() && Enrolled() && e.cleanupSelf != null
      ensures var td := old(Memory()).td;
        Memory().td == td[t := td[t].(handles := t.handles, timer := true, timeout := false)]
      ensures Awaited(t.handles) == {e}
      ensures CleanupGrew() && RegisteredFirst(e)
    {
      hide Coherent, Enrolled, Registered, Awaited, Memory;
      LiveData(t);
      ghost var td, d := Memory().td, Memory().td[t];
      ResetTimeout(t);
      EnqueueArmed(e, t);
      UpdatedTwice(td, t, d.(timeout := false), d.(timeout := false, handles := t.handles, timer := true));
    }

    /** `stimc_wait_event_timeout` */
    method WaitEventTimeout(e: Event)
      requires Valid() && e in events && current != null && (ending ==> IsFree(current))
      modifies `cleanup, `added, `current, `log
      modifies threads`handles, threads`timer, threads`timeout, e`slots, e`cleanupSelf
      ensures Valid() && Did(WaitOne(e, true)) && CleanupGrew() && current == null && RegisteredFirst(e)
    {
      hide Coherent, Enrolled, Reaches, Registered, ClosingMatches, Views, Enabled, Step, Inv, Awaited;
      hide Memory, Abs, CleanupGrew, RegisteredFirst;
      var t := current;
      ghost var m, s0 := Memory(), Abs();
      CurrentIdle();
      EnqueueTimed(e, t);
      OnlyViews();
      WaitOneStep(s0, m.td, Memory().td[t], e, true);
      Suspend(s0, WaitOne(e, true));
    }

    method EnqueueCombinationTimed(t: Thread, any: bool, es: seq<Event>)
      requires Coherent(Memory()) && Registered() && Enrolled() && t in threads
      requires t.handles == [] && forall e | e in es :: e in events
      modifies `cleanup, `added, events`cleanupSelf, events`slots, t`handles, t`any, t`timer, t`timeout
      ensures Coherent(Memory()) && Registered() && Enrolled() && forall e | e in es :: e.cleanupSelf != null
      ensures Memory().td == old(Memory()).td[t :=
        old(Memory()).td[t].(handles := t.handles, any := any, timer := true, timeout := false)]
      ensures Awaited(t.handles) == Members(es)
      ensures CleanupGrew() && GrownInFront()
    {
      hide Coherent, Enrolled, Registered, Members, Awaited, Memory;
      LiveData(t);
      ghost var td, d := Memory().td, Memory().td[t];
      ResetTimeout(t);
      EnqueueCombination(t, any, es);
      ArmTimer(t);
      ghost var d2 := d.(timeout := false, handles := t.handles, any := any);
      UpdatedTwice(td, t, d.(timeout := false), d2);
      UpdatedTwice(td, t, d2, d2.(timer := true));
    }

    /** `stimc_wait_event_combination_timeout` */
    method WaitCombinationTimeout(any: bool, es: seq<Event>)
      requires Valid() && current != null && (ending ==> IsFree(current)) && forall e | e in es :: e in events
      modifies `cleanup, `added, `current, `log
      modifies threads`handles, threads`any, threads`timer, threads`timeout, events`slots, events`cleanupSelf
      ensures Valid() && Did(WaitMany(es, any, true)) && CleanupGrew() && current == null
      ensures GrownInFront() && forall e | e in es :: e.cleanupSelf != null
    {
      hide Coherent, Enrolled, Reaches, Registered, ClosingMatches, Abs, Enabled, Step, CleanupGrew, Memory;
      ghost var s0 := Abs();
      EnterWait(any, es);
      Suspend(s0, WaitMany(es, any, true));
    }

    /** The same up to the suspension. */
    method EnterWait(any: bool, es: seq<Event>)
      requires Valid() && current != null && (ending ==> IsFree(current)) && forall e | e in es :: e in events
      modifies `cleanup, `added
      modifies threads`handles, threads`any, threads`timer, threads`timeout, events`slots, events`cleanupSelf
      ensures Coherent(Memory()) && Registered() && Enrolled() && ClosingMatches() && CleanupGrew()
      ensures GrownInFront() && forall e | e in es :: e.cleanupSelf != null
      ensures var s0, a := old(Abs()), WaitMany(es, any, true);
        Enabled(s0, a) && Abs().(current := null) == Step(s0, a)
    {
      hide Coherent, Enrolled, Reaches, Registered, ClosingMatches, Views, Enabled, Step, Inv, Awaited, Members, Memory;
      hide Abs, CleanupGrew;
      var t := current;
      ghost var m, s0 := Memory(), Abs();
      CurrentIdle();
      EnqueueCombinationTimed(t, any, es);
      OnlyViews();
      WaitManyStep(s0, m.td, Memory().td[t], es, any, true);
    }

    /** `stimc_wait_time` */
    method WaitTime()
      requires Valid() && current != null && (ending ==> IsFree(current))
      modifies `current, `log, threads`timer
      ensures Valid() && Did(Sleep) && current == null
    {
      hide Coherent, Enrolled, Reaches, Registered, ClosingMatches, Views, Enabled, Step, Inv, Awaited;
      hide Memory, Abs, CleanupGrew;
      var t := current;
      ghost var m, s0 := Memory(), Abs();
      CurrentIdle();
      ArmTimer(t);
      OnlyViews();
      SleepStep(s0, m.td, Memory().td[t]);
      Suspend(s0, Sleep);
    }

    // -------------------------------------------------------------------------------------------
    // Leaving the thread function

    twostate lemma RegisteredStill()
      requires old(Registered()) && threads == old(threads) && events == old(events) && SameList()
      requires forall t | t in threads :: unchanged(t`cleanupSelf) && (t.state == Cleanup <==> old(t.state) == Cleanup)
      requires forall e | e in events :: unchanged(e`cleanupSelf)
      requires forall x | x in cleanup || x in leaked :: unchanged(x)
      ensures Registered()
    {
      forall t | t in threads ensures EntryOf(t) { assert old(EntryOf(t)); }
      forall e | e in events ensures EntryOfEvent(e) { assert old(EntryOfEvent(e)); }
      forall x | x in cleanup && Ahead(cleanup, added, reached, x) && !x.cancel ensures TargetLive(x) {
        assert old(TargetLive(x));
      }
    }

    /** `if (state < st) state = st` */
    method RaiseState(t: Thread, st: ThreadState)
      requires Coherent(Memory()) && Registered() && ClosingMatches() && t in threads && st != Cleanup
      modifies t`state
      ensures Coherent(Memory()) && Registered() && ClosingMatches() && t.state == old(t.state).Raise(st)
      ensures var td := old(Memory()).td;
        Memory().td == td[t := td[t].(state := td[t].state.Raise(st))]
    {
      hide Coherent, Enrolled, Registered, Memory;
      RaiseField(t, st);
      RegisteredStill();
    }

    method RaiseField(t: Thread, st: ThreadState)
      requires Coherent(Memory()) && t in threads
      modifies t`state
      ensures Coherent(Memory()) && t.state == old(t.state).Raise(st)
      ensures var td := old(Memory()).td;
        Memory().td == td[t := td[t].(state := td[t].state.Raise(st))]
    {
      hide Coherent, Enrolled;
      if t.state.Rank() < st.Rank() {
        t.state := st;
      }
      OnlyData(t);
    }

    lemma CurrentLive()
      requires Reaches(log, Abs()) && current != null
      ensures current in threads && Inv(Abs()) && current in Memory().td
      ensures current.state == Running || current.state == Cleanup
    {
    }

    /** The thread that ran has come to this state, unless this was its final resume. */
    twostate predicate Left(t: Thread, st: ThreadState)
      reads t`state
    {
      (old(t.state) == Running && t.state == st) || (old(t.state) == Cleanup && t.state == Cleanup)
    }

    /** `stimc_thread_halt` */
    method ThreadHalt()
      requires Valid() && current != null
      modifies `current, `log, threads`state
      ensures Valid() && Did(Halt) && current == null && Left(old(current), Stopped)
    {
      hide Coherent, Enrolled, Reaches, Registered, ClosingMatches, Views, Enabled, Step, Inv, Memory;
      ghost var m, s0 := Memory(), Abs();
      CurrentLive();
      RaiseState(current, Stopped);
      LeaveStep(s0, m.td, Halt, Stopped);
      Suspend(s0, Halt);
    }

    /** `stimc_thread_exit` */
    method ThreadExit()
      requires Valid() && current != null
      modifies `current, `log, threads`state
      ensures Valid() && Did(Exit) && current == null && Left(old(current), StoppedToFinish)
    {
      hide Coherent, Enrolled, Reaches, Registered, ClosingMatches, Views, Enabled, Step, Inv, Memory;
      ghost var m, s0 := Memory(), Abs();
      CurrentLive();
      RaiseState(current, StoppedToFinish);
      LeaveStep(s0, m.td, Exit, StoppedToFinish);
      Suspend(s0, Exit);
    }

    /** The end of `stimc_thread_wrap`, when the thread function has returned. */
    method ThreadReturn()
      requires Valid() && current != null
      modifies `current, `log, threads`state
      ensures Valid() && Did(Return) && current == null && Left(old(current), Finished)
    {
      hide Coherent, Enrolled, Reaches, Registered, ClosingMatches, Views, Enabled, Step, Inv, Memory;
      ghost var m, s0 := Memory(), Abs();
      CurrentLive();
      RaiseState(current, Finished);
      LeaveStep(s0, m.td, Return, Finished);
      Suspend(s0, Return);
    }

    /** `stimc_finish` called from a thread; from the simulator it only asks the simulator to stop. */
    method FinishSimulation()
      requires Valid()
      modifies `current, `finishPending, `asked, `log, threads`state
      ensures Valid()
      ensures current == null
      ensures old(current) != null ==> Did(Finish) && finishPending && asked == old(asked)
      ensures old(current) != null ==> Left(old(current), StoppedToFinish)
      ensures old(current) == null ==> Abs() == old(Abs()) && log == old(log) && asked
    {
      hide Coherent, Enrolled, Reaches, Registered, ClosingMatches, Views, Inv, Memory, Enabled, Step;
      if current == null {
        asked := true;
      } else {
        FinishFromThread();
      }
    }

    method FinishFromThread()
      requires Valid() && current != null
      modifies `current, `finishPending, `log, threads`state
      ensures Valid() && Did(Finish) && current == null && finishPending && Left(old(current), StoppedToFinish)
    {
      hide Coherent, Enrolled, Reaches, Registered, ClosingMatches, Views, Enabled, Step, Inv, Memory;
      ghost var m, s0 := Memory(), Abs();
      CurrentLive();
      RaiseState(current, StoppedToFinish);
      finishPending := true;
      FinishStep(s0, m.td);
      Suspend(s0, Finish);
    }

    /** `stimc_thread_resume_on_finish` */
    method ResumeOnFinish(on: bool)
      requires Valid() && current != null
      modifies `log, threads`resumeOnFinish
      ensures Valid() && Did(SetResume(on)) && current.resumeOnFinish == on
    {
      hide Coherent, Enrolled, Reaches, Registered, ClosingMatches, Views, Enabled, Step, Inv;
      ghost var m, s0 := Memory(), Abs();
      CurrentLive();
      StoreResume(current, on);
      SetResumeStep(s0, m.td, on);
      Commit(s0, SetResume(on));
    }

    /** `stimc_thread_is_finished` */
    method ThreadIsFinished() returns (r: bool)
      requires Valid() && current != null
      ensures current in Abs().views && (r <==> IsFinished(Abs().views[current]))
      ensures r <==> current.state != Created && current.state != Running
    {
      hide Coherent, Enrolled, Registered, ClosingMatches;
      CurrentLive();
      r := current.state.Rank() >= Stopped.Rank();
    }

    /** `stimc_wait_timed_out`, and what the timed event waits return */
    method WaitTimedOut() returns (r: bool)
      requires Valid() && current != null
      ensures current in Abs().views && r == Abs().views[current].timedOut
    {
      hide Coherent, Enrolled, Registered, ClosingMatches;
      CurrentLive();
      r := current.timeout;
    }

    /** `stimc_register_thread_cleanup` */
    method RegisterThreadCleanup(cb: nat)
      requires Valid() && current != null
      modifies `log, threads`cleanupQueue
      ensures Valid() && Did(AddCleanup(cb))
      ensures forall t | t in threads && t != current :: t.cleanupQueue == old(t.cleanupQueue)
    {
      hide Coherent, Enrolled, Reaches, Registered, Views, Enabled, Step, Inv, Memory;
      ghost var m, s0 := Memory(), Abs();
      CurrentLive();
      NotCalled(current);
      StoreCleanupCallback(current, cb);
      AddCleanupStep(s0, m.td, cb);
      Commit(s0, AddCleanup(cb));
    }

    lemma NotCalled(t: Thread)
      requires ClosingMatches() && t in threads && (t == current || t in owed || t.state != Cleanup)
      ensures t.called == 0 && t.cleanupQueue[0..] == t.cleanupQueue
    {
    }

    method StoreCleanupCallback(t: Thread, cb: nat)
      requires Coherent(Memory()) && t in threads && t.called == 0 && t.cleanupQueue[0..] == t.cleanupQueue
      modifies t`cleanupQueue
      ensures Coherent(Memory())
      ensures var td := old(Memory()).td; Memory().td == td[t := td[t].(cleanups := [cb] + td[t].cleanups)]
    {
      t.cleanupQueue := [cb] + t.cleanupQueue;
      OnlyData(t);
    }

    method StoreResume(t: Thread, on: bool)
      requires Coherent(Memory()) && t in threads
      modifies t`resumeOnFinish
      ensures Coherent(Memory())
      ensures Memory().td == old(Memory()).td[t := old(Memory()).td[t].(resumeOnFinish := on)]
    {
      t.resumeOnFinish := on;
      OnlyData(t);
    }

    // -------------------------------------------------------------------------------------------
    // Timeouts

    lemma LiveData(t: Thread)
      requires t in threads
      ensures t in Memory().td && Memory().td[t] == DataOf(t)
    {
    }

    /** The delay is over. A thread that is still in some event's queue has not been woken by one. */
    method MarkExpired(t: Thread)
      requires t in threads
      modifies t`timer, t`timeout
      ensures var m, d := old(Memory()), old(Memory()).td[t];
        Memory() == m.(td := m.td[t := d.(timer := false, timeout := d.timeout || d.handles != [])])
    {
      t.timer := false;
      if |t.handles| > 0 {
        t.timeout := true;
      }
      OnlyThread(t);
    }

    /** The state changes of `stimc_thread_callback_wrapper`. */
    method ExpireTimer(t: Thread)
      requires Coherent(Memory()) && t in threads
      modifies `mainQueue, t`timer, t`timeout, t`handles, events`slots
      ensures Coherent(Memory()) && mainQueue == old(mainQueue) + [t] && NoNewWaiters()
      ensures var td, d := old(Memory()).td, old(Memory()).td[t];
        Memory().td == td[t := d.(handles := [], timer := false, timeout := d.timeout || d.handles != [])]
    {
      hide Coherent, Enrolled, ClearSlots;
      ghost var m := Memory();
      HandlesNameSlots(m, t);
      mainQueue := mainQueue + [t];
      MarkExpired(t);
      ghost var d := Memory().td[t];
      TakeOut(t);
      ExpiredCoherent(m, t, d);
    }

    /** `stimc_thread_callback_wrapper` up to the run of the main queue: the timed thread leaves all
        queues and is ready; it timed out iff it still waited for an event. */
    method TimerCallback(t: Thread)
      requires Valid() && t in threads && t.timer && current == null && !ending && Swept(Abs())
      modifies `mainQueue, `log, t`timer, t`timeout, t`handles, events`slots
      ensures Valid() && Did(TimerFires(t))
    {
      hide Coherent, Enrolled, Reaches, Registered, ClosingMatches, Views, Enabled, Step, Memory;
      ghost var m, s0 := Memory(), Abs();
      LiveData(t);
      ExpireTimer(t);
      assert Registered() && ClosingMatches();
      StillEnrolled();
      TimerStep(s0, m.td, t);
      assert Abs().ready == s0.ready + [t];
      Commit(s0, TimerFires(t));
    }

    // -------------------------------------------------------------------------------------------
    // Running and finishing threads

    /** `stimc_run` up to the switch, with the assignment `stimc_thread_wrap` starts with when the
        thread function is entered for the first time. */
    method SwitchTo(t: Thread)
      requires Valid() && current == null && !ending && !finishPending && Swept(Abs())
      requires next < |shadowQueue| && shadowQueue[next] == t
      modifies `current, `next, `log, threads`state
      ensures Valid() && Did(Resume(t)) && next == old(next) + 1 && current == t && t.state == Running
    {
      hide Coherent, Enrolled, Reaches, Registered, ClosingMatches, Views, Enabled, Step, Memory;
      ghost var m, s0 := Memory(), Abs();
      ReadyLive(t);
      LiveData(t);
      EnterFunction(t);
      ResumeStep(s0, m.td, t);
      Commit(s0, Resume(t));
    }

    lemma ReadyLive(t: Thread)
      requires Reaches(log, Abs()) && !ending && next < |shadowQueue| && shadowQueue[next] == t
      ensures t in threads && (t.state == Created || t.state == Running)
      ensures Abs().ready != [] && Abs().ready[0] == t
      ensures Abs().ready[1..] == shadowQueue[next + 1..] + mainQueue
    {
      assert Abs().ready[0] == t && t in Abs().ready;
    }

    method EnterFunction(t: Thread)
      requires Coherent(Memory()) && Registered() && ClosingMatches() && t in threads && t.state != Cleanup
      modifies `current, `next, t`state
      ensures Coherent(Memory()) && Registered() && ClosingMatches()
      ensures current == t && next == old(next) + 1 && t.state == old(t.state).Raise(Running)
      ensures var td := old(Memory()).td;
        Memory().td == td[t := td[t].(state := td[t].state.Raise(Running))]
    {
      hide Coherent, Enrolled, Registered, ClosingMatches, Memory;
      TakeNext(t);
      RaiseState(t, Running);
    }

    method TakeNext(t: Thread)
      requires ClosingMatches() && t in threads && t.state != Cleanup
      modifies `current, `next
      ensures ClosingMatches() && current == t && next == old(next) + 1
    {
      next, current := next + 1, t;
    }

    twostate lemma RegisteredClosed(t: Thread)
      requires old(Registered()) && threads == old(threads) && events == old(events) && SameList() && t in threads
      requires t.state == Cleanup && t.cleanupSelf.cancel && unchanged(t`cleanupSelf)
      requires forall u | u in threads && u != t :: unchanged(u`cleanupSelf, u`state)
      requires forall e | e in events :: unchanged(e`cleanupSelf)
      requires forall x | x in cleanup :: unchanged(x`target) && (x != t.cleanupSelf ==> unchanged(x))
      requires forall x | x in leaked :: unchanged(x)
      ensures Registered()
    {
      assert old(EntryOf(t)) && t.cleanupSelf.target == OfThread(t);
      forall u | u in threads ensures EntryOf(u) { assert old(EntryOf(u)); }
      forall e | e in events ensures EntryOfEvent(e) { assert old(EntryOfEvent(e)); }
      forall x | x in cleanup && Ahead(cleanup, added, reached, x) && !x.cancel ensures TargetLive(x) {
        assert old(TargetLive(x));
      }
    }

    /** The first part of `stimc_thread_finish`: the cleanup entry is canceled, the state moves to
        CLEANUP, and it is decided whether the thread is resumed a last time. */
    method CloseThread(t: Thread) returns (finalResume: bool)
      requires Coherent(Memory()) && Registered() && ClosingMatches() && t in threads && t.state != Cleanup
      modifies `closing, `owed, t`state, cleanup`cancel
      ensures Coherent(Memory()) && Registered() && ClosingMatches() && closing == old(closing) + {t}
      ensures owed == if finalResume then old(owed) + {t} else old(owed)
      ensures finalResume <==> OwesResume(ViewOf(old(Memory()).td[t]))
      ensures Canceled(t.cleanupSelf)
      ensures var td := old(Memory()).td;
        Memory().td == td[t := td[t].(state := Cleanup)] && t.state == Cleanup
    {
      hide Coherent, Enrolled, Registered, Awaited, Memory, ClosingMatches, ClosingMatchesBut;
      LiveData(t);
      ClosingBut(t);
      finalResume := t.resumeOnFinish && Created.Rank() < t.state.Rank() < Finished.Rank();
      owed := if finalResume then owed + {t} else owed;
      MarkClosed(t);
    }

    method MarkClosed(t: Thread)
      requires Coherent(Memory()) && Registered() && ClosingMatchesBut(t, owed) && t in threads
      modifies `closing, t`state, cleanup`cancel
      ensures Coherent(Memory()) && Registered() && ClosingMatches() && t.state == Cleanup
      ensures closing == old(closing) + {t} && Canceled(t.cleanupSelf)
      ensures Memory().td == old(Memory()).td[t := old(Memory()).td[t].(state := Cleanup)]
    {
      hide Coherent, Enrolled, Registered, Memory;
      EntryListed(t);
      closing := closing + {t};
      t.cleanupSelf.cancel := true;
      StoreCleanup(t);
      RegisteredClosed(t);
    }

    /** A thread whose end has not begun has had no callback called, and may be owed a final resume. */
    lemma ClosingBut(t: Thread)
      requires ClosingMatches() && t in threads && t.state != Cleanup
      ensures ClosingMatchesBut(t, owed) && ClosingMatchesBut(t, owed + {t})
    {
    }

    /** ClosingMatches, while the end of t is being recorded; none of its callbacks has been called. */
    ghost predicate ClosingMatchesBut(t: Thread, owed: set<Thread>)
      reads `threads, `closing, `current, threads`state, threads`called, threads`cleanupQueue, t`called
    {
      && t.called == 0
      && forall u | u in threads ::
           && (u != t ==> (u.state == Cleanup <==> u in closing))
           && u.called <= |u.cleanupQueue|
           && (u.called > 0 ==> u.state == Cleanup && u !in owed && u != current)
    }

    method StoreCleanup(t: Thread)
      requires Coherent(Memory()) && t in threads
      modifies t`state
      ensures Coherent(Memory()) && t.state == Cleanup
      ensures Memory().td == old(Memory()).td[t := old(Memory()).td[t].(state := Cleanup)]
    {
      hide Coherent, Enrolled;
      t.state := Cleanup;
      OnlyData(t);
    }

    lemma EntryListed(t: Thread)
      requires Registered() && t in threads
      ensures t.cleanupSelf in cleanup && t.cleanupSelf.target == OfThread(t) && t.cleanupSelf !in leaked
    {
      assert EntryOf(t);
    }

    /** `t` may be finished: it is at its end, or the teardown has come to it. */
    predicate MayFinish(t: Thread)
      reads `threads, `current, t`state
    {
      current == null && t in threads && t.state != Cleanup
    }

    ghost predicate AtEnd(t: Thread)
      reads `ending, `late, t`state
    {
      if ending then t !in late else t.state == StoppedToFinish || t.state == Finished
    }

    method BeginFinish(t: Thread) returns (finalResume: bool)
      requires Valid() && MayFinish(t) && AtEnd(t)
      modifies `closing, `owed, `log, threads`state, cleanup`cancel
      ensures Valid() && Did(Close(t)) && closing == old(closing) + {t}
      ensures Canceled(t.cleanupSelf) && t.cleanupSelf in cleanup && t.cleanupSelf.target == OfThread(t)
      ensures owed == if finalResume then old(owed) + {t} else old(owed)
      ensures finalResume ==> t in owed
      ensures t.state == Cleanup
    {
      hide Coherent, Enrolled, Reaches, Registered, ClosingMatches, Views, Enabled, Step, ViewOf;
      hide OwesResume, Canceled, Memory;
      ghost var m, s0 := Memory(), Abs();
      LiveData(t);
      EntryListed(t);
      NotLate(t);
      finalResume := CloseThread(t);
      CloseStep(s0, m.td, t);
      Commit(s0, Close(t));
    }

    static lemma CloseCancels(t: Thread)
      ensures Cancels(Close(t), OfThread(t))
    {
    }

    lemma NotLate(t: Thread)
      requires Reaches(log, Abs()) && AtEnd(t)
      ensures t !in late
    {
      assert !ending ==> Abs().late == {};
    }

    twostate lemma RegisteredWithout(t: Thread)
      requires old(Registered()) && t in old(threads) && threads == old(threads) - {t} && old(t.state) == Cleanup
      requires t !in late && events == old(events) && SameList()
      requires forall u | u in threads :: unchanged(u`cleanupSelf, u`state)
      requires forall e | e in events :: unchanged(e`cleanupSelf)
      requires forall x | x in cleanup || x in leaked :: unchanged(x)
      ensures Registered()
    {
      assert old(EntryOf(t));
      forall u | u in threads ensures EntryOf(u) { assert old(EntryOf(u)); }
      forall e | e in events ensures EntryOfEvent(e) { assert old(EntryOfEvent(e)); }
      forall x | x in cleanup && Ahead(cleanup, added, reached, x) && !x.cancel ensures TargetLive(x) {
        assert old(TargetLive(x));
      }
    }

    /** `free (thread)`: the thread holds no handles any more. */
    method FreeThread(t: Thread)
      requires Coherent(Memory()) && Registered() && ClosingMatches()
      requires t in threads && t.state == Cleanup && t.handles == [] && t !in late
      modifies `threads, `gone, `closing
      ensures Coherent(Memory()) && Registered() && ClosingMatches() && threads == old(threads) - {t}
      ensures gone == old(gone) + {t} && closing == old(closing) - {t}
      ensures Memory().td == old(Memory()).td - {t}
    {
      hide Coherent, Enrolled, Registered;
      ghost var m := Memory();
      FreedCoherent(m, t);
      threads, gone, closing := threads - {t}, gone + {t}, closing - {t};
      assert Memory().td == m.td - {t};
      assert Memory().slots == m.slots;
      RegisteredWithout(t);
    }

    /** The thread leaves all queues it is in, and its timer is removed. */
    method LeaveQueues(t: Thread)
      requires Coherent(Memory()) && t in threads
      modifies t`handles, t`timer, events`slots
      ensures Coherent(Memory()) && t.handles == [] && !t.timer && NoNewWaiters()
      ensures Memory().td == old(Memory()).td[t := old(Memory()).td[t].(handles := [], timer := false)]
    {
      hide Coherent, Enrolled, ClearSlots;
      ghost var td := Memory().td;
      HandlesNameSlots(Memory(), t);
      LeaveAllCoherent(Memory(), t);
      TakeOut(t);
      ghost var d := Memory().td[t];
      RemoveTimer(t);
      UpdatedTwice(td, t, d, d.(timer := false));
    }

    method RemoveTimer(t: Thread)
      requires Coherent(Memory()) && t in threads
      modifies t`timer
      ensures Coherent(Memory()) && !t.timer
      ensures Memory().td == old(Memory()).td[t := old(Memory()).td[t].(timer := false)]
    {
      t.timer := false;
      OnlyData(t);
    }

    /** What is left of `stimc_thread_finish` when the final resume, if any, is over: first the timer and
        the event queues. */
    method UnhookThread(t: Thread)
      requires Valid() && current == null && t in threads && t.state == Cleanup && t !in owed
      modifies `log, t`handles, t`timer, events`slots
      ensures Valid() && Did(Unhook(t)) && t.handles == [] && !t.timer
    {
      hide Coherent, Enrolled, Reaches, Registered, ClosingMatches, Views, Enabled, Step, Memory;
      ghost var m, s0 := Memory(), Abs();
      LiveData(t);
      FreeIsNotWaiting(t);
      UnhookStep(s0, m.td, t);
      LeaveQueues(t);
      StillEnrolled();
      Commit(s0, Unhook(t));
    }

    /** The next of the thread's callbacks is due. */
    ghost method CallNext(t: Thread)
      requires Valid() && current == null && t in threads && t.state == Cleanup && t !in owed && IsFree(t)
      requires t.called < |t.cleanupQueue|
      modifies `log, t`called
      ensures Valid() && Did(CallCleanup(t, t.cleanupQueue[old(t.called)])) && t.called == old(t.called) + 1
    {
      hide Coherent, Enrolled, Reaches, Registered, Views, Enabled, Step, Memory;
      ghost var m, s0 := Memory(), Abs();
      LiveData(t);
      FreeIsNotWaiting(t);
      CalledStep(s0, m.td, t);
      CountCall(t);
      Commit(s0, CallCleanup(t, t.cleanupQueue[old(t.called)]));
    }

    ghost method CountCall(t: Thread)
      requires Coherent(Memory()) && t in threads && t.called < |t.cleanupQueue|
      modifies t`called
      ensures Coherent(Memory()) && t.called == old(t.called) + 1
      ensures var td := old(Memory()).td; Memory().td == td[t := td[t].(cleanups := td[t].cleanups[1..])]
    {
      ghost var n := t.called;
      t.called := n + 1;
      assert t.cleanupQueue[n + 1..] == t.cleanupQueue[n..][1..];
      OnlyData(t);
    }

    lemma FreeIsNotWaiting(t: Thread)
      requires t in threads
      ensures t in Abs().views && (IsFree(t) <==> !Waiting(Abs().views[t]))
      ensures Abs().views[t].state == t.state
    {
      AwaitedNone(t.handles);
    }

    /** The memory of the thread is given back. */
    method ReleaseThread(t: Thread)
      requires Valid() && current == null && t in threads && t.state == Cleanup && t !in owed && IsFree(t)
      requires t.called == |t.cleanupQueue|
      modifies `threads, `closing, `gone, `log
      ensures Valid() && Did(Release(t)) && closing == old(closing) - {t} && threads == old(threads) - {t}
    {
      hide Coherent, Enrolled, Reaches, Registered, ClosingMatches, Views, Enabled, Step, Memory;
      ghost var m, s0 := Memory(), Abs();
      LiveData(t);
      FreeIsNotWaiting(t);
      ReleaseStep(s0, m.td, t);
      EndedNotLate(t);
      FreeThread(t);
      Commit(s0, Release(t));
    }

    lemma EndedNotLate(t: Thread)
      requires Reaches(log, Abs()) && t in threads && t.state == Cleanup
      ensures t !in late
    {
      assert forall u | u in Abs().late :: Abs().views[u].state == Created;
      assert Abs().views[t].state == Cleanup;
    }

    // -------------------------------------------------------------------------------------------
    // Thread bodies and callbacks are the environment: any API calls in any number and order.

    /** Holds across any activity inside or outside a teardown: objects may be new or gone, the cleanup
        list is kept, and no batch or teardown moves on. */
    twostate predicate Going()
      reads this, cleanup
    {
      && (forall t | t in threads :: t in old(threads) || fresh(t))
      && (forall e | e in events :: e in old(events) || fresh(e))
      && CleanupGrew() && EntriesKept()
      && ending == old(ending) && reached == old(reached) && shadowQueue == old(shadowQueue) && leaked == old(leaked)
    }

    /** Code outside the kernel ran: it frees no thread and starts none, and it touches no other thread's
        list of callbacks. */
    twostate predicate OnlyCalls()
      reads this, cleanup, threads`called, threads`cleanupQueue
    {
      && Steady() && Going() && PlainSince(old(log), log, 0)
      && (forall t | t in old(threads) :: t in threads && t.called == old(t.called))
      && (forall t | t in old(threads) && t != old(current) :: t.cleanupQueue == old(t.cleanupQueue))
    }

    lemma ValidRun()
      requires Valid()
      ensures Exec(INIT, log) == At(Abs()) && Inv(Abs()) && Abs().current == current && Abs().ending == ending
      ensures Abs().finishPending == finishPending
      ensures current != null ==> current in threads && current in Abs().views
    {
    }

    /** No entry was canceled, none left the list. */
    twostate lemma NoneCanceled()
      requires CleanupGrew() && old(log) <= log
      requires forall x | x in old(cleanup) :: x.target == old(x.target) && x.cancel == old(x.cancel)
      ensures EntriesKept()
    {
    }

    /** The list of entries was not touched at all. */
    twostate lemma ListUntouched()
      requires cleanup == old(cleanup) && added == old(added) && ending == old(ending) && old(log) <= log
      requires forall x | x in cleanup :: unchanged(x)
      ensures CleanupGrew() && EntriesKept()
    {
    }

    /** What the step of a call means for the threads and the log. */
    twostate lemma Called(new a: Action)
      requires Inv(old(Abs())) && Did(a) && IsCall(a)
      ensures Undisturbed(old(Abs()), Abs()) && PlainSince(old(log), log, 0) && old(log) <= log
    {
      hide Abs, Step, Enabled, Inv, Undisturbed;
      CallStep(old(Abs()), a);
      PlainStep(old(log), a);
    }

    // Each call as the kernel's caller sees it.

    method CallCreate()
      requires Valid()
      modifies this, threads, events, leaked, set x | x in cleanup
      ensures Valid() && OnlyCalls() && Undisturbed(old(Abs()), Abs()) && current == old(current)
    {
      hide Valid, Abs, Did, Step, Enabled, Quiet, Undisturbed, EntriesKept, CleanupGrew, PlainSince;
      ValidRun();
      var e := EventCreate();
      Called(NewEvent(e));
      ListUntouched();
    }

    method CallFree(e: Event)
      requires Valid() && e in events
      modifies this, threads, events, leaked, set x | x in cleanup
      ensures Valid() && OnlyCalls() && Undisturbed(old(Abs()), Abs()) && current == old(current)
    {
      hide Valid, Abs, Did, Step, Enabled, Quiet, Undisturbed, EntriesKept, PlainSince;
      ValidRun();
      EventFree(e);
      Called(FreeEvent(e));
    }

    method CallTrigger(e: Event)
      requires Valid() && e in events && Quiet(Abs())
      modifies this, threads, events, leaked, set x | x in cleanup
      ensures Valid() && OnlyCalls() && Undisturbed(old(Abs()), Abs()) && current == old(current)
    {
      hide Valid, Abs, Did, Step, Enabled, Quiet, Undisturbed, EntriesKept, CleanupGrew, PlainSince, Subsequence;
      ValidRun();
      ghost var woken := TriggerEvent(e);
      Called(Trigger(e, woken));
      ListUntouched();
    }

    method CallSpawn()
      requires Valid()
      modifies this, threads, events, leaked, set x | x in cleanup
      ensures Valid() && OnlyCalls() && Undisturbed(old(Abs()), Abs()) && current == old(current)
    {
      hide Valid, Abs, Did, Step, Enabled, Quiet, Undisturbed, EntriesKept, CleanupGrew, PlainSince;
      ValidRun();
      var t := SpawnThread();
      Called(Spawn(t));
      NoneCanceled();
    }

    method CallResumeOnFinish(on: bool)
      requires Valid() && current != null
      modifies this, threads, events, leaked, set x | x in cleanup
      ensures Valid() && OnlyCalls() && Undisturbed(old(Abs()), Abs()) && current == old(current)
    {
      hide Valid, Abs, Did, Step, Enabled, Quiet, Undisturbed, EntriesKept, CleanupGrew, PlainSince;
      ValidRun();
      ResumeOnFinish(on);
      Called(SetResume(on));
      ListUntouched();
    }

    method CallRegister(cb: nat)
      requires Valid() && current != null
      modifies this, threads, events, leaked, set x | x in cleanup
      ensures Valid() && OnlyCalls() && Undisturbed(old(Abs()), Abs()) && current == old(current)
    {
      hide Valid, Abs, Did, Step, Enabled, Quiet, Undisturbed, EntriesKept, CleanupGrew, PlainSince;
      ValidRun();
      RegisterThreadCleanup(cb);
      Called(AddCleanup(cb));
      ListUntouched();
    }

    method CallRegisterUser()
      requires Valid()
      modifies this, threads, events, leaked, set x | x in cleanup
      ensures Valid() && OnlyCalls() && Undisturbed(old(Abs()), Abs()) && current == old(current)
    {
      hide Valid, Abs, Did, Step, Enabled, Quiet, Undisturbed, EntriesKept, CleanupGrew, PlainSince;
      ValidRun();
      var x := RegisterCleanup();
      UndisturbedReflexive(Abs());
      PlainReflexive(log);
      NoneCanceled();
    }

    /** A value change callback within a callback enters the main loop, and finds nothing to do. */
    method CallLoop()
      requires Valid() && (finishPending || mainQueue == [])
      modifies this, threads, events, leaked, set x | x in cleanup
      ensures Valid() && OnlyCalls() && Undisturbed(old(Abs()), Abs()) && current == old(current)
    {
      hide Valid, Abs, Did, Step, Enabled, Quiet, Undisturbed, EntriesKept, CleanupGrew, PlainSince;
      ValidRun();
      var first := EnterLoop();
      UndisturbedReflexive(Abs());
      PlainReflexive(log);
      ListUntouched();
    }

    /** One arbitrary API call that does not suspend. */
    method ApiCall()
      requires Valid() && Quiet(Abs())
      modifies this, threads, events, leaked, set x | x in cleanup
      ensures Valid() && OnlyCalls() && Undisturbed(old(Abs()), Abs()) && current == old(current)
    {
      hide *;
      var c: nat := *;
      if c == 0 {
        CallSpawn();
      } else if c == 1 && current != null {
        var on: bool := *;
        CallResumeOnFinish(on);
      } else if c == 2 && current != null {
        var cb: nat := *;
        CallRegister(cb);
      } else if c == 3 {
        CallRegisterUser();
      } else if c == 4 && events != {} {
        var e :| e in events;
        CallFree(e);
      } else if c == 5 && events != {} {
        var e :| e in events;
        CallTrigger(e);
      } else if c == 6 && (finishPending || |mainQueue| == 0) {
        CallLoop();
      } else {
        CallCreate();
      }
    }

    /** Any number of API calls. */
    method ApiCalls()
      requires Valid() && Quiet(Abs())
      modifies this, threads, events, leaked, set x | x in cleanup
      ensures Valid() && OnlyCalls() && Undisturbed(old(Abs()), Abs()) && current == old(current)
    {
      hide Valid, Abs, Quiet, Undisturbed, MarksKept, PlainSince;
      ghost var s0, l0, m0 := Abs(), log, Marks();
      var n: nat := *;
      ValidRun();
      UndisturbedReflexive(s0);
      PlainReflexive(l0);
      MarksSame(m0, l0, l0);
      while n > 0
        invariant Valid() && OnlyCalls() && Undisturbed(s0, Abs()) && Quiet(Abs()) && current == old(current)
      {
        ghost var s1, l1, m1 := Abs(), log, Marks();
        ApiCall();
        UndisturbedTransitive(s0, s1, Abs());
        StaysQuiet(s1, Abs());
        PlainTransitive(l0, l1, log, 0);
        MarksTransitive(m0, l0, m1, l1, Marks(), log);
        n := n - 1;
      }
    }

    /** What the step of a suspension means for the threads and the log. */
    twostate lemma Suspended(new a: Action)
      requires Inv(old(Abs())) && Did(a) && IsSuspension(a)
      ensures Ran(old(Abs()), Abs()) && PlainSince(old(log), log, 0) && old(log) <= log
    {
      hide Abs, Step, Enabled, Inv, Ran;
      SuspensionStep(old(Abs()), a);
      PlainStep(old(log), a);
    }

    method CallWaitTime()
      requires Valid() && current != null && IsFree(current)
      modifies this, threads, events, leaked, set x | x in cleanup
      ensures Valid() && OnlyCalls() && Ran(old(Abs()), Abs()) && current == null
    {
      hide Valid, Abs, Did, Step, Enabled, Ran, EntriesKept, CleanupGrew, PlainSince;
      ValidRun();
      WaitTime();
      Suspended(Sleep);
      ListUntouched();
    }

    method CallWait(e: Event)
      requires Valid() && current != null && IsFree(current) && e in events
      modifies this, threads, events, leaked, set x | x in cleanup
      ensures Valid() && OnlyCalls() && Ran(old(Abs()), Abs()) && current == null
    {
      hide Valid, Abs, Did, Step, Enabled, Ran, EntriesKept, CleanupGrew, PlainSince;
      ValidRun();
      WaitEvent(e);
      Suspended(WaitOne(e, false));
      NoneCanceled();
    }

    method CallWaitTimed(e: Event)
      requires Valid() && current != null && IsFree(current) && e in events
      modifies this, threads, events, leaked, set x | x in cleanup
      ensures Valid() && OnlyCalls() && Ran(old(Abs()), Abs()) && current == null
    {
      hide Valid, Abs, Did, Step, Enabled, Ran, EntriesKept, CleanupGrew, PlainSince;
      ValidRun();
      WaitEventTimeout(e);
      Suspended(WaitOne(e, true));
      NoneCanceled();
    }

    method CallWaitMany(any: bool, es: seq<Event>)
      requires Valid() && current != null && IsFree(current) && forall e | e in es :: e in events
      modifies this, threads, events, leaked, set x | x in cleanup
      ensures Valid() && OnlyCalls() && Ran(old(Abs()), Abs()) && current == null
    {
      hide Valid, Abs, Did, Step, Enabled, Ran, EntriesKept, CleanupGrew, PlainSince;
      ValidRun();
      WaitCombination(any, es);
      Suspended(WaitMany(es, any, false));
      NoneCanceled();
    }

    method CallWaitManyTimed(any: bool, es: seq<Event>)
      requires Valid() && current != null && IsFree(current) && forall e | e in es :: e in events
      modifies this, threads, events, leaked, set x | x in cleanup
      ensures Valid() && OnlyCalls() && Ran(old(Abs()), Abs()) && current == null
    {
      hide Valid, Abs, Did, Step, Enabled, Ran, EntriesKept, CleanupGrew, PlainSince;
      ValidRun();
      WaitCombinationTimeout(any, es);
      Suspended(WaitMany(es, any, true));
      NoneCanceled();
    }

    method CallHalt()
      requires Valid() && current != null
      modifies this, threads, events, leaked, set x | x in cleanup
      ensures Valid() && OnlyCalls() && Ran(old(Abs()), Abs()) && current == null
    {
      hide Valid, Abs, Did, Step, Enabled, Ran, EntriesKept, CleanupGrew, PlainSince;
      ValidRun();
      ThreadHalt();
      Suspended(Halt);
      ListUntouched();
    }

    method CallExit()
      requires Valid() && current != null
      modifies this, threads, events, leaked, set x | x in cleanup
      ensures Valid() && OnlyCalls() && Ran(old(Abs()), Abs()) && current == null
    {
      hide Valid, Abs, Did, Step, Enabled, Ran, EntriesKept, CleanupGrew, PlainSince;
      ValidRun();
      ThreadExit();
      Suspended(Exit);
      ListUntouched();
    }

    method CallFinish()
      requires Valid() && current != null
      modifies this, threads, events, leaked, set x | x in cleanup
      ensures Valid() && OnlyCalls() && Ran(old(Abs()), Abs()) && current == null
    {
      hide Valid, Abs, Did, Step, Enabled, Ran, EntriesKept, CleanupGrew, PlainSince;
      ValidRun();
      FinishSimulation();
      Suspended(Finish);
      ListUntouched();
    }

    method CallReturn()
      requires Valid() && current != null
      modifies this, threads, events, leaked, set x | x in cleanup
      ensures Valid() && OnlyCalls() && Ran(old(Abs()), Abs()) && current == null
    {
      hide Valid, Abs, Did, Step, Enabled, Ran, EntriesKept, CleanupGrew, PlainSince;
      ValidRun();
      ThreadReturn();
      Suspended(Return);
      ListUntouched();
    }

    /** The current thread gives up control, by any wait or for good. */
    method AnySuspend()
      requires Valid() && current != null
      modifies this, threads, events, leaked, set x | x in cleanup
      ensures Valid() && OnlyCalls() && Ran(old(Abs()), Abs()) && current == null
    {
      hide *;
      var c: nat := *;
      var es: seq<Event> := *;
      var any: bool, timed: bool := *, *;
      if c == 0 && IsFree(current) {
        CallWaitTime();
      } else if c == 1 && IsFree(current) && |es| == 1 && es[0] in events {
        if timed { CallWaitTimed(es[0]); } else { CallWait(es[0]); }
      } else if c == 2 && IsFree(current) && forall e | e in es :: e in events {
        if timed { CallWaitManyTimed(any, es); } else { CallWaitMany(any, es); }
      } else if c == 3 {
        CallHalt();
      } else if c == 4 {
        CallExit();
      } else if c == 5 {
        CallFinish();
      } else {
        CallReturn();
      }
    }

    /** What the thread does between being switched to and giving up control. */
    method Body()
      requires Valid() && current != null && Quiet(Abs())
      modifies this, threads, events, leaked, set x | x in cleanup
      ensures Valid() && OnlyCalls() && Ran(old(Abs()), Abs()) && current == null
    {
      hide Valid, Abs, Quiet, Undisturbed, Ran, MarksKept, PlainSince;
      ghost var s0, l0, m0 := Abs(), log, Marks();
      ValidRun();
      ApiCalls();
      ghost var s1, l1, m1 := Abs(), log, Marks();
      AnySuspend();
      CallsThenSuspension(s0, s1, Abs());
      PlainTransitive(l0, l1, log, 0);
      MarksTransitive(m0, l0, m1, l1, Marks(), log);
    }

    // -------------------------------------------------------------------------------------------
    // The kernel's own progress

    /** Threads ran and were finished; of the batch, the next `resumed` threads were started. */
    twostate predicate Progress(resumed: nat)
      reads this, cleanup
    {
      && Going() && next == old(next) + resumed && closing == old(closing)
      && PlainSince(old(log), log, resumed)
    }

    /** `stimc_run` up to the switch, for the final resume of a thread being finished. */
    method SwitchFinally(t: Thread)
      requires Valid() && current == null && t in owed
      modifies `current, `owed, `log
      ensures Valid() && Did(FinalResume(t)) && current == t && owed == old(owed) - {t}
    {
      hide Coherent, Enrolled, Registered, Views, Enabled, Step, Reaches, Memory;
      ghost var s0 := Abs();
      OwedAlive(t);
      FinalResumeStep(s0, t);
      current, owed := t, owed - {t};
      Commit(s0, FinalResume(t));
    }

    lemma OwedAlive(t: Thread)
      requires Reaches(log, Abs()) && t in owed
      ensures t in Abs().views
    {
    }

    lemma ClosingState(t: Thread)
      requires Valid() && t in threads
      ensures t.state == Cleanup <==> t in closing
      ensures t in owed ==> t.state == Cleanup
      ensures t.state != Cleanup || t in owed ==> t.called == 0
      ensures t in Abs().views && Abs().views[t].state == t.state
      ensures IsFree(t) <==> !Waiting(Abs().views[t])
    {
      AwaitedNone(t.handles);
    }

    /** `stimc_run`: the thread runs until it gives up control; if it is at its end, it is finished and
        freed. */
    method Run(t: Thread)
      requires Valid() && current == null && t in threads && SweptBut(Abs(), t)
      requires if t.state == Cleanup then t in owed
               else !ending && !finishPending && Swept(Abs()) && next < |shadowQueue| && shadowQueue[next] == t
      modifies this, threads, events, leaked, set x | x in cleanup
      ensures Valid() && current == null && SweptBut(Abs(), t)
      ensures Progress(if old(t.state) == Cleanup then 0 else 1)
      ensures old(t.state) == Cleanup ==>
        t in threads && t.state == Cleanup && owed == old(owed) - {t} && t.called == 0
      ensures old(t.state) != Cleanup ==>
        && owed == old(owed) && Swept(Abs()) && |old(log)| < |log| && log[|old(log)|] == Resume(t)
        && (t !in threads || t.state.Rank() < StoppedToFinish.Rank())
      decreases if t.state == Cleanup then 0 else 2, 0
    {
      hide Valid, Abs, Step, Enabled, Quiet, SweptBut, Swept, MarksKept, PlainSince;
      ghost var l0, m0 := log, Marks();
      ClosingState(t);
      if t.state == Cleanup {
        Enter(t);
        ghost var l1, m1 := log, Marks();
        RunOn(t);
        PlainTransitive(l0, l1, log, 0);
        MarksTransitive(m0, l0, m1, l1, Marks(), log);
      } else {
        Start(t);
        ghost var l1, m1 := log, Marks();
        RunOn(t);
        FinishIfEnded(t, l1, m1);
        PlainTransitive(l0, l1, log, 1);
        MarksTransitive(m0, l0, m1, l1, Marks(), log);
      }
    }

    /** The thread switched to runs until it gives up control. */
    method RunOn(t: Thread)
      requires Valid() && current == t && t in threads && SweptBut(Abs(), t) && Quiet(Abs())
      requires t.called == 0
      modifies this, threads, events, leaked, set x | x in cleanup
      ensures Valid() && current == null && t in threads && SweptBut(Abs(), t) && t.called == 0
      ensures t.state == Cleanup <==> old(t.state) == Cleanup
      ensures Steady() && Going() && PlainSince(old(log), log, 0) && old(log) <= log
    {
      hide Valid, Abs, Quiet, SweptBut, Ran, MarksKept, PlainSince;
      ghost var s1, l1 := Abs(), log;
      ValidRun();
      ClosingState(t);
      Body();
      RanSweptBut(s1, Abs(), t);
      LogKept(l1, l1, log);
      RanState(s1, Abs(), t);
      ClosingState(t);
    }

    /** The last lines of `stimc_run`; l1 and m1 are the log and the entries before the thread ran. */
    method FinishIfEnded(t: Thread, ghost l1: seq<Action>, ghost m1: map<CleanupEntry, Mark>)
      requires Valid() && current == null && !ending && t in threads && t.state != Cleanup && SweptBut(Abs(), t)
      requires PlainSince(l1, log, 0) && l1 <= log && MarksKept(m1, l1, Marks(), log)
      modifies this, threads, events, leaked, set x | x in cleanup
      ensures Valid() && current == null && SweptBut(Abs(), t) && Swept(Abs())
      ensures t !in threads || t.state.Rank() < StoppedToFinish.Rank()
      ensures Progress(0) && owed == old(owed)
      ensures PlainSince(l1, log, 0) && l1 <= log && MarksKept(m1, l1, Marks(), log)
      decreases 1, 2
    {
      hide Valid, Abs, Step, Enabled, SweptBut, Swept, MarksKept, PlainSince;
      ghost var l2, m2 := log, Marks();
      if StoppedToFinish.Rank() <= t.state.Rank() < Cleanup.Rank() {
        FinishThread(t);
        LogKept(l1, l2, log);
        PlainTransitive(l1, l2, log, 0);
        MarksTransitive(m1, l1, m2, l2, Marks(), log);
      } else {
        ValidRun();
        ClosingState(t);
        SweptNow(Abs(), t);
        PlainReflexive(log);
        MarksSame(m2, log, log);
      }
    }

    /** The switch to a queued thread. */
    method Start(t: Thread)
      requires Valid() && current == null && !ending && !finishPending && Swept(Abs()) && t in threads
      requires next < |shadowQueue| && shadowQueue[next] == t
      modifies `current, `next, `log, threads`state
      ensures Valid() && current == t && next == old(next) + 1 && log == old(log) + [Resume(t)] && t.state != Cleanup
      ensures SweptBut(Abs(), t) && Quiet(Abs()) && PlainSince(old(log), log, 1) && EntriesKept()
      ensures t.called == old(t.called)
    {
      hide Valid, Abs, Step, Enabled, Quiet, SweptBut, Swept, MarksKept, PlainSince;
      ghost var s0 := Abs();
      ValidRun();
      QueuedLive();
      SweptIsQuiet(s0);
      SwitchTo(t);
      SwitchKeeps(s0, Resume(t), t);
      PlainStep(old(log), Resume(t));
      MarksSame(Marks(), old(log), log);
    }

    /** The switch to a thread that gets its final resume. */
    method Enter(t: Thread)
      requires Valid() && current == null && t in threads && t in owed && SweptBut(Abs(), t)
      modifies `current, `owed, `log
      ensures Valid() && current == t && owed == old(owed) - {t}
      ensures SweptBut(Abs(), t) && Quiet(Abs()) && PlainSince(old(log), log, 0) && EntriesKept()
    {
      hide Valid, Abs, Step, Enabled, Quiet, SweptBut, MarksKept, PlainSince;
      ghost var s0 := Abs();
      ValidRun();
      SwitchFinally(t);
      SwitchKeeps(s0, FinalResume(t), t);
      PlainStep(old(log), FinalResume(t));
      MarksSame(Marks(), old(log), log);
    }

    /** `stimc_thread_finish` */
    method FinishThread(t: Thread)
      requires Valid() && MayFinish(t) && AtEnd(t) && SweptBut(Abs(), t)
      modifies this, threads, events, leaked, set x | x in cleanup
      ensures Valid() && current == null && Progress(0)
      ensures t !in threads && owed == old(owed) && SweptBut(Abs(), t) && (!ending ==> Swept(Abs()))
      ensures |old(log)| < |log| && log[|old(log)|] == Close(t)
      decreases 1, 1
    {
      hide Valid, Abs, Step, Enabled, SweptBut, Swept, MarksKept, PlainSince;
      ghost var l0, m0 := log, Marks();
      ClosingState(t);
      CloseAndResume(t);
      ghost var l1, m1 := log, Marks();
      Dispose(t);
      LogKept(l0 + [Close(t)], l1, log);
      PlainTransitive(l0, l1, log, 0);
      MarksTransitive(m0, l0, m1, l1, Marks(), log);
    }

    static lemma LogKept(l0: seq<Action>, l1: seq<Action>, l2: seq<Action>)
      requires l0 <= l1 && PlainSince(l1, l2, 0)
      ensures l0 <= l2
    {
    }

    /** The first half of `stimc_thread_finish`, with the final resume if one is due. */
    method CloseAndResume(t: Thread)
      requires Valid() && MayFinish(t) && AtEnd(t) && SweptBut(Abs(), t) && t !in closing
      modifies this, threads, events, leaked, set x | x in cleanup
      ensures Valid() && current == null && t in threads && t.state == Cleanup && SweptBut(Abs(), t)
      ensures Going() && next == old(next) && closing == old(closing) + {t}
      ensures owed == old(owed) && t !in owed && t.called == 0
      ensures PlainSince(old(log), log, 0) && old(log) + [Close(t)] <= log
      decreases 1, 0
    {
      hide Valid, Abs, SweptBut, MarksKept, PlainSince;
      ghost var l0, m0 := log, Marks();
      ClosingState(t);
      var finalResume := CloseEntry(t);
      if finalResume {
        ghost var l1, m1 := log, Marks();
        Run(t);
        LogKept(l1, l1, log);
        PlainTransitive(l0, l1, log, 0);
        MarksTransitive(m0, l0, m1, l1, Marks(), log);
      }
    }

    method CloseEntry(t: Thread) returns (finalResume: bool)
      requires Valid() && MayFinish(t) && AtEnd(t) && SweptBut(Abs(), t) && t !in closing
      modifies `closing, `owed, `log, threads`state, cleanup`cancel
      ensures Valid() && t.state == Cleanup && SweptBut(Abs(), t) && closing == old(closing) + {t}
      ensures owed == if finalResume then old(owed) + {t} else old(owed)
      ensures t !in old(owed) && (finalResume ==> t in owed) && t.called == 0
      ensures PlainSince(old(log), log, 0) && log == old(log) + [Close(t)] && EntriesKept()
    {
      hide Valid, Abs, Step, Enabled, SweptBut, EntriesKept, PlainSince, Canceled;
      ghost var s0 := Abs();
      ValidRun();
      ClosingState(t);
      finalResume := BeginFinish(t);
      SwitchKeeps(s0, Close(t), t);
      PlainStep(old(log), Close(t));
      CloseCancels(t);
      CanceledByStep(t.cleanupSelf, Close(t));
    }

    /** The second half: timer and event queues, the thread's callbacks, the memory. */
    method Dispose(t: Thread)
      requires Valid() && current == null && t in threads && t.state == Cleanup && t !in owed && t.called == 0
      requires SweptBut(Abs(), t)
      modifies this, threads, events, leaked, set x | x in cleanup
      ensures Valid() && current == null && t !in threads && SweptBut(Abs(), t) && (!ending ==> Swept(Abs()))
      ensures Going() && next == old(next) && closing == old(closing) - {t} && owed == old(owed)
      ensures PlainSince(old(log), log, 0)
    {
      hide Valid, Abs, Step, Enabled, Quiet, Undisturbed, SweptBut, Swept, MarksKept, PlainSince;
      ghost var l0, m0 := log, Marks();
      UnhookEnded(t);
      ghost var l1, m1 := log, Marks();
      CallCleanups(t);
      PlainTransitive(l0, l1, log, 0);
      MarksTransitive(m0, l0, m1, l1, Marks(), log);
      ghost var l2, m2 := log, Marks();
      FreeEnded(t);
      PlainTransitive(l0, l2, log, 0);
      MarksTransitive(m0, l0, m2, l2, Marks(), log);
    }

    method UnhookEnded(t: Thread)
      requires Valid() && current == null && t in threads && t.state == Cleanup && t !in owed && SweptBut(Abs(), t)
      modifies `log, t`handles, t`timer, events`slots
      ensures Valid() && IsFree(t) && SweptBut(Abs(), t) && Quiet(Abs())
      ensures EntriesKept() && PlainSince(old(log), log, 0)
    {
      hide Valid, Abs, Step, Enabled, SweptBut, Quiet, MarksKept, PlainSince;
      ghost var s0 := Abs();
      ValidRun();
      UnhookThread(t);
      SwitchKeeps(s0, Unhook(t), t);
      PlainStep(old(log), Unhook(t));
      MarksSame(Marks(), old(log), log);
    }

    method FreeEnded(t: Thread)
      requires Valid() && current == null && t in threads && t.state == Cleanup && t !in owed && IsFree(t)
      requires t.called == |t.cleanupQueue| && SweptBut(Abs(), t)
      modifies `threads, `closing, `gone, `log
      ensures Valid() && closing == old(closing) - {t} && threads == old(threads) - {t}
      ensures log == old(log) + [Release(t)]
      ensures SweptBut(Abs(), t) && (!ending ==> Swept(Abs())) && EntriesKept() && PlainSince(old(log), log, 0)
    {
      hide Valid, Abs, Step, Enabled, SweptBut, Swept, MarksKept, PlainSince;
      ghost var s0 := Abs();
      ValidRun();
      ReleaseThread(t);
      ReleasedSwept(s0, t);
      PlainStep(old(log), Release(t));
      MarksSame(Marks(), old(log), log);
      ValidRun();
    }

    /** The next callback of a thread being finished, which can make any API calls; in stimc++ the
        callbacks delete objects of the user. */
    method OneCallback(t: Thread)
      requires Valid() && current == null && t in threads && t.state == Cleanup && t !in owed && IsFree(t)
      requires Quiet(Abs()) && SweptBut(Abs(), t) && t.called < |t.cleanupQueue|
      modifies this, threads, events, leaked, set x | x in cleanup
      ensures Valid() && current == null && t in threads && t.state == Cleanup && IsFree(t)
      ensures Quiet(Abs()) && SweptBut(Abs(), t)
      ensures t.cleanupQueue == old(t.cleanupQueue) && t.called == old(t.called) + 1
      ensures Steady() && Going() && PlainSince(old(log), log, 0)
      ensures old(log) + [CallCleanup(t, old(t.cleanupQueue[t.called]))] <= log
    {
      hide Valid, Abs, Step, Enabled, Quiet, Undisturbed, SweptBut, MarksKept, PlainSince;
      ghost var s0, l0, m0 := Abs(), log, Marks();
      ghost var a := CallCleanup(t, t.cleanupQueue[t.called]);
      ValidRun();
      CallNext(t);
      SwitchKeeps(s0, a, t);
      PlainStep(l0, a);
      MarksSame(m0, l0, log);
      ghost var s1, l1, m1 := Abs(), log, Marks();
      ValidRun();
      ClosingState(t);
      ApiCalls();
      StaysQuiet(s1, Abs());
      RanSweptBut(s1, Abs(), t);
      KeptView(s1, Abs(), t);
      ClosingState(t);
      LogKept(l1, l1, log);
      PlainTransitive(l0, l1, log, 0);
      MarksTransitive(m0, l0, m1, l1, Marks(), log);
    }

    /** `stimc_cleanup_run` on the thread's own list, none of whose entries can be canceled. */
    method CallCleanups(t: Thread)
      requires Valid() && current == null && t in threads && t.state == Cleanup && t !in owed && IsFree(t)
      requires Quiet(Abs()) && SweptBut(Abs(), t) && t.called == 0
      modifies this, threads, events, leaked, set x | x in cleanup
      ensures Valid() && current == null && t in threads && t.state == Cleanup && IsFree(t)
      ensures t.called == |t.cleanupQueue| && SweptBut(Abs(), t)
      ensures Steady() && Going() && PlainSince(old(log), log, 0)
    {
      hide Valid, Abs, Step, Enabled, Quiet, SweptBut, MarksKept, PlainSince;
      ghost var l0, m0 := log, Marks();
      var q := t.cleanupQueue;
      PlainReflexive(l0);
      MarksSame(m0, l0, l0);
      var i := 0;
      while i < |q|
        invariant Valid() && current == null && i <= |q|
        invariant t in threads && t.state == Cleanup && t !in owed && IsFree(t)
        invariant Quiet(Abs()) && SweptBut(Abs(), t) && t.cleanupQueue == q && t.called == i
        invariant Steady() && Going() && PlainSince(l0, log, 0)
      {
        ghost var l1, m1 := log, Marks();
        OneCallback(t);
        PlainTransitive(l0, l1, log, 0);
        MarksTransitive(m0, l0, m1, l1, Marks(), log);
        i := i + 1;
      }
    }

    // -------------------------------------------------------------------------------------------
    // Batches

    /** Between two simulator callbacks: no thread runs, no batch is under way, and if finish is pending the
        simulator knows. */
    ghost predicate Idle()
      reads `current, `shadowQueue, `finishPending, `asked
    {
      current == null && shadowQueue == [] && (finishPending ==> asked)
    }

    /** The kernel has control, and every thread that has ended has been finished and freed. */
    ghost predicate Resting()
      reads this, threads, events, cleanup, leaked
    {
      Valid() && current == null && !ending && closing == {} && owed == {} && Swept(Abs())
    }

    /** All objects the kernel refers to, it referred to before or they are new. */
    twostate predicate Allocated()
      reads this
    {
      && (forall t | t in threads :: t in old(threads) || fresh(t))
      && (forall e | e in events :: e in old(events) || fresh(e))
      && (forall x | x in cleanup :: x in old(cleanup) || fresh(x))
      && (forall x | x in leaked :: x in old(cleanup) || x in old(leaked) || fresh(x))
    }

    /** The start of a batch: swapping the queues changes nothing in the order of ready threads. */
    method StartBatch()
      requires Resting() && Idle()
      modifies `mainQueue, `shadowQueue, `next
      ensures Resting() && Abs() == old(Abs())
      ensures shadowQueue == old(mainQueue) && mainQueue == [] && next == 0
    {
      hide Coherent, Enrolled, Reaches, Registered, ClosingMatches, Views, Swept, Memory;
      shadowQueue := shadowQueue + mainQueue;
      mainQueue := [];
      next := 0;
      assert Abs().ready == old(Abs().ready);
    }

    /** The end of a batch: all of it has run, or finish is pending and the rest is dropped. */
    method EndBatch()
      requires Resting() && (next == |shadowQueue| || finishPending) && (finishPending ==> asked)
      modifies `shadowQueue, `next, `log
      ensures Resting() && Idle()
      ensures if finishPending then Did(Drop(old(|shadowQueue| - next)))
              else Abs() == old(Abs()) && log == old(log)
      ensures old(log) <= log
    {
      hide Coherent, Enrolled, Reaches, Registered, ClosingMatches, Views, Swept, Enabled, Step, Memory;
      ghost var s0, n := Abs(), |shadowQueue| - next;
      shadowQueue, next := [], 0;
      assert Abs().ready == s0.ready[n..];
      if finishPending {
        DropStep(s0, n);
        Commit(s0, Drop(n));
      }
    }

    /** The inner loop of `stimc_main_queue_run_threads`. When finish is pending the simulator is asked to
        finish, and it may end the simulation at once. */
    method RunBatch()
      requires Resting() && !finishPending && next == 0 && shadowQueue != []
      modifies this, threads, events, leaked, set x | x in cleanup
      ensures Resting() && Allocated() && (next == |shadowQueue| || finishPending) && (finishPending ==> asked)
      ensures old(log) <= log && |AllStarted(old(log))| < |AllStarted(log)|
    {
      hide Resting, Valid, Abs, Swept, AllStarted;
      ghost var l0 := log;
      var i := 0;
      while i < |shadowQueue|
        invariant Resting() && Allocated() && !finishPending
        invariant i == next <= |shadowQueue| && shadowQueue == old(shadowQueue)
        invariant l0 <= log && (i > 0 ==> |AllStarted(l0)| < |AllStarted(log)|)
        decreases |shadowQueue| - i
      {
        ghost var l1 := log;
        RunNext(i);
        StartedGrows(l0, l1);
        if finishPending {
          MayEndAtOnce();
          break;
        }
        i := i + 1;
      }
    }

    /** `vpi_control (vpiFinish)` */
    method MayEndAtOnce()
      requires Resting() && finishPending
      modifies this, threads, events, leaked, set x | x in cleanup
      ensures Resting() && Allocated() && (next == |shadowQueue| || finishPending) && (finishPending ==> asked)
      ensures old(log) <= log && |AllStarted(old(log))| <= |AllStarted(log)|
    {
      hide Resting, Valid, Abs, Swept, AllStarted, NewestFirst, Trail, Torn, Tearing, HappensSince;
      Ask();
      var atOnce: bool := *;
      if atOnce {
        ghost var l0 := log;
        ghost var called, at := EndOfSimulation();
        StartedGrows(l0, log);
        IdleHasNoBatch();
      }
    }

    ghost method Ask()
      requires Resting()
      modifies `asked
      ensures Resting() && asked
    {
      hide Coherent, Enrolled, Registered, ClosingMatches, Reaches, Memory, Views, Swept;
      asked := true;
    }

    lemma IdleHasNoBatch()
      ensures Idle() ==> shadowQueue == []
    {
    }

    /** The next thread of the batch runs. */
    method RunNext(i: nat)
      requires Resting() && !finishPending && i == next < |shadowQueue|
      modifies this, threads, events, leaked, set x | x in cleanup
      ensures Resting() && Allocated() && next == old(next) + 1 && shadowQueue == old(shadowQueue)
      ensures old(log) <= log && |AllStarted(old(log))| < |AllStarted(log)|
    {
      hide Valid, Abs, Swept, SweptBut, MarksKept, AllStarted;
      ghost var l0 := log;
      QueuedLive();
      SweptIsQuiet(Abs());
      Run(shadowQueue[i]);
      StartedOne(l0, log);
    }

    lemma QueuedLive()
      requires Valid() && !ending && next < |shadowQueue|
      ensures shadowQueue[next] in threads && shadowQueue[next].state != Cleanup
    {
      ReadyLive(shadowQueue[next]);
    }

    /** `stimc_main_queue_run_threads` entered at any time, up to its first switch: the thread it switches
        to, or null if the loop leaves at once. Switches start at index 0 of the shadow queue, whatever is in
        it; the assertion on the running thread comes just before. */
    method EnterLoop() returns (first: Thread?)
      requires Valid() && (current == null || finishPending || mainQueue == [])
      modifies `mainQueue, `shadowQueue
      ensures first == null <==> old(finishPending) || old(mainQueue) == []
      ensures first == null <==> mainQueue == old(mainQueue) && shadowQueue == old(shadowQueue)
      ensures first != null ==> mainQueue == [] && shadowQueue == old(shadowQueue + mainQueue)
      ensures first != null ==> first == shadowQueue[0]
      ensures Valid() && Abs() == old(Abs())
    {
      hide Coherent, Enrolled, Reaches, Registered, ClosingMatches, Views, Memory;
      first := null;
      if finishPending || |mainQueue| == 0 { return; }
      shadowQueue := shadowQueue + mainQueue;
      mainQueue := [];
      first := shadowQueue[0];
      assert Abs().ready == old(Abs().ready);
    }

    /** While a thread is being finished, or a teardown is under way, the kernel may start nobody. */
    lemma NoStartNow(t: Thread)
      requires Valid() && (ending || exists u | u in threads :: u.state == Cleanup)
      ensures !Enabled(Abs(), Resume(t))
    {
      hide Valid, Abs, Enabled;
      ValidRun();
      if !ending {
        var u :| u in threads && u.state == Cleanup;
        ClosingState(u);
      }
      NoStartIn(Abs(), t);
    }

    static lemma NoStartIn(s: Sys, t: Thread)
      requires s.ending || exists u | u in s.views :: s.views[u].state == Cleanup
      ensures !Enabled(s, Resume(t))
    {
    }

    /** The main loop entered from a cleanup callback or during a teardown: it keeps to what the kernel may
        do iff there is nothing in the main queue or finish is pending; otherwise it makes a switch that is
        none of the kernel's steps. */
    method EnterLoopNested() returns (first: Thread?)
      requires Valid() && current == null && (ending || exists u | u in threads :: u.state == Cleanup)
      modifies `mainQueue, `shadowQueue
      ensures first == null <==> old(finishPending) || old(mainQueue) == []
      ensures first == null ==> mainQueue == old(mainQueue) && shadowQueue == old(shadowQueue)
      ensures first != null ==> mainQueue == [] && shadowQueue == old(shadowQueue + mainQueue)
      ensures first != null ==> first == shadowQueue[0] && !Enabled(Abs(), Resume(first))
      ensures Valid() && Abs() == old(Abs())
    {
      hide Valid, Abs, Enabled;
      first := EnterLoop();
      if first != null { NoStartNow(first); }
    }

    /** `stimc_main_queue_run_threads`, watched for a given number of batches: threads can wake each other
        forever in zero time. Either the loop ends by itself, with finish pending or nobody left ready, or
        that many batches have run, each of which starts at least one thread. */
    method RunThreads(batches: nat) returns (done: bool)
      requires Resting() && Idle()
      modifies this, threads, events, leaked, set x | x in cleanup
      ensures Resting() && Idle() && Allocated() && old(log) <= log
      ensures done ==> finishPending || Abs().ready == []
      ensures done || |AllStarted(old(log))| + batches <= |AllStarted(log)|
    {
      hide Resting, Valid, Abs, Did, AllStarted;
      ghost var l0 := log;
      var n := 0;
      while !finishPending && n < batches
        invariant Resting() && Idle() && Allocated() && n <= batches && l0 <= log
        invariant |AllStarted(l0)| + n <= |AllStarted(log)|
        decreases batches - n
      {
        if |mainQueue| == 0 { break; }
        ghost var l1 := log;
        StartBatch();
        RunBatch();
        ghost var l2 := log;
        EndBatch();
        StartedGrows(l2, log);
        n := n + 1;
      }
      done := finishPending || |mainQueue| == 0;
      NothingReady();
    }

    lemma NothingReady()
      requires Resting() && Idle()
      ensures mainQueue == [] ==> Abs().ready == []
    {
    }

    /** A simulator callback: a delay has passed, or a value changed and the registered method ran. */
    method Callback(t: Thread?, batches: nat) returns (done: bool)
      requires Resting() && Idle()
      requires t != null ==> t in threads && t.timer
      modifies this, threads, events, leaked, set x | x in cleanup
      ensures Resting() && Idle() && Allocated() && old(log) <= log
      ensures t != null ==> |old(log)| < |log| && log[|old(log)|] == TimerFires(t)
      ensures done ==> finishPending || Abs().ready == []
      ensures done || |AllStarted(old(log))| + batches <= |AllStarted(log)|
    {
      hide Valid, Abs, Swept, SweptBut, Step, Enabled, MarksKept, PlainSince, AllStarted, Quiet, Undisturbed;
      ghost var l0 := log;
      if t != null {
        ExpireAndRest(t);
      } else {
        MethodAndRest();
      }
      ghost var l1 := log;
      StartedGrows(l0, l1);
      done := RunThreads(batches);
    }

    method ExpireAndRest(t: Thread)
      requires Resting() && Idle() && t in threads && t.timer
      modifies this, threads, events
      ensures Resting() && Idle() && Allocated() && log == old(log) + [TimerFires(t)]
    {
      hide Valid, Abs, Swept, Step, Enabled;
      ghost var s0 := Abs();
      ValidRun();
      TimerCallback(t);
      TimerKeepsSwept(s0, t);
    }

    /** The registered method makes any API calls. It may also ask for the end of the simulation, which can
        come at once, in the middle of the method. */
    method MethodAndRest()
      requires Resting() && Idle()
      modifies this, threads, events, leaked, set x | x in cleanup
      ensures Resting() && Idle() && Allocated() && old(log) <= log
    {
      hide Resting, Valid, Abs;
      CallsAndRest();
      var asks: bool := *;
      if asks {
        AskForEnd();
        CallsAndRest();
      }
    }

    /** `stimc_finish` called from the simulator. */
    method AskForEnd()
      requires Resting() && Idle()
      modifies this, threads, events, leaked, set x | x in cleanup
      ensures Resting() && Idle() && Allocated() && old(log) <= log
    {
      hide Valid, Abs, Swept, NewestFirst, Trail, Torn, Tearing, HappensSince, NoResumeSince;
      FinishSimulation();
      var atOnce: bool := *;
      if atOnce {
        ghost var called, at := EndOfSimulation();
      }
    }

    method CallsAndRest()
      requires Resting() && Idle()
      modifies this, threads, events, leaked, set x | x in cleanup
      ensures Resting() && Idle() && Allocated() && old(log) <= log
    {
      hide Valid, Abs, Swept, SweptBut, Quiet, Undisturbed, MarksKept;
      ghost var s0 := Abs();
      ValidRun();
      SweptIsQuiet(s0);
      ApiCalls();
      StaysSwept(s0, Abs());
      StaysPending(s0, Abs());
      ValidRun();
    }

    // -------------------------------------------------------------------------------------------
    // The end of the simulation

    /** The simulator's end-of-simulation callback arrives. */
    method BeginTeardown()
      requires Resting()
      modifies `ending, `log
      ensures Valid() && Did(BeginEnd) && ending && added == 0 && reached == 0
    {
      hide Coherent, Enrolled, Reaches, ClosingMatches, Views, EntryOf, EntryOfEvent, TargetLive, Memory;
      ghost var s0 := Abs();
      ending := true;
      assert Registered();
      Commit(s0, BeginEnd);
    }

    /** The entry the teardown is at is done when no live thread or event refers to it any more. */
    twostate lemma RegisteredNext()
      requires old(Registered()) && ending && old(ending) && old(added) + old(reached) < |old(cleanup)|
      requires threads == old(threads) && events == old(events) && cleanup == old(cleanup)
      requires added == old(added) && reached == old(reached) + 1 && leaked == old(leaked) && late == old(late)
      requires forall t | t in threads :: t.cleanupSelf != cleanup[added + old(reached)]
      requires forall e | e in events :: e.cleanupSelf != cleanup[added + old(reached)]
      requires forall t | t in threads :: unchanged(t`cleanupSelf, t`state)
      requires forall e | e in events ::
        unchanged(e`cleanupSelf) || (e.cleanupSelf == null && old(e.cleanupSelf) == cleanup[added + old(reached)])
      requires forall x | x in cleanup || x in leaked :: unchanged(x)
      ensures Registered()
    {
      AheadNext(cleanup, added, old(reached), reached, cleanup[added + old(reached)]);
      forall t | t in threads ensures EntryOf(t) { assert old(EntryOf(t)); }
      forall e | e in events ensures EntryOfEvent(e) { assert old(EntryOfEvent(e)); }
      forall x | x in cleanup && Ahead(cleanup, added, reached, x) && !x.cancel ensures TargetLive(x) {
        assert old(TargetLive(x));
      }
    }

    static lemma Apart(list: seq<CleanupEntry>, p: nat)
      requires Distinct(list) && p < |list|
      ensures list[p] !in list[..p] && list[p] !in list[p + 1..]
    {
      var rest := list[p + 1..];
      assert forall i | 0 <= i < p :: list[..p][i] != list[p];
      assert forall i | 0 <= i < |rest| :: rest[i] != list[p];
    }

    /** Passing an entry takes it, and no other, from those ahead. */
    static lemma AheadNext(list: seq<CleanupEntry>, added: nat, reached: nat, next: nat, x: CleanupEntry)
      requires Distinct(list) && added + reached < |list| && x == list[added + reached] && next == reached + 1
      ensures forall y :: Ahead(list, added, next, y) <==> Ahead(list, added, reached, y) && y != x
    {
      var p := added + reached;
      assert list[p..] == [list[p]] + list[p + 1..];
      Apart(list, p);
      assert list[..p][..added] == list[..added] && list[p] !in list[..added];
    }

    /** The entry the teardown has come to. */
    ghost predicate AtEntry(x: CleanupEntry)
      reads `cleanup, `added, `reached
    {
      added + reached < |cleanup| && cleanup[added + reached] == x
    }

    lemma IsAhead(x: CleanupEntry)
      requires AtEntry(x)
      ensures x in cleanup && Ahead(cleanup, added, reached, x)
      ensures Distinct(cleanup) ==> x !in cleanup[..added]
    {
      assert cleanup[added + reached..][0] == x;
    }

    /** A canceled entry belongs to nothing that is alive, and so does the entry of a freed thread and
        an entry of the user. */
    lemma Unreferenced(x: CleanupEntry)
      requires Registered() && ClosingMatches() && closing == {} && AtEntry(x)
      requires x.cancel || x.target.OfUser? || (x.target.OfThread? && x.target.thread !in threads)
      ensures forall t | t in threads :: t.cleanupSelf != x
      ensures forall e | e in events :: e.cleanupSelf != x
    {
      forall t | t in threads ensures t.cleanupSelf != x { assert EntryOf(t); }
      forall e | e in events ensures e.cleanupSelf != x { assert EntryOfEvent(e); }
    }

    /** On to the next entry. */
    ghost method Pass(x: CleanupEntry)
      requires Valid() && ending && closing == {} && AtEntry(x)
      requires x.cancel || x.target.OfUser? || (x.target.OfThread? && x.target.thread !in threads)
      modifies `reached
      ensures Valid() && reached == old(reached) + 1 && Abs() == old(Abs())
    {
      hide Coherent, Enrolled, Reaches, Registered, Views, Memory;
      Unreferenced(x);
      reached := reached + 1;
      RegisteredNext();
    }

    /** `stimc_cleanup_event`: the waiters are dropped and the event forgets its entry, which is freed
        when the whole list has been processed. */
    method CleanupEvent(e: Event, ghost x: CleanupEntry)
      requires Valid() && current == null && ending && closing == {}
      requires AtEntry(x) && x.target == OfEvent(e) && !x.cancel
      modifies `reached, `log, threads`handles, threads`timeout, events`slots, events`cleanupSelf
      ensures Valid() && Did(Forget(e)) && reached == old(reached) + 1
    {
      hide Coherent, Enrolled, Reaches, Registered, ClosingMatches, Views, FreeAll, Enabled, Step, AtEntry, Memory;
      ghost var s0 := Abs();
      EntryEvent(e, x);
      FreeQueue(e);
      assert Registered() && ClosingMatches();
      ForgetEntry(e, x);
      EnrolledBut(e);
      ForgetStep(s0, e);
      Commit(s0, Forget(e));
    }

    lemma EntryEvent(e: Event, x: CleanupEntry)
      requires Registered() && AtEntry(x) && x.target == OfEvent(e) && !x.cancel
      ensures e in events && e.cleanupSelf == x
    {
      IsAhead(x);
      assert TargetLive(x);
    }

    lemma EntryThread(t: Thread, x: CleanupEntry)
      requires Registered() && AtEntry(x) && x.target == OfThread(t) && !x.cancel
      ensures t in threads && t.state != Cleanup && t !in late
    {
      IsAhead(x);
      assert TargetLive(x) && EntryOf(t);
    }

    method ForgetEntry(e: Event, ghost x: CleanupEntry)
      requires Registered() && ending && e in events && AtEntry(x) && e.cleanupSelf == x
      modifies `reached, e`cleanupSelf
      ensures Registered() && reached == old(reached) + 1
    {
      OnlyOwner(e, x);
      hide Registered;
      e.cleanupSelf := null;
      reached := reached + 1;
      RegisteredNext();
    }

    lemma OnlyOwner(e: Event, x: CleanupEntry)
      requires Registered() && AtEntry(x) && e in events && e.cleanupSelf == x
      ensures forall t | t in threads :: t.cleanupSelf != x
      ensures forall y | y in events && y != e :: y.cleanupSelf != x
    {
      assert EntryOfEvent(e);
      forall t | t in threads ensures t.cleanupSelf != x { assert EntryOf(t); }
      forall y | y in events && y != e ensures y.cleanupSelf != x { assert EntryOfEvent(y); }
    }

    /** One entry of the list in `stimc_cleanup_run`: canceled entries are skipped, for the others the
        callback is called, which is the first step. */
    method CleanupOne(x: CleanupEntry) returns (ghost called: bool)
      requires Valid() && current == null && ending && closing == {} && owed == {} && AtEntry(x)
      modifies this, threads, events, leaked, set y | y in cleanup
      ensures Valid() && current == null && ending && closing == {} && owed == {} && reached == old(reached) + 1
      ensures added <= |cleanup| && old(added) <= |old(cleanup)| && cleanup[added..] == old(cleanup)[old(added)..]
      ensures Allocated() && EntriesKept() && leaked == old(leaked) && PlainSince(old(log), log, 1)
      ensures called <==> !old(x.cancel)
      ensures if called then |old(log)| < |log| && log[|old(log)|] == TearingStep(x, old(x.target)) else log == old(log)
    {
      hide Valid, Abs, Step, Enabled, PlainSince, MarksKept, SweptBut, Quiet, Undisturbed, Swept;
      called := !x.cancel;
      if !x.cancel {
        match x.target
        case OfThread(t) =>
          CleanupThread(t, x);
          PlainWeaker(old(log), log);
        case OfUser => CleanupUser(x);
        case OfEvent(e) =>
          PlainStep(log, Forget(e));
          CleanupEvent(e, x);
          NoneCanceled();
      } else {
        Pass(x);
        PlainReflexive(log);
        PlainWeaker(log, log);
        MarksSame(Marks(), log, log);
      }
    }

    /** `stimc_cleanup_thread` */
    method CleanupThread(t: Thread, x: CleanupEntry)
      requires Valid() && current == null && ending && closing == {} && owed == {} && AtEntry(x)
      requires x.target == OfThread(t) && !x.cancel
      modifies this, threads, events, leaked, set y | y in cleanup
      ensures Valid() && current == null && ending && closing == {} && owed == {} && reached == old(reached) + 1
      ensures Allocated() && EntriesKept() && leaked == old(leaked) && CleanupGrew()
      ensures PlainSince(old(log), log, 0) && |old(log)| < |log| && log[|old(log)|] == Close(t)
    {
      hide Valid, Abs, Step, Enabled, PlainSince, MarksKept, SweptBut, Swept;
      ValidRun();
      EntryThreadLive(t, x);
      EndingSweeps(Abs(), t);
      FinishThread(t);
      StillAt(x);
      TargetKept(x);
      Pass(x);
    }

    lemma EntryThreadLive(t: Thread, x: CleanupEntry)
      requires Valid() && AtEntry(x) && x.target == OfThread(t) && !x.cancel
      ensures t in threads && t.state != Cleanup && t !in late
    {
      EntryThread(t, x);
    }

    /** Entries registered meanwhile do not move the teardown. */
    twostate lemma StillAt(x: CleanupEntry)
      requires old(AtEntry(x)) && ending && CleanupGrew() && reached == old(reached)
      ensures AtEntry(x)
    {
      assert cleanup[added..][reached] == old(cleanup)[old(added)..][reached];
    }

    twostate lemma TargetKept(x: CleanupEntry)
      requires EntriesKept() && x in old(cleanup)
      ensures x.target == old(x.target)
    {
      assert x in old(Marks());
    }

    /** The callback of an entry of the user is due. */
    ghost method UserCall(x: CleanupEntry)
      requires Valid() && current == null && ending
      modifies `log
      ensures Valid() && Did(CallUser(x))
    {
      hide Coherent, Enrolled, Registered, ClosingMatches, Views, Enabled, Step, Reaches, Memory;
      ghost var s0 := Abs();
      CallUserStep(s0, x);
      Commit(s0, CallUser(x));
    }

    /** The callback of an entry of the user, which can make any API calls. */
    method CleanupUser(x: CleanupEntry)
      requires Valid() && current == null && ending && closing == {} && owed == {} && AtEntry(x) && x.target.OfUser?
      modifies this, threads, events, leaked, set y | y in cleanup
      ensures Valid() && current == null && ending && closing == {} && owed == {} && reached == old(reached) + 1
      ensures Allocated() && EntriesKept() && leaked == old(leaked) && CleanupGrew()
      ensures PlainSince(old(log), log, 1) && |old(log)| < |log| && log[|old(log)|] == CallUser(x)
    {
      hide Valid, Abs, PlainSince, MarksKept, Quiet, Undisturbed, Step, Enabled;
      ghost var l0, m0 := log, Marks();
      UserCall(x);
      PlainStep(l0, CallUser(x));
      MarksSame(m0, l0, log);
      UserCalls(x);
      MarksTransitive(m0, l0, m0, l0 + [CallUser(x)], Marks(), log);
      PlainTransitive(l0, l0 + [CallUser(x)], log, 1);
      PlainKeeps(l0 + [CallUser(x)], log);
    }

    static lemma PlainKeeps(log0: seq<Action>, log1: seq<Action>)
      requires PlainSince(log0, log1, 0)
      ensures log0 <= log1
    {
    }

    method UserCalls(x: CleanupEntry)
      requires Valid() && current == null && ending && closing == {} && owed == {} && AtEntry(x) && x.target.OfUser?
      modifies this, threads, events, leaked, set y | y in cleanup
      ensures Valid() && current == null && ending && closing == {} && owed == {} && reached == old(reached) + 1
      ensures Allocated() && EntriesKept() && leaked == old(leaked) && CleanupGrew()
      ensures PlainSince(old(log), log, 0)
    {
      hide Valid, Abs, PlainSince, MarksKept, Quiet, Undisturbed;
      ghost var s0 := Abs();
      ValidRun();
      EndingIsQuiet(s0);
      ApiCalls();
      StillAt(x);
      TargetKept(x);
      Pass(x);
    }

    /** With every entry processed only threads spawned meanwhile are left. */
    lemma AllProcessed()
      requires Registered() && ClosingMatches() && closing == {} && added + reached == |cleanup|
      ensures threads == late
      ensures added <= |cleanup| && Distinct(cleanup)
      ensures forall e | e in events && e.cleanupSelf != null ::
        (e.cleanupSelf in leaked || e.cleanupSelf in cleanup[..added])
        && e.cleanupSelf.target == OfEvent(e) && !e.cleanupSelf.cancel
    {
      assert cleanup[added + reached..] == [];
      assert forall t | t in threads :: EntryOf(t);
      assert forall e | e in events :: EntryOfEvent(e);
    }

    /** What is left is given up: the entries of the finished list are freed, and those registered
        meanwhile drop out of the list with it. */
    method Discard()
      requires Registered() && ClosingMatches() && closing == {} && added + reached == |cleanup|
      requires Coherent(Memory()) && forall t | t in threads :: t.handles == []
      modifies `threads, `late, `lost, `leaked, `cleanup, `added, `reached, `mainQueue, `shadowQueue, `next
      modifies `finishPending, `asked, `ending
      ensures Registered() && ClosingMatches() && Coherent(Memory()) && Memory().td == map[]
      ensures !ending && mainQueue == [] && shadowQueue == [] && cleanup == [] && !finishPending && next == 0
      ensures threads == {} && late == {} && lost == old(lost) + old(late)
      ensures leaked == old(leaked) + set x | x in old(cleanup)[..old(added)]
      ensures forall e | e in events && e.cleanupSelf != null :: e.cleanupSelf in leaked
    {
      hide Coherent, Enrolled, Registered, ClosingMatches, Memory;
      AllProcessed();
      GiveUpThreads();
      GiveUpEntries();
      GiveUpQueues();
    }

    method GiveUpQueues()
      modifies `mainQueue, `shadowQueue, `next, `finishPending, `asked
      ensures mainQueue == [] && shadowQueue == [] && !finishPending && !asked && next == 0
    {
      mainQueue, shadowQueue, next, finishPending, asked := [], [], 0, false, false;
    }

    method GiveUpThreads()
      requires Coherent(Memory()) && forall t | t in threads :: t.handles == []
      modifies `threads, `late, `lost
      ensures Coherent(Memory()) && Memory().td == map[] && ClosingMatches()
      ensures threads == {} && late == {} && lost == old(lost) + old(late)
    {
      hide Coherent, Enrolled;
      LiveHandles();
      DroppedCoherent(Memory());
      ghost var m := Memory();
      threads, lost, late := {}, lost + late, {};
      assert Memory() == m.(td := map[]);
    }

    lemma LiveHandles()
      ensures forall t | t in threads :: t in Memory().td && Memory().td[t].handles == t.handles
      ensures forall t | t in Memory().td :: t in threads
    {
    }

    method GiveUpEntries()
      requires threads == {} && late == {} && added <= |cleanup| && Distinct(cleanup)
      requires forall e | e in events && e.cleanupSelf != null ::
        (e.cleanupSelf in leaked || e.cleanupSelf in cleanup[..added])
        && e.cleanupSelf.target == OfEvent(e) && !e.cleanupSelf.cancel
      modifies `leaked, `cleanup, `added, `reached, `ending
      ensures Registered() && !ending && cleanup == []
      ensures leaked == old(leaked) + set x | x in old(cleanup)[..old(added)]
      ensures forall e | e in events && e.cleanupSelf != null :: e.cleanupSelf in leaked
    {
      ghost var forgotten := cleanup[..added];
      leaked, cleanup, added, reached, ending := leaked + (set x | x in forgotten), [], 0, 0, false;
      NothingRegistered();
    }

    static lemma EntriesApart(list: seq<CleanupEntry>, added: nat)
      requires Distinct(list) && added <= |list|
      ensures forall x | x in list[..added] :: x !in list[added..]
    {
    }

    lemma NothingRegistered()
      requires threads == {} && late == {} && cleanup == [] && added == 0 && reached == 0
      requires forall e | e in events && e.cleanupSelf != null ::
        e.cleanupSelf in leaked && e.cleanupSelf.target == OfEvent(e) && !e.cleanupSelf.cancel
      ensures Registered()
    {
    }

    /** The entries and both ready queues are freed, only after all callbacks have run. */
    method FinishTeardown()
      requires Valid() && current == null && ending && closing == {} && owed == {} && added + reached == |cleanup|
      modifies `threads, `late, `lost, `leaked, `cleanup, `added, `reached, `mainQueue, `shadowQueue, `next
      modifies `finishPending, `asked, `ending, `log
      ensures Resting() && Did(Reset) && Idle() && threads == {}
      ensures mainQueue == [] && cleanup == [] && !finishPending && next == 0 && log == old(log) + [Reset]
      ensures leaked == old(leaked) + set x | x in old(cleanup)[..old(added)]
      ensures forall e | e in events && e.cleanupSelf != null :: e.cleanupSelf in leaked
    {
      hide Coherent, Enrolled, Reaches, Views, Registered, ClosingMatches, Enabled, Step, Memory;
      ghost var s0 := Abs();
      AllLate();
      NothingHeld();
      ResetStep(s0);
      Discard();
      NoViews(Memory().td);
      Commit(s0, Reset);
    }

    lemma AllLate()
      requires Registered() && ClosingMatches() && closing == {} && added + reached == |cleanup|
      ensures Abs().views.Keys == late
    {
      AllProcessed();
    }

    lemma NothingHeld()
      requires Reaches(log, Abs()) && Abs().views.Keys == late
      ensures forall t | t in threads :: t.handles == []
    {
      NeverStartedHoldNothing(Abs(), Memory().td);
      forall t | t in threads ensures t.handles == [] { LiveData(t); }
    }

    /** x stands before y in the list, that is, was registered later. */
    static ghost predicate Precedes(list: seq<CleanupEntry>, x: CleanupEntry, y: CleanupEntry) {
      exists i, j :: 0 <= i < j < |list| && list[i] == x && list[j] == y
    }

    static lemma FollowsAll(list: seq<CleanupEntry>, i: nat, called: seq<CleanupEntry>)
      requires Distinct(list) && i < |list| && forall x | x in called :: x in list[..i]
      ensures list[i] !in called && forall a | 0 <= a < |called| :: Precedes(list, called[a], list[i])
    {
      forall a | 0 <= a < |called| ensures Precedes(list, called[a], list[i]) {
        assert called[a] in list[..i];
      }
    }

    /** An entry that is not canceled when the teardown comes to it has not been canceled by any step. */
    lemma NotCanceled(x: CleanupEntry)
      requires Valid() && AtEntry(x) && !x.cancel
      ensures forall k :: 0 <= k < |log| ==> !Cancels(log[k], x.target)
    {
      IsAhead(x);
      assert TargetLive(x) && (x.target.OfThread? ==> EntryOf(x.target.thread));
      forall k | 0 <= k < |log| ensures !Cancels(log[k], x.target) {
        LiveNotEnded(INIT, log, k);
      }
    }

    /** How a teardown has gone so far: `list` are its entries, those in `called` have been torn down, and
        at[k] is the log at the moment entry k was reached. An entry is called iff it was not canceled
        before and no step up to that moment cancels it; then its teardown begins at once. */
    static ghost predicate Trail(m0: map<CleanupEntry, Mark>, log0: seq<Action>, list: seq<CleanupEntry>, i: nat,
                                 called: seq<CleanupEntry>, at: seq<seq<Action>>, log1: seq<Action>) {
      && |at| == i <= |list| && log0 <= log1
      && (forall k | 0 <= k < i :: TrailAt(m0, log0, list[k], list[k] in called, at[k], log1))
      && (forall j, k | 0 <= j < k < i :: at[j] <= at[k])
    }

    static ghost predicate TrailAt(m0: map<CleanupEntry, Mark>, log0: seq<Action>, x: CleanupEntry, called: bool,
                                   before: seq<Action>, log1: seq<Action>) {
      && x in m0 && log0 <= before <= log1
      && (called <==> !m0[x].canceled && !CanceledSince(log0, before, m0[x].target))
      && (called ==> |before| < |log1| && log1[|before|] == TearingStep(x, m0[x].target))
    }

    static lemma TrailGrows(m0: map<CleanupEntry, Mark>, log0: seq<Action>, list: seq<CleanupEntry>, i: nat,
                            called: seq<CleanupEntry>, at: seq<seq<Action>>, log1: seq<Action>, log2: seq<Action>)
      requires Trail(m0, log0, list, i, called, at, log1) && log1 <= log2
      ensures Trail(m0, log0, list, i, called, at, log2)
    {
    }

    static lemma TrailNext(m0: map<CleanupEntry, Mark>, log0: seq<Action>, list: seq<CleanupEntry>, i: nat,
                           called: seq<CleanupEntry>, at: seq<seq<Action>>, log1: seq<Action>, log2: seq<Action>,
                           c: bool)
      requires Trail(m0, log0, list, i, called, at, log1) && i < |list| && Distinct(list) && log1 <= log2
      requires list[i] !in called && TrailAt(m0, log0, list[i], c, log1, log2)
      ensures Trail(m0, log0, list, i + 1, if c then called + [list[i]] else called, at + [log1], log2)
    {
      var called2, at2 := if c then called + [list[i]] else called, at + [log1];
      forall k | 0 <= k < i + 1 ensures TrailAt(m0, log0, list[k], list[k] in called2, at2[k], log2) {
        if k < i { assert TrailAt(m0, log0, list[k], list[k] in called, at[k], log1) && list[k] != list[i]; }
      }
    }

    /** The entries called so far: each once, newest first. */
    static ghost predicate NewestFirst(list: seq<CleanupEntry>, i: nat, called: seq<CleanupEntry>)
      requires i <= |list|
    {
      && Distinct(called) && (forall x | x in called :: x in list[..i])
      && forall a, b | 0 <= a < b < |called| :: Precedes(list, called[a], called[b])
    }

    static lemma CallNewest(list: seq<CleanupEntry>, i: nat, called: seq<CleanupEntry>, c: bool)
      requires i < |list| && Distinct(list) && NewestFirst(list, i, called)
      ensures NewestFirst(list, i + 1, if c then called + [list[i]] else called) && list[i] !in called
    {
      hide Precedes;
      assert list[..i + 1] == list[..i] + [list[i]];
      FollowsAll(list, i, called);
    }

    /** The state of the loop in `stimc_cleanup_run` over `list`, of which i entries have been reached. */
    ghost predicate TearingDown(list: seq<CleanupEntry>, i: nat)
      reads this, threads, events, cleanup, leaked
    {
      && Valid() && current == null && ending && closing == {} && owed == {}
      && added <= |cleanup| && cleanup[added..] == list && reached == i <= |list|
    }

    /** Entries registered during the teardown are none of those it goes through. */
    lemma LateApart(list: seq<CleanupEntry>)
      requires TearingDown(list, |list|)
      ensures forall x | x in cleanup[..added] :: x !in list
    {
      EntriesApart(cleanup, added);
    }

    lemma NextEntry(list: seq<CleanupEntry>, i: nat)
      requires TearingDown(list, i) && i < |list|
      ensures AtEntry(list[i]) && Distinct(list) && Inv(Abs())
    {
      assert cleanup[added + i] == cleanup[added..][i];
    }

    static lemma NothingReached(m0: map<CleanupEntry, Mark>, log0: seq<Action>, list: seq<CleanupEntry>,
                                log1: seq<Action>)
      requires log0 <= log1
      ensures Trail(m0, log0, list, 0, [], [], log1) && NewestFirst(list, 0, [])
    {
    }

    /** Entry i is reached, and called iff nothing has canceled it. */
    method TearDownNext(ghost m0: map<CleanupEntry, Mark>, ghost l0: seq<Action>, list: seq<CleanupEntry>, i: nat)
      returns (ghost called: bool)
      requires TearingDown(list, i) && i < |list| && l0 <= log && list[i] in m0
      requires MarksKept(m0, l0, Marks(), log) && NoResumeSince(l0, log)
      modifies this, threads, events, leaked, set y | y in cleanup
      ensures TearingDown(list, i + 1) && Allocated() && leaked == old(leaked)
      ensures MarksKept(m0, l0, Marks(), log) && NoResumeSince(l0, log) && old(log) <= log
      ensures TrailAt(m0, l0, list[i], called, old(log), log)
      ensures var a := TearingStep(list[i], m0[list[i]].target);
        Torn(log) == Torn(old(log)) + if called && OfTeardown(a) then [a] else []
    {
      hide Valid, Abs, NoResumeSince, PlainSince, Torn;
      var x := list[i];
      ghost var l1, m1 := log, Marks();
      NextEntry(list, i);
      MarkOf(x);
      if !x.cancel { NotCanceled(x); }
      called := CleanupOne(x);
      MarksTransitive(m0, l0, m1, l1, Marks(), log);
      NoResumeByFirst(l1, log);
      NoResumeTransitive(l0, l1, log);
      TornByFirst(l1, log);
    }

    lemma MarkOf(x: CleanupEntry)
      requires AtEntry(x)
      ensures x in Marks() && Marks()[x] == Mark(x.target, x.cancel)
    {
    }

    /** The loop in `stimc_cleanup_run` over the list as it is when the teardown begins. */
    method TearDownAll(ghost m0: map<CleanupEntry, Mark>, ghost l0: seq<Action>, list: seq<CleanupEntry>)
      returns (ghost called: seq<CleanupEntry>, ghost at: seq<seq<Action>>)
      requires TearingDown(list, 0) && Distinct(list) && l0 <= log && forall x | x in list :: x in m0
      requires MarksKept(m0, l0, Marks(), log) && NoResumeSince(l0, log)
      modifies this, threads, events, leaked, set x | x in cleanup
      ensures TearingDown(list, |list|) && Allocated() && leaked == old(leaked) && old(log) <= log
      ensures NoResumeSince(l0, log)
      ensures NewestFirst(list, |list|, called) && Trail(m0, l0, list, |list|, called, at, log)
      ensures (forall x | x in called :: x in m0) && Torn(log) == Torn(old(log)) + Tearing(called, m0)
    {
      hide TearingDown, Valid, Abs, NoResumeSince, NewestFirst, MarksKept, Trail, TrailAt, Torn;
      ghost var start := log;
      called, at := [], [];
      NothingReached(m0, l0, list, log);
      var i := 0;
      while i < |list|
        invariant TearingDown(list, i) && i <= |list| && start <= log && l0 <= log
        invariant Allocated() && leaked == old(leaked) && MarksKept(m0, l0, Marks(), log) && NoResumeSince(l0, log)
        invariant NewestFirst(list, i, called) && Trail(m0, l0, list, i, called, at, log)
        invariant (forall x | x in called :: x in m0) && Torn(log) == Torn(start) + Tearing(called, m0)
      {
        ghost var l1 := log;
        ghost var c := TearDownNext(m0, l0, list, i);
        CallNewest(list, i, called, c);
        TrailNext(m0, l0, list, i, called, at, l1, log, c);
        TearingNext(called, m0, list[i]);
        called, at := if c then called + [list[i]] else called, at + [l1];
        i := i + 1;
      }
    }

    lemma LeakedApart()
      requires Valid()
      ensures Distinct(cleanup) && forall x | x in leaked :: x !in cleanup
    {
    }

    lemma TeardownBegun()
      requires Valid() && current == null && ending && closing == {} && owed == {} && added == 0 && reached == 0
      ensures TearingDown(cleanup, 0)
    {
    }

    /** The end of the teardown, for the list it went through. */
    method EndTeardown(list: seq<CleanupEntry>)
      requires TearingDown(list, |list|)
      modifies `threads, `late, `lost, `leaked, `cleanup, `added, `reached, `mainQueue, `shadowQueue, `next
      modifies `finishPending, `asked, `ending, `log
      ensures Resting() && Idle() && threads == {} && mainQueue == [] && cleanup == [] && !finishPending && next == 0
      ensures forall x | x in leaked :: x in old(leaked) || (x in old(cleanup) && x !in list)
      ensures forall e | e in events && e.cleanupSelf != null :: e.cleanupSelf in leaked
      ensures log == old(log) + [Reset]
    {
      hide Valid, Abs, Swept, Step, Enabled;
      LateApart(list);
      FinishTeardown();
    }

    static lemma OneMore(log0: seq<Action>, a: Action)
      requires !a.Resume? && !OfTeardown(a)
      ensures NoResumeSince(log0, log0 + [a]) && Torn(log0 + [a]) == Torn(log0)
    {
      TornSnoc(log0, a);
    }

    ghost function EntriesOfEvents(): map<Event, CleanupEntry?>
      reads `events, events`cleanupSelf
    {
      map e | e in events :: e.cleanupSelf
    }

    /** The events with waiters, but for those whose entry an earlier teardown has given up. */
    ghost function AwaitedEvents(): set<Event>
      reads `events, `leaked, events`slots, events`cleanupSelf
    {
      set e | e in events && e.slots != [] && e.cleanupSelf !in leaked
    }

    /** Awaited events have entries in the list, and the uncanceled entries of events there are those of live
        ones. */
    static ghost predicate Listed(own: map<Event, CleanupEntry?>, awaited: set<Event>,
                                  marks: map<CleanupEntry, Mark>) {
      && (forall e | e in awaited :: e in own && own[e] != null && own[e] in marks
            && marks[own[e]] == Mark(OfEvent(e), false))
      && (forall x | x in marks && marks[x].target.OfEvent? && !marks[x].canceled ::
            marks[x].target.event in own && own[marks[x].target.event] == x)
    }

    lemma EventsAreListed()
      requires Valid() && !ending
      ensures Listed(EntriesOfEvents(), AwaitedEvents(), Marks())
    {
      forall e | e in AwaitedEvents()
        ensures e.cleanupSelf != null && e.cleanupSelf in Marks() && Marks()[e.cleanupSelf] == Mark(OfEvent(e), false)
      {
        assert EntryOfEvent(e);
      }
      forall x | x in cleanup && x.target.OfEvent? && !x.cancel
        ensures x.target.event in events && x.target.event.cleanupSelf == x
      {
        assert cleanup[added + reached..] == cleanup;
        assert TargetLive(x);
      }
    }

    /** An uncanceled entry of an event is either called, or the event is freed before it is reached. */
    static lemma ForgottenOrFreed(m0: map<CleanupEntry, Mark>, log0: seq<Action>, list: seq<CleanupEntry>,
                                  called: seq<CleanupEntry>, at: seq<seq<Action>>, log1: seq<Action>,
                                  x: CleanupEntry, e: Event)
      requires Trail(m0, log0, list, |list|, called, at, log1) && x in list
      requires x in m0 && m0[x] == Mark(OfEvent(e), false)
      ensures HappensSince(log0, log1, Forget(e)) || HappensSince(log0, log1, FreeEvent(e))
    {
      var k :| 0 <= k < |list| && list[k] == x;
      assert TrailAt(m0, log0, list[k], list[k] in called, at[k], log1);
      if x in called {
        assert log1[|at[k]|] == Forget(e);
      } else {
        var i :| |log0| <= i < |at[k]| && Cancels(at[k][i], OfEvent(e));
        assert log1[i] == FreeEvent(e);
      }
    }

    /** The teardown turns to an event only if its entry was in the list. */
    static lemma ForgottenWasListed(m0: map<CleanupEntry, Mark>, log0: seq<Action>, list: seq<CleanupEntry>,
                                    called: seq<CleanupEntry>, at: seq<seq<Action>>, log1: seq<Action>, e: Event)
      returns (x: CleanupEntry)
      requires Trail(m0, log0, list, |list|, called, at, log1) && NewestFirst(list, |list|, called)
      requires (forall y | y in called :: y in m0) && Torn(log1) == Torn(log0) + Tearing(called, m0)
      requires HappensSince(log0, log1, Forget(e))
      ensures x in list && x in m0 && m0[x] == Mark(OfEvent(e), false)
    {
      hide Torn, Tearing;
      var k :| |log0| <= k < |log1| && log1[k] == Forget(e);
      var i := InTorn(log0, log1, k);
      assert Torn(log1)[i] == Tearing(called, m0)[i - |Torn(log0)|];
      x := TearingForget(called, m0, e);
      assert list[..|list|] == list;
      var j :| 0 <= j < |list| && list[j] == x;
      assert TrailAt(m0, log0, list[j], list[j] in called, at[j], log1);
    }

    /** `stimc_cleanup_internal`. The callbacks called are, newest first and each once, exactly those of the
        entries that were not canceled by the time they were reached: not before the teardown, and by no
        step of it. Those of events and of the user are called in this order and for no other entry; each
        event that was waited for drops its waiters, unless it is freed first. Afterwards every thread has
        been freed except those spawned meanwhile, nothing is queued, no event points to a freed entry, and
        no queued thread was started on the way. */
    method EndOfSimulation() returns (ghost called: seq<CleanupEntry>, ghost at: seq<seq<Action>>)
      requires Resting()
      modifies this, threads, events, leaked, set x | x in cleanup
      ensures Resting() && Idle() && Allocated() && old(log) <= log
      ensures threads == {} && mainQueue == [] && cleanup == [] && !finishPending && next == 0
      ensures forall x | x in leaked :: x in old(leaked) || fresh(x)
      ensures forall e | e in events && e.cleanupSelf != null ::
        e.cleanupSelf in leaked && e.cleanupSelf !in old(cleanup)
      ensures NoResumeSince(old(log), log) && log != [] && log[|log| - 1] == Reset
      ensures NewestFirst(old(cleanup), |old(cleanup)|, called)
      ensures Trail(old(Marks()), old(log), old(cleanup), |old(cleanup)|, called, at, log)
      ensures (forall x | x in called :: x in old(cleanup))
        && Torn(log) == old(Torn(log)) + Tearing(called, old(Marks()))
      ensures forall e | e in old(AwaitedEvents()) ::
        HappensSince(old(log), log, Forget(e)) || HappensSince(old(log), log, FreeEvent(e))
      ensures forall e | HappensSince(old(log), log, Forget(e)) ::
        e in old(events) && old(EntriesOfEvents())[e] in old(cleanup)
    {
      hide Valid, Abs, NoResumeSince, NewestFirst, Trail, Swept, Torn, Tearing, HappensSince, Listed, AwaitedEvents;
      ghost var own, awaited, m0, l0, list := EntriesOfEvents(), AwaitedEvents(), Marks(), log, cleanup;
      EventsAreListed();
      called, at := WholeTeardown();
      EventsInTeardown(own, awaited, m0, l0, list, called, at, log);
    }

    /** What this means for the events. */
    static lemma EventsInTeardown(own: map<Event, CleanupEntry?>, awaited: set<Event>,
                                  m0: map<CleanupEntry, Mark>, log0: seq<Action>, list: seq<CleanupEntry>,
                                  called: seq<CleanupEntry>, at: seq<seq<Action>>, log1: seq<Action>)
      requires Listed(own, awaited, m0) && forall x :: x in m0 <==> x in list
      requires Trail(m0, log0, list, |list|, called, at, log1) && NewestFirst(list, |list|, called)
      requires (forall x | x in called :: x in m0) && Torn(log1) == Torn(log0) + Tearing(called, m0)
      ensures forall e | e in awaited :: HappensSince(log0, log1, Forget(e)) || HappensSince(log0, log1, FreeEvent(e))
      ensures forall e | HappensSince(log0, log1, Forget(e)) :: e in own && own[e] in list
    {
      hide NewestFirst, Trail, Torn, Tearing, HappensSince;
      forall e | e in awaited
        ensures HappensSince(log0, log1, Forget(e)) || HappensSince(log0, log1, FreeEvent(e))
      {
        ForgottenOrFreed(m0, log0, list, called, at, log1, own[e], e);
      }
      forall e | HappensSince(log0, log1, Forget(e)) ensures e in own && own[e] in list {
        var x := ForgottenWasListed(m0, log0, list, called, at, log1, e);
      }
    }

    method WholeTeardown() returns (ghost called: seq<CleanupEntry>, ghost at: seq<seq<Action>>)
      requires Resting()
      modifies this, threads, events, leaked, set x | x in cleanup
      ensures Resting() && Idle() && Allocated() && old(log) <= log
      ensures threads == {} && mainQueue == [] && cleanup == [] && !finishPending && next == 0
      ensures forall x | x in leaked :: x in old(leaked) || fresh(x)
      ensures forall e | e in events && e.cleanupSelf != null ::
        e.cleanupSelf in leaked && e.cleanupSelf !in old(cleanup)
      ensures NoResumeSince(old(log), log) && log != [] && log[|log| - 1] == Reset
      ensures NewestFirst(old(cleanup), |old(cleanup)|, called)
      ensures Trail(old(Marks()), old(log), old(cleanup), |old(cleanup)|, called, at, log)
      ensures (forall x | x in called :: x in old(cleanup))
        && Torn(log) == old(Torn(log)) + Tearing(called, old(Marks()))
    {
      hide TearingDown, Valid, Abs, Step, Enabled, NoResumeSince, NewestFirst, MarksKept, Trail, TrailAt, Swept, Torn;
      hide Tearing;
      ghost var m0, l0 := Marks(), log;
      var list := cleanup;
      LeakedApart();
      BeginTeardown();
      TeardownBegun();
      OneMore(l0, BeginEnd);
      MarksSame(m0, l0, log);
      called, at := TearDownAll(m0, l0, list);
      ghost var l1 := log;
      EndTeardown(list);
      OneMore(l1, Reset);
      NoResumeTransitive(l0, l1, log);
      TrailGrows(m0, l0, list, |list|, called, at, l1, log);
    }
  }
}
