/** What holds over whole runs of the kernel, proved about the sequences of steps that WaitSpec
    enables. A Kernel keeps the log of its steps, so every statement here is one about it. */
module RunTheorems {
  import opened Objects
  import opened Handles
  import opened WaitSpec

  lemma ExecPrefix(s: Sys, acts: seq<Action>)
    requires acts != [] && Exec(s, acts).At?
    ensures var n := |acts| - 1;
      Exec(s, acts[..n]).At? && Enabled(Exec(s, acts[..n]).s, acts[n])
      && Exec(s, acts).s == Step(Exec(s, acts[..n]).s, acts[n])
  {
  }

  /** Every prefix of a run is a run. */
  lemma {:induction false} ExecTake(s: Sys, acts: seq<Action>, k: nat)
    requires Exec(s, acts).At? && k <= |acts|
    ensures Exec(s, acts[..k]).At?
    ensures Inv(s) ==> Inv(Exec(s, acts[..k]).s)
    decreases |acts|
  {
    if k == |acts| {
      assert acts[..k] == acts;
      if Inv(s) { RunKeepsInv(s, acts); }
    } else {
      var n := |acts| - 1;
      ExecPrefix(s, acts);
      ExecTake(s, acts[..n], k);
      assert acts[..n][..k] == acts[..k];
    }
  }

  // -----------------------------------------------------------------------------------------------
  // Order of execution

  /** The threads a step makes ready, in the order they are appended. */
  function Queued(a: Action): seq<Thread> {
    match a
    case Trigger(_, woken) => woken
    case Spawn(t) => [t]
    case TimerFires(t) => [t]
    case _ => []
  }

  function Started(a: Action): seq<Thread> {
    match a
    case Resume(t) => [t]
    case _ => []
  }

  function AllQueued(acts: seq<Action>): seq<Thread> {
    if acts == [] then [] else AllQueued(acts[..|acts| - 1]) + Queued(acts[|acts| - 1])
  }

  function AllStarted(acts: seq<Action>): seq<Thread> {
    if acts == [] then [] else AllStarted(acts[..|acts| - 1]) + Started(acts[|acts| - 1])
  }

  predicate Discards(a: Action) {
    a.Drop? || a.Reset?
  }

  lemma FifoStep(s: Sys, a: Action)
    requires Enabled(s, a) && !Discards(a)
    ensures s.ready + Queued(a) == Started(a) + Step(s, a).ready
  {
  }

  lemma Regroup(r: seq<Thread>, q: seq<Thread>, st: seq<Thread>, u: seq<Thread>,
                q1: seq<Thread>, st1: seq<Thread>, w: seq<Thread>)
    requires r + q == st + u && u + q1 == st1 + w
    ensures r + (q + q1) == (st + st1) + w
  {
    assert r + (q + q1) == (r + q) + q1;
    assert st + (u + q1) == (st + st1) + w;
  }

  /** As long as nothing is discarded, threads are started in exactly the order in which they became
      ready, including those made ready by threads of the same batch, and none is lost or doubled. */
  lemma {:induction false} RunsInReadyOrder(s: Sys, acts: seq<Action>)
    requires Exec(s, acts).At? && forall a | a in acts :: !Discards(a)
    ensures s.ready + AllQueued(acts) == AllStarted(acts) + Exec(s, acts).s.ready
    decreases |acts|
  {
    if acts == [] {
    } else {
      var n := |acts| - 1;
      var u, a := Exec(s, acts[..n]).s, acts[n];
      hide Step, Enabled;
      ExecPrefix(s, acts);
      RunsInReadyOrder(s, acts[..n]);
      FifoStep(u, a);
      Regroup(s.ready, AllQueued(acts[..n]), AllStarted(acts[..n]), u.ready, Queued(a), Started(a), Step(u, a).ready);
    }
  }

  /** Once finish is pending, no queued thread is started until the simulation has been torn down. */
  lemma {:induction false} NothingStartsAfterFinish(s: Sys, acts: seq<Action>)
    requires Exec(s, acts).At? && s.finishPending && forall a | a in acts :: !a.Reset?
    ensures Exec(s, acts).s.finishPending && AllStarted(acts) == []
    decreases |acts|
  {
    if acts == [] {
    } else {
      var n := |acts| - 1;
      ExecPrefix(s, acts);
      NothingStartsAfterFinish(s, acts[..n]);
      assert acts[n] in acts;
    }
  }

  // -----------------------------------------------------------------------------------------------
  // Waiting: when exactly does a thread become ready again?

  /** The event nobody waits for any more after the step. */
  function Removed(a: Action): set<Event> {
    if a.FreeEvent? || a.Forget? || a.Trigger? then {a.e} else {}
  }

  ghost function Left(awaited: set<Event>, acts: seq<Action>): set<Event> {
    set e | e in awaited && forall a | a in acts :: e !in Removed(a)
  }

  /** The rule for a wait on `awaited` begun before acts, stated on the history alone: step k wakes the
      thread if its timer fires, or an event still awaited is triggered and (ANY) that suffices or
      (ALL) it is the last one. */
  ghost predicate WakesAt(t: Thread, awaited: set<Event>, any: bool, acts: seq<Action>, k: nat)
    requires k < |acts|
  {
    || acts[k] == TimerFires(t)
    || (acts[k].Trigger? && acts[k].e in Left(awaited, acts[..k])
        && (any || Left(awaited, acts[..k]) == {acts[k].e}))
  }

  /** t, waiting in state s, has not been made ready by acts. */
  ghost predicate Unwoken(t: Thread, acts: seq<Action>) {
    forall a | a in acts :: t !in Queued(a)
  }

  ghost predicate StartsWaiting(s: Sys, t: Thread) {
    Inv(s) && !s.ending && t in s.views && Waiting(s.views[t]) && s.views[t].state == Running
  }

  ghost predicate NoTeardown(acts: seq<Action>) {
    forall a | a in acts :: !a.BeginEnd? && !a.Reset?
  }

  /** The data of a thread that is still waiting: the events left, and a timed wait all of whose events
      were freed is already marked as a timeout. */
  ghost function WaitView(v: View, left: set<Event>): View {
    v.(awaited := left, timedOut := v.timedOut || (v.timer && left == {} && v.awaited != {}))
  }

  lemma LeftSnoc(awaited: set<Event>, acts: seq<Action>)
    requires acts != []
    ensures Left(awaited, acts) == Left(awaited, acts[..|acts| - 1]) - Removed(acts[|acts| - 1])
  {
  }

  /** A waiting thread that is not made ready is only changed by losing events. */
  lemma WaitingStep(u: Sys, a: Action, t: Thread)
    requires Inv(u) && !u.ending && Enabled(u, a) && !a.BeginEnd?
    requires t in u.views && t !in u.ready && t != u.current && u.views[t].state == Running
    ensures t in Queued(a) <==> (a == TimerFires(t) || (a.Trigger? && Wakes(u.views[t], a.e)))
    ensures t !in Queued(a) ==>
      var w := Step(u, a);
      && t in w.views && t !in w.ready && t != w.current && !w.ending
      && var x := u.views[t];
         w.views[t] == (if a.Trigger? then AfterTrigger(x, a.e)
                        else if a.FreeEvent? then AfterFree(x, a.e) else x)
  {
  }

  /** A thread that has not been made ready waits for exactly the events that no step removed. */
  lemma {:induction false} StillWaiting(s: Sys, acts: seq<Action>, t: Thread)
    requires StartsWaiting(s, t) && Exec(s, acts).At? && NoTeardown(acts) && Unwoken(t, acts)
    ensures var u, v := Exec(s, acts).s, s.views[t];
      && Inv(u) && t in u.views && t !in u.ready && t != u.current && !u.ending
      && u.views[t] == WaitView(v, Left(v.awaited, acts))
    decreases |acts|
  {
    RunKeepsInv(s, acts);
    var v := s.views[t];
    if acts == [] {
      assert Left(v.awaited, acts) == v.awaited;
    } else {
      var n := |acts| - 1;
      var u, a := Exec(s, acts[..n]).s, acts[n];
      assert a in acts;
      ExecPrefix(s, acts);
      StillWaiting(s, acts[..n], t);
      RunKeepsInv(s, acts[..n]);
      LeftSnoc(v.awaited, acts);
      WaitingStep(u, a, t);
      hide Step, Enabled, Inv;
      NotWoken(v, u.views[t], acts, t);
    }
  }

  /** The step in terms of what is left to wait for. */
  lemma NotWoken(v: View, x: View, acts: seq<Action>, t: Thread)
    requires acts != []
    requires var n := |acts| - 1; x == WaitView(v, Left(v.awaited, acts[..n]))
    requires Left(v.awaited, acts) == Left(v.awaited, acts[..|acts| - 1]) - Removed(acts[|acts| - 1])
    requires acts[|acts| - 1].Trigger? ==> !Wakes(x, acts[|acts| - 1].e)
    requires !acts[|acts| - 1].Forget?
    ensures var a := acts[|acts| - 1];
      WaitView(v, Left(v.awaited, acts)) ==
        (if a.Trigger? then AfterTrigger(x, a.e) else if a.FreeEvent? then AfterFree(x, a.e) else x)
  {
  }

  /** Whole-run wake theorem: a thread that starts waiting becomes ready at the first step that WakesAt
      picks out, and at no other. */
  lemma BecomesReadyWhen(s: Sys, acts: seq<Action>, t: Thread)
    requires StartsWaiting(s, t) && acts != [] && Exec(s, acts).At? && NoTeardown(acts)
    requires Unwoken(t, acts[..|acts| - 1])
    ensures t in Queued(acts[|acts| - 1]) <==>
      WakesAt(t, s.views[t].awaited, s.views[t].any, acts, |acts| - 1)
  {
    var n := |acts| - 1;
    var u := Exec(s, acts[..n]).s;
    assert acts[n] in acts && forall a | a in acts[..n] :: a in acts;
    ExecPrefix(s, acts);
    StillWaiting(s, acts[..n], t);
    WaitingStep(u, acts[n], t);
  }

  ghost predicate Triggered(acts: seq<Action>, e: Event) {
    exists a | a in acts :: a.Trigger? && a.e == e
  }

  /** No event is freed and the thread's timer does not fire. */
  ghost predicate OnlyTriggers(acts: seq<Action>, t: Thread) {
    forall a | a in acts :: !a.FreeEvent? && !a.Forget? && a != TimerFires(t)
  }

  lemma LeftUntriggered(awaited: set<Event>, acts: seq<Action>, t: Thread)
    requires OnlyTriggers(acts, t)
    ensures Left(awaited, acts) == set e | e in awaited && !Triggered(acts, e)
  {
  }

  lemma AllRule(t: Thread, S: set<Event>, acts: seq<Action>)
    requires acts != [] && OnlyTriggers(acts, t) && Left(S, acts[..|acts| - 1]) != {}
    ensures WakesAt(t, S, false, acts, |acts| - 1) <==> forall e | e in S :: Triggered(acts, e)
  {
    var before, a := Left(S, acts[..|acts| - 1]), acts[|acts| - 1];
    assert a in acts;
    LeftSnoc(S, acts);
    LeftUntriggered(S, acts, t);
    assert Left(S, acts) == before - Removed(a);
    if forall e | e in S :: Triggered(acts, e) {
      assert Left(S, acts) == {};
      assert before <= Removed(a);
      assert before == Removed(a);
    }
    if WakesAt(t, S, false, acts, |acts| - 1) {
      assert Left(S, acts) == {};
      forall e | e in S ensures Triggered(acts, e) {
        assert e !in Left(S, acts);
      }
    }
  }

  lemma LeftWhenUnfinished(S: set<Event>, acts: seq<Action>, t: Thread)
    requires acts != [] && OnlyTriggers(acts, t) && Left(S, acts[..|acts| - 1]) != {}
    requires !WakesAt(t, S, false, acts, |acts| - 1)
    ensures Left(S, acts) != {}
  {
  }

  lemma OnlyTriggersPrefix(acts: seq<Action>, n: nat, t: Thread)
    requires n <= |acts| && OnlyTriggers(acts, t) && NoTeardown(acts) && Unwoken(t, acts)
    ensures OnlyTriggers(acts[..n], t) && NoTeardown(acts[..n]) && Unwoken(t, acts[..n])
  {
    assert forall b | b in acts[..n] :: b in acts;
  }

  /** An ALL wait without frees never runs out of events while it lasts. */
  lemma {:induction false} SomethingLeft(s: Sys, acts: seq<Action>, t: Thread)
    requires StartsWaiting(s, t) && Exec(s, acts).At? && NoTeardown(acts) && Unwoken(t, acts)
    requires OnlyTriggers(acts, t) && s.views[t].awaited != {} && !s.views[t].any
    ensures Left(s.views[t].awaited, acts) != {}
    decreases |acts|
  {
    hide Step, Enabled, Inv, WakesAt, OnlyTriggers, Triggered, NoTeardown, Exec;
    var S := s.views[t].awaited;
    if acts == [] {
      assert Left(S, acts) == S;
    } else {
      var n := |acts| - 1;
      assert acts[n] in acts;
      ExecPrefix(s, acts);
      OnlyTriggersPrefix(acts, n, t);
      SomethingLeft(s, acts[..n], t);
      BecomesReadyWhen(s, acts, t);
      LeftWhenUnfinished(S, acts, t);
    }
  }

  /** Without frees and before its timer fires, an ALL wait is over at the first step by which every
      awaited event has been triggered since it began. */
  lemma AllWaitEndsWhen(s: Sys, acts: seq<Action>, t: Thread)
    requires StartsWaiting(s, t) && acts != [] && Exec(s, acts).At? && NoTeardown(acts)
    requires Unwoken(t, acts[..|acts| - 1]) && OnlyTriggers(acts, t)
    requires s.views[t].awaited != {} && !s.views[t].any
    ensures t in Queued(acts[|acts| - 1]) <==> forall e | e in s.views[t].awaited :: Triggered(acts, e)
  {
    var n := |acts| - 1;
    assert forall b | b in acts[..n] :: b in acts;
    ExecPrefix(s, acts);
    SomethingLeft(s, acts[..n], t);
    BecomesReadyWhen(s, acts, t);
    AllRule(t, s.views[t].awaited, acts);
  }

  lemma AnyRule(t: Thread, S: set<Event>, acts: seq<Action>)
    requires acts != [] && OnlyTriggers(acts, t) && Left(S, acts[..|acts| - 1]) == S
    ensures WakesAt(t, S, true, acts, |acts| - 1) <==> exists e :: e in S && Triggered(acts, e)
    ensures !WakesAt(t, S, true, acts, |acts| - 1) ==> Left(S, acts) == S
  {
    var n := |acts| - 1;
    assert acts[n] in acts;
    LeftSnoc(S, acts);
    LeftUntriggered(S, acts, t);
    if WakesAt(t, S, true, acts, n) {
      assert acts[n].e in S && Triggered(acts, acts[n].e);
    } else {
      assert Left(S, acts) == S;
      forall e | e in S ensures !Triggered(acts, e) {
        assert e in Left(S, acts);
      }
    }
  }

  lemma {:induction false} AllLeft(s: Sys, acts: seq<Action>, t: Thread)
    requires StartsWaiting(s, t) && Exec(s, acts).At? && NoTeardown(acts) && Unwoken(t, acts)
    requires OnlyTriggers(acts, t) && s.views[t].any
    ensures Left(s.views[t].awaited, acts) == s.views[t].awaited
    decreases |acts|
  {
    if acts == [] {
    } else {
      var n := |acts| - 1;
      assert acts[n] in acts && forall b | b in acts[..n] :: b in acts;
      ExecPrefix(s, acts);
      AllLeft(s, acts[..n], t);
      BecomesReadyWhen(s, acts, t);
      AnyRule(t, s.views[t].awaited, acts);
    }
  }

  /** An ANY wait is over at the first trigger of a member. */
  lemma AnyWaitEndsWhen(s: Sys, acts: seq<Action>, t: Thread)
    requires StartsWaiting(s, t) && acts != [] && Exec(s, acts).At? && NoTeardown(acts)
    requires Unwoken(t, acts[..|acts| - 1]) && OnlyTriggers(acts, t) && s.views[t].any
    ensures t in Queued(acts[|acts| - 1]) <==> exists e :: e in s.views[t].awaited && Triggered(acts, e)
  {
    var n := |acts| - 1;
    assert forall b | b in acts[..n] :: b in acts;
    ExecPrefix(s, acts);
    AllLeft(s, acts[..n], t);
    BecomesReadyWhen(s, acts, t);
    AnyRule(t, s.views[t].awaited, acts);
  }

  // -----------------------------------------------------------------------------------------------
  // Timeouts

  /** A timed wait reports a timeout iff its timer woke it, whatever was freed meanwhile, unless it was
      a wait on no event at all. */
  lemma TimeoutIsTrue(s: Sys, acts: seq<Action>, t: Thread)
    requires StartsWaiting(s, t) && acts != [] && Exec(s, acts).At? && NoTeardown(acts)
    requires Unwoken(t, acts[..|acts| - 1]) && t in Queued(acts[|acts| - 1])
    requires s.views[t].timer && !s.views[t].timedOut
    ensures t in Exec(s, acts).s.views
    ensures Exec(s, acts).s.views[t].timedOut <==>
      acts[|acts| - 1] == TimerFires(t) && s.views[t].awaited != {}
  {
    var n := |acts| - 1;
    var u := Exec(s, acts[..n]).s;
    assert acts[n] in acts && forall a | a in acts[..n] :: a in acts;
    ExecPrefix(s, acts);
    StillWaiting(s, acts[..n], t);
    WaitingStep(u, acts[n], t);
    assert Left(s.views[t].awaited, acts[..n]) <= s.views[t].awaited;
  }

  /** Right after a timed wait has begun: the flag is reset and the timer runs. */
  lemma TimedWaitBegins(s: Sys, a: Action)
    requires Inv(s) && Enabled(s, a)
    requires (a.WaitOne? || a.WaitMany?) && a.timed
    ensures s.views[s.current].state == Running ==> StartsWaiting(Step(s, a), s.current)
    ensures var v := Step(s, a).views[s.current];
      v.timer && !v.timedOut && v.awaited == if a.WaitOne? then {a.e} else Members(a.es)
  {
  }

  /** Any wait, without the functions of the specification: what the thread waits for, whether with a timer,
      and that its state and its wishes stay. */
  lemma WaitBegins(s: Sys, a: Action)
    requires Inv(s) && Enabled(s, a) && (a.WaitOne? || a.WaitMany? || a.Sleep?)
    ensures s.current in s.views && s.current in Step(s, a).views && Step(s, a).current == null
    ensures var v, w := s.views[s.current], Step(s, a).views[s.current];
      && (forall e :: e in w.awaited <==> if a.WaitOne? then e == a.e else a.WaitMany? && e in a.es)
      && (w.timer <==> a.Sleep? || a.timed)
      && (a.WaitMany? ==> w.any == a.any)
      && (w.timedOut <==> v.timedOut && (a.Sleep? || !a.timed))
      && w.state == v.state && w.resumeOnFinish == v.resumeOnFinish && w.cleanups == v.cleanups
  {
  }

  /** An event that is freed, or whose waiters the teardown drops, wakes nobody; each waiter stops waiting for
      it, and a timed wait that has lost its last event will report a timeout. */
  lemma EventGone(s: Sys, a: Action, t: Thread)
    requires Enabled(s, a) && (a.FreeEvent? || a.Forget?) && t in s.views
    ensures Step(s, a).ready == s.ready && t in Step(s, a).views
    ensures var v, w := s.views[t], Step(s, a).views[t];
      && (forall e :: e in w.awaited <==> e in v.awaited && e != a.e)
      && w.timer == v.timer && w.any == v.any && w.state == v.state
      && (w.timedOut <==> v.timedOut || (v.timer && w.awaited == {} && a.e in v.awaited))
  {
    assert s.views[t].awaited - {a.e} == {} && a.e in s.views[t].awaited ==> s.views[t].awaited == {a.e};
  }

  /** Halting leaves a running thread STOPPED, exit and the end of the simulation STOPPED_TO_FINISH, and a
      return FINISHED; in its final resume a thread stays in CLEANUP. */
  lemma StateAfterLeaving(s: Sys, a: Action)
    requires Inv(s) && Enabled(s, a) && (a.Halt? || a.Exit? || a.Return? || a.Finish?)
    ensures s.current in s.views && s.current in Step(s, a).views && Step(s, a).current == null
    ensures s.views[s.current].state == Running ==>
      Step(s, a).views[s.current].state ==
        if a.Halt? then Stopped else if a.Return? then Finished else StoppedToFinish
    ensures s.views[s.current].state != Running ==>
      s.views[s.current].state == Cleanup == Step(s, a).views[s.current].state
    ensures Step(s, a).finishPending <==> s.finishPending || a.Finish?
  {
  }

  function EmptyWait(t: Thread): seq<Action> {
    [Spawn(t), Resume(t)] + [WaitMany([], true, true), TimerFires(t)]
  }

  lemma TwoSteps(s: Sys, a: Action, b: Action)
    requires Enabled(s, a) && Enabled(Step(s, a), b)
    ensures Exec(s, [a, b]) == At(Step(Step(s, a), b))
  {
    hide Step, Enabled;
    ExecSnoc(s, [], a);
    assert [] + [a] == [a];
    ExecSnoc(s, [a], b);
    assert [a] + [b] == [a, b];
  }

  lemma {:induction false} ExecConcat(s: Sys, xs: seq<Action>, ys: seq<Action>)
    requires Exec(s, xs).At?
    ensures Exec(s, xs + ys) == Exec(Exec(s, xs).s, ys)
    decreases |ys|
  {
    hide Step, Enabled;
    if ys == [] {
      assert xs + ys == xs;
    } else {
      var m := |ys| - 1;
      ExecConcat(s, xs, ys[..m]);
      assert (xs + ys)[..|xs| + m] == xs + ys[..m];
    }
  }

  /** The exception is real: a timed wait on an empty combination is ended by its timer, and yet
      reports no timeout. */
  lemma EmptyCombinationDeniesTimeout(t: Thread)
    ensures var r := Exec(INIT, EmptyWait(t));
      r.At? && t in r.s.views && r.s.ready == [t] && !r.s.views[t].timedOut
  {
    StartedThread(t);
    var s2 := Exec(INIT, [Spawn(t), Resume(t)]).s;
    EmptyWaitFrom(s2, t);
    hide Step, Enabled;
    ExecConcat(INIT, [Spawn(t), Resume(t)], [WaitMany([], true, true), TimerFires(t)]);
  }

  lemma StartedThread(t: Thread)
    ensures Exec(INIT, [Spawn(t), Resume(t)]) ==
      At(INIT.(views := map[t := NEW_VIEW.(state := Running)], current := t))
  {
    var s1 := Step(INIT, Spawn(t));
    assert s1 == INIT.(views := map[t := NEW_VIEW], ready := [t]);
    assert Step(s1, Resume(t)).views == map[t := NEW_VIEW.(state := Running)];
    TwoSteps(INIT, Spawn(t), Resume(t));
  }

  lemma EmptyWaitFrom(s: Sys, t: Thread)
    requires s == INIT.(views := map[t := NEW_VIEW.(state := Running)], current := t)
    ensures var r := Exec(s, [WaitMany([], true, true), TimerFires(t)]);
      r.At? && t in r.s.views && r.s.ready == [t] && !r.s.views[t].timedOut
  {
    var u := Step(s, WaitMany([], true, true));
    assert Members([]) == {} && u.views == map[t := NEW_VIEW.(state := Running, timer := true)];
    TwoSteps(s, WaitMany([], true, true), TimerFires(t));
  }

  /** Step a begins a timed event wait of thread t. */
  predicate BeginsTimed(s: Sys, a: Action, t: Thread) {
    s.current == t && (a.WaitOne? || a.WaitMany?) && a.timed
  }

  /** Neither now nor by a the thread is in a timed wait on events. */
  predicate Untimed(v: View) {
    !(v.timer && v.awaited != {})
  }

  /** The steps that work on the events or on the queue, not on a single thread. */
  predicate OnEvents(a: Action) {
    a.NewEvent? || a.FreeEvent? || a.Forget? || a.Trigger? || a.Drop? || a.BeginEnd?
    || a.CallUser? || a.Reset?
  }

  /** The steps of the running thread. */
  predicate OfCurrent(a: Action) {
    a.SetResume? || a.AddCleanup? || a.Halt? || a.Exit? || a.Return? || a.Finish?
    || a.WaitOne? || a.WaitMany? || a.Sleep?
  }

  lemma UntimedEventStep(s: Sys, a: Action, t: Thread)
    requires Inv(s) && Enabled(s, a) && t in s.views && t in Step(s, a).views
    requires OnEvents(a)
    requires Untimed(s.views[t]) && !BeginsTimed(s, a, t)
    ensures Untimed(Step(s, a).views[t]) && Step(s, a).views[t].timedOut == s.views[t].timedOut
  {
  }

  lemma UntimedThreadStep(s: Sys, a: Action, t: Thread)
    requires Inv(s) && Enabled(s, a) && t in s.views && t in Step(s, a).views
    requires !OnEvents(a)
    requires Untimed(s.views[t]) && !BeginsTimed(s, a, t)
    ensures Untimed(Step(s, a).views[t]) && Step(s, a).views[t].timedOut == s.views[t].timedOut
  {
  }

  lemma UntimedStep(s: Sys, a: Action, t: Thread)
    requires Inv(s) && Enabled(s, a) && t in s.views && t in Step(s, a).views
    requires Untimed(s.views[t]) && !BeginsTimed(s, a, t)
    ensures Untimed(Step(s, a).views[t]) && Step(s, a).views[t].timedOut == s.views[t].timedOut
  {
    hide Step, Enabled, Inv, Untimed, BeginsTimed;
    if OnEvents(a) { UntimedEventStep(s, a, t); } else { UntimedThreadStep(s, a, t); }
  }

  ghost predicate Departed(s: Sys, t: Thread) {
    t in s.gone || t in s.lost
  }

  /** A thread once known is alive or has departed, for good. */
  ghost predicate Known(s: Sys, t: Thread) {
    t in s.views || Departed(s, t)
  }

  lemma KnownStep(s: Sys, a: Action, t: Thread)
    requires Enabled(s, a) && Known(s, t)
    ensures Known(Step(s, a), t) && (Departed(s, t) ==> Departed(Step(s, a), t))
  {
  }

  ghost predicate NoTimedWait(s: Sys, acts: seq<Action>, t: Thread) {
    forall k :: 0 <= k < |acts| ==> Exec(s, acts[..k]).At? && !BeginsTimed(Exec(s, acts[..k]).s, acts[k], t)
  }

  lemma NoTimedWaitPrefix(s: Sys, acts: seq<Action>, t: Thread)
    requires acts != [] && NoTimedWait(s, acts, t)
    ensures NoTimedWait(s, acts[..|acts| - 1], t)
  {
    var n := |acts| - 1;
    forall k | 0 <= k < n
      ensures var p := acts[..n]; Exec(s, p[..k]).At? && !BeginsTimed(Exec(s, p[..k]).s, p[k], t)
    {
      assert acts[..n][..k] == acts[..k];
    }
  }

  /** Until its next timed event wait, nothing changes what a thread's last one reported. */
  lemma {:induction false} TimeoutFlagKept(s: Sys, acts: seq<Action>, t: Thread)
    requires Inv(s) && t in s.views && Untimed(s.views[t]) && Exec(s, acts).At?
    requires t in Exec(s, acts).s.views && NoTimedWait(s, acts, t)
    ensures Untimed(Exec(s, acts).s.views[t]) && Exec(s, acts).s.views[t].timedOut == s.views[t].timedOut
    decreases |acts|
  {
    if acts == [] {
    } else {
      var n := |acts| - 1;
      var u := Exec(s, acts[..n]).s;
      ExecPrefix(s, acts);
      RunKeepsInv(s, acts[..n]);
      RunKeepsInv(s, acts);
      KnownRun(s, acts[..n], t);
      KnownStep(u, acts[n], t);
      NoTimedWaitPrefix(s, acts, t);
      hide Step, Enabled, NoTimedWait;
      TimeoutFlagKept(s, acts[..n], t);
      UntimedStep(u, acts[n], t);
    }
  }

  lemma {:induction false} KnownRun(s: Sys, acts: seq<Action>, t: Thread)
    requires Known(s, t) && Exec(s, acts).At?
    ensures Known(Exec(s, acts).s, t) && (Departed(s, t) ==> Departed(Exec(s, acts).s, t))
    decreases |acts|
  {
    if acts == [] {
    } else {
      var n := |acts| - 1;
      hide Step, Enabled;
      ExecPrefix(s, acts);
      KnownRun(s, acts[..n], t);
      KnownStep(Exec(s, acts[..n]).s, acts[n], t);
    }
  }

  /** What `stimc_wait_timed_out` answers after a timed wait begun in s and ended by step k, up to the
      thread's next timed wait: true iff the timer ended it and it was a wait on at least one event. */
  lemma TimedWaitVerdict(s: Sys, acts: seq<Action>, k: nat, t: Thread)
    requires StartsWaiting(s, t) && s.views[t].timer && !s.views[t].timedOut
    requires k < |acts| && Exec(s, acts[..k + 1]).At? && Exec(Exec(s, acts[..k + 1]).s, acts[k + 1..]).At?
    requires NoTeardown(acts[..k + 1]) && Unwoken(t, acts[..k]) && t in Queued(acts[k])
    requires NoTimedWait(Exec(s, acts[..k + 1]).s, acts[k + 1..], t)
    requires t in Exec(Exec(s, acts[..k + 1]).s, acts[k + 1..]).s.views
    ensures Exec(Exec(s, acts[..k + 1]).s, acts[k + 1..]).s.views[t].timedOut <==>
      acts[k] == TimerFires(t) && s.views[t].awaited != {}
  {
    assert acts[..k + 1][..k] == acts[..k];
    var u := Exec(s, acts[..k + 1]).s;
    TimeoutIsTrue(s, acts[..k + 1], t);
    WokenIsUntimed(s, acts[..k + 1], t);
    RunKeepsInv(s, acts[..k + 1]);
    TimeoutFlagKept(u, acts[k + 1..], t);
  }

  lemma WokenIsUntimed(s: Sys, acts: seq<Action>, t: Thread)
    requires StartsWaiting(s, t) && acts != [] && Exec(s, acts).At? && NoTeardown(acts)
    requires Unwoken(t, acts[..|acts| - 1]) && t in Queued(acts[|acts| - 1])
    ensures t in Exec(s, acts).s.views && !Waiting(Exec(s, acts).s.views[t])
  {
  }

  // -----------------------------------------------------------------------------------------------
  // No double wake, no lost thread

  /** Queued exactly once. */
  ghost predicate IsReady(s: Sys, t: Thread) {
    && t in s.ready
    && forall i, j :: 0 <= i < |s.ready| && 0 <= j < |s.ready| && s.ready[i] == t && s.ready[j] == t ==> i == j
  }

  ghost predicate IsWaiting(s: Sys, t: Thread)
    requires t in s.views
  {
    Waiting(s.views[t])
  }

  /** Neither ready nor running nor waiting. */
  ghost predicate IsParked(s: Sys, t: Thread)
    requires t in s.views
  {
    t !in s.ready && t != s.current && !Waiting(s.views[t])
  }

  /** Outside the teardown every live thread is in exactly one place, and a thread that was never
      started is ready. */
  lemma OnePlace(s: Sys, t: Thread)
    requires Inv(s) && !s.ending && t in s.views
    ensures IsReady(s, t) || t == s.current || IsWaiting(s, t) || IsParked(s, t)
    ensures IsReady(s, t) ==> t != s.current && !IsWaiting(s, t) && !IsParked(s, t)
    ensures t == s.current ==> !IsWaiting(s, t) && !IsParked(s, t)
    ensures IsWaiting(s, t) ==> !IsParked(s, t)
    ensures IsParked(s, t) && !s.finishPending ==> s.views[t].state != Created
  {
  }

  /** The only ways into the parked place: halting, ending, waiting for nothing, losing the last event
      to a free, or being dropped because the simulation finishes. */
  ghost predicate ParksBy(s: Sys, a: Action, t: Thread)
    requires t in s.views
  {
    || (s.current == t && (a.Halt? || a.Exit? || a.Return? || a.Finish?))
    || (s.current == t && a.WaitMany? && a.es == [] && !a.timed)
    || (a == Unhook(t) && t !in s.ready)
    || (a.FreeEvent? && s.views[t].awaited == {a.e} && !s.views[t].timer)
    || (a.Drop? && a.n <= |s.ready| && t in s.ready[..a.n])
  }

  lemma ParkedByEvents(s: Sys, a: Action, t: Thread)
    requires Inv(s) && Enabled(s, a) && !s.ending && !a.BeginEnd?
    requires t in s.views && t in Step(s, a).views && !IsParked(s, t)
    requires OnEvents(a)
    ensures IsParked(Step(s, a), t) <==> ParksBy(s, a, t)
  {
  }

  lemma ParkedBySelf(s: Sys, a: Action, t: Thread)
    requires Inv(s) && Enabled(s, a) && !s.ending && !a.BeginEnd?
    requires t in s.views && t in Step(s, a).views && !IsParked(s, t)
    requires OfCurrent(a)
    ensures IsParked(Step(s, a), t) <==> ParksBy(s, a, t)
  {
    match a
    case WaitMany(es, _, _) =>
      if es != [] { assert es[0] in Members(es); } else { assert Members(es) == {}; }
    case _ =>
  }

  lemma ParkedByThread(s: Sys, a: Action, t: Thread)
    requires Inv(s) && Enabled(s, a) && !s.ending && !a.BeginEnd?
    requires t in s.views && t in Step(s, a).views && !IsParked(s, t)
    requires !OnEvents(a) && !OfCurrent(a)
    ensures IsParked(Step(s, a), t) <==> ParksBy(s, a, t)
  {
    if a.Resume? { assert s.ready == [a.t] + s.ready[1..]; }
  }

  lemma ParkedOnlyBy(s: Sys, a: Action, t: Thread)
    requires Inv(s) && Enabled(s, a) && !s.ending && !a.BeginEnd?
    requires t in s.views && t in Step(s, a).views && !IsParked(s, t)
    ensures IsParked(Step(s, a), t) <==> ParksBy(s, a, t)
  {
    hide Step, Enabled, Inv, IsParked, ParksBy;
    if OnEvents(a) { ParkedByEvents(s, a, t); }
    else if OfCurrent(a) { ParkedBySelf(s, a, t); }
    else { ParkedByThread(s, a, t); }
  }

  lemma ParkedStaysOnEvents(s: Sys, a: Action, t: Thread)
    requires Inv(s) && Enabled(s, a) && !s.ending && !a.BeginEnd? && t in s.views && IsParked(s, t) && OnEvents(a)
    ensures t !in Queued(a) && a != Resume(t)
    ensures t in Step(s, a).views && a != FinalResume(t) ==> IsParked(Step(s, a), t)
  {
  }

  lemma ParkedStaysElse(s: Sys, a: Action, t: Thread)
    requires Inv(s) && Enabled(s, a) && !s.ending && !a.BeginEnd? && t in s.views && IsParked(s, t) && !OnEvents(a)
    ensures t !in Queued(a) && a != Resume(t)
    ensures t in Step(s, a).views && a != FinalResume(t) ==> IsParked(Step(s, a), t)
  {
  }

  /** A parked thread is never queued, started or woken again; only its end can follow. */
  lemma ParkedStays(s: Sys, a: Action, t: Thread)
    requires Inv(s) && Enabled(s, a) && !s.ending && !a.BeginEnd? && t in s.views && IsParked(s, t)
    ensures t !in Queued(a) && a != Resume(t)
    ensures t in Step(s, a).views && a != FinalResume(t) ==> IsParked(Step(s, a), t)
  {
    hide Step, Enabled, Inv, Queued, IsParked;
    if OnEvents(a) { ParkedStaysOnEvents(s, a, t); } else { ParkedStaysElse(s, a, t); }
  }

  /** A parked thread, or what may become of it before a teardown: it ends and is freed. */
  ghost predicate Retired(s: Sys, t: Thread) {
    || Departed(s, t)
    || (t in s.views && t !in s.ready && (StoppedToFinish.Rank() <= s.views[t].state.Rank() || IsParked(s, t)))
  }

  lemma RetiredEventStep(s: Sys, a: Action, t: Thread)
    requires Inv(s) && Enabled(s, a) && !s.ending && Retired(s, t) && OnEvents(a)
    ensures t !in Queued(a) && t !in Started(a)
    ensures Retired(Step(s, a), t) && (!a.BeginEnd? ==> !Step(s, a).ending)
  {
  }

  lemma RetiredOwnStep(s: Sys, a: Action, t: Thread)
    requires Inv(s) && Enabled(s, a) && !s.ending && Retired(s, t) && OfCurrent(a)
    ensures t !in Queued(a) && t !in Started(a)
    ensures Retired(Step(s, a), t) && (!a.BeginEnd? ==> !Step(s, a).ending)
  {
  }

  lemma RetiredThreadStep(s: Sys, a: Action, t: Thread)
    requires Inv(s) && Enabled(s, a) && !s.ending && Retired(s, t) && !OnEvents(a) && !OfCurrent(a)
    ensures t !in Queued(a) && t !in Started(a)
    ensures Retired(Step(s, a), t) && (!a.BeginEnd? ==> !Step(s, a).ending)
  {
  }

  lemma RetiredStep(s: Sys, a: Action, t: Thread)
    requires Inv(s) && Enabled(s, a) && !s.ending && Retired(s, t)
    ensures t !in Queued(a) && t !in Started(a)
    ensures Retired(Step(s, a), t) && (!a.BeginEnd? ==> !Step(s, a).ending)
  {
    hide Step, Enabled, Inv, Retired, Queued, Started;
    if OnEvents(a) { RetiredEventStep(s, a, t); }
    else if OfCurrent(a) { RetiredOwnStep(s, a, t); }
    else { RetiredThreadStep(s, a, t); }
  }

  lemma {:induction false} RetiredForGood(s: Sys, acts: seq<Action>, t: Thread)
    requires Inv(s) && Exec(s, acts).At? && !s.ending && Retired(s, t) && forall a | a in acts :: !a.BeginEnd?
    ensures t !in AllQueued(acts) && t !in AllStarted(acts)
    ensures Retired(Exec(s, acts).s, t) && !Exec(s, acts).s.ending
    decreases |acts|
  {
    if acts == [] {
    } else {
      var n := |acts| - 1;
      assert acts[n] in acts && forall a | a in acts[..n] :: a in acts;
      ExecPrefix(s, acts);
      RunKeepsInv(s, acts[..n]);
      hide Step, Enabled, Inv, Retired, Queued, Started;
      RetiredForGood(s, acts[..n], t);
      RetiredStep(Exec(s, acts[..n]).s, acts[n], t);
    }
  }

  /** Before a teardown a parked thread is never queued, started or woken again. */
  lemma ParkedForGood(s: Sys, acts: seq<Action>, t: Thread)
    requires Inv(s) && Exec(s, acts).At? && !s.ending && t in s.views && IsParked(s, t)
    requires forall a | a in acts :: !a.BeginEnd?
    ensures t !in AllQueued(acts) && t !in AllStarted(acts)
  {
    RetiredForGood(s, acts, t);
  }

  // -----------------------------------------------------------------------------------------------
  // The life of a thread

  /** What of the system state matters for the life of one thread. */
  datatype Life = Unborn | Alive(state: ThreadState, owed: bool, wants: bool) | Dead {

    /** A number that no step lowers. */
    function Stage(): nat {
      match this
      case Unborn => 0
      case Alive(state, _, _) => 1 + state.Rank()
      case Dead => 7
    }

    /** The thread function has returned or the thread has had its final resume, or never gets one. */
    predicate Settled() {
      Dead? || (Alive? && ((state == Cleanup && !owed) || state == Finished))
    }

    /** The thread function has not been entered. */
    predicate Unstarted() {
      Alive? ==> state == Created || (state == Cleanup && !owed)
    }
  }

  ghost function LifeOf(s: Sys, t: Thread): Life {
    if Departed(s, t) then Dead
    else if t in s.views then Alive(s.views[t].state, t in s.owed, s.views[t].resumeOnFinish)
    else Unborn
  }

  /** The automaton each thread goes through; `current` tells whether it is the one that acts. */
  function NextLife(l: Life, a: Action, t: Thread, current: bool): Life {
    if l.Alive? then
      match a
      case Resume(u) => if u == t then l.(state := l.state.Raise(Running)) else l
      case SetResume(on) => if current then l.(wants := on) else l
      case Halt => if current then l.(state := l.state.Raise(Stopped)) else l
      case Exit => if current then l.(state := l.state.Raise(StoppedToFinish)) else l
      case Finish => if current then l.(state := l.state.Raise(StoppedToFinish)) else l
      case Return => if current then l.(state := l.state.Raise(Finished)) else l
      case Close(u) =>
        if u != t then l
        else Alive(Cleanup, l.owed || (l.wants && Created.Rank() < l.state.Rank() < Finished.Rank()), l.wants)
      case FinalResume(u) => if u == t then l.(owed := false) else l
      case Release(u) => if u == t then Dead else l
      case Reset => Dead
      case _ => l
    else if l.Unborn? && a == Spawn(t) then Alive(Created, false, false)
    else l
  }

  /** What has to hold of a thread for a step to concern it. */
  predicate LifeAllows(l: Life, a: Action, t: Thread, current: bool) {
    && (a == Spawn(t) ==> l.Unborn?)
    && (a == Resume(t) ==> l.Alive? && (l.state == Created || l.state == Running))
    && (a == TimerFires(t) ==> l.Alive?)
    && (a == Close(t) ==> l.Alive? && l.state != Cleanup)
    && (a == FinalResume(t) ==> l.Alive? && l.owed)
    && (a == Unhook(t) || a == Release(t) || (a.CallCleanup? && a.t == t) ==> l.Alive? && l.state == Cleanup && !l.owed)
    && (a.Reset? && l.Alive? ==> l.state == Created)
    && (l.Alive? && l.owed ==> l.state == Cleanup)
    && (current ==> l.Alive? && !l.owed && (l.state == Running || l.state == Cleanup))
  }

  lemma LifeStepOfKernel(s: Sys, a: Action, t: Thread)
    requires Inv(s) && Enabled(s, a)
    requires a.Drop? || a.BeginEnd? || a.CallUser? || a.Reset?
    ensures LifeAllows(LifeOf(s, t), a, t, s.current == t)
    ensures LifeOf(Step(s, a), t) == NextLife(LifeOf(s, t), a, t, s.current == t)
  {
  }

  lemma LifeStepOfEvents(s: Sys, a: Action, t: Thread)
    requires Inv(s) && Enabled(s, a)
    requires a.NewEvent? || a.FreeEvent? || a.Forget? || a.Trigger?
    ensures LifeAllows(LifeOf(s, t), a, t, s.current == t)
    ensures LifeOf(Step(s, a), t) == NextLife(LifeOf(s, t), a, t, s.current == t)
  {
  }

  lemma LifeStepOfWait(s: Sys, a: Action, t: Thread)
    requires Inv(s) && Enabled(s, a)
    requires a.WaitOne? || a.WaitMany? || a.Sleep?
    ensures LifeAllows(LifeOf(s, t), a, t, s.current == t)
    ensures LifeOf(Step(s, a), t) == NextLife(LifeOf(s, t), a, t, s.current == t)
  {
  }

  lemma LifeStepOfCurrent(s: Sys, a: Action, t: Thread)
    requires Inv(s) && Enabled(s, a)
    requires a.SetResume? || a.AddCleanup? || a.Halt? || a.Exit? || a.Return? || a.Finish?
    ensures LifeAllows(LifeOf(s, t), a, t, s.current == t)
    ensures LifeOf(Step(s, a), t) == NextLife(LifeOf(s, t), a, t, s.current == t)
  {
  }

  lemma LifeStepOfThread(s: Sys, a: Action, t: Thread)
    requires Inv(s) && Enabled(s, a)
    requires a.Spawn? || a.Resume? || a.TimerFires?
    ensures LifeAllows(LifeOf(s, t), a, t, s.current == t)
    ensures LifeOf(Step(s, a), t) == NextLife(LifeOf(s, t), a, t, s.current == t)
  {
  }

  lemma LifeStepOfEnd(s: Sys, a: Action, t: Thread)
    requires Inv(s) && Enabled(s, a)
    requires a.Close? || a.FinalResume?
    ensures LifeAllows(LifeOf(s, t), a, t, s.current == t)
    ensures LifeOf(Step(s, a), t) == NextLife(LifeOf(s, t), a, t, s.current == t)
  {
  }

  lemma LifeStepOfUnhook(s: Sys, a: Action, t: Thread)
    requires Inv(s) && Enabled(s, a)
    requires a.Unhook? || a.CallCleanup?
    ensures LifeAllows(LifeOf(s, t), a, t, s.current == t)
    ensures LifeOf(Step(s, a), t) == NextLife(LifeOf(s, t), a, t, s.current == t)
  {
  }

  lemma LifeStepOfRelease(s: Sys, a: Action, t: Thread)
    requires Inv(s) && Enabled(s, a)
    requires a.Release?
    ensures LifeAllows(LifeOf(s, t), a, t, s.current == t)
    ensures LifeOf(Step(s, a), t) == NextLife(LifeOf(s, t), a, t, s.current == t)
  {
  }

  /** Every step of the system moves every thread as its automaton says. */
  lemma LifeStep(s: Sys, a: Action, t: Thread)
    requires Inv(s) && Enabled(s, a)
    ensures LifeAllows(LifeOf(s, t), a, t, s.current == t)
    ensures LifeOf(Step(s, a), t) == NextLife(LifeOf(s, t), a, t, s.current == t)
  {
    hide Step, Enabled, Inv, LifeOf, NextLife, LifeAllows;
    if a.NewEvent? || a.FreeEvent? || a.Forget? || a.Trigger? {
      LifeStepOfEvents(s, a, t);
      return;
    }
    if OnEvents(a) {
      LifeStepOfKernel(s, a, t);
      return;
    }
    match a
    case Spawn(_) => LifeStepOfThread(s, a, t);
    case Resume(_) => LifeStepOfThread(s, a, t);
    case TimerFires(_) => LifeStepOfThread(s, a, t);
    case Close(_) => LifeStepOfEnd(s, a, t);
    case FinalResume(_) => LifeStepOfEnd(s, a, t);
    case Unhook(_) => LifeStepOfUnhook(s, a, t);
    case CallCleanup(_, _) => LifeStepOfUnhook(s, a, t);
    case Release(_) => LifeStepOfRelease(s, a, t);
    case WaitOne(_, _) => LifeStepOfWait(s, a, t);
    case WaitMany(_, _, _) => LifeStepOfWait(s, a, t);
    case Sleep => LifeStepOfWait(s, a, t);
    case _ => LifeStepOfCurrent(s, a, t);
  }

  lemma {:induction false} StageRises(s: Sys, acts: seq<Action>, t: Thread)
    requires Inv(s) && Exec(s, acts).At?
    ensures LifeOf(s, t).Stage() <= LifeOf(Exec(s, acts).s, t).Stage()
    decreases |acts|
  {
    if acts == [] {
    } else {
      var n := |acts| - 1;
      ExecPrefix(s, acts);
      RunKeepsInv(s, acts[..n]);
      hide Step, Enabled, Inv, LifeOf;
      StageRises(s, acts[..n], t);
      LifeStep(Exec(s, acts[..n]).s, acts[n], t);
    }
  }

  /** The state of a thread never goes back. */
  lemma StateNeverFalls(s: Sys, acts: seq<Action>, t: Thread)
    requires Inv(s) && Exec(s, acts).At? && t in s.views && t in Exec(s, acts).s.views
    ensures s.views[t].state.Rank() <= Exec(s, acts).s.views[t].state.Rank()
  {
    StageRises(s, acts, t);
    RunKeepsInv(s, acts);
  }

  /** The state between two positions of a run, as a run of its own. */
  lemma Between(s: Sys, acts: seq<Action>, i: nat, j: nat)
    requires Inv(s) && Exec(s, acts).At? && i < j < |acts|
    ensures var u, w := Exec(s, acts[..i]), Exec(s, acts[..j]);
      && u.At? && w.At? && Inv(u.s) && Inv(w.s)
      && Enabled(u.s, acts[i]) && Enabled(w.s, acts[j]) && Inv(Step(u.s, acts[i]))
      && Exec(Step(u.s, acts[i]), acts[i + 1..j]) == w
  {
    hide Step, Enabled, Inv;
    ExecTake(s, acts, i);
    ExecTake(s, acts, i + 1);
    ExecTake(s, acts, j);
    ExecTake(s, acts, j + 1);
    assert acts[..i + 1][..i] == acts[..i] && acts[..j + 1][..j] == acts[..j];
    assert acts[..j] == acts[..i + 1] + acts[i + 1..j];
    ExecConcat(s, acts[..i + 1], acts[i + 1..j]);
  }

  /** The stage a step presupposes, and the one it leaves behind. */
  lemma StageOfStep(s: Sys, a: Action, t: Thread)
    requires Inv(s) && Enabled(s, a)
    ensures var l := LifeOf(s, t).Stage();
      && (a == Spawn(t) ==> l == 0)
      && (a == Resume(t) ==> l < 6)
      && (a == Close(t) ==> l < 6)
      && (a == FinalResume(t) || a == TimerFires(t) || a == Release(t) ==> l < 7)
    ensures var l := LifeOf(Step(s, a), t).Stage();
      && (a == Spawn(t) ==> 1 <= l)
      && (a == Close(t) ==> 6 <= l)
      && (a == Release(t) ==> 7 <= l)
  {
    hide Step, Enabled, Inv, LifeOf;
    LifeStep(s, a, t);
  }

  /** Every thread is created once, finished once and freed once; after its end has begun no queue
      entry starts it, and once it is freed nothing happens to it at all. */
  lemma OnceInALife(s: Sys, acts: seq<Action>, i: nat, j: nat, t: Thread)
    requires Inv(s) && Exec(s, acts).At? && i < j < |acts|
    ensures acts[i] == Spawn(t) ==> acts[j] != Spawn(t)
    ensures acts[i] == Close(t) ==> acts[j] != Spawn(t) && acts[j] != Resume(t) && acts[j] != Close(t)
    ensures acts[i] == Release(t) ==>
      && acts[j] != Spawn(t) && acts[j] != Resume(t) && acts[j] != FinalResume(t)
      && acts[j] != Close(t) && acts[j] != Release(t) && acts[j] != TimerFires(t)
  {
    hide Step, Enabled, Inv, LifeOf, Exec;
    Between(s, acts, i, j);
    var u, w := Exec(s, acts[..i]).s, Exec(s, acts[..j]).s;
    StageOfStep(u, acts[i], t);
    StageRises(Step(u, acts[i]), acts[i + 1..j], t);
    StageOfStep(w, acts[j], t);
  }

  // -----------------------------------------------------------------------------------------------
  // The final resume

  lemma {:induction false} SettledRun(s: Sys, acts: seq<Action>, t: Thread)
    requires Inv(s) && Exec(s, acts).At? && LifeOf(s, t).Settled()
    ensures LifeOf(Exec(s, acts).s, t).Settled()
    decreases |acts|
  {
    if acts == [] {
    } else {
      var n := |acts| - 1;
      ExecPrefix(s, acts);
      RunKeepsInv(s, acts[..n]);
      hide Step, Enabled, Inv, LifeOf;
      SettledRun(s, acts[..n], t);
      LifeStep(Exec(s, acts[..n]).s, acts[n], t);
    }
  }

  /** A final resume and a return settle a thread, and a settled thread is not entered. */
  lemma SettledByStep(s: Sys, a: Action, t: Thread)
    requires Inv(s) && Enabled(s, a)
    ensures a == FinalResume(t) || (a.Return? && s.current == t) ==> LifeOf(Step(s, a), t).Settled()
    ensures LifeOf(s, t).Settled() ==> a != FinalResume(t) && a != Resume(t)
  {
  }

  /** At most one final resume, and a thread function that has returned is never entered again. */
  lemma NoResumeAfterEnd(s: Sys, acts: seq<Action>, i: nat, j: nat, t: Thread)
    requires Inv(s) && Exec(s, acts).At? && i < j < |acts|
    requires acts[i] == FinalResume(t)
             || (acts[i].Return? && Exec(s, acts[..i]).At? && Exec(s, acts[..i]).s.current == t)
    ensures acts[j] != FinalResume(t) && acts[j] != Resume(t)
  {
    hide Step, Enabled, Inv, LifeOf, Exec;
    Between(s, acts, i, j);
    var u, w := Exec(s, acts[..i]).s, Exec(s, acts[..j]).s;
    SettledByStep(u, acts[i], t);
    SettledRun(Step(u, acts[i]), acts[i + 1..j], t);
    SettledByStep(w, acts[j], t);
  }

  /** A thread that was never started is not started by being cleaned up either. */
  lemma {:induction false} NeverStartedByCleanup(acts: seq<Action>, t: Thread)
    requires Exec(INIT, acts).At? && Resume(t) !in acts
    ensures LifeOf(Exec(INIT, acts).s, t).Unstarted() && FinalResume(t) !in acts
    ensures Exec(INIT, acts).s.current != t
    decreases |acts|
  {
    if acts == [] {
    } else {
      var n := |acts| - 1;
      assert acts == acts[..n] + [acts[n]];
      ExecPrefix(INIT, acts);
      RunKeepsInv(INIT, acts[..n]);
      NeverStartedByCleanup(acts[..n], t);
      CurrentStep(Exec(INIT, acts[..n]).s, acts[n], t);
      hide Step, Enabled, Inv, LifeOf;
      LifeStep(Exec(INIT, acts[..n]).s, acts[n], t);
    }
  }

  lemma CurrentStep(s: Sys, a: Action, t: Thread)
    requires Enabled(s, a) && s.current != t && a != Resume(t) && a != FinalResume(t)
    ensures Step(s, a).current != t
  {
  }

  // -----------------------------------------------------------------------------------------------
  // Every end is followed by a release

  /** The thread function is left for good. */
  predicate Ends(a: Action) {
    a.Exit? || a.Return? || a.Finish?
  }

  /** The kernel goes on: to the next ready thread, to the next expired timer, to the end of the batch or
      of the simulation. */
  predicate Proceeds(a: Action) {
    a.Resume? || a.TimerFires? || a.Drop? || a.BeginEnd?
  }

  /** A thread that has been started can only die by being released. */
  lemma {:induction false} DiesByRelease(s: Sys, acts: seq<Action>, t: Thread)
    requires Inv(s) && Exec(s, acts).At? && LifeOf(s, t).Alive? && 2 <= LifeOf(s, t).Stage()
    requires LifeOf(Exec(s, acts).s, t).Dead?
    ensures Release(t) in acts
    decreases |acts|
  {
    if acts == [] {
    } else {
      var n := |acts| - 1;
      ExecPrefix(s, acts);
      RunKeepsInv(s, acts[..n]);
      hide Step, Enabled, Inv, LifeOf;
      LifeStep(Exec(s, acts[..n]).s, acts[n], t);
      StageRises(s, acts[..n], t);
      if LifeOf(Exec(s, acts[..n]).s, t).Dead? { DiesByRelease(s, acts[..n], t); }
    }
  }

  lemma EndStage(s: Sys, a: Action, t: Thread)
    requires Inv(s) && Enabled(s, a) && Ends(a) && s.current == t
    ensures LifeOf(Step(s, a), t).Alive? && 4 <= LifeOf(Step(s, a), t).Stage()
  {
    hide Step, Enabled, Inv, LifeOf;
    LifeStep(s, a, t);
  }

  lemma SweptStage(s: Sys, a: Action, t: Thread)
    requires Inv(s) && Enabled(s, a) && Proceeds(a)
    ensures LifeOf(s, t).Stage() <= 3 || LifeOf(s, t).Dead?
  {
    assert Swept(s);
  }

  /** Whichever way a thread ends, by exit, by return or by finishing the simulation, it is released
      before the kernel goes on to anything else. */
  lemma EndedIsReleased(s: Sys, acts: seq<Action>, i: nat, k: nat, t: Thread)
    requires Inv(s) && Exec(s, acts).At? && i < k < |acts|
    requires Ends(acts[i]) && Exec(s, acts[..i]).At? && Exec(s, acts[..i]).s.current == t && Proceeds(acts[k])
    ensures exists j :: i < j < k && acts[j] == Release(t)
  {
    hide Step, Enabled, Inv, LifeOf, Exec;
    Between(s, acts, i, k);
    var u, w, mid := Exec(s, acts[..i]).s, Exec(s, acts[..k]).s, acts[i + 1..k];
    EndStage(u, acts[i], t);
    StageRises(Step(u, acts[i]), mid, t);
    SweptStage(w, acts[k], t);
    DiesByRelease(Step(u, acts[i]), mid, t);
    var j :| 0 <= j < |mid| && mid[j] == Release(t);
    assert acts[i + 1 + j] == Release(t);
  }

  // -----------------------------------------------------------------------------------------------
  // Everything is torn down

  ghost function SpawnedIn(acts: seq<Action>): set<Thread> {
    set a | a in acts && a.Spawn? :: a.t
  }

  ghost function ReleasedIn(acts: seq<Action>): set<Thread> {
    set a | a in acts && a.Release? :: a.t
  }

  /** The threads spawned during a teardown. */
  ghost function SpawnedLate(acts: seq<Action>): set<Thread>
    requires Exec(INIT, acts).At?
    decreases |acts|
  {
    if acts == [] then {}
    else
      var n := |acts| - 1;
      SpawnedLate(acts[..n]) + if acts[n].Spawn? && Exec(INIT, acts[..n]).s.ending then {acts[n].t} else {}
  }

  /** Created threads are alive, freed or lost, only created threads are freed, and only threads spawned
      during a teardown are lost. */
  lemma {:induction false} ThreadsAccounted(acts: seq<Action>)
    requires Exec(INIT, acts).At?
    ensures var s := Exec(INIT, acts).s;
      && SpawnedIn(acts) == s.views.Keys + s.gone + s.lost
      && ReleasedIn(acts) == s.gone
      && SpawnedLate(acts) == s.late + s.lost
    decreases |acts|
  {
    if acts == [] {
    } else {
      var n := |acts| - 1;
      var a := acts[n];
      assert acts == acts[..n] + [a];
      ExecPrefix(INIT, acts);
      ThreadsAccounted(acts[..n]);
      assert SpawnedIn(acts) == SpawnedIn(acts[..n]) + if a.Spawn? then {a.t} else {};
      assert ReleasedIn(acts) == ReleasedIn(acts[..n]) + if a.Release? then {a.t} else {};
      hide Step, Enabled;
      AccountStep(Exec(INIT, acts[..n]).s, a);
    }
  }

  ghost predicate Accounts(s: Sys, a: Action, u: Sys) {
    && u.gone == s.gone + (if a.Release? then {a.t} else {})
    && u.views.Keys + u.gone + u.lost == s.views.Keys + s.gone + s.lost + (if a.Spawn? then {a.t} else {})
    && u.late + u.lost == s.late + s.lost + (if a.Spawn? && s.ending then {a.t} else {})
  }

  lemma AccountEventStep(s: Sys, a: Action)
    requires Enabled(s, a) && OnEvents(a)
    ensures Accounts(s, a, Step(s, a))
  {
  }

  lemma AccountOwnStep(s: Sys, a: Action)
    requires Enabled(s, a) && OfCurrent(a)
    ensures Accounts(s, a, Step(s, a))
  {
  }

  lemma AccountThreadStep(s: Sys, a: Action)
    requires Enabled(s, a) && !OnEvents(a) && !OfCurrent(a)
    ensures Accounts(s, a, Step(s, a))
  {
  }

  lemma AccountStep(s: Sys, a: Action)
    requires Enabled(s, a)
    ensures Accounts(s, a, Step(s, a))
  {
    hide Step, Enabled, Accounts;
    if OnEvents(a) { AccountEventStep(s, a); }
    else if OfCurrent(a) { AccountOwnStep(s, a); }
    else { AccountThreadStep(s, a); }
  }

  /** When a teardown is over, exactly those threads have not been freed that were spawned during a
      teardown; so all of them have iff none was. */
  lemma ResetFreesAll(acts: seq<Action>)
    requires acts != [] && Exec(INIT, acts).At? && acts[|acts| - 1].Reset?
    ensures ReleasedIn(acts) == SpawnedIn(acts) - SpawnedLate(acts)
    ensures ReleasedIn(acts) == SpawnedIn(acts) <==> SpawnedLate(acts) == {}
  {
    ExecPrefix(INIT, acts);
    RunKeepsInv(INIT, acts);
    ThreadsAccounted(acts);
  }

  /** The failing case: a thread spawned during a teardown is lost. */
  lemma SpawnedLateIsLost(t: Thread)
    ensures var acts := [BeginEnd, Spawn(t), Reset];
      && Exec(INIT, acts).At? && t in Exec(INIT, acts).s.lost
      && SpawnedIn(acts) == SpawnedLate(acts) == {t} && ReleasedIn(acts) == {}
  {
    LateSteps(t);
    hide Step, Enabled;
    TwoSteps(INIT, BeginEnd, Spawn(t));
    ExecSnoc(INIT, [BeginEnd, Spawn(t)], Reset);
    assert [BeginEnd, Spawn(t)] + [Reset] == [BeginEnd, Spawn(t), Reset];
    ThreadsAccounted([BeginEnd, Spawn(t), Reset]);
  }

  lemma LateSteps(t: Thread)
    ensures var s1 := INIT.(ending := true);
      && Enabled(INIT, BeginEnd) && Step(INIT, BeginEnd) == s1
      && Enabled(s1, Spawn(t))
      && Step(s1, Spawn(t)) == s1.(views := map[t := NEW_VIEW], ready := [t], late := {t})
      && Enabled(Step(s1, Spawn(t)), Reset) && Step(Step(s1, Spawn(t)), Reset) == INIT.(lost := {t})
  {
    var s1 := INIT.(ending := true);
    assert Step(s1, Spawn(t)).views == map[t := NEW_VIEW] && Step(s1, Spawn(t)).views.Keys == {t};
  }

  /** A thread that has been started is known. */
  lemma {:induction false} StartedIsKnown(acts: seq<Action>, t: Thread)
    requires Exec(INIT, acts).At? && Resume(t) in acts
    ensures Known(Exec(INIT, acts).s, t)
    decreases |acts|
  {
    var n := |acts| - 1;
    var s := Exec(INIT, acts[..n]).s;
    ExecPrefix(INIT, acts);
    if acts[n] == Resume(t) {
    } else {
      assert acts == acts[..n] + [acts[n]];
      StartedIsKnown(acts[..n], t);
    }
    KnownStep(s, acts[n], t);
  }

  /** A thread spawned during a teardown is never started. */
  lemma {:induction false} SpawnedLateNeverStarts(acts: seq<Action>, t: Thread)
    requires Exec(INIT, acts).At? && t in SpawnedLate(acts)
    ensures Resume(t) !in acts
    decreases |acts|
  {
    var n := |acts| - 1;
    var s := Exec(INIT, acts[..n]).s;
    assert acts == acts[..n] + [acts[n]];
    ExecPrefix(INIT, acts);
    RunKeepsInv(INIT, acts[..n]);
    if t in SpawnedLate(acts[..n]) {
      SpawnedLateNeverStarts(acts[..n], t);
      ThreadsAccounted(acts[..n]);
      LateNotStarted(s, t);
    } else {
      SpawnIsNew(s, t);
      if Resume(t) in acts[..n] { StartedIsKnown(acts[..n], t); }
    }
  }

  lemma LateNotStarted(s: Sys, t: Thread)
    requires Inv(s) && t in s.late + s.lost
    ensures !Enabled(s, Resume(t))
  {
  }

  lemma SpawnIsNew(s: Sys, t: Thread)
    ensures Enabled(s, Spawn(t)) ==> !Known(s, t)
  {
  }

  lemma {:induction false} FreedForGood(s: Sys, acts: seq<Action>, e: Event)
    requires Exec(s, acts).At? && e in s.freed
    ensures e in Exec(s, acts).s.freed
    decreases |acts|
  {
    if acts == [] {
    } else {
      ExecPrefix(s, acts);
      FreedForGood(s, acts[..|acts| - 1], e);
      FreedStep(Exec(s, acts[..|acts| - 1]).s, acts[|acts| - 1]);
    }
  }

  lemma FreedStep(s: Sys, a: Action)
    requires Enabled(s, a)
    ensures s.freed <= Step(s, a).freed && (a.FreeEvent? ==> a.e in Step(s, a).freed)
  {
  }

  /** An event that is alive has never been freed, and a thread that is alive and not in its end never
      began to end. */
  lemma LiveNotEnded(s: Sys, acts: seq<Action>, i: nat)
    requires Inv(s) && Exec(s, acts).At? && i < |acts|
    ensures var u := Exec(s, acts).s;
      && (acts[i].FreeEvent? ==> acts[i].e !in u.events)
      && (acts[i].Close? && acts[i].t in u.views ==> u.views[acts[i].t].state == Cleanup)
  {
    hide Step, Enabled, Inv, LifeOf;
    ExecTake(s, acts, i);
    ExecTake(s, acts, i + 1);
    assert acts[..i + 1][..i] == acts[..i] && acts == acts[..i + 1] + acts[i + 1..];
    ExecPrefix(s, acts[..i + 1]);
    ExecConcat(s, acts[..i + 1], acts[i + 1..]);
    var u, w := Exec(s, acts[..i]).s, Exec(s, acts[..i + 1]).s;
    RunKeepsInv(s, acts);
    FreedStep(u, acts[i]);
    if acts[i].FreeEvent? {
      FreedForGood(w, acts[i + 1..], acts[i].e);
      LiveEvent(Exec(s, acts).s, acts[i].e);
    } else if acts[i].Close? && acts[i].t in Exec(s, acts).s.views {
      StageOfStep(u, acts[i], acts[i].t);
      StageRises(w, acts[i + 1..], acts[i].t);
      LastStage(Exec(s, acts).s, acts[i].t);
    }
  }

  lemma LiveEvent(s: Sys, e: Event)
    requires Inv(s) && e in s.freed
    ensures e !in s.events
  {
  }

  lemma LastStage(s: Sys, t: Thread)
    requires Inv(s) && 6 <= LifeOf(s, t).Stage() && t in s.views
    ensures s.views[t].state == Cleanup
  {
  }

  // -----------------------------------------------------------------------------------------------
  // The threads' own cleanup callbacks

  /** The callbacks thread t has registered in a run, newest first. */
  ghost function RegisteredBy(acts: seq<Action>, t: Thread): seq<nat>
    requires Exec(INIT, acts).At?
    decreases |acts|
  {
    if acts == [] then []
    else
      var n := |acts| - 1;
      var before := RegisteredBy(acts[..n], t);
      if acts[n].AddCleanup? && Exec(INIT, acts[..n]).s.current == t then [acts[n].cb] + before else before
  }

  /** The callbacks of thread t that were called, in the order of the calls. */
  ghost function CalledFor(acts: seq<Action>, t: Thread): seq<nat>
    decreases |acts|
  {
    if acts == [] then []
    else
      var n := |acts| - 1;
      CalledFor(acts[..n], t) + if acts[n].CallCleanup? && acts[n].t == t then [acts[n].cb] else []
  }

  /** No callback is lost or called twice; and once the first has been called the thread does not run. */
  ghost predicate Conserved(s: Sys, called: seq<nat>, registered: seq<nat>, t: Thread) {
    && (t in s.views ==> called + s.views[t].cleanups == registered)
    && (!Known(s, t) ==> called == [] && registered == [])
    && (called != [] ==> LifeOf(s, t).Settled() && s.current != t)
  }

  lemma {:induction false} CallbacksConserved(acts: seq<Action>, t: Thread)
    requires Exec(INIT, acts).At?
    ensures Conserved(Exec(INIT, acts).s, CalledFor(acts, t), RegisteredBy(acts, t), t)
    decreases |acts|
  {
    if acts == [] {
      assert t !in INIT.views;
    } else {
      hide Step, Enabled, Inv, LifeOf, Conserved, Known;
      var n := |acts| - 1;
      ExecPrefix(INIT, acts);
      InitInv();
      RunKeepsInv(INIT, acts[..n]);
      CallbacksConserved(acts[..n], t);
      ConservedStep(Exec(INIT, acts[..n]).s, acts[n], CalledFor(acts[..n], t), RegisteredBy(acts[..n], t), t);
    }
  }

  lemma InitInv()
    ensures Inv(INIT)
  {
  }

  lemma ConservedStep(s: Sys, a: Action, called: seq<nat>, registered: seq<nat>, t: Thread)
    requires Inv(s) && Enabled(s, a) && Conserved(s, called, registered, t)
    ensures Conserved(Step(s, a), called + (if a.CallCleanup? && a.t == t then [a.cb] else []),
                      if a.AddCleanup? && s.current == t then [a.cb] + registered else registered, t)
  {
    hide Step, Enabled, Inv, LifeOf, NextLife, LifeAllows;
    KnownBefore(s, a, t);
    CleanupsStep(s, a, t);
    SettledKept(s, a, t);
    if a.CallCleanup? && a.t == t {
      assert called + ([a.cb] + s.views[t].cleanups[1..]) == (called + [a.cb]) + s.views[t].cleanups[1..];
    } else {
      assert called + [] == called;
    }
  }

  lemma SettledKept(s: Sys, a: Action, t: Thread)
    requires Inv(s) && Enabled(s, a)
    ensures var u := Step(s, a);
      && (LifeOf(s, t).Settled() && s.current != t ==> LifeOf(u, t).Settled() && u.current != t)
      && (a.CallCleanup? && a.t == t ==> LifeOf(u, t).Settled() && u.current != t)
  {
    hide Step, Enabled, Inv, LifeOf;
    LifeStep(s, a, t);
    SettledByStep(s, a, t);
    CallIsNext(s, a, t);
    if s.current != t && a != Resume(t) && a != FinalResume(t) { CurrentStep(s, a, t); }
  }

  ghost function CleanupsAfter(s: Sys, a: Action, t: Thread): seq<nat> {
    if t !in s.views then []
    else if a.AddCleanup? && s.current == t then [a.cb] + s.views[t].cleanups
    else if a.CallCleanup? && a.t == t && s.views[t].cleanups != [] then s.views[t].cleanups[1..]
    else s.views[t].cleanups
  }

  lemma CleanupsEventStep(s: Sys, a: Action, t: Thread)
    requires Enabled(s, a) && OnEvents(a)
    ensures t in Step(s, a).views ==> Step(s, a).views[t].cleanups == CleanupsAfter(s, a, t)
  {
  }

  lemma CleanupsOwnStep(s: Sys, a: Action, t: Thread)
    requires Inv(s) && Enabled(s, a) && OfCurrent(a)
    ensures t in Step(s, a).views ==> Step(s, a).views[t].cleanups == CleanupsAfter(s, a, t)
  {
  }

  lemma CleanupsThreadStep(s: Sys, a: Action, t: Thread)
    requires Inv(s) && Enabled(s, a) && !OnEvents(a) && !OfCurrent(a)
    ensures t in Step(s, a).views ==> Step(s, a).views[t].cleanups == CleanupsAfter(s, a, t)
  {
  }

  lemma CleanupsStep(s: Sys, a: Action, t: Thread)
    requires Inv(s) && Enabled(s, a)
    ensures t in Step(s, a).views ==> Step(s, a).views[t].cleanups == CleanupsAfter(s, a, t)
    ensures a.CallCleanup? ==> a.t in s.views && [a.cb] <= s.views[a.t].cleanups
    ensures a.AddCleanup? && s.current == t ==> t in s.views
  {
    CallIsNext(s, a, t);
    hide Step, Enabled, Inv, CleanupsAfter;
    if OnEvents(a) { CleanupsEventStep(s, a, t); }
    else if OfCurrent(a) { CleanupsOwnStep(s, a, t); }
    else { CleanupsThreadStep(s, a, t); }
  }

  lemma CallIsNext(s: Sys, a: Action, t: Thread)
    requires Enabled(s, a)
    ensures a.CallCleanup? ==> s.current == null && a.t in s.views && [a.cb] <= s.views[a.t].cleanups
    ensures a.AddCleanup? && s.current == t ==> t in s.views
  {
  }

  lemma KnownBefore(s: Sys, a: Action, t: Thread)
    requires Enabled(s, a)
    ensures t in Step(s, a).views ==> t in s.views || (a == Spawn(t) && !Known(s, t))
    ensures !Known(Step(s, a), t) ==> !Known(s, t)
  {
  }

  /** When a thread is freed, exactly the callbacks it has registered have been called, newest first. */
  lemma ReleaseCallsRegistered(acts: seq<Action>, i: nat, t: Thread)
    requires Exec(INIT, acts).At? && i < |acts| && acts[i] == Release(t)
    ensures Exec(INIT, acts[..i]).At? && CalledFor(acts[..i], t) == RegisteredBy(acts[..i], t)
  {
    hide Step, Inv, Enabled, Exec, Conserved, CalledFor, RegisteredBy;
    ExecTake(INIT, acts, i + 1);
    assert acts[..i + 1][..i] == acts[..i];
    ExecPrefix(INIT, acts[..i + 1]);
    CallbacksConserved(acts[..i], t);
    NoneLeft(Exec(INIT, acts[..i]).s, CalledFor(acts[..i], t), RegisteredBy(acts[..i], t), t);
  }

  lemma NoneLeft(s: Sys, called: seq<nat>, registered: seq<nat>, t: Thread)
    requires Enabled(s, Release(t)) && Conserved(s, called, registered, t)
    ensures called == registered
  {
  }
}
