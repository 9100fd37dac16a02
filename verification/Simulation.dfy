/** Whole simulations: the kernel from its creation through any number of simulator callbacks and
    teardowns. */
module Simulations {
  import opened Objects
  import opened WaitSpec
  import opened RunTheorems
  import opened Kernels

  /** One simulation: callbacks in any number and order, each with whatever the threads it makes ready do,
      then the teardown, which frees every thread not spawned by itself. */
  method SimulateOnce(k: Kernel)
    requires k.Resting() && k.Idle()
    modifies k, k.threads, k.events, k.leaked, set x | x in k.cleanup
    ensures k.Resting() && k.Idle() && k.Allocated() && old(k.log) <= k.log
    ensures k.threads == {} && k.Abs().ready == [] && k.cleanup == [] && !k.finishPending
    ensures Exec(INIT, k.log) == At(k.Abs()) && ReleasedIn(k.log) == SpawnedIn(k.log) - SpawnedLate(k.log)
  {
    hide Kernel.Resting, Kernel.Valid, Kernel.Abs;
    Callbacks(k);
    ghost var called, at := k.EndOfSimulation();
    AllReleased(k);
  }

  lemma AllReleased(k: Kernel)
    requires k.Resting() && k.Idle() && k.mainQueue == [] && k.log != [] && k.log[|k.log| - 1] == Reset
    ensures k.Abs().ready == []
    ensures Exec(INIT, k.log) == At(k.Abs()) && ReleasedIn(k.log) == SpawnedIn(k.log) - SpawnedLate(k.log)
  {
    ResetFreesAll(k.log);
  }

  method Callbacks(k: Kernel)
    requires k.Resting() && k.Idle()
    modifies k, k.threads, k.events, k.leaked, set x | x in k.cleanup
    ensures k.Resting() && k.Idle() && k.Allocated() && old(k.log) <= k.log
  {
    hide Kernel.Resting, Kernel.Idle;
    var n: nat := *;
    while n > 0
      invariant k.Resting() && k.Idle() && k.Allocated() && old(k.log) <= k.log
    {
      var t: Thread? := *;
      var batches: nat := *;
      if t == null || (t in k.threads && t.timer) {
        var done := k.Callback(t, batches);
      }
      n := n - 1;
    }
  }

  /** Any number of simulations in one process. */
  method Simulate() returns (k: Kernel)
    ensures fresh(k) && k.Resting() && k.Idle() && Exec(INIT, k.log) == At(k.Abs())
    ensures k.threads == {} && k.Abs().ready == []
    ensures ReleasedIn(k.log) == SpawnedIn(k.log) - SpawnedLate(k.log)
  {
    hide Kernel.Resting, Kernel.Idle, Kernel.Valid, Kernel.Abs;
    k := new Kernel();
    NothingYet(k);
    var n: nat := *;
    while n > 0
      invariant fresh(k) && k.Resting() && k.Idle() && k.threads == {}
      invariant fresh(k.events) && fresh(k.leaked) && forall x | x in k.cleanup :: fresh(x)
      invariant k.Abs().ready == [] && Exec(INIT, k.log) == At(k.Abs())
      invariant ReleasedIn(k.log) == SpawnedIn(k.log) - SpawnedLate(k.log)
    {
      SimulateOnce(k);
      n := n - 1;
    }
  }

  lemma NothingYet(k: Kernel)
    requires k.Abs() == INIT && k.log == []
    ensures k.Abs().ready == [] && Exec(INIT, k.log) == At(k.Abs())
    ensures ReleasedIn(k.log) == SpawnedIn(k.log) - SpawnedLate(k.log)
  {
  }

  // -----------------------------------------------------------------------------------------------
  // A main loop within a main loop

  /** The states of the example below, with t as the only thread. */
  function Scene(t: Thread, state: ThreadState, cleanups: seq<nat>): Sys {
    INIT.(views := map[t := NEW_VIEW.(state := state, cleanups := cleanups)])
  }

  lemma FirstSteps(t: Thread)
    ensures var s1, s2 := Scene(t, Created, []).(ready := [t]), Scene(t, Running, []).(current := t);
      && (Enabled(INIT, Spawn(t)) ==> Step(INIT, Spawn(t)) == s1)
      && (Enabled(s1, Resume(t)) ==> Step(s1, Resume(t)) == s2)
      && Swept(s1)
  {
    assert Step(INIT, Spawn(t)).views == map[t := NEW_VIEW];
    var s1 := Scene(t, Created, []).(ready := [t]);
    if Enabled(s1, Resume(t)) { assert Step(s1, Resume(t)).views == map[t := NEW_VIEW.(state := Running)]; }
  }

  lemma OwnSteps(t: Thread)
    ensures var s2, s3 := Scene(t, Running, []).(current := t), Scene(t, Running, [0]).(current := t);
      && (Enabled(s2, AddCleanup(0)) ==> Step(s2, AddCleanup(0)) == s3)
      && (Enabled(s3, Return) ==> Step(s3, Return) == Scene(t, Finished, [0]))
  {
    var s2, s3 := Scene(t, Running, []).(current := t), Scene(t, Running, [0]).(current := t);
    assert [0] + NEW_VIEW.cleanups == [0];
    if Enabled(s2, AddCleanup(0)) {
      assert Step(s2, AddCleanup(0)).views == map[t := NEW_VIEW.(state := Running, cleanups := [0])];
    }
    if Enabled(s3, Return) {
      assert Step(s3, Return).views == map[t := NEW_VIEW.(state := Finished, cleanups := [0])];
    }
  }

  lemma EndSteps(t: Thread)
    ensures var s4, s5 := Scene(t, Finished, [0]), Scene(t, Cleanup, [0]);
      && (Enabled(s4, Close(t)) ==> Step(s4, Close(t)) == s5)
      && (Enabled(s5, Unhook(t)) ==> Step(s5, Unhook(t)) == s5)
  {
    var s4, s5 := Scene(t, Finished, [0]), Scene(t, Cleanup, [0]);
    if Enabled(s4, Close(t)) { assert Step(s4, Close(t)).views == s5.views; }
    if Enabled(s5, Unhook(t)) { assert Step(s5, Unhook(t)).views == s5.views; }
  }

  lemma CallbackStep(t: Thread)
    ensures var s5, s6, a := Scene(t, Cleanup, [0]), Scene(t, Cleanup, []), CallCleanup(t, 0);
      Enabled(s5, a) ==> Step(s5, a) == s6
  {
    var s5, s6, a := Scene(t, Cleanup, [0]), Scene(t, Cleanup, []), CallCleanup(t, 0);
    assert [0][1..] == NEW_VIEW.cleanups;
    if Enabled(s5, a) { assert Step(s5, a).views == s6.views; }
  }

  lemma NewThread(s: Sys, u: Thread)
    requires Enabled(s, Spawn(u))
    ensures Step(s, Spawn(u)).ready == s.ready + [u]
  {
  }

  /** The first thread of a new kernel runs. */
  method ThreadThatRuns() returns (k: Kernel, t: Thread)
    ensures fresh(k) && fresh(k.threads) && k.events == {} && forall x | x in k.cleanup :: fresh(x)
    ensures k.Valid() && k.Abs() == Scene(t, Running, []).(current := t) && k.log == [Spawn(t), Resume(t)]
    ensures k.shadowQueue == [t] && k.mainQueue == [] && k.next == 1
  {
    hide Kernel.Valid, Kernel.Abs, Step, Enabled, Swept;
    k := new Kernel();
    t := k.SpawnThread();
    FirstSteps(t);
    OnlyReady(k, t);
    k.StartBatch();
    k.SwitchTo(t);
  }

  lemma OnlyReady(k: Kernel, t: Thread)
    requires k.Valid() && k.Abs() == Scene(t, Created, []).(ready := [t]) && k.shadowQueue == []
    ensures k.mainQueue == [t] && k.current == null && !k.ending && k.owed == {} && !k.finishPending
  {
  }

  /** It registers a callback and returns, and its end begins. */
  method ReturnsAndCloses(k: Kernel, t: Thread)
    requires k.Valid() && k.Abs() == Scene(t, Running, []).(current := t)
    modifies k`current, k`log, k`closing, k`owed, k.threads, set x | x in k.cleanup
    ensures k.Valid() && k.Abs() == Scene(t, Cleanup, [0])
    ensures k.log == old(k.log) + [AddCleanup(0), Return, Close(t)]
  {
    hide Kernel.Valid, Kernel.Abs, Step, Enabled;
    OwnSteps(t);
    EndSteps(t);
    ItsThread(k, t);
    k.RegisterThreadCleanup(0);
    k.ThreadReturn();
    ItsThread(k, t);
    var finalResume := k.BeginFinish(t);
  }

  lemma ItsThread(k: Kernel, t: Thread)
    requires k.Valid() && t in k.Abs().views
    ensures t in k.threads && t.state == k.Abs().views[t].state
    ensures k.current == k.Abs().current && k.owed == k.Abs().owed && k.ending == k.Abs().ending
    ensures k.finishPending == k.Abs().finishPending
    ensures k.IsFree(t) <==> !Waiting(k.Abs().views[t])
    ensures t.called <= |t.cleanupQueue| && t.cleanupQueue[t.called..] == k.Abs().views[t].cleanups
  {
    k.ClosingState(t);
  }

  /** Its callback is under way. */
  method UntilItsCallback(k: Kernel, t: Thread)
    requires k.Valid() && k.Abs() == Scene(t, Cleanup, [0])
    modifies k`log, k.threads`handles, k.threads`timer, k.events`slots, k.threads`called
    ensures k.Valid() && k.Abs() == Scene(t, Cleanup, []) && k.log == old(k.log) + [Unhook(t), CallCleanup(t, 0)]
  {
    hide Kernel.Valid, Kernel.Abs, Step, Enabled;
    EndSteps(t);
    CallbackStep(t);
    ItsThread(k, t);
    k.UnhookThread(t);
    ItsThread(k, t);
    k.CallNext(t);
  }

  /** Meanwhile it makes another thread ready and writes a net whose value change callback enters the main
      loop. The loop switches to the thread being finished, although its function has returned. */
  method SpawnAndEnter(k: Kernel, t: Thread) returns (u: Thread, first: Thread?)
    requires k.Valid() && k.Abs() == Scene(t, Cleanup, []) && k.shadowQueue == [t] && k.next == 1
    modifies k
    ensures k.Valid() && k.mainQueue == [] && k.shadowQueue == [t, u] && first == t
    ensures k.log == old(k.log) + [Spawn(u)]
    ensures !Enabled(k.Abs(), Resume(t))
  {
    hide Kernel.Valid, Kernel.Abs, Step, Enabled;
    ItsThread(k, t);
    u := k.SpawnThread();
    NewThread(Scene(t, Cleanup, []), u);
    Queued(k, t, u);
    first := k.EnterLoopNested();
  }

  lemma Queued(k: Kernel, t: Thread, u: Thread)
    requires k.Abs().ready == [u] && k.next == 1 && k.shadowQueue == [t]
    ensures k.mainQueue == [u]
  {
    assert k.shadowQueue[1..] == [];
  }

  /** The whole run, from a new kernel on. */
  method NestedLoopEntersReturned() returns (k: Kernel, t: Thread, u: Thread, first: Thread?)
    ensures fresh(k) && k.Valid() && k.mainQueue == [] && k.shadowQueue == [t, u] && first == t
    ensures k.log == [Spawn(t), Resume(t), AddCleanup(0), Return, Close(t)]
                     + [Unhook(t), CallCleanup(t, 0), Spawn(u)]
    ensures Exec(INIT, k.log) == At(k.Abs()) && !Enabled(k.Abs(), Resume(t))
  {
    hide Kernel.Valid, Kernel.Abs, Step, Enabled, Exec;
    k, t := ThreadThatRuns();
    ReturnsAndCloses(k, t);
    UntilItsCallback(k, t);
    u, first := SpawnAndEnter(k, t);
    k.ValidRun();
  }
}
