/** What code outside the kernel can do to its state, and what the log of steps tells about it. */
module Calls {
  import opened Objects
  import opened WaitSpec
  import opened RunTheorems

  /** API calls that return at once. */
  predicate IsCall(a: Action) {
    a.NewEvent? || a.FreeEvent? || a.Trigger? || a.Spawn? || a.SetResume? || a.AddCleanup?
  }

  /** API calls that hand control back to the kernel. */
  predicate IsSuspension(a: Action) {
    OfCurrent(a) && !a.SetResume? && !a.AddCleanup?
  }

  ghost predicate SameProgress(s: Sys, u: Sys) {
    u.ending == s.ending && u.owed == s.owed && u.gone == s.gone && u.lost == s.lost
  }

  /** Nobody but the thread itself changes its state or its wishes, and nobody else makes it wait. */
  predicate ViewKept(v: View, w: View, mine: bool) {
    && w.state == v.state
    && (!Waiting(v) ==> !Waiting(w))
    && (!mine ==> w.cleanups == v.cleanups && w.resumeOnFinish == v.resumeOnFinish)
  }

  ghost predicate OthersKept(s: Sys, u: Sys) {
    && (forall t | t in s.views && t != s.current :: t in u.views && ViewKept(s.views[t], u.views[t], false))
    && (forall t | t in u.views && t !in s.views :: ViewKept(NEW_VIEW, u.views[t], false) && t != s.current)
  }

  /** The effect of any number of calls that do not suspend. */
  ghost predicate Undisturbed(s: Sys, u: Sys) {
    && SameProgress(s, u) && u.current == s.current && u.finishPending == s.finishPending && OthersKept(s, u)
    && (s.current != null && s.current in s.views ==>
          s.current in u.views && ViewKept(s.views[s.current], u.views[s.current], true))
  }

  /** The effect of a thread from being switched to until it hands control back. */
  ghost predicate Ran(s: Sys, u: Sys) {
    && SameProgress(s, u) && u.current == null && OthersKept(s, u)
    && (s.current != null && s.current in s.views ==>
          s.current in u.views && (u.views[s.current].state == Cleanup <==> s.views[s.current].state == Cleanup))
  }

  lemma EventCallStep(s: Sys, a: Action)
    requires Inv(s) && Enabled(s, a) && IsCall(a) && OnEvents(a)
    ensures Undisturbed(s, Step(s, a))
  {
  }

  lemma ThreadCallStep(s: Sys, a: Action)
    requires Inv(s) && Enabled(s, a) && IsCall(a) && !OnEvents(a)
    ensures Undisturbed(s, Step(s, a))
  {
  }

  lemma CallStep(s: Sys, a: Action)
    requires Inv(s) && Enabled(s, a) && IsCall(a)
    ensures Undisturbed(s, Step(s, a))
  {
    hide Inv, Enabled, Step, Undisturbed;
    if OnEvents(a) { EventCallStep(s, a); } else { ThreadCallStep(s, a); }
  }

  lemma WaitCallStep(s: Sys, a: Action)
    requires Inv(s) && Enabled(s, a) && (a.WaitOne? || a.WaitMany? || a.Sleep?)
    ensures Ran(s, Step(s, a))
  {
  }

  lemma LeaveCallStep(s: Sys, a: Action)
    requires Inv(s) && Enabled(s, a) && (a.Halt? || a.Exit? || a.Return? || a.Finish?)
    ensures Ran(s, Step(s, a))
  {
  }

  lemma SuspensionStep(s: Sys, a: Action)
    requires Inv(s) && Enabled(s, a) && IsSuspension(a)
    ensures Ran(s, Step(s, a))
  {
    hide Inv, Enabled, Step, Ran;
    if a.WaitOne? || a.WaitMany? || a.Sleep? { WaitCallStep(s, a); } else { LeaveCallStep(s, a); }
  }

  lemma UndisturbedReflexive(s: Sys)
    requires s.current != null ==> s.current in s.views
    ensures Undisturbed(s, s)
  {
  }

  lemma UndisturbedTransitive(s: Sys, u: Sys, w: Sys)
    requires Undisturbed(s, u) && Undisturbed(u, w)
    requires s.current != null ==> s.current in s.views
    ensures Undisturbed(s, w)
  {
  }

  lemma CallsThenSuspension(s: Sys, u: Sys, w: Sys)
    requires Undisturbed(s, u) && Ran(u, w)
    requires s.current != null ==> s.current in s.views
    ensures Ran(s, w)
  {
  }

  /** Calls leave the state one in which events can be triggered. */
  lemma StaysQuiet(s: Sys, u: Sys)
    requires Quiet(s) && Undisturbed(s, u)
    ensures Quiet(u)
  {
  }

  /** Outside the teardown only t may be at its end. */
  ghost predicate SweptBut(s: Sys, t: Thread) {
    s.ending || forall u | u in s.views && u != t :: s.views[u].state.Rank() <= Stopped.Rank()
  }

  lemma SwitchKeeps(s: Sys, a: Action, t: Thread)
    requires Inv(s) && Enabled(s, a) && SweptBut(s, t)
    requires a == Resume(t) || a == FinalResume(t) || a == Close(t) || a == Unhook(t) || (a.CallCleanup? && a.t == t)
    ensures var u := Step(s, a); SweptBut(u, t) && (a != Close(t) ==> Quiet(u))
  {
    hide Inv, Enabled, Step, SweptBut, Quiet;
    if a == Resume(t) || a == FinalResume(t) { EntryKeeps(s, a, t); } else { EndKeeps(s, a, t); }
  }

  lemma EntryKeeps(s: Sys, a: Action, t: Thread)
    requires Inv(s) && Enabled(s, a) && SweptBut(s, t) && (a == Resume(t) || a == FinalResume(t))
    ensures var u := Step(s, a); SweptBut(u, t) && Quiet(u)
  {
  }

  lemma EndKeeps(s: Sys, a: Action, t: Thread)
    requires Enabled(s, a) && SweptBut(s, t)
    requires a == Close(t) || a == Unhook(t) || (a.CallCleanup? && a.t == t)
    ensures var u := Step(s, a); SweptBut(u, t) && (a != Close(t) ==> Quiet(u))
  {
  }

  lemma TimerKeepsSwept(s: Sys, t: Thread)
    requires Enabled(s, TimerFires(t))
    ensures Swept(Step(s, TimerFires(t)))
  {
  }

  lemma StaysSwept(s: Sys, u: Sys)
    requires Swept(s) && s.current == null && Undisturbed(s, u)
    ensures Swept(u)
  {
  }

  lemma StaysPending(s: Sys, u: Sys)
    requires Undisturbed(s, u)
    ensures u.finishPending == s.finishPending
  {
  }

  lemma KeptView(s: Sys, u: Sys, t: Thread)
    requires Undisturbed(s, u) && s.current == null && t in s.views
    ensures t in u.views && u.views[t].state == s.views[t].state && (!Waiting(s.views[t]) ==> !Waiting(u.views[t]))
  {
  }

  /** Running does not bring a thread to the end that its final resume is part of, nor back from there. */
  lemma RanState(s: Sys, u: Sys, t: Thread)
    requires Ran(s, u) && s.current == t && t in s.views
    ensures t in u.views && (u.views[t].state == Cleanup <==> s.views[t].state == Cleanup)
  {
  }

  lemma SweptNow(s: Sys, t: Thread)
    requires SweptBut(s, t) && !s.ending && (t in s.views ==> s.views[t].state.Rank() <= Stopped.Rank())
    ensures Swept(s)
  {
  }

  lemma EndingSweeps(s: Sys, t: Thread)
    requires s.ending
    ensures SweptBut(s, t)
  {
  }

  lemma EndingIsQuiet(s: Sys)
    requires s.ending
    ensures Quiet(s)
  {
  }

  /** When t has been released nobody is left at its end. */
  lemma ReleasedSwept(s: Sys, t: Thread)
    requires Enabled(s, Release(t)) && SweptBut(s, t)
    ensures !s.ending ==> Swept(Step(s, Release(t)))
    ensures SweptBut(Step(s, Release(t)), t)
  {
  }

  lemma SweptIsQuiet(s: Sys)
    requires Swept(s)
    ensures Quiet(s) && forall t :: SweptBut(s, t)
  {
  }

  /** A thread that ran leaves all others swept. */
  lemma RanSweptBut(s: Sys, u: Sys, t: Thread)
    requires SweptBut(s, t) && (s.current == null || s.current == t) && (Ran(s, u) || Undisturbed(s, u))
    ensures SweptBut(u, t)
  {
  }

  // -----------------------------------------------------------------------------------------------
  // The log

  /** Step a cancels the cleanup entry of this target. */
  predicate Cancels(a: Action, target: Target) {
    match target
    case OfThread(t) => a == Close(t)
    case OfEvent(e) => a == FreeEvent(e)
    case OfUser => false
  }

  ghost predicate CanceledSince(log0: seq<Action>, log1: seq<Action>, target: Target) {
    exists k :: |log0| <= k < |log1| && Cancels(log1[k], target)
  }

  /** What the kernel can see of a cleanup entry. */
  datatype Mark = Mark(target: Target, canceled: bool)

  /** Between two states with these logs no entry left the list or changed its target, and an entry is
      canceled now only if it was before or a step since then cancels it. */
  ghost predicate MarksKept(m0: map<CleanupEntry, Mark>, log0: seq<Action>,
                            m1: map<CleanupEntry, Mark>, log1: seq<Action>) {
    && log0 <= log1
    && forall x | x in m0 ::
         && x in m1 && m1[x].target == m0[x].target
         && (m0[x].canceled ==> m1[x].canceled)
         && (m1[x].canceled ==> m0[x].canceled || CanceledSince(log0, log1, m0[x].target))
  }

  lemma MarksSame(m: map<CleanupEntry, Mark>, log0: seq<Action>, log1: seq<Action>)
    requires log0 <= log1
    ensures MarksKept(m, log0, m, log1)
  {
  }

  lemma MarksTransitive(m0: map<CleanupEntry, Mark>, log0: seq<Action>, m1: map<CleanupEntry, Mark>, log1: seq<Action>,
                        m2: map<CleanupEntry, Mark>, log2: seq<Action>)
    requires MarksKept(m0, log0, m1, log1) && MarksKept(m1, log1, m2, log2)
    ensures MarksKept(m0, log0, m2, log2)
  {
    forall x | x in m0
      ensures x in m2 && m2[x].target == m0[x].target && (m0[x].canceled ==> m2[x].canceled)
      ensures m2[x].canceled ==> m0[x].canceled || CanceledSince(log0, log2, m0[x].target)
    {
      CanceledStill(log0, log1, log2, m0[x].target);
    }
  }

  lemma CanceledStill(log0: seq<Action>, log1: seq<Action>, log2: seq<Action>, target: Target)
    requires log0 <= log1 <= log2
    ensures CanceledSince(log0, log1, target) ==> CanceledSince(log0, log2, target)
    ensures CanceledSince(log1, log2, target) ==> CanceledSince(log0, log2, target)
  {
    if CanceledSince(log0, log1, target) {
      var k :| |log0| <= k < |log1| && Cancels(log1[k], target);
      assert Cancels(log2[k], target);
    }
  }

  /** Steps of the teardown itself, each on behalf of one cleanup entry. */
  predicate OfTeardown(a: Action) {
    a.Forget? || a.CallUser?
  }

  /** The log got longer, and after the first `special` of its new steps no queue entry was started, and
      the teardown did not turn to an entry of an event or of the user. */
  ghost predicate PlainSince(log0: seq<Action>, log1: seq<Action>, special: nat) {
    log0 <= log1 && forall k :: |log0| + special <= k < |log1| ==> !log1[k].Resume? && !OfTeardown(log1[k])
  }

  lemma PlainTransitive(log0: seq<Action>, log1: seq<Action>, log2: seq<Action>, special: nat)
    requires PlainSince(log0, log1, special) && PlainSince(log1, log2, 0)
    requires special == 0 || |log0| + special <= |log1|
    ensures PlainSince(log0, log2, special)
  {
  }

  lemma PlainStep(log0: seq<Action>, a: Action)
    ensures PlainSince(log0, log0 + [a], if a.Resume? || OfTeardown(a) then 1 else 0)
  {
  }

  lemma PlainReflexive(log0: seq<Action>)
    ensures PlainSince(log0, log0, 0)
  {
  }

  lemma PlainWeaker(log0: seq<Action>, log1: seq<Action>)
    requires PlainSince(log0, log1, 0)
    ensures PlainSince(log0, log1, 1)
  {
  }

  /** The log got longer, and no queue entry was started. */
  ghost predicate NoResumeSince(log0: seq<Action>, log1: seq<Action>) {
    log0 <= log1 && forall k :: |log0| <= k < |log1| ==> !log1[k].Resume?
  }

  lemma NoResumeTransitive(log0: seq<Action>, log1: seq<Action>, log2: seq<Action>)
    requires NoResumeSince(log0, log1) && NoResumeSince(log1, log2)
    ensures NoResumeSince(log0, log2)
  {
  }

  lemma NoResumeByFirst(log0: seq<Action>, log1: seq<Action>)
    requires PlainSince(log0, log1, 1) && (|log0| < |log1| ==> !log1[|log0|].Resume?)
    ensures NoResumeSince(log0, log1)
  {
  }

  /** The steps in which teardowns have turned to events and entries of the user, in order. */
  function Torn(log: seq<Action>): seq<Action> {
    if log == [] then []
    else
      var n := |log| - 1;
      Torn(log[..n]) + if OfTeardown(log[n]) then [log[n]] else []
  }

  /** Only the first new step can be one of those. */
  lemma {:induction false} TornByFirst(log0: seq<Action>, log1: seq<Action>)
    requires PlainSince(log0, log1, 1)
    ensures Torn(log1) == Torn(log0) + if log0 != log1 && OfTeardown(log1[|log0|]) then [log1[|log0|]] else []
    decreases |log1|
  {
    if log0 == log1 {
    } else {
      var n := |log1| - 1;
      TornByFirst(log0, log1[..n]);
      assert |log0| < n ==> log1[..n][|log0|] == log1[|log0|];
      assert |log0| == n ==> log1[..n] == log0;
    }
  }

  lemma TornSnoc(log0: seq<Action>, a: Action)
    ensures Torn(log0 + [a]) == Torn(log0) + if OfTeardown(a) then [a] else []
  {
    assert (log0 + [a])[..|log0|] == log0;
  }

  /** Each of these steps of the later log is among them. */
  lemma {:induction false} InTorn(log0: seq<Action>, log1: seq<Action>, k: nat) returns (i: nat)
    requires log0 <= log1 && |log0| <= k < |log1| && OfTeardown(log1[k])
    ensures |Torn(log0)| <= i < |Torn(log1)| && Torn(log1)[i] == log1[k]
    decreases |log1|
  {
    var n := |log1| - 1;
    TornGrows(log0, log1[..n]);
    if k == n {
      i := |Torn(log1[..n])|;
    } else {
      i := InTorn(log0, log1[..n], k);
    }
  }

  lemma {:induction false} TornGrows(log0: seq<Action>, log1: seq<Action>)
    requires log0 <= log1
    ensures Torn(log0) <= Torn(log1)
    decreases |log1|
  {
    if log0 == log1 {
    } else {
      var n := |log1| - 1;
      TornGrows(log0, log1[..n]);
    }
  }

  /** The step with which the teardown of an entry begins. */
  function TearingStep(x: CleanupEntry, target: Target): Action {
    match target
    case OfThread(t) => Close(t)
    case OfEvent(e) => Forget(e)
    case OfUser => CallUser(x)
  }

  /** These steps for a sequence of entries, except those of threads. */
  ghost function Tearing(called: seq<CleanupEntry>, marks: map<CleanupEntry, Mark>): seq<Action>
    requires forall x | x in called :: x in marks
  {
    if called == [] then []
    else
      var n := |called| - 1;
      var a := TearingStep(called[n], marks[called[n]].target);
      Tearing(called[..n], marks) + if OfTeardown(a) then [a] else []
  }

  /** One more entry has been reached. */
  lemma TearingNext(called: seq<CleanupEntry>, marks: map<CleanupEntry, Mark>, x: CleanupEntry)
    requires (forall y | y in called :: y in marks) && x in marks
    ensures var a := TearingStep(x, marks[x].target);
      Tearing(called + [x], marks) == Tearing(called, marks) + if OfTeardown(a) then [a] else []
  {
    assert (called + [x])[..|called|] == called;
  }

  /** The teardown turns to an event only on behalf of an entry for it. */
  lemma {:induction false} TearingForget(called: seq<CleanupEntry>, marks: map<CleanupEntry, Mark>, e: Event)
    returns (x: CleanupEntry)
    requires (forall y | y in called :: y in marks) && Forget(e) in Tearing(called, marks)
    ensures x in called && marks[x].target == OfEvent(e)
    decreases |called|
  {
    var n := |called| - 1;
    if marks[called[n]].target == OfEvent(e) {
      x := called[n];
    } else {
      x := TearingForget(called[..n], marks, e);
    }
  }

  ghost predicate HappensSince(log0: seq<Action>, log1: seq<Action>, a: Action) {
    exists k :: |log0| <= k < |log1| && log1[k] == a
  }

  lemma {:induction false} StartedGrows(log0: seq<Action>, log1: seq<Action>)
    requires log0 <= log1
    ensures AllStarted(log0) <= AllStarted(log1)
    decreases |log1|
  {
    if |log0| < |log1| {
      StartedGrows(log0, log1[..|log1| - 1]);
    } else {
      assert log0 == log1;
    }
  }

  lemma StartedOne(log0: seq<Action>, log1: seq<Action>)
    requires log0 <= log1 && |log0| < |log1| && log1[|log0|].Resume?
    ensures |AllStarted(log0)| < |AllStarted(log1)|
  {
    var n := |log0|;
    assert log1[..n + 1][..n] == log0;
    StartedGrows(log1[..n + 1], log1);
  }
}
