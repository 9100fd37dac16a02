/** The final resume of a thread that asked for one, on which the stack unwinding of stimc++ rests:
    every suspension of such a thread returns, and the return tells whether the thread is at its end. */
module Unwinding {
  import opened Objects
  import opened WaitSpec
  import opened RunTheorems

  /** A thread that gets control sees itself finished iff this is its final resume. So the check after
      each suspension throws in the final resume and only there. */
  lemma FinishedOnReturnIff(s: Sys, a: Action, t: Thread)
    requires Inv(s) && Enabled(s, a) && (a == Resume(t) || a == FinalResume(t))
    ensures t in Step(s, a).views && Step(s, a).current == t
    ensures IsFinished(Step(s, a).views[t]) <==> a == FinalResume(t)
  {
  }

  /** A final resume that is owed stays owed until it takes place. */
  lemma {:induction false} OwedUntilResumed(s: Sys, acts: seq<Action>, t: Thread)
    requires Inv(s) && Exec(s, acts).At? && LifeOf(s, t).Alive? && LifeOf(s, t).owed
    requires FinalResume(t) !in acts
    ensures LifeOf(Exec(s, acts).s, t).Alive? && LifeOf(Exec(s, acts).s, t).owed
    decreases |acts|
  {
    if acts == [] {
    } else {
      var n := |acts| - 1;
      ExecPrefix(s, acts);
      RunKeepsInv(s, acts[..n]);
      assert acts[n] in acts && forall a | a in acts[..n] :: a in acts;
      hide Step, Enabled, Inv, LifeOf;
      OwedUntilResumed(s, acts[..n], t);
      LifeStep(Exec(s, acts[..n]).s, acts[n], t);
    }
  }

  /** What Close and Release say about the thread. */
  lemma CloseOwes(s: Sys, t: Thread)
    requires Inv(s) && Enabled(s, Close(t))
    ensures var l := LifeOf(Step(s, Close(t)), t);
      l.Alive? && (l.owed <==> OwesResume(s.views[t])) && (!l.owed ==> l.Settled())
  {
  }

  lemma ReleaseOwesNothing(s: Sys, t: Thread)
    requires Enabled(s, Release(t))
    ensures LifeOf(s, t).Alive? ==> !LifeOf(s, t).owed
  {
  }

  ghost predicate ResumedBetween(acts: seq<Action>, i: nat, j: nat, t: Thread)
    requires j <= |acts|
  {
    exists k :: i < k < j && acts[k] == FinalResume(t)
  }

  lemma ResumedIfOwed(s: Sys, acts: seq<Action>, i: nat, j: nat, t: Thread)
    requires Inv(s) && Exec(s, acts).At? && i < j < |acts|
    requires acts[i] == Close(t) && acts[j] == Release(t)
    requires Exec(s, acts[..i]).At? && t in Exec(s, acts[..i]).s.views && OwesResume(Exec(s, acts[..i]).s.views[t])
    ensures ResumedBetween(acts, i, j, t)
  {
    hide Step, Enabled, Inv, LifeOf, Exec, OwesResume;
    Between(s, acts, i, j);
    var u, w := Exec(s, acts[..i]).s, Exec(s, acts[..j]).s;
    CloseOwes(u, t);
    ReleaseOwesNothing(w, t);
    var mid := acts[i + 1..j];
    if FinalResume(t) !in mid {
      OwedUntilResumed(Step(u, acts[i]), mid, t);
    } else {
      var k :| 0 <= k < |mid| && mid[k] == FinalResume(t);
      assert acts[i + 1 + k] == FinalResume(t);
    }
  }

  lemma NotResumedIfNotOwed(s: Sys, acts: seq<Action>, i: nat, k: nat, t: Thread)
    requires Inv(s) && Exec(s, acts).At? && i < k < |acts| && acts[i] == Close(t)
    requires Exec(s, acts[..i]).At? && t in Exec(s, acts[..i]).s.views && !OwesResume(Exec(s, acts[..i]).s.views[t])
    ensures acts[k] != FinalResume(t)
  {
    hide Step, Enabled, Inv, LifeOf, Exec, OwesResume;
    Between(s, acts, i, k);
    var u, w := Exec(s, acts[..i]).s, Exec(s, acts[..k]).s;
    CloseOwes(u, t);
    SettledRun(Step(u, acts[i]), acts[i + 1..k], t);
    SettledByStep(w, acts[k], t);
  }

  /** Between the begin of its end and its release a thread is resumed a last time iff it asked for it,
      was started, and has not returned. */
  lemma ResumedBeforeFreedIff(s: Sys, acts: seq<Action>, i: nat, j: nat, t: Thread)
    requires Inv(s) && Exec(s, acts).At? && i < j < |acts|
    requires acts[i] == Close(t) && acts[j] == Release(t)
    ensures Exec(s, acts[..i]).At? && t in Exec(s, acts[..i]).s.views
    ensures ResumedBetween(acts, i, j, t) <==> OwesResume(Exec(s, acts[..i]).s.views[t])
  {
    hide Step, Inv, LifeOf, Exec, OwesResume;
    Between(s, acts, i, j);
    if OwesResume(Exec(s, acts[..i]).s.views[t]) {
      ResumedIfOwed(s, acts, i, j, t);
    } else {
      forall k | i < k < j ensures acts[k] != FinalResume(t) {
        NotResumedIfNotOwed(s, acts, i, k, t);
      }
    }
  }

  /** What thread t last said in a run about its final resume; a thread that says nothing wants none. */
  ghost function WishIn(acts: seq<Action>, t: Thread): bool
    requires Exec(INIT, acts).At?
    decreases |acts|
  {
    if acts == [] then false
    else
      var n := |acts| - 1;
      if acts[n].SetResume? && Exec(INIT, acts[..n]).s.current == t then acts[n].on else WishIn(acts[..n], t)
  }

  predicate Wants(l: Life, wish: bool) {
    (l.Alive? ==> l.wants == wish) && (l.Unborn? ==> !wish)
  }

  lemma Nobody(t: Thread)
    ensures LifeOf(INIT, t) == Unborn
  {
  }

  lemma WishStep(s: Sys, a: Action, t: Thread, wish: bool)
    requires Inv(s) && Enabled(s, a) && Wants(LifeOf(s, t), wish)
    ensures Wants(LifeOf(Step(s, a), t), if a.SetResume? && s.current == t then a.on else wish)
  {
    hide Step, Enabled, Inv, LifeOf;
    LifeStep(s, a, t);
  }

  lemma {:induction false} WishRemembered(acts: seq<Action>, t: Thread)
    requires Exec(INIT, acts).At?
    ensures Wants(LifeOf(Exec(INIT, acts).s, t), WishIn(acts, t))
    decreases |acts|
  {
    if acts == [] {
      Nobody(t);
    } else {
      hide Step, Enabled, Inv, LifeOf, Wants;
      var n := |acts| - 1;
      ExecPrefix(INIT, acts);
      InitInv();
      RunKeepsInv(INIT, acts[..n]);
      WishRemembered(acts[..n], t);
      WishStep(Exec(INIT, acts[..n]).s, acts[n], t, WishIn(acts[..n], t));
    }
  }

  lemma OwesIff(s: Sys, t: Thread)
    requires Inv(s) && t in s.views
    ensures LifeOf(s, t).Alive? && LifeOf(s, t).wants == s.views[t].resumeOnFinish
    ensures OwesResume(s.views[t]) <==>
      s.views[t].resumeOnFinish && s.views[t].state in {Running, Stopped, StoppedToFinish}
  {
  }

  /** The same in terms of what the thread has said: it is resumed a last time iff it last said that it wants
      to be, and is neither new nor has returned. */
  lemma ResumedIffWished(acts: seq<Action>, i: nat, j: nat, t: Thread)
    requires Exec(INIT, acts).At? && i < j < |acts| && acts[i] == Close(t) && acts[j] == Release(t)
    ensures Exec(INIT, acts[..i]).At? && t in Exec(INIT, acts[..i]).s.views
    ensures ResumedBetween(acts, i, j, t) <==>
      WishIn(acts[..i], t) && Exec(INIT, acts[..i]).s.views[t].state in {Running, Stopped, StoppedToFinish}
  {
    hide Step, Inv, LifeOf, Exec, OwesResume;
    InitInv();
    Between(INIT, acts, i, j);
    ResumedBeforeFreedIff(INIT, acts, i, j, t);
    WishRemembered(acts[..i], t);
    OwesIff(Exec(INIT, acts[..i]).s, t);
  }

  /** In acts, thread t does not call off its final resume. */
  ghost predicate KeepsAsking(s: Sys, acts: seq<Action>, t: Thread) {
    forall k :: 0 <= k < |acts| && acts[k] == SetResume(false) ==>
      Exec(s, acts[..k]).At? && Exec(s, acts[..k]).s.current != t
  }

  lemma KeepsAskingPrefix(s: Sys, acts: seq<Action>, t: Thread)
    requires acts != [] && KeepsAsking(s, acts, t)
    ensures KeepsAsking(s, acts[..|acts| - 1], t)
  {
    var p := acts[..|acts| - 1];
    forall k | 0 <= k < |p| && p[k] == SetResume(false)
      ensures Exec(s, p[..k]).At? && Exec(s, p[..k]).s.current != t
    {
      assert p[..k] == acts[..k];
    }
  }

  /** A started thread that wants its final resume. */
  predicate Asking(l: Life) {
    l.Dead? || (l.Alive? && l.wants && l.state != Created)
  }

  lemma {:induction false} StillAsking(s: Sys, acts: seq<Action>, t: Thread)
    requires Inv(s) && Exec(s, acts).At? && Asking(LifeOf(s, t)) && KeepsAsking(s, acts, t)
    ensures Asking(LifeOf(Exec(s, acts).s, t))
    decreases |acts|
  {
    if acts == [] {
    } else {
      var n := |acts| - 1;
      ExecPrefix(s, acts);
      RunKeepsInv(s, acts[..n]);
      KeepsAskingPrefix(s, acts, t);
      assert acts[n] == SetResume(false) ==> Exec(s, acts[..n]).s.current != t;
      hide Step, Enabled, Inv, LifeOf, KeepsAsking;
      StillAsking(s, acts[..n], t);
      LifeStep(Exec(s, acts[..n]).s, acts[n], t);
    }
  }

  lemma AsksFor(s: Sys, t: Thread)
    requires Inv(s) && Enabled(s, SetResume(true)) && s.current == t
    ensures Asking(LifeOf(Step(s, SetResume(true)), t))
  {
  }

  lemma AskingOwes(s: Sys, t: Thread)
    requires Inv(s) && Enabled(s, Close(t)) && Asking(LifeOf(s, t))
    ensures OwesResume(s.views[t]) <==> s.views[t].state != Finished
  {
  }

  /** The spawn wrapper of stimc++ asks for a final resume before anything else. Such a thread, unless it
      calls that off, is unwound before it is freed, except when its function has returned already. */
  lemma UnwoundUnlessReturned(s: Sys, acts: seq<Action>, m: nat, i: nat, j: nat, t: Thread)
    requires Inv(s) && Exec(s, acts).At? && m < i < j < |acts|
    requires acts[m] == SetResume(true) && Exec(s, acts[..m]).At? && Exec(s, acts[..m]).s.current == t
    requires acts[i] == Close(t) && acts[j] == Release(t)
    requires Exec(s, acts[..m + 1]).At? && KeepsAsking(Exec(s, acts[..m + 1]).s, acts[m + 1..i], t)
    ensures Exec(s, acts[..i]).At? && t in Exec(s, acts[..i]).s.views
    ensures ResumedBetween(acts, i, j, t) <==> Exec(s, acts[..i]).s.views[t].state != Finished
  {
    hide Step, Enabled, Inv, LifeOf, Exec, OwesResume, KeepsAsking;
    Between(s, acts, m, i);
    var u := Exec(s, acts[..m]).s;
    AfterOne(s, acts, m);
    AsksFor(u, t);
    StillAsking(Step(u, acts[m]), acts[m + 1..i], t);
    ResumedBeforeFreedIff(s, acts, i, j, t);
    AskingOwes(Exec(s, acts[..i]).s, t);
  }

  lemma AfterOne(s: Sys, acts: seq<Action>, m: nat)
    requires m < |acts| && Exec(s, acts[..m + 1]).At?
    ensures Exec(s, acts[..m]).At? && Enabled(Exec(s, acts[..m]).s, acts[m])
    ensures Exec(s, acts[..m + 1]).s == Step(Exec(s, acts[..m]).s, acts[m])
  {
    assert acts[..m + 1][..m] == acts[..m];
    ExecPrefix(s, acts[..m + 1]);
  }
}
