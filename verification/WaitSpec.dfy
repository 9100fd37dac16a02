/** The kernel's intended behaviour, without slots, indices or double buffering: every thread has
    a set of awaited events, a mode and maybe a timer, and there is one queue of ready threads. */
module WaitSpec {
  import opened Objects
  import opened Handles

  datatype View = View(awaited: set<Event>, any: bool, timer: bool, timedOut: bool,
                       state: ThreadState, resumeOnFinish: bool, cleanups: seq<nat>)

  /** `ending` marks the end-of-simulation teardown. `owed` are the threads that still get their final
      resume, `gone` those already freed, `freed` the events already freed. `late` are the threads
      spawned during the teardown under way: it does not reach them, and they are `lost` at its end. */
  datatype Sys = Sys(views: map<Thread, View>, events: set<Event>, freed: set<Event>, ready: seq<Thread>,
                     current: Thread?, finishPending: bool, ending: bool,
                     owed: set<Thread>, gone: set<Thread>, late: set<Thread>, lost: set<Thread>)

  const NEW_VIEW := View({}, true, false, false, Created, false, [])

  const INIT := Sys(map[], {}, {}, [], null, false, false, {}, {}, {}, {})

  datatype Action =
    | NewEvent(e: Event)
    | FreeEvent(e: Event)
    | Forget(e: Event)                          // an event's waiters dropped at teardown, event kept
    | Trigger(e: Event, woken: seq<Thread>)
    | Spawn(t: Thread)
    | SetResume(on: bool)
    | AddCleanup(cb: nat)                       // a callback for the end of the current thread
    | Resume(t: Thread)
    | WaitOne(e: Event, timed: bool)
    | WaitMany(es: seq<Event>, any: bool, timed: bool)
    | Sleep
    | Halt
    | Exit
    | Return
    | Finish
    | TimerFires(t: Thread)
    | Close(t: Thread)                          // stimc_thread_finish begins
    | FinalResume(t: Thread)
    | Unhook(t: Thread)                         // its timer and its event slots are cleared
    | CallCleanup(t: Thread, cb: nat)           // the next of its callbacks is called
    | Release(t: Thread)                        // it is freed
    | Drop(n: nat)                              // rest of a batch abandoned
    | BeginEnd
    | CallUser(x: CleanupEntry)                 // the teardown calls an entry of the user
    | Reset

  predicate Waiting(v: View) {
    v.awaited != {} || v.timer
  }

  predicate Wakes(v: View, e: Event) {
    e in v.awaited && (v.any || v.awaited == {e})
  }

  function AfterTrigger(v: View, e: Event): View {
    if Wakes(v, e) then v.(awaited := {}, timer := false, timedOut := v.timedOut && !v.timer)
    else v.(awaited := v.awaited - {e})
  }

  /** The event disappears: nobody is woken, but a timed wait left with no event will be a timeout. */
  function AfterFree(v: View, e: Event): View {
    v.(awaited := v.awaited - {e}, timedOut := v.timedOut || (v.awaited == {e} && v.timer))
  }

  function TriggerAll(views: map<Thread, View>, e: Event): map<Thread, View> {
    map t | t in views :: AfterTrigger(views[t], e)
  }

  function FreeAll(views: map<Thread, View>, e: Event): map<Thread, View> {
    map t | t in views :: AfterFree(views[t], e)
  }

  function AfterTimer(v: View): View {
    v.(awaited := {}, timer := false, timedOut := v.timedOut || v.awaited != {})
  }

  /** A wait on `events`; `timedOut` is reset by the timed event waits only. */
  function AfterWait(v: View, events: set<Event>, any: bool, timed: bool): View {
    v.(awaited := events, any := any, timer := timed, timedOut := v.timedOut && !timed)
  }

  function Members(es: seq<Event>): set<Event> {
    set e | e in es
  }

  /** `woken` lists every thread that e wakes, each once, in some order. */
  ghost predicate ListsWoken(views: map<Thread, View>, e: Event, woken: seq<Thread>) {
    && Distinct(woken)
    && (forall t | t in woken :: t in views && Wakes(views[t], e))
    && (forall t | t in views && Wakes(views[t], e) :: t in woken)
  }

  /** Some thread runs, and it is not still entered in a queue or with a timer from an earlier wait. */
  predicate MayWait(s: Sys) {
    s.current != null && s.current in s.views && !Waiting(s.views[s.current])
  }

  /** Every thread that is at its end has been finished and freed. */
  ghost predicate Swept(s: Sys) {
    forall t | t in s.views :: s.views[t].state.Rank() <= Stopped.Rank()
  }

  /** Outside the teardown no thread that is being finished is entered in an event's queue. */
  ghost predicate Quiet(s: Sys) {
    s.ending || forall t | t in s.views && s.views[t].state == Cleanup :: !Waiting(s.views[t])
  }

  /** The end of t has begun, and it has had the final resume it was due. */
  predicate Closed(s: Sys, t: Thread) {
    s.current == null && t in s.views && s.views[t].state == Cleanup && t !in s.owed
  }

  ghost predicate Enabled(s: Sys, a: Action) {
    match a
    case NewEvent(e) => e !in s.events && e !in s.freed
    case FreeEvent(e) => e in s.events
    case Forget(e) => e in s.events && s.ending
    case Trigger(e, woken) => e in s.events && ListsWoken(s.views, e, woken) && Quiet(s)
    case Spawn(t) => t !in s.views && t !in s.gone && t !in s.lost
    case SetResume(_) => s.current != null && s.current in s.views
    case AddCleanup(_) => s.current != null && s.current in s.views
    case Resume(t) => s.current == null && s.ready != [] && s.ready[0] == t && t in s.views
                      && !s.finishPending && !s.ending && Swept(s)
    case WaitOne(e, _) => MayWait(s) && e in s.events
    case WaitMany(es, _, _) => MayWait(s) && forall e | e in es :: e in s.events
    case Sleep => MayWait(s)
    case Halt => s.current != null && s.current in s.views
    case Exit => s.current != null && s.current in s.views
    case Return => s.current != null && s.current in s.views
    case Finish => s.current != null && s.current in s.views
    case TimerFires(t) => s.current == null && !s.ending && t in s.views && s.views[t].timer && Swept(s)
    case Close(t) => s.current == null && t in s.views && s.views[t].state != Cleanup && t !in s.late
                     && (s.ending || s.views[t].state.StoppedToFinish? || s.views[t].state.Finished?)
    case FinalResume(t) => s.current == null && t in s.owed && t in s.views
    case Unhook(t) => Closed(s, t)
    case CallCleanup(t, cb) => Closed(s, t) && !Waiting(s.views[t]) && [cb] <= s.views[t].cleanups
    case Release(t) => Closed(s, t) && !Waiting(s.views[t]) && s.views[t].cleanups == []
    case Drop(n) => s.current == null && s.finishPending && n <= |s.ready| && Swept(s)
    case BeginEnd => s.current == null && !s.ending && Swept(s)
    case CallUser(_) => s.current == null && s.ending
    case Reset => s.current == null && s.ending && s.views.Keys == s.late
  }

  /** A suspended or returning current thread hands control back, its state raised to st. */
  ghost function Leave(s: Sys, st: ThreadState): Sys
    requires s.current != null && s.current in s.views
  {
    var v := s.views[s.current];
    s.(views := s.views[s.current := v.(state := v.state.Raise(st))], current := null)
  }

  ghost function Park(s: Sys, v: View): Sys
    requires s.current != null
  {
    s.(views := s.views[s.current := v], current := null)
  }

  /** A final resume is due iff the thread asked for it, was started, and has not returned. */
  predicate OwesResume(v: View) {
    v.resumeOnFinish && Created.Rank() < v.state.Rank() < Finished.Rank()
  }

  ghost function Step(s: Sys, a: Action): Sys
    requires Enabled(s, a)
  {
    match a
    case NewEvent(e) => s.(events := s.events + {e})
    case FreeEvent(e) => s.(views := FreeAll(s.views, e), events := s.events - {e}, freed := s.freed + {e})
    case Forget(e) => s.(views := FreeAll(s.views, e))
    case Trigger(e, woken) =>
      s.(views := TriggerAll(s.views, e), ready := s.ready + woken)
    case Spawn(t) =>
      s.(views := s.views[t := NEW_VIEW], ready := s.ready + [t], late := if s.ending then s.late + {t} else s.late)
    case SetResume(on) => s.(views := s.views[s.current := s.views[s.current].(resumeOnFinish := on)])
    case AddCleanup(cb) =>
      var v := s.views[s.current];
      s.(views := s.views[s.current := v.(cleanups := [cb] + v.cleanups)])
    case Resume(t) =>
      var v := s.views[t];
      s.(views := s.views[t := v.(state := v.state.Raise(Running))], ready := s.ready[1..], current := t)
    case WaitOne(e, timed) =>
      var v := s.views[s.current];
      Park(s, AfterWait(v, {e}, v.any, timed))
    case WaitMany(es, any, timed) => Park(s, AfterWait(s.views[s.current], Members(es), any, timed))
    case Sleep => Park(s, s.views[s.current].(timer := true))
    case Halt => Leave(s, Stopped)
    case Exit => Leave(s, StoppedToFinish)
    case Return => Leave(s, Finished)
    case Finish => Leave(s, StoppedToFinish).(finishPending := true)
    case TimerFires(t) => s.(views := s.views[t := AfterTimer(s.views[t])], ready := s.ready + [t])
    case Close(t) =>
      var v := s.views[t];
      s.(views := s.views[t := v.(state := Cleanup)], owed := if OwesResume(v) then s.owed + {t} else s.owed)
    case FinalResume(t) => s.(current := t, owed := s.owed - {t})
    case Unhook(t) => s.(views := s.views[t := s.views[t].(awaited := {}, timer := false)])
    case CallCleanup(t, _) => s.(views := s.views[t := s.views[t].(cleanups := s.views[t].cleanups[1..])])
    case Release(t) => s.(views := s.views - {t}, gone := s.gone + {t})
    case Drop(n) => s.(ready := s.ready[n..])
    case BeginEnd => s.(ending := true)
    case CallUser(_) => s
    case Reset => s.(views := map[], ready := [], finishPending := false, ending := false,
                     late := {}, lost := s.lost + s.late)
  }

  /** What `stimc_thread_is_finished` answers. */
  predicate IsFinished(v: View) {
    Stopped.Rank() <= v.state.Rank()
  }

  /** Outside the teardown no thread is queued twice, and a queued thread waits for nothing. */
  ghost predicate ReadyInv(s: Sys) {
    && Distinct(s.ready)
    && (forall t | t in s.ready ::
          t in s.views && t != s.current && !Waiting(s.views[t])
          && (s.views[t].state == Created || s.views[t].state == Running))
    && (s.current != null ==> s.current in s.views && !Waiting(s.views[s.current]))
    && (!s.finishPending ==> forall t | t in s.views && s.views[t].state == Created :: t in s.ready)
  }

  ghost predicate ViewInv(s: Sys, v: View) {
    && v.awaited <= s.events
    && (Waiting(v) ==> v.state == Running || v.state == Cleanup)
  }

  ghost predicate CurrentInv(s: Sys, t: Thread) {
    && t in s.views && t !in s.owed
    && (s.views[t].state == Running || s.views[t].state == Cleanup)
    && (s.ending ==> s.views[t].state == Cleanup)
  }

  ghost predicate Inv(s: Sys) {
    && (forall t | t in s.views :: ViewInv(s, s.views[t]))
    && s.events !! s.freed
    && s.views.Keys !! s.gone && s.views.Keys !! s.lost && s.gone !! s.lost
    && (forall t | t in s.late :: s.ending && t in s.views && s.views[t].state == Created)
    && (forall t | t in s.owed :: t in s.views && s.views[t].state == Cleanup && (s.ending || !Waiting(s.views[t])))
    && (s.current != null ==> CurrentInv(s, s.current))
    && (!s.ending ==> ReadyInv(s))
  }

  lemma TriggerKeepsInv(s: Sys, e: Event, woken: seq<Thread>)
    requires Inv(s) && Enabled(s, Trigger(e, woken))
    ensures Inv(Step(s, Trigger(e, woken)))
  {
    var u := Step(s, Trigger(e, woken));
    forall t | t in u.views ensures ViewInv(u, u.views[t]) {
      assert ViewInv(s, s.views[t]);
    }
    if !s.ending {
      assert forall t | t in woken :: Waiting(s.views[t]) && t !in s.ready && t != s.current;
      DistinctConcat(s.ready, woken);
      assert ReadyInv(u);
    }
  }

  lemma EventStepKeepsInv(s: Sys, a: Action)
    requires a.NewEvent? || a.FreeEvent? || a.Forget?
    requires Inv(s) && Enabled(s, a)
    ensures Inv(Step(s, a))
  {
  }

  lemma SettingStepKeepsInv(s: Sys, a: Action)
    requires a.SetResume? || a.AddCleanup?
    requires Inv(s) && Enabled(s, a)
    ensures Inv(Step(s, a))
  {
  }

  lemma ReadyStepKeepsInv(s: Sys, a: Action)
    requires a.Spawn? || a.Resume?
    requires Inv(s) && Enabled(s, a)
    ensures Inv(Step(s, a))
  {
  }

  lemma TimerStepKeepsInv(s: Sys, a: Action)
    requires a.TimerFires? || a.Drop?
    requires Inv(s) && Enabled(s, a)
    ensures Inv(Step(s, a))
  {
  }

  lemma SuspendStepKeepsInv(s: Sys, a: Action)
    requires a.WaitOne? || a.WaitMany? || a.Sleep?
    requires Inv(s) && Enabled(s, a)
    ensures Inv(Step(s, a))
  {
  }

  lemma LeaveStepKeepsInv(s: Sys, a: Action)
    requires a.Halt? || a.Exit? || a.Return? || a.Finish?
    requires Inv(s) && Enabled(s, a)
    ensures Inv(Step(s, a))
  {
  }

  lemma UnhookStepKeepsInv(s: Sys, a: Action)
    requires a.Unhook? || a.CallCleanup?
    requires Inv(s) && Enabled(s, a)
    ensures Inv(Step(s, a))
  {
  }

  lemma ReleaseStepKeepsInv(s: Sys, a: Action)
    requires a.Release?
    requires Inv(s) && Enabled(s, a)
    ensures Inv(Step(s, a))
  {
  }

  lemma TeardownStepKeepsInv(s: Sys, a: Action)
    requires a.BeginEnd? || a.CallUser? || a.Reset?
    requires Inv(s) && Enabled(s, a)
    ensures Inv(Step(s, a))
  {
    var u := Step(s, a);
    assert a.Reset? ==> u.views.Keys == {} && s.owed == {};
  }

  lemma CloseStepKeepsInv(s: Sys, a: Action)
    requires a.Close? || a.FinalResume?
    requires Inv(s) && Enabled(s, a)
    ensures Inv(Step(s, a))
  {
  }

  /** Every enabled step keeps the invariant. */
  lemma StepKeepsInv(s: Sys, a: Action)
    requires Inv(s) && Enabled(s, a)
    ensures Inv(Step(s, a))
  {
    hide Inv, Enabled, Step;
    match a
    case Trigger(e, woken) => TriggerKeepsInv(s, e, woken);
    case NewEvent(_) => EventStepKeepsInv(s, a);
    case FreeEvent(_) => EventStepKeepsInv(s, a);
    case Forget(_) => EventStepKeepsInv(s, a);
    case SetResume(_) => SettingStepKeepsInv(s, a);
    case AddCleanup(_) => SettingStepKeepsInv(s, a);
    case Spawn(_) => ReadyStepKeepsInv(s, a);
    case Resume(_) => ReadyStepKeepsInv(s, a);
    case TimerFires(_) => TimerStepKeepsInv(s, a);
    case Drop(_) => TimerStepKeepsInv(s, a);
    case WaitOne(_, _) => SuspendStepKeepsInv(s, a);
    case WaitMany(_, _, _) => SuspendStepKeepsInv(s, a);
    case Sleep => SuspendStepKeepsInv(s, a);
    case Halt => LeaveStepKeepsInv(s, a);
    case Exit => LeaveStepKeepsInv(s, a);
    case Return => LeaveStepKeepsInv(s, a);
    case Finish => LeaveStepKeepsInv(s, a);
    case Close(_) => CloseStepKeepsInv(s, a);
    case FinalResume(_) => CloseStepKeepsInv(s, a);
    case Unhook(_) => UnhookStepKeepsInv(s, a);
    case CallCleanup(_, _) => UnhookStepKeepsInv(s, a);
    case Release(_) => ReleaseStepKeepsInv(s, a);
    case _ => TeardownStepKeepsInv(s, a);
  }

  datatype Outcome = Stuck | At(s: Sys)

  /** The state after a sequence of enabled actions, Stuck if one of them is not enabled. */
  ghost function Exec(s: Sys, acts: seq<Action>): Outcome
    decreases |acts|
  {
    if acts == [] then At(s)
    else
      var n := |acts| - 1;
      match Exec(s, acts[..n])
      case Stuck => Stuck
      case At(u) => if Enabled(u, acts[n]) then At(Step(u, acts[n])) else Stuck
  }

  lemma ExecSnoc(s: Sys, acts: seq<Action>, a: Action)
    requires Exec(s, acts).At? && Enabled(Exec(s, acts).s, a)
    ensures Exec(s, acts + [a]) == At(Step(Exec(s, acts).s, a))
  {
  }

  /** The invariant holds in every state any run reaches. */
  lemma {:induction false} RunKeepsInv(s: Sys, acts: seq<Action>)
    requires Inv(s) && Exec(s, acts).At?
    ensures Inv(Exec(s, acts).s)
    decreases |acts|
  {
    if acts == [] {
    } else {
      var n := |acts| - 1;
      RunKeepsInv(s, acts[..n]);
      StepKeepsInv(Exec(s, acts[..n]).s, acts[n]);
    }
  }
}
