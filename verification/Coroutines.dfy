/** The bracketing of coroutine switches: `stimc_thread_impl_run` and `stimc_thread_impl_suspend` share
    one global, saved on the stack of the coroutine that issues the run. */
module Coroutines {
  import opened Handles

  type Co = nat

  class Switcher {
    var active: Co
    var main: Co?             // stimc_thread_impl_main
    var saved: map<Co, Co?>   // the local `prev` of each coroutine that is inside a run
    ghost var stack: seq<Co>  // who ran whom: each entry runs the next, the last one is active

    ghost predicate Valid()
      reads this
    {
      Represents(active, main, saved, stack)
    }

    constructor (root: Co)
      ensures Valid() && stack == [root] && main == None
    {
      active, main, saved := root, None, map[];
      stack := [root];
    }

    /** `stimc_thread_impl_run` up to the switch. */
    method Run(t: Co)
      requires Valid() && t !in stack
      modifies this
      ensures Valid() && stack == old(stack) + [t] && active == t && main == Some(old(active))
    {
      Pushed(active, main, saved, stack, t);
      saved := saved[active := main];
      main := Some(active);
      active := t;
      stack := stack + [t];
    }

    /** `stimc_thread_impl_suspend`, and the end of the run in the coroutine that is switched to. The
        suspended coroutine hands control to the one that issued the matching run. */
    method Suspend()
      requires Valid() && main.Some?
      modifies this
      ensures Valid() && stack == old(stack)[..|old(stack)| - 1] && active == old(main).value
    {
      Popped(active, main, saved, stack);
      var target := main.value;
      active := target;
      main := saved[target];
      saved := saved - {target};
      stack := stack[..|stack| - 1];
    }

    /** Any sequence of runs and suspends that never runs a coroutine already on the stack and never
        suspends the outermost one. */
    method Execute(ops: seq<Op>)
      requires Valid() && After(stack, ops).Stack?
      modifies this
      ensures Valid() && stack == After(old(stack), ops).s
    {
      var i := 0;
      while i < |ops|
        invariant i <= |ops| && Valid() && After(stack, ops[i..]) == After(old(stack), ops)
      {
        assert ops[i..][0] == ops[i] && ops[i..][1..] == ops[i + 1..];
        match ops[i] {
          case Run(t) => Run(t);
          case Suspend => Suspend();
        }
        i := i + 1;
      }
    }

    /** A run of t, whatever t runs and gets back in between, and the suspend of t: control is back with
        the coroutine that issued the run, and the global and every saved copy of it are as before. */
    method RunToSuspend(t: Co, inner: seq<Op>)
      requires Valid() && Nested(inner, 0) && Depth(inner) == 0 && After(stack, [Op.Run(t)] + inner).Stack?
      modifies this
      ensures Valid() && stack == old(stack)
      ensures active == old(active) && main == old(main) && saved == old(saved)
    {
      RunAndSuspendMatch(stack, t, inner);
      Execute([Op.Run(t)] + inner + [Op.Suspend]);
      OneStateEach(active, main, saved, old(active), old(main), old(saved), stack);
    }
  }

  /** The stack of runs determines the three variables. */
  lemma OneStateEach(a1: Co, m1: Co?, s1: map<Co, Co?>, a2: Co, m2: Co?, s2: map<Co, Co?>, stack: seq<Co>)
    requires Represents(a1, m1, s1, stack) && Represents(a2, m2, s2, stack)
    ensures a1 == a2 && m1 == m2 && s1 == s2
  {
    forall c | c in s1 ensures c in s2 && s1[c] == s2[c] {
      assert c in s1.Keys && c in Set(stack) && c != Last(stack);
      var i :| 0 <= i < |stack| && stack[i] == c;
      assert SavedRight(s1, stack, i) && SavedRight(s2, stack, i);
    }
    assert s1.Keys == s2.Keys;
  }

  datatype Co? = None | Some(value: Co)

  function Last(s: seq<Co>): Co
    requires s != []
  {
    s[|s| - 1]
  }

  /** The coroutine below position i of a stack. */
  function Prev(s: seq<Co>, i: nat): Co?
    requires i < |s|
  {
    if i == 0 then None else Some(s[i - 1])
  }

  /** The three variables are determined by the stack of runs. */
  ghost predicate Represents(active: Co, main: Co?, saved: map<Co, Co?>, stack: seq<Co>) {
    && stack != [] && Distinct(stack) && active == Last(stack) && main == Prev(stack, |stack| - 1)
    && saved.Keys == Set(stack) - {active}
    && forall i :: 0 <= i < |stack| - 1 ==> SavedRight(saved, stack, i)
  }

  ghost predicate SavedRight(saved: map<Co, Co?>, stack: seq<Co>, i: nat)
    requires i < |stack|
  {
    stack[i] in saved && saved[stack[i]] == Prev(stack, i)
  }

  lemma Pushed(active: Co, main: Co?, saved: map<Co, Co?>, s: seq<Co>, t: Co)
    requires Represents(active, main, saved, s) && t !in s
    ensures Represents(t, Some(active), saved[active := main], s + [t])
  {
    var r, m := s + [t], saved[active := main];
    assert Set(r) == Set(s) + {t};
    forall i | 0 <= i < |s| ensures SavedRight(m, r, i) {
      assert i < |s| - 1 ==> SavedRight(saved, s, i);
    }
  }

  lemma Popped(active: Co, main: Co?, saved: map<Co, Co?>, s: seq<Co>)
    requires Represents(active, main, saved, s) && main.Some?
    ensures main.value in saved
    ensures Represents(main.value, saved[main.value], saved - {main.value}, s[..|s| - 1])
  {
    var r := s[..|s| - 1];
    assert s == r + [active];
    assert Set(s) == Set(r) + {active};
    assert SavedRight(saved, s, |s| - 2) && r[|s| - 2] == main.value;
    forall i | 0 <= i < |r| - 1 ensures SavedRight(saved - {main.value}, r, i) {
      assert SavedRight(saved, s, i);
    }
  }

  function Set(s: seq<Co>): set<Co> {
    set x | x in s
  }

  // Runs and suspends in any order, as they act on the stack.

  datatype Op = Run(t: Co) | Suspend

  /** The stack after the operations; None if one of them is not allowed: a run of a coroutine that is
      on the stack, or a suspend of the outermost one. */
  datatype Result = Stuck | Stack(s: seq<Co>)

  function After(stack: seq<Co>, ops: seq<Op>): Result
    decreases |ops|
  {
    if ops == [] then Stack(stack)
    else
      match ops[0]
      case Run(t) => if t in stack then Stuck else After(stack + [t], ops[1..])
      case Suspend => if |stack| < 2 then Stuck else After(stack[..|stack| - 1], ops[1..])
  }

  /** Runs minus suspends. */
  function Depth(ops: seq<Op>): int {
    if ops == [] then 0 else (if ops[0].Run? then 1 else -1) + Depth(ops[1..])
  }

  /** No suspend of ops matches a run before ops. */
  predicate Nested(ops: seq<Op>, above: nat) {
    if ops == [] then true
    else if ops[0].Run? then Nested(ops[1..], above + 1)
    else above > 0 && Nested(ops[1..], above - 1)
  }

  /** Operations nested inside leave everything below them on the stack alone, and the depth counts
      what they leave on top of it. */
  lemma {:induction false} NestedKeepsStack(base: seq<Co>, top: seq<Co>, ops: seq<Op>)
    requires Nested(ops, |top|) && After(base + top, ops).Stack?
    ensures var r := After(base + top, ops).s;
      |r| == |base| + |top| + Depth(ops) && base <= r
    decreases |ops|
  {
    if ops == [] {
    } else {
      match ops[0]
      case Run(t) =>
        assert (base + top) + [t] == base + (top + [t]);
        NestedKeepsStack(base, top + [t], ops[1..]);
      case Suspend =>
        assert (base + top)[..|base + top| - 1] == base + top[..|top| - 1];
        NestedKeepsStack(base, top[..|top| - 1], ops[1..]);
    }
  }

  lemma {:induction false} AfterConcat(stack: seq<Co>, xs: seq<Op>, ys: seq<Op>)
    requires After(stack, xs).Stack?
    ensures After(stack, xs + ys) == After(After(stack, xs).s, ys)
    decreases |xs|
  {
    if xs == [] {
      assert xs + ys == ys;
    } else {
      assert (xs + ys)[1..] == xs[1..] + ys;
      match xs[0]
      case Run(t) => AfterConcat(stack + [t], xs[1..], ys);
      case Suspend => AfterConcat(stack[..|stack| - 1], xs[1..], ys);
    }
  }

  /** Whatever a coroutine runs and gets back in between, at any depth, its suspend returns to the one
      that issued the matching run, and the stack, hence the saved global, is as before the run. */
  lemma RunAndSuspendMatch(stack: seq<Co>, t: Co, inner: seq<Op>)
    requires stack != [] && Nested(inner, 0) && Depth(inner) == 0
    requires After(stack, [Run(t)] + inner).Stack?
    ensures After(stack, [Run(t)] + inner) == Stack(stack + [t])
    ensures After(stack, [Run(t)] + inner + [Suspend]) == Stack(stack)
  {
    assert ([Run(t)] + inner)[1..] == inner;
    assert stack + [t] == (stack + [t]) + [];
    NestedKeepsStack(stack + [t], [], inner);
    AfterConcat(stack, [Run(t)] + inner, [Suspend]);
    assert After(stack + [t], [Suspend]) == After((stack + [t])[..|stack|], []);
    assert (stack + [t])[..|stack|] == stack;
  }
}
