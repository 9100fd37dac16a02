/** Event combinations: the C object and the C++ wrapper that owns it. */
module Combinations {
  import opened Objects
  import opened WaitSpec
  import opened Kernels

  /** stimc_event_combination_s as the user builds it; slot indices are all 0 until a wait. */
  class Combination {
    var any: bool
    var events: seq<Event>

    constructor (any: bool)
      ensures this.any == any && events == []
    {
      this.any := any;
      events := [];
    }
  }

  /** stimcxx::event_combination: a pointer that is null once moved from or consumed. */
  class Wrapper {
    var combination: Combination?

    constructor (c: Combination?)
      ensures combination == c
    {
      combination := c;
    }
  }

  /** The C heap of combinations together with the wrappers the program holds. */
  class Program {
    var live: set<Combination>        // created and not freed
    ghost var wrappers: set<Wrapper>  // constructed and not destroyed

    /** Every combination alive has exactly one owner, and every owner's combination is alive. */
    ghost predicate Valid()
      reads this, wrappers
    {
      && (forall w | w in wrappers && w.combination != null :: w.combination in live)
      && (forall v, w | v in wrappers && w in wrappers && v.combination != null && v != w ::
            v.combination != w.combination)
      && (forall c | c in live :: exists w :: w in wrappers && w.combination == c)
    }

    constructor ()
      ensures Valid() && live == {} && wrappers == {}
    {
      live, wrappers := {}, {};
    }

    /** Without wrappers nothing is left to free: no combination leaks. */
    lemma NoLeak()
      requires Valid() && wrappers == {}
      ensures live == {}
    {
    }

    /** `stimc_event_combination_create` */
    method Create(any: bool) returns (c: Combination)
      modifies `live
      ensures fresh(c) && live == old(live) + {c} && c.any == any && c.events == []
    {
      c := new Combination(any);
      live := live + {c};
    }

    /** `stimc_event_combination_free`: only ever called on a combination that is still alive. */
    method Free(c: Combination)
      requires c in live
      modifies `live
      ensures live == old(live) - {c}
    {
      live := live - {c};
    }

    /** The two-event constructor, behind `e1 & e2` and `e1 | e2`. */
    method Combine(e1: Event, e2: Event, any: bool) returns (w: Wrapper)
      requires Valid()
      modifies this
      ensures Valid() && fresh(w) && wrappers == old(wrappers) + {w}
      ensures w.combination != null && fresh(w.combination) && live == old(live) + {w.combination}
      ensures w.combination.any == any && w.combination.events == [e1, e2]
    {
      var c := Create(any);
      c.events := c.events + [e1];
      c.events := c.events + [e2];
      w := new Wrapper(c);
      wrappers := wrappers + {w};
    }

    /** What a copy of src holds: the moved-from wrapper's null counts as no events. */
    ghost function Copied(src: Combination?): seq<Event>
      reads src
    {
      if src == null then [] else src.events
    }

    /** `stimc_event_combination_copy`: dst is cleared first, so copying it onto itself empties it. */
    method Copy(dst: Combination, src: Combination?)
      modifies dst
      ensures dst.events == if src == dst then [] else old(Copied(src))
      ensures dst.any == if src == null then old(dst.any) else old(src.any)
    {
      dst.events := [];
      if src == null { return; }
      dst.any := src.any;
      dst.events := src.events;
    }

    /** The copy constructor: an equal combination of its own, the operand unchanged. */
    method CopyConstruct(ec: Wrapper) returns (w: Wrapper)
      requires Valid() && ec in wrappers
      modifies this
      ensures Valid() && fresh(w) && wrappers == old(wrappers) + {w}
      ensures w.combination != null && fresh(w.combination) && live == old(live) + {w.combination}
      ensures w.combination.any == (ec.combination != null && ec.combination.any)
      ensures w.combination.events == Copied(ec.combination)
    {
      var c := Create(false);
      Copy(c, ec.combination);
      w := new Wrapper(c);
      wrappers := wrappers + {w};
    }

    /** `ec & e` or `ec | e` on an lvalue: a longer copy, the operand unchanged. */
    method ExtendCopy(ec: Wrapper, e: Event) returns (w: Wrapper)
      requires Valid() && ec in wrappers
      modifies this
      ensures Valid() && fresh(w) && wrappers == old(wrappers) + {w}
      ensures w.combination != null && fresh(w.combination) && live == old(live) + {w.combination}
      ensures w.combination.any == (ec.combination != null && ec.combination.any)
      ensures w.combination.events == Copied(ec.combination) + [e]
    {
      w := CopyConstruct(ec);
      w.combination.events := w.combination.events + [e];
    }

    /** The move constructor: the combination changes hands, the operand is left empty. */
    method MoveConstruct(ec: Wrapper) returns (w: Wrapper)
      requires Valid() && ec in wrappers
      modifies this, ec
      ensures Valid() && fresh(w) && wrappers == old(wrappers) + {w} && live == old(live)
      ensures w.combination == old(ec.combination) && ec.combination == null
    {
      w := new Wrapper(ec.combination);
      ec.combination := null;
      wrappers := wrappers + {w};
      forall c | c in live ensures exists v :: v in wrappers && v.combination == c {
        var v :| v in old(wrappers) && old(v.combination) == c;
        if v == ec { assert w.combination == c; } else { assert v.combination == c; }
      }
    }

    /** `ec & e` or `ec | e` on an rvalue: extended in place and moved out. */
    method ExtendMove(ec: Wrapper, e: Event) returns (w: Wrapper)
      requires Valid() && ec in wrappers && ec.combination != null
      modifies this, ec, ec.combination
      ensures Valid() && fresh(w) && wrappers == old(wrappers) + {w} && live == old(live)
      ensures w.combination == old(ec.combination) && ec.combination == null
      ensures w.combination.any == old(ec.combination.any)
      ensures w.combination.events == old(ec.combination.events) + [e]
    {
      ec.combination.events := ec.combination.events + [e];
      w := MoveConstruct(ec);
    }

    /** Copy assignment; the C function asserts that the target has not been moved from. The target takes
        over the operand's wait unless it is assigned to itself, which leaves it without events. */
    method CopyAssign(dst: Wrapper, src: Wrapper)
      requires Valid() && dst in wrappers && src in wrappers && dst.combination != null
      modifies dst.combination
      ensures Valid()
      ensures dst.combination.events == if dst == src then [] else old(Copied(src.combination))
      ensures dst.combination.any ==
        if src.combination == null then old(dst.combination.any) else old(src.combination.any)
    {
      Copy(dst.combination, src.combination);
    }

    /** Move assignment: the old combination of the target is freed, and the operand is left empty; a
        wrapper assigned to itself ends up empty as well, without a second free. */
    method MoveAssign(dst: Wrapper, src: Wrapper)
      requires Valid() && dst in wrappers && src in wrappers
      modifies this, dst, src
      ensures Valid() && wrappers == old(wrappers) && src.combination == null
      ensures dst != src ==> dst.combination == old(src.combination)
      ensures live == old(live) - (if old(dst.combination) == null then {} else {old(dst.combination)})
    {
      if dst.combination != null { Free(dst.combination); }
      dst.combination := src.combination;
      src.combination := null;
      forall c | c in live ensures exists v :: v in wrappers && v.combination == c {
        var v :| v in old(wrappers) && old(v.combination) == c;
        var u := if v == src then dst else v;
        assert u in wrappers && u.combination == c;
      }
    }

    /** The destructor. */
    method Destroy(w: Wrapper)
      requires Valid() && w in wrappers
      modifies this
      ensures Valid() && wrappers == old(wrappers) - {w}
      ensures live == old(live) - (if w.combination == null then {} else {w.combination})
    {
      if w.combination != null { Free(w.combination); }
      wrappers := wrappers - {w};
      forall c | c in live ensures exists v :: v in wrappers && v.combination == c {
        var v :| v in old(wrappers) && v.combination == c;
        assert v != w;
      }
    }

    /** `wait () const &`, with or without a timeout: the running thread enters exactly the wait the wrapper
        holds, and the wrapper keeps it. */
    method WaitCopy(k: Kernel, w: Wrapper, timed: bool)
      requires Valid() && w in wrappers && w.combination != null
      requires MayEnter(k, w.combination)
      modifies k, k.threads, k.events
      ensures Valid() && w.combination == old(w.combination) && live == old(live)
      ensures w.combination.events == old(w.combination.events) && w.combination.any == old(w.combination.any)
      ensures k.Valid() && k.Did(WaitMany(w.combination.events, w.combination.any, timed)) && k.current == null
    {
      hide Kernel.Valid, Kernel.Abs, Enabled, Step;
      if timed {
        k.WaitCombinationTimeout(w.combination.any, w.combination.events);
      } else {
        k.WaitCombination(w.combination.any, w.combination.events);
      }
    }

    /** What the kernel demands of a wait: a running thread that is not entered anywhere any more, and
        events that have not been freed. */
    ghost predicate MayEnter(k: Kernel, c: Combination)
      reads k, k.threads, k.events, k.cleanup, k.leaked, c
    {
      && k.Valid() && k.current != null && k.current in k.threads && (k.ending ==> k.IsFree(k.current))
      && forall e | e in c.events :: e in k.events
    }

    /** `wait () &&`: the same wait; the combination is freed on the way, and by nobody else. */
    method WaitConsume(k: Kernel, w: Wrapper, timed: bool)
      requires Valid() && w in wrappers && w.combination != null
      requires MayEnter(k, w.combination)
      modifies this, w, k, k.threads, k.events
      ensures Valid() && wrappers == old(wrappers) && w.combination == null
      ensures live == old(live) - {old(w.combination)}
      ensures k.Valid() && k.Did(WaitMany(old(w.combination.events), old(w.combination.any), timed))
      ensures k.current == null
    {
      hide Kernel.Valid, Kernel.Abs, Enabled, Step;
      var any, es := Take(w);
      if timed {
        k.WaitCombinationTimeout(any, es);
      } else {
        k.WaitCombination(any, es);
      }
    }

    /** The wrapper is emptied, and its combination freed after its contents have been taken over. */
    method Take(w: Wrapper) returns (any: bool, es: seq<Event>)
      requires Valid() && w in wrappers && w.combination != null
      modifies this, w
      ensures Valid() && wrappers == old(wrappers) && w.combination == null
      ensures live == old(live) - {old(w.combination)}
      ensures any == old(w.combination.any) && es == old(w.combination.events)
    {
      var c := w.combination;
      w.combination := null;
      any, es := c.any, c.events;
      Free(c);
      forall d | d in live ensures exists v :: v in wrappers && v.combination == d {
        var v :| v in old(wrappers) && old(v.combination) == d;
        assert v != w;
      }
    }

    /** `e0 & e1 & ... & en` (or with `|`), built from temporaries: one combination of all the events in
        order, and nothing else is left alive. */
    method Chain(es: seq<Event>, any: bool) returns (w: Wrapper)
      requires Valid() && |es| >= 2
      modifies this
      ensures Valid() && fresh(w) && w in wrappers
      ensures w.combination != null && fresh(w.combination) && live == old(live) + {w.combination}
      ensures w.combination.any == any && w.combination.events == es
      ensures forall v | v in old(wrappers) :: v in wrappers && v.combination == old(v.combination)
    {
      w := Combine(es[0], es[1], any);
      assert es[..2] == [es[0], es[1]];
      var i := 2;
      while i < |es|
        invariant 2 <= i <= |es| && Valid() && fresh(w) && w in wrappers
        invariant w.combination != null && fresh(w.combination) && live == old(live) + {w.combination}
        invariant w.combination.any == any && w.combination.events == es[..i]
        invariant forall v | v in old(wrappers) :: v in wrappers && v.combination == old(v.combination)
      {
        assert es[..i + 1] == es[..i] + [es[i]];
        w := ExtendMove(w, es[i]);
        i := i + 1;
      }
      assert es[..i] == es;
    }

    /** `(e0 & e1 & ... & en).wait ()` (or with `|`): the thread enters exactly that wait, and no
        combination is left over. */
    method WaitOnChain(k: Kernel, es: seq<Event>, any: bool, timed: bool)
      requires Valid() && |es| >= 2
      requires k.Valid() && k.current != null && k.current in k.threads && (k.ending ==> k.IsFree(k.current))
      requires forall e | e in es :: e in k.events
      modifies this, k, k.threads, k.events
      ensures Valid() && live == old(live)
      ensures k.Valid() && k.Did(WaitMany(es, any, timed)) && k.current == null
    {
      hide Kernel.Valid, Kernel.Abs, Enabled, Step;
      var w := Chain(es, any);
      WaitConsume(k, w, timed);
    }

    /** w is a wrapper of the program around exactly this wait. */
    ghost predicate Holds(w: Wrapper, any: bool, es: seq<Event>)
      reads this, w, w.combination
    {
      w in wrappers && w.combination != null && w.combination.any == any && w.combination.events == es
    }

    /** The same chain with every intermediate result kept in a variable: the last one equals what the
        temporaries give, and each earlier one still holds exactly its own part. */
    method ChainOfCopies(es: seq<Event>, any: bool) returns (ws: seq<Wrapper>)
      requires Valid() && |es| >= 2
      modifies this
      ensures Valid() && |ws| == |es| - 1
      ensures forall k | 0 <= k < |ws| :: Holds(ws[k], any, es[..k + 2])
      ensures Holds(ws[|es| - 2], any, es)
    {
      var w := Combine(es[0], es[1], any);
      ws := [w];
      assert es[..2] == [es[0], es[1]];
      var i := 2;
      while i < |es|
        invariant 2 <= i <= |es| && Valid() && |ws| == i - 1
        invariant forall k | 0 <= k < |ws| :: Holds(ws[k], any, es[..k + 2])
      {
        assert es[..i + 1] == es[..i] + [es[i]];
        w := ExtendCopy(ws[i - 2], es[i]);
        ws := ws + [w];
        i := i + 1;
      }
      assert es[..i] == es;
    }
  }
}
