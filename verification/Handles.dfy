/** Facts about the two lists that index each other: a thread's handles and an event's slots. */
module Handles {
  import opened Objects

  ghost predicate Distinct<T>(s: seq<T>) {
    forall i, j :: 0 <= i < j < |s| ==> s[i] != s[j]
  }

  lemma DistinctConcat<T>(a: seq<T>, b: seq<T>)
    requires Distinct(a) && Distinct(b)
    requires forall x | x in b :: x !in a
    ensures Distinct(a + b)
  {
    forall i, j | 0 <= i < j < |a + b| ensures (a + b)[i] != (a + b)[j] {
      if i < |a| <= j { assert b[j - |a|] in b; }
    }
  }

  /** The events a handle list still waits for. */
  ghost function Awaited(hs: seq<Handle>): set<Event> {
    set h | h in hs :: h.event
  }

  /** Index of the first handle of event e, or |hs|. */
  function FirstMatch(hs: seq<Handle>, e: Event): (i: nat)
    ensures i <= |hs|
    ensures forall k :: 0 <= k < i ==> hs[k].event != e
    ensures i < |hs| ==> hs[i].event == e
  {
    if hs == [] then 0
    else if hs[0].event == e then 0
    else
      assert forall k :: 0 <= k < |hs| - 1 ==> hs[k + 1] == hs[1..][k];
      1 + FirstMatch(hs[1..], e)
  }

  lemma FirstMatchUnique(hs: seq<Handle>, e: Event, i: nat)
    requires i < |hs| && hs[i].event == e
    requires forall k :: 0 <= k < i ==> hs[k].event != e
    ensures FirstMatch(hs, e) == i
  {
  }

  /** First match removed, its place taken by the last handle. */
  function RemoveFirst(hs: seq<Handle>, e: Event): (r: seq<Handle>) {
    var i := FirstMatch(hs, e);
    if i == |hs| then hs else hs[i := hs[|hs| - 1]][..|hs| - 1]
  }

  lemma RemoveFirstSubset(hs: seq<Handle>, e: Event)
    ensures forall h | h in RemoveFirst(hs, e) :: h in hs
  {
  }

  /** How many handles name event e. */
  ghost function Count(hs: seq<Handle>, e: Event): nat {
    if hs == [] then 0
    else Count(hs[..|hs| - 1], e) + if hs[|hs| - 1].event == e then 1 else 0
  }

  /** How many of the slots from i on hold thread t. */
  ghost function Occurs(slots: seq<Thread?>, i: nat, t: Thread): nat
    requires i <= |slots|
    decreases |slots| - i
  {
    if i == |slots| then 0
    else Occurs(slots, i + 1, t) + if slots[i] == t then 1 else 0
  }

  lemma {:induction false} CountUpdate(hs: seq<Handle>, i: nat, x: Handle, e: Event)
    requires i < |hs|
    ensures Count(hs[i := x], e) + (if hs[i].event == e then 1 else 0)
         == Count(hs, e) + if x.event == e then 1 else 0
  {
    var n := |hs| - 1;
    if i < n {
      CountUpdate(hs[..n], i, x, e);
      assert hs[i := x][..n] == hs[..n][i := x];
    } else {
      assert hs[i := x][..n] == hs[..n];
    }
  }

  lemma {:induction false} CountZero(hs: seq<Handle>, e: Event)
    ensures Count(hs, e) == 0 <==> forall h | h in hs :: h.event != e
  {
    if hs == [] {
    } else {
      var n := |hs| - 1;
      CountZero(hs[..n], e);
      assert hs == hs[..n] + [hs[n]];
    }
  }

  lemma {:induction false} OccursZero(slots: seq<Thread?>, i: nat, t: Thread)
    requires i <= |slots|
    ensures Occurs(slots, i, t) == 0 <==> forall k :: i <= k < |slots| ==> slots[k] != t
    decreases |slots| - i
  {
    if i == |slots| {
    } else {
      OccursZero(slots, i + 1, t);
    }
  }

  lemma RemoveFirstMembers(hs: seq<Handle>, i: nat)
    requires Distinct(hs) && i < |hs|
    ensures var r := hs[i := hs[|hs| - 1]][..|hs| - 1];
      Distinct(r) && forall h :: h in r <==> h in hs && h != hs[i]
  {
    var n := |hs| - 1;
    var r := hs[i := hs[n]][..n];
    forall h | h in hs && h != hs[i] ensures h in r {
      var k :| 0 <= k <= n && hs[k] == h;
      assert r[if k == n then i else k] == h;
    }
  }

  /** What removing the first match of e does to a duplicate-free handle list. */
  lemma RemoveFirstEffect(hs: seq<Handle>, e: Event)
    requires Distinct(hs)
    ensures var i, r := FirstMatch(hs, e), RemoveFirst(hs, e);
      && Distinct(r)
      && (i == |hs| ==> r == hs && Count(hs, e) == 0)
      && (i < |hs| ==> Count(r, e) == Count(hs, e) - 1 && forall h :: h in r <==> h in hs && h != hs[i])
  {
    var i, n := FirstMatch(hs, e), |hs| - 1;
    if i == |hs| {
      CountZero(hs, e);
    } else {
      RemoveFirstMembers(hs, i);
      CountUpdate(hs, i, hs[n], e);
    }
  }

  /** The slots of e that hold t are exactly the indices of t's handles of e. */
  ghost predicate Paired(hs: seq<Handle>, slots: seq<Thread?>, e: Event, t: Thread) {
    && (forall h | h in hs && h.event == e :: h.idx < |slots| && slots[h.idx] == t)
    && (forall k :: 0 <= k < |slots| && slots[k] == t ==> Handle(e, k) in hs)
  }

  /** Number of handles of e whose index is at least i. */
  ghost function CountFrom(hs: seq<Handle>, e: Event, i: nat): nat {
    if hs == [] then 0
    else
      var last := hs[|hs| - 1];
      CountFrom(hs[..|hs| - 1], e, i) + if last.event == e && last.idx >= i then 1 else 0
  }

  lemma {:induction false} CountFromSplit(hs: seq<Handle>, e: Event, i: nat)
    requires Distinct(hs)
    ensures CountFrom(hs, e, i) == CountFrom(hs, e, i + 1) + if Handle(e, i) in hs then 1 else 0
  {
    if hs == [] {
    } else {
      var n := |hs| - 1;
      CountFromSplit(hs[..n], e, i);
      assert hs == hs[..n] + [hs[n]];
      if hs[n] == Handle(e, i) { assert hs[n] !in hs[..n]; }
    }
  }

  lemma {:induction false} CountFromEnds(hs: seq<Handle>, e: Event, n: nat)
    requires forall h | h in hs && h.event == e :: h.idx < n
    ensures CountFrom(hs, e, 0) == Count(hs, e) && CountFrom(hs, e, n) == 0
  {
    if hs == [] {
    } else {
      assert hs[|hs| - 1] in hs;
      assert forall h | h in hs[..|hs| - 1] :: h in hs;
      CountFromEnds(hs[..|hs| - 1], e, n);
    }
  }

  lemma {:induction false} PairedCountFrom(hs: seq<Handle>, slots: seq<Thread?>, e: Event, t: Thread, i: nat)
    requires Distinct(hs) && Paired(hs, slots, e, t) && i <= |slots|
    ensures CountFrom(hs, e, i) == Occurs(slots, i, t)
    decreases |slots| - i
  {
    if i == |slots| {
      CountFromEnds(hs, e, i);
    } else {
      PairedCountFrom(hs, slots, e, t, i + 1);
      CountFromSplit(hs, e, i);
    }
  }

  /** Pairing gives equal numbers on both sides. */
  lemma PairedCount(hs: seq<Handle>, slots: seq<Thread?>, e: Event, t: Thread)
    requires Distinct(hs) && Paired(hs, slots, e, t)
    ensures Count(hs, e) == Occurs(slots, 0, t)
  {
    PairedCountFrom(hs, slots, e, t, 0);
    CountFromEnds(hs, e, |slots|);
  }

  /** The non-null slots in order: what `stimc_thread_queue_enqueue_all` appends. */
  function Compact(slots: seq<Thread?>): (r: seq<Thread>) {
    if slots == [] then []
    else
      var n := |slots| - 1;
      Compact(slots[..n]) + if slots[n] == null then [] else [slots[n]]
  }

  lemma {:induction false} CompactMembers(slots: seq<Thread?>)
    ensures forall t | t in Compact(slots) :: t in slots
    ensures forall t | t in slots && t != null :: t in Compact(slots)
  {
    if slots == [] {
    } else {
      CompactMembers(slots[..|slots| - 1]);
      assert slots == slots[..|slots| - 1] + [slots[|slots| - 1]];
    }
  }

  lemma {:induction false} CompactDistinct(slots: seq<Thread?>)
    requires forall i, j :: 0 <= i < j < |slots| && slots[i] != null ==> slots[i] != slots[j]
    ensures Distinct(Compact(slots))
  {
    if slots == [] {
    } else {
      var n := |slots| - 1;
      CompactDistinct(slots[..n]);
      CompactMembers(slots[..n]);
      assert slots[n] != null ==> slots[n] !in slots[..n];
    }
  }

  /** w can be obtained from s by deleting elements. */
  ghost predicate Subsequence(w: seq<Thread>, s: seq<Thread?>)
    decreases |s|
  {
    if s == [] then w == []
    else
      || (w != [] && w[|w| - 1] == s[|s| - 1] && Subsequence(w[..|w| - 1], s[..|s| - 1]))
      || Subsequence(w, s[..|s| - 1])
  }

  lemma {:induction false} CompactIsSubsequence(now: seq<Thread?>, before: seq<Thread?>)
    requires |now| == |before|
    requires forall k :: 0 <= k < |now| ==> now[k] == null || now[k] == before[k]
    ensures Subsequence(Compact(now), before)
    decreases |now|
  {
    if now == [] {
    } else {
      var n := |now| - 1;
      CompactIsSubsequence(now[..n], before[..n]);
      var w := Compact(now);
      if now[n] == null {
        assert w == Compact(now[..n]);
      } else {
        assert w == Compact(now[..n]) + [now[n]];
        assert w[..|w| - 1] == Compact(now[..n]);
      }
    }
  }
}
