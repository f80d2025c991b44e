/**
 Starvation under MLFQ.  Nothing raises a process that waits, while yield raises the one that gives up the processor, so
 two processes that yield to each other can keep a third from running.  When exactly they do is a matter of who comes
 before it in the order of MLFQ_select: by priority, then by slot.
 */
module Starvation {
  import opened Processes
  import opened ProcRuns
  import opened ProcTheorems

  /** MLFQ is in force, current runs, and p waits for the processor. */
  ghost predicate Waits(t: Table, p: nat) {
    && Shape(t) && t.algorithm == 2 && t.current >= 0 && t.procs[t.current].state.Running?
    && p < |t.procs| && t.procs[p].state.Runnable?
  }

  /** The priority with which slot i queues from now on: that of current is the one yield leaves it with. */
  function Rank(t: Table, i: nat): nat
    requires i < |t.procs|
  {
    if i == t.current then Requeue(t, t.procs[i]).priority else t.procs[i].priority
  }

  /** MLFQ_select would take i, once current has yielded, rather than p. */
  predicate Ahead(t: Table, p: nat, i: nat) {
    && i < |t.procs| && p < |t.procs| && i != p && (i == t.current || t.procs[i].state.Runnable?)
    && (Rank(t, i) < t.procs[p].priority || (Rank(t, i) == t.procs[p].priority && i < p))
  }

  ghost predicate TwoAhead(t: Table, p: nat) { exists i, j :: i != j && Ahead(t, p, i) && Ahead(t, p, j) }

  // --- one step -----------------------------------------------------------------------------------------------------

  /** With two ahead, the yield takes one of them, and the one it leaves or the other is still ahead. */
  lemma YieldKeepsTwoAhead(t: Table, n: int, p: nat)
    requires Waits(t, p) && TwoAhead(t, p) && Chosen(t, n)
    ensures 0 <= n < |t.procs| && n != p && n != t.current && Waits(YieldTo(t, n), p) && TwoAhead(YieldTo(t, n), p)
  {
    var i: nat, j: nat :| i != j && Ahead(t, p, i) && Ahead(t, p, j);
    var u := YieldTo(t, n);
    assert Ahead(u, p, n);
    var k := if n != i then i else j;
    assert Ahead(u, p, k);
  }

  /** Without, p is chosen at once or at the next yield. */
  lemma YieldComesRound(t: Table, n: int, m: int, p: nat)
    requires Waits(t, p) && !TwoAhead(t, p) && Chosen(t, n) && n != p
    requires -1 <= n < |t.procs| && Chosen(YieldTo(t, n), m)
    ensures n >= 0 && m == p
  {
    var u := YieldTo(t, n);
    assert Ahead(t, p, n);
    assert Ahead(u, p, m) || m == p;
    assert m != p ==> Ahead(t, p, m);
  }

  /** Other steps of a live current process take nobody out of the order, and put nobody before itself. */
  predicate Calm(e: Event) { !e.Tick? && !e.Exit? && !e.Kill? && !e.WaitSleep? && !e.SemSleep? }

  /** Whoever runs or is RUNNABLE goes on so, with the same priority. */
  ghost predicate OrderKept(t: Table, u: Table) {
    && |u.procs| == |t.procs| && u.current == t.current && u.algorithm == t.algorithm && u.needResched == t.needResched
    && forall i :: 0 <= i < |t.procs| && (t.procs[i].state.Runnable? || t.procs[i].state.Running?) ==>
         u.procs[i].state == t.procs[i].state && u.procs[i].priority == t.procs[i].priority
  }

  lemma OrderKeepsTwoAhead(t: Table, u: Table, p: nat)
    requires Waits(t, p) && TwoAhead(t, p) && Shape(u) && OrderKept(t, u)
    ensures Waits(u, p) && TwoAhead(u, p)
  {
    var i: nat, j: nat :| i != j && Ahead(t, p, i) && Ahead(t, p, j);
    assert Ahead(u, p, i) && Ahead(u, p, j);
  }

  lemma WakeupKeepsOrder(t: Table, chan: Ptr)
    requires Shape(t)
    ensures OrderKept(t, Wakeup(t, chan))
  {
  }

  lemma CalmStepKeepsOrder(w: World, e: Event)
    requires Inv(w) && Enabled(w, e) && Calm(e) && !e.Yield?
    ensures OrderKept(w.t, Apply(w, e).t)
  {
    hide Core, YieldTo, Chosen, Wakeup, Forest, History, NoLostWakeup, Semaphores;
    CoreParts(w);
    match e {
      case Signal(s) => WakeupKeepsOrder(w.t, ToSem(s));
      case _ =>
    }
  }

  lemma CalmStepKeepsTwoAhead(w: World, e: Event, p: nat)
    requires Inv(w) && Enabled(w, e) && Calm(e) && Waits(w.t, p) && TwoAhead(w.t, p)
    ensures Waits(Apply(w, e).t, p) && TwoAhead(Apply(w, e).t, p) && Apply(w, e).t.current != p
  {
    hide Core, YieldTo, Chosen, TwoAhead, OrderKept;
    CoreParts(w);
    if e.Yield? {
      YieldKeepsTwoAhead(w.t, e.n, p);
    } else {
      CalmStepKeepsOrder(w, e);
      StepKeepsInv(w, e);
      CoreParts(Apply(w, e));
      OrderKeepsTwoAhead(w.t, Apply(w, e).t, p);
    }
  }

  // --- runs ---------------------------------------------------------------------------------------------------------

  /** With two ahead p never runs, however long the run, until a process dies, sleeps or uses up its slice. */
  lemma {:induction false} NeverRuns(ws: seq<World>, es: seq<Event>, a: nat, b: nat, p: nat)
    requires Run(ws, es) && a <= b < |ws| && Waits(ws[a].t, p) && TwoAhead(ws[a].t, p)
    requires forall k :: a <= k < b ==> Calm(es[k])
    ensures Waits(ws[b].t, p) && TwoAhead(ws[b].t, p) && ws[b].t.current != p
    decreases b
  {
    hide TwoAhead, Enabled, Apply, Inv, Init, Calm;
    if a < b {
      NeverRuns(ws, es, a, b - 1, p);
      RunKeepsInv(ws, es, b - 1);
      CalmStepKeepsTwoAhead(ws[b - 1], es[b - 1], p);
    }
  }

  lemma NextIsChosen(t: Table, n: int)
    requires Shape(t) && Chosen(t, n)
    ensures -1 <= n < |t.procs| && (n >= 0 ==> YieldTo(t, n).current == n)
  {
  }

  /** Exactly then: in a run of two yields or more p is passed over throughout if and only if two are ahead of it. */
  lemma StarvedIff(ws: seq<World>, es: seq<Event>, a: nat, b: nat, p: nat)
    requires Run(ws, es) && a + 2 <= b < |ws| && Waits(ws[a].t, p)
    requires forall k :: a <= k < b ==> es[k].Yield?
    ensures TwoAhead(ws[a].t, p) <==> forall k :: a <= k <= b ==> ws[k].t.current != p
  {
    hide TwoAhead, Inv, Init, Chosen, YieldTo;
    if TwoAhead(ws[a].t, p) {
      forall k | a <= k <= b
        ensures ws[k].t.current != p
      {
        NeverRuns(ws, es, a, k, p);
      }
    } else if ws[a + 1].t.current != p {
      var n, m := es[a].n, es[a + 1].n;
      assert ws[a + 1].t == YieldTo(ws[a].t, n) && ws[a + 2].t == YieldTo(ws[a + 1].t, m);
      NextIsChosen(ws[a].t, n);
      YieldComesRound(ws[a].t, n, m, p);
      NextIsChosen(ws[a + 1].t, m);
    }
  }

  // --- an instance --------------------------------------------------------------------------------------------------

  /** Nobody who could be chosen is inside the kernel. */
  ghost predicate AllFree(w: World) {
    |w.pc| == |w.t.procs| && forall i :: 0 <= i < |w.pc| && (w.t.procs[i].state.Runnable? || i == w.t.current) ==>
      w.pc[i].Free?
  }

  /** init forks twice: three processes of equal priority, and the one in the last slot waits behind the other two. */
  lemma TwoForks(w: World)
    requires Init(w) && w.t.algorithm == 2 && 3 <= |w.t.procs| && |w.t.procs| + 4 < TIME_MAX
    ensures Enabled(w, Fork(1)) && var w1 := Apply(w, Fork(1));
            Enabled(w1, Fork(2)) && var w2 := Apply(w1, Fork(2));
            && Waits(w2.t, 2) && TwoAhead(w2.t, 2) && w2.t.enqClock == 3 && |w2.t.procs| == |w.t.procs|
            && AllFree(w2)
  {
    FirstUnusedSlot(w.t.procs, 1);
    var w1 := Apply(w, Fork(1));
    FirstUnusedSlot(w1.t.procs, 2);
    var w2 := Apply(w1, Fork(2));
    assert Ahead(w2.t, 2, 0) && Ahead(w2.t, 2, 1);
  }

  /** The first of the first k slots that MLFQ_select would take, if one of them is RUNNABLE. */
  lemma {:induction false} BestExists(t: Table, k: nat) returns (n: int)
    requires k <= |t.procs|
    ensures n == -1 ==> forall i :: 0 <= i < k ==> !t.procs[i].state.Runnable?
    ensures n != -1 ==> 0 <= n < k && t.procs[n].state.Runnable?
    ensures n != -1 ==> forall i :: 0 <= i < k && t.procs[i].state.Runnable? ==>
              t.procs[n].priority <= t.procs[i].priority && (i < n ==> t.procs[n].priority < t.procs[i].priority)
  {
    if k == 0 {
      n := -1;
    } else {
      n := BestExists(t, k - 1);
      var p := t.procs[k - 1];
      if p.state.Runnable? && (n == -1 || p.priority < t.procs[n].priority) { n := k - 1; }
    }
  }

  lemma Best(t: Table) returns (n: int)
    ensures MultiLevel(t, n)
  {
    n := BestExists(t, |t.procs|);
  }

  lemma WaitsIsNotCurrent(t: Table, p: nat)
    requires Waits(t, p)
    ensures t.current != p
  {
  }

  lemma YieldGoesOn(v: World, n: int, p: nat)
    requires Waits(v.t, p) && TwoAhead(v.t, p) && AllFree(v) && MultiLevel(v.t, n)
    requires v.t.enqClock + |v.t.procs| + 1 < TIME_MAX
    ensures Enabled(v, Yield(n)) && var u := Apply(v, Yield(n));
            && Waits(u.t, p) && TwoAhead(u.t, p) && AllFree(u) && u.t.enqClock == v.t.enqClock + 1
            && |u.t.procs| == |v.t.procs|
  {
    YieldKeepsTwoAhead(v.t, n, p);
  }

  /** From boot there are runs with as many yields as one likes in which the last of three processes never runs. */
  lemma {:induction false} StarvingRun(w: World, m: nat) returns (ws: seq<World>, es: seq<Event>)
    requires Init(w) && w.t.algorithm == 2 && 3 <= |w.t.procs| && |w.t.procs| + m + 4 < TIME_MAX
    ensures Run(ws, es) && ws[0] == w && |es| == m + 2 && es[0] == Fork(1) && es[1] == Fork(2)
    ensures forall k :: 2 <= k < |es| ==> es[k].Yield?
    ensures forall k :: 2 <= k < |ws| ==> Waits(ws[k].t, 2) && ws[k].t.current != 2
    ensures var v := ws[m + 2];
            TwoAhead(v.t, 2) && v.t.enqClock == m + 3 && |v.t.procs| == |w.t.procs| && AllFree(v)
  {
    hide TwoAhead, Waits, AllFree, Init, Enabled, Apply, MultiLevel;
    if m == 0 {
      TwoForks(w);
      var w1 := Apply(w, Fork(1));
      ws, es := [w, w1, Apply(w1, Fork(2))], [Fork(1), Fork(2)];
      WaitsIsNotCurrent(ws[2].t, 2);
    } else {
      ws, es := StarvingRun(w, m - 1);
      var v := ws[m + 1];
      var n := Best(v.t);
      YieldGoesOn(v, n, 2);
      RunGrows(ws, es, Yield(n));
      ws, es := ws + [Apply(v, Yield(n))], es + [Yield(n)];
      WaitsIsNotCurrent(ws[m + 2].t, 2);
    }
  }
}
