/**
 The scheduling policies over runs: under FCFS the RUNNABLE processes are a FIFO queue that every step of the kernel
 pops, appends to or deletes from; under round robin a waiting process is passed over fewer times than there are slots.
 */
module SchedulingRuns {
  import opened Processes
  import opened ProcRuns
  import opened ProcTheorems
  import opened Scheduling

  // --- first come, first served ----------------------------------------------------------------------------------

  ghost function Popped(q: seq<nat>): seq<nat> { if q == [] then q else q[1..] }

  /** Who sleeps on the parent of slot p when p dies: the parent, if it waits. */
  ghost function Mourners(t: Table, p: nat): seq<nat>
    requires p < |t.procs|
  {
    WokenSlots(WithState(t, p, Zombie), t.procs[p].parent, |t.procs|)
  }

  /** The queue after a step. */
  ghost function QueueAfter(w: World, e: Event, q: seq<nat>): seq<nat>
    requires Enabled(w, e)
  {
    var cur := w.t.current;
    match e
    case Yield(_) => Popped(q) + (if q != [] then [cur] else [])
    case Fork(i) => if i == -1 then q else q + [i]
    case Exit(code, _) => Popped(q + Mourners(WithCode(w.t, cur, code), cur))
    case WaitSleep(_) => Popped(q)
    case SemSleep(_) => Popped(q)
    case Signal(s) => q + WokenSlots(w.t, ToSem(s), |w.t.procs|)
    case Kill(i) => Without(q, i) + Mourners(WithCode(w.t, i, -9), i)
    case _ => q
  }

  /** A switch of a process that does not run any more. */
  lemma SwitchPops(t: Table, q: seq<nat>, n: int)
    requires Shape(t) && t.algorithm == 1 && t.enqClock <= TIME_MAX && IsQueue(t, q) && Queued(t) && Alone(t)
    requires !t.procs[t.current].state.Running? && Chosen(t, n)
    ensures -1 <= n < |t.procs| && IsQueue(YieldTo(t, n), Popped(q))
  {
    hide YieldTo;
    FirstComeTakesHead(t, q, n);
    YieldPopsAndPushes(t, q, n);
    assert q != [] ==> q[1..] + [] == q[1..];
  }

  lemma WakeupIs(t: Table, chan: Ptr)
    ensures Wakeup(t, chan) == Woken(t, chan, |t.procs|)
  {
  }

  lemma TickKeepsQueue(t: Table, q: seq<nat>)
    requires Shape(t) && IsQueue(t, q)
    ensures IsQueue(Ticked(t), q)
  {
    QueueAgrees(t, Ticked(t), q);
  }

  lemma YieldQueue(t: Table, q: seq<nat>, n: int)
    requires Shape(t) && t.algorithm == 1 && t.enqClock <= TIME_MAX && IsQueue(t, q) && Queued(t) && Alone(t)
    requires t.procs[t.current].state.Running? && Chosen(t, n)
    ensures -1 <= n < |t.procs| && IsQueue(YieldTo(t, n), Popped(q) + (if q != [] then [t.current] else []))
  {
    hide YieldTo;
    FirstComeTakesHead(t, q, n);
    YieldPopsAndPushes(t, q, n);
    assert q == [] ==> Popped(q) + [] == q;
  }

  lemma ExecKeepsQueue(w: World, q: seq<nat>)
    requires IsQueue(w.t, q) && 0 <= w.t.current < |w.t.procs|
    ensures IsQueue(w.t.(procs := w.t.procs[w.t.current := w.t.procs[w.t.current].(user := true)]), q)
  {
    QueueAgrees(w.t, w.t.(procs := w.t.procs[w.t.current := w.t.procs[w.t.current].(user := true)]), q);
  }

  lemma ReapKeepsQueue(t: Table, i: nat, q: seq<nat>)
    requires IsQueue(t, q) && i < |t.procs| && t.procs[i].state.Zombie?
    ensures IsQueue(WithState(t, i, Unused), q)
  {
    QueueAgrees(t, WithState(t, i, Unused), q);
  }

  lemma SleepQueue(t: Table, chan: Ptr, q: seq<nat>, n: int)
    requires Shape(t) && t.algorithm == 1 && t.enqClock <= TIME_MAX && IsQueue(t, q) && Queued(t) && Alone(t)
    requires Chosen(Asleep(t, chan), n)
    ensures -1 <= n < |t.procs| && IsQueue(YieldTo(Asleep(t, chan), n), Popped(q))
  {
    hide YieldTo, Chosen;
    QueueAgrees(t, Asleep(t, chan), q);
    SwitchPops(Asleep(t, chan), q, n);
  }

  lemma CodeKeepsQueue(t: Table, i: nat, code: int, q: seq<nat>)
    requires IsQueue(t, q) && i < |t.procs|
    ensures IsQueue(WithCode(t, i, code), q) && (Queued(t) ==> Queued(WithCode(t, i, code)))
  {
    QueueAgrees(t, WithCode(t, i, code), q);
  }

  lemma KillQueue(t: Table, i: nat, q: seq<nat>)
    requires IsQueue(t, q) && Queued(t) && i < |t.procs|
    ensures IsQueue(Die(WithCode(t, i, -9), i), Without(q, i) + Mourners(WithCode(t, i, -9), i))
  {
    hide IsQueue, Die, Without, WokenSlots;
    CodeKeepsQueue(t, i, -9, q);
    DeathDeletes(WithCode(t, i, -9), q, i);
  }

  lemma AloneAfterDeath(t: Table, d: Table)
    requires Alone(t) && |d.procs| == |t.procs| && d.current == t.current
    requires forall i :: 0 <= i < |t.procs| ==> DeathAt(t, d, t.current, i)
    ensures Alone(d) && !d.procs[d.current].state.Running?
  {
    assert DeathAt(t, d, t.current, t.current);
    forall i | 0 <= i < |d.procs| && i != d.current
      ensures !d.procs[i].state.Running?
    {
      assert DeathAt(t, d, t.current, i);
    }
  }

  lemma {:induction false} NothingWithout(q: seq<nat>, p: nat)
    requires p !in q
    ensures Without(q, p) == q
  {
    if q != [] { NothingWithout(q[1..], p); }
  }

  lemma WithoutAbsent(t: Table, q: seq<nat>, p: nat)
    requires IsQueue(t, q) && p < |t.procs| && !t.procs[p].state.Runnable?
    ensures Without(q, p) == q
  {
    NothingWithout(q, p);
  }

  lemma ExitQueue(w: World, code: int, n: int, q: seq<nat>)
    requires Inv(w) && Enabled(w, Exit(code, n)) && w.t.algorithm == 1 && IsQueue(w.t, q)
    ensures IsQueue(Apply(w, Exit(code, n)).t, QueueAfter(w, Exit(code, n), q))
  {
    hide Core, YieldTo, Die, Chosen, IsQueue, Without, WokenSlots;
    CoreParts(w);
    FreeRuns(w);
    var cur := w.t.current;
    var c := WithCode(w.t, cur, code);
    CodeKeepsQueue(w.t, cur, code, q);
    DeathDeletes(c, q, cur);
    assert Without(q, cur) == q by { WithoutAbsent(w.t, q, cur); }
    DieFacts(c, cur);
    var d := Die(c, cur);
    AloneAfterDeath(c, d);
    SwitchPops(d, q + Mourners(c, cur), n);
  }

  lemma QueueStep(w: World, e: Event, q: seq<nat>)
    requires Inv(w) && Enabled(w, e) && w.t.algorithm == 1 && IsQueue(w.t, q)
    ensures IsQueue(Apply(w, e).t, QueueAfter(w, e, q))
  {
    hide Core, YieldTo, Die, Chosen, Wakeup, Ticked, Forked, IsQueue, WokenSlots, Without;
    CoreParts(w);
    var cur := w.t.current;
    match e {
      case Tick => TickKeepsQueue(w.t, q);
      case Yield(n) => FreeRuns(w); YieldQueue(w.t, q, n);
      case Fork(i) => if i != -1 { ForkAppends(w.t, q, i); }
      case ExecDone => ExecKeepsQueue(w, q);
      case Exit(code, n) => ExitQueue(w, code, n, q);
      case WaitReap(i) => ReapKeepsQueue(w.t, i, q);
      case WaitSleep(n) => SleepQueue(w.t, ToProc(cur), q, n);
      case SemSleep(n) => SleepQueue(w.t, ToSem(w.pc[cur].s), q, n);
      case Signal(s) => WokenAppend(w.t, q, ToSem(s), |w.t.procs|); assert Wakeup(w.t, ToSem(s)) ==
           Woken(w.t, ToSem(s), |w.t.procs|) by { WakeupIs(w.t, ToSem(s)); }
      case Kill(i) => KillQueue(w.t, i, q);
      case _ =>
    }
  }

  /** The steps from a to b, on the queue. */
  ghost function QueueAfterAll(ws: seq<World>, es: seq<Event>, a: nat, b: nat, q: seq<nat>): seq<nat>
    requires Run(ws, es) && a <= b < |ws|
    decreases b
  {
    if a == b then q else QueueAfter(ws[b - 1], es[b - 1], QueueAfterAll(ws, es, a, b - 1, q))
  }

  lemma DieKeepsAlgorithm(t: Table, p: nat)
    requires p < |t.procs|
    ensures Die(t, p).algorithm == t.algorithm
  {
  }

  lemma StepKeepsAlgorithm(w: World, e: Event)
    requires Inv(w) && Enabled(w, e)
    ensures Apply(w, e).t.algorithm == w.t.algorithm
  {
    hide Core, Chosen, Die;
    if e.Exit? { DieKeepsAlgorithm(WithCode(w.t, w.t.current, e.code), w.t.current); }
    if e.Kill? { DieKeepsAlgorithm(WithCode(w.t, e.i, -9), e.i); }
  }

  lemma {:induction false} AlgorithmStays(ws: seq<World>, es: seq<Event>, k: nat)
    requires Run(ws, es) && k < |ws|
    ensures ws[k].t.algorithm == ws[0].t.algorithm
    decreases k
  {
    hide Init, Enabled, Apply;
    if k > 0 {
      AlgorithmStays(ws, es, k - 1);
      RunKeepsInv(ws, es, k - 1);
      StepKeepsAlgorithm(ws[k - 1], es[k - 1]);
    }
  }

  /** FCFS refines a FIFO queue over runs. */
  lemma {:induction false} FifoInRuns(ws: seq<World>, es: seq<Event>, a: nat, b: nat, q: seq<nat>)
    requires Run(ws, es) && a <= b < |ws| && ws[0].t.algorithm == 1 && IsQueue(ws[a].t, q)
    ensures IsQueue(ws[b].t, QueueAfterAll(ws, es, a, b, q))
    decreases b
  {
    hide Init, Inv, Enabled, Apply, IsQueue, QueueAfter;
    if a < b {
      FifoInRuns(ws, es, a, b - 1, q);
      RunKeepsInv(ws, es, b - 1);
      AlgorithmStays(ws, es, b - 1);
      QueueStep(ws[b - 1], es[b - 1], QueueAfterAll(ws, es, a, b - 1, q));
    }
  }

  // --- round robin ---------------------------------------------------------------------------------------------------

  /** The step switches to a process that RR_select chose. */
  predicate Switches(e: Event) { (e.Yield? || e.Exit? || e.WaitSleep? || e.SemSleep?) && e.n >= 0 }

  function SwitchCount(es: seq<Event>, a: nat, b: nat): nat
    requires a <= b <= |es|
    decreases b
  {
    if a == b then 0 else SwitchCount(es, a, b - 1) + (if Switches(es[b - 1]) then 1 else 0)
  }

  lemma ChosenNotWaiting(t: Table, n: int, p: nat)
    requires Shape(t) && t.algorithm == 0 && t.current >= 0 && p < |t.procs| && p != t.current
             && t.procs[p].state.Runnable? && Chosen(t, n)
    requires -1 <= n < |t.procs| ==> YieldTo(t, n).procs[p].state.Runnable?
    ensures 0 <= n < |t.procs| && n != p
  {
  }

  lemma SameDistance(t: Table, t': Table, p: nat)
    requires Shape(t) && Shape(t') && |t.procs| == |t'.procs| && t.nextPid == t'.nextPid && p < |t.procs|
    ensures Distance(t', p) == Distance(t, p)
  {
  }

  lemma SwitchNearer(t: Table, n: int, p: nat)
    requires Shape(t) && t.algorithm == 0 && t.current >= 0 && p < |t.procs| && p != t.current
             && t.procs[p].state.Runnable? && Chosen(t, n)
    requires -1 <= n < |t.procs| ==> YieldTo(t, n).procs[p].state.Runnable?
    ensures 0 <= n < |t.procs| && Distance(YieldTo(t, n), p) + 1 <= Distance(t, p)
  {
    ChosenNotWaiting(t, n, p);
    SelectionComesNearer(t, n, p);
    SameDistance(AfterSelect(t, n), YieldTo(t, n), p);
  }

  lemma ExitNearer(w: World, code: int, n: int, p: nat)
    requires Inv(w) && Enabled(w, Exit(code, n)) && w.t.algorithm == 0 && p < |w.t.procs|
             && w.t.procs[p].state.Runnable?
    requires var t' := Apply(w, Exit(code, n)).t; |t'.procs| == |w.t.procs| && Shape(t') && t'.procs[p].state.Runnable?
    ensures n >= 0 && Distance(Apply(w, Exit(code, n)).t, p) + 1 <= Distance(w.t, p)
  {
    hide Core, YieldTo, Die, Chosen;
    CoreParts(w);
    FreeRuns(w);
    var cur := w.t.current;
    var c := WithCode(w.t, cur, code);
    DieFacts(c, cur);
    var d := Die(c, cur);
    assert DeathAt(c, d, cur, p) && DeathAt(c, d, cur, cur);
    SwitchNearer(d, n, p);
  }

  /** A step that leaves p waiting brings it nearer by one for a switch, and never farther. */
  lemma BypassStep(w: World, e: Event, p: nat)
    requires Inv(w) && Enabled(w, e) && w.t.algorithm == 0 && p < |w.t.procs| && w.t.procs[p].state.Runnable?
    requires |Apply(w, e).t.procs| == |w.t.procs| && Shape(Apply(w, e).t) && Apply(w, e).t.procs[p].state.Runnable?
    ensures Distance(Apply(w, e).t, p) + (if Switches(e) then 1 else 0) <= Distance(w.t, p)
  {
    hide Core, YieldTo, Die, Chosen;
    CoreParts(w);
    var cur := w.t.current;
    match e {
      case Yield(n) => SwitchNearer(w.t, n, p);
      case Exit(code, n) => ExitNearer(w, code, n, p);
      case WaitSleep(n) => SwitchNearer(Asleep(w.t, ToProc(cur)), n, p);
      case SemSleep(n) => SwitchNearer(Asleep(w.t, ToSem(w.pc[cur].s)), n, p);
      case _ => NextPidMovesOnlyInYield(w, e); SameDistance(w.t, Apply(w, e).t, p);
    }
  }

  /**
   Bounded bypass over runs: while p stays RUNNABLE, other processes are switched to fewer times than there are
   slots.  A run that makes as many switches as there are slots has switched to p in between.
   */
  lemma {:induction false} BypassBounded(ws: seq<World>, es: seq<Event>, a: nat, b: nat, p: nat)
    requires Run(ws, es) && a <= b < |ws| && ws[0].t.algorithm == 0
    requires forall k :: a <= k <= b ==> p < |ws[k].t.procs| && ws[k].t.procs[p].state.Runnable?
    ensures Shape(ws[a].t) && Shape(ws[b].t) && |ws[b].t.procs| == |ws[a].t.procs|
    ensures SwitchCount(es, a, b) + Distance(ws[b].t, p) <= Distance(ws[a].t, p) < |ws[a].t.procs|
    decreases b
  {
    hide Init, Core, Enabled, Apply, Distance;
    RunKeepsInv(ws, es, a);
    RunKeepsInv(ws, es, b);
    CoreParts(ws[a]);
    CoreParts(ws[b]);
    if a < b {
      BypassBounded(ws, es, a, b - 1, p);
      RunKeepsInv(ws, es, b - 1);
      AlgorithmStays(ws, es, b - 1);
      StepShape(ws[b - 1], es[b - 1]);
      BypassStep(ws[b - 1], es[b - 1], p);
    }
  }
}
