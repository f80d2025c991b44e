/**
 Time slices and priorities over runs: how many timer ticks of its own a process gets before it is to be replaced, and
 how MLFQ moves it between its three levels.
 */
module Slices {
  import opened Processes
  import opened ProcRuns
  import opened ProcTheorems

  /** From step a to step b there are only timer ticks. */
  ghost predicate Ticks(ws: seq<World>, es: seq<Event>, a: nat, b: nat) {
    Run(ws, es) && a <= b < |ws| && forall k :: a <= k < b ==> es[k].Tick?
  }

  /** The table with other slice and priority for the current process. */
  function Charged(t: Table, slice: nat, priority: nat, resched: bool): Table
    requires 0 <= t.current < |t.procs|
  {
    t.(procs := t.procs[t.current := t.procs[t.current].(slice := slice, priority := priority)], needResched := resched)
  }

  lemma OneTick(t: Table)
    requires Shape(t) && t.current >= 0
    ensures var p := t.procs[t.current];
            && (p.slice == 0 ==> Ticked(t) == t)
            && (p.slice > 1 ==> Ticked(t) == Charged(t, p.slice - 1, p.priority, t.needResched))
            && (p.slice == 1 && t.algorithm != 2 ==> Ticked(t) == Charged(t, 0, p.priority, true))
            && (p.slice == 1 && t.algorithm == 2 && p.priority == 0 ==> Ticked(t) == Charged(t, 2, 1, true))
            && (p.slice == 1 && t.algorithm == 2 && p.priority > 0 ==> Ticked(t) == Charged(t, 4, 2, true))
  {
    assert OneShifted(0) == 1 && OneShifted(1) == 2 && OneShifted(2) == 4;
  }

  lemma TickInRun(ws: seq<World>, es: seq<Event>, k: nat)
    requires Run(ws, es) && k < |es| && es[k].Tick?
    ensures Shape(ws[k].t) && ws[k].t.current >= 0 && ws[k + 1].t == Ticked(ws[k].t)
  {
    hide Init;
    assert Enabled(ws[k], es[k]);
  }

  lemma RunShape(ws: seq<World>, es: seq<Event>, k: nat)
    requires Run(ws, es) && k < |ws|
    ensures Shape(ws[k].t) && 0 <= ws[k].t.current < |ws[k].t.procs|
  {
    RunKeepsInv(ws, es, k);
    hide Init, Forest, Queued, History, NoLostWakeup, Semaphores;
  }

  /** Fewer ticks than the slice has left change the slice and nothing else. */
  lemma {:induction false} TicksUseUpSlice(ws: seq<World>, es: seq<Event>, a: nat, b: nat)
    requires Ticks(ws, es, a, b)
    ensures Shape(ws[a].t) && 0 <= ws[a].t.current < |ws[a].t.procs|
    ensures var t := ws[a].t;
            var p := t.procs[t.current];
            b - a < p.slice ==> ws[b].t == Charged(t, p.slice - (b - a), p.priority, t.needResched)
    decreases b
  {
    hide Ticked, Init, Enabled, Apply;
    RunShape(ws, es, a);
    if a < b {
      TicksUseUpSlice(ws, es, a, b - 1);
      TickInRun(ws, es, b - 1);
      OneTick(ws[b - 1].t);
    } else {
      var t := ws[a].t;
      assert t.procs[t.current := t.procs[t.current]] == t.procs;
    }
  }

  /**
   The tick that uses up the slice asks for another process.  Under MLFQ it also moves the process one level down, to 2
   at most, with a slice of 2 ticks there or 4; under the other policies the priority stays.
   */
  lemma SliceEnds(ws: seq<World>, es: seq<Event>, a: nat, b: nat)
    requires Ticks(ws, es, a, b)
    ensures Shape(ws[a].t) && 0 <= ws[a].t.current < |ws[a].t.procs|
    ensures var t := ws[a].t;
            var p := t.procs[t.current];
            p.slice > 0 && b - a == p.slice ==>
              ws[b].t == if t.algorithm != 2 then Charged(t, 0, p.priority, true)
                         else if p.priority == 0 then Charged(t, 2, 1, true)
                         else Charged(t, 4, 2, true)
  {
    hide Ticked, Init, Enabled, Apply;
    RunShape(ws, es, a);
    var t := ws[a].t;
    if t.procs[t.current].slice > 0 && b - a == t.procs[t.current].slice {
      TicksUseUpSlice(ws, es, a, b - 1);
      TickInRun(ws, es, b - 1);
      OneTick(ws[b - 1].t);
    }
  }

  /**
   A fresh process under MLFQ, priority 0 and one tick to go: after one tick of its own it is on level 1, after three on
   level 2, and there it stays, a new slice beginning every four ticks.
   */
  lemma {:induction false} FreshProcessSinks(ws: seq<World>, es: seq<Event>, a: nat, b: nat)
    requires Ticks(ws, es, a, b) && ws[a].t.algorithm == 2
    requires 0 <= ws[a].t.current < |ws[a].t.procs|
    requires ws[a].t.procs[ws[a].t.current].priority == 0 && ws[a].t.procs[ws[a].t.current].slice == 1
    ensures var n := b - a;
            ws[b].t == Charged(ws[a].t, if n == 0 then 1 else if n == 1 then 2 else if n == 2 then 1
                else 4 - (n - 3) % 4,
                               if n == 0 then 0 else if n <= 2 then 1 else 2, n > 0 || ws[a].t.needResched)
    decreases b
  {
    hide Ticked, Init, Enabled, Apply;
    var t := ws[a].t;
    if a < b {
      FreshProcessSinks(ws, es, a, b - 1);
      TickInRun(ws, es, b - 1);
      OneTick(ws[b - 1].t);
    } else {
      assert t.procs[t.current := t.procs[t.current]] == t.procs;
    }
  }

  // --- switches -----------------------------------------------------------------------------------------------------

  lemma SwitchIsToAnother(w: World, n: nat)
    requires Inv(w) && Enabled(w, Yield(n))
    ensures n < |w.t.procs| && n != w.t.current && w.t.procs[n].state.Runnable? && Shape(w.t)
  {
    hide Forest, History, NoLostWakeup, Semaphores;
    SchedulerIsTotal(w.t, n);
  }

  /**
   What a switch does to slices and priorities.  Under MLFQ a process that gives up the processor before any slice ended
   goes one level up, with one tick to go, and one that is switched to keeps what it has left.  Under the other policies
   a process that is switched to has ten ticks.
   */
  lemma SwitchCharges(w: World, n: nat, i: nat)
    requires Inv(w) && Enabled(w, Yield(n)) && i < |w.t.procs| && w.t.procs[w.t.current].state.Running?
    ensures var t, u := w.t, Apply(w, Yield(n)).t;
            && n < |t.procs| && n != t.current && u.current == n && |u.procs| == |t.procs|
            && u.needResched == t.needResched
            && (i != n && i != t.current ==> u.procs[i] == t.procs[i])
            && (i == n && t.algorithm != 2 ==> u.procs[i] == t.procs[i].(state := Running, slice := 10))
            && (i == n && t.algorithm == 2 ==> u.procs[i] == t.procs[i].(state := Running))
            && (i == t.current && (t.algorithm != 2 || t.needResched) ==>
                  u.procs[i] == t.procs[i].(state := Runnable, enqTime := t.enqClock))
            && (i == t.current && t.algorithm == 2 && !t.needResched ==>
                  u.procs[i] == t.procs[i].(state := Runnable, enqTime := t.enqClock, slice := 1,
                                            priority := if t.procs[i].priority == 2 then 1 else 0))
  {
    SwitchIsToAnother(w, n);
    hide Core, Chosen;
  }

  lemma SwitchInRun(ws: seq<World>, es: seq<Event>, a: nat)
    requires Run(ws, es) && a < |es|
    ensures Enabled(ws[a], es[a]) && ws[a + 1] == Apply(ws[a], es[a])
  {
  }

  lemma AlgorithmKept(ws: seq<World>, es: seq<Event>, a: nat)
    requires Run(ws, es) && a < |es| && es[a].Yield?
    ensures ws[a + 1].t.algorithm == ws[a].t.algorithm
  {
    hide Init, Chosen;
  }

  lemma {:induction false} TicksKeepCurrent(ws: seq<World>, es: seq<Event>, a: nat, b: nat)
    requires Ticks(ws, es, a, b)
    ensures ws[b].t.current == ws[a].t.current && |ws[b].t.procs| == |ws[a].t.procs|
    decreases b
  {
    hide Init, Enabled, Apply;
    if a < b {
      TicksKeepCurrent(ws, es, a, b - 1);
      TickInRun(ws, es, b - 1);
    }
  }

  /** Under round robin and FCFS a process that was switched to is to be replaced at its tenth tick, not before. */
  lemma TenTicks(ws: seq<World>, es: seq<Event>, a: nat, b: nat)
    requires a + 1 <= b && Ticks(ws, es, a + 1, b) && es[a].Yield? && es[a].n >= 0 && ws[a].t.algorithm != 2
    ensures Shape(ws[b].t) && ws[b].t.current == es[a].n < |ws[a].t.procs| == |ws[b].t.procs|
    ensures b - (a + 1) <= 10 ==> (ws[b].t.needResched <==> ws[a].t.needResched || b - (a + 1) == 10)
    ensures b - (a + 1) <= 10 ==> ws[b].t.procs[es[a].n].priority == ws[a].t.procs[es[a].n].priority
  {
    hide Ticked, Init, Enabled, Apply, Inv;
    RunKeepsInv(ws, es, a);
    SwitchInRun(ws, es, a);
    SwitchIsToAnother(ws[a], es[a].n);
    FreeRunsInRun(ws[a], es[a].n);
    SwitchCharges(ws[a], es[a].n, es[a].n);
    RunShape(ws, es, b);
    RunShape(ws, es, a);
    AlgorithmKept(ws, es, a);
    if b - (a + 1) < 10 {
      TicksUseUpSlice(ws, es, a + 1, b);
    } else if b - (a + 1) == 10 {
      SliceEnds(ws, es, a + 1, b);
    } else {
      TicksKeepCurrent(ws, es, a + 1, b);
    }
  }

  // --- births -------------------------------------------------------------------------------------------------------

  /** A forked child is on level 0 with one tick to go, whatever its parent used up, and has no exit code yet. */
  lemma ChildIsFresh(w: World, i: nat)
    requires Inv(w) && Enabled(w, Fork(i))
    ensures var u := Apply(w, Fork(i)).t;
            && i < |u.procs| == |w.t.procs| && w.t.procs[i].state.Unused? && i != w.t.current
            && u == w.t.(procs := w.t.procs[i := u.procs[i]], nextCtime := w.t.nextCtime + 1, enqClock :=
               w.t.enqClock + 1)
            && u.procs[i] == Proc(i, Runnable, w.t.nextCtime, w.t.enqClock, 1, 0, ToProc(w.t.current), 0, Null,
                                  w.t.procs[w.t.current].user)
  {
    CoreParts(w);
    FreeRuns(w);
    hide Core, Chosen;
  }

  lemma FreeRunsInRun(w: World, n: int)
    requires Inv(w) && Enabled(w, Yield(n))
    ensures 0 <= w.t.current < |w.t.procs| && w.t.procs[w.t.current].state.Running?
  {
    CoreParts(w);
    FreeRuns(w);
    hide Core, Chosen;
  }

  /** Fork, switch to the child, three ticks: it has sunk from level 0 to level 2 of MLFQ, and after two it had not. */
  lemma ChildSinks(ws: seq<World>, es: seq<Event>, a: nat, i: nat)
    requires Run(ws, es) && a + 5 <= |es| && ws[a].t.algorithm == 2
    requires es[a] == Fork(i) && es[a + 1] == Yield(i) && es[a + 2].Tick? && es[a + 3].Tick? && es[a + 4].Tick?
    requires ws[a].t.current >= 0 && ws[a + 1].t.current >= 0
    ensures forall k :: a + 1 <= k <= a + 5 ==> i < |ws[k].t.procs|
    ensures ws[a + 2].t.procs[i].priority == 0 && ws[a + 3].t.procs[i].priority == 1
    ensures ws[a + 4].t.procs[i].priority == 1 && ws[a + 5].t.procs[i].priority == 2
  {
    hide Ticked, Init, Enabled, Apply, Inv;
    SwitchInRun(ws, es, a);
    SwitchInRun(ws, es, a + 1);
    RunKeepsInv(ws, es, a);
    RunKeepsInv(ws, es, a + 1);
    ChildIsFresh(ws[a], i);
    FreeRunsInRun(ws[a + 1], i);
    SwitchCharges(ws[a + 1], i, i);
    AlgorithmKept(ws, es, a + 1);
    FreshProcessSinks(ws, es, a + 2, a + 2);
    FreshProcessSinks(ws, es, a + 2, a + 3);
    FreshProcessSinks(ws, es, a + 2, a + 4);
    FreshProcessSinks(ws, es, a + 2, a + 5);
  }
}
