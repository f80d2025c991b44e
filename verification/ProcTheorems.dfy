/**
 What the invariant of the process table gives over whole runs: no lost wakeup, no deadlock of waiters, and the life
 cycle of an incarnation.
 */
module ProcTheorems {
  import opened Processes
  import opened ProcRuns

  /** A run from boot: each state is the previous one after an enabled step. */
  ghost predicate Run(ws: seq<World>, es: seq<Event>) {
    && |ws| == |es| + 1 && Init(ws[0])
    && forall k :: 0 <= k < |es| ==> Enabled(ws[k], es[k]) && ws[k + 1] == Apply(ws[k], es[k])
  }

  lemma RunGrows(ws: seq<World>, es: seq<Event>, e: Event)
    requires Run(ws, es) && Enabled(ws[|es|], e)
    ensures Run(ws + [Apply(ws[|es|], e)], es + [e])
  {
    hide Enabled, Apply, Init;
  }

  lemma FirstUnusedSlot(procs: seq<Proc>, i: nat)
    requires i < |procs| && procs[i].state.Unused? && forall j :: 0 <= j < i ==> !procs[j].state.Unused?
    ensures FreeSlot(procs) == i
  {
  }

  lemma {:induction false} RunKeepsInv(ws: seq<World>, es: seq<Event>, k: nat)
    requires Run(ws, es) && k < |ws|
    ensures Inv(ws[k])
    decreases k
  {
    hide Init, Inv, Enabled, Apply;
    if k == 0 {
      InitHolds(ws[0]);
    } else {
      RunKeepsInv(ws, es, k - 1);
      StepKeepsInv(ws[k - 1], es[k - 1]);
    }
  }

  /** No lost wakeup: whoever sleeps in a reachable state sleeps over something that has not happened. */
  lemma SleepersMissNothing(ws: seq<World>, es: seq<Event>, k: nat, i: nat)
    requires Run(ws, es) && k < |ws| && i < |ws[k].t.procs| && ws[k].t.procs[i].state.Blocked?
    ensures i < |ws[k].pc| && (ws[k].pc[i].InWait? || ws[k].pc[i].InSem?)
    ensures ws[k].pc[i].InWait? ==> NoZombieChild(ws[k].t, i, ws[k].pc[i].q)
    ensures ws[k].pc[i].InSem? ==> ws[k].pc[i].s < |ws[k].sems| && ws[k].sems[ws[k].pc[i].s].count <= 0
  {
    hide Run;
    RunKeepsInv(ws, es, k);
    assert SleeperOk(ws[k], i) && NotOverslept(ws[k], i);
  }

  /**
   In every reachable state a semaphore's count is its first value, plus the signals, minus the waits that got through.
   */
  lemma CountsAddUp(ws: seq<World>, es: seq<Event>, k: nat, s: nat)
    requires Run(ws, es) && k < |ws| && s < |ws[k].sems|
    ensures var m := ws[k].sems[s];
            m.count == m.init + m.signals - m.waits && (m.init >= 0 ==> m.count >= 0)
  {
    hide Run;
    RunKeepsInv(ws, es, k);
    assert Counted(ws[k].sems[s]);
  }

  /** In every reachable state at most current runs; it fails to run only when nothing is RUNNABLE. */
  lemma OnlyCurrentRuns(ws: seq<World>, es: seq<Event>, k: nat, i: nat)
    requires Run(ws, es) && k < |ws| && i < |ws[k].t.procs|
    ensures ws[k].t.procs[i].state.Running? ==> i == ws[k].t.current
    ensures 0 <= ws[k].t.current < |ws[k].t.procs|
    ensures ws[k].t.procs[i].state.Runnable? ==> ws[k].t.procs[ws[k].t.current].state.Running?
  {
    hide Run, Core;
    RunKeepsInv(ws, es, k);
  }

  // --- what one step does to one slot ------------------------------------------------------------------------------

  /** The ties of a used slot across a step that does not reap it. */
  ghost predicate KinKept(t: Table, t': Table, j: nat)
    requires j < |t.procs| && |t'.procs| == |t.procs|
  {
    var a, b := t.procs[j], t'.procs[j];
    && !b.state.Unused? && b.pid == a.pid && b.ctime == a.ctime
    && (a.state.Zombie? ==> b.state.Zombie?)
    && (b.parent == a.parent
        || (b.parent.Null? && a.parent.ToProc? && a.parent.slot < |t'.procs| && !Live(t'.procs[a.parent.slot])))
  }

  lemma YieldKin(t: Table, n: int, j: nat)
    requires Shape(t) && -1 <= n < |t.procs| && j < |t.procs| && !t.procs[j].state.Unused?
    requires n >= 0 ==> t.procs[n].state.Runnable?
    ensures KinKept(t, YieldTo(t, n), j) && YieldTo(t, n).procs[j].exitCode == t.procs[j].exitCode
    ensures t.procs[j].state.Blocked? <==> YieldTo(t, n).procs[j].state.Blocked?
  {
  }

  lemma DieKin(t: Table, p: nat, j: nat)
    requires Queued(t) && p < |t.procs| && j < |t.procs| && !t.procs[j].state.Unused?
    ensures KinKept(t, Die(t, p), j) && Die(t, p).procs[j].exitCode == t.procs[j].exitCode
    ensures Die(t, p).procs[j].state.Blocked? ==> t.procs[j].state.Blocked?
  {
    DieFacts(t, p);
    assert DeathAt(t, Die(t, p), p, j);
    assert DeathAt(t, Die(t, p), p, p);
  }

  lemma TickKin(t: Table, j: nat)
    requires Shape(t) && j < |t.procs| && !t.procs[j].state.Unused?
    ensures Ticked(t).current == t.current && KinKept(t, Ticked(t), j)
            && Ticked(t).procs[j].exitCode == t.procs[j].exitCode
  {
  }

  lemma WakeKin(t: Table, chan: Ptr, j: nat)
    requires j < |t.procs| && !t.procs[j].state.Unused?
    ensures |Wakeup(t, chan).procs| == |t.procs| && Wakeup(t, chan).current == t.current
    ensures KinKept(t, Wakeup(t, chan), j) && Wakeup(t, chan).procs[j].exitCode == t.procs[j].exitCode
  {
  }

  lemma ForkKin(t: Table, i: int, j: nat)
    requires Shape(t) && t.current >= 0 && i == FreeSlot(t.procs) && j < |t.procs| && !t.procs[j].state.Unused?
    ensures i >= 0 ==> Forked(t, i).current == t.current && KinKept(t, Forked(t, i), j)
    ensures i >= 0 ==> Forked(t, i).procs[j].exitCode == t.procs[j].exitCode
  {
  }

  lemma ExitKin(w: World, code: int, n: int, j: nat)
    requires Inv(w) && Enabled(w, Exit(code, n)) && j < |w.t.procs| && !w.t.procs[j].state.Unused?
    ensures |Apply(w, Exit(code, n)).t.procs| == |w.t.procs| && KinKept(w.t, Apply(w, Exit(code, n)).t, j)
    ensures w.t.procs[j].state.Zombie? ==> Apply(w, Exit(code, n)).t.procs[j].exitCode == w.t.procs[j].exitCode
  {
    hide Core, YieldTo, Die, Chosen;
    CoreParts(w);
    FreeRuns(w);
    var cur := w.t.current;
    var c := WithCode(w.t, cur, code);
    DieKin(c, cur, j);
    DieFacts(c, cur);
    var d := Die(c, cur);
    assert DeathAt(c, d, cur, cur) && DeathAt(c, d, cur, j);
    ChosenIsRunnable(d, n);
    YieldKin(d, n, j);
    YieldKin(d, n, cur);
  }

  lemma SleepKin(w: World, chan: Ptr, n: int, j: nat)
    requires Shape(w.t) && w.t.current >= 0 && Live(w.t.procs[w.t.current]) && j < |w.t.procs|
             && !w.t.procs[j].state.Unused?
    requires Chosen(Asleep(w.t, chan), n)
    ensures -1 <= n < |w.t.procs|
    ensures KinKept(w.t, YieldTo(Asleep(w.t, chan), n), j)
    ensures YieldTo(Asleep(w.t, chan), n).procs[j].exitCode == w.t.procs[j].exitCode
  {
    hide YieldTo, Chosen;
    var d := Asleep(w.t, chan);
    ChosenIsRunnable(d, n);
    YieldKin(d, n, j);
  }

  lemma LiveSleeper(w: World)
    requires Sleepers(w) && 0 <= w.t.current < |w.t.procs| && !w.pc[w.t.current].Dead?
    ensures Live(w.t.procs[w.t.current])
  {
    assert SleeperOk(w, w.t.current);
  }

  /**
   Every used slot keeps its incarnation, its pid and its parent over a step, unless the step reaps it; a parent
   pointer is cleared only when the parent dies.  A zombie stays one; only another kill changes its exit code.
   */
  lemma StepKin(w: World, e: Event, j: nat)
    requires Inv(w) && Enabled(w, e) && j < |w.t.procs| && !w.t.procs[j].state.Unused? && e != WaitReap(j)
    ensures |Apply(w, e).t.procs| == |w.t.procs| && KinKept(w.t, Apply(w, e).t, j)
    ensures w.t.procs[j].state.Zombie? && e != Kill(j) ==> Apply(w, e).t.procs[j].exitCode == w.t.procs[j].exitCode
  {
    hide Core, YieldTo, Die, Chosen, Wakeup, Ticked, Forked;
    CoreParts(w);
    match e {
      case Tick => TickKin(w.t, j);
      case Yield(n) => ChosenIsRunnable(w.t, n); YieldKin(w.t, n, j);
      case Fork(i) => ForkKin(w.t, i, j);
      case ExecDone =>
      case Exit(code, n) => ExitKin(w, code, n, j);
      case EnterWait(q) =>
      case WaitReap(i) =>
      case WaitNone =>
      case WaitSleep(n) => LiveSleeper(w); SleepKin(w, ToProc(w.t.current), n, j);
      case EnterSem(s) =>
      case SemTake =>
      case SemSleep(n) => LiveSleeper(w); SleepKin(w, ToSem(w.pc[w.t.current].s), n, j);
      case Signal(s) => WakeKin(w.t, ToSem(s), j);
      case Kill(i) => DieKin(WithCode(w.t, i, -9), i, j);
    }
  }

  // --- zombies -----------------------------------------------------------------------------------------------------

  lemma YieldSwitch(t: Table, n: int)
    requires Shape(t) && t.current >= 0 && -1 <= n < |t.procs|
    ensures var t' := YieldTo(t, n);
            t'.current == t.current || (n >= 0 && t'.current == n && t'.procs[n].state.Running?)
    ensures forall i :: 0 <= i < |t.procs| ==> (YieldTo(t, n).procs[i].state.Blocked? ==> t.procs[i].state.Blocked?)
  {
  }

  /** A switch makes its target RUNNING. */
  lemma SwitchIsToRunning(w: World, e: Event)
    requires Inv(w) && Enabled(w, e)
    ensures var t' := Apply(w, e).t;
            && |t'.procs| == |w.t.procs| && 0 <= t'.current < |t'.procs|
            && (t'.current == w.t.current || t'.procs[t'.current].state.Running?)
    ensures e.WaitReap? ==> Apply(w, e).t.current == w.t.current
  {
    hide Core, Chosen, Die, Wakeup, Forked, YieldTo;
    CoreParts(w);
    match e {
      case Tick => CoreParts(w);
      case Yield(n) => ChosenIsRunnable(w.t, n); YieldSwitch(w.t, n);
      case Fork(i) => FreeRuns(w); ForkKin(w.t, i, w.t.current);
      case Exit(code, n) =>
        var c := WithCode(w.t, w.t.current, code);
        DieFacts(c, w.t.current);
        var d := Die(c, w.t.current);
        ChosenIsRunnable(d, n);
        YieldSwitch(d, n);
      case WaitSleep(n) => var d := Asleep(w.t, ToProc(w.t.current)); ChosenIsRunnable(d, n); YieldSwitch(d, n);
      case SemSleep(n) => var d := Asleep(w.t, ToSem(w.pc[w.t.current].s)); ChosenIsRunnable(d, n); YieldSwitch(d, n);
      case Signal(s) => FreeRuns(w); WakeKin(w.t, ToSem(s), w.t.current);
      case Kill(i) => DieFacts(WithCode(w.t, i, -9), i);
      case _ =>
    }
  }

  /** What the entry that a reap adds to the record says: the child's incarnation, its creator, and its exit code. */
  lemma ReapRecordsChild(w: World, i: nat)
    requires Inv(w) && Enabled(w, WaitReap(i))
    ensures w.t.procs[i].ctime in w.creator
    ensures var w' := Apply(w, WaitReap(i));
            && w'.reaps == w.reaps + [Reap(w.t.procs[i].ctime, w.creator[w.t.procs[i].ctime], w.t.procs[i].exitCode)]
            && w.t.procs[i].state.Zombie? && w'.t.procs[i].state.Unused?
            && forall r :: 0 <= r < |w.reaps| ==> w.reaps[r].child != w.t.procs[i].ctime
  {
    assert ParentIsCreator(w, i);
  }

  /** A zombie is never run again: it is current only if it already was, and the scheduler never picks it. */
  lemma ZombieNeverRuns(w: World, e: Event, j: nat)
    requires Inv(w) && Enabled(w, e) && j < |w.t.procs| && w.t.procs[j].state.Zombie?
    ensures |Apply(w, e).t.procs| == |w.t.procs|
    ensures Apply(w, e).t.procs[j].state.Zombie? || (e == WaitReap(j) && Apply(w, e).t.procs[j].state.Unused?)
    ensures Apply(w, e).t.current == j ==> w.t.current == j
  {
    hide Core, Apply;
    if e != WaitReap(j) {
      StepKin(w, e, j);
    } else {
      ReapRecordsChild(w, j);
    }
    SwitchIsToRunning(w, e);
  }

  /** A zombie whose parent is gone is never reaped: its slot is lost. */
  lemma OrphanZombieStays(w: World, e: Event, j: nat)
    requires Inv(w) && Enabled(w, e) && j < |w.t.procs| && w.t.procs[j].state.Zombie? && w.t.procs[j].parent.Null?
    ensures |Apply(w, e).t.procs| == |w.t.procs|
    ensures Apply(w, e).t.procs[j].state.Zombie? && Apply(w, e).t.procs[j].parent.Null?
    ensures Apply(w, e).t.procs[j].ctime == w.t.procs[j].ctime
  {
    hide Core, Apply;
    StepKin(w, e, j);
  }

  /**
   Each incarnation is reaped at most once in a run, by the incarnation that forked it.  Which exit code a reap hands
   over is ExitCodes.ReapHandsOverLastCode.
   */
  lemma ReapedOnceByCreator(ws: seq<World>, es: seq<Event>, k: nat, a: nat, b: nat)
    requires Run(ws, es) && k < |ws| && a < |ws[k].reaps| && b < |ws[k].reaps|
    ensures ws[k].reaps[a].child == ws[k].reaps[b].child <==> a == b
    ensures ws[k].reaps[a].child in ws[k].creator && ws[k].creator[ws[k].reaps[a].child] == ws[k].reaps[a].parent
  {
    hide Run;
    RunKeepsInv(ws, es, k);
  }

  // --- deadlock --------------------------------------------------------------------------------------------------

  /** Has slot i, waiting for q, a child still to be reaped? */
  ghost predicate HasUnreaped(t: Table, i: nat, q: int) {
    exists j :: 0 <= j < |t.procs| && Answers(t, j, i, q) && !t.procs[j].state.Unused?
  }

  ghost predicate GoodWait(w: World, i: nat)
    requires i < |w.t.procs| && i < |w.pc|
  {
    Live(w.t.procs[i]) && w.pc[i].InWait? ==> HasUnreaped(w.t, i, w.pc[i].q)
  }

  ghost predicate GoodWaits(w: World) {
    |w.pc| == |w.t.procs| && forall i :: 0 <= i < |w.t.procs| ==> GoodWait(w, i)
  }

  ghost predicate NobodyOnSemaphores(w: World) {
    |w.pc| == |w.t.procs| && forall i :: 0 <= i < |w.t.procs| && w.t.procs[i].state.Blocked? ==> !w.pc[i].InSem?
  }

  /** The steps of a run in which waits are entered with an unreaped matching child and no semaphore is slept on. */
  ghost predicate Sound(w: World, e: Event)
    requires Enabled(w, e)
  {
    && (e.EnterWait? ==> HasUnreaped(w.t, w.t.current, e.q))
    && !e.SemSleep?
  }

  /** A waiter's child would have to wait itself, and it is younger: there is no end to it. */
  lemma {:induction false} NoWaitingChain(w: World, i: nat)
    requires Inv(w) && GoodWaits(w) && NobodyOnSemaphores(w)
    requires i < |w.t.procs| && w.t.procs[i].state.Blocked?
    requires forall j :: 0 <= j < |w.t.procs| ==> !w.t.procs[j].state.Runnable? && !w.t.procs[j].state.Running?
    ensures false
    decreases w.t.nextCtime - w.t.procs[i].ctime
  {
    assert SleeperOk(w, i) && NotOverslept(w, i) && GoodWait(w, i);
    var q := w.pc[i].q;
    var j :| 0 <= j < |w.t.procs| && Answers(w.t, j, i, q) && !w.t.procs[j].state.Unused?;
    assert ParentOk(w.t, j);
    NoWaitingChain(w, j);
  }

  /** As long as a process is alive, some process can run. */
  lemma NoDeadlock(w: World, i: nat)
    requires Inv(w) && GoodWaits(w) && NobodyOnSemaphores(w) && i < |w.t.procs| && Live(w.t.procs[i])
    ensures exists j :: 0 <= j < |w.t.procs| && (w.t.procs[j].state.Runnable? || w.t.procs[j].state.Running?)
  {
    if forall j :: 0 <= j < |w.t.procs| ==> !w.t.procs[j].state.Runnable? && !w.t.procs[j].state.Running? {
      NoWaitingChain(w, i);
    }
  }

  lemma FreeRunsIfFree(w: World)
    requires Inv(w)
    ensures w.pc[w.t.current].Free? ==> w.t.procs[w.t.current].state.Running?
  {
    if w.pc[w.t.current].Free? { FreeRuns(w); }
  }

  /** Who waits after a step waited before it, or has just begun to. */
  lemma WaitersBefore(w: World, e: Event, i: nat)
    requires Inv(w) && Enabled(w, e) && i < |w.t.procs|
    requires |Apply(w, e).t.procs| == |w.t.procs| && |Apply(w, e).pc| == |w.pc|
    requires Live(Apply(w, e).t.procs[i]) && Apply(w, e).pc[i].InWait?
    ensures Live(w.t.procs[i])
    ensures w.pc[i] == Apply(w, e).pc[i] || (i == w.t.current && e == EnterWait(Apply(w, e).pc[i].q))
    ensures !e.WaitReap? || i != w.t.current
  {
    hide Core, Chosen, YieldTo, Die, Wakeup, Ticked, Forked;
    CoreParts(w);
    assert SleeperOk(w, i) && SleeperOk(w, w.t.current);
    FreeRunsIfFree(w);
  }

  lemma StepShape(w: World, e: Event)
    requires Inv(w) && Enabled(w, e)
    ensures |Apply(w, e).t.procs| == |w.t.procs| && |Apply(w, e).pc| == |w.pc|
  {
    hide Core, Chosen, YieldTo, Ticked, Forked;
    CoreParts(w);
  }

  /** A child is reaped by its own parent, and the parent's wait is then over. */
  lemma ChildIsNotReaped(w: World, e: Event, i: nat, j: nat, q: int)
    requires Enabled(w, e) && j < |w.t.procs| && Answers(w.t, j, i, q)
    requires !e.WaitReap? || i != w.t.current
    ensures e != WaitReap(j)
  {
  }

  lemma SoundStepKeepsGoodWaits(w: World, e: Event)
    requires Inv(w) && Enabled(w, e) && GoodWaits(w) && Sound(w, e)
    ensures GoodWaits(Apply(w, e))
  {
    hide Core, Apply;
    StepKeepsInv(w, e);
    StepShape(w, e);
    var w' := Apply(w, e);
    CoreParts(w');
    forall i | 0 <= i < |w'.t.procs|
      ensures GoodWait(w', i)
    {
      if Live(w'.t.procs[i]) && w'.pc[i].InWait? {
        WaitersBefore(w, e, i);
        var q := w'.pc[i].q;
        assert GoodWait(w, i);
        var j :| 0 <= j < |w.t.procs| && Answers(w.t, j, i, q) && !w.t.procs[j].state.Unused?;
        ChildIsNotReaped(w, e, i, j, q);
        StepKin(w, e, j);
        assert Answers(w'.t, j, i, q);
      }
    }
  }

  lemma KillSleepers(w: World, k: nat, i: nat)
    requires Inv(w) && Enabled(w, Kill(k)) && i < |w.t.procs|
    ensures var w' := Apply(w, Kill(k));
            |w'.t.procs| == |w.t.procs| == |w'.pc|
            && (w'.t.procs[i].state.Blocked? ==> w.t.procs[i].state.Blocked? && w.pc[i] == w'.pc[i])
  {
    hide Core, Chosen, Die;
    CoreParts(w);
    var c := WithCode(w.t, k, -9);
    DieFacts(c, k);
    assert DeathAt(c, Die(c, k), k, i) && DeathAt(c, Die(c, k), k, k);
  }

  lemma ExitSleepers(w: World, code: int, n: int, i: nat)
    requires Inv(w) && Enabled(w, Exit(code, n)) && i < |w.t.procs|
    ensures var w' := Apply(w, Exit(code, n));
            |w'.t.procs| == |w.t.procs| == |w'.pc|
            && (w'.t.procs[i].state.Blocked? ==> w.t.procs[i].state.Blocked? && w.pc[i] == w'.pc[i])
  {
    hide Core, Chosen, Die, YieldTo;
    CoreParts(w);
    var c := WithCode(w.t, w.t.current, code);
    DieFacts(c, w.t.current);
    var d := Die(c, w.t.current);
    ChosenIsRunnable(d, n);
    YieldSwitch(d, n);
    assert DeathAt(c, d, w.t.current, i) && DeathAt(c, d, w.t.current, w.t.current);
  }

  /** Who sleeps after a step slept before it, or has just fallen asleep. */
  lemma SleepersBefore(w: World, e: Event, i: nat)
    requires Inv(w) && Enabled(w, e) && i < |w.t.procs| && |Apply(w, e).t.procs| == |w.t.procs| == |Apply(w, e).pc|
    requires Apply(w, e).t.procs[i].state.Blocked?
    ensures (w.t.procs[i].state.Blocked? && w.pc[i] == Apply(w, e).pc[i])
            || (i == w.t.current && e.WaitSleep? && Apply(w, e).pc[i].InWait?) || (i == w.t.current && e.SemSleep?)
  {
    hide Core, Chosen, Die, YieldTo;
    CoreParts(w);
    FreeRunsIfFree(w);
    match e {
      case Yield(n) => ChosenIsRunnable(w.t, n); YieldSwitch(w.t, n);
      case Exit(code, n) => ExitSleepers(w, code, n, i);
      case WaitSleep(n) => var d := Asleep(w.t, ToProc(w.t.current)); ChosenIsRunnable(d, n); YieldSwitch(d, n);
      case SemSleep(n) => var d := Asleep(w.t, ToSem(w.pc[w.t.current].s)); ChosenIsRunnable(d, n); YieldSwitch(d, n);
      case Kill(k) => KillSleepers(w, k, i);
      case WaitReap(k) => LoopExitRuns(w, e);
      case WaitNone => LoopExitRuns(w, e);
      case SemTake => LoopExitRuns(w, e);
      case _ =>
    }
  }

  lemma SoundStepKeepsSemaphoresFree(w: World, e: Event)
    requires Inv(w) && Enabled(w, e) && NobodyOnSemaphores(w) && Sound(w, e)
    ensures NobodyOnSemaphores(Apply(w, e))
  {
    hide Core, Apply;
    StepShape(w, e);
    var w' := Apply(w, e);
    forall i | 0 <= i < |w'.t.procs| && w'.t.procs[i].state.Blocked?
      ensures !w'.pc[i].InSem?
    {
      SleepersBefore(w, e, i);
    }
  }

  lemma {:induction false} GoodWaitsInRuns(ws: seq<World>, es: seq<Event>, k: nat)
    requires Run(ws, es) && k < |ws|
    requires forall m :: 0 <= m < |es| ==> Enabled(ws[m], es[m]) && Sound(ws[m], es[m])
    ensures GoodWaits(ws[k]) && NobodyOnSemaphores(ws[k])
    decreases k
  {
    hide Enabled, Apply, Inv, Sound;
    if k > 0 {
      GoodWaitsInRuns(ws, es, k - 1);
      RunKeepsInv(ws, es, k - 1);
      SoundStepKeepsGoodWaits(ws[k - 1], es[k - 1]);
      SoundStepKeepsSemaphoresFree(ws[k - 1], es[k - 1]);
    }
  }

  /** No waiter deadlock, over every run of sound steps: while any process is alive, one can run. */
  lemma NoDeadlockInRuns(ws: seq<World>, es: seq<Event>, k: nat, i: nat)
    requires Run(ws, es) && k < |ws| && i < |ws[k].t.procs| && Live(ws[k].t.procs[i])
    requires forall m :: 0 <= m < |es| ==> Enabled(ws[m], es[m]) && Sound(ws[m], es[m])
    ensures exists j :: 0 <= j < |ws[k].t.procs|
              && (ws[k].t.procs[j].state.Runnable? || ws[k].t.procs[j].state.Running?)
  {
    RunKeepsInv(ws, es, k);
    GoodWaitsInRuns(ws, es, k);
    NoDeadlock(ws[k], i);
  }
}
