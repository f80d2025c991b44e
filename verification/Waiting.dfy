/**
 What becomes of a wait that is entered for a child that was reaped before: wait(pid) does not clear the parent pointer
 of the slot it reaps, so the slot goes on counting as a child until it is used again.
 */
module Waiting {
  import opened Processes
  import opened ProcRuns
  import opened ProcTheorems

  /** Some slot counts as a child that answers wait(q) of slot p, but all that do have been reaped. */
  ghost predicate OnlyReaped(t: Table, p: nat, q: int) {
    HasKids(t, p, q) && forall j :: 0 <= j < |t.procs| && Answers(t, j, p, q) ==> t.procs[j].state.Unused?
  }

  /** Slot p is inside such a wait. */
  ghost predicate WaitsInVain(w: World, p: nat, q: int) {
    p < |w.t.procs| && p < |w.pc| && Live(w.t.procs[p]) && w.pc[p] == InWait(q) && OnlyReaped(w.t, p, q)
  }

  /** A slot that names a parent has its own number as pid. */
  lemma OwnPid(w: World, i: nat, j: nat)
    requires Inv(w) && i < |w.t.procs| && j < |w.t.procs| && i != j && !w.t.procs[i].state.Unused?
    ensures !w.t.procs[j].state.Unused? ==> w.t.procs[j].pid != w.t.procs[i].pid
  {
  }

  /** Right after a reap, a second wait for the same pid finds only the slot that was reaped, and would sleep. */
  lemma WaitAgainSleeps(w: World, i: nat)
    requires Inv(w) && Enabled(w, WaitReap(i))
    ensures var w' := Apply(w, WaitReap(i));
            var pid := w.t.procs[i].pid;
            w'.t.current == w.t.current && OnlyReaped(w'.t, w'.t.current, pid) && NoZombieChild(w'.t, w'.t.current, pid)
  {
    var w' := Apply(w, WaitReap(i));
    assert Answers(w'.t, i, w'.t.current, w.t.procs[i].pid);
    forall j | 0 <= j < |w'.t.procs| && Answers(w'.t, j, w'.t.current, w.t.procs[i].pid)
      ensures w'.t.procs[j].state.Unused?
    {
      if j != i { OwnPid(w, i, j); }
    }
  }

  // --- a step -------------------------------------------------------------------------------------------------------

  /** The step puts a new process into a slot that counts. */
  predicate Reuses(w: World, e: Event, p: nat, q: int) {
    e.Fork? && 0 <= e.slot < |w.t.procs| && Answers(w.t, e.slot, p, q)
  }

  /** An unused slot stays as it is until fork takes it; only its parent pointer is cleared when that parent dies. */
  ghost predicate IdleKept(t: Table, t': Table, j: nat)
    requires j < |t.procs| && |t'.procs| == |t.procs|
  {
    t'.procs[j].state.Unused? && t'.procs[j].pid == t.procs[j].pid
    && (t'.procs[j].parent == t.procs[j].parent
        || (t'.procs[j].parent.Null? && t.procs[j].parent.ToProc? && t.procs[j].parent.slot < |t'.procs|
            && !Live(t'.procs[t.procs[j].parent.slot])))
  }

  lemma YieldIdle(t: Table, n: int, j: nat)
    requires Shape(t) && -1 <= n < |t.procs| && j < |t.procs| && t.procs[j].state.Unused? && t.current >= 0
    requires n >= 0 ==> t.procs[n].state.Runnable?
    ensures IdleKept(t, YieldTo(t, n), j) && YieldTo(t, n).procs[j].parent == t.procs[j].parent
    ensures forall i :: 0 <= i < |t.procs| && !Live(t.procs[i]) ==> !Live(YieldTo(t, n).procs[i])
  {
  }

  lemma DieIdle(t: Table, p: nat, j: nat)
    requires Queued(t) && p < |t.procs| && j < |t.procs| && j != p && t.procs[j].state.Unused?
    ensures IdleKept(t, Die(t, p), j)
  {
    DieFacts(t, p);
    assert DeathAt(t, Die(t, p), p, j) && DeathAt(t, Die(t, p), p, p);
  }

  lemma LiveIsUsed(w: World)
    requires Core(w) && 0 <= w.t.current < |w.t.procs| && !w.pc[w.t.current].Dead?
    ensures !w.t.procs[w.t.current].state.Unused?
  {
    assert SleeperOk(w, w.t.current);
  }

  lemma ExitIdle(w: World, code: int, n: int, j: nat)
    requires Inv(w) && Enabled(w, Exit(code, n)) && j < |w.t.procs| && w.t.procs[j].state.Unused?
    ensures |Apply(w, Exit(code, n)).t.procs| == |w.t.procs| && IdleKept(w.t, Apply(w, Exit(code, n)).t, j)
  {
    hide Core, YieldTo, Die, Chosen;
    CoreParts(w);
    LiveIsUsed(w);
    FreeRuns(w);
    var c := WithCode(w.t, w.t.current, code);
    DieIdle(c, w.t.current, j);
    DieFacts(c, w.t.current);
    var d := Die(c, w.t.current);
    ChosenIsRunnable(d, n);
    YieldIdle(d, n, j);
  }

  lemma TickIdle(t: Table, j: nat)
    requires Shape(t) && j < |t.procs| && t.procs[j].state.Unused?
    ensures IdleKept(t, Ticked(t), j)
  {
  }

  lemma ForkIdle(t: Table, i: int, j: nat)
    requires Shape(t) && t.current >= 0 && i == FreeSlot(t.procs) && j < |t.procs| && t.procs[j].state.Unused? && i != j
    ensures i >= 0 ==> IdleKept(t, Forked(t, i), j)
  {
  }

  lemma WakeIdle(t: Table, chan: Ptr, j: nat)
    requires j < |t.procs| && t.procs[j].state.Unused?
    ensures |Wakeup(t, chan).procs| == |t.procs| && IdleKept(t, Wakeup(t, chan), j)
  {
  }

  lemma SleepIdle(w: World, chan: Ptr, n: int, j: nat)
    requires Shape(w.t) && w.t.current >= 0 && j < |w.t.procs| && w.t.procs[j].state.Unused? && j != w.t.current
    requires Chosen(Asleep(w.t, chan), n)
    ensures -1 <= n < |w.t.procs| && IdleKept(w.t, YieldTo(Asleep(w.t, chan), n), j)
  {
    hide YieldTo, Chosen;
    var d := Asleep(w.t, chan);
    ChosenIsRunnable(d, n);
    YieldIdle(d, n, j);
  }

  lemma IdleStep(w: World, e: Event, j: nat)
    requires Inv(w) && Enabled(w, e) && j < |w.t.procs| && w.t.procs[j].state.Unused? && e != Fork(j)
    ensures |Apply(w, e).t.procs| == |w.t.procs| && IdleKept(w.t, Apply(w, e).t, j)
  {
    hide Core, YieldTo, Die, Chosen, Wakeup, Ticked, Forked;
    CoreParts(w);
    match e {
      case Tick => TickIdle(w.t, j);
      case Yield(n) => ChosenIsRunnable(w.t, n); YieldIdle(w.t, n, j);
      case Fork(i) => ForkIdle(w.t, i, j);
      case Exit(code, n) => ExitIdle(w, code, n, j);
      case WaitSleep(n) => LiveIsUsed(w); SleepIdle(w, ToProc(w.t.current), n, j);
      case SemSleep(n) => LiveIsUsed(w); SleepIdle(w, ToSem(w.pc[w.t.current].s), n, j);
      case Signal(s) => WakeIdle(w.t, ToSem(s), j);
      case Kill(i) => DieIdle(WithCode(w.t, i, -9), i, j);
      case _ =>
    }
  }

  lemma FreeSlotIsDead(w: World, p: nat)
    requires Inv(w) && p < |w.pc| && w.pc[p].InWait?
    ensures p < |w.t.procs| && FreeSlot(w.t.procs) != p
  {
    assert SleeperOk(w, p);
  }

  /** A process inside wait stays there unless a pass returns or it is killed. */
  lemma WaiterStays(w: World, e: Event, p: nat)
    requires Inv(w) && Enabled(w, e) && p < |w.pc| && w.pc[p].InWait? && e != Kill(p)
    requires p == w.t.current ==> !e.WaitReap? && !e.WaitNone?
    ensures p < |Apply(w, e).pc| && Apply(w, e).pc[p] == w.pc[p]
  {
    hide Core, YieldTo, Die, Chosen, Wakeup, Ticked, Forked;
    if e.Fork? { FreeSlotIsDead(w, p); }
  }

  lemma StillLive(w: World, p: nat)
    requires Inv(w) && p < |w.pc| && w.pc[p].InWait?
    ensures p < |w.t.procs| && Live(w.t.procs[p])
  {
    assert SleeperOk(w, p);
  }

  lemma IdleAnswers(t: Table, t': Table, p: nat, q: int, j: nat)
    requires j < |t.procs| && |t'.procs| == |t.procs| && IdleKept(t, t', j) && Answers(t', j, p, q)
    ensures Answers(t, j, p, q)
  {
  }

  lemma ForkedParent(w: World, j: nat)
    requires Enabled(w, Fork(j))
    ensures Apply(w, Fork(j)).t.procs[j].parent == ToProc(w.t.current) && w.pc[w.t.current].Free?
  {
  }

  /** No used slot comes to count for a process that is inside wait, since that process forks nothing. */
  lemma NoNewAnswer(w: World, e: Event, p: nat, q: int, j: nat)
    requires Inv(w) && Enabled(w, e) && p < |w.pc| && w.pc[p].InWait? && |Apply(w, e).t.procs| == |w.t.procs|
             && j < |w.t.procs|
    requires Answers(Apply(w, e).t, j, p, q)
    ensures (w.t.procs[j].state.Unused? || e == WaitReap(j)) ==> Apply(w, e).t.procs[j].state.Unused?
    ensures Answers(w.t, j, p, q)
  {
    hide Core;
    if e == Fork(j) {
      ForkedParent(w, j);
    } else if w.t.procs[j].state.Unused? {
      IdleStep(w, e, j);
      IdleAnswers(w.t, Apply(w, e).t, p, q, j);
    } else if e != WaitReap(j) {
      hide Apply;
      StepKin(w, e, j);
    }
  }

  /** The wait in vain goes on: no pass returns, whatever else happens, until a slot that counts is used again. */
  lemma VainStep(w: World, e: Event, p: nat, q: int)
    requires Inv(w) && Enabled(w, e) && WaitsInVain(w, p, q) && !Reuses(w, e, p, q) && e != Kill(p)
    ensures WaitsInVain(Apply(w, e), p, q)
  {
    hide Core, Apply, ParentOk;
    var w' := Apply(w, e);
    WaiterStays(w, e, p);
    StepKeepsInv(w, e);
    StillLive(w', p);
    var k :| 0 <= k < |w.t.procs| && Answers(w.t, k, p, q);
    IdleStep(w, e, k);
    assert Answers(w'.t, k, p, q);
    forall j | 0 <= j < |w'.t.procs| && Answers(w'.t, j, p, q)
      ensures w'.t.procs[j].state.Unused?
    {
      NoNewAnswer(w, e, p, q, j);
    }
  }

  // --- runs ---------------------------------------------------------------------------------------------------------

  /** From step a to step b nobody kills p and fork takes none of the slots that count. */
  ghost predicate Undisturbed(ws: seq<World>, es: seq<Event>, a: nat, b: nat, p: nat, q: int)
    requires |ws| == |es| + 1 && b < |ws|
  {
    forall k :: a <= k < b ==> !Reuses(ws[k], es[k], p, q) && es[k] != Kill(p)
  }

  /** A second wait does not return, over whole runs, as long as the slots that were reaped are not used again. */
  lemma {:induction false} WaitsOn(ws: seq<World>, es: seq<Event>, a: nat, b: nat, p: nat, q: int)
    requires Run(ws, es) && a <= b < |ws| && WaitsInVain(ws[a], p, q) && Undisturbed(ws, es, a, b, p, q)
    ensures WaitsInVain(ws[b], p, q)
    decreases b
  {
    hide Inv, Enabled, Apply, Init, WaitsInVain;
    if a < b {
      WaitsOn(ws, es, a, b - 1, p, q);
      RunKeepsInv(ws, es, b - 1);
      VainStep(ws[b - 1], es[b - 1], p, q);
    }
  }

  /** In such a state no pass of that wait can return: neither with a child nor with -1. */
  lemma NoPassReturns(w: World, e: Event, p: nat, q: int)
    requires Enabled(w, e) && WaitsInVain(w, p, q) && w.t.current == p
    ensures !e.WaitReap? && !e.WaitNone?
  {
  }

  /**
   What ends it: once another process has forked into the only slot that counted, nothing counts any more, and nothing
   will while the wait lasts.  Its next pass returns -1.
   */
  lemma ReuseEndsIt(w: World, i: nat, p: nat, q: int)
    requires Inv(w) && Enabled(w, Fork(i)) && WaitsInVain(w, p, q) && i < |w.t.procs|
    requires forall j :: 0 <= j < |w.t.procs| && Answers(w.t, j, p, q) ==> j == i
    ensures var w' := Apply(w, Fork(i));
            |w'.t.procs| == |w.t.procs| && !HasKids(w'.t, p, q) && p < |w'.pc|
            && w'.pc[p] == InWait(q)
  {
    var w' := Apply(w, Fork(i));
    WaiterStays(w, Fork(i), p);
    StepShape(w, Fork(i));
    forall j | 0 <= j < |w'.t.procs|
      ensures !Answers(w'.t, j, p, q)
    {
      if Answers(w'.t, j, p, q) {
        NoNewAnswer(w, Fork(i), p, q, j);
        ForkedParent(w, i);
      }
    }
  }

  lemma ReapHasKid(w: World, e: Event)
    requires Enabled(w, e) && e.WaitReap?
    ensures w.pc[w.t.current].InWait? && HasKids(w.t, w.t.current, w.pc[w.t.current].q)
  {
    assert Answers(w.t, e.i, w.t.current, w.pc[w.t.current].q);
  }

  lemma NothingCountsStep(w: World, e: Event, p: nat, q: int)
    requires Inv(w) && Enabled(w, e) && p < |w.pc| && w.pc[p] == InWait(q) && !HasKids(w.t, p, q)
    requires e != Kill(p) && !(w.t.current == p && e.WaitNone?)
    ensures p < |Apply(w, e).pc| && Apply(w, e).pc[p] == InWait(q) && !HasKids(Apply(w, e).t, p, q)
  {
    hide Core, Apply;
    if e.WaitReap? { ReapHasKid(w, e); }
    WaiterStays(w, e, p);
    StepShape(w, e);
    var w' := Apply(w, e);
    forall j | 0 <= j < |w'.t.procs|
      ensures !Answers(w'.t, j, p, q)
    {
      if Answers(w'.t, j, p, q) { NoNewAnswer(w, e, p, q, j); }
    }
  }

  /** With nothing that counts a pass can do one thing: return -1. */
  lemma OnlyNoneIsLeft(w: World, e: Event, p: nat, q: int)
    requires Enabled(w, e) && w.t.current == p && w.pc[p] == InWait(q) && !HasKids(w.t, p, q)
    ensures Enabled(w, WaitNone) && !e.WaitReap? && !e.WaitSleep?
  {
    if e.WaitReap? { ReapHasKid(w, e); }
  }

  lemma YieldBlocked(t: Table, n: int, p: nat)
    requires Shape(t) && t.current >= 0 && -1 <= n < |t.procs| && p < |t.procs| && t.procs[p].state.Blocked?
    requires n >= 0 ==> t.procs[n].state.Runnable?
    ensures YieldTo(t, n).procs[p].state.Blocked?
  {
  }

  lemma YieldUnblocked(t: Table, n: int, p: nat)
    requires Shape(t) && t.current >= 0 && -1 <= n < |t.procs| && p < |t.procs| && !t.procs[p].state.Blocked?
    ensures !YieldTo(t, n).procs[p].state.Blocked?
  {
  }

  lemma ExitBlocked(w: World, code: int, n: int, p: nat)
    requires Inv(w) && Enabled(w, Exit(code, n)) && p < |w.t.procs| && w.t.procs[p].state.Blocked?
             && w.t.procs[p].chan == ToProc(p)
    ensures |Apply(w, Exit(code, n)).t.procs| == |w.t.procs|
    ensures Apply(w, Exit(code, n)).t.procs[p].state.Blocked? <==> w.t.procs[w.t.current].parent != ToProc(p)
  {
    hide Core, YieldTo, Die, Chosen;
    CoreParts(w);
    FreeRuns(w);
    var c := WithCode(w.t, w.t.current, code);
    DieFacts(c, w.t.current);
    var d := Die(c, w.t.current);
    assert DeathAt(c, d, w.t.current, p);
    ChosenIsRunnable(d, n);
    if d.procs[p].state.Blocked? {
      YieldBlocked(d, n, p);
    } else {
      YieldUnblocked(d, n, p);
    }
  }

  lemma TickBlocked(t: Table, p: nat)
    requires Shape(t) && p < |t.procs|
    ensures Ticked(t).procs[p].state == t.procs[p].state
  {
  }

  lemma ForkBlocked(t: Table, i: int, p: nat)
    requires Shape(t) && t.current >= 0 && i == FreeSlot(t.procs) && p < |t.procs| && t.procs[p].state.Blocked?
    ensures i >= 0 ==> Forked(t, i).procs[p].state.Blocked?
  {
  }

  /** Exactly this wakes a process that sleeps in wait: the death of one of its children, or its own. */
  lemma ChildDeathWakes(w: World, e: Event, p: nat)
    requires Inv(w) && Enabled(w, e) && p < |w.t.procs| && p < |w.pc| && w.t.procs[p].state.Blocked? && w.pc[p].InWait?
    ensures |Apply(w, e).t.procs| == |w.t.procs|
    ensures !Apply(w, e).t.procs[p].state.Blocked? <==>
              || (e.Exit? && w.t.procs[w.t.current].parent == ToProc(p))
              || (e.Kill? && (e.i == p || (e.i < |w.t.procs| && w.t.procs[e.i].parent == ToProc(p))))
  {
    hide Core, YieldTo, Die, Chosen, Ticked, Forked;
    CoreParts(w);
    assert SleeperOk(w, p);
    var cur := w.t.current;
    match e {
      case Tick => TickBlocked(w.t, p);
      case Yield(n) => ChosenIsRunnable(w.t, n); YieldBlocked(w.t, n, p);
      case Fork(i) => ForkKin(w.t, i, p); ForkBlocked(w.t, i, p);
      case Exit(code, n) => ExitBlocked(w, code, n, p);
      case WaitSleep(n) => var d := Asleep(w.t, ToProc(cur)); ChosenIsRunnable(d, n); YieldBlocked(d, n, p);
      case SemSleep(n) => var d := Asleep(w.t, ToSem(w.pc[cur].s)); ChosenIsRunnable(d, n); YieldBlocked(d, n, p);
      case Signal(s) =>
      case Kill(i) =>
        DieFacts(WithCode(w.t, i, -9), i);
        assert DeathAt(WithCode(w.t, i, -9), Die(WithCode(w.t, i, -9), i), i, p);
      case _ =>
    }
  }

  // --- whom a pass takes --------------------------------------------------------------------------------------------

  /** Slot j is a zombie child of slot p. */
  predicate DeadChild(t: Table, p: int, j: nat) {
    j < |t.procs| && p >= 0 && t.procs[j].state.Zombie? && t.procs[j].parent == ToProc(p)
  }

  /**
   A pass of wait(q) reaps the zombie child in slot q, or for q == -1 the one in the lowest slot; if there is such a
   child it neither sleeps nor gives up, and if there is none it reaps nobody.
   */
  lemma PassTakes(w: World, e: Event, q: int)
    requires Inv(w) && Enabled(w, e) && w.pc[w.t.current] == InWait(q)
    ensures e.WaitReap? <==>
              && (e.WaitReap? || e.WaitSleep? || e.WaitNone?)
              && exists j :: DeadChild(w.t, w.t.current, j) && (q == -1 || j == q)
    ensures e.WaitReap? ==>
              && DeadChild(w.t, w.t.current, e.i) && (q == -1 || e.i == q)
              && forall j :: DeadChild(w.t, w.t.current, j) && (q == -1 || j == q) ==> e.i <= j
  {
    hide Chosen, YieldTo, NoLostWakeup, Semaphores, History, Queued;
    var t := w.t;
    assert forall j: nat :: DeadChild(t, t.current, j) ==> t.procs[j].pid == j;
    if e.WaitNone? || e.WaitSleep? {
      assert forall j: nat :: DeadChild(t, t.current, j) && (q == -1 || j == q) ==> Answers(t, j, t.current, q);
    }
    if e.WaitReap? {
      assert Answers(t, e.i, t.current, q) && DeadChild(t, t.current, e.i);
      assert forall j: nat :: DeadChild(t, t.current, j) && (q == -1 || j == q) ==> Answers(t, j, t.current, q);
    }
  }
}
