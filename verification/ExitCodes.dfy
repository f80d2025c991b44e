/**
 The exit code a reap hands over, traced back over the run to the exit or the kill that set it.
 */
module ExitCodes {
  import opened Processes
  import opened ProcRuns
  import opened ProcTheorems

  /** The incarnation that a step makes a zombie of, or kills again, and the code that it leaves. */
  ghost predicate Hits(w: World, e: Event, c: nat) {
    match e
    case Exit(_, _) => 0 <= w.t.current < |w.t.procs| && w.t.procs[w.t.current].ctime == c
    case Kill(i) => i < |w.t.procs| && w.t.procs[i].ctime == c
    case _ => false
  }

  ghost function CodeOf(e: Event): int { if e.Exit? then e.code else -9 }

  ghost predicate Unhit(ws: seq<World>, es: seq<Event>, a: nat, b: nat, c: nat)
    requires |ws| == |es| + 1 && b < |ws|
  {
    forall l :: a <= l < b ==> !Hits(ws[l], es[l], c)
  }

  /** `code` is what the last exit or kill of incarnation c before step k left. */
  ghost predicate LastCode(ws: seq<World>, es: seq<Event>, k: nat, c: nat, code: int)
    requires |ws| == |es| + 1 && k < |ws|
  {
    exists m :: 0 <= m < k && Hits(ws[m], es[m], c) && code == CodeOf(es[m]) && Unhit(ws, es, m + 1, k, c)
  }

  // --- a step --------------------------------------------------------------------------------------------------------

  lemma KilledCode(w: World, j: nat)
    requires Inv(w) && Enabled(w, Kill(j)) && j < |w.t.procs|
    ensures var w' := Apply(w, Kill(j)); |w'.t.procs| == |w.t.procs| && w'.t.procs[j].exitCode == -9
  {
    hide Core, YieldTo, Chosen;
  }

  /** A kill overwrites the exit code of a zombie, and nothing else does. */
  lemma OnlyKillOverwrites(w: World, e: Event, j: nat)
    requires Inv(w) && Enabled(w, e) && j < |w.t.procs| && w.t.procs[j].state.Zombie? && e != WaitReap(j)
    ensures |Apply(w, e).t.procs| == |w.t.procs|
    ensures Apply(w, e).t.procs[j].exitCode == w.t.procs[j].exitCode <==> e != Kill(j) || w.t.procs[j].exitCode == -9
  {
    StepKin(w, e, j);
    hide Core, YieldTo, Chosen, Inv;
    if e == Kill(j) { KilledCode(w, j); }
  }

  /** A zombie can be killed: the state after an exit, where the parent has yet to look. */
  lemma ZombieCanBeKilled(w: World, j: nat)
    requires Inv(w) && Sized(w) && j < |w.t.procs| && w.t.procs[j].state.Zombie? && w.t.procs[j].user
    requires w.pc[w.t.current].Free? && j != w.t.current
    ensures Enabled(w, Kill(j))
  {
    forall i | 0 <= i < j && w.t.procs[i].pid == w.t.procs[j].pid
      ensures w.t.procs[i].state.Unused?
    {
    }
  }

  /** The only RUNNABLE process is the choice of every policy. */
  lemma OnlyChoice(t: Table, n: nat)
    requires Shape(t) && 0 <= t.algorithm <= 2 && n < |t.procs| && n != t.current && t.procs[n].state.Runnable?
    requires t.procs[n].enqTime < TIME_MAX && forall i :: 0 <= i < |t.procs| && i != n ==> !t.procs[i].state.Runnable?
    ensures Chosen(t, n)
  {
  }

  /** Slot 1, a child of init, runs; init could run too, and nothing else could. */
  ghost predicate ChildAlone(v: World) {
    && Sized(v) && 2 <= |v.t.procs| && v.t.current == 1 && v.t.enqClock == 3 && v.pc[0].Free? && v.pc[1].Free?
    && v.t.procs[1].state.Running? && v.t.procs[1].parent == ToProc(0) && v.t.procs[1].user && v.t.procs[1].pid == 1
    && v.t.procs[0].state.Runnable? && v.t.procs[0].enqTime < 3 && v.t.procs[0].parent.Null?
    && (forall i :: 2 <= i < |v.t.procs| ==> v.t.procs[i].state.Unused?)
  }

  /** init runs in user mode and has one child, which waits for the processor. */
  ghost predicate ChildQueued(f: World) {
    && Sized(f) && 2 <= |f.t.procs| && f.t.current == 0 && f.t.enqClock == 2 && f.pc[0].Free? && f.pc[1].Free?
    && f.t.procs[0].state.Running? && f.t.procs[0].parent.Null?
    && f.t.procs[1].state.Runnable? && f.t.procs[1].parent == ToProc(0) && f.t.procs[1].user && f.t.procs[1].pid == 1
    && f.t.procs[1].enqTime < 2 && (forall i :: 2 <= i < |f.t.procs| ==> f.t.procs[i].state.Unused?)
  }

  lemma InitForks(w: World)
    requires Init(w) && 0 <= w.t.algorithm <= 2 && 2 <= |w.t.procs| && |w.t.procs| + 4 < TIME_MAX
    ensures Enabled(w, ExecDone) && var u := Apply(w, ExecDone);
            Enabled(u, Fork(1)) && ChildQueued(Apply(u, Fork(1))) && |Apply(u, Fork(1)).t.procs| == |w.t.procs|
  {
    hide Chosen, YieldTo, Die;
    FirstUnusedSlot(Apply(w, ExecDone).t.procs, 1);
  }

  lemma ChildStarts(f: World)
    requires ChildQueued(f) && |f.t.procs| + 4 < TIME_MAX
    ensures Enabled(f, Yield(1)) && ChildAlone(Apply(f, Yield(1)))
  {
    OnlyChoice(f.t, 1);
    hide Chosen, Die;
  }

  /** exec, a fork, and a switch to the child. */
  lemma ChildRuns(w: World) returns (ws: seq<World>, es: seq<Event>)
    requires Init(w) && 0 <= w.t.algorithm <= 2 && 2 <= |w.t.procs| && |w.t.procs| + 4 < TIME_MAX
    ensures Run(ws, es) && ws[0] == w && es == [ExecDone, Fork(1), Yield(1)] && ChildAlone(ws[3])
  {
    hide Enabled, Apply, ChildQueued, ChildAlone;
    InitForks(w);
    var u := Apply(w, ExecDone);
    var f := Apply(u, Fork(1));
    ChildStarts(f);
    ws, es := [w, u, f, Apply(f, Yield(1))], [ExecDone, Fork(1), Yield(1)];
  }

  /** Its parent is back, and has not looked yet. */
  ghost predicate CodeUnread(z: World, code: int) {
    && 2 <= |z.t.procs| && z.t.procs[1].state.Zombie? && z.t.procs[1].parent == ToProc(0)
    && z.t.procs[1].exitCode == code && z.t.current == 0
  }

  lemma {:induction false} NobodyWakes(t: Table, chan: Ptr, k: nat)
    requires k <= |t.procs| && forall i :: 0 <= i < |t.procs| ==> !t.procs[i].state.Blocked?
    ensures Woken(t, chan, k) == t
  {
    if k > 0 { NobodyWakes(t, chan, k - 1); }
  }

  lemma ChildExits(v: World, code: int)
    requires ChildAlone(v)
    ensures Enabled(v, Exit(code, 0)) && var z := Apply(v, Exit(code, 0));
            CodeUnread(z, code) && |z.t.procs| == |v.t.procs| && Sized(z) && z.t.procs[1].user && z.pc[0].Free?
  {
    var t := WithState(WithCode(v.t, 1, code), 1, Zombie);
    NobodyWakes(t, ToProc(0), |t.procs|);
    OnlyChoice(Die(WithCode(v.t, 1, code), 1), 0);
  }

  lemma CodeOverwritten(z: World, code: int)
    requires CodeUnread(z, code) && Inv(z) && Enabled(z, Kill(1))
    ensures var u := Apply(z, Kill(1)); |u.t.procs| == |z.t.procs| && CodeUnread(u, -9)
  {
    hide Core, YieldTo, Chosen;
  }

  /** It happens: from boot, under every policy, a child exits and is killed before its parent has read the code. */
  lemma CodeIsLost(w: World, code: int) returns (ws: seq<World>, es: seq<Event>)
    requires Init(w) && 0 <= w.t.algorithm <= 2 && 2 <= |w.t.procs| && |w.t.procs| + 4 < TIME_MAX
    ensures Run(ws, es) && ws[0] == w && es == [ExecDone, Fork(1), Yield(1), Exit(code, 0), Kill(1)]
    ensures CodeUnread(ws[4], code) && CodeUnread(ws[5], -9)
  {
    hide Enabled, Apply, Init, Inv, ChildAlone;
    ws, es := ChildRuns(w);
    ChildExits(ws[3], code);
    RunGrows(ws, es, Exit(code, 0));
    var z := Apply(ws[3], Exit(code, 0));
    ws, es := ws + [z], es + [Exit(code, 0)];
    RunKeepsInv(ws, es, 4);
    ZombieCanBeKilled(z, 1);
    CodeOverwritten(z, code);
    RunGrows(ws, es, Kill(1));
    ws, es := ws + [Apply(z, Kill(1))], es + [Kill(1)];
  }

  /** do_kill(pid) finds the process in slot pid, if that slot is in use, and nobody otherwise. */
  lemma KillFindsPid(w: World, pid: int, i: int)
    requires Inv(w) && Target(w.t, pid, i)
    ensures i == if 0 <= pid < |w.t.procs| && !w.t.procs[pid].state.Unused? then pid else -1
  {
    hide Queued, NoLostWakeup, Semaphores, History;
    if 0 <= pid < |w.t.procs| && !w.t.procs[pid].state.Unused? { assert w.t.procs[pid].pid == pid; }
  }

  lemma DieKeepsCodes(t: Table, p: nat)
    requires p < |t.procs|
    ensures forall j :: 0 <= j < |t.procs| ==> Die(t, p).procs[j].exitCode == t.procs[j].exitCode
  {
  }

  lemma KillMakesZombie(w: World, i: nat, j: nat)
    requires Inv(w) && Enabled(w, Kill(i)) && i < |w.t.procs| && j < |w.t.procs| && !w.t.procs[j].state.Zombie?
    ensures var t' := Apply(w, Kill(i)).t;
            |t'.procs| == |w.t.procs| && t'.procs[j].ctime == w.t.procs[j].ctime
            && (t'.procs[j].state.Zombie? ==> j == i && t'.procs[j].exitCode == -9)
  {
    hide Core, Die, Chosen;
    CoreParts(w);
    var c := WithCode(w.t, i, -9);
    DieFacts(c, i);
    assert DeathAt(c, Die(c, i), i, j);
    DieKeepsCodes(c, i);
  }

  lemma YieldMakesNoZombie(t: Table, n: int, j: nat)
    requires Shape(t) && t.current >= 0 && -1 <= n < |t.procs| && j < |t.procs|
             && (n >= 0 ==> t.procs[n].state.Runnable?)
    ensures YieldTo(t, n).procs[j].state.Zombie? <==> t.procs[j].state.Zombie?
    ensures YieldTo(t, n).procs[j].exitCode == t.procs[j].exitCode && YieldTo(t, n).procs[j].ctime == t.procs[j].ctime
  {
  }

  lemma ExitMakesZombie(w: World, code: int, n: int, j: nat)
    requires Inv(w) && Enabled(w, Exit(code, n)) && j < |w.t.procs| && !w.t.procs[j].state.Zombie?
    ensures var t' := Apply(w, Exit(code, n)).t;
            |t'.procs| == |w.t.procs| && t'.procs[j].ctime == w.t.procs[j].ctime
            && (t'.procs[j].state.Zombie? ==> j == w.t.current && t'.procs[j].exitCode == code)
  {
    hide Core, YieldTo, Die, Chosen;
    CoreParts(w);
    FreeRuns(w);
    var cur := w.t.current;
    var c := WithCode(w.t, cur, code);
    DieFacts(c, cur);
    var d := Die(c, cur);
    assert DeathAt(c, d, cur, j);
    ChosenIsRunnable(d, n);
    YieldMakesNoZombie(d, n, j);
    DieKeepsCodes(c, cur);
  }

  lemma ForkMakesNoZombie(t: Table, i: int, j: nat)
    requires Shape(t) && t.current >= 0 && i == FreeSlot(t.procs) && j < |t.procs|
    ensures i >= 0 && Forked(t, i).procs[j].state.Zombie? ==> t.procs[j].state.Zombie?
  {
  }

  lemma WakeMakesNoZombie(t: Table, chan: Ptr, j: nat)
    requires j < |t.procs|
    ensures |Wakeup(t, chan).procs| == |t.procs| && (Wakeup(t, chan).procs[j].state.Zombie? ==>
            t.procs[j].state.Zombie?)
  {
  }

  /** A slot becomes a zombie by its own exit or by a kill, with the code of that step. */
  lemma BecomesZombie(w: World, e: Event, j: nat)
    requires Inv(w) && Enabled(w, e) && j < |w.t.procs| && !w.t.procs[j].state.Zombie?
    requires |Apply(w, e).t.procs| == |w.t.procs| && Apply(w, e).t.procs[j].state.Zombie?
    ensures Hits(w, e, w.t.procs[j].ctime) && Apply(w, e).t.procs[j].exitCode == CodeOf(e)
    ensures Apply(w, e).t.procs[j].ctime == w.t.procs[j].ctime
  {
    hide Core, YieldTo, Die, Chosen, Wakeup, Forked;
    CoreParts(w);
    var cur := w.t.current;
    match e {
      case Tick =>
      case Yield(n) => ChosenIsRunnable(w.t, n); YieldMakesNoZombie(w.t, n, j);
      case Fork(i) => ForkMakesNoZombie(w.t, i, j);
      case Exit(code, n) => ExitMakesZombie(w, code, n, j);
      case WaitSleep(n) => var d := Asleep(w.t, ToProc(cur)); ChosenIsRunnable(d, n); YieldMakesNoZombie(d, n, j);
      case SemSleep(n) => var d := Asleep(w.t, ToSem(w.pc[cur].s)); ChosenIsRunnable(d, n); YieldMakesNoZombie(d, n, j);
      case Signal(s) => WakeMakesNoZombie(w.t, ToSem(s), j);
      case Kill(i) => KillMakesZombie(w, i, j);
      case _ =>
    }
  }

  // --- runs ---------------------------------------------------------------------------------------------------------

  lemma LastCodeKept(ws: seq<World>, es: seq<Event>, k: nat, c: nat, code: int)
    requires |ws| == |es| + 1 && k + 1 < |ws| && LastCode(ws, es, k, c, code) && !Hits(ws[k], es[k], c)
    ensures LastCode(ws, es, k + 1, c, code)
  {
    hide Hits;
    var m :| 0 <= m < k && Hits(ws[m], es[m], c) && code == CodeOf(es[m]) && Unhit(ws, es, m + 1, k, c);
    assert Unhit(ws, es, m + 1, k + 1, c);
  }

  lemma LastCodeNow(ws: seq<World>, es: seq<Event>, k: nat, c: nat)
    requires |ws| == |es| + 1 && k + 1 < |ws| && Hits(ws[k], es[k], c)
    ensures LastCode(ws, es, k + 1, c, CodeOf(es[k]))
  {
    assert Unhit(ws, es, k + 1, k + 1, c);
  }

  lemma NoZombieAtFirst(w: World, j: nat)
    requires Init(w) && j < |w.t.procs|
    ensures !w.t.procs[j].state.Zombie?
  {
  }

  lemma KillTarget(w: World, e: Event)
    requires Enabled(w, e) && e.Kill?
    ensures e.i < |w.t.procs| && !w.t.procs[e.i].state.Unused?
  {
  }

  lemma ReapedIsNoZombie(w: World, e: Event, j: nat)
    requires Enabled(w, e) && j < |w.t.procs| && |Apply(w, e).t.procs| == |w.t.procs|
             && Apply(w, e).t.procs[j].state.Zombie?
    ensures e != WaitReap(j)
  {
  }

  /** A zombie that stays one: hit exactly when it is killed again. */
  lemma ZombieStep(w: World, e: Event, j: nat)
    requires Inv(w) && Enabled(w, e) && j < |w.t.procs| && w.t.procs[j].state.Zombie?
    requires |Apply(w, e).t.procs| == |w.t.procs| && Apply(w, e).t.procs[j].state.Zombie?
    ensures Hits(w, e, w.t.procs[j].ctime) <==> e == Kill(j)
    ensures Apply(w, e).t.procs[j].ctime == w.t.procs[j].ctime
    ensures e == Kill(j) ==> Apply(w, e).t.procs[j].exitCode == CodeOf(e)
    ensures e != Kill(j) ==> Apply(w, e).t.procs[j].exitCode == w.t.procs[j].exitCode
  {
    ReapedIsNoZombie(w, e, j);
    StepKin(w, e, j);
    if e == Kill(j) { KilledCode(w, j); }
    hide Apply;
    if e.Exit? { FreeRuns(w); }
    if e.Kill? { KillTarget(w, e); }
  }

  /** A zombie holds the code that its last exit or kill left. */
  lemma {:induction false} ZombieHoldsLastCode(ws: seq<World>, es: seq<Event>, k: nat, j: nat)
    requires Run(ws, es) && k < |ws| && j < |ws[k].t.procs| && ws[k].t.procs[j].state.Zombie?
    ensures LastCode(ws, es, k, ws[k].t.procs[j].ctime, ws[k].t.procs[j].exitCode)
    decreases k
  {
    hide Inv, Enabled, Apply, Hits, LastCode, Init;
    if k == 0 {
      NoZombieAtFirst(ws[0], j);
    } else {
      var w, e := ws[k - 1], es[k - 1];
      RunKeepsInv(ws, es, k - 1);
      StepShape(w, e);
      if w.t.procs[j].state.Zombie? {
        ZombieHoldsLastCode(ws, es, k - 1, j);
        ZombieStep(w, e, j);
        if e == Kill(j) {
          LastCodeNow(ws, es, k - 1, w.t.procs[j].ctime);
        } else {
          LastCodeKept(ws, es, k - 1, w.t.procs[j].ctime, w.t.procs[j].exitCode);
        }
      } else {
        BecomesZombie(w, e, j);
        LastCodeNow(ws, es, k - 1, w.t.procs[j].ctime);
      }
    }
  }

  lemma NoReapAtFirst(w: World)
    requires Init(w)
    ensures w.reaps == []
  {
  }

  lemma ReapsGrow(w: World, e: Event)
    requires Inv(w) && Enabled(w, e)
    ensures if e.WaitReap? then
              && e.i < |w.t.procs|
              && Apply(w, e).reaps == w.reaps + [Reap(w.t.procs[e.i].ctime, w.t.procs[w.t.current].ctime,
                 w.t.procs[e.i].exitCode)]
            else Apply(w, e).reaps == w.reaps
  {
    hide Core, YieldTo, Die, Chosen;
  }

  lemma ReapOfZombie(w: World, e: Event)
    requires Enabled(w, e) && e.WaitReap?
    ensures e.i < |w.t.procs| && w.t.procs[e.i].state.Zombie? && !Hits(w, e, w.t.procs[e.i].ctime)
  {
  }

  /** An incarnation that was reaped holds no slot, so no exit or kill is its own. */
  lemma ReapedIsNotHit(w: World, e: Event, r: nat)
    requires Inv(w) && Enabled(w, e) && r < |w.reaps|
    ensures !Hits(w, e, w.reaps[r].child)
  {
    if e.Exit? { FreeRuns(w); }
    if e.Kill? { KillTarget(w, e); }
  }

  /**
   In every run a reap hands the parent the code of the child's last exit or kill: nothing else ever wrote it, and after
   the reap nothing hits that incarnation again.
   */
  lemma {:induction false} ReapHandsOverLastCode(ws: seq<World>, es: seq<Event>, k: nat, r: nat)
    requires Run(ws, es) && k < |ws| && r < |ws[k].reaps|
    ensures LastCode(ws, es, k, ws[k].reaps[r].child, ws[k].reaps[r].code)
    decreases k
  {
    hide Inv, Enabled, Apply, Hits, LastCode, Init;
    if k == 0 {
      NoReapAtFirst(ws[0]);
    } else {
      var w, e := ws[k - 1], es[k - 1];
      RunKeepsInv(ws, es, k - 1);
      ReapsGrow(w, e);
      if r < |w.reaps| {
        ReapHandsOverLastCode(ws, es, k - 1, r);
        ReapedIsNotHit(w, e, r);
        LastCodeKept(ws, es, k - 1, w.reaps[r].child, w.reaps[r].code);
      } else {
        ReapOfZombie(w, e);
        ZombieHoldsLastCode(ws, es, k - 1, e.i);
        LastCodeKept(ws, es, k - 1, w.t.procs[e.i].ctime, w.t.procs[e.i].exitCode);
      }
    }
  }
}
