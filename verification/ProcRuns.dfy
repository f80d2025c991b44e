/**
 Runs of the process table: what holds in every state the kernel can reach.

 A world is the table together with where each process is in the kernel code (`pc`), the semaphores, and a record of
 who created and who reaped each incarnation of a slot, an incarnation being named by its ctime.
 */
module ProcRuns {
  import opened Processes

  /** Where a process is: in user code, in the loop of wait(q), in the loop of sem_wait, or past exit. */
  datatype Pc = Free | InWait(q: int) | InSem(s: nat) | Dead

  datatype Sem = Sem(count: int, init: int, signals: nat, waits: nat)

  datatype Reap = Reap(child: nat, parent: nat, code: int)

  datatype World = World(t: Table, pc: seq<Pc>, sems: seq<Sem>, creator: map<nat, nat>, reaps: seq<Reap>)

  /** What the current process does up to its next switch; n is the choice of the scheduler, i a slot. */
  datatype Event =
    | Tick
    | Yield(n: int)
    | Fork(slot: int)
    | ExecDone
    | Exit(code: int, n: int)
    | EnterWait(q: int)
    | WaitReap(i: nat)
    | WaitNone
    | WaitSleep(n: int)
    | EnterSem(s: nat)
    | SemTake
    | SemSleep(n: int)
    | Signal(s: nat)
    | Kill(i: nat)

  // --- the invariant --------------------------------------------------------------------------------------------

  /** Stamps do not reach 2^64 - 1 in the runs considered. */
  ghost predicate Sized(w: World) {
    && Shape(w.t) && w.t.current >= 0 && |w.pc| == |w.t.procs| && 0 <= w.t.algorithm <= 2
    && w.t.enqClock + |w.t.procs| + 1 < TIME_MAX
  }

  ghost predicate Queued(t: Table) {
    && (forall i :: 0 <= i < |t.procs| && t.procs[i].state.Runnable? ==> t.procs[i].enqTime < t.enqClock)
    && (forall i, j :: 0 <= i < j < |t.procs| && t.procs[i].state.Runnable? && t.procs[j].state.Runnable? ==>
          t.procs[i].enqTime != t.procs[j].enqTime)
  }

  /** Slot i's parent pointer, if any, names a live slot that was created earlier. */
  ghost predicate ParentOk(t: Table, i: nat)
    requires i < |t.procs|
  {
    match t.procs[i].parent
    case Null => true
    case ToSem(_) => false
    case ToProc(p) => p < |t.procs| && Live(t.procs[p]) && t.procs[p].ctime < t.procs[i].ctime
  }

  ghost predicate Forest(t: Table) {
    && (forall i :: 0 <= i < |t.procs| ==> ParentOk(t, i))
    && (forall i :: 0 <= i < |t.procs| && !t.procs[i].state.Unused? ==>
       t.procs[i].pid == i && t.procs[i].ctime < t.nextCtime)
    && (forall i, j :: 0 <= i < j < |t.procs| && !t.procs[i].state.Unused? && !t.procs[j].state.Unused? ==>
          t.procs[i].ctime != t.procs[j].ctime)
  }

  /** A process that sleeps does so inside wait, on its own channel, or inside sem_wait, on the semaphore's. */
  ghost predicate SleeperOk(w: World, i: nat)
    requires i < |w.t.procs| && i < |w.pc|
  {
    && (w.t.procs[i].state.Blocked? ==>
          match w.pc[i]
          case InWait(_) => w.t.procs[i].chan == ToProc(i)
          case InSem(s) => w.t.procs[i].chan == ToSem(s)
          case _ => false)
    && (w.pc[i].Dead? <==> !Live(w.t.procs[i]))
    && (w.pc[i].InSem? ==> w.pc[i].s < |w.sems|)
  }

  ghost predicate Sleepers(w: World) {
    |w.pc| == |w.t.procs| && forall i :: 0 <= i < |w.t.procs| ==> SleeperOk(w, i)
  }

  /** Nobody sleeps over something that has already happened. */
  ghost predicate NotOverslept(w: World, i: nat)
    requires i < |w.t.procs| && i < |w.pc| && SleeperOk(w, i)
  {
    w.t.procs[i].state.Blocked? ==>
      match w.pc[i]
      case InWait(q) => NoZombieChild(w.t, i, q)
      case InSem(s) => w.sems[s].count <= 0
      case _ => true
  }

  ghost predicate NoLostWakeup(w: World) {
    Sleepers(w) && forall i :: 0 <= i < |w.t.procs| ==> NotOverslept(w, i)
  }

  /** The count of a semaphore is what its history says. */
  ghost predicate Counted(s: Sem) {
    s.count == s.init + s.signals - s.waits && (s.init >= 0 ==> s.count >= 0)
  }

  ghost predicate Semaphores(w: World) { forall s :: 0 <= s < |w.sems| ==> Counted(w.sems[s]) }

  /** The slot a parent pointer names still holds the incarnation that forked the child. */
  ghost predicate ParentIsCreator(w: World, i: nat)
    requires i < |w.t.procs|
  {
    w.t.procs[i].parent.ToProc? ==>
      var p := w.t.procs[i].parent.slot;
      && p < |w.t.procs| && w.t.procs[i].ctime in w.creator
      && w.creator[w.t.procs[i].ctime] == w.t.procs[p].ctime
  }

  ghost predicate History(w: World) {
    && (forall c :: c in w.creator ==> c < w.t.nextCtime)
    && (forall i :: 0 <= i < |w.t.procs| ==> ParentIsCreator(w, i))
    && (forall k :: 0 <= k < |w.reaps| ==>
          w.reaps[k].child in w.creator && w.creator[w.reaps[k].child] == w.reaps[k].parent)
    && (forall k, i :: 0 <= k < |w.reaps| && 0 <= i < |w.t.procs| && !w.t.procs[i].state.Unused? ==>
          w.reaps[k].child != w.t.procs[i].ctime)
    && (forall k, l :: 0 <= k < l < |w.reaps| ==> w.reaps[k].child != w.reaps[l].child)
  }

  /** Everything but which process runs; it holds in the middle of an operation too. */
  ghost predicate Core(w: World) {
    Shape(w.t) && Queued(w.t) && Forest(w.t) && NoLostWakeup(w) && Semaphores(w) && History(w)
  }

  /** Only current can be RUNNING. */
  ghost predicate Alone(t: Table) {
    && 0 <= t.current < |t.procs|
    && (t.procs[t.current].state.Running? || t.procs[t.current].state.Blocked? || t.procs[t.current].state.Zombie?)
    && (forall i :: 0 <= i < |t.procs| && i != t.current ==> !t.procs[i].state.Running?)
  }

  /** Current runs, unless it is stuck in its spin because nothing is RUNNABLE. */
  ghost predicate RunsOrStuck(t: Table) {
    Alone(t) && (!t.procs[t.current].state.Running? ==> forall i :: 0 <= i < |t.procs| ==> !t.procs[i].state.Runnable?)
  }

  /** Current, when it is stuck inside wait, has what wait counts as kids. */
  ghost predicate StuckHasKids(w: World) {
    0 <= w.t.current < |w.t.procs| && w.t.current < |w.pc|
    && (w.t.procs[w.t.current].state.Blocked? && w.pc[w.t.current].InWait? ==>
       HasKids(w.t, w.t.current, w.pc[w.t.current].q))
  }

  ghost predicate Inv(w: World) { Core(w) && RunsOrStuck(w.t) && StuckHasKids(w) }

  // --- steps ---------------------------------------------------------------------------------------------------

  function AsleepIn(w: World, chan: Ptr): (w': World)
    requires Shape(w.t) && w.t.current >= 0
  {
    w.(t := Asleep(w.t, chan))
  }

  function Died(w: World, p: nat): World
    requires p < |w.t.procs| && p < |w.pc|
  {
    w.(t := Die(w.t, p), pc := w.pc[p := Dead])
  }

  function Coded(w: World, p: nat, code: int): World
    requires p < |w.t.procs|
  {
    w.(t := WithCode(w.t, p, code))
  }

  function Born(w: World, i: nat): World
    requires Shape(w.t) && w.t.current >= 0 && i < |w.t.procs| && i < |w.pc|
  {
    w.(t := Forked(w.t, i), pc := w.pc[i := Free], creator := w.creator[w.t.nextCtime := w.t.procs[w.t.current].ctime])
  }

  function Reaped(w: World, i: nat): World
    requires 0 <= w.t.current < |w.t.procs| && w.t.current < |w.pc| && i < |w.t.procs|
  {
    w.(t := WithState(w.t, i, Unused), pc := w.pc[w.t.current := Free],
       reaps := w.reaps + [Reap(w.t.procs[i].ctime, w.t.procs[w.t.current].ctime, w.t.procs[i].exitCode)])
  }

  function Signalled(w: World, s: nat): World
    requires s < |w.sems|
  {
    w.(sems := w.sems[s := w.sems[s].(count := w.sems[s].count + 1, signals := w.sems[s].signals + 1)], t :=
        Wakeup(w.t, ToSem(s)))
  }

  function At(w: World, pc: Pc): World
    requires 0 <= w.t.current < |w.pc|
  {
    w.(pc := w.pc[w.t.current := pc])
  }

  ghost predicate Enabled(w: World, e: Event) {
    Sized(w) &&
    var cur := w.t.current;
    var free := w.pc[cur].Free?;
    match e
    case Tick => true
    case Yield(n) => free && Chosen(w.t, n)
    case Fork(i) => free && i == FreeSlot(w.t.procs)
    case ExecDone => free
    case Exit(code, n) => free && (var t := Die(WithCode(w.t, cur, code), cur); Shape(t) && Chosen(t, n))
    case EnterWait(q) => free
    case WaitReap(i) => w.pc[cur].InWait? && ReapedBy(w.t, cur, w.pc[cur].q, i)
    case WaitNone => w.pc[cur].InWait? && !HasKids(w.t, cur, w.pc[cur].q)
    case WaitSleep(n) =>
      w.pc[cur].InWait? && NoZombieChild(w.t, cur, w.pc[cur].q) && HasKids(w.t, cur, w.pc[cur].q)
      && Chosen(Asleep(w.t, ToProc(cur)), n)
    case EnterSem(s) => free && s < |w.sems|
    case SemTake => w.pc[cur].InSem? && w.pc[cur].s < |w.sems| && w.sems[w.pc[cur].s].count > 0
    case SemSleep(n) =>
      w.pc[cur].InSem? && w.pc[cur].s < |w.sems| && w.sems[w.pc[cur].s].count <= 0
      && Chosen(Asleep(w.t, ToSem(w.pc[cur].s)), n)
    case Signal(s) => free && s < |w.sems|
    case Kill(i) => free && i < |w.t.procs| && i != cur && w.t.procs[i].user && Target(w.t, w.t.procs[i].pid, i)
  }

  /** The scheduler's choice is a slot or -1. */
  ghost function ChoiceRange(t: Table, n: int): (m: int)
    requires Shape(t) && Chosen(t, n)
    ensures m == n && -1 <= n < |t.procs|
  {
    n
  }

  ghost function Apply(w: World, e: Event): World
    requires Enabled(w, e)
  {
    var cur := w.t.current;
    match e
    case Tick => w.(t := Ticked(w.t))
    case Yield(n) => w.(t := YieldTo(w.t, ChoiceRange(w.t, n)))
    case Fork(i) => if i == -1 then w else Born(w, i)
    case ExecDone => w.(t := w.t.(procs := w.t.procs[cur := w.t.procs[cur].(user := true)]))
    case Exit(code, n) =>
      var d := Died(Coded(w, cur, code), cur);
      d.(t := YieldTo(d.t, ChoiceRange(d.t, n)))
    case EnterWait(q) => At(w, InWait(q))
    case WaitReap(i) => Reaped(w, i)
    case WaitNone => At(w, Free)
    case WaitSleep(n) => var d := AsleepIn(w, ToProc(cur)); d.(t := YieldTo(d.t, ChoiceRange(d.t, n)))
    case EnterSem(s) => At(w, InSem(s))
    case SemTake =>
      var s := w.pc[cur].s;
      At(w, Free).(sems := w.sems[s := w.sems[s].(count := w.sems[s].count - 1, waits := w.sems[s].waits + 1)])
    case SemSleep(n) => var d := AsleepIn(w, ToSem(w.pc[cur].s)); d.(t := YieldTo(d.t, ChoiceRange(d.t, n)))
    case Signal(s) => Signalled(w, s)
    case Kill(i) => Died(Coded(w, i, -9), i)
  }

  // --- changes that touch no family tie ------------------------------------------------------------------------

  ghost predicate MilderProc(p: Proc, q: Proc) {
    && q.pid == p.pid && q.parent == p.parent && q.ctime == p.ctime
    && (q.state.Unused? <==> p.state.Unused?) && (q.state.Zombie? <==> p.state.Zombie?)
    && (q.state.Blocked? ==> p.state.Blocked? && q.chan == p.chan)
  }

  /** t' has the same families, the same dead and unused slots, and no new sleeper. */
  ghost predicate Milder(t: Table, t': Table) {
    && |t'.procs| == |t.procs| && t'.nextCtime == t.nextCtime
    && forall i :: 0 <= i < |t.procs| ==> MilderProc(t.procs[i], t'.procs[i])
  }

  lemma NoZombieChildKept(t: Table, t': Table, i: nat, q: int)
    requires Milder(t, t') && NoZombieChild(t, i, q)
    ensures NoZombieChild(t', i, q)
  {
    forall j | 0 <= j < |t'.procs| && Answers(t', j, i, q)
      ensures !t'.procs[j].state.Zombie?
    {
      assert MilderProc(t.procs[j], t'.procs[j]);
      assert Answers(t, j, i, q);
    }
  }

  lemma CoreKept(w: World, t': Table)
    requires Core(w) && Milder(w.t, t') && Queued(t') && Shape(t')
    ensures Core(w.(t := t'))
  {
    var w' := w.(t := t');
    forall i | 0 <= i < |t'.procs|
      ensures ParentOk(t', i) && SleeperOk(w', i) && NotOverslept(w', i) && ParentIsCreator(w', i)
    {
      assert ParentOk(w.t, i) && SleeperOk(w, i) && NotOverslept(w, i) && ParentIsCreator(w, i);
      assert MilderProc(w.t.procs[i], t'.procs[i]);
      if t'.procs[i].state.Blocked? && w.pc[i].InWait? {
        NoZombieChildKept(w.t, t', i, w.pc[i].q);
      }
    }
    assert forall i :: 0 <= i < |t'.procs| ==> MilderProc(w.t.procs[i], t'.procs[i]);
  }

  lemma ChosenIsRunnable(t: Table, n: int)
    requires Shape(t) && Chosen(t, n)
    ensures -1 <= n < |t.procs| && (n >= 0 ==> t.procs[n].state.Runnable?)
  {
  }

  lemma YieldIsMild(t: Table, n: int)
    requires Shape(t) && Alone(t) && Queued(t) && -1 <= n < |t.procs| && (n >= 0 ==> t.procs[n].state.Runnable?)
    ensures Milder(t, YieldTo(t, n)) && Queued(YieldTo(t, n))
  {
    var t' := YieldTo(t, n);
    forall i | 0 <= i < |t'.procs|
      ensures MilderProc(t.procs[i], t'.procs[i])
      ensures t'.procs[i].state.Runnable? ==>
                (i == t.current && t'.procs[i].enqTime == t.enqClock < t'.enqClock)
                || (t.procs[i].state.Runnable? && t'.procs[i].enqTime == t.procs[i].enqTime)
    {
    }
  }

  lemma YieldKeepsCore(w: World, n: int)
    requires Core(w) && Shape(w.t) && Queued(w.t) && Alone(w.t) && Chosen(w.t, n)
    ensures -1 <= n < |w.t.procs|
    ensures Core(w.(t := YieldTo(w.t, n)))
  {
    hide Core, Queued;
    ChosenIsRunnable(w.t, n);
    YieldIsMild(w.t, n);
    CoreKept(w, YieldTo(w.t, n));
  }

  /** The scheduler finds every RUNNABLE process: it gives up only when there is none. */
  lemma SchedulerIsTotal(t: Table, n: int)
    requires Shape(t) && Alone(t) && Queued(t) && 0 <= t.algorithm <= 2 && t.enqClock <= TIME_MAX && Chosen(t, n)
    ensures n >= 0 ==> n < |t.procs| && t.procs[n].state.Runnable? && n != t.current
    ensures n < 0 ==> n == -1 && forall i :: 0 <= i < |t.procs| ==> !t.procs[i].state.Runnable?
  {
  }

  lemma YieldSettles(w: World, n: int)
    requires Core(w) && Alone(w.t) && 0 <= w.t.algorithm <= 2 && w.t.enqClock <= TIME_MAX && Chosen(w.t, n)
    ensures -1 <= n < |w.t.procs|
    requires StuckHasKids(w)
    ensures Inv(w.(t := YieldTo(w.t, n)))
  {
    YieldKeepsCore(w, n);
    SchedulerIsTotal(w.t, n);
    var t' := YieldTo(w.t, n);
    if n < 0 {
      assert t' == w.t;
    }
  }

  // --- wakeup --------------------------------------------------------------------------------------------------

  lemma WokenStep(t: Table, chan: Ptr, k: nat)
    requires 0 < k <= |t.procs|
    ensures var u, v := Woken(t, chan, k - 1), Woken(t, chan, k);
            && |u.procs| == |v.procs| == |t.procs| && u.procs[k - 1] == t.procs[k - 1]
            && if t.procs[k - 1].state.Blocked? && t.procs[k - 1].chan == chan
               then v.procs == u.procs[k - 1 := v.procs[k - 1]] && v.procs[k - 1].state.Runnable?
                   && v.procs[k - 1].enqTime == u.enqClock
               else v == u
    ensures var u, v := Woken(t, chan, k - 1), Woken(t, chan, k);
            if t.procs[k - 1].state.Blocked? && t.procs[k - 1].chan == chan then v.enqClock == u.enqClock + 1
                else v.enqClock == u.enqClock
  {
  }

  lemma WokenZero(t: Table, chan: Ptr)
    ensures Woken(t, chan, 0) == t
  {
  }

  /** Woken processes join with stamps of their own. */
  lemma {:induction false} WokenQueued(t: Table, chan: Ptr, k: nat)
    requires Queued(t) && k <= |t.procs|
    ensures Queued(Woken(t, chan, k))
  {
    hide Woken;
    if k == 0 {
      WokenZero(t, chan);
    } else {
      WokenQueued(t, chan, k - 1);
      WokenStep(t, chan, k);
    }
  }

  lemma WakeupKeepsCore(w: World, chan: Ptr)
    requires Core(w)
    ensures Core(w.(t := Wakeup(w.t, chan)))
  {
    WokenQueued(w.t, chan, |w.t.procs|);
    var t' := Wakeup(w.t, chan);
    forall i | 0 <= i < |t'.procs|
      ensures MilderProc(w.t.procs[i], t'.procs[i])
    {
    }
    CoreKept(w, t');
  }

  lemma SignalKeepsCore(w: World, s: nat)
    requires Core(w) && s < |w.sems|
    ensures Core(Signalled(w, s))
  {
    WakeupKeepsCore(w, ToSem(s));
    var u := w.(t := Wakeup(w.t, ToSem(s)));
    var w' := Signalled(w, s);
    forall i | 0 <= i < |w'.t.procs|
      ensures SleeperOk(w', i) && NotOverslept(w', i) && ParentIsCreator(w', i)
    {
      assert SleeperOk(u, i) && NotOverslept(u, i) && ParentIsCreator(u, i);
      assert SleeperOk(w, i);
    }
    assert forall k :: 0 <= k < |w.sems| ==> Counted(w.sems[k]);
  }

  // --- falling asleep --------------------------------------------------------------------------------------------

  lemma AsleepKeepsSlot(w: World, chan: Ptr, i: nat)
    requires Core(w) && Alone(w.t) && Live(w.t.procs[w.t.current]) && i < |w.t.procs|
    requires match w.pc[w.t.current]
             case InWait(q) => chan == ToProc(w.t.current) && NoZombieChild(w.t, w.t.current, q)
             case InSem(s) => chan == ToSem(s) && s < |w.sems| && w.sems[s].count <= 0
             case _ => false
    ensures var w' := AsleepIn(w, chan);
            i < |w'.t.procs| && i < |w'.pc|
            && ParentOk(w'.t, i) && SleeperOk(w', i) && NotOverslept(w', i) && ParentIsCreator(w', i)
  {
    var w' := AsleepIn(w, chan);
    assert ParentOk(w.t, i) && SleeperOk(w, i) && NotOverslept(w, i) && ParentIsCreator(w, i);
    if w'.t.procs[i].state.Blocked? && w.pc[i].InWait? {
      forall j | 0 <= j < |w'.t.procs| && Answers(w'.t, j, i, w.pc[i].q)
        ensures !w'.t.procs[j].state.Zombie?
      {
        assert Answers(w.t, j, i, w.pc[i].q);
      }
    }
  }

  lemma AsleepKeepsCore(w: World, chan: Ptr)
    requires Core(w) && Alone(w.t) && Live(w.t.procs[w.t.current])
    requires match w.pc[w.t.current]
             case InWait(q) => chan == ToProc(w.t.current) && NoZombieChild(w.t, w.t.current, q)
             case InSem(s) => chan == ToSem(s) && s < |w.sems| && w.sems[s].count <= 0
             case _ => false
    ensures Core(AsleepIn(w, chan)) && Alone(AsleepIn(w, chan).t)
  {
    var w' := AsleepIn(w, chan);
    var cur := w.t.current;
    forall i | 0 <= i < |w'.t.procs|
      ensures ParentOk(w'.t, i) && SleeperOk(w', i) && NotOverslept(w', i) && ParentIsCreator(w', i)
    {
      AsleepKeepsSlot(w, chan, i);
    }
    hide ParentOk, SleeperOk, NotOverslept, NoLostWakeup;
    assert NoLostWakeup(w') by { SleepersTogether(w'); }
  }

  // --- death -----------------------------------------------------------------------------------------------------

  /** What Die(t, p) makes of slot i. */
  ghost predicate DeathAt(t: Table, t': Table, p: nat, i: nat)
    requires p < |t.procs| && i < |t.procs| && |t'.procs| == |t.procs|
  {
    var a, b := t.procs[i], t'.procs[i];
    && b.pid == a.pid && b.ctime == a.ctime
    && b.parent == (if a.parent == ToProc(p) then Null else a.parent)
    && if i == p then b.state.Zombie?
       else if a.state.Blocked? && a.chan == t.procs[p].parent then b.state.Runnable?
       else b.state == a.state && b.chan == a.chan
  }

  lemma DieFacts(t: Table, p: nat)
    requires Queued(t) && p < |t.procs|
    ensures var t' := Die(t, p);
            && t' == t.(procs := t'.procs, enqClock := t'.enqClock) && |t'.procs| == |t.procs|
            && Queued(t') && t'.enqClock <= t.enqClock + |t.procs|
            && (forall i :: 0 <= i < |t.procs| ==> DeathAt(t, t', p, i))
            && (Shape(t) ==> Shape(t'))
  {
    var z := WithState(t, p, Zombie);
    WokenQueued(z, z.procs[p].parent, |z.procs|);
    var u := Wakeup(z, z.procs[p].parent);
    var t' := Die(t, p);
    forall i | 0 <= i < |t.procs|
      ensures DeathAt(t, t', p, i) && t'.procs[i].priority == t.procs[i].priority
      ensures t'.procs[i].state == u.procs[i].state && t'.procs[i].enqTime == u.procs[i].enqTime
    {
    }
  }

  /** Whoever would miss the death of p has been woken by it. */
  lemma NoZombieAfterDeath(w: World, w': World, p: nat, i: nat, q: int)
    requires p < |w.t.procs| && i < |w.t.procs| && |w'.t.procs| == |w.t.procs|
    requires forall j :: 0 <= j < |w.t.procs| ==> DeathAt(w.t, w'.t, p, j)
    requires NoZombieChild(w.t, i, q) && w.t.procs[i].chan == ToProc(i)
    requires w.t.procs[i].state.Blocked? && w'.t.procs[i].state.Blocked?
    ensures NoZombieChild(w'.t, i, q)
  {
    assert DeathAt(w.t, w'.t, p, i);
    forall j | 0 <= j < |w'.t.procs| && Answers(w'.t, j, i, q)
      ensures !w'.t.procs[j].state.Zombie?
    {
      assert DeathAt(w.t, w'.t, p, j);
      assert Answers(w.t, j, i, q);
    }
  }

  lemma DieKeepsCore(w: World, p: nat)
    requires Core(w) && p < |w.t.procs| && !w.t.procs[p].state.Unused?
    ensures Core(Died(w, p))
  {
    hide Die;
    DieFacts(w.t, p);
    var w' := Died(w, p);
    assert forall i :: 0 <= i < |w.t.procs| ==> DeathAt(w.t, w'.t, p, i);
    assert SleeperOk(w, p);
    forall i | 0 <= i < |w'.t.procs|
      ensures ParentOk(w'.t, i) && SleeperOk(w', i) && NotOverslept(w', i) && ParentIsCreator(w', i)
    {
      assert ParentOk(w.t, i) && SleeperOk(w, i) && NotOverslept(w, i) && ParentIsCreator(w, i);
      assert DeathAt(w.t, w'.t, p, i);
      if w.t.procs[i].parent.ToProc? { assert DeathAt(w.t, w'.t, p, w.t.procs[i].parent.slot); }
      if w'.t.procs[i].state.Blocked? && w'.pc[i].InWait? {
        NoZombieAfterDeath(w, w', p, i, w.pc[i].q);
      }
    }
    forall i | 0 <= i < |w'.t.procs|
      ensures w'.t.procs[i].ctime == w.t.procs[i].ctime && w'.t.procs[i].pid == w.t.procs[i].pid
      ensures w'.t.procs[i].state.Unused? <==> w.t.procs[i].state.Unused?
    {
      assert DeathAt(w.t, w'.t, p, i);
    }
  }

  // --- birth and burial ------------------------------------------------------------------------------------------

  lemma BornKeepsForest(w: World, i: nat)
    requires Core(w) && Alone(w.t) && Live(w.t.procs[w.t.current]) && i < |w.t.procs| && w.t.procs[i].state.Unused?
    ensures Forest(Born(w, i).t)
  {
    var t' := Born(w, i).t;
    forall k | 0 <= k < |t'.procs|
      ensures ParentOk(t', k)
    {
      assert ParentOk(w.t, k);
    }
  }

  lemma BornKeepsHistory(w: World, i: nat)
    requires Core(w) && Alone(w.t) && Live(w.t.procs[w.t.current]) && i < |w.t.procs| && w.t.procs[i].state.Unused?
    ensures History(Born(w, i))
  {
    var w' := Born(w, i);
    forall k | 0 <= k < |w'.t.procs|
      ensures ParentIsCreator(w', k)
    {
      assert ParentOk(w.t, k) && ParentIsCreator(w, k);
    }
  }

  lemma BornKeepsSleepers(w: World, i: nat)
    requires Core(w) && Alone(w.t) && Live(w.t.procs[w.t.current]) && i < |w.t.procs| && w.t.procs[i].state.Unused?
    ensures NoLostWakeup(Born(w, i))
  {
    var w' := Born(w, i);
    forall k | 0 <= k < |w'.t.procs|
      ensures SleeperOk(w', k) && NotOverslept(w', k)
    {
      assert SleeperOk(w, k) && NotOverslept(w, k);
      if w'.t.procs[k].state.Blocked? && w'.pc[k].InWait? {
        forall j | 0 <= j < |w'.t.procs| && Answers(w'.t, j, k, w.pc[k].q)
          ensures !w'.t.procs[j].state.Zombie?
        {
          if j != i { assert Answers(w.t, j, k, w.pc[k].q); }
        }
      }
    }
  }

  lemma BornKeepsCore(w: World, i: nat)
    requires Core(w) && Alone(w.t) && Live(w.t.procs[w.t.current]) && i < |w.t.procs| && w.t.procs[i].state.Unused?
    ensures Core(Born(w, i))
  {
    hide Forest, History, NoLostWakeup;
    BornKeepsForest(w, i);
    BornKeepsHistory(w, i);
    BornKeepsSleepers(w, i);
  }

  lemma SleepersTogether(w: World)
    requires |w.pc| == |w.t.procs| && forall k :: 0 <= k < |w.t.procs| ==> SleeperOk(w, k) && NotOverslept(w, k)
    ensures NoLostWakeup(w)
  {
  }

  lemma ReapedKeepsSlot(w: World, i: nat, q: int, k: nat)
    requires Core(w) && Alone(w.t) && w.t.procs[w.t.current].state.Running? && ReapedBy(w.t, w.t.current, q, i)
             && k < |w.t.procs|
    ensures var w' := Reaped(w, i);
            k < |w'.t.procs| && k < |w'.pc|
            && ParentOk(w'.t, k) && SleeperOk(w', k) && NotOverslept(w', k) && ParentIsCreator(w', k)
  {
    var w' := Reaped(w, i);
    assert ParentOk(w.t, k) && SleeperOk(w, k) && NotOverslept(w, k) && ParentIsCreator(w, k);
    hide Core;
    if w'.t.procs[k].state.Blocked? && w'.pc[k].InWait? {
      forall j | 0 <= j < |w'.t.procs| && Answers(w'.t, j, k, w.pc[k].q)
        ensures !w'.t.procs[j].state.Zombie?
      {
        assert Answers(w.t, j, k, w.pc[k].q);
      }
    }
  }

  lemma ReapedKeepsCore(w: World, i: nat, q: int)
    requires Core(w) && Alone(w.t) && w.t.procs[w.t.current].state.Running? && ReapedBy(w.t, w.t.current, q, i)
    ensures Core(Reaped(w, i))
  {
    var w' := Reaped(w, i);
    forall k | 0 <= k < |w'.t.procs|
      ensures ParentOk(w'.t, k) && SleeperOk(w', k) && NotOverslept(w', k) && ParentIsCreator(w', k)
    {
      ReapedKeepsSlot(w, i, q, k);
    }
    hide ParentOk, SleeperOk, NotOverslept, NoLostWakeup;
    assert NoLostWakeup(w') by { SleepersTogether(w'); }
    assert ParentIsCreator(w, i);
  }

  // --- steps keep the invariant ------------------------------------------------------------------------------------

  /** The state proc_init leaves, with every semaphore initialised to some count. */
  ghost predicate Init(w: World) {
    && Booted(w.t) && |w.pc| == |w.t.procs| && w.pc[0] == Free && (forall i :: 1 <= i < |w.pc| ==> w.pc[i] == Dead)
    && (forall s :: 0 <= s < |w.sems| ==> w.sems[s] == Sem(w.sems[s].init, w.sems[s].init, 0, 0))
    && w.creator == map[] && w.reaps == []
  }

  lemma InitHolds(w: World)
    requires Init(w)
    ensures Inv(w)
  {
    assert w.t.procs[0].state.Running?;
    forall i | 0 <= i < |w.t.procs|
      ensures ParentOk(w.t, i) && SleeperOk(w, i) && NotOverslept(w, i) && ParentIsCreator(w, i)
    {
    }
  }

  /** A process that is not inside a loop of the kernel, and not dead, is running when it is current. */
  lemma FreeRuns(w: World)
    requires Inv(w) && w.pc[w.t.current].Free?
    ensures w.t.procs[w.t.current].state.Running?
  {
    assert SleeperOk(w, w.t.current);
  }

  lemma TickIsMild(t: Table)
    requires Shape(t)
    ensures var t' := Ticked(t);
            && t' == t.(procs := t'.procs, needResched := t'.needResched) && |t'.procs| == |t.procs|
            && forall i :: 0 <= i < |t.procs| ==>
                 MilderProc(t.procs[i], t'.procs[i]) && t'.procs[i].state == t.procs[i].state
                     && t'.procs[i].enqTime == t.procs[i].enqTime
  {
  }

  lemma HasKidsKept(t: Table, t': Table, cur: int, q: int)
    requires Milder(t, t') && HasKids(t, cur, q)
    ensures HasKids(t', cur, q)
  {
    var j :| 0 <= j < |t.procs| && Answers(t, j, cur, q);
    assert MilderProc(t.procs[j], t'.procs[j]);
    assert Answers(t', j, cur, q);
  }

  lemma CoreParts(w: World)
    requires Core(w)
    ensures Shape(w.t) && Queued(w.t) && Sleepers(w)
  {
  }

  lemma TickKeepsInv(w: World)
    requires Inv(w)
    ensures Inv(w.(t := Ticked(w.t)))
  {
    CoreParts(w);
    var t' := Ticked(w.t);
    hide Core;
    TickIsMild(w.t);
    CoreKept(w, t');
    var cur := w.t.current;
    if w.t.procs[cur].state.Blocked? && w.pc[cur].InWait? {
      HasKidsKept(w.t, t', cur, w.pc[cur].q);
    }
  }

  lemma SetFieldKeepsCore(w: World, p: nat, code: int, user: bool)
    requires Core(w) && p < |w.t.procs|
    ensures Core(w.(t := w.t.(procs := w.t.procs[p := w.t.procs[p].(exitCode := code, user := user)])))
  {
    CoreKept(w, w.t.(procs := w.t.procs[p := w.t.procs[p].(exitCode := code, user := user)]));
  }

  lemma ExitKeepsInv(w: World, code: int, n: int)
    requires Inv(w) && Enabled(w, Exit(code, n))
    ensures Inv(Apply(w, Exit(code, n)))
  {
    hide Core, Die, Chosen, YieldTo;
    var cur := w.t.current;
    FreeRuns(w);
    var c := Coded(w, cur, code);
    assert Core(c) by { SetFieldKeepsCore(w, cur, code, w.t.procs[cur].user); }
    CoreParts(c);
    var d := Died(c, cur);
    DieKeepsCore(c, cur);
    DieFacts(c.t, cur);
    CoreParts(d);
    forall i | 0 <= i < |d.t.procs| && i != cur
      ensures !d.t.procs[i].state.Running?
    {
      assert DeathAt(c.t, d.t, cur, i);
    }
    assert DeathAt(c.t, d.t, cur, cur);
    YieldSettles(d, n);
  }

  lemma KillKeepsInv(w: World, i: nat)
    requires Inv(w) && Enabled(w, Kill(i))
    ensures Inv(Apply(w, Kill(i)))
  {
    hide Core, Die;
    var cur := w.t.current;
    FreeRuns(w);
    var c := Coded(w, i, -9);
    assert Core(c) by { SetFieldKeepsCore(w, i, -9, w.t.procs[i].user); }
    CoreParts(c);
    DieKeepsCore(c, i);
    DieFacts(c.t, i);
    var d := Died(c, i);
    forall k | 0 <= k < |d.t.procs|
      ensures k != cur ==> !d.t.procs[k].state.Running?
      ensures k == cur ==> d.t.procs[k].state.Running?
    {
      assert DeathAt(c.t, d.t, i, k);
    }
    CoreParts(d);
  }

  lemma SleepKeepsInv(w: World, chan: Ptr, n: int)
    requires Inv(w) && 0 <= w.t.algorithm <= 2 && w.t.enqClock <= TIME_MAX && Live(w.t.procs[w.t.current])
    requires match w.pc[w.t.current]
             case InWait(q) => chan == ToProc(w.t.current) && NoZombieChild(w.t, w.t.current, q)
                  && HasKids(w.t, w.t.current, q)
             case InSem(s) => chan == ToSem(s) && s < |w.sems| && w.sems[s].count <= 0
             case _ => false
    requires Shape(w.t) && Chosen(Asleep(w.t, chan), n)
    ensures -1 <= n < |w.t.procs|
    ensures Inv(AsleepIn(w, chan).(t := YieldTo(Asleep(w.t, chan), n)))
  {
    hide Core, Chosen, YieldTo;
    var d := AsleepIn(w, chan);
    AsleepKeepsCore(w, chan);
    CoreParts(d);
    if w.pc[w.t.current].InWait? {
      var q := w.pc[w.t.current].q;
      var j :| 0 <= j < |w.t.procs| && Answers(w.t, j, w.t.current, q);
      assert Answers(d.t, j, w.t.current, q);
    }
    YieldSettles(d, n);
  }

  lemma WaitSleepKeepsInv(w: World, n: int)
    requires Inv(w) && Enabled(w, WaitSleep(n))
    ensures Inv(Apply(w, WaitSleep(n)))
  {
    hide Core, Chosen, YieldTo;
    CoreParts(w);
    assert SleeperOk(w, w.t.current);
    SleepKeepsInv(w, ToProc(w.t.current), n);
  }

  lemma SemSleepKeepsInv(w: World, n: int)
    requires Inv(w) && Enabled(w, SemSleep(n))
    ensures Inv(Apply(w, SemSleep(n)))
  {
    hide Core, Chosen, YieldTo;
    CoreParts(w);
    assert SleeperOk(w, w.t.current);
    SleepKeepsInv(w, ToSem(w.pc[w.t.current].s), n);
  }

  /** Moving current to another place in the kernel code while it runs. */
  lemma AtKeepsCore(w: World, pc: Pc)
    requires Core(w) && 0 <= w.t.current < |w.t.procs| && w.t.procs[w.t.current].state.Running?
    requires !pc.Dead? && (pc.InSem? ==> pc.s < |w.sems|)
    ensures Core(At(w, pc))
  {
    var w' := At(w, pc);
    forall i | 0 <= i < |w'.t.procs|
      ensures SleeperOk(w', i) && NotOverslept(w', i) && ParentIsCreator(w', i)
    {
      assert SleeperOk(w, i) && NotOverslept(w, i) && ParentIsCreator(w, i);
    }
  }

  /** A sleeper cannot find what it sleeps for. */
  lemma LoopExitRuns(w: World, e: Event)
    requires Inv(w) && Enabled(w, e) && (e.WaitReap? || e.WaitNone? || e.SemTake?)
    ensures w.t.procs[w.t.current].state.Running?
  {
    var cur := w.t.current;
    assert SleeperOk(w, cur) && NotOverslept(w, cur);
  }

  lemma YieldStep(w: World, n: int)
    requires Inv(w) && Enabled(w, Yield(n))
    ensures Inv(Apply(w, Yield(n)))
  {
    hide Core, Chosen, YieldTo;
    CoreParts(w);
    YieldSettles(w, n);
  }

  lemma ForkStep(w: World, i: int)
    requires Inv(w) && Enabled(w, Fork(i))
    ensures Inv(Apply(w, Fork(i)))
  {
    hide Core;
    CoreParts(w);
    FreeRuns(w);
    if i >= 0 { BornKeepsCore(w, i); }
  }

  lemma ExecStep(w: World)
    requires Inv(w) && Enabled(w, ExecDone)
    ensures Inv(Apply(w, ExecDone))
  {
    hide Core;
    FreeRuns(w);
    var cur := w.t.current;
    SetFieldKeepsCore(w, cur, w.t.procs[cur].exitCode, true);
    assert w.t.procs[cur].(exitCode := w.t.procs[cur].exitCode, user := true) == w.t.procs[cur].(user := true);
  }

  lemma ReapStep(w: World, i: nat)
    requires Inv(w) && Enabled(w, WaitReap(i))
    ensures Inv(Apply(w, WaitReap(i)))
  {
    hide Core;
    LoopExitRuns(w, WaitReap(i));
    ReapedKeepsCore(w, i, w.pc[w.t.current].q);
  }

  lemma SemTakeStep(w: World)
    requires Inv(w) && Enabled(w, SemTake)
    ensures Inv(Apply(w, SemTake))
  {
    LoopExitRuns(w, SemTake);
    AtKeepsCore(w, Free);
    var a := At(w, Free);
    var w' := Apply(w, SemTake);
    forall i | 0 <= i < |w'.t.procs|
      ensures SleeperOk(w', i) && NotOverslept(w', i) && ParentIsCreator(w', i)
    {
      assert SleeperOk(a, i) && NotOverslept(a, i) && ParentIsCreator(a, i);
    }
    assert forall s :: 0 <= s < |w.sems| ==> Counted(w.sems[s]);
  }

  lemma SignalStep(w: World, s: nat)
    requires Inv(w) && Enabled(w, Signal(s))
    ensures Inv(Apply(w, Signal(s)))
  {
    hide Core;
    CoreParts(w);
    FreeRuns(w);
    SignalKeepsCore(w, s);
    assert SleeperOk(w, w.t.current);
  }

  lemma StepKeepsInv(w: World, e: Event)
    requires Inv(w) && Enabled(w, e)
    ensures Inv(Apply(w, e))
  {
    hide Core, Chosen, YieldTo, Die, Wakeup, Ticked, Forked;
    CoreParts(w);
    match e {
      case Tick => TickKeepsInv(w);
      case Yield(n) => YieldStep(w, n);
      case Fork(i) => ForkStep(w, i);
      case ExecDone => ExecStep(w);
      case Exit(code, n) => ExitKeepsInv(w, code, n);
      case EnterWait(q) => FreeRuns(w); AtKeepsCore(w, InWait(q));
      case WaitReap(i) => ReapStep(w, i);
      case WaitNone => LoopExitRuns(w, e); AtKeepsCore(w, Free);
      case WaitSleep(n) => WaitSleepKeepsInv(w, n);
      case EnterSem(s) => FreeRuns(w); AtKeepsCore(w, InSem(s));
      case SemTake => SemTakeStep(w);
      case SemSleep(n) => SemSleepKeepsInv(w, n);
      case Signal(s) => SignalStep(w, s);
      case Kill(i) => KillKeepsInv(w, i);
    }
  }
}
