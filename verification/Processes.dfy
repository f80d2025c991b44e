/**
 The process table of proc.c as a value, and what each kernel operation does to it.

 The number of slots is any N > 0.  A pointer into the table, or to a semaphore, is a `Ptr`; the index -1 stands for
 the null `struct proc *`.
 */
module Processes {
  const NQUEUE: nat := 3
  const TIME_MAX: nat := 0xFFFF_FFFF_FFFF_FFFF

  datatype PState = Unused | Runnable | Running | Blocked | Zombie

  datatype Ptr = Null | ToProc(slot: nat) | ToSem(sem: nat)

  /** struct proc; `user` says whether pagetable is non-null. */
  datatype Proc = Proc(pid: nat, state: PState, ctime: nat, enqTime: nat, slice: nat, priority: nat,
                       parent: Ptr, exitCode: int, chan: Ptr, user: bool)

  datatype Table = Table(procs: seq<Proc>, current: int, nextPid: nat, nextCtime: nat, enqClock: nat,
                         algorithm: int, needResched: bool)

  ghost predicate Shape(t: Table) {
    && 0 < |t.procs| && -1 <= t.current < |t.procs| && t.nextPid < |t.procs|
    && (forall i :: 0 <= i < |t.procs| ==> t.procs[i].priority < NQUEUE)
  }

  predicate Live(p: Proc) { p.state.Runnable? || p.state.Running? || p.state.Blocked? }

  // --- scheduling ---------------------------------------------------------------------------------------------

  /** How far slot p is ahead of next_pid, going round. */
  function Distance(t: Table, p: nat): (d: nat)
    requires t.nextPid < |t.procs| && p < |t.procs|
    ensures d < |t.procs|
  {
    if p >= t.nextPid then p - t.nextPid else p + |t.procs| - t.nextPid
  }

  lemma WrapOnce(p: nat, n: nat)
    requires p < n
    ensures (p + n) % n == p
  {
  }

  lemma NextModulo(n: nat, size: nat)
    requires n < size
    ensures (n + 1) % size == if n + 1 == size then 0 else n + 1
  {
  }

  lemma DistanceOfIndex(t: Table, i: nat)
    requires t.nextPid < |t.procs| && i < |t.procs|
    ensures Distance(t, (t.nextPid + i) % |t.procs|) == i
  {
    if t.nextPid + i >= |t.procs| {
      WrapOnce(t.nextPid + i - |t.procs|, |t.procs|);
    }
  }

  /** RR_select: the RUNNABLE slot other than current that comes first from next_pid on. */
  ghost predicate RoundRobin(t: Table, n: int)
    requires Shape(t)
  {
    if n >= 0 && n != t.current then
      && n < |t.procs| && t.procs[n].state.Runnable?
      && forall p :: 0 <= p < |t.procs| && p != t.current && t.procs[p].state.Runnable? ==>
         Distance(t, n) <= Distance(t, p)
    else
      && (forall p :: 0 <= p < |t.procs| && p != t.current ==> !t.procs[p].state.Runnable?)
      && n == if t.current >= 0 && t.procs[t.current].state.Runnable? then t.current else -1
  }

  /** FCFS_select: the RUNNABLE slot queued longest ago, the lowest one on a tie. */
  ghost predicate FirstCome(t: Table, n: int) {
    if n >= 0 then
      && n < |t.procs| && t.procs[n].state.Runnable? && t.procs[n].enqTime < TIME_MAX
      && (forall p :: 0 <= p < |t.procs| && t.procs[p].state.Runnable? ==> t.procs[n].enqTime <= t.procs[p].enqTime)
      && (forall p :: 0 <= p < n && t.procs[p].state.Runnable? ==> t.procs[n].enqTime < t.procs[p].enqTime)
    else
      n == -1 && forall p :: 0 <= p < |t.procs| && t.procs[p].state.Runnable? ==> t.procs[p].enqTime >= TIME_MAX
  }

  /** MLFQ_select: the RUNNABLE slot of best priority, the lowest one on a tie. */
  ghost predicate MultiLevel(t: Table, n: int) {
    if n >= 0 then
      && n < |t.procs| && t.procs[n].state.Runnable?
      && (forall p :: 0 <= p < |t.procs| && t.procs[p].state.Runnable? ==> t.procs[n].priority <= t.procs[p].priority)
      && (forall p :: 0 <= p < n && t.procs[p].state.Runnable? ==> t.procs[n].priority < t.procs[p].priority)
    else
      n == -1 && forall p :: 0 <= p < |t.procs| ==> !t.procs[p].state.Runnable?
  }

  /** The case of FCFS_select's last line: only time stamps out of range are left, and current has one. */
  ghost predicate StaleCurrent(t: Table) {
    0 <= t.current < |t.procs| && t.procs[t.current].state.Runnable? && FirstCome(t, -1)
  }

  /** The process scheduler() returns. */
  ghost predicate Chosen(t: Table, n: int)
    requires Shape(t)
  {
    if t.algorithm == 0 then RoundRobin(t, n)
    else if t.algorithm == 1 then if StaleCurrent(t) then n == t.current else FirstCome(t, n)
    else if t.algorithm == 2 then MultiLevel(t, n)
    else n == -1
  }

  /** RR_select moves next_pid past its choice. */
  function AfterSelect(t: Table, n: int): Table {
    if t.algorithm == 0 && 0 <= n < |t.procs| && n != t.current then t.(nextPid := (n + 1) % |t.procs|) else t
  }

  /** yield's treatment of the process it leaves. */
  function Requeue(t: Table, p: Proc): Proc {
    var q := p.(state := Runnable, enqTime := t.enqClock);
    if t.algorithm == 2 && !t.needResched then q.(priority := if q.priority > 0 then q.priority - 1 else 0, slice := 1)
        else q
  }

  /** yield, when scheduler() chose n. */
  function YieldTo(t0: Table, n: int): (t': Table)
    requires Shape(t0) && -1 <= n < |t0.procs|
    ensures Shape(t') && |t'.procs| == |t0.procs|
  {
    var t := AfterSelect(t0, n);
    if n == -1 || n == t.current then t
    else
      var preempted := t.current >= 0 && t.procs[t.current].state.Running?;
      var procs := if preempted then t.procs[t.current := Requeue(t, t.procs[t.current])] else t.procs;
      var clock := if preempted then t.enqClock + 1 else t.enqClock;
      var next := procs[n].(state := Running);
      t.(procs := procs[n := if t.algorithm != 2 then next.(slice := 10) else next], current := n, enqClock := clock)
  }

  // --- the other operations -----------------------------------------------------------------------------------

  /** wakeup(chan), after the first k slots. */
  function Woken(t: Table, chan: Ptr, k: nat): (t': Table)
    requires k <= |t.procs|
    ensures |t'.procs| == |t.procs| && t' == t.(procs := t'.procs, enqClock := t'.enqClock)
    ensures forall i :: k <= i < |t.procs| ==> t'.procs[i] == t.procs[i]
    ensures forall i :: 0 <= i < k ==>
              if t.procs[i].state.Blocked? && t.procs[i].chan == chan
              then t.enqClock <= t'.procs[i].enqTime < t'.enqClock
                   && t'.procs[i] == t.procs[i].(state := Runnable, chan := Null, enqTime := t'.procs[i].enqTime)
              else t'.procs[i] == t.procs[i]
    ensures t.enqClock <= t'.enqClock <= t.enqClock + k
  {
    if k == 0 then t
    else
      var u := Woken(t, chan, k - 1);
      if u.procs[k - 1].state.Blocked? && u.procs[k - 1].chan == chan
      then u.(procs := u.procs[k - 1 := u.procs[k - 1].(state := Runnable, chan := Null, enqTime := u.enqClock)],
              enqClock := u.enqClock + 1)
      else u
  }

  function Wakeup(t: Table, chan: Ptr): Table { Woken(t, chan, |t.procs|) }

  /** The loop that orphans the children of slot p. */
  function Orphaned(procs: seq<Proc>, p: nat): (r: seq<Proc>)
    ensures |r| == |procs|
    ensures forall i :: 0 <= i < |procs| ==> r[i] == if procs[i].parent == ToProc(p) then procs[i].(parent := Null)
            else procs[i]
  {
    seq(|procs|, i requires 0 <= i < |procs| => if procs[i].parent == ToProc(p) then procs[i].(parent := Null)
        else procs[i])
  }

  /** Slot p becomes a zombie: exit up to its yield, and do_kill. */
  function Die(t: Table, p: nat): (t': Table)
    requires p < |t.procs|
    ensures |t'.procs| == |t.procs|
  {
    var z := t.(procs := t.procs[p := t.procs[p].(state := Zombie)]);
    var w := Wakeup(z, z.procs[p].parent);
    w.(procs := Orphaned(w.procs, p))
  }

  /** The first UNUSED slot, or -1. */
  function FreeSlot(procs: seq<Proc>): (i: int)
    ensures -1 <= i < |procs|
    ensures i >= 0 ==> procs[i].state.Unused? && forall j :: 0 <= j < i ==> !procs[j].state.Unused?
    ensures i == -1 ==> forall j :: 0 <= j < |procs| ==> !procs[j].state.Unused?
  {
    if procs == [] then -1
    else if procs[|procs| - 1].state.Unused? && FreeSlot(procs[..|procs| - 1]) == -1 then |procs| - 1
    else FreeSlot(procs[..|procs| - 1])
  }

  function PtrTo(slot: int): Ptr { if slot < 0 then Null else ToProc(slot) }

  /** allocproc in slot i. */
  function Allocated(t: Table, i: nat): (t': Table)
    requires i < |t.procs|
  {
    var p := Proc(i, Runnable, t.nextCtime, t.enqClock, 1, 0, PtrTo(t.current), 0, Null, false);
    t.(procs := t.procs[i := p], nextCtime := t.nextCtime + 1, enqClock := t.enqClock + 1)
  }

  /** Does the process in slot i answer wait(pid)? */
  predicate Answers(t: Table, i: nat, waiter: int, pid: int)
    requires i < |t.procs|
  {
    t.procs[i].parent == PtrTo(waiter) && waiter >= 0 && (pid == -1 || t.procs[i].pid == pid)
  }

  /** 1 << n */
  function OneShifted(n: nat): (r: nat)
    ensures r > 0
  {
    if n == 0 then 1 else 2 * OneShifted(n - 1)
  }

  /** sched_tick */
  function Ticked(t: Table): (t': Table)
    requires Shape(t)
    ensures Shape(t') && |t'.procs| == |t.procs|
  {
    if t.current < 0 || t.procs[t.current].slice == 0 then t
    else
      var p := t.procs[t.current].(slice := t.procs[t.current].slice - 1);
      if p.slice > 0 then t.(procs := t.procs[t.current := p])
      else if t.algorithm != 2 then t.(procs := t.procs[t.current := p], needResched := true)
      else
        var q := p.(priority := if p.priority < NQUEUE - 1 then p.priority + 1 else p.priority);
        t.(procs := t.procs[t.current := q.(slice := OneShifted(q.priority))], needResched := true)
  }

  /** blocked(chan) up to its yield. */
  function Asleep(t: Table, chan: Ptr): (t': Table)
    requires Shape(t) && t.current >= 0
    ensures Shape(t')
  {
    t.(procs := t.procs[t.current := t.procs[t.current].(chan := chan, state := Blocked)])
  }

  function WithCode(t: Table, p: nat, code: int): (t': Table)
    requires p < |t.procs|
    ensures |t'.procs| == |t.procs|
  {
    t.(procs := t.procs[p := t.procs[p].(exitCode := code)])
  }

  function WithState(t: Table, p: nat, s: PState): (t': Table)
    requires p < |t.procs|
    ensures |t'.procs| == |t.procs|
  {
    t.(procs := t.procs[p := t.procs[p].(state := s)])
  }

  /** i is the child that a pass of wait(pid) by slot w reaps. */
  ghost predicate ReapedBy(t: Table, w: int, pid: int, i: nat) {
    && i < |t.procs| && Answers(t, i, w, pid) && t.procs[i].state.Zombie?
    && forall j :: 0 <= j < i && Answers(t, j, w, pid) ==> !t.procs[j].state.Zombie?
  }

  ghost predicate NoZombieChild(t: Table, w: int, pid: int) {
    forall j :: 0 <= j < |t.procs| && Answers(t, j, w, pid) ==> !t.procs[j].state.Zombie?
  }

  /** The kids that wait counts: slots of any state, even UNUSED ones it has reaped before. */
  ghost predicate HasKids(t: Table, w: int, pid: int) {
    exists j :: 0 <= j < |t.procs| && Answers(t, j, w, pid)
  }

  /** The slot do_kill(pid) finds. */
  ghost predicate Target(t: Table, pid: int, i: int) {
    if i >= 0 then
      && i < |t.procs| && t.procs[i].pid == pid && !t.procs[i].state.Unused?
      && forall j :: 0 <= j < i && t.procs[j].pid == pid ==> t.procs[j].state.Unused?
    else
      i == -1 && forall j :: 0 <= j < |t.procs| && t.procs[j].pid == pid ==> t.procs[j].state.Unused?
  }

  /** fork in slot i: allocproc, then a clone of the caller's address space if it has one. */
  function Forked(t: Table, i: nat): (t': Table)
    requires Shape(t) && t.current >= 0 && i < |t.procs|
    ensures |t'.procs| == |t.procs|
  {
    var a := Allocated(t, i);
    a.(procs := a.procs[i := a.procs[i].(user := a.procs[t.current].user)])
  }

  /** What proc_init leaves: the init process running in slot 0, every other slot unused. */
  ghost predicate Booted(t: Table) {
    && Shape(t) && t.current == 0 && t.nextCtime == 1 && t.enqClock == 1 && !t.needResched
    && t.procs[0] == Proc(0, Running, 0, 0, if t.algorithm == 2 then 1 else 10, 0, Null, 0, Null, false)
    && forall i :: 1 <= i < |t.procs| ==> t.procs[i].state.Unused? && t.procs[i].parent.Null?
  }
}
