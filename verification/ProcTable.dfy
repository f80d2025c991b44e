/**
 proc.c: the process table as the kernel holds it, updated in place.

 Context switches are the change of `current`; an operation that switches ends there, so `exit` and one pass of
 `wait` or `sem_wait` each stop at their yield.
 */
module ProcTable {
  import opened Processes

  const TIME_SLICE_COUNT: nat := 1

  datatype Pass = Returned(value: int, status: int) | Slept

  class ProcTable {
    const procs: array<Proc>
    var current: int
    var nextPid: nat
    var nextCtime: nat
    var enqClock: nat
    var algorithm: int
    var needResched: bool
    /** sem->count of every semaphore; its channel is its own address. */
    const sems: array<int>

    ghost function View(): Table
      reads this, procs
    {
      Table(procs[..], current, nextPid, nextCtime, enqClock, algorithm, needResched)
    }

    ghost predicate Valid()
      reads this, procs
    {
      Shape(View())
    }

    /** The zeroed globals, with every slot UNUSED as proc_init leaves them. */
    constructor (n: nat, semaphores: nat, algorithm: int)
      requires n > 0
      ensures Valid() && fresh(procs) && procs.Length == n && fresh(sems) && sems.Length == semaphores
      ensures current == -1 && this.algorithm == algorithm
      ensures forall i :: 0 <= i < n ==> procs[i] == Proc(0, Unused, 0, 0, 0, 0, Null, 0, Null, false)
    {
      procs := new Proc[n](_ => Proc(0, Unused, 0, 0, 0, 0, Null, 0, Null, false));
      sems := new int[semaphores](_ => 0);
      current, nextPid, nextCtime, enqClock := -1, 0, 0, 0;
      this.algorithm := algorithm;
      needResched := false;
    }

    /** allocproc: -1 is the null pointer. */
    method AllocProc() returns (i: int)
      requires Valid()
      modifies this`nextCtime, this`enqClock, procs
      ensures i == FreeSlot(old(procs[..]))
      ensures View() == if i >= 0 then Allocated(old(View()), i) else old(View())
      ensures Valid()
    {
      var k := 0;
      while k < procs.Length
        invariant k <= procs.Length && View() == old(View())
        invariant forall j :: 0 <= j < k ==> !procs[j].state.Unused?
      {
        if procs[k].state.Unused? {
          procs[k] := Proc(k, Runnable, nextCtime, enqClock, if algorithm == 2 then 1
              else TIME_SLICE_COUNT, 0, PtrTo(current), 0, Null, false);
          nextCtime := nextCtime + 1;
          enqClock := enqClock + 1;
          return k;
        }
        k := k + 1;
      }
      return -1;
    }

    /** fork and fork_from_trap, apart from the registers and stacks they copy. */
    method Fork() returns (i: int)
      requires Valid() && current >= 0
      modifies this`nextCtime, this`enqClock, procs
      ensures i == FreeSlot(old(procs[..]))
      ensures View() == if i >= 0 then Forked(old(View()), i) else old(View())
      ensures Valid()
    {
      i := AllocProc();
      if i == -1 {
        return;
      }
      procs[i] := procs[i].(user := procs[current].user);
      procs[i] := procs[i].(state := Runnable);
      procs[i] := procs[i].(parent := PtrTo(current));
      assert procs[..] == Forked(old(View()), i).procs;
    }

    /** The loop of proc_init; the zeroed table has these states already. */
    method ClearStates()
      requires forall i :: 0 <= i < procs.Length ==> procs[i].state.Unused?
      modifies procs
      ensures View() == old(View())
    {
      var i := 0;
      while i < procs.Length
        invariant i <= procs.Length && View() == old(View())
      {
        procs[i] := procs[i].(state := Unused);
        i := i + 1;
      }
    }

    method RRSelect() returns (n: int)
      requires Valid()
      modifies this`nextPid
      ensures RoundRobin(old(View()), n)
      ensures nextPid == if n >= 0 && n != current then (n + 1) % procs.Length else old(nextPid)
    {
      var i := 0;
      while i < procs.Length
        invariant i <= procs.Length && nextPid == old(nextPid)
        invariant forall p :: 0 <= p < procs.Length && Distance(View(), p) < i && p != current ==>
                  !procs[p].state.Runnable?
      {
        var pid := (nextPid + i) % procs.Length;
        DistanceOfIndex(View(), i);
        if procs[pid].state.Runnable? && pid != current {
          nextPid := (pid + 1) % procs.Length;
          return pid;
        }
        i := i + 1;
      }
      if current >= 0 && procs[current].state.Runnable? {
        return current;
      }
      return -1;
    }

    method FCFSSelect() returns (n: int)
      requires Valid()
      ensures if StaleCurrent(View()) then n == current else FirstCome(View(), n)
    {
      n := -1;
      var minTime := TIME_MAX;
      var i := 0;
      while i < procs.Length
        invariant i <= procs.Length && -1 <= n < i
        invariant n == -1 ==> minTime == TIME_MAX
        invariant n >= 0 ==> procs[n].state.Runnable? && procs[n].enqTime == minTime < TIME_MAX
        invariant forall p :: 0 <= p < i && procs[p].state.Runnable? ==> minTime <= procs[p].enqTime
        invariant forall p :: 0 <= p < n && procs[p].state.Runnable? ==> minTime < procs[p].enqTime
      {
        if procs[i].state.Runnable? {
          if procs[i].enqTime < minTime {
            minTime := procs[i].enqTime;
            n := i;
          }
        }
        i := i + 1;
      }
      if n == -1 && current >= 0 && procs[current].state.Runnable? {
        n := current;
      }
    }

    method MLFQSelect() returns (n: int)
      requires Valid()
      ensures MultiLevel(View(), n)
    {
      var q := 0;
      while q < NQUEUE
        invariant q <= NQUEUE
        invariant forall p :: 0 <= p < procs.Length && procs[p].state.Runnable? ==> procs[p].priority >= q
      {
        var i := 0;
        while i < procs.Length
          invariant i <= procs.Length
          invariant forall p :: 0 <= p < i && procs[p].state.Runnable? ==> procs[p].priority > q
        {
          if procs[i].state.Runnable? && procs[i].priority == q {
            return i;
          }
          i := i + 1;
        }
        q := q + 1;
      }
      assert forall p :: 0 <= p < procs.Length ==> View().procs[p] == procs[p];
      if current >= 0 && procs[current].state.Runnable? {
        return current;
      }
      return -1;
    }

    method Scheduler() returns (n: int)
      requires Valid()
      modifies this`nextPid
      ensures -1 <= n < procs.Length
      ensures Chosen(old(View()), n) && View() == AfterSelect(old(View()), n) && Valid()
    {
      if algorithm == 0 {
        n := RRSelect();
      } else if algorithm == 1 {
        n := FCFSSelect();
      } else if algorithm == 2 {
        n := MLFQSelect();
      } else {
        n := -1;
      }
    }

    /** proc_init over the zeroed table, up to the jump into the first process. */
    method ProcInit() returns (n: int)
      requires Valid() && current == -1 && nextCtime == 0 && enqClock == 0 && 0 <= algorithm <= 2 && !needResched
      requires forall i :: 0 <= i < procs.Length ==> procs[i] == Proc(0, Unused, 0, 0, 0, 0, Null, 0, Null, false)
      modifies this, procs
      ensures Booted(View()) && algorithm == old(algorithm)
    {
      ClearStates();
      assert forall j :: 0 <= j < procs.Length ==> View().procs[j].state.Unused?;
      var first := AllocProc();
      ghost var t := View();
      assert t.procs[0].state.Runnable? && forall j :: 1 <= j < procs.Length ==> t.procs[j].state.Unused?;
      n := Scheduler();
      assert n == 0;
      current := n;
      if current >= 0 {
        procs[current] := procs[current].(state := Running);
        procs[current] := procs[current].(slice := if algorithm == 2 then 1 else 10);
      }
    }

    /** What yield does to the process it leaves, if that still runs. */
    method Preempt(prev: nat)
      requires prev < procs.Length
      modifies this`enqClock, procs
      ensures enqClock == old(enqClock) + 1
      ensures procs[..] == old(procs[..])[prev := Requeue(old(View()), old(procs[prev]))]
    {
      ghost var was := procs[..];
      procs[prev] := procs[prev].(state := Runnable);
      procs[prev] := procs[prev].(enqTime := enqClock);
      enqClock := enqClock + 1;
      if algorithm == 2 && !needResched {
        if procs[prev].priority > 0 {
          procs[prev] := procs[prev].(priority := procs[prev].priority - 1);
        }
        procs[prev] := procs[prev].(slice := 1);
      }
      assert procs[..] == was[prev := procs[prev]];
    }

    /** yield; n is the choice it acted on. */
    method Yield() returns (n: int)
      requires Valid()
      modifies this, procs
      ensures Chosen(old(View()), n) && View() == YieldTo(old(View()), n) && Valid()
    {
      hide Chosen;
      n := Scheduler();
      if n == -1 || n == current {
        return;
      }
      ghost var t := View();
      var prev := current;
      current := n;
      if prev >= 0 && procs[prev].state.Running? { Preempt(prev); }
      ghost var before := procs[..];
      procs[current] := procs[current].(state := Running);
      if algorithm != 2 {
        procs[current] := procs[current].(slice := 10);
      }
      assert procs[..] == before[n := procs[n]];
    }

    method SchedTick()
      requires Valid()
      modifies this`needResched, procs
      ensures View() == Ticked(old(View())) && Valid()
    {
      if current == -1 {
        return;
      }
      if procs[current].slice > 0 {
        procs[current] := procs[current].(slice := procs[current].slice - 1);
        if procs[current].slice == 0 {
          needResched := true;
          if algorithm == 2 {
            if procs[current].priority < NQUEUE - 1 {
              procs[current] := procs[current].(priority := procs[current].priority + 1);
            }
            procs[current] := procs[current].(slice := OneShifted(procs[current].priority));
          }
        }
      }
    }

    /** blocked(chan) for a running process. */
    method Block(chan: Ptr) returns (n: int)
      requires Valid() && current >= 0
      modifies this, procs
      ensures Chosen(Asleep(old(View()), chan), n) && View() == YieldTo(Asleep(old(View()), chan), n) && Valid()
    {
      hide Chosen, YieldTo;
      procs[current] := procs[current].(chan := chan);
      procs[current] := procs[current].(state := Blocked);
      assert procs[..] == Asleep(old(View()), chan).procs;
      n := Yield();
    }

    /** The body of the loop of wakeup. */
    method WakeOne(ghost t: Table, i: nat, chan: Ptr)
      requires i < procs.Length == |t.procs| && View() == Woken(t, chan, i)
      modifies this`enqClock, procs
      ensures View() == Woken(t, chan, i + 1)
    {
      ghost var before := View();
      if procs[i].state.Blocked? && procs[i].chan == chan {
        procs[i] := procs[i].(state := Runnable);
        procs[i] := procs[i].(chan := Null);
        procs[i] := procs[i].(enqTime := enqClock);
        enqClock := enqClock + 1;
        assert procs[..] == before.procs[i := procs[i]];
      }
    }

    method WakeUp(chan: Ptr)
      requires Valid()
      modifies this`enqClock, procs
      ensures View() == Wakeup(old(View()), chan) && Valid()
    {
      var i := 0;
      while i < procs.Length
        invariant i <= procs.Length
        invariant View() == Woken(old(View()), chan, i)
      {
        WakeOne(old(View()), i, chan);
        i := i + 1;
      }
    }

    /** for (...) if (procs[i].parent == p) procs[i].parent = 0 */
    method OrphanChildren(p: nat)
      requires Valid()
      modifies procs
      ensures View() == old(View()).(procs := Orphaned(old(procs[..]), p)) && Valid()
    {
      var i := 0;
      while i < procs.Length
        invariant i <= procs.Length
        invariant forall j :: 0 <= j < procs.Length ==>
                    procs[j] == if j < i then Orphaned(old(procs[..]), p)[j] else old(procs[j])
      {
        if procs[i].parent == ToProc(p) {
          procs[i] := procs[i].(parent := Null);
        }
        i := i + 1;
      }
      assert procs[..] == Orphaned(old(procs[..]), p);
    }

    /** exit, with the exit code sys_exit stored just before. */
    method Exit(code: int) returns (n: int)
      requires Valid() && current >= 0
      modifies this, procs
      ensures var t := Die(WithCode(old(View()), old(current), code), old(current));
              Shape(t) && Chosen(t, n) && View() == YieldTo(t, n) && Valid()
    {
      procs[current] := procs[current].(exitCode := code);
      procs[current] := procs[current].(state := Zombie);
      WakeUp(procs[current].parent);
      OrphanChildren(current);
      n := Yield();
    }

    /** One pass of the loop of wait(pid): it returns a pid and a status, or sleeps on its own channel. */
    method WaitPass(pid: int) returns (r: Pass, n: int)
      requires Valid() && current >= 0
      modifies this, procs
      ensures Valid()
      ensures r.Slept? <==> NoZombieChild(old(View()), old(current), pid) && HasKids(old(View()), old(current), pid)
      ensures r.Slept? ==>
                var t := Asleep(old(View()), ToProc(old(current)));
                Chosen(t, n) && View() == YieldTo(t, n)
      ensures r.Returned? && r.value == -1 ==>
                View() == old(View()) && NoZombieChild(old(View()), old(current), pid)
                    && !HasKids(old(View()), old(current), pid)
      ensures r.Returned? && r.value != -1 ==>
                exists i: nat :: ReapedBy(old(View()), old(current), pid, i)
                    && View() == WithState(old(View()), i, Unused)
                            && r.value == old(View()).procs[i].pid && r.status == old(View()).procs[i].exitCode
    {
      ghost var t := View();
      n := -1;
      var haveKids := false;
      var i := 0;
      while i < procs.Length
        invariant i <= procs.Length && View() == t
        invariant haveKids <==> exists j :: 0 <= j < i && Answers(t, j, current, pid)
        invariant forall j :: 0 <= j < i && Answers(t, j, current, pid) ==> !procs[j].state.Zombie?
      {
        assert t.procs[i] == procs[i];
        if procs[i].parent == ToProc(current) && (pid == -1 || procs[i].pid == pid) {
          assert Answers(t, i, current, pid);
          haveKids := true;
          if procs[i].state.Zombie? {
            var retPid, status := procs[i].pid, procs[i].exitCode;
            procs[i] := procs[i].(state := Unused);
            assert ReapedBy(t, current, pid, i);
            assert View() == WithState(t, i, Unused);
            return Returned(retPid, status), -1;
          }
        }
        i := i + 1;
      }
      if !haveKids {
        return Returned(-1, 0), -1;
      }
      n := Block(ToProc(current));
      r := Slept;
    }

    method DoKill(pid: int) returns (r: int)
      requires Valid()
      modifies this`enqClock, procs
      ensures Valid()
      ensures exists i :: Target(old(View()), pid, i)
                && r == (if pid >= 0 && i >= 0 && old(View()).procs[i].user && i != current then 0 else -1)
                && View() == if r == 0 then Die(WithCode(old(View()), i, -9), i) else old(View())
    {
      ghost var t := View();
      if pid < 0 {
        assert Target(t, pid, -1);
        return -1;
      }
      var i := 0;
      while i < procs.Length
        invariant i <= procs.Length && View() == t
        invariant forall j :: 0 <= j < i && procs[j].pid == pid ==> procs[j].state.Unused?
      {
        assert t.procs[i] == procs[i];
        if procs[i].pid == pid && !procs[i].state.Unused? {
          assert Target(t, pid, i);
          if !procs[i].user || i == current {
            return -1;
          }
          procs[i] := procs[i].(exitCode := -9);
          procs[i] := procs[i].(state := Zombie);
          assert View() == WithState(WithCode(t, i, -9), i, Zombie);
          WakeUp(procs[i].parent);
          OrphanChildren(i);
          return 0;
        }
        i := i + 1;
      }
      assert Target(t, pid, -1);
      return -1;
    }

    method SemInit(s: nat, value: int)
      requires s < sems.Length
      modifies sems
      ensures sems[..] == old(sems[..])[s := value]
    {
      sems[s] := value;
    }

    /** One pass of the loop of sem_wait: takes a unit, or sleeps. */
    method SemWaitPass(s: nat) returns (taken: bool, n: int)
      requires Valid() && current >= 0 && s < sems.Length
      modifies this, procs, sems
      ensures Valid() && taken == (old(sems[s]) > 0)
      ensures taken ==> sems[..] == old(sems[..])[s := old(sems[s]) - 1] && View() == old(View())
      ensures !taken ==> sems[..] == old(sems[..])
      ensures !taken ==> (var t := Asleep(old(View()), ToSem(s)); Chosen(t, n) && View() == YieldTo(t, n))
    {
      n := -1;
      if sems[s] <= 0 {
        n := Block(ToSem(s));
        return false, n;
      }
      sems[s] := sems[s] - 1;
      taken := true;
    }

    method SemSignal(s: nat)
      requires Valid() && s < sems.Length
      modifies this`enqClock, procs, sems
      ensures Valid() && sems[..] == old(sems[..])[s := old(sems[s]) + 1]
      ensures View() == Wakeup(old(View()), ToSem(s))
    {
      sems[s] := sems[s] + 1;
      WakeUp(ToSem(s));
    }
  }
}
