/**
 The scheduling policies of proc.c: first come first served is a FIFO queue, round robin passes nobody by for more
 than a lap.
 */
module Scheduling {
  import opened Processes
  import opened ProcRuns

  // --- first come, first served ----------------------------------------------------------------------------------

  /** q lists the RUNNABLE slots by increasing time stamp. */
  ghost predicate IsQueue(t: Table, q: seq<nat>) {
    && (forall k :: 0 <= k < |q| ==> q[k] < |t.procs| && t.procs[q[k]].state.Runnable?)
    && (forall i :: 0 <= i < |t.procs| && t.procs[i].state.Runnable? ==> i in q)
    && (forall a, b :: 0 <= a < b < |q| ==> t.procs[q[a]].enqTime < t.procs[q[b]].enqTime)
  }

  ghost predicate ByStamp(t: Table, q: seq<nat>) {
    && (forall k :: 0 <= k < |q| ==> q[k] < |t.procs|)
    && (forall a, b :: 0 <= a < b < |q| ==> t.procs[q[a]].enqTime < t.procs[q[b]].enqTime)
  }

  lemma EmptyTogether(q: seq<nat>, r: seq<nat>)
    requires forall x :: x in q <==> x in r
    ensures q == [] <==> r == []
  {
    if q != [] { assert q[0] in q; }
    if r != [] { assert r[0] in r; }
  }

  lemma TailWithoutHead(t: Table, q: seq<nat>, x: nat)
    requires ByStamp(t, q) && q != []
    ensures x in q[1..] <==> x in q && x != q[0]
  {
    if x in q[1..] {
      var k :| 0 <= k < |q[1..]| && q[1..][k] == x;
      assert q[k + 1] == x;
    }
    if x in q && x != q[0] {
      var k :| 0 <= k < |q| && q[k] == x;
      assert q[1..][k - 1] == x;
    }
  }

  lemma {:induction false} SortedSame(t: Table, q: seq<nat>, r: seq<nat>)
    requires ByStamp(t, q) && ByStamp(t, r) && forall x :: x in q <==> x in r
    ensures q == r
  {
    EmptyTogether(q, r);
    if q != [] {
      assert q[0] in r && r[0] in q;
      assert q[0] == r[0];
      forall x
        ensures x in q[1..] <==> x in q && x != q[0]
        ensures x in r[1..] <==> x in r && x != r[0]
      {
        TailWithoutHead(t, q, x);
        TailWithoutHead(t, r, x);
      }
      SortedSame(t, q[1..], r[1..]);
      assert q == [q[0]] + q[1..] && r == [r[0]] + r[1..];
    }
  }

  /** The queue is determined by the table. */
  lemma QueueIsUnique(t: Table, q: seq<nat>, r: seq<nat>)
    requires IsQueue(t, q) && IsQueue(t, r)
    ensures q == r
  {
    forall x
      ensures x in q <==> x in r
    {
    }
    SortedSame(t, q, r);
  }

  ghost predicate Agree(a: Proc, b: Proc) {
    (b.state.Runnable? <==> a.state.Runnable?) && (a.state.Runnable? ==> b.enqTime == a.enqTime)
  }

  /** The queue depends on who is RUNNABLE and on their stamps only. */
  lemma QueueAgrees(t: Table, t': Table, q: seq<nat>)
    requires IsQueue(t, q) && |t'.procs| == |t.procs|
    requires forall i :: 0 <= i < |t.procs| ==> Agree(t.procs[i], t'.procs[i])
    ensures IsQueue(t', q)
  {
    assert forall k :: 0 <= k < |q| ==> Agree(t.procs[q[k]], t'.procs[q[k]]);
  }

  /** A queue of the first slots, seen in a table with one slot more. */
  lemma SameUpTo(s: Table, s': Table, q: seq<nat>)
    requires IsQueue(s, q) && |s'.procs| == |s.procs| + 1 && s'.procs[..|s.procs|] == s.procs
    ensures |s.procs| !in q
    ensures forall k :: 0 <= k < |q| ==> q[k] < |s'.procs| && s'.procs[q[k]].state.Runnable?
    ensures forall a, b :: 0 <= a < b < |q| ==> s'.procs[q[a]].enqTime < s'.procs[q[b]].enqTime
    ensures forall i :: 0 <= i < |s.procs| ==> s'.procs[i] == s.procs[i]
  {
    forall i | 0 <= i < |s.procs|
      ensures s'.procs[i] == s.procs[i]
    {
      assert s'.procs[..|s.procs|][i] == s'.procs[i];
    }
  }

  /** The head of the queue comes before what follows it and before a newcomer with a later stamp. */
  lemma HeadIsFirst(t: Table, i: nat, q: seq<nat>, x: nat)
    requires i < |t.procs| && q != [] && i !in q && Queued(t) && t.procs[i].state.Runnable? && (x == i || x in q[1..])
    requires forall k :: 0 <= k < |q| ==> q[k] < |t.procs| && t.procs[q[k]].state.Runnable?
    requires forall a, b :: 0 <= a < b < |q| ==> t.procs[q[a]].enqTime < t.procs[q[b]].enqTime
    requires t.procs[i].enqTime >= t.procs[q[0]].enqTime
    ensures x < |t.procs| && t.procs[q[0]].enqTime < t.procs[x].enqTime
  {
    if x != i {
      var y :| 0 <= y < |q[1..]| && q[1..][y] == x;
      assert q[y + 1] == x;
    } else {
      assert q[0] != i;
    }
  }

  lemma {:induction false} InsertByStamp(t: Table, i: nat, q: seq<nat>) returns (r: seq<nat>)
    requires i < |t.procs| && i !in q && Queued(t) && t.procs[i].state.Runnable?
    requires forall k :: 0 <= k < |q| ==> q[k] < |t.procs| && t.procs[q[k]].state.Runnable?
    requires forall a, b :: 0 <= a < b < |q| ==> t.procs[q[a]].enqTime < t.procs[q[b]].enqTime
    ensures forall x :: x in r <==> x == i || x in q
    ensures forall k :: 0 <= k < |r| ==> r[k] < |t.procs| && t.procs[r[k]].state.Runnable?
    ensures forall a, b :: 0 <= a < b < |r| ==> t.procs[r[a]].enqTime < t.procs[r[b]].enqTime
  {
    if q == [] {
      r := [i];
    } else if t.procs[i].enqTime < t.procs[q[0]].enqTime {
      r := [i] + q;
    } else {
      var rest := InsertByStamp(t, i, q[1..]);
      forall k | 0 <= k < |rest|
        ensures t.procs[q[0]].enqTime < t.procs[rest[k]].enqTime
      {
        HeadIsFirst(t, i, q, rest[k]);
      }
      r := [q[0]] + rest;
      forall x
        ensures x in q <==> x == q[0] || x in q[1..]
      {
        assert q == [q[0]] + q[1..];
      }
    }
  }

  /** With distinct stamps there is a queue. */
  lemma {:induction false} QueueExists(t: Table, k: nat) returns (q: seq<nat>)
    requires Queued(t) && k <= |t.procs|
    ensures IsQueue(t.(procs := t.procs[..k]), q)
  {
    if k == 0 {
      q := [];
    } else {
      q := QueueExists(t, k - 1);
      var s, s' := t.(procs := t.procs[..k - 1]), t.(procs := t.procs[..k]);
      SameUpTo(s, s', q);
      if t.procs[k - 1].state.Runnable? {
        q := InsertByStamp(s', k - 1, q);
      }
    }
  }

  /** FCFS_select takes the head. */
  lemma FirstComeTakesHead(t: Table, q: seq<nat>, n: int)
    requires IsQueue(t, q) && Queued(t) && t.enqClock <= TIME_MAX && FirstCome(t, n)
    ensures n == if q == [] then -1 else q[0]
  {
    if n >= 0 {
      var k :| 0 <= k < |q| && q[k] == n;
    }
  }

  lemma YieldNowhere(t: Table)
    requires Shape(t)
    ensures YieldTo(t, -1) == t
  {
  }

  /** The table with n RUNNING and current put back among the RUNNABLE. */
  ghost function Preempted(t: Table, n: nat): Table
    requires n < |t.procs| && 0 <= t.current < |t.procs|
  {
    var u := WithState(t, n, Running);
    u.(procs := u.procs[t.current := u.procs[t.current].(state := Runnable, enqTime := t.enqClock)])
  }

  lemma YieldAgrees(t: Table, n: nat)
    requires Shape(t) && Alone(t) && n < |t.procs| && t.procs[n].state.Runnable?
    ensures n != t.current && WithState(t, n, Running).procs[t.current] == t.procs[t.current]
    ensures var v := if t.procs[t.current].state.Running? then Preempted(t, n) else WithState(t, n, Running);
            |YieldTo(t, n).procs| == |v.procs| && forall i :: 0 <= i < |v.procs| ==>
                Agree(v.procs[i], YieldTo(t, n).procs[i])
  {
  }

  lemma PopHead(t: Table, q: seq<nat>)
    requires IsQueue(t, q) && Queued(t) && q != []
    ensures q[0] < |t.procs| && IsQueue(WithState(t, q[0], Running), q[1..]) && Queued(WithState(t, q[0], Running))
  {
    var u := WithState(t, q[0], Running);
    forall i | 0 <= i < |u.procs| && u.procs[i].state.Runnable?
      ensures i in q[1..]
    {
      assert ByStamp(t, q);
      TailWithoutHead(t, q, i);
    }
    forall k | 0 <= k < |q[1..]|
      ensures q[1..][k] == q[k + 1] != q[0] && u.procs[q[1..][k]] == t.procs[q[k + 1]]
    {
    }
  }

  lemma AppendOne(t: Table, q: seq<nat>, t': Table, i: nat)
    requires IsQueue(t, q) && Queued(t) && i < |t.procs| && !t.procs[i].state.Runnable?
    requires i < |t'.procs| && t'.procs == t.procs[i := t'.procs[i]]
    requires t'.procs[i].state.Runnable? && t'.procs[i].enqTime == t.enqClock
    ensures IsQueue(t', q + [i])
  {
    var r := q + [i];
    forall k | 0 <= k < |r|
      ensures r[k] < |t'.procs| && t'.procs[r[k]].state.Runnable?
      ensures k < |q| ==> r[k] == q[k] && r[k] != i && t'.procs[r[k]] == t.procs[q[k]]
    {
    }
    forall j | 0 <= j < |t'.procs| && t'.procs[j].state.Runnable?
      ensures j in r
    {
      if j != i { assert j in q; }
    }
  }

  /** yield pops the head and puts the process it leaves, if that still runs, at the back. */
  lemma YieldPopsAndPushes(t: Table, q: seq<nat>, n: int)
    requires Shape(t) && IsQueue(t, q) && Queued(t) && Alone(t) && n == (if q == [] then -1 else q[0])
    ensures -1 <= n < |t.procs|
    ensures IsQueue(YieldTo(t, n),
                    if q == [] then q else q[1..] + (if t.procs[t.current].state.Running? then [t.current] else []))
  {
    hide YieldTo;
    if q == [] {
      YieldNowhere(t);
    } else {
      var t' := YieldTo(t, n);
      var u := WithState(t, n, Running);
      PopHead(t, q);
      YieldAgrees(t, n);
      if t.procs[t.current].state.Running? {
        AppendOne(u, q[1..], Preempted(t, n), t.current);
        QueueAgrees(Preempted(t, n), t', q[1..] + [t.current]);
      } else {
        QueueAgrees(u, t', q[1..]);
        assert q[1..] + [] == q[1..];
      }
    }
  }

  /** The slots wakeup(chan) makes RUNNABLE, in slot order. */
  ghost function WokenSlots(t: Table, chan: Ptr, k: nat): (s: seq<nat>)
    requires k <= |t.procs|
    ensures forall x :: x in s <==> 0 <= x < k && t.procs[x].state.Blocked? && t.procs[x].chan == chan
  {
    if k == 0 then []
    else WokenSlots(t, chan, k - 1) + (if t.procs[k - 1].state.Blocked? && t.procs[k - 1].chan == chan then [k - 1]
        else [])
  }

  lemma WokenNone(q: seq<nat>, t: Table, chan: Ptr)
    ensures Woken(t, chan, 0) == t && q + WokenSlots(t, chan, 0) == q
  {
  }

  lemma SlotsStep(q: seq<nat>, t: Table, chan: Ptr, k: nat)
    requires 0 < k <= |t.procs|
    ensures q + WokenSlots(t, chan, k)
            == q + WokenSlots(t, chan, k - 1) + (if t.procs[k - 1].state.Blocked?
                && t.procs[k - 1].chan == chan then [k - 1] else [])
  {
  }

  /** wakeup appends the sleepers of the channel. */
  lemma {:induction false} WokenAppend(t: Table, q: seq<nat>, chan: Ptr, k: nat)
    requires IsQueue(t, q) && Queued(t) && k <= |t.procs|
    ensures IsQueue(Woken(t, chan, k), q + WokenSlots(t, chan, k))
  {
    hide IsQueue, Queued, Woken, WokenSlots;
    if k == 0 {
      WokenNone(q, t, chan);
    } else {
      WokenAppend(t, q, chan, k - 1);
      WokenQueued(t, chan, k - 1);
      WokenStep(t, chan, k);
      var u := Woken(t, chan, k - 1);
      var r := q + WokenSlots(t, chan, k - 1);
      SlotsStep(q, t, chan, k);
      if t.procs[k - 1].state.Blocked? && t.procs[k - 1].chan == chan {
        AppendOne(u, r, Woken(t, chan, k), k - 1);
      } else {
        assert r + [] == r;
      }
    }
  }

  /** fork appends the child. */
  lemma ForkAppends(t: Table, q: seq<nat>, i: nat)
    requires Shape(t) && t.current >= 0 && IsQueue(t, q) && Queued(t) && i < |t.procs| && t.procs[i].state.Unused?
    ensures IsQueue(Forked(t, i), q + [i])
  {
    AppendOne(t, q, Forked(t, i), i);
  }

  ghost function Without(q: seq<nat>, p: nat): (r: seq<nat>)
    ensures forall x :: x in r <==> x in q && x != p
  {
    if q == [] then [] else if q[0] == p then Without(q[1..], p) else [q[0]] + Without(q[1..], p)
  }

  /** Without keeps the order. */
  lemma {:induction false} WithoutIsQueue(t: Table, q: seq<nat>, p: nat)
    requires forall k :: 0 <= k < |q| ==> q[k] < |t.procs| && t.procs[q[k]].state.Runnable?
    requires forall a, b :: 0 <= a < b < |q| ==> t.procs[q[a]].enqTime < t.procs[q[b]].enqTime
    ensures forall k :: 0 <= k < |Without(q, p)| ==>
              Without(q, p)[k] < |t.procs| && t.procs[Without(q, p)[k]].state.Runnable? && Without(q, p)[k] != p
    ensures forall a, b :: 0 <= a < b < |Without(q, p)| ==>
              t.procs[Without(q, p)[a]].enqTime < t.procs[Without(q, p)[b]].enqTime
  {
    if q != [] {
      WithoutIsQueue(t, q[1..], p);
      var r := Without(q[1..], p);
      forall k | 0 <= k < |r|
        ensures t.procs[q[0]].enqTime < t.procs[r[k]].enqTime && r[k] != p
      {
        assert r[k] in q[1..];
        var x :| 0 <= x < |q[1..]| && q[1..][x] == r[k];
        assert q[x + 1] == r[k];
      }
      assert forall k :: 0 <= k < |Without(q, p)| ==> Without(q, p)[k] in q && Without(q, p)[k] != p;
    }
  }

  lemma DeleteOne(t: Table, q: seq<nat>, p: nat)
    requires IsQueue(t, q) && Queued(t) && p < |t.procs|
    ensures IsQueue(WithState(t, p, Zombie), Without(q, p)) && Queued(WithState(t, p, Zombie))
  {
    WithoutIsQueue(t, q, p);
    var z := WithState(t, p, Zombie);
    forall i | 0 <= i < |z.procs| && z.procs[i].state.Runnable?
      ensures i in Without(q, p)
    {
      assert i in q;
    }
  }

  /** Death deletes the process and appends its parent, if that slept on it. */
  lemma DeathDeletes(t: Table, q: seq<nat>, p: nat)
    requires IsQueue(t, q) && Queued(t) && p < |t.procs|
    ensures IsQueue(Die(t, p), Without(q, p) + WokenSlots(WithState(t, p, Zombie), t.procs[p].parent, |t.procs|))
  {
    hide Queued, IsQueue;
    var z := WithState(t, p, Zombie);
    assert IsQueue(z, Without(q, p)) && Queued(z) by { DeleteOne(t, q, p); }
    WokenAppend(z, Without(q, p), z.procs[p].parent, |z.procs|);
    var u := Wakeup(z, z.procs[p].parent);
    forall i | 0 <= i < |u.procs|
      ensures Agree(u.procs[i], Die(t, p).procs[i])
    {
    }
    QueueAgrees(u, Die(t, p), Without(q, p) + WokenSlots(z, t.procs[p].parent, |z.procs|));
  }

  lemma ExitKeepsStamp(t: Table, p: nat, i: nat)
    requires p < |t.procs| && i < |t.procs| && i != p && t.procs[i].state.Runnable?
    ensures Die(t, p).procs[i].state.Runnable? && Die(t, p).procs[i].enqTime == t.procs[i].enqTime
  {
  }

  lemma ExitOvertakesNobody(w: World, code: int, n: int, a: nat, b: nat)
    requires Inv(w) && Enabled(w, Exit(code, n)) && w.t.algorithm == 1 && a < |w.t.procs| && b < |w.t.procs|
    requires w.t.procs[a].state.Runnable? && w.t.procs[b].state.Runnable? && w.t.procs[a].enqTime < w.t.procs[b].enqTime
    ensures Apply(w, Exit(code, n)).t.current != b
  {
    hide Core, Die;
    CoreParts(w);
    var c := WithCode(w.t, w.t.current, code);
    DieFacts(c, w.t.current);
    ExitKeepsStamp(c, w.t.current, a);
    ExitKeepsStamp(c, w.t.current, b);
  }

  lemma SleepKeepsStamps(t: Table, chan: Ptr, n: int, a: nat, b: nat)
    requires Shape(t) && Alone(t) && t.algorithm == 1 && a < |t.procs| && b < |t.procs| && Chosen(Asleep(t, chan), n)
    requires t.procs[a].state.Runnable? && t.procs[b].state.Runnable? && t.procs[a].enqTime < t.procs[b].enqTime
    ensures n != b && t.current != b
  {
    var d := Asleep(t, chan);
    assert d.procs[a] == t.procs[a] && d.procs[b] == t.procs[b];
  }

  lemma TickKeepsCurrent(t: Table)
    requires Shape(t)
    ensures Ticked(t).current == t.current
  {
  }

  lemma ForkKeepsCurrent(t: Table, i: int)
    requires Shape(t) && t.current >= 0 && -1 <= i < |t.procs|
    ensures i >= 0 ==> Forked(t, i).current == t.current
  {
  }

  lemma WakeupKeepsCurrent(t: Table, chan: Ptr)
    ensures Wakeup(t, chan).current == t.current
  {
  }

  /** No process is overtaken: a step never switches to b while some a that was queued earlier is still waiting. */
  lemma NotOvertaken(w: World, e: Event, a: nat, b: nat)
    requires Inv(w) && Enabled(w, e) && w.t.algorithm == 1 && a < |w.t.procs| && b < |w.t.procs|
    requires w.t.procs[a].state.Runnable? && w.t.procs[b].state.Runnable? && w.t.procs[a].enqTime < w.t.procs[b].enqTime
    ensures Apply(w, e).t.current != b
  {
    hide Core, Die, Wakeup, Ticked, Forked;
    CoreParts(w);
    match e {
      case Exit(code, n) => ExitOvertakesNobody(w, code, n, a, b);
      case Tick => TickKeepsCurrent(w.t);
      case Fork(i) => ForkKeepsCurrent(w.t, i);
      case Signal(s) => WakeupKeepsCurrent(w.t, ToSem(s));
      case Kill(i) => DieFacts(WithCode(w.t, i, -9), i);
      case WaitSleep(n) => SleepKeepsStamps(w.t, ToProc(w.t.current), n, a, b);
      case SemSleep(n) => SleepKeepsStamps(w.t, ToSem(w.pc[w.t.current].s), n, a, b);
      case _ =>
    }
  }

  // --- round robin ------------------------------------------------------------------------------------------------

  lemma StepPast(t: Table, n: nat, p: nat)
    requires t.nextPid < |t.procs| && n < |t.procs| && p < |t.procs| && Distance(t, n) < Distance(t, p)
    ensures Distance(t.(nextPid := (n + 1) % |t.procs|), p) < Distance(t, p)
  {
    NextModulo(n, |t.procs|);
  }

  lemma DistanceInjective(t: Table, a: nat, b: nat)
    requires t.nextPid < |t.procs| && a < |t.procs| && b < |t.procs|
    ensures Distance(t, a) == Distance(t, b) ==> a == b
  {
  }

  /** A choice of another process brings a waiting one strictly nearer. */
  lemma SelectionComesNearer(t: Table, n: int, p: nat)
    requires Shape(t) && t.algorithm == 0 && RoundRobin(t, n)
    requires p < |t.procs| && p != t.current && t.procs[p].state.Runnable?
    ensures 0 <= n < |t.procs| && n != t.current
    ensures n != p ==> Distance(AfterSelect(t, n), p) < Distance(t, p)
  {
    if n != p {
      DistanceInjective(t, n, p);
      assert Distance(t, n) < Distance(t, p);
      StepPast(t, n, p);
    }
  }

  /** Consecutive calls of RR_select: nothing else moves next_pid in between. */
  ghost predicate Calls(ts: seq<Table>, ns: seq<int>, p: nat) {
    && |ts| == |ns| > 0
    && (forall k :: 0 <= k < |ts| ==>
          && Shape(ts[k]) && ts[k].algorithm == 0 && |ts[k].procs| == |ts[0].procs| && RoundRobin(ts[k], ns[k])
          && p < |ts[k].procs| && p != ts[k].current && ts[k].procs[p].state.Runnable?)
    && (forall k :: 0 <= k < |ts| - 1 ==> ts[k + 1].nextPid == AfterSelect(ts[k], ns[k]).nextPid)
  }

  /** Bounded bypass: a process that stays RUNNABLE is chosen within as many calls as there are slots. */
  lemma {:induction false} ChosenWithinOneLap(ts: seq<Table>, ns: seq<int>, p: nat)
    requires Calls(ts, ns, p) && |ts| > Distance(ts[0], p)
    ensures exists k :: 0 <= k <= Distance(ts[0], p) && ns[k] == p
    decreases |ts|
  {
    SelectionComesNearer(ts[0], ns[0], p);
    if ns[0] != p {
      assert Distance(ts[1], p) == Distance(AfterSelect(ts[0], ns[0]), p);
      assert Calls(ts[1..], ns[1..], p);
      ChosenWithinOneLap(ts[1..], ns[1..], p);
      var k :| 0 <= k <= Distance(ts[1], p) && ns[1..][k] == p;
      assert ns[k + 1] == p;
    }
  }

  /** next_pid moves in a switch only, and then as RR_select moves it. */
  lemma NextPidMovesOnlyInYield(w: World, e: Event)
    requires Enabled(w, e) && !e.Yield? && !e.Exit? && !e.WaitSleep? && !e.SemSleep?
    ensures Apply(w, e).t.nextPid == w.t.nextPid
  {
  }
}
