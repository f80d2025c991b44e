/**
 clone_user_pagetable in proc.c: the deep copy of the first two root slots that fork makes.
 */
module Fork {
  import opened Words
  import opened Pmm
  import opened Sv39
  import opened Vmm

  /** The memory and its ghost typing at one moment. */
  datatype Snapshot = Snapshot(m: Mem, roles: Roles, free: set<nat>)

  ghost function Now(vm: Vmm): Snapshot
    reads vm, vm.ram
  {
    Snapshot(vm.ram.mem, vm.roles, vm.ram.free)
  }

  ghost predicate Consistent(s: Snapshot) {
    WellTyped(s.m, s.roles) && s.roles.Keys !! s.free && (forall f :: f in s.free ==> f in s.m && 0 < f < FRAME_LIMIT)
  }

  /** Between a and b only frames that were free at a were touched, apart from the frames in `open`. */
  ghost predicate Allocates(a: Snapshot, b: Snapshot, open: set<nat>) {
    && b.free <= a.free
    && b.m.Keys == a.m.Keys
    && (forall f :: f in a.roles ==> f in b.roles && b.roles[f] == a.roles[f])
    && (forall f :: f in b.roles && f !in a.roles ==> f in a.free)
    && (forall f :: f in a.m && f !in a.free && f !in open ==> b.m[f] == a.m[f])
  }

  // --- what a copy is -----------------------------------------------------------------------------------------

  /** A copied leaf: a user page moves to a fresh frame with the same contents and low ten bits; other leaves stay. */
  ghost predicate LeafCloned(g: Snapshot, s: Snapshot, pte: nat, copy: nat) {
    if V(pte) && U(pte) then
      && Next(copy) in g.free && Next(copy) in s.roles && Next(copy) < FRAME_LIMIT && copy == Retarget(pte, Next(copy))
      && Next(pte) in g.m && Next(copy) in s.m && s.m[Next(copy)] == g.m[Next(pte)]
    else copy == if V(pte) then pte else 0
  }

  ghost predicate LowCloned(g: Snapshot, s: Snapshot, src: nat, dst: nat, upTo: nat)
    requires upTo <= 512
  {
    && src in g.m && dst in s.m && dst in s.roles && dst in g.free
    && (forall k :: 0 <= k < upTo ==> LeafCloned(g, s, g.m[src][k], s.m[dst][k]))
  }

  ghost predicate DirCloned(pte: nat, copy: nat) {
    if V(pte) then V(copy) else copy == 0
  }

  ghost predicate MidCloned(g: Snapshot, s: Snapshot, src: nat, dst: nat, upTo: nat)
    requires upTo <= 512
  {
    && src in g.m && dst in s.m && dst in s.roles && dst in g.free
    && (forall j :: 0 <= j < upTo ==> DirCloned(g.m[src][j], s.m[dst][j]))
    && (forall j :: 0 <= j < upTo && V(g.m[src][j]) ==> LowCloned(g, s, Next(g.m[src][j]), Next(s.m[dst][j]), 512))
  }

  ghost predicate RootCloned(g: Snapshot, s: Snapshot, src: nat, dst: nat, upTo: nat)
    requires upTo <= 2
  {
    && src in g.m && dst in s.m && IsRoot(s.roles, dst) && dst in g.free
    && (forall i :: 2 <= i < 512 ==> s.m[dst][i] == g.m[src][i])
    && (forall i :: 0 <= i < upTo ==> DirCloned(g.m[src][i], s.m[dst][i]))
    && (forall i :: 0 <= i < upTo && V(g.m[src][i]) ==> MidCloned(g, s, Next(g.m[src][i]), Next(s.m[dst][i]), 512))
  }

  /** A finished copy stays finished while other fresh frames are filled in. */
  lemma LowClonedKept(g: Snapshot, a: Snapshot, b: Snapshot, open: nat, src: nat, dst: nat)
    requires Consistent(a) && Allocates(a, b, {open}) && dst != open && IsTable(a.roles, open)
    requires LowCloned(g, a, src, dst, 512) && a.roles[dst].Low?
    ensures LowCloned(g, b, src, dst, 512)
  {
    hide V, IsLeaf, U, Next, Retarget;
    forall k | 0 <= k < 512
      ensures LeafCloned(g, b, g.m[src][k], b.m[dst][k])
    {
      assert LeafCloned(g, a, g.m[src][k], a.m[dst][k]);
      if V(g.m[src][k]) && U(g.m[src][k]) {
        var pte := a.m[dst][k];
        RetargetFacts(g.m[src][k], Next(pte));
        assert Edge(a.roles, dst, k, pte);
      }
    }
  }

  lemma MidClonedKept(g: Snapshot, a: Snapshot, b: Snapshot, open: nat, src: nat, dst: nat)
    requires Consistent(g) && Consistent(a) && Allocates(a, b, {open}) && IsRoot(a.roles, open)
    requires src in g.roles && g.roles[src].Mid? && MidCloned(g, a, src, dst, 512) && a.roles[dst].Mid?
    ensures MidCloned(g, b, src, dst, 512)
  {
    hide V, IsLeaf, U, Next, LowCloned;
    forall j | 0 <= j < 512
      ensures DirCloned(g.m[src][j], b.m[dst][j])
      ensures V(g.m[src][j]) ==> LowCloned(g, b, Next(g.m[src][j]), Next(b.m[dst][j]), 512)
    {
      assert DirCloned(g.m[src][j], a.m[dst][j]);
      if V(g.m[src][j]) {
        assert Edge(a.roles, dst, j, a.m[dst][j]);
        LowClonedKept(g, a, b, open, Next(g.m[src][j]), Next(a.m[dst][j]));
      }
    }
  }

  // --- the loops ------------------------------------------------------------------------------------------------

  /** for (b = 0; b < 512; b++) dst[b] = src[b] */
  method CopyPage(ram: PhysicalMemory, src: nat, dst: nat)
    requires ram.Valid() && src in ram.mem && dst in ram.mem && src != dst
    modifies ram`frames, ram`mem
    ensures ram.Valid() && ram.mem == old(ram.mem)[dst := old(ram.mem)[src]]
  {
    hide PhysicalMemory.Valid;
    var b := 0;
    while b < 512
      invariant b <= 512 && ram.Valid()
      invariant dst in ram.mem && ram.mem == old(ram.mem)[dst := ram.mem[dst]]
      invariant forall i :: 0 <= i < b ==> ram.mem[dst][i] == old(ram.mem)[src][i]
    {
      ram.Store(dst, b, ram.Load(src, b));
      b := b + 1;
    }
    assert ram.mem[dst] == old(ram.mem)[src];
  }

  /** A leaf of the kernel: the entry itself. */
  method ShareLeaf(vm: Vmm, ghost g: Snapshot, src: nat, dst: nat, k: nat, pte: Word)
    requires vm.Typed() && Consistent(g) && Allocates(g, Now(vm), {})
    requires src in g.roles && g.roles[src].Low? && k < 512 && pte == g.m[src][k] && V(pte) && !U(pte)
    requires dst in g.free && dst in vm.roles && vm.roles[dst].Low? && dst in vm.ram.mem && !V(vm.ram.mem[dst][k])
    modifies vm.ram
    ensures vm.Typed() && Allocates(g, Now(vm), {}) && Allocates(old(Now(vm)), Now(vm), {dst})
    ensures vm.ram.mem == old(vm.ram.mem)[dst := old(vm.ram.mem)[dst][k := pte]]
  {
    hide V, IsLeaf, U, Next, PhysicalMemory.Valid, Retarget;
    assert Edge(g.roles, src, k, pte);
    PutLeaf(vm.ram.mem, vm.roles, dst, k, pte, vm.roles);
    vm.ram.Store(dst, k, pte);
  }

  lemma UserPageCloned(g: Snapshot, a: Snapshot, b: Snapshot, c: Snapshot, dst: nat, k: nat, pte: Word, page: nat)
    requires Allocates(g, a, {}) && page in a.free && page in a.m && page !in a.roles && page < FRAME_LIMIT && k < 512
    requires V(pte) && U(pte) && Next(pte) in g.m && Next(pte) !in g.free && Next(pte) in a.m && Next(pte) != page
    requires dst in g.free && dst in a.roles && dst in a.m && dst != page && dst !in a.free
    requires b == Snapshot(a.m[page := a.m[Next(pte)]], a.roles, a.free - {page}) && Next(Retarget(pte, page)) == page
    requires c == Snapshot(b.m[dst := b.m[dst][k := Retarget(pte, page)]], b.roles[page := User(dst, k)], b.free)
    ensures Allocates(g, c, {}) && Allocates(a, c, {dst})
    ensures LeafCloned(g, c, pte, c.m[dst][k])
    ensures forall r :: IsRoot(c.roles, r) ==> IsRoot(a.roles, r)
  {
    hide V, U, Next, Retarget;
  }

  lemma WellTypedOutside(m: Mem, roles: Roles, f: nat, p: Page)
    requires WellTyped(m, roles) && f !in roles
    ensures WellTyped(m[f := p], roles)
  {
    hide V, IsLeaf, U, Next;
  }

  /** A frame from the allocator, filled with the words of src. */
  method CopyToFresh(vm: Vmm, src: nat) returns (ok: bool, page: nat)
    requires vm.Typed() && src in vm.ram.mem && src !in vm.ram.free
    modifies vm.ram
    ensures !ok ==> vm.ram.free == {}
    ensures ok ==> vm.Typed() && page in old(vm.ram.free) && page !in vm.roles
    ensures ok ==> vm.ram.free == old(vm.ram.free) - {page}
    ensures ok ==> vm.ram.mem == old(vm.ram.mem)[page := old(vm.ram.mem)[src]]
  {
    hide V, IsLeaf, U, Next, PhysicalMemory.Valid, WellTyped;
    ok, page := vm.ram.AllocFrame();
    if ok {
      CopyPage(vm.ram, src, page);
      WellTypedOutside(old(vm.ram.mem), vm.roles, page, vm.ram.mem[page]);
      assert vm.ram.mem == old(vm.ram.mem)[page := vm.ram.mem[page]];
    }
  }

  lemma UserLeafOf(m: Mem, roles: Roles, low: nat, k: nat)
    requires WellTyped(m, roles) && low in roles && roles[low].Low? && k < 512 && V(m[low][k])
    ensures IsLeaf(m[low][k])
    ensures U(m[low][k]) ==> Next(m[low][k]) in m && Next(m[low][k]) in roles && roles[Next(m[low][k])] == User(low, k)
  {
    assert Edge(roles, low, k, m[low][k]);
  }

  /** A user leaf: a new frame, the old contents, the old permissions. */
  method CloneUserPage(vm: Vmm, ghost g: Snapshot, src: nat, dst: nat, k: nat, pte: Word) returns (ok: bool)
    requires vm.Typed() && Consistent(g) && Allocates(g, Now(vm), {})
    requires src in g.roles && g.roles[src].Low? && k < 512 && pte == g.m[src][k] && V(pte) && U(pte)
    requires dst in g.free && dst in vm.roles && vm.roles[dst].Low? && !V(vm.ram.mem[dst][k])
    modifies vm`roles, vm.ram
    ensures !ok ==> vm.ram.free == {}
    ensures ok ==> vm.Typed() && Allocates(g, Now(vm), {}) && Allocates(old(Now(vm)), Now(vm), {dst})
    ensures ok ==> dst in vm.ram.mem && (forall j :: 0 <= j < 512 && j != k ==>
            vm.ram.mem[dst][j] == old(vm.ram.mem)[dst][j])
    ensures ok ==> LeafCloned(g, Now(vm), pte, vm.ram.mem[dst][k])
    ensures ok ==> forall r :: IsRoot(vm.roles, r) ==> IsRoot(old(vm.roles), r)
  {
    hide V, IsLeaf, U, Next, PhysicalMemory.Valid, Retarget, WellTyped, LeafCloned;
    UserLeafOf(g.m, g.roles, src, k);
    var page;
    ok, page := CopyToFresh(vm, Next(pte));
    if !ok {
      return;
    }
    RetargetFacts(pte, page);
    ghost var copied := Now(vm);
    PutLeaf(vm.ram.mem, vm.roles, dst, k, Retarget(pte, page), vm.roles[page := User(dst, k)]);
    vm.roles := vm.roles[page := User(dst, k)];
    vm.ram.Store(dst, k, Retarget(pte, page));
    UserPageCloned(g, old(Now(vm)), copied, Now(vm), dst, k, pte, page);
  }

  lemma LowClonedStep(g: Snapshot, a: Snapshot, b: Snapshot, src: nat, dst: nat, k: nat)
    requires Consistent(a) && Allocates(a, b, {dst}) && k < 512
    requires LowCloned(g, a, src, dst, k) && a.roles[dst].Low? && dst in b.roles
    requires forall j :: 0 <= j < 512 && j != k ==> b.m[dst][j] == a.m[dst][j]
    requires LeafCloned(g, b, g.m[src][k], b.m[dst][k])
    ensures LowCloned(g, b, src, dst, k + 1)
  {
    hide V, IsLeaf, U, Next, Retarget;
    forall j | 0 <= j < k
      ensures LeafCloned(g, b, g.m[src][j], b.m[dst][j])
    {
      assert LeafCloned(g, a, g.m[src][j], a.m[dst][j]);
      if V(g.m[src][j]) && U(g.m[src][j]) {
        RetargetFacts(g.m[src][j], Next(a.m[dst][j]));
        assert Edge(a.roles, dst, j, a.m[dst][j]);
      }
    }
  }

  /** The body of the loop over k. */
  method CloneLeaf(vm: Vmm, ghost g: Snapshot, src: nat, dst: nat, k: nat) returns (ok: bool)
    requires vm.Typed() && Consistent(g) && Allocates(g, Now(vm), {})
    requires src in g.roles && g.roles[src].Low? && k < 512
    requires LowCloned(g, Now(vm), src, dst, k) && vm.roles[dst].Low?
    requires forall j :: k <= j < 512 ==> vm.ram.mem[dst][j] == 0
    modifies vm`roles, vm.ram
    ensures !ok ==> vm.ram.free == {}
    ensures ok ==> vm.Typed() && Allocates(g, Now(vm), {}) && Allocates(old(Now(vm)), Now(vm), {dst})
    ensures ok ==> LowCloned(g, Now(vm), src, dst, k + 1)
    ensures ok ==> forall r :: IsRoot(vm.roles, r) ==> IsRoot(old(vm.roles), r)
    ensures ok ==> forall j :: k < j < 512 ==> vm.ram.mem[dst][j] == 0
  {
    hide IsLeaf, U, Next, PhysicalMemory.Valid, Retarget;
    ghost var a := Now(vm);
    var pte := vm.ram.Load(src, k);
    assert pte == g.m[src][k];
    if V(pte) && U(pte) {
      ok := CloneUserPage(vm, g, src, dst, k, pte);
      if !ok {
        return;
      }
    } else if V(pte) {
      ShareLeaf(vm, g, src, dst, k, pte);
    }
    ok := true;
    LowClonedStep(g, a, Now(vm), src, dst, k);
  }

  /** The loop over k: copies the leaves of one low table. */
  method CloneLow(vm: Vmm, ghost g: Snapshot, src: nat, dst: nat) returns (ok: bool)
    requires vm.Typed() && Consistent(g) && Allocates(g, Now(vm), {})
    requires src in g.roles && g.roles[src].Low?
    requires dst in g.free && dst in vm.roles && vm.roles[dst].Low? && dst in vm.ram.mem
    requires forall k :: 0 <= k < 512 ==> vm.ram.mem[dst][k] == 0
    modifies vm`roles, vm.ram
    ensures !ok ==> vm.ram.free == {}
    ensures ok ==> vm.Typed() && Allocates(g, Now(vm), {}) && Allocates(old(Now(vm)), Now(vm), {dst})
    ensures ok ==> LowCloned(g, Now(vm), src, dst, 512)
    ensures ok ==> forall r :: IsRoot(vm.roles, r) ==> IsRoot(old(vm.roles), r)
  {
    hide V, IsLeaf, U, Next, PhysicalMemory.Valid, Retarget;
    var k := 0;
    while k < 512
      invariant k <= 512
      invariant vm.Typed() && Allocates(g, Now(vm), {}) && Allocates(old(Now(vm)), Now(vm), {dst})
      invariant LowCloned(g, Now(vm), src, dst, k)
      invariant forall r :: IsRoot(vm.roles, r) ==> IsRoot(old(vm.roles), r)
      invariant forall j :: k <= j < 512 ==> vm.ram.mem[dst][j] == 0
    {
      ok := CloneLeaf(vm, g, src, dst, k);
      if !ok {
        return;
      }
      k := k + 1;
    }
    ok := true;
  }

  lemma MidClonedStep(g: Snapshot, a: Snapshot, b: Snapshot, src: nat, dst: nat, j: nat)
    requires Consistent(a) && Allocates(a, b, {dst}) && j < 512
    requires MidCloned(g, a, src, dst, j) && a.roles[dst].Mid? && dst in b.roles
    requires forall i :: 0 <= i < 512 && i != j ==> b.m[dst][i] == a.m[dst][i]
    requires DirCloned(g.m[src][j], b.m[dst][j])
    requires V(g.m[src][j]) ==> LowCloned(g, b, Next(g.m[src][j]), Next(b.m[dst][j]), 512)
    ensures MidCloned(g, b, src, dst, j + 1)
  {
    hide V, IsLeaf, U, Next, LowCloned;
    forall i | 0 <= i < j
      ensures DirCloned(g.m[src][i], b.m[dst][i])
      ensures V(g.m[src][i]) ==> LowCloned(g, b, Next(g.m[src][i]), Next(b.m[dst][i]), 512)
    {
      assert DirCloned(g.m[src][i], a.m[dst][i]);
      if V(g.m[src][i]) {
        assert Edge(a.roles, dst, i, a.m[dst][i]);
        LowClonedKept(g, a, b, dst, Next(g.m[src][i]), Next(a.m[dst][i]));
      }
    }
  }

  lemma AllocatesFacts(g: Snapshot, a: Snapshot, dst: nat)
    requires Allocates(g, a, {})
    ensures a.free <= g.free && a.m.Keys == g.m.Keys
  {
  }

  lemma FreshLinked(g: Snapshot, a: Snapshot, b: Snapshot, dst: nat, j: nat, table: nat)
    requires Allocates(g, a, {}) && dst in g.free && dst in a.roles && dst in a.m && !a.roles[dst].User? && j < 512
    requires table in a.free && table in a.m && table !in a.roles && table != dst && table < FRAME_LIMIT
    requires b.free == a.free - {table} && b.roles == a.roles[table := ChildRole(a.roles, dst, j)]
    requires b.m == a.m[table := ZeroPage()][dst := a.m[dst][j := DirPte(table)]]
    ensures Allocates(g, b, {}) && Allocates(a, b, {dst})
    ensures forall r :: IsRoot(b.roles, r) ==> IsRoot(a.roles, r)
  {
    hide V, Next, DirPte;
  }

  /** Allocates a table for the copy and links it under slot j of dst. */
  method LinkFresh(vm: Vmm, ghost g: Snapshot, dst: nat, j: nat) returns (ok: bool, table: nat)
    requires vm.Typed() && Allocates(g, Now(vm), {}) && j < 512
    requires dst in g.free && dst in vm.roles && dst in vm.ram.mem && (vm.roles[dst].Root? || vm.roles[dst].Mid?)
    requires !V(vm.ram.mem[dst][j])
    modifies vm`roles, vm.ram
    ensures !ok ==> vm.ram.free == {}
    ensures ok ==> vm.Typed() && Allocates(g, Now(vm), {}) && Allocates(old(Now(vm)), Now(vm), {dst})
    ensures ok ==> table in old(vm.ram.free) && table in g.free && table in vm.ram.mem
    ensures ok ==> dst in vm.roles && vm.roles[dst] == old(vm.roles)[dst] && dst != table
    ensures ok ==> table in vm.roles && vm.roles[table] == ChildRole(old(vm.roles), dst, j)
    ensures ok ==> forall k :: 0 <= k < 512 ==> vm.ram.mem[table][k] == 0
    ensures ok ==> dst in vm.ram.mem && V(vm.ram.mem[dst][j]) && Next(vm.ram.mem[dst][j]) == table
    ensures ok ==> forall k :: 0 <= k < 512 && k != j ==> vm.ram.mem[dst][k] == old(vm.ram.mem)[dst][k]
    ensures ok ==> forall r :: IsRoot(vm.roles, r) ==> IsRoot(old(vm.roles), r)
  {
    hide V, IsLeaf, U, Next, PhysicalMemory.Valid, DirPte, WellTyped, Descends, Allocates;
    ghost var a := Now(vm);
    AllocatesFacts(g, a, dst);
    ok, table := vm.NewTable(dst, j);
    if ok {
      DirPteFacts(table);
      FreshLinked(g, a, Now(vm), dst, j, table);
    }
  }

  lemma AllocatesNothing(a: Snapshot, dst: nat)
    ensures Allocates(a, a, {dst})
  {
  }

  lemma FrameKept(a: Snapshot, b: Snapshot, open: set<nat>, f: nat)
    requires Consistent(a) && Allocates(a, b, open) && f in a.roles && f !in open
    ensures f in a.m && f in b.m && b.m[f] == a.m[f] && f in b.roles && b.roles[f] == a.roles[f]
  {
    hide Edge;
  }

  lemma AllocatesThrough(a: Snapshot, b: Snapshot, c: Snapshot, dst: nat, table: nat)
    requires Allocates(a, b, {dst}) && Allocates(b, c, {table}) && table in a.free
    ensures Allocates(a, c, {dst})
  {
  }

  /** The body of the loop over j. */
  method CloneDir(vm: Vmm, ghost g: Snapshot, src: nat, dst: nat, j: nat) returns (ok: bool)
    requires vm.Typed() && Consistent(g) && Allocates(g, Now(vm), {})
    requires src in g.roles && g.roles[src].Mid? && j < 512
    requires MidCloned(g, Now(vm), src, dst, j) && vm.roles[dst].Mid?
    requires forall i :: j <= i < 512 ==> vm.ram.mem[dst][i] == 0
    modifies vm`roles, vm.ram
    ensures !ok ==> vm.ram.free == {}
    ensures ok ==> vm.Typed() && Allocates(g, Now(vm), {}) && Allocates(old(Now(vm)), Now(vm), {dst})
    ensures ok ==> MidCloned(g, Now(vm), src, dst, j + 1)
    ensures ok ==> forall r :: IsRoot(vm.roles, r) ==> IsRoot(old(vm.roles), r)
    ensures ok ==> forall i :: j < i < 512 ==> vm.ram.mem[dst][i] == 0
  {
    hide IsLeaf, U, Next, PhysicalMemory.Valid, LowCloned, WellTyped, Allocates;
    ghost var a := Now(vm);
    FrameKept(g, a, {}, src);
    var pte := vm.ram.Load(src, j);
    ok := true;
    AllocatesNothing(a, dst);
    if V(pte) && !IsLeaf(pte) {
      DirEntry(g.m, g.roles, src, j);
      var low;
      ok, low := LinkFresh(vm, g, dst, j);
      if !ok {
        return;
      }
      ghost var b := Now(vm);
      ok := CloneLow(vm, g, Next(pte), low);
      if !ok {
        return;
      }
      AllocatesThrough(a, b, Now(vm), dst, low);
      FrameKept(b, Now(vm), {low}, dst);
    } else if V(pte) {
      DirEntry(g.m, g.roles, src, j);
    }
    MidClonedStep(g, a, Now(vm), src, dst, j);
  }

  /** The loop over j: copies the low tables of one middle table. */
  method CloneMid(vm: Vmm, ghost g: Snapshot, src: nat, dst: nat) returns (ok: bool)
    requires vm.Typed() && Consistent(g) && Allocates(g, Now(vm), {})
    requires src in g.roles && g.roles[src].Mid?
    requires dst in g.free && dst in vm.roles && vm.roles[dst].Mid? && dst in vm.ram.mem
    requires forall j :: 0 <= j < 512 ==> vm.ram.mem[dst][j] == 0
    modifies vm`roles, vm.ram
    ensures !ok ==> vm.ram.free == {}
    ensures ok ==> vm.Typed() && Allocates(g, Now(vm), {}) && Allocates(old(Now(vm)), Now(vm), {dst})
    ensures ok ==> MidCloned(g, Now(vm), src, dst, 512)
    ensures ok ==> forall r :: IsRoot(vm.roles, r) ==> IsRoot(old(vm.roles), r)
  {
    hide V, IsLeaf, U, Next, PhysicalMemory.Valid, LowCloned;
    var j := 0;
    while j < 512
      invariant j <= 512
      invariant vm.Typed() && Allocates(g, Now(vm), {}) && Allocates(old(Now(vm)), Now(vm), {dst})
      invariant MidCloned(g, Now(vm), src, dst, j)
      invariant forall r :: IsRoot(vm.roles, r) ==> IsRoot(old(vm.roles), r)
      invariant forall i :: j <= i < 512 ==> vm.ram.mem[dst][i] == 0
    {
      ok := CloneDir(vm, g, src, dst, j);
      if !ok {
        return;
      }
      j := j + 1;
    }
    ok := true;
  }

  /** child_pt[i] = parent_pt[i]: one root entry shared between two roots. */
  method ShareSlot(vm: Vmm, parent: nat, child: nat, i: nat)
    requires vm.Typed() && IsRoot(vm.roles, parent) && IsRoot(vm.roles, child) && i < 512
    modifies vm.ram`mem, vm.ram`frames
    ensures vm.Typed()
    ensures vm.ram.mem == old(vm.ram.mem)[child := old(vm.ram.mem)[child][i := old(vm.ram.mem)[parent][i]]]
  {
    hide V, IsLeaf, U, Next, PhysicalMemory.Valid;
    vm.ram.Store(child, i, vm.ram.Load(parent, i));
    forall f, j | IsTable(vm.roles, f) && 0 <= j < 512 && V(vm.ram.mem[f][j])
      ensures Edge(vm.roles, f, j, vm.ram.mem[f][j])
    {
      assert V(old(vm.ram.mem)[f][j]) ==> Edge(vm.roles, f, j, old(vm.ram.mem)[f][j]);
      assert V(old(vm.ram.mem)[parent][i]) ==> Edge(vm.roles, parent, i, old(vm.ram.mem)[parent][i]);
    }
  }

  /** The two loops that share the root slots from 2 up. */
  method ShareSlots(vm: Vmm, parent: nat, child: nat)
    requires vm.Typed() && IsRoot(vm.roles, parent) && IsRoot(vm.roles, child) && parent != child
    requires child in vm.ram.mem && forall j :: 0 <= j < 512 ==> vm.ram.mem[child][j] == 0
    modifies vm.ram`mem, vm.ram`frames
    ensures vm.Typed()
    ensures vm.ram.mem == old(vm.ram.mem)[child := vm.ram.mem[child]]
    ensures forall j :: 0 <= j < 512 ==> vm.ram.mem[child][j] == if j < 2 then 0 else vm.ram.mem[parent][j]
  {
    hide V, IsLeaf, U, Next, PhysicalMemory.Valid;
    var i := 256;
    while i < 512
      invariant 256 <= i <= 512 && vm.Typed()
      invariant vm.ram.mem == old(vm.ram.mem)[child := vm.ram.mem[child]]
      invariant forall j :: 0 <= j < 512 ==> vm.ram.mem[child][j] == if 256 <= j < i then vm.ram.mem[parent][j] else 0
    {
      ShareSlot(vm, parent, child, i);
      i := i + 1;
    }
    i := 2;
    while i < 256
      invariant 2 <= i <= 256 && vm.Typed()
      invariant vm.ram.mem == old(vm.ram.mem)[child := vm.ram.mem[child]]
      invariant forall j :: 0 <= j < 512 ==>
                  vm.ram.mem[child][j] == if 2 <= j < i || 256 <= j then vm.ram.mem[parent][j] else 0
    {
      ShareSlot(vm, parent, child, i);
      i := i + 1;
    }
  }

  lemma RootShared(g: Snapshot, s: Snapshot, parent: nat, child: nat)
    requires child in g.free && child in g.m && child !in g.roles && parent in g.m && parent in g.roles
             && s.free == g.free - {child}
    requires s.roles == g.roles[child := Root] && child in s.m && s.m == g.m[child := s.m[child]]
    requires forall j :: 2 <= j < 512 ==> s.m[child][j] == g.m[parent][j]
    ensures Allocates(g, s, {}) && RootCloned(g, s, parent, child, 0)
    ensures forall r :: IsRoot(s.roles, r) ==> r == child || IsRoot(g.roles, r)
  {
    hide V, Next, MidCloned;
  }

  lemma WellTypedNewRoot(m: Mem, roles: Roles, f: nat)
    requires WellTyped(m, roles) && f !in roles && f in m && 0 < f < FRAME_LIMIT
    ensures WellTyped(m[f := ZeroPage()], roles[f := Root])
  {
    hide IsLeaf, U, Next;
    var roles' := roles[f := Root];
    var m' := m[f := ZeroPage()];
    forall g, i | IsTable(roles', g) && 0 <= i < 512 && V(m'[g][i])
      ensures Edge(roles', g, i, m'[g][i])
    {
      assert Edge(roles, g, i, m[g][i]);
    }
  }

  /** A cleared frame that shares the root slots of the parent from 2 up. */
  method SharedRoot(vm: Vmm, parent: nat) returns (ok: bool, child: nat)
    requires vm.Typed() && IsRoot(vm.roles, parent)
    modifies vm`roles, vm.ram
    ensures !ok ==> vm.ram.free == {}
    ensures ok ==> vm.Typed() && Allocates(old(Now(vm)), Now(vm), {})
    ensures ok ==> RootCloned(old(Now(vm)), Now(vm), parent, child, 0)
    ensures ok ==> forall j :: 0 <= j < 2 ==> vm.ram.mem[child][j] == 0
    ensures ok ==> forall r :: IsRoot(vm.roles, r) ==> r == child || IsRoot(old(vm.roles), r)
  {
    hide V, IsLeaf, U, Next, PhysicalMemory.Valid, MidCloned, Allocates, RootCloned;
    ghost var g := Now(vm);
    ok, child := vm.ram.AllocFrame();
    if !ok {
      return;
    }
    WellTypedNewRoot(g.m, g.roles, child);
    vm.roles := vm.roles[child := Root];
    hide WellTyped;
    ShareSlots(vm, parent, child);
    RootShared(g, Now(vm), parent, child);
  }

  lemma RootClonedStep(g: Snapshot, a: Snapshot, b: Snapshot, src: nat, dst: nat, i: nat)
    requires Consistent(g) && Consistent(a) && Allocates(a, b, {dst}) && i < 2 && IsRoot(g.roles, src)
    requires RootCloned(g, a, src, dst, i)
    requires forall j :: 0 <= j < 512 && j != i ==> b.m[dst][j] == a.m[dst][j]
    requires DirCloned(g.m[src][i], b.m[dst][i])
    requires V(g.m[src][i]) ==> MidCloned(g, b, Next(g.m[src][i]), Next(b.m[dst][i]), 512)
    ensures RootCloned(g, b, src, dst, i + 1)
  {
    hide V, IsLeaf, U, Next, MidCloned;
    forall j | 0 <= j < i
      ensures DirCloned(g.m[src][j], b.m[dst][j])
      ensures V(g.m[src][j]) ==> MidCloned(g, b, Next(g.m[src][j]), Next(b.m[dst][j]), 512)
    {
      assert DirCloned(g.m[src][j], a.m[dst][j]);
      if V(g.m[src][j]) {
        assert Edge(a.roles, dst, j, a.m[dst][j]);
        assert Edge(g.roles, src, j, g.m[src][j]);
        MidClonedKept(g, a, b, dst, Next(g.m[src][j]), Next(a.m[dst][j]));
      }
    }
  }

  /** The body of the loop over i. */
  method CloneRootSlot(vm: Vmm, ghost g: Snapshot, src: nat, dst: nat, i: nat) returns (ok: bool)
    requires vm.Typed() && Consistent(g) && Allocates(g, Now(vm), {})
    requires IsRoot(g.roles, src) && i < 2
    requires RootCloned(g, Now(vm), src, dst, i)
    requires forall j :: i <= j < 2 ==> vm.ram.mem[dst][j] == 0
    modifies vm`roles, vm.ram
    ensures !ok ==> vm.ram.free == {}
    ensures ok ==> vm.Typed() && Allocates(g, Now(vm), {}) && Allocates(old(Now(vm)), Now(vm), {dst})
    ensures ok ==> RootCloned(g, Now(vm), src, dst, i + 1)
    ensures ok ==> forall j :: i < j < 2 ==> vm.ram.mem[dst][j] == 0
    ensures ok ==> forall r :: IsRoot(vm.roles, r) ==> IsRoot(old(vm.roles), r)
  {
    hide IsLeaf, U, Next, PhysicalMemory.Valid, MidCloned, WellTyped, Allocates;
    ghost var a := Now(vm);
    FrameKept(g, a, {}, src);
    var pte := vm.ram.Load(src, i);
    ok := true;
    AllocatesNothing(a, dst);
    if V(pte) && !IsLeaf(pte) {
      DirEntry(g.m, g.roles, src, i);
      var mid;
      ok, mid := LinkFresh(vm, g, dst, i);
      if !ok {
        return;
      }
      ghost var b := Now(vm);
      ok := CloneMid(vm, g, Next(pte), mid);
      if !ok {
        return;
      }
      AllocatesThrough(a, b, Now(vm), dst, mid);
      FrameKept(b, Now(vm), {mid}, dst);
    } else if V(pte) {
      DirEntry(g.m, g.roles, src, i);
    }
    RootClonedStep(g, a, Now(vm), src, dst, i);
  }

  /** clone_user_pagetable; ok is false where pmm_alloc_frame panics. */
  method CloneUserPagetable(vm: Vmm, parent: nat) returns (ok: bool, child: nat)
    requires vm.Typed() && IsRoot(vm.roles, parent)
    modifies vm`roles, vm.ram
    ensures !ok ==> vm.ram.free == {}
    ensures ok ==> vm.Typed() && Allocates(old(Now(vm)), Now(vm), {})
    ensures ok ==> RootCloned(old(Now(vm)), Now(vm), parent, child, 2)
    ensures ok ==> forall r :: IsRoot(vm.roles, r) ==> r == child || IsRoot(old(vm.roles), r)
  {
    hide V, IsLeaf, U, Next, PhysicalMemory.Valid, MidCloned, WellTyped, Allocates;
    ghost var g := Now(vm);
    ok, child := SharedRoot(vm, parent);
    if !ok {
      return;
    }
    var i := 0;
    while i < 2
      invariant i <= 2
      invariant vm.Typed() && Allocates(g, Now(vm), {})
      invariant RootCloned(g, Now(vm), parent, child, i)
      invariant forall j :: i <= j < 2 ==> vm.ram.mem[child][j] == 0
      invariant forall r :: IsRoot(vm.roles, r) ==> r == child || IsRoot(g.roles, r)
    {
      ok := CloneRootSlot(vm, g, parent, child, i);
      if !ok {
        return;
      }
      i := i + 1;
    }
    ok := true;
  }
}
