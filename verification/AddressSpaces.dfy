/**
 The address spaces of a running system: the kernel table, the tables exec builds (proc.c), the tables fork clones,
 demand paging (trap.c) and the growth of the kernel heap (heap.c).
 */
module AddressSpaces {
  import opened Options
  import opened Words
  import opened Pmm
  import opened Sv39
  import opened Vmm
  import opened Fork

  const KERNEL_BASE: nat := 0x8000_0000
  const HEAP_START: nat := 0xC000_0000
  const HEAP_LIMIT: nat := 0x1_0000_0000

  /** Do two roots hold the same middle table in slot i? */
  ghost predicate Shares(m: Mem, r: nat, s: nat, i: nat)
    requires r in m && s in m && i < 512
  {
    V(m[r][i]) && V(m[s][i]) && Next(m[r][i]) == Next(m[s][i])
  }

  /**
   The sharing discipline.  Root slots from 2 up are the kernel's in every root.  Slot 1 is never shared.  Slot 0 is
   the kernel's in the kernel root and in the roots exec built, and private in the roots fork cloned.
   */
  ghost predicate Discipline(s: Snapshot, kernel: nat, cloned: set<nat>) {
    && (forall f :: f in s.roles ==> f in s.m)
    && IsRoot(s.roles, kernel) && kernel !in cloned
    && (forall r :: r in cloned ==> IsRoot(s.roles, r))
    && V(s.m[kernel][0]) && !V(s.m[kernel][1]) && V(s.m[kernel][2]) && V(s.m[kernel][3])
    && (forall r, i :: IsRoot(s.roles, r) && 2 <= i < 512 ==> s.m[r][i] == s.m[kernel][i])
    && (forall r :: IsRoot(s.roles, r) && r !in cloned ==> s.m[r][0] == s.m[kernel][0])
    && (forall r, t :: IsRoot(s.roles, r) && IsRoot(s.roles, t) && r != t ==> !Shares(s.m, r, t, 1))
    && (forall r, t :: IsRoot(s.roles, r) && t in cloned && r != t ==> !Shares(s.m, r, t, 0))
  }

  /** No page of the heap window above `end` is mapped yet. */
  ghost predicate HeapFrontier(s: Snapshot, kernel: nat, end: nat) {
    && HEAP_START <= end <= HEAP_LIMIT && end % PAGE_SIZE == 0
    && (forall a :: end <= a < HEAP_LIMIT ==> SlotOf(s.m, kernel, a) == None)
  }

  ghost predicate Spaces(s: Snapshot, kernel: nat, cloned: set<nat>, end: nat) {
    Consistent(s) && Discipline(s, kernel, cloned) && HeapFrontier(s, kernel, end)
  }

  lemma HeapAddress(a: nat)
    requires HEAP_START <= a < HEAP_LIMIT
    ensures Vpn(a, 2) == 3
  {
  }

  lemma SpacesBasics(s: Snapshot, kernel: nat, cloned: set<nat>, end: nat)
    requires Spaces(s, kernel, cloned, end)
    ensures IsRoot(s.roles, kernel) && kernel in s.m && HEAP_START <= end <= HEAP_LIMIT && end % PAGE_SIZE == 0
    ensures end < HEAP_LIMIT ==> SlotOf(s.m, kernel, end) == None
  {
  }

  // --- what the discipline means -------------------------------------------------------------------------------

  /** Every root agrees with the kernel root on everything in slots 2 and up. */
  lemma KernelWindowCoherence(s: Snapshot, kernel: nat, cloned: set<nat>, end: nat, r: nat, va: nat)
    requires Spaces(s, kernel, cloned, end) && IsRoot(s.roles, r) && Vpn(va, 2) >= 2
    ensures SlotOf(s.m, r, va) == SlotOf(s.m, kernel, va)
    ensures LookupPage(s.m, r, va) == LookupPage(s.m, kernel, va)
  {
    hide V, IsLeaf, U, Next, Vpn;
    ZeroMeansUnmapped(s.m, s.roles, r, va);
    ZeroMeansUnmapped(s.m, s.roles, kernel, va);
  }

  /**
   Two distinct roots read one user address through the same leaf entry exactly when it lies in slot 0 and neither
   root was cloned: the tables exec builds are not isolated below 0x40000000, everything else is.
   */
  lemma SharingIsExact(s: Snapshot, kernel: nat, cloned: set<nat>, end: nat, r: nat, t: nat, va: nat)
    requires Spaces(s, kernel, cloned, end) && IsRoot(s.roles, r) && IsRoot(s.roles, t) && r != t && Vpn(va, 2) < 2
    requires SlotOf(s.m, r, va).Some?
    ensures SlotOf(s.m, r, va) == SlotOf(s.m, t, va) <==> Vpn(va, 2) == 0 && r !in cloned && t !in cloned
  {
    hide V, IsLeaf, U, Next, Vpn;
    WalkIsThreeSteps(s.m, s.roles, r, va);
    WalkIsThreeSteps(s.m, s.roles, t, va);
    if SlotOf(s.m, t, va).Some? {
      SameSlotMeansSamePage(s.m, s.roles, r, va, t, va);
    }
  }

  /** The byte a user access at va reads, when the leaf there is a user leaf. */
  ghost function UserByte(m: Mem, root: nat, va: nat): Option<nat> {
    if SlotOf(m, root, va).Some? && U(PteOf(m, root, va)) && Next(PteOf(m, root, va)) in m
    then Some(PageByte(m[Next(PteOf(m, root, va))], va % PAGE_SIZE))
    else None
  }

  /** Root translates a, and reads the byte there, as before. */
  ghost predicate Same(m: Mem, m': Mem, root: nat, a: nat) {
    && SlotOf(m', root, a) == SlotOf(m, root, a)
    && PteOf(m', root, a) == PteOf(m, root, a)
    && UserByte(m', root, a) == UserByte(m, root, a)
  }

  lemma WellTypedUserPage(m: Mem, roles: Roles, p: nat, page: Page)
    requires WellTyped(m, roles) && p in roles && roles[p].User?
    ensures WellTyped(m[p := page], roles)
  {
    hide V, IsLeaf, U, Next;
  }

  /**
   A store through root r to a user page changes what a root t reads exactly at the aliases of that byte: the same
   offset of a page reached through the same leaf entry.  No translation changes.
   */
  lemma UserStoreIsLocal(s: Snapshot, r: nat, va: nat, b: nat, t: nat, a: nat)
    requires Consistent(s) && IsRoot(s.roles, r) && IsRoot(s.roles, t) && b < 256
    requires SlotOf(s.m, r, va).Some? && U(PteOf(s.m, r, va))
    ensures var p := Next(PteOf(s.m, r, va));
            p in s.m &&
            var m' := s.m[p := SetPageByte(s.m[p], va % PAGE_SIZE, b)];
            && WellTyped(m', s.roles)
            && SlotOf(m', t, a) == SlotOf(s.m, t, a) && PteOf(m', t, a) == PteOf(s.m, t, a)
            && UserByte(m', t, a) == if SlotOf(s.m, t, a) == SlotOf(s.m, r, va) && a % PAGE_SIZE == va % PAGE_SIZE
                                     then Some(b) else UserByte(s.m, t, a)
  {
    hide V, IsLeaf, U, Next, Vpn, SetPageByte;
    UserLeaf(s.m, s.roles, r, va);
    WalkIsThreeSteps(s.m, s.roles, t, a);
    WalkIsThreeSteps(s.m, s.roles, r, va);
    var p := Next(PteOf(s.m, r, va));
    var m' := s.m[p := SetPageByte(s.m[p], va % PAGE_SIZE, b)];
    assert forall f, i :: IsTable(s.roles, f) && 0 <= i < 512 ==> m'[f][i] == s.m[f][i];
    WellTypedUserPage(s.m, s.roles, p, m'[p]);
    if SlotOf(s.m, t, a).Some? && U(PteOf(s.m, t, a)) {
      UserLeaf(s.m, s.roles, t, a);
    }
  }

  /** The physical address of a mapped user address. */
  lemma UserAddress(s: Snapshot, root: nat, va: nat)
    requires Consistent(s) && IsRoot(s.roles, root) && SlotOf(s.m, root, va).Some? && U(PteOf(s.m, root, va))
    ensures var pa := LookupPage(s.m, root, va);
            && pa / PAGE_SIZE == Next(PteOf(s.m, root, va)) && pa % PAGE_SIZE == va % PAGE_SIZE
            && pa / PAGE_SIZE in s.m && pa / PAGE_SIZE in s.roles && s.roles[pa / PAGE_SIZE].User?
  {
    hide V, IsLeaf, U, Next, Vpn, PteOf;
    ZeroMeansUnmapped(s.m, s.roles, root, va);
    UserLeaf(s.m, s.roles, root, va);
  }

  /**
   Isolation in any reachable state: a user store through r is seen by no other root t at the same address, unless the
   address lies in slot 0 and both tables were built by exec.
   */
  lemma StoreIsolation(s: Snapshot, kernel: nat, cloned: set<nat>, end: nat, r: nat, va: nat, b: nat, t: nat)
    requires Spaces(s, kernel, cloned, end) && IsRoot(s.roles, r) && IsRoot(s.roles, t) && r != t && b < 256
    requires SlotOf(s.m, r, va).Some? && U(PteOf(s.m, r, va)) && Vpn(va, 2) < 2
    ensures var p := Next(PteOf(s.m, r, va));
            p in s.m &&
            var m' := s.m[p := SetPageByte(s.m[p], va % PAGE_SIZE, b)];
            && (Vpn(va, 2) == 1 || r in cloned || t in cloned ==> UserByte(m', t, va) == UserByte(s.m, t, va))
            && (Vpn(va, 2) == 0 && r !in cloned && t !in cloned ==> UserByte(m', t, va) == Some(b))
  {
    hide V, IsLeaf, U, Next, Vpn, SetPageByte;
    UserStoreIsLocal(s, r, va, b, t, va);
    SharingIsExact(s, kernel, cloned, end, r, t, va);
  }

  /** Where a mapping changes no translation it changes no byte either. */
  lemma MapKeepsUserByte(s: Snapshot, s': Snapshot, r: nat, va: nat, f: nat, perm: Perm, t: nat, a: nat)
    requires Consistent(s) && Consistent(s') && IsRoot(s.roles, t) && 0 < f < FRAME_LIMIT
    requires Mapped(s.m, s.roles, s.free, r, va, f, perm, s'.m, s'.roles, s'.free)
    requires SlotOf(s'.m, t, a) == SlotOf(s.m, t, a)
    ensures PteOf(s'.m, t, a) == PteOf(s.m, t, a)
    ensures UserByte(s'.m, t, a) == UserByte(s.m, t, a)
  {
    hide V, IsLeaf, U, Next, Vpn, LeafPte, SlotOf;
    MappedKeepsOtherPtes(s.m, s.roles, s.free, r, va, f, perm, s'.m, s'.roles, s'.free, t, a);
    if SlotOf(s.m, t, a).Some? && U(PteOf(s.m, t, a)) {
      UserLeaf(s.m, s.roles, t, a);
    }
  }

  /**
   The same for mappings: what is mapped through r changes nothing that another root t translates or reads, unless it
   lies in slot 0 and both tables were built by exec, and then t gets the page too.
   */
  lemma MapIsolation(s: Snapshot, s': Snapshot, kernel: nat, cloned: set<nat>, end: nat,
                     r: nat, va: nat, f: nat, perm: Perm, t: nat, a: nat)
    requires Spaces(s, kernel, cloned, end) && Spaces(s', kernel, cloned, end) && 0 < f < FRAME_LIMIT
    requires IsRoot(s.roles, r) && IsRoot(s.roles, t) && r != t && Vpn(va, 2) < 2
    requires Mapped(s.m, s.roles, s.free, r, va, f, perm, s'.m, s'.roles, s'.free)
    ensures Vpn(va, 2) == 1 || r in cloned || t in cloned ==>
              SlotOf(s'.m, t, a) == SlotOf(s.m, t, a) && UserByte(s'.m, t, a) == UserByte(s.m, t, a)
    ensures Vpn(va, 2) == 0 && r !in cloned && t !in cloned ==> SlotOf(s'.m, t, va) == SlotOf(s'.m, r, va)
  {
    hide V, IsLeaf, U, Next, Vpn, LeafPte;
    SharingIsExact(s', kernel, cloned, end, r, t, va);
    WalkIsThreeSteps(s'.m, s'.roles, r, va);
    if SlotOf(s'.m, t, a) == SlotOf(s.m, t, a) {
      MapKeepsUserByte(s, s', r, va, f, perm, t, a);
    }
  }

  // --- what each operation keeps ---------------------------------------------------------------------------------

  /** A root entry made by a mapping names a table no other root entry names, so roots never come to share one. */
  lemma StillUnshared(s: Snapshot, m': Mem, root: nat, i: nat, r: nat, t: nat, j: nat)
    requires Consistent(s) && IsRoot(s.roles, root) && IsRoot(s.roles, r) && IsRoot(s.roles, t) && r != t && i < 512
             && j < 512
    requires OnlySlot(s.m, s.roles, s.free, root, i, m') && !Shares(s.m, r, t, j)
    ensures r in m' && t in m' && !Shares(m', r, t, j)
  {
    hide V, IsLeaf, U, Next;
    if V(s.m[r][j]) { DirEntry(s.m, s.roles, r, j); }
    if V(s.m[t][j]) { DirEntry(s.m, s.roles, t, j); }
  }

  /** A mapping made below 0x80000000 through a process root. */
  lemma UserMapKeepsSpaces(s: Snapshot, s': Snapshot, kernel: nat, cloned: set<nat>, end: nat,
                           root: nat, va: nat, f: nat, perm: Perm)
    requires Spaces(s, kernel, cloned, end) && Consistent(s') && 0 < f < FRAME_LIMIT
    requires IsRoot(s.roles, root) && root != kernel && Vpn(va, 2) < 2
    requires Mapped(s.m, s.roles, s.free, root, va, f, perm, s'.m, s'.roles, s'.free)
    ensures Spaces(s', kernel, cloned, end)
  {
    hide V, IsLeaf, U, Next, Vpn, LeafPte, SlotOf, Edge;
    var i := Vpn(va, 2);
    forall r, t | IsRoot(s'.roles, r) && IsRoot(s'.roles, t) && r != t
      ensures !Shares(s'.m, r, t, 1)
      ensures t in cloned ==> !Shares(s'.m, r, t, 0)
    {
      StillUnshared(s, s'.m, root, i, r, t, 1);
      if t in cloned {
        StillUnshared(s, s'.m, root, i, r, t, 0);
      }
    }
    forall a | end <= a < HEAP_LIMIT
      ensures SlotOf(s'.m, kernel, a) == None
    {
      HeapAddress(a);
    }
  }

  lemma NextPageDiffers(a: nat, end: nat)
    requires end % PAGE_SIZE == 0 && end + PAGE_SIZE <= a < HEAP_LIMIT
    ensures !SamePage(a, end)
  {
    hide SamePage;
    SamePageIsSamePageNumber(a, end);
  }

  /** A mapping leaves the slots of other pages alone. */
  lemma OtherSlotKept(s: Snapshot, s': Snapshot, root: nat, va: nat, f: nat, perm: Perm, a: nat)
    requires IsRoot(s.roles, root) && f < FRAME_LIMIT && !SamePage(a, va)
    requires Mapped(s.m, s.roles, s.free, root, va, f, perm, s'.m, s'.roles, s'.free)
    ensures SlotOf(s'.m, root, a) == SlotOf(s.m, root, a)
  {
    hide V, IsLeaf, U, Next, Vpn, LeafPte, SlotOf, SamePage, OnlySlot, Grows;
  }

  lemma HeapMapKeepsFrontier(s: Snapshot, s': Snapshot, kernel: nat, cloned: set<nat>, end: nat, f: nat, perm: Perm)
    requires Spaces(s, kernel, cloned, end) && 0 < f < FRAME_LIMIT && end < HEAP_LIMIT
    requires Mapped(s.m, s.roles, s.free, kernel, end, f, perm, s'.m, s'.roles, s'.free)
    ensures HeapFrontier(s', kernel, end + PAGE_SIZE)
  {
    hide V, Next, Vpn, SlotOf, SamePage, Mapped, Discipline, Consistent;
    SpacesBasics(s, kernel, cloned, end);
    forall a | end + PAGE_SIZE <= a < HEAP_LIMIT
      ensures SlotOf(s'.m, kernel, a) == None
    {
      assert SlotOf(s.m, kernel, a) == None;
      NextPageDiffers(a, end);
      OtherSlotKept(s, s', kernel, end, f, perm, a);
    }
  }

  lemma HeapMapKeepsDiscipline(s: Snapshot, s': Snapshot, kernel: nat, cloned: set<nat>, end: nat, f: nat, perm: Perm)
    requires Spaces(s, kernel, cloned, end) && Consistent(s') && 0 < f < FRAME_LIMIT && end < HEAP_LIMIT
    requires Mapped(s.m, s.roles, s.free, kernel, end, f, perm, s'.m, s'.roles, s'.free)
    ensures Discipline(s', kernel, cloned)
  {
    hide V, IsLeaf, U, Next, Vpn, LeafPte, SlotOf, SamePage, Edge;
    HeapAddress(end);
    assert s'.m[kernel] == s.m[kernel];
  }

  /** A heap page mapped through the kernel root at the frontier. */
  lemma HeapMapKeepsSpaces(s: Snapshot, s': Snapshot, kernel: nat, cloned: set<nat>, end: nat, f: nat, perm: Perm)
    requires Spaces(s, kernel, cloned, end) && Consistent(s') && 0 < f < FRAME_LIMIT && end < HEAP_LIMIT
    requires Mapped(s.m, s.roles, s.free, kernel, end, f, perm, s'.m, s'.roles, s'.free)
    ensures Spaces(s', kernel, cloned, end + PAGE_SIZE)
  {
    hide Consistent, Discipline, HeapFrontier, Mapped;
    HeapMapKeepsDiscipline(s, s', kernel, cloned, end, f, perm);
    HeapMapKeepsFrontier(s, s', kernel, cloned, end, f, perm);
  }

  /** Frames in use were not touched, so neither was any walk. */
  lemma SlotOfKept(s: Snapshot, s': Snapshot, root: nat, a: nat)
    requires Consistent(s) && IsRoot(s.roles, root)
    requires s'.m.Keys == s.m.Keys && forall f :: f in s.roles ==> s'.m[f] == s.m[f]
    ensures SlotOf(s'.m, root, a) == SlotOf(s.m, root, a)
  {
    hide V, IsLeaf, U, Next, Vpn;
    WalkIsThreeSteps(s.m, s.roles, root, a);
  }

  /** A root that is a copy of the kernel root. */
  lemma NewExecRootKeepsSpaces(s: Snapshot, s': Snapshot, kernel: nat, cloned: set<nat>, end: nat, root: nat)
    requires Spaces(s, kernel, cloned, end) && Consistent(s') && root in s.free
    requires s'.roles == s.roles[root := Root] && s'.m == s.m[root := s.m[kernel]]
    ensures Spaces(s', kernel, cloned, end)
  {
    hide V, IsLeaf, U, Next, Vpn, SlotOf;
    forall r, t | IsRoot(s'.roles, r) && IsRoot(s'.roles, t) && r != t
      ensures !Shares(s'.m, r, t, 1)
      ensures t in cloned ==> !Shares(s'.m, r, t, 0)
    {
      if r != root && t != root {
        assert !Shares(s.m, r, t, 1);
      } else if t in cloned {
        assert !Shares(s.m, kernel, t, 0);
      }
    }
    forall a | end <= a < HEAP_LIMIT
      ensures SlotOf(s'.m, kernel, a) == None
    {
      SlotOfKept(s, s', kernel, a);
    }
  }

  lemma ZeroIsInvalid()
    ensures !V(0)
  {
  }

  /** In the first two slots the clone shares no table with any root there was. */
  lemma CloneSharesNothing(s: Snapshot, s': Snapshot, parent: nat, child: nat, r: nat, i: nat)
    requires Consistent(s) && Consistent(s') && IsRoot(s.roles, parent) && IsRoot(s.roles, r) && i < 2
    requires Allocates(s, s', {}) && RootCloned(s, s', parent, child, 2)
    ensures r in s'.m && !Shares(s'.m, r, child, i) && !Shares(s'.m, child, r, i)
  {
    hide V, IsLeaf, U, Next, Vpn, SlotOf;
    assert DirCloned(s.m[parent][i], s'.m[child][i]);
    assert s'.m[r] == s.m[r];
    if V(s.m[r][i]) { DirEntry(s.m, s.roles, r, i); }
    if V(s.m[parent][i]) { assert MidCloned(s, s', Next(s.m[parent][i]), Next(s'.m[child][i]), 512); }
    else { ZeroIsInvalid(); }
  }

  /** A root made by clone_user_pagetable. */
  lemma ForkKeepsSpaces(s: Snapshot, s': Snapshot, kernel: nat, cloned: set<nat>, end: nat, parent: nat, child: nat)
    requires Spaces(s, kernel, cloned, end) && Consistent(s') && IsRoot(s.roles, parent)
    requires Allocates(s, s', {}) && RootCloned(s, s', parent, child, 2)
    requires forall r :: IsRoot(s'.roles, r) ==> r == child || IsRoot(s.roles, r)
    ensures Spaces(s', kernel, cloned + {child}, end)
  {
    hide V, IsLeaf, U, Next, Vpn, SlotOf, MidCloned;
    forall r, i | IsRoot(s.roles, r) && 0 <= i < 2
      ensures !Shares(s'.m, r, child, i) && !Shares(s'.m, child, r, i)
    {
      CloneSharesNothing(s, s', parent, child, r, i);
    }
    forall r, t | IsRoot(s'.roles, r) && IsRoot(s'.roles, t) && r != t
      ensures !Shares(s'.m, r, t, 1)
      ensures t in cloned + {child} ==> !Shares(s'.m, r, t, 0)
    {
      if r != child && t != child {
        assert !Shares(s.m, r, t, 1);
        assert t in cloned ==> !Shares(s.m, r, t, 0);
      }
    }
    forall a | end <= a < HEAP_LIMIT
      ensures SlotOf(s'.m, kernel, a) == None
    {
      SlotOfKept(s, s', kernel, a);
    }
  }

  // --- fork isolation ------------------------------------------------------------------------------------------

  lemma ForkSharesUpperSlots(s: Snapshot, s': Snapshot, parent: nat, child: nat, va: nat)
    requires Consistent(s) && IsRoot(s.roles, parent) && Allocates(s, s', {}) && child in s'.m
    requires s'.m[child][Vpn(va, 2)] == s.m[parent][Vpn(va, 2)]
    ensures SlotOf(s'.m, child, va) == SlotOf(s.m, parent, va)
    ensures PteOf(s'.m, child, va) == PteOf(s.m, parent, va)
  {
    hide V, IsLeaf, U, Next, Vpn;
    WalkIsThreeSteps(s.m, s.roles, parent, va);
  }

  /**
   What fork's copy means for translation: below 0x80000000 the child maps the same pages with the same low ten bits;
   user pages sit in frames that were free and hold the parent's bytes; everything else translates as in the parent.
   */
  lemma ForkTranslates(s: Snapshot, s': Snapshot, parent: nat, child: nat, va: nat)
    requires Consistent(s) && Consistent(s') && IsRoot(s.roles, parent)
    requires Allocates(s, s', {}) && RootCloned(s, s', parent, child, 2)
    ensures SlotOf(s'.m, parent, va) == SlotOf(s.m, parent, va) && PteOf(s'.m, parent, va) == PteOf(s.m, parent, va)
    ensures SlotOf(s'.m, child, va).Some? <==> SlotOf(s.m, parent, va).Some?
    ensures Vpn(va, 2) >= 2 ==> SlotOf(s'.m, child, va) == SlotOf(s.m, parent, va)
    ensures Vpn(va, 2) < 2 && SlotOf(s.m, parent, va).Some? ==> SlotOf(s'.m, child, va).value.table in s.free
    ensures SlotOf(s.m, parent, va).Some? && !(Vpn(va, 2) < 2 && U(PteOf(s.m, parent, va))) ==>
              PteOf(s'.m, child, va) == PteOf(s.m, parent, va)
    ensures SlotOf(s.m, parent, va).Some? && Vpn(va, 2) < 2 && U(PteOf(s.m, parent, va)) ==>
              && PteOf(s'.m, child, va) % 0x400 == PteOf(s.m, parent, va) % 0x400
              && Next(PteOf(s'.m, child, va)) in s.free
              && UserByte(s'.m, child, va).Some?
              && UserByte(s'.m, child, va) == UserByte(s.m, parent, va) == UserByte(s'.m, parent, va)
  {
    hide V, IsLeaf, U, Next, Vpn, Retarget;
    var i, j, k := Vpn(va, 2), Vpn(va, 1), Vpn(va, 0);
    SlotOfKept(s, s', parent, va);
    WalkIsThreeSteps(s.m, s.roles, parent, va);
    WalkIsThreeSteps(s'.m, s'.roles, child, va);
    ZeroIsInvalid();
    if i >= 2 {
      assert s'.m[child][i] == s.m[parent][i];
      ForkSharesUpperSlots(s, s', parent, child, va);
    } else {
      assert DirCloned(s.m[parent][i], s'.m[child][i]);
      if V(s.m[parent][i]) {
        var mid, mid' := Next(s.m[parent][i]), Next(s'.m[child][i]);
        assert MidCloned(s, s', mid, mid', 512);
        assert DirCloned(s.m[mid][j], s'.m[mid'][j]);
        if V(s.m[mid][j]) {
          var low, low' := Next(s.m[mid][j]), Next(s'.m[mid'][j]);
          assert LowCloned(s, s', low, low', 512);
          assert LeafCloned(s, s', s.m[low][k], s'.m[low'][k]);
          RetargetFacts(s.m[low][k], if Next(s'.m[low'][k]) < FRAME_LIMIT then Next(s'.m[low'][k]) else 0);
          if V(s.m[low][k]) && U(s.m[low][k]) {
            UserLeaf(s.m, s.roles, parent, va);
          }
        }
      }
    }
  }

  lemma SlotOfUnderUserStore(s: Snapshot, s': Snapshot, root: nat, a: nat)
    requires Consistent(s) && IsRoot(s.roles, root)
    requires s'.m.Keys == s.m.Keys && forall f :: IsTable(s.roles, f) ==> s'.m[f] == s.m[f]
    ensures SlotOf(s'.m, root, a) == SlotOf(s.m, root, a)
  {
    hide V, IsLeaf, U, Next, Vpn;
    WalkIsThreeSteps(s.m, s.roles, root, a);
  }

  /** Stores to user pages leave every table, and so the whole discipline, alone. */
  lemma UserStoreKeepsSpaces(s: Snapshot, kernel: nat, cloned: set<nat>, end: nat, p: nat, page: Page)
    requires Spaces(s, kernel, cloned, end) && p in s.roles && s.roles[p].User?
    ensures Spaces(Snapshot(s.m[p := page], s.roles, s.free), kernel, cloned, end)
  {
    hide V, IsLeaf, U, Next, Vpn, SlotOf;
    var s' := Snapshot(s.m[p := page], s.roles, s.free);
    WellTypedUserPage(s.m, s.roles, p, page);
    forall r, t | IsRoot(s.roles, r) && IsRoot(s.roles, t) && r != t
      ensures !Shares(s'.m, r, t, 1)
      ensures t in cloned ==> !Shares(s'.m, r, t, 0)
    {
      assert !Shares(s.m, r, t, 1);
      assert t in cloned ==> !Shares(s.m, r, t, 0);
    }
    forall v | end <= v < HEAP_LIMIT
      ensures SlotOf(s'.m, kernel, v) == None
    {
      SlotOfUnderUserStore(s, s', kernel, v);
    }
  }

  /** So do stores to frames that are neither tables nor user pages. */
  lemma UntypedStoreKeepsSpaces(s: Snapshot, s': Snapshot, kernel: nat, cloned: set<nat>, end: nat)
    requires Spaces(s, kernel, cloned, end) && Consistent(s') && s'.roles == s.roles
    requires s'.m.Keys == s.m.Keys && forall f :: f in s.roles ==> s'.m[f] == s.m[f]
    ensures Spaces(s', kernel, cloned, end)
  {
    hide V, IsLeaf, U, Next, Vpn, SlotOf;
    forall r, t | IsRoot(s.roles, r) && IsRoot(s.roles, t) && r != t
      ensures !Shares(s'.m, r, t, 1)
      ensures t in cloned ==> !Shares(s'.m, r, t, 0)
    {
      assert !Shares(s.m, r, t, 1);
      assert t in cloned ==> !Shares(s.m, r, t, 0);
    }
    forall v | end <= v < HEAP_LIMIT
      ensures SlotOf(s'.m, kernel, v) == None
    {
      SlotOfKept(s, s', kernel, v);
    }
  }

  // --- demand paging ---------------------------------------------------------------------------------------------

  lemma AlignedVpn(a: nat, level: nat)
    ensures Vpn(a / PAGE_SIZE * PAGE_SIZE, level) == Vpn(a, level)
  {
    var q := a / PAGE_SIZE;
    assert a / 0x20_0000 == q / 0x200 && a / 0x4000_0000 == q / 0x4_0000;
    assert q * PAGE_SIZE / 0x20_0000 == q / 0x200 && q * PAGE_SIZE / 0x4000_0000 == q / 0x4_0000;
  }

  lemma AlignedSamePage(m: Mem, root: nat, a: nat)
    ensures SamePage(a / PAGE_SIZE * PAGE_SIZE, a)
    ensures SlotOf(m, root, a / PAGE_SIZE * PAGE_SIZE) == SlotOf(m, root, a)
    ensures MissingTables(m, root, a / PAGE_SIZE * PAGE_SIZE) == MissingTables(m, root, a)
  {
    hide Vpn, V, Next;
    AlignedVpn(a, 0);
    AlignedVpn(a, 1);
    AlignedVpn(a, 2);
  }

  /**
   What a served fault leaves: the page reads as zeros through a fresh frame with R, W, X and U, and no lookup of any
   root changes except of this page, in the roots that share its middle table.
   */
  ghost predicate DemandPaged(a: Snapshot, b: Snapshot, root: nat, addr: nat) {
    && SlotOf(b.m, root, addr).Some?
    && Next(PteOf(b.m, root, addr)) in a.free && Next(PteOf(b.m, root, addr)) in b.m
    && b.m[Next(PteOf(b.m, root, addr))] == ZeroPage()
    && PteOf(b.m, root, addr) == (if Next(PteOf(b.m, root, addr)) < FRAME_LIMIT then
       LeafPte(Next(PteOf(b.m, root, addr)), Perm(true, true, true, true)) else 0)
    && (forall r, v :: IsRoot(a.roles, r) && !(SamePage(v, addr) && MidOf(b.m, r, addr) == MidOf(b.m, root, addr)) ==>
          LookupPage(b.m, r, v) == LookupPage(a.m, r, v))
  }

  lemma AllocKeepsSpaces(a: Snapshot, b: Snapshot, kernel: nat, cloned: set<nat>, end: nat, f: nat)
    requires Spaces(a, kernel, cloned, end) && f in a.free
    requires b == Snapshot(a.m[f := ZeroPage()], a.roles, a.free - {f})
    ensures Spaces(b, kernel, cloned, end)
  {
    hide V, IsLeaf, U, Next, Vpn, SlotOf;
    WellTypedOutside(a.m, a.roles, f, ZeroPage());
    forall r, t | IsRoot(b.roles, r) && IsRoot(b.roles, t) && r != t
      ensures !Shares(b.m, r, t, 1)
      ensures t in cloned ==> !Shares(b.m, r, t, 0)
    {
      assert !Shares(a.m, r, t, 1);
      assert t in cloned ==> !Shares(a.m, r, t, 0);
    }
    forall v | end <= v < HEAP_LIMIT
      ensures SlotOf(b.m, kernel, v) == None
    {
      SlotOfKept(a, b, kernel, v);
    }
  }

  lemma MissingTablesKept(s: Snapshot, s': Snapshot, root: nat, a: nat)
    requires Consistent(s) && IsRoot(s.roles, root)
    requires s'.m.Keys == s.m.Keys && forall f :: f in s.roles ==> s'.m[f] == s.m[f]
    ensures MissingTables(s'.m, root, a) == MissingTables(s.m, root, a)
  {
    hide V, IsLeaf, U, Next, Vpn;
    WalkIsThreeSteps(s.m, s.roles, root, a);
  }

  lemma FreshFrameKeepsLookup(a: Snapshot, b: Snapshot, r: nat, v: nat, page: nat)
    requires Consistent(a) && Consistent(b) && page in a.free && IsRoot(a.roles, r)
    requires b == Snapshot(a.m[page := ZeroPage()], a.roles, a.free - {page})
    ensures LookupPage(b.m, r, v) == LookupPage(a.m, r, v)
  {
    hide V, IsLeaf, U, Next, Vpn;
    SlotOfKept(a, b, r, v);
    ZeroMeansUnmapped(a.m, a.roles, r, v);
    ZeroMeansUnmapped(b.m, b.roles, r, v);
    WalkIsThreeSteps(a.m, a.roles, r, v);
  }

  lemma DemandPagedBy(a: Snapshot, b: Snapshot, c: Snapshot, root: nat, addr: nat, page: nat)
    requires Consistent(a) && Consistent(b) && Consistent(c) && page in a.free && IsRoot(a.roles, root)
    requires b == Snapshot(a.m[page := ZeroPage()], a.roles, a.free - {page})
    requires Mapped(b.m, b.roles, b.free, root, addr / PAGE_SIZE * PAGE_SIZE, page, Perm(true, true, true, true), c.m,
             c.roles, c.free)
    ensures DemandPaged(a, c, root, addr)
  {
    hide V, IsLeaf, U, Next, LeafPte;
    var aligned := addr / PAGE_SIZE * PAGE_SIZE;
    var perm := Perm(true, true, true, true);
    AlignedSamePage(c.m, root, addr);
    LeafPteFacts(page, perm);
    forall r, v | IsRoot(a.roles, r) && !(SamePage(v, addr) && MidOf(c.m, r, addr) == MidOf(c.m, root, addr))
      ensures LookupPage(c.m, r, v) == LookupPage(a.m, r, v)
    {
      FreshFrameKeepsLookup(a, b, r, v, page);
      MapThenLookup(b.m, b.roles, b.free, root, aligned, page, perm, c.m, c.roles, c.free, r, v);
    }
  }

  // --- boot --------------------------------------------------------------------------------------------------

  /** The state vmm_init leaves: one root, with entries in slots 0 and 2 only. */
  ghost predicate KernelOnly(s: Snapshot, kernel: nat) {
    && IsRoot(s.roles, kernel) && kernel in s.m && (forall r :: IsRoot(s.roles, r) ==> r == kernel)
    && (forall i :: 0 <= i < 512 ==> (V(s.m[kernel][i]) <==> i == 0 || i == 2))
  }

  lemma MappedSlotIsValid(m: Mem, roles: Roles, root: nat, va: nat)
    requires SlotOf(m, root, va).Some?
    ensures root in m && V(m[root][Vpn(va, 2)])
  {
  }

  lemma FirstHeapPage(a: Snapshot, b: Snapshot, kernel: nat, f: nat, perm: Perm)
    requires KernelOnly(a, kernel) && Consistent(a) && Consistent(b) && 0 < f < FRAME_LIMIT
    requires Mapped(a.m, a.roles, a.free, kernel, HEAP_START, f, perm, b.m, b.roles, b.free)
    ensures Spaces(b, kernel, {}, HEAP_START + PAGE_SIZE) && forall r :: IsRoot(b.roles, r) ==> r == kernel
  {
    hide V, IsLeaf, U, Next, Vpn, LeafPte, SamePage, SlotOf;
    HeapAddress(HEAP_START);
    MappedSlotIsValid(b.m, b.roles, kernel, HEAP_START);
    forall v | HEAP_START + PAGE_SIZE <= v < HEAP_LIMIT
      ensures SlotOf(b.m, kernel, v) == None
    {
      HeapAddress(v);
      SamePageIsSamePageNumber(v, HEAP_START);
      if SlotOf(a.m, kernel, v).Some? {
        MappedSlotIsValid(a.m, a.roles, kernel, v);
      }
    }
  }
}
