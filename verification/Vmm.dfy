/**
 vmm.c: building and walking page tables.

 A panic never returns in the kernel; here it is ok == false.
 */
module Vmm {
  import opened Options
  import opened Words
  import opened Pmm
  import opened Sv39

  /**
   How kernel operations may change page-table memory: frames leave the free set, frames in use keep their role and,
   unless they are tables, their contents; a valid table entry is never rewritten.
   */
  ghost predicate Grows(m: Mem, roles: Roles, free: set<nat>, m': Mem, roles': Roles, free': set<nat>) {
    && free' <= free
    && m'.Keys == m.Keys
    && (forall f :: f in roles ==> f in roles' && roles'[f] == roles[f])
    && (forall r :: IsRoot(roles', r) ==> IsRoot(roles, r))
    && (forall f :: f in m && f !in free && !IsTable(roles, f) ==> m'[f] == m[f])
    && (forall f, i :: IsTable(roles, f) && f in m && 0 <= i < 512 && V(m[f][i]) ==> m'[f][i] == m[f][i])
  }

  /** RAM as vmm_init maps it; the UART and the three PLIC pages, by page number. */
  const KERNEL_RAM: nat := 0x8000_0000
  const KERNEL_RAM_END: nat := 0x8800_0000
  const DEVICE_PAGES: set<nat> := {0x10000, 0xC000, 0xC002, 0xC201}
  const VA_LIMIT: nat := 0x80_0000_0000
  const VA_PAGES: nat := 0x800_0000

  function KernelPerm(a: nat): Perm {
    Perm(true, true, KERNEL_RAM <= a < KERNEL_RAM_END, false)
  }

  lemma EmptyRoot(m: Mem, roles: Roles, root: nat)
    requires root in m && 0 < root < FRAME_LIMIT && roles == map[root := Root] && m[root] == ZeroPage()
    ensures WellTyped(m, roles)
    ensures forall a :: SlotOf(m, root, a) == None
    ensures forall i :: 0 <= i < 512 ==> !V(m[root][i])
  {
    hide IsLeaf, U, Next, Vpn;
    forall a
      ensures SlotOf(m, root, a) == None
    {
      assert MidOf(m, root, a) == None;
    }
  }

  /** The number of tables vmm_map_page must allocate for va. */
  ghost function MissingTables(m: Mem, root: nat, va: nat): nat {
    if MidOf(m, root, va).None? then 2 else if LowOf(m, root, va).None? then 1 else 0
  }

  ghost predicate NewFrom(roles: Roles, free: set<nat>, roles': Roles) {
    forall f :: f in roles' && f !in roles ==> f in free
  }

  /** Among root tables only slot i of `root` may change, and a new entry there names a table that was free before. */
  ghost predicate OnlySlot(m: Mem, roles: Roles, free: set<nat>, root: nat, i: nat, m': Mem)
    requires i < 512
  {
    && root in m && root in m' && m'.Keys == m.Keys
    && (forall r :: IsRoot(roles, r) && r in m && r != root ==> m'[r] == m[r])
    && (forall j :: 0 <= j < 512 && j != i ==> m'[root][j] == m[root][j])
    && (V(m[root][i]) ==> m'[root][i] == m[root][i])
    && (!V(m[root][i]) && V(m'[root][i]) ==> Next(m'[root][i]) in free)
  }

  /** Growth that adds tables only under slot i of `root`, with no walk changed. */
  ghost predicate Descends(m: Mem, roles: Roles, free: set<nat>, root: nat, i: nat, m': Mem, roles': Roles,
      free': set<nat>)
    requires i < 512
  {
    && Grows(m, roles, free, m', roles', free')
    && NewFrom(roles, free, roles')
    && OnlySlot(m, roles, free, root, i, m')
    && (forall r, a :: IsRoot(roles, r) ==> SlotOf(m', r, a) == SlotOf(m, r, a))
  }

  lemma DescendsNowhere(m: Mem, roles: Roles, free: set<nat>, root: nat, i: nat)
    requires i < 512 && root in m
    ensures Descends(m, roles, free, root, i, m, roles, free)
  {
  }

  lemma DescendsTransitive(m0: Mem, roles0: Roles, free0: set<nat>, root: nat, i: nat,
                           m1: Mem, roles1: Roles, free1: set<nat>, m2: Mem, roles2: Roles, free2: set<nat>)
    requires i < 512 && IsRoot(roles0, root)
    requires Descends(m0, roles0, free0, root, i, m1, roles1, free1)
    requires Descends(m1, roles1, free1, root, i, m2, roles2, free2)
    ensures Descends(m0, roles0, free0, root, i, m2, roles2, free2)
  {
    hide V, Next, SlotOf;
    assert forall r :: IsRoot(roles0, r) ==> IsRoot(roles1, r);
  }

  /** What a successful vmm_map_page(root, va, f << 12, perm) does to memory. */
  ghost predicate Mapped(m: Mem, roles: Roles, free: set<nat>, root: nat, va: nat, f: nat, perm: Perm,
                         m': Mem, roles': Roles, free': set<nat>)
    requires f < FRAME_LIMIT
  {
    && Grows(m, roles, free, m', roles', free')
    && OnlySlot(m, roles, free, root, Vpn(va, 2), m')
    && (forall g :: g in roles' && g !in roles ==> g in free || (perm.u && g == f))
    && SlotOf(m', root, va).Some? && PteOf(m', root, va) == LeafPte(f, perm)
    && (forall r, a :: IsRoot(roles, r) ==>
          SlotOf(m', r, a) == if SamePage(a, va) && MidOf(m', r, va) == MidOf(m', root, va) then SlotOf(m', root, va)
              else SlotOf(m, r, a))
  }

  /** A low table is reached by the addresses of one 2 MiB range, through one middle table. */
  lemma LowTableIsUnique(m: Mem, roles: Roles, root: nat, va: nat)
    requires WellTyped(m, roles) && IsRoot(roles, root) && LowOf(m, root, va).Some?
    ensures forall r, a :: IsRoot(roles, r) ==>
              (LowOf(m, r, a) == LowOf(m, root, va)
               <==> Vpn(a, 2) == Vpn(va, 2) && Vpn(a, 1) == Vpn(va, 1) && MidOf(m, r, va) == MidOf(m, root, va))
  {
    hide V, IsLeaf, U, Next, Vpn;
    WalkIsThreeSteps(m, roles, root, va);
    forall r, a | IsRoot(roles, r)
      ensures LowOf(m, r, a) == LowOf(m, root, va)
              <==> Vpn(a, 2) == Vpn(va, 2) && Vpn(a, 1) == Vpn(va, 1) && MidOf(m, r, va) == MidOf(m, root, va)
    {
      WalkIsThreeSteps(m, roles, r, a);
    }
  }

  /** A mapping rewrites no leaf entry that was there. */
  lemma MappedKeepsOtherPtes(m: Mem, roles: Roles, free: set<nat>, root: nat, va: nat, f: nat, perm: Perm,
                             m': Mem, roles': Roles, free': set<nat>, r: nat, a: nat)
    requires WellTyped(m, roles) && IsRoot(roles, r) && f < FRAME_LIMIT
    requires Mapped(m, roles, free, root, va, f, perm, m', roles', free')
    requires SlotOf(m', r, a) == SlotOf(m, r, a)
    ensures PteOf(m', r, a) == PteOf(m, r, a)
  {
    hide V, IsLeaf, U, Next, Vpn, LeafPte;
    WalkIsThreeSteps(m, roles, r, a);
  }

  /** The last step of vmm_map_page: once the low table is reached, the leaf store completes `Mapped`. */
  lemma LeafStoreMaps(m0: Mem, roles0: Roles, free0: set<nat>, root: nat, va: nat, table: nat, f: nat, perm: Perm,
                      m: Mem, roles: Roles, free: set<nat>)
    requires IsRoot(roles0, root) && 0 < f < FRAME_LIMIT && Usable(perm)
    requires WellTyped(m, roles) && Descends(m0, roles0, free0, root, Vpn(va, 2), m, roles, free)
    requires table in roles && table in m && table in m0 && table !in free && roles[table].Low?
    requires LowOf(m, root, va) == Some(table) && !V(m[table][Vpn(va, 0)])
    requires perm.u ==> f in m && f !in roles && f !in free0
    ensures var m' := m[table := m[table][Vpn(va, 0) := LeafPte(f, perm)]];
            var roles' := if perm.u then roles[f := User(table, Vpn(va, 0))] else roles;
            WellTyped(m', roles') && Mapped(m0, roles0, free0, root, va, f, perm, m', roles', free)
  {
    hide V, IsLeaf, U, Next, Vpn, LeafPte, SlotOf;
    var i := Vpn(va, 0);
    LeafPteFacts(f, perm);
    var roles' := if perm.u then roles[f := User(table, i)] else roles;
    LowTableIsUnique(m, roles, root, va);
    PutLeaf(m, roles, table, i, LeafPte(f, perm), roles');
    var m' := m[table := m[table][i := LeafPte(f, perm)]];
    assert IsRoot(roles, root);
    assert SlotOf(m', root, va) == Some(Slot(table, i));
    forall r, a | IsRoot(roles0, r)
      ensures SlotOf(m', r, a) == if SamePage(a, va)
              && MidOf(m', r, va) == MidOf(m', root, va) then SlotOf(m', root, va) else SlotOf(m0, r, a)
    {
      assert IsRoot(roles, r);
    }
  }

  class Vmm {
    const ram: PhysicalMemory
    var kernelPagetable: nat
    ghost var roles: Roles

    constructor (ram: PhysicalMemory)
      ensures this.ram == ram && roles == map[]
    {
      this.ram := ram;
      kernelPagetable := 0;
      roles := map[];
    }

    ghost predicate Typed()
      reads this, ram
    {
      ram.Valid() && WellTyped(ram.mem, roles) && roles.Keys !! ram.free
    }

    /** Allocates a table and hangs it under the unused slot i of t: *pte = ((new >> 12) << 10) | PTE_V. */
    method NewTable(t: nat, i: nat) returns (ok: bool, child: nat)
      requires Typed() && i < 512
      requires t in roles && t in ram.mem && (roles[t].Root? || roles[t].Mid?) && !V(ram.mem[t][i])
      modifies this`roles, ram
      ensures ok <==> old(ram.free) != {}
      ensures !ok ==> ram.free == {}
      ensures ok ==> Typed()
      ensures ok ==> child in old(ram.free) && ram.free == old(ram.free) - {child}
                     && roles == old(roles)[child := ChildRole(old(roles), t, i)]
                     && ram.mem == old(ram.mem)[child := ZeroPage()][t := old(ram.mem)[t][i := DirPte(child)]]
      ensures ok ==> forall root, k ::
                IsRoot(old(roles), root) && k < 512 && (old(roles)[t].Root? ==> t == root && k == i) ==>
                  Descends(old(ram.mem), old(roles), old(ram.free), root, k, ram.mem, roles, ram.free)
    {
      hide V, IsLeaf, U, Next, SlotOf, PhysicalMemory.Valid, DirPte;
      ok, child := ram.AllocFrame();
      if !ok {
        return;
      }
      LinkEmptyTable(old(ram.mem), roles, t, i, child);
      DirPteFacts(child);
      ram.Store(t, i, DirPte(child));
      roles := roles[child := ChildRole(roles, t, i)];
      assert ram.mem == old(ram.mem)[child := ZeroPage()][t := old(ram.mem)[t][i := DirPte(child)]];
    }

    /** The uint64_t * that the loop of vmm_map_page moves to: the child under slot i, made if missing. */
    method NextTable(t: nat, i: nat) returns (ok: bool, child: nat)
      requires Typed() && i < 512
      requires t in roles && (roles[t].Root? || roles[t].Mid?)
      modifies this`roles, ram
      ensures ok <==> V(old(ram.mem)[t][i]) || old(ram.free) != {}
      ensures !ok ==> ram.free == {}
      ensures ok ==> Typed()
      ensures ok ==> child in roles && roles[child] == ChildRole(old(roles), t, i)
      ensures ok ==> t in ram.mem && V(ram.mem[t][i]) && Next(ram.mem[t][i]) == child
      ensures ok ==> forall f :: f in old(roles) ==>
                f in roles && roles[f] == old(roles)[f] && f in ram.mem && (f != t ==> ram.mem[f] == old(ram.mem)[f])
      ensures ok ==> |old(ram.free)| - |ram.free| == if V(old(ram.mem)[t][i]) then 0 else 1
      ensures ok && V(old(ram.mem)[t][i]) ==> ram.mem == old(ram.mem)
      ensures ok && !V(old(ram.mem)[t][i]) ==> child in ram.mem && forall j :: 0 <= j < 512 ==> !V(ram.mem[child][j])
      ensures ok ==> forall root, k ::
                IsRoot(old(roles), root) && k < 512 && (old(roles)[t].Root? ==> t == root && k == i) ==>
                  Descends(old(ram.mem), old(roles), old(ram.free), root, k, ram.mem, roles, ram.free)
    {
      hide IsLeaf, U, Next, SlotOf, PhysicalMemory.Valid, DirPte;
      var pte := ram.Load(t, i);
      if V(pte) {
        assert Edge(roles, t, i, pte);
        return !IsLeaf(pte), Next(pte);
      }
      ok, child := NewTable(t, i);
      if ok {
        DirPteFacts(child);
      }
    }

    /** The loop of vmm_map_page: walks to the low table of va, making the missing tables. */
    method LowTable(root: nat, va: nat) returns (ok: bool, table: nat)
      requires Typed() && IsRoot(roles, root)
      modifies this`roles, ram
      ensures ok <==> |old(ram.free)| >= MissingTables(old(ram.mem), root, va)
      ensures !ok ==> ram.free == {}
      ensures ok ==> Typed() && Descends(old(ram.mem), old(roles), old(ram.free), root, Vpn(va, 2), ram.mem, roles,
              ram.free)
      ensures ok ==> table in roles && roles[table].Low? && LowOf(ram.mem, root, va) == Some(table)
    {
      hide V, IsLeaf, U, Next, Vpn, PhysicalMemory.Valid, Descends;
      ghost var m0, roles0, free0 := ram.mem, roles, ram.free;
      ok, table := true, root;
      DescendsNowhere(m0, roles, free0, root, Vpn(va, 2));
      var level := 2;
      while level > 0
        invariant 0 <= level <= 2 && ok
        invariant Typed() && IsRoot(roles, root)
        invariant Descends(m0, roles0, free0, root, Vpn(va, 2), ram.mem, roles, ram.free)
        invariant |free0| - |ram.free| == MissingTables(m0, root, va) - MissingTables(ram.mem, root, va)
        invariant table in roles && table in ram.mem
        invariant level == 2 ==> table == root
        invariant level == 1 ==> roles[table].Mid? && MidOf(ram.mem, root, va) == Some(table)
        invariant level == 0 ==> roles[table].Low? && LowOf(ram.mem, root, va) == Some(table)
      {
        ghost var m1, roles1, free1 := ram.mem, roles, ram.free;
        ok, table := NextTable(table, Vpn(va, level));
        if !ok {
          return;
        }
        DescendsTransitive(m0, roles0, free0, root, Vpn(va, 2), m1, roles1, free1, ram.mem, roles, ram.free);
        level := level - 1;
      }
    }

    /**
     vmm_map_page.  It panics exactly when the page is already mapped or the frames run out; otherwise the page, and
     only this page, changes its translation, in `root` and in every root that shares the middle table with it.
     */
    method MapPage(root: nat, va: nat, pa: nat, perm: Perm) returns (ok: bool)
      requires Typed() && IsRoot(roles, root) && Usable(perm) && 0 < pa / PAGE_SIZE < FRAME_LIMIT
      requires perm.u ==> pa / PAGE_SIZE in ram.mem && pa / PAGE_SIZE !in roles && pa / PAGE_SIZE !in ram.free
      modifies this`roles, ram
      ensures !ok && SlotOf(old(ram.mem), root, va) == None ==> ram.free == {}
      ensures ok <==> SlotOf(old(ram.mem), root, va) == None && |old(ram.free)| >= MissingTables(old(ram.mem), root, va)
      ensures ok ==> Mapped(old(ram.mem), old(roles), old(ram.free), root, va, pa / PAGE_SIZE, perm, ram.mem, roles,
              ram.free)
      ensures ok ==> Typed()
    {
      hide V, IsLeaf, U, Next, Vpn, PhysicalMemory.Valid, LeafPte, Mapped;
      ghost var m0, roles0, free0 := ram.mem, roles, ram.free;
      var table;
      ok, table := LowTable(root, va);
      if !ok {
        return;
      }
      var i := Vpn(va, 0);
      if V(ram.Load(table, i)) {
        return false;
      }
      LeafStoreMaps(m0, roles0, free0, root, va, table, pa / PAGE_SIZE, perm, ram.mem, roles, ram.free);
      roles := if perm.u then roles[pa / PAGE_SIZE := User(table, i)] else roles;
      ram.Store(table, i, LeafPte(pa / PAGE_SIZE, perm));
    }

    /** The kernel root is the only root and maps exactly the pages of `done`, each to itself. */
    ghost predicate MapsIdentically(done: set<nat>)
      reads this, ram
    {
      && IsRoot(roles, kernelPagetable) && kernelPagetable in ram.mem
      && (forall r :: IsRoot(roles, r) ==> r == kernelPagetable)
      && (forall p :: p in done ==> p < VA_PAGES)
      && (forall a :: 0 <= a < VA_LIMIT ==> (SlotOf(ram.mem, kernelPagetable, a).Some? <==> a / PAGE_SIZE in done))
      && (forall a :: 0 <= a < VA_LIMIT && a / PAGE_SIZE in done ==>
            PteOf(ram.mem, kernelPagetable, a) == LeafPte(a / PAGE_SIZE, KernelPerm(a)))
      && (forall i :: 0 <= i < 512 && i != 0 && i != 2 ==> !V(ram.mem[kernelPagetable][i]))
    }

    /** vmm_map_page(kernel_pagetable, addr, addr, ...) as vmm_init calls it. */
    method MapIdentity(addr: nat, perm: Perm, ghost done: set<nat>) returns (ok: bool)
      requires Typed() && MapsIdentically(done) && addr % PAGE_SIZE == 0 && addr / PAGE_SIZE !in done
      requires 0 < addr < KERNEL_RAM_END && Vpn(addr, 2) in {0, 2} && perm == KernelPerm(addr)
      modifies this`roles, ram
      ensures !ok ==> ram.free == {}
      ensures ok ==> Typed() && MapsIdentically(done + {addr / PAGE_SIZE})
    {
      hide V, IsLeaf, U, Next, SlotOf, PhysicalMemory.Valid, LeafPte, WellTyped, SamePage, Vpn;
      ghost var m0, roles0, free0 := ram.mem, roles, ram.free;
      assert SlotOf(m0, kernelPagetable, addr) == None;
      ok := MapPage(kernelPagetable, addr, addr, perm);
      if ok {
        forall a | 0 <= a < VA_LIMIT
          ensures SlotOf(ram.mem, kernelPagetable, a).Some? <==> a / PAGE_SIZE in done + {addr / PAGE_SIZE}
          ensures a / PAGE_SIZE in done + {addr / PAGE_SIZE} ==>
                    PteOf(ram.mem, kernelPagetable, a) == LeafPte(a / PAGE_SIZE, KernelPerm(a))
        {
          SamePageIsSamePageNumber(a, addr);
          if a / PAGE_SIZE != addr / PAGE_SIZE {
            MappedKeepsOtherPtes(m0, roles0, free0, kernelPagetable, addr, addr / PAGE_SIZE, perm,
                                 ram.mem, roles, ram.free, kernelPagetable, a);
          }
        }
      }
    }

    /** Steps 1 and 2 of vmm_init. */
    method MapDevices() returns (ok: bool)
      requires Typed() && MapsIdentically({})
      modifies this`roles, ram
      ensures !ok ==> ram.free == {}
      ensures ok ==> Typed() && MapsIdentically(DEVICE_PAGES)
    {
      hide MapsIdentically, WellTyped, PhysicalMemory.Valid;
      var rw := Perm(true, true, false, false);
      ok := MapIdentity(0x1000_0000, rw, {});
      if !ok { return; }
      ghost var uart: set<nat> := {} + {0x10000};
      assert uart == {0x10000};
      ok := MapIdentity(0x0C00_0000, rw, {0x10000});
      if !ok { return; }
      assert {0x10000} + {0xC000} == {0x10000, 0xC000};
      ok := MapIdentity(0x0C00_2000, rw, {0x10000, 0xC000});
      if !ok { return; }
      assert {0x10000, 0xC000} + {0xC002} == {0x10000, 0xC000, 0xC002};
      ok := MapIdentity(0x0C20_1000, rw, {0x10000, 0xC000, 0xC002});
      assert {0x10000, 0xC000, 0xC002} + {0xC201} == DEVICE_PAGES;
    }

    /** Step 3 of vmm_init: the loop over RAM. */
    method MapKernelRam() returns (ok: bool)
      requires Typed() && MapsIdentically(DEVICE_PAGES)
      modifies this`roles, ram
      ensures !ok ==> ram.free == {}
      ensures ok ==> Typed() && MapsIdentically(DEVICE_PAGES +
              FrameRange(KERNEL_RAM / PAGE_SIZE, KERNEL_RAM_END / PAGE_SIZE))
    {
      hide MapsIdentically, WellTyped, PhysicalMemory.Valid, FrameRange;
      ghost var done: set<nat> := DEVICE_PAGES;
      var addr := KERNEL_RAM;
      while addr < KERNEL_RAM_END
        invariant KERNEL_RAM <= addr <= KERNEL_RAM_END && addr % PAGE_SIZE == 0
        invariant Typed() && MapsIdentically(done)
        invariant forall p: nat :: p in done <==> p in DEVICE_PAGES || KERNEL_RAM / PAGE_SIZE <= p < addr / PAGE_SIZE
      {
        ok := MapIdentity(addr, Perm(true, true, true, false), done);
        if !ok { return; }
        done := done + {addr / PAGE_SIZE};
        addr := addr + PAGE_SIZE;
      }
      ok := true;
      assert done == DEVICE_PAGES + FrameRange(KERNEL_RAM / PAGE_SIZE, KERNEL_RAM_END / PAGE_SIZE);
    }

    /** vmm_init up to the write of satp.  It panics only when the frames run out. */
    method Init() returns (ok: bool)
      requires ram.Valid() && roles == map[]
      modifies this`kernelPagetable, this`roles, ram
      ensures !ok ==> ram.free == {}
      ensures ok ==> Typed() && MapsIdentically(DEVICE_PAGES +
              FrameRange(KERNEL_RAM / PAGE_SIZE, KERNEL_RAM_END / PAGE_SIZE))
    {
      hide V, IsLeaf, U, Next, SlotOf, PhysicalMemory.Valid, LeafPte, WellTyped, FrameRange;
      ok, kernelPagetable := ram.AllocFrame();
      if !ok { return; }
      roles := map[kernelPagetable := Root];
      EmptyRoot(ram.mem, roles, kernelPagetable);
      ok := MapDevices();
      if !ok { return; }
      ok := MapKernelRam();
    }

    /** vmm_lookup_page */
    method Lookup(root: nat, va: nat) returns (pa: nat)
      requires Typed() && IsRoot(roles, root)
      ensures pa == LookupPage(ram.mem, root, va)
    {
      hide V, IsLeaf, U, Next, Vpn, PhysicalMemory.Valid;
      var table := root;
      var level := 2;
      while level >= 0
        invariant -1 <= level <= 2
        invariant level >= 0 ==> table in roles && LeafAt(ram.mem, table, va, level) == LeafAt(ram.mem, root, va, 2)
        invariant level == 2 ==> roles[table].Root?
        invariant level == 1 ==> roles[table].Mid?
        invariant level == 0 ==> roles[table].Low?
        invariant level == -1 ==> LeafAt(ram.mem, root, va, 2) == None
        decreases level
      {
        var pte := ram.Load(table, Vpn(va, level));
        if !V(pte) {
          return 0;
        }
        assert Edge(roles, table, Vpn(va, level), pte);
        if IsLeaf(pte) {
          return Next(pte) * PAGE_SIZE + va % PAGE_SIZE;
        }
        table := Next(pte);
        level := level - 1;
      }
      return 0;
    }
  }

  /**
   What vmm_map_page means for vmm_lookup_page, in every root there is: the page now translates to the frame, offset by
   offset, in `root` and in the roots that share its middle table, and no other lookup of any root changes.
   */
  lemma MapThenLookup(m: Mem, roles: Roles, free: set<nat>, root: nat, va: nat, f: nat, perm: Perm,
                      m': Mem, roles': Roles, free': set<nat>, r: nat, a: nat)
    requires WellTyped(m, roles) && WellTyped(m', roles') && roles.Keys !! free
    requires IsRoot(roles, root) && IsRoot(roles, r) && f < FRAME_LIMIT
    requires Mapped(m, roles, free, root, va, f, perm, m', roles', free')
    ensures SamePage(a, va) && MidOf(m', r, va) == MidOf(m', root, va) ==>
            LookupPage(m', r, a) == f * PAGE_SIZE + a % PAGE_SIZE
    ensures !(SamePage(a, va) && MidOf(m', r, va) == MidOf(m', root, va)) ==>
            LookupPage(m', r, a) == LookupPage(m, r, a)
  {
    hide V, IsLeaf, U, Next, Vpn, LeafPte;
    LeafPteFacts(f, perm);
    WalkIsThreeSteps(m, roles, r, a);
    WalkIsThreeSteps(m', roles', r, a);
  }
}
