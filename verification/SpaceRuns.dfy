/**
 Runs of address-space events: what exec, fork, demand paging, heap growth and stores to user pages do, in any order,
 to the tables that were built before them.
 */
module SpaceRuns {
  import opened Words
  import opened Pmm
  import opened Sv39
  import opened Vmm
  import opened Fork
  import opened AddressSpaces

  /** Memory with its typing, the kernel root, the roots fork made, and the end of the heap. */
  datatype Moment = Moment(s: Snapshot, kernel: nat, cloned: set<nat>, end: nat)

  /**
   The steps that the operations are made of.  exec is a NewRoot, then a MapPage and a Fill for each page; a page fault
   is a MapPage; expand_heap is a GrowHeap for each page; a store of a user program is a Fill, one of the kernel to its
   heap a PutHeap.
   */
  datatype Event =
    | NewRoot(root: nat)
    | Clone(parent: nat, child: nat)
    | MapPage(root: nat, va: nat, page: nat, perm: Perm)
    | Fill(root: nat, va: nat, contents: Page)
    | GrowHeap(page: nat)
    | PutHeap(va: nat, contents: Page)

  /** PTE_R | PTE_W, as expand_heap maps its pages. */
  const HEAP_PERM: Perm := Perm(true, true, false, false)

  ghost predicate Good(a: Moment) { Spaces(a.s, a.kernel, a.cloned, a.end) }

  /** The frame behind an address of the heap window. */
  ghost function HeapFrame(m: Mem, kernel: nat, va: nat): nat { Next(PteOf(m, kernel, va)) }

  /** Memory after pmm_alloc_frame handed out a frame. */
  ghost function WithFrame(s: Snapshot, f: nat): Snapshot {
    Snapshot(s.m[f := ZeroPage()], s.roles, s.free - {f})
  }

  ghost predicate Step(a: Moment, e: Event, b: Moment) {
    && b.kernel == a.kernel && Consistent(b.s)
    && match e {
         case NewRoot(root) =>
           && root in a.s.free && a.kernel in a.s.m && b.cloned == a.cloned && b.end == a.end
           && b.s == Snapshot(a.s.m[root := a.s.m[a.kernel]], a.s.roles[root := Root], a.s.free - {root})
         case Clone(parent, child) =>
           && IsRoot(a.s.roles, parent) && b.cloned == a.cloned + {child} && b.end == a.end
           && Allocates(a.s, b.s, {}) && RootCloned(a.s, b.s, parent, child, 2)
           && (forall r :: IsRoot(b.s.roles, r) ==> r == child || IsRoot(a.s.roles, r))
         case MapPage(root, va, page, perm) =>
           && IsRoot(a.s.roles, root) && root != a.kernel && Vpn(va, 2) < 2 && perm.u
           && b.cloned == a.cloned && b.end == a.end
           && page in a.s.free && 0 < page < FRAME_LIMIT
           && var s := WithFrame(a.s, page);
              Mapped(s.m, s.roles, s.free, root, va, page, perm, b.s.m, b.s.roles, b.s.free)
         case Fill(root, va, contents) =>
           && IsRoot(a.s.roles, root) && b.cloned == a.cloned && b.end == a.end
           && SlotOf(a.s.m, root, va).Some? && U(PteOf(a.s.m, root, va))
           && b.s == a.s.(m := a.s.m[Next(PteOf(a.s.m, root, va)) := contents])
         case GrowHeap(page) =>
           && a.end < HEAP_LIMIT && b.cloned == a.cloned && b.end == a.end + PAGE_SIZE
           && page in a.s.free && 0 < page < FRAME_LIMIT
           && var s := WithFrame(a.s, page);
              Mapped(s.m, s.roles, s.free, a.kernel, a.end, page, HEAP_PERM, b.s.m, b.s.roles, b.s.free)
         case PutHeap(va, contents) =>
           && HEAP_START <= va < a.end && b.cloned == a.cloned && b.end == a.end
           && var p := HeapFrame(a.s.m, a.kernel, va);
              p in a.s.m && p !in a.s.roles && p !in a.s.free && b.s == a.s.(m := a.s.m[p := contents])
       }
  }

  // --- what one step keeps -----------------------------------------------------------------------------------------

  lemma StepKeepsGood(a: Moment, e: Event, b: Moment)
    requires Good(a) && Step(a, e, b)
    ensures Good(b)
  {
    hide V, IsLeaf, U, Next, Vpn, SlotOf, PteOf, Mapped, Discipline, HeapFrontier, WellTyped, RootCloned, Allocates;
    match e
    case NewRoot(root) => NewExecRootKeepsSpaces(a.s, b.s, a.kernel, a.cloned, a.end, root);
    case Clone(parent, child) => ForkKeepsSpaces(a.s, b.s, a.kernel, a.cloned, a.end, parent, child);
    case MapPage(root, va, page, perm) =>
      AllocKeepsSpaces(a.s, WithFrame(a.s, page), a.kernel, a.cloned, a.end, page);
      UserMapKeepsSpaces(WithFrame(a.s, page), b.s, a.kernel, a.cloned, a.end, root, va, page, perm);
    case Fill(root, va, contents) =>
      UserLeaf(a.s.m, a.s.roles, root, va);
      UserStoreKeepsSpaces(a.s, a.kernel, a.cloned, a.end, Next(PteOf(a.s.m, root, va)), contents);
    case GrowHeap(page) =>
      AllocKeepsSpaces(a.s, WithFrame(a.s, page), a.kernel, a.cloned, a.end, page);
      HeapMapKeepsSpaces(WithFrame(a.s, page), b.s, a.kernel, a.cloned, a.end, page, HEAP_PERM);
    case PutHeap(va, contents) => UntypedStoreKeepsSpaces(a.s, b.s, a.kernel, a.cloned, a.end);
  }

  /** Nothing that is a root, a table or a user page stops being one. */
  ghost predicate RolesKept(a: Roles, b: Roles) { forall f :: f in a ==> f in b && b[f] == a[f] }

  lemma StepKeepsRoles(a: Moment, e: Event, b: Moment)
    requires Good(a) && Step(a, e, b)
    ensures RolesKept(a.s.roles, b.s.roles)
    ensures forall r :: r in a.s.roles ==> (r in b.cloned <==> r in a.cloned)
  {
    hide V, IsLeaf, U, Next, Vpn, SlotOf, PteOf, OnlySlot, WellTyped, Discipline;
  }

  /** Frames in use keep their contents, so a root in use translates and reads as before. */
  lemma FramesInUseKept(s: Snapshot, s': Snapshot, t: nat, v: nat)
    requires Consistent(s) && IsRoot(s.roles, t)
    requires s'.m.Keys == s.m.Keys && forall f :: f in s.roles ==> s'.m[f] == s.m[f]
    ensures Same(s.m, s'.m, t, v)
  {
    hide V, IsLeaf, U, Next, Vpn;
    SlotOfKept(s, s', t, v);
    WalkIsThreeSteps(s.m, s.roles, t, v);
    if SlotOf(s.m, t, v).Some? && U(PteOf(s.m, t, v)) {
      UserLeaf(s.m, s.roles, t, v);
    }
  }

  /** Does root t use what a step does to the page of va through `root`? */
  predicate Affected(cloned: set<nat>, root: nat, va: nat, t: nat) {
    t == root || Vpn(va, 2) >= 2 || (Vpn(va, 2) == 0 && root !in cloned && t !in cloned)
  }

  lemma MapIsConfined(s: Snapshot, s': Snapshot, kernel: nat, cloned: set<nat>, end: nat,
                      r: nat, va: nat, f: nat, perm: Perm, t: nat, v: nat)
    requires Spaces(s, kernel, cloned, end) && Spaces(s', kernel, cloned, end) && 0 < f < FRAME_LIMIT
    requires IsRoot(s.roles, r) && IsRoot(s.roles, t) && Vpn(va, 2) < 2
    requires Mapped(s.m, s.roles, s.free, r, va, f, perm, s'.m, s'.roles, s'.free)
    requires !(SamePage(v, va) && Affected(cloned, r, va, t))
    ensures Same(s.m, s'.m, t, v)
  {
    hide V, IsLeaf, U, Next, Vpn, SlotOf, PteOf, UserByte, Discipline, HeapFrontier, WellTyped;
    if SamePage(v, va) {
      MapIsolation(s, s', kernel, cloned, end, r, va, f, perm, t, v);
    }
    MapKeepsUserByte(s, s', r, va, f, perm, t, v);
  }

  lemma FillAliases(s: Snapshot, kernel: nat, cloned: set<nat>, end: nat, r: nat, va: nat, t: nat, v: nat)
    requires Spaces(s, kernel, cloned, end) && IsRoot(s.roles, r) && IsRoot(s.roles, t) && r != t
    requires SlotOf(s.m, r, va).Some? && SamePage(v, va) && !Affected(cloned, r, va, t)
    ensures SlotOf(s.m, t, v) != SlotOf(s.m, r, va)
  {
    hide V, IsLeaf, U, Next, Vpn, Discipline, HeapFrontier, WellTyped;
    SharingIsExact(s, kernel, cloned, end, r, t, va);
    assert SlotOf(s.m, t, v) == SlotOf(s.m, t, va);
  }

  lemma FillIsConfined(s: Snapshot, kernel: nat, cloned: set<nat>, end: nat, r: nat, va: nat, contents: Page, t: nat,
      v: nat)
    requires Spaces(s, kernel, cloned, end) && IsRoot(s.roles, r) && IsRoot(s.roles, t)
    requires SlotOf(s.m, r, va).Some? && U(PteOf(s.m, r, va))
    requires !(SamePage(v, va) && Affected(cloned, r, va, t))
    ensures Same(s.m, s.m[Next(PteOf(s.m, r, va)) := contents], t, v)
  {
    hide V, IsLeaf, U, Next, Vpn, Discipline, HeapFrontier;
    var p := Next(PteOf(s.m, r, va));
    var s' := s.(m := s.m[p := contents]);
    UserLeaf(s.m, s.roles, r, va);
    SlotOfUnderUserStore(s, s', t, v);
    WalkIsThreeSteps(s.m, s.roles, t, v);
    if SlotOf(s.m, t, v).Some? && U(PteOf(s.m, t, v)) {
      UserLeaf(s.m, s.roles, t, v);
      SameSlotMeansSamePage(s.m, s.roles, r, va, t, v);
      if SamePage(v, va) { FillAliases(s, kernel, cloned, end, r, va, t, v); }
    }
  }

  /** The translations and bytes of root t at v that a step may change. */
  predicate Touches(a: Moment, e: Event, t: nat, v: nat) {
    match e
    case MapPage(root, va, _, _) => SamePage(v, va) && Affected(a.cloned, root, va, t)
    case Fill(root, va, _) => SamePage(v, va) && Affected(a.cloned, root, va, t)
    case GrowHeap(_) => SamePage(v, a.end)
    case _ => false
  }

  lemma RolesInUse(s: Snapshot)
    requires Consistent(s)
    ensures forall f :: f in s.roles ==> f in s.m && f !in s.free
  {
  }

  lemma CloneIsConfined(s: Snapshot, s': Snapshot, t: nat, v: nat)
    requires Consistent(s) && IsRoot(s.roles, t) && Allocates(s, s', {})
    ensures Same(s.m, s'.m, t, v)
  {
    hide V, IsLeaf, U, Next, Vpn, SlotOf, PteOf, UserByte, Same, WellTyped;
    assert forall f :: f in s.roles ==> f in s.m && f !in s.free by { RolesInUse(s); }
    FramesInUseKept(s, s', t, v);
  }

  lemma SameTransitive(a: Mem, b: Mem, c: Mem, t: nat, v: nat)
    requires Same(a, b, t, v) && Same(b, c, t, v)
    ensures Same(a, c, t, v)
  {
  }

  lemma HeapMapIsConfined(s: Snapshot, s': Snapshot, kernel: nat, end: nat, f: nat, perm: Perm, t: nat, v: nat)
    requires Consistent(s) && Consistent(s') && IsRoot(s.roles, t) && 0 < f < FRAME_LIMIT && !SamePage(v, end)
    requires Mapped(s.m, s.roles, s.free, kernel, end, f, perm, s'.m, s'.roles, s'.free)
    ensures Same(s.m, s'.m, t, v)
  {
    hide V, IsLeaf, U, Next, Vpn, SlotOf, PteOf, UserByte, WellTyped, SamePage, LeafPte;
    MapKeepsUserByte(s, s', kernel, end, f, perm, t, v);
  }

  /** A step changes no translation and no byte of any root that was there, but for the page it is about. */
  lemma StepIsConfined(a: Moment, e: Event, b: Moment, t: nat, v: nat)
    requires Good(a) && Step(a, e, b) && IsRoot(a.s.roles, t) && !Touches(a, e, t, v)
    ensures Same(a.s.m, b.s.m, t, v)
  {
    hide V, IsLeaf, U, Next, Vpn, SlotOf, PteOf, UserByte, Mapped, Discipline, HeapFrontier, WellTyped, RootCloned,
         SamePage, Same, Affected;
    StepKeepsGood(a, e, b);
    match e
    case NewRoot(root) => FramesInUseKept(a.s, b.s, t, v);
    case Clone(parent, child) => CloneIsConfined(a.s, b.s, t, v);
    case MapPage(root, va, page, perm) =>
      var s := WithFrame(a.s, page);
      AllocKeepsSpaces(a.s, s, a.kernel, a.cloned, a.end, page);
      FramesInUseKept(a.s, s, t, v);
      MapIsConfined(s, b.s, a.kernel, a.cloned, a.end, root, va, page, perm, t, v);
      SameTransitive(a.s.m, s.m, b.s.m, t, v);
    case Fill(root, va, contents) => FillIsConfined(a.s, a.kernel, a.cloned, a.end, root, va, contents, t, v);
    case GrowHeap(page) =>
      var s := WithFrame(a.s, page);
      AllocKeepsSpaces(a.s, s, a.kernel, a.cloned, a.end, page);
      FramesInUseKept(a.s, s, t, v);
      HeapMapIsConfined(s, b.s, a.kernel, a.end, page, HEAP_PERM, t, v);
      SameTransitive(a.s.m, s.m, b.s.m, t, v);
    case PutHeap(va, contents) => FramesInUseKept(a.s, b.s, t, v);
  }

  // --- runs ---------------------------------------------------------------------------------------------------------

  /** States and the steps between them. */
  ghost predicate Trace(ms: seq<Moment>, es: seq<Event>) {
    |ms| == |es| + 1 && forall k :: 0 <= k < |es| ==> Step(ms[k], es[k], ms[k + 1])
  }

  /** No leaf of the kernel's part, from 0x80000000 up, has the U bit. */
  ghost predicate WindowClosed(a: Moment) {
    forall v: nat :: v < VA_LIMIT && Vpn(v, 2) >= 2 && SlotOf(a.s.m, a.kernel, v).Some? ==>
      !U(PteOf(a.s.m, a.kernel, v))
  }

  /** The 128 MiB of RAM. */
  predicate InRam(v: nat) { 0x8000_0000 <= v < 0x8800_0000 }

  /** The UART's page and the three of the PLIC. */
  predicate InDevice(v: nat) { v / PAGE_SIZE in {0x1_0000, 0xC000, 0xC002, 0xC201} }

  /** Root r maps v to itself, with V, R, W, A and D, and X if it is RAM. */
  ghost predicate WiredAt(m: Mem, r: nat, v: nat) {
    SlotOf(m, r, v).Some? && PteOf(m, r, v) == v / PAGE_SIZE * 0x400 + (if InRam(v) then 0xCF else 0xC7)
  }

  /** RAM and devices are there through every root. */
  ghost predicate Wired(a: Moment) {
    forall r, v: nat :: IsRoot(a.s.roles, r) && (InRam(v) || InDevice(v)) ==> WiredAt(a.s.m, r, v)
  }

  /** After boot the kernel root is the only one. */
  ghost predicate Booted(a: Moment) {
    && Good(a) && a.cloned == {} && a.end == HEAP_START + PAGE_SIZE && WindowClosed(a) && Wired(a)
    && forall r :: IsRoot(a.s.roles, r) ==> r == a.kernel
  }

  ghost predicate Run(ms: seq<Moment>, es: seq<Event>) { Trace(ms, es) && Booted(ms[0]) }

  lemma StepKeepsKernel(a: Moment, e: Event, b: Moment)
    requires Step(a, e, b)
    ensures b.kernel == a.kernel
  {
  }

  lemma {:induction false} TraceKeepsGood(ms: seq<Moment>, es: seq<Event>, k: nat)
    requires Trace(ms, es) && Good(ms[0]) && k < |ms|
    ensures Good(ms[k]) && ms[k].kernel == ms[0].kernel
    decreases k
  {
    hide Good, Step;
    if k > 0 {
      TraceKeepsGood(ms, es, k - 1);
      assert Step(ms[k - 1], es[k - 1], ms[k]);
      StepKeepsGood(ms[k - 1], es[k - 1], ms[k]);
      StepKeepsKernel(ms[k - 1], es[k - 1], ms[k]);
    }
  }

  /** What was built stays: tables are never taken apart, and a root stays cloned or exec-built. */
  lemma {:induction false} TraceKeepsRoles(ms: seq<Moment>, es: seq<Event>, i: nat, j: nat)
    requires Trace(ms, es) && Good(ms[0]) && i <= j < |ms|
    ensures RolesKept(ms[i].s.roles, ms[j].s.roles)
    ensures forall r :: r in ms[i].s.roles ==> (r in ms[j].cloned <==> r in ms[i].cloned)
    decreases j
  {
    hide Good, Step;
    if i < j {
      TraceKeepsRoles(ms, es, i, j - 1);
      TraceKeepsGood(ms, es, j - 1);
      assert Step(ms[j - 1], es[j - 1], ms[j]);
      StepKeepsRoles(ms[j - 1], es[j - 1], ms[j]);
    }
  }

  /**
   Kernel-window coherence over runs: every root there is at some moment is a root ever after, and from then on agrees
   with the kernel root on everything from 0x80000000 up, the heap pages mapped after it was built included.
   */
  lemma WindowCoherentInRuns(ms: seq<Moment>, es: seq<Event>, i: nat, j: nat, r: nat, va: nat)
    requires Run(ms, es) && i <= j < |ms| && IsRoot(ms[i].s.roles, r) && Vpn(va, 2) >= 2
    ensures IsRoot(ms[j].s.roles, r)
    ensures SlotOf(ms[j].s.m, r, va) == SlotOf(ms[j].s.m, ms[0].kernel, va)
    ensures LookupPage(ms[j].s.m, r, va) == LookupPage(ms[j].s.m, ms[0].kernel, va)
  {
    hide Spaces, Step, SlotOf, LookupPage, Vpn;
    TraceKeepsRoles(ms, es, i, j);
    TraceKeepsGood(ms, es, j);
    KernelWindowCoherence(ms[j].s, ms[j].kernel, ms[j].cloned, ms[j].end, r, va);
  }

  lemma FillKeepsSlots(a: Moment, e: Event, b: Moment, t: nat, v: nat)
    requires Good(a) && Step(a, e, b) && e.Fill? && IsRoot(a.s.roles, t)
    ensures SlotOf(b.s.m, t, v) == SlotOf(a.s.m, t, v)
  {
    hide V, IsLeaf, U, Next, Vpn, SlotOf, Discipline, HeapFrontier;
    UserLeaf(a.s.m, a.s.roles, e.root, e.va);
    SlotOfUnderUserStore(a.s, b.s, t, v);
  }

  lemma EndStays(a: Moment, e: Event, b: Moment)
    requires Step(a, e, b) && !e.GrowHeap?
    ensures b.end == a.end
  {
  }

  lemma SamePageSameSlot(m: Mem, r: nat, v: nat, a: nat)
    requires SamePage(v, a)
    ensures SlotOf(m, r, v) == SlotOf(m, r, a)
  {
    hide V, Next, Vpn;
  }

  /** The page that a heap step maps. */
  lemma TouchedHeapPage(a: Moment, e: Event, b: Moment, va: nat)
    requires Step(a, e, b) && Touches(a, e, a.kernel, va) && !e.Fill? && HEAP_START <= va < HEAP_LIMIT
    ensures SlotOf(b.s.m, a.kernel, va).Some?
  {
    hide V, IsLeaf, U, Next, SlotOf, PteOf, WellTyped, Vpn;
    HeapAddress(va);
    if e.GrowHeap? {
      SamePageSameSlot(b.s.m, a.kernel, va, a.end);
    }
  }

  lemma EndMoves(a: Moment, e: Event, b: Moment, va: nat)
    requires Step(a, e, b) && !Touches(a, e, a.kernel, va) && HEAP_START <= va < b.end && b.end <= HEAP_LIMIT
             && a.end % PAGE_SIZE == 0
    ensures va < a.end
  {
    hide SamePage, Mapped, Consistent, RootCloned, Allocates;
    if va >= a.end && e.GrowHeap? {
      SamePageIsSamePageNumber(va, a.end);
    }
  }

  lemma GrowthMaps(a: Moment, e: Event, b: Moment, va: nat)
    requires Good(a) && Step(a, e, b) && HEAP_START <= va < b.end
    requires va < a.end ==> SlotOf(a.s.m, a.kernel, va).Some?
    ensures SlotOf(b.s.m, a.kernel, va).Some?
  {
    hide V, IsLeaf, U, Next, Vpn, SlotOf, PteOf, WellTyped, SamePage, UserByte, Spaces, Step;
    SpacesBasics(a.s, a.kernel, a.cloned, a.end);
    StepKeepsKernel(a, e, b);
    StepKeepsGood(a, e, b);
    SpacesBasics(b.s, a.kernel, b.cloned, b.end);
    HeapAddress(va);
    if e.Fill? {
      FillKeepsSlots(a, e, b, a.kernel, va);
      EndStays(a, e, b);
    } else if Touches(a, e, a.kernel, va) {
      TouchedHeapPage(a, e, b, va);
    } else {
      StepIsConfined(a, e, b, a.kernel, va);
      EndMoves(a, e, b, va);
    }
  }

  lemma {:induction false} HeapGrowsMapped(ms: seq<Moment>, es: seq<Event>, i: nat, j: nat, va: nat)
    requires Trace(ms, es) && Good(ms[0]) && i <= j < |ms| && ms[i].end <= va < ms[j].end
    ensures SlotOf(ms[j].s.m, ms[0].kernel, va).Some?
    decreases j
  {
    hide Spaces, Step, SlotOf, Vpn;
    if i < j {
      var a, e, b := ms[j - 1], es[j - 1], ms[j];
      assert Step(a, e, b);
      TraceKeepsGood(ms, es, j - 1);
      TraceKeepsGood(ms, es, i);
      SpacesBasics(ms[i].s, ms[i].kernel, ms[i].cloned, ms[i].end);
      if va < a.end { HeapGrowsMapped(ms, es, i, j - 1, va); }
      GrowthMaps(a, e, b, va);
    }
  }

  /** Every page of the heap so far is mapped in every root. */
  lemma HeapMappedInRuns(ms: seq<Moment>, es: seq<Event>, i: nat, j: nat, r: nat, va: nat)
    requires Run(ms, es) && i <= j < |ms| && IsRoot(ms[i].s.roles, r) && ms[i].end <= va < ms[j].end
    ensures SlotOf(ms[j].s.m, r, va).Some?
  {
    hide Spaces, Step, SlotOf, Vpn;
    TraceKeepsGood(ms, es, j);
    HeapGrowsMapped(ms, es, i, j, va);
    TraceKeepsGood(ms, es, i);
    SpacesBasics(ms[i].s, ms[i].kernel, ms[i].cloned, ms[i].end);
    SpacesBasics(ms[j].s, ms[j].kernel, ms[j].cloned, ms[j].end);
    HeapAddress(va);
    WindowCoherentInRuns(ms, es, i, j, r, va);
  }

  /**
   Can the step change what t translates or reads at an address like v?  Only through t itself, or in the shared slot
   0.
   */
  predicate Through(a: Moment, e: Event, t: nat, v: nat) {
    (e.MapPage? || e.Fill?) && (e.root == t || (Vpn(v, 2) == 0 && e.root !in a.cloned && t !in a.cloned))
  }

  lemma SameItself(m: Mem, t: nat, v: nat)
    ensures Same(m, m, t, v)
  {
  }

  lemma NotThroughNotTouched(a: Moment, e: Event, b: Moment, t: nat, v: nat)
    requires Good(a) && Step(a, e, b) && !Through(a, e, t, v) && Vpn(v, 2) < 2
    ensures !Touches(a, e, t, v)
  {
    hide Spaces, Vpn, Mapped, Consistent, RootCloned, Allocates;
    SpacesBasics(a.s, a.kernel, a.cloned, a.end);
    if e.GrowHeap? { HeapAddress(a.end); }
  }

  /**
   Isolation over runs: as long as no step goes through root t itself (nor, in slot 0 of a table that exec built,
   through another such table), whatever else happens to other address spaces, t translates and reads every user
   address as it did.
   */
  lemma {:induction false} IsolatedInRuns(ms: seq<Moment>, es: seq<Event>, i: nat, j: nat, t: nat, v: nat)
    requires Run(ms, es) && i <= j < |ms| && IsRoot(ms[i].s.roles, t) && Vpn(v, 2) < 2
    requires forall k :: i <= k < j ==> !Through(ms[k], es[k], t, v)
    ensures Same(ms[i].s.m, ms[j].s.m, t, v)
    decreases j
  {
    hide Spaces, Step, Same, SlotOf, Vpn, Through;
    if i < j {
      IsolatedInRuns(ms, es, i, j - 1, t, v);
      TraceKeepsGood(ms, es, j - 1);
      TraceKeepsRoles(ms, es, i, j - 1);
      assert Step(ms[j - 1], es[j - 1], ms[j]) && !Through(ms[j - 1], es[j - 1], t, v);
      NotThroughNotTouched(ms[j - 1], es[j - 1], ms[j], t, v);
      StepIsConfined(ms[j - 1], es[j - 1], ms[j], t, v);
      SameTransitive(ms[i].s.m, ms[j - 1].s.m, ms[j].s.m, t, v);
    } else {
      SameItself(ms[i].s.m, t, v);
    }
  }

  /** A cloned table is isolated at every user address: only steps through it change what it reads. */
  lemma ClonedTablesAreIsolated(ms: seq<Moment>, es: seq<Event>, i: nat, j: nat, t: nat, v: nat)
    requires Run(ms, es) && i <= j < |ms| && t in ms[i].cloned && Vpn(v, 2) < 2
    requires forall k :: i <= k < j ==> !((es[k].MapPage? || es[k].Fill?) && es[k].root == t)
    ensures IsRoot(ms[i].s.roles, t) && UserByte(ms[j].s.m, t, v) == UserByte(ms[i].s.m, t, v)
  {
    hide Step, SlotOf, Vpn;
    TraceKeepsGood(ms, es, i);
    forall k | i <= k < j
      ensures !Through(ms[k], es[k], t, v)
    {
      TraceKeepsRoles(ms, es, i, k);
    }
    IsolatedInRuns(ms, es, i, j, t, v);
  }

  // --- what an operation does, as the steps it makes ----------------------------------------------------------------

  ghost predicate Path(a: Moment, es: seq<Event>, b: Moment) {
    exists ms :: Trace(ms, es) && ms[0] == a && ms[|es|] == b
  }

  lemma PathOfNothing(a: Moment)
    ensures Path(a, [], a)
  {
    assert Trace([a], []);
  }

  lemma PathOfStep(a: Moment, e: Event, b: Moment)
    requires Step(a, e, b)
    ensures Path(a, [e], b)
  {
    hide Step;
    assert Trace([a, b], [e]);
  }

  lemma PathConcat(a: Moment, es: seq<Event>, b: Moment, fs: seq<Event>, c: Moment)
    requires Path(a, es, b) && Path(b, fs, c)
    ensures Path(a, es + fs, c)
  {
    hide Step;
    var ms :| Trace(ms, es) && ms[0] == a && ms[|es|] == b;
    var ns :| Trace(ns, fs) && ns[0] == b && ns[|fs|] == c;
    var all := ms + ns[1..];
    forall k | 0 <= k < |es + fs|
      ensures Step(all[k], (es + fs)[k], all[k + 1])
    {
      if k < |es| {
        assert Step(ms[k], es[k], ms[k + 1]);
      } else {
        assert Step(ns[k - |es|], fs[k - |es|], ns[k - |es| + 1]);
      }
    }
    assert Trace(all, es + fs) && all[|es + fs|] == c;
  }

  /** A step of exec, of demand paging or of a user program that works on root r. */
  predicate IsOn(e: Event, r: nat) {
    (e.NewRoot? || ((e.MapPage? || e.Fill?) && Vpn(e.va, 2) < 2)) && e.root == r
  }

  ghost predicate On(es: seq<Event>, r: nat) { forall k :: 0 <= k < |es| ==> IsOn(es[k], r) }

  /** What such steps leave alone: every other root, but for slot 0 of the tables exec built. */
  ghost predicate Confined(a: Moment, b: Moment, r: nat) {
    && b.kernel == a.kernel && b.cloned == a.cloned && b.end == a.end && RolesKept(a.s.roles, b.s.roles)
    && forall t, v: nat :: IsRoot(a.s.roles, t) && t != r && !(Vpn(v, 2) == 0 && r !in a.cloned && t !in a.cloned) ==>
         Same(a.s.m, b.s.m, t, v)
  }

  lemma StepKeepsRest(a: Moment, e: Event, b: Moment)
    requires Step(a, e, b) && (e.NewRoot? || e.MapPage? || e.Fill?)
    ensures b.kernel == a.kernel && b.cloned == a.cloned && b.end == a.end
  {
  }

  lemma OnNotTouched(a: Moment, e: Event, r: nat, t: nat, v: nat)
    requires IsOn(e, r) && t != r
    requires !(Vpn(v, 2) == 0 && r !in a.cloned && t !in a.cloned)
    ensures !Touches(a, e, t, v)
  {
  }

  lemma {:induction false} TraceOnIsConfined(ms: seq<Moment>, es: seq<Event>, r: nat, k: nat)
    requires Trace(ms, es) && Good(ms[0]) && On(es, r) && k < |ms|
    ensures Confined(ms[0], ms[k], r)
    decreases k
  {
    hide Good, Step, Same, SlotOf, Vpn;
    if k == 0 {
      forall t, v: nat
        ensures Same(ms[0].s.m, ms[0].s.m, t, v)
      {
        SameItself(ms[0].s.m, t, v);
      }
    } else {
      var a, e, b := ms[k - 1], es[k - 1], ms[k];
      TraceOnIsConfined(ms, es, r, k - 1);
      TraceKeepsGood(ms, es, k - 1);
      assert Step(a, e, b);
      StepKeepsRoles(a, e, b);
      StepKeepsRest(a, e, b);
      forall t, v: nat | IsRoot(ms[0].s.roles, t) && t != r && !(Vpn(v, 2) == 0 && r !in a.cloned && t !in a.cloned)
        ensures Same(ms[0].s.m, b.s.m, t, v)
      {
        OnNotTouched(a, e, r, t, v);
        StepIsConfined(a, e, b, t, v);
        SameTransitive(ms[0].s.m, a.s.m, b.s.m, t, v);
      }
    }
  }

  lemma PathOnIsConfined(a: Moment, es: seq<Event>, b: Moment, r: nat)
    requires Good(a) && Path(a, es, b) && On(es, r)
    ensures Good(b) && Confined(a, b, r)
  {
    hide Good, Step, Confined;
    var ms :| Trace(ms, es) && ms[0] == a && ms[|es|] == b;
    TraceKeepsGood(ms, es, |es|);
    TraceOnIsConfined(ms, es, r, |es|);
  }

  /** What the growth of the heap leaves alone: everything but the addresses of its own slot. */
  ghost predicate OnlyHeap(a: Moment, b: Moment) {
    && b.kernel == a.kernel && b.cloned == a.cloned && RolesKept(a.s.roles, b.s.roles)
    && forall t, v: nat :: IsRoot(a.s.roles, t) && Vpn(v, 2) != 3 ==> Same(a.s.m, b.s.m, t, v)
  }

  lemma GrowthIsOnlyHeap(a: Moment, e: Event, b: Moment)
    requires Good(a) && Step(a, e, b) && e.GrowHeap?
    ensures Good(b) && OnlyHeap(a, b)
  {
    hide Spaces, Vpn, Same, SlotOf, Mapped, WithFrame;
    StepKeepsGood(a, e, b);
    StepKeepsRoles(a, e, b);
    SpacesBasics(a.s, a.kernel, a.cloned, a.end);
    HeapAddress(a.end);
    forall t, v: nat | IsRoot(a.s.roles, t) && Vpn(v, 2) != 3
      ensures Same(a.s.m, b.s.m, t, v)
    {
      StepIsConfined(a, e, b, t, v);
    }
  }

  lemma OnlyHeapTransitive(a: Moment, b: Moment, c: Moment)
    requires OnlyHeap(a, b) && OnlyHeap(b, c)
    ensures OnlyHeap(a, c)
  {
    hide Same, Vpn;
    forall t, v: nat | IsRoot(a.s.roles, t) && Vpn(v, 2) != 3
      ensures Same(a.s.m, c.s.m, t, v)
    {
      SameTransitive(a.s.m, b.s.m, c.s.m, t, v);
    }
  }

  lemma OnlyHeapItself(a: Moment)
    ensures OnlyHeap(a, a)
  {
  }

  /** b comes from a by steps on root r. */
  ghost predicate Worked(a: Moment, b: Moment, r: nat) { exists es :: Path(a, es, b) && On(es, r) }

  lemma WorkedNothing(a: Moment, r: nat)
    ensures Worked(a, a, r)
  {
    PathOfNothing(a);
    assert On([], r);
  }

  lemma WorkedStep(a: Moment, e: Event, b: Moment, r: nat)
    requires Step(a, e, b) && IsOn(e, r)
    ensures Worked(a, b, r)
  {
    PathOfStep(a, e, b);
    assert On([e], r);
  }

  lemma WorkedTransitive(a: Moment, b: Moment, c: Moment, r: nat)
    requires Worked(a, b, r) && Worked(b, c, r)
    ensures Worked(a, c, r)
  {
    hide Path;
    var es :| Path(a, es, b) && On(es, r);
    var fs :| Path(b, fs, c) && On(fs, r);
    PathConcat(a, es, b, fs, c);
    assert On(es + fs, r);
  }

  lemma WorkedIsConfined(a: Moment, b: Moment, r: nat)
    requires Good(a) && Worked(a, b, r)
    ensures Good(b) && Confined(a, b, r)
  {
    hide Good, Path, Confined, On;
    var es :| Path(a, es, b) && On(es, r);
    PathOnIsConfined(a, es, b, r);
  }
}
