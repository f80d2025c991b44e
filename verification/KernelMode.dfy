/**
 What the kernel can reach in supervisor mode, whichever table is in force: RAM and devices at their own addresses, over
 the runs of address-space events.
 */
module KernelMode {
  import opened Options
  import opened Words
  import opened Pmm
  import opened Sv39
  import opened Vmm
  import opened Fork
  import opened AddressSpaces
  import opened SpaceRuns
  import opened HeapPages

  // --- no translation is taken back ---------------------------------------------------------------------------------

  lemma MappedKeepsLeaf(s: Snapshot, s': Snapshot, root: nat, va: nat, f: nat, perm: Perm, t: nat, v: nat)
    requires Consistent(s) && Consistent(s') && IsRoot(s.roles, t) && f < FRAME_LIMIT && SlotOf(s.m, t, v).Some?
    requires Mapped(s.m, s.roles, s.free, root, va, f, perm, s'.m, s'.roles, s'.free)
    ensures SlotOf(s'.m, t, v) == SlotOf(s.m, t, v) && PteOf(s'.m, t, v) == PteOf(s.m, t, v)
  {
    hide IsLeaf, U, Next, Vpn, LeafPte, SamePage;
    WalkIsThreeSteps(s.m, s.roles, t, v);
    WalkIsThreeSteps(s'.m, s'.roles, t, v);
  }

  lemma FrameKeepsLeaf(a: Moment, page: nat, t: nat, v: nat)
    requires Good(a) && IsRoot(a.s.roles, t) && page in a.s.free
    ensures Consistent(WithFrame(a.s, page)) && Same(a.s.m, WithFrame(a.s, page).m, t, v)
  {
    hide V, IsLeaf, U, Next, Vpn, SlotOf, PteOf, UserByte, Discipline, HeapFrontier, WellTyped;
    AllocKeepsSpaces(a.s, WithFrame(a.s, page), a.kernel, a.cloned, a.end, page);
    FramesInUseKept(a.s, WithFrame(a.s, page), t, v);
  }

  /** What a root translates it translates to the same frame, with the same permissions, after every step. */
  lemma StepKeepsLeaves(a: Moment, e: Event, b: Moment, t: nat, v: nat)
    requires Good(a) && Step(a, e, b) && IsRoot(a.s.roles, t) && SlotOf(a.s.m, t, v).Some?
    ensures IsRoot(b.s.roles, t) && SlotOf(b.s.m, t, v) == SlotOf(a.s.m, t, v)
            && PteOf(b.s.m, t, v) == PteOf(a.s.m, t, v)
  {
    StepKeepsRoles(a, e, b);
    StepKeepsGood(a, e, b);
    hide V, IsLeaf, U, Next, Vpn, SlotOf, PteOf, UserByte, Mapped, Discipline, HeapFrontier, WellTyped, RootCloned,
         SamePage;
    match e
    case MapPage(root, va, page, perm) =>
      FrameKeepsLeaf(a, page, t, v);
      MappedKeepsLeaf(WithFrame(a.s, page), b.s, root, va, page, perm, t, v);
    case GrowHeap(page) =>
      FrameKeepsLeaf(a, page, t, v);
      MappedKeepsLeaf(WithFrame(a.s, page), b.s, a.kernel, a.end, page, HEAP_PERM, t, v);
    case Fill(root, va, contents) => FillKeepsLeafOf(a, e, b, t, v);
    case _ => StepIsConfined(a, e, b, t, v);
  }

  // --- RAM and devices ----------------------------------------------------------------------------------------------

  lemma CopyIsWired(a: Moment, root: nat, b: Moment, v: nat)
    requires Good(a) && Step(a, NewRoot(root), b) && WiredAt(a.s.m, a.kernel, v)
    ensures WiredAt(b.s.m, root, v)
  {
    hide V, IsLeaf, U, Next, Vpn;
    WalkIsThreeSteps(a.s.m, a.s.roles, a.kernel, v);
  }

  lemma WiredIsKernels(m: Mem, r: nat, v: nat)
    requires WiredAt(m, r, v)
    ensures SlotOf(m, r, v).Some? && !U(PteOf(m, r, v))
  {
    hide V, Next, Vpn, SlotOf;
    EntryFields(v / PAGE_SIZE, if InRam(v) then 0xCF else 0xC7);
  }

  lemma CloneIsWired(a: Moment, parent: nat, child: nat, b: Moment, v: nat)
    requires Good(a) && Step(a, Clone(parent, child), b) && WiredAt(a.s.m, parent, v)
    ensures WiredAt(b.s.m, child, v)
  {
    hide V, U, IsLeaf, Next, Vpn, SlotOf, PteOf, RootCloned, Allocates, WellTyped, Discipline, HeapFrontier, InRam,
         UserByte;
    WiredIsKernels(a.s.m, parent, v);
    ForkTranslates(a.s, b.s, parent, child, v);
  }

  lemma NewRootIs(a: Moment, e: Event, b: Moment, r: nat)
    requires Step(a, e, b) && IsRoot(b.s.roles, r) && !IsRoot(a.s.roles, r)
    ensures (e.NewRoot? && r == e.root) || (e.Clone? && r == e.child && IsRoot(a.s.roles, e.parent))
  {
    hide V, IsLeaf, U, Next, Vpn, SlotOf, PteOf, OnlySlot, RootCloned;
  }

  lemma StepKeepsWired(a: Moment, e: Event, b: Moment)
    requires Good(a) && Step(a, e, b) && Wired(a)
    ensures Wired(b)
  {
    hide V, IsLeaf, U, Next, Vpn, SlotOf, PteOf, InRam, InDevice, Spaces;
    SpacesBasics(a.s, a.kernel, a.cloned, a.end);
    forall r, v: nat | IsRoot(b.s.roles, r) && (InRam(v) || InDevice(v))
      ensures WiredAt(b.s.m, r, v)
    {
      if IsRoot(a.s.roles, r) {
        assert WiredAt(a.s.m, r, v);
        StepKeepsLeaves(a, e, b, r, v);
      } else {
        NewRootIs(a, e, b, r);
        if e.NewRoot? {
          assert WiredAt(a.s.m, a.kernel, v);
          CopyIsWired(a, e.root, b, v);
        } else {
          assert WiredAt(a.s.m, e.parent, v);
          CloneIsWired(a, e.parent, e.child, b, v);
        }
      }
    }
  }

  lemma {:induction false} RunKeepsWired(ms: seq<Moment>, es: seq<Event>, j: nat)
    requires Run(ms, es) && j < |ms|
    ensures Wired(ms[j])
    decreases j
  {
    hide Good, Step, Wired, WindowClosed;
    if j > 0 {
      RunKeepsWired(ms, es, j - 1);
      TraceKeepsGood(ms, es, j - 1);
      assert Step(ms[j - 1], es[j - 1], ms[j]);
      StepKeepsWired(ms[j - 1], es[j - 1], ms[j]);
    }
  }

  /**
   In every run, through every root there is, supervisor mode reads, writes and executes RAM at its own addresses, and
   reads and writes the devices at theirs; user mode does neither.
   */
  lemma KernelReachesAll(ms: seq<Moment>, es: seq<Event>, j: nat, r: nat, v: nat, access: Access, mode: Mode)
    requires Run(ms, es) && j < |ms| && IsRoot(ms[j].s.roles, r)
    ensures 0x8000_0000 <= v < 0x8800_0000 ==>
              Hardware(ms[j].s.m, r, v, access, mode) == if mode.user then None else Some(v)
    ensures v / 4096 in {0x1_0000, 0xC000, 0xC002, 0xC201} ==>
              Hardware(ms[j].s.m, r, v, access, mode) == if mode.user || access.Fetch? then None else Some(v)
  {
    hide V, R, W, X, U, Next, Vpn, SlotOf, PteOf, Hardware, Step, Discipline, HeapFrontier;
    RunKeepsWired(ms, es, j);
    TraceKeepsGood(ms, es, j);
    var a := ms[j];
    if InRam(v) || InDevice(v) {
      assert WiredAt(a.s.m, r, v);
      var low := if InRam(v) then 0xCF else 0xC7;
      EntryFields(v / PAGE_SIZE, low);
      LeafAccess(a.s.m, a.s.roles, r, v, Perm(true, true, InRam(v), false), access, mode);
    }
  }
}
