/**
 The memory behind the kernel's heap window: who owns it, and which steps of the address spaces touch it.
 */
module HeapPages {
  import opened Options
  import opened Words
  import opened Pmm
  import opened Sv39
  import opened Vmm
  import opened Fork
  import opened AddressSpaces
  import opened SpaceRuns

  /**
   The frame behind a heap address is memory that is neither free nor a table nor a user page, and its leaf has the bits
   V, R, W, A and D.
   */
  ghost predicate Owned(a: Moment, v: nat) {
    var p := HeapFrame(a.s.m, a.kernel, v);
    && SlotOf(a.s.m, a.kernel, v).Some? && PteOf(a.s.m, a.kernel, v) % 0x400 == 0xC7
    && p in a.s.m && p !in a.s.free && p !in a.s.roles
  }

  ghost predicate SameFrame(a: Moment, v: nat, w: nat) {
    HeapFrame(a.s.m, a.kernel, v) == HeapFrame(a.s.m, a.kernel, w)
  }

  /** Every heap page has a frame of its own. */
  ghost predicate HeapOwned(a: Moment) {
    && (forall v :: HEAP_START <= v < a.end ==> Owned(a, v))
    && (forall v, w :: HEAP_START <= v < a.end && HEAP_START <= w < a.end && SameFrame(a, v, w) ==>
       v / PAGE_SIZE == w / PAGE_SIZE)
  }

  ghost predicate PageKept(a: Moment, b: Moment, v: nat) {
    var p := HeapFrame(a.s.m, a.kernel, v);
    HeapFrame(b.s.m, b.kernel, v) == p && p in a.s.m && p in b.s.m && b.s.m[p] == a.s.m[p]
  }

  /** The heap's pages are where they were and hold what they held. */
  ghost predicate HeapKept(a: Moment, b: Moment) {
    a.end <= b.end && forall v :: HEAP_START <= v < a.end ==> PageKept(a, b, v)
  }

  /** The pages from `end` on are new and clear. */
  ghost predicate NewPagesClear(b: Moment, end: nat) {
    forall v :: end <= v < b.end ==>
      HeapFrame(b.s.m, b.kernel, v) in b.s.m && b.s.m[HeapFrame(b.s.m, b.kernel, v)] == ZeroPage()
  }

  // --- one step ------------------------------------------------------------------------------------------------------

  lemma HeapNotTouched(a: Moment, e: Event, b: Moment, v: nat)
    requires Good(a) && Step(a, e, b) && HEAP_START <= v < a.end && !e.Fill?
    ensures !Touches(a, e, a.kernel, v)
  {
    hide Vpn, Mapped, Consistent, RootCloned, Allocates, Discipline;
    HeapAddress(v);
    if e.GrowHeap? { SamePageIsSamePageNumber(v, a.end); }
  }

  lemma FillKeepsLeafOf(a: Moment, e: Event, b: Moment, t: nat, v: nat)
    requires Good(a) && Step(a, e, b) && e.Fill? && IsRoot(a.s.roles, t)
    ensures SlotOf(b.s.m, t, v) == SlotOf(a.s.m, t, v) && PteOf(b.s.m, t, v) == PteOf(a.s.m, t, v)
  {
    hide V, IsLeaf, U, Next, Vpn, SlotOf, HeapFrontier, Discipline;
    UserLeaf(a.s.m, a.s.roles, e.root, e.va);
    SlotOfUnderUserStore(a.s, b.s, t, v);
    WalkIsThreeSteps(a.s.m, a.s.roles, t, v);
  }

  /** A heap address keeps its leaf over every step. */
  lemma HeapLeafKept(a: Moment, e: Event, b: Moment, v: nat)
    requires Good(a) && Step(a, e, b) && HEAP_START <= v < a.end
    ensures SlotOf(b.s.m, a.kernel, v) == SlotOf(a.s.m, a.kernel, v)
            && PteOf(b.s.m, a.kernel, v) == PteOf(a.s.m, a.kernel, v)
  {
    hide V, IsLeaf, U, Next, Vpn, SlotOf, Spaces, Step;
    SpacesBasics(a.s, a.kernel, a.cloned, a.end);
    HeapAddress(v);
    if e.Fill? {
      FillKeepsLeafOf(a, e, b, a.kernel, v);
    } else {
      HeapNotTouched(a, e, b, v);
      StepIsConfined(a, e, b, a.kernel, v);
    }
  }

  /** A frame that is neither free nor typed stays so, and only a PutHeap to it changes it. */
  lemma UntypedFrameKept(a: Moment, e: Event, b: Moment, p: nat)
    requires Good(a) && Step(a, e, b) && p in a.s.m && p !in a.s.free && p !in a.s.roles
    ensures p in b.s.m && p !in b.s.free && p !in b.s.roles
    ensures !e.PutHeap? ==> b.s.m[p] == a.s.m[p]
    ensures e.PutHeap? && HeapFrame(a.s.m, a.kernel, e.va) != p ==> b.s.m[p] == a.s.m[p]
  {
    hide V, IsLeaf, U, Next, Vpn, SlotOf, PteOf, OnlySlot, HeapFrontier, Discipline;
    if e.Fill? { UserLeaf(a.s.m, a.s.roles, e.root, e.va); }
  }

  lemma EndGrows(a: Moment, e: Event, b: Moment)
    requires Step(a, e, b)
    ensures b.end == a.end || (e.GrowHeap? && b.end == a.end + PAGE_SIZE)
  {
  }

  /** The page that expand_heap adds has the fresh frame behind it, still clear. */
  lemma NewHeapPage(a: Moment, e: Event, b: Moment, v: nat)
    requires Good(a) && Step(a, e, b) && a.end <= v < b.end
    ensures Owned(b, v) && b.s.m[HeapFrame(b.s.m, b.kernel, v)] == ZeroPage()
    ensures HeapFrame(b.s.m, b.kernel, v) in a.s.free && v / PAGE_SIZE == a.end / PAGE_SIZE
  {
    hide V, IsLeaf, U, Next, Vpn, SlotOf, LeafPte, SamePage, OnlySlot, Discipline, RootCloned, Allocates, WellTyped;
    SamePageIsSamePageNumber(v, a.end);
    SamePageSameSlot(b.s.m, b.kernel, v, a.end);
    LeafPteFacts(e.page, HEAP_PERM);
  }

  lemma StepKeepsHeap(a: Moment, e: Event, b: Moment)
    requires Good(a) && HeapOwned(a) && Step(a, e, b)
    ensures HeapOwned(b) && a.end <= b.end
    ensures !e.PutHeap? ==> HeapKept(a, b)
    ensures NewPagesClear(b, a.end)
  {
    hide V, IsLeaf, U, Next, Vpn, SlotOf, PteOf, Step, Spaces;
    StepKeepsKernel(a, e, b);
    SpacesBasics(a.s, a.kernel, a.cloned, a.end);
    EndGrows(a, e, b);
    forall v | HEAP_START <= v < a.end
      ensures HeapFrame(b.s.m, b.kernel, v) == HeapFrame(a.s.m, a.kernel, v) && Owned(b, v)
      ensures !e.PutHeap? ==> PageKept(a, b, v)
    {
      assert Owned(a, v);
      HeapLeafKept(a, e, b, v);
      UntypedFrameKept(a, e, b, HeapFrame(a.s.m, a.kernel, v));
    }
    forall v | a.end <= v < b.end
      ensures Owned(b, v) && b.s.m[HeapFrame(b.s.m, b.kernel, v)] == ZeroPage()
      ensures HeapFrame(b.s.m, b.kernel, v) in a.s.free && v / PAGE_SIZE == a.end / PAGE_SIZE
    {
      NewHeapPage(a, e, b, v);
    }
    forall v, w | HEAP_START <= v < b.end && HEAP_START <= w < b.end && SameFrame(b, v, w)
      ensures v / PAGE_SIZE == w / PAGE_SIZE
    {
      assert v < a.end ==> Owned(a, v);
      assert w < a.end ==> Owned(a, w);
      assert v < a.end && w < a.end ==> SameFrame(a, v, w);
    }
  }

  /**
   The kernel may read and write its heap, and nobody else may, whichever table is in force: an access in supervisor
   mode reaches the frame of the page, unless it is an instruction fetch.
   */
  lemma HeapAccess(a: Moment, v: nat, r: nat, access: Access, mode: Mode)
    requires Good(a) && HeapOwned(a) && HEAP_START <= v < a.end && IsRoot(a.s.roles, r)
    ensures Hardware(a.s.m, r, v, access, mode)
            == if mode.user || access.Fetch? then None
               else Some(HeapFrame(a.s.m, a.kernel, v) * PAGE_SIZE + v % PAGE_SIZE)
  {
    hide V, R, W, X, U, Next, Vpn, SlotOf, Hardware, Discipline, HeapFrontier;
    assert Owned(a, v);
    SpacesBasics(a.s, a.kernel, a.cloned, a.end);
    HeapAddress(v);
    KernelWindowCoherence(a.s, a.kernel, a.cloned, a.end, r, v);
    LeafAccess(a.s.m, a.s.roles, r, v, Perm(true, true, false, false), access, mode);
  }

  // --- runs ---------------------------------------------------------------------------------------------------------

  lemma {:induction false} TraceKeepsHeap(ms: seq<Moment>, es: seq<Event>, i: nat, j: nat)
    requires Trace(ms, es) && Good(ms[0]) && HeapOwned(ms[0]) && i <= j < |ms|
    ensures HeapOwned(ms[i]) && HeapOwned(ms[j]) && ms[i].end <= ms[j].end
    decreases j
  {
    hide Good, Step, HeapOwned;
    if i < j {
      TraceKeepsHeap(ms, es, i, j - 1);
      TraceKeepsGood(ms, es, j - 1);
      assert Step(ms[j - 1], es[j - 1], ms[j]);
      StepKeepsHeap(ms[j - 1], es[j - 1], ms[j]);
    } else if 0 < i {
      TraceKeepsHeap(ms, es, i - 1, i - 1);
      TraceKeepsGood(ms, es, i - 1);
      assert Step(ms[i - 1], es[i - 1], ms[i]);
      StepKeepsHeap(ms[i - 1], es[i - 1], ms[i]);
    }
  }

  lemma HeapKeptTransitive(a: Moment, b: Moment, c: Moment)
    requires HeapKept(a, b) && HeapKept(b, c)
    ensures HeapKept(a, c)
  {
    hide HeapFrame;
    forall v | HEAP_START <= v < a.end
      ensures PageKept(a, c, v)
    {
      assert PageKept(a, b, v) && PageKept(b, c, v);
    }
  }

  lemma HeapKeptItself(a: Moment)
    requires HeapOwned(a)
    ensures HeapKept(a, a)
  {
    hide HeapFrame;
    forall v | HEAP_START <= v < a.end
      ensures PageKept(a, a, v)
    {
      assert Owned(a, v);
    }
  }

  /**
   The heap is the kernel's own over runs: exec, fork, demand paging, stores of user programs and the growth of the heap
   leave every heap page where it is with what it holds; only the kernel's stores to the heap change it.
   */
  lemma {:induction false} HeapKeptInRuns(ms: seq<Moment>, es: seq<Event>, i: nat, j: nat)
    requires Trace(ms, es) && Good(ms[0]) && HeapOwned(ms[0]) && i <= j < |ms|
    requires forall k :: i <= k < j ==> !es[k].PutHeap?
    ensures HeapKept(ms[i], ms[j])
    decreases j
  {
    hide Good, Step, HeapOwned, Owned;
    TraceKeepsHeap(ms, es, i, j);
    if i < j {
      HeapKeptInRuns(ms, es, i, j - 1);
      TraceKeepsGood(ms, es, j - 1);
      TraceKeepsHeap(ms, es, i, j - 1);
      assert Step(ms[j - 1], es[j - 1], ms[j]);
      StepKeepsHeap(ms[j - 1], es[j - 1], ms[j]);
      HeapKeptTransitive(ms[i], ms[j - 1], ms[j]);
    } else {
      HeapKeptItself(ms[i]);
    }
  }

  lemma OnIsQuiet(e: Event, r: nat)
    requires IsOn(e, r)
    ensures !e.PutHeap? && !e.GrowHeap?
  {
  }

  /** Steps that neither store to the heap nor grow it. */
  ghost predicate Quiet(es: seq<Event>) { forall k :: 0 <= k < |es| ==> !es[k].PutHeap? && !es[k].GrowHeap? }

  lemma {:induction false} QuietKeepsEnd(ms: seq<Moment>, es: seq<Event>, j: nat)
    requires Trace(ms, es) && Quiet(es) && j < |ms|
    ensures ms[j].end == ms[0].end
    decreases j
  {
    if j > 0 {
      QuietKeepsEnd(ms, es, j - 1);
      assert Step(ms[j - 1], es[j - 1], ms[j]);
    }
  }

  /** They leave the heap alone. */
  lemma QuietKeepsHeap(a: Moment, es: seq<Event>, b: Moment)
    requires Good(a) && HeapOwned(a) && Path(a, es, b) && Quiet(es)
    ensures HeapOwned(b) && HeapKept(a, b) && b.end == a.end
  {
    hide Good, Step, HeapOwned, HeapKept;
    var ms: seq<Moment> :| Trace(ms, es) && ms[0] == a && ms[|es|] == b;
    TraceKeepsHeap(ms, es, 0, |es|);
    HeapKeptInRuns(ms, es, 0, |es|);
    QuietKeepsEnd(ms, es, |es|);
  }

  /** exec and demand paging among them. */
  lemma WorkedKeepsHeap(a: Moment, b: Moment, r: nat)
    requires Good(a) && HeapOwned(a) && Worked(a, b, r)
    ensures HeapOwned(b) && HeapKept(a, b) && b.end == a.end
  {
    hide Good, Step, HeapOwned, HeapKept, IsOn, Path;
    var es: seq<Event> :| Path(a, es, b) && On(es, r);
    forall k | 0 <= k < |es|
      ensures !es[k].PutHeap? && !es[k].GrowHeap?
    {
      OnIsQuiet(es[k], r);
    }
    QuietKeepsHeap(a, es, b);
  }

  // --- words --------------------------------------------------------------------------------------------------------

  /** The word of the heap at an aligned address. */
  ghost function HeapWord(a: Moment, v: nat): Word
    requires HeapFrame(a.s.m, a.kernel, v) in a.s.m
  {
    a.s.m[HeapFrame(a.s.m, a.kernel, v)][v % PAGE_SIZE / 8]
  }

  /** b is a after a store of the kernel to a word of its heap. */
  ghost predicate WordPut(a: Moment, b: Moment, va: nat, w: Word) {
    && HEAP_START <= va < a.end && va % 8 == 0 && Owned(a, va)
    && var p := HeapFrame(a.s.m, a.kernel, va);
       b == a.(s := a.s.(m := a.s.m[p := a.s.m[p][va % PAGE_SIZE / 8 := w]]))
  }

  lemma PutStep(a: Moment, b: Moment, va: nat, w: Word)
    requires Good(a) && HeapOwned(a) && WordPut(a, b, va, w) && Consistent(b.s)
    ensures var p := HeapFrame(a.s.m, a.kernel, va);
            p in b.s.m && Step(a, PutHeap(va, b.s.m[p]), b) && Good(b) && HeapOwned(b)
  {
    hide Good, HeapOwned, SlotOf, PteOf, Next, WellTyped;
    var p := HeapFrame(a.s.m, a.kernel, va);
    var e := PutHeap(va, b.s.m[p]);
    assert Step(a, e, b);
    StepKeepsGood(a, e, b);
    StepKeepsHeap(a, e, b);
  }

  lemma FramesApart(a: Moment, v: nat, w: nat)
    requires HeapOwned(a) && HEAP_START <= v < a.end && HEAP_START <= w < a.end
    ensures Owned(a, v)
    ensures HeapFrame(a.s.m, a.kernel, v) == HeapFrame(a.s.m, a.kernel, w) ==> v / PAGE_SIZE == w / PAGE_SIZE
  {
    hide SlotOf, PteOf, Next;
    assert HeapFrame(a.s.m, a.kernel, v) == HeapFrame(a.s.m, a.kernel, w) ==> SameFrame(a, v, w);
  }

  lemma WordOffsets(v: nat, w: nat)
    requires v % 8 == 0 && w % 8 == 0 && v / PAGE_SIZE == w / PAGE_SIZE
    ensures v % PAGE_SIZE / 8 == w % PAGE_SIZE / 8 <==> v == w
  {
    var q := v / PAGE_SIZE;
    var i, j := v / 8 - 512 * q, w / 8 - 512 * q;
    assert v == PAGE_SIZE * q + 8 * i && w == PAGE_SIZE * q + 8 * j;
    assert v % PAGE_SIZE == 8 * i && w % PAGE_SIZE == 8 * j;
  }

  /** It changes this word and no other word of the heap. */
  lemma PutWord(a: Moment, b: Moment, va: nat, w: Word, v: nat)
    requires Good(a) && HeapOwned(a) && WordPut(a, b, va, w) && Consistent(b.s)
    requires HEAP_START <= v < a.end && v % 8 == 0
    ensures Owned(a, v) && Owned(b, v) && HeapWord(b, v) == if v == va then w else HeapWord(a, v)
  {
    hide Good, Consistent, SlotOf, PteOf, Next, Step, HeapOwned;
    PutStep(a, b, va, w);
    HeapLeafKept(a, PutHeap(va, b.s.m[HeapFrame(a.s.m, a.kernel, va)]), b, v);
    FramesApart(a, v, va);
    FramesApart(b, v, va);
    if v / PAGE_SIZE == va / PAGE_SIZE { WordOffsets(v, va); }
  }

  lemma PutKeepsRest(a: Moment, e: Event, b: Moment)
    requires Step(a, e, b) && e.PutHeap?
    ensures b.kernel == a.kernel && b.cloned == a.cloned
  {
  }

  /** Nor does it touch any address space beyond the heap. */
  lemma PutIsOnlyHeap(a: Moment, e: Event, b: Moment)
    requires Good(a) && Step(a, e, b) && e.PutHeap?
    ensures Good(b) && OnlyHeap(a, b)
  {
    hide Good, Same, SlotOf, Vpn, Step;
    StepKeepsGood(a, e, b);
    StepKeepsRoles(a, e, b);
    PutKeepsRest(a, e, b);
    forall t, v: nat | IsRoot(a.s.roles, t) && Vpn(v, 2) != 3
      ensures Same(a.s.m, b.s.m, t, v)
    {
      StepIsConfined(a, e, b, t, v);
    }
  }

  /** In every run every root gives the kernel, and only the kernel, all of the heap there is. */
  lemma HeapAccessInRuns(ms: seq<Moment>, es: seq<Event>, j: nat, r: nat, v: nat, access: Access, mode: Mode)
    requires Run(ms, es) && HeapOwned(ms[0]) && j < |ms| && IsRoot(ms[j].s.roles, r) && 0xC000_0000 <= v < ms[j].end
    ensures Hardware(ms[j].s.m, r, v, access, mode)
            == if mode.user || access.Fetch? then None
               else Some(HeapFrame(ms[j].s.m, ms[0].kernel, v) * PAGE_SIZE + v % PAGE_SIZE)
  {
    hide Good, Step, HeapOwned, HeapFrame, Hardware;
    TraceKeepsGood(ms, es, j);
    TraceKeepsHeap(ms, es, 0, j);
    HeapAccess(ms[j], v, r, access, mode);
  }

  // --- growth -------------------------------------------------------------------------------------------------------

  /** What the growth of the heap does to its memory. */
  ghost predicate Grew(a: Moment, b: Moment) { HeapOwned(b) && HeapKept(a, b) && NewPagesClear(b, a.end) }

  lemma GrewNothing(a: Moment)
    requires HeapOwned(a)
    ensures Grew(a, a)
  {
    HeapKeptItself(a);
  }

  lemma GrewStep(a: Moment, b: Moment, e: Event, c: Moment)
    requires Grew(a, b) && Good(b) && Step(b, e, c) && e.GrowHeap? && HEAP_START <= a.end
    ensures Grew(a, c)
  {
    hide Good, Step, HeapOwned, HeapFrame;
    StepKeepsHeap(b, e, c);
    HeapKeptTransitive(a, b, c);
    forall v | a.end <= v < c.end
      ensures HeapFrame(c.s.m, c.kernel, v) in c.s.m && c.s.m[HeapFrame(c.s.m, c.kernel, v)] == ZeroPage()
    {
      if v < b.end { assert PageKept(b, c, v); }
    }
  }

  lemma FirstPageAt(a: Snapshot, b: Moment, page: nat, v: nat)
    requires Consistent(a) && Consistent(b.s) && 0 < page < FRAME_LIMIT
    requires page in a.m && page !in a.free && page !in a.roles && a.m[page] == ZeroPage()
    requires Mapped(a.m, a.roles, a.free, b.kernel, HEAP_START, page, HEAP_PERM, b.s.m, b.s.roles, b.s.free)
    requires HEAP_START <= v < HEAP_START + PAGE_SIZE
    ensures HeapFrame(b.s.m, b.kernel, v) == page && Owned(b, v) && b.s.m[page] == ZeroPage()
    ensures v / PAGE_SIZE == HEAP_START / PAGE_SIZE
  {
    hide V, IsLeaf, U, Next, Vpn, SlotOf, LeafPte, SamePage, OnlySlot, WellTyped;
    LeafPteFacts(page, HEAP_PERM);
    SamePageIsSamePageNumber(v, HEAP_START);
    SamePageSameSlot(b.s.m, b.kernel, v, HEAP_START);
  }

  lemma FrameInMemory(b: Moment, v: nat)
    requires Owned(b, v)
    ensures HeapFrame(b.s.m, b.kernel, v) in b.s.m
  {
  }

  /** The page that heap_init maps. */
  lemma FirstPageOwned(a: Snapshot, b: Moment, page: nat)
    requires Consistent(a) && Consistent(b.s) && 0 < page < FRAME_LIMIT && b.end == HEAP_START + PAGE_SIZE
    requires page in a.m && page !in a.free && page !in a.roles && a.m[page] == ZeroPage()
    requires Mapped(a.m, a.roles, a.free, b.kernel, HEAP_START, page, HEAP_PERM, b.s.m, b.s.roles, b.s.free)
    ensures HeapOwned(b) && NewPagesClear(b, HEAP_START)
  {
    hide Consistent, Mapped, HeapFrame, Owned;
    forall v | HEAP_START <= v < b.end
      ensures HeapFrame(b.s.m, b.kernel, v) == page && Owned(b, v) && page in b.s.m && b.s.m[page] == ZeroPage()
      ensures v / PAGE_SIZE == HEAP_START / PAGE_SIZE
    {
      FirstPageAt(a, b, page, v);
      FrameInMemory(b, v);
    }
  }
}
