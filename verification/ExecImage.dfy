/**
 exec in proc.c, from the ELF image in the kernel buffer to the new address space: the root, the segments, and the
 user stack with its strings and argument vector.
 */
module ExecImage {
  import opened Options
  import opened Words
  import opened Pmm
  import opened Sv39
  import opened Vmm
  import opened Fork
  import opened AddressSpaces
  import opened SpaceRuns
  import opened KernelSpaces
  import opened ElfLoader

  const STACK_TOP: nat := 0x7F00_0000
  const STACK_BOTTOM: nat := 0x7EFF_F000
  const MAX_ARGS: nat := 16

  /** A C string without its terminator. */
  type CStr = s: seq<nat> | forall i :: 0 <= i < |s| ==> 0 < s[i] < 256

  /** The bytes the strings take on the stack, terminators included. */
  function StringBytes(argv: seq<CStr>): nat {
    if argv == [] then 0 else |argv[0]| + 1 + StringBytes(argv[1..])
  }

  /** The page offset at which string i ends up. */
  function StringOffset(argv: seq<CStr>, i: nat): int
    requires i <= |argv|
  {
    PAGE_SIZE - StringBytes(argv[i..])
  }

  /** The page offset of the argument vector: below the strings, rounded down to 8. */
  function VectorOffset(argv: seq<CStr>): int
    requires StringBytes(argv) <= PAGE_SIZE
  {
    (PAGE_SIZE - StringBytes(argv)) / 8 * 8 - (|argv| + 1) * 8
  }

  predicate Fits(argv: seq<CStr>) {
    |argv| <= MAX_ARGS && StringBytes(argv) <= PAGE_SIZE && VectorOffset(argv) >= 0
  }

  /** The string a program reads at a page offset. */
  function ReadString(p: Page, off: nat): seq<nat>
    decreases PAGE_SIZE - off
  {
    if off >= PAGE_SIZE || PageByte(p, off) == 0 then [] else [PageByte(p, off)] + ReadString(p, off + 1)
  }

  /** s and its terminator lie at off. */
  ghost predicate StringAt(p: Page, off: int, s: CStr) {
    && 0 <= off && off + |s| < PAGE_SIZE
    && (forall j :: 0 <= j < |s| ==> PageByte(p, off + j) == s[j])
    && PageByte(p, off + |s|) == 0
  }

  lemma {:induction false} ReadStringAt(p: Page, off: nat, s: CStr)
    requires StringAt(p, off, s)
    ensures ReadString(p, off) == s
    decreases |s|
  {
    hide PageByte;
    if s != [] {
      var rest: CStr := s[1..];
      assert PageByte(p, off + 0) == s[0];
      assert forall j :: 0 <= j < |rest| ==> PageByte(p, off + 1 + j) == rest[j];
      ReadStringAt(p, off + 1, rest);
      assert s == [s[0]] + rest;
    } else {
      assert off + |s| == off;
    }
  }

  lemma StringOffsetStep(argv: seq<CStr>, i: nat)
    requires i < |argv|
    ensures StringOffset(argv, i) + |argv[i]| + 1 == StringOffset(argv, i + 1)
  {
    assert argv[i..][1..] == argv[i + 1..];
  }

  /** Strings lie one after the other, the last one ending at the top of the page. */
  lemma {:induction false} StringOffsetsOrdered(argv: seq<CStr>, i: nat)
    requires i <= |argv|
    ensures StringOffset(argv, 0) <= StringOffset(argv, i) <= PAGE_SIZE
    decreases i
  {
    assert argv[0..] == argv;
    if i > 0 {
      StringOffsetStep(argv, i - 1);
      StringOffsetsOrdered(argv, i - 1);
    }
    if i < |argv| { assert StringBytes(argv[i..]) >= 0; }
  }

  /** Pointer i of the vector. */
  ghost predicate EntryReads(p: Page, sp: nat, argv: seq<CStr>, i: nat)
    requires i < |argv| && STACK_BOTTOM <= sp && sp + (|argv| + 1) * 8 <= STACK_TOP
  {
    var ptr := p[(sp - STACK_BOTTOM) / 8 + i];
    && sp + (|argv| + 1) * 8 <= ptr && ptr + |argv[i]| < STACK_TOP
    && ReadString(p, ptr - STACK_BOTTOM) == argv[i]
    && (i + 1 < |argv| ==> ptr + |argv[i]| + 1 == p[(sp - STACK_BOTTOM) / 8 + i + 1])
  }

  /**
   What the new program finds on its stack page: the vector, 8-aligned inside the page, holds argc pointers and a null;
   pointer i names the i-th string; the strings lie above the vector and do not overlap.
   */
  ghost predicate ArgvOnPage(p: Page, sp: nat, argv: seq<CStr>) {
    && STACK_BOTTOM <= sp && sp % 8 == 0 && sp + (|argv| + 1) * 8 <= STACK_TOP
    && p[(sp - STACK_BOTTOM) / 8 + |argv|] == 0
    && forall i :: 0 <= i < |argv| ==> EntryReads(p, sp, argv, i)
  }

  lemma StringsEndAtTop(argv: seq<CStr>)
    ensures StringOffset(argv, |argv|) == PAGE_SIZE
  {
  }

  lemma FitsStrings(argv: seq<CStr>)
    requires Fits(argv)
    ensures StringOffset(argv, 0) >= (|argv| + 1) * 8
  {
    assert argv[0..] == argv;
  }

  /** The loop that pushes the strings, last one first. */
  method PushStrings(ram: PhysicalMemory, page: nat, argv: seq<CStr>) returns (addrs: seq<nat>)
    requires ram.Valid() && page in ram.mem && Fits(argv)
    modifies ram`mem, ram`frames
    ensures ram.Valid() && page in ram.mem && ram.mem == old(ram.mem)[page := ram.mem[page]]
    ensures |addrs| == |argv| && forall k :: 0 <= k < |argv| ==> addrs[k] == STACK_BOTTOM + StringOffset(argv, k)
    ensures forall k :: 0 <= k < |argv| ==> StringAt(ram.mem[page], StringOffset(argv, k), argv[k])
  {
    hide PhysicalMemory.Valid, PageByte, StringOffset;
    addrs := seq(|argv|, _ => 0);
    var i := |argv|;
    var sp := STACK_TOP;
    assert StringOffset(argv, |argv|) == PAGE_SIZE by { StringsEndAtTop(argv); }
    while i > 0
      invariant 0 <= i <= |argv| && |addrs| == |argv|
      invariant ram.Valid() && page in ram.mem && ram.mem == old(ram.mem)[page := ram.mem[page]]
      invariant sp == STACK_BOTTOM + StringOffset(argv, i)
      invariant forall k :: i <= k < |argv| ==>
                  addrs[k] == STACK_BOTTOM + StringOffset(argv, k) && StringOffset(argv, k) >= StringOffset(argv, i)
      invariant forall k :: i <= k < |argv| ==> StringAt(ram.mem[page], StringOffset(argv, k), argv[k])
    {
      i := i - 1;
      StringOffsetStep(argv, i);
      StringOffsetsOrdered(argv, i);
      FitsStrings(argv);
      var data: File := argv[i] + [0];
      sp := sp - |data|;
      ghost var before := ram.mem[page];
      CopyIn(ram, page, sp - STACK_BOTTOM, data);
      forall k | i < k < |argv|
        ensures StringAt(ram.mem[page], StringOffset(argv, k), argv[k])
      {
        assert StringAt(before, StringOffset(argv, k), argv[k]);
      }
      addrs := addrs[i := sp];
    }
  }

  /** Word stores leave the bytes of other words alone. */
  lemma StringAtKept(p: Page, q: Page, off: int, s: CStr, limit: nat)
    requires StringAt(p, off, s) && limit * 8 <= off
    requires forall i :: limit <= i < 512 ==> q[i] == p[i]
    ensures StringAt(q, off, s)
  {
    forall o | off <= o < PAGE_SIZE
      ensures PageByte(q, o) == PageByte(p, o)
    {
      assert limit <= o / 8 < 512;
    }
  }

  /** The vector as the loop leaves it, from word `base` of the page. */
  ghost predicate VectorAt(p: Page, q: Page, base: nat, addrs: seq<nat>)
    requires base + |addrs| < 512
  {
    && (forall k :: 0 <= k < |addrs| ==> q[base + k] == addrs[k])
    && q[base + |addrs|] == 0
    && (forall k :: base + |addrs| < k < 512 ==> q[k] == p[k])
  }

  /** p_argv[i] = user_argv_addrs[i], p_argv[argc] = 0 */
  method StoreVector(ram: PhysicalMemory, page: nat, base: nat, addrs: seq<nat>)
    requires ram.Valid() && page in ram.mem && base + |addrs| < 512
    requires forall k :: 0 <= k < |addrs| ==> addrs[k] < WORD_LIMIT
    modifies ram`mem, ram`frames
    ensures ram.Valid() && page in ram.mem && ram.mem == old(ram.mem)[page := ram.mem[page]]
    ensures VectorAt(old(ram.mem)[page], ram.mem[page], base, addrs)
  {
    hide PhysicalMemory.Valid;
    var i := 0;
    while i < |addrs|
      invariant i <= |addrs|
      invariant ram.Valid() && page in ram.mem && ram.mem == old(ram.mem)[page := ram.mem[page]]
      invariant forall k :: 0 <= k < i ==> ram.mem[page][base + k] == addrs[k]
      invariant forall k :: base + |addrs| < k < 512 ==> ram.mem[page][k] == old(ram.mem)[page][k]
    {
      ram.Store(page, base + i, addrs[i]);
      i := i + 1;
    }
    ram.Store(page, base + |addrs|, 0);
  }

  lemma StringsAboveVector(argv: seq<CStr>, k: nat)
    requires Fits(argv) && k <= |argv|
    ensures VectorOffset(argv) + (|argv| + 1) * 8 <= StringOffset(argv, k) <= PAGE_SIZE
    ensures StringOffset(argv, 0) == PAGE_SIZE - StringBytes(argv)
  {
    assert argv[0..] == argv;
    StringOffsetsOrdered(argv, k);
  }

  /** One entry of the vector. */
  lemma VectorEntry(p: Page, q: Page, sp: nat, argv: seq<CStr>, addrs: seq<nat>, k: nat)
    requires Fits(argv) && sp == STACK_BOTTOM + VectorOffset(argv) && k < |argv|
    requires |addrs| == |argv| && forall j :: 0 <= j < |argv| ==> addrs[j] == STACK_BOTTOM + StringOffset(argv, j)
    requires StringAt(p, StringOffset(argv, k), argv[k])
    requires (sp - STACK_BOTTOM) / 8 + |addrs| < 512 && VectorAt(p, q, (sp - STACK_BOTTOM) / 8, addrs)
    ensures sp + (|argv| + 1) * 8 <= STACK_TOP && EntryReads(q, sp, argv, k)
  {
    hide PageByte, StringOffset, StringAt, ReadString;
    var base := (sp - STACK_BOTTOM) / 8;
    StringsAboveVector(argv, k);
    StringOffsetStep(argv, k);
    StringOffsetsOrdered(argv, k + 1);
    StringAtKept(p, q, StringOffset(argv, k), argv[k], base + |argv| + 1);
    ReadStringAt(q, StringOffset(argv, k), argv[k]);
    assert q[base + k] == addrs[k];
    if k + 1 < |argv| {
      assert q[base + (k + 1)] == addrs[k + 1];
    }
  }

  lemma VectorMakesArgv(p: Page, q: Page, sp: nat, argv: seq<CStr>, addrs: seq<nat>)
    requires Fits(argv) && sp == STACK_BOTTOM + VectorOffset(argv)
    requires |addrs| == |argv| && forall k :: 0 <= k < |argv| ==> addrs[k] == STACK_BOTTOM + StringOffset(argv, k)
    requires forall k :: 0 <= k < |argv| ==> StringAt(p, StringOffset(argv, k), argv[k])
    requires (sp - STACK_BOTTOM) / 8 + |addrs| < 512 && VectorAt(p, q, (sp - STACK_BOTTOM) / 8, addrs)
    ensures ArgvOnPage(q, sp, argv)
  {
    hide PageByte, StringOffset, StringAt, EntryReads;
    StringsAboveVector(argv, 0);
    forall k | 0 <= k < |argv|
      ensures EntryReads(q, sp, argv, k)
    {
      VectorEntry(p, q, sp, argv, addrs, k);
    }
  }

  /** sp &= ~7, then the vector: p_argv[i] = user_argv_addrs[i], p_argv[argc] = 0. */
  method PushVector(ram: PhysicalMemory, page: nat, argv: seq<CStr>, addrs: seq<nat>) returns (sp: nat)
    requires ram.Valid() && page in ram.mem && Fits(argv)
    requires |addrs| == |argv| && forall k :: 0 <= k < |argv| ==> addrs[k] == STACK_BOTTOM + StringOffset(argv, k)
    requires forall k :: 0 <= k < |argv| ==> StringAt(ram.mem[page], StringOffset(argv, k), argv[k])
    modifies ram`mem, ram`frames
    ensures ram.Valid() && page in ram.mem && ram.mem == old(ram.mem)[page := ram.mem[page]]
    ensures ArgvOnPage(ram.mem[page], sp, argv) && sp == STACK_BOTTOM + VectorOffset(argv)
  {
    hide PhysicalMemory.Valid, StringOffset, StringAt, ArgvOnPage;
    sp := STACK_TOP - StringBytes(argv);
    sp := sp / 8 * 8;
    sp := sp - (|argv| + 1) * 8;
    forall k | 0 <= k <= |argv|
      ensures VectorOffset(argv) + (|argv| + 1) * 8 <= StringOffset(argv, k) <= PAGE_SIZE
    {
      StringsAboveVector(argv, k);
    }
    StoreVector(ram, page, (sp - STACK_BOTTOM) / 8, addrs);
    VectorMakesArgv(old(ram.mem)[page], ram.mem[page], sp, argv, addrs);
  }

  // --- exec ----------------------------------------------------------------------------------------------------

  datatype Result = Failed | OutOfMemory | Running(root: nat, sp: nat)

  /** The magic number that load_elf checks. */
  predicate IsElf(file: File) {
    |file| >= 4 && file[0] == 0x7F && file[1] == 0x45 && file[2] == 0x4C && file[3] == 0x46
  }

  /**
   The stack as the new program sees it through its own address space.  The leaf of its page has the bits V, R, W, U, A
   and D.
   */
  ghost predicate StackReady(m: Mem, root: nat, sp: nat, argv: seq<CStr>) {
    && SlotOf(m, root, STACK_BOTTOM).Some? && Next(PteOf(m, root, STACK_BOTTOM)) in m
    && PteOf(m, root, STACK_BOTTOM) % 0x400 == 0xD7
    && ArgvOnPage(m[Next(PteOf(m, root, STACK_BOTTOM))], sp, argv)
    && forall o :: 0 <= o < PAGE_SIZE ==>
         UserByte(m, root, STACK_BOTTOM + o) == Some(PageByte(m[Next(PteOf(m, root, STACK_BOTTOM))], o))
  }

  lemma StackReadyBy(c: Snapshot, root: nat, page: nat, perm: Perm, contents: Page, sp: nat, argv: seq<CStr>)
    requires Consistent(c) && IsRoot(c.roles, root) && 0 < page < FRAME_LIMIT && perm.u && page in c.m
    requires SlotOf(c.m, root, STACK_BOTTOM).Some? && PteOf(c.m, root, STACK_BOTTOM) == LeafPte(page, perm)
    requires ArgvOnPage(contents, sp, argv) && perm == Perm(true, true, false, true)
    ensures StackReady(c.m[page := contents], root, sp, argv)
  {
    hide V, IsLeaf, U, Next, Vpn, SlotOf, LeafPte, PageByte, ArgvOnPage, UserByte;
    LeafPteFacts(page, perm);
    forall o | 0 <= o < PAGE_SIZE
      ensures UserByte(c.m[page := contents], root, STACK_BOTTOM + o) == Some(PageByte(contents, o))
    {
      FreshPageReads(c, root, STACK_BOTTOM, page, perm, STACK_BOTTOM + o, contents);
    }
    FreshPageReads(c, root, STACK_BOTTOM, page, perm, STACK_BOTTOM, contents);
    UserLeaf(c.m, c.roles, root, STACK_BOTTOM);
    SlotOfUnderUserStore(c, Snapshot(c.m[page := contents], c.roles, c.free), root, STACK_BOTTOM);
  }

  /** The stack page: allocated, mapped R, W and U, filled. */
  method MakeStack(ks: KernelSpaces, root: nat, argv: seq<CStr>) returns (ok: bool, sp: nat)
    requires ks.Valid() && IsRoot(ks.vm.roles, root) && root != ks.vm.kernelPagetable && Fits(argv)
    requires SlotOf(ks.vm.ram.mem, root, STACK_BOTTOM) == None
    modifies ks.vm`roles, ks.vm.ram
    ensures !ok ==> ks.vm.ram.free == {}
    ensures ok ==> ks.Valid() && IsRoot(ks.vm.roles, root)
    ensures ok ==> StackReady(ks.vm.ram.mem, root, sp, argv)
    ensures ok ==> KeptOutside(old(ks.vm.ram.mem), ks.vm.ram.mem, root, STACK_BOTTOM, STACK_TOP)
    ensures ok ==> Worked(old(ks.At()), ks.At(), root)
  {
    hide V, IsLeaf, U, Next, Vpn, SlotOf, PteOf, PhysicalMemory.Valid, WellTyped, Discipline, HeapFrontier, Mapped,
         PageByte, LeafPte, StringAt, StringOffset, UserByte, ArgvOnPage, Fits, Worked;
    ghost var a := Now(ks.vm);
    ghost var va := STACK_BOTTOM;
    var perm := Perm(true, true, false, true);
    var page;
    sp := 0;
    ok, page := ks.vm.ram.AllocFrame();
    if !ok { return; }
    ghost var b := Now(ks.vm);
    AllocKeepsSpaces(a, b, ks.vm.kernelPagetable, ks.cloned, ks.heapEnd, page);
    SlotOfKept(a, b, root, va);
    ok := ks.MapUser(root, STACK_BOTTOM, page, perm);
    if !ok { return; }
    ghost var c := Now(ks.vm);
    FreshPage(b, c, root, va, page, perm);
    ghost var mapped := ks.At();
    var addrs := PushStrings(ks.vm.ram, page, argv);
    sp := PushVector(ks.vm.ram, page, argv, addrs);
    UserStoreKeepsSpaces(c, ks.vm.kernelPagetable, ks.cloned, ks.heapEnd, page, ks.vm.ram.mem[page]);
    assert ks.vm.ram.mem == c.m[page := ks.vm.ram.mem[page]];
    NewPageIsWork(old(ks.At()), mapped, ks.At(), root, va, page, perm, ks.vm.ram.mem[page]);
    StackReadyBy(c, root, page, perm, ks.vm.ram.mem[page], sp, argv);
    OutsideThePageKept(a, b, c, root, va, page, perm, ks.vm.ram.mem[page]);
  }

  lemma RootCopyTranslates(a: Snapshot, b: Snapshot, kernel: nat, root: nat, v: nat)
    requires Consistent(a) && IsRoot(a.roles, kernel) && root in a.free && b.m == a.m[root := a.m[kernel]]
    ensures SlotOf(b.m, root, v) == SlotOf(a.m, kernel, v)
  {
    hide V, IsLeaf, U, Next, Vpn;
    WalkIsThreeSteps(a.m, a.roles, kernel, v);
  }

  lemma StackSlotIsEmpty(a: Snapshot, kernel: nat, cloned: set<nat>, end: nat)
    requires Spaces(a, kernel, cloned, end)
    ensures SlotOf(a.m, kernel, STACK_BOTTOM) == None
  {
    hide IsLeaf, U, Next;
    assert Vpn(STACK_BOTTOM, 2) == 1;
  }

  /**
   exec after the file has been read.  The new process finds its segments, its arguments and the kernel's window in a
   root of its own.  Every other root stays one, and translates and reads every address as before, but for the slot 0
   that it shares with the new root if exec built it too.
   */
  method Exec(ks: KernelSpaces, hs: seq<Phdr>, file: File, argv: seq<CStr>) returns (r: Result)
    requires ks.Valid() && Fits(argv)
    requires (forall k :: 0 <= k < |hs| ==> Loadable(hs[k], file)) && PagesDisjoint(hs)
    requires forall k, a: nat :: 0 <= k < |hs| && Covers(hs[k], a) ==>
               SlotOf(ks.vm.ram.mem, ks.vm.kernelPagetable, a) == None
    requires forall k, a: nat :: 0 <= k < |hs| && Covers(hs[k], a) ==> !(STACK_BOTTOM <= a < STACK_TOP)
    modifies ks.vm`roles, ks.vm.ram
    ensures r.Failed? <==> |file| < 4 || file[..4] != [0x7F, 0x45, 0x4C, 0x46]
    ensures r.Failed? ==> Now(ks.vm) == old(Now(ks.vm))
    ensures r.OutOfMemory? ==> ks.vm.ram.free == {}
    ensures r.Running? ==> ks.Valid() && IsRoot(ks.vm.roles, r.root) && !IsRoot(old(ks.vm.roles), r.root)
    ensures r.Running? ==> forall k :: 0 <= k < |hs| ==> InPlace(ks.vm.ram.mem, r.root, hs[k], file)
    ensures r.Running? ==> StackReady(ks.vm.ram.mem, r.root, r.sp, argv)
    ensures r.Running? ==> Worked(old(ks.At()), ks.At(), r.root) && Confined(old(ks.At()), ks.At(), r.root)
  {
    hide V, IsLeaf, U, Next, Vpn, SlotOf, PteOf, PhysicalMemory.Valid, WellTyped, Discipline, HeapFrontier, UserByte,
         Loadable, Fits, StackReady, InPlace, Worked, Confined;
    if !IsElf(file) {
      return Failed;
    }
    ghost var a := Now(ks.vm);
    var ok, root := ks.NewExecRoot();
    if !ok { return OutOfMemory; }
    ghost var b := Now(ks.vm);
    ghost var made := ks.At();
    WorkedStep(old(ks.At()), NewRoot(root), made, root);
    SpacesBasics(a, ks.vm.kernelPagetable, ks.cloned, ks.heapEnd);
    forall v: nat
      ensures SlotOf(b.m, root, v) == SlotOf(a.m, ks.vm.kernelPagetable, v)
    {
      RootCopyTranslates(a, b, ks.vm.kernelPagetable, root, v);
    }
    StackSlotIsEmpty(a, ks.vm.kernelPagetable, ks.cloned, ks.heapEnd);
    ok := LoadElfMap(ks, root, hs, file);
    if !ok { return OutOfMemory; }
    ghost var m, loaded := ks.vm.ram.mem, ks.At();
    WorkedTransitive(old(ks.At()), made, loaded, root);
    assert Same(b.m, m, root, STACK_BOTTOM);
    var sp;
    ok, sp := MakeStack(ks, root, argv);
    if !ok { return OutOfMemory; }
    forall k | 0 <= k < |hs|
      ensures InPlace(ks.vm.ram.mem, root, hs[k], file)
    {
      InPlaceKept(m, ks.vm.ram.mem, root, hs[k], file, STACK_BOTTOM, STACK_TOP);
    }
    WorkedTransitive(old(ks.At()), loaded, ks.At(), root);
    WorkedIsConfined(old(ks.At()), ks.At(), root);
    r := Running(root, sp);
  }
}
