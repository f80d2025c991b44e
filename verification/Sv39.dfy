/**
 Page tables of the Sv39 scheme (RISC-V Privileged Architecture, sections 4.3.2 and 4.4), as words in physical memory.

 `Roles` is a ghost typing of the frames that belong to page tables or to user pages.  It is what makes the shared
 structure tractable: every middle table sits under one root slot in all roots that use it, every low table under one
 slot of one middle table, every user page under one slot of one low table.
 */
module Sv39 {
  import opened Options
  import opened Words
  import opened Pmm

  /** Bits 54 and up of an entry are reserved. */
  const PTE_LIMIT: nat := 0x40_0000_0000_0000

  // --- page-table entries -----------------------------------------------------------------------------------

  predicate V(pte: nat) { pte % 2 == 1 }

  predicate U(pte: nat) { pte / 16 % 2 == 1 }

  predicate R(pte: nat) { pte / 2 % 2 == 1 }

  predicate W(pte: nat) { pte / 4 % 2 == 1 }

  predicate X(pte: nat) { pte / 8 % 2 == 1 }

  predicate Accessed(pte: nat) { pte / 64 % 2 == 1 }

  predicate Dirty(pte: nat) { pte / 128 % 2 == 1 }

  /** pte & (PTE_R | PTE_W | PTE_X) */
  predicate IsLeaf(pte: nat) { R(pte) || W(pte) || X(pte) }

  /** The frame of (pte >> 10) << 12 in 64 bits. */
  function Next(pte: nat): nat { pte / 0x400 % 0x10_0000_0000_0000 }

  datatype Perm = Perm(r: bool, w: bool, x: bool, u: bool)

  function Flags(p: Perm): nat {
    (if p.r then 2 else 0) + (if p.w then 4 else 0) + (if p.x then 8 else 0) + (if p.u then 16 else 0)
  }

  predicate Usable(p: Perm) { p.r || p.w || p.x }

  /** ((f << 12) >> 12) << 10 | PTE_V */
  function DirPte(f: nat): Word
    requires f < FRAME_LIMIT
  {
    f * 0x400 + 1
  }

  /** (pa >> 12) << 10 | flags | PTE_V | PTE_A | PTE_D */
  function LeafPte(f: nat, p: Perm): Word
    requires f < FRAME_LIMIT
  {
    f * 0x400 + Flags(p) + 1 + 64 + 128
  }

  lemma EvenPart(c: nat, y: nat)
    ensures (2 * c + y) % 2 == y % 2
  {
  }

  /** Fields of a word made of a frame number above ten low bits. */
  lemma EntryFields(f: nat, low: nat)
    requires low < 0x400
    ensures var w := f * 0x400 + low;
            && V(w) == V(low) && R(w) == R(low) && W(w) == W(low) && X(w) == X(low) && U(w) == U(low)
               && w % 0x400 == low
            && (f < FRAME_LIMIT ==> Next(w) == f)
  {
    var w := f * 0x400 + low;
    assert w / 2 == f * 0x200 + low / 2 && w / 4 == f * 0x100 + low / 4;
    assert w / 8 == f * 0x80 + low / 8 && w / 16 == f * 0x40 + low / 16;
    EvenPart(f * 0x200, low);
    EvenPart(f * 0x100, low / 2);
    EvenPart(f * 0x80, low / 4);
    EvenPart(f * 0x40, low / 8);
    EvenPart(f * 0x20, low / 16);
    assert w / 0x400 == f;
  }

  lemma FlagBits(p: Perm)
    ensures var low := Flags(p) + 1 + 64 + 128;
            low < 0x400 && V(low) && R(low) == p.r && W(low) == p.w && X(low) == p.x && U(low) == p.u
  {
    match p {
      case Perm(true, _, _, _) =>
      case Perm(false, _, _, _) =>
    }
  }

  lemma DirPteFacts(f: nat)
    requires f < FRAME_LIMIT
    ensures DirPte(f) < PTE_LIMIT && V(DirPte(f)) && !IsLeaf(DirPte(f)) && Next(DirPte(f)) == f
  {
    EntryFields(f, 1);
  }

  lemma LeafPteFacts(f: nat, p: Perm)
    requires f < FRAME_LIMIT
    ensures LeafPte(f, p) < PTE_LIMIT && V(LeafPte(f, p)) && IsLeaf(LeafPte(f, p)) == Usable(p)
            && U(LeafPte(f, p)) == p.u
    ensures LeafPte(f, p) % 0x400 == Flags(p) + 1 + 64 + 128
    ensures R(LeafPte(f, p)) == p.r && W(LeafPte(f, p)) == p.w && X(LeafPte(f, p)) == p.x && Next(LeafPte(f, p)) == f
  {
    hide V, R, W, X, U, Next;
    FlagBits(p);
    EntryFields(f, Flags(p) + 1 + 64 + 128);
    assert LeafPte(f, p) == f * 0x400 + (Flags(p) + 1 + 64 + 128);
  }

  /** The entry clone writes for a copied user page: a new frame, the old low ten bits. */
  function Retarget(pte: nat, f: nat): Word
    requires f < FRAME_LIMIT
  {
    f * 0x400 + pte % 0x400
  }

  lemma RetargetFacts(pte: nat, f: nat)
    requires f < FRAME_LIMIT
    ensures Retarget(pte, f) < PTE_LIMIT && V(Retarget(pte, f)) == V(pte) && U(Retarget(pte, f)) == U(pte)
    ensures IsLeaf(Retarget(pte, f)) == IsLeaf(pte)
    ensures Next(Retarget(pte, f)) == f && Retarget(pte, f) % 0x400 == pte % 0x400
  {
    hide V, R, W, X, U, Next;
    var low := pte % 0x400;
    assert pte == pte / 0x400 * 0x400 + low;
    EntryFields(f, low);
    EntryFields(pte / 0x400, low);
  }

  // --- virtual addresses --------------------------------------------------------------------------------------

  function Vpn(va: nat, level: nat): (i: nat)
    ensures i < 512
  {
    if level == 0 then va / 0x1000 % 512 else if level == 1 then va / 0x20_0000 % 512 else va / 0x4000_0000 % 512
  }

  /** Do the two addresses agree in bits 38..12? */
  predicate SamePage(a: nat, b: nat) {
    Vpn(a, 2) == Vpn(b, 2) && Vpn(a, 1) == Vpn(b, 1) && Vpn(a, 0) == Vpn(b, 0)
  }

  lemma VpnOfPageNumber(a: nat)
    requires a < 0x80_0000_0000
    ensures var p := a / PAGE_SIZE;
            && Vpn(a, 0) == p % 512 && Vpn(a, 1) == p / 512 % 512 && Vpn(a, 2) == p / 0x4_0000
            && p == Vpn(a, 2) * 0x4_0000 + Vpn(a, 1) * 512 + Vpn(a, 0)
  {
    var p := a / PAGE_SIZE;
    assert a / 0x20_0000 == p / 512;
    assert a / 0x4000_0000 == p / 0x4_0000 < 512;
    assert p / 512 / 512 == p / 0x4_0000;
  }

  lemma SamePageIsSamePageNumber(a: nat, b: nat)
    requires a < 0x80_0000_0000 && b < 0x80_0000_0000
    ensures SamePage(a, b) <==> a / PAGE_SIZE == b / PAGE_SIZE
  {
    hide Vpn;
    VpnOfPageNumber(a);
    VpnOfPageNumber(b);
  }

  // --- the walk of vmm_lookup_page ------------------------------------------------------------------------------

  /** Where a walk ends: an entry of a table. */
  datatype Slot = Slot(table: nat, index: nat)

  /** The leaf entry that the loop of vmm_lookup_page stops at. */
  function LeafAt(m: Mem, table: nat, va: nat, level: nat): (s: Option<Slot>)
    ensures s.Some? ==> s.value.table in m && s.value.index < 512
    decreases level
  {
    if table !in m then None
    else
      var pte := m[table][Vpn(va, level)];
      if !V(pte) then None
      else if IsLeaf(pte) then Some(Slot(table, Vpn(va, level)))
      else if level == 0 then None
      else LeafAt(m, Next(pte), va, level - 1)
  }

  /** The value vmm_lookup_page returns: 0 for "not mapped". */
  function LookupPage(m: Mem, root: nat, va: nat): nat {
    match LeafAt(m, root, va, 2)
    case None => 0
    case Some(s) => Next(m[s.table][s.index]) * PAGE_SIZE + va % PAGE_SIZE
  }

  function Child(m: Mem, table: Option<nat>, index: nat): Option<nat>
    requires index < 512
  {
    match table
    case None => None
    case Some(t) => if t in m && V(m[t][index]) then Some(Next(m[t][index])) else None
  }

  function MidOf(m: Mem, root: nat, va: nat): Option<nat> { Child(m, Some(root), Vpn(va, 2)) }

  function LowOf(m: Mem, root: nat, va: nat): Option<nat> { Child(m, MidOf(m, root, va), Vpn(va, 1)) }

  /** The leaf entry for va, when every upper entry is a directory. */
  function SlotOf(m: Mem, root: nat, va: nat): (s: Option<Slot>)
    ensures s.Some? ==> s.value.table in m && s.value.index < 512
  {
    match LowOf(m, root, va)
    case None => None
    case Some(t) => if t in m && V(m[t][Vpn(va, 0)]) then Some(Slot(t, Vpn(va, 0))) else None
  }

  /** The entry that translates va. */
  function PteOf(m: Mem, root: nat, va: nat): nat {
    match SlotOf(m, root, va)
    case None => 0
    case Some(s) => m[s.table][s.index]
  }

  // --- typing of page-table memory ----------------------------------------------------------------------------

  datatype Role =
    | Root
    | Mid(slot: nat)                // under this slot of every root that uses it
    | Low(mid: nat, slot: nat)      // under this slot of this middle table
    | User(low: nat, slot: nat)     // the user page under this slot of this low table

  type Roles = map<nat, Role>

  /** A frame used at role `parent` may point, through its slot i, to a frame of role `child`. */
  ghost predicate Edge(roles: Roles, f: nat, i: nat, pte: nat)
    requires f in roles
  {
    pte < PTE_LIMIT &&
    match roles[f]
    case Root => !IsLeaf(pte) && Next(pte) in roles && roles[Next(pte)] == Mid(i)
    case Mid(_) => !IsLeaf(pte) && Next(pte) in roles && roles[Next(pte)] == Low(f, i)
    case Low(_, _) => IsLeaf(pte) && Next(pte) != 0 && (U(pte) ==> Next(pte) in roles && roles[Next(pte)] == User(f, i))
    case User(_, _) => false
  }

  ghost predicate IsTable(roles: Roles, f: nat) { f in roles && !roles[f].User? }

  ghost predicate WellTyped(m: Mem, roles: Roles) {
    && (forall f :: f in roles ==> f in m && 0 < f < FRAME_LIMIT)
    && (forall f, i :: IsTable(roles, f) && 0 <= i < 512 && V(m[f][i]) ==> Edge(roles, f, i, m[f][i]))
  }

  ghost predicate IsRoot(roles: Roles, f: nat) { f in roles && roles[f].Root? }

  /** In typed memory the walk is exactly three steps and no superpage is ever met. */
  lemma WalkIsThreeSteps(m: Mem, roles: Roles, root: nat, va: nat)
    requires WellTyped(m, roles) && IsRoot(roles, root)
    ensures LeafAt(m, root, va, 2) == SlotOf(m, root, va)
    ensures MidOf(m, root, va).Some? ==>
              MidOf(m, root, va).value in roles && roles[MidOf(m, root, va).value] == Mid(Vpn(va, 2))
    ensures LowOf(m, root, va).Some? ==>
              MidOf(m, root, va).Some?
              && LowOf(m, root, va).value in roles
              && roles[LowOf(m, root, va).value] == Low(MidOf(m, root, va).value, Vpn(va, 1))
    ensures SlotOf(m, root, va).Some? ==>
              LowOf(m, root, va) == Some(SlotOf(m, root, va).value.table)
                  && SlotOf(m, root, va).value.index == Vpn(va, 0)
              && V(PteOf(m, root, va)) && IsLeaf(PteOf(m, root, va))
  {
    hide V, IsLeaf, U, Next, Vpn;
    var i2, i1, i0 := Vpn(va, 2), Vpn(va, 1), Vpn(va, 0);
    var p2 := m[root][i2];
    if V(p2) {
      assert Edge(roles, root, i2, p2);
      var mid := Next(p2);
      var p1 := m[mid][i1];
      assert LeafAt(m, root, va, 2) == LeafAt(m, mid, va, 1);
      if V(p1) {
        assert Edge(roles, mid, i1, p1);
        var low := Next(p1);
        var p0 := m[low][i0];
        assert LeafAt(m, mid, va, 1) == LeafAt(m, low, va, 0);
        if V(p0) {
          assert Edge(roles, low, i0, p0);
        }
      }
    }
  }

  /** vmm_lookup_page returns 0 for the unmapped addresses only. */
  lemma ZeroMeansUnmapped(m: Mem, roles: Roles, root: nat, va: nat)
    requires WellTyped(m, roles) && IsRoot(roles, root)
    ensures LookupPage(m, root, va) == 0 <==> SlotOf(m, root, va) == None
    ensures SlotOf(m, root, va).Some? ==>
              LookupPage(m, root, va) == Next(PteOf(m, root, va)) * PAGE_SIZE + va % PAGE_SIZE
  {
    hide V, IsLeaf, U, Next, Vpn;
    WalkIsThreeSteps(m, roles, root, va);
    if SlotOf(m, root, va).Some? {
      var s := SlotOf(m, root, va).value;
      assert Edge(roles, s.table, s.index, m[s.table][s.index]);
    }
  }

  /** A user leaf leads to a page that belongs to this leaf alone. */
  lemma UserLeaf(m: Mem, roles: Roles, root: nat, va: nat)
    requires WellTyped(m, roles) && IsRoot(roles, root)
    requires SlotOf(m, root, va).Some? && U(PteOf(m, root, va))
    ensures var s := SlotOf(m, root, va).value;
            Next(PteOf(m, root, va)) in roles && roles[Next(PteOf(m, root, va))] == User(s.table, s.index)
  {
    hide V, IsLeaf, U, Next, Vpn;
    WalkIsThreeSteps(m, roles, root, va);
    var s := SlotOf(m, root, va).value;
    assert Edge(roles, s.table, s.index, m[s.table][s.index]);
  }

  /**
   Two addresses reach the same leaf entry, from any two roots, only if they lie in the same page and the two roots
   hold the same middle table.
   */
  lemma SameSlotMeansSamePage(m: Mem, roles: Roles, r: nat, a: nat, s: nat, b: nat)
    requires WellTyped(m, roles) && IsRoot(roles, r) && IsRoot(roles, s)
    requires SlotOf(m, r, a).Some? && SlotOf(m, s, b).Some?
    ensures SlotOf(m, r, a) == SlotOf(m, s, b) <==> SamePage(a, b) && MidOf(m, r, a) == MidOf(m, s, b)
  {
    hide V, IsLeaf, U, Next, Vpn;
    WalkIsThreeSteps(m, roles, r, a);
    WalkIsThreeSteps(m, roles, s, b);
  }

  /** A valid entry of an upper table is a directory entry for a table of the right role. */
  lemma DirEntry(m: Mem, roles: Roles, t: nat, i: nat)
    requires WellTyped(m, roles) && t in roles && (roles[t].Root? || roles[t].Mid?) && i < 512 && V(m[t][i])
    ensures !IsLeaf(m[t][i]) && Next(m[t][i]) in m && Next(m[t][i]) in roles
            && roles[Next(m[t][i])] == ChildRole(roles, t, i)
  {
    assert Edge(roles, t, i, m[t][i]);
  }

  // --- what the hardware does ------------------------------------------------------------------------------------

  datatype Access = Load | Store | Fetch

  /** U-mode or S-mode, and the SUM and MXR bits of sstatus. */
  datatype Mode = Mode(user: bool, sum: bool, mxr: bool)

  /**
   Steps 5 and 7 of the algorithm: what a leaf allows (section 4.3.1).  S-mode reaches user pages only under SUM, and
   never to execute; a page that was not marked as accessed, or not as dirty before a store, faults.
   */
  predicate Permits(pte: nat, access: Access, mode: Mode) {
    && (match access
        case Load => R(pte) || (mode.mxr && X(pte))
        case Store => W(pte)
        case Fetch => X(pte))
    && (if mode.user then U(pte) else U(pte) ==> mode.sum && !access.Fetch?)
    && Accessed(pte) && (access.Store? ==> Dirty(pte))
  }

  /**
   The translation algorithm of section 4.3.2: None is a page fault.  A leaf at level i > 0 is a superpage, whose low
   page-number fields come from the address.
   */
  function Translate(m: Mem, table: nat, va: nat, level: nat, access: Access, mode: Mode): Option<nat>
    decreases level
  {
    if table !in m then None
    else
      var pte := m[table][Vpn(va, level)];
      var ppn := pte / 0x400;
      if !V(pte) || (!R(pte) && W(pte)) || pte >= PTE_LIMIT then None
      else if R(pte) || X(pte) then
        if !Permits(pte, access, mode) then None
        else if level == 0 then Some(ppn * PAGE_SIZE + va % PAGE_SIZE)
        else if level == 1 then if ppn % 0x200 != 0 then None else Some(ppn * PAGE_SIZE + va % 0x20_0000)
        else if ppn % 0x4_0000 != 0 then None else Some(ppn * PAGE_SIZE + va % 0x4000_0000)
      else if level == 0 then None
      else Translate(m, ppn, va, level - 1, access, mode)
  }

  lemma AccessedDirty(f: nat, low: nat)
    requires low < 0x400
    ensures Accessed(f * 0x400 + low) == Accessed(low) && Dirty(f * 0x400 + low) == Dirty(low)
  {
    var pte := f * 0x400 + low;
    assert pte / 64 == f * 0x10 + low / 64 && pte / 128 == f * 8 + low / 128;
    EvenPart(f * 8, low / 64);
    EvenPart(f * 4, low / 128);
  }

  /** The low ten bits of an entry decide. */
  lemma FlagsDecide(a: nat, b: nat, access: Access, mode: Mode)
    requires a % 0x400 == b % 0x400
    ensures Permits(a, access, mode) == Permits(b, access, mode) && R(a) == R(b) && W(a) == W(b)
  {
    var low := a % 0x400;
    assert a == a / 0x400 * 0x400 + low && b == b / 0x400 * 0x400 + low;
    EntryFields(a / 0x400, low);
    EntryFields(b / 0x400, low);
    AccessedDirty(a / 0x400, low);
    AccessedDirty(b / 0x400, low);
    hide R, W, X, U, Accessed, Dirty;
  }

  /** What a page of these permissions may be used for. */
  predicate May(p: Perm, access: Access, mode: Mode) {
    && !(p.w && !p.r)
    && (match access
        case Load => p.r || (mode.mxr && p.x)
        case Store => p.w
        case Fetch => p.x)
    && (if mode.user then p.u else p.u ==> mode.sum && !access.Fetch?)
  }

  /** The leaves of vmm_map_page permit what was asked for. */
  lemma PermitsByFlags(pte: nat, p: Perm, access: Access, mode: Mode)
    requires pte % 0x400 == Flags(p) + 1 + 64 + 128
    ensures Permits(pte, access, mode) && !(W(pte) && !R(pte)) <==> May(p, access, mode)
  {
    var low := pte % 0x400;
    FlagBits(p);
    assert pte == pte / 0x400 * 0x400 + low;
    EntryFields(pte / 0x400, low);
    AccessedDirty(pte / 0x400, low);
    hide R, W, X, U, Accessed, Dirty;
  }

  /** Bits 63..39 of an address must equal bit 38 (section 4.4.1). */
  predicate Canonical(va: nat) { va < 0x40_0000_0000 || 0xFFFF_FFC0_0000_0000 <= va < WORD_LIMIT }

  /** What the hardware makes of an access to an address. */
  function Hardware(m: Mem, root: nat, va: nat, access: Access, mode: Mode): Option<nat> {
    if Canonical(va) then Translate(m, root, va, 2, access, mode) else None
  }

  lemma NextIsPpn(pte: nat)
    requires pte < PTE_LIMIT
    ensures Next(pte) == pte / 0x400
  {
    assert pte / 0x400 < 0x10_0000_0000_0000;
  }

  /**
   In typed memory vmm_lookup_page and the hardware agree, except where the lookup is more generous: it ignores bits 63
   to 39 of the address, returns the frame of a leaf that is writable but not readable, and asks for no permission.
   */
  lemma LookupAgreesWithHardware(m: Mem, roles: Roles, root: nat, va: nat, access: Access, mode: Mode)
    requires WellTyped(m, roles) && IsRoot(roles, root)
    ensures Hardware(m, root, va, access, mode)
            == if !Canonical(va) || SlotOf(m, root, va) == None
                || (W(PteOf(m, root, va)) && !R(PteOf(m, root, va)))
                || !Permits(PteOf(m, root, va), access, mode) then None
               else Some(LookupPage(m, root, va))
  {
    hide V, U, Next, R, W, X, Permits;
    WalkIsThreeSteps(m, roles, root, va);
    assert forall pte: nat :: pte < PTE_LIMIT ==> Next(pte) == pte / 0x400 by {
      forall pte: nat | pte < PTE_LIMIT ensures Next(pte) == pte / 0x400 { NextIsPpn(pte); }
    }
    var p2 := m[root][Vpn(va, 2)];
    if V(p2) {
      DirEntry(m, roles, root, Vpn(va, 2));
      assert Edge(roles, root, Vpn(va, 2), p2);
      var p1 := m[Next(p2)][Vpn(va, 1)];
      assert Translate(m, root, va, 2, access, mode) == Translate(m, Next(p2), va, 1, access, mode);
      if V(p1) {
        DirEntry(m, roles, Next(p2), Vpn(va, 1));
        assert Edge(roles, Next(p2), Vpn(va, 1), p1);
        assert Translate(m, root, va, 2, access, mode) == Translate(m, Next(p1), va, 0, access, mode);
        var p0 := m[Next(p1)][Vpn(va, 0)];
        if V(p0) {
          assert Edge(roles, Next(p1), Vpn(va, 0), p0);
        }
      }
    }
  }

  /** So the hardware allows exactly that, at the frame of the leaf. */
  lemma LeafAccess(m: Mem, roles: Roles, root: nat, va: nat, p: Perm, access: Access, mode: Mode)
    requires WellTyped(m, roles) && IsRoot(roles, root) && Canonical(va)
    requires SlotOf(m, root, va).Some? && PteOf(m, root, va) % 0x400 == Flags(p) + 1 + 64 + 128
    ensures Hardware(m, root, va, access, mode)
            == if May(p, access, mode) then Some(Next(PteOf(m, root, va)) * PAGE_SIZE + va % PAGE_SIZE) else None
  {
    hide V, R, W, X, U, Next, Vpn, SlotOf, PteOf, Hardware, LookupPage, Permits, May;
    LookupAgreesWithHardware(m, roles, root, va, access, mode);
    PermitsByFlags(PteOf(m, root, va), p, access, mode);
    ZeroMeansUnmapped(m, roles, root, va);
  }

  /** On a superpage, which vmm_map_page never makes, the lookup and the hardware part ways. */
  lemma LookupIsWrongOnSuperpages()
    ensures exists m: Mem, root, va, access, mode ::
              var pa := Hardware(m, root, va, access, mode); pa.Some? && pa != Some(LookupPage(m, root, va))
  {
    var pte: Word := 0x4_0000 * 0x400 + 0xCF;
    var m: Mem := map[1 := ZeroPage()[0 := pte]];
    assert m[1][Vpn(0x1000, 2)] == pte;
    EntryFields(0x4_0000, 0xCF);
    assert Hardware(m, 1, 0x1000, Load, Mode(false, false, false)) == Some(0x4_0000 * PAGE_SIZE + 0x1000);
    assert LookupPage(m, 1, 0x1000) == 0x4_0000 * PAGE_SIZE;
  }

  // --- growing the tables --------------------------------------------------------------------------------------

  /** The role of a table hung under slot i of table t. */
  ghost function ChildRole(roles: Roles, t: nat, i: nat): Role
    requires t in roles
  {
    if roles[t].Root? then Mid(i) else Low(t, i)
  }

  lemma EmptyTableIsInvisible(m: Mem, roles: Roles, t: nat, i: nat, f: nat, r: nat, va: nat)
    requires WellTyped(m, roles) && t in roles && (roles[t].Root? || roles[t].Mid?) && IsRoot(roles, r)
    requires i < 512 && !V(m[t][i]) && f in m && f !in roles && 0 < f < FRAME_LIMIT
    ensures SlotOf(m[f := ZeroPage()][t := m[t][i := DirPte(f)]], r, va) == SlotOf(m, r, va)
  {
    hide IsLeaf, U, Vpn;
    DirPteFacts(f);
    WalkIsThreeSteps(m, roles, r, va);
  }

  /** Hanging an empty table under an unused slot keeps the typing and no walk notices. */
  lemma LinkEmptyTable(m: Mem, roles: Roles, t: nat, i: nat, f: nat)
    requires WellTyped(m, roles) && t in roles && (roles[t].Root? || roles[t].Mid?)
    requires i < 512 && !V(m[t][i]) && f in m && f !in roles && 0 < f < FRAME_LIMIT
    ensures var m' := m[f := ZeroPage()][t := m[t][i := DirPte(f)]];
            var roles' := roles[f := ChildRole(roles, t, i)];
            && WellTyped(m', roles')
            && V(m'[t][i]) && Next(m'[t][i]) == f
            && (forall r, va :: IsRoot(roles, r) ==> SlotOf(m', r, va) == SlotOf(m, r, va))
  {
    hide IsLeaf, U, Next, Vpn;
    DirPteFacts(f);
    var m' := m[f := ZeroPage()][t := m[t][i := DirPte(f)]];
    var roles' := roles[f := ChildRole(roles, t, i)];
    forall g: nat, j: nat | IsTable(roles', g) && 0 <= j < 512 && V(m'[g][j])
      ensures Edge(roles', g, j, m'[g][j])
    {
      if g != f && (g, j) != (t, i) {
        assert Edge(roles, g, j, m[g][j]);
      }
    }
    forall r, va | IsRoot(roles, r)
      ensures SlotOf(m', r, va) == SlotOf(m, r, va)
    {
      EmptyTableIsInvisible(m, roles, t, i, f, r, va);
    }
  }

  /** Writing a leaf into an unused slot of a low table changes exactly the walks that reach this slot. */
  lemma PutLeaf(m: Mem, roles: Roles, t: nat, i: nat, pte: Word, roles': Roles)
    requires WellTyped(m, roles) && t in roles && roles[t].Low?
    requires i < 512 && !V(m[t][i]) && V(pte) && IsLeaf(pte) && Next(pte) != 0 && pte < PTE_LIMIT
    requires roles' == if U(pte) then roles[Next(pte) := User(t, i)] else roles
    requires U(pte) ==> Next(pte) !in roles && Next(pte) in m && 0 < Next(pte) < FRAME_LIMIT
    ensures var m' := m[t := m[t][i := pte]];
            && WellTyped(m', roles')
            && (forall r, va :: IsRoot(roles, r) ==>
                  && MidOf(m', r, va) == MidOf(m, r, va)
                  && LowOf(m', r, va) == LowOf(m, r, va)
                  && SlotOf(m', r, va) == if LowOf(m, r, va) == Some(t) && Vpn(va, 0) == i then Some(Slot(t, i))
                     else SlotOf(m, r, va))
  {
    hide V, IsLeaf, U, Next, Vpn;
    var m' := m[t := m[t][i := pte]];
    forall g: nat, j: nat | IsTable(roles', g) && 0 <= j < 512 && V(m'[g][j])
      ensures Edge(roles', g, j, m'[g][j])
    {
      if g in roles && (g, j) != (t, i) {
        assert Edge(roles, g, j, m[g][j]);
      }
    }
    forall r, va | IsRoot(roles, r)
      ensures MidOf(m', r, va) == MidOf(m, r, va) && LowOf(m', r, va) == LowOf(m, r, va)
      ensures SlotOf(m', r, va) == if LowOf(m, r, va) == Some(t) && Vpn(va, 0) == i then Some(Slot(t, i))
              else SlotOf(m, r, va)
    {
      WalkIsThreeSteps(m, roles, r, va);
      assert MidOf(m', r, va) == MidOf(m, r, va);
    }
  }
}
