/**
 What becomes of a name whose file was unlinked: a run from fs_init after which a created path does not lead to its
 file.
 */
module FsReuse {
  import opened CStrings
  import opened FsModel
  import opened FsFacts
  import opened FsPaths
  import opened FsBoot
  import opened FsRuns

  // --- the root directory as a list of entries ---------------------------------------------------------------------

  datatype Entry = Entry(name: Name, inode: nat)

  ghost predicate EntryIs(fs: Fs, e: nat, x: Entry) {
    var at := fs.inodes[0].offset + e * ENTRY_SIZE;
    at + ENTRY_SIZE <= DATA_BUF_SIZE && EntryName(fs.data, at) == x.name && EntryInode(fs.data, at) == x.inode
  }

  ghost predicate RootHas(fs: Fs, es: seq<Entry>) {
    && FsOk(fs) && Walkable(fs) && es != [] && fs.inodes[0].size == |es| * ENTRY_SIZE
    && forall e :: 0 <= e < |es| ==> EntryIs(fs, e, es[e])
  }

  /** The inode of the first entry that answers, or -1. */
  function Find(inodes: Inodes, es: seq<Entry>, m: Name): int {
    if es == [] then -1
    else if es[0].inode < MAX_INODES && inodes[es[0].inode].used && SameName(es[0].name, m, 0) then es[0].inode
    else Find(inodes, es[1..], m)
  }

  lemma RootPlaced(fs: Fs, es: seq<Entry>)
    requires RootHas(fs, es)
    ensures fs.inodes[0].kind.Dir? && fs.inodes[0].used && fs.cwd == 0
            && fs.inodes[0].offset + DIR_SIZE <= DATA_BUF_SIZE && |es| <= MAX_DIR_ENTRIES
  {
    assert InodeOk(fs, 0);
  }

  lemma {:induction false} FindIsLookup(fs: Fs, es: seq<Entry>, m: Name, e: nat)
    requires RootHas(fs, es) && e <= |es| && Placed(fs.inodes[0])
    ensures fs.inodes[0].offset + |es| * ENTRY_SIZE <= DATA_BUF_SIZE
    ensures LookupFrom(fs.inodes, fs.data, fs.inodes[0].offset, |es|, e, m) == Find(fs.inodes, es[e..], m)
    decreases |es| - e
  {
    hide FsOk, EntryName, EntryInode, SameName;
    RootPlaced(fs, es);
    if e < |es| {
      assert EntryIs(fs, e, es[e]);
      FindIsLookup(fs, es, m, e + 1);
      assert es[e..][1..] == es[e + 1..] && es[e..][0] == es[e];
    }
  }

  lemma RootLookup(fs: Fs, es: seq<Entry>, m: Name)
    requires RootHas(fs, es)
    ensures DirLookup(fs, 0, m) == Find(fs.inodes, es, m)
  {
    RootPlaced(fs, es);
    FindIsLookup(fs, es, m, 0);
    assert es[0..] == es;
  }

  lemma SameRoot(fs: Fs, g: Fs, es: seq<Entry>)
    requires RootHas(fs, es) && FsOk(g) && g.data == fs.data && g.inodes[0].(refs := 0) == fs.inodes[0].(refs := 0)
    ensures RootHas(g, es)
  {
    hide FsOk, EntryName, EntryInode;
    OkIsWalkable(g);
    assert g.inodes[0].offset == fs.inodes[0].(refs := 0).offset && g.inodes[0].size == fs.inodes[0].(refs := 0).size;
    forall e | 0 <= e < |es|
      ensures EntryIs(g, e, es[e])
    {
      assert EntryIs(fs, e, es[e]);
    }
  }

  lemma AddToRoot(fs: Fs, es: seq<Entry>, name: Name, target: nat)
    requires RootHas(fs, es) && |es| < MAX_DIR_ENTRIES && target < MAX_INODES
    ensures var g := DirAdd(fs, 0, name, target);
            && RootHas(g, es + [Entry(name, target)]) && g.fds == fs.fds && g.next == fs.next
            && forall i :: 1 <= i < MAX_INODES ==> g.inodes[i] == fs.inodes[i]
  {
    hide EntryName, EntryInode, EntryBytes, FsOk;
    RootPlaced(fs, es);
    var g := DirAdd(fs, 0, name, target);
    DirAddKeepsOk(fs, 0, name, target);
    var at := fs.inodes[0].offset;
    SplicedEntry(fs.data, at + fs.inodes[0].size, name, target);
    forall e | 0 <= e < |es| + 1
      ensures EntryIs(g, e, (es + [Entry(name, target)])[e])
    {
      if e < |es| {
        assert EntryIs(fs, e, es[e]);
        EntryKept(fs.data, g.data, at + e * ENTRY_SIZE);
      }
    }
  }

  lemma AddElsewhere(fs: Fs, es: seq<Entry>, dir: nat, name: Name, target: nat)
    requires RootHas(fs, es) && 0 < dir < MAX_INODES && fs.inodes[dir].used && target < MAX_INODES
    ensures var g := DirAdd(fs, dir, name, target);
            && RootHas(g, es) && g.fds == fs.fds
            && forall i :: 0 <= i < MAX_INODES && i != dir ==> g.inodes[i] == fs.inodes[i]
  {
    hide EntryName, EntryInode, EntryBytes;
    RootPlaced(fs, es);
    DirAddKeepsOk(fs, dir, name, target);
    if CanAdd(fs, dir) {
      var g := DirAdd(fs, dir, name, target);
      DirAddGrows(fs, dir, name, target);
      GrowthKeepsRegions(fs, g, dir);
      assert InodeOk(fs, 0) && Elsewhere(fs.inodes[0], g.inodes[dir]);
      forall e | 0 <= e < |es|
        ensures EntryIs(g, e, es[e])
      {
        assert EntryIs(fs, e, es[e]);
        EntryKept(fs.data, g.data, fs.inodes[0].offset + e * ENTRY_SIZE);
      }
    }
  }

  // --- calls on names in the root ----------------------------------------------------------------------------------

  /** "/name" */
  function Top(name: Str): Str { [SLASH] + name }

  predicate Plain(name: Str) { name != [] && SLASH !in name && name != [DOT] && |name| < MAX_FILENAME }

  const CREATE: nat := O_RDWR + O_CREAT

  lemma WalkOne(fs: Fs, cur: nat, tok: Str)
    requires Walkable(fs) && cur < MAX_INODES && tok != [DOT]
    ensures Walk(fs, cur, [tok]) == if fs.inodes[cur].kind.Dir? then DirLookup(fs, cur, Pad(tok)) else -1
  {
    assert [tok][1..] == [];
  }

  lemma RootIsDir(fs: Fs)
    requires FsOk(fs)
    ensures fs.inodes[0].kind.Dir?
  {
  }

  lemma TopPath(fs: Fs, name: Str)
    requires FsOk(fs) && Walkable(fs) && Plain(name)
    ensures Resolve(fs, Top(name)) == DirLookup(fs, 0, Pad(name))
    ensures ParentPath(Top(name)) == [SLASH] && BaseName(Top(name)) == name && Resolve(fs, [SLASH]) == 0
  {
    hide FsOk, DirLookup, Pad;
    var path := Top(name);
    StartIsUsed(fs, path);
    RootIsDir(fs);
    assert path[1..] == name && Body(path) == name;
    OneToken(name, SLASH);
    WalkOne(fs, 0, name);
    assert LastSlash(path) == 0 by {
      assert path[0] == SLASH && forall k :: 1 <= k < |path| ==> path[k] == name[k - 1];
    }
    var root: Str := [SLASH];
    assert Body(root) == [] && Tokens(Body(root), SLASH) == [];
  }

  /** n and f are the numbers that fs_open hands out next. */
  predicate Lowest(fs: Fs, n: nat, f: nat) {
    && n < MAX_INODES && !fs.inodes[n].used && (forall i :: 0 <= i < n ==> fs.inodes[i].used)
    && 3 <= f < MAX_FD && !fs.fds[f].valid && (forall k :: 3 <= k < f ==> fs.fds[k].valid)
  }

  lemma CreateTop(fs: Fs, es: seq<Entry>, name: Str, n: nat, f: nat)
    requires RootHas(fs, es) && |es| < MAX_DIR_ENTRIES && Plain(name) && Find(fs.inodes, es, Pad(name)) == -1
    requires Lowest(fs, n, f)
    ensures var g := Effect(fs, OpenFile(Top(name), CREATE));
            && RootHas(g, es + [Entry(Pad(name), n)]) && g.next == fs.next
               && g.fds == fs.fds[f := Fd(n, 0, CREATE, true)]
            && n > 0 && g.inodes[n] == Inode(File, 0, 0, true, 1)
            && forall i :: 1 <= i < MAX_INODES && i != n ==> g.inodes[i] == fs.inodes[i]
  {
    hide FsOk, Find, EntryIs, DirAdd, Pad, EntryName, EntryInode, Resolve, DirLookup;
    RootPlaced(fs, es);
    TopPath(fs, name);
    RootLookup(fs, es, Pad(name));
    assert FirstUnused(fs.inodes) == n && FirstFreeFd(fs.fds, 3) == f;
    var a := WithInode(fs, n, File);
    AllocKeepsOk(fs, n, File);
    SameRoot(fs, a, es);
    AddToRoot(a, es, Pad(name), n);
    var h := DirAdd(a, 0, Pad(name), n);
    assert Has(CREATE, O_CREAT);
    assert OpenInode(fs, Top(name), CREATE) == (h, n);
    WithFdKeepsOk(h, f, n, CREATE);
    assert Effect(fs, OpenFile(Top(name), CREATE)) == WithFd(h, f, n, CREATE);
    SameRoot(h, WithFd(h, f, n, CREATE), es + [Entry(Pad(name), n)]);
  }

  lemma CloseTop(fs: Fs, es: seq<Entry>, f: nat, n: nat)
    requires RootHas(fs, es) && f < MAX_FD && fs.fds[f].valid && fs.fds[f].inode == n && 0 < n < MAX_INODES
    ensures var g := Effect(fs, CloseFd(f));
            && RootHas(g, es) && g.next == fs.next && g.fds == fs.fds[f := fs.fds[f].(valid := false)]
            && fs.inodes[n].refs > 0 && g.inodes[n] == fs.inodes[n].(refs := fs.inodes[n].refs - 1)
            && forall i :: 1 <= i < MAX_INODES && i != n ==> g.inodes[i] == fs.inodes[i]
  {
    CountPositive(fs.fds, f, n);
    hide FsOk, EntryIs;
    CloseKeepsOk(fs, f);
    SameRoot(fs, Effect(fs, CloseFd(f)), es);
  }

  lemma UnlinkTop(fs: Fs, es: seq<Entry>, name: Str, n: nat)
    requires RootHas(fs, es) && Plain(name) && Find(fs.inodes, es, Pad(name)) == n && 0 < n < MAX_INODES
    requires fs.inodes[n].kind.File? && fs.inodes[n].refs == 0
    ensures var g := Effect(fs, Remove(Top(name)));
            && RootHas(g, es) && g.next == fs.next && g.fds == fs.fds && !g.inodes[n].used
            && forall i :: 1 <= i < MAX_INODES && i != n ==> g.inodes[i] == fs.inodes[i]
  {
    hide FsOk, EntryIs, Find, Pad, Resolve;
    TopPath(fs, name);
    RootLookup(fs, es, Pad(name));
    UnlinkKeepsOk(fs, Top(name));
    SameRoot(fs, Effect(fs, Remove(Top(name))), es);
  }

  lemma MkdirTopIs(fs: Fs, es: seq<Entry>, name: Str, n: nat)
    requires RootHas(fs, es) && Plain(name) && Find(fs.inodes, es, Pad(name)) == -1 && FirstUnused(fs.inodes) == n
    ensures Effect(fs, MakeDir(Top(name))) == MadeDir(fs, 0, n, Pad(name))
  {
    RootLookup(fs, es, Pad(name));
    hide Find, Pad, Resolve, DirLookup, MadeDir, FsOk;
    TopPath(fs, name);
  }

  /** The directory answers to "." and ".." alone. */
  ghost predicate DirOnlyDots(fs: Fs, n: nat)
    requires n < MAX_INODES && Walkable(fs)
  {
    forall m: Name :: !SameName(Pad([DOT]), m, 0) && !SameName(Pad([DOT, DOT]), m, 0) ==> DirLookup(fs, n, m) == -1
  }

  lemma MadeInRoot(fs: Fs, es: seq<Entry>, name: Name, n: nat)
    requires RootHas(fs, es) && |es| < MAX_DIR_ENTRIES && 0 < n < MAX_INODES && !fs.inodes[n].used
    requires fs.next + DIR_SIZE <= DATA_BUF_SIZE
    ensures var g := MadeDir(fs, 0, n, name);
            && RootHas(g, es + [Entry(name, n)]) && g.fds == fs.fds
            && g.inodes[n].kind.Dir? && g.inodes[n].used && g.inodes[n].size == 2 * ENTRY_SIZE && DirOnlyDots(g, n)
            && forall i :: 1 <= i < MAX_INODES && i != n ==> g.inodes[i] == fs.inodes[i]
  {
    hide FsOk, EntryIs, Pad, EntryName, EntryInode, EntryBytes, SameName, DirLookup, Diverts;
    RootPlaced(fs, es);
    var a := WithInode(fs, n, Dir);
    AllocKeepsOk(fs, n, Dir);
    SameRoot(fs, a, es);
    AddElsewhere(a, es, n, Pad([DOT]), n);
    var b := DirAdd(a, n, Pad([DOT]), n);
    AddElsewhere(b, es, n, Pad([DOT, DOT]), 0);
    var c := DirAdd(b, n, Pad([DOT, DOT]), 0);
    AddToRoot(c, es, name, n);
    forall m: Name | !SameName(Pad([DOT]), m, 0) && !SameName(Pad([DOT, DOT]), m, 0)
      ensures DirLookup(MadeDir(fs, 0, n, name), n, m) == -1
    {
      LookupInNewDir(fs, 0, n, name, m);
    }
  }

  lemma MkdirTop(fs: Fs, es: seq<Entry>, name: Str, n: nat)
    requires RootHas(fs, es) && |es| < MAX_DIR_ENTRIES && Plain(name) && Find(fs.inodes, es, Pad(name)) == -1
    requires FirstUnused(fs.inodes) == n && fs.next + DIR_SIZE <= DATA_BUF_SIZE
    ensures var g := Effect(fs, MakeDir(Top(name)));
            && RootHas(g, es + [Entry(Pad(name), n)]) && g.fds == fs.fds
            && n > 0 && g.inodes[n].kind.Dir? && g.inodes[n].used && g.inodes[n].size == 2 * ENTRY_SIZE
            && DirOnlyDots(g, n)
            && forall i :: 1 <= i < MAX_INODES && i != n ==> g.inodes[i] == fs.inodes[i]
  {
    RootPlaced(fs, es);
    assert n > 0;
    MkdirTopIs(fs, es, name, n);
    hide RootHas, Find, Pad, DirOnlyDots, FsOk, Effect, MadeDir;
    MadeInRoot(fs, es, Pad(name), n);
  }

  lemma RootOk(fs: Fs, es: seq<Entry>)
    requires RootHas(fs, es)
    ensures FsOk(fs) && Walkable(fs)
  {
  }

  // --- the run -------------------------------------------------------------------------------------------------------

  const X: Str := [120]
  const D: Str := [100]
  /** "/d/x" */
  const PATH_D_X: Str := [SLASH, 100, SLASH, 120]

  /** Create /x and /d, close and unlink both, and make /d a directory. */
  const REUSE: seq<Call> := [OpenFile(Top(X), CREATE), OpenFile(Top(D), CREATE), CloseFd(3), CloseFd(4), Remove(Top(X)),
      Remove(Top(D)), MakeDir(Top(D))]

  function DotEntries(): seq<Entry> { [Entry(Pad([DOT]), 0), Entry(Pad([DOT, DOT]), 0)] }

  lemma InitRoot()
    ensures var fs := FsInit();
            && RootHas(fs, DotEntries()) && fs.next == DIR_SIZE
            && (forall i :: 1 <= i < MAX_INODES ==> fs.inodes[i] == Inode(FreeInode, 0, 0, false, 0))
            && (forall f :: 0 <= f < MAX_FD ==> (fs.fds[f].valid <==> f < 3))
  {
    hide FsOk, EntryName, EntryInode, EntryBytes, Pad;
    InitIsOk();
    var a := WithInode(Blank(), 0, Dir);
    var b := DirAdd(a, 0, Pad([DOT]), 0);
    var c := DirAdd(b, 0, Pad([DOT, DOT]), 0);
    SplicedEntry(a.data, 0, Pad([DOT]), 0);
    SplicedEntry(b.data, ENTRY_SIZE, Pad([DOT, DOT]), 0);
    EntryKept(b.data, c.data, 0);
    var fs := FsInit();
    assert EntryIs(fs, 0, DotEntries()[0]) && EntryIs(fs, 1, DotEntries()[1]);
  }

  lemma NamesDiffer()
    ensures !SameName(Pad([DOT]), Pad(X), 0) && !SameName(Pad([DOT, DOT]), Pad(X), 0)
    ensures !SameName(Pad([DOT]), Pad(D), 0) && !SameName(Pad([DOT, DOT]), Pad(D), 0)
    ensures !SameName(Pad(X), Pad(D), 0) && SameName(Pad(X), Pad(X), 0) && SameName(Pad(D), Pad(D), 0)
  {
    SameNameIffPadsEqual([DOT], X);
    SameNameIffPadsEqual([DOT, DOT], X);
    SameNameIffPadsEqual([DOT], D);
    SameNameIffPadsEqual([DOT, DOT], D);
    SameNameIffPadsEqual(X, D);
    SameNameIffPadsEqual(X, X);
    SameNameIffPadsEqual(D, D);
    assert Pad([DOT])[0] == DOT && Pad([DOT, DOT])[0] == DOT && Pad(X)[0] == 120 && Pad(D)[0] == 100;
  }

  predicate Answers(inodes: Inodes, x: Entry, m: Name) {
    x.inode < MAX_INODES && inodes[x.inode].used && SameName(x.name, m, 0)
  }

  lemma {:induction false} FindAppend(inodes: Inodes, es: seq<Entry>, x: Entry, m: Name)
    ensures Find(inodes, es + [x], m)
            == if Find(inodes, es, m) >= 0 then Find(inodes, es, m) else if Answers(inodes, x, m) then x.inode else -1
  {
    hide SameName;
    if es == [] {
      assert [] + [x] == [x] && [x][1..] == [];
    } else {
      assert (es + [x])[1..] == es[1..] + [x];
      FindAppend(inodes, es[1..], x, m);
    }
  }

  lemma FindDots(inodes: Inodes, m: Name)
    requires !SameName(Pad([DOT]), m, 0) && !SameName(Pad([DOT, DOT]), m, 0)
    ensures Find(inodes, DotEntries(), m) == -1
  {
    hide SameName, Pad;
    var es := DotEntries();
    assert es[1..][1..] == [];
    assert Find(inodes, es[1..], m) == -1;
  }

  lemma {:induction false} EffectsSnoc(fs: Fs, calls: seq<Call>, c: Call)
    requires FsOk(fs)
    ensures Effects(fs, calls + [c]) == Effect(Effects(fs, calls), c)
    decreases |calls|
  {
    hide FsOk, Effect;
    if calls == [] {
      assert [] + [c] == [c] && [c][1..] == [];
    } else {
      assert (calls + [c])[1..] == calls[1..] + [c];
      EffectsSnoc(Effect(fs, calls[0]), calls[1..], c);
    }
  }

  /** The state after the first k calls. */
  ghost function After(k: nat): (fs: Fs)
    requires k <= |REUSE|
    ensures FsOk(fs)
  {
    InitIsOk();
    Effects(FsInit(), REUSE[..k])
  }

  lemma AfterStep(k: nat)
    requires k < |REUSE|
    ensures After(k + 1) == Effect(After(k), REUSE[k])
  {
    hide FsOk, Effect, FsInit;
    InitIsOk();
    assert REUSE[..k + 1] == REUSE[..k] + [REUSE[k]];
    EffectsSnoc(FsInit(), REUSE[..k], REUSE[k]);
  }

  function FileEntries(): seq<Entry> { DotEntries() + [Entry(Pad(X), 1)] + [Entry(Pad(D), 2)] }

  lemma NoEffects()
    ensures FsOk(FsInit()) && Effects(FsInit(), []) == FsInit()
  {
    InitIsOk();
  }

  lemma RootUsed(fs: Fs, es: seq<Entry>)
    requires RootHas(fs, es)
    ensures fs.inodes[0].used
  {
  }

  /** Both files are there. */
  lemma FilesMade()
    ensures var fs := After(2);
            && RootHas(fs, FileEntries()) && fs.next == DIR_SIZE
            && fs.inodes[1] == Inode(File, 0, 0, true, 1) && fs.inodes[2] == Inode(File, 0, 0, true, 1)
            && fs.fds[3].valid && fs.fds[3].inode == 1 && fs.fds[4].valid && fs.fds[4].inode == 2
            && (forall i :: 3 <= i < MAX_INODES ==> !fs.inodes[i].used)
  {
    hide RootHas, Effect, Pad, SameName, FsInit, FsOk, Effects, Find;
    InitRoot();
    NamesDiffer();
    assert REUSE[..0] == [];
    assert After(0) == FsInit() by { NoEffects(); }
    var s0, s1, es := After(0), After(1), DotEntries();
    RootOk(s0, es);
    RootUsed(s0, es);
    FindDots(s0.inodes, Pad(X));
    CreateTop(s0, es, X, 1, 3);
    AfterStep(0);
    var es1 := es + [Entry(Pad(X), 1)];
    FindDots(s1.inodes, Pad(D));
    FindAppend(s1.inodes, es, Entry(Pad(X), 1), Pad(D));
    RootOk(s1, es1);
    RootUsed(s1, es1);
    CreateTop(s1, es1, D, 2, 4);
    AfterStep(1);
  }

  /** What the root answers, by which numbers are in use. */
  lemma FindFiles(inodes: Inodes)
    ensures Find(inodes, FileEntries(), Pad(X)) == if inodes[1].used then 1 else -1
    ensures Find(inodes, FileEntries(), Pad(D)) == if inodes[2].used then 2 else -1
  {
    hide SameName, Pad, Find;
    NamesDiffer();
    SameNameIffPadsEqual(D, X);
    SameNameIffPadsEqual(X, D);
    var es := DotEntries();
    FindDots(inodes, Pad(X));
    FindDots(inodes, Pad(D));
    FindAppend(inodes, es, Entry(Pad(X), 1), Pad(X));
    FindAppend(inodes, es, Entry(Pad(X), 1), Pad(D));
    FindAppend(inodes, es + [Entry(Pad(X), 1)], Entry(Pad(D), 2), Pad(X));
    FindAppend(inodes, es + [Entry(Pad(X), 1)], Entry(Pad(D), 2), Pad(D));
  }

  /** Both files are closed and unlinked; their entries stay. */
  lemma FilesGone()
    ensures var fs := After(6);
            && RootHas(fs, FileEntries()) && fs.next == DIR_SIZE
            && (forall i :: 1 <= i < MAX_INODES ==> !fs.inodes[i].used) && !fs.fds[3].valid
  {
    hide RootHas, Effect, Pad, SameName, FsInit, FsOk, Effects, Find, After, DotEntries;
    FilesMade();
    NamesDiffer();
    var es := FileEntries();
    CloseTop(After(2), es, 3, 1);
    AfterStep(2);
    CloseTop(After(3), es, 4, 2);
    AfterStep(3);
    FindFiles(After(4).inodes);
    UnlinkTop(After(4), es, X, 1);
    AfterStep(4);
    FindFiles(After(5).inodes);
    UnlinkTop(After(5), es, D, 2);
    AfterStep(5);
  }

  function ReusedEntries(): seq<Entry> { FileEntries() + [Entry(Pad(D), 1)] }

  lemma FourEntries()
    ensures |FileEntries()| == 4 && FileEntries()[3] == Entry(Pad(D), 2) && FileEntries()[2] == Entry(Pad(X), 1)
    ensures FileEntries()[0] == Entry(Pad([DOT]), 0) && FileEntries()[1] == Entry(Pad([DOT, DOT]), 0)
  {
    hide Pad;
  }

  /** /d is a directory, number 1; before it stands a stale entry of the same name with number 2. */
  lemma DirMade()
    ensures var fs := After(7);
            && RootHas(fs, ReusedEntries())
            && fs.inodes[1].kind.Dir? && fs.inodes[1].used && fs.inodes[1].size == 2 * ENTRY_SIZE && DirOnlyDots(fs, 1)
            && (forall i :: 2 <= i < MAX_INODES ==> !fs.inodes[i].used) && !fs.fds[3].valid
  {
    hide RootHas, Effect, Pad, SameName, FsInit, FsOk, Effects, Find, After, FileEntries;
    FilesGone();
    FindFiles(After(6).inodes);
    RootUsed(After(6), FileEntries());
    FourEntries();
    MkdirTop(After(6), FileEntries(), D, 1);
    AfterStep(6);
  }

  lemma PathIs()
    ensures ParentPath(PATH_D_X) == Top(D) && BaseName(PATH_D_X) == X && Has(CREATE, O_CREAT)
  {
    assert LastSlash(PATH_D_X) == 2;
    assert PATH_D_X[..2] == Top(D) && PATH_D_X[2 + 1..] == X;
  }

  /** The stale entry comes before the live one. */
  lemma StaleEntryDiverts(fs: Fs)
    requires RootHas(fs, ReusedEntries()) && !fs.inodes[2].used
    ensures DivertsResolve(fs, Top(D), 2)
  {
    hide FsOk, Pad, SameName, EntryName, EntryInode, DirLookup;
    var es := ReusedEntries();
    RootPlaced(fs, es);
    FourEntries();
    NamesDiffer();
    assert EntryIs(fs, 0, es[0]) && EntryIs(fs, 1, es[1]) && EntryIs(fs, 2, es[2]) && EntryIs(fs, 3, es[3]);
    assert NamesAt(fs, 0, 3, Pad(D), 2);
    assert !AnswersAt(fs, 0, 0, Pad(D)) && !AnswersAt(fs, 0, 1, Pad(D)) && !AnswersAt(fs, 0, 2, Pad(D));
    assert Diverts(fs, 0, Pad(D), 2);
    assert Body(Top(D)) == D;
    OneToken(D, SLASH);
  }

  /**
   After the run of calls /d is an empty directory, and creating /d/x succeeds: the path was free, its parent has room,
   the file gets number 2 and a descriptor.  But number 2 brings the stale entry "d" back to life, so /d is no
   directory any more and /d/x leads nowhere.
   */
  lemma CreateMayNotResolve()
    ensures FsOk(FsInit()) && var fs := Effects(FsInit(), REUSE);
            && Walkable(fs) && Resolve(fs, Top(D)) == 1 && fs.inodes[1].kind.Dir? && CanAdd(fs, 1)
               && Resolve(fs, PATH_D_X) == -1
            && var (h, n) := OpenInode(fs, PATH_D_X, CREATE);
               n == 2 && Walkable(h) && Resolve(h, PATH_D_X) != n && FirstFreeFd(h.fds, 3) >= 0
  {
    hide RootHas, Effect, Pad, SameName, FsInit, FsOk, Effects, Find, FileEntries, Resolve, DirLookup, OpenInode, Walk,
         NewLookup, Diverts;
    DirMade();
    InitIsOk();
    assert REUSE[..|REUSE|] == REUSE;
    var fs, es := After(7), ReusedEntries();
    RootOk(fs, es);
    RootUsed(fs, es);
    NamesDiffer();
    FindFiles(fs.inodes);
    FindAppend(fs.inodes, FileEntries(), Entry(Pad(D), 1), Pad(D));
    RootLookup(fs, es, Pad(D));
    TopPath(fs, D);
    PathIs();
    ResolveThroughParent(fs, PATH_D_X);
    WalkLast(fs, 1, PATH_D_X);
    StaleEntryDiverts(fs);
    assert FirstUnused(fs.inodes) == 2;
    CreateThenResolve(fs, PATH_D_X, CREATE);
    OpenInodeKeepsFds(fs, PATH_D_X, CREATE);
  }
}
