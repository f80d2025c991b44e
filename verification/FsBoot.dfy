/**
 What fs_init leaves: the root directory with its two entries, and three descriptors of the terminal.
 */
module FsBoot {
  import opened CStrings
  import opened FsModel
  import opened FsFacts
  import opened FsPaths

  /** The zeroed tables. */
  function Blank(): Fs {
    Fs(seq(MAX_INODES, i => Inode(FreeInode, 0, 0, false, 0)), seq(DATA_BUF_SIZE, i => 0), 0,
        seq(MAX_FD, i => Fd(0, 0, 0, false)), 0)
  }

  function RootMade(): (fs: Fs)
    ensures Walkable(fs)
  {
    DirAdd(DirAdd(WithInode(Blank(), 0, Dir), 0, Pad([DOT]), 0), 0, Pad([DOT, DOT]), 0)
  }

  function FsInit(): (fs: Fs)
    ensures Walkable(fs)
  {
    var t := Fd(TERMINAL, 0, 0, true);
    RootMade().(fds := Blank().fds[0 := t][1 := t][2 := t])
  }

  /** The zeroed tables with the root inode allocated. */
  lemma BlankIsOk(fs: Fs)
    requires fs.next == 0 && fs.cwd == 0 && (forall k :: 0 <= k < DATA_BUF_SIZE ==> fs.data[k] == 0)
    requires fs.inodes[0] == Inode(Dir, 0, 0, true, 0)
    requires forall i :: 1 <= i < MAX_INODES ==> fs.inodes[i] == Inode(FreeInode, 0, 0, false, 0)
    requires forall f :: 0 <= f < MAX_FD ==> fs.fds[f] == Fd(0, 0, 0, false)
    ensures FsOk(fs) && Walkable(fs) && NoStaleEntries(fs)
  {
    forall i | 0 <= i < MAX_INODES
      ensures InodeOk(fs, i) && fs.inodes[i].refs == Count(fs.fds, i)
    {
      CountZero(fs.fds, i);
    }
  }

  /** The two entries fs_init gives the root. */
  lemma RootEntries(a: Fs)
    requires FsOk(a) && Walkable(a) && a.next == 0 && a.inodes[0] == Inode(Dir, 0, 0, true, 0) && NoStaleEntries(a)
    ensures var b := DirAdd(a, 0, Pad([DOT]), 0);
            var c := DirAdd(b, 0, Pad([DOT, DOT]), 0);
            && FsOk(c) && c.next == DIR_SIZE && (forall i :: 1 <= i < MAX_INODES ==> c.inodes[i] == a.inodes[i])
            && DirLookup(c, 0, Pad([DOT])) == 0 && DirLookup(c, 0, Pad([DOT, DOT])) == 0 && NoStaleEntries(c)
  {
    hide FsOk, DirLookup, Pad, EntryBytes, SameName, NoStaleEntries;
    var dot, up := Pad([DOT]), Pad([DOT, DOT]);
    EmptyDirLookup(a, 0, dot);
    EmptyDirLookup(a, 0, up);
    SameNameIffPadsEqual([DOT], [DOT]);
    SameNameIffPadsEqual([DOT, DOT], [DOT, DOT]);
    DirAddKeepsOk(a, 0, dot, 0);
    var b := DirAdd(a, 0, dot, 0);
    DirAddKeepsOk(b, 0, up, 0);
    AddKeepsEntriesLive(a, 0, dot, 0);
    AddKeepsEntriesLive(b, 0, up, 0);
    LookupAfterAdd(a, 0, dot, 0, 0, dot);
    LookupAfterAdd(a, 0, dot, 0, 0, up);
    LookupAfterAdd(b, 0, up, 0, 0, dot);
    LookupAfterAdd(b, 0, up, 0, 0, up);
  }

  lemma LiveWhateverFds(fs: Fs, fds: Fds)
    requires Walkable(fs) && NoStaleEntries(fs)
    ensures Walkable(fs.(fds := fds)) && NoStaleEntries(fs.(fds := fds))
  {
    var g := fs.(fds := fds);
    forall d, e | 0 <= d < MAX_INODES && 0 <= e < Entries(g, d)
      ensures EntryIsLive(g, d, e)
    {
      assert EntryIsLive(fs, d, e);
    }
  }

  lemma TerminalKeepsOk(fs: Fs, f: nat)
    requires FsOk(fs) && f < MAX_FD && !fs.fds[f].valid
    ensures FsOk(fs.(fds := fs.fds[f := Fd(TERMINAL, 0, 0, true)]))
  {
    hide Regions;
    var g := fs.(fds := fs.fds[f := Fd(TERMINAL, 0, 0, true)]);
    SameRegions(fs, g);
    forall k | 0 <= k < MAX_INODES
      ensures g.inodes[k].refs == Count(g.fds, k)
    {
      CountUpdate(fs.fds, f, Fd(TERMINAL, 0, 0, true), k);
    }
  }

  lemma InitIsOk()
    ensures FsOk(FsInit()) && NoStaleEntries(FsInit())
  {
    hide FsOk, NoStaleEntries, DirAdd;
    var a := WithInode(Blank(), 0, Dir);
    BlankIsOk(a);
    RootEntries(a);
    var r, t := RootMade(), Fd(TERMINAL, 0, 0, true);
    assert r.fds == Blank().fds by {
      AddKeepsFds(a, 0, Pad([DOT]), 0);
      AddKeepsFds(DirAdd(a, 0, Pad([DOT]), 0), 0, Pad([DOT, DOT]), 0);
    }
    TerminalKeepsOk(r, 0);
    TerminalKeepsOk(r.(fds := r.fds[0 := t]), 1);
    TerminalKeepsOk(r.(fds := r.fds[0 := t][1 := t]), 2);
    LiveWhateverFds(r, FsInit().fds);
  }
}
