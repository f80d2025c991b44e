/**
 Runs of file-system calls: what every sequence of calls, successful or not, keeps.
 */
module FsRuns {
  import opened CStrings
  import opened FsModel
  import opened FsFacts
  import opened FsPaths

  // --- descriptor calls of any arguments -----------------------------------------------------------------------------

  /** fs_close */
  ghost function Close(fs: Fs, fd: int): (g: Fs)
    requires FsOk(fs)
    ensures FsOk(g) && g.fds == if ValidFd(fs, fd) then fs.fds[fd := fs.fds[fd].(valid := false)] else fs.fds
  {
    if ValidFd(fs, fd) then
      CloseKeepsOk(fs, fd);
      Closed(fs, fd)
    else fs
  }

  lemma DuplicatedFds(fs: Fs, oldfd: nat, newfd: nat)
    requires FsOk(fs) && ValidFd(fs, oldfd) && newfd < MAX_FD && oldfd != newfd
    requires fs.fds[oldfd].inode < MAX_INODES && fs.fds[newfd].inode < MAX_INODES
    ensures Duplicated(fs, oldfd, newfd).fds == fs.fds[newfd := fs.fds[oldfd]]
  {
    var g := if fs.fds[newfd].valid then Closed(fs, newfd) else fs;
    assert g.fds[oldfd] == fs.fds[oldfd];
    assert Duplicated(fs, oldfd, newfd).fds == g.fds[newfd := g.fds[oldfd].(valid := true)];
    assert fs.fds[oldfd].(valid := true) == fs.fds[oldfd];
    assert g.fds[newfd := fs.fds[oldfd]] == fs.fds[newfd := fs.fds[oldfd]];
  }

  /** fs_dup2 */
  ghost function Dup2(fs: Fs, oldfd: int, newfd: nat): (g: Fs)
    requires FsOk(fs) && newfd < MAX_FD
    ensures FsOk(g)
    ensures g.fds == if ValidFd(fs, oldfd) && oldfd != newfd then fs.fds[newfd := fs.fds[oldfd]] else fs.fds
  {
    if ValidFd(fs, oldfd) && oldfd != newfd then
      DupKeepsOk(fs, oldfd, newfd);
      DuplicatedFds(fs, oldfd, newfd);
      Duplicated(fs, oldfd, newfd)
    else fs
  }

  /** What fs_open does to the fd table: at most it fills a free descriptor from 3 up. */
  lemma OpenFds(fs: Fs, path: Str, flags: nat)
    requires FsOk(fs) && Walkable(fs)
    ensures var (g, f) := Open(fs, path, flags);
            && FsOk(g) && (f < 0 ==> g.fds == fs.fds)
            && (f >= 0 ==> f >= 3 && !fs.fds[f].valid && exists i :: g.fds == fs.fds[f := Fd(i, 0, flags, true)])
  {
    hide FsOk, Resolve, DirAdd;
    OpenKeepsOk(fs, path, flags);
    OpenInodeKeepsFds(fs, path, flags);
    var (h, i) := OpenInode(fs, path, flags);
    var (g, f) := Open(fs, path, flags);
    if f >= 0 { assert g.fds == fs.fds[f := Fd(i, 0, flags, true)]; }
  }

  // --- calls as values ---------------------------------------------------------------------------------------------

  datatype Call =
    | OpenFile(path: Str, flags: nat)
    | CloseFd(fd: int)
    | DupFd(oldfd: int, newfd: int)
    | ReadFd(fd: int, count: nat)
    | WriteFd(fd: int, buf: seq<Byte>)
    | SeekFd(fd: int, offset: int, whence: int)
    | MakeDir(path: Str)
    | Remove(path: Str)
    | OpenDirectory(path: Str)
    | ReadDirectory(fd: int)

  /** Does fd name an inode? */
  predicate InodeFd(fs: Fs, fd: int) { ValidFd(fs, fd) && 0 <= fs.fds[fd].inode < MAX_INODES }

  ghost function Effect(fs: Fs, call: Call): (g: Fs)
    requires FsOk(fs)
    ensures FsOk(g)
  {
    OkIsWalkable(fs);
    match call
    case OpenFile(path, flags) => OpenKeepsOk(fs, path, flags); Open(fs, path, flags).0
    case CloseFd(fd) => Close(fs, fd)
    case DupFd(oldfd, newfd) => if 0 <= newfd < MAX_FD then Dup2(fs, oldfd, newfd) else fs
    case ReadFd(fd, count) =>
      if InodeFd(fs, fd) && fs.inodes[fs.fds[fd].inode].kind.File? then
        SeekKeepsOk(fs, fd, fs.fds[fd].offset + |Available(fs, fd, count)|);
        Seeked(fs, fd, fs.fds[fd].offset + |Available(fs, fd, count)|)
      else fs
    case WriteFd(fd, buf) =>
      if InodeFd(fs, fd) && CanWrite(fs, fd, |buf|) then
        WriteKeepsOk(fs, fd, buf);
        Written(fs, fd, buf)
      else fs
    case SeekFd(fd, offset, whence) =>
      if InodeFd(fs, fd) && fs.inodes[fs.fds[fd].inode].kind.File? && 0 <= whence <= 2 then
        var size := fs.inodes[fs.fds[fd].inode].size;
        var base := if whence == 0 then 0 else if whence == 1 then fs.fds[fd].offset else size;
        SeekKeepsOk(fs, fd, SeekTarget(base, offset, size));
        Seeked(fs, fd, SeekTarget(base, offset, size))
      else fs
    case MakeDir(path) => MkdirKeepsOk(fs, path); Mkdir(fs, path).0
    case Remove(path) => UnlinkKeepsOk(fs, path); Unlink(fs, path).0
    case OpenDirectory(path) => OpenDirKeepsOk(fs, path); OpenDir(fs, path).0
    case ReadDirectory(fd) =>
      if InodeFd(fs, fd) && NextLive(fs, fs.fds[fd].inode, fs.fds[fd].offset) >= 0 then
        SeekKeepsOk(fs, fd, NextLive(fs, fs.fds[fd].inode, fs.fds[fd].offset) + 1);
        Seeked(fs, fd, NextLive(fs, fs.fds[fd].inode, fs.fds[fd].offset) + 1)
      else fs
  }

  ghost function Effects(fs: Fs, calls: seq<Call>): (g: Fs)
    requires FsOk(fs)
    ensures FsOk(g)
    decreases |calls|
  {
    if calls == [] then fs else Effects(Effect(fs, calls[0]), calls[1..])
  }

  lemma OpenDirFds(fs: Fs, path: Str)
    requires FsOk(fs) && Walkable(fs)
    ensures var (g, f) := OpenDir(fs, path);
            (f < 0 ==> g == fs) && (f >= 0 ==> f >= 3 && !fs.fds[f].valid)
            && (f >= 0 ==> exists i, flags :: g.fds == fs.fds[f := Fd(i, 0, flags, true)])
  {
    hide FsOk, Resolve;
    var (g, f) := OpenDir(fs, path);
    if f >= 0 { assert g.fds == fs.fds[f := Fd(Resolve(fs, path), 0, 0, true)]; }
  }

  lemma MkdirFds(fs: Fs, path: Str)
    requires FsOk(fs) && Walkable(fs)
    ensures Mkdir(fs, path).0.fds == fs.fds
  {
    hide FsOk, Resolve, DirLookup;
  }

  // --- what path resolution depends on -----------------------------------------------------------------------------

  /** The same inodes are in use, and the directories are where they were and hold what they held. */
  ghost predicate SameDirs(a: Fs, b: Fs) {
    && Walkable(a) && Walkable(b) && a.cwd == b.cwd
    && (forall i :: 0 <= i < MAX_INODES ==>
         a.inodes[i].used == b.inodes[i].used && a.inodes[i].kind == b.inodes[i].kind)
    && (forall i :: 0 <= i < MAX_INODES && a.inodes[i].kind.Dir? ==>
          && a.inodes[i].size == b.inodes[i].size && a.inodes[i].offset == b.inodes[i].offset
          && Contents(a, i) == Contents(b, i))
  }

  lemma SameDirsSameLookup(a: Fs, b: Fs, dir: nat, name: Name)
    requires SameDirs(a, b) && dir < MAX_INODES
    ensures DirLookup(a, dir, name) == DirLookup(b, dir, name)
  {
    if a.inodes[dir].kind.Dir? && a.inodes[dir].size > 0 {
      var at, size := a.inodes[dir].offset, a.inodes[dir].size;
      assert Placed(a.inodes[dir]);
      forall k | at <= k < at + size / ENTRY_SIZE * ENTRY_SIZE
        ensures a.data[k] == b.data[k]
      {
        assert a.data[at..at + size][k - at] == b.data[at..at + size][k - at];
      }
      LookupSameData(a.inodes, a.data, b.data, at, size / ENTRY_SIZE, 0, name);
      LookupSameUse(a.inodes, b.inodes, b.data, at, size / ENTRY_SIZE, 0, name);
    }
  }

  lemma {:induction false} SameDirsSameWalk(a: Fs, b: Fs, cur: nat, toks: seq<Str>)
    requires SameDirs(a, b) && cur < MAX_INODES
    ensures Walk(a, cur, toks) == Walk(b, cur, toks)
    decreases |toks|
  {
    hide DirLookup, Contents;
    if toks != [] && a.inodes[cur].kind.Dir? {
      if toks[0] == [DOT] {
        SameDirsSameWalk(a, b, cur, toks[1..]);
      } else {
        SameDirsSameLookup(a, b, cur, Pad(toks[0]));
        var next := DirLookup(a, cur, Pad(toks[0]));
        if next >= 0 { SameDirsSameWalk(a, b, next, toks[1..]); }
      }
    }
  }

  lemma SameDirsSameResolve(a: Fs, b: Fs, path: Str)
    requires SameDirs(a, b)
    ensures Resolve(a, path) == Resolve(b, path)
  {
    SameDirsSameWalk(a, b, Start(a, path), Tokens(Body(path), SLASH));
  }

  lemma WriteKeepsDirs(fs: Fs, fd: nat, buf: seq<Byte>)
    requires FsOk(fs) && Walkable(fs) && ValidFd(fs, fd) && 0 <= fs.fds[fd].inode < MAX_INODES
             && CanWrite(fs, fd, |buf|)
    ensures SameDirs(fs, Written(fs, fd, buf))
  {
    hide FsOk, Contents;
    var g := Written(fs, fd, buf);
    forall i | 0 <= i < MAX_INODES && fs.inodes[i].kind.Dir?
      ensures Contents(fs, i) == Contents(g, i)
    {
      WriteContents(fs, fd, buf, i);
    }
  }

  ghost predicate SameFiles(a: Fs, b: Fs) {
    && a.data == b.data && a.next == b.next && a.cwd == b.cwd
    && forall i :: 0 <= i < MAX_INODES ==> a.inodes[i].(refs := 0) == b.inodes[i].(refs := 0)
  }

  lemma SameFilesSameDirs(a: Fs, b: Fs)
    requires SameFiles(a, b) && Walkable(a) && Walkable(b)
    ensures SameDirs(a, b) && forall i :: 0 <= i < MAX_INODES ==> Contents(a, i) == Contents(b, i)
  {
    forall i | 0 <= i < MAX_INODES
      ensures a.inodes[i].used == b.inodes[i].used && a.inodes[i].kind == b.inodes[i].kind
      ensures a.inodes[i].size == b.inodes[i].size && a.inodes[i].offset == b.inodes[i].offset
    {
      assert a.inodes[i].(refs := 0) == b.inodes[i].(refs := 0);
    }
  }

  lemma ClosedFiles(fs: Fs, fd: int)
    requires FsOk(fs)
    ensures SameFiles(fs, Close(fs, fd))
  {
    hide FsOk;
  }

  lemma DuplicatedFiles(fs: Fs, oldfd: int, newfd: nat)
    requires FsOk(fs) && newfd < MAX_FD
    ensures SameFiles(fs, Dup2(fs, oldfd, newfd))
  {
    hide FsOk;
  }

  // --- one call -----------------------------------------------------------------------------------------------------

  /** Entries stay live as long as the directories and the inodes in use stay the same. */
  lemma SameDirsKeepLive(a: Fs, b: Fs)
    requires SameDirs(a, b) && NoStaleEntries(a)
    ensures NoStaleEntries(b)
  {
    hide EntryInode;
    forall d, e | 0 <= d < MAX_INODES && 0 <= e < Entries(b, d)
      ensures EntryIsLive(b, d, e)
    {
      assert EntryIsLive(a, d, e);
      var at, size := a.inodes[d].offset, a.inodes[d].size;
      forall k | at <= k < at + size
        ensures a.data[k] == b.data[k]
      {
        assert a.data[at..at + size][k - at] == b.data[at..at + size][k - at];
      }
      EntryKept(a.data, b.data, at + e * ENTRY_SIZE);
    }
  }

  /** Adding an entry leaves the contents of every other inode alone. */
  lemma AddKeepsContents(fs: Fs, dir: nat, name: Name, target: nat, i: nat)
    requires FsOk(fs) && Walkable(fs) && dir < MAX_INODES && target < MAX_INODES && fs.inodes[dir].used
    requires i < MAX_INODES && fs.inodes[i].kind.File?
    ensures Contents(DirAdd(fs, dir, name, target), i) == Contents(fs, i)
    ensures DirAdd(fs, dir, name, target).inodes[i] == fs.inodes[i]
  {
    if CanAdd(fs, dir) {
      var g := DirAdd(fs, dir, name, target);
      DirAddGrows(fs, dir, name, target);
      GrowthKeepsRegions(fs, g, dir);
      assert InodeOk(fs, i);
      if Owns(fs.inodes[i]) { assert Elsewhere(fs.inodes[i], g.inodes[dir]); }
    }
  }

  /** Does the call write, truncate or remove file i? */
  ghost predicate Touches(fs: Fs, call: Call, i: nat)
    requires FsOk(fs)
  {
    OkIsWalkable(fs);
    match call
    case OpenFile(path, flags) => Resolve(fs, path) == i && Has(flags, O_TRUNC)
    case WriteFd(fd, _) => ValidFd(fs, fd) && fs.fds[fd].inode == i
    case Remove(path) => Resolve(fs, path) == i
    case _ => false
  }

  ghost predicate FileKept(a: Fs, b: Fs, i: nat)
    requires i < MAX_INODES && FsOk(a) && FsOk(b)
  {
    OkIsWalkable(a);
    OkIsWalkable(b);
    b.inodes[i].used && b.inodes[i].kind.File? && b.inodes[i].size == a.inodes[i].size
        && Contents(b, i) == Contents(a, i)
  }

  lemma SameFilesKeepFile(a: Fs, b: Fs, i: nat)
    requires SameFiles(a, b) && FsOk(a) && FsOk(b) && i < MAX_INODES && a.inodes[i].used && a.inodes[i].kind.File?
    ensures FileKept(a, b, i)
  {
    OkIsWalkable(a);
    OkIsWalkable(b);
    SameFilesSameDirs(a, b);
    assert a.inodes[i].(refs := 0) == b.inodes[i].(refs := 0);
  }

  /** A call that moves no data: files and directories stay. */
  lemma QuietCall(fs: Fs, call: Call)
    requires FsOk(fs) && !call.OpenFile? && !call.WriteFd? && !call.MakeDir? && !call.Remove?
    ensures SameFiles(fs, Effect(fs, call))
  {
    hide FsOk, Close, Dup2, Available, SeekTarget, NextLive, Resolve;
    OkIsWalkable(fs);
    match call
    case CloseFd(fd) => ClosedFiles(fs, fd);
    case DupFd(oldfd, newfd) => if 0 <= newfd < MAX_FD { DuplicatedFiles(fs, oldfd, newfd); }
    case _ =>
  }

  // --- no stale entries without unlink ------------------------------------------------------------------------------

  lemma CreateKeepsLive(fs: Fs, parent: nat, name: Name, n: nat)
    requires FsOk(fs) && Walkable(fs) && NoStaleEntries(fs) && parent < MAX_INODES && fs.inodes[parent].used
    requires n < MAX_INODES && !fs.inodes[n].used
    ensures NoStaleEntries(DirAdd(WithInode(fs, n, File), parent, name, n))
  {
    hide FsOk, NoStaleEntries, DirAdd, Walkable;
    AllocKeepsEntriesLive(fs, n, File);
    AllocKeepsOk(fs, n, File);
    AddKeepsEntriesLive(WithInode(fs, n, File), parent, name, n);
  }

  lemma TruncateKeepsLive(fs: Fs, n: nat)
    requires FsOk(fs) && Walkable(fs) && NoStaleEntries(fs) && n < MAX_INODES && fs.inodes[n].kind.File?
    ensures var h := fs.(inodes := fs.inodes[n := fs.inodes[n].(size := 0)]); Walkable(h) && NoStaleEntries(h)
  {
    hide FsOk, NoStaleEntries;
    var h := fs.(inodes := fs.inodes[n := fs.inodes[n].(size := 0)]);
    TruncationIsSameDirs(fs, n);
    SameDirsKeepLive(fs, h);
  }

  lemma OpenInodeKeepsLive(fs: Fs, path: Str, flags: nat)
    requires FsOk(fs) && Walkable(fs) && NoStaleEntries(fs)
    ensures var h := OpenInode(fs, path, flags).0; Walkable(h) && NoStaleEntries(h)
  {
    ResolveIsUsed(fs, ParentPath(path));
    hide FsOk, Resolve, NoStaleEntries, DirAdd, WithInode, Walkable;
    var i := Resolve(fs, path);
    if i >= 0 && fs.inodes[i].kind.File? { TruncateKeepsLive(fs, i); }
    if i < 0 && OpenInode(fs, path, flags).1 >= 0 {
      CreateKeepsLive(fs, Resolve(fs, ParentPath(path)), Pad(BaseName(path)), OpenInode(fs, path, flags).1);
    }
  }

  lemma OpenKeepsLive(fs: Fs, path: Str, flags: nat)
    requires FsOk(fs) && Walkable(fs) && NoStaleEntries(fs)
    ensures var g := Open(fs, path, flags).0; Walkable(g) && NoStaleEntries(g)
  {
    OpenKeepsOk(fs, path, flags);
    OpenInodeKeepsLive(fs, path, flags);
    hide FsOk, NoStaleEntries, OpenInode;
    var h := OpenInode(fs, path, flags).0;
    var g := Open(fs, path, flags).0;
    OkIsWalkable(g);
    assert SameFiles(h, g);
    SameFilesSameDirs(h, g);
    SameDirsKeepLive(h, g);
  }

  lemma AddStep(fs: Fs, dir: nat, name: Name, target: nat)
    requires FsOk(fs) && Walkable(fs) && NoStaleEntries(fs) && dir < MAX_INODES && target < MAX_INODES
    requires fs.inodes[dir].used && fs.inodes[target].used
    ensures var g := DirAdd(fs, dir, name, target);
            FsOk(g) && Walkable(g) && NoStaleEntries(g) && forall i :: 0 <= i < MAX_INODES ==>
                g.inodes[i].used == fs.inodes[i].used
  {
    AddKeepsEntriesLive(fs, dir, name, target);
    DirAddKeepsOk(fs, dir, name, target);
  }

  lemma MadeDirIsLive(fs: Fs, parent: nat, n: nat, name: Name)
    requires FsOk(fs) && Walkable(fs) && NoStaleEntries(fs) && parent < MAX_INODES && fs.inodes[parent].used
    requires n < MAX_INODES && !fs.inodes[n].used
    ensures NoStaleEntries(MadeDir(fs, parent, n, name))
  {
    hide FsOk, NoStaleEntries, DirAdd, Pad, Walkable;
    var a := WithInode(fs, n, Dir);
    AllocKeepsEntriesLive(fs, n, Dir);
    AllocKeepsOk(fs, n, Dir);
    AddStep(a, n, Pad([DOT]), n);
    var b := DirAdd(a, n, Pad([DOT]), n);
    AddStep(b, n, Pad([DOT, DOT]), parent);
    var c := DirAdd(b, n, Pad([DOT, DOT]), parent);
    AddStep(c, parent, name, n);
  }

  lemma MkdirKeepsLive(fs: Fs, path: Str)
    requires FsOk(fs) && Walkable(fs) && NoStaleEntries(fs)
    ensures var g := Mkdir(fs, path).0; Walkable(g) && NoStaleEntries(g)
  {
    ResolveIsUsed(fs, ParentPath(path));
    hide FsOk, Resolve, NoStaleEntries, DirLookup, Pad, MadeDir;
    var parent, n := Resolve(fs, ParentPath(path)), FirstUnused(fs.inodes);
    if Mkdir(fs, path).1 == 0 {
      MadeDirIsLive(fs, parent, n, Pad(BaseName(path)));
    }
  }

  /** Of all calls only fs_unlink makes entries stale. */
  lemma CallKeepsLive(fs: Fs, call: Call)
    requires FsOk(fs) && Walkable(fs) && NoStaleEntries(fs) && !call.Remove?
    ensures Walkable(Effect(fs, call)) && NoStaleEntries(Effect(fs, call))
  {
    hide FsOk, Open, Mkdir, NoStaleEntries, SameFiles, Written, SameDirs;
    var g := Effect(fs, call);
    OkIsWalkable(g);
    match call
    case OpenFile(path, flags) => OpenKeepsLive(fs, path, flags);
    case MakeDir(path) => MkdirKeepsLive(fs, path);
    case WriteFd(fd, buf) =>
      if InodeFd(fs, fd) && CanWrite(fs, fd, |buf|) { WriteKeepsEntriesLive(fs, fd, buf); }
    case _ =>
      QuietCall(fs, call);
      SameFilesSameDirs(fs, g);
      SameDirsKeepLive(fs, g);
  }

  ghost predicate NoRemove(calls: seq<Call>) { forall k :: 0 <= k < |calls| ==> !calls[k].Remove? }

  lemma {:induction false} RunKeepsLive(fs: Fs, calls: seq<Call>)
    requires FsOk(fs) && Walkable(fs) && NoStaleEntries(fs) && NoRemove(calls)
    ensures Walkable(Effects(fs, calls)) && NoStaleEntries(Effects(fs, calls))
    decreases |calls|
  {
    hide FsOk, NoStaleEntries, Effect, Walkable;
    if calls != [] {
      assert !calls[0].Remove?;
      assert forall k :: 0 <= k < |calls| - 1 ==> calls[1..][k] == calls[k + 1];
      CallKeepsLive(fs, calls[0]);
      RunKeepsLive(Effect(fs, calls[0]), calls[1..]);
    }
  }

  /**
   Create, then resolve, over runs: after any calls without fs_unlink, from a state without stale entries (such as the
   one fs_init leaves), a path that is created leads to its file exactly when its parent is a directory with room.
   */
  lemma CreatedPathsResolve(fs: Fs, calls: seq<Call>, path: Str, flags: nat)
    requires FsOk(fs) && Walkable(fs) && NoStaleEntries(fs) && NoRemove(calls) && |path| <= 255 && Has(flags, O_CREAT)
    requires var g := Effects(fs, calls);
             Walkable(g) && Resolve(g, path) < 0 && Resolve(g, ParentPath(path)) >= 0 && FirstUnused(g.inodes) >= 0
    ensures var g := Effects(fs, calls);
            var p, (h, i) := Resolve(g, ParentPath(path)), OpenInode(g, path, flags);
            Walkable(h) && (Resolve(h, path) == i <==> g.inodes[p].kind.Dir? && CanAdd(g, p))
  {
    hide FsOk, Resolve, Effects, CanAdd, OpenInode, NoStaleEntries;
    RunKeepsLive(fs, calls);
    CreatedPathResolves(Effects(fs, calls), path, flags);
  }

  // --- paths that lead somewhere ------------------------------------------------------------------------------------

  lemma CreatedCwd(fs: Fs, parent: nat, name: Str, n: nat)
    requires Walkable(fs) && parent < MAX_INODES && n < MAX_INODES
    ensures Created(fs, parent, name, n).cwd == fs.cwd
    ensures Created(fs, parent, name, n) == DirAdd(WithInode(fs, n, File), parent, Pad(name), n)
  {
    hide Pad;
  }

  /** A new file moves no path that leads somewhere already. */
  lemma CreateKeepsResolve(fs: Fs, parent: nat, name: Str, n: nat, path: Str)
    requires FsOk(fs) && Walkable(fs) && NoStaleEntries(fs) && parent < MAX_INODES && fs.inodes[parent].used
    requires n < MAX_INODES && !fs.inodes[n].used && Resolve(fs, path) >= 0
    ensures var h := Created(fs, parent, name, n); Walkable(h) && Resolve(h, path) == Resolve(fs, path)
  {
    hide FsOk, NoStaleEntries, Created, DivertsWalk, Revised;
    var start, toks := Start(fs, path), Tokens(Body(path), SLASH);
    StartIsUsed(fs, path);
    CreatedIsRevised(fs, parent, name, n);
    NoStaleNoDiversion(fs, start, toks, n);
    UndivertedWalk(fs, Created(fs, parent, name, n), n, start, toks);
    CreatedCwd(fs, parent, name, n);
  }

  /** Nor does a new directory. */
  lemma MadeDirKeepsResolve(fs: Fs, parent: nat, n: nat, name: Name, path: Str)
    requires FsOk(fs) && Walkable(fs) && NoStaleEntries(fs) && parent < MAX_INODES && fs.inodes[parent].used
    requires n < MAX_INODES && !fs.inodes[n].used && Resolve(fs, path) >= 0
    ensures Resolve(MadeDir(fs, parent, n, name), path) == Resolve(fs, path)
  {
    hide FsOk, NoStaleEntries, MadeDir, DivertsWalk, Diverts, DirLookup, SameName, RoomInParent;
    var h := MadeDir(fs, parent, n, name);
    var start, toks := Start(fs, path), Tokens(Body(path), SLASH);
    StartIsUsed(fs, path);
    KindsAfterMkdir(fs, parent, n, name);
    forall d: nat, m: Name | d < MAX_INODES && d != n
      ensures RevisedAt(fs, h, n, d, m)
    {
      LookupAfterMkdir(fs, parent, n, name, d, m);
    }
    NoStaleNoDiversion(fs, start, toks, n);
    UndivertedWalk(fs, h, n, start, toks);
  }

  lemma TruncationIsSameDirs(fs: Fs, i: nat)
    requires Walkable(fs) && i < MAX_INODES && fs.inodes[i].kind.File?
    ensures SameDirs(fs, fs.(inodes := fs.inodes[i := fs.inodes[i].(size := 0)]))
  {
  }

  lemma OpenInodeKeepsResolve(fs: Fs, file: Str, flags: nat, path: Str)
    requires FsOk(fs) && Walkable(fs) && NoStaleEntries(fs) && Resolve(fs, path) >= 0
    ensures var h := OpenInode(fs, file, flags).0; Walkable(h) && Resolve(h, path) == Resolve(fs, path)
  {
    ResolveIsUsed(fs, ParentPath(file));
    OpenInodeKeepsOk(fs, file, flags);
    hide FsOk, Resolve, NoStaleEntries, DirAdd, WithInode, SameDirs, Created;
    var (h, n) := OpenInode(fs, file, flags);
    OkIsWalkable(h);
    var i := Resolve(fs, file);
    if i >= 0 && fs.inodes[i].kind.File? {
      TruncationIsSameDirs(fs, i);
      SameDirsSameResolve(fs, fs.(inodes := fs.inodes[i := fs.inodes[i].(size := 0)]), path);
    }
    if i < 0 && n >= 0 {
      CreateKeepsResolve(fs, Resolve(fs, ParentPath(file)), BaseName(file), n, path);
      CreatedCwd(fs, Resolve(fs, ParentPath(file)), BaseName(file), n);
    }
  }

  lemma OpenKeepsResolve(fs: Fs, file: Str, flags: nat, path: Str)
    requires FsOk(fs) && Walkable(fs) && NoStaleEntries(fs) && Resolve(fs, path) >= 0
    ensures var g := Open(fs, file, flags).0; Walkable(g) && Resolve(g, path) == Resolve(fs, path)
  {
    OpenKeepsOk(fs, file, flags);
    OpenInodeKeepsResolve(fs, file, flags, path);
    hide FsOk, Resolve, NoStaleEntries, OpenInode;
    var h, g := OpenInode(fs, file, flags).0, Open(fs, file, flags).0;
    OkIsWalkable(g);
    assert SameFiles(h, g);
    SameFilesSameDirs(h, g);
    SameDirsSameResolve(h, g, path);
  }

  lemma MkdirKeepsResolve(fs: Fs, dir: Str, path: Str)
    requires FsOk(fs) && Walkable(fs) && NoStaleEntries(fs) && Resolve(fs, path) >= 0
    ensures var g := Mkdir(fs, dir).0; Walkable(g) && Resolve(g, path) == Resolve(fs, path)
  {
    MkdirKeepsOk(fs, dir);
    ResolveIsUsed(fs, ParentPath(dir));
    hide FsOk, Resolve, NoStaleEntries, MadeDir, DirLookup;
    OkIsWalkable(Mkdir(fs, dir).0);
    if Mkdir(fs, dir).1 == 0 {
      MadeDirKeepsResolve(fs, Resolve(fs, ParentPath(dir)), FirstUnused(fs.inodes), Pad(BaseName(dir)), path);
    }
  }

  /** Without fs_unlink and without stale entries a path that leads somewhere keeps leading there. */
  lemma CallKeepsResolve(fs: Fs, call: Call, path: Str)
    requires FsOk(fs) && Walkable(fs) && NoStaleEntries(fs) && !call.Remove? && Resolve(fs, path) >= 0
    ensures Walkable(Effect(fs, call)) && Resolve(Effect(fs, call), path) == Resolve(fs, path)
  {
    hide FsOk, Open, Mkdir, NoStaleEntries, SameFiles, Written, SameDirs, Resolve;
    var g := Effect(fs, call);
    OkIsWalkable(g);
    match call
    case OpenFile(file, flags) => OpenKeepsResolve(fs, file, flags, path);
    case MakeDir(dir) => MkdirKeepsResolve(fs, dir, path);
    case WriteFd(fd, buf) =>
      if InodeFd(fs, fd) && CanWrite(fs, fd, |buf|) {
        WriteKeepsDirs(fs, fd, buf);
        SameDirsSameResolve(fs, g, path);
      }
    case _ =>
      QuietCall(fs, call);
      SameFilesSameDirs(fs, g);
      SameDirsSameResolve(fs, g, path);
  }

  lemma {:induction false} RunKeepsResolve(fs: Fs, calls: seq<Call>, path: Str)
    requires FsOk(fs) && Walkable(fs) && NoStaleEntries(fs) && NoRemove(calls) && Resolve(fs, path) >= 0
    ensures Walkable(Effects(fs, calls)) && Resolve(Effects(fs, calls), path) == Resolve(fs, path)
    decreases |calls|
  {
    hide FsOk, NoStaleEntries, Effect, Walkable, Resolve;
    if calls != [] {
      assert !calls[0].Remove?;
      assert forall k :: 0 <= k < |calls| - 1 ==> calls[1..][k] == calls[k + 1];
      CallKeepsLive(fs, calls[0]);
      CallKeepsResolve(fs, calls[0], path);
      RunKeepsResolve(Effect(fs, calls[0]), calls[1..], path);
    }
  }

  /** Without stale entries a created path leads to its file exactly when its parent is a directory with room. */
  lemma CreatedPathResolves(fs: Fs, path: Str, flags: nat)
    requires FsOk(fs) && Walkable(fs) && NoStaleEntries(fs) && |path| <= 255 && Has(flags, O_CREAT)
    requires Resolve(fs, path) < 0 && Resolve(fs, ParentPath(path)) >= 0 && FirstUnused(fs.inodes) >= 0
    ensures var p, (h, i) := Resolve(fs, ParentPath(path)), OpenInode(fs, path, flags);
            Walkable(h) && i >= 0 && (Resolve(h, path) == i <==> fs.inodes[p].kind.Dir? && CanAdd(fs, p))
  {
    hide FsOk, Resolve, CanAdd, OpenInode;
    var n := FirstUnused(fs.inodes);
    CreateThenResolve(fs, path, flags);
    StartIsUsed(fs, ParentPath(path));
    NoStaleNoDiversion(fs, Start(fs, ParentPath(path)), Tokens(Body(ParentPath(path)), SLASH), n);
    var p := Resolve(fs, ParentPath(path));
    forall e | 0 <= e < Entries(fs, p)
      ensures !NamesAt(fs, p, e, Pad(BaseName(path)), n)
    {
      assert EntryIsLive(fs, p, e);
    }
  }

  // --- who changes a file -------------------------------------------------------------------------------------------

  lemma AllocKeepsContents(fs: Fs, n: nat, kind: Kind, i: nat)
    requires Walkable(fs) && n < MAX_INODES && i < MAX_INODES && i != n
    ensures Contents(WithInode(fs, n, kind), i) == Contents(fs, i) && WithInode(fs, n, kind).inodes[i] == fs.inodes[i]
  {
  }

  lemma CreateKeepsFile(fs: Fs, parent: nat, name: Name, n: nat, i: nat)
    requires FsOk(fs) && Walkable(fs) && i < MAX_INODES && fs.inodes[i].used && fs.inodes[i].kind.File?
    requires parent < MAX_INODES && n < MAX_INODES && fs.inodes[parent].used && !fs.inodes[n].used
    ensures var h := DirAdd(WithInode(fs, n, File), parent, name, n);
            FsOk(h) && FileKept(fs, h, i)
  {
    hide FsOk, DirAdd, Contents;
    var a := WithInode(fs, n, File);
    AllocKeepsOk(fs, n, File);
    AllocKeepsContents(fs, n, File, i);
    AddKeepsContents(a, parent, name, n, i);
    DirAddKeepsOk(a, parent, name, n);
  }

  lemma NothingKeepsFile(fs: Fs, i: nat)
    requires FsOk(fs) && i < MAX_INODES && fs.inodes[i].used && fs.inodes[i].kind.File?
    ensures FileKept(fs, fs, i)
  {
  }

  lemma TruncateKeepsFile(fs: Fs, n: nat, i: nat)
    requires FsOk(fs) && n < MAX_INODES && fs.inodes[n].used && i != n
    requires i < MAX_INODES && fs.inodes[i].used && fs.inodes[i].kind.File?
    ensures var h := fs.(inodes := fs.inodes[n := fs.inodes[n].(size := 0)]);
            FsOk(h) && FileKept(fs, h, i)
  {
    TruncateKeepsOk(fs, n);
    hide FsOk;
  }

  lemma OpenInodeKeepsFile(fs: Fs, path: Str, flags: nat, i: nat)
    requires FsOk(fs) && Walkable(fs) && i < MAX_INODES && fs.inodes[i].used && fs.inodes[i].kind.File?
    requires !(Resolve(fs, path) == i && Has(flags, O_TRUNC))
    ensures FsOk(OpenInode(fs, path, flags).0) && FileKept(fs, OpenInode(fs, path, flags).0, i)
  {
    OpenInodeKeepsOk(fs, path, flags);
    ResolveIsUsed(fs, path);
    ResolveIsUsed(fs, ParentPath(path));
    hide FsOk, Resolve, DirAdd, WithInode, FileKept, Contents;
    NothingKeepsFile(fs, i);
    if Resolve(fs, path) >= 0 && Resolve(fs, path) != i {
      TruncateKeepsFile(fs, Resolve(fs, path), i);
    }
    if Resolve(fs, path) < 0 && OpenInode(fs, path, flags).1 >= 0 {
      CreateKeepsFile(fs, Resolve(fs, ParentPath(path)), Pad(BaseName(path)), OpenInode(fs, path, flags).1, i);
    }
  }

  lemma OpenKeepsFile(fs: Fs, path: Str, flags: nat, i: nat)
    requires FsOk(fs) && Walkable(fs) && i < MAX_INODES && fs.inodes[i].used && fs.inodes[i].kind.File?
    requires !(Resolve(fs, path) == i && Has(flags, O_TRUNC))
    ensures FsOk(Open(fs, path, flags).0) && FileKept(fs, Open(fs, path, flags).0, i)
  {
    OpenKeepsOk(fs, path, flags);
    OpenInodeKeepsFile(fs, path, flags, i);
    hide FsOk, Resolve, OpenInode;
    var h := OpenInode(fs, path, flags).0;
    SameFilesKeepFile(h, Open(fs, path, flags).0, i);
  }

  lemma AddKeepsUse(fs: Fs, dir: nat, name: Name, target: nat)
    requires dir < MAX_INODES && target < MAX_INODES && Walkable(fs)
    ensures forall k :: 0 <= k < MAX_INODES ==> DirAdd(fs, dir, name, target).inodes[k].used == fs.inodes[k].used
  {
  }

  lemma MkdirKeepsFile(fs: Fs, path: Str, i: nat)
    requires FsOk(fs) && Walkable(fs) && i < MAX_INODES && fs.inodes[i].used && fs.inodes[i].kind.File?
    ensures FsOk(Mkdir(fs, path).0) && FileKept(fs, Mkdir(fs, path).0, i)
  {
    MkdirKeepsOk(fs, path);
    ResolveIsUsed(fs, ParentPath(path));
    hide FsOk, Resolve, DirAdd, DirLookup, Pad, Contents;
    OkIsWalkable(Mkdir(fs, path).0);
    var parent, n := Resolve(fs, ParentPath(path)), FirstUnused(fs.inodes);
    if Mkdir(fs, path).1 == 0 {
      var a := WithInode(fs, n, Dir);
      AllocKeepsOk(fs, n, Dir);
      AllocKeepsContents(fs, n, Dir, i);
      var b := DirAdd(a, n, Pad([DOT]), n);
      DirAddKeepsOk(a, n, Pad([DOT]), n);
      AddKeepsContents(a, n, Pad([DOT]), n, i);
      AddKeepsUse(a, n, Pad([DOT]), n);
      var c := DirAdd(b, n, Pad([DOT, DOT]), parent);
      DirAddKeepsOk(b, n, Pad([DOT, DOT]), parent);
      AddKeepsContents(b, n, Pad([DOT, DOT]), parent, i);
      AddKeepsUse(b, n, Pad([DOT, DOT]), parent);
      AddKeepsContents(c, parent, Pad(BaseName(path)), n, i);
    }
  }

  lemma WriteKeepsFile(fs: Fs, fd: nat, buf: seq<Byte>, i: nat)
    requires FsOk(fs) && Walkable(fs) && InodeFd(fs, fd) && CanWrite(fs, fd, |buf|) && fs.fds[fd].inode != i
    requires i < MAX_INODES && fs.inodes[i].used && fs.inodes[i].kind.File?
    ensures FsOk(Written(fs, fd, buf)) && FileKept(fs, Written(fs, fd, buf), i)
  {
    hide FsOk, Contents;
    WriteKeepsOk(fs, fd, buf);
    WriteContents(fs, fd, buf, i);
  }

  lemma RemoveKeepsFile(fs: Fs, path: Str, i: nat)
    requires FsOk(fs) && Walkable(fs) && i < MAX_INODES && fs.inodes[i].used && fs.inodes[i].kind.File?
             && Resolve(fs, path) != i
    ensures FsOk(Unlink(fs, path).0) && FileKept(fs, Unlink(fs, path).0, i)
  {
    UnlinkKeepsOk(fs, path);
    hide FsOk, Resolve;
  }

  /** A call that does not write, truncate or remove a file leaves its contents alone. */
  lemma CallKeepsFile(fs: Fs, call: Call, i: nat)
    requires FsOk(fs) && i < MAX_INODES && fs.inodes[i].used && fs.inodes[i].kind.File? && !Touches(fs, call, i)
    ensures FileKept(fs, Effect(fs, call), i)
  {
    hide FsOk, Open, Mkdir, Unlink, Written, SameFiles, Contents, Resolve;
    OkIsWalkable(fs);
    match call
    case OpenFile(path, flags) => OpenKeepsFile(fs, path, flags, i);
    case MakeDir(path) => MkdirKeepsFile(fs, path, i);
    case Remove(path) => RemoveKeepsFile(fs, path, i);
    case WriteFd(fd, buf) => if InodeFd(fs, fd) && CanWrite(fs, fd, |buf|) { WriteKeepsFile(fs, fd, buf, i); }
    case _ =>
      QuietCall(fs, call);
      SameFilesKeepFile(fs, Effect(fs, call), i);
  }

  ghost predicate NeverTouched(fs: Fs, calls: seq<Call>, i: nat)
    requires FsOk(fs)
    decreases |calls|
  {
    calls != [] ==> !Touches(fs, calls[0], i) && NeverTouched(Effect(fs, calls[0]), calls[1..], i)
  }

  /**
   Region separation over runs: whatever else happens, to other files, to directories, to descriptors, even to the same
   file's name in another directory, a file that no call writes, truncates or removes keeps its bytes.
   */
  lemma {:induction false} UntouchedFileKept(fs: Fs, calls: seq<Call>, i: nat)
    requires FsOk(fs) && i < MAX_INODES && fs.inodes[i].used && fs.inodes[i].kind.File? && NeverTouched(fs, calls, i)
    ensures FileKept(fs, Effects(fs, calls), i)
    decreases |calls|
  {
    hide FsOk, Effect, Contents, Touches;
    if calls != [] {
      CallKeepsFile(fs, calls[0], i);
      UntouchedFileKept(Effect(fs, calls[0]), calls[1..], i);
    }
  }
}
