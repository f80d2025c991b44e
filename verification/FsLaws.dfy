/**
 What a program sees of the file system: where lseek settles and what is read from there, what can be opened, what a
 directory lists, and which names are told apart.
 */
module FsLaws {
  import opened CStrings
  import opened FsModel
  import opened FsFacts
  import opened FsPaths
  import opened FsRuns
  import FileSystem

  // --- names --------------------------------------------------------------------------------------------------------

  function Short(s: Str): Str { if |s| <= 28 then s else s[..28] }

  lemma PadOfShort(s: Str)
    ensures Pad(Short(s)) == Pad(s)
  {
  }

  lemma PadShows(s: Str, t: Str)
    requires Pad(s) == Pad(t)
    ensures |Short(s)| <= |Short(t)| && forall k :: 0 <= k < |Short(s)| ==> Short(s)[k] == Short(t)[k]
  {
    assert forall k :: 0 <= k < |Short(s)| ==> Pad(s)[k] == Short(s)[k] != 0;
    assert forall k :: 0 <= k < |Short(t)| ==> Pad(t)[k] == Short(t)[k];
    assert |Short(t)| < 28 ==> Pad(t)[|Short(t)|] == 0;
  }

  /** Two names are the same to the file system if and only if their first 28 bytes are. */
  lemma NamesByFirst28(s: Str, t: Str)
    ensures Pad(s) == Pad(t) <==> Short(s) == Short(t)
  {
    PadOfShort(s);
    PadOfShort(t);
    if Pad(s) == Pad(t) {
      PadShows(s, t);
      PadShows(t, s);
    }
  }

  lemma {:induction false} CutStops(n: seq<Byte>, s: Str)
    requires |s| <= |n| && n[..|s|] == s && (|s| < |n| ==> n[|s|] == 0)
    ensures FileSystem.Cut(n) == s
    decreases |s|
  {
    if s != [] {
      var rest: Str := s[1..];
      assert n[1..][..|rest|] == rest && n[0] == s[0] && (|rest| < |n[1..]| ==> n[1..][|rest|] == n[|s|]);
      CutStops(n[1..], rest);
      assert s == [s[0]] + rest;
    }
  }

  /** readdir gives back the name under which an entry was made, its first 28 bytes. */
  lemma CutOfPad(s: Str)
    ensures FileSystem.Cut(Pad(s)) == Short(s)
  {
    assert Pad(s)[..|Short(s)|] == Short(s);
    CutStops(Pad(s), Short(s));
  }

  // --- lseek --------------------------------------------------------------------------------------------------------

  /** The byte that lseek is asked for, counted from the start, from the descriptor or from the end of the file. */
  function Asked(fs: Fs, fd: nat, delta: int, whence: int): int
    requires Walkable(fs) && fd < MAX_FD && 0 <= fs.fds[fd].inode < MAX_INODES
  {
    delta + (if whence == 0 then 0 else if whence == 1 then fs.fds[fd].offset else |Contents(fs, fs.fds[fd].inode)|)
  }

  lemma LengthIsSize(fs: Fs, i: nat)
    requires FsOk(fs) && Walkable(fs) && i < MAX_INODES && fs.inodes[i].kind.File?
    ensures |Contents(fs, i)| == fs.inodes[i].size
  {
    assert InodeOk(fs, i);
  }

  /**
   After lseek to byte t of a file a read of n gives the bytes from t on; before the start it settles at the start, past
   the end at the end.  Nothing but this offset changes.
   */
  lemma SeekThenRead(fs: Fs, fd: nat, delta: int, whence: int, n: nat)
    requires FsOk(fs) && Walkable(fs) && InodeFd(fs, fd) && fs.inodes[fs.fds[fd].inode].kind.File? && 0 <= whence <= 2
    ensures var g, t := Effect(fs, SeekFd(fd, delta, whence)), Asked(fs, fd, delta, whence);
            var c := Contents(fs, fs.fds[fd].inode);
            && g == fs.(fds := fs.fds[fd := fs.fds[fd].(offset := g.fds[fd].offset)]) && Walkable(g)
            && (0 <= t <= |c| ==> g.fds[fd].offset == t)
            && (t < 0 ==> g.fds[fd].offset == 0)
            && (t > |c| ==> g.fds[fd].offset == |c|)
            && (0 <= t <= |c| && t + n <= |c| ==> Available(g, fd, n) == c[t..t + n])
            && (0 <= t <= |c| && t + n > |c| ==> Available(g, fd, n) == c[t..])
  {
    var i := fs.fds[fd].inode;
    LengthIsSize(fs, i);
    hide FsOk;
    var g := Effect(fs, SeekFd(fd, delta, whence));
    OkIsWalkable(g);
    assert Contents(g, i) == Contents(fs, i);
  }

  // --- opening and removing -----------------------------------------------------------------------------------------

  /** Is there a descriptor to give out? */
  predicate SomeFree(fs: Fs) { exists f :: 3 <= f < MAX_FD && !fs.fds[f].valid }

  /** f, the lowest free descriptor, now stands at the start of inode i, and the other descriptors are as they were. */
  ghost predicate OpenedAs(fs: Fs, g: Fs, f: int, i: nat, flags: nat) {
    && 3 <= f < MAX_FD && !fs.fds[f].valid && (forall k :: 3 <= k < f ==> fs.fds[k].valid)
    && g.fds == fs.fds[f := Fd(i, 0, flags, true)]
  }

  /** n was not in use and is an empty file with one descriptor on it. */
  ghost predicate NewFile(fs: Fs, g: Fs, n: nat) {
    n < MAX_INODES && !fs.inodes[n].used && g.inodes[n] == Inode(File, 0, 0, true, 1)
  }

  lemma UsedKind(fs: Fs, i: nat)
    requires FsOk(fs) && i < MAX_INODES && fs.inodes[i].used
    ensures !fs.inodes[i].kind.FreeInode?
  {
    assert InodeOk(fs, i);
  }

  lemma OpenDirIs(fs: Fs, path: Str, flags: nat)
    requires Walkable(fs) && Resolve(fs, path) >= 0 && fs.inodes[Resolve(fs, path)].kind.Dir?
    ensures Open(fs, path, flags) == (fs, -1)
  {
    hide Resolve, Walkable;
  }

  lemma OpenFileIs(fs: Fs, path: Str, flags: nat)
    requires Walkable(fs) && Resolve(fs, path) >= 0
    requires fs.inodes[Resolve(fs, path)].kind.File? && fs.inodes[Resolve(fs, path)].used
    ensures var (g, f) := Open(fs, path, flags);
            var i := Resolve(fs, path);
            var cut := flags / 8 % 2 == 1 && (flags % 2 == 1 || flags / 2 % 2 == 1);
            && (f >= 0 <==> SomeFree(fs)) && (f >= 0 ==> OpenedAs(fs, g, f, i, flags)) && g.data == fs.data
            && (forall k :: 0 <= k < MAX_INODES && k != i ==> g.inodes[k] == fs.inodes[k])
            && g.inodes[i].kind.File? && g.inodes[i].offset == fs.inodes[i].offset
            && g.inodes[i].size == if cut then 0 else fs.inodes[i].size
  {
    hide Resolve, Walkable, DirAdd, WithInode;
  }

  /**
   Opening a path that leads somewhere: a directory is refused, a file is opened if a descriptor is free; its bytes go
   if it is truncated and stay otherwise, and all other inodes are left alone.
   */
  lemma OpenExisting(fs: Fs, path: Str, flags: nat)
    requires FsOk(fs) && Walkable(fs) && Resolve(fs, path) >= 0
    ensures var (g, f) := Open(fs, path, flags);
            var i := Resolve(fs, path);
            var cut := flags / 8 % 2 == 1 && (flags % 2 == 1 || flags / 2 % 2 == 1);
            && (fs.inodes[i].kind.Dir? ==> f == -1 && g == fs)
            && (f >= 0 <==> fs.inodes[i].kind.File? && SomeFree(fs))
            && (f >= 0 ==> OpenedAs(fs, g, f, i, flags))
            && (forall k :: 0 <= k < MAX_INODES && k != i ==> g.inodes[k] == fs.inodes[k])
            && Walkable(g) && (fs.inodes[i].kind.File? ==> Contents(g, i) == if cut then [] else Contents(fs, i))
  {
    ResolveIsUsed(fs, path);
    OpenKeepsOk(fs, path, flags);
    OkIsWalkable(Open(fs, path, flags).0);
    UsedKind(fs, Resolve(fs, path));
    hide FsOk, Resolve, Open;
    if fs.inodes[Resolve(fs, path)].kind.File? { OpenFileIs(fs, path, flags); } else { OpenDirIs(fs, path, flags); }
  }

  /** Opening a path that leads nowhere, without O_CREAT. */
  lemma OpenMissing(fs: Fs, path: Str, flags: nat)
    requires Walkable(fs) && Resolve(fs, path) < 0 && flags / 4 % 2 == 0
    ensures Open(fs, path, flags) == (fs, -1)
  {
    hide Resolve;
  }

  /**
   Opening a path that leads nowhere, with O_CREAT: it works if the parent path leads somewhere and an inode and a
   descriptor are free, and the descriptor then stands at the start of a new, empty file.
   */
  lemma OpenCreates(fs: Fs, path: Str, flags: nat)
    requires FsOk(fs) && Walkable(fs) && Resolve(fs, path) < 0 && flags / 4 % 2 == 1
    ensures var (g, f) := Open(fs, path, flags);
            && (f >= 0 <==> Resolve(fs, ParentPath(path)) >= 0 && SomeFree(fs)
                            && exists n :: 0 <= n < MAX_INODES && !fs.inodes[n].used)
            && (f >= 0 ==> exists n :: 0 <= n < MAX_INODES && NewFile(fs, g, n) && OpenedAs(fs, g, f, n, flags))
  {
    var parent, n := Resolve(fs, ParentPath(path)), FirstUnused(fs.inodes);
    ResolveIsUsed(fs, ParentPath(path));
    hide FsOk, Resolve, Walkable, Pad, Splice;
    if parent >= 0 && n >= 0 {
      var (g, f) := Open(fs, path, flags);
      var h := DirAdd(WithInode(fs, n, File), parent, Pad(BaseName(path)), n);
      assert h.fds == fs.fds && h.inodes[n] == Inode(File, 0, 0, true, 0);
      assert f >= 0 ==> NewFile(fs, g, n) && OpenedAs(fs, g, f, n, flags);
    }
  }

  /** fs_opendir opens directories, all of them and nothing else, while a descriptor is free. */
  lemma OpenDirOpensDirs(fs: Fs, path: Str)
    requires Walkable(fs)
    ensures var (g, f) := OpenDir(fs, path);
            var i := Resolve(fs, path);
            && (f >= 0 <==> i >= 0 && fs.inodes[i].kind.Dir? && SomeFree(fs))
            && (f >= 0 ==> OpenedAs(fs, g, f, i, 0) && g.inodes == fs.inodes[i := g.inodes[i]]
                           && g.inodes[i] == fs.inodes[i].(refs := fs.inodes[i].refs + 1))
            && (f < 0 ==> g == fs)
  {
    hide Resolve;
  }

  /** fs_unlink succeeds on closed files and on nothing else; then the path does not lead to that file any more. */
  lemma UnlinkedIsGone(fs: Fs, path: Str)
    requires FsOk(fs) && Walkable(fs)
    ensures var (g, r) := Unlink(fs, path);
            var i := Resolve(fs, path);
            && (r == 0 || r == -1)
            && (r == 0 <==> i >= 0 && fs.inodes[i].kind.File?
                            && forall f :: 0 <= f < MAX_FD ==> !(fs.fds[f].valid && fs.fds[f].inode == i))
            && (r == 0 ==> Walkable(g) && !g.inodes[i].used && Resolve(g, path) != i
                           && forall k :: 0 <= k < MAX_INODES && k != i ==> g.inodes[k] == fs.inodes[k])
            && (r == -1 ==> g == fs)
  {
    UnlinkKeepsOk(fs, path);
    var (g, r) := Unlink(fs, path);
    var i := Resolve(fs, path);
    OkIsWalkable(g);
    if i >= 0 {
      if forall f :: 0 <= f < MAX_FD ==> !Names(fs.fds[f], i) {
        CountZero(fs.fds, i);
      } else {
        var f :| 0 <= f < MAX_FD && Names(fs.fds[f], i);
        CountPositive(fs.fds, f, i);
      }
    }
    if r == 0 && Resolve(g, path) == i { ResolveIsUsed(g, path); }
  }

  // --- listing ------------------------------------------------------------------------------------------------------

  /** fd names a directory. */
  ghost predicate DirFd(fs: Fs, fd: nat) {
    FsOk(fs) && Walkable(fs) && InodeFd(fs, fd) && fs.inodes[fs.fds[fd].inode].kind.Dir?
  }

  lemma ReadDirMoves(fs: Fs, fd: nat)
    requires DirFd(fs, fd)
    ensures var e, g := NextLive(fs, fs.fds[fd].inode, fs.fds[fd].offset), Effect(fs, ReadDirectory(fd));
            && DirFd(g, fd)
            && g == if e < 0 then fs else fs.(fds := fs.fds[fd := fs.fds[fd].(offset := e + 1)])
  {
    hide FsOk, NextLive;
    OkIsWalkable(Effect(fs, ReadDirectory(fd)));
  }

  /** The entries that n calls of fs_readdir show, one after the other. */
  ghost function Listed(fs: Fs, fd: nat, n: nat): seq<nat>
    requires DirFd(fs, fd)
    decreases n
  {
    if n == 0 then []
    else
      var e := NextLive(fs, fs.fds[fd].inode, fs.fds[fd].offset);
      if e < 0 then []
      else
        ReadDirMoves(fs, fd);
        [e] + Listed(Effect(fs, ReadDirectory(fd)), fd, n - 1)
  }

  /** l shows live entries of directory d from o on, in their order and each once; `all` says that none is left out. */
  ghost predicate Lists(fs: Fs, d: nat, o: nat, l: seq<nat>, all: bool)
    requires d < MAX_INODES && Placed(fs.inodes[d])
  {
    && (forall k :: 0 <= k < |l| ==> o <= l[k] < Entries(fs, d) && EntryIsLive(fs, d, l[k]))
    && (forall k, m :: 0 <= k < m < |l| ==> l[k] < l[m])
    && (all ==> forall e :: o <= e < Entries(fs, d) && EntryIsLive(fs, d, e) ==> e in l)
  }

  lemma SameLive(fs: Fs, g: Fs, d: nat)
    requires d < MAX_INODES && Placed(fs.inodes[d]) && g.inodes == fs.inodes && g.data == fs.data
    ensures forall k :: 0 <= k < Entries(fs, d) ==> EntryIsLive(g, d, k) == EntryIsLive(fs, d, k)
  {
  }

  lemma ListsMore(fs: Fs, g: Fs, d: nat, o: nat, e: nat, rest: seq<nat>, all: bool)
    requires d < MAX_INODES && Placed(fs.inodes[d]) && g.inodes == fs.inodes && g.data == fs.data
    requires e == NextLive(fs, d, o) && Lists(g, d, e + 1, rest, all)
    ensures Lists(fs, d, o, [e] + rest, all)
  {
    hide EntryIsLive;
    SameLive(fs, g, d);
    var l := [e] + rest;
    assert forall k :: 1 <= k < |l| ==> l[k] == rest[k - 1];
    forall i | all && o <= i < Entries(fs, d) && EntryIsLive(fs, d, i)
      ensures i in l
    {
      if i > e { assert i in rest; }
    }
  }

  lemma NotAll(fs: Fs, d: nat, o: nat, l: seq<nat>, all: bool)
    requires d < MAX_INODES && Placed(fs.inodes[d]) && Lists(fs, d, o, l, all)
    ensures Lists(fs, d, o, l, false)
  {
  }

  /** Readdir shows live entries only, in their order, each once, and in the end all from the offset on. */
  lemma {:induction false} ReaddirListsAll(fs: Fs, fd: nat, n: nat)
    requires DirFd(fs, fd)
    ensures Lists(fs, fs.fds[fd].inode, fs.fds[fd].offset, Listed(fs, fd, n),
                  n + fs.fds[fd].offset >= Entries(fs, fs.fds[fd].inode))
    decreases n
  {
    hide FsOk, Effect, EntryIsLive;
    var d, o := fs.fds[fd].inode, fs.fds[fd].offset;
    if n > 0 {
      var e := NextLive(fs, d, o);
      ReadDirMoves(fs, fd);
      if e >= 0 {
        var g := Effect(fs, ReadDirectory(fd));
        ReaddirListsAll(g, fd, n - 1);
        hide Lists;
        ListsMore(fs, g, d, o, e, Listed(g, fd, n - 1), n - 1 + (e + 1) >= Entries(fs, d));
        if n + o >= Entries(fs, d) {
          assert n - 1 + (e + 1) >= Entries(fs, d);
        } else {
          NotAll(fs, d, o, Listed(fs, fd, n), n - 1 + (e + 1) >= Entries(fs, d));
        }
      }
    }
  }
}
