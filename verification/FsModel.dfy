/**
 The RAM file system of fs.c as a value: an inode table, one data buffer handed out from the bottom up, and the fd
 table that all processes share.
 */
module FsModel {
  import opened CStrings

  const MAX_INODES: nat := 128
  const MAX_FILE_SIZE: nat := 0x1_0000
  const DATA_BUF_SIZE: nat := 0x80_0000
  const MAX_DIR_ENTRIES: nat := 16
  const ENTRY_SIZE: nat := 32
  const DIR_SIZE: nat := 512
  const MAX_FD: nat := 16
  const TERMINAL: int := -1

  const O_RDONLY: nat := 1
  const O_WRONLY: nat := 2
  const O_RDWR: nat := 3
  const O_CREAT: nat := 4
  const O_TRUNC: nat := 8

  datatype Kind = FreeInode | File | Dir

  datatype Inode = Inode(kind: Kind, size: nat, offset: nat, used: bool, refs: nat)

  datatype Fd = Fd(inode: int, offset: nat, flags: nat, valid: bool)

  type Data = d: seq<Byte> | |d| == DATA_BUF_SIZE witness seq(DATA_BUF_SIZE, i => 0)

  type Inodes = s: seq<Inode> | |s| == MAX_INODES witness seq(MAX_INODES, i => Inode(FreeInode, 0, 0, false, 0))

  type Fds = s: seq<Fd> | |s| == MAX_FD witness seq(MAX_FD, i => Fd(0, 0, 0, false))

  datatype Fs = Fs(inodes: Inodes, data: Data, next: nat, fds: Fds, cwd: nat)

  function Splice(d: Data, at: nat, b: seq<Byte>): (r: Data)
    requires at + |b| <= DATA_BUF_SIZE
    ensures forall k :: 0 <= k < DATA_BUF_SIZE ==> r[k] == if at <= k < at + |b| then b[k - at] else d[k]
  {
    d[..at] + b + d[at + |b|..]
  }

  // --- directory entries ---------------------------------------------------------------------------------------

  /** A little-endian 32-bit int. */
  function Int32(b: seq<Byte>): int
    requires |b| == 4
  {
    var b0: int, b1: int, b2: int, b3: int := b[0], b[1], b[2], b[3];
    var u: int := b0 + 0x100 * b1 + 0x1_0000 * b2 + 0x100_0000 * b3;
    if u < 0x8000_0000 then u else u - 0x1_0000_0000
  }

  function Int32Bytes(n: nat): (b: seq<Byte>)
    requires n < 0x8000_0000
    ensures |b| == 4 && Int32(b) == n
  {
    var n1, n2, n3 := n / 0x100, n / 0x1_0000, n / 0x100_0000;
    assert n1 == n2 * 0x100 + n1 % 0x100 && n2 == n3 * 0x100 + n2 % 0x100 && n3 < 0x80;
    var b0: Byte, b1: Byte, b2: Byte, b3: Byte := n % 0x100, n1 % 0x100, n2 % 0x100, n3;
    [b0, b1, b2, b3]
  }

  function EntryBytes(name: Name, inode: nat): (b: seq<Byte>)
    requires inode < MAX_INODES
    ensures |b| == ENTRY_SIZE && b[..MAX_FILENAME] == name && Int32(b[MAX_FILENAME..]) == inode
  {
    name + Int32Bytes(inode)
  }

  function EntryName(d: Data, at: nat): (n: Name)
    requires at + ENTRY_SIZE <= DATA_BUF_SIZE
  {
    d[at..at + MAX_FILENAME]
  }

  function EntryInode(d: Data, at: nat): int
    requires at + ENTRY_SIZE <= DATA_BUF_SIZE
  {
    Int32(d[at + MAX_FILENAME..at + ENTRY_SIZE])
  }

  // --- the invariant -------------------------------------------------------------------------------------------

  function Capacity(k: Kind): nat { if k.Dir? then DIR_SIZE else MAX_FILE_SIZE }

  /** The inode owns a region of the buffer. */
  predicate Owns(n: Inode) { n.used && n.size > 0 }

  ghost predicate ZeroBetween(d: Data, lo: nat, hi: nat) {
    forall k :: lo <= k < hi && k < DATA_BUF_SIZE ==> d[k] == 0
  }

  ghost predicate InodeOk(fs: Fs, i: nat)
    requires i < MAX_INODES
  {
    var n := fs.inodes[i];
    && (n.used <==> !n.kind.FreeInode?)
    && (Owns(n) ==> n.size <= Capacity(n.kind) && n.offset + Capacity(n.kind) <= fs.next)
    && (Owns(n) && n.kind.File? ==> ZeroBetween(fs.data, n.offset + n.size, n.offset + MAX_FILE_SIZE))
    && (Owns(n) && n.kind.Dir? ==> n.size % ENTRY_SIZE == 0)
  }

  ghost predicate Apart(a: Inode, b: Inode) {
    Owns(a) && Owns(b) ==> a.offset + Capacity(a.kind) <= b.offset || b.offset + Capacity(b.kind) <= a.offset
  }

  /**
   Regions of used inodes are disjoint and below next_free_offset; file bytes past the size and the unclaimed part are
   zero.
   */
  ghost predicate Regions(fs: Fs) {
    && fs.next <= DATA_BUF_SIZE
    && (forall i :: 0 <= i < MAX_INODES ==> InodeOk(fs, i))
    && (forall i, j :: 0 <= i < j < MAX_INODES ==> Apart(fs.inodes[i], fs.inodes[j]))
    && ZeroBetween(fs.data, fs.next, DATA_BUF_SIZE)
  }

  predicate Names(f: Fd, i: int) { f.valid && f.inode == i }

  /** The number of valid descriptors that name inode i. */
  function Count(fds: seq<Fd>, i: int): nat {
    if fds == [] then 0 else Count(fds[..|fds| - 1], i) + (if Names(fds[|fds| - 1], i) then 1 else 0)
  }

  ghost predicate RefsExact(fs: Fs) { forall i :: 0 <= i < MAX_INODES ==> fs.inodes[i].refs == Count(fs.fds, i) }

  ghost predicate FdsOk(fs: Fs) {
    && (forall f :: 0 <= f < MAX_FD ==> TERMINAL <= fs.fds[f].inode < MAX_INODES)
    && forall f :: 0 <= f < MAX_FD && fs.fds[f].valid ==>
      fs.fds[f].inode == TERMINAL || (0 <= fs.fds[f].inode < MAX_INODES && fs.inodes[fs.fds[f].inode].used)
  }

  /** The root is a directory and is where relative paths start. */
  ghost predicate Rooted(fs: Fs) { fs.cwd == 0 && fs.inodes[0].used && fs.inodes[0].kind.Dir? }

  ghost predicate FsOk(fs: Fs) { Regions(fs) && RefsExact(fs) && FdsOk(fs) && Rooted(fs) }

  lemma {:induction false} CountUpdate(fds: seq<Fd>, k: nat, f: Fd, i: int)
    requires k < |fds|
    ensures Count(fds[k := f], i)
            == Count(fds, i) + (if Names(f, i) then 1 else 0) - (if Names(fds[k], i) then 1 else 0)
  {
    var n := |fds| - 1;
    if k == n {
      assert fds[k := f][..n] == fds[..n];
    } else {
      assert fds[k := f][..n] == fds[..n][k := f];
      CountUpdate(fds[..n], k, f, i);
    }
  }

  lemma {:induction false} CountPositive(fds: seq<Fd>, k: nat, i: int)
    requires k < |fds| && Names(fds[k], i)
    ensures Count(fds, i) > 0
  {
    if k < |fds| - 1 {
      CountPositive(fds[..|fds| - 1], k, i);
    }
  }

  lemma {:induction false} CountZero(fds: seq<Fd>, i: int)
    requires forall k :: 0 <= k < |fds| ==> !Names(fds[k], i)
    ensures Count(fds, i) == 0
  {
    if fds != [] {
      CountZero(fds[..|fds| - 1], i);
    }
  }

  /** The region lies inside the buffer. */
  predicate Placed(n: Inode) {
    !n.kind.FreeInode? && n.size > 0 ==> n.size <= Capacity(n.kind) && n.offset + Capacity(n.kind) <= DATA_BUF_SIZE
  }

  /** All that path resolution needs to stay inside the tables. */
  predicate Walkable(fs: Fs) {
    fs.cwd < MAX_INODES && forall i :: 0 <= i < MAX_INODES ==> Placed(fs.inodes[i])
  }

  // --- inodes and directories ------------------------------------------------------------------------------------

  function FirstUnused(s: seq<Inode>): (i: int)
    ensures -1 <= i < |s|
    ensures i >= 0 ==> !s[i].used && forall j :: 0 <= j < i ==> s[j].used
    ensures i == -1 ==> forall j :: 0 <= j < |s| ==> s[j].used
  {
    if s == [] then -1
    else
      var i := FirstUnused(s[..|s| - 1]);
      if i >= 0 then i else if !s[|s| - 1].used then |s| - 1 else -1
  }

  /** alloc_inode in slot i */
  function WithInode(fs: Fs, i: nat, kind: Kind): (fs': Fs)
    requires i < MAX_INODES
    ensures Walkable(fs) ==> Walkable(fs')
  {
    fs.(inodes := fs.inodes[i := Inode(kind, 0, 0, true, 0)])
  }

  /** Can dir_add_entry add one more entry? */
  predicate CanAdd(fs: Fs, dir: nat)
    requires dir < MAX_INODES
  {
    var n := fs.inodes[dir];
    n.kind.Dir? && n.size + ENTRY_SIZE <= DIR_SIZE && (n.size == 0 ==> fs.next + DIR_SIZE <= DATA_BUF_SIZE)
  }

  /** dir_add_entry; where it fails it changes nothing. */
  function DirAdd(fs: Fs, dir: nat, name: Name, target: nat): (fs': Fs)
    requires dir < MAX_INODES && target < MAX_INODES && Walkable(fs)
    ensures Walkable(fs')
  {
    if !CanAdd(fs, dir) then fs
    else
      var n := fs.inodes[dir];
      var offset := if n.size == 0 then fs.next else n.offset;
      fs.(inodes := fs.inodes[dir := n.(offset := offset, size := n.size + ENTRY_SIZE)],
          next := if n.size == 0 then fs.next + DIR_SIZE else fs.next,
          data := Splice(fs.data, offset + n.size, EntryBytes(name, target)))
  }

  /** Does entry e of a directory at offset `at` answer to this name, for inodes marked used in `used`? */
  predicate EntryAnswers(inodes: Inodes, d: Data, at: nat, name: Name)
    requires at + ENTRY_SIZE <= DATA_BUF_SIZE
  {
    var ino := EntryInode(d, at);
    0 <= ino < MAX_INODES && inodes[ino].used && SameName(EntryName(d, at), name, 0)
  }

  /** The inode of the first entry from e on that answers, or -1. */
  function LookupFrom(inodes: Inodes, d: Data, offset: nat, entries: nat, e: nat, name: Name): (i: int)
    requires e <= entries && offset + entries * ENTRY_SIZE <= DATA_BUF_SIZE
    ensures i == -1 || (0 <= i < MAX_INODES && inodes[i].used)
    decreases entries - e
  {
    if e == entries then -1
    else if EntryAnswers(inodes, d, offset + e * ENTRY_SIZE, name) then EntryInode(d, offset + e * ENTRY_SIZE)
    else LookupFrom(inodes, d, offset, entries, e + 1, name)
  }

  /** dir_lookup */
  function DirLookup(fs: Fs, dir: nat, name: Name): (i: int)
    requires dir < MAX_INODES && Placed(fs.inodes[dir])
    ensures i == -1 || (0 <= i < MAX_INODES && fs.inodes[i].used)
  {
    if !fs.inodes[dir].kind.Dir? || fs.inodes[dir].size == 0 then -1
    else LookupFrom(fs.inodes, fs.data, fs.inodes[dir].offset, fs.inodes[dir].size / ENTRY_SIZE, 0, name)
  }

  /** The number of entries of a directory. */
  function Entries(fs: Fs, dir: nat): nat
    requires dir < MAX_INODES
  {
    if fs.inodes[dir].kind.Dir? then fs.inodes[dir].size / ENTRY_SIZE else 0
  }

  /** Entry e names an inode in use. */
  predicate EntryIsLive(fs: Fs, d: nat, e: nat)
    requires d < MAX_INODES && Placed(fs.inodes[d]) && e < Entries(fs, d)
  {
    var ino := EntryInode(fs.data, fs.inodes[d].offset + e * ENTRY_SIZE);
    0 <= ino < MAX_INODES && fs.inodes[ino].used
  }

  /** The first live entry from e on, or -1. */
  function NextLive(fs: Fs, d: nat, e: nat): (r: int)
    requires d < MAX_INODES && Placed(fs.inodes[d])
    ensures -1 <= r < Entries(fs, d) && (r >= 0 ==> e <= r && EntryIsLive(fs, d, r))
    ensures forall k :: e <= k < Entries(fs, d) && (r < 0 || k < r) ==> !EntryIsLive(fs, d, k)
    decreases Entries(fs, d) - e
  {
    if e >= Entries(fs, d) then -1 else if EntryIsLive(fs, d, e) then e else NextLive(fs, d, e + 1)
  }

  // --- path resolution --------------------------------------------------------------------------------------------

  /** The walk of fs_resolve_path over the tokens of a path; -1 is failure. */
  function Walk(fs: Fs, cur: nat, toks: seq<Str>): (i: int)
    requires cur < MAX_INODES && Walkable(fs)
    ensures -1 <= i < MAX_INODES
    decreases |toks|
  {
    if toks == [] then cur
    else if !fs.inodes[cur].kind.Dir? then -1
    else if toks[0] == [DOT] then Walk(fs, cur, toks[1..])
    else
      var next := DirLookup(fs, cur, Pad(toks[0]));
      if next < 0 then -1 else Walk(fs, next, toks[1..])
  }

  function Start(fs: Fs, path: Str): nat { if path != [] && path[0] == SLASH then 0 else fs.cwd }

  /** The part of the path that is cut into tokens: 255 bytes at most. */
  function Body(path: Str): Str {
    var p := if path != [] && path[0] == SLASH then path[1..] else path;
    p[..Min(|p|, 255)]
  }

  /** fs_resolve_path: the inode, or -1. */
  function Resolve(fs: Fs, path: Str): (i: int)
    requires Walkable(fs)
    ensures -1 <= i < MAX_INODES
  {
    Walk(fs, Start(fs, path), Tokens(Body(path), SLASH))
  }

  /** The index of the last slash, or -1. */
  function LastSlash(path: Str): (l: int)
    ensures -1 <= l < |path|
    ensures l >= 0 ==> path[l] == SLASH
    ensures forall i :: l < i < |path| ==> path[i] != SLASH
  {
    if path == [] then -1
    else if path[|path| - 1] == SLASH then |path| - 1
    else LastSlash(path[..|path| - 1])
  }

  /** parent_path and name as fs_open and fs_mkdir cut them. */
  function ParentPath(path: Str): Str {
    var l := LastSlash(path);
    if l < 0 then [DOT] else if l == 0 then [SLASH] else path[..l]
  }

  function BaseName(path: Str): Str { path[LastSlash(path) + 1..] }

  // --- descriptors -------------------------------------------------------------------------------------------------

  /** The lowest free descriptor from 3 up, or -1. */
  function FirstFreeFd(fds: Fds, f: nat): (r: int)
    requires f <= MAX_FD
    ensures r == -1 || (f <= r < MAX_FD && !fds[r].valid)
    ensures r == -1 ==> forall k :: f <= k < MAX_FD ==> fds[k].valid
    ensures r >= 0 ==> forall k :: f <= k < r ==> fds[k].valid
    decreases MAX_FD - f
  {
    if f == MAX_FD then -1 else if !fds[f].valid then f else FirstFreeFd(fds, f + 1)
  }

  /** A fresh descriptor f for inode i. */
  function WithFd(fs: Fs, f: nat, i: nat, flags: nat): Fs
    requires f < MAX_FD && i < MAX_INODES
  {
    fs.(fds := fs.fds[f := Fd(i, 0, flags, true)],
        inodes := fs.inodes[i := fs.inodes[i].(refs := fs.inodes[i].refs + 1)])
  }

  predicate Has(flags: nat, bit: nat)
    requires bit > 0
  {
    flags / bit % 2 == 1
  }

  /** fs_open up to the choice of a descriptor: the state and the inode, or -1. */
  function OpenInode(fs: Fs, path: Str, flags: nat): (r: (Fs, int))
    requires Walkable(fs)
    ensures -1 <= r.1 < MAX_INODES
  {
    var i := Resolve(fs, path);
    if i < 0 then
      if !Has(flags, O_CREAT) then (fs, -1)
      else
        var parent := Resolve(fs, ParentPath(path));
        if parent < 0 then (fs, -1)
        else
          var n := FirstUnused(fs.inodes);
          if n < 0 then (fs, -1) else (DirAdd(WithInode(fs, n, File), parent, Pad(BaseName(path)), n), n)
    else if !fs.inodes[i].used || !fs.inodes[i].kind.File? then (fs, -1)
    else if Has(flags, O_TRUNC) && (Has(flags, O_RDONLY) || Has(flags, O_WRONLY)) then
      (fs.(inodes := fs.inodes[i := fs.inodes[i].(size := 0)]), i)
    else (fs, i)
  }

  /** fs_open: the state and the descriptor, or -1. */
  function Open(fs: Fs, path: Str, flags: nat): (r: (Fs, int))
    requires Walkable(fs)
    ensures -1 <= r.1 < MAX_FD
  {
    var (g, i) := OpenInode(fs, path, flags);
    if i < 0 then (g, -1)
    else
      var f := FirstFreeFd(g.fds, 3);
      if f < 0 then (g, -1) else (WithFd(g, f, i, flags), f)
  }

  /** fs_opendir */
  function OpenDir(fs: Fs, path: Str): (r: (Fs, int))
    requires Walkable(fs)
    ensures -1 <= r.1 < MAX_FD
  {
    var i := Resolve(fs, path);
    if i < 0 || !fs.inodes[i].kind.Dir? then (fs, -1)
    else
      var f := FirstFreeFd(fs.fds, 3);
      if f < 0 then (fs, -1) else (WithFd(fs, f, i, 0), f)
  }

  predicate ValidFd(fs: Fs, fd: int) { 0 <= fd < MAX_FD && fs.fds[fd].valid }

  /** fs_close of a valid descriptor. */
  function Closed(fs: Fs, fd: nat): Fs
    requires fd < MAX_FD && fs.fds[fd].inode < MAX_INODES
  {
    var i := fs.fds[fd].inode;
    var g := fs.(fds := fs.fds[fd := fs.fds[fd].(valid := false)]);
    if i >= 0 && g.inodes[i].refs > 0 then g.(inodes := g.inodes[i := g.inodes[i].(refs := g.inodes[i].refs - 1)])
        else g
  }

  /** fs_dup2 of a valid descriptor onto another one. */
  function Duplicated(fs: Fs, oldfd: nat, newfd: nat): Fs
    requires oldfd < MAX_FD && newfd < MAX_FD && fs.fds[oldfd].inode < MAX_INODES && fs.fds[newfd].inode < MAX_INODES
  {
    var g := if fs.fds[newfd].valid then Closed(fs, newfd) else fs;
    var h := g.(fds := g.fds[newfd := g.fds[oldfd].(valid := true)]);
    var i := h.fds[oldfd].inode;
    if i >= 0 then h.(inodes := h.inodes[i := h.inodes[i].(refs := h.inodes[i].refs + 1)]) else h
  }

  /** fs_unlink: the state and the result. */
  function Unlink(fs: Fs, path: Str): (r: (Fs, int))
    requires Walkable(fs)
  {
    var i := Resolve(fs, path);
    if i < 0 || !fs.inodes[i].kind.File? || fs.inodes[i].refs > 0 then (fs, -1)
    else (fs.(inodes := fs.inodes[i := fs.inodes[i].(used := false, kind := FreeInode)]), 0)
  }

  /** A new directory n with its two entries, and its entry in the parent. */
  function MadeDir(fs: Fs, parent: nat, n: nat, name: Name): (fs': Fs)
    requires Walkable(fs) && parent < MAX_INODES && n < MAX_INODES
    ensures Walkable(fs')
  {
    var a := WithInode(fs, n, Dir);
    var b := DirAdd(a, n, Pad([DOT]), n);
    var c := DirAdd(b, n, Pad([DOT, DOT]), parent);
    DirAdd(c, parent, name, n)
  }

  /** fs_mkdir: the state and the result. */
  function Mkdir(fs: Fs, path: Str): (r: (Fs, int))
    requires Walkable(fs)
  {
    var parent := Resolve(fs, ParentPath(path));
    if parent < 0 || DirLookup(fs, parent, Pad(BaseName(path))) >= 0 then (fs, -1)
    else
      var n := FirstUnused(fs.inodes);
      if n < 0 then (fs, -1)
      else
        (MadeDir(fs, parent, n, Pad(BaseName(path))), 0)
  }

  // --- file contents -----------------------------------------------------------------------------------------------

  /** The bytes of inode i. */
  function Contents(fs: Fs, i: nat): seq<Byte>
    requires i < MAX_INODES && Placed(fs.inodes[i])
  {
    var n := fs.inodes[i];
    if n.kind.FreeInode? || n.size == 0 then [] else fs.data[n.offset..n.offset + n.size]
  }

  /** b written into c at off; a gap reads as zeros. */
  function Overlay(c: seq<Byte>, off: nat, b: seq<Byte>): (r: seq<Byte>)
    ensures |r| == if off + |b| > |c| then off + |b| else |c|
    ensures forall k :: 0 <= k < |r| ==> r[k] == if off <= k < off + |b| then b[k - off] else if k < |c| then c[k]
            else 0
  {
    seq(if off + |b| > |c| then off + |b| else |c|,
        k requires 0 <= k => if off <= k < off + |b| then b[k - off] else if k < |c| then c[k] else 0)
  }

  /** Can fs_write put n bytes through this file descriptor? */
  predicate CanWrite(fs: Fs, fd: nat, n: nat)
    requires fd < MAX_FD && 0 <= fs.fds[fd].inode < MAX_INODES
  {
    var i := fs.fds[fd].inode;
    && fs.inodes[i].kind.File?
    && fs.fds[fd].offset + n <= MAX_FILE_SIZE
    && (fs.inodes[i].size == 0 ==> fs.next + MAX_FILE_SIZE <= DATA_BUF_SIZE)
  }

  /** fs_write through a descriptor of an inode, where it succeeds. */
  function Written(fs: Fs, fd: nat, buf: seq<Byte>): (fs': Fs)
    requires Walkable(fs) && fd < MAX_FD && 0 <= fs.fds[fd].inode < MAX_INODES && CanWrite(fs, fd, |buf|)
    ensures Walkable(fs')
  {
    var i := fs.fds[fd].inode;
    var n := fs.inodes[i];
    var f := fs.fds[fd];
    var offset := if n.size == 0 then fs.next else n.offset;
    var end := f.offset + |buf|;
    fs.(inodes := fs.inodes[i := n.(offset := offset, size := if end > n.size then end else n.size)],
        next := if n.size == 0 then fs.next + MAX_FILE_SIZE else fs.next,
        data := Splice(fs.data, offset + f.offset, buf),
        fds := fs.fds[fd := f.(offset := end)])
  }

  /** What fs_read takes, for a descriptor of a file. */
  function Available(fs: Fs, fd: nat, count: nat): (b: seq<Byte>)
    requires Walkable(fs) && fd < MAX_FD && 0 <= fs.fds[fd].inode < MAX_INODES
  {
    var c := Contents(fs, fs.fds[fd].inode);
    var off := fs.fds[fd].offset;
    if off >= |c| then [] else if off + count <= |c| then c[off..off + count] else c[off..]
  }

  function Seeked(fs: Fs, fd: nat, offset: nat): Fs
    requires fd < MAX_FD
  {
    fs.(fds := fs.fds[fd := fs.fds[fd].(offset := offset)])
  }

  /** The offset fs_lseek settles on: clamped to the file. */
  function SeekTarget(base: int, delta: int, size: nat): (o: nat)
    ensures o <= size
  {
    if base + delta < 0 then 0 else if base + delta > size then size else base + delta
  }
}
