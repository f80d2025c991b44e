/**
 What every file-system operation keeps: regions stay apart and zero-filled, reference counts exact, descriptors alive.
 */
module FsFacts {
  import opened CStrings
  import opened FsModel

  lemma OkIsWalkable(fs: Fs)
    requires FsOk(fs)
    ensures Walkable(fs)
  {
    forall i | 0 <= i < MAX_INODES
      ensures Placed(fs.inodes[i])
    {
      assert InodeOk(fs, i);
    }
  }

  /** No valid descriptor names an unused inode. */
  lemma UnusedHasNoRefs(fs: Fs, i: nat)
    requires RefsExact(fs) && FdsOk(fs) && i < MAX_INODES && !fs.inodes[i].used
    ensures fs.inodes[i].refs == 0 == Count(fs.fds, i)
  {
    CountZero(fs.fds, i);
  }

  lemma AllocKeepsOk(fs: Fs, i: nat, kind: Kind)
    requires FsOk(fs) && i < MAX_INODES && !fs.inodes[i].used && !kind.FreeInode?
    ensures FsOk(WithInode(fs, i, kind))
  {
    UnusedHasNoRefs(fs, i);
    var g := WithInode(fs, i, kind);
    forall k | 0 <= k < MAX_INODES
      ensures InodeOk(g, k)
    {
      assert InodeOk(fs, k);
    }
    forall j, k | 0 <= j < k < MAX_INODES
      ensures Apart(g.inodes[j], g.inodes[k])
    {
      assert Apart(fs.inodes[j], fs.inodes[k]);
    }
  }

  /** New data for inode i inside its own region leaves the other regions as they were. */
  ghost predicate GrowsInPlace(fs: Fs, g: Fs, i: nat)
    requires i < MAX_INODES
  {
    var n, m := fs.inodes[i], g.inodes[i];
    && g.inodes == fs.inodes[i := m] && g.cwd == fs.cwd
    && n.used && m.used && m.kind == n.kind && !n.kind.FreeInode? && m.refs == n.refs && 0 < m.size <= Capacity(m.kind)
    && m.size >= n.size
    && g.next == (if n.size == 0 then fs.next + Capacity(n.kind) else fs.next) && g.next <= DATA_BUF_SIZE
    && m.offset == (if n.size == 0 then fs.next else n.offset)
    && (forall k :: 0 <= k < DATA_BUF_SIZE && !(m.offset <= k < m.offset + m.size) ==> g.data[k] == fs.data[k])
    && (m.kind.Dir? ==> m.size % ENTRY_SIZE == 0)
  }

  /** The two regions are disjoint. */
  ghost predicate Elsewhere(a: Inode, b: Inode) {
    a.offset + Capacity(a.kind) <= b.offset || b.offset + Capacity(b.kind) <= a.offset
  }

  lemma GrowthKeepsRegions(fs: Fs, g: Fs, i: nat)
    requires Regions(fs) && i < MAX_INODES && GrowsInPlace(fs, g, i)
    ensures Regions(g)
    ensures forall j :: 0 <= j < MAX_INODES && j != i && Owns(fs.inodes[j]) ==> Elsewhere(fs.inodes[j], g.inodes[i])
  {
    var m := g.inodes[i];
    assert InodeOk(fs, i);
    forall j | 0 <= j < MAX_INODES && j != i && Owns(fs.inodes[j])
      ensures Elsewhere(fs.inodes[j], m) && InodeOk(g, j)
    {
      assert InodeOk(fs, j);
      assert if j < i then Apart(fs.inodes[j], fs.inodes[i]) else Apart(fs.inodes[i], fs.inodes[j]);
    }
    forall j | 0 <= j < MAX_INODES
      ensures InodeOk(g, j)
    {
      assert InodeOk(fs, j);
    }
    forall j, k | 0 <= j < k < MAX_INODES
      ensures Apart(g.inodes[j], g.inodes[k])
    {
      assert Apart(fs.inodes[j], fs.inodes[k]);
    }
  }

  lemma DirAddGrows(fs: Fs, dir: nat, name: Name, target: nat)
    requires FsOk(fs) && Walkable(fs) && dir < MAX_INODES && target < MAX_INODES && fs.inodes[dir].used
             && CanAdd(fs, dir)
    ensures GrowsInPlace(fs, DirAdd(fs, dir, name, target), dir)
  {
    assert InodeOk(fs, dir);
  }

  lemma DirAddKeepsOk(fs: Fs, dir: nat, name: Name, target: nat)
    requires FsOk(fs) && Walkable(fs) && dir < MAX_INODES && target < MAX_INODES && fs.inodes[dir].used
    ensures FsOk(DirAdd(fs, dir, name, target))
  {
    if CanAdd(fs, dir) {
      hide Regions;
      DirAddGrows(fs, dir, name, target);
      GrowthKeepsRegions(fs, DirAdd(fs, dir, name, target), dir);
    }
  }

  lemma AddKeepsFds(fs: Fs, dir: nat, name: Name, target: nat)
    requires dir < MAX_INODES && target < MAX_INODES && Walkable(fs)
    ensures DirAdd(fs, dir, name, target).fds == fs.fds
  {
  }

  lemma OpenInodeKeepsFds(fs: Fs, path: Str, flags: nat)
    requires Walkable(fs)
    ensures OpenInode(fs, path, flags).0.fds == fs.fds
  {
    hide Resolve, DirAdd;
    var i := OpenInode(fs, path, flags).1;
    if Resolve(fs, path) < 0 && i >= 0 {
      AddKeepsFds(WithInode(fs, i, File), Resolve(fs, ParentPath(path)), Pad(BaseName(path)), i);
    }
  }

  lemma TruncateKeepsOk(fs: Fs, i: nat)
    requires FsOk(fs) && i < MAX_INODES && fs.inodes[i].used
    ensures FsOk(fs.(inodes := fs.inodes[i := fs.inodes[i].(size := 0)]))
  {
    var g := fs.(inodes := fs.inodes[i := fs.inodes[i].(size := 0)]);
    forall k | 0 <= k < MAX_INODES
      ensures InodeOk(g, k)
    {
      assert InodeOk(fs, k);
    }
    forall j, k | 0 <= j < k < MAX_INODES
      ensures Apart(g.inodes[j], g.inodes[k])
    {
      assert Apart(fs.inodes[j], fs.inodes[k]);
    }
  }

  /** Only reference counts and descriptors changed. */
  lemma SameRegions(fs: Fs, g: Fs)
    requires Regions(fs) && g.data == fs.data && g.next == fs.next
    requires forall i :: 0 <= i < MAX_INODES ==> g.inodes[i].(refs := 0) == fs.inodes[i].(refs := 0)
    ensures Regions(g)
  {
    forall k | 0 <= k < MAX_INODES
      ensures InodeOk(g, k) && g.inodes[k].size == fs.inodes[k].size && g.inodes[k].offset == fs.inodes[k].offset
      ensures g.inodes[k].kind == fs.inodes[k].kind && g.inodes[k].used == fs.inodes[k].used
    {
      assert InodeOk(fs, k) && g.inodes[k].(refs := 0) == fs.inodes[k].(refs := 0);
    }
    forall j, k | 0 <= j < k < MAX_INODES
      ensures Apart(g.inodes[j], g.inodes[k])
    {
      assert Apart(fs.inodes[j], fs.inodes[k]);
    }
  }

  lemma WithFdKeepsOk(fs: Fs, f: nat, i: nat, flags: nat)
    requires FsOk(fs) && f < MAX_FD && !fs.fds[f].valid && i < MAX_INODES && fs.inodes[i].used
    ensures FsOk(WithFd(fs, f, i, flags))
  {
    hide Regions;
    var g := WithFd(fs, f, i, flags);
    SameRegions(fs, g);
    forall k | 0 <= k < MAX_INODES
      ensures g.inodes[k].refs == Count(g.fds, k)
    {
      CountUpdate(fs.fds, f, Fd(i, 0, flags, true), k);
    }
  }

  /** Moving a descriptor inside its file, or reading through it. */
  lemma SeekKeepsOk(fs: Fs, fd: nat, offset: nat)
    requires FsOk(fs) && fd < MAX_FD
    ensures FsOk(Seeked(fs, fd, offset))
  {
    hide Regions;
    var g := Seeked(fs, fd, offset);
    SameRegions(fs, g);
    forall k | 0 <= k < MAX_INODES
      ensures g.inodes[k].refs == Count(g.fds, k)
    {
      CountUpdate(fs.fds, fd, fs.fds[fd].(offset := offset), k);
    }
  }

  lemma CloseKeepsOk(fs: Fs, fd: nat)
    requires FsOk(fs) && ValidFd(fs, fd)
    ensures fs.fds[fd].inode < MAX_INODES && FsOk(Closed(fs, fd))
    ensures fs.fds[fd].inode >= 0 ==>
              Closed(fs, fd).inodes[fs.fds[fd].inode].refs == fs.inodes[fs.fds[fd].inode].refs - 1
  {
    hide Regions;
    var g := Closed(fs, fd);
    var i := fs.fds[fd].inode;
    if i >= 0 {
      CountPositive(fs.fds, fd, i);
    }
    SameRegions(fs, g);
    forall k | 0 <= k < MAX_INODES
      ensures g.inodes[k].refs == Count(g.fds, k)
    {
      CountUpdate(fs.fds, fd, fs.fds[fd].(valid := false), k);
    }
  }

  lemma ClosedFds(fs: Fs, fd: nat)
    requires fd < MAX_FD && fs.fds[fd].inode < MAX_INODES
    ensures Closed(fs, fd).fds == fs.fds[fd := fs.fds[fd].(valid := false)]
  {
  }

  lemma DupKeepsOk(fs: Fs, oldfd: nat, newfd: nat)
    requires FsOk(fs) && ValidFd(fs, oldfd) && newfd < MAX_FD && oldfd != newfd
    ensures fs.fds[oldfd].inode < MAX_INODES && fs.fds[newfd].inode < MAX_INODES && FsOk(Duplicated(fs, oldfd, newfd))
  {
    hide Regions, Closed;
    var g := if fs.fds[newfd].valid then Closed(fs, newfd) else fs;
    if fs.fds[newfd].valid {
      CloseKeepsOk(fs, newfd);
      ClosedFds(fs, newfd);
    }
    var h := Duplicated(fs, oldfd, newfd);
    SameRegions(g, h);
    forall k | 0 <= k < MAX_INODES
      ensures h.inodes[k].refs == Count(h.fds, k)
    {
      CountUpdate(g.fds, newfd, g.fds[oldfd].(valid := true), k);
    }
  }

  lemma UnlinkKeepsOk(fs: Fs, path: Str)
    requires FsOk(fs) && Walkable(fs)
    ensures FsOk(Unlink(fs, path).0)
  {
    hide Resolve;
    var i := Resolve(fs, path);
    var g := Unlink(fs, path).0;
    if g != fs {
      forall f | 0 <= f < MAX_FD && fs.fds[f].valid
        ensures fs.fds[f].inode != i
      {
        if fs.fds[f].inode == i { CountPositive(fs.fds, f, i); }
      }
      forall k | 0 <= k < MAX_INODES
        ensures InodeOk(g, k)
      {
        assert InodeOk(fs, k);
      }
      forall j, k | 0 <= j < k < MAX_INODES
        ensures Apart(g.inodes[j], g.inodes[k])
      {
        assert Apart(fs.inodes[j], fs.inodes[k]);
      }
    }
  }

  // --- writes ------------------------------------------------------------------------------------------------------

  lemma WriteGrows(fs: Fs, fd: nat, buf: seq<Byte>)
    requires FsOk(fs) && Walkable(fs) && ValidFd(fs, fd) && fs.fds[fd].inode >= 0 && CanWrite(fs, fd, |buf|)
    requires fs.fds[fd].offset + |buf| > 0 || fs.inodes[fs.fds[fd].inode].size > 0
    ensures GrowsInPlace(fs, Written(fs, fd, buf), fs.fds[fd].inode)
  {
    assert InodeOk(fs, fs.fds[fd].inode);
  }

  /** A write of nothing to an empty file through a descriptor at 0: it claims a region all the same. */
  lemma EmptyWriteKeepsRegions(fs: Fs, fd: nat, buf: seq<Byte>)
    requires FsOk(fs) && Walkable(fs) && ValidFd(fs, fd) && fs.fds[fd].inode >= 0 && CanWrite(fs, fd, |buf|)
    requires fs.fds[fd].offset + |buf| == 0 && fs.inodes[fs.fds[fd].inode].size == 0
    ensures Regions(Written(fs, fd, buf))
  {
    var g := Written(fs, fd, buf);
    forall k | 0 <= k < MAX_INODES
      ensures InodeOk(g, k)
    {
      assert InodeOk(fs, k);
    }
    forall j, k | 0 <= j < k < MAX_INODES
      ensures Apart(g.inodes[j], g.inodes[k])
    {
      assert Apart(fs.inodes[j], fs.inodes[k]);
    }
  }

  lemma WriteKeepsOk(fs: Fs, fd: nat, buf: seq<Byte>)
    requires FsOk(fs) && Walkable(fs) && ValidFd(fs, fd) && fs.fds[fd].inode >= 0 && CanWrite(fs, fd, |buf|)
    ensures FsOk(Written(fs, fd, buf))
  {
    hide Regions;
    var i := fs.fds[fd].inode;
    var g := Written(fs, fd, buf);
    if fs.fds[fd].offset + |buf| > 0 || fs.inodes[i].size > 0 {
      WriteGrows(fs, fd, buf);
      GrowthKeepsRegions(fs, g, i);
    } else {
      EmptyWriteKeepsRegions(fs, fd, buf);
    }
    forall k | 0 <= k < MAX_INODES
      ensures g.inodes[k].refs == Count(g.fds, k)
    {
      CountUpdate(fs.fds, fd, g.fds[fd], k);
    }
  }

  lemma WriteOwnContents(fs: Fs, fd: nat, buf: seq<Byte>)
    requires FsOk(fs) && Walkable(fs) && ValidFd(fs, fd) && fs.fds[fd].inode >= 0 && CanWrite(fs, fd, |buf|)
    ensures var i := fs.fds[fd].inode;
            Contents(Written(fs, fd, buf), i) == Overlay(Contents(fs, i), fs.fds[fd].offset, buf)
  {
    var i := fs.fds[fd].inode;
    var f := fs.fds[fd];
    assert InodeOk(fs, i);
    var a, b := Contents(Written(fs, fd, buf), i), Overlay(Contents(fs, i), f.offset, buf);
    var offset := if fs.inodes[i].size == 0 then fs.next else fs.inodes[i].offset;
    assert |a| == |b|;
    forall k | 0 <= k < |a|
      ensures a[k] == b[k]
    {
      assert a[k] == Written(fs, fd, buf).data[offset + k];
    }
  }

  /**
   fs_write changes its own range of its own file and nothing else: the new contents are the old ones with the buffer
   laid over them, a gap before it reading as zeros, and every other inode keeps its bytes.
   */
  lemma WriteContents(fs: Fs, fd: nat, buf: seq<Byte>, j: nat)
    requires FsOk(fs) && Walkable(fs) && ValidFd(fs, fd) && fs.fds[fd].inode >= 0 && CanWrite(fs, fd, |buf|)
             && j < MAX_INODES
    ensures Contents(Written(fs, fd, buf), j)
            == if j == fs.fds[fd].inode then Overlay(Contents(fs, j), fs.fds[fd].offset, buf) else Contents(fs, j)
  {
    var i := fs.fds[fd].inode;
    var g := Written(fs, fd, buf);
    var f := fs.fds[fd];
    assert InodeOk(fs, i) && InodeOk(fs, j);
    if j == i {
      WriteOwnContents(fs, fd, buf);
    } else if Owns(fs.inodes[j]) {
      if f.offset + |buf| > 0 || fs.inodes[i].size > 0 {
        WriteGrows(fs, fd, buf);
        GrowthKeepsRegions(fs, g, i);
        assert Elsewhere(fs.inodes[j], g.inodes[i]);
      }
      assert g.data[g.inodes[j].offset..g.inodes[j].offset + g.inodes[j].size] ==
             fs.data[fs.inodes[j].offset..fs.inodes[j].offset + fs.inodes[j].size];
    }
  }
}
