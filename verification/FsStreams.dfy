/**
 A file as a stream: what a run of calls writes through one descriptor, in between any other calls, is what the file
 then holds; what a run reads through another is a prefix of that.  This is what the shell's pipe-by-file rests on.
 */
module FsStreams {
  import opened CStrings
  import opened FsModel
  import opened FsFacts
  import opened FsPaths
  import opened FsRuns

  /** fd names file i and stands at its end. */
  ghost predicate AtEnd(fs: Fs, fd: nat, i: nat) {
    && FsOk(fs) && Walkable(fs) && ValidFd(fs, fd) && i < MAX_INODES
    && fs.fds[fd].inode == i && fs.inodes[i].used && fs.inodes[i].kind.File? && fs.fds[fd].offset == fs.inodes[i].size
  }

  /** fd names file i and stands somewhere in it. */
  ghost predicate Reader(fs: Fs, fd: nat, i: nat) {
    && FsOk(fs) && Walkable(fs) && ValidFd(fs, fd) && i < MAX_INODES
    && fs.fds[fd].inode == i && fs.inodes[i].used && fs.inodes[i].kind.File? && fs.fds[fd].offset <= fs.inodes[i].size
  }

  function UpTo(o: nat, n: nat, size: nat): nat { if o + n <= size then o + n else size }

  /** n bytes of c from o on, or as many as there are. */
  function Slice(c: seq<Byte>, o: nat, n: nat): seq<Byte>
    requires o <= |c|
  {
    c[o..UpTo(o, n, |c|)]
  }

  lemma SliceJoin(c: seq<Byte>, o: nat, a: nat, b: nat)
    requires o <= |c|
    ensures UpTo(UpTo(o, a, |c|), b, |c|) == UpTo(o, a + b, |c|) <= |c|
    ensures Slice(c, o, a) + Slice(c, UpTo(o, a, |c|), b) == Slice(c, o, a + b)
  {
  }

  lemma ContentsLength(fs: Fs, i: nat)
    requires FsOk(fs) && Walkable(fs) && i < MAX_INODES && !fs.inodes[i].kind.FreeInode?
    ensures |Contents(fs, i)| == fs.inodes[i].size
  {
    assert InodeOk(fs, i);
  }

  // --- one call ------------------------------------------------------------------------------------------------------

  /** The call does not close, replace, read or move descriptor fd. */
  predicate Spares(call: Call, fd: nat) {
    match call
    case CloseFd(f) => f != fd
    case DupFd(_, newfd) => newfd != fd
    case ReadFd(f, _) => f != fd
    case SeekFd(f, _, _) => f != fd
    case ReadDirectory(f) => f != fd
    case WriteFd(f, _) => f != fd
    case _ => true
  }

  lemma SparedFdKept(fs: Fs, call: Call, fd: nat)
    requires FsOk(fs) && ValidFd(fs, fd) && Spares(call, fd)
    ensures Effect(fs, call).fds[fd] == fs.fds[fd]
  {
    hide FsOk, Resolve, DirAdd, Open, OpenDir, DirLookup, Available, NextLive, Close, Dup2;
    OkIsWalkable(fs);
    match call
    case OpenFile(path, flags) => OpenFds(fs, path, flags);
    case OpenDirectory(path) => OpenDirFds(fs, path);
    case MakeDir(path) => MkdirFds(fs, path);
    case _ =>
  }

  /** A call that spares the descriptor and does not touch the file leaves both as they are. */
  lemma StreamKept(fs: Fs, call: Call, fd: nat, i: nat)
    requires FsOk(fs) && Walkable(fs) && ValidFd(fs, fd) && i < MAX_INODES && fs.inodes[i].used
             && fs.inodes[i].kind.File?
    requires Spares(call, fd) && !Touches(fs, call, i)
    ensures var g := Effect(fs, call);
            && Walkable(g) && g.fds[fd] == fs.fds[fd] && g.inodes[i].used && g.inodes[i].kind.File?
            && g.inodes[i].size == fs.inodes[i].size && Contents(g, i) == Contents(fs, i)
  {
    hide FsOk, Effect, Contents, Touches;
    SparedFdKept(fs, call, fd);
    CallKeepsFile(fs, call, i);
    OkIsWalkable(Effect(fs, call));
  }

  lemma OverlayAtEnd(c: seq<Byte>, b: seq<Byte>)
    ensures Overlay(c, |c|, b) == c + b
  {
  }

  lemma WriteSucceeds(fs: Fs, fd: nat, i: nat, b: seq<Byte>)
    requires AtEnd(fs, fd, i) && CanWrite(fs, fd, |b|)
    ensures AtEnd(Written(fs, fd, b), fd, i) && Contents(Written(fs, fd, b), i) == Contents(fs, i) + b
  {
    WriteKeepsOk(fs, fd, b);
    hide FsOk, Contents;
    WriteContents(fs, fd, b, i);
    ContentsLength(fs, i);
    OverlayAtEnd(Contents(fs, i), b);
  }

  /** What a write puts into the file. */
  ghost function Put(fs: Fs, fd: nat, b: seq<Byte>): seq<Byte> {
    if InodeFd(fs, fd) && CanWrite(fs, fd, |b|) then b else []
  }

  /** A write at the end appends, if it succeeds, and changes nothing otherwise. */
  lemma WriteAppends(fs: Fs, fd: nat, i: nat, b: seq<Byte>)
    requires AtEnd(fs, fd, i)
    ensures var g := Effect(fs, WriteFd(fd, b)); AtEnd(g, fd, i) && Contents(g, i) == Contents(fs, i) + Put(fs, fd, b)
  {
    hide FsOk, Contents, Written;
    if CanWrite(fs, fd, |b|) { WriteSucceeds(fs, fd, i, b); } else { assert Contents(fs, i) + [] == Contents(fs, i); }
  }

  lemma SeekKeepsContents(fs: Fs, fd: nat, n: nat, i: nat)
    requires Walkable(fs) && fd < MAX_FD && i < MAX_INODES
    ensures Walkable(Seeked(fs, fd, n)) && Contents(Seeked(fs, fd, n), i) == Contents(fs, i)
  {
  }

  /** A read takes the next bytes and moves on by as many. */
  lemma ReadTakes(fs: Fs, fd: nat, i: nat, count: nat)
    requires Reader(fs, fd, i)
    ensures var g := Effect(fs, ReadFd(fd, count));
            var c, o := Contents(fs, i), fs.fds[fd].offset;
            && o <= |c| && Available(fs, fd, count) == Slice(c, o, count)
            && Reader(g, fd, i) && Contents(g, i) == c && g.fds[fd].offset == UpTo(o, count, |c|)
  {
    hide FsOk, Contents;
    ContentsLength(fs, i);
    var n := fs.fds[fd].offset + |Available(fs, fd, count)|;
    SeekKeepsOk(fs, fd, n);
    assert Effect(fs, ReadFd(fd, count)) == Seeked(fs, fd, n);
    SeekKeepsContents(fs, fd, n, i);
  }

  // --- writing ------------------------------------------------------------------------------------------------------

  /** Calls that write file i through fd only, and otherwise do what they like to other files and descriptors. */
  ghost predicate WritesThrough(fs: Fs, calls: seq<Call>, fd: nat, i: nat)
    requires FsOk(fs)
    decreases |calls|
  {
    calls != [] ==>
      && ((calls[0].WriteFd? && calls[0].fd == fd) || (Spares(calls[0], fd) && !Touches(fs, calls[0], i)))
      && WritesThrough(Effect(fs, calls[0]), calls[1..], fd, i)
  }

  /** What the writes through fd that succeed put there, one after the other. */
  ghost function BytesOut(fs: Fs, calls: seq<Call>, fd: nat): seq<Byte>
    requires FsOk(fs)
    decreases |calls|
  {
    if calls == [] then []
    else
      (if calls[0].WriteFd? && calls[0].fd == fd then Put(fs, fd, calls[0].buf) else [])
      + BytesOut(Effect(fs, calls[0]), calls[1..], fd)
  }

  lemma Regroup(a: seq<Byte>, ab: seq<Byte>, c: seq<Byte>, bc: seq<Byte>)
    requires exists b :: ab == a + b && bc == b + c
    ensures ab + c == a + bc
  {
  }

  /** The file then holds what it held, and after that the output of the run. */
  lemma {:induction false} OutputIsAppended(fs: Fs, calls: seq<Call>, fd: nat, i: nat)
    requires AtEnd(fs, fd, i) && WritesThrough(fs, calls, fd, i)
    ensures AtEnd(Effects(fs, calls), fd, i)
    ensures Contents(Effects(fs, calls), i) == Contents(fs, i) + BytesOut(fs, calls, fd)
    decreases |calls|
  {
    hide FsOk, Contents, Effect, Touches, Put;
    if calls == [] {
      assert Contents(fs, i) + [] == Contents(fs, i);
    } else {
      var call := calls[0];
      if call.WriteFd? && call.fd == fd { WriteAppends(fs, fd, i, call.buf); } else { StreamKept(fs, call, fd, i); }
      var g := Effect(fs, call);
      OutputIsAppended(g, calls[1..], fd, i);
      Regroup(Contents(fs, i), Contents(g, i), BytesOut(g, calls[1..], fd), BytesOut(fs, calls, fd));
    }
  }

  /** What a run offers to fd: all that it writes there, whether or not the writes succeed. */
  function Offered(calls: seq<Call>, fd: nat): seq<Byte>
    decreases |calls|
  {
    if calls == [] then []
    else (if calls[0].WriteFd? && calls[0].fd == fd then calls[0].buf else []) + Offered(calls[1..], fd)
  }

  predicate BringsBytes(call: Call, fd: nat) { call.WriteFd? && call.fd == fd && call.buf != [] }

  /** At the first write of any bytes through fd there is data space left for one more file. */
  ghost predicate Space(fs: Fs, calls: seq<Call>, fd: nat)
    requires FsOk(fs)
    decreases |calls|
  {
    calls != [] ==>
      if BringsBytes(calls[0], fd) then fs.next + MAX_FILE_SIZE <= DATA_BUF_SIZE
      else Space(Effect(fs, calls[0]), calls[1..], fd)
  }

  lemma SizeIsLength(fs: Fs, fd: nat, i: nat)
    requires AtEnd(fs, fd, i)
    ensures |Contents(fs, i)| == fs.inodes[i].size <= MAX_FILE_SIZE
  {
    ContentsLength(fs, i);
    assert InodeOk(fs, i);
  }

  /** One write through fd, against what is left to be offered after it. */
  lemma WriteArrives(fs: Fs, fd: nat, i: nat, b: seq<Byte>, out: seq<Byte>, rest: seq<Byte>, space: bool)
    requires AtEnd(fs, fd, i) && |out| <= |rest|
    requires var size := fs.inodes[i].size + |Put(fs, fd, b)|;
             out == rest <==> size + |rest| <= MAX_FILE_SIZE && (size == 0 ==> space)
    ensures |Put(fs, fd, b) + out| <= |b + rest|
    ensures Put(fs, fd, b) + out == b + rest <==>
              && fs.inodes[i].size + |b + rest| <= MAX_FILE_SIZE
              && (fs.inodes[i].size == 0 ==> if b != [] then fs.next + MAX_FILE_SIZE <= DATA_BUF_SIZE else space)
  {
    var put := Put(fs, fd, b);
    if put == b {
      assert (put + out)[|b|..] == out && (b + rest)[|b|..] == rest;
    } else {
      assert |put + out| < |b + rest|;
    }
  }

  /**
   All that a run offers arrives if and only if it fits the 64 KiB of a file, and, for a file without a data region so
   far, there is space for one when the first bytes come.
   */
  lemma {:induction false} AllArrives(fs: Fs, calls: seq<Call>, fd: nat, i: nat)
    requires AtEnd(fs, fd, i) && WritesThrough(fs, calls, fd, i)
    ensures |BytesOut(fs, calls, fd)| <= |Offered(calls, fd)|
    ensures BytesOut(fs, calls, fd) == Offered(calls, fd) <==>
              && fs.inodes[i].size + |Offered(calls, fd)| <= MAX_FILE_SIZE
              && (fs.inodes[i].size == 0 ==> Space(fs, calls, fd))
    decreases |calls|
  {
    hide FsOk, Contents, Effect, Touches, Put;
    SizeIsLength(fs, fd, i);
    if calls != [] {
      var call := calls[0];
      var g, rest := Effect(fs, call), calls[1..];
      if call.WriteFd? && call.fd == fd {
        WriteAppends(fs, fd, i, call.buf);
        SizeIsLength(g, fd, i);
        AllArrives(g, rest, fd, i);
        WriteArrives(fs, fd, i, call.buf, BytesOut(g, rest, fd), Offered(rest, fd), Space(g, rest, fd));
      } else {
        StreamKept(fs, call, fd, i);
        AllArrives(g, rest, fd, i);
        assert [] + BytesOut(g, rest, fd) == BytesOut(g, rest, fd) && [] + Offered(rest, fd) == Offered(rest, fd);
      }
    }
  }

  /** The most data space that a call can claim, whatever state it meets. */
  function Cost(call: Call): nat {
    match call
    case WriteFd(_, _) => MAX_FILE_SIZE
    case OpenFile(_, flags) => if Has(flags, O_CREAT) then DIR_SIZE else 0
    case MakeDir(_) => 2 * DIR_SIZE
    case _ => 0
  }

  lemma AddCosts(fs: Fs, dir: nat, name: Name, target: nat)
    requires dir < MAX_INODES && target < MAX_INODES && Walkable(fs)
    ensures DirAdd(fs, dir, name, target).next <= fs.next + DIR_SIZE
  {
  }

  lemma MadeDirCosts(fs: Fs, parent: nat, n: nat, name: Name)
    requires Walkable(fs) && parent < MAX_INODES && n < MAX_INODES
    ensures MadeDir(fs, parent, n, name).next <= fs.next + 2 * DIR_SIZE
  {
    var a := WithInode(fs, n, Dir);
    var b := DirAdd(a, n, Pad([DOT]), n);
    var c := DirAdd(b, n, Pad([DOT, DOT]), parent);
    AddCosts(a, n, Pad([DOT]), n);
    assert c.next == b.next;
    AddCosts(c, parent, name, n);
  }

  lemma MkdirCosts(fs: Fs, path: Str)
    requires Walkable(fs)
    ensures Mkdir(fs, path).0.next <= fs.next + 2 * DIR_SIZE
  {
    hide Resolve, MadeDir, Pad, DirLookup;
    var parent, n := Resolve(fs, ParentPath(path)), FirstUnused(fs.inodes);
    if parent >= 0 && n >= 0 { MadeDirCosts(fs, parent, n, Pad(BaseName(path))); }
  }

  lemma WriteCosts(fs: Fs, fd: nat, buf: seq<Byte>)
    requires Walkable(fs) && fd < MAX_FD && 0 <= fs.fds[fd].inode < MAX_INODES && CanWrite(fs, fd, |buf|)
    ensures Written(fs, fd, buf).next <= fs.next + MAX_FILE_SIZE
  {
  }

  lemma UnlinkCosts(fs: Fs, path: Str)
    requires Walkable(fs)
    ensures Unlink(fs, path).0.next == fs.next
  {
  }

  lemma OpenCosts(fs: Fs, path: Str, flags: nat)
    requires Walkable(fs)
    ensures Open(fs, path, flags).0.next <= fs.next + Cost(OpenFile(path, flags))
  {
    hide Resolve, DirAdd, Pad;
    var n := FirstUnused(fs.inodes);
    if Resolve(fs, path) < 0 && Resolve(fs, ParentPath(path)) >= 0 && n >= 0 {
      AddCosts(WithInode(fs, n, File), Resolve(fs, ParentPath(path)), Pad(BaseName(path)), n);
    }
  }

  lemma EffectCosts(fs: Fs, call: Call)
    requires FsOk(fs)
    ensures Effect(fs, call).next <= fs.next + Cost(call)
  {
    hide FsOk, Resolve, DirAdd, Open, Mkdir, Unlink, Written, Has;
    OkIsWalkable(fs);
    match call
    case OpenFile(path, flags) => OpenCosts(fs, path, flags);
    case MakeDir(path) => MkdirCosts(fs, path);
    case WriteFd(fd, buf) => if InodeFd(fs, fd) && CanWrite(fs, fd, |buf|) { WriteCosts(fs, fd, buf); }
    case Remove(path) => UnlinkCosts(fs, path);
    case _ => QuietCall(fs, call);
  }

  /** The most data space that the calls before the first bytes can claim. */
  function Claims(calls: seq<Call>, fd: nat): nat
    decreases |calls|
  {
    if calls == [] || BringsBytes(calls[0], fd) then 0 else Cost(calls[0]) + Claims(calls[1..], fd)
  }

  /** Enough data space at the start is enough when it comes to it. */
  lemma {:induction false} RoomMakesSpace(fs: Fs, calls: seq<Call>, fd: nat)
    requires FsOk(fs) && fs.next + Claims(calls, fd) + MAX_FILE_SIZE <= DATA_BUF_SIZE
    ensures Space(fs, calls, fd)
    decreases |calls|
  {
    hide FsOk, Effect, Cost;
    if calls != [] && !BringsBytes(calls[0], fd) {
      EffectCosts(fs, calls[0]);
      RoomMakesSpace(Effect(fs, calls[0]), calls[1..], fd);
    }
  }

  // --- reading ------------------------------------------------------------------------------------------------------

  /** Calls that read through fd, and otherwise do what they like to other files and descriptors. */
  ghost predicate ReadsThrough(fs: Fs, calls: seq<Call>, fd: nat, i: nat)
    requires FsOk(fs)
    decreases |calls|
  {
    calls != [] ==>
      && ((calls[0].ReadFd? && calls[0].fd == fd) || (Spares(calls[0], fd) && !Touches(fs, calls[0], i)))
      && ReadsThrough(Effect(fs, calls[0]), calls[1..], fd, i)
  }

  /** The bytes that the reads through fd return, one after the other. */
  ghost function BytesIn(fs: Fs, calls: seq<Call>, fd: nat): seq<Byte>
    requires FsOk(fs)
    decreases |calls|
  {
    OkIsWalkable(fs);
    if calls == [] then []
    else
      (if calls[0].ReadFd? && calls[0].fd == fd && InodeFd(fs, fd) then Available(fs, fd, calls[0].count) else [])
      + BytesIn(Effect(fs, calls[0]), calls[1..], fd)
  }

  /** How much they ask for. */
  function Asked(calls: seq<Call>, fd: nat): nat
    decreases |calls|
  {
    if calls == [] then 0
    else (if calls[0].ReadFd? && calls[0].fd == fd then calls[0].count else 0) + Asked(calls[1..], fd)
  }

  lemma SliceOfNothing(c: seq<Byte>, o: nat)
    requires o <= |c|
    ensures Slice(c, o, 0) == [] && UpTo(o, 0, |c|) == o
  {
  }

  /** The reads return the file from the offset on, up to what they ask for in all, and stop at its end. */
  lemma {:induction false} InputIsSlice(fs: Fs, calls: seq<Call>, fd: nat, i: nat)
    requires Reader(fs, fd, i) && ReadsThrough(fs, calls, fd, i)
    ensures var c, o := Contents(fs, i), fs.fds[fd].offset;
            var g := Effects(fs, calls);
            && o <= |c| && BytesIn(fs, calls, fd) == Slice(c, o, Asked(calls, fd))
            && Reader(g, fd, i) && Contents(g, i) == c && g.fds[fd].offset == UpTo(o, Asked(calls, fd), |c|)
    decreases |calls|
  {
    hide FsOk, Contents, Effect, Touches, Available, Slice, UpTo;
    ContentsLength(fs, i);
    var c, o := Contents(fs, i), fs.fds[fd].offset;
    SliceJoin(c, o, 0, 0);
    SliceOfNothing(c, o);
    if calls != [] {
      var call := calls[0];
      var g := Effect(fs, call);
      if call.ReadFd? && call.fd == fd {
        ReadTakes(fs, fd, i, call.count);
        InputIsSlice(g, calls[1..], fd, i);
        SliceJoin(c, o, call.count, Asked(calls[1..], fd));
      } else {
        StreamKept(fs, call, fd, i);
        InputIsSlice(g, calls[1..], fd, i);
        assert [] + BytesIn(g, calls[1..], fd) == BytesIn(g, calls[1..], fd);
      }
    }
  }

  // --- opening ------------------------------------------------------------------------------------------------------

  /**
   fs_open truncates a file that exists if O_TRUNC comes with a mode that has the bit of O_RDONLY or of O_WRONLY: the
   bits of O_RDWR include that of O_RDONLY, so opening to read is no protection.
   */
  lemma TruncatesIff(fs: Fs, path: Str, flags: nat)
    requires FsOk(fs) && Walkable(fs) && Resolve(fs, path) >= 0
    requires var n := fs.inodes[Resolve(fs, path)]; n.used && n.kind.File? && n.size > 0
    ensures var g := OpenInode(fs, path, flags).0;
            g.inodes[Resolve(fs, path)].size == 0 <==>
                Has(flags, O_TRUNC) && (Has(flags, O_RDONLY) || Has(flags, O_WRONLY))
    ensures Has(O_RDONLY + O_TRUNC, O_TRUNC) && Has(O_RDONLY + O_TRUNC, O_RDONLY)
  {
    hide Resolve, FsOk;
  }

  lemma NewFileIsEmpty(fs: Fs, parent: nat, name: Name, n: nat)
    requires Walkable(fs) && parent < MAX_INODES && n < MAX_INODES && parent != n
    ensures DirAdd(fs, parent, name, n).inodes[n] == fs.inodes[n]
  {
  }

  /** A truncating open leaves an empty file, and the descriptor at its start. */
  lemma TruncatingOpenIsEmpty(fs: Fs, path: Str, flags: nat)
    requires FsOk(fs) && Walkable(fs) && Has(flags, O_TRUNC) && (Has(flags, O_RDONLY) || Has(flags, O_WRONLY))
    requires Open(fs, path, flags).1 >= 0
    ensures var (g, f) := Open(fs, path, flags);
            var i := g.fds[f].inode;
            i >= 0 && AtEnd(g, f, i) && g.inodes[i].size == 0
  {
    hide FsOk, Resolve, DirAdd;
    OpenKeepsOk(fs, path, flags);
    OpenInodeKeepsOk(fs, path, flags);
    ResolveIsUsed(fs, path);
    ResolveIsUsed(fs, ParentPath(path));
    var (g, f) := Open(fs, path, flags);
    OkIsWalkable(g);
    if Resolve(fs, path) < 0 {
      NewFileIsEmpty(WithInode(fs, FirstUnused(fs.inodes), File), Resolve(fs, ParentPath(path)), Pad(BaseName(path)),
          FirstUnused(fs.inodes));
    }
  }
}
