/**
 The pipe of shell_loop: the left command writes /tmp/pipe through its standard output, the right one then reads it
 through its standard input.
 */
module ShellPipe {
  import opened Options
  import opened CStrings
  import opened FsModel
  import opened FsFacts
  import opened FsPaths
  import opened FsRuns
  import opened FsStreams
  import opened ShellModel
  import opened Shell

  // --- saving and restoring leave the files alone -------------------------------------------------------------------

  lemma SavedFiles(fs: Fs)
    requires FsOk(fs)
    ensures SameFiles(fs, Saved(fs))
  {
    hide FsOk, Dup2;
    DuplicatedFiles(fs, 0, SAVED_IN);
    DuplicatedFiles(Dup2(fs, 0, SAVED_IN), 1, SAVED_OUT);
  }

  lemma RestoredFiles(fs: Fs, savedIn: nat, savedOut: nat)
    requires FsOk(fs)
    ensures SameFiles(fs, Restored(fs, savedIn, savedOut))
  {
    hide FsOk, Dup2, Close;
    var a := Dup2(fs, savedIn, 0);
    var b := Close(a, savedIn);
    var c := Dup2(b, savedOut, 1);
    DuplicatedFiles(fs, savedIn, 0);
    ClosedFiles(a, savedIn);
    DuplicatedFiles(b, savedOut, 1);
    ClosedFiles(c, savedOut);
  }

  // --- the two redirections -----------------------------------------------------------------------------------------

  const TO_FILE: nat := O_RDWR + O_CREAT + O_TRUNC

  /** What a redirection's target is, after the file was opened as descriptor f of g. */
  lemma RedirectTarget(fs: Fs, path: Str, flags: nat, target: nat)
    requires FsOk(fs) && Walkable(fs) && target < 3 && Redirect(fs, Some(path), flags, target).1
    ensures var (g, f) := Open(fs, path, flags);
            var r := Redirect(fs, Some(path), flags, target).0;
            && f >= 3 && FsOk(g) && r.fds[target] == g.fds[f] && g.fds[f].valid && SameFiles(g, r)
  {
    hide FsOk, Open, Close, Dup2;
    var (g, f) := Open(fs, path, flags);
    OpenFds(fs, path, flags);
    DuplicatedFiles(g, f, target);
    ClosedFiles(Dup2(g, f, target), f);
  }

  lemma FlagsOfOutput()
    ensures Has(TO_FILE, O_TRUNC) && Has(TO_FILE, O_RDONLY)
  {
  }

  lemma SameInode(a: Fs, b: Fs, i: int)
    requires SameFiles(a, b) && 0 <= i < MAX_INODES
    ensures a.inodes[i].size == b.inodes[i].size && a.inodes[i].kind == b.inodes[i].kind
  {
    assert a.inodes[i].(refs := 0) == b.inodes[i].(refs := 0);
  }

  /** fd stands at the end of an empty file. */
  ghost predicate EmptyAt(r: Fs, fd: nat)
    requires fd < MAX_FD
  {
    var i := r.fds[fd].inode;
    0 <= i < MAX_INODES && AtEnd(r, fd, i) && r.inodes[i].size == 0
  }

  /** "> path": standard output is at the end of an empty file. */
  lemma OutputIsEmpty(fs: Fs, path: Str)
    requires FsOk(fs) && Walkable(fs) && Redirect(fs, Some(path), TO_FILE, 1).1
    ensures EmptyAt(Redirect(fs, Some(path), TO_FILE, 1).0, 1)
  {
    RedirectTarget(fs, path, TO_FILE, 1);
    hide FsOk, Redirect, Open, Has;
    FlagsOfOutput();
    TruncatingOpenIsEmpty(fs, path, TO_FILE);
    var r := Redirect(fs, Some(path), TO_FILE, 1).0;
    var (g, f) := Open(fs, path, TO_FILE);
    OkIsWalkable(r);
    SameInode(g, r, g.fds[f].inode);
  }

  lemma TruncatingOpenIs(fs: Fs, path: Str)
    requires Walkable(fs) && Resolve(fs, path) >= 0 && Open(fs, path, TO_FILE).1 >= 0
    ensures var (g, f) := Open(fs, path, TO_FILE);
            var i := Resolve(fs, path);
            && fs.inodes[i].kind.File?
            && g == WithFd(fs.(inodes := fs.inodes[i := fs.inodes[i].(size := 0)]), f, i, TO_FILE)
  {
    hide Resolve, Walkable, WithFd, Has;
    FlagsOfOutput();
  }

  lemma TruncatingOpenKeepsDirs(fs: Fs, path: Str)
    requires FsOk(fs) && Walkable(fs) && Resolve(fs, path) >= 0 && Open(fs, path, TO_FILE).1 >= 0
    ensures var (g, f) := Open(fs, path, TO_FILE);
            Walkable(g) && SameDirs(fs, g) && g.fds[f].inode == Resolve(fs, path)
  {
    OpenKeepsOk(fs, path, TO_FILE);
    OkIsWalkable(Open(fs, path, TO_FILE).0);
    TruncatingOpenIs(fs, path);
    hide FsOk, Resolve, Open;
  }

  /** A truncating open of a file that exists moves no path. */
  lemma TruncationKeepsResolve(fs: Fs, path: Str)
    requires FsOk(fs) && Walkable(fs) && Redirect(fs, Some(path), TO_FILE, 1).1 && Resolve(fs, path) >= 0
    ensures var r := Redirect(fs, Some(path), TO_FILE, 1).0;
            Walkable(r) && Resolve(r, path) == Resolve(fs, path) == r.fds[1].inode
  {
    RedirectTarget(fs, path, TO_FILE, 1);
    hide FsOk, Redirect, Resolve, SameFiles, SameDirs, Open;
    var r := Redirect(fs, Some(path), TO_FILE, 1).0;
    var (g, f) := Open(fs, path, TO_FILE);
    OkIsWalkable(r);
    OkIsWalkable(g);
    SameFilesSameDirs(g, r);
    TruncatingOpenKeepsDirs(fs, path);
    SameDirsSameResolve(fs, g, path);
    SameDirsSameResolve(g, r, path);
  }

  /** "< path" of a file: standard input is at its start. */
  lemma InputIsFile(fs: Fs, path: Str, i: nat)
    requires FsOk(fs) && Walkable(fs) && Resolve(fs, path) == i && fs.inodes[i].kind.File?
             && FirstFreeFd(fs.fds, 3) >= 0
    ensures var (r, ok) := Redirect(fs, Some(path), O_RDONLY, 0);
            ok && Reader(r, 0, i) && r.fds[0].offset == 0 && Contents(r, i) == Contents(fs, i)
  {
    ResolveIsUsed(fs, path);
    hide FsOk, Resolve;
    var (g, f) := Open(fs, path, O_RDONLY);
    assert f == FirstFreeFd(fs.fds, 3) && g == WithFd(fs, f, i, O_RDONLY);
    assert Redirect(fs, Some(path), O_RDONLY, 0).1;
    RedirectTarget(fs, path, O_RDONLY, 0);
    hide Redirect;
    var r := Redirect(fs, Some(path), O_RDONLY, 0).0;
    OkIsWalkable(g);
    OkIsWalkable(r);
    SameFilesSameDirs(g, r);
    assert g.inodes[i].(refs := 0) == r.inodes[i].(refs := 0);
  }

  // --- where the redirection's path leads --------------------------------------------------------------------------

  lemma SameFilesSameRoom(a: Fs, b: Fs, p: nat)
    requires SameFiles(a, b) && p < MAX_INODES
    ensures CanAdd(a, p) == CanAdd(b, p) && a.inodes[p].kind == b.inodes[p].kind
  {
    assert a.inodes[p].(refs := 0) == b.inodes[p].(refs := 0);
  }

  /**
   Can the path be opened to write so that it leads to the file: it leads somewhere, or its parent is a directory with
   room.
   */
  ghost predicate Reachable(fs: Fs, path: Str)
    requires Walkable(fs)
  {
    || Resolve(fs, path) >= 0
    || (var p := Resolve(fs, ParentPath(path)); p >= 0 && fs.inodes[p].kind.Dir? && CanAdd(fs, p))
  }

  lemma CreationLeads(fs: Fs, path: Str)
    requires FsOk(fs) && Walkable(fs) && NoStaleEntries(fs) && |path| <= 255 && Reachable(fs, path)
             && Resolve(fs, path) < 0
    requires Open(fs, path, TO_FILE).1 >= 0
    ensures var (g, f) := Open(fs, path, TO_FILE); Walkable(g) && Resolve(g, path) == g.fds[f].inode >= 0
  {
    OpenKeepsOk(fs, path, TO_FILE);
    hide FsOk, Resolve, NoStaleEntries, DirAdd, CanAdd;
    assert Has(TO_FILE, O_CREAT);
    CreatedPathResolves(fs, path, TO_FILE);
    var h := OpenInode(fs, path, TO_FILE).0;
    var g := Open(fs, path, TO_FILE).0;
    OkIsWalkable(g);
    assert SameFiles(h, g);
    SameFilesSameDirs(h, g);
    SameDirsSameResolve(h, g, path);
  }

  /** "> path" opens what the path then leads to. */
  lemma RedirectLeads(fs: Fs, path: Str)
    requires FsOk(fs) && Walkable(fs) && NoStaleEntries(fs) && |path| <= 255 && Reachable(fs, path)
    requires Redirect(fs, Some(path), TO_FILE, 1).1
    ensures var r := Redirect(fs, Some(path), TO_FILE, 1).0;
            Walkable(r) && NoStaleEntries(r) && Resolve(r, path) == r.fds[1].inode >= 0
  {
    RedirectTarget(fs, path, TO_FILE, 1);
    OpenKeepsLive(fs, path, TO_FILE);
    hide FsOk, Redirect, Resolve, SameFiles, SameDirs, NoStaleEntries, CanAdd;
    var r := Redirect(fs, Some(path), TO_FILE, 1).0;
    var g := Open(fs, path, TO_FILE).0;
    OkIsWalkable(r);
    SameFilesSameDirs(g, r);
    SameDirsKeepLive(g, r);
    if Resolve(fs, path) >= 0 { TruncationKeepsResolve(fs, path); }
        else { CreationLeads(fs, path); SameDirsSameResolve(g, r, path); }
  }

  // --- the pipe -----------------------------------------------------------------------------------------------------

  /** A command that runs with standard output in the file and no other redirection. */
  predicate IntoFile(c: Command, path: Str) { c.argv != [] && c.input.None? && c.output == Some(path) }

  predicate FromFile(c: Command, path: Str) { c.argv != [] && c.input == Some(path) && c.output.None? }

  /** The file system in which the child of a command starts. */
  ghost function Started(fs: Fs, c: Command): (r: Fs)
    requires FsOk(fs)
    ensures FsOk(r)
  {
    Redirected(Saved(fs), c).0
  }

  /** The file that descriptor fd names. */
  function FileOf(r: Fs, fd: nat): nat
    requires fd < MAX_FD
  {
    if r.fds[fd].inode >= 0 then r.fds[fd].inode else 0
  }

  /** The file system after a command whose child makes these calls. */
  ghost function Finished(fs: Fs, c: Command, child: seq<Call>): (g: Fs)
    requires FsOk(fs)
    ensures FsOk(g)
  {
    Restored(Effects(Started(fs, c), child), SavedIn(fs), SavedOut(fs))
  }

  /**
   The left command starts, and its child, from the calls by which exec reads the program to its last, gives back the
   descriptors that it takes and writes the pipe's file through its standard output only.
   */
  ghost predicate LeftRuns(fs: Fs, left: Command, child: seq<Call>)
    requires FsOk(fs)
  {
    var (r, ok) := Redirected(Saved(fs), left);
    ok && Tidy(r, child, {}) && WritesThrough(r, child, 1, FileOf(r, 1))
  }

  /** The calls by which exec reads a program. */
  function ExecCalls(program: Str, f: nat, size: nat): seq<Call> { [OpenFile(program, O_RDONLY), ReadFd(f, size),
      CloseFd(f)] }

  /** They are among what a child may do: they touch no file and give back the descriptor. */
  lemma ExecIsAllowed(r: Fs, program: Str, f: nat, size: nat, rest: seq<Call>, i: nat)
    requires FsOk(r) && Walkable(r) && Open(r, program, O_RDONLY).1 == f
    requires var g := Effects(r, ExecCalls(program, f, size)); Tidy(g, rest, {}) && WritesThrough(g, rest, 1, i)
    ensures Tidy(r, ExecCalls(program, f, size) + rest, {})
            && WritesThrough(r, ExecCalls(program, f, size) + rest, 1, i)
  {
    hide FsOk, Open, Effect;
    OpenFds(r, program, O_RDONLY);
    var calls := ExecCalls(program, f, size);
    var a, b, c := Effect(r, calls[0]), Effect(Effect(r, calls[0]), calls[1]), Effects(r, calls);
    var last := calls[1..][1..];
    assert last[0] == calls[2] && last[1..] == [];
    assert Effects(b, last) == Effect(b, calls[2]);
    assert c == Effects(a, calls[1..]) == Effects(b, last);
    var all := calls + rest;
    assert all[1..][1..][1..] == rest && all[1..][1..][0] == calls[2] && all[1..][0] == calls[1];
    assert Opens(r, calls[0]) == f && OwnAfter(r, calls[0], {}) == {} + {f} == {f};
    assert OwnAfter(a, calls[1], {f}) == {f};
    assert OwnAfter(b, calls[2], {f}) == {f} - {f} == {};
    assert !Has(O_RDONLY, O_TRUNC);
    assert Tidy(b, all[1..][1..], {f}) && WritesThrough(b, all[1..][1..], 1, i);
    assert Tidy(a, all[1..], {f}) && WritesThrough(a, all[1..], 1, i);
  }

  /** The same for the right child, whose standard input they leave alone. */
  lemma ExecIsAllowedRight(r: Fs, program: Str, f: nat, size: nat, rest: seq<Call>, i: nat)
    requires FsOk(r) && Walkable(r) && Open(r, program, O_RDONLY).1 == f
    requires ReadsThrough(Effects(r, ExecCalls(program, f, size)), rest, 0, i)
    ensures ReadsThrough(r, ExecCalls(program, f, size) + rest, 0, i)
  {
    hide FsOk, Open, Effect;
    OpenFds(r, program, O_RDONLY);
    var calls := ExecCalls(program, f, size);
    var a, b := Effect(r, calls[0]), Effect(Effect(r, calls[0]), calls[1]);
    var last := calls[1..][1..];
    assert last[0] == calls[2] && last[1..] == [];
    assert Effects(b, last) == Effect(b, calls[2]);
    assert Effects(r, calls) == Effects(a, calls[1..]) == Effects(b, last);
    var all := calls + rest;
    assert all[1..][1..][1..] == rest && all[1..][1..][0] == calls[2] && all[1..][0] == calls[1];
    assert !Has(O_RDONLY, O_TRUNC);
    assert ReadsThrough(b, all[1..][1..], 0, i);
    assert ReadsThrough(a, all[1..], 0, i);
  }

  /** When the left child is done the path leads to the file it wrote. */
  ghost predicate Leads(fs: Fs, left: Command, child: seq<Call>, path: Str)
    requires FsOk(fs)
  {
    var w := Effects(Started(fs, left), child);
    OkIsWalkable(w);
    Resolve(w, path) == FileOf(Started(fs, left), 1)
  }

  lemma NoRedirect(fs: Fs, flags: nat, target: nat)
    requires FsOk(fs) && target < MAX_FD
    ensures Redirect(fs, None, flags, target) == (fs, true)
  {
  }

  /** It does where no unlink is involved and the path could be opened. */
  lemma PathLeads(fs: Fs, left: Command, child: seq<Call>, path: Str)
    requires FsOk(fs) && Walkable(fs) && NoStaleEntries(fs) && |path| <= 255 && Reachable(fs, path)
    requires IntoFile(left, path) && Redirected(Saved(fs), left).1 && NoRemove(child)
    ensures Leads(fs, left, child, path)
  {
    hide FsOk, Saved, Resolve, Redirect, Effects, NoStaleEntries, SameFiles, CanAdd;
    var s := Saved(fs);
    OkIsWalkable(s);
    SavedFiles(fs);
    SameFilesSameDirs(fs, s);
    SameDirsKeepLive(fs, s);
    SameDirsSameResolve(fs, s, path);
    SameDirsSameResolve(fs, s, ParentPath(path));
    if Resolve(fs, ParentPath(path)) >= 0 { SameFilesSameRoom(fs, s, Resolve(fs, ParentPath(path))); }
    NoRedirect(s, O_RDONLY, 0);
    assert Redirected(s, left) == Redirect(s, Some(path), TO_FILE, 1);
    RedirectLeads(s, path);
    RunKeepsResolve(Started(fs, left), child, path);
  }

  /**
   What the left child writes fits the 64 KiB of a file, and there is data space for the pipe's file when the first
   bytes come.
   */
  ghost predicate Fits(fs: Fs, left: Command, child: seq<Call>)
    requires FsOk(fs)
  {
    |Offered(child, 1)| <= 0x1_0000 && Space(Started(fs, left), child, 1)
  }

  /** There is, if enough is left before the command: for one file, one directory and what the child claims before. */
  lemma RoomBefore(fs: Fs, left: Command, child: seq<Call>, path: Str)
    requires FsOk(fs) && IntoFile(left, path) && Redirected(Saved(fs), left).1
    requires fs.next + DIR_SIZE + Claims(child, 1) + MAX_FILE_SIZE <= DATA_BUF_SIZE
    ensures Space(Started(fs, left), child, 1)
  {
    hide FsOk, Saved, Redirect, Open;
    var s := Saved(fs);
    OkIsWalkable(s);
    SavedFiles(fs);
    NoRedirect(s, O_RDONLY, 0);
    assert Redirected(s, left) == Redirect(s, Some(path), TO_FILE, 1);
    RedirectTarget(s, path, TO_FILE, 1);
    OpenCosts(s, path, TO_FILE);
    RoomMakesSpace(Started(fs, left), child, 1);
  }

  lemma ContentsOfEmpty(fs: Fs, i: nat)
    requires i < MAX_INODES && Placed(fs.inodes[i]) && fs.inodes[i].size == 0
    ensures Contents(fs, i) == []
  {
  }

  /** The left command leaves its output in the file, and the descriptors as they were. */
  lemma LeftFillsFile(fs: Fs, left: Command, child: seq<Call>, path: Str)
    requires FsOk(fs) && SpareFds(fs) && IntoFile(left, path) && LeftRuns(fs, left, child)
             && Leads(fs, left, child, path)
    ensures var g := Finished(fs, left, child);
            Walkable(g) && AsFound(fs, g) &&
            var i := Resolve(g, path);
            i >= 0 && g.inodes[i].kind.File? && Contents(g, i) == BytesOut(Started(fs, left), child, 1)
    ensures |BytesOut(Started(fs, left), child, 1)| <= |Offered(child, 1)|
    ensures BytesOut(Started(fs, left), child, 1) == Offered(child, 1) <==> Fits(fs, left, child)
  {
    hide FsOk, Saved, Restored, Contents, AsFound, SpareFds, Resolve, Redirect, Tidy, Effects, WritesThrough, BytesOut,
         Offered, Space;
    var s := Saved(fs);
    OkIsWalkable(s);
    var r := Redirected(s, left).0;
    NoRedirect(s, O_RDONLY, 0);
    assert Redirected(s, left) == Redirect(s, Some(path), TO_FILE, 1);
    OutputIsEmpty(s, path);
    var i := FileOf(r, 1);
    OutputIsAppended(r, child, 1, i);
    AllArrives(r, child, 1, i);
    ContentsOfEmpty(r, i);
    assert [] + BytesOut(r, child, 1) == BytesOut(r, child, 1);
    var w := Effects(r, child);
    CommandIsClean(fs, left, true, child);
    var g := Finished(fs, left, child);
    RestoredFiles(w, SavedIn(fs), SavedOut(fs));
    OkIsWalkable(g);
    SameFilesSameDirs(w, g);
    SameDirsSameResolve(w, g, path);
    SameInode(w, g, i);
  }

  /** The right child leaves the pipe's file and the offset of its standard input to its reads. */
  ghost predicate RightRuns(fs: Fs, right: Command, child: seq<Call>)
    requires FsOk(fs)
  {
    ReadsThrough(Started(fs, right), child, 0, FileOf(Started(fs, right), 0))
  }

  /** What a read through fd would return. */
  ghost function NextRead(fs: Fs, fd: nat, count: nat): seq<Byte>
    requires FsOk(fs)
  {
    OkIsWalkable(fs);
    if InodeFd(fs, fd) then Available(fs, fd, count) else []
  }

  /**
   The child of `right` starts, and its reads of standard input return these bytes, as many as they ask for; when they
   have asked for all of them the next read returns nothing.
   */
  ghost predicate Delivers(fs: Fs, right: Command, child: seq<Call>, bytes: seq<Byte>)
    requires FsOk(fs)
  {
    var (r, ok) := Redirected(Saved(fs), right);
    && ok && BytesIn(r, child, 0) == bytes[..UpTo(0, Asked(child, 0), |bytes|)]
    && (Asked(child, 0) >= |bytes| ==> forall more :: NextRead(Effects(r, child), 0, more) == [])
  }

  lemma ReadToEnd(r: Fs, child: seq<Call>, i: nat, bytes: seq<Byte>)
    requires Reader(r, 0, i) && r.fds[0].offset == 0 && Contents(r, i) == bytes && ReadsThrough(r, child, 0, i)
    ensures BytesIn(r, child, 0) == bytes[..UpTo(0, Asked(child, 0), |bytes|)]
    ensures Asked(child, 0) >= |bytes| ==> forall more :: NextRead(Effects(r, child), 0, more) == []
  {
    hide FsOk, Contents, ReadsThrough, BytesIn, Effects;
    InputIsSlice(r, child, 0, i);
    assert bytes[0..UpTo(0, Asked(child, 0), |bytes|)] == bytes[..UpTo(0, Asked(child, 0), |bytes|)];
  }

  lemma RedirectTakesFd(fs: Fs, path: Str)
    requires FsOk(fs) && Walkable(fs) && Redirect(fs, Some(path), TO_FILE, 1).1
    ensures exists f :: 3 <= f < MAX_FD && !fs.fds[f].valid
  {
    OpenFds(fs, path, TO_FILE);
  }

  /** There is still a descriptor for the right command's redirection. */
  lemma FreeFdRemains(fs: Fs, h: Fs, left: Command, path: Str)
    requires FsOk(fs) && FsOk(h) && AsFound(fs, h) && IntoFile(left, path) && Redirected(Saved(fs), left).1
    ensures FirstFreeFd(Saved(h).fds, 3) >= 0
  {
    hide FsOk, Saved, Redirect;
    var s := Saved(fs);
    OkIsWalkable(s);
    NoRedirect(s, O_RDONLY, 0);
    RedirectTakesFd(s, path);
    var f :| 3 <= f < MAX_FD && !s.fds[f].valid;
    assert FdAsFound(fs, h, f) && FdAsFound(fs, h, 0) && FdAsFound(fs, h, 1);
    SavedTable(fs, f);
    SavedTable(h, f);
    assert !Saved(h).fds[f].valid;
  }

  /** Reads that ask for as much as was offered return all of it if and only if all of it arrived. */
  lemma AllOrLess(got: seq<Byte>, sent: seq<Byte>, offered: seq<Byte>, asked: nat)
    requires got == sent[..UpTo(0, asked, |sent|)] && |sent| <= |offered| <= asked
    ensures got == offered <==> sent == offered
  {
    assert sent[..|sent|] == sent;
  }

  /**
   left | right.  Whatever the left child does besides, the right child, whatever it does besides, reads from its
   standard input what the writes of the left one to its standard output put there.  Asking for enough, it gets all that
   the left one wrote if and only if that fits.
   */
  lemma PipelineDelivers(fs: Fs, left: Command, lc: seq<Call>, right: Command, rc: seq<Call>, path: Str)
    requires FsOk(fs) && SpareFds(fs) && IntoFile(left, path) && FromFile(right, path)
    requires LeftRuns(fs, left, lc) && Leads(fs, left, lc, path)
    requires RightRuns(Finished(fs, left, lc), right, rc)
    ensures Delivers(Finished(fs, left, lc), right, rc, BytesOut(Started(fs, left), lc, 1))
    ensures Fits(fs, left, lc) ==> Delivers(Finished(fs, left, lc), right, rc, Offered(lc, 1))
    ensures Asked(rc, 0) >= |Offered(lc, 1)| ==>
              (BytesIn(Started(Finished(fs, left, lc), right), rc, 0) == Offered(lc, 1) <==> Fits(fs, left, lc))
  {
    hide FsOk, Saved, Contents, Resolve, Redirect, Finished, SpareFds, Available, ReadsThrough, BytesIn, Effects,
         BytesOut, Offered, Fits, Asked, NextRead;
    var h := Finished(fs, left, lc);
    LeftFillsFile(fs, left, lc, path);
    var i := Resolve(h, path);
    var s := Saved(h);
    SavedFiles(h);
    OkIsWalkable(s);
    SameFilesSameDirs(h, s);
    SameDirsSameResolve(h, s, path);
    FreeFdRemains(fs, h, left, path);
    InputIsFile(s, path, i);
    var r := Redirect(s, Some(path), O_RDONLY, 0).0;
    NoRedirect(r, TO_FILE, 1);
    assert Redirected(s, right) == (r, true);
    ReadToEnd(r, rc, i, BytesOut(Started(fs, left), lc, 1));
    if Asked(rc, 0) >= |Offered(lc, 1)| {
      AllOrLess(BytesIn(r, rc, 0), BytesOut(Started(fs, left), lc, 1), Offered(lc, 1), Asked(rc, 0));
    }
  }

  /** A half of a pipe with a redirection of neither kind, and room for one. */
  ghost predicate Plain(c: Command) {
    c.argv != [] && |c.argv| < MAX_WORDS && c.input.None? && c.output.None? && c.pending.Nothing?
  }

  lemma HalfOfPipe(line: Str, out: bool)
    requires Plain(Parse(line))
    ensures var whole := if out then LeftHalf(line) else RightHalf(line);
            && Parse(whole).argv != []
            && Meant(whole) == (if out then Parse(line).(output := Some(PIPE)) else Parse(line).(input := Some(PIPE)))
  {
    hide Parse;
    AppendedRedirection(line, out, PIPE);
  }

  lemma SomeWord(line: Str)
    requires Parse(line).argv != []
    ensures Tokens(line, SPACE) != []
  {
  }

  lemma RanIsFinished(fs: Fs, line: Str, child: seq<Call>)
    requires FsOk(fs) && Parse(line).argv != [] && Redirected(Saved(fs), Meant(line)).1
    ensures Ran(fs, line, true, child) == Finished(fs, Meant(line), child)
  {
    hide FsOk, Redirected, Saved, Restored, Effects;
    SomeWord(line);
  }

  /** The same for the line as it was typed: l | r. */
  lemma PipeLineDelivers(fs: Fs, l: Str, lc: seq<Call>, r: Str, rc: seq<Call>)
    requires FsOk(fs) && SpareFds(fs) && Plain(Parse(l)) && Plain(Parse(r))
    requires LeftRuns(fs, Meant(LeftHalf(l)), lc) && Leads(fs, Meant(LeftHalf(l)), lc, PIPE)
    requires RightRuns(Ran(fs, LeftHalf(l), true, lc), Meant(RightHalf(r)), rc)
    ensures var h := Ran(fs, LeftHalf(l), true, lc);
            AsFound(fs, h) && Delivers(h, Meant(RightHalf(r)), rc, BytesOut(Started(fs, Meant(LeftHalf(l))), lc, 1))
    ensures Fits(fs, Meant(LeftHalf(l)), lc) ==>
              Delivers(Ran(fs, LeftHalf(l), true, lc), Meant(RightHalf(r)), rc, Offered(lc, 1))
    ensures Asked(rc, 0) >= |Offered(lc, 1)| ==>
              (BytesIn(Started(Ran(fs, LeftHalf(l), true, lc), Meant(RightHalf(r))), rc, 0) == Offered(lc, 1) <==>
               Fits(fs, Meant(LeftHalf(l)), lc))
  {
    hide FsOk, SpareFds, AsFound, Parse, Tidy, WritesThrough, Redirected, Saved, Leads, RightRuns, Finished, Ran,
         Delivers, BytesOut, Started, Fits, Offered, Asked, BytesIn;
    HalfOfPipe(l, true);
    HalfOfPipe(r, false);
    RanIsFinished(fs, LeftHalf(l), lc);
    LeftFillsFile(fs, Meant(LeftHalf(l)), lc, PIPE);
    PipelineDelivers(fs, Meant(LeftHalf(l)), lc, Meant(RightHalf(r)), rc, PIPE);
  }
}
