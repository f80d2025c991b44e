/**
 execute_command of kernel.c over the kernel's file system, and the child it starts as the run of file-system calls that
 it makes.
 */
module Shell {
  import opened Options
  import opened CStrings
  import opened FsModel
  import opened FsFacts
  import opened FsRuns
  import opened FileSystem
  import opened ShellModel

  // --- the child ---------------------------------------------------------------------------------------------------

  /** The descriptor that a call opens, or -1. */
  ghost function Opens(fs: Fs, call: Call): (f: int)
    requires FsOk(fs)
  {
    OkIsWalkable(fs);
    if call.OpenFile? then Open(fs, call.path, call.flags).1
    else if call.OpenDirectory? then OpenDir(fs, call.path).1
    else -1
  }

  /** Does the call keep to 0, 1, 2 and the descriptors that the child itself opened? */
  predicate Polite(call: Call, own: set<int>) {
    match call
    case CloseFd(fd) => fd in own
    case DupFd(_, _) => false
    case ReadFd(fd, _) => 0 <= fd < 3 || fd in own
    case WriteFd(fd, _) => 0 <= fd < 3 || fd in own
    case SeekFd(fd, _, _) => 0 <= fd < 3 || fd in own
    case ReadDirectory(fd) => 0 <= fd < 3 || fd in own
    case _ => true
  }

  ghost function OwnAfter(fs: Fs, call: Call, own: set<int>): set<int>
    requires FsOk(fs)
  {
    if call.CloseFd? then own - {call.fd} else if Opens(fs, call) >= 0 then own + {Opens(fs, call)} else own
  }

  /** A tidy child is polite throughout and closes what it opened. */
  ghost predicate Tidy(fs: Fs, calls: seq<Call>, own: set<int>)
    requires FsOk(fs)
    decreases |calls|
  {
    if calls == [] then own == {}
    else Polite(calls[0], own) && Tidy(Effect(fs, calls[0]), calls[1..], OwnAfter(fs, calls[0], own))
  }

  /** From fs to g nothing happened to descriptors outside `own`, beyond the offsets of 0, 1 and 2. */
  ghost predicate Borrowed(fs: Fs, g: Fs, own: set<int>) {
    && FsOk(g)
    && (forall f :: f in own ==> 3 <= f < MAX_FD && !fs.fds[f].valid)
    && (forall f :: 0 <= f < MAX_FD && f !in own ==> fs.fds[f].valid == g.fds[f].valid)
    && (forall f :: 0 <= f < MAX_FD && fs.fds[f].valid ==> fs.fds[f].inode == g.fds[f].inode)
    && (forall f :: 3 <= f < MAX_FD && fs.fds[f].valid ==> fs.fds[f] == g.fds[f])
  }

  lemma OffsetMoved(fs: Fs, g: Fs, fd: nat, own: set<int>)
    requires fd < MAX_FD && (fd < 3 || fd in own)
    requires g == fs || g.fds == fs.fds[fd := fs.fds[fd].(offset := g.fds[fd].offset)]
    ensures exists d, o :: 0 <= d < MAX_FD && (d < 3 || d in own) && g.fds == fs.fds[d := fs.fds[d].(offset := o)]
  {
    assert g.fds == fs.fds[fd := fs.fds[fd].(offset := g.fds[fd].offset)];
  }

  /** What a polite call does to the fd table: it opens or closes one of the child's own, or moves an offset. */
  lemma EffectFds(fs: Fs, call: Call, own: set<int>)
    requires FsOk(fs) && Polite(call, own)
    ensures var g := Effect(fs, call);
            var f := Opens(fs, call);
            || (f >= 0 && f < MAX_FD && f >= 3 && !fs.fds[f].valid
               && exists i, flags :: g.fds == fs.fds[f := Fd(i, 0, flags, true)])
            || (f < 0 && g.fds == fs.fds)
            || (f < 0 && call.CloseFd? && 0 <= call.fd < MAX_FD
               && g.fds == fs.fds[call.fd := fs.fds[call.fd].(valid := false)])
            || (f < 0 && !call.CloseFd?
                && exists d, o ::
                     0 <= d < MAX_FD && (d < 3 || d in own) && g.fds == fs.fds[d := fs.fds[d].(offset := o)])
  {
    hide FsOk, Resolve, DirAdd, Open, OpenDir, DirLookup, Available, NextLive;
    OkIsWalkable(fs);
    match call
    case OpenFile(path, flags) => OpenFds(fs, path, flags);
    case MakeDir(path) => MkdirFds(fs, path);
    case OpenDirectory(path) => OpenDirFds(fs, path);
    case ReadDirectory(fd) => if InodeFd(fs, fd) { OffsetMoved(fs, Effect(fs, call), fd, own); }
    case ReadFd(fd, count) => if InodeFd(fs, fd) { OffsetMoved(fs, Effect(fs, call), fd, own); }
    case WriteFd(fd, buf) => if InodeFd(fs, fd) { OffsetMoved(fs, Effect(fs, call), fd, own); }
    case SeekFd(fd, offset, whence) => if InodeFd(fs, fd) { OffsetMoved(fs, Effect(fs, call), fd, own); }
    case _ =>
  }

  lemma BorrowedOpened(fs: Fs, g: Fs, h: Fs, own: set<int>, f: int, i: int, flags: nat)
    requires Borrowed(fs, g, own) && FsOk(h) && 3 <= f < MAX_FD && !g.fds[f].valid
    requires h.fds == g.fds[f := Fd(i, 0, flags, true)]
    ensures Borrowed(fs, h, own + {f})
  {
    hide FsOk;
  }

  lemma BorrowedMoved(fs: Fs, g: Fs, h: Fs, own: set<int>, d: int, o: nat)
    requires Borrowed(fs, g, own) && FsOk(h) && 0 <= d < MAX_FD && (d < 3 || d in own)
    requires h.fds == g.fds[d := g.fds[d].(offset := o)]
    ensures Borrowed(fs, h, own)
  {
    hide FsOk;
  }

  lemma BorrowedClosed(fs: Fs, g: Fs, h: Fs, own: set<int>, d: int)
    requires Borrowed(fs, g, own) && FsOk(h) && 0 <= d < MAX_FD && d in own
    requires h.fds == g.fds[d := g.fds[d].(valid := false)] || (h.fds == g.fds && !g.fds[d].valid)
    ensures Borrowed(fs, h, own - {d})
  {
    hide FsOk;
  }

  lemma BorrowedStep(fs: Fs, g: Fs, call: Call, own: set<int>)
    requires Borrowed(fs, g, own) && Polite(call, own)
    ensures Borrowed(fs, Effect(g, call), OwnAfter(g, call, own))
  {
    var h, f := Effect(g, call), Opens(g, call);
    EffectFds(g, call, own);
    assert call.CloseFd? ==> call.fd in own && 3 <= call.fd < MAX_FD && !h.fds[call.fd].valid;
    hide FsOk, Effect, Opens, Borrowed;
    if f >= 0 {
      var i, flags :| h.fds == g.fds[f := Fd(i, 0, flags, true)];
      BorrowedOpened(fs, g, h, own, f, i, flags);
    } else if call.CloseFd? {
      BorrowedClosed(fs, g, h, own, call.fd);
    } else if h.fds != g.fds {
      var d, o :| 0 <= d < MAX_FD && (d < 3 || d in own) && h.fds == g.fds[d := g.fds[d].(offset := o)];
      BorrowedMoved(fs, g, h, own, d, o);
    }
  }

  /** A tidy child is neutral, whatever it reads, writes, creates, removes or truncates. */
  lemma {:induction false} TidyIsNeutral(fs: Fs, g: Fs, calls: seq<Call>, own: set<int>)
    requires Borrowed(fs, g, own) && Tidy(g, calls, own)
    ensures Neutral(fs, Effects(g, calls))
    decreases |calls|
  {
    hide FsOk, Effect;
    if calls != [] {
      BorrowedStep(fs, g, calls[0], own);
      TidyIsNeutral(fs, Effect(g, calls[0]), calls[1..], OwnAfter(g, calls[0], own));
    }
  }

  // --- execute_command -----------------------------------------------------------------------------------------------

  /** The words of the line that count, without a redirection left open at its end. */
  ghost function Meant(line: Str): Command { Parse(line).(pending := Nothing) }

  /** What a command line does when the child makes these calls. */
  ghost function Ran(fs: Fs, line: Str, forked: bool, child: seq<Call>): (g: Fs)
    requires FsOk(fs)
    ensures FsOk(g)
  {
    if Tokens(line, SPACE) == [] then fs
    else
      var (r, ok) := Redirected(Saved(fs), Meant(line));
      Restored(if ok && forked then Effects(r, child) else r, SavedIn(fs), SavedOut(fs))
  }

  /** If the child runs, it is tidy. */
  ghost predicate TidyRun(fs: Fs, line: Str, forked: bool, child: seq<Call>)
    requires FsOk(fs)
  {
    var (r, ok) := Redirected(Saved(fs), Meant(line));
    ok && forked ==> Tidy(r, child, {})
  }

  ghost function Ahead(token: Option<Str>, rest: Str): seq<Str> {
    (if token.Some? then [token.value] else []) + Tokens(rest, SPACE)
  }

  lemma WordAhead(rest: Str)
    requires rest == [] || rest[0] != SPACE
    ensures Tokens(rest, SPACE) == [] <==> rest == []
  {
  }

  /** With a tidy child, or none. */
  lemma CommandIsClean(fs: Fs, c: Command, forked: bool, child: seq<Call>)
    requires FsOk(fs)
    ensures var (r, ok) := Redirected(Saved(fs), c);
            (ok && forked ==> Tidy(r, child, {})) ==> (
              AsFound(fs, Restored(if ok && forked then Effects(r, child) else r, SavedIn(fs), SavedOut(fs))) <==>
                  SpareFds(fs))
  {
    hide FsOk, Saved, Redirected, Restored, AsFound, SpareFds, Tidy;
    var (r, ok) := Redirected(Saved(fs), c);
    if ok && forked ==> Tidy(r, child, {}) {
      if ok && forked { TidyIsNeutral(r, r, child, {}); }
      CommandLeavesDescriptors(fs, c, if ok && forked then Effects(r, child) else r);
    }
  }

  /** "/bin/" */
  const BIN: Str := [47, 98, 105, 110, 47]

  /** What the child is to exec: exec_path and exec_argv. */
  datatype Program = Program(path: Str, argv: seq<Str>)

  /** The program of the line: its first word, under /bin/ unless that begins with a slash or a dot. */
  predicate IsProgramOf(p: Program, line: Str) {
    && p.argv == Parse(line).argv && p.argv != []
    && var name := p.argv[0];
       p.path == if name != [] && name[0] in {47, 46} then name else [47, 98, 105, 110, 47] + name
  }

  /** The line has a command and its redirections can be opened. */
  ghost predicate Starts(fs: Fs, line: Str)
    requires FsOk(fs)
  {
    Tokens(line, SPACE) != [] && Redirected(Saved(fs), Meant(line)).1
  }

  class Shell {
    const fs: FileSystem

    constructor (fs: FileSystem)
      ensures this.fs == fs
    {
      this.fs := fs;
    }

    /** strtok(NULL, " ") as a string, None for NULL. */
    method NextWord(tok: Tokenizer) returns (w: Option<Str>)
      requires tok.Valid()
      modifies tok, tok.buf
      ensures tok.Valid()
      ensures Tokens(old(tok.rest), SPACE) == (if w.Some? then [w.value] else []) + Tokens(tok.rest, SPACE)
      ensures w.None? ==> Tokens(tok.rest, SPACE) == []
    {
      ghost var token;
      var t;
      t, token := tok.Strtok(SPACE);
      if t == -1 { return None; }
      var s := fs.ReadToken(tok.buf, t, token);
      return Some(s);
    }

    /** The loop over the words of the line. */
    method ReadCommand(tok: Tokenizer) returns (c: Command)
      requires tok.Valid()
      modifies tok, tok.buf
      ensures c == Words(NoCommand, Tokens(old(tok.rest), SPACE)).(pending := Nothing)
    {
      ghost var all := Tokens(tok.rest, SPACE);
      c := NoCommand;
      var token := NextWord(tok);
      while token.Some? && |c.argv| < MAX_WORDS
        invariant tok.Valid() && c.pending.Nothing?
        invariant token.None? ==> Tokens(tok.rest, SPACE) == []
        invariant Words(c, Ahead(token, tok.rest)).(pending := Nothing) == Words(NoCommand, all).(pending := Nothing)
        decreases |Ahead(token, tok.rest)|
      {
        ghost var ahead := Ahead(token, tok.rest);
        assert ahead[0] == token.value && ahead[1..] == Tokens(tok.rest, SPACE);
        if token.value == LESS {
          token := NextWord(tok);
          if token.Some? { c := c.(input := token); }
        } else if token.value == GREATER {
          token := NextWord(tok);
          if token.Some? { c := c.(output := token); }
        } else {
          c := c.(argv := c.argv + [token.value]);
        }
        token := NextWord(tok);
      }
      if token.Some? { WordsWhenFull(c, Ahead(token, tok.rest)); }
    }

    method DoClose(fd: int)
      requires fs.Valid()
      modifies fs.inodes, fs.fds
      ensures fs.Valid() && fs.View() == Close(old(fs.View()), fd)
    {
      hide FsOk, Walkable;
      var _ := fs.Close(fd);
    }

    method DoDup2(oldfd: int, newfd: nat) returns (r: int)
      requires fs.Valid() && newfd < MAX_FD
      modifies fs.inodes, fs.fds
      ensures fs.Valid() && fs.View() == Dup2(old(fs.View()), oldfd, newfd)
      ensures r == if ValidFd(old(fs.View()), oldfd) then newfd else -1
    {
      hide FsOk, Walkable;
      r := fs.Dup2(oldfd, newfd);
    }

    /** One call; reads of a terminal that has nothing more to give, or of its directory, are passed over. */
    method Do(call: Call)
      requires fs.Valid()
      modifies fs, fs.inodes, fs.data, fs.fds
      ensures fs.Valid() && fs.View() == Effect(old(fs.View()), call)
    {
      hide FsOk, Walkable, Resolve, Open, OpenDir, Mkdir, Unlink, Close, Dup2, NextLive;
      match call
      case OpenFile(path, flags) => var _ := fs.Open(path, flags);
      case CloseFd(fd) => DoClose(fd);
      case DupFd(oldfd, newfd) => if 0 <= newfd < MAX_FD { var _ := DoDup2(oldfd, newfd); }
      case ReadFd(fd, count) =>
        if fd < 0 || fd >= MAX_FD || fs.fds[fd].inode != TERMINAL || fs.terminalIn != [] {
          var _, _ := fs.Read(fd, count);
        }
      case WriteFd(fd, buf) => var _ := fs.Write(fd, buf);
      case SeekFd(fd, offset, whence) => var _ := fs.Lseek(fd, offset, whence);
      case MakeDir(path) => var _ := fs.Mkdir(path);
      case Remove(path) => var _ := fs.Unlink(path);
      case OpenDirectory(path) => var _ := fs.OpenDir(path);
      case ReadDirectory(fd) =>
        if fd < 0 || fd >= MAX_FD || fs.fds[fd].inode != TERMINAL {
          var _, _ := fs.Readdir(fd);
        }
    }

    /** A run of the child. */
    method RunChild(calls: seq<Call>)
      requires fs.Valid()
      modifies fs, fs.inodes, fs.data, fs.fds
      ensures fs.Valid() && fs.View() == Effects(old(fs.View()), calls)
    {
      hide FsOk, Walkable, Effect;
      var k := 0;
      while k < |calls|
        invariant k <= |calls| && fs.Valid() && Effects(fs.View(), calls[k..]) == Effects(old(fs.View()), calls)
      {
        assert calls[k..][0] == calls[k] && calls[k..][1..] == calls[k + 1..];
        Do(calls[k]);
        k := k + 1;
      }
    }

    /** Opens a redirection's file and puts it in place of `target`. */
    method DoRedirect(path: Option<Str>, flags: nat, target: nat) returns (ok: bool)
      requires fs.Valid() && target < MAX_FD
      modifies fs, fs.inodes, fs.data, fs.fds
      ensures fs.Valid() && (fs.View(), ok) == Redirect(old(fs.View()), path, flags, target)
    {
      hide FsOk, Walkable, Close, Dup2;
      if path.None? { return true; }
      var fd := fs.Open(path.value, flags);
      if fd < 0 { return false; }
      var _ := DoDup2(fd, target);
      DoClose(fd);
      return true;
    }

    method Save() returns (savedIn: nat, savedOut: nat)
      requires fs.Valid()
      modifies fs.inodes, fs.fds
      ensures fs.Valid() && fs.View() == Saved(old(fs.View()))
      ensures savedIn == SavedIn(old(fs.View())) && savedOut == SavedOut(old(fs.View()))
    {
      hide FsOk, Walkable;
      var in_ := DoDup2(0, SAVED_IN);
      var out := DoDup2(1, SAVED_OUT);
      savedIn := if in_ < 0 then 0 else in_;
      savedOut := if out < 0 then 1 else out;
    }

    method RedirectBoth(c: Command) returns (ok: bool)
      requires fs.Valid()
      modifies fs, fs.inodes, fs.data, fs.fds
      ensures fs.Valid() && (fs.View(), ok) == Redirected(old(fs.View()), c)
    {
      hide FsOk, Walkable, Redirect;
      if |c.argv| == 0 { return false; }
      ok := DoRedirect(c.input, O_RDONLY, 0);
      if !ok { return; }
      ok := DoRedirect(c.output, O_RDWR + O_CREAT + O_TRUNC, 1);
    }

    method Restore(savedIn: nat, savedOut: nat)
      requires fs.Valid()
      modifies fs.inodes, fs.fds
      ensures fs.Valid() && fs.View() == Restored(old(fs.View()), savedIn, savedOut)
    {
      hide FsOk, Walkable, Close, Dup2;
      var _ := DoDup2(savedIn, 0);
      DoClose(savedIn);
      var _ := DoDup2(savedOut, 1);
      DoClose(savedOut);
    }

    /**
     execute_command.  `forked` says whether fork had a slot; `child` is what the child calls until it exits, among it
     the calls by which exec reads the program.  Its parent waits for it, so they run in between.
     */
    method ExecuteCommand(line: Str, forked: bool, child: seq<Call>) returns (run: Option<Program>)
      requires fs.Valid()
      modifies fs, fs.inodes, fs.data, fs.fds
      ensures fs.Valid()
      ensures fs.View() == Ran(old(fs.View()), line, forked, child)
      ensures Tokens(line, SPACE) != [] && TidyRun(old(fs.View()), line, forked, child) ==>
                (AsFound(old(fs.View()), fs.View()) <==> SpareFds(old(fs.View())))
      ensures run.Some? <==> Starts(old(fs.View()), line) && forked
      ensures run.Some? ==> IsProgramOf(run.value, line)
    {
      hide FsOk, Walkable, Saved, Redirect, Restored, Dup2, Tidy, AsFound, Tokens, Words, Neutral, SpareFds, Effects,
           SavedIn, SavedOut;
      run := None;
      ghost var a := fs.View();
      var tok := new Tokenizer(line, |line| + 1);
      assert line[..|line|] == line;
      tok.Skip(SPACE);
      WordAhead(tok.rest);
      if tok.buf[tok.ptr] == 0 { return; }
      var savedIn, savedOut := Save();
      var c := ReadCommand(tok);
      var ok := RedirectBoth(c);
      ghost var r := fs.View();
      if ok && forked {
        var path := c.argv[0];
        if path == [] || (path[0] != SLASH && path[0] != DOT) { path := BIN + path; }
        run := Some(Program(path, c.argv));
        RunChild(child);
      }
      CommandIsClean(a, c, forked, child);
      Restore(savedIn, savedOut);
    }

    /**
     One turn of shell_loop: a line, or the two halves of a pipe.  The halves must fit the buffers they are copied to.
     */
    method RunLine(line: Str, forked: (bool, bool), children: (seq<Call>, seq<Call>))
      requires fs.Valid() && |line| < LINE_SIZE
      requires var p := SpanWithout(line, BAR);
               p < |line| ==> |LeftHalf(line[..p])| < LINE_SIZE && |RightHalf(line[p + 1..])| < LINE_SIZE
      modifies fs, fs.inodes, fs.data, fs.fds
      ensures fs.Valid()
      ensures var a, p := old(fs.View()), SpanWithout(line, BAR);
              fs.View() == if p == |line| then Ran(a, line, forked.0, children.0)
                           else Ran(Ran(a, LeftHalf(line[..p]), forked.0, children.0),
                                    RightHalf(line[p + 1..]), forked.1, children.1)
    {
      hide FsOk, Walkable, Ran, TidyRun, AsFound, SpareFds, Tokens;
      var p := 0;
      while p < |line| && line[p] != BAR
        invariant p <= |line| && forall i :: 0 <= i < p ==> line[i] != BAR
      {
        p := p + 1;
      }
      SpanUnique(line, BAR, p);
      if p < |line| {
        var _ := ExecuteCommand(LeftHalf(line[..p]), forked.0, children.0);
        var _ := ExecuteCommand(RightHalf(line[p + 1..]), forked.1, children.1);
      } else {
        var _ := ExecuteCommand(line, forked.0, children.0);
      }
    }
  }
}
