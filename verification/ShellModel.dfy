/**
 execute_command of kernel.c as a value: how a command line is cut up, and what saving, redirecting and restoring the
 standard descriptors does to the shared fd table.
 */
module ShellModel {
  import opened Options
  import opened CStrings
  import opened FsModel
  import opened FsFacts
  import opened FsRuns

  const SPACE: Byte := 32
  const LESS: Str := [60]
  const GREATER: Str := [62]
  const BAR: Byte := 124
  /** "/tmp/pipe" */
  const PIPE: Str := [47, 116, 109, 112, 47, 112, 105, 112, 101]
  const LINE_SIZE: nat := 128
  const MAX_WORDS: nat := 15
  const SAVED_IN: nat := 12
  const SAVED_OUT: nat := 13

  // --- cutting up the line ---------------------------------------------------------------------------------------

  datatype Pending = Nothing | Input | Output

  /** What has been read of a line; `pending` is the redirection whose file name comes next. */
  datatype Command = Command(argv: seq<Str>, input: Option<Str>, output: Option<Str>, pending: Pending)

  const NoCommand: Command := Command([], None, None, Nothing)

  /** One more word of the line. */
  function Word(c: Command, w: Str): Command {
    if c.pending.Input? then c.(input := Some(w), pending := Nothing)
    else if c.pending.Output? then c.(output := Some(w), pending := Nothing)
    else if |c.argv| >= MAX_WORDS then c
    else if w == LESS then c.(pending := Input)
    else if w == GREATER then c.(pending := Output)
    else c.(argv := c.argv + [w])
  }

  function Words(c: Command, ws: seq<Str>): Command
    decreases |ws|
  {
    if ws == [] then c else Words(Word(c, ws[0]), ws[1..])
  }

  function Parse(line: Str): Command { Words(NoCommand, Tokens(line, SPACE)) }

  lemma {:induction false} WordsConcat(c: Command, a: seq<Str>, b: seq<Str>)
    ensures Words(c, a + b) == Words(Words(c, a), b)
    decreases |a|
  {
    if a == [] {
      assert a + b == b;
    } else {
      assert (a + b)[1..] == a[1..] + b;
      WordsConcat(Word(c, a[0]), a[1..], b);
    }
  }

  /** A line with room for no more words stays as it is. */
  lemma {:induction false} WordsWhenFull(c: Command, ws: seq<Str>)
    requires |c.argv| >= MAX_WORDS && c.pending.Nothing?
    ensures Words(c, ws) == c
    decreases |ws|
  {
    if ws != [] { WordsWhenFull(c, ws[1..]); }
  }

  lemma {:induction false} WordsAreFew(c: Command, ws: seq<Str>)
    requires |c.argv| <= MAX_WORDS && (|c.argv| == MAX_WORDS ==> c.pending.Nothing?)
    ensures |Words(c, ws).argv| <= MAX_WORDS && (|Words(c, ws).argv| == MAX_WORDS ==> Words(c, ws).pending.Nothing?)
    decreases |ws|
  {
    if ws != [] { WordsAreFew(Word(c, ws[0]), ws[1..]); }
  }

  /** " > path" */
  function Suffix(mark: Str, path: Str): Str { [SPACE] + mark + [SPACE] + path }

  /** The two lines shell_loop makes of the halves of a pipe. */
  function LeftHalf(half: Str): Str { half + Suffix(GREATER, PIPE) }

  function RightHalf(half: Str): Str { half + Suffix(LESS, PIPE) }

  lemma TwoWords(c: Command, a: Str, b: Str)
    ensures Words(c, [a] + [b]) == Word(Word(c, a), b)
  {
    var two: seq<Str> := [a] + [b];
    var one: seq<Str> := [b];
    assert two[1..] == one && one[1..] == [];
    assert Words(c, two) == Words(Word(c, a), one);
  }

  /** The last two words of a line are taken as a redirection exactly when there is room and none is pending. */
  lemma TakenIffRoom(c: Command, out: bool, path: Str)
    requires path != LESS && path != GREATER && |c.argv| <= MAX_WORDS && (|c.argv| == MAX_WORDS ==> c.pending.Nothing?)
    ensures var d := Word(Word(c, if out then GREATER else LESS), path);
            d == (if out then c.(output := Some(path)) else c.(input := Some(path)))
            <==> if |c.argv| < MAX_WORDS then c.pending.Nothing?
                 else Some(path) == if out then c.output else c.input
  {
    var d := Word(Word(c, if out then GREATER else LESS), path);
    if !c.pending.Nothing? { assert d.argv == c.argv + [path] && |d.argv| > |c.argv|; }
  }

  /**
   shell_loop appends a redirection to the halves of a pipe.  It is the redirection that was meant exactly when the
   half does not itself end in < or > and leaves room among its fifteen words, or is full and already said the same.
   */
  lemma AppendedRedirection(line: Str, out: bool, path: Str)
    requires path != [] && SPACE !in path && path != LESS && path != GREATER
    ensures var c := Parse(line);
            var d := Parse(line + Suffix(if out then GREATER else LESS, path));
            d == (if out then c.(output := Some(path)) else c.(input := Some(path)))
            <==> if |c.argv| < MAX_WORDS then c.pending.Nothing?
                 else Some(path) == if out then c.output else c.input
  {
    var mark := if out then GREATER else LESS;
    var c := Parse(line);
    var rest: Str := mark + [SPACE] + path;
    TokensConcat(line, rest, SPACE);
    assert line + Suffix(mark, path) == line + [SPACE] + rest;
    TokensConcat(mark, path, SPACE);
    OneToken(mark, SPACE);
    OneToken(path, SPACE);
    WordsConcat(NoCommand, Tokens(line, SPACE), [mark] + [path]);
    WordsAreFew(NoCommand, Tokens(line, SPACE));
    hide Tokens, Words, Parse;
    TwoWords(c, mark, path);
    TakenIffRoom(c, out, path);
  }

  // --- save, redirect, restore --------------------------------------------------------------------------------------

  /** fs_dup2(0, 12), fs_dup2(1, 13) */
  ghost function Saved(fs: Fs): (g: Fs)
    requires FsOk(fs)
    ensures FsOk(g)
  {
    Dup2(Dup2(fs, 0, SAVED_IN), 1, SAVED_OUT)
  }

  /** saved_stdin and saved_stdout, as the calls left them in these tables. */
  function SavedIn(fs: Fs): nat { if fs.fds[0].valid then SAVED_IN else 0 }

  function SavedOut(fs: Fs): nat { if fs.fds[1].valid then SAVED_OUT else 1 }

  /** Puts a file in place of descriptor `target`. */
  ghost function Redirect(fs: Fs, path: Option<Str>, flags: nat, target: nat): (r: (Fs, bool))
    requires FsOk(fs) && target < MAX_FD
    ensures FsOk(r.0)
  {
    OkIsWalkable(fs);
    if path.None? then (fs, true)
    else
      var (g, f) := Open(fs, path.value, flags);
      OpenFds(fs, path.value, flags);
      if f < 0 then (g, false) else (Close(Dup2(g, f, target), f), true)
  }

  /** Both redirections; the flag says whether the child is started. */
  ghost function Redirected(fs: Fs, c: Command): (r: (Fs, bool))
    requires FsOk(fs)
    ensures FsOk(r.0)
  {
    if c.argv == [] then (fs, false)
    else
      var a := Redirect(fs, c.input, O_RDONLY, 0);
      if !a.1 then a else Redirect(a.0, c.output, O_RDWR + O_CREAT + O_TRUNC, 1)
  }

  /** The four calls behind the label restore. */
  ghost function Restored(fs: Fs, savedIn: nat, savedOut: nat): (g: Fs)
    requires FsOk(fs)
    ensures FsOk(g)
  {
    var a := Close(Dup2(fs, savedIn, 0), savedIn);
    Close(Dup2(a, savedOut, 1), savedOut)
  }

  // --- what a command leaves behind ---------------------------------------------------------------------------------

  /**
   A child that gives back the descriptors it takes and leaves the others alone: it may move the offsets of 0, 1 and 2,
   and change files as it likes.
   */
  ghost predicate Neutral(fs: Fs, g: Fs) {
    && FsOk(g)
    && (forall f :: 0 <= f < MAX_FD ==> fs.fds[f].valid == g.fds[f].valid)
    && (forall f :: 0 <= f < MAX_FD && fs.fds[f].valid ==> fs.fds[f].inode == g.fds[f].inode)
    && (forall f :: 3 <= f < MAX_FD && fs.fds[f].valid ==> fs.fds[f] == g.fds[f])
  }

  /** The descriptor is open or closed as before and names the same inode, at the same offset unless it is 2. */
  ghost predicate FdAsFound(fs: Fs, g: Fs, f: nat)
    requires f < MAX_FD
  {
    && fs.fds[f].valid == g.fds[f].valid
    && (fs.fds[f].valid ==> fs.fds[f].inode == g.fds[f].inode && (f != 2 ==> fs.fds[f] == g.fds[f]))
  }

  /** Every descriptor is as it was, and so are the reference counts. */
  ghost predicate AsFound(fs: Fs, g: Fs) {
    && (forall f :: 0 <= f < MAX_FD ==> FdAsFound(fs, g, f))
    && (forall i :: 0 <= i < MAX_INODES ==> fs.inodes[i].refs == g.inodes[i].refs)
  }

  lemma {:induction false} SameNamesSameCount(a: seq<Fd>, b: seq<Fd>, i: int)
    requires |a| == |b| && forall f :: 0 <= f < |a| ==> Names(a[f], i) == Names(b[f], i)
    ensures Count(a, i) == Count(b, i)
  {
    if a != [] { SameNamesSameCount(a[..|a| - 1], b[..|b| - 1], i); }
  }

  /** Exact reference counts depend on the descriptors alone. */
  lemma SameDescriptorsSameCounts(fs: Fs, g: Fs)
    requires FsOk(fs) && FsOk(g)
    requires forall f :: 0 <= f < MAX_FD ==> FdAsFound(fs, g, f)
    ensures forall i :: 0 <= i < MAX_INODES ==> fs.inodes[i].refs == g.inodes[i].refs
  {
    forall i | 0 <= i < MAX_INODES
      ensures fs.inodes[i].refs == g.inodes[i].refs
    {
      assert forall f :: 0 <= f < MAX_FD ==> FdAsFound(fs, g, f) && Names(fs.fds[f], i) == Names(g.fds[f], i);
      SameNamesSameCount(fs.fds, g.fds, i);
    }
  }

  /** After a redirection only the target may differ. */
  lemma RedirectFds(fs: Fs, path: Option<Str>, flags: nat, target: nat)
    requires FsOk(fs) && target < 3
    ensures var (g, ok) := Redirect(fs, path, flags, target);
            && (forall f :: 0 <= f < MAX_FD && f != target ==> fs.fds[f].valid == g.fds[f].valid)
            && (forall f :: 0 <= f < MAX_FD && f != target && fs.fds[f].valid ==> g.fds[f] == fs.fds[f])
            && (path.None? || !ok ==> g.fds == fs.fds)
            && (path.Some? && ok ==> g.fds[target].valid)
  {
    hide FsOk, Open;
    OkIsWalkable(fs);
    if path.Some? {
      OpenFds(fs, path.value, flags);
    }
  }

  /** The table between the redirections and restore: 0 and 1 aside, it is the saved one. */
  lemma RedirectedFds(fs: Fs, c: Command)
    requires FsOk(fs)
    ensures var (g, ok) := Redirected(fs, c);
            && (forall f :: 2 <= f < MAX_FD ==> fs.fds[f].valid == g.fds[f].valid)
            && (forall f :: 2 <= f < MAX_FD && fs.fds[f].valid ==> g.fds[f] == fs.fds[f])
  {
    hide FsOk, Redirect;
    if c.argv != [] {
      RedirectFds(fs, c.input, O_RDONLY, 0);
      var a := Redirect(fs, c.input, O_RDONLY, 0);
      RedirectFds(a.0, c.output, O_RDWR + O_CREAT + O_TRUNC, 1);
    }
  }

  /** May the two descriptors that hold the saved ones be used? */
  predicate SpareFds(fs: Fs) {
    (fs.fds[0].valid ==> !fs.fds[SAVED_IN].valid) && (fs.fds[1].valid ==> !fs.fds[SAVED_OUT].valid)
  }

  /** The result of the redirections, or what a neutral child made of it. */
  ghost predicate AfterChild(fs: Fs, c: Command, g: Fs)
    requires FsOk(fs)
  {
    var (r, ok) := Redirected(Saved(fs), c);
    if ok then Neutral(r, g) else g == r
  }

  /** The child and the redirections leave the saved table alone, 0, 1 and the offset of 2 aside. */
  lemma SavedTableKept(fs: Fs, c: Command, g: Fs, f: nat)
    requires FsOk(fs) && AfterChild(fs, c, g) && 2 <= f < MAX_FD
    ensures FsOk(g) && FdAsFound(Saved(fs), g, f)
  {
    hide FsOk, Redirected, Saved;
    RedirectedFds(Saved(fs), c);
  }

  /** A descriptor that was closed is closed by restore, whatever was put there. */
  lemma RestoreTable(g: Fs, savedIn: nat, savedOut: nat, f: nat)
    requires FsOk(g) && (savedIn == 0 || savedIn == SAVED_IN) && (savedOut == 1 || savedOut == SAVED_OUT)
    requires (savedIn == SAVED_IN ==> g.fds[SAVED_IN].valid) && (savedOut == SAVED_OUT ==> g.fds[SAVED_OUT].valid)
    ensures var b := Restored(g, savedIn, savedOut);
            && (if savedIn == 0 then !b.fds[0].valid else b.fds[0] == g.fds[SAVED_IN] && !b.fds[SAVED_IN].valid)
            && (if savedOut == 1 then !b.fds[1].valid else b.fds[1] == g.fds[SAVED_OUT] && !b.fds[SAVED_OUT].valid)
            && (2 <= f < MAX_FD && f != savedIn && f != savedOut ==> b.fds[f] == g.fds[f])
  {
    hide FsOk, Close, Dup2;
  }

  /** The table that saving leaves. */
  lemma SavedTable(fs: Fs, f: nat)
    requires FsOk(fs) && f < MAX_FD
    ensures var s := Saved(fs);
            && (if fs.fds[0].valid then s.fds[SAVED_IN] == fs.fds[0] else s.fds[SAVED_IN] == fs.fds[SAVED_IN])
            && (if fs.fds[1].valid then s.fds[SAVED_OUT] == fs.fds[1] else s.fds[SAVED_OUT] == fs.fds[SAVED_OUT])
            && (f != SAVED_IN && f != SAVED_OUT ==> s.fds[f] == fs.fds[f])
  {
    hide FsOk, Close, Dup2;
  }

  /** A descriptor above 1 through saving, the child and restore. */
  lemma UpperFd(fs: Fs, s: Fs, g: Fs, b: Fs, f: nat)
    requires 2 <= f < MAX_FD && FdAsFound(s, g, f)
    requires f != SAVED_IN && f != SAVED_OUT ==> s.fds[f] == fs.fds[f] && b.fds[f] == g.fds[f]
    requires f == SAVED_IN ==>
               if fs.fds[0].valid then !fs.fds[f].valid && !b.fds[f].valid
               else s.fds[f] == fs.fds[f] && b.fds[f] == g.fds[f]
    requires f == SAVED_OUT ==>
               if fs.fds[1].valid then !fs.fds[f].valid && !b.fds[f].valid
               else s.fds[f] == fs.fds[f] && b.fds[f] == g.fds[f]
    ensures FdAsFound(fs, b, f)
  {
  }

  lemma CommandLeavesFd(fs: Fs, c: Command, g: Fs, f: nat)
    requires FsOk(fs) && AfterChild(fs, c, g) && f < MAX_FD
    requires f == SAVED_IN && fs.fds[0].valid ==> !fs.fds[f].valid
    requires f == SAVED_OUT && fs.fds[1].valid ==> !fs.fds[f].valid
    ensures FsOk(g) && FdAsFound(fs, Restored(g, SavedIn(fs), SavedOut(fs)), f)
  {
    hide FsOk, Saved, Restored, AfterChild;
    SavedTableKept(fs, c, g, SAVED_IN);
    SavedTableKept(fs, c, g, SAVED_OUT);
    SavedTable(fs, f);
    RestoreTable(g, SavedIn(fs), SavedOut(fs), f);
    if f >= 2 {
      SavedTableKept(fs, c, g, f);
      UpperFd(fs, Saved(fs), g, Restored(g, SavedIn(fs), SavedOut(fs)), f);
    }
  }

  lemma CommandLosesFd(fs: Fs, c: Command, g: Fs)
    requires FsOk(fs) && AfterChild(fs, c, g) && !SpareFds(fs)
    ensures FsOk(g) && !AsFound(fs, Restored(g, SavedIn(fs), SavedOut(fs)))
  {
    SavedTableKept(fs, c, g, SAVED_IN);
    SavedTableKept(fs, c, g, SAVED_OUT);
    hide FsOk, Saved, Restored, AfterChild;
    SavedTable(fs, 2);
    RestoreTable(g, SavedIn(fs), SavedOut(fs), 2);
    var f := if fs.fds[0].valid && fs.fds[SAVED_IN].valid then SAVED_IN else SAVED_OUT;
    assert !FdAsFound(fs, Restored(g, SavedIn(fs), SavedOut(fs)), f);
  }

  /**
   Every path through restore, for any line and any neutral child: the descriptors and the reference counts are as
   they were found if and only if 12 and 13 were free when they were taken.
   */
  lemma CommandLeavesDescriptors(fs: Fs, c: Command, g: Fs)
    requires FsOk(fs) && AfterChild(fs, c, g)
    ensures FsOk(g) && (AsFound(fs, Restored(g, SavedIn(fs), SavedOut(fs))) <==> SpareFds(fs))
  {
    SavedTableKept(fs, c, g, 2);
    var b := Restored(g, SavedIn(fs), SavedOut(fs));
    hide FsOk, Saved, Restored, AfterChild, FdAsFound;
    if SpareFds(fs) {
      forall f | 0 <= f < MAX_FD
        ensures FdAsFound(fs, b, f)
      {
        CommandLeavesFd(fs, c, g, f);
      }
      SameDescriptorsSameCounts(fs, b);
    } else {
      CommandLosesFd(fs, c, g);
    }
  }
}
