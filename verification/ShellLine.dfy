/**
 How a command line is understood: which of its words are arguments, and which name the files of a redirection.
 */
module ShellLine {
  import opened Options
  import opened CStrings
  import opened ShellModel

  /** "<" or ">" */
  predicate IsMark(w: Str) { w == [60] || w == [62] }

  /** Word k is the file name of a redirection: it follows a mark that is no file name itself. */
  predicate IsName(ts: seq<Str>, k: nat)
    requires k < |ts|
  {
    k > 0 && IsMark(ts[k - 1]) && !IsName(ts, k - 1)
  }

  /** Word k is an argument: neither a mark nor a file name. */
  predicate IsArg(ts: seq<Str>, k: nat)
    requires k < |ts|
  {
    !IsName(ts, k) && !IsMark(ts[k])
  }

  /** The arguments among the first n words, in the order of the line. */
  function Args(ts: seq<Str>, n: nat): (args: seq<Str>)
    requires n <= |ts|
  {
    if n == 0 then [] else Args(ts, n - 1) + (if IsArg(ts, n - 1) then [ts[n - 1]] else [])
  }

  function UpTo15(s: seq<Str>): seq<Str> { if |s| <= 15 then s else s[..15] }

  /** Word k names the file for this mark, and the line still had room for an argument when the mark was read. */
  predicate NamesFile(ts: seq<Str>, k: nat, mark: Str) {
    0 < k < |ts| && IsName(ts, k) && ts[k - 1] == mark && |Args(ts, k - 1)| < 15
  }

  /** The last of the first n words that names the file for this mark is the one that counts. */
  ghost predicate IsFile(ts: seq<Str>, n: nat, mark: Str, file: Option<Str>)
    requires n <= |ts|
  {
    match file
    case None => forall k :: 0 <= k < n ==> !NamesFile(ts, k, mark)
    case Some(w) => exists k :: 0 <= k < n && NamesFile(ts, k, mark) && w == ts[k] &&
                                forall j :: k < j < n ==> !NamesFile(ts, j, mark)
  }

  /** What the loop has made of the first n words. */
  ghost predicate Understood(ts: seq<Str>, n: nat, c: Command)
    requires n <= |ts|
  {
    && c.argv == UpTo15(Args(ts, n))
    && IsFile(ts, n, [60], c.input) && IsFile(ts, n, [62], c.output)
    && (c.pending == if n > 0 && IsMark(ts[n - 1]) && !IsName(ts, n - 1) && |Args(ts, n - 1)| < 15
                     then (if ts[n - 1] == [60] then Input else Output) else Nothing)
  }

  lemma FileAfter(ts: seq<Str>, n: nat, mark: Str, file: Option<Str>, file': Option<Str>)
    requires n < |ts| && IsFile(ts, n, mark, file)
    requires file' == if NamesFile(ts, n, mark) then Some(ts[n]) else file
    ensures IsFile(ts, n + 1, mark, file')
  {
    hide NamesFile;
    match file {
      case None =>
      case Some(w) =>
        var k :| 0 <= k < n && NamesFile(ts, k, mark) && w == ts[k]
                 && forall j :: k < j < n ==> !NamesFile(ts, j, mark);
        assert NamesFile(ts, n, mark) ==> ts[n] == ts[n];
    }
  }

  lemma WordUnderstood(ts: seq<Str>, n: nat, c: Command)
    requires n < |ts| && Understood(ts, n, c)
    ensures Understood(ts, n + 1, Word(c, ts[n]))
  {
    hide IsFile;
    var d := Word(c, ts[n]);
    if n > 0 { assert |Args(ts, n - 1)| <= |Args(ts, n)|; }
    FileAfter(ts, n, [60], c.input, d.input);
    FileAfter(ts, n, [62], c.output, d.output);
  }

  lemma NothingUnderstood(ts: seq<Str>)
    ensures Understood(ts, 0, Words(NoCommand, []))
  {
  }

  lemma OneWord(c: Command, w: Str)
    ensures Words(c, [w]) == Word(c, w)
  {
    var one: seq<Str> := [w];
    assert one[1..] == [];
  }

  lemma {:induction false} WordsUnderstood(ts: seq<Str>, n: nat)
    requires n <= |ts|
    ensures Understood(ts, n, Words(NoCommand, ts[..n]))
  {
    NothingUnderstood(ts);
    hide Understood, Words, Word;
    if n > 0 {
      WordsUnderstood(ts, n - 1);
      WordUnderstood(ts, n - 1, Words(NoCommand, ts[..n - 1]));
      assert ts[..n] == ts[..n - 1] + [ts[n - 1]];
      WordsConcat(NoCommand, ts[..n - 1], [ts[n - 1]]);
      OneWord(Words(NoCommand, ts[..n - 1]), ts[n - 1]);
    } else {
      assert ts[..0] == [];
    }
  }

  /**
   A command line gives the program its first fifteen words that are neither marks nor file names, in their order, and
   the files named by the last < and the last > that come before the sixteenth argument's place.
   */
  lemma LineIsUnderstood(line: Str)
    ensures var ts, c := Tokens(line, 32), Parse(line);
            c.argv == UpTo15(Args(ts, |ts|)) && IsFile(ts, |ts|, [60], c.input) && IsFile(ts, |ts|, [62], c.output)
  {
    var ts := Tokens(line, 32);
    assert ts[..|ts|] == ts;
    WordsUnderstood(ts, |ts|);
  }

  lemma {:induction false} AllAreArgs(ts: seq<Str>, n: nat)
    requires n <= |ts| && forall k :: 0 <= k < |ts| ==> !IsMark(ts[k])
    ensures Args(ts, n) == ts[..n] && forall k :: 0 <= k < n ==> !IsName(ts, k)
  {
    if n > 0 {
      AllAreArgs(ts, n - 1);
      assert ts[..n] == ts[..n - 1] + [ts[n - 1]];
    }
  }

  /** A line without < and > : its first fifteen words, and no redirection. */
  lemma PlainLine(line: Str)
    requires forall k :: 0 <= k < |Tokens(line, 32)| ==> Tokens(line, 32)[k] != [60] && Tokens(line, 32)[k] != [62]
    ensures Parse(line) == Command(UpTo15(Tokens(line, 32)), None, None, Nothing)
  {
    var ts := Tokens(line, 32);
    LineIsUnderstood(line);
    AllAreArgs(ts, |ts|);
    assert ts[..|ts|] == ts;
    WordsUnderstood(ts, |ts|);
  }

  // --- the bar ------------------------------------------------------------------------------------------------------

  /** A line is cut at its first bar. */
  lemma CutAtBar(l: Str, r: Str)
    requires 124 !in l
    ensures var line: Str := l + [124] + r;
            var p := SpanWithout(line, 124);
            p == |l| < |line| && line[..p] == l && line[p + 1..] == r
  {
    SpanUnique(l + [124] + r, 124, |l|);
  }
}
