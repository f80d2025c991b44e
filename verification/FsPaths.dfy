/**
 Paths: the strtok walk and the strrchr split of fs.c agree, and when a path that was just created leads to its inode.
 */
module FsPaths {
  import opened CStrings
  import opened FsModel
  import opened FsFacts

  // --- whole operations keep the invariant --------------------------------------------------------------------------

  /** A walk from a used directory ends at a used inode. */
  lemma {:induction false} WalkIsUsed(fs: Fs, cur: nat, toks: seq<Str>)
    requires Walkable(fs) && cur < MAX_INODES && fs.inodes[cur].used
    ensures Walk(fs, cur, toks) >= 0 ==> fs.inodes[Walk(fs, cur, toks)].used
    decreases |toks|
  {
    if toks != [] && fs.inodes[cur].kind.Dir? {
      if toks[0] == [DOT] {
        WalkIsUsed(fs, cur, toks[1..]);
      } else if DirLookup(fs, cur, Pad(toks[0])) >= 0 {
        WalkIsUsed(fs, DirLookup(fs, cur, Pad(toks[0])), toks[1..]);
      }
    }
  }

  lemma ResolveIsUsed(fs: Fs, path: Str)
    requires FsOk(fs) && Walkable(fs)
    ensures Resolve(fs, path) >= 0 ==> fs.inodes[Resolve(fs, path)].used
  {
    WalkIsUsed(fs, Start(fs, path), Tokens(Body(path), SLASH));
  }

  lemma CreateKeepsOk(fs: Fs, parent: nat, n: nat, name: Name)
    requires FsOk(fs) && Walkable(fs) && parent < MAX_INODES && fs.inodes[parent].used && n < MAX_INODES
             && !fs.inodes[n].used
    ensures var a := WithInode(fs, n, File);
            FsOk(DirAdd(a, parent, name, n)) && DirAdd(a, parent, name, n).fds == fs.fds
                && DirAdd(a, parent, name, n).inodes[n].used
  {
    hide FsOk;
    AllocKeepsOk(fs, n, File);
    DirAddKeepsOk(WithInode(fs, n, File), parent, name, n);
  }

  lemma OpenInodeKeepsOk(fs: Fs, path: Str, flags: nat)
    requires FsOk(fs) && Walkable(fs)
    ensures var r := OpenInode(fs, path, flags);
            FsOk(r.0) && Walkable(r.0) && r.0.fds == fs.fds && (r.1 >= 0 ==> r.0.inodes[r.1].used)
  {
    hide FsOk, Resolve, DirAdd, WithInode, Pad, ParentPath, BaseName;
    ResolveIsUsed(fs, path);
    ResolveIsUsed(fs, ParentPath(path));
    var r := OpenInode(fs, path, flags);
    var i := Resolve(fs, path);
    var parent, n := Resolve(fs, ParentPath(path)), FirstUnused(fs.inodes);
    if i < 0 && Has(flags, O_CREAT) && parent >= 0 && n >= 0 {
      CreateKeepsOk(fs, parent, n, Pad(BaseName(path)));
    } else if i >= 0 {
      TruncateKeepsOk(fs, i);
    }
    OkIsWalkable(r.0);
  }

  lemma OpenKeepsOk(fs: Fs, path: Str, flags: nat)
    requires FsOk(fs) && Walkable(fs)
    ensures FsOk(Open(fs, path, flags).0)
  {
    hide FsOk, OpenInode, WithFd;
    OpenInodeKeepsOk(fs, path, flags);
    var (g, i) := OpenInode(fs, path, flags);
    if i >= 0 && FirstFreeFd(g.fds, 3) >= 0 {
      WithFdKeepsOk(g, FirstFreeFd(g.fds, 3), i, flags);
    }
  }

  lemma OpenDirKeepsOk(fs: Fs, path: Str)
    requires FsOk(fs) && Walkable(fs)
    ensures FsOk(OpenDir(fs, path).0)
  {
    hide FsOk, Resolve, WithFd;
    ResolveIsUsed(fs, path);
    if Resolve(fs, path) >= 0 && FirstFreeFd(fs.fds, 3) >= 0 {
      WithFdKeepsOk(fs, FirstFreeFd(fs.fds, 3), Resolve(fs, path), 0);
    }
  }

  lemma MkdirStepsKeepOk(fs: Fs, parent: nat, n: nat, name: Name)
    requires FsOk(fs) && Walkable(fs) && parent < MAX_INODES && fs.inodes[parent].used && n < MAX_INODES
             && !fs.inodes[n].used
    ensures FsOk(MadeDir(fs, parent, n, name))
  {
    hide FsOk, Pad;
    var a := WithInode(fs, n, Dir);
    AllocKeepsOk(fs, n, Dir);
    var b := DirAdd(a, n, Pad([DOT]), n);
    DirAddKeepsOk(a, n, Pad([DOT]), n);
    var c := DirAdd(b, n, Pad([DOT, DOT]), parent);
    DirAddKeepsOk(b, n, Pad([DOT, DOT]), parent);
    DirAddKeepsOk(c, parent, name, n);
  }

  lemma MkdirKeepsOk(fs: Fs, path: Str)
    requires FsOk(fs) && Walkable(fs)
    ensures FsOk(Mkdir(fs, path).0)
  {
    hide FsOk, Resolve, MadeDir, Pad, DirLookup;
    ResolveIsUsed(fs, ParentPath(path));
    var parent := Resolve(fs, ParentPath(path));
    var n := FirstUnused(fs.inodes);
    if parent >= 0 && n >= 0 {
      MkdirStepsKeepOk(fs, parent, n, Pad(BaseName(path)));
    }
  }

  // --- the split and the tokens -------------------------------------------------------------------------------------

  lemma SlashIsNoToken()
    ensures Tokens([SLASH], SLASH) == [] && Tokens([], SLASH) == []
  {
  }

  lemma NameHasNoSlash(path: Str)
    ensures SLASH !in BaseName(path)
  {
    hide LastSlash;
    var l := LastSlash(path);
    assert forall k :: 0 <= k < |path| - l - 1 ==> BaseName(path)[k] == path[l + 1 + k];
  }

  lemma NameIsToken(path: Str)
    ensures Tokens(BaseName(path), SLASH) == if BaseName(path) == [] then [] else [BaseName(path)]
  {
    hide Tokens, BaseName;
    SlashIsNoToken();
    NameHasNoSlash(path);
    if BaseName(path) != [] { OneToken(BaseName(path), SLASH); }
  }

  /** strrchr's cut agrees with strtok's pieces: the parent's tokens, then the name, if there is one. */
  lemma SplitAgreesWithTokens(path: Str)
    requires LastSlash(path) >= 0
    ensures Tokens(path, SLASH) == Tokens(ParentPath(path), SLASH) + (if BaseName(path) == [] then []
            else [BaseName(path)])
  {
    hide Tokens, SpanWithout, LastSlash;
    var l := LastSlash(path);
    var a: Str, b: Str := path[..l], path[l + 1..];
    assert path == a + [SLASH] + b;
    TokensConcat(a, b, SLASH);
    SlashIsNoToken();
    NameIsToken(path);
    if l == 0 { assert a == []; }
  }

  lemma LeadingSlashIsNoToken(path: Str)
    requires |path| <= 255
    ensures Tokens(Body(path), SLASH) == Tokens(path, SLASH)
  {
    if path != [] && path[0] == SLASH {
      assert path[1..][..|path| - 1] == path[1..];
    } else {
      assert path[..|path|] == path;
    }
  }

  lemma {:induction false} WalkConcat(fs: Fs, cur: nat, a: seq<Str>, b: seq<Str>)
    requires Walkable(fs) && cur < MAX_INODES
    ensures Walk(fs, cur, a + b) == if Walk(fs, cur, a) < 0 then -1 else Walk(fs, Walk(fs, cur, a), b)
    decreases |a|
  {
    if a == [] {
      assert a + b == b;
    } else {
      assert (a + b)[1..] == a[1..] + b && (a + b)[0] == a[0];
      if fs.inodes[cur].kind.Dir? {
        if a[0] == [DOT] {
          WalkConcat(fs, cur, a[1..], b);
        } else if DirLookup(fs, cur, Pad(a[0])) >= 0 {
          WalkConcat(fs, DirLookup(fs, cur, Pad(a[0])), a[1..], b);
        }
      }
    }
  }

  /** The last token of a path, as a list. */
  function LastToken(path: Str): seq<Str> { if BaseName(path) == [] then [] else [BaseName(path)] }

  /** A path resolves as its parent does, and then by its last token. */
  lemma ResolveThroughParent(fs: Fs, path: Str)
    requires FsOk(fs) && Walkable(fs) && |path| <= 255
    ensures Resolve(fs, path)
            == var p := Resolve(fs, ParentPath(path)); if p < 0 then -1 else Walk(fs, p, LastToken(path))
  {
    var parent := ParentPath(path);
    LeadingSlashIsNoToken(path);
    LeadingSlashIsNoToken(parent);
    if LastSlash(path) >= 0 {
      SplitAgreesWithTokens(path);
      assert Start(fs, parent) == Start(fs, path);
      WalkConcat(fs, Start(fs, path), Tokens(parent, SLASH), LastToken(path));
    } else {
      OneToken([DOT], SLASH);
      assert Tokens(parent, SLASH) == [[DOT]];
      assert BaseName(path) == path;
      if path != [] { OneToken(path, SLASH); }
      assert [[DOT]][1..] == [];
      assert Walk(fs, 0, [[DOT]]) == Walk(fs, 0, []);
    }
  }

  // --- lookups after an allocation and an insertion -----------------------------------------------------------------

  /** Entry e of a directory names inode n under this name. */
  predicate NamesAt(fs: Fs, dir: nat, e: nat, name: Name, n: nat)
    requires dir < MAX_INODES && Placed(fs.inodes[dir]) && e < Entries(fs, dir)
  {
    var at := fs.inodes[dir].offset + e * ENTRY_SIZE;
    EntryInode(fs.data, at) == n && SameName(EntryName(fs.data, at), name, 0)
  }

  predicate AnswersAt(fs: Fs, dir: nat, e: nat, name: Name)
    requires dir < MAX_INODES && Placed(fs.inodes[dir]) && e < Entries(fs, dir)
  {
    EntryAnswers(fs.inodes, fs.data, fs.inodes[dir].offset + e * ENTRY_SIZE, name)
  }

  /**
   Would the lookup of `name` stop at a stale entry, one that holds the unused number n, before any entry that answers?
   If n is handed out again that entry comes back to life and the lookup is diverted.
   */
  ghost predicate Diverts(fs: Fs, dir: nat, name: Name, n: nat)
    requires dir < MAX_INODES && Placed(fs.inodes[dir])
  {
    exists e :: 0 <= e < Entries(fs, dir) && NamesAt(fs, dir, e, name, n)
      && forall d :: 0 <= d < e ==> !AnswersAt(fs, dir, d, name)
  }

  lemma {:induction false} LookupFromAfterAlloc(fs: Fs, n: nat, kind: Kind, dir: nat, name: Name, e: nat)
    requires FsOk(fs) && Walkable(fs) && dir < MAX_INODES && n < MAX_INODES && !fs.inodes[n].used
             && fs.inodes[dir].kind.Dir?
    requires fs.inodes[dir].size > 0 && e <= Entries(fs, dir)
    requires forall d :: 0 <= d < e ==> !AnswersAt(fs, dir, d, name) && !NamesAt(fs, dir, d, name, n)
    ensures LookupFrom(WithInode(fs, n, kind).inodes, fs.data, fs.inodes[dir].offset, Entries(fs, dir), e, name)
            == if Diverts(fs, dir, name, n) then n
               else LookupFrom(fs.inodes, fs.data, fs.inodes[dir].offset, Entries(fs, dir), e, name)
    decreases Entries(fs, dir) - e
  {
    hide FsOk, SameName, EntryName, EntryInode;
    if e < Entries(fs, dir) {
      if NamesAt(fs, dir, e, name, n) {
        assert Diverts(fs, dir, name, n);
      } else if AnswersAt(fs, dir, e, name) {
        assert !Diverts(fs, dir, name, n);
      } else {
        LookupFromAfterAlloc(fs, n, kind, dir, name, e + 1);
      }
    }
  }

  /** Handing out number n changes a lookup exactly where it is diverted. */
  lemma LookupAfterAlloc(fs: Fs, n: nat, kind: Kind, dir: nat, name: Name)
    requires FsOk(fs) && Walkable(fs) && dir < MAX_INODES && n < MAX_INODES && !fs.inodes[n].used && dir != n
    ensures DirLookup(WithInode(fs, n, kind), dir, name) == if Diverts(fs, dir, name, n) then n
            else DirLookup(fs, dir, name)
  {
    if fs.inodes[dir].kind.Dir? && fs.inodes[dir].size > 0 {
      LookupFromAfterAlloc(fs, n, kind, dir, name, 0);
    }
  }

  /** Lookups depend on the directory's bytes and on who is used. */
  lemma {:induction false} LookupSameData(inodes: Inodes, d1: Data, d2: Data, offset: nat, entries: nat, e: nat,
      name: Name)
    requires e <= entries && offset + entries * ENTRY_SIZE <= DATA_BUF_SIZE
    requires forall k :: offset <= k < offset + entries * ENTRY_SIZE ==> d1[k] == d2[k]
    ensures LookupFrom(inodes, d1, offset, entries, e, name) == LookupFrom(inodes, d2, offset, entries, e, name)
    decreases entries - e
  {
    if e < entries {
      var at := offset + e * ENTRY_SIZE;
      assert d1[at..at + MAX_FILENAME] == d2[at..at + MAX_FILENAME];
      assert d1[at + MAX_FILENAME..at + ENTRY_SIZE] == d2[at + MAX_FILENAME..at + ENTRY_SIZE];
      LookupSameData(inodes, d1, d2, offset, entries, e + 1, name);
    }
  }

  lemma {:induction false} LookupSameUse(a: Inodes, b: Inodes, d: Data, offset: nat, entries: nat, e: nat, name: Name)
    requires e <= entries && offset + entries * ENTRY_SIZE <= DATA_BUF_SIZE
    requires forall i :: 0 <= i < MAX_INODES ==> a[i].used == b[i].used
    ensures LookupFrom(a, d, offset, entries, e, name) == LookupFrom(b, d, offset, entries, e, name)
    decreases entries - e
  {
    if e < entries {
      LookupSameUse(a, b, d, offset, entries, e + 1, name);
    }
  }

  /** One more entry is looked at last. */
  lemma {:induction false} LookupOneMore(inodes: Inodes, d: Data, offset: nat, entries: nat, e: nat, name: Name)
    requires e <= entries && offset + (entries + 1) * ENTRY_SIZE <= DATA_BUF_SIZE
    ensures var before := LookupFrom(inodes, d, offset, entries, e, name);
            LookupFrom(inodes, d, offset, entries + 1, e, name)
            == if before >= 0 then before
               else if EntryAnswers(inodes, d, offset + entries * ENTRY_SIZE, name) then
                   EntryInode(d, offset + entries * ENTRY_SIZE)
               else -1
    decreases entries - e
  {
    if e < entries {
      LookupOneMore(inodes, d, offset, entries, e + 1, name);
    } else {
      assert LookupFrom(inodes, d, offset, entries + 1, entries + 1, name) == -1;
    }
  }

  lemma SplicedEntry(d: Data, at: nat, name: Name, target: nat)
    requires at + ENTRY_SIZE <= DATA_BUF_SIZE && target < MAX_INODES
    ensures var r := Splice(d, at, EntryBytes(name, target)); EntryInode(r, at) == target && EntryName(r, at) == name
  {
    var b := EntryBytes(name, target);
    var r := Splice(d, at, b);
    assert r[at..at + MAX_FILENAME] == b[..MAX_FILENAME];
    assert r[at + MAX_FILENAME..at + ENTRY_SIZE] == b[MAX_FILENAME..];
  }

  lemma LookupNothing(inodes: Inodes, d: Data, offset: nat, m: Name)
    requires offset <= DATA_BUF_SIZE
    ensures LookupFrom(inodes, d, offset, 0, 0, m) == -1
  {
  }

  lemma LookupInGrownDir(fs: Fs, dir: nat, name: Name, target: nat, m: Name)
    requires FsOk(fs) && Walkable(fs) && dir < MAX_INODES && target < MAX_INODES && CanAdd(fs, dir)
    requires fs.inodes[dir].used && fs.inodes[target].used
    ensures DirLookup(DirAdd(fs, dir, name, target), dir, m)
            == if DirLookup(fs, dir, m) < 0 && SameName(name, m, 0) then target else DirLookup(fs, dir, m)
  {
    hide EntryBytes, LookupFrom, SameName, EntryInode, EntryName;
    var g := DirAdd(fs, dir, name, target);
    var n := fs.inodes[dir];
    var offset := if n.size == 0 then fs.next else n.offset;
    var entries := n.size / ENTRY_SIZE;
    assert InodeOk(fs, dir) && n.size == entries * ENTRY_SIZE;
    assert g.data == Splice(fs.data, offset + entries * ENTRY_SIZE, EntryBytes(name, target));
    assert (n.size + ENTRY_SIZE) / ENTRY_SIZE == entries + 1;
    SplicedEntry(fs.data, offset + entries * ENTRY_SIZE, name, target);
    LookupOneMore(g.inodes, g.data, offset, entries, 0, m);
    LookupSameUse(fs.inodes, g.inodes, fs.data, offset, entries, 0, m);
    LookupSameData(g.inodes, fs.data, g.data, offset, entries, 0, m);
    if n.size == 0 {
      LookupNothing(fs.inodes, fs.data, offset, m);
    }
  }

  /** Adding an entry changes the lookups that found nothing in this directory, and only under the new name. */
  lemma LookupAfterAdd(fs: Fs, dir: nat, name: Name, target: nat, d: nat, m: Name)
    requires FsOk(fs) && Walkable(fs) && dir < MAX_INODES && d < MAX_INODES && target < MAX_INODES
    requires fs.inodes[dir].used && fs.inodes[target].used
    ensures DirLookup(DirAdd(fs, dir, name, target), d, m)
            == if d == dir && CanAdd(fs, dir) && DirLookup(fs, d, m) < 0 && SameName(name, m, 0) then target
                else DirLookup(fs, d, m)
  {
    if CanAdd(fs, dir) {
      var g := DirAdd(fs, dir, name, target);
      assert InodeOk(fs, d) && InodeOk(fs, dir);
      DirAddGrows(fs, dir, name, target);
      GrowthKeepsRegions(fs, g, dir);
      if d == dir {
        LookupInGrownDir(fs, dir, name, target, m);
      } else if fs.inodes[d].kind.Dir? && fs.inodes[d].size > 0 {
        assert Elsewhere(fs.inodes[d], g.inodes[dir]);
        LookupSameUse(fs.inodes, g.inodes, fs.data, fs.inodes[d].offset, Entries(fs, d), 0, m);
        LookupSameData(g.inodes, fs.data, g.data, fs.inodes[d].offset, Entries(fs, d), 0, m);
      }
    }
  }

  // --- create, then resolve ------------------------------------------------------------------------------------------

  /** Does the walk over toks pass a stale entry that would divert it to n? */
  ghost predicate DivertsWalk(fs: Fs, cur: nat, toks: seq<Str>, n: nat)
    requires Walkable(fs) && cur < MAX_INODES
    decreases |toks|
  {
    if toks == [] || !fs.inodes[cur].kind.Dir? then false
    else if toks[0] == [DOT] then DivertsWalk(fs, cur, toks[1..], n)
    else
      var next := DirLookup(fs, cur, Pad(toks[0]));
      Diverts(fs, cur, Pad(toks[0]), n) || (next >= 0 && DivertsWalk(fs, next, toks[1..], n))
  }

  /** The state in which file n has just been made in `parent`. */
  ghost function Created(fs: Fs, parent: nat, name: Str, n: nat): Fs
    requires Walkable(fs) && parent < MAX_INODES && n < MAX_INODES
  {
    DirAdd(WithInode(fs, n, File), parent, Pad(name), n)
  }

  /** What a lookup finds after the creation. */
  lemma LookupAfterCreate(fs: Fs, parent: nat, name: Str, n: nat, d: nat, m: Name)
    requires FsOk(fs) && Walkable(fs) && parent < MAX_INODES && n < MAX_INODES && d < MAX_INODES
    requires fs.inodes[parent].used && !fs.inodes[n].used && d != n
    ensures var h := Created(fs, parent, name, n);
            && Walkable(h) && h.cwd == fs.cwd && (forall i :: 0 <= i < MAX_INODES && i != n ==>
               h.inodes[i].kind == fs.inodes[i].kind)
            && h.inodes[n].kind.File?
            && DirLookup(h, d, m)
               == if Diverts(fs, d, m, n) then n
                  else if DirLookup(fs, d, m) >= 0 then DirLookup(fs, d, m)
                  else if d == parent && CanAdd(fs, parent) && SameName(Pad(name), m, 0) then n
                  else -1
  {
    var g := WithInode(fs, n, File);
    AllocKeepsOk(fs, n, File);
    LookupAfterAlloc(fs, n, File, d, m);
    LookupAfterAdd(g, parent, Pad(name), n, d, m);
  }

  ghost predicate RevisedAt(fs: Fs, h: Fs, n: nat, d: nat, m: Name)
    requires Walkable(fs) && Walkable(h) && n < MAX_INODES && d < MAX_INODES
  {
    if Diverts(fs, d, m, n) then DirLookup(h, d, m) == n
    else DirLookup(fs, d, m) >= 0 ==> DirLookup(h, d, m) == DirLookup(fs, d, m)
  }

  /** h is fs with number n handed out: found entries are found again, stale ones of number n divert. */
  ghost predicate Revised(fs: Fs, h: Fs, n: nat)
    requires Walkable(fs) && Walkable(h) && n < MAX_INODES
  {
    && (forall i :: 0 <= i < MAX_INODES && i != n ==> h.inodes[i].kind == fs.inodes[i].kind)
    && (forall d, m: Name :: 0 <= d < MAX_INODES && d != n ==> RevisedAt(fs, h, n, d, m))
  }

  /** An undiverted walk is not changed. */
  lemma {:induction false} UndivertedWalk(fs: Fs, h: Fs, n: nat, cur: nat, toks: seq<Str>)
    requires Walkable(fs) && Walkable(h) && n < MAX_INODES && cur < MAX_INODES && Revised(fs, h, n)
    requires !fs.inodes[n].used && fs.inodes[cur].used
    requires !DivertsWalk(fs, cur, toks, n) && Walk(fs, cur, toks) >= 0
    ensures Walk(h, cur, toks) == Walk(fs, cur, toks)
    decreases |toks|
  {
    hide DirLookup, Diverts;
    if toks != [] {
      if toks[0] == [DOT] {
        UndivertedWalk(fs, h, n, cur, toks[1..]);
      } else {
        var m := Pad(toks[0]);
        assert RevisedAt(fs, h, n, cur, m);
        UndivertedWalk(fs, h, n, DirLookup(fs, cur, m), toks[1..]);
      }
    }
  }

  /** A diverted walk ends at the new file, or nowhere. */
  lemma {:induction false} DivertedWalk(fs: Fs, h: Fs, n: nat, cur: nat, toks: seq<Str>)
    requires Walkable(fs) && Walkable(h) && n < MAX_INODES && cur < MAX_INODES && Revised(fs, h, n)
    requires !fs.inodes[n].used && fs.inodes[cur].used && h.inodes[n].kind.File?
    requires DivertsWalk(fs, cur, toks, n)
    ensures Walk(h, cur, toks) == n || Walk(h, cur, toks) == -1
    decreases |toks|
  {
    hide DirLookup, Diverts;
    if toks[0] == [DOT] {
      DivertedWalk(fs, h, n, cur, toks[1..]);
    } else {
      var m := Pad(toks[0]);
      assert RevisedAt(fs, h, n, cur, m);
      if !Diverts(fs, cur, m, n) {
        DivertedWalk(fs, h, n, DirLookup(fs, cur, m), toks[1..]);
      }
    }
  }

  lemma CreatedIsRevised(fs: Fs, parent: nat, name: Str, n: nat)
    requires FsOk(fs) && Walkable(fs) && parent < MAX_INODES && n < MAX_INODES
    requires fs.inodes[parent].used && !fs.inodes[n].used
    ensures Walkable(Created(fs, parent, name, n)) && Revised(fs, Created(fs, parent, name, n), n)
  {
    hide DirLookup, Diverts, Created, FsOk;
    LookupAfterCreate(fs, parent, name, n, parent, Pad(name));
    forall d: nat, m: Name | d < MAX_INODES && d != n
      ensures RevisedAt(fs, Created(fs, parent, name, n), n, d, m)
    {
      LookupAfterCreate(fs, parent, name, n, d, m);
    }
  }

  /** The walk of fs_resolve_path over this path would be diverted. */
  ghost predicate DivertsResolve(fs: Fs, path: Str, n: nat)
    requires Walkable(fs)
  {
    DivertsWalk(fs, Start(fs, path), Tokens(Body(path), SLASH), n)
  }

  lemma StartIsUsed(fs: Fs, path: Str)
    requires FsOk(fs)
    ensures Start(fs, path) == 0 && fs.inodes[0].used
  {
  }

  /** The last step of a resolution. */
  lemma WalkLast(fs: Fs, p: nat, path: Str)
    requires Walkable(fs) && p < MAX_INODES
    ensures Walk(fs, p, LastToken(path))
            == if BaseName(path) == [] then p
               else if !fs.inodes[p].kind.Dir? then -1
               else if BaseName(path) == [DOT] then p
               else DirLookup(fs, p, Pad(BaseName(path)))
  {
    if BaseName(path) != [] {
      assert [BaseName(path)][1..] == [];
    }
  }

  lemma CreatedIsOpened(fs: Fs, path: Str, flags: nat)
    requires Walkable(fs) && Has(flags, O_CREAT)
    requires Resolve(fs, path) < 0 && Resolve(fs, ParentPath(path)) >= 0 && FirstUnused(fs.inodes) >= 0
    ensures OpenInode(fs, path, flags) == (Created(fs, Resolve(fs, ParentPath(path)), BaseName(path),
            FirstUnused(fs.inodes)), FirstUnused(fs.inodes))
  {
  }

  /**
   Create, then resolve.  After fs_open has made file n for a path that did not exist, the path leads to n if and only
   if the parent is a directory, the parent's own path passes no stale entry that holds number n, and the new entry
   could be added (or a stale entry of the same name and number was there already).
   */
  lemma CreateThenResolve(fs: Fs, path: Str, flags: nat)
    requires FsOk(fs) && Walkable(fs) && |path| <= 255 && Has(flags, O_CREAT)
    requires Resolve(fs, path) < 0 && Resolve(fs, ParentPath(path)) >= 0 && FirstUnused(fs.inodes) >= 0
    ensures var p, n := Resolve(fs, ParentPath(path)), FirstUnused(fs.inodes);
            var (h, i) := OpenInode(fs, path, flags);
            && i == n && Walkable(h)
            && (Resolve(h, path) == n <==>
                  && fs.inodes[p].kind.Dir?
                  && !DivertsResolve(fs, ParentPath(path), n)
                  && (CanAdd(fs, p) || Diverts(fs, p, Pad(BaseName(path)), n)))
  {
    hide DirLookup, Diverts, Created, OpenInode, Walk, Tokens, Body, ParentPath, BaseName, Pad, SameName, FsOk,
         DivertsWalk, CanAdd, Revised;
    var p, n := Resolve(fs, ParentPath(path)), FirstUnused(fs.inodes);
    var h := OpenInode(fs, path, flags).0;
    var name := BaseName(path);
    var start, toks := Start(fs, ParentPath(path)), Tokens(Body(ParentPath(path)), SLASH);
    ResolveIsUsed(fs, ParentPath(path));
    CreatedIsOpened(fs, path, flags);
    CreatedIsRevised(fs, p, name, n);
    LookupAfterCreate(fs, p, name, n, p, Pad(name));
    OpenInodeKeepsOk(fs, path, flags);
    ResolveThroughParent(fs, path);
    ResolveThroughParent(h, path);
    StartIsUsed(fs, ParentPath(path));
    WalkLast(fs, p, path);
    WalkLast(h, p, path);
    WalkLast(h, n, path);
    if DivertsWalk(fs, start, toks, n) {
      DivertedWalk(fs, h, n, start, toks);
    } else {
      UndivertedWalk(fs, h, n, start, toks);
      SameNameIffPadsEqual(name, name);
    }
  }

  // --- mkdir, then resolve -----------------------------------------------------------------------------------------

  /** There is room for the new directory's own entries. */
  predicate RoomForDots(fs: Fs) { fs.next + DIR_SIZE <= DATA_BUF_SIZE }

  /** There is room for its entry in the parent, after that. */
  predicate RoomInParent(fs: Fs, parent: nat)
    requires parent < MAX_INODES
  {
    && fs.inodes[parent].kind.Dir? && fs.inodes[parent].size + ENTRY_SIZE <= DIR_SIZE
    && (fs.inodes[parent].size == 0 ==> fs.next + 2 * DIR_SIZE <= DATA_BUF_SIZE)
  }

  /**
   What a lookup of m in directory d finds once n is made and entered as `name` in the parent: n itself holds "." and
   "..", every other directory what it held, with the stale entries of number n come back to life.
   */
  ghost function NewLookup(fs: Fs, parent: nat, n: nat, name: Name, d: nat, m: Name): (i: int)
    requires Walkable(fs) && parent < MAX_INODES && n < MAX_INODES && d < MAX_INODES
    ensures -1 <= i < MAX_INODES
  {
    if d == n then
      if !RoomForDots(fs) then -1
      else if SameName(Pad([DOT]), m, 0) then n
      else if SameName(Pad([DOT, DOT]), m, 0) then parent
      else -1
    else if Diverts(fs, d, m, n) then n
    else if DirLookup(fs, d, m) >= 0 then DirLookup(fs, d, m)
    else if d == parent && RoomInParent(fs, parent) && SameName(name, m, 0) then n
    else -1
  }

  /** The walk that such lookups make. */
  ghost function NewWalk(fs: Fs, parent: nat, n: nat, name: Name, cur: nat, toks: seq<Str>): (i: int)
    requires Walkable(fs) && parent < MAX_INODES && n < MAX_INODES && cur < MAX_INODES
    ensures -1 <= i < MAX_INODES
    decreases |toks|
  {
    if toks == [] then cur
    else if cur != n && !fs.inodes[cur].kind.Dir? then -1
    else if toks[0] == [DOT] then NewWalk(fs, parent, n, name, cur, toks[1..])
    else
      var next := NewLookup(fs, parent, n, name, cur, Pad(toks[0]));
      if next < 0 then -1 else NewWalk(fs, parent, n, name, next, toks[1..])
  }

  /** The last of the three entries finds room exactly where RoomInParent says. */
  lemma RoomAfterDots(fs: Fs, parent: nat, n: nat)
    requires FsOk(fs) && Walkable(fs) && parent < MAX_INODES && n < MAX_INODES && parent != n
    ensures var c := DirAdd(DirAdd(WithInode(fs, n, Dir), n, Pad([DOT]), n), n, Pad([DOT, DOT]), parent);
            CanAdd(c, parent) == RoomInParent(fs, parent)
  {
    hide Pad;
  }

  /** What a lookup in another directory finds after mkdir. */
  lemma LookupAfterMkdir(fs: Fs, parent: nat, n: nat, name: Name, d: nat, m: Name)
    requires FsOk(fs) && Walkable(fs) && parent < MAX_INODES && n < MAX_INODES && d < MAX_INODES
    requires fs.inodes[parent].used && !fs.inodes[n].used && d != n
    ensures DirLookup(MadeDir(fs, parent, n, name), d, m) == NewLookup(fs, parent, n, name, d, m)
  {
    hide FsOk, SameName, Diverts, Pad, DirLookup, RoomInParent;
    var dot, up := Pad([DOT]), Pad([DOT, DOT]);
    var a := WithInode(fs, n, Dir);
    AllocKeepsOk(fs, n, Dir);
    var b := DirAdd(a, n, dot, n);
    DirAddKeepsOk(a, n, dot, n);
    var c := DirAdd(b, n, up, parent);
    DirAddKeepsOk(b, n, up, parent);
    RoomAfterDots(fs, parent, n);
    LookupAfterAlloc(fs, n, Dir, d, m);
    LookupAfterAdd(a, n, dot, n, d, m);
    LookupAfterAdd(b, n, up, parent, d, m);
    LookupAfterAdd(c, parent, name, n, d, m);
  }

  lemma EmptyDirLookup(fs: Fs, dir: nat, m: Name)
    requires dir < MAX_INODES && fs.inodes[dir].size == 0
    ensures DirLookup(fs, dir, m) == -1
  {
  }

  /** What a lookup in the new directory finds. */
  lemma LookupInNewDir(fs: Fs, parent: nat, n: nat, name: Name, m: Name)
    requires FsOk(fs) && Walkable(fs) && parent < MAX_INODES && n < MAX_INODES
    requires fs.inodes[parent].used && !fs.inodes[n].used
    ensures DirLookup(MadeDir(fs, parent, n, name), n, m) == NewLookup(fs, parent, n, name, n, m)
  {
    hide FsOk, SameName, Pad, DirLookup;
    var dot, up := Pad([DOT]), Pad([DOT, DOT]);
    var a := WithInode(fs, n, Dir);
    AllocKeepsOk(fs, n, Dir);
    var b := DirAdd(a, n, dot, n);
    DirAddKeepsOk(a, n, dot, n);
    var c := DirAdd(b, n, up, parent);
    DirAddKeepsOk(b, n, up, parent);
    EmptyDirLookup(a, n, m);
    LookupAfterAdd(a, n, dot, n, n, m);
    LookupAfterAdd(b, n, up, parent, n, m);
    LookupAfterAdd(c, parent, name, n, n, m);
  }

  /** What else mkdir leaves alone. */
  lemma KindsAfterMkdir(fs: Fs, parent: nat, n: nat, name: Name)
    requires Walkable(fs) && parent < MAX_INODES && n < MAX_INODES
    ensures var h := MadeDir(fs, parent, n, name);
            && h.cwd == fs.cwd && h.inodes[n].kind.Dir?
            && (forall i :: 0 <= i < MAX_INODES && i != n ==> h.inodes[i].kind == fs.inodes[i].kind)
  {
    hide Pad;
  }

  lemma DotIsNotDotDot()
    ensures !SameName(Pad([DOT]), Pad([DOT, DOT]), 0)
  {
    SameNameIffPadsEqual([DOT], [DOT, DOT]);
    assert Pad([DOT])[1] != Pad([DOT, DOT])[1];
  }

  /** path/.. */
  function Up(path: Str): Str { path + [SLASH, DOT, DOT] }

  /** After mkdir every walk is the one NewWalk foretells. */
  lemma {:induction false} WalkAfterMkdir(fs: Fs, parent: nat, n: nat, name: Name, cur: nat, toks: seq<Str>)
    requires FsOk(fs) && Walkable(fs) && parent < MAX_INODES && n < MAX_INODES && cur < MAX_INODES
    requires fs.inodes[parent].used && !fs.inodes[n].used
    ensures Walk(MadeDir(fs, parent, n, name), cur, toks) == NewWalk(fs, parent, n, name, cur, toks)
    decreases |toks|
  {
    hide FsOk, MadeDir, NewLookup, DirLookup, Pad;
    KindsAfterMkdir(fs, parent, n, name);
    if toks != [] && (cur == n || fs.inodes[cur].kind.Dir?) {
      if toks[0] == [DOT] {
        WalkAfterMkdir(fs, parent, n, name, cur, toks[1..]);
      } else {
        var m := Pad(toks[0]);
        if cur == n { LookupInNewDir(fs, parent, n, name, m); } else { LookupAfterMkdir(fs, parent, n, name, cur, m); }
        var next := NewLookup(fs, parent, n, name, cur, m);
        if next >= 0 { WalkAfterMkdir(fs, parent, n, name, next, toks[1..]); }
      }
    }
  }

  ghost function NewResolve(fs: Fs, path: Str, p: nat, n: nat): int
    requires Walkable(fs) && p < MAX_INODES && n < MAX_INODES
  {
    NewWalk(fs, p, n, Pad(BaseName(path)), Start(fs, path), Tokens(Body(path), SLASH))
  }

  ghost predicate LastStepLeads(fs: Fs, name: Str, p: nat, n: nat)
    requires Walkable(fs) && p < MAX_INODES && n < MAX_INODES
  {
    name != [] && name != [DOT] && fs.inodes[p].kind.Dir? && (RoomInParent(fs, p) || Diverts(fs, p, Pad(name), n))
  }

  /**
   Will the path of the directory that mkdir makes as number n in p lead to it?  If the way to the parent passes no
   stale entry of number n: the last component names something, the parent is a directory, and the new entry finds room
   in it (or a stale entry of the same name and number stands there already).  Otherwise the walk enters n early, and
   leaves it by "." and ".." alone.
   */
  ghost predicate LeadsToNew(fs: Fs, path: Str, p: nat, n: nat)
    requires Walkable(fs) && p < MAX_INODES && n < MAX_INODES
  {
    if DivertsResolve(fs, ParentPath(path), n) then NewResolve(fs, path, p, n) == n
        else LastStepLeads(fs, BaseName(path), p, n)
  }

  lemma NothingIsRoot(fs: Fs, path: Str)
    requires FsOk(fs) && Walkable(fs)
    ensures path == [] ==> Resolve(fs, path) == 0 && fs.inodes[0].used
  {
  }

  lemma NewUp(fs: Fs, p: nat, n: nat, name: Name)
    requires Walkable(fs) && p < MAX_INODES && n < MAX_INODES
    ensures NewLookup(fs, p, n, name, n, Pad([DOT, DOT])) == if RoomForDots(fs) then p else -1
  {
    DotIsNotDotDot();
    SameNameIffPadsEqual([DOT, DOT], [DOT, DOT]);
  }

  /** Where the parent's own path is not diverted, only the last step can fail. */
  lemma UndivertedMkdir(fs: Fs, path: Str)
    requires FsOk(fs) && Walkable(fs) && |path| <= 252 && Mkdir(fs, path).1 == 0
    requires !DivertsResolve(fs, ParentPath(path), FirstUnused(fs.inodes))
    ensures var h := Mkdir(fs, path).0;
            var p, n := Resolve(fs, ParentPath(path)), FirstUnused(fs.inodes);
            Walkable(h) && (Resolve(h, path) == n <==> LeadsToNew(fs, path, p, n))
  {
    hide DirLookup, Diverts, MadeDir, Walk, Tokens, Body, ParentPath, BaseName, Pad, SameName, DivertsWalk, RoomForDots,
         RoomInParent;
    var p, n := Resolve(fs, ParentPath(path)), FirstUnused(fs.inodes);
    var h := Mkdir(fs, path).0;
    var name := BaseName(path);
    var start, toks := Start(fs, ParentPath(path)), Tokens(Body(ParentPath(path)), SLASH);
    ResolveIsUsed(fs, ParentPath(path));
    MkdirKeepsOk(fs, path);
    forall d: nat, m: Name | d < MAX_INODES && d != n
      ensures RevisedAt(fs, h, n, d, m)
    {
      LookupAfterMkdir(fs, p, n, Pad(name), d, m);
    }
    KindsAfterMkdir(fs, p, n, Pad(name));
    LookupAfterMkdir(fs, p, n, Pad(name), p, Pad(name));
    StartIsUsed(fs, ParentPath(path));
    UndivertedWalk(fs, h, n, start, toks);
    ResolveThroughParent(h, path);
    WalkLast(h, p, path);
    SameNameIffPadsEqual(name, name);
  }

  /** Resolving path/.. is one more step from where path leads. */
  lemma ResolveUp(fs: Fs, path: Str)
    requires Walkable(fs) && |path| <= 252 && path != [] && Resolve(fs, path) >= 0
    ensures Resolve(fs, Up(path))
            == if fs.inodes[Resolve(fs, path)].kind.Dir? then DirLookup(fs, Resolve(fs, path), Pad([DOT, DOT])) else -1
  {
    hide DirLookup, Pad;
    var up := Up(path);
    var dd: Str := [DOT, DOT];
    LeadingSlashIsNoToken(up);
    LeadingSlashIsNoToken(path);
    assert up == path + [SLASH] + dd;
    TokensConcat(path, dd, SLASH);
    OneToken(dd, SLASH);
    assert Start(fs, up) == Start(fs, path);
    WalkConcat(fs, Start(fs, path), Tokens(path, SLASH), [dd]);
    assert [dd][1..] == [];
  }

  /**
   mkdir, then resolve.  After a mkdir that returns 0 the path leads to the new directory, and the path with "/.." added
   back to the parent, if and only if the new directory's own entries found room and its path leads to it.
   */
  lemma MkdirThenResolve(fs: Fs, path: Str)
    requires FsOk(fs) && Walkable(fs) && |path| <= 252 && Mkdir(fs, path).1 == 0
    ensures var h := Mkdir(fs, path).0;
            var p, n := Resolve(fs, ParentPath(path)), FirstUnused(fs.inodes);
            Walkable(h) && (Resolve(h, path) == n && Resolve(h, Up(path)) == p <==>
                RoomForDots(fs) && LeadsToNew(fs, path, p, n))
  {
    hide DirLookup, Diverts, MadeDir, Walk, NewWalk, Tokens, Body, ParentPath, BaseName, Pad, SameName, DivertsWalk,
         DivertsResolve, RoomForDots, RoomInParent, NewLookup;
    var p, n := Resolve(fs, ParentPath(path)), FirstUnused(fs.inodes);
    var h := Mkdir(fs, path).0;
    ResolveIsUsed(fs, ParentPath(path));
    MkdirKeepsOk(fs, path);
    KindsAfterMkdir(fs, p, n, Pad(BaseName(path)));
    if DivertsResolve(fs, ParentPath(path), n) {
      WalkAfterMkdir(fs, p, n, Pad(BaseName(path)), Start(fs, path), Tokens(Body(path), SLASH));
    } else {
      UndivertedMkdir(fs, path);
    }
    if Resolve(h, path) == n {
      StartIsUsed(fs, path);
      NothingIsRoot(h, path);
      ResolveUp(h, path);
      LookupInNewDir(fs, p, n, Pad(BaseName(path)), Pad([DOT, DOT]));
      NewUp(fs, p, n, Pad(BaseName(path)));
    }
  }

  // --- where creation fails to resolve, and where it cannot ---------------------------------------------------------

  /** Every directory entry names an inode in use; only fs_unlink breaks this. */
  ghost predicate NoStaleEntries(fs: Fs)
    requires Walkable(fs)
  {
    forall d, e :: 0 <= d < MAX_INODES && 0 <= e < Entries(fs, d) ==> EntryIsLive(fs, d, e)
  }

  /**
   Without stale entries no walk is ever diverted: a created path resolves exactly when there was room for its entry.
   */
  lemma {:induction false} NoStaleNoDiversion(fs: Fs, cur: nat, toks: seq<Str>, n: nat)
    requires Walkable(fs) && NoStaleEntries(fs) && cur < MAX_INODES && n < MAX_INODES && !fs.inodes[n].used
    ensures !DivertsWalk(fs, cur, toks, n)
    decreases |toks|
  {
    if toks != [] && fs.inodes[cur].kind.Dir? {
      if toks[0] == [DOT] {
        NoStaleNoDiversion(fs, cur, toks[1..], n);
      } else {
        forall e | 0 <= e < Entries(fs, cur)
          ensures !NamesAt(fs, cur, e, Pad(toks[0]), n)
        {
          assert EntryIsLive(fs, cur, e);
        }
        if DirLookup(fs, cur, Pad(toks[0])) >= 0 {
          NoStaleNoDiversion(fs, DirLookup(fs, cur, Pad(toks[0])), toks[1..], n);
        }
      }
    }
  }

  /** alloc_inode, dir_add_entry and fs_write make no entry stale. */
  lemma AllocKeepsEntriesLive(fs: Fs, n: nat, kind: Kind)
    requires FsOk(fs) && Walkable(fs) && NoStaleEntries(fs) && n < MAX_INODES && !fs.inodes[n].used
    ensures Walkable(WithInode(fs, n, kind)) && NoStaleEntries(WithInode(fs, n, kind))
  {
    var g := WithInode(fs, n, kind);
    forall d, e | 0 <= d < MAX_INODES && 0 <= e < Entries(g, d)
      ensures EntryIsLive(g, d, e)
    {
      assert EntryIsLive(fs, d, e);
    }
  }

  lemma EntryKept(a: Data, b: Data, at: nat)
    requires at + ENTRY_SIZE <= DATA_BUF_SIZE && forall k :: at <= k < at + ENTRY_SIZE ==> a[k] == b[k]
    ensures EntryInode(a, at) == EntryInode(b, at) && EntryName(a, at) == EntryName(b, at)
  {
    assert a[at..at + MAX_FILENAME] == b[at..at + MAX_FILENAME];
    assert a[at + MAX_FILENAME..at + ENTRY_SIZE] == b[at + MAX_FILENAME..at + ENTRY_SIZE];
  }

  lemma AddKeepsEntriesLive(fs: Fs, dir: nat, name: Name, target: nat)
    requires FsOk(fs) && Walkable(fs) && NoStaleEntries(fs) && dir < MAX_INODES && target < MAX_INODES
    requires fs.inodes[dir].used && fs.inodes[target].used
    ensures NoStaleEntries(DirAdd(fs, dir, name, target))
  {
    hide EntryBytes, EntryInode;
    if CanAdd(fs, dir) {
      var g := DirAdd(fs, dir, name, target);
      DirAddGrows(fs, dir, name, target);
      GrowthKeepsRegions(fs, g, dir);
      assert InodeOk(fs, dir);
      SplicedEntry(fs.data, g.inodes[dir].offset + fs.inodes[dir].size, name, target);
      forall d, e | 0 <= d < MAX_INODES && 0 <= e < Entries(g, d)
        ensures EntryIsLive(g, d, e)
      {
        if d != dir || e < Entries(fs, dir) {
          assert EntryIsLive(fs, d, e);
          assert InodeOk(fs, d) && (d != dir ==> Elsewhere(fs.inodes[d], g.inodes[dir]));
          EntryKept(fs.data, g.data, g.inodes[d].offset + e * ENTRY_SIZE);
        } else {
          assert e * ENTRY_SIZE == fs.inodes[dir].size;
        }
      }
    }
  }

  lemma WriteKeepsEntriesLive(fs: Fs, fd: nat, buf: seq<Byte>)
    requires FsOk(fs) && Walkable(fs) && NoStaleEntries(fs) && ValidFd(fs, fd) && fs.fds[fd].inode >= 0
             && CanWrite(fs, fd, |buf|)
    ensures NoStaleEntries(Written(fs, fd, buf))
  {
    hide EntryInode;
    var g := Written(fs, fd, buf);
    var i := fs.fds[fd].inode;
    if fs.fds[fd].offset + |buf| > 0 || fs.inodes[i].size > 0 {
      WriteGrows(fs, fd, buf);
      GrowthKeepsRegions(fs, g, i);
    }
    forall d, e | 0 <= d < MAX_INODES && 0 <= e < Entries(g, d)
      ensures EntryIsLive(g, d, e)
    {
      assert EntryIsLive(fs, d, e);
      assert InodeOk(fs, d) && d != i;
      assert fs.fds[fd].offset + |buf| > 0 || fs.inodes[i].size > 0 ==> Elsewhere(fs.inodes[d], g.inodes[i]);
      EntryKept(fs.data, g.data, g.inodes[d].offset + e * ENTRY_SIZE);
    }
  }
}
