/**
 fs.c: the tables as the kernel holds them, updated in place.

 The terminal is a sequence of bytes to come and a sequence of bytes written.
 */
module FileSystem {
  import opened CStrings
  import opened FsModel
  import opened FsFacts
  import opened FsPaths
  import opened FsBoot

  class FileSystem {
    const inodes: array<Inode>
    const data: array<Byte>
    const fds: array<Fd>
    var next: nat
    var cwd: nat
    var terminalIn: seq<Byte>
    var terminalOut: seq<Byte>

    ghost predicate Shaped()
      reads this, inodes, data, fds
    {
      inodes.Length == MAX_INODES && data.Length == DATA_BUF_SIZE && fds.Length == MAX_FD
    }

    ghost function View(): Fs
      requires Shaped()
      reads this, inodes, data, fds
    {
      Fs(inodes[..], data[..], next, fds[..], cwd)
    }

    ghost predicate Valid()
      reads this, inodes, data, fds
    {
      Shaped() && FsOk(View()) && Walkable(View())
    }

    /** alloc_inode */
    method AllocInode(kind: Kind) returns (i: int)
      requires Shaped()
      modifies inodes
      ensures Shaped() && i == FirstUnused(old(inodes[..]))
      ensures View() == if i >= 0 then WithInode(old(View()), i, kind) else old(View())
    {
      i := 0;
      while i < MAX_INODES
        invariant 0 <= i <= MAX_INODES && View() == old(View())
        invariant forall j :: 0 <= j < i ==> inodes[j].used
      {
        if !inodes[i].used {
          inodes[i] := inodes[i].(used := true);
          inodes[i] := inodes[i].(kind := kind);
          inodes[i] := inodes[i].(size := 0);
          inodes[i] := inodes[i].(offset := 0);
          inodes[i] := inodes[i].(refs := 0);
          assert inodes[i] == Inode(kind, 0, 0, true, 0);
          return;
        }
        i := i + 1;
      }
      i := -1;
    }

    /** memcpy(data_buf + at, b, |b|) */
    method CopyIn(at: nat, b: seq<Byte>)
      requires Shaped() && at + |b| <= DATA_BUF_SIZE
      modifies data
      ensures Shaped() && View() == old(View()).(data := Splice(old(data[..]), at, b))
    {
      var k := 0;
      while k < |b|
        invariant k <= |b| && Shaped()
        invariant forall j :: 0 <= j < DATA_BUF_SIZE ==> data[j] == if at <= j < at + k then b[j - at] else old(data[j])
      {
        data[at + k] := b[k];
        k := k + 1;
      }
      assert data[..] == Splice(old(data[..]), at, b);
    }

    /** dir_add_entry; its result is ignored by every caller. */
    method DirAddEntry(dir: nat, name: Name, target: nat) returns (ok: bool)
      requires Shaped() && Walkable(View()) && dir < MAX_INODES && target < MAX_INODES
      modifies this`next, inodes, data
      ensures Shaped() && ok == CanAdd(old(View()), dir) && View() == DirAdd(old(View()), dir, name, target)
    {
      if !inodes[dir].kind.Dir? { return false; }
      if inodes[dir].size + ENTRY_SIZE > MAX_DIR_ENTRIES * ENTRY_SIZE { return false; }
      ghost var fs := View();
      assert fs.inodes[dir] == inodes[dir] && Placed(fs.inodes[dir]);
      if inodes[dir].size == 0 {
        if next + MAX_DIR_ENTRIES * ENTRY_SIZE > DATA_BUF_SIZE { return false; }
        inodes[dir] := inodes[dir].(offset := next);
        next := next + MAX_DIR_ENTRIES * ENTRY_SIZE;
      }
      CopyIn(inodes[dir].offset + inodes[dir].size, EntryBytes(name, target));
      inodes[dir] := inodes[dir].(size := inodes[dir].size + ENTRY_SIZE);
      ok := true;
      assert inodes[..] == DirAdd(fs, dir, name, target).inodes;
    }

    /** The first half of fs_init: the root directory with its two entries. */
    method MakeRoot()
      requires Shaped() && next == 0 && cwd == 0 && (forall k :: 0 <= k < DATA_BUF_SIZE ==> data[k] == 0)
      requires forall i :: 0 <= i < MAX_INODES ==> inodes[i] == Inode(FreeInode, 0, 0, false, 0)
      requires forall f :: 0 <= f < MAX_FD ==> fds[f] == Fd(0, 0, 0, false)
      modifies this`next, inodes, data
      ensures Valid() && DirLookup(View(), 0, Pad([DOT])) == 0 && DirLookup(View(), 0, Pad([DOT, DOT])) == 0
      ensures next == DIR_SIZE && (forall i :: 1 <= i < MAX_INODES ==> !inodes[i].used) && NoStaleEntries(View())
      ensures View() == RootMade()
    {
      hide FsOk, DirLookup, Pad, EntryBytes, Walkable, NoStaleEntries;
      assert View() == Blank();
      assert forall i :: 0 <= i < MAX_INODES ==> View().inodes[i] == Inode(FreeInode, 0, 0, false, 0);
      var root := AllocInode(Dir);
      ghost var a := View();
      BlankIsOk(a);
      RootEntries(a);
      var _ := DirAddEntry(root, Pad([DOT]), root);
      var _ := DirAddEntry(root, Pad([DOT, DOT]), root);
      assert forall i :: 0 <= i < MAX_INODES ==> View().inodes[i] == inodes[i];
      OkIsWalkable(View());
    }

    /** The second half of fs_init: descriptors 0 to 2 name the terminal. */
    method OpenTerminals()
      requires Valid() && forall f :: 0 <= f < MAX_FD ==> fds[f] == Fd(0, 0, 0, false)
      modifies fds
      ensures Valid() && View() == old(View()).(fds := View().fds)
      ensures forall f :: 0 <= f < MAX_FD ==> fds[f] == if f < 3 then Fd(TERMINAL, 0, 0, true) else Fd(0, 0, 0, false)
    {
      hide FsOk;
      ghost var c := View();
      var i := 0;
      while i < MAX_FD
        invariant i <= MAX_FD && Shaped() && View() == c
      {
        fds[i] := fds[i].(valid := false);
        assert fds[..] == c.fds;
        i := i + 1;
      }
      i := 0;
      while i < 3
        invariant i <= 3 && Shaped() && FsOk(View()) && View() == c.(fds := fds[..])
        invariant forall f :: 0 <= f < MAX_FD ==>
                    fds[f] == if f < i then Fd(TERMINAL, 0, 0, true) else Fd(0, 0, 0, false)
      {
        TerminalKeepsOk(View(), i);
        assert View().fds[i] == fds[i];
        ghost var before := fds[..];
        fds[i] := Fd(TERMINAL, 0, 0, true);
        assert fds[..] == before[i := Fd(TERMINAL, 0, 0, true)];
        i := i + 1;
      }
      OkIsWalkable(View());
    }

    /** fs_init */
    constructor ()
      ensures Valid() && fresh(inodes) && fresh(data) && fresh(fds)
      ensures forall f :: 0 <= f < MAX_FD ==> fds[f] == if f < 3 then Fd(TERMINAL, 0, 0, true) else Fd(0, 0, 0, false)
      ensures DirLookup(View(), 0, Pad([DOT])) == 0 && DirLookup(View(), 0, Pad([DOT, DOT])) == 0
      ensures next == DIR_SIZE && (forall i :: 1 <= i < MAX_INODES ==> !inodes[i].used) && NoStaleEntries(View())
      ensures View() == FsInit()
    {
      inodes := new Inode[MAX_INODES](_ => Inode(FreeInode, 0, 0, false, 0));
      data := new Byte[DATA_BUF_SIZE](_ => 0);
      fds := new Fd[MAX_FD](_ => Fd(0, 0, 0, false));
      next, cwd, terminalIn, terminalOut := 0, 0, [], [];
      new;
      MakeRoot();
      ghost var made := View();
      OpenTerminals();
      LiveWhateverFds(made, View().fds);
      assert View().fds == FsInit().fds;
    }

    /** Reads the entry at `at` of the buffer and tests it as the loop of dir_lookup does. */
    method TestEntry(at: nat, name: Name) returns (hit: bool, ino: int)
      requires Shaped() && at + ENTRY_SIZE <= DATA_BUF_SIZE
      ensures ino == EntryInode(data[..], at) && hit == EntryAnswers(inodes[..], data[..], at, name)
    {
      hide SameName;
      ino := Int32(data[at + MAX_FILENAME..at + ENTRY_SIZE]);
      var entryName: Name := data[at..at + MAX_FILENAME];
      assert data[..][at..at + MAX_FILENAME] == entryName;
      assert data[..][at + MAX_FILENAME..at + ENTRY_SIZE] == data[at + MAX_FILENAME..at + ENTRY_SIZE];
      var same := Strncmp(entryName, name);
      hit := 0 <= ino < MAX_INODES && inodes[ino].used && same;
    }

    /** dir_lookup */
    method LookupEntry(dir: nat, name: Name) returns (r: int)
      requires Shaped() && Walkable(View()) && dir < MAX_INODES
      ensures r == DirLookup(View(), dir, name)
    {
      hide EntryAnswers, EntryInode;
      ghost var fs := View();
      assert fs.inodes[dir] == inodes[dir] && Placed(fs.inodes[dir]);
      if !inodes[dir].kind.Dir? { return -1; }
      var offset, num := inodes[dir].offset, inodes[dir].size / ENTRY_SIZE;
      var i := 0;
      while i < num
        invariant i <= num
        invariant num > 0 ==> LookupFrom(fs.inodes, fs.data, offset, num, i, name) == DirLookup(fs, dir, name)
      {
        var hit, ino := TestEntry(offset + i * ENTRY_SIZE, name);
        if hit {
          return ino;
        }
        i := i + 1;
      }
      if num == 0 && inodes[dir].size > 0 {
        assert LookupFrom(fs.inodes, fs.data, offset, 0, 0, name) == -1;
      }
      return -1;
    }

    /** The string at an index of the token buffer, up to its terminator. */
    method ReadToken(buf: array<Byte>, t: nat, ghost token: Str) returns (s: Str)
      requires t + |token| < buf.Length && buf[t + |token|] == 0
      requires forall i :: 0 <= i < |token| ==> buf[t + i] == token[i]
      ensures s == token
    {
      var n := 0;
      while buf[t + n] != 0
        invariant n <= |token| && (n < |token| ==> buf[t + n] == token[n])
        decreases |token| - n
      {
        n := n + 1;
      }
      assert buf[t..t + n] == token;
      s := buf[t..t + n];
    }

    /** fs_resolve_path: -1 is failure. */
    method ResolvePath(path: Str) returns (r: int)
      requires Shaped() && Walkable(View())
      ensures r == Resolve(View(), path)
    {
      ghost var fs := View();
      var cur: int := if path != [] && path[0] == SLASH then 0 else cwd;
      var p: Str := if path != [] && path[0] == SLASH then path[1..] else path;
      var tok := new Tokenizer(p, 256);
      assert tok.rest == Body(path);
      var t, token := tok.Strtok(SLASH);
      while t != -1
        invariant tok.Valid() && View() == fs && 0 <= cur < MAX_INODES && fresh(tok) && fresh(tok.buf)
        invariant t >= 0 ==> t + |token| < tok.buf.Length && tok.buf[t + |token|] == 0
        invariant t >= 0 ==> forall i :: 0 <= i < |token| ==> tok.buf[t + i] == token[i]
        invariant t >= -1
        invariant Walk(fs, cur, (if t == -1 then [] else [token]) + Tokens(tok.rest, SLASH)) == Resolve(fs, path)
        invariant t == -1 ==> Tokens(tok.rest, SLASH) == []
        decreases |Tokens(tok.rest, SLASH)|, if t == -1 then 0 else 1
      {
        ghost var toks := [token] + Tokens(tok.rest, SLASH);
        assert toks[1..] == Tokens(tok.rest, SLASH) && toks[0] == token;
        assert fs.inodes[cur] == inodes[cur];
        if !inodes[cur].kind.Dir? {
          return -1;
        }
        var word := ReadToken(tok.buf, t, token);
        if word == [DOT] {
        } else {
          var found := LookupEntry(cur, Pad(word));
          if found < 0 {
            return -1;
          }
          cur := found;
        }
        ghost var rest := Tokens(tok.rest, SLASH);
        t, token := tok.Strtok(SLASH);
        if t == -1 { assert rest == []; }
        assert (if t == -1 then [] else [token]) + Tokens(tok.rest, SLASH) == rest;
      }
      return cur;
    }

    /** The search for a descriptor that fs_open and fs_opendir share: from 3 up. */
    method TakeFd(i: nat, flags: nat) returns (f: int)
      requires Shaped() && i < MAX_INODES
      modifies inodes, fds
      ensures Shaped() && f == FirstFreeFd(old(fds[..]), 3)
      ensures View() == if f >= 0 then WithFd(old(View()), f, i, flags) else old(View())
    {
      ghost var fs := View();
      f := 3;
      while f < MAX_FD
        invariant 3 <= f <= MAX_FD && View() == fs
        invariant FirstFreeFd(fs.fds, f) == FirstFreeFd(fs.fds, 3)
      {
        if !fds[f].valid {
          fds[f] := fds[f].(inode := i);
          fds[f] := fds[f].(offset := 0);
          fds[f] := fds[f].(flags := flags);
          fds[f] := fds[f].(valid := true);
          inodes[i] := inodes[i].(refs := inodes[i].refs + 1);
          assert fds[..] == fs.fds[f := Fd(i, 0, flags, true)];
          assert inodes[..] == WithFd(fs, f, i, flags).inodes;
          return;
        }
        f := f + 1;
      }
      f := -1;
    }

    /** The strrchr split that fs_open and fs_mkdir share. */
    method SplitPath(path: Str) returns (parent: Str, name: Str)
      ensures parent == ParentPath(path) && name == BaseName(path)
    {
      hide LastSlash;
      var last := Strrchr(path, SLASH);
      LastSlashIs(path, last);
      if last >= 0 {
        if last == 0 { parent := [SLASH]; } else { parent := path[..last]; }
        name := path[last + 1..];
      } else {
        parent := [DOT];
        name := path;
      }
    }

    /** fs_open up to the search for a descriptor; -1 is failure. */
    method FindOrCreate(path: Str, flags: nat) returns (i: int)
      requires Valid()
      modifies this`next, inodes, data
      ensures Shaped() && (View(), i) == OpenInode(old(View()), path, flags)
    {
      hide FsOk, Resolve, DirAdd;
      i := ResolvePath(path);
      if i < 0 {
        if !Has(flags, O_CREAT) { return -1; }
        var parentPath, name := SplitPath(path);
        var parent := ResolvePath(parentPath);
        if parent < 0 { return -1; }
        var n := AllocInode(File);
        if n < 0 { return -1; }
        var _ := DirAddEntry(parent, Pad(name), n);
        return n;
      }
      assert View().inodes[i] == inodes[i];
      if !inodes[i].used || !inodes[i].kind.File? { return -1; }
      if Has(flags, O_TRUNC) && (Has(flags, O_RDONLY) || Has(flags, O_WRONLY)) {
        inodes[i] := inodes[i].(size := 0);
      }
    }

    /** fs_open */
    method Open(path: Str, flags: nat) returns (fd: int)
      requires Valid()
      modifies this`next, inodes, data, fds
      ensures Valid() && (View(), fd) == FsModel.Open(old(View()), path, flags)
    {
      hide FsOk, OpenInode, WithFd, Walkable;
      OpenInodeKeepsOk(View(), path, flags);
      OpenKeepsOk(View(), path, flags);
      var i := FindOrCreate(path, flags);
      if i < 0 { return -1; }
      fd := TakeFd(i, flags);
      OkIsWalkable(View());
    }

    /** fs_opendir */
    method OpenDir(path: Str) returns (fd: int)
      requires Valid()
      modifies inodes, fds
      ensures Valid() && (View(), fd) == FsModel.OpenDir(old(View()), path)
    {
      hide FsOk, Resolve, WithFd;
      OpenDirKeepsOk(View(), path);
      var i := ResolvePath(path);
      if i < 0 { return -1; }
      assert View().inodes[i] == inodes[i];
      if !inodes[i].kind.Dir? { return -1; }
      fd := TakeFd(i, 0);
      OkIsWalkable(View());
    }

    /** fs_close */
    method Close(fd: int) returns (r: int)
      requires Valid()
      modifies inodes, fds
      ensures Valid() && r == if ValidFd(old(View()), fd) then 0 else -1
      ensures View() == if r == 0 then Closed(old(View()), fd) else old(View())
    {
      hide FsOk;
      if fd < 0 || fd >= MAX_FD || !fds[fd].valid { return -1; }
      ghost var fs := View();
      CloseKeepsOk(fs, fd);
      assert fs.fds[fd] == fds[fd];
      var i := fds[fd].inode;
      fds[fd] := fds[fd].(valid := false);
      if i != TERMINAL && i >= 0 && inodes[i].refs > 0 {
        inodes[i] := inodes[i].(refs := inodes[i].refs - 1);
      }
      assert View() == Closed(fs, fd);
      OkIsWalkable(View());
      return 0;
    }

    /** fs_dup2 */
    method Dup2(oldfd: int, newfd: int) returns (r: int)
      requires Valid()
      modifies inodes, fds
      ensures Valid() && r == if ValidFd(old(View()), oldfd) && 0 <= newfd < MAX_FD then newfd else -1
      ensures View() == if r >= 0 && oldfd != newfd then Duplicated(old(View()), oldfd, newfd) else old(View())
    {
      hide FsOk;
      if oldfd < 0 || oldfd >= MAX_FD || !fds[oldfd].valid { return -1; }
      if newfd < 0 || newfd >= MAX_FD { return -1; }
      if oldfd == newfd { return newfd; }
      ghost var fs := View();
      DupKeepsOk(fs, oldfd, newfd);
      if fds[newfd].valid {
        var _ := Close(newfd);
      }
      ghost var g := View();
      fds[newfd] := fds[oldfd];
      fds[newfd] := fds[newfd].(valid := true);
      assert fds[..] == g.fds[newfd := g.fds[oldfd].(valid := true)];
      assert fds[oldfd] == g.fds[oldfd];
      DupSource(fs, g, oldfd, newfd);
      if fds[oldfd].inode != TERMINAL {
        var i := fds[oldfd].inode;
        inodes[i] := inodes[i].(refs := inodes[i].refs + 1);
      }
      assert View() == Duplicated(fs, oldfd, newfd);
      OkIsWalkable(View());
      return newfd;
    }

    /** fs_read: the result and the bytes copied to the caller. */
    method Read(fd: int, count: nat) returns (r: int, buf: seq<Byte>)
      requires Valid()
      requires ValidFd(View(), fd) && View().fds[fd].inode == TERMINAL && count > 0 ==> terminalIn != []
      modifies this`terminalIn, fds
      ensures Valid()
      ensures var fs := old(View());
              if !ValidFd(fs, fd) then r == -1 && buf == [] && View() == fs && terminalIn == old(terminalIn)
              else if fs.fds[fd].inode == TERMINAL then
                View() == fs
                && if count == 0 then r == 0 && buf == [] && terminalIn == old(terminalIn)
                   else terminalIn == old(terminalIn)[1..]
                        && if old(terminalIn)[0] == 4 then r == 0 && buf == []
                           else r == 1 && buf == [old(terminalIn)[0]]
              else
                terminalIn == old(terminalIn) && 0 <= fs.fds[fd].inode < MAX_INODES
                && if !fs.inodes[fs.fds[fd].inode].kind.File? then r == -1 && buf == [] && View() == fs
                   else
                     buf == Available(fs, fd, count) && r == |buf|
                     && View() == Seeked(fs, fd, fs.fds[fd].offset + |buf|)
    {
      hide FsOk;
      buf := [];
      if fd < 0 || fd >= MAX_FD || !fds[fd].valid { return -1, []; }
      ghost var fs := View();
      assert fs.fds[fd] == fds[fd];
      if fds[fd].inode == TERMINAL {
        if count > 0 {
          var c := terminalIn[0];
          terminalIn := terminalIn[1..];
          if c == 4 { return 0, []; }
          return 1, [c];
        }
        return 0, [];
      }
      FdRange(fs, fd);
      var i := fds[fd].inode;
      var n := inodes[i];
      assert fs.inodes[i] == n && Placed(n);
      if !n.kind.File? { return -1, []; }
      SeekKeepsOk(fs, fd, fs.fds[fd].offset + |Available(fs, fd, count)|);
      if fds[fd].offset >= n.size {
        assert Available(fs, fd, count) == [];
        assert View() == Seeked(fs, fd, fs.fds[fd].offset);
        return 0, [];
      }
      var readable := n.size - fds[fd].offset;
      var m := if count > readable then readable else count;
      var from := n.offset + fds[fd].offset;
      buf := data[from..from + m];
      assert buf == Available(fs, fd, count);
      fds[fd] := fds[fd].(offset := fds[fd].offset + m);
      assert fds[..] == Seeked(fs, fd, fs.fds[fd].offset + m).fds;
      r := m;
    }

    /** A file without data gets a region of its own. */
    method ClaimRegion(i: nat)
      requires Shaped() && i < MAX_INODES
      modifies this`next, inodes
      ensures inodes[..] == old(inodes[..])[i := inodes[i]]
      ensures if old(inodes[i].size) == 0 then inodes[i] == old(inodes[i]).(offset := old(next))
              && next == old(next) + MAX_FILE_SIZE
              else inodes[i] == old(inodes[i]) && next == old(next)
    {
      ghost var was := inodes[..];
      if inodes[i].size == 0 {
        inodes[i] := inodes[i].(offset := next);
        next := next + MAX_FILE_SIZE;
      }
      assert inodes[..] == was[i := inodes[i]];
    }

    /** fs_write once it cannot fail any more. */
    method WriteFile(fd: nat, buf: seq<Byte>)
      requires Valid() && fd < MAX_FD && fds[fd].valid && 0 <= fds[fd].inode < MAX_INODES && CanWrite(View(), fd, |buf|)
      modifies this`next, inodes, data, fds
      ensures Valid() && View() == Written(old(View()), fd, buf)
    {
      hide FsOk, Walkable;
      ghost var fs := View();
      WriteKeepsOk(fs, fd, buf);
      WrittenFits(fs, fd, buf);
      var i := fds[fd].inode;
      assert fs.inodes[i] == inodes[i] && fs.fds[fd] == fds[fd];
      ClaimRegion(i);
      var off := fds[fd].offset;
      CopyIn(inodes[i].offset + off, buf);
      if off + |buf| > inodes[i].size {
        inodes[i] := inodes[i].(size := off + |buf|);
      }
      fds[fd] := fds[fd].(offset := off + |buf|);
      assert fds[..] == fs.fds[fd := fds[fd]] && inodes[..] == fs.inodes[i := inodes[i]];
      OkIsWalkable(Written(fs, fd, buf));
    }

    /** The loop of fs_write over the terminal. */
    method PutTerminal(buf: seq<Byte>)
      modifies this`terminalOut
      ensures terminalOut == old(terminalOut) + buf
    {
      var k := 0;
      while k < |buf|
        invariant k <= |buf| && terminalOut == old(terminalOut) + buf[..k]
      {
        terminalOut := terminalOut + [buf[k]];
        k := k + 1;
      }
      assert buf[..|buf|] == buf;
    }

    /** fs_write */
    method Write(fd: int, buf: seq<Byte>) returns (r: int)
      requires Valid()
      modifies this`next, this`terminalOut, inodes, data, fds
      ensures Valid()
      ensures var fs := old(View());
              if !ValidFd(fs, fd) then r == -1 && View() == fs && terminalOut == old(terminalOut)
              else if fs.fds[fd].inode == TERMINAL then r == |buf| && View() == fs
                  && terminalOut == old(terminalOut) + buf
              else
                0 <= fs.fds[fd].inode < MAX_INODES && terminalOut == old(terminalOut)
                && if CanWrite(fs, fd, |buf|) then r == |buf| && View() == Written(fs, fd, buf)
                   else r == -1 && View() == fs
    {
      hide FsOk;
      if fd < 0 || fd >= MAX_FD || !fds[fd].valid { return -1; }
      ghost var fs := View();
      assert fs.fds[fd] == fds[fd];
      if fds[fd].inode == TERMINAL {
        PutTerminal(buf);
        return |buf|;
      }
      FdRange(fs, fd);
      var i := fds[fd].inode;
      assert fs.inodes[i] == inodes[i] && Placed(inodes[i]);
      if !inodes[i].kind.File? { return -1; }
      if fds[fd].offset + |buf| > MAX_FILE_SIZE { return -1; }
      if inodes[i].size == 0 && next + MAX_FILE_SIZE > DATA_BUF_SIZE { return -1; }
      hide Written;
      WriteFile(fd, buf);
      r := |buf|;
    }

    /** fs_lseek */
    method Lseek(fd: int, offset: int, whence: int) returns (r: int)
      requires Valid()
      modifies fds
      ensures Valid()
      ensures var fs := old(View());
              var i := if ValidFd(fs, fd) then fs.fds[fd].inode else -1;
              if i < 0 || i >= MAX_INODES || !fs.inodes[i].kind.File? || whence < 0 || whence > 2 then r == -1
                  && View() == fs
              else
                var base := if whence == 0 then 0 else if whence == 1 then fs.fds[fd].offset else fs.inodes[i].size;
                var t := base + offset;
                r == (if t < 0 then 0 else if t > fs.inodes[i].size then fs.inodes[i].size else t)
                    && View() == Seeked(fs, fd, r)
    {
      hide FsOk;
      if fd < 0 || fd >= MAX_FD || !fds[fd].valid { return -1; }
      ghost var fs := View();
      assert fs.fds[fd] == fds[fd];
      if fds[fd].inode < 0 || fds[fd].inode >= MAX_INODES { return -1; }
      var i := fds[fd].inode;
      assert fs.inodes[i] == inodes[i];
      if !inodes[i].kind.File? { return -1; }
      var o: int;
      if whence == 0 {
        o := offset;
      } else if whence == 1 {
        o := fds[fd].offset + offset;
      } else if whence == 2 {
        o := inodes[i].size + offset;
      } else {
        return -1;
      }
      if o < 0 { o := 0; }
      if o > inodes[i].size { o := inodes[i].size; }
      SeekKeepsOk(fs, fd, o);
      fds[fd] := fds[fd].(offset := o);
      assert fds[..] == Seeked(fs, fd, o).fds;
      r := o;
    }

    /** fs_mkdir */
    method Mkdir(path: Str) returns (r: int)
      requires Valid()
      modifies this`next, inodes, data
      ensures Valid() && (View(), r) == FsModel.Mkdir(old(View()), path)
    {
      hide FsOk, Resolve, DirAdd, DirLookup, WithInode, Pad, Walkable, ParentPath, BaseName;
      ghost var fs := View();
      MkdirKeepsOk(fs, path);
      var parentPath, name := SplitPath(path);
      var parent := ResolvePath(parentPath);
      if parent < 0 { return -1; }
      var found := LookupEntry(parent, Pad(name));
      if found >= 0 { return -1; }
      var n := AllocInode(Dir);
      if n < 0 { return -1; }
      var _ := DirAddEntry(n, Pad([DOT]), n);
      var _ := DirAddEntry(n, Pad([DOT, DOT]), parent);
      var _ := DirAddEntry(parent, Pad(name), n);
      assert View() == MadeDir(fs, parent, n, Pad(name));
      OkIsWalkable(View());
      return 0;
    }

    /** fs_unlink: it frees the inode and leaves the entry. */
    method Unlink(path: Str) returns (r: int)
      requires Valid()
      modifies inodes
      ensures Valid() && (View(), r) == FsModel.Unlink(old(View()), path)
      ensures r == 0 ==> forall f :: 0 <= f < MAX_FD && fds[f].valid ==> fds[f].inode != Resolve(old(View()), path)
    {
      hide FsOk, Resolve;
      ghost var fs := View();
      UnlinkKeepsOk(fs, path);
      UnlinkedIsClosed(fs, path);
      var i := ResolvePath(path);
      if i < 0 { return -1; }
      assert fs.inodes[i] == inodes[i];
      if !inodes[i].kind.File? { return -1; }
      if inodes[i].refs > 0 { return -1; }
      inodes[i] := inodes[i].(used := false);
      inodes[i] := inodes[i].(kind := FreeInode);
      assert inodes[..] == FsModel.Unlink(fs, path).0.inodes;
      assert forall f :: 0 <= f < MAX_FD ==> fs.fds[f] == fds[f];
      OkIsWalkable(View());
      return 0;
    }

    /** Reads the entry at `at` and tests it as the loop of fs_readdir does. */
    method TestLive(at: nat) returns (live: bool, name: Name)
      requires Shaped() && at + ENTRY_SIZE <= DATA_BUF_SIZE
      ensures live == (0 <= EntryInode(data[..], at) < MAX_INODES && inodes[..][EntryInode(data[..], at)].used)
      ensures name == EntryName(data[..], at)
    {
      var ino := Int32(data[at + MAX_FILENAME..at + ENTRY_SIZE]);
      assert data[..][at..at + MAX_FILENAME] == data[at..at + MAX_FILENAME];
      assert data[..][at + MAX_FILENAME..at + ENTRY_SIZE] == data[at + MAX_FILENAME..at + ENTRY_SIZE];
      name := data[at..at + MAX_FILENAME];
      live := 0 <= ino < MAX_INODES && inodes[ino].used;
    }

    /** fs_readdir of a descriptor that does not name the terminal: the next live entry. */
    method Readdir(fd: int) returns (r: int, name: Str)
      requires Valid() && (ValidFd(View(), fd) ==> View().fds[fd].inode != TERMINAL)
      modifies fds
      ensures Valid()
      ensures var fs := old(View());
              if !ValidFd(fs, fd) then r == -1 && View() == fs
              else
                0 <= fs.fds[fd].inode < MAX_INODES &&
                var d := fs.fds[fd].inode;
                if !fs.inodes[d].kind.Dir? then r == -1 && View() == fs
                else
                  var e := NextLive(fs, d, fs.fds[fd].offset);
                  if e < 0 then r == 0 && View() == fs
                  else r == 1 && name == Cut(NameAt(fs, d, e)) && View() == Seeked(fs, fd, e + 1)
    {
      hide FsOk, EntryInode, EntryName, Cut;
      name := [];
      if fd < 0 || fd >= MAX_FD || !fds[fd].valid { return -1, []; }
      ghost var fs := View();
      assert fs.fds[fd] == fds[fd];
      FdRange(fs, fd);
      var d := fds[fd].inode;
      var n := inodes[d];
      assert fs.inodes[d] == n && Placed(n);
      if !n.kind.Dir? { return -1, []; }
      var idx := fds[fd].offset;
      var numEntries := n.size / ENTRY_SIZE;
      while idx < numEntries
        invariant fs.fds[fd].offset <= idx && View() == fs
        invariant forall k :: fs.fds[fd].offset <= k < idx && k < numEntries ==> !EntryIsLive(fs, d, k)
      {
        var live, entryName := TestLive(n.offset + idx * ENTRY_SIZE);
        if live {
          name := Cut(entryName);
          SeekKeepsOk(fs, fd, idx + 1);
          fds[fd] := fds[fd].(offset := idx + 1);
          assert fds[..] == Seeked(fs, fd, idx + 1).fds;
          assert EntryIsLive(fs, d, idx);
          return 1, name;
        }
        idx := idx + 1;
      }
      return 0, [];
    }
  }

  // --- helpers of the contracts ------------------------------------------------------------------------------------

  /** The string a caller sees in a name buffer. */
  function Cut(n: seq<Byte>): Str {
    if n == [] || n[0] == 0 then [] else [n[0]] + Cut(n[1..])
  }

  ghost function NameAt(fs: Fs, d: nat, e: nat): Name
    requires d < MAX_INODES && Placed(fs.inodes[d]) && e < Entries(fs, d)
  {
    EntryName(fs.data, fs.inodes[d].offset + e * ENTRY_SIZE)
  }

  lemma LastSlashIs(path: Str, last: int)
    requires -1 <= last < |path| && (last >= 0 ==> path[last] == SLASH) && forall i :: last < i < |path| ==>
             path[i] != SLASH
    ensures LastSlash(path) == last
  {
    var l := LastSlash(path);
  }

  /** The range that a write covers lies inside the buffer. */
  lemma WrittenFits(fs: Fs, fd: nat, buf: seq<Byte>)
    requires FsOk(fs) && Walkable(fs) && ValidFd(fs, fd) && 0 <= fs.fds[fd].inode < MAX_INODES
             && CanWrite(fs, fd, |buf|)
    ensures var n := fs.inodes[fs.fds[fd].inode];
            (if n.size == 0 then fs.next else n.offset) + fs.fds[fd].offset + |buf| <= DATA_BUF_SIZE
  {
    assert Placed(fs.inodes[fs.fds[fd].inode]);
  }

  lemma FdRange(fs: Fs, fd: nat)
    requires FsOk(fs) && ValidFd(fs, fd)
    ensures TERMINAL <= fs.fds[fd].inode < MAX_INODES
  {
  }

  /** Closing newfd does not disturb oldfd. */
  lemma DupSource(fs: Fs, g: Fs, oldfd: nat, newfd: nat)
    requires FsOk(fs) && oldfd < MAX_FD && newfd < MAX_FD && oldfd != newfd
    requires g == if fs.fds[newfd].valid then Closed(fs, newfd) else fs
    ensures g.fds[oldfd] == fs.fds[oldfd] && TERMINAL <= g.fds[oldfd].inode < MAX_INODES
  {
  }

  /** fs_unlink never frees an inode that is open: its exact count was zero. */
  lemma UnlinkedIsClosed(fs: Fs, path: Str)
    requires FsOk(fs) && Walkable(fs)
    ensures FsModel.Unlink(fs, path).1 == 0 ==> forall f :: 0 <= f < MAX_FD && fs.fds[f].valid ==>
            fs.fds[f].inode != Resolve(fs, path)
  {
    hide Resolve;
    forall f | 0 <= f < MAX_FD && fs.fds[f].valid && FsModel.Unlink(fs, path).1 == 0
      ensures fs.fds[f].inode != Resolve(fs, path)
    {
      if fs.fds[f].inode == Resolve(fs, path) { CountPositive(fs.fds, f, fs.fds[f].inode); }
    }
  }
}
