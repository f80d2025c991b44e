/**
 The functions of string.c that the file system and the shell rely on, over C strings.

 A `Str` is what lies before the terminator; a buffer is an array of bytes that holds one.
 */
module CStrings {
  type Byte = b: nat | b < 256

  /** The bytes of a C string, terminator excluded. */
  type Str = s: seq<Byte> | forall i :: 0 <= i < |s| ==> s[i] != 0

  const SLASH: Byte := 47
  const DOT: Byte := 46
  const MAX_FILENAME: nat := 28

  // --- strtok ---------------------------------------------------------------------------------------------------

  /** The length of the longest prefix without d. */
  function SpanWithout(s: seq<Byte>, d: Byte): (n: nat)
    ensures n <= |s| && (forall i :: 0 <= i < n ==> s[i] != d) && (n < |s| ==> s[n] == d)
  {
    if s == [] || s[0] == d then 0 else 1 + SpanWithout(s[1..], d)
  }

  /** The non-empty pieces between the d's. */
  function Tokens(s: Str, d: Byte): (ts: seq<Str>)
    decreases |s|
  {
    if s == [] then []
    else if s[0] == d then Tokens(s[1..], d)
    else
      var n := SpanWithout(s, d);
      [s[..n]] + Tokens(s[n..], d)
  }

  /** A token has no delimiter and is not empty. */
  lemma {:induction false} TokensAreWords(s: Str, d: Byte, k: nat)
    requires k < |Tokens(s, d)|
    ensures Tokens(s, d)[k] != [] && d !in Tokens(s, d)[k]
    decreases |s|
  {
    if s[0] == d {
      TokensAreWords(s[1..], d, k);
    } else if k > 0 {
      var n := SpanWithout(s, d);
      TokensAreWords(s[n..], d, k - 1);
    }
  }

  lemma SpanUnique(s: seq<Byte>, d: Byte, n: nat)
    requires n <= |s| && (forall i :: 0 <= i < n ==> s[i] != d) && (n < |s| ==> s[n] == d)
    ensures SpanWithout(s, d) == n
  {
  }

  /** The case of a string that starts with a word. */
  lemma TokensConcatWord(a: Str, b: Str, d: Byte)
    requires d != 0 && a != [] && a[0] != d
    ensures var n := SpanWithout(a, d);
            if n < |a| then Tokens(a + [d] + b, d) == [a[..n]] + Tokens(a[n..] + [d] + b, d)
            else Tokens(a + [d] + b, d) == [a] + Tokens(b, d) && Tokens(a, d) == [a]
  {
    var s: Str := a + [d] + b;
    var n := SpanWithout(a, d);
    SpanUnique(s, d, n);
    assert s[..n] == a[..n] && s[n..] == a[n..] + [d] + b;
    if n == |a| {
      var rest: Str := [d] + b;
      assert s[n..] == rest && rest[1..] == b && a[..n] == a && a[n..] == [];
    }
  }

  /** Splitting at a delimiter splits the tokens. */
  lemma {:induction false} TokensConcat(a: Str, b: Str, d: Byte)
    requires d != 0
    ensures Tokens(a + [d] + b, d) == Tokens(a, d) + Tokens(b, d)
    decreases |a|
  {
    var s: Str := a + [d] + b;
    if a == [] {
      assert s[1..] == b;
    } else if a[0] == d {
      assert s[1..] == a[1..] + [d] + b;
      TokensConcat(a[1..], b, d);
    } else {
      TokensConcatWord(a, b, d);
      var n := SpanWithout(a, d);
      if n < |a| {
        TokensConcat(a[n..], b, d);
        assert Tokens(s, d) == [a[..n]] + (Tokens(a[n..], d) + Tokens(b, d));
      }
    }
  }

  lemma OneToken(s: Str, d: Byte)
    requires s != [] && d !in s
    ensures Tokens(s, d) == [s]
  {
    SpanUnique(s, d, |s|);
    assert s[..|s|] == s && s[|s|..] == [];
  }

  function Min(a: int, b: int): int { if a < b then a else b }

  /**
   strtok with its static cursor.  `buf` is the string being cut, `ptr` is strtok_ptr as an index, -1 for NULL, and
   `rest` is what still lies before the terminator from there on.
   */
  class Tokenizer {
    const buf: array<Byte>
    var ptr: int
    ghost var rest: Str

    ghost predicate Valid()
      reads this, buf
    {
      && 0 <= ptr && ptr + |rest| < buf.Length
      && (forall i :: 0 <= i < |rest| ==> buf[ptr + i] == rest[i])
      && buf[ptr + |rest|] == 0
    }

    /** char tmp[n]; strncpy(tmp, s, n - 1); tmp[n - 1] = 0, and strtok_ptr = tmp */
    constructor (s: Str, n: nat)
      requires n > 0
      ensures Valid() && rest == s[..Min(|s|, n - 1)] && fresh(buf) && buf.Length == n
    {
      var m := Min(|s|, n - 1);
      buf := new Byte[n](i requires i >= 0 => if i < m then s[i] else 0);
      ptr := 0;
      rest := s[..m];
    }

    /** The first loop of strtok: skips delimiters. */
    method Skip(d: Byte)
      requires Valid() && d != 0
      modifies this
      ensures Valid() && Tokens(rest, d) == Tokens(old(rest), d)
      ensures rest == [] || rest[0] != d
    {
      while buf[ptr] != 0 && buf[ptr] == d
        invariant Valid() && Tokens(rest, d) == Tokens(old(rest), d)
        decreases |rest|
      {
        rest := rest[1..];
        ptr := ptr + 1;
      }
    }

    /** The second loop of strtok: runs to the end of the word. */
    method Word(d: Byte)
      requires Valid() && d != 0
      modifies this
      ensures Valid() && ptr == old(ptr) + SpanWithout(old(rest), d) && rest == old(rest)[SpanWithout(old(rest), d)..]
    {
      hide SpanWithout;
      ghost var word, start := rest, ptr;
      while buf[ptr] != 0 && buf[ptr] != d
        invariant Valid() && start <= ptr && ptr - start <= |word| && rest == word[ptr - start..]
        invariant forall i :: 0 <= i < ptr - start ==> word[i] != d
        decreases |rest|
      {
        rest := rest[1..];
        ptr := ptr + 1;
      }
      SpanUnique(word, d, ptr - start);
    }

    /** strtok(NULL, d); t is the index of the token, -1 for NULL. */
    method Strtok(d: Byte) returns (t: int, ghost token: Str)
      requires Valid() && d != 0
      modifies this, buf
      ensures Valid()
      ensures t == -1 <==> Tokens(old(rest), d) == []
      ensures t != -1 ==>
                && Tokens(old(rest), d) == [token] + Tokens(rest, d)
                && 0 <= t && t + |token| < buf.Length && buf[t + |token|] == 0
                && (forall i :: 0 <= i < |token| ==> buf[t + i] == token[i])
      ensures t == -1 ==> Tokens(rest, d) == []
    {
      hide SpanWithout;
      token := [];
      Skip(d);
      if buf[ptr] == 0 {
        assert rest == [];
        return -1, [];
      }
      t := ptr;
      ghost var word := rest;
      assert forall i :: 0 <= i < |word| ==> buf[t + i] == word[i];
      Word(d);
      ghost var n := ptr - t;
      token := word[..n];
      assert Tokens(word, d) == [token] + Tokens(word[n..], d);
      if buf[ptr] != 0 {
        assert rest[0] == d;
        buf[ptr] := 0;
        ptr := ptr + 1;
        rest := rest[1..];
      } else {
        assert rest == [];
      }
    }
  }

  // --- strrchr and the path split ----------------------------------------------------------------------------------

  /** strrchr: the index of the last c, -1 for NULL. */
  method Strrchr(s: Str, c: Byte) returns (last: int)
    ensures -1 <= last < |s|
    ensures last >= 0 ==> s[last] == c
    ensures forall i :: last < i < |s| ==> s[i] != c
  {
    last := -1;
    var i := 0;
    while i < |s|
      invariant i <= |s| && -1 <= last < i
      invariant last >= 0 ==> s[last] == c
      invariant forall k :: last < k < i ==> s[k] != c
    {
      if s[i] == c { last := i; }
      i := i + 1;
    }
  }

  // --- names in directory entries ----------------------------------------------------------------------------------

  type Name = n: seq<Byte> | |n| == MAX_FILENAME witness seq(MAX_FILENAME, i => 0)

  /** strncpy(name, s, 28) */
  function Pad(s: Str): (n: Name)
  {
    seq(MAX_FILENAME, i requires 0 <= i => if i < |s| then s[i] else 0)
  }

  /** strncmp(a, b, 28) == 0 */
  predicate SameName(a: Name, b: Name, k: nat)
    requires k <= MAX_FILENAME
    decreases MAX_FILENAME - k
  {
    k == MAX_FILENAME || (a[k] == b[k] && (a[k] == 0 || SameName(a, b, k + 1)))
  }

  /** Names that strncpy made compare equal when their first 28 bytes agree. */
  lemma {:induction false} SameNameOfPads(a: Str, b: Str, k: nat)
    requires k <= MAX_FILENAME && k <= |a| && k <= |b|
    ensures SameName(Pad(a), Pad(b), k) <==> Pad(a)[k..] == Pad(b)[k..]
    decreases MAX_FILENAME - k
  {
    var x, y := Pad(a), Pad(b);
    if k < MAX_FILENAME {
      assert x[k..] == [x[k]] + x[k + 1..] && y[k..] == [y[k]] + y[k + 1..];
      if x[k] == y[k] && x[k] != 0 {
        SameNameOfPads(a, b, k + 1);
      } else if x[k] == y[k] {
        assert |a| == k && |b| == k;
        assert forall i :: k <= i < MAX_FILENAME ==> x[i] == 0 && y[i] == 0;
      }
    }
  }

  lemma SameNameIffPadsEqual(a: Str, b: Str)
    ensures SameName(Pad(a), Pad(b), 0) <==> Pad(a) == Pad(b)
  {
    SameNameOfPads(a, b, 0);
    assert Pad(a)[0..] == Pad(a) && Pad(b)[0..] == Pad(b);
  }

  method Strncmp(a: Name, b: Name) returns (same: bool)
    ensures same == SameName(a, b, 0)
  {
    var i := 0;
    while i < MAX_FILENAME
      invariant i <= MAX_FILENAME && SameName(a, b, i) == SameName(a, b, 0)
    {
      if a[i] != b[i] { return false; }
      if a[i] == 0 { return true; }
      i := i + 1;
    }
    same := true;
  }
}
