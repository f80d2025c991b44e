/**
 heap.c: the kernel heap, a first-fit list of blocks whose headers lie inside the heap itself.

 `words` is the heap as the kernel sees it: word i is what its table translates HEAP_START + 8 * i to.  A header takes
 24 bytes: the size, the int is_free with its padding, and the link.
 */
module Heap {
  import opened Words
  import opened AddressSpaces
  import opened KernelSpaces
  import opened HeapPages
  import SpaceRuns

  const HEADER: nat := 24

  predicate InHeap(words: seq<Word>, a: nat) {
    HEAP_START <= a && a % 8 == 0 && (a - HEAP_START) / 8 + 3 <= |words|
  }

  function Ix(a: nat): nat
    requires HEAP_START <= a
  {
    (a - HEAP_START) / 8
  }

  function SizeAt(words: seq<Word>, a: nat): nat
    requires InHeap(words, a)
  {
    words[Ix(a)]
  }

  /** is_free is an int: the low half of the second word. */
  predicate FreeAt(words: seq<Word>, a: nat)
    requires InHeap(words, a)
  {
    words[Ix(a) + 1] % 0x1_0000_0000 != 0
  }

  /** The second word after a store to is_free. */
  function WithFlag(w: Word, free: bool): (w': Word)
    ensures w' % 0x1_0000_0000 != 0 <==> free
  {
    w / 0x1_0000_0000 * 0x1_0000_0000 + (if free then 1 else 0)
  }

  function NextAt(words: seq<Word>, a: nat): nat
    requires InHeap(words, a)
  {
    words[Ix(a) + 2]
  }

  /** (size + 7) & ~7 plus the header */
  function Total(size: nat): (t: nat)
    ensures t % 8 == 0 && size + HEADER <= t < size + HEADER + 8
  {
    (size + 7) / 8 * 8 + HEADER
  }

  /** A size in whole pages. */
  function Rounded(size: nat): nat { (size + PAGE_SIZE - 1) / PAGE_SIZE * PAGE_SIZE }

  ghost predicate Fits(words: seq<Word>, b: nat, total: nat)
    requires InHeap(words, b)
  {
    FreeAt(words, b) && SizeAt(words, b) >= total
  }

  // --- the list and the partition -------------------------------------------------------------------------------

  ghost predicate BlockOk(words: seq<Word>, b: nat) {
    && InHeap(words, b)
    && SizeAt(words, b) % 8 == 0 && SizeAt(words, b) >= HEADER + 8
    && Ix(b) + SizeAt(words, b) / 8 <= |words|
  }

  /** Word w lies in block b. */
  ghost predicate Inside(words: seq<Word>, b: nat, w: nat)
    requires InHeap(words, b)
  {
    Ix(b) <= w < Ix(b) + SizeAt(words, b) / 8
  }

  /** The link that block k of the list should hold. */
  function After(blocks: seq<nat>, k: nat): nat
    requires k < |blocks|
  {
    if k + 1 < |blocks| then blocks[k + 1] else 0
  }

  ghost predicate Linked(words: seq<Word>, first: nat, blocks: seq<nat>) {
    && first == (if blocks == [] then 0 else blocks[0])
    && (forall k :: 0 <= k < |blocks| ==> BlockOk(words, blocks[k]))
    && (forall k {:trigger After(blocks, k)} :: 0 <= k < |blocks| ==> NextAt(words, blocks[k]) == After(blocks, k))
    && (forall j, k :: 0 <= j < k < |blocks| ==> blocks[j] != blocks[k])
  }

  /**
   Every word of the heap has exactly one owner, the block it lies in: the blocks partition the heap.
   */
  ghost predicate Partitioned(words: seq<Word>, blocks: seq<nat>, owner: seq<nat>)
    requires forall k :: 0 <= k < |blocks| ==> BlockOk(words, blocks[k])
  {
    && |owner| == |words|
    && (forall w :: 0 <= w < |words| ==> owner[w] in blocks && InHeap(words, owner[w]) && Inside(words, owner[w], w))
    && (forall k, w ::
          0 <= k < |blocks| && 0 <= w < |words| && BlockOk(words, blocks[k]) && Inside(words, blocks[k], w) ==>
            owner[w] == blocks[k])
  }

  ghost predicate WellFormed(words: seq<Word>, first: nat, blocks: seq<nat>, owner: seq<nat>) {
    Linked(words, first, blocks) && Partitioned(words, blocks, owner)
  }

  /** Two distinct blocks share no word. */
  lemma BlocksAreDisjoint(words: seq<Word>, first: nat, blocks: seq<nat>, owner: seq<nat>, j: nat, k: nat)
    requires WellFormed(words, first, blocks, owner) && j < |blocks| && k < |blocks| && j != k
    ensures Ix(blocks[j]) + SizeAt(words, blocks[j]) / 8 <= Ix(blocks[k])
            || Ix(blocks[k]) + SizeAt(words, blocks[k]) / 8 <= Ix(blocks[j])
  {
    var a, b := blocks[j], blocks[k];
    assert BlockOk(words, a) && BlockOk(words, b);
    var w := if Ix(a) <= Ix(b) then Ix(b) else Ix(a);
    assert Inside(words, a, w) ==> owner[w] == a;
    assert Inside(words, b, w) ==> owner[w] == b;
  }

  /** No word of the payload of the live block b changed. */
  ghost predicate PayloadKept(words: seq<Word>, words': seq<Word>, b: nat)
    requires BlockOk(words, b)
  {
    |words'| >= |words| && forall w :: Ix(b) + 3 <= w < Ix(b) + SizeAt(words, b) / 8 ==> words'[w] == words[w]
  }

  /** The client holds block b. */
  ghost predicate LiveIn(words: seq<Word>, blocks: seq<nat>, b: nat) {
    b in blocks && BlockOk(words, b) && !FreeAt(words, b)
  }

  /** What every live block other than b keeps: it stays live, with its size and every word of its payload. */
  ghost predicate OthersKept(words: seq<Word>, blocks: seq<nat>, b: nat, words': seq<Word>, blocks': seq<nat>) {
    forall c :: LiveIn(words, blocks, c) && c != b ==>
      LiveIn(words', blocks', c) && SizeAt(words', c) == SizeAt(words, c) && PayloadKept(words, words', c)
  }

  /** Block b was handed out for a request of `total` bytes, header included; at most 31 bytes are wasted. */
  ghost predicate Took(words: seq<Word>, blocks: seq<nat>, b: nat, total: nat, words': seq<Word>, blocks': seq<nat>) {
    && !LiveIn(words, blocks, b) && LiveIn(words', blocks', b) && total <= SizeAt(words', b) < total + HEADER + 8
    && OthersKept(words, blocks, b, words', blocks')
    && (forall c :: LiveIn(words', blocks', c) && c != b ==> LiveIn(words, blocks, c))
  }

  /** Block b was given back: no other word changed. */
  ghost predicate Freed(words: seq<Word>, blocks: seq<nat>, b: nat, words': seq<Word>, blocks': seq<nat>) {
    && blocks' == blocks && !LiveIn(words', blocks', b)
    && OthersKept(words, blocks, b, words', blocks')
    && (forall c :: LiveIn(words', blocks', c) ==> LiveIn(words, blocks, c))
  }

  /** One word changed, and the whole block can be taken again. */
  ghost predicate GivenBack(words: seq<Word>, words': seq<Word>, b: nat) {
    && BlockOk(words, b) && BlockOk(words', b) && Fits(words', b, SizeAt(words, b)) && |words'| == |words|
    && forall w :: 0 <= w < |words| && w != Ix(b) + 1 ==> words'[w] == words[w]
  }

  /** The client stored into word w of the payload of its block b. */
  ghost predicate Put(words: seq<Word>, blocks: seq<nat>, b: nat, w: nat, v: Word, words': seq<Word>,
      blocks': seq<nat>) {
    && LiveIn(words, blocks, b) && Ix(b) + 3 <= w < Ix(b) + SizeAt(words, b) / 8
    && blocks' == blocks && words' == words[w := v]
  }

  // --- splitting ---------------------------------------------------------------------------------------------------

  /** Memory after block k was cut at `total`. */
  ghost predicate CutAt(words: seq<Word>, blocks: seq<nat>, k: nat, total: nat, words': seq<Word>)
    requires k < |blocks| && BlockOk(words, blocks[k])
  {
    var b := blocks[k];
    var n := b + total;
    && total % 8 == 0 && total >= HEADER + 8 && SizeAt(words, b) >= total + HEADER + 8
    && |words'| == |words| && InHeap(words, n) && InHeap(words', b) && InHeap(words', n)
    && words'[Ix(b)] == total && words'[Ix(b) + 2] == n
    && words'[Ix(n)] == SizeAt(words, b) - total && words'[Ix(n) + 2] == NextAt(words, b) && FreeAt(words', n)
    && forall w :: 0 <= w < |words| && !(Ix(b) <= w < Ix(b) + 3) && !(Ix(n) <= w < Ix(n) + 3) ==> words'[w] == words[w]
  }

  ghost function CutBlocks(blocks: seq<nat>, k: nat, total: nat): (r: seq<nat>)
    requires k < |blocks|
    ensures |r| == |blocks| + 1
    ensures forall j :: 0 <= j < |r| ==>
              r[j] == if j <= k then blocks[j] else if j == k + 1 then blocks[k] + total else blocks[j - 1]
  {
    blocks[..k + 1] + [blocks[k] + total] + blocks[k + 1..]
  }

  /** The words from the new block on change owner. */
  ghost function CutOwner(owner: seq<nat>, n: nat, size: nat): (r: seq<nat>)
    requires HEAP_START <= n
    ensures |r| == |owner|
    ensures forall w :: 0 <= w < |owner| ==> r[w] == if Ix(n) <= w < Ix(n) + size / 8 then n else owner[w]
  {
    seq(|owner|, w requires 0 <= w < |owner| => if Ix(n) <= w < Ix(n) + size / 8 then n else owner[w])
  }

  /** The old blocks keep their place and, but for the one that is cut, their size. */
  ghost predicate CutFrame(words: seq<Word>, blocks: seq<nat>, k: nat, total: nat, words': seq<Word>)
    requires k < |blocks|
  {
    && (forall j :: 0 <= j < |blocks| ==> BlockOk(words, blocks[j]) && BlockOk(words', blocks[j]))
    && BlockOk(words', blocks[k] + total)
    && (forall j :: 0 <= j < |blocks| && j != k ==> SizeAt(words', blocks[j]) == SizeAt(words, blocks[j]))
  }

  lemma CutOwnersOwn(words: seq<Word>, first: nat, blocks: seq<nat>, owner: seq<nat>, k: nat, total: nat,
      words': seq<Word>, w: nat)
    requires WellFormed(words, first, blocks, owner) && k < |blocks| && BlockOk(words, blocks[k])
             && CutAt(words, blocks, k, total, words')
    requires CutFrame(words, blocks, k, total, words') && w < |words|
    ensures var n := blocks[k] + total;
            var o := CutOwner(owner, n, SizeAt(words', n))[w];
            o in CutBlocks(blocks, k, total) && InHeap(words', o) && Inside(words', o, w)
  {
    var n := blocks[k] + total;
    var blocks' := CutBlocks(blocks, k, total);
    assert blocks'[k + 1] == n;
    var j :| 0 <= j < |blocks| && blocks[j] == owner[w];
    assert BlockOk(words', blocks[j]) && Inside(words, blocks[j], w);
    assert blocks'[if j <= k then j else j + 1] == blocks[j];
  }

  lemma CutOwnersUnique(words: seq<Word>, first: nat, blocks: seq<nat>, owner: seq<nat>, k: nat, total: nat,
      words': seq<Word>, j: nat, w: nat)
    requires WellFormed(words, first, blocks, owner) && k < |blocks| && BlockOk(words, blocks[k])
             && CutAt(words, blocks, k, total, words')
    requires CutFrame(words, blocks, k, total, words') && w < |words| && j < |CutBlocks(blocks, k, total)|
    requires BlockOk(words', CutBlocks(blocks, k, total)[j]) && Inside(words', CutBlocks(blocks, k, total)[j], w)
    ensures CutOwner(owner, blocks[k] + total, SizeAt(words', blocks[k] + total))[w] == CutBlocks(blocks, k, total)[j]
  {
    var b, n := blocks[k], blocks[k] + total;
    if j != k + 1 {
      var i := if j <= k then j else j - 1;
      assert CutBlocks(blocks, k, total)[j] == blocks[i];
      assert BlockOk(words, blocks[i]) && BlockOk(words', blocks[i]) && Inside(words, blocks[i], w);
      assert owner[w] == blocks[i];
      assert i != k ==> !Inside(words, b, w);
    }
  }

  lemma CutKeepsBlock(words: seq<Word>, first: nat, blocks: seq<nat>, owner: seq<nat>, k: nat, total: nat,
      words': seq<Word>, j: nat)
    requires WellFormed(words, first, blocks, owner) && k < |blocks| && BlockOk(words, blocks[k])
             && CutAt(words, blocks, k, total, words')
    requires j < |blocks| && j != k
    ensures BlockOk(words, blocks[j]) && BlockOk(words', blocks[j])
            && SizeAt(words', blocks[j]) == SizeAt(words, blocks[j])
    ensures NextAt(words', blocks[j]) == NextAt(words, blocks[j]) && blocks[j] != blocks[k] + total
  {
    assert BlockOk(words, blocks[j]);
    BlocksAreDisjoint(words, first, blocks, owner, j, k);
    hide WellFormed;
    var x := Ix(blocks[j]);
    assert words'[x] == words[x] && words'[x + 2] == words[x + 2];
  }

  lemma CutKeepsFrame(words: seq<Word>, first: nat, blocks: seq<nat>, owner: seq<nat>, k: nat, total: nat,
      words': seq<Word>)
    requires WellFormed(words, first, blocks, owner) && k < |blocks| && BlockOk(words, blocks[k])
             && CutAt(words, blocks, k, total, words')
    ensures CutFrame(words, blocks, k, total, words')
    ensures forall j :: 0 <= j < |blocks| && j != k ==>
            NextAt(words', blocks[j]) == NextAt(words, blocks[j]) && blocks[j] != blocks[k] + total
  {
    hide Partitioned;
    var b, n := blocks[k], blocks[k] + total;
    assert Ix(n) == Ix(b) + total / 8 && Ix(n) + 4 <= Ix(b) + SizeAt(words, b) / 8;
    forall j | 0 <= j < |blocks| && j != k
      ensures BlockOk(words, blocks[j]) && BlockOk(words', blocks[j])
              && SizeAt(words', blocks[j]) == SizeAt(words, blocks[j])
      ensures NextAt(words', blocks[j]) == NextAt(words, blocks[j]) && blocks[j] != n
    {
      CutKeepsBlock(words, first, blocks, owner, k, total, words', j);
    }
  }

  lemma CutDistinct(blocks: seq<nat>, k: nat, total: nat)
    requires k < |blocks| && total > 0 && (forall j :: 0 <= j < |blocks| ==> blocks[j] != blocks[k] + total)
    requires forall i, j :: 0 <= i < j < |blocks| ==> blocks[i] != blocks[j]
    ensures var r := CutBlocks(blocks, k, total); forall i, j :: 0 <= i < j < |r| ==> r[i] != r[j]
  {
    var r := CutBlocks(blocks, k, total);
    forall i, j | 0 <= i < j < |r|
      ensures r[i] != r[j]
    {
    }
  }

  lemma CutKeepsLinks(words: seq<Word>, first: nat, blocks: seq<nat>, owner: seq<nat>, k: nat, total: nat,
      words': seq<Word>)
    requires WellFormed(words, first, blocks, owner) && k < |blocks| && BlockOk(words, blocks[k])
             && CutAt(words, blocks, k, total, words')
    requires CutFrame(words, blocks, k, total, words')
    requires forall j :: 0 <= j < |blocks| && j != k ==>
             NextAt(words', blocks[j]) == NextAt(words, blocks[j]) && blocks[j] != blocks[k] + total
    ensures Linked(words', first, CutBlocks(blocks, k, total))
  {
    hide Partitioned;
    var blocks' := CutBlocks(blocks, k, total);
    forall j | 0 <= j < |blocks'|
      ensures BlockOk(words', blocks'[j])
      ensures NextAt(words', blocks'[j]) == After(blocks', j)
    {
      var i := if j <= k then j else j - 1;
      assert NextAt(words, blocks[i]) == After(blocks, i);
    }
    CutDistinct(blocks, k, total);
  }

  /** Cutting a block keeps the list and the partition. */
  lemma CutKeepsForm(words: seq<Word>, first: nat, blocks: seq<nat>, owner: seq<nat>, k: nat, total: nat,
      words': seq<Word>)
    requires WellFormed(words, first, blocks, owner) && k < |blocks| && BlockOk(words, blocks[k])
             && CutAt(words, blocks, k, total, words')
    ensures WellFormed(words', first, CutBlocks(blocks, k, total),
                       CutOwner(owner, blocks[k] + total, SizeAt(words', blocks[k] + total)))
  {
    var blocks' := CutBlocks(blocks, k, total);
    CutKeepsFrame(words, first, blocks, owner, k, total, words');
    CutKeepsLinks(words, first, blocks, owner, k, total, words');
    var owner' := CutOwner(owner, blocks[k] + total, SizeAt(words', blocks[k] + total));
    forall w | 0 <= w < |words'|
      ensures owner'[w] in blocks' && InHeap(words', owner'[w]) && Inside(words', owner'[w], w)
    {
      CutOwnersOwn(words, first, blocks, owner, k, total, words', w);
    }
    forall j, w | 0 <= j < |blocks'| && 0 <= w < |words'| && BlockOk(words', blocks'[j])
        && Inside(words', blocks'[j], w)
      ensures owner'[w] == blocks'[j]
    {
      CutOwnersUnique(words, first, blocks, owner, k, total, words', j, w);
    }
  }

  // --- growing the heap ----------------------------------------------------------------------------------------------

  /** Memory, list and owners after a block of `count` fresh words at the end went to the front of the list. */
  ghost predicate Grown(words: seq<Word>, first: nat, count: nat, words': seq<Word>) {
    && count >= 4 && |words'| == |words| + count
    && (forall w :: 0 <= w < |words| ==> words'[w] == words[w])
    && words'[|words|] == 8 * count && words'[|words| + 2] == first
  }

  ghost function GrownOwner(owner: seq<nat>, n: nat, count: nat): (r: seq<nat>)
    ensures |r| == |owner| + count
    ensures forall w :: 0 <= w < |r| ==> r[w] == if w < |owner| then owner[w] else n
  {
    owner + seq(count, _ => n)
  }

  lemma GrowthKeepsBlocks(words: seq<Word>, first: nat, blocks: seq<nat>, owner: seq<nat>, count: nat,
      words': seq<Word>)
    requires WellFormed(words, first, blocks, owner) && Grown(words, first, count, words')
    ensures forall j :: 0 <= j < |blocks| ==>
              && BlockOk(words, blocks[j]) && BlockOk(words', blocks[j])
                 && SizeAt(words', blocks[j]) == SizeAt(words, blocks[j])
              && NextAt(words', blocks[j]) == NextAt(words, blocks[j]) && blocks[j] < HEAP_START + 8 * |words|
    ensures BlockOk(words', HEAP_START + 8 * |words|)
  {
    forall j | 0 <= j < |blocks|
      ensures BlockOk(words', blocks[j]) && SizeAt(words', blocks[j]) == SizeAt(words, blocks[j])
      ensures NextAt(words', blocks[j]) == NextAt(words, blocks[j]) && blocks[j] < HEAP_START + 8 * |words|
    {
      assert BlockOk(words, blocks[j]);
      var x := Ix(blocks[j]);
      assert words'[x] == words[x] && words'[x + 2] == words[x + 2];
    }
  }

  lemma GrowthKeepsLinks(words: seq<Word>, first: nat, blocks: seq<nat>, owner: seq<nat>, count: nat, words': seq<Word>)
    requires WellFormed(words, first, blocks, owner) && Grown(words, first, count, words')
    ensures var n := HEAP_START + 8 * |words|; Linked(words', n, [n] + blocks)
  {
    GrowthKeepsBlocks(words, first, blocks, owner, count, words');
    var blocks' := [HEAP_START + 8 * |words|] + blocks;
    forall j | 0 <= j < |blocks'|
      ensures BlockOk(words', blocks'[j])
      ensures NextAt(words', blocks'[j]) == After(blocks', j)
    {
      if j > 0 { assert blocks'[j] == blocks[j - 1] && NextAt(words, blocks[j - 1]) == After(blocks, j - 1); }
    }
  }

  /** Growing keeps the list and the partition. */
  lemma GrownOwnersOwn(words: seq<Word>, first: nat, blocks: seq<nat>, owner: seq<nat>, count: nat,
      words': seq<Word>, w: nat)
    requires WellFormed(words, first, blocks, owner) && Grown(words, first, count, words') && w < |words'|
    ensures var n := HEAP_START + 8 * |words|;
            var owner' := GrownOwner(owner, n, count);
            w < |owner'| && owner'[w] in [n] + blocks && InHeap(words', owner'[w]) && Inside(words', owner'[w], w)
  {
    GrowthKeepsBlocks(words, first, blocks, owner, count, words');
    var n := HEAP_START + 8 * |words|;
    var blocks' := [n] + blocks;
    assert blocks'[0] == n;
    if w < |words| {
      var j :| 0 <= j < |blocks| && blocks[j] == owner[w];
      assert blocks'[j + 1] == blocks[j] && Inside(words, owner[w], w);
    }
  }

  lemma GrowthKeepsForm(words: seq<Word>, first: nat, blocks: seq<nat>, owner: seq<nat>, count: nat, words': seq<Word>)
    requires WellFormed(words, first, blocks, owner) && Grown(words, first, count, words')
    ensures var n := HEAP_START + 8 * |words|;
            WellFormed(words', n, [n] + blocks, GrownOwner(owner, n, count))
  {
    GrowthKeepsBlocks(words, first, blocks, owner, count, words');
    GrowthKeepsLinks(words, first, blocks, owner, count, words');
    var n := HEAP_START + 8 * |words|;
    var blocks' := [n] + blocks;
    var owner' := GrownOwner(owner, n, count);
    assert blocks'[0] == n;
    forall w | 0 <= w < |words'|
      ensures owner'[w] in blocks' && InHeap(words', owner'[w]) && Inside(words', owner'[w], w)
    {
      GrownOwnersOwn(words, first, blocks, owner, count, words', w);
    }
    forall j, w | 0 <= j < |blocks'| && 0 <= w < |words'| && BlockOk(words', blocks'[j])
        && Inside(words', blocks'[j], w)
      ensures owner'[w] == blocks'[j]
    {
      if j > 0 {
        assert blocks'[j] == blocks[j - 1] && BlockOk(words, blocks[j - 1]) && Inside(words, blocks[j - 1], w);
      }
    }
  }

  /** Changes outside the sizes and links of the headers keep the form. */
  lemma SameHeaders(words: seq<Word>, first: nat, blocks: seq<nat>, owner: seq<nat>, words': seq<Word>)
    requires WellFormed(words, first, blocks, owner) && |words'| == |words|
    requires forall k :: 0 <= k < |blocks| ==>
               && BlockOk(words, blocks[k])
               && words'[Ix(blocks[k])] == words[Ix(blocks[k])] && words'[Ix(blocks[k]) + 2] == words[Ix(blocks[k]) + 2]
    ensures WellFormed(words', first, blocks, owner)
  {
    forall k | 0 <= k < |blocks|
      ensures BlockOk(words', blocks[k]) && SizeAt(words', blocks[k]) == SizeAt(words, blocks[k])
      ensures NextAt(words', blocks[k]) == NextAt(words, blocks[k])
    {
      assert BlockOk(words, blocks[k]);
    }
    forall w | 0 <= w < |words'|
      ensures owner[w] in blocks && InHeap(words', owner[w]) && Inside(words', owner[w], w)
    {
      var j :| 0 <= j < |blocks| && blocks[j] == owner[w];
      assert BlockOk(words', blocks[j]);
    }
    forall j, w | 0 <= j < |blocks| && 0 <= w < |words'| && BlockOk(words', blocks[j]) && Inside(words', blocks[j], w)
      ensures owner[w] == blocks[j]
    {
      assert BlockOk(words, blocks[j]) && Inside(words, blocks[j], w);
    }
  }

  lemma CutKeepsOther(words: seq<Word>, first: nat, blocks: seq<nat>, owner: seq<nat>, k: nat, total: nat,
      words': seq<Word>, j: nat)
    requires WellFormed(words, first, blocks, owner) && k < |blocks| && BlockOk(words, blocks[k])
             && CutAt(words, blocks, k, total, words')
    requires CutFrame(words, blocks, k, total, words') && j < |blocks| && j != k
    ensures PayloadKept(words, words', blocks[j]) && FreeAt(words', blocks[j]) == FreeAt(words, blocks[j])
  {
    hide WellFormed;
    BlocksAreDisjoint(words, first, blocks, owner, j, k);
  }

  /** The cut as a renaming of the live blocks. */
  lemma CutLives(words: seq<Word>, first: nat, blocks: seq<nat>, owner: seq<nat>, k: nat, total: nat, words': seq<Word>,
      c: nat)
    requires WellFormed(words, first, blocks, owner) && k < |blocks| && BlockOk(words, blocks[k])
             && CutAt(words, blocks, k, total, words')
    requires CutFrame(words, blocks, k, total, words') && c != blocks[k]
    ensures LiveIn(words, blocks, c) <==> LiveIn(words', CutBlocks(blocks, k, total), c)
    ensures LiveIn(words, blocks, c) ==> SizeAt(words', c) == SizeAt(words, c) && PayloadKept(words, words', c)
  {
    var n := blocks[k] + total;
    var blocks' := CutBlocks(blocks, k, total);
    assert FreeAt(words', n);
    hide WellFormed, CutAt, FreeAt, PayloadKept, InHeap, SizeAt, Ix;
    if c in blocks {
      var j :| 0 <= j < |blocks| && blocks[j] == c;
      CutKeepsOther(words, first, blocks, owner, k, total, words', j);
      assert blocks'[if j <= k then j else j + 1] == c;
    } else if c in blocks' {
      var j :| 0 <= j < |blocks'| && blocks'[j] == c;
      assert j == k + 1;
    }
  }

  lemma CutTakes(words: seq<Word>, first: nat, blocks: seq<nat>, owner: seq<nat>, k: nat, total: nat, words': seq<Word>)
    requires WellFormed(words, first, blocks, owner) && k < |blocks| && BlockOk(words, blocks[k])
             && CutAt(words, blocks, k, total, words')
    requires Fits(words, blocks[k], total) && !FreeAt(words', blocks[k])
    ensures Took(words, blocks, blocks[k], total, words', CutBlocks(blocks, k, total))
  {
    var b := blocks[k];
    var blocks' := CutBlocks(blocks, k, total);
    CutKeepsFrame(words, first, blocks, owner, k, total, words');
    assert SizeAt(words', b) == total && blocks'[k] == b && BlockOk(words', b);
    assert LiveIn(words', blocks', b) && !LiveIn(words, blocks, b);
    hide WellFormed, CutAt, LiveIn, PayloadKept, CutFrame;
    forall c | c != b
      ensures LiveIn(words, blocks, c) <==> LiveIn(words', blocks', c)
      ensures LiveIn(words, blocks, c) ==> SizeAt(words', c) == SizeAt(words, c) && PayloadKept(words, words', c)
    {
      CutLives(words, first, blocks, owner, k, total, words', c);
    }
  }

  /** A store to is_free alone. */
  lemma FlagStored(words: seq<Word>, first: nat, blocks: seq<nat>, owner: seq<nat>, k: nat, flag: Word,
      words': seq<Word>)
    requires WellFormed(words, first, blocks, owner) && k < |blocks| && BlockOk(words, blocks[k])
    requires words' == words[Ix(blocks[k]) + 1 := flag]
    ensures WellFormed(words', first, blocks, owner)
    ensures OthersKept(words, blocks, blocks[k], words', blocks)
    ensures forall c :: c != blocks[k] && LiveIn(words', blocks, c) ==> LiveIn(words, blocks, c)
    ensures BlockOk(words', blocks[k]) && SizeAt(words', blocks[k]) == SizeAt(words, blocks[k])
  {
    forall j | 0 <= j < |blocks|
      ensures BlockOk(words, blocks[j]) && BlockOk(words', blocks[j])
      ensures SizeAt(words', blocks[j]) == SizeAt(words, blocks[j])
              && NextAt(words', blocks[j]) == NextAt(words, blocks[j])
      ensures j != k ==> PayloadKept(words, words', blocks[j]) && FreeAt(words', blocks[j]) == FreeAt(words, blocks[j])
    {
      if j != k { BlocksAreDisjoint(words, first, blocks, owner, j, k); }
    }
    SameHeaders(words, first, blocks, owner, words');
  }

  /** A client's store into its own payload touches no header and no other payload. */
  lemma PutKeepsForm(words: seq<Word>, first: nat, blocks: seq<nat>, owner: seq<nat>, b: nat, w: nat, v: Word)
    requires WellFormed(words, first, blocks, owner) && LiveIn(words, blocks, b)
             && Ix(b) + 3 <= w < Ix(b) + SizeAt(words, b) / 8
    ensures var words' := words[w := v];
            && WellFormed(words', first, blocks, owner) && OthersKept(words, blocks, b, words', blocks)
            && (forall c :: LiveIn(words', blocks, c) <==> LiveIn(words, blocks, c))
  {
    var words' := words[w := v];
    var k :| 0 <= k < |blocks| && blocks[k] == b;
    forall j | 0 <= j < |blocks|
      ensures BlockOk(words, blocks[j]) && BlockOk(words', blocks[j])
      ensures SizeAt(words', blocks[j]) == SizeAt(words, blocks[j])
              && NextAt(words', blocks[j]) == NextAt(words, blocks[j])
      ensures FreeAt(words', blocks[j]) == FreeAt(words, blocks[j])
              && (j != k ==> PayloadKept(words, words', blocks[j]))
    {
      if j != k { BlocksAreDisjoint(words, first, blocks, owner, j, k); }
    }
    SameHeaders(words, first, blocks, owner, words');
    forall c
      ensures LiveIn(words', blocks, c) <==> LiveIn(words, blocks, c)
    {
      if c in blocks {
        var j :| 0 <= j < |blocks| && blocks[j] == c;
      }
    }
  }

  // --- runs ---------------------------------------------------------------------------------------------------------

  datatype Snapshot = Snapshot(words: seq<Word>, first: nat, blocks: seq<nat>, owner: seq<nat>)

  datatype Event = Alloc(b: nat, total: nat) | Release(b: nat) | Store(b: nat, w: nat, v: Word)

  /** One call of kmalloc or kfree, or one store of a client through a pointer that it holds. */
  ghost predicate Step(s: Snapshot, e: Event, t: Snapshot) {
    && WellFormed(s.words, s.first, s.blocks, s.owner) && WellFormed(t.words, t.first, t.blocks, t.owner)
    && match e {
         case Alloc(b, total) => total >= HEADER + 8 && Took(s.words, s.blocks, b, total, t.words, t.blocks)
         case Release(b) => Freed(s.words, s.blocks, b, t.words, t.blocks)
         case Store(b, w, v) => Put(s.words, s.blocks, b, w, v, t.words, t.blocks)
       }
  }

  ghost predicate Run(states: seq<Snapshot>, events: seq<Event>) {
    |states| == |events| + 1 && forall i :: 0 <= i < |events| ==> Step(states[i], events[i], states[i + 1])
  }

  /** Word w belongs to the payload of the live block b. */
  ghost predicate Holds(s: Snapshot, b: nat, w: nat) {
    LiveIn(s.words, s.blocks, b) && Ix(b) + 3 <= w < Ix(b) + SizeAt(s.words, b) / 8
  }

  lemma StepKeepsHeldWord(s: Snapshot, e: Event, t: Snapshot, b: nat, w: nat)
    requires Step(s, e, t) && Holds(s, b, w) && e != Release(b)
    requires e.Store? && e.b == b ==> e.w != w
    ensures Holds(t, b, w) && SizeAt(t.words, b) == SizeAt(s.words, b) && t.words[w] == s.words[w]
  {
    if e.Store? {
      PutKeepsForm(s.words, s.first, s.blocks, s.owner, e.b, e.w, e.v);
      if e.b == b {
        assert BlockOk(s.words, b);
      }
    } else {
      assert e.b != b;
      assert PayloadKept(s.words, t.words, b);
    }
  }

  /**
   In every run of allocations, releases and stores of clients into what they hold, a word of a block that is not
   released holds what its owner last stored there: no other call and no other client's store touches it.
   */
  lemma {:induction false} PayloadIsPrivate(states: seq<Snapshot>, events: seq<Event>, i: nat, j: nat, b: nat, w: nat)
    requires Run(states, events) && i <= j < |states| && Holds(states[i], b, w)
    requires forall k :: i <= k < j ==>
               events[k] != Release(b) && !(events[k].Store? && events[k].b == b && events[k].w == w)
    ensures Holds(states[j], b, w) && states[j].words[w] == states[i].words[w]
    decreases j
  {
    hide Step;
    if i < j {
      PayloadIsPrivate(states, events, i, j - 1, b, w);
      assert Step(states[j - 1], events[j - 1], states[j]);
      StepKeepsHeldWord(states[j - 1], events[j - 1], states[j], b, w);
    }
  }

  /** No word is held through two blocks at once. */
  lemma HeldOnce(s: Snapshot, b: nat, c: nat, w: nat)
    requires WellFormed(s.words, s.first, s.blocks, s.owner) && Holds(s, b, w) && Holds(s, c, w)
    ensures b == c
  {
    var j :| 0 <= j < |s.blocks| && s.blocks[j] == b;
    var k :| 0 <= k < |s.blocks| && s.blocks[k] == c;
    if j != k { BlocksAreDisjoint(s.words, s.first, s.blocks, s.owner, j, k); }
  }

  // --- the allocator -------------------------------------------------------------------------------------------------

  ghost predicate InMemory(a: SpaceRuns.Moment, words: seq<Word>, i: nat)
    requires i < |words|
  {
    Owned(a, HEAP_START + 8 * i) && HeapWord(a, HEAP_START + 8 * i) == words[i]
  }

  lemma WordAligned(i: nat)
    ensures (HEAP_START + 8 * i) % 8 == 0
  {
  }

  lemma Eighth(n: nat)
    ensures 8 * n / 8 == n
  {
  }

  lemma RoundedWords(size: nat)
    ensures Rounded(size) == (size + PAGE_SIZE - 1) / PAGE_SIZE * PAGE_SIZE == 8 * (Rounded(size) / 8)
  {
    var pages := (size + PAGE_SIZE - 1) / PAGE_SIZE;
    Eighth(512 * pages);
  }

  /** Giving a block back. */
  lemma FreeStep(s: Snapshot, k: nat, words: seq<Word>)
    requires WellFormed(s.words, s.first, s.blocks, s.owner) && k < |s.blocks| && BlockOk(s.words, s.blocks[k])
    requires words == s.words[Ix(s.blocks[k]) + 1 := WithFlag(s.words[Ix(s.blocks[k]) + 1], true)]
    ensures Step(s, Release(s.blocks[k]), s.(words := words))
    ensures GivenBack(s.words, words, s.blocks[k])
  {
    hide WellFormed;
    FlagStored(s.words, s.first, s.blocks, s.owner, k, words[Ix(s.blocks[k]) + 1], words);
  }

  /** What was in memory before the heap grew is there after it. */
  lemma KeptInMemory(a: SpaceRuns.Moment, b: SpaceRuns.Moment, words: seq<Word>, i: nat)
    requires i < |words| && a.end == HEAP_START + 8 * |words| && InMemory(a, words, i) && Grew(a, b)
    ensures InMemory(b, words, i)
  {
    var v := HEAP_START + 8 * i;
    assert PageKept(a, b, v) && Owned(b, v);
  }

  /** The words of the heap, as all other kernel code and every user program leave them. */
  lemma QuietKeepsWords(a: SpaceRuns.Moment, es: seq<SpaceRuns.Event>, b: SpaceRuns.Moment, words: seq<Word>)
    requires SpaceRuns.Good(a) && HeapOwned(a) && SpaceRuns.Path(a, es, b) && Quiet(es)
    requires a.end == HEAP_START + 8 * |words| && forall i :: 0 <= i < |words| ==> InMemory(a, words, i)
    ensures HeapOwned(b) && b.end == a.end && forall i :: 0 <= i < |words| ==> InMemory(b, words, i)
  {
    hide SpaceRuns.Good, SpaceRuns.Path, Quiet, Owned;
    QuietKeepsHeap(a, es, b);
    forall i | 0 <= i < |words|
      ensures InMemory(b, words, i)
    {
      assert InMemory(a, words, i) && PageKept(a, b, HEAP_START + 8 * i) && Owned(b, HEAP_START + 8 * i);
    }
  }

  /** The five stores of a split. */
  lemma CutIs(was: seq<Word>, blocks: seq<nat>, k: nat, total: nat, words: seq<Word>)
    requires k < |blocks| && BlockOk(was, blocks[k]) && |was| < 0x1_0000_0000 && |words| == |was|
    requires total % 8 == 0 && total >= HEADER + 8 && SizeAt(was, blocks[k]) >= total + HEADER + 8
    requires var b, n := Ix(blocks[k]), Ix(blocks[k]) + total / 8;
             && n + 3 <= |words| && words[b] == total && words[b + 2] == blocks[k] + total
             && words[n] == was[b] - total && words[n + 2] == was[b + 2] && words[n + 1] % 0x1_0000_0000 != 0
             && forall w :: 0 <= w < |was| && !(b <= w < b + 3) && !(n <= w < n + 3) ==> words[w] == was[w]
    ensures CutAt(was, blocks, k, total, words)
  {
    assert Ix(blocks[k] + total) == Ix(blocks[k]) + total / 8;
  }

  lemma FlagAfterCut(words: seq<Word>, blocks: seq<nat>, k: nat, total: nat, cut: seq<Word>, words': seq<Word>)
    requires k < |blocks| && BlockOk(words, blocks[k]) && CutAt(words, blocks, k, total, cut)
    requires words' == cut[Ix(blocks[k]) + 1 := WithFlag(cut[Ix(blocks[k]) + 1], false)]
    ensures CutAt(words, blocks, k, total, words') && !FreeAt(words', blocks[k])
  {
    assert Ix(blocks[k] + total) == Ix(blocks[k]) + total / 8;
  }

  /** Taking a block whose rest was cut off. */
  lemma CutStep(s: Snapshot, k: nat, total: nat, cut: seq<Word>, words: seq<Word>)
    requires WellFormed(s.words, s.first, s.blocks, s.owner) && k < |s.blocks| && BlockOk(s.words, s.blocks[k])
    requires Fits(s.words, s.blocks[k], total) && CutAt(s.words, s.blocks, k, total, cut)
    requires words == cut[Ix(s.blocks[k]) + 1 := WithFlag(cut[Ix(s.blocks[k]) + 1], false)]
    ensures var n := s.blocks[k] + total;
            && InHeap(words, n)
            && Step(s, Alloc(s.blocks[k], total),
                    Snapshot(words, s.first, CutBlocks(s.blocks, k, total), CutOwner(s.owner, n, words[Ix(n)])))
  {
    hide WellFormed, Took;
    FlagAfterCut(s.words, s.blocks, k, total, cut, words);
    CutTakes(s.words, s.first, s.blocks, s.owner, k, total, words);
    CutKeepsForm(s.words, s.first, s.blocks, s.owner, k, total, words);
  }

  /** Taking a whole block. */
  lemma WholeStep(s: Snapshot, k: nat, total: nat, words: seq<Word>)
    requires WellFormed(s.words, s.first, s.blocks, s.owner) && k < |s.blocks| && BlockOk(s.words, s.blocks[k])
    requires HEADER + 8 <= total && Fits(s.words, s.blocks[k], total)
             && SizeAt(s.words, s.blocks[k]) < total + HEADER + 8
    requires words == s.words[Ix(s.blocks[k]) + 1 := WithFlag(s.words[Ix(s.blocks[k]) + 1], false)]
    ensures Step(s, Alloc(s.blocks[k], total), s.(words := words))
  {
    hide WellFormed;
    FlagStored(s.words, s.first, s.blocks, s.owner, k, words[Ix(s.blocks[k]) + 1], words);
  }

  /** The heap of heap_init: one free block of a page. */
  lemma FirstBlock(page: seq<Word>)
    requires Grown([], 0, 512, page) && page[1] % 0x1_0000_0000 != 0
    ensures WellFormed(page, HEAP_START, [HEAP_START], GrownOwner([], HEAP_START, 512))
    ensures forall b :: !LiveIn(page, [HEAP_START], b)
  {
    assert WellFormed([], 0, [], []);
    GrowthKeepsForm([], 0, [], [], 512, page);
    assert [HEAP_START] + [] == [HEAP_START];
  }

  /** What the list says of its blocks. */
  lemma FormFacts(s: Snapshot)
    requires WellFormed(s.words, s.first, s.blocks, s.owner)
    ensures Linked(s.words, s.first, s.blocks)
  {
  }

  /** Growing the heap first changes no block that was there. */
  lemma GrowthThenTake(s: Snapshot, t: Snapshot, u: Snapshot, b: nat, total: nat)
    requires WellFormed(s.words, s.first, s.blocks, s.owner) && Step(t, Alloc(b, total), u)
    requires |t.words| >= |s.words| && t.words[..|s.words|] == s.words
    requires t.blocks == [b] + s.blocks && b == HEAP_START + 8 * |s.words|
    ensures Step(s, Alloc(b, total), u)
  {
    forall c | c in s.blocks
      ensures BlockOk(s.words, c) && BlockOk(t.words, c) && SizeAt(t.words, c) == SizeAt(s.words, c) && c != b
      ensures FreeAt(t.words, c) == FreeAt(s.words, c) && PayloadKept(s.words, t.words, c)
    {
      var j :| 0 <= j < |s.blocks| && s.blocks[j] == c;
      assert BlockOk(s.words, c);
      forall w | 0 <= w < |s.words|
        ensures t.words[w] == s.words[w]
      {
        assert t.words[..|s.words|][w] == s.words[w];
      }
    }
    forall c | c != b
      ensures LiveIn(t.words, t.blocks, c) <==> LiveIn(s.words, s.blocks, c)
    {
    }
    forall c | LiveIn(s.words, s.blocks, c) && c != b
      ensures LiveIn(u.words, u.blocks, c) && SizeAt(u.words, c) == SizeAt(s.words, c)
              && PayloadKept(s.words, u.words, c)
    {
      assert LiveIn(t.words, t.blocks, c);
      assert PayloadKept(t.words, u.words, c);
    }
  }

  lemma ListHeadIsWord(words: seq<Word>, first: nat, blocks: seq<nat>, owner: seq<nat>)
    requires WellFormed(words, first, blocks, owner) && |words| < 0x1_0000_0000
    ensures first < WORD_LIMIT
  {
    if blocks != [] { assert BlockOk(words, blocks[0]); }
  }

  class KernelHeap {
    const spaces: KernelSpaces
    ghost var words: seq<Word>
    /** free_list; 0 is NULL */
    var freeList: nat
    /** The blocks in list order, and the owner of every word. */
    ghost var blocks: seq<nat>
    ghost var owner: seq<nat>

    /** The words are those of the frames behind the heap window. */
    ghost predicate Backed()
      reads this`words, spaces, spaces.vm, spaces.vm.ram
    {
      && spaces.Valid() && HeapOwned(spaces.At()) && spaces.heapEnd == HEAP_START + 8 * |words| <= HEAP_LIMIT
      && forall i :: 0 <= i < |words| ==> InMemory(spaces.At(), words, i)
    }

    ghost predicate Valid()
      reads this, spaces, spaces.vm, spaces.vm.ram
    {
      Backed() && WellFormed(words, freeList, blocks, owner)
    }

    lemma BackedSize()
      requires Backed()
      ensures spaces.heapEnd == HEAP_START + 8 * |words| && |words| < 0x1000_0000
    {
      hide KernelSpaces.Valid;
    }

    /** *(uint64_t *)(HEAP_START + 8 * i) */
    method Load(i: nat) returns (w: Word)
      requires Backed() && i < |words|
      ensures w == words[i]
    {
      hide KernelSpaces.Valid, HeapOwned, Owned, HeapWord;
      assert InMemory(spaces.At(), words, i);
      w := spaces.LoadHeap(HEAP_START + 8 * i);
    }

    method Put(i: nat, w: Word)
      requires Backed() && i < |words|
      modifies this`words, spaces.vm.ram
      ensures Backed() && words == old(words)[i := w]
      ensures SpaceRuns.OnlyHeap(old(spaces.At()), spaces.At())
    {
      hide KernelSpaces.Valid, SpaceRuns.OnlyHeap, SpaceRuns.Step, HeapOwned, Owned;
      ghost var before := spaces.At();
      spaces.StoreHeap(HEAP_START + 8 * i, w);
      words := words[i := w];
      forall j | 0 <= j < |words|
        ensures InMemory(spaces.At(), words, j)
      {
        assert InMemory(before, old(words), j);
        WordAligned(j);
      }
    }

    /**
     The heap survives whatever is done beside it: exec, fork, page faults and stores of user programs on the same
     address spaces leave a valid heap valid.
     */
    twostate lemma Survives(es: seq<SpaceRuns.Event>)
      requires old(Valid()) && spaces.Valid() && SpaceRuns.Path(old(spaces.At()), es, spaces.At()) && Quiet(es)
      requires words == old(words) && freeList == old(freeList) && blocks == old(blocks) && owner == old(owner)
      ensures Valid()
    {
      hide SpaceRuns.Path, Quiet, Owned, HeapOwned, InMemory, WellFormed;
      QuietKeepsWords(old(spaces.At()), es, spaces.At(), words);
    }

    /** In the terms in which exec and demand paging say what they do. */
    twostate lemma SurvivesWork(root: nat)
      requires old(Valid()) && spaces.Valid() && SpaceRuns.Worked(old(spaces.At()), spaces.At(), root)
      requires words == old(words) && freeList == old(freeList) && blocks == old(blocks) && owner == old(owner)
      ensures Valid()
    {
      hide SpaceRuns.Path, SpaceRuns.IsOn, Valid, KernelSpaces.Valid;
      var es: seq<SpaceRuns.Event> :| SpaceRuns.Path(old(spaces.At()), es, spaces.At()) && SpaceRuns.On(es, root);
      forall k | 0 <= k < |es|
        ensures !es[k].PutHeap? && !es[k].GrowHeap?
      {
        OnIsQuiet(es[k], root);
      }
      Survives(es);
    }

    ghost predicate Live(b: nat)
      reads this
    {
      LiveIn(words, blocks, b)
    }

    ghost function Now(): Snapshot
      reads this
    {
      Snapshot(words, freeList, blocks, owner)
    }

    /** Block k is the first of the list that is free and large enough. */
    ghost predicate FirstFit(k: nat, total: nat)
      reads this
    {
      && k < |blocks| && BlockOk(words, blocks[k]) && Fits(words, blocks[k], total)
      && forall j :: 0 <= j < k ==> BlockOk(words, blocks[j]) && !Fits(words, blocks[j], total)
    }

    ghost predicate HasFit(total: nat)
      reads this
    {
      exists k :: 0 <= k < |blocks| && BlockOk(words, blocks[k]) && Fits(words, blocks[k], total)
    }

    /** Fresh pages read as zeros. */
    lemma ClearIsBacked(old_: seq<Word>, end: nat)
      requires spaces.Valid() && HeapOwned(spaces.At()) && NewPagesClear(spaces.At(), end)
      requires end == HEAP_START + 8 * |old_| && spaces.heapEnd == HEAP_START + 8 * |words| <= HEAP_LIMIT
               && |old_| <= |words|
      requires words == old_ + seq(|words| - |old_|, _ => 0)
      requires forall i :: 0 <= i < |old_| ==> InMemory(spaces.At(), old_, i)
      ensures Backed()
    {
      hide KernelSpaces.Valid;
      forall i | 0 <= i < |words|
        ensures InMemory(spaces.At(), words, i)
      {
        if i < |old_| { assert InMemory(spaces.At(), old_, i); }
        assert Owned(spaces.At(), HEAP_START + 8 * i);
      }
    }

    /** heap_init, over the page that Boot has mapped. */
    constructor (spaces: KernelSpaces)
      requires spaces.Valid() && spaces.heapEnd == HEAP_START + PAGE_SIZE
      requires HeapOwned(spaces.At()) && NewPagesClear(spaces.At(), HEAP_START)
      modifies spaces.vm.ram
      ensures Valid() && this.spaces == spaces && blocks == [HEAP_START] && forall b :: !Live(b)
    {
      hide KernelSpaces.Valid, WellFormed, HeapOwned, Backed;
      this.spaces := spaces;
      words := seq(512, _ => 0);
      freeList := HEAP_START;
      blocks := [HEAP_START];
      owner := GrownOwner([], HEAP_START, 512);
      new;
      ClearIsBacked([], HEAP_START);
      Put(0, PAGE_SIZE);
      var flag := Load(1);
      Put(1, WithFlag(flag, true));
      Put(2, 0);
      FirstBlock(words);
    }

    /** The loop of expand_heap. */
    method MapPages(size: nat) returns (ok: bool)
      requires Backed() && size > 0 && spaces.heapEnd + Rounded(size) <= HEAP_LIMIT
      modifies this`words, spaces`heapEnd, spaces.vm`roles, spaces.vm.ram
      ensures !ok ==> spaces.vm.ram.free == {}
      ensures ok ==> Backed() && words == old(words) + seq(Rounded(size) / 8, _ => 0)
      ensures ok ==> spaces.heapEnd == old(spaces.heapEnd) + Rounded(size)
      ensures ok ==> SpaceRuns.OnlyHeap(old(spaces.At()), spaces.At())
    {
      RoundedWords(size);
      hide KernelSpaces.Valid, SpaceRuns.OnlyHeap, SpaceRuns.Path, HeapOwned, Owned, InMemory, NewPagesClear, HeapKept,
           Rounded;
      ghost var before := spaces.At();
      ok := spaces.ExpandHeap(size);
      if !ok { return; }
      ghost var was := words;
      words := words + seq(Rounded(size) / 8, _ => 0);
      forall i | 0 <= i < |was|
        ensures InMemory(spaces.At(), was, i)
      {
        KeptInMemory(before, spaces.At(), was, i);
      }
      ClearIsBacked(was, before.end);
    }

    /** The header of the new block, and its place at the front of the list. */
    method PushBlock(at: nat, size: nat)
      requires Backed() && HEAP_START <= at && at % 8 == 0 && Ix(at) + 3 <= |words| && size < WORD_LIMIT
               && freeList < WORD_LIMIT
      modifies this`words, spaces.vm.ram
      ensures Backed() && SpaceRuns.OnlyHeap(old(spaces.At()), spaces.At()) && |words| == old(|words|)
      ensures words[Ix(at)] == size && words[Ix(at) + 1] % 0x1_0000_0000 != 0 && words[Ix(at) + 2] == freeList
      ensures forall w :: 0 <= w < |words| && !(Ix(at) <= w < Ix(at) + 3) ==> words[w] == old(words)[w]
    {
      hide Backed, SpaceRuns.OnlyHeap;
      ghost var a := spaces.At();
      Put(Ix(at), size);
      ghost var b := spaces.At();
      var flag := Load(Ix(at) + 1);
      Put(Ix(at) + 1, WithFlag(flag, true));
      ghost var c := spaces.At();
      SpaceRuns.OnlyHeapTransitive(a, b, c);
      Put(Ix(at) + 2, freeList);
      SpaceRuns.OnlyHeapTransitive(a, c, spaces.At());
    }

    /** expand_heap: maps the pages and pushes them as one block; ok is false where it panics. */
    method Expand(size: nat) returns (ok: bool)
      requires Valid() && size > 0 && spaces.heapEnd + Rounded(size) <= HEAP_LIMIT
      modifies this, spaces`heapEnd, spaces.vm`roles, spaces.vm.ram
      ensures !ok ==> spaces.vm.ram.free == {}
      ensures ok ==> Valid() && |words| > old(|words|) && words[..old(|words|)] == old(words)
      ensures ok ==> spaces.heapEnd == old(spaces.heapEnd) + Rounded(size)
      ensures ok ==> blocks == [HEAP_START + 8 * old(|words|)] + old(blocks)
      ensures ok ==> BlockOk(words, blocks[0]) && Fits(words, blocks[0], size)
      ensures ok ==> SpaceRuns.OnlyHeap(old(spaces.At()), spaces.At())
    {
      hide KernelSpaces.Valid, WellFormed, SpaceRuns.OnlyHeap, HeapOwned, Backed, WithFlag;
      var startVa := spaces.heapEnd;
      ghost var was, before := words, spaces.At();
      BackedSize();
      ListHeadIsWord(words, freeList, blocks, owner);
      ok := MapPages(size);
      if !ok { return; }
      ghost var mapped := spaces.At();
      BackedSize();
      PushBlock(startVa, Rounded(size));
      SpaceRuns.OnlyHeapTransitive(before, mapped, spaces.At());
      GrowthKeepsForm(was, freeList, blocks, owner, Rounded(size) / 8, words);
      freeList := startVa;
      blocks := [startVa] + blocks;
      owner := GrownOwner(owner, startVa, Rounded(size) / 8);
    }

    /** ptr points behind the header of the first fitting block. */
    ghost predicate IsFirstFit(ptr: nat, total: nat)
      reads this
    {
      exists k: nat :: FirstFit(k, total) && ptr == blocks[k] + HEADER
    }

    /** After the heap grew, the new block is the one. */
    lemma OnlyFirstFit(total: nat)
      requires FirstFit(0, total)
      ensures HasFit(total) && forall ptr :: IsFirstFit(ptr, total) ==> ptr == blocks[0] + HEADER
    {
      hide BlockOk, Fits;
      forall ptr | IsFirstFit(ptr, total)
        ensures ptr == blocks[0] + HEADER
      {
        var k: nat :| FirstFit(k, total) && ptr == blocks[k] + HEADER;
        assert k == 0;
      }
    }

    /** The search of kmalloc: the first block of the list that is free and large enough, or NULL. */
    method Find(total: nat) returns (curr: nat, ghost k: nat)
      requires Valid()
      ensures curr != 0 ==> FirstFit(k, total) && curr == blocks[k] && HEAP_START <= curr && curr % 8 == 0
      ensures curr == 0 <==> !HasFit(total)
    {
      hide Backed, WellFormed;
      curr, k := freeList, 0;
      FormFacts(Now());
      while curr != 0
        invariant k <= |blocks| && curr == (if k < |blocks| then blocks[k] else 0)
        invariant forall j :: 0 <= j < k ==> BlockOk(words, blocks[j]) && !Fits(words, blocks[j], total)
        decreases |blocks| - k
      {
        assert BlockOk(words, blocks[k]) && NextAt(words, blocks[k]) == After(blocks, k);
        var isFree := Load(Ix(curr) + 1);
        var size := Load(Ix(curr));
        if isFree % 0x1_0000_0000 != 0 && size >= total { return; }
        curr := Load(Ix(curr) + 2);
        k := k + 1;
      }
    }

    /** Stores is_free. */
    method Mark(i: nat, free: bool)
      requires Backed() && i < |words|
      modifies this`words, spaces.vm.ram
      ensures Backed() && words == old(words)[i := WithFlag(old(words)[i], free)]
      ensures SpaceRuns.OnlyHeap(old(spaces.At()), spaces.At())
    {
      hide Backed, SpaceRuns.OnlyHeap;
      var flag := Load(i);
      Put(i, WithFlag(flag, free));
    }

    /** The rest of block k becomes a block of its own, behind it in the list. */
    method Split(b: nat, total: nat, ghost k: nat)
      requires Backed() && k < |blocks| && blocks[k] == b && BlockOk(words, b) && |words| < 0x1_0000_0000
      requires total % 8 == 0 && total >= HEADER + 8 && SizeAt(words, b) >= total + HEADER + 8
      modifies this`words, spaces.vm.ram
      ensures Backed() && |words| == old(|words|) && CutAt(old(words), blocks, k, total, words)
      ensures SpaceRuns.OnlyHeap(old(spaces.At()), spaces.At())
    {
      hide Backed, SpaceRuns.OnlyHeap, WithFlag;
      ghost var was, a := words, spaces.At();
      var n := b + total;
      assert Ix(n) == Ix(b) + total / 8 && Ix(n) + 4 <= Ix(b) + SizeAt(words, b) / 8;
      var size := Load(Ix(b));
      var next := Load(Ix(b) + 2);
      Put(Ix(n), size - total);
      ghost var c := spaces.At();
      Mark(Ix(n) + 1, true);
      SpaceRuns.OnlyHeapTransitive(a, c, spaces.At());
      c := spaces.At();
      Put(Ix(n) + 2, next);
      SpaceRuns.OnlyHeapTransitive(a, c, spaces.At());
      c := spaces.At();
      Put(Ix(b), total);
      SpaceRuns.OnlyHeapTransitive(a, c, spaces.At());
      c := spaces.At();
      Put(Ix(b) + 2, n);
      SpaceRuns.OnlyHeapTransitive(a, c, spaces.At());
      CutIs(was, blocks, k, total, words);
    }

    /**
     What kmalloc does once it has found block k: cut off what is left over, if that is worth a block, and mark it.
     */
    method Take(b: nat, total: nat, ghost k: nat)
      requires Valid() && k < |blocks| && blocks[k] == b && BlockOk(words, b) && Fits(words, b, total)
      requires total % 8 == 0 && total >= HEADER + 8
      modifies this`words, this`blocks, this`owner, spaces.vm.ram
      ensures Valid() && Step(old(Now()), Alloc(b, total), Now())
      ensures SpaceRuns.OnlyHeap(old(spaces.At()), spaces.At())
    {
      hide Backed, WellFormed, CutAt, Took, WithFlag, CutBlocks, CutOwner, OthersKept, LiveIn, SpaceRuns.OnlyHeap;
      ghost var before, spacesBefore := Now(), spaces.At();
      var i := Ix(b);
      assert i + 1 < |words|;
      SpaceRuns.OnlyHeapItself(spaces.At());
      BackedSize();
      var size := Load(i);
      if size >= total + HEADER + 8 {
        Split(b, total, k);
        ghost var cut, spacesCut := words, spaces.At();
        Mark(i + 1, false);
        SpaceRuns.OnlyHeapTransitive(spacesBefore, spacesCut, spaces.At());
        CutStep(before, k, total, cut, words);
        owner := CutOwner(owner, b + total, words[Ix(b + total)]);
        blocks := CutBlocks(blocks, k, total);
        assert Now().words == words;
      } else {
        Mark(i + 1, false);
        WholeStep(before, k, total, words);
      }
    }

    /**
     kmalloc.  The caller's premises: the size does not wrap, and when no block fits the heap has room to grow within
     its gigabyte.  ok is false only where expand_heap panics.
     */
    method Kmalloc(size: nat) returns (ok: bool, ptr: nat)
      requires Valid() && Total(size) < WORD_LIMIT
      requires HasFit(Total(size)) || spaces.heapEnd + Rounded(Total(size)) <= HEAP_LIMIT
      modifies this, spaces`heapEnd, spaces.vm`roles, spaces.vm.ram
      ensures !ok ==> size > 0 && !old(HasFit(Total(size))) && spaces.vm.ram.free == {}
      ensures ok ==> Valid()
      ensures size == 0 ==> ok && ptr == 0 && Now() == old(Now()) && spaces.heapEnd == old(spaces.heapEnd)
      ensures ok && size > 0 ==> ptr >= HEAP_START + HEADER && ptr % 8 == 0
      ensures ok && size > 0 ==> Step(old(Now()), Alloc(ptr - HEADER, Total(size)), Now())
      ensures old(HasFit(Total(size))) ==> spaces.heapEnd == old(spaces.heapEnd)
      ensures size > 0 && old(HasFit(Total(size))) ==> old(IsFirstFit(ptr, Total(size)))
      ensures ok && size > 0 && !old(HasFit(Total(size))) ==>
                ptr - HEADER == old(spaces.heapEnd) && spaces.heapEnd == old(spaces.heapEnd) + Rounded(Total(size))
      ensures ok ==> SpaceRuns.OnlyHeap(old(spaces.At()), spaces.At())
      decreases if HasFit(Total(size)) then 0 else 1
    {
      hide Backed, WellFormed, BlockOk, Fits, Step, Total, Rounded, SpaceRuns.OnlyHeap;
      SpaceRuns.OnlyHeapItself(spaces.At());
      if size == 0 { return true, 0; }
      BackedSize();
      var total := Total(size);
      ghost var before, spacesBefore := Now(), spaces.At();
      ghost var k;
      ptr, k := Find(total);
      if ptr != 0 {
        assert IsFirstFit(ptr + HEADER, total);
        Take(ptr, total, k);
        return true, ptr + HEADER;
      }
      ok := Expand(total);
      if !ok { return false, 0; }
      assert FirstFit(0, total);
      ghost var between, spacesBetween := Now(), spaces.At();
      OnlyFirstFit(total);
      ok, ptr := Kmalloc(size);
      SpaceRuns.OnlyHeapTransitive(spacesBefore, spacesBetween, spaces.At());
      GrowthThenTake(before, between, Now(), ptr - HEADER, total);
    }

    /** kfree, for NULL or a pointer into the list; freeing twice changes nothing. */
    method Kfree(ptr: nat)
      requires Valid() && (ptr == 0 || (ptr >= HEADER && ptr - HEADER in blocks))
      modifies this`words, spaces.vm.ram
      ensures Valid() && (ptr == 0 ==> words == old(words))
      ensures ptr != 0 ==> Step(old(Now()), Release(ptr - HEADER), Now())
      ensures ptr != 0 ==> GivenBack(old(words), words, ptr - HEADER)
      ensures SpaceRuns.OnlyHeap(old(spaces.At()), spaces.At())
    {
      hide Backed, WellFormed, SpaceRuns.OnlyHeap, OthersKept, LiveIn;
      SpaceRuns.OnlyHeapItself(spaces.At());
      if ptr == 0 { return; }
      var b := ptr - HEADER;
      FormFacts(Now());
      ghost var k: nat :| k < |blocks| && blocks[k] == b;
      assert BlockOk(words, blocks[k]);
      ghost var before := Now();
      Mark(Ix(b) + 1, true);
      FreeStep(before, k, words);
    }

    /** A client's store of a word through a pointer into a block that it holds. */
    method StoreWord(addr: nat, v: Word, ghost b: nat)
      requires Valid() && Live(b) && addr % 8 == 0 && b + HEADER <= addr < b + SizeAt(words, b)
      modifies this`words, spaces.vm.ram
      ensures Valid() && Step(old(Now()), Store(b, Ix(addr), v), Now())
      ensures SpaceRuns.OnlyHeap(old(spaces.At()), spaces.At())
    {
      hide Backed, WellFormed, SpaceRuns.OnlyHeap;
      PutKeepsForm(words, freeList, blocks, owner, b, Ix(addr), v);
      Put(Ix(addr), v);
    }
  }
}
