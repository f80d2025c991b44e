/**
 Machine words, bytes and bits.

 A 64-bit word is a natural number below 2^64.  The kernel's masks and shifts by constants are written as
 division and remainder; the byte and bit accesses that the kernel makes inside a word are the lenses below.
 */
module Words {
  const WORD_LIMIT: nat := 0x1_0000_0000_0000_0000
  const PAGE_SIZE: nat := 4096
  const PAGE_WORDS: nat := 512

  type Word = w: nat | w < WORD_LIMIT

  /** One physical frame: 512 words. */
  type Page = p: seq<Word> | |p| == 512 witness seq(512, i => 0)

  /** Physical memory by frame number. */
  type Mem = map<nat, Page>

  function ZeroPage(): (p: Page)
    ensures forall i :: 0 <= i < 512 ==> p[i] == 0
  {
    seq(512, i => 0)
  }

  function Pow(b: nat, e: nat): (r: nat)
    requires b > 0
    ensures r > 0
  {
    if e == 0 then 1 else b * Pow(b, e - 1)
  }

  // --- bits -----------------------------------------------------------------------------------------------

  /** Is bit i of w set, that is (w & (1 << i)) != 0? */
  predicate Bit(w: nat, i: nat)
    decreases i
  {
    if i == 0 then w % 2 == 1 else Bit(w / 2, i - 1)
  }

  /** w | (1 << i) */
  function SetBit(w: nat, i: nat): nat
    decreases i
  {
    if i == 0 then w / 2 * 2 + 1 else SetBit(w / 2, i - 1) * 2 + w % 2
  }

  /** w & ~(1 << i) */
  function ClearBit(w: nat, i: nat): nat
    decreases i
  {
    if i == 0 then w / 2 * 2 else ClearBit(w / 2, i - 1) * 2 + w % 2
  }

  lemma {:induction false} BitOfSetBit(w: nat, i: nat, j: nat)
    ensures Bit(SetBit(w, i), j) == (i == j || Bit(w, j))
    decreases i
  {
    if i > 0 && j > 0 {
      BitOfSetBit(w / 2, i - 1, j - 1);
    }
  }

  lemma {:induction false} BitOfClearBit(w: nat, i: nat, j: nat)
    ensures Bit(ClearBit(w, i), j) == (i != j && Bit(w, j))
    decreases i
  {
    if i > 0 && j > 0 {
      BitOfClearBit(w / 2, i - 1, j - 1);
    }
  }

  lemma {:induction false} BitUpdateBounds(w: nat, i: nat, n: nat)
    requires w < Pow(2, n) && i < n
    ensures SetBit(w, i) < Pow(2, n) && ClearBit(w, i) < Pow(2, n)
    decreases i
  {
    var half := Pow(2, n - 1);
    assert Pow(2, n) == 2 * half;
    hide Pow;
    assert w / 2 < half;
    if i > 0 {
      BitUpdateBounds(w / 2, i - 1, n - 1);
    }
  }

  lemma {:induction false} BitOfZero(i: nat)
    ensures !Bit(0, i)
    decreases i
  {
    if i > 0 {
      BitOfZero(i - 1);
    }
  }

  // --- bytes ----------------------------------------------------------------------------------------------

  /** Byte k of a little-endian word. */
  function Digit(w: nat, k: nat): (d: nat)
    ensures d < 256
    decreases k
  {
    if k == 0 then w % 256 else Digit(w / 256, k - 1)
  }

  function SetDigit(w: nat, k: nat, d: nat): nat
    requires d < 256
    decreases k
  {
    if k == 0 then w / 256 * 256 + d else SetDigit(w / 256, k - 1, d) * 256 + w % 256
  }

  lemma {:induction false} DigitOfSetDigit(w: nat, k: nat, d: nat, j: nat)
    requires d < 256
    ensures Digit(SetDigit(w, k, d), j) == if j == k then d else Digit(w, j)
    decreases k
  {
    if k > 0 && j > 0 {
      DigitOfSetDigit(w / 256, k - 1, d, j - 1);
    }
  }

  lemma {:induction false} SetDigitBound(w: nat, k: nat, d: nat, n: nat)
    requires d < 256 && w < Pow(256, n) && k < n
    ensures SetDigit(w, k, d) < Pow(256, n)
    decreases k
  {
    if k > 0 {
      assert w / 256 < Pow(256, n - 1);
      SetDigitBound(w / 256, k - 1, d, n - 1);
    }
  }

  lemma {:induction false} DigitOfZero(k: nat)
    ensures Digit(0, k) == 0
    decreases k
  {
    if k > 0 {
      DigitOfZero(k - 1);
    }
  }

  lemma WordLimitIsEightBytes()
    ensures Pow(256, 8) == WORD_LIMIT
  {
    assert Pow(256, 2) == 0x1_0000;
    assert Pow(256, 4) == 0x1_0000_0000;
    assert Pow(256, 6) == 0x1_0000_0000_0000;
  }

  lemma ByteIsEightBits()
    ensures Pow(2, 8) == 256
  {
    assert Pow(2, 4) == 16;
  }

  // --- bytes of a page and of memory ------------------------------------------------------------------------

  function PageByte(p: Page, off: nat): (b: nat)
    requires off < PAGE_SIZE
    ensures b < 256
  {
    Digit(p[off / 8], off % 8)
  }

  function SetPageByte(p: Page, off: nat, b: nat): (q: Page)
    requires off < PAGE_SIZE && b < 256
    ensures forall o :: 0 <= o < PAGE_SIZE ==> PageByte(q, o) == if o == off then b else PageByte(p, o)
    ensures forall i :: 0 <= i < 512 && i != off / 8 ==> q[i] == p[i]
  {
    WordLimitIsEightBytes();
    SetDigitBound(p[off / 8], off % 8, b, 8);
    var q: Page := p[off / 8 := SetDigit(p[off / 8], off % 8, b)];
    assert forall o :: 0 <= o < PAGE_SIZE ==> PageByte(q, o) == if o == off then b else PageByte(p, o) by {
      forall o | 0 <= o < PAGE_SIZE
        ensures PageByte(q, o) == if o == off then b else PageByte(p, o)
      {
        DigitOfSetDigit(p[off / 8], off % 8, b, o % 8);
      }
    }
    q
  }

  lemma ZeroPageBytes(off: nat)
    requires off < PAGE_SIZE
    ensures PageByte(ZeroPage(), off) == 0
  {
    DigitOfZero(off % 8);
  }

  /** The byte at a physical address. */
  function ByteAt(m: Mem, addr: nat): (b: nat)
    requires addr / PAGE_SIZE in m
    ensures b < 256
  {
    PageByte(m[addr / PAGE_SIZE], addr % PAGE_SIZE)
  }
}
