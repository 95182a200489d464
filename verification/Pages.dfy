/** Memory blocks and the transaction-local page that shadows one block (modules/tm/src/block.h,
    modules/tm/src/page.c).
    - A bitmap is the list of its eight low bits, lowest bit first, so a shift of the bitmap is a shift of the list.
    - A page's buffer has the bytes that its bitmap calls valid. In write-back mode these are what its owner sees, in
      write-through mode what an abort restores.
    - Each access to a block is a function of the page and of the word in memory. */
module Pages {
  import opened Common

  const BLOCK_SIZE: nat := 8

  /** The contents of one block. */
  type Word = w: seq<Byte> | |w| == BLOCK_SIZE witness [0, 0, 0, 0, 0, 0, 0, 0]

  /** One validity bit per byte of a block. */
  type Bits = b: seq<bool> | |b| == BLOCK_SIZE
    witness [false, false, false, false, false, false, false, false]

  datatype Page = Page(writeThrough: bool, discarded: bool, status: LockStatus, buf: Word, valid: Bits)

  function NoBits(): Bits {
    seq(BLOCK_SIZE, _ => false)
  }

  function AllBits(): Bits {
    seq(BLOCK_SIZE, _ => true)
  }

  function ZeroWord(): Word {
    seq(BLOCK_SIZE, _ => 0)
  }

  function ShiftRight(bits: Bits, k: nat): Bits
    requires k <= BLOCK_SIZE
  {
    bits[k..] + NoBits()[..k]
  }

  function ShiftLeft(bits: Bits, k: nat): Bits
    requires k <= BLOCK_SIZE
  {
    NoBits()[..k] + bits[..BLOCK_SIZE - k]
  }

  /** The bytes of the block at `addr` that an access of `siz` bytes from `addr` touches. */
  function CopyBits(addr: nat, siz: nat): Bits {
    ShiftLeft(ShiftRight(AllBits(), BLOCK_SIZE - Min(siz, BLOCK_SIZE)), addr % BLOCK_SIZE)
  }

  function RangeBits(off: nat, n: nat): Bits {
    seq(BLOCK_SIZE, i => off <= i < off + n)
  }

  /** The shifts select exactly the bytes of the range that fall into the block. */
  lemma CopyBitsSelectsRange(addr: nat, siz: nat)
    ensures CopyBits(addr, siz) == RangeBits(addr % BLOCK_SIZE, Min(siz, BLOCK_SIZE - addr % BLOCK_SIZE))
  {
    var off := addr % BLOCK_SIZE;
    var k := BLOCK_SIZE - Min(siz, BLOCK_SIZE);
    var low := ShiftRight(AllBits(), k);
    forall i | 0 <= i < BLOCK_SIZE
      ensures low[i] == (i < BLOCK_SIZE - k)
    {
      assert i < BLOCK_SIZE - k ==> low[i] == AllBits()[k..][i];
    }
    assert forall i :: 0 <= i < BLOCK_SIZE ==> ShiftLeft(low, off)[i] == if i < off then false else low[i - off];
  }

  /** tm_page_ld: copies the selected bytes that are not yet valid out of memory. */
  function LoadBits(p: Page, bits: Bits, w: Word): Page {
    p.(buf := seq(BLOCK_SIZE, i requires 0 <= i < BLOCK_SIZE => if bits[i] && !p.valid[i] then w[i] else p.buf[i]),
       valid := seq(BLOCK_SIZE, i requires 0 <= i < BLOCK_SIZE => p.valid[i] || bits[i]))
  }

  /** tm_page_st: the block's contents after the selected valid bytes are written back. */
  function StoreBits(p: Page, bits: Bits, w: Word): Word {
    seq(BLOCK_SIZE, i requires 0 <= i < BLOCK_SIZE => if bits[i] && p.valid[i] then p.buf[i] else w[i])
  }

  /** Memory with all valid bytes of the page's buffer laid over it. */
  function Overlay(p: Page, w: Word): Word {
    StoreBits(p, AllBits(), w)
  }

  /** apply_page and undo_page: what the walk at the end of a transaction leaves of a block. */
  function Written(p: Page, undo: bool, w: Word): Word {
    if p.status == WrLocked && p.writeThrough == undo && !p.discarded then Overlay(p, w) else w
  }

  /** What the owner of the page reads, and what a commit leaves in memory. Write-through pages are read from memory;
      discarded pages are not read any more. */
  function View(p: Page, w: Word): Word {
    if p.writeThrough || p.discarded then w else Overlay(p, w)
  }

  /** What an abort leaves in memory: write-through pages restore their buffer. */
  function Saved(p: Page, w: Word): Word {
    Written(p, true, w)
  }

  function Splice(w: Word, off: nat, data: seq<Byte>): Word
    requires off + |data| <= BLOCK_SIZE
  {
    w[..off] + data + w[off + |data|..]
  }

  lemma SpliceIndex(w: Word, off: nat, data: seq<Byte>, i: nat)
    requires off + |data| <= BLOCK_SIZE && i < BLOCK_SIZE
    ensures Splice(w, off, data)[i] == if off <= i < off + |data| then data[i - off] else w[i]
  {
  }

  /** Loading more bytes never changes what the overlay shows. */
  lemma LoadKeepsOverlay(p: Page, bits: Bits, w: Word)
    ensures Overlay(LoadBits(p, bits, w), w) == Overlay(p, w)
  {
  }

  /** A store of `data` through the page: the page and the memory it leaves. */
  function StoreChunk(p: Page, off: nat, data: seq<Byte>, w: Word): (Page, Word)
    requires off + |data| <= BLOCK_SIZE
  {
    var q := LoadBits(p, RangeBits(off, |data|), w);
    if q.writeThrough then (q, Splice(w, off, data))
    else (q.(buf := Splice(q.buf, off, data)), w)
  }

  /** A store shows up in the owner's view at once, whichever of the two modes the page is in,
      and leaves what an abort would restore as it was. */
  lemma StoreChunkView(p: Page, off: nat, data: seq<Byte>, w: Word)
    requires off + |data| <= BLOCK_SIZE && p.status == WrLocked && !p.discarded
    ensures var (q, w') := StoreChunk(p, off, data, w);
            && View(q, w') == Splice(View(p, w), off, data)
            && Saved(q, w') == Saved(p, w)
            && q.status == p.status && q.writeThrough == p.writeThrough && q.discarded == p.discarded
            && (!p.writeThrough ==> w' == w)
  {
    var q := LoadBits(p, RangeBits(off, |data|), w);
    if p.writeThrough {
      var w' := Splice(w, off, data);
      forall i | 0 <= i < BLOCK_SIZE
        ensures Overlay(q, w')[i] == Overlay(p, w)[i]
      {
        SpliceIndex(w, off, data, i);
      }
    } else {
      var r := q.(buf := Splice(q.buf, off, data));
      forall i | 0 <= i < BLOCK_SIZE
        ensures Overlay(r, w)[i] == Splice(Overlay(p, w), off, data)[i]
      {
        SpliceIndex(q.buf, off, data, i);
        SpliceIndex(Overlay(p, w), off, data, i);
      }
    }
  }

  /** A load of n bytes through the page. */
  function LoadChunk(p: Page, off: nat, n: nat, w: Word): (Page, seq<Byte>)
    requires off + n <= BLOCK_SIZE
  {
    var q := LoadBits(p, RangeBits(off, n), w);
    (q, (if q.writeThrough then w else q.buf)[off..off + n])
  }

  /** A load returns the owner's view and changes neither view nor saved image. */
  lemma LoadChunkView(p: Page, off: nat, n: nat, w: Word)
    requires off + n <= BLOCK_SIZE && !p.discarded
    ensures var (q, data) := LoadChunk(p, off, n, w);
            && data == View(p, w)[off..off + n]
            && View(q, w) == View(p, w) && Saved(q, w) == Saved(p, w) && Overlay(q, w) == Overlay(p, w)
            && q.status == p.status && q.writeThrough == p.writeThrough && q.discarded == p.discarded
  {
    var (q, data) := LoadChunk(p, off, n, w);
    LoadKeepsOverlay(p, RangeBits(off, n), w);
    assert forall i :: off <= i < off + n ==> q.valid[i] && q.buf[i] == Overlay(p, w)[i];
  }

  /** Privatizing an access range: loads the range and switches the page to write-through. */
  function Privatize(p: Page, off: nat, n: nat, w: Word): Page
    requires off + n <= BLOCK_SIZE
  {
    LoadBits(p, RangeBits(off, n), w).(writeThrough := true)
  }

  /** The owner keeps seeing its own stores across the switch to write-through exactly when no
      buffered byte differs from memory; otherwise a buffered store disappears from its view. */
  lemma PrivatizeKeepsViewIff(p: Page, off: nat, n: nat, w: Word)
    requires off + n <= BLOCK_SIZE && !p.writeThrough && !p.discarded
    ensures View(Privatize(p, off, n, w), w) == View(p, w) <==>
            forall i :: 0 <= i < BLOCK_SIZE && p.valid[i] ==> p.buf[i] == w[i]
  {
    if Overlay(p, w) == w {
      forall i | 0 <= i < BLOCK_SIZE && p.valid[i] ensures p.buf[i] == w[i] {
        assert Overlay(p, w)[i] == p.buf[i];
      }
    }
  }

  /** In a commit, the walk leaves what the owner reads. */
  lemma CommitLeavesView(p: Page, w: Word)
    ensures p.status == WrLocked ==> Written(p, false, w) == View(p, w)
  {
  }

  /** Discarding a block. */
  function Discard(p: Page): Page {
    p.(discarded := true)
  }

  /** After that, a commit and an abort both leave what memory holds now. So nothing is lost, by a commit, and nothing
      stays behind, after an abort, exactly when no valid byte of the buffer differs from memory. */
  lemma DiscardKeepsIff(p: Page, w: Word)
    requires p.status == WrLocked && !p.discarded
    ensures View(Discard(p), w) == w == Saved(Discard(p), w)
    ensures View(Discard(p), w) == View(p, w) && Saved(Discard(p), w) == Saved(p, w) <==> View(p, w) == Saved(p, w)
    ensures View(p, w) == Saved(p, w) <==> forall i :: 0 <= i < BLOCK_SIZE && p.valid[i] ==> p.buf[i] == w[i]
  {
    if Overlay(p, w) == w {
      forall i | 0 <= i < BLOCK_SIZE && p.valid[i] ensures p.buf[i] == w[i] {
        assert Overlay(p, w)[i] == p.buf[i];
      }
    }
  }

  /** A store that is buffered when its block is discarded is lost in a commit. */
  lemma DiscardLosesStoreExample()
    ensures var p := Page(false, false, WrLocked, [7, 0, 0, 0, 0, 0, 0, 0], RangeBits(0, 1));
            Written(p, false, ZeroWord())[0] == 7 && Written(Discard(p), false, ZeroWord())[0] == 0
  {
  }

  /** A store that was made in place before its block is discarded stays in memory after an abort. */
  lemma DiscardKeepsStoreExample()
    ensures var p := Page(true, false, WrLocked, ZeroWord(), RangeBits(0, 1));
            var w := [7, 0, 0, 0, 0, 0, 0, 0];
            Written(p, true, w)[0] == 0 && Written(Discard(p), true, w)[0] == 7
  {
  }
}
