/** Byte-addressed memory as the pages of one transaction show it: the flat byte map that multi-block loads and stores
    refine (modules/tm/src/vmem_tx.c).
    - Two images of memory: what the transaction sees, which a commit leaves, and what an abort restores.
    - What an access reaches, and which locks it takes on its way.
    - What privatizing and discarding do to the two images, and when that makes a difference.
    - What the walks at the end of a transaction leave. */
module FlatMemory {
  import opened Common
  import opened Pages

  datatype Error = Ok | Conflicting | OutOfBounds

  /** Memory consists of whole blocks (modules/tm/src/block.h:32-38). */
  predicate Blocks(mem: seq<Byte>) {
    |mem| % BLOCK_SIZE == 0
  }

  function WordAt(mem: seq<Byte>, b: nat): Word
    requires b * BLOCK_SIZE + BLOCK_SIZE <= |mem|
  {
    mem[b * BLOCK_SIZE..b * BLOCK_SIZE + BLOCK_SIZE]
  }

  function SetWord(mem: seq<Byte>, b: nat, w: Word): (r: seq<Byte>)
    requires b * BLOCK_SIZE + BLOCK_SIZE <= |mem|
    ensures |r| == |mem|
  {
    mem[..b * BLOCK_SIZE] + w + mem[b * BLOCK_SIZE + BLOCK_SIZE..]
  }

  lemma SetWordIndex(mem: seq<Byte>, b: nat, w: Word, a: nat)
    requires b * BLOCK_SIZE + BLOCK_SIZE <= |mem| && a < |mem|
    ensures SetWord(mem, b, w)[a] == if a / BLOCK_SIZE == b then w[a % BLOCK_SIZE] else mem[a]
  {
  }

  lemma SetWordAt(mem: seq<Byte>, b: nat, w: Word, d: nat)
    requires b * BLOCK_SIZE + BLOCK_SIZE <= |mem| && d * BLOCK_SIZE + BLOCK_SIZE <= |mem|
    ensures WordAt(SetWord(mem, b, w), d) == if d == b then w else WordAt(mem, d)
  {
    forall i | 0 <= i < BLOCK_SIZE
      ensures WordAt(SetWord(mem, b, w), d)[i] == (if d == b then w else WordAt(mem, d))[i]
    {
      SetWordIndex(mem, b, w, d * BLOCK_SIZE + i);
    }
  }

  function EmptyPage(): Page {
    Page(false, false, Unlocked, ZeroWord(), NoBits())
  }

  function PageOf(pages: map<nat, Page>, b: nat): Page {
    if b in pages then pages[b] else EmptyPage()
  }

  /** What the transaction reads at each address, and what its commit leaves there. */
  function FlatView(pages: map<nat, Page>, mem: seq<Byte>): (r: seq<Byte>)
    requires Blocks(mem)
    ensures |r| == |mem|
  {
    seq(|mem|, a requires 0 <= a < |mem| =>
      View(PageOf(pages, a / BLOCK_SIZE), WordAt(mem, a / BLOCK_SIZE))[a % BLOCK_SIZE])
  }

  /** What an abort leaves at each address. */
  function FlatSaved(pages: map<nat, Page>, mem: seq<Byte>): (r: seq<Byte>)
    requires Blocks(mem)
    ensures |r| == |mem|
  {
    seq(|mem|, a requires 0 <= a < |mem| =>
      Saved(PageOf(pages, a / BLOCK_SIZE), WordAt(mem, a / BLOCK_SIZE))[a % BLOCK_SIZE])
  }

  /** The two images of memory: what the transaction sees and what an abort restores. */
  datatype Images = Images(seen: seq<Byte>, saved: seq<Byte>)

  function ImagesOf(pages: map<nat, Page>, mem: seq<Byte>): Images {
    if Blocks(mem) then Images(FlatView(pages, mem), FlatSaved(pages, mem)) else Images(mem, mem)
  }

  /** Pages lie in memory, and a page without a writer lock shows what memory holds. */
  predicate Coherent(pages: map<nat, Page>, mem: seq<Byte>) {
    forall b :: b in pages ==>
      && b * BLOCK_SIZE + BLOCK_SIZE <= |mem|
      && (pages[b].status != WrLocked ==> Overlay(pages[b], WordAt(mem, b)) == WordAt(mem, b))
  }

  /** At most a new page, not yet locked and without valid bytes, was added for the block. */
  ghost predicate SamePages(pages: map<nat, Page>, b: nat, pages': map<nat, Page>) {
    if b in pages then pages' == pages
    else b in pages' && pages' == pages[b := pages'[b]] && pages'[b] == EmptyPage().(buf := pages'[b].buf)
  }

  predicate Discarded(pages: map<nat, Page>, b: nat) {
    b in pages && pages[b].discarded
  }

  /** The page of the block is in write-through mode. */
  predicate Through(pages: map<nat, Page>, b: nat) {
    b in pages && pages[b].writeThrough
  }

  ghost predicate SameMarks(pages: map<nat, Page>, pages': map<nat, Page>) {
    forall b :: (Through(pages', b) <==> Through(pages, b)) && (Discarded(pages', b) <==> Discarded(pages, b))
  }

  /** The block has a byte of the range. */
  predicate Covers(addr: nat, n: nat, b: nat) {
    0 < n && addr / BLOCK_SIZE <= b && b * BLOCK_SIZE < addr + n
  }

  /** The blocks of the range, and no others, became discarded or else write-through. */
  ghost predicate Marked(pages: map<nat, Page>, pages': map<nat, Page>, discard: bool, addr: nat, n: nat) {
    forall b ::
      && (Through(pages', b) <==> Through(pages, b) || (!discard && Covers(addr, n, b)))
      && (Discarded(pages', b) <==> Discarded(pages, b) || (discard && Covers(addr, n, b)))
  }

  /** Behind k bytes of a range, the next n bytes lie in one block, which has not been reached yet. */
  predicate NextPiece(addr: nat, k: nat, n: nat) {
    (k == 0 || (addr + k) % BLOCK_SIZE == 0) && 0 < n && (addr + k) % BLOCK_SIZE + n <= BLOCK_SIZE
  }

  lemma CoversNext(addr: nat, k: nat, n: nat, b: nat)
    requires NextPiece(addr, k, n)
    ensures Covers(addr, k + n, b) <==> Covers(addr, k, b) || b == (addr + k) / BLOCK_SIZE
    ensures Covers(addr + k, n, b) <==> b == (addr + k) / BLOCK_SIZE
    ensures !Covers(addr, k, (addr + k) / BLOCK_SIZE)
  {
  }

  lemma MarkedNext(pages: map<nat, Page>, between: map<nat, Page>, pages': map<nat, Page>, discard: bool,
                   addr: nat, k: nat, n: nat, at: nat, k': nat)
    requires NextPiece(addr, k, n) && at == addr + k && k' == k + n
    requires Marked(pages, between, discard, addr, k) && Marked(between, pages', discard, at, n)
    ensures Marked(pages, pages', discard, addr, k')
  {
    forall b: nat ensures Covers(addr, k', b) <==> Covers(addr, k, b) || Covers(at, n, b) {
      CoversNext(addr, k, n, b);
    }
  }

  /** One page became discarded or else write-through. */
  lemma MarkedOne(pages: map<nat, Page>, between: map<nat, Page>, discard: bool, addr: nat, n: nat)
    requires SameMarks(pages, between) && addr / BLOCK_SIZE in between && NextPiece(addr, 0, n)
    ensures var b := addr / BLOCK_SIZE;
            var p := if discard then between[b].(discarded := true) else between[b].(writeThrough := true);
            Marked(pages, between[b := p], discard, addr, n)
  {
    forall b: nat ensures Covers(addr, n, b) <==> b == addr / BLOCK_SIZE {
      CoversNext(addr, 0, n, b);
    }
  }

  /** An access got through the first n bytes, none of them in a discarded block. If it reports that it is out
      of bounds, the next byte is in one. */
  ghost predicate Reached(pages: map<nat, Page>, addr: nat, n: nat, error: Error) {
    && (forall b :: Covers(addr, n, b) ==> !Discarded(pages, b))
    && (error != Ok ==> (error == OutOfBounds <==> Discarded(pages, (addr + n) / BLOCK_SIZE)))
  }

  lemma ReachedNothing(pages: map<nat, Page>, addr: nat)
    ensures Reached(pages, addr, 0, Ok) && SameMarks(pages, pages)
  {
  }

  lemma ReachedNext(pages: map<nat, Page>, addr: nat, k: nat, n: nat, error: Error, at: nat, k': nat)
    requires at == addr + k && k' == k + n
    requires Reached(pages, addr, k, Ok) && (error == OutOfBounds <==> Discarded(pages, at / BLOCK_SIZE))
    requires if error == Ok then NextPiece(addr, k, n) else n == 0
    ensures Reached(pages, addr, k', error)
  {
    if error == Ok {
      forall b | Covers(addr, k', b) ensures !Discarded(pages, b) {
        CoversNext(addr, k, n, b);
      }
    }
  }

  /** The lock that the transaction has for a block. */
  function LockOf(pages: map<nat, Page>, b: nat): LockStatus {
    PageOf(pages, b).status
  }

  /** What it has after an access: a writer lock is kept, and is enough to load as well. */
  function Raised(status: LockStatus, write: bool): LockStatus {
    if write then WrLocked else if status == Unlocked then RdLocked else status
  }

  /** The transaction has the lock for this kind of access already. */
  predicate Granted(pages: map<nat, Page>, b: nat, write: bool) {
    LockOf(pages, b) != Unlocked && (write ==> LockOf(pages, b) == WrLocked)
  }

  ghost predicate SameLocks(pages: map<nat, Page>, pages': map<nat, Page>) {
    forall b :: LockOf(pages', b) == LockOf(pages, b)
  }

  /** An access to one block. It takes the lock for it, and conflicts only if it did not have it before. */
  ghost predicate LockedOne(pages: map<nat, Page>, pages': map<nat, Page>, b: nat, write: bool, error: Error) {
    && (forall d ::
         LockOf(pages', d) == if d == b && error == Ok then Raised(LockOf(pages, d), write) else LockOf(pages, d))
    && (error == Conflicting ==> !Granted(pages, b, write))
  }

  /** An access got through the first n bytes: it has taken the locks for exactly their blocks, and if it reports a
      conflict, that is about the next byte, for whose block it did not have the lock. */
  ghost predicate Locked(pages: map<nat, Page>, pages': map<nat, Page>, addr: nat, n: nat, write: bool, error: Error) {
    && (forall d ::
         LockOf(pages', d) == if Covers(addr, n, d) then Raised(LockOf(pages, d), write) else LockOf(pages, d))
    && (error == Conflicting ==> !Granted(pages, (addr + n) / BLOCK_SIZE, write))
  }

  lemma LockedPiece(pages: map<nat, Page>, between: map<nat, Page>, pages': map<nat, Page>, addr: nat, n: nat,
                    write: bool, error: Error)
    requires LockedOne(pages, between, addr / BLOCK_SIZE, write, error) && SameLocks(between, pages')
    requires if error == Ok then NextPiece(addr, 0, n) else n == 0
    ensures Locked(pages, pages', addr, n, write, error)
  {
    if error == Ok {
      forall d: nat ensures Covers(addr, n, d) <==> d == addr / BLOCK_SIZE {
        CoversNext(addr, 0, n, d);
      }
    }
  }

  lemma LockedNext(pages: map<nat, Page>, between: map<nat, Page>, pages': map<nat, Page>, addr: nat, k: nat, n: nat,
                   write: bool, error: Error, at: nat, k': nat)
    requires at == addr + k && k' == k + n
    requires Locked(pages, between, addr, k, write, Ok) && Locked(between, pages', at, n, write, error)
    ensures Locked(pages, pages', addr, k', write, error)
  {
    forall d: nat ensures Covers(addr, k', d) <==> Covers(addr, k, d) || Covers(at, n, d) {
    }
    assert Granted(pages, (addr + k') / BLOCK_SIZE, write) ==> Granted(between, (addr + k') / BLOCK_SIZE, write);
  }

  /** The transaction has accessed all blocks of the range in this way before, and has not discarded them. */
  ghost predicate Unhindered(pages: map<nat, Page>, addr: nat, siz: nat, write: bool) {
    forall b :: Covers(addr, siz, b) ==> Granted(pages, b, write) && !Discarded(pages, b)
  }

  /** Otherwise it reports no error. */
  lemma Hindered(pages: map<nat, Page>, pages': map<nat, Page>, addr: nat, siz: nat, n: nat, write: bool, error: Error)
    requires Reached(pages, addr, n, error) && Locked(pages, pages', addr, n, write, error) && n < siz && error != Ok
    ensures !Unhindered(pages, addr, siz, write)
  {
    assert Covers(addr, siz, (addr + n) / BLOCK_SIZE);
  }

  function Patch(mem: seq<Byte>, addr: nat, data: seq<Byte>): (r: seq<Byte>)
    requires addr + |data| <= |mem|
    ensures |r| == |mem|
  {
    mem[..addr] + data + mem[addr + |data|..]
  }

  lemma PatchIndex(mem: seq<Byte>, addr: nat, data: seq<Byte>, a: nat)
    requires addr + |data| <= |mem| && a < |mem|
    ensures Patch(mem, addr, data)[a] == if addr <= a < addr + |data| then data[a - addr] else mem[a]
  {
  }

  lemma Offset(b: nat, i: nat)
    requires i < BLOCK_SIZE
    ensures (b * BLOCK_SIZE + i) / BLOCK_SIZE == b && (b * BLOCK_SIZE + i) % BLOCK_SIZE == i
  {
  }

  /** Both images when the page of one block and the block itself change. */
  lemma ImagesChange(pages: map<nat, Page>, mem: seq<Byte>, b: nat, p: Page, w: Word)
    requires Blocks(mem) && b * BLOCK_SIZE + BLOCK_SIZE <= |mem|
    ensures FlatView(pages[b := p], SetWord(mem, b, w)) == SetWord(FlatView(pages, mem), b, View(p, w))
    ensures FlatSaved(pages[b := p], SetWord(mem, b, w)) == SetWord(FlatSaved(pages, mem), b, Saved(p, w))
  {
    var mem' := SetWord(mem, b, w);
    forall a | 0 <= a < |mem|
      ensures FlatView(pages[b := p], mem')[a] == SetWord(FlatView(pages, mem), b, View(p, w))[a]
      ensures FlatSaved(pages[b := p], mem')[a] == SetWord(FlatSaved(pages, mem), b, Saved(p, w))[a]
    {
      SetWordAt(mem, b, w, a / BLOCK_SIZE);
      SetWordIndex(FlatView(pages, mem), b, View(p, w), a);
      SetWordIndex(FlatSaved(pages, mem), b, Saved(p, w), a);
    }
  }

  lemma WordOfImages(pages: map<nat, Page>, mem: seq<Byte>, b: nat)
    requires Blocks(mem) && b * BLOCK_SIZE + BLOCK_SIZE <= |mem|
    ensures WordAt(FlatView(pages, mem), b) == View(PageOf(pages, b), WordAt(mem, b))
    ensures WordAt(FlatSaved(pages, mem), b) == Saved(PageOf(pages, b), WordAt(mem, b))
  {
    var p, w := PageOf(pages, b), WordAt(mem, b);
    forall i | 0 <= i < BLOCK_SIZE
      ensures WordAt(FlatView(pages, mem), b)[i] == View(p, w)[i]
      ensures WordAt(FlatSaved(pages, mem), b)[i] == Saved(p, w)[i]
    {
      Offset(b, i);
      assert WordAt(FlatView(pages, mem), b)[i] == FlatView(pages, mem)[b * BLOCK_SIZE + i];
      assert WordAt(FlatSaved(pages, mem), b)[i] == FlatSaved(pages, mem)[b * BLOCK_SIZE + i];
    }
  }

  lemma SetSame(mem: seq<Byte>, b: nat)
    requires b * BLOCK_SIZE + BLOCK_SIZE <= |mem|
    ensures SetWord(mem, b, WordAt(mem, b)) == mem
  {
  }

  /** A page change that keeps the block's view and saved image keeps both flat images. */
  lemma ImagesKeep(pages: map<nat, Page>, mem: seq<Byte>, b: nat, p: Page)
    requires Blocks(mem) && b * BLOCK_SIZE + BLOCK_SIZE <= |mem|
    requires View(p, WordAt(mem, b)) == View(PageOf(pages, b), WordAt(mem, b))
    requires Saved(p, WordAt(mem, b)) == Saved(PageOf(pages, b), WordAt(mem, b))
    ensures ImagesOf(pages[b := p], mem) == ImagesOf(pages, mem)
  {
    ImagesChange(pages, mem, b, p, WordAt(mem, b));
    WordOfImages(pages, mem, b);
    SetSame(mem, b);
    SetSame(FlatView(pages, mem), b);
    SetSame(FlatSaved(pages, mem), b);
  }

  /** Writing a chunk inside a block of the flat image is patching it. */
  lemma SpliceIsPatch(mem: seq<Byte>, addr: nat, data: seq<Byte>)
    requires Blocks(mem) && addr + |data| <= |mem| && addr % BLOCK_SIZE + |data| <= BLOCK_SIZE && addr < |mem|
    ensures SetWord(mem, addr / BLOCK_SIZE, Splice(WordAt(mem, addr / BLOCK_SIZE), addr % BLOCK_SIZE, data))
            == Patch(mem, addr, data)
  {
    var b := addr / BLOCK_SIZE;
    var w := Splice(WordAt(mem, b), addr % BLOCK_SIZE, data);
    forall a | 0 <= a < |mem| ensures SetWord(mem, b, w)[a] == Patch(mem, addr, data)[a] {
      SetWordIndex(mem, b, w, a);
      PatchIndex(mem, addr, data, a);
      if a / BLOCK_SIZE == b {
        SpliceIndex(WordAt(mem, b), addr % BLOCK_SIZE, data, a % BLOCK_SIZE);
      }
    }
  }

  /** Patching piece by piece from left to right. */
  lemma PatchPieces(mem: seq<Byte>, addr: nat, data: seq<Byte>, k: nat, n: nat)
    requires addr + |data| <= |mem| && k + n <= |data|
    ensures Patch(Patch(mem, addr, data[..k]), addr + k, data[k..k + n]) == Patch(mem, addr, data[..k + n])
  {
  }

  /** `data` is what stands at `addr`. */
  ghost predicate ReadFrom(seen: seq<Byte>, addr: nat, data: seq<Byte>) {
    addr + |data| <= |seen| && data == seen[addr..addr + |data|]
  }

  /** The first k bytes of `data` patched into m0 at `addr` give m1. */
  ghost predicate PatchedUpTo(m0: seq<Byte>, m1: seq<Byte>, addr: nat, data: seq<Byte>, k: nat) {
    addr + |data| <= |m0| && k <= |data| && m1 == Patch(m0, addr, data[..k])
  }

  lemma ReadNext(seen: seq<Byte>, addr: nat, data: seq<Byte>, chunk: seq<Byte>, data': seq<Byte>)
    requires ReadFrom(seen, addr, data) && ReadFrom(seen, addr + |data|, chunk) && data' == data + chunk
    ensures ReadFrom(seen, addr, data')
  {
  }

  lemma PatchNext(m0: seq<Byte>, m1: seq<Byte>, m2: seq<Byte>, addr: nat, data: seq<Byte>, k: nat, n: nat, k': nat)
    requires k' == k + n && PatchedUpTo(m0, m1, addr, data, k) && PatchedUpTo(m1, m2, addr + k, data[k..], n)
    ensures PatchedUpTo(m0, m2, addr, data, k')
  {
    assert data[k..][..n] == data[k..k + n];
    PatchPieces(m0, addr, data, k, n);
  }

  lemma ReachedAppend(pages: map<nat, Page>, between: map<nat, Page>, addr: nat, k: nat, n: nat, error: Error)
    requires Reached(pages, addr, k, Ok) && SameMarks(pages, between) && Reached(between, addr + k, n, error)
    ensures Reached(pages, addr, k + n, error)
  {
    assert Discarded(between, (addr + k + n) / BLOCK_SIZE) <==> Discarded(pages, (addr + k + n) / BLOCK_SIZE);
    forall b | Covers(addr, k + n, b) ensures !Discarded(pages, b) {
      assert Covers(addr, k, b) || Covers(addr + k, n, b);
    }
  }

  /** What a load of siz bytes has got so far. */
  ghost predicate Fetched(pages: map<nat, Page>, pages': map<nat, Page>, seen: seq<Byte>, addr: nat, siz: nat,
                          data: seq<Byte>, error: Error) {
    && |data| <= siz && (error != Ok ==> |data| < siz)
    && ReadFrom(seen, addr, data) && SameMarks(pages, pages') && Reached(pages, addr, |data|, error)
  }

  lemma FetchedNext(pages: map<nat, Page>, between: map<nat, Page>, pages': map<nat, Page>, seen: seq<Byte>,
                    addr: nat, siz: nat, data: seq<Byte>, chunk: seq<Byte>, error: Error,
                    at: nat, rest: nat, data': seq<Byte>)
    requires at == addr + |data| && rest == siz - |data| && data' == data + chunk
    requires Fetched(pages, between, seen, addr, siz, data, Ok)
             && Fetched(between, pages', seen, at, rest, chunk, error)
    ensures Fetched(pages, pages', seen, addr, siz, data', error)
  {
    ReadNext(seen, addr, data, chunk, data');
    ReachedAppend(pages, between, addr, |data|, |chunk|, error);
  }

  /** What a store has put in place so far. */
  ghost predicate Placed(pages: map<nat, Page>, pages': map<nat, Page>, seen: seq<Byte>, seen': seq<Byte>, addr: nat,
                         data: seq<Byte>, n: nat, error: Error) {
    && PatchedUpTo(seen, seen', addr, data, n) && (error != Ok ==> n < |data|)
    && SameMarks(pages, pages') && Reached(pages, addr, n, error)
  }

  lemma PlacedNext(pages: map<nat, Page>, between: map<nat, Page>, pages': map<nat, Page>,
                   seen: seq<Byte>, seen1: seq<Byte>, seen2: seq<Byte>, addr: nat, data: seq<Byte>, k: nat, n: nat,
                   error: Error, at: nat, rest: seq<Byte>, k': nat)
    requires k <= |data| && at == addr + k && rest == data[k..] && k' == k + n
    requires Placed(pages, between, seen, seen1, addr, data, k, Ok)
    requires Placed(between, pages', seen1, seen2, at, rest, n, error)
    ensures Placed(pages, pages', seen, seen2, addr, data, k', error)
  {
    PatchNext(seen, seen1, seen2, addr, data, k, n, k');
    ReachedAppend(pages, between, addr, k, n, error);
  }

  lemma ReachedInBlock(pages: map<nat, Page>, addr: nat, n: nat, error: Error)
    requires error == OutOfBounds <==> Discarded(pages, addr / BLOCK_SIZE)
    requires if error == Ok then NextPiece(addr, 0, n) else n == 0
    ensures Reached(pages, addr, n, error)
  {
    ReachedNext(pages, addr, 0, n, error, addr, n);
  }

  lemma PatchNothing(m: seq<Byte>, addr: nat, data: seq<Byte>)
    requires addr + |data| <= |m|
    ensures PatchedUpTo(m, m, addr, data, 0)
  {
  }

  /** Without pages both images are the memory itself. */
  lemma NoPages(mem: seq<Byte>)
    ensures ImagesOf(map[], mem) == Images(mem, mem)
  {
    if Blocks(mem) {
      forall a | 0 <= a < |mem|
        ensures FlatView(map[], mem)[a] == mem[a] && FlatSaved(map[], mem)[a] == mem[a]
      {
        var b, i := a / BLOCK_SIZE, a % BLOCK_SIZE;
        assert WordAt(mem, b)[i] == mem[a];
        assert Overlay(EmptyPage(), WordAt(mem, b)) == WordAt(mem, b);
      }
      assert FlatView(map[], mem) == mem;
      assert FlatSaved(map[], mem) == mem;
    }
  }

  /** What preparing a page for an access does to it. */
  ghost predicate Prepared(p: Page, error: Error, bits: Bits, write: bool, w: Word, p': Page) {
    if p.discarded then error == OutOfBounds && p' == p
    else if error == Ok then
      && p' == LoadBits(p.(status := p'.status), bits, w)
      && p'.status == if write then WrLocked else if p.status == Unlocked then RdLocked else p.status
    else error == Conflicting && p' == p && (if write then p.status != WrLocked else p.status == Unlocked)
  }

  /** Preparing a page changes neither image. */
  lemma PreparedKeepsImages(pages: map<nat, Page>, mem: seq<Byte>, b: nat, error: Error, bits: Bits, write: bool,
                            p': Page)
    requires Blocks(mem) && Coherent(pages, mem) && b * BLOCK_SIZE + BLOCK_SIZE <= |mem|
    requires Prepared(PageOf(pages, b), error, bits, write, WordAt(mem, b), p')
    ensures Coherent(pages[b := p'], mem) && ImagesOf(pages[b := p'], mem) == ImagesOf(pages, mem)
  {
    var p, w := PageOf(pages, b), WordAt(mem, b);
    if error == Ok {
      LoadKeepsOverlay(p.(status := p'.status), bits, w);
      assert Overlay(p.(status := p'.status), w) == Overlay(p, w);
    }
    assert p.status != WrLocked ==> Overlay(p, w) == w;
    ImagesKeep(pages, mem, b, p');
  }

  /** The page is not discarded and has the needed lock, and the bytes of the range are valid. */
  ghost predicate Accessible(p: Page, off: nat, n: nat, write: bool) {
    && !p.discarded && p.status != Unlocked && (write ==> p.status == WrLocked) && off + n <= BLOCK_SIZE
    && forall i :: off <= i < off + n ==> p.valid[i]
  }

  /** Acquiring the page of a block and preparing it for an access makes the bytes accessible and keeps
      both images. */
  lemma AccessKeepsImages(pages: map<nat, Page>, between: map<nat, Page>, pages': map<nat, Page>, mem: seq<Byte>,
                          addr: nat, siz: nat, error: Error, write: bool)
    requires Blocks(mem) && Coherent(pages, mem) && addr < |mem| && addr + siz <= |mem|
    requires var b := addr / BLOCK_SIZE;
             && SamePages(pages, b, between) && b in between && b in pages' && pages' == between[b := pages'[b]]
             && Prepared(between[b], error, CopyBits(addr, siz), write, WordAt(mem, b), pages'[b])
    ensures Coherent(pages', mem) && ImagesOf(pages', mem) == ImagesOf(pages, mem)
    ensures Discarded(pages, addr / BLOCK_SIZE) <==> error == OutOfBounds
    ensures SameMarks(pages, pages') && LockedOne(pages, pages', addr / BLOCK_SIZE, write, error)
    ensures error == Ok ==> Accessible(pages'[addr / BLOCK_SIZE], addr % BLOCK_SIZE,
                                       Min(siz, BLOCK_SIZE - addr % BLOCK_SIZE), write)
  {
    var b := addr / BLOCK_SIZE;
    ImagesKeep(pages, mem, b, between[b]);
    assert between == pages[b := between[b]];
    PreparedKeepsImages(between, mem, b, error, CopyBits(addr, siz), write, pages'[b]);
    AccessedPage(pages, between, pages', addr, siz, error, write, WordAt(mem, b));
  }

  lemma AccessedPage(pages: map<nat, Page>, between: map<nat, Page>, pages': map<nat, Page>, addr: nat, siz: nat,
                     error: Error, write: bool, w: Word)
    requires var b := addr / BLOCK_SIZE;
             && SamePages(pages, b, between) && b in between && b in pages' && pages' == between[b := pages'[b]]
             && Prepared(between[b], error, CopyBits(addr, siz), write, w, pages'[b])
    ensures Discarded(pages, addr / BLOCK_SIZE) <==> error == OutOfBounds
    ensures SameMarks(pages, pages') && LockedOne(pages, pages', addr / BLOCK_SIZE, write, error)
    ensures error == Ok ==> Accessible(pages'[addr / BLOCK_SIZE], addr % BLOCK_SIZE,
                                       Min(siz, BLOCK_SIZE - addr % BLOCK_SIZE), write)
  {
    CopyBitsSelectsRange(addr, siz);
  }

  /** The bytes that a load copies out of the buffer, or out of memory, after the page was prepared. */
  function CopiedOut(p: Page, mem: seq<Byte>, addr: nat, n: nat): seq<Byte>
    requires addr + n <= |mem| && addr % BLOCK_SIZE + n <= BLOCK_SIZE
  {
    if p.writeThrough then mem[addr..addr + n] else p.buf[addr % BLOCK_SIZE..addr % BLOCK_SIZE + n]
  }

  lemma LoadedBytes(pages: map<nat, Page>, mem: seq<Byte>, addr: nat, n: nat)
    requires Blocks(mem) && Coherent(pages, mem) && addr / BLOCK_SIZE in pages
    requires Accessible(pages[addr / BLOCK_SIZE], addr % BLOCK_SIZE, n, false) && addr + n <= |mem|
    ensures ReadFrom(ImagesOf(pages, mem).seen, addr, CopiedOut(pages[addr / BLOCK_SIZE], mem, addr, n))
  {
    var p, head := pages[addr / BLOCK_SIZE], addr % BLOCK_SIZE;
    forall a | addr <= a < addr + n
      ensures FlatView(pages, mem)[a] == if p.writeThrough then mem[a] else p.buf[head + (a - addr)]
    {
      assert a / BLOCK_SIZE == addr / BLOCK_SIZE && a % BLOCK_SIZE == head + (a - addr);
      assert p.valid[a % BLOCK_SIZE];
    }
  }

  /** The page after a chunk was stored through it; in write-through mode the bytes go to memory. */
  function StoredPage(p: Page, off: nat, data: seq<Byte>): Page
    requires off + |data| <= BLOCK_SIZE
  {
    if p.writeThrough then p else p.(buf := Splice(p.buf, off, data))
  }

  /** A store patches what the transaction sees and leaves what an abort restores as it was. */
  lemma StoreKeepsSaved(pages: map<nat, Page>, mem: seq<Byte>, addr: nat, data: seq<Byte>)
    requires Blocks(mem) && Coherent(pages, mem) && 0 < |data| && addr + |data| <= |mem| && addr / BLOCK_SIZE in pages
    requires Accessible(pages[addr / BLOCK_SIZE], addr % BLOCK_SIZE, |data|, true)
    ensures var b := addr / BLOCK_SIZE;
            var pages' := pages[b := StoredPage(pages[b], addr % BLOCK_SIZE, data)];
            var mem' := if pages[b].writeThrough then Patch(mem, addr, data) else mem;
            var im, im' := ImagesOf(pages, mem), ImagesOf(pages', mem');
            && Coherent(pages', mem')
            && im'.saved == im.saved && im'.seen == Patch(im.seen, addr, data)
  {
    var b, off := addr / BLOCK_SIZE, addr % BLOCK_SIZE;
    var p, w := pages[b], WordAt(mem, b);
    var (q, w') := StoreChunk(p, off, data, w);
    assert LoadBits(p, RangeBits(off, |data|), w) == p;
    StoreChunkView(p, off, data, w);
    SpliceIsPatch(mem, addr, data);
    SetSame(mem, b);
    ImagesChange(pages, mem, b, q, w');
    WordOfImages(pages, mem, b);
    SpliceIsPatch(FlatView(pages, mem), addr, data);
    SetSame(FlatSaved(pages, mem), b);
    forall d | d in pages && d != b ensures WordAt(SetWord(mem, b, w'), d) == WordAt(mem, d) {
      SetWordAt(mem, b, w', d);
    }
  }

  /** The same for named results. */
  lemma StoredImages(pages: map<nat, Page>, mem: seq<Byte>, addr: nat, data: seq<Byte>, pages': map<nat, Page>,
                     mem': seq<Byte>, im: Images)
    requires Blocks(mem) && Coherent(pages, mem) && 0 < |data| && addr + |data| <= |mem| && addr / BLOCK_SIZE in pages
    requires Accessible(pages[addr / BLOCK_SIZE], addr % BLOCK_SIZE, |data|, true) && im == ImagesOf(pages, mem)
    requires var b := addr / BLOCK_SIZE; pages' == pages[b := StoredPage(pages[b], addr % BLOCK_SIZE, data)]
    requires mem' == if Through(pages, addr / BLOCK_SIZE) then Patch(mem, addr, data) else mem
    ensures Blocks(mem') && Coherent(pages', mem') && SameMarks(pages, pages') && SameLocks(pages, pages')
    ensures ImagesOf(pages', mem') == im.(seen := Patch(im.seen, addr, data))
  {
    StoreKeepsSaved(pages, mem, addr, data);
  }

  // ---------------------------------------------------------------------------------------------
  // Privatizing and discarding
  // ---------------------------------------------------------------------------------------------

  /** In one block, the images become those of `to`. */
  function CopyBlock(im: Images, to: Images, b: nat): Images
    requires b * BLOCK_SIZE + BLOCK_SIZE <= |im.seen| == |im.saved| == |to.seen| == |to.saved|
  {
    Images(SetWord(im.seen, b, WordAt(to.seen, b)), SetWord(im.saved, b, WordAt(to.saved, b)))
  }

  lemma CopiedAt(im: Images, to: Images, b: nat, a: nat)
    requires b * BLOCK_SIZE + BLOCK_SIZE <= |im.seen| == |im.saved| == |to.seen| == |to.saved| && a < |im.seen|
    ensures var im' := CopyBlock(im, to, b);
            && |im'.seen| == |im'.saved| == |im.seen|
            && im'.seen[a] == (if a / BLOCK_SIZE == b then to.seen[a] else im.seen[a])
            && im'.saved[a] == if a / BLOCK_SIZE == b then to.saved[a] else im.saved[a]
  {
    SetWordIndex(im.seen, b, WordAt(to.seen, b), a);
    SetWordIndex(im.saved, b, WordAt(to.saved, b), a);
  }

  /** Privatizing a block for loads or stores exchanges what the transaction sees and what an abort leaves there. After
      a discard, both a commit and an abort leave there what memory holds already. */
  function Target(im: Images, mem: seq<Byte>, discard: bool): Images {
    if discard then Images(mem, mem) else Images(im.saved, im.seen)
  }

  /** The page of a block after it was privatized or discarded. */
  function Turned(p: Page, discard: bool): Page {
    if discard then Discard(p) else p.(writeThrough := true)
  }

  lemma TurnedImages(pages: map<nat, Page>, mem: seq<Byte>, b: nat, discard: bool)
    requires Blocks(mem) && Coherent(pages, mem) && b in pages && !pages[b].discarded
    requires discard || !pages[b].writeThrough
    ensures var pages', im := pages[b := Turned(pages[b], discard)], ImagesOf(pages, mem);
            && Coherent(pages', mem) && |im.seen| == |im.saved| == |mem|
            && ImagesOf(pages', mem) == CopyBlock(im, Target(im, mem, discard), b)
  {
    var p := Turned(pages[b], discard);
    assert Overlay(p, WordAt(mem, b)) == Overlay(pages[b], WordAt(mem, b));
    WordOfImages(pages, mem, b);
    ImagesChange(pages, mem, b, p, WordAt(mem, b));
    SetSame(mem, b);
  }

  /** The same for named results, and for a block that is privatized again. */
  lemma TurnedOnce(pages: map<nat, Page>, mem: seq<Byte>, b: nat, discard: bool, im: Images)
    requires Blocks(mem) && Coherent(pages, mem) && b in pages && !pages[b].discarded && im == ImagesOf(pages, mem)
    ensures var pages' := pages[b := Turned(pages[b], discard)];
            && Coherent(pages', mem) && |im.seen| == |im.saved| == |mem| && SameLocks(pages, pages')
            && ImagesOf(pages', mem) ==
               if !discard && Through(pages, b) then im else CopyBlock(im, Target(im, mem, discard), b)
  {
    if !discard && Through(pages, b) {
      assert pages[b := Turned(pages[b], discard)] == pages;
    } else {
      TurnedImages(pages, mem, b, discard);
    }
  }

  /** The blocks whose images change when a range is privatized or discarded. */
  predicate Turns(pages: map<nat, Page>, discard: bool, addr: nat, n: nat, b: nat) {
    Covers(addr, n, b) && (discard || !Through(pages, b))
  }

  /** What privatizing or discarding the blocks of a range does to the images. */
  ghost predicate Switched(pages: map<nat, Page>, mem: seq<Byte>, im: Images, im': Images, discard: bool, addr: nat,
                           n: nat) {
    && |mem| == |im.seen| == |im.saved| == |im'.seen| == |im'.saved|
    && forall a :: 0 <= a < |mem| ==>
         var from := if Turns(pages, discard, addr, n, a / BLOCK_SIZE) then Target(im, mem, discard) else im;
         im'.seen[a] == from.seen[a] && im'.saved[a] == from.saved[a]
  }

  /** One block more. */
  lemma SwitchedNext(pages: map<nat, Page>, between: map<nat, Page>, mem: seq<Byte>, im: Images, im1: Images,
                     im2: Images, discard: bool, addr: nat, k: nat, n: nat, at: nat, k': nat)
    requires at == addr + k && k' == k + n
    requires Blocks(mem) && addr + k' <= |mem| && NextPiece(addr, k, n)
    requires Switched(pages, mem, im, im1, discard, addr, k) && Marked(pages, between, discard, addr, k)
    requires var b := at / BLOCK_SIZE;
             im2 == if !discard && Through(between, b) then im1 else CopyBlock(im1, Target(im1, mem, discard), b)
    ensures Switched(pages, mem, im, im2, discard, addr, k')
  {
    var b := at / BLOCK_SIZE;
    CoversNext(addr, k, n, b);
    assert Through(between, b) <==> Through(pages, b) || (!discard && Covers(addr, k, b));
    forall a | 0 <= a < |mem|
      ensures var from := if Turns(pages, discard, addr, k', a / BLOCK_SIZE) then Target(im, mem, discard) else im;
              im2.seen[a] == from.seen[a] && im2.saved[a] == from.saved[a]
    {
      CoversNext(addr, k, n, a / BLOCK_SIZE);
      CopiedAt(im1, Target(im1, mem, discard), b, a);
    }
  }

  /** What privatizing or discarding the first n bytes of a range does to the pages and the images. */
  ghost predicate Privatized(pages: map<nat, Page>, pages': map<nat, Page>, mem: seq<Byte>, im: Images, im': Images,
                             discard: bool, addr: nat, n: nat) {
    Marked(pages, pages', discard, addr, n) && Switched(pages, mem, im, im', discard, addr, n)
  }

  lemma PrivatizedNothing(pages: map<nat, Page>, mem: seq<Byte>, im: Images, discard: bool, addr: nat)
    requires |mem| == |im.seen| == |im.saved|
    ensures Privatized(pages, pages, mem, im, im, discard, addr, 0)
  {
  }

  /** What one iteration does at the first of siz bytes; it gets through n of them. */
  ghost predicate PieceDone(pages: map<nat, Page>, pages': map<nat, Page>, mem: seq<Byte>, im: Images, im': Images,
                            discard: bool, addr: nat, siz: nat, n: nat, error: Error) {
    && var b := addr / BLOCK_SIZE;
    && (error == OutOfBounds <==> Discarded(pages, b))
    && n == (if error == Ok then Min(siz, BLOCK_SIZE - addr % BLOCK_SIZE) else 0)
    && (if error == Ok then Marked(pages, pages', discard, addr, n) else SameMarks(pages, pages'))
    && if error != Ok || (!discard && Through(pages, b)) then im' == im
       else
         && b * BLOCK_SIZE + BLOCK_SIZE <= |mem| == |im.seen| == |im.saved|
         && im' == CopyBlock(im, Target(im, mem, discard), b)
  }

  /** How far a call for siz bytes has come. */
  ghost predicate Progress(pages: map<nat, Page>, pages': map<nat, Page>, mem: seq<Byte>, im: Images, im': Images,
                           discard: bool, addr: nat, siz: nat, n: nat, error: Error) {
    && n <= siz && Reached(pages, addr, n, error) && Privatized(pages, pages', mem, im, im', discard, addr, n)
    && (error == Ok ==> n == 0 || n == siz || (addr + n) % BLOCK_SIZE == 0) && (error != Ok ==> n < siz)
  }

  lemma ProgressNext(pages: map<nat, Page>, between: map<nat, Page>, pages': map<nat, Page>, mem: seq<Byte>,
                     im: Images, im1: Images, im2: Images, discard: bool, addr: nat, siz: nat, k: nat, n: nat,
                     error: Error, at: nat, rest: nat, k': nat)
    requires at == addr + k && rest == siz - k && k' == k + n
    requires Blocks(mem) && addr + siz <= |mem| && k < siz
    requires Progress(pages, between, mem, im, im1, discard, addr, siz, k, Ok)
    requires PieceDone(between, pages', mem, im1, im2, discard, at, rest, n, error)
    ensures Progress(pages, pages', mem, im, im2, discard, addr, siz, k', error) && (error == Ok ==> 0 < n)
  {
    PieceReached(pages, between, pages', mem, im1, im2, discard, addr, siz, k, n, error, at, rest, k');
    if error != Ok {
      assert k' == k && im2 == im1;
      MarkedStays(pages, between, pages', discard, addr, k);
    } else {
      MarkedNext(pages, between, pages', discard, addr, k, n, at, k');
      SwitchedNext(pages, between, mem, im, im1, im2, discard, addr, k, n, at, k');
    }
  }

  lemma PieceReached(pages: map<nat, Page>, between: map<nat, Page>, pages': map<nat, Page>, mem: seq<Byte>,
                     im: Images, im': Images, discard: bool, addr: nat, siz: nat, k: nat, n: nat,
                     error: Error, at: nat, rest: nat, k': nat)
    requires at == addr + k && rest == siz - k && k' == k + n && k < siz && (k == 0 || (addr + k) % BLOCK_SIZE == 0)
    requires Reached(pages, addr, k, Ok) && Marked(pages, between, discard, addr, k)
    requires PieceDone(between, pages', mem, im, im', discard, at, rest, n, error)
    ensures Reached(pages, addr, k', error) && k' <= siz && if error == Ok then NextPiece(addr, k, n) else n == 0
    ensures error == Ok ==> k' == siz || (addr + k') % BLOCK_SIZE == 0
  {
    CoversNext(addr, k, 1, at / BLOCK_SIZE);
    ReachedNext(pages, addr, k, n, error, at, k');
  }

  lemma MarkedStays(pages: map<nat, Page>, between: map<nat, Page>, pages': map<nat, Page>, discard: bool,
                    addr: nat, k: nat)
    requires Marked(pages, between, discard, addr, k) && SameMarks(between, pages')
    ensures Marked(pages, pages', discard, addr, k)
  {
  }

  /** Each byte of memory is what a commit leaves or what an abort leaves. */
  ghost predicate Grounded(im: Images, mem: seq<Byte>) {
    |im.seen| == |im.saved| == |mem| && forall a :: 0 <= a < |mem| ==> im.seen[a] == mem[a] || im.saved[a] == mem[a]
  }

  lemma ImagesGrounded(pages: map<nat, Page>, mem: seq<Byte>)
    requires Blocks(mem)
    ensures Grounded(ImagesOf(pages, mem), mem)
  {
    var im := ImagesOf(pages, mem);
    forall a | 0 <= a < |mem| ensures im.seen[a] == mem[a] || im.saved[a] == mem[a] {
      var p, w := PageOf(pages, a / BLOCK_SIZE), WordAt(mem, a / BLOCK_SIZE);
      assert View(p, w) == w || Saved(p, w) == w;
      assert w[a % BLOCK_SIZE] == mem[a];
    }
  }

  /** In a block of the range that changes, the transaction has a store that changes memory. */
  ghost predicate Clobbered(pages: map<nat, Page>, im: Images, discard: bool, addr: nat, n: nat, b: nat) {
    && Turns(pages, discard, addr, n, b) && b * BLOCK_SIZE + BLOCK_SIZE <= |im.seen| == |im.saved|
    && WordAt(im.seen, b) != WordAt(im.saved, b)
  }

  /** So privatizing or discarding a range changes neither what the transaction sees, nor what a commit or an abort
      leaves, exactly when the transaction has no store that changes a block of the range. Blocks that have been
      privatized before do not count when they are privatized again, but they do when they are discarded. */
  lemma SwitchedInvisibleIff(pages: map<nat, Page>, mem: seq<Byte>, im: Images, im': Images, discard: bool,
                             addr: nat, n: nat)
    requires Blocks(mem) && Grounded(im, mem) && Switched(pages, mem, im, im', discard, addr, n)
    ensures im' == im <==> forall b :: !Clobbered(pages, im, discard, addr, n, b)
  {
    if b :| Clobbered(pages, im, discard, addr, n, b) {
      SwitchVisible(pages, mem, im, im', discard, addr, n, b);
    } else {
      SwitchInvisible(pages, mem, im, im', discard, addr, n);
    }
  }

  lemma SwitchVisible(pages: map<nat, Page>, mem: seq<Byte>, im: Images, im': Images, discard: bool, addr: nat, n: nat,
                      b: nat)
    requires Grounded(im, mem) && Switched(pages, mem, im, im', discard, addr, n)
    requires Clobbered(pages, im, discard, addr, n, b)
    ensures im' != im
  {
    var i :| 0 <= i < BLOCK_SIZE && WordAt(im.seen, b)[i] != WordAt(im.saved, b)[i];
    Offset(b, i);
    var a := b * BLOCK_SIZE + i;
    assert im.seen[a] != im.saved[a];
    assert im'.seen[a] == Target(im, mem, discard).seen[a] && im'.saved[a] == Target(im, mem, discard).saved[a];
  }

  lemma SwitchInvisible(pages: map<nat, Page>, mem: seq<Byte>, im: Images, im': Images, discard: bool, addr: nat,
                        n: nat)
    requires Blocks(mem) && Grounded(im, mem) && Switched(pages, mem, im, im', discard, addr, n)
    requires forall b :: !Clobbered(pages, im, discard, addr, n, b)
    ensures im' == im
  {
    forall a | 0 <= a < |mem| ensures im'.seen[a] == im.seen[a] && im'.saved[a] == im.saved[a] {
      var b, i := a / BLOCK_SIZE, a % BLOCK_SIZE;
      assert !Clobbered(pages, im, discard, addr, n, b);
      assert WordAt(im.seen, b)[i] == im.seen[a] && WordAt(im.saved, b)[i] == im.saved[a];
    }
    assert im'.seen == im.seen && im'.saved == im.saved;
  }

  /** A store that is still buffered when its block is privatized is lost: the transaction sees the old
      byte again, and its abort would write the buffered byte to memory. */
  lemma PrivatizeAfterStoreExample()
    ensures var w := ZeroWord();
            var p := Page(false, false, WrLocked, [7, 0, 0, 0, 0, 0, 0, 0], RangeBits(0, 1));
            var q := Privatize(p, 0, 1, w);
            View(p, w)[0] == 7 && View(q, w)[0] == 0 && Saved(q, w)[0] == 7
  {
  }

  // ---------------------------------------------------------------------------------------------
  // The apply and undo walks
  // ---------------------------------------------------------------------------------------------

  function WrittenImage(pages: map<nat, Page>, undo: bool, mem: seq<Byte>): (r: seq<Byte>)
    ensures |r| == |mem|
  {
    if !Blocks(mem) then mem
    else
      seq(|mem|, a requires 0 <= a < |mem| =>
        Written(PageOf(pages, a / BLOCK_SIZE), undo, WordAt(mem, a / BLOCK_SIZE))[a % BLOCK_SIZE])
  }

  lemma WrittenNothing(undo: bool, mem: seq<Byte>)
    requires Blocks(mem)
    ensures WrittenImage(map[], undo, mem) == mem
  {
    forall a | 0 <= a < |mem| ensures WrittenImage(map[], undo, mem)[a] == mem[a] {
      assert WordAt(mem, a / BLOCK_SIZE)[a % BLOCK_SIZE] == mem[a];
    }
  }

  /** The walk writes one block after the other. */
  lemma WrittenNext(pages: map<nat, Page>, undo: bool, mem: seq<Byte>, image: seq<Byte>, b: nat, p: Page)
    returns (image': seq<Byte>)
    requires Blocks(mem) && b * BLOCK_SIZE + BLOCK_SIZE <= |mem| && b !in pages
    requires image == WrittenImage(pages, undo, mem)
    ensures image' == SetWord(image, b, Written(p, undo, WordAt(image, b)))
    ensures image' == WrittenImage(pages[b := p], undo, mem)
  {
    image' := WrittenImage(pages[b := p], undo, mem);
    forall i | 0 <= i < BLOCK_SIZE ensures WordAt(image, b)[i] == WordAt(mem, b)[i] {
      Offset(b, i);
      assert image[b * BLOCK_SIZE + i] == WordAt(mem, b)[i];
    }
    var w := Written(p, undo, WordAt(mem, b));
    forall a | 0 <= a < |mem| ensures image'[a] == SetWord(image, b, w)[a] {
      SetWordIndex(image, b, w, a);
    }
  }

  /** The apply walk leaves in memory exactly what a commit is to leave, and the undo walk what an abort is to leave. */
  lemma WalkMeaning(pages: map<nat, Page>, undo: bool, mem: seq<Byte>)
    requires Blocks(mem) && Coherent(pages, mem)
    ensures WrittenImage(pages, undo, mem) == if undo then FlatSaved(pages, mem) else FlatView(pages, mem)
  {
    forall a | 0 <= a < |mem|
      ensures WrittenImage(pages, undo, mem)[a] == (if undo then FlatSaved(pages, mem) else FlatView(pages, mem))[a]
    {
      var b := a / BLOCK_SIZE;
      CommitLeavesView(PageOf(pages, b), WordAt(mem, b));
      assert b !in pages ==> Overlay(EmptyPage(), WordAt(mem, b)) == WordAt(mem, b);
    }
  }

  /** The pages as they would be if nothing had been discarded. */
  function Undiscarded(pages: map<nat, Page>): map<nat, Page> {
    map b | b in pages :: pages[b].(discarded := false)
  }

  /** The byte was stored by the transaction, in the way that this walk is to write, and its block was discarded. */
  predicate Forgotten(pages: map<nat, Page>, undo: bool, mem: seq<Byte>, a: nat)
    requires a < |mem|
  {
    && Discarded(pages, a / BLOCK_SIZE)
    && var p := pages[a / BLOCK_SIZE];
    && p.status == WrLocked && p.writeThrough == undo && p.valid[a % BLOCK_SIZE] && p.buf[a % BLOCK_SIZE] != mem[a]
  }

  /** Discarding makes a difference to a commit or an abort exactly if it leaves out such a byte. */
  lemma DiscardMattersIff(pages: map<nat, Page>, undo: bool, mem: seq<Byte>)
    requires Blocks(mem)
    ensures WrittenImage(pages, undo, mem) == WrittenImage(Undiscarded(pages), undo, mem) <==>
            forall a :: 0 <= a < |mem| ==> !Forgotten(pages, undo, mem, a)
  {
    var with, without := WrittenImage(pages, undo, mem), WrittenImage(Undiscarded(pages), undo, mem);
    forall a | 0 <= a < |mem| ensures with[a] != without[a] <==> Forgotten(pages, undo, mem, a) {
      ForgottenByte(pages, undo, mem, a);
    }
    if with != without {
      assert exists a :: 0 <= a < |mem| && with[a] != without[a];
    }
  }

  lemma ForgottenByte(pages: map<nat, Page>, undo: bool, mem: seq<Byte>, a: nat)
    requires Blocks(mem) && a < |mem|
    ensures WrittenImage(pages, undo, mem)[a] != WrittenImage(Undiscarded(pages), undo, mem)[a] <==>
            Forgotten(pages, undo, mem, a)
  {
    var b, i := a / BLOCK_SIZE, a % BLOCK_SIZE;
    assert WordAt(mem, b)[i] == mem[a];
    assert b in pages <==> b in Undiscarded(pages);
  }
}
