/** The memory of one transaction: its active pages and the operations on them (modules/tm/src/vmem_tx.c,
    modules/tm/src/page.c).
    - A page has its buffer in an array, and the active pages form a list that is strictly sorted by block.
    - Next to the list stand the values of its pages, and the two images of memory that they make.
    - Loads, stores, privatizing and the walks at the end go block by block. What one block contributes is added to
      what the call has done so far by the lemmas of FlatMemory. */
module VmemTx {
  import opened Common
  import opened Pages
  import opened FlatMemory

  /** The flags of a privatize call. */
  datatype PrivatizeFlags = ForStore | ForLoad | Discard

  /** The process memory that the transactions share. */
  class Memory {
    var bytes: seq<Byte>

    constructor (bytes: seq<Byte>)
      ensures this.bytes == bytes
    {
      this.bytes := bytes;
    }
  }

  class TmPage {
    const block: nat
    var writeThrough: bool
    var discarded: bool
    var status: LockStatus
    const buf: array<Byte>
    var bufBits: Bits

    ghost function Value(): Page
      requires buf.Length == BLOCK_SIZE
      reads this, buf
    {
      Page(writeThrough, discarded, status, buf[..], bufBits)
    }

    constructor (block: nat)
      ensures this.block == block && buf.Length == BLOCK_SIZE && fresh(buf)
      ensures !writeThrough && !discarded && status == Unlocked && bufBits == NoBits()
    {
      this.block := block;
      writeThrough, discarded, status, bufBits := false, false, Unlocked, NoBits();
      buf := new Byte[BLOCK_SIZE](_ => 0);
    }

    /** tm_page_ld. */
    method Ld(bits: Bits, mem: Memory)
      requires buf.Length == BLOCK_SIZE && block * BLOCK_SIZE + BLOCK_SIZE <= |mem.bytes|
      modifies this`bufBits, buf
      ensures Value() == LoadBits(old(Value()), bits, WordAt(mem.bytes, block))
    {
      var head, was := block * BLOCK_SIZE, bufBits;
      if bits == AllBits() && bufBits == NoBits() {
        forall i | 0 <= i < BLOCK_SIZE {
          buf[i] := mem.bytes[head + i];
        }
      } else {
        for i := 0 to BLOCK_SIZE
          invariant bufBits == was
          invariant forall k :: 0 <= k < i ==> buf[k] == if bits[k] && !was[k] then mem.bytes[head + k] else old(buf[k])
          invariant forall k :: i <= k < BLOCK_SIZE ==> buf[k] == old(buf[k])
        {
          if bits[i] && !bufBits[i] {
            buf[i] := mem.bytes[head + i];
          }
        }
      }
      bufBits := seq(BLOCK_SIZE, i requires 0 <= i < BLOCK_SIZE => was[i] || bits[i]);
      assert forall k :: 0 <= k < BLOCK_SIZE ==>
               buf[k] == if bits[k] && !was[k] then mem.bytes[head + k] else old(buf[k]);
      assert buf[..] == LoadBits(old(Value()), bits, WordAt(mem.bytes, block)).buf;
    }

    /** tm_page_st. */
    method St(bits: Bits, mem: Memory)
      requires buf.Length == BLOCK_SIZE && block * BLOCK_SIZE + BLOCK_SIZE <= |mem.bytes|
      modifies mem
      ensures mem.bytes == SetWord(old(mem.bytes), block, StoreBits(Value(), bits, WordAt(old(mem.bytes), block)))
    {
      var head := block * BLOCK_SIZE;
      if bits == AllBits() && bufBits == AllBits() {
        mem.bytes := SetWord(mem.bytes, block, buf[..]);
      } else {
        for i := 0 to BLOCK_SIZE
          invariant |mem.bytes| == |old(mem.bytes)|
          invariant forall a :: 0 <= a < |mem.bytes| && !(head <= a < head + i) ==> mem.bytes[a] == old(mem.bytes)[a]
          invariant forall k :: 0 <= k < i ==>
                      mem.bytes[head + k] == if bits[k] && bufBits[k] then buf[k] else old(mem.bytes)[head + k]
        {
          if bits[i] && bufBits[i] {
            mem.bytes := mem.bytes[head + i := buf[i]];
          }
        }
      }
      ghost var w := StoreBits(Value(), bits, WordAt(old(mem.bytes), block));
      assert forall k :: 0 <= k < BLOCK_SIZE ==> mem.bytes[head + k] == w[k];
      assert forall a :: 0 <= a < |mem.bytes| ==> mem.bytes[a] == SetWord(old(mem.bytes), block, w)[a];
    }

    /** prepare_page_ld and prepare_page_st: takes the lock that the access needs, unless the page has
        it, and loads the accessed bytes that are not valid yet. */
    method Prepare(bits: Bits, write: bool, mem: Memory) returns (error: Error)
      requires buf.Length == BLOCK_SIZE && block * BLOCK_SIZE + BLOCK_SIZE <= |mem.bytes|
      modifies this, buf
      ensures Prepared(old(Value()), error, bits, write, WordAt(mem.bytes, block), Value())
    {
      if discarded {
        return OutOfBounds;
      }
      error := Ok;
      if write && status != WrLocked {
        error := TryWrlockFrame();
      } else if status == Unlocked {
        error := TryRdlockFrame();
      }
      if error == Ok && bufBits != AllBits() {
        Ld(bits, mem);
      }
    }

    /** apply_page and undo_page. */
    method Write(undo: bool, mem: Memory)
      requires buf.Length == BLOCK_SIZE && block * BLOCK_SIZE + BLOCK_SIZE <= |mem.bytes|
      modifies mem
      ensures mem.bytes == SetWord(old(mem.bytes), block, Written(Value(), undo, WordAt(old(mem.bytes), block)))
    {
      if status == WrLocked && writeThrough == undo && !discarded {
        St(AllBits(), mem);
      } else {
        SetSame(mem.bytes, block);
      }
    }

    /** Copies bytes to where tm_page_buffer points: the page's buffer, or memory in write-through mode. */
    method Put(addr: nat, data: seq<Byte>, mem: Memory)
      requires buf.Length == BLOCK_SIZE && addr + |data| <= |mem.bytes|
      requires addr / BLOCK_SIZE == block && addr % BLOCK_SIZE + |data| <= BLOCK_SIZE
      modifies buf, mem
      ensures Value() == StoredPage(old(Value()), addr % BLOCK_SIZE, data)
      ensures mem.bytes == if writeThrough then Patch(old(mem.bytes), addr, data) else old(mem.bytes)
    {
      if writeThrough {
        mem.bytes := Patch(mem.bytes, addr, data);
      } else {
        var head := addr % BLOCK_SIZE;
        for k := 0 to |data|
          modifies buf
          invariant forall i :: 0 <= i < BLOCK_SIZE ==>
                      buf[i] == if head <= i < head + k then data[i - head] else old(buf[i])
        {
          buf[head + k] := data[k];
        }
        assert buf[..] == Splice(old(buf[..]), head, data);
      }
    }

    /** tm_page_try_rdlock_frame: the lock may be refused. */
    method TryRdlockFrame() returns (error: Error)
      requires status == Unlocked
      modifies this`status
      ensures error == Ok || error == Conflicting
      ensures status == if error == Ok then RdLocked else old(status)
    {
      var refused: bool := *;
      error := if refused then Conflicting else Ok;
      status := if refused then status else RdLocked;
    }

    /** tm_page_try_wrlock_frame: locks, or upgrades a reader lock; may be refused. */
    method TryWrlockFrame() returns (error: Error)
      requires status != WrLocked
      modifies this`status
      ensures error == Ok || error == Conflicting
      ensures status == if error == Ok then WrLocked else old(status)
    {
      var refused: bool := *;
      error := if refused then Conflicting else Ok;
      status := if refused then status else WrLocked;
    }
  }

  /** Strictly sorted by block, without sharing. */
  ghost predicate Ordered(active: seq<TmPage>) {
    forall i, j :: 0 <= i < j < |active| ==> active[i].block < active[j].block && active[i].buf != active[j].buf
  }

  ghost function BlocksOf(active: seq<TmPage>): set<nat> {
    set p | p in active :: p.block
  }

  lemma OnePagePerBlock(active: seq<TmPage>, p: TmPage, q: TmPage)
    requires Ordered(active) && p in active && q in active && p != q
    ensures p.block != q.block && p.buf != q.buf
  {
    var i :| 0 <= i < |active| && active[i] == p;
    var j :| 0 <= j < |active| && active[j] == q;
  }

  /** The place of a page: behind all smaller blocks and before all larger ones. */
  ghost predicate Fits(active: seq<TmPage>, page: TmPage, i: nat) {
    && i <= |active|
    && (forall k :: 0 <= k < i ==> active[k].block < page.block)
    && (forall k :: i <= k < |active| ==> page.block < active[k].block)
    && (forall p :: p in active ==> p.buf != page.buf)
  }

  ghost function Inserted(active: seq<TmPage>, page: TmPage, i: nat): seq<TmPage>
    requires i <= |active|
  {
    active[..i] + [page] + active[i..]
  }

  lemma InsertKeepsOrder(active: seq<TmPage>, page: TmPage, i: nat)
    requires Ordered(active) && Fits(active, page, i)
    ensures Ordered(Inserted(active, page, i))
  {
    var longer := Inserted(active, page, i);
    forall k, l | 0 <= k < l < |longer|
      ensures longer[k].block < longer[l].block && longer[k].buf != longer[l].buf
    {
      assert longer[k] == if k < i then active[k] else if k == i then page else active[k - 1];
      assert longer[l] == if l < i then active[l] else if l == i then page else active[l - 1];
    }
  }

  lemma InsertAddsPage(active: seq<TmPage>, page: TmPage, i: nat)
    requires i <= |active|
    ensures forall p :: p in Inserted(active, page, i) <==> p in active || p == page
    ensures BlocksOf(Inserted(active, page, i)) == BlocksOf(active) + {page.block}
  {
    assert active == active[..i] + active[i..];
  }

  lemma NewBlock(active: seq<TmPage>, page: TmPage, i: nat)
    requires Fits(active, page, i)
    ensures forall p :: p in active ==> p.block != page.block
  {
    forall p | p in active ensures p.block != page.block {
      var k :| 0 <= k < |active| && active[k] == p;
    }
  }

  class VmemTx {
    const mem: Memory
    var active: seq<TmPage>
    ghost var pages: map<nat, Page>
    ghost var images: Images
    ghost var Repr: set<object>

    /** The active list is strictly sorted by block, so it has one page per block, and `pages` are
        the pages' values. */
    ghost predicate ListOk()
      reads this, Repr
    {
      && this !in Repr && Ordered(active) && pages.Keys == BlocksOf(active)
      && forall p :: p in active ==>
           p in Repr && p.buf in Repr && p.buf.Length == BLOCK_SIZE && pages[p.block] == p.Value()
    }

    ghost predicate Valid()
      reads this, mem, Repr
    {
      && Blocks(mem.bytes) && mem !in Repr && ListOk() && Coherent(pages, mem.bytes)
      && images == ImagesOf(pages, mem.bytes)
    }

    /** Still in order, and neither memory nor one of its two images has changed. */
    twostate predicate Undisturbed()
      reads this, mem, Repr
    {
      Valid() && fresh(Repr - old(Repr)) && mem.bytes == old(mem.bytes) && images == old(images)
    }

    /** Still in order, and an abort restores what it would have restored before, but the transaction now
        sees `seen`. */
    twostate predicate NowSees(seen: seq<Byte>)
      reads this, mem, Repr
    {
      Valid() && fresh(Repr - old(Repr)) && images == old(images).(seen := seen)
    }

    constructor (mem: Memory)
      requires Blocks(mem.bytes)
      ensures Valid() && this.mem == mem && pages == map[] && Repr == {}
      ensures images == Images(mem.bytes, mem.bytes)
    {
      this.mem := mem;
      active, pages, Repr := [], map[], {};
      images := ImagesOf(map[], mem.bytes);
      new;
      NoPages(mem.bytes);
    }

    /** The list stays in order when one of its pages is changed in place. */
    twostate lemma PageTouched(page: TmPage)
      requires old(ListOk()) && page in old(active) && active == old(active) && Repr == old(Repr)
      requires forall p :: p in Repr && p != page && p != page.buf ==> unchanged(p)
      requires pages == old(pages)[page.block := page.Value()]
      ensures ListOk()
    {
      forall p | p in active && p != page ensures pages[p.block] == p.Value() {
        OnePagePerBlock(active, p, page);
        assert unchanged(p) && unchanged(p.buf);
      }
    }

    /** The search of acquire_page_by_block: the first page that is not below the block. */
    method FindPage(block: nat) returns (i: nat)
      requires Ordered(active)
      ensures i <= |active|
      ensures if block in BlocksOf(active) then i < |active| && active[i].block == block
              else (i == |active| || active[i].block != block) &&
                   forall k :: 0 <= k < |active| ==> if k < i then active[k].block < block else block < active[k].block
    {
      i := 0;
      while i < |active| && active[i].block < block
        invariant 0 <= i <= |active|
        invariant forall k :: 0 <= k < i ==> active[k].block < block
      {
        i := i + 1;
      }
      assert i < |active| ==> active[i].block in BlocksOf(active);
    }

    method InsertPage(page: TmPage, i: nat)
      requires ListOk() && Fits(active, page, i)
      requires page !in Repr && page.buf !in Repr && page.buf.Length == BLOCK_SIZE
      modifies this`active, this`pages, this`Repr
      ensures ListOk() && page in active && Repr == old(Repr) + {page, page.buf}
      ensures pages == old(pages)[page.block := page.Value()]
    {
      InsertKeepsOrder(active, page, i);
      InsertAddsPage(active, page, i);
      NewBlock(active, page, i);
      active := active[..i] + [page] + active[i..];
      Repr := Repr + {page, page.buf};
      pages := pages[page.block := page.Value()];
      forall p | p in active
        ensures p in Repr && p.buf in Repr && p.buf.Length == BLOCK_SIZE && pages[p.block] == p.Value()
      {
        assert p == page || p in old(active);
      }
    }

    /** acquire_page_by_block: finds the page of a block or inserts a new one in order. */
    method AcquirePage(block: nat) returns (page: TmPage)
      requires ListOk()
      modifies this`active, this`pages, this`Repr
      ensures ListOk() && page in active && page.block == block && fresh(Repr - old(Repr))
      ensures SamePages(old(pages), block, pages)
    {
      var i := FindPage(block);
      if i < |active| && active[i].block == block {
        page := active[i];
      } else {
        page := CreatePage(block, i);
      }
    }

    method CreatePage(block: nat, i: nat) returns (page: TmPage)
      requires ListOk() && i <= |active|
      requires forall k :: 0 <= k < |active| ==> if k < i then active[k].block < block else block < active[k].block
      modifies this`active, this`pages, this`Repr
      ensures ListOk() && page in active && page.block == block && fresh(Repr - old(Repr))
      ensures SamePages(old(pages), block, pages)
    {
      page := new TmPage(block);
      InsertPage(page, i);
    }

    method PreparePage(page: TmPage, bits: Bits, write: bool) returns (error: Error)
      requires ListOk() && mem !in Repr && page in active && page.block * BLOCK_SIZE + BLOCK_SIZE <= |mem.bytes|
      modifies this`pages, page, page.buf
      ensures ListOk() && pages == old(pages)[page.block := pages[page.block]]
      ensures Prepared(old(pages)[page.block], error, bits, write, WordAt(mem.bytes, page.block), pages[page.block])
    {
      error := page.Prepare(bits, write, mem);
      pages := pages[page.block := page.Value()];
      PageTouched(page);
    }

    /** The page of the block of `addr`, prepared for an access to the range. */
    method Access(addr: nat, siz: nat, write: bool) returns (error: Error, page: TmPage)
      requires Valid() && addr < |mem.bytes| && addr + siz <= |mem.bytes|
      modifies this, Repr
      ensures Undisturbed()
      ensures page in active && page.block == addr / BLOCK_SIZE
      ensures Discarded(old(pages), page.block) <==> error == OutOfBounds
      ensures SameMarks(old(pages), pages) && LockedOne(old(pages), pages, page.block, write, error)
      ensures error == Ok ==>
              Accessible(pages[page.block], addr % BLOCK_SIZE, Min(siz, BLOCK_SIZE - addr % BLOCK_SIZE), write)
    {
      ghost var m, before, between := mem.bytes, pages, pages;
      error, page, between := AcquireAndPrepare(addr / BLOCK_SIZE, CopyBits(addr, siz), write);
      AccessKeepsImages(before, between, pages, m, addr, siz, error, write);
    }

    method AcquireAndPrepare(block: nat, bits: Bits, write: bool)
      returns (error: Error, page: TmPage, ghost between: map<nat, Page>)
      requires ListOk() && mem !in Repr && block * BLOCK_SIZE + BLOCK_SIZE <= |mem.bytes|
      modifies this`active, this`pages, this`Repr, Repr
      ensures ListOk() && fresh(Repr - old(Repr)) && page in active && page.block == block && mem !in Repr
      ensures mem.bytes == old(mem.bytes)
      ensures SamePages(old(pages), block, between) && block in between && block in pages
      ensures pages == between[block := pages[block]]
      ensures Prepared(between[block], error, bits, write, WordAt(mem.bytes, block), pages[block])
    {
      page := AcquirePage(block);
      between := pages;
      error := PreparePage(page, bits, write);
    }

    /** The copy out of the page's buffer or, in write-through mode, out of memory. */
    method LoadBytes(page: TmPage, addr: nat, n: nat) returns (data: seq<Byte>)
      requires Valid() && addr + n <= |mem.bytes| && page in active && page.block == addr / BLOCK_SIZE
      requires Accessible(pages[page.block], addr % BLOCK_SIZE, n, false)
      ensures |data| == n && ReadFrom(images.seen, addr, data)
    {
      LoadedBytes(pages, mem.bytes, addr, n);
      var head := addr % BLOCK_SIZE;
      data := if page.writeThrough then mem.bytes[addr..addr + n] else page.buf[head..head + n];
      assert pages[page.block] == page.Value();
    }

    /** One iteration of tm_vmem_tx_ld: the bytes of the range that lie in the block of `addr`. */
    method LdChunk(addr: nat, siz: nat) returns (error: Error, data: seq<Byte>)
      requires Valid() && 0 < siz && addr + siz <= |mem.bytes|
      modifies this, Repr
      ensures Undisturbed()
      ensures Fetched(old(pages), pages, old(images).seen, addr, siz, data, error) && (error == Ok ==> data != [])
      ensures Locked(old(pages), pages, addr, |data|, false, error)
    {
      var page;
      data := [];
      error, page := Access(addr, siz, false);
      var n := if error == Ok then Min(siz, BLOCK_SIZE - addr % BLOCK_SIZE) else 0;
      if error == Ok {
        data := LoadBytes(page, addr, n);
      }
      ReachedInBlock(old(pages), addr, n, error);
      LockedPiece(old(pages), pages, pages, addr, n, false, error);
    }

    /** tm_vmem_tx_ld: a load returns what the transaction sees, over any number of blocks, or as much of it as it
        reaches before a conflict or a discarded block. It takes reader locks for the blocks that it gets through, and
        cannot fail in blocks that the transaction has accessed before and not discarded. */
    method Ld(addr: nat, siz: nat) returns (error: Error, data: seq<Byte>)
      requires Valid() && addr + siz <= |mem.bytes|
      modifies this, Repr
      ensures Undisturbed()
      ensures Fetched(old(pages), pages, old(images).seen, addr, siz, data, error) && (error == Ok ==> |data| == siz)
      ensures Locked(old(pages), pages, addr, |data|, false, error)
      ensures Unhindered(old(pages), addr, siz, false) ==> error == Ok
    {
      ghost var pages0, seen := pages, images.seen;
      error, data := Ok, [];
      ReachedNothing(pages, addr);
      while |data| < siz && error == Ok
        invariant Undisturbed()
        invariant Fetched(pages0, pages, seen, addr, siz, data, error)
        invariant Locked(pages0, pages, addr, |data|, false, error)
        decreases siz - |data|, error == Ok
      {
        error, data := LdNext(addr, siz, data, pages0);
      }
      if error != Ok {
        Hindered(pages0, pages, addr, siz, |data|, false, error);
      }
    }

    method LdNext(addr: nat, siz: nat, sofar: seq<Byte>, ghost pages0: map<nat, Page>)
      returns (error: Error, data: seq<Byte>)
      requires Valid() && addr + siz <= |mem.bytes| && |sofar| < siz
      requires Fetched(pages0, pages, images.seen, addr, siz, sofar, Ok)
      requires Locked(pages0, pages, addr, |sofar|, false, Ok)
      modifies this, Repr
      ensures Undisturbed() && (error == Ok ==> |sofar| < |data|) && |sofar| <= |data|
      ensures Fetched(pages0, pages, old(images).seen, addr, siz, data, error)
      ensures Locked(pages0, pages, addr, |data|, false, error)
    {
      ghost var between, seen := pages, images.seen;
      var chunk;
      var at, rest := addr + |sofar|, siz - |sofar|;
      error, chunk := LdChunk(at, rest);
      data := sofar + chunk;
      FetchedNext(pages0, between, pages, seen, addr, siz, sofar, chunk, error, at, rest, data);
      LockedNext(pages0, between, pages, addr, |sofar|, |chunk|, false, error, at, |data|);
    }

    /** The copy of tm_vmem_tx_st into the page's buffer or, in write-through mode, into memory. */
    method StoreBytes(page: TmPage, addr: nat, data: seq<Byte>)
      requires Valid() && 0 < |data| && addr + |data| <= |mem.bytes| && page in active
               && page.block == addr / BLOCK_SIZE
      requires Accessible(pages[page.block], addr % BLOCK_SIZE, |data|, true)
      modifies this`pages, this`images, page.buf, mem
      ensures Valid() && images == old(images).(seen := Patch(old(images).seen, addr, data))
      ensures SameMarks(old(pages), pages) && SameLocks(old(pages), pages)
    {
      PutInPage(page, addr, data, images.(seen := Patch(images.seen, addr, data)));
      StoredImages(old(pages), old(mem.bytes), addr, data, pages, mem.bytes, old(images));
    }

    method PutInPage(page: TmPage, addr: nat, data: seq<Byte>, ghost after: Images)
      requires ListOk() && mem !in Repr && page in active && page.block == addr / BLOCK_SIZE
      requires addr + |data| <= |mem.bytes| && addr % BLOCK_SIZE + |data| <= BLOCK_SIZE
      modifies this`pages, this`images, page.buf, mem
      ensures ListOk() && images == after
      ensures pages == old(pages[page.block := StoredPage(pages[page.block], addr % BLOCK_SIZE, data)])
      ensures mem.bytes == if Through(old(pages), page.block) then Patch(old(mem.bytes), addr, data) else old(mem.bytes)
    {
      page.Put(addr, data, mem);
      pages, images := pages[page.block := page.Value()], after;
      PageTouched(page);
    }

    /** One iteration of tm_vmem_tx_st. */
    method StChunk(addr: nat, data: seq<Byte>) returns (error: Error, n: nat, ghost seen: seq<Byte>)
      requires Valid() && 0 < |data| && addr + |data| <= |mem.bytes|
      modifies this, Repr, mem
      ensures NowSees(seen) && (error == Ok ==> 0 < n)
      ensures Placed(old(pages), pages, old(images).seen, seen, addr, data, n, error)
      ensures Locked(old(pages), pages, addr, n, true, error)
    {
      var page;
      seen := images.seen;
      PatchNothing(seen, addr, data);
      error, page := Access(addr, |data|, true);
      n := if error == Ok then Min(|data|, BLOCK_SIZE - addr % BLOCK_SIZE) else 0;
      ReachedInBlock(old(pages), addr, n, error);
      ghost var between := pages;
      if error == Ok {
        StoreBytes(page, addr, data[..n]);
        seen := images.seen;
      }
      LockedPiece(old(pages), between, pages, addr, n, true, error);
    }

    /** tm_vmem_tx_st: the transaction sees the first `done` bytes in place, which are all bytes unless an
        error is reported, and what an abort restores stays as it was. It takes writer locks for the blocks that it
        gets through, and cannot fail in blocks that the transaction has stored to before and not discarded. */
    method St(addr: nat, data: seq<Byte>) returns (error: Error, done: nat, ghost seen: seq<Byte>)
      requires Valid() && addr + |data| <= |mem.bytes|
      modifies this, Repr, mem
      ensures NowSees(seen) && (error == Ok ==> done == |data|)
      ensures Placed(old(pages), pages, old(images).seen, seen, addr, data, done, error)
      ensures Locked(old(pages), pages, addr, done, true, error)
      ensures Unhindered(old(pages), addr, |data|, true) ==> error == Ok
    {
      ghost var pages0, seen0 := pages, images.seen;
      error, done, seen := Ok, 0, images.seen;
      PatchNothing(seen, addr, data);
      ReachedNothing(pages, addr);
      while done < |data| && error == Ok
        invariant NowSees(seen) && Placed(pages0, pages, seen0, seen, addr, data, done, error)
        invariant Locked(pages0, pages, addr, done, true, error)
        decreases |data| - done, error == Ok
      {
        error, done, seen := StNext(addr, data, done, pages0, seen0);
      }
      if error != Ok {
        Hindered(pages0, pages, addr, |data|, done, true, error);
      }
    }

    method StNext(addr: nat, data: seq<Byte>, k: nat, ghost pages0: map<nat, Page>, ghost seen0: seq<Byte>)
      returns (error: Error, done: nat, ghost seen: seq<Byte>)
      requires Valid() && addr + |data| <= |mem.bytes| && k < |data|
      requires Placed(pages0, pages, seen0, images.seen, addr, data, k, Ok) && Locked(pages0, pages, addr, k, true, Ok)
      modifies this, Repr, mem
      ensures NowSees(seen) && k <= done && (error == Ok ==> k < done)
      ensures Placed(pages0, pages, seen0, seen, addr, data, done, error)
      ensures Locked(pages0, pages, addr, done, true, error)
    {
      ghost var between, before := pages, images.seen;
      var n;
      var at, rest := addr + k, data[k..];
      error, n, seen := StChunk(at, rest);
      done := k + n;
      PlacedNext(pages0, between, pages, seen0, before, seen, addr, data, k, n, error, at, rest, done);
      LockedNext(pages0, between, pages, addr, k, n, true, error, at, done);
    }

    /** One iteration of tm_vmem_tx_privatize. Discarding takes the writer lock and loads nothing; a commit and an
        abort will then leave in the block of `addr` what memory holds now. With the load and store flags, what the
        transaction sees and what an abort leaves change places there, unless the block has been privatized before. */
    method PrivatizeChunk(addr: nat, siz: nat, flags: PrivatizeFlags) returns (error: Error, n: nat)
      requires Valid() && 0 < siz && addr + siz <= |mem.bytes|
      modifies this, Repr
      ensures Valid() && fresh(Repr - old(Repr)) && mem.bytes == old(mem.bytes)
      ensures PieceDone(old(pages), pages, mem.bytes, old(images), images, flags.Discard?, addr, siz, n, error)
      ensures Locked(old(pages), pages, addr, n, !flags.ForLoad?, error)
    {
      var page;
      error, page := Access(addr, if flags.Discard? then 0 else siz, !flags.ForLoad?);
      n := 0;
      ghost var between := pages;
      if error == Ok {
        n := Min(siz, BLOCK_SIZE - addr % BLOCK_SIZE);
        MarkedOne(old(pages), pages, flags.Discard?, addr, n);
        TurnPage(page, flags.Discard?);
      }
      LockedPiece(old(pages), between, pages, addr, n, !flags.ForLoad?, error);
    }

    /** Marks a page as discarded or as write-through. */
    method TurnPage(page: TmPage, discard: bool)
      requires Valid() && page in active && !Discarded(pages, page.block)
      modifies this`pages, this`images, page`writeThrough, page`discarded
      ensures Valid() && mem.bytes == old(mem.bytes) && |images.seen| == |images.saved| == |mem.bytes|
      ensures pages == old(pages[page.block := Turned(pages[page.block], discard)]) && SameLocks(old(pages), pages)
      ensures page.block * BLOCK_SIZE + BLOCK_SIZE <= |mem.bytes| == |old(images).seen| == |old(images).saved|
      ensures images ==
              if !discard && Through(old(pages), page.block) then old(images)
              else CopyBlock(old(images), Target(old(images), mem.bytes, discard), page.block)
    {
      TurnedOnce(pages, mem.bytes, page.block, discard, images);
      SetMark(page, discard, if !discard && page.writeThrough then images
                             else CopyBlock(images, Target(images, mem.bytes, discard), page.block));
    }

    method SetMark(page: TmPage, discard: bool, ghost after: Images)
      requires ListOk() && mem !in Repr && page in active
      modifies this`pages, this`images, page`writeThrough, page`discarded
      ensures ListOk() && images == after && mem.bytes == old(mem.bytes)
      ensures pages == old(pages[page.block := Turned(pages[page.block], discard)])
    {
      if discard {
        page.discarded := true;
      } else {
        page.writeThrough := true;
      }
      pages, images := pages[page.block := page.Value()], after;
      PageTouched(page);
    }

    /** tm_vmem_tx_privatize over any number of blocks: the first `done` bytes are privatized or discarded, which
        are all bytes unless an error is reported. FlatMemory says when that makes a difference. Reader locks are
        enough to privatize for loads; otherwise it takes writer locks. */
    method PrivatizeRange(addr: nat, siz: nat, flags: PrivatizeFlags) returns (error: Error, done: nat)
      requires Valid() && addr + siz <= |mem.bytes|
      modifies this, Repr
      ensures Valid() && fresh(Repr - old(Repr)) && mem.bytes == old(mem.bytes)
      ensures Progress(old(pages), pages, mem.bytes, old(images), images, flags.Discard?, addr, siz, done, error)
      ensures error == Ok <==> done == siz
      ensures Locked(old(pages), pages, addr, done, !flags.ForLoad?, error)
      ensures Unhindered(old(pages), addr, siz, !flags.ForLoad?) ==> error == Ok
    {
      ghost var pages0, im := pages, images;
      error, done := Ok, 0;
      PrivatizedNothing(pages, mem.bytes, images, flags.Discard?, addr);
      while done < siz && error == Ok
        invariant Valid() && fresh(Repr - old(Repr)) && mem.bytes == old(mem.bytes)
        invariant Progress(pages0, pages, mem.bytes, im, images, flags.Discard?, addr, siz, done, error)
        invariant Locked(pages0, pages, addr, done, !flags.ForLoad?, error)
        decreases siz - done, error == Ok
      {
        error, done := PrivatizeNext(addr, siz, done, flags, pages0, im);
      }
      if error != Ok {
        Hindered(pages0, pages, addr, siz, done, !flags.ForLoad?, error);
      }
    }

    method PrivatizeNext(addr: nat, siz: nat, k: nat, flags: PrivatizeFlags, ghost pages0: map<nat, Page>,
                         ghost im: Images)
      returns (error: Error, done: nat)
      requires Valid() && k < siz && addr + siz <= |mem.bytes| == |im.seen|
      requires Progress(pages0, pages, mem.bytes, im, images, flags.Discard?, addr, siz, k, Ok)
      requires Locked(pages0, pages, addr, k, !flags.ForLoad?, Ok)
      modifies this, Repr
      ensures Valid() && fresh(Repr - old(Repr)) && mem.bytes == old(mem.bytes)
      ensures Progress(pages0, pages, mem.bytes, im, images, flags.Discard?, addr, siz, done, error)
      ensures Locked(pages0, pages, addr, done, !flags.ForLoad?, error)
      ensures k <= done && (error == Ok ==> k < done)
    {
      ghost var between, before := pages, images;
      var at, rest := addr + k, siz - k;
      var n;
      error, n := PrivatizeChunk(at, rest, flags);
      done := k + n;
      ProgressNext(pages0, between, pages, mem.bytes, im, before, images, flags.Discard?, addr, siz, k, n, error,
                   at, rest, done);
      LockedNext(pages0, between, pages, addr, k, n, !flags.ForLoad?, error, at, done);
    }

    /** tm_vmem_tx_apply and tm_vmem_tx_undo: the walk over the active pages. */
    method WritePages(undo: bool)
      requires Valid()
      modifies mem
      ensures mem.bytes == WrittenImage(pages, undo, old(mem.bytes)) && ListOk() && Blocks(mem.bytes)
    {
      ghost var walked: map<nat, Page> := map[];
      ghost var mem0, image := mem.bytes, mem.bytes;
      WrittenNothing(undo, mem0);
      for i := 0 to |active|
        invariant Walked(walked, i)
        invariant image == WrittenImage(walked, undo, mem0) && mem.bytes == image
      {
        var page := active[i];
        NotWalked(walked, i);
        image := WrittenNext(walked, undo, mem0, image, page.block, page.Value());
        page.Write(undo, mem);
        walked := walked[page.block := page.Value()];
      }
      AllWalked(walked);
    }

    lemma AllWalked(walked: map<nat, Page>)
      requires Walked(walked, |active|)
      ensures walked == pages
    {
      assert active[..|active|] == active;
    }

    /** The pages that the walk has passed. */
    ghost predicate Walked(walked: map<nat, Page>, i: nat)
      reads this, Repr
    {
      && ListOk() && i <= |active| && walked.Keys == BlocksOf(active[..i])
      && forall b :: b in walked ==> b in pages && walked[b] == pages[b]
    }

    lemma NotWalked(walked: map<nat, Page>, i: nat)
      requires Walked(walked, i) && i < |active|
      ensures active[i].block !in walked && Walked(walked[active[i].block := active[i].Value()], i + 1)
    {
      forall p | p in active[..i] ensures p.block != active[i].block {
        var k :| 0 <= k < i && active[k] == p;
      }
      assert active[..i + 1] == active[..i] + [active[i]];
    }

    /** tm_vmem_tx_finish: takes pages off the list from the front and releases their locks. */
    method Finish()
      requires Blocks(mem.bytes) && mem !in Repr && ListOk()
      modifies this`active, this`pages, this`images, active
      ensures Valid() && active == [] && pages == map[]
      ensures forall p :: p in old(active) ==> p.status == Unlocked
      ensures images == Images(mem.bytes, mem.bytes) && mem.bytes == old(mem.bytes)
    {
      ghost var k := 0;
      while |active| > 0
        invariant 0 <= k <= |old(active)| && active == old(active)[k..]
        invariant forall p :: p in old(active)[..k] ==> p.status == Unlocked
        decreases |active|
      {
        var page := active[0];
        active := active[1..];
        page.status := Unlocked;
        k := k + 1;
      }
      pages := map[];
      images := ImagesOf(pages, mem.bytes);
      NoPages(mem.bytes);
    }

    /** The end of a transaction. A commit leaves in memory exactly the one image, and a rollback exactly the
        other. Both are what memory held already in the blocks that were discarded. */
    method End(undo: bool)
      requires Valid()
      modifies this`active, this`pages, this`images, active, mem
      ensures Valid() && active == [] && mem.bytes == if undo then old(images).saved else old(images).seen
    {
      WalkMeaning(pages, undo, mem.bytes);
      WritePages(undo);
      Finish();
    }
  }
}
