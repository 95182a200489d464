/** From addresses to frames by a shared map of tables (modules/tm/src/framemap.c, modules/tm/src/frame.c:30-53). */
module FrameMap {
  import opened Common
  import opened Pages
  import opened Radix
  import SharedTreemap
  import TreemapCalls

  const TBL_SIZE: nat := 1024
  const ADDRESS_BITS: nat := 64
  const KEY_BITS: nat := 51
  const LEVEL_BITS: nat := 10

  /** frame_tbl_offset and frame_tbl_index. */
  function TblOffset(addr: nat): nat {
    addr / (TBL_SIZE * BLOCK_SIZE)
  }

  function TblIndex(addr: nat): (i: nat)
    ensures i < TBL_SIZE
  {
    (addr / BLOCK_SIZE) % TBL_SIZE
  }

  /** tm_frame_block_index of a frame of the table for a key, as tm_frame_tbl_create sets it up. */
  function FrameBlock(key: nat, i: nat): nat {
    key * TBL_SIZE + i
  }

  /** tm_frame_address. */
  function FrameAddress(key: nat, i: nat): nat {
    FrameBlock(key, i) * BLOCK_SIZE
  }

  /** tm_frame_tbl_init: the frames of a table stand for consecutive blocks. */
  method InitTable(blocks: array<nat>, key: nat)
    requires blocks.Length == TBL_SIZE
    modifies blocks
    ensures forall i :: 0 <= i < TBL_SIZE ==> blocks[i] == FrameBlock(key, i)
  {
    var next := key * TBL_SIZE;
    var beg := 0;
    while beg < blocks.Length
      invariant beg <= blocks.Length && next == key * TBL_SIZE + beg
      invariant forall i :: 0 <= i < beg ==> blocks[i] == FrameBlock(key, i)
    {
      blocks[beg] := next;
      beg, next := beg + 1, next + 1;
    }
  }

  /** An address leads to the frame of its own block: the frame's address is the address rounded down. */
  lemma FrameOfAddress(addr: nat)
    ensures FrameBlock(TblOffset(addr), TblIndex(addr)) == addr / BLOCK_SIZE
    ensures FrameAddress(TblOffset(addr), TblIndex(addr)) == addr - addr % BLOCK_SIZE
  {
    DivDiv(addr, BLOCK_SIZE, TBL_SIZE);
  }

  /** Two addresses lead to the same entry of the same table if and only if they lie in the same block. */
  lemma SamePlaceIff(a: nat, b: nat)
    ensures TblOffset(a) == TblOffset(b) && TblIndex(a) == TblIndex(b) <==> a / BLOCK_SIZE == b / BLOCK_SIZE
  {
    FrameOfAddress(a);
    FrameOfAddress(b);
    DivDiv(a, BLOCK_SIZE, TBL_SIZE);
    DivDiv(b, BLOCK_SIZE, TBL_SIZE);
  }

  /** The tree that tm_frame_map_init sets up is deep enough for every 64-bit address. */
  lemma AddressesFit(addr: nat)
    requires addr < Pow(2, ADDRESS_BITS)
    ensures TreeDepth(KEY_BITS, LEVEL_BITS) == 6
    ensures Prefix(TblOffset(addr), TreeDepth(KEY_BITS, LEVEL_BITS), Entries(LEVEL_BITS)) == 0
  {
    DepthOfMap();
    PowAdd(2, KEY_BITS, 13);
    ThirteenBits();
    DivLess(addr, TBL_SIZE * BLOCK_SIZE, Pow(2, KEY_BITS));
    KeysFit(TblOffset(addr), KEY_BITS, LEVEL_BITS);
  }

  lemma ThirteenBits()
    ensures Pow(2, 13) == TBL_SIZE * BLOCK_SIZE
  {
    assert Pow(2, 4) == 16;
    assert Pow(2, 8) == 16 * Pow(2, 4);
    assert Pow(2, 13) == 32 * Pow(2, 8);
  }

  lemma DepthOfMap()
    ensures TreeDepth(KEY_BITS, LEVEL_BITS) == 6
  {
    assert TreeDepth(1, 10) == 1;
    assert TreeDepth(11, 10) == 2;
    assert TreeDepth(21, 10) == 3;
    assert TreeDepth(31, 10) == 4;
    assert TreeDepth(41, 10) == 5;
  }

  /** tm_frame_map_lookup: a frame is an entry of the table that the shared map returned for the address. */
  datatype Frame = Frame(table: nat, i: nat)

  /** The shared map that tm_frame_map_init sets up. */
  function Map(threads: nat): SharedTreemap.State {
    SharedTreemap.Init(Entries(LEVEL_BITS), TreeDepth(KEY_BITS, LEVEL_BITS), threads)
  }

  /** The i-th call to return was made to look up the address. */
  ghost predicate LooksUp(threads: nat, actions: seq<SharedTreemap.Action>, i: nat, addr: nat) {
    var calls := TreemapCalls.Answered(Map(threads), actions);
    i < |calls| && calls[i] < |actions|
    && exists t :: actions[calls[i]] == SharedTreemap.Call(t, TblOffset(addr), true)
  }

  /** In every run of any number of threads that look up addresses, two look-ups return the same frame if and
      only if the addresses lie in the same block, so that a block has one lock. */
  lemma OneFramePerBlock(threads: nat, actions: seq<SharedTreemap.Action>, i: nat, j: nat, a: nat, b: nat)
    requires LooksUp(threads, actions, i, a) && LooksUp(threads, actions, j, b)
    ensures var results := SharedTreemap.Reach(Map(threads), actions).results;
            && i < |results| && j < |results|
            && (Frame(results[i].value, TblIndex(a)) == Frame(results[j].value, TblIndex(b)) <==>
                a / BLOCK_SIZE == b / BLOCK_SIZE)
  {
    var entries, depth := Entries(LEVEL_BITS), TreeDepth(KEY_BITS, LEVEL_BITS);
    var results := SharedTreemap.Reach(Map(threads), actions).results;
    SharedTreemap.CallsSucceed(entries, depth, threads, actions);
    TreemapCalls.ResultsAnswerCalls(entries, depth, threads, actions);
    var calls := TreemapCalls.Answered(Map(threads), actions);
    assert TreemapCalls.ResultOf(actions, calls[i], results[i]) && TreemapCalls.ResultOf(actions, calls[j], results[j]);
    TreemapCalls.OneValuePerKey(entries, depth, threads, actions, i, j);
    SamePlaceIff(a, b);
  }

  /** A thread without a call under way that looks up a 64-bit address gets its frame within 35 steps of its own. */
  lemma LookUpReturns(threads: nat, actions: seq<SharedTreemap.Action>, t: nat, addr: nat,
                      more: seq<SharedTreemap.Action>)
    requires t < threads && addr < Pow(2, ADDRESS_BITS) && TreemapCalls.Turns(more, t) >= 35
    requires TreemapCalls.Open(Map(threads), actions, t).NoCall?
    ensures var all := actions + [SharedTreemap.Call(t, TblOffset(addr), true)] + more;
            |actions| in TreemapCalls.Answered(Map(threads), all)
  {
    var call := SharedTreemap.Call(t, TblOffset(addr), true);
    AddressesFit(addr);
    assert (actions + [call])[..|actions|] == actions;
    assert TreemapCalls.Open(Map(threads), actions + [call], t) == TreemapCalls.CallAt(|actions|);
    TreemapCalls.CallsReturn(Entries(LEVEL_BITS), TreeDepth(KEY_BITS, LEVEL_BITS), threads, actions + [call], more, t,
                             |actions|);
  }
}
