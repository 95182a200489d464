/** Any number of transactions on shared memory, one iteration of a C loop at a time (modules/tm/src/vmem_tx.c). */
module Serializability {
  import opened Common
  import opened Pages

  /** One load or store of a running transaction; loads record the bytes they returned. */
  datatype Op =
    | LoadOp(block: nat, off: nat, data: seq<Byte>)
    | StoreOp(block: nat, off: nat, data: seq<Byte>)

  type Memory = seq<Word>

  /** `todo` are the pages that the apply or undo walk has not reached yet. */
  datatype Phase = Running | Walking(undo: bool, todo: set<nat>) | Finishing

  /** `log` is what a commit of the transaction amounts to: its loads and stores, and a store wherever privatizing or
      discarding a block changed what it reads there. `left` is what its abort amounts to: nothing, but for blocks
      in which privatizing or discarding changed what an abort leaves. */
  datatype Tx = Tx(phase: Phase, pages: map<nat, Page>, log: seq<Op>, left: seq<Op>)

  /** A transaction that committed, or an abort that left something behind. */
  datatype Ended = Ended(undo: bool, ops: seq<Op>)

  datatype State = State(mem: Memory, txs: seq<Tx>, history: seq<Ended>)

  /** A lock is taken, a block is loaded, stored, privatized or discarded, a page is applied, undone or finished. */
  datatype Step =
    | LockForRead(t: nat, b: nat)
    | LockForWrite(t: nat, b: nat)
    | Load(t: nat, b: nat, off: nat, n: nat)
    | Store(t: nat, b: nat, off: nat, data: seq<Byte>)
    | PrivatizeBlock(t: nat, b: nat, off: nat, n: nat)
    | DiscardBlock(t: nat, b: nat)
    | BeginWalk(t: nat, undo: bool)
    | WalkPage(t: nat, b: nat)
    | EndWalk(t: nat)
    | FinishPage(t: nat, b: nat)
    | EndFinish(t: nat)

  // ---------------------------------------------------------------------------------------------
  // Serial execution: the reference
  // ---------------------------------------------------------------------------------------------

  datatype Outcome = Wrong | Memory(mem: Memory)

  /** One operation on plain memory. A load that does not find the recorded bytes is Wrong. */
  function Perform(m: Memory, op: Op): Outcome {
    if op.block >= |m| || op.off + |op.data| > BLOCK_SIZE then Wrong
    else match op
      case LoadOp(b, off, data) => if m[b][off..off + |data|] == data then Memory(m) else Wrong
      case StoreOp(b, off, data) => Memory(m[b := Splice(m[b], off, data)])
  }

  /** One transaction run alone. */
  function Replay(m: Memory, log: seq<Op>): Outcome {
    if log == [] then Memory(m)
    else
      var r := Replay(m, log[..|log| - 1]);
      if r.Wrong? then Wrong else Perform(r.mem, log[|log| - 1])
  }

  /** Whole transactions run one after the other. */
  function SerialRun(m: Memory, history: seq<Ended>): Outcome {
    if history == [] then Memory(m)
    else
      var r := SerialRun(m, history[..|history| - 1]);
      if r.Wrong? then Wrong else Replay(r.mem, history[|history| - 1].ops)
  }

  predicate Touches(log: seq<Op>, b: nat) {
    exists i :: 0 <= i < |log| && log[i].block == b
  }

  predicate Stores(log: seq<Op>, b: nat) {
    exists i :: 0 <= i < |log| && log[i].block == b && log[i].StoreOp?
  }

  // ---------------------------------------------------------------------------------------------
  // The concurrent machine
  // ---------------------------------------------------------------------------------------------

  predicate Holds(tx: Tx, b: nat, status: LockStatus) {
    b in tx.pages && tx.pages[b].status == status
  }

  /** No transaction other than t holds a writer lock on the frame. */
  predicate NoOtherWriter(s: State, t: nat, b: nat) {
    forall u :: 0 <= u < |s.txs| && u != t ==> !Holds(s.txs[u], b, WrLocked)
  }

  /** No transaction other than t holds any lock on the frame. */
  predicate NoOtherHolder(s: State, t: nat, b: nat) {
    forall u :: 0 <= u < |s.txs| && u != t ==> b !in s.txs[u].pages
  }

  /** An access to the block is not out of bounds. */
  predicate Accessible(tx: Tx, b: nat) {
    tx.phase.Running? && b in tx.pages && !tx.pages[b].discarded
  }

  predicate Enabled(s: State, step: Step) {
    && step.t < |s.txs|
    && var tx := s.txs[step.t];
    match step
    case LockForRead(t, b) => tx.phase.Running? && b < |s.mem| && b !in tx.pages && NoOtherWriter(s, t, b)
    case LockForWrite(t, b) =>
      tx.phase.Running? && b < |s.mem| && !Holds(tx, b, WrLocked) && NoOtherHolder(s, t, b)
    case Load(t, b, off, n) => b < |s.mem| && Accessible(tx, b) && off + n <= BLOCK_SIZE
    case Store(t, b, off, data) =>
      b < |s.mem| && Accessible(tx, b) && Holds(tx, b, WrLocked) && off + |data| <= BLOCK_SIZE
    case PrivatizeBlock(t, b, off, n) => b < |s.mem| && Accessible(tx, b) && off + n <= BLOCK_SIZE
    case DiscardBlock(t, b) => b < |s.mem| && Accessible(tx, b) && Holds(tx, b, WrLocked)
    case BeginWalk(t, _) => tx.phase.Running?
    case WalkPage(t, b) => tx.phase.Walking? && b in tx.phase.todo && b in tx.pages && b < |s.mem|
    case EndWalk(t) => tx.phase.Walking? && tx.phase.todo == {}
    case FinishPage(t, b) => tx.phase.Finishing? && b in tx.pages
    case EndFinish(t) => tx.phase.Finishing? && tx.pages == map[]
  }

  function NewPage(status: LockStatus): Page {
    Page(false, false, status, ZeroWord(), NoBits())
  }

  /** Appends a store if the block's contents change. */
  function Noted(log: seq<Op>, b: nat, before: Word, after: Word): seq<Op> {
    if before == after then log else log + [StoreOp(b, 0, after)]
  }

  /** The page of a block changes by itself, and with it perhaps what a commit or an abort leaves there. */
  function WithPage(tx: Tx, b: nat, q: Page, w: Word): Tx
    requires b in tx.pages
  {
    var p := tx.pages[b];
    tx.(pages := tx.pages[b := q],
        log := Noted(tx.log, b, View(p, w), View(q, w)), left := Noted(tx.left, b, Saved(p, w), Saved(q, w)))
  }

  /** What the transaction amounts to, when it ends this way. */
  function OpsOf(tx: Tx, undo: bool): seq<Op> {
    if undo then tx.left else tx.log
  }

  /** Commits count in any case, aborts only if they left something. */
  function Recorded(history: seq<Ended>, undo: bool, ops: seq<Op>): seq<Ended> {
    if undo && ops == [] then history else history + [Ended(undo, ops)]
  }

  /** The transaction after its own part of a step. */
  function NextTx(s: State, step: Step): Tx
    requires Enabled(s, step)
  {
    var tx := s.txs[step.t];
    match step
    case LockForRead(_, b) => tx.(pages := tx.pages[b := NewPage(RdLocked)])
    case LockForWrite(_, b) =>
      tx.(pages := tx.pages[b := if b in tx.pages then tx.pages[b].(status := WrLocked) else NewPage(WrLocked)])
    case Load(_, b, off, n) =>
      var (p, data) := LoadChunk(tx.pages[b], off, n, s.mem[b]);
      tx.(pages := tx.pages[b := p], log := tx.log + [LoadOp(b, off, data)])
    case Store(_, b, off, data) =>
      tx.(pages := tx.pages[b := StoreChunk(tx.pages[b], off, data, s.mem[b]).0],
          log := tx.log + [StoreOp(b, off, data)])
    case PrivatizeBlock(_, b, off, n) => WithPage(tx, b, Privatize(tx.pages[b], off, n, s.mem[b]), s.mem[b])
    case DiscardBlock(_, b) => WithPage(tx, b, Discard(tx.pages[b]), s.mem[b])
    case BeginWalk(_, undo) => tx.(phase := Walking(undo, tx.pages.Keys))
    case WalkPage(_, b) => tx.(phase := tx.phase.(todo := tx.phase.todo - {b}))
    case EndWalk(_) => tx.(phase := Finishing, log := [], left := [])
    case FinishPage(_, b) => tx.(pages := tx.pages - {b})
    case EndFinish(_) => tx.(phase := Running)
  }

  function NextMemory(s: State, step: Step): Memory
    requires Enabled(s, step)
  {
    var tx := s.txs[step.t];
    match step
    case Store(_, b, off, data) => s.mem[b := StoreChunk(tx.pages[b], off, data, s.mem[b]).1]
    case WalkPage(_, b) => s.mem[b := Written(tx.pages[b], tx.phase.undo, s.mem[b])]
    case _ => s.mem
  }

  function Next(s: State, step: Step): State
    requires Enabled(s, step)
  {
    var tx := s.txs[step.t];
    State(NextMemory(s, step), s.txs[step.t := NextTx(s, step)],
          if step.EndWalk? then Recorded(s.history, tx.phase.undo, OpsOf(tx, tx.phase.undo)) else s.history)
  }

  ghost predicate Init(s: State, mem: Memory) {
    && s.mem == mem && s.history == []
    && forall t :: 0 <= t < |s.txs| ==> s.txs[t] == Tx(Running, map[], [], [])
  }

  datatype Result = Stuck | Reached(state: State)

  /** The state after a schedule: every interleaving of the transactions is one list of steps. */
  function Run(s: State, steps: seq<Step>): Result
    decreases |steps|
  {
    if steps == [] then Reached(s)
    else if !Enabled(s, steps[0]) then Stuck
    else Run(Next(s, steps[0]), steps[1..])
  }

  // ---------------------------------------------------------------------------------------------
  // The invariant
  // ---------------------------------------------------------------------------------------------

  /** A page of a running transaction whose memory block is `w`, given the block's contents `c` in the serial memory,
      `v` in the memory that a commit would lead to, and `r` in that to which an abort would lead. */
  ghost predicate PageOk(p: Page, w: Word, c: Word, v: Word, r: Word) {
    match p.status
    case Unlocked => false
    case RdLocked => Overlay(p, w) == w && w == c && v == c && r == c
    case WrLocked => View(p, w) == v && Saved(p, w) == r
  }

  /** The memory after the log, if it is replayed right after what has ended so far. */
  ghost predicate LeadsTo(c: Memory, log: seq<Op>, v: Memory) {
    |v| == |c| && Replay(c, log) == Memory(v)
  }

  /** Only writer-locked blocks differ from the serial memory. */
  ghost predicate LockedOnly(tx: Tx, c: Memory, v: Memory)
    requires |c| == |v|
  {
    forall b :: 0 <= b < |c| && !Holds(tx, b, WrLocked) ==> v[b] == c[b]
  }

  ghost predicate RunningOk(mem: Memory, c: Memory, tx: Tx, v: Memory, r: Memory)
    requires |mem| == |c|
  {
    && LeadsTo(c, tx.log, v) && LeadsTo(c, tx.left, r) && LockedOnly(tx, c, v) && LockedOnly(tx, c, r)
    && forall b :: b in tx.pages ==> b < |mem| && PageOk(tx.pages[b], mem[b], c[b], v[b], r[b])
  }

  /** The walk leads to x: what it has still to write, and what it has written. */
  ghost predicate WalkOk(mem: Memory, c: Memory, tx: Tx, undo: bool, todo: set<nat>, x: Memory)
    requires |mem| == |c|
  {
    && LeadsTo(c, OpsOf(tx, undo), x) && LockedOnly(tx, c, x)
    && forall b :: b in tx.pages ==>
         b < |mem| && x[b] == if b in todo then Written(tx.pages[b], undo, mem[b]) else mem[b]
  }

  ghost predicate TxOk(mem: Memory, c: Memory, tx: Tx)
    requires |mem| == |c|
  {
    && (forall b :: Touches(tx.log, b) || Touches(tx.left, b) ==> b in tx.pages)
    && match tx.phase
       case Running => exists v, r :: RunningOk(mem, c, tx, v, r)
       case Walking(undo, todo) => exists x :: WalkOk(mem, c, tx, undo, todo, x)
       case Finishing => tx.log == [] && tx.left == [] && forall b :: b in tx.pages ==> b < |mem| && mem[b] == c[b]
  }

  ghost predicate Exclusive(txs: seq<Tx>) {
    forall t, u, b :: 0 <= t < |txs| && 0 <= u < |txs| && t != u && Holds(txs[t], b, WrLocked) ==> b !in txs[u].pages
  }

  ghost predicate Unwritten(txs: seq<Tx>, b: nat) {
    forall t :: 0 <= t < |txs| ==> !Holds(txs[t], b, WrLocked)
  }

  ghost predicate InvAt(init: Memory, s: State, c: Memory) {
    && |s.mem| == |c| == |init|
    && SerialRun(init, s.history) == Memory(c)
    && Exclusive(s.txs)
    && (forall t :: 0 <= t < |s.txs| ==> TxOk(s.mem, c, s.txs[t]))
    && (forall b :: 0 <= b < |c| && Unwritten(s.txs, b) ==> s.mem[b] == c[b])
  }

  ghost predicate Inv(init: Memory, s: State) {
    exists c :: InvAt(init, s, c)
  }

  // ---------------------------------------------------------------------------------------------
  // Replaying over two memories that agree on the blocks a log touches
  // ---------------------------------------------------------------------------------------------

  lemma TouchesLast(log: seq<Op>, b: nat)
    requires log != []
    ensures Touches(log, b) <==> Touches(log[..|log| - 1], b) || log[|log| - 1].block == b
  {
    var most := log[..|log| - 1];
    assert log == most + [log[|log| - 1]];
    TouchesAppend(most, log[|log| - 1], b);
  }

  /** What ended in the meantime only changed blocks no one else holds, so the others' views move along. */
  lemma {:induction false} ReplayFrame(m: Memory, m': Memory, log: seq<Op>) returns (v': Memory)
    requires |m| == |m'| && Replay(m, log).Memory?
    requires forall b :: 0 <= b < |m| && Touches(log, b) ==> m[b] == m'[b]
    ensures |Replay(m, log).mem| == |m| == |v'| && Replay(m', log) == Memory(v')
    ensures forall b :: 0 <= b < |m| ==> v'[b] == if Touches(log, b) then Replay(m, log).mem[b] else m'[b]
    ensures forall b :: 0 <= b < |m| && !Touches(log, b) ==> Replay(m, log).mem[b] == m[b]
  {
    if log == [] {
      return m';
    }
    var most, last := log[..|log| - 1], log[|log| - 1];
    forall b: nat ensures Touches(log, b) <==> Touches(most, b) || last.block == b {
      TouchesLast(log, b);
    }
    var v := ReplayFrame(m, m', most);
    var u := Replay(m, most).mem;
    assert v[last.block] == u[last.block] by {
      assert m[last.block] == m'[last.block];
    }
    v' := Perform(v, last).mem;
  }

  lemma ReplayAppend(m: Memory, log: seq<Op>, op: Op)
    ensures Replay(m, log + [op]) == if Replay(m, log).Wrong? then Wrong else Perform(Replay(m, log).mem, op)
  {
    assert (log + [op])[..|log|] == log;
  }

  lemma TouchesAppend(log: seq<Op>, op: Op, b: nat)
    ensures Touches(log + [op], b) <==> Touches(log, b) || op.block == b
  {
    if Touches(log, b) {
      var i :| 0 <= i < |log| && log[i].block == b;
      assert (log + [op])[i].block == b;
    }
    assert (log + [op])[|log|] == op;
  }

  /** One operation more on a block of the transaction. */
  lemma Appended(c: Memory, log: seq<Op>, v: Memory, op: Op, x: Word)
    requires LeadsTo(c, log, v) && op.block < |c| && Perform(v, op) == Memory(v[op.block := x])
    ensures LeadsTo(c, log + [op], v[op.block := x])
    ensures forall d :: Touches(log + [op], d) ==> Touches(log, d) || d == op.block
  {
    ReplayAppend(c, log, op);
    forall d | Touches(log + [op], d) ensures Touches(log, d) || d == op.block {
      TouchesAppend(log, op, d);
    }
  }

  lemma NotedLeadsTo(c: Memory, log: seq<Op>, v: Memory, b: nat, after: Word)
    requires LeadsTo(c, log, v) && b < |c|
    ensures LeadsTo(c, Noted(log, b, v[b], after), v[b := after])
    ensures forall d :: Touches(Noted(log, b, v[b], after), d) ==> Touches(log, d) || d == b
  {
    assert Splice(v[b], 0, after) == after;
    if v[b] == after {
      assert v[b := after] == v;
    } else {
      Appended(c, log, v, StoreOp(b, 0, after), after);
    }
  }

  // ---------------------------------------------------------------------------------------------
  // What other transactions do not notice
  // ---------------------------------------------------------------------------------------------

  /** A transaction does not notice writes to blocks it has no page for. */
  lemma FrameMemory(mem: Memory, mem': Memory, c: Memory, tx: Tx)
    requires |mem| == |mem'| == |c| && TxOk(mem, c, tx)
    requires forall b :: b in tx.pages && b < |mem| ==> mem[b] == mem'[b]
    ensures TxOk(mem', c, tx)
  {
    match tx.phase
    case Running =>
      var v, r :| RunningOk(mem, c, tx, v, r);
      assert RunningOk(mem', c, tx, v, r);
    case Walking(undo, todo) =>
      var x :| WalkOk(mem, c, tx, undo, todo, x);
      assert WalkOk(mem', c, tx, undo, todo, x);
    case Finishing =>
  }

  /** A transaction does not notice that another one ended that changed only blocks it has no page for. */
  lemma FrameSerial(mem: Memory, c: Memory, c': Memory, tx: Tx)
    requires |mem| == |c| == |c'| && TxOk(mem, c, tx)
    requires forall b :: b in tx.pages && b < |c| ==> c[b] == c'[b]
    ensures TxOk(mem, c', tx)
  {
    match tx.phase
    case Running =>
      var v, r :| RunningOk(mem, c, tx, v, r);
      var v' := MovedAlong(c, c', tx, tx.log, v);
      var r' := MovedAlong(c, c', tx, tx.left, r);
      assert RunningOk(mem, c', tx, v', r');
    case Walking(undo, todo) =>
      var x :| WalkOk(mem, c, tx, undo, todo, x);
      var x' := MovedAlong(c, c', tx, OpsOf(tx, undo), x);
      assert WalkOk(mem, c', tx, undo, todo, x');
    case Finishing =>
  }

  /** The memory that a log leads to, when another transaction has ended. */
  lemma MovedAlong(c: Memory, c': Memory, tx: Tx, log: seq<Op>, v: Memory) returns (v': Memory)
    requires |c| == |c'| && LeadsTo(c, log, v) && LockedOnly(tx, c, v)
    requires forall b :: Touches(log, b) ==> b in tx.pages
    requires forall b :: b in tx.pages && b < |c| ==> c[b] == c'[b]
    ensures LeadsTo(c', log, v') && LockedOnly(tx, c', v')
    ensures forall b :: b in tx.pages && b < |c| ==> v'[b] == v[b]
  {
    v' := ReplayFrame(c, c', log);
  }

  /** What a step must show about its own transaction for the rest of the invariant to follow. */
  lemma StepOfOne(init: Memory, s: State, c: Memory, t: nat, tx': Tx, mem': Memory)
    requires InvAt(init, s, c) && t < |s.txs| && |mem'| == |c|
    requires TxOk(mem', c, tx')
    requires forall b :: 0 <= b < |c| && mem'[b] != s.mem[b] ==> Holds(s.txs[t], b, WrLocked)
    requires forall b :: b in tx'.pages ==> b in s.txs[t].pages || NoOtherWriter(s, t, b)
    requires forall b :: Holds(tx', b, WrLocked) ==> Holds(s.txs[t], b, WrLocked) || NoOtherHolder(s, t, b)
    requires forall b :: 0 <= b < |c| && Holds(s.txs[t], b, WrLocked) && !Holds(tx', b, WrLocked) ==> mem'[b] == c[b]
    ensures InvAt(init, State(mem', s.txs[t := tx'], s.history), c)
  {
    var txs' := s.txs[t := tx'];
    forall u | 0 <= u < |txs'| && u != t ensures TxOk(mem', c, txs'[u]) {
      FrameMemory(s.mem, mem', c, s.txs[u]);
    }
    forall b | 0 <= b < |c| && Unwritten(txs', b) ensures mem'[b] == c[b] {
      assert !Holds(txs'[t], b, WrLocked);
      if !Holds(s.txs[t], b, WrLocked) {
        forall u | 0 <= u < |s.txs| ensures !Holds(s.txs[u], b, WrLocked) {
          assert u != t ==> txs'[u] == s.txs[u];
        }
      }
    }
  }

  // ---------------------------------------------------------------------------------------------
  // Steps of a running transaction
  // ---------------------------------------------------------------------------------------------

  /** A running transaction whose page of block b becomes p, while block b becomes w in memory, x in what a commit
      leads to, and y in what an abort leads to. */
  lemma OnePageChanges(mem: Memory, c: Memory, tx: Tx, v: Memory, r: Memory, b: nat, p: Page, w: Word, x: Word, y: Word,
                       tx': Tx)
    requires |mem| == |c| && b < |c| && tx.phase.Running? && TxOk(mem, c, tx) && RunningOk(mem, c, tx, v, r)
    requires tx' == tx.(pages := tx.pages[b := p], log := tx'.log, left := tx'.left)
    requires PageOk(p, w, c[b], x, y) && (Holds(tx, b, WrLocked) ==> p.status == WrLocked)
    requires LeadsTo(c, tx'.log, v[b := x]) && LeadsTo(c, tx'.left, r[b := y])
    requires forall d :: Touches(tx'.log, d) ==> Touches(tx.log, d) || d == b
    requires forall d :: Touches(tx'.left, d) ==> Touches(tx.left, d) || d == b
    ensures TxOk(mem[b := w], c, tx')
  {
    var mem', v', r' := mem[b := w], v[b := x], r[b := y];
    forall d | 0 <= d < |c| && !Holds(tx', d, WrLocked) ensures v'[d] == c[d] && r'[d] == c[d] {
      assert d != b ==> !Holds(tx, d, WrLocked);
    }
    forall d | d in tx'.pages ensures d < |mem'| && PageOk(tx'.pages[d], mem'[d], c[d], v'[d], r'[d]) {
      assert d != b ==> d in tx.pages;
    }
    assert RunningOk(mem', c, tx', v', r');
  }

  /** The same in the machine: the step changes one page of a running transaction, and no more than its block. */
  lemma OnePageStep(init: Memory, s: State, c: Memory, t: nat, v: Memory, r: Memory, b: nat, p: Page, w: Word, x: Word,
                    y: Word, tx': Tx)
    requires InvAt(init, s, c) && t < |s.txs| && b < |c| && s.txs[t].phase.Running?
             && RunningOk(s.mem, c, s.txs[t], v, r)
    requires tx' == s.txs[t].(pages := s.txs[t].pages[b := p], log := tx'.log, left := tx'.left)
    requires PageOk(p, w, c[b], x, y) && (Holds(s.txs[t], b, WrLocked) ==> p.status == WrLocked)
    requires b in s.txs[t].pages || NoOtherWriter(s, t, b)
    requires p.status == WrLocked ==> Holds(s.txs[t], b, WrLocked) || NoOtherHolder(s, t, b)
    requires w == s.mem[b] || Holds(s.txs[t], b, WrLocked)
    requires LeadsTo(c, tx'.log, v[b := x]) && LeadsTo(c, tx'.left, r[b := y])
    requires forall d :: Touches(tx'.log, d) ==> Touches(s.txs[t].log, d) || d == b
    requires forall d :: Touches(tx'.left, d) ==> Touches(s.txs[t].left, d) || d == b
    ensures InvAt(init, State(s.mem[b := w], s.txs[t := tx'], s.history), c)
  {
    OnePageChanges(s.mem, c, s.txs[t], v, r, b, p, w, x, y, tx');
    OnePageLocked(s, t, b, p, tx');
    StepOfOne(init, s, c, t, tx', s.mem[b := w]);
  }

  lemma OnePageLocked(s: State, t: nat, b: nat, p: Page, tx': Tx)
    requires t < |s.txs| && tx'.pages == s.txs[t].pages[b := p]
    requires Holds(s.txs[t], b, WrLocked) ==> p.status == WrLocked
    requires b in s.txs[t].pages || NoOtherWriter(s, t, b)
    requires p.status == WrLocked ==> Holds(s.txs[t], b, WrLocked) || NoOtherHolder(s, t, b)
    ensures forall d :: d in tx'.pages ==> d in s.txs[t].pages || NoOtherWriter(s, t, d)
    ensures forall d :: Holds(tx', d, WrLocked) ==> Holds(s.txs[t], d, WrLocked) || NoOtherHolder(s, t, d)
    ensures forall d :: Holds(s.txs[t], d, WrLocked) ==> Holds(tx', d, WrLocked)
  {
  }

  /** A page that has just been locked is in order. */
  lemma LockedPage(init: Memory, s: State, c: Memory, step: Step, v: Memory, r: Memory)
    requires InvAt(init, s, c) && Enabled(s, step) && (step.LockForRead? || step.LockForWrite?)
    requires RunningOk(s.mem, c, s.txs[step.t], v, r)
    ensures PageOk(NextTx(s, step).pages[step.b], s.mem[step.b], c[step.b], v[step.b], r[step.b])
  {
    var t, b, tx := step.t, step.b, s.txs[step.t];
    var p := NextTx(s, step).pages[b];
    assert NoOtherHolder(s, t, b) ==> NoOtherWriter(s, t, b);
    assert Unwritten(s.txs, b);
    assert v[b] == c[b] == r[b];
    if b in tx.pages {
      assert PageOk(tx.pages[b], s.mem[b], c[b], v[b], r[b]);
      assert Overlay(p, s.mem[b]) == Overlay(tx.pages[b], s.mem[b]);
    } else {
      assert Overlay(p, s.mem[b]) == s.mem[b];
    }
  }

  lemma LockStep(init: Memory, s: State, c: Memory, step: Step)
    requires InvAt(init, s, c) && Enabled(s, step) && (step.LockForRead? || step.LockForWrite?)
    ensures InvAt(init, Next(s, step), c)
  {
    var t, b, tx, tx' := step.t, step.b, s.txs[step.t], NextTx(s, step);
    var v, r :| RunningOk(s.mem, c, tx, v, r);
    LockedPage(init, s, c, step, v, r);
    assert v[b := v[b]] == v && r[b := r[b]] == r && s.mem[b := s.mem[b]] == s.mem;
    OnePageStep(init, s, c, t, v, r, b, tx'.pages[b], s.mem[b], v[b], r[b], tx');
  }

  lemma LoadStep(init: Memory, s: State, c: Memory, step: Step)
    requires InvAt(init, s, c) && Enabled(s, step) && step.Load?
    ensures InvAt(init, Next(s, step), c)
  {
    var t, b, tx, tx' := step.t, step.b, s.txs[step.t], NextTx(s, step);
    var v, r :| RunningOk(s.mem, c, tx, v, r);
    var p := tx.pages[b];
    assert PageOk(p, s.mem[b], c[b], v[b], r[b]);
    LoadedPage(p, step.off, step.n, s.mem[b], c[b], v[b], r[b]);
    assert v[b := v[b]] == v && r[b := r[b]] == r && s.mem[b := s.mem[b]] == s.mem;
    Appended(c, tx.log, v, LoadOp(b, step.off, LoadChunk(p, step.off, step.n, s.mem[b]).1), v[b]);
    OnePageStep(init, s, c, t, v, r, b, tx'.pages[b], s.mem[b], v[b], r[b], tx');
  }

  lemma LoadedPage(p: Page, off: nat, n: nat, w: Word, c: Word, v: Word, r: Word)
    requires PageOk(p, w, c, v, r) && off + n <= BLOCK_SIZE && !p.discarded
    ensures var (q, data) := LoadChunk(p, off, n, w);
            PageOk(q, w, c, v, r) && q.status == p.status && data == v[off..off + n]
  {
    LoadChunkView(p, off, n, w);
    assert View(p, w) == v;
  }

  lemma StoreStep(init: Memory, s: State, c: Memory, step: Step)
    requires InvAt(init, s, c) && Enabled(s, step) && step.Store?
    ensures InvAt(init, Next(s, step), c)
  {
    var t, b, tx, tx' := step.t, step.b, s.txs[step.t], NextTx(s, step);
    var v, r :| RunningOk(s.mem, c, tx, v, r);
    var w, x := NextMemory(s, step)[b], Splice(v[b], step.off, step.data);
    assert PageOk(tx.pages[b], s.mem[b], c[b], v[b], r[b]);
    StoreChunkView(tx.pages[b], step.off, step.data, s.mem[b]);
    assert r[b := r[b]] == r;
    Appended(c, tx.log, v, StoreOp(b, step.off, step.data), x);
    OnePageStep(init, s, c, t, v, r, b, tx'.pages[b], w, x, r[b], tx');
  }

  /** The page of a block changes by itself. */
  lemma PageStep(init: Memory, s: State, c: Memory, t: nat, b: nat, q: Page)
    requires InvAt(init, s, c) && t < |s.txs| && b < |s.mem| && Accessible(s.txs[t], b)
    requires var p, w := s.txs[t].pages[b], s.mem[b];
             q.status == p.status && (p.status == RdLocked ==> Overlay(q, w) == Overlay(p, w) && !q.discarded)
    ensures InvAt(init, s.(txs := s.txs[t := WithPage(s.txs[t], b, q, s.mem[b])]), c)
  {
    var tx, w := s.txs[t], s.mem[b];
    var v, r :| RunningOk(s.mem, c, tx, v, r);
    var p, tx' := tx.pages[b], WithPage(tx, b, q, w);
    assert PageOk(p, w, c[b], v[b], r[b]);
    assert View(p, w) == v[b] && Saved(p, w) == r[b];
    NotedLeadsTo(c, tx.log, v, b, View(q, w));
    NotedLeadsTo(c, tx.left, r, b, Saved(q, w));
    assert s.mem[b := w] == s.mem;
    OnePageStep(init, s, c, t, v, r, b, q, w, View(q, w), Saved(q, w), tx');
  }

  lemma PrivatizeStep(init: Memory, s: State, c: Memory, step: Step)
    requires InvAt(init, s, c) && Enabled(s, step) && step.PrivatizeBlock?
    ensures InvAt(init, Next(s, step), c)
  {
    var p, w := s.txs[step.t].pages[step.b], s.mem[step.b];
    var q := Privatize(p, step.off, step.n, w);
    LoadKeepsOverlay(p, RangeBits(step.off, step.n), w);
    assert Overlay(q, w) == Overlay(LoadBits(p, RangeBits(step.off, step.n), w), w);
    PageStep(init, s, c, step.t, step.b, q);
  }

  lemma DiscardStep(init: Memory, s: State, c: Memory, step: Step)
    requires InvAt(init, s, c) && Enabled(s, step) && step.DiscardBlock?
    ensures InvAt(init, Next(s, step), c)
  {
    PageStep(init, s, c, step.t, step.b, Discard(s.txs[step.t].pages[step.b]));
  }

  // ---------------------------------------------------------------------------------------------
  // The end of a transaction
  // ---------------------------------------------------------------------------------------------

  lemma BeginWalkStep(init: Memory, s: State, c: Memory, step: Step)
    requires InvAt(init, s, c) && Enabled(s, step) && step.BeginWalk?
    ensures InvAt(init, Next(s, step), c)
  {
    var t, tx, tx' := step.t, s.txs[step.t], NextTx(s, step);
    var v, r :| RunningOk(s.mem, c, tx, v, r);
    var x := if step.undo then r else v;
    forall b | b in tx.pages ensures b < |s.mem| && x[b] == Written(tx.pages[b], step.undo, s.mem[b]) {
      assert PageOk(tx.pages[b], s.mem[b], c[b], v[b], r[b]);
      CommitLeavesView(tx.pages[b], s.mem[b]);
    }
    assert WalkOk(s.mem, c, tx', step.undo, tx.pages.Keys, x);
    StepOfOne(init, s, c, t, tx', s.mem);
  }

  lemma WalkStep(init: Memory, s: State, c: Memory, step: Step)
    requires InvAt(init, s, c) && Enabled(s, step) && step.WalkPage?
    ensures InvAt(init, Next(s, step), c)
  {
    var t, tx := step.t, s.txs[step.t];
    var x :| WalkOk(s.mem, c, tx, tx.phase.undo, tx.phase.todo, x);
    PageWalked(s.mem, c, tx, x, step.b);
    StepOfOne(init, s, c, t, NextTx(s, step), NextMemory(s, step));
  }

  lemma PageWalked(mem: Memory, c: Memory, tx: Tx, x: Memory, b: nat)
    requires |mem| == |c| && TxOk(mem, c, tx) && tx.phase.Walking? && b in tx.phase.todo && b in tx.pages
    requires b < |mem| && WalkOk(mem, c, tx, tx.phase.undo, tx.phase.todo, x)
    ensures TxOk(mem[b := Written(tx.pages[b], tx.phase.undo, mem[b])], c,
                 tx.(phase := tx.phase.(todo := tx.phase.todo - {b})))
  {
    var tx' := tx.(phase := tx.phase.(todo := tx.phase.todo - {b}));
    var mem' := mem[b := Written(tx.pages[b], tx.phase.undo, mem[b])];
    assert LockedOnly(tx', c, x);
    assert WalkOk(mem', c, tx', tx.phase.undo, tx.phase.todo - {b}, x);
  }

  lemma FinishStep(init: Memory, s: State, c: Memory, step: Step)
    requires InvAt(init, s, c) && Enabled(s, step) && (step.FinishPage? || step.EndFinish?)
    ensures InvAt(init, Next(s, step), c)
  {
    var t, tx' := step.t, NextTx(s, step);
    if step.EndFinish? {
      assert RunningOk(s.mem, c, tx', c, c);
    }
    StepOfOne(init, s, c, t, tx', s.mem);
  }

  /** The end of the walk is the moment at which a transaction counts: the serial memory moves to where its log, or
      what it left behind, leads. */
  lemma EndStep(init: Memory, s: State, c: Memory, step: Step) returns (x: Memory)
    requires InvAt(init, s, c) && Enabled(s, step) && step.EndWalk?
    ensures InvAt(init, Next(s, step), x)
    ensures Replay(c, OpsOf(s.txs[step.t], s.txs[step.t].phase.undo)) == Memory(x)
  {
    var t, tx, s' := step.t, s.txs[step.t], Next(s, step);
    x :| WalkOk(s.mem, c, tx, tx.phase.undo, {}, x);
    HistoryGrows(init, s.history, tx.phase.undo, OpsOf(tx, tx.phase.undo), c, x);
    SameHolders(s.txs, t, s'.txs[t]);
    forall u | 0 <= u < |s.txs| && u != t ensures TxOk(s.mem, x, s'.txs[u]) {
      OtherAtEnd(s, c, x, t, u);
    }
    assert TxOk(s.mem, x, s'.txs[t]) by {
      EndedTx(s.mem, c, x, tx);
    }
    forall b | 0 <= b < |c| && Unwritten(s'.txs, b) ensures s.mem[b] == x[b] {
      assert !Holds(tx, b, WrLocked);
    }
  }

  lemma OtherAtEnd(s: State, c: Memory, x: Memory, t: nat, u: nat)
    requires |s.mem| == |c| == |x| && Exclusive(s.txs) && t < |s.txs| && u < |s.txs| && u != t
    requires LockedOnly(s.txs[t], c, x) && TxOk(s.mem, c, s.txs[u])
    ensures TxOk(s.mem, x, s.txs[u])
  {
    forall b | b in s.txs[u].pages && b < |c| ensures x[b] == c[b] {
      assert !Holds(s.txs[t], b, WrLocked);
    }
    FrameSerial(s.mem, c, x, s.txs[u]);
  }

  lemma EndedTx(mem: Memory, c: Memory, x: Memory, tx: Tx)
    requires |mem| == |c| && tx.phase.Walking? && WalkOk(mem, c, tx, tx.phase.undo, {}, x)
    ensures TxOk(mem, x, tx.(phase := Finishing, log := [], left := []))
  {
  }

  lemma HistoryGrows(init: Memory, history: seq<Ended>, undo: bool, ops: seq<Op>, c: Memory, x: Memory)
    requires SerialRun(init, history) == Memory(c) && Replay(c, ops) == Memory(x)
    ensures SerialRun(init, Recorded(history, undo, ops)) == Memory(x)
  {
    assert (history + [Ended(undo, ops)])[..|history|] == history;
  }

  lemma SameHolders(txs: seq<Tx>, t: nat, tx': Tx)
    requires t < |txs| && tx'.pages == txs[t].pages
    ensures forall b: nat :: Unwritten(txs[t := tx'], b) <==> Unwritten(txs, b)
    ensures Exclusive(txs) ==> Exclusive(txs[t := tx'])
  {
    var txs' := txs[t := tx'];
    assert forall u, b :: 0 <= u < |txs| ==> (Holds(txs'[u], b, WrLocked) <==> Holds(txs[u], b, WrLocked));
    assert forall u :: 0 <= u < |txs| ==> txs'[u].pages == txs[u].pages;
  }

  // ---------------------------------------------------------------------------------------------
  // Every step and every run
  // ---------------------------------------------------------------------------------------------

  lemma StepKeepsInv(init: Memory, s: State, step: Step)
    requires Inv(init, s) && Enabled(s, step)
    ensures Inv(init, Next(s, step))
  {
    var c :| InvAt(init, s, c);
    match step
    case LockForRead(_, _) => LockStep(init, s, c, step);
    case LockForWrite(_, _) => LockStep(init, s, c, step);
    case Load(_, _, _, _) => LoadStep(init, s, c, step);
    case Store(_, _, _, _) => StoreStep(init, s, c, step);
    case PrivatizeBlock(_, _, _, _) => PrivatizeStep(init, s, c, step);
    case DiscardBlock(_, _) => DiscardStep(init, s, c, step);
    case BeginWalk(_, _) => BeginWalkStep(init, s, c, step);
    case WalkPage(_, _) => WalkStep(init, s, c, step);
    case EndWalk(_) => var x := EndStep(init, s, c, step);
    case FinishPage(_, _) => FinishStep(init, s, c, step);
    case EndFinish(_) => FinishStep(init, s, c, step);
  }

  lemma {:induction false} RunKeepsInv(init: Memory, s: State, steps: seq<Step>)
    requires Inv(init, s) && Run(s, steps).Reached?
    ensures Inv(init, Run(s, steps).state)
    decreases |steps|
  {
    if steps != [] {
      StepKeepsInv(init, s, steps[0]);
      RunKeepsInv(init, Next(s, steps[0]), steps[1..]);
    }
  }

  lemma ReachableInv(s0: State, init: Memory, steps: seq<Step>)
    requires Init(s0, init) && Run(s0, steps).Reached?
    ensures Inv(init, Run(s0, steps).state)
  {
    forall t | 0 <= t < |s0.txs| ensures TxOk(init, init, s0.txs[t]) {
      assert RunningOk(init, init, s0.txs[t], init, init);
    }
    assert InvAt(init, s0, init);
    RunKeepsInv(init, s0, steps);
  }

  // ---------------------------------------------------------------------------------------------
  // Main theorems
  // ---------------------------------------------------------------------------------------------

  /** Serializability. After any schedule, running the transactions of the history one after the other, in the order
      in which their walks ended, is a correct serial run: every load returns the bytes that it returned in the
      concurrent run. Memory equals the memory of that serial run in every block that no unfinished transaction
      holds a writer lock on, and everywhere if all are idle. */
  lemma Serializable(s0: State, init: Memory, steps: seq<Step>)
    requires Init(s0, init) && Run(s0, steps).Reached?
    ensures var s := Run(s0, steps).state;
            && SerialRun(init, s.history).Memory?
            && var c := SerialRun(init, s.history).mem;
            && |c| == |s.mem|
            && (forall b :: 0 <= b < |c| && Unwritten(s.txs, b) ==> s.mem[b] == c[b])
            && ((forall t :: 0 <= t < |s.txs| ==> s.txs[t].pages == map[]) ==> s.mem == c)
  {
    ReachableInv(s0, init, steps);
    var s := Run(s0, steps).state;
    var c :| InvAt(init, s, c);
    if forall t :: 0 <= t < |s.txs| ==> s.txs[t].pages == map[] {
      assert forall b :: 0 <= b < |c| ==> Unwritten(s.txs, b);
    }
  }

  /** Isolation of a transaction that is still running: whatever it has loaded and stored so far is a correct run on
      its own on top of the history, so no load saw uncommitted data. */
  lemma RunningSeesCommittedOnly(s0: State, init: Memory, steps: seq<Step>, t: nat)
    requires Init(s0, init) && Run(s0, steps).Reached?
    requires t < |Run(s0, steps).state.txs| && Run(s0, steps).state.txs[t].phase.Running?
    ensures var s := Run(s0, steps).state;
            SerialRun(init, s.history + [Ended(false, s.txs[t].log)]).Memory?
  {
    ReachableInv(s0, init, steps);
    var s := Run(s0, steps).state;
    var c :| InvAt(init, s, c);
    assert TxOk(s.mem, c, s.txs[t]);
    assert (s.history + [Ended(false, s.txs[t].log)])[..|s.history|] == s.history;
  }

  /** When the undo walk of a transaction has ended, each of its blocks is as if it had never run, but for what
      privatizing and discarding left behind. */
  lemma AbortLeaves(s0: State, init: Memory, steps: seq<Step>, t: nat, b: nat)
    requires Init(s0, init) && Run(s0, steps).Reached?
    requires t < |Run(s0, steps).state.txs| && Run(s0, steps).state.txs[t].phase == Walking(true, {})
    requires b in Run(s0, steps).state.txs[t].pages
    ensures var s := Run(s0, steps).state;
            var after := SerialRun(init, Recorded(s.history, true, s.txs[t].left));
            after.Memory? && b < |s.mem| == |after.mem| && s.mem[b] == after.mem[b]
  {
    ReachableInv(s0, init, steps);
    var s := Run(s0, steps).state;
    var c :| InvAt(init, s, c);
    var tx := s.txs[t];
    assert TxOk(s.mem, c, tx);
    var x :| WalkOk(s.mem, c, tx, true, {}, x);
    HistoryGrows(init, s.history, true, tx.left, c, x);
  }

  // ---------------------------------------------------------------------------------------------
  // Privatizing and discarding with care
  // ---------------------------------------------------------------------------------------------

  /** The step privatizes or discards a block although an abort would leave something else there than a commit. A block
      in write-through mode stays as it is when it is privatized again. */
  predicate Careless(s: State, step: Step)
    requires Enabled(s, step)
  {
    && (step.PrivatizeBlock? || step.DiscardBlock?)
    && var p, w := s.txs[step.t].pages[step.b], s.mem[step.b];
    View(p, w) != Saved(p, w) && (step.PrivatizeBlock? ==> !p.writeThrough)
  }

  /** Exactly then does privatizing or discarding count as a store of a commit, or leave something after an abort. */
  lemma CarelessIff(init: Memory, s: State, step: Step)
    requires Inv(init, s) && Enabled(s, step) && (step.PrivatizeBlock? || step.DiscardBlock?)
    ensures Careless(s, step) <==>
            NextTx(s, step).log != s.txs[step.t].log || NextTx(s, step).left != s.txs[step.t].left
  {
    var c :| InvAt(init, s, c);
    var tx, w := s.txs[step.t], s.mem[step.b];
    assert TxOk(s.mem, c, tx);
    var p, q := tx.pages[step.b], NextTx(s, step).pages[step.b];
    assert p.status == WrLocked || (p.status == RdLocked && Overlay(p, w) == w);
    if step.PrivatizeBlock? {
      LoadKeepsOverlay(p, RangeBits(step.off, step.n), w);
      assert Overlay(q, w) == Overlay(p, w);
    }
  }

  /** Without a store to a block, its contents are what they were before the log. */
  lemma {:induction false} NotStoredNotChanged(c: Memory, log: seq<Op>, b: nat)
    requires Replay(c, log).Memory? && b < |c| && !Stores(log, b)
    ensures |Replay(c, log).mem| == |c| && Replay(c, log).mem[b] == c[b]
  {
    if log != [] {
      var most := log[..|log| - 1];
      forall i | 0 <= i < |most| && most[i].block == b ensures !most[i].StoreOp? {
        assert log[i] == most[i];
      }
      NotStoredNotChanged(c, most, b);
      assert log[|log| - 1].block == b ==> !log[|log| - 1].StoreOp?;
    }
  }

  /** A block that the transaction has not stored to can be privatized and discarded with care. */
  lemma NotStoredIsCareful(init: Memory, s: State, step: Step)
    requires Inv(init, s) && Enabled(s, step) && (step.PrivatizeBlock? || step.DiscardBlock?)
    requires !Stores(s.txs[step.t].log, step.b) && !Stores(s.txs[step.t].left, step.b)
    ensures !Careless(s, step)
  {
    var c :| InvAt(init, s, c);
    var tx := s.txs[step.t];
    assert TxOk(s.mem, c, tx);
    var v, r :| RunningOk(s.mem, c, tx, v, r);
    NotStoredNotChanged(c, tx.log, step.b);
    NotStoredNotChanged(c, tx.left, step.b);
    assert PageOk(tx.pages[step.b], s.mem[step.b], c[step.b], v[step.b], r[step.b]);
  }

  predicate CarefulRun(s: State, steps: seq<Step>)
    decreases |steps|
  {
    steps == [] || (Enabled(s, steps[0]) && !Careless(s, steps[0]) && CarefulRun(Next(s, steps[0]), steps[1..]))
  }

  /** Nothing was left behind. */
  ghost predicate Clean(s: State) {
    (forall t :: 0 <= t < |s.txs| ==> s.txs[t].left == []) && (forall i :: 0 <= i < |s.history| ==> !s.history[i].undo)
  }

  lemma {:induction false} CarefulStaysClean(init: Memory, s: State, steps: seq<Step>)
    requires Inv(init, s) && Clean(s) && CarefulRun(s, steps)
    ensures Run(s, steps).Reached? && Clean(Run(s, steps).state)
    decreases |steps|
  {
    if steps != [] {
      var step := steps[0];
      if step.PrivatizeBlock? || step.DiscardBlock? {
        CarelessIff(init, s, step);
      }
      StepKeepsInv(init, s, step);
      CarefulStaysClean(init, Next(s, step), steps[1..]);
    }
  }

  /** A transaction whose undo walk has ended leaves no byte of its own in the block. */
  ghost predicate Undone(s: State, c: Memory, t: nat, b: nat) {
    t < |s.txs| && s.txs[t].phase == Walking(true, {}) && b in s.txs[t].pages ==> b < |s.mem| == |c| && s.mem[b] == c[b]
  }

  /** Atomicity of aborts. As long as no transaction privatizes or discards a block in which it has a store that
      changes memory, the history holds committed transactions only, and an undo walk that ends leaves no byte of its
      transaction in memory. */
  lemma AbortLeavesNothing(s0: State, init: Memory, steps: seq<Step>)
    requires Init(s0, init) && CarefulRun(s0, steps)
    ensures Run(s0, steps).Reached?
    ensures var s := Run(s0, steps).state;
            && (forall i :: 0 <= i < |s.history| ==> !s.history[i].undo) && SerialRun(init, s.history).Memory?
            && forall t: nat, b: nat :: Undone(s, SerialRun(init, s.history).mem, t, b)
  {
    ReachableInv(s0, init, []);
    CarefulStaysClean(init, s0, steps);
    Serializable(s0, init, steps);
    var s := Run(s0, steps).state;
    forall t: nat, b: nat ensures Undone(s, SerialRun(init, s.history).mem, t, b) {
      if t < |s.txs| && s.txs[t].phase == Walking(true, {}) && b in s.txs[t].pages {
        assert s.txs[t].left == [];
        AbortLeaves(s0, init, steps, t, b);
      }
    }
  }

  function OneTransaction(): State {
    State([ZeroWord()], [Tx(Running, map[], [], [])], [])
  }

  /** It has stored a byte in place. */
  function StoredInPlace(): State {
    var p := Page(true, false, WrLocked, ZeroWord(), RangeBits(0, 1));
    State([[7, 0, 0, 0, 0, 0, 0, 0]], [Tx(Running, map[0 := p], [StoreOp(0, 0, [7])], [])], [])
  }

  lemma RunOne(s: State, steps: seq<Step>)
    requires steps != [] && Enabled(s, steps[0])
    ensures Run(s, steps) == Run(Next(s, steps[0]), steps[1..])
  {
  }

  /** It stores the byte after privatizing its block. */
  lemma StoresInPlace(steps: seq<Step>)
    requires steps == [LockForWrite(0, 0), PrivatizeBlock(0, 0, 0, 1), Store(0, 0, 0, [7])]
    ensures Run(OneTransaction(), steps) == Reached(StoredInPlace())
  {
    var zero, w: Word := ZeroWord(), [7, 0, 0, 0, 0, 0, 0, 0];
    var p, q := NewPage(WrLocked), Page(true, false, WrLocked, zero, RangeBits(0, 1));
    var s0 := OneTransaction();
    var s1 := State([zero], [Tx(Running, map[0 := p], [], [])], []);
    assert Next(s0, LockForWrite(0, 0)) == s1;
    assert Privatize(p, 0, 1, zero) == q && View(p, zero) == zero == View(q, zero) && Saved(q, zero) == zero;
    var s2 := State([zero], [Tx(Running, map[0 := q], [], [])], []);
    assert map[0 := p][0 := q] == map[0 := q] == map[0 := q][0 := q];
    assert Next(s1, PrivatizeBlock(0, 0, 0, 1)) == s2;
    assert LoadBits(q, RangeBits(0, 1), zero) == q && Splice(zero, 0, [7]) == w;
    assert [] + [StoreOp(0, 0, [7])] == [StoreOp(0, 0, [7])];
    assert Next(s2, Store(0, 0, 0, [7])) == StoredInPlace();
    RunOne(s0, steps);
    RunOne(s1, steps[1..]);
    RunOne(s2, steps[2..]);
  }

  /** What the discard makes of it. */
  function DiscardedInPlace(phase: Phase): State {
    var w: Word := [7, 0, 0, 0, 0, 0, 0, 0];
    var p := Page(true, true, WrLocked, ZeroWord(), RangeBits(0, 1));
    State([w], [Tx(phase, map[0 := p], [StoreOp(0, 0, [7])], [StoreOp(0, 0, w)])], [])
  }

  lemma DiscardsInPlace()
    ensures Enabled(StoredInPlace(), DiscardBlock(0, 0))
    ensures Next(StoredInPlace(), DiscardBlock(0, 0)) == DiscardedInPlace(Running)
  {
    var w: Word := [7, 0, 0, 0, 0, 0, 0, 0];
    var p := Page(true, false, WrLocked, ZeroWord(), RangeBits(0, 1));
    var q := Discard(p);
    assert View(p, w) == w == View(q, w) && Saved(q, w) == w && Saved(p, w)[0] == 0;
    assert map[0 := p][0 := q] == map[0 := q] && [] + [StoreOp(0, 0, w)] == [StoreOp(0, 0, w)];
  }

  /** The abort then leaves memory as it is. */
  lemma AbortsInPlace(steps: seq<Step>)
    requires steps == [BeginWalk(0, true), WalkPage(0, 0), EndWalk(0)]
    ensures Run(DiscardedInPlace(Running), steps).Reached?
    ensures var s := Run(DiscardedInPlace(Running), steps).state;
            s.mem == DiscardedInPlace(Running).mem && s.history == [Ended(true, DiscardedInPlace(Running).txs[0].left)]
  {
    var s1 := DiscardedInPlace(Running);
    var tx := s1.txs[0];
    assert tx.pages.Keys == {0} && {0} - {0} == {};
    assert Next(s1, BeginWalk(0, true)) == DiscardedInPlace(Walking(true, {0}));
    assert Next(DiscardedInPlace(Walking(true, {0})), WalkPage(0, 0)) == DiscardedInPlace(Walking(true, {}));
    assert [] + [Ended(true, tx.left)] == [Ended(true, tx.left)];
    var last := Next(DiscardedInPlace(Walking(true, {})), EndWalk(0));
    assert last == State(s1.mem, [Tx(Finishing, tx.pages, [], [])], [Ended(true, tx.left)]);
    RunOne(s1, steps);
    RunOne(DiscardedInPlace(Walking(true, {0})), steps[1..]);
    RunOne(DiscardedInPlace(Walking(true, {})), steps[2..]);
  }

  /** Otherwise it may leave one: after a store in place, a discard of its block, and an abort. */
  lemma CarelessAbortExample() returns (steps: seq<Step>)
    ensures Run(OneTransaction(), steps).Reached?
    ensures var s := Run(OneTransaction(), steps).state;
            && |s.mem| == 1 && s.mem[0] == [7, 0, 0, 0, 0, 0, 0, 0]
            && s.history == [Ended(true, [StoreOp(0, 0, s.mem[0])])]
  {
    var store := [LockForWrite(0, 0), PrivatizeBlock(0, 0, 0, 1), Store(0, 0, 0, [7])];
    var end := [BeginWalk(0, true), WalkPage(0, 0), EndWalk(0)];
    StoresInPlace(store);
    DiscardsInPlace();
    AbortsInPlace(end);
    RunBoth(OneTransaction(), store, [DiscardBlock(0, 0)] + end);
    assert ([DiscardBlock(0, 0)] + end)[1..] == end;
    steps := store + ([DiscardBlock(0, 0)] + end);
  }

  lemma {:induction false} RunBoth(s: State, first: seq<Step>, rest: seq<Step>)
    requires Run(s, first).Reached?
    ensures Run(s, first + rest) == Run(Run(s, first).state, rest)
    decreases |first|
  {
    if first == [] {
      assert first + rest == rest;
    } else {
      assert (first + rest)[1..] == first[1..] + rest;
      RunBoth(Next(s, first[0]), first[1..], rest);
    }
  }
}
