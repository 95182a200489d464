/** Any number of transactions on shared queues, stacks, lists and multisets (modules/txlib/src). */
module TxLibRuns {
  import opened TxLib
  import opened TxLibViews

  /** The first `done` entries of the log have been applied, or those from `left` on undone. */
  datatype Phase = Running | Applying(done: nat) | Undoing(left: nat) | Finishing

  /** Of `local`, only the local sequences count. `written` are the structures with a writer lock. */
  datatype Tx = Tx(phase: Phase, local: Lib, locked: set<Name>, written: set<Name>, log: seq<Done>)

  /** Of `shared`, only the shared sequences count. */
  datatype State = State(shared: Lib, txs: seq<Tx>, history: seq<seq<Done>>)

  /** One lock, one operation, or one event of the walk over the log. Locks are released only at the end. */
  datatype Step =
    | LockForRead(t: nat, x: Name)
    | LockForWrite(t: nat, x: Name)
    | Execute(t: nat, op: Op)
    | Look(t: nat, x: Name)
    | BeginApply(t: nat)
    | ApplyNext(t: nat)
    | EndApply(t: nat)
    | BeginUndo(t: nat)
    | UndoNext(t: nat)
    | EndUndo(t: nat)
    | Unlock(t: nat, x: Name)
    | EndFinish(t: nat)

  /** What a transaction sees: shared and its own local sequences. */
  function Seen(shared: Lib, local: Lib): Lib
    requires SameShape(shared, local)
  {
    Lib(seq(|shared.queues|,
            i requires 0 <= i < |shared.queues| => Split(shared.queues[i].shared, local.queues[i].local)),
        seq(|shared.stacks|,
            i requires 0 <= i < |shared.stacks| => Split(shared.stacks[i].shared, local.stacks[i].local)),
        shared.lists, shared.multisets)
  }

  // ---------------------------------------------------------------------------------------------
  // Serial execution: the reference
  // ---------------------------------------------------------------------------------------------

  /** The entry that a pop returns. */
  function Got(event: Event): seq<nat> {
    if event.QueuePopped? || event.StackPopped? then [event.e] else []
  }

  function DirectGot(lib: Lib, op: Op): seq<nat>
    requires Legal(lib, op)
  {
    match op
    case PopQueue(i) => if lib.queues[i].shared == [] then [] else lib.queues[i].shared[..1]
    case PopStack(i) => if lib.stacks[i].shared == [] then [] else lib.stacks[i].shared[|lib.stacks[i].shared| - 1..]
    case _ => []
  }

  /** An operation, or a look, directly on the shared structures. It is wrong if it does not give what it gave. */
  function DirectPerform(lib: Lib, d: Done): Outcome {
    match d
    case Did(op, event) =>
      if Legal(lib, op) && DirectGot(lib, op) == Got(event) then Holds(Direct(lib, op)) else Wrong
    case Saw(x, contents) => if Named(lib, x) && ContentsOf(lib, x) == contents then Holds(lib) else Wrong
  }

  function DirectReplay(lib: Lib, log: seq<Done>): Outcome {
    if log == [] then Holds(lib)
    else
      var before := DirectReplay(lib, log[..|log| - 1]);
      if before.Wrong? then Wrong else DirectPerform(before.lib, log[|log| - 1])
  }

  /** Whole transactions one after the other. */
  function SerialRun(lib: Lib, history: seq<seq<Done>>): Outcome {
    if history == [] then Holds(lib)
    else
      var before := SerialRun(lib, history[..|history| - 1]);
      if before.Wrong? then Wrong else DirectReplay(before.lib, history[|history| - 1])
  }

  // ---------------------------------------------------------------------------------------------
  // The concurrent machine
  // ---------------------------------------------------------------------------------------------

  predicate NoOtherWriter(s: State, t: nat, x: Name) {
    forall u :: 0 <= u < |s.txs| && u != t ==> x !in s.txs[u].written
  }

  predicate NoOtherHolder(s: State, t: nat, x: Name) {
    forall u :: 0 <= u < |s.txs| && u != t ==> x !in s.txs[u].locked
  }

  ghost predicate Enabled(s: State, step: Step) {
    && step.t < |s.txs| && SameShape(s.shared, s.txs[step.t].local)
    && var tx := s.txs[step.t];
    var seen := Seen(s.shared, tx.local);
    match step
    case LockForRead(t, x) => tx.phase.Running? && NoOtherWriter(s, t, x)
    case LockForWrite(t, x) => tx.phase.Running? && NoOtherHolder(s, t, x)
    case Execute(_, op) =>
      tx.phase.Running? && Legal(seen, op) && Reads(seen, op) <= tx.locked && WriterLocks(seen, op) <= tx.written
    case Look(_, x) => tx.phase.Running? && Named(seen, x) && x in tx.locked
    case BeginApply(_) => tx.phase.Running? && Prepared(seen, tx.written)
    case ApplyNext(_) => tx.phase.Applying? && tx.phase.done < |tx.log|
    case EndApply(_) => tx.phase == Applying(|tx.log|)
    case BeginUndo(_) => tx.phase.Running?
    case UndoNext(_) => tx.phase.Undoing? && 0 < tx.phase.left <= |tx.log|
    case EndUndo(_) => tx.phase == Undoing(0)
    case Unlock(_, x) => tx.phase.Finishing? && x in tx.locked
    case EndFinish(_) => tx.phase.Finishing? && tx.locked == {}
  }

  /** What is seen, and so what is shared and local, after the step. */
  function NextSeen(s: State, step: Step): Lib
    requires Enabled(s, step)
  {
    var tx := s.txs[step.t];
    var seen := Seen(s.shared, tx.local);
    match step
    case Execute(_, op) => Exec(seen, op).0
    case ApplyNext(_) => Applied(seen, tx.log[tx.phase.done])
    case UndoNext(_) => Undone(seen, tx.log[tx.phase.left - 1])
    case _ => seen
  }

  /** The rest of the transaction. */
  function NextTx(s: State, step: Step): Tx
    requires Enabled(s, step)
  {
    var tx := s.txs[step.t];
    var seen := Seen(s.shared, tx.local);
    match step
    case LockForRead(_, x) => tx.(locked := tx.locked + {x})
    case LockForWrite(_, x) => tx.(locked := tx.locked + {x}, written := tx.written + {x})
    case Execute(_, op) => tx.(log := tx.log + [Did(op, Exec(seen, op).1)])
    case Look(_, x) => tx.(log := tx.log + [Saw(x, ContentsOf(seen, x))])
    case BeginApply(_) => tx.(phase := Applying(0))
    case ApplyNext(_) => tx.(phase := Applying(tx.phase.done + 1))
    case EndApply(_) => tx.(phase := Finishing, log := [])
    case BeginUndo(_) => tx.(phase := Undoing(|tx.log|))
    case UndoNext(_) => tx.(phase := Undoing(tx.phase.left - 1))
    case EndUndo(_) => tx.(phase := Finishing, log := [])
    case Unlock(_, x) => tx.(locked := tx.locked - {x}, written := tx.written - {x})
    case EndFinish(_) => tx.(phase := Running)
  }

  function Next(s: State, step: Step): State
    requires Enabled(s, step)
  {
    var lib := NextSeen(s, step);
    State(lib, s.txs[step.t := NextTx(s, step).(local := lib)],
          if step.EndApply? then s.history + [s.txs[step.t].log] else s.history)
  }

  ghost predicate Init(s: State, lib: Lib) {
    && s.shared == lib && s.history == [] && Published(lib) && WellFormed(lib)
    && forall t :: 0 <= t < |s.txs| ==> s.txs[t] == Tx(Running, lib, {}, {}, [])
  }

  datatype Result = Stuck | Reached(state: State)

  ghost function RunAll(s: State, steps: seq<Step>): Result
    decreases |steps|
  {
    if steps == [] then Reached(s)
    else if !Enabled(s, steps[0]) then Stuck
    else RunAll(Next(s, steps[0]), steps[1..])
  }

  // ---------------------------------------------------------------------------------------------
  // The invariant
  // ---------------------------------------------------------------------------------------------

  function ApplyLog(lib: Lib, log: seq<Done>): Lib {
    if log == [] then lib else Applied(ApplyLog(lib, log[..|log| - 1]), log[|log| - 1])
  }

  /** Where the transaction has come to: it has run its log on the serial state c, which led to v, and applied or undone
      part of it. */
  ghost predicate IsAt(c: Lib, tx: Tx, v: Lib, at: Lib) {
    match tx.phase
    case Running => at == v
    case Applying(done) => done <= |tx.log| && Prepared(v, tx.written) && at == ApplyLog(v, tx.log[..done])
    case Undoing(left) => left <= |tx.log| && Replay(c, tx.log[..left], tx.locked, tx.written) == Holds(at)
    case Finishing => tx.log == [] && at == v
  }

  /** What is local, and what is locked, is where the transaction has come to. */
  ghost predicate Sees(shared: Lib, tx: Tx, at: Lib) {
    && SameShape(shared, at) && LocalSame(tx.local, at)
    && forall x :: x in tx.locked ==> SharedSame(shared, at, x)
  }

  ghost predicate TxAt(shared: Lib, c: Lib, tx: Tx, v: Lib, at: Lib) {
    && tx.written <= tx.locked && Replay(c, tx.log, tx.locked, tx.written) == Holds(v)
    && IsAt(c, tx, v, at) && Sees(shared, tx, at)
  }

  ghost predicate TxOk(shared: Lib, c: Lib, tx: Tx) {
    exists v, at :: TxAt(shared, c, tx, v, at)
  }

  ghost predicate Exclusive(txs: seq<Tx>) {
    forall t, u, x :: 0 <= t < |txs| && 0 <= u < |txs| && t != u && x in txs[t].written ==> x !in txs[u].locked
  }

  ghost predicate Unwritten(txs: seq<Tx>, x: Name) {
    forall t :: 0 <= t < |txs| ==> x !in txs[t].written
  }

  ghost predicate InvAt(init: Lib, s: State, c: Lib) {
    && SerialRun(init, s.history) == Holds(c) && Published(c) && WellFormed(c) && SameShape(s.shared, c)
    && Exclusive(s.txs)
    && (forall t :: 0 <= t < |s.txs| ==> TxOk(s.shared, c, s.txs[t]))
    && (forall x :: Unwritten(s.txs, x) ==> SharedSame(s.shared, c, x))
  }

  ghost predicate Inv(init: Lib, s: State) {
    exists c :: InvAt(init, s, c)
  }

  // ---------------------------------------------------------------------------------------------
  // What others do not notice
  // ---------------------------------------------------------------------------------------------

  lemma {:induction false} ApplyLogViews(a: Lib, b: Lib, log: seq<Done>, locked: set<Name>, written: set<Name>)
    requires Views(a, b, locked) && Prepared(a, written) && written <= locked
    ensures Views(ApplyLog(a, log), ApplyLog(b, log), locked) && Prepared(ApplyLog(a, log), written)
    ensures OnlyWritten(ApplyLog(a, log), a, written)
  {
    if log != [] {
      var most := log[..|log| - 1];
      ApplyLogViews(a, b, most, locked, written);
      AppliedViews(ApplyLog(a, most), ApplyLog(b, most), log[|log| - 1], locked, written);
      forall x | x !in written ensures SharedSame(ApplyLog(a, log), a, x) {
        assert SharedSame(ApplyLog(a, log), ApplyLog(a, most), x) && SharedSame(ApplyLog(a, most), a, x);
      }
    }
  }

  lemma PreparedViews(a: Lib, b: Lib, locked: set<Name>, written: set<Name>)
    requires Views(a, b, locked)
    ensures Prepared(a, written) <==> Prepared(b, written)
  {
  }

  /** A transaction does not notice when shared sequences change that it has no lock for. */
  lemma FrameShared(shared: Lib, shared': Lib, c: Lib, tx: Tx)
    requires TxOk(shared, c, tx) && SameShape(shared', shared)
    requires forall x :: x in tx.locked ==> SharedSame(shared', shared, x)
    ensures TxOk(shared', c, tx)
  {
    var v, at :| TxAt(shared, c, tx, v, at);
    forall x | x in tx.locked ensures SharedSame(shared', at, x) {
      assert SharedSame(shared', shared, x) && SharedSame(shared, at, x);
    }
    assert TxAt(shared', c, tx, v, at);
  }

  /** Nor when another transaction commits that had no writer lock for anything that this one has locked. */
  lemma FrameSerial(shared: Lib, c: Lib, c': Lib, tx: Tx)
    requires TxOk(shared, c, tx) && Published(c) && Published(c') && SameShape(c, c')
    requires forall x :: x in tx.locked ==> SharedSame(c, c', x)
    ensures TxOk(shared, c', tx)
  {
    var v, at :| TxAt(shared, c, tx, v, at);
    assert Views(c, c', tx.locked);
    ReplayViews(c, c', tx.log, tx.locked, tx.written);
    var v' := Replay(c', tx.log, tx.locked, tx.written).lib;
    var at' := v';
    match tx.phase {
      case Running =>
      case Finishing =>
      case Applying(done) =>
        at' := ApplyLog(v', tx.log[..done]);
        ApplyLogViews(v, v', tx.log[..done], tx.locked, tx.written);
        PreparedViews(v, v', tx.locked, tx.written);
      case Undoing(left) =>
        ReplayViews(c, c', tx.log[..left], tx.locked, tx.written);
        at' := Replay(c', tx.log[..left], tx.locked, tx.written).lib;
    }
    assert Views(at, at', tx.locked);
    forall x | x in tx.locked ensures SharedSame(shared, at', x) {
      assert SharedSame(shared, at, x) && SharedSame(at, at', x);
    }
    assert TxAt(shared, c', tx, v', at');
  }

  /** What a step must show about its own transaction for the rest of the invariant to follow. */
  lemma StepOfOne(init: Lib, s: State, c: Lib, t: nat, tx': Tx, shared': Lib)
    requires InvAt(init, s, c) && t < |s.txs| && OnlyWritten(shared', s.shared, s.txs[t].written)
    requires TxOk(shared', c, tx')
    requires forall x :: x in tx'.locked ==> x in s.txs[t].locked || NoOtherWriter(s, t, x)
    requires forall x :: x in tx'.written ==> x in s.txs[t].written || NoOtherHolder(s, t, x)
    requires forall x :: x in s.txs[t].written && x !in tx'.written ==> SharedSame(shared', c, x)
    ensures InvAt(init, State(shared', s.txs[t := tx'], s.history), c)
  {
    var txs' := s.txs[t := tx'];
    forall u | 0 <= u < |txs'| && u != t ensures TxOk(shared', c, txs'[u]) {
      forall x | x in s.txs[u].locked ensures SharedSame(shared', s.shared, x) {
        assert x !in s.txs[t].written;
      }
      FrameShared(s.shared, shared', c, s.txs[u]);
    }
    forall x | Unwritten(txs', x) ensures SharedSame(shared', c, x) {
      assert x !in txs'[t].written;
      if x !in s.txs[t].written {
        forall u | 0 <= u < |s.txs| ensures x !in s.txs[u].written {
          assert u != t ==> txs'[u] == s.txs[u];
        }
        assert SharedSame(shared', s.shared, x) && SharedSame(s.shared, c, x);
      }
    }
  }

  // ---------------------------------------------------------------------------------------------
  // Steps of a running transaction
  // ---------------------------------------------------------------------------------------------

  lemma SeenViews(shared: Lib, local: Lib, at: Lib, locked: set<Name>)
    requires SameShape(shared, at) && LocalSame(local, at) && forall x :: x in locked ==> SharedSame(shared, at, x)
    ensures Views(Seen(shared, local), at, locked) && OnlyWritten(Seen(shared, local), shared, {})
  {
    forall x | x in locked ensures SharedSame(Seen(shared, local), at, x) {
      assert SharedSame(shared, at, x);
    }
  }

  /** The shared and local sequences become those of `lib`, which is like `at` wherever it counts. */
  lemma SeesViews(tx: Tx, lib: Lib, at: Lib)
    requires Views(lib, at, tx.locked)
    ensures Sees(lib, tx.(local := lib), at)
  {
  }

  /** A step of a transaction that keeps its locks. */
  lemma SameLocksStep(init: Lib, s: State, c: Lib, t: nat, tx': Tx, lib: Lib, v: Lib, at: Lib)
    requires InvAt(init, s, c) && t < |s.txs| && OnlyWritten(lib, s.shared, s.txs[t].written)
    requires tx'.local == lib && tx'.locked == s.txs[t].locked && tx'.written == s.txs[t].written
    requires Replay(c, tx'.log, tx'.locked, tx'.written) == Holds(v) && IsAt(c, tx', v, at)
             && Views(lib, at, tx'.locked)
    ensures InvAt(init, State(lib, s.txs[t := tx'], s.history), c)
  {
    assert TxOk(s.shared, c, s.txs[t]);
    SeesViews(tx', lib, at);
    assert tx'.(local := lib) == tx';
    assert TxAt(lib, c, tx', v, at);
    StepOfOne(init, s, c, t, tx', lib);
  }

  lemma SeenWritten(shared: Lib, local: Lib, lib: Lib, written: set<Name>)
    requires SameShape(shared, local) && OnlyWritten(lib, Seen(shared, local), written)
    ensures OnlyWritten(lib, shared, written)
  {
    forall x | x !in written ensures SharedSame(lib, shared, x) {
      assert SharedSame(lib, Seen(shared, local), x);
    }
  }

  lemma LockStep(init: Lib, s: State, c: Lib, step: Step)
    requires InvAt(init, s, c) && Enabled(s, step) && (step.LockForRead? || step.LockForWrite?)
    ensures InvAt(init, Next(s, step), c)
  {
    var tx, lib := s.txs[step.t], NextSeen(s, step);
    var tx' := NextTx(s, step).(local := lib);
    assert TxOk(s.shared, c, tx);
    var v, at :| TxAt(s.shared, c, tx, v, at);
    SeenViews(s.shared, tx.local, v, tx.locked);
    ReplayMore(c, tx.log, tx.locked, tx.written, tx'.locked, tx'.written);
    WrittenIsLocked(s, c);
    if step.x !in tx.locked {
      NewlyLocked(init, s, c, step.t, step.x, v);
    }
    forall x | x in tx'.locked ensures SharedSame(lib, v, x) {
      assert SharedSame(lib, s.shared, x);
    }
    SeesViews(tx', lib, v);
    assert TxAt(lib, c, tx', v, v);
    StepOfOne(init, s, c, step.t, tx', lib);
  }

  /** A structure that can be locked is as the serial state has it, and the transaction has not changed it. */
  lemma NewlyLocked(init: Lib, s: State, c: Lib, t: nat, x: Name, v: Lib)
    requires InvAt(init, s, c) && t < |s.txs| && NoOtherWriter(s, t, x) && x !in s.txs[t].written
    requires SameShape(s.shared, v) && Replay(c, s.txs[t].log, s.txs[t].locked, s.txs[t].written) == Holds(v)
    ensures SharedSame(s.shared, v, x)
  {
    ReplayWrites(c, s.txs[t].log, s.txs[t].locked, s.txs[t].written);
    assert Unwritten(s.txs, x);
    assert SharedSame(s.shared, c, x) && SharedSame(v, c, x);
  }

  lemma WrittenIsLocked(s: State, c: Lib)
    requires forall t :: 0 <= t < |s.txs| ==> TxOk(s.shared, c, s.txs[t])
    ensures forall t :: 0 <= t < |s.txs| ==> s.txs[t].written <= s.txs[t].locked
  {
    forall t | 0 <= t < |s.txs| ensures s.txs[t].written <= s.txs[t].locked {
      assert TxOk(s.shared, c, s.txs[t]);
    }
  }

  lemma ExecuteStep(init: Lib, s: State, c: Lib, step: Step)
    requires InvAt(init, s, c) && Enabled(s, step) && step.Execute?
    ensures InvAt(init, Next(s, step), c)
  {
    var tx := s.txs[step.t];
    var seen, lib := Seen(s.shared, tx.local), NextSeen(s, step);
    var tx' := NextTx(s, step).(local := lib);
    assert TxOk(s.shared, c, tx);
    var v, at :| TxAt(s.shared, c, tx, v, at);
    SeenViews(s.shared, tx.local, v, tx.locked);
    ExecViews(seen, v, step.op, tx.locked);
    ExecWrites(seen, step.op);
    SeenWritten(s.shared, tx.local, lib, tx.written);
    ReplayAppend(c, tx.log, Did(step.op, Exec(seen, step.op).1), tx.locked, tx.written);
    SameLocksStep(init, s, c, step.t, tx', lib, Exec(v, step.op).0, Exec(v, step.op).0);
  }

  lemma LookStep(init: Lib, s: State, c: Lib, step: Step)
    requires InvAt(init, s, c) && Enabled(s, step) && step.Look?
    ensures InvAt(init, Next(s, step), c)
  {
    var tx := s.txs[step.t];
    var seen := Seen(s.shared, tx.local);
    assert TxOk(s.shared, c, tx);
    var v, at :| TxAt(s.shared, c, tx, v, at);
    SeenViews(s.shared, tx.local, v, tx.locked);
    assert SharedSame(seen, v, step.x);
    ReplayAppend(c, tx.log, Saw(step.x, ContentsOf(seen, step.x)), tx.locked, tx.written);
    SameLocksStep(init, s, c, step.t, NextTx(s, step).(local := seen), seen, v, v);
  }

  // ---------------------------------------------------------------------------------------------
  // The end of a transaction
  // ---------------------------------------------------------------------------------------------

  lemma BeginStep(init: Lib, s: State, c: Lib, step: Step)
    requires InvAt(init, s, c) && Enabled(s, step) && (step.BeginApply? || step.BeginUndo?)
    ensures InvAt(init, Next(s, step), c)
  {
    var tx := s.txs[step.t];
    var seen := Seen(s.shared, tx.local);
    assert TxOk(s.shared, c, tx);
    var v, at :| TxAt(s.shared, c, tx, v, at);
    SeenViews(s.shared, tx.local, v, tx.locked);
    PreparedViews(seen, v, tx.locked, tx.written);
    assert tx.log[..|tx.log|] == tx.log && tx.log[..0] == [];
    SameLocksStep(init, s, c, step.t, NextTx(s, step).(local := seen), seen, v, v);
  }

  lemma ApplyStep(init: Lib, s: State, c: Lib, step: Step)
    requires InvAt(init, s, c) && Enabled(s, step) && step.ApplyNext?
    ensures InvAt(init, Next(s, step), c)
  {
    var tx := s.txs[step.t];
    var seen, lib := Seen(s.shared, tx.local), NextSeen(s, step);
    assert TxOk(s.shared, c, tx);
    var v, at :| TxAt(s.shared, c, tx, v, at);
    SeenViews(s.shared, tx.local, at, tx.locked);
    var at' := AppliedAt(tx, v, at, seen);
    SeenWritten(s.shared, tx.local, lib, tx.written);
    SameLocksStep(init, s, c, step.t, NextTx(s, step).(local := lib), lib, v, at');
  }

  lemma AppliedAt(tx: Tx, v: Lib, at: Lib, seen: Lib) returns (at': Lib)
    requires tx.phase.Applying? && tx.phase.done < |tx.log| && tx.written <= tx.locked && Views(seen, at, tx.locked)
    requires Prepared(v, tx.written) && at == ApplyLog(v, tx.log[..tx.phase.done])
    ensures var lib := Applied(seen, tx.log[tx.phase.done]);
            Views(lib, at', tx.locked) && OnlyWritten(lib, seen, tx.written)
    ensures at' == ApplyLog(v, tx.log[..tx.phase.done + 1])
  {
    var k := tx.phase.done;
    at' := Applied(at, tx.log[k]);
    ApplyLogViews(v, v, tx.log[..k], tx.locked, tx.written);
    PreparedViews(seen, at, tx.locked, tx.written);
    AppliedViews(seen, at, tx.log[k], tx.locked, tx.written);
    assert tx.log[..k + 1][..k] == tx.log[..k] && tx.log[..k + 1][k] == tx.log[k];
  }

  lemma UndoStep(init: Lib, s: State, c: Lib, step: Step)
    requires InvAt(init, s, c) && Enabled(s, step) && step.UndoNext?
    ensures InvAt(init, Next(s, step), c)
  {
    var tx := s.txs[step.t];
    var seen, lib, k := Seen(s.shared, tx.local), NextSeen(s, step), tx.phase.left - 1;
    assert TxOk(s.shared, c, tx);
    var v, at :| TxAt(s.shared, c, tx, v, at);
    SeenViews(s.shared, tx.local, at, tx.locked);
    ReplayPrefix(c, tx.log, k, tx.locked, tx.written);
    ReplayKeepsWellFormed(c, tx.log[..k], tx.locked, tx.written);
    var w := Replay(c, tx.log[..k], tx.locked, tx.written).lib;
    UndoneViews(w, seen, tx.log[k], tx.locked, tx.written);
    SeenWritten(s.shared, tx.local, lib, tx.written);
    SameLocksStep(init, s, c, step.t, NextTx(s, step).(local := lib), lib, v, w);
  }

  lemma EndUndoStep(init: Lib, s: State, c: Lib, step: Step)
    requires InvAt(init, s, c) && Enabled(s, step) && (step.EndUndo? || step.EndFinish?)
    ensures InvAt(init, Next(s, step), c)
  {
    var tx := s.txs[step.t];
    var seen := Seen(s.shared, tx.local);
    assert TxOk(s.shared, c, tx);
    var v, at :| TxAt(s.shared, c, tx, v, at);
    assert step.EndUndo? ==> tx.log[..0] == [];
    SeenViews(s.shared, tx.local, c, tx.locked);
    SameLocksStep(init, s, c, step.t, NextTx(s, step).(local := seen), seen, c, c);
  }

  lemma UnlockStep(init: Lib, s: State, c: Lib, step: Step)
    requires InvAt(init, s, c) && Enabled(s, step) && step.Unlock?
    ensures InvAt(init, Next(s, step), c)
  {
    var tx := s.txs[step.t];
    var seen := Seen(s.shared, tx.local);
    var tx' := NextTx(s, step).(local := seen);
    assert TxOk(s.shared, c, tx);
    var v, at :| TxAt(s.shared, c, tx, v, at);
    SeenViews(s.shared, tx.local, c, tx.locked);
    SeesViews(tx', seen, c);
    assert TxAt(seen, c, tx', c, c);
    StepOfOne(init, s, c, step.t, tx', seen);
  }

  // ---------------------------------------------------------------------------------------------
  // The log of a transaction and its operations, run directly
  // ---------------------------------------------------------------------------------------------

  lemma MergedContents(v: Lib, x: Name)
    requires Named(v, x)
    ensures Named(AllMerged(v), x) && ContentsOf(AllMerged(v), x) == ContentsOf(v, x)
  {
    if x.QueueName? || x.StackName? {
      var q := if x.QueueName? then v.queues[x.i] else v.stacks[x.i];
      assert Merged(q).shared + Merged(q).local == q.shared + q.local;
    }
  }

  lemma MergedGot(v: Lib, op: Op)
    requires Legal(v, op)
    ensures Legal(AllMerged(v), op) && DirectGot(AllMerged(v), op) == Got(Exec(v, op).1)
  {
    DirectStep(v, op);
    match op
    case PopQueue(i) => MergedQueuePop(v.queues[i]);
    case PopStack(i) => MergedStackPop(v.stacks[i]);
    case _ =>
  }

  /** What a transaction has done under its locks can be done directly on the shared structures, with the same
      results. */
  lemma {:induction false} DirectFollows(c: Lib, log: seq<Done>, locked: set<Name>, written: set<Name>)
    requires Published(c) && Replay(c, log, locked, written).Holds?
    ensures DirectReplay(c, log) == Holds(AllMerged(Replay(c, log, locked, written).lib))
  {
    if log == [] {
      assert forall i :: 0 <= i < |c.queues| ==> Merged(c.queues[i]) == c.queues[i];
      assert forall i :: 0 <= i < |c.stacks| ==> Merged(c.stacks[i]) == c.stacks[i];
      assert AllMerged(c) == c;
    } else {
      var most, d := log[..|log| - 1], log[|log| - 1];
      DirectFollows(c, most, locked, written);
      var v := Replay(c, most, locked, written).lib;
      if d.Did? {
        MergedGot(v, d.op);
        DirectStep(v, d.op);
      } else {
        MergedContents(v, d.x);
      }
    }
  }

  lemma {:induction false} DirectAppend(lib: Lib, ops: seq<Op>, op: Op)
    requires DirectLegalRun(lib, ops) && Legal(DirectRun(lib, ops), op)
    ensures DirectLegalRun(lib, ops + [op]) && DirectRun(lib, ops + [op]) == Direct(DirectRun(lib, ops), op)
    decreases |ops|
  {
    if ops == [] {
      assert [op][1..] == [] && ops + [op] == [op];
    } else {
      assert (ops + [op])[1..] == ops[1..] + [op];
      DirectAppend(Direct(lib, ops[0]), ops[1..], op);
    }
  }

  /** A log that is correct directly on the shared structures leads to where its operations lead. */
  lemma {:induction false} DirectReplayIsRun(lib: Lib, log: seq<Done>)
    requires DirectReplay(lib, log).Holds?
    ensures DirectLegalRun(lib, OpsOf(log)) && DirectReplay(lib, log).lib == DirectRun(lib, OpsOf(log))
  {
    if log != [] {
      var most, d := log[..|log| - 1], log[|log| - 1];
      DirectReplayIsRun(lib, most);
      if d.Did? {
        DirectAppend(lib, OpsOf(most), d.op);
      } else {
        assert OpsOf(log) == OpsOf(most);
      }
    }
  }

  function OpsOf(log: seq<Done>): seq<Op> {
    if log == [] then []
    else OpsOf(log[..|log| - 1]) + if log[|log| - 1].Did? then [log[|log| - 1].op] else []
  }

  function EventsOf(log: seq<Done>): seq<Event> {
    if log == [] then []
    else EventsOf(log[..|log| - 1]) + if log[|log| - 1].Did? then [log[|log| - 1].event] else []
  }

  lemma {:induction false} RunAppend(lib: Lib, ops: seq<Op>, op: Op)
    requires LegalRun(lib, ops) && Legal(Run(lib, ops).0, op)
    ensures LegalRun(lib, ops + [op])
    ensures Run(lib, ops + [op]) == (Exec(Run(lib, ops).0, op).0, Run(lib, ops).1 + [Exec(Run(lib, ops).0, op).1])
    decreases |ops|
  {
    if ops == [] {
      assert [op][1..] == [] && ops + [op] == [op];
      var (after, event) := Exec(lib, op);
      assert Run(after, []) == (after, []) && [event] + [] == [] + [event];
    } else {
      assert (ops + [op])[1..] == ops[1..] + [op];
      var (between, event) := Exec(lib, ops[0]);
      RunAppend(between, ops[1..], op);
      var (after, events) := Run(between, ops[1..]);
      var last := Exec(after, op).1;
      assert [event] + (events + [last]) == ([event] + events) + [last];
    }
  }

  lemma {:induction false} ReplayIsRun(c: Lib, log: seq<Done>, locked: set<Name>, written: set<Name>)
    requires Replay(c, log, locked, written).Holds?
    ensures LegalRun(c, OpsOf(log)) && Run(c, OpsOf(log)) == (Replay(c, log, locked, written).lib, EventsOf(log))
  {
    if log != [] {
      var most, d := log[..|log| - 1], log[|log| - 1];
      ReplayIsRun(c, most, locked, written);
      if d.Did? {
        RunAppend(c, OpsOf(most), d.op);
      } else {
        assert OpsOf(log) == OpsOf(most) && EventsOf(log) == EventsOf(most);
      }
    }
  }

  lemma {:induction false} ApplyAppend(lib: Lib, events: seq<Event>, event: Event)
    ensures ApplyAll(lib, events + [event]) == Apply(ApplyAll(lib, events), event)
    decreases |events|
  {
    if events == [] {
      assert events + [event] == [event];
    } else {
      assert (events + [event])[1..] == events[1..] + [event];
      ApplyAppend(Apply(lib, events[0]), events[1..], event);
    }
  }

  lemma {:induction false} ApplyLogIsAll(lib: Lib, log: seq<Done>)
    ensures ApplyLog(lib, log) == ApplyAll(lib, EventsOf(log))
  {
    if log != [] {
      var most, d := log[..|log| - 1], log[|log| - 1];
      ApplyLogIsAll(lib, most);
      if d.Did? {
        ApplyAppend(lib, EventsOf(most), d.event);
      } else {
        assert EventsOf(log) == EventsOf(most);
      }
    }
  }

  /** A whole apply walk merges shared and local sequences. */
  lemma ApplyLogMerges(c: Lib, log: seq<Done>, locked: set<Name>, written: set<Name>)
    requires Published(c) && Replay(c, log, locked, written).Holds?
    ensures var v := Replay(c, log, locked, written).lib; ApplyLog(v, log) == AllMerged(v)
  {
    ReplayIsRun(c, log, locked, written);
    ApplyLogIsAll(Replay(c, log, locked, written).lib, log);
    CommitPublishes(c, OpsOf(log));
  }

  /** The end of the apply walk is the commit point. */
  lemma CommitStep(init: Lib, s: State, c: Lib, step: Step) returns (c': Lib)
    requires InvAt(init, s, c) && Enabled(s, step) && step.EndApply?
    ensures InvAt(init, Next(s, step), c') && DirectReplay(c, s.txs[step.t].log) == Holds(c')
  {
    var t, tx := step.t, s.txs[step.t];
    var seen := Seen(s.shared, tx.local);
    c' := CommittedTx(s.shared, c, tx);
    SeenViews(s.shared, tx.local, c', tx.locked);
    assert (s.history + [tx.log])[..|s.history|] == s.history;
    forall u | 0 <= u < |s.txs| && u != t ensures TxOk(seen, c', s.txs[u]) {
      OtherAtCommit(s, c, c', seen, t, u);
    }
    SameLocks(s.txs, t, NextTx(s, step).(local := seen));
    forall x | Unwritten(s.txs, x) ensures SharedSame(seen, c', x) {
      assert x !in tx.written;
      assert SharedSame(seen, s.shared, x) && SharedSame(s.shared, c, x) && SharedSame(c', c, x);
    }
  }

  lemma SameLocks(txs: seq<Tx>, t: nat, tx': Tx)
    requires t < |txs| && tx'.locked == txs[t].locked && tx'.written == txs[t].written
    ensures forall x: Name :: Unwritten(txs[t := tx'], x) <==> Unwritten(txs, x)
    ensures Exclusive(txs) ==> Exclusive(txs[t := tx'])
  {
    var txs' := txs[t := tx'];
    assert forall u :: 0 <= u < |txs| ==> txs'[u].written == txs[u].written && txs'[u].locked == txs[u].locked;
  }

  /** The serial state that a commit leads to, and what the committed transaction sees. */
  lemma CommittedTx(shared: Lib, c: Lib, tx: Tx) returns (c': Lib)
    requires TxOk(shared, c, tx) && tx.phase == Applying(|tx.log|) && Published(c) && WellFormed(c)
    requires SameShape(shared, tx.local)
    ensures DirectReplay(c, tx.log) == Holds(c') && Published(c') && WellFormed(c') && OnlyWritten(c', c, tx.written)
    ensures Sees(shared, tx, c')
    ensures var seen := Seen(shared, tx.local);
            SameShape(seen, c') && TxOk(seen, c', tx.(phase := Finishing, log := [], local := seen))
  {
    var v, at :| TxAt(shared, c, tx, v, at);
    c' := AllMerged(v);
    DirectFollows(c, tx.log, tx.locked, tx.written);
    ApplyLogMerges(c, tx.log, tx.locked, tx.written);
    assert tx.log[..|tx.log|] == tx.log;
    assert at == c';
    CommitWrites(c, tx, v);
    ReplayKeepsWellFormed(c, tx.log, tx.locked, tx.written);
    EndsAt(shared, c', tx);
  }

  lemma EndsAt(shared: Lib, c: Lib, tx: Tx)
    requires Sees(shared, tx, c) && SameShape(shared, tx.local) && tx.written <= tx.locked
    ensures var seen := Seen(shared, tx.local); TxOk(seen, c, tx.(phase := Finishing, log := [], local := seen))
  {
    var seen := Seen(shared, tx.local);
    var tx' := tx.(phase := Finishing, log := [], local := seen);
    SeenViews(shared, tx.local, c, tx.locked);
    SeesViews(tx', seen, c);
    assert TxAt(seen, c, tx', c, c);
  }

  lemma CommitWrites(c: Lib, tx: Tx, v: Lib)
    requires tx.written <= tx.locked && Replay(c, tx.log, tx.locked, tx.written) == Holds(v) && Prepared(v, tx.written)
    requires ApplyLog(v, tx.log) == AllMerged(v)
    ensures OnlyWritten(AllMerged(v), c, tx.written)
  {
    ReplayWrites(c, tx.log, tx.locked, tx.written);
    ApplyLogViews(v, v, tx.log, tx.locked, tx.written);
    forall x | x !in tx.written ensures SharedSame(AllMerged(v), c, x) {
      assert SharedSame(AllMerged(v), v, x) && SharedSame(v, c, x);
    }
  }

  lemma OtherAtCommit(s: State, c: Lib, c': Lib, seen: Lib, t: nat, u: nat)
    requires t < |s.txs| && u < |s.txs| && t != u && Exclusive(s.txs) && TxOk(s.shared, c, s.txs[u])
    requires OnlyWritten(c', c, s.txs[t].written) && OnlyWritten(seen, s.shared, {}) && Published(c) && Published(c')
    ensures TxOk(seen, c', s.txs[u])
  {
    forall x | x in s.txs[u].locked ensures SharedSame(seen, s.shared, x) && SharedSame(c, c', x) {
      assert x !in s.txs[t].written;
      assert SharedSame(c', c, x);
    }
    FrameShared(s.shared, seen, c, s.txs[u]);
    FrameSerial(seen, c, c', s.txs[u]);
  }

  // ---------------------------------------------------------------------------------------------
  // Every step and every run
  // ---------------------------------------------------------------------------------------------

  lemma StepKeepsInv(init: Lib, s: State, step: Step)
    requires Inv(init, s) && Enabled(s, step)
    ensures Inv(init, Next(s, step))
  {
    var c :| InvAt(init, s, c);
    match step
    case LockForRead(_, _) => LockStep(init, s, c, step);
    case LockForWrite(_, _) => LockStep(init, s, c, step);
    case Execute(_, _) => ExecuteStep(init, s, c, step);
    case Look(_, _) => LookStep(init, s, c, step);
    case BeginApply(_) => BeginStep(init, s, c, step);
    case ApplyNext(_) => ApplyStep(init, s, c, step);
    case EndApply(_) => var c' := CommitStep(init, s, c, step);
    case BeginUndo(_) => BeginStep(init, s, c, step);
    case UndoNext(_) => UndoStep(init, s, c, step);
    case EndUndo(_) => EndUndoStep(init, s, c, step);
    case Unlock(_, _) => UnlockStep(init, s, c, step);
    case EndFinish(_) => EndUndoStep(init, s, c, step);
  }

  lemma {:induction false} RunKeepsInv(init: Lib, s: State, steps: seq<Step>)
    requires Inv(init, s) && RunAll(s, steps).Reached?
    ensures Inv(init, RunAll(s, steps).state)
    decreases |steps|
  {
    if steps != [] {
      StepKeepsInv(init, s, steps[0]);
      RunKeepsInv(init, Next(s, steps[0]), steps[1..]);
    }
  }

  lemma InitHasInv(s: State, init: Lib)
    requires Init(s, init)
    ensures Inv(init, s)
  {
    forall t | 0 <= t < |s.txs| ensures TxOk(init, init, s.txs[t]) {
      assert TxAt(init, init, s.txs[t], init, init);
    }
    assert InvAt(init, s, init);
  }

  // ---------------------------------------------------------------------------------------------
  // Main theorem
  // ---------------------------------------------------------------------------------------------

  /** Serializability. After any schedule of any number of transactions, running the committed ones one after the other,
      in the order in which their apply walks ended, directly on the shared structures, is correct: each pop gives the
      entry that it gave, and each look sees what it saw. Every shared structure that nobody has locked for writing
      is as that run leaves it, and so are all of them when nobody holds a lock. */
  lemma Serializable(s0: State, init: Lib, steps: seq<Step>, x: Name)
    requires Init(s0, init) && RunAll(s0, steps).Reached?
    ensures var s := RunAll(s0, steps).state;
            var serial := SerialRun(init, s.history);
            && serial.Holds? && Published(serial.lib) && SameShape(s.shared, serial.lib)
            && (Unwritten(s.txs, x) ==> SharedSame(s.shared, serial.lib, x))
  {
    InitHasInv(s0, init);
    RunKeepsInv(init, s0, steps);
  }

  /** A transaction that is still running has seen nothing but what committed transactions have left, and its own doing:
      its log is correct directly on the serial state. */
  lemma RunningSeesCommittedOnly(s0: State, init: Lib, steps: seq<Step>, t: nat)
    requires Init(s0, init) && RunAll(s0, steps).Reached?
    requires t < |RunAll(s0, steps).state.txs| && RunAll(s0, steps).state.txs[t].phase.Running?
    ensures var s := RunAll(s0, steps).state;
            SerialRun(init, s.history + [s.txs[t].log]).Holds?
  {
    InitHasInv(s0, init);
    RunKeepsInv(init, s0, steps);
    var s := RunAll(s0, steps).state;
    var c :| InvAt(init, s, c);
    var tx := s.txs[t];
    assert TxOk(s.shared, c, tx);
    DirectFollows(c, tx.log, tx.locked, tx.written);
    assert (s.history + [tx.log])[..|s.history|] == s.history;
  }
}
