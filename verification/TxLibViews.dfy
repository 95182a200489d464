/** What a transaction's operations on queues, stacks, lists and multisets depend on (modules/txlib/src).
    - All local sequences are its own.
    - Of the shared ones, only those count for which it holds a lock, and it changes only those for which it holds a
      writer lock.
    So an operation, a whole log, a step of the apply walk, and a step of the undo walk do the same in two states that
    agree in all of this, and leave states that agree in it. */
module TxLibViews {
  import opened TxLib

  /** What a transaction has done: an operation with its event, or a look at what it sees in a structure, which
      stands for the operations that return the front, the back, the size or whether there is something. */
  datatype Done = Did(op: Op, event: Event) | Saw(x: Name, contents: Contents)

  datatype Contents = Entries(entries: seq<nat>) | Keys(keys: seq<int>)

  datatype Outcome = Wrong | Holds(lib: Lib)

  predicate Named(lib: Lib, x: Name) {
    match x
    case QueueName(i) => i < |lib.queues|
    case StackName(i) => i < |lib.stacks|
    case ListName(i) => i < |lib.lists|
    case MultisetName(i) => i < |lib.multisets|
  }

  /** Shared and local entries together. */
  function ContentsOf(lib: Lib, x: Name): Contents
    requires Named(lib, x)
  {
    match x
    case QueueName(i) => Entries(lib.queues[i].shared + lib.queues[i].local)
    case StackName(i) => Entries(lib.stacks[i].shared + lib.stacks[i].local)
    case ListName(i) => Entries(lib.lists[i])
    case MultisetName(i) => Keys(lib.multisets[i])
  }

  /** The structures that an operation depends on, for which it takes a reader or writer lock. */
  function Reads(lib: Lib, op: Op): set<Name>
    requires Legal(lib, op)
  {
    if op.PopQueue? then {QueueName(op.i)} else WriterLocks(lib, op)
  }

  /** The operation or look, which is wrong if it does not give what it gave, or lacks a lock. */
  function Perform(lib: Lib, d: Done, locked: set<Name>, written: set<Name>): Outcome {
    match d
    case Did(op, event) =>
      if Legal(lib, op) && Exec(lib, op).1 == event && Reads(lib, op) <= locked && WriterLocks(lib, op) <= written
      then Holds(Exec(lib, op).0) else Wrong
    case Saw(x, contents) =>
      if x in locked && Named(lib, x) && ContentsOf(lib, x) == contents then Holds(lib) else Wrong
  }

  function Replay(lib: Lib, log: seq<Done>, locked: set<Name>, written: set<Name>): Outcome {
    if log == [] then Holds(lib)
    else
      var before := Replay(lib, log[..|log| - 1], locked, written);
      if before.Wrong? then Wrong else Perform(before.lib, log[|log| - 1], locked, written)
  }

  // ---------------------------------------------------------------------------------------------
  // Two states of all structures
  // ---------------------------------------------------------------------------------------------

  predicate SameShape(a: Lib, b: Lib) {
    && |a.queues| == |b.queues| && |a.stacks| == |b.stacks|
    && |a.lists| == |b.lists| && |a.multisets| == |b.multisets|
  }

  ghost predicate LocalSame(a: Lib, b: Lib) {
    && SameShape(a, b)
    && (forall i :: 0 <= i < |a.queues| ==> a.queues[i].local == b.queues[i].local)
    && (forall i :: 0 <= i < |a.stacks| ==> a.stacks[i].local == b.stacks[i].local)
  }

  predicate SharedSame(a: Lib, b: Lib, x: Name) {
    match x
    case QueueName(i) => i < |a.queues| && i < |b.queues| ==> a.queues[i].shared == b.queues[i].shared
    case StackName(i) => i < |a.stacks| && i < |b.stacks| ==> a.stacks[i].shared == b.stacks[i].shared
    case ListName(i) => i < |a.lists| && i < |b.lists| ==> a.lists[i] == b.lists[i]
    case MultisetName(i) => i < |a.multisets| && i < |b.multisets| ==> a.multisets[i] == b.multisets[i]
  }

  /** Everything that is local is the same, and everything that is locked. */
  ghost predicate Views(a: Lib, b: Lib, locked: set<Name>) {
    LocalSame(a, b) && forall x :: x in locked ==> SharedSame(a, b, x)
  }

  /** Nothing shared differs but what is written. */
  ghost predicate OnlyWritten(a: Lib, b: Lib, written: set<Name>) {
    SameShape(a, b) && forall x :: x !in written ==> SharedSame(a, b, x)
  }

  /** An operation does the same wherever what it depends on is the same. */
  lemma ExecViews(a: Lib, b: Lib, op: Op, locked: set<Name>)
    requires Views(a, b, locked) && Legal(a, op) && Reads(a, op) <= locked
    ensures Legal(b, op) && Exec(b, op).1 == Exec(a, op).1 && Reads(b, op) == Reads(a, op)
    ensures WriterLocks(b, op) == WriterLocks(a, op)
    ensures Views(Exec(a, op).0, Exec(b, op).0, locked)
  {
    if op.PushQueue? || op.PopQueue? {
      ExecViewsQueue(a, b, op, locked);
    } else if op.PushStack? || op.PopStack? {
      ExecViewsStack(a, b, op, locked);
    } else {
      ExecViewsInPlace(a, b, op, locked);
    }
  }

  lemma ExecViewsQueue(a: Lib, b: Lib, op: Op, locked: set<Name>)
    requires Views(a, b, locked) && Legal(a, op) && Reads(a, op) <= locked && (op.PushQueue? || op.PopQueue?)
    ensures Legal(b, op) && Exec(b, op).1 == Exec(a, op).1 && Reads(b, op) == Reads(a, op)
    ensures WriterLocks(b, op) == WriterLocks(a, op)
    ensures Views(Exec(a, op).0, Exec(b, op).0, locked)
  {
    assert SharedSame(a, b, QueueName(op.i)) || op.PushQueue?;
    var a', b' := Exec(a, op).0, Exec(b, op).0;
    forall x | x in locked ensures SharedSame(a', b', x) {
      assert SharedSame(a, b, x);
    }
  }

  lemma ExecViewsStack(a: Lib, b: Lib, op: Op, locked: set<Name>)
    requires Views(a, b, locked) && Legal(a, op) && Reads(a, op) <= locked && (op.PushStack? || op.PopStack?)
    ensures Legal(b, op) && Exec(b, op).1 == Exec(a, op).1 && Reads(b, op) == Reads(a, op)
    ensures WriterLocks(b, op) == WriterLocks(a, op)
    ensures Views(Exec(a, op).0, Exec(b, op).0, locked)
  {
    assert StackName(op.i) in locked ==> SharedSame(a, b, StackName(op.i));
    var a', b' := Exec(a, op).0, Exec(b, op).0;
    forall x | x in locked ensures SharedSame(a', b', x) {
      assert SharedSame(a, b, x);
    }
  }

  lemma ExecViewsInPlace(a: Lib, b: Lib, op: Op, locked: set<Name>)
    requires Views(a, b, locked) && Legal(a, op) && Reads(a, op) <= locked
    requires op.InsertList? || op.EraseList? || op.InsertMultiset? || op.EraseMultiset?
    ensures Legal(b, op) && Exec(b, op).1 == Exec(a, op).1 && Reads(b, op) == Reads(a, op)
    ensures WriterLocks(b, op) == WriterLocks(a, op)
    ensures Views(Exec(a, op).0, Exec(b, op).0, locked)
  {
    assert SharedSame(a, b, if op.InsertList? || op.EraseList? then ListName(op.i) else MultisetName(op.i));
    var a', b' := Exec(a, op).0, Exec(b, op).0;
    forall x | x in locked ensures SharedSame(a', b', x) {
      assert SharedSame(a, b, x);
    }
  }

  lemma ExecWrites(lib: Lib, op: Op)
    requires Legal(lib, op)
    ensures OnlyWritten(Exec(lib, op).0, lib, WriterLocks(lib, op)) && WriterLocks(lib, op) <= Reads(lib, op)
  {
  }

  /** So does a whole log. */
  lemma {:induction false} ReplayViews(a: Lib, b: Lib, log: seq<Done>, locked: set<Name>, written: set<Name>)
    requires Views(a, b, locked) && Replay(a, log, locked, written).Holds?
    ensures Replay(b, log, locked, written).Holds?
    ensures Views(Replay(a, log, locked, written).lib, Replay(b, log, locked, written).lib, locked)
  {
    if log != [] {
      var most, d := log[..|log| - 1], log[|log| - 1];
      ReplayViews(a, b, most, locked, written);
      var v, w := Replay(a, most, locked, written).lib, Replay(b, most, locked, written).lib;
      if d.Did? {
        ExecViews(v, w, d.op, locked);
      } else {
        assert SharedSame(v, w, d.x);
      }
    }
  }

  /** A log changes no shared sequence but those that it has writer locks for. */
  lemma {:induction false} ReplayWrites(lib: Lib, log: seq<Done>, locked: set<Name>, written: set<Name>)
    requires Replay(lib, log, locked, written).Holds?
    ensures OnlyWritten(Replay(lib, log, locked, written).lib, lib, written)
  {
    if log != [] {
      var most, d := log[..|log| - 1], log[|log| - 1];
      ReplayWrites(lib, most, locked, written);
      var v := Replay(lib, most, locked, written).lib;
      if d.Did? {
        ExecWrites(v, d.op);
        var v' := Exec(v, d.op).0;
        forall x | x !in written ensures SharedSame(v', lib, x) {
          assert SharedSame(v', v, x) && SharedSame(v, lib, x);
        }
      }
    }
  }

  /** More locks do not change it. */
  lemma {:induction false} ReplayMore(lib: Lib, log: seq<Done>, locked: set<Name>, written: set<Name>,
                                      locked': set<Name>, written': set<Name>)
    requires Replay(lib, log, locked, written).Holds? && locked <= locked' && written <= written'
    ensures Replay(lib, log, locked', written') == Replay(lib, log, locked, written)
  {
    if log != [] {
      ReplayMore(lib, log[..|log| - 1], locked, written, locked', written');
    }
  }

  lemma ReplayAppend(lib: Lib, log: seq<Done>, d: Done, locked: set<Name>, written: set<Name>)
    requires Replay(lib, log, locked, written).Holds?
    ensures Replay(lib, log + [d], locked, written)
            == Perform(Replay(lib, log, locked, written).lib, d, locked, written)
  {
    assert (log + [d])[..|log|] == log;
  }

  /** Any beginning of a log that can be replayed can be replayed. */
  lemma {:induction false} ReplayPrefix(lib: Lib, log: seq<Done>, k: nat, locked: set<Name>, written: set<Name>)
    requires Replay(lib, log, locked, written).Holds? && k <= |log|
    ensures Replay(lib, log[..k], locked, written).Holds?
    ensures k < |log| ==> Replay(lib, log[..k + 1], locked, written)
                          == Perform(Replay(lib, log[..k], locked, written).lib, log[k], locked, written)
    ensures k < |log| ==> Replay(lib, log[..k + 1], locked, written).Holds?
  {
    if k == |log| {
      assert log[..k] == log;
    } else {
      var most := log[..|log| - 1];
      if k < |most| {
        ReplayPrefix(lib, most, k, locked, written);
        assert log[..k] == most[..k] && log[..k + 1] == most[..k + 1];
      } else {
        assert log[..k] == most && log[..k + 1] == log;
      }
    }
  }

  lemma {:induction false} ReplayKeepsWellFormed(lib: Lib, log: seq<Done>, locked: set<Name>, written: set<Name>)
    requires WellFormed(lib) && Replay(lib, log, locked, written).Holds?
    ensures WellFormed(Replay(lib, log, locked, written).lib)
  {
    if log != [] {
      ReplayKeepsWellFormed(lib, log[..|log| - 1], locked, written);
      var d := log[|log| - 1];
      if d.Did? {
        ExecKeepsWellFormed(Replay(lib, log[..|log| - 1], locked, written).lib, d.op);
      }
    }
  }

  // ---------------------------------------------------------------------------------------------
  // The walks over the log
  // ---------------------------------------------------------------------------------------------

  function Applied(lib: Lib, d: Done): Lib {
    if d.Did? then Apply(lib, d.event) else lib
  }

  function Undone(lib: Lib, d: Done): Lib {
    if d.Did? then Undo(lib, d.event) else lib
  }

  /** What has local entries is locked for writing. */
  ghost predicate Prepared(lib: Lib, written: set<Name>) {
    && (forall i :: 0 <= i < |lib.queues| && lib.queues[i].local != [] ==> QueueName(i) in written)
    && (forall i :: 0 <= i < |lib.stacks| && lib.stacks[i].local != [] ==> StackName(i) in written)
  }

  lemma AppliedViews(a: Lib, b: Lib, d: Done, locked: set<Name>, written: set<Name>)
    requires Views(a, b, locked) && Prepared(a, written) && written <= locked
    ensures Views(Applied(a, d), Applied(b, d), locked) && Prepared(Applied(a, d), written)
    ensures OnlyWritten(Applied(a, d), a, written)
  {
    forall x | x in locked ensures SharedSame(Applied(a, d), Applied(b, d), x) {
      assert SharedSame(a, b, x);
    }
    if d.Did? && d.event.QueuePushed? && QueueName(d.event.i) in locked {
      assert SharedSame(a, b, QueueName(d.event.i));
    }
    if d.Did? && d.event.StackPushed? && StackName(d.event.i) in locked {
      assert SharedSame(a, b, StackName(d.event.i));
    }
  }

  /** Undoing the last operation of a log that has been replayed, somewhere where everything that counts is the same. */
  lemma UndoneViews(w: Lib, seen: Lib, d: Done, locked: set<Name>, written: set<Name>)
    requires WellFormed(w) && Perform(w, d, locked, written).Holds? && written <= locked
    requires Views(seen, Perform(w, d, locked, written).lib, locked)
    ensures Views(Undone(seen, d), w, locked) && OnlyWritten(Undone(seen, d), seen, written)
  {
    if d.Did? {
      UndoInvertsExec(w, d.op);
      UndoViews(Exec(w, d.op).0, seen, w, d.op, locked, written);
    }
  }

  lemma UndoViews(v: Lib, seen: Lib, w: Lib, op: Op, locked: set<Name>, written: set<Name>)
    requires Legal(w, op) && v == Exec(w, op).0 && Views(seen, v, locked) && written <= locked
    requires Reads(w, op) <= locked && WriterLocks(w, op) <= written && Undo(v, Exec(w, op).1) == w
    ensures Views(Undo(seen, Exec(w, op).1), w, locked) && OnlyWritten(Undo(seen, Exec(w, op).1), seen, written)
  {
    if op.PushQueue? || op.PopQueue? {
      UndoViewsQueue(v, seen, w, op, locked, written);
    } else if op.PushStack? || op.PopStack? {
      UndoViewsStack(v, seen, w, op, locked, written);
    } else if op.InsertList? || op.EraseList? {
      UndoViewsList(v, seen, w, op, locked, written);
    } else {
      UndoViewsMultiset(v, seen, w, op, locked, written);
    }
  }

  lemma UndoViewsQueue(v: Lib, seen: Lib, w: Lib, op: Op, locked: set<Name>, written: set<Name>)
    requires Legal(w, op) && v == Exec(w, op).0 && Views(seen, v, locked) && written <= locked
    requires Reads(w, op) <= locked && WriterLocks(w, op) <= written && Undo(v, Exec(w, op).1) == w
    requires op.PushQueue? || op.PopQueue?
    ensures Views(Undo(seen, Exec(w, op).1), w, locked) && OnlyWritten(Undo(seen, Exec(w, op).1), seen, written)
  {
    assert QueueName(op.i) in locked ==> SharedSame(seen, v, QueueName(op.i));
    forall x | x in locked ensures SharedSame(Undo(seen, Exec(w, op).1), w, x) {
      assert SharedSame(seen, v, x);
    }
  }

  lemma UndoViewsStack(v: Lib, seen: Lib, w: Lib, op: Op, locked: set<Name>, written: set<Name>)
    requires Legal(w, op) && v == Exec(w, op).0 && Views(seen, v, locked) && written <= locked
    requires Reads(w, op) <= locked && WriterLocks(w, op) <= written && Undo(v, Exec(w, op).1) == w
    requires op.PushStack? || op.PopStack?
    ensures Views(Undo(seen, Exec(w, op).1), w, locked) && OnlyWritten(Undo(seen, Exec(w, op).1), seen, written)
  {
    assert StackName(op.i) in locked ==> SharedSame(seen, v, StackName(op.i));
    forall x | x in locked ensures SharedSame(Undo(seen, Exec(w, op).1), w, x) {
      assert SharedSame(seen, v, x);
    }
  }

  lemma UndoViewsList(v: Lib, seen: Lib, w: Lib, op: Op, locked: set<Name>, written: set<Name>)
    requires Legal(w, op) && v == Exec(w, op).0 && Views(seen, v, locked) && written <= locked
    requires Reads(w, op) <= locked && WriterLocks(w, op) <= written && Undo(v, Exec(w, op).1) == w
    requires op.InsertList? || op.EraseList?
    ensures Views(Undo(seen, Exec(w, op).1), w, locked) && OnlyWritten(Undo(seen, Exec(w, op).1), seen, written)
  {
    assert SharedSame(seen, v, ListName(op.i));
    forall x | x in locked ensures SharedSame(Undo(seen, Exec(w, op).1), w, x) {
      assert SharedSame(seen, v, x);
    }
  }

  lemma UndoViewsMultiset(v: Lib, seen: Lib, w: Lib, op: Op, locked: set<Name>, written: set<Name>)
    requires Legal(w, op) && v == Exec(w, op).0 && Views(seen, v, locked) && written <= locked
    requires Reads(w, op) <= locked && WriterLocks(w, op) <= written && Undo(v, Exec(w, op).1) == w
    requires op.InsertMultiset? || op.EraseMultiset?
    ensures Views(Undo(seen, Exec(w, op).1), w, locked) && OnlyWritten(Undo(seen, Exec(w, op).1), seen, written)
  {
    assert SharedSame(seen, v, MultisetName(op.i));
    forall x | x in locked ensures SharedSame(Undo(seen, Exec(w, op).1), w, x) {
      assert SharedSame(seen, v, x);
    }
  }
}
