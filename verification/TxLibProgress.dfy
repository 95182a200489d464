/** What a transaction on shared queues, stacks, lists and multisets can do by itself (modules/txlib/src). */
module TxLibProgress {
  import opened TxLib
  import opened TxLibViews
  import opened TxLibRuns
  import opened TxLibRequests

  /** The steps are all of transaction t. */
  predicate Own(steps: seq<Step>, t: nat) {
    forall i :: 0 <= i < |steps| ==> steps[i].t == t
  }

  /** The others are as before. */
  ghost predicate OthersKept(s: State, s': State, t: nat) {
    |s'.txs| == |s.txs| && forall u :: 0 <= u < |s.txs| && u != t ==> s'.txs[u] == s.txs[u]
  }

  ghost predicate Ready(s: State, t: nat) {
    && t < |s.txs| && SameShape(s.shared, s.txs[t].local) && s.txs[t].written <= s.txs[t].locked
    && (s.txs[t].phase.Applying? ==> s.txs[t].phase.done <= |s.txs[t].log|)
    && (s.txs[t].phase.Undoing? ==> s.txs[t].phase.left <= |s.txs[t].log|)
  }

  /** It has ended, with this history, and holds no lock any more. */
  ghost predicate HasEnded(s: State, t: nat, history: seq<seq<Done>>) {
    && t < |s.txs| && s.txs[t].phase.Running? && s.txs[t].log == [] && s.txs[t].locked == {} == s.txs[t].written
    && s.history == history
  }

  lemma RunOn(s: State, first: Step, rest: seq<Step>)
    requires Enabled(s, first) && RunAll(Next(s, first), rest).Reached?
    ensures RunAll(s, [first] + rest) == RunAll(Next(s, first), rest)
  {
    assert ([first] + rest)[1..] == rest;
  }

  lemma OwnMore(first: Step, rest: seq<Step>, t: nat)
    requires first.t == t && Own(rest, t)
    ensures Own([first] + rest, t)
  {
  }

  lemma {:induction false} RunBoth(s: State, first: seq<Step>, rest: seq<Step>)
    requires RunAll(s, first).Reached?
    ensures RunAll(s, first + rest) == RunAll(RunAll(s, first).state, rest)
    decreases |first|
  {
    if first == [] {
      assert first + rest == rest;
    } else {
      assert (first + rest)[1..] == first[1..] + rest;
      RunBoth(Next(s, first[0]), first[1..], rest);
    }
  }

  /** It gives its locks back one by one. */
  lemma {:induction false} FinishAlone(s: State, t: nat) returns (more: seq<Step>)
    requires Ready(s, t) && s.txs[t].phase.Finishing? && s.txs[t].log == []
    ensures Own(more, t) && RunAll(s, more).Reached?
    ensures var s' := RunAll(s, more).state; OthersKept(s, s', t) && HasEnded(s', t, s.history)
    decreases s.txs[t].locked
  {
    if s.txs[t].locked == {} {
      assert Enabled(s, EndFinish(t));
      return [EndFinish(t)];
    }
    var x :| x in s.txs[t].locked;
    assert Enabled(s, Unlock(t, x));
    more := FinishAlone(Next(s, Unlock(t, x)), t);
    RunOn(s, Unlock(t, x), more);
    OwnMore(Unlock(t, x), more, t);
    more := [Unlock(t, x)] + more;
  }

  /** It applies the rest of its log. */
  lemma {:induction false} ApplyAlone(s: State, t: nat) returns (more: seq<Step>)
    requires Ready(s, t) && s.txs[t].phase.Applying?
    ensures Own(more, t) && RunAll(s, more).Reached?
    ensures var s' := RunAll(s, more).state; OthersKept(s, s', t) && HasEnded(s', t, s.history + [s.txs[t].log])
    decreases |s.txs[t].log| - s.txs[t].phase.done
  {
    var step := if s.txs[t].phase.done == |s.txs[t].log| then EndApply(t) else ApplyNext(t);
    assert Enabled(s, step);
    SeenShape(s, step);
    if step.EndApply? {
      more := FinishAlone(Next(s, step), t);
    } else {
      more := ApplyAlone(Next(s, step), t);
    }
    RunOn(s, step, more);
    OwnMore(step, more, t);
    more := [step] + more;
  }

  /** It undoes the rest of its log. */
  lemma {:induction false} UndoAlone(s: State, t: nat) returns (more: seq<Step>)
    requires Ready(s, t) && s.txs[t].phase.Undoing?
    ensures Own(more, t) && RunAll(s, more).Reached?
    ensures var s' := RunAll(s, more).state; OthersKept(s, s', t) && HasEnded(s', t, s.history)
    decreases s.txs[t].phase.left
  {
    var step := if s.txs[t].phase.left == 0 then EndUndo(t) else UndoNext(t);
    assert Enabled(s, step);
    SeenShape(s, step);
    if step.EndUndo? {
      more := FinishAlone(Next(s, step), t);
    } else {
      more := UndoAlone(Next(s, step), t);
    }
    RunOn(s, step, more);
    OwnMore(step, more, t);
    more := [step] + more;
  }

  /** Transaction t of the state is the one of the earlier state, with more writer locks. */
  ghost predicate HasLocked(s: State, s': State, t: nat, names: set<Name>) {
    && Ready(s, t) && Ready(s', t) && s'.history == s.history && OthersKept(s, s', t)
    && s'.txs[t].phase.Running? && s'.txs[t].log == s.txs[t].log && s'.txs[t].written == s.txs[t].written + names
    && Seen(s'.shared, s'.txs[t].local) == Seen(s.shared, s.txs[t].local)
  }

  /** It takes writer locks for structures that no other transaction has locked. */
  lemma {:induction false} LockAlone(s: State, t: nat, names: set<Name>) returns (more: seq<Step>)
    requires Ready(s, t) && s.txs[t].phase.Running? && forall x :: x in names ==> NoOtherHolder(s, t, x)
    ensures Own(more, t) && RunAll(s, more).Reached? && HasLocked(s, RunAll(s, more).state, t, names)
    decreases names
  {
    if names == {} {
      return [];
    }
    var x :| x in names;
    var step := LockForWrite(t, x);
    assert NoOtherHolder(s, t, x);
    assert Enabled(s, step);
    var s1 := Next(s, step);
    forall y | y in names - {x} ensures NoOtherHolder(s1, t, y) {
      assert NoOtherHolder(s, t, y);
    }
    more := LockAlone(s1, t, names - {x});
    assert {x} + (names - {x}) == names;
    RunOn(s, step, more);
    OwnMore(step, more, t);
    more := [step] + more;
  }

  lemma RunReady(s0: State, init: Lib, steps: seq<Step>, t: nat)
    requires Init(s0, init) && RunAll(s0, steps).Reached? && t < |RunAll(s0, steps).state.txs|
    ensures Ready(RunAll(s0, steps).state, t)
  {
    RunRecords(s0, init, steps);
    assert TxRecorded(RunAll(s0, steps).state.txs[t], steps, t);
  }

  /** No other transaction has locked a queue or stack to which this one has pushed something. */
  ghost predicate CanPublish(s: State, t: nat)
    requires t < |s.txs|
  {
    var local := s.txs[t].local;
    && (forall i :: 0 <= i < |local.queues| && local.queues[i].local != [] ==> NoOtherHolder(s, t, QueueName(i)))
    && (forall i :: 0 <= i < |local.stacks| && local.stacks[i].local != [] ==> NoOtherHolder(s, t, StackName(i)))
  }

  lemma CommitAlone(s: State, t: nat) returns (more: seq<Step>)
    requires Ready(s, t) && s.txs[t].phase.Running? && CanPublish(s, t)
    ensures Own(more, t) && RunAll(s, more).Reached?
    ensures var s' := RunAll(s, more).state; OthersKept(s, s', t) && HasEnded(s', t, s.history + [s.txs[t].log])
  {
    var local := s.txs[t].local;
    var queues := set i | 0 <= i < |local.queues| && local.queues[i].local != [] :: QueueName(i);
    var stacks := set i | 0 <= i < |local.stacks| && local.stacks[i].local != [] :: StackName(i);
    var locks := LockAlone(s, t, queues + stacks);
    var s1 := RunAll(s, locks).state;
    assert Enabled(s1, BeginApply(t));
    SeenShape(s1, BeginApply(t));
    var apply := ApplyAlone(Next(s1, BeginApply(t)), t);
    RunOn(s1, BeginApply(t), apply);
    OwnMore(BeginApply(t), apply, t);
    RunBoth(s, locks, [BeginApply(t)] + apply);
    more := locks + ([BeginApply(t)] + apply);
  }

  /** A running transaction can commit by its own steps alone, unless another one has locked a queue or stack that it
      has pushed to: then its log counts, and it holds no lock any more. */
  lemma CanCommit(s0: State, init: Lib, steps: seq<Step>, t: nat) returns (more: seq<Step>)
    requires Init(s0, init) && RunAll(s0, steps).Reached? && t < |RunAll(s0, steps).state.txs|
    requires RunAll(s0, steps).state.txs[t].phase.Running? && CanPublish(RunAll(s0, steps).state, t)
    ensures Own(more, t) && RunAll(s0, steps + more).Reached?
    ensures var s, s' := RunAll(s0, steps).state, RunAll(s0, steps + more).state;
            OthersKept(s, s', t) && HasEnded(s', t, s.history + [s.txs[t].log])
  {
    RunReady(s0, init, steps, t);
    more := CommitAlone(RunAll(s0, steps).state, t);
    RunBoth(s0, steps, more);
  }

  /** It can abort in any case, and then nothing of it counts. */
  lemma CanAbort(s0: State, init: Lib, steps: seq<Step>, t: nat) returns (more: seq<Step>)
    requires Init(s0, init) && RunAll(s0, steps).Reached? && t < |RunAll(s0, steps).state.txs|
    requires RunAll(s0, steps).state.txs[t].phase.Running?
    ensures Own(more, t) && RunAll(s0, steps + more).Reached?
    ensures var s, s' := RunAll(s0, steps).state, RunAll(s0, steps + more).state;
            OthersKept(s, s', t) && HasEnded(s', t, s.history)
  {
    RunReady(s0, init, steps, t);
    var s := RunAll(s0, steps).state;
    assert Enabled(s, BeginUndo(t));
    SeenShape(s, BeginUndo(t));
    var undo := UndoAlone(Next(s, BeginUndo(t)), t);
    RunOn(s, BeginUndo(t), undo);
    OwnMore(BeginUndo(t), undo, t);
    more := [BeginUndo(t)] + undo;
    RunBoth(s0, steps, more);
  }

  function NameOf(op: Op): Name {
    match op
    case PushQueue(i, _) => QueueName(i)
    case PopQueue(i) => QueueName(i)
    case PushStack(i, _) => StackName(i)
    case PopStack(i) => StackName(i)
    case InsertList(i, _, _) => ListName(i)
    case EraseList(i, _) => ListName(i)
    case InsertMultiset(i, _) => MultisetName(i)
    case EraseMultiset(i, _) => MultisetName(i)
  }

  /** The lock that an operation needs. Pushing needs none, nor does popping one's own entries off a stack; a queue
      without shared entries is only read. */
  function Need(seen: Lib, op: Op): Lock
    requires Legal(seen, op)
  {
    match op
    case PushQueue(_, _) => Free
    case PushStack(_, _) => Free
    case PopQueue(i) => if seen.queues[i].shared == [] then Reader else Writer
    case PopStack(i) => if seen.stacks[i].local != [] then Free else Writer
    case _ => Writer
  }

  /** No other transaction has a lock that excludes it. */
  ghost predicate MayLock(s: State, t: nat, x: Name, lock: Lock) {
    match lock
    case Free => true
    case Reader => NoOtherWriter(s, t, x)
    case Writer => NoOtherHolder(s, t, x)
  }

  lemma ExecutesAlone(s: State, t: nat, op: Op) returns (more: seq<Step>)
    requires Ready(s, t) && s.txs[t].phase.Running?
    requires var seen := Seen(s.shared, s.txs[t].local); Legal(seen, op) && MayLock(s, t, NameOf(op), Need(seen, op))
    ensures RunAll(s, more).Reached?
    ensures || more == [Execute(t, op)] || more == [LockForRead(t, NameOf(op))] + [Execute(t, op)]
            || more == [LockForWrite(t, NameOf(op))] + [Execute(t, op)]
  {
    var need, work := Need(Seen(s.shared, s.txs[t].local), op), Execute(t, op);
    if need == Free {
      assert Enabled(s, work);
      RunOn(s, work, []);
      more := [work];
    } else {
      var lock := if need == Reader then LockForRead(t, NameOf(op)) else LockForWrite(t, NameOf(op));
      assert Enabled(s, lock);
      var s1 := Next(s, lock);
      assert Seen(s1.shared, s1.txs[t].local) == Seen(s.shared, s.txs[t].local);
      assert Enabled(s1, work);
      RunOn(s1, work, []);
      RunOn(s, lock, [work]);
      more := [lock] + [work];
    }
  }

  /** A legal operation is done if no other transaction has a lock that excludes the one that it needs. */
  lemma CanExecute(s0: State, init: Lib, steps: seq<Step>, t: nat, op: Op) returns (more: seq<Step>)
    requires Init(s0, init) && RunAll(s0, steps).Reached?
    requires var s := RunAll(s0, steps).state;
             && t < |s.txs| && s.txs[t].phase.Running? && SameShape(s.shared, s.txs[t].local)
             && var seen := Seen(s.shared, s.txs[t].local);
                Legal(seen, op) && MayLock(s, t, NameOf(op), Need(seen, op))
    ensures Own(more, t) && RunAll(s0, steps + more).Reached?
    ensures Asked(steps + more, t) == Asked(steps, t) + [OpReq(op)]
  {
    RunReady(s0, init, steps, t);
    more := ExecutesAlone(RunAll(s0, steps).state, t, op);
    RunBoth(s0, steps, more);
    AskedLast(steps, more[0], Execute(t, op));
  }

  /** A look is granted if no other transaction has a writer lock. */
  lemma CanLook(s0: State, init: Lib, steps: seq<Step>, t: nat, x: Name) returns (more: seq<Step>)
    requires Init(s0, init) && RunAll(s0, steps).Reached?
    requires var s := RunAll(s0, steps).state;
             && t < |s.txs| && s.txs[t].phase.Running? && NoOtherWriter(s, t, x) && Named(s.shared, x)
    ensures Own(more, t) && RunAll(s0, steps + more).Reached?
    ensures Asked(steps + more, t) == Asked(steps, t) + [LookReq(x)]
  {
    RunReady(s0, init, steps, t);
    var s, lock, look := RunAll(s0, steps).state, LockForRead(t, x), Look(t, x);
    assert Enabled(s, lock);
    var s1 := Next(s, lock);
    assert Enabled(s1, look);
    RunOn(s1, look, []);
    RunOn(s, lock, [look]);
    more := [lock] + [look];
    RunBoth(s0, steps, more);
    AskedLast(steps, lock, look);
  }

  lemma AskedLast(steps: seq<Step>, lock: Step, last: Step)
    requires last.Execute? || last.Look?
    ensures var asked := Asked(steps, last.t) + [if last.Execute? then OpReq(last.op) else LookReq(last.x)];
            && Asked(steps + [last], last.t) == asked
            && (lock.LockForRead? || lock.LockForWrite? ==> Asked(steps + ([lock] + [last]), last.t) == asked)
  {
    assert (steps + [lock])[..|steps|] == steps == (steps + [last])[..|steps|];
    assert steps + ([lock] + [last]) == (steps + [lock]) + [last];
    assert ((steps + [lock]) + [last])[..|steps| + 1] == steps + [lock];
  }
}
