/** What a transaction on shared memory can do by itself (modules/tm/src/vmem_tx.c:176-287, 564-645). */
module MemoryProgress {
  import opened Common
  import opened Pages
  import opened Serializability
  import opened CommitRequests

  /** The steps are all of transaction t. */
  predicate Own(steps: seq<Step>, t: nat) {
    forall i :: 0 <= i < |steps| ==> steps[i].t == t
  }

  /** The others are as before. */
  ghost predicate OthersKept(s: State, s': State, t: nat) {
    |s'.txs| == |s.txs| && forall u :: 0 <= u < |s.txs| && u != t ==> s'.txs[u] == s.txs[u]
  }

  lemma RunOn(s: State, first: Step, rest: seq<Step>)
    requires Enabled(s, first) && Run(Next(s, first), rest).Reached?
    ensures Run(s, [first] + rest) == Run(Next(s, first), rest)
  {
    assert ([first] + rest)[1..] == rest;
  }

  /** It gives its locks back one by one. */
  lemma {:induction false} FinishAlone(s: State, t: nat) returns (more: seq<Step>)
    requires t < |s.txs| && s.txs[t].phase.Finishing?
    ensures Own(more, t) && Run(s, more).Reached?
    ensures var s' := Run(s, more).state;
            && OthersKept(s, s', t) && s'.history == s.history && s'.mem == s.mem
            && s'.txs[t] == s.txs[t].(phase := Running, pages := map[])
    decreases |s.txs[t].pages|
  {
    var tx := s.txs[t];
    if tx.pages == map[] {
      return [EndFinish(t)];
    }
    var b :| b in tx.pages;
    var s1 := Next(s, FinishPage(t, b));
    assert tx.pages.Keys == s1.txs[t].pages.Keys + {b};
    assert |tx.pages.Keys| == |s1.txs[t].pages.Keys| + 1;
    more := FinishAlone(s1, t);
    RunOn(s, FinishPage(t, b), more);
    more := [FinishPage(t, b)] + more;
  }

  /** It walks over its pages and ends the walk. */
  lemma {:induction false} WalkAlone(s: State, t: nat) returns (more: seq<Step>)
    requires t < |s.txs| && s.txs[t].phase.Walking? && s.txs[t].phase.todo <= s.txs[t].pages.Keys
    requires forall b :: b in s.txs[t].pages ==> b < |s.mem|
    ensures Own(more, t) && Run(s, more).Reached?
    ensures var s', tx := Run(s, more).state, s.txs[t];
            && OthersKept(s, s', t)
            && s'.history == Recorded(s.history, tx.phase.undo, OpsOf(tx, tx.phase.undo))
            && s'.txs[t] == Tx(Finishing, tx.pages, [], [])
    decreases s.txs[t].phase.todo
  {
    var tx := s.txs[t];
    if tx.phase.todo == {} {
      return [EndWalk(t)];
    }
    var b :| b in tx.phase.todo;
    more := WalkAlone(Next(s, WalkPage(t, b)), t);
    RunOn(s, WalkPage(t, b), more);
    more := [WalkPage(t, b)] + more;
  }

  lemma EndAlone(s: State, t: nat, undo: bool) returns (more: seq<Step>)
    requires t < |s.txs| && s.txs[t].phase.Running? && forall b :: b in s.txs[t].pages ==> b < |s.mem|
    ensures Own(more, t) && Run(s, more).Reached?
    ensures var s' := Run(s, more).state;
            && OthersKept(s, s', t) && s'.txs[t] == Tx(Running, map[], [], [])
            && s'.history == Recorded(s.history, undo, OpsOf(s.txs[t], undo))
  {
    var s1 := Next(s, BeginWalk(t, undo));
    var walk := WalkAlone(s1, t);
    var finish := FinishAlone(Run(s1, walk).state, t);
    RunBoth(s1, walk, finish);
    RunOn(s, BeginWalk(t, undo), walk + finish);
    more := [BeginWalk(t, undo)] + (walk + finish);
  }

  /** Whatever the others do, a running transaction can commit or abort by its own steps alone: then it counts with
      its log, or what it leaves behind, and holds no lock any more. */
  lemma CanEnd(s0: State, init: Memory, steps: seq<Step>, t: nat, undo: bool) returns (more: seq<Step>)
    requires Init(s0, init) && Run(s0, steps).Reached?
    requires t < |Run(s0, steps).state.txs| && Run(s0, steps).state.txs[t].phase.Running?
    ensures Own(more, t) && Run(s0, steps + more).Reached?
    ensures var s, s' := Run(s0, steps).state, Run(s0, steps + more).state;
            && OthersKept(s, s', t) && s'.txs[t] == Tx(Running, map[], [], [])
            && s'.history == Recorded(s.history, undo, OpsOf(s.txs[t], undo))
  {
    RunRecords(s0, init, steps, false);
    var s := Run(s0, steps).state;
    assert TxRecorded(s, s.txs[t], steps, t, false);
    more := EndAlone(s, t, undo);
    RunBoth(s0, steps, more);
  }

  /** The page of the block, if there is one, is not discarded. */
  predicate NotDiscarded(steps: seq<Step>, t: nat, b: nat) {
    MarkOf(steps, t, b).Marked? ==> !MarkOf(steps, t, b).discarded
  }

  lemma NotDiscardedPage(s0: State, init: Memory, steps: seq<Step>, t: nat, b: nat)
    requires Init(s0, init) && Run(s0, steps).Reached? && t < |Run(s0, steps).state.txs| && NotDiscarded(steps, t, b)
    ensures var pages := Run(s0, steps).state.txs[t].pages; b in pages ==> !pages[b].discarded
  {
    RunRecords(s0, init, steps, false);
    var s := Run(s0, steps).state;
    assert TxRecorded(s, s.txs[t], steps, t, false);
    assert MarkIn(s.txs[t], b) == MarkOf(steps, t, b);
  }

  /** The step, with its lock taken before if need be. */
  ghost predicate Access(steps: seq<Step>, lock: Step, step: Step) {
    && (lock.LockForRead? || lock.LockForWrite?) && lock.t == step.t && !step.EndWalk?
    && (steps == [step] || steps == [lock] + [step])
  }

  lemma ReadsAlone(s: State, step: Step) returns (more: seq<Step>)
    requires (step.Load? || step.PrivatizeBlock?) && step.t < |s.txs| && s.txs[step.t].phase.Running?
    requires step.b < |s.mem| && step.off + step.n <= BLOCK_SIZE && NoOtherWriter(s, step.t, step.b)
    requires step.b in s.txs[step.t].pages ==> !s.txs[step.t].pages[step.b].discarded
    ensures Access(more, LockForRead(step.t, step.b), step) && Run(s, more).Reached?
  {
    var lock := LockForRead(step.t, step.b);
    if step.b in s.txs[step.t].pages {
      RunOn(s, step, []);
      more := [step];
    } else {
      RunOn(Next(s, lock), step, []);
      RunOn(s, lock, [step]);
      more := [lock] + [step];
    }
  }

  lemma WritesAlone(s: State, step: Step) returns (more: seq<Step>)
    requires (step.Store? || step.DiscardBlock?) && step.t < |s.txs| && s.txs[step.t].phase.Running?
    requires step.b < |s.mem| && (step.Store? ==> step.off + |step.data| <= BLOCK_SIZE)
    requires NoOtherHolder(s, step.t, step.b)
    requires step.b in s.txs[step.t].pages ==> !s.txs[step.t].pages[step.b].discarded
    ensures Access(more, LockForWrite(step.t, step.b), step) && Run(s, more).Reached?
  {
    var lock := LockForWrite(step.t, step.b);
    if Holds(s.txs[step.t], step.b, WrLocked) {
      RunOn(s, step, []);
      more := [step];
    } else {
      RunOn(Next(s, lock), step, []);
      RunOn(s, lock, [step]);
      more := [lock] + [step];
    }
  }

  /** A load is answered, and a block is privatized for loads, if no other transaction has the block in writer mode. */
  lemma CanRead(s0: State, init: Memory, steps: seq<Step>, step: Step) returns (more: seq<Step>)
    requires Init(s0, init) && Run(s0, steps).Reached? && (step.Load? || step.PrivatizeBlock?)
    requires var s, t := Run(s0, steps).state, step.t;
             && t < |s.txs| && s.txs[t].phase.Running? && step.b < |s.mem| && step.off + step.n <= BLOCK_SIZE
             && NoOtherWriter(s, t, step.b)
    requires NotDiscarded(steps, step.t, step.b)
    ensures Own(more, step.t) && Run(s0, steps + more).Reached?
    ensures Asked(steps + more, step.t) == Asked(steps, step.t) + RequestsOf(step)
  {
    NotDiscardedPage(s0, init, steps, step.t, step.b);
    more := ReadsAlone(Run(s0, steps).state, step);
    RunBoth(s0, steps, more);
    AskedLast(steps, LockForRead(step.t, step.b), step);
  }

  /** A store is made, and a block is discarded, if no other transaction has a page of the block. */
  lemma CanWrite(s0: State, init: Memory, steps: seq<Step>, step: Step) returns (more: seq<Step>)
    requires Init(s0, init) && Run(s0, steps).Reached? && (step.Store? || step.DiscardBlock?)
    requires var s, t := Run(s0, steps).state, step.t;
             && t < |s.txs| && s.txs[t].phase.Running? && step.b < |s.mem|
             && (step.Store? ==> step.off + |step.data| <= BLOCK_SIZE) && NoOtherHolder(s, t, step.b)
    requires NotDiscarded(steps, step.t, step.b)
    ensures Own(more, step.t) && Run(s0, steps + more).Reached?
    ensures Asked(steps + more, step.t) == Asked(steps, step.t) + RequestsOf(step)
  {
    NotDiscardedPage(s0, init, steps, step.t, step.b);
    more := WritesAlone(Run(s0, steps).state, step);
    RunBoth(s0, steps, more);
    AskedLast(steps, LockForWrite(step.t, step.b), step);
  }

  lemma AskedLast(steps: seq<Step>, lock: Step, last: Step)
    requires (lock.LockForRead? || lock.LockForWrite?) && !last.EndWalk? && lock.t == last.t
    ensures Asked(steps + [last], last.t) == Asked(steps, last.t) + RequestsOf(last)
            == Asked(steps + ([lock] + [last]), last.t)
  {
    assert (steps + [lock])[..|steps|] == steps == (steps + [last])[..|steps|];
    assert steps + ([lock] + [last]) == (steps + [lock]) + [last];
    assert ((steps + [lock]) + [last])[..|steps| + 1] == steps + [lock];
    assert Asked(steps, last.t) + [] == Asked(steps, last.t);
  }
}
