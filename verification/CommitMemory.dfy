/** What a commit or a rollback does to the shared memory (src/picotm_tx.c:355-430, modules/tm/src/module.c). */
module CommitMemory {
  import Engine
  import opened MemoryProgress
  import opened Serializability
  import opened Transaction

  // ---------------------------------------------------------------------------------------------
  // What the memory module does when it is called
  // ---------------------------------------------------------------------------------------------

  /** The walk over the pages. */
  predicate WalkOf(steps: seq<Step>, t: nat, undo: bool) {
    && |steps| >= 2 && steps[0] == BeginWalk(t, undo) && steps[|steps| - 1] == EndWalk(t)
    && forall i :: 0 < i < |steps| - 1 ==> steps[i].WalkPage? && steps[i].t == t
  }

  /** The end of the transaction, in which the locks are released. */
  predicate FinishOf(steps: seq<Step>, t: nat) {
    && |steps| >= 1 && steps[|steps| - 1] == EndFinish(t)
    && forall i :: 0 <= i < |steps| - 1 ==> steps[i].FinishPage? && steps[i].t == t
  }

  /** The steps with which the memory module, number m, of transaction t answers a call of the engine. */
  predicate Serves(call: Call, m: nat, t: nat, steps: seq<Step>) {
    if call == ApplyModule(m) then WalkOf(steps, t, false)
    else if call == UndoModule(m) then WalkOf(steps, t, true)
    else if call == FinishModule(m) then FinishOf(steps, t)
    else steps == []
  }

  function Concat(parts: seq<seq<Step>>): seq<Step> {
    if parts == [] then [] else Concat(parts[..|parts| - 1]) + parts[|parts| - 1]
  }

  ghost predicate ServesAll(made: seq<Call>, m: nat, t: nat, parts: seq<seq<Step>>) {
    |parts| == |made| && forall i :: 0 <= i < |made| ==> Serves(made[i], m, t, parts[i])
  }

  lemma {:induction false} WalkRest(s: State, t: nat, steps: seq<Step>)
    requires t < |s.txs| && s.txs[t].phase.Walking? && steps != [] && steps[|steps| - 1] == EndWalk(t)
    requires forall i :: 0 <= i < |steps| - 1 ==> steps[i].WalkPage? && steps[i].t == t
    requires Run(s, steps).Reached?
    ensures var tx, s' := s.txs[t], Run(s, steps).state;
            && OthersKept(s, s', t) && s'.txs[t] == Tx(Finishing, tx.pages, [], [])
            && s'.history == Recorded(s.history, tx.phase.undo, OpsOf(tx, tx.phase.undo))
    decreases |steps|
  {
    if |steps| > 1 {
      WalkRest(Next(s, steps[0]), t, steps[1..]);
    }
  }

  lemma WalkServed(s: State, t: nat, steps: seq<Step>, undo: bool)
    requires t < |s.txs| && WalkOf(steps, t, undo) && Run(s, steps).Reached?
    ensures var tx, s' := s.txs[t], Run(s, steps).state;
            && OthersKept(s, s', t) && s'.txs[t] == Tx(Finishing, tx.pages, [], [])
            && s'.history == Recorded(s.history, undo, OpsOf(tx, undo))
  {
    WalkRest(Next(s, steps[0]), t, steps[1..]);
  }

  lemma {:induction false} FinishServed(s: State, t: nat, steps: seq<Step>)
    requires t < |s.txs| && FinishOf(steps, t) && Run(s, steps).Reached?
    ensures var s' := Run(s, steps).state;
            && OthersKept(s, s', t) && s'.history == s.history && s'.mem == s.mem
            && s'.txs[t] == s.txs[t].(phase := Running, pages := map[])
    decreases |steps|
  {
    if |steps| > 1 {
      FinishServed(Next(s, steps[0]), t, steps[1..]);
    }
  }

  // ---------------------------------------------------------------------------------------------
  // A commit and a rollback, call by call
  // ---------------------------------------------------------------------------------------------

  /** Where the transaction stands: nothing has happened to it yet, or its walk has ended, or it is finished. */
  ghost predicate Stands(s: State, s': State, t: nat, undo: bool, walked: bool, finished: bool)
    requires t < |s.txs|
  {
    && OthersKept(s, s', t)
    && var tx := s.txs[t];
       && s'.history == (if walked then Recorded(s.history, undo, OpsOf(tx, undo)) else s.history)
       && s'.txs[t] == if finished then Tx(Running, map[], [], [])
                       else if walked then Tx(Finishing, tx.pages, [], []) else tx
  }

  /** One call: the memory module's own walk and its own end count, and all others do nothing. */
  lemma CallServed(s: State, s1: State, t: nat, m: nat, undo: bool, call: Call, steps: seq<Step>, walked: bool,
                   finished: bool)
    requires t < |s.txs| && Stands(s, s1, t, undo, walked, finished) && Serves(call, m, t, steps)
    requires Run(s1, steps).Reached? && (finished ==> walked)
    requires call != if undo then ApplyModule(m) else UndoModule(m)
    requires var walk := if undo then UndoModule(m) else ApplyModule(m);
             (call == walk ==> !walked) && (call == FinishModule(m) ==> walked && !finished)
    ensures var walk := if undo then UndoModule(m) else ApplyModule(m);
            Stands(s, Run(s1, steps).state, t, undo, walked || call == walk, finished || call == FinishModule(m))
  {
    if call == FinishModule(m) {
      FinishServed(s1, t, steps);
    } else if call == ApplyModule(m) || call == UndoModule(m) {
      WalkServed(s1, t, steps, undo);
    }
  }

  /** A part of the calls, of which the k-th is as said. */
  ghost predicate CallsAre(made: seq<Call>, n: nat, irrevocable: bool, log: seq<Event>, undo: bool) {
    forall i :: 0 <= i < |made| ==> made[i] == PlaceOf(i, n, irrevocable, log, undo)
  }

  function WalkAt(n: nat, m: nat, undo: bool): nat {
    if undo then m else n + m
  }

  function FinishAt(n: nat, log: seq<Event>, m: nat, undo: bool): nat {
    (if undo then n else n + n) + |log| + m
  }

  function PlaceOf(i: nat, n: nat, irrevocable: bool, log: seq<Event>, undo: bool): Call {
    if undo then RollbackPlace(i, n, log) else CommitPlace(i, n, irrevocable, log)
  }

  /** The two calls that matter stand in one place each. */
  lemma PlacesOf(i: nat, n: nat, irrevocable: bool, log: seq<Event>, undo: bool, m: nat)
    requires m < n && i < FinishAt(n, log, n, undo)
    ensures var call := PlaceOf(i, n, irrevocable, log, undo);
            && (call == (if undo then UndoModule(m) else ApplyModule(m)) <==> i == WalkAt(n, m, undo))
            && (call == FinishModule(m) <==> i == FinishAt(n, log, m, undo))
            && call != if undo then ApplyModule(m) else UndoModule(m)
  {
  }

  /** How the transaction stands after the first k calls. */
  ghost predicate StandsAfter(s: State, s': State, t: nat, m: nat, undo: bool, n: nat, log: seq<Event>, k: nat)
    requires t < |s.txs|
  {
    Stands(s, s', t, undo, WalkAt(n, m, undo) < k, FinishAt(n, log, m, undo) < k)
  }

  lemma NextServed(s: State, s1: State, t: nat, m: nat, undo: bool, n: nat, irrevocable: bool, log: seq<Event>, k: nat,
                   steps: seq<Step>)
    requires t < |s.txs| && m < n && k < FinishAt(n, log, n, undo) && StandsAfter(s, s1, t, m, undo, n, log, k)
    requires Serves(PlaceOf(k, n, irrevocable, log, undo), m, t, steps) && Run(s1, steps).Reached?
    ensures StandsAfter(s, Run(s1, steps).state, t, m, undo, n, log, k + 1)
  {
    PlacesOf(k, n, irrevocable, log, undo, m);
    CallServed(s, s1, t, m, undo, PlaceOf(k, n, irrevocable, log, undo), steps, WalkAt(n, m, undo) < k,
               FinishAt(n, log, m, undo) < k);
  }

  lemma {:induction false} CallsServed(s: State, t: nat, m: nat, undo: bool, n: nat, irrevocable: bool, log: seq<Event>,
                                       made: seq<Call>, parts: seq<seq<Step>>)
    requires t < |s.txs| && m < n && CallsAre(made, n, irrevocable, log, undo) && ServesAll(made, m, t, parts)
    requires Run(s, Concat(parts)).Reached? && |made| <= FinishAt(n, log, n, undo)
    ensures StandsAfter(s, Run(s, Concat(parts)).state, t, m, undo, n, log, |made|)
    decreases |made|
  {
    if made != [] {
      var most, last := parts[..|parts| - 1], parts[|parts| - 1];
      RunFirst(s, Concat(most), last);
      CallsServed(s, t, m, undo, n, irrevocable, log, made[..|made| - 1], most);
      NextServed(s, Run(s, Concat(most)).state, t, m, undo, n, irrevocable, log, |made| - 1, last);
    }
  }

  lemma {:induction false} RunFirst(s: State, first: seq<Step>, rest: seq<Step>)
    requires Run(s, first + rest).Reached?
    ensures Run(s, first).Reached? && Run(s, first + rest) == Run(Run(s, first).state, rest)
    decreases |first|
  {
    if first == [] {
      assert first + rest == rest;
    } else {
      assert (first + rest)[1..] == first[1..] + rest;
      RunFirst(Next(s, first[0]), first[1..], rest);
    }
  }

  /** If the calls that a commit makes, all of them, are served by the memory module, which is one of n, then the
      transaction counts in the history of the shared memory with exactly what it has loaded and stored, and
      holds no lock any more. */
  lemma CommitReachesMemory(before: seq<Call>, after: seq<Call>, n: nat, irrevocable: bool, log: seq<Event>, m: nat,
                            s: State, t: nat, parts: seq<seq<Step>>)
    requires CommitTrace(before, after, n, irrevocable, log, true) && m < n && t < |s.txs|
    requires ServesAll(after[|before|..|after| - 1], m, t, parts) && Run(s, Concat(parts)).Reached?
    ensures var s' := Run(s, Concat(parts)).state;
            && OthersKept(s, s', t) && s'.txs[t] == Tx(Running, map[], [], [])
            && s'.history == s.history + [Ended(false, s.txs[t].log)]
  {
    CallsServed(s, t, m, false, n, irrevocable, log, after[|before|..|after| - 1], parts);
  }

  /** If those of a rollback are, then it counts with nothing but what it leaves behind. */
  lemma RollbackReachesMemory(before: seq<Call>, after: seq<Call>, n: nat, log: seq<Event>, m: nat, s: State, t: nat,
                              parts: seq<seq<Step>>)
    requires RollbackTrace(before, after, n, log, true) && m < n && t < |s.txs|
    requires ServesAll(after[|before|..], m, t, parts) && Run(s, Concat(parts)).Reached?
    ensures var s' := Run(s, Concat(parts)).state;
            && OthersKept(s, s', t) && s'.txs[t] == Tx(Running, map[], [], [])
            && s'.history == Recorded(s.history, true, s.txs[t].left)
  {
    CallsServed(s, t, m, true, n, false, log, after[|before|..], parts);
  }
}
