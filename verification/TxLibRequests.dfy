/** What a schedule asks of transactions on shared structures (modules/txlib/src), and that a commit is just that. */
module TxLibRequests {
  import opened TxLib
  import opened TxLibViews
  import opened TxLibRuns

  datatype Request = OpReq(op: Op) | LookReq(x: Name)

  /** The walk over the log that a transaction has begun and not ended. */
  datatype Pending = NoWalk | Applies | Undoes

  datatype Lock = Free | Reader | Writer

  // ---------------------------------------------------------------------------------------------
  // What a schedule asks for: these functions look at the list of steps only
  // ---------------------------------------------------------------------------------------------

  /** What has been asked of the transaction since its last walk ended. */
  function Asked(steps: seq<Step>, t: nat): seq<Request> {
    if steps == [] then []
    else
      var most, last := steps[..|steps| - 1], steps[|steps| - 1];
      if last.t != t then Asked(most, t)
      else match last
        case Execute(_, op) => Asked(most, t) + [OpReq(op)]
        case Look(_, x) => Asked(most, t) + [LookReq(x)]
        case EndApply(_) => []
        case EndUndo(_) => []
        case _ => Asked(most, t)
  }

  function PendingWalk(steps: seq<Step>, t: nat): Pending {
    if steps == [] then NoWalk
    else
      var most, last := steps[..|steps| - 1], steps[|steps| - 1];
      if last.t != t then PendingWalk(most, t)
      else match last
        case BeginApply(_) => Applies
        case BeginUndo(_) => Undoes
        case EndApply(_) => NoWalk
        case EndUndo(_) => NoWalk
        case _ => PendingWalk(most, t)
  }

  /** The requests of each transaction that began and ended an apply walk, in the order in which these ended. */
  function Committed(steps: seq<Step>): seq<seq<Request>> {
    if steps == [] then []
    else
      var most, last := steps[..|steps| - 1], steps[|steps| - 1];
      if last.EndApply? && PendingWalk(most, last.t).Applies? then Committed(most) + [Asked(most, last.t)]
      else Committed(most)
  }

  /** The lock that a transaction has for a structure. */
  function LockOf(steps: seq<Step>, t: nat, x: Name): Lock {
    if steps == [] then Free
    else
      var before, last := LockOf(steps[..|steps| - 1], t, x), steps[|steps| - 1];
      match last
      case LockForRead(u, y) => if u == t && y == x && before.Free? then Reader else before
      case LockForWrite(u, y) => if u == t && y == x then Writer else before
      case Unlock(u, y) => if u == t && y == x then Free else before
      case _ => before
  }

  /** What a request gives: the entry that is popped, if any, or what is in a structure. */
  datatype Given = Popped(entries: seq<nat>) | Shown(contents: Contents)

  /** One request, directly on the shared structures. */
  function Perform1(lib: Lib, r: Request): Outcome {
    match r
    case OpReq(op) => if Legal(lib, op) then Holds(Direct(lib, op)) else Wrong
    case LookReq(x) => if Named(lib, x) then Holds(lib) else Wrong
  }

  function Give1(lib: Lib, r: Request): Given
    requires Perform1(lib, r).Holds?
  {
    match r
    case OpReq(op) => Popped(DirectGot(lib, op))
    case LookReq(x) => Shown(ContentsOf(lib, x))
  }

  /** One transaction, alone. */
  function PerformAll(lib: Lib, rs: seq<Request>): Outcome {
    if rs == [] then Holds(lib)
    else
      var before := PerformAll(lib, rs[..|rs| - 1]);
      if before.Wrong? then Wrong else Perform1(before.lib, rs[|rs| - 1])
  }

  function Give(lib: Lib, rs: seq<Request>): seq<Given> {
    if rs == [] then []
    else
      var most, last := rs[..|rs| - 1], rs[|rs| - 1];
      var before := PerformAll(lib, most);
      Give(lib, most) + if before.Holds? && Perform1(before.lib, last).Holds? then [Give1(before.lib, last)] else []
  }

  /** Whole transactions, one after the other. */
  function PerformEach(lib: Lib, txs: seq<seq<Request>>): Outcome {
    if txs == [] then Holds(lib)
    else
      var before := PerformEach(lib, txs[..|txs| - 1]);
      if before.Wrong? then Wrong else PerformAll(before.lib, txs[|txs| - 1])
  }

  // ---------------------------------------------------------------------------------------------
  // What the machine records
  // ---------------------------------------------------------------------------------------------

  predicate Answers(d: Done, r: Request) {
    match r
    case OpReq(op) => d.Did? && d.op == op
    case LookReq(x) => d.Saw? && d.x == x
  }

  predicate Follows(log: seq<Done>, rs: seq<Request>) {
    |log| == |rs| && forall i :: 0 <= i < |rs| ==> Answers(log[i], rs[i])
  }

  ghost predicate FollowEach(history: seq<seq<Done>>, txs: seq<seq<Request>>) {
    |history| == |txs| && forall i :: 0 <= i < |txs| ==> Follows(history[i], txs[i])
  }

  function LockIn(tx: Tx, x: Name): Lock {
    if x in tx.written then Writer else if x in tx.locked then Reader else Free
  }

  function WalkIn(phase: Phase): Pending {
    match phase
    case Applying(_) => Applies
    case Undoing(_) => Undoes
    case _ => NoWalk
  }

  ghost predicate TxRecorded(tx: Tx, steps: seq<Step>, t: nat) {
    && Follows(tx.log, Asked(steps, t)) && PendingWalk(steps, t) == WalkIn(tx.phase)
    && tx.written <= tx.locked
    && (tx.phase.Applying? ==> tx.phase.done <= |tx.log|) && (tx.phase.Undoing? ==> tx.phase.left <= |tx.log|)
    && forall x: Name :: LockIn(tx, x) == LockOf(steps, t, x)
  }

  ghost predicate RecordsAsked(s: State, steps: seq<Step>) {
    && (forall t :: 0 <= t < |s.txs| ==> TxRecorded(s.txs[t], steps, t) && SameShape(s.shared, s.txs[t].local))
    && FollowEach(s.history, Committed(steps))
  }

  // ---------------------------------------------------------------------------------------------
  // Every step records what was asked
  // ---------------------------------------------------------------------------------------------

  /** How a step changes the locks of its transaction. */
  lemma LockMoves(s: State, step: Step, x: Name)
    requires Enabled(s, step) && s.txs[step.t].written <= s.txs[step.t].locked
    ensures var before, after := LockIn(s.txs[step.t], x), LockIn(NextTx(s, step), x);
            if step.LockForRead? && step.x == x then after == if before.Free? then Reader else before
            else if step.LockForWrite? && step.x == x then after == Writer
            else if step.Unlock? && step.x == x then after == Free
            else after == before
  {
  }

  lemma OwnLog(s: State, steps: seq<Step>, step: Step)
    requires Enabled(s, step) && Follows(s.txs[step.t].log, Asked(steps, step.t))
    ensures Follows(NextTx(s, step).log, Asked(steps + [step], step.t))
  {
    assert (steps + [step])[..|steps|] == steps;
  }

  lemma OwnRecords(s: State, steps: seq<Step>, step: Step)
    requires Enabled(s, step) && TxRecorded(s.txs[step.t], steps, step.t)
    ensures TxRecorded(NextTx(s, step).(local := NextSeen(s, step)), steps + [step], step.t)
  {
    assert (steps + [step])[..|steps|] == steps;
    OwnLog(s, steps, step);
    forall x: Name ensures LockIn(NextTx(s, step), x) == LockOf(steps + [step], step.t, x) {
      assert LockIn(s.txs[step.t], x) == LockOf(steps, step.t, x);
      LockMoves(s, step, x);
    }
  }

  lemma OthersRecord(s: State, steps: seq<Step>, step: Step, u: nat)
    requires Enabled(s, step) && u < |s.txs| && u != step.t && TxRecorded(s.txs[u], steps, u)
    ensures TxRecorded(s.txs[u], steps + [step], u)
  {
    assert (steps + [step])[..|steps|] == steps;
    forall x: Name ensures LockIn(s.txs[u], x) == LockOf(steps + [step], u, x) {
      assert LockIn(s.txs[u], x) == LockOf(steps, u, x);
    }
  }

  lemma SeenShape(s: State, step: Step)
    requires Enabled(s, step)
    ensures SameShape(NextSeen(s, step), s.shared)
  {
  }

  lemma HistoryFollows(s: State, steps: seq<Step>, step: Step)
    requires Enabled(s, step) && RecordsAsked(s, steps)
    ensures FollowEach(Next(s, step).history, Committed(steps + [step]))
  {
    assert (steps + [step])[..|steps|] == steps;
    assert TxRecorded(s.txs[step.t], steps, step.t);
  }

  lemma StepRecords(s: State, steps: seq<Step>, step: Step)
    requires Enabled(s, step) && RecordsAsked(s, steps)
    ensures RecordsAsked(Next(s, step), steps + [step])
  {
    OwnRecords(s, steps, step);
    SeenShape(s, step);
    forall u | 0 <= u < |s.txs| && u != step.t ensures TxRecorded(s.txs[u], steps + [step], u) {
      OthersRecord(s, steps, step, u);
    }
    HistoryFollows(s, steps, step);
  }

  lemma {:induction false} RunLast(s: State, steps: seq<Step>)
    requires steps != [] && RunAll(s, steps).Reached?
    ensures var most, last := RunAll(s, steps[..|steps| - 1]), steps[|steps| - 1];
            most.Reached? && Enabled(most.state, last) && RunAll(s, steps) == Reached(Next(most.state, last))
    decreases |steps|
  {
    if |steps| > 1 {
      var rest := steps[1..];
      RunLast(Next(s, steps[0]), rest);
      assert steps[..|steps| - 1][1..] == rest[..|rest| - 1];
    }
  }

  lemma {:induction false} RunRecords(s0: State, init: Lib, steps: seq<Step>)
    requires Init(s0, init) && RunAll(s0, steps).Reached?
    ensures RecordsAsked(RunAll(s0, steps).state, steps)
    decreases |steps|
  {
    if steps != [] {
      var most, last := steps[..|steps| - 1], steps[|steps| - 1];
      assert steps == most + [last];
      RunLast(s0, steps);
      RunRecords(s0, init, most);
      StepRecords(RunAll(s0, most).state, most, last);
    }
  }

  // ---------------------------------------------------------------------------------------------
  // Main theorems
  // ---------------------------------------------------------------------------------------------

  /** After any schedule, the log of a transaction is what has been asked of it since its last walk ended, it holds the
      locks that it took and has not given back, and the history holds the logs of exactly those transactions that
      were asked to commit, in the order in which their apply walks ended. */
  lemma LogsAreAsked(s0: State, init: Lib, steps: seq<Step>, t: nat)
    requires Init(s0, init) && RunAll(s0, steps).Reached? && t < |RunAll(s0, steps).state.txs|
    ensures var s := RunAll(s0, steps).state;
            && Follows(s.txs[t].log, Asked(steps, t)) && FollowEach(s.history, Committed(steps))
            && (forall x: Name :: LockIn(s.txs[t], x) == LockOf(steps, t, x))
            && PendingWalk(steps, t) == WalkIn(s.txs[t].phase)
  {
    RunRecords(s0, init, steps);
    assert TxRecorded(RunAll(s0, steps).state.txs[t], steps, t);
  }

  function GivenBy(log: seq<Done>): seq<Given> {
    if log == [] then []
    else
      var last := log[|log| - 1];
      GivenBy(log[..|log| - 1]) + [if last.Did? then Popped(Got(last.event)) else Shown(last.contents)]
  }

  lemma {:induction false} ReplayIsDirect(lib: Lib, log: seq<Done>, rs: seq<Request>)
    requires DirectReplay(lib, log).Holds? && Follows(log, rs)
    ensures PerformAll(lib, rs) == DirectReplay(lib, log) && GivenBy(log) == Give(lib, rs)
  {
    if rs != [] {
      var most, last := log[..|log| - 1], log[|log| - 1];
      ReplayIsDirect(lib, most, rs[..|rs| - 1]);
      assert Answers(last, rs[|rs| - 1]);
    }
  }

  ghost predicate GivesAlone(before: Outcome, log: seq<Done>, rs: seq<Request>) {
    before.Holds? && GivenBy(log) == Give(before.lib, rs)
  }

  /** What each committed transaction was given is what its requests give, performed alone after those before it. */
  ghost predicate GivesDirect(lib: Lib, history: seq<seq<Done>>, txs: seq<seq<Request>>) {
    && |history| == |txs|
    && forall i :: 0 <= i < |txs| ==> GivesAlone(PerformEach(lib, txs[..i]), history[i], txs[i])
  }

  lemma GivesDirectLast(lib: Lib, history: seq<seq<Done>>, txs: seq<seq<Request>>, log: seq<Done>, rs: seq<Request>)
    requires GivesDirect(lib, history, txs) && GivesAlone(PerformEach(lib, txs), log, rs)
    ensures GivesDirect(lib, history + [log], txs + [rs])
  {
    forall i | 0 <= i <= |txs|
      ensures GivesAlone(PerformEach(lib, (txs + [rs])[..i]), (history + [log])[i], (txs + [rs])[i])
    {
      assert (txs + [rs])[..i] == txs[..i];
      if i == |txs| {
        assert txs[..i] == txs;
      }
    }
  }

  lemma {:induction false} SerialRunIsDirect(lib: Lib, history: seq<seq<Done>>, txs: seq<seq<Request>>)
    requires SerialRun(lib, history).Holds? && FollowEach(history, txs)
    ensures PerformEach(lib, txs) == SerialRun(lib, history) && GivesDirect(lib, history, txs)
  {
    if history != [] {
      var most, mine := history[..|history| - 1], txs[..|txs| - 1];
      SerialRunIsDirect(lib, most, mine);
      ReplayIsDirect(SerialRun(lib, most).lib, history[|history| - 1], txs[|txs| - 1]);
      GivesDirectLast(lib, most, mine, history[|history| - 1], txs[|txs| - 1]);
      assert most + [history[|history| - 1]] == history && mine + [txs[|txs| - 1]] == txs;
    }
  }

  /** Nobody has a writer lock. */
  ghost predicate Settled(steps: seq<Step>, n: nat, x: Name) {
    forall t :: 0 <= t < n ==> !LockOf(steps, t, x).Writer?
  }

  /** What the schedule asks for decides everything: the shared structures are what the committed requests make of them
      when they are performed directly, alone, one transaction after the other, in the order in which their
      apply walks ended, and each request gave what it gives in that serial run; so did the requests of a transaction
      that is still running, performed after these. */
  lemma RequestsDecide(s0: State, init: Lib, steps: seq<Step>)
    requires Init(s0, init) && RunAll(s0, steps).Reached?
    ensures var s, serial := RunAll(s0, steps).state, PerformEach(init, Committed(steps));
            && serial.Holds? && SameShape(s.shared, serial.lib) && GivesDirect(init, s.history, Committed(steps))
            && (forall x: Name :: Settled(steps, |s.txs|, x) ==> SharedSame(s.shared, serial.lib, x))
            && (forall t :: 0 <= t < |s.txs| && s.txs[t].phase.Running? ==>
                 GivenBy(s.txs[t].log) == Give(serial.lib, Asked(steps, t)))
  {
    var s := RunAll(s0, steps).state;
    RunRecords(s0, init, steps);
    Serializable(s0, init, steps, QueueName(0));
    SerialRunIsDirect(init, s.history, Committed(steps));
    var serial := SerialRun(init, s.history).lib;
    forall x: Name | Settled(steps, |s.txs|, x) ensures SharedSame(s.shared, serial, x) {
      SettledUnwritten(s, steps, x);
      Serializable(s0, init, steps, x);
    }
    forall t | 0 <= t < |s.txs| && s.txs[t].phase.Running?
      ensures GivenBy(s.txs[t].log) == Give(serial, Asked(steps, t))
    {
      RunningSeesCommittedOnly(s0, init, steps, t);
      assert (s.history + [s.txs[t].log])[..|s.history|] == s.history;
      assert TxRecorded(s.txs[t], steps, t);
      ReplayIsDirect(serial, s.txs[t].log, Asked(steps, t));
    }
  }

  lemma SettledUnwritten(s: State, steps: seq<Step>, x: Name)
    requires RecordsAsked(s, steps) && Settled(steps, |s.txs|, x)
    ensures Unwritten(s.txs, x)
  {
    forall t | 0 <= t < |s.txs| ensures x !in s.txs[t].written {
      assert TxRecorded(s.txs[t], steps, t);
      assert LockIn(s.txs[t], x) == LockOf(steps, t, x);
    }
  }
}
