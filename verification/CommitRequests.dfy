/** What a schedule asks of transactions on shared memory (modules/tm/src/vmem_tx.c), and that a commit is just that. */
module CommitRequests {
  import opened Common
  import opened Pages
  import opened Serializability

  datatype Request =
    | LoadReq(block: nat, off: nat, n: nat)
    | StoreReq(block: nat, off: nat, data: seq<Byte>)
    | TurnReq(block: nat)

  /** The walk that a transaction has begun and not ended. */
  datatype Pending = NoWalk | Walks(undo: bool)

  /** How a page stands. */
  datatype Mark = NoPage | Marked(status: LockStatus, writeThrough: bool, discarded: bool)

  // ---------------------------------------------------------------------------------------------
  // What a schedule asks for: these functions look at the list of steps only
  // ---------------------------------------------------------------------------------------------

  function RequestsOf(step: Step): seq<Request> {
    match step
    case Load(_, b, off, n) => [LoadReq(b, off, n)]
    case Store(_, b, off, data) => [StoreReq(b, off, data)]
    case PrivatizeBlock(_, b, _, _) => [TurnReq(b)]
    case DiscardBlock(_, b) => [TurnReq(b)]
    case _ => []
  }

  /** What has been asked of the transaction since its last walk ended. */
  function Asked(steps: seq<Step>, t: nat): seq<Request> {
    if steps == [] then []
    else
      var most, last := steps[..|steps| - 1], steps[|steps| - 1];
      if last.t != t then Asked(most, t) else if last.EndWalk? then [] else Asked(most, t) + RequestsOf(last)
  }

  function PendingWalk(steps: seq<Step>, t: nat): Pending {
    if steps == [] then NoWalk
    else
      var most, last := steps[..|steps| - 1], steps[|steps| - 1];
      if last.t != t then PendingWalk(most, t)
      else match last
        case BeginWalk(_, undo) => Walks(undo)
        case EndWalk(_) => NoWalk
        case _ => PendingWalk(most, t)
  }

  /** The requests of each transaction that began and ended the walk of a commit, in the order in which these ended. */
  function Committed(steps: seq<Step>): seq<seq<Request>> {
    if steps == [] then []
    else
      var most, last := steps[..|steps| - 1], steps[|steps| - 1];
      if last.EndWalk? && PendingWalk(most, last.t) == Walks(false) then Committed(most) + [Asked(most, last.t)]
      else Committed(most)
  }

  /** The page that the transaction has for the block. */
  function MarkOf(steps: seq<Step>, t: nat, b: nat): Mark {
    if steps == [] then NoPage
    else
      var before, last := MarkOf(steps[..|steps| - 1], t, b), steps[|steps| - 1];
      match last
      case LockForRead(u, d) => if u == t && d == b then Marked(RdLocked, false, false) else before
      case LockForWrite(u, d) =>
        if u != t || d != b then before
        else if before.NoPage? then Marked(WrLocked, false, false) else before.(status := WrLocked)
      case PrivatizeBlock(u, d, _, _) =>
        if u == t && d == b && before.Marked? then before.(writeThrough := true) else before
      case DiscardBlock(u, d) => if u == t && d == b && before.Marked? then before.(discarded := true) else before
      case FinishPage(u, d) => if u == t && d == b then NoPage else before
      case _ => before
  }

  /** One request on plain memory, loads and changes of a page's mode aside. */
  function Perform1(m: Memory, r: Request): Memory {
    if r.StoreReq? && r.block < |m| && r.off + |r.data| <= BLOCK_SIZE then
      m[r.block := Splice(m[r.block], r.off, r.data)]
    else m
  }

  function PerformAll(m: Memory, rs: seq<Request>): Memory {
    if rs == [] then m else Perform1(PerformAll(m, rs[..|rs| - 1]), rs[|rs| - 1])
  }

  /** Whole transactions, one after the other. */
  function PerformEach(m: Memory, txs: seq<seq<Request>>): Memory {
    if txs == [] then m else PerformAll(PerformEach(m, txs[..|txs| - 1]), txs[|txs| - 1])
  }

  // ---------------------------------------------------------------------------------------------
  // What the machine records
  // ---------------------------------------------------------------------------------------------

  predicate Answers(op: Op, r: Request) {
    match r
    case LoadReq(b, off, n) => op.LoadOp? && op.block == b && op.off == off && |op.data| == n
    case StoreReq(b, off, data) => op == StoreOp(b, off, data)
    case TurnReq(b) => op.StoreOp? && op.block == b && op.off == 0 && |op.data| == BLOCK_SIZE
  }

  /** Each request stands in the log, in its place. Only privatizing and discarding a block need not be there: with
      care they never are, and otherwise they may stand there as a store of the whole block. */
  predicate Follows(log: seq<Op>, rs: seq<Request>, careful: bool)
    decreases |rs|
  {
    if rs == [] then log == []
    else
      var most, last := rs[..|rs| - 1], rs[|rs| - 1];
      || (last.TurnReq? && Follows(log, most, careful))
      || (log != [] && Answers(log[|log| - 1], last) && !(careful && last.TurnReq?)
          && Follows(log[..|log| - 1], most, careful))
  }

  /** The logs of the commits. */
  function Commits(history: seq<Ended>): seq<seq<Op>> {
    if history == [] then []
    else
      var most, last := history[..|history| - 1], history[|history| - 1];
      Commits(most) + if last.undo then [] else [last.ops]
  }

  ghost predicate FollowEach(logs: seq<seq<Op>>, txs: seq<seq<Request>>, careful: bool) {
    |logs| == |txs| && forall i :: 0 <= i < |txs| ==> Follows(logs[i], txs[i], careful)
  }

  function MarkIn(tx: Tx, b: nat): Mark {
    if b in tx.pages then Marked(tx.pages[b].status, tx.pages[b].writeThrough, tx.pages[b].discarded) else NoPage
  }

  ghost predicate TxRecorded(s: State, tx: Tx, steps: seq<Step>, t: nat, careful: bool) {
    && Follows(tx.log, Asked(steps, t), careful)
    && PendingWalk(steps, t) == (if tx.phase.Walking? then Walks(tx.phase.undo) else NoWalk)
    && (tx.phase.Walking? ==> tx.phase.todo <= tx.pages.Keys)
    && (forall b :: b in tx.pages ==> b < |s.mem|)
    && forall b: nat :: MarkIn(tx, b) == MarkOf(steps, t, b)
  }

  ghost predicate RecordsAsked(s: State, steps: seq<Step>, careful: bool) {
    && (forall t :: 0 <= t < |s.txs| ==> TxRecorded(s, s.txs[t], steps, t, careful))
    && FollowEach(Commits(s.history), Committed(steps), careful)
  }

  // ---------------------------------------------------------------------------------------------
  // Every step records what was asked
  // ---------------------------------------------------------------------------------------------

  lemma FollowsOne(log: seq<Op>, rs: seq<Request>, op: Op, r: Request, careful: bool)
    requires Follows(log, rs, careful) && Answers(op, r) && !(careful && r.TurnReq?)
    ensures Follows(log + [op], rs + [r], careful)
  {
    assert (log + [op])[..|log|] == log && (rs + [r])[..|rs|] == rs;
  }

  lemma FollowsTurn(log: seq<Op>, rs: seq<Request>, b: nat, before: Word, after: Word, careful: bool)
    requires Follows(log, rs, careful) && (careful ==> before == after)
    ensures Follows(Noted(log, b, before, after), rs + [TurnReq(b)], careful)
  {
    if before == after {
      assert (rs + [TurnReq(b)])[..|rs|] == rs;
    } else {
      FollowsOne(log, rs, StoreOp(b, 0, after), TurnReq(b), careful);
    }
  }

  /** Privatizing or discarding does not count as a store. */
  predicate Quiet(s: State, step: Step)
    requires Enabled(s, step)
  {
    step.PrivatizeBlock? || step.DiscardBlock? ==> NextTx(s, step).log == s.txs[step.t].log
  }

  /** Privatizing or discarding a block: the log follows. */
  lemma TurnFollows(s: State, rs: seq<Request>, step: Step, careful: bool)
    requires Enabled(s, step) && (step.PrivatizeBlock? || step.DiscardBlock?)
    requires Follows(s.txs[step.t].log, rs, careful) && (careful ==> Quiet(s, step))
    ensures Follows(NextTx(s, step).log, rs + [TurnReq(step.b)], careful)
  {
    var b, tx, w := step.b, s.txs[step.t], s.mem[step.b];
    var p := tx.pages[b];
    var q := if step.PrivatizeBlock? then Privatize(p, step.off, step.n, w) else Discard(p);
    FollowsTurn(tx.log, rs, b, View(p, w), View(q, w), careful);
  }

  lemma LogFollows(s: State, steps: seq<Step>, step: Step, careful: bool)
    requires Enabled(s, step) && Follows(s.txs[step.t].log, Asked(steps, step.t), careful)
    requires careful ==> Quiet(s, step)
    ensures Follows(NextTx(s, step).log, Asked(steps + [step], step.t), careful)
  {
    assert (steps + [step])[..|steps|] == steps;
    var tx, rs := s.txs[step.t], Asked(steps, step.t);
    assert rs + [] == rs;
    if step.Load? {
      var data := LoadChunk(tx.pages[step.b], step.off, step.n, s.mem[step.b]).1;
      FollowsOne(tx.log, rs, LoadOp(step.b, step.off, data), LoadReq(step.b, step.off, step.n), careful);
    } else if step.Store? {
      FollowsOne(tx.log, rs, StoreOp(step.b, step.off, step.data), StoreReq(step.b, step.off, step.data), careful);
    } else if step.PrivatizeBlock? || step.DiscardBlock? {
      TurnFollows(s, rs, step, careful);
    }
  }

  /** The step's own transaction: phase, pages and log. */
  lemma OwnRecords(s: State, steps: seq<Step>, step: Step, careful: bool)
    requires Enabled(s, step) && TxRecorded(s, s.txs[step.t], steps, step.t, careful)
    requires careful ==> Quiet(s, step)
    ensures TxRecorded(Next(s, step), NextTx(s, step), steps + [step], step.t, careful)
  {
    assert (steps + [step])[..|steps|] == steps;
    var tx, tx' := s.txs[step.t], NextTx(s, step);
    LogFollows(s, steps, step, careful);
    forall b: nat ensures MarkIn(tx', b) == MarkOf(steps + [step], step.t, b) {
      assert MarkIn(tx, b) == MarkOf(steps, step.t, b);
      MarkMoves(s, step, b);
    }
  }

  /** How a step changes the marks of its transaction's pages. */
  lemma MarkMoves(s: State, step: Step, b: nat)
    requires Enabled(s, step)
    ensures var before, after := MarkIn(s.txs[step.t], b), MarkIn(NextTx(s, step), b);
            if step.LockForRead? && step.b == b then after == Marked(RdLocked, false, false)
            else if step.LockForWrite? && step.b == b then
              after == if before.NoPage? then Marked(WrLocked, false, false) else before.(status := WrLocked)
            else if step.PrivatizeBlock? && step.b == b then before.Marked? && after == before.(writeThrough := true)
            else if step.DiscardBlock? && step.b == b then before.Marked? && after == before.(discarded := true)
            else if step.FinishPage? && step.b == b then after.NoPage?
            else after == before
  {
    match step
    case Load(_, d, off, n) =>
      assert MarkIn(NextTx(s, step), b) == MarkIn(s.txs[step.t], b);
    case Store(_, d, off, data) =>
      assert MarkIn(NextTx(s, step), b) == MarkIn(s.txs[step.t], b);
    case _ =>
  }

  lemma OthersRecord(s: State, steps: seq<Step>, step: Step, u: nat, careful: bool)
    requires Enabled(s, step) && u < |s.txs| && u != step.t && TxRecorded(s, s.txs[u], steps, u, careful)
    ensures TxRecorded(Next(s, step), s.txs[u], steps + [step], u, careful)
  {
    assert (steps + [step])[..|steps|] == steps;
    forall b: nat ensures MarkIn(s.txs[u], b) == MarkOf(steps + [step], u, b) {
      assert MarkIn(s.txs[u], b) == MarkOf(steps, u, b);
    }
  }

  lemma HistoryFollows(s: State, steps: seq<Step>, step: Step, careful: bool)
    requires Enabled(s, step) && RecordsAsked(s, steps, careful)
    ensures FollowEach(Commits(Next(s, step).history), Committed(steps + [step]), careful)
  {
    assert (steps + [step])[..|steps|] == steps;
    if step.EndWalk? {
      var tx := s.txs[step.t];
      assert TxRecorded(s, tx, steps, step.t, careful);
      var ended := Ended(tx.phase.undo, OpsOf(tx, tx.phase.undo));
      assert (s.history + [ended])[..|s.history|] == s.history;
    }
  }

  lemma StepRecords(s: State, steps: seq<Step>, step: Step, careful: bool)
    requires Enabled(s, step) && RecordsAsked(s, steps, careful) && (careful ==> Quiet(s, step))
    ensures RecordsAsked(Next(s, step), steps + [step], careful)
  {
    OwnRecords(s, steps, step, careful);
    forall u | 0 <= u < |s.txs| && u != step.t
      ensures TxRecorded(Next(s, step), s.txs[u], steps + [step], u, careful)
    {
      OthersRecord(s, steps, step, u, careful);
    }
    HistoryFollows(s, steps, step, careful);
  }

  lemma {:induction false} RunLast(s: State, steps: seq<Step>)
    requires steps != [] && Run(s, steps).Reached?
    ensures var most, last := Run(s, steps[..|steps| - 1]), steps[|steps| - 1];
            most.Reached? && Enabled(most.state, last) && Run(s, steps) == Reached(Next(most.state, last))
    ensures CarefulRun(s, steps) ==>
              CarefulRun(s, steps[..|steps| - 1])
              && !Careless(Run(s, steps[..|steps| - 1]).state, steps[|steps| - 1])
    decreases |steps|
  {
    if |steps| > 1 {
      var rest := steps[1..];
      RunLast(Next(s, steps[0]), rest);
      assert steps[..|steps| - 1][1..] == rest[..|rest| - 1];
    }
  }

  lemma {:induction false} RunRecords(s0: State, init: Memory, steps: seq<Step>, careful: bool)
    requires Init(s0, init) && Run(s0, steps).Reached? && (careful ==> CarefulRun(s0, steps))
    ensures RecordsAsked(Run(s0, steps).state, steps, careful)
    decreases |steps|
  {
    if steps != [] {
      var most, last := steps[..|steps| - 1], steps[|steps| - 1];
      assert steps == most + [last];
      RunLast(s0, steps);
      RunRecords(s0, init, most, careful);
      ReachableInv(s0, init, most);
      var s := Run(s0, most).state;
      if last.PrivatizeBlock? || last.DiscardBlock? {
        CarelessIff(init, s, last);
      }
      StepRecords(s, most, last, careful);
    }
  }

  // ---------------------------------------------------------------------------------------------
  // Main theorems: what a commit amounts to
  // ---------------------------------------------------------------------------------------------

  /** After any schedule, the log of a transaction is what has been asked of it since its last walk ended, its pages
      stand as asked for, and the history holds the logs of exactly those transactions that were asked to commit, in
      the order in which their walks ended. */
  lemma LogsAreAsked(s0: State, init: Memory, steps: seq<Step>, t: nat)
    requires Init(s0, init) && Run(s0, steps).Reached? && t < |Run(s0, steps).state.txs|
    ensures var s := Run(s0, steps).state;
            && Follows(s.txs[t].log, Asked(steps, t), false)
            && (CarefulRun(s0, steps) ==> Follows(s.txs[t].log, Asked(steps, t), true))
            && FollowEach(Commits(s.history), Committed(steps), false)
            && (forall b: nat :: MarkIn(s.txs[t], b) == MarkOf(steps, t, b))
            && PendingWalk(steps, t) == (if s.txs[t].phase.Walking? then Walks(s.txs[t].phase.undo) else NoWalk)
  {
    RunRecords(s0, init, steps, false);
    assert TxRecorded(Run(s0, steps).state, Run(s0, steps).state.txs[t], steps, t, false);
    if CarefulRun(s0, steps) {
      RunRecords(s0, init, steps, true);
      assert TxRecorded(Run(s0, steps).state, Run(s0, steps).state.txs[t], steps, t, true);
    }
  }

  lemma {:induction false} RunPrefix(s: State, steps: seq<Step>, k: nat)
    requires Run(s, steps).Reached? && k <= |steps|
    ensures Run(s, steps[..k]).Reached?
    ensures k < |steps| ==> Enabled(Run(s, steps[..k]).state, steps[k])
                            && Run(s, steps[..k + 1]) == Reached(Next(Run(s, steps[..k]).state, steps[k]))
    decreases |steps|
  {
    if k == |steps| {
      assert steps[..k] == steps;
    } else {
      var most := steps[..|steps| - 1];
      RunLast(s, steps);
      RunPrefix(s, most, k);
      assert most[..k] == steps[..k];
      if k < |most| {
        assert most[..k + 1] == steps[..k + 1];
      } else {
        assert steps[..k + 1] == steps;
      }
    }
  }

  /** The transaction walks, with these records. */
  predicate WalksWith(s: State, t: nat, undo: bool, log: seq<Op>, left: seq<Op>) {
    && t < |s.txs| && s.txs[t].phase.Walking? && s.txs[t].phase.undo == undo
    && s.txs[t].log == log && s.txs[t].left == left
  }

  lemma WalkingKept(s: State, step: Step, t: nat, undo: bool, log: seq<Op>, left: seq<Op>)
    requires Enabled(s, step) && WalksWith(s, t, undo, log, left) && step != EndWalk(t)
    ensures WalksWith(Next(s, step), t, undo, log, left)
  {
  }

  /** While its walk is under way, a transaction keeps what it has recorded. */
  lemma {:induction false} WalkKeepsLog(s0: State, steps: seq<Step>, i: nat, k: nat, s: State)
    requires Run(s0, steps).Reached? && i < k <= |steps| && steps[i].BeginWalk?
    requires Run(s0, steps[..i]) == Reached(s) && steps[i].t < |s.txs|
    requires forall m :: i < m < k ==> steps[m] != EndWalk(steps[i].t)
    ensures Run(s0, steps[..k]).Reached?
    ensures var tx := s.txs[steps[i].t];
            WalksWith(Run(s0, steps[..k]).state, steps[i].t, steps[i].undo, tx.log, tx.left)
    decreases k
  {
    var t, undo, tx := steps[i].t, steps[i].undo, s.txs[steps[i].t];
    RunPrefix(s0, steps, k - 1);
    if k == i + 1 {
      assert WalksWith(Next(s, steps[i]), t, undo, tx.log, tx.left);
    } else {
      WalkKeepsLog(s0, steps, i, k - 1, s);
      WalkingKept(Run(s0, steps[..k - 1]).state, steps[k - 1], t, undo, tx.log, tx.left);
    }
  }

  /** When a walk ends, the history grows by what the transaction had recorded when it began the walk: by its log in
      a commit, and in an abort by nothing but what the transaction leaves behind. */
  lemma EndedWalkCounts(s0: State, steps: seq<Step>, i: nat, j: nat)
    requires Run(s0, steps).Reached? && i < j < |steps| && steps[i].BeginWalk? && steps[j] == EndWalk(steps[i].t)
    requires forall m :: i < m < j ==> steps[m] != EndWalk(steps[i].t)
    ensures Run(s0, steps[..i]).Reached? && Run(s0, steps[..j]).Reached? && Run(s0, steps[..j + 1]).Reached?
    ensures var began, before, after := Run(s0, steps[..i]).state, Run(s0, steps[..j]).state,
                Run(s0, steps[..j + 1]).state;
            && steps[i].t < |began.txs|
            && var tx := began.txs[steps[i].t];
               after.history == before.history + if !steps[i].undo then [Ended(false, tx.log)]
                                                 else if tx.left == [] then []
                                                 else [Ended(true, tx.left)]
  {
    RunPrefix(s0, steps, i);
    WalkKeepsLog(s0, steps, i, j, Run(s0, steps[..i]).state);
    RunPrefix(s0, steps, j);
  }

  /** The bytes that the loads of a log returned. */
  function Loaded(log: seq<Op>): seq<seq<Byte>> {
    if log == [] then []
    else Loaded(log[..|log| - 1]) + if log[|log| - 1].LoadOp? then [log[|log| - 1].data] else []
  }

  /** The bytes that the loads find if the requests are performed one after the other, alone. */
  function Reads(m: Memory, rs: seq<Request>): seq<seq<Byte>> {
    if rs == [] then []
    else
      var most, last := rs[..|rs| - 1], rs[|rs| - 1];
      var now := PerformAll(m, most);
      Reads(m, most) + if last.LoadReq? && last.block < |now| && last.off + last.n <= BLOCK_SIZE
                       then [now[last.block][last.off..last.off + last.n]] else []
  }

  /** A log that replays does what was asked for. */
  lemma {:induction false} ReplayIsDirect(m: Memory, log: seq<Op>, rs: seq<Request>)
    requires Replay(m, log).Memory? && Follows(log, rs, true)
    ensures Replay(m, log).mem == PerformAll(m, rs) && Loaded(log) == Reads(m, rs)
    decreases |rs|
  {
    if rs != [] {
      var most, last := rs[..|rs| - 1], rs[|rs| - 1];
      if last.TurnReq? {
        ReplayIsDirect(m, log, most);
      } else {
        ReplayIsDirect(m, log[..|log| - 1], most);
      }
    }
  }

  /** The history of a run without leftovers consists of the commits. */
  lemma {:induction false} AllCommits(history: seq<Ended>)
    requires forall i :: 0 <= i < |history| ==> !history[i].undo
    ensures |Commits(history)| == |history|
    ensures forall i :: 0 <= i < |history| ==> Commits(history)[i] == history[i].ops
  {
    if history != [] {
      AllCommits(history[..|history| - 1]);
    }
  }

  /** The loads of each transaction of the history return what they find if the requests are performed serially. */
  ghost predicate LoadsDirect(m: Memory, history: seq<Ended>, txs: seq<seq<Request>>) {
    && |history| == |txs|
    && forall i :: 0 <= i < |txs| ==> Loaded(history[i].ops) == Reads(PerformEach(m, txs[..i]), txs[i])
  }

  lemma LoadsDirectLast(m: Memory, history: seq<Ended>, txs: seq<seq<Request>>)
    requires history != [] && |history| == |txs|
    requires LoadsDirect(m, history[..|history| - 1], txs[..|txs| - 1])
    requires Loaded(history[|history| - 1].ops) == Reads(PerformEach(m, txs[..|txs| - 1]), txs[|txs| - 1])
    ensures LoadsDirect(m, history, txs)
  {
    var most, mine := history[..|history| - 1], txs[..|txs| - 1];
    forall i | 0 <= i < |txs| ensures Loaded(history[i].ops) == Reads(PerformEach(m, txs[..i]), txs[i]) {
      if i < |mine| {
        assert mine[..i] == txs[..i] && mine[i] == txs[i] && most[i] == history[i];
      }
    }
  }

  lemma {:induction false} SerialRunIsDirect(m: Memory, history: seq<Ended>, txs: seq<seq<Request>>)
    requires SerialRun(m, history).Memory? && |history| == |txs|
    requires forall i :: 0 <= i < |history| ==> Follows(history[i].ops, txs[i], true)
    ensures SerialRun(m, history).mem == PerformEach(m, txs) && LoadsDirect(m, history, txs)
  {
    if history != [] {
      var most, mine := history[..|history| - 1], txs[..|txs| - 1];
      SerialRunIsDirect(m, most, mine);
      ReplayIsDirect(SerialRun(m, most).mem, history[|history| - 1].ops, txs[|txs| - 1]);
      LoadsDirectLast(m, history, txs);
    }
  }

  /** Without a page in writer mode, nobody's stores are under way in the block. */
  ghost predicate Settled(steps: seq<Step>, n: nat, b: nat) {
    forall t :: 0 <= t < n ==> MarkOf(steps, t, b).NoPage? || MarkOf(steps, t, b).status != WrLocked
  }

  /** What the schedule asks for decides everything. If blocks are privatized and discarded with care, then memory is
      what the committed requests make of it when they are performed alone, one transaction after the other, in the
      order in which their walks ended, and their loads return what they find in that serial run; so do the loads of
      a transaction that is still running, performed after these. */
  lemma RequestsDecide(s0: State, init: Memory, steps: seq<Step>)
    requires Init(s0, init) && CarefulRun(s0, steps)
    ensures Run(s0, steps).Reached?
    ensures var s, asked := Run(s0, steps).state, Committed(steps);
            var serial := PerformEach(init, asked);
            && |serial| == |s.mem| && LoadsDirect(init, s.history, asked)
            && (forall b :: 0 <= b < |s.mem| && Settled(steps, |s.txs|, b) ==> s.mem[b] == serial[b])
            && (forall t :: 0 <= t < |s.txs| && s.txs[t].phase.Running? ==>
                 Loaded(s.txs[t].log) == Reads(serial, Asked(steps, t)))
  {
    AbortLeavesNothing(s0, init, steps);
    var s, asked := Run(s0, steps).state, Committed(steps);
    RunRecords(s0, init, steps, true);
    AllCommits(s.history);
    assert forall i :: 0 <= i < |asked| ==> Follows(Commits(s.history)[i], asked[i], true);
    SerialRunIsDirect(init, s.history, asked);
    Serializable(s0, init, steps);
    forall b | 0 <= b < |s.mem| && Settled(steps, |s.txs|, b) ensures s.mem[b] == PerformEach(init, asked)[b] {
      SettledUnwritten(s, steps, b);
    }
    forall t | 0 <= t < |s.txs| && s.txs[t].phase.Running?
      ensures Loaded(s.txs[t].log) == Reads(PerformEach(init, asked), Asked(steps, t))
    {
      RunningSeesCommittedOnly(s0, init, steps, t);
      assert (s.history + [Ended(false, s.txs[t].log)])[..|s.history|] == s.history;
      assert TxRecorded(s, s.txs[t], steps, t, true);
      ReplayIsDirect(SerialRun(init, s.history).mem, s.txs[t].log, Asked(steps, t));
    }
  }

  lemma SettledUnwritten(s: State, steps: seq<Step>, b: nat)
    requires RecordsAsked(s, steps, true) && Settled(steps, |s.txs|, b)
    ensures Unwritten(s.txs, b)
  {
    forall t | 0 <= t < |s.txs| ensures !Holds(s.txs[t], b, WrLocked) {
      assert TxRecorded(s, s.txs[t], steps, t, true);
      assert MarkIn(s.txs[t], b) == MarkOf(steps, t, b);
    }
  }

  /** A store is made in memory at once exactly in a privatized block; otherwise memory waits for the commit. */
  lemma StoreInPlace(s0: State, init: Memory, steps: seq<Step>, step: Step)
    requires Init(s0, init) && Run(s0, steps).Reached? && step.Store? && Enabled(Run(s0, steps).state, step)
    ensures var s := Run(s0, steps).state;
            && MarkOf(steps, step.t, step.b).Marked? && step.b < |s.mem| && step.off + |step.data| <= BLOCK_SIZE
            && Next(s, step).mem == if MarkOf(steps, step.t, step.b).writeThrough
                                    then s.mem[step.b := Splice(s.mem[step.b], step.off, step.data)] else s.mem
  {
    RunRecords(s0, init, steps, false);
    var s := Run(s0, steps).state;
    assert TxRecorded(s, s.txs[step.t], steps, step.t, false);
    assert MarkIn(s.txs[step.t], step.b) == MarkOf(steps, step.t, step.b);
    var p := s.txs[step.t].pages[step.b];
    assert !p.writeThrough ==> StoreChunk(p, step.off, step.data, s.mem[step.b]).1 == s.mem[step.b];
  }
}
