/** What a conflict, a request, an error or a commit leads to (src/picotm.c:205-319, src/picotm_tx.c:179-239). */
module EngineRuns {
  import opened Engine

  /** What a thread is on its way to: a run of its transaction after so many restarts, of which so many were caused by
      conflicts and so many were asked for; the end of the transaction; or its recovery code. */
  datatype Goal = ToRun(start: Start, conflicts: nat, asked: nat) | ToOutside | ToRecovery

  /** The mode in which the transaction is to run: irrevocable after ten restarts, or if that was asked for. */
  function ModeAfter(start: Start, restarts: nat): Mode {
    if restarts == 10 || start == GoIrrevocable then Irrevocable else Revocable
  }

  predicate Ends(pc: Pc, after: After) {
    (pc.Finishing? || pc.Releasing? || pc.Unlocking?) && pc.after == after
  }

  /** It is still rolling back. */
  predicate Restarts(tx: Tx, start: Start, conflicts: nat, asked: nat) {
    && Ends(tx.pc, Again(start)) && !start.FirstStart? && tx.nretries + 1 == conflicts + asked
    && conflicts == tx.conflicts + (if start.Retry? then 1 else 0) && asked == tx.asked + if start.Retry? then 0 else 1
  }

  /** It waits for the exclusion lock. */
  predicate Starts(tx: Tx, start: Start, conflicts: nat, asked: nat) {
    && tx.start == start && tx.conflicts == conflicts && tx.asked == asked
    && (|| tx.pc == Acquire(ModeAfter(start, conflicts + asked), conflicts + asked)
        || (tx.pc == Announce(conflicts + asked) && ModeAfter(start, conflicts + asked).Irrevocable?))
  }

  predicate Headed(tx: Tx, goal: Goal) {
    match goal
    case ToRun(start, conflicts, asked) => Restarts(tx, start, conflicts, asked) || Starts(tx, start, conflicts, asked)
    case ToOutside => Ends(tx.pc, Done)
    case ToRecovery => Ends(tx.pc, Recovery)
  }

  predicate Arrived(tx: Tx, goal: Goal) {
    match goal
    case ToRun(start, conflicts, asked) =>
      && tx.pc.Running? && tx.nretries == conflicts + asked && tx.mode == ModeAfter(start, conflicts + asked)
      && tx.conflicts == conflicts && tx.asked == asked && tx.start == start
    case ToOutside => tx.pc.Outside?
    case ToRecovery => tx.pc.Recovering?
  }

  /** Nobody else moves a thread. */
  lemma OthersStep(s: State, a: Action, t: nat)
    requires Shaped(s) && t < |s.txs| && (a.t != t || t == 0)
    ensures |Next(s, a).txs| == |s.txs| && Next(s, a).txs[t] == s.txs[t]
  {
  }

  lemma HeadedGo(s: State, t: nat, goal: Goal)
    requires Shaped(s) && 0 < t < |s.txs| && Headed(s.txs[t], goal)
    requires s.txs[t].pc.Releasing? ==> s.exclusiveLo == t || s.exclusiveLo == 0
    ensures var tx' := GoStep(s, t).txs[t]; Headed(tx', goal) || Arrived(tx', goal)
  {
  }

  /** The assertion of the code holds. */
  lemma ReleaseIsOwn(s: State, t: nat)
    requires Inv(s) && 0 < t < |s.txs| && s.txs[t].pc.Releasing?
    ensures s.exclusiveLo == t || s.exclusiveLo == 0
  {
    assert TxOk(s, t);
    if s.exclusiveLo != 0 {
      assert TxOk(s, s.exclusiveLo);
    }
  }

  lemma HeadedStep(s: State, a: Action, t: nat, goal: Goal)
    requires Inv(s) && 0 < t < |s.txs| && Headed(s.txs[t], goal)
    ensures |Next(s, a).txs| == |s.txs|
    ensures Headed(Next(s, a).txs[t], goal) || Arrived(Next(s, a).txs[t], goal)
  {
    if a.t != t {
      OthersStep(s, a, t);
    } else if a.Go? {
      if s.txs[t].pc.Releasing? {
        ReleaseIsOwn(s, t);
      }
      HeadedGo(s, t, goal);
    } else {
      assert Next(s, a) == s;
    }
  }

  /** The thread is still on its way, or has come there without doing anything else before. */
  ghost predicate LeadsTo(s: State, more: seq<Action>, t: nat, goal: Goal)
    requires Shaped(s)
  {
    exists k :: 0 <= k <= |more| && OnTheWay(s, more, t, goal, k)
                && (k < |more| ==> Here(s, more, t, goal, k + 1))
  }

  ghost predicate Here(s: State, more: seq<Action>, t: nat, goal: Goal, k: nat)
    requires Shaped(s) && k <= |more|
  {
    t < |Reach(s, more[..k]).txs| && Arrived(Reach(s, more[..k]).txs[t], goal)
  }

  ghost predicate Going(s: State, more: seq<Action>, t: nat, goal: Goal, k: nat)
    requires Shaped(s) && k <= |more|
  {
    t < |Reach(s, more[..k]).txs| && Headed(Reach(s, more[..k]).txs[t], goal)
  }

  ghost predicate OnTheWay(s: State, more: seq<Action>, t: nat, goal: Goal, k: nat)
    requires Shaped(s) && k <= |more|
  {
    forall i :: 0 <= i <= k ==> Going(s, more, t, goal, i)
  }

  lemma GoingAfter(s: State, more: seq<Action>, t: nat, goal: Goal, k: nat)
    requires Shaped(s) && more != [] && k < |more|
    ensures Going(s, more, t, goal, k + 1) == Going(Next(s, more[0]), more[1..], t, goal, k)
    ensures Here(s, more, t, goal, k + 1) == Here(Next(s, more[0]), more[1..], t, goal, k)
  {
    assert more[..k + 1][1..] == more[1..][..k];
  }

  lemma LeadsLonger(s: State, more: seq<Action>, t: nat, goal: Goal)
    requires Shaped(s) && more != [] && Going(s, more, t, goal, 0)
    requires LeadsTo(Next(s, more[0]), more[1..], t, goal)
    ensures LeadsTo(s, more, t, goal)
  {
    var s1, rest := Next(s, more[0]), more[1..];
    var k :| 0 <= k <= |rest| && OnTheWay(s1, rest, t, goal, k) && (k < |rest| ==> Here(s1, rest, t, goal, k + 1));
    forall i | 0 <= i <= k + 1 ensures Going(s, more, t, goal, i) {
      if i > 0 {
        assert Going(s1, rest, t, goal, i - 1);
        GoingAfter(s, more, t, goal, i - 1);
      }
    }
    assert OnTheWay(s, more, t, goal, k + 1);
    if k < |rest| {
      GoingAfter(s, more, t, goal, k + 1);
    }
  }

  lemma {:induction false} HeadedLeads(s: State, more: seq<Action>, t: nat, goal: Goal)
    requires Inv(s) && 0 < t < |s.txs| && Headed(s.txs[t], goal)
    ensures LeadsTo(s, more, t, goal)
    decreases |more|
  {
    assert Going(s, more, t, goal, 0);
    if more == [] {
      assert OnTheWay(s, more, t, goal, 0);
    } else {
      var s1 := Next(s, more[0]);
      HeadedStep(s, more[0], t, goal);
      NextKeepsInv(s, more[0]);
      if Headed(s1.txs[t], goal) {
        HeadedLeads(s1, more[1..], t, goal);
        LeadsLonger(s, more, t, goal);
      } else {
        assert OnTheWay(s, more, t, goal, 0);
        assert Here(s1, more[1..], t, goal, 0);
        GoingAfter(s, more, t, goal, 0);
      }
    }
  }

  /** The conflict of a try-lock that is refused, and of a sleeper that gives up. */
  predicate Conflicts(s: State, a: Action)
    requires Shaped(s)
  {
    && 0 < a.t < |s.txs|
    && var pc := s.txs[a.t].pc;
       || (a.TryLock? && pc.Running? && a.lock < |s.locks| && !Grants(s.locks[a.lock], a.t, a.write) && !a.sleep)
       || (a.WakeUp? && pc.Waiting? && a.giveUp)
  }

  /** What the thread is headed for by its own decision, if it is one. */
  function GoalOf(s: State, a: Action): Goal
    requires Shaped(s) && 0 < a.t < |s.txs|
  {
    var tx := s.txs[a.t];
    match a
    case Begin(_) => ToRun(FirstStart, 0, 0)
    case AskIrrevocable(_) => ToRun(GoIrrevocable, tx.conflicts, tx.asked + 1)
    case RestartFromRecovery(_) => ToRun(Restart, tx.conflicts, tx.asked + 1)
    case Commit(_) => ToOutside
    case Error(_) => ToRecovery
    case _ => ToRun(Retry, tx.conflicts + 1, tx.asked)
  }

  /** The action is one that the thread can take now. */
  predicate Decides(s: State, a: Action)
    requires Shaped(s)
  {
    && 0 < a.t < |s.txs|
    && var pc := s.txs[a.t].pc;
       || Conflicts(s, a) || (a.Begin? && pc.Outside?) || (a.RestartFromRecovery? && pc.Recovering?)
       || ((a.Commit? || a.AskIrrevocable? || a.Error?) && pc.Running?)
  }

  /** What a decision leads to, whatever the other threads do in the meantime.
      - After a conflict the transaction runs again, with one more restart, and one more caused by a conflict.
      - When irrevocability was asked for, it runs again, with one more restart, and irrevocably.
      - A restart from the recovery code leads to a run with one more restart.
      - A commit ends the transaction, and an error leads to its recovery code.
      - The first run has no restarts behind it. */
  lemma DecisionLeads(threads: nat, locks: nat, actions: seq<Action>, a: Action, more: seq<Action>)
    requires Decides(Reach(Init(threads, locks), actions), a)
    ensures var s := Reach(Init(threads, locks), actions); LeadsTo(Next(s, a), more, a.t, GoalOf(s, a))
  {
    var s := Reach(Init(threads, locks), actions);
    ReachableInv(threads, locks, actions);
    NextKeepsInv(s, a);
    assert TxOk(s, a.t);
    HeadedLeads(Next(s, a), more, a.t, GoalOf(s, a));
  }

  /** Nobody but t has the lock. */
  predicate OthersOff(lock: DataLock, t: nat) {
    lock.readers <= {t} && lock.writer in {0, t}
  }

  /** - A lock that t has is not refused, unless it wants to write and there are other readers.
      - A lock that nobody has is granted unless somebody waits for it, and one that others read, for reading, up to
        fourteen readers. */
  predicate MayHave(lock: DataLock, t: nat, write: bool) {
    || (Holds(lock, t) && (write ==> OthersOff(lock, t)))
    || (lock.waiters == {} && lock.writer == 0 && (lock.readers == {} || (!write && |lock.readers| < 14)))
  }

  /** The lock of t, and of nobody else, is as asked for. */
  ghost predicate Locked(lock: DataLock, lock': DataLock, t: nat, write: bool) {
    && Holds(lock', t) && (write ==> lock'.writer == t) && lock'.waiters == lock.waiters
    && forall u: nat :: u != t && u != 0 ==> (Holds(lock', u) <==> Holds(lock, u))
  }

  lemma GrantsIff(lock: DataLock, t: nat, write: bool)
    requires t != 0 && (lock.writer != 0 ==> lock.readers == {})
    ensures Grants(lock, t, write) <==> MayHave(lock, t, write)
    ensures Grants(lock, t, write) ==> Locked(lock, Granted(lock, t, write), t, write)
  {
    assert t in lock.readers && lock.readers <= {t} ==> lock.readers == {t};
  }

  /** A running transaction that tries to lock data gets the lock exactly if it may have it. Otherwise it sleeps in the
      waiter list of the lock, and runs on when it is woken up and does not give up, or it restarts. */
  lemma TryLockMeans(threads: nat, locks: nat, actions: seq<Action>, t: nat, o: nat, write: bool, sleep: bool)
    requires var s := Reach(Init(threads, locks), actions);
             0 < t < |s.txs| && o < |s.locks| && s.txs[t].pc.Running?
    ensures var s := Reach(Init(threads, locks), actions);
            var lock, s' := s.locks[o], Next(s, TryLock(t, o, write, sleep));
            && |s'.locks| == |s.locks| && |s'.txs| == |s.txs|
            && if MayHave(lock, t, write)
               then s'.txs == s.txs && Locked(lock, s'.locks[o], t, write)
               else && s'.txs[t].pc == (if sleep then Waiting(o) else Finishing(0, Again(Retry)))
                    && s'.locks[o] == lock.(waiters := if sleep then lock.waiters + {t} else lock.waiters)
                    && (sleep ==> Next(s', WakeUp(t, false)).txs == s.txs)
  {
    var s := Reach(Init(threads, locks), actions);
    ReachableInv(threads, locks, actions);
    assert LockOk(s, o);
    GrantsIff(s.locks[o], t, write);
    if !MayHave(s.locks[o], t, write) && sleep {
      assert s.txs[t := s.txs[t].(pc := Waiting(o))][t := s.txs[t]] == s.txs;
    }
  }

  /** Between the acquisition and the release of the exclusion lock as the one who excludes the others. */
  predicate Excludes(tx: Tx) {
    Inside(tx.pc) && (tx.pc.Announce? || tx.mode.Irrevocable?)
  }

  /** A revocable transaction begins to run exactly if no irrevocable one is inside, and an irrevocable one exactly if
      nobody is; otherwise they wait. */
  lemma EntersIff(threads: nat, locks: nat, actions: seq<Action>, t: nat)
    requires var s := Reach(Init(threads, locks), actions); 0 < t < |s.txs| && s.txs[t].pc.Acquire?
    ensures var s := Reach(Init(threads, locks), actions);
            var s' := Next(s, Go(t));
            && |s'.txs| == |s.txs|
            && if s.txs[t].pc.mode.Revocable?
               then if forall u :: 0 < u < |s.txs| ==> !Excludes(s.txs[u]) then s'.txs[t].pc.Running? else s' == s
               else if forall u :: 0 < u < |s.txs| ==> !Inside(s.txs[u].pc) then s'.txs[t].pc.Announce? else s' == s
  {
    var s := Reach(Init(threads, locks), actions);
    ReachableInv(threads, locks, actions);
    forall u: nat | 0 < u < |s.txs|
      ensures (s.writer == u <==> Excludes(s.txs[u])) && (u in s.readers || s.writer == u <==> Inside(s.txs[u].pc))
    {
      assert TxOk(s, u);
    }
    assert s.writer != 0 ==> Excludes(s.txs[s.writer]);
    if s.readers != {} {
      var u :| u in s.readers;
      assert Inside(s.txs[u].pc);
    }
  }

  // ---------------------------------------------------------------------------------------------
  // Counting along the schedule
  // ---------------------------------------------------------------------------------------------

  /** What an action of the thread adds to its numbers of conflicts and of requests for a restart. */
  function CountsAfter(s: State, a: Action, counts: (nat, nat)): (nat, nat)
    requires Shaped(s)
  {
    if !Decides(s, a) then counts
    else if a.Begin? then (0, 0)
    else if Conflicts(s, a) then (counts.0 + 1, counts.1)
    else if a.AskIrrevocable? || a.RestartFromRecovery? then (counts.0, counts.1 + 1)
    else counts
  }

  /** How many conflicts and how many requests thread t has had since it last began a transaction. */
  function Counts(s0: State, actions: seq<Action>, t: nat): (nat, nat)
    requires Shaped(s0)
  {
    if actions == [] then (0, 0)
    else
      var most, last := actions[..|actions| - 1], actions[|actions| - 1];
      if last.t == t then CountsAfter(Reach(s0, most), last, Counts(s0, most, t)) else Counts(s0, most, t)
  }

  /** The counters of a transaction that is about to restart are one behind. */
  predicate Counted(tx: Tx, conflicts: nat, asked: nat) {
    if (tx.pc.Finishing? || tx.pc.Releasing? || tx.pc.Unlocking?) && tx.pc.after.Again?
    then conflicts == tx.conflicts + (if tx.pc.after.start.Retry? then 1 else 0)
         && asked == tx.asked + if tx.pc.after.start.Retry? then 0 else 1
    else conflicts == tx.conflicts && asked == tx.asked
  }

  lemma {:induction false} ReachLast(s: State, actions: seq<Action>)
    requires Shaped(s) && actions != []
    ensures Reach(s, actions) == Next(Reach(s, actions[..|actions| - 1]), actions[|actions| - 1])
    decreases |actions|
  {
    if |actions| > 1 {
      ReachLast(Next(s, actions[0]), actions[1..]);
      assert actions[..|actions| - 1][1..] == actions[1..][..|actions[1..]| - 1];
    }
  }

  lemma GoCounted(s: State, t: nat, conflicts: nat, asked: nat)
    requires Inv(s) && 0 < t < |s.txs| && Counted(s.txs[t], conflicts, asked)
    ensures Counted(GoStep(s, t).txs[t], conflicts, asked)
  {
    assert TxOk(s, t);
  }

  lemma StepCounted(s: State, a: Action, counts: (nat, nat))
    requires Inv(s) && 0 < a.t < |s.txs| && Counted(s.txs[a.t], counts.0, counts.1)
    ensures var after := CountsAfter(s, a, counts); Counted(Next(s, a).txs[a.t], after.0, after.1)
  {
    assert TxOk(s, a.t);
    if a.Go? {
      GoCounted(s, a.t, counts.0, counts.1);
    }
  }

  ghost predicate CountsHold(s: State, t: nat, counts: (nat, nat)) {
    t < |s.txs| && Counted(s.txs[t], counts.0, counts.1)
  }

  lemma NextCounted(s: State, a: Action, t: nat, counts: (nat, nat))
    requires Inv(s) && 0 < t && CountsHold(s, t, counts)
    ensures CountsHold(Next(s, a), t, if a.t == t then CountsAfter(s, a, counts) else counts)
  {
    if a.t == t {
      StepCounted(s, a, counts);
    } else {
      OthersStep(s, a, t);
    }
  }

  lemma {:induction false} RunCounted(s0: State, actions: seq<Action>, t: nat)
    requires Inv(s0) && 0 < t < |s0.txs| && s0.txs[t].pc.Outside? && s0.txs[t].conflicts == s0.txs[t].asked == 0
    ensures Inv(Reach(s0, actions)) && CountsHold(Reach(s0, actions), t, Counts(s0, actions, t))
    decreases |actions|
  {
    if actions != [] {
      var most, last := actions[..|actions| - 1], actions[|actions| - 1];
      RunCounted(s0, most, t);
      ReachLast(s0, actions);
      NextKeepsInv(Reach(s0, most), last);
      NextCounted(Reach(s0, most), last, t, Counts(s0, most, t));
    }
  }

  /** In every run, a transaction runs with as many restarts behind it as it has had conflicts and requests since it
      began, and irrevocably exactly if these are ten, or its last restart asked for that. So conflicts alone
      restart it ten times at most. */
  lemma RestartsAreCounted(threads: nat, locks: nat, actions: seq<Action>, t: nat)
    requires 0 < t <= threads
    ensures var s0 := Init(threads, locks);
            var s, counts := Reach(s0, actions), Counts(s0, actions, t);
            && t < |s.txs| && (counts.1 == 0 ==> counts.0 <= 10)
            && var tx := s.txs[t];
               tx.pc.Running? ==>
                 tx.nretries == counts.0 + counts.1
                 && (tx.mode.Irrevocable? <==> counts.0 + counts.1 == 10 || tx.start.GoIrrevocable?)
  {
    ReachableInv(threads, locks, []);
    RunCounted(Init(threads, locks), actions, t);
    assert TxOk(Reach(Init(threads, locks), actions), t);
  }

  // ---------------------------------------------------------------------------------------------
  // On its way, a thread needs nobody but those who are inside
  // ---------------------------------------------------------------------------------------------

  function Gos(t: nat, k: nat): (r: seq<Action>)
    ensures |r| == k
  {
    if k == 0 then [] else [Go(t)] + Gos(t, k - 1)
  }

  /** How many steps it has still to go. */
  function StepsLeft(tx: Tx, locks: nat): nat {
    match tx.pc
    case Announce(_) => 1
    case Acquire(_, _) => 2
    case Unlocking(_) => 3
    case Releasing(_) => 4
    case Finishing(done, _) => if done < locks then 5 + locks - done else 5
    case _ => 0
  }

  /** No other thread is between the acquisition and the release of the exclusion lock. */
  ghost predicate OthersOutside(s: State, t: nat) {
    forall u :: 0 < u < |s.txs| && u != t ==> !Inside(s.txs[u].pc)
  }

  lemma HoldersAreInside(s: State, u: nat)
    requires Inv(s) && 0 < u < |s.txs| && (u in s.readers || s.writer == u)
    ensures Inside(s.txs[u].pc)
  {
    assert TxOk(s, u);
  }

  lemma AloneIsFree(s: State, t: nat)
    requires Inv(s) && 0 < t < |s.txs| && OthersOutside(s, t) && s.txs[t].pc.Acquire?
    ensures s.writer == 0 && s.readers == {}
  {
    forall u: nat | 0 < u < |s.txs| && (u in s.readers || s.writer == u) ensures Inside(s.txs[u].pc) {
      HoldersAreInside(s, u);
    }
    assert forall u: nat :: u !in s.readers;
    assert s.writer != 0 ==> !Inside(s.txs[s.writer].pc);
  }

  lemma GoGetsOn(s: State, t: nat, goal: Goal)
    requires Inv(s) && 0 < t < |s.txs| && OthersOutside(s, t) && Headed(s.txs[t], goal)
    ensures var s' := GoStep(s, t);
            && |s'.txs| == |s.txs| && |s'.locks| == |s.locks| && OthersOutside(s', t)
            && (Arrived(s'.txs[t], goal)
                || StepsLeft(s'.txs[t], |s'.locks|) < StepsLeft(s.txs[t], |s.locks|))
  {
    assert TxOk(s, t);
    if s.txs[t].pc.Acquire? {
      AloneIsFree(s, t);
    }
    if s.txs[t].pc.Releasing? {
      ReleaseIsOwn(s, t);
    }
  }

  /** If nobody else is inside, a thread that is on its way comes there by its own steps, in at most five more than
      there are data locks. */
  lemma {:induction false} ArrivesAlone(s: State, t: nat, goal: Goal) returns (k: nat)
    requires Inv(s) && 0 < t < |s.txs| && OthersOutside(s, t) && Headed(s.txs[t], goal)
    ensures k <= |s.locks| + 5
    ensures |Reach(s, Gos(t, k)).txs| == |s.txs| && Arrived(Reach(s, Gos(t, k)).txs[t], goal)
    ensures k <= StepsLeft(s.txs[t], |s.locks|)
    decreases StepsLeft(s.txs[t], |s.locks|)
  {
    var s1 := GoStep(s, t);
    HeadedStep(s, Go(t), t, goal);
    NextKeepsInv(s, Go(t));
    GoGetsOn(s, t, goal);
    if Arrived(s1.txs[t], goal) {
      k := 1;
      ReachCons(s, Go(t), []);
      assert Gos(t, 1) == [Go(t)] + [];
    } else {
      k := ArrivesAlone(s1, t, goal);
      ReachCons(s, Go(t), Gos(t, k));
      k := k + 1;
    }
  }
}
