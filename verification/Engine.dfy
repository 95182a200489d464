/** Retry counters, irrevocability and try-locks in any number of threads (src/picotm_tx.c, src/picotm.c:205-319). */
module Engine {
  const RETRIES_LIMIT: nat := 10
  const MAX_READERS: nat := 14

  datatype Mode = Revocable | Irrevocable

  /** The transaction mode that a start or restart of the public interface asks for. */
  datatype Start = FirstStart | Retry | GoIrrevocable | Restart

  /** A reader/writer lock on data: its holders and the threads in its waiter list. */
  datatype DataLock = DataLock(readers: set<nat>, writer: nat, waiters: set<nat>)

  /** What follows when the modules are finished and irrevocability is released. */
  datatype After = Done | Recovery | Again(start: Start)

  datatype Pc =
    | Outside                                     // no transaction
    | Recovering                                  // in the recovery code, the transaction is rolled back
    | Acquire(mode: Mode, nretries: nat)          // picotm_tx_begin, waits for the exclusion lock
    | Announce(nretries: nat)                     // has the writer lock, about to set exclusive_lo
    | Running
    | Waiting(lock: nat)                          // sleeps in a data lock's waiter list
    | Finishing(done: nat, after: After)          // finish_modules, releases one data lock after the other
    | Releasing(after: After)                     // picotm_lock_manager_release_irrevocability
    | Unlocking(after: After)
    | Failed                                      // an assertion of the code was violated

  /** A transaction's mode and retry counter; for the statements below also how many of its restarts since
      the first start were caused by conflicts and how many were asked for, and what the last start asked for. */
  datatype Tx = Tx(pc: Pc, mode: Mode, nretries: nat, conflicts: nat, asked: nat, start: Start)

  /** Threads are numbered from 1; 0 is nobody. The exclusion lock has readers and a writer. */
  datatype State = State(txs: seq<Tx>, readers: set<nat>, writer: nat, exclusiveLo: nat, locks: seq<DataLock>)

  /** The choices of a thread: begin; try to lock data, and sleep or give up when that fails; give up or try
      again when woken up; commit; ask for irrevocability; report an error; leave the recovery code by a
      restart or for good. `Go` is the only step of a thread that is in the middle of something. */
  datatype Action =
    | Begin(t: nat) | Go(t: nat)
    | TryLock(t: nat, lock: nat, write: bool, sleep: bool) | WakeUp(t: nat, giveUp: bool)
    | Commit(t: nat) | AskIrrevocable(t: nat) | Error(t: nat)
    | RestartFromRecovery(t: nat) | EndRecovery(t: nat)

  predicate Shaped(s: State) {
    && 0 < |s.txs| && s.txs[0].pc.Outside?
    && forall t :: 0 <= t < |s.txs| && s.txs[t].pc.Waiting? ==> s.txs[t].pc.lock < |s.locks|
  }

  function Put(s: State, t: nat, tx: Tx): (s': State)
    requires Shaped(s) && 0 < t < |s.txs| && (tx.pc.Waiting? ==> tx.pc.lock < |s.locks|)
    ensures Shaped(s')
  {
    s.(txs := s.txs[t := tx])
  }

  function Goto(s: State, t: nat, pc: Pc): (s': State)
    requires Shaped(s) && 0 < t < |s.txs| && (pc.Waiting? ==> pc.lock < |s.locks|)
    ensures Shaped(s')
  {
    Put(s, t, s.txs[t].(pc := pc))
  }

  /** The mode that a run starts in: the limit is met by equality. */
  function ModeOf(start: Start, nretries: nat): Mode {
    if nretries == RETRIES_LIMIT || start.GoIrrevocable? then Irrevocable else Revocable
  }

  function BeginWith(s: State, t: nat, start: Start): (s': State)
    requires Shaped(s) && 0 < t < |s.txs|
    ensures Shaped(s')
  {
    var tx := s.txs[t];
    var n := if start.FirstStart? then 0 else tx.nretries + 1;
    Put(s, t, tx.(pc := Acquire(ModeOf(start, n), n), start := start,
                  conflicts := if start.FirstStart? then 0 else if start.Retry? then tx.conflicts + 1 else tx.conflicts,
                  asked := if start.FirstStart? then 0 else if start.Retry? then tx.asked else tx.asked + 1))
  }

  predicate Holds(lock: DataLock, t: nat) {
    t in lock.readers || lock.writer == t
  }

  /** try_rdlock, try_wrlock and try_uplock, called as the lock state of the transaction demands. */
  predicate Grants(lock: DataLock, t: nat, write: bool) {
    if !write then Holds(lock, t) || (lock.writer == 0 && |lock.readers| < MAX_READERS && lock.waiters == {})
    else if t in lock.readers then lock.readers == {t} && lock.writer == 0
    else lock.writer == t || (lock.writer == 0 && lock.readers == {} && lock.waiters == {})
  }

  function Granted(lock: DataLock, t: nat, write: bool): DataLock {
    if write then lock.(readers := lock.readers - {t}, writer := t)
    else if Holds(lock, t) then lock
    else lock.(readers := lock.readers + {t})
  }

  function PutLock(s: State, o: nat, lock: DataLock): (s': State)
    requires Shaped(s) && o < |s.locks|
    ensures Shaped(s')
  {
    s.(locks := s.locks[o := lock])
  }

  function Conflict(s: State, t: nat): (s': State)
    requires Shaped(s) && 0 < t < |s.txs|
    ensures Shaped(s')
  {
    Goto(s, t, Finishing(0, Again(Retry)))
  }

  function TryStep(s: State, t: nat, o: nat, write: bool, sleep: bool): (s': State)
    requires Shaped(s) && 0 < t < |s.txs| && o < |s.locks|
    ensures Shaped(s')
  {
    if !s.txs[t].pc.Running? then s
    else if Grants(s.locks[o], t, write) then PutLock(s, o, Granted(s.locks[o], t, write))
    else if sleep then Goto(PutLock(s, o, s.locks[o].(waiters := s.locks[o].waiters + {t})), t, Waiting(o))
    else Conflict(s, t)
  }

  /** The steps in which a thread has no choice. */
  function GoStep(s: State, t: nat): (s': State)
    requires Shaped(s) && 0 < t < |s.txs|
    ensures Shaped(s')
  {
    var tx := s.txs[t];
    match tx.pc
    case Acquire(Revocable, n) =>
      if s.writer == 0
      then Put(s, t, tx.(pc := Running, mode := Revocable, nretries := n)).(readers := s.readers + {t})
      else s
    case Acquire(Irrevocable, n) =>
      if s.writer == 0 && s.readers == {} then Goto(s, t, Announce(n)).(writer := t) else s
    case Announce(n) => Put(s, t, tx.(pc := Running, mode := Irrevocable, nretries := n)).(exclusiveLo := t)
    case Finishing(done, after) =>
      if done < |s.locks| then
        var lock := s.locks[done];
        var released := lock.(readers := lock.readers - {t}, writer := if lock.writer == t then 0 else lock.writer);
        Goto(PutLock(s, done, released), t, Finishing(done + 1, after))
      else Goto(s, t, Releasing(after))
    case Releasing(after) =>
      if s.exclusiveLo != t && s.exclusiveLo != 0 then Goto(s, t, Failed)
      else Goto(s, t, Unlocking(after)).(exclusiveLo := if s.exclusiveLo == t then 0 else s.exclusiveLo)
    case Unlocking(after) =>
      var free := s.(readers := s.readers - {t}, writer := if s.writer == t then 0 else s.writer);
      (match after
       case Done => Goto(free, t, Outside)
       case Recovery => Goto(free, t, Recovering)
       case Again(start) => BeginWith(free, t, start))
    case _ => s
  }

  function Next(s: State, a: Action): (s': State)
    requires Shaped(s)
    ensures Shaped(s')
  {
    var t := a.t;
    if t == 0 || t >= |s.txs| then s else
    var pc := s.txs[t].pc;
    match a
    case Begin(_) => if pc.Outside? then BeginWith(s, t, FirstStart) else s
    case Go(_) => GoStep(s, t)
    case TryLock(_, o, write, sleep) => if o < |s.locks| then TryStep(s, t, o, write, sleep) else s
    case WakeUp(_, giveUp) =>
      if pc.Waiting? then
        var s' := Goto(s, t, if giveUp then Finishing(0, Again(Retry)) else Running);
        PutLock(s', pc.lock, s.locks[pc.lock].(waiters := s.locks[pc.lock].waiters - {t}))
      else s
    case Commit(_) => if pc.Running? then Goto(s, t, Finishing(0, Done)) else s
    case AskIrrevocable(_) => if pc.Running? then Goto(s, t, Finishing(0, Again(GoIrrevocable))) else s
    case Error(_) => if pc.Running? then Goto(s, t, Finishing(0, Recovery)) else s
    case RestartFromRecovery(_) => if pc.Recovering? then BeginWith(s, t, Restart) else s
    case EndRecovery(_) => if pc.Recovering? then Goto(s, t, Outside) else s
  }

  // ---------------------------------------------------------------------------------------------
  // The invariant
  // ---------------------------------------------------------------------------------------------

  /** Between the acquisition of the exclusion lock and its release. */
  predicate Inside(pc: Pc) {
    pc.Announce? || pc.Running? || pc.Waiting? || pc.Finishing? || pc.Releasing? || pc.Unlocking?
  }

  predicate MayHoldData(pc: Pc, o: nat) {
    pc.Running? || pc.Waiting? || (pc.Finishing? && pc.done <= o)
  }

  ghost predicate TxOk(s: State, t: nat)
    requires Shaped(s) && 0 < t < |s.txs|
  {
    var tx := s.txs[t];
    && !tx.pc.Failed?
    && (t in s.readers <==> Inside(tx.pc) && !tx.pc.Announce? && tx.mode.Revocable?)
    && (s.writer == t <==> Inside(tx.pc) && (tx.pc.Announce? || tx.mode.Irrevocable?))
    && (s.exclusiveLo == t <==> Inside(tx.pc) && !tx.pc.Announce? && !tx.pc.Unlocking? && tx.mode.Irrevocable?)
    && CounterOk(tx)
  }

  /** The retry counter counts all restarts; conflicts alone never take it beyond the limit. */
  predicate CounterOk(tx: Tx) {
    var n := if tx.pc.Acquire? || tx.pc.Announce? then tx.pc.nretries else tx.nretries;
    && n == tx.conflicts + tx.asked
    && (tx.pc.Acquire? ==> tx.pc.mode == ModeOf(tx.start, n))
    && (tx.pc.Announce? ==> ModeOf(tx.start, n) == Irrevocable)
    && (Inside(tx.pc) && !tx.pc.Announce? ==> tx.mode == ModeOf(tx.start, n))
    && (tx.pc.Finishing? || tx.pc.Releasing? || tx.pc.Unlocking? ==>
         (tx.pc.after == Again(Retry) ==> tx.mode.Revocable?)
         && (tx.pc.after.Again? ==> !tx.pc.after.start.FirstStart?))
    && (tx.asked == 0 ==> n <= RETRIES_LIMIT && !tx.start.GoIrrevocable?)
    && (tx.pc.Waiting? ==> tx.mode.Revocable?)
  }

  ghost predicate LockOk(s: State, o: nat)
    requires Shaped(s) && o < |s.locks|
  {
    var lock := s.locks[o];
    && (forall t :: t in lock.readers ==> 0 < t < |s.txs| && MayHoldData(s.txs[t].pc, o))
    && (lock.writer != 0 ==> lock.writer < |s.txs| && MayHoldData(s.txs[lock.writer].pc, o))
    && (lock.writer != 0 ==> lock.readers == {})
    && (forall t :: t in lock.waiters ==> 0 < t < |s.txs| && s.txs[t].pc == Waiting(o))
  }

  ghost predicate Inv(s: State) {
    && Shaped(s)
    && (forall t :: 0 < t < |s.txs| ==> TxOk(s, t))
    && (forall o :: 0 <= o < |s.locks| ==> LockOk(s, o))
    && (forall t :: t in s.readers ==> 0 < t < |s.txs|)
    && s.writer < |s.txs| && s.exclusiveLo < |s.txs|
    && (s.writer != 0 ==> s.readers == {})
    && (s.exclusiveLo != 0 ==> s.exclusiveLo == s.writer)
  }

  // ---------------------------------------------------------------------------------------------
  // Preservation
  // ---------------------------------------------------------------------------------------------

  /** A step of t that leaves the data locks alone. */
  lemma TxStep(s: State, s': State, t: nat)
    requires Inv(s) && Shaped(s') && 0 < t < |s.txs| == |s'.txs| && s'.txs == s.txs[t := s'.txs[t]]
             && s'.locks == s.locks
    requires s'.readers == s.readers || s'.readers == s.readers + {t} || s'.readers == s.readers - {t}
    requires s'.writer == s.writer || (s.writer == 0 && s'.writer == t) || (s.writer == t && s'.writer == 0)
    requires s'.exclusiveLo == s.exclusiveLo || (s.exclusiveLo == 0 && s'.exclusiveLo == t)
             || (s.exclusiveLo == t && s'.exclusiveLo == 0)
    requires s'.writer != 0 ==> s'.readers == {}
    requires s'.exclusiveLo != 0 ==> s'.exclusiveLo == s'.writer
    requires TxOk(s', t)
    requires forall o :: 0 <= o < |s.locks| ==>
               && (MayHoldData(s.txs[t].pc, o) && Holds(s.locks[o], t) ==> MayHoldData(s'.txs[t].pc, o))
               && (s.txs[t].pc == Waiting(o) ==> s'.txs[t].pc == Waiting(o))
    ensures Inv(s')
  {
    forall u | 0 < u < |s.txs| ensures TxOk(s', u) {
      assert TxOk(s, u);
    }
    forall o | 0 <= o < |s.locks| ensures LockOk(s', o) {
      assert LockOk(s, o);
    }
  }

  /** A step of t that changes one data lock and possibly its place. */
  lemma LockStep(s: State, s': State, t: nat, o: nat)
    requires Inv(s) && Shaped(s') && 0 < t < |s.txs| == |s'.txs| && o < |s.locks| == |s'.locks|
    requires s' == s.(txs := s.txs[t := s'.txs[t]], locks := s.locks[o := s'.locks[o]])
    requires TxOk(s', t) && LockOk(s', o)
    requires forall p :: 0 <= p < |s.locks| && p != o ==>
               && (MayHoldData(s.txs[t].pc, p) ==> MayHoldData(s'.txs[t].pc, p))
               && s.txs[t].pc != Waiting(p)
    ensures Inv(s')
  {
    forall u | 0 < u < |s.txs| ensures TxOk(s', u) {
      assert TxOk(s, u);
    }
    forall p | 0 <= p < |s.locks| ensures LockOk(s', p) {
      if p != o {
        assert LockOk(s, p);
      }
    }
  }

  lemma FinishKeepsInv(s: State, t: nat)
    requires Inv(s) && 0 < t < |s.txs| && s.txs[t].pc.Finishing?
    ensures Inv(GoStep(s, t))
  {
    var done := s.txs[t].pc.done;
    assert TxOk(s, t);
    if done < |s.locks| {
      assert LockOk(s, done);
      LockStep(s, GoStep(s, t), t, done);
    } else {
      TxStep(s, GoStep(s, t), t);
    }
  }

  lemma GoKeepsInv(s: State, t: nat)
    requires Inv(s) && 0 < t < |s.txs|
    ensures Inv(GoStep(s, t))
  {
    var s' := GoStep(s, t);
    assert TxOk(s, t);
    match s.txs[t].pc
    case Finishing(_, _) => FinishKeepsInv(s, t);
    case Acquire(_, _) =>
      if s' != s {
        TxStep(s, s', t);
      }
    case Announce(_) => TxStep(s, s', t);
    case Releasing(_) => TxStep(s, s', t);
    case Unlocking(_) => TxStep(s, s', t);
    case _ =>
  }

  /** An irrevocable transaction that runs is alone. */
  lemma IrrevocableIsAlone(s: State, t: nat, u: nat)
    requires Inv(s) && 0 < t < |s.txs| && 0 < u < |s.txs| && u != t
    requires s.txs[t].pc.Running? && s.txs[t].mode.Irrevocable?
    ensures !Inside(s.txs[u].pc)
  {
    assert TxOk(s, t) && TxOk(s, u);
  }

  /** So all data locks are its own or free. */
  lemma IrrevocableIsGranted(s: State, t: nat, o: nat, write: bool)
    requires Inv(s) && 0 < t < |s.txs| && o < |s.locks| && s.txs[t].pc.Running? && s.txs[t].mode.Irrevocable?
    ensures s.locks[o].readers <= {t} && s.locks[o].writer in {0, t} && s.locks[o].waiters == {}
    ensures Grants(s.locks[o], t, write)
  {
    var lock := s.locks[o];
    assert LockOk(s, o);
    forall u | 0 < u < |s.txs| && u != t ensures !Inside(s.txs[u].pc) {
      IrrevocableIsAlone(s, t, u);
    }
    assert t in lock.readers ==> lock.readers == {t};
    assert t !in lock.readers ==> lock.readers == {};
  }

  lemma TryKeepsInv(s: State, t: nat, o: nat, write: bool, sleep: bool)
    requires Inv(s) && 0 < t < |s.txs| && o < |s.locks|
    ensures Inv(TryStep(s, t, o, write, sleep))
  {
    var s' := TryStep(s, t, o, write, sleep);
    assert TxOk(s, t) && LockOk(s, o);
    if !s.txs[t].pc.Running? {
    } else if Grants(s.locks[o], t, write) {
      LockStep(s, s', t, o);
    } else {
      if s.txs[t].mode.Irrevocable? {
        IrrevocableIsGranted(s, t, o, write);
      }
      if sleep {
        LockStep(s, s', t, o);
      } else {
        TxStep(s, s', t);
      }
    }
  }

  lemma NextKeepsInv(s: State, a: Action)
    requires Inv(s)
    ensures Inv(Next(s, a))
  {
    var t, s' := a.t, Next(s, a);
    if 0 < t < |s.txs| && s' != s {
      assert TxOk(s, t);
      match a
      case Go(_) => GoKeepsInv(s, t);
      case TryLock(_, o, write, sleep) => TryKeepsInv(s, t, o, write, sleep);
      case WakeUp(_, _) =>
        var o := s.txs[t].pc.lock;
        assert LockOk(s, o);
        LockStep(s, s', t, o);
      case _ => TxStep(s, s', t);
    }
  }

  // ---------------------------------------------------------------------------------------------
  // All runs
  // ---------------------------------------------------------------------------------------------

  function Init(threads: nat, locks: nat): (s: State)
    ensures Shaped(s)
  {
    State(seq(threads + 1, _ => Tx(Outside, Revocable, 0, 0, 0, FirstStart)), {}, 0, 0,
          seq(locks, _ => DataLock({}, 0, {})))
  }

  function Reach(s: State, actions: seq<Action>): (s': State)
    requires Shaped(s)
    ensures Shaped(s')
    decreases |actions|
  {
    if actions == [] then s else Reach(Next(s, actions[0]), actions[1..])
  }

  lemma {:induction false} ReachKeepsInv(s: State, actions: seq<Action>)
    requires Inv(s)
    ensures Inv(Reach(s, actions))
    decreases |actions|
  {
    if actions != [] {
      NextKeepsInv(s, actions[0]);
      ReachKeepsInv(Next(s, actions[0]), actions[1..]);
    }
  }

  lemma ReachableInv(threads: nat, locks: nat, actions: seq<Action>)
    ensures Inv(Reach(Init(threads, locks), actions))
  {
    ReachKeepsInv(Init(threads, locks), actions);
  }

  /** While an irrevocable transaction runs, every other thread is outside of all transactions: it holds no
      data lock and waits for none. So the irrevocable transaction is granted every lock it tries, and
      neither sleeps nor restarts because of a conflict. */
  lemma IrrevocableNeverConflicts(threads: nat, locks: nat, actions: seq<Action>, t: nat, o: nat, write: bool,
                                  sleep: bool)
    requires var s := Reach(Init(threads, locks), actions);
             0 < t < |s.txs| && o < |s.locks| && s.txs[t].pc.Running? && s.txs[t].mode.Irrevocable?
    ensures var s := Reach(Init(threads, locks), actions);
            && (forall u :: 0 < u < |s.txs| && u != t ==>
                 !Inside(s.txs[u].pc) && !Holds(s.locks[o], u) && u !in s.locks[o].waiters)
            && Grants(s.locks[o], t, write) && TryStep(s, t, o, write, sleep).txs == s.txs
            && Holds(TryStep(s, t, o, write, sleep).locks[o], t)
  {
    var s := Reach(Init(threads, locks), actions);
    ReachableInv(threads, locks, actions);
    IrrevocableIsGranted(s, t, o, write);
    forall u | 0 < u < |s.txs| && u != t
      ensures !Inside(s.txs[u].pc) && !Holds(s.locks[o], u) && u !in s.locks[o].waiters
    {
      IrrevocableIsAlone(s, t, u);
    }
  }

  /** A transaction that never asked for a restart restarts because of conflicts at most ten times, and it is
      irrevocable exactly in the run after the tenth. Asking for restarts shifts that run: it is always the
      one in which conflicts and requests add up to ten. */
  lemma ConflictsAreBounded(threads: nat, locks: nat, actions: seq<Action>, t: nat)
    requires var s := Reach(Init(threads, locks), actions); 0 < t < |s.txs|
    ensures var tx := Reach(Init(threads, locks), actions).txs[t];
            && (tx.asked == 0 ==> tx.conflicts <= RETRIES_LIMIT)
            && (tx.pc.Running? ==>
                 && tx.nretries == tx.conflicts + tx.asked
                 && (tx.mode.Irrevocable? <==> tx.nretries == RETRIES_LIMIT || tx.start.GoIrrevocable?))
  {
    ReachableInv(threads, locks, actions);
    assert TxOk(Reach(Init(threads, locks), actions), t);
  }

  /** The assertion in release_irrevocability holds, and a transaction that is committed, rolled back, or
      waiting to begin holds no data lock: finish precedes release. */
  lemma ReleasedAfterFinish(threads: nat, locks: nat, actions: seq<Action>, t: nat, o: nat)
    requires var s := Reach(Init(threads, locks), actions); 0 < t < |s.txs| && o < |s.locks|
    ensures var s := Reach(Init(threads, locks), actions);
            && !s.txs[t].pc.Failed?
            && (s.txs[t].pc.Releasing? ==> s.exclusiveLo == t || s.exclusiveLo == 0)
            && (Holds(s.locks[o], t) ==> s.txs[t].pc.Running? || s.txs[t].pc.Waiting? || s.txs[t].pc.Finishing?)
  {
    var s := Reach(Init(threads, locks), actions);
    ReachableInv(threads, locks, actions);
    assert TxOk(s, t) && LockOk(s, o);
    if s.exclusiveLo != 0 {
      assert TxOk(s, s.exclusiveLo);
    }
  }

  // ---------------------------------------------------------------------------------------------
  // Beyond the limit
  // ---------------------------------------------------------------------------------------------

  /** A run that reports an error and is restarted from the recovery code (the trailing steps do nothing
      unless the run before or after was irrevocable). */
  function ErrorRound(): seq<Action> {
    [Error(1), Go(1), Go(1), Go(1), RestartFromRecovery(1), Go(1), Go(1)]
  }

  function ErrorRounds(k: nat): seq<Action> {
    if k == 0 then [] else ErrorRound() + ErrorRounds(k - 1)
  }

  /** Thread 1 runs with n restarts behind it, all of them asked for. */
  function RunningAlone(n: nat): State {
    var mode := ModeOf(if n == 0 then FirstStart else Restart, n);
    State([Tx(Outside, Revocable, 0, 0, 0, FirstStart),
           Tx(Running, mode, n, 0, n, if n == 0 then FirstStart else Restart)],
          if mode.Revocable? then {1} else {}, if mode.Revocable? then 0 else 1, if mode.Revocable? then 0 else 1, [])
  }

  lemma ReachCons(s: State, a: Action, rest: seq<Action>)
    requires Shaped(s)
    ensures Reach(s, [a] + rest) == Reach(Next(s, a), rest)
  {
    assert ([a] + rest)[1..] == rest;
  }

  lemma RoundRestarts(n: nat, rest: seq<Action>)
    ensures Reach(RunningAlone(n), ErrorRound() + rest) == Reach(RunningAlone(n + 1), rest)
  {
    var s := RunningAlone(n);
    var r6 := [Go(1)] + rest;
    var r5 := [Go(1)] + r6;
    var r4 := [RestartFromRecovery(1)] + r5;
    var r3 := [Go(1)] + r4;
    var r2 := [Go(1)] + r3;
    var r1 := [Go(1)] + r2;
    assert ErrorRound() + rest == [Error(1)] + r1;
    ReachCons(s, Error(1), r1);
    var s1 := Next(s, Error(1));
    ReachCons(s1, Go(1), r2);
    var s2 := Next(s1, Go(1));
    ReachCons(s2, Go(1), r3);
    var s3 := Next(s2, Go(1));
    ReachCons(s3, Go(1), r4);
    var s4 := Next(s3, Go(1));
    RolledBack(n);
    ReachCons(s4, RestartFromRecovery(1), r5);
    var s5 := Next(s4, RestartFromRecovery(1));
    ReachCons(s5, Go(1), r6);
    ReachCons(Next(s5, Go(1)), Go(1), rest);
    RunsAgain(n);
  }

  /** Thread 1 is in the recovery code. */
  function RecoveringAlone(n: nat): State {
    var s := RunningAlone(n);
    s.(readers := {}, writer := 0, exclusiveLo := 0, txs := s.txs[1 := s.txs[1].(pc := Recovering)])
  }

  lemma RolledBack(n: nat)
    ensures Next(Next(Next(Next(RunningAlone(n), Error(1)), Go(1)), Go(1)), Go(1)) == RecoveringAlone(n)
  {
    var s := RunningAlone(n);
    var s3 := Next(Next(Next(s, Error(1)), Go(1)), Go(1));
    assert s3.txs[1].pc == Unlocking(Recovery) && s3.exclusiveLo == 0;
    var s4 := Next(s3, Go(1));
    assert s4.readers == {} && s4.txs == RecoveringAlone(n).txs;
  }

  lemma RunsAgain(n: nat)
    ensures Next(Next(Next(RecoveringAlone(n), RestartFromRecovery(1)), Go(1)), Go(1)) == RunningAlone(n + 1)
  {
    var s2 := Next(Next(RecoveringAlone(n), RestartFromRecovery(1)), Go(1));
    assert n + 1 != RETRIES_LIMIT ==> s2.readers == {1} && s2.txs == RunningAlone(n + 1).txs && Next(s2, Go(1)) == s2;
    assert Next(s2, Go(1)).txs == RunningAlone(n + 1).txs;
  }

  lemma {:induction false} RoundsRestart(n: nat, k: nat)
    ensures Reach(RunningAlone(n), ErrorRounds(k)) == RunningAlone(n + k)
    decreases k
  {
    if k > 0 {
      RoundRestarts(n, ErrorRounds(k - 1));
      RoundsRestart(n + 1, k - 1);
    }
  }

  /** The limit is met by equality only: the eleventh restart, which needs a restart asked for from the
      recovery code of the irrevocable run, leads to a revocable run again, and so does every later one. */
  lemma RevocableBeyondTheLimit(n: nat)
    requires n > RETRIES_LIMIT
    ensures var s := Reach(Init(1, 0), [Begin(1)] + ([Go(1)] + ErrorRounds(n)));
            |s.txs| == 2 && s.txs[1].pc.Running? && s.txs[1].nretries == n && s.txs[1].mode.Revocable?
  {
    ReachCons(Init(1, 0), Begin(1), [Go(1)] + ErrorRounds(n));
    ReachCons(Next(Init(1, 0), Begin(1)), Go(1), ErrorRounds(n));
    var s := Next(Next(Init(1, 0), Begin(1)), Go(1));
    assert s == RunningAlone(0);
    RoundsRestart(0, n);
  }
}
