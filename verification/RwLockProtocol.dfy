/** Any number of threads on one lock, step by step (src/picotm-lib-rwlock.c, src/picotm-lib-rwstate.c). */
module RwLockProtocol {
  import opened Common
  import opened LockWord

  /** Where a thread stands; `m` is its local copy of the word. */
  datatype Pc =
    | Idle
    | Rdlock(m: Byte)
    | Wrlock(m: Byte)
    | Uplock(m: Byte)
    | Unlock(m: Byte)
    | Xchg(m: Byte, expected: nat, desired: nat)

  datatype Thread = Thread(status: LockStatus, pc: Pc)

  datatype State = State(n: Byte, threads: seq<Thread>)

  datatype Step =
    | StartRdlock(t: nat)
    | StartWrlock(t: nat)
    | StartUnlock(t: nat)
    | StartXchg(t: nat, expected: nat, desired: nat)
    | Continue(t: nat)

  predicate Enabled(s: State, step: Step) {
    && step.t < |s.threads|
    && var th := s.threads[step.t];
    match step
    case StartRdlock(_) => th.pc.Idle? && th.status.Unlocked?
    case StartWrlock(_) => th.pc.Idle? && !th.status.WrLocked?
    case StartUnlock(_) => th.pc.Idle? && !th.status.Unlocked?
    case StartXchg(_, expected, desired) => th.pc.Idle? && expected < COUNTER_SIZE && desired < COUNTER_SIZE
    case Continue(_) => !th.pc.Idle?
  }

  /** The word and the thread after the rest of one loop iteration: tests on the local copy, then at
      most one atomic read-modify-write of the word. */
  function Advance(n: Byte, th: Thread): (Byte, Thread)
    requires th.pc.Xchg? ==> th.pc.expected < COUNTER_SIZE && th.pc.desired < COUNTER_SIZE
  {
    match th.pc
    case Idle => (n, th)
    case Rdlock(m) =>
      if !CanRdlock(m) then (n, th.(pc := Idle))
      else if n == Pack(Counter(m), 0) then (Pack(Counter(m) + 1, 0), Thread(RdLocked, Idle))
      else (n, th.(pc := Rdlock(n)))
    case Wrlock(m) =>
      if !CanWrlock(m) then (n, th.(pc := Idle))
      else if n == Pack(0, 0) then (Pack(WRITER_COUNTER, 0), Thread(WrLocked, Idle))
      else (n, th.(pc := Wrlock(n)))
    case Uplock(m) =>
      if !CanUplock(m) then (n, th.(pc := Idle))
      else if n == Pack(1, Index(m)) then (Pack(WRITER_COUNTER, Index(m)), Thread(WrLocked, Idle))
      else if Counter(m) == Counter(n) then (n, th.(pc := Uplock(n)))
      else (n, th.(pc := Idle))
    case Unlock(m) =>
      (Minus(n, if Counter(m) == WRITER_COUNTER then WRITER_COUNTER else 1), Thread(Unlocked, Idle))
    case Xchg(m, expected, desired) =>
      if Index(m) != expected then (n, th.(pc := Idle))
      else if n == Pack(Counter(m), expected) then (Pack(Counter(m), desired), th.(pc := Idle))
      else if Index(n) != Index(m) then (n, th.(pc := Idle))
      else (n, th.(pc := Xchg(n, expected, desired)))
  }

  function Next(s: State, step: Step): State
    requires Enabled(s, step) && XchgsInRange(s)
  {
    var th := s.threads[step.t];
    match step
    case StartRdlock(t) => s.(threads := s.threads[t := th.(pc := Rdlock(s.n))])
    case StartWrlock(t) =>
      s.(threads := s.threads[t := th.(pc := if th.status.RdLocked? then Uplock(s.n) else Wrlock(s.n))])
    case StartUnlock(t) => s.(threads := s.threads[t := th.(pc := Unlock(s.n))])
    case StartXchg(t, expected, desired) => s.(threads := s.threads[t := th.(pc := Xchg(s.n, expected, desired))])
    case Continue(t) =>
      var (n', th') := Advance(s.n, th);
      State(n', s.threads[t := th'])
  }

  /** Waiter indices fit into four bits. */
  predicate XchgsInRange(s: State) {
    forall t :: 0 <= t < |s.threads| && s.threads[t].pc.Xchg? ==>
      s.threads[t].pc.expected < COUNTER_SIZE && s.threads[t].pc.desired < COUNTER_SIZE
  }

  datatype Result = Stuck | Reached(state: State)

  function Run(s: State, steps: seq<Step>): Result
    decreases |steps|
  {
    if !XchgsInRange(s) then Stuck
    else if steps == [] then Reached(s)
    else if !Enabled(s, steps[0]) then Stuck
    else Run(Next(s, steps[0]), steps[1..])
  }

  predicate Init(s: State) {
    s.n == 0 && forall t :: 0 <= t < |s.threads| ==> s.threads[t] == Thread(Unlocked, Idle)
  }

  function StatusesOf(threads: seq<Thread>): seq<LockStatus> {
    seq(|threads|, t requires 0 <= t < |threads| => threads[t].status)
  }

  /** How many threads have the given lock state. */
  function Holders(threads: seq<Thread>, status: LockStatus): nat {
    Count(StatusesOf(threads), status)
  }

  /** The counter tells exactly who holds the lock. */
  predicate CounterTells(s: State) {
    if Counter(s.n) == WRITER_COUNTER
    then Holders(s.threads, WrLocked) == 1 && Holders(s.threads, RdLocked) == 0
    else Holders(s.threads, WrLocked) == 0 && Holders(s.threads, RdLocked) == Counter(s.n)
  }

  predicate ThreadOk(th: Thread) {
    match th.pc
    case Idle => true
    case Rdlock(_) => th.status.Unlocked?
    case Wrlock(_) => th.status.Unlocked?
    case Uplock(m) => th.status.RdLocked?
    case Unlock(m) => !th.status.Unlocked? && (th.status.WrLocked? <==> Counter(m) == WRITER_COUNTER)
    case Xchg(_, _, _) => true
  }

  predicate Inv(s: State) {
    && XchgsInRange(s)
    && CounterTells(s)
    && forall t :: 0 <= t < |s.threads| ==> ThreadOk(s.threads[t])
  }

  lemma HolderSeesCounter(s: State, t: nat)
    requires CounterTells(s) && t < |s.threads|
    ensures s.threads[t].status.WrLocked? ==> Counter(s.n) == WRITER_COUNTER
    ensures s.threads[t].status.RdLocked? ==> 0 < Counter(s.n) < WRITER_COUNTER
  {
    CountPositive(StatusesOf(s.threads), t);
  }

  /** How the counter moves with the thread's own lock state. */
  predicate CounterMoves(c: nat, c': nat, status: LockStatus, status': LockStatus) {
    match (status, status')
    case (Unlocked, RdLocked) => c < 14 && c' == c + 1
    case (Unlocked, WrLocked) => c == 0 && c' == 15
    case (RdLocked, WrLocked) => c == 1 && c' == 15
    case (RdLocked, Unlocked) => 0 < c < 15 && c' == c - 1
    case (WrLocked, Unlocked) => c == 15 && c' == 0
    case (WrLocked, RdLocked) => false
    case _ => c' == c
  }

  lemma AdvanceMovesCounter(n: Byte, th: Thread)
    requires th.pc.Xchg? ==> th.pc.expected < COUNTER_SIZE && th.pc.desired < COUNTER_SIZE
    requires ThreadOk(th)
    requires th.status.WrLocked? ==> Counter(n) == WRITER_COUNTER
    requires th.status.RdLocked? ==> 0 < Counter(n) < WRITER_COUNTER
    ensures var (n', th') := Advance(n, th);
            && ThreadOk(th') && (th'.pc.Xchg? ==> th'.pc.expected < COUNTER_SIZE && th'.pc.desired < COUNTER_SIZE)
            && CounterMoves(Counter(n), Counter(n'), th.status, th'.status)
            && (th.pc.Xchg? || Index(n') == Index(n))
            && (th.pc.Xchg? ==> Counter(n') == Counter(n))
  {
    UnpackPack(n);
    match th.pc {
      case Unlock(m) => MinusKeepsIndex(n, if Counter(m) == WRITER_COUNTER then WRITER_COUNTER else 1);
      case Rdlock(m) => PackUnpack(Counter(m), 0); PackUnpack(if CanRdlock(m) then Counter(m) + 1 else 0, 0);
      case Wrlock(m) => PackUnpack(0, 0); PackUnpack(WRITER_COUNTER, 0);
      case Uplock(m) => PackUnpack(1, Index(m)); PackUnpack(WRITER_COUNTER, Index(m));
      case Xchg(m, expected, desired) => PackUnpack(Counter(m), expected); PackUnpack(Counter(m), desired);
      case Idle =>
    }
  }

  lemma StepKeepsInv(s: State, step: Step)
    requires Inv(s) && Enabled(s, step)
    ensures Inv(Next(s, step))
  {
    var t := step.t;
    var th, th' := s.threads[t], Next(s, step).threads[t];
    HolderSeesCounter(s, t);
    assert StatusesOf(s.threads[t := th']) == StatusesOf(s.threads)[t := th'.status];
    CountUpdate(StatusesOf(s.threads), t, th'.status, RdLocked);
    CountUpdate(StatusesOf(s.threads), t, th'.status, WrLocked);
    if step.Continue? {
      AdvanceMovesCounter(s.n, th);
    }
  }

  lemma {:induction false} RunKeepsInv(s: State, steps: seq<Step>)
    requires Inv(s) && Run(s, steps).Reached?
    ensures Inv(Run(s, steps).state)
    decreases |steps|
  {
    if steps != [] {
      StepKeepsInv(s, steps[0]);
      RunKeepsInv(Next(s, steps[0]), steps[1..]);
    }
  }

  lemma ReachableInv(s0: State, steps: seq<Step>)
    requires Init(s0) && Run(s0, steps).Reached?
    ensures Inv(Run(s0, steps).state)
  {
    CountNone(StatusesOf(s0.threads), RdLocked);
    CountNone(StatusesOf(s0.threads), WrLocked);
    RunKeepsInv(s0, steps);
  }

  /** In every reachable state the counter is 15 with exactly one writer and no reader, or it is the
      number of readers, at most 14, and there is no writer. */
  lemma CounterIsExact(s0: State, steps: seq<Step>)
    requires Init(s0) && Run(s0, steps).Reached?
    ensures var s := Run(s0, steps).state;
            var writers, readers := Holders(s.threads, WrLocked), Holders(s.threads, RdLocked);
            || (Counter(s.n) == 15 && writers == 1 && readers == 0)
            || (Counter(s.n) == readers <= 14 && writers == 0)
  {
    ReachableInv(s0, steps);
  }

  /** Mutual exclusion, thread by thread: a writer excludes every other holder. */
  lemma WriterIsAlone(s0: State, steps: seq<Step>, t: nat, u: nat)
    requires Init(s0) && Run(s0, steps).Reached?
    requires t < |Run(s0, steps).state.threads| && u < |Run(s0, steps).state.threads| && t != u
    requires Run(s0, steps).state.threads[t].status.WrLocked?
    ensures Run(s0, steps).state.threads[u].status.Unlocked?
  {
    ReachableInv(s0, steps);
    var s := Run(s0, steps).state;
    HolderSeesCounter(s, t);
    HolderSeesCounter(s, u);
    if s.threads[u].status.WrLocked? {
      CountTwo(StatusesOf(s.threads), if t < u then t else u, if t < u then u else t);
    }
  }

  /** An upgrade goes through only when the upgrading thread is the sole reader. */
  lemma UpgradeNeedsSoleReader(s0: State, steps: seq<Step>, t: nat, u: nat)
    requires Init(s0) && Run(s0, steps).Reached?
    requires t < |Run(s0, steps).state.threads| && u < |Run(s0, steps).state.threads| && t != u
    requires Run(s0, steps).state.threads[t].pc.Uplock?
    requires Advance(Run(s0, steps).state.n, Run(s0, steps).state.threads[t]).1.status.WrLocked?
    ensures Run(s0, steps).state.threads[u].status.Unlocked?
  {
    ReachableInv(s0, steps);
    var s := Run(s0, steps).state;
    PackUnpack(1, Index(s.threads[t].pc.m));
    HolderSeesCounter(s, u);
    if s.threads[u].status.RdLocked? {
      CountTwo(StatusesOf(s.threads), if t < u then t else u, if t < u then u else t);
    }
  }

  /** The assertions in the C code hold: an upgrading and an unlocking thread never find a zero
      counter, and the unlocking subtraction takes no more than the counter holds. */
  lemma AssertionsHold(s0: State, steps: seq<Step>, t: nat)
    requires Init(s0) && Run(s0, steps).Reached? && t < |Run(s0, steps).state.threads|
    ensures var s := Run(s0, steps).state;
            && (s.threads[t].status.RdLocked? || s.threads[t].status.WrLocked? ==> Counter(s.n) != 0)
            && (s.threads[t].pc.Unlock? ==>
                  Counter(s.n) >= if Counter(s.threads[t].pc.m) == WRITER_COUNTER then WRITER_COUNTER else 1)
  {
    ReachableInv(s0, steps);
    HolderSeesCounter(Run(s0, steps).state, t);
  }

  /** The two halves of the word are independent: lock operations never change the index, and
      exchanging the index never changes the counter. */
  lemma HalvesAreIndependent(s0: State, steps: seq<Step>, step: Step)
    requires Init(s0) && Run(s0, steps).Reached? && Enabled(Run(s0, steps).state, step) && step.Continue?
    requires XchgsInRange(Run(s0, steps).state)
    ensures var s := Run(s0, steps).state;
            var s' := Next(s, step);
            && (!s.threads[step.t].pc.Xchg? ==> Index(s'.n) == Index(s.n))
            && (s.threads[step.t].pc.Xchg? ==> Counter(s'.n) == Counter(s.n))
  {
    ReachableInv(s0, steps);
    var s := Run(s0, steps).state;
    var th := s.threads[step.t];
    HolderSeesCounter(s, step.t);
    AdvanceMovesCounter(s.n, th);
  }

  // ---------------------------------------------------------------------------------------------
  // What a thread gets when the others pause
  // ---------------------------------------------------------------------------------------------

  /** The first step of an operation, and the one iteration of its loop. */
  function Alone(s: State, start: Step): Result {
    Run(s, [start, Continue(start.t)])
  }

  lemma AloneRuns(s: State, start: Step)
    requires Inv(s) && Enabled(s, start) && !start.Continue?
    ensures Alone(s, start) == Reached(Next(Next(s, start), Continue(start.t))) && Inv(Alone(s, start).state)
  {
    var s1, rest := Next(s, start), [Continue(start.t)];
    StepKeepsInv(s, start);
    StepKeepsInv(s1, Continue(start.t));
    assert [start, Continue(start.t)][1..] == rest && rest[1..] == [];
    assert Run(s1, rest) == Reached(Next(s1, Continue(start.t)));
  }

  /** A thread that tries for a reader lock gets it exactly if there are less than 14 readers, no writer and no
      waiter; otherwise the word stays as it is. */
  lemma RdlockAlone(s: State, t: nat)
    requires Inv(s) && Enabled(s, StartRdlock(t))
    ensures var r := Alone(s, StartRdlock(t));
            && r.Reached?
            && if Counter(s.n) < 14 && Index(s.n) == 0
               then r.state.n == s.n + 1 && r.state.threads == s.threads[t := Thread(RdLocked, Idle)]
               else r.state == s
  {
    AloneRuns(s, StartRdlock(t));
    UnpackPack(s.n);
  }

  /** A writer lock, exactly if nobody holds the lock or waits for it. */
  lemma WrlockAlone(s: State, t: nat)
    requires Inv(s) && Enabled(s, StartWrlock(t)) && s.threads[t].status.Unlocked?
    ensures var r := Alone(s, StartWrlock(t));
            && r.Reached?
            && if Counter(s.n) == 0 && Index(s.n) == 0
               then r.state.n == 15 && r.state.threads == s.threads[t := Thread(WrLocked, Idle)]
               else r.state == s
  {
    AloneRuns(s, StartWrlock(t));
    UnpackPack(s.n);
  }

  /** A reader gets the writer lock exactly if it is the only reader, whoever waits. */
  lemma UplockAlone(s: State, t: nat)
    requires Inv(s) && Enabled(s, StartWrlock(t)) && s.threads[t].status.RdLocked?
    ensures var r := Alone(s, StartWrlock(t));
            && r.Reached?
            && if Counter(s.n) == 1
               then Counter(r.state.n) == 15 && Index(r.state.n) == Index(s.n)
                    && r.state.threads == s.threads[t := Thread(WrLocked, Idle)]
               else r.state == s
  {
    AloneRuns(s, StartWrlock(t));
    UnpackPack(s.n);
    PackUnpack(WRITER_COUNTER, Index(s.n));
  }

  /** Unlocking gives back what the thread held, and no more. */
  lemma UnlockAlone(s: State, t: nat)
    requires Inv(s) && Enabled(s, StartUnlock(t))
    ensures var r := Alone(s, StartUnlock(t));
            && r.Reached? && r.state.threads == s.threads[t := Thread(Unlocked, Idle)]
            && Index(r.state.n) == Index(s.n)
            && Counter(r.state.n) == if s.threads[t].status.WrLocked? then 0 else Counter(s.n) - 1
  {
    AloneRuns(s, StartUnlock(t));
    HolderSeesCounter(s, t);
    MinusKeepsIndex(s.n, if Counter(s.n) == WRITER_COUNTER then WRITER_COUNTER else 1);
  }

  /** The index is exchanged exactly if it is the expected one. */
  lemma XchgAlone(s: State, t: nat, expected: nat, desired: nat)
    requires Inv(s) && Enabled(s, StartXchg(t, expected, desired))
    ensures var r := Alone(s, StartXchg(t, expected, desired));
            && r.Reached? && r.state.threads == s.threads && Counter(r.state.n) == Counter(s.n)
            && Index(r.state.n) == if Index(s.n) == expected then desired else Index(s.n)
  {
    AloneRuns(s, StartXchg(t, expected, desired));
    UnpackPack(s.n);
    PackUnpack(Counter(s.n), desired);
  }
}
