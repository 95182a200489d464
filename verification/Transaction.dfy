/** One transaction's engine: its calls to the modules and events, in order (src/picotm_tx.c, src/picotm_event.c). */
module Transaction {
  import opened Engine
  import TxLib

  /** A log entry: the module that is to handle it, and what it gets to see. */
  datatype Event = Event(module_: nat, head: nat, tail: nat)

  /** A call out of the engine. */
  datatype Call =
    | WaitIrrevocable | MakeIrrevocable | ReleaseIrrevocability
    | BeginModule(m: nat) | PrepareCommit(m: nat, irrevocable: bool)
    | ApplyModule(m: nat) | UndoModule(m: nat) | FinishModule(m: nat)
    | ApplyEvent(event: Event) | UndoEvent(event: Event)

  /** What a walk calls for module m. */
  datatype Walk = Begins | Prepares(irrevocable: bool) | Applies | Undoes | Finishes

  function CallFor(walk: Walk, m: nat): Call {
    match walk
    case Begins => BeginModule(m)
    case Prepares(irrevocable) => PrepareCommit(m, irrevocable)
    case Applies => ApplyModule(m)
    case Undoes => UndoModule(m)
    case Finishes => FinishModule(m)
  }

  /** The calls of a walk over the first n modules. */
  function Calls(walk: Walk, n: nat): (r: seq<Call>)
    ensures |r| == n
  {
    seq(n, m requires 0 <= m < n => CallFor(walk, m))
  }

  function ApplyCalls(log: seq<Event>): (r: seq<Call>)
    ensures |r| == |log|
  {
    seq(|log|, i requires 0 <= i < |log| => ApplyEvent(log[i]))
  }

  /** Events are undone last to first. */
  function UndoCalls(log: seq<Event>): (r: seq<Call>)
    ensures |r| == |log|
  {
    seq(|log|, i requires 0 <= i < |log| => UndoEvent(log[|log| - 1 - i]))
  }

  /** All calls of a commit that meets no error, up to the release of irrevocability. */
  function CommitCalls(modules: nat, irrevocable: bool, log: seq<Event>): seq<Call> {
    Calls(Prepares(irrevocable), modules) + (Calls(Applies, modules) + (ApplyCalls(log) + Calls(Finishes, modules)))
  }

  function RollbackCalls(modules: nat, log: seq<Event>): seq<Call> {
    Calls(Undoes, modules) + (UndoCalls(log) + Calls(Finishes, modules))
  }

  // ---------------------------------------------------------------------------------------------
  // Which call stands at which place: what the methods below promise, call by call
  // ---------------------------------------------------------------------------------------------

  /** The k-th call of a commit of n modules. */
  function CommitPlace(k: nat, n: nat, irrevocable: bool, log: seq<Event>): Call {
    if k < n then PrepareCommit(k, irrevocable)
    else if k < n + n then ApplyModule(k - n)
    else if k < n + n + |log| then ApplyEvent(log[k - n - n])
    else if k < n + n + |log| + n then FinishModule(k - n - n - |log|)
    else ReleaseIrrevocability
  }

  /** The k-th call of a rollback. */
  function RollbackPlace(k: nat, n: nat, log: seq<Event>): Call {
    if k < n then UndoModule(k)
    else if k < n + |log| then UndoEvent(log[|log| - 1 - (k - n)])
    else if k < n + |log| + n then FinishModule(k - n - |log|)
    else ReleaseIrrevocability
  }

  /** The k-th call of a begin: `begun` modules are called to begin, and after that `finished` of them to finish, if
      the last one fails. */
  function BeginPlace(k: nat, irrevocable: bool, begun: nat, finished: nat): Call {
    if k == 0 then (if irrevocable then MakeIrrevocable else WaitIrrevocable)
    else if k <= begun then BeginModule(k - 1)
    else if k <= begun + finished then FinishModule(k - begun - 1)
    else ReleaseIrrevocability
  }

  /** `b` begins with the first k elements of `full` behind `a`. */
  ghost predicate Continues(a: seq<Call>, b: seq<Call>, full: seq<Call>, k: nat) {
    k <= |full| && b == a + full[..k]
  }

  /** A phase that was gone through and the one behind it. */
  lemma ContinuesBy(a: seq<Call>, b: seq<Call>, c: seq<Call>, first: seq<Call>, rest: seq<Call>, k: nat)
    requires Continues(a, b, first, |first|) && Continues(b, c, rest, k)
    ensures Continues(a, c, first + rest, |first| + k)
  {
    assert (first + rest)[..|first| + k] == first + rest[..k];
  }

  lemma ContinuesPartly(a: seq<Call>, b: seq<Call>, first: seq<Call>, rest: seq<Call>, k: nat)
    requires Continues(a, b, first, k)
    ensures Continues(a, b, first + rest, k)
  {
    assert (first + rest)[..k] == first[..k];
  }

  /** All calls of a commit have been made, or some, each in its place. */
  ghost predicate CommitTrace(before: seq<Call>, after: seq<Call>, n: nat, irrevocable: bool, log: seq<Event>,
                              complete: bool)
  {
    && before <= after
    && var made := after[|before|..];
       && (if complete then |made| == n + n + |log| + n + 1 else 0 < |made| <= n + n + |log| + n)
       && forall i :: 0 <= i < |made| ==> made[i] == CommitPlace(i, n, irrevocable, log)
  }

  /** The same for a rollback, the last call aside. */
  ghost predicate RollbackTrace(before: seq<Call>, after: seq<Call>, n: nat, log: seq<Event>, complete: bool) {
    && before <= after
    && var made := after[|before|..];
       && (if complete then |made| == n + |log| + n else 0 < |made| <= n + |log| + n)
       && forall i :: 0 <= i < |made| ==> made[i] == RollbackPlace(i, n, log)
  }

  /** The same for a begin. */
  ghost predicate BeginTrace(before: seq<Call>, after: seq<Call>, irrevocable: bool, begun: nat, finished: nat,
                             released: bool)
  {
    && before <= after
    && var made := after[|before|..];
       && |made| == 1 + begun + finished + (if released then 1 else 0)
       && forall i :: 0 <= i < |made| ==> made[i] == BeginPlace(i, irrevocable, begun, finished)
  }

  /** The part behind the point of no return follows the preparation. */
  lemma CommitFollows(a: seq<Call>, b: seq<Call>, c: seq<Call>, n: nat, irrevocable: bool, log: seq<Event>, k: nat,
                      error: bool)
    requires Continues(a, b, Calls(Prepares(irrevocable), n), n)
    requires var rest := Calls(Applies, n) + (ApplyCalls(log) + Calls(Finishes, n));
             if error then Continues(b, c, rest, k)
             else k == |rest| && c != [] && c[|c| - 1] == ReleaseIrrevocability && Continues(b, c[..|c| - 1], rest, k)
    ensures var full := CommitCalls(n, irrevocable, log);
            if error then Continues(a, c, full, n + k) else c == a + full + [ReleaseIrrevocability]
  {
    var rest := Calls(Applies, n) + (ApplyCalls(log) + Calls(Finishes, n));
    ContinuesBy(a, b, if error then c else c[..|c| - 1], Calls(Prepares(irrevocable), n), rest, k);
    assert !error ==> c == c[..|c| - 1] + [ReleaseIrrevocability];
  }

  lemma CommitMade(a: seq<Call>, b: seq<Call>, n: nat, irrevocable: bool, log: seq<Event>, k: nat, complete: bool)
    requires complete ==> b == a + CommitCalls(n, irrevocable, log) + [ReleaseIrrevocability]
    requires !complete ==> Continues(a, b, CommitCalls(n, irrevocable, log), k) && 0 < k
    ensures CommitTrace(a, b, n, irrevocable, log, complete)
  {
  }

  /** What a begin calls if it succeeds, and what if an error stops it at the exclusion lock, or at a module, or a
      second one when it finishes those that have begun. */
  ghost predicate BeginTraces(before: seq<Call>, after: seq<Call>, mode: Mode, n: nat, begun: nat, finished: nat,
                              error: bool, nonRecoverable: bool)
  {
    if !error then BeginTrace(before, after, mode.Irrevocable?, n, 0, false)
    else if |after| == |before| + 1 then BeginTrace(before, after, mode.Irrevocable?, 0, 0, false)
    else if nonRecoverable then BeginTrace(before, after, mode.Irrevocable?, begun + 1, finished + 1, false)
    else BeginTrace(before, after, mode.Irrevocable?, begun + 1, begun, true)
  }

  /** The calls of a begin that was let in: so many modules have begun, and so many were finished again. */
  ghost predicate Begun(a: seq<Call>, b: seq<Call>, mode: Mode, n: nat, begun: nat, finished: nat, error: bool,
                        nonRecoverable: bool)
  {
    && begun <= n && (error <==> begun < n) && finished <= begun && (nonRecoverable ==> error && finished < begun)
    && b == a + [if mode.Irrevocable? then MakeIrrevocable else WaitIrrevocable]
            + if !error then Calls(Begins, n)
              else Calls(Begins, n)[..begun + 1]
                   + (Calls(Finishes, begun)[..if nonRecoverable then finished + 1 else begun]
                      + if nonRecoverable then [] else [ReleaseIrrevocability])
  }

  lemma BeginPlaced(a: seq<Call>, b: seq<Call>, irrevocable: bool, first: seq<Call>, again: seq<Call>, last: seq<Call>)
    requires forall i :: 0 <= i < |first| ==> first[i] == BeginModule(i)
    requires forall i :: 0 <= i < |again| ==> again[i] == FinishModule(i)
    requires last == [] || last == [ReleaseIrrevocability]
    requires b == a + [if irrevocable then MakeIrrevocable else WaitIrrevocable] + (first + (again + last))
    ensures BeginTrace(a, b, irrevocable, |first|, |again|, last != [])
  {
  }

  lemma BeginMade(a: seq<Call>, b: seq<Call>, mode: Mode, n: nat, begun: nat, finished: nat, error: bool,
                  nonRecoverable: bool)
    requires Begun(a, b, mode, n, begun, finished, error, nonRecoverable)
    ensures BeginTraces(a, b, mode, n, begun, finished, error, nonRecoverable)
  {
    if error {
      var first := Calls(Begins, n)[..begun + 1];
      var again := Calls(Finishes, begun)[..if nonRecoverable then finished + 1 else begun];
      BeginPlaced(a, b, mode.Irrevocable?, first, again, if nonRecoverable then [] else [ReleaseIrrevocability]);
    } else {
      assert Calls(Begins, n) == Calls(Begins, n) + ([] + []);
      BeginPlaced(a, b, mode.Irrevocable?, Calls(Begins, n), [], []);
    }
  }

  lemma RollbackCompleted(a: seq<Call>, b: seq<Call>, n: nat, log: seq<Event>)
    requires b == a + RollbackCalls(n, log)
    ensures RollbackTrace(a, b, n, log, true)
  {
  }

  lemma RollbackStopped(a: seq<Call>, b: seq<Call>, n: nat, log: seq<Event>, k: nat)
    requires Continues(a, b, RollbackCalls(n, log), k) && 0 < k
    ensures RollbackTrace(a, b, n, log, false)
  {
  }

  class PicotmTx {
    var mode: Mode
    var nretries: nat
    var nmodules: nat
    var log: seq<Event>
    var calls: seq<Call>

    constructor ()
      ensures mode == Revocable && nretries == 0 && nmodules == 0 && log == [] && calls == []
    {
      mode, nretries, nmodules, log, calls := Revocable, 0, 0, [], [];
    }

    /** picotm_tx_register_module. */
    method RegisterModule() returns (m: nat)
      modifies this`nmodules
      ensures m == old(nmodules) && nmodules == m + 1
    {
      m := nmodules;
      nmodules := m + 1;
    }

    /** picotm_tx_append_event. */
    method AppendEvent(event: Event)
      modifies this`log
      ensures log == old(log) + [event]
    {
      log := log + [event];
    }

    /** A call, which may report an error. */
    method Do(call: Call) returns (error: bool)
      modifies this`calls
      ensures calls == old(calls) + [call]
    {
      calls := calls + [call];
      error := *;
    }

    /** tabwalk over the modules: stops behind the first call that fails. `done` is what it returns. */
    method WalkModules(walk: Walk, n: nat) returns (error: bool, done: nat)
      modifies this`calls
      ensures done <= n && (error <==> done < n)
      ensures Continues(old(calls), calls, Calls(walk, n), if error then done + 1 else n)
    {
      error, done := false, 0;
      while done < n
        invariant done <= n && Continues(old(calls), calls, Calls(walk, n), done)
      {
        error := Do(CallFor(walk, done));
        assert Calls(walk, n)[..done + 1] == Calls(walk, n)[..done] + [CallFor(walk, done)];
        if error {
          return;
        }
        done := done + 1;
      }
    }

    /** picotm_events_foreach1 with apply_event, and clearing the log. */
    method ApplyEvents() returns (error: bool, ghost k: nat)
      modifies this`calls, this`log
      ensures Continues(old(calls), calls, ApplyCalls(old(log)), k) && log == []
      ensures (k < |old(log)| ==> error) && (error ==> 0 < k)
    {
      error := false;
      var pos := 0;
      while pos < |log| && !error
        invariant log == old(log) && pos <= |log| && Continues(old(calls), calls, ApplyCalls(log), pos)
        invariant error ==> 0 < pos
      {
        assert ApplyCalls(log)[..pos + 1] == ApplyCalls(log)[..pos] + [ApplyEvent(log[pos])];
        error := Do(ApplyEvent(log[pos]));
        pos := pos + 1;
      }
      assert pos < |log| ==> error;
      k := pos;
      log := [];
    }

    /** picotm_events_rev_foreach1 with undo_event, and clearing the log. */
    method UndoEvents() returns (error: bool, ghost k: nat)
      modifies this`calls, this`log
      ensures Continues(old(calls), calls, UndoCalls(old(log)), k) && log == []
      ensures (k < |old(log)| ==> error) && (error ==> 0 < k)
    {
      error := false;
      var pos := |log|;
      while 0 < pos && !error
        invariant log == old(log) && pos <= |log| && Continues(old(calls), calls, UndoCalls(log), |log| - pos)
        invariant error ==> pos < |log|
      {
        pos := pos - 1;
        assert UndoCalls(log)[..|log| - pos] == UndoCalls(log)[..|log| - pos - 1] + [UndoEvent(log[pos])];
        error := Do(UndoEvent(log[pos]));
      }
      k := |log| - pos;
      log := [];
    }

    /** picotm_tx_begin. The new mode and counter are in place only when the exclusion lock is held; if a
        module fails to begin, those that have begun are finished again and the exclusion lock is released,
        unless finishing fails as well, which cannot be recovered from. */
    method Begin(start: Start) returns (error: bool, nonRecoverable: bool, ghost begun: nat, ghost finished: nat)
      requires log == []
      modifies this`mode, this`nretries, this`calls
      ensures var n := if start.FirstStart? then 0 else old(nretries) + 1;
              var entered := old(calls) + [if ModeOf(start, n).Irrevocable? then MakeIrrevocable else WaitIrrevocable];
              if error && calls == entered then mode == old(mode) && nretries == old(nretries) && !nonRecoverable
              else
                && nretries == n && mode == ModeOf(start, n)
                && Begun(old(calls), calls, mode, nmodules, begun, finished, error, nonRecoverable)
      ensures BeginTraces(old(calls), calls, ModeOf(start, if start.FirstStart? then 0 else old(nretries) + 1),
                          nmodules, begun, finished, error, nonRecoverable)
    {
      nonRecoverable, begun, finished := false, 0, 0;
      var n := if start.FirstStart? then 0 else nretries + 1;
      var newMode := ModeOf(start, n);
      error := Do(if newMode.Irrevocable? then MakeIrrevocable else WaitIrrevocable);
      if error {
        return;
      }
      nretries, mode := n, newMode;
      var done;
      error, done := WalkModules(Begins, nmodules);
      begun, finished := done, done;
      if error {
        nonRecoverable, done := WalkModules(Finishes, done);
        finished := done;
        if !nonRecoverable {
          calls := calls + [ReleaseIrrevocability];
        }
      }
      assert Begun(old(calls), calls, newMode, nmodules, begun, finished, error, nonRecoverable);
      BeginMade(old(calls), calls, newMode, nmodules, begun, finished, error, nonRecoverable);
    }

    /** picotm_tx_commit: prepares all modules, applies them, applies the log in order, finishes all modules,
        and releases irrevocability. The first error stops that, and is recoverable as long as the modules are
        only being prepared; the log is gone as soon as its events have been walked. */
    method Commit() returns (error: bool, nonRecoverable: bool, ghost k: nat)
      modifies this`calls, this`log
      ensures var full := CommitCalls(nmodules, mode.Irrevocable?, old(log));
              && (!error ==> calls == old(calls) + full + [ReleaseIrrevocability])
              && (error ==> Continues(old(calls), calls, full, k) && (nonRecoverable <==> k > nmodules))
              && (log == if k <= 2 * nmodules && error then old(log) else [])
      ensures CommitTrace(old(calls), calls, nmodules, mode.Irrevocable?, old(log), !error)
    {
      ghost var c0, irrevocable := calls, mode.Irrevocable?;
      nonRecoverable := false;
      var done;
      error, done := WalkModules(Prepares(mode.Irrevocable?), nmodules);
      k := if error then done + 1 else nmodules;
      ghost var c1 := calls;
      if error {
        ContinuesPartly(c0, c1, Calls(Prepares(irrevocable), nmodules),
                        Calls(Applies, nmodules) + (ApplyCalls(log) + Calls(Finishes, nmodules)), k);
      } else {
        error, k, nonRecoverable := ApplyAndFinish();
        CommitFollows(c0, c1, calls, nmodules, irrevocable, old(log), k, error);
        k := nmodules + k;
      }
      CommitMade(old(calls), calls, nmodules, mode.Irrevocable?, old(log), k, !error);
    }

    /** The part of a commit behind the point of no return. */
    method ApplyAndFinish() returns (error: bool, ghost k: nat, nonRecoverable: bool)
      modifies this`calls, this`log
      ensures var full := Calls(Applies, nmodules) + (ApplyCalls(old(log)) + Calls(Finishes, nmodules));
              && nonRecoverable == error && (error ==> 0 < k && Continues(old(calls), calls, full, k))
              && (!error ==> k == |full| && |calls| > 0 && calls[|calls| - 1] == ReleaseIrrevocability
                             && Continues(old(calls), calls[..|calls| - 1], full, k))
              && (log == if k <= nmodules && error then old(log) else [])
    {
      ghost var n, rest := nmodules, ApplyCalls(log) + Calls(Finishes, nmodules);
      ghost var c0, apply := calls, Calls(Applies, n);
      var done;
      error, done := WalkModules(Applies, nmodules);
      ghost var c1 := calls;
      if error {
        k := done + 1;
        ContinuesPartly(c0, c1, apply, rest, k);
      } else {
        error, k := WalkLogAndFinish(false);
        ContinuesBy(c0, c1, calls, apply, rest, k);
        k := n + k;
      }
      nonRecoverable := error;
      if !error {
        Release();
      }
    }

    /** picotm_lock_manager_release_irrevocability. */
    method Release()
      modifies this`calls
      ensures |calls| > 0 && calls[|calls| - 1] == ReleaseIrrevocability && calls[..|calls| - 1] == old(calls)
    {
      calls := calls + [ReleaseIrrevocability];
    }

    /** Walks the log, forwards to apply it or backwards to undo it, and finishes the modules. */
    method WalkLogAndFinish(undo: bool) returns (error: bool, ghost k: nat)
      modifies this`calls, this`log
      ensures var full := (if undo then UndoCalls(old(log)) else ApplyCalls(old(log))) + Calls(Finishes, nmodules);
              Continues(old(calls), calls, full, k) && (if error then 0 < k else k == |full|)
      ensures log == []
    {
      ghost var c0, walk := calls, if undo then UndoCalls(log) else ApplyCalls(log);
      if undo {
        error, k := UndoEvents();
      } else {
        error, k := ApplyEvents();
      }
      ghost var c1 := calls;
      if error {
        ContinuesPartly(c0, c1, walk, Calls(Finishes, nmodules), k);
      } else {
        var done;
        error, done := WalkModules(Finishes, nmodules);
        k := if error then done + 1 else nmodules;
        ContinuesBy(c0, c1, calls, walk, Calls(Finishes, nmodules), k);
        k := |walk| + k;
      }
    }

    /** picotm_tx_rollback: undoes all modules, undoes the log backwards, finishes all modules. The first error
        stops that and cannot be recovered from; irrevocability is released in any case. */
    method Rollback() returns (error: bool, nonRecoverable: bool, ghost k: nat)
      modifies this`calls, this`log
      ensures nonRecoverable == error && |calls| > 0 && calls[|calls| - 1] == ReleaseIrrevocability
      ensures Continues(old(calls), calls[..|calls| - 1], RollbackCalls(nmodules, old(log)), k)
      ensures !error ==> k == |RollbackCalls(nmodules, old(log))|
      ensures log == if k <= nmodules && error then old(log) else []
      ensures RollbackTrace(old(calls), calls[..|calls| - 1], nmodules, old(log), !error)
    {
      ghost var log0 := log;
      ghost var c0, undo, rest := calls, Calls(Undoes, nmodules), UndoCalls(log) + Calls(Finishes, nmodules);
      var done;
      error, done := WalkModules(Undoes, nmodules);
      ghost var c1 := calls;
      if error {
        k := done + 1;
        ContinuesPartly(c0, c1, undo, rest, k);
      } else {
        error, k := WalkLogAndFinish(true);
        ContinuesBy(c0, c1, calls, undo, rest, k);
        k := nmodules + k;
      }
      if error {
        RollbackStopped(c0, calls, nmodules, log0, k);
      } else {
        RollbackCompleted(c0, calls, nmodules, log0);
      }
      nonRecoverable := error;
      Release();
    }
  }

  // ---------------------------------------------------------------------------------------------
  // What the order of the calls means
  // ---------------------------------------------------------------------------------------------

  /** Until all modules and all events have been applied, no module is finished; so locks that a module
      releases when it is finished cover everything the transaction writes. */
  lemma AppliedBeforeFinished(modules: nat, irrevocable: bool, log: seq<Event>, i: nat, j: nat)
    requires var full := CommitCalls(modules, irrevocable, log);
             && j < |full| && i < |full| && full[i].FinishModule?
             && (full[j].ApplyModule? || full[j].ApplyEvent? || full[j].PrepareCommit?)
    ensures j < i
  {
  }

  // ---------------------------------------------------------------------------------------------
  // What the calls do to the structures of the txlib module
  // ---------------------------------------------------------------------------------------------

  /** A call into module m, which looks up its own event by the number it has put into the log. */
  function Effect(lib: TxLib.Lib, events: seq<TxLib.Event>, m: nat, call: Call): TxLib.Lib {
    match call
    case ApplyEvent(e) => if e.module_ == m && e.tail < |events| then TxLib.Apply(lib, events[e.tail]) else lib
    case UndoEvent(e) => if e.module_ == m && e.tail < |events| then TxLib.Undo(lib, events[e.tail]) else lib
    case _ => lib
  }

  function Effects(lib: TxLib.Lib, events: seq<TxLib.Event>, m: nat, calls: seq<Call>): TxLib.Lib {
    if calls == [] then lib
    else Effect(Effects(lib, events, m, calls[..|calls| - 1]), events, m, calls[|calls| - 1])
  }

  /** The log lists the events of module m from the k-th to the last in order, among entries of others. */
  predicate Logged(log: seq<Event>, m: nat, k: nat, n: nat) {
    if log == [] then k == n
    else if log[0].module_ == m then log[0].tail == k && k < n && Logged(log[1..], m, k + 1, n)
    else Logged(log[1..], m, k, n)
  }

  /** txlib_tx_append_events numbers its events as they come; other modules may log in between. */
  lemma {:induction false} AppendLogged(log: seq<Event>, m: nat, k: nat, n: nat, event: Event)
    requires Logged(log, m, k, n) && (event.module_ == m ==> event.tail == n)
    ensures Logged(log + [event], m, k, if event.module_ == m then n + 1 else n)
    decreases |log|
  {
    if log == [] {
      assert ([event])[1..] == [];
    } else {
      assert (log + [event])[1..] == log[1..] + [event];
      AppendLogged(log[1..], m, if log[0].module_ == m then k + 1 else k, n, event);
    }
  }

  lemma {:induction false} EffectsOfBoth(lib: TxLib.Lib, events: seq<TxLib.Event>, m: nat, a: seq<Call>, b: seq<Call>)
    ensures Effects(lib, events, m, a + b) == Effects(Effects(lib, events, m, a), events, m, b)
    decreases |b|
  {
    if b == [] {
      assert a + b == a;
    } else {
      assert (a + b)[..|a + b| - 1] == a + b[..|b| - 1];
      EffectsOfBoth(lib, events, m, a, b[..|b| - 1]);
    }
  }

  lemma {:induction false} WalksHaveNoEffect(lib: TxLib.Lib, events: seq<TxLib.Event>, m: nat, walk: Walk, n: nat)
    ensures Effects(lib, events, m, Calls(walk, n)) == lib
  {
    if n > 0 {
      assert Calls(walk, n)[..n - 1] == Calls(walk, n - 1);
      WalksHaveNoEffect(lib, events, m, walk, n - 1);
    }
  }

  lemma {:induction false} ForwardEffects(lib: TxLib.Lib, events: seq<TxLib.Event>, m: nat, log: seq<Event>, k: nat)
    requires k <= |events| && Logged(log, m, k, |events|)
    ensures Effects(lib, events, m, ApplyCalls(log)) == TxLib.ApplyAll(lib, events[k..])
    decreases |log|
  {
    if log != [] {
      var call := ApplyEvent(log[0]);
      assert ApplyCalls(log) == [call] + ApplyCalls(log[1..]);
      EffectsOfBoth(lib, events, m, [call], ApplyCalls(log[1..]));
      assert [call][..0] == [];
      ForwardEffects(Effect(lib, events, m, call), events, m, log[1..], if log[0].module_ == m then k + 1 else k);
    }
  }

  lemma {:induction false} BackwardEffects(lib: TxLib.Lib, events: seq<TxLib.Event>, m: nat, log: seq<Event>, k: nat)
    requires k <= |events| && Logged(log, m, k, |events|)
    ensures Effects(lib, events, m, UndoCalls(log)) == TxLib.UndoAll(lib, events[k..])
    decreases |log|
  {
    if log != [] {
      var call := UndoEvent(log[0]);
      assert UndoCalls(log) == UndoCalls(log[1..]) + [call];
      EffectsOfBoth(lib, events, m, UndoCalls(log[1..]), [call]);
      assert [call][..0] == [];
      BackwardEffects(lib, events, m, log[1..], if log[0].module_ == m then k + 1 else k);
    }
  }

  /** A commit without errors leaves the queues, stacks, lists and multisets as if the transaction's operations
      had been run directly, whatever other modules have logged in between; ... */
  lemma CommitTakesEffect(lib: TxLib.Lib, ops: seq<TxLib.Op>, m: nat, log: seq<Event>, modules: nat, irrevocable: bool)
    requires TxLib.LegalRun(lib, ops) && TxLib.Published(lib)
    requires Logged(log, m, 0, |TxLib.Run(lib, ops).1|)
    ensures var (after, events) := TxLib.Run(lib, ops);
            && TxLib.DirectLegalRun(lib, ops)
            && Effects(after, events, m, CommitCalls(modules, irrevocable, log)) == TxLib.DirectRun(lib, ops)
  {
    var (after, events) := TxLib.Run(lib, ops);
    var prepare, apply, finish :=
      Calls(Prepares(irrevocable), modules), Calls(Applies, modules), Calls(Finishes, modules);
    EffectsOfBoth(after, events, m, prepare, apply + (ApplyCalls(log) + finish));
    WalksHaveNoEffect(after, events, m, Prepares(irrevocable), modules);
    EffectsOfBoth(after, events, m, apply, ApplyCalls(log) + finish);
    WalksHaveNoEffect(after, events, m, Applies, modules);
    EffectsOfBoth(after, events, m, ApplyCalls(log), finish);
    ForwardEffects(after, events, m, log, 0);
    assert events[0..] == events;
    WalksHaveNoEffect(TxLib.ApplyAll(after, events), events, m, Finishes, modules);
    TxLib.CommitIsDirect(lib, ops);
  }

  /** ... and a rollback without errors leaves them as they were before. */
  lemma RollbackTakesEffect(lib: TxLib.Lib, ops: seq<TxLib.Op>, m: nat, log: seq<Event>, modules: nat)
    requires TxLib.LegalRun(lib, ops) && TxLib.WellFormed(lib)
    requires Logged(log, m, 0, |TxLib.Run(lib, ops).1|)
    ensures var (after, events) := TxLib.Run(lib, ops);
            Effects(after, events, m, RollbackCalls(modules, log)) == lib
  {
    var (after, events) := TxLib.Run(lib, ops);
    var undo, finish := Calls(Undoes, modules), Calls(Finishes, modules);
    EffectsOfBoth(after, events, m, undo, UndoCalls(log) + finish);
    WalksHaveNoEffect(after, events, m, Undoes, modules);
    EffectsOfBoth(after, events, m, UndoCalls(log), finish);
    BackwardEffects(after, events, m, log, 0);
    assert events[0..] == events;
    WalksHaveNoEffect(TxLib.UndoAll(after, events), events, m, Finishes, modules);
    TxLib.UndoRestores(lib, ops);
  }
}
