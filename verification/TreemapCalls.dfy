/** The calls that a run of the shared tree map is asked for, and their results (src/picotm-lib-shared-treemap.c). */
module TreemapCalls {
  import opened Common
  import opened Radix
  import opened SharedTreemap

  /** The position in the list of actions of the call that a thread has under way. */
  datatype Underway = NoCall | CallAt(i: nat)

  // ---------------------------------------------------------------------------------------------
  // What a run is asked for: these functions look at the list of actions, and when a thread returned
  // ---------------------------------------------------------------------------------------------

  /** The last action of the run has made a call return. */
  predicate Returns(s0: State, actions: seq<Action>)
    requires s0.b > 0 && actions != []
  {
    |Reach(s0, actions).results| > |Reach(s0, actions[..|actions| - 1]).results|
  }

  /** A call is accepted if its key fits and its thread has no call under way; it is under way until the thread
      returns. */
  function Open(s0: State, actions: seq<Action>, t: nat): Underway
    requires s0.b > 0
  {
    if actions == [] then NoCall
    else
      var most, last := actions[..|actions| - 1], actions[|actions| - 1];
      var open := Open(s0, most, t);
      if last.t != t then open
      else if last.Run? then (if Returns(s0, actions) then NoCall else open)
      else if open.NoCall? && Accepts(s0, last) then CallAt(|most|)
      else open
  }

  predicate Accepts(s0: State, call: Action)
    requires s0.b > 0
  {
    call.Call? && call.t < |s0.pcs| && Prefix(call.key, s0.depth, s0.b) == 0
  }

  predicate Accepted(s0: State, actions: seq<Action>, i: nat)
    requires s0.b > 0
  {
    i < |actions| && Accepts(s0, actions[i]) && Open(s0, actions[..i], actions[i].t).NoCall?
  }

  /** The positions of the calls that have returned, in the order in which they did. */
  function Answered(s0: State, actions: seq<Action>): seq<nat>
    requires s0.b > 0
  {
    if actions == [] then []
    else
      var most, last := actions[..|actions| - 1], actions[|actions| - 1];
      var open := Open(s0, most, last.t);
      Answered(s0, most) + if last.Run? && Returns(s0, actions) && open.CallAt? then [open.i] else []
  }

  // ---------------------------------------------------------------------------------------------
  // What the threads and the results show
  // ---------------------------------------------------------------------------------------------

  predicate Follows(pc: Pc, key: nat, create: bool) {
    match pc
    case Idle => false
    case Failed => false
    case Read(k, c, _, _) => k == key && c == create
    case _ => pc.key == key && create
  }

  ghost predicate ThreadAsked(s0: State, actions: seq<Action>, t: nat, pc: Pc)
    requires s0.b > 0
  {
    match Open(s0, actions, t)
    case NoCall => pc.Idle?
    case CallAt(i) =>
      && Accepted(s0, actions, i) && actions[i].t == t && Follows(pc, actions[i].key, actions[i].create)
      && i !in Answered(s0, actions)
  }

  /** The result is that of the call at this position. */
  predicate ResultOf(actions: seq<Action>, i: nat, r: Result) {
    i < |actions| && actions[i].Call? && r.key == actions[i].key && r.create == actions[i].create
  }

  ghost predicate ResultsAsked(s0: State, actions: seq<Action>, results: seq<Result>)
    requires s0.b > 0
  {
    var calls := Answered(s0, actions);
    && |calls| == |results| && Distinct(calls)
    && forall k :: 0 <= k < |calls| ==> Accepted(s0, actions, calls[k]) && ResultOf(actions, calls[k], results[k])
  }

  ghost predicate AskedOk(s0: State, actions: seq<Action>, s: State)
    requires s0.b > 0
  {
    && |s.pcs| == |s0.pcs| && s.depth == s0.depth && s.b == s0.b
    && (forall t :: 0 <= t < |s.pcs| ==> ThreadAsked(s0, actions, t, s.pcs[t]))
    && ResultsAsked(s0, actions, s.results)
  }

  lemma {:induction false} ReachLast(s: State, actions: seq<Action>)
    requires s.b > 0 && actions != []
    ensures Reach(s, actions[..|actions| - 1]).b == s.b
    ensures Reach(s, actions) == Next(Reach(s, actions[..|actions| - 1]), actions[|actions| - 1])
    decreases |actions|
  {
    if |actions| > 1 {
      ReachLast(Next(s, actions[0]), actions[1..]);
      assert actions[..|actions| - 1][1..] == actions[1..][..|actions[1..]| - 1];
    }
  }

  /** A step of a thread leaves the others alone. */
  lemma StepOthers(s: State, t: nat)
    requires t < |s.pcs| && s.b > 0
    ensures Step(s, t).pcs == s.pcs[t := Step(s, t).pcs[t]] && Step(s, t).depth == s.depth
  {
  }

  /** What a step adds to the results, and where it leaves its thread. */
  lemma StepReturns(s: State, t: nat, key: nat, create: bool)
    requires Inv(s) && t < |s.pcs| && Follows(s.pcs[t], key, create)
    ensures var s' := Step(s, t);
            |s'.pcs| == |s.pcs|
            && if s'.results == s.results then Follows(s'.pcs[t], key, create)
               else s'.pcs[t].Idle? && exists v :: s'.results == s.results + [Result(key, create, v)]
  {
    StepKeepsInv(s, t);
    assert ThreadOk(Step(s, t), t) && ThreadOk(s, t);
    var pc := s.pcs[t];
    if pc.Read? || pc.Publish? || pc.Reread? {
      SlotMeans(s, pc.key, pc.level, pc.slot);
    }
  }

  lemma AcceptedStays(s0: State, actions: seq<Action>, a: Action, i: nat)
    requires s0.b > 0 && i < |actions|
    ensures Accepted(s0, actions + [a], i) == Accepted(s0, actions, i) && (actions + [a])[i] == actions[i]
  {
    assert (actions + [a])[..i] == actions[..i];
  }

  /** A thread with the same call as before, which has not returned in this step. */
  lemma ThreadStays(s0: State, actions: seq<Action>, a: Action, u: nat, pc: Pc, pc': Pc)
    requires s0.b > 0 && ThreadAsked(s0, actions, u, pc) && Open(s0, actions + [a], u) == Open(s0, actions, u)
    requires match Open(s0, actions, u)
             case NoCall => pc'.Idle?
             case CallAt(i) =>
               Follows(pc', actions[i].key, actions[i].create) && i !in Answered(s0, actions + [a])
    ensures ThreadAsked(s0, actions + [a], u, pc')
  {
    if Open(s0, actions, u).CallAt? {
      AcceptedStays(s0, actions, a, Open(s0, actions, u).i);
    }
  }

  lemma ResultsStay(s0: State, actions: seq<Action>, a: Action, results: seq<Result>)
    requires s0.b > 0 && ResultsAsked(s0, actions, results) && Answered(s0, actions + [a]) == Answered(s0, actions)
    ensures ResultsAsked(s0, actions + [a], results)
  {
    var calls := Answered(s0, actions);
    forall k | 0 <= k < |calls|
      ensures Accepted(s0, actions + [a], calls[k]) && ResultOf(actions + [a], calls[k], results[k])
    {
      AcceptedStays(s0, actions, a, calls[k]);
    }
  }

  /** How a thread goes on when no call returns. */
  ghost predicate GoesOn(s0: State, actions: seq<Action>, a: Action, u: nat, pc: Pc, pc': Pc)
    requires s0.b > 0
  {
    if u != a.t then pc' == pc
    else
      && Open(s0, actions + [a], u) == Open(s0, actions, u)
      && match Open(s0, actions, u)
         case NoCall => pc'.Idle?
         case CallAt(i) => i < |actions| && actions[i].Call? && Follows(pc', actions[i].key, actions[i].create)
  }

  lemma QuietThread(s0: State, actions: seq<Action>, a: Action, u: nat, pc: Pc, pc': Pc)
    requires s0.b > 0 && ThreadAsked(s0, actions, u, pc) && GoesOn(s0, actions, a, u, pc, pc')
    requires Answered(s0, actions + [a]) == Answered(s0, actions)
    ensures ThreadAsked(s0, actions + [a], u, pc')
  {
    assert (actions + [a])[..|actions|] == actions;
    ThreadStays(s0, actions, a, u, pc, pc');
  }

  /** A step in which no call returns, and at most its own thread moves on. */
  lemma QuietAsked(s0: State, actions: seq<Action>, a: Action, s: State, s': State)
    requires s0.b > 0 && AskedOk(s0, actions, s) && Reach(s0, actions) == s && Next(s, a) == s'
    requires s'.results == s.results && |s'.pcs| == |s.pcs| && s'.depth == s.depth && s'.b == s.b
    requires forall u :: 0 <= u < |s.pcs| ==> GoesOn(s0, actions, a, u, s.pcs[u], s'.pcs[u])
    ensures AskedOk(s0, actions + [a], s')
  {
    var longer := actions + [a];
    assert longer[..|longer| - 1] == actions;
    ReachLast(s0, longer);
    assert !Returns(s0, longer);
    assert Answered(s0, longer) == Answered(s0, actions);
    ResultsStay(s0, actions, a, s.results);
    forall u | 0 <= u < |s'.pcs| ensures ThreadAsked(s0, longer, u, s'.pcs[u]) {
      QuietThread(s0, actions, a, u, s.pcs[u], s'.pcs[u]);
    }
  }

  /** Only what has been accepted is answered. */
  lemma AnsweredBefore(s0: State, actions: seq<Action>, results: seq<Result>, i: nat)
    requires s0.b > 0 && ResultsAsked(s0, actions, results) && i in Answered(s0, actions)
    ensures i < |actions|
  {
    var k :| 0 <= k < |Answered(s0, actions)| && Answered(s0, actions)[k] == i;
    assert Accepted(s0, actions, Answered(s0, actions)[k]);
  }

  lemma CallAsked(s0: State, actions: seq<Action>, a: Action, s: State)
    requires s0.b > 0 && AskedOk(s0, actions, s) && Reach(s0, actions) == s && a.Call? && s.b > 0
    ensures AskedOk(s0, actions + [a], Next(s, a))
  {
    var s', longer := Next(s, a), actions + [a];
    assert longer[..|longer| - 1] == actions;
    if a.t < |s.pcs| {
      assert ThreadAsked(s0, actions, a.t, s.pcs[a.t]);
    }
    if !(Accepts(s0, a) && Open(s0, actions, a.t).NoCall?) {
      QuietAsked(s0, actions, a, s, s');
    } else {
      assert Answered(s0, longer) == Answered(s0, actions);
      ResultsStay(s0, actions, a, s.results);
      assert longer[..|actions|] == actions;
      if |actions| in Answered(s0, actions) {
        AnsweredBefore(s0, actions, s.results, |actions|);
      }
      forall u | 0 <= u < |s'.pcs| ensures ThreadAsked(s0, longer, u, s'.pcs[u]) {
        assert ThreadAsked(s0, actions, u, s.pcs[u]);
        if u != a.t {
          ThreadStays(s0, actions, a, u, s.pcs[u], s'.pcs[u]);
        }
      }
    }
  }

  lemma OtherUnanswered(s0: State, actions: seq<Action>, t: nat, u: nat, s: State)
    requires s0.b > 0 && AskedOk(s0, actions, s) && t < |s.pcs| && u < |s.pcs| && u != t
    requires Open(s0, actions, t).CallAt? && Open(s0, actions, u).CallAt?
    ensures Open(s0, actions, t).i != Open(s0, actions, u).i
  {
    assert ThreadAsked(s0, actions, t, s.pcs[t]) && ThreadAsked(s0, actions, u, s.pcs[u]);
  }

  /** One answer more. */
  lemma ResultsGrow(s0: State, actions: seq<Action>, a: Action, results: seq<Result>, i: nat, r: Result)
    requires s0.b > 0 && ResultsAsked(s0, actions, results)
    requires Answered(s0, actions + [a]) == Answered(s0, actions) + [i]
    requires Accepted(s0, actions, i) && i !in Answered(s0, actions) && ResultOf(actions, i, r)
    ensures ResultsAsked(s0, actions + [a], results + [r])
  {
    var calls := Answered(s0, actions);
    forall k | 0 <= k <= |calls|
      ensures Accepted(s0, actions + [a], (calls + [i])[k])
              && ResultOf(actions + [a], (calls + [i])[k], (results + [r])[k])
    {
      AcceptedStays(s0, actions, a, (calls + [i])[k]);
    }
  }

  /** The other threads, when a call of thread t returns. */
  lemma OthersAsked(s0: State, actions: seq<Action>, t: nat, u: nat, s: State)
    requires s0.b > 0 && AskedOk(s0, actions, s) && t < |s.pcs| && u < |s.pcs| && u != t
    requires Open(s0, actions, t).CallAt?
    requires Answered(s0, actions + [Run(t)]) == Answered(s0, actions) + [Open(s0, actions, t).i]
    ensures ThreadAsked(s0, actions + [Run(t)], u, s.pcs[u])
  {
    assert ThreadAsked(s0, actions, u, s.pcs[u]);
    assert (actions + [Run(t)])[..|actions|] == actions;
    if Open(s0, actions, u).CallAt? {
      OtherUnanswered(s0, actions, t, u, s);
    }
    ThreadStays(s0, actions, Run(t), u, s.pcs[u], s.pcs[u]);
  }

  /** A call of thread t returns. */
  lemma ReturnAsked(s0: State, actions: seq<Action>, t: nat, s: State, s': State, r: Result)
    requires s0.b > 0 && AskedOk(s0, actions, s) && Reach(s0, actions) == s && t < |s.pcs| && Next(s, Run(t)) == s'
    requires Open(s0, actions, t).CallAt? && ResultOf(actions, Open(s0, actions, t).i, r)
    requires s'.pcs == s.pcs[t := Idle] && s'.depth == s.depth && s'.b == s.b && s'.results == s.results + [r]
    ensures AskedOk(s0, actions + [Run(t)], s')
  {
    var longer, i := actions + [Run(t)], Open(s0, actions, t).i;
    assert longer[..|longer| - 1] == actions;
    ReachLast(s0, longer);
    assert ThreadAsked(s0, actions, t, s.pcs[t]);
    assert Answered(s0, longer) == Answered(s0, actions) + [i];
    ResultsGrow(s0, actions, Run(t), s.results, i, r);
    forall u | 0 <= u < |s.pcs| && u != t ensures ThreadAsked(s0, longer, u, s.pcs[u]) {
      OthersAsked(s0, actions, t, u, s);
    }
  }

  lemma RunAsked(s0: State, actions: seq<Action>, t: nat, s: State)
    requires s0.b > 0 && Inv(s) && AskedOk(s0, actions, s) && Reach(s0, actions) == s
    ensures AskedOk(s0, actions + [Run(t)], Next(s, Run(t)))
  {
    var s', longer := Next(s, Run(t)), actions + [Run(t)];
    assert longer[..|longer| - 1] == actions;
    ReachLast(s0, longer);
    if t >= |s.pcs| {
      QuietAsked(s0, actions, Run(t), s, s');
    } else {
      assert ThreadAsked(s0, actions, t, s.pcs[t]);
      match Open(s0, actions, t)
      case NoCall =>
        QuietAsked(s0, actions, Run(t), s, s');
      case CallAt(i) =>
        var call := actions[i];
        StepReturns(s, t, call.key, call.create);
        StepOthers(s, t);
        if s'.results != s.results {
          var v :| s'.results == s.results + [Result(call.key, call.create, v)];
          ReturnAsked(s0, actions, t, s, s', Result(call.key, call.create, v));
        } else {
          QuietAsked(s0, actions, Run(t), s, s');
        }
    }
  }

  lemma {:induction false} ReachAsked(s0: State, actions: seq<Action>)
    requires Inv(s0) && s0.results == [] && forall t :: 0 <= t < |s0.pcs| ==> s0.pcs[t].Idle?
    ensures AskedOk(s0, actions, Reach(s0, actions)) && Inv(Reach(s0, actions))
  {
    if actions != [] {
      var most, last := actions[..|actions| - 1], actions[|actions| - 1];
      assert actions == most + [last];
      ReachAsked(s0, most);
      ReachLast(s0, actions);
      var s := Reach(s0, most);
      NextKeepsInv(s, last);
      if last.Call? {
        CallAsked(s0, most, last, s);
      } else {
        RunAsked(s0, most, last.t, s);
      }
    }
  }

  // ---------------------------------------------------------------------------------------------
  // Main theorems
  // ---------------------------------------------------------------------------------------------

  lemma RunAskedOk(b: nat, depth: nat, threads: nat, actions: seq<Action>)
    requires b > 0
    ensures AskedOk(Init(b, depth, threads), actions, Reach(Init(b, depth, threads), actions))
    ensures Inv(Reach(Init(b, depth, threads), actions))
  {
    InitOk(b, depth, threads);
    ReachAsked(Init(b, depth, threads), actions);
  }

  /** In every run, each result is that of an accepted call, with the key and the choice of that call, and no call has
      two results; each accepted call has returned or is the one that its thread has under way; and a thread
      is idle exactly when it has none under way. */
  lemma ResultsAnswerCalls(b: nat, depth: nat, threads: nat, actions: seq<Action>)
    requires b > 0
    ensures var s0 := Init(b, depth, threads);
            var s, calls := Reach(s0, actions), Answered(s0, actions);
            && |calls| == |s.results| && Distinct(calls) && |s.pcs| == threads
            && (forall k :: 0 <= k < |calls| ==>
                 Accepted(s0, actions, calls[k]) && ResultOf(actions, calls[k], s.results[k]))
            && (forall i :: 0 <= i < |actions| && Accepted(s0, actions, i) ==>
                 i in calls || Open(s0, actions, actions[i].t) == CallAt(i))
            && (forall t :: 0 <= t < threads ==> (Open(s0, actions, t).NoCall? <==> s.pcs[t].Idle?))
  {
    var s0 := Init(b, depth, threads);
    RunAskedOk(b, depth, threads, actions);
    forall i | 0 <= i < |actions| && Accepted(s0, actions, i)
      ensures i in Answered(s0, actions) || Open(s0, actions, actions[i].t) == CallAt(i)
    {
      NotLost(s0, actions, i);
    }
    forall t | 0 <= t < threads
      ensures Open(s0, actions, t).NoCall? <==> Reach(s0, actions).pcs[t].Idle?
    {
      assert ThreadAsked(s0, actions, t, Reach(s0, actions).pcs[t]);
    }
  }

  lemma {:induction false} NotLost(s0: State, actions: seq<Action>, i: nat)
    requires s0.b > 0 && Accepted(s0, actions, i)
    ensures i in Answered(s0, actions) || Open(s0, actions, actions[i].t) == CallAt(i)
  {
    var most := actions[..|actions| - 1];
    assert actions == most + [actions[|actions| - 1]];
    if i < |most| {
      AcceptedStays(s0, most, actions[|actions| - 1], i);
      NotLost(s0, most, i);
    } else {
      assert actions[..i] == most;
    }
  }

  /** In every run, two calls that have returned a value have returned the same one exactly if they asked for the same
      key; and it was made for that key. */
  lemma OneValuePerKey(b: nat, depth: nat, threads: nat, actions: seq<Action>, j: nat, k: nat)
    requires b > 0
    requires var r := Reach(Init(b, depth, threads), actions).results;
             j < |r| && k < |r| && r[j].value != 0 && r[k].value != 0
    ensures var s0 := Init(b, depth, threads);
            var s, calls := Reach(s0, actions), Answered(s0, actions);
            && |calls| == |s.results| && calls[j] < |actions| && calls[k] < |actions|
            && actions[calls[j]].Call? && actions[calls[k]].Call?
            && (actions[calls[j]].key == actions[calls[k]].key <==> s.results[j].value == s.results[k].value)
            && s.results[j].value < |s.objs|
            && s.objs[s.results[j].value].place == Place(0, actions[calls[j]].key)
  {
    var s0 := Init(b, depth, threads);
    var calls := Answered(s0, actions);
    RunAskedOk(b, depth, threads, actions);
    assert ResultOf(actions, calls[j], Reach(s0, actions).results[j]);
    assert ResultOf(actions, calls[k], Reach(s0, actions).results[k]);
    SharedTreemap.ResultsAgree(b, depth, threads, actions, j, k);
  }

  /** The calls at these positions, each with the value it has returned. */
  function Answers(actions: seq<Action>, calls: seq<nat>, values: seq<nat>): seq<Result>
    requires |calls| == |values|
    requires forall k :: 0 <= k < |calls| ==> calls[k] < |actions| && actions[calls[k]].Call?
  {
    seq(|calls|, k requires 0 <= k < |calls| =>
          Result(actions[calls[k]].key, actions[calls[k]].create, values[k]))
  }

  function Values(results: seq<Result>): seq<nat> {
    seq(|results|, k requires 0 <= k < |results| => results[k].value)
  }

  /** Linearizability. In every run of any number of threads, the calls that have returned, in the order in which they
      did, get the values that a finite map gives if these calls are made on it one after the other; and the tree
      holds what that map holds in the end. Each call takes effect in the step in which it returns, so while it is
      under way. */
  lemma Linearizable(b: nat, depth: nat, threads: nat, actions: seq<Action>)
    requires b > 0
    ensures var s0 := Init(b, depth, threads);
            var s, calls := Reach(s0, actions), Answered(s0, actions);
            && |calls| == |s.results|
            && (forall k :: 0 <= k < |calls| ==> calls[k] < |actions| && actions[calls[k]].Call?)
            && var outcome := Sequential(Answers(actions, calls, Values(s.results)));
               outcome.Holds? && Represents(s, outcome.values)
  {
    var s0 := Init(b, depth, threads);
    var s, calls := Reach(s0, actions), Answered(s0, actions);
    RunAskedOk(b, depth, threads, actions);
    forall k | 0 <= k < |calls| ensures calls[k] < |actions| && actions[calls[k]].Call?
                                        && ResultOf(actions, calls[k], s.results[k]) {
      assert ResultOf(actions, calls[k], s.results[k]);
    }
    assert Answers(actions, calls, Values(s.results)) == s.results;
    SharedTreemap.ResultsAreSequential(b, depth, threads, actions);
  }

  /** A call that has returned before another one is made comes before it in that order. */
  lemma {:induction false} RealTimeOrder(s0: State, actions: seq<Action>, m: nat)
    requires s0.b > 0 && m <= |actions|
    ensures Answered(s0, actions[..m]) <= Answered(s0, actions)
    decreases |actions|
  {
    if m == |actions| {
      assert actions[..m] == actions;
    } else {
      var most := actions[..|actions| - 1];
      assert most[..m] == actions[..m];
      RealTimeOrder(s0, most, m);
    }
  }

  // ---------------------------------------------------------------------------------------------
  // Each call returns, whatever the other threads do
  // ---------------------------------------------------------------------------------------------

  /** How many of its own steps a thread needs at most. */
  function Rank(pc: Pc): nat {
    match pc
    case Idle => 0
    case Failed => 0
    case Read(_, _, level, _) => 5 * level + 5
    case Create(_, level, _) => 5 * level + 4
    case Publish(_, level, _, _) => 5 * level + 3
    case Discard(_, level, _, _) => 5 * level + 2
    case Reread(_, level, _) => 5 * level + 1
  }

  lemma StepRank(s: State, t: nat, key: nat, create: bool)
    requires Inv(s) && t < |s.pcs| && Follows(s.pcs[t], key, create)
    ensures 0 < Rank(s.pcs[t]) <= 5 * (s.depth + 1)
    ensures Step(s, t).results == s.results ==> |Step(s, t).pcs| == |s.pcs| && Rank(Step(s, t).pcs[t]) < Rank(s.pcs[t])
  {
    assert ThreadOk(s, t);
    var pc := s.pcs[t];
    if pc.Read? || pc.Publish? || pc.Reread? {
      SlotMeans(s, pc.key, pc.level, pc.slot);
    }
  }

  /** How many steps of the thread there are. */
  function Turns(actions: seq<Action>, t: nat): nat {
    if actions == [] then 0
    else Turns(actions[..|actions| - 1], t) + if actions[|actions| - 1] == Run(t) then 1 else 0
  }

  /** The call has returned, or is closer to it by as many steps as its thread has made. */
  ghost predicate Closer(s0: State, actions: seq<Action>, more: seq<Action>, t: nat, i: nat)
    requires s0.b > 0
  {
    var before, after := Reach(s0, actions), Reach(s0, actions + more);
    || i in Answered(s0, actions + more)
    || (&& Open(s0, actions + more, t) == CallAt(i) && t < |before.pcs| && t < |after.pcs|
        && Rank(after.pcs[t]) + Turns(more, t) <= Rank(before.pcs[t]))
  }

  lemma CloserStep(s0: State, actions: seq<Action>, more: seq<Action>, last: Action, t: nat, i: nat)
    requires s0.b > 0 && Closer(s0, actions, more, t, i) && i !in Answered(s0, actions + (more + [last]))
    requires AskedOk(s0, actions + more, Reach(s0, actions + more)) && Inv(Reach(s0, actions + more))
    requires AskedOk(s0, actions + (more + [last]), Reach(s0, actions + (more + [last])))
    ensures Closer(s0, actions, more + [last], t, i)
  {
    var shorter, longer := actions + more, actions + (more + [last]);
    assert longer[..|longer| - 1] == shorter && longer[|longer| - 1] == last;
    assert (more + [last])[..|more|] == more;
    ReachLast(s0, longer);
    var s := Reach(s0, shorter);
    assert ThreadAsked(s0, shorter, t, s.pcs[t]);
    if last == Run(t) {
      StepRank(s, t, shorter[i].key, shorter[i].create);
      StepReturns(s, t, shorter[i].key, shorter[i].create);
    } else if last.Run? && last.t < |s.pcs| {
      StepOthers(s, last.t);
    }
  }

  lemma {:induction false} GetsCloser(s0: State, actions: seq<Action>, more: seq<Action>, t: nat, i: nat)
    requires Inv(s0) && s0.results == [] && t < |s0.pcs| && forall u :: 0 <= u < |s0.pcs| ==> s0.pcs[u].Idle?
    requires Open(s0, actions, t) == CallAt(i)
    ensures Closer(s0, actions, more, t, i)
    decreases |more|
  {
    if more == [] {
      assert actions + more == actions;
      ReachAsked(s0, actions);
    } else {
      var most, last := more[..|more| - 1], more[|more| - 1];
      assert more == most + [last];
      GetsCloser(s0, actions, most, t, i);
      ReachAsked(s0, actions + most);
      ReachAsked(s0, actions + more);
      if i !in Answered(s0, actions + more) {
        assert (actions + more)[..|actions + more| - 1] == actions + most;
        CloserStep(s0, actions, most, last, t, i);
      }
    }
  }

  /** Wait-freedom. A call that is under way has returned after at most five steps of its own thread for each level of
      the tree and for the value, whatever the other threads do in the meantime. */
  lemma CallsReturn(b: nat, depth: nat, threads: nat, actions: seq<Action>, more: seq<Action>, t: nat, i: nat)
    requires b > 0 && t < threads && Open(Init(b, depth, threads), actions, t) == CallAt(i)
    requires Turns(more, t) >= 5 * (depth + 1)
    ensures i in Answered(Init(b, depth, threads), actions + more)
  {
    var s0 := Init(b, depth, threads);
    InitOk(b, depth, threads);
    GetsCloser(s0, actions, more, t, i);
    ReachAsked(s0, actions);
    ReachAsked(s0, actions + more);
    if i !in Answered(s0, actions + more) {
      var s, s' := Reach(s0, actions), Reach(s0, actions + more);
      assert ThreadAsked(s0, actions, t, s.pcs[t]) && ThreadAsked(s0, actions + more, t, s'.pcs[t]);
      StepRank(s, t, actions[i].key, actions[i].create);
      StepRank(s', t, (actions + more)[i].key, (actions + more)[i].create);
    }
  }
}
