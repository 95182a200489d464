/** Any number of threads that wait, and of wakers, in every run (src/picotm_lock_manager.c:244-819). */
module WakerRuns {
  import opened Common
  import opened WaiterList
  import opened WaiterSteps
  import opened WakerSteps
  import opened Wakers
  import WaiterRuns

  /** Wakers know what they know, and every owner that some waker has locked is locked by one of them. */
  ghost predicate HeldOk(j: Joint) {
    && (forall w :: 0 <= w < |j.wakers| ==> HoldsAll(j.s, Held(j.wakers[w])))
    && (forall v, w :: 0 <= v < |j.wakers| && 0 <= w < |j.wakers| && v != w ==> Held(j.wakers[v]) !! Held(j.wakers[w]))
    && (forall o :: 0 < o < |j.s.owners| && j.s.owners[o].holder == Waker ==> HeldBySome(j.wakers, o))
  }

  ghost predicate HeldBySome(wakers: seq<Walk>, o: nat) {
    exists w :: 0 <= w < |wakers| && o in Held(wakers[w])
  }

  ghost predicate JointInv(j: Joint) {
    Inv(j.s) && HeldOk(j) && forall w :: 0 <= w < |j.wakers| ==> WalkOk(j.s, j.wakers[w])
  }

  lemma ThreadKeepsInv(j: Joint, t: nat, list: nat)
    requires JointInv(j)
    ensures JointInv(JointNext(j, OfThread(t, list)))
  {
    var s' := Next(j.s, Run(t, list));
    NextKeepsInv(j.s, Run(t, list));
    forall w | 0 <= w < |j.wakers| ensures HoldsAll(s', Held(j.wakers[w])) && WalkOk(s', j.wakers[w]) {
      ThreadRespects(j.s, t, list, Held(j.wakers[w]));
      WalkStable(j.s, s', j.wakers[w]);
    }
    if 0 < t < |j.s.pcs| {
      ThreadIsOwn(j.s, t, list);
    }
  }

  /** A waker's step as another waker sees it. */
  lemma OwnRespects(s: State, s': State, before: set<nat>, after: set<nat>, held: set<nat>)
    requires Inv(s) && Inv(s') && Own(s, s', before, after) && HoldsAll(s, held) && held !! before
    ensures Respects(s, s', held) && HoldsAll(s', held) && held !! after
  {
    forall l | 0 <= l < |s.chains| ensures ListRespects(s, s', held, s.chains[l], s'.chains[l]) {
      assert ListOk(s, l);
    }
  }

  lemma WakerKeepsInv(j: Joint, w: nat, list: nat, reader: bool)
    requires JointInv(j) && w < |j.wakers|
    ensures JointInv(JointNext(j, OfWaker(w, list, reader)))
  {
    var walk := j.wakers[w];
    var s', walk' := Next(j.s, ActionOf(j.s, walk, reader)), WalkOn(j.s, walk, list, reader);
    var j' := Joint(s', j.wakers[w := walk']);
    OwnStep(j.s, walk, list, reader);
    OwnWalkOk(j.s, walk, list, reader);
    forall v | 0 <= v < |j.wakers| && v != w
      ensures HoldsAll(s', Held(j.wakers[v])) && WalkOk(s', j.wakers[v]) && Held(j.wakers[v]) !! Held(walk')
    {
      OwnRespects(j.s, s', Held(walk), Held(walk'), Held(j.wakers[v]));
      WalkStable(j.s, s', j.wakers[v]);
    }
    forall o | 0 < o < |s'.owners| && s'.owners[o].holder == Waker ensures HeldBySome(j'.wakers, o) {
      if o in Held(walk') {
        assert j'.wakers[w] == walk';
      } else {
        var v :| 0 <= v < |j.wakers| && o in Held(j.wakers[v]);
        assert v != w && j'.wakers[v] == j.wakers[v];
      }
    }
  }

  lemma JointNextKeepsInv(j: Joint, step: Wakers.Step)
    requires JointInv(j)
    ensures JointInv(JointNext(j, step))
  {
    match step
    case OfThread(t, list) => ThreadKeepsInv(j, t, list);
    case OfWaker(w, list, reader) =>
      if w < |j.wakers| {
        WakerKeepsInv(j, w, list, reader);
      }
  }

  /** n threads, the given number of empty lists, k wakers. */
  function JointInit(n: nat, lists: nat, k: nat): (j: Joint)
    ensures Shaped(j.s)
  {
    Joint(WaiterRuns.Init(n, lists), seq(k, _ => Resting))
  }

  function JointReach(j: Joint, steps: seq<Wakers.Step>): (j': Joint)
    requires Shaped(j.s)
    ensures Shaped(j'.s)
    decreases |steps|
  {
    if steps == [] then j else JointReach(JointNext(j, steps[0]), steps[1..])
  }

  lemma {:induction false} JointReachKeepsInv(j: Joint, steps: seq<Wakers.Step>)
    requires JointInv(j)
    ensures JointInv(JointReach(j, steps))
    decreases |steps|
  {
    if steps != [] {
      JointNextKeepsInv(j, steps[0]);
      JointReachKeepsInv(JointNext(j, steps[0]), steps[1..]);
    }
  }

  lemma ReachableInv(n: nat, lists: nat, k: nat, steps: seq<Wakers.Step>)
    ensures JointInv(JointReach(JointInit(n, lists, k), steps))
  {
    WaiterRuns.InitOk(n, lists);
    JointReachKeepsInv(JointInit(n, lists, k), steps);
  }

  // ---------------------------------------------------------------------------------------------
  // Whom a waker picks
  // ---------------------------------------------------------------------------------------------

  /** At the moment at which a waker is about to wake the owner that it has picked, that one is in the list, waits, is
      marked as reader or writer, and everybody else in the list who waits has been prepended after it. If the waker has
      picked nobody, only owners wait that were prepended after the first that it looked at. */
  lemma PicksLongestWaiting(n: nat, lists: nat, k: nat, steps: seq<Wakers.Step>, w: nat, o: nat)
    requires var j := JointReach(JointInit(n, lists, k), steps);
             w < |j.wakers| && j.wakers[w].Rouse? && j.wakers[w].list < |j.s.chains|
             && o < |j.s.owners| && o in j.s.chains[j.wakers[w].list] && j.s.owners[o].waiting
    ensures var j := JointReach(JointInit(n, lists, k), steps);
            var Rouse(l, first, picked) := j.wakers[w];
            var c := j.s.chains[l];
            if picked == 0 then Before(c, o, first)
            else
              && picked < |j.s.owners| && picked in c && j.s.owners[picked].waiting && j.s.owners[picked].marked
              && (o == picked || Before(c, o, picked))
  {
    var j := JointReach(JointInit(n, lists, k), steps);
    ReachableInv(n, lists, k, steps);
    var Rouse(l, first, picked) := j.wakers[w];
    var c := j.s.chains[l];
    assert WalkOk(j.s, j.wakers[w]) && ListOk(j.s, l);
    var last := if picked == 0 then first else picked;
    BeforeIff(c, o, last);
    BeforeIff(c, last, o);
    assert !Calm(j.s, o);
    if picked != 0 {
      assert picked < |j.s.pcs| && ThreadOk(j.s, picked);
    }
  }

  /** Mutexes do not get lost: what wakers have locked is locked by a waker at work, each by one. */
  lemma RestingWakersHoldNothing(n: nat, lists: nat, k: nat, steps: seq<Wakers.Step>, o: nat)
    requires var j := JointReach(JointInit(n, lists, k), steps);
             0 < o < |j.s.owners| && forall w :: 0 <= w < |j.wakers| ==> j.wakers[w].Resting?
    ensures JointReach(JointInit(n, lists, k), steps).s.owners[o].holder != Waker
  {
    ReachableInv(n, lists, k, steps);
  }

  // ---------------------------------------------------------------------------------------------
  // Nobody blocks for good
  // ---------------------------------------------------------------------------------------------

  /** The owner whose mutex a thread waits for, or 0. */
  function ThreadWants(pc: Pc, t: nat): nat {
    match pc
    case LockSelf(_) => t
    case Sleeping(_) => t
    case LockFirst(_, first) => first
    case LockNext(_, _, next) => next
    case RelockSelf(_, _) => t
    case _ => 0
  }

  function WakerWants(w: Walk): nat {
    match w
    case TakeFirst(_, first) => first
    case TakeNext(_, _, _, _, next) => next
    case TakeReader(_, _, next) => next
    case _ => 0
  }

  predicate Available(s: State, o: nat) {
    o == 0 || (o < |s.owners| && s.owners[o].holder == Free)
  }

  /** A thread in the middle of waiting, whose next step is possible. */
  predicate ThreadGoes(s: State, t: nat) {
    0 < t < |s.pcs| && !s.pcs[t].Idle? && !s.pcs[t].Failed? && Available(s, ThreadWants(s.pcs[t], t))
  }

  predicate WakerGoes(j: Joint, w: nat) {
    w < |j.wakers| && !j.wakers[w].Resting? && Available(j.s, WakerWants(j.wakers[w]))
  }

  ghost predicate SomebodyGoes(j: Joint) {
    (exists t :: ThreadGoes(j.s, t)) || exists w :: WakerGoes(j, w)
  }

  /** Such a step changes the state. */
  lemma ThreadGoesOn(s: State, t: nat, list: nat)
    requires Inv(s) && ThreadGoes(s, t)
    ensures Next(s, Run(t, list)).pcs[t] != s.pcs[t]
  {
    assert ThreadOk(s, t);
  }

  lemma WakerGoesOn(j: Joint, w: nat, list: nat, reader: bool)
    requires JointInv(j) && WakerGoes(j, w)
    ensures JointNext(j, OfWaker(w, list, reader)).wakers[w] != j.wakers[w]
  {
  }

  /** If the holder of an owner in a list has to wait itself, then for an owner behind this one. */
  lemma HolderInListGoes(j: Joint, l: nat, o: nat)
    requires JointInv(j) && l < |j.s.chains| && o in j.s.chains[l] && 0 < o < |j.s.owners|
             && j.s.owners[o].holder != Free
    ensures SomebodyGoes(j)
    decreases Rank(j.s.chains[l], o)
  {
    var s, c := j.s, j.s.chains[l];
    assert ListOk(s, l);
    if !SomebodyGoes(j) {
      var next := Blocked(j, o);
      assert next.0 == l by {
        if next.0 != l {
          NoSharing(s, o, l, next.0);
        }
      }
      BeforeIff(c, o, next.1);
      HolderInListGoes(j, l, next.1);
    }
  }

  /** The owner that the holder of o waits for, with its list, if nobody can go on. */
  lemma Blocked(j: Joint, o: nat) returns (next: (nat, nat))
    requires JointInv(j) && 0 < o < |j.s.owners| && j.s.owners[o].holder != Free && !SomebodyGoes(j)
    ensures next.0 < |j.s.chains| && 0 < next.1 < |j.s.owners| && j.s.owners[next.1].holder != Free
    ensures var c := j.s.chains[next.0]; o in c && next.1 in c && Before(c, o, next.1)
  {
    var s := j.s;
    if s.owners[o].holder == Waker {
      var w :| 0 <= w < |j.wakers| && o in Held(j.wakers[w]);
      assert !WakerGoes(j, w);
      next := (j.wakers[w].list, WakerWants(j.wakers[w]));
      BlockedWaker(j, w, o);
    } else {
      var u := s.owners[o].holder.t;
      assert Holds(s.pcs[u], u, o) && !ThreadGoes(s, u) && ThreadOk(s, u);
      next := (s.pcs[u].list, ThreadWants(s.pcs[u], u));
      BlockedThread(s, u, o);
    }
  }

  lemma BlockedThread(s: State, u: nat, o: nat)
    requires Inv(s) && 0 < u < |s.pcs| && 0 < o < |s.owners| && Holds(s.pcs[u], u, o) && !ThreadGoes(s, u)
    ensures (s.pcs[u].LockNext? || s.pcs[u].RelockSelf?) && s.pcs[u].list < |s.chains|
    ensures var c, next := s.chains[s.pcs[u].list], ThreadWants(s.pcs[u], u);
            o in c && next in c && Before(c, o, next) && 0 < next < |s.owners| && s.owners[next].holder != Free
  {
    assert ThreadOk(s, u);
    var l := s.pcs[u].list;
    assert ListOk(s, l);
    var c := s.chains[l];
    if s.pcs[u].LockNext? {
      BeforeMember(c, o, u);
    }
    NextPlace(c, o, o);
  }

  lemma BlockedWaker(j: Joint, w: nat, o: nat)
    requires JointInv(j) && w < |j.wakers| && o in Held(j.wakers[w]) && !WakerGoes(j, w)
    ensures (j.wakers[w].TakeNext? || j.wakers[w].TakeReader?) && j.wakers[w].list < |j.s.chains|
    ensures var c, next := j.s.chains[j.wakers[w].list], WakerWants(j.wakers[w]);
            o in c && next in c && Before(c, o, next) && 0 < next < |j.s.owners| && j.s.owners[next].holder != Free
  {
    var walk := j.wakers[w];
    assert WalkOk(j.s, walk) && ListOk(j.s, walk.list);
    NextPlace(j.s.chains[walk.list], walk.cur, o);
  }

  /** No deadlock: as long as some thread is in the middle of waiting, or some waker is at work, one of them can make a
      step. */
  lemma NoDeadlock(n: nat, lists: nat, k: nat, steps: seq<Wakers.Step>)
    requires var j := JointReach(JointInit(n, lists, k), steps);
             || (exists t :: 0 < t < |j.s.pcs| && !j.s.pcs[t].Idle?)
             || (exists w :: 0 <= w < |j.wakers| && !j.wakers[w].Resting?)
    ensures SomebodyGoes(JointReach(JointInit(n, lists, k), steps))
  {
    ReachableInv(n, lists, k, steps);
    InvGoesOn(JointReach(JointInit(n, lists, k), steps));
  }

  lemma InvGoesOn(j: Joint)
    requires JointInv(j)
    requires || (exists t :: 0 < t < |j.s.pcs| && !j.s.pcs[t].Idle?)
             || (exists w :: 0 <= w < |j.wakers| && !j.wakers[w].Resting?)
    ensures SomebodyGoes(j)
  {
    var s := j.s;
    var o: nat;
    if t :| 0 < t < |s.pcs| && !s.pcs[t].Idle? {
      assert ThreadOk(s, t);
      o := ThreadWants(s.pcs[t], t);
      if ThreadGoes(s, t) {
        return;
      }
    } else {
      var w :| 0 <= w < |j.wakers| && !j.wakers[w].Resting?;
      assert WalkOk(s, j.wakers[w]);
      o := WakerWants(j.wakers[w]);
      if WakerGoes(j, w) {
        return;
      }
    }
    if !SomebodyGoes(j) {
      var next := Blocked(j, o);
      HolderInListGoes(j, next.0, next.1);
    }
  }

  /** The same for threads alone, with wakers that may lock owners as they like, in every state in which they
      hold none. */
  lemma ThreadsGoOn(n: nat, lists: nat, actions: seq<Action>)
    requires var s := WaiterRuns.Reach(WaiterRuns.Init(n, lists), actions);
             && (exists t :: 0 < t < |s.pcs| && !s.pcs[t].Idle?)
             && forall o :: 0 < o < |s.owners| ==> s.owners[o].holder != Waker
    ensures exists t :: ThreadGoes(WaiterRuns.Reach(WaiterRuns.Init(n, lists), actions), t)
  {
    var s := WaiterRuns.Reach(WaiterRuns.Init(n, lists), actions);
    WaiterRuns.InitOk(n, lists);
    WaiterRuns.ReachKeepsInv(WaiterRuns.Init(n, lists), actions);
    var j := Joint(s, []);
    InvGoesOn(j);
    assert forall w :: !WakerGoes(j, w);
  }
}
