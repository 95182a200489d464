/** What a thread comes to that waits in a list and leaves it again (src/picotm_lock_manager.c:244-597): the list that
    it asked for, its flags, and that it gets there when the others pause. */
module WaitAlone {
  import opened Common
  import opened WaiterList
  import opened WaiterSteps
  import opened WaiterRuns
  import Wakers
  import WakerSteps

  // ---------------------------------------------------------------------------------------------
  // Which list, and which flags
  // ---------------------------------------------------------------------------------------------

  /** What the schedule asks of a thread: the list that it waits in since it was idle. */
  datatype Asked = Nothing | WaitsIn(list: nat)

  function AskedOf(s0: State, actions: seq<Action>, t: nat): Asked
    requires Shaped(s0)
  {
    if actions == [] then Nothing
    else
      var most, last := actions[..|actions| - 1], actions[|actions| - 1];
      var before := AskedOf(s0, most, t);
      if !last.Run? || last.t != t || t == 0 || t >= |s0.pcs| then before
      else if before.Nothing? then (if last.list < |s0.headers| then WaitsIn(last.list) else Nothing)
      else if Reach(s0, actions).pcs[t].Idle? then Nothing
      else before
  }

  /** The list that the thread is busy with. */
  function ListOf(pc: Pc): Asked {
    match pc
    case Idle | Failed => Nothing
    case _ => WaitsIn(pc.list)
  }

  /** A waker has cleared the flag of the thread since it went to sleep. */
  function Roused(s0: State, actions: seq<Action>, t: nat): bool
    requires Shaped(s0)
  {
    if actions == [] then false
    else
      var most, last := actions[..|actions| - 1], actions[|actions| - 1];
      var s := Reach(s0, most);
      if last == WakeUp(t) then (t < |s.owners| && s.owners[t].holder == Waker) || Roused(s0, most, t)
      else if last.Run? && last.t == t && t < |s.pcs| && s.pcs[t].Enlisted? then false
      else Roused(s0, most, t)
  }

  /** A thread that sleeps is marked as reader or writer, and its waiting flag is set unless it was roused. */
  ghost predicate FlagsOk(s0: State, actions: seq<Action>, s: State, t: nat)
    requires Shaped(s0)
  {
    t < |s.pcs| == |s.owners| &&
    (s.pcs[t].Sleeping? ==> s.owners[t].marked && (s.owners[t].waiting <==> !Roused(s0, actions, t)))
  }

  lemma {:induction false} ReachLast(s: State, actions: seq<Action>)
    requires Shaped(s) && actions != []
    ensures Reach(s, actions) == Next(Reach(s, actions[..|actions| - 1]), actions[|actions| - 1])
    decreases |actions|
  {
    var most, last, rest := actions[..|actions| - 1], actions[|actions| - 1], actions[1..];
    if rest == [] {
      assert most == [] && last == actions[0];
    } else {
      assert most[0] == actions[0] && most[1..] == rest[..|rest| - 1] && rest[|rest| - 1] == last;
      ReachLast(Next(s, actions[0]), rest);
    }
  }

  /** The thread's place and flags are as before. */
  ghost predicate Untouched(s: State, s': State, t: nat) {
    && t < |s.pcs| && t < |s'.pcs| && t < |s.owners| && t < |s'.owners| && s'.pcs[t] == s.pcs[t]
    && s'.owners[t].marked == s.owners[t].marked && s'.owners[t].waiting == s.owners[t].waiting
  }

  lemma EnlistOthers(s: State, u: nat, list: nat, t: nat)
    requires Shaped(s) && u < |s.pcs| && t < |s.pcs| && u != t
    ensures Untouched(s, EnlistStep(s, u, list), t)
  {
  }

  lemma RemoveOthers(s: State, u: nat, t: nat)
    requires Shaped(s) && u < |s.pcs| && t < |s.pcs| && u != t
    ensures Untouched(s, RemoveStep(s, u), t)
  {
  }

  lemma SearchOthers(s: State, u: nat, t: nat)
    requires Shaped(s) && u < |s.pcs| && t < |s.pcs| && u != t
    ensures Untouched(s, SearchStep(s, u), t)
  {
  }

  /** Nobody else moves a thread. */
  lemma OthersStep(s: State, a: Action, t: nat)
    requires Shaped(s) && 0 < t < |s.pcs| && !(a.Run? && a.t == t) && a != WakeUp(t)
    ensures Untouched(s, Next(s, a), t)
  {
    if a.Run? && 0 < a.t < |s.pcs| {
      EnlistOthers(s, a.t, a.list, t);
      RemoveOthers(s, a.t, t);
      SearchOthers(s, a.t, t);
    }
  }

  /** A thread's own step keeps it busy with its list, until it is idle again. */
  ghost predicate KeepsList(s: State, s': State, t: nat, list: nat) {
    && t < |s.pcs| && t < |s'.pcs|
    && var pc, pc' := s.pcs[t], s'.pcs[t];
       && !pc'.Failed?
       && ListOf(pc') == (if pc.Idle? then if list < |s.headers| then WaitsIn(list) else Nothing
                          else if pc'.Idle? then Nothing else ListOf(pc))
  }

  /** It is asleep only if it has just set its flags, or has slept before. */
  ghost predicate SleepsMarked(s: State, s': State, t: nat) {
    && t < |s.pcs| && t < |s'.pcs| && t < |s'.owners|
    && (s'.pcs[t].Sleeping? ==> s.pcs[t].Enlisted? || s' == s)
    && (s.pcs[t].Enlisted? ==>
         s'.pcs[t] == Sleeping(s.pcs[t].list) && s'.owners[t].waiting && s'.owners[t].marked)
  }

  lemma EnlistOwn(s: State, t: nat, list: nat)
    requires Inv(s) && 0 < t < |s.pcs|
    ensures KeepsList(s, EnlistStep(s, t, list), t, list) && SleepsMarked(s, EnlistStep(s, t, list), t)
  {
    assert ThreadOk(s, t);
  }

  lemma RemoveOwn(s: State, t: nat, list: nat)
    requires Inv(s) && 0 < t < |s.pcs| && !s.pcs[t].Idle?
    ensures KeepsList(s, RemoveStep(s, t), t, list)
    ensures !s.pcs[t].Sleeping? && !s.pcs[t].Enlisted? ==> SleepsMarked(s, RemoveStep(s, t), t)
  {
    assert ThreadOk(s, t);
  }

  lemma SearchOwn(s: State, t: nat, list: nat)
    requires Inv(s) && 0 < t < |s.pcs| && !s.pcs[t].Idle? && !SearchStep(s, t).pcs[t].Failed?
    ensures KeepsList(s, SearchStep(s, t), t, list)
    ensures !s.pcs[t].Sleeping? && !s.pcs[t].Enlisted? ==> SleepsMarked(s, SearchStep(s, t), t)
  {
  }

  lemma OwnStep(s: State, t: nat, list: nat)
    requires Inv(s) && 0 < t < |s.pcs|
    ensures KeepsList(s, Step(s, t, list), t, list) && SleepsMarked(s, Step(s, t, list), t)
  {
    assert ThreadOk(s, t);
    NextKeepsInv(s, Run(t, list));
    assert ThreadOk(Step(s, t, list), t);
    match s.pcs[t]
    case Unlist(_, _) | Unlink(_, _) | StalePrec(_, _) | DropSelf(_) | Unlisted(_, _) | Leave(_) =>
      RemoveOwn(s, t, list);
    case GetFirst(_) | LockFirst(_, _) | Recheck(_, _) | DropFirst(_, _, _) => SearchOwn(s, t, list);
    case Walk(_, _) | LockNext(_, _, _) | DropCur(_, _, _) | RelockSelf(_, _) => SearchOwn(s, t, list);
    case _ => EnlistOwn(s, t, list);
  }

  /** In every run, a thread is busy with the list that it was asked to wait in, and with none exactly if it is idle;
      and while it sleeps, its flag is set until a waker clears it. */
  lemma {:induction false} WaitsAsAsked(n: nat, lists: nat, actions: seq<Action>, t: nat)
    requires 0 < t <= n
    ensures var s0 := Init(n, lists);
            var s := Reach(s0, actions);
            && |s.pcs| == n + 1 && ListOf(s.pcs[t]) == AskedOf(s0, actions, t)
            && (AskedOf(s0, actions, t).Nothing? <==> s.pcs[t].Idle?)
            && FlagsOk(s0, actions, s, t)
    decreases |actions|
  {
    var s0 := Init(n, lists);
    InitOk(n, lists);
    if actions != [] {
      var most, last := actions[..|actions| - 1], actions[|actions| - 1];
      WaitsAsAsked(n, lists, most, t);
      ReachLast(s0, actions);
      ReachKeepsInv(s0, most);
      ReachKeepsInv(s0, actions);
      var s := Reach(s0, most);
      assert ThreadOk(s, t) && ThreadOk(Next(s, last), t);
      if last.Run? && last.t == t {
        OwnStep(s, t, last.list);
      } else if last != WakeUp(t) {
        OthersStep(s, last, t);
      }
    }
  }

  // ---------------------------------------------------------------------------------------------
  // A thread that nobody disturbs
  // ---------------------------------------------------------------------------------------------

  function Turns(t: nat, list: nat, k: nat): seq<Action> {
    seq(k, _ => Run(t, list))
  }

  lemma OneTurn(s: State, t: nat, list: nat, k: nat, s': State)
    requires Shaped(s) && k > 0 && Next(s, Run(t, list)) == s'
    ensures Reach(s, Turns(t, list, k)) == Reach(s', Turns(t, list, k - 1))
  {
    assert Turns(t, list, k)[1..] == Turns(t, list, k - 1);
  }

  /** It sleeps at the head of the list, with its flags set, its mutex unlocked, and both links to the old head. */
  ghost predicate HasGoneToSleep(s: State, s': State, t: nat, list: nat)
    requires Shaped(s) && t < |s.pcs| && list < |s.headers|
  {
    && s'.pcs == s.pcs[t := Sleeping(list)] && s'.headers == s.headers[list := t]
    && s'.chains == s.chains[list := [t] + s.chains[list]]
    && s'.owners == s.owners[t := Owner(s.headers[list], s.headers[list], true, true, Free)]
  }

  predicate Fits(s: State, t: nat, own: Owner, pc: Pc) {
    0 < t < |s.pcs| && own.next < |s.owners| && own.nextIndex < |s.owners| && !own.waiting && InRange(s, pc)
  }

  /** Only the thread's place and its own owner have changed. */
  function Moved(s: State, t: nat, own: Owner, pc: Pc): (s': State)
    requires Shaped(s) && Fits(s, t, own, pc)
    ensures Shaped(s') && SameSize(s, s')
  {
    Goto(Put(s, t, own), t, pc)
  }

  /** What a step on the way into a list does to the thread and its owner, when the mutex is free for it. */
  function EnlistTo(t: nat, list: nat, first: nat, own: Owner, pc: Pc): (Owner, Pc) {
    match pc
    case Idle => (own, LockSelf(list))
    case LockSelf(l) => (own.(holder := Thread(t)), ReadFirst(l))
    case ReadFirst(l) => (own, SetNextIndex(l, first))
    case SetNextIndex(l, f) => (own.(nextIndex := f), SetNext(l, f))
    case SetNext(l, f) => (own.(next := f), Prepend(l, f))
    case _ => (own, pc)
  }

  /** A thread on its way into the list, which has read the first index as it still is. */
  predicate Entering(s: State, t: nat, list: nat, own: Owner, pc: Pc) {
    && Fits(s, t, own, pc) && list < |s.headers| && s.headers[list] < |s.owners|
    && match pc
       case Idle => own.holder == Free
       case LockSelf(l) => l == list && own.holder == Free
       case ReadFirst(l) => l == list
       case SetNextIndex(l, f) => l == list && f == s.headers[list]
       case SetNext(l, f) => l == list && f == s.headers[list] == own.nextIndex
       case Prepend(l, f) => l == list && f == s.headers[list] == own.nextIndex == own.next
       case _ => false
  }

  /** How many steps it has still to go until it sleeps. */
  function StepsToSleep(pc: Pc): nat {
    match pc
    case Idle => 7
    case LockSelf(_) => 6
    case ReadFirst(_) => 5
    case SetNextIndex(_, _) => 4
    case SetNext(_, _) => 3
    case _ => 2
  }

  lemma EnlistMoves(s: State, t: nat, list: nat, own: Owner, pc: Pc)
    requires Shaped(s) && Entering(s, t, list, own, pc) && !pc.Prepend?
    ensures var to := EnlistTo(t, list, s.headers[list], own, pc);
            Fits(s, t, to.0, to.1) && Next(Moved(s, t, own, pc), Run(t, list)) == Moved(s, t, to.0, to.1)
  {
    var s1, to := Moved(s, t, own, pc), EnlistTo(t, list, s.headers[list], own, pc);
    assert s.owners[t := own][t := to.0] == s.owners[t := to.0];
    assert s.owners[t := to.0] == s1.owners || s1.owners[t := to.0] == s.owners[t := to.0];
    assert s.pcs[t := pc][t := to.1] == s.pcs[t := to.1];
    assert EnlistStep(s1, t, list) == Moved(s, t, to.0, to.1);
  }

  /** The last two prepend it to the list, and put it to sleep. */
  lemma PrependsAndSleeps(s: State, t: nat, list: nat, own: Owner)
    requires Shaped(s) && 0 < t < |s.pcs| && list < |s.headers|
    requires own.nextIndex == own.next == s.headers[list] && Fits(s, t, own, Prepend(list, s.headers[list]))
    ensures HasGoneToSleep(s, Reach(Moved(s, t, own, Prepend(list, s.headers[list])), Turns(t, list, 2)), t, list)
  {
    var s5 := Moved(s, t, own, Prepend(list, s.headers[list]));
    var s6 := Prepended(s5, t, list, Enlisted(list));
    OneTurn(s5, t, list, 2, s6);
    var s7 := EnlistStep(s6, t, list);
    OneTurn(s6, t, list, 1, s7);
    assert Turns(t, list, 0) == [];
  }

  lemma {:induction false} EntersAlone(s: State, t: nat, list: nat, own: Owner, pc: Pc)
    requires Shaped(s) && Entering(s, t, list, own, pc)
    ensures HasGoneToSleep(s, Reach(Moved(s, t, own, pc), Turns(t, list, StepsToSleep(pc))), t, list)
    decreases StepsToSleep(pc)
  {
    if pc.Prepend? {
      PrependsAndSleeps(s, t, list, own);
    } else {
      var to := EnlistTo(t, list, s.headers[list], own, pc);
      EnlistMoves(s, t, list, own, pc);
      EntersAlone(s, t, list, to.0, to.1);
      OneTurn(Moved(s, t, own, pc), t, list, StepsToSleep(pc), Moved(s, t, to.0, to.1));
    }
  }

  /** An idle thread that is asked to wait in a list sleeps there after seven steps. */
  lemma SleepsAlone(s: State, t: nat, list: nat)
    requires Inv(s) && 0 < t < |s.pcs| && list < |s.headers| && s.pcs[t].Idle? && s.owners[t].holder == Free
    ensures HasGoneToSleep(s, Reach(s, Turns(t, list, 7)), t, list)
  {
    assert ThreadOk(s, t);
    assert s == Moved(s, t, s.owners[t], Idle);
    EntersAlone(s, t, list, s.owners[t], Idle);
  }

  /** Nobody but t has locked an owner. */
  ghost predicate Undisturbed(s: State, t: nat) {
    forall o :: 0 < o < |s.owners| ==> s.owners[o].holder == Free || s.owners[o].holder == Thread(t)
  }

  /** It has slept, and is on its way out of its list; the first waiter that it has read is still the first. */
  predicate Leaving(s: State, t: nat) {
    t < |s.pcs| &&
    match s.pcs[t]
    case Idle | Failed | LockSelf(_) | ReadFirst(_) | SetNextIndex(_, _) | SetNext(_, _) | Prepend(_, _) => false
    case Enlisted(_) => false
    case DropFirst(_, _, _) => false
    case LockFirst(l, first) => l < |s.headers| && s.headers[l] == first
    case Recheck(l, first) => l < |s.headers| && s.headers[l] == first
    case _ => true
  }

  /** How many steps it has still to go. */
  function StepsToLeave(s: State, t: nat): nat
    requires Shaped(s) && t < |s.pcs|
  {
    var pc := s.pcs[t];
    if ListOf(pc).Nothing? then 0
    else
      var c := s.chains[pc.list];
      var n := 3 * |c|;
      match pc
      case Sleeping(_) => n + 10
      case Unlist(l, prec) => if prec != 0 then 4 else if s.headers[l] == t then 3 else n + 9
      case DropSelf(_) => n + 8
      case GetFirst(_) => n + 7
      case LockFirst(_, _) => n + 6
      case Recheck(_, _) => n + 5
      case Walk(_, cur) => 3 * Wakers.Rank(c, cur) + 3
      case LockNext(_, cur, _) => 3 * Wakers.Rank(c, cur) + 2
      case DropCur(_, cur, _) => 3 * Wakers.Rank(c, cur) + 1
      case RelockSelf(_, _) => 5
      case Unlink(_, _) => 3
      case Unlisted(_, _) => 2
      case Leave(_) => 1
      case _ => 0
  }

  /** The mutex that it needs next is free. */
  lemma NextIsFree(s: State, t: nat, o: nat)
    requires Inv(s) && Undisturbed(s, t) && 0 < t < |s.pcs| && 0 < o < |s.owners| && !Holds(s.pcs[t], t, o)
    ensures s.owners[o].holder == Free
  {
  }

  ghost predicate GetsOn(s: State, s': State, t: nat)
    requires Shaped(s) && t < |s.pcs|
  {
    && Shaped(s') && t < |s'.pcs| == |s'.owners|
    && ((s'.pcs[t].Idle? && !s'.owners[t].marked) || (Leaving(s', t) && StepsToLeave(s', t) < StepsToLeave(s, t)))
  }

  lemma SleeperGetsOn(s: State, t: nat)
    requires Inv(s) && Undisturbed(s, t) && 0 < t < |s.pcs| && s.pcs[t].Sleeping?
    ensures GetsOn(s, EnlistStep(s, t, 0), t)
  {
    NextIsFree(s, t, t);
  }

  lemma UnlisterGetsOn(s: State, t: nat)
    requires Inv(s) && 0 < t < |s.pcs| && (s.pcs[t].Unlist? || s.pcs[t].Unlink?)
    ensures GetsOn(s, RemoveStep(s, t), t)
  {
    assert ThreadOk(s, t) && ListOk(s, s.pcs[t].list);
  }

  lemma UnlockerGetsOn(s: State, t: nat)
    requires Inv(s) && 0 < t < |s.pcs| && (s.pcs[t].DropSelf? || s.pcs[t].Unlisted? || s.pcs[t].Leave?)
    ensures GetsOn(s, RemoveStep(s, t), t)
  {
  }

  lemma FinderGetsOn(s: State, t: nat)
    requires Inv(s) && Undisturbed(s, t) && 0 < t < |s.pcs| && Leaving(s, t)
    requires s.pcs[t].GetFirst? || s.pcs[t].LockFirst? || s.pcs[t].Recheck?
    ensures GetsOn(s, SearchStep(s, t), t)
  {
    assert ThreadOk(s, t);
    var l := s.pcs[t].list;
    assert ListOk(s, l);
    var c := s.chains[l];
    assert t in c;
    if s.pcs[t].LockFirst? {
      NextIsFree(s, t, s.pcs[t].first);
    }
    Wakers.RankOf(c, Head(c));
  }

  lemma RelockerGetsOn(s: State, t: nat)
    requires Inv(s) && Undisturbed(s, t) && 0 < t < |s.pcs| && s.pcs[t].RelockSelf?
    ensures GetsOn(s, SearchStep(s, t), t)
  {
    assert ThreadOk(s, t);
    NextIsFree(s, t, t);
  }

  lemma WalkerGetsOn(s: State, t: nat)
    requires Inv(s) && 0 < t < |s.pcs| && s.pcs[t].Walk?
    ensures GetsOn(s, SearchStep(s, t), t)
  {
    assert ThreadOk(s, t) && ListOk(s, s.pcs[t].list);
    var c := s.chains[s.pcs[t].list];
    BeforeSucc(c, s.pcs[t].cur, t);
    Wakers.RankOf(c, s.pcs[t].cur);
  }

  lemma StepperGetsOn(s: State, t: nat)
    requires Inv(s) && Undisturbed(s, t) && 0 < t < |s.pcs| && (s.pcs[t].LockNext? || s.pcs[t].DropCur?)
    ensures GetsOn(s, SearchStep(s, t), t)
  {
    assert ThreadOk(s, t);
    var l := s.pcs[t].list;
    assert ListOk(s, l);
    var c := s.chains[l];
    BeforeMember(c, s.pcs[t].cur, t);
    Wakers.RankOf(c, s.pcs[t].cur);
    if s.pcs[t].LockNext? {
      NextIsFree(s, t, s.pcs[t].next);
    }
  }

  /** What the thread changes on its way out. */
  ghost predicate OnlyLeaves(s: State, s': State, t: nat) {
    && |s'.pcs| == |s.pcs| && |s'.owners| == |s.owners| && |s'.chains| == |s.chains|
    && (forall u :: 0 <= u < |s.pcs| && u != t ==> s'.pcs[u] == s.pcs[u])
    && (forall o :: 0 <= o < |s.owners| && o != t ==>
         s'.owners[o].waiting == s.owners[o].waiting && s'.owners[o].marked == s.owners[o].marked)
    && (forall l :: 0 <= l < |s.chains| ==> Without(s'.chains[l], t) == Without(s.chains[l], t))
  }

  lemma {:induction false} WithoutNone(c: seq<nat>, x: nat)
    requires x !in c
    ensures Without(c, x) == c
  {
    if c != [] {
      WithoutNone(c[1..], x);
    }
  }

  lemma LeaverOnlyLeaves(s: State, s': State, t: nat)
    requires Inv(s) && Inv(s') && 0 < t < |s.pcs| == |s'.pcs| && |s'.headers| == |s.headers|
    requires WakerSteps.IsOwn(s, s', t) && (Leaving(s, t) && (Leaving(s', t) || s'.pcs[t].Idle?))
    requires ListOf(s'.pcs[t]) == ListOf(s.pcs[t]) || s'.pcs[t].Idle?
    requires s.pcs[t].Unlisted? || s.pcs[t].Leave? ==> s'.pcs[t].Leave? || s'.pcs[t].Idle?
    ensures OnlyLeaves(s, s', t) && (Undisturbed(s, t) ==> Undisturbed(s', t))
  {
    forall l | 0 <= l < |s.chains| ensures Without(s'.chains[l], t) == Without(s.chains[l], t) {
      var c, c' := s.chains[l], s'.chains[l];
      assert ListOk(s, l) && ListOk(s', l) && WakerSteps.ListMoves(s, c, c', t);
      if t !in c {
        assert t !in c';
      } else if c' != c {
        WithoutMembers(c, t, t);
        WithoutNone(c', t);
      }
    }
  }

  lemma LeaverGetsOn(s: State, t: nat)
    requires Inv(s) && Undisturbed(s, t) && 0 < t < |s.pcs| && Leaving(s, t)
    ensures GetsOn(s, Next(s, Run(t, 0)), t)
  {
    assert ThreadOk(s, t);
    match s.pcs[t]
    case Unlist(_, _) | Unlink(_, _) => UnlisterGetsOn(s, t);
    case DropSelf(_) | Unlisted(_, _) | Leave(_) => UnlockerGetsOn(s, t);
    case GetFirst(_) | LockFirst(_, _) | Recheck(_, _) => FinderGetsOn(s, t);
    case Walk(_, _) => WalkerGetsOn(s, t);
    case RelockSelf(_, _) => RelockerGetsOn(s, t);
    case LockNext(_, _, _) | DropCur(_, _, _) => StepperGetsOn(s, t);
    case Sleeping(_) => SleeperGetsOn(s, t);
    case _ =>
  }

  lemma LeaverStep(s: State, t: nat)
    requires Inv(s) && Undisturbed(s, t) && 0 < t < |s.pcs| && Leaving(s, t)
    ensures var s' := Next(s, Run(t, 0)); Inv(s') && GetsOn(s, s', t) && OnlyLeaves(s, s', t) && Undisturbed(s', t)
  {
    NextKeepsInv(s, Run(t, 0));
    WakerSteps.ThreadIsOwn(s, t, 0);
    OwnStep(s, t, 0);
    LeaverGetsOn(s, t);
    if s.pcs[t].Unlisted? || s.pcs[t].Leave? {
      UnlistedLeaves(s, t);
    }
    LeaverOnlyLeaves(s, Next(s, Run(t, 0)), t);
  }

  lemma UnlistedLeaves(s: State, t: nat)
    requires Shaped(s) && 0 < t < |s.pcs| && (s.pcs[t].Unlisted? || s.pcs[t].Leave?)
    ensures var pc' := Next(s, Run(t, 0)).pcs[t]; pc'.Leave? || pc'.Idle?
  {
  }

  /** It is in no list any more, the others are as they were, and all mutexes are free. */
  ghost predicate HasLeft(s: State, s': State, t: nat) {
    && OnlyLeaves(s, s', t) && t < |s'.pcs| && t < |s'.owners| && s'.pcs[t].Idle?
    && !s'.owners[t].marked && !s'.owners[t].waiting
    && (forall l :: 0 <= l < |s.chains| ==> s'.chains[l] == Without(s.chains[l], t))
    && forall o :: 0 < o < |s'.owners| ==> s'.owners[o].holder == Free
  }

  lemma LeftAtOnce(s: State, s': State, t: nat)
    requires Inv(s) && Inv(s') && 0 < t < |s.pcs| && OnlyLeaves(s, s', t) && Undisturbed(s', t)
    requires s'.pcs[t].Idle? && !s'.owners[t].marked
    ensures HasLeft(s, s', t)
  {
    assert ThreadOk(s', t);
    forall l | 0 <= l < |s.chains| ensures s'.chains[l] == Without(s.chains[l], t) {
      assert ListOk(s', l);
      WithoutNone(s'.chains[l], t);
    }
  }

  lemma LeavesTwice(s: State, s1: State, s2: State, t: nat)
    requires OnlyLeaves(s, s1, t) && HasLeft(s1, s2, t)
    ensures HasLeft(s, s2, t)
  {
  }

  /** A thread that has been woken up, or has slept long enough, leaves its list by its own steps, if nobody else has
      locked an owner: in at most three for each waiter and ten more it is idle again, its flags are clear, and the list
      is what it was without it. */
  lemma {:induction false} LeavesAlone(s: State, t: nat) returns (k: nat)
    requires Inv(s) && Undisturbed(s, t) && 0 < t < |s.pcs| && Leaving(s, t)
    ensures k <= StepsToLeave(s, t) && HasLeft(s, Reach(s, Turns(t, 0, k)), t)
    ensures s.pcs[t].Sleeping? ==> k <= 3 * |s.chains[s.pcs[t].list]| + 10
    decreases StepsToLeave(s, t)
  {
    var s' := Next(s, Run(t, 0));
    LeaverStep(s, t);
    if s'.pcs[t].Idle? {
      k := 1;
      LeftAtOnce(s, s', t);
      OneTurn(s, t, 0, 1, s');
      assert Turns(t, 0, 0) == [];
    } else {
      k := LeavesAlone(s', t);
      LeavesTwice(s, s', Reach(s', Turns(t, 0, k)), t);
      k := k + 1;
      OneTurn(s, t, 0, k, s');
    }
  }
}
