/** What each step of a thread or a waker does to what wakers know and hold (src/picotm_lock_manager.c:244-819).
    - What a waker knows of its list stays true as long as others leave its owners alone, keep the order of the list,
      join at the front, and let nobody wait that does not wait already.
    - Threads do so, since whoever leaves a list holds its own mutex and that of its predecessor.
    - Other wakers do so, since they change no link and hold other owners.
    - A waker's own step leaves it with what it has to know at its next place. */
module WakerSteps {
  import opened Common
  import opened WaiterList
  import opened WaiterSteps
  import opened Wakers

  // ---------------------------------------------------------------------------------------------
  // Steps of others
  // ---------------------------------------------------------------------------------------------

  /** One list as seen by somebody who holds some owners: those stay where they are, the others keep their order, new
      ones come to the front, and who is calm stays so. */
  ghost predicate ListRespects(s: State, s': State, held: set<nat>, c: seq<nat>, c': seq<nat>) {
    && (forall o :: o in held && o in c ==> o in c' && Succ(c', o) == Succ(c, o))
    && (forall a, b :: a in c && b in c && a in c' && b in c' ==> (Before(c', a, b) <==> Before(c, a, b)))
    && (forall a, b :: a in c' && a !in c && b in c && b in c' ==> Before(c', a, b))
    && (forall o :: o in c && o in c' && Calm(s, o) ==> Calm(s', o))
  }

  ghost predicate Respects(s: State, s': State, held: set<nat>) {
    && |s'.owners| == |s.owners| && |s'.headers| == |s.headers| == |s.chains| == |s'.chains|
    && (forall o :: o in held && o < |s.owners| ==> s'.owners[o] == s.owners[o])
    && forall l :: 0 <= l < |s.chains| ==> ListRespects(s, s', held, s.chains[l], s'.chains[l])
  }

  /** What a waker knows stays true when the others do so. */
  lemma WalkStable(s: State, s': State, w: Walk)
    requires Inv(s) && Inv(s') && WalkOk(s, w) && Respects(s, s', Held(w))
    ensures WalkOk(s', w)
  {
    if Picking(w) {
      PickingStable(s, s', w);
    } else if !w.Resting? {
      assert ListOk(s, w.list) && ListOk(s', w.list);
      assert ListRespects(s, s', Held(w), s.chains[w.list], s'.chains[w.list]);
    }
  }

  lemma PickingStable(s: State, s': State, w: Walk)
    requires Inv(s) && Inv(s') && WalkOk(s, w) && Respects(s, s', Held(w)) && Picking(w)
    ensures WalkOk(s', w)
  {
    var c, c' := s.chains[w.list], s'.chains[w.list];
    assert ListOk(s, w.list) && ListOk(s', w.list) && ListRespects(s, s', Held(w), c, c');
    if w.Rouse? {
      PickedStable(s, s', Held(w), c, c', w.first, w.picked);
    } else {
      PassingStable(s, s', Held(w), c, c', w.first, w.picked, w.cur);
    }
  }

  lemma PickedStable(s: State, s': State, held: set<nat>, c: seq<nat>, c': seq<nat>, first: nat, picked: nat)
    requires Distinct(c') && 0 !in c' && 0 !in c && ListRespects(s, s', held, c, c') && PickedOk(s, c, first, picked)
    requires first in held && (picked != 0 ==> picked in held) && |s'.owners| == |s.owners|
    requires forall o :: o in held && o < |s.owners| ==> s'.owners[o] == s.owners[o]
    ensures PickedOk(s', c', first, picked)
    ensures CalmBehind(s, c, first, picked) ==> CalmBehind(s', c', first, picked)
    ensures forall o :: o in c' && Behind(c', first, picked, o) ==> o in c && Behind(c, first, picked, o)
  {
    forall o | o in c' && Behind(c', first, picked, o) ensures o in c && Behind(c, first, picked, o) {
      if o !in c {
        BeforeIff(c', o, first);
        BeforeIff(c', first, o);
        if picked != 0 {
          BeforeIff(c', o, picked);
          BeforeIff(c', picked, o);
        }
      }
    }
  }

  lemma PassingStable(s: State, s': State, held: set<nat>, c: seq<nat>, c': seq<nat>, first: nat, picked: nat, cur: nat)
    requires Distinct(c') && 0 !in c' && 0 !in c && ListRespects(s, s', held, c, c')
    requires Passing(s, c, first, picked, cur) && first in held && cur in held && (picked != 0 ==> picked in held)
    requires |s'.owners| == |s.owners| && forall o :: o in held && o < |s.owners| ==> s'.owners[o] == s.owners[o]
    ensures Passing(s', c', first, picked, cur)
    ensures CalmBefore(s, c, first, picked, cur) ==> CalmBefore(s', c', first, picked, cur)
    ensures CalmUpTo(s, c, first, picked, cur) ==> CalmUpTo(s', c', first, picked, cur)
  {
    PickedStable(s, s', held, c, c', first, picked);
  }

  // ---------------------------------------------------------------------------------------------
  // A waker's own steps
  // ---------------------------------------------------------------------------------------------

  /** A waker changes the mutexes of the owners that it takes or leaves, and clears waiting flags of its own owners. */
  ghost predicate Own(s: State, s': State, before: set<nat>, after: set<nat>) {
    && s' == s.(owners := s'.owners) && |s'.owners| == |s.owners|
    && (forall o :: o in after && o !in before && o < |s.owners| ==> s.owners[o].holder == Free)
    && forall o :: 0 <= o < |s.owners| ==>
         && s'.owners[o].next == s.owners[o].next
         && (s'.owners[o].waiting ==> s.owners[o].waiting)
         && (o !in before && o !in after ==> s'.owners[o] == s.owners[o])
         && s'.owners[o].holder == if o in after then Waker else if o in before then Free else s.owners[o].holder
  }

  ghost predicate HoldsAll(s: State, held: set<nat>) {
    forall o :: o in held ==> 0 < o < |s.owners| && s.owners[o].holder == Waker
  }

  lemma NextPlace(c: seq<nat>, cur: nat, o: nat)
    requires Distinct(c) && 0 !in c && cur in c && o in c
    ensures var next := Succ(c, cur);
            if next == 0 then UpTo(c, o, cur)
            else next in c && next != cur && Before(c, cur, next) && (Before(c, o, next) <==> UpTo(c, o, cur))
  {
    RankOf(c, cur);
    RankOf(c, o);
    SuccMember(c, cur);
    BeforeIff(c, o, cur);
    if Succ(c, cur) != 0 {
      BeforeIff(c, o, Succ(c, cur));
      BeforeIff(c, cur, Succ(c, cur));
    }
  }

  /** Whoever is locked by a waker is not about to wait. */
  lemma LockedIsCalm(s: State, o: nat)
    requires Inv(s) && 0 < o < |s.owners| && s.owners[o].holder == Waker && !s.owners[o].waiting
    ensures Calm(s, o)
  {
    assert Holds(s.pcs[o], o, o) <==> s.owners[o].holder == Thread(o);
  }

  lemma OwnAction(s: State, a: Action, before: set<nat>, after: set<nat>)
    requires Shaped(s) && HoldsAll(s, before) && Moves(s, a, before, after)
    ensures Own(s, Next(s, a), before, after) && HoldsAll(Next(s, a), after)
  {
  }

  /** The owners that the waker is about to take or leave are not null, and it leaves none that it keeps. */
  predicate Apart(w: Walk) {
    match w
    case TakeFirst(_, first) => first != 0
    case CheckFirst(_, first) => first != 0
    case LeaveFirst(_, first, _) => first != 0
    case LeaveOld(_, first, picked, cur) => picked !in {0, first, cur}
    case TakeNext(_, _, _, _, next) => next != 0
    case LeaveCur(_, _, _, cur, next) => cur !in {0, next}
    case LeavePicked(_, first, picked, _) => picked !in {0, first}
    case Sweep(_, cur) => cur != 0
    case TakeReader(_, _, next) => next != 0
    case LeaveReader(_, cur, next) => cur !in {0, next}
    case LeaveLast(_, first) => first != 0
    case _ => true
  }

  lemma WalkApart(s: State, w: Walk)
    requires Inv(s) && WalkOk(s, w)
    ensures Apart(w)
  {
    if w.LeaveCur? || w.LeaveReader? || w.Sweep? {
      assert ListOk(s, w.list);
      NextPlace(s.chains[w.list], w.cur, w.cur);
    }
  }

  ghost predicate Moves(s: State, a: Action, before: set<nat>, after: set<nat>) {
    match a
    case WakerLock(o) =>
      0 < o < |s.owners| && after == if s.owners[o].holder == Free then before + {o} else before
    case WakerUnlock(o) => after == before - {o} && (o == 0 || o in before)
    case WakeUp(o) => after == before && (o == 0 || o in before)
    case Run(_, _) => false
  }

  lemma MovesFirst(s: State, w: Walk, list: nat, reader: bool)
    requires Shaped(s) && WalkInRange(s, w) && Apart(w)
    requires w.Resting? || w.Seek? || w.TakeFirst? || w.CheckFirst? || w.LeaveFirst? || w.LeaveLast?
    ensures Moves(s, ActionOf(s, w, reader), Held(w), Held(WalkOn(s, w, list, reader)))
  {
  }

  lemma MovesPick(s: State, w: Walk, list: nat, reader: bool)
    requires Shaped(s) && WalkInRange(s, w) && Apart(w)
    requires w.Look? || w.LeaveOld? || w.Onwards? || w.TakeNext? || w.LeaveCur?
    ensures Moves(s, ActionOf(s, w, reader), Held(w), Held(WalkOn(s, w, list, reader)))
  {
  }

  lemma MovesWake(s: State, w: Walk, list: nat, reader: bool)
    requires Shaped(s) && WalkInRange(s, w) && Apart(w)
    requires w.Rouse? || w.LeavePicked? || w.Sweep? || w.SweepOn? || w.TakeReader? || w.LeaveReader?
    ensures Moves(s, ActionOf(s, w, reader), Held(w), Held(WalkOn(s, w, list, reader)))
  {
  }

  /** What a waker's step does to its owners. */
  lemma OwnStep(s: State, w: Walk, list: nat, reader: bool)
    requires Inv(s) && WalkOk(s, w) && HoldsAll(s, Held(w))
    ensures var s', w' := Next(s, ActionOf(s, w, reader)), WalkOn(s, w, list, reader);
            Own(s, s', Held(w), Held(w')) && HoldsAll(s', Held(w'))
  {
    WalkApart(s, w);
    StepMoves(s, w, list, reader);
    OwnAction(s, ActionOf(s, w, reader), Held(w), Held(WalkOn(s, w, list, reader)));
  }

  lemma StepMoves(s: State, w: Walk, list: nat, reader: bool)
    requires Shaped(s) && WalkInRange(s, w) && Apart(w)
    ensures Moves(s, ActionOf(s, w, reader), Held(w), Held(WalkOn(s, w, list, reader)))
  {
    if w.Look? || w.LeaveOld? || w.Onwards? || w.TakeNext? || w.LeaveCur? {
      MovesPick(s, w, list, reader);
    } else if w.Rouse? || w.LeavePicked? || w.Sweep? || w.SweepOn? || w.TakeReader? || w.LeaveReader? {
      MovesWake(s, w, list, reader);
    } else {
      MovesFirst(s, w, list, reader);
    }
  }

  lemma LookKnows(s: State, w: Walk, list: nat, reader: bool)
    requires Inv(s) && WalkOk(s, w) && HoldsAll(s, Held(w)) && w.Look?
    ensures WalkOk(s, WalkOn(s, w, list, reader))
  {
    assert ListOk(s, w.list);
    if s.owners[w.cur].waiting {
      NobodyBetween(s.chains[w.list], w.cur);
    } else {
      LockedIsCalm(s, w.cur);
    }
  }

  lemma NobodyBetween(c: seq<nat>, cur: nat)
    requires Distinct(c) && 0 !in c && cur in c
    ensures forall o :: o in c && Before(c, cur, o) ==> !UpTo(c, o, cur)
  {
    forall o | o in c && Before(c, cur, o) ensures !UpTo(c, o, cur) {
      BeforeIff(c, o, cur);
      BeforeIff(c, cur, o);
    }
  }

  lemma CheckKnows(s: State, w: Walk, list: nat, reader: bool)
    requires Inv(s) && WalkOk(s, w) && w.CheckFirst?
    ensures WalkOk(s, WalkOn(s, w, list, reader))
  {
    var c := s.chains[w.list];
    assert ListOk(s, w.list);
    if s.headers[w.list] == w.first {
      forall o | o in c && Behind(c, w.first, 0, o) ensures !Before(c, o, w.first) {
        BeforeIff(c, o, w.first);
        BeforeIff(c, w.first, o);
      }
    }
  }

  lemma ArriveKnows(s: State, w: Walk, list: nat, reader: bool)
    requires Inv(s) && WalkOk(s, w) && w.LeaveCur?
    ensures WalkOk(s, WalkOn(s, w, list, reader))
  {
    var c := s.chains[w.list];
    assert ListOk(s, w.list);
    NextPlace(c, w.cur, w.cur);
    NextPlace(c, w.cur, w.first);
    if w.picked != 0 {
      NextPlace(c, w.cur, w.picked);
    }
    forall o | o in c && Behind(c, w.first, w.picked, o) && (w.next == 0 || Before(c, o, w.next)) ensures Calm(s, o) {
      NextPlace(c, w.cur, o);
    }
    if w.next != 0 && w.picked == w.next {
      BeforeIff(c, w.picked, w.picked);
    }
  }

  lemma LeaveOldKnows(s: State, w: Walk, list: nat, reader: bool)
    requires Inv(s) && WalkOk(s, w) && w.LeaveOld?
    ensures WalkOk(s, WalkOn(s, w, list, reader))
  {
    assert ListOk(s, w.list);
    NobodyBetween(s.chains[w.list], w.cur);
  }

  /** What the waker learns by a step. */
  lemma StepKnows(s: State, w: Walk, list: nat, reader: bool)
    requires Inv(s) && WalkOk(s, w) && HoldsAll(s, Held(w))
    ensures WalkOk(s, WalkOn(s, w, list, reader))
  {
    if w.Look? {
      LookKnows(s, w, list, reader);
    } else if w.CheckFirst? {
      CheckKnows(s, w, list, reader);
    } else if w.LeaveCur? {
      ArriveKnows(s, w, list, reader);
    } else if w.LeaveOld? {
      LeaveOldKnows(s, w, list, reader);
    } else {
      OtherKnows(s, w, list, reader);
    }
  }

  lemma OtherKnows(s: State, w: Walk, list: nat, reader: bool)
    requires Inv(s) && WalkOk(s, w) && !w.Look? && !w.CheckFirst? && !w.LeaveCur? && !w.LeaveOld?
    ensures WalkOk(s, WalkOn(s, w, list, reader))
  {
    if !w.Resting? {
      assert ListOk(s, w.list);
      if w.Sweep? || w.SweepOn? || w.TakeReader? || w.LeaveReader? {
        NextPlace(s.chains[w.list], w.cur, w.cur);
      }
    }
  }

  /** The waker still looks for somebody who waits. */
  predicate Picking(w: Walk) {
    w.Look? || w.LeaveOld? || w.Onwards? || w.TakeNext? || w.LeaveCur? || w.Rouse?
  }

  /** Mutexes do not matter to what a waker knows, nor do the flags, once it does not pick any more. */
  lemma FlagsCleared(s: State, s': State, w: Walk)
    requires Shaped(s) && Shaped(s') && WalkOk(s, w) && s' == s.(owners := s'.owners) && |s'.owners| == |s.owners|
    requires forall o :: 0 <= o < |s.owners| ==> (s'.owners[o].waiting ==> s.owners[o].waiting)
    requires Picking(w) ==> forall o :: 0 <= o < |s.owners| ==> s'.owners[o].waiting == s.owners[o].waiting
    ensures WalkOk(s', w)
  {
    assert forall o :: Calm(s, o) ==> Calm(s', o);
  }

  lemma WakesWhenPicked(s: State, w: Walk, list: nat, reader: bool)
    requires Inv(s) && WalkOk(s, w) && Picking(WalkOn(s, w, list, reader))
    ensures var s' := Next(s, ActionOf(s, w, reader));
            forall o :: 0 <= o < |s.owners| ==> s'.owners[o].waiting == s.owners[o].waiting
  {
  }

  /** A waker's step keeps what it knows. */
  lemma OwnWalkOk(s: State, w: Walk, list: nat, reader: bool)
    requires Inv(s) && WalkOk(s, w) && HoldsAll(s, Held(w))
    ensures var s' := Next(s, ActionOf(s, w, reader)); Inv(s') && WalkOk(s', WalkOn(s, w, list, reader))
  {
    var s', w' := Next(s, ActionOf(s, w, reader)), WalkOn(s, w, list, reader);
    NextKeepsInv(s, ActionOf(s, w, reader));
    OwnStep(s, w, list, reader);
    StepKnows(s, w, list, reader);
    if Picking(w') {
      WakesWhenPicked(s, w, list, reader);
    }
    FlagsCleared(s, s', w');
  }

  // ---------------------------------------------------------------------------------------------
  // Steps of threads
  // ---------------------------------------------------------------------------------------------

  /** The list stays, or t comes to the front, or t leaves it, and changes no link of an owner that a waker holds. */
  ghost predicate ListMoves(s: State, c: seq<nat>, c': seq<nat>, t: nat) {
    || c' == c
    || (t !in c && c' == [t] + c)
    || (&& t < |s.owners| && s.owners[t].holder == Thread(t) && t in c && c' == Without(c, t)
        && forall o :: o in c' && o < |s.owners| && s.owners[o].holder == Waker ==> Succ(c', o) == Succ(c, o))
  }

  /** A thread that is in a list, and not about to sleep, does not become so by its own step. */
  predicate StaysCalm(s: State, s': State, t: nat) {
    && t < |s.pcs| == |s'.pcs| && |s.owners| == |s'.owners| == |s.pcs|
    && (Calm(s, t) && !s.pcs[t].Prepend? ==> Calm(s', t))
  }

  /** A step of t that leaves all lists alone. */
  ghost predicate Quiet(s: State, s': State, t: nat) {
    t < |s'.pcs| && Touches(s, s', t) && StaysCalm(s, s', t) && s'.pcs == s.pcs[t := s'.pcs[t]] && s'.chains == s.chains
  }

  lemma LockIsQuiet(s: State, t: nat, o: nat, pc: Pc)
    requires Shaped(s) && t < |s.pcs| && o < |s.owners| && InRange(s, pc) && !pc.Enlisted?
    ensures Quiet(s, Lock(s, t, o, pc), t)
  {
  }

  lemma UnlockIsQuiet(s: State, t: nat, o: nat, pc: Pc)
    requires Shaped(s) && t < |s.pcs| && o < |s.owners| && InRange(s, pc) && !pc.Enlisted?
    requires s.owners[o].holder == Thread(t)
    ensures Quiet(s, Unlock(s, t, o, pc), t)
  {
  }

  lemma HoldsIff(s: State, t: nat, o: nat)
    requires Inv(s) && 0 < t < |s.pcs| && 0 < o < |s.owners|
    ensures Holds(s.pcs[t], t, o) <==> s.owners[o].holder == Thread(t)
  {
  }

  /** A step of t, as others see it. */
  ghost predicate IsOwn(s: State, s': State, t: nat) {
    && t < |s'.pcs| && Touches(s, s', t) && StaysCalm(s, s', t) && s'.pcs == s.pcs[t := s'.pcs[t]]
    && |s'.chains| == |s.chains|
    && forall l :: 0 <= l < |s.chains| ==> ListMoves(s, s.chains[l], s'.chains[l], t)
  }

  lemma EnlistIsOwn(s: State, t: nat, list: nat)
    requires Inv(s) && 0 < t < |s.pcs|
    ensures IsOwn(s, EnlistStep(s, t, list), t)
  {
    assert ThreadOk(s, t);
    HoldsIff(s, t, t);
    if s.pcs[t].Prepend? {
      assert ListOk(s, s.pcs[t].list);
    }
  }

  lemma RemoveIsOwn(s: State, t: nat)
    requires Inv(s) && 0 < t < |s.pcs| && (s.pcs[t].Unlist? || s.pcs[t].Unlink?)
    ensures IsOwn(s, RemoveStep(s, t), t)
  {
    var l, prec := s.pcs[t].list, s.pcs[t].prec;
    assert ThreadOk(s, t);
    HoldsIff(s, t, t);
    if prec != 0 {
      HoldsIff(s, t, prec);
    }
    if s.pcs[t].Unlink? || (prec == 0 && s.headers[l] == t) {
      RemovalMoves(s, t, l, prec);
    }
  }

  lemma RemovalMoves(s: State, t: nat, l: nat, prec: nat)
    requires Inv(s) && 0 < t < |s.pcs| && l < |s.headers| && InList(s.pcs[t], l) && s.owners[t].holder == Thread(t)
    requires if prec == 0 then s.headers[l] == t
             else
               && prec < |s.owners| && s.owners[prec].holder == Thread(t)
               && prec in s.chains[l] && Succ(s.chains[l], prec) == t
    ensures ListMoves(s, s.chains[l], Without(s.chains[l], t), t)
  {
    var c := s.chains[l];
    assert ListOk(s, l) && t in c;
    RemovalKeeps(c, t, prec);
  }

  lemma LeaveIsOwn(s: State, t: nat)
    requires Inv(s) && 0 < t < |s.pcs| && (s.pcs[t].DropSelf? || s.pcs[t].Unlisted? || s.pcs[t].Leave?)
    ensures IsOwn(s, RemoveStep(s, t), t)
  {
    HoldsIff(s, t, t);
    match s.pcs[t]
    case DropSelf(l) => UnlockIsQuiet(s, t, t, GetFirst(l));
    case Unlisted(l, prec) =>
      if prec != 0 {
        HoldsIff(s, t, prec);
        UnlockIsQuiet(s, t, prec, Leave(l));
      }
    case _ =>
  }

  lemma FirstIsOwn(s: State, t: nat)
    requires Inv(s) && 0 < t < |s.pcs|
    requires s.pcs[t].GetFirst? || s.pcs[t].LockFirst? || s.pcs[t].Recheck? || s.pcs[t].DropFirst?
    ensures IsOwn(s, SearchStep(s, t), t)
  {
    assert ThreadOk(s, t);
    match s.pcs[t]
    case LockFirst(l, first) => LockIsQuiet(s, t, first, Recheck(l, first));
    case DropFirst(l, first, again) =>
      HoldsIff(s, t, first);
      UnlockIsQuiet(s, t, first, LockFirst(l, again));
    case _ =>
  }

  lemma WalkIsOwn(s: State, t: nat)
    requires Inv(s) && 0 < t < |s.pcs|
    requires s.pcs[t].Walk? || s.pcs[t].LockNext? || s.pcs[t].DropCur? || s.pcs[t].RelockSelf?
    ensures IsOwn(s, SearchStep(s, t), t)
  {
    assert ThreadOk(s, t);
    match s.pcs[t]
    case LockNext(l, cur, next) => LockIsQuiet(s, t, next, DropCur(l, cur, next));
    case DropCur(l, cur, next) =>
      HoldsIff(s, t, cur);
      UnlockIsQuiet(s, t, cur, WaiterList.Walk(l, next));
    case RelockSelf(l, prec) => LockIsQuiet(s, t, t, Unlist(l, prec));
    case _ =>
  }

  lemma ThreadIsOwn(s: State, t: nat, list: nat)
    requires Inv(s) && 0 < t < |s.pcs|
    ensures IsOwn(s, WaiterList.Step(s, t, list), t)
  {
    assert ThreadOk(s, t);
    match s.pcs[t]
    case Unlist(_, _) | Unlink(_, _) => RemoveIsOwn(s, t);
    case DropSelf(_) | Unlisted(_, _) | Leave(_) => LeaveIsOwn(s, t);
    case GetFirst(_) | LockFirst(_, _) | Recheck(_, _) | DropFirst(_, _, _) => FirstIsOwn(s, t);
    case Walk(_, _) | LockNext(_, _, _) | DropCur(_, _, _) | RelockSelf(_, _) => WalkIsOwn(s, t);
    case _ => EnlistIsOwn(s, t, list);
  }

  /** The order of a list when one leaves or comes to the front. */
  lemma MovesKeepOrder(s: State, c: seq<nat>, c': seq<nat>, t: nat, a: nat, b: nat)
    requires ListMoves(s, c, c', t) && Distinct(c) && Distinct(c') && 0 !in c && 0 !in c'
    ensures a in c && b in c && a in c' && b in c' ==> (Before(c', a, b) <==> Before(c, a, b))
    ensures a in c' && a !in c && b in c && b in c' ==> Before(c', a, b)
  {
    if a in c && b in c && a in c' && b in c' {
      if t in c && c' == Without(c, t) {
        WithoutMembers(c, t, a);
        WithoutMembers(c, t, b);
        BeforeIff(c, a, b);
        BeforeIff(c, b, a);
        BeforeIff(c', a, b);
        BeforeIff(c', b, a);
        if Before(c, a, b) {
          WithoutBefore(c, t, a, b);
        } else if Before(c, b, a) {
          WithoutBefore(c, t, b, a);
        }
      }
    } else if a in c' && a !in c && c' == Without(c, t) {
      WithoutMembers(c, t, a);
    }
  }

  lemma MovesKeepMembers(s: State, c: seq<nat>, c': seq<nat>, t: nat, o: nat)
    requires ListMoves(s, c, c', t) && Distinct(c) && 0 !in c && o in c && o < |s.owners| && s.owners[o].holder == Waker
    ensures o in c' && Succ(c', o) == Succ(c, o)
  {
    if c' == Without(c, t) {
      WithoutMembers(c, t, o);
    }
  }

  /** No step of a thread disturbs a waker. */
  lemma ThreadRespects(s: State, t: nat, list: nat, held: set<nat>)
    requires Inv(s) && HoldsAll(s, held)
    ensures Respects(s, Next(s, Run(t, list)), held) && HoldsAll(Next(s, Run(t, list)), held)
  {
    var s' := Next(s, Run(t, list));
    NextKeepsInv(s, Run(t, list));
    if 0 < t < |s.pcs| {
      ThreadIsOwn(s, t, list);
      forall l | 0 <= l < |s.chains| ensures ListRespects(s, s', held, s.chains[l], s'.chains[l]) {
        ThreadRespectsList(s, s', t, held, l);
      }
    }
  }

  lemma ThreadRespectsList(s: State, s': State, t: nat, held: set<nat>, l: nat)
    requires Inv(s) && Inv(s') && HoldsAll(s, held) && 0 < t < |s.pcs| && l < |s.headers| == |s'.headers|
    requires IsOwn(s, s', t)
    ensures ListRespects(s, s', held, s.chains[l], s'.chains[l])
  {
    var c, c' := s.chains[l], s'.chains[l];
    assert ListOk(s, l) && ListOk(s', l);
    forall o | o in held && o in c ensures o in c' && Succ(c', o) == Succ(c, o) {
      MovesKeepMembers(s, c, c', t, o);
    }
    forall a, b | a in c' && b in c && b in c'
      ensures (a in c ==> (Before(c', a, b) <==> Before(c, a, b))) && (a !in c ==> Before(c', a, b))
    {
      MovesKeepOrder(s, c, c', t, a, b);
    }
    assert ListMoves(s, c, c', t);
    assert t in c ==> !s.pcs[t].Prepend?;
  }
}
