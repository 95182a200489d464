/** What a waker comes to that nobody disturbs (src/picotm_lock_manager.c:310-351, 612-819): whom it wakes, and that it
    gives all mutexes back. */
module WakeAlone {
  import opened Common
  import opened WaiterList
  import opened WaiterSteps
  import opened WakerSteps
  import opened Wakers
  import opened WakerRuns

  // ---------------------------------------------------------------------------------------------
  // A waker at its moments of truth, whatever the others do
  // ---------------------------------------------------------------------------------------------

  /** When it is about to wake the owner that it has picked, its step clears that one's flag, and no other. In the walk
      that wakes all readers, it clears the flag of the reader that it has come to. */
  lemma RouseWakes(n: nat, lists: nat, k: nat, steps: seq<Wakers.Step>, w: nat, list: nat, reader: bool)
    requires var j := JointReach(JointInit(n, lists, k), steps);
             w < |j.wakers| && (j.wakers[w].Rouse? || j.wakers[w].Sweep?)
    ensures var j := JointReach(JointInit(n, lists, k), steps);
            var j' := JointNext(j, OfWaker(w, list, reader));
            var woken := if j.wakers[w].Rouse? then j.wakers[w].picked else if reader then j.wakers[w].cur else 0;
            && |j'.s.owners| == |j.s.owners| && woken < |j.s.owners| && j'.s.chains == j.s.chains
            && forall o :: 0 <= o < |j.s.owners| ==>
                 j'.s.owners[o] == if o == woken && o != 0 then j.s.owners[o].(waiting := false) else j.s.owners[o]
  {
    var j := JointReach(JointInit(n, lists, k), steps);
    ReachableInv(n, lists, k, steps);
    var walk := j.wakers[w];
    assert HoldsAll(j.s, Held(walk)) && WalkOk(j.s, walk);
    if walk.Sweep? {
      assert ListOk(j.s, walk.list);
    }
  }

  // ---------------------------------------------------------------------------------------------
  // A waker that nobody disturbs
  // ---------------------------------------------------------------------------------------------

  /** The last element of the list that waits, or 0: the one that has waited longest. */
  function LastWaiting(owners: seq<Owner>, c: seq<nat>): nat {
    if c == [] then 0
    else
      var later := LastWaiting(owners, c[1..]);
      if later != 0 then later else if c[0] < |owners| && owners[c[0]].waiting then c[0] else 0
  }

  predicate Waits(owners: seq<Owner>, o: nat) {
    o < |owners| && owners[o].waiting
  }

  /** Everybody else who waits has been prepended after it. */
  lemma {:induction false} LastWaitingIs(owners: seq<Owner>, c: seq<nat>)
    requires Distinct(c) && 0 !in c
    ensures var last := LastWaiting(owners, c);
            && (last == 0 <==> forall o :: o in c ==> !Waits(owners, o))
            && (last != 0 ==> last in c && Waits(owners, last)
                              && forall o :: o in c && Waits(owners, o) ==> UpTo(c, o, last))
  {
    if c != [] {
      var rest := c[1..];
      LastWaitingIs(owners, rest);
      assert c == [c[0]] + rest;
      assert Distinct(rest) && 0 !in rest;
      assert c[0] in c;
    }
  }

  /** Nobody waits behind the one that is picked, so it is the last. */
  lemma PickedIsLast(s: State, c: seq<nat>, first: nat, picked: nat)
    requires Distinct(c) && 0 !in c && PickedOk(s, c, first, picked) && CalmBehind(s, c, first, picked)
    requires c[0] == first && forall o :: o in c ==> o < |s.owners|
    ensures picked == LastWaiting(s.owners, c)
  {
    var last := LastWaiting(s.owners, c);
    LastWaitingIs(s.owners, c);
    if last != 0 {
      assert !Calm(s, last);
      if picked == 0 {
        if last != first {
          HeadBefore(c, last);
        }
      } else if last != picked {
        BeforeIff(c, picked, last);
        BeforeIff(c, last, picked);
      }
    }
  }

  /** The first waiter that the waker has read is still the first. */
  predicate Fresh(s: State, w: Walk)
    requires Shaped(s) && WalkInRange(s, w)
  {
    match w
    case TakeFirst(l, first) => s.headers[l] == first
    case CheckFirst(l, first) => s.headers[l] == first
    case LeaveFirst(_, _, _) => false
    case Look(l, first, _, _) => s.headers[l] == first
    case LeaveOld(l, first, _, _) => s.headers[l] == first
    case Onwards(l, first, _, _) => s.headers[l] == first
    case TakeNext(l, first, _, _, _) => s.headers[l] == first
    case LeaveCur(l, first, _, _, _) => s.headers[l] == first
    case Rouse(l, first, _) => s.headers[l] == first
    case LeavePicked(l, first, _, _) => s.headers[l] == first
    case _ => true
  }

  /** Nobody else has locked an owner. */
  ghost predicate OthersFree(s: State, held: set<nat>) {
    forall o :: 0 < o < |s.owners| && o !in held ==> s.owners[o].holder == Free
  }

  /** A waker at work alone. */
  ghost predicate AtWork(s: State, w: Walk) {
    Inv(s) && WalkOk(s, w) && HoldsAll(s, Held(w)) && OthersFree(s, Held(w)) && Fresh(s, w)
  }

  /** How many steps it has still to go. */
  function StepsToRest(s: State, w: Walk): nat
    requires Shaped(s) && WalkInRange(s, w)
  {
    if w.Resting? then 0
    else
      var c := s.chains[w.list];
      var n := 4 * |c|;
      match w
      case Resting => 0
      case Seek(_) => 9 * |c| + 9
      case TakeFirst(_, _) => 9 * |c| + 8
      case CheckFirst(_, _) => 9 * |c| + 7
      case LeaveFirst(_, _, _) => 0
      case Look(_, _, _, cur) => 5 * Rank(c, cur) + n + 6
      case LeaveOld(_, _, _, cur) => 5 * Rank(c, cur) + n + 5
      case Onwards(_, _, _, cur) => 5 * Rank(c, cur) + n + 4
      case TakeNext(_, _, _, cur, _) => 5 * Rank(c, cur) + n + 3
      case LeaveCur(_, _, _, cur, _) => 5 * Rank(c, cur) + n + 2
      case Rouse(_, _, _) => n + 6
      case LeavePicked(_, _, _, _) => n + 5
      case Sweep(_, cur) => 4 * Rank(c, cur) + 4
      case SweepOn(_, cur) => 4 * Rank(c, cur) + 3
      case TakeReader(_, cur, _) => 4 * Rank(c, cur) + 2
      case LeaveReader(_, cur, _) => 4 * Rank(c, cur) + 1
      case LeaveLast(_, _) => 1
  }

  ghost predicate GetsOn(s: State, w: Walk, w': Walk)
    requires Shaped(s) && WalkInRange(s, w) && !w.Resting?
  {
    w'.Resting? || (WalkInRange(s, w') && w'.list == w.list && Fresh(s, w') && StepsToRest(s, w') < StepsToRest(s, w))
  }

  lemma FirstGetsOn(s: State, w: Walk, list: nat, reader: bool)
    requires AtWork(s, w) && (w.Seek? || w.TakeFirst? || w.CheckFirst? || w.LeaveLast?)
    ensures GetsOn(s, w, WalkOn(s, w, list, reader))
  {
    assert ListOk(s, w.list);
    RankOf(s.chains[w.list], Head(s.chains[w.list]));
  }

  /** The owner that it takes next is not one of its own. */
  lemma TakenIsFree(s: State, w: Walk)
    requires AtWork(s, w) && (w.TakeNext? || w.TakeReader?)
    ensures 0 < w.next < |s.owners| && s.owners[w.next].holder == Free
  {
    var c := s.chains[w.list];
    assert ListOk(s, w.list);
    NextPlace(c, w.cur, w.cur);
    if w.TakeNext? {
      NextPlace(c, w.cur, w.first);
      BeforeIff(c, w.first, w.next);
      BeforeIff(c, w.cur, w.next);
      if w.picked != 0 {
        NextPlace(c, w.cur, w.picked);
        BeforeIff(c, w.picked, w.next);
      }
    }
  }

  lemma LookGetsOn(s: State, w: Walk, list: nat, reader: bool)
    requires AtWork(s, w) && (w.Look? || w.LeaveOld?)
    ensures GetsOn(s, w, WalkOn(s, w, list, reader))
  {
  }

  lemma PassGetsOn(s: State, w: Walk, list: nat, reader: bool)
    requires AtWork(s, w) && (w.Onwards? || w.LeaveCur?)
    ensures GetsOn(s, w, WalkOn(s, w, list, reader))
  {
    assert ListOk(s, w.list);
    RankOf(s.chains[w.list], w.cur);
  }

  lemma TakeGetsOn(s: State, w: Walk, list: nat, reader: bool)
    requires AtWork(s, w) && w.TakeNext?
    ensures GetsOn(s, w, WalkOn(s, w, list, reader))
  {
    TakenIsFree(s, w);
  }

  lemma RouseGetsOn(s: State, w: Walk, list: nat, reader: bool)
    requires AtWork(s, w) && (w.Rouse? || w.LeavePicked?)
    ensures GetsOn(s, w, WalkOn(s, w, list, reader))
  {
    assert ListOk(s, w.list);
    RankOf(s.chains[w.list], w.first);
  }

  lemma SweepGetsOn(s: State, w: Walk, list: nat, reader: bool)
    requires AtWork(s, w) && (w.Sweep? || w.SweepOn?)
    ensures GetsOn(s, w, WalkOn(s, w, list, reader))
  {
    assert ListOk(s, w.list);
  }

  lemma ReaderGetsOn(s: State, w: Walk, list: nat, reader: bool)
    requires AtWork(s, w) && (w.TakeReader? || w.LeaveReader?)
    ensures GetsOn(s, w, WalkOn(s, w, list, reader))
  {
    assert ListOk(s, w.list);
    RankOf(s.chains[w.list], w.cur);
    if w.TakeReader? {
      TakenIsFree(s, w);
    }
  }

  lemma WakerGetsOn(s: State, w: Walk, list: nat, reader: bool)
    requires AtWork(s, w) && !w.Resting?
    ensures GetsOn(s, w, WalkOn(s, w, list, reader))
  {
    match w
    case Look(_, _, _, _) | LeaveOld(_, _, _, _) => LookGetsOn(s, w, list, reader);
    case Onwards(_, _, _, _) | LeaveCur(_, _, _, _, _) => PassGetsOn(s, w, list, reader);
    case TakeNext(_, _, _, _, _) => TakeGetsOn(s, w, list, reader);
    case Rouse(_, _, _) | LeavePicked(_, _, _, _) => RouseGetsOn(s, w, list, reader);
    case Sweep(_, _) | SweepOn(_, _) => SweepGetsOn(s, w, list, reader);
    case TakeReader(_, _, _) | LeaveReader(_, _, _) => ReaderGetsOn(s, w, list, reader);
    case _ => FirstGetsOn(s, w, list, reader);
  }

  // ---------------------------------------------------------------------------------------------
  // Whom it wakes
  // ---------------------------------------------------------------------------------------------

  /** Whom the waker has still to wake: the one who has waited longest, or, if that one is a reader, as everybody else,
      all of them. */
  predicate WillWake(s: State, w: Walk, reader: bool, o: nat)
    requires Shaped(s) && WalkInRange(s, w)
  {
    match w
    case Resting => false
    case LeaveFirst(_, _, _) => false
    case LeaveLast(_, _) => false
    case LeavePicked(l, _, _, _) => reader && o in s.chains[l]
    case Sweep(l, cur) => UpTo(s.chains[l], cur, o)
    case SweepOn(l, cur) => Before(s.chains[l], cur, o)
    case TakeReader(l, cur, _) => Before(s.chains[l], cur, o)
    case LeaveReader(l, cur, _) => Before(s.chains[l], cur, o)
    case _ =>
      var c := s.chains[w.list];
      if reader then o in c else o == LastWaiting(s.owners, c)
  }

  /** It sweeps only if the one that it has picked is a reader. */
  predicate Consistent(w: Walk, reader: bool) {
    && (w.LeavePicked? ==> w.all == reader)
    && (w.Sweep? || w.SweepOn? || w.TakeReader? || w.LeaveReader? ==> reader)
  }

  ghost predicate Remains(s: State, w: Walk, reader: bool, o: nat)
    requires Shaped(s) && WalkInRange(s, w)
  {
    Waits(s.owners, o) && !WillWake(s, w, reader, o)
  }

  /** What an action of a waker changes. */
  lemma ActionFlags(s: State, a: Action, o: nat)
    requires Shaped(s) && !a.Run?
    ensures var s' := Next(s, a);
            && s' == s.(owners := s'.owners) && |s'.owners| == |s.owners|
            && (o < |s.owners| ==> s'.owners[o].marked == s.owners[o].marked)
            && (Waits(s'.owners, o) <==>
                Waits(s.owners, o) && !(a == WakeUp(o) && o != 0 && s.owners[o].holder == Waker))
  {
  }

  lemma {:induction false} LastWaitingSame(owners: seq<Owner>, owners': seq<Owner>, c: seq<nat>)
    requires forall o :: Waits(owners', o) <==> Waits(owners, o)
    ensures LastWaiting(owners', c) == LastWaiting(owners, c)
  {
    if c != [] {
      LastWaitingSame(owners, owners', c[1..]);
      assert Waits(owners', c[0]) <==> Waits(owners, c[0]);
    }
  }

  /** Most actions wake nobody. */
  lemma QuietAction(s: State, a: Action, c: seq<nat>, o: nat)
    requires Shaped(s) && !a.Run? && !a.WakeUp?
    ensures var s' := Next(s, a);
            && s' == s.(owners := s'.owners) && |s'.owners| == |s.owners|
            && (Waits(s'.owners, o) <==> Waits(s.owners, o))
            && LastWaiting(s'.owners, c) == LastWaiting(s.owners, c)
  {
    forall u: nat ensures Waits(Next(s, a).owners, u) <==> Waits(s.owners, u) {
      ActionFlags(s, a, u);
    }
    LastWaitingSame(s.owners, Next(s, a).owners, c);
    ActionFlags(s, a, o);
  }

  /** Before it wakes anybody. */
  lemma SeekerStep(s: State, w: Walk, list: nat, reader: bool, o: nat)
    requires AtWork(s, w) && (w.Seek? || w.TakeFirst? || w.CheckFirst? || w.LeaveLast?) && o != 0
    ensures var s', w' := Next(s, ActionOf(s, w, reader)), WalkOn(s, w, list, reader);
            WalkInRange(s', w') && Consistent(w', reader)
            && (Remains(s', w', reader, o) <==> Remains(s, w, reader, o))
  {
    assert ListOk(s, w.list);
    QuietAction(s, ActionOf(s, w, reader), s.chains[w.list], o);
  }

  lemma LookerStep(s: State, w: Walk, list: nat, reader: bool, o: nat)
    requires AtWork(s, w) && (w.Look? || w.LeaveOld?)
    ensures var s', w' := Next(s, ActionOf(s, w, reader)), WalkOn(s, w, list, reader);
            WalkInRange(s', w') && Consistent(w', reader)
            && (Remains(s', w', reader, o) <==> Remains(s, w, reader, o))
  {
    QuietAction(s, ActionOf(s, w, reader), s.chains[w.list], o);
  }

  lemma PasserStep(s: State, w: Walk, list: nat, reader: bool, o: nat)
    requires AtWork(s, w) && (w.Onwards? || w.TakeNext? || w.LeaveCur?)
    ensures var s', w' := Next(s, ActionOf(s, w, reader)), WalkOn(s, w, list, reader);
            WalkInRange(s', w') && Consistent(w', reader)
            && (Remains(s', w', reader, o) <==> Remains(s, w, reader, o))
  {
    QuietAction(s, ActionOf(s, w, reader), s.chains[w.list], o);
  }

  lemma FirstIsBefore(c: seq<nat>, o: nat)
    requires Distinct(c) && 0 !in c && c != []
    ensures UpTo(c, c[0], o) <==> o in c
  {
    if o in c && o != c[0] {
      HeadBefore(c, o);
    }
    if Before(c, c[0], o) {
      BeforeMember(c, c[0], o);
    }
  }

  lemma RouserStep(s: State, w: Walk, list: nat, reader: bool, o: nat)
    requires AtWork(s, w) && w.Rouse? && o != 0
    ensures var s', w' := Next(s, ActionOf(s, w, reader)), WalkOn(s, w, list, reader);
            WalkInRange(s', w') && Consistent(w', reader)
            && (Remains(s', w', reader, o) <==> Remains(s, w, reader, o))
  {
    var c := s.chains[w.list];
    assert ListOk(s, w.list);
    assert c[0] == w.first;
    PickedIsLast(s, c, w.first, w.picked);
    LastWaitingIs(s.owners, c);
    FirstIsBefore(c, o);
    ActionFlags(s, ActionOf(s, w, reader), o);
  }

  lemma SweeperStep(s: State, w: Walk, list: nat, reader: bool, o: nat)
    requires AtWork(s, w) && Consistent(w, reader) && (w.LeavePicked? || w.Sweep? || w.SweepOn? || w.TakeReader?)
    ensures var s', w' := Next(s, ActionOf(s, w, reader)), WalkOn(s, w, list, reader);
            WalkInRange(s', w') && Consistent(w', reader)
            && (Remains(s', w', reader, o) <==> Remains(s, w, reader, o))
  {
    var c := s.chains[w.list];
    assert ListOk(s, w.list);
    ActionFlags(s, ActionOf(s, w, reader), o);
    if w.LeavePicked? {
      FirstIsBefore(c, o);
    } else if w.Sweep? && Before(c, w.cur, o) {
      BeforeIff(c, w.cur, w.cur);
    }
  }

  /** Whoever stands behind the current owner is the next one, or stands behind that. */
  lemma NextIsUpTo(c: seq<nat>, cur: nat, o: nat)
    requires Distinct(c) && 0 !in c && cur in c
    ensures var next := Succ(c, cur);
            Before(c, cur, o) <==> next != 0 && UpTo(c, next, o)
  {
    var next := Succ(c, cur);
    NextPlace(c, cur, cur);
    if Before(c, cur, o) {
      BeforeMember(c, cur, o);
      NextPlace(c, cur, o);
      BeforeIff(c, cur, o);
      BeforeIff(c, o, cur);
      if next != 0 {
        BeforeIff(c, o, next);
        BeforeIff(c, next, o);
      }
    }
    if next != 0 && Before(c, next, o) {
      BeforeMember(c, next, o);
      BeforeIff(c, cur, next);
      BeforeIff(c, next, o);
      BeforeIff(c, cur, o);
    }
  }

  lemma LeaverStep(s: State, w: Walk, list: nat, reader: bool, o: nat)
    requires AtWork(s, w) && Consistent(w, reader) && w.LeaveReader?
    ensures var s', w' := Next(s, ActionOf(s, w, reader)), WalkOn(s, w, list, reader);
            WalkInRange(s', w') && Consistent(w', reader)
            && (Remains(s', w', reader, o) <==> Remains(s, w, reader, o))
  {
    assert ListOk(s, w.list);
    ActionFlags(s, ActionOf(s, w, reader), o);
    NextIsUpTo(s.chains[w.list], w.cur, o);
  }

  lemma WakerRemains(s: State, w: Walk, list: nat, reader: bool, o: nat)
    requires AtWork(s, w) && Consistent(w, reader) && !w.Resting? && o != 0
    ensures var s', w' := Next(s, ActionOf(s, w, reader)), WalkOn(s, w, list, reader);
            WalkInRange(s', w') && Consistent(w', reader)
            && (Remains(s', w', reader, o) <==> Remains(s, w, reader, o))
  {
    match w
    case Seek(_) | TakeFirst(_, _) | CheckFirst(_, _) | LeaveLast(_, _) => SeekerStep(s, w, list, reader, o);
    case Rouse(_, _, _) => RouserStep(s, w, list, reader, o);
    case LeavePicked(_, _, _, _) | Sweep(_, _) | SweepOn(_, _) | TakeReader(_, _, _) =>
      SweeperStep(s, w, list, reader, o);
    case LeaveReader(_, _, _) => LeaverStep(s, w, list, reader, o);
    case Look(_, _, _, _) | LeaveOld(_, _, _, _) => LookerStep(s, w, list, reader, o);
    case Onwards(_, _, _, _) | TakeNext(_, _, _, _, _) | LeaveCur(_, _, _, _, _) =>
      PasserStep(s, w, list, reader, o);
    case LeaveFirst(_, _, _) =>
  }

  // ---------------------------------------------------------------------------------------------
  // Until it rests
  // ---------------------------------------------------------------------------------------------

  lemma WorkStep(s: State, w: Walk, list: nat, reader: bool)
    requires AtWork(s, w) && !w.Resting?
    ensures var s', w' := Next(s, ActionOf(s, w, reader)), WalkOn(s, w, list, reader);
            && Inv(s') && s' == s.(owners := s'.owners) && |s'.owners| == |s.owners|
            && OthersFree(s', Held(w')) && WalkInRange(s', w')
            && (!w'.Resting? ==> AtWork(s', w') && StepsToRest(s', w') < StepsToRest(s, w))
  {
    OwnWalkOk(s, w, list, reader);
    OwnStep(s, w, list, reader);
    WakerGetsOn(s, w, list, reader);
  }

  function WakerTurns(w: nat, list: nat, reader: bool, k: nat): seq<Wakers.Step> {
    seq(k, _ => OfWaker(w, list, reader))
  }

  lemma OneTurn(j: Joint, w: nat, list: nat, reader: bool, k: nat, j': Joint)
    requires Shaped(j.s) && k > 0 && JointNext(j, OfWaker(w, list, reader)) == j'
    ensures Shaped(j'.s)
    ensures JointReach(j, WakerTurns(w, list, reader, k)) == JointReach(j', WakerTurns(w, list, reader, k - 1))
  {
    assert WakerTurns(w, list, reader, k)[1..] == WakerTurns(w, list, reader, k - 1);
  }

  /** It rests, has changed nothing but waiting flags, and all mutexes are free. */
  ghost predicate HasRested(j: Joint, j': Joint, w: nat) {
    && w < |j.wakers| && j'.wakers == j.wakers[w := Resting]
    && j'.s == j.s.(owners := j'.s.owners) && |j'.s.owners| == |j.s.owners|
    && forall o :: 0 < o < |j.s.owners| ==>
         j'.s.owners[o].holder == Free && j'.s.owners[o].marked == j.s.owners[o].marked
  }

  ghost predicate OnlyFlags(s: State, s': State) {
    && s' == s.(owners := s'.owners) && |s'.owners| == |s.owners|
    && forall o :: 0 < o < |s.owners| ==> s'.owners[o].marked == s.owners[o].marked
  }

  lemma StepFlags(s: State, w: Walk, list: nat, reader: bool)
    requires AtWork(s, w) && !w.Resting? && Consistent(w, reader)
    ensures var s', w' := Next(s, ActionOf(s, w, reader)), WalkOn(s, w, list, reader);
            && OnlyFlags(s, s') && WalkInRange(s', w') && Consistent(w', reader)
            && forall o :: 0 < o < |s.owners| ==> (Remains(s', w', reader, o) <==> Remains(s, w, reader, o))
  {
    var s', w' := Next(s, ActionOf(s, w, reader)), WalkOn(s, w, list, reader);
    WakerRemains(s, w, list, reader, 1);
    ActionFlags(s, ActionOf(s, w, reader), 1);
    forall o | 0 < o < |s.owners|
      ensures s'.owners[o].marked == s.owners[o].marked
      ensures Remains(s', w', reader, o) <==> Remains(s, w, reader, o)
    {
      WakerRemains(s, w, list, reader, o);
      ActionFlags(s, ActionOf(s, w, reader), o);
    }
  }

  /** It has done what it had still to do. */
  ghost predicate HasWorked(j: Joint, j': Joint, w: nat, reader: bool)
    requires Shaped(j.s) && w < |j.wakers| && WalkInRange(j.s, j.wakers[w])
  {
    && HasRested(j, j', w)
    && forall o :: 0 < o < |j.s.owners| ==> (Waits(j'.s.owners, o) <==> Remains(j.s, j.wakers[w], reader, o))
  }

  /** A step of the waker. */
  function Worked(j: Joint, w: nat, list: nat, reader: bool): Joint
    requires Shaped(j.s) && w < |j.wakers| && WalkInRange(j.s, j.wakers[w])
  {
    Joint(Next(j.s, ActionOf(j.s, j.wakers[w], reader)), j.wakers[w := WalkOn(j.s, j.wakers[w], list, reader)])
  }

  lemma HasWorkedOnce(j: Joint, w: nat, list: nat, reader: bool)
    requires w < |j.wakers| && AtWork(j.s, j.wakers[w]) && !j.wakers[w].Resting? && Consistent(j.wakers[w], reader)
    requires WalkOn(j.s, j.wakers[w], list, reader).Resting?
    ensures HasWorked(j, Worked(j, w, list, reader), w, reader)
  {
    WorkStep(j.s, j.wakers[w], list, reader);
    StepFlags(j.s, j.wakers[w], list, reader);
  }

  lemma HasWorkedMore(j: Joint, w: nat, list: nat, reader: bool, j': Joint)
    requires w < |j.wakers| && AtWork(j.s, j.wakers[w]) && !j.wakers[w].Resting? && Consistent(j.wakers[w], reader)
    requires var j1 := Worked(j, w, list, reader);
             Shaped(j1.s) && WalkInRange(j1.s, j1.wakers[w]) && HasWorked(j1, j', w, reader)
    ensures HasWorked(j, j', w, reader)
  {
    StepFlags(j.s, j.wakers[w], list, reader);
  }

  lemma {:induction false} WorksAlone(j: Joint, w: nat, list: nat, reader: bool) returns (k: nat)
    requires w < |j.wakers| && AtWork(j.s, j.wakers[w]) && !j.wakers[w].Resting? && Consistent(j.wakers[w], reader)
    ensures k <= StepsToRest(j.s, j.wakers[w])
    ensures HasWorked(j, JointReach(j, WakerTurns(w, list, reader, k)), w, reader)
    decreases StepsToRest(j.s, j.wakers[w])
  {
    var j1 := Worked(j, w, list, reader);
    WorkStep(j.s, j.wakers[w], list, reader);
    if j1.wakers[w].Resting? {
      k := 1;
      OneTurn(j, w, list, reader, 1, j1);
      assert WakerTurns(w, list, reader, 0) == [];
      HasWorkedOnce(j, w, list, reader);
    } else {
      StepFlags(j.s, j.wakers[w], list, reader);
      k := WorksAlone(j1, w, list, reader);
      HasWorkedMore(j, w, list, reader, JointReach(j1, WakerTurns(w, list, reader, k)));
      k := k + 1;
      OneTurn(j, w, list, reader, k, j1);
    }
  }

  /** A waker that wakes up a list while nobody else has locked an owner, nor makes a step, comes to rest within nine
      steps for each waiter and ten more. It wakes the one who has waited longest, if anybody waits, or all who wait,
      if it wakes readers; nobody else's flag changes, nor does any list; and it gives all mutexes back. */
  lemma WakesAlone(j: Joint, w: nat, list: nat, reader: bool) returns (k: nat)
    requires JointInv(j) && w < |j.wakers| && j.wakers[w].Resting? && list < |j.s.headers|
    requires forall o :: 0 < o < |j.s.owners| ==> j.s.owners[o].holder == Free
    ensures k <= 9 * |j.s.chains[list]| + 10
    ensures var j', c := JointReach(j, WakerTurns(w, list, reader, k)), j.s.chains[list];
            && HasRested(j, j', w)
            && forall o :: 0 < o < |j.s.owners| ==>
                 (Waits(j'.s.owners, o) <==>
                  Waits(j.s.owners, o) && !(if reader then o in c else o == LastWaiting(j.s.owners, c)))
  {
    var j1 := Joint(j.s, j.wakers[w := Seek(list)]);
    assert NOTHING == WakerUnlock(0);
    assert JointNext(j, OfWaker(w, list, reader)) == j1;
    k := WorksAlone(j1, w, list, reader);
    k := k + 1;
    OneTurn(j, w, list, reader, k, j1);
  }
}
