/** Wakers at work on the waiter lists (src/picotm_lock_manager.c:310-351, 612-819), together with threads that
    prepend and remove themselves (WaiterList). Each waker locks owners hand over hand; each mutex operation and each
    access to a header or a link is one step. Whether an owner waits as a reader is left open. */
module Wakers {
  import opened Common
  import opened WaiterList
  import opened WaiterSteps

  /** Where a waker is in picotm_lock_manager_wake_up, and the owners that it knows there. */
  datatype Walk =
    | Resting
    | Seek(list: nat)                                                  // get_first_waiter
    | TakeFirst(list: nat, first: nat)
    | CheckFirst(list: nat, first: nat)
    | LeaveFirst(list: nat, first: nat, again: nat)
    | Look(list: nat, first: nat, picked: nat, cur: nat)               // pick_waiter
    | LeaveOld(list: nat, first: nat, picked: nat, cur: nat)
    | Onwards(list: nat, first: nat, picked: nat, cur: nat)
    | TakeNext(list: nat, first: nat, picked: nat, cur: nat, next: nat)
    | LeaveCur(list: nat, first: nat, picked: nat, cur: nat, next: nat)
    | Rouse(list: nat, first: nat, picked: nat)                        // wake_up, with the owner that was picked
    | LeavePicked(list: nat, first: nat, picked: nat, all: bool)
    | Sweep(list: nat, cur: nat)                                       // the walk that wakes all readers
    | SweepOn(list: nat, cur: nat)
    | TakeReader(list: nat, cur: nat, next: nat)
    | LeaveReader(list: nat, cur: nat, next: nat)
    | LeaveLast(list: nat, first: nat)

  datatype Joint = Joint(s: State, wakers: seq<Walk>)

  /** A step of a thread, or of a waker, which wakes up the given list if it rests. */
  datatype Step = OfThread(t: nat, list: nat) | OfWaker(w: nat, list: nat, reader: bool)

  /** The owners that a waker has locked. */
  function Held(w: Walk): set<nat> {
    (match w
     case Resting | Seek(_) | TakeFirst(_, _) => {}
     case CheckFirst(_, first) => {first}
     case LeaveFirst(_, first, _) => {first}
     case Look(_, first, picked, cur) => {first, picked, cur}
     case LeaveOld(_, first, picked, cur) => {first, picked, cur}
     case Onwards(_, first, picked, cur) => {first, picked, cur}
     case TakeNext(_, first, picked, cur, _) => {first, picked, cur}
     case LeaveCur(_, first, picked, cur, next) => {first, picked, cur, next}
     case Rouse(_, first, picked) => {first, picked}
     case LeavePicked(_, first, picked, _) => {first, picked}
     case Sweep(_, cur) => {cur}
     case SweepOn(_, cur) => {cur}
     case TakeReader(_, cur, _) => {cur}
     case LeaveReader(_, cur, next) => {cur, next}
     case LeaveLast(_, first) => {first}) - {0}
  }

  /** All numbers name something. */
  predicate WalkInRange(s: State, w: Walk) {
    w.Resting? || (w.list < |s.headers| && match w
      case Resting | Seek(_) => true
      case TakeFirst(_, first) => first < |s.owners|
      case CheckFirst(_, first) => first < |s.owners|
      case LeaveFirst(_, first, again) => first < |s.owners| && again < |s.owners|
      case Look(_, first, picked, cur) => first < |s.owners| && picked < |s.owners| && cur < |s.owners|
      case LeaveOld(_, first, picked, cur) => first < |s.owners| && picked < |s.owners| && cur < |s.owners|
      case Onwards(_, first, picked, cur) => first < |s.owners| && picked < |s.owners| && cur < |s.owners|
      case TakeNext(_, first, picked, cur, next) =>
        first < |s.owners| && picked < |s.owners| && cur < |s.owners| && next < |s.owners|
      case LeaveCur(_, first, picked, cur, next) =>
        first < |s.owners| && picked < |s.owners| && cur < |s.owners| && next < |s.owners|
      case Rouse(_, first, picked) => first < |s.owners| && picked < |s.owners|
      case LeavePicked(_, first, picked, _) => first < |s.owners| && picked < |s.owners|
      case Sweep(_, cur) => cur < |s.owners|
      case SweepOn(_, cur) => cur < |s.owners|
      case TakeReader(_, cur, next) => cur < |s.owners| && next < |s.owners|
      case LeaveReader(_, cur, next) => cur < |s.owners| && next < |s.owners|
      case LeaveLast(_, first) => first < |s.owners|)
  }

  /** Goes on if the owner is free, or else keeps waiting for it. */
  function After(s: State, o: nat, w: Walk, w': Walk): Walk {
    if 0 < o < |s.owners| && s.owners[o].holder == Free then w' else w
  }

  /** The end of picotm_lock_manager_wake_up, with or without waking all readers. */
  function Ending(list: nat, first: nat, all: bool): Walk {
    if all then Sweep(list, first) else LeaveLast(list, first)
  }

  /** Leaving no owner changes nothing. */
  const NOTHING: Action := WakerUnlock(0)

  /** What the waker's next step does to the owners. */
  function ActionOf(s: State, w: Walk, reader: bool): Action {
    match w
    case TakeFirst(_, first) => WakerLock(first)
    case LeaveFirst(_, first, _) => WakerUnlock(first)
    case LeaveOld(_, _, picked, _) => WakerUnlock(picked)
    case TakeNext(_, _, _, _, next) => WakerLock(next)
    case LeaveCur(_, first, picked, cur, _) => if cur != picked && cur != first then WakerUnlock(cur) else NOTHING
    case Rouse(_, _, picked) => WakeUp(picked)
    case LeavePicked(_, _, picked, _) => WakerUnlock(picked)
    case Sweep(_, cur) => if reader then WakeUp(cur) else NOTHING
    case TakeReader(_, _, next) => WakerLock(next)
    case LeaveReader(_, cur, _) => WakerUnlock(cur)
    case LeaveLast(_, first) => WakerUnlock(first)
    case _ => NOTHING
  }

  /** Where it is afterwards. */
  function WalkOn(s: State, w: Walk, list: nat, reader: bool): Walk
    requires Shaped(s) && WalkInRange(s, w)
  {
    match w
    case Resting => if list < |s.headers| then Seek(list) else w
    case Seek(l) => if s.headers[l] == 0 then Resting else TakeFirst(l, s.headers[l])
    case TakeFirst(l, first) => After(s, first, w, CheckFirst(l, first))
    case CheckFirst(l, first) =>
      if s.headers[l] == first then Look(l, first, 0, first) else LeaveFirst(l, first, s.headers[l])
    case LeaveFirst(l, first, again) => if again == 0 then Resting else TakeFirst(l, again)
    case Look(l, first, picked, cur) =>
      if !s.owners[cur].waiting then Onwards(l, first, picked, cur)
      else if picked == 0 || picked == first then Onwards(l, first, cur, cur)
      else LeaveOld(l, first, picked, cur)
    case LeaveOld(l, first, _, cur) => Onwards(l, first, cur, cur)
    case Onwards(l, first, picked, cur) =>
      var next := s.owners[cur].next;
      if next == 0 then LeaveCur(l, first, picked, cur, 0) else TakeNext(l, first, picked, cur, next)
    case TakeNext(l, first, picked, cur, next) => After(s, next, w, LeaveCur(l, first, picked, cur, next))
    case LeaveCur(l, first, picked, _, next) =>
      if next == 0 then Rouse(l, first, picked) else Look(l, first, picked, next)
    case Rouse(l, first, picked) =>
      if picked == 0 then LeaveLast(l, first)
      else if picked != first then LeavePicked(l, first, picked, reader)
      else Ending(l, first, reader)
    case LeavePicked(l, first, _, all) => Ending(l, first, all)
    case Sweep(l, cur) => SweepOn(l, cur)
    case SweepOn(l, cur) =>
      if s.owners[cur].next == 0 then LeaveReader(l, cur, 0) else TakeReader(l, cur, s.owners[cur].next)
    case TakeReader(l, cur, next) => After(s, next, w, LeaveReader(l, cur, next))
    case LeaveReader(l, _, next) => if next == 0 then Resting else Sweep(l, next)
    case LeaveLast(_, _) => Resting
  }

  function JointNext(j: Joint, step: Step): Joint
    requires Shaped(j.s)
  {
    match step
    case OfThread(t, list) => j.(s := Next(j.s, Run(t, list)))
    case OfWaker(w, list, reader) =>
      if w < |j.wakers| && WalkInRange(j.s, j.wakers[w]) then
        Joint(Next(j.s, ActionOf(j.s, j.wakers[w], reader)), j.wakers[w := WalkOn(j.s, j.wakers[w], list, reader)])
      else j
  }

  // ---------------------------------------------------------------------------------------------
  // Places in a list
  // ---------------------------------------------------------------------------------------------

  /** How many elements there are from x to the end. */
  function Rank(c: seq<nat>, x: nat): nat {
    if c == [] then 0 else if c[0] == x then |c| else Rank(c[1..], x)
  }

  lemma {:induction false} RankOf(c: seq<nat>, x: nat)
    requires Distinct(c) && 0 !in c
    ensures Rank(c, x) <= |c| && (Rank(c, x) > 0 <==> x in c)
    ensures Rank(c, x) == |c| > 0 <==> c != [] && x == c[0]
    ensures x in c ==> Rank(c, Succ(c, x)) == Rank(c, x) - 1 && (Succ(c, x) == 0 <==> Rank(c, x) == 1)
  {
    if c != [] {
      RankOf(c[1..], x);
      assert x in c <==> x == c[0] || x in c[1..];
      if c[0] == x {
        if |c| > 1 {
          assert c[1..][0] in c[1..] && Succ(c, x) == c[1];
          RankOf(c[1..], c[1]);
        } else {
          assert Succ(c, x) == 0;
        }
      } else if x in c[1..] {
        SuccMember(c[1..], x);
      }
    }
  }

  lemma {:induction false} BeforeIff(c: seq<nat>, a: nat, b: nat)
    requires Distinct(c) && 0 !in c && a in c && b in c
    ensures Before(c, a, b) <==> Rank(c, b) < Rank(c, a)
    ensures Rank(c, a) == Rank(c, b) ==> a == b
  {
    RankOf(c[1..], a);
    RankOf(c[1..], b);
    if c[0] != a && c[0] != b {
      BeforeIff(c[1..], a, b);
    } else if c[0] == b && c[0] != a {
      if Before(c[1..], a, b) {
        BeforeMember(c[1..], a, b);
      }
    }
  }

  // ---------------------------------------------------------------------------------------------
  // What a waker knows
  // ---------------------------------------------------------------------------------------------

  /** The owner does not wait, and is not about to. */
  predicate Calm(s: State, o: nat) {
    o < |s.owners| && o < |s.pcs| && !s.owners[o].waiting && !s.pcs[o].Enlisted?
  }

  /** The owner stands behind the one that is picked, or, if none is, is one of those that the waker looks at. */
  predicate Behind(c: seq<nat>, first: nat, picked: nat, o: nat) {
    if picked == 0 then o == first || Before(c, first, o) else Before(c, picked, o)
  }

  predicate UpTo(c: seq<nat>, o: nat, cur: nat) {
    o == cur || Before(c, o, cur)
  }

  /** The picked owner is in the list and waits. */
  predicate PickedOk(s: State, c: seq<nat>, first: nat, picked: nat) {
    && first in c
    && (picked == 0 || (picked < |s.owners| && picked in c && s.owners[picked].waiting && UpTo(c, first, picked)))
  }

  predicate Passing(s: State, c: seq<nat>, first: nat, picked: nat, cur: nat) {
    PickedOk(s, c, first, picked) && cur in c && UpTo(c, first, cur) && (picked == 0 || UpTo(c, picked, cur))
  }

  /** Nobody waits between the picked owner and the current one. */
  ghost predicate CalmBefore(s: State, c: seq<nat>, first: nat, picked: nat, cur: nat) {
    forall o :: o in c && Behind(c, first, picked, o) && Before(c, o, cur) ==> Calm(s, o)
  }

  ghost predicate CalmUpTo(s: State, c: seq<nat>, first: nat, picked: nat, cur: nat) {
    forall o :: o in c && Behind(c, first, picked, o) && UpTo(c, o, cur) ==> Calm(s, o)
  }

  /** Nobody behind the picked owner waits. */
  ghost predicate CalmBehind(s: State, c: seq<nat>, first: nat, picked: nat) {
    forall o :: o in c && Behind(c, first, picked, o) ==> Calm(s, o)
  }

  ghost predicate WalkOk(s: State, w: Walk)
    requires Shaped(s)
  {
    WalkInRange(s, w) && match w
    case Resting | Seek(_) => true
    case TakeFirst(_, first) => first != 0
    case CheckFirst(_, first) => first != 0
    case LeaveFirst(_, first, _) => first != 0
    case Look(l, first, picked, cur) =>
      var c := s.chains[l];
      Passing(s, c, first, picked, cur) && picked != cur && CalmBefore(s, c, first, picked, cur)
    case LeaveOld(l, first, picked, cur) =>
      var c := s.chains[l];
      Passing(s, c, first, picked, cur) && picked != 0 && picked != first && picked != cur && s.owners[cur].waiting
    case Onwards(l, first, picked, cur) =>
      var c := s.chains[l];
      Passing(s, c, first, picked, cur) && CalmUpTo(s, c, first, picked, cur)
    case TakeNext(l, first, picked, cur, next) =>
      var c := s.chains[l];
      && Passing(s, c, first, picked, cur) && CalmUpTo(s, c, first, picked, cur)
      && next != 0 && next == Succ(c, cur)
    case LeaveCur(l, first, picked, cur, next) =>
      var c := s.chains[l];
      Passing(s, c, first, picked, cur) && CalmUpTo(s, c, first, picked, cur) && next == Succ(c, cur)
    case Rouse(l, first, picked) =>
      PickedOk(s, s.chains[l], first, picked) && CalmBehind(s, s.chains[l], first, picked)
    case LeavePicked(l, first, picked, _) => first in s.chains[l] && picked != 0 && picked != first
    case Sweep(l, cur) => cur in s.chains[l]
    case SweepOn(l, cur) => cur in s.chains[l]
    case TakeReader(l, cur, next) => cur in s.chains[l] && next != 0 && next == Succ(s.chains[l], cur)
    case LeaveReader(l, cur, next) => cur in s.chains[l] && next == Succ(s.chains[l], cur)
    case LeaveLast(_, first) => first != 0
  }
}
