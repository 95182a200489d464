/** The waiter lists of the lock manager (src/picotm_lock_manager.c:244-506), as a machine in which any
    number of threads prepend themselves to lists and remove themselves again. Every access to shared
    memory (list header, mutex, next index, next pointer) is one step. Thread t owns lock owner t; the
    number 0 is the null owner. A list is an ideal sequence next to the header and links that are
    supposed to spell it. */
module WaiterList {
  import opened Common

  // ---------------------------------------------------------------------------------------------
  // Ideal lists
  // ---------------------------------------------------------------------------------------------

  function Head(c: seq<nat>): nat {
    if c == [] then 0 else c[0]
  }

  /** The element behind x, or 0. */
  function Succ(c: seq<nat>, x: nat): nat {
    if c == [] then 0 else if c[0] == x then Head(c[1..]) else Succ(c[1..], x)
  }

  /** b stands somewhere behind a. */
  predicate Before(c: seq<nat>, a: nat, b: nat) {
    c != [] && if c[0] == a then b in c[1..] else Before(c[1..], a, b)
  }

  function Without(c: seq<nat>, x: nat): seq<nat> {
    if c == [] then [] else if c[0] == x then c[1..] else [c[0]] + Without(c[1..], x)
  }

  lemma {:induction false} WithoutMembers(c: seq<nat>, x: nat, y: nat)
    requires Distinct(c)
    ensures Distinct(Without(c, x)) && (y in Without(c, x) <==> y in c && y != x)
  {
    if c != [] && c[0] != x {
      WithoutMembers(c[1..], x, y);
      WithoutMembers(c[1..], x, c[0]);
      assert c == [c[0]] + c[1..];
      assert Without(c, x)[1..] == Without(c[1..], x);
    } else if c != [] {
      assert c == [c[0]] + c[1..];
    }
  }

  /** Only the predecessor's successor changes. */
  lemma {:induction false} WithoutSucc(c: seq<nat>, x: nat, y: nat)
    requires Distinct(c) && y in c && y != x && x != 0 && x in c
    ensures Succ(Without(c, x), y) == if Succ(c, y) == x then Succ(c, x) else Succ(c, y)
  {
    assert c == [c[0]] + c[1..];
    if c[0] == x {
      if Succ(c, y) == x {
        SuccMember(c[1..], y);
      }
    } else {
      assert Without(c, x)[1..] == Without(c[1..], x);
      if c[0] != y {
        WithoutSucc(c[1..], x, y);
      } else {
        assert c[1..] == [c[1]] + c[2..];
      }
    }
  }

  lemma {:induction false} WithoutBefore(c: seq<nat>, x: nat, a: nat, b: nat)
    requires Distinct(c) && Before(c, a, b) && a != x && b != x
    ensures Before(Without(c, x), a, b)
  {
    assert c == [c[0]] + c[1..];
    if c[0] != x {
      assert Without(c, x)[1..] == Without(c[1..], x);
      if c[0] == a {
        WithoutMembers(c[1..], x, b);
      } else {
        WithoutBefore(c[1..], x, a, b);
      }
    }
  }

  lemma {:induction false} SuccMember(c: seq<nat>, x: nat)
    ensures Succ(c, x) == 0 || Succ(c, x) in c
  {
    if c != [] && c[0] != x {
      SuccMember(c[1..], x);
    }
  }

  /** Whoever stands before b has a successor, which is b or stands before b as well. */
  lemma {:induction false} BeforeSucc(c: seq<nat>, a: nat, b: nat)
    requires Before(c, a, b) && Distinct(c) && 0 !in c
    ensures a in c && Succ(c, a) != 0 && Succ(c, a) in c && (Succ(c, a) == b || Before(c, Succ(c, a), b))
    ensures a != b && (Succ(c, a) != b ==> Succ(c, a) != a)
  {
    if c[0] == a {
      assert c[1..] == [c[1]] + c[2..];
      assert c[1] in c;
    } else {
      BeforeSucc(c[1..], a, b);
    }
  }

  lemma {:induction false} BeforeMember(c: seq<nat>, a: nat, b: nat)
    requires Before(c, a, b)
    ensures a in c && b in c
  {
    if c[0] != a {
      BeforeMember(c[1..], a, b);
    }
  }

  lemma HeadBefore(c: seq<nat>, b: nat)
    requires b in c && b != c[0]
    ensures Before(c, c[0], b)
  {
    assert c == [c[0]] + c[1..];
  }

  // ---------------------------------------------------------------------------------------------
  // The machine
  // ---------------------------------------------------------------------------------------------

  datatype Holder = Free | Thread(t: nat) | Waker

  /** A lock owner: the packed next index, the next pointer, the RD or WR flag, the WT flag and the mutex. */
  datatype Owner = Owner(nextIndex: nat, next: nat, marked: bool, waiting: bool, holder: Holder)

  /** Where a thread is in wait(), and the local variables it holds there. */
  datatype Pc =
    | Idle
    | Failed                                             // an assertion of the code was violated
    | LockSelf(list: nat)                                // lock_and_prepend_waiter
    | ReadFirst(list: nat)
    | SetNextIndex(list: nat, first: nat)
    | SetNext(list: nat, first: nat)
    | Prepend(list: nat, first: nat)
    | Enlisted(list: nat)                                // prepended, about to sleep
    | Sleeping(list: nat)                                // picotm_lock_owner_wait_until
    | Unlist(list: nat, prec: nat)                       // head of the loop in remove_waiter
    | Unlink(list: nat, prec: nat)
    | StalePrec(list: nat, prec: nat)
    | DropSelf(list: nat)
    | GetFirst(list: nat)                                // get_first_waiter
    | LockFirst(list: nat, first: nat)
    | Recheck(list: nat, first: nat)
    | DropFirst(list: nat, first: nat, again: nat)
    | Walk(list: nat, cur: nat)                          // find_prec_waiter
    | LockNext(list: nat, cur: nat, next: nat)
    | DropCur(list: nat, cur: nat, next: nat)
    | RelockSelf(list: nat, prec: nat)
    | Unlisted(list: nat, prec: nat)                     // back in wait()
    | Leave(list: nat)

  /** `chains` are the ideal lists. */
  datatype State = State(headers: seq<nat>, chains: seq<seq<nat>>, owners: seq<Owner>, pcs: seq<Pc>)

  /** A step of one thread (which starts to wait on the list if it is idle), or of a waker, which may lock
      any free owner, clear the waiting flag of an owner it has locked, and unlock it. */
  datatype Action = Run(t: nat, list: nat) | WakerLock(o: nat) | WakeUp(o: nat) | WakerUnlock(o: nat)

  /** The thread's owner has been prepended and not been removed since. */
  predicate InList(pc: Pc, list: nat) {
    match pc
    case Idle | Failed | LockSelf(_) | ReadFirst(_) | SetNextIndex(_, _) | SetNext(_, _) | Prepend(_, _) => false
    case Unlisted(_, _) | Leave(_) => false
    case _ => pc.list == list
  }

  /** The mutexes that a thread holds. */
  predicate Holds(pc: Pc, self: nat, o: nat) {
    match pc
    case Idle | Failed | LockSelf(_) | Sleeping(_) | GetFirst(_) | LockFirst(_, _) => false
    case ReadFirst(_) | SetNextIndex(_, _) | SetNext(_, _) | Prepend(_, _) | Enlisted(_) | DropSelf(_) | Leave(_) =>
      o == self
    case Unlist(_, prec) => o == self || (prec != 0 && o == prec)
    case Unlisted(_, prec) => o == self || (prec != 0 && o == prec)
    case Unlink(_, prec) => o == self || o == prec
    case StalePrec(_, prec) => o == self || o == prec
    case Recheck(_, first) => o == first
    case DropFirst(_, first, _) => o == first
    case Walk(_, cur) => o == cur
    case LockNext(_, cur, _) => o == cur
    case DropCur(_, cur, next) => o == cur || o == next
    case RelockSelf(_, prec) => o == prec
  }

  /** All numbers name something. */
  predicate InRange(s: State, pc: Pc) {
    var n := |s.owners|;
    match pc
    case Idle | Failed => true
    case SetNextIndex(_, first) => pc.list < |s.headers| && first < n
    case SetNext(_, first) => pc.list < |s.headers| && first < n
    case Prepend(_, first) => pc.list < |s.headers| && first < n
    case LockFirst(_, first) => pc.list < |s.headers| && first < n
    case Recheck(_, first) => pc.list < |s.headers| && first < n
    case DropFirst(_, first, again) => pc.list < |s.headers| && first < n && again < n
    case Unlist(_, prec) => pc.list < |s.headers| && prec < n
    case Unlink(_, prec) => pc.list < |s.headers| && prec < n
    case StalePrec(_, prec) => pc.list < |s.headers| && prec < n
    case RelockSelf(_, prec) => pc.list < |s.headers| && prec < n
    case Unlisted(_, prec) => pc.list < |s.headers| && prec < n
    case Walk(_, cur) => pc.list < |s.headers| && cur < n
    case LockNext(_, cur, next) => pc.list < |s.headers| && cur < n && next < n
    case DropCur(_, cur, next) => pc.list < |s.headers| && cur < n && next < n
    case _ => pc.list < |s.headers|
  }

  predicate Shaped(s: State) {
    && |s.pcs| == |s.owners| && |s.chains| == |s.headers| && 0 < |s.owners|
    && (forall t :: 0 <= t < |s.pcs| ==> InRange(s, s.pcs[t]))
    && (forall l :: 0 <= l < |s.headers| ==> s.headers[l] < |s.owners|)
    && (forall o :: 0 <= o < |s.owners| ==> s.owners[o].next < |s.owners| && s.owners[o].nextIndex < |s.owners|)
  }

  predicate SameSize(s: State, s': State) {
    |s'.pcs| == |s.pcs| && |s'.headers| == |s.headers|
  }

  function Goto(s: State, t: nat, pc: Pc): (s': State)
    requires Shaped(s) && t < |s.pcs| && InRange(s, pc)
    ensures Shaped(s') && SameSize(s, s')
  {
    s.(pcs := s.pcs[t := pc])
  }

  function Put(s: State, o: nat, owner: Owner): (s': State)
    requires Shaped(s) && o < |s.owners| && owner.next < |s.owners| && owner.nextIndex < |s.owners|
    ensures Shaped(s') && SameSize(s, s')
  {
    s.(owners := s.owners[o := owner])
  }

  /** Locks the owner's mutex and goes on, or keeps waiting for it. */
  function Lock(s: State, t: nat, o: nat, pc: Pc): (s': State)
    requires Shaped(s) && t < |s.pcs| && o < |s.owners| && InRange(s, pc)
    ensures Shaped(s') && SameSize(s, s')
  {
    if s.owners[o].holder == Free then Goto(Put(s, o, s.owners[o].(holder := Thread(t))), t, pc) else s
  }

  function Unlock(s: State, t: nat, o: nat, pc: Pc): (s': State)
    requires Shaped(s) && t < |s.pcs| && o < |s.owners| && InRange(s, pc)
    ensures Shaped(s') && SameSize(s, s')
  {
    Goto(Put(s, o, s.owners[o].(holder := Free)), t, pc)
  }

  function Prepended(s: State, t: nat, list: nat, pc: Pc): (s': State)
    requires Shaped(s) && t < |s.pcs| && list < |s.headers| && InRange(s, pc)
    ensures Shaped(s') && SameSize(s, s')
  {
    Goto(s, t, pc).(headers := s.headers[list := t], chains := s.chains[list := [t] + s.chains[list]])
  }

  /** The header moves on to `next`. */
  function Beheaded(s: State, t: nat, list: nat, next: nat, pc: Pc): (s': State)
    requires Shaped(s) && t < |s.pcs| && list < |s.headers| && next < |s.owners| && InRange(s, pc)
    ensures Shaped(s') && SameSize(s, s')
  {
    Goto(s, t, pc).(headers := s.headers[list := next], chains := s.chains[list := Without(s.chains[list], t)])
  }

  /** The predecessor points past t. */
  function Unlinked(s: State, t: nat, list: nat, prec: nat, pc: Pc): (s': State)
    requires Shaped(s) && t < |s.pcs| && list < |s.headers| && prec < |s.owners| && InRange(s, pc)
    ensures Shaped(s') && SameSize(s, s')
  {
    Goto(Put(s, prec, s.owners[prec].(next := s.owners[t].next)), t, pc)
      .(chains := s.chains[list := Without(s.chains[list], t)])
  }

  /** wait() up to the moment when the thread has slept. */
  function EnlistStep(s: State, t: nat, list: nat): (s': State)
    requires Shaped(s) && t < |s.pcs|
    ensures Shaped(s') && SameSize(s, s')
  {
    var self := s.owners[t];
    match s.pcs[t]
    case Idle => if list < |s.headers| then Goto(s, t, LockSelf(list)) else s
    case LockSelf(l) => Lock(s, t, t, ReadFirst(l))
    case ReadFirst(l) => Goto(s, t, SetNextIndex(l, s.headers[l]))
    case SetNextIndex(l, first) => Goto(Put(s, t, self.(nextIndex := first)), t, SetNext(l, first))
    case SetNext(l, first) => Goto(Put(s, t, self.(next := first)), t, Prepend(l, first))
    case Prepend(l, first) =>
      if s.headers[l] == first then Prepended(s, t, l, Enlisted(l))
      else Goto(s, t, SetNextIndex(l, s.headers[l]))
    case Enlisted(l) =>
      if self.waiting then Goto(s, t, Failed)
      else Goto(Put(s, t, self.(marked := true, waiting := true, holder := Free)), t, Sleeping(l))
    case Sleeping(l) =>
      if self.holder == Free
      then Goto(Put(s, t, self.(waiting := false, holder := Thread(t))), t, Unlist(l, 0))
      else s
    case _ => s
  }

  /** remove_waiter and what follows it in wait(). */
  function RemoveStep(s: State, t: nat): (s': State)
    requires Shaped(s) && t < |s.pcs|
    ensures Shaped(s') && SameSize(s, s')
  {
    var self := s.owners[t];
    match s.pcs[t]
    case Unlist(l, prec) =>
      if prec == 0 then
        if s.headers[l] == t then Beheaded(s, t, l, self.nextIndex, Unlisted(l, 0)) else Goto(s, t, DropSelf(l))
      else if s.owners[prec].next == t then
        Goto(Put(s, prec, s.owners[prec].(nextIndex := self.nextIndex)), t, Unlink(l, prec))
      else Goto(s, t, StalePrec(l, prec))
    case Unlink(l, prec) => Unlinked(s, t, l, prec, Unlisted(l, prec))
    case StalePrec(l, prec) => Unlock(s, t, prec, DropSelf(l))
    case DropSelf(l) => Unlock(s, t, t, GetFirst(l))
    case Unlisted(l, prec) => if prec == 0 then Goto(s, t, Leave(l)) else Unlock(s, t, prec, Leave(l))
    case Leave(l) => Goto(Put(s, t, self.(marked := false, holder := Free)), t, Idle)
    case _ => s
  }

  /** get_first_waiter and find_prec_waiter, called from remove_waiter. */
  function SearchStep(s: State, t: nat): (s': State)
    requires Shaped(s) && t < |s.pcs|
    ensures Shaped(s') && SameSize(s, s')
  {
    match s.pcs[t]
    case GetFirst(l) => if s.headers[l] == 0 then Goto(s, t, Failed) else Goto(s, t, LockFirst(l, s.headers[l]))
    case LockFirst(l, first) => Lock(s, t, first, Recheck(l, first))
    case Recheck(l, first) =>
      if s.headers[l] != first then Goto(s, t, DropFirst(l, first, s.headers[l]))
      else if first == t then Goto(s, t, Unlist(l, 0))
      else Goto(s, t, Walk(l, first))
    case DropFirst(l, first, again) => Unlock(s, t, first, if again == 0 then Failed else LockFirst(l, again))
    case Walk(l, cur) =>
      var next := s.owners[cur].next;
      if next == 0 then Goto(s, t, Failed)
      else if next == t then Goto(s, t, RelockSelf(l, cur))
      else Goto(s, t, LockNext(l, cur, next))
    case LockNext(l, cur, next) => Lock(s, t, next, DropCur(l, cur, next))
    case DropCur(l, cur, next) => Unlock(s, t, cur, Walk(l, next))
    case RelockSelf(l, prec) => Lock(s, t, t, Unlist(l, prec))
    case _ => s
  }

  /** The next step of thread t. */
  function Step(s: State, t: nat, list: nat): (s': State)
    requires Shaped(s) && t < |s.pcs|
    ensures Shaped(s') && SameSize(s, s')
  {
    match s.pcs[t]
    case Failed => s
    case Unlist(_, _) | Unlink(_, _) | StalePrec(_, _) | DropSelf(_) | Unlisted(_, _) | Leave(_) => RemoveStep(s, t)
    case GetFirst(_) | LockFirst(_, _) | Recheck(_, _) | DropFirst(_, _, _) => SearchStep(s, t)
    case Walk(_, _) | LockNext(_, _, _) | DropCur(_, _, _) | RelockSelf(_, _) => SearchStep(s, t)
    case _ => EnlistStep(s, t, list)
  }

  function Next(s: State, a: Action): (s': State)
    requires Shaped(s)
    ensures Shaped(s') && SameSize(s, s')
  {
    match a
    case Run(t, list) => if 0 < t < |s.pcs| then Step(s, t, list) else s
    case WakerLock(o) =>
      if 0 < o < |s.owners| && s.owners[o].holder == Free then Put(s, o, s.owners[o].(holder := Waker)) else s
    case WakeUp(o) =>
      if 0 < o < |s.owners| && s.owners[o].holder == Waker && s.owners[o].waiting
      then Put(s, o, s.owners[o].(waiting := false)) else s
    case WakerUnlock(o) =>
      if 0 < o < |s.owners| && s.owners[o].holder == Waker then Put(s, o, s.owners[o].(holder := Free)) else s
  }

  // ---------------------------------------------------------------------------------------------
  // The invariant
  // ---------------------------------------------------------------------------------------------

  /** A remover has already changed the owner's next index, but not yet its next pointer. */
  predicate BeingUnlinked(s: State, o: nat)
    requires Shaped(s) && o < |s.owners|
  {
    var h := s.owners[o].holder;
    h.Thread? && h.t < |s.pcs| && s.pcs[h.t].Unlink? && s.pcs[h.t].prec == o
  }

  /** The header and the links spell the ideal list, whose members are the threads that have prepended
      themselves and not removed themselves since. */
  ghost predicate ListOk(s: State, l: nat)
    requires Shaped(s) && l < |s.headers|
  {
    var c := s.chains[l];
    && Distinct(c) && 0 !in c
    && s.headers[l] == Head(c)
    && (forall t :: 0 < t < |s.pcs| ==> (t in c <==> InList(s.pcs[t], l)))
    && (forall o :: o in c ==>
         && o < |s.owners|
         && s.owners[o].next == Succ(c, o)
         && (s.owners[o].nextIndex == s.owners[o].next || BeingUnlinked(s, o)))
  }

  ghost predicate MutexesOk(s: State)
    requires Shaped(s)
  {
    && (forall o, t :: 0 < o < |s.owners| && 0 < t < |s.pcs| ==>
         (s.owners[o].holder == Thread(t) <==> Holds(s.pcs[t], t, o)))
    && (forall o :: 0 <= o < |s.owners| && s.owners[o].holder.Thread? ==> 0 < s.owners[o].holder.t < |s.pcs|)
  }

  /** What a thread knows where it is. */
  ghost predicate ThreadOk(s: State, t: nat)
    requires Shaped(s) && 0 < t < |s.pcs|
  {
    var self := s.owners[t];
    && (self.waiting ==> s.pcs[t].Sleeping? && self.marked)
    && match s.pcs[t]
       case Failed => false
       case StalePrec(_, _) => false
       case SetNext(_, first) => self.nextIndex == first
       case Prepend(_, first) => self.nextIndex == first && self.next == first
       case Unlist(l, prec) => prec != 0 ==> prec in s.chains[l] && Succ(s.chains[l], prec) == t && prec != t
       case Unlink(l, prec) =>
         && prec != 0 && prec in s.chains[l] && Succ(s.chains[l], prec) == t && prec != t
         && s.owners[prec].nextIndex == self.nextIndex
       case LockFirst(_, first) => first != 0
       case Recheck(_, first) => first != 0
       case DropFirst(_, first, again) => first != 0 && again != 0
       case Walk(l, cur) => cur != 0 && Before(s.chains[l], cur, t)
       case LockNext(l, cur, next) =>
         && cur != 0 && next != 0 && Before(s.chains[l], cur, t)
         && next == Succ(s.chains[l], cur) && next != t && next != cur
       case DropCur(l, cur, next) =>
         && cur != 0 && next != 0 && Before(s.chains[l], cur, t)
         && next == Succ(s.chains[l], cur) && next != t && next != cur
       case RelockSelf(l, prec) => prec != 0 && prec in s.chains[l] && Succ(s.chains[l], prec) == t && prec != t
       case Unlisted(_, prec) => prec != t
       case _ => true
  }

  ghost predicate Inv(s: State) {
    && Shaped(s) && MutexesOk(s)
    && (forall l :: 0 <= l < |s.headers| ==> ListOk(s, l))
    && (forall t :: 0 < t < |s.pcs| ==> ThreadOk(s, t))
  }

  // ---------------------------------------------------------------------------------------------
  // Preservation
  // ---------------------------------------------------------------------------------------------

  /** Between two states of a list, nobody but t, and nobody behind anyone but prec, has moved. */
  ghost predicate Kept(c: seq<nat>, c': seq<nat>, t: nat, prec: nat) {
    && (forall y :: y in c && y != t ==> y in c' && (y != prec ==> Succ(c', y) == Succ(c, y)))
    && (forall a, b :: a != t && b != t && Before(c, a, b) ==> Before(c', a, b))
  }

  /** A step of t changes its own owner, and of others at most those whose mutex is free or its own, and
      not their flags. */
  ghost predicate Touches(s: State, s': State, t: nat) {
    && |s'.owners| == |s.owners|
    && forall o :: 0 <= o < |s.owners| && s'.owners[o] != s.owners[o] ==>
         && (s.owners[o].holder == Free || s.owners[o].holder == Thread(t))
         && (s'.owners[o].holder == Free || s'.owners[o].holder == Thread(t))
         && (o != t ==> s'.owners[o].marked == s.owners[o].marked && s'.owners[o].waiting == s.owners[o].waiting)
  }

  /** Other threads do not notice. */
  lemma OtherThread(s: State, s': State, t: nat, prec: nat, u: nat)
    requires Shaped(s) && MutexesOk(s) && Shaped(s') && |s'.pcs| == |s.pcs| && |s'.headers| == |s.headers|
    requires 0 < t < |s.pcs| && 0 < u < |s.pcs| && u != t && ThreadOk(s, u) && s'.pcs[u] == s.pcs[u]
    requires Touches(s, s', t)
    requires s'.chains == s.chains ||
             (&& (prec == 0 || (prec < |s.owners| && s.owners[prec].holder == Thread(t)))
              && s.owners[t].holder == Thread(t)
              && forall l :: 0 <= l < |s.chains| ==> Kept(s.chains[l], s'.chains[l], t, prec))
    ensures ThreadOk(s', u)
  {
    assert forall o :: 0 < o < |s.owners| && Holds(s.pcs[u], u, o) ==> s.owners[o].holder == Thread(u);
    var pc := s.pcs[u];
    if pc.Walk? || pc.LockNext? || pc.DropCur? {
      BeforeMember(s.chains[pc.list], pc.cur, u);
    }
  }

  /** Mutexes stay consistent when the thread holds what its new place says. */
  lemma MutexesStay(s: State, s': State, t: nat)
    requires Shaped(s) && MutexesOk(s) && Shaped(s') && 0 < t < |s.pcs| && Touches(s, s', t)
    requires s'.pcs == s.pcs[t := s'.pcs[t]]
    requires forall o :: 0 < o < |s.owners| ==> (s'.owners[o].holder == Thread(t) <==> Holds(s'.pcs[t], t, o))
    ensures MutexesOk(s')
  {
  }

  /** A list whose header, members and links do not change stays in order. */
  lemma ListStays(s: State, s': State, t: nat, l: nat)
    requires Inv(s) && Shaped(s') && 0 < t < |s.pcs| && Touches(s, s', t) && s'.pcs == s.pcs[t := s'.pcs[t]]
    requires l < |s.headers| == |s'.headers| && s'.headers[l] == s.headers[l] && s'.chains[l] == s.chains[l]
    requires InList(s'.pcs[t], l) <==> InList(s.pcs[t], l)
    requires forall o :: 0 <= o < |s.owners| && o in s.chains[l] ==>
               && s'.owners[o].next == s.owners[o].next
               && (s'.owners[o].nextIndex == s.owners[o].nextIndex || BeingUnlinked(s', o))
               && (s.owners[o].holder == Thread(t) && BeingUnlinked(s, o) ==> BeingUnlinked(s', o))
    ensures ListOk(s', l)
  {
    assert ListOk(s, l);
    forall o | 0 <= o < |s.owners| && o in s.chains[l] && BeingUnlinked(s, o) ensures BeingUnlinked(s', o) {
      assert s.owners[o].holder != Thread(t) ==> s'.owners[o] == s.owners[o];
    }
  }

  /** Steps that leave all lists alone keep the invariant if the thread knows at its new place what it
      needs to know and holds the mutexes it needs to hold. */
  lemma QuietStep(s: State, s': State, t: nat)
    requires Inv(s) && Shaped(s') && 0 < t < |s.pcs| && Touches(s, s', t) && s'.pcs == s.pcs[t := s'.pcs[t]]
    requires s'.headers == s.headers && s'.chains == s.chains && !s.pcs[t].Unlink?
    requires forall l :: 0 <= l < |s.headers| ==> (InList(s'.pcs[t], l) <==> InList(s.pcs[t], l))
    requires forall o :: 0 < o < |s.owners| ==> (s'.owners[o].holder == Thread(t) <==> Holds(s'.pcs[t], t, o))
    requires forall o :: 0 < o < |s.owners| ==>
               || (o == t && forall l :: 0 <= l < |s.headers| ==> !InList(s.pcs[t], l))
               || (&& s'.owners[o].next == s.owners[o].next
                   && (s'.owners[o].nextIndex == s.owners[o].nextIndex || BeingUnlinked(s', o)))
    requires ThreadOk(s', t)
    ensures Inv(s')
  {
    MutexesStay(s, s', t);
    forall l | 0 <= l < |s'.headers| ensures ListOk(s', l) {
      assert ListOk(s, l);
      ListStays(s, s', t, l);
    }
    forall u | 0 < u < |s'.pcs| ensures ThreadOk(s', u) {
      if u != t {
        OtherThread(s, s', t, 0, u);
      }
    }
  }

  /** A step that changes one list keeps the invariant likewise. */
  lemma ListStep(s: State, s': State, t: nat, list: nat, prec: nat)
    requires Inv(s) && Shaped(s') && 0 < t < |s.pcs| && Touches(s, s', t) && s'.pcs == s.pcs[t := s'.pcs[t]]
    requires list < |s.headers| == |s'.headers| && s.owners[t].holder == Thread(t)
    requires prec == 0 || (prec < |s.owners| && s.owners[prec].holder == Thread(t) && prec in s.chains[list])
    requires s'.headers == s.headers[list := s'.headers[list]] && s'.chains == s.chains[list := s'.chains[list]]
    requires forall l :: 0 <= l < |s.headers| && l != list ==> !InList(s'.pcs[t], l) && !InList(s.pcs[t], l)
    requires forall o :: 0 <= o < |s.owners| && o != prec ==> s'.owners[o] == s.owners[o]
    requires forall o :: 0 < o < |s.owners| ==> (s'.owners[o].holder == Thread(t) <==> Holds(s'.pcs[t], t, o))
    requires s.pcs[t].Unlink? ==> s.pcs[t].prec == prec
    requires Kept(s.chains[list], s'.chains[list], t, prec) && ListOk(s', list) && ThreadOk(s', t)
    ensures Inv(s')
  {
    MutexesStay(s, s', t);
    forall l | 0 <= l < |s'.headers| ensures ListOk(s', l) {
      if l != list {
        assert ListOk(s, l) && ListOk(s, list);
        if prec != 0 {
          NoSharing(s, prec, list, l);
        }
        ListStays(s, s', t, l);
      }
    }
    forall u | 0 < u < |s'.pcs| ensures ThreadOk(s', u) {
      if u != t {
        OtherThread(s, s', t, prec, u);
      }
    }
  }

  /** A thread is in at most one list. */
  lemma NoSharing(s: State, o: nat, l: nat, m: nat)
    requires Inv(s) && l < |s.headers| && m < |s.headers| && l != m && o in s.chains[l]
    ensures o !in s.chains[m]
  {
    assert ListOk(s, l) && ListOk(s, m);
    assert InList(s.pcs[o], l);
  }

  ghost predicate SameLists(pc: Pc, pc': Pc) {
    forall l :: InList(pc', l) <==> InList(pc, l)
  }

  lemma GotoKeepsInv(s: State, t: nat, pc: Pc)
    requires Inv(s) && 0 < t < |s.pcs| && !s.pcs[t].Unlink? && InRange(s, pc) && SameLists(s.pcs[t], pc)
    requires forall o :: 0 < o < |s.owners| ==> (Holds(pc, t, o) <==> Holds(s.pcs[t], t, o))
    requires ThreadOk(Goto(s, t, pc), t)
    ensures Inv(Goto(s, t, pc))
  {
    QuietStep(s, Goto(s, t, pc), t);
  }

  lemma LockKeepsInv(s: State, t: nat, o: nat, pc: Pc)
    requires Inv(s) && 0 < t < |s.pcs| && 0 < o < |s.owners| && !s.pcs[t].Unlink?
    requires InRange(s, pc) && SameLists(s.pcs[t], pc)
    requires forall x :: 0 < x < |s.owners| ==> (Holds(pc, t, x) <==> Holds(s.pcs[t], t, x) || x == o)
    requires s.owners[o].holder == Free ==> ThreadOk(Lock(s, t, o, pc), t)
    ensures Inv(Lock(s, t, o, pc))
  {
    if s.owners[o].holder == Free {
      QuietStep(s, Lock(s, t, o, pc), t);
    }
  }

  lemma UnlockKeepsInv(s: State, t: nat, o: nat, pc: Pc)
    requires Inv(s) && 0 < t < |s.pcs| && 0 < o < |s.owners| && !s.pcs[t].Unlink?
    requires InRange(s, pc) && SameLists(s.pcs[t], pc) && Holds(s.pcs[t], t, o)
    requires forall x :: 0 < x < |s.owners| ==> (Holds(pc, t, x) <==> Holds(s.pcs[t], t, x) && x != o)
    requires ThreadOk(Unlock(s, t, o, pc), t)
    ensures Inv(Unlock(s, t, o, pc))
  {
    QuietStep(s, Unlock(s, t, o, pc), t);
  }
}
