/** Every step of the waiter lists' machine keeps its invariant (src/picotm_lock_manager.c:244-597).
    - A thread enlists itself: it locks its own owner, reads the first index and prepends itself by compare-and-swap.
    - It leaves the list at the header, by compare-and-swap, or behind a predecessor that it holds, in two writes.
    - It searches that predecessor hand over hand from the first waiter on, which is there because it is in the list
      itself.
    - Wakers lock, wake and leave owners as they like. They change no link. */
module WaiterSteps {
  import opened Common
  import opened WaiterList

  /** The thread's own fields change while it is in no list and no flags are set. */
  lemma WriteKeepsInv(s: State, t: nat, pc: Pc)
    requires Inv(s) && 0 < t < |s.pcs| && (s.pcs[t].SetNextIndex? || s.pcs[t].SetNext?)
    ensures Inv(EnlistStep(s, t, 0))
  {
    assert ThreadOk(s, t) && Holds(s.pcs[t], t, t);
    QuietStep(s, EnlistStep(s, t, 0), t);
  }

  lemma SleepKeepsInv(s: State, t: nat)
    requires Inv(s) && 0 < t < |s.pcs| && (s.pcs[t].Enlisted? || s.pcs[t].Sleeping?)
    ensures Inv(EnlistStep(s, t, 0))
  {
    assert ThreadOk(s, t) && (s.pcs[t].Enlisted? ==> Holds(s.pcs[t], t, t));
    if EnlistStep(s, t, 0) != s {
      QuietStep(s, EnlistStep(s, t, 0), t);
    }
  }

  lemma EnlistKeepsInv(s: State, t: nat, list: nat)
    requires Inv(s) && 0 < t < |s.pcs|
    ensures Inv(EnlistStep(s, t, list))
  {
    assert ThreadOk(s, t);
    match s.pcs[t]
    case Idle =>
      if list < |s.headers| {
        GotoKeepsInv(s, t, LockSelf(list));
      }
    case LockSelf(l) => LockKeepsInv(s, t, t, ReadFirst(l));
    case ReadFirst(l) => GotoKeepsInv(s, t, SetNextIndex(l, s.headers[l]));
    case SetNextIndex(l, first) => WriteKeepsInv(s, t, SetNext(l, first));
    case SetNext(l, first) => WriteKeepsInv(s, t, Prepend(l, first));
    case Prepend(l, first) =>
      if s.headers[l] == first {
        PrependKeepsInv(s, t, l, first);
      } else {
        GotoKeepsInv(s, t, SetNextIndex(l, s.headers[l]));
      }
    case Enlisted(_) => SleepKeepsInv(s, t);
    case Sleeping(_) => SleepKeepsInv(s, t);
    case _ =>
  }

  /** The new first element. */
  lemma PrependKeepsInv(s: State, t: nat, l: nat, first: nat)
    requires Inv(s) && 0 < t < |s.pcs| && s.pcs[t] == Prepend(l, first) && s.headers[l] == first
    ensures Inv(Prepended(s, t, l, Enlisted(l)))
  {
    var s' := Prepended(s, t, l, Enlisted(l));
    var c := s.chains[l];
    assert ThreadOk(s, t) && ListOk(s, l) && Holds(s.pcs[t], t, t) && !InList(s.pcs[t], l);
    PrependKeepsRest(c, t);
    PrependedList(s, t, l);
    ListStep(s, s', t, l, 0);
  }

  lemma PrependKeepsRest(c: seq<nat>, t: nat)
    requires t !in c
    ensures Kept(c, [t] + c, t, 0) && forall o :: o in c ==> Succ([t] + c, o) == Succ(c, o)
    ensures Succ([t] + c, t) == Head(c)
  {
    assert ([t] + c)[1..] == c;
  }

  lemma PrependedList(s: State, t: nat, l: nat)
    requires Inv(s) && 0 < t < |s.pcs| && l < |s.headers| && s.pcs[t] == Prepend(l, s.headers[l])
    ensures ListOk(Prepended(s, t, l, Enlisted(l)), l)
  {
    var c := s.chains[l];
    var s' := Prepended(s, t, l, Enlisted(l));
    assert ThreadOk(s, t) && ListOk(s, l) && Holds(s.pcs[t], t, t) && !InList(s.pcs[t], l);
    PrependKeepsRest(c, t);
    assert ([t] + c)[1..] == c;
    forall o | 0 <= o < |s.owners| && BeingUnlinked(s, o) ensures BeingUnlinked(s', o) {
    }
  }

  /** Removal from the header. */
  lemma BeheadKeepsInv(s: State, t: nat, l: nat)
    requires Inv(s) && 0 < t < |s.pcs| && s.pcs[t] == Unlist(l, 0) && s.headers[l] == t
    ensures Inv(Beheaded(s, t, l, s.owners[t].nextIndex, Unlisted(l, 0)))
  {
    assert ThreadOk(s, t) && ListOk(s, l) && Holds(s.pcs[t], t, t) && InList(s.pcs[t], l);
    RemovalKeeps(s.chains[l], t, 0);
    BeheadedList(s, t, l);
    ListStep(s, Beheaded(s, t, l, s.owners[t].nextIndex, Unlisted(l, 0)), t, l, 0);
  }

  lemma BeheadedList(s: State, t: nat, l: nat)
    requires Inv(s) && 0 < t < |s.pcs| && s.pcs[t] == Unlist(l, 0) && s.headers[l] == t
    ensures ListOk(Beheaded(s, t, l, s.owners[t].nextIndex, Unlisted(l, 0)), l)
  {
    var s' := Beheaded(s, t, l, s.owners[t].nextIndex, Unlisted(l, 0));
    var c := s.chains[l];
    assert ThreadOk(s, t) && ListOk(s, l) && Holds(s.pcs[t], t, t) && InList(s.pcs[t], l);
    assert !BeingUnlinked(s, t);
    RemovalKeeps(c, t, 0);
    assert c == [t] + c[1..] && Without(c, t) == c[1..];
    forall o | 0 <= o < |s.owners| && BeingUnlinked(s, o) ensures BeingUnlinked(s', o) {
    }
  }

  /** Removal behind a predecessor. */
  lemma UnlinkKeepsInv(s: State, t: nat, l: nat, prec: nat)
    requires Inv(s) && 0 < t < |s.pcs| && s.pcs[t] == Unlink(l, prec)
    ensures Inv(Unlinked(s, t, l, prec, Unlisted(l, prec)))
  {
    assert ThreadOk(s, t) && ListOk(s, l) && Holds(s.pcs[t], t, t) && Holds(s.pcs[t], t, prec);
    RemovalKeeps(s.chains[l], t, prec);
    UnlinkedList(s, t, l, prec);
    ListStep(s, Unlinked(s, t, l, prec, Unlisted(l, prec)), t, l, prec);
  }

  lemma UnlinkedList(s: State, t: nat, l: nat, prec: nat)
    requires Inv(s) && 0 < t < |s.pcs| && s.pcs[t] == Unlink(l, prec)
    ensures ListOk(Unlinked(s, t, l, prec, Unlisted(l, prec)), l)
  {
    var c := s.chains[l];
    assert ThreadOk(s, t) && ListOk(s, l) && InList(s.pcs[t], l);
    RemovalKeeps(c, t, prec);
    UnlinkedOwners(s, t, l, prec);
  }

  lemma UnlinkedOwners(s: State, t: nat, l: nat, prec: nat)
    requires Inv(s) && 0 < t < |s.pcs| && s.pcs[t] == Unlink(l, prec)
    ensures var s', c' := Unlinked(s, t, l, prec, Unlisted(l, prec)), Without(s.chains[l], t);
            forall o :: o in c' ==>
              && o < |s.owners| && s'.owners[o].next == Succ(c', o)
              && (s'.owners[o].nextIndex == s'.owners[o].next || BeingUnlinked(s', o))
  {
    var s' := Unlinked(s, t, l, prec, Unlisted(l, prec));
    assert ThreadOk(s, t) && ListOk(s, l) && Holds(s.pcs[t], t, t) && Holds(s.pcs[t], t, prec) && InList(s.pcs[t], l);
    assert !BeingUnlinked(s, t);
    RemovalKeeps(s.chains[l], t, prec);
    forall o | 0 <= o < |s.owners| && o != prec && BeingUnlinked(s, o) ensures BeingUnlinked(s', o) {
    }
  }

  /** Removing t from behind prec (or from the front) leaves everybody else in place. */
  lemma RemovalKeeps(c: seq<nat>, t: nat, prec: nat)
    requires Distinct(c) && 0 !in c && t in c
    requires if prec == 0 then c[0] == t else prec in c && Succ(c, prec) == t
    ensures Kept(c, Without(c, t), t, prec) && Distinct(Without(c, t))
    ensures forall y :: y in Without(c, t) <==> y in c && y != t
    ensures prec != 0 && prec != t ==> Succ(Without(c, t), prec) == Succ(c, t)
    ensures prec != 0 ==> Head(Without(c, t)) == Head(c)
  {
    forall y ensures y in Without(c, t) <==> y in c && y != t {
      WithoutMembers(c, t, y);
    }
    WithoutMembers(c, t, t);
    forall y | y in c && y != t ensures y != prec ==> Succ(Without(c, t), y) == Succ(c, y) {
      WithoutSucc(c, t, y);
      if y != prec && Succ(c, y) == t {
        OnePredecessor(c, y, prec, t);
      }
    }
    if prec != 0 {
      NotHead(c, prec);
      if prec != t {
        WithoutSucc(c, t, prec);
      }
    }
    forall a, b | a != t && b != t && Before(c, a, b) ensures Before(Without(c, t), a, b) {
      WithoutBefore(c, t, a, b);
    }
  }

  /** A successor is not the first element. */
  lemma {:induction false} NotHead(c: seq<nat>, a: nat)
    requires Distinct(c) && a in c && 0 !in c && Succ(c, a) != 0
    ensures Succ(c, a) != c[0] && Succ(c, a) in c
  {
    if c[0] == a {
      assert c[1..] == [c[1]] + c[2..];
    } else {
      NotHead(c[1..], a);
    }
  }

  /** No element is the successor of two. */
  lemma {:induction false} OnePredecessor(c: seq<nat>, a: nat, b: nat, x: nat)
    requires Distinct(c) && 0 !in c && a in c && Succ(c, a) == x && x in c
    requires if b == 0 then c[0] == x else b in c && Succ(c, b) == x
    ensures a == b
  {
    if b == 0 {
      NotHead(c, a);
    } else if c[0] == a && c[0] != b {
      assert c[1..] == [x] + c[2..];
      NotHead(c[1..], b);
    } else if c[0] == b && c[0] != a {
      assert c[1..] == [x] + c[2..];
      NotHead(c[1..], a);
    } else if c[0] != a {
      NotHead(c, a);
      OnePredecessor(c[1..], a, b, x);
    }
  }

  lemma RemoveKeepsInv(s: State, t: nat)
    requires Inv(s) && 0 < t < |s.pcs|
    ensures Inv(RemoveStep(s, t))
  {
    assert ThreadOk(s, t);
    match s.pcs[t]
    case Unlink(l, prec) => UnlinkKeepsInv(s, t, l, prec);
    case Unlist(l, prec) => UnlistKeepsInv(s, t, l, prec);
    case DropSelf(l) => UnlockKeepsInv(s, t, t, GetFirst(l));
    case Unlisted(l, prec) => LeaveKeepsInv(s, t);
    case Leave(l) => LeaveKeepsInv(s, t);
    case _ =>
  }

  lemma UnlistKeepsInv(s: State, t: nat, l: nat, prec: nat)
    requires Inv(s) && 0 < t < |s.pcs| && s.pcs[t] == Unlist(l, prec)
    ensures Inv(RemoveStep(s, t))
  {
    assert ThreadOk(s, t) && ListOk(s, l);
    if prec != 0 {
      assert Holds(s.pcs[t], t, prec);
      BeginUnlinkKeepsInv(s, t, l, prec);
    } else if s.headers[l] == t {
      BeheadKeepsInv(s, t, l);
    } else {
      GotoKeepsInv(s, t, DropSelf(l));
    }
  }

  lemma LeaveKeepsInv(s: State, t: nat)
    requires Inv(s) && 0 < t < |s.pcs| && (s.pcs[t].Unlisted? || s.pcs[t].Leave?)
    ensures Inv(RemoveStep(s, t))
  {
    assert ThreadOk(s, t);
    match s.pcs[t]
    case Unlisted(l, prec) =>
      if prec == 0 {
        GotoKeepsInv(s, t, Leave(l));
      } else {
        UnlockKeepsInv(s, t, prec, Leave(l));
      }
    case Leave(l) =>
      assert Holds(s.pcs[t], t, t);
      QuietStep(s, RemoveStep(s, t), t);
  }

  lemma BeginUnlinkKeepsInv(s: State, t: nat, l: nat, prec: nat)
    requires Inv(s) && 0 < t < |s.pcs| && s.pcs[t] == Unlist(l, prec) && prec != 0
    ensures Inv(RemoveStep(s, t))
  {
    assert ThreadOk(s, t) && ListOk(s, l) && Holds(s.pcs[t], t, prec);
    QuietStep(s, RemoveStep(s, t), t);
  }

  lemma SearchKeepsInv(s: State, t: nat)
    requires Inv(s) && 0 < t < |s.pcs|
    ensures Inv(SearchStep(s, t))
  {
    assert ThreadOk(s, t);
    match s.pcs[t]
    case GetFirst(_) => FirstKeepsInv(s, t);
    case LockFirst(l, first) => LockKeepsInv(s, t, first, Recheck(l, first));
    case Recheck(_, _) => FirstKeepsInv(s, t);
    case DropFirst(l, first, again) => UnlockKeepsInv(s, t, first, LockFirst(l, again));
    case Walk(_, _) => WalkKeepsInv(s, t);
    case LockNext(_, _, _) => WalkOnKeepsInv(s, t);
    case DropCur(_, _, _) => WalkOnKeepsInv(s, t);
    case RelockSelf(l, prec) => LockKeepsInv(s, t, t, Unlist(l, prec));
    case _ =>
  }

  /** The header names a waiter, since the searching thread itself is still in the list. */
  lemma FirstKeepsInv(s: State, t: nat)
    requires Inv(s) && 0 < t < |s.pcs| && (s.pcs[t].GetFirst? || s.pcs[t].Recheck?)
    ensures Inv(SearchStep(s, t))
  {
    var l := s.pcs[t].list;
    assert ThreadOk(s, t) && ListOk(s, l) && InList(s.pcs[t], l);
    match s.pcs[t]
    case GetFirst(_) => GotoKeepsInv(s, t, LockFirst(l, s.headers[l]));
    case Recheck(_, first) =>
      if s.headers[l] != first {
        GotoKeepsInv(s, t, DropFirst(l, first, s.headers[l]));
      } else if first == t {
        GotoKeepsInv(s, t, Unlist(l, 0));
      } else {
        HeadBefore(s.chains[l], t);
        GotoKeepsInv(s, t, Walk(l, first));
      }
  }

  /** The hand-over-hand walk: the thread's own owner always stands behind the locked one. */
  lemma WalkKeepsInv(s: State, t: nat)
    requires Inv(s) && 0 < t < |s.pcs| && s.pcs[t].Walk?
    ensures Inv(SearchStep(s, t))
  {
    var l, cur := s.pcs[t].list, s.pcs[t].cur;
    assert ThreadOk(s, t) && ListOk(s, l);
    BeforeSucc(s.chains[l], cur, t);
    var next := s.owners[cur].next;
    if next == t {
      GotoKeepsInv(s, t, RelockSelf(l, cur));
    } else {
      GotoKeepsInv(s, t, LockNext(l, cur, next));
    }
  }

  lemma WalkOnKeepsInv(s: State, t: nat)
    requires Inv(s) && 0 < t < |s.pcs| && (s.pcs[t].LockNext? || s.pcs[t].DropCur?)
    ensures Inv(SearchStep(s, t))
  {
    var l, cur, next := s.pcs[t].list, s.pcs[t].cur, s.pcs[t].next;
    assert ThreadOk(s, t) && ListOk(s, l);
    BeforeSucc(s.chains[l], cur, t);
    if s.pcs[t].LockNext? {
      LockKeepsInv(s, t, next, DropCur(l, cur, next));
    } else {
      UnlockKeepsInv(s, t, cur, Walk(l, next));
    }
  }

  // ---------------------------------------------------------------------------------------------
  // All steps
  // ---------------------------------------------------------------------------------------------

  lemma NextKeepsInv(s: State, a: Action)
    requires Inv(s)
    ensures Inv(Next(s, a))
  {
    match a
    case Run(t, list) =>
      if 0 < t < |s.pcs| {
        assert ThreadOk(s, t);
        EnlistKeepsInv(s, t, list);
        RemoveKeepsInv(s, t);
        SearchKeepsInv(s, t);
      }
    case _ => WakerKeepsInv(s, a);
  }

  /** Wakers change no link, and set flags only back. */
  lemma WakerKeepsInv(s: State, a: Action)
    requires Inv(s) && !a.Run?
    ensures Inv(Next(s, a))
  {
    var s' := Next(s, a);
    if s' != s {
      OwnerKeepsInv(s, a.o, s'.owners[a.o]);
    }
  }

  lemma OwnerKeepsInv(s: State, o: nat, owner: Owner)
    requires Inv(s) && o < |s.owners|
    requires owner.next == s.owners[o].next && owner.nextIndex == s.owners[o].nextIndex
    requires owner.marked == s.owners[o].marked && (owner.waiting ==> s.owners[o].waiting)
    requires !owner.holder.Thread? && !s.owners[o].holder.Thread?
    ensures Inv(Put(s, o, owner))
  {
    var s' := Put(s, o, owner);
    forall l | 0 <= l < |s.headers| ensures ListOk(s', l) {
      assert ListOk(s, l);
      forall x | 0 <= x < |s.owners| && BeingUnlinked(s, x) ensures BeingUnlinked(s', x) {
      }
    }
    forall u | 0 < u < |s.pcs| ensures ThreadOk(s', u) {
      OwnerKeepsThread(s, o, owner, u);
    }
  }

  lemma OwnerKeepsThread(s: State, o: nat, owner: Owner, u: nat)
    requires Inv(s) && o < |s.owners| && 0 < u < |s.pcs|
    requires owner.next == s.owners[o].next && owner.nextIndex == s.owners[o].nextIndex
    requires owner.marked == s.owners[o].marked && (owner.waiting ==> s.owners[o].waiting)
    ensures ThreadOk(Put(s, o, owner), u)
  {
    assert ThreadOk(s, u);
  }
}
