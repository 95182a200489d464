/** Any number of threads that wait in any number of lists, in every run (src/picotm_lock_manager.c:244-597). */
module WaiterRuns {
  import opened Common
  import opened WaiterList
  import opened WaiterSteps

  /** n threads, the given number of empty lists. */
  function Init(n: nat, lists: nat): (s: State)
    ensures Shaped(s)
  {
    State(seq(lists, _ => 0), seq(lists, _ => []), seq(n + 1, _ => Owner(0, 0, false, false, Free)),
          seq(n + 1, _ => Idle))
  }

  function Reach(s: State, actions: seq<Action>): (s': State)
    requires Shaped(s)
    ensures Shaped(s') && SameSize(s, s')
    decreases |actions|
  {
    if actions == [] then s else Reach(Next(s, actions[0]), actions[1..])
  }

  lemma {:induction false} ReachKeepsInv(s: State, actions: seq<Action>)
    requires Inv(s)
    ensures Inv(Reach(s, actions))
    decreases |actions|
  {
    if actions != [] {
      NextKeepsInv(s, actions[0]);
      ReachKeepsInv(Next(s, actions[0]), actions[1..]);
    }
  }

  /** What the header and the links of the owners spell, read by a walker that nobody disturbs. */
  ghost predicate Spells(s: State, o: nat, c: seq<nat>)
    requires Shaped(s)
    decreases |c|
  {
    if c == [] then o == 0 else o != 0 && o == c[0] && o < |s.owners| && Spells(s, s.owners[o].next, c[1..])
  }

  lemma {:induction false} ChainSpelled(s: State, c: seq<nat>)
    requires Shaped(s) && Distinct(c) && 0 !in c
    requires forall o :: o in c ==> o < |s.owners| && s.owners[o].next == Succ(c, o)
    ensures Spells(s, Head(c), c)
  {
    if c != [] {
      assert c[0] in c;
      forall o | o in c[1..] ensures o < |s.owners| && s.owners[o].next == Succ(c[1..], o) {
        assert o in c;
      }
      ChainSpelled(s, c[1..]);
    }
  }

  /** In every run, at every moment, from the header of each list the next pointers lead through a
      null-terminated chain without duplicates, whose members are exactly the threads that have prepended
      themselves and not removed themselves since; an owner's next index names the same owner as its next
      pointer, unless a remover that holds the owner's mutex is about to adapt the pointer. */
  lemma ListsAreChains(n: nat, lists: nat, actions: seq<Action>, l: nat)
    requires l < lists
    ensures var s := Reach(Init(n, lists), actions);
            |s.headers| == lists && |s.pcs| == n + 1 &&
            var c := s.chains[l];
            && Spells(s, s.headers[l], c) && Distinct(c)
            && (forall t :: 0 < t <= n ==> (t in c <==> InList(s.pcs[t], l)))
            && (forall o :: o in c ==>
                 0 < o <= n && (s.owners[o].nextIndex == s.owners[o].next || BeingUnlinked(s, o)))
  {
    var s := Reach(Init(n, lists), actions);
    InitOk(n, lists);
    ReachKeepsInv(Init(n, lists), actions);
    assert ListOk(s, l);
    ChainSpelled(s, s.chains[l]);
  }

  /** No assertion is ever violated: the walk finds the waiter, the list is not found empty, no waiting flag
      is set when a thread goes to sleep; a found predecessor never becomes stale; and a set waiting flag,
      which is all that a waker acts on, belongs to a sleeping thread marked as reader or writer. */
  lemma AssertionsHold(n: nat, lists: nat, actions: seq<Action>, t: nat)
    requires 0 < t <= n
    ensures var s := Reach(Init(n, lists), actions);
            |s.pcs| == n + 1 && !s.pcs[t].Failed? && !s.pcs[t].StalePrec?
            && (s.owners[t].waiting ==> s.pcs[t].Sleeping? && s.owners[t].marked)
  {
    var s := Reach(Init(n, lists), actions);
    InitOk(n, lists);
    ReachKeepsInv(Init(n, lists), actions);
    assert ThreadOk(s, t);
  }

  /** Nobody ever holds a mutex that another thread or a waker holds, and a thread that is not waiting holds none. */
  lemma MutualExclusion(n: nat, lists: nat, actions: seq<Action>, t: nat, u: nat, o: nat)
    requires 0 < t <= n && 0 < u <= n && 0 < o <= n
    ensures var s := Reach(Init(n, lists), actions);
            |s.pcs| == n + 1
            && (Holds(s.pcs[t], t, o) ==> s.owners[o].holder == Thread(t) && (Holds(s.pcs[u], u, o) ==> u == t))
            && (s.pcs[t].Idle? ==> s.owners[o].holder != Thread(t))
  {
    InitOk(n, lists);
    ReachKeepsInv(Init(n, lists), actions);
  }

  lemma InitOk(n: nat, lists: nat)
    ensures Inv(Init(n, lists))
  {
    assert forall l :: 0 <= l < lists ==> ListOk(Init(n, lists), l);
  }
}
