/** Waking up waiters (src/picotm_lock_manager.c:604-819, src/picotm_lock_owner.c:136-189).
    - The waker walks the waiter list hand over hand. Every owner that it works on is locked, so nobody else changes it
      meanwhile.
    - Next to the linked owners stands the list that they spell, with the places of those that are locked and the
      flags of all.
    - Locking an unreliable owner may fail at any time. */
module WakeUp {
  import opened Common

  class LockOwner {
    const timestamp: int
    const unreliable: bool
    var next: LockOwner?
    var reader: bool
    var writer: bool
    var waiting: bool
    var locked: bool

    constructor (timestamp: int, unreliable: bool)
      ensures this.timestamp == timestamp && this.unreliable == unreliable && next == null && !reader && !writer
              && !waiting && !locked
    {
      this.timestamp, this.unreliable := timestamp, unreliable;
      next, reader, writer, waiting, locked := null, false, false, false, false;
    }

    method Lock() returns (error: bool)
      requires !locked
      modifies this`locked
      ensures locked == !error && (error ==> unreliable)
    {
      var failed: bool := *;
      error := unreliable && failed;
      locked := !error;
    }

    method Unlock()
      requires locked
      modifies this`locked
      ensures !locked
    {
      locked := false;
    }

    /** picotm_lock_owner_wake_up: the waiting flag has to be set. */
    method WakeUp()
      requires waiting && locked
      modifies this`waiting
      ensures !waiting
    {
      waiting := false;
    }
  }

  datatype Strategy = LongestWaiting | LongestRunning | ShortestWaiting

  /** Whether the comparison asks for the new owner in place of the one picked before. */
  predicate Prefers(strategy: Strategy, picked: LockOwner, waiter: LockOwner) {
    match strategy
    case LongestWaiting => true
    case LongestRunning => picked.timestamp > waiter.timestamp
    case ShortestWaiting => false
  }

  /** A list without duplicates, as the next links spell it. */
  ghost predicate Chain(c: seq<LockOwner>)
    reads c
  {
    && Distinct(c)
    && (forall i :: 0 <= i < |c| ==> c[i].next == if i + 1 < |c| then c[i + 1] else null)
  }

  /** The flags of the owners of a list. */
  datatype Flags = Flags(waiting: seq<bool>, reader: seq<bool>, writer: seq<bool>)

  /** Exactly the owners at the given places are locked, and the flags are as given. */
  ghost predicate LocksAre(c: seq<LockOwner>, places: set<int>, f: Flags)
    reads c
  {
    && Chain(c) && |f.waiting| == |f.reader| == |f.writer| == |c|
    && (forall i :: 0 <= i < |c| ==> (c[i].locked <==> i in places))
    && (forall i :: 0 <= i < |c| ==>
         c[i].waiting == f.waiting[i] && c[i].reader == f.reader[i] && c[i].writer == f.writer[i])
  }

  /** The place p is the strategy's choice among the first n owners, of which some are waiting. */
  ghost predicate Best(c: seq<LockOwner>, waiting: seq<bool>, n: nat, strategy: Strategy, p: int)
    requires n <= |c| == |waiting|
  {
    && 0 <= p < n && waiting[p]
    && match strategy
       case LongestWaiting => forall i :: p < i < n ==> !waiting[i]
       case ShortestWaiting => forall i :: 0 <= i < p ==> !waiting[i]
       case LongestRunning =>
         forall i :: 0 <= i < n && waiting[i] ==>
           c[p].timestamp < c[i].timestamp || (c[p].timestamp == c[i].timestamp && p <= i)
  }

  ghost predicate NoneWaiting(waiting: seq<bool>, n: nat)
    requires n <= |waiting|
  {
    forall i :: 0 <= i < n ==> !waiting[i]
  }

  ghost predicate Unreliable(c: seq<LockOwner>) {
    exists i :: 0 <= i < |c| && c[i].unreliable
  }

  method LockAt(o: LockOwner, ghost c: seq<LockOwner>, ghost i: nat, ghost places: set<int>, ghost f: Flags)
    returns (error: bool)
    requires LocksAre(c, places, f) && i < |c| && o == c[i] && i !in places
    modifies c`locked
    ensures LocksAre(c, if error then places else places + {i}, f) && (error ==> Unreliable(c))
  {
    error := o.Lock();
  }

  method UnlockAt(o: LockOwner, ghost c: seq<LockOwner>, ghost i: nat, ghost places: set<int>, ghost f: Flags)
    requires LocksAre(c, places, f) && i < |c| && o == c[i] && i in places
    modifies c`locked
    ensures LocksAre(c, places - {i}, f)
  {
    o.Unlock();
  }

  method WakeUpAt(o: LockOwner, ghost c: seq<LockOwner>, ghost i: nat, ghost places: set<int>, ghost f: Flags)
    requires LocksAre(c, places, f) && i < |c| && o == c[i] && i in places && f.waiting[i]
    modifies c`waiting
    ensures LocksAre(c, places, f.(waiting := f.waiting[i := false]))
  {
    o.WakeUp();
  }

  /** pick_waiter: picks the strategy's choice among all waiting owners of the list. On return only the first
      owner and the picked one are locked, and after an error only the first one. */
  method PickWaiter(first: LockOwner, strategy: Strategy, ghost c: seq<LockOwner>, ghost f: Flags)
    returns (error: bool, picked: LockOwner?, ghost p: int)
    requires |c| > 0 && c[0] == first && LocksAre(c, {0}, f)
    modifies c`locked
    ensures error ==> picked == null && LocksAre(c, {0}, f) && Unreliable(c)
    ensures !error && picked == null ==> NoneWaiting(f.waiting, |c|) && LocksAre(c, {0}, f)
    ensures picked != null ==>
              !error && Best(c, f.waiting, |c|, strategy, p) && picked == c[p] && LocksAre(c, {0, p}, f)
  {
    error, picked, p := false, null, 0;
    var waiter: LockOwner? := first;
    ghost var k := 0;
    while waiter != null
      invariant !error && PickedSoFar(c, k, strategy, picked, p, f) && waiter == if k < |c| then c[k] else null
      decreases |c| - k
    {
      error, waiter, picked, p := PickNext(waiter, first, strategy, picked, p, k, c, f);
      if error {
        return;
      }
      k := k + 1;
    }
  }

  /** One round of the walk. */
  method PickNext(waiter: LockOwner, first: LockOwner, strategy: Strategy, picked: LockOwner?, ghost p: int,
                  ghost k: nat, ghost c: seq<LockOwner>, ghost f: Flags)
    returns (error: bool, next: LockOwner?, picked': LockOwner?, ghost p': int)
    requires k < |c| && waiter == c[k] && first == c[0] && PickedSoFar(c, k, strategy, picked, p, f)
    modifies c`locked
    ensures error ==> picked' == null && LocksAre(c, {0}, f) && Unreliable(c)
    ensures !error ==>
              PickedSoFar(c, k + 1, strategy, picked', p', f) && next == if k + 1 < |c| then c[k + 1] else null
  {
    picked', p' := Consider(waiter, first, strategy, picked, p, k, c, f);
    error, next := Advance(waiter, first, picked', p', k, c, f);
    if error {
      picked' := null;
    }
  }

  /** The first k owners have been considered, and the next one is locked. */
  ghost predicate PickedSoFar(c: seq<LockOwner>, k: nat, strategy: Strategy, picked: LockOwner?, p: int, f: Flags)
    reads c
  {
    && k <= |c| == |f.waiting| && Picked(c, f.waiting, k, strategy, picked, p)
    && LocksAre(c, if k < |c| then {0, p, k} else {0, p}, f)
  }

  ghost predicate Picked(c: seq<LockOwner>, waiting: seq<bool>, k: nat, strategy: Strategy, picked: LockOwner?, p: int)
    requires k <= |c| == |waiting|
  {
    if picked == null then p == 0 && NoneWaiting(waiting, k) else Best(c, waiting, k, strategy, p) && picked == c[p]
  }

  /** Compares the current waiter with the owner picked so far, and unlocks the latter if it is given up. */
  method Consider(waiter: LockOwner, first: LockOwner, strategy: Strategy, picked: LockOwner?, ghost p: int,
                  ghost k: nat,
                  ghost c: seq<LockOwner>, ghost f: Flags)
    returns (picked': LockOwner?, ghost p': int)
    requires LocksAre(c, {0, p, k}, f) && k < |c| && waiter == c[k] && first == c[0]
    requires Picked(c, f.waiting, k, strategy, picked, p)
    modifies c`locked
    ensures LocksAre(c, {0, p', k}, f) && Picked(c, f.waiting, k + 1, strategy, picked', p')
  {
    picked', p' := picked, p;
    if waiter.waiting {
      if picked == null {
        picked', p' := waiter, k;
      } else if Prefers(strategy, picked, waiter) {
        GiveUpPicked(picked, first, p, k, c, f);
        picked', p' := waiter, k;
      }
    }
  }

  method GiveUpPicked(picked: LockOwner, first: LockOwner, ghost p: int, ghost k: nat, ghost c: seq<LockOwner>,
                      ghost f: Flags)
    requires LocksAre(c, {0, p, k}, f) && 0 <= p < k < |c| && picked == c[p] && first == c[0]
    modifies c`locked
    ensures LocksAre(c, {0, k}, f)
  {
    if picked != first {
      assert {0, p, k} - {p} == {0, k};
      UnlockAt(picked, c, p, {0, p, k}, f);
    } else {
      assert {0, p, k} == {0, k};
    }
  }

  /** Locks the next waiter before the current one is unlocked, unless that is the first or the picked one. */
  method Advance(waiter: LockOwner, first: LockOwner, picked: LockOwner?, ghost p: int, ghost k: nat,
                 ghost c: seq<LockOwner>, ghost f: Flags)
    returns (error: bool, next: LockOwner?)
    requires LocksAre(c, {0, p, k}, f) && k < |c| && waiter == c[k] && first == c[0] && 0 <= p <= k
    requires if picked == null then p == 0 else picked == c[p]
    modifies c`locked
    ensures error ==> LocksAre(c, {0}, f) && Unreliable(c)
    ensures !error ==> next == (if k + 1 < |c| then c[k + 1] else null)
                       && LocksAre(c, if k + 1 < |c| then {0, p, k + 1} else {0, p}, f)
  {
    error := false;
    next := waiter.next;
    assert next == if k + 1 < |c| then c[k + 1] else null;
    ghost var held: set<int> := {0, p, k};
    ghost var left: set<int> := if k + 1 < |c| then {0, p, k + 1} else {0, p};
    if next != null {
      error := LockAt(next, c, k + 1, held, f);
      if error {
        GiveUp(waiter, first, picked, p, k, c, f);
        return;
      }
      held := held + {k + 1};
    }
    assert waiter == picked || waiter == first <==> k == p || k == 0;
    if waiter != picked && waiter != first {
      assert held - {k} == left;
      UnlockAt(waiter, c, k, held, f);
    } else {
      assert held == left;
    }
  }

  /** After an error only the first owner stays locked. */
  method GiveUp(waiter: LockOwner, first: LockOwner, picked: LockOwner?, ghost p: int, ghost k: nat,
                ghost c: seq<LockOwner>, ghost f: Flags)
    requires LocksAre(c, {0, p, k}, f) && k < |c| && waiter == c[k] && first == c[0] && 0 <= p <= k
    requires if picked == null then p == 0 else picked == c[p]
    modifies c`locked
    ensures LocksAre(c, {0}, f)
  {
    ghost var held: set<int> := {0, p, k};
    if waiter != first {
      UnlockAt(waiter, c, k, held, f);
      held := held - {k};
    }
    if picked != null && picked != first && picked != waiter {
      UnlockAt(picked, c, p, held, f);
    }
  }

  /** What a wake-up does to the waiting flags: nothing if nobody waits; otherwise it clears the flag of the
      longest-waiting owner, which is the last one, and, if that is a reader and readers may share the lock, of
      all waiting readers. */
  ghost predicate Woken(was: Flags, now: seq<bool>, shared: bool)
    requires |was.waiting| == |was.reader| == |now|
  {
    if NoneWaiting(was.waiting, |now|) then now == was.waiting else exists p :: WokenFrom(was, now, shared, p)
  }

  ghost predicate WokenFrom(was: Flags, now: seq<bool>, shared: bool, p: int)
    requires |was.waiting| == |was.reader| == |now|
  {
    && 0 <= p < |now| && was.waiting[p] && (forall i :: p < i < |now| ==> !was.waiting[i])
    && forall i :: 0 <= i < |now| ==>
       (now[i] <==> was.waiting[i] && i != p && !(shared && was.reader[p] && was.reader[i]))
  }

  /** picotm_lock_manager_wake_up, from the locked first waiter on. It leaves all owners unlocked, with or
      without errors, and wakes nobody who is not waiting. */
  method WakeUpWaiters(first: LockOwner, shared: bool, ghost c: seq<LockOwner>, ghost was: Flags)
    returns (error: bool, ghost now: seq<bool>)
    requires |c| > 0 && c[0] == first && LocksAre(c, {0}, was)
    requires forall i :: 0 <= i < |c| && was.waiting[i] ==> was.reader[i] || was.writer[i]
    modifies c`locked, c`waiting
    ensures LocksAre(c, {}, was.(waiting := now))
    ensures if error then Unreliable(c) else Woken(was, now, shared)
    ensures forall i :: 0 <= i < |c| && now[i] ==> was.waiting[i]
  {
    var picked;
    ghost var p;
    now := was.waiting;
    error, picked, p := PickWaiter(first, LongestWaiting, c, was);
    if error || picked == null {
      UnlockAt(first, c, 0, {0}, was);
      return;
    }
    assert picked.reader || picked.writer;
    var all := shared && picked.reader;
    now := WakePicked(picked, first, c, p, was);
    if all {
      error, now := WakeUpReaders(first, c, was.(waiting := now));
    } else {
      UnlockAt(first, c, 0, {0}, was.(waiting := now));
    }
    assert !error ==> WokenFrom(was, now, shared, p);
  }

  method WakePicked(picked: LockOwner, first: LockOwner, ghost c: seq<LockOwner>, ghost p: nat, ghost was: Flags)
    returns (ghost now: seq<bool>)
    requires |c| > 0 && c[0] == first && p < |c| && picked == c[p] && LocksAre(c, {0, p}, was) && was.waiting[p]
    modifies c`locked, c`waiting
    ensures now == was.waiting[p := false] && LocksAre(c, {0}, was.(waiting := now))
  {
    WakeUpAt(picked, c, p, {0, p}, was);
    now := was.waiting[p := false];
    if picked != first {
      UnlockAt(picked, c, p, {0, p}, was.(waiting := now));
    }
  }

  /** The second walk: always at most two owners are locked. */
  method WakeUpReaders(first: LockOwner, ghost c: seq<LockOwner>, ghost was: Flags)
    returns (error: bool, ghost now: seq<bool>)
    requires |c| > 0 && c[0] == first && LocksAre(c, {0}, was)
    modifies c`locked, c`waiting
    ensures LocksAre(c, {}, was.(waiting := now))
    ensures error ==> Unreliable(c)
    ensures !error ==> forall i :: 0 <= i < |c| ==> (now[i] <==> was.waiting[i] && !was.reader[i])
    ensures forall i :: 0 <= i < |c| && now[i] ==> was.waiting[i]
  {
    error, now := false, was.waiting;
    var waiter: LockOwner? := first;
    ghost var k := 0;
    while waiter != null
      invariant !error && Swept(c, k, was, now) && waiter == if k < |c| then c[k] else null
      decreases |c| - k
    {
      error, waiter, now := SweepNext(waiter, c, k, was, now);
      if error {
        return;
      }
      k := k + 1;
    }
  }

  /** The first k owners that are readers have been woken, and the next one is locked. */
  ghost predicate Swept(c: seq<LockOwner>, k: nat, was: Flags, now: seq<bool>)
    reads c
  {
    && k <= |c| == |now| && Cleared(was, now, k)
    && LocksAre(c, if k < |c| then {k} else {}, was.(waiting := now))
  }

  /** The waiting flags when the first k owners that are readers have been woken. */
  ghost predicate Cleared(was: Flags, now: seq<bool>, k: nat) {
    && k <= |now| == |was.waiting| == |was.reader|
    && forall i :: 0 <= i < |now| ==> (now[i] <==> was.waiting[i] && (i < k ==> !was.reader[i]))
  }

  lemma ClearedNext(was: Flags, now: seq<bool>, after: seq<bool>, k: nat)
    requires k < |now| && Cleared(was, now, k) && after == if was.reader[k] then now[k := false] else now
    ensures Cleared(was, after, k + 1)
  {
  }

  /** One round of the walk. */
  method SweepNext(waiter: LockOwner, ghost c: seq<LockOwner>, ghost k: nat, ghost was: Flags, ghost now: seq<bool>)
    returns (error: bool, next: LockOwner?, ghost after: seq<bool>)
    requires k < |c| && waiter == c[k] && Swept(c, k, was, now)
    modifies c`locked, c`waiting
    ensures Cleared(was, after, k + 1)
    ensures if error then LocksAre(c, {}, was.(waiting := after)) && Unreliable(c)
            else Swept(c, k + 1, was, after) && next == if k + 1 < |c| then c[k + 1] else null
  {
    after := WakeReader(waiter, c, k, was, now);
    ClearedNext(was, now, after, k);
    ghost var f := was.(waiting := after);
    error, next := StepOn(waiter, c, k, f);
  }

  method WakeReader(waiter: LockOwner, ghost c: seq<LockOwner>, ghost k: nat, ghost was: Flags, ghost now: seq<bool>)
    returns (ghost after: seq<bool>)
    requires k < |c| == |now| && waiter == c[k] && LocksAre(c, {k}, was.(waiting := now))
    modifies c`waiting
    ensures LocksAre(c, {k}, was.(waiting := after)) && after == if was.reader[k] then now[k := false] else now
  {
    after := now;
    if waiter.reader && waiter.waiting {
      WakeUpAt(waiter, c, k, {k}, was.(waiting := now));
      after := now[k := false];
    }
  }

  /** Locks the next waiter, if there is one, and unlocks the one before. */
  method StepOn(prec: LockOwner, ghost c: seq<LockOwner>, ghost k: nat, ghost f: Flags)
    returns (error: bool, next: LockOwner?)
    requires LocksAre(c, {k}, f) && k < |c| && prec == c[k]
    modifies c`locked
    ensures error ==> LocksAre(c, {}, f) && Unreliable(c)
    ensures !error ==>
              && next == (if k + 1 < |c| then c[k + 1] else null)
              && LocksAre(c, if k + 1 < |c| then {k + 1} else {}, f)
  {
    error := false;
    next := prec.next;
    assert next == if k + 1 < |c| then c[k + 1] else null;
    ghost var held: set<int> := {k};
    if next != null {
      error := LockAt(next, c, k + 1, held, f);
      held := if error then held else held + {k + 1};
    }
    UnlockAt(prec, c, k, held, f);
  }
}
