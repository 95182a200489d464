/** The transactional queue, stack and list of one transaction over their linked entries
    (modules/txlib/src/txqueue_tx.c, txstack_tx.c, txlist_tx.c). Each method does to the entries what the
    functions of TxLib do to sequences, and touches shared entries under the writer lock only. A lock attempt
    may be refused at any time. */
module TxStructures {
  import opened Common
  import opened Rings
  import TxLib

  /** What a lock attempt does to a transaction's lock state: a granted one gives the lock, or keeps a stronger one,
      a refused one changes nothing, and a lock that is held already is never refused. */
  predicate Tried(before: LockStatus, after: LockStatus, write: bool, granted: bool) {
    && after == (if !granted then before
                 else if write then WrLocked
                 else if before == Unlocked then RdLocked else before)
    && ((if write then before == WrLocked else before != Unlocked) ==> granted)
  }

  /** As above, if it takes the lock at all. */
  predicate TriedIf(needed: bool, before: LockStatus, after: LockStatus, write: bool, granted: bool) {
    if needed then Tried(before, after, write, granted) else granted && after == before
  }

  /** The lock state of one transaction for a structure. */
  class LockState {
    var status: LockStatus

    constructor ()
      ensures status == Unlocked
    {
      status := Unlocked;
    }

    /** picotm_rwstate_try_rdlock and picotm_rwstate_try_wrlock. */
    method TryLock(write: bool) returns (granted: bool)
      modifies this
      ensures Tried(old(status), status, write, granted)
    {
      var refused: bool := *;
      if write && status != WrLocked {
        status := if refused then status else WrLocked;
        granted := !refused;
      } else if status == Unlocked {
        status := if refused then status else RdLocked;
        granted := !refused;
      } else {
        granted := true;
      }
    }
  }

  lemma {:induction false} ErasedIsRemoved<E>(s: seq<E>, i: nat)
    requires Distinct(s) && i < |s|
    ensures TxLib.Erased(s, s[i]) == Removed(s, i)
  {
    if i > 0 {
      ErasedIsRemoved(s[1..], i - 1);
      assert s[..i] == [s[0]] + s[1..][..i - 1];
    }
  }

  /** Inserting at a position, and before the entry that is there, is the same. */
  lemma InsertedIsBefore<E>(head: E, s: seq<E>, i: nat, e: E)
    requires Distinct(s) && head !in s && i <= |s|
    ensures TxLib.InsertedBefore(s, e, Around(head, s, i + 1)) == Common.Inserted(s, i, e)
  {
    if i < |s| {
      TxLib.IndexIs(s, s[i], i);
    }
  }

  lemma NextIsAround<E>(head: E, s: seq<E>, i: nat)
    requires Distinct(s) && i < |s|
    ensures TxLib.NextOf(s, s[i], head) == Around(head, s, i + 2)
  {
    TxLib.IndexIs(s, s[i], i);
  }

  class TxQueue {
    const local: Ring
    const shared: Ring
    const lock: LockState

    ghost predicate Valid()
      reads this, local, shared, local.head, shared.head, local.elems, shared.elems
    {
      local != shared && local.Valid() && shared.Valid() && local.Nodes() !! shared.Nodes()
    }

    ghost function Contents(): TxLib.Split<Entry>
      reads local, shared
    {
      TxLib.Split(shared.elems, local.elems)
    }

    constructor (shared: Ring)
      requires shared.Valid()
      ensures Valid() && this.shared == shared && Contents() == TxLib.Split(shared.elems, []) && lock.status == Unlocked
      ensures fresh(local) && fresh(local.head) && fresh(lock)
    {
      this.shared := shared;
      local := new Ring();
      lock := new LockState();
    }

    /** txqueue_tx_exec_push: the entry goes to the end of the local queue; no lock is needed. */
    method ExecPush(entry: Entry)
      requires Valid() && entry.Unlinked() && entry !in local.Nodes() + shared.Nodes()
      modifies local`elems, local.Nodes(), entry
      ensures Valid() && Contents() == TxLib.Push(old(Contents()), entry)
    {
      local.Insert(entry, local.head, |local.elems|);
    }

    /** txqueue_tx_exec_pop. The caller has to make sure that there is an entry. */
    method ExecPop() returns (granted: bool, entry: Entry, useLocal: bool)
      requires Valid() && TxLib.HasEntries(Contents())
      modifies lock, local`elems, shared`elems, local.Nodes(), shared.Nodes()
      ensures if old(shared.elems) == [] then Tried(old(lock.status), lock.status, false, granted)
              else (granted <==> lock.status == WrLocked) && (old(lock.status) != Unlocked ==> lock.status != Unlocked)
      ensures old(lock.status) == WrLocked ==> granted
      ensures Valid() && Contents() == if granted then TxLib.QueuePop(old(Contents())) else old(Contents())
      ensures granted ==>
                entry == TxLib.QueueFront(old(Contents())) && useLocal == TxLib.QueuePopsLocal(old(Contents()))
      ensures granted ==> entry.Unlinked() && entry !in local.Nodes() + shared.Nodes()
    {
      entry, useLocal := local.head, false;
      granted := lock.TryLock(false);
      if granted {
        useLocal := shared.IsEmpty();
        if useLocal {
          entry := local.Front();
          local.Erase(entry, 0);
        } else {
          granted := lock.TryLock(true);
          if granted {
            entry := shared.Front();
            shared.Erase(entry, 0);
          }
        }
      }
    }

    /** txqueue_tx_apply_push: moves the entry to the shared queue if it is the next local one. */
    method ApplyPush(entry: Entry)
      requires Valid() && entry !in {local.head, shared.head} && (local.elems != [] ==> lock.status == WrLocked)
      modifies local`elems, shared`elems, local.Nodes(), shared.Nodes()
      ensures Valid() && Contents() == TxLib.ApplyPush(old(Contents()), entry)
    {
      var front := local.Front();
      if entry == front {
        local.Erase(entry, 0);
        shared.Insert(entry, shared.head, |shared.elems|);
      }
    }

    /** txqueue_tx_undo_push: takes the entry out of the local queue, wherever it is there. */
    method UndoPush(entry: Entry)
      requires Valid() && entry in local.elems
      modifies local`elems, local.Nodes()
      ensures Valid() && Contents() == TxLib.UndoPush(old(Contents()), entry) && entry.Unlinked()
    {
      ghost var i :| 0 <= i < |local.elems| && local.elems[i] == entry;
      ErasedIsRemoved(local.elems, i);
      local.Erase(entry, i);
    }

    /** txqueue_tx_undo_pop: puts the entry back in front. */
    method UndoPop(entry: Entry, useLocal: bool)
      requires Valid() && entry.Unlinked() && entry !in local.Nodes() + shared.Nodes()
      requires useLocal || lock.status == WrLocked
      modifies local`elems, shared`elems, local.Nodes(), shared.Nodes(), entry
      ensures Valid() && Contents() == TxLib.UndoQueuePop(old(Contents()), entry, useLocal)
    {
      if useLocal {
        var next := local.Front();
        local.Insert(entry, next, 0);
      } else {
        var next := shared.Front();
        shared.Insert(entry, next, 0);
      }
    }

    /** txqueue_tx_exec_front: what a pop would return, or the local head if there is nothing. */
    method ExecFront() returns (granted: bool, entry: Entry)
      requires Valid()
      modifies lock
      ensures Tried(old(lock.status), lock.status, false, granted)
      ensures granted ==> entry == if TxLib.HasEntries(Contents()) then TxLib.QueueFront(Contents()) else local.head
    {
      entry := local.head;
      granted := lock.TryLock(false);
      if granted {
        var empty := shared.IsEmpty();
        if empty {
          entry := local.Front();
        } else {
          entry := shared.Front();
        }
      }
    }

    /** txqueue_tx_exec_back: the last entry of the shared and local entries together. */
    method ExecBack() returns (granted: bool, entry: Entry)
      requires Valid()
      modifies lock
      ensures TriedIf(local.elems == [], old(lock.status), lock.status, false, granted)
      ensures var all := shared.elems + local.elems;
              granted ==> entry == if all == [] then shared.head else all[|all| - 1]
    {
      granted := true;
      var empty := local.IsEmpty();
      if !empty {
        entry := local.Back();
      } else {
        granted := lock.TryLock(false);
        entry := shared.Back();
      }
    }

    /** txqueue_tx_exec_size and txqueue_tx_exec_empty. */
    method ExecSize() returns (granted: bool, size: nat)
      requires Valid()
      modifies lock
      ensures Tried(old(lock.status), lock.status, false, granted)
      ensures granted ==> size == |shared.elems + local.elems|
    {
      var localSize := local.Size();
      var sharedSize := shared.Size();
      granted := lock.TryLock(false);
      size := if granted then localSize + sharedSize else 0;
    }

    method ExecEmpty() returns (granted: bool, empty: bool)
      requires Valid()
      modifies lock
      ensures TriedIf(local.elems == [], old(lock.status), lock.status, false, granted)
      ensures granted ==> (empty <==> !TxLib.HasEntries(Contents()))
    {
      granted := true;
      empty := local.IsEmpty();
      if empty {
        granted := lock.TryLock(false);
        if granted {
          empty := shared.IsEmpty();
        } else {
          empty := false;
        }
      }
    }

    /** txqueue_tx_lock, called when the commit is prepared. */
    method Lock() returns (granted: bool)
      requires Valid()
      modifies lock
      ensures TriedIf(local.elems != [], old(lock.status), lock.status, true, granted)
    {
      granted := true;
      var empty := local.IsEmpty();
      if !empty {
        granted := lock.TryLock(true);
      }
    }
  }

  class TxStack {
    const local: Pile
    const shared: Pile
    const lock: LockState

    ghost predicate Valid()
      reads this, local, shared, local.head, shared.head, local.elems, shared.elems
    {
      local != shared && local.Valid() && shared.Valid() && local.Nodes() !! shared.Nodes()
    }

    /** Bottom elements first. */
    ghost function Contents(): TxLib.Split<StackEntry>
      reads local, shared
    {
      TxLib.Split(shared.elems, local.elems)
    }

    constructor (shared: Pile)
      requires shared.Valid()
      ensures Valid() && this.shared == shared && Contents() == TxLib.Split(shared.elems, []) && lock.status == Unlocked
      ensures fresh(local) && fresh(local.head) && fresh(lock)
    {
      this.shared := shared;
      local := new Pile();
      lock := new LockState();
    }

    /** txstack_tx_exec_push: the entry goes on top of the local stack; no lock is needed. */
    method ExecPush(entry: StackEntry)
      requires Valid() && entry.prev == null && entry !in local.Nodes() + shared.Nodes()
      modifies local`elems, local.Nodes(), entry
      ensures Valid() && Contents() == TxLib.Push(old(Contents()), entry)
    {
      local.Insert(entry, local.head, |local.elems|);
    }

    /** txstack_tx_exec_pop. The caller has to make sure that there is an entry. */
    method ExecPop() returns (granted: bool, entry: StackEntry, useLocal: bool)
      requires Valid() && TxLib.HasEntries(Contents())
      modifies lock, local`elems, shared`elems, local.Nodes(), shared.Nodes()
      ensures TriedIf(old(local.elems) == [], old(lock.status), lock.status, true, granted)
      ensures Valid() && Contents() == if granted then TxLib.StackPop(old(Contents())) else old(Contents())
      ensures granted ==> entry == TxLib.StackTop(old(Contents())) && useLocal == TxLib.StackPopsLocal(old(Contents()))
      ensures granted ==> entry.prev == null && entry !in local.Nodes() + shared.Nodes()
    {
      entry := local.head;
      granted := true;
      var empty := local.IsEmpty();
      useLocal := !empty;
      if useLocal {
        entry := local.Top();
        local.Erase(entry, local.head, |local.elems| - 1);
      } else {
        granted := lock.TryLock(true);
        if granted {
          entry := shared.Top();
          shared.Erase(entry, shared.head, |shared.elems| - 1);
        }
      }
    }

    /** txstack_tx_apply_push: moves the entry to the shared stack if it is the bottom local one. The test
        looks at the entry itself, which is in no stack, or in this transaction's local one, or in any other. */
    method ApplyPush(entry: StackEntry)
      requires Valid() && entry !in {local.head, shared.head} && (local.elems != [] ==> lock.status == WrLocked)
      requires entry in local.elems || entry.prev != local.head
      modifies local`elems, shared`elems, local.Nodes(), shared.Nodes()
      ensures Valid() && Contents() == TxLib.ApplyPush(old(Contents()), entry)
    {
      if entry.prev == local.head {
        BottomOfLocal(entry);
        var next := local.NextOf(entry, 0);
        local.Erase(entry, next, 0);
        shared.Insert(entry, shared.head, |shared.elems|);
      } else if local.elems != [] {
        assert Around(local.head, local.elems, 1).prev == Around(local.head, local.elems, 0);
      }
    }

    /** Only the bottom entry has the head below it. */
    lemma BottomOfLocal(entry: StackEntry)
      requires Valid() && entry in local.elems && entry.prev == local.head
      ensures entry == local.elems[0]
    {
      var i :| 0 <= i < |local.elems| && local.elems[i] == entry;
      assert Around(local.head, local.elems, i + 1).prev == Around(local.head, local.elems, i);
    }

    /** txstack_tx_undo_push. By StackUndoFindsTop of TxLib, a backward walk finds the entry at the top, as the
        source asserts. */
    method UndoPush(entry: StackEntry)
      requires Valid() && local.elems != [] && entry == local.elems[|local.elems| - 1]
      modifies local`elems, local.Nodes()
      ensures Valid() && Contents() == TxLib.UndoPush(old(Contents()), entry) && entry.prev == null
    {
      ErasedIsRemoved(local.elems, |local.elems| - 1);
      local.Erase(entry, local.head, |local.elems| - 1);
    }

    /** txstack_tx_undo_pop: puts the entry back on top. */
    method UndoPop(entry: StackEntry, useLocal: bool)
      requires Valid() && entry.prev == null && entry !in local.Nodes() + shared.Nodes()
      requires useLocal || lock.status == WrLocked
      modifies local`elems, shared`elems, local.Nodes(), shared.Nodes(), entry
      ensures Valid() && Contents() == TxLib.UndoStackPop(old(Contents()), entry, useLocal)
    {
      if useLocal {
        local.Insert(entry, local.head, |local.elems|);
      } else {
        shared.Insert(entry, shared.head, |shared.elems|);
      }
    }

    /** txstack_tx_exec_top: what a pop would return, or the shared head if there is nothing. */
    method ExecTop() returns (granted: bool, entry: StackEntry)
      requires Valid()
      modifies lock
      ensures TriedIf(local.elems == [], old(lock.status), lock.status, false, granted)
      ensures granted ==> entry == if TxLib.HasEntries(Contents()) then TxLib.StackTop(Contents()) else shared.head
    {
      granted := true;
      var empty := local.IsEmpty();
      if !empty {
        entry := local.Top();
      } else {
        granted := lock.TryLock(false);
        entry := shared.Top();
      }
    }

    /** txstack_tx_exec_size. */
    method ExecSize() returns (granted: bool, size: nat)
      requires Valid()
      modifies lock
      ensures Tried(old(lock.status), lock.status, false, granted)
      ensures granted ==> size == |shared.elems + local.elems|
    {
      var localSize := local.Size();
      var sharedSize := shared.Size();
      granted := lock.TryLock(false);
      size := if granted then localSize + sharedSize else 0;
    }

    /** txstack_tx_lock, called when the commit is prepared. */
    method Lock() returns (granted: bool)
      requires Valid()
      modifies lock
      ensures TriedIf(local.elems != [], old(lock.status), lock.status, true, granted)
    {
      granted := true;
      var empty := local.IsEmpty();
      if !empty {
        granted := lock.TryLock(true);
      }
    }
  }

  /** The event that an operation on a list leaves behind. */
  datatype ListEvent = Inserted(entry: Entry) | Erased(entry: Entry, position: Entry)

  class TxList {
    const ring: Ring
    const lock: LockState

    ghost predicate Valid()
      reads this, ring, ring.head, ring.elems
    {
      ring.Valid()
    }

    /** All entries may change, and the list itself. */
    ghost function Elems(): seq<Entry>
      reads ring
    {
      ring.elems
    }

    constructor (ring: Ring)
      requires ring.Valid()
      ensures Valid() && this.ring == ring && Elems() == ring.elems && lock.status == Unlocked && fresh(lock)
    {
      this.ring := ring;
      lock := new LockState();
    }

    /** txlist_tx_exec_insert; `position` is an entry of the list or its head. */
    method ExecInsert(entry: Entry, position: Entry) returns (granted: bool, event: ListEvent)
      requires Valid() && entry.Unlinked() && entry !in ring.Nodes() && position in ring.Nodes()
      modifies lock, ring`elems, ring.Nodes(), entry
      ensures Tried(old(lock.status), lock.status, true, granted)
      ensures Valid()
      ensures Elems() == if granted then TxLib.InsertedBefore(old(Elems()), entry, position) else old(Elems())
      ensures event == ListEvent.Inserted(entry)
    {
      event := ListEvent.Inserted(entry);
      granted := lock.TryLock(true);
      if granted {
        Link(entry, position);
      }
    }

    /** Links an entry before another one or at the end. */
    method Link(entry: Entry, position: Entry)
      requires Valid() && entry.Unlinked() && entry !in ring.Nodes() && position in ring.Nodes()
      modifies ring`elems, ring.Nodes(), entry
      ensures Valid() && Elems() == TxLib.InsertedBefore(old(Elems()), entry, position)
      ensures ring.Nodes() == old(ring.Nodes()) + {entry}
    {
      ghost var i := TxLib.IndexOf(Elems(), position);
      InsertedIsBefore(ring.head, Elems(), i, entry);
      ring.Insert(entry, position, i);
    }

    /** exec_list_erase: the event remembers the entry that followed. */
    method Erase(entry: Entry) returns (event: ListEvent)
      requires Valid() && entry in Elems() && lock.status == WrLocked
      modifies ring`elems, ring.Nodes()
      ensures Valid() && Elems() == TxLib.Erased(old(Elems()), entry) && entry.Unlinked()
      ensures event == ListEvent.Erased(entry, TxLib.NextOf(old(Elems()), entry, ring.head))
      ensures ring.Nodes() == old(ring.Nodes()) - {entry}
    {
      ghost var i :| 0 <= i < |Elems()| && Elems()[i] == entry;
      ErasedIsRemoved(Elems(), i);
      NextIsAround(ring.head, Elems(), i);
      assert Around(ring.head, ring.elems, i + 1).next == Around(ring.head, ring.elems, i + 2);
      event := ListEvent.Erased(entry, entry.next);
      ring.Erase(entry, i);
    }

    /** txlist_tx_exec_erase. */
    method ExecErase(entry: Entry) returns (granted: bool, event: ListEvent)
      requires Valid() && entry in Elems()
      modifies lock, ring`elems, ring.Nodes()
      ensures Tried(old(lock.status), lock.status, true, granted)
      ensures granted ==> entry.Unlinked()
      ensures granted ==> event == ListEvent.Erased(entry, TxLib.NextOf(old(Elems()), entry, ring.head))
      ensures Valid() && Elems() == if granted then TxLib.Erased(old(Elems()), entry) else old(Elems())
    {
      event := ListEvent.Erased(entry, ring.head);
      granted := lock.TryLock(true);
      if granted {
        event := Erase(entry);
      }
    }

    /** txlist_tx_exec_clear: erases the first entry as often as there are entries; the events undo that in
        reverse. */
    method ExecClear() returns (granted: bool, events: seq<ListEvent>)
      requires Valid()
      modifies lock, ring`elems, ring.Nodes()
      ensures Valid() && Elems() == if granted then [] else old(Elems())
      ensures Tried(old(lock.status), lock.status, true, granted)
      ensures granted ==> |events| == |old(Elems())|
      ensures granted ==> forall k :: 0 <= k < |events| ==>
                events[k] == ListEvent.Erased(old(Elems())[k], old(ring.At(k + 2)))
    {
      events := [];
      granted := lock.TryLock(true);
      if granted {
        var size := ring.Size();
        ghost var all := Elems();
        while |events| < size
          invariant size == |all| && |events| <= size
          invariant Valid() && Elems() == all[|events|..] && ring.Nodes() <= old(ring.Nodes())
          invariant lock.status == WrLocked && Tried(old(lock.status), lock.status, true, true)
          invariant forall k :: 0 <= k < |events| ==>
                      events[k] == ListEvent.Erased(all[k], Around(ring.head, all, k + 2))
        {
          NextIsAround(ring.head, Elems(), 0);
          var first := ring.Front();
          var event := Erase(first);
          events := events + [event];
        }
      }
    }

    /** txlist_tx_undo_insert and txlist_tx_undo_erase. By EraseUndoesInsert and InsertUndoesErase of TxLib, undoing the
        last event puts the list back. */
    method Undo(event: ListEvent)
      requires Valid() && lock.status == WrLocked
      requires match event
               case Inserted(entry) => entry in Elems()
               case Erased(entry, position) =>
                 entry.Unlinked() && entry !in ring.Nodes() && position in ring.Nodes()
      modifies ring`elems, ring.Nodes(), event.entry
      ensures Valid()
      ensures match event
              case Inserted(entry) => Elems() == TxLib.Erased(old(Elems()), entry) && entry.Unlinked()
              case Erased(entry, position) => Elems() == TxLib.InsertedBefore(old(Elems()), entry, position)
    {
      match event
      case Inserted(entry) =>
        var undone := Erase(entry);
      case Erased(entry, position) =>
        Link(entry, position);
    }
  }
}
