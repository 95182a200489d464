/** The linked entries of queues, lists and stacks. Queue and list entries form a doubly linked ring
    (modules/txlib/src/txqueue_entry.c, modules/txlib/src/txlist_entry.c); stack entries form a singly linked
    ring from top to bottom (modules/txlib/src/txstack_entry.c). */
module Rings {
  import opened Common

  lemma InsertedFacts<E>(s: seq<E>, i: nat, e: E)
    requires i <= |s| && Distinct(s) && e !in s
    ensures Distinct(Inserted(s, i, e))
    ensures forall x :: x in Inserted(s, i, e) <==> x in s || x == e
    ensures forall k :: 0 <= k <= |s| ==> Inserted(s, i, e)[k] == if k < i then s[k] else if k == i then e else s[k - 1]
  {
    assert s == s[..i] + s[i..];
  }

  lemma RemovedFacts<E>(s: seq<E>, i: nat)
    requires i < |s| && Distinct(s)
    ensures Distinct(Removed(s, i))
    ensures forall x :: x in Removed(s, i) <==> x in s && x != s[i]
    ensures forall k :: 0 <= k < |s| - 1 ==> Removed(s, i)[k] == if k < i then s[k] else s[k + 1]
  {
    assert s == s[..i] + [s[i]] + s[i + 1..];
  }

  /** The elements between two occurrences of the head. */
  ghost function Around<E>(head: E, s: seq<E>, k: int): E
    requires 0 <= k <= |s| + 1
  {
    if k == 0 || k == |s| + 1 then head else s[k - 1]
  }

  /** Going around once, from the head or to the head, nothing is met twice. */
  lemma AroundOnce<E>(head: E, s: seq<E>, i: nat)
    requires Distinct(s) && head !in s && i <= |s| + 1
    ensures i <= |s| ==> forall k :: 0 <= k <= |s| && k != i ==> Around(head, s, k) != Around(head, s, i)
    ensures 0 < i ==> forall k :: 0 < k <= |s| + 1 && k != i ==> Around(head, s, k) != Around(head, s, i)
  {
  }

  lemma AroundInserted<E>(head: E, s: seq<E>, i: nat, e: E)
    requires i <= |s|
    ensures forall k {:trigger Around(head, Inserted(s, i, e), k)} :: 0 <= k <= |s| + 2 ==>
              Around(head, Inserted(s, i, e), k) ==
              if k <= i then Around(head, s, k) else if k == i + 1 then e else Around(head, s, k - 1)
  {
  }

  lemma AroundRemoved<E>(head: E, s: seq<E>, i: nat)
    requires i < |s|
    ensures forall k {:trigger Around(head, Removed(s, i), k)} :: 0 <= k <= |s| ==>
              Around(head, Removed(s, i), k) == if k <= i then Around(head, s, k) else Around(head, s, k + 1)
  {
  }

  class Entry {
    var next: Entry?
    var prev: Entry?

    constructor ()
      ensures Unlinked()
    {
      next, prev := null, null;
    }

    predicate Unlinked()
      reads this
    {
      next == null && prev == null
    }
  }

  /** A head entry and the ring that starts there. */
  class Ring {
    const head: Entry
    ghost var elems: seq<Entry>

    /** The ring's entries from head to head. */
    ghost function At(k: int): Entry
      requires 0 <= k <= |elems| + 1
      reads this
    {
      Around(head, elems, k)
    }

    ghost function Nodes(): set<Entry>
      reads this
    {
      {head} + set e | e in elems
    }

    /** Following next from the head enumerates the elements and comes back, and prev goes the other way. */
    ghost predicate Valid()
      reads this, head, elems
    {
      && Distinct(elems) && head !in elems
      && (forall k {:trigger Around(head, elems, k).next} :: 0 <= k <= |elems| ==>
           Around(head, elems, k).next == Around(head, elems, k + 1))
      && (forall k {:trigger Around(head, elems, k).prev} :: 0 < k <= |elems| + 1 ==>
           Around(head, elems, k).prev == Around(head, elems, k - 1))
    }

    constructor ()
      ensures Valid() && elems == [] && fresh(head)
    {
      head := new Entry();
      elems := [];
      new;
      head.next, head.prev := head, head;
    }

    /** txqueue_entry_insert and txlist_entry_insert: links an entry before `next`. */
    method Insert(entry: Entry, next: Entry, ghost i: nat)
      requires Valid() && i <= |elems| && next == At(i + 1)
      requires entry.Unlinked() && entry !in Nodes()
      modifies this`elems, Nodes(), entry
      ensures Valid() && elems == Inserted(old(elems), i, entry) && Nodes() == old(Nodes()) + {entry}
    {
      assert At(i + 1).prev == At(i) && At(i).next == At(i + 1);
      var prev := next.prev;
      ghost var was := elems;
      entry.prev := prev;
      entry.next := next;
      prev.next := entry;
      next.prev := entry;
      elems := elems[..i] + [entry] + elems[i..];
      InsertedFacts(was, i, entry);
      AroundInserted(head, was, i, entry);
      AroundOnce(head, was, i);
      AroundOnce(head, was, i + 1);
      forall k | 0 <= k <= |elems| ensures Around(head, elems, k).next == Around(head, elems, k + 1) {
        assert k <= i ==> old(Around(head, was, k).next) == Around(head, was, k + 1);
        assert k > i + 1 ==> old(Around(head, was, k - 1).next) == Around(head, was, k);
      }
      forall k | 0 < k <= |elems| + 1 ensures Around(head, elems, k).prev == Around(head, elems, k - 1) {
        assert k <= i ==> old(Around(head, was, k).prev) == Around(head, was, k - 1);
        assert k > i + 1 ==> old(Around(head, was, k - 1).prev) == Around(head, was, k - 2);
      }
    }

    /** txqueue_entry_erase and txlist_entry_erase: takes an entry out of the ring. */
    method Erase(entry: Entry, ghost i: nat)
      requires Valid() && i < |elems| && entry == elems[i]
      modifies this`elems, Nodes()
      ensures Valid() && elems == Removed(old(elems), i) && entry.Unlinked()
      ensures Nodes() == old(Nodes()) - {entry}
    {
      Bypass(entry, i);
      entry.next := null;
      entry.prev := null;
    }

    /** Links the neighbours of an entry with each other. */
    method Bypass(entry: Entry, ghost i: nat)
      requires Valid() && i < |elems| && entry == elems[i]
      modifies this`elems, Nodes()
      ensures Valid() && elems == Removed(old(elems), i) && entry !in Nodes()
      ensures Nodes() == old(Nodes()) - {entry}
    {
      assert At(i + 1) == entry;
      assert At(i).next == entry && At(i + 1).prev == At(i);
      assert At(i + 1).next == At(i + 2) && At(i + 2).prev == At(i + 1);
      var next, prev := entry.next, entry.prev;
      ghost var was := elems;
      next.prev := prev;
      prev.next := next;
      elems := elems[..i] + elems[i + 1..];
      RemovedFacts(was, i);
      AroundRemoved(head, was, i);
      AroundOnce(head, was, i);
      AroundOnce(head, was, i + 2);
      forall k | 0 <= k <= |elems| ensures Around(head, elems, k).next == Around(head, elems, k + 1) {
        assert k < i ==> old(Around(head, was, k).next) == Around(head, was, k + 1);
        assert k > i ==> old(Around(head, was, k + 1).next) == Around(head, was, k + 2);
      }
      forall k | 0 < k <= |elems| + 1 ensures Around(head, elems, k).prev == Around(head, elems, k - 1) {
        assert k <= i ==> old(Around(head, was, k).prev) == Around(head, was, k - 1);
        assert k > i + 1 ==> old(Around(head, was, k + 1).prev) == Around(head, was, k);
      }
    }

    method IsEmpty() returns (empty: bool)
      requires Valid()
      ensures empty <==> elems == []
    {
      assert At(0).next == At(1);
      empty := head.next == head;
    }

    method Front() returns (entry: Entry)
      requires Valid()
      ensures entry == if elems == [] then head else elems[0]
    {
      assert At(0).next == At(1);
      entry := head.next;
    }

    method Back() returns (entry: Entry)
      requires Valid()
      ensures entry == if elems == [] then head else elems[|elems| - 1]
    {
      assert At(|elems| + 1).prev == At(|elems|);
      entry := head.prev;
    }

    /** txqueue_entry_distance and txlist_entry_distance from the first entry to the head. */
    method Size() returns (n: nat)
      requires Valid()
      ensures n == |elems|
    {
      assert At(0).next == At(1);
      var entry := head.next;
      n := 0;
      while entry != head
        invariant n <= |elems| && entry == At(n + 1)
        decreases |elems| - n
      {
        assert entry.next == At(n + 2);
        entry := entry.next;
        n := n + 1;
      }
    }
  }

  class StackEntry {
    var prev: StackEntry?

    constructor ()
      ensures prev == null
    {
      prev := null;
    }
  }

  /** A head entry and the ring that leads from it through the elements, top first, and back. */
  class Pile {
    const head: StackEntry
    ghost var elems: seq<StackEntry>

    /** The head below the bottom element, the elements, and the head above the top element. */
    ghost function At(k: int): StackEntry
      requires 0 <= k <= |elems| + 1
      reads this
    {
      Around(head, elems, k)
    }

    ghost function Nodes(): set<StackEntry>
      reads this
    {
      {head} + set e | e in elems
    }

    ghost predicate Valid()
      reads this, head, elems
    {
      && Distinct(elems) && head !in elems
      && forall k {:trigger Around(head, elems, k).prev} :: 0 < k <= |elems| + 1 ==>
           Around(head, elems, k).prev == Around(head, elems, k - 1)
    }

    constructor ()
      ensures Valid() && elems == [] && fresh(head)
    {
      head := new StackEntry();
      elems := [];
      new;
      head.prev := head;
    }

    /** txstack_entry_insert: puts an entry below `next`. */
    method Insert(entry: StackEntry, next: StackEntry, ghost i: nat)
      requires Valid() && i <= |elems| && next == At(i + 1)
      requires entry.prev == null && entry !in Nodes()
      modifies this`elems, Nodes(), entry
      ensures Valid() && elems == Inserted(old(elems), i, entry) && Nodes() == old(Nodes()) + {entry}
    {
      assert At(i + 1).prev == At(i);
      var prev := next.prev;
      ghost var was := elems;
      next.prev := entry;
      entry.prev := prev;
      elems := elems[..i] + [entry] + elems[i..];
      InsertedFacts(was, i, entry);
      AroundInserted(head, was, i, entry);
    }

    /** txstack_entry_erase: takes out an entry, given the one above it. */
    method Erase(entry: StackEntry, next: StackEntry, ghost i: nat)
      requires Valid() && i < |elems| && entry == elems[i] && next == At(i + 2)
      modifies this`elems, Nodes()
      ensures Valid() && elems == Removed(old(elems), i) && entry.prev == null
      ensures Nodes() == old(Nodes()) - {entry}
    {
      assert At(i + 1) == entry && At(i + 1).prev == At(i) && At(i + 2).prev == At(i + 1);
      var prev := entry.prev;
      ghost var was := elems;
      next.prev := prev;
      entry.prev := null;
      elems := elems[..i] + elems[i + 1..];
      RemovedFacts(was, i);
      AroundRemoved(head, was, i);
    }

    method IsEmpty() returns (empty: bool)
      requires Valid()
      ensures empty <==> elems == []
    {
      assert At(|elems| + 1).prev == At(|elems|);
      empty := head.prev == head;
    }

    method Top() returns (entry: StackEntry)
      requires Valid()
      ensures entry == if elems == [] then head else elems[|elems| - 1]
    {
      assert At(|elems| + 1).prev == At(|elems|);
      entry := head.prev;
    }

    /** local_next_of: the entry above, found by walking down from the top. */
    method NextOf(entry: StackEntry, ghost i: nat) returns (next: StackEntry)
      requires Valid() && i < |elems| && entry == elems[i]
      ensures next == At(i + 2)
    {
      next := head;
      assert At(|elems| + 1).prev == At(|elems|);
      var pos := head.prev;
      ghost var k := |elems|;
      while pos != entry
        invariant i < k <= |elems| && pos == At(k) && next == At(k + 1)
        decreases k
      {
        assert pos.prev == At(k - 1);
        next := pos;
        pos := pos.prev;
        k := k - 1;
      }
      assert k == i + 1;
    }

    /** txstack_entry_distance from the top to the head. */
    method Size() returns (n: nat)
      requires Valid()
      ensures n == |elems|
    {
      assert At(|elems| + 1).prev == At(|elems|);
      var entry := head.prev;
      n := 0;
      while entry != head
        invariant n <= |elems| && entry == At(|elems| - n)
        decreases |elems| - n
      {
        assert entry.prev == At(|elems| - n - 1);
        entry := entry.prev;
        n := n + 1;
      }
    }
  }
}
