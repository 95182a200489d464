/** The parent-linked binary search tree behind the transactional multiset (modules/txlib/src/txmultiset_entry.c).
    - It hangs on the lt link of a head entry, which is its own parent.
    - A tree value says what the links are supposed to spell, and the path from the root to a place what a change
      there leaves alone. */
module Multiset {
  import opened Common
  import TxLib

  class Entry {
    const key: int
    var lt: Entry?
    var ge: Entry?
    var parent: Entry?

    constructor (key: int)
      ensures this.key == key && Unlinked()
    {
      this.key := key;
      lt, ge, parent := null, null, null;
    }

    predicate Unlinked()
      reads this
    {
      lt == null && ge == null && parent == null
    }
  }

  // ---------------------------------------------------------------------------------------------
  // Trees, and trees with a hole
  // ---------------------------------------------------------------------------------------------

  datatype Tree = Leaf | Node(lt: Tree, entry: Entry, ge: Tree)

  /** The way from the root down to a subtree, with what hangs to the left and right of it. */
  datatype Path = Root | InLt(up: Path, entry: Entry, ge: Tree) | InGe(lt: Tree, entry: Entry, up: Path)

  ghost function InOrder(t: Tree): seq<Entry> {
    match t
    case Leaf => []
    case Node(lt, x, ge) => InOrder(lt) + [x] + InOrder(ge)
  }

  ghost function Nodes(t: Tree): set<Entry> {
    match t
    case Leaf => {}
    case Node(lt, x, ge) => Nodes(lt) + {x} + Nodes(ge)
  }

  ghost function Plug(p: Path, t: Tree): Tree {
    match p
    case Root => t
    case InLt(up, x, ge) => Plug(up, Node(t, x, ge))
    case InGe(lt, x, up) => Plug(up, Node(lt, x, t))
  }

  ghost function Before(p: Path): seq<Entry> {
    match p
    case Root => []
    case InLt(up, _, _) => Before(up)
    case InGe(lt, x, up) => Before(up) + InOrder(lt) + [x]
  }

  ghost function After(p: Path): seq<Entry> {
    match p
    case Root => []
    case InLt(up, x, ge) => [x] + InOrder(ge) + After(up)
    case InGe(_, _, up) => After(up)
  }

  ghost function PathNodes(p: Path): set<Entry> {
    match p
    case Root => {}
    case InLt(up, x, ge) => PathNodes(up) + {x} + Nodes(ge)
    case InGe(lt, x, up) => Nodes(lt) + {x} + PathNodes(up)
  }

  lemma Regroup(a: seq<Entry>, b: seq<Entry>, c: seq<Entry>, d: seq<Entry>, e: seq<Entry>)
    ensures a + (b + c + d) + e == a + b + (c + d + e) == (a + b + c) + d + e
  {
  }

  lemma {:induction false} PlugInOrder(p: Path, t: Tree)
    ensures InOrder(Plug(p, t)) == Before(p) + InOrder(t) + After(p)
  {
    match p
    case Root =>
    case InLt(up, x, ge) =>
      PlugInOrder(up, Node(t, x, ge));
      Regroup(Before(up), InOrder(t), [x], InOrder(ge), After(up));
    case InGe(lt, x, up) =>
      PlugInOrder(up, Node(lt, x, t));
      Regroup(Before(up), InOrder(lt), [x], InOrder(t), After(up));
  }

  /** The root entry of the trees that a path leads into. */
  ghost function Top(p: Path): Entry
    requires !p.Root?
  {
    if p.up.Root? then p.entry else Top(p.up)
  }

  lemma {:induction false} PlugTop(p: Path, t: Tree)
    requires !p.Root?
    ensures Plug(p, t).Node? && Plug(p, t).entry == Top(p)
  {
    match p
    case InLt(up, x, ge) =>
      if !up.Root? {
        PlugTop(up, Node(t, x, ge));
      }
    case InGe(lt, x, up) =>
      if !up.Root? {
        PlugTop(up, Node(lt, x, t));
      }
  }

  lemma StepDown(t: Tree, after: seq<Entry>)
    requires t.Node?
    ensures InOrder(t.lt) + ([t.entry] + InOrder(t.ge) + after) == InOrder(t) + after
    ensures t.lt.Node? ==> InOrder(t.lt) != [] && InOrder(t)[0] == InOrder(t.lt)[0]
  {
  }

  /** No entry stands in two places. */
  ghost predicate Apart(t: Tree) {
    match t
    case Leaf => true
    case Node(lt, x, ge) => Apart(lt) && Apart(ge) && x !in Nodes(lt) && x !in Nodes(ge) && Nodes(lt) !! Nodes(ge)
  }

  ghost predicate PathApart(p: Path) {
    match p
    case Root => true
    case InLt(up, x, ge) =>
      PathApart(up) && Apart(ge) && x !in PathNodes(up) && x !in Nodes(ge) && PathNodes(up) !! Nodes(ge)
    case InGe(lt, x, up) =>
      PathApart(up) && Apart(lt) && x !in PathNodes(up) && x !in Nodes(lt) && PathNodes(up) !! Nodes(lt)
  }

  lemma {:induction false} PlugNodes(p: Path, t: Tree)
    ensures Nodes(Plug(p, t)) == PathNodes(p) + Nodes(t)
    ensures Apart(Plug(p, t)) <==> PathApart(p) && Apart(t) && PathNodes(p) !! Nodes(t)
  {
    match p
    case Root =>
    case InLt(up, x, ge) => PlugNodes(up, Node(t, x, ge));
    case InGe(lt, x, up) => PlugNodes(up, Node(lt, x, t));
  }

  // ---------------------------------------------------------------------------------------------
  // Links
  // ---------------------------------------------------------------------------------------------

  /** The links from `e` downwards spell the tree, and parent links lead back. */
  ghost predicate Linked(t: Tree, e: Entry?, parent: Entry)
    reads Nodes(t)
  {
    match t
    case Leaf => e == null
    case Node(lt, x, ge) => e == x && x.parent == parent && Linked(lt, x.lt, x) && Linked(ge, x.ge, x)
  }

  ghost function Owner(p: Path, head: Entry): Entry {
    if p.Root? then head else p.entry
  }

  /** The link in which the path ends. */
  ghost function Hole(p: Path, head: Entry): Entry?
    reads head, PathNodes(p)
  {
    match p
    case Root => head.lt
    case InLt(_, x, _) => x.lt
    case InGe(_, x, _) => x.ge
  }

  /** Everything around the hole is linked as the path says. */
  ghost predicate PathLinked(p: Path, head: Entry)
    reads head, PathNodes(p)
  {
    match p
    case Root => true
    case InLt(up, x, ge) =>
      Linked(ge, x.ge, x) && x.parent == Owner(up, head) && Hole(up, head) == x && PathLinked(up, head)
    case InGe(lt, x, up) =>
      Linked(lt, x.lt, x) && x.parent == Owner(up, head) && Hole(up, head) == x && PathLinked(up, head)
  }

  lemma {:induction false} PlugLinked(p: Path, t: Tree, head: Entry)
    ensures Linked(Plug(p, t), head.lt, head) <==> PathLinked(p, head) && Linked(t, Hole(p, head), Owner(p, head))
  {
    match p
    case Root =>
    case InLt(up, x, ge) => PlugLinked(up, Node(t, x, ge), head);
    case InGe(lt, x, up) => PlugLinked(up, Node(lt, x, t), head);
  }

  /** Where an entry of the tree stands. */
  lemma {:induction false} PathTo(p: Path, t: Tree, e: Entry) returns (path: Path, lt: Tree, ge: Tree)
    requires e in Nodes(t)
    ensures Plug(path, Node(lt, e, ge)) == Plug(p, t)
    decreases t
  {
    if t.entry == e {
      path, lt, ge := p, t.lt, t.ge;
    } else if e in Nodes(t.lt) {
      path, lt, ge := PathTo(InLt(p, t.entry, t.ge), t.lt, e);
    } else {
      path, lt, ge := PathTo(InGe(t.lt, t.entry, p), t.ge, e);
    }
  }

  // ---------------------------------------------------------------------------------------------
  // The multiset
  // ---------------------------------------------------------------------------------------------

  ghost predicate Ordered(s: seq<Entry>) {
    forall i, j :: 0 <= i < j < |s| ==> s[i].key <= s[j].key
  }

  ghost predicate AllLe(s: seq<Entry>, key: int) {
    forall i :: 0 <= i < |s| ==> s[i].key <= key
  }

  ghost predicate AllGe(s: seq<Entry>, key: int) {
    forall i :: 0 <= i < |s| ==> key <= s[i].key
  }

  lemma InsertedBetween(a: seq<Entry>, b: seq<Entry>, s: seq<Entry>, e: Entry)
    requires s == a + b
    ensures Inserted(s, |a|, e) == a + [e] + b
  {
  }

  /** A place between smaller and larger entries. */
  lemma PutBetween(a: seq<Entry>, e: Entry, b: seq<Entry>)
    requires Ordered(a + b) && AllLe(a, e.key) && AllGe(b, e.key)
    ensures Ordered(a + [e] + b)
  {
    var s, t := a + b, a + [e] + b;
    forall i, j | 0 <= i < j < |t| ensures t[i].key <= t[j].key {
      assert t[i] == if i < |a| then s[i] else if i == |a| then e else s[i - 1];
      assert t[j] == if j < |a| then s[j] else if j == |a| then e else s[j - 1];
    }
  }

  /** A search that turns left at x leaves x and what follows behind it on the right. */
  lemma TurnLeft(a: seq<Entry>, b: seq<Entry>, x: Entry, c: seq<Entry>, d: seq<Entry>, key: int)
    requires Ordered(a + (b + [x] + c) + d) && key <= x.key
    ensures AllGe([x] + c + d, key) && a + b + ([x] + c + d) == a + (b + [x] + c) + d
  {
    var s, t := a + (b + [x] + c) + d, [x] + c + d;
    assert s == a + b + t;
    forall i | 0 <= i < |t| ensures key <= t[i].key {
      assert t[i] == s[|a + b| + i] && x == s[|a + b|];
    }
  }

  lemma TurnRight(a: seq<Entry>, b: seq<Entry>, x: Entry, c: seq<Entry>, d: seq<Entry>, key: int)
    requires Ordered(a + (b + [x] + c) + d) && x.key <= key
    ensures AllLe(a + b + [x], key) && a + b + [x] + c + d == a + (b + [x] + c) + d
  {
    var s, t := a + (b + [x] + c) + d, a + b + [x];
    assert s == t + c + d;
    forall i | 0 <= i < |t| ensures t[i].key <= key {
      assert t[i] == s[i] && x == s[|a + b|];
    }
  }

  /** The subtree that the search for a key ends in; a leaf if there is no such key. */
  ghost function Found(t: Tree, key: int): Tree {
    match t
    case Leaf => Leaf
    case Node(lt, x, ge) => if key < x.key then Found(lt, key) else if key > x.key then Found(ge, key) else t
  }

  class Multiset {
    const head: Entry
    ghost var tree: Tree
    ghost var Repr: set<Entry>

    ghost predicate Valid()
      reads this, head, Repr
    {
      && Repr == Nodes(tree)
      && head !in Nodes(tree) && head.parent == head && head.ge == null
      && Apart(tree) && Linked(tree, head.lt, head) && Ordered(InOrder(tree))
    }

    constructor ()
      ensures Valid() && tree == Leaf && fresh(head)
    {
      head := new Entry(0);
      tree, Repr := Leaf, {};
      new;
      head.parent := head;
    }

    /** The path to an entry, and what is linked there. */
    lemma Focus(e: Entry) returns (path: Path, lt: Tree, ge: Tree)
      requires Valid() && e in Nodes(tree)
      ensures tree == Plug(path, Node(lt, e, ge)) && At(path, Node(lt, e, ge))
    {
      path, lt, ge := PathTo(Root, tree, e);
      PlugFocus(path, Node(lt, e, ge));
    }

    /** The tree splits into a path and a subtree that are linked and have no entry in common. */
    ghost predicate At(path: Path, t: Tree)
      reads this, head, PathNodes(path), Nodes(t)
    {
      && PathLinked(path, head) && Linked(t, Hole(path, head), Owner(path, head))
      && PathApart(path) && Apart(t) && PathNodes(path) !! Nodes(t)
      && head !in PathNodes(path) && head !in Nodes(t)
      && InOrder(tree) == Before(path) + InOrder(t) + After(path)
    }

    lemma PlugFocus(path: Path, t: Tree)
      requires Valid() && tree == Plug(path, t)
      ensures At(path, t)
    {
      PlugLinked(path, t, head);
      PlugNodes(path, t);
      PlugInOrder(path, t);
    }

    /** The last link of a path was set to another subtree. */
    lemma Replugged(path: Path, t: Tree)
      requires tree == Plug(path, t) && Repr == Nodes(tree) && head.parent == head && head.ge == null
      requires PathLinked(path, head) && Linked(t, Hole(path, head), Owner(path, head))
      requires PathApart(path) && Apart(t) && PathNodes(path) !! Nodes(t) && head !in PathNodes(path) + Nodes(t)
      requires Ordered(Before(path) + InOrder(t) + After(path))
      ensures Valid() && InOrder(tree) == Before(path) + InOrder(t) + After(path)
      ensures Nodes(tree) == PathNodes(path) + Nodes(t)
    {
      PlugLinked(path, t, head);
      PlugNodes(path, t);
      PlugInOrder(path, t);
    }

    /** bottom_most_lt: the first entry of a subtree, and the way to it. */
    method BottomMostLt(entry: Entry, ghost path: Path, ghost t: Tree)
      returns (first: Entry, ghost down: Path, ghost sub: Tree)
      requires PathLinked(path, head) && Linked(t, Hole(path, head), Owner(path, head)) && t.Node? && t.entry == entry
      ensures Plug(down, sub) == Plug(path, t) && PathLinked(down, head)
              && Linked(sub, Hole(down, head), Owner(down, head))
      ensures sub.Node? && sub.entry == first && sub.lt == Leaf
      ensures Before(down) == Before(path) && InOrder(sub) + After(down) == InOrder(t) + After(path)
      ensures InOrder(t) != [] && InOrder(t)[0] == first
    {
      first := entry;
      down, sub := path, t;
      while first.lt != null
        invariant sub.Node? && sub.entry == first && Plug(down, sub) == Plug(path, t)
        invariant PathLinked(down, head) && Linked(sub, Hole(down, head), Owner(down, head))
        invariant Before(down) == Before(path) && InOrder(sub) + After(down) == InOrder(t) + After(path)
        invariant InOrder(sub) != [] && InOrder(t) != [] && InOrder(sub)[0] == InOrder(t)[0]
        decreases sub
      {
        StepDown(sub, After(down));
        first := first.lt;
        down, sub := InLt(down, sub.entry, sub.ge), sub.lt;
      }
    }

    /** bottom_most_ge: the last entry of a subtree. */
    method BottomMostGe(entry: Entry, ghost t: Tree, ghost parent: Entry) returns (last: Entry)
      requires t.Node? && t.entry == entry && Linked(t, entry, parent)
      ensures InOrder(t) != [] && InOrder(t)[|InOrder(t)| - 1] == last
    {
      last := entry;
      ghost var sub, above := t, parent;
      while last.ge != null
        invariant sub.Node? && sub.entry == last && Linked(sub, last, above)
        invariant InOrder(sub) != [] && InOrder(t) != []
                  && InOrder(sub)[|InOrder(sub)| - 1] == InOrder(t)[|InOrder(t)| - 1]
        decreases sub
      {
        last, above := last.ge, last;
        sub := sub.ge;
      }
    }

    /** nearest_lt_parent: climbs until it comes up from the lt side; what it returns is behind everything
        below the path, and the head is behind the last entry. */
    method NearestLtParent(entry: Entry, ghost path: Path, ghost t: Tree) returns (next: Entry)
      requires At(path, t) && t.Node? && t.entry == entry && head.parent == head && head.ge == null
      ensures next == if After(path) == [] then head else After(path)[0]
    {
      var cur := entry;
      ghost var p, sub := path, t;
      assert cur.parent == Owner(p, head);
      while cur.parent.ge == cur
        invariant sub.Node? && sub.entry == cur && Owner(p, head) == cur.parent && Hole(p, head) == cur
        invariant PathLinked(p, head) && PathApart(p) && head !in PathNodes(p) && cur !in PathNodes(p) && cur != head
        invariant After(p) == After(path)
        decreases p
      {
        GeSide(p, cur);
        cur := cur.parent;
        sub := Node(Leaf, cur, Leaf);
        p := p.up;
      }
      LtSide(p, cur);
      next := cur.parent;
    }

    /** Coming up from the ge link of a parent means coming up from its ge side. */
    lemma GeSide(p: Path, cur: Entry)
      requires PathLinked(p, head) && PathApart(p) && cur !in PathNodes(p) && cur != head && head.ge == null
      requires Owner(p, head).ge == cur
      ensures p.InGe?
    {
    }

    lemma LtSide(p: Path, cur: Entry)
      requires PathLinked(p, head) && Hole(p, head) == cur && Owner(p, head).ge != cur
      ensures !p.InGe?
    {
    }

    /** txmultiset_entry_begin: the first entry, or the head. */
    method Begin() returns (entry: Entry)
      requires Valid()
      ensures entry == if InOrder(tree) == [] then head else InOrder(tree)[0]
    {
      entry := head;
      if head.lt != null {
        PlugFocus(Root, tree);
        ghost var down, sub;
        entry, down, sub := BottomMostLt(head.lt, Root, tree);
      }
    }

    /** txmultiset_entry_next: the entry behind the i-th, or the head. */
    method Next(entry: Entry, ghost i: nat) returns (next: Entry)
      requires Valid() && i < |InOrder(tree)| && InOrder(tree)[i] == entry
      ensures next == if i + 1 < |InOrder(tree)| then InOrder(tree)[i + 1] else head
    {
      InOrderNode(tree, i);
      ghost var path, lt, ge := Focus(entry);
      Neighbours(path, lt, entry, ge, i);
      if entry.ge != null {
        ghost var down, sub;
        next, down, sub := BottomMostLt(entry.ge, InGe(lt, entry, path), ge);
        assert (InOrder(ge) + After(path))[0] == next;
      } else {
        assert Linked(ge, entry.ge, entry) && ge == Leaf;
        next := NearestLtParent(entry, path, Node(lt, entry, ge));
      }
    }

    /** txmultiset_entry_prev: the entry before the i-th, or the last one if asked for the head's predecessor.
        The first entry has none, and the code does not allow asking for it. */
    method Prev(entry: Entry, ghost i: nat) returns (prev: Entry)
      requires Valid() && 0 < i <= |InOrder(tree)|
      requires entry == if i < |InOrder(tree)| then InOrder(tree)[i] else head
      ensures prev == InOrder(tree)[i - 1]
    {
      ghost var path, lt, ge := Root, tree, Leaf;
      if i < |InOrder(tree)| {
        InOrderNode(tree, i);
        path, lt, ge := Focus(entry);
        Neighbours(path, lt, entry, ge, i);
        assert InOrder(tree)[i - 1] == (Before(path) + InOrder(lt))[i - 1];
      }
      assert Linked(lt, entry.lt, entry);
      if entry.lt != null {
        prev := BottomMostGe(entry.lt, lt, entry);
      } else {
        assert lt == Leaf;
        prev := NearestGeParent(entry, path, Node(lt, entry, ge));
      }
    }

    /** nearest_ge_parent: what it returns is before everything below the path. */
    method NearestGeParent(entry: Entry, ghost path: Path, ghost t: Tree) returns (prev: Entry)
      requires At(path, t) && t.Node? && t.entry == entry && Before(path) != []
      ensures prev == Before(path)[|Before(path)| - 1]
    {
      var cur: Entry := entry;
      ghost var p := path;
      assert cur.parent == Owner(p, head);
      while cur.parent.lt == cur
        invariant Owner(p, head) == cur.parent && Hole(p, head) == cur
        invariant PathLinked(p, head) && PathApart(p) && head !in PathNodes(p) && cur !in PathNodes(p) && cur != head
        invariant Before(p) == Before(path)
        decreases p
      {
        if p.InGe? {
          LtOfGePath(p, cur);
        }
        cur := cur.parent;
        p := p.up;
      }
      assert p.InGe?;
      prev := cur.parent;
    }

    lemma LtOfGePath(p: Path, cur: Entry)
      requires PathLinked(p, head) && cur !in PathNodes(p) && p.InGe?
      ensures Owner(p, head).lt != cur
    {
      assert Linked(p.lt, p.entry.lt, p.entry);
    }

    /** txmultiset_entry_find: an entry with the key, or the head. */
    method Find(key: int) returns (entry: Entry)
      requires Valid()
      ensures entry == if Found(tree, key).Node? then Found(tree, key).entry else head
    {
      var cur := head.lt;
      ghost var sub: Tree, above: Entry := tree, head;
      while cur != null
        invariant Linked(sub, cur, above) && Found(sub, key) == Found(tree, key)
        decreases sub
      {
        above := cur;
        if key < cur.key {
          sub := sub.lt;
          cur := cur.lt;
        } else if key > cur.key {
          sub := sub.ge;
          cur := cur.ge;
        } else {
          return cur;
        }
      }
      entry := head;
    }

    /** txmultiset_entry_distance from the first entry to the head. */
    method Size() returns (n: nat)
      requires Valid()
      ensures n == |InOrder(tree)|
    {
      var entry := Begin();
      n := 0;
      while entry != head
        invariant Valid() && n <= |InOrder(tree)| && entry == if n < |InOrder(tree)| then InOrder(tree)[n] else head
        decreases |InOrder(tree)| - n
      {
        entry := Next(entry, n);
        n := n + 1;
        if n < |InOrder(tree)| {
          InOrderNode(tree, n);
        }
      }
      if n < |InOrder(tree)| {
        InOrderNode(tree, n);
      }
    }

    lemma LeafFocus(path: Path)
      requires Valid() && tree == Plug(path, Leaf)
      ensures At(path, Leaf) && Repr == PathNodes(path)
      ensures Ordered(Before(path) + After(path)) && InOrder(tree) == Before(path) + After(path)
    {
      PlugFocus(path, Leaf);
      PlugNodes(path, Leaf);
      assert Before(path) + [] + After(path) == Before(path) + After(path);
    }

    /** insert_lt_entry: the entry becomes a leaf on the lt side of `position`, where the path ends. */
    method InsertLt(entry: Entry, position: Entry, ghost path: Path)
      requires Valid() && tree == Plug(path, Leaf) && !path.InGe? && position == Owner(path, head)
      requires entry.Unlinked() && entry !in Repr && entry != head
      requires AllLe(Before(path), entry.key) && AllGe(After(path), entry.key)
      modifies this, head, Repr, entry
      ensures Valid() && Repr == old(Repr) + {entry} && |Before(path)| <= |old(InOrder(tree))|
      ensures InOrder(tree) == Inserted(old(InOrder(tree)), |Before(path)|, entry)
      ensures tree == Plug(path, Node(Leaf, entry, Leaf))
    {
      LeafFocus(path);
      InsertedBetween(Before(path), After(path), InOrder(tree), entry);
      LinkLt(entry, position, path);
      NewLeaf(path, entry);
    }

    method LinkLt(entry: Entry, position: Entry, ghost path: Path)
      requires At(path, Leaf) && !path.InGe? && position == Owner(path, head)
      requires entry.Unlinked() && entry !in PathNodes(path) && entry != head
      requires head.parent == head && head.ge == null
      modifies position, entry
      ensures PathLinked(path, head) && Hole(path, head) == entry
      ensures entry.parent == position && entry.lt == null && entry.ge == null
      ensures head.parent == head && head.ge == null
    {
      entry.parent := position;
      entry.lt := position.lt;
      position.lt := entry;
    }

    method InsertGe(entry: Entry, position: Entry, ghost path: Path)
      requires Valid() && tree == Plug(path, Leaf) && path.InGe? && position == Owner(path, head)
      requires entry.Unlinked() && entry !in Repr && entry != head
      requires AllLe(Before(path), entry.key) && AllGe(After(path), entry.key)
      modifies this, head, Repr, entry
      ensures Valid() && Repr == old(Repr) + {entry} && |Before(path)| <= |old(InOrder(tree))|
      ensures InOrder(tree) == Inserted(old(InOrder(tree)), |Before(path)|, entry)
      ensures tree == Plug(path, Node(Leaf, entry, Leaf))
    {
      LeafFocus(path);
      InsertedBetween(Before(path), After(path), InOrder(tree), entry);
      LinkGe(entry, position, path);
      NewLeaf(path, entry);
    }

    method LinkGe(entry: Entry, position: Entry, ghost path: Path)
      requires At(path, Leaf) && path.InGe? && position == Owner(path, head)
      requires entry.Unlinked() && entry !in PathNodes(path) && entry != head
      requires head.parent == head && head.ge == null
      modifies position, entry
      ensures PathLinked(path, head) && Hole(path, head) == entry
      ensures entry.parent == position && entry.lt == null && entry.ge == null
      ensures head.parent == head && head.ge == null
    {
      entry.parent := position;
      entry.ge := position.ge;
      position.ge := entry;
    }

    ghost method NewLeaf(path: Path, entry: Entry)
      requires Repr == PathNodes(path) && PathLinked(path, head) && PathApart(path)
      requires head.parent == head && head.ge == null && head !in PathNodes(path)
      requires Hole(path, head) == entry && entry.parent == Owner(path, head) && entry.lt == null && entry.ge == null
      requires entry !in Repr && entry != head && Ordered(Before(path) + After(path))
      requires AllLe(Before(path), entry.key) && AllGe(After(path), entry.key)
      modifies this
      ensures Valid() && Repr == old(Repr) + {entry}
      ensures InOrder(tree) == Before(path) + [entry] + After(path)
      ensures tree == Plug(path, Node(Leaf, entry, Leaf))
    {
      var leaf := Node(Leaf, entry, Leaf);
      assert InOrder(leaf) == [entry];
      PutBetween(Before(path), entry, After(path));
      tree, Repr := Plug(path, leaf), Repr + {entry};
      PlugNodes(path, leaf);
      Replugged(path, leaf);
    }

    /** insert_at: the entry takes the place of `position`, an entry with the same key, and pushes it to its
        own ge side. What `position` has on its lt side hangs on both afterwards, and then nothing that hangs
        on the head is a tree with consistent parent links any more. */
    method InsertAt(entry: Entry, position: Entry, ghost path: Path, ghost lt: Tree, ghost ge: Tree)
      requires Valid() && tree == Plug(path, Node(lt, position, ge)) && position.key == entry.key
      requires entry.Unlinked() && entry !in Repr && entry != head && AllLe(Before(path), entry.key)
      modifies this, head, Repr, entry
      ensures lt == Leaf ==> Valid() && Repr == old(Repr) + {entry} && |Before(path)| <= |old(InOrder(tree))|
      ensures lt == Leaf ==> InOrder(tree) == Inserted(old(InOrder(tree)), |Before(path)|, entry)
      ensures lt != Leaf ==> forall t: Tree :: !Linked(t, head.lt, head)
    {
      PlugFocus(path, Node(lt, position, ge));
      PlugNodes(path, Node(lt, position, ge));
      TurnLeft(Before(path), InOrder(lt), position, InOrder(ge), After(path), entry.key);
      TakePlace(entry, position, path, lt, ge);
      if lt == Leaf {
        assert Before(path) + [] == Before(path);
        InsertedBetween(Before(path), [position] + InOrder(ge) + After(path), old(InOrder(tree)), entry);
        NewAbove(path, entry, position, ge);
      } else {
        SharedChild(path, entry, lt, position);
      }
    }

    method TakePlace(entry: Entry, position: Entry, ghost path: Path, ghost lt: Tree, ghost ge: Tree)
      requires At(path, Node(lt, position, ge)) && entry != head && entry.Unlinked()
      requires entry !in PathNodes(path) && entry !in Nodes(Node(lt, position, ge))
      requires head.parent == head && head.ge == null
      modifies Owner(path, head), position, entry
      ensures PathLinked(path, head) && Hole(path, head) == entry && entry.parent == Owner(path, head)
      ensures Linked(lt, entry.lt, position) && entry.ge == position && position.parent == entry
      ensures position.lt == entry.lt && Linked(ge, position.ge, position)
      ensures head.parent == head && head.ge == null
    {
      entry.lt := position.lt;
      entry.ge := position;
      entry.parent := position.parent;
      if position.parent.lt == position {
        if path.InGe? {
          LtOfGePath(path, position);
        }
        position.parent.lt := entry;
      } else {
        position.parent.ge := entry;
      }
      position.parent := entry;
    }

    ghost method NewAbove(path: Path, entry: Entry, position: Entry, ge: Tree)
      requires Repr == PathNodes(path) + {position} + Nodes(ge) && PathLinked(path, head) && PathApart(path)
      requires head.parent == head && head.ge == null && head !in Repr
      requires Apart(ge) && PathNodes(path) !! Nodes(ge) && position !in PathNodes(path) && position !in Nodes(ge)
      requires Hole(path, head) == entry && entry.parent == Owner(path, head) && entry.lt == null
               && entry.ge == position
      requires position.parent == entry && position.lt == null && Linked(ge, position.ge, position)
      requires entry !in Repr && entry != head && AllLe(Before(path), entry.key)
      requires Ordered(Before(path) + ([position] + InOrder(ge) + After(path)))
      requires AllGe([position] + InOrder(ge) + After(path), entry.key)
      modifies this
      ensures Valid() && Repr == old(Repr) + {entry}
      ensures InOrder(tree) == Before(path) + [entry] + ([position] + InOrder(ge) + After(path))
    {
      var sub := Node(Leaf, entry, Node(Leaf, position, ge));
      OneAbove(Before(path), entry, position, ge, After(path));
      tree, Repr := Plug(path, sub), Repr + {entry};
      PlugNodes(path, sub);
      Replugged(path, sub);
    }

    lemma OneAbove(a: seq<Entry>, entry: Entry, position: Entry, ge: Tree, d: seq<Entry>)
      requires Ordered(a + ([position] + InOrder(ge) + d))
      requires AllLe(a, entry.key) && AllGe([position] + InOrder(ge) + d, entry.key)
      ensures var s := a + InOrder(Node(Leaf, entry, Node(Leaf, position, ge))) + d;
              Ordered(s) && s == a + [entry] + ([position] + InOrder(ge) + d)
    {
      PutBetween(a, entry, [position] + InOrder(ge) + d);
      assert InOrder(Node(Leaf, position, ge)) == [position] + InOrder(ge);
      assert InOrder(Node(Leaf, entry, Node(Leaf, position, ge))) == [entry] + ([position] + InOrder(ge));
      assert a + InOrder(Node(Leaf, entry, Node(Leaf, position, ge))) + d
             == a + [entry] + ([position] + InOrder(ge) + d);
    }

    /** A child whose parent link names another entry cannot be part of a linked tree. */
    lemma SharedChild(path: Path, entry: Entry, lt: Tree, position: Entry)
      requires PathLinked(path, head) && Hole(path, head) == entry && position != entry
      requires lt.Node? && Linked(lt, entry.lt, position)
      ensures forall t: Tree :: !Linked(t, head.lt, head)
    {
      forall t: Tree | Linked(t, head.lt, head) ensures false {
        var sub := Below(path, t);
        WrongParent(sub, entry, Owner(path, head));
      }
    }

    lemma WrongParent(t: Tree, entry: Entry, parent: Entry)
      requires entry.lt != null && entry.lt.parent != entry
      ensures !Linked(t, entry, parent)
    {
    }

    /** Whatever tree is linked to the head, what is linked at the end of a path is part of it. */
    lemma Below(path: Path, t: Tree) returns (sub: Tree)
      requires Linked(t, head.lt, head) && PathLinked(path, head)
      ensures Linked(sub, Hole(path, head), Owner(path, head))
    {
      match path
      case Root => sub := t;
      case InLt(up, x, _) =>
        var s := Below(up, t);
        sub := s.lt;
      case InGe(_, x, up) =>
        var s := Below(up, t);
        sub := s.ge;
    }

    /** txmultiset_entry_insert: the entry goes to its place in the order, before entries with an equal key,
        whenever the entry with an equal key that the search meets, if any, has nothing on its lt side; and only
        then: otherwise the links spell no tree any more. */
    method Insert(entry: Entry) returns (ghost i: nat)
      requires Valid() && entry.Unlinked() && entry !in Repr && entry != head
      modifies this, head, Repr, entry
      ensures var met := old(Found(tree, entry.key));
              if met == Leaf || met.lt == Leaf
              then Valid() && Repr == old(Repr) + {entry} && i <= |old(InOrder(tree))|
                   && InOrder(tree) == Inserted(old(InOrder(tree)), i, entry)
              else forall t: Tree :: !Linked(t, head.lt, head)
      ensures old(tree.Node? && Found(tree, entry.key) == Leaf) ==> tree.Node? && tree.entry == old(tree.entry)
    {
      i := 0;
      if head.lt == null {
        InsertLt(entry, head, Root);
        return;
      }
      var cur: Entry := head.lt;
      ghost var path, sub := Root, tree;
      while true
        invariant Searching(path, sub, cur, entry.key)
        invariant tree == old(tree) && Repr == old(Repr) && entry.Unlinked() && entry !in Repr
        invariant Found(sub, entry.key) == Found(tree, entry.key)
        decreases sub
      {
        if entry.key < cur.key {
          ghost var down := GoLeft(path, sub, cur, entry.key);
          if cur.lt == null {
            i := |Before(down)|;
            PlugTop(down, Leaf);
            PlugTop(down, Node(Leaf, entry, Leaf));
            InsertLt(entry, cur, down);
            return;
          }
          path, sub, cur := down, sub.lt, cur.lt;
        } else if entry.key > cur.key {
          ghost var down := GoRight(path, sub, cur, entry.key);
          if cur.ge == null {
            i := |Before(down)|;
            PlugTop(down, Leaf);
            PlugTop(down, Node(Leaf, entry, Leaf));
            InsertGe(entry, cur, down);
            return;
          }
          path, sub, cur := down, sub.ge, cur.ge;
        } else {
          i := |Before(path)|;
          PlugInOrder(path, sub);
          InsertAt(entry, cur, path, sub.lt, sub.ge);
          return;
        }
      }
    }

    /** The search has come to `cur`, between entries that are smaller and entries that are not. */
    ghost predicate Searching(path: Path, sub: Tree, cur: Entry, key: int)
      reads this, head, Repr
    {
      && Valid() && tree == Plug(path, sub) && sub.Node? && sub.entry == cur && cur in Repr
      && AllLe(Before(path), key) && AllGe(After(path), key)
    }

    /** The end of a path, where an entry can be put. */
    ghost predicate Between(path: Path, sub: Tree, key: int)
      reads this, head, Repr
    {
      && Valid() && tree == Plug(path, sub) && AllLe(Before(path), key) && AllGe(After(path), key)
      && InOrder(tree) == Before(path) + InOrder(sub) + After(path)
    }

    lemma GoLeft(path: Path, sub: Tree, cur: Entry, key: int) returns (down: Path)
      requires Searching(path, sub, cur, key) && key <= cur.key
      ensures down == InLt(path, cur, sub.ge) && Between(down, sub.lt, key) && Linked(sub.lt, cur.lt, cur)
      ensures if cur.lt == null then sub.lt == Leaf else sub.lt.Node? && sub.lt.entry == cur.lt && cur.lt in Repr
    {
      down := InLt(path, cur, sub.ge);
      PlugFocus(path, sub);
      PlugInOrder(down, sub.lt);
      PlugNodes(down, sub.lt);
      TurnLeft(Before(path), InOrder(sub.lt), cur, InOrder(sub.ge), After(path), key);
    }

    lemma GoRight(path: Path, sub: Tree, cur: Entry, key: int) returns (down: Path)
      requires Searching(path, sub, cur, key) && cur.key <= key
      ensures down == InGe(sub.lt, cur, path) && Between(down, sub.ge, key) && Linked(sub.ge, cur.ge, cur)
      ensures if cur.ge == null then sub.ge == Leaf else sub.ge.Node? && sub.ge.entry == cur.ge && cur.ge in Repr
    {
      down := InGe(sub.lt, cur, path);
      PlugFocus(path, sub);
      PlugInOrder(down, sub.ge);
      PlugNodes(down, sub.ge);
      TurnRight(Before(path), InOrder(sub.lt), cur, InOrder(sub.ge), After(path), key);
    }

    /** Puts another subtree, or nothing, in the place of an entry; a subtree elsewhere stays as it is. */
    method PullUp(entry: Entry, child: Entry?, ghost path: Path, ghost t: Tree, ghost other: Tree, ghost top: Entry?)
      requires PathLinked(path, head) && Hole(path, head) == entry && entry.parent == Owner(path, head)
      requires entry !in PathNodes(path) && entry != head && head !in PathNodes(path) && PathApart(path)
      requires Linked(t, child, entry) && Apart(t) && PathNodes(path) !! Nodes(t) && head !in Nodes(t)
      requires Linked(other, top, entry) && PathNodes(path) !! Nodes(other) && head !in Nodes(other)
               && Nodes(t) !! Nodes(other)
      requires head.parent == head && head.ge == null
      modifies head, PathNodes(path), child
      ensures PathLinked(path, head) && Linked(t, child, Owner(path, head)) && Hole(path, head) == child
      ensures head.parent == head && head.ge == null && Linked(other, top, entry)
    {
      var parent := entry.parent;
      if child != null {
        child.parent := parent;
      }
      if parent.lt == entry {
        if path.InGe? {
          LtOfGePath(path, entry);
        }
        parent.lt := child;
      } else {
        parent.ge := child;
      }
    }

    /** What replaces an erased entry is linked. */
    ghost predicate Placed(p: Path, t: Tree)
      reads head, PathNodes(p), Nodes(t)
    {
      PathLinked(p, head) && Linked(t, Hole(p, head), Owner(p, head))
    }

    /** Hangs the lt side of an erased entry below the first entry of its ge side. */
    method PushDown(child: Entry, ge: Entry, entry: Entry, ghost path: Path, ghost lt: Tree, ghost up: Tree,
                    ghost nodes: set<Entry>)
      returns (ghost p: Path, ghost t: Tree)
      requires nodes == Nodes(lt)
      requires PathLinked(path, head) && Linked(up, Hole(path, head), Owner(path, head)) && Linked(lt, child, entry)
      requires PathApart(path) && Apart(Node(lt, entry, up)) && PathNodes(path) !! Nodes(Node(lt, entry, up))
      requires up.Node? && up.entry == ge && head !in PathNodes(path) && head !in Nodes(Node(lt, entry, up))
      modifies PathNodes(path), Nodes(up), child
      ensures Placed(p, t) && Rearranges(p, t, path, lt, up)
    {
      var bottom;
      ghost var sub;
      bottom, p, sub := BottomMostLt(ge, path, up);
      PlugNodes(path, up);
      PlugNodes(p, sub);
      HungOrder(p, sub, path, lt, up);
      t := Node(lt, bottom, sub.ge);
      Hang(child, bottom, entry, p, sub, lt);
    }

    method Hang(child: Entry, bottom: Entry, entry: Entry, ghost p: Path, ghost sub: Tree, ghost lt: Tree)
      requires PathLinked(p, head) && Linked(sub, Hole(p, head), Owner(p, head)) && Linked(lt, child, entry)
      requires sub.Node? && sub.entry == bottom && sub.lt == Leaf && Apart(sub) && Apart(lt)
      requires PathNodes(p) !! Nodes(sub) && Nodes(lt) !! Nodes(sub) && Nodes(lt) !! PathNodes(p)
      requires head !in PathNodes(p) && head !in Nodes(sub) && head !in Nodes(lt)
      modifies child, bottom
      ensures PathLinked(p, head) && Linked(Node(lt, bottom, sub.ge), Hole(p, head), Owner(p, head))
    {
      child.parent := bottom;
      bottom.lt := child;
    }

    lemma HungOrder(p: Path, sub: Tree, path: Path, lt: Tree, up: Tree)
      requires sub.Node? && sub.lt == Leaf && Before(p) == Before(path)
      requires InOrder(sub) + After(p) == InOrder(up) + After(path)
      ensures Before(p) + InOrder(Node(lt, sub.entry, sub.ge)) + After(p)
              == Before(path) + InOrder(lt) + (InOrder(up) + After(path))
    {
      assert InOrder(sub) == [sub.entry] + InOrder(sub.ge);
      Hung(Before(p), InOrder(lt), sub.entry, InOrder(sub.ge), After(p));
    }

    /** txmultiset_entry_erase: pulls the ge side up and hangs the lt side below its first entry, or else pulls
        the lt side up. */
    method Erase(entry: Entry, ghost i: nat)
      requires Valid() && i < |InOrder(tree)| && InOrder(tree)[i] == entry
      modifies this, head, Repr
      ensures Valid() && Repr == old(Repr) - {entry} && entry.Unlinked()
      ensures InOrder(tree) == old(InOrder(tree))[..i] + old(InOrder(tree))[i + 1..]
    {
      ghost var path, lt, ge := Cut(entry, i);
      ghost var p, t := TakeOut(entry, path, lt, ge);
      Detach(entry, p, t);
      Rebuild(p, t, path, lt, ge);
    }

    method Detach(entry: Entry, ghost p: Path, ghost t: Tree)
      requires Placed(p, t) && entry !in PathNodes(p) && entry !in Nodes(t) && entry != head
      modifies entry
      ensures Placed(p, t) && entry.Unlinked()
    {
      entry.lt, entry.ge, entry.parent := null, null, null;
    }

    lemma Cut(entry: Entry, i: nat) returns (path: Path, lt: Tree, ge: Tree)
      requires Valid() && i < |InOrder(tree)| && InOrder(tree)[i] == entry
      ensures At(path, Node(lt, entry, ge)) && Repr == PathNodes(path) + Nodes(lt) + Nodes(ge) + {entry}
      ensures Ordered(Before(path) + InOrder(lt) + (InOrder(ge) + After(path)))
      ensures InOrder(tree)[..i] + InOrder(tree)[i + 1..] == Before(path) + InOrder(lt) + (InOrder(ge) + After(path))
    {
      InOrderNode(tree, i);
      path, lt, ge := Focus(entry);
      Neighbours(path, lt, entry, ge, i);
      PlugNodes(path, Node(lt, entry, ge));
      RemovedOrdered(InOrder(tree), i);
    }

    ghost method Rebuild(p: Path, t: Tree, path: Path, lt: Tree, ge: Tree)
      requires Placed(p, t) && Rearranges(p, t, path, lt, ge) && head.parent == head && head.ge == null
      requires head !in PathNodes(path) + Nodes(lt) + Nodes(ge)
      requires Ordered(Before(path) + InOrder(lt) + (InOrder(ge) + After(path)))
      modifies this
      ensures Valid() && Repr == PathNodes(path) + Nodes(lt) + Nodes(ge)
      ensures InOrder(tree) == Before(path) + InOrder(lt) + (InOrder(ge) + After(path))
    {
      tree, Repr := Plug(p, t), PathNodes(p) + Nodes(t);
      PlugNodes(p, t);
      Replugged(p, t);
    }

    method TakeOut(entry: Entry, ghost path: Path, ghost lt: Tree, ghost ge: Tree)
      returns (ghost p: Path, ghost t: Tree)
      requires At(path, Node(lt, entry, ge)) && head.parent == head && head.ge == null
      modifies head, PathNodes(path), Nodes(lt), Nodes(ge)
      ensures Placed(p, t) && Rearranges(p, t, path, lt, ge) && head.parent == head && head.ge == null
    {
      p := path;
      assert Linked(ge, entry.ge, entry) && Linked(lt, entry.lt, entry);
      if entry.ge != null {
        t := ge;
        PullUp(entry, entry.ge, path, ge, lt, entry.lt);
        if entry.lt != null {
          p, t := PushDown(entry.lt, entry.ge, entry, path, lt, ge, Nodes(lt));
        } else {
          OneSide(Before(path), InOrder(ge), After(path));
        }
      } else {
        t := lt;
        OneSide(Before(path), InOrder(lt), After(path));
        PullUp(entry, entry.lt, path, lt, Leaf, null);
      }
    }

    /** Entries occur once, so the neighbours of an entry are what the path to it says. */
    lemma Neighbours(path: Path, lt: Tree, e: Entry, ge: Tree, i: nat)
      requires Valid() && tree == Plug(path, Node(lt, e, ge)) && i < |InOrder(tree)| && InOrder(tree)[i] == e
      ensures var ahead := InOrder(ge) + After(path);
              && InOrder(tree)[i + 1..] == ahead && InOrder(tree)[..i] == Before(path) + InOrder(lt)
              && (ge == Leaf ==> ahead == After(path))
              && (i + 1 < |InOrder(tree)| <==> ahead != []) && (ahead != [] ==> InOrder(tree)[i + 1] == ahead[0])
    {
      PlugInOrder(path, Node(lt, e, ge));
      InOrderDistinct(tree);
      OnePlace(Before(path), InOrder(lt), e, InOrder(ge), After(path), i);
    }
  }

  /** A path and a subtree consist of the entries that are left without an erased one, in the old order. */
  ghost predicate Rearranges(p: Path, t: Tree, path: Path, lt: Tree, ge: Tree) {
    && PathApart(p) && Apart(t) && PathNodes(p) !! Nodes(t)
    && PathNodes(p) + Nodes(t) == PathNodes(path) + Nodes(lt) + Nodes(ge)
    && Before(p) + InOrder(t) + After(p) == Before(path) + InOrder(lt) + (InOrder(ge) + After(path))
  }

  lemma Hung(a: seq<Entry>, b: seq<Entry>, e: Entry, c: seq<Entry>, d: seq<Entry>)
    ensures a + (b + [e] + c) + d == a + b + (([e] + c) + d)
  {
  }

  lemma OneSide(a: seq<Entry>, b: seq<Entry>, d: seq<Entry>)
    ensures a + b + d == a + [] + (b + d) == a + b + ([] + d)
  {
  }

  lemma RemovedOrdered(s: seq<Entry>, i: nat)
    requires Ordered(s) && i < |s|
    ensures Ordered(s[..i] + s[i + 1..])
  {
  }

  lemma OnePlace(a: seq<Entry>, b: seq<Entry>, e: Entry, c: seq<Entry>, d: seq<Entry>, i: nat)
    requires var s := a + (b + [e] + c) + d;
             i < |s| && s[i] == e && Distinct(s)
    ensures var s := a + (b + [e] + c) + d; s[..i] == a + b && s[i + 1..] == c + d
  {
    var s := a + (b + [e] + c) + d;
    assert s[|a| + |b|] == e;
    assert i == |a| + |b|;
  }

  lemma {:induction false} InOrderNode(t: Tree, i: nat)
    requires i < |InOrder(t)|
    ensures InOrder(t)[i] in Nodes(t)
  {
    var n := |InOrder(t.lt)|;
    if i < n {
      InOrderNode(t.lt, i);
    } else if i > n {
      InOrderNode(t.ge, i - n - 1);
    }
  }

  lemma {:induction false} InOrderDistinct(t: Tree)
    requires Apart(t)
    ensures Distinct(InOrder(t))
  {
    match t
    case Leaf =>
    case Node(lt, x, ge) =>
      InOrderDistinct(lt);
      InOrderDistinct(ge);
      var a, b := InOrder(lt), InOrder(ge);
      forall i | 0 <= i < |a| ensures a[i] in Nodes(lt) {
        InOrderNode(lt, i);
      }
      forall i | 0 <= i < |b| ensures b[i] in Nodes(ge) {
        InOrderNode(ge, i);
      }
      assert forall i, j :: 0 <= i < |a| && 0 <= j < |b| ==> a[i] != b[j];
  }

  // ---------------------------------------------------------------------------------------------
  // What the search, insertions and removals mean for the keys
  // ---------------------------------------------------------------------------------------------

  ghost predicate HasKey(s: seq<Entry>, key: int) {
    exists i :: 0 <= i < |s| && s[i].key == key
  }

  lemma OrderedAround(a: seq<Entry>, x: Entry, b: seq<Entry>)
    requires Ordered(a + [x] + b)
    ensures Ordered(a) && Ordered(b) && AllLe(a, x.key) && AllGe(b, x.key)
  {
    var s, n := a + [x] + b, |a|;
    assert s[n] == x;
    forall i | 0 <= i < |a| ensures s[i] == a[i] && a[i].key <= x.key {
    }
    forall i | 0 <= i < |b| ensures s[n + 1 + i] == b[i] && x.key <= b[i].key {
    }
    forall i, j | 0 <= i < j < |b| ensures b[i].key <= b[j].key {
      assert s[n + 1 + i].key <= s[n + 1 + j].key;
    }
  }

  lemma HasKeyAround(a: seq<Entry>, x: Entry, b: seq<Entry>, key: int)
    ensures HasKey(a + [x] + b, key) <==> HasKey(a, key) || x.key == key || HasKey(b, key)
  {
    var s, n := a + [x] + b, |a|;
    if HasKey(s, key) {
      var i :| 0 <= i < |s| && s[i].key == key;
      assert i < n ==> a[i].key == key;
      assert i > n ==> b[i - n - 1].key == key;
    }
    if HasKey(a, key) {
      var i :| 0 <= i < |a| && a[i].key == key;
      assert s[i].key == key;
    } else if x.key == key {
      assert s[n].key == key;
    } else if HasKey(b, key) {
      var i :| 0 <= i < |b| && b[i].key == key;
      assert s[n + 1 + i].key == key;
    }
  }

  /** The search finds a key if and only if it is there. */
  lemma {:induction false} FoundIff(t: Tree, key: int)
    requires Ordered(InOrder(t))
    ensures Found(t, key).Node? <==> HasKey(InOrder(t), key)
    ensures Found(t, key).Node? ==> Found(t, key).entry.key == key
  {
    if t.Node? {
      OrderedAround(InOrder(t.lt), t.entry, InOrder(t.ge));
      HasKeyAround(InOrder(t.lt), t.entry, InOrder(t.ge), key);
      FoundIff(t.lt, key);
      FoundIff(t.ge, key);
    }
  }

  ghost function KeysOf(s: seq<Entry>): seq<int> {
    seq(|s|, i requires 0 <= i < |s| => s[i].key)
  }

  /** With distinct keys, inserting an entry inserts its key into the sorted sequence of keys, ... */
  lemma {:induction false} InsertsKey(s: seq<Entry>, i: nat, e: Entry)
    requires i <= |s| && TxLib.Increasing(KeysOf(Inserted(s, i, e)))
    ensures KeysOf(Inserted(s, i, e)) == TxLib.InsertedKey(KeysOf(s), e.key)
    decreases |s|
  {
    var keys, longer := KeysOf(s), KeysOf(Inserted(s, i, e));
    if i == 0 {
      assert longer == [e.key] + keys;
      assert s != [] ==> longer[0] < longer[1];
    } else {
      assert longer[0] == s[0].key < longer[i] == e.key;
      assert KeysOf(s[1..]) == keys[1..] && KeysOf(Inserted(s[1..], i - 1, e)) == longer[1..];
      InsertsKey(s[1..], i - 1, e);
    }
  }

  /** ... and erasing an entry erases its key. So the log of a multiset undoes what it says it undoes. */
  lemma {:induction false} ErasesKey(s: seq<Entry>, i: nat)
    requires i < |s| && TxLib.Increasing(KeysOf(s))
    ensures KeysOf(s[..i] + s[i + 1..]) == TxLib.Erased(KeysOf(s), s[i].key)
    decreases |s|
  {
    var keys := KeysOf(s);
    if i == 0 {
      assert KeysOf(s[..0] + s[1..]) == keys[1..];
    } else {
      assert keys[0] < keys[i];
      assert KeysOf(s[1..]) == keys[1..];
      ErasesKey(s[1..], i - 1);
      assert KeysOf(s[..i] + s[i + 1..]) == [keys[0]] + KeysOf(s[1..][..i - 1] + s[1..][i..]);
    }
  }

  /** The keys 2 and 1. */
  method TwoKeys() returns (m: Multiset)
    ensures fresh(m) && fresh(m.head) && fresh(m.Repr) && m.Valid()
    ensures Found(m.tree, 2).Node? && Found(m.tree, 2).lt != Leaf
  {
    m := new Multiset();
    var b := new Entry(2);
    var a := new Entry(1);
    ghost var i := m.Insert(b);
    assert m.tree.entry == b by {
      OneEntry(m.tree, b);
    }
    i := m.Insert(a);
    TwoEntries(m.tree, a, b, i);
  }

  /** The keys 2, 1 and 2 again: the third insertion meets an entry that has a smaller one on its lt side, and
      what it leaves behind is no tree. */
  method EqualKeyExample() returns (m: Multiset)
    ensures forall t: Tree :: !Linked(t, m.head.lt, m.head)
  {
    m := TwoKeys();
    var c := new Entry(2);
    ghost var i := m.Insert(c);
  }

  lemma OneEntry(t: Tree, e: Entry)
    requires InOrder(t) == [e]
    ensures t == Node(Leaf, e, Leaf)
  {
    assert InOrder(t)[|InOrder(t.lt)|] == t.entry;
    NodeInOrder(t.lt);
    NodeInOrder(t.ge);
  }

  lemma NodeInOrder(t: Tree)
    ensures t.Node? ==> InOrder(t) != []
  {
  }

  lemma TwoEntries(t: Tree, a: Entry, b: Entry, i: nat)
    requires a.key < b.key && i <= 1 && InOrder(t) == Inserted([b], i, a) && Ordered(InOrder(t)) && t.Node?
             && t.entry == b
    ensures Found(t, b.key).Node? && Found(t, b.key).lt != Leaf
  {
    assert InOrder(t)[i] == a && InOrder(t)[1 - i] == b;
    assert InOrder(t) == [a, b];
  }
}
