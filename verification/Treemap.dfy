/** The sequential tree map (src/picotm-lib-treemap.c): a radix tree of directories that grows at its root. Next
    to the links stands what they represent: a finite map, and the directories by their places. */
module Treemap {
  import opened Common
  import opened Radix

  /** A slot: empty, the address of a directory, or, at the lowest level, a value, which is never null. */
  datatype Slot = Null | Dir(dir: array<Slot>) | Value(v: nat)

  /** What a tree of the given depth, with b entries per directory, represents. */
  datatype View = View(b: nat, depth: nat, dirs: map<Place, array<Slot>>, contents: map<nat, nat>)

  /** What has to stand in the slot of a place. */
  ghost function Expected(v: View, p: Place): Slot {
    if p.level == 0 then if p.prefix in v.contents then Value(v.contents[p.prefix]) else Null
    else if p in v.dirs then Dir(v.dirs[p]) else Null
  }

  /** A directory is below another one, or the root. */
  ghost predicate DirOk(v: View, p: Place)
    requires v.b > 0
  {
    p in v.dirs ==>
      && 0 < p.level <= v.depth && v.dirs[p].Length == v.b
      && (if p.level == v.depth then p.prefix == 0 else Above(v.b, p) in v.dirs)
  }

  /** A key has a directory, or is the only one, 0, of a tree without directories. */
  ghost predicate KeyOk(v: View, k: nat)
    requires v.b > 0
  {
    k in v.contents ==> if v.depth == 0 then k == 0 else Place(1, k / v.b) in v.dirs
  }

  ghost predicate ViewOk(v: View) {
    && v.b >= 2 && (v.depth > 0 ==> Place(v.depth, 0) in v.dirs)
    && (forall p {:trigger DirOk(v, p)} :: DirOk(v, p))
    && (forall k {:trigger KeyOk(v, k)} :: KeyOk(v, k))
    && (forall p, q :: p in v.dirs && q in v.dirs && v.dirs[p] == v.dirs[q] ==> p == q)
  }

  ghost predicate EntryOk(v: View, p: Place, i: nat)
    requires p in v.dirs && i < v.b && v.dirs[p].Length == v.b && p.level > 0
    reads v.dirs[p]
  {
    v.dirs[p][i] == Expected(v, Below(v.b, p, i))
  }

  ghost predicate DirFilled(v: View, p: Place)
    requires p in v.dirs
    reads v.dirs[p]
  {
    v.dirs[p].Length == v.b && p.level > 0 && forall i :: 0 <= i < v.b ==> EntryOk(v, p, i)
  }

  lemma StaysFilled(v: View, w: View, p: Place)
    requires p in v.dirs && p in w.dirs && w.dirs[p] == v.dirs[p] && w.b == v.b && DirFilled(v, p)
    requires forall i :: 0 <= i < v.b ==> Expected(w, Below(v.b, p, i)) == Expected(v, Below(v.b, p, i))
    ensures DirFilled(w, p)
  {
    forall i | 0 <= i < v.b ensures EntryOk(w, p, i) {
      assert EntryOk(v, p, i);
    }
  }

  // ---------------------------------------------------------------------------------------------
  // Changes of the view
  // ---------------------------------------------------------------------------------------------

  /** A new root directory above the old root. */
  ghost function Grown(v: View, dir: array<Slot>): View {
    v.(depth := v.depth + 1, dirs := v.dirs[Place(v.depth + 1, 0) := dir])
  }

  lemma GrownOk(v: View, dir: array<Slot>)
    requires ViewOk(v) && dir.Length == v.b && forall p :: p in v.dirs ==> v.dirs[p] != dir
    ensures ViewOk(Grown(v, dir)) && Place(v.depth + 1, 0) !in v.dirs
    ensures forall p :: p in v.dirs ==> p.level > 0
    ensures forall p: Place :: p.level <= v.depth ==> Expected(Grown(v, dir), p) == Expected(v, p)
    ensures forall i :: 0 < i ==> Expected(v, Place(v.depth, i)) == Null
  {
    var w := Grown(v, dir);
    assert DirOk(v, Place(v.depth + 1, 0));
    forall p ensures DirOk(w, p) && (p in v.dirs ==> p.level > 0) {
      assert DirOk(v, p);
    }
    forall k ensures KeyOk(w, k) {
      assert KeyOk(v, k);
    }
    forall i | 0 < i ensures Expected(v, Place(v.depth, i)) == Null {
      assert DirOk(v, Place(v.depth, i)) && KeyOk(v, i);
    }
  }

  lemma TopFilled(v: View, dir: array<Slot>)
    requires ViewOk(v) && dir.Length == v.b && forall p :: p in v.dirs ==> v.dirs[p] != dir
    requires forall i :: 0 <= i < v.b ==> dir[i] == if i == 0 then Expected(v, Place(v.depth, 0)) else Null
    ensures DirFilled(Grown(v, dir), Place(v.depth + 1, 0))
  {
    GrownOk(v, dir);
    var w, top := Grown(v, dir), Place(v.depth + 1, 0);
    forall i | 0 <= i < v.b ensures EntryOk(w, top, i) {
      assert Below(v.b, top, i) == Place(v.depth, i);
    }
  }

  /** A new directory in an empty place. */
  ghost function WithDir(v: View, p: Place, dir: array<Slot>): View {
    v.(dirs := v.dirs[p := dir])
  }

  lemma WithDirOk(v: View, p: Place, dir: array<Slot>)
    requires ViewOk(v) && 0 < p.level < v.depth && p !in v.dirs && Above(v.b, p) in v.dirs && dir.Length == v.b
    requires forall q :: q in v.dirs ==> v.dirs[q] != dir
    ensures ViewOk(WithDir(v, p, dir))
    ensures forall q :: q != p ==> Expected(WithDir(v, p, dir), q) == Expected(v, q)
    ensures forall i :: 0 <= i < v.b ==> Expected(v, Below(v.b, p, i)) == Null
  {
    var w := WithDir(v, p, dir);
    forall q ensures DirOk(w, q) {
      assert DirOk(v, q);
    }
    forall k ensures KeyOk(w, k) {
      assert KeyOk(v, k);
    }
    forall i | 0 <= i < v.b ensures Expected(v, Below(v.b, p, i)) == Null {
      var q := Below(v.b, p, i);
      DivUnique(q.prefix, v.b, p.prefix, i);
      assert DirOk(v, q) && KeyOk(v, q.prefix);
    }
  }

  /** A value in an empty place. */
  ghost function WithValue(v: View, k: nat, value: nat): View {
    v.(contents := v.contents[k := value])
  }

  lemma WithValueOk(v: View, k: nat, value: nat)
    requires ViewOk(v) && if v.depth == 0 then k == 0 else Place(1, k / v.b) in v.dirs
    ensures ViewOk(WithValue(v, k, value))
    ensures forall q :: q != Place(0, k) ==> Expected(WithValue(v, k, value), q) == Expected(v, q)
  {
    var w := WithValue(v, k, value);
    forall q ensures DirOk(w, q) {
      assert DirOk(v, q);
    }
    forall j ensures KeyOk(w, j) {
      assert KeyOk(v, j);
    }
  }

  class Treemap {
    const b: nat
    var root: Slot
    var depth: nat
    ghost var view: View
    ghost var Repr: set<array<Slot>>

    ghost predicate Valid()
      reads this, Repr
    {
      && ViewOk(view) && view.b == b && view.depth == depth && root == Expected(view, Place(depth, 0))
      && forall p :: p in view.dirs ==> view.dirs[p] in Repr && DirFilled(view, p)
    }

    constructor (levelBits: nat)
      requires levelBits >= 1
      ensures Valid() && view.contents == map[] && b == Entries(levelBits) && Repr == {}
    {
      b := Entries(levelBits);
      root, depth := Null, 0;
      view, Repr := View(Entries(levelBits), 0, map[], map[]), {};
    }

    /** The slot that the code's entry pointer points to: the root, or an entry of a directory. */
    ghost predicate At(dir: array?<Slot>, i: nat, p: Place)
      reads this
    {
      if dir == null then p == Place(view.depth, 0)
      else view.b > 0 && p.level < view.depth && Above(view.b, p) in view.dirs && view.dirs[Above(view.b, p)] == dir
           && i == p.prefix % view.b
    }

    method Load(dir: array?<Slot>, i: nat, ghost p: Place) returns (slot: Slot)
      requires Valid() && At(dir, i, p)
      ensures slot == Expected(view, p)
    {
      if dir == null {
        slot := root;
      } else {
        EntryOfPlace(p);
        slot := dir[i];
      }
    }

    lemma EntryOfPlace(p: Place)
      requires Valid() && p.level < depth && Above(b, p) in view.dirs
      ensures var dir := view.dirs[Above(b, p)];
              dir.Length == b && p.prefix % b < b && dir[p.prefix % b] == Expected(view, p)
    {
      var up := Above(b, p);
      assert DirFilled(view, up) && EntryOk(view, up, p.prefix % b);
      assert p.prefix == b * (p.prefix / b) + p.prefix % b;
      assert Below(b, up, p.prefix % b) == p;
    }

    /** grow_tree: puts new root directories on top until the key fits. */
    method GrowTree(key: nat)
      requires Valid()
      modifies this
      ensures Valid() && fresh(Repr - old(Repr)) && view.contents == old(view.contents)
      ensures Prefix(key, depth, b) == 0 && depth >= old(depth)
      ensures depth > old(depth) ==> Prefix(key, depth - 1, b) != 0
    {
      var prefix := Prefix(key, depth, b);
      while prefix != 0
        invariant Valid() && fresh(Repr - old(Repr)) && view.contents == old(view.contents)
        invariant prefix == Prefix(key, depth, b) && depth >= old(depth)
        invariant depth > old(depth) ==> Prefix(key, depth - 1, b) != 0
        decreases prefix
      {
        AddRoot();
        PrefixUp(key, depth - 1, b);
        DivShrinks(prefix, b);
        prefix := prefix / b;
      }
    }

    method AddRoot()
      requires Valid()
      modifies this
      ensures Valid() && fresh(Repr - old(Repr)) && view.contents == old(view.contents) && depth == old(depth) + 1
    {
      var dir := new Slot[b](_ => Null);
      ghost var v, w := view, Grown(view, dir);
      GrownOk(v, dir);
      dir[0] := root;
      root := Dir(dir);
      depth := depth + 1;
      view := w;
      Repr := Repr + {dir};
      forall p | p in w.dirs ensures DirFilled(w, p) {
        if p in v.dirs {
          assert DirOk(v, p);
          StaysFilled(v, w, p);
        } else {
          TopFilled(v, dir);
        }
      }
    }

    /** A slot is written: the other slots of the directories stay as they are. */
    method Store(dir: array?<Slot>, i: nat, slot: Slot, ghost p: Place, ghost w: View)
      requires Valid() && At(dir, i, p) && Extends(view, w, p) && Expected(w, p) == slot
      requires forall q :: q in w.dirs && q !in view.dirs ==> w.dirs[q] !in Repr && DirFilled(w, q)
      modifies this, Repr
      ensures Valid() && view == w && Repr == old(Repr) + set q | q in w.dirs :: w.dirs[q]
    {
      ghost var v := view;
      if dir == null {
        root := slot;
      } else {
        EntryOfPlace(p);
        dir[i] := slot;
      }
      view := w;
      Repr := Repr + set q | q in w.dirs :: w.dirs[q];
      forall q | q in w.dirs && q in v.dirs ensures DirFilled(w, q) {
        assert old(DirFilled(v, q)) && DirOk(v, q);
        forall j | 0 <= j < b ensures EntryOk(w, q, j) {
          assert old(EntryOk(v, q, j));
          EntryOf(b, q, j, p);
        }
      }
    }

    /** retrieve_dir. */
    method RetrieveDir(dir: array?<Slot>, i: nat, create: bool, ghost p: Place) returns (r: array?<Slot>)
      requires Valid() && At(dir, i, p) && 0 < p.level
      modifies this, Repr
      ensures Valid() && fresh(Repr - old(Repr)) && view.contents == old(view.contents) && depth == old(depth)
      ensures r == null ==> !create && view == old(view) && p !in view.dirs
      ensures r != null ==> p in view.dirs && view.dirs[p] == r
    {
      var slot := Load(dir, i, p);
      if slot.Dir? {
        return slot.dir;
      }
      if !create {
        return null;
      }
      r := new Slot[b](_ => Null);
      ghost var w := WithDir(view, p, r);
      assert dir != null;
      WithDirOk(view, p, r);
      Store(dir, i, Dir(r), p, w);
    }

    /** lookup_value_entry: the slot of the key at the lowest level. */
    method LookupValueEntry(key: nat, create: bool) returns (found: bool, dir: array?<Slot>, i: nat)
      requires Valid() && Prefix(key, depth, b) == 0
      modifies this, Repr
      ensures Valid() && fresh(Repr - old(Repr)) && view.contents == old(view.contents) && depth == old(depth)
      ensures found ==> At(dir, i, Place(0, key))
      ensures !found ==> !create && key !in view.contents
    {
      dir, i, found := null, 0, true;
      var level := depth;
      while level > 0
        invariant Valid() && fresh(Repr - old(Repr)) && view.contents == old(view.contents) && depth == old(depth)
        invariant 0 <= level <= depth && At(dir, i, Place(level, Prefix(key, level, b)))
      {
        level := level - 1;
        ghost var p := Place(level + 1, Prefix(key, level + 1, b));
        var next := RetrieveDir(dir, i, create, p);
        PrefixUp(key, level, b);
        if next == null {
          found := false;
          NoKeyBelow(view, p, key);
          return;
        }
        dir, i := next, Index(key, level, b);
      }
      PrefixBottom(key, b);
    }

    /** retrieve_value, where `made` is what value_create would return. */
    method RetrieveValue(dir: array?<Slot>, i: nat, create: bool, made: nat, ghost key: nat) returns (r: nat)
      requires Valid() && At(dir, i, Place(0, key))
      modifies this, Repr
      ensures Valid() && fresh(Repr - old(Repr)) && depth == old(depth)
      ensures view.contents ==
              if key in old(view.contents) || !create then old(view.contents) else old(view.contents)[key := made]
      ensures r == if key in view.contents then view.contents[key] else 0
    {
      var slot := Load(dir, i, Place(0, key));
      if slot.Value? {
        return slot.v;
      }
      if !create {
        return 0;
      }
      ghost var w := WithValue(view, key, made);
      WithValueOk(view, key, made);
      Store(dir, i, Value(made), Place(0, key), w);
      r := made;
    }

    /** picotm_treemap_find_value: the value of the key, or a newly created one, or 0; no other key is touched,
        however much the tree has to grow. Values are not 0. */
    method FindValue(key: nat, create: bool, made: nat) returns (r: nat)
      requires Valid() && made != 0
      modifies this, Repr
      ensures Valid() && fresh(Repr - old(Repr))
      ensures view.contents ==
              if key in old(view.contents) || !create then old(view.contents) else old(view.contents)[key := made]
      ensures r == if key in view.contents then view.contents[key] else 0
    {
      var prefix := Prefix(key, depth, b);
      if prefix != 0 {
        GrowTree(key);
      }
      var found, dir, i := LookupValueEntry(key, create);
      if !found {
        return 0;
      }
      r := RetrieveValue(dir, i, create, made, key);
    }

    /** picotm_treemap_for_each_value with walk_values: calls back for each key and its value once, in
        increasing order of the keys. The stack has one slot more than the tree has levels. */
    method ForEachValue() returns (calls: seq<(nat, nat)>)
      requires Valid()
      ensures forall i, j :: 0 <= i < j < |calls| ==> calls[i].0 < calls[j].0
      ensures forall k, x :: (k, x) in calls <==> k in view.contents && view.contents[k] == x
    {
      var stack := new Frame[depth + 1](_ => Frame(0, Null, 0, 0));
      var n := 0;
      calls := [];
      if root != Null {
        stack[0] := Frame(0, root, depth, 0);
        n := 1;
        FirstFrame(stack[..n]);
      } else {
        CalledFurther(view, Place(depth, 0), calls, 0, Pow(b, depth));
      }
      while n > 0
        invariant n <= depth + 1 && stack.Length == depth + 1 && Walking(stack[..n], calls)
        decreases Pow(b, depth) - WalkPos(view, stack[..n]), WalkRank(b, depth, stack[..n])
      {
        ghost var fs := stack[..n];
        if stack[n - 1].depth > 0 {
          n := VisitDir(stack, n, calls);
        } else {
          ValueVisited(fs, calls);
          calls := calls + [(stack[n - 1].key, stack[n - 1].entry.v)];
          n := n - 1;
          assert stack[..n] == fs[..n];
        }
        PosBelowEnd(view, stack[..n]);
      }
      AllCalled(calls);
    }

    lemma AllCalled(calls: seq<(nat, nat)>)
      requires Valid() && Called(view.contents, calls, Pow(b, depth))
      ensures forall k, x :: (k, x) in calls <==> k in view.contents && view.contents[k] == x
    {
      forall k | k in view.contents ensures (k, view.contents[k]) in calls {
        AllKeysBelow(view, k);
      }
    }

    /** The walk at a value calls back and goes up one level. */
    lemma ValueVisited(fs: seq<Frame>, calls: seq<(nat, nat)>)
      requires Walking(fs, calls) && fs != [] && fs[|fs| - 1].depth == 0
      ensures var f := fs[|fs| - 1];
              && f.entry.Value? && Walking(fs[..|fs| - 1], calls + [(f.key, f.entry.v)])
              && WalkPos(view, fs[..|fs| - 1]) == WalkPos(view, fs) + 1
    {
      ValueDone(view, fs, fs[..|fs| - 1], calls);
    }

    /** The walk at a directory: pushes its next entry, or goes up one level. */
    method VisitDir(stack: array<Frame>, n: nat, ghost calls: seq<(nat, nat)>) returns (n': nat)
      requires 0 < n <= depth + 1 == stack.Length && Walking(stack[..n], calls) && stack[n - 1].depth > 0
      modifies stack
      ensures n' <= depth + 1 && Walking(stack[..n'], calls)
      ensures Further(view, old(stack[..n]), stack[..n'])
    {
      ghost var fs := stack[..n];
      SkipEmpty(stack, n, calls);
      ghost var gs := stack[..n];
      assert gs != fs ==> gs[n - 1].i != fs[n - 1].i;
      if stack[n - 1].i < b {
        PushEntry(stack, n, calls);
        n' := n + 1;
      } else {
        n' := n - 1;
        DirPassed(gs, stack[..n'], calls);
      }
      FurtherOn(view, fs, gs, stack[..n']);
    }

    /** Puts the next entry of a directory on the stack. */
    method PushEntry(stack: array<Frame>, n: nat, ghost calls: seq<(nat, nat)>)
      requires 0 < n <= depth + 1 == stack.Length && Walking(stack[..n], calls) && stack[n - 1].depth > 0
      requires var f := stack[n - 1]; f.i < b && Expected(view, Below(b, Place(f.depth, f.key), f.i)) != Null
      modifies stack
      ensures n < depth + 1 && Walking(stack[..n + 1], calls)
      ensures Further(view, old(stack[..n]), stack[..n + 1])
    {
      ghost var gs := stack[..n];
      var top := stack[n - 1];
      EntryOfFrame(gs);
      Pushed(view, gs, top.entry.dir[top.i]);
      stack[n] := Frame(top.key * b + top.i, top.entry.dir[top.i], top.depth - 1, 0);
      stack[n - 1] := top.(i := top.i + 1);
      assert stack[..n + 1] == Moved(gs, top.i + 1) + [stack[n]];
    }

    lemma DirPassed(fs: seq<Frame>, rest: seq<Frame>, calls: seq<(nat, nat)>)
      requires Walking(fs, calls) && fs != [] && rest == fs[..|fs| - 1]
      requires fs[|fs| - 1].depth > 0 && fs[|fs| - 1].i >= b
      ensures Walking(rest, calls) && Further(view, fs, rest)
    {
      assert FrameOk(view, fs, |fs| - 1);
      Popped(view, fs);
      FrameInterval(b, fs[|fs| - 1]);
    }

    ghost predicate Walking(fs: seq<Frame>, calls: seq<(nat, nat)>)
      reads this, Repr
    {
      Valid() && FramesOk(view, fs) && Called(view.contents, calls, WalkPos(view, fs))
    }

    lemma FirstFrame(fs: seq<Frame>)
      requires Valid() && root != Null && fs == [Frame(0, root, depth, 0)]
      ensures Walking(fs, [])
    {
      assert FrameOk(view, fs, 0);
    }

    /** What a directory's frame visits next is what stands in the place below. */
    lemma EntryOfFrame(fs: seq<Frame>)
      requires Valid() && FramesOk(view, fs) && fs != [] && fs[|fs| - 1].depth > 0 && fs[|fs| - 1].i < b
      ensures var f := fs[|fs| - 1];
              && f.entry.Dir? && f.entry.dir.Length == b
              && f.entry.dir[f.i] == Expected(view, Below(b, Place(f.depth, f.key), f.i))
    {
      var f := fs[|fs| - 1];
      assert FrameOk(view, fs, |fs| - 1);
      assert DirFilled(view, Place(f.depth, f.key)) && EntryOk(view, Place(f.depth, f.key), f.i);
    }

    /** Moves the top frame to its next entry that is not empty. */
    method SkipEmpty(stack: array<Frame>, n: nat, ghost calls: seq<(nat, nat)>)
      requires 0 < n <= stack.Length && Walking(stack[..n], calls) && stack[n - 1].depth > 0
      modifies stack
      ensures Walking(stack[..n], calls)
      ensures var i := stack[n - 1].i;
              && old(stack[n - 1].i) <= i && stack[..n] == Moved(old(stack[..n]), i)
              && (i < b ==> Expected(view, Below(b, Place(stack[n - 1].depth, stack[n - 1].key), i)) != Null)
      ensures WalkPos(view, old(stack[..n])) <= WalkPos(view, stack[..n])
      ensures stack[n - 1].i != old(stack[n - 1].i) ==> WalkPos(view, old(stack[..n])) < WalkPos(view, stack[..n])
    {
      ghost var fs := stack[..n];
      while stack[n - 1].i < b
        invariant Walking(stack[..n], calls) && fs[n - 1].i <= stack[n - 1].i && stack[..n] == Moved(fs, stack[n - 1].i)
        invariant WalkPos(view, fs) <= WalkPos(view, stack[..n])
        invariant stack[n - 1].i != fs[n - 1].i ==> WalkPos(view, fs) < WalkPos(view, stack[..n])
        decreases b - stack[n - 1].i
      {
        EntryOfFrame(stack[..n]);
        var top := stack[n - 1];
        if top.entry.dir[top.i] != Null {
          break;
        }
        ghost var gs := stack[..n];
        Skipped(view, gs, calls);
        stack[n - 1] := top.(i := top.i + 1);
        assert stack[..n] == Moved(gs, top.i + 1);
      }
    }

    /** recursive_cleanup_dir: destroys the values or directories below a directory, and then the directory. */
    method CleanupDir(dir: array<Slot>, depth: nat, ghost p: Place) returns (freed: seq<Slot>, ghost places: seq<Place>)
      requires Valid() && p in view.dirs && view.dirs[p] == dir && p.level == depth
      ensures FreedAre(view, freed, places)
      ensures forall q :: Count(places, q) == if Within(view, q, p) then 1 else 0
      decreases depth
    {
      freed, places := [], [];
      assert DirFilled(view, p) && DirOk(view, p);
      var i := 0;
      while i < b
        invariant i <= b && FreedAre(view, freed, places)
        invariant forall q :: Count(places, q) == if WithinEntries(view, q, p, i) then 1 else 0
      {
        ghost var below, sofar := Below(b, p, i), places;
        assert EntryOk(view, p, i);
        var entry := dir[i];
        if entry.Dir? {
          var more;
          ghost var morePlaces;
          more, morePlaces := CleanupDir(entry.dir, depth - 1, below);
          freed, places := freed + more, places + morePlaces;
          NextEntryDone(view, p, i, sofar, morePlaces);
        } else if entry.Value? {
          freed, places := freed + [entry], places + [below];
          OneValue(view, below);
          NextEntryDone(view, p, i, sofar, [below]);
        } else {
          NothingWithin(view, below);
          NextEntryDone(view, p, i, sofar, []);
          assert places + [] == places;
        }
        i := i + 1;
      }
      DirectoryDone(view, p, places);
      freed, places := freed + [Dir(dir)], places + [p];
    }

    /** picotm_treemap_uninit: every value and every directory is destroyed exactly once, and nothing else. */
    method Uninit() returns (freed: seq<Slot>)
      requires Valid()
      ensures FreedAll(view, freed)
    {
      ghost var top, places: seq<Place> := Place(depth, 0), [];
      freed := [];
      if root.Dir? {
        freed, places := CleanupDir(root.dir, depth, top);
      } else if root.Value? {
        freed, places := [root], [top];
        OneValue(view, top);
      } else {
        NothingWithin(view, top);
      }
      forall q ensures Within(view, q, top) <==> Expected(view, q) != Null {
        AllWithinRoot(view, q);
      }
      assert FreedAre(view, freed, places);
    }
  }

  /** Without a directory there are no keys. */
  lemma {:induction false} NoKeyBelow(v: View, p: Place, key: nat)
    requires ViewOk(v) && 0 < p.level <= v.depth && p !in v.dirs && Prefix(key, p.level, v.b) == p.prefix
    ensures key !in v.contents
    decreases p.level
  {
    var q := Place(p.level - 1, Prefix(key, p.level - 1, v.b));
    PrefixUp(key, p.level - 1, v.b);
    PrefixBottom(key, v.b);
    if p.level == 1 {
      assert KeyOk(v, key);
    } else {
      assert DirOk(v, q);
      NoKeyBelow(v, q, key);
    }
  }

  /** The view changes in one place only, in which there was nothing. */
  ghost predicate Extends(v: View, w: View, p: Place) {
    && ViewOk(w) && w.b == v.b && w.depth == v.depth
    && (forall q :: q in v.dirs ==> q in w.dirs && w.dirs[q] == v.dirs[q])
    && (forall q :: q in w.dirs && q !in v.dirs ==> q == p)
    && (forall q :: q != p ==> Expected(w, q) == Expected(v, q))
  }

  lemma EntryOf(b: nat, q: Place, j: nat, p: Place)
    requires b > 0 && q.level > 0 && j < b
    ensures Below(b, q, j) == p <==> q == Above(b, p) && j == p.prefix % b
  {
    DivUnique(Below(b, q, j).prefix, b, q.prefix, j);
    assert p.prefix == b * (p.prefix / b) + p.prefix % b;
  }

  // ---------------------------------------------------------------------------------------------
  // The ordered walk
  // ---------------------------------------------------------------------------------------------

  /** An entry of the walk's stack: a slot's contents, its keys' prefix, its level, and the next entry to visit. */
  datatype Frame = Frame(key: nat, entry: Slot, depth: nat, i: nat)

  /** The smallest key that the walk has not passed when it is at this frame. */
  function FramePos(b: nat, f: Frame): nat
    requires b > 0
  {
    if f.depth == 0 then f.key else (f.key * b + f.i) * Pow(b, f.depth - 1)
  }

  /** Each frame but the first is the entry that the one below it has visited last. */
  ghost predicate FrameOk(v: View, fs: seq<Frame>, j: nat)
    requires v.b > 0 && j < |fs|
  {
    var f := fs[j];
    && f.depth == v.depth - j && f.entry == Expected(v, Place(f.depth, f.key)) && f.entry != Null && f.i <= v.b
    && (f.key + 1) * Pow(v.b, f.depth) <= Pow(v.b, v.depth)
    && (if j == 0 then f.key == 0 else f.key + 1 == fs[j - 1].key * v.b + fs[j - 1].i)
  }

  ghost predicate FramesOk(v: View, fs: seq<Frame>)
    requires v.b > 0
  {
    |fs| <= v.depth + 1 && forall j :: 0 <= j < |fs| ==> FrameOk(v, fs, j)
  }

  /** Where the walk is. */
  function WalkPos(v: View, fs: seq<Frame>): nat
    requires v.b > 0
  {
    if fs == [] then Pow(v.b, v.depth) else FramePos(v.b, fs[|fs| - 1])
  }

  /** The calls so far are those for all keys below the position, in increasing order. */
  ghost predicate Called(contents: map<nat, nat>, calls: seq<(nat, nat)>, pos: nat) {
    && (forall i, j :: 0 <= i < j < |calls| ==> calls[i].0 < calls[j].0)
    && (forall i :: 0 <= i < |calls| ==>
         calls[i].0 < pos && calls[i].0 in contents && contents[calls[i].0] == calls[i].1)
    && (forall k :: k in contents && k < pos ==> (k, contents[k]) in calls)
  }

  /** An empty slot stands for an interval without keys. */
  lemma NoKeysIn(v: View, p: Place, k: nat)
    requires ViewOk(v) && p.level <= v.depth && Expected(v, p) == Null
    requires p.prefix * Pow(v.b, p.level) <= k < (p.prefix + 1) * Pow(v.b, p.level)
    ensures k !in v.contents
  {
    PrefixRange(k, p.level, v.b, p.prefix);
    if p.level > 0 {
      NoKeyBelow(v, p, k);
    }
  }

  lemma CalledSkip(contents: map<nat, nat>, calls: seq<(nat, nat)>, lo: nat, hi: nat)
    requires Called(contents, calls, lo) && lo <= hi && forall k :: lo <= k < hi ==> k !in contents
    ensures Called(contents, calls, hi)
  {
  }

  lemma CalledFurther(v: View, p: Place, calls: seq<(nat, nat)>, lo: nat, hi: nat)
    requires ViewOk(v) && p.level <= v.depth && Expected(v, p) == Null
    requires lo == p.prefix * Pow(v.b, p.level) && hi == (p.prefix + 1) * Pow(v.b, p.level)
    requires Called(v.contents, calls, lo)
    ensures Called(v.contents, calls, hi)
  {
    forall k | lo <= k < hi ensures k !in v.contents {
      NoKeysIn(v, p, k);
    }
    ScaledSum(p.prefix, 1, 1, Pow(v.b, p.level));
    CalledSkip(v.contents, calls, lo, hi);
  }

  lemma ScaledSum(x: nat, b: nat, i: nat, d: nat)
    ensures (x * b + i) * d == x * (b * d) + i * d
    ensures x * (b * d) + b * d == (x + 1) * (b * d)
  {
    assert (x * b) * d == x * (b * d);
  }

  lemma CalledValue(contents: map<nat, nat>, calls: seq<(nat, nat)>, k: nat)
    requires Called(contents, calls, k) && k in contents
    ensures Called(contents, calls + [(k, contents[k])], k + 1)
  {
    var more := calls + [(k, contents[k])];
    forall j | j in contents && j < k + 1 ensures (j, contents[j]) in more {
      if j < k {
        assert (j, contents[j]) in calls;
      }
    }
  }

  /** The interval of a frame consists of those of its entries. */
  lemma FrameInterval(b: nat, f: Frame)
    requires b > 0 && f.depth > 0
    ensures f.i == 0 ==> FramePos(b, f) == f.key * Pow(b, f.depth)
    ensures f.i == b ==> FramePos(b, f) == (f.key + 1) * Pow(b, f.depth)
    ensures f.i <= b ==> FramePos(b, f) <= (f.key + 1) * Pow(b, f.depth)
  {
    ScaledSum(f.key, b, f.i, Pow(b, f.depth - 1));
    if f.i <= b {
      MulMono(Pow(b, f.depth - 1), f.i, b);
    }
  }

  /** All keys are below the position at which the walk ends. */
  lemma AllKeysBelow(v: View, k: nat)
    requires ViewOk(v) && k in v.contents
    ensures k < Pow(v.b, v.depth)
  {
    var p := Place(v.depth, Prefix(k, v.depth, v.b));
    PrefixTop(k, v.depth, v.b);
    if v.depth == 0 {
      assert KeyOk(v, k);
    } else {
      assert DirOk(v, p);
      if p !in v.dirs {
        NoKeyBelow(v, p, k);
      }
    }
  }

  /** Popping a finished frame does not move the walk. */
  lemma Popped(v: View, fs: seq<Frame>)
    requires ViewOk(v) && FramesOk(v, fs) && fs != []
    ensures FramesOk(v, fs[..|fs| - 1])
    ensures var f := fs[|fs| - 1]; WalkPos(v, fs[..|fs| - 1]) == (f.key + 1) * Pow(v.b, f.depth)
  {
    var n := |fs| - 1;
    var rest := fs[..n];
    assert FrameOk(v, fs, n);
    forall j | 0 <= j < n ensures FrameOk(v, rest, j) {
      assert FrameOk(v, fs, j);
    }
    if n > 0 {
      assert FrameOk(v, fs, n - 1);
    }
  }

  /** Passing a value calls back for its key. */
  lemma ValueDone(v: View, fs: seq<Frame>, rest: seq<Frame>, calls: seq<(nat, nat)>)
    requires ViewOk(v) && FramesOk(v, fs) && fs != [] && fs[|fs| - 1].depth == 0 && rest == fs[..|fs| - 1]
    requires Called(v.contents, calls, WalkPos(v, fs))
    ensures var f := fs[|fs| - 1];
            && f.entry.Value? && FramesOk(v, rest) && Called(v.contents, calls + [(f.key, f.entry.v)], WalkPos(v, rest))
            && WalkPos(v, rest) == WalkPos(v, fs) + 1
  {
    var f := fs[|fs| - 1];
    assert FrameOk(v, fs, |fs| - 1);
    Popped(v, fs);
    assert WalkPos(v, fs) == f.key && WalkPos(v, rest) == f.key + 1;
    CalledValue(v.contents, calls, f.key);
  }

  /** The top frame with its next entry at i. */
  ghost function Moved(fs: seq<Frame>, i: nat): seq<Frame>
    requires fs != []
  {
    fs[|fs| - 1 := fs[|fs| - 1].(i := i)]
  }

  /** Passing an empty entry moves the walk on. */
  lemma Skipped(v: View, fs: seq<Frame>, calls: seq<(nat, nat)>)
    requires ViewOk(v) && FramesOk(v, fs) && fs != []
    requires var f := fs[|fs| - 1];
             f.depth > 0 && f.i < v.b && Expected(v, Below(v.b, Place(f.depth, f.key), f.i)) == Null
    requires Called(v.contents, calls, WalkPos(v, fs))
    ensures var fs' := Moved(fs, fs[|fs| - 1].i + 1);
            FramesOk(v, fs') && WalkPos(v, fs) < WalkPos(v, fs') && Called(v.contents, calls, WalkPos(v, fs'))
  {
    var n := |fs| - 1;
    var f := fs[n];
    var fs' := Moved(fs, f.i + 1);
    assert FrameOk(v, fs, n);
    forall j | 0 <= j <= n ensures FrameOk(v, fs', j) {
      assert FrameOk(v, fs, j);
    }
    var d := Pow(v.b, f.depth - 1);
    ScaledSum(f.key * v.b + f.i, 1, 1, d);
    CalledFurther(v, Below(v.b, Place(f.depth, f.key), f.i), calls, WalkPos(v, fs), WalkPos(v, fs'));
  }

  /** The interval of an entry lies in that of its directory, and begins where the walk is. */
  lemma EntryInterval(b: nat, f: Frame, g: Frame, end: nat)
    requires b > 0 && f.depth > 0 && f.i < b && (f.key + 1) * Pow(b, f.depth) <= end
    requires g.key == f.key * b + f.i && g.depth == f.depth - 1 && g.i == 0
    ensures (g.key + 1) * Pow(b, g.depth) <= end && FramePos(b, g) == FramePos(b, f)
  {
    var d := Pow(b, g.depth);
    assert Pow(b, f.depth) == b * d;
    ScaledSum(f.key, b, f.i + 1, d);
    MulMono(d, f.i + 1, b);
    EntryBegins(b, f, g);
  }

  lemma EntryBegins(b: nat, f: Frame, g: Frame)
    requires b > 0 && f.depth > 0 && g.key == f.key * b + f.i && g.depth == f.depth - 1 && g.i == 0
    ensures FramePos(b, g) == FramePos(b, f)
  {
    ScaledSum(f.key, b, f.i, Pow(b, g.depth));
    if g.depth > 0 {
      FrameInterval(b, g);
    }
  }

  /** Entering a subdirectory, or a value, does not move the walk. */
  lemma Pushed(v: View, fs: seq<Frame>, entry: Slot)
    requires ViewOk(v) && FramesOk(v, fs) && fs != []
    requires var f := fs[|fs| - 1];
             f.depth > 0 && f.i < v.b && entry != Null && entry == Expected(v, Below(v.b, Place(f.depth, f.key), f.i))
    ensures var f := fs[|fs| - 1];
            var fs' := Moved(fs, f.i + 1) + [Frame(f.key * v.b + f.i, entry, f.depth - 1, 0)];
            FramesOk(v, fs') && WalkPos(v, fs') == WalkPos(v, fs)
  {
    var n := |fs| - 1;
    var f := fs[n];
    var g := Frame(f.key * v.b + f.i, entry, f.depth - 1, 0);
    var fs' := Moved(fs, f.i + 1) + [g];
    assert FrameOk(v, fs, n);
    forall j | 0 <= j <= n ensures FrameOk(v, fs', j) {
      assert FrameOk(v, fs, j);
    }
    EntryInterval(v.b, f, g, Pow(v.b, v.depth));
    assert FrameOk(v, fs', n + 1);
  }

  /** The walk never passes the end. */
  lemma PosBelowEnd(v: View, fs: seq<Frame>)
    requires ViewOk(v) && FramesOk(v, fs)
    ensures WalkPos(v, fs) <= Pow(v.b, v.depth)
  {
    if fs != [] {
      var f := fs[|fs| - 1];
      assert FrameOk(v, fs, |fs| - 1);
      if f.depth > 0 {
        FrameInterval(v.b, f);
      }
    }
  }

  /** The walk moves on, or it pops or pushes. */
  ghost predicate Further(v: View, fs: seq<Frame>, fs': seq<Frame>)
    requires v.b > 0
  {
    || WalkPos(v, fs) < WalkPos(v, fs')
    || (WalkPos(v, fs) == WalkPos(v, fs') && WalkRank(v.b, v.depth, fs') < WalkRank(v.b, v.depth, fs))
  }

  lemma FurtherOn(v: View, fs: seq<Frame>, gs: seq<Frame>, hs: seq<Frame>)
    requires v.b > 0 && (gs == fs || WalkPos(v, fs) < WalkPos(v, gs)) && Further(v, gs, hs)
    ensures Further(v, fs, hs)
  {
  }

  /** While the walk stays where it is, finished frames are popped first, and then frames are pushed. */
  function WalkRank(b: nat, depth: nat, fs: seq<Frame>): nat {
    if |fs| > depth + 1 then 0
    else if fs != [] && fs[|fs| - 1].depth > 0 && fs[|fs| - 1].i >= b then depth + 2 + |fs|
    else depth + 1 - |fs|
  }

  // ---------------------------------------------------------------------------------------------
  // Cleaning up
  // ---------------------------------------------------------------------------------------------

  /** What was freed stood in these places. */
  ghost predicate FreedAre(v: View, freed: seq<Slot>, places: seq<Place>) {
    |freed| == |places| && forall i :: 0 <= i < |freed| ==> freed[i] != Null && freed[i] == Expected(v, places[i])
  }

  /** What was freed are the contents of all occupied places, each of them once. */
  ghost predicate FreedAll(v: View, freed: seq<Slot>) {
    exists places ::
      && FreedAre(v, freed, places)
      && forall q :: Count(places, q) == if Expected(v, q) != Null then 1 else 0
  }

  /** q is an occupied place in the subtree of p. */
  ghost predicate Within(v: View, q: Place, p: Place)
    requires v.b > 0
  {
    Expected(v, q) != Null && q.level <= p.level && Ancestor(v.b, q, p.level) == p
  }

  /** q is an occupied place below the first i entries of p. */
  ghost predicate WithinEntries(v: View, q: Place, p: Place, i: nat)
    requires v.b > 0 && p.level > 0
  {
    Within(v, q, p) && q.level < p.level && Ancestor(v.b, q, p.level - 1).prefix % v.b < i
  }

  lemma NextEntryDone(v: View, p: Place, i: nat, places: seq<Place>, more: seq<Place>)
    requires v.b > 0 && p.level > 0 && i < v.b
    requires forall q :: Count(places, q) == if WithinEntries(v, q, p, i) then 1 else 0
    requires forall q :: Count(more, q) == if Within(v, q, Below(v.b, p, i)) then 1 else 0
    ensures forall q :: Count(places + more, q) == if WithinEntries(v, q, p, i + 1) then 1 else 0
  {
    forall q ensures Count(places + more, q) == if WithinEntries(v, q, p, i + 1) then 1 else 0 {
      CountBoth(places, more, q);
      if q.level < p.level {
        AncestorEntry(v.b, q, p, i);
      }
    }
  }

  lemma DirectoryDone(v: View, p: Place, places: seq<Place>)
    requires ViewOk(v) && p in v.dirs && p.level > 0
    requires forall q :: Count(places, q) == if WithinEntries(v, q, p, v.b) then 1 else 0
    ensures forall q :: Count(places + [p], q) == if Within(v, q, p) then 1 else 0
  {
    forall q ensures Count(places + [p], q) == if Within(v, q, p) then 1 else 0 {
      CountBoth(places, [p], q);
      assert Count([p], q) == if q == p then 1 else 0;
      PrefixBottom(q.prefix, v.b);
    }
  }

  lemma OneValue(v: View, p: Place)
    requires ViewOk(v) && p.level == 0 && Expected(v, p) != Null
    ensures forall q :: Count([p], q) == if Within(v, q, p) then 1 else 0
  {
    forall q ensures Count([p], q) == if Within(v, q, p) then 1 else 0 {
      assert Count([p], q) == if q == p then 1 else 0;
      PrefixBottom(q.prefix, v.b);
    }
  }

  /** Below an empty place everything is empty. */
  lemma NothingWithin(v: View, p: Place)
    requires ViewOk(v) && p.level <= v.depth && Expected(v, p) == Null
    ensures forall q :: !Within(v, q, p)
  {
    forall q ensures !Within(v, q, p) {
      if Within(v, q, p) {
        AncestorOccupied(v, q, p.level);
      }
    }
  }

  lemma {:induction false} AncestorOccupied(v: View, q: Place, level: nat)
    requires ViewOk(v) && Expected(v, q) != Null && q.level <= level <= v.depth
    ensures Expected(v, Ancestor(v.b, q, level)) != Null
    decreases level
  {
    if level == q.level {
      PrefixBottom(q.prefix, v.b);
    } else {
      AncestorOccupied(v, q, level - 1);
      var below := Ancestor(v.b, q, level - 1);
      PrefixUp(q.prefix, level - 1 - q.level, v.b);
      assert DirOk(v, below) && KeyOk(v, below.prefix);
    }
  }

  /** Everything is below the root. */
  lemma AllWithinRoot(v: View, q: Place)
    requires ViewOk(v)
    ensures Within(v, q, Place(v.depth, 0)) <==> Expected(v, q) != Null
  {
    if Expected(v, q) != Null {
      assert DirOk(v, q);
      AncestorOccupied(v, q, v.depth);
      var top := Ancestor(v.b, q, v.depth);
      assert DirOk(v, top) && KeyOk(v, top.prefix);
    }
  }
}
