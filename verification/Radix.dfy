/** The arithmetic of the radix trees (src/picotm-lib-treemap.c:217-235, src/picotm-lib-shared-treemap.c:142-160,
    241-252). Shifts are divisions, and a directory or value is named by its level and its keys' common prefix. */
module Radix {
  import opened Common

  function Pow(b: nat, n: nat): (r: nat)
    requires b > 0
    ensures r > 0
  {
    if n == 0 then 1 else b * Pow(b, n - 1)
  }

  /** level_nentries: at least two entries, since level_nbits is at least one. */
  function Entries(levelBits: nat): (b: nat)
    requires levelBits >= 1
    ensures b >= 2
  {
    2 * Pow(2, levelBits - 1)
  }

  /** key_depth_prefix. */
  function Prefix(key: nat, depth: nat, b: nat): nat
    requires b > 0
  {
    key / Pow(b, depth)
  }

  /** entry_index. */
  function Index(key: nat, depth: nat, b: nat): (i: nat)
    requires b > 0
    ensures i < b
  {
    Prefix(key, depth, b) % b
  }

  lemma Distribute(a: nat, b: nat, q: nat, r: nat)
    ensures a * (b * q + r) == (a * b) * q + a * r
  {
  }

  lemma RestFits(a: nat, b: nat, r: nat, s: nat)
    requires r < b && s < a
    ensures a * r + s < a * b
  {
    MulMono(a, r + 1, b);
  }

  lemma DivDiv(x: nat, a: nat, b: nat)
    requires a > 0 && b > 0
    ensures a * b > 0 && x / (a * b) == x / a / b
  {
    var q, s := x / a, x % a;
    var p, r := q / b, q % b;
    RestFits(a, b, r, s);
    Distribute(a, b, p, r);
    assert x == a * (b * p + r) + s;
    DivUnique(x, a * b, p, a * r + s);
  }

  lemma MulMono(a: nat, x: nat, y: nat)
    requires x <= y
    ensures a * x <= a * y
  {
  }

  lemma DivUnique(x: nat, d: nat, q: nat, r: nat)
    requires d > 0 && x == d * q + r && r < d
    ensures x / d == q && x % d == r
  {
    var q', r' := x / d, x % d;
    assert d * q' + r' == d * q + r;
    if q' < q {
      MulMono(d, q' + 1, q);
    } else if q < q' {
      MulMono(d, q + 1, q');
    }
  }

  lemma DivLess(x: nat, d: nat, q: nat)
    requires d > 0 && x < d * q
    ensures x / d < q
  {
    assert x == d * (x / d) + x % d;
    if q <= x / d {
      MulMono(d, q, x / d);
      assert false;
    }
  }

  lemma DivShrinks(x: nat, b: nat)
    requires x > 0 && b >= 2
    ensures x / b < x
  {
    MulMono(x, 2, b);
    DivLess(x, b, x);
  }

  /** The prefix one level up, and the way back down. */
  lemma PrefixUp(key: nat, depth: nat, b: nat)
    requires b > 0
    ensures Prefix(key, depth + 1, b) == Prefix(key, depth, b) / b
    ensures Prefix(key, depth, b) == Prefix(key, depth + 1, b) * b + Index(key, depth, b)
  {
    assert Pow(b, depth + 1) == Pow(b, depth) * b;
    DivDiv(key, Pow(b, depth), b);
  }

  lemma PrefixBottom(key: nat, b: nat)
    requires b > 0
    ensures Prefix(key, 0, b) == key
  {
  }

  lemma PrefixTop(key: nat, depth: nat, b: nat)
    requires b > 0
    ensures Prefix(key, depth, b) == 0 <==> key < Pow(b, depth)
  {
    if key < Pow(b, depth) {
      DivUnique(key, Pow(b, depth), 0, key);
    } else {
      MulMono(Pow(b, depth), 1, Prefix(key, depth, b));
    }
  }

  /** Below a prefix lies an interval of keys. */
  lemma PrefixRange(key: nat, depth: nat, b: nat, p: nat)
    requires b > 0
    ensures Prefix(key, depth, b) == p <==> p * Pow(b, depth) <= key < (p + 1) * Pow(b, depth)
  {
    var d := Pow(b, depth);
    assert key == d * (key / d) + key % d;
    if p * d <= key < (p + 1) * d {
      DivUnique(key, d, p, key - p * d);
    }
  }

  // ---------------------------------------------------------------------------------------------
  // The depth of a tree for keys of a given width
  // ---------------------------------------------------------------------------------------------

  /** tree_depth. */
  function TreeDepth(keyBits: nat, levelBits: nat): (depth: nat)
    requires levelBits >= 1
    decreases keyBits
  {
    if keyBits == 0 then 0 else 1 + TreeDepth(keyBits - Min(keyBits, levelBits), levelBits)
  }

  method ComputeTreeDepth(keyBits: nat, levelBits: nat) returns (depth: nat)
    requires levelBits >= 1
    ensures depth == TreeDepth(keyBits, levelBits)
  {
    var rest := keyBits;
    depth := 0;
    while rest != 0
      invariant 0 <= rest <= keyBits && depth + TreeDepth(rest, levelBits) == TreeDepth(keyBits, levelBits)
      decreases rest
    {
      depth := depth + 1;
      rest := rest - Min(rest, levelBits);
    }
  }

  lemma {:induction false} DepthCovers(keyBits: nat, levelBits: nat)
    requires levelBits >= 1
    ensures TreeDepth(keyBits, levelBits) * levelBits >= keyBits
    ensures keyBits > 0 ==> (TreeDepth(keyBits, levelBits) - 1) * levelBits < keyBits
    decreases keyBits
  {
    if keyBits > 0 {
      var rest := keyBits - Min(keyBits, levelBits);
      DepthCovers(rest, levelBits);
      var d := TreeDepth(rest, levelBits);
      assert (d + 1) * levelBits == d * levelBits + levelBits;
      assert rest > 0 ==> (d - 1) * levelBits == d * levelBits - levelBits;
      assert rest == 0 ==> d == 0;
    }
  }

  lemma {:induction false} PowAdd(b: nat, m: nat, n: nat)
    requires b > 0
    ensures Pow(b, m + n) == Pow(b, m) * Pow(b, n)
  {
    if m > 0 {
      PowAdd(b, m - 1, n);
      assert b * (Pow(b, m - 1) * Pow(b, n)) == (b * Pow(b, m - 1)) * Pow(b, n);
    }
  }

  lemma {:induction false} PowEntries(levelBits: nat, depth: nat)
    requires levelBits >= 1
    ensures Pow(Entries(levelBits), depth) == Pow(2, depth * levelBits)
  {
    if depth > 0 {
      PowEntries(levelBits, depth - 1);
      assert depth * levelBits == levelBits + (depth - 1) * levelBits;
      PowAdd(2, levelBits, (depth - 1) * levelBits);
    }
  }

  lemma {:induction false} PowGrows(b: nat, m: nat, n: nat)
    requires b >= 1 && m <= n
    ensures Pow(b, m) <= Pow(b, n)
  {
    if m > 0 {
      PowGrows(b, m - 1, n - 1);
      MulMono(b, Pow(b, m - 1), Pow(b, n - 1));
    }
  }

  /** Every key of the given width fits below the root of a tree of that depth. */
  lemma KeysFit(key: nat, keyBits: nat, levelBits: nat)
    requires levelBits >= 1 && key < Pow(2, keyBits)
    ensures Prefix(key, TreeDepth(keyBits, levelBits), Entries(levelBits)) == 0
  {
    var depth := TreeDepth(keyBits, levelBits);
    DepthCovers(keyBits, levelBits);
    PowEntries(levelBits, depth);
    PowGrows(2, keyBits, depth * levelBits);
    PrefixTop(key, depth, Entries(levelBits));
  }

  /** The indices that a descent from the root uses. */
  function IndexPath(key: nat, depth: nat, b: nat): seq<nat>
    requires b > 0
  {
    if depth == 0 then [] else [Index(key, depth - 1, b)] + IndexPath(key, depth - 1, b)
  }

  /** Keys below the root that use the same path are the same key. */
  lemma {:induction false} PathsAreInjective(k1: nat, k2: nat, depth: nat, b: nat)
    requires b > 0 && IndexPath(k1, depth, b) == IndexPath(k2, depth, b)
    requires Prefix(k1, depth, b) == Prefix(k2, depth, b)
    ensures k1 == k2
  {
    if depth > 0 {
      var p1, p2 := IndexPath(k1, depth, b), IndexPath(k2, depth, b);
      assert p1[0] == p2[0] && p1[1..] == IndexPath(k1, depth - 1, b) && p2[1..] == IndexPath(k2, depth - 1, b);
      PrefixUp(k1, depth - 1, b);
      PrefixUp(k2, depth - 1, b);
      PathsAreInjective(k1, k2, depth - 1, b);
    }
  }

  // ---------------------------------------------------------------------------------------------
  // Places in a tree
  // ---------------------------------------------------------------------------------------------

  /** The level above the values, and the prefix that the keys below have in common. */
  datatype Place = Place(level: nat, prefix: nat)

  function Above(b: nat, place: Place): Place
    requires b > 0
  {
    Place(place.level + 1, place.prefix / b)
  }

  function Below(b: nat, place: Place, i: nat): Place
    requires place.level > 0
  {
    Place(place.level - 1, place.prefix * b + i)
  }

  /** The place above q at the given level. */
  function Ancestor(b: nat, q: Place, level: nat): Place
    requires b > 0 && q.level <= level
  {
    Place(level, Prefix(q.prefix, level - q.level, b))
  }

  /** What is below p is below one of its entries, and what is below an entry is below p. */
  lemma AncestorEntry(b: nat, q: Place, p: Place, i: nat)
    requires b > 0 && q.level < p.level && i < b
    ensures Ancestor(b, q, p.level - 1) == Below(b, p, i) <==>
            Ancestor(b, q, p.level) == p && Ancestor(b, q, p.level - 1).prefix % b == i
  {
    var a := Ancestor(b, q, p.level - 1);
    PrefixUp(q.prefix, p.level - 1 - q.level, b);
    DivUnique(Below(b, p, i).prefix, b, p.prefix, i);
    if a.prefix / b == p.prefix && a.prefix % b == i {
      assert a.prefix == b * (a.prefix / b) + a.prefix % b;
    }
  }
}
