/** What several components share: bytes, lock states, and sequences without repetitions. */
module Common {
  type Byte = n: int | 0 <= n < 256

  /** The status field of a reader/writer lock state (src/picotm-lib-rwstate.h). */
  datatype LockStatus = Unlocked | RdLocked | WrLocked

  function Min(a: nat, b: nat): nat {
    if a < b then a else b
  }

  predicate Distinct<E(==)>(s: seq<E>) {
    forall i, j :: 0 <= i < j < |s| ==> s[i] != s[j]
  }

  function Inserted<E>(s: seq<E>, i: nat, e: E): seq<E>
    requires i <= |s|
  {
    s[..i] + [e] + s[i..]
  }

  function Removed<E>(s: seq<E>, i: nat): seq<E>
    requires i < |s|
  {
    s[..i] + s[i + 1..]
  }

  /** How often something occurs. */
  function Count<T(==)>(xs: seq<T>, x: T): nat {
    if xs == [] then 0 else (if xs[0] == x then 1 else 0) + Count(xs[1..], x)
  }

  lemma {:induction false} CountBoth<T>(xs: seq<T>, ys: seq<T>, x: T)
    ensures Count(xs + ys, x) == Count(xs, x) + Count(ys, x)
  {
    if xs == [] {
      assert xs + ys == ys;
    } else {
      assert (xs + ys)[1..] == xs[1..] + ys;
      CountBoth(xs[1..], ys, x);
    }
  }

  lemma {:induction false} CountDistinct<T>(xs: seq<T>, x: T)
    requires Distinct(xs)
    ensures Count(xs, x) == if x in xs then 1 else 0
  {
    if xs != [] {
      CountDistinct(xs[1..], x);
      assert forall i :: 0 <= i < |xs[1..]| ==> xs[1..][i] == xs[i + 1];
    }
  }

  lemma {:induction false} CountUpdate<T>(xs: seq<T>, t: nat, y: T, x: T)
    requires t < |xs|
    ensures Count(xs[t := y], x) + (if xs[t] == x then 1 else 0) == Count(xs, x) + (if y == x then 1 else 0)
  {
    if t > 0 {
      assert xs[t := y][1..] == xs[1..][t - 1 := y];
      CountUpdate(xs[1..], t - 1, y, x);
    }
  }

  lemma {:induction false} CountPositive<T>(xs: seq<T>, t: nat)
    requires t < |xs|
    ensures Count(xs, xs[t]) > 0
  {
    if t > 0 {
      CountPositive(xs[1..], t - 1);
    }
  }

  lemma {:induction false} CountTwo<T>(xs: seq<T>, t: nat, u: nat)
    requires t < u < |xs| && xs[t] == xs[u]
    ensures Count(xs, xs[t]) > 1
  {
    if t == 0 {
      CountPositive(xs[1..], u - 1);
    } else {
      CountTwo(xs[1..], t - 1, u - 1);
    }
  }

  lemma {:induction false} CountNone<T>(xs: seq<T>, x: T)
    requires x !in xs
    ensures Count(xs, x) == 0
  {
    if xs != [] {
      CountNone(xs[1..], x);
    }
  }
}
