/** The compare-and-swap loops of the reader/writer lock (src/picotm-lib-rwlock.c:168-431), one call
    at a time. Other threads may change the word just before each atomic read-modify-write: `env`
    lists the words they leave behind, one per operation, and after `env` is used up they pause. */
module RwLock {
  import opened Common
  import opened LockWord

  /** The word that an atomic operation finds after the first k interferences. */
  function Found(n: Byte, env: seq<Byte>, k: nat): Byte {
    if k == 0 || env == [] then n else if k <= |env| then env[k - 1] else env[|env| - 1]
  }

  class RwLock {
    var n: Byte

    constructor ()
      ensures n == 0
    {
      n := 0;
    }

    method Interfere(env: seq<Byte>, k: nat)
      modifies this
      ensures n == if k < |env| then env[k] else old(n)
    {
      if k < |env| {
        n := env[k];
      }
    }

    method CompareExchange(expected: Byte, desired: Byte) returns (succ: bool, seen: Byte)
      modifies this
      ensures seen == old(n) && succ == (old(n) == expected)
      ensures n == if succ then desired else old(n)
    {
      seen := n;
      succ := n == expected;
      if succ {
        n := desired;
      }
    }

    method FetchSub(k: nat)
      modifies this
      ensures n == Minus(old(n), k)
    {
      n := Minus(n, k);
    }

    /** Succeeds exactly on a word with less than 14 readers, no writer and no waiter, and then adds one reader to
        the word it found; a failing call leaves what the other threads wrote. */
    method TryRdlock(env: seq<Byte>) returns (succ: bool, k: nat)
      modifies this
      ensures succ == (Counter(Found(old(n), env, k)) < 14 && Index(Found(old(n), env, k)) == 0)
      ensures n == if succ then Found(old(n), env, k) + 1 else Found(old(n), env, k)
    {
      var m := n;
      k := 0;
      while true
        invariant k <= |env| + 1 && m == n == Found(old(n), env, k)
        decreases |env| + 1 - k
      {
        if Counter(m) == WRITER_COUNTER || Counter(m) == WRITER_COUNTER - 1 || Index(m) != 0 {
          return false, k;
        }
        var expected, desired := Pack(Counter(m), 0), Pack(Counter(m) + 1, 0);
        UnpackPack(m);
        Interfere(env, k);
        k := k + 1;
        var seen;
        succ, seen := CompareExchange(expected, desired);
        if succ {
          return true, k;
        }
        m := seen;
      }
    }

    /** Succeeds exactly on a word with no lock holder and no waiter, and makes it a writer's word. */
    method TryWrlock(env: seq<Byte>) returns (succ: bool, k: nat)
      modifies this
      ensures succ == (Counter(Found(old(n), env, k)) == 0 && Index(Found(old(n), env, k)) == 0)
      ensures n == if succ then Pack(WRITER_COUNTER, 0) else Found(old(n), env, k)
    {
      var m := n;
      k := 0;
      while true
        invariant k <= |env| + 1 && m == n == Found(old(n), env, k)
        decreases |env| + 1 - k
      {
        if Counter(m) != 0 || Index(m) != 0 {
          return false, k;
        }
        UnpackPack(m);
        Interfere(env, k);
        k := k + 1;
        var seen;
        succ, seen := CompareExchange(Pack(0, 0), Pack(WRITER_COUNTER, 0));
        if succ {
          return true, k;
        }
        m := seen;
      }
    }

    /** Succeeds exactly if the caller is the only reader, whatever the waiter index is meanwhile. The
        callers' words always count the caller itself, so the counter is never zero. */
    method TryUplock(env: seq<Byte>) returns (succ: bool, k: nat)
      requires Counter(n) != 0 && forall i :: 0 <= i < |env| ==> Counter(env[i]) != 0
      modifies this
      ensures succ == (Counter(Found(old(n), env, k)) == 1)
      ensures Index(n) == Index(Found(old(n), env, k))
      ensures Counter(n) == if succ then WRITER_COUNTER else Counter(Found(old(n), env, k))
    {
      var m := n;
      k := 0;
      while true
        invariant k <= |env| + 1 && m == n == Found(old(n), env, k)
        decreases |env| + 1 - k
      {
        assert Counter(m) != 0;
        if Counter(m) != 1 {
          return false, k;
        }
        UnpackPack(m);
        PackUnpack(WRITER_COUNTER, Index(m));
        Interfere(env, k);
        k := k + 1;
        var seen;
        succ, seen := CompareExchange(Pack(1, Index(m)), Pack(WRITER_COUNTER, Index(m)));
        if succ {
          return true, k;
        } else if Counter(m) == Counter(seen) {
          m := seen;
        } else {
          return false, k;
        }
      }
    }

    /** Reads the word, then subtracts what a lock of the kind that it read had added. If the other
        threads leave the caller's own lock alone, the index stays and the caller's share is gone. */
    method Unlock(env: seq<Byte>) returns (wakeUp: bool)
      requires Counter(n) != 0
      requires env != [] ==>
                 Counter(env[0]) != 0 && (Counter(env[0]) == WRITER_COUNTER <==> Counter(n) == WRITER_COUNTER)
      modifies this
      ensures wakeUp == (Index(old(n)) != 0)
      ensures Index(n) == Index(Found(old(n), env, 1))
      ensures Counter(n) == if Counter(old(n)) == WRITER_COUNTER then 0 else Counter(Found(old(n), env, 1)) - 1
    {
      var m := n;
      var share := if Counter(m) == WRITER_COUNTER then WRITER_COUNTER else 1;
      Interfere(env, 0);
      MinusKeepsIndex(n, share);
      FetchSub(share);
      wakeUp := Index(m) != 0;
    }

    /** Returns the expected index exactly if it installed the desired one; the counter stays as found. */
    method CompareExchangeIndex(expected: nat, desired: nat, env: seq<Byte>) returns (result: nat, k: nat)
      requires expected < COUNTER_SIZE && desired < COUNTER_SIZE
      modifies this
      ensures result == Index(Found(old(n), env, k))
      ensures Counter(n) == Counter(Found(old(n), env, k))
      ensures Index(n) == if result == expected then desired else result
    {
      var m := n;
      k := 0;
      while true
        invariant k <= |env| + 1 && m == n == Found(old(n), env, k)
        decreases |env| + 1 - k
      {
        if Index(m) != expected {
          return Index(m), k;
        }
        UnpackPack(m);
        PackUnpack(Counter(m), desired);
        Interfere(env, k);
        k := k + 1;
        var succ, seen := CompareExchange(Pack(Counter(m), expected), Pack(Counter(m), desired));
        if succ {
          return Index(seen), k;
        } else if Index(seen) != Index(m) {
          return Index(seen), k;
        }
        m := seen;
      }
    }
  }
}
