/** The one-byte lock word: reader/writer counter in the low four bits, index of the first waiter
    in the high four bits (src/picotm-lib-rwlock.c:29-107). */
module LockWord {
  import opened Common

  const COUNTER_SIZE: nat := 16
  const WRITER_COUNTER: nat := 15

  function Counter(n: Byte): nat {
    n % COUNTER_SIZE
  }

  function Index(n: Byte): nat {
    n / COUNTER_SIZE
  }

  /** Shifted into the high bits; indices above 15 lose bits. */
  function IndexBits(index: nat): Byte {
    index % COUNTER_SIZE * COUNTER_SIZE
  }

  /** A counter and an index combined with a bitwise or of their disjoint bits. */
  function Pack(counter: nat, index: nat): Byte
    requires counter < COUNTER_SIZE
  {
    IndexBits(index) + counter
  }

  lemma PackUnpack(counter: nat, index: nat)
    requires counter < COUNTER_SIZE
    ensures Counter(Pack(counter, index)) == counter
    ensures Index(Pack(counter, index)) == index <==> index < COUNTER_SIZE
  {
  }

  lemma UnpackPack(n: Byte)
    ensures Counter(n) < COUNTER_SIZE && Index(n) < COUNTER_SIZE && Pack(Counter(n), Index(n)) == n
  {
  }

  /** fetch_sub on an unsigned byte wraps around. */
  function Minus(n: Byte, k: nat): Byte {
    (n - k) % 256
  }

  /** Subtracting no more than the counter holds never borrows from the index bits. */
  lemma MinusKeepsIndex(n: Byte, k: nat)
    requires k <= Counter(n)
    ensures Counter(Minus(n, k)) == Counter(n) - k && Index(Minus(n, k)) == Index(n)
  {
  }

  // The words on which each try-lock function succeeds.

  predicate CanRdlock(n: Byte) {
    Counter(n) < WRITER_COUNTER - 1 && Index(n) == 0
  }

  predicate CanWrlock(n: Byte) {
    Counter(n) == 0 && Index(n) == 0
  }

  predicate CanUplock(n: Byte) {
    Counter(n) == 1
  }
}
