/** Index arithmetic of the circular message buffer (publish.h:15-16).
    The C code computes every slot as `(head + i) % size`; the functions here
    keep that expression and also give its closed form, so that the rest of the
    model reasons linearly. */
module Ring {

  /** For `0 <= x < 2 * n`, taking `x % n` subtracts `n` at most once. */
  lemma ModOnce(x: int, n: int)
    requires 0 < n && 0 <= x < 2 * n
    ensures x % n == if x < n then x else x - n
  {
    if x >= n {
      assert (x - n) % n == x % n;
    }
  }

  /** The buffer slot `i` places after `head`, as `(head + i) % size`
      (publish.c:91, publish.c:116, publish.c:255). */
  function Slot(head: nat, i: nat, size: nat): (k: nat)
    requires head < size && i <= size
    ensures k < size
    ensures k == if head + i < size then head + i else head + i - size
  {
    ModOnce(head + i, size);
    (head + i) % size
  }

  /** The successor of an index on the ring, `(x + 1) % size`
      (publish.c:156, publish.c:220). */
  function Next(x: nat, size: nat): (y: nat)
    requires x < size
    ensures y < size
    ensures y == if x + 1 == size then 0 else x + 1
  {
    ModOnce(x + 1, size);
    (x + 1) % size
  }

  /** How many places slot `k` lies after `head`: the inverse of `Slot`. */
  function Offset(head: nat, k: nat, size: nat): (i: nat)
    requires head < size && k < size
    ensures i < size
  {
    if head <= k then k - head else k + size - head
  }

  /** `Offset` undoes `Slot`, and `Slot` undoes `Offset`. */
  lemma SlotOffsetInverse(head: nat, size: nat)
    requires head < size
    ensures forall i :: 0 <= i < size ==> Offset(head, Slot(head, i, size), size) == i
    ensures forall k :: 0 <= k < size ==> Slot(head, Offset(head, k, size), size) == k
  {
  }
}
