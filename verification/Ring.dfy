/** Both ends keep packet k in slot k % windowSize of a ring. */
module Ring {

  /** The remainder `k % size`, as SlotIsRemainder says; by subtraction, so that no proof
      about the rings needs division by a variable. */
  function Slot(k: nat, size: nat): (s: nat)
    requires size > 0
    ensures s < size
  {
    if k < size then k else Slot(k - size, size)
  }

  lemma {:induction false} SlotIsRemainder(k: nat, size: nat)
    requires size > 0
    ensures Slot(k, size) == k % size
  {
    if k >= size {
      SlotIsRemainder(k - size, size);
      SubtractingKeepsRemainder(k, size);
    }
  }

  lemma SubtractingKeepsRemainder(k: nat, size: nat)
    requires size > 0 && k >= size
    ensures (k - size) % size == k % size
  {
    var q, q' := k / size, (k - size) / size;
    var r, r' := k % size, (k - size) % size;
    assert k == size * q + r && k - size == size * q' + r';
    assert size * q - size * q' - size == size * (q - q' - 1);
    if q - q' - 1 != 0 {
      NonZeroMultiple(q - q' - 1, size);
    }
  }

  lemma NonZeroMultiple(d: int, size: nat)
    requires size > 0 && d != 0
    ensures size * d >= size || size * d <= -(size as int)
  {
    if d >= 1 {
      assert size * d >= size * 1;
    } else {
      assert size * d <= size * -1;
    }
  }

  /** Two different numbers less than a window apart never share a slot. */
  lemma {:induction false} SlotsDiffer(a: nat, b: nat, size: nat)
    requires size > 0 && a < b < a + size
    ensures Slot(a, size) != Slot(b, size)
  {
    if a >= size {
      SlotsDiffer(a - size, b - size, size);
    }
  }

  /** A whole window further on, the slot is the same. */
  lemma SlotRepeats(k: nat, size: nat)
    requires size > 0
    ensures Slot(k + size, size) == Slot(k, size)
  {
  }

  /** The entries of a map from number `n` on. */
  function From<T>(m: map<nat, T>, n: nat): map<nat, T> {
    map k | k in m && k >= n :: m[k]
  }

  lemma FromNext<T>(m: map<nat, T>, n: nat)
    ensures From(m, n) - {n} == From(m, n + 1)
  {
  }
}
