/** Bytes, 16-bit integers, optional values, powers of two, and places in a ring. */
module Common {
  type Byte = x: nat | x < 256

  datatype Option<T> = None | Some(value: T)

  predicate IsShort(x: int) {
    -0x8000 <= x < 0x8000
  }

  /** Conversion to a 16-bit integer. */
  function Short(x: int): (r: int)
    ensures IsShort(r) && (IsShort(x) ==> r == x)
  {
    (x + 0x8000) % 0x1_0000 - 0x8000
  }

  ghost function Pow2(n: nat): (r: nat)
    ensures r > 0
  {
    if n == 0 then 1 else 2 * Pow2(n - 1)
  }

  lemma Distribute(a: int, b: int, c: int)
    ensures (a + b) * c == a * c + b * c && (a - b) * c == a * c - b * c
  {
  }

  lemma MulGap(p: int, q: int, c: int)
    requires p < q && c > 0
    ensures p * c + c <= q * c
  {
    assert (q - p - 1) * c >= 0;
    Distribute(q - p, 1, c);
    Distribute(q, p, c);
  }

  /** Where a ring keeps the `k`th of the things that go through it. */
  function Slot(k: nat, size: nat): (s: nat)
    requires size > 0
    ensures s < size
  {
    k % size
  }

  lemma SlotsDiffer(i: nat, j: nat, size: nat)
    requires i < j < i + size
    ensures Slot(i, size) != Slot(j, size)
  {
    var p, q := i / size, j / size;
    assert i == p * size + i % size && j == q * size + j % size;
    if p < q { MulGap(p, q, size); } else if q < p { MulGap(q, p, size); }
  }
}
