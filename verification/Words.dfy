/** 32-byte words, powers of two and the pair hash shared by all other modules. */
module Words {

  datatype Option<+T> = None | Some(value: T) {
    predicate IsFailure() { None? }

    function PropagateFailure<U>(): Option<U>
      requires None?
    {
      None
    }

    function Extract(): T
      requires Some?
    {
      value
    }
  }

  const TWO_256: int := 0x1_0000_0000_0000_0000_0000_0000_0000_0000_0000_0000_0000_0000_0000_0000_0000_0000

  /** A 32-byte word, read as a big-endian unsigned integer. */
  type Bytes32 = w: nat | w < TWO_256

  /** SHA-256 of two concatenated words; it is never interpreted. */
  type PairHash = (Bytes32, Bytes32) -> Bytes32

  function Pow2(n: nat): (p: nat)
    ensures p >= 1
  {
    if n == 0 then 1 else 2 * Pow2(n - 1)
  }

  /** The number of times n can be halved before it reaches 1 (or 0). */
  function Log2(n: nat): nat {
    if n <= 1 then 0 else 1 + Log2(n / 2)
  }

  predicate IsPow2(n: nat) {
    n == 1 || (n > 1 && n % 2 == 0 && IsPow2(n / 2))
  }

  lemma {:induction false} Pow2IsPow2(d: nat)
    ensures IsPow2(Pow2(d)) && Log2(Pow2(d)) == d
  {
    if d > 0 {
      Pow2IsPow2(d - 1);
      assert Pow2(d) / 2 == Pow2(d - 1);
    }
  }

  lemma {:induction false} Pow2OfLog2(n: nat)
    requires IsPow2(n)
    ensures Pow2(Log2(n)) == n
  {
    if n > 1 {
      Pow2OfLog2(n / 2);
    }
  }

  /** Halving n shifts its generalized depth down by one. */
  lemma {:induction false} Log2Bounds(n: nat)
    requires n >= 1
    ensures Pow2(Log2(n)) <= n < 2 * Pow2(Log2(n))
  {
    if n > 1 {
      Log2Bounds(n / 2);
    }
  }

  lemma {:induction false} Pow2Add(a: nat, b: nat)
    ensures Pow2(a + b) == Pow2(a) * Pow2(b)
  {
    if a > 0 {
      Pow2Add(a - 1, b);
      assert 2 * (Pow2(a - 1) * Pow2(b)) == (2 * Pow2(a - 1)) * Pow2(b);
    }
  }

  lemma MulMono(a: nat, b: nat, p: nat)
    requires a <= b
    ensures a * p <= b * p
  {
  }

  /** Shifts x right by n bits. */
  function Shr(x: nat, n: nat): nat
    decreases n
  {
    if n == 0 then x else Shr(x / 2, n - 1)
  }

  /** Bit n of x. */
  function Bit(x: nat, n: nat): nat {
    Shr(x, n) % 2
  }

  lemma {:induction false} ShrStep(x: nat, n: nat)
    ensures Shr(x, n + 1) == Shr(x, n) / 2
    decreases n
  {
    if n > 0 {
      ShrStep(x / 2, n - 1);
    }
  }

  lemma {:induction false} ShrAdd(x: nat, m: nat, n: nat)
    ensures Shr(x, m + n) == Shr(Shr(x, m), n)
    decreases m
  {
    if m > 0 {
      ShrAdd(x / 2, m - 1, n);
    }
  }

  /** A right shift by n leaves 1 exactly when n is the position of the highest set bit. */
  lemma {:induction false} TopBit(g: nat, n: nat)
    ensures Shr(g, n) == 1 <==> g >= 1 && Log2(g) == n
    decreases n
  {
    if n > 0 {
      if g >= 2 {
        TopBit(g / 2, n - 1);
      } else {
        ShrZero(n - 1);
      }
    }
  }

  lemma {:induction false} ShrZero(n: nat)
    ensures Shr(0, n) == 0
  {
    if n > 0 {
      ShrZero(n - 1);
    }
  }

  /** The bits of a followed by the n bits of r: the concatenation of two generalized indices. */
  function Concat(a: nat, n: nat, r: nat): nat {
    a * Pow2(n) + r
  }

  lemma HalveSum(a: nat, n: nat, r: nat)
    ensures Concat(a, n + 1, r) / 2 == Concat(a, n, r / 2)
    ensures Concat(a, n + 1, r) % 2 == r % 2
  {
    assert a * Pow2(n + 1) == 2 * (a * Pow2(n));
  }

  /** The n low bits of a concatenation of bits are those of its lower part. */
  lemma {:induction false} ShrConcat(a: nat, n: nat, r: nat)
    requires r < Pow2(n)
    ensures Shr(Concat(a, n, r), n) == a
    decreases n
  {
    if n > 0 {
      HalveSum(a, n - 1, r);
      ShrConcat(a, n - 1, r / 2);
    }
  }
}
