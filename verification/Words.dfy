/** Unsigned machine words as the library uses them: 64-bit wrap-around, the bitwise AND that
    masks ring indices, and the powers of two that make masking and wrapping agree. */
module Words {

  const TWO_TO_64: nat := 0x1_0000_0000_0000_0000
  const MAX_U64: nat := 0xFFFF_FFFF_FFFF_FFFF
  const MAX_U32: nat := 0xFFFF_FFFF

  type u8 = x: int | 0 <= x < 0x100
  type u16 = x: int | 0 <= x < 0x1_0000
  type u32 = x: int | 0 <= x < 0x1_0000_0000
  type u64 = x: int | 0 <= x < 0x1_0000_0000_0000_0000
  type i64 = x: int | -0x8000_0000_0000_0000 <= x < 0x8000_0000_0000_0000

  /** What an unsigned 64-bit register holds after an operation whose exact result is `x`. */
  function Wrap(x: int): u64 {
    x % TWO_TO_64
  }

  function Pow2(k: nat): (p: nat)
    ensures p >= 1
  {
    if k == 0 then 1 else 2 * Pow2(k - 1)
  }

  /** Bitwise AND, bit by bit. */
  function BitAnd(a: nat, b: nat): (r: nat)
    ensures r <= a && r <= b
  {
    if a == 0 || b == 0 then 0 else 2 * BitAnd(a / 2, b / 2) + (if a % 2 == 1 && b % 2 == 1 then 1 else 0)
  }

  /** The compile-time test on a ring capacity. */
  predicate IsPowerOfTwo(n: nat) {
    n != 0 && BitAnd(n, n - 1) == 0
  }

  lemma {:induction false} BitAndSelf(a: nat)
    ensures BitAnd(a, a) == a
  {
    if a != 0 {
      BitAndSelf(a / 2);
    }
  }

  lemma {:induction false} PowerOfTwoHasExponent(n: nat) returns (k: nat)
    requires IsPowerOfTwo(n)
    ensures n == Pow2(k)
  {
    if n == 1 {
      k := 0;
    } else if n % 2 == 1 {
      BitAndSelf(n / 2);
      assert false;
    } else {
      assert (n - 1) / 2 == n / 2 - 1;
      var j := PowerOfTwoHasExponent(n / 2);
      k := j + 1;
    }
  }

  lemma {:induction false} ExponentGivesPowerOfTwo(k: nat)
    ensures IsPowerOfTwo(Pow2(k))
  {
    if k != 0 {
      ExponentGivesPowerOfTwo(k - 1);
      var h := Pow2(k - 1);
      assert (2 * h) / 2 == h && (2 * h - 1) / 2 == h - 1 && (2 * h) % 2 == 0;
    }
  }

  lemma {:induction false} MaskIsMod(a: nat, k: nat)
    ensures BitAnd(a, Pow2(k) - 1) == a % Pow2(k)
  {
    if a == 0 {
      ModIsUnique(0, Pow2(k), 0, 0);
    } else if k != 0 {
      MaskIsMod(a / 2, k - 1);
      MaskStep(a, Pow2(k - 1));
    }
  }

  lemma MaskStep(a: nat, h: nat)
    requires h >= 1 && a != 0 && BitAnd(a / 2, h - 1) == (a / 2) % h
    ensures BitAnd(a, 2 * h - 1) == a % (2 * h)
  {
    MaskDouble(a, h);
    ModOfDouble(a, h);
  }

  lemma MaskDouble(a: nat, h: nat)
    requires h >= 1 && a != 0
    ensures BitAnd(a, 2 * h - 1) == 2 * BitAnd(a / 2, h - 1) + a % 2
  {
    assert (2 * h - 1) / 2 == h - 1 && (2 * h - 1) % 2 == 1;
  }

  lemma ModOfDouble(a: nat, h: nat)
    requires h >= 1
    ensures a % (2 * h) == 2 * ((a / 2) % h) + a % 2
  {
    var q, r := (a / 2) / h, (a / 2) % h;
    assert a / 2 == q * h + r;
    assert a == q * (2 * h) + (2 * r + a % 2);
    ModIsUnique(a, 2 * h, q, 2 * r + a % 2);
  }

  /** Adding to a wrapped counter and wrapping again loses nothing. */
  lemma WrapPlus(x: nat, y: nat)
    ensures Wrap(Wrap(x) as int + y) == Wrap(x + y)
  {
    assert x == x / TWO_TO_64 * TWO_TO_64 + x % TWO_TO_64;
  }

  lemma ModIsUnique(a: int, m: nat, q: int, r: nat)
    requires a == q * m + r && r < m
    ensures a % m == r && a / m == q
  {
    var d := a / m - q;
    assert a == (a / m) * m + a % m;
    assert d * m == r - a % m;
    assert d >= 1 ==> d * m >= m;
    assert d <= -1 ==> d * m <= -(m as int);
  }

  lemma {:induction false} Pow2Adds(i: nat, j: nat)
    ensures Pow2(i + j) == Pow2(i) * Pow2(j)
  {
    if i != 0 {
      Pow2Adds(i - 1, j);
      assert Pow2(i + j) == 2 * Pow2(i - 1 + j);
    }
  }

  lemma Pow2Of64()
    ensures Pow2(64) == TWO_TO_64
  {
    assert Pow2(4) == 16;
    Pow2Adds(4, 4);
    assert Pow2(8) == 0x100;
    Pow2Adds(8, 8);
    assert Pow2(16) == 0x1_0000;
    Pow2Adds(16, 16);
    assert Pow2(32) == 0x1_0000_0000;
    Pow2Adds(32, 32);
  }

  lemma {:induction false} Pow2Monotone(i: nat, j: nat)
    requires i <= j
    ensures Pow2(i) <= Pow2(j)
    decreases j - i
  {
    if i != j { Pow2Monotone(i + 1, j); }
  }

  /** Masking a wrapped counter selects the same slot as taking the exact counter modulo the
      capacity, because a power of two below 2^64 divides 2^64. */
  lemma MaskOfWrapped(x: nat, capacity: nat)
    requires IsPowerOfTwo(capacity) && capacity < TWO_TO_64
    ensures BitAnd(Wrap(x), capacity - 1) == x % capacity
    ensures BitAnd(x, capacity - 1) == x % capacity
  {
    var k := PowerOfTwoHasExponent(capacity);
    MaskIsMod(Wrap(x), k);
    MaskIsMod(x, k);
    Pow2Of64();
    if k >= 64 {
      Pow2Monotone(64, k);
      assert false;
    }
    Pow2Adds(k, 64 - k);
    ModOfDivisor(x, TWO_TO_64, capacity, Pow2(64 - k));
  }

  lemma ModOfDivisor(x: nat, n: nat, c: nat, m: nat)
    requires c >= 1 && n >= 1 && n == c * m
    ensures (x % n) % c == x % c
  {
    var w, y := x / n, x % n;
    var q, r := y / c, y % c;
    assert x == w * (c * m) + (q * c + r);
    assert w * (c * m) == (w * m) * c;
    assert x == (w * m + q) * c + r by { assert (w * m + q) * c == (w * m) * c + q * c; }
    ModIsUnique(x, c, w * m + q, r);
  }

  lemma WrapFaithful(write: nat, read: nat)
    requires read <= write < read + TWO_TO_64
    ensures Wrap(Wrap(write) - Wrap(read)) == write - read
    ensures Wrap(write) == Wrap(read) <==> write == read
    ensures Wrap(Wrap(write) + 1) == Wrap(write + 1)
  {
    var qw, qr := write / TWO_TO_64, read / TWO_TO_64;
    assert Wrap(write) - Wrap(read) == (write - read) + (qr - qw) * TWO_TO_64;
  }

  /** Two distinct counters less than a capacity apart never share a slot. */
  lemma SlotsDiffer(i: nat, j: nat, capacity: nat)
    requires i < j < i + capacity
    ensures i % capacity != j % capacity
  {
    var d := j / capacity - i / capacity;
    assert j - i == d * capacity + (j % capacity - i % capacity);
    assert d <= 0 ==> d * capacity <= 0;
    assert d >= 1 ==> d * capacity >= capacity;
  }
}
