/** Machine words as natural numbers: powers of two, bitwise AND, and the arithmetic of
    counters that wrap.  Bitwise AND is defined bit by bit, so that the masks of the two
    drivers can be written as the code writes them and are then proved to be remainders. */
module Words {

  const U16: nat := 0x1_0000
  const U32: nat := 0x1_0000_0000
  const U64: nat := 0x1_0000_0000_0000_0000

  type pos = x: nat | x > 0 witness 1

  datatype Option<+T> = None | Some(value: T)

  function Min(a: nat, b: nat): nat {
    if a < b then a else b
  }

  function Pow2(k: nat): (r: nat)
    ensures r > 0
  {
    if k == 0 then 1 else 2 * Pow2(k - 1)
  }

  /** The bitwise AND of two non-negative numbers. */
  function BitAnd(x: nat, y: nat): nat {
    if x == 0 || y == 0 then 0
    else 2 * BitAnd(x / 2, y / 2) + (if x % 2 == 1 && y % 2 == 1 then 1 else 0)
  }

  lemma {:induction false} Pow2Add(a: nat, b: nat)
    ensures Pow2(a + b) == Pow2(a) * Pow2(b)
  {
    if a == 0 {
    } else {
      Pow2Add(a - 1, b);
      assert Pow2(a + b) == 2 * (Pow2(a - 1) * Pow2(b)) == (2 * Pow2(a - 1)) * Pow2(b);
    }
  }

  lemma Pow2Values()
    ensures Pow2(6) == 64 && Pow2(12) == 4096 && Pow2(16) == U16 && Pow2(32) == U32 && Pow2(64) == U64
  {
    assert Pow2(6) == 64;
    assert Pow2(8) == 256;
    Pow2Add(6, 6);
    Pow2Add(8, 8);
    Pow2Add(16, 16);
    Pow2Add(32, 32);
  }

  lemma {:induction false} Pow2Monotone(a: nat, b: nat)
    requires a <= b
    ensures Pow2(a) <= Pow2(b)
  {
    if a < b { Pow2Monotone(a, b - 1); }
  }

  /** Uniqueness of quotient and remainder. */
  lemma ModIs(x: int, m: int, q: int, r: int)
    requires m > 0 && x == m * q + r && 0 <= r < m
    ensures x / m == q && x % m == r
  {
    var d := q - x / m;
    assert x == m * (x / m) + x % m;
    assert m * d == x % m - r by { Distribute(m, q, x / m); }
    if d >= 1 { ScaleAtLeast(m, d); }
    if d <= -1 { ScaleAtLeast(m, -d); }
  }

  lemma DivMod(x: nat, m: nat)
    requires m > 0
    ensures x == m * (x / m) + x % m && 0 <= x % m < m && x / m >= 0
  {
  }

  lemma Distribute(m: int, a: int, b: int)
    ensures m * (a - b) == m * a - m * b
  {
  }

  lemma ScaleAtLeast(m: int, d: int)
    requires m > 0 && d >= 1
    ensures m * d >= m
  {
  }

  lemma Pow2Doubles(k: nat)
    ensures Pow2(k) == if k == 0 then 1 else 2 * Pow2(k - 1)
  {
  }

  lemma BitAndZero(x: nat)
    ensures BitAnd(x, 0) == 0
  {
  }

  /** Bit 0 of an AND, and the rest of it. */
  lemma HalfAnd(x: nat, h: nat, y: nat, c: nat)
    requires c < 2 && y == 2 * h + c
    ensures BitAnd(x, y) == 2 * BitAnd(x / 2, h) + (x % 2) * c
  {
    assert y / 2 == h && y % 2 == c;
  }

  lemma Double(p: nat, q: nat, r: nat)
    ensures (2 * p) * q + r == 2 * (p * q + r / 2) + r % 2
  {
  }

  /** The low k bits of a number written in base 2^k. */
  lemma {:induction false} LowBits(q: nat, r: nat, k: nat)
    requires r < Pow2(k)
    ensures BitAnd(Pow2(k) * q + r, Pow2(k) - 1) == r
    decreases k
  {
    hide BitAnd, Pow2;
    Pow2Doubles(k);
    if k == 0 {
      BitAndZero(q);
      assert 1 * q + r == q;
    } else {
      var p := Pow2(k - 1);
      LowBits(q, r / 2, k - 1);
      Double(p, q, r);
      HalfAnd(2 * p * q + r, p - 1, 2 * p - 1, 1);
    }
  }

  /** The masks of the high and of the low bits of a w-bit word share a number out between them. */
  lemma {:induction false} MasksShare(x: nat, k: nat, w: nat)
    requires k <= w
    ensures Pow2(k) <= Pow2(w)
    ensures BitAnd(x, Pow2(w) - Pow2(k)) + BitAnd(x, Pow2(k) - 1) == BitAnd(x, Pow2(w) - 1)
    decreases w
  {
    hide BitAnd, Pow2;
    Pow2Monotone(k, w);
    Pow2Doubles(k);
    Pow2Doubles(w);
    if k == 0 {
      BitAndZero(x);
    } else {
      Pow2Monotone(k - 1, w - 1);
      MasksShare(x / 2, k - 1, w - 1);
      MasksShareStep(x, Pow2(k - 1), Pow2(w - 1));
    }
  }

  lemma MasksShareStep(x: nat, p: nat, pw: nat)
    requires 0 < p <= pw && BitAnd(x / 2, pw - p) + BitAnd(x / 2, p - 1) == BitAnd(x / 2, pw - 1)
    ensures BitAnd(x, 2 * pw - 2 * p) + BitAnd(x, 2 * p - 1) == BitAnd(x, 2 * pw - 1)
  {
    hide BitAnd;
    HalfAnd(x, pw - p, 2 * pw - 2 * p, 0);
    HalfAnd(x, p - 1, 2 * p - 1, 1);
    HalfAnd(x, pw - 1, 2 * pw - 1, 1);
  }

  /** Masking with the low k bits is the remainder modulo 2^k. */
  lemma MaskIsMod(x: nat, k: nat)
    ensures BitAnd(x, Pow2(k) - 1) == x % Pow2(k)
  {
    hide BitAnd, Pow2;
    DivMod(x, Pow2(k));
    LowBits(x / Pow2(k), x % Pow2(k), k);
  }

  /** Masking a w-bit word with everything but the low k bits rounds down to a multiple of 2^k. */
  lemma ClearMaskIsRoundDown(x: nat, k: nat, w: nat)
    requires k <= w && x < Pow2(w)
    ensures Pow2(k) <= Pow2(w) && BitAnd(x, Pow2(w) - Pow2(k)) == x - x % Pow2(k)
  {
    hide BitAnd, Pow2;
    MasksShare(x, k, w);
    MaskIsMod(x, k);
    MaskIsMod(x, w);
    ModSmall(x, Pow2(w));
  }

  /** A counter kept modulo a multiple of n has the same remainder modulo n as the true count. */
  lemma ModOfMod(x: int, n: int, k: int)
    requires n > 0 && k > 0
    ensures n * k > 0 && (x % (n * k)) % n == x % n
  {
    var q, r := x / (n * k), x % (n * k);
    assert x == (n * k) * q + r == n * (k * q) + r;
    assert r == n * (r / n) + r % n;
    assert x == n * (k * q + r / n) + r % n;
    ModIs(x, n, k * q + r / n, r % n);
  }

  /** Subtraction of wrapped counters, seen modulo n, is subtraction of the true counts. */
  lemma ModOfDifference(a: int, b: int, n: int)
    requires n > 0
    ensures (a % n - b % n) % n == (a - b) % n
  {
    var qa, qb, q := a / n, b / n, (a - b) / n;
    assert a == n * qa + a % n && b == n * qb + b % n && a - b == n * q + (a - b) % n;
    assert a % n - b % n == n * (q - qa + qb) + (a - b) % n;
    ModIs(a % n - b % n, n, q - qa + qb, (a - b) % n);
  }

  /** Two counts less than n apart share a slot only if they are equal. */
  lemma ModDistinct(i: int, j: int, n: int)
    requires n > 0 && i <= j < i + n
    ensures i % n == j % n <==> i == j
  {
    if i % n == j % n {
      ModOfDifference(j, i, n);
      ModIs(j - i, n, 0, j - i);
    }
  }

  lemma ModNext(i: int, n: int)
    requires n > 0
    ensures (i + 1) % n == (i % n + 1) % n
    ensures (i + 1) % n == if i % n + 1 == n then 0 else i % n + 1
  {
    var q, r := i / n, i % n;
    if r + 1 == n {
      assert i + 1 == n * (q + 1) + 0;
      ModIs(i + 1, n, q + 1, 0);
      ModIs(r + 1, n, 1, 0);
    } else {
      ModIs(i + 1, n, q, r + 1);
      ModIs(r + 1, n, 0, r + 1);
    }
  }

  lemma ModSmall(x: int, n: int)
    requires 0 <= x < n
    ensures x % n == x
  {
    ModIs(x, n, 0, x);
  }
}
