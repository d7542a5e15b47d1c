/**
  Unsigned 32-bit words and bytes as bounded naturals: addition, multiplication and left shifts wrap
  modulo 2^32, and exclusive-or is defined bit by bit.
*/
module Words {
  const MODULUS := 0x1_0000_0000

  type Byte = n: nat | n < 256
  type Word = n: nat | n < MODULUS

  function BitXor(a: nat, b: nat): nat {
    if a == 0 && b == 0 then 0 else (if a % 2 == b % 2 then 0 else 1) + 2 * BitXor(a / 2, b / 2)
  }

  lemma {:induction false} BitXorZero(a: nat)
    ensures BitXor(a, 0) == a
  {
    if a > 0 {
      BitXorZero(a / 2);
    }
  }

  lemma {:induction false} BitXorSelf(a: nat)
    ensures BitXor(a, a) == 0
  {
    if a > 0 {
      BitXorSelf(a / 2);
    }
  }

  lemma {:induction false} BitXorSymmetric(a: nat, b: nat)
    ensures BitXor(a, b) == BitXor(b, a)
  {
    if a > 0 || b > 0 {
      BitXorSymmetric(a / 2, b / 2);
    }
  }

  lemma BitXorHalf(a: nat, b: nat)
    ensures BitXor(a, b) / 2 == BitXor(a / 2, b / 2)
    ensures BitXor(a, b) % 2 == if a % 2 == b % 2 then 0 else 1
  {
  }

  lemma {:induction false} BitXorAssociative(a: nat, b: nat, c: nat)
    ensures BitXor(BitXor(a, b), c) == BitXor(a, BitXor(b, c))
    decreases a + b + c
  {
    if a > 0 || b > 0 || c > 0 {
      BitXorHalf(a, b);
      BitXorHalf(b, c);
      BitXorHalf(BitXor(a, b), c);
      BitXorHalf(a, BitXor(b, c));
      BitXorAssociative(a / 2, b / 2, c / 2);
    }
  }

  function Pow2(k: nat): (r: nat)
    ensures r >= 1
  {
    if k == 0 then 1 else 2 * Pow2(k - 1)
  }

  /** Exclusive-or of two n-bit numbers has n bits. */
  lemma {:induction false} BitXorBounded(a: nat, b: nat, n: nat)
    requires a < Pow2(n) && b < Pow2(n)
    ensures BitXor(a, b) < Pow2(n)
  {
    if n > 0 {
      BitXorBounded(a / 2, b / 2, n - 1);
    }
  }

  lemma Pow2Modulus()
    ensures Pow2(32) == MODULUS
  {
    assert Pow2(4) == 16;
    assert Pow2(8) == 0x100;
    assert Pow2(12) == 0x1000;
    assert Pow2(16) == 0x1_0000;
    assert Pow2(20) == 0x10_0000;
    assert Pow2(24) == 0x100_0000;
    assert Pow2(28) == 0x1000_0000;
  }

  function Xor(a: Word, b: Word): Word {
    Pow2Modulus();
    BitXorBounded(a, b, 32);
    BitXor(a, b)
  }

  lemma XorLaws(a: Word, b: Word, c: Word)
    ensures Xor(a, 0) == a && Xor(a, a) == 0 && Xor(a, b) == Xor(b, a)
    ensures Xor(Xor(a, b), c) == Xor(a, Xor(b, c))
    ensures Xor(a, Xor(a, b)) == b
  {
    BitXorZero(a);
    BitXorZero(b);
    BitXorSelf(a);
    BitXorSymmetric(a, b);
    BitXorSymmetric(0, b);
    BitXorAssociative(a, b, c);
    BitXorAssociative(a, a, b);
  }

  // Shifts.

  function Shl(a: Word, k: nat): Word {
    a * Pow2(k) % MODULUS
  }

  function Shr(a: Word, k: nat): Word {
    if k == 0 then a else Shr(a / 2, k - 1)
  }

  /** The n lowest bits. */
  function Low(a: nat, n: nat): nat {
    if n == 0 then 0 else a % 2 + 2 * Low(a / 2, n - 1)
  }

  lemma {:induction false} LowIsMod(a: nat, n: nat)
    ensures Low(a, n) == a % Pow2(n)
  {
    if n > 0 {
      HalfMod(a, n);
      LowIsMod(a / 2, n - 1);
    }
  }

  lemma LowHalf(a: nat, n: nat)
    requires n > 0
    ensures Low(a, n) % 2 == a % 2 && Low(a, n) / 2 == Low(a / 2, n - 1)
  {
  }

  /** A number is fixed by its parity and its half. */
  lemma SameHalves(a: nat, b: nat)
    requires a % 2 == b % 2 && a / 2 == b / 2
    ensures a == b
  {
  }

  lemma {:induction false} BitXorLow(a: nat, b: nat, n: nat)
    ensures Low(BitXor(a, b), n) == BitXor(Low(a, n), Low(b, n))
  {
    if n > 0 {
      BitXorLow(a / 2, b / 2, n - 1);
      BitXorLowStep(a, b, n);
    }
  }

  lemma BitXorLowStep(a: nat, b: nat, n: nat)
    requires n > 0 && Low(BitXor(a / 2, b / 2), n - 1) == BitXor(Low(a / 2, n - 1), Low(b / 2, n - 1))
    ensures Low(BitXor(a, b), n) == BitXor(Low(a, n), Low(b, n))
  {
    hide Low, BitXor;
    BitXorHalf(a, b);
    LowHalf(a, n);
    LowHalf(b, n);
    LowHalf(BitXor(a, b), n);
    BitXorHalf(Low(a, n), Low(b, n));
    SameHalves(Low(BitXor(a, b), n), BitXor(Low(a, n), Low(b, n)));
  }

  lemma BitXorMod(a: nat, b: nat, n: nat)
    ensures BitXor(a, b) % Pow2(n) == BitXor(a % Pow2(n), b % Pow2(n))
  {
    LowIsMod(a, n);
    LowIsMod(b, n);
    LowIsMod(BitXor(a, b), n);
    BitXorLow(a, b, n);
  }

  lemma HalfMod(a: nat, n: nat)
    requires n > 0
    ensures a % Pow2(n) == a % 2 + 2 * ((a / 2) % Pow2(n - 1))
  {
    var p := Pow2(n - 1);
    var q, r := (a / 2) / p, (a / 2) % p;
    assert a / 2 == q * p + r;
    assert a == q * (2 * p) + (2 * r + a % 2);
    DivisionUnique(a, 2 * p, q, 2 * r + a % 2);
  }

  lemma SmallMultiple(d: int, m: int)
    requires -m < d * m < m
    ensures d == 0
  {
    assert d >= 1 ==> (d - 1) * m >= 0;
    assert d <= -1 ==> (-d - 1) * m >= 0;
  }

  lemma DivisionUnique(a: nat, m: nat, q: nat, r: nat)
    requires m > 0 && r < m && a == q * m + r
    ensures a / m == q && a % m == r
  {
    var d, r' := a / m - q, a % m;
    assert a == (a / m) * m + r';
    assert d * m == (a / m) * m - q * m;
    SmallMultiple(d, m);
  }

  lemma BitXorDouble(x: nat, y: nat)
    ensures BitXor(2 * x, 2 * y) == 2 * BitXor(x, y)
  {
    assert (2 * x) / 2 == x && (2 * y) / 2 == y;
  }

  lemma TimesPow2(a: nat, k: nat)
    requires k > 0
    ensures a * Pow2(k) == 2 * (a * Pow2(k - 1))
  {
  }

  lemma {:induction false} BitXorTimes(a: nat, b: nat, k: nat)
    ensures BitXor(a * Pow2(k), b * Pow2(k)) == BitXor(a, b) * Pow2(k)
  {
    if k > 0 {
      BitXorTimes(a, b, k - 1);
      TimesPow2(a, k);
      TimesPow2(b, k);
      TimesPow2(BitXor(a, b), k);
      BitXorDouble(a * Pow2(k - 1), b * Pow2(k - 1));
    }
  }

  lemma ShlLinear(a: Word, b: Word, k: nat)
    ensures Shl(Xor(a, b), k) == Xor(Shl(a, k), Shl(b, k))
  {
    Pow2Modulus();
    BitXorTimes(a, b, k);
    BitXorMod(a * Pow2(k), b * Pow2(k), 32);
  }

  lemma {:induction false} ShrLinear(a: Word, b: Word, k: nat)
    ensures Shr(Xor(a, b), k) == Xor(Shr(a, k), Shr(b, k))
  {
    if k > 0 {
      BitXorHalf(a, b);
      ShrLinear(a / 2, b / 2, k - 1);
    }
  }

  // Undoing x ^ shift(x), for any shift that loses every bit after n rounds.

  ghost predicate Linear(shift: Word -> Word) {
    forall a, b :: shift(Xor(a, b)) == Xor(shift(a), shift(b))
  }

  function Rounds(shift: Word -> Word, x: Word, n: nat): Word {
    if n == 0 then x else shift(Rounds(shift, x, n - 1))
  }

  ghost predicate Nilpotent(shift: Word -> Word, n: nat) {
    forall x :: Rounds(shift, x, n) == 0
  }

  function Mix(shift: Word -> Word, x: Word): Word {
    Xor(x, shift(x))
  }

  /** Solves x == y ^ shift(x) by iteration from zero. */
  function Unmix(shift: Word -> Word, y: Word, n: nat): Word {
    if n == 0 then 0 else Xor(y, shift(Unmix(shift, y, n - 1)))
  }

  /** The error of the n-th approximation is shift applied n times. */
  lemma {:induction false} UnmixError(shift: Word -> Word, x: Word, n: nat)
    requires Linear(shift)
    ensures Xor(x, Unmix(shift, Mix(shift, x), n)) == Rounds(shift, x, n)
  {
    hide Xor;
    XorLaws(x, 0, 0);
    if n > 0 {
      UnmixError(shift, x, n - 1);
      var u := Unmix(shift, Mix(shift, x), n - 1);
      assert shift(Xor(x, u)) == Xor(shift(x), shift(u));
      XorLaws(x, shift(x), shift(u));
      XorLaws(x, Xor(shift(x), shift(u)), 0);
    }
  }

  lemma XorCancel(y: Word, a: Word, b: Word)
    ensures Xor(Xor(y, a), Xor(y, b)) == Xor(a, b)
  {
    hide Xor;
    XorLaws(y, a, Xor(y, b));
    XorLaws(a, y, Xor(y, b));
    XorLaws(a, y, b);
    XorLaws(y, b, 0);
  }

  /** Successive approximations differ by shift applied to y as often. */
  lemma {:induction false} UnmixStep(shift: Word -> Word, y: Word, n: nat)
    requires Linear(shift)
    ensures Xor(Unmix(shift, y, n), Unmix(shift, y, n + 1)) == Rounds(shift, y, n)
  {
    hide Xor;
    var u, v := Unmix(shift, y, n), Unmix(shift, y, n + 1);
    if n == 0 {
      ShiftOfZero(shift);
      XorLaws(y, 0, 0);
      XorLaws(0, y, 0);
    } else {
      var t := Unmix(shift, y, n - 1);
      UnmixStep(shift, y, n - 1);
      assert shift(Xor(t, u)) == Xor(shift(t), shift(u));
      XorCancel(y, shift(t), shift(u));
    }
  }

  lemma ShiftOfZero(shift: Word -> Word)
    requires Linear(shift)
    ensures shift(0) == 0
  {
    hide Xor;
    assert shift(Xor(0, 0)) == Xor(shift(0), shift(0));
    XorLaws(0, 0, 0);
    XorLaws(shift(0), 0, 0);
  }

  /** Mixing with a linear shift that loses every bit is a bijection, undone by Unmix. */
  lemma MixBijective(shift: Word -> Word, n: nat, x: Word)
    requires Linear(shift) && Nilpotent(shift, n)
    ensures Unmix(shift, Mix(shift, x), n) == x
    ensures Mix(shift, Unmix(shift, x, n)) == x
  {
    hide Xor;
    UnmixError(shift, x, n);
    assert Rounds(shift, x, n) == 0;
    var u := Unmix(shift, Mix(shift, x), n);
    XorLaws(x, u, 0);
    UnmixStep(shift, x, n);
    var v := Unmix(shift, x, n);
    // Xor(v, Xor(x, shift(v))) is zero, so v ^ shift(v) is x.
    XorLaws(v, Xor(x, shift(v)), 0);
    XorLaws(x, shift(v), 0);
    XorLaws(shift(v), x, 0);
    XorLaws(shift(v), v, 0);
  }

  // The shifts of a 32-bit word as such operators.

  function ShlBy(k: nat): Word -> Word {
    (w: Word) => Shl(w, k)
  }

  function ShrBy(k: nat): Word -> Word {
    (w: Word) => Shr(w, k)
  }

  lemma ShiftsLinear(k: nat)
    ensures Linear(ShlBy(k)) && Linear(ShrBy(k))
  {
    forall a: Word, b: Word
      ensures ShlBy(k)(Xor(a, b)) == Xor(ShlBy(k)(a), ShlBy(k)(b))
      ensures ShrBy(k)(Xor(a, b)) == Xor(ShrBy(k)(a), ShrBy(k)(b))
    {
      ShlLinear(a, b, k);
      ShrLinear(a, b, k);
    }
  }

  lemma {:induction false} Pow2Sum(j: nat, k: nat)
    ensures Pow2(j) * Pow2(k) == Pow2(j + k)
  {
    if k > 0 {
      Pow2Sum(j, k - 1);
      TimesPow2(Pow2(j), k);
    }
  }

  lemma Expand(q: int, m: int, r: int, b: int)
    ensures (q * m + r) * b == (q * b) * m + r * b
  {
    assert (q * m + r) * b == (q * m) * b + r * b;
    assert (q * m) * b == (q * b) * m;
  }

  lemma Collect(x: int, y: int, m: int)
    ensures x * m + y * m == (x + y) * m
  {
  }

  lemma AddMultiple(x: nat, c: nat, m: nat)
    requires m > 0
    ensures x * m >= 0 && (x * m + c) % m == c % m
  {
    Collect(x, c / m, m);
    DivisionUnique(x * m + c, m, x + c / m, c % m);
  }

  lemma TimesMod(a: nat, b: nat, m: nat)
    requires m > 0
    ensures (a % m) * b % m == a * b % m
  {
    TimesModParts(a / m, a % m, b, m);
    assert (a / m) * m + a % m == a;
  }

  lemma TimesModParts(q: nat, r: nat, b: nat, m: nat)
    requires m > 0
    ensures r * b >= 0 && (q * m + r) * b >= 0 && r * b % m == (q * m + r) * b % m
  {
    Expand(q, m, r, b);
    var x, c := q * b, r * b;
    AddMultiple(x, c, m);
  }

  lemma ShlTwice(a: Word, j: nat, k: nat)
    ensures Shl(Shl(a, j), k) == Shl(a, j + k)
  {
    TimesMod(a * Pow2(j), Pow2(k), MODULUS);
    Pow2Sum(j, k);
    ProductAssociative(a, Pow2(j), Pow2(k));
    hide Pow2;
  }

  lemma ProductAssociative(a: nat, b: nat, c: nat)
    ensures a * b * c == a * (b * c)
  {
  }

  lemma ShlAll(a: Word, k: nat)
    requires k >= 32
    ensures Shl(a, k) == 0
  {
    Pow2Modulus();
    Pow2Sum(k - 32, 32);
    assert a * Pow2(k) == (a * Pow2(k - 32)) * MODULUS;
    DivisionUnique(a * Pow2(k), MODULUS, a * Pow2(k - 32), 0);
  }

  lemma {:induction false} ShrTwice(a: Word, j: nat, k: nat)
    ensures Shr(Shr(a, j), k) == Shr(a, j + k)
  {
    if j > 0 {
      ShrTwice(a / 2, j - 1, k);
    }
  }

  lemma {:induction false} ShrAll(a: Word, k: nat)
    requires a < Pow2(k)
    ensures Shr(a, k) == 0
  {
    if k > 0 {
      ShrAll(a / 2, k - 1);
    }
  }

  lemma {:induction false} ShiftRounds(k: nat, x: Word, n: nat)
    ensures Rounds(ShlBy(k), x, n) == Shl(x, k * n)
    ensures Rounds(ShrBy(k), x, n) == Shr(x, k * n)
  {
    if n == 0 {
      assert Shl(x, 0) == x && Shr(x, 0) == x;
    } else {
      ShiftRounds(k, x, n - 1);
      ShlTwice(x, k * (n - 1), k);
      ShrTwice(x, k * (n - 1), k);
      assert k * (n - 1) + k == k * n;
    }
  }

  lemma {:induction false} Pow2Grows(j: nat, k: nat)
    requires j <= k
    ensures Pow2(j) <= Pow2(k)
  {
    if j < k {
      Pow2Grows(j, k - 1);
    }
  }

  /** A shift by k loses all 32 bits after n rounds once k * n reaches 32. */
  lemma ShiftsNilpotent(k: nat, n: nat)
    requires k * n >= 32
    ensures Nilpotent(ShlBy(k), n) && Nilpotent(ShrBy(k), n)
  {
    forall x: Word
      ensures Rounds(ShlBy(k), x, n) == 0 && Rounds(ShrBy(k), x, n) == 0
    {
      ShiftRounds(k, x, n);
      ShlAll(x, k * n);
      Pow2Modulus();
      Pow2Grows(32, k * n);
      ShrAll(x, k * n);
    }
  }
}
