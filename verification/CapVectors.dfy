/** Known answers of the hash and the generator, and what the digits of a word and of a number spell. */
module CapVectors {
  import opened Options
  import opened Words
  import opened CapProof

  lemma XorBits(a: nat, b: nat, x: nat, y: nat)
    requires x < 2 && y < 2
    ensures BitXor(2 * a + x, 2 * b + y) == 2 * BitXor(a, b) + if x == y then 0 else 1
  {
  }

  /** Four bits at a time. */
  lemma XorNibbles(a: nat, b: nat, x: nat, y: nat, z: nat)
    requires x < 16 && y < 16 && BitXor(x, y) == z
    ensures BitXor(16 * a + x, 16 * b + y) == 16 * BitXor(a, b) + z
  {
    hide BitXor;
    XorSplits(a, b, x, y, 4);
    assert Pow2(4) == 16;
  }

  lemma {:induction false} XorSplits(a: nat, b: nat, x: nat, y: nat, k: nat)
    requires x < Pow2(k) && y < Pow2(k)
    ensures BitXor(a * Pow2(k) + x, b * Pow2(k) + y) == BitXor(a, b) * Pow2(k) + BitXor(x, y)
  {
    hide BitXor;
    BitXorZero(0);
    if k > 0 {
      var p := Pow2(k - 1);
      XorSplits(a, b, x / 2, y / 2, k - 1);
      TimesPow2(a, k);
      TimesPow2(b, k);
      TimesPow2(BitXor(a, b), k);
      XorBits(a * p + x / 2, b * p + y / 2, x % 2, y % 2);
      XorBits(x / 2, y / 2, x % 2, y % 2);
    }
  }

  lemma SmallXors()
    ensures BitXor(5, 1) == 4 && BitXor(12, 6) == 10 && BitXor(8, 0) == 8
    ensures BitXor(0, 1) == 1 && BitXor(0, 8) == 8 && BitXor(1, 0) == 1
  {
  }

  /** The published FNV-1a test vectors for the empty text and for one letter. */
  lemma FnvVectors()
    ensures Fnv(FNV_OFFSET, []) == 0x811C9DC5
    ensures Fnv(FNV_OFFSET, [97]) == 0xE40C292C
  {
    hide BitXor, Pow2, Low;
    SmallXors();
    BitXorZero(0x811C9D);
    XorNibbles(0x811C9D, 0, 12, 6, 10);
    XorNibbles(0x811C9DC, 6, 5, 1, 4);
    assert Xor(0x811C9DC5, 97) == 0x811C9DA4;
    assert [97][1..] == [];
    hide Xor;
    assert FnvStep(FNV_OFFSET, 97) == 0xE40C292C;
  }

  /** The first output of the published 32-bit xorshift generator with shifts 13, 17 and 5, from state 1. */
  lemma XorshiftVector()
    ensures Xorshift(1) == 270369
  {
    hide BitXor, Shr;
    SmallXors();
    assert Pow2(13) == 8192 && Pow2(5) == 32;
    XorSplits(0, 1, 1, 0, 13);
    BitXorZero(8193);
    BitXorZero(8);
    ShrSmall();
    XorSplits(0, 8, 8, 0, 5);
    XorSplits(8, 256, 0, 1, 5);
    XorSplits(256, 8193, 1, 0, 5);
    hide Pow2;
    assert BitXor(1, 8192) == 8193;
    assert BitXor(8, 256) == 264;
    assert BitXor(256, 8193) == 8449;
    assert BitXor(8193, 262176) == 270369;
  }

  lemma ShrSmall()
    ensures Shr(8193, 17) == 0
  {
    assert Shr(8193, 17) == Shr(256, 12) == Shr(8, 7) == Shr(0, 3);
  }

  // Digits.

  const LOWER_HEX: Bytes := [48, 49, 50, 51, 52, 53, 54, 55, 56, 57, 97, 98, 99, 100, 101, 102]

  lemma HexDigits(n: nat)
    requires n < 16
    ensures HexDigit(n) == LOWER_HEX[n] && ParseHexDigit(HexDigit(n)) == Some(n)
  {
  }

  lemma ShrFour(a: Word, k: nat)
    ensures Shr(a, k + 4) == Shr(a, k) / 16
  {
    ShrNext(a, k);
    ShrNext(a, k + 1);
    ShrNext(a, k + 2);
    ShrNext(a, k + 3);
  }

  lemma {:induction false} ShrNext(a: Word, k: nat)
    ensures Shr(a, k + 1) == Shr(a, k) / 2
  {
    if k > 0 {
      ShrNext(a / 2, k - 1);
    }
  }

  /** The value of hexadecimal digits, the most significant first. */
  function HexValue(digits: Bytes): nat {
    if digits == [] then 0
    else
      var d := ParseHexDigit(digits[|digits| - 1]);
      16 * HexValue(digits[..|digits| - 1]) + if d.Some? then d.value else 0
  }

  lemma {:induction false} HexWordPrefix(word: Word, n: nat)
    requires 1 <= n <= 8
    ensures HexValue(HexWord(word)[..n]) == Shr(word, 32 - 4 * n)
  {
    hide Shr, HexDigit, ParseHexDigit;
    var digits := HexWord(word)[..n];
    assert digits[..n - 1] == HexWord(word)[..n - 1];
    HexDigits(Nibble(word, n - 1));
    assert digits[n - 1] == HexDigit(Nibble(word, n - 1)) && Nibble(word, n - 1) == Shr(word, 32 - 4 * n) % 16;
    hide HexWord, Nibble;
    if n > 1 {
      HexWordPrefix(word, n - 1);
      ShrFour(word, 32 - 4 * n);
    } else {
      TopNibble(word);
    }
  }

  lemma TopNibble(word: Word)
    ensures Shr(word, 28) < 16
  {
    hide Shr;
    ShrFour(word, 0);
    ShrFour(word, 4);
    ShrFour(word, 8);
    ShrFour(word, 12);
    ShrFour(word, 16);
    ShrFour(word, 20);
    ShrFour(word, 24);
    ShrZero(word);
  }

  lemma ShrZero(word: Word)
    ensures Shr(word, 0) == word
  {
  }

  /** The eight digits of a word spell its value. */
  lemma HexWordSpells(word: Word)
    ensures HexValue(HexWord(word)) == word
  {
    HexWordPrefix(word, 8);
    ShrZero(word);
    assert HexWord(word)[..8] == HexWord(word);
  }

  function DecimalValue(digits: Bytes): int {
    if digits == [] then 0 else 10 * DecimalValue(digits[..|digits| - 1]) + digits[|digits| - 1] - 48
  }

  /** A number is written in decimal digits without leading zeros. */
  lemma {:induction false} DecimalSpells(n: nat)
    ensures Decimal(n) != [] && DecimalValue(Decimal(n)) == n
    ensures forall k | 0 <= k < |Decimal(n)| :: 48 <= Decimal(n)[k] <= 57
    ensures n > 0 ==> Decimal(n)[0] != 48
  {
    if n >= 10 {
      DecimalSpells(n / 10);
      assert Decimal(n)[..|Decimal(n)| - 1] == Decimal(n / 10);
    } else {
      assert Decimal(n)[..0] == [];
    }
  }

  /** Two hexadecimal digits for each byte of a digest. */
  lemma {:induction false} HexSpells(d: Bytes, k: nat)
    requires k < |d|
    ensures ParseHexPair(Hex(d)[2 * k], Hex(d)[2 * k + 1]) == Some(d[k])
    ensures Hex(d)[2 * k] in LOWER_HEX && Hex(d)[2 * k + 1] in LOWER_HEX
    decreases k
  {
    hide HexDigit, ParseHexDigit;
    if k == 0 {
      HexDigits(d[0] / 16);
      HexDigits(d[0] % 16);
    } else {
      HexSpells(d[1..], k - 1);
    }
  }
}
