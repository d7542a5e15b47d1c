/**
  The proof-of-work arithmetic of the CAP server: the FNV-1a hash, the xorshift digit stream and the
  check of a submitted proof. SHA-256 is a parameter of the check.
*/
module CapProof {
  import opened Options
  import opened Words

  type Bytes = seq<Byte>
  type Digest = d: Bytes | |d| == 32 witness seq(32, _ => 0)

  const FNV_OFFSET: Word := 2166136261
  const FNV_PRIME: Word := 16777619
  const LETTER_D: Byte := 100
  const MAX_COUNT := 1000
  const MAX_SIZE := 256
  const MAX_DIFFICULTY := 16

  // FNV-1a.

  /** FNV-1a as published: exclusive-or with the byte, then multiply by the prime modulo 2^32. */
  function FnvStep(state: Word, byte: Byte): Word {
    Xor(state, byte) * FNV_PRIME % MODULUS
  }

  function Fnv(state: Word, value: Bytes): Word
    decreases |value|
  {
    if value == [] then state else Fnv(FnvStep(state, value[0]), value[1..])
  }

  lemma Pow2Table()
    ensures Pow2(1) == 2 && Pow2(4) == 16 && Pow2(7) == 128 && Pow2(8) == 256 && Pow2(24) == 0x100_0000
  {
    assert Pow2(12) == 0x1000;
    assert Pow2(16) == 0x1_0000;
    assert Pow2(20) == 0x10_0000;
  }

  /** A left shift is a product less a multiple of the modulus. */
  lemma ShlQuotient(s: Word, k: nat, factor: nat) returns (q: nat)
    requires Pow2(k) == factor
    ensures Shl(s, k) == s * factor - q * MODULUS
  {
    q := s * factor / MODULUS;
  }

  lemma DropMultiple(x: nat, y: nat, q: nat)
    requires y == x - q * MODULUS
    ensures y % MODULUS == x % MODULUS
  {
    DivisionUnique(x, MODULUS, q + y / MODULUS, y % MODULUS);
  }

  /** The shifts and additions of the source, which wrap, multiply by the prime. */
  lemma ShiftAddIsMultiply(s: Word)
    ensures (s + (Shl(s, 1) + Shl(s, 4) + Shl(s, 7) + Shl(s, 8) + Shl(s, 24))) % MODULUS == s * FNV_PRIME % MODULUS
  {
    hide Shl, Pow2;
    Pow2Table();
    var a := ShlQuotient(s, 1, 2);
    var b := ShlQuotient(s, 4, 16);
    var c := ShlQuotient(s, 7, 128);
    var d := ShlQuotient(s, 8, 256);
    var e := ShlQuotient(s, 24, 0x100_0000);
    DropMultiple(s * FNV_PRIME, s + (Shl(s, 1) + Shl(s, 4) + Shl(s, 7) + Shl(s, 8) + Shl(s, 24)), a + b + c + d + e);
  }

  /** The loop starts from any earlier hash. */
  method FnvResume(state: Word, value: Bytes) returns (hash: Word)
    ensures hash == Fnv(state, value)
  {
    hide Xor, Shl;
    hash := state;
    for i := 0 to |value|
      invariant Fnv(hash, value[i..]) == Fnv(state, value)
    {
      assert value[i..][0] == value[i] && value[i..][1..] == value[i + 1..];
      hash := Xor(hash, value[i]);
      ShiftAddIsMultiply(hash);
      hash := (hash + (Shl(hash, 1) + Shl(hash, 4) + Shl(hash, 7) + Shl(hash, 8) + Shl(hash, 24))) % MODULUS;
    }
  }

  /** Resuming from the hash of a prefix hashes the whole. */
  lemma {:induction false} FnvResumes(state: Word, a: Bytes, b: Bytes)
    ensures Fnv(Fnv(state, a), b) == Fnv(state, a + b)
    decreases |a|
  {
    hide FnvStep;
    if a == [] {
      assert a + b == b;
    } else {
      assert (a + b)[0] == a[0] && (a + b)[1..] == a[1..] + b;
      FnvResumes(FnvStep(state, a[0]), a[1..], b);
    }
  }

  // The digit stream.

  function Xorshift(state: Word): Word {
    var a := Xor(state, Shl(state, 13));
    var b := Xor(a, Shr(a, 17));
    Xor(b, Shl(b, 5))
  }

  function Unshift(state: Word): Word {
    Unmix(ShlBy(13), Unmix(ShrBy(17), Unmix(ShlBy(5), state, 7), 2), 3)
  }

  lemma XorshiftIsMixing(s: Word)
    ensures Xorshift(s) == Mix(ShlBy(5), Mix(ShrBy(17), Mix(ShlBy(13), s)))
  {
    hide Xor, Shl, Shr;
  }

  /** One step is a bijection on 32-bit words. */
  lemma XorshiftBijective(s: Word)
    ensures Unshift(Xorshift(s)) == s && Xorshift(Unshift(s)) == s
  {
    hide Mix, Unmix, ShlBy, ShrBy, Linear, Nilpotent, Xorshift;
    ShiftsLinear(13);
    ShiftsLinear(17);
    ShiftsLinear(5);
    ShiftsNilpotent(13, 3);
    ShiftsNilpotent(17, 2);
    ShiftsNilpotent(5, 7);
    var a := Mix(ShlBy(13), s);
    var b := Mix(ShrBy(17), a);
    XorshiftIsMixing(s);
    MixBijective(ShlBy(5), 7, b);
    MixBijective(ShrBy(17), 2, a);
    MixBijective(ShlBy(13), 3, s);
    var b' := Unmix(ShlBy(5), s, 7);
    var a' := Unmix(ShrBy(17), b', 2);
    XorshiftIsMixing(Unshift(s));
    MixBijective(ShlBy(13), 3, a');
    MixBijective(ShrBy(17), 2, b');
    MixBijective(ShlBy(5), 7, s);
  }

  function Advance(state: Word, steps: nat): Word {
    if steps == 0 then state else Xorshift(Advance(state, steps - 1))
  }

  lemma ZeroStaysZero()
    ensures Xorshift(0) == 0
  {
    hide Xor;
    XorLaws(0, 0, 0);
    assert Shl(0, 13) == 0 && Shl(0, 5) == 0;
    ShrAll(0, 17);
  }

  lemma {:induction false} NonZeroForever(state: Word, steps: nat)
    ensures Advance(state, steps) == 0 <==> state == 0
  {
    hide Xorshift, Unshift;
    if steps > 0 {
      NonZeroForever(state, steps - 1);
      XorshiftBijective(Advance(state, steps - 1));
      XorshiftBijective(0);
      ZeroStaysZero();
    }
  }

  function HexDigit(n: nat): Byte
    requires n < 16
  {
    if n < 10 then 48 + n else 87 + n
  }

  predicate IsLowerHexDigit(c: Byte) {
    48 <= c <= 57 || 97 <= c <= 102
  }

  /** Digit k of a word, most significant first. */
  function Nibble(word: Word, k: nat): (r: nat)
    requires k < 8
    ensures r < 16
  {
    Shr(word, 28 - 4 * k) % 16
  }

  function HexWord(word: Word): (r: Bytes)
    ensures |r| == 8
  {
    seq(8, k requires 0 <= k < 8 => HexDigit(Nibble(word, k)))
  }

  function Stream(state: Word, blocks: nat): (r: Bytes)
    ensures |r| == 8 * blocks
  {
    if blocks == 0 then [] else Stream(state, blocks - 1) + HexWord(Advance(state, blocks))
  }

  function Prng(state: Word, length: nat): (r: Bytes)
    ensures |r| == length
  {
    Stream(state, (length + 7) / 8)[..length]
  }

  method PrngFromHash(state: Word, length: nat) returns (digits: Bytes)
    ensures digits == Prng(state, length)
    ensures |digits| == length && forall k | 0 <= k < length :: IsLowerHexDigit(digits[k])
  {
    hide Xor, Shl, Shr, Nibble, HexWord;
    var blocks := (length + 7) / 8;
    var buffer := new Byte[blocks * 8];
    var s := state;
    for block := 0 to blocks
      invariant s == Advance(state, block)
      invariant buffer[..8 * block] == Stream(state, block)
    {
      s := Xor(s, Shl(s, 13));
      s := Xor(s, Shr(s, 17));
      s := Xor(s, Shl(s, 5));
      assert s == Advance(state, block + 1);
      FillBlock(buffer, 8 * block, s);
      assert buffer[..8 * (block + 1)] == Stream(state, block) + HexWord(s);
    }
    digits := buffer[..length];
    assert digits == buffer[..8 * blocks][..length];
    forall k | 0 <= k < length
      ensures IsLowerHexDigit(digits[k])
    {
      PrngDigit(state, length, k);
    }
  }

  /** The inner loop: eight digits of one word, in place. */
  method FillBlock(buffer: array<Byte>, offset: nat, word: Word)
    requires offset + 8 <= buffer.Length
    modifies buffer
    ensures buffer[..offset] == old(buffer[..offset])
    ensures buffer[offset..offset + 8] == HexWord(word)
    ensures buffer[offset + 8..] == old(buffer[offset + 8..])
  {
    hide Nibble, HexDigit;
    for digit := 0 to 8
      invariant buffer[..offset] == old(buffer[..offset]) && buffer[offset + 8..] == old(buffer[offset + 8..])
      invariant forall k | 0 <= k < digit :: buffer[offset + k] == HexDigit(Nibble(word, k))
    {
      buffer[offset + digit] := HexDigit(Nibble(word, digit));
    }
  }

  /** Digit k of the stream is nibble k % 8 of the word reached after k / 8 + 1 steps. */
  lemma {:induction false} StreamDigit(state: Word, blocks: nat, k: nat)
    requires k < 8 * blocks
    ensures Stream(state, blocks)[k] == HexDigit(Nibble(Advance(state, k / 8 + 1), k % 8))
  {
    hide Xorshift, Nibble, HexDigit;
    if k < 8 * (blocks - 1) {
      StreamDigit(state, blocks - 1, k);
    }
  }

  /** Every output digit is a lower-case hexadecimal digit, taken from a fixed nibble of the stream. */
  lemma PrngDigit(state: Word, length: nat, k: nat)
    requires k < length
    ensures Prng(state, length)[k] == HexDigit(Nibble(Advance(state, k / 8 + 1), k % 8))
    ensures IsLowerHexDigit(Prng(state, length)[k])
  {
    hide Xorshift, Nibble;
    StreamDigit(state, (length + 7) / 8, k);
  }

  /** A shorter output is a prefix of a longer one. */
  lemma PrngPrefix(state: Word, short: nat, long: nat)
    requires short <= long
    ensures Prng(state, short) == Prng(state, long)[..short]
  {
    hide Prng, Nibble, HexDigit, Xorshift;
    forall k | 0 <= k < short
      ensures Prng(state, short)[k] == Prng(state, long)[k]
    {
      PrngDigit(state, short, k);
      PrngDigit(state, long, k);
    }
  }

  // Comparing a digest with a hexadecimal prefix.

  function Hex(d: Bytes): (r: Bytes)
    ensures |r| == 2 * |d|
  {
    if d == [] then [] else [HexDigit(d[0] / 16), HexDigit(d[0] % 16)] + Hex(d[1..])
  }

  lemma {:induction false} HexAt(d: Bytes, k: nat)
    requires k < |d|
    ensures Hex(d)[2 * k] == HexDigit(d[k] / 16) && Hex(d)[2 * k + 1] == HexDigit(d[k] % 16)
  {
    if k > 0 {
      HexAt(d[1..], k - 1);
    }
  }

  function ParseHexDigit(c: Byte): (r: Option<nat>)
    ensures r.Some? ==> r.value < 16
  {
    if 48 <= c <= 57 then Some(c - 48)
    else if 97 <= c <= 102 then Some(c - 87)
    else if 65 <= c <= 70 then Some(c - 55)
    else None
  }

  function ParseHexPair(hi: Byte, lo: Byte): Option<Byte> {
    if ParseHexDigit(hi).None? || ParseHexDigit(lo).None? then None
    else Some(ParseHexDigit(hi).value * 16 + ParseHexDigit(lo).value)
  }

  /** The parser reads capital digits too. */
  function FoldHex(c: Byte): Byte {
    if 65 <= c <= 70 then c + 32 else c
  }

  lemma PairMatchesByte(hi: Byte, lo: Byte, b: Byte)
    ensures ParseHexPair(hi, lo) == Some(b) <==> FoldHex(hi) == HexDigit(b / 16) && FoldHex(lo) == HexDigit(b % 16)
  {
  }

  lemma DigitMatchesNibble(c: Byte, b: Byte)
    ensures ParseHexDigit(c) == Some(b / 16) <==> FoldHex(c) == HexDigit(b / 16)
  {
  }

  /** target, in lower case, is a prefix of the digest in hexadecimal. */
  ghost predicate HexPrefix(digest: Digest, target: Bytes) {
    |target| <= 64 && forall k | 0 <= k < |target| :: FoldHex(target[k]) == Hex(digest)[k]
  }

  /** OutOfRange: a digit of the target is compared with a byte past the end of the digest. */
  datatype Comparison = Matches | Differs | OutOfRange

  const DIGEST_BYTES := 32

  /** The text right after the first 64 digits of a longer target parses: a pair of digits, or the one left over. */
  predicate ParsesPast(target: Bytes)
    requires |target| > 64
  {
    if |target| == 65 then ParseHexDigit(target[64]).Some? else ParseHexPair(target[64], target[65]).Some?
  }

  method MatchesHexPrefix(digest: Digest, target: Bytes) returns (c: Comparison)
    ensures c == Matches <==> HexPrefix(digest, target)
    ensures c == OutOfRange <==> |target| > 64 && HexPrefix(digest, target[..64]) && ParsesPast(target)
  {
    hide ParseHexPair, ParseHexDigit, FoldHex, HexDigit, Hex;
    var fullBytes := |target| / 2;
    for index := 0 to fullBytes
      invariant index <= DIGEST_BYTES
      invariant forall k | 0 <= k < 2 * index :: FoldHex(target[k]) == Hex(digest)[k]
    {
      var want := ParseHexPair(target[index * 2], target[index * 2 + 1]);
      if index == DIGEST_BYTES {
        return if want.None? then Differs else OutOfRange;
      }
      HexAt(digest, index);
      PairMatchesByte(target[index * 2], target[index * 2 + 1], digest[index]);
      if want.None? || digest[index] != want.value {
        return Differs;
      }
    }
    if |target| % 2 == 1 {
      var want := ParseHexDigit(target[|target| - 1]);
      if fullBytes == DIGEST_BYTES {
        return if want.None? then Differs else OutOfRange;
      }
      HexAt(digest, fullBytes);
      DigitMatchesNibble(target[|target| - 1], digest[fullBytes]);
      if want.None? || digest[fullBytes] / 16 != want.value {
        return Differs;
      }
    }
    c := Matches;
  }

  // The proof.

  function Decimal(n: nat): Bytes {
    if n < 10 then [48 + n] else Decimal(n / 10) + [48 + n % 10]
  }

  predicate ValidParams(count: int, size: int, difficulty: int) {
    1 <= count <= MAX_COUNT && 1 <= size <= MAX_SIZE && 1 <= difficulty <= MAX_DIFFICULTY
  }

  function Seeded(seed: Bytes, length: nat): Bytes {
    Prng(Fnv(FNV_OFFSET, seed), length)
  }

  /** The protocol for one solution: salt and target are drawn from seeds spelled out in full. */
  ghost predicate Solves(sha: Bytes -> Digest, token: Bytes, size: nat, difficulty: nat, index: nat, solution: int) {
    && solution >= 0
    && var salt := Seeded(token + Decimal(index + 1), size);
       var target := Seeded(token + Decimal(index + 1) + [LETTER_D], difficulty);
       target <= Hex(sha(salt + Decimal(solution)))
  }

  ghost predicate AllSolve(sha: Bytes -> Digest, token: Bytes, size: nat, difficulty: nat, solutions: seq<int>) {
    forall k | 0 <= k < |solutions| :: Solves(sha, token, size, difficulty, k, solutions[k])
  }

  /** A target of lower-case digits matches exactly when it is a prefix of the digest in hexadecimal. */
  lemma LowerHexPrefix(digest: Digest, state: Word, difficulty: nat)
    ensures HexPrefix(digest, Prng(state, difficulty)) <==> Prng(state, difficulty) <= Hex(digest)
  {
    hide Prng, Hex, Nibble, HexDigit;
    var target := Prng(state, difficulty);
    forall k | 0 <= k < |target|
      ensures FoldHex(target[k]) == target[k]
    {
      PrngDigit(state, difficulty, k);
    }
    if HexPrefix(digest, target) {
      assert target == Hex(digest)[..|target|];
    }
  }

  /** The check resumes hashes instead of hashing each seed: it accepts exactly the proofs of the protocol. */
  method ValidSolutions(sha: Bytes -> Digest, token: Bytes, size: nat, difficulty: nat, solutions: seq<int>) returns (ok: bool)
    requires ValidParams(1, size, difficulty)
    ensures ok <==> AllSolve(sha, token, size, difficulty, solutions)
  {
    hide Fnv, Prng, Hex, Decimal, HexPrefix;
    var tokenHash := FnvResume(FNV_OFFSET, token);
    for index := 0 to |solutions|
      invariant forall k | 0 <= k < index :: Solves(sha, token, size, difficulty, k, solutions[k])
    {
      var solution := solutions[index];
      if solution < 0 {
        assert !Solves(sha, token, size, difficulty, index, solutions[index]);
        return false;
      }
      var indexText := Decimal(index + 1);
      var saltHash := FnvResume(tokenHash, indexText);
      var targetHash := FnvResume(saltHash, [LETTER_D]);
      FnvResumes(FNV_OFFSET, token, indexText);
      FnvResumes(FNV_OFFSET, token + indexText, [LETTER_D]);
      var salt := PrngFromHash(saltHash, size);
      var target := PrngFromHash(targetHash, difficulty);
      var digest := sha(salt + Decimal(solution));
      var matches := MatchesHexPrefix(digest, target);
      LowerHexPrefix(digest, targetHash, difficulty);
      assert matches == Matches <==> Solves(sha, token, size, difficulty, index, solutions[index]);
      if matches != Matches {
        return false;
      }
    }
    ok := true;
  }
}
