/** The proof-of-work challenge header and the leading-zero-bits check on a digest. */
module ProofOfWork {

  type Byte = x: int | 0 <= x < 256

  function Pow2(n: nat): (r: nat)
    ensures r >= 1
  {
    if n == 0 then 1 else 2 * Pow2(n - 1)
  }

  lemma {:induction false} Pow2Adds(a: nat, b: nat)
    ensures Pow2(a + b) == Pow2(a) * Pow2(b)
  {
    if a > 0 {
      Pow2Adds(a - 1, b);
      assert 2 * Pow2(a - 1 + b) == 2 * Pow2(a - 1) * Pow2(b);
    }
  }

  /** Eight more bits. */
  lemma Pow2Byte(n: nat)
    ensures Pow2(n + 8) == 256 * Pow2(n)
  {
    Pow2Adds(8, n);
    assert Pow2(8) == 256;
  }

  /** The bytes read as one big-endian number. */
  function BigEndian(b: seq<Byte>): (r: nat) {
    if b == [] then 0 else 256 * BigEndian(b[..|b| - 1]) + b[|b| - 1]
  }

  lemma {:induction false} BigEndianBound(b: seq<Byte>)
    ensures BigEndian(b) < Pow2(8 * |b|)
  {
    if b != [] {
      BigEndianBound(b[..|b| - 1]);
      Pow2Byte(8 * (|b| - 1));
    }
  }

  /** The first byte is the most significant digit. */
  lemma {:induction false} BigEndianHead(b: seq<Byte>)
    requires b != []
    ensures BigEndian(b) == b[0] * Pow2(8 * (|b| - 1)) + BigEndian(b[1..])
  {
    if |b| == 1 {
      assert b[..0] == [] && b[1..] == [] && Pow2(0) == 1;
    } else {
      var front := b[..|b| - 1];
      BigEndianHead(front);
      assert b[1..][..|b| - 2] == front[1..];
      var p := Pow2(8 * (|b| - 2));
      ShiftDigit(b[0], p, BigEndian(front[1..]), b[|b| - 1]);
      Pow2Byte(8 * (|b| - 2));
    }
  }

  lemma ShiftDigit(top: nat, p: nat, low: nat, last: nat)
    ensures 256 * (top * p + low) + last == top * (256 * p) + (256 * low + last)
  {
  }

  // ------------------------------------------------------------------
  // Leading zero bits
  // ------------------------------------------------------------------

  /** What the check is for: the digest, read as a number, is below the difficulty's target. */
  ghost predicate BelowTarget(b: seq<Byte>, bits: nat) {
    bits <= 8 * |b| && BigEndian(b) < Pow2(8 * |b| - bits)
  }

  /** A zero first byte settles eight bits; a nonzero one rules them out. */
  lemma PeelByte(b: seq<Byte>, bits: nat)
    requires b != [] && bits >= 8
    ensures BelowTarget(b, bits) <==> b[0] == 0 && BelowTarget(b[1..], bits - 8)
  {
    BigEndianHead(b);
    if b[0] > 0 && bits <= 8 * |b| {
      var whole := Pow2(8 * (|b| - 1));
      Pow2Grows(8 * |b| - bits, 8 * (|b| - 1));
      TimesGrows(1, b[0], whole);
    }
  }

  lemma TimesGrows(x: nat, y: nat, p: nat)
    requires x <= y
    ensures x * p <= y * p
  {
  }

  lemma {:induction false} Pow2Grows(m: nat, n: nat)
    requires m <= n
    ensures Pow2(m) <= Pow2(n)
  {
    if m < n {
      Pow2Grows(m, n - 1);
    }
  }

  /** Fewer than eight bits are decided by the first byte alone. */
  lemma FirstByte(b: seq<Byte>, bits: nat)
    requires b != [] && bits < 8
    ensures BelowTarget(b, bits) <==> b[0] < Pow2(8 - bits)
  {
    var rest := 8 * (|b| - 1);
    BigEndianHead(b);
    BigEndianBound(b[1..]);
    Pow2Adds(8 - bits, rest);
    TopDigit(b[0], BigEndian(b[1..]), Pow2(8 - bits), Pow2(rest));
    assert 8 * |b| - bits == (8 - bits) + rest;
  }

  /** Comparing with a multiple of the place value compares the top digit. */
  lemma TopDigit(x: nat, low: nat, y: nat, p: nat)
    requires low < p
    ensures x * p + low < y * p <==> x < y
  {
    if x < y {
      TimesGrows(x + 1, y, p);
      assert (x + 1) * p == x * p + p;
    } else {
      TimesGrows(y, x, p);
    }
  }

  /** Bitwise and. */
  function BitAnd(x: nat, y: nat): nat {
    if x == 0 then 0 else (if x % 2 == 1 && y % 2 == 1 then 1 else 0) + 2 * BitAnd(x / 2, y / 2)
  }

  lemma {:induction false} AndOnes(x: nat, n: nat, ones: nat)
    requires x < Pow2(n) == ones + 1
    ensures BitAnd(x, ones) == x
  {
    if x > 0 && n > 0 {
      AndOnes(x / 2, n - 1, ones / 2);
    }
  }

  /** Masking with `p` ones above `k` zeros leaves nothing exactly of the numbers below 2^k. */
  lemma {:induction false} MaskIsBound(x: nat, p: nat, k: nat, mask: nat)
    requires x < Pow2(k + p) == mask + Pow2(k)
    ensures BitAnd(x, mask) == 0 <==> x < Pow2(k)
  {
    if k == 0 {
      AndOnes(x, p, mask);
    } else {
      assert Pow2(k + p) == 2 * Pow2(k - 1 + p);
      MaskIsBound(x / 2, p, k - 1, mask / 2);
    }
  }

  /** The check's mask: all ones shifted left within the byte. */
  function Mask(partial: nat): Byte
    requires partial <= 8
  {
    255 * Pow2(8 - partial) % 256
  }

  lemma MaskBits(partial: nat)
    requires 1 <= partial < 8
    ensures Mask(partial) == Pow2(8) - Pow2(8 - partial)
  {
    assert Pow2(1) == 2 && Pow2(2) == 4 && Pow2(3) == 8 && Pow2(4) == 16 && Pow2(5) == 32 && Pow2(6) == 64
           && Pow2(7) == 128 && Pow2(8) == 256;
  }

  predicate TopBitsClear(x: Byte, partial: nat)
    requires 1 <= partial < 8
  {
    BitAnd(x, Mask(partial)) == 0
  }

  lemma TopBitsBound(x: Byte, partial: nat)
    requires 1 <= partial < 8
    ensures TopBitsClear(x, partial) <==> x < Pow2(8 - partial)
  {
    MaskBits(partial);
    assert Pow2(8) == 256;
    MaskIsBound(x, partial, 8 - partial, Mask(partial));
  }

  lemma PeelNext(b: seq<Byte>, bits: nat, i: nat)
    requires i < |b| && 8 * i + 8 <= bits
    ensures BelowTarget(b[i..], bits - 8 * i) <==> b[i] == 0 && BelowTarget(b[i + 1..], bits - 8 * (i + 1))
  {
    PeelByte(b[i..], bits - 8 * i);
    assert b[i..][1..] == b[i + 1..];
  }

  lemma NoBitsLeft(b: seq<Byte>)
    ensures BelowTarget(b, 0)
  {
    BigEndianBound(b);
  }

  /** The byte-by-byte check with its mask decides exactly the numeric bound. */
  method HasLeadingZeroBits(b: seq<Byte>, bits: Byte) returns (r: bool)
    ensures r <==> BelowTarget(b, bits)
  {
    var full, partial := bits / 8, bits % 8;
    if full > |b| {
      return false;
    }
    var i := 0;
    while i < full
      invariant 0 <= i <= full <= |b|
      invariant BelowTarget(b, bits) <==> BelowTarget(b[i..], bits - 8 * i)
    {
      PeelNext(b, bits, i);
      if b[i] != 0 {
        return false;
      }
      i := i + 1;
    }
    if partial == 0 {
      NoBitsLeft(b[full..]);
      return true;
    }
    if full >= |b| {
      return false;
    }
    FirstByte(b[full..], partial);
    TopBitsBound(b[full], partial);
    return TopBitsClear(b[full], partial);
  }

  // ------------------------------------------------------------------
  // The challenge header
  // ------------------------------------------------------------------

  /** A signed 64-bit integer. */
  type Int64 = x: int | -0x8000_0000_0000_0000 <= x < 0x8000_0000_0000_0000

  type Nonce = s: seq<Byte> | |s| == 16 witness seq(16, _ => 0)

  datatype Challenge = Challenge(issuedAt: Int64, expiry: Int64, difficulty: Byte, nonce: Nonce)

  /** The `n` low-order bytes, most significant first. */
  function Digits(x: nat, n: nat): (r: seq<Byte>)
    ensures |r| == n
  {
    if n == 0 then [] else Digits(x / 256, n - 1) + [x % 256]
  }

  lemma {:induction false} DigitsRead(x: nat, n: nat)
    requires x < Pow2(8 * n)
    ensures BigEndian(Digits(x, n)) == x
  {
    if n > 0 {
      Pow2Byte(8 * (n - 1));
      DigitsRead(x / 256, n - 1);
      assert Digits(x, n)[..n - 1] == Digits(x / 256, n - 1);
    }
  }

  lemma {:induction false} ReadDigits(b: seq<Byte>)
    ensures Digits(BigEndian(b), |b|) == b
  {
    if b != [] {
      ReadDigits(b[..|b| - 1]);
      assert BigEndian(b) / 256 == BigEndian(b[..|b| - 1]) && BigEndian(b) % 256 == b[|b| - 1];
    }
  }

  const TWO_TO_64: nat := 0x1_0000_0000_0000_0000

  function Unsigned(x: Int64): (r: nat)
    ensures r < TWO_TO_64
  {
    if x < 0 then x + TWO_TO_64 else x
  }

  function Signed(u: nat): Int64
    requires u < TWO_TO_64
  {
    if u < 0x8000_0000_0000_0000 then u else u - TWO_TO_64
  }

  lemma SixtyFourBits()
    ensures Pow2(64) == TWO_TO_64
  {
    Pow2Byte(0);
    Pow2Byte(8);
    Pow2Byte(16);
    Pow2Byte(24);
    Pow2Byte(32);
    Pow2Byte(40);
    Pow2Byte(48);
    Pow2Byte(56);
  }

  function Encode(c: Challenge): (r: seq<Byte>)
    ensures |r| == 33
  {
    Digits(Unsigned(c.issuedAt), 8) + Digits(Unsigned(c.expiry), 8) + [c.difficulty] + c.nonce
  }

  function Word(b: seq<Byte>): Int64
    requires |b| == 8
  {
    var u := BigEndian(b);
    if u < TWO_TO_64 then Signed(u) else 0
  }

  function Decode(b: seq<Byte>): Challenge
    requires |b| == 33
  {
    Challenge(Word(b[..8]), Word(b[8..16]), b[16], b[17..])
  }

  lemma WordRoundTrip(x: Int64)
    ensures Word(Digits(Unsigned(x), 8)) == x
  {
    SixtyFourBits();
    DigitsRead(Unsigned(x), 8);
  }

  lemma WordIsExact(b: seq<Byte>)
    requires |b| == 8
    ensures Digits(Unsigned(Word(b)), 8) == b
  {
    SixtyFourBits();
    BigEndianBound(b);
    ReadDigits(b);
  }

  lemma WordsOfHeader(c: Challenge)
    ensures Encode(c)[..8] == Digits(Unsigned(c.issuedAt), 8) && Encode(c)[8..16] == Digits(Unsigned(c.expiry), 8)
    ensures Encode(c)[16] == c.difficulty && Encode(c)[17..] == c.nonce
  {
  }

  /** The first two words are the timestamps, most significant byte first. */
  lemma HeaderLayout(c: Challenge)
    ensures BigEndian(Encode(c)[..8]) == Unsigned(c.issuedAt)
    ensures BigEndian(Encode(c)[8..16]) == Unsigned(c.expiry)
  {
    WordsOfHeader(c);
    SixtyFourBits();
    DigitsRead(Unsigned(c.issuedAt), 8);
    DigitsRead(Unsigned(c.expiry), 8);
  }

  lemma DecodeEncode(c: Challenge)
    ensures Decode(Encode(c)) == c
  {
    WordsOfHeader(c);
    WordRoundTrip(c.issuedAt);
    WordRoundTrip(c.expiry);
  }

  lemma EncodeDecode(b: seq<Byte>)
    requires |b| == 33
    ensures Encode(Decode(b)) == b
  {
    WordIsExact(b[..8]);
    WordIsExact(b[8..16]);
    assert b == b[..8] + b[8..16] + [b[16]] + b[17..];
  }
}
