/** Target ids: the 63-bit id folded from a hash, and the 31-bit id older subscribers read. */
module TargetIds {
  import opened Text

  type int8 = x: int | -128 <= x < 128

  const INT32_MAX: int := 0x7FFF_FFFF
  const WORD: int := 0x1_0000_0000_0000_0000

  // ----- bitwise operators on the unsigned view of a word -----

  function BitOr(a: nat, b: nat): nat
    decreases a + b
  {
    if a == 0 && b == 0 then 0
    else 2 * BitOr(a / 2, b / 2) + (if a % 2 == 1 || b % 2 == 1 then 1 else 0)
  }

  function BitAnd(a: nat, b: nat): nat
    decreases a
  {
    if a == 0 then 0
    else 2 * BitAnd(a / 2, b / 2) + (if a % 2 == 1 && b % 2 == 1 then 1 else 0)
  }

  function Pow2(k: nat): (p: nat)
    ensures p > 0
  {
    if k == 0 then 1 else 2 * Pow2(k - 1)
  }

  lemma ModDouble(a: nat, m: nat)
    requires m > 0
    ensures a % (2 * m) == 2 * ((a / 2) % m) + a % 2
  {
    var h := a / 2;
    var q, r := h / m, h % m;
    assert h == q * m + r;
    assert a == q * (2 * m) + (2 * r + a % 2);
    DivModUnique(a, 2 * m, q, 2 * r + a % 2);
  }

  lemma DivModUnique(a: nat, d: nat, q: nat, r: nat)
    requires d > 0 && r < d && a == q * d + r
    ensures a % d == r
  {
    var q', r' := a / d, a % d;
    assert a == q' * d + r';
    if q < q' {
      MulMonotone(q + 1, q', d);
    } else if q' < q {
      MulMonotone(q' + 1, q, d);
    }
  }

  lemma MulMonotone(x: nat, y: nat, d: nat)
    requires x <= y
    ensures x * d <= y * d
  {
    assert y * d == x * d + (y - x) * d;
  }

  lemma {:induction false} AndMask(a: nat, k: nat)
    ensures BitAnd(a, Pow2(k) - 1) == a % Pow2(k)
    decreases k
  {
    if k == 0 {
      AndZero(a);
    } else if a != 0 {
      AndMask(a / 2, k - 1);
      ModDouble(a, Pow2(k - 1));
    }
  }

  lemma AndZero(a: nat)
    ensures BitAnd(a, 0) == 0
  {
  }

  lemma {:induction false} OrDisjoint(x: nat, k: nat, b: nat)
    requires b < Pow2(k)
    ensures BitOr(x * Pow2(k), b) == x * Pow2(k) + b
    decreases k
  {
    if k == 0 {
      OrZero(x);
    } else {
      var h := x * Pow2(k - 1);
      assert x * Pow2(k) == 2 * h;
      OrDisjoint(x, k - 1, b / 2);
    }
  }

  lemma {:induction false} OrZero(a: nat)
    ensures BitOr(a, 0) == a
  {
    if a == 0 {
    } else {
      OrZero(a / 2);
    }
  }

  // ----- folding a hash into an id -----

  /** `hash[i] & 0xFF`: the byte behind a signed char. */
  function Byte(c: int8): nat { c % 256 }

  lemma ByteExact(c: int8)
    ensures Byte(c) == if c < 0 then c + 256 else c
  {
  }

  /** The number whose base-256 digits, most significant first, are the bytes. */
  function BigEndian(bytes: seq<int8>): nat {
    if bytes == [] then 0 else BigEndian(bytes[..|bytes| - 1]) * 256 + Byte(bytes[|bytes| - 1])
  }

  lemma {:induction false} BigEndianBound(bytes: seq<int8>)
    ensures BigEndian(bytes) < Pow2(8 * |bytes|)
  {
    if bytes == [] {
    } else {
      BigEndianBound(bytes[..|bytes| - 1]);
      Pow2Byte(8 * |bytes| - 8);
    }
  }

  lemma Pow2Byte(k: nat)
    ensures Pow2(k + 8) == 256 * Pow2(k)
  {
    assert Pow2(k + 4) == 2 * Pow2(k + 3) == 4 * Pow2(k + 2) == 8 * Pow2(k + 1) == 16 * Pow2(k);
    assert Pow2(k + 8) == 2 * Pow2(k + 7) == 4 * Pow2(k + 6) == 8 * Pow2(k + 5) == 16 * Pow2(k + 4);
  }

  lemma PowerValues()
    ensures Pow2(8) == 256 && Pow2(31) == 0x8000_0000
    ensures Pow2(63) == INT64_LIMIT && Pow2(64) == WORD
  {
    hide Pow2;
    PowersToWord();
    Pow2Double(63);
    Pow2Double(31);
  }

  lemma Pow2Double(k: nat)
    ensures Pow2(k + 1) == 2 * Pow2(k)
  {
  }

  lemma PowersToWord()
    ensures Pow2(8) == 256 && Pow2(32) == 0x1_0000_0000 && Pow2(64) == WORD
  {
    assert Pow2(0) == 1;
    hide Pow2;
    Pow2Byte(0); Pow2Byte(8); Pow2Byte(16); Pow2Byte(24); Pow2Byte(32); Pow2Byte(40); Pow2Byte(48); Pow2Byte(56);
  }

  lemma QuotientUnique(a: nat, d: nat, q: nat, r: nat)
    requires d > 0 && r < d && a == q * d + r
    ensures a / d == q
  {
    var q', r' := a / d, a % d;
    assert a == q' * d + r';
    if q < q' {
      MulMonotone(q + 1, q', d);
    } else if q' < q {
      MulMonotone(q' + 1, q, d);
    }
  }

  lemma AppendedByte(y: nat, b: nat, p: nat)
    requires p > 0 && b < 256
    ensures (y * 256 + b) / (256 * p) == y / p
  {
    var q, r := y / p, y % p;
    assert y == q * p + r;
    assert y * 256 + b == q * (256 * p) + (256 * r + b);
    QuotientUnique(y * 256 + b, 256 * p, q, 256 * r + b);
  }

  /** Dividing by 256 p and reducing modulo 256 undoes nothing but the appended byte. */
  lemma DigitKept(y: nat, b: nat, p: nat, digit: nat)
    requires p > 0 && b < 256 && y / p % 256 == digit
    ensures (y * 256 + b) / (256 * p) % 256 == digit
  {
    AppendedByte(y, b, p);
  }

  lemma LastDigit(y: nat, b: nat)
    requires b < 256
    ensures (y * 256 + b) / 1 % 256 == b
  {
  }

  /** The digit of a number at a power. */
  function DigitAt(x: nat, p: nat): nat
    requires p > 0
  {
    x / p % 256
  }

  /** The bytes can be read back from the number, the first being the most significant. */
  lemma {:induction false} BigEndianDigits(bytes: seq<int8>, i: nat)
    requires i < |bytes|
    ensures DigitAt(BigEndian(bytes), Pow2(8 * (|bytes| - 1 - i))) == Byte(bytes[i])
  {
    hide Pow2, DigitAt, BigEndian;
    var n := |bytes| - 1;
    BigEndianLast(bytes);
    if i == n {
      PowerOfNone();
      LastDigitAt(BigEndian(bytes[..n]), Byte(bytes[n]));
    } else {
      BigEndianDigits(bytes[..n], i);
      Pow2Byte(8 * (n - 1 - i));
      DigitKeptAt(BigEndian(bytes[..n]), Byte(bytes[n]), Pow2(8 * (n - 1 - i)));
    }
  }

  lemma DigitKeptAt(y: nat, b: nat, p: nat)
    requires p > 0 && b < 256
    ensures DigitAt(y * 256 + b, 256 * p) == DigitAt(y, p)
  {
    DigitKept(y, b, p, y / p % 256);
  }

  lemma LastDigitAt(y: nat, b: nat)
    requires b < 256
    ensures DigitAt(y * 256 + b, 1) == b
  {
    LastDigit(y, b);
  }

  lemma BigEndianLast(bytes: seq<int8>)
    requires bytes != []
    ensures BigEndian(bytes) == BigEndian(bytes[..|bytes| - 1]) * 256 + Byte(bytes[|bytes| - 1])
    ensures Byte(bytes[|bytes| - 1]) < 256
  {
  }

  lemma PowerOfNone()
    ensures Pow2(0) == 1
  {
  }

  /** A shift by eight followed by an or appends a byte, as long as no bit leaves the word. */
  lemma FoldByte(bytes: seq<int8>, i: nat)
    requires i < 8 && i < |bytes|
    ensures BitOr((BigEndian(bytes[..i]) * 256) % WORD, Byte(bytes[i])) == BigEndian(bytes[..i + 1])
  {
    var word := BigEndian(bytes[..i]);
    PowerValues();
    BigEndianBound(bytes[..i]);
    Pow2Monotone(8 * i, 56);
    Pow2Byte(56);
    NoLoss(word * 256);
    OrDisjoint(word, 8, Byte(bytes[i]));
    assert bytes[..i + 1][..i] == bytes[..i];
  }

  lemma NoLoss(x: nat)
    requires x < WORD
    ensures x % WORD == x
  {
  }

  /** The eight shift-and-or rounds never lose a bit, and masking the sign away leaves the
      big-endian value of the first eight hash bytes modulo 2^63. */
  method GenerateUniqueTargetId(hash: seq<int8>) returns (id: int64)
    requires |hash| == 16
    ensures id == BigEndian(hash[..8]) % 0x8000_0000_0000_0000
  {
    var word: nat := 0;
    for i := 0 to 8
      invariant word == BigEndian(hash[..i])
    {
      FoldByte(hash, i);
      word := BitOr((word * 256) % WORD, Byte(hash[i]));
    }
    PowerValues();
    AndMask(word, 63);
    id := BitAnd(word, 0x7FFF_FFFF_FFFF_FFFF);
  }

  lemma {:induction false} Pow2Monotone(a: nat, b: nat)
    requires a <= b
    ensures Pow2(a) <= Pow2(b)
  {
    if a == b {
    } else {
      Pow2Monotone(a, b - 1);
    }
  }

  // ----- the id of older subscribers -----

  function LegacyDdsTrackId(id: int64): int {
    if id <= 0 then 0
    else if id > INT32_MAX then BitAnd(id, 0x7FFF_FFFF)
    else id
  }

  lemma LegacyOfNone(id: int64)
    requires id <= 0
    ensures LegacyDdsTrackId(id) == 0
  {
  }

  lemma LegacyIsMod(id: int64)
    requires id > 0
    ensures LegacyDdsTrackId(id) == id % 0x8000_0000
  {
    hide BitAnd, Pow2;
    PowerValues();
    AndMask(id, 31);
  }

  lemma EqualRemainders(a: int, b: int)
    ensures a % 0x8000_0000 == b % 0x8000_0000 <==> (a - b) % 0x8000_0000 == 0
  {
    var q, r := a / 0x8000_0000 - b / 0x8000_0000, a % 0x8000_0000 - b % 0x8000_0000;
    assert a - b == q * 0x8000_0000 + r;
  }

  /** Two targets share a legacy id iff their ids agree modulo 2^31. */
  lemma LegacyCollision(a: int64, b: int64)
    requires a > 0 && b > 0
    ensures LegacyDdsTrackId(a) == LegacyDdsTrackId(b) <==> (a - b) % 0x8000_0000 == 0
  {
    hide LegacyDdsTrackId;
    LegacyIsMod(a);
    LegacyIsMod(b);
    EqualRemainders(a, b);
  }
}
