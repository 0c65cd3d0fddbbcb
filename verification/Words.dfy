// Machine words: the 32-bit wrap-around arithmetic of the target, and 32-bit
// little-endian fields inside a byte buffer.
module Words {
  newtype uint8 = x: int | 0 <= x < 0x100

  const WORD := 0x1_0000_0000
  const HALF := 0x8000_0000

  type word = x: int | 0 <= x < WORD

  // What a 32-bit unsigned variable holds after being assigned x.
  function Wrap(x: int): word {
    x % WORD
  }

  // The cast (int32_t)x.
  function Signed(x: word): int {
    if x < HALF then x else x - WORD
  }

  // (int32_t)(a - b) recovers the true difference of two unbounded times
  // exactly when that difference fits in an int32.
  lemma SignedDifference(a: int, b: int)
    ensures Signed(Wrap(Wrap(a) - Wrap(b))) == a - b <==> -HALF <= a - b < HALF
  {
    WrapDifference(a, b);
  }

  // An interval measured with uint32 arithmetic is the true one modulo 2^32.
  lemma WrapDifference(a: int, b: int)
    ensures Wrap(Wrap(a) - Wrap(b)) == Wrap(a - b)
  {
    var k := a / WORD - b / WORD;
    assert a - b == (Wrap(a) - Wrap(b)) + k * WORD;
    WrapPeriod(Wrap(a) - Wrap(b), k);
  }

  lemma WrapPeriod(x: int, k: int)
    ensures Wrap(x + k * WORD) == Wrap(x)
  {
    var q, r := x / WORD, x % WORD;
    assert x + k * WORD == (q + k) * WORD + r;
  }

  // Comparing against a quotient tells whether a product exceeds a limit.
  lemma DivisionTest(limit: nat, n: nat, size: nat)
    requires 0 < size
    ensures n > limit / size <==> n * size > limit
  {
    var q := limit / size;
    if n > q {
      MulMonotone(q + 1, n, size);
    } else {
      MulMonotone(n, q, size);
    }
  }

  lemma MulMonotone(a: nat, b: nat, c: nat)
    requires a <= b
    ensures a * c <= b * c
  {
  }

  // -- Little-endian fields ----------------------------------------------------

  function Load32(m: seq<uint8>, a: nat): word
    requires a + 4 <= |m|
  {
    m[a] as int + 0x100 * (m[a + 1] as int + 0x100 * (m[a + 2] as int + 0x100 * m[a + 3] as int))
  }

  function Byte(v: word): uint8 {
    (v % 0x100) as uint8
  }

  // The four bytes of v, least significant first, load back as v.
  lemma BytesLoadBack(m: seq<uint8>, a: nat, v: word)
    requires a + 4 <= |m|
    requires m[a] == Byte(v) && m[a + 1] == Byte(v / 0x100)
    requires m[a + 2] == Byte(v / 0x1_0000) && m[a + 3] == Byte(v / 0x100_0000)
    ensures Load32(m, a) == v
  {
    var v1 := v / 0x100;
    var v2 := v1 / 0x100;
    assert v2 == v / 0x1_0000 && v2 / 0x100 == v / 0x100_0000;
  }
}
