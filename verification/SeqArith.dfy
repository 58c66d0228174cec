/**
 Serial-number arithmetic of the kernel's 32- and 64-bit sequence numbers.

 A sequence number is kept here as an unbounded integer.  The source stores only its low 32 (or 64)
 bits, so every comparison below is written on the difference reduced modulo 2^32 (or 2^64): it cannot
 see anything else of its arguments, which is what `BeforeSeesLowWords` states.
 */
module SeqArith {
  const TWO_31: int := 0x8000_0000
  const TWO_32: int := 0x1_0000_0000
  const TWO_63: int := 0x8000_0000_0000_0000
  const TWO_64: int := 0x1_0000_0000_0000_0000

  /** The low 32-bit word: what a `u32` field holds of a number. */
  function Low32(x: int): (w: int)
    ensures 0 <= w < TWO_32
  {
    x % TWO_32
  }

  /** What a `u64` field holds of a number. */
  function Low64(x: int): (w: int)
    ensures 0 <= w < TWO_64
  {
    x % TWO_64
  }

  /** The high 32-bit word of the 64-bit form of a number. */
  function High32(x: int): (w: int)
    ensures 0 <= w < TWO_32
  {
    (x / TWO_32) % TWO_32
  }

  /** Two numbers less than 2^31 apart. */
  predicate Near(a: int, b: int) {
    -TWO_31 < a - b < TWO_31
  }

  /** `before(seq1, seq2)`: the 32-bit difference is negative as a signed word. */
  predicate Before(a: int, b: int): (r: bool)
    ensures Near(a, b) ==> (r <==> a < b)
  {
    (a - b) % TWO_32 >= TWO_31
  }

  /** `after(seq1, seq2)` is `before(seq2, seq1)`. */
  predicate After(a: int, b: int): (r: bool)
    ensures Near(a, b) ==> (r <==> a > b)
  {
    Before(b, a)
  }

  /** Equality of two `u32` fields. */
  predicate SameSeq(a: int, b: int): (r: bool)
    ensures Near(a, b) ==> (r <==> a == b)
  {
    (a - b) % TWO_32 == 0
  }

  /** `before64(seq1, seq2)`. */
  predicate Before64(a: int, b: int): (r: bool)
    ensures -TWO_63 < a - b < TWO_63 ==> (r <==> a < b)
  {
    (a - b) % TWO_64 >= TWO_63
  }

  predicate After64(a: int, b: int): (r: bool)
    ensures -TWO_63 < a - b < TWO_63 ==> (r <==> a > b)
  {
    Before64(b, a)
  }

  /** The number nearest to `near` whose low word is `w`. */
  function Unwrap(near: int, w: int): (n: int)
    ensures Low32(n) == Low32(w)
    ensures near - TWO_31 <= n < near + TWO_31
  {
    var d := (w - near) % TWO_32;
    var n := near + (if d >= TWO_31 then d - TWO_32 else d);
    LowEqual(n, w, (n - w) / TWO_32);
    n
  }

  lemma LowEqual(a: int, b: int, k: int)
    requires a - b == k * TWO_32
    ensures Low32(a) == Low32(b)
  {
  }

  lemma LowEqual64(a: int, b: int, k: int)
    requires a - b == k * TWO_64
    ensures Low64(a) == Low64(b)
  {
  }

  lemma Low64Idempotent(n: int)
    ensures Low64(Low64(n)) == Low64(n)
  {
  }

  lemma Low64Add(a: int, k: int)
    ensures Low64(Low64(a) + k) == Low64(a + k)
  {
    LowEqual64(Low64(a) + k, a + k, -(a / TWO_64));
  }

  /** Any number near enough is the one `Unwrap` finds. */
  lemma UnwrapUnique(near: int, n: int, w: int)
    requires Near(near, n) && Low32(n) == Low32(w)
    ensures Unwrap(near, w) == n
  {
    var u := Unwrap(near, w);
    assert Low32(u) == Low32(n);
    assert u - n == (u / TWO_32 - n / TWO_32) * TWO_32;
  }

  /** The comparisons depend on nothing but the low words of their arguments. */
  lemma BeforeSeesLowWords(a: int, b: int, c: int, d: int)
    requires Low32(a) == Low32(c) && Low32(b) == Low32(d)
    ensures Before(a, b) == Before(c, d)
    ensures SameSeq(a, b) == SameSeq(c, d)
  {
    var k := (a / TWO_32 - c / TWO_32) - (b / TWO_32 - d / TWO_32);
    assert (a - b) - (c - d) == k * TWO_32;
    LowEqual(a - b, c - d, k);
  }

  lemma Before64SeesLowWords(a: int, b: int, c: int, d: int)
    requires Low64(a) == Low64(c) && Low64(b) == Low64(d)
    ensures Before64(a, b) == Before64(c, d)
  {
    var k := (a / TWO_64 - c / TWO_64) - (b / TWO_64 - d / TWO_64);
    assert (a - b) - (c - d) == k * TWO_64;
    LowEqual64(a - b, c - d, k);
  }

  /** C's integer division, which truncates toward zero. */
  function TruncDiv(a: int, b: int): (q: int)
    requires b > 0
    ensures a >= 0 ==> q == a / b
    ensures a < 0 ==> q == -((-a) / b)
  {
    if a >= 0 then a / b else -((-a) / b)
  }

  /** A value converted to a signed 32-bit `int`. */
  function ToInt32(x: int): (r: int)
    ensures -TWO_31 <= r < TWO_31
    ensures -TWO_31 <= x < TWO_31 ==> r == x
  {
    var w := Low32(x);
    if w >= TWO_31 then w - TWO_32 else w
  }
}
