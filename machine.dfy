/**
 * Fixed-width unsigned arithmetic of the ESP32 target.  `millis()` and the
 * timers built on it are 32-bit (`unsigned long` is 32 bits there), points
 * carry 64-bit timestamps; C++ unsigned arithmetic wraps modulo 2^width.
 */
module Machine {
  const U32: nat := 0x1_0000_0000
  const U64: nat := 0x1_0000_0000_0000_0000

  predicate IsU32(x: int) {
    0 <= x < U32
  }

  predicate IsU64(x: int) {
    0 <= x < U64
  }

  /** The range of the target's `int` (32 bits, two's complement). */
  predicate IsI32(x: int) {
    -0x8000_0000 <= x < 0x8000_0000
  }

  /** The values a `uint64_t` holds. */
  type Nat64 = x: int | 0 <= x < U64

  /** The values a `uint32_t` holds. */
  type Nat32 = x: int | 0 <= x < U32

  /** A value stored into a `uint32_t`: reduced modulo 2^32. */
  function Wrap32(x: int): (r: nat)
    ensures IsU32(r)
    ensures IsU32(x) ==> r == x
  {
    x % U32
  }

  /** `(uint32_t)(now - since)`: the time between two 32-bit timestamps across a wrap of the counter. */
  function Elapsed32(now: nat, since: nat): (r: nat)
    requires IsU32(now) && IsU32(since)
    ensures IsU32(r)
    ensures since <= now ==> r == now - since
    ensures now < since ==> r == now + U32 - since
  {
    Wrap32(now - since)
  }

  /** Wrap-safety: the elapsed time after `d` ticks is `d`, wherever the counter started. */
  lemma ElapsedAfter(since: nat, d: nat)
    requires IsU32(since) && IsU32(d)
    ensures Elapsed32(Wrap32(since + d), since) == d
  {
    if since + d >= U32 {
      assert Wrap32(since + d) == since + d - U32;
    }
  }

  /** `int` arithmetic of the target: a result is reduced to 32-bit two's complement. */
  function WrapI32(x: int): (r: int)
    ensures IsI32(r)
  {
    (x + 0x8000_0000) % U32 - 0x8000_0000
  }

  lemma MulAtLeast(t: int, m: int)
    requires t >= 1 && m > 0
    ensures t * m >= m
  {
    var u := t - 1;
    assert t * m == u * m + m;
    assert u * m >= 0;
  }

  /** Euclidean division has one quotient and one remainder. */
  lemma DivModUnique(x: int, q: int, r: int, m: int)
    requires m > 0 && 0 <= r < m && x == q * m + r
    ensures x % m == r && x / m == q
  {
    var q' := x / m;
    var r' := x % m;
    assert x == q' * m + r';
    assert (q - q') * m == r' - r;
    if q > q' {
      MulAtLeast(q - q', m);
    } else if q < q' {
      MulAtLeast(q' - q, m);
    }
  }

  lemma ModAddMultiple(a: int, k: int, m: int)
    requires m > 0
    ensures (a + k * m) % m == a % m
  {
    DivModUnique(a + k * m, a / m + k, a % m, m);
  }

  /** Wrapping to 32 bits keeps the remainder by any divisor of 2^32. */
  lemma WrapKeepsLowBits(x: int, m: nat)
    requires m > 0 && U32 % m == 0
    ensures WrapI32(x) % m == x % m
  {
    var y := x + 0x8000_0000;
    var q := y / U32;
    assert y == q * U32 + y % U32;
    assert WrapI32(x) == x - q * U32;
    var k := U32 / m;
    assert k * m == U32;
    MulAssoc(q, k, m);
    ModAddMultiple(x, -(q * k), m);
  }

  lemma MulAssoc(a: int, b: int, c: int)
    ensures (a * b) * c == a * (b * c)
    ensures -(a * b) * c == -(a * (b * c))
  {
  }
}
