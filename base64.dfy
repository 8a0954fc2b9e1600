/**
 * Base64 as section 4 of RFC 4648 defines it, and the lenient decoder of the
 * admin page (`_b64DecodeBasic`): it stops at the first `=`, skips every
 * character outside the alphabet and emits a byte whenever eight bits have
 * gathered.  Bytes are characters below 256.
 *
 * The decoder shifts its bits into a 32-bit `int` that is never cleared, so
 * the accumulator overflows after six digits; only its low bits are ever
 * read.  The model keeps the accumulator as the two's-complement value the
 * target holds and proves that the bytes depend on the pending bits alone.
 */
module Base64 {
  import opened Wrappers
  import opened Machine

  /** The alphabet of section 4 of RFC 4648, in digit order. */
  const Alphabet: string := "ABCDEFGHIJKLMNOPQRSTUVWXYZ" + "abcdefghijklmnopqrstuvwxyz" + "0123456789" + "+/"

  /** Text made of bytes. */
  predicate Bytes(s: string) {
    forall i :: 0 <= i < |s| ==> s[i] as int < 256
  }

  /** The character of digit `d`, by ranges of the alphabet. */
  function DigitChar(d: nat): char
    requires d < 64
  {
    if d < 26 then ('A' as int + d) as char
    else if d < 52 then ('a' as int + (d - 26)) as char
    else if d < 62 then ('0' as int + (d - 52)) as char
    else if d == 62 then '+'
    else '/'
  }

  /**
   * `strchr(b64, c) - b64`: the digit `c` stands for.  A NUL finds the
   * alphabet's terminator, at position 64.
   */
  function DigitOf(c: char): (r: Option<nat>)
    ensures r.Some? ==> r.value <= 64
  {
    if c == '\0' then Some(64)
    else if 'A' <= c <= 'Z' then Some(c as int - 'A' as int)
    else if 'a' <= c <= 'z' then Some(c as int - 'a' as int + 26)
    else if '0' <= c <= '9' then Some(c as int - '0' as int + 52)
    else if c == '+' then Some(62)
    else if c == '/' then Some(63)
    else None
  }

  /** The alphabet literal spells the digits in order. */
  lemma AlphabetIsDigits()
    ensures |Alphabet| == 64
    ensures forall d :: 0 <= d < 64 ==> Alphabet[d] == DigitChar(d)
  {
    var upper := "ABCDEFGHIJKLMNOPQRSTUVWXYZ";
    var lower := "abcdefghijklmnopqrstuvwxyz";
    var digits := "0123456789";
    assert forall d :: 0 <= d < 26 ==> upper[d] == DigitChar(d);
    assert forall d :: 0 <= d < 26 ==> lower[d] == DigitChar(d + 26);
    assert forall d :: 0 <= d < 10 ==> digits[d] == DigitChar(d + 52);
  }

  /** `DigitOf` is the position `strchr` finds: a character has a digit exactly when it is in the alphabet. */
  lemma DigitOfIsPosition(c: char)
    requires c != '\0'
    ensures DigitOf(c).Some? <==> c in Alphabet
    ensures DigitOf(c).Some? ==> DigitOf(c).value < 64 && Alphabet[DigitOf(c).value] == c
  {
    AlphabetIsDigits();
    if c in Alphabet {
      var d :| 0 <= d < 64 && Alphabet[d] == c;
      assert DigitOf(DigitChar(d)) == Some(d);
    }
  }

  /** `2^k` for the even widths the decoder's bit count takes. */
  function Pow2(k: nat): (r: nat)
    requires k % 2 == 0 && k <= 12
    ensures r > 0
  {
    if k == 0 then 1 else if k == 2 then 4 else if k == 4 then 16 else if k == 6 then 64
    else if k == 8 then 256 else if k == 10 then 1024 else 4096
  }

  /** The bits gathered but not yet emitted: `nb` of them (0, 2, 4 or 6), with value `pend`. */
  datatype Acc = Acc(pend: nat, nb: nat) {
    predicate Valid() {
      nb % 2 == 0 && nb <= 6 && pend < Pow2(nb)
    }
  }

  /** Six more bits: once eight are there, the oldest eight leave as a byte. */
  function Gather(a: Acc, d: nat): (r: (string, Acc))
    requires a.Valid() && d <= 64
    ensures r.1.Valid() && |r.0| == (a.nb + 6) / 8
    ensures Bytes(r.0)
  {
    var p := (a.pend * 64 + d) % Pow2(a.nb + 6);
    if a.nb + 6 >= 8 then
      assert p / Pow2(a.nb - 2) < 256 by { DivBound(p, Pow2(a.nb - 2)); }
      ([(p / Pow2(a.nb - 2)) as char], Acc(p % Pow2(a.nb - 2), a.nb - 2))
    else ("", Acc(p, a.nb + 6))
  }

  lemma DivBound(p: nat, k: nat)
    requires k > 0 && p < 256 * k
    ensures p / k < 256
  {
    var q := p / k;
    assert p == q * k + p % k;
    if q >= 256 {
      MulAtLeast(q - 255, k);
    }
  }

  /** The bytes the rest `s` of the input yields after the bits `a`; a `=` ends the input. */
  function DecodeFrom(s: string, a: Acc): (r: string)
    requires a.Valid()
    decreases |s|
  {
    if |s| == 0 || s[0] == '=' then ""
    else match DigitOf(s[0])
      case None => DecodeFrom(s[1..], a)
      case Some(d) => Gather(a, d).0 + DecodeFrom(s[1..], Gather(a, d).1)
  }

  /** The decoder's run over `s` with `out` already emitted: `DecodeFrom` with an accumulator. */
  function Run(s: string, a: Acc, out: string): (r: string)
    requires a.Valid()
    decreases |s|
  {
    if |s| == 0 || s[0] == '=' then out
    else match DigitOf(s[0])
      case None => Run(s[1..], a, out)
      case Some(d) => Run(s[1..], Gather(a, d).1, out + Gather(a, d).0)
  }

  /** The run appends to what is already emitted exactly the bytes `DecodeFrom` names. */
  lemma {:induction false} RunAppends(s: string, a: Acc, out: string)
    requires a.Valid()
    ensures Run(s, a, out) == out + DecodeFrom(s, a)
    decreases |s|
  {
    if |s| == 0 || s[0] == '=' {
    } else {
      match DigitOf(s[0])
      case None => RunAppends(s[1..], a, out);
      case Some(d) =>
        var g := Gather(a, d);
        RunAppends(s[1..], g.1, out + g.0);
    }
  }

  /** What `_b64DecodeBasic` returns for `s`. */
  function Decode(s: string): string {
    DecodeFrom(s, Acc(0, 0))
  }

  /** Shifting a digit into the 32-bit accumulator keeps the pending bits exact. */
  lemma ShiftKeepsPending(val: int, nb: nat, d: nat)
    requires nb % 2 == 0 && nb <= 6 && d <= 64
    ensures WrapI32(val * 64 + d) % Pow2(nb + 6) == ((val % Pow2(nb)) * 64 + d) % Pow2(nb + 6)
  {
    var m := Pow2(nb + 6);
    var a := val / Pow2(nb);
    var r := val % Pow2(nb);
    assert Pow2(nb) * 64 == m;
    assert val * 64 + d == (r * 64 + d) + (a * Pow2(nb) * 64);
    assert a * Pow2(nb) * 64 == a * m;
    ModAddMultiple(r * 64 + d, a, m);
    WrapKeepsLowBits(val * 64 + d, m);
  }

  /** `(val >> k) & 0xFF` reads the oldest eight pending bits, and the rest stay pending. */
  lemma EmitReadsPending(val: int, k: nat, p: nat)
    requires k % 2 == 0 && k <= 4 && p == val % Pow2(k + 8)
    ensures (val / Pow2(k)) % 256 == p / Pow2(k)
    ensures val % Pow2(k) == p % Pow2(k)
  {
    var K := Pow2(k);
    var m := Pow2(k + 8);
    assert m == 256 * K;
    var q := val / m;
    assert val == q * m + p;
    var hi := p / K;
    assert p == hi * K + p % K;
    DivBound(p, K);
    MulAssoc(q, 256, K);
    assert val == (q * 256 + hi) * K + p % K;
    DivModUnique(val, q * 256 + hi, p % K, K);
    DivModUnique(q * 256 + hi, q, hi, 256);
  }

  /** `(x >> k) & 0xFF` on a 32-bit `int`: an arithmetic shift is a floor division. */
  function ByteAt(x: int, k: nat): (r: char)
    requires k % 2 == 0 && k <= 12
    ensures r as int < 256
  {
    ((x / Pow2(k)) % 256) as char
  }

  /** The accumulator `val`, with `valb + 8` bits pending, holds the bits `a` in its low bits. */
  ghost predicate Holds(val: int, valb: int, a: Acc) {
    a.Valid() && IsI32(val) && valb == a.nb - 8 && a.pend == val % Pow2(a.nb)
  }

  /**
   * One digit through the accumulator: shifting it in keeps the pending
   * bits, and when eight have gathered `(val >> valb) & 0xFF` is the byte
   * `Gather` emits.
   */
  lemma DigitStep(val: int, valb: int, a: Acc, d: nat)
    requires Holds(val, valb, a) && d <= 64
    ensures var val' := WrapI32(val * 64 + d);
            var g := Gather(a, d);
            if valb + 6 >= 0 then
              g.0 == [ByteAt(val', valb + 6)] && Holds(val', valb - 2, g.1)
            else g.0 == "" && Holds(val', valb + 6, g.1)
  {
    var val' := WrapI32(val * 64 + d);
    var p := (a.pend * 64 + d) % Pow2(a.nb + 6);
    ShiftKeepsPending(val, a.nb, d);
    if valb + 6 >= 0 {
      EmitReadsPending(val', valb + 6, p);
    }
  }

  /** `_b64DecodeBasic(in)`. */
  method DecodeBasic(input: string) returns (out: string)
    ensures out == Decode(input)
  {
    out := "";
    var val: int := 0;
    var valb: int := -8;
    ghost var a := Acc(0, 0);
    var i := 0;
    while i < |input|
      invariant i <= |input|
      invariant Holds(val, valb, a)
      invariant Run(input[i..], a, out) == Run(input, Acc(0, 0), "")
    {
      var c := input[i];
      if c == '=' {
        break;
      }
      assert input[i..][1..] == input[i + 1..];
      var digit := DigitOf(c);
      if digit.Some? {
        DigitStep(val, valb, a, digit.value);
        ghost var g := Gather(a, digit.value);
        assert Run(input[i..], a, out) == Run(input[i + 1..], g.1, out + g.0);
        val := WrapI32(val * 64 + digit.value);                 // val = (val << 6) + digit
        valb := valb + 6;
        if valb >= 0 {
          out := out + [ByteAt(val, valb)];
          valb := valb - 8;
        } else {
          assert out + g.0 == out;
        }
        a := g.1;
      }
      i := i + 1;
    }
    RunAppends(input, Acc(0, 0), "");
  }

  /** Four digits for three bytes, as section 4 of RFC 4648 groups them. */
  function Quad(x: nat, y: nat, z: nat): (r: string)
    requires x < 256 && y < 256 && z < 256
    ensures |r| == 4
  {
    [DigitChar(x / 4), DigitChar((x % 4) * 16 + y / 16), DigitChar((y % 16) * 4 + z / 64), DigitChar(z % 64)]
  }

  /** Base64 encoding of the bytes `b`, with `=` padding for a short last group. */
  function Encode(b: string): (r: string)
    requires Bytes(b)
    ensures |r| == (|b| + 2) / 3 * 4
    decreases |b|
  {
    if |b| == 0 then ""
    else if |b| == 1 then
      [DigitChar(b[0] as int / 4), DigitChar((b[0] as int % 4) * 16)] + "=="
    else if |b| == 2 then
      [DigitChar(b[0] as int / 4), DigitChar((b[0] as int % 4) * 16 + b[1] as int / 16),
       DigitChar((b[1] as int % 16) * 4)] + "="
    else Quad(b[0] as int, b[1] as int, b[2] as int) + Encode(b[3..])
  }

  /** The decoder reads back the digit of every character of the alphabet. */
  lemma DigitRoundTrip(d: nat)
    requires d < 64
    ensures DigitOf(DigitChar(d)) == Some(d) && DigitChar(d) != '='
  {
  }

  /** A digit at the head of the input goes through `Gather`. */
  lemma DecodeDigit(c: char, rest: string, a: Acc, d: nat)
    requires a.Valid() && c != '=' && DigitOf(c) == Some(d)
    ensures DecodeFrom([c] + rest, a) == Gather(a, d).0 + DecodeFrom(rest, Gather(a, d).1)
  {
    assert ([c] + rest)[1..] == rest;
  }

  /** The first digit of a group: six bits wait. */
  lemma GatherFirst(x: nat)
    requires x < 256
    ensures Gather(Acc(0, 0), x / 4) == ("", Acc(x / 4, 6))
  {
  }

  /** The second digit: the first byte leaves, four bits of the second wait. */
  lemma GatherSecond(x: nat, y: nat)
    requires x < 256 && y < 256
    ensures Gather(Acc(x / 4, 6), (x % 4) * 16 + y / 16) == ([x as char], Acc(y / 16, 4))
  {
    var p := x / 4 * 64 + (x % 4) * 16 + y / 16;
    assert x == x / 4 * 4 + x % 4;
    assert p == x * 16 + y / 16;
    DivModUnique(p, x, y / 16, 16);
    assert p % 4096 == p;
  }

  /** The third digit: the second byte leaves, two bits of the third wait. */
  lemma GatherThird(y: nat, z: nat)
    requires y < 256 && z < 256
    ensures Gather(Acc(y / 16, 4), (y % 16) * 4 + z / 64) == ([y as char], Acc(z / 64, 2))
  {
    var p := y / 16 * 64 + (y % 16) * 4 + z / 64;
    assert y == y / 16 * 16 + y % 16;
    assert p == y * 4 + z / 64;
    DivModUnique(p, y, z / 64, 4);
    assert p % 1024 == p;
  }

  /** The fourth digit: the third byte leaves and nothing waits. */
  lemma GatherFourth(z: nat)
    requires z < 256
    ensures Gather(Acc(z / 64, 2), z % 64) == ([z as char], Acc(0, 0))
  {
    var p := z / 64 * 64 + z % 64;
    assert p == z;
  }

  /** Two digits at the head of the input, each through `Gather`. */
  lemma DecodeTwo(c0: char, c1: char, rest: string, a: Acc, d0: nat, d1: nat)
    requires a.Valid() && c0 != '=' && c1 != '=' && DigitOf(c0) == Some(d0) && DigitOf(c1) == Some(d1)
    ensures var g := Gather(a, d0);
            var h := Gather(g.1, d1);
            DecodeFrom([c0, c1] + rest, a) == g.0 + h.0 + DecodeFrom(rest, h.1)
  {
    var g := Gather(a, d0);
    DecodeDigit(c0, [c1] + rest, a, d0);
    DecodeDigit(c1, rest, g.1, d1);
    assert [c0, c1] + rest == [c0] + ([c1] + rest);
  }

  /** A full group decodes to its three bytes and leaves no bits behind. */
  lemma DecodeQuad(x: nat, y: nat, z: nat, rest: string)
    requires x < 256 && y < 256 && z < 256
    ensures DecodeFrom(Quad(x, y, z) + rest, Acc(0, 0)) == [x as char, y as char, z as char] + DecodeFrom(rest, Acc(0, 0))
  {
    var d0, d1, d2, d3 := x / 4, (x % 4) * 16 + y / 16, (y % 16) * 4 + z / 64, z % 64;
    var c0, c1, c2, c3 := DigitChar(d0), DigitChar(d1), DigitChar(d2), DigitChar(d3);
    DigitRoundTrip(d0);
    DigitRoundTrip(d1);
    DigitRoundTrip(d2);
    DigitRoundTrip(d3);
    GatherFirst(x);
    GatherSecond(x, y);
    GatherThird(y, z);
    GatherFourth(z);
    DecodeTwo(c2, c3, rest, Acc(y / 16, 4), d2, d3);
    DecodeTwo(c0, c1, [c2, c3] + rest, Acc(0, 0), d0, d1);
    assert Quad(x, y, z) + rest == [c0, c1] + ([c2, c3] + rest);
  }

  /** One byte left: two digits and `==`. */
  lemma DecodeLastOne(x: nat)
    requires x < 256
    ensures DecodeFrom([DigitChar(x / 4), DigitChar((x % 4) * 16)] + "==", Acc(0, 0)) == [x as char]
  {
    DigitRoundTrip(x / 4);
    DigitRoundTrip((x % 4) * 16);
    GatherFirst(x);
    GatherSecond(x, 0);
    DecodeTwo(DigitChar(x / 4), DigitChar((x % 4) * 16), "==", Acc(0, 0), x / 4, (x % 4) * 16);
  }

  /** Two bytes left: three digits and `=`. */
  lemma DecodeLastTwo(x: nat, y: nat)
    requires x < 256 && y < 256
    ensures DecodeFrom([DigitChar(x / 4), DigitChar((x % 4) * 16 + y / 16), DigitChar((y % 16) * 4)] + "=", Acc(0, 0))
            == [x as char, y as char]
  {
    var d0, d1, d2 := x / 4, (x % 4) * 16 + y / 16, (y % 16) * 4;
    var c0, c1, c2 := DigitChar(d0), DigitChar(d1), DigitChar(d2);
    DigitRoundTrip(d0);
    DigitRoundTrip(d1);
    DigitRoundTrip(d2);
    GatherFirst(x);
    GatherSecond(x, y);
    GatherThird(y, 0);
    DecodeDigit(c2, "=", Acc(y / 16, 4), d2);
    DecodeTwo(c0, c1, [c2] + "=", Acc(0, 0), d0, d1);
    assert [c0, c1, c2] + "=" == [c0, c1] + ([c2] + "=");
  }

  /** Decoding undoes encoding: the admin page reads back any credentials a client encodes. */
  lemma {:induction false} DecodeEncode(b: string)
    requires Bytes(b)
    ensures Decode(Encode(b)) == b
    decreases |b|
  {
    if |b| == 0 {
    } else if |b| == 1 {
      DecodeLastOne(b[0] as int);
    } else if |b| == 2 {
      DecodeLastTwo(b[0] as int, b[1] as int);
      assert [b[0], b[1]] == b;
    } else {
      DecodeQuad(b[0] as int, b[1] as int, b[2] as int, Encode(b[3..]));
      DecodeEncode(b[3..]);
      assert b == b[..3] + b[3..];
    }
  }

  /** A character outside the alphabet, anywhere before the padding, changes nothing. */
  lemma {:induction false} SkipsForeign(x: string, c: char, y: string, a: Acc)
    requires a.Valid() && DigitOf(c).None? && c != '='
    ensures DecodeFrom(x + [c] + y, a) == DecodeFrom(x + y, a)
    decreases |x|
  {
    if |x| == 0 {
      assert x + [c] + y == [c] + y && x + y == y;
      assert ([c] + y)[1..] == y;
    } else {
      assert (x + [c] + y)[0] == x[0] && (x + y)[0] == x[0];
      assert (x + [c] + y)[1..] == x[1..] + [c] + y;
      assert (x + y)[1..] == x[1..] + y;
      if x[0] != '=' {
        match DigitOf(x[0])
        case None => SkipsForeign(x[1..], c, y, a);
        case Some(d) => SkipsForeign(x[1..], c, y, Gather(a, d).1);
      }
    }
  }

  /** Nothing after the first `=` is read. */
  lemma {:induction false} StopsAtPad(x: string, y: string, a: Acc)
    requires a.Valid()
    ensures DecodeFrom(x + "=" + y, a) == DecodeFrom(x, a)
    decreases |x|
  {
    if |x| == 0 {
      assert x + "=" + y == "=" + y;
    } else {
      assert (x + "=" + y)[0] == x[0];
      assert (x + "=" + y)[1..] == x[1..] + "=" + y;
      if x[0] != '=' {
        match DigitOf(x[0])
        case None => StopsAtPad(x[1..], y, a);
        case Some(d) => StopsAtPad(x[1..], y, Gather(a, d).1);
      }
    }
  }

  /** A character of the alphabet, by ranges. */
  predicate IsDigitChar(c: char) {
    'A' <= c <= 'Z' || 'a' <= c <= 'z' || '0' <= c <= '9' || c == '+' || c == '/'
  }

  /** Every character of an encoding is a digit of the alphabet or the padding `=`. */
  lemma {:induction false} EncodeAlphabet(b: string)
    requires Bytes(b)
    ensures forall i :: 0 <= i < |Encode(b)| ==> Encode(b)[i] == '=' || IsDigitChar(Encode(b)[i])
    decreases |b|
  {
    if |b| > 2 {
      EncodeAlphabet(b[3..]);
      assert forall i :: 4 <= i < |Encode(b)| ==> Encode(b)[i] == Encode(b[3..])[i - 4];
    }
  }

  /** Text made of bytes stays so when joined. */
  lemma BytesConcat(a: string, b: string)
    requires Bytes(a) && Bytes(b)
    ensures Bytes(a + b)
  {
    assert forall i :: |a| <= i < |a + b| ==> (a + b)[i] == b[i - |a|];
  }
}
