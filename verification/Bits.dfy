/** Bytes, and the bitwise "and" of unbounded naturals.

    EEPROM cells, MIDI data and packed fields are `byte`s (eight-bit vectors), so masks and shifts on them
    mean what they mean in C. Indices and counters that the firmware both masks and uses as array indices
    are natural numbers; `And` gives them C's `&`. */
module Bits {

  type byte = bv8

  lemma ByteSuccessor(b: byte)
    ensures (b + 1) as int == if b == 0xFF then 0 else b as int + 1
  {
  }

  lemma ByteOrder(b: byte, c: byte)
    ensures b < c <==> b as int < c as int
    ensures b == c <==> b as int == c as int
  {
  }

  predicate HasValue(b: byte, n: nat) {
    b as int == n
  }

  lemma {:induction false} ByteExists(n: nat)
    requires n < 256
    ensures exists b: byte :: HasValue(b, n)
  {
    if n == 0 {
      assert HasValue(0, 0);
    } else {
      ByteExists(n - 1);
      var b: byte :| HasValue(b, n - 1);
      ByteSuccessor(b);
      assert HasValue(b + 1, n);
    }
  }

  /** The byte with value `n`. */
  function ByteOf(n: nat): (b: byte)
    requires n < 256
    ensures b as int == n
  {
    ByteExists(n);
    var b: byte :| HasValue(b, n);
    b
  }

  /** The bitwise "and" of two naturals, one binary digit at a time. */
  function And(a: nat, b: nat): nat {
    if a == 0 || b == 0 then 0
    else 2 * And(a / 2, b / 2) + (if a % 2 == 1 && b % 2 == 1 then 1 else 0)
  }

  function Pow2(k: nat): (p: nat)
    ensures p >= 1
  {
    if k == 0 then 1 else 2 * Pow2(k - 1)
  }

  lemma QuotientIsUnique(x: int, m: int, q: int, r: int)
    requires 0 <= r < m && x == q * m + r
    ensures x % m == r && x / m == q
  {
    var d := x / m - q;
    assert d * m == r - x % m;
    assert d >= 1 ==> d * m >= m;
    assert d <= -1 ==> d * m <= -m;
  }

  /** A remainder modulo 2m, from the remainder of the halves modulo m. */
  lemma HalvedRemainder(x: nat, m: nat)
    requires m > 0
    ensures x % (2 * m) == 2 * ((x / 2) % m) + x % 2
  {
    var q, t := (x / 2) / m, (x / 2) % m;
    assert x / 2 == q * m + t;
    assert q * (2 * m) == 2 * (q * m);
    QuotientIsUnique(x, 2 * m, q, 2 * t + x % 2);
  }

  /** Masking with 2^k - 1 is reduction modulo 2^k. */
  lemma {:induction false} MaskIsModulo(x: nat, k: nat)
    ensures And(x, Pow2(k) - 1) == x % Pow2(k)
  {
    if k == 0 {
    } else {
      var mask := Pow2(k) - 1;
      assert mask / 2 == Pow2(k - 1) - 1 && mask % 2 == 1;
      MaskIsModulo(x / 2, k - 1);
      HalvedRemainder(x, Pow2(k - 1));
      assert And(x, mask) == 2 * And(x / 2, mask / 2) + x % 2;
    }
  }

  lemma {:induction false} AndIdempotent(a: nat)
    ensures And(a, a) == a
  {
    if a == 0 {
    } else {
      AndIdempotent(a / 2);
    }
  }

  /** The usual test `!(n & (n - 1))` accepts exactly the powers of two. */
  lemma {:induction false} PowerOfTwoTest(n: nat)
    requires n > 0
    ensures And(n, n - 1) == 0 <==> exists k: nat :: n == Pow2(k)
  {
    if n == 1 {
      assert n == Pow2(0);
    } else if n % 2 == 1 {
      AndIdempotent(n / 2);
      assert (n - 1) / 2 == n / 2;
      forall k: nat ensures n != Pow2(k) {
        if k > 0 {
          assert Pow2(k) == 2 * Pow2(k - 1);
        }
      }
    } else {
      var m := n / 2;
      assert (n - 1) / 2 == m - 1 && And(n, n - 1) == 2 * And(m, m - 1);
      PowerOfTwoTest(m);
      if And(m, m - 1) == 0 {
        var k: nat :| m == Pow2(k);
        assert n == Pow2(k + 1);
      } else {
        forall k: nat ensures n != Pow2(k) {
          assert k > 0 ==> m != Pow2(k - 1);
        }
      }
    }
  }
}
