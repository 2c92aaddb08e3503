/** usart_set_baudrate (usart.c): choosing BSEL and BSCALE for a baud rate.

    The hardware divides the clock by a divisor D that depends on a 12-bit BSEL and a signed BSCALE:
    D = 8 * (2^BSCALE * BSEL + 1) when BSCALE is negative and D = 8 * 2^BSCALE * (BSEL + 1) otherwise, per
    bit at double speed. To stay in the integers everything below is scaled by 2^7. */
module UsartBaud {
  import opened Bits

  /** C's uint32_t. The verifier checks that no operation on it leaves the range; where one may, `Wrapped`
      says what is left. */
  newtype uint32 = x: int | 0 <= x < 0x1_0000_0000

  const MAX_CPU_HZ := 0x1000_0000     // 2^28, what "never exceed 2**32 at any point" relies on

  function Wrapped(x: int): (r: uint32)
    ensures 0 <= x < 0x1_0000_0000 ==> r as int == x
  {
    (x % 0x1_0000_0000) as uint32
  }

  /** 2^7 times the divisor that a BSEL and a BSCALE stand for. */
  function ScaledDivisor(bscale: int, bsel: nat): nat
    requires -7 <= bscale <= 7
  {
    if bscale < 0 then 8 * (Pow2(bscale + 7) * bsel + 128) else 8 * (Pow2(bscale + 7) * (bsel + 1))
  }

  function Abs(x: int): nat {
    if x < 0 then -x else x
  }

  /** |D * b - cpuHz| <= 2^(bscale + 2) * b */
  predicate WithinBound(bscale: int, bsel: nat, b: nat, cpuHz: nat)
    requires -7 <= bscale <= 7
  {
    Abs(ScaledDivisor(bscale, bsel) * b - 128 * cpuHz) <= 4 * Pow2(bscale + 7) * b
  }

  /** The rate check at the top of the function. */
  predicate Supported(clk2x: bool, baud: nat, cpuHz: nat) {
    if clk2x then cpuHz / 4194304 <= baud <= cpuHz / 8
    else cpuHz / 4194304 / 2 <= baud <= cpuHz / 8 / 2
  }

  /** 2^7 times the clocks that one bit takes: eight samples of it at double speed, sixteen otherwise. */
  function ScaledBitTime(clk2x: bool, bscale: int, bsel: nat): nat
    requires -7 <= bscale <= 7
  {
    var samples := if clk2x then 8 else 16;
    if bscale < 0 then samples * (Pow2(bscale + 7) * bsel + 128) else samples * (Pow2(bscale + 7) * (bsel + 1))
  }

  /** The bit time T is off the wanted one by at most half a step of BSEL: |T * baud - cpuHz| is at most
      2^bscale * baud times half the samples per bit. */
  predicate MeetsBound(clk2x: bool, bscale: int, bsel: nat, baud: nat, cpuHz: nat)
    requires -7 <= bscale <= 7
  {
    Abs(ScaledBitTime(clk2x, bscale, bsel) * baud - 128 * cpuHz) <= (if clk2x then 4 else 8) * Pow2(bscale + 7) * baud
  }

  /** In products: a rate is admitted exactly when a bit takes at least 8 clocks (16 without CLK2X), and less than
      2^22 (2^23) at the next higher rate. */
  lemma AdmittedExactlyWhen(clk2x: bool, baud: nat, cpuHz: nat)
    ensures Supported(clk2x, baud, cpuHz)
       <==> if clk2x then 8 * baud <= cpuHz < 0x40_0000 * (baud + 1) else 16 * baud <= cpuHz < 0x80_0000 * (baud + 1)
  {
  }

  lemma BitTimes(bscale: int, bsel: nat)
    requires -7 <= bscale <= 7
    ensures ScaledBitTime(true, bscale, bsel) == ScaledDivisor(bscale, bsel)
    ensures ScaledBitTime(false, bscale, bsel) == 2 * ScaledDivisor(bscale, bsel)
  {
  }

  lemma DoubledRate(d: nat, p: nat, b: nat)
    ensures 2 * d * b == d * (2 * b) && 8 * p * b == 4 * p * (2 * b)
  {
  }

  /** Without CLK2X a bit takes as long as two at double speed, so the bound is the one for twice the rate. */
  lemma TwiceTheSamples(clk2x: bool, bscale: int, bsel: nat, baud: nat, cpuHz: nat)
    requires -7 <= bscale <= 7
    ensures MeetsBound(clk2x, bscale, bsel, baud, cpuHz)
       <==> WithinBound(bscale, bsel, if clk2x then baud else 2 * baud, cpuHz)
  {
    BitTimes(bscale, bsel);
    DoubledRate(ScaledDivisor(bscale, bsel), Pow2(bscale + 7), baud);
  }

  /** Below which ratio of clock to rate the exponent search stops at `exp`. */
  function Limit(exp: int): nat
    requires -7 <= exp <= 7
  {
    if exp < -3 then 256 * Pow2(exp + 7) - 1 else 4095 * Pow2(exp + 3)
  }

  lemma Powers()
    ensures Pow2(0) == 1 && Pow2(1) == 2 && Pow2(2) == 4 && Pow2(3) == 8 && Pow2(4) == 16
    ensures Pow2(5) == 32 && Pow2(6) == 64 && Pow2(7) == 128 && Pow2(8) == 256 && Pow2(9) == 512
    ensures Pow2(10) == 1024 && Pow2(11) == 2048 && Pow2(12) == 4096 && Pow2(13) == 8192 && Pow2(14) == 16384
  {
    assert Pow2(4) == 16;
    assert Pow2(8) == 256;
    assert Pow2(12) == 4096;
  }

  /** Division rounded to nearest is off by at most half the divisor. */
  lemma RoundedToNearest(n: nat, d: nat)
    requires d > 0
    ensures 2 * Abs((n + d / 2) / d * d - n) <= d
  {
    var q := (n + d / 2) / d;
    assert n + d / 2 == q * d + (n + d / 2) % d;
  }

  /** The division as the source writes it. */
  function RoundedQuotient(n: uint32, d: uint32): uint32
    requires d > 0
  {
    Wrapped(n as int + (d / 2) as int) / d
  }

  /** It rounds to nearest as long as its sum stays in 32 bits. */
  lemma RoundsToNearest(n: uint32, d: uint32)
    requires d > 0 && n as int + d as int / 2 < 0x1_0000_0000
    ensures RoundedQuotient(n, d) as int == (n as int + d as int / 2) / d as int
    ensures 2 * Abs(RoundedQuotient(n, d) as int * d as int - n as int) <= d as int
  {
    RoundedToNearest(n as int, d as int);
  }

  /** The exponent the loop stops at: the first whose limit exceeds the ratio, or 7. */
  predicate IsExponent(exp: int, ratio: nat) {
    -7 <= exp <= 7 && (exp == 7 || ratio < Limit(exp)) && (exp == -7 || Limit(exp - 1) <= ratio)
  }

  // ----- Products

  lemma MulMonotone(x: int, y: int, b: nat)
    requires x <= y
    ensures x * b <= y * b
  {
    assert (y - x) * b >= 0;
  }

  lemma QuotientBelow(n: nat, b: nat, limit: nat)
    requires b > 0
    ensures n / b < limit <==> n < limit * b
  {
    var q := n / b;
    assert q * b <= n < q * b + b;
    if q < limit {
      MulMonotone(q + 1, limit, b);
    } else {
      MulMonotone(limit, q, b);
    }
  }

  lemma Regroup(p: nat, d: nat, b: nat)
    ensures (8 * (p * d + 128)) * b == 8 * (p * (d * b)) + 1024 * b
    ensures (8 * (p * (d + 1))) * b == 8 * (p * ((d + 1) * b))
    ensures 4 * p * b == 4 * (p * b)
  {
    assert (p * d) * b == p * (d * b);
    assert (p * (d + 1)) * b == p * ((d + 1) * b);
  }

  lemma ScaledError(p: nat, x: int, b: int)
    requires 2 * Abs(x) <= b
    ensures Abs(8 * (p * x)) <= 4 * (p * b)
  {
    assert p * (2 * x) == 2 * (p * x);
    MulMonotone(2 * x, b, p);
    MulMonotone(-b, 2 * x, p);
    assert p * -b == -(p * b);
  }

  lemma ClockScaled(p: nat, q: nat, d: nat, b: nat, rest: nat)
    requires p * q == 16 && 2 * Abs(d * b - rest * q) <= b
    ensures Abs((8 * (p * d + 128)) * b - 128 * (rest + 8 * b)) <= 4 * p * b
  {
    Regroup(p, d, b);
    ScaledError(p, d * b - rest * q, b);
    assert p * (d * b - rest * q) == p * (d * b) - p * (rest * q);
    assert p * (rest * q) == (p * q) * rest;
  }

  lemma RateScaled(p: nat, r: nat, x: nat, b: nat, rest: nat)
    requires p == 16 * r && 2 * Abs(x * (b * r) - rest) <= b * r
    ensures Abs(8 * (p * (x * b)) - 128 * rest) <= 4 * p * b
  {
    assert p * (x * b) == 16 * (x * (b * r));
    assert 4 * p * b == 64 * (b * r);
  }

  lemma Complementary(exp: int)
    requires -7 <= exp <= 7
    ensures exp <= -3 ==> Pow2(exp + 7) * Pow2(-exp - 3) == 16 && 0 < Pow2(-exp - 3) <= 16
    ensures exp > -3 ==> Pow2(exp + 7) == 16 * Pow2(exp + 3) && 0 < Pow2(exp + 3) <= 1024
    ensures exp > -3 ==> Pow2(exp + 3) <= Limit(exp - 1)
  {
    Powers();
  }

  /** exp <= -3: the remaining clock is multiplied by 2^(-exp - 3). */
  lemma BoundClockScaled(exp: int, div: nat, b: nat, rest: nat)
    requires -7 <= exp <= -3
    requires 2 * Abs(div * b - rest * Pow2(-exp - 3)) <= b
    ensures WithinBound(exp, div, b, rest + 8 * b)
  {
    Complementary(exp);
    ClockScaled(Pow2(exp + 7), Pow2(-exp - 3), div, b, rest);
  }

  /** exp > -3: the rate is multiplied by 2^(exp + 3). */
  lemma BoundRateScaled(exp: int, div: nat, b: nat, rest: nat)
    requires -3 < exp <= 7
    requires var x := if exp < 0 then div else div + 1;
      2 * Abs(x * (b * Pow2(exp + 3)) - rest) <= b * Pow2(exp + 3)
    ensures WithinBound(exp, div, b, if exp < 0 then rest + 8 * b else rest)
  {
    Complementary(exp);
    Regroup(Pow2(exp + 7), div, b);
    RateScaled(Pow2(exp + 7), Pow2(exp + 3), if exp < 0 then div else div + 1, b, rest);
  }

  /** Scaling the clock by at most 16 stays in 32 bits, with room for the rounding term. */
  lemma ClockScaledFits(exp: int, b: nat, cpuHz: nat)
    requires -7 <= exp <= -3 && b > 0 && 8 * b <= cpuHz < MAX_CPU_HZ
    ensures 0 < Pow2(-exp - 3) <= 16
    ensures (cpuHz - 8 * b) * Pow2(-exp - 3) + b / 2 < 0x1_0000_0000
  {
    Complementary(exp);
    MulMonotone(Pow2(-exp - 3), 16, cpuHz - 8 * b);
  }

  /** Scaling the rate leaves it at most the clock, so it stays in 32 bits. */
  lemma RateScaledFits(exp: int, b: nat, cpuHz: nat)
    requires -3 < exp <= 7 && b > 0
    requires IsExponent(exp, cpuHz / b)
    ensures 0 < Pow2(exp + 3) <= 1024
    ensures 0 < b * Pow2(exp + 3) <= cpuHz
  {
    Complementary(exp);
    QuotientBelow(cpuHz, b, Limit(exp - 1));
    MulMonotone(Pow2(exp + 3), Limit(exp - 1), b);
  }

  lemma QuotientPositive(q: nat, d: nat, n: nat)
    requires 0 < d <= n && 2 * Abs(q * d - n) <= d
    ensures q >= 1
  {
  }

  /** Some setting of the registers meets the bound. */
  ghost predicate IsExpressible(b: nat, cpuHz: nat) {
    exists bscale: int, bsel: nat :: -7 <= bscale <= 7 && bsel < 4096 && WithinBound(bscale, bsel, b, cpuHz)
  }

  /** The divisor that the code computes, with ties rounded up, fits its twelve bits. */
  predicate RoundsInRange(b: nat, cpuHz: nat) {
    2 * cpuHz < 8193 * 1024 * b
  }

  lemma LastExponent(quotient: nat, b: nat, cpuHz: nat)
    requires b > 0 && quotient == (cpuHz + b * Pow2(10) / 2) / (b * Pow2(10))
    ensures quotient < 4097 <==> RoundsInRange(b, cpuHz)
  {
    Powers();
    QuotientBelow(cpuHz + 512 * b, 1024 * b, 4097);
  }

  lemma CancelRate(x: nat, y: nat, b: nat)
    requires x * b < y * b
    ensures x < y
  {
    if y <= x {
      MulMonotone(y, x, b);
    }
  }

  /** Below the last exponent the divisor always fits its twelve bits. */
  lemma DivisorFits(exp: int, div: nat, b: nat, cpuHz: nat)
    requires -7 <= exp < 7 && b > 0 && cpuHz / b < Limit(exp)
    requires WithinBound(exp, div, b, cpuHz)
    ensures div < 4096
  {
    Powers();
    QuotientBelow(cpuHz, b, Limit(exp));
    assert 128 * (Limit(exp) * b) + 4 * Pow2(exp + 7) * b == (128 * Limit(exp) + 4 * Pow2(exp + 7)) * b;
    CancelRate(ScaledDivisor(exp, div), 128 * Limit(exp) + 4 * Pow2(exp + 7), b);
  }

  lemma BoundAtLastExponent(div: nat, b: nat, cpuHz: nat)
    ensures WithinBound(7, div, b, cpuHz) <==> Abs(1024 * ((div + 1) * b) - cpuHz) <= 512 * b
  {
    Powers();
    Regroup(Pow2(14), div, b);
  }

  /** A divisor that has lost its upper bits is off by far more than the bound. */
  lemma TruncatedDivisor(div: nat, b: nat, cpuHz: nat)
    requires b > 0 && div >= 4096 && WithinBound(7, div, b, cpuHz)
    ensures !WithinBound(7, div % 4096, b, cpuHz)
  {
    BoundAtLastExponent(div, b, cpuHz);
    BoundAtLastExponent(div % 4096, b, cpuHz);
    MulMonotone(div % 4096 + 1 + 4096, div + 1, b);
    assert (div % 4096 + 1 + 4096) * b == (div % 4096 + 1) * b + 4096 * b;
  }

  lemma LimitsAgainstBound(exp: int)
    requires -7 < exp <= 7
    ensures 4080 * (4 * Pow2(exp + 7)) <= 128 * Limit(exp - 1)
    ensures exp == -6 ==> Limit(exp - 1) == 255
  {
    Powers();
  }

  /** With at least 255 clocks per bit the bound is a relative error of at most 1/4080. */
  lemma RelativeError(exp: int, bsel: nat, b: nat, cpuHz: nat)
    requires b > 0 && IsExponent(exp, cpuHz / b) && WithinBound(exp, bsel, b, cpuHz)
    requires 255 * b <= cpuHz
    ensures 4080 * Abs(ScaledDivisor(exp, bsel) * b - 128 * cpuHz) <= 128 * cpuHz
  {
    QuotientBelow(cpuHz, b, 255);
    assert exp > -7 by {
      Powers();
    }
    var p, limit := Pow2(exp + 7), Limit(exp - 1);
    QuotientBelow(cpuHz, b, limit);
    LimitsAgainstBound(exp);
    Proportion(p, limit, b, cpuHz, Abs(ScaledDivisor(exp, bsel) * b - 128 * cpuHz));
  }

  lemma Proportion(p: nat, limit: nat, b: nat, cpuHz: nat, err: nat)
    requires err <= 4 * p * b && limit * b <= cpuHz && 4080 * (4 * p) <= 128 * limit
    ensures 4080 * err <= 128 * cpuHz
  {
    MulMonotone(4080 * (4 * p), 128 * limit, b);
    assert 4080 * (4 * p) * b == 4080 * (4 * p * b);
    assert 128 * limit * b == 128 * (limit * b);
  }

  datatype Outcome = Rejected | DividesByZero | Programmed

  class Usart {
    var clk2x: bool
    var baudCtrlA: nat
    var baudCtrlB: nat

    /** What the hardware reads back from the two registers. */
    function Bsel(): nat
      reads this
    {
      baudCtrlB % 16 * 256 + baudCtrlA
    }

    function Bscale(): int
      reads this
    {
      var nibble := baudCtrlB / 16;
      if nibble < 8 then nibble else nibble - 16
    }

    method FindExponent(ratio: uint32) returns (exp: int)
      ensures IsExponent(exp, ratio as int)
    {
      Powers();
      var limit: uint32 := 0xfff / 16;
      exp := -7;
      while exp < 7
        invariant -7 <= exp <= 7 && limit as int == Limit(exp)
        invariant exp > -7 ==> Limit(exp - 1) <= ratio as int
      {
        if ratio < limit {
          break;
        }
        limit := limit * 2;
        if exp < -3 {
          limit := limit + 1;      // limit |= 1, and limit is even
        }
        exp := exp + 1;
      }
    }

    /** The divide: `exp` decides which operand is scaled up, so that nothing is lost before the rounding. */
    method FindDivisor(exp: int, baud: uint32, cpuHz: uint32) returns (div: uint32)
      requires 0 < baud && 8 * (baud as int) <= cpuHz as int
      requires IsExponent(exp, cpuHz as int / baud as int)
      ensures cpuHz as int < MAX_CPU_HZ ==> WithinBound(exp, div as int, baud as int, cpuHz as int)
      ensures cpuHz as int < MAX_CPU_HZ && exp == 7 ==>
                (div as int < 4096 <==> RoundsInRange(baud as int, cpuHz as int))
    {
      if exp < 0 {
        div := FractionalDivisor(exp, baud, cpuHz);
      } else {
        div := IntegralDivisor(exp, baud, cpuHz);
      }
    }

    /** Below exponent 0 the divisor starts from 1, and the rest is scaled. */
    method FractionalDivisor(exp: int, baud: uint32, cpuHz: uint32) returns (div: uint32)
      requires 0 < baud && 8 * (baud as int) <= cpuHz as int
      requires exp < 0 && IsExponent(exp, cpuHz as int / baud as int)
      ensures cpuHz as int < MAX_CPU_HZ ==> WithinBound(exp, div as int, baud as int, cpuHz as int)
    {
      var rest: uint32 := cpuHz - 8 * baud;
      if exp <= -3 {
        div := ClockScaledDivisor(exp, baud, rest);
        if cpuHz as int < MAX_CPU_HZ {
          BoundClockScaled(exp, div as int, baud as int, rest as int);
        }
      } else {
        RateScaledFits(exp, baud as int, cpuHz as int);
        div := RateScaledDivisor(exp, baud, rest);
        if cpuHz as int < MAX_CPU_HZ {
          BoundRateScaled(exp, div as int, baud as int, rest as int);
        }
      }
    }

    method ClockScaledDivisor(exp: int, baud: uint32, rest: uint32) returns (div: uint32)
      requires -7 <= exp <= -3 && 0 < baud
      ensures rest as int + 8 * (baud as int) < MAX_CPU_HZ ==>
                2 * Abs(div as int * baud as int - rest as int * Pow2(-exp - 3)) <= baud as int
    {
      div := RoundedQuotient(Wrapped(rest as int * Pow2(-exp - 3)), baud);
      if rest as int + 8 * (baud as int) < MAX_CPU_HZ {
        ClockScaledFits(exp, baud as int, rest as int + 8 * (baud as int));
        RoundsToNearest(Wrapped(rest as int * Pow2(-exp - 3)), baud);
      }
    }

    method RateScaledDivisor(exp: int, baud: uint32, rest: uint32) returns (div: uint32)
      requires -3 < exp <= 7 && 0 < baud && 0 < Pow2(exp + 3) <= 1024
      requires 0 < baud as int * Pow2(exp + 3) < 0x1_0000_0000
      ensures var d := baud as int * Pow2(exp + 3);
        rest as int < MAX_CPU_HZ && d < MAX_CPU_HZ ==>
          && 2 * Abs(div as int * d - rest as int) <= d
          && (d <= rest as int ==> div >= 1)
          && div as int == (rest as int + d / 2) / d
    {
      var d := baud as int * Pow2(exp + 3);
      div := RoundedQuotient(rest, baud * (Pow2(exp + 3) as uint32));
      if rest as int < MAX_CPU_HZ && d < MAX_CPU_HZ {
        RoundsToNearest(rest, d as uint32);
      }
      if d <= rest as int < MAX_CPU_HZ {
        QuotientPositive(div as int, d, rest as int);
      }
    }

    method IntegralDivisor(exp: int, baud: uint32, cpuHz: uint32) returns (div: uint32)
      requires 0 < baud && 8 * (baud as int) <= cpuHz as int
      requires exp >= 0 && IsExponent(exp, cpuHz as int / baud as int)
      ensures cpuHz as int < MAX_CPU_HZ ==> WithinBound(exp, div as int, baud as int, cpuHz as int)
      ensures cpuHz as int < MAX_CPU_HZ && exp == 7 ==>
                (div as int < 4096 <==> RoundsInRange(baud as int, cpuHz as int))
    {
      RateScaledFits(exp, baud as int, cpuHz as int);
      var quotient := RateScaledDivisor(exp, baud, cpuHz);
      div := Wrapped(quotient as int - 1);
      if cpuHz as int < MAX_CPU_HZ {
        if exp == 7 {
          LastExponent(quotient as int, baud as int, cpuHz as int);
        }
        BoundRateScaled(exp, div as int, baud as int, cpuHz as int);
      }
    }

    /** usart_set_baudrate. A rate of zero that passes the check is divided by. Any other rate that passes it
        is programmed, with the documented error bound exactly when the rounded divisor fits twelve bits. */
    method SetBaudrate(baud: uint32, cpuHz: uint32) returns (r: Outcome)
      modifies this`baudCtrlA, this`baudCtrlB
      ensures r.Rejected? <==> !Supported(clk2x, baud as int, cpuHz as int)
      ensures r.DividesByZero? <==> baud == 0 && Supported(clk2x, 0, cpuHz as int)
      ensures !r.Programmed? ==> baudCtrlA == old(baudCtrlA) && baudCtrlB == old(baudCtrlB)
      ensures r.Programmed? ==> baudCtrlA < 256 && baudCtrlB < 256 && -7 <= Bscale() <= 7
      ensures r.Programmed? ==> IsExponent(Bscale(), cpuHz as int / (if clk2x then baud as int else 2 * baud as int))
      ensures r.Programmed? && cpuHz as int < MAX_CPU_HZ ==>
                (MeetsBound(clk2x, Bscale(), Bsel(), baud as int, cpuHz as int)
                 <==> (if clk2x then 2 * cpuHz as int else cpuHz as int) < 8193 * 1024 * baud as int)
    {
      var rate: uint32 := baud;
      var maxRate: uint32 := cpuHz / 8;
      var minRate: uint32 := cpuHz / 4194304;
      if !clk2x {
        maxRate := maxRate / 2;
        minRate := minRate / 2;
      }
      if rate > maxRate || rate < minRate {
        return Rejected;
      }
      if !clk2x {
        rate := rate * 2;
      }
      if rate == 0 {
        return DividesByZero;
      }
      ProgramRate(rate, cpuHz);
      TwiceTheSamples(clk2x, Bscale(), Bsel(), baud as int, cpuHz as int);
      return Programmed;
    }

    /** The rest of the function, for the rate with the doubling applied. */
    method ProgramRate(rate: uint32, cpuHz: uint32)
      requires 0 < rate && 8 * (rate as int) <= cpuHz as int
      modifies this`baudCtrlA, this`baudCtrlB
      ensures baudCtrlA < 256 && baudCtrlB < 256 && -7 <= Bscale() <= 7
      ensures IsExponent(Bscale(), cpuHz as int / rate as int)
      ensures cpuHz as int < MAX_CPU_HZ ==>
                (WithinBound(Bscale(), Bsel(), rate as int, cpuHz as int) <==> RoundsInRange(rate as int, cpuHz as int))
    {
      var exp := FindExponent(cpuHz / rate);
      var div := FindDivisor(exp, rate, cpuHz);
      StoreDivisor(exp, div as int);
      if cpuHz as int < MAX_CPU_HZ {
        FitsOrNot(exp, div as int, rate as int, cpuHz as int);
      }
    }

    /** The two register writes; only the low four bits of `exp` and the low twelve of `div` survive. */
    method StoreDivisor(exp: int, div: nat)
      requires -7 <= exp <= 7
      modifies this`baudCtrlA, this`baudCtrlB
      ensures baudCtrlA < 256 && baudCtrlB < 256
      ensures Bscale() == exp && Bsel() == div % 4096
    {
      baudCtrlB := div / 256 % 16 + exp * 16 % 256;
      baudCtrlA := div % 256;
      Nibbles(div, exp);
    }
  }

  lemma Nibbles(div: nat, exp: int)
    requires -7 <= exp <= 7
    ensures exp * 16 % 256 == if exp >= 0 then 16 * exp else 16 * (exp + 16)
    ensures div / 256 % 16 * 256 + div % 256 == div % 4096
  {
  }

  lemma FitsOrNot(exp: int, div: nat, b: nat, cpuHz: nat)
    requires b > 0 && IsExponent(exp, cpuHz / b) && WithinBound(exp, div, b, cpuHz)
    requires exp == 7 ==> (div < 4096 <==> RoundsInRange(b, cpuHz))
    ensures WithinBound(exp, div % 4096, b, cpuHz) <==> RoundsInRange(b, cpuHz)
  {
    if exp < 7 {
      DivisorFits(exp, div, b, cpuHz);
      LimitAtMost(exp);
      BelowLastLimit(b, cpuHz);
    } else if div >= 4096 {
      TruncatedDivisor(div, b, cpuHz);
    }
  }

  lemma LimitAtMost(exp: int)
    requires -7 <= exp <= 7
    ensures Limit(exp) <= 4095 * 1024
  {
    Powers();
  }

  /** A ratio below the last limit always rounds into range. */
  lemma BelowLastLimit(b: nat, cpuHz: nat)
    requires b > 0 && cpuHz / b < 4095 * 1024
    ensures RoundsInRange(b, cpuHz)
  {
    QuotientBelow(cpuHz, b, 4095 * 1024);
  }

  // ----- Which rates the registers can express at all

  /** The search for the exponent, on values. */
  function ExponentFrom(ratio: nat, exp: int): (r: int)
    requires -7 <= exp <= 7 && (exp == -7 || Limit(exp - 1) <= ratio)
    ensures IsExponent(r, ratio)
    decreases 7 - exp
  {
    if exp == 7 || ratio < Limit(exp) then exp else ExponentFrom(ratio, exp + 1)
  }

  /** For every clock some divisor, of unbounded size, meets the bound at the exponent of the search. */
  lemma SomeDivisor(exp: int, b: nat, cpuHz: nat) returns (div: nat)
    requires 0 < b && 8 * b <= cpuHz && IsExponent(exp, cpuHz / b)
    ensures WithinBound(exp, div, b, cpuHz)
    ensures exp == 7 ==> (div < 4096 <==> RoundsInRange(b, cpuHz))
  {
    if exp <= -3 {
      div := SomeClockScaled(exp, b, cpuHz - 8 * b);
    } else if exp < 0 {
      RateScaledFits(exp, b, cpuHz);
      div := Quotient(cpuHz - 8 * b, b * Pow2(exp + 3));
      BoundRateScaled(exp, div, b, cpuHz - 8 * b);
    } else {
      div := SomeRateScaled(exp, b, cpuHz);
    }
  }

  lemma Quotient(n: nat, d: nat) returns (q: nat)
    requires d > 0
    ensures q == (n + d / 2) / d && 2 * Abs(q * d - n) <= d
  {
    q := (n + d / 2) / d;
    RoundedToNearest(n, d);
  }

  lemma SomeClockScaled(exp: int, b: nat, rest: nat) returns (div: nat)
    requires 0 < b && -7 <= exp <= -3
    ensures WithinBound(exp, div, b, rest + 8 * b)
  {
    div := Quotient(rest * Pow2(-exp - 3), b);
    BoundClockScaled(exp, div, b, rest);
  }

  lemma SomeRateScaled(exp: int, b: nat, cpuHz: nat) returns (div: nat)
    requires 0 < b && 0 <= exp <= 7 && IsExponent(exp, cpuHz / b)
    ensures WithinBound(exp, div, b, cpuHz)
    ensures exp == 7 ==> (div < 4096 <==> RoundsInRange(b, cpuHz))
  {
    RateScaledFits(exp, b, cpuHz);
    var quotient := Quotient(cpuHz, b * Pow2(exp + 3));
    QuotientPositive(quotient, b * Pow2(exp + 3), cpuHz);
    div := quotient - 1;
    if exp == 7 {
      LastExponent(quotient, b, cpuHz);
    }
    BoundRateScaled(exp, div, b, cpuHz);
  }

  /** Twelve bits of BSEL and the bound around it never get beyond this multiple of the rate. */
  lemma LargestSetting(bscale: int, bsel: nat)
    requires -7 <= bscale <= 7 && bsel < 4096
    ensures ScaledDivisor(bscale, bsel) + 4 * Pow2(bscale + 7) <= 128 * 8193 * 512
  {
    var p := Pow2(bscale + 7);
    assert p <= 16384 && (bscale < 0 ==> p <= 64) by {
      Powers();
    }
    MulMonotone(bsel, 4095, p);
    MulMonotone(bsel + 1, 4096, p);
  }

  lemma BeyondEverySetting(bscale: int, bsel: nat, b: nat, cpuHz: nat)
    requires -7 <= bscale <= 7 && bsel < 4096 && WithinBound(bscale, bsel, b, cpuHz)
    ensures 2 * cpuHz <= 8193 * 1024 * b
  {
    LargestSetting(bscale, bsel);
    ClockAtMost(ScaledDivisor(bscale, bsel), 4 * Pow2(bscale + 7), 8193 * 512, b, cpuHz);
  }

  lemma ClockAtMost(d: nat, p: nat, k: nat, b: nat, cpuHz: nat)
    requires 128 * cpuHz <= d * b + p * b && d + p <= 128 * k
    ensures cpuHz <= k * b
  {
    MulMonotone(d + p, 128 * k, b);
    assert (d + p) * b == d * b + p * b;
    assert 128 * k * b == 128 * (k * b);
  }

  /** At the tie the largest setting still meets the bound. */
  lemma TieIsExpressible(b: nat, cpuHz: nat)
    requires 2 * cpuHz == 8193 * 1024 * b
    ensures WithinBound(7, 4095, b, cpuHz) && IsExpressible(b, cpuHz)
  {
    BoundAtLastExponent(4095, b, cpuHz);
  }

  /** Some setting meets the bound exactly up to and including the tie 2 * cpuHz == 8193 * 1024 * b. */
  lemma ExpressibleExactlyWhen(b: nat, cpuHz: nat)
    requires 0 < b && 8 * b <= cpuHz
    ensures IsExpressible(b, cpuHz) <==> 2 * cpuHz <= 8193 * 1024 * b
  {
    if bscale: int, bsel: nat :| -7 <= bscale <= 7 && bsel < 4096 && WithinBound(bscale, bsel, b, cpuHz) {
      BeyondEverySetting(bscale, bsel, b, cpuHz);
    }
    if RoundsInRange(b, cpuHz) {
      var exp := ExponentFrom(cpuHz / b, -7);
      var div := SomeDivisor(exp, b, cpuHz);
      if exp < 7 {
        DivisorFits(exp, div, b, cpuHz);
      }
    } else if 2 * cpuHz == 8193 * 1024 * b {
      TieIsExpressible(b, cpuHz);
    }
  }

  /** So the code, which rounds the tie up and out of the twelve bits, misses an expressible rate exactly there. */
  lemma OnlyTheTieIsLost(b: nat, cpuHz: nat)
    requires 0 < b && 8 * b <= cpuHz
    ensures IsExpressible(b, cpuHz) && !RoundsInRange(b, cpuHz) <==> 2 * cpuHz == 8193 * 1024 * b
  {
    ExpressibleExactlyWhen(b, cpuHz);
  }

  /** The rate check admits the tie: 1 baud from 4194816 Hz at double speed. */
  lemma TieIsAdmitted()
    ensures Supported(true, 1, 4_194_816) && !RoundsInRange(1, 4_194_816)
    ensures IsExpressible(1, 4_194_816)
  {
    TieIsExpressible(1, 4_194_816);
  }

  /** It also admits rates that no register setting reaches: 1 baud from 8 MHz. */
  lemma AdmittedButInexpressible()
    ensures Supported(true, 1, 8_000_000)
    ensures forall bscale: int, bsel: nat :: -7 <= bscale <= 7 && bsel < 4096 ==>
              !WithinBound(bscale, bsel, 1, 8_000_000)
  {
    ExpressibleExactlyWhen(1, 8_000_000);
  }
}
