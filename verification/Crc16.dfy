/** The Modbus RTU CRC-16 (`modbus_common.h`, `has_valid_crc` and `finalize_encoded_rtu` in `modbus_rtu.c`).

    Section 6.2.2 of MODBUS over Serial Line V1.02: reflected polynomial 0xA001, initial value 0xFFFF,
    low CRC byte first. */
module Crc16 {
  import opened Bytes
  import opened Bits

  const POLYNOMIAL := 0xA001

  /** The generator x^16 + x^15 + x^2 + 1, its coefficients from the highest bit down: x^k is bit 15 - k. */
  lemma PolynomialIsStandard()
    ensures POLYNOMIAL == Pow2(15 - 0) + Pow2(15 - 2) + Pow2(15 - 15)
  {
    assert Pow2(4) == 16;
    assert Pow2(8) == 256;
    assert Pow2(12) == 4096;
  }

  /** One turn of the inner loop. */
  function BitStep(crc: u16): u16 {
    if crc % 2 != 0 then WidthKept(crc / 2, POLYNOMIAL); Xor(crc / 2, POLYNOMIAL) else crc / 2
  }

  function BitSteps(crc: u16, n: nat): u16 {
    if n == 0 then crc else BitStep(BitSteps(crc, n - 1))
  }

  function ByteStep(crc: u16, b: byte): u16 {
    WidthKept(crc, b);
    BitSteps(Xor(crc, b), 8)
  }

  /** The register after the bytes of `s`. */
  function Crc(s: seq<byte>): u16 {
    if s == [] then 0xFFFF else ByteStep(Crc(s[..|s| - 1]), s[|s| - 1])
  }

  lemma WidthKept(a: u16, b: u16)
    ensures Xor(a, b) < 0x1_0000
  {
    EightBits();
    XorRange(a, b, 16);
  }

  /** `calculate_crc`: the two nested loops over the data array. */
  method CalculateCrc(data: array<byte>, length: nat) returns (crc: u16)
    requires length <= data.Length
    ensures crc == Crc(data[..length])
  {
    crc := 0xFFFF;
    var byteIndex := 0;
    while byteIndex < length
      invariant 0 <= byteIndex <= length
      invariant crc == Crc(data[..byteIndex])
    {
      WidthKept(crc, data[byteIndex]);
      ghost var start := Xor(crc, data[byteIndex]);
      crc := Xor(crc, data[byteIndex]);
      var bitIndex := 0;
      while bitIndex < 8
        invariant 0 <= bitIndex <= 8
        invariant crc == BitSteps(start, bitIndex)
      {
        if crc % 2 != 0 {
          WidthKept(crc / 2, POLYNOMIAL);
          crc := Xor(crc / 2, POLYNOMIAL);
        } else {
          crc := crc / 2;
        }
        bitIndex := bitIndex + 1;
      }
      assert data[..byteIndex + 1][..byteIndex] == data[..byteIndex];
      byteIndex := byteIndex + 1;
    }
  }

  /** `has_valid_crc`: the last two bytes are the CRC of the others, low byte first. */
  predicate HasValidCrc(adu: seq<byte>)
    requires |adu| >= 2
  {
    var crc := Crc(adu[..|adu| - 2]);
    adu[|adu| - 2] == crc % 256 && adu[|adu| - 1] == crc / 256
  }

  /** `finalize_encoded_rtu`: append the CRC. */
  function WithCrc(body: seq<byte>): (adu: seq<byte>)
    ensures |adu| == |body| + 2 && adu[..|body|] == body && HasValidCrc(adu)
  {
    var crc: u16 := Crc(body);
    var tail: seq<byte> := [crc % 256, crc / 256];
    assert (body + tail)[..|body|] == body;
    body + tail
  }

  // ---- the register update is linear and invertible over GF(2)

  lemma BitStepXor(a: u16, b: u16)
    requires Xor(a, b) < 0x1_0000
    ensures Xor(BitStep(a), BitStep(b)) == BitStep(Xor(a, b))
  {
    XorStep(a, b);
    HalfXor(a / 2, b / 2, a % 2 != 0, b % 2 != 0);
    StepIsFed(a);
    StepIsFed(b);
    StepIsFed(Xor(a, b));
    OddSum(a, b);
  }

  function Fed(x: nat, odd: bool): nat {
    if odd then Xor(x, POLYNOMIAL) else x
  }

  lemma StepIsFed(a: u16)
    ensures BitStep(a) == Fed(a / 2, a % 2 != 0)
  {
  }

  lemma OddSum(a: nat, b: nat)
    ensures ((a + b) % 2 != 0) == ((a % 2 != 0) != (b % 2 != 0))
  {
  }

  lemma HalfXor(x: nat, y: nat, odd: bool, odd': bool)
    ensures Xor(Fed(x, odd), Fed(y, odd')) == Fed(Xor(x, y), odd != odd')
  {
    var p := POLYNOMIAL;
    if odd && odd' {
      XorShuffle(x, p, y, p);
      XorSelf(p);
      XorZero(Xor(x, y));
    } else if odd {
      XorAssociates(x, p, y);
      XorCommutes(p, y);
      XorAssociates(x, y, p);
    } else if odd' {
      XorAssociates(x, y, p);
    }
  }

  lemma {:induction false} BitStepsXor(a: u16, b: u16, n: nat)
    requires Xor(a, b) < 0x1_0000
    ensures Xor(BitSteps(a, n), BitSteps(b, n)) == BitSteps(Xor(a, b), n)
  {
    if n > 0 {
      BitStepsXor(a, b, n - 1);
      BitStepXor(BitSteps(a, n - 1), BitSteps(b, n - 1));
    }
  }

  /** A step that leaves the top bit clear shifted out a zero. */
  lemma SmallStep(a: u16)
    ensures a % 2 != 0 <==> BitStep(a) >= 0x8000
  {
    EightBits();
    if a % 2 != 0 {
      XorTop(a / 2, POLYNOMIAL, 15);
    }
  }

  lemma BitStepInjective(a: u16, b: u16)
    requires BitStep(a) == BitStep(b)
    ensures a == b
  {
    SmallStep(a);
    SmallStep(b);
    if a % 2 != 0 {
      XorCommutes(a / 2, POLYNOMIAL);
      XorCommutes(b / 2, POLYNOMIAL);
      XorCancel(POLYNOMIAL, a / 2, b / 2);
    }
  }

  lemma {:induction false} BitStepsInjective(a: u16, b: u16, n: nat)
    requires BitSteps(a, n) == BitSteps(b, n)
    ensures a == b
  {
    if n > 0 {
      BitStepInjective(BitSteps(a, n - 1), BitSteps(b, n - 1));
      BitStepsInjective(a, b, n - 1);
    }
  }

  /** `n` steps over a register whose low `n` bits are clear only shift. */
  lemma {:induction false} ShiftOut(x: nat, c: u16, n: nat)
    requires c == Shl(x, n)
    ensures BitSteps(c, n) == x
    decreases n
  {
    hide Xor;
    if n > 0 {
      ShlInner(x, n - 1);
      ShiftOut(2 * x, c, n - 1);
    }
  }

  /** `n` steps that end in a small enough value started from that value shifted back. */
  lemma {:induction false} ShiftBack(c: u16, y: nat, n: nat)
    requires BitSteps(c, n) == y && Shl(y, n) < 0x1_0000
    ensures c == Shl(y, n)
    decreases n
  {
    if n > 0 {
      ShlInner(y, n - 1);
      SmallStep(BitSteps(c, n - 1));
      ShiftBack(c, 2 * y, n - 1);
    }
  }

  /** Feeding the low byte of the register leaves its high byte. */
  lemma FeedLow(c: u16)
    ensures ByteStep(c, c % 256) == c / 256
  {
    hide BitSteps, Pow2, Shl, Xor;
    var hi, lo: byte := c / 256, c % 256;
    EightBits();
    ShlEight(hi);
    XorDisjoint(hi, lo, 8);
    XorAssociates(256 * hi, lo, lo);
    XorSelf(lo);
    XorZero(256 * hi);
    ShiftOut(hi, Xor(c, lo), 8);
  }

  lemma XorIsZero(a: nat, b: nat)
    requires Xor(a, b) == 0
    ensures a == b
  {
    XorSelf(a);
    XorCancel(a, b, a);
  }

  lemma SmallXor(x: byte, y: byte)
    ensures Xor(x, y) < 256
  {
    EightBits();
    XorRange(x, y, 8);
  }

  /** The CRC of a whole frame is zero exactly when the frame carries its own CRC. */
  lemma ResidueIsZero(s: seq<byte>)
    requires |s| >= 2
    ensures Crc(s) == 0 <==> HasValidCrc(s)
  {
    hide BitSteps, Pow2, Shl, Xor;
    var n := |s|;
    var c := Crc(s[..n - 2]);
    var lo, hi := s[n - 2], s[n - 1];
    assert s[..n - 1][..n - 2] == s[..n - 2];
    var mid := ByteStep(c, lo);
    assert Crc(s) == ByteStep(mid, hi);
    ShlEight(0);
    ShiftOut(0, 0, 8);
    FeedLow(c);
    if HasValidCrc(s) {
      XorSelf(hi);
    }
    if Crc(s) == 0 {
      WidthKept(mid, hi);
      BitStepsInjective(Xor(mid, hi), 0, 8);
      XorIsZero(mid, hi);
      var low: byte, high: byte := c % 256, c / 256;
      XorSelf(high);
      TwoBytesInjective(c, lo, hi, low, high);
    }
  }

  // ---- bursts

  /** `t` differs from `s` at most at positions `k` and `k + 1`. */
  predicate DiffersWithin(s: seq<byte>, t: seq<byte>, k: nat) {
    |s| == |t| && forall i | 0 <= i < |s| && i != k && i != k + 1 :: s[i] == t[i]
  }

  lemma ByteStepInjective(p: u16, q: u16, b: byte)
    requires ByteStep(p, b) == ByteStep(q, b)
    ensures p == q
  {
    hide BitSteps, Pow2, Shl, Xor;
    WidthKept(p, b);
    WidthKept(q, b);
    BitStepsInjective(Xor(p, b), Xor(q, b), 8);
    XorCommutes(p, b);
    XorCommutes(q, b);
    XorCancel(b, p, q);
  }

  lemma OneByteInjective(r: u16, a: byte, b: byte)
    requires ByteStep(r, a) == ByteStep(r, b)
    ensures a == b
  {
    hide BitSteps, Pow2, Shl, Xor;
    WidthKept(r, a);
    WidthKept(r, b);
    BitStepsInjective(Xor(r, a), Xor(r, b), 8);
    XorCancel(r, a, b);
  }

  lemma SharedTail(s: seq<byte>, t: seq<byte>, m: nat)
    requires m < |s| == |t| && s[m..] == t[m..]
    ensures var n := |s| - 1;
            && s[..n][..m] == s[..m] && t[..n][..m] == t[..m]
            && s[..n][m..] == t[..n][m..] && s[n] == t[n]
  {
    var n := |s| - 1;
    assert s[n] == s[m..][n - m] && t[n] == t[m..][n - m];
    assert s[..n][m..] == s[m..][..n - m] && t[..n][m..] == t[m..][..n - m];
  }

  /** Different registers stay different over equal bytes. */
  lemma {:induction false} TailKeepsDifference(s: seq<byte>, t: seq<byte>, m: nat)
    requires m <= |s| == |t| && s[m..] == t[m..]
    requires Crc(s[..m]) != Crc(t[..m])
    ensures Crc(s) != Crc(t)
    decreases |s|
  {
    hide ByteStep;
    var n := |s|;
    if m == n {
      assert s[..m] == s && t[..m] == t;
    } else {
      var s', t' := s[..n - 1], t[..n - 1];
      SharedTail(s, t, m);
      TailKeepsDifference(s', t', m);
      if Crc(s) == Crc(t) {
        ByteStepInjective(Crc(s'), Crc(t'), s[n - 1]);
      }
    }
  }

  /** Two bytes fed from the same register collide only when they are the same two bytes. */
  lemma TwoBytesInjective(r: u16, a: byte, b: byte, a': byte, b': byte)
    requires ByteStep(ByteStep(r, a), b) == ByteStep(ByteStep(r, a'), b')
    ensures a == a' && b == b'
  {
    hide BitSteps, Pow2, Shl, Xor;
    WidthKept(r, a);
    WidthKept(r, a');
    var x, x' := Xor(r, a), Xor(r, a');
    var p, p' := BitSteps(x, 8), BitSteps(x', 8);
    WidthKept(p, b);
    WidthKept(p', b');
    BitStepsInjective(Xor(p, b), Xor(p', b'), 8);
    XorSelf(Xor(p, b));
    XorShuffle(p, b, p', b');
    XorIsZero(Xor(p, p'), Xor(b, b'));
    WidthKept(x, x');
    BitStepsXor(x, x', 8);
    XorShuffle(r, a, r, a');
    XorSelf(r);
    XorCommutes(0, Xor(a, a'));
    XorZero(Xor(a, a'));
    SmallXor(b, b');
    SmallXor(a, a');
    ShlEight(Xor(b, b'));
    ShiftBack(Xor(x, x'), Xor(b, b'), 8);
    XorIsZero(a, a');
    XorCancel(p, b, b');
  }

  /** Two frames that differ at most in two adjacent bytes and share their CRC register are equal. */
  lemma BurstKeepsNoCrc(s: seq<byte>, t: seq<byte>, k: nat)
    requires DiffersWithin(s, t, k) && Crc(s) == Crc(t)
    ensures s == t
  {
    hide ByteStep;
    if k + 1 < |s| {
      assert s[..k] == t[..k];
      var r := Crc(s[..k]);
      assert s[..k + 1][..k] == s[..k] && t[..k + 1][..k] == t[..k];
      assert s[..k + 2][..k + 1] == s[..k + 1] && t[..k + 2][..k + 1] == t[..k + 1];
      assert Crc(s[..k + 2]) == ByteStep(ByteStep(r, s[k]), s[k + 1]);
      assert Crc(t[..k + 2]) == ByteStep(ByteStep(r, t[k]), t[k + 1]);
      if Crc(s[..k + 2]) != Crc(t[..k + 2]) {
        TailKeepsDifference(s, t, k + 2);
      }
      TwoBytesInjective(r, s[k], s[k + 1], t[k], t[k + 1]);
    } else if k + 1 == |s| {
      assert s[..k] == t[..k];
      OneByteInjective(Crc(s[..k]), s[k], t[k]);
    }
  }

  /** A valid frame damaged in one byte or in two adjacent bytes, CRC bytes included, is rejected. */
  lemma BurstIsRejected(s: seq<byte>, t: seq<byte>, k: nat)
    requires |s| >= 2 && HasValidCrc(s)
    requires DiffersWithin(s, t, k) && s != t
    ensures !HasValidCrc(t)
  {
    ResidueIsZero(s);
    ResidueIsZero(t);
    if HasValidCrc(t) {
      BurstKeepsNoCrc(s, t, k);
    }
  }
}
