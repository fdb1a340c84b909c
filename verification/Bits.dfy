/** Bitwise exclusive-or and conjunction of unsigned integers, bit by bit. */
module Bits {

  function Xor(a: nat, b: nat): nat
    decreases a + b
  {
    if a == 0 && b == 0 then 0 else 2 * Xor(a / 2, b / 2) + (a + b) % 2
  }

  function And(a: nat, b: nat): nat
    decreases a
  {
    if a == 0 || b == 0 then 0 else 2 * And(a / 2, b / 2) + (if a % 2 == 1 && b % 2 == 1 then 1 else 0)
  }

  /** Programming an erased cell stores the value. */
  lemma {:induction false} AndErased(x: nat)
    requires x < 256
    ensures And(255, x) == x
  {
    EightBits();
    AndOnes(x, 8);
  }

  function Pow2(n: nat): (p: nat)
    ensures p >= 1
  {
    if n == 0 then 1 else 2 * Pow2(n - 1)
  }

  lemma EightBits()
    ensures Pow2(8) == 256 && Pow2(15) == 0x8000 && Pow2(16) == 0x1_0000
  {
    assert Pow2(4) == 16;
    assert Pow2(8) == 256;
    assert Pow2(12) == 4096;
  }

  lemma ThirtyTwoBits()
    ensures Pow2(32) == 0x1_0000_0000
  {
    EightBits();
    assert Pow2(20) == 0x10_0000;
    assert Pow2(24) == 0x100_0000;
    assert Pow2(28) == 0x1000_0000;
  }

  lemma {:induction false} AndOnes(x: nat, n: nat)
    requires x < Pow2(n)
    ensures And(Pow2(n) - 1, x) == x
  {
    if n > 0 && x > 0 {
      assert (Pow2(n) - 1) / 2 == Pow2(n - 1) - 1 && (Pow2(n) - 1) % 2 == 1;
      AndOnes(x / 2, n - 1);
    }
  }

  /** Each unfolding of `Xor`, including the zero case. */
  lemma XorStep(a: nat, b: nat)
    ensures Xor(a, b) / 2 == Xor(a / 2, b / 2)
    ensures Xor(a, b) % 2 == (a + b) % 2
  {
  }

  lemma XorCommutes(a: nat, b: nat)
    ensures Xor(a, b) == Xor(b, a)
    decreases a + b
  {
    if a + b > 0 {
      XorCommutes(a / 2, b / 2);
    }
  }

  /** An integer is its half and its parity. */
  lemma Same(x: nat, y: nat)
    requires x / 2 == y / 2 && x % 2 == y % 2
    ensures x == y
  {
  }

  lemma Parities(a: nat, b: nat, c: nat, x: nat, y: nat)
    requires x % 2 == (a + b) % 2 && y % 2 == (b + c) % 2
    ensures (x + c) % 2 == (a + y) % 2
  {
  }

  lemma {:induction false} XorAssociates(a: nat, b: nat, c: nat)
    ensures Xor(Xor(a, b), c) == Xor(a, Xor(b, c))
    decreases a + b + c
  {
    if a + b + c > 0 {
      var x, y := Xor(a, b), Xor(b, c);
      XorStep(a, b);
      XorStep(b, c);
      XorStep(x, c);
      XorStep(a, y);
      XorAssociates(a / 2, b / 2, c / 2);
      Parities(a, b, c, x, y);
      Same(Xor(x, c), Xor(a, y));
    }
  }

  /** `x` shifted left by `n` bits. */
  function Shl(x: nat, n: nat): nat {
    if n == 0 then x else 2 * Shl(x, n - 1)
  }

  lemma ShlEight(x: nat)
    ensures Shl(x, 8) == 256 * x
  {
    assert Shl(x, 1) == 2 * x;
    assert Shl(x, 3) == 8 * x;
    assert Shl(x, 5) == 32 * x;
    assert Shl(x, 7) == 128 * x;
  }

  lemma ShlInner(x: nat, n: nat)
    ensures Shl(2 * x, n) == 2 * Shl(x, n)
    ensures Shl(x, n) >= x
  {
  }

  /** Operands without a common bit add up. */
  lemma {:induction false} XorDisjoint(x: nat, y: nat, n: nat)
    requires y < Pow2(n)
    ensures Xor(Shl(x, n), y) == Shl(x, n) + y
  {
    if n == 0 {
      XorZero(x);
    } else {
      var a := Shl(x, n - 1);
      XorDisjoint(x, y / 2, n - 1);
      XorStep(2 * a, y);
      Same(Xor(2 * a, y), 2 * a + y);
    }
  }

  lemma {:induction false} XorSelf(a: nat)
    ensures Xor(a, a) == 0
  {
    if a > 0 {
      XorSelf(a / 2);
    }
  }

  lemma {:induction false} XorZero(a: nat)
    ensures Xor(a, 0) == a
  {
    if a > 0 {
      XorZero(a / 2);
    }
  }

  lemma XorCancel(c: nat, x: nat, y: nat)
    requires Xor(c, x) == Xor(c, y)
    ensures x == y
  {
    XorAssociates(c, c, x);
    XorAssociates(c, c, y);
    XorSelf(c);
    XorCommutes(0, x);
    XorCommutes(0, y);
    XorZero(x);
    XorZero(y);
  }

  /** (a ^ b) ^ (c ^ d) == (a ^ c) ^ (b ^ d) */
  lemma XorShuffle(a: nat, b: nat, c: nat, d: nat)
    ensures Xor(Xor(a, b), Xor(c, d)) == Xor(Xor(a, c), Xor(b, d))
  {
    XorAssociates(a, b, Xor(c, d));
    XorAssociates(b, c, d);
    XorCommutes(b, c);
    XorAssociates(c, b, d);
    XorAssociates(a, c, Xor(b, d));
  }

  lemma {:induction false} XorRange(a: nat, b: nat, n: nat)
    requires a < Pow2(n) && b < Pow2(n)
    ensures Xor(a, b) < Pow2(n)
  {
    if n > 0 && a + b > 0 {
      XorRange(a / 2, b / 2, n - 1);
    }
  }

  /** Only one operand has bit `n`: so does the result. */
  lemma {:induction false} XorTop(a: nat, b: nat, n: nat)
    requires a < Pow2(n) <= b < 2 * Pow2(n)
    ensures Xor(a, b) >= Pow2(n)
  {
    if n > 0 {
      XorTop(a / 2, b / 2, n - 1);
    }
  }

  // ---- bits of one byte

  function Shr(x: nat, n: nat): nat {
    if n == 0 then x else Shr(x / 2, n - 1)
  }

  /** `((x >> k) & 1) != 0` */
  predicate Bit(x: nat, k: nat) {
    Shr(x, k) % 2 == 1
  }

  function LowBits(x: nat, n: nat): (bits: seq<bool>)
    ensures |bits| == n
  {
    if n == 0 then [] else [x % 2 == 1] + LowBits(x / 2, n - 1)
  }

  function FromBits(bits: seq<bool>): nat {
    if bits == [] then 0 else (if bits[0] then 1 else 0) + 2 * FromBits(bits[1..])
  }

  lemma {:induction false} LowBitsAt(x: nat, n: nat, k: nat)
    requires k < n
    ensures LowBits(x, n)[k] == Bit(x, k)
  {
    if k > 0 {
      LowBitsAt(x / 2, n - 1, k - 1);
    }
  }

  lemma {:induction false} FromLowBits(x: nat, n: nat)
    requires x < Pow2(n)
    ensures FromBits(LowBits(x, n)) == x
  {
    if n > 0 {
      FromLowBits(x / 2, n - 1);
      assert LowBits(x, n)[1..] == LowBits(x / 2, n - 1);
    }
  }

  lemma {:induction false} AndCommutes(a: nat, b: nat)
    ensures And(a, b) == And(b, a)
  {
    if a > 0 && b > 0 {
      AndCommutes(a / 2, b / 2);
    }
  }

  lemma {:induction false} AndMask(x: nat, m: nat, k: nat)
    ensures And(x, Shl(m, k)) == 0 <==> And(Shr(x, k), m) == 0
    decreases k
  {
    if k > 0 {
      AndMask(x / 2, m, k - 1);
      var low := Shl(m, k - 1);
      assert (2 * low) / 2 == low && (2 * low) % 2 == 0;
      if x > 0 && low > 0 {
        assert And(x, 2 * low) == 2 * And(x / 2, low);
      }
    }
  }

  lemma {:induction false} ShrZero(x: nat, k: nat)
    ensures Shr(x, k) == 0 <==> x < Pow2(k)
  {
    if k > 0 {
      ShrZero(x / 2, k - 1);
    }
  }

  lemma {:induction false} ShrRange(x: nat, k: nat, n: nat)
    requires k <= n && x < Pow2(n)
    ensures Shr(x, k) < Pow2(n - k)
  {
    if k > 0 {
      ShrRange(x / 2, k - 1, n - 1);
    }
  }

  /** `(x & (uint8_t)(0xFF << k)) == 0` */
  predicate MaskedClear(x: nat, k: nat)
    requires k <= 8
  {
    And(x, Shl(Pow2(8 - k) - 1, k)) == 0
  }

  /** The masked bits of a byte are clear exactly when the byte is below 2^k. */
  lemma MaskClear(x: nat, k: nat)
    requires k <= 8 && x < 256
    ensures MaskedClear(x, k) <==> x < Pow2(k)
  {
    hide And, Shl, Shr, Pow2;
    EightBits();
    var ones := Pow2(8 - k) - 1;
    AndMask(x, ones, k);
    ShrRange(x, k, 8);
    AndCommutes(Shr(x, k), ones);
    AndOnes(Shr(x, k), 8 - k);
    ShrZero(x, k);
  }

  // ---- conjunction

  /** Each unfolding of `And`. */
  lemma AndStep(a: nat, b: nat)
    ensures And(a, b) / 2 == And(a / 2, b / 2) && And(a, b) % 2 == (if a % 2 == 1 && b % 2 == 1 then 1 else 0)
  {
  }

  lemma {:induction false} AndSelf(x: nat)
    ensures And(x, x) == x
  {
    if x > 0 {
      AndSelf(x / 2);
    }
  }

  /** Distinct multiples are at least one step apart. */
  lemma AwayFromZero(d: int, m: int)
    requires m >= 0
    ensures d >= 1 ==> d * m >= m
    ensures d <= -1 ==> d * m <= -m
  {
  }
}
