/** What the bit operations of the static network check (`configuration.c`) mean. */
module ConfigNetwork {
  import opened Bytes
  import opened Bits
  import opened ConfigModel
  import opened ConfigRules

  /** A number without a bit in common with its successor is all ones. */
  lemma {:induction false} AllOnes(h: nat) returns (n: nat)
    requires And(h, h + 1) == 0
    ensures h + 1 == Pow2(n)
  {
    EvenOverlaps(h);
    if h == 0 {
      n := 0;
    } else {
      AndStep(h, h + 1);
      assert (h + 1) / 2 == h / 2 + 1;
      n := AllOnes(h / 2);
      n := n + 1;
    }
  }

  lemma EvenOverlaps(h: nat)
    ensures h % 2 == 0 ==> And(h, h + 1) == h
  {
    hide And;
    AndStep(h, h + 1);
    AndSelf(h / 2);
  }

  /** Masking with ones takes the remainder. */
  lemma {:induction false} AndIsRemainder(x: nat, n: nat)
    ensures And(x, Pow2(n) - 1) == x % Pow2(n)
  {
    hide And;
    if n == 0 {
      AndZero(x);
    } else {
      var p := Pow2(n - 1);
      AndIsRemainder(x / 2, n - 1);
      AndOdd(x, p - 1);
      RemainderStep(x, p);
    }
  }

  lemma AndZero(x: nat)
    ensures And(x, 0) == 0
  {
  }

  lemma AndOdd(x: nat, m: nat)
    ensures And(x, 2 * m + 1) == 2 * And(x / 2, m) + x % 2
  {
    hide And;
    var y := 2 * m + 1;
    assert y / 2 == m && y % 2 == 1;
    AndStep(x, y);
  }

  lemma RemainderStep(x: nat, p: nat)
    requires p >= 1
    ensures x % (2 * p) == 2 * (x / 2 % p) + x % 2
  {
    var q, r := x / 2 / p, x / 2 % p;
    assert x / 2 == q * p + r;
    assert x == q * (2 * p) + (2 * r + x % 2);
    Quotient(x, 2 * p, q, 2 * r + x % 2);
  }

  /** Quotient and remainder are determined by their equation. */
  lemma Quotient(x: nat, m: nat, q: nat, r: nat)
    requires m >= 1 && x == q * m + r && r < m
    ensures x / m == q && x % m == r
  {
    var d := q - x / m;
    assert d * m == x % m - r;
    AwayFromZero(d, m);
  }

  /** A mask and its complement split a number. */
  lemma {:induction false} AndComplement(x: nat, m: nat, c: nat, k: nat)
    requires m + c == Pow2(k) - 1 && x < Pow2(k)
    ensures And(x, m) + And(x, c) == x
    decreases k
  {
    AndStep(x, m);
    AndStep(x, c);
    if k > 0 {
      AndComplement(x / 2, m / 2, c / 2, k - 1);
    }
  }

  lemma {:induction false} PowersGrow(a: nat, b: nat)
    requires a < b
    ensures 2 * Pow2(a) <= Pow2(b)
  {
    if a + 1 < b {
      PowersGrow(a, b - 1);
    }
  }

  /** The mask leaves the low `n` bits to the host. */
  predicate LeavesHostBits(mask: Ipv4, n: nat) {
    2 <= n <= 31 && HostMask(mask) == Pow2(n) - 1
  }

  /** A subnet mask is ones followed by 2 to 31 zeros. */
  lemma MaskIsPrefix(mask: Ipv4)
    ensures IsSubnetMask(mask) <==> exists n :: LeavesHostBits(mask, n)
  {
    hide And, Pow2, AddressValue;
    var h: nat := HostMask(mask);
    ThirtyTwoBits();
    if IsSubnetMask(mask) {
      var n := AllOnes(h);
      RangeOf(h, n);
      assert LeavesHostBits(mask, n);
    }
    forall n | LeavesHostBits(mask, n) ensures IsSubnetMask(mask) {
      AndIsRemainder(h + 1, n);
      AndCommutes(h, h + 1);
      Quotient(h + 1, Pow2(n), 1, 0);
      RangeBack(n);
    }
  }

  lemma RangeOf(h: nat, n: nat)
    requires 1 < h < 0xFFFF_FFFF && h + 1 == Pow2(n)
    ensures 2 <= n <= 31
  {
    hide Pow2;
    ThirtyTwoBits();
    OneBit();
    PowersOrder(n, 1);
    PowersOrder(32, n);
  }

  lemma OneBit()
    ensures Pow2(1) == 2
  {
  }

  lemma PowersOrder(a: nat, b: nat)
    ensures a <= b ==> Pow2(a) <= Pow2(b)
  {
    if a < b {
      PowersGrow(a, b);
    }
  }

  lemma RangeBack(n: nat)
    requires 2 <= n <= 31
    ensures 4 <= Pow2(n) < 0x1_0000_0000
  {
    hide Pow2;
    ThirtyTwoBits();
    OneBit();
    PowersGrow(1, n);
    PowersGrow(n, 32);
  }

  /** Two addresses are in the same network exactly when they agree above the host bits. */
  lemma SameNetworkMeans(x: Ipv4, y: Ipv4, mask: Ipv4, n: nat)
    requires LeavesHostBits(mask, n)
    ensures SameNetwork(x, y, mask) <==> AddressValue(x) / Pow2(n) == AddressValue(y) / Pow2(n)
  {
    hide And, Pow2;
    ThirtyTwoBits();
    var a, b, m, h := AddressValue(x), AddressValue(y), AddressValue(mask), HostMask(mask);
    AndComplement(a, m, h, 32);
    AndComplement(b, m, h, 32);
    AndIsRemainder(a, n);
    AndIsRemainder(b, n);
    SameQuotient(a, b, Pow2(n));
  }

  lemma SameQuotient(a: nat, b: nat, p: nat)
    requires p >= 1
    ensures a - a % p == b - b % p <==> a / p == b / p
  {
    assert a == (a / p) * p + a % p && b == (b / p) * p + b % p;
    var d := a / p - b / p;
    assert d * p == (a / p) * p - (b / p) * p;
    AwayFromZero(d, p);
  }

  predicate IsHost(x: Ipv4, n: nat) {
    0 < AddressValue(x) % Pow2(n) < Pow2(n) - 1
  }

  lemma UsableMeans(x: Ipv4, mask: Ipv4, n: nat)
    requires LeavesHostBits(mask, n)
    ensures IsUsable(x, mask) <==> IsHost(x, n)
  {
    hide And, Pow2;
    AndIsRemainder(AddressValue(x), n);
    RangeBack(n);
  }

  /** A static network as an administrator would describe it. */
  predicate IsStaticNetwork(n: Network, bits: nat) {
    LeavesHostBits(n.subnetMask, bits)
    && IsUnicast(n.ipAddress) && IsHost(n.ipAddress, bits) && IsUnicast(n.gateway) && IsHost(n.gateway, bits)
    && AddressValue(n.ipAddress) / Pow2(bits) == AddressValue(n.gateway) / Pow2(bits) && n.ipAddress != n.gateway
    && IsUnicast(n.dnsPrimary) && IsUnicast(n.dnsSecondary) && n.dnsPrimary != n.dnsSecondary
  }

  /**
   * A static network is accepted exactly when some number of low bits numbers the hosts, device and gateway are
   * different hosts of one network, neither the network nor the broadcast address, and the name servers differ.
   */
  lemma StaticNetworkMeans(n: Network)
    requires n.mode == STATIC
    ensures NetworkOk(n) <==> exists bits :: IsStaticNetwork(n, bits)
  {
    hide IsUnicast, IsSubnetMask, IsUsable, SameNetwork, LeavesHostBits, IsHost, AddressValue, Pow2;
    MaskIsPrefix(n.subnetMask);
    forall bits | LeavesHostBits(n.subnetMask, bits)
      ensures IsUsable(n.ipAddress, n.subnetMask) <==> IsHost(n.ipAddress, bits)
      ensures IsUsable(n.gateway, n.subnetMask) <==> IsHost(n.gateway, bits)
      ensures SameNetwork(n.ipAddress, n.gateway, n.subnetMask)
              <==> AddressValue(n.ipAddress) / Pow2(bits) == AddressValue(n.gateway) / Pow2(bits)
    {
      UsableMeans(n.ipAddress, n.subnetMask, bits);
      UsableMeans(n.gateway, n.subnetMask, bits);
      SameNetworkMeans(n.ipAddress, n.gateway, n.subnetMask, bits);
    }
    if NetworkOk(n) {
      var bits :| LeavesHostBits(n.subnetMask, bits);
      assert IsStaticNetwork(n, bits);
    }
  }
}
