/** What the bus utilization sum of `configuration.c` measures: microseconds of bus time in a second, in exact arithmetic. */
module ConfigBus {
  import opened Bytes
  import opened ConfigModel
  import opened ConfigRules

  // ---- the bus, as the serial line standard describes it

  /** Start bit, eight data bits, parity if any, and stop bits, for the formats 8N1, 8E1, 8O1 and 8N2. */
  function CharacterBits(format: byte): nat {
    match format
    case 0 => 1 + 8 + 0 + 1
    case 1 => 1 + 8 + 1 + 1
    case 2 => 1 + 8 + 1 + 1
    case _ => 1 + 8 + 0 + 2
  }

  /** Microseconds on the wire. */
  function CharacterTime(r: Rtu): real
    requires r.baudRate > 0
  {
    (CharacterBits(r.frameFormat) * 1000000) as real / r.baudRate as real
  }

  /** The silence between frames: 3.5 characters, but 1750 microseconds above 19200 baud. */
  function Silence(r: Rtu): real
    requires r.baudRate > 0
  {
    if r.baudRate > 19200 then 1750.0 else 3.5 * CharacterTime(r)
  }

  /** The characters of a read request, and of the response with one value: slave, function, count, data and CRC. */
  function Characters(source: byte): nat {
    (1 + 1 + 2 + 2 + 2) + (1 + 1 + 1 + (if source == COIL || source == DISCRETE_INPUT then 1 else 2) + 2)
  }

  /** The bus time of one transaction. */
  function TransactionTime(r: Rtu, p: Point): real
    requires r.baudRate > 0
  {
    Characters(p.source) as real * CharacterTime(r) + 2.0 * Silence(r)
  }

  /** Microseconds of every second that polling a point takes. */
  function BusTime(r: Rtu, p: Point): real
    requires r.baudRate > 0 && p.pollIntervalMs > 0
  {
    TransactionTime(r, p) * (1000.0 / p.pollIntervalMs as real)
  }

  function TotalBusTime(r: Rtu, ps: seq<Point>): real
    requires Pollable(r, ps)
  {
    if ps == [] then 0.0 else TotalBusTime(r, ps[..|ps| - 1]) + BusTime(r, ps[|ps| - 1])
  }

  // ---- rounding

  /** Division that rounds up gives the least multiple that suffices. */
  lemma RoundUpIsLeast(n: nat, d: nat)
    requires d > 0
    ensures DivideRoundUp(n, d) * d >= n && (DivideRoundUp(n, d) - 1) * d < n
  {
    var q := DivideRoundUp(n, d);
    assert n + d - 1 == q * d + (n + d - 1) % d;
    assert (q - 1) * d == q * d - d;
  }

  /** In exact terms it is at least the quotient and less than one above it. */
  lemma RoundUpIsClose(n: nat, d: nat, x: real)
    requires d > 0 && x * d as real == n as real
    ensures x <= DivideRoundUp(n, d) as real < x + 1.0
  {
    hide DivideRoundUp;
    var q: int := DivideRoundUp(n, d);
    RoundUpIsLeast(n, d);
    Apart(q, 1, d);
    Squeeze(x, q, n, d, q * d);
  }

  lemma Apart(a: int, b: int, d: int)
    ensures (a - b) * d == a * d - b * d
  {
  }

  lemma Squeeze(x: real, q: int, n: int, d: int, p: int)
    requires d > 0 && x * d as real == n as real && p == q * d && p - d < n <= p
    ensures x <= q as real < x + 1.0
  {
    AsReal(q, d);
    RealSqueeze(x, q as real, n as real, d as real, p as real);
  }

  lemma RealSqueeze(x: real, y: real, n: real, d: real, p: real)
    requires d > 0.0 && x * d == n && y * d == p && p - d < n <= p
    ensures x <= y < x + 1.0
  {
    Cancel(x, y, d);
    var z := OneLess(y, d);
    assert z * d < x * d;
    Cancel(z, x, d);
  }

  lemma OneLess(y: real, d: real) returns (z: real)
    ensures z == y - 1.0 && z * d == y * d - d
  {
    z := y - 1.0;
    assert (y - 1.0) * d == y * d - d;
  }

  lemma Difference(a: real, b: real, k: real)
    ensures (a - b) * k == a * k - b * k
  {
  }

  lemma Cancel(a: real, b: real, d: real)
    requires d > 0.0
    ensures a * d <= b * d <==> a <= b
    ensures a * d < b * d <==> a < b
  {
    assert (b - a) * d == b * d - a * d;
  }

  // ---- the model's numbers against the bus

  predicate IsOnBus(r: Rtu, p: Point) {
    RtuOk(r) && p.source <= INPUT_REGISTER && 1000 <= p.pollIntervalMs
  }

  /** Up to 19200 baud the silence is the least number of microseconds that covers 3.5 characters. */
  lemma SilenceIsLeast(r: Rtu)
    requires RtuOk(r)
    ensures r.baudRate > 19200 ==> SilenceUs(r) == 1750
    ensures r.baudRate <= 19200 ==>
      2 * SilenceUs(r) * r.baudRate >= 7 * 1000000 * CharacterBits(r.frameFormat)
      && 2 * (SilenceUs(r) - 1) * r.baudRate < 7 * 1000000 * CharacterBits(r.frameFormat)
  {
    RoundUpIsLeast(BitsPerCharacter(r) * 3500000, r.baudRate);
    Doubled(SilenceUs(r), r.baudRate);
    Doubled(SilenceUs(r) - 1, r.baudRate);
  }

  lemma Doubled(t: int, b: int)
    ensures 2 * t * b == 2 * (t * b)
  {
  }

  /** As a time it covers the silence exactly asked for, by less than a microsecond more. */
  lemma SilenceIsClose(r: Rtu)
    requires RtuOk(r)
    ensures Silence(r) <= SilenceUs(r) as real < Silence(r) + 1.0
  {
    if r.baudRate <= 19200 {
      var bits, b := BitsPerCharacter(r), r.baudRate as real;
      assert CharacterTime(r) * b == (bits * 1000000) as real;
      Regroup(3.5, CharacterTime(r), b);
      RoundUpIsClose(bits * 3500000, r.baudRate, Silence(r));
    }
  }

  lemma Regroup(k: real, x: real, d: real)
    ensures (k * x) * d == k * (x * d)
  {
  }

  function CharactersUs(r: Rtu, p: Point): nat
    requires r.baudRate > 0
  {
    DivideRoundUp(CharacterCount(p.source) * BitsPerCharacter(r) * 1000000, r.baudRate)
  }

  lemma CharactersAreClose(r: Rtu, p: Point)
    requires IsOnBus(r, p)
    ensures var exact := Characters(p.source) as real * CharacterTime(r);
            exact <= CharactersUs(r, p) as real < exact + 1.0
  {
    var count, m, b := Characters(p.source), CharacterBits(r.frameFormat) * 1000000, r.baudRate;
    assert CharacterCount(p.source) * BitsPerCharacter(r) * 1000000 == count * m;
    hide CharacterCount, BitsPerCharacter, DivideRoundUp, Characters, CharacterBits;
    CountIsClose(count, m, b, CharacterTime(r));
  }

  lemma CountIsClose(count: nat, m: nat, b: nat, time: real)
    requires b > 0 && time * b as real == m as real
    ensures count as real * time <= DivideRoundUp(count * m, b) as real < count as real * time + 1.0
  {
    hide DivideRoundUp;
    Regroup(count as real, time, b as real);
    AsReal(count, m);
    RoundUpIsClose(count * m, b, count as real * time);
  }

  lemma AsReal(a: int, b: int)
    ensures (a * b) as real == a as real * b as real
  {
  }

  /** The load of a point covers its bus time, by less than four microseconds a second more. */
  lemma LoadIsClose(r: Rtu, p: Point)
    requires IsOnBus(r, p)
    ensures BusTime(r, p) <= Load(r, p) as real < BusTime(r, p) + 4.0
  {
    hide DivideRoundUp, SilenceUs, Silence, CharacterTime, CharacterCount, Characters, BitsPerCharacter;
    SilenceIsClose(r);
    CharactersAreClose(r, p);
    Rate(2 * SilenceUs(r) + CharactersUs(r, p), p.pollIntervalMs, TransactionTime(r, p));
  }

  lemma Rate(total: nat, poll: nat, exact: real)
    requires poll >= 1000 && exact <= total as real < exact + 3.0
    ensures exact * (1000.0 / poll as real) <= DivideRoundUp(total * 1000, poll) as real < exact * (1000.0 / poll as real) + 4.0
  {
    hide DivideRoundUp;
    var k := 1000.0 / poll as real;
    assert k * poll as real == 1000.0;
    Cancel(k, 1.0, poll as real);
    Cancel(0.0, k, poll as real);
    Regroup(total as real, k, poll as real);
    AsReal(total, 1000);
    RoundUpIsClose(total * 1000, poll, total as real * k);
    Product(total as real - exact, k);
    Difference(total as real, exact, k);
  }

  lemma Product(x: real, k: real)
    requires 0.0 <= x < 3.0 && 0.0 < k <= 1.0
    ensures 0.0 <= x * k < 3.0
  {
    Cancel(x, 3.0, k);
  }

  predicate AreOnBus(r: Rtu, ps: seq<Point>) {
    RtuOk(r) && forall i | 0 <= i < |ps| :: IsOnBus(r, ps[i])
  }

  lemma {:induction false} TotalIsClose(r: Rtu, ps: seq<Point>)
    requires AreOnBus(r, ps)
    ensures Pollable(r, ps) && TotalBusTime(r, ps) <= TotalLoad(r, ps) as real <= TotalBusTime(r, ps) + 4.0 * |ps| as real
  {
    hide BusTime, Load, RtuOk;
    assert Pollable(r, ps) by { assert RtuOk(r); OnBusIsPollable(r, ps); }
    if ps != [] {
      var n := |ps| - 1;
      TotalIsClose(r, ps[..n]);
      LoadIsClose(r, ps[n]);
    }
  }

  lemma OnBusIsPollable(r: Rtu, ps: seq<Point>)
    requires AreOnBus(r, ps)
    ensures Pollable(r, ps)
  {
  }

  // ---- what validation makes of it

  /** The polling of an accepted configuration leaves half of every second free. */
  lemma AcceptedLeavesHalfFree(certify: Certifier, c: Configuration)
    requires IsValid(certify, c)
    ensures Pollable(c.rtu, c.points) && TotalBusTime(c.rtu, c.points) <= 500000.0
  {
    ValidIsOnBus(certify, c);
    hide IsValid, TotalLoad, TotalBusTime, RtuOk;
    TotalIsClose(c.rtu, c.points);
    TotalIsLimited(certify, c);
  }

  lemma ValidIsOnBus(certify: Certifier, c: Configuration)
    requires IsValid(certify, c) || Validate(certify, c).BusUtilizationExceeded?
    ensures AreOnBus(c.rtu, c.points)
  {
    hide TotalLoad, NetworkOk, SntpOk, MqttOk, CertificateVerdict, IsTopic, IsTaken, TopicsDiffer;
    if PointsOk(c) {
      forall i | 0 <= i < |c.points| ensures IsOnBus(c.rtu, c.points[i]) {
        assert PointOk(c.points[i]);
      }
    }
  }

  lemma TotalIsLimited(certify: Certifier, c: Configuration)
    requires Pollable(c.rtu, c.points)
    requires IsValid(certify, c)
    ensures TotalLoad(c.rtu, c.points) <= UTILIZATION_LIMIT
  {
    hide NetworkOk, SntpOk, MqttOk, CertificateVerdict, PointOk, IsTaken, TopicsDiffer;
  }

  /** And one refused for its bus utilization really needs half a second, but for four microseconds a point. */
  lemma RefusedNeedsHalf(certify: Certifier, c: Configuration)
    requires Validate(certify, c).BusUtilizationExceeded?
    ensures Pollable(c.rtu, c.points) && TotalBusTime(c.rtu, c.points) > 500000.0 - 4.0 * |c.points| as real
  {
    ValidIsOnBus(certify, c);
    hide TotalBusTime, RtuOk, NetworkOk, SntpOk, MqttOk, CertificateVerdict, PointsOk, AreOnBus;
    TotalIsClose(c.rtu, c.points);
  }
}
