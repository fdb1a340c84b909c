/** The bound on encoded configurations is attained. */
module ConfigLongest {
  import opened Bytes
  import opened ConfigModel
  import opened ConfigFormat
  import opened ConfigRules
  import Utf8
  import Bits

  const LETTER_A: byte := 97

  function Letters(n: nat, letter: byte): (s: Text)
    requires n <= 0xFFFF
    ensures |s| == n && forall i | 0 <= i < n :: s[i] == letter
  {
    seq(n, i => letter)
  }

  /** 253 bytes in labels of 63 letters. */
  function LongHostname(letter: byte): (s: Text)
    ensures |s| == HOSTNAME_MAX_LENGTH
    ensures forall i | 0 <= i < |s| :: s[i] == if i % 64 == 63 then DOT else letter
  {
    seq(HOSTNAME_MAX_LENGTH, i => if i % 64 == 63 then DOT else letter)
  }

  lemma LongHostnameIsValid(letter: byte)
    requires IsLetter(letter)
    ensures IsHostname(LongHostname(letter))
  {
    var s := LongHostname(letter);
    assert IsLetter(s[0]);
    forall i, j | 0 <= i <= j <= |s| && IsLabel(s, i, j) ensures LabelOk(s, i, j) {
      assert i % 64 == 0 by {
        assert i > 0 ==> s[i - 1] == DOT;
      }
      assert i + 63 < |s| ==> s[i + 63] == DOT;
    }
  }

  function LongTopic(i: nat): Text
    requires i < 100
  {
    Letters(TOPIC_MAX_LENGTH, LETTER_A + i)
  }

  function LongMessage(i: nat): Message
    requires i < 100
  {
    Message(CUSTOM, LongTopic(i), Letters(MESSAGE_PAYLOAD_MAX_LENGTH, LETTER_A), 0, 0)
  }

  function LongPoints(): (ps: seq<Point>)
    ensures |ps| == POINT_MAX_COUNT
    ensures forall i | 0 <= i < |ps| :: ps[i] == Point(1, HOLDING_REGISTER, 0, 0, 3600000, 1000, LongTopic(i), 0)
  {
    seq(POINT_MAX_COUNT, i requires 0 <= i < POINT_MAX_COUNT => Point(1, HOLDING_REGISTER, 0, 0, 3600000, 1000, LongTopic(i), 0))
  }

  function Longest(): Configuration {
    Configuration(
      Network(STATIC, Ipv4(10, 0, 0, 1), Ipv4(255, 255, 255, 0), Ipv4(10, 0, 0, 2), Ipv4(8, 8, 8, 8), Ipv4(9, 9, 9, 9)),
      Rtu(115200, 3, 1000), 502,
      Endpoint(HOSTNAME, LongHostname(97), NO_ADDRESS), Endpoint(HOSTNAME, LongHostname(98), NO_ADDRESS),
      Mqtt(ENABLED, LongHostname(97), 8883, ClientId(EXPLICIT, Letters(CLIENT_ID_MAX_LENGTH, LETTER_A)),
           Letters(USERNAME_MAX_LENGTH, LETTER_A), Letters(PASSWORD_MAX_LENGTH, LETTER_A), Letters(CA_CERTIFICATE_MAX_LENGTH, LETTER_A),
           60, LongMessage(20), LongMessage(20)),
      LongPoints())
  }

  lemma {:induction false} AsciiIsUtf8(s: seq<byte>)
    requires forall i | 0 <= i < |s| :: 1 <= s[i] <= 0x7F
    ensures Utf8.IsValid(s, false)
  {
    if s != [] {
      AsciiIsUtf8(s[1..]);
    }
  }

  lemma LongNetworkIsValid()
    ensures NetworkOk(Longest().network)
  {
    hide Bits.And, LongHostname, LongPoints, Letters;
    var n := Longest().network;
    assert HostMask(n.subnetMask) == 255;
    HostPart();
  }

  lemma HostPart()
    ensures Bits.And(255, 256) == 0
    ensures Bits.And(0x0A00_0001, 255) == 1 && Bits.And(0x0A00_0002, 255) == 2
    ensures Bits.And(0x0A00_0001, 0xFFFF_FF00) == Bits.And(0x0A00_0002, 0xFFFF_FF00)
  {
    hide Bits.And;
    Bits.EightBits();
    LowBitsClear(1, 8);
    Bits.AndCommutes(255, 256);
    assert Bits.Pow2(6) == 64 && Bits.Pow2(7) == 128;
    LowBitsClear(0x0A_0000, 7);
    LowBitsClear(0x0A_0000, 6);
    LowTwo(0x0A_0000 * 64, 63);
    NetworkPart(0x0280_0000, 0x3FFF_FFC0);
  }

  lemma LowTwo(q: nat, m: nat)
    ensures Bits.And(4 * q + 1, 4 * m + 3) == 4 * Bits.And(q, m) + 1 && Bits.And(4 * q + 2, 4 * m + 3) == 4 * Bits.And(q, m) + 2
  {
    hide Bits.And;
    Halves(2 * q, 2 * m + 1, 1, 1);
    Halves(2 * q + 1, 2 * m + 1, 0, 1);
    Halves(q, m, 0, 1);
    Halves(q, m, 1, 1);
  }

  lemma NetworkPart(q: nat, m: nat)
    ensures Bits.And(4 * q + 1, 4 * m) == Bits.And(4 * q + 2, 4 * m)
  {
    hide Bits.And;
    Halves(2 * q, 2 * m, 1, 0);
    Halves(2 * q + 1, 2 * m, 0, 0);
    Halves(q, m, 0, 0);
    Halves(q, m, 1, 0);
  }

  /** Conjunction bit by bit. */
  lemma Halves(x: nat, y: nat, b: nat, c: nat)
    requires b <= 1 && c <= 1
    ensures Bits.And(2 * x + b, 2 * y + c) == 2 * Bits.And(x, y) + (if b == 1 && c == 1 then 1 else 0)
  {
    var u, v := 2 * x + b, 2 * y + c;
    assert u / 2 == x && v / 2 == y && u % 2 == b && v % 2 == c;
  }

  lemma {:induction false} LowBitsClear(q: nat, n: nat)
    ensures Bits.And(q * Bits.Pow2(n), Bits.Pow2(n) - 1) == 0
  {
    if n > 0 {
      LowBitsClear(q, n - 1);
      var h := Bits.Pow2(n - 1);
      assert q * (2 * h) == 2 * (q * h);
      Halves(q * h, h - 1, 0, 1);
    } else {
      Bits.AndCommutes(q, 0);
    }
  }

  lemma LongMqttIsValid()
    ensures MqttOk(Longest().mqtt)
  {
    hide IsHostname, Utf8.IsValid;
    LongHostnameIsValid(97);
    AsciiIsUtf8(Letters(MESSAGE_PAYLOAD_MAX_LENGTH, LETTER_A));
  }

  lemma LongSntpIsValid()
    ensures SntpOk(Longest().server0, Longest().server1)
  {
    hide IsHostname;
    LongHostnameIsValid(97);
    LongHostnameIsValid(98);
    assert Lower(LongHostname(97))[0] == 97 && Lower(LongHostname(98))[0] == 98;
  }

  lemma LongPointsAreValid()
    ensures PointsOk(Longest())
  {
    var ps := LongPoints();
    assert forall i | 0 <= i < |ps| :: ps[i].topic[0] == LETTER_A + i;
    assert LongTopic(20)[0] == LETTER_A + 20;
  }

  lemma {:induction false} LongLoad(ps: seq<Point>)
    requires forall i | 0 <= i < |ps| :: ps[i].source == HOLDING_REGISTER && ps[i].pollIntervalMs == 3600000
    ensures TotalLoad(Rtu(115200, 3, 1000), ps) == 2 * |ps|
  {
    if ps != [] {
      LongLoad(ps[..|ps| - 1]);
      assert DivideRoundUp(15 * 11 * 1000000, 115200) == 1433;
    }
  }

  /** A valid configuration of exactly 8475 bytes exists for any certificate library that accepts its certificate. */
  lemma BoundIsAttained(certify: Certifier)
    requires certify(Longest().mqtt.caCertificate).Valid?
    ensures IsValid(certify, Longest()) && |Encode(Longest())| == MAX_PAYLOAD_LENGTH
  {
    hide NetworkOk, SntpOk, MqttOk, PointsOk, TotalLoad, Utf8.IsValid;
    LongNetworkIsValid();
    LongSntpIsValid();
    LongMqttIsValid();
    LongPointsAreValid();
    AsciiIsUtf8(Letters(CA_CERTIFICATE_MAX_LENGTH, LETTER_A));
    LongLoad(LongPoints());
    LongestLength();
  }

  lemma LongestLength()
    ensures |Encode(Longest())| == MAX_PAYLOAD_LENGTH
  {
    hide PutPoints, PutMqtt, PutEndpoint, LongHostname, LongPoints, Letters;
    var c := Longest();
    LongPointsLength(c.points, []);
    var t6 := PutU8(|c.points|, PutPoints(c.points, []));
    LongMqttLength(t6);
    var t5 := PutMqtt(c.mqtt, t6);
    LongEndpointLength(c.server1, t5);
    LongEndpointLength(c.server0, PutEndpoint(c.server1, t5));
  }

  lemma LongEndpointLength(e: Endpoint, t: seq<byte>)
    requires e.kind == HOSTNAME && |e.hostname| == HOSTNAME_MAX_LENGTH
    ensures |PutEndpoint(e, t)| == 256 + |t|
  {
  }

  lemma LongMqttLength(t: seq<byte>)
    ensures |PutMqtt(Longest().mqtt, t)| == 5659 + |t|
  {
    hide LongHostname, LongPoints, Letters;
  }

  lemma {:induction false} LongPointsLength(ps: seq<Point>, t: seq<byte>)
    requires forall i | 0 <= i < |ps| :: ps[i].source == HOLDING_REGISTER && |ps[i].topic| == TOPIC_MAX_LENGTH
    ensures |PutPoints(ps, t)| == 142 * |ps| + |t|
  {
    if ps != [] {
      LongPointsLength(ps[1..], t);
    }
  }
}
