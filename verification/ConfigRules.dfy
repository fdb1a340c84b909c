/** Which configurations are valid, and which are equal (`configuration.c`). */
module ConfigRules {
  import opened Bytes
  import opened Bits
  import opened ConfigModel
  import Utf8

  // ---- characters and strings

  const DOT: byte := 46
  const HYPHEN: byte := 45
  const UNDERSCORE: byte := 95
  const SLASH: byte := 47
  const DOLLAR: byte := 36

  predicate IsUpper(b: byte) {
    65 <= b <= 90
  }

  predicate IsLetter(b: byte) {
    IsUpper(b) || 97 <= b <= 122
  }

  predicate IsAlphanumeric(b: byte) {
    IsLetter(b) || 48 <= b <= 57
  }

  function ToLower(b: byte): byte {
    if IsUpper(b) then b + 32 else b
  }

  function Lower(s: Text): (r: Text)
    ensures |r| == |s|
  {
    seq(|s|, i requires 0 <= i < |s| => ToLower(s[i]))
  }

  predicate IsTopicByte(b: byte) {
    IsAlphanumeric(b) || b in {DOT, UNDERSCORE, HYPHEN, SLASH, DOLLAR}
  }

  predicate IsTopic(s: Text) {
    0 < |s| <= TOPIC_MAX_LENGTH && forall i | 0 <= i < |s| :: IsTopicByte(s[i])
  }

  predicate IsClientId(c: ClientId) {
    c.mode == DERIVED
    || (c.mode == EXPLICIT && 0 < |c.explicitValue| <= CLIENT_ID_MAX_LENGTH
        && forall i | 0 <= i < |c.explicitValue| ::
             IsAlphanumeric(c.explicitValue[i]) || c.explicitValue[i] in {UNDERSCORE, HYPHEN})
  }

  predicate IsVisibleAscii(s: Text, minimum: nat, maximum: nat) {
    minimum <= |s| <= maximum && forall i | 0 <= i < |s| :: 0x20 <= s[i] <= 0x7E
  }

  /** `s[i..j]` is a whole label: it lies between dots or ends and holds no dot. */
  predicate IsLabel(s: Text, i: nat, j: nat) {
    i <= j <= |s| && (i == 0 || s[i - 1] == DOT) && (j == |s| || s[j] == DOT) && forall k | i <= k < j :: s[k] != DOT
  }

  predicate LabelOk(s: Text, i: nat, j: nat)
    requires i <= j <= |s|
  {
    1 <= j - i <= 63 && s[i] != HYPHEN && s[j - 1] != HYPHEN
  }

  /** A host name: labels of 1 to 63 letters, digits and inner hyphens, with at least one letter somewhere. */
  predicate IsHostname(s: Text) {
    0 < |s| <= HOSTNAME_MAX_LENGTH
    && (forall i | 0 <= i < |s| :: IsAlphanumeric(s[i]) || s[i] in {HYPHEN, DOT})
    && (exists i :: 0 <= i < |s| && IsLetter(s[i]))
    && forall i, j | 0 <= i <= j <= |s| && IsLabel(s, i, j) :: LabelOk(s, i, j)
  }

  /** All labels that end before `n` are in order. */
  predicate LabelsOkBefore(s: Text, n: nat) {
    forall i, j | 0 <= i <= j <= |s| && IsLabel(s, i, j) && j < n :: LabelOk(s, i, j)
  }

  /** `hostname_is_valid`, one pass with the start of the current label. */
  method CheckHostname(s: Text) returns (valid: bool)
    ensures valid <==> IsHostname(s)
  {
    if |s| == 0 || |s| > HOSTNAME_MAX_LENGTH {
      return false;
    }
    var hasAlphabetic, labelStart, index := false, 0, 0;
    while index < |s|
      invariant 0 <= labelStart <= index <= |s|
      invariant labelStart == 0 || s[labelStart - 1] == DOT
      invariant forall k | labelStart <= k < index :: s[k] != DOT
      invariant forall k | 0 <= k < index :: IsAlphanumeric(s[k]) || s[k] in {HYPHEN, DOT}
      invariant hasAlphabetic <==> exists k :: 0 <= k < index && IsLetter(s[k])
      invariant LabelsOkBefore(s, index)
    {
      var value := s[index];
      if value == DOT {
        assert IsLabel(s, labelStart, index);
        if index == labelStart || index - labelStart > 63 || s[labelStart] == HYPHEN || s[index - 1] == HYPHEN {
          assert !LabelOk(s, labelStart, index);
          return false;
        }
        OneLabelEnds(s, labelStart, index);
        labelStart := index + 1;
      } else if !IsAlphanumeric(value) && value != HYPHEN {
        return false;
      } else {
        NoLabelEnds(s, index);
        if IsLetter(value) {
          hasAlphabetic := true;
        }
      }
      index := index + 1;
    }
    assert IsLabel(s, labelStart, |s|);
    OneLabelEnds(s, labelStart, |s|);
    valid := hasAlphabetic && |s| - labelStart > 0 && |s| - labelStart <= 63 && s[labelStart] != HYPHEN && s[|s| - 1] != HYPHEN;
    if valid {
      LastLabels(s, labelStart);
    }
  }

  /** A label is determined by its end. */
  lemma OneLabelEnds(s: Text, i: nat, j: nat)
    requires IsLabel(s, i, j)
    ensures forall k | IsLabel(s, k, j) :: k == i
    ensures LabelsOkBefore(s, j) && LabelOk(s, i, j) ==> LabelsOkBefore(s, j + 1)
  {
  }

  lemma NoLabelEnds(s: Text, j: nat)
    requires j < |s| && s[j] != DOT
    ensures LabelsOkBefore(s, j) ==> LabelsOkBefore(s, j + 1)
  {
  }

  lemma LastLabels(s: Text, start: nat)
    requires IsLabel(s, start, |s|) && LabelOk(s, start, |s|) && LabelsOkBefore(s, |s|)
    ensures forall i, j | 0 <= i <= j <= |s| && IsLabel(s, i, j) :: LabelOk(s, i, j)
  {
    OneLabelEnds(s, start, |s|);
  }

  // ---- addresses

  function AddressValue(x: Ipv4): u32 {
    0x100_0000 * (x.a as int) + 0x1_0000 * (x.b as int) + 0x100 * (x.c as int) + x.d
  }

  predicate IsUnicast(x: Ipv4) {
    AddressValue(x) != 0 && x.a != 0 && x.a < 224 && x.a != 127 && !(x.a == 169 && x.b == 254)
  }

  function HostMask(mask: Ipv4): u32 {
    0xFFFF_FFFF - AddressValue(mask)
  }

  /** Ones followed by zeros, with room for at least two host bits. */
  predicate IsSubnetMask(mask: Ipv4) {
    AddressValue(mask) != 0 && HostMask(mask) > 1 && And(HostMask(mask), HostMask(mask) + 1) == 0
  }

  predicate IsUsable(x: Ipv4, mask: Ipv4) {
    var hostPart := And(AddressValue(x), HostMask(mask));
    HostMask(mask) > 1 && hostPart != 0 && hostPart != HostMask(mask)
  }

  predicate SameNetwork(x: Ipv4, y: Ipv4, mask: Ipv4) {
    And(AddressValue(x), AddressValue(mask)) == And(AddressValue(y), AddressValue(mask))
  }

  predicate NetworkOk(n: Network) {
    if n.mode == STATIC then
      IsUnicast(n.ipAddress) && IsSubnetMask(n.subnetMask) && IsUsable(n.ipAddress, n.subnetMask)
      && IsUnicast(n.gateway) && IsUsable(n.gateway, n.subnetMask) && SameNetwork(n.ipAddress, n.gateway, n.subnetMask)
      && n.ipAddress != n.gateway && IsUnicast(n.dnsPrimary) && IsUnicast(n.dnsSecondary) && n.dnsPrimary != n.dnsSecondary
    else n.mode == DHCP
  }

  predicate RtuOk(r: Rtu) {
    r.baudRate in {1200, 2400, 4800, 9600, 19200, 38400, 57600, 115200} && r.frameFormat <= 3 && 50 <= r.firstByteTimeoutMs <= 3000
  }

  predicate EndpointsEqual(l: Endpoint, r: Endpoint) {
    l.kind == r.kind && if l.kind == HOSTNAME then Lower(l.hostname) == Lower(r.hostname) else l.ipv4 == r.ipv4
  }

  predicate EndpointOk(e: Endpoint) {
    if e.kind == HOSTNAME then IsHostname(e.hostname) else e.kind == IPV4 && IsUnicast(e.ipv4)
  }

  predicate SntpOk(s0: Endpoint, s1: Endpoint) {
    EndpointOk(s0) && EndpointOk(s1) && !EndpointsEqual(s0, s1)
  }

  predicate MessageOk(m: Message) {
    m.mode == DISABLED
    || (m.mode == CUSTOM && IsTopic(m.topic) && 1 <= |m.payload| <= MESSAGE_PAYLOAD_MAX_LENGTH
        && Utf8.IsValid(m.payload, false) && m.qos <= 2 && m.retain <= 1)
  }

  predicate MqttOk(m: Mqtt) {
    if m.mode == ENABLED then
      IsHostname(m.brokerAddress) && m.brokerPort != 0 && IsClientId(m.clientId)
      && IsVisibleAscii(m.username, 1, USERNAME_MAX_LENGTH) && IsVisibleAscii(m.password, 1, PASSWORD_MAX_LENGTH)
      && 30 <= m.keepAliveSeconds <= 3600 && MessageOk(m.online) && MessageOk(m.will)
    else m.mode == DISABLED
  }

  datatype Validation =
    | Valid
    | NetworkInvalid
    | RtuInvalid
    | ModbusTcpInvalid
    | SntpInvalid
    | MqttInvalid
    | CertificateInvalid
    | CollectionInvalid
    | BusUtilizationExceeded
    | ResourceUnavailable

  /** What can be said of a certificate. */
  type Verdict = v: Validation | v.Valid? || v.CertificateInvalid? || v.ResourceUnavailable? witness Valid

  /** The verdict of the certificate library on a certificate that is well-formed text. */
  type Certifier = Text -> Verdict

  function CertificateVerdict(certify: Certifier, x: Text): Verdict {
    if |x| == 0 || |x| > CA_CERTIFICATE_MAX_LENGTH || !Utf8.IsValid(x, false) then CertificateInvalid else certify(x)
  }

  // ---- collection points

  predicate PointOk(p: Point) {
    1 <= p.slaveAddress <= 247 && 1000 <= p.pollIntervalMs <= 3600000 && 50 <= p.firstByteTimeoutMs <= 3000
    && IsTopic(p.topic) && p.qos <= 1
    && (p.source == COIL || p.source == DISCRETE_INPUT || (HasDataType(p.source) && p.dataType <= 1))
  }

  predicate IsTaken(m: Message, topic: Text) {
    m.mode == CUSTOM && m.topic == topic
  }

  predicate TopicsDiffer(ps: seq<Point>) {
    forall i, j | 0 <= i < j < |ps| :: ps[i].topic != ps[j].topic
  }

  predicate PointsOk(c: Configuration) {
    (forall i | 0 <= i < |c.points| ::
       PointOk(c.points[i]) && !IsTaken(c.mqtt.online, c.points[i].topic) && !IsTaken(c.mqtt.will, c.points[i].topic))
    && TopicsDiffer(c.points)
  }

  method CheckPoints(c: Configuration) returns (ok: bool)
    ensures ok <==> PointsOk(c)
  {
    hide PointOk, IsTaken;
    var left := 0;
    while left < |c.points|
      invariant 0 <= left <= |c.points|
      invariant forall i | 0 <= i < left ::
        PointOk(c.points[i]) && !IsTaken(c.mqtt.online, c.points[i].topic) && !IsTaken(c.mqtt.will, c.points[i].topic)
      invariant forall i, j | 0 <= i < left && i < j < |c.points| :: c.points[i].topic != c.points[j].topic
    {
      var point := c.points[left];
      if !PointOk(point) {
        return false;
      }
      if IsTaken(c.mqtt.online, point.topic) || IsTaken(c.mqtt.will, point.topic) {
        return false;
      }
      var right := left + 1;
      while right < |c.points|
        invariant left < right <= |c.points|
        invariant forall j | left < j < right :: point.topic != c.points[j].topic
      {
        if point.topic == c.points[right].topic {
          return false;
        }
        right := right + 1;
      }
      left := left + 1;
    }
    ok := true;
  }

  // ---- bus utilization

  const UTILIZATION_LIMIT := 500000

  function DivideRoundUp(numerator: nat, denominator: nat): nat
    requires denominator > 0
  {
    (numerator + denominator - 1) / denominator
  }

  function BitsPerCharacter(r: Rtu): nat {
    if r.frameFormat == 0 then 10 else 11
  }

  function SilenceUs(r: Rtu): nat
    requires r.baudRate > 0
  {
    if r.baudRate > 19200 then 1750 else DivideRoundUp(BitsPerCharacter(r) * 3500000, r.baudRate)
  }

  function CharacterCount(source: byte): nat {
    if source == COIL || source == DISCRETE_INPUT then 14 else if HasDataType(source) then 15 else 0
  }

  /** Microseconds of bus time a point takes in a second. */
  function Load(r: Rtu, p: Point): nat
    requires r.baudRate > 0 && p.pollIntervalMs > 0
  {
    var characters := DivideRoundUp(CharacterCount(p.source) * BitsPerCharacter(r) * 1000000, r.baudRate);
    DivideRoundUp((2 * SilenceUs(r) + characters) * 1000, p.pollIntervalMs)
  }

  predicate Pollable(r: Rtu, ps: seq<Point>) {
    r.baudRate > 0 && forall i | 0 <= i < |ps| :: ps[i].pollIntervalMs > 0
  }

  function TotalLoad(r: Rtu, ps: seq<Point>): nat
    requires Pollable(r, ps)
  {
    if ps == [] then 0 else TotalLoad(r, ps[..|ps| - 1]) + Load(r, ps[|ps| - 1])
  }

  lemma {:induction false} LoadGrows(r: Rtu, ps: seq<Point>, n: nat)
    requires Pollable(r, ps) && n <= |ps|
    ensures TotalLoad(r, ps[..n]) <= TotalLoad(r, ps)
    decreases |ps| - n
  {
    hide Load;
    if n < |ps| {
      LoadGrows(r, ps, n + 1);
      assert ps[..n + 1][..n] == ps[..n];
    } else {
      assert ps[..n] == ps;
    }
  }

  /** `rtu_collection_bus_utilization_is_within_limit`, giving up as soon as the limit is passed. */
  method CheckUtilization(r: Rtu, ps: seq<Point>) returns (within: bool)
    requires Pollable(r, ps)
    ensures within <==> TotalLoad(r, ps) <= UTILIZATION_LIMIT
  {
    hide Load;
    var utilization, index := 0, 0;
    while index < |ps|
      invariant 0 <= index <= |ps|
      invariant utilization == TotalLoad(r, ps[..index]) <= UTILIZATION_LIMIT
    {
      var contribution := Load(r, ps[index]);
      assert ps[..index + 1][..index] == ps[..index];
      if contribution > UTILIZATION_LIMIT - utilization {
        LoadGrows(r, ps, index + 1);
        return false;
      }
      utilization := utilization + contribution;
      index := index + 1;
    }
    assert ps[..index] == ps;
    within := true;
  }

  // ---- validation

  /** The first rule broken, in the order the rules are checked. */
  function Validate(certify: Certifier, c: Configuration): Validation {
    if !NetworkOk(c.network) then NetworkInvalid
    else if !RtuOk(c.rtu) then RtuInvalid
    else if c.listenPort == 0 then ModbusTcpInvalid
    else if !SntpOk(c.server0, c.server1) then SntpInvalid
    else if !MqttOk(c.mqtt) then MqttInvalid
    else if c.mqtt.mode == DISABLED then (if c.points == [] then Valid else CollectionInvalid)
    else if !CertificateVerdict(certify, c.mqtt.caCertificate).Valid? then CertificateVerdict(certify, c.mqtt.caCertificate)
    else if !(1 <= |c.points| <= POINT_MAX_COUNT) then CollectionInvalid
    else if !PointsOk(c) then CollectionInvalid
    else if TotalLoad(c.rtu, c.points) > UTILIZATION_LIMIT then BusUtilizationExceeded
    else Valid
  }

  predicate IsValid(certify: Certifier, c: Configuration) {
    Validate(certify, c).Valid?
  }

  method CheckEndpoint(e: Endpoint) returns (ok: bool)
    ensures ok <==> EndpointOk(e)
  {
    hide IsHostname, IsUnicast;
    if e.kind == HOSTNAME {
      ok := CheckHostname(e.hostname);
      return;
    }
    ok := e.kind == IPV4 && IsUnicast(e.ipv4);
  }

  method CheckMessage(m: Message) returns (ok: bool)
    ensures ok <==> MessageOk(m)
  {
    hide IsTopic, Utf8.IsValid;
    if m.mode == DISABLED {
      return true;
    }
    if m.mode != CUSTOM || !IsTopic(m.topic) || |m.payload| > MESSAGE_PAYLOAD_MAX_LENGTH || |m.payload| < 1 {
      return false;
    }
    ok := Utf8.CheckUtf8(m.payload, false);
    ok := ok && m.qos <= 2 && m.retain <= 1;
  }

  method CheckMqtt(m: Mqtt) returns (ok: bool)
    ensures ok <==> MqttOk(m)
  {
    hide IsHostname, MessageOk, IsClientId, IsVisibleAscii;
    if m.mode != ENABLED {
      return m.mode == DISABLED;
    }
    ok := CheckHostname(m.brokerAddress);
    if !ok || m.brokerPort == 0 || !IsClientId(m.clientId) || !IsVisibleAscii(m.username, 1, USERNAME_MAX_LENGTH)
      || !IsVisibleAscii(m.password, 1, PASSWORD_MAX_LENGTH) || m.keepAliveSeconds < 30 || m.keepAliveSeconds > 3600 {
      return false;
    }
    ok := CheckMessage(m.online);
    if ok {
      ok := CheckMessage(m.will);
    }
  }

  method CheckCertificate(certify: Certifier, x: Text) returns (verdict: Verdict)
    ensures verdict == CertificateVerdict(certify, x)
  {
    hide Utf8.IsValid;
    if |x| == 0 || |x| > CA_CERTIFICATE_MAX_LENGTH {
      return CertificateInvalid;
    }
    var text := Utf8.CheckUtf8(x, false);
    verdict := if text then certify(x) else CertificateInvalid;
  }

  /** `configuration_validate` */
  method ValidateConfiguration(certify: Certifier, c: Configuration) returns (result: Validation)
    ensures result == Validate(certify, c)
  {
    hide NetworkOk, EndpointOk, EndpointsEqual, MqttOk, CertificateVerdict, TotalLoad, PointOk, IsTaken;
    if !NetworkOk(c.network) {
      return NetworkInvalid;
    }
    if !RtuOk(c.rtu) {
      return RtuInvalid;
    }
    if c.listenPort == 0 {
      return ModbusTcpInvalid;
    }
    var first := CheckEndpoint(c.server0);
    var second := CheckEndpoint(c.server1);
    if !first || !second || EndpointsEqual(c.server0, c.server1) {
      return SntpInvalid;
    }
    var mqtt := CheckMqtt(c.mqtt);
    if !mqtt {
      return MqttInvalid;
    }
    if c.mqtt.mode == ENABLED {
      var verdict := CheckCertificate(certify, c.mqtt.caCertificate);
      if !verdict.Valid? {
        return verdict;
      }
    }
    if c.mqtt.mode == DISABLED {
      return if |c.points| == 0 then Valid else CollectionInvalid;
    }
    ModeIsKnown(c.mqtt);
    if |c.points| > POINT_MAX_COUNT || |c.points| < 1 {
      return CollectionInvalid;
    }
    var points := CheckPoints(c);
    if !points {
      return CollectionInvalid;
    }
    PointsArePollable(c);
    var within := CheckUtilization(c.rtu, c.points);
    result := if within then Valid else BusUtilizationExceeded;
  }

  lemma ModeIsKnown(m: Mqtt)
    requires MqttOk(m)
    ensures m.mode == ENABLED || m.mode == DISABLED
  {
  }

  lemma PointsArePollable(c: Configuration)
    requires PointsOk(c) && RtuOk(c.rtu)
    ensures Pollable(c.rtu, c.points)
  {
  }
}
