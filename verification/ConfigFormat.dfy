/**
 * The schema 2 binary format (`configuration_binary_codec.c`). `Put…(x, tail)` is the encoding of `x` in front of
 * `tail`; `Take…(s)` takes an `x` off the front of `s`.
 */
module ConfigFormat {
  import opened Bytes
  import opened ConfigModel

  datatype Taken<+T> = Malformed | Taken(value: T, rest: seq<byte>) {
    predicate IsFailure() {
      Malformed?
    }
    function PropagateFailure<U>(): Taken<U>
      requires IsFailure()
    {
      Malformed
    }
    function Extract(): (T, seq<byte>)
      requires !IsFailure()
    {
      (value, rest)
    }
  }

  // ---- elements

  function PutU8(v: byte, t: seq<byte>): (s: seq<byte>)
    ensures |s| == 1 + |t|
  {
    [v] + t
  }

  function TakeU8(s: seq<byte>): Taken<byte> {
    if s == [] then Malformed else Taken(s[0], s[1..])
  }

  function PutU16(v: u16, t: seq<byte>): (s: seq<byte>)
    ensures |s| == 2 + |t|
  {
    WriteU16Le(v) + t
  }

  function TakeU16(s: seq<byte>): Taken<u16> {
    if |s| < 2 then Malformed else Taken(ReadU16Le(s, 0), s[2..])
  }

  function PutU32(v: u32, t: seq<byte>): (s: seq<byte>)
    ensures |s| == 4 + |t|
  {
    WriteU32Le(v) + t
  }

  function TakeU32(s: seq<byte>): Taken<u32> {
    if |s| < 4 then Malformed else Taken(ReadU32Le(s, 0), s[4..])
  }

  function PutText(x: Text, t: seq<byte>): (s: seq<byte>)
    ensures |s| == 2 + |x| + |t|
  {
    PutU16(|x|, x + t)
  }

  function TakeText(s: seq<byte>, minimum: nat, maximum: nat): Taken<Text> {
    var (n, s1) :- TakeU16(s);
    if n < minimum || n > maximum || |s1| < n then Malformed else Taken(s1[..n], s1[n..])
  }

  function PutIpv4(x: Ipv4, t: seq<byte>): (s: seq<byte>)
    ensures |s| == 4 + |t|
  {
    [x.a, x.b, x.c, x.d] + t
  }

  function TakeIpv4(s: seq<byte>): Taken<Ipv4> {
    if |s| < 4 then Malformed else Taken(Ipv4(s[0], s[1], s[2], s[3]), s[4..])
  }

  predicate Fits(x: Text, minimum: nat, maximum: nat) {
    minimum <= |x| <= maximum
  }

  lemma TakePutU16(v: u16, t: seq<byte>)
    ensures TakeU16(PutU16(v, t)) == Taken(v, t)
  {
    var s := PutU16(v, t);
    assert s[0] == v % 256 && s[1] == v / 256;
    assert s[2..] == t;
  }

  lemma TakePutU32(v: u32, t: seq<byte>)
    ensures TakeU32(PutU32(v, t)) == Taken(v, t)
  {
    hide WriteU32Le, ReadU32Le;
    var s := PutU32(v, t);
    assert s[0..4] == WriteU32Le(v) && s[4..] == t;
    ReadU32LeSlice(s, 0, WriteU32Le(v));
    U32LeRoundTrip(v);
  }

  lemma TakePutText(x: Text, t: seq<byte>, minimum: nat, maximum: nat)
    requires Fits(x, minimum, maximum)
    ensures TakeText(PutText(x, t), minimum, maximum) == Taken(x, t)
  {
    hide TakeU16, PutU16;
    TakePutU16(|x|, x + t);
  }

  /** Taking undoes putting, for every kind of element. */
  lemma Elements()
    ensures forall v: byte, t {:trigger PutU8(v, t)} :: TakeU8(PutU8(v, t)) == Taken(v, t)
    ensures forall v: u16, t {:trigger PutU16(v, t)} :: TakeU16(PutU16(v, t)) == Taken(v, t)
    ensures forall v: u32, t {:trigger PutU32(v, t)} :: TakeU32(PutU32(v, t)) == Taken(v, t)
    ensures forall x: Ipv4, t {:trigger PutIpv4(x, t)} :: TakeIpv4(PutIpv4(x, t)) == Taken(x, t)
    ensures forall x: Text, t, lo: nat, hi: nat {:trigger PutText(x, t), Fits(x, lo, hi)} ::
              Fits(x, lo, hi) ==> TakeText(PutText(x, t), lo, hi) == Taken(x, t)
  {
    hide PutU16, TakeU16, PutU32, TakeU32, PutText, TakeText, Fits;
    forall v: u16, t ensures TakeU16(PutU16(v, t)) == Taken(v, t) {
      TakePutU16(v, t);
    }
    forall v: u32, t ensures TakeU32(PutU32(v, t)) == Taken(v, t) {
      TakePutU32(v, t);
    }
    forall x: Text, t, lo: nat, hi: nat | Fits(x, lo, hi) ensures TakeText(PutText(x, t), lo, hi) == Taken(x, t) {
      TakePutText(x, t, lo, hi);
    }
  }

  lemma PutTakeU16(s: seq<byte>)
    requires TakeU16(s).Taken?
    ensures PutU16(TakeU16(s).value, TakeU16(s).rest) == s
  {
    var a: int, b: int := s[0], s[1];
    assert (a + 256 * b) % 256 == a && (a + 256 * b) / 256 == b;
    assert s == [s[0], s[1]] + s[2..];
  }

  lemma PutTakeU32(s: seq<byte>)
    requires TakeU32(s).Taken?
    ensures PutU32(TakeU32(s).value, TakeU32(s).rest) == s
  {
    hide WriteU32Le, ReadU32Le;
    U32LeCanonical(s, 0);
    assert s == s[0..4] + s[4..];
  }

  lemma PutTakeText(s: seq<byte>, minimum: nat, maximum: nat)
    requires TakeText(s, minimum, maximum).Taken?
    ensures var Taken(x, t) := TakeText(s, minimum, maximum); PutText(x, t) == s && Fits(x, minimum, maximum)
  {
    hide TakeU16, PutU16;
    PutTakeU16(s);
    var Taken(n, s1) := TakeU16(s);
    assert s1 == s1[..n] + s1[n..];
  }

  /** Putting back what was taken gives the same bytes: the format has no second spelling. */
  lemma ElementsBack()
    ensures forall s {:trigger TakeU8(s)} :: TakeU8(s).Taken? ==> PutU8(TakeU8(s).value, TakeU8(s).rest) == s
    ensures forall s {:trigger TakeU16(s)} :: TakeU16(s).Taken? ==> PutU16(TakeU16(s).value, TakeU16(s).rest) == s
    ensures forall s {:trigger TakeU32(s)} :: TakeU32(s).Taken? ==> PutU32(TakeU32(s).value, TakeU32(s).rest) == s
    ensures forall s {:trigger TakeIpv4(s)} :: TakeIpv4(s).Taken? ==> PutIpv4(TakeIpv4(s).value, TakeIpv4(s).rest) == s
    ensures forall s, lo: nat, hi: nat {:trigger TakeText(s, lo, hi)} ::
              TakeText(s, lo, hi).Taken? ==> PutText(TakeText(s, lo, hi).value, TakeText(s, lo, hi).rest) == s
                                             && Fits(TakeText(s, lo, hi).value, lo, hi)
  {
    hide PutU16, TakeU16, PutU32, TakeU32, PutText, TakeText, Fits;
    forall s | TakeU16(s).Taken? ensures PutU16(TakeU16(s).value, TakeU16(s).rest) == s {
      PutTakeU16(s);
    }
    forall s | TakeU32(s).Taken? ensures PutU32(TakeU32(s).value, TakeU32(s).rest) == s {
      PutTakeU32(s);
    }
    forall s, lo: nat, hi: nat | TakeText(s, lo, hi).Taken?
      ensures PutText(TakeText(s, lo, hi).value, TakeText(s, lo, hi).rest) == s && Fits(TakeText(s, lo, hi).value, lo, hi)
    {
      PutTakeText(s, lo, hi);
    }
    forall s | TakeU8(s).Taken? ensures PutU8(TakeU8(s).value, TakeU8(s).rest) == s {
      assert s == [s[0]] + s[1..];
    }
    forall s | TakeIpv4(s).Taken? ensures PutIpv4(TakeIpv4(s).value, TakeIpv4(s).rest) == s {
      assert s == [s[0], s[1], s[2], s[3]] + s[4..];
    }
  }

  // ---- parts

  function PutEndpoint(e: Endpoint, t: seq<byte>): seq<byte> {
    PutU8(e.kind, if e.kind == HOSTNAME then PutText(e.hostname, t) else PutIpv4(e.ipv4, t))
  }

  function TakeEndpoint(s: seq<byte>): Taken<Endpoint> {
    var (kind, s1) :- TakeU8(s);
    if kind == HOSTNAME then
      var (hostname, s2) :- TakeText(s1, 1, HOSTNAME_MAX_LENGTH);
      Taken(Endpoint(kind, hostname, NO_ADDRESS), s2)
    else if kind == IPV4 then
      var (ipv4, s2) :- TakeIpv4(s1);
      Taken(Endpoint(kind, [], ipv4), s2)
    else Malformed
  }

  predicate EndpointFits(e: Endpoint) {
    e.kind <= IPV4 && (e.kind == HOSTNAME ==> Fits(e.hostname, 1, HOSTNAME_MAX_LENGTH))
  }

  lemma EndpointRoundTrip(e: Endpoint, t: seq<byte>)
    requires EndpointFits(e)
    ensures TakeEndpoint(PutEndpoint(e, t)) == Taken(CleanEndpoint(e), t)
  {
    Elements();
    hide PutU8, TakeU8, PutText, TakeText, PutIpv4, TakeIpv4, Fits;
  }

  lemma EndpointBack(s: seq<byte>)
    requires TakeEndpoint(s).Taken?
    ensures var Taken(e, t) := TakeEndpoint(s); PutEndpoint(e, t) == s && EndpointFits(e)
  {
    ElementsBack();
    hide PutU8, TakeU8, PutText, TakeText, PutIpv4, TakeIpv4, Fits;
  }

  function PutNetwork(n: Network, t: seq<byte>): seq<byte> {
    PutU8(n.mode,
          if n.mode == STATIC then
            PutIpv4(n.ipAddress, PutIpv4(n.subnetMask, PutIpv4(n.gateway, PutIpv4(n.dnsPrimary, PutIpv4(n.dnsSecondary, t)))))
          else t)
  }

  function TakeNetwork(s: seq<byte>): Taken<Network> {
    var (mode, s1) :- TakeU8(s);
    if mode == STATIC then
      var (ipAddress, s2) :- TakeIpv4(s1);
      var (subnetMask, s3) :- TakeIpv4(s2);
      var (gateway, s4) :- TakeIpv4(s3);
      var (dnsPrimary, s5) :- TakeIpv4(s4);
      var (dnsSecondary, s6) :- TakeIpv4(s5);
      Taken(Network(mode, ipAddress, subnetMask, gateway, dnsPrimary, dnsSecondary), s6)
    else if mode == DHCP then Taken(NO_NETWORK, s1)
    else Malformed
  }

  lemma NetworkRoundTrip(n: Network, t: seq<byte>)
    requires n.mode <= STATIC
    ensures TakeNetwork(PutNetwork(n, t)) == Taken(CleanNetwork(n), t)
  {
    Elements();
    hide PutU8, TakeU8, PutIpv4, TakeIpv4;
  }

  lemma NetworkBack(s: seq<byte>)
    requires TakeNetwork(s).Taken?
    ensures var Taken(n, t) := TakeNetwork(s); PutNetwork(n, t) == s && n.mode <= STATIC
  {
    ElementsBack();
    hide PutU8, TakeU8, PutIpv4, TakeIpv4;
  }

  function PutRtu(r: Rtu, t: seq<byte>): seq<byte> {
    PutU32(r.baudRate, PutU8(r.frameFormat, PutU16(r.firstByteTimeoutMs, t)))
  }

  function TakeRtu(s: seq<byte>): Taken<Rtu> {
    var (baudRate, s1) :- TakeU32(s);
    var (frameFormat, s2) :- TakeU8(s1);
    var (firstByteTimeoutMs, s3) :- TakeU16(s2);
    Taken(Rtu(baudRate, frameFormat, firstByteTimeoutMs), s3)
  }

  lemma RtuRoundTrip(r: Rtu, t: seq<byte>)
    ensures TakeRtu(PutRtu(r, t)) == Taken(r, t)
  {
    Elements();
    hide PutU8, TakeU8, PutU16, TakeU16, PutU32, TakeU32;
  }

  lemma RtuBack(s: seq<byte>)
    requires TakeRtu(s).Taken?
    ensures PutRtu(TakeRtu(s).value, TakeRtu(s).rest) == s
  {
    ElementsBack();
    hide PutU8, TakeU8, PutU16, TakeU16, PutU32, TakeU32;
  }

  function PutClientId(c: ClientId, t: seq<byte>): seq<byte> {
    PutU8(c.mode, if c.mode == DERIVED then t else PutText(c.explicitValue, t))
  }

  function TakeClientId(s: seq<byte>): Taken<ClientId> {
    var (mode, s1) :- TakeU8(s);
    if mode == DERIVED then Taken(ClientId(mode, []), s1)
    else if mode == EXPLICIT then
      var (explicitValue, s2) :- TakeText(s1, 1, CLIENT_ID_MAX_LENGTH);
      Taken(ClientId(mode, explicitValue), s2)
    else Malformed
  }

  predicate ClientIdFits(c: ClientId) {
    c.mode <= EXPLICIT && (c.mode == EXPLICIT ==> Fits(c.explicitValue, 1, CLIENT_ID_MAX_LENGTH))
  }

  lemma ClientIdRoundTrip(c: ClientId, t: seq<byte>)
    requires ClientIdFits(c)
    ensures TakeClientId(PutClientId(c, t)) == Taken(CleanClientId(c), t)
  {
    Elements();
    hide PutU8, TakeU8, PutText, TakeText, Fits;
  }

  lemma ClientIdBack(s: seq<byte>)
    requires TakeClientId(s).Taken?
    ensures var Taken(c, t) := TakeClientId(s); PutClientId(c, t) == s && ClientIdFits(c)
  {
    ElementsBack();
    hide PutU8, TakeU8, PutText, TakeText, Fits;
  }

  function PutMessage(m: Message, t: seq<byte>): seq<byte> {
    PutU8(m.mode,
          if m.mode == DISABLED then t
          else PutText(m.topic, PutText(m.payload, PutU8(m.qos, PutU8(m.retain, t)))))
  }

  function TakeMessage(s: seq<byte>): Taken<Message> {
    var (mode, s1) :- TakeU8(s);
    if mode == DISABLED then Taken(NO_MESSAGE, s1)
    else if mode != CUSTOM then Malformed
    else
      var (topic, s2) :- TakeText(s1, 1, TOPIC_MAX_LENGTH);
      var (payload, s3) :- TakeText(s2, 0, MESSAGE_PAYLOAD_MAX_LENGTH);
      var (qos, s4) :- TakeU8(s3);
      var (retain, s5) :- TakeU8(s4);
      Taken(Message(mode, topic, payload, qos, retain), s5)
  }

  predicate MessageFits(m: Message) {
    m.mode <= CUSTOM
    && (m.mode == CUSTOM ==> Fits(m.topic, 1, TOPIC_MAX_LENGTH) && Fits(m.payload, 0, MESSAGE_PAYLOAD_MAX_LENGTH))
  }

  lemma MessageRoundTrip(m: Message, t: seq<byte>)
    requires MessageFits(m)
    ensures TakeMessage(PutMessage(m, t)) == Taken(CleanMessage(m), t)
  {
    Elements();
    hide PutU8, TakeU8, PutText, TakeText, Fits;
  }

  lemma MessageBack(s: seq<byte>)
    requires TakeMessage(s).Taken?
    ensures var Taken(m, t) := TakeMessage(s); PutMessage(m, t) == s && MessageFits(m)
  {
    ElementsBack();
    hide PutU8, TakeU8, PutText, TakeText, Fits;
  }

  // ---- MQTT

  function PutMqtt(m: Mqtt, t: seq<byte>): seq<byte> {
    PutU8(m.mode, if m.mode == ENABLED then PutBroker(m, PutLogin(m, PutMessage(m.online, PutMessage(m.will, t)))) else t)
  }

  function PutBroker(m: Mqtt, t: seq<byte>): seq<byte> {
    PutText(m.brokerAddress, PutU16(m.brokerPort, PutClientId(m.clientId, t)))
  }

  function PutLogin(m: Mqtt, t: seq<byte>): seq<byte> {
    PutText(m.username, PutText(m.password, PutText(m.caCertificate, PutU16(m.keepAliveSeconds, t))))
  }

  function TakeMqtt(s: seq<byte>): Taken<Mqtt> {
    var (mode, s1) :- TakeU8(s);
    if mode == ENABLED then
      var (broker, s2) :- TakeBroker(s1);
      var (login, s3) :- TakeLogin(broker, s2);
      var (online, s4) :- TakeMessage(s3);
      var (will, s5) :- TakeMessage(s4);
      Taken(login.(mode := mode, online := online, will := will), s5)
    else if mode == DISABLED then Taken(NO_MQTT, s1)
    else Malformed
  }

  function TakeBroker(s: seq<byte>): Taken<Mqtt> {
    var (brokerAddress, s1) :- TakeText(s, 1, HOSTNAME_MAX_LENGTH);
    var (brokerPort, s2) :- TakeU16(s1);
    var (clientId, s3) :- TakeClientId(s2);
    Taken(NO_MQTT.(brokerAddress := brokerAddress, brokerPort := brokerPort, clientId := clientId), s3)
  }

  function TakeLogin(m: Mqtt, s: seq<byte>): Taken<Mqtt> {
    var (username, s1) :- TakeText(s, 1, USERNAME_MAX_LENGTH);
    var (password, s2) :- TakeText(s1, 1, PASSWORD_MAX_LENGTH);
    var (caCertificate, s3) :- TakeText(s2, 1, CA_CERTIFICATE_MAX_LENGTH);
    var (keepAliveSeconds, s4) :- TakeU16(s3);
    Taken(m.(username := username, password := password, caCertificate := caCertificate, keepAliveSeconds := keepAliveSeconds), s4)
  }

  predicate MqttFits(m: Mqtt) {
    m.mode <= ENABLED
    && (m.mode == ENABLED ==>
          Fits(m.brokerAddress, 1, HOSTNAME_MAX_LENGTH) && ClientIdFits(m.clientId) && LoginFits(m)
          && MessageFits(m.online) && MessageFits(m.will))
  }

  predicate LoginFits(m: Mqtt) {
    Fits(m.username, 1, USERNAME_MAX_LENGTH) && Fits(m.password, 1, PASSWORD_MAX_LENGTH)
    && Fits(m.caCertificate, 1, CA_CERTIFICATE_MAX_LENGTH)
  }

  lemma BrokerRoundTrip(m: Mqtt, t: seq<byte>)
    requires Fits(m.brokerAddress, 1, HOSTNAME_MAX_LENGTH) && ClientIdFits(m.clientId)
    ensures TakeBroker(PutBroker(m, t))
            == Taken(NO_MQTT.(brokerAddress := m.brokerAddress, brokerPort := m.brokerPort, clientId := CleanClientId(m.clientId)), t)
  {
    Elements();
    hide PutU16, TakeU16, PutText, TakeText, Fits, PutClientId, TakeClientId;
    ClientIdRoundTrip(m.clientId, t);
  }

  lemma LoginRoundTrip(m: Mqtt, b: Mqtt, t: seq<byte>)
    requires LoginFits(m)
    ensures TakeLogin(b, PutLogin(m, t))
            == Taken(b.(username := m.username, password := m.password, caCertificate := m.caCertificate, keepAliveSeconds := m.keepAliveSeconds), t)
  {
    Elements();
    hide PutU16, TakeU16, PutText, TakeText, Fits;
  }

  lemma MqttRoundTrip(m: Mqtt, t: seq<byte>)
    requires MqttFits(m)
    ensures TakeMqtt(PutMqtt(m, t)) == Taken(CleanMqtt(m), t)
  {
    Elements();
    hide PutU8, TakeU8, PutBroker, TakeBroker, PutLogin, TakeLogin, PutMessage, TakeMessage, Fits, LoginFits;
    if m.mode == ENABLED {
      var t2 := PutMessage(m.will, t);
      var t1 := PutMessage(m.online, t2);
      BrokerRoundTrip(m, PutLogin(m, t1));
      LoginRoundTrip(m, TakeBroker(PutBroker(m, PutLogin(m, t1))).value, t1);
      MessageRoundTrip(m.online, t2);
      MessageRoundTrip(m.will, t);
    }
  }

  lemma BrokerBack(s: seq<byte>)
    requires TakeBroker(s).Taken?
    ensures var Taken(m, t) := TakeBroker(s);
            PutBroker(m, t) == s && Fits(m.brokerAddress, 1, HOSTNAME_MAX_LENGTH) && ClientIdFits(m.clientId)
  {
    ElementsBack();
    hide PutU16, TakeU16, PutText, TakeText, Fits, PutClientId, TakeClientId;
    var (_, s1) := TakeText(s, 1, HOSTNAME_MAX_LENGTH).Extract();
    ClientIdBack(TakeU16(s1).rest);
  }

  lemma LoginBack(m: Mqtt, s: seq<byte>)
    requires TakeLogin(m, s).Taken?
    ensures var Taken(r, t) := TakeLogin(m, s);
            PutLogin(r, t) == s && LoginFits(r)
            && r == m.(username := r.username, password := r.password, caCertificate := r.caCertificate, keepAliveSeconds := r.keepAliveSeconds)
  {
    ElementsBack();
    hide PutU16, TakeU16, PutText, TakeText, Fits;
  }

  lemma MqttBack(s: seq<byte>)
    requires TakeMqtt(s).Taken?
    ensures var Taken(m, t) := TakeMqtt(s); PutMqtt(m, t) == s && MqttFits(m)
  {
    ElementsBack();
    hide PutU8, TakeU8, TakeBroker, TakeLogin, PutMessage, TakeMessage, Fits, LoginFits, PutText, PutU16, PutClientId;
    var Taken(mode, s1) := TakeU8(s);
    if mode == ENABLED {
      var Taken(broker, s2) := TakeBroker(s1);
      BrokerBack(s1);
      LoginBack(broker, s2);
      var Taken(login, s3) := TakeLogin(broker, s2);
      MessageBack(s3);
      MessageBack(TakeMessage(s3).rest);
      LoginIgnores(login, TakeMqtt(s).value);
    }
  }

  lemma LoginIgnores(a: Mqtt, b: Mqtt)
    ensures a.username == b.username && a.password == b.password && a.caCertificate == b.caCertificate ==> LoginFits(a) == LoginFits(b)
  {
  }

  // ---- collection points

  function PutPoint(p: Point, t: seq<byte>): seq<byte> {
    PutU8(p.slaveAddress, PutU8(p.source, PutU16(p.address,
      if HasDataType(p.source) then PutU8(p.dataType, PutPolling(p, t)) else PutPolling(p, t))))
  }

  function PutPolling(p: Point, t: seq<byte>): seq<byte> {
    PutU32(p.pollIntervalMs, PutU16(p.firstByteTimeoutMs, PutText(p.topic, PutU8(p.qos, t))))
  }

  function TakePoint(s: seq<byte>): Taken<Point> {
    var (slaveAddress, s1) :- TakeU8(s);
    var (source, s2) :- TakeU8(s1);
    var (address, s3) :- TakeU16(s2);
    if HasDataType(source) then
      var (dataType, s4) :- TakeU8(s3);
      TakePolling(Point(slaveAddress, source, address, dataType, 0, 0, [], 0), s4)
    else if source != COIL && source != DISCRETE_INPUT then Malformed
    else TakePolling(Point(slaveAddress, source, address, 0, 0, 0, [], 0), s3)
  }

  function TakePolling(p: Point, s: seq<byte>): Taken<Point> {
    var (pollIntervalMs, s1) :- TakeU32(s);
    var (firstByteTimeoutMs, s2) :- TakeU16(s1);
    var (topic, s3) :- TakeText(s2, 1, TOPIC_MAX_LENGTH);
    var (qos, s4) :- TakeU8(s3);
    Taken(p.(pollIntervalMs := pollIntervalMs, firstByteTimeoutMs := firstByteTimeoutMs, topic := topic, qos := qos), s4)
  }

  predicate PointFits(p: Point) {
    p.source <= INPUT_REGISTER && Fits(p.topic, 1, TOPIC_MAX_LENGTH)
  }

  lemma PollingRoundTrip(p: Point, b: Point, t: seq<byte>)
    requires Fits(p.topic, 1, TOPIC_MAX_LENGTH)
    ensures TakePolling(b, PutPolling(p, t))
            == Taken(b.(pollIntervalMs := p.pollIntervalMs, firstByteTimeoutMs := p.firstByteTimeoutMs, topic := p.topic, qos := p.qos), t)
  {
    Elements();
    hide PutU8, TakeU8, PutU16, TakeU16, PutU32, TakeU32, PutText, TakeText, Fits;
  }

  lemma PointRoundTrip(p: Point, t: seq<byte>)
    requires PointFits(p)
    ensures TakePoint(PutPoint(p, t)) == Taken(CleanPoint(p), t)
  {
    Elements();
    hide PutU8, TakeU8, PutU16, TakeU16, PutPolling, TakePolling, Fits;
    var dataType := if HasDataType(p.source) then p.dataType else 0;
    PollingRoundTrip(p, Point(p.slaveAddress, p.source, p.address, dataType, 0, 0, [], 0), t);
  }

  lemma PollingBack(p: Point, s: seq<byte>)
    requires TakePolling(p, s).Taken?
    ensures var Taken(r, t) := TakePolling(p, s);
            PutPolling(r, t) == s && Fits(r.topic, 1, TOPIC_MAX_LENGTH)
            && r == p.(pollIntervalMs := r.pollIntervalMs, firstByteTimeoutMs := r.firstByteTimeoutMs, topic := r.topic, qos := r.qos)
  {
    ElementsBack();
    hide PutU8, TakeU8, PutU16, TakeU16, PutU32, TakeU32, PutText, TakeText, Fits;
  }

  lemma PointBack(s: seq<byte>)
    requires TakePoint(s).Taken?
    ensures var Taken(p, t) := TakePoint(s); PutPoint(p, t) == s && PointFits(p)
  {
    ElementsBack();
    hide PutU8, TakeU8, PutU16, TakeU16, PutPolling, TakePolling, Fits;
    var Taken(slaveAddress, s1) := TakeU8(s);
    var Taken(source, s2) := TakeU8(s1);
    var Taken(address, s3) := TakeU16(s2);
    if HasDataType(source) {
      var Taken(dataType, s4) := TakeU8(s3);
      PollingBack(Point(slaveAddress, source, address, dataType, 0, 0, [], 0), s4);
    } else {
      PollingBack(Point(slaveAddress, source, address, 0, 0, 0, [], 0), s3);
    }
  }

  function PutPoints(ps: seq<Point>, t: seq<byte>): seq<byte> {
    if ps == [] then t else PutPoint(ps[0], PutPoints(ps[1..], t))
  }

  function TakePoints(s: seq<byte>, count: nat): (r: Taken<seq<Point>>)
    ensures r.Taken? ==> |r.value| == count
  {
    if count == 0 then Taken([], s)
    else
      var (p, s1) :- TakePoint(s);
      var (ps, s2) :- TakePoints(s1, count - 1);
      Taken([p] + ps, s2)
  }

  predicate PointsFit(ps: seq<Point>) {
    forall i | 0 <= i < |ps| :: PointFits(ps[i])
  }

  lemma {:induction false} PointsRoundTrip(ps: seq<Point>, t: seq<byte>)
    requires PointsFit(ps)
    ensures TakePoints(PutPoints(ps, t), |ps|) == Taken(CleanPoints(ps), t)
  {
    hide PutPoint, TakePoint, PointFits, CleanPoint;
    if ps != [] {
      PointRoundTrip(ps[0], PutPoints(ps[1..], t));
      PointsRoundTrip(ps[1..], t);
      assert CleanPoints(ps) == [CleanPoint(ps[0])] + CleanPoints(ps[1..]);
    } else {
      assert CleanPoints(ps) == [];
    }
  }

  lemma {:induction false} PointsBack(s: seq<byte>, count: nat)
    requires TakePoints(s, count).Taken?
    ensures var Taken(ps, t) := TakePoints(s, count); PutPoints(ps, t) == s && PointsFit(ps)
    decreases count
  {
    hide PutPoint, TakePoint, PointFits;
    if count > 0 {
      var Taken(p, s1) := TakePoint(s);
      PointBack(s);
      PointsBack(s1, count - 1);
      var ps := TakePoints(s1, count - 1).value;
      assert ([p] + ps)[1..] == ps;
    }
  }

  // ---- the whole payload

  function PutConfiguration(c: Configuration, t: seq<byte>): seq<byte> {
    PutU8(SCHEMA_VERSION, PutFields(c, t))
  }

  function PutFields(c: Configuration, t: seq<byte>): seq<byte> {
    PutNetwork(c.network, PutRtu(c.rtu, PutU16(c.listenPort, PutEndpoint(c.server0, PutEndpoint(c.server1,
      PutMqtt(c.mqtt, PutU8(|c.points|, PutPoints(c.points, t))))))))
  }

  /** `configuration_binary_encode` without a limit on the buffer. */
  function Encode(c: Configuration): seq<byte> {
    PutConfiguration(c, [])
  }

  /** `decode_fields` */
  function TakeFields(s: seq<byte>): Taken<Configuration> {
    var (network, s1) :- TakeNetwork(s);
    var (rtu, s2) :- TakeRtu(s1);
    var (listenPort, s3) :- TakeU16(s2);
    var (server0, s4) :- TakeEndpoint(s3);
    var (server1, s5) :- TakeEndpoint(s4);
    var (mqtt, s6) :- TakeMqtt(s5);
    var (count, s7) :- TakeU8(s6);
    if count > POINT_MAX_COUNT then Malformed
    else
      var (points, s8) :- TakePoints(s7, count);
      Taken(Configuration(network, rtu, listenPort, server0, server1, mqtt, points), s8)
  }

  /** What the format can carry. */
  predicate FitsFormat(c: Configuration) {
    c.network.mode <= STATIC && EndpointFits(c.server0) && EndpointFits(c.server1) && MqttFits(c.mqtt)
    && |c.points| <= POINT_MAX_COUNT && PointsFit(c.points)
  }

  lemma FieldsRoundTrip(c: Configuration, t: seq<byte>)
    requires FitsFormat(c)
    ensures TakeFields(PutFields(c, t)) == Taken(Clean(c), t)
  {
    Elements();
    hide PutU8, TakeU8, PutU16, TakeU16, PutNetwork, TakeNetwork, PutRtu, TakeRtu, PutEndpoint, TakeEndpoint, PutMqtt, TakeMqtt,
      PutPoints, TakePoints, CleanNetwork, CleanEndpoint, CleanMqtt, CleanPoints, EndpointFits, MqttFits, PointsFit;
    var t7 := PutPoints(c.points, t);
    var t6 := PutU8(|c.points|, t7);
    var t5 := PutMqtt(c.mqtt, t6);
    var t4 := PutEndpoint(c.server1, t5);
    var t3 := PutEndpoint(c.server0, t4);
    var t2 := PutU16(c.listenPort, t3);
    NetworkRoundTrip(c.network, PutRtu(c.rtu, t2));
    RtuRoundTrip(c.rtu, t2);
    EndpointRoundTrip(c.server0, t4);
    EndpointRoundTrip(c.server1, t5);
    MqttRoundTrip(c.mqtt, t6);
    PointsRoundTrip(c.points, t);
  }

  lemma FieldsBack(s: seq<byte>)
    requires TakeFields(s).Taken?
    ensures var Taken(c, t) := TakeFields(s); PutFields(c, t) == s && FitsFormat(c)
  {
    ElementsBack();
    hide PutU8, TakeU8, PutU16, TakeU16, PutNetwork, TakeNetwork, PutRtu, TakeRtu, PutEndpoint, TakeEndpoint, PutMqtt, TakeMqtt,
      PutPoints, TakePoints, EndpointFits, MqttFits, PointsFit;
    var Taken(network, s1) := TakeNetwork(s);
    var Taken(rtu, s2) := TakeRtu(s1);
    var Taken(listenPort, s3) := TakeU16(s2);
    var Taken(server0, s4) := TakeEndpoint(s3);
    var Taken(server1, s5) := TakeEndpoint(s4);
    var Taken(mqtt, s6) := TakeMqtt(s5);
    var Taken(count, s7) := TakeU8(s6);
    NetworkBack(s);
    RtuBack(s1);
    EndpointBack(s3);
    EndpointBack(s4);
    MqttBack(s5);
    PointsBack(s7, count);
  }

  // ---- lengths

  lemma EndpointLength(e: Endpoint, t: seq<byte>)
    requires EndpointFits(e)
    ensures |PutEndpoint(e, t)| <= 256 + |t|
  {
  }

  lemma MessageLength(m: Message, t: seq<byte>)
    requires MessageFits(m)
    ensures |PutMessage(m, t)| <= 263 + |t|
  {
  }

  lemma MqttLength(m: Mqtt, t: seq<byte>)
    requires MqttFits(m)
    ensures |PutMqtt(m, t)| <= 5659 + |t|
  {
    hide PutMessage, MessageFits;
    if m.mode == ENABLED {
      MessageLength(m.online, PutMessage(m.will, t));
      MessageLength(m.will, t);
    }
  }

  lemma {:induction false} PointsLength(ps: seq<Point>, t: seq<byte>)
    requires PointsFit(ps)
    ensures |PutPoints(ps, t)| <= 142 * |ps| + |t|
  {
    if ps != [] {
      PointsLength(ps[1..], t);
      assert PointFits(ps[0]);
    }
  }

  /** Everything the format can carry is between 1 and 8475 bytes long. */
  lemma EncodedLength(c: Configuration)
    requires FitsFormat(c)
    ensures 0 < |Encode(c)| <= MAX_PAYLOAD_LENGTH
  {
    hide PutEndpoint, PutMqtt, PutPoints, EndpointFits, MqttFits, PointsFit;
    var t7 := PutPoints(c.points, []);
    var t6 := PutU8(|c.points|, t7);
    var t5 := PutMqtt(c.mqtt, t6);
    var t4 := PutEndpoint(c.server1, t5);
    EndpointLength(c.server0, t4);
    EndpointLength(c.server1, t5);
    MqttLength(c.mqtt, t6);
    PointsLength(c.points, []);
  }
}
