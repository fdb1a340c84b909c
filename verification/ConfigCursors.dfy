/** The reader and writer cursors of `configuration_binary_codec.c`. */
module ConfigCursors {
  import opened Bytes
  import opened ConfigModel
  import opened ConfigFormat
  import opened ConfigRules
  import Codec = ConfigCodec

  /** `current` walks over the payload; a failed read may leave it anywhere. */
  class Reader {
    const payload: seq<byte>
    var current: nat

    ghost predicate Valid()
      reads this
    {
      current <= |payload|
    }

    ghost function Rest(): seq<byte>
      requires Valid()
      reads this
    {
      payload[current..]
    }

    constructor (bytes: seq<byte>)
      ensures Valid() && Rest() == bytes && payload == bytes
    {
      payload := bytes;
      current := 0;
    }

    method ReadU8() returns (ok: bool, v: byte)
      requires Valid()
      modifies this
      ensures Valid()
      ensures TakeU8(old(Rest())) == if ok then Taken(v, Rest()) else Malformed
    {
      if current == |payload| {
        return false, 0;
      }
      v := payload[current];
      current := current + 1;
      ok := true;
    }

    method ReadU16() returns (ok: bool, v: u16)
      requires Valid()
      modifies this
      ensures Valid()
      ensures TakeU16(old(Rest())) == if ok then Taken(v, Rest()) else Malformed
    {
      if |payload| - current < 2 {
        return false, 0;
      }
      v := payload[current] + 0x100 * (payload[current + 1] as int);
      current := current + 2;
      ok := true;
    }

    method ReadU32() returns (ok: bool, v: u32)
      requires Valid()
      modifies this
      ensures Valid()
      ensures TakeU32(old(Rest())) == if ok then Taken(v, Rest()) else Malformed
    {
      if |payload| - current < 4 {
        return false, 0;
      }
      v := payload[current] + 0x100 * (payload[current + 1] as int) + 0x1_0000 * (payload[current + 2] as int)
           + 0x100_0000 * (payload[current + 3] as int);
      current := current + 4;
      ok := true;
    }

    method ReadText(minimum: nat, maximum: nat) returns (ok: bool, x: Text)
      requires Valid()
      modifies this
      ensures Valid()
      ensures TakeText(old(Rest()), minimum, maximum) == if ok then Taken(x, Rest()) else Malformed
    {
      hide TakeU16;
      x := [];
      var length;
      ok, length := ReadU16();
      if !ok || length < minimum || length > maximum || |payload| - current < length {
        return false, [];
      }
      ghost var rest := Rest();
      x := payload[current..current + length];
      current := current + length;
      assert x == rest[..length] && Rest() == rest[length..];
    }

    method ReadIpv4() returns (ok: bool, x: Ipv4)
      requires Valid()
      modifies this
      ensures Valid()
      ensures TakeIpv4(old(Rest())) == if ok then Taken(x, Rest()) else Malformed
    {
      if |payload| - current < 4 {
        return false, NO_ADDRESS;
      }
      x := Ipv4(payload[current], payload[current + 1], payload[current + 2], payload[current + 3]);
      current := current + 4;
      ok := true;
    }

    method ReadEndpoint() returns (ok: bool, e: Endpoint)
      requires Valid()
      modifies this
      ensures Valid()
      ensures TakeEndpoint(old(Rest())) == if ok then Taken(e, Rest()) else Malformed
    {
      hide TakeU8, TakeText, TakeIpv4;
      e := Endpoint(HOSTNAME, [], NO_ADDRESS);
      var kind;
      ok, kind := ReadU8();
      if !ok {
        return;
      }
      if kind == HOSTNAME {
        var hostname;
        ok, hostname := ReadText(1, HOSTNAME_MAX_LENGTH);
        e := Endpoint(kind, hostname, NO_ADDRESS);
      } else if kind == IPV4 {
        var ipv4;
        ok, ipv4 := ReadIpv4();
        e := Endpoint(kind, [], ipv4);
      } else {
        ok := false;
      }
    }

    method ReadClientId() returns (ok: bool, c: ClientId)
      requires Valid()
      modifies this
      ensures Valid()
      ensures TakeClientId(old(Rest())) == if ok then Taken(c, Rest()) else Malformed
    {
      hide TakeU8, TakeText;
      c := ClientId(DERIVED, []);
      var mode;
      ok, mode := ReadU8();
      if !ok || mode == DERIVED {
        return;
      }
      if mode == EXPLICIT {
        var value;
        ok, value := ReadText(1, CLIENT_ID_MAX_LENGTH);
        c := ClientId(mode, value);
      } else {
        ok := false;
      }
    }

    method ReadMessage() returns (ok: bool, m: Message)
      requires Valid()
      modifies this
      ensures Valid()
      ensures TakeMessage(old(Rest())) == if ok then Taken(m, Rest()) else Malformed
    {
      hide TakeU8, TakeText;
      m := NO_MESSAGE;
      var mode, topic, payload', qos, retain;
      ok, mode := ReadU8();
      if !ok || mode == DISABLED {
        return;
      }
      if mode != CUSTOM {
        return false, m;
      }
      ok, topic := ReadText(1, TOPIC_MAX_LENGTH);
      if !ok { return; }
      ok, payload' := ReadText(0, MESSAGE_PAYLOAD_MAX_LENGTH);
      if !ok { return; }
      ok, qos := ReadU8();
      if !ok { return; }
      ok, retain := ReadU8();
      m := Message(mode, topic, payload', qos, retain);
    }

    method ReadNetwork() returns (ok: bool, n: Network)
      requires Valid()
      modifies this
      ensures Valid()
      ensures TakeNetwork(old(Rest())) == if ok then Taken(n, Rest()) else Malformed
    {
      hide TakeU8, TakeIpv4;
      n := NO_NETWORK;
      var mode, ipAddress, subnetMask, gateway, dnsPrimary, dnsSecondary;
      ok, mode := ReadU8();
      if !ok { return; }
      if mode == STATIC {
        ok, ipAddress := ReadIpv4();
        if !ok { return; }
        ok, subnetMask := ReadIpv4();
        if !ok { return; }
        ok, gateway := ReadIpv4();
        if !ok { return; }
        ok, dnsPrimary := ReadIpv4();
        if !ok { return; }
        ok, dnsSecondary := ReadIpv4();
        n := Network(mode, ipAddress, subnetMask, gateway, dnsPrimary, dnsSecondary);
      } else {
        ok := mode == DHCP;
      }
    }

    method ReadRtu() returns (ok: bool, r: Rtu)
      requires Valid()
      modifies this
      ensures Valid()
      ensures TakeRtu(old(Rest())) == if ok then Taken(r, Rest()) else Malformed
    {
      hide TakeU8, TakeU16, TakeU32;
      r := Rtu(0, 0, 0);
      var baudRate, frameFormat, timeout;
      ok, baudRate := ReadU32();
      if !ok { return; }
      ok, frameFormat := ReadU8();
      if !ok { return; }
      ok, timeout := ReadU16();
      r := Rtu(baudRate, frameFormat, timeout);
    }

    method ReadBroker() returns (ok: bool, m: Mqtt)
      requires Valid()
      modifies this
      ensures Valid()
      ensures TakeBroker(old(Rest())) == if ok then Taken(m, Rest()) else Malformed
    {
      hide TakeU16, TakeText, TakeClientId;
      m := NO_MQTT;
      var address, port, clientId;
      ok, address := ReadText(1, HOSTNAME_MAX_LENGTH);
      if !ok { return; }
      ok, port := ReadU16();
      if !ok { return; }
      ok, clientId := ReadClientId();
      m := m.(brokerAddress := address, brokerPort := port, clientId := clientId);
    }

    method ReadLogin(m: Mqtt) returns (ok: bool, r: Mqtt)
      requires Valid()
      modifies this
      ensures Valid()
      ensures TakeLogin(m, old(Rest())) == if ok then Taken(r, Rest()) else Malformed
    {
      hide TakeU16, TakeText;
      r := m;
      var username, password, certificate, keepAlive;
      ok, username := ReadText(1, USERNAME_MAX_LENGTH);
      if !ok { return; }
      ok, password := ReadText(1, PASSWORD_MAX_LENGTH);
      if !ok { return; }
      ok, certificate := ReadText(1, CA_CERTIFICATE_MAX_LENGTH);
      if !ok { return; }
      ok, keepAlive := ReadU16();
      r := m.(username := username, password := password, caCertificate := certificate, keepAliveSeconds := keepAlive);
    }

    method ReadMqtt() returns (ok: bool, m: Mqtt)
      requires Valid()
      modifies this
      ensures Valid()
      ensures TakeMqtt(old(Rest())) == if ok then Taken(m, Rest()) else Malformed
    {
      hide TakeU8, TakeBroker, TakeLogin, TakeMessage;
      m := NO_MQTT;
      var mode, online, will;
      ok, mode := ReadU8();
      if !ok { return; }
      if mode == ENABLED {
        ok, m := ReadBroker();
        if !ok { return; }
        ok, m := ReadLogin(m);
        if !ok { return; }
        ok, online := ReadMessage();
        if !ok { return; }
        ok, will := ReadMessage();
        m := m.(mode := mode, online := online, will := will);
      } else {
        ok := mode == DISABLED;
      }
    }

    method ReadPolling(p: Point) returns (ok: bool, r: Point)
      requires Valid()
      modifies this
      ensures Valid()
      ensures TakePolling(p, old(Rest())) == if ok then Taken(r, Rest()) else Malformed
    {
      hide TakeU8, TakeU16, TakeU32, TakeText;
      r := p;
      var interval, timeout, topic, qos;
      ok, interval := ReadU32();
      if !ok { return; }
      ok, timeout := ReadU16();
      if !ok { return; }
      ok, topic := ReadText(1, TOPIC_MAX_LENGTH);
      if !ok { return; }
      ok, qos := ReadU8();
      r := p.(pollIntervalMs := interval, firstByteTimeoutMs := timeout, topic := topic, qos := qos);
    }

    method ReadPoint() returns (ok: bool, p: Point)
      requires Valid()
      modifies this
      ensures Valid()
      ensures TakePoint(old(Rest())) == if ok then Taken(p, Rest()) else Malformed
    {
      hide TakeU8, TakeU16, TakePolling;
      p := Point(0, 0, 0, 0, 0, 0, [], 0);
      var slave, source, address, dataType := 0, 0, 0, 0;
      ok, slave := ReadU8();
      if !ok { return; }
      ok, source := ReadU8();
      if !ok { return; }
      ok, address := ReadU16();
      if !ok { return; }
      if HasDataType(source) {
        ok, dataType := ReadU8();
        if !ok { return; }
      } else if source != COIL && source != DISCRETE_INPUT {
        return false, p;
      }
      ok, p := ReadPolling(Point(slave, source, address, dataType, 0, 0, [], 0));
    }

    /** The loop over the collection points. */
    method ReadPoints(count: byte) returns (ok: bool, points: seq<Point>)
      requires Valid()
      modifies this
      ensures Valid()
      ensures TakePoints(old(Rest()), count) == if ok then Taken(points, Rest()) else Malformed
    {
      hide TakePoint;
      points := [];
      var index := 0;
      ghost var start := Rest();
      AfterNone(TakePoints(start, count));
      while index < count
        invariant 0 <= index <= count && Valid() && |points| == index
        invariant TakePoints(start, count) == After(points, TakePoints(Rest(), count - index))
      {
        var p;
        ghost var rest := Rest();
        ok, p := ReadPoint();
        AfterOne(points, rest, count - index);
        if !ok {
          return false, [];
        }
        points := points + [p];
        index := index + 1;
      }
      assert points + [] == points;
      ok := true;
    }

    /** `decode_fields` */
    method ReadFields() returns (ok: bool, c: Option<Configuration>)
      requires Valid()
      modifies this
      ensures Valid() && (ok <==> c.Some?)
      ensures TakeFields(old(Rest())) == if ok then Taken(c.value, Rest()) else Malformed
    {
      hide TakeU8, TakeU16, TakeNetwork, TakeRtu, TakeEndpoint, TakeMqtt, TakePoints;
      c := None;
      var network, rtu, port, server0, server1, mqtt, count, points;
      ok, network := ReadNetwork();
      if !ok { return; }
      ok, rtu := ReadRtu();
      if !ok { return; }
      ok, port := ReadU16();
      if !ok { return; }
      ok, server0 := ReadEndpoint();
      if !ok { return; }
      ok, server1 := ReadEndpoint();
      if !ok { return; }
      ok, mqtt := ReadMqtt();
      if !ok { return; }
      ok, count := ReadU8();
      if !ok || count > POINT_MAX_COUNT {
        return false, None;
      }
      ok, points := ReadPoints(count);
      if !ok { return; }
      c := Some(Configuration(network, rtu, port, server0, server1, mqtt, points));
    }
  }

  /** The points read so far in front of those still to come. */
  ghost function After(points: seq<Point>, more: Taken<seq<Point>>): Taken<seq<Point>> {
    if more.Malformed? then Malformed else Taken(points + more.value, more.rest)
  }

  lemma AfterNone(more: Taken<seq<Point>>)
    ensures After([], more) == more
  {
    if more.Taken? {
      assert [] + more.value == more.value;
    }
  }

  lemma AfterOne(points: seq<Point>, s: seq<byte>, count: nat)
    requires count > 0
    ensures After(points, TakePoints(s, count))
            == if TakePoint(s).Malformed? then Malformed
               else After(points + [TakePoint(s).value], TakePoints(TakePoint(s).rest, count - 1))
  {
    hide TakePoint;
    if TakePoint(s).Taken? {
      var more := TakePoints(TakePoint(s).rest, count - 1);
      if more.Taken? {
        assert points + ([TakePoint(s).value] + more.value) == (points + [TakePoint(s).value]) + more.value;
      }
    }
  }

  /** `configuration_binary_decode` */
  method DecodePayload(certify: Certifier, payload: seq<byte>) returns (decoded: Codec.Decoded)
    ensures decoded == Codec.Decode(certify, payload)
  {
    hide TakeU8, TakeFields, Codec.FromFields;
    if |payload| == 0 || |payload| > MAX_PAYLOAD_LENGTH {
      return Codec.Decoded(Codec.PayloadLengthInvalid, None);
    }
    var reader := new Reader(payload);
    var ok, version := reader.ReadU8();
    if !ok || version != SCHEMA_VERSION {
      return Codec.Decoded(Codec.SchemaUnsupported, None);
    }
    decoded := DecodeRest(certify, reader);
  }

  method DecodeRest(certify: Certifier, reader: Reader) returns (decoded: Codec.Decoded)
    requires reader.Valid()
    modifies reader
    ensures decoded == Codec.FromFields(certify, TakeFields(old(reader.Rest())))
  {
    hide TakeFields, Codec.Judged;
    var ok, fields := reader.ReadFields();
    if !ok || reader.current != |reader.payload| {
      return Codec.Decoded(Codec.MalformedPayload, None);
    }
    decoded := JudgeFields(certify, fields.value);
  }

  method JudgeFields(certify: Certifier, c: Configuration) returns (decoded: Codec.Decoded)
    ensures decoded == Codec.Judged(certify, c)
  {
    hide Validate;
    var verdict := ValidateConfiguration(certify, c);
    if verdict.ResourceUnavailable? {
      return Codec.Decoded(Codec.Unavailable, None);
    }
    if !verdict.Valid? {
      return Codec.Decoded(Codec.ModelInvalid, None);
    }
    decoded := Codec.Decoded(Codec.Ok, Some(c));
  }

  /** `current` walks over the buffer; what is before it has been written. A failed write may leave a part behind. */
  class Writer {
    const buffer: array<byte>
    var current: nat

    ghost predicate Valid()
      reads this
    {
      current <= buffer.Length
    }

    ghost function Written(): seq<byte>
      requires Valid()
      reads this, buffer
    {
      buffer[..current]
    }

    constructor (bytes: array<byte>)
      ensures Valid() && buffer == bytes && current == 0
    {
      buffer := bytes;
      current := 0;
    }

    /** `writer_write_bytes` */
    method WriteBytes(x: seq<byte>) returns (ok: bool)
      requires Valid()
      modifies this`current, buffer
      ensures Valid()
      ensures ok <==> old(current) + |x| <= buffer.Length
      ensures ok ==> current == old(current) + |x| && Written() == old(Written()) + x
    {
      if buffer.Length - current < |x| {
        return false;
      }
      forall i | 0 <= i < |x| {
        buffer[current + i] := x[i];
      }
      current := current + |x|;
      ok := true;
    }

    method WriteU8(v: byte) returns (ok: bool)
      requires Valid()
      modifies this`current, buffer
      ensures Valid()
      ensures ok <==> old(current) + |PutU8(v, [])| <= buffer.Length
      ensures ok ==> current == old(current) + |PutU8(v, [])|
      ensures ok ==> forall t: seq<byte> {:trigger PutU8(v, t)} :: old(Written()) + PutU8(v, t) == Written() + t
    {
      ghost var before := Written();
      ok := WriteBytes([v]);
      if ok {
        assert forall t: seq<byte> {:trigger PutU8(v, t)} :: before + PutU8(v, t) == (before + [v]) + t;
      }
    }

    method WriteU16(v: u16) returns (ok: bool)
      requires Valid()
      modifies this`current, buffer
      ensures Valid()
      ensures ok <==> old(current) + |PutU16(v, [])| <= buffer.Length
      ensures ok ==> current == old(current) + |PutU16(v, [])|
      ensures ok ==> forall t: seq<byte> {:trigger PutU16(v, t)} :: old(Written()) + PutU16(v, t) == Written() + t
    {
      ghost var before := Written();
      ok := WriteBytes(WriteU16Le(v));
      if ok {
        assert forall t: seq<byte> {:trigger PutU16(v, t)} :: before + PutU16(v, t) == (before + WriteU16Le(v)) + t;
      }
    }

    method WriteU32(v: u32) returns (ok: bool)
      requires Valid()
      modifies this`current, buffer
      ensures Valid()
      ensures ok <==> old(current) + |PutU32(v, [])| <= buffer.Length
      ensures ok ==> current == old(current) + |PutU32(v, [])|
      ensures ok ==> forall t: seq<byte> {:trigger PutU32(v, t)} :: old(Written()) + PutU32(v, t) == Written() + t
    {
      ghost var before := Written();
      ok := WriteBytes(WriteU32Le(v));
      if ok {
        assert forall t: seq<byte> {:trigger PutU32(v, t)} :: before + PutU32(v, t) == (before + WriteU32Le(v)) + t;
      }
    }

    method WriteIpv4(x: Ipv4) returns (ok: bool)
      requires Valid()
      modifies this`current, buffer
      ensures Valid()
      ensures ok <==> old(current) + |PutIpv4(x, [])| <= buffer.Length
      ensures ok ==> current == old(current) + |PutIpv4(x, [])|
      ensures ok ==> forall t: seq<byte> {:trigger PutIpv4(x, t)} :: old(Written()) + PutIpv4(x, t) == Written() + t
    {
      ghost var before := Written();
      ok := WriteBytes([x.a, x.b, x.c, x.d]);
      if ok {
        assert forall t: seq<byte> {:trigger PutIpv4(x, t)} :: before + PutIpv4(x, t) == (before + [x.a, x.b, x.c, x.d]) + t;
      }
    }

    method WriteText(x: Text) returns (ok: bool)
      requires Valid()
      modifies this`current, buffer
      ensures Valid()
      ensures ok <==> old(current) + |PutText(x, [])| <= buffer.Length
      ensures ok ==> current == old(current) + |PutText(x, [])|
      ensures ok ==> forall t: seq<byte> {:trigger PutText(x, t)} :: old(Written()) + PutText(x, t) == Written() + t
    {
      hide PutU16;
      ok := WriteU16(|x|);
      if ok {
        ghost var before := Written();
        ok := WriteBytes(x);
        if ok {
          assert forall t: seq<byte> :: before + (x + t) == (before + x) + t;
        }
      }
    }

    method WriteEndpoint(e: Endpoint) returns (ok: bool)
      requires Valid()
      modifies this`current, buffer
      ensures Valid()
      ensures ok <==> old(current) + |PutEndpoint(e, [])| <= buffer.Length
      ensures ok ==> current == old(current) + |PutEndpoint(e, [])|
      ensures ok ==> forall t: seq<byte> {:trigger PutEndpoint(e, t)} :: old(Written()) + PutEndpoint(e, t) == Written() + t
    {
      hide PutU8, PutText, PutIpv4;
      ok := WriteU8(e.kind);
      if ok {
        if e.kind == HOSTNAME {
          ok := WriteText(e.hostname);
        } else {
          ok := WriteIpv4(e.ipv4);
        }
      }
    }

    method WriteClientId(c: ClientId) returns (ok: bool)
      requires Valid()
      modifies this`current, buffer
      ensures Valid()
      ensures ok <==> old(current) + |PutClientId(c, [])| <= buffer.Length
      ensures ok ==> current == old(current) + |PutClientId(c, [])|
      ensures ok ==> forall t: seq<byte> {:trigger PutClientId(c, t)} :: old(Written()) + PutClientId(c, t) == Written() + t
    {
      hide PutU8, PutText;
      ok := WriteU8(c.mode);
      if ok && c.mode != DERIVED {
        ok := WriteText(c.explicitValue);
      }
    }

    method WriteMessage(m: Message) returns (ok: bool)
      requires Valid()
      modifies this`current, buffer
      ensures Valid()
      ensures ok <==> old(current) + |PutMessage(m, [])| <= buffer.Length
      ensures ok ==> current == old(current) + |PutMessage(m, [])|
      ensures ok ==> forall t: seq<byte> {:trigger PutMessage(m, t)} :: old(Written()) + PutMessage(m, t) == Written() + t
    {
      hide PutU8, PutText;
      ok := WriteU8(m.mode);
      if !ok || m.mode == DISABLED {
        return;
      }
      ok := WriteText(m.topic);
      if ok {
        ok := WriteText(m.payload);
      }
      if ok {
        ok := WriteU8(m.qos);
      }
      if ok {
        ok := WriteU8(m.retain);
      }
    }

    method WriteNetwork(n: Network) returns (ok: bool)
      requires Valid()
      modifies this`current, buffer
      ensures Valid()
      ensures ok <==> old(current) + |PutNetwork(n, [])| <= buffer.Length
      ensures ok ==> current == old(current) + |PutNetwork(n, [])|
      ensures ok ==> forall t: seq<byte> {:trigger PutNetwork(n, t)} :: old(Written()) + PutNetwork(n, t) == Written() + t
    {
      hide PutU8, PutIpv4;
      ok := WriteU8(n.mode);
      if !ok || n.mode != STATIC {
        return;
      }
      ok := WriteIpv4(n.ipAddress);
      if ok {
        ok := WriteIpv4(n.subnetMask);
      }
      if ok {
        ok := WriteIpv4(n.gateway);
      }
      if ok {
        ok := WriteIpv4(n.dnsPrimary);
      }
      if ok {
        ok := WriteIpv4(n.dnsSecondary);
      }
    }

    method WriteRtu(r: Rtu) returns (ok: bool)
      requires Valid()
      modifies this`current, buffer
      ensures Valid()
      ensures ok <==> old(current) + |PutRtu(r, [])| <= buffer.Length
      ensures ok ==> current == old(current) + |PutRtu(r, [])|
      ensures ok ==> forall t: seq<byte> {:trigger PutRtu(r, t)} :: old(Written()) + PutRtu(r, t) == Written() + t
    {
      hide PutU8, PutU16, PutU32;
      ok := WriteU32(r.baudRate);
      if ok {
        ok := WriteU8(r.frameFormat);
      }
      if ok {
        ok := WriteU16(r.firstByteTimeoutMs);
      }
    }

    method WriteBroker(m: Mqtt) returns (ok: bool)
      requires Valid()
      modifies this`current, buffer
      ensures Valid()
      ensures ok <==> old(current) + |PutBroker(m, [])| <= buffer.Length
      ensures ok ==> current == old(current) + |PutBroker(m, [])|
      ensures ok ==> forall t: seq<byte> {:trigger PutBroker(m, t)} :: old(Written()) + PutBroker(m, t) == Written() + t
    {
      hide PutU16, PutText, PutClientId;
      ok := WriteText(m.brokerAddress);
      if ok {
        ok := WriteU16(m.brokerPort);
      }
      if ok {
        ok := WriteClientId(m.clientId);
      }
    }

    method WriteLogin(m: Mqtt) returns (ok: bool)
      requires Valid()
      modifies this`current, buffer
      ensures Valid()
      ensures ok <==> old(current) + |PutLogin(m, [])| <= buffer.Length
      ensures ok ==> current == old(current) + |PutLogin(m, [])|
      ensures ok ==> forall t: seq<byte> {:trigger PutLogin(m, t)} :: old(Written()) + PutLogin(m, t) == Written() + t
    {
      hide PutU16, PutText;
      ok := WriteText(m.username);
      if ok {
        ok := WriteText(m.password);
      }
      if ok {
        ok := WriteText(m.caCertificate);
      }
      if ok {
        ok := WriteU16(m.keepAliveSeconds);
      }
    }

    method WriteMqtt(m: Mqtt) returns (ok: bool)
      requires Valid()
      modifies this`current, buffer
      ensures Valid()
      ensures ok <==> old(current) + |PutMqtt(m, [])| <= buffer.Length
      ensures ok ==> current == old(current) + |PutMqtt(m, [])|
      ensures ok ==> forall t: seq<byte> {:trigger PutMqtt(m, t)} :: old(Written()) + PutMqtt(m, t) == Written() + t
    {
      hide PutU8, PutBroker, PutLogin, PutMessage;
      MqttSizes(m);
      ok := WriteU8(m.mode);
      if !ok || m.mode != ENABLED {
        return;
      }
      ok := WriteBroker(m);
      if ok {
        ok := WriteLogin(m);
      }
      if ok {
        ok := WriteMessage(m.online);
      }
      if ok {
        ok := WriteMessage(m.will);
      }
    }

    method WritePolling(p: Point) returns (ok: bool)
      requires Valid()
      modifies this`current, buffer
      ensures Valid()
      ensures ok <==> old(current) + |PutPolling(p, [])| <= buffer.Length
      ensures ok ==> current == old(current) + |PutPolling(p, [])|
      ensures ok ==> forall t: seq<byte> {:trigger PutPolling(p, t)} :: old(Written()) + PutPolling(p, t) == Written() + t
    {
      hide PutU8, PutU16, PutU32, PutText;
      ok := WriteU32(p.pollIntervalMs);
      if ok {
        ok := WriteU16(p.firstByteTimeoutMs);
      }
      if ok {
        ok := WriteText(p.topic);
      }
      if ok {
        ok := WriteU8(p.qos);
      }
    }

    method WritePoint(p: Point) returns (ok: bool)
      requires Valid()
      modifies this`current, buffer
      ensures Valid()
      ensures ok <==> old(current) + |PutPoint(p, [])| <= buffer.Length
      ensures ok ==> current == old(current) + |PutPoint(p, [])|
      ensures ok ==> forall t: seq<byte> {:trigger PutPoint(p, t)} :: old(Written()) + PutPoint(p, t) == Written() + t
    {
      hide PutU8, PutU16, PutPolling;
      ok := WriteU8(p.slaveAddress);
      if ok {
        ok := WriteU8(p.source);
      }
      if ok {
        ok := WriteU16(p.address);
      }
      if ok && HasDataType(p.source) {
        ok := WriteU8(p.dataType);
      }
      if ok {
        ok := WritePolling(p);
      }
    }

    /** The loop over the collection points. */
    method WritePoints(ps: seq<Point>) returns (ok: bool)
      requires Valid()
      modifies this`current, buffer
      ensures Valid()
      ensures ok <==> old(current) + |PutPoints(ps, [])| <= buffer.Length
      ensures ok ==> current == old(current) + |PutPoints(ps, [])|
      ensures ok ==> forall t: seq<byte> {:trigger PutPoints(ps, t)} :: old(Written()) + PutPoints(ps, t) == Written() + t
    {
      hide PutPoint;
      var index := 0;
      ghost var before, start := Written(), current;
      PointsSize(ps, []);
      assert ps[0..] == ps;
      while index < |ps|
        invariant 0 <= index <= |ps| && Valid()
        invariant current + |PutPoints(ps[index..], [])| == start + |PutPoints(ps, [])|
        invariant forall t: seq<byte> {:trigger PutPoints(ps, t)} ::
          before + PutPoints(ps, t) == Written() + PutPoints(ps[index..], t)
      {
        assert ps[index..][1..] == ps[index + 1..];
        PointSize(ps[index], PutPoints(ps[index + 1..], []));
        ok := WritePoint(ps[index]);
        if !ok {
          return;
        }
        index := index + 1;
      }
      ok := true;
    }

    /** Every field after the schema version. */
    method WriteFields(c: Configuration) returns (ok: bool)
      requires Valid()
      modifies this`current, buffer
      ensures Valid()
      ensures ok <==> old(current) + |PutFields(c, [])| <= buffer.Length
      ensures ok ==> current == old(current) + |PutFields(c, [])|
      ensures ok ==> forall t: seq<byte> {:trigger PutFields(c, t)} :: old(Written()) + PutFields(c, t) == Written() + t
    {
      hide PutU8, PutU16, PutNetwork, PutRtu, PutEndpoint, PutMqtt, PutPoints;
      FieldsSizes(c);
      ok := WriteNetwork(c.network);
      if ok {
        ok := WriteRtu(c.rtu);
      }
      if ok {
        ok := WriteU16(c.listenPort);
      }
      if ok {
        ok := WriteEndpoint(c.server0);
      }
      if ok {
        ok := WriteEndpoint(c.server1);
      }
      if ok {
        ok := WriteMqtt(c.mqtt);
      }
      if ok {
        ok := WriteU8(|c.points|);
      }
      if ok {
        ok := WritePoints(c.points);
      }
    }
  }

  // ---- lengths do not depend on what follows

  lemma MessageSize(m: Message, t: seq<byte>)
    ensures |PutMessage(m, t)| == |PutMessage(m, [])| + |t|
  {
  }

  lemma MqttSizes(m: Mqtt)
    ensures m.mode == ENABLED ==>
      |PutMqtt(m, [])| == 1 + |PutBroker(m, [])| + |PutLogin(m, [])| + |PutMessage(m.online, [])| + |PutMessage(m.will, [])|
  {
    hide PutMessage;
    MessageSize(m.online, PutMessage(m.will, []));
  }

  lemma MqttSize(m: Mqtt, t: seq<byte>)
    ensures |PutMqtt(m, t)| == |PutMqtt(m, [])| + |t|
  {
    hide PutMessage;
    MessageSize(m.online, PutMessage(m.will, []));
    MessageSize(m.online, PutMessage(m.will, t));
    MessageSize(m.will, t);
  }

  lemma PointSize(p: Point, t: seq<byte>)
    ensures |PutPoint(p, t)| == |PutPoint(p, [])| + |t|
  {
  }

  lemma {:induction false} PointsSize(ps: seq<Point>, t: seq<byte>)
    ensures |PutPoints(ps, t)| == |PutPoints(ps, [])| + |t|
  {
    hide PutPoint;
    if ps != [] {
      PointsSize(ps[1..], t);
      PointSize(ps[0], PutPoints(ps[1..], t));
      PointSize(ps[0], PutPoints(ps[1..], []));
    }
  }

  lemma EndpointSize(e: Endpoint, t: seq<byte>)
    ensures |PutEndpoint(e, t)| == |PutEndpoint(e, [])| + |t|
  {
  }

  lemma NetworkSize(n: Network, t: seq<byte>)
    ensures |PutNetwork(n, t)| == |PutNetwork(n, [])| + |t|
  {
  }

  lemma RtuSize(r: Rtu, t: seq<byte>)
    ensures |PutRtu(r, t)| == |PutRtu(r, [])| + |t|
  {
  }

  lemma FieldsSizes(c: Configuration)
    ensures |PutFields(c, [])|
            == |PutNetwork(c.network, [])| + |PutRtu(c.rtu, [])| + 2 + |PutEndpoint(c.server0, [])| + |PutEndpoint(c.server1, [])|
               + |PutMqtt(c.mqtt, [])| + 1 + |PutPoints(c.points, [])|
  {
    hide PutNetwork, PutRtu, PutEndpoint, PutMqtt, PutPoints;
    var t6 := PutU8(|c.points|, PutPoints(c.points, []));
    var t5 := PutMqtt(c.mqtt, t6);
    var t4 := PutEndpoint(c.server1, t5);
    var t3 := PutEndpoint(c.server0, t4);
    var t2 := PutU16(c.listenPort, t3);
    var t1 := PutRtu(c.rtu, t2);
    NetworkSize(c.network, t1);
    RtuSize(c.rtu, t2);
    EndpointSize(c.server0, t4);
    EndpointSize(c.server1, t5);
    MqttSize(c.mqtt, t6);
  }

  /**
   * `configuration_binary_encode` into `payload`: too small a buffer is reported exactly when the encoding does not
   * fit, and an encoding that fits and is not overlong is what the buffer begins with.
   */
  method EncodeConfiguration(c: Configuration, payload: array<byte>) returns (result: Codec.Result, length: nat)
    modifies payload
    ensures result == Codec.BufferTooSmall <==> payload.Length < |Encode(c)|
    ensures result == Codec.ModelInvalid <==> MAX_PAYLOAD_LENGTH < |Encode(c)| <= payload.Length
    ensures result in {Codec.Ok, Codec.BufferTooSmall, Codec.ModelInvalid}
    ensures result == Codec.Ok ==> length == |Encode(c)| && payload[..length] == Encode(c)
    ensures result != Codec.Ok ==> length == 0
  {
    hide PutU8, PutFields;
    length := 0;
    var writer := new Writer(payload);
    var ok := writer.WriteU8(SCHEMA_VERSION);
    if !ok {
      return Codec.BufferTooSmall, 0;
    }
    ok := writer.WriteFields(c);
    if !ok {
      return Codec.BufferTooSmall, 0;
    }
    assert writer.Written() == Encode(c) by {
      assert writer.Written() + [] == writer.Written();
      assert [] + Encode(c) == Encode(c);
    }
    length := writer.current;
    if length == 0 || length > MAX_PAYLOAD_LENGTH {
      return Codec.ModelInvalid, 0;
    }
    result := Codec.Ok;
  }

  /** For a valid configuration the overlong case cannot arise. */
  lemma ValidIsNeverOverlong(certify: Certifier, c: Configuration)
    requires IsValid(certify, c)
    ensures 0 < |Encode(c)| <= MAX_PAYLOAD_LENGTH
  {
    Codec.ValidFits(certify, c);
    EncodedLength(c);
  }
}
