/** Decoding and encoding configurations (`configuration_binary_codec.c`): what they promise, and the cursors that do it. */
module ConfigCodec {
  import opened Bytes
  import opened ConfigModel
  import opened ConfigFormat
  import opened ConfigRules
  import opened ConfigEquals
  import Utf8

  datatype Result =
    | Ok
    | InvalidArgument
    | SchemaUnsupported
    | PayloadLengthInvalid
    | MalformedPayload
    | ModelInvalid
    | Unavailable
    | BufferTooSmall

  datatype Decoded = Decoded(result: Result, configuration: Option<Configuration>)

  /** `configuration_binary_decode` */
  function Decode(certify: Certifier, payload: seq<byte>): (d: Decoded)
    ensures d.result == Ok <==> d.configuration.Some?
  {
    hide TakeFields, Validate;
    if |payload| == 0 || |payload| > MAX_PAYLOAD_LENGTH then Decoded(PayloadLengthInvalid, None)
    else
      var version := TakeU8(payload);
      if version.Malformed? || version.value != SCHEMA_VERSION then Decoded(SchemaUnsupported, None)
      else
        FromFields(certify, TakeFields(version.rest))
  }

  /** Nothing may follow the fields, and they must be valid. */
  function FromFields(certify: Certifier, fields: Taken<Configuration>): (d: Decoded)
    ensures d.result == Ok <==> d.configuration.Some?
  {
    if fields.Malformed? || fields.rest != [] then Decoded(MalformedPayload, None) else Judged(certify, fields.value)
  }

  function Judged(certify: Certifier, c: Configuration): (d: Decoded)
    ensures d.result == Ok <==> d.configuration.Some?
  {
    match Validate(certify, c)
    case Valid => Decoded(Ok, Some(c))
    case ResourceUnavailable => Decoded(Unavailable, None)
    case _ => Decoded(ModelInvalid, None)
  }

  // ---- what is valid can be encoded

  lemma ValidFits(certify: Certifier, c: Configuration)
    requires IsValid(certify, c)
    ensures FitsFormat(c)
  {
    hide TotalLoad, IsUnicast, EndpointsEqual, TopicsDiffer, IsTaken;
    MqttOkFits(c.mqtt);
    forall i | 0 <= i < |c.points| ensures PointFits(c.points[i]) {
      assert PointOk(c.points[i]);
    }
  }

  lemma MqttOkFits(m: Mqtt)
    ensures MqttOk(m) && (m.mode == ENABLED ==> 0 < |m.caCertificate| <= CA_CERTIFICATE_MAX_LENGTH) ==> MqttFits(m)
  {
  }

  // ---- clearing meaningless fields changes neither validity nor meaning

  lemma CleanPointsKeep(c: Configuration)
    requires c.mqtt.mode == ENABLED
    ensures PointsOk(Clean(c)) <==> PointsOk(c)
  {
    hide IsTopic;
    var d := Clean(c);
    assert forall i | 0 <= i < |c.points| :: d.points[i].topic == c.points[i].topic && (PointOk(d.points[i]) <==> PointOk(c.points[i]));
  }

  lemma {:induction false} CleanLoadIsSame(r: Rtu, ps: seq<Point>)
    requires Pollable(r, ps)
    ensures Pollable(r, CleanPoints(ps)) && TotalLoad(r, CleanPoints(ps)) == TotalLoad(r, ps)
  {
    hide DivideRoundUp, SilenceUs, CharacterCount;
    if ps != [] {
      var n := |ps| - 1;
      CleanLoadIsSame(r, ps[..n]);
      assert CleanPoints(ps)[..n] == CleanPoints(ps[..n]);
      assert Load(r, CleanPoint(ps[n])) == Load(r, ps[n]);
    }
  }

  lemma CleanPartsKeep(c: Configuration)
    ensures NetworkOk(CleanNetwork(c.network)) <==> NetworkOk(c.network)
    ensures SntpOk(CleanEndpoint(c.server0), CleanEndpoint(c.server1)) <==> SntpOk(c.server0, c.server1)
    ensures MqttOk(CleanMqtt(c.mqtt)) <==> MqttOk(c.mqtt)
  {
    hide IsUnicast, IsHostname, Lower, IsTopic, Utf8.IsValid, IsVisibleAscii;
  }

  lemma CleanIsAsValid(certify: Certifier, c: Configuration)
    ensures Validate(certify, Clean(c)) == Validate(certify, c)
  {
    hide NetworkOk, SntpOk, MqttOk, PointsOk, CertificateVerdict, TotalLoad, CleanNetwork, CleanEndpoint, CleanPoints;
    CleanPartsKeep(c);
    ModeKept(c.mqtt);
    if c.mqtt.mode == ENABLED {
      CleanPointsKeep(c);
      if PointsOk(c) && RtuOk(c.rtu) {
        PointsArePollable(c);
        CleanLoadIsSame(c.rtu, c.points);
      }
    }
  }

  lemma ModeKept(m: Mqtt)
    ensures CleanMqtt(m).mode == m.mode && (MqttOk(m) ==> m.mode == ENABLED || m.mode == DISABLED)
  {
  }

  lemma CleanIsEqual(certify: Certifier, c: Configuration)
    requires IsValid(certify, c)
    ensures IsValid(certify, Clean(c)) && Equals(c, Clean(c))
  {
    hide Equals, CanonicalForm, Validate, Clean;
    CleanIsAsValid(certify, c);
    EqualsMeansCanonical(certify, c, Clean(c));
    CleanTwice(c);
  }

  lemma CleanTwice(c: Configuration)
    ensures CanonicalForm(Clean(c)) == CanonicalForm(c)
  {
    hide Lower;
    var d := Clean(c);
    assert CleanPoints(c.points) == d.points;
    assert forall i | 0 <= i < |c.points| :: CleanPoint(d.points[i]) == CleanPoint(c.points[i]);
    assert PointSet(d.points) == PointSet(c.points) by {
      forall p | p in PointSet(c.points) ensures p in PointSet(d.points) {
        var i :| 0 <= i < |c.points| && p == CleanPoint(c.points[i]);
        assert p == CleanPoint(d.points[i]);
      }
    }
  }

  // ---- the theorems

  /** Decoding inverts encoding, up to the fields that carry no meaning: the result is equal to what was encoded. */
  lemma DecodeInvertsEncode(certify: Certifier, c: Configuration)
    requires IsValid(certify, c)
    ensures Decode(certify, Encode(c)) == Decoded(Ok, Some(Clean(c)))
    ensures Equals(c, Clean(c)) && Clean(Clean(c)) == Clean(c)
  {
    hide PutFields, TakeFields, Clean, Equals, Validate, FitsFormat;
    ValidFits(certify, c);
    EncodedLength(c);
    FieldsRoundTrip(c, []);
    CleanIsEqual(certify, c);
    CleanAgain(c);
    assert Encode(c)[0] == SCHEMA_VERSION && Encode(c)[1..] == PutFields(c, []);
  }

  lemma CleanAgain(c: Configuration)
    ensures Clean(Clean(c)) == Clean(c)
  {
    assert CleanPoints(CleanPoints(c.points)) == CleanPoints(c.points);
  }

  /** Encoding inverts decoding exactly: every accepted payload is the one encoding of what it decodes to. */
  lemma EncodeInvertsDecode(certify: Certifier, payload: seq<byte>)
    requires Decode(certify, payload).result == Ok
    ensures var c := Decode(certify, payload).configuration.value; IsValid(certify, c) && Encode(c) == payload
  {
    hide PutFields, TakeFields, Validate, FitsFormat;
    FieldsBack(payload[1..]);
    assert payload == [payload[0]] + payload[1..];
  }

  /** No two payloads decode to the same configuration. */
  lemma AcceptedPayloadsAreDistinct(certify: Certifier, x: seq<byte>, y: seq<byte>)
    requires Decode(certify, x).result == Ok && Decode(certify, x) == Decode(certify, y)
    ensures x == y
  {
    hide Decode, Encode;
    EncodeInvertsDecode(certify, x);
    EncodeInvertsDecode(certify, y);
  }
}
