/** The configuration record (`configuration.h`). Fields that the modes switch off are present but carry no meaning. */
module ConfigModel {
  import opened Bytes

  /** A counted byte string; counts are 16 bits wide. */
  type Text = s: seq<byte> | |s| <= 0xFFFF

  const HOSTNAME_MAX_LENGTH := 253
  const CLIENT_ID_MAX_LENGTH := 256
  const USERNAME_MAX_LENGTH := 256
  const PASSWORD_MAX_LENGTH := 256
  const CA_CERTIFICATE_MAX_LENGTH := 4096
  const TOPIC_MAX_LENGTH := 128
  const MESSAGE_PAYLOAD_MAX_LENGTH := 128
  const POINT_MAX_COUNT := 16
  const MAX_PAYLOAD_LENGTH := 8475
  const SCHEMA_VERSION: byte := 2

  const DHCP: byte := 0
  const STATIC: byte := 1
  const HOSTNAME: byte := 0
  const IPV4: byte := 1
  const DISABLED: byte := 0
  const ENABLED: byte := 1
  const DERIVED: byte := 0
  const EXPLICIT: byte := 1
  const CUSTOM: byte := 1
  const COIL: byte := 0
  const DISCRETE_INPUT: byte := 1
  const HOLDING_REGISTER: byte := 2
  const INPUT_REGISTER: byte := 3

  datatype Ipv4 = Ipv4(a: byte, b: byte, c: byte, d: byte)

  datatype Network = Network(mode: byte, ipAddress: Ipv4, subnetMask: Ipv4, gateway: Ipv4, dnsPrimary: Ipv4, dnsSecondary: Ipv4)

  datatype Rtu = Rtu(baudRate: u32, frameFormat: byte, firstByteTimeoutMs: u16)

  datatype Endpoint = Endpoint(kind: byte, hostname: Text, ipv4: Ipv4)

  datatype ClientId = ClientId(mode: byte, explicitValue: Text)

  datatype Message = Message(mode: byte, topic: Text, payload: Text, qos: byte, retain: byte)

  datatype Mqtt = Mqtt(
    mode: byte,
    brokerAddress: Text,
    brokerPort: u16,
    clientId: ClientId,
    username: Text,
    password: Text,
    caCertificate: Text,
    keepAliveSeconds: u16,
    online: Message,
    will: Message)

  datatype Point = Point(
    slaveAddress: byte,
    source: byte,
    address: u16,
    dataType: byte,
    pollIntervalMs: u32,
    firstByteTimeoutMs: u16,
    topic: Text,
    qos: byte)

  type Points = ps: seq<Point> | |ps| <= 0xFF

  datatype Configuration = Configuration(
    network: Network,
    rtu: Rtu,
    listenPort: u16,
    server0: Endpoint,
    server1: Endpoint,
    mqtt: Mqtt,
    points: Points)

  predicate HasDataType(source: byte) {
    source == HOLDING_REGISTER || source == INPUT_REGISTER
  }

  // ---- cleared fields, as `memset` leaves them

  const NO_ADDRESS := Ipv4(0, 0, 0, 0)
  const NO_NETWORK := Network(DHCP, NO_ADDRESS, NO_ADDRESS, NO_ADDRESS, NO_ADDRESS, NO_ADDRESS)
  const NO_MESSAGE := Message(DISABLED, [], [], 0, 0)
  const NO_MQTT := Mqtt(DISABLED, [], 0, ClientId(DERIVED, []), [], [], [], 0, NO_MESSAGE, NO_MESSAGE)

  /** The same configuration with every meaningless field cleared. */
  function CleanEndpoint(e: Endpoint): Endpoint {
    if e.kind == HOSTNAME then e.(ipv4 := NO_ADDRESS) else e.(hostname := [])
  }

  function CleanNetwork(n: Network): Network {
    if n.mode == STATIC then n else NO_NETWORK.(mode := n.mode)
  }

  function CleanClientId(c: ClientId): ClientId {
    if c.mode == DERIVED then c.(explicitValue := []) else c
  }

  function CleanMessage(m: Message): Message {
    if m.mode == DISABLED then NO_MESSAGE else m
  }

  function CleanMqtt(m: Mqtt): Mqtt {
    if m.mode == ENABLED then
      m.(clientId := CleanClientId(m.clientId), online := CleanMessage(m.online), will := CleanMessage(m.will))
    else NO_MQTT.(mode := m.mode)
  }

  function CleanPoint(p: Point): Point {
    if HasDataType(p.source) then p else p.(dataType := 0)
  }

  function CleanPoints(ps: seq<Point>): (r: seq<Point>)
    ensures |r| == |ps|
  {
    seq(|ps|, i requires 0 <= i < |ps| => CleanPoint(ps[i]))
  }

  function Clean(c: Configuration): Configuration {
    Configuration(CleanNetwork(c.network), c.rtu, c.listenPort, CleanEndpoint(c.server0), CleanEndpoint(c.server1),
                  CleanMqtt(c.mqtt), CleanPoints(c.points))
  }
}
