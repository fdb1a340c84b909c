/** Equality of configurations (`configuration_equals`) and the canonical form it compares. */
module ConfigEquals {
  import opened Bytes
  import opened ConfigModel
  import opened ConfigRules

  // ---- the comparison, as written

  predicate NetworksEqual(l: Network, r: Network) {
    l.mode == r.mode
    && (l.mode == STATIC ==>
          l.ipAddress == r.ipAddress && l.subnetMask == r.subnetMask && l.gateway == r.gateway
          && l.dnsPrimary == r.dnsPrimary && l.dnsSecondary == r.dnsSecondary)
  }

  predicate MessagesEqual(l: Message, r: Message) {
    l.mode == r.mode
    && (l.mode != DISABLED ==> l.topic == r.topic && l.payload == r.payload && l.qos == r.qos && l.retain == r.retain)
  }

  predicate MqttsEqual(l: Mqtt, r: Mqtt) {
    l.mode == r.mode
    && (l.mode == ENABLED ==>
          Lower(l.brokerAddress) == Lower(r.brokerAddress) && l.brokerPort == r.brokerPort
          && l.clientId.mode == r.clientId.mode
          && (l.clientId.mode == EXPLICIT ==> l.clientId.explicitValue == r.clientId.explicitValue)
          && l.username == r.username && l.password == r.password && l.caCertificate == r.caCertificate
          && l.keepAliveSeconds == r.keepAliveSeconds && MessagesEqual(l.online, r.online) && MessagesEqual(l.will, r.will))
  }

  predicate PointsEqual(l: Point, r: Point) {
    !(HasDataType(l.source) && l.dataType != r.dataType)
    && l.slaveAddress == r.slaveAddress && l.source == r.source && l.address == r.address
    && l.pollIntervalMs == r.pollIntervalMs && l.firstByteTimeoutMs == r.firstByteTimeoutMs
    && l.topic == r.topic && l.qos == r.qos
  }

  predicate Finds(ps: seq<Point>, p: Point) {
    exists j :: 0 <= j < |ps| && PointsEqual(p, ps[j])
  }

  /** Searching in one direction only: every left point has an equal right point. */
  predicate CollectionsEqual(ls: seq<Point>, rs: seq<Point>) {
    |ls| == |rs| && forall i | 0 <= i < |ls| :: Finds(rs, ls[i])
  }

  predicate Equals(l: Configuration, r: Configuration) {
    NetworksEqual(l.network, r.network) && l.rtu == r.rtu && l.listenPort == r.listenPort
    && EndpointsEqual(l.server0, r.server0) && EndpointsEqual(l.server1, r.server1)
    && MqttsEqual(l.mqtt, r.mqtt) && CollectionsEqual(l.points, r.points)
  }

  method CompareHostnames(l: Text, r: Text) returns (equal: bool)
    ensures equal <==> Lower(l) == Lower(r)
  {
    if |l| != |r| {
      assert |Lower(l)| != |Lower(r)|;
      return false;
    }
    var index := 0;
    while index < |l|
      invariant 0 <= index <= |l|
      invariant forall k | 0 <= k < index :: ToLower(l[k]) == ToLower(r[k])
    {
      if ToLower(l[index]) != ToLower(r[index]) {
        assert Lower(l)[index] != Lower(r)[index];
        return false;
      }
      index := index + 1;
    }
    equal := true;
  }

  method CompareEndpoints(l: Endpoint, r: Endpoint) returns (equal: bool)
    ensures equal <==> EndpointsEqual(l, r)
  {
    hide Lower;
    if l.kind != r.kind {
      return false;
    }
    if l.kind == HOSTNAME {
      equal := CompareHostnames(l.hostname, r.hostname);
      return;
    }
    equal := l.ipv4 == r.ipv4;
  }

  method CompareMqtt(l: Mqtt, r: Mqtt) returns (equal: bool)
    ensures equal <==> MqttsEqual(l, r)
  {
    hide Lower, MessagesEqual;
    if l.mode != r.mode {
      return false;
    }
    if l.mode != ENABLED {
      return true;
    }
    equal := CompareHostnames(l.brokerAddress, r.brokerAddress);
    equal := equal && l.brokerPort == r.brokerPort && l.clientId.mode == r.clientId.mode
             && (l.clientId.mode == EXPLICIT ==> l.clientId.explicitValue == r.clientId.explicitValue)
             && l.username == r.username && l.password == r.password && l.caCertificate == r.caCertificate
             && l.keepAliveSeconds == r.keepAliveSeconds && MessagesEqual(l.online, r.online) && MessagesEqual(l.will, r.will);
  }

  method ComparePoints(ls: seq<Point>, rs: seq<Point>) returns (equal: bool)
    ensures equal <==> CollectionsEqual(ls, rs)
  {
    hide PointsEqual;
    if |ls| != |rs| {
      return false;
    }
    var left := 0;
    while left < |ls|
      invariant 0 <= left <= |ls|
      invariant forall i | 0 <= i < left :: Finds(rs, ls[i])
    {
      var found, right := false, 0;
      while right < |rs|
        invariant 0 <= right <= |rs|
        invariant !found ==> forall j | 0 <= j < right :: !PointsEqual(ls[left], rs[j])
        invariant found ==> Finds(rs, ls[left])
      {
        if PointsEqual(ls[left], rs[right]) {
          found := true;
          break;
        }
        right := right + 1;
      }
      if !found {
        assert !Finds(rs, ls[left]);
        return false;
      }
      left := left + 1;
    }
    equal := true;
  }

  /** `configuration_equals` */
  method ConfigurationEquals(l: Configuration, r: Configuration) returns (equal: bool)
    ensures equal <==> Equals(l, r)
  {
    hide EndpointsEqual, MqttsEqual, CollectionsEqual;
    if !NetworksEqual(l.network, r.network) || l.rtu != r.rtu || l.listenPort != r.listenPort {
      return false;
    }
    equal := CompareEndpoints(l.server0, r.server0);
    if equal {
      equal := CompareEndpoints(l.server1, r.server1);
    }
    if equal {
      equal := CompareMqtt(l.mqtt, r.mqtt);
    }
    if equal {
      equal := ComparePoints(l.points, r.points);
    }
  }

  /** Two characters are the same up to case exactly when they are equal or are the two cases of one letter, 32 apart. */
  lemma LowerMeansSameLetter(a: byte, b: byte)
    ensures ToLower(a) == ToLower(b)
            <==> a == b || (IsLetter(a) && IsLetter(b) && (a as int - b as int == 32 || b as int - a as int == 32))
  {
  }

  // ---- the canonical form

  datatype Canonical = Canonical(
    network: Network,
    rtu: Rtu,
    listenPort: u16,
    server0: Endpoint,
    server1: Endpoint,
    mqtt: Mqtt,
    points: set<Point>)

  function CanonicalEndpoint(e: Endpoint): Endpoint {
    var clean := CleanEndpoint(e);
    clean.(hostname := Lower(clean.hostname))
  }

  function CanonicalMqtt(m: Mqtt): Mqtt {
    var clean := CleanMqtt(m);
    clean.(brokerAddress := Lower(clean.brokerAddress))
  }

  function PointSet(ps: seq<Point>): set<Point> {
    set i | 0 <= i < |ps| :: CleanPoint(ps[i])
  }

  /** Meaningless fields cleared, host names in lower case, points without an order. */
  function CanonicalForm(c: Configuration): Canonical {
    Canonical(CleanNetwork(c.network), c.rtu, c.listenPort, CanonicalEndpoint(c.server0), CanonicalEndpoint(c.server1),
              CanonicalMqtt(c.mqtt), PointSet(c.points))
  }

  lemma PointsEqualMeansClean(l: Point, r: Point)
    ensures PointsEqual(l, r) <==> CleanPoint(l) == CleanPoint(r)
  {
  }

  lemma EndpointsEqualMeansCanonical(l: Endpoint, r: Endpoint)
    ensures EndpointsEqual(l, r) <==> CanonicalEndpoint(l) == CanonicalEndpoint(r)
  {
    assert Lower([]) == [];
    hide Lower;
  }

  lemma MqttsEqualMeansCanonical(l: Mqtt, r: Mqtt)
    requires l.mode <= ENABLED && l.clientId.mode <= EXPLICIT && r.clientId.mode <= EXPLICIT
    ensures MqttsEqual(l, r) <==> CanonicalMqtt(l) == CanonicalMqtt(r)
  {
    assert Lower([]) == [];
    hide Lower;
  }

  /** Points with different topics are different points. */
  lemma {:induction false} PointSetSize(ps: seq<Point>)
    requires TopicsDiffer(ps)
    ensures |PointSet(ps)| == |ps|
  {
    hide CleanPoint;
    if ps == [] {
      assert PointSet(ps) == {};
    } else {
      var n := |ps| - 1;
      PointSetSize(ps[..n]);
      OneMorePoint(ps);
      LastPointIsNew(ps);
    }
  }

  lemma OneMorePoint(ps: seq<Point>)
    requires ps != []
    ensures PointSet(ps) == PointSet(ps[..|ps| - 1]) + {CleanPoint(ps[|ps| - 1])}
  {
    hide CleanPoint;
    var n := |ps| - 1;
    forall i | 0 <= i < |ps| ensures CleanPoint(ps[i]) in PointSet(ps[..n]) + {CleanPoint(ps[n])} {
      assert i < n ==> ps[i] == ps[..n][i];
    }
  }

  lemma LastPointIsNew(ps: seq<Point>)
    requires ps != [] && TopicsDiffer(ps)
    ensures CleanPoint(ps[|ps| - 1]) !in PointSet(ps[..|ps| - 1])
  {
    hide CleanPoint;
    var n := |ps| - 1;
    forall i | 0 <= i < n ensures CleanPoint(ps[..n][i]) != CleanPoint(ps[n]) {
      TopicIsKept(ps[i]);
      TopicIsKept(ps[n]);
    }
  }

  lemma TopicIsKept(p: Point)
    ensures CleanPoint(p).topic == p.topic
  {
  }

  lemma SubsetOfSameSize(a: set<Point>, b: set<Point>)
    requires a <= b && |a| == |b|
    ensures a == b
  {
    assert |b - a| == |b| - |a|;
  }

  lemma FindsMeansIn(ps: seq<Point>, p: Point)
    ensures Finds(ps, p) <==> CleanPoint(p) in PointSet(ps)
  {
    hide PointsEqual, CleanPoint;
    forall j | 0 <= j < |ps| ensures PointsEqual(p, ps[j]) <==> CleanPoint(p) == CleanPoint(ps[j]) {
      PointsEqualMeansClean(p, ps[j]);
    }
  }

  /** Although the search goes one way, by counting it compares the two sets of points. */
  lemma CollectionsEqualMeansSameSet(ls: seq<Point>, rs: seq<Point>)
    requires TopicsDiffer(ls) && TopicsDiffer(rs)
    ensures CollectionsEqual(ls, rs) <==> PointSet(ls) == PointSet(rs)
  {
    hide Finds, CleanPoint;
    PointSetSize(ls);
    PointSetSize(rs);
    forall i | 0 <= i < |ls| ensures Finds(rs, ls[i]) <==> CleanPoint(ls[i]) in PointSet(rs) {
      FindsMeansIn(rs, ls[i]);
    }
    if CollectionsEqual(ls, rs) {
      SubsetOfSameSize(PointSet(ls), PointSet(rs));
    }
  }

  /** What equality needs to know of a valid configuration. */
  lemma ValidHasShape(certify: Certifier, c: Configuration)
    requires IsValid(certify, c)
    ensures c.network.mode <= STATIC && c.mqtt.mode <= ENABLED && TopicsDiffer(c.points)
    ensures c.mqtt.mode == ENABLED ==> c.mqtt.clientId.mode <= EXPLICIT
  {
    hide TotalLoad, IsHostname, EndpointOk, EndpointsEqual, MessageOk, IsVisibleAscii, CertificateVerdict, PointOk, IsUnicast;
  }

  lemma NetworksEqualMeansClean(l: Network, r: Network)
    requires l.mode <= STATIC && r.mode <= STATIC
    ensures NetworksEqual(l, r) <==> CleanNetwork(l) == CleanNetwork(r)
  {
  }

  lemma MqttEnough(l: Mqtt, r: Mqtt)
    requires l.mode <= ENABLED && r.mode <= ENABLED
    requires l.mode == ENABLED ==> l.clientId.mode <= EXPLICIT
    requires r.mode == ENABLED ==> r.clientId.mode <= EXPLICIT
    ensures MqttsEqual(l, r) <==> CanonicalMqtt(l) == CanonicalMqtt(r)
  {
    if l.mode == ENABLED && r.mode == ENABLED {
      MqttsEqualMeansCanonical(l, r);
    }
  }

  /** On valid configurations equality is equality of canonical forms. */
  lemma EqualsMeansCanonical(certify: Certifier, l: Configuration, r: Configuration)
    requires IsValid(certify, l) && IsValid(certify, r)
    ensures Equals(l, r) <==> CanonicalForm(l) == CanonicalForm(r)
  {
    ValidHasShape(certify, l);
    ValidHasShape(certify, r);
    NetworksEqualMeansClean(l.network, r.network);
    EndpointsEqualMeansCanonical(l.server0, r.server0);
    EndpointsEqualMeansCanonical(l.server1, r.server1);
    MqttEnough(l.mqtt, r.mqtt);
    CollectionsEqualMeansSameSet(l.points, r.points);
    hide NetworksEqual, EndpointsEqual, MqttsEqual, CollectionsEqual, CleanNetwork, CanonicalEndpoint, CanonicalMqtt, PointSet;
  }

  /** Reflexive, symmetric and transitive. */
  lemma EqualsIsEquivalence(certify: Certifier, a: Configuration, b: Configuration, c: Configuration)
    requires IsValid(certify, a) && IsValid(certify, b) && IsValid(certify, c)
    ensures Equals(a, a)
    ensures Equals(a, b) <==> Equals(b, a)
    ensures Equals(a, b) && Equals(b, c) ==> Equals(a, c)
  {
    hide Equals, CanonicalForm, IsValid;
    EqualsMeansCanonical(certify, a, a);
    EqualsMeansCanonical(certify, a, b);
    EqualsMeansCanonical(certify, b, a);
    EqualsMeansCanonical(certify, b, c);
    EqualsMeansCanonical(certify, a, c);
  }

  /** The order of the points does not matter: rearranged, a valid configuration is valid and equal. */
  lemma OrderIsIgnored(certify: Certifier, c: Configuration, ps: Points)
    requires IsValid(certify, c) && multiset(ps) == multiset(c.points)
    ensures IsValid(certify, c.(points := ps)) && Equals(c, c.(points := ps))
  {
    hide Equals, IsValid, CleanPoint, CleanNetwork, CanonicalEndpoint, CanonicalMqtt;
    OrderKeepsValid(certify, c, ps);
    SameMembers(ps, c.points);
    SameMembers(c.points, ps);
    assert PointSet(ps) == PointSet(c.points);
    EqualsMeansCanonical(certify, c, c.(points := ps));
  }

  lemma OrderKeepsValid(certify: Certifier, c: Configuration, ps: Points)
    requires IsValid(certify, c) && multiset(ps) == multiset(c.points)
    ensures IsValid(certify, c.(points := ps))
  {
    hide NetworkOk, SntpOk, MqttOk, CertificateVerdict, TotalLoad, PointOk, IsTaken;
    SameLength(c.points, ps);
    if c.mqtt.mode != DISABLED {
      OrderKeepsPointsOk(c, ps);
      PointsArePollable(c);
      LoadIgnoresOrder(c.rtu, c.points, ps);
    }
  }

  lemma SameLength(xs: seq<Point>, ys: seq<Point>)
    requires multiset(xs) == multiset(ys)
    ensures |xs| == |ys|
  {
    assert |multiset(xs)| == |xs| && |multiset(ys)| == |ys|;
  }

  lemma OrderKeepsPointsOk(c: Configuration, ps: Points)
    requires PointsOk(c) && multiset(ps) == multiset(c.points)
    ensures PointsOk(c.(points := ps))
  {
    hide PointOk, IsTaken;
    forall i | 0 <= i < |ps|
      ensures PointOk(ps[i]) && !IsTaken(c.mqtt.online, ps[i].topic) && !IsTaken(c.mqtt.will, ps[i].topic)
    {
      assert ps[i] in multiset(c.points);
      assert ps[i] in c.points;
    }
    forall i, j | 0 <= i < j < |ps| ensures ps[i].topic != ps[j].topic {
      DistinctStays(c.points, ps, i, j);
    }
  }

  lemma DistinctStays(xs: seq<Point>, ys: seq<Point>, i: nat, j: nat)
    requires TopicsDiffer(xs) && multiset(xs) == multiset(ys) && i < j < |ys|
    ensures ys[i].topic != ys[j].topic
  {
    assert ys[i] in multiset(xs) && ys[j] in multiset(xs);
    var k :| 0 <= k < |xs| && xs[k] == ys[i];
    var l :| 0 <= l < |xs| && xs[l] == ys[j];
    TwiceThere(ys, i, j);
    OnceThere(xs, k);
  }

  lemma TwiceThere(ys: seq<Point>, i: nat, j: nat)
    requires i < j < |ys|
    ensures ys[i] == ys[j] ==> multiset(ys)[ys[i]] >= 2
  {
    assert ys == ys[..j] + [ys[j]] + ys[j + 1..];
    assert ys[i] in multiset(ys[..j]) by { assert ys[..j][i] == ys[i]; }
  }

  lemma OnceThere(xs: seq<Point>, k: nat)
    requires TopicsDiffer(xs) && k < |xs|
    ensures multiset(xs)[xs[k]] == 1
  {
    assert xs == xs[..k] + [xs[k]] + xs[k + 1..];
    assert xs[k] !in xs[..k] && xs[k] !in xs[k + 1..];
  }

  /** The load of a rearrangement is the same. */
  lemma {:induction false} LoadIgnoresOrder(r: Rtu, xs: seq<Point>, ys: seq<Point>)
    requires Pollable(r, xs) && multiset(xs) == multiset(ys)
    ensures Pollable(r, ys) && TotalLoad(r, ys) == TotalLoad(r, xs)
    decreases |xs|
  {
    hide Load;
    SameLength(xs, ys);
    OrderKeepsPollable(r, xs, ys);
    if xs != [] {
      var n := |xs| - 1;
      var k := TakeOut(xs, ys);
      var rest := ys[..k] + ys[k + 1..];
      LoadIgnoresOrder(r, xs[..n], rest);
      LoadWithout(r, ys, k);
    }
  }

  lemma OrderKeepsPollable(r: Rtu, xs: seq<Point>, ys: seq<Point>)
    requires Pollable(r, xs) && multiset(xs) == multiset(ys)
    ensures Pollable(r, ys)
  {
    forall i | 0 <= i < |ys| ensures ys[i].pollIntervalMs > 0 {
      assert ys[i] in multiset(xs);
      assert ys[i] in xs;
    }
  }

  /** The last element of a sequence can be taken out of a rearrangement of it. */
  lemma TakeOut(xs: seq<Point>, ys: seq<Point>) returns (k: nat)
    requires xs != [] && multiset(xs) == multiset(ys)
    ensures k < |ys| && ys[k] == xs[|xs| - 1] && multiset(xs[..|xs| - 1]) == multiset(ys[..k] + ys[k + 1..])
  {
    var n := |xs| - 1;
    assert xs[n] in multiset(ys);
    k :| 0 <= k < |ys| && ys[k] == xs[n];
    Without(xs, n);
    Without(ys, k);
    assert xs[..n] + xs[n + 1..] == xs[..n];
  }

  lemma Without(xs: seq<Point>, k: nat)
    requires k < |xs|
    ensures multiset(xs[..k] + xs[k + 1..]) == multiset(xs) - multiset{xs[k]}
  {
    assert xs == xs[..k] + [xs[k]] + xs[k + 1..];
  }

  lemma {:induction false} LoadWithout(r: Rtu, ys: seq<Point>, k: nat)
    requires Pollable(r, ys) && k < |ys|
    ensures Pollable(r, ys[..k] + ys[k + 1..]) && TotalLoad(r, ys) == TotalLoad(r, ys[..k] + ys[k + 1..]) + Load(r, ys[k])
    decreases |ys|
  {
    hide Load, TotalLoad;
    var n := |ys| - 1;
    var rest := ys[..k] + ys[k + 1..];
    LastLoad(r, ys);
    if k < n {
      var front := ys[..n];
      LoadWithout(r, front, k);
      assert front[..k] + front[k + 1..] == rest[..n - 1] && rest[n - 1] == ys[n];
      LastLoad(r, rest);
    } else {
      assert rest == ys[..n];
    }
  }

  lemma LastLoad(r: Rtu, ps: seq<Point>)
    requires Pollable(r, ps) && ps != []
    ensures TotalLoad(r, ps) == TotalLoad(r, ps[..|ps| - 1]) + Load(r, ps[|ps| - 1])
  {
    hide Load;
  }

  lemma SameMembers(xs: seq<Point>, ys: seq<Point>)
    requires multiset(xs) == multiset(ys)
    ensures PointSet(xs) <= PointSet(ys)
  {
    forall i | 0 <= i < |xs| ensures CleanPoint(xs[i]) in PointSet(ys) {
      assert xs[i] in multiset(xs);
      assert xs[i] in ys;
    }
  }
}
