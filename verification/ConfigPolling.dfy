/** What validation promises the collector: every point of an accepted configuration can be polled as it asks. */
module ConfigPolling {
  import opened Bytes
  import opened ConfigModel
  import opened ConfigRules
  import Gateway
  import Collector

  /** Its read request can be encoded, and its interval is counted exactly and within half the tick range. */
  predicate CanBePolled(p: Point) {
    Gateway.PointRequest(p.slaveAddress, p.source, p.address).Some?
    && 1 <= Collector.IntervalToTicks(p.pollIntervalMs) == p.pollIntervalMs < Collector.HALF_RANGE
  }

  lemma AcceptedPointsCanBePolled(certify: Certifier, c: Configuration)
    requires IsValid(certify, c)
    ensures forall i | 0 <= i < |c.points| :: CanBePolled(c.points[i])
  {
    hide TotalLoad, NetworkOk, SntpOk, MqttOk, CertificateVerdict, IsTopic, IsTaken, TopicsDiffer, Gateway.PointRequest,
      Collector.IntervalToTicks;
    forall i | 0 <= i < |c.points| ensures CanBePolled(c.points[i]) {
      assert PointOk(c.points[i]);
    }
  }

  /** Another slave address leaves a valid point valid exactly when the request to it can be encoded. */
  lemma SlaveIsValidWhenEncodable(p: Point, slave: byte)
    requires PointOk(p)
    ensures PointOk(p.(slaveAddress := slave)) <==> Gateway.PointRequest(slave, p.source, p.address).Some?
  {
    hide IsTopic, Gateway.PointRequest;
  }
}
