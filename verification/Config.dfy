/** Thresholds of the collector: the `nd_config` map and its compiled-in defaults. */
module Config {
  import opened Base

  datatype Config = Config(
    slowTcpRttUs: u64,
    shortTcpConnUs: u64,
    slowDnsUs: u64,
    longUdpFlowUs: u64,
    highRunqlatUs: u64,
    retransBurstWindowNs: u64,
    eventCooldownNs: u64,
    retransBurstCount: u64,
    cwndDropPercent: u64
  )

  const DEFAULTS := Config(100000, 100000, 50000, 30000000, 5000, 1000000000, 5000000000, 3, 50)

  function Or(setting: u64, default: u64): u64 {
    if setting != 0 then setting else default
  }

  predicate AllSet(c: Config) {
    && c.slowTcpRttUs > 0 && c.shortTcpConnUs > 0 && c.slowDnsUs > 0
    && c.longUdpFlowUs > 0 && c.highRunqlatUs > 0 && c.retransBurstWindowNs > 0
    && c.eventCooldownNs > 0 && c.retransBurstCount > 0 && c.cwndDropPercent > 0
  }

  /**
   The thresholds a handler works with: each setting that was written nonzero is kept, each zero one
   takes its default, so that none of them is zero whatever userspace wrote.
   */
  function GetConfig(entry: Option<Config>): (c: Config)
    ensures AllSet(c)
    ensures entry.Some? ==>
              var w := entry.value;
              && c.slowTcpRttUs == (if w.slowTcpRttUs != 0 then w.slowTcpRttUs else 100000)
              && c.shortTcpConnUs == (if w.shortTcpConnUs != 0 then w.shortTcpConnUs else 100000)
              && c.slowDnsUs == (if w.slowDnsUs != 0 then w.slowDnsUs else 50000)
              && c.longUdpFlowUs == (if w.longUdpFlowUs != 0 then w.longUdpFlowUs else 30000000)
              && c.highRunqlatUs == (if w.highRunqlatUs != 0 then w.highRunqlatUs else 5000)
              && c.retransBurstWindowNs == (if w.retransBurstWindowNs != 0 then w.retransBurstWindowNs else 1000000000)
              && c.eventCooldownNs == (if w.eventCooldownNs != 0 then w.eventCooldownNs else 5000000000)
              && c.retransBurstCount == (if w.retransBurstCount != 0 then w.retransBurstCount else 3)
              && c.cwndDropPercent == (if w.cwndDropPercent != 0 then w.cwndDropPercent else 50)
    ensures entry.None? ==>
              && c.slowTcpRttUs == 100000
              && c.shortTcpConnUs == 100000
              && c.slowDnsUs == 50000
              && c.longUdpFlowUs == 30000000
              && c.highRunqlatUs == 5000
              && c.retransBurstWindowNs == 1000000000
              && c.eventCooldownNs == 5000000000
              && c.retransBurstCount == 3
              && c.cwndDropPercent == 50
    ensures entry.Some? && AllSet(entry.value) ==> c == entry.value
  {
    match entry
    case None => DEFAULTS
    case Some(w) =>
      Config(
        Or(w.slowTcpRttUs, DEFAULTS.slowTcpRttUs),
        Or(w.shortTcpConnUs, DEFAULTS.shortTcpConnUs),
        Or(w.slowDnsUs, DEFAULTS.slowDnsUs),
        Or(w.longUdpFlowUs, DEFAULTS.longUdpFlowUs),
        Or(w.highRunqlatUs, DEFAULTS.highRunqlatUs),
        Or(w.retransBurstWindowNs, DEFAULTS.retransBurstWindowNs),
        Or(w.eventCooldownNs, DEFAULTS.eventCooldownNs),
        Or(w.retransBurstCount, DEFAULTS.retransBurstCount),
        Or(w.cwndDropPercent, DEFAULTS.cwndDropPercent)
      )
  }
}
