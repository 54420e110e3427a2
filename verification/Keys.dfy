/** Map keys and the TCP state numbers, as the kernel program defines them. */
module Keys {
  const TCP_ESTABLISHED := 1
  const TCP_SYN_SENT := 2
  const TCP_SYN_RECV := 3
  const TCP_TIME_WAIT := 6
  const TCP_CLOSE := 7
  const TCP_NEW_SYN_RECV := 12

  const TCP_STATES := 16
  const DNS_RCODES := 16

  const IPPROTO_UDP := 17

  datatype Direction = Unknown | Ingress | Egress

  datatype FlowKey = FlowKey(
    ifindex: nat,
    srcIp: seq<int>,
    dstIp: seq<int>,
    srcPort: nat,
    dstPort: nat,
    proto: nat,
    direction: Direction
  )

  datatype DnsKey = DnsKey(
    ifindex: nat,
    clientIp: seq<int>,
    serverIp: seq<int>,
    clientPort: nat,
    serverPort: nat,
    txid: nat
  )

  predicate IsSynState(state: int) {
    state == TCP_SYN_SENT || state == TCP_SYN_RECV || state == TCP_NEW_SYN_RECV
  }
}
