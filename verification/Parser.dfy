/**
 The packet parser of the TC hook. Every read of a header byte is an index into the buffer, so that
 each header read lies inside the packet for every buffer is part of what the verifier checks here.
 Header layouts follow RFC 791 section 3.1, RFC 768 and RFC 1035 section 4.1.1.
 */
module Parser {
  import opened Base
  import opened Keys

  type byte = x: int | 0 <= x < 256
  type u16 = x: int | 0 <= x < 0x1_0000

  const ETH_HLEN := 14
  const IP_MIN_HLEN := 20
  const UDP_HLEN := 8
  const DNS_HLEN := 12
  const ETH_P_IP := 0x0800
  const DNS_PORT := 53

  function Be16(data: seq<byte>, at: nat): u16
    requires at + 2 <= |data|
  {
    var hi: int, lo: int := data[at], data[at + 1];
    hi * 256 + lo
  }

  datatype DnsHeader = DnsHeader(txid: u16, flags: u16) {
    predicate IsResponse() { flags >= 0x8000 }
    function Rcode(): nat { flags % 16 }
  }

  /** What the hook takes from a packet; the DNS header is looked at on port 53 only. */
  datatype Datagram = Datagram(
    src: seq<byte>, dst: seq<byte>, srcPort: u16, dstPort: u16, dns: Option<DnsHeader>
  )

  function ParseDns(data: seq<byte>, at: nat, srcPort: u16, dstPort: u16): Option<DnsHeader>
    requires at <= |data|
  {
    if srcPort != DNS_PORT && dstPort != DNS_PORT then None
    else if at + DNS_HLEN > |data| then None
    else Some(DnsHeader(Be16(data, at), Be16(data, at + 2)))
  }

  /** `nd_parse_ipv4_udp` up to the point where the packet is accepted. */
  function Parse(data: seq<byte>): Option<Datagram> {
    if ETH_HLEN > |data| then None
    else if Be16(data, 12) != ETH_P_IP then None
    else if ETH_HLEN + IP_MIN_HLEN > |data| then None
    else if data[23] != IPPROTO_UDP then None
    else if Be16(data, 20) % 0x4000 != 0 then None          // more fragments, or an offset
    else
      var ihlBytes := data[14] % 16 * 4;
      if ihlBytes < IP_MIN_HLEN then None
      else
        var udp := ETH_HLEN + ihlBytes;
        if udp + UDP_HLEN > |data| then None
        else
          var srcPort, dstPort := Be16(data, udp), Be16(data, udp + 2);
          Some(Datagram(data[26..30], data[30..34], srcPort, dstPort,
                        ParseDns(data, udp + UDP_HLEN, srcPort, dstPort)))
  }

  // ---------------------------------------------------------------- what a packet means for DNS

  datatype DnsAction =
    | NotDns
    | QuerySeen(key: DnsKey)
    | ResponseSeen(key: DnsKey, rcode: nat)

  function QueryKey(ifindex: nat, d: Datagram, txid: u16): DnsKey {
    DnsKey(ifindex, d.src, d.dst, d.srcPort, d.dstPort, txid)
  }

  function ResponseKey(ifindex: nat, d: Datagram, txid: u16): DnsKey {
    DnsKey(ifindex, d.dst, d.src, d.dstPort, d.srcPort, txid)
  }

  function Classify(ifindex: nat, d: Datagram): DnsAction {
    match d.dns
    case None => NotDns
    case Some(h) =>
      if !h.IsResponse() && d.dstPort == DNS_PORT then QuerySeen(QueryKey(ifindex, d, h.txid))
      else if h.IsResponse() && d.srcPort == DNS_PORT then ResponseSeen(ResponseKey(ifindex, d, h.txid), h.Rcode())
      else NotDns
  }

  function FlowOf(ifindex: nat, direction: Direction, d: Datagram): FlowKey {
    FlowKey(ifindex, d.src, d.dst, d.srcPort, d.dstPort, IPPROTO_UDP, direction)
  }

  /**
   What is accepted, and where each field is, byte by byte: Ethernet type IPv4, protocol 17, no
   fragment bits, a header of at least five words, and room for every header that is read.
   */
  lemma FieldsByOffset(d: seq<byte>)
    ensures Parse(d).Some? <==>
              && |d| >= 34 && d[12] == 0x08 && d[13] == 0x00 && d[23] == 17
              && d[20] % 64 == 0 && d[21] == 0 && d[14] % 16 >= 5 && 14 + d[14] % 16 * 4 + 8 <= |d|
    ensures Parse(d).Some? ==>
              var p, n := Parse(d).value, 14 + d[14] % 16 * 4;
              && p.src == d[26..30] && p.dst == d[30..34]
              && p.srcPort == d[n] as int * 256 + d[n + 1] && p.dstPort == d[n + 2] as int * 256 + d[n + 3]
              && (p.dns.Some? <==> (p.srcPort == 53 || p.dstPort == 53) && n + 20 <= |d|)
              && (p.dns.Some? ==>
                    && p.dns.value.txid == d[n + 8] as int * 256 + d[n + 9]
                    && (p.dns.value.IsResponse() <==> d[n + 10] >= 128) && p.dns.value.Rcode() == d[n + 11] % 16)
  {
    if |d| >= 34 {
      FragmentBits(d[20], d[21]);
    }
  }

  lemma FragmentBits(hi: byte, lo: byte)
    ensures (hi * 256 + lo) % 0x4000 == 0 <==> hi % 64 == 0 && lo == 0
  {
    assert (hi * 256 + lo) % 0x4000 == hi % 64 * 256 + lo by {
      assert hi * 256 + lo == hi / 64 * 0x4000 + (hi % 64 * 256 + lo);
    }
  }

  // ---------------------------------------------------------------- frames and their encoding

  /** An Ethernet/IPv4/UDP frame. Fields named `other` are bytes the hook never looks at. */
  datatype Frame = Frame(
    macs: seq<byte>,
    version: nat, options: seq<byte>, otherA: seq<byte>, fragFlags: nat, ttl: byte, otherB: seq<byte>,
    src: seq<byte>, dst: seq<byte>,
    srcPort: u16, dstPort: u16, otherC: seq<byte>,
    payload: seq<byte>
  )

  /** An unfragmented frame with a header length of 5 to 15 words. */
  predicate WellFormed(f: Frame) {
    && |f.macs| == 12 && f.version < 16
    && |f.options| % 4 == 0 && |f.options| <= 40
    && |f.otherA| == 5 && |f.otherB| == 2 && f.fragFlags < 4
    && |f.src| == 4 && |f.dst| == 4 && |f.otherC| == 4
  }

  function EthHeader(f: Frame): (h: seq<byte>)
    requires WellFormed(f)
    ensures |h| == 14
  {
    f.macs + [8, 0]
  }

  function IpHeader(f: Frame): (h: seq<byte>)
    requires WellFormed(f)
    ensures |h| == 20
  {
    [f.version * 16 + 5 + |f.options| / 4] + f.otherA + [f.fragFlags * 64, 0, f.ttl, IPPROTO_UDP] + f.otherB
    + f.src + f.dst
  }

  function UdpHeader(f: Frame): (h: seq<byte>)
    requires WellFormed(f)
    ensures |h| == 8
  {
    [f.srcPort / 256, f.srcPort % 256, f.dstPort / 256, f.dstPort % 256] + f.otherC
  }

  function Encode(f: Frame): seq<byte>
    requires WellFormed(f)
  {
    EthHeader(f) + IpHeader(f) + f.options + UdpHeader(f) + f.payload
  }

  lemma Layout(f: Frame)
    requires WellFormed(f)
    ensures var d, n := Encode(f), 34 + |f.options|;
            && |d| == n + 8 + |f.payload|
            && d[..14] == EthHeader(f) && d[14..34] == IpHeader(f)
            && d[n..n + 8] == UdpHeader(f) && d[n + 8..] == f.payload
  {
  }

  /** What the hook should take from a frame. */
  function Expected(f: Frame): Datagram
    requires WellFormed(f)
  {
    Datagram(f.src, f.dst, f.srcPort, f.dstPort,
             if (f.srcPort == DNS_PORT || f.dstPort == DNS_PORT) && |f.payload| >= DNS_HLEN
             then Some(DnsHeader(Be16(f.payload, 0), Be16(f.payload, 2)))
             else None)
  }

  lemma EncodedIpBytes(f: Frame)
    requires WellFormed(f)
    ensures var d := Encode(f);
            && |d| >= 42 + |f.options|
            && d[12] == 8 && d[13] == 0
            && d[14] == f.version * 16 + 5 + |f.options| / 4
            && d[20] == f.fragFlags * 64 && d[21] == 0 && d[23] == IPPROTO_UDP
            && d[26..30] == f.src && d[30..34] == f.dst
  {
    var d := Encode(f);
    Layout(f);
    assert d[12] == d[..14][12] && d[13] == d[..14][13];
    assert d[14] == d[14..34][0] && d[20] == d[14..34][6] && d[21] == d[14..34][7] && d[23] == d[14..34][9];
    assert d[26..30] == d[14..34][12..16] == f.src;
    assert d[30..34] == d[14..34][16..20] == f.dst;
  }

  lemma EncodedUdpBytes(f: Frame)
    requires WellFormed(f)
    ensures var d, n := Encode(f), 34 + |f.options|;
            && |d| == n + 8 + |f.payload|
            && Be16(d, n) == f.srcPort && Be16(d, n + 2) == f.dstPort
            && (|f.payload| >= DNS_HLEN ==>
                  Be16(d, n + 8) == Be16(f.payload, 0) && Be16(d, n + 10) == Be16(f.payload, 2))
  {
    var d, n := Encode(f), 34 + |f.options|;
    Layout(f);
    var udp := d[n..n + 8];
    assert d[n] == udp[0] && d[n + 1] == udp[1] && d[n + 2] == udp[2] && d[n + 3] == udp[3];
    if |f.payload| >= DNS_HLEN {
      var rest := d[n + 8..];
      assert d[n + 8] == rest[0] && d[n + 9] == rest[1] && d[n + 10] == rest[2] && d[n + 11] == rest[3];
    }
  }

  lemma HeaderLength(version: nat, words: nat)
    requires words % 4 == 0 && words <= 40
    ensures (version * 16 + 5 + words / 4) % 16 * 4 == 20 + words
  {
  }

  /** Round trip: parsing an encoded frame recovers its fields, whatever the header length. */
  lemma ParseEncode(f: Frame)
    requires WellFormed(f)
    ensures Parse(Encode(f)) == Some(Expected(f))
  {
    EncodedIpBytes(f);
    EncodedUdpBytes(f);
    HeaderLength(f.version, |f.options|);
  }

  function Decode(d: seq<byte>): Frame
    requires Parse(d).Some?
  {
    var n := ETH_HLEN + d[14] % 16 * 4;
    Frame(d[..12], d[14] / 16, d[34..n], d[15..20], d[20] / 64, d[22], d[24..26], d[26..30], d[30..34],
          Be16(d, n), Be16(d, n + 2), d[n + 4..n + 8], d[n + 8..])
  }

  lemma DecodedHeaders(d: seq<byte>)
    requires Parse(d).Some?
    ensures WellFormed(Decode(d))
    ensures d[..14] == EthHeader(Decode(d)) && d[14..34] == IpHeader(Decode(d))
  {
    var f := Decode(d);
    assert d[14] % 16 >= 5 && d[14] == f.version * 16 + 5 + |f.options| / 4;
  }

  lemma DecodedUdp(d: seq<byte>)
    requires Parse(d).Some?
    ensures var n := ETH_HLEN + d[14] % 16 * 4;
            WellFormed(Decode(d)) && n + 8 <= |d| && d[n..n + 8] == UdpHeader(Decode(d))
  {
    var n := ETH_HLEN + d[14] % 16 * 4;
    assert Be16(d, n) / 256 == d[n] && Be16(d, n) % 256 == d[n + 1];
    assert Be16(d, n + 2) / 256 == d[n + 2] && Be16(d, n + 2) % 256 == d[n + 3];
  }

  /** Nothing else is accepted: every accepted buffer is the encoding of a well-formed frame. */
  lemma AcceptedIsEncoded(d: seq<byte>)
    requires Parse(d).Some?
    ensures WellFormed(Decode(d)) && Encode(Decode(d)) == d
  {
    var n := ETH_HLEN + d[14] % 16 * 4;
    DecodedHeaders(d);
    DecodedUdp(d);
    assert d == d[..14] + d[14..34] + d[34..n] + d[n..n + 8] + d[n + 8..];
  }

  // ---------------------------------------------------------------- flow keys

  /** The flow of a frame: its interface, addresses, ports and direction, protocol 17. */
  lemma FlowOfFrame(ifindex: nat, direction: Direction, f: Frame)
    requires WellFormed(f)
    ensures Parse(Encode(f)).Some?
    ensures var key := FlowOf(ifindex, direction, Parse(Encode(f)).value);
            && key.ifindex == ifindex && key.direction == direction && key.proto == 17
            && key.srcIp == f.src && key.dstIp == f.dst && key.srcPort == f.srcPort && key.dstPort == f.dstPort
  {
    ParseEncode(f);
  }

  /** Two frames belong to one flow exactly when all of these agree. */
  lemma SameFlow(i: nat, dir: Direction, f: Frame, i': nat, dir': Direction, f': Frame)
    requires WellFormed(f) && WellFormed(f')
    ensures Parse(Encode(f)).Some? && Parse(Encode(f')).Some?
    ensures FlowOf(i, dir, Parse(Encode(f)).value) == FlowOf(i', dir', Parse(Encode(f')).value)
       <==> && i == i' && dir == dir' && f.src == f'.src && f.dst == f'.dst
            && f.srcPort == f'.srcPort && f.dstPort == f'.dstPort
  {
    FlowOfFrame(i, dir, f);
    FlowOfFrame(i', dir', f');
  }

  // ---------------------------------------------------------------- queries and their responses

  predicate CarriesDns(f: Frame) {
    |f.payload| >= DNS_HLEN
  }

  function Txid(f: Frame): u16
    requires CarriesDns(f)
  {
    Be16(f.payload, 0)
  }

  predicate QrSet(f: Frame)
    requires CarriesDns(f)
  {
    f.payload[2] >= 128
  }

  /** The response to a query: addresses and ports swapped, QR set, the same id. */
  predicate Answers(r: Frame, q: Frame)
    requires CarriesDns(r) && CarriesDns(q)
  {
    && r.src == q.dst && r.dst == q.src
    && r.srcPort == q.dstPort && r.dstPort == q.srcPort
    && QrSet(r) && Txid(r) == Txid(q)
  }

  lemma FlagBits(f: Frame)
    requires CarriesDns(f)
    ensures var h := DnsHeader(Be16(f.payload, 0), Be16(f.payload, 2));
            (h.IsResponse() <==> QrSet(f)) && h.Rcode() == f.payload[3] % 16
  {
  }

  /** A frame is a query when it goes to port 53 with QR clear, a response when it comes from there with QR set. */
  lemma ClassifyEncoded(ifindex: nat, f: Frame)
    requires WellFormed(f) && CarriesDns(f)
    ensures var a := Classify(ifindex, Parse(Encode(f)).value);
            && Parse(Encode(f)).Some?
            && (a.QuerySeen? <==> f.dstPort == DNS_PORT && !QrSet(f))
            && (a.ResponseSeen? <==> f.srcPort == DNS_PORT && QrSet(f))
            && (a.QuerySeen? ==> a.key == DnsKey(ifindex, f.src, f.dst, f.srcPort, f.dstPort, Txid(f)))
            && (a.ResponseSeen? ==> a.key == DnsKey(ifindex, f.dst, f.src, f.dstPort, f.srcPort, Txid(f)))
            && (a.ResponseSeen? ==> a.rcode == f.payload[3] % 16 < DNS_RCODES)
  {
    ParseEncode(f);
    FlagBits(f);
    assert Parse(Encode(f)).value == Expected(f);
  }

  /** Everything else is not DNS: other ports, a payload without a full header, the wrong direction. */
  lemma NotDnsExactly(ifindex: nat, f: Frame)
    requires WellFormed(f)
    ensures Parse(Encode(f)).Some?
    ensures Classify(ifindex, Parse(Encode(f)).value).NotDns? <==>
              !(CarriesDns(f) && ((f.dstPort == 53 && !QrSet(f)) || (f.srcPort == 53 && QrSet(f))))
  {
    ParseEncode(f);
    if CarriesDns(f) {
      ClassifyEncoded(ifindex, f);
    }
  }

  /**
   Key symmetry: for a query frame, a response frame looks up exactly the key the query inserted if
   and only if it answers that query on the same interface. Header lengths, options and all bytes
   the hook does not look at may differ.
   */
  lemma ResponseFindsQuery(ifindexQ: nat, q: Frame, ifindexR: nat, r: Frame)
    requires WellFormed(q) && CarriesDns(q) && WellFormed(r) && CarriesDns(r)
    requires q.dstPort == DNS_PORT && !QrSet(q)
    ensures Parse(Encode(q)).Some? && Parse(Encode(r)).Some?
    ensures var aq, ar := Classify(ifindexQ, Parse(Encode(q)).value), Classify(ifindexR, Parse(Encode(r)).value);
            aq.QuerySeen? && (ar.ResponseSeen? && ar.key == aq.key <==> ifindexR == ifindexQ && Answers(r, q))
  {
    ClassifyEncoded(ifindexQ, q);
    ClassifyEncoded(ifindexR, r);
  }
}
