/**
 Header push and pop (modules/udp.rs, modules/ipv4.rs, modules/eth.rs, packet.rs): `u16` offset
 and length bookkeeping over a packet buffer, with the bytes each module writes and reads.
 Arithmetic wraps as in a release build.  A header access outside the buffer, which the original
 makes through a raw pointer, yields `None`.
 */
module Headers {
  import opened Common
  import opened Words

  const ETH_SIZE: nat := 14
  const IPV4_SIZE: nat := 20
  const UDP_SIZE: nat := 8

  type Byte = b: nat | b < 256

  datatype Header = Header(length: nat, offset: nat)

  /** `end` is the packet's `len` field: the position just past its last byte. */
  datatype Packet = Packet(bytes: seq<Byte>, offset: nat, end: nat, l2: Header, l3: Header, l4: Header)

  /** `u16` addition and subtraction that wrap. */
  function Add16(a: nat, b: nat): (r: nat)
    ensures a < U16 && b < U16 ==> r == (a + b) % U16
  {
    if a + b < U16 then a + b else a + b - U16
  }

  function Sub16(a: nat, b: nat): (r: nat)
    requires b <= a + U16
    ensures a < U16 && b < U16 ==> r == (a - b) % U16
  {
    if b <= a then a - b else a + U16 - b
  }

  /** `Packet::len`. */
  function Len(p: Packet): nat
    requires p.offset <= U16
  {
    Sub16(p.end, p.offset)
  }

  /** Overwrite the bytes from `at` on with `patch`. */
  function Splice(bytes: seq<Byte>, at: nat, patch: seq<Byte>): (r: seq<Byte>)
    requires at + |patch| <= |bytes|
    ensures |r| == |bytes|
  {
    bytes[..at] + patch + bytes[at + |patch|..]
  }

  /** Big-endian bytes of a 16-bit value. */
  function High(n: nat): Byte
    requires n < U16
  {
    n / 256
  }

  function LowByte(n: nat): Byte {
    n % 256
  }

  function Word(hi: Byte, lo: Byte): nat {
    256 * hi + lo
  }

  predicate U16Fields(p: Packet) {
    p.offset < U16 && p.end < U16
  }

  // ----- sending -----

  /** Ports 80 and 81, the length, and whatever the checksum field held. */
  function UdpBytes(length: nat, cksum: (Byte, Byte)): (r: seq<Byte>)
    requires length < U16
    ensures |r| == UDP_SIZE
  {
    [0, 80, 0, 81, High(length), LowByte(length), cksum.0, cksum.1]
  }

  /** `UdpSender::process`. */
  function UdpSend(p: Packet): Option<Packet>
    requires U16Fields(p)
  {
    var off := Sub16(p.offset, UDP_SIZE);
    if off + UDP_SIZE > |p.bytes| then None
    else
      var header := UdpBytes(Sub16(p.end, off), (p.bytes[off + 6], p.bytes[off + 7]));
      Some(p.(offset := off, l4 := Header(UDP_SIZE, off), bytes := Splice(p.bytes, off, header)))
  }

  /** `set_version(4)` and `set_ihl(5)`: both or into whatever the byte held. */
  function VersionIhl(stale: Byte): Byte {
    VersionIhlByte(stale);
    Or(Or(stale, 4), 80)
  }

  function Ipv4Bytes(stale: Byte, totLen: nat): (r: seq<Byte>)
    requires totLen < U16
    ensures |r| == IPV4_SIZE
  {
    [VersionIhl(stale), 0, High(totLen), LowByte(totLen), 0, 0, 0, 0, 255, 17, 0, 0,
     192, 168, 10, 1, 192, 168, 10, 2]
  }

  /** `Ipv4Sender::process`, after the route was chosen. */
  function Ipv4Send(p: Packet): Option<Packet>
    requires U16Fields(p)
  {
    var off := Sub16(p.offset, IPV4_SIZE);
    if off + IPV4_SIZE > |p.bytes| then None
    else
      var header := Ipv4Bytes(p.bytes[off], Sub16(p.end, off));
      Some(p.(offset := off, l3 := Header(IPV4_SIZE, off), bytes := Splice(p.bytes, off, header)))
  }

  function EthBytes(source: seq<Byte>): (r: seq<Byte>)
    requires |source| == 6
    ensures |r| == ETH_SIZE
  {
    [2, 0, 0, 0, 0, 0] + source + [8, 0]
  }

  /** `EthSender::process`: destination and type; the source address is left to the I/O node. */
  function EthSend(p: Packet): Option<Packet>
    requires U16Fields(p)
  {
    var off := Sub16(p.offset, ETH_SIZE);
    if off + ETH_SIZE > |p.bytes| then None
    else
      var header := EthBytes(p.bytes[off + 6..off + 12]);
      Some(p.(offset := off, l2 := Header(ETH_SIZE, off), bytes := Splice(p.bytes, off, header)))
  }

  /** `IoNode::process` stamps the source address into the Ethernet header. */
  function StampSource(p: Packet, mac: seq<Byte>): Option<Packet>
    requires |mac| == 6
  {
    if p.l2.offset + ETH_SIZE > |p.bytes| then None
    else Some(p.(bytes := Splice(p.bytes, p.l2.offset + 6, mac)))
  }

  /** The whole send chain of the shipped graph. */
  function SendChain(p: Packet, mac: seq<Byte>): Option<Packet>
    requires U16Fields(p) && |mac| == 6
  {
    var udp := UdpSend(p);
    if udp.None? then None else
    var ip := Ipv4Send(udp.value);
    if ip.None? then None else
    var eth := EthSend(ip.value);
    if eth.None? then None else
    StampSource(eth.value, mac)
  }

  // ----- the version byte -----

  lemma {:induction false} OrBound(a: nat, b: nat, k: nat)
    requires a < Pow2(k) && b < Pow2(k)
    ensures Or(a, b) < Pow2(k)
    decreases k
  {
    if a > 0 && b > 0 {
      OrBound(a / 2, b / 2, k - 1);
    }
  }

  lemma VersionIhlByte(stale: Byte)
    ensures Or(Or(stale, 4), 80) < 256
  {
    assert Pow2(8) == 256;
    OrBound(stale, 4, 8);
    OrBound(Or(stale, 4), 80, 8);
  }

  /** What `ihl()` reads back: the stale low nibble with bit 2 set, never the 5 that was meant
      unless the stale nibble supplies bit 0 and nothing else new. */
  lemma IhlReadsBack(stale: Byte)
    ensures And(VersionIhl(stale), 15) == Or(stale % 16, 4)
  {
    assert Pow2(4) == 16;
    LowMask(VersionIhl(stale), 4);
    OrLow(Or(stale, 4), 80, 4);
    OrLow(stale, 4, 4);
    LowIsMod(stale, 4);
    assert Low(4, 4) == 4 && Low(80, 4) == 0;
    assert Or(Or(stale % 16, 4), 0) == Or(stale % 16, 4);
  }

  lemma SetBitTwo(n: nat)
    requires n < 16
    ensures Or(n, 4) == if n / 4 % 2 == 1 then n else n + 4
  {
    var a, b, c := n / 2, n / 4, n / 8;
    assert a / 2 == b && b / 2 == c;
    assert Or(b, 1) == 2 * c + 1;
    assert Or(a, 2) == 2 * Or(b, 1) + a % 2;
    assert Or(n, 4) == 2 * Or(a, 2) + n % 2;
  }

  lemma NibbleTable(n: nat)
    requires n < 16
    ensures Or(n, 4) >= 5 <==> n != 0 && n != 4
    ensures Or(n, 4) == 5 <==> n == 1 || n == 5
    ensures Or(n, 4) <= 15
  {
    SetBitTwo(n);
  }

  // ----- receiving -----

  function EthRecv(p: Packet): Packet {
    p.(l2 := Header(ETH_SIZE, p.offset), offset := Add16(p.offset, ETH_SIZE))
  }

  function Ihl(p: Packet): nat
    requires p.offset < |p.bytes|
  {
    And(p.bytes[p.offset], 15)
  }

  function TotLen(p: Packet): nat
    requires p.offset + IPV4_SIZE <= |p.bytes|
  {
    Word(p.bytes[p.offset + 2], p.bytes[p.offset + 3])
  }

  /** `Ipv4Receiver::process`: trim to the total length, pop the header, and drop the packet when
      the header is too short or its time to live is over.  `true` means passed on. */
  function Ipv4Recv(p: Packet): Option<(Packet, bool)> {
    if p.offset + IPV4_SIZE > |p.bytes| then None
    else
      var h := 4 * Ihl(p);
      Some((p.(l3 := Header(h, p.offset), end := Add16(TotLen(p), p.offset), offset := Add16(p.offset, h)),
            Ihl(p) >= 5 && p.bytes[p.offset + 8] != 0))
  }

  function UdpRecv(p: Packet): Packet {
    p.(l4 := Header(UDP_SIZE, p.offset), offset := Add16(p.offset, UDP_SIZE))
  }

  /** The receive chain of the shipped graph. */
  function RecvChain(p: Packet): Option<(Packet, bool)> {
    var ip := Ipv4Recv(EthRecv(p));
    if ip.None? then None
    else if ip.value.1 then Some((UdpRecv(ip.value.0), true))
    else ip
  }

  // ----- send-side layout -----

  /** A packet whose fields describe a window of its own buffer. */
  predicate Window(p: Packet) {
    p.offset <= p.end <= |p.bytes| < U16
  }

  /** The send chain stays inside the buffer exactly when there are 42 bytes of room in front of
      the payload. */
  lemma SendFitsIff(p: Packet, mac: seq<Byte>)
    requires Window(p) && |mac| == 6
    ensures SendChain(p, mac).Some? <==> p.offset >= 42
  {
    var udp := UdpSend(p);
    if udp.Some? {
      assert p.offset >= 8;
      var ip := Ipv4Send(udp.value);
      if ip.Some? {
        assert p.offset >= 28;
      }
    }
  }

  /** Prepending a header in front of position `o`. */
  lemma PushBytes(b: seq<Byte>, o: nat, header: seq<Byte>)
    requires |header| <= o <= |b|
    ensures Splice(b, o - |header|, header)[..o - |header|] == b[..o - |header|]
    ensures Splice(b, o - |header|, header)[o - |header|..] == header + b[o..]
  {
  }

  lemma StampBytes(b: seq<Byte>, at: nat, old_: seq<Byte>, mac: seq<Byte>)
    requires at + ETH_SIZE <= |b| && |old_| == 6 == |mac|
    ensures Splice(Splice(b, at, EthBytes(old_)), at + 6, mac) == Splice(b, at, EthBytes(mac))
  {
  }

  /** Everything the send chain leaves in the buffer: what was in front, the three headers back to
      back, and the payload and what follows it. */
  function FrameBytes(p: Packet, mac: seq<Byte>): seq<Byte>
    requires Window(p) && p.offset >= 42 && |mac| == 6
  {
    var n := p.end - p.offset;
    p.bytes[..p.offset - 42]
    + (EthBytes(mac)
       + (Ipv4Bytes(p.bytes[p.offset - 28], n + 28)
          + (UdpBytes(n + 8, (p.bytes[p.offset - 2], p.bytes[p.offset - 1])) + p.bytes[p.offset..])))
  }

  lemma UdpLayout(p: Packet)
    requires Window(p) && p.offset >= 8
    ensures var header := UdpBytes(p.end - p.offset + 8, (p.bytes[p.offset - 2], p.bytes[p.offset - 1]));
            UdpSend(p) == Some(p.(offset := p.offset - 8, l4 := Header(UDP_SIZE, p.offset - 8),
                                  bytes := Splice(p.bytes, p.offset - 8, header)))
  {
  }

  lemma Ipv4Layout(p: Packet)
    requires Window(p) && p.offset >= 20
    ensures var header := Ipv4Bytes(p.bytes[p.offset - 20], p.end - p.offset + 20);
            Ipv4Send(p) == Some(p.(offset := p.offset - 20, l3 := Header(IPV4_SIZE, p.offset - 20),
                                   bytes := Splice(p.bytes, p.offset - 20, header)))
  {
  }

  lemma EthLayout(p: Packet, mac: seq<Byte>)
    requires Window(p) && p.offset >= 14 && |mac| == 6
    ensures EthSend(p).Some?
    ensures StampSource(EthSend(p).value, mac)
         == Some(p.(offset := p.offset - 14, l2 := Header(ETH_SIZE, p.offset - 14),
                    bytes := Splice(p.bytes, p.offset - 14, EthBytes(mac))))
  {
    StampBytes(p.bytes, p.offset - 14, p.bytes[p.offset - 8..p.offset - 2], mac);
  }

  /** What the send chain does to every packet with room for it: three adjacent headers that end
      where the payload starts, the end fixed, payload and everything in front untouched, UDP length
      n + 8 and IP total length n + 28 in network order. */
  lemma SendLayout(p: Packet, mac: seq<Byte>)
    requires Window(p) && p.offset >= 42 && |mac| == 6
    ensures SendChain(p, mac) == Some(Packet(FrameBytes(p, mac), p.offset - 42, p.end,
              Header(ETH_SIZE, p.offset - 42), Header(IPV4_SIZE, p.offset - 28), Header(UDP_SIZE, p.offset - 8)))
    ensures |FrameBytes(p, mac)| == |p.bytes|
  {
    var o := p.offset;
    UdpLayout(p);
    Ipv4Layout(UdpSend(p).value);
    var ip := Ipv4Send(UdpSend(p).value).value;
    UpperBytes(p);
    EthLayout(ip, mac);
    PushBytes(ip.bytes, o - 28, EthBytes(mac));
    var out := Splice(ip.bytes, o - 42, EthBytes(mac));
    assert ip.bytes[..o - 28][..o - 42] == ip.bytes[..o - 42] && p.bytes[..o - 28][..o - 42] == p.bytes[..o - 42];
    assert out == out[..o - 42] + out[o - 42..];
  }

  /** The buffer after the two upper headers. */
  lemma UpperBytes(p: Packet)
    requires Window(p) && p.offset >= 28
    ensures UdpSend(p).Some? && U16Fields(UdpSend(p).value) && Ipv4Send(UdpSend(p).value).Some?
    ensures var o, n, b := p.offset, p.end - p.offset, Ipv4Send(UdpSend(p).value).value.bytes;
            && |b| == |p.bytes| && b[..o - 28] == p.bytes[..o - 28]
            && b[o - 28..] == Ipv4Bytes(p.bytes[o - 28], n + 28)
                              + (UdpBytes(n + 8, (p.bytes[o - 2], p.bytes[o - 1])) + p.bytes[o..])
  {
    var o, n := p.offset, p.end - p.offset;
    UdpLayout(p);
    var udp := UdpSend(p).value;
    PushBytes(p.bytes, o, UdpBytes(n + 8, (p.bytes[o - 2], p.bytes[o - 1])));
    assert udp.bytes[o - 28] == p.bytes[o - 28] by {
      assert udp.bytes[..o - 8][o - 28] == p.bytes[..o - 8][o - 28];
    }
    Ipv4Layout(udp);
    PushBytes(udp.bytes, o - 8, Ipv4Bytes(p.bytes[o - 28], n + 28));
    assert udp.bytes[..o - 8][..o - 28] == udp.bytes[..o - 28] && p.bytes[..o - 8][..o - 28] == p.bytes[..o - 28];
  }

  // ----- receive window -----

  /** The header fields the receive chain reads. */
  function RecvIhl(p: Packet): nat
    requires p.offset + 34 <= |p.bytes|
  {
    And(p.bytes[p.offset + 14], 15)
  }

  function RecvTotLen(p: Packet): nat
    requires p.offset + 34 <= |p.bytes|
  {
    Word(p.bytes[p.offset + 16], p.bytes[p.offset + 17])
  }

  lemma IhlSmall(b: Byte)
    ensures And(b, 15) <= 15
  {
    assert Pow2(4) == 16;
    LowMask(b, 4);
  }

  /** The receive chain on any frame that holds the fixed headers: it passes the frame on exactly
      when ihl is at least 5 and ttl is not zero, and then the window starts right behind the three
      headers and ends where the total length says, whatever padding the frame carried.  Both sums
      wrap at 16 bits. */
  lemma RecvWindow(p: Packet)
    requires p.offset + 34 <= |p.bytes| < U16
    ensures var r := RecvChain(p);
            var ihl, tot := RecvIhl(p), RecvTotLen(p);
            && r.Some? && (r.value.1 <==> ihl >= 5 && p.bytes[p.offset + 22] != 0)
            && (r.value.1 ==>
                  && r.value.0.offset == Add16(p.offset + 14, 4 * ihl + 8) && r.value.0.end == Add16(tot, p.offset + 14)
                  && r.value.0.l2 == Header(14, p.offset) && r.value.0.l3 == Header(4 * ihl, p.offset + 14)
                  && r.value.0.l4 == Header(8, Add16(p.offset + 14, 4 * ihl)) && r.value.0.bytes == p.bytes)
  {
    IhlSmall(p.bytes[p.offset + 14]);
    assert Add16(p.offset, 14) == p.offset + 14;
    var q := EthRecv(p);
    assert Ihl(q) == RecvIhl(p) && TotLen(q) == RecvTotLen(p);
    assert Add16(Add16(q.offset, 4 * Ihl(q)), 8) == Add16(q.offset, 4 * Ihl(q) + 8);
  }

  /** The code does not check the total length: the window of a frame it passes on is a window of
      the received bytes exactly when the total length covers the headers and does not exceed what
      was received.  The length it then reports is tot_len - 4 ihl - 8, modulo 2^16. */
  lemma RecvWindowInsideIff(p: Packet)
    requires p.offset + 34 <= |p.bytes| < U16
    requires p.offset + 14 <= p.end < U16 && RecvChain(p).Some? && RecvChain(p).value.1
    ensures var r := RecvChain(p).value.0;
            && (p.offset <= r.offset <= r.end <= p.end
                <==> 4 * RecvIhl(p) + 8 <= RecvTotLen(p) <= p.end - p.offset - 14)
            && r.offset < U16 && 4 * RecvIhl(p) + 8 < U16 && Len(r) == Sub16(RecvTotLen(p), 4 * RecvIhl(p) + 8)
  {
    RecvWindow(p);
    IhlSmall(p.bytes[p.offset + 14]);
    WindowInside(p.offset, p.end, RecvTotLen(p), 4 * RecvIhl(p) + 8);
  }

  lemma WindowInside(o: nat, end: nat, tot: nat, h: nat)
    requires o + 14 <= end < U16 && tot < U16 && h <= 68
    ensures var at, past := Add16(o + 14, h), Add16(tot, o + 14);
            && (o <= at <= past <= end <==> h <= tot <= end - o - 14)
            && at < U16 && Sub16(past, at) == Sub16(tot, h)
  {
  }

  // ----- round trip -----

  /** Byte `i` of a frame is not one of the checksums, which the driver and the NIC fill in. */
  predicate Carried(i: nat) {
    i != 24 && i != 25 && i != 40 && i != 41
  }

  /** `q` holds the frame that `sent` describes, checksums aside, at its own offset and followed by
      any padding. */
  predicate Delivers(sent: Packet, q: Packet)
    requires Window(sent)
  {
    var n := sent.end - sent.offset;
    && q.offset + n <= q.end <= |q.bytes| < U16
    && forall i: nat :: i < n && Carried(i) ==> q.bytes[q.offset + i] == sent.bytes[sent.offset + i]
  }

  lemma WordBytes(n: nat)
    requires n < U16
    ensures Word(High(n), LowByte(n)) == n
  {
  }

  /** `q` received what was sent from `p`. */
  ghost predicate Received(p: Packet, mac: seq<Byte>, q: Packet) {
    && Window(p) && p.offset >= 42 && |mac| == 6
    && SendChain(p, mac).Some? && Window(SendChain(p, mac).value) && Delivers(SendChain(p, mac).value, q)
  }

  /** `n` bytes at `at` in `b` and at `from` in `a` agree, checksums aside. */
  predicate SameFrame(a: seq<Byte>, from: nat, b: seq<Byte>, at: nat, n: nat) {
    && from + n <= |a| && at + n <= |b|
    && forall i: nat :: i < n && Carried(i) ==> b[at + i] == a[from + i]
  }

  lemma ReceivedFrame(p: Packet, mac: seq<Byte>, q: Packet)
    requires Received(p, mac, q)
    ensures SameFrame(FrameBytes(p, mac), p.offset - 42, q.bytes, q.offset, 42 + (p.end - p.offset))
  {
    SendLayout(p, mac);
    var sent := SendChain(p, mac).value;
    DeliveredFrame(sent.bytes, sent.offset, sent.end, q);
  }

  lemma DeliveredFrame(bytes: seq<Byte>, lo: nat, hi: nat, q: Packet)
    requires lo <= hi <= |bytes| && q.offset + (hi - lo) <= |q.bytes|
    requires forall i: nat :: i < hi - lo && Carried(i) ==> q.bytes[q.offset + i] == bytes[lo + i]
    ensures SameFrame(bytes, lo, q.bytes, q.offset, hi - lo)
  {
  }

  /** The receiver reads the sender's bytes. */
  lemma SameFields(a: seq<Byte>, from: nat, q: Packet, n: nat)
    requires SameFrame(a, from, q.bytes, q.offset, 42 + n)
    ensures RecvIhl(q) == And(a[from + 14], 15) && RecvTotLen(q) == Word(a[from + 16], a[from + 17])
    ensures q.bytes[q.offset + 22] == a[from + 22]
    ensures q.bytes[q.offset + 42..q.offset + 42 + n] == a[from + 42..from + 42 + n]
  {
    var x, y := q.bytes[q.offset + 42..q.offset + 42 + n], a[from + 42..from + 42 + n];
    forall i: nat | i < n ensures x[i] == y[i] {
      assert Carried(42 + i);
    }
    assert Carried(14) && Carried(16) && Carried(17) && Carried(22);
  }

  /** The values a reader finds at the protocols' field positions of the sent frame. */
  lemma FrameFields(p: Packet, mac: seq<Byte>)
    requires Window(p) && p.offset >= 42 && |mac| == 6
    ensures var b := FrameBytes(p, mac);
            var o := p.offset - 42;
            && |b| == |p.bytes|
            && b[o + 14] == VersionIhl(p.bytes[p.offset - 28]) && b[o + 22] == 255
            && Word(b[o + 16], b[o + 17]) == p.end - p.offset + 28
            && Word(b[o + 38], b[o + 39]) == p.end - p.offset + 8
            && (forall i :: p.offset <= i < |p.bytes| ==> b[i] == p.bytes[i])
  {
    var n := p.end - p.offset;
    var ip := Ipv4Bytes(p.bytes[p.offset - 28], n + 28);
    var rest := UdpBytes(n + 8, (p.bytes[p.offset - 2], p.bytes[p.offset - 1])) + p.bytes[p.offset..];
    var b := FrameBytes(p, mac);
    assert b == p.bytes[..p.offset - 42] + (EthBytes(mac) + (ip + rest));
    assert forall i :: 0 <= i < 20 ==> b[p.offset - 28 + i] == ip[i];
    assert b[p.offset - 4] == rest[4] && b[p.offset - 3] == rest[5];
    WordBytes(n + 28);
    WordBytes(n + 8);
  }

  /** What a reader finds in an Ethernet header. */
  predicate EthFields(b: seq<Byte>, mac: seq<Byte>) {
    |b| == ETH_SIZE && b[0..6] == [2, 0, 0, 0, 0, 0] && b[6..12] == mac && Word(b[12], b[13]) == 0x0800
  }

  /** In an IPv4 header with this total length, over a version byte that held `stale`: version and
      header length, each or-ed into the other's nibble; type of service, length, id, fragment
      offset, time to live, protocol, checksum; source and destination. */
  predicate Ipv4Fields(b: seq<Byte>, stale: Byte, totLen: nat) {
    && |b| == IPV4_SIZE
    && b[0] % 16 == Or(stale % 16, 4) && b[0] / 16 == Or(stale / 16, 5)
    && b[1] == 0 && Word(b[2], b[3]) == totLen && Word(b[4], b[5]) == 0 && Word(b[6], b[7]) == 0
    && b[8] == 255 && b[9] == 17 && Word(b[10], b[11]) == 0
    && b[12..16] == [192, 168, 10, 1] && b[16..20] == [192, 168, 10, 2]
  }

  /** In a UDP header: ports, length, and the checksum bytes left as they were. */
  predicate UdpFields(b: seq<Byte>, length: nat, cksum: seq<Byte>) {
    && |b| == UDP_SIZE
    && Word(b[0], b[1]) == 80 && Word(b[2], b[3]) == 81 && Word(b[4], b[5]) == length && b[6..8] == cksum
  }

  /** The three headers of a frame with `n` payload bytes. */
  predicate HeaderFields(b: seq<Byte>, mac: seq<Byte>, stale: Byte, n: nat, cksum: seq<Byte>) {
    && |b| == 42
    && EthFields(b[..14], mac) && Ipv4Fields(b[14..34], stale, n + 28) && UdpFields(b[34..], n + 8, cksum)
  }

  /** Every header byte of the frame the send chain leaves, at its protocol's position.  Only the
      version byte and the UDP checksum depend on what the buffer held. */
  lemma WireFields(p: Packet, mac: seq<Byte>)
    requires Window(p) && p.offset >= 42 && |mac| == 6
    ensures SendChain(p, mac).Some? && |SendChain(p, mac).value.bytes| == |p.bytes|
    ensures HeaderFields(SendChain(p, mac).value.bytes[p.offset - 42..p.offset], mac, p.bytes[p.offset - 28],
                         p.end - p.offset, p.bytes[p.offset - 2..p.offset])
  {
    SendLayout(p, mac);
    FrameHeaders(p, mac, FrameBytes(p, mac)[p.offset - 42..p.offset]);
  }

  lemma FrameHeaders(p: Packet, mac: seq<Byte>, b: seq<Byte>)
    requires Window(p) && p.offset >= 42 && |mac| == 6 && |FrameBytes(p, mac)| == |p.bytes|
    requires b == FrameBytes(p, mac)[p.offset - 42..p.offset]
    ensures HeaderFields(b, mac, p.bytes[p.offset - 28], p.end - p.offset, p.bytes[p.offset - 2..p.offset])
  {
    var n, stale, cksum := p.end - p.offset, p.bytes[p.offset - 28], p.bytes[p.offset - 2..p.offset];
    ThreeHeaders(p.bytes[..p.offset - 42], EthBytes(mac), Ipv4Bytes(stale, n + 28),
                 UdpBytes(n + 8, (cksum[0], cksum[1])), p.bytes[p.offset..], FrameBytes(p, mac));
    FieldsOf(b, mac, stale, n, cksum);
  }

  lemma ThreeHeaders(front: seq<Byte>, eth: seq<Byte>, ip: seq<Byte>, udp: seq<Byte>, rest: seq<Byte>, b: seq<Byte>)
    requires |eth| == ETH_SIZE && |ip| == IPV4_SIZE && |udp| == UDP_SIZE && b == front + (eth + (ip + (udp + rest)))
    ensures |b| >= |front| + 42 && b[|front|..|front| + 42] == eth + ip + udp
  {
  }

  lemma FieldsOf(b: seq<Byte>, mac: seq<Byte>, stale: Byte, n: nat, cksum: seq<Byte>)
    requires |mac| == 6 && n + 28 < U16 && |cksum| == 2
    requires b == EthBytes(mac) + Ipv4Bytes(stale, n + 28) + UdpBytes(n + 8, (cksum[0], cksum[1]))
    ensures HeaderFields(b, mac, stale, n, cksum)
  {
    EthReads(mac);
    Ipv4Reads(stale, n + 28);
    UdpReads(n + 8, cksum);
    Parts(EthBytes(mac), Ipv4Bytes(stale, n + 28), UdpBytes(n + 8, (cksum[0], cksum[1])), b);
  }

  lemma Parts(eth: seq<Byte>, ip: seq<Byte>, udp: seq<Byte>, b: seq<Byte>)
    requires |eth| == ETH_SIZE && |ip| == IPV4_SIZE && |udp| == UDP_SIZE && b == eth + ip + udp
    ensures |b| == 42 && b[..14] == eth && b[14..34] == ip && b[34..] == udp
  {
  }

  lemma EthReads(mac: seq<Byte>)
    requires |mac| == 6
    ensures EthFields(EthBytes(mac), mac)
  {
    assert EthBytes(mac)[6..12] == mac;
  }

  lemma Ipv4Reads(stale: Byte, totLen: nat)
    requires totLen < U16
    ensures Ipv4Fields(Ipv4Bytes(stale, totLen), stale, totLen)
  {
    WordBytes(totLen);
    VersionNibbles(stale);
    var b := Ipv4Bytes(stale, totLen);
    assert b[12..16] == [192, 168, 10, 1];
    assert b[16..20] == [192, 168, 10, 2];
  }

  lemma UdpReads(length: nat, cksum: seq<Byte>)
    requires length < U16 && |cksum| == 2
    ensures UdpFields(UdpBytes(length, (cksum[0], cksum[1])), length, cksum)
  {
    WordBytes(length);
  }

  /** What the two setters leave: the version and the header length, each or-ed into the other's
      nibble. */
  lemma VersionNibbles(stale: Byte)
    ensures VersionIhl(stale) % 16 == Or(stale % 16, 4)
    ensures VersionIhl(stale) / 16 == Or(stale / 16, 5)
  {
    ReuseKeepsOutcome(stale);
    OrSixteenth(Or(stale, 4), 80);
    OrSixteenth(stale, 4);
  }

  lemma OrHalf(a: nat, b: nat)
    ensures Or(a, b) / 2 == Or(a / 2, b / 2)
  {
  }

  lemma OrSixteenth(a: nat, b: nat)
    ensures Or(a, b) / 16 == Or(a / 16, b / 16)
  {
    OrHalf(a, b);
    OrHalf(a / 2, b / 2);
    OrHalf(a / 4, b / 4);
    OrHalf(a / 8, b / 8);
    Sixteenth(a);
    Sixteenth(b);
    Sixteenth(Or(a, b));
  }

  lemma Sixteenth(a: nat)
    ensures a / 2 / 2 == a / 4 && a / 4 / 2 == a / 8 && a / 8 / 2 == a / 16
  {
  }

  /** What the receiver reads out of a delivered frame. */
  lemma DeliveredFields(p: Packet, mac: seq<Byte>, q: Packet)
    requires Received(p, mac, q)
    ensures q.offset + 34 <= |q.bytes|
    ensures RecvTotLen(q) == p.end - p.offset + 28
    ensures q.bytes[q.offset + 22] == 255
    ensures RecvIhl(q) == Or(p.bytes[p.offset - 28] % 16, 4)
  {
    ReceivedFrame(p, mac, q);
    FrameFields(p, mac);
    SameFields(FrameBytes(p, mac), p.offset - 42, q, p.end - p.offset);
    IhlReadsBack(p.bytes[p.offset - 28]);
  }

  /** Receive against send, for every payload, every padding and every previous content of the
      buffer.  The sender ors its version and length into a byte it did not clear, in the opposite
      nibbles, so the outcome hangs on the low nibble that byte held before: the frame is dropped
      exactly when it was 0 or 4, and the original payload window comes back exactly when it was
      1 or 5. */
  lemma RoundTripIff(p: Packet, mac: seq<Byte>, q: Packet)
    requires Received(p, mac, q)
    ensures var stale := p.bytes[p.offset - 28] % 16;
            var r := RecvChain(q);
            && r.Some?
            && (r.value.1 <==> stale != 0 && stale != 4)
            && (r.value.1 ==>
                  (r.value.0.offset == q.offset + 42 && r.value.0.end == q.offset + 42 + (p.end - p.offset)
                   <==> stale == 1 || stale == 5))
  {
    DeliveredFields(p, mac, q);
    NibbleTable(p.bytes[p.offset - 28] % 16);
    SendLayout(p, mac);
    RecvWindow(q);
  }

  lemma PayloadBytes(p: Packet, mac: seq<Byte>, q: Packet)
    requires Received(p, mac, q)
    ensures q.offset + 42 + (p.end - p.offset) <= |q.bytes|
    ensures q.bytes[q.offset + 42..q.offset + 42 + (p.end - p.offset)] == p.bytes[p.offset..p.end]
  {
    ReceivedFrame(p, mac, q);
    FrameFields(p, mac);
    PayloadOf(FrameBytes(p, mac), p.bytes, p.offset, p.end, q);
  }

  lemma PayloadOf(frame: seq<Byte>, bytes: seq<Byte>, lo: nat, hi: nat, q: Packet)
    requires 42 <= lo <= hi <= |frame| && |frame| == |bytes|
    requires SameFrame(frame, lo - 42, q.bytes, q.offset, 42 + (hi - lo))
    requires forall i :: lo <= i < |bytes| ==> frame[i] == bytes[i]
    ensures q.bytes[q.offset + 42..q.offset + 42 + (hi - lo)] == bytes[lo..hi]
  {
    SameFields(frame, lo - 42, q, hi - lo);
    SameSlice(frame, bytes, lo, hi);
  }

  lemma SameSlice(a: seq<Byte>, b: seq<Byte>, lo: nat, hi: nat)
    requires lo <= hi <= |a| && |a| == |b| && forall i :: lo <= i < |b| ==> a[i] == b[i]
    ensures a[lo..hi] == b[lo..hi]
  {
  }

  /** When the window comes back, so does the payload. */
  lemma RoundTripPayload(p: Packet, mac: seq<Byte>, q: Packet)
    requires Received(p, mac, q)
    requires p.bytes[p.offset - 28] % 16 == 1 || p.bytes[p.offset - 28] % 16 == 5
    ensures var r := RecvChain(q);
            && r.Some? && r.value.1 && r.value.0.offset <= r.value.0.end <= |r.value.0.bytes|
            && r.value.0.bytes[r.value.0.offset..r.value.0.end] == p.bytes[p.offset..p.end]
  {
    RoundTripIff(p, mac, q);
    DeliveredFields(p, mac, q);
    RecvWindow(q);
    PayloadBytes(p, mac, q);
  }

  /** The packets `UserNode::poll` makes, in a zeroed buffer. */
  function UserPacket(): Packet {
    Packet(seq(1564, _ => 0), 64, 100, Header(0, 0), Header(0, 0), Header(0, 0))
  }

  /** What the user node sends is received and dropped. */
  lemma UserPacketDropped(mac: seq<Byte>) returns (q: Packet)
    requires |mac| == 6
    ensures Received(UserPacket(), mac, q)
    ensures RecvChain(q).Some? && !RecvChain(q).value.1
  {
    var p := UserPacket();
    SendLayout(p, mac);
    q := SendChain(p, mac).value;
    assert Delivers(q, q);
    RoundTripIff(p, mac, q);
    assert p.bytes[36] == 0;
  }

  /** Reusing a buffer does not change the outcome: the low nibble the next sender finds decides
      the same way as the one this sender found.  In particular a buffer that started out zeroed is
      dropped by the receiver however often it is reused. */
  lemma ReuseKeepsOutcome(stale: Byte)
    ensures VersionIhl(stale) % 16 == Or(stale % 16, 4)
    ensures VersionIhl(stale) % 16 in {0, 4} <==> stale % 16 in {0, 4}
    ensures VersionIhl(stale) % 16 in {1, 5} <==> stale % 16 in {1, 5}
  {
    assert Pow2(4) == 16;
    IhlReadsBack(stale);
    LowMask(VersionIhl(stale), 4);
    LowIsMod(VersionIhl(stale), 4);
    SetBitTwo(stale % 16);
  }

  // ----- the packet object -----

  class PacketBuffer {
    const data: array<Byte>
    var len: nat
    var offset: nat
    var l2Header: Header
    var l3Header: Header
    var l4Header: Header

    ghost function View(): Packet
      reads this, data
    {
      Packet(data[..], offset, len, l2Header, l3Header, l4Header)
    }

    constructor (size: nat, offset: nat, len: nat)
      ensures data.Length == size && this.offset == offset && this.len == len && fresh(data)
    {
      data := new Byte[size](_ => 0);
      this.offset, this.len := offset, len;
      l2Header, l3Header, l4Header := Header(0, 0), Header(0, 0), Header(0, 0);
    }

    /** Write a header through a pointer into the buffer. */
    method Store(at: nat, patch: seq<Byte>)
      requires at + |patch| <= data.Length
      modifies data
      ensures data[..] == Splice(old(data[..]), at, patch)
    {
      ghost var was := data[..];
      for i := 0 to |patch|
        invariant forall k :: 0 <= k < data.Length ==> data[k] == if at <= k < at + i then patch[k - at] else was[k]
      {
        data[at + i] := patch[i];
      }
    }

    method UdpSenderProcess()
      requires U16Fields(View()) && UdpSend(View()).Some?
      modifies this, data
      ensures Some(View()) == UdpSend(old(View()))
    {
      offset := Sub16(offset, UDP_SIZE);
      l4Header := Header(UDP_SIZE, offset);
      Store(l4Header.offset, UdpBytes(Sub16(len, offset), (data[offset + 6], data[offset + 7])));
    }

    method Ipv4SenderProcess()
      requires U16Fields(View()) && Ipv4Send(View()).Some?
      modifies this, data
      ensures Some(View()) == Ipv4Send(old(View()))
    {
      offset := Sub16(offset, IPV4_SIZE);
      l3Header := Header(IPV4_SIZE, offset);
      Store(l3Header.offset, Ipv4Bytes(data[offset], Sub16(len, offset)));
    }

    method EthSenderProcess()
      requires U16Fields(View()) && EthSend(View()).Some?
      modifies this, data
      ensures Some(View()) == EthSend(old(View()))
    {
      offset := Sub16(offset, ETH_SIZE);
      l2Header := Header(ETH_SIZE, offset);
      Store(l2Header.offset, EthBytes(data[offset + 6..offset + 12]));
    }

    method EthReceiverProcess()
      modifies this
      ensures View() == EthRecv(old(View()))
    {
      l2Header := Header(ETH_SIZE, offset);
      offset := Add16(offset, l2Header.length);
    }

    method Ipv4ReceiverProcess() returns (passed: bool)
      requires offset + IPV4_SIZE <= data.Length
      modifies this
      ensures Some((View(), passed)) == Ipv4Recv(old(View()))
    {
      var ipv4 := offset;
      var ihl := And(data[ipv4], 15);
      l3Header := Header(4 * ihl, offset);
      len := Add16(Word(data[ipv4 + 2], data[ipv4 + 3]), offset);
      offset := Add16(offset, l3Header.length);
      passed := !(ihl < 5 || data[ipv4 + 8] == 0);
    }

    method UdpReceiverProcess()
      modifies this
      ensures View() == UdpRecv(old(View()))
    {
      l4Header := Header(UDP_SIZE, offset);
      offset := Add16(offset, UDP_SIZE);
    }
  }
}
