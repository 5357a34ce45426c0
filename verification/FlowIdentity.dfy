/**
 * The identity of a flow: how a packet's two ends are ordered, and the bytes from which the capture
 * path and the connection tracker each derive a digest. Digests are modelled by what is hashed.
 *
 * Ports are the `uint16_t` values as they are loaded from the packet on a little-endian host.
 */
module FlowIdentity {
  import opened Prelude

  const TCP: byte := 6
  const UDP: byte := 17
  const AF_INET: u16 := 2
  const AF_INET6: u16 := 10

  type Addr = seq<byte>

  datatype Packet = Packet(version: byte, proto: byte, vlan: u16, src: Addr, dst: Addr,
                           sport: u16, dport: u16, smac: seq<byte>, dmac: seq<byte>)

  predicate Sized(version: byte, a: Addr) {
    (version == 4 && |a| == 4) || (version == 6 && |a| == 16)
  }

  predicate WellFormed(p: Packet) {
    Sized(p.version, p.src) && Sized(p.version, p.dst) && |p.smac| == |p.dmac| == 6
  }

  predicate HasPorts(proto: byte) {
    proto == TCP || proto == UDP
  }

  /** What identifies a flow. Only the lower MAC address can be part of it. */
  datatype Key = Key(version: byte, proto: byte, vlan: u16, lower: Addr, upper: Addr,
                     lowerPort: u16, upperPort: u16, lowerMac: seq<byte>)

  predicate WellFormedKey(k: Key) {
    Sized(k.version, k.lower) && Sized(k.version, k.upper) && |k.lowerMac| == 6
  }

  /* ---- ordering the two ends ---- */

  /**
   * The sign that decides which end is the lower one. The IPv6 branch leaves the variable alone when the
   * addresses are equal; `before` is its value then: 0 on the first pass over a packet, and the sign
   * of the outer header's comparison when the packet is re-entered below a GTP header.
   */
  function AddrCmp(p: Packet, before: int): int
    requires WellFormed(p)
  {
    if p.version == 6 && p.src == p.dst then before else MemCmp(p.src, p.dst)
  }

  function Canonical(p: Packet, before: int): (k: Key)
    requires WellFormed(p)
    ensures WellFormedKey(k)
  {
    var cmp := AddrCmp(p, before);
    var srcPortFirst := cmp < 0 || (cmp == 0 && p.sport < p.dport);
    var (lowerPort, upperPort) :=
      if !HasPorts(p.proto) then (0, 0) else if srcPortFirst then (p.sport, p.dport) else (p.dport, p.sport);
    if cmp < 0
    then Key(p.version, p.proto, p.vlan, p.src, p.dst, lowerPort, upperPort, p.smac)
    else Key(p.version, p.proto, p.vlan, p.dst, p.src, lowerPort, upperPort, p.dmac)
  }

  /**
   * Which end is the lower one, on the packet's own fields: the address with the lower byte where the two first
   * differ, with its MAC address and its port. Between equal addresses the destination's MAC address counts as
   * lower, unless the sign of an outer header says otherwise, and the lower port.
   */
  lemma EndsMean(p: Packet, before: int)
    requires WellFormed(p)
    ensures var k := Canonical(p, before);
            && k.version == p.version && k.proto == p.proto && k.vlan == p.vlan
            && ((k.lower, k.upper, k.lowerMac) == (p.src, p.dst, p.smac)
                || (k.lower, k.upper, k.lowerMac) == (p.dst, p.src, p.dmac))
            && (p.src != p.dst ==>
                  exists i :: 0 <= i < |k.lower| && k.lower[..i] == k.upper[..i] && k.lower[i] < k.upper[i])
            && (p.src == p.dst ==> k.lowerMac == if p.version == 6 && before < 0 then p.smac else p.dmac)
            && (k.lowerPort, k.upperPort)
               == if p.proto != 6 && p.proto != 17 then (0, 0)
                  else if p.src != p.dst then (if k.lower == p.src then (p.sport, p.dport) else (p.dport, p.sport))
                  else if (if p.version == 6 && before != 0 then before < 0 else p.sport < p.dport)
                  then (p.sport, p.dport) else (p.dport, p.sport)
  {
    MemCmpMeans(p.src, p.dst);
    MemCmpMeans(p.dst, p.src);
    MemCmpAntisymmetric(p.src, p.dst);
  }

  function Mirror(p: Packet): Packet {
    p.(src := p.dst, dst := p.src, sport := p.dport, dport := p.sport, smac := p.dmac, dmac := p.smac)
  }

  predicate SameEnds(p: Packet, q: Packet) {
    p.src == q.src && p.dst == q.dst && (HasPorts(p.proto) ==> p.sport == q.sport && p.dport == q.dport)
  }

  /** Same network, same protocol, and the same two ends in either direction. */
  predicate SameFlow(p: Packet, q: Packet) {
    p.version == q.version && p.proto == q.proto && p.vlan == q.vlan && (SameEnds(p, q) || SameEnds(p, Mirror(q)))
  }

  predicate SameKeyEnds(k: Key, l: Key) {
    && k.version == l.version && k.proto == l.proto && k.vlan == l.vlan
    && k.lower == l.lower && k.upper == l.upper && k.lowerPort == l.lowerPort && k.upperPort == l.upperPort
  }

  /** Only the ports can tell the ends of such a packet apart, and the sign before it decides about them. */
  predicate PortsDecide(p: Packet) {
    p.version == 6 && p.src == p.dst && HasPorts(p.proto) && p.sport != p.dport
  }

  predicate SourceFirst(p: Packet, before: int) {
    if before == 0 then p.sport < p.dport else before < 0
  }

  /** Whether two packets' signs put the same end first; it matters only when the ports decide. */
  predicate SignsAgree(p: Packet, before: int, q: Packet, before': int) {
    PortsDecide(p) ==> ((SourceFirst(p, before) <==> SourceFirst(q, before')) <==> p.sport == q.sport)
  }

  /**
   * Two packets, each with the sign that it finds, get the same ordered ends if and only if they belong to
   * the same flow and, where only the ports tell the ends apart, the signs agree.
   */
  lemma OrderedEnds(p: Packet, before: int, q: Packet, before': int)
    requires WellFormed(p) && WellFormed(q)
    ensures SameKeyEnds(Canonical(p, before), Canonical(q, before'))
            <==> SameFlow(p, q) && SignsAgree(p, before, q, before')
  {
    MemCmpAntisymmetric(p.src, p.dst);
    if p.version == q.version {
      MemCmpAntisymmetric(q.src, q.dst);
    }
  }

  /** On the first pass the ordered pair of ends is a canonical form of the unordered pair. */
  lemma CanonicalForm(p: Packet, q: Packet)
    requires WellFormed(p) && WellFormed(q)
    ensures SameKeyEnds(Canonical(p, 0), Canonical(q, 0)) <==> SameFlow(p, q)
  {
    OrderedEnds(p, 0, q, 0);
  }

  /* ---- tunnelled packets ---- */

  /** A packet below GTP headers, outermost first; each layer is gone through in turn. */
  datatype Frame = Frame(outer: seq<Packet>, inner: Packet)

  predicate WellFormedFrame(f: Frame) {
    WellFormed(f.inner) && forall i :: 0 <= i < |f.outer| ==> WellFormed(f.outer[i])
  }

  /** The sign that is left when the outer layers have been gone through. */
  function SignLeft(outer: seq<Packet>): int
    requires forall i :: 0 <= i < |outer| ==> WellFormed(outer[i])
  {
    if outer == [] then 0 else AddrCmp(outer[|outer| - 1], SignLeft(outer[..|outer| - 1]))
  }

  function FrameKey(f: Frame): (k: Key)
    requires WellFormedFrame(f)
    ensures WellFormedKey(k)
  {
    Canonical(f.inner, SignLeft(f.outer))
  }

  /** The same frame on its way back: every layer has its ends exchanged. */
  function MirrorFrame(f: Frame): (r: Frame)
    requires WellFormedFrame(f)
    ensures WellFormedFrame(r)
  {
    Frame(seq(|f.outer|, i requires 0 <= i < |f.outer| => Mirror(f.outer[i])), Mirror(f.inner))
  }

  lemma {:induction false} MirrorSign(outer: seq<Packet>, back: seq<Packet>)
    requires |outer| == |back|
    requires forall i :: 0 <= i < |outer| ==> WellFormed(outer[i]) && WellFormed(back[i]) && back[i] == Mirror(outer[i])
    ensures SignLeft(back) == -SignLeft(outer)
  {
    if outer != [] {
      var n := |outer| - 1;
      MirrorSign(outer[..n], back[..n]);
      MemCmpAntisymmetric(outer[n].src, outer[n].dst);
    }
  }

  /** Two frames get the same key ends if and only if their inner packets belong to one flow and the signs agree. */
  lemma SameFrameEnds(f: Frame, g: Frame)
    requires WellFormedFrame(f) && WellFormedFrame(g)
    ensures SameKeyEnds(FrameKey(f), FrameKey(g))
            <==> SameFlow(f.inner, g.inner) && SignsAgree(f.inner, SignLeft(f.outer), g.inner, SignLeft(g.outer))
  {
    OrderedEnds(f.inner, SignLeft(f.outer), g.inner, SignLeft(g.outer));
  }

  /** A frame and its mirror image always get the same key ends, however deep the tunnel. */
  lemma MirroredFrame(f: Frame)
    requires WellFormedFrame(f)
    ensures SameKeyEnds(FrameKey(f), FrameKey(MirrorFrame(f)))
  {
    MirrorSign(f.outer, MirrorFrame(f).outer);
    SameFrameEnds(f, MirrorFrame(f));
  }

  /**
   * One inner packet inside tunnels of opposite directions gets two keys, and so do both directions of an
   * inner flow inside tunnels of the same direction, exactly when only its ports tell its ends apart.
   */
  lemma TunnelSplits(f: Frame, outer: seq<Packet>)
    requires WellFormedFrame(f) && WellFormedFrame(Frame(outer, f.inner))
    requires SignLeft(f.outer) * SignLeft(outer) < 0
    ensures SameKeyEnds(FrameKey(f), FrameKey(Frame(outer, f.inner))) <==> !PortsDecide(f.inner)
    ensures SameKeyEnds(FrameKey(f), FrameKey(Frame(f.outer, Mirror(f.inner)))) <==> !PortsDecide(f.inner)
  {
    OppositeSigns(SignLeft(f.outer), SignLeft(outer));
    SameFrameEnds(f, Frame(outer, f.inner));
    SameFrameEnds(f, Frame(f.outer, Mirror(f.inner)));
  }

  lemma OppositeSigns(a: int, b: int)
    requires a * b < 0
    ensures (a < 0 && 0 < b) || (b < 0 && 0 < a)
  {
  }

  const LOCALHOST: Addr := [0, 0, 0, 0, 0, 0, 0, 0, 0, 0, 0, 0, 0, 0, 0, 1]

  /** Such a packet: the same datagram from an IPv6 address to itself inside either direction of an IPv4 tunnel. */
  lemma TunnelSplitsExample()
    ensures var inner := Packet(6, UDP, 0, LOCALHOST, LOCALHOST, 1, 2, [0, 0, 0, 0, 0, 0], [0, 0, 0, 0, 0, 0]);
            var out := Packet(4, UDP, 0, [10, 0, 0, 1], [10, 0, 0, 2], 1, 2, [0, 0, 0, 0, 0, 0], [0, 0, 0, 0, 0, 0]);
            && WellFormedFrame(Frame([out], inner)) && WellFormedFrame(Frame([Mirror(out)], inner))
            && !SameKeyEnds(FrameKey(Frame([out], inner)), FrameKey(Frame([Mirror(out)], inner)))
  {
    var inner := Packet(6, UDP, 0, LOCALHOST, LOCALHOST, 1, 2, [0, 0, 0, 0, 0, 0], [0, 0, 0, 0, 0, 0]);
    var out := Packet(4, UDP, 0, [10, 0, 0, 1], [10, 0, 0, 2], 1, 2, [0, 0, 0, 0, 0, 0], [0, 0, 0, 0, 0, 0]);
    var a, b: Addr := [10, 0, 0, 1], [10, 0, 0, 2];
    MemCmpSplit(a, b, 3);
    assert a[..3] == b[..3] && a[3..] == [1] && b[3..] == [2];
    MemCmpAntisymmetric(a, b);
    OneLayer(out);
    OneLayer(Mirror(out));
    TunnelSplits(Frame([out], inner), [Mirror(out)]);
  }

  lemma OneLayer(p: Packet)
    requires WellFormed(p)
    ensures SignLeft([p]) == AddrCmp(p, 0)
  {
    assert [p][..0] == [];
  }

  /* ---- what is hashed ---- */

  const UNSPECIFIED: Addr := [0, 0, 0, 0]
  const EVERYONE: Addr := [255, 255, 255, 255]

  /** The limited broadcast from the unspecified address, as DHCPv4 clients send it. */
  predicate Broadcast(k: Key) {
    k.version == 4 && k.lower == UNSPECIFIED && k.upper == EVERYONE
  }

  /** The same of a packet, in either direction. */
  predicate Broadcasts(p: Packet) {
    p.version == 4 && ((p.src == UNSPECIFIED && p.dst == EVERYONE) || (p.dst == UNSPECIFIED && p.src == EVERYONE))
  }

  /** The MAC address of the end without an address. */
  function ClientMac(p: Packet): seq<byte> {
    if p.src == UNSPECIFIED then p.smac else p.dmac
  }

  lemma BroadcastEnds(p: Packet, before: int)
    requires WellFormed(p)
    ensures Broadcast(Canonical(p, before)) <==> Broadcasts(p)
    ensures Broadcasts(p) ==> Canonical(p, before).lowerMac == ClientMac(p)
  {
    if Broadcasts(p) {
      assert p.src[0] != p.dst[0];
      if p.src[0] == 0 {
        assert MemCmp(p.src, p.dst) == -1 && p.src == UNSPECIFIED;
      } else {
        assert MemCmp(p.src, p.dst) == 1 && p.dst == UNSPECIFIED && p.src != UNSPECIFIED;
      }
    } else {
      NoBroadcast(p, Canonical(p, before));
    }
  }

  lemma NoBroadcast(p: Packet, k: Key)
    requires !Broadcasts(p) && k.version == p.version
    requires (k.lower == p.src && k.upper == p.dst) || (k.lower == p.dst && k.upper == p.src)
    ensures !Broadcast(k)
  {
  }

  function PortBytes(k: Key): seq<byte> {
    ToLE(k.lowerPort, 2) + ToLE(k.upperPort, 2)
  }

  function Head(k: Key): seq<byte> {
    [k.version] + [k.proto] + ToLE(k.vlan, 2)
  }

  function Body(k: Key): seq<byte> {
    k.lower + (k.upper + ((if Broadcast(k) then k.lowerMac else []) + PortBytes(k)))
  }

  function Preimage(device: seq<byte>, k: Key): seq<byte> {
    device + (Head(k) + Body(k))
  }

  /** Where everything stands in the hashed bytes; numbers are in the host's order, lowest byte first. */
  lemma PreimageBytes(device: seq<byte>, k: Key)
    requires WellFormedKey(k)
    ensures var s, at, n := Preimage(device, k), |device|, |k.lower|;
            var mac := at + 4 + 2 * n;
            var ports := if Broadcast(k) then mac + 6 else mac;
            && |s| == ports + 4 && s[..at] == device
            && s[at..at + 4] == [k.version, k.proto, k.vlan % 256, k.vlan / 256]
            && s[at + 4..at + 4 + n] == k.lower && s[at + 4 + n..mac] == k.upper
            && (Broadcast(k) ==> s[mac..ports] == k.lowerMac)
            && s[ports..] == [k.lowerPort % 256, k.lowerPort / 256, k.upperPort % 256, k.upperPort / 256]
  {
    TwoBytes(k.vlan);
    TwoBytes(k.lowerPort);
    TwoBytes(k.upperPort);
  }

  lemma TwoBytes(n: u16)
    ensures ToLE(n, 2) == [n % 256, n / 256]
  {
    assert ToLE(n / 256, 1) == [n / 256 % 256] + ToLE(n / 256 / 256, 0);
  }

  lemma ConcatInjective(a: seq<byte>, b: seq<byte>, c: seq<byte>, d: seq<byte>)
    requires |a| == |c|
    ensures a + b == c + d <==> a == c && b == d
  {
    assert a == (a + b)[..|a|] && b == (a + b)[|a|..];
    assert c == (c + d)[..|a|] && d == (c + d)[|a|..];
  }

  lemma PortBytesInjective(k: Key, l: Key)
    ensures PortBytes(k) == PortBytes(l) <==> k.lowerPort == l.lowerPort && k.upperPort == l.upperPort
  {
    ConcatInjective(ToLE(k.lowerPort, 2), ToLE(k.upperPort, 2), ToLE(l.lowerPort, 2), ToLE(l.upperPort, 2));
    ToLEInjective(k.lowerPort, l.lowerPort);
    ToLEInjective(k.upperPort, l.upperPort);
  }

  lemma HeadInjective(k: Key, l: Key)
    ensures Head(k) == Head(l) <==> k.version == l.version && k.proto == l.proto && k.vlan == l.vlan
  {
    ConcatInjective([k.version] + [k.proto], ToLE(k.vlan, 2), [l.version] + [l.proto], ToLE(l.vlan, 2));
    ConcatInjective([k.version], [k.proto], [l.version], [l.proto]);
    ToLEInjective(k.vlan, l.vlan);
  }

  lemma BodyInjective(k: Key, l: Key)
    requires WellFormedKey(k) && WellFormedKey(l) && k.version == l.version
    ensures Body(k) == Body(l)
            <==> k.lower == l.lower && k.upper == l.upper && PortBytes(k) == PortBytes(l)
                 && (Broadcast(k) ==> k.lowerMac == l.lowerMac)
  {
    var macK, macL := if Broadcast(k) then k.lowerMac else [], if Broadcast(l) then l.lowerMac else [];
    ConcatInjective(k.lower, k.upper + (macK + PortBytes(k)), l.lower, l.upper + (macL + PortBytes(l)));
    ConcatInjective(k.upper, macK + PortBytes(k), l.upper, macL + PortBytes(l));
    if k.lower == l.lower && k.upper == l.upper {
      ConcatInjective(macK, PortBytes(k), macL, PortBytes(l));
    }
  }

  /** For one device the hashed bytes determine the key, and nothing else goes into them. */
  lemma PreimageInjective(device: seq<byte>, k: Key, l: Key)
    requires WellFormedKey(k) && WellFormedKey(l)
    ensures Preimage(device, k) == Preimage(device, l)
            <==> SameKeyEnds(k, l) && (Broadcast(k) ==> k.lowerMac == l.lowerMac)
  {
    ConcatInjective(device, Head(k) + Body(k), device, Head(l) + Body(l));
    ConcatInjective(Head(k), Body(k), Head(l), Body(l));
    HeadInjective(k, l);
    if k.version == l.version {
      BodyInjective(k, l);
      PortBytesInjective(k, l);
    }
  }

  /**
   * Two frames seen on one device hash alike exactly when their inner packets belong to the same flow under
   * agreeing signs and, for the limited broadcast, the same MAC address is that of the end without an address.
   */
  lemma SameHashSameFrame(device: seq<byte>, f: Frame, g: Frame)
    requires WellFormedFrame(f) && WellFormedFrame(g)
    ensures Preimage(device, FrameKey(f)) == Preimage(device, FrameKey(g))
            <==> && SameFlow(f.inner, g.inner) && SignsAgree(f.inner, SignLeft(f.outer), g.inner, SignLeft(g.outer))
                 && (Broadcasts(f.inner) ==> ClientMac(f.inner) == ClientMac(g.inner))
  {
    SameFrameEnds(f, g);
    BroadcastEnds(f.inner, SignLeft(f.outer));
    BroadcastEnds(g.inner, SignLeft(g.outer));
    PreimageInjective(device, FrameKey(f), FrameKey(g));
  }

  /** The same without a tunnel. */
  lemma SameHashSameFlow(device: seq<byte>, p: Packet, q: Packet)
    requires WellFormed(p) && WellFormed(q)
    ensures Preimage(device, Canonical(p, 0)) == Preimage(device, Canonical(q, 0))
            <==> SameFlow(p, q) && (Broadcasts(p) ==> ClientMac(p) == ClientMac(q))
  {
    CanonicalForm(p, q);
    BroadcastEnds(p, 0);
    BroadcastEnds(q, 0);
    PreimageInjective(device, Canonical(p, 0), Canonical(q, 0));
  }

  /** Two clients that have no address yet are told apart by their own MAC addresses, and by nothing else. */
  lemma ClientsToldApart(device: seq<byte>, p: Packet, q: Packet)
    requires WellFormed(p) && WellFormed(q) && p.version == q.version == 4
    requires p.src == q.src == [0, 0, 0, 0] && p.dst == q.dst == [255, 255, 255, 255]
    ensures Preimage(device, Canonical(p, 0)) == Preimage(device, Canonical(q, 0))
            <==> SameFlow(p, q) && p.smac == q.smac
  {
    SameHashSameFlow(device, p, q);
  }

  /** Another port makes another flow of TCP and UDP, and of no other protocol. */
  lemma PortsMatter(device: seq<byte>, p: Packet, sport: u16)
    requires WellFormed(p) && sport != p.sport
    ensures Preimage(device, Canonical(p, 0)) == Preimage(device, Canonical(p.(sport := sport), 0))
            <==> p.proto != 6 && p.proto != 17
  {
    SameHashSameFlow(device, p, p.(sport := sport));
  }

  /* ---- the capture thread's flow object ---- */

  lemma NextWord(src: Addr, dst: Addr, i: nat)
    requires |src| == |dst| == 16 && i < 4 && src[..4 * i] == dst[..4 * i]
    ensures var cmp := MemCmp(src[4 * i..4 * i + 4], dst[4 * i..4 * i + 4]);
            if cmp == 0 then src[..4 * (i + 1)] == dst[..4 * (i + 1)] else cmp == MemCmp(src, dst)
    ensures i == 3 && src != dst ==> MemCmp(src[12..], dst[12..]) != 0
  {
    var a, b := src[4 * i..4 * i + 4], dst[4 * i..4 * i + 4];
    MemCmpSplit(src, dst, 4 * i);
    MemCmpSplit(src[4 * i..], dst[4 * i..], 4);
    WordAt(src, i);
    WordAt(dst, i);
  }

  lemma WordAt(a: Addr, i: nat)
    requires |a| == 16 && i < 4
    ensures a[4 * i..][..4] == a[4 * i..4 * i + 4]
    ensures a[..4 * (i + 1)] == a[..4 * i] + a[4 * i..4 * i + 4]
    ensures a == a[..4 * i] + a[4 * i..]
  {
  }

  class Flow {
    var ipVersion: byte
    var ipProtocol: byte
    var vlanId: u16
    var lowerAddr: Addr
    var upperAddr: Addr
    var lowerPort: u16
    var upperPort: u16
    var lowerMac: seq<byte>
    var upperMac: seq<byte>

    function View(): Key
      reads this
    {
      Key(ipVersion, ipProtocol, vlanId, lowerAddr, upperAddr, lowerPort, upperPort, lowerMac)
    }

    constructor ()
    {
      ipVersion, ipProtocol, vlanId := 0, 0, 0;
      lowerAddr, upperAddr, lowerPort, upperPort := [], [], 0, 0;
      lowerMac, upperMac := [], [];
    }

    /** The word-by-word comparison of two different IPv6 addresses: at most four rounds. */
    method CompareWords(src: Addr, dst: Addr) returns (cmp: int)
      requires |src| == |dst| == 16 && src != dst
      ensures cmp == MemCmp(src, dst) != 0
    {
      var i := 0;
      cmp := 0;
      while cmp == 0
        invariant i < 4 || cmp != 0
        invariant if cmp == 0 then src[..4 * i] == dst[..4 * i] else cmp == MemCmp(src, dst)
        decreases if cmp == 0 then 5 - i else 0
      {
        cmp := MemCmp(src[4 * i..4 * i + 4], dst[4 * i..4 * i + 4]);
        NextWord(src, dst, i);
        i := i + 1;
      }
    }

    /** An Ethernet frame. The addresses come first, and setting them clears the ports. */
    method OrderEnds(p: Packet, before: int) returns (addrCmp: int)
      requires WellFormed(p)
      modifies this
      ensures View() == Canonical(p, before) && addrCmp == AddrCmp(p, before)
      ensures upperMac == if addrCmp < 0 then p.dmac else p.smac
    {
      ipVersion, ipProtocol, vlanId := p.version, p.proto, p.vlan;
      addrCmp := before;
      if p.version == 4 {
        addrCmp := MemCmp(p.src, p.dst);
      } else if p.src != p.dst {
        addrCmp := CompareWords(p.src, p.dst);
      }
      if addrCmp < 0 {
        lowerAddr, upperAddr := p.src, p.dst;
        lowerMac, upperMac := p.smac, p.dmac;
      } else {
        lowerAddr, upperAddr := p.dst, p.src;
        lowerMac, upperMac := p.dmac, p.smac;
      }
      lowerPort, upperPort := 0, 0;
      if HasPorts(p.proto) {
        if addrCmp < 0 {
          lowerPort := p.sport;
          upperPort := p.dport;
        } else if addrCmp > 0 {
          lowerPort := p.dport;
          upperPort := p.sport;
        } else if p.sport < p.dport {
          lowerPort := p.sport;
          upperPort := p.dport;
        } else {
          lowerPort := p.dport;
          upperPort := p.sport;
        }
      }
    }

    /** Every GTP header sends the packet below it through the ordering again, with the sign that is there. */
    method OrderFrame(f: Frame) returns (addrCmp: int)
      requires WellFormedFrame(f)
      modifies this
      ensures View() == FrameKey(f)
      ensures addrCmp == AddrCmp(f.inner, SignLeft(f.outer))
    {
      addrCmp := 0;
      var i := 0;
      while i < |f.outer|
        invariant i <= |f.outer| && addrCmp == SignLeft(f.outer[..i])
      {
        assert f.outer[..i + 1][..i] == f.outer[..i];
        addrCmp := OrderEnds(f.outer[i], addrCmp);
        i := i + 1;
      }
      assert f.outer[..i] == f.outer;
      addrCmp := OrderEnds(f.inner, addrCmp);
    }

    /** The running context of the hash. */
    method Hash(device: seq<byte>) returns (ctx: seq<byte>)
      requires WellFormedKey(View())
      ensures ctx == Preimage(device, View())
    {
      ctx := device;
      ctx := ctx + [ipVersion];
      ctx := ctx + [ipProtocol];
      ctx := ctx + ToLE(vlanId, 2);
      assert ctx == device + Head(View());
      ctx := ctx + lowerAddr;
      ctx := ctx + upperAddr;
      if ipVersion == 4 && FromLE(lowerAddr) == 0 && FromLE(upperAddr) == 0xffff_ffff {
        ctx := ctx + lowerMac;
      }
      if ipVersion == 4 {
        WordIs(lowerAddr, 0);
        WordIs(upperAddr, 0xffff_ffff);
      }
      ghost var mac := if Broadcast(View()) then lowerMac else [];
      assert ctx == device + Head(View()) + lowerAddr + upperAddr + mac;
      ctx := ctx + ToLE(lowerPort, 2);
      ctx := ctx + ToLE(upperPort, 2);
      ConcatAll(device, Head(View()), lowerAddr, upperAddr, mac, ToLE(lowerPort, 2), ToLE(upperPort, 2));
    }
  }

  lemma ConcatAll(a: seq<byte>, b: seq<byte>, c: seq<byte>, d: seq<byte>, e: seq<byte>, f: seq<byte>, g: seq<byte>)
    ensures a + b + c + d + e + f + g == a + (b + (c + (d + (e + (f + g)))))
  {
  }

  lemma WordIs(a: Addr, w: u32)
    requires |a| == 4 && (w == 0 || w == 0xffff_ffff)
    ensures FromLE(a) == w <==> a == if w == 0 then [0, 0, 0, 0] else [255, 255, 255, 255]
  {
    var a0: int, a1: int, a2: int, a3: int := a[0], a[1], a[2], a[3];
    assert a[3..][1..] == [] && a[2..][1..] == a[3..] && a[1..][1..] == a[2..];
    assert FromLE(a[3..]) == a3;
    assert FromLE(a[2..]) == a2 + 256 * a3;
    assert FromLE(a[1..]) == a1 + 256 * (a2 + 256 * a3);
  }

  /* ---- the connection tracker ---- */

  /** A tracked connection; a reply address is None when the kernel did not supply it. */
  datatype Entry = Entry(family: u16, proto: byte, origSrc: Addr, origDst: Addr,
                         replSrc: Option<Addr>, replDst: Option<Addr>, replSport: u16, replDport: u16)

  function Version(family: u16): byte {
    if family == AF_INET then 4 else 6
  }

  function Family(version: byte): u16 {
    if version == 4 then AF_INET else AF_INET6
  }

  predicate WellFormedEntry(e: Entry) {
    && (e.family == AF_INET || e.family == AF_INET6)
    && Sized(Version(e.family), e.origSrc) && Sized(Version(e.family), e.origDst)
    && (e.replSrc.Some? ==> Sized(Version(e.family), e.replSrc.value))
    && (e.replDst.Some? ==> Sized(Version(e.family), e.replDst.value))
  }

  function Src(e: Entry): Addr {
    if e.replSrc.Some? then e.replSrc.value else e.origSrc
  }

  function Dst(e: Entry): Addr {
    if e.replDst.Some? then e.replDst.value else e.origDst
  }

  /** The bytes hashed for a tracked connection. */
  method HashEntry(e: Entry) returns (ctx: seq<byte>)
    requires WellFormedEntry(e)
    ensures ctx == EntryPreimage(e)
  {
    var src, dst := if e.replSrc.Some? then e.replSrc.value else e.origSrc,
                    if e.replDst.Some? then e.replDst.value else e.origDst;
    ctx := ToLE(e.family, 2);
    ctx := ctx + [e.proto];
    var addrCmp := MemCmp(src, dst);
    if addrCmp < 0 {
      ctx := ctx + src;
      ctx := ctx + dst;
      ctx := ctx + ToLE(e.replSport, 2);
      ctx := ctx + ToLE(e.replDport, 2);
    } else {
      ctx := ctx + dst;
      ctx := ctx + src;
      ctx := ctx + ToLE(e.replDport, 2);
      ctx := ctx + ToLE(e.replSport, 2);
    }
  }

  function EntryPreimage(e: Entry): seq<byte>
    requires WellFormedEntry(e)
  {
    var (lower, upper, lowerPort, upperPort) :=
      if MemCmp(Src(e), Dst(e)) < 0 then (Src(e), Dst(e), e.replSport, e.replDport)
      else (Dst(e), Src(e), e.replDport, e.replSport);
    ToLE(e.family, 2) + [e.proto] + lower + upper + ToLE(lowerPort, 2) + ToLE(upperPort, 2)
  }

  /** The bytes hashed to find the connection of a flow. */
  function FlowPreimage(k: Key): seq<byte> {
    ToLE(Family(k.version), 2) + [k.proto] + k.lower + k.upper + ToLE(k.lowerPort, 2) + ToLE(k.upperPort, 2)
  }

  /** A packet in the direction of the hashed tuple. */
  function TuplePacket(e: Entry, vlan: u16, smac: seq<byte>, dmac: seq<byte>): Packet {
    Packet(if e.family == 2 then 4 else 6, e.proto, vlan,
           if e.replSrc.Some? then e.replSrc.value else e.origSrc,
           if e.replDst.Some? then e.replDst.value else e.origDst, e.replSport, e.replDport, smac, dmac)
  }

  /** An entry's key, as its hash orders it. */
  function EntryKey(e: Entry): (k: Key)
    requires WellFormedEntry(e)
    ensures WellFormedKey(k)
  {
    var zero := [0, 0, 0, 0, 0, 0];
    if MemCmp(Src(e), Dst(e)) < 0
    then Key(Version(e.family), e.proto, 0, Src(e), Dst(e), e.replSport, e.replDport, zero)
    else Key(Version(e.family), e.proto, 0, Dst(e), Src(e), e.replDport, e.replSport, zero)
  }

  /** The tracker's bytes determine everything of a key but the VLAN and the MAC addresses. */
  lemma FlowPreimageInjective(k: Key, l: Key)
    requires WellFormedKey(k) && WellFormedKey(l)
    ensures FlowPreimage(k) == FlowPreimage(l) <==> SameKeyEnds(k, l.(vlan := k.vlan))
  {
    var fk, fl := ToLE(Family(k.version), 2), ToLE(Family(l.version), 2);
    ToLEInjective(Family(k.version), Family(l.version));
    FlowPreimageNested(k);
    FlowPreimageNested(l);
    ConcatInjective(fk, [k.proto] + (k.lower + (k.upper + PortBytes(k))),
                    fl, [l.proto] + (l.lower + (l.upper + PortBytes(l))));
    ConcatInjective([k.proto], k.lower + (k.upper + PortBytes(k)), [l.proto], l.lower + (l.upper + PortBytes(l)));
    if k.version == l.version {
      ConcatInjective(k.lower, k.upper + PortBytes(k), l.lower, l.upper + PortBytes(l));
      ConcatInjective(k.upper, PortBytes(k), l.upper, PortBytes(l));
      PortBytesInjective(k, l);
    }
  }

  lemma FlowPreimageNested(k: Key)
    ensures FlowPreimage(k) == ToLE(Family(k.version), 2) + ([k.proto] + (k.lower + (k.upper + PortBytes(k))))
  {
    ConcatAll([], ToLE(Family(k.version), 2), [k.proto], k.lower, k.upper, ToLE(k.lowerPort, 2), ToLE(k.upperPort, 2));
    assert [] + ToLE(Family(k.version), 2) == ToLE(Family(k.version), 2);
  }

  /** `UpdateFlow` uses an entry only if its digest is the flow's and the kernel supplied both reply addresses. */
  predicate Finds(k: Key, e: Entry)
    requires WellFormedEntry(e)
  {
    FlowPreimage(k) == EntryPreimage(e) && e.replSrc.Some? && e.replDst.Some?
  }

  /**
   * The sign under which the capture path would order the tuple as the entry's hash does. Between equal
   * addresses that hash always puts the destination's port first.
   */
  predicate OrderAgrees(e: Entry, p: Packet, before: int) {
    if !HasPorts(e.proto) then e.replSport == 0 && e.replDport == 0
    else if Src(e) != Dst(e) || e.replSport == e.replDport then true
    else if e.family == AF_INET || before == 0 then e.replDport < e.replSport
    else SourceFirst(p, before) <==> p.sport == e.replDport
  }

  /**
   * The tracker finds an entry exactly for the packets of its tuple, in either direction, of a complete entry
   * that is hashed as the packet is: with equal addresses the ports must be in that order already, and a
   * protocol without ports in the capture path must have none in the entry.
   */
  lemma TrackerFindsExactly(e: Entry, p: Packet, before: int)
    requires WellFormedEntry(e) && WellFormed(p)
    ensures Finds(Canonical(p, before), e)
            <==> && e.replSrc.Some? && e.replDst.Some?
                 && SameFlow(p, TuplePacket(e, p.vlan, p.smac, p.dmac)) && OrderAgrees(e, p, before)
  {
    var k, l := Canonical(p, before), EntryKey(e);
    assert EntryPreimage(e) == FlowPreimage(l);
    FlowPreimageInjective(k, l);
    MemCmpAntisymmetric(p.src, p.dst);
    MemCmpAntisymmetric(Src(e), Dst(e));
  }

  /** On the first pass, and for protocols with ports, only equal addresses are in the way. */
  lemma TrackerAgrees(e: Entry, p: Packet)
    requires WellFormedEntry(e) && e.replSrc.Some? && e.replDst.Some?
    requires WellFormed(p) && SameFlow(p, TuplePacket(e, p.vlan, p.smac, p.dmac))
    ensures Finds(Canonical(p, 0), e)
            <==> if HasPorts(e.proto) then Src(e) != Dst(e) || e.replDport <= e.replSport
                 else e.replSport == 0 && e.replDport == 0
  {
    TrackerFindsExactly(e, p, 0);
  }

  const SCTP: byte := 132

  /** A tracked SCTP connection, whose entry has ports, is never found. */
  lemma TrackerMissesSctp(e: Entry, p: Packet, before: int)
    requires WellFormedEntry(e) && WellFormed(p) && e.proto == SCTP && e.replSport != 0
    ensures !Finds(Canonical(p, before), e)
  {
    TrackerFindsExactly(e, p, before);
  }
}
