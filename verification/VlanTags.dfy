/**
 * VLAN tags: the capture thread puts back, in the ring's own memory, the tag that the kernel has taken
 * out of a frame; the packet walk takes tags off again.
 */
module VlanTags {
  import opened Prelude

  const ETHERTYPE_VLAN: u16 := 0x8100
  const ETHER_HEADER: nat := 14
  const VLAN_OFFSET: nat := 12  // two MAC addresses
  const VLAN_TAG_LEN: nat := 4

  /** The fields of a ring entry's header that the copy looks at. */
  datatype Header = Header(
    mac: nat,         // where the frame starts
    len: nat,
    snaplen: nat,
    tci: u32,
    tpid: u16,
    vlanValid: bool,
    tpidValid: bool)

  datatype Packet = Packet(tagRestored: bool, length: nat, data: seq<byte>)

  function BigEndian(n: u16): (s: seq<byte>)
    ensures |s| == 2
  {
    [n / 256, n % 256]
  }

  function FromBigEndian(high: byte, low: byte): u16 {
    high * 256 + low
  }

  predicate HasTag(h: Header) {
    (h.tci != 0 || h.vlanValid) && h.snaplen >= VLAN_OFFSET
  }

  function Tpid(h: Header): u16 {
    if h.tpid != 0 && h.tpidValid then h.tpid else ETHERTYPE_VLAN
  }

  /** The tag in network byte order; of the tag control information 16 bits remain. */
  function Tag(h: Header): (s: seq<byte>)
    ensures |s| == VLAN_TAG_LEN
  {
    BigEndian(Tpid(h)) + BigEndian(h.tci % 0x1_0000)
  }

  /** The frame as it was on the wire. */
  function Restored(h: Header, frame: seq<byte>): seq<byte>
    requires |frame| == h.snaplen
  {
    if HasTag(h) then frame[..VLAN_OFFSET] + Tag(h) + frame[VLAN_OFFSET..] else frame
  }

  /** Byte by byte: twelve bytes of the frame, protocol and control information with the high bytes first, the rest. */
  lemma RestoredBytes(h: Header, frame: seq<byte>, i: nat)
    requires |frame| == h.snaplen && i < |Restored(h, frame)|
    ensures var protocol := if h.tpid != 0 && h.tpidValid then h.tpid else 0x8100;
            var tagged := (h.tci != 0 || h.vlanValid) && h.snaplen >= 12;
            && HasTag(h) == tagged && Growth(h) == (if tagged then 4 else 0)
            && |Restored(h, frame)| == h.snaplen + Growth(h)
            && Restored(h, frame)[i]
               == if !tagged || i < 12 then frame[i]
                  else if i == 12 then protocol / 256 else if i == 13 then protocol % 256
                  else if i == 14 then h.tci / 256 % 256 else if i == 15 then h.tci % 256
                  else frame[i - 4]
  {
    if HasTag(h) {
      LowBytes(h.tci);
      assert Restored(h, frame)[12..16] == Tag(h);
      assert 12 <= i < 16 ==> Restored(h, frame)[i] == Restored(h, frame)[12..16][i - 12];
    }
  }

  lemma LowBytes(n: nat)
    ensures n % 0x1_0000 / 256 == n / 256 % 256 && n % 0x1_0000 % 256 == n % 256
  {
    var q, r := n / 0x1_0000, n % 0x1_0000;
    var a, b := r / 256, r % 256;
    ByteQuotient(r, a, b);
    ByteQuotient(n, 256 * q + a, b);
    ByteQuotient(256 * q + a, q, a);
  }

  lemma ByteQuotient(n: nat, q: nat, r: nat)
    requires n == 256 * q + r && r < 256
    ensures n / 256 == q && n % 256 == r
  {
  }

  function Growth(h: Header): nat {
    if HasTag(h) then VLAN_TAG_LEN else 0
  }

  /** The bytes after `i` of them have been moved. */
  function Moved(was: seq<byte>, to: nat, from: nat, i: nat): seq<byte>
    requires to <= from && from + i <= |was|
  {
    was[..to] + was[from..from + i] + was[to + i..]
  }

  lemma MoveOne(was: seq<byte>, to: nat, from: nat, i: nat)
    requires to <= from && from + i < |was|
    ensures |Moved(was, to, from, i)| == |was| && Moved(was, to, from, i)[from + i] == was[from + i]
    ensures Moved(was, to, from, i)[to + i := was[from + i]] == Moved(was, to, from, i + 1)
  {
  }

  /** `memmove` towards lower addresses. */
  method MoveDown(memory: array<byte>, to: nat, from: nat, n: nat)
    requires to <= from && from + n <= memory.Length
    modifies memory
    ensures memory[..] == Moved(old(memory[..]), to, from, n)
  {
    ghost var was := memory[..];
    var i := 0;
    while i < n
      invariant i <= n && memory[..] == Moved(was, to, from, i)
    {
      MoveOne(was, to, from, i);
      assert memory[from + i] == memory[..][from + i];
      memory[to + i] := memory[from + i];
      i := i + 1;
    }
  }

  method StoreTag(memory: array<byte>, at: nat, tpid: u16, tci: u16)
    requires at + VLAN_TAG_LEN <= memory.Length
    modifies memory
    ensures memory[..] == old(memory[..at]) + (BigEndian(tpid) + BigEndian(tci)) + old(memory[at + VLAN_TAG_LEN..])
  {
    memory[at], memory[at + 1] := tpid / 256, tpid % 256;
    memory[at + 2], memory[at + 3] := tci / 256, tci % 256;
  }

  /** Puts the tag back between the addresses, moved down, and the rest of the frame, which stays. */
  method RestoreTag(entry: array<byte>, h: Header)
    requires VLAN_TAG_LEN <= h.mac && h.mac + h.snaplen <= entry.Length && HasTag(h)
    modifies entry
    ensures entry[..] == old(entry[..h.mac - VLAN_TAG_LEN]) + Restored(h, old(entry[h.mac..h.mac + h.snaplen]))
                         + old(entry[h.mac + h.snaplen..])
  {
    ghost var was := entry[..];
    var data := h.mac - VLAN_TAG_LEN;
    MoveDown(entry, data, data + VLAN_TAG_LEN, VLAN_OFFSET);
    ghost var moved := entry[..];
    var tpid := if h.tpid != 0 && h.tpidValid then h.tpid else ETHERTYPE_VLAN;
    var tci := h.tci % 0x1_0000;
    StoreTag(entry, data + VLAN_OFFSET, tpid, tci);
    TagRestored(was, moved, entry[..], h);
  }

  lemma TagRestored(was: seq<byte>, moved: seq<byte>, now: seq<byte>, h: Header)
    requires VLAN_TAG_LEN <= h.mac && h.mac + h.snaplen <= |was| && HasTag(h)
    requires moved == was[..h.mac - 4] + was[h.mac..h.mac + 12] + was[h.mac + 8..]
    requires now == moved[..h.mac + 8] + Tag(h) + moved[h.mac + 12..]
    ensures now == was[..h.mac - 4] + Restored(h, was[h.mac..h.mac + h.snaplen]) + was[h.mac + h.snaplen..]
  {
    assert moved[..h.mac + 8] == was[..h.mac - 4] + was[h.mac..h.mac + 12];
    assert moved[h.mac + 12..] == was[h.mac + 12..];
    assert was[h.mac + 12..] == was[h.mac + 12..h.mac + h.snaplen] + was[h.mac + h.snaplen..];
    assert was[h.mac..h.mac + h.snaplen][..12] == was[h.mac..h.mac + 12];
    assert was[h.mac..h.mac + h.snaplen][12..] == was[h.mac + 12..h.mac + h.snaplen];
  }

  /** Puts the tag back if there is one; says where the frame starts then, and how many bytes it has gained. */
  method Prepare(entry: array<byte>, h: Header) returns (data: nat, grown: nat)
    requires VLAN_TAG_LEN <= h.mac && h.mac + h.snaplen <= entry.Length
    modifies entry
    ensures grown == Growth(h) && data == h.mac - grown
    ensures entry[..] == old(entry[..h.mac - Growth(h)]) + Restored(h, old(entry[h.mac..h.mac + h.snaplen]))
                         + old(entry[h.mac + h.snaplen..])
  {
    data, grown := h.mac, 0;
    assert entry[..] == entry[..h.mac] + entry[h.mac..h.mac + h.snaplen] + entry[h.mac + h.snaplen..];
    if (h.tci != 0 || h.vlanValid) && h.snaplen >= VLAN_OFFSET {
      RestoreTag(entry, h);
      data, grown := data - VLAN_TAG_LEN, VLAN_TAG_LEN;
    }
  }

  /**
   * Copies a packet out of a ring entry, unless the filter drops it. The entry has room for a tag before
   * the frame, and is changed nowhere else than in that room and in the frame's first twelve bytes.
   */
  method CopyPacket(entry: array<byte>, h: Header, drops: (seq<byte>, nat) -> bool) returns (packet: Option<Packet>)
    requires VLAN_TAG_LEN <= h.mac && h.mac + h.snaplen <= entry.Length
    modifies entry
    ensures var wire := Restored(h, old(entry[h.mac..h.mac + h.snaplen]));
            && packet == (if drops(wire, h.len + Growth(h)) then None
                          else Some(Packet(HasTag(h), h.len + Growth(h), wire)))
            && entry[..] == old(entry[..h.mac - Growth(h)]) + wire + old(entry[h.mac + h.snaplen..])
  {
    ghost var before, after := entry[..h.mac - Growth(h)], entry[h.mac + h.snaplen..];
    ghost var frame := entry[h.mac..h.mac + h.snaplen];
    var data, grown := Prepare(entry, h);
    Middle(before, Restored(h, frame), after);
    var bytes := entry[data..data + h.snaplen + grown];
    assert bytes == entry[..][data..data + h.snaplen + grown];
    if drops(bytes, h.len + grown) {
      return None;
    }
    return Some(Packet(grown > 0, h.len + grown, bytes));
  }

  lemma Middle(a: seq<byte>, b: seq<byte>, c: seq<byte>)
    ensures (a + b + c)[|a|..|a| + |b|] == b
  {
  }

  /* ---- the walk over a packet's tags ---- */

  /** `discards` counts the tags that end behind the captured bytes: the walk counts them and reads on. */
  datatype Walked =
    | Truncated      // shorter than an Ethernet header: discarded
    | BeyondMemory   // a tag lies behind all memory that can be read
    | Layer3(vlanPacket: bool, vlanId: nat, etherType: u16, length: nat, discards: nat)

  /** From offset `at`, where what `etherType` announces begins. */
  function WalkFrom(data: seq<byte>, caplen: nat, at: nat, w: Walked): Walked
    requires w.Layer3?
    decreases |data| - at
  {
    if w.etherType != ETHERTYPE_VLAN then w.(length := at)
    else if at + VLAN_TAG_LEN > |data| then BeyondMemory
    else
      WalkFrom(data, caplen, at + VLAN_TAG_LEN,
               Layer3(true, FromBigEndian(data[at], data[at + 1]) % 0x1000,
                      FromBigEndian(data[at + 2], data[at + 3]), at,
                      w.discards + if at + VLAN_TAG_LEN > caplen then 1 else 0))
  }

  /**
   * `data` is what can be read, of which `caplen` bytes were captured; `vlanId` is what the flow record holds
   * from the packets before.
   */
  function Walk(data: seq<byte>, caplen: nat, vlanId: nat): Walked
    requires caplen <= |data|
  {
    if caplen < ETHER_HEADER then Truncated
    else WalkFrom(data, caplen, ETHER_HEADER, Layer3(false, vlanId, FromBigEndian(data[12], data[13]), ETHER_HEADER, 0))
  }

  /** Behind the readable memory the model stops. */
  method WalkTags(data: seq<byte>, caplen: nat, flowVlanId: nat) returns (w: Walked)
    requires caplen <= |data|
    ensures w == Walk(data, caplen, flowVlanId)
  {
    if caplen < ETHER_HEADER {
      return Truncated;
    }
    var etherType := FromBigEndian(data[12], data[13]);
    var length, vlanPacket, vlanId: nat, discards: nat := ETHER_HEADER, false, flowVlanId, 0;
    while etherType == ETHERTYPE_VLAN
      invariant WalkFrom(data, caplen, length, Layer3(vlanPacket, vlanId, etherType, length, discards))
                == Walk(data, caplen, flowVlanId)
      decreases |data| - length
    {
      if length + VLAN_TAG_LEN > caplen {
        discards := discards + 1;
      }
      if length + VLAN_TAG_LEN > |data| {
        return BeyondMemory;
      }
      vlanPacket := true;
      vlanId := FromBigEndian(data[length], data[length + 1]) % 0x1000;
      etherType := FromBigEndian(data[length + 2], data[length + 3]);
      length := length + VLAN_TAG_LEN;
      LengthIrrelevant(data, caplen, length, Layer3(vlanPacket, vlanId, etherType, length - VLAN_TAG_LEN, discards));
    }
    return Layer3(vlanPacket, vlanId, etherType, length, discards);
  }

  lemma LengthIrrelevant(data: seq<byte>, caplen: nat, at: nat, w: Walked)
    requires w.Layer3?
    ensures WalkFrom(data, caplen, at, w) == WalkFrom(data, caplen, at, w.(length := at))
  {
  }

  /* ---- the two together ---- */

  function Shifted(w: Walked): Walked {
    if w.Layer3? then w.(vlanPacket := true, length := w.length + VLAN_TAG_LEN) else w
  }

  /** Bytes in front of the walk's position only move the result. */
  lemma {:induction false} WalkShift(data: seq<byte>, longer: seq<byte>, caplen: nat, at: nat, w: Walked)
    requires at <= |data| && |longer| == |data| + VLAN_TAG_LEN && longer[at + VLAN_TAG_LEN..] == data[at..]
    requires w.Layer3?
    ensures WalkFrom(longer, caplen + VLAN_TAG_LEN, at + VLAN_TAG_LEN, w.(vlanPacket := true))
            == Shifted(WalkFrom(data, caplen, at, w))
    decreases |data| - at
  {
    if w.etherType == ETHERTYPE_VLAN && at + VLAN_TAG_LEN <= |data| {
      assert longer[at + VLAN_TAG_LEN..][..VLAN_TAG_LEN] == data[at..][..VLAN_TAG_LEN];
      assert longer[at + VLAN_TAG_LEN..][VLAN_TAG_LEN..] == data[at..][VLAN_TAG_LEN..];
      var w' := Layer3(true, FromBigEndian(data[at], data[at + 1]) % 0x1000,
                       FromBigEndian(data[at + 2], data[at + 3]), at,
                       w.discards + if at + VLAN_TAG_LEN > caplen then 1 else 0);
      WalkShift(data, longer, caplen, at + VLAN_TAG_LEN, w');
      LengthIrrelevant(longer, caplen + VLAN_TAG_LEN, at + 2 * VLAN_TAG_LEN, w');
      LengthIrrelevant(longer, caplen + VLAN_TAG_LEN, at + 2 * VLAN_TAG_LEN, w'.(length := at + VLAN_TAG_LEN));
    }
  }

  lemma Remainder(n: nat, q: nat, r: nat)
    requires n == 0x1000 * q + r && r < 0x1000
    ensures n % 0x1000 == r
  {
  }

  lemma IdBits(n: nat)
    ensures n % 0x1_0000 % 0x1000 == n % 0x1000
  {
    var q, r := n / 0x1_0000, n % 0x1_0000;
    var a, b := r / 0x1000, r % 0x1000;
    Remainder(r, a, b);
    Remainder(n, 0x10 * q + a, b);
  }

  lemma TagRead(h: Header, frame: seq<byte>)
    requires |frame| == h.snaplen && HasTag(h)
    ensures var wire := Restored(h, frame);
            && |wire| == h.snaplen + VLAN_TAG_LEN
            && FromBigEndian(wire[12], wire[13]) == Tpid(h)
            && FromBigEndian(wire[14], wire[15]) % 0x1000 == h.tci % 0x1000
            && (h.snaplen >= ETHER_HEADER
                ==> wire[16] == frame[12] && wire[17] == frame[13] && wire[18..] == frame[14..])
  {
    TagInFrame(h, frame, Tag(h));
    BytesOf(Tpid(h));
    BytesOf(h.tci % 0x1_0000);
    IdBits(h.tci);
  }

  lemma BytesOf(n: u16)
    ensures FromBigEndian(BigEndian(n)[0], BigEndian(n)[1]) == n
  {
  }

  lemma TagInFrame(h: Header, frame: seq<byte>, tag: seq<byte>)
    requires |frame| == h.snaplen && HasTag(h) && tag == Tag(h)
    ensures var wire, protocol, control := Restored(h, frame), BigEndian(Tpid(h)), BigEndian(h.tci % 0x1_0000);
            && |wire| == h.snaplen + VLAN_TAG_LEN
            && wire[12] == protocol[0] && wire[13] == protocol[1]
            && wire[14] == control[0] && wire[15] == control[1]
            && (h.snaplen >= ETHER_HEADER
                ==> wire[16] == frame[12] && wire[17] == frame[13] && wire[18..] == frame[14..])
  {
  }

  /**
   * The walk over a restored frame finds the kernel's VLAN id, then all that the walk over the stripped
   * frame finds; but only when the tag's protocol is 802.1Q: any other ends the walk at the tag.
   */
  lemma RestoredWalk(h: Header, frame: seq<byte>, flowVlanId: nat)
    requires |frame| == h.snaplen && HasTag(h)
    ensures var w := Walk(Restored(h, frame), h.snaplen + VLAN_TAG_LEN, flowVlanId);
            if Tpid(h) != ETHERTYPE_VLAN then w == Layer3(false, flowVlanId, Tpid(h), ETHER_HEADER, 0)
            else if h.snaplen < ETHER_HEADER then w == BeyondMemory
            else w == Shifted(Walk(frame, h.snaplen, h.tci % 0x1000))
  {
    var wire := Restored(h, frame);
    TagRead(h, frame);
    if Tpid(h) == ETHERTYPE_VLAN && h.snaplen >= ETHER_HEADER {
      var w := Layer3(false, h.tci % 0x1000, FromBigEndian(frame[12], frame[13]), ETHER_HEADER, 0);
      WalkShift(frame, wire, h.snaplen, ETHER_HEADER, w);
      LengthIrrelevant(wire, h.snaplen + VLAN_TAG_LEN, ETHER_HEADER + VLAN_TAG_LEN, w.(vlanPacket := true));
    }
  }

  /** A frame with tags, outermost first. */
  function TagStack(tags: seq<u16>): (s: seq<byte>)
    ensures |s| == VLAN_TAG_LEN * |tags|
  {
    if tags == [] then [] else BigEndian(ETHERTYPE_VLAN) + BigEndian(tags[0]) + TagStack(tags[1..])
  }

  function Frame(macs: seq<byte>, tags: seq<u16>, etherType: u16, payload: seq<byte>): seq<byte> {
    macs + TagStack(tags) + BigEndian(etherType) + payload
  }

  /** What the kernel strips from a tagged frame, the copy puts back. */
  lemma StripRestore(macs: seq<byte>, tags: seq<u16>, etherType: u16, payload: seq<byte>, h: Header)
    requires |macs| == VLAN_OFFSET && tags != []
    requires h.tci == tags[0] && h.vlanValid && Tpid(h) == ETHERTYPE_VLAN
    requires h.snaplen == |Frame(macs, tags[1..], etherType, payload)|
    ensures Restored(h, Frame(macs, tags[1..], etherType, payload)) == Frame(macs, tags, etherType, payload)
  {
    InsertAfter(macs, Tag(h), TagStack(tags[1..]), BigEndian(etherType), payload);
    assert Tag(h) == BigEndian(ETHERTYPE_VLAN) + BigEndian(tags[0]);
  }

  lemma InsertAfter(a: seq<byte>, tag: seq<byte>, b: seq<byte>, c: seq<byte>, d: seq<byte>)
    ensures var s := a + b + c + d; s[..|a|] + tag + s[|a|..] == a + (tag + b) + c + d
  {
    assert (a + b + c + d)[..|a|] == a;
    assert (a + b + c + d)[|a|..] == b + c + d;
  }

  /** The walk reads any stack of tags off a frame; the innermost id is the one that stays. */
  lemma {:induction false} WalkReadsTags(macs: seq<byte>, tags: seq<u16>, etherType: u16, payload: seq<byte>,
                                         flowVlanId: nat)
    requires |macs| == VLAN_OFFSET && etherType != ETHERTYPE_VLAN
    ensures var frame := Frame(macs, tags, etherType, payload);
            Walk(frame, |frame|, flowVlanId) ==
            Layer3(tags != [], if tags == [] then flowVlanId else tags[|tags| - 1] % 0x1000, etherType,
                   ETHER_HEADER + VLAN_TAG_LEN * |tags|, 0)
    decreases |tags|
  {
    var frame := Frame(macs, tags, etherType, payload);
    if tags == [] {
      assert frame[12..14] == BigEndian(etherType);
      assert frame[12] == frame[12..14][0] && frame[13] == frame[12..14][1];
    } else {
      var inner := Frame(macs, tags[1..], etherType, payload);
      var h := Header(0, 0, |inner|, tags[0], 0, true, false);
      StripRestore(macs, tags, etherType, payload, h);
      RestoredWalk(h, inner, flowVlanId);
      WalkReadsTags(macs, tags[1..], etherType, payload, tags[0] % 0x1000);
    }
  }

  /** The bytes of the frame that the walk is about: addresses, tags, type, payload; high bytes first. */
  lemma FrameBytes(macs: seq<byte>, tags: seq<u16>, etherType: u16, payload: seq<byte>)
    requires |macs| == 12
    ensures var frame, n := Frame(macs, tags, etherType, payload), |tags|;
            && |frame| == 14 + 4 * n + |payload| && frame[..12] == macs
            && (forall k :: 0 <= k < n ==>
                  frame[12 + 4 * k..16 + 4 * k] == [0x81, 0x00, tags[k] / 256, tags[k] % 256])
            && frame[12 + 4 * n..14 + 4 * n] == [etherType / 256, etherType % 256]
            && frame[14 + 4 * n..] == payload
  {
    var frame, stack := Frame(macs, tags, etherType, payload), TagStack(tags);
    forall k | 0 <= k < |tags|
      ensures frame[12 + 4 * k..16 + 4 * k] == [0x81, 0x00, tags[k] / 256, tags[k] % 256]
    {
      TagBytes(tags, k);
      assert frame[12 + 4 * k..16 + 4 * k] == stack[4 * k..4 * k + 4];
    }
  }

  lemma {:induction false} TagBytes(tags: seq<u16>, k: nat)
    requires k < |tags|
    ensures TagStack(tags)[4 * k..4 * k + 4] == [0x81, 0x00, tags[k] / 256, tags[k] % 256]
  {
    var rest := TagStack(tags[1..]);
    var first := BigEndian(ETHERTYPE_VLAN) + BigEndian(tags[0]);
    assert TagStack(tags) == first + rest && |first| == 4;
    if k == 0 {
      assert TagStack(tags)[..4] == first;
    } else {
      TagBytes(tags[1..], k - 1);
      assert TagStack(tags)[4 * k..4 * k + 4] == rest[4 * (k - 1)..4 * (k - 1) + 4];
    }
  }

  /** Each tag that ends behind the captured bytes is counted, and none that ends before. */
  lemma {:induction false} WalkDiscards(data: seq<byte>, caplen: nat, at: nat, w: Walked)
    requires w.Layer3? && WalkFrom(data, caplen, at, w).Layer3?
    ensures var r := WalkFrom(data, caplen, at, w);
            && r.length >= at && (r.length - at) % 4 == 0
            && r.discards == w.discards + if r.length <= caplen then 0
                                          else if caplen < at then (r.length - at) / 4
                                          else (r.length - at) / 4 - (caplen - at) / 4
    decreases |data| - at
  {
    if w.etherType == ETHERTYPE_VLAN {
      var w' := Layer3(true, FromBigEndian(data[at], data[at + 1]) % 0x1000,
                       FromBigEndian(data[at + 2], data[at + 3]), at,
                       w.discards + if at + VLAN_TAG_LEN > caplen then 1 else 0);
      WalkDiscards(data, caplen, at + 4, w');
    }
  }

  /** Fewer captured bytes than an Ethernet header are too few; else all tags up to the first other type are walked. */
  lemma WalkMeans(data: seq<byte>, caplen: nat, flowVlanId: nat)
    requires caplen <= |data|
    ensures var r := Walk(data, caplen, flowVlanId);
            && (r == Truncated <==> caplen < 14)
            && (r.Layer3? ==>
                  && r.discards == (if r.length <= caplen then 0 else (r.length - 14) / 4 - (caplen - 14) / 4)
                  && r.vlanPacket == (r.length > 14) && (r.length == 14 ==> r.vlanId == flowVlanId))
  {
    if caplen >= 14 {
      var w := Layer3(false, flowVlanId, FromBigEndian(data[12], data[13]), 14, 0);
      NotTruncated(data, caplen, 14, w);
      if Walk(data, caplen, flowVlanId).Layer3? {
        WalkDiscards(data, caplen, 14, w);
      }
    }
  }

  lemma {:induction false} NotTruncated(data: seq<byte>, caplen: nat, at: nat, w: Walked)
    requires w.Layer3?
    ensures var r := WalkFrom(data, caplen, at, w);
            && r != Truncated
            && (r.Layer3? ==> r.length >= at && r.vlanPacket == (w.vlanPacket || r.length > at)
                              && (r.length == at ==> r.vlanId == w.vlanId))
    decreases |data| - at
  {
    if w.etherType == ETHERTYPE_VLAN && at + 4 <= |data| {
      NotTruncated(data, caplen, at + 4, Layer3(true, FromBigEndian(data[at], data[at + 1]) % 0x1000,
                                                FromBigEndian(data[at + 2], data[at + 3]), at,
                                                w.discards + if at + VLAN_TAG_LEN > caplen then 1 else 0));
    }
  }
}
