/**
 * Address entries built from addresses, and the classification of addresses by the longest prefix
 * that covers them. The radix tree is a map with a longest-match lookup.
 */
module AddrTypes {
  import opened Prelude
  import opened Radix

  type Mac = m: seq<bv8> | |m| == 6 witness [0, 0, 0, 0, 0, 0]

  /** IP addresses are given by their 32-bit words in host order, most significant first. */
  datatype NdAddr = Invalid | Ether(mac: Mac) | IPv4(word: u32, prefix: byte) | IPv6(words: Words, prefix: byte)

  type Words = w: seq<u32> | |w| == 4 witness [0, 0, 0, 0]

  datatype Type = NONE | LOCAL | LOCALNET | RESERVED | MULTICAST | BROADCAST | OTHER | ERROR

  /* ---- address bits ---- */

  function AddressBits(words: seq<u32>): (x: Bits)
    ensures |x| == 32 * |words|
  {
    if words == [] then [] else ToBits(words[|words| - 1], 32) + AddressBits(words[..|words| - 1])
  }

  lemma {:induction false} ShortNumber(v: nat, k: nat, n: nat)
    requires k <= n && v < Pow(2, k)
    ensures ToBits(v, n) == ToBits(v, k) + Zeros(n - k)
  {
    if k == 0 {
      ZeroNumber(n);
    } else {
      ShortNumber(v / 2, k - 1, n - 1);
    }
  }

  lemma WordBound()
    ensures Pow(2, 32) == 0x1_0000_0000
  {
    assert Pow(2, 8) == 256;
    assert Pow(2, 16) == 0x1_0000 by { assert Pow(2, 12) == 16 * Pow(2, 8); }
    assert Pow(2, 24) == 256 * Pow(2, 16) by { assert Pow(2, 20) == 16 * Pow(2, 16); }
    assert Pow(2, 32) == 256 * Pow(2, 24) by { assert Pow(2, 28) == 16 * Pow(2, 24); }
  }

  lemma WordBits(w: u32, n: nat)
    requires 32 <= n
    ensures ToBits(w, n) == ToBits(w, 32) + Zeros(n - 32)
  {
    WordBound();
    ShortNumber(w, 32, n);
  }

  lemma ShiftIn(addr: Bits, low: Bits)
    requires |low| == 32 <= |addr|
    ensures Or(Shl(addr, 32), low + Zeros(|addr| - 32)) == low + addr[..|addr| - 32]
  {
    var r, s := Or(Shl(addr, 32), low + Zeros(|addr| - 32)), low + addr[..|addr| - 32];
    forall i | 0 <= i < |addr|
      ensures r[i] == s[i]
    {
      assert Shl(addr, 32)[i] == (i >= 32 && addr[i - 32]);
    }
  }

  /** `addr <<= 32; addr |= w` appends a word to the words packed so far. */
  lemma PackStep(addr: Bits, words: seq<u32>, w: u32)
    requires 32 * |words| + 32 <= |addr| && addr == AddressBits(words) + Zeros(|addr| - 32 * |words|)
    ensures Or(Shl(addr, 32), ToBits(w, |addr|)) == AddressBits(words + [w]) + Zeros(|addr| - 32 * |words + [w]|)
  {
    var low := WordIn(addr, w, words);
    FewerZeros(low, AddressBits(words), |addr| - 32 * |words|);
  }

  lemma WordIn(addr: Bits, w: u32, words: seq<u32>) returns (low: Bits)
    requires 32 <= |addr|
    ensures Or(Shl(addr, 32), ToBits(w, |addr|)) == low + addr[..|addr| - 32]
    ensures AddressBits(words + [w]) == low + AddressBits(words)
  {
    low := ToBits(w, 32);
    WordBits(w, |addr|);
    ShiftIn(addr, low);
    assert (words + [w])[..|words|] == words;
  }

  lemma FewerZeros(low: Bits, packed: Bits, n: nat)
    requires n >= 32
    ensures low + (packed + Zeros(n))[..|packed| + n - 32] == (low + packed) + Zeros(n - 32)
  {
  }

  /** The leading `len` bits; all others clear. */
  function MaskTop(x: Bits, len: nat): (r: Bits)
    ensures |r| == |x| && forall i :: 0 <= i < |x| ==> r[i] == (i + len >= |x| && x[i])
  {
    seq(|x|, i requires 0 <= i < |x| => i + len >= |x| && x[i])
  }

  predicate IsIp(a: NdAddr) {
    a.IPv4? || a.IPv6?
  }

  function WordsOf(a: NdAddr): (w: seq<u32>)
    requires IsIp(a)
    ensures |w| == if a.IPv4? then 1 else 4
  {
    if a.IPv4? then [a.word] else a.words
  }

  function HostBits(a: NdAddr): Bits
    requires IsIp(a)
  {
    AddressBits(WordsOf(a))
  }

  /** The width of the address. */
  function Width(a: NdAddr): nat
    requires IsIp(a)
  {
    32 * |WordsOf(a)|
  }

  /** An absent prefix length, zero, stands for a host. */
  function PrefixOf(a: NdAddr): nat
    requires IsIp(a)
  {
    if a.prefix == 0 then Width(a) else a.prefix
  }

  function EntryOf(a: NdAddr): Option<Entry>
    requires IsIp(a)
  {
    if PrefixOf(a) > Width(a) then None else Some(Entry(MaskTop(HostBits(a), PrefixOf(a)), PrefixOf(a)))
  }

  /** The mask is set and its low bits flipped one by one; the words are shifted in one by one. */
  method Create(a: NdAddr) returns (r: Option<Entry>)
    requires IsIp(a)
    ensures r == EntryOf(a)
  {
    var n := Width(a);
    var prefixLen: nat := if a.prefix == 0 then n else a.prefix;
    if prefixLen > n {
      return None;
    }
    var mask := Zeros(n);
    var shift := n - prefixLen;
    if shift < n {
      mask := seq(n, _ => true);
      var i := 0;
      while i < shift
        invariant i <= shift && |mask| == n
        invariant forall j :: 0 <= j < n ==> mask[j] == (j >= i)
      {
        mask := mask[i := !mask[i]];
        i := i + 1;
      }
    }
    var addr := CreateQuery(a);
    assert And(addr, mask) == MaskTop(addr, prefixLen);
    r := Some(Entry(And(addr, mask), prefixLen));
  }

  method CreateQuery(a: NdAddr) returns (addr: Bits)
    requires IsIp(a)
    ensures addr == HostBits(a)
  {
    if a.IPv4? {
      addr := ToBits(a.word, 32);
      assert [a.word][..0] == [];
      assert AddressBits([a.word]) == ToBits(a.word, 32) + AddressBits([]);
    } else {
      var w := a.words;
      addr := Zeros(128);
      assert addr == AddressBits([]) + Zeros(128);
      assert Or(Shl(addr, 32), ToBits(w[0], 128)) == Or(addr, ToBits(w[0], 128));
      PackStep(addr, [], w[0]);
      addr := Or(addr, ToBits(w[0], 128));
      PackStep(addr, [] + [w[0]], w[1]);
      addr := Shl(addr, 32);
      addr := Or(addr, ToBits(w[1], 128));
      PackStep(addr, [] + [w[0]] + [w[1]], w[2]);
      addr := Shl(addr, 32);
      addr := Or(addr, ToBits(w[2], 128));
      PackStep(addr, [] + [w[0]] + [w[1]] + [w[2]], w[3]);
      addr := Shl(addr, 32);
      addr := Or(addr, ToBits(w[3], 128));
      assert [] + [w[0]] + [w[1]] + [w[2]] + [w[3]] == w;
    }
  }

  /** The words of an IPv6 entry, extracted bit by bit. */
  method ExtractWords(addr: Bits) returns (words: Words)
    requires |addr| == 128
    ensures AddressBits(words) == addr
  {
    var out: Words := [0, 0, 0, 0];
    var i: nat := 0;
    while i < 4
      invariant i <= 4
      invariant forall k :: 0 <= k < i ==> ToBits(out[3 - k], 32) == addr[32 * k..32 * k + 32]
    {
      var b := Zeros(128);
      var j: nat := 0;
      while j < 32
        invariant j <= 32 && |b| == 128
        invariant forall k :: 0 <= k < 128 ==> b[k] == (k < j && addr[i * 32 + k])
      {
        b := b[j := addr[i * 32 + j]];
        j := j + 1;
      }
      assert b == addr[32 * i..32 * i + 32] + Zeros(96);
      WordValue(addr[32 * i..32 * i + 32], 96);
      out := out[3 - i := Value(b)];
      i := i + 1;
    }
    words := out;
    FourWords(words);
    assert addr == addr[0..32] + addr[32..64] + addr[64..96] + addr[96..128];
    assert ToBits(out[3 - 0], 32) == addr[32 * 0..32 * 0 + 32];
    assert ToBits(out[3 - 1], 32) == addr[32 * 1..32 * 1 + 32];
    assert ToBits(out[3 - 2], 32) == addr[32 * 2..32 * 2 + 32];
    assert ToBits(out[3 - 3], 32) == addr[32 * 3..32 * 3 + 32];
  }

  lemma FourWords(w: Words)
    ensures AddressBits(w) == ToBits(w[3], 32) + ToBits(w[2], 32) + ToBits(w[1], 32) + ToBits(w[0], 32)
  {
    assert w[..3][..2] == w[..2] && w[..2][..1] == w[..1] && w[..1][..0] == [];
    assert AddressBits(w[..1]) == ToBits(w[0], 32) + AddressBits([]);
    assert AddressBits(w[..2]) == ToBits(w[1], 32) + AddressBits(w[..1]);
    assert AddressBits(w[..3]) == ToBits(w[2], 32) + AddressBits(w[..2]);
  }

  lemma {:induction false} ValueOfPadded(x: Bits, pad: nat)
    ensures Value(x + Zeros(pad)) == Value(x)
  {
    if x == [] {
      ZeroValue(pad);
      assert [] + Zeros(pad) == Zeros(pad);
    } else {
      ValueOfPadded(x[1..], pad);
      assert (x + Zeros(pad))[1..] == x[1..] + Zeros(pad);
    }
  }

  lemma {:induction false} BitsOfValue(x: Bits)
    ensures ToBits(Value(x), |x|) == x
  {
    if x != [] {
      BitsOfValue(x[1..]);
      assert x == [x[0]] + x[1..];
    }
  }

  lemma WordValue(x: Bits, pad: nat)
    requires |x| == 32
    ensures Value(x + Zeros(pad)) < 0x1_0000_0000 && ToBits(Value(x + Zeros(pad)), 32) == x
  {
    ValueOfPadded(x, pad);
    BitsOfValue(x);
    ValueBound(x);
    WordBound();
  }

  /** Packing loses nothing: different words give different bits. */
  lemma {:induction false} PackingInjective(v: seq<u32>, w: seq<u32>)
    requires |v| == |w| && AddressBits(v) == AddressBits(w)
    ensures v == w
  {
    if v != [] {
      var n := |v| - 1;
      assert ToBits(v[n], 32) == AddressBits(v)[..32] == AddressBits(w)[..32] == ToBits(w[n], 32);
      assert AddressBits(v[..n]) == AddressBits(v)[32..] == AddressBits(w)[32..] == AddressBits(w[..n]);
      WordBound();
      ValueOfNumber(v[n], 32);
      ValueOfNumber(w[n], 32);
      PackingInjective(v[..n], w[..n]);
      SplitLast(v);
      SplitLast(w);
    }
  }

  lemma SplitLast(v: seq<u32>)
    requires v != []
    ensures v == v[..|v| - 1] + [v[|v| - 1]]
  {
  }

  lemma {:induction false} ValueConcat(x: Bits, y: Bits)
    ensures Value(x + y) == Value(x) + Pow(2, |x|) * Value(y)
  {
    if x == [] {
      assert x + y == y;
    } else {
      ValueConcat(x[1..], y);
      assert (x + y)[1..] == x[1..] + y;
      Regroup(Pow(2, |x| - 1), Value(y));
    }
  }

  lemma Regroup(p: nat, v: nat)
    ensures 2 * (p * v) == (2 * p) * v
  {
  }

  /** Shifting a number to the right drops its lowest bits. */
  lemma ValueAbove(x: Bits, k: nat)
    requires k <= |x|
    ensures Value(x) / Pow(2, k) == Value(x[k..])
  {
    assert x == x[..k] + x[k..];
    ValueConcat(x[..k], x[k..]);
    ValueBound(x[..k]);
    QuotientIs(Value(x), Pow(2, k), Value(x[k..]), Value(x[..k]));
  }

  lemma QuotientIs(n: nat, d: nat, q: nat, r: nat)
    requires n == r + d * q && r < d
    ensures n / d == q
  {
    var q' := n / d;
    assert n == d * q' + n % d;
    MultipleOrder(d, q + 1, q');
    MultipleOrder(d, q' + 1, q);
    assert d * (q + 1) == d * q + d && d * (q' + 1) == d * q' + d;
  }

  lemma MultipleOrder(d: nat, a: nat, b: nat)
    ensures a <= b ==> d * a <= d * b
  {
    if a <= b {
      assert d * b == d * a + d * (b - a);
    }
  }

  /** The number that the address is. */
  function Number(a: NdAddr): nat
    requires IsIp(a)
  {
    match a
    case IPv4(word, _) => word
    case IPv6(words, _) =>
      var w: seq<int> := words;
      w[3] + 0x1_0000_0000 * (w[2] + 0x1_0000_0000 * (w[1] + 0x1_0000_0000 * w[0]))
  }

  /** The bits of an address make that number. */
  lemma HostValue(a: NdAddr)
    requires IsIp(a)
    ensures Value(HostBits(a)) == Number(a) && |HostBits(a)| == if a.IPv4? then 32 else 128
  {
    match a
    case IPv4(word, _) =>
      assert [word][..0] == [];
      assert AddressBits([word]) == ToBits(word, 32) + AddressBits([]);
      WordAbove(word, []);
    case IPv6(words, _) =>
      FourWords(words);
      FourValues(words, ToBits(words[3], 32), ToBits(words[2], 32), ToBits(words[1], 32), ToBits(words[0], 32));
  }

  lemma FourValues(words: Words, x3: Bits, x2: Bits, x1: Bits, x0: Bits)
    requires x3 == ToBits(words[3], 32) && x2 == ToBits(words[2], 32)
    requires x1 == ToBits(words[1], 32) && x0 == ToBits(words[0], 32)
    ensures Value(x3 + x2 + x1 + x0) == Number(IPv6(words, 0))
  {
    WordAbove(words[0], []);
    assert x0 + [] == x0;
    WordAbove(words[1], x0);
    WordAbove(words[2], x1 + x0);
    WordAbove(words[3], x2 + (x1 + x0));
    assert x3 + x2 + x1 + x0 == x3 + (x2 + (x1 + x0));
  }

  lemma WordAbove(w: u32, high: Bits)
    ensures Value(ToBits(w, 32) + high) == w + 0x1_0000_0000 * Value(high)
  {
    WordBound();
    ValueConcat(ToBits(w, 32), high);
    ValueOfNumber(w, 32);
  }

  /* ---- longest match ---- */

  type Table = map<Entry, Type>

  /** The entry's prefix agrees with the address. */
  predicate Covers(e: Entry, q: Bits) {
    |e.addr| == |q| && e.prefixLen <= |q| && forall i :: |q| - e.prefixLen <= i < |q| ==> e.addr[i] == q[i]
  }

  /** All bits behind the prefix are clear, as `Create` leaves them. */
  predicate Masked(e: Entry) {
    e.prefixLen <= |e.addr| && e.addr == MaskTop(e.addr, e.prefixLen)
  }

  /** All entries that cover one address are its own prefixes: one for each length. */
  lemma CoversMeans(e: Entry, q: Bits)
    requires Masked(e)
    ensures Covers(e, q) <==> |e.addr| == |q| && e == Entry(MaskTop(q, e.prefixLen), e.prefixLen)
  {
    if Covers(e, q) {
      assert e.addr == MaskTop(q, e.prefixLen);
    }
  }

  function LongestFrom(table: Table, q: Bits, len: nat): Option<Entry> {
    var e := Entry(MaskTop(q, len), len);
    if e in table then Some(e)
    else if len == 0 then None
    else LongestFrom(table, q, len - 1)
  }

  /** The contract of the tree's `longest_match`. */
  function LongestMatch(table: Table, q: Bits): Option<Entry> {
    LongestFrom(table, q, |q|)
  }

  lemma {:induction false} LongestFromIsLongest(table: Table, q: Bits, len: nat)
    requires (forall e :: e in table ==> Masked(e)) && len <= |q|
    ensures match LongestFrom(table, q, len)
            case None => forall e :: e in table && Covers(e, q) ==> e.prefixLen > len
            case Some(b) =>
              && b in table && Covers(b, q)
              && forall e :: e in table && Covers(e, q) ==> e.prefixLen <= b.prefixLen || e.prefixLen > len
  {
    forall e | e in table
      ensures Covers(e, q) ==> e == Entry(MaskTop(q, e.prefixLen), e.prefixLen)
    {
      CoversMeans(e, q);
    }
    if Entry(MaskTop(q, len), len) !in table && len > 0 {
      LongestFromIsLongest(table, q, len - 1);
    }
  }

  /** Some covering entry is found if there is one, and none is longer. */
  lemma LongestMatchIsLongest(table: Table, q: Bits)
    requires forall e :: e in table ==> Masked(e)
    ensures match LongestMatch(table, q)
            case None => forall e :: e in table ==> !Covers(e, q)
            case Some(b) =>
              && b in table && Covers(b, q)
              && forall e :: e in table && Covers(e, q) ==> e.prefixLen <= b.prefixLen
  {
    LongestFromIsLongest(table, q, |q|);
  }

  lemma {:induction false} LongestAfterStore(table: Table, e: Entry, t: Type, q: Bits, len: nat)
    requires Masked(e) && len <= |q|
    ensures var before := LongestFrom(table, q, len);
            LongestFrom(table[e := t], q, len)
            == if Covers(e, q) && e.prefixLen <= len && (before.None? || before.value.prefixLen <= e.prefixLen)
               then Some(e) else before
  {
    CoversMeans(e, q);
    if len > 0 {
      LongestAfterStore(table, e, t, q, len - 1);
      LongestFromBound(table, q, len - 1);
    }
  }

  lemma {:induction false} LongestFromBound(table: Table, q: Bits, len: nat)
    ensures LongestFrom(table, q, len).Some? ==> LongestFrom(table, q, len).value.prefixLen <= len
  {
    if len > 0 {
      LongestFromBound(table, q, len - 1);
    }
  }

  /* ---- adding and classifying ---- */

  predicate IsNetwork(a: NdAddr) {
    IsIp(a) && 0 < a.prefix < Width(a)
  }

  /** The type under which an address is stored: a local network is told from a local host. */
  function StoredType(t: Type, a: NdAddr): Type {
    if t == LOCAL && IsNetwork(a) then LOCALNET else t
  }

  /** The type as it is shown: a host on a local network is local. */
  function ShownType(t: Type, a: NdAddr): Type {
    if t == LOCALNET && !IsNetwork(a) then LOCAL else t
  }

  function Match(table: Table, a: NdAddr): Option<Type>
    requires IsIp(a)
  {
    match LongestMatch(table, HostBits(a))
    case Some(e) => if e in table then Some(ShownType(table[e], a)) else None
    case None => None
  }

  function Store(table: Table, t: Type, a: NdAddr): Table
    requires IsIp(a)
  {
    match EntryOf(a)
    case Some(e) => table[e := StoredType(t, a)]
    case None => table
  }

  lemma {:induction false} MatchInTable(table: Table, q: Bits, len: nat)
    ensures LongestFrom(table, q, len).Some? ==> LongestFrom(table, q, len).value in table
  {
    if len > 0 {
      MatchInTable(table, q, len - 1);
    }
  }

  /** The tables of one address family. */
  datatype Family = Family(reserved: Table, ifaces: map<string, Table>)

  function TableOf(f: Family, ifname: string): Table {
    if ifname == "" then f.reserved else if ifname in f.ifaces then f.ifaces[ifname] else map[]
  }

  function StoreIn(f: Family, ifname: string, t: Type, a: NdAddr): Family
    requires IsIp(a)
  {
    if EntryOf(a).None? then f
    else if ifname == "" then f.(reserved := Store(f.reserved, t, a))
    else f.(ifaces := f.ifaces[ifname := Store(TableOf(f, ifname), t, a)])
  }

  /** Any interface table that matches decides; the reserved table only when none does. */
  predicate Decides(f: Family, a: NdAddr, r: Type)
    requires IsIp(a)
  {
    if exists i :: i in f.ifaces && Match(f.ifaces[i], a).Some?
    then exists i :: i in f.ifaces && Match(f.ifaces[i], a) == Some(r)
    else r == match Match(f.reserved, a) case Some(t) => t case None => OTHER
  }

  /* ---- classification by history ---- */

  /** An addition; `ifname` is empty for a global one. */
  datatype Added = Added(t: Type, a: NdAddr, ifname: string)

  /** The table of an interface, or the reserved one, after a sequence of additions of one family. */
  function Stored(history: seq<Added>, width: nat, ifname: string): Table {
    if history == [] then map[]
    else
      var before, last := Stored(history[..|history| - 1], width, ifname), history[|history| - 1];
      if IsIp(last.a) && Width(last.a) == width && last.ifname == ifname then Store(before, last.t, last.a) else before
  }

  /** The addition's network contains the host. */
  predicate Contains(a: NdAddr, q: Bits) {
    && IsIp(a) && Width(a) == |q| && PrefixOf(a) <= |q|
    && forall i :: |q| - PrefixOf(a) <= i < |q| ==> HostBits(a)[i] == q[i]
  }

  predicate Hits(x: Added, ifname: string, q: Bits) {
    x.ifname == ifname && Contains(x.a, q)
  }

  /** Of the additions to one table that contain the host, the last one with the longest prefix. */
  function Winner(history: seq<Added>, ifname: string, q: Bits): (w: Option<Added>)
    ensures w.Some? ==> Hits(w.value, ifname, q)
  {
    if history == [] then None
    else
      var before, last := Winner(history[..|history| - 1], ifname, q), history[|history| - 1];
      if Hits(last, ifname, q) && (before.None? || PrefixOf(before.value.a) <= PrefixOf(last.a))
      then Some(last) else before
  }

  /** The table's longest match is the entry of the addition `w`, under the type stored for it. */
  ghost predicate Tracks(table: Table, w: Option<Added>, q: Bits) {
    match (w, LongestMatch(table, q))
    case (None, hit) => hit.None?
    case (Some(w), Some(e)) =>
      IsIp(w.a) && e.prefixLen == PrefixOf(w.a) && e in table && table[e] == StoredType(w.t, w.a)
    case (Some(_), None) => false
  }

  lemma LongestCovers(table: Table, q: Bits)
    ensures LongestMatch(table, q).Some? ==> Covers(LongestMatch(table, q).value, q)
  {
    LongestFromCovers(table, q, |q|);
  }

  lemma {:induction false} LongestFromCovers(table: Table, q: Bits, len: nat)
    requires len <= |q|
    ensures LongestFrom(table, q, len).Some? ==> Covers(LongestFrom(table, q, len).value, q)
  {
    if len > 0 {
      LongestFromCovers(table, q, len - 1);
    }
  }

  lemma TracksStore(table: Table, w: Option<Added>, last: Added, q: Bits)
    requires Tracks(table, w, q) && IsIp(last.a) && Width(last.a) == |q| && EntryOf(last.a).Some?
    ensures var wins := Contains(last.a, q) && (w.None? || PrefixOf(w.value.a) <= PrefixOf(last.a));
            Tracks(Store(table, last.t, last.a), if wins then Some(last) else w, q)
  {
    var e := EntryOf(last.a).value;
    assert Masked(e);
    assert Covers(e, q) <==> Contains(last.a, q);
    LongestCovers(table, q);
    LongestAfterStore(table, e, StoredType(last.t, last.a), q, |q|);
  }

  lemma {:induction false} WinnerStored(history: seq<Added>, ifname: string, q: Bits)
    ensures Tracks(Stored(history, |q|, ifname), Winner(history, ifname, q), q)
  {
    if history == [] {
      EmptyLongest(q, |q|);
    } else {
      var init, last := history[..|history| - 1], history[|history| - 1];
      WinnerStored(init, ifname, q);
      if IsIp(last.a) && Width(last.a) == |q| && last.ifname == ifname && EntryOf(last.a).Some? {
        TracksStore(Stored(init, |q|, ifname), Winner(init, ifname, q), last, q);
      }
    }
  }

  lemma {:induction false} EmptyLongest(q: Bits, len: nat)
    ensures LongestFrom(map[], q, len) == None
  {
    if len > 0 {
      EmptyLongest(q, len - 1);
    }
  }

  /** Addition `i` contains the host, none that does has a longer prefix, and none behind it an equal one. */
  ghost predicate LastLongest(history: seq<Added>, ifname: string, q: Bits, i: nat) {
    && i < |history| && Hits(history[i], ifname, q)
    && forall j :: 0 <= j < |history| && Hits(history[j], ifname, q) ==>
         PrefixOf(history[j].a) <= PrefixOf(history[i].a) && (j > i ==> PrefixOf(history[j].a) < PrefixOf(history[i].a))
  }

  lemma {:induction false} WinnerMeans(history: seq<Added>, ifname: string, q: Bits)
    ensures match Winner(history, ifname, q)
            case None => forall j :: 0 <= j < |history| ==> !Hits(history[j], ifname, q)
            case Some(w) => exists i: nat :: LastLongest(history, ifname, q, i) && history[i] == w
  {
    if history != [] {
      var n := |history| - 1;
      var front := history[..n];
      WinnerMeans(front, ifname, q);
      assert forall j :: 0 <= j < n ==> front[j] == history[j];
      if Winner(front, ifname, q).None? {
        assert Hits(history[n], ifname, q) ==> LastLongest(history, ifname, q, n);
      } else {
        var i: nat :| LastLongest(front, ifname, q, i) && front[i] == Winner(front, ifname, q).value;
        LastOfTwo(history, ifname, q, i);
      }
    }
  }

  /** A new addition takes over from the last longest one unless its prefix is shorter. */
  lemma LastOfTwo(history: seq<Added>, ifname: string, q: Bits, i: nat)
    requires history != [] && LastLongest(history[..|history| - 1], ifname, q, i)
    ensures var n, x := |history| - 1, history[|history| - 1];
            LastLongest(history, ifname, q,
                        if Hits(x, ifname, q) && PrefixOf(history[i].a) <= PrefixOf(x.a) then n else i)
  {
    var front := history[..|history| - 1];
    assert forall j :: 0 <= j < |front| ==> front[j] == history[j];
  }

  /* ---- the meaning of a classification, on the addresses themselves ---- */

  /** The prefix length of an addition; zero stands for a host. */
  function Length(a: NdAddr): nat
    requires IsIp(a)
  {
    if a.prefix != 0 then a.prefix else if a.IPv4? then 32 else 128
  }

  /** The two numbers agree in the leading bits that the prefix length names. */
  predicate InNetwork(network: NdAddr, host: NdAddr) {
    && IsIp(network) && IsIp(host) && (network.IPv4? <==> host.IPv4?)
    && var width := if network.IPv4? then 32 else 128;
       && Length(network) <= width
       && Number(network) / Pow(2, width - Length(network)) == Number(host) / Pow(2, width - Length(network))
  }

  lemma ContainsMeans(a: NdAddr, host: NdAddr)
    requires IsIp(host)
    ensures Contains(a, HostBits(host)) <==> InNetwork(a, host)
    ensures Contains(a, HostBits(host)) ==> PrefixOf(a) == Length(a)
  {
    HostValue(host);
    if IsIp(a) {
      HostValue(a);
      if Width(a) == Width(host) && PrefixOf(a) <= Width(a) {
        SameAbove(HostBits(a), HostBits(host), Width(a) - PrefixOf(a));
      }
    }
  }

  lemma SameAbove(x: Bits, y: Bits, k: nat)
    requires |x| == |y| && k <= |x|
    ensures Value(x) / Pow(2, k) == Value(y) / Pow(2, k) <==> forall i :: k <= i < |x| ==> x[i] == y[i]
  {
    ValueAbove(x, k);
    ValueAbove(y, k);
    if Value(x[k..]) == Value(y[k..]) {
      ValueInjective(x[k..], y[k..]);
      forall i | k <= i < |x|
        ensures x[i] == y[i]
      {
        assert x[k..][i - k] == y[k..][i - k];
      }
    }
    if forall i :: k <= i < |x| ==> x[i] == y[i] {
      assert x[k..] == y[k..];
    }
  }

  /** Of the additions to one table whose networks contain the host: the last of the longest. */
  ghost predicate Prevails(history: seq<Added>, ifname: string, host: NdAddr, i: nat) {
    && i < |history| && history[i].ifname == ifname && InNetwork(history[i].a, host)
    && forall j :: 0 <= j < |history| && history[j].ifname == ifname && InNetwork(history[j].a, host) ==>
         Length(history[j].a) <= Length(history[i].a) && (j > i ==> Length(history[j].a) < Length(history[i].a))
  }

  /** Given with a prefix length that is not that of a host. */
  predicate GivenAsNetwork(a: NdAddr) {
    match a
    case IPv4(_, prefix) => 0 < prefix < 32
    case IPv6(_, prefix) => 0 < prefix < 128
    case _ => false
  }

  /** LOCAL and LOCALNET are told apart by how the addition and the address are given; no host is LOCALNET. */
  function Shown(x: Added, a: NdAddr): Type {
    if x.t != LOCAL && x.t != LOCALNET then x.t
    else if !GivenAsNetwork(a) then LOCAL
    else if x.t == LOCALNET || GivenAsNetwork(x.a) then LOCALNET
    else LOCAL
  }

  lemma ShownMeans(x: Added, a: NdAddr)
    ensures ShownType(StoredType(x.t, x.a), a) == Shown(x, a)
  {
  }

  /**
   * An addition to an interface that contains the address decides, of any interface; the global ones only when there
   * is none. In each table the last of the longest counts. Where nothing contains the address it is OTHER.
   */
  ghost predicate ByHistory(history: seq<Added>, a: NdAddr, r: Type) {
    if exists j :: 0 <= j < |history| && history[j].ifname != "" && InNetwork(history[j].a, a)
    then exists i: nat ::
           && i < |history| && history[i].ifname != "" && Prevails(history, history[i].ifname, a, i)
           && r == Shown(history[i], a)
    else if exists j :: 0 <= j < |history| && InNetwork(history[j].a, a)
    then exists i: nat :: Prevails(history, "", a, i) && r == Shown(history[i], a)
    else r == OTHER
  }

  /** The tables of a family are what the additions have stored, and only interfaces have tables of their own. */
  ghost predicate Holds(f: Family, history: seq<Added>, width: nat) {
    "" !in f.ifaces && forall ifname: string :: TableOf(f, ifname) == Stored(history, width, ifname)
  }

  /** What matches in one table, on the addresses. */
  lemma MatchMeans(history: seq<Added>, ifname: string, a: NdAddr)
    requires IsIp(a)
    ensures match Match(Stored(history, Width(a), ifname), a)
            case None => forall j :: 0 <= j < |history| && history[j].ifname == ifname ==> !InNetwork(history[j].a, a)
            case Some(t) => exists i: nat :: Prevails(history, ifname, a, i) && t == Shown(history[i], a)
  {
    var q := HostBits(a);
    HostValue(a);
    WinnerStored(history, ifname, q);
    WinnerMeans(history, ifname, q);
    forall j | 0 <= j < |history|
      ensures Contains(history[j].a, q) <==> InNetwork(history[j].a, a)
      ensures Contains(history[j].a, q) ==> PrefixOf(history[j].a) == Length(history[j].a)
      ensures ShownType(StoredType(history[j].t, history[j].a), a) == Shown(history[j], a)
    {
      ContainsMeans(history[j].a, a);
      ShownMeans(history[j], a);
    }
    if Winner(history, ifname, q).Some? {
      var i: nat :| LastLongest(history, ifname, q, i) && history[i] == Winner(history, ifname, q).value;
      assert Prevails(history, ifname, a, i);
    }
  }

  /** Every address is classified by the history of additions. */
  lemma ClassifiedByHistory(f: Family, history: seq<Added>, a: NdAddr, r: Type)
    requires IsIp(a) && Holds(f, history, Width(a)) && Decides(f, a, r)
    ensures ByHistory(history, a, r)
  {
    forall ifname: string | ifname in f.ifaces
      ensures ifname != "" && f.ifaces[ifname] == Stored(history, Width(a), ifname)
    {
      assert TableOf(f, ifname) == Stored(history, Width(a), ifname);
    }
    if i :| i in f.ifaces && Match(f.ifaces[i], a).Some? {
      var ifname :| ifname in f.ifaces && Match(f.ifaces[ifname], a) == Some(r);
      MatchMeans(history, ifname, a);
    } else {
      forall j | 0 <= j < |history| && history[j].ifname != ""
        ensures !InNetwork(history[j].a, a)
      {
        NoMatchIn(f, history, history[j].ifname, a);
      }
      assert TableOf(f, "") == f.reserved == Stored(history, Width(a), "");
      MatchMeans(history, "", a);
    }
  }

  lemma NoMatchIn(f: Family, history: seq<Added>, ifname: string, a: NdAddr)
    requires IsIp(a) && Holds(f, history, Width(a)) && ifname != ""
    requires ifname in f.ifaces ==> Match(f.ifaces[ifname], a).None?
    ensures forall j :: 0 <= j < |history| && history[j].ifname == ifname ==> !InNetwork(history[j].a, a)
  {
    assert TableOf(f, ifname) == Stored(history, Width(a), ifname);
    if ifname !in f.ifaces {
      EmptyLongest(HostBits(a), |HostBits(a)|);
    }
    MatchMeans(history, ifname, a);
  }

  lemma StoredAppend(history: seq<Added>, x: Added, width: nat, ifname: string)
    ensures Stored(history + [x], width, ifname)
            == if IsIp(x.a) && Width(x.a) == width && x.ifname == ifname
               then Store(Stored(history, width, ifname), x.t, x.a) else Stored(history, width, ifname)
  {
    assert (history + [x])[..|history|] == history;
  }

  /** An addition is stored in the table it names, and in no other. */
  lemma HoldsStore(f: Family, history: seq<Added>, x: Added, width: nat)
    requires Holds(f, history, width) && IsIp(x.a)
    ensures Holds(if Width(x.a) == width then StoreIn(f, x.ifname, x.t, x.a) else f, history + [x], width)
  {
    forall ifname: string
      ensures Stored(history + [x], width, ifname)
              == if Width(x.a) == width && x.ifname == ifname then Store(TableOf(f, ifname), x.t, x.a)
                 else TableOf(f, ifname)
    {
      StoredAppend(history, x, width, ifname);
      assert TableOf(f, ifname) == Stored(history, width, ifname);
    }
  }

  /* ---- the object ---- */

  function Private4(): seq<Added> {
    [Added(RESERVED, IPv4(0x7f00_0000, 8), ""), Added(RESERVED, IPv4(0x0a00_0000, 8), ""),
     Added(RESERVED, IPv4(0x6440_0000, 10), ""), Added(RESERVED, IPv4(0xac10_0000, 12), ""),
     Added(RESERVED, IPv4(0xc0a8_0000, 16), "")]
  }

  function Private6(): seq<Added> {
    [Added(RESERVED, IPv6([0, 0, 0, 1], 128), ""), Added(RESERVED, IPv6([0xfc00_0000, 0, 0, 0], 7), ""),
     Added(RESERVED, IPv6([0xfd00_0000, 0, 0, 0], 8), ""), Added(RESERVED, IPv6([0xfe80_0000, 0, 0, 0], 10), "")]
  }

  function ToMany(): seq<Added> {
    [Added(MULTICAST, IPv4(0xe000_0000, 4), ""), Added(MULTICAST, IPv6([0xff00_0000, 0, 0, 0], 8), ""),
     Added(BROADCAST, IPv4(0xa9fe_ffff, 0), "")]
  }

  /** What every object starts with: private, multicast and broadcast networks. */
  function BuiltIn(): seq<Added> {
    Private4() + Private6() + ToMany()
  }

  lemma OddBit(i: bv8, b: bv8)
    requires i & 1 == 1 && i & b == i
    ensures b & 1 == 1
  {
  }

  class AddrType {
    var etherReserved: map<Mac, Type>
    var ipv4: Family
    var ipv6: Family
    ghost var history: seq<Added>  // the additions of IP addresses

    /** The tables are what the history has stored. */
    ghost predicate Valid()
      reads this
    {
      Holds(ipv4, history, 32) && Holds(ipv6, history, 128)
    }

    constructor ()
      ensures Valid() && history == BuiltIn()
      ensures etherReserved == map[] && ipv4.ifaces == map[] && ipv6.ifaces == map[]
    {
      etherReserved, ipv4, ipv6 := map[], Family(map[], map[]), Family(map[], map[]);
      history := [];
      new;
      AddAll(BuiltIn());
    }

    method AddAll(additions: seq<Added>)
      requires Valid() && forall i :: 0 <= i < |additions| ==> IsIp(additions[i].a) && additions[i].ifname == ""
      modifies this
      ensures Valid() && history == old(history) + additions && etherReserved == old(etherReserved)
      ensures ipv4.ifaces == old(ipv4.ifaces) && ipv6.ifaces == old(ipv6.ifaces)
    {
      for i := 0 to |additions|
        invariant Valid() && history == old(history) + additions[..i] && etherReserved == old(etherReserved)
        invariant ipv4.ifaces == old(ipv4.ifaces) && ipv6.ifaces == old(ipv6.ifaces)
      {
        var _ := AddAddress(additions[i].t, additions[i].a, additions[i].ifname);
        assert additions[..i + 1] == additions[..i] + [additions[i]];
      }
      assert additions[..|additions|] == additions;
    }

    method AddAddress(t: Type, a: NdAddr, ifname: string) returns (ok: bool)
      requires Valid()
      modifies this
      ensures Valid()
      ensures history == if IsIp(a) then old(history) + [Added(t, a, ifname)] else old(history)
      ensures ok == match a
                    case Invalid => false
                    case Ether(mac) => mac !in old(etherReserved)
                    case _ => EntryOf(a).Some?
      ensures etherReserved == if ok && a.Ether? then old(etherReserved)[a.mac := t] else old(etherReserved)
      ensures ipv4 == if a.IPv4? then StoreIn(old(ipv4), ifname, t, a) else old(ipv4)
      ensures ipv6 == if a.IPv6? then StoreIn(old(ipv6), ifname, t, a) else old(ipv6)
    {
      if a.Invalid? {
        return false;
      }
      if a.Ether? {
        ok := a.mac !in etherReserved;
        if ok {
          etherReserved := etherReserved[a.mac := t];
        }
        return;
      }
      ok := AddNetwork(t, a, ifname);
    }

    method AddNetwork(t: Type, a: NdAddr, ifname: string) returns (ok: bool)
      requires Valid() && IsIp(a)
      modifies this`ipv4, this`ipv6, this`history
      ensures Valid() && ok == EntryOf(a).Some?
      ensures history == old(history) + [Added(t, a, ifname)]
      ensures ipv4 == if a.IPv4? then StoreIn(old(ipv4), ifname, t, a) else old(ipv4)
      ensures ipv6 == if a.IPv6? then StoreIn(old(ipv6), ifname, t, a) else old(ipv6)
    {
      HoldsStore(ipv4, history, Added(t, a, ifname), 32);
      HoldsStore(ipv6, history, Added(t, a, ifname), 128);
      history := history + [Added(t, a, ifname)];
      var stored := t;
      if t == LOCAL && IsNetwork(a) {
        stored := LOCALNET;
      }
      var entry := Create(a);
      if entry.None? {
        return false;
      }
      if a.IPv4? && ifname == "" {
        ipv4 := ipv4.(reserved := ipv4.reserved[entry.value := stored]);
      } else if a.IPv6? && ifname == "" {
        ipv6 := ipv6.(reserved := ipv6.reserved[entry.value := stored]);
      } else if a.IPv4? {
        ipv4 := ipv4.(ifaces := ipv4.ifaces[ifname := TableOf(ipv4, ifname)[entry.value := stored]]);
      } else {
        ipv6 := ipv6.(ifaces := ipv6.ifaces[ifname := TableOf(ipv6, ifname)[entry.value := stored]]);
      }
      return true;
    }

    /** An all-ones MAC address counts as multicast: the test for its lowest bit comes first. */
    method Classify(a: NdAddr) returns (r: Type)
      requires Valid()
      ensures a.IPv4? && a.word != 0 && a.word != 0xffff_ffff ==> ByHistory(history, a, r)
      ensures a.IPv6? ==> ByHistory(history, a, r)
      ensures a.Invalid? ==> r == ERROR
      ensures a.Ether? ==> r == if a.mac[0] & 1 == 1 then MULTICAST
                                else if a.mac == [0, 0, 0, 0, 0, 0] then NONE
                                else if a.mac in etherReserved then etherReserved[a.mac]
                                else OTHER
      ensures a.IPv4? ==> if a.word == 0 then r == LOCAL
                          else if a.word == 0xffff_ffff then r == BROADCAST
                          else Decides(ipv4, a, r)
      ensures a.IPv6? ==> Decides(ipv6, a, r)
    {
      if a.Invalid? {
        return ERROR;
      }
      r := OTHER;
      if a.Ether? {
        var i: bv8 := 1;
        while i <= 0x0f
          invariant i & 1 == 1 && (i == 1 || a.mac[0] & 1 != 1)
          decreases 17 - i as int
        {
          if i & a.mac[0] == i {
            OddBit(i, a.mac[0]);
            return MULTICAST;
          }
          i := i + 2;
        }
        if a.mac == [0xff, 0xff, 0xff, 0xff, 0xff, 0xff] {
          return BROADCAST;
        }
        if a.mac == [0, 0, 0, 0, 0, 0] {
          return NONE;
        }
        if a.mac in etherReserved {
          return etherReserved[a.mac];
        }
      } else {
        if a.IPv4? && a.word == 0 {
          return LOCAL;
        }
        if a.IPv4? && a.word == 0xffff_ffff {
          return BROADCAST;
        }
        var family := if a.IPv4? then ipv4 else ipv6;
        r := ClassifyIp(family, a);
        ClassifiedByHistory(family, history, a, r);
      }
    }

    method ClassifyIp(f: Family, a: NdAddr) returns (r: Type)
      requires IsIp(a)
      ensures Decides(f, a, r)
    {
      var query := CreateQuery(a);
      var ifaces := f.ifaces.Keys;
      while ifaces != {}
        invariant ifaces <= f.ifaces.Keys
        invariant forall i :: i in f.ifaces && i !in ifaces ==> Match(f.ifaces[i], a).None?
        decreases |ifaces|
      {
        var i :| i in ifaces;
        ifaces := ifaces - {i};
        var hit := LongestMatch(f.ifaces[i], query);
        MatchInTable(f.ifaces[i], query, |query|);
        if hit.Some? {
          r := f.ifaces[i][hit.value];
          if r == LOCALNET && !IsNetwork(a) {
            r := LOCAL;
          }
          return;
        }
      }
      r := OTHER;
      var hit := LongestMatch(f.reserved, query);
      MatchInTable(f.reserved, query, |query|);
      if hit.Some? {
        r := f.reserved[hit.value];
        if r == LOCALNET && !IsNetwork(a) {
          r := LOCAL;
        }
      }
    }
  }
}
