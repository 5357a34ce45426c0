/** What a new address table knows: the ranges of the built-in networks, as they are classified. */
module AddrRanges {
  import opened Prelude
  import opened Radix
  import opened AddrTypes

  lemma Powers()
    ensures Pow(2, 0) == 1 && Pow(2, 16) == 0x1_0000 && Pow(2, 20) == 0x10_0000 && Pow(2, 22) == 0x40_0000
    ensures Pow(2, 24) == 0x100_0000 && Pow(2, 25) == 0x200_0000 && Pow(2, 28) == 0x1000_0000
  {
    assert Pow(2, 8) == 0x100;
    assert Pow(2, 16) == 0x100 * Pow(2, 8) by { assert Pow(2, 12) == 0x10 * Pow(2, 8); }
    assert Pow(2, 20) == 0x10 * Pow(2, 16);
    assert Pow(2, 24) == 0x10 * Pow(2, 20);
    assert Pow(2, 28) == 0x10 * Pow(2, 24);
  }

  /** The type of a built-in network that contains an IPv4 address. */
  function BuiltInIpv4(w: u32): Option<Type> {
    if 0x7f00_0000 <= w < 0x8000_0000 || 0x0a00_0000 <= w < 0x0b00_0000 || 0x6440_0000 <= w < 0x6480_0000
       || 0xac10_0000 <= w < 0xac20_0000 || 0xc0a8_0000 <= w < 0xc0a9_0000 then Some(RESERVED)
    else if 0xe000_0000 <= w < 0xf000_0000 then Some(MULTICAST)
    else if w == 0xa9fe_ffff then Some(BROADCAST)
    else None
  }

  /** Numbers with one quotient are a block. */
  lemma Block(n: nat, size: nat, w: nat)
    requires size > 0 && n % size == 0
    ensures n / size == w / size <==> n <= w < n + size
  {
    if n <= w < n + size {
      QuotientIs(w, size, n / size, w - n);
    }
  }

  /** An IPv4 network by its range. */
  lemma NetworkOf4(n: u32, prefix: byte, size: nat, w: u32)
    requires prefix <= 32 && size == Pow(2, 32 - if prefix == 0 then 32 else prefix) && n % size == 0
    ensures InNetwork(IPv4(n, prefix), IPv4(w, 0)) <==> n <= w < n + size
  {
    Block(n, size, w);
  }

  /** The built-in IPv4 networks, each with the number of addresses it has. */
  predicate Network4(t: Type, n: u32, size: nat) {
    || (t == RESERVED && size == 0x100_0000 && (n == 0x7f00_0000 || n == 0x0a00_0000))
    || (t == RESERVED && size == 0x40_0000 && n == 0x6440_0000)
    || (t == RESERVED && size == 0x10_0000 && n == 0xac10_0000)
    || (t == RESERVED && size == 0x1_0000 && n == 0xc0a8_0000)
    || (t == MULTICAST && size == 0x1000_0000 && n == 0xe000_0000)
    || (t == BROADCAST && size == 1 && n == 0xa9fe_ffff)
  }

  lemma BuiltInIs4(x: Added)
    requires x in BuiltIn() && x.a.IPv4?
    ensures Length(x.a) <= 32 && Network4(x.t, x.a.word, Pow(2, 32 - Length(x.a)))
  {
    Powers();
    assert x in Private4() || x in Private6() || x in ToMany();
    assert x !in Private6();
  }

  lemma InRange4(t: Type, n: u32, size: nat, w: u32)
    requires Network4(t, n, size) && n <= w < n + size
    ensures BuiltInIpv4(w) == Some(t)
  {
  }

  lemma BuiltInNetworks4(w: u32, x: Added)
    requires x in BuiltIn() && InNetwork(x.a, IPv4(w, 0))
    ensures BuiltInIpv4(w) == Some(x.t)
  {
    BuiltInIs4(x);
    var size := Pow(2, 32 - Length(x.a));
    assert x.a.word % size == 0;
    NetworkOf4(x.a.word, x.a.prefix, size, w);
    InRange4(x.t, x.a.word, size, w);
  }

  lemma BuiltInFinds4(w: u32) returns (x: Added)
    requires BuiltInIpv4(w).Some?
    ensures x in BuiltIn() && InNetwork(x.a, IPv4(w, 0))
  {
    var size;
    x, size := RangeOf4(w);
    NetworkOf4(x.a.word, x.a.prefix, size, w);
  }

  lemma RangeOf4(w: u32) returns (x: Added, size: nat)
    requires BuiltInIpv4(w).Some?
    ensures (x in Private4() || x in ToMany()) && x.a.IPv4? && Length(x.a) <= 32
    ensures size == Pow(2, 32 - Length(x.a)) > 0
    ensures x.a.word % size == 0 && x.a.word <= w < x.a.word + size
  {
    Powers();
    if 0x7f00_0000 <= w < 0x8000_0000 {
      x, size := Private4()[0], 0x100_0000;
    } else if 0x0a00_0000 <= w < 0x0b00_0000 {
      x, size := Private4()[1], 0x100_0000;
    } else if 0x6440_0000 <= w < 0x6480_0000 {
      x, size := Private4()[2], 0x40_0000;
    } else if 0xac10_0000 <= w < 0xac20_0000 {
      x, size := Private4()[3], 0x10_0000;
    } else if 0xc0a8_0000 <= w < 0xc0a9_0000 {
      x, size := Private4()[4], 0x1_0000;
    } else if w == 0xa9fe_ffff {
      x, size := ToMany()[2], 1;
    } else {
      x, size := ToMany()[0], 0x1000_0000;
    }
  }

  /** All additions that contain the address are global and of one type. */
  ghost predicate OneType(history: seq<Added>, a: NdAddr, found: Option<Type>) {
    && (forall x :: x in history ==> x.ifname == "" && x.t != LOCAL && x.t != LOCALNET)
    && (forall x :: x in history && InNetwork(x.a, a) ==> found == Some(x.t))
    && (found.Some? ==> exists x :: x in history && InNetwork(x.a, a))
  }

  /** Then that type is shown. */
  lemma OneTypeShown(history: seq<Added>, a: NdAddr, r: Type, found: Option<Type>)
    requires ByHistory(history, a, r) && OneType(history, a, found)
    ensures r == match found case Some(t) => t case None => OTHER
  {
  }

  lemma BuiltInGlobal(x: Added)
    requires x in BuiltIn()
    ensures x.ifname == "" && x.t != LOCAL && x.t != LOCALNET
  {
    assert x in Private4() || x in Private6() || x in ToMany();
  }

  lemma OneType4(w: u32)
    ensures OneType(BuiltIn(), IPv4(w, 0), BuiltInIpv4(w))
  {
    forall x | x in BuiltIn()
      ensures x.ifname == "" && x.t != LOCAL && x.t != LOCALNET
      ensures InNetwork(x.a, IPv4(w, 0)) ==> BuiltInIpv4(w) == Some(x.t)
    {
      BuiltInGlobal(x);
      if InNetwork(x.a, IPv4(w, 0)) {
        BuiltInNetworks4(w, x);
      }
    }
    if BuiltInIpv4(w).Some? {
      var x := BuiltInFinds4(w);
    }
  }

  /** A new object classifies every IPv4 address by the ranges of the built-in networks. */
  lemma FreshIpv4(w: u32, r: Type)
    requires ByHistory(BuiltIn(), IPv4(w, 0), r)
    ensures r == match BuiltInIpv4(w) case Some(t) => t case None => OTHER
  {
    OneType4(w);
    OneTypeShown(BuiltIn(), IPv4(w, 0), r, BuiltInIpv4(w));
  }

  /** The type of a built-in network that contains an IPv6 address. */
  function BuiltInIpv6(w: Words): Option<Type> {
    if w == [0, 0, 0, 1] || 0xfc00_0000 <= w[0] < 0xfe00_0000 || 0xfe80_0000 <= w[0] < 0xfec0_0000 then Some(RESERVED)
    else if 0xff00_0000 <= w[0] then Some(MULTICAST)
    else None
  }

  /** The leading bits of an IPv6 address are those of its first word. */
  lemma HighWord(words: Words, k: nat)
    requires k <= 32
    ensures Number(IPv6(words, 0)) / Pow(2, 96 + k) == words[0] / Pow(2, k)
  {
    var a := IPv6(words, 0);
    var x, high := HostBits(a), ToBits(words[0], 32);
    HostValue(a);
    FourWords(words);
    WordBound();
    ValueOfNumber(words[0], 32);
    ValueAbove(x, 96 + k);
    ValueAbove(high, k);
    assert x[96..] == high;
    assert x[96 + k..] == high[k..];
  }

  /** An IPv6 network of a short prefix by the range of its first word. */
  lemma NetworkOf6(n: Words, prefix: byte, size: nat, w: Words)
    requires 0 < prefix <= 32 && size == Pow(2, 32 - prefix) && n[0] % size == 0
    ensures InNetwork(IPv6(n, prefix), IPv6(w, 0)) <==> n[0] <= w[0] < n[0] + size
  {
    HighWord(n, 32 - prefix);
    HighWord(w, 32 - prefix);
    Block(n[0], size, w[0]);
  }

  lemma NumberInjective(v: Words, w: Words)
    requires Number(IPv6(v, 0)) == Number(IPv6(w, 0))
    ensures v == w
  {
    HostValue(IPv6(v, 0));
    HostValue(IPv6(w, 0));
    ValueInjective(HostBits(IPv6(v, 0)), HostBits(IPv6(w, 0)));
    PackingInjective(v, w);
  }

  lemma Loopback6(w: Words)
    ensures InNetwork(IPv6([0, 0, 0, 1], 128), IPv6(w, 0)) <==> w == [0, 0, 0, 1]
  {
    var n: Words := [0, 0, 0, 1];
    Powers();
    assert InNetwork(IPv6(n, 128), IPv6(w, 0)) <==> Number(IPv6(n, 0)) == Number(IPv6(w, 0));
    if Number(IPv6(n, 0)) == Number(IPv6(w, 0)) {
      NumberInjective(n, w);
    }
  }

  lemma BuiltInNetworks6(w: Words, x: Added)
    requires x in BuiltIn() && InNetwork(x.a, IPv6(w, 0))
    ensures BuiltInIpv6(w) == Some(x.t)
  {
    BuiltInIs6(x);
    if x.a.prefix == 128 {
      Loopback6(w);
    } else {
      var size := Pow(2, 32 - x.a.prefix);
      assert x.a.words[0] % size == 0;
      NetworkOf6(x.a.words, x.a.prefix, size, w);
      InRange6(x.t, x.a.words[0], size, w);
    }
  }

  /** The built-in IPv6 networks but for the loopback address, by their first words. */
  predicate Network6(t: Type, n: u32, size: nat) {
    || (t == RESERVED && size == 0x200_0000 && n == 0xfc00_0000)
    || (t == RESERVED && size == 0x100_0000 && n == 0xfd00_0000)
    || (t == RESERVED && size == 0x40_0000 && n == 0xfe80_0000)
    || (t == MULTICAST && size == 0x100_0000 && n == 0xff00_0000)
  }

  lemma BuiltInIs6(x: Added)
    requires x in BuiltIn() && x.a.IPv6?
    ensures if x.a.prefix == 128 then x.t == RESERVED && x.a.words == [0, 0, 0, 1]
            else 0 < x.a.prefix <= 32 && Network6(x.t, x.a.words[0], Pow(2, 32 - x.a.prefix))
  {
    Powers();
    assert x in Private4() || x in Private6() || x in ToMany();
    assert x !in Private4();
  }

  lemma InRange6(t: Type, n: u32, size: nat, w: Words)
    requires Network6(t, n, size) && n <= w[0] < n + size
    ensures BuiltInIpv6(w) == Some(t)
  {
  }

  lemma BuiltInFinds6(w: Words) returns (x: Added)
    requires BuiltInIpv6(w).Some?
    ensures x in BuiltIn() && InNetwork(x.a, IPv6(w, 0))
  {
    Loopback6(w);
    if w == [0, 0, 0, 1] {
      x := Private6()[0];
    } else {
      var size;
      x, size := RangeOf6(w);
      NetworkOf6(x.a.words, x.a.prefix, size, w);
    }
    assert x in Private6() || x in ToMany();
  }

  lemma RangeOf6(w: Words) returns (x: Added, size: nat)
    requires BuiltInIpv6(w).Some? && w != [0, 0, 0, 1]
    ensures (x in Private6() || x in ToMany()) && x.a.IPv6? && 0 < x.a.prefix <= 32
    ensures size == Pow(2, 32 - x.a.prefix) > 0 && x.a.words[0] % size == 0
    ensures x.a.words[0] <= w[0] < x.a.words[0] + size
  {
    Powers();
    if 0xfc00_0000 <= w[0] < 0xfe00_0000 {
      x, size := Private6()[1], 0x200_0000;
    } else if 0xfe80_0000 <= w[0] < 0xfec0_0000 {
      x, size := Private6()[3], 0x40_0000;
    } else {
      x, size := ToMany()[1], 0x100_0000;
    }
  }

  lemma OneType6(w: Words)
    ensures OneType(BuiltIn(), IPv6(w, 0), BuiltInIpv6(w))
  {
    forall x | x in BuiltIn()
      ensures x.ifname == "" && x.t != LOCAL && x.t != LOCALNET
      ensures InNetwork(x.a, IPv6(w, 0)) ==> BuiltInIpv6(w) == Some(x.t)
    {
      BuiltInGlobal(x);
      if InNetwork(x.a, IPv6(w, 0)) {
        BuiltInNetworks6(w, x);
      }
    }
    if BuiltInIpv6(w).Some? {
      var x := BuiltInFinds6(w);
    }
  }

  /** And every IPv6 address. */
  lemma FreshIpv6(w: Words, r: Type)
    requires ByHistory(BuiltIn(), IPv6(w, 0), r)
    ensures r == match BuiltInIpv6(w) case Some(t) => t case None => OTHER
  {
    OneType6(w);
    OneTypeShown(BuiltIn(), IPv6(w, 0), r, BuiltInIpv6(w));
  }
}
