/** The base64 codec: cursor loops over output buffers, and the round trip between them. */
module Base64 {
  import opened Prelude

  type sextet = x: int | 0 <= x < 64

  const PAD: byte := '=' as int

  /** The encoding alphabet. */
  function Symbol(x: sextet): (c: byte)
    ensures c != PAD
  {
    if x < 26 then 'A' as int + x
    else if x < 52 then 'a' as int + x - 26
    else if x < 62 then '0' as int + x - 52
    else if x == 62 then '+' as int
    else '/' as int
  }

  /** The decoding table, which also knows the alphabet that is safe in URLs; unknown characters count as zero. */
  function Index(c: byte): sextet {
    if 'A' as int <= c <= 'Z' as int then c - 'A' as int
    else if 'a' as int <= c <= 'z' as int then c - 'a' as int + 26
    else if '0' as int <= c <= '9' as int then c - '0' as int + 52
    else if c == '+' as int || c == '-' as int || c == '.' as int then 62
    else if c == '/' as int || c == ',' as int || c == '_' as int then 63
    else 0
  }

  /**
   * The alphabet of section 4 of RFC 4648: the upper-case letters, the lower-case letters, the digits, plus and
   * slash. Decoding inverts it, and takes two more symbols each for 62 and 63.
   */
  lemma SymbolsMean(x: sextet)
    ensures Symbol(0) == 'A' as int && Symbol(25) == 'Z' as int && Symbol(26) == 'a' as int && Symbol(51) == 'z' as int
    ensures Symbol(52) == '0' as int && Symbol(61) == '9' as int && Symbol(62) == '+' as int && Symbol(63) == '/' as int
    ensures x != 25 && x != 51 && x < 61 ==> Symbol(x + 1) == Symbol(x) + 1
    ensures Index(Symbol(x)) == x
    ensures Index('-' as int) == Index('.' as int) == 62 && Index(',' as int) == Index('_' as int) == 63
  {
  }

  /* ---- encoding ---- */

  /** The four groups of six bits in three bytes. */
  function Six0(a: byte): sextet {
    a / 4
  }

  function Six1(a: byte, b: byte): sextet {
    a % 4 * 16 + b / 16
  }

  function Six2(b: byte, c: byte): sextet {
    b % 16 * 4 + c / 64
  }

  function Six3(c: byte): sextet {
    c % 64
  }

  /** The groups of six bits, highest first, make the number that the three bytes make. */
  lemma SixesMean(a: byte, b: byte, c: byte)
    ensures var w: int, x: int, y: int, z: int := Six0(a), Six1(a, b), Six2(b, c), Six3(c);
            var i: int, j: int, k: int := a, b, c;
            0x4_0000 * w + 0x1000 * x + 0x40 * y + z == 0x1_0000 * i + 0x100 * j + k
  {
  }

  function Quad(a: byte, b: byte, c: byte): (q: seq<byte>)
    ensures |q| == 4
  {
    [Symbol(Six0(a)), Symbol(Six1(a, b)), Symbol(Six2(b, c)), Symbol(Six3(c))]
  }

  function EncodeSpec(s: seq<byte>): seq<byte> {
    if |s| >= 3 then Quad(s[0], s[1], s[2]) + EncodeSpec(s[3..])
    else if |s| == 2 then Quad(s[0], s[1], 0)[..3] + [PAD]
    else if |s| == 1 then Quad(s[0], 0, 0)[..2] + [PAD, PAD]
    else []
  }

  lemma EncodeUnfold(s: seq<byte>)
    requires |s| >= 3
    ensures EncodeSpec(s) == Quad(s[0], s[1], s[2]) + EncodeSpec(s[3..])
    ensures EncodeSpec(s)[..4] == Quad(s[0], s[1], s[2]) && EncodeSpec(s)[4..] == EncodeSpec(s[3..])
  {
  }

  /** The encoding of the first `k` groups of three bytes. */
  function FullEncoding(s: seq<byte>, k: nat): (r: seq<byte>)
    requires 3 * k <= |s|
    ensures |r| == 4 * k
  {
    if k == 0 then [] else FullEncoding(s, k - 1) + Quad(s[3 * k - 3], s[3 * k - 2], s[3 * k - 1])
  }

  lemma {:induction false} FullEncodingFirst(s: seq<byte>, k: nat)
    requires 3 * k <= |s|
    ensures EncodeSpec(s) == FullEncoding(s, k) + EncodeSpec(s[3 * k..])
  {
    if k == 0 {
      assert s[0..] == s;
    } else {
      EncodedAt(s, k);
      FullEncodingFirst(s, k - 1);
      AppendAssociative(FullEncoding(s, k - 1), Quad(s[3 * k - 3], s[3 * k - 2], s[3 * k - 1]), EncodeSpec(s[3 * k..]));
    }
  }

  lemma EncodedAt(s: seq<byte>, k: nat)
    requires 0 < 3 * k <= |s|
    ensures EncodeSpec(s[3 * k - 3..]) == Quad(s[3 * k - 3], s[3 * k - 2], s[3 * k - 1]) + EncodeSpec(s[3 * k..])
  {
    var t := s[3 * k - 3..];
    assert t[3..] == s[3 * k..];
    EncodeUnfold(t);
  }

  method Encode(src: array<byte>) returns (out: array<byte>)
    ensures fresh(out) && out[..] == EncodeSpec(src[..])
  {
    var olen, full := Sizes(src.Length);
    out := new byte[olen];
    EncodeFull(src, full, out);
    FullEncodingFirst(src[..], full);
    if src.Length - 3 * full > 0 {
      EncodeLast(src, 3 * full, out, 4 * full);
      assert out[..] == out[..4 * full] + out[4 * full..];
    } else {
      assert out[..] == out[..4 * full] && src[..][3 * full..] == [];
    }
  }

  /** The length of the output and the number of full groups. */
  method Sizes(len: nat) returns (olen: nat, full: nat)
    ensures olen == 4 * full + if len > 3 * full then 4 else 0
    ensures 3 * full <= len < 3 * full + 3
  {
    olen := 4 * ((len + 2) / 3);
    full := len / 3;
  }

  /** The loop over the full groups. */
  method EncodeFull(src: array<byte>, full: nat, out: array<byte>)
    requires src != out && 3 * full <= src.Length && 4 * full <= out.Length
    modifies out
    ensures out[..4 * full] == FullEncoding(src[..], full)
  {
    for k := 0 to full
      invariant out[..4 * k] == FullEncoding(src[..], k)
    {
      EncodeGroup(src, 3 * k, out, 4 * k);
    }
  }

  method EncodeGroup(src: array<byte>, i: nat, out: array<byte>, pos: nat)
    requires src != out && i + 3 <= src.Length && pos + 4 <= out.Length
    modifies out
    ensures out[..pos + 4] == old(out[..pos]) + Quad(src[..][i], src[..][i + 1], src[..][i + 2])
  {
    out[pos] := Symbol(Six0(src[i]));
    out[pos + 1] := Symbol(Six1(src[i], src[i + 1]));
    out[pos + 2] := Symbol(Six2(src[i + 1], src[i + 2]));
    out[pos + 3] := Symbol(Six3(src[i + 2]));
  }

  method EncodeLast(src: array<byte>, i: nat, out: array<byte>, pos: nat)
    requires src != out && 1 <= src.Length - i <= 2 && pos + 4 == out.Length
    modifies out
    ensures out[..pos] == old(out[..pos]) && out[pos..] == EncodeSpec(src[..][i..])
  {
    out[pos] := Symbol(Six0(src[i]));
    if src.Length - i == 1 {
      out[pos + 1] := Symbol(Six1(src[i], 0));
      out[pos + 2] := PAD;
    } else {
      out[pos + 1] := Symbol(Six1(src[i], src[i + 1]));
      out[pos + 2] := Symbol(Six2(src[i + 1], 0));
    }
    out[pos + 3] := PAD;
  }

  /* ---- decoding ---- */

  /** The 24-bit number of four characters. */
  function Number(w: sextet, x: sextet, y: sextet, z: sextet): nat {
    w * 0x4_0000 + x * 0x1000 + y * 0x40 + z
  }

  function High(n: nat): (b: byte)
    requires n < 0x100_0000
  {
    n / 0x1_0000
  }

  function Middle(n: nat): (b: byte) {
    n / 0x100 % 0x100
  }

  function Low(n: nat): (b: byte) {
    n % 0x100
  }

  function Triple(p: seq<byte>): seq<byte>
    requires |p| == 4
  {
    var n := Number(Index(p[0]), Index(p[1]), Index(p[2]), Index(p[3]));
    [High(n), Middle(n), Low(n)]
  }

  /**
   * The last group, with or without padding. It should have two or three characters; of a group of one the
   * source also reads what lies beyond the input, which in a C string is its terminator.
   */
  function Tail(p: seq<byte>, beyond: byte): seq<byte>
    requires 1 <= |p| <= 4
  {
    var w, x := Index(p[0]), Index(if |p| > 1 then p[1] else beyond);
    [High(Number(w, x, 0, 0))] + if |p| > 2 && p[2] != PAD then [Middle(Number(w, x, Index(p[2]), 0))] else []
  }

  /** The eight bits of each byte of a full group, out of the six of each symbol. */
  lemma TripleMeans(p: seq<byte>)
    requires |p| == 4
    ensures var w, x, y, z := Index(p[0]), Index(p[1]), Index(p[2]), Index(p[3]);
            Triple(p) == [w * 4 + x / 16, x % 16 * 16 + y / 4, y % 4 * 64 + z]
  {
    BytesOfNumber(Index(p[0]), Index(p[1]), Index(p[2]), Index(p[3]));
  }

  lemma BytesOfNumber(w: sextet, x: sextet, y: sextet, z: sextet)
    ensures var n := Number(w, x, y, z);
            n < 0x100_0000 && High(n) == w * 4 + x / 16 && Middle(n) == x % 16 * 16 + y / 4 && Low(n) == y % 4 * 64 + z
  {
    var x1: int, x0: int, y1: int, y0: int := x / 16, x % 16, y / 4, y % 4;
    var i: int, j: int, k: int := w * 4 + x1, x0 * 16 + y1, y0 * 64 + z;
    assert Number(w, x, y, z) == 0x1_0000 * i + 0x100 * j + k;
    ThreeBytes(i, j, k);
  }

  lemma ThreeBytes(i: byte, j: byte, k: byte)
    ensures var a: int, b: int, c: int := i, j, k;
            var n := 0x1_0000 * a + 0x100 * b + c;
            n / 0x1_0000 == i && n / 0x100 % 0x100 == j && n % 0x100 == k
  {
  }

  /** A last group gives a second byte only if it has a third symbol; of a single one `beyond` is the second. */
  lemma TailMeans(p: seq<byte>, beyond: byte)
    requires 1 <= |p| <= 4
    ensures var w, x := Index(p[0]), Index(if |p| == 1 then beyond else p[1]);
            Tail(p, beyond) == [w * 4 + x / 16]
                               + if |p| <= 2 || p[2] == PAD then [] else [x % 16 * 16 + Index(p[2]) / 4]
  {
    var w, x := Index(p[0]), Index(if |p| == 1 then beyond else p[1]);
    BytesOfNumber(w, x, 0, 0);
    if |p| > 2 {
      BytesOfNumber(w, x, Index(p[2]), 0);
    }
  }

  function DecodeSpec(p: seq<byte>, beyond: byte): seq<byte> {
    if p == [] then []
    else if |p| > 4 || (|p| == 4 && p[3] != PAD) then Triple(p[..4]) + DecodeSpec(p[4..], beyond)
    else Tail(p, beyond)
  }

  /** What the first `k` groups decode to. */
  function FullSpec(s: seq<byte>, k: nat): (r: seq<byte>)
    requires 4 * k <= |s|
    ensures |r| == 3 * k
  {
    if k == 0 then [] else FullSpec(s, k - 1) + Triple(s[4 * k - 4..4 * k])
  }

  /** What is left after `k` groups decodes to this. */
  function Behind(s: seq<byte>, k: nat, beyond: byte): seq<byte>
    requires 4 * k <= |s|
  {
    DecodeSpec(s[4 * k..], beyond)
  }

  /** The first `k` groups do not end in the padding. */
  predicate Unpadded(s: seq<byte>, k: nat) {
    k > 0 && 4 * k == |s| ==> s[|s| - 1] != PAD
  }

  /** Full groups, none of them padded, can be decoded ahead of the rest. */
  lemma {:induction false} FullGroupsFirst(s: seq<byte>, k: nat, beyond: byte)
    requires 4 * k <= |s| && Unpadded(s, k)
    ensures Behind(s, 0, beyond) == FullSpec(s, k) + Behind(s, k, beyond)
  {
    hide Triple;
    if k > 0 {
      FullGroupsFirst(s, k - 1, beyond);
      GroupNext(s, k - 1, FullSpec(s, k - 1), beyond);
    }
  }

  lemma GroupNext(s: seq<byte>, k: nat, full: seq<byte>, beyond: byte)
    requires 4 * (k + 1) <= |s| && Unpadded(s, k + 1) && full == FullSpec(s, k)
    ensures full + Behind(s, k, beyond) == FullSpec(s, k + 1) + Behind(s, k + 1, beyond)
  {
    hide Triple;
    FullStep(s, k);
    BehindStep(s, k, beyond);
    AppendAssociative(full, Triple(s[4 * k..4 * k + 4]), Behind(s, k + 1, beyond));
  }

  lemma FullStep(s: seq<byte>, k: nat)
    requires 4 * (k + 1) <= |s|
    ensures FullSpec(s, k + 1) == FullSpec(s, k) + Triple(s[4 * k..4 * k + 4])
  {
  }

  lemma BehindStep(s: seq<byte>, k: nat, beyond: byte)
    requires 4 * (k + 1) <= |s| && Unpadded(s, k + 1)
    ensures Behind(s, k, beyond) == Triple(s[4 * k..4 * k + 4]) + Behind(s, k + 1, beyond)
  {
    GroupAt(s, 4 * k, beyond);
  }

  lemma GroupAt(s: seq<byte>, at: nat, beyond: byte)
    requires at + 4 <= |s| && (at + 4 == |s| ==> s[|s| - 1] != PAD)
    ensures DecodeSpec(s[at..], beyond) == Triple(s[at..at + 4]) + DecodeSpec(s[at + 4..], beyond)
  {
    var t := s[at..];
    assert t[4..] == s[at + 4..] && t[..4] == s[at..at + 4];
    DecodeStep(t, beyond);
  }

  lemma AppendAssociative(a: seq<byte>, b: seq<byte>, c: seq<byte>)
    ensures a + (b + c) == (a + b) + c
  {
  }

  lemma DecodeStep(t: seq<byte>, beyond: byte)
    requires |t| >= 4 && (|t| > 4 || t[3] != PAD)
    ensures DecodeSpec(t, beyond) == Triple(t[..4]) + DecodeSpec(t[4..], beyond)
  {
  }

  /** `beyond` is the byte in memory behind the input. */
  method Decode(p: array<byte>, beyond: byte) returns (out: seq<byte>)
    ensures out == DecodeSpec(p[..], beyond)
  {
    var pad, groups := FullGroups(p);
    var str := new byte[3 * groups + if pad then 1 else 0];
    DecodeFull(p, groups, str);
    Split(p[..], groups, beyond);
    if pad {
      out := DecodeLast(p, 4 * groups, str, beyond);
    } else {
      out := str[..];
      assert out == str[..3 * groups];
    }
  }

  lemma Split(s: seq<byte>, groups: nat, beyond: byte)
    requires 4 * groups <= |s| <= 4 * groups + 4
    requires |s| - 4 * groups == 4 ==> s[|s| - 1] == PAD
    requires |s| == 4 * groups > 0 ==> s[|s| - 1] != PAD
    ensures DecodeSpec(s, beyond)
            == FullSpec(s, groups) + if |s| == 4 * groups then [] else Tail(s[4 * groups..], beyond)
  {
    FullGroupsFirst(s, groups, beyond);
    assert s[0..] == s;
  }

  /** The loop over the full groups. */
  method DecodeFull(p: array<byte>, groups: nat, str: array<byte>)
    requires p != str && 4 * groups <= p.Length && 3 * groups <= str.Length
    modifies str
    ensures str[..3 * groups] == FullSpec(p[..], groups)
  {
    for k := 0 to groups
      invariant str[..3 * k] == FullSpec(p[..], k)
    {
      DecodeGroup(p, 4 * k, str, 3 * k);
    }
  }

  /** How many groups are full, and whether a shorter or padded one follows them. */
  method FullGroups(p: array<byte>) returns (pad: bool, groups: nat)
    ensures if pad then 1 <= p.Length - 4 * groups <= 4 else p.Length == 4 * groups
    ensures pad && p.Length - 4 * groups == 4 ==> p[p.Length - 1] == PAD
    ensures !pad && p.Length > 0 ==> p[p.Length - 1] != PAD
  {
    pad := p.Length > 0 && (p.Length % 4 != 0 || p[p.Length - 1] == PAD);
    groups := (p.Length + 3) / 4 - if pad then 1 else 0;
  }

  method DecodeGroup(p: array<byte>, i: nat, str: array<byte>, j: nat)
    requires p != str && i + 4 <= p.Length && j + 3 <= str.Length
    modifies str
    ensures str[..j + 3] == old(str[..j]) + Triple(p[..][i..i + 4])
  {
    var n := Number(Index(p[i]), Index(p[i + 1]), Index(p[i + 2]), Index(p[i + 3]));
    str[j] := High(n);
    str[j + 1] := Middle(n);
    str[j + 2] := Low(n);
  }

  /** The last byte of the buffer, and one more when a third symbol follows. */
  method DecodeLast(p: array<byte>, L: nat, str: array<byte>, beyond: byte) returns (out: seq<byte>)
    requires p != str && 1 <= p.Length - L <= 4 && str.Length > 0
    modifies str
    ensures str[..str.Length - 1] == old(str[..str.Length - 1])
    ensures out == str[..str.Length - 1] + Tail(p[..][L..], beyond)
  {
    var w, x := Index(p[L]), Index(if L + 1 < p.Length then p[L + 1] else beyond);
    str[str.Length - 1] := High(Number(w, x, 0, 0));
    out := str[..];
    if p.Length > L + 2 && p[L + 2] != PAD {
      out := out + [Middle(Number(w, x, Index(p[L + 2]), 0))];
    }
  }

  /* ---- the round trip ---- */

  /** A character as it was encoded, or its counterpart in the alphabet that is safe in URLs. */
  predicate SameSymbol(c: byte, d: byte) {
    d == c || (c == '+' as int && d == '-' as int) || (c == '/' as int && d == '_' as int)
  }

  /** `t` is `e` with any of its trailing pads removed and any symbols replaced by their counterparts. */
  predicate Variant(e: seq<byte>, t: seq<byte>) {
    && |t| <= |e|
    && (forall i :: 0 <= i < |t| ==> SameSymbol(e[i], t[i]))
    && (forall i :: |t| <= i < |e| ==> e[i] == PAD)
  }

  lemma IndexOfSymbol(x: sextet, d: byte)
    requires SameSymbol(Symbol(x), d)
    ensures Index(d) == x && d != PAD
  {
  }

  lemma Regroup(a: byte, b: byte, c: byte)
    ensures Number(Six0(a), Six1(a, b), Six2(b, c), Six3(c)) == a * 0x1_0000 + b * 0x100 + c
  {
    assert a * 0x1_0000 == a / 4 * 0x4_0000 + a % 4 * 16 * 0x1000;
    assert b * 0x100 == b / 16 * 0x1000 + b % 16 * 4 * 0x40;
    assert c == c / 64 * 0x40 + c % 64;
  }

  lemma Bytes(a: byte, b: byte, c: byte)
    ensures var n: nat := a * 0x1_0000 + b * 0x100 + c;
            n < 0x100_0000 && High(n) == a && Middle(n) == b && Low(n) == c
  {
  }

  lemma TripleOfQuad(a: byte, b: byte, c: byte, p: seq<byte>)
    requires |p| == 4 && forall i :: 0 <= i < 4 ==> SameSymbol(Quad(a, b, c)[i], p[i])
    ensures Triple(p) == [a, b, c] && p[3] != PAD
  {
    assert SameSymbol(Quad(a, b, c)[0], p[0]) && SameSymbol(Quad(a, b, c)[1], p[1]);
    assert SameSymbol(Quad(a, b, c)[2], p[2]) && SameSymbol(Quad(a, b, c)[3], p[3]);
    IndexOfSymbol(Six0(a), p[0]);
    IndexOfSymbol(Six1(a, b), p[1]);
    IndexOfSymbol(Six2(b, c), p[2]);
    IndexOfSymbol(Six3(c), p[3]);
    Regroup(a, b, c);
    Bytes(a, b, c);
  }

  /** A last group of two bytes, or of one byte when the third symbol is a pad or missing. */
  lemma TailOfQuad(a: byte, b: byte, t: seq<byte>, beyond: byte)
    requires 2 <= |t| <= 4 && SameSymbol(Symbol(Six0(a)), t[0]) && SameSymbol(Symbol(Six1(a, b)), t[1])
    requires if |t| > 2 && t[2] != PAD then SameSymbol(Symbol(Six2(b, 0)), t[2]) else b == 0
    ensures Tail(t, beyond) == if |t| > 2 && t[2] != PAD then [a, b] else [a]
  {
    IndexOfSymbol(Six0(a), t[0]);
    IndexOfSymbol(Six1(a, b), t[1]);
    HighAlone(a, b);
    if |t| > 2 && t[2] != PAD {
      IndexOfSymbol(Six2(b, 0), t[2]);
      MiddleAlone(a, b);
    }
  }

  lemma HighAlone(a: byte, b: byte)
    ensures High(Number(Six0(a), Six1(a, b), 0, 0)) == a
  {
    assert Number(Six0(a), Six1(a, b), 0, 0) == a * 0x1_0000 + b / 16 * 0x1000;
  }

  lemma MiddleAlone(a: byte, b: byte)
    ensures Middle(Number(Six0(a), Six1(a, b), Six2(b, 0), 0)) == b
  {
    Regroup(a, b, 0);
    Bytes(a, b, 0);
  }

  lemma LastTwo(a: byte, b: byte, t: seq<byte>, beyond: byte)
    requires Variant(Quad(a, b, 0)[..3] + [PAD], t)
    ensures DecodeSpec(t, beyond) == [a, b]
  {
    var e := Quad(a, b, 0)[..3] + [PAD];
    assert e[0] == Symbol(Six0(a)) && e[1] == Symbol(Six1(a, b)) && e[2] == Symbol(Six2(b, 0)) && e[3] == PAD;
    LongerThan(e, t, 2);
    assert SameSymbol(e[0], t[0]) && SameSymbol(e[1], t[1]) && SameSymbol(e[2], t[2]);
    assert |t| == 4 ==> SameSymbol(e[3], t[3]);
    IndexOfSymbol(Six2(b, 0), t[2]);
    TailOfQuad(a, b, t, beyond);
  }

  lemma LastOne(a: byte, t: seq<byte>, beyond: byte)
    requires Variant(Quad(a, 0, 0)[..2] + [PAD, PAD], t)
    ensures DecodeSpec(t, beyond) == [a]
  {
    var e := Quad(a, 0, 0)[..2] + [PAD, PAD];
    assert e[0] == Symbol(Six0(a)) && e[1] == Symbol(Six1(a, 0)) && e[2] == PAD && e[3] == PAD;
    LongerThan(e, t, 1);
    assert SameSymbol(e[0], t[0]) && SameSymbol(e[1], t[1]);
    assert |t| > 2 ==> SameSymbol(e[2], t[2]);
    assert |t| > 3 ==> SameSymbol(e[3], t[3]);
    TailOfQuad(a, 0, t, beyond);
  }

  lemma LongerThan(e: seq<byte>, t: seq<byte>, k: nat)
    requires Variant(e, t) && k < |e| && e[k] != PAD
    ensures |t| > k
  {
  }

  lemma FirstGroup(a: byte, b: byte, c: byte, e: seq<byte>, t: seq<byte>)
    requires |e| >= 4 && e[..4] == Quad(a, b, c) && Variant(e, t)
    ensures |t| >= 4 && t[3] != PAD && Triple(t[..4]) == [a, b, c]
  {
    var q := Quad(a, b, c);
    assert e[3] == q[3] == Symbol(Six3(c));
    LongerThan(e, t, 3);
    forall i | 0 <= i < 4
      ensures SameSymbol(q[i], t[..4][i])
    {
      assert SameSymbol(e[i], t[i]) && e[i] == e[..4][i];
    }
    TripleOfQuad(a, b, c, t[..4]);
  }

  /** Decoding any variant of an encoding gives back what was encoded. */
  lemma {:induction false} RoundTrip(s: seq<byte>, t: seq<byte>, beyond: byte)
    requires Variant(EncodeSpec(s), t)
    ensures DecodeSpec(t, beyond) == s
  {
    if |s| >= 3 {
      EncodeUnfold(s);
      FirstGroup(s[0], s[1], s[2], EncodeSpec(s), t);
      VariantTail(EncodeSpec(s), t);
      RoundTrip(s[3..], t[4..], beyond);
      DecodeStep(t, beyond);
      assert s == [s[0], s[1], s[2]] + s[3..];
    } else if |s| == 2 {
      LastTwo(s[0], s[1], t, beyond);
      assert s == [s[0], s[1]];
    } else if |s| == 1 {
      LastOne(s[0], t, beyond);
      assert s == [s[0]];
    }
  }

  lemma VariantTail(e: seq<byte>, t: seq<byte>)
    requires Variant(e, t) && |t| >= 4
    ensures Variant(e[4..], t[4..])
  {
    forall i | 0 <= i < |t| - 4
      ensures SameSymbol(e[4..][i], t[4..][i])
    {
      assert SameSymbol(e[4 + i], t[4 + i]);
    }
  }

  /* ---- the vectors of section 10 of RFC 4648 ---- */

  /** "f", "fo" and "foo" are encoded as "Zg==", "Zm8=" and "Zm9v". */
  lemma Vectors(f: byte, o: byte)
    requires f == 102 && o == 111
    ensures EncodeSpec([f]) == [90, 103, 61, 61]
    ensures EncodeSpec([f, o]) == [90, 109, 56, 61]
    ensures EncodeSpec([f, o, o]) == [90, 109, 57, 118]
  {
    QuadOf(f, 0, 0, 25, 32, 0, 0);
    QuadOf(f, o, 0, 25, 38, 60, 0);
    QuadOf(f, o, o, 25, 38, 61, 47);
    EncodeUnfold([f, o, o]);
    assert [f, o, o][3..] == [];
  }

  lemma QuadOf(a: byte, b: byte, c: byte, w: sextet, x: sextet, y: sextet, z: sextet)
    requires a / 4 == w && a % 4 * 16 + b / 16 == x && b % 16 * 4 + c / 64 == y && c % 64 == z
    ensures Quad(a, b, c) == [Symbol(w), Symbol(x), Symbol(y), Symbol(z)]
  {
  }

  /** The padding tells how many bytes the last group has, after `k` full ones. */
  lemma PadsMean(s: seq<byte>, k: nat)
    requires 3 * k < |s| <= 3 * k + 3
    ensures var e := EncodeSpec(s);
            |e| == 4 * k + 4 && (e[|e| - 1] == PAD <==> |s| < 3 * k + 3) && (e[|e| - 2] == PAD <==> |s| == 3 * k + 1)
  {
    FullEncodingFirst(s, k);
    PadsOfOne(s[3 * k..]);
    LastOnes(FullEncoding(s, k), EncodeSpec(s[3 * k..]));
  }

  lemma EncodeLength(s: seq<byte>)
    ensures |EncodeSpec(s)| == 4 * ((|s| + 2) / 3)
  {
    if s != [] {
      PadsMean(s, (|s| - 1) / 3);
    }
  }

  lemma LastOnes(a: seq<byte>, b: seq<byte>)
    requires |b| >= 2
    ensures (a + b)[|a + b| - 1] == b[|b| - 1] && (a + b)[|a + b| - 2] == b[|b| - 2]
  {
  }

  lemma PadsOfOne(s: seq<byte>)
    requires 1 <= |s| <= 3
    ensures |EncodeSpec(s)| == 4
    ensures (EncodeSpec(s)[3] == PAD <==> |s| < 3) && (EncodeSpec(s)[2] == PAD <==> |s| == 1)
  {
    if |s| == 3 {
      EncodeUnfold(s);
      assert s[3..] == [];
      assert EncodeSpec(s) == Quad(s[0], s[1], s[2]);
    }
    NoPads(s[0], if |s| >= 2 then s[1] else 0, if |s| == 3 then s[2] else 0);
  }

  lemma NoPads(a: byte, b: byte, c: byte)
    ensures PAD !in Quad(a, b, c)
  {
  }
}
