/** Shared vocabulary: optional values, bytes, little-endian numbers and `memcmp`. */
module Prelude {

  datatype Option<+T> = None | Some(value: T)

  type byte = x: int | 0 <= x < 256

  /** A `uint16_t` as loaded from memory. */
  type u16 = x: int | 0 <= x < 0x1_0000

  /** A `uint32_t` as loaded from memory. */
  type u32 = x: int | 0 <= x < 0x1_0000_0000

  /** A SHA-1 digest. */
  type Digest = d: seq<byte> | |d| == 20
    witness [0, 0, 0, 0, 0, 0, 0, 0, 0, 0, 0, 0, 0, 0, 0, 0, 0, 0, 0, 0]

  function Min(a: int, b: int): int {
    if a <= b then a else b
  }

  function Max(a: nat, b: nat): nat {
    if a <= b then b else a
  }

  function Pow(base: nat, exp: nat): (power: nat)
    ensures base > 0 ==> power > 0
  {
    if exp == 0 then 1 else base * Pow(base, exp - 1)
  }

  lemma {:induction false} Grows(base: nat, p: nat)
    requires base > 0
    ensures p <= base * p
  {
    if base > 1 {
      Grows(base - 1, p);
      assert base * p == (base - 1) * p + p;
    }
  }

  lemma {:induction false} PowMonotone(base: nat, small: nat, big: nat)
    requires base > 0 && small <= big
    ensures Pow(base, small) <= Pow(base, big)
    decreases big
  {
    if small < big {
      PowMonotone(base, small, big - 1);
      Grows(base, Pow(base, big - 1));
    }
  }

  /** The number a little-endian host loads from these bytes. */
  function FromLE(s: seq<byte>): nat {
    if s == [] then 0 else s[0] + 256 * FromLE(s[1..])
  }

  /** The `k` bytes a little-endian host stores for `n`. */
  function ToLE(n: nat, k: nat): (s: seq<byte>)
    ensures |s| == k
  {
    if k == 0 then [] else [n % 256] + ToLE(n / 256, k - 1)
  }

  lemma {:induction false} FromToLE(n: nat, k: nat)
    requires n < Pow(256, k)
    ensures FromLE(ToLE(n, k)) == n
  {
    if k == 0 {
    } else {
      FromToLE(n / 256, k - 1);
    }
  }

  /** A 32-bit number survives in four or more bytes. */
  lemma WordToLE(n: nat, k: nat)
    requires n < 0x1_0000_0000 && k >= 4
    ensures FromLE(ToLE(n, k)) == n
  {
    assert Pow(256, 4) == 0x1_0000_0000 by {
      assert Pow(256, 2) == 0x1_0000;
    }
    PowMonotone(256, 4, k);
    FromToLE(n, k);
  }

  /** The sign of `memcmp(a, b, n)` on two areas of the same size. */
  function MemCmp(a: seq<byte>, b: seq<byte>): (sign: int)
    requires |a| == |b|
    ensures sign == 0 <==> a == b
    ensures -1 <= sign <= 1
  {
    if a == [] then 0
    else if a[0] < b[0] then -1
    else if a[0] > b[0] then 1
    else MemCmp(a[1..], b[1..])
  }

  lemma {:induction false} MemCmpAntisymmetric(a: seq<byte>, b: seq<byte>)
    requires |a| == |b|
    ensures MemCmp(a, b) == -MemCmp(b, a)
  {
    if a != [] && a[0] == b[0] {
      MemCmpAntisymmetric(a[1..], b[1..]);
    }
  }

  lemma {:induction false} MemCmpSplit(a: seq<byte>, b: seq<byte>, k: nat)
    requires |a| == |b| && k <= |a|
    ensures MemCmp(a, b) == if a[..k] == b[..k] then MemCmp(a[k..], b[k..]) else MemCmp(a[..k], b[..k])
  {
    if k == 0 {
    } else if a[0] == b[0] {
      MemCmpSplit(a[1..], b[1..], k - 1);
      assert a[1..][..k - 1] == a[..k][1..] && b[1..][..k - 1] == b[..k][1..];
      assert a[1..][k - 1..] == a[k..] && b[1..][k - 1..] == b[k..];
      assert a[..k] == [a[0]] + a[..k][1..] && b[..k] == [b[0]] + b[..k][1..];
    }
  }

  /** The first byte that differs decides. */
  lemma {:induction false} MemCmpMeans(a: seq<byte>, b: seq<byte>)
    requires |a| == |b|
    ensures MemCmp(a, b) < 0 <==> exists i :: 0 <= i < |a| && a[..i] == b[..i] && a[i] < b[i]
  {
    if a != [] && a[0] == b[0] {
      MemCmpMeans(a[1..], b[1..]);
      forall i | 0 < i < |a|
        ensures a[..i] == b[..i] <==> a[1..][..i - 1] == b[1..][..i - 1]
      {
        assert a[..i] == [a[0]] + a[1..][..i - 1] && b[..i] == [b[0]] + b[1..][..i - 1];
      }
      if i :| 0 <= i < |a| && a[..i] == b[..i] && a[i] < b[i] {
        assert a[1..][i - 1] < b[1..][i - 1];
      }
      if j :| 0 <= j < |a[1..]| && a[1..][..j] == b[1..][..j] && a[1..][j] < b[1..][j] {
        assert a[..j + 1] == b[..j + 1] && a[j + 1] < b[j + 1];
      }
    } else if a != [] {
      forall i | 0 < i < |a|
        ensures a[..i] != b[..i]
      {
        assert a[..i][0] == a[0] && b[..i][0] == b[0];
      }
      assert a[..0] == b[..0];
    }
  }

  lemma ToLEInjective(m: u16, n: u16)
    ensures ToLE(m, 2) == ToLE(n, 2) <==> m == n
  {
    assert Pow(256, 2) == 0x1_0000;
    FromToLE(m, 2);
    FromToLE(n, 2);
  }
}
