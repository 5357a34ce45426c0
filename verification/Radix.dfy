/**
 * Network prefixes as bit sets of any width: the arithmetic on which the radix tree of addresses
 * is built. A bit set is a sequence with bit 0, the least significant one, first; a prefix is read
 * from the most significant end.
 */
module Radix {
  import opened Prelude

  type Bits = seq<bool>

  function Bit(b: bool): nat {
    if b then 1 else 0
  }

  function Value(x: Bits): nat {
    if x == [] then 0 else Bit(x[0]) + 2 * Value(x[1..])
  }

  /** The low `n` bits of a number. */
  function ToBits(v: nat, n: nat): (x: Bits)
    ensures |x| == n
  {
    if n == 0 then [] else [v % 2 == 1] + ToBits(v / 2, n - 1)
  }

  function Zeros(n: nat): (x: Bits)
    ensures |x| == n && forall i :: 0 <= i < n ==> !x[i]
  {
    seq(n, _ => false)
  }

  /** What bit `k` contributes. */
  function Weight(b: bool, k: nat): nat {
    if b then Pow(2, k) else 0
  }

  lemma {:induction false} ValueAppend(x: Bits, b: bool)
    ensures Value(x + [b]) == Value(x) + Weight(b, |x|)
  {
    if x == [] {
      assert x + [b] == [b];
    } else {
      assert (x + [b])[1..] == x[1..] + [b];
      ValueAppend(x[1..], b);
    }
  }

  lemma {:induction false} ValueBound(x: Bits)
    ensures Value(x) < Pow(2, |x|)
  {
    if x != [] {
      ValueBound(x[1..]);
    }
  }

  lemma {:induction false} ValueInjective(x: Bits, y: Bits)
    requires |x| == |y| && Value(x) == Value(y)
    ensures x == y
  {
    if x != [] {
      ValueInjective(x[1..], y[1..]);
      assert x == [x[0]] + x[1..] && y == [y[0]] + y[1..];
    }
  }

  lemma {:induction false} ValueOfNumber(v: nat, n: nat)
    requires v < Pow(2, n)
    ensures Value(ToBits(v, n)) == v
  {
    if n > 0 {
      ValueOfNumber(v / 2, n - 1);
      assert ToBits(v, n)[1..] == ToBits(v / 2, n - 1);
    }
  }

  /* ---- bitset operators ---- */

  function And(x: Bits, y: Bits): (r: Bits)
    requires |x| == |y|
    ensures |r| == |x| && forall i :: 0 <= i < |x| ==> r[i] == (x[i] && y[i])
  {
    seq(|x|, i requires 0 <= i < |x| => x[i] && y[i])
  }

  function Or(x: Bits, y: Bits): (r: Bits)
    requires |x| == |y|
    ensures |r| == |x| && forall i :: 0 <= i < |x| ==> r[i] == (x[i] || y[i])
  {
    seq(|x|, i requires 0 <= i < |x| => x[i] || y[i])
  }

  function Shl(x: Bits, k: nat): (r: Bits)
    ensures |r| == |x| && forall i :: 0 <= i < |x| ==> r[i] == (i >= k && x[i - k])
  {
    seq(|x|, i requires 0 <= i < |x| => i >= k && x[i - k])
  }

  function Shr(x: Bits, k: nat): (r: Bits)
    ensures |r| == |x| && forall i :: 0 <= i < |x| ==> r[i] == (i + k < |x| && x[i + k])
  {
    seq(|x|, i requires 0 <= i < |x| => i + k < |x| && x[i + k])
  }

  /** Subtraction modulo 2^N, by its effect on values. */
  ghost predicate Subtracted(x: Bits, y: Bits, r: Bits) {
    |r| == |x| == |y| && Value(r) == Value(x) - Value(y) + if Value(x) < Value(y) then Pow(2, |x|) else 0
  }

  /** The borrow chain. `y` is the number's own low bits. */
  method SubtractInPlace(x: array<bool>, y: nat)
    modifies x
    ensures Subtracted(old(x[..]), ToBits(y, x.Length), x[..])
  {
    var n := x.Length;
    var ys := ToBits(y, n);
    var borrow := false;
    ghost var was := x[..];
    var i := 0;
    while i < n
      invariant i <= n
      invariant Value(x[..i]) + Value(ys[..i]) == Value(was[..i]) + Weight(borrow, i)
      invariant x[i..] == was[i..]
    {
      ghost var before := borrow;
      ghost var low := x[..i];
      assert x[i] == x[i..][0] == was[i..][0] == was[i];
      if borrow {
        if x[i] {
          x[i] := ys[i];
          borrow := ys[i];
        } else {
          x[i] := !ys[i];
          borrow := true;
        }
      } else if x[i] {
        x[i] := !ys[i];
        borrow := false;
      } else {
        x[i] := ys[i];
        borrow := ys[i];
      }
      BorrowStep(low, was[..i], ys[..i], x[i], was[i], ys[i], before, borrow);
      assert x[..i + 1] == low + [x[i]] && was[..i + 1] == was[..i] + [was[i]] && ys[..i + 1] == ys[..i] + [ys[i]];
      assert x[i + 1..] == was[i..][1..];
      i := i + 1;
    }
    assert x[..n] == x[..] && was[..n] == was && ys[..n] == ys;
    ValueBound(x[..]);
    ValueBound(was);
    ValueBound(ys);
  }

  lemma BorrowStep(r: Bits, x: Bits, y: Bits, rb: bool, xb: bool, yb: bool, before: bool, after: bool)
    requires |r| == |x| == |y|
    requires Value(r) + Value(y) == Value(x) + Weight(before, |x|)
    requires Bit(rb) + Bit(yb) + Bit(before) == Bit(xb) + 2 * Bit(after)
    ensures Value(r + [rb]) + Value(y + [yb]) == Value(x + [xb]) + Weight(after, |x| + 1)
  {
    ValueAppend(r, rb);
    ValueAppend(x, xb);
    ValueAppend(y, yb);
  }

  /* ---- ordering ---- */

  /** The first differing bit from the top decides. */
  function Less(x: Bits, y: Bits): bool
    requires |x| == |y|
  {
    if x == [] then false
    else
      var n := |x| - 1;
      if x[n] != y[n] then y[n] else Less(x[..n], y[..n])
  }

  method LessLoop(x: Bits, y: Bits) returns (r: bool)
    requires |x| == |y|
    ensures r == Less(x, y)
  {
    var i: nat := |x|;
    assert x[..i] == x && y[..i] == y;
    while i > 0
      invariant i <= |x|
      invariant Less(x, y) == Less(x[..i], y[..i])
    {
      i := i - 1;
      assert x[..i + 1][..i] == x[..i] && y[..i + 1][..i] == y[..i];
      if x[i] != y[i] {
        return y[i];
      }
    }
    return false;
  }

  lemma {:induction false} LessIsNumeric(x: Bits, y: Bits)
    requires |x| == |y|
    ensures Less(x, y) <==> Value(x) < Value(y)
  {
    if x != [] {
      var n := |x| - 1;
      var u, v := x[..n], y[..n];
      LessIsNumeric(u, v);
      assert x == u + [x[n]] && y == v + [y[n]];
      ValueAppend(u, x[n]);
      ValueAppend(v, y[n]);
      ValueBound(u);
      ValueBound(v);
    }
  }

  /* ---- network entries ---- */

  datatype Entry = Entry(addr: Bits, prefixLen: nat)

  /** Bit `n` of the prefix, counted from the most significant end. */
  function At(e: Entry, n: nat): bool
    requires n < |e.addr|
  {
    e.addr[|e.addr| - 1 - n]
  }

  function EntryLess(x: Entry, y: Entry): bool
    requires |x.addr| == |y.addr|
  {
    if x.addr == y.addr then x.prefixLen < y.prefixLen else Less(x.addr, y.addr)
  }

  /** Entries of one width are ordered by number, then by prefix length: strictly, totally, agreeing with equality. */
  lemma EntryOrder(x: Entry, y: Entry, z: Entry)
    requires |x.addr| == |y.addr| == |z.addr|
    ensures EntryLess(x, y)
            <==> Value(x.addr) < Value(y.addr) || (Value(x.addr) == Value(y.addr) && x.prefixLen < y.prefixLen)
    ensures !EntryLess(x, x)
    ensures EntryLess(x, y) && EntryLess(y, z) ==> EntryLess(x, z)
    ensures !EntryLess(x, y) && !EntryLess(y, x) <==> x == y
  {
    LessIsNumeric(x.addr, y.addr);
    LessIsNumeric(y.addr, x.addr);
    LessIsNumeric(y.addr, z.addr);
    LessIsNumeric(x.addr, z.addr);
    LessIsNumeric(x.addr, x.addr);
    if Value(x.addr) == Value(y.addr) { ValueInjective(x.addr, y.addr); }
    if Value(y.addr) == Value(z.addr) { ValueInjective(y.addr, z.addr); }
    if Value(x.addr) == Value(z.addr) { ValueInjective(x.addr, z.addr); }
  }

  /** Bits [offset, offset + length) of an entry, moved to the front, all others clear. */
  ghost predicate Selects(e: Entry, offset: nat, length: nat, r: Entry)
    requires offset + length <= |e.addr|
  {
    && |r.addr| == |e.addr| && r.prefixLen == length
    && forall n :: 0 <= n < |e.addr| ==> At(r, n) == (n < length && At(e, offset + n))
  }

  /** Ones in the low `k` places. */
  function LowOnes(k: nat, n: nat): (x: Bits)
    requires k <= n
    ensures |x| == n && forall i :: 0 <= i < n ==> x[i] == (i < k)
  {
    seq(n, i => i < k)
  }

  lemma {:induction false} LowOnesValue(k: nat, n: nat)
    requires k <= n
    ensures Value(LowOnes(k, n)) == Pow(2, k) - 1
  {
    if n == 0 {
    } else if k == n {
      LowOnesValue(k - 1, n - 1);
      assert LowOnes(k, n) == LowOnes(k - 1, n - 1) + [true];
      ValueAppend(LowOnes(k - 1, n - 1), true);
    } else {
      LowOnesValue(k, n - 1);
      assert LowOnes(k, n) == LowOnes(k, n - 1) + [false];
      ValueAppend(LowOnes(k, n - 1), false);
    }
  }

  lemma {:induction false} OneBitValue(k: nat, n: nat)
    requires k < n
    ensures Value(Shl(ToBits(1, n), k)) == Pow(2, k)
  {
    var one := ToBits(1, n);
    ZeroNumber(n - 1);
    assert one == [true] + Zeros(n - 1);
    if k == 0 {
      assert Shl(one, 0) == one;
      assert one[1..] == Zeros(n - 1);
      ZeroValue(n - 1);
    } else {
      OneBitValue(k - 1, n - 1);
      var smaller := ToBits(1, n - 1);
      ZeroNumber(n - 2);
      assert smaller == [true] + Zeros(n - 2);
      assert Shl(one, k) == [false] + Shl(smaller, k - 1);
      assert Shl(one, k)[1..] == Shl(smaller, k - 1);
    }
  }

  lemma {:induction false} ZeroNumber(n: nat)
    ensures ToBits(0, n) == Zeros(n)
  {
    if n > 0 {
      ZeroNumber(n - 1);
      assert Zeros(n) == [false] + Zeros(n - 1);
    }
  }

  lemma {:induction false} ZeroValue(n: nat)
    ensures Value(Zeros(n)) == 0
  {
    if n > 0 {
      ZeroValue(n - 1);
      assert Zeros(n)[1..] == Zeros(n - 1);
    }
  }

  /** Subtracting one from 2^k leaves k ones; for k = N the power has been dropped and zero wraps around. */
  lemma MaskValue(k: nat, n: nat, was: Bits, mask: Bits)
    requires 0 < n && k <= n
    requires was == if k == n then Zeros(n) else Shl(ToBits(1, n), k)
    requires Subtracted(was, ToBits(1, n), mask)
    ensures mask == LowOnes(k, n)
  {
    OneBitValue(0, n);
    assert Shl(ToBits(1, n), 0) == ToBits(1, n);
    assert Value(ToBits(1, n)) == 1;
    LowOnesValue(k, n);
    if k == n {
      ZeroValue(n);
    } else {
      OneBitValue(k, n);
      PowPositive(k);
    }
    ValueInjective(mask, LowOnes(k, n));
  }

  lemma {:induction false} PowPositive(k: nat)
    ensures Pow(2, k) >= 1
  {
    if k > 0 {
      PowPositive(k - 1);
    }
  }

  /** `radix_substr`: the mask is built by subtraction, moved into place and applied. */
  method Substr(e: Entry, offset: nat, length: nat) returns (r: Entry)
    requires 0 < |e.addr| && offset + length <= |e.addr|
    ensures Selects(e, offset, length, r)
  {
    var n := |e.addr|;
    var start := if length == n then Zeros(n) else Shl(ToBits(1, n), length);
    var mask := new bool[n](i requires 0 <= i < n => start[i]);
    assert mask[..] == start;
    SubtractInPlace(mask, 1);
    MaskValue(length, n, start, mask[..]);
    var placed := Shl(mask[..], n - length - offset);
    r := Entry(Shl(And(e.addr, placed), offset), length);
    MaskSelects(e, offset, length, mask[..], placed);
  }

  lemma MaskSelects(e: Entry, offset: nat, length: nat, mask: Bits, placed: Bits)
    requires offset + length <= |e.addr| && mask == LowOnes(length, |e.addr|)
    requires placed == Shl(mask, |e.addr| - length - offset)
    ensures Selects(e, offset, length, Entry(Shl(And(e.addr, placed), offset), length))
  {
    var r := Entry(Shl(And(e.addr, placed), offset), length);
    forall k | 0 <= k < |e.addr|
      ensures At(r, k) == (k < length && At(e, offset + k))
    {
      var i := |e.addr| - 1 - k;
      assert r.addr[i] == (i >= offset && And(e.addr, placed)[i - offset]);
    }
  }

  /** The first prefix stays, and the bits of the second follow it, on top of any that were there. */
  ghost predicate Joins(x: Entry, y: Entry, r: Entry)
    requires |x.addr| == |y.addr|
  {
    && |r.addr| == |x.addr| && r.prefixLen == x.prefixLen + y.prefixLen
    && (forall n :: 0 <= n < |x.addr| && n < x.prefixLen ==> At(r, n) == At(x, n))
    && (forall n :: x.prefixLen <= n < |x.addr| ==> At(r, n) == (At(x, n) || At(y, n - x.prefixLen)))
  }

  method Join(x: Entry, y: Entry) returns (r: Entry)
    requires |x.addr| == |y.addr|
    ensures Joins(x, y, r)
    ensures (forall n :: x.prefixLen <= n < |x.addr| ==> !At(x, n)) ==>
              forall n :: x.prefixLen <= n < |x.addr| ==> At(r, n) == At(y, n - x.prefixLen)
  {
    r := Entry(x.addr, 0);
    var moved := Shr(y.addr, x.prefixLen);
    r := r.(addr := Or(r.addr, moved));
    r := r.(prefixLen := x.prefixLen + y.prefixLen);
    var w := |x.addr|;
    forall n | 0 <= n < w
      ensures At(r, n) == (At(x, n) || (n >= x.prefixLen && At(y, n - x.prefixLen)))
    {
      assert r.addr[w - 1 - n] == (x.addr[w - 1 - n] || moved[w - 1 - n]);
    }
  }

  lemma SameAt(x: Entry, y: Entry)
    requires |x.addr| == |y.addr| && x.prefixLen == y.prefixLen
    requires forall n :: 0 <= n < |x.addr| ==> At(x, n) == At(y, n)
    ensures x == y
  {
    forall i | 0 <= i < |x.addr|
      ensures x.addr[i] == y.addr[i]
    {
      assert At(x, |x.addr| - 1 - i) == At(y, |x.addr| - 1 - i);
    }
  }

  /** A substring is determined by the bits it selects. */
  lemma SelectsUnique(e: Entry, offset: nat, length: nat, r: Entry, s: Entry)
    requires offset + length <= |e.addr| && Selects(e, offset, length, r) && Selects(e, offset, length, s)
    ensures r == s
  {
    SameAt(r, s);
  }

  /** A substring of a substring is a substring. */
  lemma SubstrOfSubstr(e: Entry, o1: nat, l1: nat, r: Entry, o2: nat, l2: nat, s: Entry)
    requires o1 + l1 <= |e.addr| && o2 + l2 <= l1
    requires Selects(e, o1, l1, r) && Selects(r, o2, l2, s)
    ensures Selects(e, o1 + o2, l2, s)
  {
    forall n | 0 <= n < |e.addr|
      ensures At(s, n) == (n < l2 && At(e, o1 + o2 + n))
    {
      if n < l2 {
        assert At(s, n) == At(r, o2 + n);
      }
    }
  }

  /** Joining adjacent substrings gives the larger substring. */
  lemma JoinAdjacent(e: Entry, offset: nat, l1: nat, x: Entry, l2: nat, y: Entry, j: Entry)
    requires offset + l1 + l2 <= |e.addr|
    requires Selects(e, offset, l1, x) && Selects(e, offset + l1, l2, y) && Joins(x, y, j)
    ensures Selects(e, offset, l1 + l2, j)
  {
    forall k | 0 <= k < |e.addr|
      ensures At(j, k) == (k < l1 + l2 && At(e, offset + k))
    {
      assert At(x, k) == (k < l1 && At(e, offset + k));
      if k >= l1 {
        assert At(y, k - l1) == (k - l1 < l2 && At(e, offset + l1 + (k - l1)));
      }
    }
  }
}
