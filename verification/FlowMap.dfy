/**
 * The sharded flow table: `buckets` hash maps, one mutex per bucket.
 *
 * A method stands for the moment at which its `lock()` has been granted: that the mutex is free is
 * therefore a precondition here, and a blocked call is a step not taken in module CaptureProtocol.
 */
module FlowTable {
  import opened Prelude

  /** The identity of a shared flow object. */
  type FlowRef = nat

  type Thread = nat

  type Bucket = map<Digest, FlowRef>

  /** The first eight bytes of the digest, read as a machine word, modulo the number of buckets. */
  function HashToBucket(d: Digest, buckets: nat): (b: nat)
    requires buckets > 0
    ensures b < buckets
  {
    FromLE(d[..8]) % buckets
  }

  /** What all threads share: the buckets and the holder of each bucket's mutex. */
  datatype Table = Table(bucket: seq<Bucket>, owner: seq<Option<Thread>>) {
    predicate Valid() {
      && |bucket| == |owner| > 0
      && forall b, d: Digest :: 0 <= b < |bucket| && d in bucket[b] ==> HashToBucket(d, |bucket|) == b
    }

    function Home(d: Digest): (b: nat)
      requires Valid()
      ensures b < |bucket|
    {
      HashToBucket(d, |bucket|)
    }

    function Lock(b: nat, t: Thread): (r: Table)
      requires Valid() && b < |owner|
      ensures r.Valid()
    {
      this.(owner := owner[b := Some(t)])
    }

    function Unlock(b: nat): (r: Table)
      requires Valid() && b < |owner|
      ensures r.Valid()
    {
      this.(owner := owner[b := None])
    }

    function Find(d: Digest): Option<FlowRef>
      requires Valid()
    {
      if d in bucket[Home(d)] then Some(bucket[Home(d)][d]) else None
    }

    /** `unordered_map::insert`: an existing entry stays as it is. */
    function Put(d: Digest, f: FlowRef): (r: Table)
      requires Valid()
      ensures r.Valid() && r.Find(d).Some?
    {
      if d in bucket[Home(d)] then this
      else
        var grown: Bucket := bucket[Home(d)][d := f];
        this.(bucket := bucket[Home(d) := grown])
    }

    function Erase(d: Digest): (r: Table)
      requires Valid()
      ensures r.Valid()
    {
      this.(bucket := bucket[Home(d) := bucket[Home(d)] - {d}])
    }
  }

  /** The bucket is that of the number which the digest's first eight bytes make, lowest first. */
  lemma BucketOf(d: Digest, buckets: nat)
    requires buckets > 0
    ensures var w: seq<int> := d;
            HashToBucket(d, buckets)
            == (w[0] + 0x100 * w[1] + 0x1_0000 * w[2] + 0x100_0000 * w[3] + 0x1_0000_0000 * w[4]
                + 0x100_0000_0000 * w[5] + 0x1_0000_0000_0000 * w[6] + 0x100_0000_0000_0000 * w[7]) % buckets
  {
    EightBytes(d[..8]);
  }

  lemma EightBytes(s: seq<byte>)
    requires |s| == 8
    ensures var w: seq<int> := s;
            FromLE(s) == w[0] + 0x100 * w[1] + 0x1_0000 * w[2] + 0x100_0000 * w[3] + 0x1_0000_0000 * w[4]
                         + 0x100_0000_0000 * w[5] + 0x1_0000_0000_0000 * w[6] + 0x100_0000_0000_0000 * w[7]
  {
    assert s[1..][1..] == s[2..] && s[2..][1..] == s[3..] && s[3..][1..] == s[4..];
    assert s[4..][1..] == s[5..] && s[5..][1..] == s[6..] && s[6..][1..] == s[7..] && s[7..][1..] == [];
    assert FromLE(s[7..]) == s[7];
    assert FromLE(s[6..]) == s[6] + 0x100 * FromLE(s[7..]);
    assert FromLE(s[5..]) == s[5] + 0x100 * FromLE(s[6..]);
    assert FromLE(s[4..]) == s[4] + 0x100 * FromLE(s[5..]);
    assert FromLE(s[3..]) == s[3] + 0x100 * FromLE(s[4..]);
    assert FromLE(s[2..]) == s[2] + 0x100 * FromLE(s[3..]);
    assert FromLE(s[1..]) == s[1] + 0x100 * FromLE(s[2..]);
  }

  /** A flow is found exactly where some bucket stores it. */
  lemma FindMeans(table: Table, d: Digest, f: FlowRef)
    requires table.Valid()
    ensures table.Find(d) == Some(f)
            <==> exists b :: 0 <= b < |table.bucket| && d in table.bucket[b] && table.bucket[b][d] == f
  {
    if b :| 0 <= b < |table.bucket| && d in table.bucket[b] && table.bucket[b][d] == f {
      assert b == table.Home(d);
    }
  }

  /** An insert stores a new digest, an erase takes its digest away, and neither touches any other entry or a mutex. */
  lemma ChangesOne(table: Table, d: Digest, f: FlowRef, e: Digest)
    requires table.Valid()
    ensures table.Put(d, f).Find(e) == if e == d && table.Find(d).None? then Some(f) else table.Find(e)
    ensures table.Erase(d).Find(e) == if e == d then None else table.Find(e)
    ensures table.Put(d, f).owner == table.owner == table.Erase(d).owner
  {
  }

  class FlowMap {
    const buckets: nat
    const bucket: array<Bucket>
    const bucketLock: array<Option<Thread>>

    ghost predicate Valid()
      reads this, bucket, bucketLock
    {
      buckets == bucket.Length == bucketLock.Length && View().Valid()
    }

    function View(): Table
      reads this, bucket, bucketLock
    {
      Table(bucket[..], bucketLock[..])
    }

    predicate Free(b: nat)
      reads this, bucketLock
    {
      b < bucketLock.Length && bucketLock[b].None?
    }

    predicate HeldBy(b: nat, t: Thread)
      reads this, bucketLock
    {
      b < bucketLock.Length && bucketLock[b] == Some(t)
    }

    constructor (buckets: nat)
      requires buckets > 0
      ensures Valid() && fresh(bucket) && fresh(bucketLock) && this.buckets == buckets
      ensures View() == Table(seq(buckets, _ => map[]), seq(buckets, _ => None))
    {
      this.buckets := buckets;
      bucket := new Bucket[buckets](_ => map[]);
      bucketLock := new Option<Thread>[buckets](_ => None);
      new;
      assert bucket[..] == seq(buckets, _ => map[]);
      assert bucketLock[..] == seq(buckets, _ => None);
    }

    method Lookup(t: Thread, digest: Digest, acquireLock: bool) returns (f: Option<FlowRef>)
      requires Valid() && Free(HashToBucket(digest, buckets))
      modifies bucketLock
      ensures Valid()
      ensures f == old(View()).Find(digest)
      ensures View() == if acquireLock then old(View()).Lock(HashToBucket(digest, buckets), t) else old(View())
    {
      f := None;
      var b := HashToBucket(digest, buckets);
      bucketLock[b] := Some(t);
      if digest in bucket[b] {
        f := Some(bucket[b][digest]);
      }
      if !acquireLock {
        bucketLock[b] := None;
      }
      assert bucket[..] == old(bucket[..]);
      assert bucketLock[..] == if acquireLock then old(bucketLock[..])[b := Some(t)] else old(bucketLock[..]);
    }

    method Insert(t: Thread, digest: Digest, flow: FlowRef, unlocked: bool) returns (result: bool)
      requires Valid()
      requires if unlocked then HeldBy(HashToBucket(digest, buckets), t) else Free(HashToBucket(digest, buckets))
      modifies bucket, bucketLock
      ensures Valid()
      ensures result == old(View()).Find(digest).None?
      ensures View() == old(View()).Put(digest, flow)
    {
      var b := HashToBucket(digest, buckets);
      if !unlocked {
        bucketLock[b] := Some(t);
      }
      result := digest !in bucket[b];
      if result {
        bucket[b] := bucket[b][digest := flow];
      }
      if !unlocked {
        bucketLock[b] := None;
      }
      assert bucketLock[..] == old(bucketLock[..]);
      assert bucket[..] == old(View()).Put(digest, flow).bucket;
    }

    method Delete(t: Thread, digest: Digest) returns (deleted: bool)
      requires Valid() && Free(HashToBucket(digest, buckets))
      modifies bucket, bucketLock
      ensures Valid()
      ensures deleted == old(View()).Find(digest).Some?
      ensures View() == old(View()).Erase(digest)
    {
      deleted := false;
      var b := HashToBucket(digest, buckets);
      bucketLock[b] := Some(t);
      if digest in bucket[b] {
        deleted := true;
        bucket[b] := bucket[b] - {digest};
      }
      bucketLock[b] := None;
      assert bucketLock[..] == old(bucketLock[..]);
      assert bucket[..] == old(View()).Erase(digest).bucket by {
        assert old(bucket[b]) - {digest} == bucket[b];
      }
    }

    /** The result tells whether the bucket exists; the source throws EINVAL when it does not. */
    method Acquire(t: Thread, b: nat) returns (ok: bool)
      requires Valid() && (b < buckets ==> Free(b))
      modifies bucketLock
      ensures Valid() && ok == (b < buckets)
      ensures View() == if ok then old(View()).Lock(b, t) else old(View())
    {
      ok := b < buckets;
      if ok {
        bucketLock[b] := Some(t);
      }
      assert bucketLock[..] == if ok then old(bucketLock[..])[b := Some(t)] else old(bucketLock[..]);
      assert bucket[..] == old(bucket[..]);
    }

    method Release(t: Thread, b: nat) returns (ok: bool)
      requires Valid() && (b < buckets ==> HeldBy(b, t))
      modifies bucketLock
      ensures Valid() && ok == (b < buckets)
      ensures View() == if ok then old(View()).Unlock(b) else old(View())
    {
      ok := b < buckets;
      if ok {
        bucketLock[b] := None;
      }
      assert bucketLock[..] == if ok then old(bucketLock[..])[b := None] else old(bucketLock[..]);
      assert bucket[..] == old(bucket[..]);
    }
  }
}
