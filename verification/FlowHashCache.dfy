/**
 * The flow hash cache: a list in order of use, a map of iterators into it, a bulk purge when it is
 * full, and a file format. It refines a recency list, which refines a map of time-stamped entries.
 */
module FlowHashCache {
  import opened Prelude

  type Item = (Digest, Digest)

  /* ---- the recency list: most recently used first ---- */

  predicate Distinct(list: seq<Item>) {
    forall i, j :: 0 <= i < j < |list| ==> list[i].0 != list[j].0
  }

  predicate Has(list: seq<Item>, key: Digest) {
    exists i :: 0 <= i < |list| && list[i].0 == key
  }

  function Position(list: seq<Item>, key: Digest): (i: nat)
    requires Has(list, key)
    ensures i < |list| && list[i].0 == key
  {
    if list[0].0 == key then 0
    else
      assert Has(list[1..], key) by {
        var i :| 0 <= i < |list| && list[i].0 == key;
        assert list[1..][i - 1].0 == key;
      }
      1 + Position(list[1..], key)
  }

  /** Push onto a cache of `cap` entries that drops `drop` entries when full. */
  function PushSpec(list: seq<Item>, cap: nat, drop: nat, key: Digest, value: Digest): seq<Item> {
    if Has(list, key) then list
    else if |list| == cap then [(key, value)] + (if drop <= cap then list[..cap - drop] else [])
    else [(key, value)] + list
  }

  /** A known key changes nothing. A new one goes in front; of a full cache all but `drop` stay, of any other all. */
  predicate Pushed(list: seq<Item>, cap: nat, drop: nat, key: Digest, value: Digest, list': seq<Item>) {
    if Has(list, key) then list' == list
    else
      && list' != [] && list'[0] == (key, value)
      && list'[1..] <= list
      && |list'| == 1 + if |list| == cap then cap - drop else |list|
  }

  lemma PushMeans(list: seq<Item>, cap: nat, drop: nat, key: Digest, value: Digest)
    requires drop <= cap
    ensures Pushed(list, cap, drop, key, value, PushSpec(list, cap, drop, key, value))
    ensures 1 <= drop && |list| <= cap ==> |PushSpec(list, cap, drop, key, value)| <= cap
  {
    if !Has(list, key) {
      var kept := if |list| == cap then list[..cap - drop] else list;
      assert ([(key, value)] + kept)[1..] == kept;
    }
  }

  /** The pair of the key at `i` goes in front, and the others keep their order. */
  lemma PopMeans(list: seq<Item>, i: nat)
    requires Distinct(list) && i < |list|
    ensures Found(list, list[i].0) == Some(list[i].1) && InFront(list, i, PopSpec(list, list[i].0))
  {
    OnlyPosition(list, i);
    MovedToFront(list, i);
  }

  predicate InFront(list: seq<Item>, i: nat, list': seq<Item>)
    requires i < |list|
  {
    && |list'| == |list| && list'[0] == list[i]
    && (forall j :: 0 <= j < i ==> list'[j + 1] == list[j])
    && (forall j :: i < j < |list| ==> list'[j] == list[j])
  }

  lemma MovedToFront(list: seq<Item>, i: nat)
    requires i < |list|
    ensures InFront(list, i, [list[i]] + (list[..i] + list[i + 1..]))
  {
  }

  lemma OnlyPosition(list: seq<Item>, i: nat)
    requires Distinct(list) && i < |list|
    ensures Has(list, list[i].0) && Position(list, list[i].0) == i
  {
    assert list[i].0 == list[i].0;
    var p := Position(list, list[i].0);
    assert list[p].0 == list[i].0;
  }

  /** An unknown key is not found and changes nothing. */
  lemma PopMisses(list: seq<Item>, key: Digest)
    requires forall i :: 0 <= i < |list| ==> list[i].0 != key
    ensures PopSpec(list, key) == list && Found(list, key).None?
  {
  }

  function PopSpec(list: seq<Item>, key: Digest): seq<Item> {
    if Has(list, key) then
      var i := Position(list, key);
      [list[i]] + (list[..i] + list[i + 1..])
    else list
  }

  function Found(list: seq<Item>, key: Digest): Option<Digest> {
    if Has(list, key) then Some(list[Position(list, key)].1) else None
  }

  lemma PushDistinct(list: seq<Item>, cap: nat, drop: nat, key: Digest, value: Digest)
    requires Distinct(list)
    ensures Distinct(PushSpec(list, cap, drop, key, value))
  {
  }

  lemma PopDistinct(list: seq<Item>, key: Digest)
    requires Distinct(list)
    ensures Distinct(PopSpec(list, key)) && |PopSpec(list, key)| == |list|
  {
    if Has(list, key) {
      MoveDistinct(list, Position(list, key));
    }
  }

  lemma MoveDistinct(list: seq<Item>, i: nat)
    requires Distinct(list) && i < |list|
    ensures Distinct([list[i]] + (list[..i] + list[i + 1..]))
  {
    assert Distinct(list[..i] + list[i + 1..]);
  }

  /* ---- the cache object ---- */

  class Node {
    const first: Digest
    const second: Digest

    constructor (first: Digest, second: Digest)
      ensures this.first == first && this.second == second
    {
      this.first, this.second := first, second;
    }
  }

  function View(index: seq<Node>): (list: seq<Item>)
    ensures |list| == |index|
    ensures forall i :: 0 <= i < |list| ==> list[i] == (index[i].first, index[i].second)
  {
    seq(|index|, i requires 0 <= i < |index| => (index[i].first, index[i].second))
  }

  /** Every list node is the one its key's iterator points at, and every iterator points into the list. */
  ghost predicate Linked(index: seq<Node>, lookup: map<Digest, Node>) {
    && (forall i :: 0 <= i < |index| ==> index[i].first in lookup && lookup[index[i].first] == index[i])
    && (forall k: Digest :: k in lookup ==> lookup[k] in index && lookup[k].first == k)
    && (forall i, j :: 0 <= i < j < |index| ==> index[i] != index[j])
  }

  lemma LinkedMeans(index: seq<Node>, lookup: map<Digest, Node>)
    requires Linked(index, lookup)
    ensures Distinct(View(index)) && |lookup| == |index|
    ensures forall k: Digest :: k in lookup <==> Has(View(index), k)
    ensures forall k: Digest :: k in lookup ==> index[Position(View(index), k)] == lookup[k]
  {
    var list := View(index);
    forall k: Digest | k in lookup
      ensures Has(list, k)
    {
      var i :| 0 <= i < |index| && index[i] == lookup[k];
      assert list[i].0 == k;
    }
    KeyCount(list);
    assert lookup.Keys == Keys(list);
  }

  lemma LookupMeans(index: seq<Node>, lookup: map<Digest, Node>, key: Digest)
    requires Linked(index, lookup)
    ensures key in lookup <==> Has(View(index), key)
  {
    LinkedMeans(index, lookup);
  }

  lemma FrontLinked(index: seq<Node>, lookup: map<Digest, Node>, node: Node)
    requires Linked(index, lookup) && node.first !in lookup
    ensures Linked([node] + index, lookup[node.first := node])
    ensures View([node] + index) == [(node.first, node.second)] + View(index)
  {
    var index', lookup' := [node] + index, lookup[node.first := node];
    forall k: Digest | k in lookup'
      ensures lookup'[k] in index'
    {
      if k != node.first {
        assert lookup[k] in index;
      }
    }
  }

  lemma RemovedLinked(index: seq<Node>, lookup: map<Digest, Node>, i: nat)
    requires Linked(index, lookup) && i < |index|
    ensures Linked(index[..i] + index[i + 1..], lookup - {index[i].first})
    ensures View(index[..i] + index[i + 1..]) == View(index)[..i] + View(index)[i + 1..]
  {
    var index', lookup' := index[..i] + index[i + 1..], lookup - {index[i].first};
    forall k: Digest | k in lookup'
      ensures lookup'[k] in index'
    {
      var j :| 0 <= j < |index| && index[j] == lookup[k];
      assert index'[if j < i then j else j - 1] == lookup[k];
    }
  }

  class Cache {
    const cacheSize: nat
    const purgeDivisor: nat  // fhc_purge_divisor of the configuration
    var index: seq<Node>
    var lookup: map<Digest, Node>

    ghost predicate Valid()
      reads this
    {
      purgeDivisor > 0 && Linked(index, lookup)
    }

    ghost function Contents(): seq<Item>
      reads this
    {
      View(index)
    }

    constructor (cacheSize: nat, purgeDivisor: nat)
      requires purgeDivisor > 0
      ensures Valid() && Contents() == [] && this.cacheSize == cacheSize && this.purgeDivisor == purgeDivisor
    {
      this.cacheSize, this.purgeDivisor := cacheSize, purgeDivisor;
      index, lookup := [], map[];
    }

    /** Remove `n` nodes from the back of the list, and their iterators. */
    method PurgeBack(n: nat)
      requires Valid() && n <= |index|
      modifies this
      ensures Valid() && Contents() == old(Contents())[..|old(Contents())| - n]
    {
      var purged := 0;
      while purged < n
        invariant purged <= n && Valid()
        invariant |index| == |old(index)| - purged
        invariant Contents() == old(Contents())[..|index|]
      {
        var last := index[|index| - 1];
        ghost var i := |index| - 1;
        RemovedLinked(index, lookup, i);
        assert index[..i] + index[i + 1..] == index[..i];
        assert Contents()[..i] + Contents()[i + 1..] == Contents()[..i];
        if last.first in lookup {
          lookup := lookup - {last.first};
        }
        index := index[..|index| - 1];
        purged := purged + 1;
      }
    }

    /** The share of a full cache that goes. */
    static method Drop(cap: nat, divisor: nat) returns (drop: nat)
      requires divisor > 0
      ensures drop == cap / divisor && drop <= cap && (divisor <= cap ==> drop >= 1)
    {
      DropAtMostAll(cap, divisor);
      drop := cap / divisor;
    }

    /** A new pair goes in front, after the end of a full cache has been cut off. */
    method PushFront(lowerHash: Digest, upperHash: Digest, drop: nat)
      requires Valid() && drop <= cacheSize && lowerHash !in lookup && !Has(Contents(), lowerHash)
      modifies this
      ensures Valid()
      ensures Contents() == PushSpec(old(Contents()), cacheSize, drop, lowerHash, upperHash)
    {
      LinkedMeans(index, lookup);
      if |lookup| == cacheSize {
        PurgeBack(drop);
      }
      var node := new Node(lowerHash, upperHash);
      PushLinked(old(Contents()), cacheSize, drop, index, lookup, node);
      index := [node] + index;
      lookup := lookup[lowerHash := node];
    }

    method Push(lowerHash: Digest, upperHash: Digest)
      requires Valid()
      modifies this
      ensures Valid()
      ensures Contents() == PushSpec(old(Contents()), cacheSize, cacheSize / purgeDivisor, lowerHash, upperHash)
      ensures Pushed(old(Contents()), cacheSize, cacheSize / purgeDivisor, lowerHash, upperHash, Contents())
      ensures purgeDivisor <= cacheSize && |old(Contents())| <= cacheSize ==> |Contents()| <= cacheSize
    {
      LookupMeans(index, lookup, lowerHash);
      var drop := Drop(cacheSize, purgeDivisor);
      PushMeans(Contents(), cacheSize, drop, lowerHash, upperHash);
      if lowerHash !in lookup {
        PushFront(lowerHash, upperHash, drop);
      }
    }

    method Pop(lowerHash: Digest) returns (upperHash: Option<Digest>)
      requires Valid()
      modifies this
      ensures Valid()
      ensures Contents() == PopSpec(old(Contents()), lowerHash)
      ensures upperHash == Found(old(Contents()), lowerHash)
    {
      LookupMeans(index, lookup, lowerHash);
      upperHash := None;
      if lowerHash in lookup {
        var node := lookup[lowerHash];
        upperHash := Some(node.second);
        var i := IndexOf(index, node);
        var moved := new Node(lowerHash, node.second);
        PopLinked(index, lookup, i, moved);
        index := [moved] + (index[..i] + index[i + 1..]);
        lookup := lookup[lowerHash := moved];
      }
    }

    /** The file is read in records of forty bytes until one is incomplete. */
    method Load(file: seq<byte>)
      requires Valid()
      modifies this
      ensures Valid()
      ensures Contents() == LoadSpec(old(Contents()), cacheSize, cacheSize / purgeDivisor, file)
      ensures purgeDivisor <= cacheSize && |old(Contents())| <= cacheSize ==> |Contents()| <= cacheSize
    {
      var rest := file;
      while |rest| >= 40
        invariant Valid()
        invariant LoadSpec(Contents(), cacheSize, cacheSize / purgeDivisor, rest)
                  == LoadSpec(old(Contents()), cacheSize, cacheSize / purgeDivisor, file)
        invariant purgeDivisor <= cacheSize && |old(Contents())| <= cacheSize ==> |Contents()| <= cacheSize
      {
        Push(rest[..20], rest[20..40]);
        rest := rest[40..];
      }
    }

    method Save() returns (file: seq<byte>)
      requires Valid()
      ensures file == SaveSpec(Contents())
    {
      file := [];
      var i := 0;
      while i < |index|
        invariant i <= |index|
        invariant file + SaveSpec(Contents()[i..]) == SaveSpec(Contents())
      {
        assert Contents()[i..][1..] == Contents()[i + 1..];
        file := file + index[i].first;
        file := file + index[i].second;
        i := i + 1;
      }
    }
  }

  lemma PushLinked(list: seq<Item>, cap: nat, drop: nat, index: seq<Node>, lookup: map<Digest, Node>, node: Node)
    requires Linked(index, lookup) && drop <= cap && !Has(list, node.first)
    requires View(index) == if |list| == cap then list[..cap - drop] else list
    ensures Linked([node] + index, lookup[node.first := node])
    ensures View([node] + index) == PushSpec(list, cap, drop, node.first, node.second)
  {
    LinkedMeans(index, lookup);
    FrontLinked(index, lookup, node);
  }

  lemma PopLinked(index: seq<Node>, lookup: map<Digest, Node>, i: nat, moved: Node)
    requires Linked(index, lookup) && i < |index|
    requires moved.first == index[i].first && moved.second == index[i].second
    ensures var key := moved.first;
            && Linked([moved] + (index[..i] + index[i + 1..]), lookup[key := moved])
            && View([moved] + (index[..i] + index[i + 1..])) == PopSpec(View(index), key)
            && Found(View(index), key) == Some(moved.second)
  {
    var key, list := moved.first, View(index);
    var rest := index[..i] + index[i + 1..];
    assert (lookup - {key})[key := moved] == lookup[key := moved];
    RemovedLinked(index, lookup, i);
    FrontLinked(rest, lookup - {key}, moved);
    PositionIs(index, lookup, i);
    assert list[i] == (key, moved.second);
    assert PopSpec(list, key) == [list[i]] + (list[..i] + list[i + 1..]);
  }

  lemma PositionIs(index: seq<Node>, lookup: map<Digest, Node>, i: nat)
    requires Linked(index, lookup) && i < |index|
    ensures Has(View(index), index[i].first) && Position(View(index), index[i].first) == i
  {
    var list := View(index);
    LinkedMeans(index, lookup);
    assert list[i].0 == index[i].first;
    var p := Position(list, index[i].first);
    assert list[p].0 == list[i].0;
  }

  /** Where an iterator points. */
  method IndexOf(index: seq<Node>, node: Node) returns (i: nat)
    requires node in index
    ensures i < |index| && index[i] == node
  {
    i := 0;
    while index[i] != node
      invariant i < |index|
      invariant node in index[i..]
      decreases |index| - i
    {
      i := i + 1;
    }
  }

  lemma DropAtMostAll(cap: nat, divisor: nat)
    requires divisor > 0
    ensures cap / divisor <= cap
    ensures divisor <= cap <==> cap / divisor >= 1
  {
    var q := cap / divisor;
    assert cap == divisor * q + cap % divisor;
    Grows(divisor, q);
    if q == 0 {
      assert divisor * q == 0;
    } else {
      Grows(q, divisor);
      assert q * divisor == divisor * q;
    }
  }

  function Keys(list: seq<Item>): set<Digest> {
    set i | 0 <= i < |list| :: list[i].0
  }

  lemma {:induction false} KeyCount(list: seq<Item>)
    requires Distinct(list)
    ensures |Keys(list)| == |list|
  {
    if list != [] {
      KeyCount(list[1..]);
      assert Keys(list) == {list[0].0} + Keys(list[1..]);
      assert list[0].0 !in Keys(list[1..]);
    }
  }

  /* ---- the reference: entries stamped with the time of their last use ---- */

  datatype Stamp = Stamp(value: Digest, used: nat)

  datatype Lru = Lru(entries: map<Digest, Stamp>, now: nat)

  function Older(entries: map<Digest, Stamp>, key: Digest): set<Digest>
    requires key in entries
  {
    set k: Digest | k in entries && entries[k].used < entries[key].used
  }

  /** All but the `drop` least recently used entries. */
  function Evict(entries: map<Digest, Stamp>, drop: nat): map<Digest, Stamp> {
    map k: Digest | k in entries && |Older(entries, k)| >= drop :: entries[k]
  }

  function PushLru(s: Lru, cap: nat, drop: nat, key: Digest, value: Digest): Lru {
    if key in s.entries then s
    else
      var kept := if |s.entries| == cap then Evict(s.entries, drop) else s.entries;
      Lru(kept[key := Stamp(value, s.now)], s.now + 1)
  }

  function PopLru(s: Lru, key: Digest): Lru {
    if key in s.entries then Lru(s.entries[key := s.entries[key].(used := s.now)], s.now + 1) else s
  }

  /** The list holds the entries, most recently used first. */
  ghost predicate Represents(list: seq<Item>, s: Lru) {
    && Distinct(list) && Keys(list) == s.entries.Keys
    && (forall i :: 0 <= i < |list| ==> s.entries[list[i].0].value == list[i].1 && s.entries[list[i].0].used < s.now)
    && (forall i, j :: 0 <= i < j < |list| ==> s.entries[list[i].0].used > s.entries[list[j].0].used)
  }

  lemma OlderCount(list: seq<Item>, s: Lru, i: nat)
    requires Represents(list, s) && i < |list|
    ensures |Older(s.entries, list[i].0)| == |list| - 1 - i
  {
    var tail := list[i + 1..];
    forall k | k in Older(s.entries, list[i].0)
      ensures k in Keys(tail)
    {
      var j :| 0 <= j < |list| && list[j].0 == k;
      assert j > i && tail[j - (i + 1)].0 == k;
    }
    assert Older(s.entries, list[i].0) == Keys(tail);
    KeyCount(tail);
  }

  lemma EvictKeepsFront(list: seq<Item>, s: Lru, drop: nat)
    requires Represents(list, s) && drop <= |list|
    ensures Represents(list[..|list| - drop], Lru(Evict(s.entries, drop), s.now))
  {
    var front := list[..|list| - drop];
    forall i | 0 <= i < |list|
      ensures list[i].0 in Evict(s.entries, drop) <==> i < |list| - drop
    {
      OlderCount(list, s, i);
    }
    forall k | k in Evict(s.entries, drop)
      ensures k in Keys(front)
    {
      var i :| 0 <= i < |list| && list[i].0 == k;
      assert front[i].0 == k;
    }
    assert Keys(front) == Evict(s.entries, drop).Keys;
  }

  lemma PushRepresents(list: seq<Item>, s: Lru, cap: nat, drop: nat, key: Digest, value: Digest)
    requires Represents(list, s) && drop <= cap
    ensures Represents(PushSpec(list, cap, drop, key, value), PushLru(s, cap, drop, key, value))
  {
    PushIs(list, s, cap, drop, key, value);
    if !Has(list, key) {
      if |list| == cap {
        FullRepresents(list, s, drop, key, value);
      } else {
        FreshRepresents(list, s, key, value);
      }
    }
  }

  lemma PushIs(list: seq<Item>, s: Lru, cap: nat, drop: nat, key: Digest, value: Digest)
    requires Represents(list, s) && drop <= cap
    ensures Has(list, key) <==> key in Keys(list)
    ensures PushSpec(list, cap, drop, key, value) ==
            if key in Keys(list) then list
            else [(key, value)] + if |list| == cap then list[..|list| - drop] else list
    ensures PushLru(s, cap, drop, key, value) ==
            if key in Keys(list) then s
            else Lru((if |list| == cap then Evict(s.entries, drop) else s.entries)[key := Stamp(value, s.now)],
                     s.now + 1)
  {
    KeyCount(list);
    assert |list| == |s.entries.Keys| == |s.entries|;
  }

  lemma FullRepresents(list: seq<Item>, s: Lru, drop: nat, key: Digest, value: Digest)
    requires Represents(list, s) && drop <= |list| && key !in Keys(list)
    ensures Represents([(key, value)] + list[..|list| - drop],
                       Lru(Evict(s.entries, drop)[key := Stamp(value, s.now)], s.now + 1))
  {
    EvictKeepsFront(list, s, drop);
    FreshRepresents(list[..|list| - drop], Lru(Evict(s.entries, drop), s.now), key, value);
  }

  lemma FreshRepresents(list: seq<Item>, s: Lru, key: Digest, value: Digest)
    requires Represents(list, s) && key !in Keys(list)
    ensures Represents([(key, value)] + list, Lru(s.entries[key := Stamp(value, s.now)], s.now + 1))
  {
    var list' := [(key, value)] + list;
    assert list'[1..] == list;
    assert Keys(list') == {key} + Keys(list) by {
      forall k | k in Keys(list)
        ensures k in Keys(list')
      {
        var i :| 0 <= i < |list| && list[i].0 == k;
        assert list'[i + 1].0 == k;
      }
      assert list'[0].0 == key;
    }
  }

  /** Where the entries stand after entry `i` is taken out. */
  function Skip(i: nat, a: nat): nat {
    if a < i then a else a + 1
  }

  lemma RemoveRepresents(list: seq<Item>, s: Lru, i: nat)
    requires Represents(list, s) && i < |list|
    ensures Represents(list[..i] + list[i + 1..], Lru(s.entries - {list[i].0}, s.now))
  {
    var key, rest := list[i].0, list[..i] + list[i + 1..];
    var s' := Lru(s.entries - {key}, s.now);
    RemoveKeys(list, i);
    SkipsTo(list, i);
    forall a, b | 0 <= a < b < |rest|
      ensures rest[a].0 != rest[b].0
      ensures s'.entries[rest[a].0].used > s'.entries[rest[b].0].used
    {
      var a', b' := Skip(i, a), Skip(i, b);
      assert rest[a] == list[a'] && rest[b] == list[b'] && a' < b' && a' != i && b' != i;
    }
    forall a | 0 <= a < |rest|
      ensures rest[a].0 in s'.entries
      ensures s'.entries[rest[a].0].value == rest[a].1 && s'.entries[rest[a].0].used < s.now
    {
      assert rest[a] == list[Skip(i, a)] && Skip(i, a) != i;
    }
  }

  lemma SkipsTo(list: seq<Item>, i: nat)
    requires i < |list|
    ensures var rest := list[..i] + list[i + 1..]; forall a :: 0 <= a < |rest| ==> rest[a] == list[Skip(i, a)]
  {
  }

  lemma RemoveKeys(list: seq<Item>, i: nat)
    requires Distinct(list) && i < |list|
    ensures Keys(list[..i] + list[i + 1..]) == Keys(list) - {list[i].0}
  {
    var key, rest := list[i].0, list[..i] + list[i + 1..];
    assert forall a :: 0 <= a < |rest| ==> rest[a] == list[Skip(i, a)];
    forall k | k in Keys(list) && k != key
      ensures k in Keys(rest)
    {
      var j :| 0 <= j < |list| && list[j].0 == k;
      assert rest[if j < i then j else j - 1].0 == k;
    }
  }

  lemma PopRepresents(list: seq<Item>, s: Lru, key: Digest)
    requires Represents(list, s)
    ensures Represents(PopSpec(list, key), PopLru(s, key))
    ensures Found(list, key) == if key in s.entries then Some(s.entries[key].value) else None
  {
    assert Has(list, key) <==> key in Keys(list);
    if Has(list, key) {
      var i := Position(list, key);
      var rest, s' := list[..i] + list[i + 1..], Lru(s.entries - {key}, s.now);
      RemoveRepresents(list, s, i);
      FreshRepresents(rest, s', key, list[i].1);
      MovedIs(list, s, i);
    }
  }

  lemma MovedIs(list: seq<Item>, s: Lru, i: nat)
    requires Represents(list, s) && i < |list| && Has(list, list[i].0) && i == Position(list, list[i].0)
    ensures var key, value := list[i].0, list[i].1;
            && [(key, value)] + (list[..i] + list[i + 1..]) == PopSpec(list, key)
            && Lru((s.entries - {key})[key := Stamp(value, s.now)], s.now + 1) == PopLru(s, key)
  {
    var key, value := list[i].0, list[i].1;
    assert (s.entries - {key})[key := Stamp(value, s.now)] == s.entries[key := Stamp(value, s.now)];
    assert (key, value) == list[i];
  }

  /* ---- whole runs ---- */

  datatype Op = Push(key: Digest, value: Digest) | Pop(key: Digest)

  function RunList(list: seq<Item>, cap: nat, drop: nat, ops: seq<Op>): seq<Item>
    decreases |ops|
  {
    if ops == [] then list
    else
      match ops[0]
      case Push(k, v) => RunList(PushSpec(list, cap, drop, k, v), cap, drop, ops[1..])
      case Pop(k) => RunList(PopSpec(list, k), cap, drop, ops[1..])
  }

  function RunLru(s: Lru, cap: nat, drop: nat, ops: seq<Op>): Lru
    decreases |ops|
  {
    if ops == [] then s
    else
      match ops[0]
      case Push(k, v) => RunLru(PushLru(s, cap, drop, k, v), cap, drop, ops[1..])
      case Pop(k) => RunLru(PopLru(s, k), cap, drop, ops[1..])
  }

  /** After any run the cache is the time-stamped map in order of last use. */
  lemma {:induction false} RunRepresents(list: seq<Item>, s: Lru, cap: nat, drop: nat, ops: seq<Op>)
    requires Represents(list, s) && drop <= cap
    ensures Represents(RunList(list, cap, drop, ops), RunLru(s, cap, drop, ops))
    decreases |ops|
  {
    if ops != [] {
      match ops[0]
      case Push(k, v) =>
        PushRepresents(list, s, cap, drop, k, v);
        RunRepresents(PushSpec(list, cap, drop, k, v), PushLru(s, cap, drop, k, v), cap, drop, ops[1..]);
      case Pop(k) =>
        PopRepresents(list, s, k);
        RunRepresents(PopSpec(list, k), PopLru(s, k), cap, drop, ops[1..]);
    }
  }

  lemma {:induction false} RunBounded(list: seq<Item>, cap: nat, drop: nat, ops: seq<Op>)
    requires Distinct(list) && |list| <= cap && 1 <= drop <= cap
    ensures |RunList(list, cap, drop, ops)| <= cap
    decreases |ops|
  {
    if ops != [] {
      match ops[0]
      case Push(k, v) =>
        PushDistinct(list, cap, drop, k, v);
        RunBounded(PushSpec(list, cap, drop, k, v), cap, drop, ops[1..]);
      case Pop(k) =>
        PopDistinct(list, k);
        RunBounded(PopSpec(list, k), cap, drop, ops[1..]);
    }
  }

  /** With nothing to drop, pushes of new keys grow the cache without end. */
  lemma {:induction false} RunGrows(cap: nat, n: nat) returns (ops: seq<Op>)
    requires n < 0x1_0000_0000
    ensures |RunList([], cap, 0, ops)| == n
    ensures forall i :: 0 <= i < n ==> FromLE(RunList([], cap, 0, ops)[i].0) < n
  {
    ops := [];
    if n > 0 {
      var before := RunGrows(cap, n - 1);
      var list, key := RunList([], cap, 0, before), Numbered(n - 1);
      WordToLE(n - 1, 20);
      assert !Has(list, key);
      ops := before + [Push(key, key)];
      RunListConcat([], cap, 0, before, [Push(key, key)]);
      assert RunList(list, cap, 0, [Push(key, key)]) == PushSpec(list, cap, 0, key, key);
      assert PushSpec(list, cap, 0, key, key) == [(key, key)] + list by { assert list[..|list|] == list; }
    }
  }

  function Numbered(n: nat): Digest {
    ToLE(n, 20)
  }

  lemma {:induction false} RunListConcat(list: seq<Item>, cap: nat, drop: nat, a: seq<Op>, b: seq<Op>)
    ensures RunList(list, cap, drop, a + b) == RunList(RunList(list, cap, drop, a), cap, drop, b)
    decreases |a|
  {
    if a == [] {
      assert a + b == b;
    } else {
      assert (a + b)[1..] == a[1..] + b;
      match a[0]
      case Push(k, v) => RunListConcat(PushSpec(list, cap, drop, k, v), cap, drop, a[1..], b);
      case Pop(k) => RunListConcat(PopSpec(list, k), cap, drop, a[1..], b);
    }
  }

  /** The cache never exceeds its capacity if and only if the configured divisor is at most the capacity. */
  lemma CapacityKept(cap: nat, divisor: nat)
    requires 0 < divisor && cap < 0xFFFF_FFFF
    ensures (forall ops :: |RunList([], cap, cap / divisor, ops)| <= cap) <==> divisor <= cap
  {
    DropAtMostAll(cap, divisor);
    if divisor <= cap {
      forall ops
        ensures |RunList([], cap, cap / divisor, ops)| <= cap
      {
        RunBounded([], cap, cap / divisor, ops);
      }
    } else {
      var ops := RunGrows(cap, cap + 1);
      assert |RunList([], cap, cap / divisor, ops)| > cap;
    }
  }

  /* ---- the cache file ---- */

  /** Forty bytes per entry, most recently used entry first. */
  function SaveSpec(list: seq<Item>): seq<byte> {
    if list == [] then [] else Record(list[0]) + SaveSpec(list[1..])
  }

  function Record(item: Item): (record: seq<byte>)
    ensures |record| == 40 && record[..20] == item.0 && record[20..] == item.1
  {
    var lower: seq<byte>, upper: seq<byte> := item.0, item.1;
    lower + upper
  }

  /** Every complete record is pushed, in file order. */
  function LoadSpec(list: seq<Item>, cap: nat, drop: nat, file: seq<byte>): seq<Item>
    decreases |file|
  {
    if |file| < 40 then list
    else LoadSpec(PushSpec(list, cap, drop, file[..20], file[20..40]), cap, drop, file[40..])
  }

  function Reversed(list: seq<Item>): (r: seq<Item>)
    ensures |r| == |list|
    ensures forall i :: 0 <= i < |list| ==> r[i] == list[|list| - 1 - i]
  {
    if list == [] then [] else Reversed(list[1..]) + [list[0]]
  }

  lemma {:induction false} LoadSaved(front: seq<Item>, cap: nat, drop: nat, list: seq<Item>)
    requires |front| + |list| <= cap && Distinct(front + list)
    ensures LoadSpec(front, cap, drop, SaveSpec(list)) == Reversed(list) + front
    decreases |list|
  {
    if list != [] {
      var file := SaveSpec(list);
      var pushed := [list[0]] + front;
      assert file[..40] == Record(list[0]) && file[40..] == SaveSpec(list[1..]);
      assert file[..20] == file[..40][..20] && file[20..40] == file[..40][20..];
      forall i | 0 <= i < |front|
        ensures front[i].0 != list[0].0
      {
        assert (front + list)[i] == front[i] && (front + list)[|front|] == list[0];
      }
      assert PushSpec(front, cap, drop, list[0].0, list[0].1) == pushed;
      assert Distinct(pushed + list[1..]) by { SwapDistinct(front, list); }
      LoadSaved(pushed, cap, drop, list[1..]);
      assert Reversed(list) + front == Reversed(list[1..]) + pushed;
    }
  }

  lemma SwapDistinct(front: seq<Item>, list: seq<Item>)
    requires list != [] && Distinct(front + list)
    ensures Distinct(([list[0]] + front) + list[1..])
  {
    var a, b := front + list, ([list[0]] + front) + list[1..];
    forall i, j | 0 <= i < j < |b|
      ensures b[i].0 != b[j].0
    {
      var n := |front|;
      var i', j' := (if i == 0 then n else if i <= n then i - 1 else i), if j <= n then j - 1 else j;
      assert b[i] == a[i'] && b[j] == a[j'] && i' != j';
    }
  }

  /** Saving and loading reverses the order of use; doing it twice restores it. */
  lemma SaveLoad(list: seq<Item>, cap: nat, drop: nat)
    requires |list| <= cap && Distinct(list)
    ensures LoadSpec([], cap, drop, SaveSpec(list)) == Reversed(list)
    ensures LoadSpec([], cap, drop, SaveSpec(Reversed(list))) == list
  {
    assert [] + list == list && [] + Reversed(list) == Reversed(list);
    LoadSaved([], cap, drop, list);
    ReversedTwice(list);
    LoadSaved([], cap, drop, Reversed(list));
  }

  lemma ReversedTwice(list: seq<Item>)
    ensures Reversed(Reversed(list)) == list && (Distinct(list) ==> Distinct(Reversed(list)))
  {
  }
}
