/**
 * The lookup/limit/insert/release protocol of capture threads on the shared flow table, interleaved
 * with the threads that walk buckets, purge flows or call Insert and Delete directly.
 *
 * A run is a schedule: a sequence of events, each naming the thread that moves next. An event whose
 * thread is blocked, or not at that point of its code, changes nothing.
 */
module CaptureProtocol {
  import opened Prelude
  import opened FlowTable

  /**
   * Threads below `capture` capture packets; the others only walk buckets, purge flows or call Insert and
   * Delete. `maxFlows == 0` means no limit.
   */
  datatype Config = Config(threads: nat, capture: nat, buckets: nat, maxFlows: nat)

  predicate ValidConfig(c: Config) {
    c.buckets > 0 && c.capture <= c.threads
  }

  /** Where a thread stands. Every constructor but `Idle` holds the mutex of one bucket. */
  datatype Pc =
    | Idle
    | Locked(d: Digest)      // inside Lookup(d, true), mutex granted
    | Missed(d: Digest)      // Lookup returned no flow
    | Admitted(d: Digest)    // the flow limit and the SYN test let the flow in
    | Inserted(d: Digest)    // InsertUnlocked returned true, status.flows not yet incremented
    | Leaving(d: Digest)     // about to Release(d)
    | Impossible(d: Digest)  // InsertUnlocked returned false
    | Walking(b: nat)        // inside Acquire(b) .. Release(b), or a directly called operation

  datatype State = State(
    table: Table,
    pc: seq<Pc>,
    flows: int,          // status.flows
    purged: nat,         // erased by a purge, not yet subtracted from status.flows
    thrown: bool,        // the "Impossible!" exception was raised
    directInserts: nat,  // flows added by calls to Insert that bypass status.flows
    directDeletes: nat)  // flows removed by calls to Delete

  datatype Event =
    | LookupLock(t: Thread, d: Digest)
    | LookupFind(t: Thread)
    | CheckLimit(t: Thread, synDrop: bool)  // synDrop: SYN scan protection rejects the packet
    | InsertUnlocked(t: Thread, f: FlowRef)
    | CountFlow(t: Thread)
    | Release(t: Thread)
    | Acquire(t: Thread, b: nat)
    | Purge(t: Thread, d: Digest)
    | DirectInsert(t: Thread, d: Digest, f: FlowRef)
    | DirectDelete(t: Thread, d: Digest)
    | ReleaseBucket(t: Thread)
    | SettlePurged(t: Thread)               // status.flows -= status.flows_purged

  function Init(c: Config): State {
    State(
      Table(NoFlows(c.buckets), seq(c.buckets, _ => None)),
      seq(c.threads, _ => Idle), 0, 0, false, 0, 0)
  }

  predicate Shape(c: Config, s: State) {
    && ValidConfig(c)
    && |s.table.bucket| == c.buckets
    && |s.pc| == c.threads
    && s.table.Valid()
    && forall t :: 0 <= t < |s.pc| && s.pc[t].Walking? ==> s.pc[t].b < c.buckets
  }

  /** The bucket whose mutex a thread at `pc` holds. */
  function Held(c: Config, pc: Pc): Option<nat>
    requires ValidConfig(c)
  {
    match pc
    case Idle => None
    case Walking(b) => Some(b)
    case Locked(d) => Some(HashToBucket(d, c.buckets))
    case Missed(d) => Some(HashToBucket(d, c.buckets))
    case Admitted(d) => Some(HashToBucket(d, c.buckets))
    case Inserted(d) => Some(HashToBucket(d, c.buckets))
    case Leaving(d) => Some(HashToBucket(d, c.buckets))
    case Impossible(d) => Some(HashToBucket(d, c.buckets))
  }

  function Goto(s: State, t: Thread, pc: Pc): State
    requires t < |s.pc|
  {
    s.(pc := s.pc[t := pc])
  }

  function Step(c: Config, s: State, e: Event): State
    requires Shape(c, s)
    ensures Shape(c, Step(c, s, e))
  {
    if e.t >= c.threads then s else
    var pc := s.pc[e.t];
    match e
    case LookupLock(t, d) =>
      var b := HashToBucket(d, c.buckets);
      if t < c.capture && pc.Idle? && s.table.owner[b].None?
      then Goto(s, t, Locked(d)).(table := s.table.Lock(b, t)) else s
    case LookupFind(t) =>
      if pc.Locked? then Goto(s, t, if s.table.Find(pc.d).Some? then Leaving(pc.d) else Missed(pc.d)) else s
    case CheckLimit(t, synDrop) =>
      if !pc.Missed? then s
      else if c.maxFlows > 0 && s.flows + 1 > c.maxFlows then Goto(s, t, Leaving(pc.d))
      else if synDrop then Goto(s, t, Leaving(pc.d))
      else Goto(s, t, Admitted(pc.d))
    case InsertUnlocked(t, f) =>
      if !pc.Admitted? then s
      else if s.table.Find(pc.d).Some? then Goto(s, t, Impossible(pc.d))
      else Goto(s, t, Inserted(pc.d)).(table := s.table.Put(pc.d, f))
    case CountFlow(t) =>
      if pc.Inserted? then Goto(s, t, Leaving(pc.d)).(flows := s.flows + 1) else s
    case Release(t) =>
      if !(pc.Leaving? || pc.Impossible?) then s
      else Goto(s, t, Idle).(table := s.table.Unlock(HashToBucket(pc.d, c.buckets)),
                             thrown := s.thrown || pc.Impossible?)
    case Acquire(t, b) =>
      if pc.Idle? && b < c.buckets && s.table.owner[b].None?
      then Goto(s, t, Walking(b)).(table := s.table.Lock(b, t)) else s
    case Purge(t, d) =>
      if pc.Walking? && s.table.Home(d) == pc.b && s.table.Find(d).Some?
      then s.(table := s.table.Erase(d), purged := s.purged + 1) else s
    case DirectInsert(t, d, f) =>
      if pc.Walking? && s.table.Home(d) == pc.b && s.table.Find(d).None?
      then s.(table := s.table.Put(d, f), directInserts := s.directInserts + 1) else s
    case DirectDelete(t, d) =>
      if pc.Walking? && s.table.Home(d) == pc.b && s.table.Find(d).Some?
      then s.(table := s.table.Erase(d), directDeletes := s.directDeletes + 1) else s
    case ReleaseBucket(t) =>
      if pc.Walking? then Goto(s, t, Idle).(table := s.table.Unlock(pc.b)) else s
    case SettlePurged(t) =>
      if pc.Idle? then s.(flows := s.flows - s.purged, purged := 0) else s
  }

  function Run(c: Config, s: State, schedule: seq<Event>): State
    requires Shape(c, s)
    ensures Shape(c, Run(c, s, schedule))
    decreases |schedule|
  {
    if schedule == [] then s else Run(c, Step(c, s, schedule[0]), schedule[1..])
  }

  /* ---- counting flows and threads ---- */

  function Total(bucket: seq<Bucket>): nat {
    if bucket == [] then 0 else Total(bucket[..|bucket| - 1]) + |bucket[|bucket| - 1]|
  }

  lemma {:induction false} TotalUpdate(bucket: seq<Bucket>, b: nat, m: Bucket)
    requires b < |bucket|
    ensures Total(bucket[b := m]) == Total(bucket) - |bucket[b]| + |m|
  {
    var n := |bucket| - 1;
    if b == n {
      assert bucket[b := m][..n] == bucket[..n];
    } else {
      TotalUpdate(bucket[..n], b, m);
      assert bucket[b := m][..n] == bucket[..n][b := m];
    }
  }

  function NoFlows(n: nat): seq<Bucket> {
    seq(n, _ => map[])
  }

  lemma {:induction false} TotalEmpty(n: nat)
    ensures Total(NoFlows(n)) == 0
  {
    if n > 0 {
      TotalEmpty(n - 1);
      assert NoFlows(n)[..n - 1] == NoFlows(n - 1);
    }
  }

  /** Threads on pairwise different, non-empty buckets are no more than the flows in them. */
  lemma {:induction false} TotalCovers(bucket: seq<Bucket>, threads: set<Thread>, home: Thread -> nat)
    requires forall t :: t in threads ==> home(t) < |bucket| && bucket[home(t)] != map[]
    requires forall t, u :: t in threads && u in threads && home(t) == home(u) ==> t == u
    ensures |threads| <= Total(bucket)
  {
    if bucket == [] {
      assert threads == {};
    } else {
      var n := |bucket| - 1;
      if t :| t in threads && home(t) == n {
        TotalCovers(bucket[..n], threads - {t}, home);
        assert |bucket[n]| > 0 by { assert bucket[n] != map[]; }
      } else {
        TotalCovers(bucket[..n], threads, home);
      }
    }
  }

  /** Pigeonhole. */
  lemma {:induction false} AtMost(n: nat, threads: set<Thread>, home: Thread -> nat)
    requires forall t :: t in threads ==> home(t) < n
    requires forall t, u :: t in threads && u in threads && home(t) == home(u) ==> t == u
    ensures |threads| <= n
  {
    if n == 0 {
      assert threads == {};
    } else if t :| t in threads && home(t) == n - 1 {
      AtMost(n - 1, threads - {t}, home);
    } else {
      AtMost(n - 1, threads, home);
    }
  }

  /** Threads that have added a flow but not yet counted it. */
  function Uncounted(s: State): set<Thread> {
    set t | 0 <= t < |s.pc| && s.pc[t].Inserted?
  }

  /** Threads that have passed the limit test and not yet counted their flow. */
  function InWindow(s: State): set<Thread> {
    set t | 0 <= t < |s.pc| && (s.pc[t].Admitted? || s.pc[t].Inserted?)
  }

  /** How many capture threads can be between the limit test and the increment at once. */
  function Width(c: Config): int {
    Min(c.capture, c.buckets)
  }

  /* ---- the invariant ---- */

  ghost predicate Exclusive(c: Config, s: State)
    requires Shape(c, s)
  {
    && (forall t :: 0 <= t < c.threads && Held(c, s.pc[t]).Some? ==> s.table.owner[Held(c, s.pc[t]).value] == Some(t))
    && (forall b :: 0 <= b < c.buckets && s.table.owner[b].Some? ==>
          s.table.owner[b].value < c.threads && Held(c, s.pc[s.table.owner[b].value]) == Some(b))
  }

  ghost predicate Knowledge(c: Config, s: State)
    requires Shape(c, s)
  {
    && !s.thrown
    && forall t :: 0 <= t < c.threads ==>
         && !s.pc[t].Impossible?
         && (s.pc[t].Missed? || s.pc[t].Admitted? ==> s.table.Find(s.pc[t].d).None?)
         && (s.pc[t].Inserted? ==> s.table.Find(s.pc[t].d).Some?)
  }

  ghost predicate Accounting(s: State) {
    Total(s.table.bucket) + s.purged == s.flows + |Uncounted(s)| + s.directInserts - s.directDeletes
  }

  /** The other threads are never inside the capture threads' protocol. */
  ghost predicate WalkersWalk(c: Config, s: State) {
    forall t :: c.capture <= t < |s.pc| ==> s.pc[t].Idle? || s.pc[t].Walking?
  }

  ghost predicate Limited(c: Config, s: State) {
    c.maxFlows > 0 ==> s.flows + |InWindow(s)| <= c.maxFlows + Width(c) - 1
  }

  ghost predicate Inv(c: Config, s: State) {
    Shape(c, s) && Exclusive(c, s) && Knowledge(c, s) && Accounting(s) && Limited(c, s) && WalkersWalk(c, s)
  }

  /** A set of capture threads that each hold a bucket has at most `Width` members. */
  lemma HoldersBounded(c: Config, s: State, threads: set<Thread>)
    requires Shape(c, s) && Exclusive(c, s)
    requires forall t :: t in threads ==> t < c.capture && Held(c, s.pc[t]).Some?
    ensures |threads| <= Width(c)
  {
    AtMost(c.capture, threads, t => t);
    var home := (t: Thread) => if t < |s.pc| && Held(c, s.pc[t]).Some? then Held(c, s.pc[t]).value else 0;
    AtMost(c.buckets, threads, home);
  }

  lemma InitInv(c: Config)
    requires ValidConfig(c)
    ensures Inv(c, Init(c))
  {
    TotalEmpty(c.buckets);
    assert Uncounted(Init(c)) == {} && InWindow(Init(c)) == {};
  }

  /**
   * One event moves one thread; that thread keeps its mutex, takes a free one or gives its own up,
   * and the only bucket it may change is the one whose mutex it holds.
   */
  ghost predicate Move(c: Config, s: State, s': State, t: Thread)
    requires Shape(c, s) && Shape(c, s') && t < c.threads
  {
    var h, h' := Held(c, s.pc[t]), Held(c, s'.pc[t]);
    && (forall u :: 0 <= u < c.threads && u != t ==> s'.pc[u] == s.pc[u])
    && (forall b :: 0 <= b < c.buckets && h != Some(b) ==> s'.table.bucket[b] == s.table.bucket[b])
    && (|| (h == h' && s'.table.owner == s.table.owner)
        || (h.None? && h'.Some? && s.table.owner[h'.value].None?
            && s'.table.owner == s.table.owner[h'.value := Some(t)])
        || (h.Some? && h'.None? && s'.table.owner == s.table.owner[h.value := None]))
  }

  predicate TakesOrGivesLock(e: Event) {
    e.LookupLock? || e.Acquire? || e.Release? || e.ReleaseBucket?
  }

  predicate ChangesBucket(e: Event) {
    e.InsertUnlocked? || e.Purge? || e.DirectInsert? || e.DirectDelete?
  }

  lemma LockMoves(c: Config, s: State, e: Event)
    requires Shape(c, s) && e.t < c.threads && TakesOrGivesLock(e)
    ensures Move(c, s, Step(c, s, e), e.t)
  {
  }

  lemma BucketMoves(c: Config, s: State, e: Event)
    requires Shape(c, s) && e.t < c.threads && ChangesBucket(e)
    ensures Move(c, s, Step(c, s, e), e.t)
  {
  }

  lemma StepMoves(c: Config, s: State, e: Event)
    requires Shape(c, s) && e.t < c.threads
    ensures Move(c, s, Step(c, s, e), e.t)
  {
    if TakesOrGivesLock(e) {
      LockMoves(c, s, e);
    } else if ChangesBucket(e) {
      BucketMoves(c, s, e);
    }
  }

  lemma MoveKeepsExclusive(c: Config, s: State, s': State, t: Thread)
    requires Shape(c, s) && Shape(c, s') && t < c.threads
    requires Exclusive(c, s) && Move(c, s, s', t)
    ensures Exclusive(c, s')
  {
    forall u | 0 <= u < c.threads && Held(c, s'.pc[u]).Some?
      ensures s'.table.owner[Held(c, s'.pc[u]).value] == Some(u)
    {
      if u != t {
        assert s.table.owner[Held(c, s.pc[u]).value] == Some(u);
      }
    }
  }

  lemma MoveKeepsKnowledge(c: Config, s: State, s': State, t: Thread, u: Thread)
    requires Shape(c, s) && Shape(c, s') && t < c.threads && u < c.threads && u != t
    requires Exclusive(c, s) && Move(c, s, s', t)
    requires s.pc[u].Missed? || s.pc[u].Admitted? || s.pc[u].Inserted?
    ensures s'.table.Find(s'.pc[u].d) == s.table.Find(s.pc[u].d)
  {
    assert s.table.owner[s.table.Home(s.pc[u].d)] == Some(u);
  }

  /** The moving thread's own knowledge: an insert after a locked miss cannot fail. */
  lemma MoverKnowledge(c: Config, s: State, e: Event)
    requires Inv(c, s) && e.t < c.threads
    ensures var s', pc' := Step(c, s, e), Step(c, s, e).pc[e.t];
            && !s'.thrown && !pc'.Impossible?
            && (pc'.Missed? || pc'.Admitted? ==> s'.table.Find(pc'.d).None?)
            && (pc'.Inserted? ==> s'.table.Find(pc'.d).Some?)
  {
    if e.InsertUnlocked? {
      InsertSucceeds(c, s, e);
    } else if ChangesBucket(e) {
      assert Step(c, s, e).pc[e.t] == s.pc[e.t];
    } else {
      OtherFields(c, s, e);
      OtherPc(c, s, e);
    }
  }

  /** A thread comes to know of a miss by its lookup only, and keeps it while it goes on. */
  lemma OtherPc(c: Config, s: State, e: Event)
    requires Shape(c, s) && e.t < c.threads && !ChangesBucket(e)
    ensures var pc, pc', thrown' := s.pc[e.t], Step(c, s, e).pc[e.t], Step(c, s, e).thrown;
            && (pc'.Missed? ==> pc' == pc || (pc == Locked(pc'.d) && s.table.Find(pc'.d).None?))
            && (pc'.Admitted? ==> pc' == pc || pc == Missed(pc'.d))
            && (pc'.Inserted? || pc'.Impossible? ==> pc' == pc)
            && (thrown' ==> s.thrown || pc.Impossible?)
  {
  }

  lemma InsertSucceeds(c: Config, s: State, e: Event)
    requires Inv(c, s) && e.t < c.threads && e.InsertUnlocked?
    ensures var s' := Step(c, s, e);
            if s.pc[e.t].Admitted? then s'.pc[e.t] == Inserted(s.pc[e.t].d) && s'.table.Find(s.pc[e.t].d) == Some(e.f)
            else s' == s
    ensures Step(c, s, e).thrown == s.thrown
  {
  }

  lemma StepKnowledge(c: Config, s: State, s': State, t: Thread)
    requires Inv(c, s) && Shape(c, s') && t < c.threads && Move(c, s, s', t)
    requires var pc' := s'.pc[t];
             && !s'.thrown && !pc'.Impossible?
             && (pc'.Missed? || pc'.Admitted? ==> s'.table.Find(pc'.d).None?)
             && (pc'.Inserted? ==> s'.table.Find(pc'.d).Some?)
    ensures Knowledge(c, s')
  {
    forall u | 0 <= u < c.threads && u != t && (s.pc[u].Missed? || s.pc[u].Admitted? || s.pc[u].Inserted?)
      ensures s'.table.Find(s'.pc[u].d) == s.table.Find(s.pc[u].d)
    {
      MoveKeepsKnowledge(c, s, s', t, u);
    }
  }

  /** How the two thread sets change when thread `t` moves to `pc`. */
  lemma GotoSets(s: State, t: Thread, s': State)
    requires t < |s.pc| == |s'.pc|
    requires forall u :: 0 <= u < |s.pc| && u != t ==> s'.pc[u] == s.pc[u]
    ensures Uncounted(s') == if s'.pc[t].Inserted? then Uncounted(s) + {t} else Uncounted(s) - {t}
    ensures InWindow(s') == if s'.pc[t].Admitted? || s'.pc[t].Inserted? then InWindow(s) + {t} else InWindow(s) - {t}
  {
  }

  lemma PutTotal(table: Table, d: Digest, f: FlowRef)
    requires table.Valid()
    ensures Total(table.Put(d, f).bucket) == Total(table.bucket) + if table.Find(d).Some? then 0 else 1
  {
    var b := table.Home(d);
    TotalUpdate(table.bucket, b, table.bucket[b][d := f]);
  }

  lemma EraseTotal(table: Table, d: Digest)
    requires table.Valid()
    ensures Total(table.Erase(d).bucket) == Total(table.bucket) - if table.Find(d).Some? then 1 else 0
  {
    var m := table.bucket[table.Home(d)];
    TotalUpdate(table.bucket, table.Home(d), m - {d});
    assert if d in m then m == (m - {d})[d := m[d]] else m == m - {d};
  }

  lemma InsertCounts(c: Config, s: State, e: Event)
    requires Inv(c, s) && e.t < c.threads && e.InsertUnlocked?
    ensures Accounting(Step(c, s, e))
  {
    if s.pc[e.t].Admitted? {
      PutTotal(s.table, s.pc[e.t].d, e.f);
      GotoSets(s, e.t, Step(c, s, e));
    }
  }

  lemma WalkCounts(c: Config, s: State, e: Event)
    requires Inv(c, s) && e.t < c.threads && (e.DirectInsert? || e.Purge? || e.DirectDelete?)
    ensures Accounting(Step(c, s, e))
  {
    if e.DirectInsert? {
      PutTotal(s.table, e.d, e.f);
    } else {
      EraseTotal(s.table, e.d);
    }
    assert Uncounted(Step(c, s, e)) == Uncounted(s);
  }

  lemma OtherCounts(c: Config, s: State, e: Event)
    requires Inv(c, s) && e.t < c.threads && !ChangesBucket(e)
    ensures Accounting(Step(c, s, e))
  {
    var s' := Step(c, s, e);
    StepMoves(c, s, e);
    GotoSets(s, e.t, s');
    OtherFields(c, s, e);
  }

  lemma OtherFields(c: Config, s: State, e: Event)
    requires Shape(c, s) && e.t < c.threads && !ChangesBucket(e)
    ensures var s', counts := Step(c, s, e), e.CountFlow? && s.pc[e.t].Inserted?;
            && s'.table.bucket == s.table.bucket
            && s'.directInserts == s.directInserts && s'.directDeletes == s.directDeletes
            && s'.flows - s'.purged == s.flows - s.purged + (if counts then 1 else 0)
            && (s'.pc[e.t].Inserted? <==> s.pc[e.t].Inserted? && !counts)
  {
  }

  lemma StepAccounting(c: Config, s: State, e: Event)
    requires Inv(c, s) && e.t < c.threads
    ensures Accounting(Step(c, s, e))
  {
    if e.InsertUnlocked? {
      InsertCounts(c, s, e);
    } else if ChangesBucket(e) {
      WalkCounts(c, s, e);
    } else {
      OtherCounts(c, s, e);
    }
  }

  /** Only the limit test lets a thread into the window, and only with room left; only counting raises `flows`. */
  lemma WindowMoves(c: Config, s: State, e: Event)
    requires Shape(c, s) && e.t < c.threads
    ensures var s', n, n' := Step(c, s, e), |InWindow(s)|, |InWindow(Step(c, s, e))|;
            || (s'.flows <= s.flows && n' <= n)
            || (s'.flows == s.flows + 1 && n' == n - 1)
            || (s'.flows == s.flows && n' == n + 1 && (c.maxFlows > 0 ==> s.flows + 1 <= c.maxFlows))
  {
    var s' := Step(c, s, e);
    if e.CountFlow? || e.CheckLimit? || e.InsertUnlocked? {
      StepMoves(c, s, e);
      GotoSets(s, e.t, s');
    } else {
      WindowStays(c, s, e);
    }
  }

  lemma WindowStays(c: Config, s: State, e: Event)
    requires Shape(c, s) && e.t < c.threads && !(e.CountFlow? || e.CheckLimit? || e.InsertUnlocked?)
    ensures InWindow(Step(c, s, e)) == InWindow(s) && Step(c, s, e).flows <= s.flows
  {
  }

  lemma WindowBounded(c: Config, s: State)
    requires Shape(c, s) && Exclusive(c, s) && WalkersWalk(c, s)
    ensures |InWindow(s)| <= Width(c)
  {
    HoldersBounded(c, s, InWindow(s));
  }

  /** The same in numbers: `n` threads are in the window before and `n'` after. */
  lemma RoomKept(flows: int, n: int, flows': int, n': int, max: int, width: int)
    requires flows + n <= max + width - 1 && n' <= width
    requires || (flows' <= flows && n' <= n)
             || (flows' == flows + 1 && n' == n - 1)
             || (flows' == flows && n' == n + 1 && flows + 1 <= max)
    ensures flows' + n' <= max + width - 1
  {
  }

  lemma StepLimited(c: Config, s: State, s': State, e: Event)
    requires Shape(c, s) && Limited(c, s) && e.t < c.threads && s' == Step(c, s, e)
    requires Shape(c, s') && Exclusive(c, s') && WalkersWalk(c, s')
    ensures Limited(c, s')
  {
    if c.maxFlows > 0 {
      WindowMoves(c, s, e);
      WindowBounded(c, s');
      RoomKept(s.flows, |InWindow(s)|, s'.flows, |InWindow(s')|, c.maxFlows, Width(c));
    }
  }

  lemma StepWalkers(c: Config, s: State, e: Event)
    requires Inv(c, s) && e.t < c.threads
    ensures WalkersWalk(c, Step(c, s, e))
  {
    StepMoves(c, s, e);
  }

  lemma StepInv(c: Config, s: State, e: Event)
    requires Inv(c, s)
    ensures Inv(c, Step(c, s, e))
  {
    if e.t < c.threads {
      StepMoves(c, s, e);
      MoveKeepsExclusive(c, s, Step(c, s, e), e.t);
      StepAccounting(c, s, e);
      StepWalkers(c, s, e);
      StepLimited(c, s, Step(c, s, e), e);
      MoverKnowledge(c, s, e);
      StepKnowledge(c, s, Step(c, s, e), e.t);
    }
  }

  lemma {:induction false} RunInv(c: Config, s: State, schedule: seq<Event>)
    requires Inv(c, s)
    ensures Inv(c, Run(c, s, schedule))
    decreases |schedule|
  {
    if schedule != [] {
      StepInv(c, s, schedule[0]);
      RunInv(c, Step(c, s, schedule[0]), schedule[1..]);
    }
  }

  /* ---- what holds after every schedule ---- */

  /** No two threads are inside one bucket; the exception is never raised; a digest has one flow. */
  lemma FlowTableSafe(c: Config, schedule: seq<Event>)
    requires ValidConfig(c)
    ensures var s := Run(c, Init(c), schedule);
            !s.thrown && AloneInBucket(c, s) && OneFlowPerDigest(s.table)
  {
    InitInv(c);
    RunInv(c, Init(c), schedule);
    InvMeans(c, Run(c, Init(c), schedule));
  }

  ghost predicate AloneInBucket(c: Config, s: State)
    requires Shape(c, s)
  {
    forall t, u :: 0 <= t < u < c.threads && Held(c, s.pc[t]).Some? ==> Held(c, s.pc[t]) != Held(c, s.pc[u])
  }

  ghost predicate OneFlowPerDigest(table: Table) {
    forall b, b', d: Digest :: 0 <= b < |table.bucket| && 0 <= b' < |table.bucket| ==>
                                 d in table.bucket[b] && d in table.bucket[b'] ==> b == b'
  }

  lemma InvMeans(c: Config, s: State)
    requires Inv(c, s)
    ensures !s.thrown && AloneInBucket(c, s) && OneFlowPerDigest(s.table)
  {
    forall b, b', d: Digest
      | 0 <= b < c.buckets && 0 <= b' < c.buckets && d in s.table.bucket[b] && d in s.table.bucket[b']
      ensures b == b'
    {
      assert s.table.Home(d) == b;
    }
  }

  /** A bucket changes only in a step of the thread that holds its mutex. */
  lemma BucketGuarded(c: Config, schedule: seq<Event>, e: Event, b: nat)
    requires ValidConfig(c) && b < c.buckets
    ensures var s := Run(c, Init(c), schedule);
            Step(c, s, e).table.bucket[b] != s.table.bucket[b] ==> s.table.owner[b] == Some(e.t)
  {
    InitInv(c);
    RunInv(c, Init(c), schedule);
    if e.t < c.threads {
      StepMoves(c, Run(c, Init(c), schedule), e);
    }
  }

  /** The counted flows are the stored ones, up to threads in flight, unsettled purges and direct calls. */
  lemma FlowsCounted(c: Config, schedule: seq<Event>)
    requires ValidConfig(c)
    ensures var s := Run(c, Init(c), schedule);
            && s.flows == Total(s.table.bucket) + s.purged - |Uncounted(s)| - s.directInserts + s.directDeletes
            && (s.directInserts == 0 ==> s.purged <= s.flows)
  {
    InitInv(c);
    RunInv(c, Init(c), schedule);
    UncountedStored(c, Run(c, Init(c), schedule));
  }

  lemma UncountedStored(c: Config, s: State)
    requires Inv(c, s)
    ensures |Uncounted(s)| <= Total(s.table.bucket)
  {
    var home := (t: Thread) => if t < |s.pc| && Held(c, s.pc[t]).Some? then Held(c, s.pc[t]).value else 0;
    forall t | t in Uncounted(s)
      ensures s.table.bucket[home(t)] != map[]
    {
      assert s.pc[t].d in s.table.bucket[home(t)];
    }
    TotalCovers(s.table.bucket, Uncounted(s), home);
  }

  /** The flow limit is overshot by less than the number of capture threads that fit into the window. */
  lemma FlowLimit(c: Config, schedule: seq<Event>)
    requires ValidConfig(c) && c.maxFlows > 0
    ensures var s := Run(c, Init(c), schedule);
            && s.flows <= c.maxFlows + Width(c) - 1
            && (s.directInserts == 0 ==> Total(s.table.bucket) <= c.maxFlows + Width(c) - 1)
  {
    InitInv(c);
    RunInv(c, Init(c), schedule);
    var s := Run(c, Init(c), schedule);
    assert Uncounted(s) <= InWindow(s);
    SubsetSmaller(Uncounted(s), InWindow(s));
  }

  lemma {:induction false} SubsetSmaller(a: set<Thread>, b: set<Thread>)
    requires a <= b
    ensures |a| <= |b|
  {
    assert b == a + (b - a);
  }

  /* ---- every thread can leave: no deadlock ---- */

  lemma {:induction false} RunConcat(c: Config, s: State, a: seq<Event>, b: seq<Event>)
    requires Shape(c, s)
    ensures Run(c, s, a + b) == Run(c, Run(c, s, a), b)
    decreases |a|
  {
    if a == [] {
      assert a + b == b;
    } else {
      assert (a + b)[1..] == a[1..] + b;
      RunConcat(c, Step(c, s, a[0]), a[1..], b);
    }
  }

  /** The event with which a thread goes on without asking for another mutex. */
  function Advance(t: Thread, pc: Pc): Event {
    match pc
    case Idle => Release(t)
    case Locked(_) => LookupFind(t)
    case Missed(_) => CheckLimit(t, false)
    case Admitted(_) => InsertUnlocked(t, 0)
    case Inserted(_) => CountFlow(t)
    case Leaving(_) => Release(t)
    case Impossible(_) => Release(t)
    case Walking(_) => ReleaseBucket(t)
  }

  /** At most this many steps are left until the thread gives its mutex up. */
  function Rank(pc: Pc): nat {
    match pc
    case Idle => 0
    case Locked(_) => 5
    case Missed(_) => 4
    case Admitted(_) => 3
    case Inserted(_) => 2
    case Leaving(_) => 1
    case Impossible(_) => 1
    case Walking(_) => 1
  }

  lemma AdvanceProgresses(c: Config, s: State, t: Thread)
    requires Shape(c, s) && t < c.threads && !s.pc[t].Idle?
    ensures var s' := Step(c, s, Advance(t, s.pc[t]));
            Rank(s'.pc[t]) < Rank(s.pc[t]) && forall u :: 0 <= u < c.threads && u != t ==> s'.pc[u] == s.pc[u]
  {
  }

  /** Thread `t` alone can run until it holds no mutex. */
  lemma {:induction false} Finish(c: Config, s: State, t: Thread) returns (rest: seq<Event>)
    requires Shape(c, s) && t < c.threads
    ensures |rest| <= Rank(s.pc[t])
    ensures Run(c, s, rest).pc[t].Idle?
    ensures forall u :: 0 <= u < c.threads && u != t ==> Run(c, s, rest).pc[u] == s.pc[u]
    decreases Rank(s.pc[t])
  {
    rest := [];
    if !s.pc[t].Idle? {
      var e := Advance(t, s.pc[t]);
      AdvanceProgresses(c, s, t);
      var tail := Finish(c, Step(c, s, e), t);
      rest := [e] + tail;
    }
  }

  lemma {:induction false} FinishAll(c: Config, s: State, n: nat) returns (rest: seq<Event>)
    requires Shape(c, s) && n <= c.threads
    ensures |rest| <= 5 * n
    ensures forall t :: 0 <= t < n ==> Run(c, s, rest).pc[t].Idle?
  {
    rest := [];
    if n > 0 {
      var first := FinishAll(c, s, n - 1);
      var s1 := Run(c, s, first);
      var last := Finish(c, s1, n - 1);
      RunConcat(c, s, first, last);
      rest := first + last;
    }
  }

  /** From every reachable state, at most five more steps per thread leave every mutex free. */
  lemma NeverDeadlocks(c: Config, schedule: seq<Event>)
    requires ValidConfig(c)
    ensures exists rest :: |rest| <= 5 * c.threads && AllFree(Run(c, Init(c), schedule + rest).table)
  {
    var rest := FinishAll(c, Run(c, Init(c), schedule), c.threads);
    RunConcat(c, Init(c), schedule, rest);
    InitInv(c);
    RunInv(c, Init(c), schedule + rest);
    assert AllFree(Run(c, Init(c), schedule + rest).table);
  }

  ghost predicate AllFree(table: Table) {
    forall b :: 0 <= b < |table.owner| ==> table.owner[b].None?
  }

  /* ---- the overshoot bound is reached ---- */

  /** Digest number `n` of bucket `b`. */
  function Key(b: nat, n: nat): Digest {
    ToLE(b, 8) + ToLE(n, 12)
  }

  function Number(d: Digest): nat {
    FromLE(d[8..])
  }

  lemma KeyFacts(b: nat, n: nat, buckets: nat)
    requires b < buckets < 0x1_0000_0000 && n < 0x1_0000_0000
    ensures HashToBucket(Key(b, n), buckets) == b && Number(Key(b, n)) == n
  {
    var low, high := ToLE(b, 8), ToLE(n, 12);
    KeyParts(low, high);
    assert FromLE(low) == b by { WordToLE(b, 8); }
    assert FromLE(high) == n by { WordToLE(n, 12); }
    SmallMod(b, buckets);
  }

  lemma SmallMod(b: nat, m: nat)
    requires b < m
    ensures b % m == b
  {
  }

  lemma KeyParts(low: seq<byte>, high: seq<byte>)
    requires |low| == 8 && |high| == 12
    ensures (low + high)[..8] == low && (low + high)[8..] == high
  {
  }

  /** `k` flows are stored, numbered 1 to `k`, and every thread is idle. */
  ghost predicate Filled(c: Config, s: State, k: nat) {
    && Shape(c, s) && s.flows == k
    && (forall t :: 0 <= t < c.threads ==> s.pc[t].Idle?)
    && (forall b :: 0 <= b < c.buckets ==> s.table.owner[b].None?)
    && (forall b, d :: 0 <= b < c.buckets && d in s.table.bucket[b] ==> 1 <= Number(d) <= k)
  }

  lemma RunThree(c: Config, s: State, e0: Event, e1: Event, e2: Event)
    requires Shape(c, s)
    ensures Run(c, s, [e0, e1, e2]) == Step(c, Step(c, Step(c, s, e0), e1), e2)
  {
    var s1 := Step(c, s, e0);
    assert [e0, e1, e2][1..] == [e1, e2];
    assert [e1, e2][1..] == [e2];
    assert Run(c, s1, [e1, e2]) == Run(c, Step(c, s1, e1), [e2]);
    assert Run(c, Step(c, s1, e1), [e2]) == Step(c, Step(c, s1, e1), e2);
  }

  /** The mutex is taken and the flow looked up; a new one is admitted or dropped. */
  lemma EnterWindow(c: Config, s: State, t: Thread, d: Digest, synDrop: bool)
    requires Shape(c, s) && t < c.capture && s.pc[t].Idle?
    requires s.table.owner[HashToBucket(d, c.buckets)].None?
    ensures var leaves := s.table.Find(d).Some? || (c.maxFlows > 0 && s.flows + 1 > c.maxFlows) || synDrop;
            Run(c, s, [LookupLock(t, d), LookupFind(t), CheckLimit(t, synDrop)])
            == Goto(s, t, if leaves then Leaving(d) else Admitted(d))
               .(table := s.table.Lock(HashToBucket(d, c.buckets), t))
  {
    var s1 := Goto(s, t, Locked(d)).(table := s.table.Lock(HashToBucket(d, c.buckets), t));
    assert Step(c, s, LookupLock(t, d)) == s1;
    assert Step(c, s1, LookupFind(t)) == Goto(s1, t, if s.table.Find(d).Some? then Leaving(d) else Missed(d));
    RunThree(c, s, LookupLock(t, d), LookupFind(t), CheckLimit(t, synDrop));
  }

  /** The flow is inserted and counted, and the mutex given up. */
  lemma LeaveWindow(c: Config, s: State, t: Thread, f: FlowRef)
    requires Shape(c, s) && t < c.threads && s.pc[t].Admitted? && s.table.Find(s.pc[t].d).None?
    ensures Run(c, s, [InsertUnlocked(t, f), CountFlow(t), Release(t)])
            == Goto(s, t, Idle).(table := s.table.Put(s.pc[t].d, f).Unlock(HashToBucket(s.pc[t].d, c.buckets)),
                                 flows := s.flows + 1)
  {
    var d := s.pc[t].d;
    var s1 := Goto(s, t, Inserted(d)).(table := s.table.Put(d, f));
    assert Step(c, s, InsertUnlocked(t, f)) == s1;
    assert Step(c, s1, CountFlow(t)) == Goto(s1, t, Leaving(d)).(flows := s.flows + 1);
    RunThree(c, s, InsertUnlocked(t, f), CountFlow(t), Release(t));
  }

  lemma FillOne(c: Config, s: State, k: nat, enter: seq<Event>, leave: seq<Event>)
    requires ValidConfig(c) && c.capture > 0 && 0 < k <= c.maxFlows
    requires c.buckets < 0x1_0000_0000 && c.maxFlows < 0x1_0000_0000
    requires enter == [LookupLock(0, Key(0, k)), LookupFind(0), CheckLimit(0, false)]
    requires leave == [InsertUnlocked(0, 0), CountFlow(0), Release(0)]
    requires Filled(c, s, k - 1)
    ensures Filled(c, Run(c, Run(c, s, enter), leave), k)
  {
    KeyFacts(0, k, c.buckets);
    EnterWindow(c, s, 0, Key(0, k), false);
    LeaveWindow(c, Run(c, s, enter), 0, 0);
  }

  /** One thread can fill the table up to any number of flows within the limit. */
  lemma {:induction false} Fill(c: Config, k: nat) returns (schedule: seq<Event>)
    requires ValidConfig(c) && c.capture > 0 && k <= c.maxFlows
    requires c.buckets < 0x1_0000_0000 && c.maxFlows < 0x1_0000_0000
    ensures Filled(c, Run(c, Init(c), schedule), k)
  {
    schedule := [];
    if k > 0 {
      schedule := Fill(c, k - 1);
      var s := Run(c, Init(c), schedule);
      var enter := [LookupLock(0, Key(0, k)), LookupFind(0), CheckLimit(0, false)];
      var leave := [InsertUnlocked(0, 0), CountFlow(0), Release(0)];
      FillOne(c, s, k, enter, leave);
      RunConcat(c, Init(c), schedule, enter);
      RunConcat(c, Init(c), schedule + enter, leave);
      schedule := schedule + enter + leave;
    }
  }

  /** Threads 0 to `k - 1` are in the window, each with a new flow of its own bucket. */
  ghost predicate Opened(c: Config, s: State, k: nat) {
    && Shape(c, s) && s.flows == c.maxFlows - 1 && k <= c.threads && k <= c.buckets
    && (forall t :: 0 <= t < k ==> s.pc[t] == Admitted(Key(t, 0)))
    && (forall t :: k <= t < c.threads ==> s.pc[t].Idle?)
    && (forall b :: k <= b < c.buckets ==> s.table.owner[b].None?)
    && (forall b, d :: 0 <= b < c.buckets && d in s.table.bucket[b] ==> 1 <= Number(d))
  }

  lemma {:induction false} Open(c: Config, s: State, k: nat) returns (schedule: seq<Event>)
    requires ValidConfig(c) && 0 < c.maxFlows && Filled(c, s, c.maxFlows - 1)
    requires k <= c.capture && k <= c.buckets < 0x1_0000_0000
    ensures Opened(c, Run(c, s, schedule), k)
  {
    schedule := [];
    if k > 0 {
      schedule := Open(c, s, k - 1);
      var d := Key(k - 1, 0);
      KeyFacts(k - 1, 0, c.buckets);
      var enter := [LookupLock(k - 1, d), LookupFind(k - 1), CheckLimit(k - 1, false)];
      EnterWindow(c, Run(c, s, schedule), k - 1, d, false);
      RunConcat(c, s, schedule, enter);
      schedule := schedule + enter;
    }
  }

  /** Threads `j` to `k - 1` are still in the window, with new flows; the others have counted theirs. */
  ghost predicate Closing(c: Config, s: State, j: nat, k: nat) {
    && Shape(c, s) && s.flows == c.maxFlows - 1 + j && j <= k <= c.threads && k <= c.buckets
    && (forall t :: j <= t < k ==> s.pc[t] == Admitted(Key(t, 0)))
    && (forall b, d :: j <= b < c.buckets && d in s.table.bucket[b] ==> 1 <= Number(d))
  }

  lemma {:induction false} Close(c: Config, s: State, j: nat, k: nat) returns (schedule: seq<Event>)
    requires ValidConfig(c) && c.buckets < 0x1_0000_0000 && j <= k && Opened(c, s, k)
    ensures Closing(c, Run(c, s, schedule), j, k)
  {
    schedule := [];
    if j > 0 {
      schedule := Close(c, s, j - 1, k);
      KeyFacts(j - 1, 0, c.buckets);
      var leave := [InsertUnlocked(j - 1, 0), CountFlow(j - 1), Release(j - 1)];
      LeaveWindow(c, Run(c, s, schedule), j - 1, 0);
      RunConcat(c, s, schedule, leave);
      schedule := schedule + leave;
    }
  }

  /** The bound of `FlowLimit` is exact: some schedule reaches it. */
  lemma FlowLimitReached(c: Config)
    requires ValidConfig(c) && 0 < c.capture && 0 < c.maxFlows < 0x1_0000_0000 && c.buckets < 0x1_0000_0000
    ensures exists schedule :: Run(c, Init(c), schedule).flows == c.maxFlows + Width(c) - 1
  {
    var fill := Fill(c, c.maxFlows - 1);
    var s := Run(c, Init(c), fill);
    var open := Open(c, s, Width(c));
    var close := Close(c, Run(c, s, open), Width(c), Width(c));
    RunConcat(c, s, open, close);
    RunConcat(c, Init(c), fill, open + close);
    assert Run(c, Init(c), fill + (open + close)).flows == c.maxFlows + Width(c) - 1;
  }

  /* ---- one packet without interruption ---- */

  /** What one packet of flow `d` does to the table and to the count when no other thread moves. */
  function AdmitSpec(table: Table, flows: int, maxFlows: nat, d: Digest, newFlow: FlowRef, synDrop: bool)
    : (r: (Table, int, Option<FlowRef>))
    requires table.Valid()
  {
    if table.Find(d).Some? then (table, flows, table.Find(d))
    else if (maxFlows > 0 && flows + 1 > maxFlows) || synDrop then (table, flows, None)
    else (table.Put(d, newFlow), flows + 1, Some(newFlow))
  }

  /**
   * What the packet gets, over every digest of the table: the flow that is stored already; or, with room below the
   * limit and no scan, the new flow, which is the only thing that is added; or nothing, and then nothing changes.
   */
  ghost predicate Admits(table: Table, flows: int, maxFlows: nat, d: Digest, newFlow: FlowRef, synDrop: bool,
                         table': Table, flows': int, nf: Option<FlowRef>)
    requires table.Valid() && table'.Valid()
  {
    var admitted := table.Find(d).None? && !synDrop && (maxFlows == 0 || flows < maxFlows);
    && nf == (if admitted then Some(newFlow) else table.Find(d))
    && flows' == flows + (if admitted then 1 else 0)
    && table'.Find(d) == nf
    && (forall e: Digest :: e != d ==> table'.Find(e) == table.Find(e))
    && table'.owner == table.owner && |table'.bucket| == |table.bucket|
  }

  lemma AdmitMeans(table: Table, flows: int, maxFlows: nat, d: Digest, newFlow: FlowRef, synDrop: bool)
    requires table.Valid()
    ensures var r := AdmitSpec(table, flows, maxFlows, d, newFlow, synDrop);
            r.0.Valid() && Admits(table, flows, maxFlows, d, newFlow, synDrop, r.0, r.1, r.2)
  {
    forall e: Digest
      ensures table.Put(d, newFlow).Find(e) == if e == d && table.Find(d).None? then Some(newFlow) else table.Find(e)
    {
      ChangesOne(table, d, newFlow, e);
    }
  }

  class AgentStatus {
    var flows: int
    var dropped: nat

    constructor ()
      ensures flows == 0 && dropped == 0
    {
      flows, dropped := 0, 0;
    }
  }

  /** The result is the packet's flow, or None when the packet is dropped. */
  method AdmitPacket(flows: FlowMap, status: AgentStatus, maxFlows: nat, t: Thread, digest: Digest,
                     newFlow: FlowRef, synDrop: bool)
    returns (nf: Option<FlowRef>)
    requires flows.Valid() && flows.Free(HashToBucket(digest, flows.buckets))
    modifies flows.bucket, flows.bucketLock, status
    ensures flows.Valid()
    ensures (flows.View(), status.flows, nf)
            == AdmitSpec(old(flows.View()), old(status.flows), maxFlows, digest, newFlow, synDrop)
    ensures old(flows.View()).Valid()
            && Admits(old(flows.View()), old(status.flows), maxFlows, digest, newFlow, synDrop,
                      flows.View(), status.flows, nf)
    ensures status.dropped == old(status.dropped) + if nf.None? then 1 else 0
  {
    AdmitMeans(flows.View(), status.flows, maxFlows, digest, newFlow, synDrop);
    var b := HashToBucket(digest, flows.buckets);
    nf := flows.Lookup(t, digest, true);
    if nf.None? {
      if (maxFlows > 0 && status.flows + 1 > maxFlows) || synDrop {
        status.dropped := status.dropped + 1;
        var _ := flows.Release(t, b);
        assert flows.View().owner == old(flows.View().owner);
        return;
      }
      nf := Some(newFlow);
      var inserted := flows.Insert(t, digest, newFlow, true);
      if !inserted {
        assert false;
      }
      status.flows := status.flows + 1;
    }
    var _ := flows.Release(t, b);
    assert flows.View().owner == old(flows.View().owner);
  }

  /** The six machine steps of a packet, run without interruption, are `AdmitSpec`. */
  lemma Uninterrupted(c: Config, s: State, t: Thread, d: Digest, f: FlowRef, synDrop: bool)
    requires Shape(c, s) && t < c.capture && s.pc[t].Idle? && s.table.owner[HashToBucket(d, c.buckets)].None?
    ensures var r := AdmitSpec(s.table, s.flows, c.maxFlows, d, f, synDrop);
            Run(c, s, [LookupLock(t, d), LookupFind(t), CheckLimit(t, synDrop)]
                      + [InsertUnlocked(t, f), CountFlow(t), Release(t)])
            == s.(table := r.0, flows := r.1)
  {
    var b := HashToBucket(d, c.buckets);
    var enter := [LookupLock(t, d), LookupFind(t), CheckLimit(t, synDrop)];
    var leave := [InsertUnlocked(t, f), CountFlow(t), Release(t)];
    var s1 := Run(c, s, enter);
    EnterWindow(c, s, t, d, synDrop);
    if s1.pc[t].Admitted? {
      LeaveWindow(c, s1, t, f);
    } else {
      RunThree(c, s1, InsertUnlocked(t, f), CountFlow(t), Release(t));
    }
    RunConcat(c, s, enter, leave);
    BackAgain(s, t, s1.pc[t], b);
  }

  lemma BackAgain(s: State, t: Thread, pc: Pc, b: nat)
    requires t < |s.pc| && s.pc[t].Idle? && b < |s.table.owner| && s.table.owner[b].None?
    ensures s.pc[t := pc][t := Idle] == s.pc && s.table.owner[b := Some(t)][b := None] == s.table.owner
  {
  }
}
