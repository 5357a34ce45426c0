/**
 * Which limits and which threads let the detection counter pass its limit, or a missing nDPI state be used:
 * the runs that do so, and the exact conditions under which there is none.
 */
module DetectionFaults {
  import opened Prelude
  import opened Detection
  import opened DetectionRuns

  /**
   * The limit, how many capture and detection threads there are, and which runs count: with DNS queries that reset
   * the flow or not, with expiry or not, and with expiry while an entry is in hands or not.
   */
  datatype Config = Config(max: nat, threads: nat, workers: nat, resets: bool, expires: bool, overlaps: bool)

  predicate Allowed(c: Config, a: Action) {
    match a
    case Detect(_) => true
    case Expire(_) => c.expires
    case Capture(_, dnsQuery, _, _) => dnsQuery ==> c.resets
  }

  ghost predicate Admitted(c: Config, v: Verdicts, actions: seq<Action>) {
    && (forall a :: a in actions ==> Allowed(c, a))
    && (c.overlaps || ApartRun(v, c.max, Start(c.threads, c.workers), actions))
  }

  function After(c: Config, v: Verdicts, actions: seq<Action>): System {
    Run(v, c.max, Start(c.threads, c.workers), actions)
  }

  ghost predicate CanFault(c: Config) {
    exists v, actions :: Admitted(c, v, actions) && After(c, v, actions).flow.fault
  }

  ghost predicate CanPass(c: Config) {
    exists v, actions :: Admitted(c, v, actions) && After(c, v, actions).flow.count > c.max
  }

  /* ---- reaching a state ---- */

  function NoVerdict(): Verdicts {
    n => NoMatch
  }

  /** Some run leads here, with soft dissectors that never match. */
  ghost predicate Reached(c: Config, s: System) {
    exists actions :: Admitted(c, NoVerdict(), actions) && After(c, NoVerdict(), actions) == s
  }

  lemma {:induction false} RunAppend(v: Verdicts, max: nat, s: System, actions: seq<Action>, a: Action)
    ensures Run(v, max, s, actions + [a]) == Act(v, max, Run(v, max, s, actions), a)
    ensures ApartRun(v, max, s, actions + [a])
            <==> ApartRun(v, max, s, actions) && Apart(Act(v, max, Run(v, max, s, actions), a))
    decreases |actions|
  {
    if actions == [] {
      assert [a][1..] == [];
    } else {
      assert (actions + [a])[1..] == actions[1..] + [a];
      RunAppend(v, max, Act(v, max, s, actions[0]), actions[1..], a);
    }
  }

  lemma Begin(c: Config) returns (s: System)
    ensures s == Start(c.threads, c.workers) && Reached(c, s)
  {
    s := Start(c.threads, c.workers);
    assert Admitted(c, NoVerdict(), []) && After(c, NoVerdict(), []) == s;
  }

  lemma Next(c: Config, s: System, a: Action) returns (s': System)
    requires Reached(c, s) && Allowed(c, a) && (c.overlaps || Apart(Act(NoVerdict(), c.max, s, a)))
    ensures s' == Act(NoVerdict(), c.max, s, a) && Reached(c, s')
  {
    var actions :| Admitted(c, NoVerdict(), actions) && After(c, NoVerdict(), actions) == s;
    RunAppend(NoVerdict(), c.max, Start(c.threads, c.workers), actions, a);
    s' := Act(NoVerdict(), c.max, s, a);
    assert Admitted(c, NoVerdict(), actions + [a]) && After(c, NoVerdict(), actions + [a]) == s';
  }

  lemma Faulted(c: Config, s: System)
    requires Reached(c, s) && s.flow.fault
    ensures CanFault(c)
  {
  }

  lemma Passed(c: Config, s: System)
    requires Reached(c, s) && s.flow.count > c.max
    ensures CanPass(c)
  {
  }

  /* ---- detection threads ---- */

  function With(s: System, w: nat, flow: FlowState, worker: Worker): System
    requires w < |s.workers|
  {
    s.(flow := flow, workers := s.workers[w := worker])
  }

  lemma Advance(c: Config, s: System, w: nat) returns (s': System)
    requires Reached(c, s) && w < |s.workers| && (c.overlaps || s.expirer.Away?)
    ensures Reached(c, s')
    ensures var (flow, worker) := Work(NoVerdict(), c.max, s.flow, s.workers[w]); s' == With(s, w, flow, worker)
  {
    s' := Next(c, s, Detect(w));
  }

  /** It takes its next entry. */
  lemma Pull(c: Config, s: System, w: nat) returns (s': System)
    requires Reached(c, s) && w < |s.workers| && (c.overlaps || s.expirer.Away?)
    requires s.workers[w].pc.Idle? && s.workers[w].queue != []
    ensures Reached(c, s')
    ensures s' == With(s, w, s.flow, Worker(s.workers[w].queue[1..], Taken(s.workers[w].queue[0])))
  {
    s' := Advance(c, s, w);
  }

  /** It tests whether to count. */
  lemma TestCount(c: Config, s: System, w: nat) returns (s': System)
    requires Reached(c, s) && w < |s.workers| && (c.overlaps || s.expirer.Away?) && s.workers[w].pc.Taken?
    ensures Reached(c, s')
    ensures var e := s.workers[w].pc.e;
            s' == With(s, w, s.flow, s.workers[w].(pc := if Counts(c.max, s.flow) then Counting(e) else Checking(e)))
  {
    s' := Advance(c, s, w);
  }

  lemma Increment(c: Config, s: System, w: nat) returns (s': System)
    requires Reached(c, s) && w < |s.workers| && (c.overlaps || s.expirer.Away?) && s.workers[w].pc.Counting?
    ensures Reached(c, s')
    ensures s' == With(s, w, s.flow.(count := (s.flow.count + 1) % 256), s.workers[w].(pc := First(s.workers[w].pc.e)))
  {
    s' := Advance(c, s, w);
  }

  /** It tests whether to conclude, with a flow that is to be concluded. */
  lemma TestConclude(c: Config, s: System, w: nat) returns (s': System)
    requires Reached(c, s) && w < |s.workers| && (c.overlaps || s.expirer.Away?) && s.workers[w].pc.Checking?
    requires s.flow.count == c.max || (s.flow.expiring && !s.flow.expired)
    ensures Reached(c, s')
    ensures var e := s.workers[w].pc.e;
            s' == With(s, w, s.flow, s.workers[w].(pc := if e.hasPacket then Second(e) else Finishing(e)))
  {
    s' := Advance(c, s, w);
  }

  lemma {:induction false} Finish(c: Config, s: System, w: nat) returns (s': System)
    requires Reached(c, s) && w < |s.workers| && (c.overlaps || s.expirer.Away?)
    ensures Reached(c, s')
    ensures s' == With(s, w, Settled(NoVerdict(), c.max, s.flow, s.workers[w].pc), s.workers[w].(pc := Idle))
    decreases Rank(s.workers[w].pc)
  {
    if s.workers[w].pc.Idle? {
      s' := s;
      assert s.workers[w := s.workers[w]] == s.workers;
    } else {
      SettledStep(NoVerdict(), c.max, s.flow, s.workers[w].pc);
      s' := Advance(c, s, w);
      s' := Finish(c, s', w);
    }
  }

  /** A detection thread takes its next entry and finishes it. */
  lemma Take(c: Config, s: System, w: nat) returns (s': System)
    requires Reached(c, s) && w < |s.workers| && (c.overlaps || s.expirer.Away?)
    requires s.workers[w].pc.Idle? && s.workers[w].queue != []
    ensures Reached(c, s')
    ensures var queue := s.workers[w].queue;
            s' == With(s, w, ProcessEntry(NoVerdict(), c.max, s.flow, queue[0]), Worker(queue[1..], Idle))
  {
    EntryBySteps(NoVerdict(), c.max, s.flow, s.workers[w].queue[0]);
    s' := Advance(c, s, w);
    s' := Finish(c, s', w);
  }

  /* ---- capture threads ---- */

  const PLAIN := Entry(true, NdpiResult(false, true, false, false), NdpiResult(false, true, false, false), false)

  const IDENTIFYING := Entry(true, NdpiResult(true, false, false, false), NdpiResult(true, false, false, false), false)

  const NOTICE := PLAIN.(hasPacket := false)

  function Packets(n: nat): seq<Entry> {
    seq(n, _ => PLAIN)
  }

  function At(s: System, t: nat, c: Capturer): System
    requires t < |s.capture|
  {
    s.(capture := s.capture[t := c])
  }

  lemma Handle(c: Config, s: System, t: nat, dnsQuery: bool, w: nat, e: Entry) returns (s': System)
    requires Reached(c, s) && t < |s.capture| && s.expirer.Away? && (dnsQuery ==> c.resets)
    ensures Reached(c, s') && s' == ActCapture(c.max, s, t, dnsQuery, w, e)
  {
    s' := Next(c, s, Capture(t, dnsQuery, w, e));
  }

  /** A packet of an unfinished flow passes the tests. */
  lemma Pass(c: Config, s: System, t: nat) returns (s': System)
    requires Reached(c, s) && t < |s.capture| && s.expirer.Away? && (s.capture[t].Off? || s.capture[t].Test1?)
    requires !s.flow.complete && !s.flow.expired && s.flow.count <= c.max
    ensures Reached(c, s') && s' == At(s, t, Assigning)
  {
    s' := s;
    if s.capture[t].Off? {
      s' := Handle(c, s, t, false, 0, PLAIN);
    }
    assert s' == At(s, t, Test1);
    s' := Handle(c, s', t, false, 0, PLAIN);
    assert s' == At(s, t, Test2);
    s' := Handle(c, s', t, false, 0, PLAIN);
    assert s' == At(s, t, Test3);
    s' := Handle(c, s', t, false, 0, PLAIN);
  }

  /** It is queued to the flow's detection thread. */
  lemma Deliver(c: Config, s: System, t: nat, e: Entry) returns (s': System)
    requires Reached(c, s) && t < |s.capture| && s.expirer.Away? && s.capture[t].Finding? && s.home.Some? && e.hasPacket
    ensures Reached(c, s') && s' == At(s, t, Off).(workers := Send(s.workers, s.home.value, e))
  {
    s' := Handle(c, s, t, false, 0, e);
    assert s' == At(s, t, Queueing(s.home.value));
    s' := Handle(c, s', t, false, 0, e);
  }

  function Sent(s: System, e: Entry): System {
    s.(home := Some(0), workers := Send(s.workers, 0, e))
  }

  /** A packet comes, for the first detection thread. */
  lemma Arrive(c: Config, s: System, e: Entry) returns (s': System)
    requires Reached(c, s) && s.capture != [] && s.workers != [] && s.expirer.Away? && e.hasPacket
    requires s.capture[0].Off? || s.capture[0].Test1?
    requires !s.flow.complete && !s.flow.expired && s.flow.count <= c.max && (s.home.Some? ==> s.home.value == 0)
    ensures Reached(c, s') && s' == Sent(At(s, 0, Off), e)
  {
    s' := Pass(c, s, 0);
    s' := Handle(c, s', 0, false, 0, e);
    if s.home == None {
      assert s' == At(s, 0, Writing(0));
      s' := Handle(c, s', 0, false, 0, e);
    }
    assert s' == At(s, 0, Finding).(home := Some(0));
    s' := Deliver(c, s', 0, e);
  }

  /** The first detection thread has `n` plain packets more. */
  function Loaded(s: System, n: nat): System
    requires s.workers != []
  {
    s.(home := Some(0), workers := s.workers[0 := s.workers[0].(queue := s.workers[0].queue + Packets(n))])
  }

  lemma {:induction false} Load(c: Config, s: System, n: nat) returns (s': System)
    requires Reached(c, s) && s.capture != [] && s.workers != [] && s.expirer.Away? && s.capture[0].Off?
    requires !s.flow.complete && !s.flow.expired && s.flow.count <= c.max && (s.home.Some? ==> s.home.value == 0)
    requires n > 0 || s.home.Some?
    ensures Reached(c, s') && s' == Loaded(s, n)
    decreases n
  {
    if n == 0 {
      s' := s;
      assert s.workers[0].queue + Packets(0) == s.workers[0].queue;
      assert s.workers[0 := s.workers[0]] == s.workers;
    } else {
      s' := Arrive(c, s, PLAIN);
      assert s.capture[0 := Off] == s.capture;
      s' := Load(c, s', n - 1);
      assert (s.workers[0].queue + [PLAIN]) + Packets(n - 1) == s.workers[0].queue + Packets(n);
    }
  }

  /* ---- the main thread ---- */

  /** The main thread finds the flow idle, and is about to mark it. */
  lemma Approach(c: Config, s: System) returns (s': System)
    requires Reached(c, s) && c.expires && s.expirer.Away? && (c.overlaps || AllIdle(s))
    requires !s.flow.expired && !s.flow.complete && !s.flow.expiring
    ensures Reached(c, s') && s' == s.(expirer := Marking)
  {
    s' := Next(c, s, Action.Expire(NOTICE));
    s' := Next(c, s', Action.Expire(NOTICE));
    s' := Next(c, s', Action.Expire(NOTICE));
  }

  function Notified(s: System): System {
    Sent(s, NOTICE).(flow := s.flow.(expiring := true), expirer := Away)
  }

  /** It marks the flow and queues a notice. */
  lemma Notify(c: Config, s: System) returns (s': System)
    requires Reached(c, s) && c.expires && s.expirer.Marking? && s.home == Some(0) && (c.overlaps || AllIdle(s))
    ensures Reached(c, s') && s' == Notified(s)
  {
    s' := Next(c, s, Action.Expire(NOTICE));
    s' := Next(c, s', Action.Expire(NOTICE));
  }

  lemma Expiry(c: Config, s: System) returns (s': System)
    requires Reached(c, s) && c.expires && s.expirer.Away? && s.home == Some(0) && (c.overlaps || AllIdle(s))
    requires !s.flow.expired && !s.flow.complete && !s.flow.expiring
    ensures Reached(c, s') && s' == Notified(s)
  {
    s' := Approach(c, s);
    s' := Notify(c, s');
  }

  /* ---- plain packets ---- */

  /** `k` packets have been counted, and no protocol has been seen in them. */
  ghost predicate Unidentified(s: FlowState, k: nat) {
    && s.count == k && !s.complete && !s.init && !s.expiring && !s.expired && !s.fault && !s.info.known
    && (k > 0 ==> s.ndpi)
  }

  lemma PlainPacket(max: nat, s: FlowState, k: nat)
    requires k + 1 != max && (k == 0 || k < max) && k < 255 && Unidentified(s, k)
    ensures Unidentified(ProcessEntry(NoVerdict(), max, s, PLAIN), k + 1)
  {
    var s1 := s.(count := (s.count + 1) % 256);
    assert ProcessPacket(NoVerdict(), s1, PLAIN.first) == Inspected(s1, PLAIN.first);
  }

  /** The first detection thread takes packets below the limit. */
  lemma {:induction false} TakePlain(c: Config, s: System, k: nat, n: nat, rest: seq<Entry>) returns (s': System)
    requires Reached(c, s) && s.expirer.Away? && s.workers != [] && s.workers[0] == Worker(Packets(n) + rest, Idle)
    requires k + n < c.max <= 255 && Unidentified(s.flow, k) && Inv(c.max, s.flow)
    ensures Reached(c, s') && s' == With(s, 0, s'.flow, Worker(rest, Idle))
    ensures Unidentified(s'.flow, k + n) && Inv(c.max, s'.flow)
    decreases n
  {
    if n == 0 {
      s' := s;
      assert Packets(0) + rest == rest;
      assert s.workers[0 := s.workers[0]] == s.workers;
    } else {
      assert s.workers[0].queue[0] == PLAIN && s.workers[0].queue[1..] == Packets(n - 1) + rest;
      PlainPacket(c.max, s.flow, k);
      EntryKeepsInv(NoVerdict(), c.max, s.flow, PLAIN);
      s' := Take(c, s, 0);
      s' := TakePlain(c, s', k + 1, n - 1, rest);
    }
  }

  /** A packet is counted and processed, and the thread stands before its second test. */
  lemma Count(c: Config, s: System, k: nat) returns (s': System)
    requires Reached(c, s) && s.expirer.Away? && s.workers != [] && s.workers[0] == Worker([PLAIN], Idle)
    requires (k == 0 || k < c.max) && k < 255 && Unidentified(s.flow, k)
    ensures Reached(c, s') && s' == With(s, 0, s'.flow, Worker([], Checking(PLAIN))) && Unidentified(s'.flow, k + 1)
  {
    s' := Pull(c, s, 0);
    s' := TestCount(c, s', 0);
    s' := Increment(c, s', 0);
    var f := s.flow.(count := k + 1);
    assert s'.workers[0] == Worker([], First(PLAIN)) && s'.flow == f;
    s' := Advance(c, s', 0);
    assert ProcessPacket(NoVerdict(), f, PLAIN.first) == Inspected(f, PLAIN.first);
  }

  /** The packet that reaches the limit concludes the flow. */
  lemma LastPacket(max: nat, s: FlowState)
    requires 1 <= max <= 255 && Unidentified(s, max - 1) && Inv(max, s)
    ensures var s' := ProcessEntry(NoVerdict(), max, s, PLAIN); s'.complete && s'.count == max && Inv(max, s')
  {
    CountedStep(NoVerdict(), max, s, PLAIN);
    ConcludeStep(NoVerdict(), Counted(NoVerdict(), max, s, PLAIN), PLAIN);
    EntryKeepsInv(NoVerdict(), max, s, PLAIN);
  }

  /** A packet in which nDPI sees all it wants completes a fresh flow. */
  lemma IdentifiedAtOnce(max: nat)
    requires max != 1
    ensures var s := ProcessEntry(NoVerdict(), max, Init(), IDENTIFYING);
            s.complete && s.count == 1 && !s.expired && !s.expiring && Inv(max, s)
  {
    var v, s1, r := NoVerdict(), Init().(count := 1), IDENTIFYING.first;
    var refined := Refined(Inspected(s1, r), r);
    assert Starts(Inspected(s1, r)) && refined.init && refined.ndpi;
    UpdateBroadcasts(v, refined);
    CompletesOnce(v, FlowUpdate(v, refined));
    EntryKeepsInv(v, max, Init(), IDENTIFYING);
    CountedStep(v, max, Init(), IDENTIFYING);
  }

  /* ---- faults of one detection thread ---- */

  /** A notice for a flow complete at the limit, or complete and marked after that, faults. */
  lemma NoticeFaults(c: Config, s: System)
    requires Reached(c, s) && s.expirer.Away? && s.workers != [] && s.workers[0].pc.Idle?
    requires s.workers[0].queue != [] && !s.workers[0].queue[0].hasPacket && Inv(c.max, s.flow)
    requires s.flow.complete && 0 < s.flow.count && (s.flow.count == c.max || (s.flow.expiring && !s.flow.expired))
    ensures CanFault(c)
  {
    if s.flow.fault {
      Faulted(c, s);
    } else {
      EntryFaults(NoVerdict(), c.max, s.flow, s.workers[0].queue[0]);
      var s' := Take(c, s, 0);
      Faulted(c, s');
    }
  }

  /** One packet, then expiry before it is taken: the notice finds the flow complete at a limit of one. */
  lemma FaultAtLimitOne(c: Config)
    requires c.max == 1 && c.threads > 0 && c.workers > 0 && c.expires
    ensures CanFault(c)
  {
    var s := Begin(c);
    s := Load(c, s, 1);
    assert s.workers[0].queue == [PLAIN];
    s := Expiry(c, s);
    EntryKeepsInv(NoVerdict(), 1, s.flow, PLAIN);
    ExpiryConcludes(NoVerdict(), 1, s.flow, PLAIN);
    s := Take(c, s, 0);
    NoticeFaults(c, s);
  }

  /**
   * Expiry between the count of the packet that reaches the limit and its conclusion: at every limit that can be
   * reached the notice finds the flow complete at the limit.
   */
  lemma FaultAtTheLimit(c: Config)
    requires 1 <= c.max <= 255 && c.threads > 0 && c.workers > 0 && c.expires && c.overlaps
    ensures CanFault(c)
  {
    var s := Begin(c);
    s := Load(c, s, c.max);
    assert s.workers[0].queue == Packets(c.max - 1) + [PLAIN];
    s := TakePlain(c, s, 0, c.max - 1, [PLAIN]);
    s := Count(c, s, c.max - 1);
    s := Expiry(c, s);
    assert s.workers[0] == Worker([NOTICE], Checking(PLAIN));
    SettledChecking(NoVerdict(), c.max, s.flow, PLAIN);
    ConcludeStep(NoVerdict(), s.flow, PLAIN);
    s := Finish(c, s, 0);
    NoticeFaults(c, s);
  }

  /** The flow completes between the main thread's test and its mark: the notice faults also below the limit. */
  lemma FaultBelowTheLimit(c: Config)
    requires c.max != 1 && c.threads > 0 && c.workers > 0 && c.expires && c.overlaps
    ensures CanFault(c)
  {
    var s := Begin(c);
    s := Arrive(c, s, IDENTIFYING);
    assert s.workers[0].queue == [IDENTIFYING];
    s := Approach(c, s);
    IdentifiedAtOnce(c.max);
    s := Take(c, s, 0);
    s := Notify(c, s);
    NoticeFaults(c, s);
  }

  /** The first packet of an expiring flow, when nothing is identified, leaves the protocol unknown. */
  lemma FirstConclusion(max: nat, s: FlowState)
    requires s == Init().(expiring := true)
    ensures !ProcessEntry(NoVerdict(), max, s, PLAIN).info.known
  {
    var s1 := s.(count := 1);
    var s2 := Inspected(s1, PLAIN.first);
    assert ProcessPacket(NoVerdict(), s1, PLAIN.first) == s2;
    assert ProcessPacket(NoVerdict(), s2, PLAIN.second) == Inspected(s2, PLAIN.second);
    var s3 := Guess(ProcessFlow(Inspected(s2, PLAIN.second)), false);
    assert !s3.info.known;
    UpdateAfterCompletion(NoVerdict(), Complete(s3));
    assert !SetDetectionComplete(NoVerdict(), s3).info.known;
  }

  /** A DNS query finds the flow complete and clears the counter. */
  lemma StartReset(c: Config, s: System) returns (s': System)
    requires Reached(c, s) && c.resets && s.capture != [] && s.capture[0].Off? && s.flow.complete && s.expirer.Away?
    ensures Reached(c, s') && s' == At(s, 0, Clearing).(flow := s.flow.(count := 0))
  {
    s' := Handle(c, s, 0, true, 0, PLAIN);
    s' := Handle(c, s', 0, true, 0, PLAIN);
  }

  /** A reset between the packets and the notice lets the flow reach the limit again before the notice is taken. */
  lemma FaultAfterReset(c: Config)
    requires 2 <= c.max <= 255 && c.threads > 0 && c.workers > 0 && c.expires && c.resets
    ensures CanFault(c)
  {
    var s := ExpiredOnce(c);
    s := StartReset(c, s);
    s := Handle(c, s, 0, true, 0, PLAIN);
    s := Handle(c, s, 0, true, 0, PLAIN);
    assert Packets(c.max) + [NOTICE] == Packets(c.max - 1) + [PLAIN, NOTICE];
    s := TakePlain(c, s, 0, c.max - 1, [PLAIN, NOTICE]);
    LastPacket(c.max, s.flow);
    s := Take(c, s, 0);
    NoticeFaults(c, s);
  }

  /** Packets and a notice are queued; the first packet has concluded the flow. */
  lemma ExpiredOnce(c: Config) returns (s: System)
    requires 2 <= c.max <= 255 && c.threads > 0 && c.workers > 0 && c.expires
    ensures Reached(c, s) && s.expirer.Away? && s.home == Some(0)
    ensures |s.capture| == c.threads && s.capture[0].Off? && |s.workers| == c.workers
    ensures s.workers[0] == Worker(Packets(c.max) + [NOTICE], Idle)
    ensures s.flow.complete && !s.flow.ndpi && !s.flow.fault && !s.flow.info.known
  {
    s := Begin(c);
    s := Load(c, s, c.max + 1);
    assert s.workers[0].queue == [PLAIN] + Packets(c.max);
    s := Expiry(c, s);
    assert s.workers[0].queue[1..] == Packets(c.max) + [NOTICE];
    ExpiryConcludes(NoVerdict(), c.max, s.flow, PLAIN);
    EntryFaults(NoVerdict(), c.max, s.flow, PLAIN);
    FirstConclusion(c.max, s.flow);
    s := Take(c, s, 0);
  }

  /** A packet counted between the two clearings of a reset: the flow is counted, incomplete and without nDPI state. */
  lemma FaultAtHalfReset(c: Config)
    requires c.max != 1 && c.threads > 0 && c.workers > 0 && c.expires && c.resets
    ensures CanFault(c)
  {
    var s := IdentifiedFirst(c);
    s := StartReset(c, s);
    CompleteEntry(c.max, s.flow, PLAIN);
    s := Take(c, s, 0);
    s := Handle(c, s, 0, true, 0, PLAIN);
    s := Expiry(c, s);
    assert s.workers[0].queue == [NOTICE];
    UnsoundNotice(c.max, s.flow);
    s := Take(c, s, 0);
    Faulted(c, s);
  }

  /** Of two packets, the first has completed the flow. */
  lemma IdentifiedFirst(c: Config) returns (s: System)
    requires c.max != 1 && c.threads > 0 && c.workers > 0
    ensures Reached(c, s) && s.expirer.Away? && s.capture != [] && s.capture[0].Off? && s.home == Some(0)
    ensures s.workers != [] && s.workers[0] == Worker([PLAIN], Idle) && AllIdle(s)
    ensures s.flow.complete && !s.flow.expiring && !s.flow.expired && !s.flow.ndpi
  {
    s := Begin(c);
    s := Arrive(c, s, IDENTIFYING);
    s := Arrive(c, s, PLAIN);
    assert s.workers[0].queue == [IDENTIFYING, PLAIN];
    IdentifiedAtOnce(c.max);
    s := Take(c, s, 0);
  }

  lemma UnsoundNotice(max: nat, s: FlowState)
    requires s.count == 1 && s.expiring && !s.expired && !s.ndpi
    ensures ProcessEntry(NoVerdict(), max, s, NOTICE).fault
  {
    ConcludeStep(NoVerdict(), s, NOTICE);
  }

  /** A complete flow whose counter has been cleared counts one more packet. */
  lemma CompleteEntry(max: nat, s: FlowState, e: Entry)
    requires s.complete && s.count == 0 && !s.expiring && !s.expired && !s.ndpi
    ensures var s' := ProcessEntry(NoVerdict(), max, s, e);
            s'.complete && s'.count == 1 && !s'.expiring && !s'.expired && !s'.ndpi
  {
    var s1 := Counted(NoVerdict(), max, s, e);
    CountedStep(NoVerdict(), max, s, e);
    assert s1.complete && s1.count == 1 && !s1.expiring && !s1.expired;
    if max == 1 {
      ConcludeStep(NoVerdict(), s1, e);
    } else {
      assert ProcessEntry(NoVerdict(), max, s, e) == Released(s1);
    }
  }

  /* ---- two detection threads ---- */

  /** Two capture threads find the flow without a detection thread, and queue its first packets to different ones. */
  lemma TwoHomes(c: Config) returns (s: System)
    requires c.threads > 1 && c.workers > 1
    ensures Reached(c, s) && s.expirer.Away? && s.flow == Init() && s.home == Some(0)
    ensures |s.capture| == c.threads && s.capture[0].Off? && |s.workers| == c.workers
    ensures forall w :: 0 <= w < c.workers ==> s.workers[w] == Worker(if w < 2 then [PLAIN] else [], Idle)
  {
    s := Begin(c);
    s := Pass(c, s, 0);
    s := Pass(c, s, 1);
    s := Handle(c, s, 0, false, 0, PLAIN);
    s := Handle(c, s, 1, false, 1, PLAIN);
    s := Handle(c, s, 1, false, 1, PLAIN);
    s := Deliver(c, s, 1, PLAIN);
    s := Handle(c, s, 0, false, 0, PLAIN);
    s := Deliver(c, s, 0, PLAIN);
    assert [] + [PLAIN] == [PLAIN];
  }

  /** The first detection thread has brought the counter to one below the limit, and both have one packet left. */
  lemma BothBelow(c: Config) returns (s: System)
    requires 1 <= c.max <= 255 && c.threads > 1 && c.workers > 1
    ensures Reached(c, s) && s.expirer.Away? && |s.workers| == c.workers
    ensures s.workers[0] == Worker([PLAIN], Idle) && s.workers[1] == Worker([PLAIN], Idle)
    ensures Unidentified(s.flow, c.max - 1) && Inv(c.max, s.flow)
  {
    s := TwoHomes(c);
    s := Load(c, s, c.max - 1);
    assert s.workers[0].queue == Packets(c.max - 1) + [PLAIN];
    s := TakePlain(c, s, 0, c.max - 1, [PLAIN]);
  }

  lemma BothCounting(c: Config) returns (s: System)
    requires 1 <= c.max <= 255 && c.threads > 1 && c.workers > 1
    ensures Reached(c, s) && s.expirer.Away? && |s.workers| == c.workers && s.flow.count == c.max - 1
    ensures s.workers[0].pc == Counting(PLAIN) && s.workers[1].pc == Counting(PLAIN)
  {
    s := BothBelow(c);
    assert Counts(c.max, s.flow);
    s := Pull(c, s, 0);
    s := Pull(c, s, 1);
    s := TestCount(c, s, 0);
    s := TestCount(c, s, 1);
  }

  /** Both test the counter before either increments it. */
  lemma CounterPasses(c: Config)
    requires 1 <= c.max <= 254 && c.threads > 1 && c.workers > 1
    ensures CanPass(c)
  {
    var s := BothCounting(c);
    s := Increment(c, s, 0);
    s := Increment(c, s, 1);
    Passed(c, s);
  }

  /** A limit of zero is passed by the first packet. */
  lemma FirstPacketPasses(c: Config)
    requires c.max == 0 && c.threads > 0 && c.workers > 0
    ensures CanPass(c)
  {
    var s := Begin(c);
    s := Load(c, s, 1);
    assert s.workers[0].queue == [PLAIN];
    s := Count(c, s, 0);
    Passed(c, s);
  }

  lemma BothConcluding(c: Config) returns (s: System)
    requires 1 <= c.max <= 255 && c.threads > 1 && c.workers > 1
    ensures Reached(c, s) && s.expirer.Away? && |s.workers| == c.workers && s.flow.count == c.max
    ensures s.workers[0].pc == Checking(PLAIN) && s.workers[1].pc == Finishing(PLAIN)
  {
    s := BothBelow(c);
    s := Count(c, s, c.max - 1);
    assert s.workers[0].pc == Checking(PLAIN) && s.workers[1] == Worker([PLAIN], Idle);
    s := Pull(c, s, 1);
    s := TestCount(c, s, 1);
    s := TestConclude(c, s, 1);
    PcMoves(NoVerdict(), c.max, s.flow, Second(PLAIN));
    s := Advance(c, s, 1);
  }

  /** One concludes the flow at the limit, while the other stands before its own conclusion. */
  lemma FaultWithoutExpiry(c: Config)
    requires 1 <= c.max <= 255 && c.threads > 1 && c.workers > 1
    ensures CanFault(c)
  {
    var s := BothConcluding(c);
    SettledChecking(NoVerdict(), c.max, s.flow, PLAIN);
    ConcludeStep(NoVerdict(), s.flow, PLAIN);
    s := Finish(c, s, 0);
    s := Advance(c, s, 1);
    Faulted(c, s);
  }

  /** One has concluded the expiring flow but not yet set it expired, and the other takes the notice. */
  lemma FaultByTwoThreads(c: Config)
    requires c.max != 1 && c.threads > 1 && c.workers > 1 && c.expires
    ensures CanFault(c)
  {
    var s := TwoHomes(c);
    PlainPacket(c.max, s.flow, 0);
    s := Take(c, s, 0);
    assert AllIdle(s);
    s := Expiry(c, s);
    assert s.workers[0] == Worker([NOTICE], Idle) && s.workers[1] == Worker([PLAIN], Idle);
    s := Concluding(c, s);
    s := Pull(c, s, 0);
    s := TestCount(c, s, 0);
    s := TestConclude(c, s, 0);
    assert s.workers[0].pc == Finishing(NOTICE) && s.workers[1].pc == Flagging(PLAIN) && s.flow.complete;
    SettledFlags(c.max, s.flow, PLAIN);
    s := Finish(c, s, 1);
    PcFaults(NoVerdict(), c.max, s.flow, Finishing(NOTICE));
    s := Advance(c, s, 0);
    Faulted(c, s);
  }

  lemma SettledFlags(max: nat, s: FlowState, e: Entry)
    requires s.complete
    ensures !Settled(NoVerdict(), max, s, Flagging(e)).ndpi
  {
    SettledStep(NoVerdict(), max, s, Flagging(e));
    SettledLast(NoVerdict(), max, Expired(s), e);
  }

  /** The second detection thread concludes the expiring flow, up to its flags. */
  lemma Concluding(c: Config, s: System) returns (s': System)
    requires Reached(c, s) && s.expirer.Away? && |s.workers| > 1 && s.workers[1] == Worker([PLAIN], Idle)
    requires s.flow.count == 1 && s.flow.expiring && !s.flow.expired
    ensures Reached(c, s') && s' == With(s, 1, s'.flow, Worker([], Flagging(PLAIN)))
    ensures s'.flow.count == 1 && s'.flow.complete && s'.flow.expiring && !s'.flow.expired
  {
    s' := Pull(c, s, 1);
    s' := TestCount(c, s', 1);
    s' := TestConclude(c, s', 1);
    s' := ToFlags(c, s');
  }

  /** From the second processing of its packet on. */
  lemma ToFlags(c: Config, s: System) returns (s': System)
    requires Reached(c, s) && s.expirer.Away? && |s.workers| > 1 && s.workers[1] == Worker([], Second(PLAIN))
    ensures Reached(c, s') && s' == With(s, 1, s'.flow, Worker([], Flagging(PLAIN)))
    ensures s'.flow.count == s.flow.count && s'.flow.complete
    ensures s'.flow.expiring == s.flow.expiring && s'.flow.expired == s.flow.expired
  {
    var f1 := ProcessPacket(NoVerdict(), s.flow, PLAIN.second);
    var f2 := Guess(ProcessFlow(f1), PLAIN.guess);
    PacketStep(NoVerdict(), s.flow, PLAIN.second);
    CompletesOnce(NoVerdict(), f2);
    s' := Advance(c, s, 1);
    assert s' == With(s, 1, f1, Worker([], Finishing(PLAIN)));
    s' := Advance(c, s', 1);
    assert s' == With(s, 1, f2, Worker([], Completing(PLAIN)));
    s' := Advance(c, s', 1);
  }

  /* ---- the exact conditions ---- */

  /**
   * The counter stays within the limit in all runs if and only if the limit is 255 or more, where the eight bits
   * of the counter end, or is positive and no two capture threads can give the flow to two detection threads.
   */
  lemma CounterWithin(c: Config)
    requires c.threads > 0 && c.workers > 0
    ensures !CanPass(c) <==> c.max >= 255 || (c.max > 0 && Single(c.threads, c.workers))
  {
    if c.max == 0 {
      FirstPacketPasses(c);
    } else if c.max < 255 && !Single(c.threads, c.workers) {
      CounterPasses(c);
    } else {
      forall v, actions | Admitted(c, v, actions)
        ensures After(c, v, actions).flow.count <= c.max
      {
        if c.max < 255 {
          RunInvariant(v, c.max, c.threads, c.workers, actions);
        }
      }
    }
  }

  /**
   * All runs with expiry are free of faults if and only if the limit is not one, no DNS query resets the flow, the
   * main thread never expires it during an entry, and no two capture threads can give it to two detection threads.
   */
  lemma FaultFree(c: Config)
    requires c.threads > 0 && c.workers > 0 && c.expires
    ensures !CanFault(c) <==> c.max != 1 && !c.resets && !c.overlaps && Single(c.threads, c.workers)
  {
    if c.max == 1 {
      FaultAtLimitOne(c);
    } else if c.overlaps {
      FaultBelowTheLimit(c);
    } else if c.resets {
      FaultAtHalfReset(c);
    } else if !Single(c.threads, c.workers) {
      FaultByTwoThreads(c);
    } else {
      forall v, actions | Admitted(c, v, actions)
        ensures !After(c, v, actions).flow.fault
      {
        ApartNoFault(v, c.max, c.threads, c.workers, actions);
      }
    }
  }

  /**
   * Without expiry and with a positive limit, all runs are free of faults if and only if the counter cannot reach
   * the limit or no two capture threads can give the flow to two detection threads.
   */
  lemma FaultFreeUnexpired(c: Config)
    requires c.max > 0 && !c.expires
    ensures !CanFault(c) <==> c.max > 255 || Single(c.threads, c.workers)
  {
    if c.max <= 255 && !Single(c.threads, c.workers) {
      FaultWithoutExpiry(c);
    } else {
      forall v, actions | Admitted(c, v, actions)
        ensures !After(c, v, actions).flow.fault
      {
        if c.max > 255 {
          RunEndless(v, c.max, Start(c.threads, c.workers), actions);
        } else {
          UnexpiredNoFault(v, c.max, c.threads, c.workers, actions);
        }
      }
    }
  }
}
