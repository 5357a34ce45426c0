/**
 * The threads that share a flow, in any interleaving of their steps: detection threads with their queues,
 * capture threads that give the flow to one of them or reset it, and the main thread that expires it.
 */
module DetectionRuns {
  import opened Prelude
  import opened Detection

  /** A detection thread: its queued entries of the flow, and where it stands with the one in hands. */
  datatype Worker = Worker(queue: seq<Entry>, pc: Pc)

  /** Where the main thread stands with expiring the flow. */
  datatype Expirer =
    | Away
    | Alive        // the flow was not expired
    | Incomplete   // nor complete
    | Marking      // nor expiring: about to be marked so
    | Noticing     // marked; about to queue a notice
    | Ending       // about to set it expired

  /** Where a capture thread stands with a packet of the flow. */
  datatype Capturer =
    | Off
    | Resetting        // a DNS query has found the flow complete: about to clear the counter
    | Clearing         // about to clear the flags
    | Restarting       // about to overwrite the statistics, the counter among them
    | Test1            // before the test of completion
    | Test2            // before the test of expiry
    | Test3            // before the test of the counter
    | Assigning        // before the test whether the flow has a detection thread
    | Writing(w: nat)  // it had none: about to give it this one
    | Finding          // before the flow's detection thread is looked up
    | Queueing(w: nat) // before the packet is queued to it

  /** `home`: the detection thread that the flow has been given to. */
  datatype System =
    System(flow: FlowState, workers: seq<Worker>, expirer: Expirer, capture: seq<Capturer>, home: Option<nat>)

  datatype Action =
    | Detect(w: nat)                                    // a detection thread goes on, or takes its next entry
    | Expire(notice: Entry)                             // the main thread goes on, or finds the flow idle for too long
    | Capture(t: nat, dnsQuery: bool, w: nat, e: Entry) // a capture thread goes on, or has a packet of the flow

  /** One step of a detection thread. */
  function Work(v: Verdicts, max: nat, s: FlowState, worker: Worker): (FlowState, Worker) {
    if !worker.pc.Idle? then var (s', pc) := PcStep(v, max, s, worker.pc); (s', worker.(pc := pc))
    else if worker.queue == [] then (s, worker)
    else (s, Worker(worker.queue[1..], Taken(worker.queue[0])))
  }

  function ActDetect(v: Verdicts, max: nat, s: System, w: nat): System
    requires w < |s.workers|
  {
    var (flow, worker) := Work(v, max, s.flow, s.workers[w]);
    s.(flow := flow, workers := s.workers[w := worker])
  }

  /** An entry is queued; no thread is without a queue. */
  function Send(workers: seq<Worker>, w: nat, e: Entry): seq<Worker> {
    if w < |workers| then workers[w := workers[w].(queue := workers[w].queue + [e])] else workers
  }

  function Notice(e: Entry): Entry {
    e.(hasPacket := false)
  }

  /** What the step of the main thread does to the flow. */
  function Marked(s: FlowState, expirer: Expirer): FlowState {
    match expirer
    case Marking => s.(expiring := true)
    case Ending => s.(expired := true)
    case _ => s
  }

  /** Where the main thread stands after the step. */
  function Pursues(s: System): Expirer {
    match s.expirer
    case Away => if s.flow.expired then Away else Alive
    case Alive => if s.flow.complete then Ending else Incomplete
    case Incomplete => if s.flow.expiring then Away else Marking
    case Marking => Noticing
    case Noticing => if s.home.Some? then Away else Ending
    case Ending => Away
  }

  function ActExpire(s: System, e: Entry): System {
    var notifies := s.expirer.Noticing? && s.home.Some?;
    s.(flow := Marked(s.flow, s.expirer),
       workers := if notifies then Send(s.workers, s.home.value, Notice(e)) else s.workers,
       expirer := Pursues(s))
  }

  function FlagsCleared(s: FlowState): FlowState {
    FullReset(s).(count := s.count)
  }

  /** What the step of a capture thread does to the flow: a reset writes to it three times. */
  function Rewritten(s: FlowState, c: Capturer): FlowState {
    match c
    case Resetting => s.(count := 0)
    case Clearing => FlagsCleared(s)
    case Restarting => s.(count := 0)
    case _ => s
  }

  /** Where the capture thread stands after the step; its own counter, arbitrary here, names `w`. */
  function Proceeds(max: nat, s: System, c: Capturer, dnsQuery: bool, w: nat): Capturer {
    match c
    case Off => if dnsQuery && s.flow.complete then Resetting else Test1
    case Resetting => Clearing
    case Clearing => Restarting
    case Restarting => Test1
    case Test1 => if s.flow.complete then Off else Test2
    case Test2 => if s.flow.expired then Off else Test3
    case Test3 => if s.flow.count > max then Off else Assigning
    case Assigning => if s.home.Some? then Finding else if w < |s.workers| then Writing(w) else Assigning
    case Writing(_) => Finding
    case Finding => if s.home.Some? then Queueing(s.home.value) else Off
    case Queueing(_) => Off
  }

  function ActCapture(max: nat, s: System, t: nat, dnsQuery: bool, w: nat, e: Entry): System
    requires t < |s.capture|
  {
    var c := s.capture[t];
    s.(flow := Rewritten(s.flow, c),
       workers := if c.Queueing? then Send(s.workers, c.w, e.(hasPacket := true)) else s.workers,
       capture := s.capture[t := Proceeds(max, s, c, dnsQuery, w)],
       home := if c.Writing? then Some(c.w) else s.home)
  }

  function Act(v: Verdicts, max: nat, s: System, a: Action): System {
    match a
    case Detect(w) => if w < |s.workers| then ActDetect(v, max, s, w) else s
    case Expire(notice) => ActExpire(s, notice)
    case Capture(t, dnsQuery, w, e) => if t < |s.capture| then ActCapture(max, s, t, dnsQuery, w, e) else s
  }

  function Run(v: Verdicts, max: nat, s: System, actions: seq<Action>): System
    decreases |actions|
  {
    if actions == [] then s else Run(v, max, Act(v, max, s, actions[0]), actions[1..])
  }

  function Start(threads: nat, workers: nat): System {
    System(Init(), seq(workers, _ => Worker([], Idle)), Away, seq(threads, _ => Off), None)
  }

  /* ---- one thread without interruption ---- */

  /** A packet of a flow that is complete, expired or beyond the limit is dropped at the first test that tells so. */
  lemma PacketDropped(v: Verdicts, max: nat, s: System, t: nat, w: nat, e: Entry)
    requires t < |s.capture| && s.capture[t].Test1?
    requires s.flow.complete || s.flow.expired || s.flow.count > max
    ensures var a := Capture(t, false, w, e);
            Run(v, max, s, if s.flow.complete then [a] else if s.flow.expired then [a, a] else [a, a, a])
            == s.(capture := s.capture[t := Off])
  {
    var a := Capture(t, false, w, e);
    RunOne(v, max, s, a, []);
    if !s.flow.complete {
      RunOne(v, max, s, a, [a]);
      RunOne(v, max, Act(v, max, s, a), a, []);
      if !s.flow.expired {
        RunOne(v, max, s, a, [a, a]);
        RunOne(v, max, Act(v, max, s, a), a, [a]);
        RunOne(v, max, Act(v, max, Act(v, max, s, a), a), a, []);
      }
    }
  }

  lemma RunOne(v: Verdicts, max: nat, s: System, a: Action, rest: seq<Action>)
    ensures Run(v, max, s, [a] + rest) == Run(v, max, Act(v, max, s, a), rest)
  {
    assert ([a] + rest)[1..] == rest;
  }

  /** Without another DNS query between, a reset clears everything and goes on with the packet. */
  lemma ResetAlone(v: Verdicts, max: nat, s: System, t: nat, w: nat, e: Entry)
    requires t < |s.capture| && s.capture[t].Off?
    ensures var a := Capture(t, true, w, e);
            if s.flow.complete
            then Run(v, max, s, [a, a, a, a]) == s.(flow := FullReset(s.flow), capture := s.capture[t := Test1])
            else Run(v, max, s, [a]) == s.(capture := s.capture[t := Test1])
  {
    var a := Capture(t, true, w, e);
    RunOne(v, max, s, a, []);
    if s.flow.complete {
      var s1 := Act(v, max, s, a);
      var s2 := Act(v, max, s1, a);
      var s3 := Act(v, max, s2, a);
      RunOne(v, max, s, a, [a, a, a]);
      RunOne(v, max, s1, a, [a, a]);
      RunOne(v, max, s2, a, [a]);
      RunOne(v, max, s3, a, []);
      assert s3.capture[t].Restarting? && s3.flow == FlagsCleared(s.flow.(count := 0));
    }
  }

  /**
   * Expiring a flow: one that is expired or expiring stays as it is, a complete one becomes expired; any other is
   * marked and sends its detection thread a notice, or becomes expired at once when it has none.
   */
  lemma ExpiryAlone(v: Verdicts, max: nat, s: System, e: Entry)
    requires s.expirer.Away?
    ensures var a, x := Action.Expire(e), s.flow;
            if x.expired then Run(v, max, s, [a]) == s
            else if x.complete then Run(v, max, s, [a, a, a]) == s.(flow := x.(expired := true))
            else if x.expiring then Run(v, max, s, [a, a, a]) == s
            else if s.home.Some? then
              Run(v, max, s, [a, a, a, a, a])
              == s.(flow := x.(expiring := true), workers := Send(s.workers, s.home.value, Notice(e)))
            else Run(v, max, s, [a, a, a, a, a, a]) == s.(flow := x.(expiring := true, expired := true))
  {
    var a := Action.Expire(e);
    var s1 := Act(v, max, s, a);
    var s2 := Act(v, max, s1, a);
    var s3 := Act(v, max, s2, a);
    RunOne(v, max, s, a, []);
    if !s.flow.expired {
      RunOne(v, max, s, a, [a, a]);
      RunOne(v, max, s1, a, [a]);
      RunOne(v, max, s2, a, []);
      if !s.flow.complete && !s.flow.expiring {
        MarkAlone(v, max, s3, e);
        RunThree(v, max, s, a, [a, a]);
        RunThree(v, max, s, a, [a, a, a]);
        assert [a, a, a] + [a, a] == [a, a, a, a, a] && [a, a, a] + [a, a, a] == [a, a, a, a, a, a];
        assert s3 == s.(expirer := Marking);
      }
    }
  }

  lemma RunThree(v: Verdicts, max: nat, s: System, a: Action, rest: seq<Action>)
    ensures Run(v, max, s, [a, a, a] + rest) == Run(v, max, Act(v, max, Act(v, max, Act(v, max, s, a), a), a), rest)
  {
    var s1 := Act(v, max, s, a);
    RunOne(v, max, s, a, [a, a] + rest);
    RunOne(v, max, s1, a, [a] + rest);
    RunOne(v, max, Act(v, max, s1, a), a, rest);
    assert [a, a, a] + rest == [a] + ([a, a] + rest) && [a, a] + rest == [a] + ([a] + rest);
  }

  lemma MarkAlone(v: Verdicts, max: nat, s: System, e: Entry)
    requires s.expirer.Marking?
    ensures var a := Action.Expire(e);
            if s.home.Some? then
              Run(v, max, s, [a, a])
              == s.(flow := s.flow.(expiring := true), workers := Send(s.workers, s.home.value, Notice(e)),
                    expirer := Away)
            else Run(v, max, s, [a, a, a]) == s.(flow := s.flow.(expiring := true, expired := true), expirer := Away)
  {
    var a := Action.Expire(e);
    var s1 := Act(v, max, s, a);
    RunOne(v, max, s, a, [a]);
    RunOne(v, max, s1, a, []);
    if s.home.None? {
      RunThree(v, max, s, a, []);
      assert [a, a, a] + [] == [a, a, a];
    }
  }

  /** Every detection thread that is named exists. */
  predicate Names(c: Capturer, home: Option<nat>, workers: nat) {
    match c
    case Writing(w) => w < workers
    case Finding => home.Some?
    case Queueing(w) => w < workers
    case _ => true
  }

  ghost predicate Placed(s: System) {
    && (s.home.Some? ==> s.home.value < |s.workers|)
    && (forall t :: 0 <= t < |s.capture| ==> Names(s.capture[t], s.home, |s.workers|))
  }

  lemma ActPlaced(v: Verdicts, max: nat, s: System, a: Action)
    requires Placed(s)
    ensures Placed(Act(v, max, s, a))
  {
    if a.Capture? && a.t < |s.capture| {
      var s' := Act(v, max, s, a);
      assert Names(s.capture[a.t], s.home, |s.workers|);
      forall u | 0 <= u < |s'.capture|
        ensures Names(s'.capture[u], s'.home, |s'.workers|)
      {
        assert u != a.t ==> Names(s.capture[u], s.home, |s.workers|);
      }
    }
  }

  /** In every run the detection thread of a flow is found: no capture thread throws, and no entry is lost. */
  lemma {:induction false} RunPlaced(v: Verdicts, max: nat, s: System, actions: seq<Action>)
    requires Placed(s)
    ensures Placed(Run(v, max, s, actions))
    decreases |actions|
  {
    if actions != [] {
      ActPlaced(v, max, s, actions[0]);
      RunPlaced(v, max, Act(v, max, s, actions[0]), actions[1..]);
    }
  }

  /* ---- one detection thread per flow ---- */

  /** No two capture threads can give the flow to different detection threads. */
  predicate Single(threads: nat, workers: nat) {
    threads <= 1 || workers <= 1
  }

  const RESTING := Worker([], Idle)

  /** A capture thread that is about to write or to use the flow's detection thread agrees with it. */
  predicate Agrees(c: Capturer, home: Option<nat>, workers: nat) {
    match c
    case Writing(w) => w < workers && (home.Some? ==> home.value == w)
    case Finding => home.Some?
    case Queueing(w) => home == Some(w)
    case _ => true
  }

  /** All entries of the flow are with one detection thread. */
  ghost predicate Solo(s: System) {
    && Single(|s.capture|, |s.workers|)
    && (s.home.Some? ==> s.home.value < |s.workers|)
    && (forall w :: 0 <= w < |s.workers| && s.home != Some(w) ==> s.workers[w] == RESTING)
    && (forall t :: 0 <= t < |s.capture| ==> Agrees(s.capture[t], s.home, |s.workers|))
  }

  /** The detection thread of the flow. */
  function Active(s: System): Worker {
    if s.home.Some? && s.home.value < |s.workers| then s.workers[s.home.value] else RESTING
  }

  lemma DetectSolo(v: Verdicts, max: nat, s: System, w: nat)
    requires Solo(s) && w < |s.workers|
    ensures var s' := ActDetect(v, max, s, w);
            Solo(s') && (s' == s || (s'.flow, Active(s')) == Work(v, max, s.flow, Active(s)))
  {
    if s.home != Some(w) {
      assert s.workers[w := s.workers[w]] == s.workers;
    }
  }

  lemma ExpireSolo(s: System, e: Entry)
    requires Solo(s)
    ensures var s' := ActExpire(s, e);
            Solo(s') && Active(s') == if s.expirer.Noticing? && s.home.Some?
                                      then Active(s).(queue := Active(s).queue + [Notice(e)]) else Active(s)
  {
  }

  lemma CaptureSolo(max: nat, s: System, t: nat, dnsQuery: bool, w: nat, e: Entry)
    requires Solo(s) && t < |s.capture|
    ensures var s' := ActCapture(max, s, t, dnsQuery, w, e);
            Solo(s') && Active(s') == if s.capture[t].Queueing?
                                      then Active(s).(queue := Active(s).queue + [e.(hasPacket := true)]) else Active(s)
  {
    var s' := ActCapture(max, s, t, dnsQuery, w, e);
    assert Agrees(s.capture[t], s.home, |s.workers|);
    forall u | 0 <= u < |s'.capture|
      ensures Agrees(s'.capture[u], s'.home, |s'.workers|)
    {
      assert u != t ==> Agrees(s.capture[u], s.home, |s.workers|);
    }
  }

  lemma StartSolo(threads: nat, workers: nat)
    requires Single(threads, workers)
    ensures Solo(Start(threads, workers)) && Active(Start(threads, workers)) == RESTING
  {
  }

  /* ---- what every interleaving keeps ---- */

  /** No reset stands between clearing the flags and clearing the counter for the second time. */
  predicate Unreset(s: System) {
    Restarting !in s.capture
  }

  /** The detection thread may be about to complete the flow. */
  predicate Open(pc: Pc) {
    pc.First? || pc.Checking? || pc.Second? || pc.Finishing? || pc.Completing?
  }

  /** The invariant of the flow with its detection thread anywhere. */
  ghost predicate SoundFlow(max: nat, s: FlowState, pc: Pc, unreset: bool) {
    && (max > 0 ==> s.count <= max && (pc.Counting? ==> s.count < max))
    && (unreset && 0 < s.count == max && !Open(pc) ==> s.complete)
    && (unreset && s.count > 0 && !s.complete && !pc.First? ==> s.ndpi)
    && (s.complete && (pc.Idle? || pc.Taken? || pc.Counting?) ==> !s.ndpi)
    && ((pc.Finishing? || pc.Completing?) && pc.e.hasPacket ==> s.ndpi)
  }

  ghost predicate Sound(max: nat, s: System) {
    Solo(s) && SoundFlow(max, s.flow, Active(s).pc, Unreset(s))
  }

  /** What the steps that neither count nor process the packet keep. */
  predicate SameBut(s: FlowState, s': FlowState) {
    s'.count == s.count && s'.complete == s.complete && s'.ndpi == s.ndpi
  }

  /** The second half of an entry. */
  lemma ConcludingSound(max: nat, s: FlowState, s': FlowState, pc: Pc, pc': Pc, unreset: bool)
    requires SoundFlow(max, s, pc, unreset) && s'.count == s.count
    requires match pc
             case First(e) => pc' == Checking(e) && s'.ndpi
             case Second(e) => pc' == Finishing(e) && s'.ndpi
             case Finishing(e) => pc' == Completing(e) && SameBut(s, s')
             case Completing(e) => pc' == Flagging(e) && s'.complete
             case Flagging(e) => pc' == Releasing && SameBut(s, s')
             case _ => false
    ensures SoundFlow(max, s', pc', unreset)
  {
  }

  lemma WorkSound(v: Verdicts, max: nat, s: FlowState, worker: Worker, unreset: bool)
    requires SoundFlow(max, s, worker.pc, unreset)
    ensures var (s', worker') := Work(v, max, s, worker); SoundFlow(max, s', worker'.pc, unreset)
  {
    var (s', worker') := Work(v, max, s, worker);
    if worker.pc.First? || worker.pc.Second? || worker.pc.Finishing? || worker.pc.Completing? || worker.pc.Flagging? {
      PcMoves(v, max, s, worker.pc);
      ConcludingSound(max, s, s', worker.pc, worker'.pc, unreset);
    } else if worker.pc.Checking? {
      CheckingSound(v, max, s, worker.pc, unreset);
    } else {
      CountingSound(v, max, s, worker, unreset);
    }
  }

  lemma PcMoves(v: Verdicts, max: nat, s: FlowState, pc: Pc)
    ensures var (s', pc') := PcStep(v, max, s, pc);
            match pc
            case First(e) => pc' == Checking(e) && s'.count == s.count && s'.ndpi
            case Second(e) => pc' == Finishing(e) && s'.count == s.count && s'.ndpi
            case Finishing(e) => pc' == Completing(e) && SameBut(s, s')
            case Completing(e) => pc' == Flagging(e) && s'.count == s.count && s'.complete
            case Flagging(e) => pc' == Releasing && SameBut(s, s')
            case _ => true
  {
    match pc
    case First(e) => PacketStep(v, s, e.first);
    case Second(e) => PacketStep(v, s, e.second);
    case Completing(e) => CompletesOnce(v, s);
    case _ =>
  }

  lemma CheckingSound(v: Verdicts, max: nat, s: FlowState, pc: Pc, unreset: bool)
    requires pc.Checking? && SoundFlow(max, s, pc, unreset)
    ensures var (s', pc') := PcStep(v, max, s, pc); SoundFlow(max, s', pc', unreset)
  {
  }

  lemma CountingSound(v: Verdicts, max: nat, s: FlowState, worker: Worker, unreset: bool)
    requires worker.pc.Idle? || worker.pc.Taken? || worker.pc.Counting? || worker.pc.Releasing?
    requires SoundFlow(max, s, worker.pc, unreset)
    ensures var (s', worker') := Work(v, max, s, worker); SoundFlow(max, s', worker'.pc, unreset)
  {
  }

  lemma RewrittenSound(max: nat, s: FlowState, pc: Pc, c: Capturer, unreset: bool, unreset': bool)
    requires SoundFlow(max, s, pc, unreset)
    requires if c.Clearing? then !unreset' else !c.Restarting? && unreset' ==> unreset
    ensures SoundFlow(max, Rewritten(s, c), pc, unreset')
  {
  }

  lemma CaptureUnreset(max: nat, s: System, t: nat, dnsQuery: bool, w: nat, e: Entry)
    requires t < |s.capture|
    ensures var unreset := Unreset(ActCapture(max, s, t, dnsQuery, w, e));
            if s.capture[t].Clearing? then !unreset else !s.capture[t].Restarting? && unreset ==> Unreset(s)
  {
    var s' := ActCapture(max, s, t, dnsQuery, w, e);
    if s.capture[t].Clearing? {
      assert s'.capture[t] == Restarting;
    } else if !s.capture[t].Restarting? && !Unreset(s) {
      var u :| 0 <= u < |s.capture| && s.capture[u] == Restarting;
      assert s'.capture[u] == Restarting;
    }
  }

  lemma ActSound(v: Verdicts, max: nat, s: System, a: Action)
    requires Sound(max, s)
    ensures Sound(max, Act(v, max, s, a))
  {
    match a
    case Detect(w) =>
      if w < |s.workers| {
        DetectSolo(v, max, s, w);
        WorkSound(v, max, s.flow, Active(s), Unreset(s));
      }
    case Expire(notice) => ExpireSolo(s, notice);
    case Capture(t, dnsQuery, w, e) =>
      if t < |s.capture| {
        CaptureSolo(max, s, t, dnsQuery, w, e);
        CaptureUnreset(max, s, t, dnsQuery, w, e);
        RewrittenSound(max, s.flow, Active(s).pc, s.capture[t], Unreset(s), Unreset(Act(v, max, s, a)));
      }
  }

  lemma {:induction false} RunSound(v: Verdicts, max: nat, s: System, actions: seq<Action>)
    requires Sound(max, s)
    ensures Sound(max, Run(v, max, s, actions))
    decreases |actions|
  {
    if actions != [] {
      ActSound(v, max, s, actions[0]);
      RunSound(v, max, Act(v, max, s, actions[0]), actions[1..]);
    }
  }

  /** No detection thread has an entry of the flow in hands. */
  predicate AllIdle(s: System) {
    forall worker :: worker in s.workers ==> worker.pc.Idle?
  }

  lemma ActiveIdle(s: System)
    requires Solo(s)
    ensures AllIdle(s) <==> Active(s).pc.Idle?
  {
    forall worker | Active(s).pc.Idle? && worker in s.workers
      ensures worker.pc.Idle?
    {
      var w :| 0 <= w < |s.workers| && s.workers[w] == worker;
    }
  }

  /**
   * For every limit and in every interleaving, with resets and expiry at any moment, of one capture thread with any
   * number of detection threads or of any number of capture threads with one: the counter stays within the limit;
   * and between entries, unless a reset is halfway, counter, completion and nDPI state agree.
   */
  lemma RunInvariant(v: Verdicts, max: nat, threads: nat, workers: nat, actions: seq<Action>)
    requires Single(threads, workers)
    ensures var s := Run(v, max, Start(threads, workers), actions);
            && (max > 0 ==> s.flow.count <= max)
            && (AllIdle(s) && Unreset(s) ==> Inv(max, s.flow))
  {
    StartSolo(threads, workers);
    RunSound(v, max, Start(threads, workers), actions);
    ActiveIdle(Run(v, max, Start(threads, workers), actions));
  }

  /** A step of a detection thread uses a missing nDPI state exactly when it concludes an entry without one. */
  lemma StepFaults(v: Verdicts, max: nat, s: System, w: nat)
    requires w < |s.workers| && !s.flow.fault
    ensures var pc := s.workers[w].pc;
            && (ActDetect(v, max, s, w).flow.fault
                <==> !s.flow.ndpi && (pc.Finishing? || (pc.Completing? && !s.flow.complete)))
            && (ActDetect(v, max, s, w).flow.fault && Sound(max, s) ==> !pc.e.hasPacket)
  {
    if !s.workers[w].pc.Idle? {
      PcFaults(v, max, s.flow, s.workers[w].pc);
    }
  }

  /* ---- what only a reset takes back ---- */

  predicate NoReset(actions: seq<Action>) {
    forall a :: a in actions && a.Capture? ==> !a.dnsQuery
  }

  predicate Resets(c: Capturer) {
    c.Resetting? || c.Clearing? || c.Restarting?
  }

  /** No thread is about to reset the flow. */
  predicate NoneResets(s: System) {
    forall t :: 0 <= t < |s.capture| ==> !Resets(s.capture[t])
  }

  ghost predicate Lasts(s: FlowState, s': FlowState) {
    (s.complete ==> s'.complete) && (Phased(s) ==> Phased(s'))
  }

  lemma WorkLasts(v: Verdicts, max: nat, s: FlowState, worker: Worker)
    ensures Lasts(s, Work(v, max, s, worker).0)
  {
    if !worker.pc.Idle? {
      PcLasts(v, max, s, worker.pc);
    }
  }

  /** What the main thread changes of the flow. */
  lemma MarkedKeeps(s: FlowState, expirer: Expirer)
    ensures var s' := Marked(s, expirer); s' == s.(expiring := s'.expiring, expired := s'.expired)
  {
  }

  lemma CaptureReads(max: nat, s: System, t: nat, w: nat, e: Entry)
    requires NoneResets(s) && t < |s.capture|
    ensures var s' := ActCapture(max, s, t, false, w, e); s'.flow == s.flow && NoneResets(s')
  {
    assert !Resets(s.capture[t]);
    assert !Resets(Proceeds(max, s, s.capture[t], false, w));
  }

  lemma ActLasts(v: Verdicts, max: nat, s: System, a: Action)
    requires NoneResets(s) && (a.Capture? ==> !a.dnsQuery)
    ensures var s' := Act(v, max, s, a); NoneResets(s') && Lasts(s.flow, s'.flow)
  {
    match a
    case Detect(w) =>
      if w < |s.workers| {
        WorkLasts(v, max, s.flow, s.workers[w]);
      }
    case Expire(_) => MarkedKeeps(s.flow, s.expirer);
    case Capture(t, dnsQuery, w, e) =>
      if t < |s.capture| {
        CaptureReads(max, s, t, w, e);
      }
  }

  lemma {:induction false} RunLasts(v: Verdicts, max: nat, s: System, actions: seq<Action>)
    requires NoneResets(s) && NoReset(actions)
    ensures var s' := Run(v, max, s, actions); NoneResets(s') && Lasts(s.flow, s'.flow)
    decreases |actions|
  {
    if actions != [] {
      assert actions[0] in actions;
      ActLasts(v, max, s, actions[0]);
      RunLasts(v, max, Act(v, max, s, actions[0]), actions[1..]);
    }
  }

  /**
   * Without resets, in every interleaving, a complete flow stays complete, and with one detection thread per flow
   * nothing else follows DPI_COMPLETE. (Of two, one could complete the flow while the other chooses its event.)
   */
  lemma CompletionStays(v: Verdicts, max: nat, threads: nat, workers: nat, before: seq<Action>, after: seq<Action>)
    requires NoReset(before + after)
    ensures var s := Run(v, max, Start(threads, workers), before);
            && (Single(threads, workers) ==> Phased(s.flow))
            && (s.flow.complete ==> Run(v, max, s, after).flow.complete)
  {
    forall a | a in before || a in after
      ensures a in before + after
    {
    }
    RunLasts(v, max, Start(threads, workers), before);
    RunLasts(v, max, Run(v, max, Start(threads, workers), before), after);
  }

  /* ---- runs that never use a missing nDPI state ---- */

  /** How many expiry notices are queued. */
  function Notices(queue: seq<Entry>): nat {
    if queue == [] then 0 else (if queue[0].hasPacket then 0 else 1) + Notices(queue[1..])
  }

  lemma {:induction false} NoticesAppend(queue: seq<Entry>, e: Entry)
    ensures Notices(queue + [e]) == Notices(queue) + if e.hasPacket then 0 else 1
  {
    if queue == [] {
      assert queue + [e] == [e];
    } else {
      assert (queue + [e])[1..] == queue[1..] + [e];
      NoticesAppend(queue[1..], e);
    }
  }

  /** The main thread does not expire the flow while a detection thread has an entry of it in hands. */
  predicate Apart(s: System) {
    s.expirer.Away? || AllIdle(s)
  }

  /** Never in the run. */
  predicate ApartRun(v: Verdicts, max: nat, s: System, actions: seq<Action>)
    decreases |actions|
  {
    Apart(s) && (actions != [] ==> ApartRun(v, max, Act(v, max, s, actions[0]), actions[1..]))
  }

  predicate LiveExpiring(s: FlowState) {
    s.expiring && !s.expired && !s.complete
  }

  /** What the main thread knows of a flow that nobody else changes. */
  predicate Known(expirer: Expirer, notices: nat, s: FlowState) {
    match expirer
    case Away => true
    case Alive => !s.expired
    case Incomplete => !s.expired && !s.complete
    case Marking => !s.expired && !s.complete && !s.expiring
    case Noticing => LiveExpiring(s) && notices == 0
    case Ending => notices == 0
  }

  /**
   * At most one notice is queued, and the flow, once the entry in hands is finished, is still expiring or has
   * been concluded off the limit.
   */
  ghost predicate Quiet(max: nat, expirer: Expirer, notices: nat, s: FlowState) {
    && Inv(max, s) && !s.fault && Known(expirer, notices, s) && notices <= 1
    && (s.expiring && !s.expired ==> !s.complete)
    && (notices == 1 ==> LiveExpiring(s) || (s.expired && s.complete && 0 < s.count != max))
  }

  lemma TakeQuiet(v: Verdicts, max: nat, s: FlowState, queue: seq<Entry>)
    requires max != 1 && queue != [] && Quiet(max, Away, Notices(queue), s)
    ensures Quiet(max, Away, Notices(queue[1..]), ProcessEntry(v, max, s, queue[0]))
  {
    EntryKeepsInv(v, max, s, queue[0]);
    EntryFaults(v, max, s, queue[0]);
    EntryExpiry(v, max, s, queue[0]);
    if s.expiring && !s.expired {
      ExpiryConcludes(v, max, s, queue[0]);
    }
  }

  /** The flow with the entry in hands finished. */
  function Later(v: Verdicts, max: nat, s: System): FlowState {
    Settled(v, max, s.flow, Active(s).pc)
  }

  ghost predicate QuietSystem(v: Verdicts, max: nat, s: System) {
    Solo(s) && NoneResets(s) && Quiet(max, s.expirer, Notices(Active(s).queue), Later(v, max, s))
  }

  lemma DetectQuiet(v: Verdicts, max: nat, s: System, w: nat)
    requires max != 1 && w < |s.workers| && QuietSystem(v, max, s)
    requires var s' := ActDetect(v, max, s, w); Apart(s) && Apart(s')
    ensures QuietSystem(v, max, ActDetect(v, max, s, w))
  {
    var s', worker := ActDetect(v, max, s, w), Active(s);
    DetectSolo(v, max, s, w);
    if s' != s {
      ActiveIdle(s);
      ActiveIdle(s');
      if !worker.pc.Idle? {
        SettledStep(v, max, s.flow, worker.pc);
      } else if worker.queue != [] {
        TakeQuiet(v, max, s.flow, worker.queue);
        EntryBySteps(v, max, s.flow, worker.queue[0]);
      }
    }
  }

  lemma ExpireQuiet(v: Verdicts, max: nat, s: System, notice: Entry)
    requires QuietSystem(v, max, s) && Apart(s) && Apart(ActExpire(s, notice))
    ensures QuietSystem(v, max, ActExpire(s, notice))
  {
    ExpireSolo(s, notice);
    ActiveIdle(s);
    ActiveIdle(ActExpire(s, notice));
    NoticesAppend(Active(s).queue, Notice(notice));
  }

  lemma CaptureQuiet(v: Verdicts, max: nat, s: System, t: nat, w: nat, e: Entry)
    requires QuietSystem(v, max, s) && t < |s.capture|
    ensures QuietSystem(v, max, ActCapture(max, s, t, false, w, e))
  {
    CaptureSolo(max, s, t, false, w, e);
    CaptureReads(max, s, t, w, e);
    NoticesAppend(Active(s).queue, e.(hasPacket := true));
  }

  lemma ActQuiet(v: Verdicts, max: nat, s: System, a: Action)
    requires max != 1 && (a.Capture? ==> !a.dnsQuery) && QuietSystem(v, max, s)
    requires Apart(s) && Apart(Act(v, max, s, a))
    ensures QuietSystem(v, max, Act(v, max, s, a))
  {
    match a
    case Detect(w) =>
      if w < |s.workers| {
        DetectQuiet(v, max, s, w);
      }
    case Expire(notice) => ExpireQuiet(v, max, s, notice);
    case Capture(t, dnsQuery, w, e) =>
      if t < |s.capture| {
        CaptureQuiet(v, max, s, t, w, e);
      }
  }

  lemma {:induction false} RunQuiet(v: Verdicts, max: nat, s: System, actions: seq<Action>)
    requires max != 1 && NoReset(actions) && ApartRun(v, max, s, actions) && QuietSystem(v, max, s)
    ensures QuietSystem(v, max, Run(v, max, s, actions))
    decreases |actions|
  {
    if actions != [] {
      assert actions[0] in actions;
      ActQuiet(v, max, s, actions[0]);
      RunQuiet(v, max, Act(v, max, s, actions[0]), actions[1..]);
    }
  }

  /**
   * With any limit but one, without resets, if the main thread never expires the flow during an entry and all
   * entries go to one detection thread, no run uses a missing nDPI state.
   */
  lemma ApartNoFault(v: Verdicts, max: nat, threads: nat, workers: nat, actions: seq<Action>)
    requires max != 1 && Single(threads, workers) && NoReset(actions)
    requires ApartRun(v, max, Start(threads, workers), actions)
    ensures !Run(v, max, Start(threads, workers), actions).flow.fault
  {
    StartSolo(threads, workers);
    assert Settled(v, max, Init(), Idle) == Init();
    RunQuiet(v, max, Start(threads, workers), actions);
    var s := Run(v, max, Start(threads, workers), actions);
    if s.flow.fault {
      FaultLasts(v, max, s.flow, Active(s).pc);
    }
  }

  /* ---- runs without expiry ---- */

  /** Neither queued nor in hands is a notice. */
  ghost predicate PacketsOnly(worker: Worker) {
    && (forall e :: e in worker.queue ==> e.hasPacket)
    && (!worker.pc.Idle? && !worker.pc.Releasing? ==> worker.pc.e.hasPacket)
  }

  ghost predicate Unexpired(max: nat, s: System) {
    Sound(max, s) && s.expirer.Away? && !s.flow.fault && PacketsOnly(Active(s))
  }

  lemma WorkPackets(v: Verdicts, max: nat, s: FlowState, worker: Worker)
    requires PacketsOnly(worker)
    ensures PacketsOnly(Work(v, max, s, worker).1)
  {
  }

  lemma ActUnexpired(v: Verdicts, max: nat, s: System, a: Action)
    requires Unexpired(max, s) && !a.Expire?
    ensures Unexpired(max, Act(v, max, s, a))
  {
    ActSound(v, max, s, a);
    match a
    case Detect(w) =>
      if w < |s.workers| {
        DetectSolo(v, max, s, w);
        WorkPackets(v, max, s.flow, Active(s));
        StepFaults(v, max, s, w);
      }
    case Capture(t, dnsQuery, w, e) =>
      if t < |s.capture| {
        CaptureSolo(max, s, t, dnsQuery, w, e);
      }
  }

  lemma {:induction false} RunUnexpired(v: Verdicts, max: nat, s: System, actions: seq<Action>)
    requires Unexpired(max, s) && (forall a :: a in actions ==> !a.Expire?)
    ensures Unexpired(max, Run(v, max, s, actions))
    decreases |actions|
  {
    if actions != [] {
      assert actions[0] in actions;
      ActUnexpired(v, max, s, actions[0]);
      RunUnexpired(v, max, Act(v, max, s, actions[0]), actions[1..]);
    }
  }

  /** With one detection thread per flow, only expiry can make a run use a missing nDPI state, at any limit. */
  lemma UnexpiredNoFault(v: Verdicts, max: nat, threads: nat, workers: nat, actions: seq<Action>)
    requires Single(threads, workers) && (forall a :: a in actions ==> !a.Expire?)
    ensures !Run(v, max, Start(threads, workers), actions).flow.fault
  {
    StartSolo(threads, workers);
    RunUnexpired(v, max, Start(threads, workers), actions);
  }

  /** The flow is never concluded: neither is a detection thread about to, nor is the flow expiring. */
  ghost predicate Endless(s: System) {
    && s.expirer.Away? && !s.flow.expiring && !s.flow.fault
    && (forall w :: 0 <= w < |s.workers| ==> Rank(s.workers[w].pc) > 5 || Rank(s.workers[w].pc) <= 1)
  }

  lemma WorkEndless(v: Verdicts, max: nat, s: FlowState, worker: Worker)
    requires max > 255 && !s.expiring && !s.fault && (Rank(worker.pc) > 5 || Rank(worker.pc) <= 1)
    ensures var (s', worker') := Work(v, max, s, worker);
            !s'.expiring && !s'.fault && (Rank(worker'.pc) > 5 || Rank(worker'.pc) <= 1)
  {
    match worker.pc
    case First(e) => PacketStep(v, s, e.first);
    case _ =>
  }

  lemma ActEndless(v: Verdicts, max: nat, s: System, a: Action)
    requires max > 255 && Endless(s) && !a.Expire?
    ensures Endless(Act(v, max, s, a))
  {
    if a.Detect? && a.w < |s.workers| {
      WorkEndless(v, max, s.flow, s.workers[a.w]);
    }
  }

  /** Without expiry, and with a limit above all that eight bits count, no run uses a missing nDPI state. */
  lemma {:induction false} RunEndless(v: Verdicts, max: nat, s: System, actions: seq<Action>)
    requires max > 255 && Endless(s) && (forall a :: a in actions ==> !a.Expire?)
    ensures Endless(Run(v, max, s, actions))
    decreases |actions|
  {
    if actions != [] {
      assert actions[0] in actions;
      ActEndless(v, max, s, actions[0]);
      RunEndless(v, max, Act(v, max, s, actions[0]), actions[1..]);
    }
  }
}
