/**
 * The detection state of a flow: flags, packet counter and the life of its nDPI state, over queued
 * entries, expiry and full resets. What nDPI and the soft dissectors answer is arbitrary input.
 */
module Detection {
  import opened Prelude

  /** What a soft dissector says: no match, or a match that may set the protocol to a known one or to unknown. */
  datatype Verdict = NoMatch | Match(known: Option<bool>)

  /** The answers of the soft dissectors for one flow, in the order of the calls. */
  type Verdicts = nat -> Verdict

  /**
   * What one call of nDPI brings: whether a protocol is identified, whether more packets are wanted, and,
   * for an initialised flow, whether its metadata changed and is marked as updated.
   */
  datatype NdpiResult = NdpiResult(identified: bool, extra: bool, update: bool, marked: bool)

  datatype Event = DpiNew | DpiUpdate | DpiComplete

  /** A queued packet, or an expiry notice when there is no packet. A packet may be processed twice. */
  datatype Entry = Entry(hasPacket: bool, first: NdpiResult, second: NdpiResult, guess: bool)

  /** What is known about the flow's protocol, and how often the soft dissectors have been asked. */
  datatype Info = Info(known: bool, guessed: bool, risksChecked: bool, softDissector: bool, calls: nat)

  datatype FlowState = FlowState(
    count: byte,          // stats.detection_packets, eight bits wide
    complete: bool, init: bool, updated: bool, expiring: bool, expired: bool,
    ndpi: bool,           // the nDPI flow state is allocated
    fault: bool,          // a missing nDPI state has been used
    events: seq<Event>,   // what has been broadcast for this flow
    info: Info)

  function Init(): FlowState {
    FlowState(0, false, false, false, false, false, false, false, [], Info(false, false, false, false, 0))
  }

  /* ---- the detection thread's steps ---- */

  /** Any use of the nDPI state. */
  function Use(s: FlowState): FlowState {
    s.(fault := s.fault || !s.ndpi)
  }

  /** The first part of `FlowUpdate`: categories are looked up and the soft dissectors asked. */
  function Ask(v: Verdicts, s: FlowState): FlowState {
    var info := s.info.(calls := s.info.calls + 1);
    Use(s).(info := match v(s.info.calls)
                    case NoMatch => info
                    case Match(known) =>
                      info.(softDissector := true, known := if known.Some? then known.value else info.known))
  }

  function Broadcast(s: FlowState): FlowState {
    s.(events := s.events + [if s.complete then DpiComplete else if s.updated then DpiUpdate else DpiNew])
  }

  function FlowUpdate(v: Verdicts, s: FlowState): FlowState
    decreases if s.complete then 0 else 1, 1
  {
    var asked := Ask(v, s);
    Broadcast(if v(s.info.calls).Match? then SetDetectionComplete(v, asked) else asked)
  }

  /** The first part of a completion that takes effect. */
  function Complete(s: FlowState): FlowState {
    var s1 := s.(complete := true);
    if s.info.risksChecked then s1 else Use(s1).(info := s.info.(risksChecked := true))
  }

  function SetDetectionComplete(v: Verdicts, s: FlowState): FlowState
    decreases if s.complete then 0 else 1, 0
  {
    if s.complete then s else FlowUpdate(v, Complete(s))
  }

  function ProcessFlow(s: FlowState): FlowState {
    Use(s).(init := true)
  }

  /** nDPI has seen the packet. */
  function Inspected(s: FlowState, r: NdpiResult): FlowState {
    s.(ndpi := true, info := s.info.(known := s.info.known || r.identified))
  }

  predicate Starts(s: FlowState) {
    !s.init && s.info.known
  }

  /** The flow is initialised, or its metadata refined. */
  function Refined(s: FlowState, r: NdpiResult): FlowState {
    if Starts(s) then ProcessFlow(s) else if s.init then s.(updated := r.marked) else s
  }

  function ProcessPacket(v: Verdicts, s: FlowState, r: NdpiResult): FlowState {
    var seen := Inspected(s, r);
    var refined := Refined(seen, r);
    var told := if Starts(seen) || (seen.init && r.update) then FlowUpdate(v, refined) else refined;
    if told.init && !r.extra then SetDetectionComplete(v, told) else told
  }

  function Guess(s: FlowState, guess: bool): FlowState {
    if s.info.known then s else s.(info := s.info.(known := guess, guessed := true))
  }

  predicate Counts(max: nat, s: FlowState) {
    s.count == 0 || (!s.complete && !s.expiring && s.count < max)
  }

  /** The first half of an entry: one more detection packet. */
  function Counted(v: Verdicts, max: nat, s: FlowState, e: Entry): FlowState {
    if Counts(max, s) then ProcessPacket(v, s.(count := (s.count + 1) % 256), e.first) else s
  }

  /** The last packet, or the expiry. */
  function Conclude(v: Verdicts, s: FlowState, e: Entry): FlowState {
    var s1 := if e.hasPacket then ProcessPacket(v, s, e.second) else s;
    Expired(SetDetectionComplete(v, Guess(ProcessFlow(s1), e.guess)))
  }

  function Expired(s: FlowState): FlowState {
    if s.expiring then s.(expired := true, expiring := false) else s
  }

  function Released(s: FlowState): FlowState {
    if s.complete then s.(ndpi := false) else s
  }

  /** One entry of the queue, with the limit on detection packets. */
  function ProcessEntry(v: Verdicts, max: nat, s: FlowState, e: Entry): FlowState {
    var s1 := Counted(v, max, s, e);
    Released(if s1.count == max || (s1.expiring && !s1.expired) then Conclude(v, s1, e) else s1)
  }

  function FullReset(s: FlowState): FlowState {
    s.(count := 0, complete := false, init := false, updated := false, expired := false, expiring := false,
       info := s.info.(guessed := false, risksChecked := false, softDissector := false))
  }

  /* ---- FlowUpdate and SetDetectionComplete ---- */

  /** Everything that the two do not touch. */
  predicate SameBase(s: FlowState, s': FlowState) {
    && s'.count == s.count && s'.init == s.init && s'.updated == s.updated && s'.ndpi == s.ndpi
    && s'.expiring == s.expiring && s'.expired == s.expired
  }

  /** `s'` comes from `s` by broadcasting `sent`. */
  predicate Sends(s: FlowState, s': FlowState, complete: bool, fault: bool, sent: seq<Event>) {
    && SameBase(s, s') && s'.complete == complete && s'.fault == fault && s'.events == s.events + sent
  }

  lemma UpdateAfterCompletion(v: Verdicts, s: FlowState)
    requires s.complete
    ensures FlowUpdate(v, s) == Broadcast(Ask(v, s))
  {
    assert SetDetectionComplete(v, Ask(v, s)) == Ask(v, s);
  }

  /** A completion that takes effect broadcasts exactly once; one that does not, not at all. */
  lemma CompletesOnce(v: Verdicts, s: FlowState)
    ensures Sends(s, SetDetectionComplete(v, s), true, s.fault || (!s.complete && !s.ndpi),
                  if s.complete then [] else [DpiComplete])
  {
    if !s.complete {
      UpdateAfterCompletion(v, Complete(s));
      CompletionSends(v, s);
    }
  }

  lemma CompletionSends(v: Verdicts, s: FlowState)
    requires !s.complete
    ensures Sends(s, Broadcast(Ask(v, Complete(s))), true, s.fault || !s.ndpi, [DpiComplete])
  {
    var told := Complete(s);
    var asked := Ask(v, told);
    AskKeeps(v, told);
    CompleteKeeps(s);
    BroadcastSends(s, asked);
  }

  lemma CompleteKeeps(s: FlowState)
    ensures Complete(s) == s.(complete := true, info := s.info.(risksChecked := true),
                              fault := s.fault || (!s.info.risksChecked && !s.ndpi))
  {
  }

  lemma BroadcastSends(s: FlowState, asked: FlowState)
    requires SameBase(s, asked) && asked.complete && asked.events == s.events
    ensures Sends(s, Broadcast(asked), true, asked.fault, [DpiComplete])
  {
  }

  /** Asking the soft dissectors changes what is known of the protocol and nothing else. */
  lemma AskKeeps(v: Verdicts, s: FlowState)
    ensures Ask(v, s) == s.(info := Ask(v, s).info, fault := s.fault || !s.ndpi)
  {
  }

  /** After completion an update broadcasts DPI_COMPLETE; a soft match that completes the flow makes it two. */
  lemma UpdateBroadcasts(v: Verdicts, s: FlowState)
    ensures Sends(s, FlowUpdate(v, s), s.complete || v(s.info.calls).Match?, s.fault || !s.ndpi,
                  if s.complete then [DpiComplete]
                  else if v(s.info.calls).Match? then [DpiComplete, DpiComplete]
                  else if s.updated then [DpiUpdate] else [DpiNew])
  {
    CompletesOnce(v, Ask(v, s));
    assert (s.events + [DpiComplete]) + [DpiComplete] == s.events + [DpiComplete, DpiComplete];
    assert s.events + [] == s.events;
  }

  /* ---- one packet ---- */

  /** No other event after the first DPI_COMPLETE, which is there exactly when the flow is complete. */
  ghost predicate Phased(s: FlowState) {
    && (forall i, j :: 0 <= i < j < |s.events| && s.events[i] == DpiComplete ==> s.events[j] == DpiComplete)
    && (s.complete <==> DpiComplete in s.events)
  }

  /** Either nothing but DPI_COMPLETE is sent, by a flow that ends complete, or one other event by one that is not. */
  lemma SendsPhased(s: FlowState, s': FlowState, complete: bool, fault: bool, sent: seq<Event>)
    requires Phased(s) && Sends(s, s', complete, fault, sent) && (s.complete ==> complete)
    requires if complete then (forall e :: e in sent ==> e == DpiComplete) && (!s.complete ==> sent != [])
             else DpiComplete !in sent
    ensures Phased(s')
  {
    var n, es := |s.events|, s'.events;
    forall i, j | 0 <= i < j < |es| && es[i] == DpiComplete
      ensures es[j] == DpiComplete
    {
      if i < n {
        assert s.events[i] in s.events;
      } else {
        assert es[i] == sent[i - n] && sent[i - n] in sent;
      }
      if j >= n {
        assert es[j] == sent[j - n] && sent[j - n] in sent;
      }
    }
    assert DpiComplete in es <==> DpiComplete in s.events || DpiComplete in sent;
    assert complete && !s.complete ==> sent[0] in sent;
  }

  /** What no packet changes, and what it keeps. */
  ghost predicate Steady(s: FlowState, s': FlowState) {
    && s'.fault == s.fault && s'.count == s.count && s'.expiring == s.expiring && s'.expired == s.expired
    && (s.complete ==> s'.complete) && (Phased(s) ==> Phased(s'))
  }

  lemma UpdateSteady(v: Verdicts, s: FlowState)
    requires s.ndpi
    ensures FlowUpdate(v, s).ndpi && Steady(s, FlowUpdate(v, s))
    ensures SetDetectionComplete(v, s).ndpi && Steady(s, SetDetectionComplete(v, s))
  {
    UpdateBroadcasts(v, s);
    CompletesOnce(v, s);
    if Phased(s) {
      var sent := if s.complete then [DpiComplete]
                  else if v(s.info.calls).Match? then [DpiComplete, DpiComplete]
                  else if s.updated then [DpiUpdate] else [DpiNew];
      SendsPhased(s, FlowUpdate(v, s), s.complete || v(s.info.calls).Match?, s.fault, sent);
      SendsPhased(s, SetDetectionComplete(v, s), true, s.fault, if s.complete then [] else [DpiComplete]);
    }
  }

  lemma RefinedSteady(s: FlowState, r: NdpiResult)
    ensures var s' := Refined(Inspected(s, r), r); s'.ndpi && Steady(s, s')
  {
  }

  lemma ToldSteady(v: Verdicts, s: FlowState, tell: bool, done: bool)
    requires s.ndpi
    ensures var told := if tell then FlowUpdate(v, s) else s;
            var s' := if done then SetDetectionComplete(v, told) else told;
            s'.ndpi && Steady(s, s')
  {
    UpdateSteady(v, s);
    UpdateSteady(v, if tell then FlowUpdate(v, s) else s);
  }

  lemma PacketStep(v: Verdicts, s: FlowState, r: NdpiResult)
    ensures ProcessPacket(v, s, r).ndpi && Steady(s, ProcessPacket(v, s, r))
  {
    var seen := Inspected(s, r);
    var refined := Refined(seen, r);
    var tell := Starts(seen) || (seen.init && r.update);
    RefinedSteady(s, r);
    ToldSteady(v, refined, tell, (if tell then FlowUpdate(v, refined) else refined).init && !r.extra);
  }

  /** Initialising or refining a flow announces nothing yet. */
  lemma RefinedMeans(s: FlowState, r: NdpiResult)
    ensures var s' := Refined(Inspected(s, r), r);
            && s'.init == (s.init || s.info.known || r.identified)
            && s'.updated == (if s.init then r.marked else s.updated)
            && s'.complete == s.complete && s'.events == s.events && s'.info.calls == s.info.calls
  {
  }

  /**
   * What a packet broadcasts: nothing while the protocol is unknown; when the flow is initialised, or its metadata
   * have changed, the events of an update; and DPI_COMPLETE when nDPI wants no more and the flow was not complete.
   */
  lemma PacketBroadcasts(v: Verdicts, s: FlowState, r: NdpiResult)
    ensures var s', known := ProcessPacket(v, s, r), s.info.known || r.identified;
            var tells := if s.init then r.update else known;
            var matches := tells && v(s.info.calls).Match?;
            var ends := (s.init || known) && !r.extra;
            && s'.init == (s.init || known)
            && s'.updated == (if s.init then r.marked else s.updated)
            && s'.complete == (s.complete || matches || ends)
            && s'.events == s.events
               + (if !tells then [] else if s.complete then [DpiComplete]
                  else if matches then [DpiComplete, DpiComplete]
                  else if s'.updated then [DpiUpdate] else [DpiNew])
               + (if ends && !s.complete && !matches then [DpiComplete] else [])
  {
    var refined := Refined(Inspected(s, r), r);
    RefinedMeans(s, r);
    UpdateBroadcasts(v, refined);
    var tells := if s.init then r.update else s.info.known || r.identified;
    CompletesOnce(v, if tells then FlowUpdate(v, refined) else refined);
  }

  /** What is known of the protocol after a soft dissector has been asked. */
  function Learnt(verdict: Verdict, known: bool): bool {
    if verdict.Match? && verdict.known.Some? then verdict.known.value else known
  }

  lemma AskLearns(v: Verdicts, s: FlowState)
    ensures var info, answer := Ask(v, s).info, v(s.info.calls);
            && info == s.info.(calls := s.info.calls + 1, known := Learnt(answer, s.info.known),
                               softDissector := s.info.softDissector || answer.Match?)
            && Ask(v, s).complete == s.complete
  {
  }

  lemma CompletionLearns(v: Verdicts, s: FlowState)
    requires !s.complete
    ensures SetDetectionComplete(v, s).info == Ask(v, Complete(s)).info
    ensures Complete(s).info == s.info.(risksChecked := true) && Complete(s).complete
  {
    CompleteKeeps(s);
    UpdateAfterCompletion(v, Complete(s));
  }

  /** An update asks the soft dissectors once, and once more if a match completes the flow; the last answer counts. */
  lemma UpdateLearns(v: Verdicts, s: FlowState)
    ensures var info, first, next := FlowUpdate(v, s).info, v(s.info.calls), v(s.info.calls + 1);
            var completes := !s.complete && first.Match?;
            && info.calls == s.info.calls + (if completes then 2 else 1)
            && info.known == (if completes then Learnt(next, Learnt(first, s.info.known))
                              else Learnt(first, s.info.known))
            && info.softDissector == (s.info.softDissector || first.Match? || (completes && next.Match?))
            && info.risksChecked == (s.info.risksChecked || completes) && info.guessed == s.info.guessed
  {
    var asked := Ask(v, s);
    AskLearns(v, s);
    if !v(s.info.calls).Match? {
      assert FlowUpdate(v, s).info == asked.info;
    } else if s.complete {
      UpdateAfterCompletion(v, s);
    } else {
      CompletionLearns(v, asked);
      AskLearns(v, Complete(asked));
      assert FlowUpdate(v, s).info == SetDetectionComplete(v, asked).info;
    }
  }

  /** A conclusion without a packet initialises the flow, guesses an unknown protocol and broadcasts completion once. */
  lemma ConcludeBroadcasts(v: Verdicts, s: FlowState, e: Entry)
    ensures var s' := Conclude(v, s, e);
            if e.hasPacket then s' == Conclude(v, ProcessPacket(v, s, e.second), e.(hasPacket := false))
            else && s'.init && s'.updated == s.updated
                 && s'.events == s.events + (if s.complete then [] else [DpiComplete])
                 && s'.info.guessed == (s.info.guessed || !s.info.known)
                 && (s.complete || v(s.info.calls).NoMatch? ==> s'.info.known == (s.info.known || e.guess))
  {
    if e.hasPacket {
      ConcludePacket(v, s, e);
    } else {
      ConcludeNotice(v, s, e);
    }
  }

  lemma ConcludePacket(v: Verdicts, s: FlowState, e: Entry)
    requires e.hasPacket
    ensures Conclude(v, s, e) == Conclude(v, ProcessPacket(v, s, e.second), e.(hasPacket := false))
  {
  }

  lemma ConcludeNotice(v: Verdicts, s: FlowState, e: Entry)
    requires !e.hasPacket
    ensures var s' := Conclude(v, s, e);
            && s'.init && s'.updated == s.updated
            && s'.events == s.events + (if s.complete then [] else [DpiComplete])
            && s'.info.guessed == (s.info.guessed || !s.info.known)
            && (s.complete || v(s.info.calls).NoMatch? ==> s'.info.known == (s.info.known || e.guess))
  {
    var s2 := Guess(ProcessFlow(s), e.guess);
    GuessedMeans(s, e.guess);
    CompletesOnce(v, s2);
    CompletionKnows(v, s2);
    ExpiredKeeps(SetDetectionComplete(v, s2));
  }

  lemma GuessedMeans(s: FlowState, guess: bool)
    ensures var s' := Guess(ProcessFlow(s), guess);
            && s'.init && s'.updated == s.updated && s'.complete == s.complete && s'.events == s.events
            && s'.info == s.info.(known := s.info.known || guess, guessed := s.info.guessed || !s.info.known)
  {
  }

  lemma CompletionKnows(v: Verdicts, s: FlowState)
    ensures var info := SetDetectionComplete(v, s).info;
            info.guessed == s.info.guessed && (s.complete || v(s.info.calls).NoMatch? ==> info.known == s.info.known)
  {
    if !s.complete {
      CompletionLearns(v, s);
      AskLearns(v, Complete(s));
    }
  }

  lemma ExpiredKeeps(s: FlowState)
    ensures var s' := Expired(s); s' == s.(expired := s'.expired, expiring := s'.expiring)
  {
  }

  lemma FinishStep(v: Verdicts, s: FlowState, guess: bool)
    ensures var s' := SetDetectionComplete(v, Guess(ProcessFlow(s), guess));
            && s'.complete && s'.count == s.count && s'.expiring == s.expiring && s'.expired == s.expired
            && s'.fault == (s.fault || !s.ndpi) && (Phased(s) ==> Phased(s'))
  {
    var s2 := Guess(ProcessFlow(s), guess);
    var s' := SetDetectionComplete(v, s2);
    CompletesOnce(v, s2);
    if Phased(s) {
      SendsPhased(s2, s', true, s'.fault, if s2.complete then [] else [DpiComplete]);
    }
  }

  lemma ConcludeStep(v: Verdicts, s: FlowState, e: Entry)
    ensures var s' := Conclude(v, s, e);
            && s'.complete && s'.count == s.count && !s'.expiring && s'.expired == (s.expired || s.expiring)
            && s'.fault == (s.fault || !(s.ndpi || e.hasPacket))
            && (Phased(s) ==> Phased(s'))
  {
    if e.hasPacket {
      PacketStep(v, s, e.second);
      FinishStep(v, ProcessPacket(v, s, e.second), e.guess);
    } else {
      FinishStep(v, s, e.guess);
    }
  }

  lemma CountedStep(v: Verdicts, max: nat, s: FlowState, e: Entry)
    ensures var s1 := Counted(v, max, s, e);
            if Counts(max, s)
            then s1.ndpi && s1.count == (s.count + 1) % 256 && s1.fault == s.fault && s1.expiring == s.expiring
                 && s1.expired == s.expired && (s.complete ==> s1.complete) && (Phased(s) ==> Phased(s1))
            else s1 == s
  {
    PacketStep(v, s.(count := (s.count + 1) % 256), e.first);
  }

  /* ---- one entry without interruption ---- */

  /** What holds between two entries. */
  ghost predicate Inv(max: nat, s: FlowState) {
    && (0 < s.count == max ==> s.complete)
    && (s.complete ==> !s.ndpi)
    && (s.count > 0 && !s.complete ==> s.ndpi)
  }

  /** An entry keeps the invariant and any positive limit, and never takes completion back. */
  lemma EntryKeepsInv(v: Verdicts, max: nat, s: FlowState, e: Entry)
    requires Inv(max, s)
    ensures var s' := ProcessEntry(v, max, s, e);
            && Inv(max, s') && (0 < max && s.count <= max ==> s'.count <= max) && (max <= 255 ==> s'.count >= 1)
            && (s.complete ==> s'.complete) && (Phased(s) ==> Phased(s'))
  {
    CountedStep(v, max, s, e);
    ConcludeStep(v, Counted(v, max, s, e), e);
  }

  /**
   * The nDPI state is missing when it is used exactly for an expiry notice of a flow that has been completed,
   * and that is concluded again because it stands at the limit or is still expiring.
   */
  lemma EntryFaults(v: Verdicts, max: nat, s: FlowState, e: Entry)
    requires Inv(max, s) && !s.fault
    ensures ProcessEntry(v, max, s, e).fault
            <==> !e.hasPacket && s.complete && 0 < s.count && (s.count == max || (s.expiring && !s.expired))
  {
    CountedStep(v, max, s, e);
    ConcludeStep(v, Counted(v, max, s, e), e);
  }

  /** A flow that is seen expiring ends expired and complete; only its very first packet is still counted. */
  lemma ExpiryConcludes(v: Verdicts, max: nat, s: FlowState, e: Entry)
    requires Inv(max, s) && s.expiring && !s.expired
    ensures var s' := ProcessEntry(v, max, s, e);
            s'.expired && !s'.expiring && s'.complete && !s'.ndpi && s'.count == if s.count == 0 then 1 else s.count
  {
    CountedStep(v, max, s, e);
    ConcludeStep(v, Counted(v, max, s, e), e);
  }

  /** Whether a flow is expiring or expired changes only by such a conclusion. */
  lemma EntryExpiry(v: Verdicts, max: nat, s: FlowState, e: Entry)
    requires Inv(max, s)
    ensures var s' := ProcessEntry(v, max, s, e);
            && (s.expired ==> s'.expired) && (s'.expiring ==> s.expiring)
            && (s'.expiring && !s'.expired ==> s'.complete ==> s.complete)
            && (s.complete && 0 < s.count != max && !(s.expiring && !s.expired) ==>
                  s'.count == s.count && s'.expired == s.expired)
  {
    CountedStep(v, max, s, e);
    ConcludeStep(v, Counted(v, max, s, e), e);
  }

  /* ---- the steps of an entry ---- */

  /** Where the detection thread stands with an entry of the flow; between two such points it is not interrupted. */
  datatype Pc =
    | Idle
    | Taken(e: Entry)       // before the test whether to count
    | Counting(e: Entry)    // before the increment
    | First(e: Entry)       // before the packet is processed
    | Checking(e: Entry)    // before the test whether to conclude
    | Second(e: Entry)      // before the packet is processed again
    | Finishing(e: Entry)   // before ProcessFlow and SetGuessedProtocol
    | Completing(e: Entry)  // before SetDetectionComplete
    | Flagging(e: Entry)    // before the expiry flags are updated
    | Releasing             // before the test whether to release

  function PcStep(v: Verdicts, max: nat, s: FlowState, pc: Pc): (FlowState, Pc) {
    match pc
    case Idle => (s, Idle)
    case Taken(e) => (s, if Counts(max, s) then Counting(e) else Checking(e))
    case Counting(e) => (s.(count := (s.count + 1) % 256), First(e))
    case First(e) => (ProcessPacket(v, s, e.first), Checking(e))
    case Checking(e) =>
      (s, if s.count != max && (!s.expiring || s.expired) then Releasing
          else if e.hasPacket then Second(e) else Finishing(e))
    case Second(e) => (ProcessPacket(v, s, e.second), Finishing(e))
    case Finishing(e) => (Guess(ProcessFlow(s), e.guess), Completing(e))
    case Completing(e) => (SetDetectionComplete(v, s), Flagging(e))
    case Flagging(e) => (Expired(s), Releasing)
    case Releasing => (Released(s), Idle)
  }

  /** At most this many steps are left. */
  function Rank(pc: Pc): nat {
    match pc
    case Idle => 0
    case Taken(_) => 9
    case Counting(_) => 8
    case First(_) => 7
    case Checking(_) => 6
    case Second(_) => 5
    case Finishing(_) => 4
    case Completing(_) => 3
    case Flagging(_) => 2
    case Releasing => 1
  }

  /** The flow when the detection thread finishes its entry without interruption. */
  function Settled(v: Verdicts, max: nat, s: FlowState, pc: Pc): FlowState
    decreases Rank(pc)
  {
    if pc.Idle? then s else var (s', pc') := PcStep(v, max, s, pc); Settled(v, max, s', pc')
  }

  lemma SettledStep(v: Verdicts, max: nat, s: FlowState, pc: Pc)
    ensures var (s', pc') := PcStep(v, max, s, pc); Settled(v, max, s', pc') == Settled(v, max, s, pc)
  {
  }

  lemma SettledLast(v: Verdicts, max: nat, s: FlowState, e: Entry)
    ensures Settled(v, max, s, Releasing) == Released(s)
    ensures Settled(v, max, s, Completing(e)) == Released(Expired(SetDetectionComplete(v, s)))
  {
    var s1 := SetDetectionComplete(v, s);
    assert Settled(v, max, Expired(s1), Releasing) == Released(Expired(s1));
    assert Settled(v, max, s1, Flagging(e)) == Settled(v, max, Expired(s1), Releasing);
  }

  lemma SettledConclude(v: Verdicts, max: nat, s: FlowState, e: Entry)
    ensures Settled(v, max, s, if e.hasPacket then Second(e) else Finishing(e)) == Released(Conclude(v, s, e))
  {
    var s1 := if e.hasPacket then ProcessPacket(v, s, e.second) else s;
    SettledLast(v, max, Guess(ProcessFlow(s1), e.guess), e);
    assert Settled(v, max, s1, Finishing(e)) == Settled(v, max, Guess(ProcessFlow(s1), e.guess), Completing(e));
    if e.hasPacket {
      SettledStep(v, max, s, Second(e));
    }
  }

  lemma SettledChecking(v: Verdicts, max: nat, s: FlowState, e: Entry)
    ensures Settled(v, max, s, Checking(e))
            == Released(if s.count == max || (s.expiring && !s.expired) then Conclude(v, s, e) else s)
  {
    SettledStep(v, max, s, Checking(e));
    SettledConclude(v, max, s, e);
    SettledLast(v, max, s, e);
  }

  /** The steps add up to the entry. */
  lemma EntryBySteps(v: Verdicts, max: nat, s: FlowState, e: Entry)
    ensures Settled(v, max, s, Taken(e)) == ProcessEntry(v, max, s, e)
  {
    SettledChecking(v, max, Counted(v, max, s, e), e);
    SettledStep(v, max, s, Taken(e));
    if Counts(max, s) {
      var s1 := s.(count := (s.count + 1) % 256);
      SettledStep(v, max, s, Counting(e));
      SettledStep(v, max, s1, First(e));
    }
  }

  lemma PcFaults(v: Verdicts, max: nat, s: FlowState, pc: Pc)
    ensures PcStep(v, max, s, pc).0.fault
            == (s.fault || (!s.ndpi && (pc.Finishing? || (pc.Completing? && !s.complete))))
  {
    match pc
    case First(e) => PacketStep(v, s, e.first);
    case Second(e) => PacketStep(v, s, e.second);
    case Completing(e) => CompletesOnce(v, s);
    case _ =>
  }

  lemma {:induction false} FaultLasts(v: Verdicts, max: nat, s: FlowState, pc: Pc)
    requires s.fault
    ensures Settled(v, max, s, pc).fault
    decreases Rank(pc)
  {
    if !pc.Idle? {
      PcFaults(v, max, s, pc);
      var (s', pc') := PcStep(v, max, s, pc);
      FaultLasts(v, max, s', pc');
    }
  }

  lemma PcLasts(v: Verdicts, max: nat, s: FlowState, pc: Pc)
    ensures var s' := PcStep(v, max, s, pc).0; (s.complete ==> s'.complete) && (Phased(s) ==> Phased(s'))
  {
    match pc
    case First(e) => PacketPhased(v, s, e.first);
    case Second(e) => PacketPhased(v, s, e.second);
    case Completing(e) => CompletionPhased(v, s);
    case _ => assert PcStep(v, max, s, pc).0.events == s.events && PcStep(v, max, s, pc).0.complete == s.complete;
  }

  lemma PacketPhased(v: Verdicts, s: FlowState, r: NdpiResult)
    ensures var s' := ProcessPacket(v, s, r); (s.complete ==> s'.complete) && (Phased(s) ==> Phased(s'))
  {
    PacketStep(v, s, r);
  }

  lemma CompletionPhased(v: Verdicts, s: FlowState)
    ensures SetDetectionComplete(v, s).complete && (Phased(s) ==> Phased(SetDetectionComplete(v, s)))
  {
    CompletesOnce(v, s);
    if Phased(s) {
      SendsPhased(s, SetDetectionComplete(v, s), true, s.fault || (!s.complete && !s.ndpi),
                  if s.complete then [] else [DpiComplete]);
    }
  }
}
