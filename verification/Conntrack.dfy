/**
 * The connection tracker's two indexes: from conntrack ids to digests, and from digests to the flow
 * objects that the tracker owns.
 */
module Conntrack {
  import opened Prelude

  type Id = u32
  type Time = nat

  const FLOW_TTL: nat := 900

  /* ---- states and events ---- */

  /** A flow object; `serial` numbers the allocations. */
  datatype Rec = Rec(serial: nat, id: Id, digest: Digest, updatedAt: Time)

  datatype State = State(
    ids: map<Id, Digest>,
    flows: map<Digest, Rec>,
    freed: multiset<nat>,  // serials of deleted objects
    lost: nat,             // objects overwritten without being deleted
    next: nat,             // objects allocated so far
    stuck: bool)           // an update has thrown, and its mutex is never given back

  /** The digests are those of the attributes that come with the event. */
  datatype Event =
    | New(id: Id, digest: Digest, now: Time)
    | NewFailed                                   // the constructor throws: attributes are missing
    | Update(id: Id, digest: Digest, now: Time)
    | UpdateFailed(id: Id, now: Time)             // the update throws, if it comes to it
    | Destroy(id: Id)
    | Purge(now: Time)
    | Touch(digest: Digest, now: Time)            // UpdateFlow has found the entry

  predicate HasExpired(r: Rec, now: Time) {
    r.updatedAt + FLOW_TTL <= now
  }

  function Expired(flows: map<Digest, Rec>, now: Time): set<Digest> {
    set d: Digest | d in flows && HasExpired(flows[d], now)
  }

  /** The serials of the flows stored under some digests. */
  function Serials(flows: map<Digest, Rec>, ds: set<Digest>): set<nat>
    requires ds <= flows.Keys
  {
    set d: Digest | d in ds :: flows[d].serial
  }

  /** Once the mutex is lost every event waits for ever. */
  function Step(s: State, e: Event): State {
    if s.stuck then s else
    match e
    case NewFailed => s
    case New(id, d, now) =>
      s.(ids := s.ids[id := d],
         freed := if d in s.flows then s.freed + multiset{s.flows[d].serial} else s.freed,
         flows := s.flows[d := Rec(s.next, id, d, now)],
         next := s.next + 1)
    case Update(id, d, now) =>
      if id !in s.ids then s
      else if s.ids[id] !in s.flows then s.(ids := s.ids - {id})
      else
        var was := s.ids[id];
        var r := s.flows[was].(digest := d, updatedAt := now);
        if d == was then s.(flows := s.flows[d := r])
        else
          var without: map<Digest, Rec> := s.flows - {was};
          s.(flows := without[d := r], ids := s.ids[id := d], lost := s.lost + if d in without then 1 else 0)
    case UpdateFailed(id, now) =>
      if id !in s.ids then s
      else if s.ids[id] !in s.flows then s.(ids := s.ids - {id})
      else s.(flows := s.flows[s.ids[id] := s.flows[s.ids[id]].(updatedAt := now)], stuck := true)
    case Destroy(id) =>
      if id !in s.ids then s
      else if s.ids[id] !in s.flows then s.(ids := s.ids - {id})
      else s.(ids := s.ids - {id}, flows := s.flows - {s.ids[id]},
              freed := s.freed + multiset{s.flows[s.ids[id]].serial})
    case Purge(now) =>
      var ds := Expired(s.flows, now);
      s.(ids := s.ids - (set d: Digest | d in ds :: s.flows[d].id), flows := s.flows - ds,
         freed := s.freed + multiset(Serials(s.flows, ds)))
    case Touch(d, now) =>
      if d in s.flows then s.(flows := s.flows[d := s.flows[d].(updatedAt := now)]) else s
  }

  function Run(s: State, events: seq<Event>): State
    decreases |events|
  {
    if events == [] then s else Run(Step(s, events[0]), events[1..])
  }

  function Init(): State {
    State(map[], map[], multiset{}, 0, 0, false)
  }

  /* ---- ownership ---- */

  /** Stored flows are under their own digests, alive and pairwise different. */
  ghost predicate Alive(flows: map<Digest, Rec>, freed: multiset<nat>, next: nat) {
    && (forall d: Digest :: d in flows ==> flows[d].digest == d && flows[d].serial < next && flows[d].serial !in freed)
    && (forall d: Digest, d': Digest :: d in flows && d' in flows && d != d' ==> flows[d].serial != flows[d'].serial)
  }

  /** Besides, no object is freed twice, and none is forgotten: it is stored, freed or lost. */
  ghost predicate Owned(s: State) {
    && Alive(s.flows, s.freed, s.next)
    && (forall n :: s.freed[n] <= 1 && (n in s.freed ==> n < s.next))
    && |s.flows| + |s.freed| + s.lost == s.next
  }

  lemma Removed(flows: map<Digest, Rec>, d: Digest)
    requires d in flows
    ensures |flows - {d}| == |flows| - 1
  {
    assert flows == (flows - {d})[d := flows[d]];
  }

  lemma NewOwned(s: State, id: Id, d: Digest, now: Time)
    requires Owned(s)
    ensures Owned(Step(s, New(id, d, now)))
  {
    if !s.stuck {
      NewAlive(s.flows, s.freed, s.next, id, d, now);
      if d in s.flows {
        Removed(s.flows, d);
        assert s.flows[d := Rec(s.next, id, d, now)] == (s.flows - {d})[d := Rec(s.next, id, d, now)];
      }
    }
  }

  lemma NewAlive(flows: map<Digest, Rec>, freed: multiset<nat>, next: nat, id: Id, d: Digest, now: Time)
    requires Alive(flows, freed, next) && next !in freed
    ensures Alive(flows[d := Rec(next, id, d, now)],
                  if d in flows then freed + multiset{flows[d].serial} else freed, next + 1)
  {
  }

  /** A live object that is in no other place may be stored under its digest, over whatever is there. */
  lemma StoreAlive(flows: map<Digest, Rec>, freed: multiset<nat>, next: nat, r: Rec)
    requires Alive(flows, freed, next) && r.serial < next && r.serial !in freed
    requires forall d: Digest :: d in flows ==> flows[d].serial != r.serial
    ensures Alive(flows[r.digest := r], freed, next)
  {
  }

  lemma UpdateOwned(s: State, id: Id, d: Digest, now: Time)
    requires Owned(s)
    ensures Owned(Step(s, Update(id, d, now)))
  {
    if id in s.ids && s.ids[id] in s.flows {
      var was := s.ids[id];
      var r := s.flows[was].(digest := d, updatedAt := now);
      Removed(s.flows, was);
      StoreAlive(s.flows - {was}, s.freed, s.next, r);
      if d == was {
        assert (s.flows - {was})[d := r] == s.flows[d := r];
      }
    }
  }

  lemma DestroyOwned(s: State, id: Id)
    requires Owned(s)
    ensures Owned(Step(s, Destroy(id)))
  {
    if id in s.ids && s.ids[id] in s.flows {
      Removed(s.flows, s.ids[id]);
    }
  }

  lemma {:induction false} SerialsCount(flows: map<Digest, Rec>, ds: set<Digest>)
    requires ds <= flows.Keys
    requires forall d: Digest, d': Digest ::
               d in flows && d' in flows && d != d' ==> flows[d].serial != flows[d'].serial
    ensures |Serials(flows, ds)| == |ds|
    decreases |ds|
  {
    if ds != {} {
      var d :| d in ds;
      SerialsCount(flows, ds - {d});
      assert Serials(flows, ds) == Serials(flows, ds - {d}) + {flows[d].serial};
    }
  }

  lemma RemovedAll(flows: map<Digest, Rec>, ds: set<Digest>)
    requires ds <= flows.Keys
    ensures |flows - ds| == |flows| - |ds|
  {
    assert (flows - ds).Keys == flows.Keys - ds;
    assert |(flows - ds).Keys| == |flows - ds| && |flows.Keys| == |flows|;
  }

  lemma PurgeOwned(s: State, now: Time)
    requires Owned(s)
    ensures Owned(Step(s, Purge(now)))
  {
    if !s.stuck {
      var ds := Expired(s.flows, now);
      SerialsCount(s.flows, ds);
      RemovedAll(s.flows, ds);
      PurgedAlive(s.flows, s.freed, s.next, ds);
      FreedOnce(s.flows, s.freed, s.next, ds);
    }
  }

  lemma PurgedAlive(flows: map<Digest, Rec>, freed: multiset<nat>, next: nat, ds: set<Digest>)
    requires Alive(flows, freed, next) && ds <= flows.Keys
    ensures Alive(flows - ds, freed + multiset(Serials(flows, ds)), next)
  {
  }

  lemma FreedOnce(flows: map<Digest, Rec>, freed: multiset<nat>, next: nat, ds: set<Digest>)
    requires Alive(flows, freed, next) && ds <= flows.Keys
    requires forall n :: freed[n] <= 1 && (n in freed ==> n < next)
    ensures forall n :: (freed + multiset(Serials(flows, ds)))[n] <= 1
    ensures forall n :: n in freed + multiset(Serials(flows, ds)) ==> n < next
  {
    var gone := Serials(flows, ds);
    forall n
      ensures (freed + multiset(gone))[n] <= 1
    {
      assert n in gone ==> n !in freed;
    }
  }

  lemma FailedOwned(s: State, id: Id, now: Time)
    requires Owned(s)
    ensures Owned(Step(s, UpdateFailed(id, now)))
  {
    if id in s.ids && s.ids[id] in s.flows {
      var d := s.ids[id];
      assert s.flows[d := s.flows[d].(updatedAt := now)].Keys == s.flows.Keys;
    }
  }

  lemma TouchOwned(s: State, d: Digest, now: Time)
    requires Owned(s)
    ensures Owned(Step(s, Touch(d, now)))
  {
    if d in s.flows {
      assert s.flows[d := s.flows[d].(updatedAt := now)].Keys == s.flows.Keys;
    }
  }

  lemma StepOwned(s: State, e: Event)
    requires Owned(s)
    ensures Owned(Step(s, e))
  {
    match e
    case New(id, d, now) => NewOwned(s, id, d, now);
    case NewFailed =>
    case Update(id, d, now) => UpdateOwned(s, id, d, now);
    case UpdateFailed(id, now) => FailedOwned(s, id, now);
    case Destroy(id) => DestroyOwned(s, id);
    case Purge(now) => PurgeOwned(s, now);
    case Touch(d, now) => TouchOwned(s, d, now);
  }

  lemma {:induction false} RunOwned(s: State, events: seq<Event>)
    requires Owned(s)
    ensures Owned(Run(s, events))
    decreases |events|
  {
    if events != [] {
      StepOwned(s, events[0]);
      RunOwned(Step(s, events[0]), events[1..]);
    }
  }

  /** After any events, no stored flow has been freed and none has been freed twice. */
  lemma NeverFreedTwice(events: seq<Event>)
    ensures Owned(Run(Init(), events))
  {
    RunOwned(Init(), events);
  }

  /* ---- the two indexes as one ---- */

  ghost predicate Bijective(s: State) {
    && (forall id: Id :: id in s.ids ==> s.ids[id] in s.flows && s.flows[s.ids[id]].id == id)
    && (forall d: Digest :: d in s.flows ==> s.flows[d].id in s.ids && s.ids[s.flows[d].id] == d)
  }

  /** The event does not bring a digest or an id that belongs to another connection. */
  predicate Fresh(s: State, e: Event) {
    s.stuck ||
    match e
    case New(id, d, _) => if id in s.ids then s.ids[id] == d else d !in s.flows
    case Update(id, d, _) => id in s.ids ==> s.ids[id] == d || d !in s.flows
    case _ => true
  }

  /** From indexes in step, an event keeps them in step exactly when it is fresh. */
  lemma StepBijective(s: State, e: Event)
    requires Bijective(s)
    ensures Bijective(Step(s, e)) <==> Fresh(s, e)
  {
    if !s.stuck {
      StepFresh(s, e);
    }
  }

  lemma StepFresh(s: State, e: Event)
    requires Bijective(s) && !s.stuck
    ensures Bijective(Step(s, e)) <==> Fresh(s, e)
  {
    match e
    case New(id, d, now) => NewBijective(s, id, d, now);
    case Update(id, d, now) => UpdateBijective(s, id, d, now);
    case Purge(now) =>
      var ds := Expired(s.flows, now);
      var gone := set d: Digest | d in ds :: s.flows[d].id;
      assert forall id: Id :: id in s.ids ==> (id in gone <==> s.ids[id] in ds);
    case _ =>
  }

  lemma NewBijective(s: State, id: Id, d: Digest, now: Time)
    requires Bijective(s) && !s.stuck
    ensures Bijective(Step(s, New(id, d, now))) <==> Fresh(s, New(id, d, now))
  {
    var s' := Step(s, New(id, d, now));
    if id in s.ids && s.ids[id] != d {
      assert s'.flows[s.ids[id]].id == id && s'.ids[id] == d;
    } else if id !in s.ids && d in s.flows {
      assert s'.ids[s.flows[d].id] == d && s'.flows[d].id == id;
    }
  }

  lemma UpdateBijective(s: State, id: Id, d: Digest, now: Time)
    requires Bijective(s) && !s.stuck
    ensures Bijective(Step(s, Update(id, d, now))) <==> Fresh(s, Update(id, d, now))
  {
    var s' := Step(s, Update(id, d, now));
    if id in s.ids && d != s.ids[id] && d in s.flows {
      assert s'.ids[s.flows[d].id] == d && s'.flows[d].id == id;
    }
  }

  /** Every event of the run is fresh when it comes. */
  ghost predicate AllFresh(s: State, events: seq<Event>)
    decreases |events|
  {
    events != [] ==> Fresh(s, events[0]) && AllFresh(Step(s, events[0]), events[1..])
  }

  /** With fresh events the two indexes stay one bijection, and no object is lost. */
  lemma {:induction false} RunBijective(s: State, events: seq<Event>)
    requires Bijective(s) && AllFresh(s, events)
    ensures Bijective(Run(s, events)) && Run(s, events).lost == s.lost
    decreases |events|
  {
    if events != [] {
      StepBijective(s, events[0]);
      RunBijective(Step(s, events[0]), events[1..]);
    }
  }

  /** A purge keeps exactly the unexpired flows, and of bijective indexes exactly their ids. */
  lemma PurgeExact(s: State, now: Time)
    requires !s.stuck
    ensures var s' := Step(s, Purge(now));
            && (forall d: Digest :: d in s'.flows <==> d in s.flows && !HasExpired(s.flows[d], now))
            && (forall d: Digest :: d in s'.flows ==> s'.flows[d] == s.flows[d])
            && (Bijective(s) ==> forall id: Id :: id in s'.ids <==> id in s.ids && !HasExpired(s.flows[s.ids[id]], now))
  {
    var ds := Expired(s.flows, now);
    var gone := set d: Digest | d in ds :: s.flows[d].id;
    if Bijective(s) {
      assert forall id: Id :: id in s.ids ==> (id in gone <==> s.ids[id] in ds);
    }
  }

  /* ---- what one event leaves behind ---- */

  /** The connection that an event with an id finds. */
  predicate Hits(s: State, id: Id, d: Digest) {
    id in s.ids && s.ids[id] == d && d in s.flows
  }

  /**
   * The flow stored under a digest after an event: a new one, the one that an update has moved here or refreshed, the
   * one that UpdateFlow has touched, or the one that was there.
   */
  lemma FlowAfter(s: State, e: Event, d: Digest)
    requires !s.stuck && d in Step(s, e).flows
    ensures var r, stays := Step(s, e).flows[d], d in s.flows && Step(s, e).flows[d] == s.flows[d];
            match e
            case New(id, d', now) => if d == d' then r == Rec(s.next, id, d, now) else stays
            case Update(id, d', now) =>
              if d == d' && id in s.ids && s.ids[id] in s.flows
              then r == s.flows[s.ids[id]].(digest := d, updatedAt := now) else stays
            case UpdateFailed(id, now) => if Hits(s, id, d) then r == s.flows[d].(updatedAt := now) else stays
            case Touch(d', now) => if d == d' then d in s.flows && r == s.flows[d].(updatedAt := now) else stays
            case _ => stays
  {
  }

  /** The digests in use after an event. */
  lemma DigestAfter(s: State, e: Event, d: Digest)
    requires !s.stuck
    ensures d in Step(s, e).flows
            <==> match e
                 case New(_, d', _) => d == d' || d in s.flows
                 case Update(id, d', _) =>
                   if id in s.ids && s.ids[id] in s.flows then d == d' || (d in s.flows && d != s.ids[id])
                   else d in s.flows
                 case Destroy(id) => d in s.flows && !Hits(s, id, d)
                 case Purge(now) => d in s.flows && now < s.flows[d].updatedAt + 900
                 case _ => d in s.flows
  {
  }

  /** The digest under an id after an event: the one it brings, none once its connection is gone, or as before. */
  lemma IdAfter(s: State, e: Event, id: Id)
    requires !s.stuck
    ensures var after := if id in Step(s, e).ids then Some(Step(s, e).ids[id]) else None;
            var before := if id in s.ids then Some(s.ids[id]) else None;
            var lives := id in s.ids && s.ids[id] in s.flows;
            match e
            case New(id', d, _) => after == if id == id' then Some(d) else before
            case Update(id', d, _) => after == if id == id' then (if lives then Some(d) else None) else before
            case UpdateFailed(id', _) => after == if id == id' && !lives then None else before
            case Destroy(id') => after == if id == id' then None else before
            case Purge(now) =>
              after == if exists d: Digest :: d in s.flows && s.flows[d].id == id && s.flows[d].updatedAt + 900 <= now
                       then None else before
            case _ => after == before
  {
  }

  /** Only an update that throws at a stored connection loses the mutex; from then on nothing changes any more. */
  lemma StuckAfter(s: State, e: Event)
    ensures Step(s, e).stuck <==> s.stuck || (e.UpdateFailed? && e.id in s.ids && s.ids[e.id] in s.flows)
    ensures s.stuck ==> Step(s, e) == s
  {
  }

  /** Whatever refreshes a flow keeps it through every purge of the next 900 seconds, and no longer. */
  lemma Survives(s: State, e: Event, d: Digest, now: Time, later: Time)
    requires !s.stuck && (e.New? || e.Update? || e.Touch?) && e.digest == d && e.now == now
    requires d in Step(s, e).flows && (e.Update? ==> e.id in s.ids && s.ids[e.id] in s.flows)
    ensures d in Step(Step(s, e), Purge(later)).flows <==> later < now + 900
  {
    FlowAfter(s, e, d);
    DigestAfter(Step(s, e), Purge(later), d);
  }

  /* ---- the thread's objects ---- */

  class ConntrackFlow {
    const serial: nat
    const id: Id
    var digest: Digest
    var updatedAt: Time

    constructor (serial: nat, id: Id, digest: Digest, now: Time)
      ensures View() == Rec(serial, id, digest, now)
    {
      this.serial, this.id, this.digest, this.updatedAt := serial, id, digest, now;
    }

    function View(): Rec
      reads this
    {
      Rec(serial, id, digest, updatedAt)
    }

    /** The time is set before the attributes are looked at; without them the source throws. */
    method Update(digest: Option<Digest>, now: Time) returns (ok: bool)
      modifies this
      ensures ok == digest.Some?
      ensures View()
              == if ok then old(View()).(digest := digest.value, updatedAt := now) else old(View()).(updatedAt := now)
    {
      this.updatedAt := now;
      ok := digest.Some?;
      if ok {
        this.digest := digest.value;
      }
    }
  }

  class ConntrackThread {
    var ctIdMap: map<Id, Digest>
    var ctFlowMap: map<Digest, ConntrackFlow>
    var objects: nat
    var stuck: bool  // the mutex is held by nobody who could unlock it
    ghost var freed: multiset<nat>
    ghost var lost: nat

    /** Every object is stored under its own digest; so no object is stored twice. */
    ghost predicate Valid()
      reads `ctFlowMap, ctFlowMap.Values
    {
      forall d: Digest :: d in ctFlowMap ==> ctFlowMap[d].digest == d
    }

    ghost function Flows(): map<Digest, Rec>
      reads `ctFlowMap, ctFlowMap.Values
    {
      map d: Digest | d in ctFlowMap :: ctFlowMap[d].View()
    }

    ghost function View(): State
      reads this, ctFlowMap.Values
    {
      State(ctIdMap, Flows(), freed, lost, objects, stuck)
    }

    constructor ()
      ensures Valid() && View() == Init()
    {
      ctIdMap, ctFlowMap, objects, stuck := map[], map[], 0, false;
      freed, lost := multiset{}, 0;
    }

    /** `None` stands for an event whose attributes the constructor rejects. */
    method ProcessNew(id: Id, digest: Option<Digest>, now: Time)
      requires Valid() && !stuck
      modifies this
      ensures Valid()
      ensures View() == Step(old(View()), if digest.Some? then New(id, digest.value, now) else NewFailed)
    {
      if digest.None? {
        return;
      }
      var flow := new ConntrackFlow(objects, id, digest.value, now);
      objects := objects + 1;
      ctIdMap := ctIdMap[id := flow.digest];
      if flow.digest in ctFlowMap {
        freed := freed + multiset{ctFlowMap[flow.digest].serial};
      }
      ctFlowMap := ctFlowMap[flow.digest := flow];
      assert Flows() == old(Flows())[digest.value := flow.View()];
    }

    /** Stores a flow whose digest has changed under the new one. */
    method MoveFlow(id: Id, was: Digest, flow: ConntrackFlow)
      requires was in ctFlowMap
      modifies this`ctIdMap, this`ctFlowMap, this`lost
      ensures ctFlowMap == (old(ctFlowMap) - {was})[flow.digest := flow] && ctIdMap == old(ctIdMap)[id := flow.digest]
      ensures lost == old(lost) + if flow.digest in old(ctFlowMap) - {was} then 1 else 0
    {
      ctFlowMap := ctFlowMap - {was};
      lost := lost + if flow.digest in ctFlowMap then 1 else 0;
      ctFlowMap := ctFlowMap[flow.digest := flow];
      ctIdMap := ctIdMap[id := flow.digest];
    }

    /** `None` stands for an event whose attributes the update rejects: it throws with the mutex locked. */
    method ProcessUpdate(id: Id, digest: Option<Digest>, now: Time)
      requires Valid() && !stuck
      modifies this, ctFlowMap.Values
      ensures Valid()
      ensures View() == Step(old(View()), if digest.Some? then Update(id, digest.value, now) else UpdateFailed(id, now))
    {
      if id !in ctIdMap {
        return;
      }
      var was := ctIdMap[id];
      if was !in ctFlowMap {
        ctIdMap := ctIdMap - {id};
        return;
      }
      UpdateStored(id, was, digest, now);
    }

    method UpdateStored(id: Id, was: Digest, digest: Option<Digest>, now: Time)
      requires Valid() && was in ctFlowMap
      modifies this`ctIdMap, this`ctFlowMap, this`lost, this`stuck, ctFlowMap.Values
      ensures Valid() && stuck == (old(stuck) || digest.None?)
      ensures var r := old(Flows())[was].(updatedAt := now);
              if digest.None? || digest.value == was
              then Flows() == old(Flows())[was := r] && ctIdMap == old(ctIdMap) && lost == old(lost)
              else && Flows() == (old(Flows()) - {was})[digest.value := r.(digest := digest.value)]
                   && ctIdMap == old(ctIdMap)[id := digest.value]
                   && lost == old(lost) + if digest.value in old(Flows()) - {was} then 1 else 0
    {
      var flow := ctFlowMap[was];
      var ok := flow.Update(digest, now);
      if !ok {
        stuck := true;
        assert Flows() == old(Flows())[was := flow.View()];
        return;
      }
      if flow.digest != was {
        MoveFlow(id, was, flow);
        assert Flows() == (old(Flows()) - {was})[flow.digest := flow.View()];
      } else {
        assert Flows() == old(Flows())[was := flow.View()];
      }
    }

    /** Deletes a flow and erases it from one index, and an id from the other. */
    method EraseFlow(id: Id, digest: Digest)
      requires Valid() && digest in ctFlowMap
      modifies this`ctIdMap, this`ctFlowMap, this`freed
      ensures Valid() && ctFlowMap == old(ctFlowMap) - {digest} && ctIdMap == old(ctIdMap) - {id}
      ensures Flows() == old(Flows()) - {digest}
      ensures freed == old(freed) + multiset{old(Flows())[digest].serial}
    {
      ctIdMap := ctIdMap - {id};
      freed := freed + multiset{ctFlowMap[digest].serial};
      ctFlowMap := ctFlowMap - {digest};
    }

    method ProcessDestroy(id: Id)
      requires Valid() && !stuck
      modifies this
      ensures Valid()
      ensures View() == Step(old(View()), Destroy(id))
    {
      if id in ctIdMap {
        var digest := ctIdMap[id];
        if digest in ctFlowMap {
          EraseFlow(id, digest);
        } else {
          ctIdMap := ctIdMap - {id};
        }
      }
    }

    method PurgeFlows(now: Time)
      requires Valid() && !stuck
      modifies this`ctIdMap, this`ctFlowMap, this`freed
      ensures Valid()
      ensures Owned(old(View())) ==> View() == Step(old(View()), Purge(now))
    {
      ghost var s := View();
      PurgeWalk(now);
      PurgeAll(s, now, ctIdMap, Flows(), freed);
    }

    /** The walk over the map of flows erases as it goes, in any order. */
    method PurgeWalk(now: Time)
      requires Valid()
      modifies this`ctIdMap, this`ctFlowMap, this`freed
      ensures Valid()
      ensures Purging(old(View()), now, {}, ctIdMap, Flows(), freed)
    {
      ghost var s := View();
      var todo := ctFlowMap.Keys;
      PurgeNone(s, now);
      while todo != {}
        invariant Valid() && todo <= ctFlowMap.Keys
        invariant Purging(s, now, todo, ctIdMap, Flows(), freed)
        decreases |todo|
      {
        var digest :| digest in todo;
        PurgeFlow(digest, now, s, todo);
        todo := todo - {digest};
      }
    }

    /** One round of the walk. */
    method PurgeFlow(digest: Digest, now: Time, ghost s: State, ghost todo: set<Digest>)
      requires Valid() && digest in todo && todo <= ctFlowMap.Keys
      requires Purging(s, now, todo, ctIdMap, Flows(), freed)
      modifies this`ctIdMap, this`ctFlowMap, this`freed
      ensures Valid() && todo - {digest} <= ctFlowMap.Keys
      ensures Purging(s, now, todo - {digest}, ctIdMap, Flows(), freed)
    {
      var flow := ctFlowMap[digest];
      assert Flows()[digest] == flow.View();
      PurgeOne(s, now, todo, digest, ctIdMap, Flows(), freed);
      if flow.updatedAt + FLOW_TTL <= now {
        EraseFlow(flow.id, digest);
      }
    }
  }

  /** The maps and the freed objects after some flows of `s` have been purged. */
  ghost predicate PurgedBy(s: State, gone: set<Digest>, ids: map<Id, Digest>, flows: map<Digest, Rec>,
                           freed: multiset<nat>)
  {
    && gone <= s.flows.Keys
    && ids == s.ids - (set d: Digest | d in gone :: s.flows[d].id)
    && flows == s.flows - gone
    && (Owned(s) ==> freed == s.freed + multiset(Serials(s.flows, gone)))
  }

  /** The walk in progress: what has been passed is erased exactly when it has expired. */
  ghost predicate Purging(s: State, now: Time, todo: set<Digest>, ids: map<Id, Digest>, flows: map<Digest, Rec>,
                          freed: multiset<nat>)
  {
    PurgedBy(s, Expired(s.flows, now) - todo, ids, flows, freed)
  }

  lemma PurgeNone(s: State, now: Time)
    ensures Purging(s, now, s.flows.Keys, s.ids, s.flows, s.freed)
  {
    assert Expired(s.flows, now) - s.flows.Keys == {};
    assert Serials(s.flows, {}) == {};
  }

  lemma PurgeOne(s: State, now: Time, todo: set<Digest>, d: Digest, ids: map<Id, Digest>, flows: map<Digest, Rec>,
                 freed: multiset<nat>)
    requires Purging(s, now, todo, ids, flows, freed) && d in todo && d in flows
    ensures if HasExpired(flows[d], now)
            then Purging(s, now, todo - {d}, ids - {flows[d].id}, flows - {d}, freed + multiset{flows[d].serial})
            else Purging(s, now, todo - {d}, ids, flows, freed)
  {
    var gone := Expired(s.flows, now) - todo;
    if HasExpired(flows[d], now) {
      PurgeErases(s, gone, d, ids, flows, freed);
      assert gone + {d} == Expired(s.flows, now) - (todo - {d});
    } else {
      assert gone == Expired(s.flows, now) - (todo - {d});
    }
  }

  lemma PurgeErases(s: State, gone: set<Digest>, d: Digest, ids: map<Id, Digest>, flows: map<Digest, Rec>,
                    freed: multiset<nat>)
    requires PurgedBy(s, gone, ids, flows, freed) && d in s.flows && d !in gone
    ensures PurgedBy(s, gone + {d}, ids - {s.flows[d].id}, flows - {d}, freed + multiset{s.flows[d].serial})
  {
    var was, now := set e: Digest | e in gone :: s.flows[e].id, set e: Digest | e in gone + {d} :: s.flows[e].id;
    assert now == was + {s.flows[d].id};
    assert s.ids - now == (s.ids - was) - {s.flows[d].id};
    assert s.flows - (gone + {d}) == (s.flows - gone) - {d};
    if Owned(s) {
      SerialsOne(s.flows, gone, d);
    }
  }

  lemma PurgeAll(s: State, now: Time, ids: map<Id, Digest>, flows: map<Digest, Rec>, freed: multiset<nat>)
    requires Purging(s, now, {}, ids, flows, freed) && !s.stuck
    ensures Owned(s) ==> s.(ids := ids, flows := flows, freed := freed) == Step(s, Purge(now))
  {
    var ds := Expired(s.flows, now);
    assert ds - {} == ds;
    if Owned(s) {
      assert freed == s.freed + multiset(Serials(s.flows, ds));
    }
  }

  lemma SerialsOne(flows: map<Digest, Rec>, gone: set<Digest>, d: Digest)
    requires gone <= flows.Keys && d in flows && d !in gone
    requires forall e: Digest, e': Digest ::
               e in flows && e' in flows && e != e' ==> flows[e].serial != flows[e'].serial
    ensures multiset(Serials(flows, gone + {d})) == multiset(Serials(flows, gone)) + multiset{flows[d].serial}
  {
    assert Serials(flows, gone + {d}) == Serials(flows, gone) + {flows[d].serial};
    assert flows[d].serial !in Serials(flows, gone);
  }
}
