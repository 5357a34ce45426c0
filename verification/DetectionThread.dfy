/** The detection thread as it works on flow objects, proved against the steps of module Detection. */
module DetectionThread {
  import opened Prelude
  import D = Detection

  class Flow {
    const verdicts: D.Verdicts  // what the soft dissectors will answer for this flow
    var count: byte
    var complete: bool
    var init: bool
    var updated: bool
    var expiring: bool
    var expired: bool
    var ndpi: bool
    var fault: bool
    var events: seq<D.Event>
    var info: D.Info

    function View(): D.FlowState
      reads this
    {
      D.FlowState(count, complete, init, updated, expiring, expired, ndpi, fault, events, info)
    }

    constructor (verdicts: D.Verdicts)
      ensures View() == D.Init() && this.verdicts == verdicts
    {
      this.verdicts := verdicts;
      count, complete, init, updated, expiring, expired := 0, false, false, false, false, false;
      ndpi, fault, events := false, false, [];
      info := D.Info(false, false, false, false, 0);
    }

    /** Every use of the nDPI state. */
    method Use()
      modifies this
      ensures View() == D.Use(old(View()))
    {
      if !ndpi {
        fault := true;
      }
    }

    /** A partial reset clears statistics that are not part of this model. */
    method Reset(full: bool)
      modifies this
      ensures View() == if full then D.FullReset(old(View())) else old(View())
      ensures full ==> count == 0 && !complete && !init && !updated && !expired && !expiring
      ensures full ==> !info.guessed && !info.risksChecked && !info.softDissector
      ensures ndpi == old(ndpi) && events == old(events) && info.known == old(info.known)
    {
      if !full {
        return;
      }
      count := 0;
      complete := false;
      init := false;
      updated := false;
      expired := false;
      expiring := false;
      info := info.(guessed := false, risksChecked := false, softDissector := false);
    }

    method Release()
      modifies this
      ensures View() == old(View()).(ndpi := false)
    {
      if ndpi {
        ndpi := false;
      }
    }
  }

  datatype QueueEntry = QueueEntry(flow: Flow, e: D.Entry)

  /** The entries of one flow, in queue order. */
  function Own(queue: seq<QueueEntry>, flow: Flow): seq<D.Entry> {
    if queue == [] then []
    else
      var before, last := Own(queue[..|queue| - 1], flow), queue[|queue| - 1];
      if last.flow == flow then before + [last.e] else before
  }

  function Fold(v: D.Verdicts, max: nat, s: D.FlowState, entries: seq<D.Entry>): D.FlowState {
    if entries == [] then s
    else D.ProcessEntry(v, max, Fold(v, max, s, entries[..|entries| - 1]), entries[|entries| - 1])
  }

  lemma OwnStep(v: D.Verdicts, max: nat, s: D.FlowState, queue: seq<QueueEntry>, k: nat, flow: Flow)
    requires k < |queue|
    ensures Fold(v, max, s, Own(queue[..k + 1], flow)) ==
            var before := Fold(v, max, s, Own(queue[..k], flow));
            if queue[k].flow == flow then D.ProcessEntry(v, max, before, queue[k].e) else before
  {
    assert queue[..k + 1][..k] == queue[..k];
  }

  class DetectionThread {
    const maxDetectionPkts: nat
    var pktQueue: seq<QueueEntry>

    constructor (maxDetectionPkts: nat)
      ensures pktQueue == [] && this.maxDetectionPkts == maxDetectionPkts
    {
      this.maxDetectionPkts := maxDetectionPkts;
      pktQueue := [];
    }

    /** Whether a soft dissector matches; if so the flow takes over what it says. */
    method SoftDissectorMatch(flow: Flow) returns (matches: bool)
      modifies flow
      ensures matches == old(flow.verdicts(flow.info.calls).Match?)
      ensures flow.View() == D.Ask(flow.verdicts, old(flow.View()))
    {
      flow.Use();
      var verdict := flow.verdicts(flow.info.calls);
      matches := verdict.Match?;
      var asked := flow.info.(calls := flow.info.calls + 1);
      if matches {
        asked := asked.(softDissector := true);
        if verdict.known.Some? {
          asked := asked.(known := verdict.known.value);
        }
      }
      flow.info := asked;
    }

    method BroadcastProcessorEvent(flow: Flow)
      modifies flow
      ensures flow.View() == D.Broadcast(old(flow.View()))
    {
      var event := D.DpiNew;
      if flow.complete {
        event := D.DpiComplete;
      } else if flow.updated {
        event := D.DpiUpdate;
      }
      flow.events := flow.events + [event];
    }

    method FlowUpdate(flow: Flow)
      modifies flow
      ensures flow.View() == D.FlowUpdate(flow.verdicts, old(flow.View()))
      decreases if flow.complete then 0 else 1, 1
    {
      var matches := SoftDissectorMatch(flow);
      if matches {
        SetDetectionComplete(flow);
      }
      BroadcastProcessorEvent(flow);
    }

    method SetDetectionComplete(flow: Flow)
      modifies flow
      ensures flow.View() == D.SetDetectionComplete(flow.verdicts, old(flow.View()))
      decreases if flow.complete then 0 else 1, 0
    {
      if flow.complete {
        return;
      }
      flow.complete := true;
      if !flow.info.risksChecked {
        flow.Use();
        flow.info := flow.info.(risksChecked := true);
      }
      assert flow.View() == D.Complete(old(flow.View()));
      FlowUpdate(flow);
    }

    method ProcessFlow(flow: Flow)
      modifies flow
      ensures flow.View() == D.ProcessFlow(old(flow.View()))
    {
      flow.Use();
      flow.init := true;
    }

    method ProcessPacket(flow: Flow, r: D.NdpiResult)
      modifies flow
      ensures flow.View() == D.ProcessPacket(flow.verdicts, old(flow.View()), r)
    {
      var flowUpdate := false;
      if !flow.ndpi {
        flow.ndpi := true;
      }
      if r.identified {
        flow.info := flow.info.(known := true);
      }
      ghost var seen := flow.View();
      if !flow.init && flow.info.known {
        ProcessFlow(flow);
        flowUpdate := true;
      } else if flow.init {
        flow.updated := r.marked;
        flowUpdate := r.update;
      }
      assert seen == D.Inspected(old(flow.View()), r) && flow.View() == D.Refined(seen, r);
      if flowUpdate {
        FlowUpdate(flow);
      }
      if flow.init && !r.extra {
        SetDetectionComplete(flow);
      }
    }

    method ProcessEntry(flow: Flow, e: D.Entry)
      modifies flow
      ensures flow.View() == D.ProcessEntry(flow.verdicts, maxDetectionPkts, old(flow.View()), e)
    {
      if flow.count == 0 || (!flow.complete && !flow.expiring && flow.count < maxDetectionPkts) {
        flow.count := (flow.count + 1) % 256;
        ProcessPacket(flow, e.first);
      }
      assert flow.View() == D.Counted(flow.verdicts, maxDetectionPkts, old(flow.View()), e);
      if flow.count == maxDetectionPkts || (flow.expiring && !flow.expired) {
        Conclude(flow, e);
      }
      if flow.complete {
        flow.Release();
      }
    }

    method SetGuessedProtocol(flow: Flow, guess: bool)
      modifies flow
      ensures flow.View() == D.Guess(old(flow.View()), guess)
    {
      if !flow.info.known {
        flow.info := flow.info.(known := guess, guessed := true);
      }
    }

    method Conclude(flow: Flow, e: D.Entry)
      modifies flow
      ensures flow.View() == D.Conclude(flow.verdicts, old(flow.View()), e)
    {
      if e.hasPacket {
        ProcessPacket(flow, e.second);
      }
      ghost var s1 := flow.View();
      ProcessFlow(flow);
      SetGuessedProtocol(flow, e.guess);
      SetDetectionComplete(flow);
      ghost var s2 := flow.View();
      assert s2 == D.SetDetectionComplete(flow.verdicts, D.Guess(D.ProcessFlow(s1), e.guess));
      if flow.expiring {
        flow.expired := true;
        flow.expiring := false;
      }
      assert flow.View() == D.Expired(s2);
    }

    /** The queue is drained: every flow goes through its own entries, in order, untouched by those of others. */
    method ProcessPacketQueue()
      modifies this, set q | q in pktQueue :: q.flow
      ensures pktQueue == []
      ensures forall q :: q in old(pktQueue) ==>
                q.flow.View() == Fold(q.flow.verdicts, maxDetectionPkts, old(q.flow.View()), Own(old(pktQueue), q.flow))
    {
      ghost var all := pktQueue;
      ghost var done := 0;
      while pktQueue != []
        invariant done <= |all| && pktQueue == all[done..]
        invariant forall q :: q in all ==>
                    q.flow.View()
                    == Fold(q.flow.verdicts, maxDetectionPkts, old(q.flow.View()), Own(all[..done], q.flow))
        decreases |pktQueue|
      {
        var entry := pktQueue[0];
        pktQueue := pktQueue[1..];
        assert entry == all[done] && entry in all;
        forall q | q in all
          ensures var s := old(q.flow.View());
                  Fold(q.flow.verdicts, maxDetectionPkts, s, Own(all[..done + 1], q.flow)) ==
                  var before := Fold(q.flow.verdicts, maxDetectionPkts, s, Own(all[..done], q.flow));
                  if q.flow == entry.flow
                  then D.ProcessEntry(q.flow.verdicts, maxDetectionPkts, before, entry.e) else before
        {
          OwnStep(q.flow.verdicts, maxDetectionPkts, old(q.flow.View()), all, done, q.flow);
        }
        ProcessEntry(entry.flow, entry.e);
        done := done + 1;
      }
      assert all[..done] == all;
    }
  }
}
