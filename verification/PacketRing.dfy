/**
 * The ring of packet blocks shared with the kernel: the kernel fills the blocks it owns in cyclic
 * order, the capture thread consumes the blocks handed over to it and gives them back.
 */
module PacketRing {
  import opened Prelude

  type Packet = seq<byte>

  const TP_STATUS_KERNEL: u32 := 0

  /** A packet as the kernel has placed it, and the distance to the packet after it. */
  datatype Entry = Entry(nextOffset: nat, packet: Packet)

  /** A block: its descriptor, and what is found at an offset into it. */
  datatype Block = Block(status: u32, firstOffset: nat, packets: nat, entries: map<nat, Entry>)

  /** The bit `TP_STATUS_USER` of the status. */
  predicate UserOwned(b: Block) {
    b.status % 2 == 1
  }

  /** The packets on a chain of offsets, if it stays on entries. */
  function Chain(entries: map<nat, Entry>, at: nat, packets: nat): Option<seq<Packet>>
    decreases packets
  {
    if packets == 0 then Some([])
    else if at !in entries then None
    else
      var rest := Chain(entries, at + entries[at].nextOffset, packets - 1);
      if rest.None? then None else Some([entries[at].packet] + rest.value)
  }

  /** The offsets of the packets: each is as far behind the one before as that one's entry says. */
  lemma {:induction false} ChainMeans(entries: map<nat, Entry>, at: nat, packets: nat) returns (offsets: seq<nat>)
    requires Chain(entries, at, packets).Some?
    ensures var all := Chain(entries, at, packets).value;
            && |offsets| == |all| == packets && (packets > 0 ==> offsets[0] == at)
            && (forall i :: 0 <= i < packets ==> offsets[i] in entries && all[i] == entries[offsets[i]].packet)
            && (forall i :: 0 <= i < packets - 1 ==> offsets[i + 1] == offsets[i] + entries[offsets[i]].nextOffset)
    decreases packets
  {
    offsets := [];
    if packets > 0 {
      var rest := ChainMeans(entries, at + entries[at].nextOffset, packets - 1);
      offsets := [at] + rest;
    }
  }

  /** Only the lowest bit of the status counts. */
  lemma OwnedMeans(b: Block, flags: nat)
    ensures b.status == 2 * flags ==> !UserOwned(b)
    ensures b.status == 2 * flags + 1 ==> UserOwned(b)
  {
  }

  function Contents(b: Block): Option<seq<Packet>> {
    Chain(b.entries, b.firstOffset, b.packets)
  }

  function Flatten(batches: seq<seq<Packet>>): seq<Packet> {
    if batches == [] then [] else Flatten(batches[..|batches| - 1]) + batches[|batches| - 1]
  }

  /* ---- states and events ---- */

  /** The block being consumed, and what remains of its chain. */
  datatype Cursor = Cursor(slot: nat, at: nat, left: nat)

  datatype State = State(
    blocks: seq<Block>,
    head: nat,                  // the block that the kernel fills next
    it: nat,                    // the ring iterator
    busy: Option<Cursor>,
    filled: seq<seq<Packet>>,   // all that the kernel has handed over
    done: nat,                  // blocks given back
    got: seq<Packet>,           // all packets read
    wild: bool)                 // a packet was read where the kernel had placed none

  datatype Event =
    | Fill(block: Block)        // the kernel closes a block
    | Next
    | Copy
    | Release

  function Wrap(n: nat, i: nat): nat {
    if i + 1 == n then 0 else i + 1
  }

  /** The kernel fills its own blocks only, with well laid out packets. */
  predicate CanFill(s: State, block: Block)
    requires s.head < |s.blocks|
  {
    !UserOwned(s.blocks[s.head]) && UserOwned(block) && Contents(block).Some?
  }

  /** An event that is not possible in a state changes nothing. */
  function Step(s: State, e: Event): State
    requires s.head < |s.blocks| && s.it < |s.blocks|
    requires s.busy.Some? ==> s.busy.value.slot < |s.blocks|
  {
    match e
    case Fill(block) =>
      if !CanFill(s, block) then s
      else s.(blocks := s.blocks[s.head := block], head := Wrap(|s.blocks|, s.head),
              filled := s.filled + [Contents(block).value])
    case Next =>
      if s.busy.Some? || !UserOwned(s.blocks[s.it]) then s
      else
        var b := s.blocks[s.it];
        s.(busy := Some(Cursor(s.it, b.firstOffset, b.packets)), it := Wrap(|s.blocks|, s.it))
    case Copy =>
      if s.busy.None? || s.busy.value.left == 0 then s
      else
        var c := s.busy.value;
        var entries := s.blocks[c.slot].entries;
        if c.at !in entries then s.(wild := true)
        else
          s.(busy := Some(Cursor(c.slot, c.at + entries[c.at].nextOffset, c.left - 1)),
             got := s.got + [entries[c.at].packet])
    case Release =>
      if s.busy.None? || s.busy.value.left > 0 then s
      else
        var slot := s.busy.value.slot;
        s.(blocks := s.blocks[slot := s.blocks[slot].(status := TP_STATUS_KERNEL)], busy := None, done := s.done + 1)
  }

  /** The kernel starts with all blocks; so does the thread, at the first one. */
  predicate Initial(s: State) {
    && s.blocks != [] && (forall i :: 0 <= i < |s.blocks| ==> !UserOwned(s.blocks[i]))
    && s.head == s.it == s.done == 0 && s.busy == None && s.filled == [] && s.got == [] && !s.wild
  }

  /* ---- the window of blocks handed over ---- */

  /** How far `i` is from `tail` going round. */
  function Ahead(n: nat, tail: nat, i: nat): nat
    requires tail < n && i < n
  {
    if tail <= i then i - tail else i + n - tail
  }

  /** The oldest block that has not been given back: the one being consumed, or the iterator's. */
  function Tail(s: State): nat {
    if s.busy.Some? then s.busy.value.slot else s.it
  }

  function Pending(s: State): int {
    |s.filled| - s.done
  }

  predicate Shape(s: State) {
    && s.head < |s.blocks| && s.it < |s.blocks| && Tail(s) < |s.blocks|
    && 0 <= Pending(s) <= |s.blocks|
  }

  /** The user's blocks are the cyclic interval of the pending ones. */
  predicate Interval(s: State)
    requires Shape(s)
  {
    forall i :: 0 <= i < |s.blocks| ==> (UserOwned(s.blocks[i]) <==> Ahead(|s.blocks|, Tail(s), i) < Pending(s))
  }

  /** They hold what was filled, oldest first. */
  predicate Intact(s: State)
    requires Shape(s)
  {
    forall i :: 0 <= i < |s.blocks| && Ahead(|s.blocks|, Tail(s), i) < Pending(s) ==>
      Contents(s.blocks[i]) == Some(s.filled[s.done + Ahead(|s.blocks|, Tail(s), i)])
  }

  /** The kernel fills the block after the last of them. */
  predicate HeadFollows(s: State)
    requires Shape(s)
  {
    Ahead(|s.blocks|, Tail(s), s.head) == if Pending(s) == |s.blocks| then 0 else Pending(s)
  }

  /** What has been read are the blocks given back and a part of the block being consumed. */
  predicate Progress(s: State)
    requires Shape(s)
  {
    match s.busy
    case None => s.got == Flatten(s.filled[..s.done])
    case Some(c) =>
      && s.it == Wrap(|s.blocks|, c.slot) && Pending(s) > 0
      && var batch := s.filled[s.done];
         var read := |batch| - c.left;
         && 0 <= read
         && s.got == Flatten(s.filled[..s.done]) + batch[..read]
         && Chain(s.blocks[c.slot].entries, c.at, c.left) == Some(batch[read..])
  }

  predicate Inv(s: State) {
    Shape(s) && Interval(s) && Intact(s) && HeadFollows(s) && Progress(s) && !s.wild
  }

  lemma InitialInv(s: State)
    requires Initial(s)
    ensures Inv(s)
  {
  }

  lemma {:induction false} ChainLength(entries: map<nat, Entry>, at: nat, packets: nat)
    ensures Chain(entries, at, packets).Some? ==> |Chain(entries, at, packets).value| == packets
    decreases packets
  {
    if packets > 0 && at in entries {
      ChainLength(entries, at + entries[at].nextOffset, packets - 1);
    }
  }

  lemma ChainStep(entries: map<nat, Entry>, at: nat, packets: nat, all: seq<Packet>)
    requires packets > 0 && Chain(entries, at, packets) == Some(all)
    ensures |all| == packets && at in entries && all[0] == entries[at].packet
    ensures Chain(entries, at + entries[at].nextOffset, packets - 1) == Some(all[1..])
  {
    ChainLength(entries, at, packets);
    var rest := Chain(entries, at + entries[at].nextOffset, packets - 1);
    assert ([entries[at].packet] + rest.value)[1..] == rest.value;
  }

  /** The kernel's block comes right after the pending ones, which it leaves alone. */
  lemma FillAt(s: State, block: Block, i: nat)
    requires Inv(s) && CanFill(s, block) && i < |s.blocks|
    ensures Pending(s) < |s.blocks| && (i == s.head <==> Ahead(|s.blocks|, Tail(s), i) == Pending(s))
    ensures var s' := Step(s, Fill(block));
            && (UserOwned(s'.blocks[i]) <==> Ahead(|s.blocks|, Tail(s), i) < Pending(s) + 1)
            && (Ahead(|s.blocks|, Tail(s), i) < Pending(s) + 1 ==>
                  Contents(s'.blocks[i]) == Some(s'.filled[s.done + Ahead(|s.blocks|, Tail(s), i)]))
  {
    assert i != s.head ==> Step(s, Fill(block)).blocks[i] == s.blocks[i];
  }

  lemma FillInv(s: State, block: Block)
    requires Inv(s)
    ensures Inv(Step(s, Fill(block)))
  {
    var s' := Step(s, Fill(block));
    if CanFill(s, block) {
      FillAt(s, block, s.head);
      FillProgress(s, block);
      forall i | 0 <= i < |s.blocks|
        ensures UserOwned(s'.blocks[i]) <==> Ahead(|s.blocks|, Tail(s), i) < Pending(s')
        ensures Ahead(|s.blocks|, Tail(s), i) < Pending(s') ==>
                  Contents(s'.blocks[i]) == Some(s'.filled[s.done + Ahead(|s.blocks|, Tail(s), i)])
      {
        FillAt(s, block, i);
      }
    }
  }

  lemma FillProgress(s: State, block: Block)
    requires Inv(s) && CanFill(s, block)
    ensures var s' := Step(s, Fill(block)); Shape(s') && HeadFollows(s') && Progress(s')
  {
    var s' := Step(s, Fill(block));
    FillAt(s, block, s.head);
    assert s'.filled[..s.done] == s.filled[..s.done];
    if s.busy.Some? {
      assert s.busy.value.slot != s.head;
      assert s'.filled[s.done] == s.filled[s.done];
    }
  }

  lemma NextInv(s: State)
    requires Inv(s)
    ensures Inv(Step(s, Next))
  {
    if s.busy.None? && UserOwned(s.blocks[s.it]) {
      var b := s.blocks[s.it];
      ChainLength(b.entries, b.firstOffset, b.packets);
      assert Tail(Step(s, Next)) == Tail(s);
    }
  }

  lemma CopyInv(s: State)
    requires Inv(s)
    ensures Inv(Step(s, Copy))
  {
    if s.busy.Some? && s.busy.value.left > 0 {
      var c, batch := s.busy.value, s.filled[s.done];
      var read := |batch| - c.left;
      ChainStep(s.blocks[c.slot].entries, c.at, c.left, batch[read..]);
      assert batch[read..][1..] == batch[read + 1..];
      assert batch[..read + 1] == batch[..read] + [batch[read]];
    }
  }

  lemma ReleaseInv(s: State)
    requires Inv(s)
    ensures Inv(Step(s, Release))
  {
    if s.busy.Some? && s.busy.value.left == 0 {
      var s' := Step(s, Release);
      assert Progress(s') by {
        assert s.filled[..s.done + 1][..s.done] == s.filled[..s.done];
      }
      assert forall i :: 0 <= i < |s.blocks| && i != Tail(s) ==>
          s'.blocks[i] == s.blocks[i] && Ahead(|s.blocks|, Tail(s'), i) == Ahead(|s.blocks|, Tail(s), i) - 1;
    }
  }

  lemma StepInv(s: State, e: Event)
    requires Inv(s)
    ensures Inv(Step(s, e))
  {
    match e
    case Fill(block) => FillInv(s, block);
    case Next => NextInv(s);
    case Copy => CopyInv(s);
    case Release => ReleaseInv(s);
  }

  ghost function Run(s: State, events: seq<Event>): (s': State)
    requires Inv(s)
    ensures Inv(s')
    decreases |events|
  {
    if events == [] then s
    else
      StepInv(s, events[0]);
      Run(Step(s, events[0]), events[1..])
  }

  /* ---- what holds in every run ---- */

  /** Each filled block is read once and in order: what has been read begins what has been filled. */
  lemma ReadsInOrder(start: State, events: seq<Event>)
    requires Initial(start)
    ensures var s := Run(start, events);
            && s.got <= Flatten(s.filled)
            && Flatten(s.filled[..s.done]) <= s.got
            && (s.busy.None? ==> s.got == Flatten(s.filled[..s.done]))
            && !s.wild
  {
    InitialInv(start);
    var s := Run(start, events);
    if s.busy.Some? {
      var next := s.filled[..s.done + 1];
      assert next[..s.done] == s.filled[..s.done];
      FlattenPrefix(s.filled, s.done + 1);
    } else {
      FlattenPrefix(s.filled, s.done);
    }
  }

  lemma {:induction false} FlattenPrefix(batches: seq<seq<Packet>>, k: nat)
    requires k <= |batches|
    ensures Flatten(batches[..k]) <= Flatten(batches)
    decreases |batches|
  {
    if k == |batches| {
      assert batches[..k] == batches;
    } else {
      var front := batches[..|batches| - 1];
      FlattenPrefix(front, k);
      assert front[..k] == batches[..k];
    }
  }

  /** The user's blocks form a cyclic interval at the iterator; a block being consumed sits just before it. */
  lemma UserInterval(start: State, events: seq<Event>, i: nat)
    requires Initial(start) && i < |start.blocks|
    ensures |Run(start, events).blocks| == |start.blocks|
    ensures var s, n := Run(start, events), |start.blocks|;
            match s.busy
            case None => UserOwned(s.blocks[i]) <==> Ahead(n, s.it, i) < Pending(s)
            case Some(c) => UserOwned(s.blocks[i]) <==> i == c.slot || Ahead(n, s.it, i) < Pending(s) - 1
    ensures var s := Run(start, events); s.busy.Some? ==> s.it == Wrap(|start.blocks|, s.busy.value.slot)
  {
    RunSize(start, events);
  }

  lemma {:induction false} RunSize(s: State, events: seq<Event>)
    requires Inv(s)
    ensures |Run(s, events).blocks| == |s.blocks|
    decreases |events|
  {
    if events != [] {
      StepInv(s, events[0]);
      RunSize(Step(s, events[0]), events[1..]);
    }
  }

  /** An idle thread finds a block exactly when one is pending; the kernel is stopped exactly by a full ring. */
  lemma NothingOverlooked(s: State, block: Block)
    requires Inv(s)
    ensures s.busy.None? ==> (Step(s, Next) != s <==> Pending(s) > 0)
    ensures UserOwned(block) && Contents(block).Some? ==> (Step(s, Fill(block)) == s <==> Pending(s) == |s.blocks|)
  {
    if CanFill(s, block) {
      assert |Step(s, Fill(block)).filled| == |s.filled| + 1;
    }
  }

  /* ---- the consuming loop ---- */

  function Copies(k: nat): (events: seq<Event>)
    ensures |events| == k + 1
  {
    if k == 0 then [Release] else [Copy] + Copies(k - 1)
  }

  /** The loop body: take the next block if there is one, read it to its end, give it back. */
  ghost function Round(s: State): State
    requires Inv(s) && s.busy.None?
  {
    Run(s, [Next] + if UserOwned(s.blocks[s.it]) then Copies(s.blocks[s.it].packets) else [])
  }

  /** The block being consumed is read to its end and given back. */
  function GivenBack(s: State): State
    requires Inv(s) && s.busy.Some?
  {
    var slot := s.busy.value.slot;
    s.(blocks := s.blocks[slot := s.blocks[slot].(status := TP_STATUS_KERNEL)], busy := None, done := s.done + 1,
       got := Flatten(s.filled[..s.done + 1]))
  }

  lemma {:induction false} CopiesFinish(s: State)
    requires Inv(s) && s.busy.Some?
    ensures Run(s, Copies(s.busy.value.left)) == GivenBack(s)
    decreases s.busy.value.left
  {
    var k := s.busy.value.left;
    if k == 0 {
      ReleaseInv(s);
      assert Run(Step(s, Release), []) == Step(s, Release);
    } else {
      CopyInv(s);
      assert Copies(k)[1..] == Copies(k - 1);
      CopiesFinish(Step(s, Copy));
    }
  }

  /** One round consumes the oldest pending block. */
  lemma RoundConsumes(s: State)
    requires Inv(s) && s.busy.None?
    ensures Round(s) ==
            if Pending(s) == 0 then s
            else s.(blocks := s.blocks[s.it := s.blocks[s.it].(status := TP_STATUS_KERNEL)],
                    it := Wrap(|s.blocks|, s.it),
                    done := s.done + 1, got := s.got + s.filled[s.done])
  {
    NextInv(s);
    var s1 := Step(s, Next);
    if Pending(s) > 0 {
      var copies := Copies(s.blocks[s.it].packets);
      assert ([Next] + copies)[1..] == copies;
      CopiesFinish(s1);
      assert s.filled[..s.done + 1][..s.done] == s.filled[..s.done];
    } else {
      assert [Next] + [] == [Next] && [Next][1..] == [];
      assert Run(s1, []) == s1;
    }
  }

  lemma RoundPends(s: State)
    requires Inv(s) && s.busy.None?
    ensures Inv(Round(s)) && Round(s).busy.None? && Round(s).filled == s.filled
    ensures Pending(Round(s)) == if Pending(s) == 0 then 0 else Pending(s) - 1
  {
    RoundConsumes(s);
  }

  ghost function Rounds(s: State, k: nat): State
    requires Inv(s) && s.busy.None?
    decreases k
  {
    RoundPends(s);
    if k == 0 then s else Rounds(Round(s), k - 1)
  }

  predicate KernelOwnsAll(s: State) {
    forall i :: 0 <= i < |s.blocks| ==> !UserOwned(s.blocks[i])
  }

  lemma NothingPending(s: State)
    requires Inv(s) && s.busy.None? && Pending(s) == 0
    ensures s.got == Flatten(s.filled) && KernelOwnsAll(s)
  {
    assert s.filled[..s.done] == s.filled;
  }

  lemma RoundsUnfold(s: State, k: nat)
    requires Inv(s) && s.busy.None? && k > 0
    ensures Inv(Round(s)) && Round(s).busy.None? && Rounds(s, k) == Rounds(Round(s), k - 1)
  {
    RoundPends(s);
  }

  /** When the kernel pauses, as many rounds as there are pending blocks read all that was ever filled. */
  lemma {:induction false} Drained(s: State)
    requires Inv(s) && s.busy.None?
    ensures Rounds(s, Pending(s)).got == Flatten(s.filled) && KernelOwnsAll(Rounds(s, Pending(s)))
    decreases Pending(s)
  {
    if Pending(s) == 0 {
      NothingPending(s);
    } else {
      RoundPends(s);
      RoundsUnfold(s, Pending(s));
      Drained(Round(s));
    }
  }

  /* ---- the ring's objects ---- */

  /** What the filter lets through. */
  function Kept(packets: seq<Packet>, drops: Packet -> bool): seq<Packet> {
    if packets == [] then []
    else
      var last := packets[|packets| - 1];
      Kept(packets[..|packets| - 1], drops) + if drops(last) then [] else [last]
  }

  /** Of each packet all copies are kept or, if the filter drops it, none; the order stays. */
  lemma {:induction false} KeptMeans(packets: seq<Packet>, drops: Packet -> bool, p: Packet)
    ensures multiset(Kept(packets, drops))[p] == if drops(p) then 0 else multiset(packets)[p]
  {
    if packets != [] {
      var front, last := packets[..|packets| - 1], packets[|packets| - 1];
      KeptMeans(front, drops, p);
      assert packets == front + [last];
      assert multiset(packets)[p] == multiset(front)[p] + if p == last then 1 else 0;
      if drops(last) {
        assert Kept(packets, drops) == Kept(front, drops);
      } else {
        assert Kept(packets, drops) == Kept(front, drops) + [last];
      }
    }
  }

  lemma {:induction false} KeptConcat(a: seq<Packet>, b: seq<Packet>, drops: Packet -> bool)
    ensures Kept(a + b, drops) == Kept(a, drops) + Kept(b, drops)
    decreases |b|
  {
    if b == [] {
      assert a + b == a;
    } else {
      var n := |b| - 1;
      assert (a + b)[..|a| + n] == a + b[..n];
      KeptConcat(a, b[..n], drops);
    }
  }

  lemma KeptStep(packets: seq<Packet>, i: nat, drops: Packet -> bool)
    requires i < |packets|
    ensures Kept(packets[..i + 1], drops) == Kept(packets[..i], drops) + if drops(packets[i]) then [] else [packets[i]]
  {
    assert packets[..i + 1][..i] == packets[..i];
  }

  /** Packet `i` is at offset `at`, and the queue has grown by those before it. */
  ghost predicate Reading(entries: map<nat, Entry>, all: seq<Packet>, i: nat, at: nat, queue: seq<Packet>,
                          queue': seq<Packet>, drops: Packet -> bool)
    requires i <= |all|
  {
    Chain(entries, at, |all| - i) == Some(all[i..]) && queue' == queue + Kept(all[..i], drops)
  }

  lemma ReadOne(entries: map<nat, Entry>, all: seq<Packet>, i: nat, at: nat, queue: seq<Packet>, queue': seq<Packet>,
                drops: Packet -> bool)
    requires i < |all| && Reading(entries, all, i, at, queue, queue', drops)
    ensures at in entries
    ensures Reading(entries, all, i + 1, at + entries[at].nextOffset, queue,
                    queue' + (if drops(entries[at].packet) then [] else [entries[at].packet]), drops)
  {
    ChainStep(entries, at, |all| - i, all[i..]);
    assert all[i..][1..] == all[i + 1..];
    KeptStep(all, i, drops);
  }

  class RingBlock {
    var status: u32
    var firstOffset: nat
    var packets: nat
    var entries: map<nat, Entry>

    function View(): Block
      reads this
    {
      Block(status, firstOffset, packets, entries)
    }

    method Release()
      modifies this`status
      ensures View() == old(View()).(status := TP_STATUS_KERNEL)
    {
      status := TP_STATUS_KERNEL;
    }

    /** Reads the packets along the chain; the filter may drop some. */
    method ProcessPackets(drops: Packet -> bool, queue: seq<Packet>) returns (queue': seq<Packet>, filtered: nat)
      requires Contents(View()).Some?
      ensures queue' == queue + Kept(Contents(View()).value, drops)
      ensures filtered + |queue'| == |queue| + packets
    {
      queue', filtered := queue, 0;
      var at: nat := firstOffset;
      ghost var all := Contents(View()).value;
      ChainLength(entries, firstOffset, packets);
      assert all[0..] == all;
      var i := 0;
      while i < packets
        invariant i <= packets == |all| && filtered + |queue'| == |queue| + i
        invariant Reading(entries, all, i, at, queue, queue', drops)
      {
        ReadOne(entries, all, i, at, queue, queue', drops);
        var entry := entries[at];
        if drops(entry.packet) {
          filtered := filtered + 1;
        } else {
          queue' := queue' + [entry.packet];
        }
        at := at + entry.nextOffset;
        i := i + 1;
      }
      assert all[..i] == all;
    }
  }

  class Ring {
    const blocks: seq<RingBlock>
    var itBlock: nat

    /** The objects show the thread's side of a state. */
    ghost predicate Shows(s: State)
      reads this, blocks
    {
      && itBlock == s.it && |blocks| == |s.blocks|
      && (forall i :: 0 <= i < |blocks| ==> blocks[i].View() == s.blocks[i])
      && (forall i, j :: 0 <= i < j < |blocks| ==> blocks[i] != blocks[j])
    }

    constructor (blocks: seq<RingBlock>, ghost s: State)
      requires Initial(s) && |blocks| == |s.blocks|
      requires forall i :: 0 <= i < |blocks| ==> blocks[i].View() == s.blocks[i]
      requires forall i, j :: 0 <= i < j < |blocks| ==> blocks[i] != blocks[j]
      ensures Shows(s)
    {
      this.blocks, itBlock := blocks, 0;
    }

    method Next(ghost s: State) returns (block: RingBlock?)
      requires Inv(s) && s.busy.None? && Shows(s)
      modifies this
      ensures block == if Pending(s) > 0 then blocks[old(itBlock)] else null
      ensures Shows(Step(s, Event.Next))
    {
      block := null;
      if blocks[itBlock].View().status % 2 == 1 {
        block := blocks[itBlock];
        itBlock := itBlock + 1;
        if itBlock == |blocks| {
          itBlock := 0;
        }
      }
    }

    /** The body of the thread's loop, up to the packets it then processes. */
    method Consume(drops: Packet -> bool, ghost s: State) returns (queue: seq<Packet>)
      requires Inv(s) && s.busy.None? && Shows(s)
      modifies this, blocks
      ensures Shows(Round(s))
      ensures queue == if Pending(s) > 0 then Kept(s.filled[s.done], drops) else []
    {
      RoundConsumes(s);
      queue := [];
      var entry := Next(s);
      if entry != null {
        var filtered;
        queue, filtered := entry.ProcessPackets(drops, queue);
        entry.Release();
      }
    }
  }
}
