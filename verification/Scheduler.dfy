/** The scheduler object of `scheduler.py`. Every method does to its fields what the functions of
    `Scheduling` say, call by call; the record of the run is kept in ghost fields. */
module Scheduler {
  import opened Wrappers
  import opened Scheduling

  lemma Regroup(a: seq<Event>, b: seq<Event>, c: seq<Event>)
    ensures (a + b) + c == a + (b + c) && a + [] == a && [] + c == c
  {
  }

  class MessageScheduler<C, V> {
    const spec: Spec<C, V>
    var core: Core<C>
    var votes: V
    var messageQueue: seq<QueueItem>
    ghost var outcomes: seq<Outcome<C, V>>
    ghost var received: multiset<Message>

    ghost predicate Valid() { spec.Valid() }

    ghost function State(): State<C, V>
      reads this
    {
      Scheduling.State(core, votes, messageQueue, outcomes, received)
    }

    constructor (spec: Spec<C, V>, core: Core<C>, votes: V)
      requires spec.Valid()
      ensures Valid() && this.spec == spec && Initial(State()) && this.core == core && this.votes == votes
    {
      this.spec, this.core, this.votes := spec, core, votes;
      messageQueue, outcomes, received := [], [], multiset{};
    }

    predicate IsEarlyMessage(item: QueueItem)
      requires spec.Valid()
      reads this
    {
      IsEarly(spec, core, item)
    }

    method EnqueMessage(item: QueueItem)
      modifies this
      ensures State() == Enqueue(old(State()), item)
    {
      messageQueue := messageQueue + [item];
    }

    method DrainQueue() returns (messages: seq<QueueItem>)
      modifies this
      ensures messages == old(messageQueue) && State() == old(State()).(queue := [])
    {
      messages := messageQueue;
      messageQueue := [];
    }

    method ProcessQueue() returns (updated: bool, appliedEvents: seq<Event>)
      requires Valid()
      modifies this
      ensures (State(), updated, appliedEvents) == Scheduling.ProcessQueue(spec, old(State()))
      decreases BlockCount(messageQueue), 2
    {
      appliedEvents, updated := [], false;
      var items := DrainQueue();
      assert items[0..] == items;
      Regroup([], [], ProcessItems(spec, State(), items).2);
      for i := 0 to |items|
        invariant BlockCount(messageQueue) + BlockCount(items[i..]) <= old(BlockCount(messageQueue))
        invariant
          var (last, u, events) := ProcessItems(spec, State(), items[i..]);
          Scheduling.ProcessQueue(spec, old(State())) == (last, updated || u, appliedEvents + events)
      {
        var item := items[i];
        ghost var done, first := appliedEvents, [];
        assert items[i..][1..] == items[i + 1..];
        if IsEarlyMessage(item) {
          EnqueMessage(item);
        } else if item.IsAttestation() {
          var ok := ProcessAttestation(item.message.attestation, false);
          if ok {
            first := [AttestationEvent(item.message.attestation, true)];
            appliedEvents := appliedEvents + [AttestationEvent(item.message.attestation, true)];
          }
        } else {
          var ok, events := ProcessBlock(item.message.block, true);
          if ok {
            updated := true;
            first := events;
            appliedEvents := appliedEvents + events;
            assert BlockEvent(item.message.block, true) in events;
          }
        }
        Regroup(done, first, ProcessItems(spec, State(), items[i + 1..]).2);
      }
      assert appliedEvents + [] == appliedEvents;
    }

    method PurgeQueue() returns (appliedEvents: seq<Event>)
      requires Valid()
      modifies this
      ensures (State(), appliedEvents) == Scheduling.PurgeQueue(spec, old(State()))
      decreases BlockCount(messageQueue), 3
    {
      appliedEvents := [];
      Regroup([], [], Scheduling.PurgeQueue(spec, State()).1);
      while true
        invariant BlockCount(messageQueue) <= old(BlockCount(messageQueue))
        invariant
          var (last, events) := Scheduling.PurgeQueue(spec, State());
          Scheduling.PurgeQueue(spec, old(State())) == (last, appliedEvents + events)
        decreases BlockCount(messageQueue)
      {
        var updated, events := ProcessQueue();
        Regroup(appliedEvents, events, Scheduling.PurgeQueue(spec, State()).1);
        appliedEvents := appliedEvents + events;
        if !updated {
          return;
        }
      }
    }

    /** `None` is the source's assertion that time does not run backwards. */
    method ProcessTick(time: int) returns (appliedEvents: Option<seq<Event>>)
      requires Valid()
      modifies this
      ensures
        match Scheduling.ProcessTick(spec, old(State()), time)
        case None => appliedEvents == None && State() == old(State())
        case Some(r) => appliedEvents == Some(r.1) && State() == r.0
    {
      if time < core.time {
        return None;
      }
      var list := [];
      var tickSlot := (time - core.genesisTime) / spec.secondsPerSlot;
      hide CurrentSlot, NextSlotTime, SameClock, AllEarly;
      Regroup([], [], TickTo(spec, State(), tickSlot).1);
      while CurrentSlot(spec, core) < tickSlot
        invariant
          var (last, events) := TickTo(spec, State(), tickSlot);
          TickTo(spec, old(State()), tickSlot) == (last, list + events)
        decreases tickSlot - CurrentSlot(spec, core)
      {
        var previousTime := NextSlotTime(spec, core);
        SlotAfterTick(spec, core);
        core := OnTick(spec, core, previousTime);
        TimeStays(spec, State());
        SameSlot(spec, Scheduling.PurgeQueue(spec, State()).0.core, core);
        var event := TickEvent(previousTime, CurrentSlot(spec, core) < tickSlot);
        var events := PurgeQueue();
        Regroup(list, [event] + events, TickTo(spec, State(), tickSlot).1);
        Regroup(list, [event], events);
        list := list + [event];
        list := list + events;
      }
      assert list + [] == list;
      appliedEvents := Some(list);
    }

    method ProcessAttestation(attestation: Attestation, isFromBlock: bool) returns (ok: bool)
      requires Valid()
      modifies this
      ensures (State(), ok) == Scheduling.ProcessAttestation(spec, old(State()), attestation, isFromBlock)
    {
      var (accepted, newVotes) := spec.attest(core, votes, attestation, isFromBlock);
      var item := MakeItem(AttestationMessage(attestation), isFromBlock);
      ok := accepted;
      if accepted || !IsEarlyMessage(item) {
        outcomes := outcomes + [Outcome(item.message, core, votes, isFromBlock, accepted)];
      }
      votes := newVotes;
      if !accepted && IsEarlyMessage(item) {
        EnqueMessage(item);
      }
    }

    method ProcessSlashing(slashing: Slashing) returns (ok: bool)
      requires Valid()
      modifies this
      ensures (State(), ok) == Scheduling.ProcessSlashing(spec, old(State()), slashing)
    {
      var (accepted, newVotes) := spec.slash(core, votes, slashing);
      ok, votes := accepted, newVotes;
    }

    method ProcessBlockMessages(block: Block)
      requires Valid()
      modifies this
      ensures State() == Scheduling.ProcessBlockMessages(spec, old(State()), block)
    {
      for i := 0 to |block.attestations|
        invariant ProcessAttestations(spec, old(State()), block.attestations)
               == ProcessAttestations(spec, State(), block.attestations[i..])
      {
        var attestation := block.attestations[i];
        assert block.attestations[i..][1..] == block.attestations[i + 1..];
        received := received + multiset{AttestationMessage(attestation)};
        var _ := ProcessAttestation(attestation, true);
      }
      for i := 0 to |block.slashings|
        invariant ProcessSlashings(spec, ProcessAttestations(spec, old(State()), block.attestations), block.slashings)
               == ProcessSlashings(spec, State(), block.slashings[i..])
      {
        assert block.slashings[i..][1..] == block.slashings[i + 1..];
        var _ := ProcessSlashing(block.slashings[i]);
      }
    }

    method ProcessBlock(block: Block, recovery: bool) returns (valid: bool, appliedEvents: seq<Event>)
      requires Valid()
      modifies this
      ensures (State(), valid, appliedEvents) == Scheduling.ProcessBlock(spec, old(State()), block, recovery)
      decreases BlockCount(messageQueue), 4
    {
      appliedEvents := [];
      var result := OnBlock(spec, core, block);
      if result.Some? {
        outcomes := outcomes + [Outcome(BlockMessage(block), core, votes, false, true)];
        core := result.value;
        valid, appliedEvents := true, [BlockEvent(block, recovery)];
        var events := PurgeQueue();
        appliedEvents := appliedEvents + events;
        ProcessBlockMessages(block);
      } else {
        valid := false;
        var item := MakeItem(BlockMessage(block), false);
        if IsEarlyMessage(item) {
          EnqueMessage(item);
        } else {
          outcomes := outcomes + [Outcome(BlockMessage(block), core, votes, false, false)];
        }
      }
    }
  }
}
