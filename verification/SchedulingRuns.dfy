/** What the operations of the message scheduler do with what they are given: the messages they take in, the votes they
    leave, the slots they tick through, and the log they write. */
module SchedulingRuns {
  import opened Wrappers
  import opened Scheduling

  // ----- The messages taken in -----

  function MessagesOf(list: seq<Attestation>): multiset<Message> {
    if list == [] then multiset{} else multiset{AttestationMessage(list[0])} + MessagesOf(list[1..])
  }

  /** The attestations carried by the blocks that were accepted. */
  function Carried<C, V>(outcomes: seq<Outcome<C, V>>): multiset<Message> {
    if outcomes == [] then multiset{}
    else
      var o := outcomes[|outcomes| - 1];
      Carried(outcomes[..|outcomes| - 1])
        + if o.accepted && o.message.BlockMessage? then MessagesOf(o.message.block.attestations) else multiset{}
  }

  lemma CarriedNext<C, V>(outcomes: seq<Outcome<C, V>>, o: Outcome<C, V>)
    ensures Carried(outcomes + [o]) == Carried(outcomes) +
              if o.accepted && o.message.BlockMessage? then MessagesOf(o.message.block.attestations) else multiset{}
  {
    assert (outcomes + [o])[..|outcomes|] == outcomes;
  }

  /** A step that takes in `given`, and what the blocks carry that it accepts. */
  ghost predicate TakesIn<C, V>(a: State<C, V>, given: multiset<Message>, b: State<C, V>) {
    b.received + Carried(a.outcomes) == a.received + given + Carried(b.outcomes)
  }

  lemma TakesInTrans<C, V>(a: State<C, V>, x: multiset<Message>, b: State<C, V>, y: multiset<Message>, c: State<C, V>)
    requires TakesIn(a, x, b) && TakesIn(b, y, c)
    ensures TakesIn(a, x + y, c)
  {
    hide Carried;
    var ca, cb, cc := Carried(a.outcomes), Carried(b.outcomes), Carried(c.outcomes);
    forall m ensures (c.received + ca)[m] == (a.received + (x + y) + cc)[m] {
      assert (b.received + ca)[m] == (a.received + x + cb)[m] && (c.received + cb)[m] == (b.received + y + cc)[m];
    }
  }

  lemma TakesNothing<C, V>(a: State<C, V>, b: State<C, V>)
    requires a.received == b.received && a.outcomes == b.outcomes
    ensures TakesIn(a, multiset{}, b)
  {
    assert a.received + multiset{} == a.received;
  }

  lemma NothingTwice()
    ensures var none: multiset<Message> := multiset{}; none + none == none
  {
  }

  lemma AttestationTakes<C, V>(spec: Spec<C, V>, st: State<C, V>, a: Attestation, isFromBlock: bool)
    requires spec.Valid()
    ensures TakesIn(st, multiset{}, ProcessAttestation(spec, st, a, isFromBlock).0)
  {
    hide AllEarly, IsEarly, Carried;
    var next := ProcessAttestation(spec, st, a, isFromBlock).0;
    if next.outcomes == st.outcomes {
      TakesNothing(st, next);
    } else {
      CarriedNext(st.outcomes, next.outcomes[|st.outcomes|]);
      assert st.received + multiset{} == st.received;
    }
  }

  lemma {:induction false} AttestationsTake<C, V>(spec: Spec<C, V>, st: State<C, V>, list: seq<Attestation>)
    requires spec.Valid()
    ensures TakesIn(st, MessagesOf(list), ProcessAttestations(spec, st, list))
    decreases |list|
  {
    hide AllEarly, IsEarly, Carried, ProcessAttestation;
    if list == [] {
      TakesNothing(st, st);
    } else {
      var message, held := AttestationMessage(list[0]), Receive(st, AttestationMessage(list[0]));
      var next := ProcessAttestation(spec, held, list[0], true).0;
      AttestationTakes(spec, held, list[0], true);
      TakesInTrans(st, multiset{message}, held, multiset{}, next);
      AttestationsTake(spec, next, list[1..]);
      TakesInTrans(
        st, multiset{message} + multiset{}, next, MessagesOf(list[1..]), ProcessAttestations(spec, st, list));
      assert multiset{message} + multiset{} + MessagesOf(list[1..]) == MessagesOf(list);
    }
  }

  lemma {:induction false} ItemsTake<C, V>(spec: Spec<C, V>, st: State<C, V>, items: seq<QueueItem>)
    requires spec.Valid()
    ensures TakesIn(st, multiset{}, ProcessItems(spec, st, items).0)
    decreases BlockCount(st.queue) + BlockCount(items), 1, |items|
  {
    hide AllEarly, IsEarly, Carried, ProcessAttestation, ProcessBlock, TakesIn;
    if items == [] {
      TakesNothing(st, st);
    } else {
      var head, rest := items[0], items[1..];
      var next := if IsEarly(spec, st.core, head) then Enqueue(st, head)
                  else if head.IsAttestation() then ProcessAttestation(spec, st, head.message.attestation, false).0
                  else ProcessBlock(spec, st, head.message.block, true).0;
      if IsEarly(spec, st.core, head) {
        TakesNothing(st, next);
      } else if head.IsAttestation() {
        AttestationTakes(spec, st, head.message.attestation, false);
      } else {
        BlockTakes(spec, st, head.message.block, true);
      }
      ItemsTake(spec, next, rest);
      TakesInTrans(st, multiset{}, next, multiset{}, ProcessItems(spec, st, items).0);
      NothingTwice();
    }
  }

  lemma {:induction false} PurgeTakes<C, V>(spec: Spec<C, V>, st: State<C, V>)
    requires spec.Valid()
    ensures TakesIn(st, multiset{}, PurgeQueue(spec, st).0)
    decreases BlockCount(st.queue), 3, 0
  {
    hide AllEarly, Carried, ProcessItems, PurgeQueue;
    ItemsTake(spec, st.(queue := []), st.queue);
    OneRoundIsEnough(spec, st);
  }

  lemma {:induction false} BlockTakes<C, V>(spec: Spec<C, V>, st: State<C, V>, block: Block, recovery: bool)
    requires spec.Valid()
    ensures TakesIn(st, multiset{}, ProcessBlock(spec, st, block, recovery).0)
    decreases BlockCount(st.queue), 4, 0
  {
    hide AllEarly, IsEarly, Carried, PurgeQueue, ProcessAttestations;
    var message, core := BlockMessage(block), OnBlock(spec, st.core, block);
    var none: multiset<Message> := multiset{};
    if core.Some? {
      var accepted := Outcome(message, st.core, st.votes, false, true);
      var applied := st.(core := core.value, outcomes := st.outcomes + [accepted]);
      CarriedNext(st.outcomes, accepted);
      PurgeTakes(spec, applied);
      var purged := PurgeQueue(spec, applied).0;
      AttestationsTake(spec, purged, block.attestations);
      var attested := ProcessAttestations(spec, purged, block.attestations);
      TakesInTrans(applied, none, purged, MessagesOf(block.attestations), attested);
      CarriedBlock(st, applied, attested, block);
    } else if IsEarly(spec, st.core, MakeItem(message, false)) {
      TakesNothing(st, ProcessBlock(spec, st, block, recovery).0);
    } else {
      CarriedNext(st.outcomes, Outcome(message, st.core, st.votes, false, false));
      assert st.received + none == st.received;
    }
  }

  /** The outcome of the block accounts for its attestations. */
  lemma CarriedBlock<C, V>(st: State<C, V>, applied: State<C, V>, attested: State<C, V>, block: Block)
    requires applied.received == st.received
    requires Carried(applied.outcomes) == Carried(st.outcomes) + MessagesOf(block.attestations)
    requires TakesIn(applied, multiset{} + MessagesOf(block.attestations), attested)
    ensures attested.received + Carried(st.outcomes) == st.received + multiset{} + Carried(attested.outcomes)
  {
    hide Carried, MessagesOf;
    var own, before, now := MessagesOf(block.attestations), Carried(st.outcomes), Carried(attested.outcomes);
    forall m ensures (attested.received + before)[m] == (st.received + multiset{} + now)[m] {
      assert (attested.received + (before + own))[m] == (st.received + (multiset{} + own) + now)[m];
    }
  }

  lemma {:induction false} TickTakes<C, V>(spec: Spec<C, V>, st: State<C, V>, tickSlot: int)
    requires spec.Valid()
    ensures TakesIn(st, multiset{}, TickTo(spec, st, tickSlot).0)
    decreases tickSlot - CurrentSlot(spec, st.core)
  {
    hide AllEarly, Carried, PurgeQueue, TakesIn;
    if CurrentSlot(spec, st.core) < tickSlot {
      SlotAfterTick(spec, st.core);
      var ticked := st.(core := OnTick(spec, st.core, NextSlotTime(spec, st.core)));
      var purged := PurgeQueue(spec, ticked).0;
      TakesNothing(st, ticked);
      PurgeTakes(spec, ticked);
      TimeStays(spec, ticked);
      TickTakes(spec, purged, tickSlot);
      TakesInTrans(st, multiset{}, ticked, multiset{}, purged);
      TakesInTrans(st, multiset{} + multiset{}, purged, multiset{}, TickTo(spec, st, tickSlot).0);
      NothingTwice();
    } else {
      TakesNothing(st, st);
    }
  }

  function Submitted(ops: seq<Operation>): multiset<Message> {
    if ops == [] then multiset{}
    else (if ops[0].Submit? then multiset{ops[0].message} else multiset{}) + Submitted(ops[1..])
  }

  lemma PerformTakes<C, V>(spec: Spec<C, V>, st: State<C, V>, op: Operation)
    requires spec.Valid()
    ensures TakesIn(st, if op.Submit? then multiset{op.message} else multiset{}, Perform(spec, st, op).0)
  {
    hide AllEarly, Carried, ProcessBlock, ProcessAttestation, TickTo;
    var next, none: multiset<Message> := Perform(spec, st, op).0, multiset{};
    match op
    case Tick(time) =>
      TakesNothing(st, st);
      TickTakes(spec, st, (time - st.core.genesisTime) / spec.secondsPerSlot);
    case Submit(message) =>
      var held := Receive(st, message);
      if message.BlockMessage? {
        BlockTakes(spec, held, message.block, false);
      } else {
        AttestationTakes(spec, held, message.attestation, false);
      }
      TakesInTrans(st, multiset{message}, held, none, next);
      assert multiset{message} + none == multiset{message};
    case SubmitSlashing(_) => TakesNothing(st, next);
  }

  lemma {:induction false} RunTakes<C, V>(spec: Spec<C, V>, st: State<C, V>, ops: seq<Operation>)
    requires spec.Valid()
    ensures TakesIn(st, Submitted(ops), Run(spec, st, ops).0)
    decreases |ops|
  {
    hide Perform, TakesIn;
    if ops == [] {
      TakesNothing(st, st);
    } else {
      var next := Perform(spec, st, ops[0]).0;
      PerformTakes(spec, st, ops[0]);
      RunTakes(spec, next, ops[1..]);
      TakesInTrans(
        st, if ops[0].Submit? then multiset{ops[0].message} else multiset{}, next, Submitted(ops[1..]),
        Run(spec, next, ops[1..]).0);
    }
  }

  /** Nothing is skipped: after any operations the messages received are those that were submitted, and the attestations
      of every block that was accepted, each as often as it occurs. */
  lemma RunReceives<C, V>(spec: Spec<C, V>, st: State<C, V>, ops: seq<Operation>)
    requires spec.Valid() && Initial(st)
    ensures Run(spec, st, ops).0.received == Submitted(ops) + Carried(Run(spec, st, ops).0.outcomes)
  {
    hide Run;
    RunTakes(spec, st, ops);
    var last := Run(spec, st, ops).0;
    assert last.received + multiset{} == last.received;
    assert st.received + Submitted(ops) == Submitted(ops);
  }

  // ----- What a block's own messages do -----

  /** The votes when the first i attestations of a block have been handed over, marked as coming from a block. */
  function VotesAt<C, V>(spec: Spec<C, V>, core: Core<C>, votes: V, list: seq<Attestation>, i: nat): V
    requires i <= |list|
  {
    if i == 0 then votes else spec.attest(core, VotesAt(spec, core, votes, list, i - 1), list[i - 1], true).1
  }

  /** And when the first i slashings have been. */
  function SlashedAt<C, V>(spec: Spec<C, V>, core: Core<C>, votes: V, list: seq<Slashing>, i: nat): V
    requires i <= |list|
  {
    if i == 0 then votes else spec.slash(core, SlashedAt(spec, core, votes, list, i - 1), list[i - 1]).1
  }

  /** What is queued of the first i attestations: the refused ones that are early. */
  function KeptAt<C, V>(spec: Spec<C, V>, core: Core<C>, votes: V, list: seq<Attestation>, i: nat): seq<QueueItem>
    requires spec.Valid() && i <= |list|
  {
    if i == 0 then []
    else
      var item := MakeItem(AttestationMessage(list[i - 1]), true);
      var ok := spec.attest(core, VotesAt(spec, core, votes, list, i - 1), list[i - 1], true).0;
      KeptAt(spec, core, votes, list, i - 1) + if !ok && IsEarly(spec, core, item) then [item] else []
  }

  /** And the outcomes of the others. */
  function GivenAt<C, V>(spec: Spec<C, V>, core: Core<C>, votes: V, list: seq<Attestation>, i: nat)
    : seq<Outcome<C, V>>
    requires spec.Valid() && i <= |list|
  {
    if i == 0 then []
    else
      var message, now := AttestationMessage(list[i - 1]), VotesAt(spec, core, votes, list, i - 1);
      var ok := spec.attest(core, now, list[i - 1], true).0;
      GivenAt(spec, core, votes, list, i - 1)
        + if ok || !IsEarly(spec, core, MakeItem(message, true)) then [Outcome(message, core, now, true, ok)] else []
  }

  /** One attestation: the handler's votes are kept whatever it says; it is queued if it is refused and early, and gets
      its outcome otherwise. */
  lemma AttestationEffect<C, V>(spec: Spec<C, V>, st: State<C, V>, a: Attestation, isFromBlock: bool)
    requires spec.Valid()
    ensures
      var (ok, votes) := spec.attest(st.core, st.votes, a, isFromBlock);
      var message := AttestationMessage(a);
      var kept := !ok && IsEarly(spec, st.core, MakeItem(message, isFromBlock));
      ProcessAttestation(spec, st, a, isFromBlock) ==
        (st.(
          votes := votes,
          queue := st.queue + if kept then [MakeItem(message, isFromBlock)] else [],
          outcomes := st.outcomes + if kept then [] else [Outcome(message, st.core, st.votes, isFromBlock, ok)]),
        ok)
  {
    hide AllEarly, IsEarly, BlockCount;
    assert st.queue + [] == st.queue && st.outcomes + [] == st.outcomes;
  }

  lemma {:induction false} AttestationsEffect<C, V>(
      spec: Spec<C, V>, start: State<C, V>, st: State<C, V>, list: seq<Attestation>, i: nat)
    requires spec.Valid() && i <= |list|
    requires st == start.(
      votes := VotesAt(spec, start.core, start.votes, list, i),
      queue := start.queue + KeptAt(spec, start.core, start.votes, list, i),
      outcomes := start.outcomes + GivenAt(spec, start.core, start.votes, list, i), received := st.received)
    ensures ProcessAttestations(spec, st, list[i..]) == start.(
      votes := VotesAt(spec, start.core, start.votes, list, |list|),
      queue := start.queue + KeptAt(spec, start.core, start.votes, list, |list|),
      outcomes := start.outcomes + GivenAt(spec, start.core, start.votes, list, |list|),
      received := st.received + MessagesOf(list[i..]))
    decreases |list| - i
  {
    hide AllEarly, IsEarly, BlockCount, ProcessAttestation;
    if i < |list| {
      var a := list[i];
      assert list[i..][0] == a && list[i..][1..] == list[i + 1..];
      var held := Receive(st, AttestationMessage(a));
      AttestationEffect(spec, held, a, true);
      var next := ProcessAttestation(spec, held, a, true).0;
      Regroup(start, spec, list, i);
      AttestationsEffect(spec, start, next, list, i + 1);
      assert st.received + multiset{AttestationMessage(a)} + MessagesOf(list[i + 1..])
          == st.received + MessagesOf(list[i..]);
    } else {
      assert st.received + multiset{} == st.received;
    }
  }

  lemma Regroup<C, V>(start: State<C, V>, spec: Spec<C, V>, list: seq<Attestation>, i: nat)
    requires spec.Valid() && i < |list|
    ensures
      var kept := KeptAt(spec, start.core, start.votes, list, i);
      forall x: seq<QueueItem> :: start.queue + (kept + x) == start.queue + kept + x
    ensures
      var given := GivenAt(spec, start.core, start.votes, list, i);
      forall x: seq<Outcome<C, V>> :: start.outcomes + (given + x) == start.outcomes + given + x
  {
  }

  lemma {:induction false} SlashingsEffect<C, V>(
      spec: Spec<C, V>, st: State<C, V>, votes: V, list: seq<Slashing>, i: nat)
    requires i <= |list| && st.votes == SlashedAt(spec, st.core, votes, list, i)
    ensures ProcessSlashings(spec, st, list[i..]) == st.(votes := SlashedAt(spec, st.core, votes, list, |list|))
    decreases |list| - i
  {
    if i < |list| {
      assert list[i..][0] == list[i] && list[i..][1..] == list[i + 1..];
      SlashingsEffect(spec, ProcessSlashing(spec, st, list[i]).0, votes, list, i + 1);
    }
  }

  /** The whole effect of an accepted block: the store of the handler, then the purge, then its attestations in order,
      marked as coming from a block, each on the votes that the one before leaves, and last its slashings. */
  lemma AcceptedBlock<C, V>(spec: Spec<C, V>, st: State<C, V>, block: Block, recovery: bool)
    requires spec.Valid() && OnBlock(spec, st.core, block).Some?
    ensures
      var core := OnBlock(spec, st.core, block).value;
      var accepted := Outcome(BlockMessage(block), st.core, st.votes, false, true);
      var (purged, events) := PurgeQueue(spec, st.(core := core, outcomes := st.outcomes + [accepted]));
      var list := block.attestations;
      var attested := VotesAt(spec, purged.core, purged.votes, list, |list|);
      ProcessBlock(spec, st, block, recovery) ==
        (purged.(
          votes := SlashedAt(spec, purged.core, attested, block.slashings, |block.slashings|),
          queue := purged.queue + KeptAt(spec, purged.core, purged.votes, list, |list|),
          outcomes := purged.outcomes + GivenAt(spec, purged.core, purged.votes, list, |list|),
          received := purged.received + MessagesOf(list)),
        true, [BlockEvent(block, recovery)] + events)
  {
    hide AllEarly, IsEarly, BlockCount, PurgeQueue, ProcessAttestations, ProcessSlashings;
    var core := OnBlock(spec, st.core, block).value;
    var accepted := Outcome(BlockMessage(block), st.core, st.votes, false, true);
    var purged := PurgeQueue(spec, st.(core := core, outcomes := st.outcomes + [accepted])).0;
    assert purged.queue + [] == purged.queue && purged.outcomes + [] == purged.outcomes;
    AttestationsEffect(spec, purged, purged, block.attestations, 0);
    assert block.attestations[0..] == block.attestations && block.slashings[0..] == block.slashings;
    var attested := ProcessAttestations(spec, purged, block.attestations);
    SlashingsEffect(spec, attested, attested.votes, block.slashings, 0);
  }

  // ----- The slots ticked through -----

  function TicksOf(events: seq<Event>): seq<Event> {
    if events == [] then [] else (if events[0].TickEvent? then [events[0]] else []) + TicksOf(events[1..])
  }

  lemma {:induction false} TicksAppend(a: seq<Event>, b: seq<Event>)
    ensures TicksOf(a + b) == TicksOf(a) + TicksOf(b)
  {
    hide TicksOf;
    TicksFront(a);
    if a == [] {
      assert a + b == b;
    } else {
      TicksFront(a + b);
      assert (a + b)[1..] == a[1..] + b;
      TicksAppend(a[1..], b);
    }
  }

  lemma TicksFront(events: seq<Event>)
    ensures events == [] ==> TicksOf(events) == []
    ensures events != [] ==>
      TicksOf(events) == TicksOf([events[0]]) + TicksOf(events[1..])
  {
    if events != [] {
      var one := [events[0]];
      assert one[1..] == [];
      assert TicksOf(events) == TicksOf(one) + TicksOf(events[1..]);
    }
  }

  /** No ticks, and everything marked as retried. */
  predicate Retried(events: seq<Event>) {
    forall e :: e in events ==> !e.TickEvent? && e.recovery
  }

  lemma {:induction false} RetriedHasNoTicks(events: seq<Event>)
    requires Retried(events)
    ensures TicksOf(events) == []
  {
    if events != [] { RetriedHasNoTicks(events[1..]); }
  }

  lemma {:induction false} ItemsRetry<C, V>(spec: Spec<C, V>, st: State<C, V>, items: seq<QueueItem>)
    requires spec.Valid()
    ensures Retried(ProcessItems(spec, st, items).2)
    decreases BlockCount(st.queue) + BlockCount(items), 1, |items|
  {
    hide AllEarly, IsEarly, ProcessAttestation, ProcessBlock;
    if items != [] {
      var head, rest := items[0], items[1..];
      if IsEarly(spec, st.core, head) {
        ItemsRetry(spec, Enqueue(st, head), rest);
      } else if head.IsAttestation() {
        ItemsRetry(spec, ProcessAttestation(spec, st, head.message.attestation, false).0, rest);
      } else {
        BlockRetries(spec, st, head.message.block, true);
        ItemsRetry(spec, ProcessBlock(spec, st, head.message.block, true).0, rest);
      }
    }
  }

  lemma {:induction false} PurgeRetries<C, V>(spec: Spec<C, V>, st: State<C, V>)
    requires spec.Valid()
    ensures Retried(PurgeQueue(spec, st).1)
    decreases BlockCount(st.queue), 3, 0
  {
    hide AllEarly, ProcessItems, PurgeQueue;
    ItemsRetry(spec, st.(queue := []), st.queue);
    OneRoundIsEnough(spec, st);
  }

  /** A block's own event carries the mark it was given; whatever is logged behind it was retried. */
  lemma {:induction false} BlockRetries<C, V>(spec: Spec<C, V>, st: State<C, V>, block: Block, recovery: bool)
    requires spec.Valid()
    ensures
      var (next, ok, events) := ProcessBlock(spec, st, block, recovery);
      if ok then events != [] && events[0] == BlockEvent(block, recovery) && Retried(events[1..]) else events == []
    decreases BlockCount(st.queue), 4, 0
  {
    hide AllEarly, IsEarly, PurgeQueue, ProcessBlockMessages;
    var core := OnBlock(spec, st.core, block);
    if core.Some? {
      var accepted := Outcome(BlockMessage(block), st.core, st.votes, false, true);
      var applied := st.(core := core.value, outcomes := st.outcomes + [accepted]);
      PurgeRetries(spec, applied);
      var events := PurgeQueue(spec, applied).1;
      assert ([BlockEvent(block, recovery)] + events)[1..] == events;
    }
  }

  /** The ticks from one slot to a later one: one at the start of each slot passed, the last one not marked. */
  function TicksTo<C, V>(spec: Spec<C, V>, genesisTime: int, from: int, to: int): (ticks: seq<Event>)
    requires from <= to
    ensures |ticks| == to - from
  {
    seq(to - from, i requires 0 <= i < to - from =>
      TickEvent(genesisTime + (from + 1 + i) * spec.secondsPerSlot, from + 1 + i < to))
  }

  /** A tick reaches the slot asked for, through every slot in between; a slot that is not ahead changes nothing. */
  lemma {:induction false} TickReaches<C, V>(spec: Spec<C, V>, st: State<C, V>, tickSlot: int)
    requires spec.Valid()
    ensures
      var (last, events) := TickTo(spec, st, tickSlot);
      var slot := CurrentSlot(spec, st.core);
      if slot < tickSlot
      then
        && CurrentSlot(spec, last.core) == tickSlot && last.core.genesisTime == st.core.genesisTime
        && last.core.time == st.core.genesisTime + tickSlot * spec.secondsPerSlot
        && TicksOf(events) == TicksTo(spec, st.core.genesisTime, slot, tickSlot)
      else last == st && events == []
    decreases tickSlot - CurrentSlot(spec, st.core)
  {
    hide AllEarly, PurgeQueue, TicksTo;
    var slot := CurrentSlot(spec, st.core);
    if slot < tickSlot {
      SlotAfterTick(spec, st.core);
      var core := OnTick(spec, st.core, NextSlotTime(spec, st.core));
      var event := TickEvent(NextSlotTime(spec, st.core), CurrentSlot(spec, core) < tickSlot);
      var (purged, events) := PurgeQueue(spec, st.(core := core));
      TimeStays(spec, st.(core := core));
      PurgeRetries(spec, st.(core := core));
      RetriedHasNoTicks(events);
      TickReaches(spec, purged, tickSlot);
      var more := TickTo(spec, purged, tickSlot).1;
      assert [event][1..] == [];
      TicksAppend([event], events);
      TicksAppend([event] + events, more);
      FirstTick(spec, st.core.genesisTime, slot, tickSlot);
    }
  }

  lemma FirstTick<C, V>(spec: Spec<C, V>, genesisTime: int, from: int, to: int)
    requires from < to
    ensures TicksTo(spec, genesisTime, from, to)
         == [TickEvent(genesisTime + (from + 1) * spec.secondsPerSlot, from + 1 < to)]
              + if from + 1 < to then TicksTo(spec, genesisTime, from + 1, to) else []
  {
  }

  /** `process_tick`: it succeeds unless time runs backwards; then the clock stands at the later one of its slot and the
      slot of the given time, and exactly the slots passed were ticked, in order, the last one without the mark. */
  lemma TickIsExact<C, V>(spec: Spec<C, V>, st: State<C, V>, time: int)
    requires spec.Valid() && time >= st.core.time
    ensures
      var slot, asked := CurrentSlot(spec, st.core), (time - st.core.genesisTime) / spec.secondsPerSlot;
      var r := ProcessTick(spec, st, time);
      && r.Some? && slot <= asked && CurrentSlot(spec, r.value.0.core) == asked
      && TicksOf(r.value.1) == TicksTo(spec, st.core.genesisTime, slot, asked)
      && (slot < asked ==> r.value.0.core.time == st.core.genesisTime + asked * spec.secondsPerSlot)
      && (slot == asked ==> r.value == (st, []))
  {
    hide TickTo, AllEarly;
    var asked := (time - st.core.genesisTime) / spec.secondsPerSlot;
    QuotientMonotone(st.core.time - st.core.genesisTime, time - st.core.genesisTime, spec.secondsPerSlot);
    TickReaches(spec, st, asked);
  }

  lemma QuotientMonotone(a: int, b: int, n: nat)
    requires n > 0 && a <= b
    ensures a / n <= b / n
  {
    var p, q := a / n, b / n;
    assert a == p * n + a % n && b == q * n + b % n;
    assert p * n == q * n + (p - q) * n;
    Multiple(p - q, n);
  }

  lemma Multiple(d: int, n: nat)
    ensures d >= 1 ==> d * n >= n
  {
    if d >= 1 {
      assert d * n == n + (d - 1) * n;
    }
  }

  /** What the handlers leave of the store: a tick sets the time, and an accepted block joins the blocks; each also
      hands the rest of the store to its own part, and nothing else changes. */
  lemma HandlerEffects<C, V>(spec: Spec<C, V>, core: Core<C>, block: Block, time: int)
    requires spec.Valid()
    ensures OnBlock(spec, core, block).Some? <==>
      && block.parentRoot in core.blocks && block.slot <= CurrentSlot(spec, core)
      && spec.transition(core, block).Some?
    ensures OnBlock(spec, core, block).Some? ==>
      OnBlock(spec, core, block).value
        == core.(blocks := core.blocks + {block.root}, chain := spec.transition(core, block).value)
    ensures OnTick(spec, core, time) == core.(time := time, chain := spec.tick(core, time))
  {
  }

  /** Nothing else moves the clock. */
  lemma OnlyTicksMoveTheClock<C, V>(spec: Spec<C, V>, st: State<C, V>, op: Operation)
    requires spec.Valid() && !op.Tick?
    ensures SameClock(Perform(spec, st, op).0.core, st.core)
  {
    hide AllEarly, ProcessBlock;
    if op.Submit? && op.message.BlockMessage? {
      BlockTimeStays(spec, Receive(st, op.message), op.message.block, false);
    }
  }

  // ----- The log -----

  /** The messages of the block and attestation events. */
  function Logged(events: seq<Event>): seq<Message> {
    if events == [] then []
    else
      match events[0]
      case TickEvent(_, _) => Logged(events[1..])
      case BlockEvent(b, _) => [BlockMessage(b)] + Logged(events[1..])
      case AttestationEvent(a, _) => [AttestationMessage(a)] + Logged(events[1..])
  }

  lemma {:induction false} LoggedAppend(a: seq<Event>, b: seq<Event>)
    ensures Logged(a + b) == Logged(a) + Logged(b)
  {
    hide Logged;
    LoggedFront(a);
    if a == [] {
      assert a + b == b;
    } else {
      LoggedFront(a + b);
      assert (a + b)[1..] == a[1..] + b;
      LoggedAppend(a[1..], b);
    }
  }

  lemma LoggedFront(events: seq<Event>)
    ensures events == [] ==> Logged(events) == []
    ensures events != [] ==>
      Logged(events) == Logged([events[0]]) + Logged(events[1..])
  {
    if events != [] {
      var one := [events[0]];
      assert one[1..] == [];
      assert Logged(events) == Logged(one) + Logged(events[1..]);
    }
  }

  /** The messages that were accepted, other than a block's own attestations. */
  function Accepted<C, V>(outcomes: seq<Outcome<C, V>>): seq<Message> {
    if outcomes == [] then []
    else
      var o := outcomes[|outcomes| - 1];
      Accepted(outcomes[..|outcomes| - 1]) + if o.accepted && !o.isFromBlock then [o.message] else []
  }

  lemma AcceptedNext<C, V>(outcomes: seq<Outcome<C, V>>, o: Outcome<C, V>)
    ensures Accepted(outcomes + [o]) == Accepted(outcomes) + if o.accepted && !o.isFromBlock then [o.message] else []
  {
    assert (outcomes + [o])[..|outcomes|] == outcomes;
  }

  /** A step that logs exactly what it accepts. */
  ghost predicate Logs<C, V>(a: State<C, V>, events: seq<Event>, b: State<C, V>) {
    Accepted(b.outcomes) == Accepted(a.outcomes) + Logged(events)
  }

  lemma LogsTrans<C, V>(a: State<C, V>, x: seq<Event>, b: State<C, V>, y: seq<Event>, c: State<C, V>)
    requires Logs(a, x, b) && Logs(b, y, c)
    ensures Logs(a, x + y, c)
  {
    hide Accepted, Logged;
    LoggedAppend(x, y);
    assert Accepted(a.outcomes) + (Logged(x) + Logged(y)) == Accepted(a.outcomes) + Logged(x) + Logged(y);
  }

  lemma LogsNothing<C, V>(a: State<C, V>, b: State<C, V>)
    requires a.outcomes == b.outcomes
    ensures Logs(a, [], b)
  {
    assert Accepted(a.outcomes) + [] == Accepted(a.outcomes);
  }

  lemma AttestationLogs<C, V>(spec: Spec<C, V>, st: State<C, V>, a: Attestation, isFromBlock: bool)
    requires spec.Valid()
    ensures
      var (next, ok) := ProcessAttestation(spec, st, a, isFromBlock);
      Logs(st, if ok && !isFromBlock then [AttestationEvent(a, true)] else [], next)
  {
    hide AllEarly, IsEarly, Accepted;
    var next := ProcessAttestation(spec, st, a, isFromBlock).0;
    if next.outcomes == st.outcomes {
      LogsNothing(st, next);
    } else {
      AcceptedNext(st.outcomes, next.outcomes[|st.outcomes|]);
      assert [AttestationEvent(a, true)][1..] == [] && Logged([AttestationEvent(a, true)]) == [AttestationMessage(a)];
    }
  }

  lemma {:induction false} AttestationsLog<C, V>(spec: Spec<C, V>, st: State<C, V>, list: seq<Attestation>)
    requires spec.Valid()
    ensures Logs(st, [], ProcessAttestations(spec, st, list))
    decreases |list|
  {
    hide AllEarly, IsEarly, Accepted, ProcessAttestation, Logs;
    if list == [] {
      LogsNothing(st, st);
    } else {
      var held := Receive(st, AttestationMessage(list[0]));
      var next := ProcessAttestation(spec, held, list[0], true).0;
      LogsNothing(st, held);
      AttestationLogs(spec, held, list[0], true);
      LogsTrans(st, [], held, [], next);
      AttestationsLog(spec, next, list[1..]);
      var none: seq<Event> := [];
      assert none + none == none;
      LogsTrans(st, none, next, none, ProcessAttestations(spec, st, list));
    }
  }

  lemma {:induction false} ItemsLog<C, V>(spec: Spec<C, V>, st: State<C, V>, items: seq<QueueItem>)
    requires spec.Valid()
    ensures Logs(st, ProcessItems(spec, st, items).2, ProcessItems(spec, st, items).0)
    decreases BlockCount(st.queue) + BlockCount(items), 1, |items|
  {
    hide AllEarly, IsEarly, Accepted, ProcessAttestation, ProcessBlock, Logs;
    if items == [] {
      LogsNothing(st, st);
    } else {
      var head, rest := items[0], items[1..];
      var (last, updated, events) := ProcessItems(spec, st, items);
      if IsEarly(spec, st.core, head) {
        LogsNothing(st, Enqueue(st, head));
        ItemsLog(spec, Enqueue(st, head), rest);
        LogsTrans(st, [], Enqueue(st, head), events, last);
        assert [] + events == events;
      } else if head.IsAttestation() {
        var (next, ok) := ProcessAttestation(spec, st, head.message.attestation, false);
        AttestationLogs(spec, st, head.message.attestation, false);
        ItemsLog(spec, next, rest);
        LogsTrans(
          st, if ok then [AttestationEvent(head.message.attestation, true)] else [], next,
          ProcessItems(spec, next, rest).2, last);
      } else {
        var (next, ok, first) := ProcessBlock(spec, st, head.message.block, true);
        BlockLogs(spec, st, head.message.block, true);
        ItemsLog(spec, next, rest);
        LogsTrans(st, first, next, ProcessItems(spec, next, rest).2, last);
      }
    }
  }

  lemma {:induction false} PurgeLogs<C, V>(spec: Spec<C, V>, st: State<C, V>)
    requires spec.Valid()
    ensures Logs(st, PurgeQueue(spec, st).1, PurgeQueue(spec, st).0)
    decreases BlockCount(st.queue), 3, 0
  {
    hide AllEarly, Accepted, ProcessItems, PurgeQueue;
    ItemsLog(spec, st.(queue := []), st.queue);
    OneRoundIsEnough(spec, st);
  }

  lemma {:induction false} BlockLogs<C, V>(spec: Spec<C, V>, st: State<C, V>, block: Block, recovery: bool)
    requires spec.Valid()
    ensures Logs(st, ProcessBlock(spec, st, block, recovery).2, ProcessBlock(spec, st, block, recovery).0)
    decreases BlockCount(st.queue), 4, 0
  {
    hide AllEarly, IsEarly, Accepted, PurgeQueue, ProcessAttestations;
    var core := OnBlock(spec, st.core, block);
    if core.Some? {
      var accepted := Outcome(BlockMessage(block), st.core, st.votes, false, true);
      var applied := st.(core := core.value, outcomes := st.outcomes + [accepted]);
      var first := [BlockEvent(block, recovery)];
      AcceptedNext(st.outcomes, accepted);
      assert first[1..] == [] && Logged(first) == [BlockMessage(block)];
      PurgeLogs(spec, applied);
      var (purged, events) := PurgeQueue(spec, applied);
      LogsTrans(st, first, applied, events, purged);
      AttestationsLog(spec, purged, block.attestations);
      LogsTrans(st, first + events, purged, [], ProcessAttestations(spec, purged, block.attestations));
      assert first + events + [] == first + events;
    } else if IsEarly(spec, st.core, MakeItem(BlockMessage(block), false)) {
      LogsNothing(st, ProcessBlock(spec, st, block, recovery).0);
    } else {
      AcceptedNext(st.outcomes, Outcome(BlockMessage(block), st.core, st.votes, false, false));
    }
  }

  lemma {:induction false} TickLogs<C, V>(spec: Spec<C, V>, st: State<C, V>, tickSlot: int)
    requires spec.Valid()
    ensures Logs(st, TickTo(spec, st, tickSlot).1, TickTo(spec, st, tickSlot).0)
    decreases tickSlot - CurrentSlot(spec, st.core)
  {
    hide AllEarly, Accepted, PurgeQueue, Logs;
    if CurrentSlot(spec, st.core) < tickSlot {
      SlotAfterTick(spec, st.core);
      var core := OnTick(spec, st.core, NextSlotTime(spec, st.core));
      var ticked := st.(core := core);
      var event := TickEvent(NextSlotTime(spec, st.core), CurrentSlot(spec, core) < tickSlot);
      var (purged, events) := PurgeQueue(spec, ticked);
      TickLogsNothing(st, ticked, event);
      PurgeLogs(spec, ticked);
      LogsTrans(st, [event], ticked, events, purged);
      TimeStays(spec, ticked);
      TickLogs(spec, purged, tickSlot);
      LogsTrans(st, [event] + events, purged, TickTo(spec, purged, tickSlot).1, TickTo(spec, st, tickSlot).0);
    } else {
      LogsNothing(st, st);
    }
  }

  lemma TickLogsNothing<C, V>(a: State<C, V>, b: State<C, V>, event: Event)
    requires a.outcomes == b.outcomes && event.TickEvent?
    ensures Logs(a, [event], b)
  {
    assert [event][1..] == [] && Logged([event]) == [];
    LogsNothing(a, b);
  }

  /** Every operation logs exactly the messages it accepts, in the order in which it accepts them; only an attestation
      that is handed in directly is left to the caller, and a block's own attestations are not logged at all. */
  lemma PerformLogs<C, V>(spec: Spec<C, V>, st: State<C, V>, op: Operation)
    requires spec.Valid()
    ensures
      var (next, events) := Perform(spec, st, op);
      if op.Submit? && op.message.AttestationMessage?
      then
        && events == []
        && Accepted(next.outcomes) == Accepted(st.outcomes) +
             if spec.attest(st.core, st.votes, op.message.attestation, false).0 then [op.message] else []
      else Accepted(next.outcomes) == Accepted(st.outcomes) + Logged(events)
  {
    hide AllEarly, Accepted, ProcessBlock, TickTo, IsEarly;
    match op
    case Tick(time) =>
      LogsNothing(st, st);
      TickLogs(spec, st, (time - st.core.genesisTime) / spec.secondsPerSlot);
    case Submit(message) =>
      var held := Receive(st, message);
      match message {
        case BlockMessage(b) => BlockLogs(spec, held, b, false);
        case AttestationMessage(a) =>
          AttestationLogs(spec, held, a, false);
          assert [AttestationEvent(a, true)][1..] == [] && Logged([AttestationEvent(a, true)]) == [message];
      }
    case SubmitSlashing(_) => LogsNothing(st, Perform(spec, st, op).0);
  }

  /** A slashing that is handed in goes to its handler and changes the votes alone. */
  lemma SlashingEffect<C, V>(spec: Spec<C, V>, st: State<C, V>, s: Slashing)
    requires spec.Valid()
    ensures Perform(spec, st, SubmitSlashing(s)) == (st.(votes := spec.slash(st.core, st.votes, s).1), [])
    ensures ProcessSlashing(spec, st, s).1 == spec.slash(st.core, st.votes, s).0
  {
  }
}
