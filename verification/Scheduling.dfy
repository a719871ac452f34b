/** The message scheduler of the fork-choice test runner (`scheduler.py`), as functions of its state. */
module Scheduling {
  import opened Wrappers

  type Root = nat

  datatype Attestation = Attestation(id: nat, slot: nat, beaconBlockRoot: Root, targetRoot: Root)
  datatype Slashing = Slashing(id: nat)
  datatype Block = Block(
    root: Root, slot: nat, parentRoot: Root, attestations: seq<Attestation>, slashings: seq<Slashing>)

  datatype Message = BlockMessage(block: Block) | AttestationMessage(attestation: Attestation)

  /** A queued message, with the slot and the block roots it waits for. */
  datatype QueueItem = QueueItem(effectiveSlot: nat, message: Message, dependencies: seq<Root>, isFromBlock: bool) {
    predicate IsAttestation() { message.AttestationMessage? }
  }

  function MakeItem(message: Message, isFromBlock: bool): QueueItem {
    match message
    case AttestationMessage(a) => QueueItem(a.slot + 1, message, [a.beaconBlockRoot, a.targetRoot], isFromBlock)
    case BlockMessage(b) => QueueItem(b.slot, message, [b.parentRoot], false)
  }

  // ----- The store and the fork-choice handlers -----

  /** The part of the store that blocks and ticks change. `chain` is everything but the clock and the block roots. */
  datatype Core<C> = Core(time: int, genesisTime: int, blocks: set<Root>, chain: C)

  /** What the handlers do beyond what is written out below: the rest of `on_block` and `on_tick`, and
      the two handlers that only touch votes. They never look at votes to decide about a block. */
  datatype Spec<!C, !V> = Spec(
    secondsPerSlot: nat,
    transition: (Core<C>, Block) -> Option<C>,
    tick: (Core<C>, int) -> C,
    attest: (Core<C>, V, Attestation, bool) -> (bool, V),
    slash: (Core<C>, V, Slashing) -> (bool, V))
  {
    predicate Valid() { secondsPerSlot > 0 }
  }

  function CurrentSlot<C, V>(spec: Spec<C, V>, core: Core<C>): int
    requires spec.Valid()
  {
    (core.time - core.genesisTime) / spec.secondsPerSlot
  }

  /** `on_block`: the parent must be known and the block must not be from the future. */
  function OnBlock<C, V>(spec: Spec<C, V>, core: Core<C>, block: Block): Option<Core<C>>
    requires spec.Valid()
  {
    if block.parentRoot !in core.blocks || CurrentSlot(spec, core) < block.slot then None
    else
      match spec.transition(core, block)
      case None => None
      case Some(chain) => Some(Core(core.time, core.genesisTime, core.blocks + {block.root}, chain))
  }

  function OnTick<C, V>(spec: Spec<C, V>, core: Core<C>, time: int): Core<C> {
    Core(time, core.genesisTime, core.blocks, spec.tick(core, time))
  }

  /** A message is early when its slot is below the current one, as the source compares them, or a dependency is
      missing. */
  predicate IsEarly<C, V>(spec: Spec<C, V>, core: Core<C>, item: QueueItem)
    requires spec.Valid()
  {
    item.effectiveSlot < CurrentSlot(spec, core) || exists r :: r in item.dependencies && r !in core.blocks
  }

  // ----- The state of a run -----

  /** One handler call: what was offered, to which store, and whether it was accepted. */
  datatype Outcome<C, V> = Outcome(message: Message, core: Core<C>, votes: V, isFromBlock: bool, accepted: bool)

  /** The scheduler's fields, and two records of the run: the calls made so far, and every message received. */
  datatype State<C, V> = State(
    core: Core<C>, votes: V, queue: seq<QueueItem>, outcomes: seq<Outcome<C, V>>, received: multiset<Message>)

  datatype Event =
    | TickEvent(time: int, recovery: bool)
    | BlockEvent(block: Block, recovery: bool)
    | AttestationEvent(attestation: Attestation, recovery: bool)

  function BlockCount(items: seq<QueueItem>): nat {
    if items == [] then 0 else (if items[0].IsAttestation() then 0 else 1) + BlockCount(items[1..])
  }

  lemma {:induction false} BlockCountAppend(a: seq<QueueItem>, b: seq<QueueItem>)
    ensures BlockCount(a + b) == BlockCount(a) + BlockCount(b)
  {
    if a == [] {
      assert a + b == b;
    } else {
      assert (a + b)[1..] == a[1..] + b;
      BlockCountAppend(a[1..], b);
    }
  }

  /** Quiescence: everything that waits has a reason to wait. */
  ghost predicate AllEarly<C, V>(spec: Spec<C, V>, core: Core<C>, queue: seq<QueueItem>)
    requires spec.Valid()
  {
    forall i :: 0 <= i < |queue| ==> IsEarly(spec, core, queue[i])
  }

  function Enqueue<C, V>(st: State<C, V>, item: QueueItem): (r: State<C, V>)
    ensures BlockCount(r.queue) == BlockCount(st.queue) + if item.IsAttestation() then 0 else 1
  {
    BlockCountAppend(st.queue, [item]);
    st.(queue := st.queue + [item])
  }

  function ProcessAttestation<C, V>(spec: Spec<C, V>, st: State<C, V>, a: Attestation,
      isFromBlock: bool): (r: (State<C, V>, bool))
    requires spec.Valid()
    ensures r.0.core == st.core && BlockCount(r.0.queue) == BlockCount(st.queue)
    ensures AllEarly(spec, st.core, st.queue) ==> AllEarly(spec, r.0.core, r.0.queue)
    ensures !IsEarly(spec, st.core, MakeItem(AttestationMessage(a), isFromBlock)) ==> r.0.queue == st.queue
  {
    var message := AttestationMessage(a);
    var (ok, votes) := spec.attest(st.core, st.votes, a, isFromBlock);
    var item := MakeItem(message, isFromBlock);
    if !ok && IsEarly(spec, st.core, item) then (Enqueue(st.(votes := votes), item), false)
    else
      var outcome := Outcome(message, st.core, st.votes, isFromBlock, ok);
      (st.(votes := votes, outcomes := st.outcomes + [outcome]), ok)
  }

  function ProcessSlashing<C, V>(spec: Spec<C, V>, st: State<C, V>, s: Slashing): (State<C, V>, bool) {
    var (ok, votes) := spec.slash(st.core, st.votes, s);
    (st.(votes := votes), ok)
  }

  function Receive<C, V>(st: State<C, V>, message: Message): State<C, V> {
    st.(received := st.received + multiset{message})
  }

  function ProcessAttestations<C, V>(spec: Spec<C, V>, st: State<C, V>, list: seq<Attestation>): (r: State<C, V>)
    requires spec.Valid()
    ensures r.core == st.core && BlockCount(r.queue) == BlockCount(st.queue)
    ensures AllEarly(spec, st.core, st.queue) ==> AllEarly(spec, r.core, r.queue)
    decreases |list|
  {
    if list == [] then st
    else
      var next := ProcessAttestation(spec, Receive(st, AttestationMessage(list[0])), list[0], true).0;
      ProcessAttestations(spec, next, list[1..])
  }

  function ProcessSlashings<C, V>(spec: Spec<C, V>, st: State<C, V>, list: seq<Slashing>): (r: State<C, V>)
    ensures r == st.(votes := r.votes)
    decreases |list|
  {
    if list == [] then st else ProcessSlashings(spec, ProcessSlashing(spec, st, list[0]).0, list[1..])
  }

  /** The attestations and slashings that an accepted block carries. */
  function ProcessBlockMessages<C, V>(spec: Spec<C, V>, st: State<C, V>, block: Block): (r: State<C, V>)
    requires spec.Valid()
    ensures r.core == st.core && BlockCount(r.queue) == BlockCount(st.queue)
    ensures AllEarly(spec, st.core, st.queue) ==> AllEarly(spec, r.core, r.queue)
  {
    ProcessSlashings(spec, ProcessAttestations(spec, st, block.attestations), block.slashings)
  }

  /** The loop of `process_queue` over what was drained. A round that reports an update has taken a block out for
      good. */
  function ProcessItems<C, V>(spec: Spec<C, V>, st: State<C, V>, items: seq<QueueItem>): (r: (State<C, V>, bool,
      seq<Event>))
    requires spec.Valid()
    ensures BlockCount(r.0.queue) + (if r.1 then 1 else 0) <= BlockCount(st.queue) + BlockCount(items)
    ensures AllEarly(spec, st.core, st.queue) ==> AllEarly(spec, r.0.core, r.0.queue)
    decreases BlockCount(st.queue) + BlockCount(items), 1, |items|
  {
    if items == [] then (st, false, [])
    else
      var item, rest := items[0], items[1..];
      if IsEarly(spec, st.core, item) then
        ProcessItems(spec, Enqueue(st, item), rest)
      else
        match item.message
        case AttestationMessage(a) =>
          var (next, ok) := ProcessAttestation(spec, st, a, false);
          var (last, updated, events) := ProcessItems(spec, next, rest);
          (last, updated, (if ok then [AttestationEvent(a, true)] else []) + events)
        case BlockMessage(b) =>
          var (next, ok, first) := ProcessBlock(spec, st, b, true);
          var (last, updated, events) := ProcessItems(spec, next, rest);
          (last, ok || updated, (if ok then first else []) + events)
  }

  function ProcessQueue<C, V>(spec: Spec<C, V>, st: State<C, V>): (r: (State<C, V>, bool, seq<Event>))
    requires spec.Valid()
    ensures BlockCount(r.0.queue) + (if r.1 then 1 else 0) <= BlockCount(st.queue)
    ensures AllEarly(spec, r.0.core, r.0.queue)
    decreases BlockCount(st.queue), 2, 0
  {
    ProcessItems(spec, st.(queue := []), st.queue)
  }

  function PurgeQueue<C, V>(spec: Spec<C, V>, st: State<C, V>): (r: (State<C, V>, seq<Event>))
    requires spec.Valid()
    ensures BlockCount(r.0.queue) <= BlockCount(st.queue)
    ensures AllEarly(spec, r.0.core, r.0.queue)
    decreases BlockCount(st.queue), 3, 0
  {
    var (next, updated, events) := ProcessQueue(spec, st);
    if !updated then (next, events)
    else
      var (last, more) := PurgeQueue(spec, next);
      (last, events + more)
  }

  function ProcessBlock<C, V>(spec: Spec<C, V>, st: State<C, V>, block: Block, recovery: bool): (r: (State<C, V>,
      bool, seq<Event>))
    requires spec.Valid()
    ensures BlockCount(r.0.queue) <= BlockCount(st.queue) +
              if !r.1 && IsEarly(spec, st.core, MakeItem(BlockMessage(block), false)) then 1 else 0
    ensures r.1 ==> AllEarly(spec, r.0.core, r.0.queue) && BlockEvent(block, recovery) in r.2
    ensures !r.1 ==> r.0.core == st.core && r.2 == []
    ensures AllEarly(spec, st.core, st.queue) ==> AllEarly(spec, r.0.core, r.0.queue)
    decreases BlockCount(st.queue), 4, 0
  {
    var message := BlockMessage(block);
    match OnBlock(spec, st.core, block)
    case Some(core) =>
      var accepted := Outcome(message, st.core, st.votes, false, true);
      var (purged, events) := PurgeQueue(spec, st.(core := core, outcomes := st.outcomes + [accepted]));
      (ProcessBlockMessages(spec, purged, block), true, [BlockEvent(block, recovery)] + events)
    case None =>
      var item := MakeItem(message, false);
      if IsEarly(spec, st.core, item) then (Enqueue(st, item), false, [])
      else (st.(outcomes := st.outcomes + [Outcome(message, st.core, st.votes, false, false)]), false, [])
  }

  /** The time at which the next slot starts. */
  function NextSlotTime<C, V>(spec: Spec<C, V>, core: Core<C>): int
    requires spec.Valid()
  {
    core.genesisTime + (CurrentSlot(spec, core) + 1) * spec.secondsPerSlot
  }

  lemma SlotAfterTick<C, V>(spec: Spec<C, V>, core: Core<C>)
    requires spec.Valid()
    ensures CurrentSlot(spec, OnTick(spec, core, NextSlotTime(spec, core))) == CurrentSlot(spec, core) + 1
  {
    ExactQuotient(CurrentSlot(spec, core) + 1, spec.secondsPerSlot);
  }

  lemma ExactQuotient(k: int, s: nat)
    requires s > 0
    ensures k * s / s == k
  {
    SmallMultiple(k - k * s / s, s, k * s % s);
  }

  lemma SmallMultiple(d: int, s: nat, r: int)
    requires d * s == r && 0 <= r < s
    ensures d == 0
  {
  }

  /** The loop of `process_tick`: one store tick and one purge for every slot boundary passed. */
  function TickTo<C, V>(spec: Spec<C, V>, st: State<C, V>, tickSlot: int): (r: (State<C, V>, seq<Event>))
    requires spec.Valid()
    ensures AllEarly(spec, st.core, st.queue) ==> AllEarly(spec, r.0.core, r.0.queue)
    decreases tickSlot - CurrentSlot(spec, st.core)
  {
    if CurrentSlot(spec, st.core) >= tickSlot then (st, [])
    else
      var time := NextSlotTime(spec, st.core);
      SlotAfterTick(spec, st.core);
      var core := OnTick(spec, st.core, time);
      var event := TickEvent(time, CurrentSlot(spec, core) < tickSlot);
      var (purged, events) := PurgeQueue(spec, st.(core := core));
      TimeStays(spec, st.(core := core));
      var (last, more) := TickTo(spec, purged, tickSlot);
      (last, [event] + events + more)
  }

  /** Only ticks move the clock. */
  ghost predicate SameClock<C>(a: Core<C>, b: Core<C>) {
    a.time == b.time && a.genesisTime == b.genesisTime
  }

  lemma SameSlot<C, V>(spec: Spec<C, V>, a: Core<C>, b: Core<C>)
    requires spec.Valid() && SameClock(a, b)
    ensures CurrentSlot(spec, a) == CurrentSlot(spec, b)
  {
  }

  lemma {:induction false} ItemsTimeStays<C, V>(spec: Spec<C, V>, st: State<C, V>, items: seq<QueueItem>)
    requires spec.Valid()
    ensures SameClock(ProcessItems(spec, st, items).0.core, st.core)
    decreases BlockCount(st.queue) + BlockCount(items), 1, |items|
  {
    if items != [] {
      var item, rest := items[0], items[1..];
      if IsEarly(spec, st.core, item) {
        ItemsTimeStays(spec, Enqueue(st, item), rest);
      } else if item.IsAttestation() {
        ItemsTimeStays(spec, ProcessAttestation(spec, st, item.message.attestation, false).0, rest);
      } else {
        BlockTimeStays(spec, st, item.message.block, true);
        ItemsTimeStays(spec, ProcessBlock(spec, st, item.message.block, true).0, rest);
      }
    }
  }

  lemma {:induction false} BlockTimeStays<C, V>(spec: Spec<C, V>, st: State<C, V>, block: Block, recovery: bool)
    requires spec.Valid()
    ensures SameClock(ProcessBlock(spec, st, block, recovery).0.core, st.core)
    decreases BlockCount(st.queue), 4, 0
  {
    var core := OnBlock(spec, st.core, block);
    if core.Some? {
      var accepted := Outcome(BlockMessage(block), st.core, st.votes, false, true);
      TimeStays(spec, st.(core := core.value, outcomes := st.outcomes + [accepted]));
    }
  }

  lemma {:induction false} TimeStays<C, V>(spec: Spec<C, V>, st: State<C, V>)
    requires spec.Valid()
    ensures SameClock(PurgeQueue(spec, st).0.core, st.core)
    decreases BlockCount(st.queue), 3, 0
  {
    ItemsTimeStays(spec, st.(queue := []), st.queue);
    var (next, updated, events) := ProcessQueue(spec, st);
    if updated {
      TimeStays(spec, next);
    }
  }

  /** `process_tick`; the source's assertion that time does not run backwards becomes `None`. */
  function ProcessTick<C, V>(spec: Spec<C, V>, st: State<C, V>, time: int): (r: Option<(State<C, V>, seq<Event>)>)
    requires spec.Valid()
    ensures r.None? <==> time < st.core.time
    ensures r.Some? && AllEarly(spec, st.core, st.queue) ==> AllEarly(spec, r.value.0.core, r.value.0.queue)
  {
    if time < st.core.time then None
    else Some(TickTo(spec, st, (time - st.core.genesisTime) / spec.secondsPerSlot))
  }

  // ----- What every step of a run keeps -----

  /** Replaying the tick and block events of a log through the plain handlers; `None` when a block is refused. */
  function Replay<C, V>(spec: Spec<C, V>, core: Core<C>, events: seq<Event>): Option<Core<C>>
    requires spec.Valid()
    decreases |events|
  {
    if events == [] then Some(core)
    else
      match events[0]
      case TickEvent(time, _) => Replay(spec, OnTick(spec, core, time), events[1..])
      case AttestationEvent(_, _) => Replay(spec, core, events[1..])
      case BlockEvent(b, _) =>
        match OnBlock(spec, core, b)
        case None => None
        case Some(next) => Replay(spec, next, events[1..])
  }

  lemma {:induction false} ReplayAppend<C, V>(spec: Spec<C, V>, core: Core<C>, a: seq<Event>, b: seq<Event>)
    requires spec.Valid() && Replay(spec, core, a).Some?
    ensures Replay(spec, core, a + b) == Replay(spec, Replay(spec, core, a).value, b)
    decreases |a|
  {
    if a == [] {
      assert a + b == b;
    } else {
      assert (a + b)[1..] == a[1..] + b;
      match a[0] {
        case TickEvent(time, _) => ReplayAppend(spec, OnTick(spec, core, time), a[1..], b);
        case AttestationEvent(_, _) => ReplayAppend(spec, core, a[1..], b);
        case BlockEvent(block, _) => ReplayAppend(spec, OnBlock(spec, core, block).value, a[1..], b);
      }
    }
  }

  function Messages(items: seq<QueueItem>): multiset<Message> {
    if items == [] then multiset{} else multiset{items[0].message} + Messages(items[1..])
  }

  lemma {:induction false} MessagesAppend(a: seq<QueueItem>, b: seq<QueueItem>)
    ensures Messages(a + b) == Messages(a) + Messages(b)
  {
    if a == [] {
      assert a + b == b;
    } else {
      assert (a + b)[1..] == a[1..] + b;
      MessagesAppend(a[1..], b);
    }
  }

  function Settled<C, V>(outcomes: seq<Outcome<C, V>>): multiset<Message> {
    if outcomes == [] then multiset{}
    else Settled(outcomes[..|outcomes| - 1]) + multiset{outcomes[|outcomes| - 1].message}
  }

  lemma SettledNext<C, V>(outcomes: seq<Outcome<C, V>>, o: Outcome<C, V>)
    ensures Settled(outcomes + [o]) == Settled(outcomes) + multiset{o.message}
  {
    assert (outcomes + [o])[..|outcomes|] == outcomes;
  }

  /** The messages the scheduler can answer for: those with an outcome, and those still queued. */
  function Accounted<C, V>(st: State<C, V>): multiset<Message> {
    Settled(st.outcomes) + Messages(st.queue)
  }

  /** An outcome is what the handler said, and a message is only ever given up when it is not early. */
  ghost predicate TrueOutcome<C, V>(spec: Spec<C, V>, o: Outcome<C, V>)
    requires spec.Valid()
  {
    && (o.accepted == match o.message
                      case BlockMessage(b) => OnBlock(spec, o.core, b).Some?
                      case AttestationMessage(a) => spec.attest(o.core, o.votes, a, o.isFromBlock).0)
    && (!o.accepted ==> !IsEarly(spec, o.core, MakeItem(o.message, o.isFromBlock)))
  }

  ghost predicate TrueOutcomes<C, V>(spec: Spec<C, V>, outcomes: seq<Outcome<C, V>>)
    requires spec.Valid()
  {
    forall i :: 0 <= i < |outcomes| ==> TrueOutcome(spec, outcomes[i])
  }

  /** A step from `a` to `b` that had the messages `inFlight` in hand and logged `events`: the log replays,
      every message is accounted for, and the outcomes stay true. */
  ghost predicate Step<C, V>(spec: Spec<C, V>, a: State<C, V>, inFlight: multiset<Message>, b: State<C, V>,
      events: seq<Event>)
    requires spec.Valid()
  {
    && Replay(spec, a.core, events) == Some(b.core)
    && b.received + Accounted(a) + inFlight == a.received + Accounted(b)
    && (TrueOutcomes(spec, a.outcomes) ==> TrueOutcomes(spec, b.outcomes))
  }

  lemma StepTrans<C, V>(
      spec: Spec<C, V>, a: State<C, V>, x: multiset<Message>, b: State<C, V>, e: seq<Event>,
      y: multiset<Message>, c: State<C, V>, f: seq<Event>)
    requires spec.Valid() && Step(spec, a, x, b, e) && Step(spec, b, y, c, f)
    ensures Step(spec, a, x + y, c, e + f)
  {
    ReplayAppend(spec, a.core, e, f);
    hide Accounted;
    Balance(a.received, Accounted(a), x, b.received, Accounted(b), y, c.received, Accounted(c));
  }

  lemma Balance(
      ar: multiset<Message>, aa: multiset<Message>, x: multiset<Message>,
      br: multiset<Message>, ba: multiset<Message>, y: multiset<Message>,
      cr: multiset<Message>, ca: multiset<Message>)
    requires br + aa + x == ar + ba && cr + ba + y == br + ca
    ensures cr + aa + (x + y) == ar + ca
  {
    forall m ensures (cr + aa + (x + y))[m] == (ar + ca)[m] {
      assert (br + aa + x)[m] == (ar + ba)[m] && (cr + ba + y)[m] == (br + ca)[m];
    }
  }

  /** Receiving a message and handing it over is a step with nothing in hand. */
  lemma ReceiveStep<C, V>(spec: Spec<C, V>, st: State<C, V>, message: Message, next: State<C, V>, events: seq<Event>)
    requires spec.Valid() && Step(spec, Receive(st, message), multiset{message}, next, events)
    ensures Step(spec, st, multiset{}, next, events)
  {
    hide Accounted;
    assert Accounted(Receive(st, message)) == Accounted(st) by { SameAccount(st, Receive(st, message)); }
    Withdraw(next.received + Accounted(st), message, st.received + Accounted(next));
    assert next.received + Accounted(st) + multiset{message} == st.received + Accounted(next) + multiset{message};
  }

  lemma SameAccount<C, V>(a: State<C, V>, b: State<C, V>)
    requires a.queue == b.queue && a.outcomes == b.outcomes
    ensures Accounted(a) == Accounted(b)
  {
  }

  lemma Withdraw(a: multiset<Message>, m: Message, b: multiset<Message>)
    requires a + multiset{m} == b + multiset{m}
    ensures a == b && a + multiset{} == b
  {
    forall x ensures a[x] == b[x] {
      assert (a + multiset{m})[x] == (b + multiset{m})[x];
    }
  }

  /** Moving the clock leaves the books alone. */
  lemma ClockStep<C, V>(spec: Spec<C, V>, st: State<C, V>, core: Core<C>, events: seq<Event>)
    requires spec.Valid() && Replay(spec, st.core, events) == Some(core)
    ensures Step(spec, st, multiset{}, st.(core := core), events)
  {
    assert st.received + Accounted(st) + multiset{} == st.received + Accounted(st);
  }

  lemma EnqueueStep<C, V>(spec: Spec<C, V>, st: State<C, V>, item: QueueItem)
    requires spec.Valid()
    ensures Step(spec, st, multiset{item.message}, Enqueue(st, item), [])
  {
    MessagesAppend(st.queue, [item]);
    assert [item][1..] == [];
  }

  lemma OutcomeStep<C, V>(spec: Spec<C, V>, st: State<C, V>, o: Outcome<C, V>, core: Core<C>, votes: V,
      events: seq<Event>)
    requires spec.Valid() && TrueOutcome(spec, o) && Replay(spec, st.core, events) == Some(core)
    ensures
      var next := st.(core := core, votes := votes, outcomes := st.outcomes + [o]);
      Step(spec, st, multiset{o.message}, next, events)
  {
    SettledNext(st.outcomes, o);
  }

  lemma AttestationStep<C, V>(spec: Spec<C, V>, st: State<C, V>, a: Attestation, isFromBlock: bool)
    requires spec.Valid()
    ensures Step(spec, st, multiset{AttestationMessage(a)}, ProcessAttestation(spec, st, a, isFromBlock).0, [])
  {
    var message := AttestationMessage(a);
    var (ok, votes) := spec.attest(st.core, st.votes, a, isFromBlock);
    var item := MakeItem(message, isFromBlock);
    if !ok && IsEarly(spec, st.core, item) {
      EnqueueStep(spec, st.(votes := votes), item);
    } else {
      OutcomeStep(spec, st, Outcome(message, st.core, st.votes, isFromBlock, ok), st.core, votes, []);
    }
  }

  lemma {:induction false} AttestationsStep<C, V>(spec: Spec<C, V>, st: State<C, V>, list: seq<Attestation>)
    requires spec.Valid()
    ensures Step(spec, st, multiset{}, ProcessAttestations(spec, st, list), [])
    decreases |list|
  {
    if list != [] {
      var message := AttestationMessage(list[0]);
      var held := Receive(st, message);
      var next := ProcessAttestation(spec, held, list[0], true).0;
      AttestationStep(spec, held, list[0], true);
      ReceiveStep(spec, st, message, next, []);
      AttestationsStep(spec, next, list[1..]);
      StepTrans(spec, st, multiset{}, next, [], multiset{}, ProcessAttestations(spec, st, list), []);
    }
  }

  lemma {:induction false} ItemsStep<C, V>(spec: Spec<C, V>, st: State<C, V>, items: seq<QueueItem>)
    requires spec.Valid()
    ensures Step(spec, st, Messages(items), ProcessItems(spec, st, items).0, ProcessItems(spec, st, items).2)
    decreases BlockCount(st.queue) + BlockCount(items), 1, |items|
  {
    if items == [] {
      assert st.received + Accounted(st) + multiset{} == st.received + Accounted(st);
    } else {
      hide Accounted, ProcessBlock, ProcessAttestation, TrueOutcomes, AllEarly;
      var item, rest := items[0], items[1..];
      var (last, updated, events) := ProcessItems(spec, st, items);
      if IsEarly(spec, st.core, item) {
        EnqueueStep(spec, st, item);
        ItemsStep(spec, Enqueue(st, item), rest);
        StepTrans(spec, st, multiset{item.message}, Enqueue(st, item), [], Messages(rest), last, events);
        assert [] + events == events;
      } else if item.IsAttestation() {
        var (next, ok) := ProcessAttestation(spec, st, item.message.attestation, false);
        var first := if ok then [AttestationEvent(item.message.attestation, true)] else [];
        AttestationStep(spec, st, item.message.attestation, false);
        assert first == [] || first[1..] == [];
        assert Step(spec, st, multiset{item.message}, next, first);
        ItemsStep(spec, next, rest);
        StepTrans(spec, st, multiset{item.message}, next, first, Messages(rest), last,
                  ProcessItems(spec, next, rest).2);
      } else {
        var (next, ok, first) := ProcessBlock(spec, st, item.message.block, true);
        BlockStep(spec, st, item.message.block, true);
        ItemsStep(spec, next, rest);
        StepTrans(spec, st, multiset{item.message}, next, first, Messages(rest), last,
                  ProcessItems(spec, next, rest).2);
      }
    }
  }

  lemma {:induction false} PurgeStep<C, V>(spec: Spec<C, V>, st: State<C, V>)
    requires spec.Valid()
    ensures Step(spec, st, multiset{}, PurgeQueue(spec, st).0, PurgeQueue(spec, st).1)
    decreases BlockCount(st.queue), 3, 0
  {
    var (next, updated, events) := ProcessQueue(spec, st);
    ItemsStep(spec, st.(queue := []), st.queue);
    assert Step(spec, st, multiset{}, next, events);
    if updated {
      PurgeStep(spec, next);
      StepTrans(spec, st, multiset{}, next, events, multiset{}, PurgeQueue(spec, next).0, PurgeQueue(spec, next).1);
    }
  }

  lemma VotesStep<C, V>(spec: Spec<C, V>, a: State<C, V>, x: multiset<Message>, b: State<C, V>, events: seq<Event>,
      c: State<C, V>)
    requires spec.Valid() && Step(spec, a, x, b, events) && c == b.(votes := c.votes)
    ensures Step(spec, a, x, c, events)
  {
    SameAccount(b, c);
  }

  lemma {:induction false} BlockStep<C, V>(spec: Spec<C, V>, st: State<C, V>, block: Block, recovery: bool)
    requires spec.Valid()
    ensures Step(spec, st, multiset{BlockMessage(block)},
                 ProcessBlock(spec, st, block, recovery).0, ProcessBlock(spec, st, block, recovery).2)
    decreases BlockCount(st.queue), 4, 0
  {
    hide Accounted, PurgeQueue, ProcessAttestations, TrueOutcomes, AllEarly;
    var message := BlockMessage(block);
    match OnBlock(spec, st.core, block)
    case Some(core) =>
      var accepted := Outcome(message, st.core, st.votes, false, true);
      var applied := st.(core := core, outcomes := st.outcomes + [accepted]);
      var first := [BlockEvent(block, recovery)];
      assert first[1..] == [];
      OutcomeStep(spec, st, accepted, core, st.votes, first);
      PurgeStep(spec, applied);
      var (purged, events) := PurgeQueue(spec, applied);
      StepTrans(spec, st, multiset{message}, applied, first, multiset{}, purged, events);
      AttestationsStep(spec, purged, block.attestations);
      var attested := ProcessAttestations(spec, purged, block.attestations);
      StepTrans(spec, st, multiset{message}, purged, first + events, multiset{}, attested, []);
      assert first + events + [] == first + events;
      VotesStep(spec, st, multiset{message}, attested, first + events, ProcessBlock(spec, st, block, recovery).0);
    case None =>
      var item := MakeItem(message, false);
      if IsEarly(spec, st.core, item) {
        EnqueueStep(spec, st, item);
      } else {
        OutcomeStep(spec, st, Outcome(message, st.core, st.votes, false, false), st.core, st.votes, []);
      }
  }

  lemma {:induction false} TickStep<C, V>(spec: Spec<C, V>, st: State<C, V>, tickSlot: int)
    requires spec.Valid()
    ensures Step(spec, st, multiset{}, TickTo(spec, st, tickSlot).0, TickTo(spec, st, tickSlot).1)
    decreases tickSlot - CurrentSlot(spec, st.core)
  {
    hide Accounted, PurgeQueue, TrueOutcomes, AllEarly;
    ReplayNothing(spec, st.core);
    ClockStep(spec, st, st.core, []);
    if CurrentSlot(spec, st.core) < tickSlot {
      var time := NextSlotTime(spec, st.core);
      SlotAfterTick(spec, st.core);
      var core := OnTick(spec, st.core, time);
      var first := [TickEvent(time, CurrentSlot(spec, core) < tickSlot)];
      var ticked := st.(core := core);
      assert first[1..] == [];
      ClockStep(spec, st, core, first);
      PurgeStep(spec, ticked);
      var (purged, events) := PurgeQueue(spec, ticked);
      StepTrans(spec, st, multiset{}, ticked, first, multiset{}, purged, events);
      TimeStays(spec, ticked);
      TickStep(spec, purged, tickSlot);
      StepTrans(spec, st, multiset{}, purged, first + events, multiset{},
                TickTo(spec, purged, tickSlot).0, TickTo(spec, purged, tickSlot).1);
    }
  }

  // ----- Whole runs -----

  datatype Operation = Tick(time: int) | Submit(message: Message) | SubmitSlashing(slashing: Slashing)

  /** One public operation. */
  function Perform<C, V>(spec: Spec<C, V>, st: State<C, V>, op: Operation): (State<C, V>, seq<Event>)
    requires spec.Valid()
  {
    match op
    case Tick(time) =>
      (match ProcessTick(spec, st, time)
       case None => (st, [])
       case Some(r) => r)
    case Submit(message) =>
      (match message
       case BlockMessage(b) =>
         var (next, ok, events) := ProcessBlock(spec, Receive(st, message), b, false);
         (next, events)
       case AttestationMessage(a) => (ProcessAttestation(spec, Receive(st, message), a, false).0, []))
    case SubmitSlashing(s) => (ProcessSlashing(spec, st, s).0, [])
  }

  function Run<C, V>(spec: Spec<C, V>, st: State<C, V>, ops: seq<Operation>): (State<C, V>, seq<Event>)
    requires spec.Valid()
    decreases |ops|
  {
    if ops == [] then (st, [])
    else
      var (next, events) := Perform(spec, st, ops[0]);
      var (last, more) := Run(spec, next, ops[1..]);
      (last, events + more)
  }

  lemma PerformStep<C, V>(spec: Spec<C, V>, st: State<C, V>, op: Operation)
    requires spec.Valid()
    ensures Step(spec, st, multiset{}, Perform(spec, st, op).0, Perform(spec, st, op).1)
    ensures AllEarly(spec, st.core, st.queue) ==>
      AllEarly(spec, Perform(spec, st, op).0.core, Perform(spec, st, op).0.queue)
  {
    hide Accounted, ProcessBlock, TickTo, ProcessAttestation, Replay, TrueOutcomes;
    ReplayNothing(spec, st.core);
    match op
    case Tick(time) =>
      ClockStep(spec, st, st.core, []);
      TickStep(spec, st, (time - st.core.genesisTime) / spec.secondsPerSlot);
    case Submit(message) =>
      match message {
        case BlockMessage(b) =>
          BlockStep(spec, Receive(st, message), b, false);
          ReceiveStep(spec, st, message, Perform(spec, st, op).0, Perform(spec, st, op).1);
        case AttestationMessage(a) =>
          AttestationStep(spec, Receive(st, message), a, false);
          ReceiveStep(spec, st, message, Perform(spec, st, op).0, []);
      }
    case SubmitSlashing(s) =>
      ClockStep(spec, st, st.core, []);
      SameAccount(st, Perform(spec, st, op).0);
  }

  lemma ReplayNothing<C, V>(spec: Spec<C, V>, core: Core<C>)
    requires spec.Valid()
    ensures Replay(spec, core, []) == Some(core)
  {
  }

  /** A scheduler that starts with an empty queue and no history. */
  ghost predicate Initial<C, V>(st: State<C, V>) {
    st.queue == [] && st.outcomes == [] && st.received == multiset{}
  }

  /** Safety over whole runs: after any operations the queue is quiescent; every message received, directly or
      inside an accepted block, was accepted, is still queued, or was refused when it was not early; and replaying
      the logged ticks and blocks through the plain handlers accepts all of them and reaches the same store. */
  lemma RunIsSafe<C, V>(spec: Spec<C, V>, st: State<C, V>, ops: seq<Operation>)
    requires spec.Valid() && Initial(st)
    ensures
      var (last, events) := Run(spec, st, ops);
      && AllEarly(spec, last.core, last.queue)
      && last.received == Settled(last.outcomes) + Messages(last.queue)
      && TrueOutcomes(spec, last.outcomes)
      && Replay(spec, st.core, events) == Some(last.core)
  {
    RunStep(spec, st, ops);
    assert Accounted(st) == multiset{};
    var last := Run(spec, st, ops).0;
    hide Run, Replay, AllEarly, IsEarly;
    assert last.received + multiset{} + multiset{} == last.received && multiset{} + Accounted(last) == Accounted(last);
  }

  lemma {:induction false} RunStep<C, V>(spec: Spec<C, V>, st: State<C, V>, ops: seq<Operation>)
    requires spec.Valid() && AllEarly(spec, st.core, st.queue)
    ensures Step(spec, st, multiset{}, Run(spec, st, ops).0, Run(spec, st, ops).1)
    ensures AllEarly(spec, Run(spec, st, ops).0.core, Run(spec, st, ops).0.queue)
    decreases |ops|
  {
    ReplayNothing(spec, st.core);
    ClockStep(spec, st, st.core, []);
    if ops != [] {
      var (next, events) := Perform(spec, st, ops[0]);
      PerformStep(spec, st, ops[0]);
      RunStep(spec, next, ops[1..]);
      StepTrans(spec, st, multiset{}, next, events, multiset{},
                Run(spec, next, ops[1..]).0, Run(spec, next, ops[1..]).1);
    }
  }

  /** A log that replays is in topological order, and its blocks are exactly the ones the store gained. */
  ghost predicate ParentsFirst(known: set<Root>, events: seq<Event>) {
    forall i :: 0 <= i < |events| && events[i].BlockEvent? ==>
      events[i].block.parentRoot in known + LoggedRoots(events[..i])
  }

  function LoggedRoots(events: seq<Event>): set<Root> {
    set e | e in events && e.BlockEvent? :: e.block.root
  }

  lemma {:induction false} ReplayIsTopological<C, V>(spec: Spec<C, V>, core: Core<C>, events: seq<Event>)
    requires spec.Valid() && Replay(spec, core, events).Some?
    ensures ParentsFirst(core.blocks, events)
    ensures Replay(spec, core, events).value.blocks == core.blocks + LoggedRoots(events)
    decreases |events|
  {
    if events != [] {
      var e, rest := events[0], events[1..];
      var next := match e
        case TickEvent(time, _) => OnTick(spec, core, time)
        case AttestationEvent(_, _) => core
        case BlockEvent(b, _) => OnBlock(spec, core, b).value;
      ReplayIsTopological(spec, next, rest);
      assert events == [e] + rest;
      LoggedFirst(e, rest);
      forall i | 0 <= i < |events| && events[i].BlockEvent?
        ensures events[i].block.parentRoot in core.blocks + LoggedRoots(events[..i])
      {
        if i > 0 {
          assert events[..i] == [e] + rest[..i - 1];
          LoggedFirst(e, rest[..i - 1]);
          assert rest[i - 1] == events[i];
        }
      }
    }
  }

  lemma LoggedFirst(e: Event, rest: seq<Event>)
    ensures LoggedRoots([e] + rest) == LoggedRoots([e]) + LoggedRoots(rest)
  {
  }

  // ----- One round is enough -----

  /** Draining a quiescent queue puts everything back. */
  lemma {:induction false} QuiescentItems<C, V>(spec: Spec<C, V>, st: State<C, V>, items: seq<QueueItem>)
    requires spec.Valid() && AllEarly(spec, st.core, items)
    ensures ProcessItems(spec, st, items) == (st.(queue := st.queue + items), false, [])
    decreases |items|
  {
    if items == [] {
      assert st.queue + items == st.queue;
    } else {
      QuiescentItems(spec, Enqueue(st, items[0]), items[1..]);
      assert st.queue + [items[0]] + items[1..] == st.queue + items;
    }
  }

  /** The retry loop of `purge_queue` never finds work in a second round: one call of `process_queue`,
      with the purges nested in it, already leaves the queue quiescent. */
  lemma OneRoundIsEnough<C, V>(spec: Spec<C, V>, st: State<C, V>)
    requires spec.Valid()
    ensures PurgeQueue(spec, st) == (ProcessQueue(spec, st).0, ProcessQueue(spec, st).2)
  {
    var (next, updated, events) := ProcessQueue(spec, st);
    if updated {
      QuiescentItems(spec, next.(queue := []), next.queue);
      assert [] + next.queue == next.queue && events + [] == events;
      assert ProcessQueue(spec, next) == (next, false, []);
    }
  }

  // ----- A consequence of the comparison as written -----

  /** A message whose slot has passed counts as early whatever the store holds. */
  predicate IsStale<C, V>(spec: Spec<C, V>, core: Core<C>, item: QueueItem)
    requires spec.Valid()
  {
    item.effectiveSlot < CurrentSlot(spec, core)
  }

  lemma {:induction false} ItemsKeepStale<C, V>(spec: Spec<C, V>, st: State<C, V>, items: seq<QueueItem>,
      item: QueueItem)
    requires spec.Valid() && item in st.queue + items && IsStale(spec, st.core, item)
    ensures item in ProcessItems(spec, st, items).0.queue
    decreases BlockCount(st.queue) + BlockCount(items), 1, |items|
  {
    if items != [] {
      var head, rest := items[0], items[1..];
      if IsEarly(spec, st.core, head) {
        ItemsKeepStale(spec, Enqueue(st, head), rest, item);
      } else {
        assert item in st.queue + rest;
        if head.IsAttestation() {
          ItemsKeepStale(spec, ProcessAttestation(spec, st, head.message.attestation, false).0, rest, item);
        } else {
          var next := ProcessBlock(spec, st, head.message.block, true).0;
          BlockTimeStays(spec, st, head.message.block, true);
          if item in st.queue {
            BlockKeepsStale(spec, st, head.message.block, true, item);
          }
          ItemsKeepStale(spec, next, rest, item);
        }
      }
    }
  }

  lemma {:induction false} PurgeKeepsStale<C, V>(spec: Spec<C, V>, st: State<C, V>, item: QueueItem)
    requires spec.Valid() && item in st.queue && IsStale(spec, st.core, item)
    ensures item in PurgeQueue(spec, st).0.queue
    decreases BlockCount(st.queue), 3, 0
  {
    ItemsKeepStale(spec, st.(queue := []), st.queue, item);
    OneRoundIsEnough(spec, st);
  }

  lemma {:induction false} BlockKeepsStale<C, V>(spec: Spec<C, V>, st: State<C, V>, block: Block, recovery: bool,
      item: QueueItem)
    requires spec.Valid() && item in st.queue && IsStale(spec, st.core, item)
    ensures item in ProcessBlock(spec, st, block, recovery).0.queue
    decreases BlockCount(st.queue), 4, 0
  {
    var core := OnBlock(spec, st.core, block);
    if core.Some? {
      var accepted := Outcome(BlockMessage(block), st.core, st.votes, false, true);
      var applied := st.(core := core.value, outcomes := st.outcomes + [accepted]);
      PurgeKeepsStale(spec, applied, item);
      AttestationsKeep(spec, PurgeQueue(spec, applied).0, block.attestations, item);
    }
  }

  lemma {:induction false} AttestationsKeep<C, V>(spec: Spec<C, V>, st: State<C, V>, list: seq<Attestation>,
      item: QueueItem)
    requires spec.Valid() && item in st.queue
    ensures item in ProcessAttestations(spec, st, list).queue
    decreases |list|
  {
    if list != [] {
      var next := ProcessAttestation(spec, Receive(st, AttestationMessage(list[0])), list[0], true).0;
      AttestationsKeep(spec, next, list[1..], item);
    }
  }

  lemma {:induction false} TickKeepsStale<C, V>(spec: Spec<C, V>, st: State<C, V>, tickSlot: int, item: QueueItem)
    requires spec.Valid() && item in st.queue && IsStale(spec, st.core, item)
    ensures item in TickTo(spec, st, tickSlot).0.queue && IsStale(spec, TickTo(spec, st, tickSlot).0.core, item)
    decreases tickSlot - CurrentSlot(spec, st.core)
  {
    if CurrentSlot(spec, st.core) < tickSlot {
      var time := NextSlotTime(spec, st.core);
      SlotAfterTick(spec, st.core);
      var ticked := st.(core := OnTick(spec, st.core, time));
      PurgeKeepsStale(spec, ticked, item);
      TimeStays(spec, ticked);
      TickKeepsStale(spec, PurgeQueue(spec, ticked).0, tickSlot, item);
    }
  }

  lemma PerformKeepsStale<C, V>(spec: Spec<C, V>, st: State<C, V>, op: Operation, item: QueueItem)
    requires spec.Valid() && item in st.queue && IsStale(spec, st.core, item)
    ensures item in Perform(spec, st, op).0.queue && IsStale(spec, Perform(spec, st, op).0.core, item)
  {
    hide ProcessBlock, TickTo, BlockCount, AllEarly;
    match op
    case Tick(time) =>
      TickKeepsStale(spec, st, (time - st.core.genesisTime) / spec.secondsPerSlot, item);
    case Submit(message) =>
      if message.BlockMessage? {
        BlockTimeStays(spec, Receive(st, message), message.block, false);
        BlockKeepsStale(spec, Receive(st, message), message.block, false, item);
      }
    case SubmitSlashing(_) =>
  }

  /** Once its slot has passed, a queued message is never delivered: no run takes it out of the queue. */
  lemma {:induction false} StaleMessagesWaitForever<C, V>(spec: Spec<C, V>, st: State<C, V>, ops: seq<Operation>,
      item: QueueItem)
    requires spec.Valid() && item in st.queue && IsStale(spec, st.core, item)
    ensures item in Run(spec, st, ops).0.queue
    decreases |ops|
  {
    hide Perform, IsStale;
    if ops != [] {
      PerformKeepsStale(spec, st, ops[0], item);
      StaleMessagesWaitForever(spec, Perform(spec, st, ops[0]).0, ops[1..], item);
    }
  }

  lemma QuiescentPurge<C, V>(spec: Spec<C, V>, st: State<C, V>)
    requires spec.Valid() && AllEarly(spec, st.core, st.queue)
    ensures PurgeQueue(spec, st) == (st, [])
  {
    QuiescentItems(spec, st.(queue := []), st.queue);
    assert [] + st.queue == st.queue;
  }

  /** One-second slots, and handlers without further conditions. */
  function LenientSpec(): Spec<(), ()> {
    Spec(1, (core: Core<()>, b: Block) => Some(()), (core: Core<()>, t: int) => (),
         (core: Core<()>, v: (), a: Attestation, fromBlock: bool) => (true, ()),
         (core: Core<()>, v: (), s: Slashing) => (true, ()))
  }

  /** Slot 3, over a store that knows block 0 only. */
  function SlotThree(): State<(), ()> {
    State(Core(3, 0, {0}, ()), (), [], [], multiset{})
  }

  /** A block of the slot before, and its parent of the slot before that. */
  const CHILD := Block(2, 2, 1, [], [])
  const PARENT := Block(1, 1, 0, [], [])

  /** The child is queued, since its parent is unknown. */
  lemma ChildIsQueued()
    ensures
      var item := MakeItem(BlockMessage(CHILD), false);
      Perform(LenientSpec(), SlotThree(), Submit(BlockMessage(CHILD))).0
        == Enqueue(Receive(SlotThree(), BlockMessage(CHILD)), item)
  {
    hide AllEarly, BlockCount;
    assert 1 in MakeItem(BlockMessage(CHILD), false).dependencies;
  }

  /** The parent is accepted, and the purge that follows leaves the child where it is. */
  lemma ParentIsAccepted(st: State<(), ()>)
    requires st.core == SlotThree().core && st.queue == [MakeItem(BlockMessage(CHILD), false)]
    ensures
      var last := Perform(LenientSpec(), st, Submit(BlockMessage(PARENT))).0;
      last.queue == st.queue && last.core == Core(3, 0, {0, 1}, ())
  {
    hide PurgeQueue, BlockCount;
    var spec, message := LenientSpec(), BlockMessage(PARENT);
    var core := Core(3, 0, {0} + {1}, ());
    assert {0} + {1} == {0, 1};
    assert OnBlock(spec, st.core, PARENT) == Some(core);
    var received := Receive(st, message);
    var accepted := Outcome(message, st.core, st.votes, false, true);
    var applied := received.(core := core, outcomes := st.outcomes + [accepted]);
    assert IsEarly(spec, core, st.queue[0]);
    QuiescentPurge(spec, applied);
    assert ProcessBlockMessages(spec, applied, PARENT) == applied;
    assert ProcessBlock(spec, received, PARENT, false).0 == applied;
  }

  /** A run that queues a message for good: a block of a past slot arrives before its parent. The parent is accepted,
      so that the handler would now accept the block; it stays in the queue whatever happens next. */
  lemma ChildWaitsForever(ops: seq<Operation>)
    ensures Initial(SlotThree()) && LenientSpec().Valid()
    ensures
      var arrivals := [Submit(BlockMessage(CHILD)), Submit(BlockMessage(PARENT))];
      && OnBlock(LenientSpec(), Run(LenientSpec(), SlotThree(), arrivals).0.core, CHILD).Some?
      && MakeItem(BlockMessage(CHILD), false) in Run(LenientSpec(), SlotThree(), arrivals + ops).0.queue
  {
    hide Perform, Run, BlockCount;
    var spec, start := LenientSpec(), SlotThree();
    var first, second := Submit(BlockMessage(CHILD)), Submit(BlockMessage(PARENT));
    var item := MakeItem(BlockMessage(CHILD), false);
    ChildIsQueued();
    var queued := Perform(spec, start, first).0;
    assert queued.queue == [item];
    ParentIsAccepted(queued);
    TwoThenMore(spec, start, first, second, ops);
    StaleMessagesWaitForever(spec, Perform(spec, queued, second).0, ops, item);
  }

  lemma TwoThenMore<C, V>(spec: Spec<C, V>, st: State<C, V>, first: Operation, second: Operation, ops: seq<Operation>)
    requires spec.Valid()
    ensures
      var last := Perform(spec, Perform(spec, st, first).0, second).0;
      && Run(spec, st, [first, second]).0 == last
      && Run(spec, st, [first, second] + ops).0 == Run(spec, last, ops).0
  {
    hide Perform;
    var both := [first, second];
    assert both[1..] == [second] && [second][1..] == [];
    assert (both + ops)[1..] == [second] + ops && ([second] + ops)[1..] == ops;
    var next := Perform(spec, st, first).0;
    assert Run(spec, next, [second] + ops).0 == Run(spec, Perform(spec, next, second).0, ops).0;
    assert Run(spec, next, [second]).0 == Perform(spec, next, second).0;
  }

  // ----- One turn of the drain -----

  /** Every item waits for the slot and the roots of its message. */
  ghost predicate Made(items: seq<QueueItem>) {
    forall i :: 0 <= i < |items| ==> items[i] == MakeItem(items[i].message, items[i].isFromBlock)
  }

  /** No outcome is taken back, and no item is queued that does not wait for what its message needs. */
  ghost predicate Later<C, V>(a: State<C, V>, items: seq<QueueItem>, b: State<C, V>) {
    a.outcomes <= b.outcomes && (Made(a.queue) && Made(items) ==> Made(b.queue))
  }

  lemma LaterTrans<C, V>(a: State<C, V>, items: seq<QueueItem>, b: State<C, V>, rest: seq<QueueItem>, c: State<C, V>)
    requires Later(a, items, b) && Later(b, rest, c) && (Made(items) ==> Made(rest))
    ensures Later(a, items, c)
  {
    hide Made;
  }

  lemma {:induction false} AttestationsLater<C, V>(spec: Spec<C, V>, st: State<C, V>, list: seq<Attestation>)
    requires spec.Valid()
    ensures Later(st, [], ProcessAttestations(spec, st, list))
    decreases |list|
  {
    if list != [] {
      var next := ProcessAttestation(spec, Receive(st, AttestationMessage(list[0])), list[0], true).0;
      AttestationsLater(spec, next, list[1..]);
      LaterTrans(st, [], next, [], ProcessAttestations(spec, st, list));
    }
  }

  lemma {:induction false} ItemsLater<C, V>(spec: Spec<C, V>, st: State<C, V>, items: seq<QueueItem>)
    requires spec.Valid()
    ensures Later(st, items, ProcessItems(spec, st, items).0)
    decreases BlockCount(st.queue) + BlockCount(items), 1, |items|
  {
    hide AllEarly, IsEarly, ProcessBlock;
    if items != [] {
      var head, rest := items[0], items[1..];
      if IsEarly(spec, st.core, head) {
        ItemsLater(spec, Enqueue(st, head), rest);
        LaterTrans(st, items, Enqueue(st, head), rest, ProcessItems(spec, st, items).0);
      } else {
        var next := if head.IsAttestation() then ProcessAttestation(spec, st, head.message.attestation, false).0
                    else ProcessBlock(spec, st, head.message.block, true).0;
        if !head.IsAttestation() {
          BlockLater(spec, st, head.message.block, true);
        }
        assert Later(st, items, next);
        ItemsLater(spec, next, rest);
        LaterTrans(st, items, next, rest, ProcessItems(spec, st, items).0);
      }
    }
  }

  lemma {:induction false} PurgeLater<C, V>(spec: Spec<C, V>, st: State<C, V>)
    requires spec.Valid()
    ensures Later(st, [], PurgeQueue(spec, st).0)
    decreases BlockCount(st.queue), 3, 0
  {
    hide AllEarly, IsEarly, ProcessItems;
    ItemsLater(spec, st.(queue := []), st.queue);
    OneRoundIsEnough(spec, st);
  }

  lemma {:induction false} BlockLater<C, V>(spec: Spec<C, V>, st: State<C, V>, block: Block, recovery: bool)
    requires spec.Valid()
    ensures Later(st, [], ProcessBlock(spec, st, block, recovery).0)
    decreases BlockCount(st.queue), 4, 0
  {
    hide AllEarly, IsEarly, PurgeQueue, ProcessAttestations;
    var core := OnBlock(spec, st.core, block);
    if core.Some? {
      var accepted := Outcome(BlockMessage(block), st.core, st.votes, false, true);
      var applied := st.(core := core.value, outcomes := st.outcomes + [accepted]);
      PurgeLater(spec, applied);
      var purged := PurgeQueue(spec, applied).0;
      LaterTrans(st, [], applied, [], purged);
      AttestationsLater(spec, purged, block.attestations);
      LaterTrans(st, [], purged, [], ProcessAttestations(spec, purged, block.attestations));
    }
  }

  lemma {:induction false} TickLater<C, V>(spec: Spec<C, V>, st: State<C, V>, tickSlot: int)
    requires spec.Valid()
    ensures Later(st, [], TickTo(spec, st, tickSlot).0)
    decreases tickSlot - CurrentSlot(spec, st.core)
  {
    hide AllEarly, IsEarly, PurgeQueue;
    if CurrentSlot(spec, st.core) < tickSlot {
      SlotAfterTick(spec, st.core);
      var ticked := st.(core := OnTick(spec, st.core, NextSlotTime(spec, st.core)));
      var purged := PurgeQueue(spec, ticked).0;
      PurgeLater(spec, ticked);
      TimeStays(spec, ticked);
      TickLater(spec, purged, tickSlot);
      LaterTrans(st, [], purged, [], TickTo(spec, st, tickSlot).0);
    }
  }

  /** In every run, each queued item waits for the slot and the roots of its message. */
  lemma {:induction false} QueueIsMade<C, V>(spec: Spec<C, V>, st: State<C, V>, ops: seq<Operation>)
    requires spec.Valid() && Made(st.queue)
    ensures Made(Run(spec, st, ops).0.queue)
    decreases |ops|
  {
    hide AllEarly, IsEarly, ProcessBlock, TickTo;
    if ops != [] {
      match ops[0] {
        case Tick(time) => TickLater(spec, st, (time - st.core.genesisTime) / spec.secondsPerSlot);
        case Submit(message) =>
          if message.BlockMessage? {
            BlockLater(spec, Receive(st, message), message.block, false);
          }
        case SubmitSlashing(_) =>
      }
      QueueIsMade(spec, Perform(spec, st, ops[0]).0, ops[1..]);
    }
  }

  lemma {:induction false} ItemsSplit<C, V>(spec: Spec<C, V>, st: State<C, V>, a: seq<QueueItem>, b: seq<QueueItem>)
    requires spec.Valid()
    ensures ProcessItems(spec, st, a + b).0 == ProcessItems(spec, ProcessItems(spec, st, a).0, b).0
    decreases |a|
  {
    hide AllEarly, IsEarly, ProcessBlock, ProcessAttestation, BlockCount;
    if a == [] {
      assert a + b == b;
    } else {
      var head, rest := a[0], a[1..];
      assert (a + b)[0] == head && (a + b)[1..] == rest + b;
      if IsEarly(spec, st.core, head) {
        ItemsSplit(spec, Enqueue(st, head), rest, b);
      } else if head.IsAttestation() {
        ItemsSplit(spec, ProcessAttestation(spec, st, head.message.attestation, false).0, rest, b);
      } else {
        ItemsSplit(spec, ProcessBlock(spec, st, head.message.block, true).0, rest, b);
      }
    }
  }

  /** The outcome that message gets when it is handed over in state `a`, as recorded by state `b`. */
  ghost predicate Hands<C, V>(a: State<C, V>, message: Message, b: State<C, V>) {
    var n := |a.outcomes|;
    n < |b.outcomes| && b.outcomes[n] == Outcome(message, a.core, a.votes, false, b.outcomes[n].accepted)
  }

  lemma OneTurn<C, V>(spec: Spec<C, V>, st: State<C, V>, item: QueueItem)
    requires spec.Valid() && item == MakeItem(item.message, item.isFromBlock)
    ensures
      var next := ProcessItems(spec, st, [item]).0;
      if IsEarly(spec, st.core, item) then next == Enqueue(st, item) else Hands(st, item.message, next)
  {
    hide AllEarly, PurgeQueue, ProcessAttestations, BlockCount;
    assert [item][1..] == [];
    if !IsEarly(spec, st.core, item) && item.message.BlockMessage? {
      var block := item.message.block;
      var core := OnBlock(spec, st.core, block);
      if core.Some? {
        var accepted := Outcome(BlockMessage(block), st.core, st.votes, false, true);
        var applied := st.(core := core.value, outcomes := st.outcomes + [accepted]);
        PurgeLater(spec, applied);
        AttestationsLater(spec, PurgeQueue(spec, applied).0, block.attestations);
      }
    }
  }

  /** The converse: a drain gives every item one turn, and lets go of it exactly if it is not early at that turn.
      An early item goes back to the end of the queue; any other gets its outcome there and then. */
  lemma TurnDecides<C, V>(spec: Spec<C, V>, st: State<C, V>, k: nat)
    requires spec.Valid() && Made(st.queue) && k < |st.queue|
    ensures
      var item, last := st.queue[k], ProcessQueue(spec, st).0;
      var before := ProcessItems(spec, st.(queue := []), st.queue[..k]).0;
      var after := ProcessItems(spec, before, [item]).0;
      && last == ProcessItems(spec, after, st.queue[k + 1..]).0
      && (IsEarly(spec, before.core, item) ==> after == Enqueue(before, item))
      && (!IsEarly(spec, before.core, item) ==> Hands(before, item.message, last))
  {
    hide AllEarly, ProcessItems, IsEarly;
    var queue, drained := st.queue, st.(queue := []);
    var item, before := queue[k], ProcessItems(spec, drained, queue[..k]).0;
    var after := ProcessItems(spec, before, [item]).0;
    assert queue == queue[..k] + ([item] + queue[k + 1..]);
    ItemsSplit(spec, drained, queue[..k], [item] + queue[k + 1..]);
    ItemsSplit(spec, before, [item], queue[k + 1..]);
    OneTurn(spec, before, item);
    ItemsLater(spec, after, queue[k + 1..]);
  }

  /** What becomes of a refused attestation: it is kept exactly if one of its roots is unknown, or the slot after
      its own has passed. */
  lemma RefusedAttestation<C, V>(spec: Spec<C, V>, st: State<C, V>, a: Attestation, isFromBlock: bool)
    requires spec.Valid() && !spec.attest(st.core, st.votes, a, isFromBlock).0
    ensures
      var (next, ok) := ProcessAttestation(spec, st, a, isFromBlock);
      var unknown := a.beaconBlockRoot !in st.core.blocks || a.targetRoot !in st.core.blocks;
      var kept := unknown || a.slot + 1 < CurrentSlot(spec, st.core);
      !ok && next.core == st.core
      && (kept <==> |next.queue| == |st.queue| + 1) && (!kept <==> next.queue == st.queue)
  {
    hide BlockCount, CurrentSlot;
    var item := MakeItem(AttestationMessage(a), isFromBlock);
    assert a.beaconBlockRoot in item.dependencies && a.targetRoot in item.dependencies;
  }

  /** What becomes of a refused block: it is kept exactly if its parent is unknown, or its slot has passed. */
  lemma RefusedBlock<C, V>(spec: Spec<C, V>, st: State<C, V>, block: Block, recovery: bool)
    requires spec.Valid() && OnBlock(spec, st.core, block).None?
    ensures
      var (next, ok, events) := ProcessBlock(spec, st, block, recovery);
      var kept := block.parentRoot !in st.core.blocks || block.slot < CurrentSlot(spec, st.core);
      !ok && events == [] && next.core == st.core
      && (kept <==> |next.queue| == |st.queue| + 1) && (!kept <==> next.queue == st.queue)
  {
    hide BlockCount, CurrentSlot;
    var item := MakeItem(BlockMessage(block), false);
    assert block.parentRoot in item.dependencies;
  }

  /** And a message from a coming slot whose dependencies are known is refused for good, not kept for later. */
  lemma FutureBlocksAreRefused<C, V>(spec: Spec<C, V>, st: State<C, V>, block: Block, recovery: bool)
    requires spec.Valid() && block.parentRoot in st.core.blocks && CurrentSlot(spec, st.core) < block.slot
    ensures
      var (next, ok, events) := ProcessBlock(spec, st, block, recovery);
      !ok && next.core == st.core && next.queue == st.queue
      && next.outcomes == st.outcomes + [Outcome(BlockMessage(block), st.core, st.votes, false, false)]
  {
  }
}
