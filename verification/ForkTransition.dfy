/** Advancing a state across fork boundaries (`fork_transition.py`, `forks.py`). */
module ForkTransition {
  import opened Slots
  import opened Wrappers

  type Fork = string

  /** The fork schedule: the forks in their listed order, the predecessor of each, and its epoch. */
  datatype Phases = Phases(order: seq<Fork>, previous: map<Fork, Option<Fork>>, epochs: map<Fork, nat>) {
    predicate Valid() {
      forall f :: f in order ==> f in previous && f in epochs
    }
  }

  /** Position i holds the first listed fork whose predecessor is the given one. */
  ghost predicate IsFirst(order: seq<Fork>, phases: Phases, fork: Fork, i: nat)
    requires forall f :: f in order ==> f in phases.previous
  {
    && i < |order| && phases.previous[order[i]] == Some(fork)
    && forall j :: 0 <= j < i ==> phases.previous[order[j]] != Some(fork)
  }

  /** The first listed fork whose predecessor is the given one. */
  function NextFork(order: seq<Fork>, phases: Phases, fork: Fork): (next: Option<Fork>)
    requires phases.Valid() && forall f :: f in order ==> f in phases.order
    ensures next.None? <==> forall f :: f in order ==> phases.previous[f] != Some(fork)
    ensures next.Some? ==> next.value in order && phases.previous[next.value] == Some(fork)
  {
    if order == [] then None
    else if phases.previous[order[0]] == Some(fork) then Some(order[0])
    else NextFork(order[1..], phases, fork)
  }

  /** It is indeed the first one. */
  lemma {:induction false} NextForkIsFirst(order: seq<Fork>, phases: Phases, fork: Fork) returns (i: nat)
    requires phases.Valid() && forall f :: f in order ==> f in phases.order
    requires NextFork(order, phases, fork).Some?
    ensures IsFirst(order, phases, fork, i) && NextFork(order, phases, fork) == Some(order[i])
  {
    i := 0;
    if phases.previous[order[0]] != Some(fork) {
      var k := NextForkIsFirst(order[1..], phases, fork);
      forall j | 0 <= j < k + 1 ensures phases.previous[order[j]] != Some(fork) {
        assert j > 0 ==> order[1..][j - 1] == order[j];
      }
      i := k + 1;
    }
  }

  /** `Failed` is the source's assertion that forks through the given epoch are already applied. */
  datatype Next = Latest | Upcoming(fork: Fork, epoch: nat) | Failed

  function GetNextForkTransition(phases: Option<Phases>, fork: Fork, epoch: nat): Next
    requires phases.Some? ==> phases.value.Valid()
  {
    if phases.None? then Latest
    else
      match NextFork(phases.value.order, phases.value, fork)
      case None => Latest
      case Some(next) => if phases.value.epochs[next] > epoch then Upcoming(next, phases.value.epochs[next]) else Failed
  }

  datatype Upgrade = Upgrade(fork: Fork, slot: nat)
  datatype SignedBlock = SignedBlock(fork: Fork, slot: nat)

  /** The parts of a beacon state that fork handling looks at; `upgrades` records the upgrades applied to it. */
  class BeaconState {
    var slot: nat
    var currentFork: Fork
    var previousFork: Option<Fork>
    var forkEpoch: nat
    ghost var upgrades: seq<Upgrade>

    constructor (slot: nat, currentFork: Fork, previousFork: Option<Fork>, forkEpoch: nat)
      ensures this.slot == slot && this.currentFork == currentFork && this.previousFork == previousFork
      ensures this.forkEpoch == forkEpoch && upgrades == []
    {
      this.slot, this.currentFork, this.previousFork, this.forkEpoch := slot, currentFork, previousFork, forkEpoch;
      upgrades := [];
    }

    method NextSlot()
      modifies this`slot
      ensures slot == old(slot) + 1
    {
      slot := slot + 1;
    }

    /** One slot at a time; the source's assertion that the target is not behind becomes a result. */
    method TransitionTo(target: nat) returns (ok: bool)
      modifies this`slot
      ensures ok <==> old(slot) <= target
      ensures slot == if ok then target else old(slot)
    {
      if slot > target {
        return false;
      }
      for k := slot to target
        invariant slot == k
      {
        NextSlot();
      }
      ok := true;
    }

    /** The upgrade function of a fork. */
    method UpgradeTo(fork: Fork, slotsPerEpoch: nat)
      requires slotsPerEpoch > 0
      modifies this
      ensures slot == old(slot) && currentFork == fork && previousFork == Some(old(currentFork))
      ensures forkEpoch == EpochAtSlot(slot, slotsPerEpoch)
      ensures upgrades == old(upgrades) + [Upgrade(fork, slot)]
    {
      previousFork, currentFork, forkEpoch := Some(currentFork), fork, slot / slotsPerEpoch;
      upgrades := upgrades + [Upgrade(fork, slot)];
    }
  }

  /** Crosses one boundary: the last slot of the old fork, then the upgrade, then possibly a block in the first slot.
      `ok` is false where one of the source's assertions fails. */
  method DoFork(state: BeaconState, phases: Phases, postFork: Fork, forkEpoch: nat, slotsPerEpoch: nat, withBlock: bool)
    returns (ok: bool, block: Option<SignedBlock>)
    requires slotsPerEpoch > 0 && postFork in phases.previous
    modifies state
    ensures ok <==>
      && old(state.slot) + 1 == forkEpoch * slotsPerEpoch
      && phases.previous[postFork] == Some(old(state.currentFork))
    ensures ok ==>
      && state.slot == old(state.slot) + 1 && state.currentFork == postFork && state.forkEpoch == forkEpoch
      && state.previousFork == Some(old(state.currentFork))
      && state.upgrades == old(state.upgrades) + [Upgrade(postFork, state.slot)]
      && block == if withBlock then Some(SignedBlock(postFork, state.slot)) else None
  {
    block := None;
    state.NextSlot();
    ghost var q := state.slot / slotsPerEpoch;
    BoundarySlot(q, slotsPerEpoch);
    BoundarySlot(forkEpoch, slotsPerEpoch);
    if state.slot % slotsPerEpoch != 0 {
      return false, None;
    }
    if state.slot / slotsPerEpoch != forkEpoch {
      return false, None;
    }
    assert state.slot == q * slotsPerEpoch;
    state.UpgradeTo(postFork, slotsPerEpoch);
    if state.previousFork != phases.previous[postFork] || state.currentFork != postFork {
      return false, None;
    }
    ok := true;
    if withBlock {
      block := Some(SignedBlock(postFork, state.slot));
    }
  }

  /** Waits for the last slot before a fork. */
  method TransitionUntilFork(state: BeaconState, forkEpoch: nat, slotsPerEpoch: nat) returns (ok: bool)
    requires forkEpoch * slotsPerEpoch > 0
    modifies state`slot
    ensures ok <==> old(state.slot) < forkEpoch * slotsPerEpoch
    ensures state.slot == if ok then forkEpoch * slotsPerEpoch - 1 else old(state.slot)
  {
    ok := state.TransitionTo(forkEpoch * slotsPerEpoch - 1);
  }

  // ----- Linear chains of forks -----

  /** The forks that follow one another from a given one on. */
  ghost predicate IsChain(phases: Option<Phases>, chain: seq<Fork>) {
    && |chain| > 0
    && (phases.None? ==> |chain| == 1)
    && (phases.Some? ==>
          var p := phases.value;
          && p.Valid()
          && (forall i :: 0 <= i < |chain| - 1 ==> NextFork(p.order, p, chain[i]) == Some(chain[i + 1]))
          && NextFork(p.order, p, chain[|chain| - 1]) == None)
  }

  function EpochOf(phases: Option<Phases>, fork: Fork): nat {
    if phases.Some? && fork in phases.value.epochs then phases.value.epochs[fork] else 0
  }

  /** A way to go: the chain of forks from the one of the start slot on, and the target slot. */
  datatype Way = Way(phases: Option<Phases>, chain: seq<Fork>, slotsPerEpoch: nat, start: nat, toSlot: nat) {
    ghost predicate Valid() { slotsPerEpoch > 0 && IsChain(phases, chain) }

    function Epoch(k: nat): nat
      requires k < |chain|
    {
      EpochOf(phases, chain[k])
    }

    /** The slot at which the loop looks for the next fork, once k forks are crossed. */
    function Reached(k: nat): nat
      requires k < |chain|
    {
      if k == 0 then start else Epoch(k) * slotsPerEpoch
    }

    function ToEpoch(): nat
      requires slotsPerEpoch > 0
    {
      EpochAtSlot(toSlot, slotsPerEpoch)
    }

    /** The loop crosses the first k forks: each is still to come when it is looked up before the target, and due
        there. */
    ghost predicate Crosses(k: nat)
      requires slotsPerEpoch > 0
    {
      && k < |chain|
      && (k == 0
          || (Crosses(k - 1) && Reached(k - 1) < toSlot
              && EpochAtSlot(Reached(k - 1), slotsPerEpoch) < Epoch(k) <= ToEpoch()))
    }

    /** After k crossings, still before the target, the next fork is already due: the source's assertion fails. */
    ghost predicate Stuck(k: nat)
      requires slotsPerEpoch > 0
    {
      && Crosses(k) && Reached(k) < toSlot && k + 1 < |chain|
      && Epoch(k + 1) <= EpochAtSlot(Reached(k), slotsPerEpoch)
    }

    /** After k crossings the loop needs to cross no further fork. */
    ghost predicate Ends(k: nat)
      requires slotsPerEpoch > 0
    {
      Crosses(k) && (Reached(k) == toSlot || (k + 1 < |chain| ==> ToEpoch() < Epoch(k + 1)))
    }

    /** The upgrades for the forks after the first, up to position k. */
    function Upgrades(k: nat): (u: seq<Upgrade>)
      requires k < |chain|
      ensures |u| == k
      ensures forall i :: 0 <= i < k ==> u[i] == Upgrade(chain[i + 1], Epoch(i + 1) * slotsPerEpoch)
    {
      if k == 0 then [] else Upgrades(k - 1) + [Upgrade(chain[k], Epoch(k) * slotsPerEpoch)]
    }
  }

  lemma ChainNext(phases: Option<Phases>, chain: seq<Fork>, k: nat, epoch: nat)
    requires IsChain(phases, chain) && k < |chain|
    ensures
      var next := GetNextForkTransition(phases, chain[k], epoch);
      if k + 1 == |chain| then next == Latest
      else if EpochOf(phases, chain[k + 1]) > epoch then next == Upcoming(chain[k + 1], EpochOf(phases, chain[k + 1]))
      else next == Failed
    ensures k + 1 < |chain| ==>
      && phases.Some? && chain[k + 1] in phases.value.previous
      && phases.value.previous[chain[k + 1]] == Some(chain[k])
  {
  }

  lemma {:induction false} CrossesPrefix(way: Way, j: nat, k: nat)
    requires way.slotsPerEpoch > 0 && j <= k && way.Crosses(k)
    ensures way.Crosses(j)
    decreases k
  {
    if j < k {
      CrossesPrefix(way, j, k - 1);
    }
  }

  /** A crossing moves forward, and not past the target. */
  lemma CrossingSlots(way: Way, k: nat)
    requires way.slotsPerEpoch > 0 && k > 0 && way.Crosses(k)
    ensures way.Reached(k - 1) < way.Reached(k) <= way.toSlot
  {
    hide EpochAtSlot;
    EpochOrder(way.Reached(k - 1), way.Epoch(k), way.slotsPerEpoch);
    EpochOrder(way.toSlot, way.Epoch(k), way.slotsPerEpoch);
  }

  /** Where the loop ends it was never stuck, and it ends in one place only. */
  lemma EndsUnstuck(way: Way, k: nat, j: nat)
    requires way.slotsPerEpoch > 0 && way.Ends(k)
    ensures !way.Stuck(j) && (way.Ends(j) ==> j == k)
  {
    hide EpochAtSlot;
    if j > k && way.Crosses(j) {
      CrossesPrefix(way, k + 1, j);
    } else if j < k {
      CrossesPrefix(way, j + 1, k);
    }
    if way.Stuck(j) && j == k {
      EpochMonotone(way.Reached(k), way.toSlot, way.slotsPerEpoch);
    }
  }

  /** If the epochs increase as far as the target's epoch, only the first fork to come can be due too early. */
  lemma IncreasingNeverSticks(way: Way, k: nat)
    requires way.slotsPerEpoch > 0
    requires |way.chain| > 1 ==> EpochAtSlot(way.start, way.slotsPerEpoch) < way.Epoch(1)
    requires forall i :: 0 < i < |way.chain| - 1 && way.Epoch(i) <= way.ToEpoch() ==> way.Epoch(i) < way.Epoch(i + 1)
    ensures !way.Stuck(k)
  {
    if way.Stuck(k) && k > 0 {
      BoundarySlot(way.Epoch(k), way.slotsPerEpoch);
    }
  }

  /** And then the loop ends under the last fork that is due at the target: all forks up to it are due, and the next one
      is not. */
  lemma EndsAtLastDue(way: Way, k: nat)
    requires way.slotsPerEpoch > 0 && way.start < way.toSlot && way.Ends(k)
    requires forall i :: 0 < i < |way.chain| - 1 && way.Epoch(i) <= way.ToEpoch() ==> way.Epoch(i) < way.Epoch(i + 1)
    ensures forall j :: 0 < j <= k ==> way.Epoch(j) <= way.ToEpoch()
    ensures k + 1 < |way.chain| ==> way.ToEpoch() < way.Epoch(k + 1)
  {
    hide EpochAtSlot;
    forall j | 0 < j <= k ensures way.Epoch(j) <= way.ToEpoch() {
      CrossesPrefix(way, j, k);
    }
    if k > 0 && way.Reached(k) == way.toSlot {
      BoundarySlot(way.Epoch(k), way.slotsPerEpoch);
    }
  }

  /** If the epochs never decrease, the forks crossed are exactly those that are due at the target. */
  lemma CrossedAreDue(way: Way, k: nat)
    requires way.slotsPerEpoch > 0 && way.start < way.toSlot && way.Ends(k)
    requires forall i :: 0 < i < |way.chain| - 1 ==> way.Epoch(i) <= way.Epoch(i + 1)
    requires forall i :: 0 < i < |way.chain| - 1 && way.Epoch(i) <= way.ToEpoch() ==> way.Epoch(i) < way.Epoch(i + 1)
    ensures forall j :: 0 < j < |way.chain| ==> (way.Epoch(j) <= way.ToEpoch() <==> j <= k)
  {
    EndsAtLastDue(way, k);
    forall j | k < j < |way.chain| ensures way.ToEpoch() < way.Epoch(j) {
      LaterIsLater(way, k + 1, j);
    }
  }

  lemma {:induction false} LaterIsLater(way: Way, i: nat, j: nat)
    requires 0 < i <= j < |way.chain|
    requires forall n :: 0 < n < |way.chain| - 1 ==> way.Epoch(n) <= way.Epoch(n + 1)
    ensures way.Epoch(i) <= way.Epoch(j)
    decreases j
  {
    if i < j {
      LaterIsLater(way, i, j - 1);
      assert way.Epoch(j - 1) <= way.Epoch(j - 1 + 1);
    }
  }

  // ----- The loop -----

  /** The state of the loop once k forks are crossed. */
  ghost predicate At(way: Way, k: nat, fork: Fork, state: BeaconState)
    reads state
    requires way.slotsPerEpoch > 0
  {
    && way.Crosses(k) && fork == way.chain[k] == state.currentFork
    && state.upgrades == way.Upgrades(k)
  }

  /** A block is made if the target is the slot of the last crossing, or the slot after it or after the start. */
  function BlockAt(way: Way, withBlock: bool, k: nat): Option<SignedBlock>
    requires k < |way.chain|
  {
    if withBlock && way.toSlot <= way.Reached(k) + 1 then Some(SignedBlock(way.chain[k], way.toSlot)) else None
  }

  /** The block in terms of what was asked for and of the last upgrade. */
  lemma BlockMade(way: Way, withBlock: bool, k: nat)
    requires way.slotsPerEpoch > 0 && way.Crosses(k) && way.start < way.toSlot
    ensures
      var block, upgrades := BlockAt(way, withBlock, k), way.Upgrades(k);
      && (block.Some? <==>
            && withBlock
            && if upgrades == [] then way.toSlot == way.start + 1
               else
                 var last := upgrades[|upgrades| - 1].slot;
                 way.toSlot == last || way.toSlot == last + 1)
      && (block.Some? ==> block.value.slot == way.toSlot && block.value.fork == way.chain[k])
  {
    if k > 0 {
      CrossingSlots(way, k);
    }
  }

  /** The fork record once k forks are crossed, from the one at the start. */
  ghost predicate RecordAt(way: Way, k: nat, previous: Option<Fork>, epoch: nat, nowPrevious: Option<Fork>,
      nowEpoch: nat)
    requires k < |way.chain|
  {
    if k == 0 then nowPrevious == previous && nowEpoch == epoch
    else nowPrevious == Some(way.chain[k - 1]) && nowEpoch == way.Epoch(k)
  }

  /** One crossing: waits for the boundary, and applies the fork. */
  method Cross(ghost way: Way, ghost k: nat, fork: Fork, state: BeaconState, phases: Phases, next: Fork, epoch: nat,
      toSlot: nat, slotsPerEpoch: nat, withBlock: bool)
    returns (block: Option<SignedBlock>)
    requires way == Way(Some(phases), way.chain, slotsPerEpoch, way.start, toSlot) && way.Valid()
    requires At(way, k, fork, state) && way.Crosses(k + 1) && next == way.chain[k + 1] && epoch == way.Epoch(k + 1)
    requires state.slot == way.Reached(k)
    modifies state
    ensures At(way, k + 1, next, state) && state.slot == way.Reached(k + 1)
    ensures state.previousFork == Some(fork) && state.forkEpoch == epoch
    ensures block == if way.Reached(k + 1) == toSlot then BlockAt(way, withBlock, k + 1) else None
  {
    hide IsChain, EpochAtSlot;
    CrossingSlots(way, k + 1);
    ChainNext(way.phases, way.chain, k, 0);
    var reached := TransitionUntilFork(state, epoch, slotsPerEpoch);
    var applied;
    applied, block := DoFork(state, phases, next, epoch, slotsPerEpoch, withBlock && toSlot == state.slot + 1);
  }

  /** The last stretch, in which no fork is crossed. */
  method Finish(ghost way: Way, ghost k: nat, fork: Fork, state: BeaconState, toSlot: nat, withBlock: bool)
    returns (block: Option<SignedBlock>)
    requires way.slotsPerEpoch > 0 && way.toSlot == toSlot && At(way, k, fork, state)
    requires state.slot == way.Reached(k) < toSlot
    modifies state`slot
    ensures At(way, k, fork, state) && state.slot == toSlot && block == BlockAt(way, withBlock, k)
  {
    block := None;
    if withBlock && toSlot == state.slot + 1 {
      var reached := state.TransitionTo(toSlot - 1);
      state.NextSlot();
      block := Some(SignedBlock(fork, state.slot));
    } else {
      var reached := state.TransitionTo(toSlot);
    }
  }

  /** The loop of `transition_across_forks`, on a copy of the state. `ok` is false exactly where an assertion of the
      source fails: the target is not ahead, or some fork is already due when it is looked up. Otherwise the copy
      arrives at the target slot where the loop needs to cross no further fork, having applied every fork crossed on
      the way once, in order, at the first slot of its epoch. */
  method TransitionAcrossForks(
      startFork: Fork, given: BeaconState, toSlot: nat, phases: Option<Phases>, slotsPerEpoch: nat, withBlock: bool,
      ghost chain: seq<Fork>)
    returns (ok: bool, fork: Fork, state: BeaconState, block: Option<SignedBlock>, ghost k: nat)
    requires slotsPerEpoch > 0 && IsChain(phases, chain) && chain[0] == startFork == given.currentFork
    ensures fresh(state)
    ensures
      var way := Way(phases, chain, slotsPerEpoch, given.slot, toSlot);
      && (ok <==> given.slot < toSlot && forall j :: !way.Stuck(j))
      && (ok ==>
            && way.Ends(k) && state.slot == toSlot && fork == chain[k] == state.currentFork
            && state.upgrades == way.Upgrades(k))
    // A block is made exactly if one was asked for and the target is the slot after the start, or the first slot of the
    // last fork crossed, or the slot after that.
    ensures ok ==>
      && (block.Some? <==>
            && withBlock
            && if state.upgrades == [] then toSlot == given.slot + 1
               else
                 var last := state.upgrades[|state.upgrades| - 1].slot;
                 toSlot == last || toSlot == last + 1)
      && (block.Some? ==> block.value.slot == toSlot && block.value.fork == fork)
    // The fork record is that of the last upgrade.
    ensures ok ==>
      if k == 0 then state.previousFork == given.previousFork && state.forkEpoch == given.forkEpoch
      else state.previousFork == Some(chain[k - 1]) && state.forkEpoch == EpochOf(phases, fork)
  {
    fork, block, k := startFork, None, 0;
    state := new BeaconState(given.slot, given.currentFork, given.previousFork, given.forkEpoch);
    ghost var way := Way(phases, chain, slotsPerEpoch, given.slot, toSlot);
    if toSlot <= given.slot {
      ok := false;
      return;
    }
    var toEpoch := EpochAtSlot(toSlot, slotsPerEpoch);
    hide IsChain, EpochAtSlot;
    while state.slot < toSlot
      invariant fresh(state) && At(way, k, fork, state)
      invariant RecordAt(way, k, given.previousFork, given.forkEpoch, state.previousFork, state.forkEpoch)
      invariant state.slot < toSlot ==> block == None && state.slot == way.Reached(k)
      invariant state.slot >= toSlot ==> state.slot == toSlot && way.Ends(k) && block == BlockAt(way, withBlock, k)
      decreases toSlot - state.slot
    {
      var epoch := EpochAtSlot(state.slot, slotsPerEpoch);
      var next := GetNextForkTransition(phases, fork, epoch);
      ChainNext(phases, chain, k, epoch);
      if next.Failed? {
        assert way.Stuck(k);
        ok := false;
        return;
      }
      if next.Latest? || toEpoch < next.epoch {
        block := Finish(way, k, fork, state, toSlot, withBlock);
      } else {
        CrossingSlots(way, k + 1);
        block := Cross(way, k, fork, state, phases.value, next.fork, next.epoch, toSlot, slotsPerEpoch, withBlock);
        fork, k := next.fork, k + 1;
      }
    }
    forall j ensures !way.Stuck(j) {
      EndsUnstuck(way, k, j);
    }
    BlockMade(way, withBlock, k);
    ok := true;
  }
}
