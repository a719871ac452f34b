/** What finalization records, keeps and drops (`_process_finalization_for_light_client`, `select_new_head`). */
module LightClientFinality {
  import opened Slots
  import opened Wrappers
  import opened BlockTree
  import opened LightClientData
  import opened LightClientInvariant
  import opened LightClientBlock

  // ----- The finalized chain -----

  /** A state that retains exactly the blocks from f on, with their states. */
  ghost predicate RetainedFrom(s: Store, t: Blocks, genesis: Root, f: Root) {
    && Tree(t, genesis) && f in t && s.blocks == PruneBlocks(t, t[f].slot) && s.latestFinalized.slot == t[f].slot
    && Descending(s.blocks) && forall r :: r in s.blocks ==> s.blocks[r].stateRoot in s.states
  }

  /** On the chain of r, no later block shares the epoch boundary of a. */
  ghost predicate LastOfEpoch(cfg: Config, t: Blocks, genesis: Root, r: Root, a: Root)
    requires cfg.Valid() && Tree(t, genesis) && r in t && a in t
  {
    forall c :: c in t && IsAncestor(t, genesis, c, r) && t[c].slot > t[a].slot ==>
      BoundaryEpoch(cfg, t[c].slot) != BoundaryEpoch(cfg, t[a].slot)
  }

  /** A block whose state the recording loop records: it lies above the finalized one, and is the last before an epoch
      boundary. */
  ghost predicate RecordsState(cfg: Config, t: Blocks, genesis: Root, f: Root, r: Root, lastEpoch: Option<nat>, a: Root)
    requires cfg.Valid() && Tree(t, genesis) && r in t && f in t
  {
    && a in t && IsAncestor(t, genesis, a, r) && t[a].slot > t[f].slot
    && LastOfEpoch(cfg, t, genesis, r, a) && lastEpoch != Some(BoundaryEpoch(cfg, t[a].slot))
  }

  /** What the recording loop leaves of the states: it adds or replaces those of such blocks, and touches no other. */
  ghost predicate StatesRecorded(cfg: Config, s: Store, t: Blocks, genesis: Root, f: Root, before: map<Root, PostState>,
      after: map<Root, PostState>, r: Root, lastEpoch: Option<nat>)
    requires cfg.Valid() && Tree(t, genesis) && r in t && f in t
  {
    && (forall k {:trigger k in after} :: k in after ==>
          || (k in before && after[k] == before[k])
          || exists a :: RecordsState(cfg, t, genesis, f, r, lastEpoch, a) && t[a].stateRoot == k)
    && (forall k :: k in before ==> k in after)
    && (forall a {:trigger RecordsState(cfg, t, genesis, f, r, lastEpoch, a)} ::
          RecordsState(cfg, t, genesis, f, r, lastEpoch, a) ==>
          && t[a].stateRoot in s.states && t[a].stateRoot in after
          && after[t[a].stateRoot] == s.states[t[a].stateRoot])
  }

  /** The recording loop ends at the finalized block, without a missing parent or state. It leaves the entries up to the
      finalized slot alone and adds exactly the chain above it, and exactly the states of the blocks that are last
      before an epoch boundary. */
  lemma {:induction false} RecordsChain(
      cfg: Config, s: Store, t: Blocks, genesis: Root, f: Root, records: Records, r: Root, lastEpoch: Option<nat>)
    requires cfg.Valid() && RetainedFrom(s, t, genesis, f) && r in t && IsAncestor(t, genesis, f, r)
    requires lastEpoch.Some? ==> lastEpoch.value >= BoundaryEpoch(cfg, t[r].slot)
    ensures
      var out := RecordFinalized(cfg, s, records, r, lastEpoch);
      && out.Some?
      && (forall k :: k in records.roots && (k <= t[f].slot || k > t[r].slot) ==>
            k in out.value.roots && out.value.roots[k] == records.roots[k])
      && (forall k :: k in out.value.roots ==>
            || (k in records.roots && out.value.roots[k] == records.roots[k])
            || (out.value.roots[k] in t && t[out.value.roots[k]].slot == k
                && IsAncestor(t, genesis, out.value.roots[k], r)))
      && (forall a :: a in t && IsAncestor(t, genesis, a, r) && t[a].slot > t[f].slot ==>
            t[a].slot in out.value.roots && out.value.roots[t[a].slot] == a)
      && StatesRecorded(cfg, s, t, genesis, f, records.states, out.value.states, r, lastEpoch)
    decreases t[r].slot
  {
    hide Tree, Descending, IsAncestor, BoundaryEpoch, RecordFinalized, StatesRecorded;
    var slot := t[f].slot;
    AncestorBelow(t, genesis, f, r);
    if r == f {
      RecordingEnds(cfg, s, t, genesis, f, records, lastEpoch);
      forall a | a in t && IsAncestor(t, genesis, a, r) ensures t[a].slot <= slot {
        AncestorBelow(t, genesis, a, r);
      }
      NoStatesRecorded(cfg, s, t, genesis, f, records.states, lastEpoch);
    } else {
      var p, epoch := t[r].parentRoot, BoundaryEpoch(cfg, t[r].slot);
      StepBack(t, genesis, f, r);
      BoundaryMonotone(cfg, t[p].slot, t[r].slot);
      var next := RecordingTurn(cfg, s, t, genesis, f, records, r, lastEpoch);
      RecordsChain(cfg, s, t, genesis, f, next, p, Some(epoch));
      var out := RecordFinalized(cfg, s, records, r, lastEpoch).value;
      StatesTurn(cfg, s, t, genesis, f, records.states, next.states, out.states, r, lastEpoch);
      forall a | a in t && IsAncestor(t, genesis, a, r) && t[a].slot > slot
        ensures t[a].slot in out.roots && out.roots[t[a].slot] == a
      {
        StepBack(t, genesis, a, r);
        if a != r {
          AncestorBelow(t, genesis, a, p);
        }
      }
      forall k | k in out.roots
        ensures
          || (k in records.roots && out.roots[k] == records.roots[k])
          || (out.roots[k] in t && t[out.roots[k]].slot == k && IsAncestor(t, genesis, out.roots[k], r))
      {
        IsAncestorOfChild(t, genesis, out.roots[k], r);
      }
    }
  }

  lemma BoundaryMonotone(cfg: Config, a: nat, b: nat)
    requires cfg.Valid() && a <= b
    ensures BoundaryEpoch(cfg, a) <= BoundaryEpoch(cfg, b)
  {
    EpochMonotone(a + cfg.slotsPerEpoch - 1, b + cfg.slotsPerEpoch - 1, cfg.slotsPerEpoch);
  }

  lemma NoStatesRecorded(cfg: Config, s: Store, t: Blocks, genesis: Root, f: Root, states: map<Root, PostState>,
      lastEpoch: Option<nat>)
    requires cfg.Valid() && Tree(t, genesis) && f in t
    ensures StatesRecorded(cfg, s, t, genesis, f, states, states, f, lastEpoch)
  {
    hide Tree, IsAncestor, BoundaryEpoch, LastOfEpoch;
    forall a | a in t && IsAncestor(t, genesis, a, f) ensures t[a].slot <= t[f].slot {
      AncestorBelow(t, genesis, a, f);
    }
  }

  /** One turn, and what the turns behind it record. */
  lemma StatesTurn(cfg: Config, s: Store, t: Blocks, genesis: Root, f: Root, before: map<Root, PostState>,
      next: map<Root, PostState>, after: map<Root, PostState>, r: Root, lastEpoch: Option<nat>)
    requires cfg.Valid() && Tree(t, genesis) && r in t && f in t && r != genesis && t[r].slot > t[f].slot
    requires t[r].parentRoot in t && t[r].stateRoot in s.states
    requires lastEpoch.Some? ==> lastEpoch.value >= BoundaryEpoch(cfg, t[r].slot)
    requires next == if lastEpoch == Some(BoundaryEpoch(cfg, t[r].slot)) then before
                     else before[t[r].stateRoot := s.states[t[r].stateRoot]]
    requires StatesRecorded(
               cfg, s, t, genesis, f, next, after, t[r].parentRoot, Some(BoundaryEpoch(cfg, t[r].slot)))
    ensures StatesRecorded(cfg, s, t, genesis, f, before, after, r, lastEpoch)
  {
    hide Tree, IsAncestor, BoundaryEpoch, RecordsState;
    var p, epoch := t[r].parentRoot, Some(BoundaryEpoch(cfg, t[r].slot));
    forall a ensures
      RecordsState(cfg, t, genesis, f, r, lastEpoch, a) <==>
        (a == r && lastEpoch != epoch) || RecordsState(cfg, t, genesis, f, p, epoch, a)
    {
      RecordsStep(cfg, t, genesis, f, r, lastEpoch, a);
    }
  }

  lemma RecordsStep(cfg: Config, t: Blocks, genesis: Root, f: Root, r: Root, lastEpoch: Option<nat>, a: Root)
    requires cfg.Valid() && Tree(t, genesis) && r in t && f in t && r != genesis && t[r].slot > t[f].slot
    requires t[r].parentRoot in t
    requires lastEpoch.Some? ==> lastEpoch.value >= BoundaryEpoch(cfg, t[r].slot)
    ensures RecordsState(cfg, t, genesis, f, r, lastEpoch, a) <==>
      || (a == r && lastEpoch != Some(BoundaryEpoch(cfg, t[r].slot)))
      || RecordsState(cfg, t, genesis, f, t[r].parentRoot, Some(BoundaryEpoch(cfg, t[r].slot)), a)
  {
    hide Tree, IsAncestor, BoundaryEpoch, LastOfEpoch;
    var p := t[r].parentRoot;
    IsAncestorOfChild(t, genesis, a, r);
    ParentBelow(t, genesis, r);
    if a in t && IsAncestor(t, genesis, a, r) {
      StepBack(t, genesis, a, r);
      AncestorBelow(t, genesis, a, r);
      if a == r {
        LastOfOwnChain(cfg, t, genesis, r);
        NotAbove(t, genesis, r);
      } else {
        AncestorBelow(t, genesis, a, p);
        LastOfEpochBack(cfg, t, genesis, r, a);
        BoundaryMonotone(cfg, t[a].slot, t[r].slot);
      }
    }
  }

  lemma ParentBelow(t: Blocks, genesis: Root, r: Root)
    requires Tree(t, genesis) && r in t && r != genesis
    ensures t[r].parentRoot in t && t[t[r].parentRoot].slot < t[r].slot
  {
  }

  lemma NotAbove(t: Blocks, genesis: Root, r: Root)
    requires Tree(t, genesis) && r in t && r != genesis
    ensures t[r].parentRoot in t && !IsAncestor(t, genesis, r, t[r].parentRoot)
  {
    hide IsAncestor;
    if IsAncestor(t, genesis, r, t[r].parentRoot) {
      AncestorBelow(t, genesis, r, t[r].parentRoot);
    }
  }

  lemma LastOfOwnChain(cfg: Config, t: Blocks, genesis: Root, r: Root)
    requires cfg.Valid() && Tree(t, genesis) && r in t
    ensures LastOfEpoch(cfg, t, genesis, r, r)
  {
    hide Tree, IsAncestor, BoundaryEpoch;
    forall c | c in t && IsAncestor(t, genesis, c, r) ensures t[c].slot <= t[r].slot {
      AncestorBelow(t, genesis, c, r);
    }
  }

  /** What recording one block leaves. */
  lemma RecordingTurn(
      cfg: Config, s: Store, t: Blocks, genesis: Root, f: Root, records: Records, r: Root, lastEpoch: Option<nat>)
      returns (next: Records)
    requires cfg.Valid() && RetainedFrom(s, t, genesis, f) && r in t && t[r].slot > t[f].slot
    ensures
      RecordFinalized(cfg, s, records, r, lastEpoch)
      == RecordFinalized(cfg, s, next, t[r].parentRoot, Some(BoundaryEpoch(cfg, t[r].slot)))
    ensures next.roots == records.roots[t[r].slot := r] && t[r].stateRoot in s.states
    ensures next.states == if lastEpoch == Some(BoundaryEpoch(cfg, t[r].slot)) then records.states
                           else records.states[t[r].stateRoot := s.states[t[r].stateRoot]]
  {
    hide Tree, BoundaryEpoch;
    var roots, b := records.roots[t[r].slot := r], t[r];
    assert s.blocks[r] == b;
    next :=
      if lastEpoch == Some(BoundaryEpoch(cfg, b.slot)) then Records(roots, records.states)
      else Records(roots, records.states[b.stateRoot := s.states[b.stateRoot]]);
  }

  lemma RecordingEnds(
      cfg: Config, s: Store, t: Blocks, genesis: Root, f: Root, records: Records, lastEpoch: Option<nat>)
    requires cfg.Valid() && RetainedFrom(s, t, genesis, f)
    ensures RecordFinalized(cfg, s, records, f, lastEpoch) == Some(records)
  {
    hide Tree;
  }

  lemma LastOfEpochBack(cfg: Config, t: Blocks, genesis: Root, r: Root, a: Root)
    requires cfg.Valid() && Tree(t, genesis) && r in t && a in t && r != genesis && t[r].slot > t[a].slot
    ensures t[r].parentRoot in t
    ensures LastOfEpoch(cfg, t, genesis, r, a) <==>
      && LastOfEpoch(cfg, t, genesis, t[r].parentRoot, a)
      && BoundaryEpoch(cfg, t[r].slot) != BoundaryEpoch(cfg, t[a].slot)
  {
    hide BoundaryEpoch;
    forall c | c in t && IsAncestor(t, genesis, c, r) && c != r ensures IsAncestor(t, genesis, c, t[r].parentRoot) {
      StepBack(t, genesis, c, r);
    }
    if LastOfEpoch(cfg, t, genesis, r, a) {
      IsAncestorOfChild(t, genesis, r, r);
      forall c | c in t && IsAncestor(t, genesis, c, t[r].parentRoot) && t[c].slot > t[a].slot
        ensures BoundaryEpoch(cfg, t[c].slot) != BoundaryEpoch(cfg, t[a].slot)
      {
        IsAncestorOfChild(t, genesis, c, r);
      }
    }
  }

  lemma StepBack(t: Blocks, genesis: Root, a: Root, r: Root)
    requires Tree(t, genesis) && r in t && IsAncestor(t, genesis, a, r)
    ensures a != r ==>
      && r != genesis && t[r].parentRoot in t && t[t[r].parentRoot].slot < t[r].slot
      && IsAncestor(t, genesis, a, t[r].parentRoot)
  {
  }

  lemma IsAncestorOfChild(t: Blocks, genesis: Root, a: Root, r: Root)
    requires Tree(t, genesis) && r in t && r != genesis
    ensures IsAncestor(t, genesis, r, r)
    ensures IsAncestor(t, genesis, a, t[r].parentRoot) ==> IsAncestor(t, genesis, a, r)
  {
  }

  lemma StoreRetains(cfg: Config, s: Store, h: Hist)
    requires Settled(cfg, s, h) && StatesOk(s, h)
    ensures RetainedFrom(s, h.tree, h.genesis, Finalized(s))
  {
    hide Tree, CacheOk, CoverOk, RememberedOk, IsChainOf, PruneBlocks;
    InvDescends(cfg, s, h);
  }

  ghost function Recording(cfg: Config, s: Store, r: Root): Option<Records>
    requires cfg.Valid() && Descending(s.blocks)
  {
    RecordFinalized(cfg, s, Records(s.finalizedBlockRoots, s.db.checkpointStates), r, None)
  }

  /** After recording, the finalized roots are the chain of the newly finalized block; its state is recorded, and so is
      that of every newly finalized block that is last before an epoch boundary. */
  lemma ChainMoves(cfg: Config, s: Store, h: Hist, r: Root)
    requires Settled(cfg, s, h) && StatesOk(s, h) && Above(s, h, r) && Descending(s.blocks)
    ensures
      var out := Recording(cfg, s, r);
      && out.Some? && IsChainOf(out.value.roots, h, r)
      && (forall k :: k in s.finalizedBlockRoots ==>
            k in out.value.roots && out.value.roots[k] == s.finalizedBlockRoots[k])
      && StatesRecorded(cfg, s, h.tree, h.genesis, Finalized(s), s.db.checkpointStates, out.value.states, r, None)
  {
    hide Tree, IsAncestor, RecordFinalized, CacheOk, CoverOk, RememberedOk, BlocksOk, LastOfEpoch, Descending,
      RetainedFrom;
    var t, genesis, f, roots := h.tree, h.genesis, Finalized(s), s.finalizedBlockRoots;
    StoreRetains(cfg, s, h);
    RecordsChain(cfg, s, t, genesis, f, Records(roots, s.db.checkpointStates), r, None);
    var out := Recording(cfg, s, r).value.roots;
    forall k | k in roots ensures k <= s.latestFinalized.slot {
      RecordedBelow(s, h, k);
    }
    forall k | k in out ensures out[k] in t && t[out[k]].slot == k && IsAncestor(t, genesis, out[k], r) {
      if k in roots && out[k] == roots[k] {
        AncestorTrans(t, genesis, roots[k], f, r);
      }
    }
    forall a | a in t && IsAncestor(t, genesis, a, r) ensures t[a].slot in out && out[t[a].slot] == a {
      if t[a].slot <= t[f].slot {
        AncestorsLinear(t, genesis, a, f, r);
      }
    }
  }

  // ----- Bootstraps -----

  /** The epoch boundary at or after a slot, seen from a later block's: the same one, or an earlier one. */
  lemma BoundaryOf(cfg: Config, slot: nat, later: nat)
    requires cfg.Valid() && slot <= later
    ensures
      var b := NextEpochBoundarySlot(cfg, later);
      && NextEpochBoundarySlot(cfg, slot) <= b
      && (slot <= b - cfg.slotsPerEpoch <==> NextEpochBoundarySlot(cfg, slot) <= b - cfg.slotsPerEpoch)
      && (slot > b - cfg.slotsPerEpoch <==> NextEpochBoundarySlot(cfg, slot) == b)
  {
    hide EpochAtSlot;
    var n := cfg.slotsPerEpoch;
    var e, d := EpochAtSlot(later + n - 1, n), EpochAtSlot(slot + n - 1, n);
    EpochMonotone(slot + n - 1, later + n - 1, n);
    EpochOrder(slot + n - 1, e, n);
    if d < e {
      MultipleBelow(d, e, n);
    }
  }

  lemma MultipleBelow(d: nat, e: nat, n: nat)
    requires d < e
    ensures d * n <= e * n - n
  {
    assert (d + 1) * n == d * n + n;
    assert (d + 1) * n <= e * n;
  }

  /** No block is recorded between a slot and the next epoch boundary, as far as `top`. */
  ghost predicate LastBeforeBoundary(cfg: Config, roots: map<nat, Root>, slot: nat, top: int)
    requires cfg.Valid()
  {
    forall k :: slot < k <= NextEpochBoundarySlot(cfg, slot) && k <= top ==> k !in roots
  }

  /** The loop picks exactly the recorded blocks with no later one at or before their next epoch boundary. */
  lemma {:induction false} BootstrapsExact(cfg: Config, roots: map<nat, Root>, tail: nat, lowSlot: nat, top: int,
      slot: nat)
    requires cfg.Valid() && tail <= lowSlot <= slot <= top && slot in roots
    ensures BlockId(slot, roots[slot]) in BootstrapIds(cfg, roots, tail, lowSlot, top) <==>
              LastBeforeBoundary(cfg, roots, slot, top)
    decreases top
  {
    hide NextEpochBoundarySlot, BlockIdAtFinalizedSlot, LastBeforeBoundary, BootstrapIds;
    FoundBelow(roots, tail, top);
    var id := BlockIdAtFinalizedSlot(roots, tail, top).value;
    BoundaryOf(cfg, slot, id.slot);
    NextBoundary(cfg, id.slot);
    var next := NextEpochBoundarySlot(cfg, id.slot) - cfg.slotsPerEpoch;
    BootstrapsTurn(cfg, roots, tail, lowSlot, top, BlockId(slot, roots[slot]));
    if slot <= next {
      SameWindow(cfg, roots, slot, top, next);
      BootstrapsExact(cfg, roots, tail, lowSlot, next, slot);
    } else {
      BootstrapsBelow(cfg, roots, tail, lowSlot, next);
      LastInWindow(cfg, roots, slot, id.slot, top);
    }
  }

  /** One turn of the loop. */
  lemma BootstrapsTurn(cfg: Config, roots: map<nat, Root>, tail: nat, lowSlot: nat, top: int, id: BlockId)
    requires cfg.Valid() && top >= lowSlot && BlockIdAtFinalizedSlot(roots, tail, top).Some?
    ensures
      var found := BlockIdAtFinalizedSlot(roots, tail, top).value;
      var next := NextEpochBoundarySlot(cfg, found.slot) - cfg.slotsPerEpoch;
      id in BootstrapIds(cfg, roots, tail, lowSlot, top) <==>
        (id == found && id.slot >= lowSlot) || (next >= 0 && id in BootstrapIds(cfg, roots, tail, lowSlot, next))
  {
    hide NextEpochBoundarySlot, BlockIdAtFinalizedSlot;
  }

  lemma SameWindow(cfg: Config, roots: map<nat, Root>, slot: nat, top: int, next: int)
    requires cfg.Valid() && NextEpochBoundarySlot(cfg, slot) <= next <= top
    ensures LastBeforeBoundary(cfg, roots, slot, top) <==> LastBeforeBoundary(cfg, roots, slot, next)
  {
    hide NextEpochBoundarySlot;
  }

  lemma LastInWindow(cfg: Config, roots: map<nat, Root>, slot: nat, last: nat, top: int)
    requires cfg.Valid() && last in roots && slot <= last <= top && last <= NextEpochBoundarySlot(cfg, slot)
    requires forall k :: last < k <= top ==> k !in roots
    ensures LastBeforeBoundary(cfg, roots, slot, top) <==> slot == last
  {
    hide NextEpochBoundarySlot;
  }

  /** Whatever is picked is recorded, and lies between the bounds. */
  lemma {:induction false} BootstrapsBelow(cfg: Config, roots: map<nat, Root>, tail: nat, lowSlot: nat, top: int)
    requires cfg.Valid()
    ensures forall id :: id in BootstrapIds(cfg, roots, tail, lowSlot, top) ==>
              lowSlot <= id.slot <= top && id.slot in roots && roots[id.slot] == id.root
    decreases top
  {
    hide NextEpochBoundarySlot, BlockIdAtFinalizedSlot;
    if top >= lowSlot {
      var found := BlockIdAtFinalizedSlot(roots, tail, top);
      FoundBelow(roots, tail, top);
      if found.Some? {
        NextBoundary(cfg, found.value.slot);
        BootstrapsBelow(cfg, roots, tail, lowSlot, NextEpochBoundarySlot(cfg, found.value.slot) - cfg.slotsPerEpoch);
      }
    }
  }


  /** Blocks that can get a bootstrap: recorded as finalized, retained, and cached. */
  ghost predicate Bootstrappable(s: Store, t: Blocks, id: BlockId) {
    && id.root in t && t[id.root].Id() == id
    && id.slot in s.finalizedBlockRoots && s.finalizedBlockRoots[id.slot] == id.root
    && id.root in s.blocks && id in s.cache
  }

  /** The committee of a period is there, or can be taken from a recorded state. */
  ghost predicate Served(cfg: Config, s: Store, db: Db, period: nat)
    requires cfg.Valid()
  {
    || period in db.syncCommittees
    || (period >= Period(cfg, s.tailSlot)
        && var slot := CommitteeSlot(cfg, s.tailSlot, period);
           var found := BlockIdAtFinalizedSlot(s.finalizedBlockRoots, s.historicalTailSlot, slot);
           found.Some? && found.value.root in s.blocks
           && s.blocks[found.value.root].stateRoot in db.checkpointStates)
  }

  /** What making a bootstrap keeps. */
  ghost predicate Grows(cfg: Config, tail: nat, db: Db, next: Db)
    requires cfg.Valid()
  {
    && db.syncCommittees.Keys <= next.syncCommittees.Keys && db.checkpointStates.Keys <= next.checkpointStates.Keys
    && forall p :: p in next.syncCommittees ==>
         if p in db.syncCommittees then next.syncCommittees[p] == db.syncCommittees[p]
         else p >= Period(cfg, tail) ==> next.syncCommittees[p].Some?
  }

  lemma BootstrapStored(cfg: Config, s: Store, db: Db, t: Blocks, id: BlockId)
    requires cfg.Valid() && Bootstrappable(s, t, id) && Served(cfg, s, db, Period(cfg, id.slot))
    ensures
      var out := CreateBootstrap(cfg, s, db, id);
      && out.Some? && out.value.headers == db.headers[id.root := id]
      && out.value.branches == db.branches[id.slot := s.cache[id].branch]
      && Period(cfg, id.slot) in out.value.syncCommittees && Grows(cfg, s.tailSlot, db, out.value)
  {
    hide Period, CommitteeSlot, BlockIdAtFinalizedSlot;
  }

  lemma ServedStays(cfg: Config, s: Store, db: Db, next: Db, period: nat)
    requires cfg.Valid() && Served(cfg, s, db, period) && Grows(cfg, s.tailSlot, db, next)
    ensures Served(cfg, s, next, period)
  {
    hide Period, CommitteeSlot, BlockIdAtFinalizedSlot;
  }

  lemma GrowsTrans(cfg: Config, tail: nat, a: Db, b: Db, c: Db)
    requires cfg.Valid() && Grows(cfg, tail, a, b) && Grows(cfg, tail, b, c)
    ensures Grows(cfg, tail, a, c)
  {
    hide Period;
  }

  /** Creating bootstraps never fails, stores the header, branch and committee for each chosen block, and changes no
      other. */
  lemma {:induction false} BootstrapsStored(cfg: Config, s: Store, db: Db, t: Blocks, ids: seq<BlockId>)
    requires cfg.Valid()
    requires forall id :: id in ids ==> Bootstrappable(s, t, id) && Served(cfg, s, db, Period(cfg, id.slot))
    ensures
      var out, roots := CreateBootstraps(cfg, s, db, ids), s.finalizedBlockRoots;
      && out.Some? && Grows(cfg, s.tailSlot, db, out.value)
      && (forall id :: id in ids ==>
            && Bootstrappable(s, t, id) && id.root in out.value.headers && out.value.headers[id.root] == id
            && id.slot in out.value.branches && out.value.branches[id.slot] == s.cache[id].branch
            && Period(cfg, id.slot) in out.value.syncCommittees)
      && (forall r :: r in out.value.headers && !(r in t && t[r].Id() in ids) ==>
            r in db.headers && out.value.headers[r] == db.headers[r])
      && (forall r :: r in db.headers ==> r in out.value.headers)
      && (forall k :: k in db.branches && !(k in roots && BlockId(k, roots[k]) in ids) ==>
            k in out.value.branches && out.value.branches[k] == db.branches[k])
    decreases |ids|
  {
    hide Served, Period, CreateBootstrap, Grows;
    if ids == [] {
      GrowsRefl(cfg, s.tailSlot, db);
    } else {
      var id := ids[0];
      assert Bootstrappable(s, t, id);
      BootstrapStored(cfg, s, db, t, id);
      var next := CreateBootstrap(cfg, s, db, id).value;
      assert forall i :: i in ids <==> i == id || i in ids[1..];
      forall i | i in ids[1..] ensures Bootstrappable(s, t, i) && Served(cfg, s, next, Period(cfg, i.slot)) {
        assert Bootstrappable(s, t, i);
        ServedStays(cfg, s, db, next, Period(cfg, i.slot));
      }
      BootstrapsStored(cfg, s, next, t, ids[1..]);
      var out := CreateBootstraps(cfg, s, next, ids[1..]).value;
      GrowsTrans(cfg, s.tailSlot, db, next, out);
      GrowsKeys(cfg, s.tailSlot, next, out);
    }
  }

  lemma GrowsRefl(cfg: Config, tail: nat, db: Db)
    requires cfg.Valid()
    ensures Grows(cfg, tail, db, db)
  {
  }

  lemma GrowsKeys(cfg: Config, tail: nat, db: Db, next: Db)
    requires cfg.Valid() && Grows(cfg, tail, db, next)
    ensures db.syncCommittees.Keys <= next.syncCommittees.Keys && db.checkpointStates.Keys <= next.checkpointStates.Keys
  {
  }

  // ----- The committee of a period -----

  lemma CommitteeSlotIsBoundary(cfg: Config, tail: nat, period: nat)
    requires cfg.Valid() && tail % cfg.slotsPerEpoch == 0
    ensures CommitteeSlot(cfg, tail, period) % cfg.slotsPerEpoch == 0
  {
    BoundarySlot(period * cfg.epochsPerPeriod, cfg.slotsPerEpoch);
  }

  /** Slots on the two sides of an epoch boundary have different boundaries. */
  lemma EpochsDiffer(cfg: Config, a: nat, boundary: nat, c: nat)
    requires cfg.Valid() && a <= boundary < c && boundary % cfg.slotsPerEpoch == 0
    ensures BoundaryEpoch(cfg, a) < BoundaryEpoch(cfg, c)
  {
    hide EpochAtSlot;
    var n, e := cfg.slotsPerEpoch, boundary / cfg.slotsPerEpoch;
    assert boundary == e * n;
    assert (e + 1) * n == e * n + n;
    EpochOrder(a + n - 1, e + 1, n);
    EpochOrder(c + n - 1, e + 1, n);
  }

  /** The state in which finalization is processed: the chain is recorded, nothing is dropped yet. */
  ghost predicate Recorded(cfg: Config, s: Store, mid: Store, h: Hist, fr: Root)
    requires cfg.Valid() && Rooted(s, h) && FinalOk(s, h)
  {
    && Settled(cfg, s, h) && DbOk(cfg, s, h) && Above(s, h, fr) && h.tree[fr].slot > s.latestFinalized.slot
    && mid == Advanced(
         s, Records(mid.finalizedBlockRoots, mid.db.checkpointStates), h.tree[fr].Id(), mid.latestFinalizedEpoch)
    && IsChainOf(mid.finalizedBlockRoots, h, fr)
    && (forall k :: k in s.finalizedBlockRoots ==>
          k in mid.finalizedBlockRoots && mid.finalizedBlockRoots[k] == s.finalizedBlockRoots[k])
    && StatesRecorded(
         cfg, s, h.tree, h.genesis, Finalized(s), s.db.checkpointStates, mid.db.checkpointStates, fr, None)
  }

  /** The lowest slot that can get a new bootstrap. */
  function FirstSlot(s: Store): nat {
    if s.latestFinalized.slot + 1 >= s.tailSlot then s.latestFinalized.slot + 1 else s.tailSlot
  }

  /** A period that a newly finalized block lies in, and that has no committee yet, starts after the previously
      finalized block. */
  lemma CommitteeSlotIsNew(cfg: Config, s: Store, h: Hist, slot: nat)
    requires cfg.Valid() && Rooted(s, h) && FinalOk(s, h) && DbOk(cfg, s, h) && slot >= FirstSlot(s)
    requires Period(cfg, slot) !in s.db.syncCommittees
    ensures
      var start := CommitteeSlot(cfg, s.tailSlot, Period(cfg, slot));
      s.latestFinalized.slot <= start <= slot && s.tailSlot <= start && Period(cfg, slot) >= Period(cfg, s.tailSlot)
      && start % cfg.slotsPerEpoch == 0
  {
    hide Tree, IsAncestor, IsChainOf, Period, PeriodStart;
    var p, f := Period(cfg, slot), s.latestFinalized.slot;
    PeriodOrder(cfg, slot, p);
    PeriodOrder(cfg, f, p);
    PeriodMonotone(cfg, f, slot);
    PeriodMonotone(cfg, s.tailSlot, slot);
    CommitteeSlotIsBoundary(cfg, s.tailSlot, p);
  }

  /** The block that the committee is taken from is retained and its state recorded. */
  lemma CommitteeServed(cfg: Config, s: Store, mid: Store, h: Hist, fr: Root, slot: nat)
    requires cfg.Valid() && Rooted(s, h) && FinalOk(s, h) && Recorded(cfg, s, mid, h, fr)
    requires FirstSlot(s) <= slot <= h.tree[fr].slot
    ensures Served(cfg, mid, mid.db, Period(cfg, slot))
  {
    hide Tree, IsAncestor, CacheOk, CoverOk, RememberedOk, Period, CommitteeSlot, BoundaryEpoch, HeadersOf, LastOfEpoch,
      BlockIdAtFinalizedSlot;
    if Period(cfg, slot) !in s.db.syncCommittees {
      CommitteeSlotIsNew(cfg, s, h, slot);
      var start, roots := CommitteeSlot(cfg, s.tailSlot, Period(cfg, slot)), mid.finalizedBlockRoots;
      FoundBelow(roots, s.historicalTailSlot, start);
      assert s.latestFinalized.slot in roots;
      var g := BlockIdAtFinalizedSlot(roots, s.historicalTailSlot, start).value;
      if g.slot > s.latestFinalized.slot {
        IsLastOfEpoch(cfg, h, roots, fr, g.root, start);
        StateIsRecorded(cfg, s, mid, h, fr, g.root);
      }
    }
  }

  lemma StateIsRecorded(cfg: Config, s: Store, mid: Store, h: Hist, fr: Root, a: Root)
    requires cfg.Valid() && Rooted(s, h) && FinalOk(s, h) && Recorded(cfg, s, mid, h, fr)
    requires a in h.tree && IsAncestor(h.tree, h.genesis, a, fr) && h.tree[a].slot > s.latestFinalized.slot
    requires LastOfEpoch(cfg, h.tree, h.genesis, fr, a)
    ensures h.tree[a].stateRoot in mid.db.checkpointStates && h.tree[a].stateRoot in s.states
    ensures mid.db.checkpointStates[h.tree[a].stateRoot] == s.states[h.tree[a].stateRoot]
  {
    hide Tree, IsAncestor, LastOfEpoch, CacheOk, CoverOk, RememberedOk, BlocksOk, IsChainOf, DbOk;
    assert RecordsState(cfg, h.tree, h.genesis, Finalized(s), fr, None, a);
  }

  lemma IsLastOfEpoch(cfg: Config, h: Hist, roots: map<nat, Root>, fr: Root, a: Root, boundary: nat)
    requires cfg.Valid() && Tree(h.tree, h.genesis) && fr in h.tree && IsChainOf(roots, h, fr)
    requires a in h.tree && h.tree[a].slot <= boundary && boundary % cfg.slotsPerEpoch == 0
    requires forall k :: h.tree[a].slot < k <= boundary ==> k !in roots
    ensures LastOfEpoch(cfg, h.tree, h.genesis, fr, a)
  {
    hide Tree, IsAncestor, BoundaryEpoch;
    forall c | c in h.tree && IsAncestor(h.tree, h.genesis, c, fr) && h.tree[c].slot > h.tree[a].slot
      ensures BoundaryEpoch(cfg, h.tree[c].slot) != BoundaryEpoch(cfg, h.tree[a].slot)
    {
      EpochsDiffer(cfg, h.tree[a].slot, boundary, h.tree[c].slot);
    }
  }

  // ----- The chosen blocks -----

  ghost function Chosen(cfg: Config, s: Store, roots: map<nat, Root>, top: nat): seq<BlockId>
    requires cfg.Valid()
  {
    BootstrapIds(cfg, roots, s.historicalTailSlot, FirstSlot(s), top)
  }

  lemma ChosenAreBootstrappable(cfg: Config, s: Store, mid: Store, h: Hist, fr: Root, id: BlockId)
    requires cfg.Valid() && Rooted(s, h) && FinalOk(s, h) && Recorded(cfg, s, mid, h, fr)
    requires id in Chosen(cfg, s, mid.finalizedBlockRoots, h.tree[fr].slot)
    ensures FirstSlot(s) <= id.slot && Bootstrappable(mid, h.tree, id) && IsAncestor(h.tree, h.genesis, id.root, fr)
    ensures mid.cache[id].branch == h.tree[id.root].stateRoot && Served(cfg, mid, mid.db, Period(cfg, id.slot))
  {
    hide Tree, IsAncestor, Best, SignatureSlot, BootstrapIds, CacheOk, CoverOk, RememberedOk, LastOfEpoch, HeadersOf,
      Served, Period, Remembered;
    BootstrapsBelow(cfg, mid.finalizedBlockRoots, s.historicalTailSlot, FirstSlot(s), h.tree[fr].slot);
    CachedAt(cfg, s, h, id.root);
    CommitteeServed(cfg, s, mid, h, fr, id.slot);
  }

  /** No finalized block lies between a slot and the next epoch boundary. */
  ghost predicate NoneBeforeBoundary(cfg: Config, roots: map<nat, Root>, slot: nat)
    requires cfg.Valid()
  {
    forall k :: slot < k <= NextEpochBoundarySlot(cfg, slot) ==> k !in roots
  }

  /** A block has a bootstrap that can be served. */
  ghost predicate HasBootstrap(cfg: Config, db: Db, h: Hist, r: Root)
    requires cfg.Valid() && r in h.tree
  {
    && r in db.headers && db.headers[r] == h.tree[r].Id()
    && h.tree[r].slot in db.branches && db.branches[h.tree[r].slot] == h.tree[r].stateRoot
    && Period(cfg, h.tree[r].slot) in db.syncCommittees
  }

  lemma BootstrapsMade(cfg: Config, s: Store, mid: Store, h: Hist, fr: Root) returns (ids: seq<BlockId>, db: Db)
    requires cfg.Valid() && Rooted(s, h) && FinalOk(s, h) && Recorded(cfg, s, mid, h, fr)
    ensures ids == Chosen(cfg, s, mid.finalizedBlockRoots, h.tree[fr].slot)
    ensures CreateBootstraps(cfg, mid, mid.db, ids) == Some(db) && Grows(cfg, s.tailSlot, mid.db, db)
    ensures forall id :: id in ids ==>
              && FirstSlot(s) <= id.slot && id.root in h.tree && h.tree[id.root].Id() == id
              && IsAncestor(h.tree, h.genesis, id.root, fr) && HasBootstrap(cfg, db, h, id.root)
    ensures forall r :: r in db.headers && !(r in h.tree && h.tree[r].Id() in ids) ==>
              r in s.db.headers && db.headers[r] == s.db.headers[r]
    ensures forall r :: r in s.db.headers ==> r in db.headers
    ensures forall k :: k in s.db.branches && k < FirstSlot(s) ==>
              k in db.branches && db.branches[k] == s.db.branches[k]
  {
    hide Tree, IsAncestor, BootstrapIds, CacheOk, CoverOk, RememberedOk, BlocksOk, Chosen, HeadersOf, IsChainOf, Served,
      Period, Grows, LastOfEpoch, DbOk;
    ids := Chosen(cfg, s, mid.finalizedBlockRoots, h.tree[fr].slot);
    forall id | id in ids
      ensures Bootstrappable(mid, h.tree, id) && IsAncestor(h.tree, h.genesis, id.root, fr)
      ensures id.slot >= FirstSlot(s) && mid.cache[id].branch == h.tree[id.root].stateRoot
      ensures Served(cfg, mid, mid.db, Period(cfg, id.slot))
    {
      ChosenAreBootstrappable(cfg, s, mid, h, fr, id);
    }
    BootstrapsStored(cfg, mid, mid.db, h.tree, ids);
    db := CreateBootstraps(cfg, mid, mid.db, ids).value;
  }

  lemma HeadersMove(cfg: Config, s: Store, mid: Store, h: Hist, fr: Root)
    requires cfg.Valid() && Rooted(s, h) && FinalOk(s, h) && Recorded(cfg, s, mid, h, fr)
    ensures
      var out := CreateBootstraps(cfg, mid, mid.db, Chosen(cfg, s, mid.finalizedBlockRoots, h.tree[fr].slot));
      out.Some? && Grows(cfg, s.tailSlot, mid.db, out.value) && HeadersOf(cfg, out.value, h, fr)
  {
    hide Tree, IsAncestor, CacheOk, CoverOk, RememberedOk, BlocksOk, Chosen, CreateBootstraps, IsChainOf, Period,
      LastOfEpoch;
    var ids, db := BootstrapsMade(cfg, s, mid, h, fr);
    forall r | r in db.headers
      ensures r in h.tree && IsAncestor(h.tree, h.genesis, r, fr) && HasBootstrap(cfg, db, h, r)
    {
      if r in h.tree && h.tree[r].Id() in ids {
        ParentIn(h, r);
      } else {
        AncestorBelow(h.tree, h.genesis, r, Finalized(s));
        AncestorTrans(h.tree, h.genesis, r, Finalized(s), fr);
      }
    }
  }

  /** Bootstraps are created for exactly the newly finalized blocks, from the tail slot on, that have no later
      finalized block at or before their next epoch boundary. */
  lemma BootstrapsCreated(cfg: Config, s: Store, mid: Store, h: Hist, fr: Root, a: Root)
    requires cfg.Valid() && Rooted(s, h) && FinalOk(s, h) && Recorded(cfg, s, mid, h, fr)
    requires a in h.tree && IsAncestor(h.tree, h.genesis, a, fr) && h.tree[a].slot >= FirstSlot(s)
    ensures
      var out := CreateBootstraps(cfg, mid, mid.db, Chosen(cfg, s, mid.finalizedBlockRoots, h.tree[fr].slot));
      out.Some? && (a in out.value.headers <==> NoneBeforeBoundary(cfg, mid.finalizedBlockRoots, h.tree[a].slot))
  {
    hide Tree, IsAncestor, CacheOk, CoverOk, RememberedOk, BlocksOk, BootstrapIds, CreateBootstraps, LastBeforeBoundary,
      NoneBeforeBoundary, DbOk, LastOfEpoch, Grows, Period;
    var ids, db := BootstrapsMade(cfg, s, mid, h, fr);
    AncestorBelow(h.tree, h.genesis, a, fr);
    ParentIn(h, a);
    if a in s.db.headers {
      HeadersAreOld(cfg, s, h, a);
    }
    var slot, top, roots := h.tree[a].slot, h.tree[fr].slot, mid.finalizedBlockRoots;
    BootstrapsExact(cfg, roots, s.historicalTailSlot, FirstSlot(s), top, slot);
    TopRecorded(cfg, roots, h, fr, slot);
  }

  lemma HeadersAreOld(cfg: Config, s: Store, h: Hist, a: Root)
    requires cfg.Valid() && Rooted(s, h) && FinalOk(s, h) && DbOk(cfg, s, h) && a in s.db.headers
    ensures a in h.tree && h.tree[a].slot <= s.latestFinalized.slot
  {
    hide Tree, IsAncestor, IsChainOf, Period;
    AncestorBelow(h.tree, h.genesis, a, Finalized(s));
  }

  lemma TopRecorded(cfg: Config, roots: map<nat, Root>, h: Hist, fr: Root, slot: nat)
    requires cfg.Valid() && Tree(h.tree, h.genesis) && fr in h.tree && IsChainOf(roots, h, fr)
    ensures LastBeforeBoundary(cfg, roots, slot, h.tree[fr].slot) <==> NoneBeforeBoundary(cfg, roots, slot)
  {
    hide Tree, IsAncestor, NextEpochBoundarySlot;
    forall k | k in roots ensures k <= h.tree[fr].slot {
      AncestorBelow(h.tree, h.genesis, roots[k], fr);
    }
  }

  /** The database after finalization. */
  lemma DbMoves(cfg: Config, s: Store, mid: Store, h: Hist, fr: Root)
    requires cfg.Valid() && Rooted(s, h) && FinalOk(s, h) && Recorded(cfg, s, mid, h, fr)
    requires h.tree[fr].slot >= s.tailSlot
    ensures
      var out := CreateBootstraps(cfg, mid, mid.db, Chosen(cfg, s, mid.finalizedBlockRoots, h.tree[fr].slot));
      out.Some? && DbFor(cfg, s.tailSlot, out.value, h, fr)
  {
    hide Tree, IsAncestor, CacheOk, CoverOk, RememberedOk, BlocksOk, Chosen, CreateBootstraps, IsChainOf, Period,
      HeadersOf, LastOfEpoch, NoneBeforeBoundary, Grows;
    HeadersMove(cfg, s, mid, h, fr);
    TopIsRecorded(mid.finalizedBlockRoots, h, fr);
    TopHasState(cfg, s, mid, h, fr);
    NoneAboveTop(cfg, mid.finalizedBlockRoots, h, fr);
    BootstrapsCreated(cfg, s, mid, h, fr, fr);
    var db := CreateBootstraps(cfg, mid, mid.db, Chosen(cfg, s, mid.finalizedBlockRoots, h.tree[fr].slot)).value;
    CommitteesStay(cfg, s.tailSlot, mid.db, db);
  }

  lemma NoneAboveTop(cfg: Config, roots: map<nat, Root>, h: Hist, fr: Root)
    requires cfg.Valid() && Tree(h.tree, h.genesis) && fr in h.tree && IsChainOf(roots, h, fr)
    ensures NoneBeforeBoundary(cfg, roots, h.tree[fr].slot)
  {
    hide Tree, IsAncestor, NextEpochBoundarySlot;
    forall k | k in roots ensures k <= h.tree[fr].slot {
      AncestorBelow(h.tree, h.genesis, roots[k], fr);
    }
  }

  lemma CommitteesStay(cfg: Config, tail: nat, db: Db, next: Db)
    requires cfg.Valid() && Grows(cfg, tail, db, next)
    requires forall p :: p in db.syncCommittees && p >= Period(cfg, tail) ==> db.syncCommittees[p].Some?
    ensures forall p :: p in next.syncCommittees && p >= Period(cfg, tail) ==> next.syncCommittees[p].Some?
    ensures db.checkpointStates.Keys <= next.checkpointStates.Keys
  {
    hide Period;
  }

  lemma TopHasState(cfg: Config, s: Store, mid: Store, h: Hist, fr: Root)
    requires cfg.Valid() && Rooted(s, h) && FinalOk(s, h) && Recorded(cfg, s, mid, h, fr)
    ensures h.tree[fr].stateRoot in mid.db.checkpointStates
  {
    hide Tree, IsAncestor, CacheOk, CoverOk, RememberedOk, BlocksOk, DbOk, BoundaryEpoch, IsChainOf;
    IsOwnAncestor(h, fr);
    forall c | c in h.tree && IsAncestor(h.tree, h.genesis, c, fr) ensures h.tree[c].slot <= h.tree[fr].slot {
      AncestorBelow(h.tree, h.genesis, c, fr);
    }
    assert LastOfEpoch(cfg, h.tree, h.genesis, fr, fr);
    StateIsRecorded(cfg, s, mid, h, fr, fr);
  }

  lemma IsOwnAncestor(h: Hist, r: Root)
    requires Tree(h.tree, h.genesis) && r in h.tree
    ensures IsAncestor(h.tree, h.genesis, r, r)
  {
  }

  lemma TopIsRecorded(roots: map<nat, Root>, h: Hist, fr: Root)
    requires Tree(h.tree, h.genesis) && fr in h.tree && IsChainOf(roots, h, fr)
    ensures h.tree[fr].slot in roots && roots[h.tree[fr].slot] == fr && IsAncestor(h.tree, h.genesis, fr, fr)
  {
    IsOwnAncestor(h, fr);
  }

  /** The database while the tail slot is not reached. */
  lemma DbHigher(cfg: Config, s: Store, mid: Store, h: Hist, fr: Root)
    requires cfg.Valid() && Rooted(s, h) && FinalOk(s, h) && Recorded(cfg, s, mid, h, fr)
    requires h.tree[fr].slot < s.tailSlot
    ensures DbFor(cfg, s.tailSlot, mid.db, h, fr)
  {
    hide Tree, IsAncestor, CacheOk, CoverOk, RememberedOk, BlocksOk, IsChainOf, Period, LastOfEpoch;
    TopHasState(cfg, s, mid, h, fr);
    forall r | r in s.db.headers ensures IsAncestor(h.tree, h.genesis, r, fr) {
      AncestorTrans(h.tree, h.genesis, r, Finalized(s), fr);
    }
  }

  // ----- Finalization -----

  /** What finalization leaves, given the recorded state and the database with the bootstraps. */
  function Pruned(mid: Store, db: Db, finalizedSlot: nat): Store {
    mid.(
      db := db,
      cache := if finalizedSlot < mid.tailSlot then mid.cache else PruneCache(mid.cache, finalizedSlot),
      blocks := PruneBlocks(mid.blocks, finalizedSlot),
      states := PruneStates(mid.states, finalizedSlot))
  }

  /** Finalizing a block above the finalized one never fails: the chain is recorded, bootstraps are made unless
      the tail slot is not reached yet, and what is no longer needed is dropped. */
  lemma FinalizeSteps(cfg: Config, s: Store, h: Hist, fr: Root, epoch: nat) returns (mid: Store, db: Db)
    requires cfg.Valid() && Settled(cfg, s, h) && StatesOk(s, h) && DbOk(cfg, s, h) && Above(s, h, fr)
    requires Descending(s.blocks) && h.tree[fr].slot > s.latestFinalized.slot
    ensures Recorded(cfg, s, mid, h, fr) && mid.latestFinalizedEpoch == epoch
    ensures
      if h.tree[fr].slot < s.tailSlot then db == mid.db
      else CreateBootstraps(cfg, mid, mid.db, Chosen(cfg, s, mid.finalizedBlockRoots, h.tree[fr].slot)) == Some(db)
    ensures DbFor(cfg, s.tailSlot, db, h, fr)
    ensures Finalize(cfg, s, fr, epoch) == Some(Pruned(mid, db, h.tree[fr].slot))
  {
    hide Tree, IsAncestor, CacheOk, CoverOk, RememberedOk, IsChainOf, Descending, RecordFinalized, BootstrapIds,
      CreateBootstraps, DbFor, PruneStates, PruneCache, StatesOk, LastOfEpoch;
    ParentIn(h, fr);
    AncestorBelow(h.tree, h.genesis, Finalized(s), fr);
    ChainMoves(cfg, s, h, fr);
    mid := Advanced(s, Recording(cfg, s, fr).value, h.tree[fr].Id(), epoch);
    db := mid.db;
    if h.tree[fr].slot < s.tailSlot {
      DbHigher(cfg, s, mid, h, fr);
    } else {
      DbMoves(cfg, s, mid, h, fr);
      db := CreateBootstraps(cfg, mid, mid.db, Chosen(cfg, s, mid.finalizedBlockRoots, h.tree[fr].slot)).value;
    }
  }

  lemma CachePruned(cfg: Config, s: Store, t: Store, h: Hist)
    requires cfg.Valid() && Rooted(s, h) && CacheOk(cfg, s, h) && Rooted(t, h)
    requires t.latestFinalized.slot > s.latestFinalized.slot && t.tailSlot == s.tailSlot
    requires t.cache ==
             if t.latestFinalized.slot < s.tailSlot then s.cache else PruneCache(s.cache, t.latestFinalized.slot)
    ensures CacheOk(cfg, t, h)
  {
    hide Tree, Recomputed;
    forall id ensures Cacheable(t, h, id) <==>
      Cacheable(s, h, id) && (t.latestFinalized.slot < s.tailSlot || id.slot >= t.latestFinalized.slot)
    {
    }
  }

  lemma RememberedPruned(cfg: Config, s: Store, t: Store, h: Hist)
    requires RememberedOk(cfg, s, h) && forall id :: id in t.cache ==> id in s.cache && t.cache[id] == s.cache[id]
    requires forall k :: k in s.finalizedBlockRoots ==>
               k in t.finalizedBlockRoots && t.finalizedBlockRoots[k] == s.finalizedBlockRoots[k]
    ensures RememberedOk(cfg, t, h)
  {
    forall id | id in t.cache ensures Remembered(cfg, t.finalizedBlockRoots, h, id.root, t.cache[id].finalizedSlot) {
      assert Remembered(cfg, s.finalizedBlockRoots, h, id.root, s.cache[id].finalizedSlot);
    }
  }

  lemma StatesPruned(s: Store, t: Store, h: Hist, slot: nat)
    requires StatesOk(s, h) && t.blocks == PruneBlocks(s.blocks, slot) && t.states == PruneStates(s.states, slot)
    requires forall r :: r in s.blocks ==> r in h.tree && s.blocks[r] == h.tree[r]
    ensures StatesOk(t, h)
  {
    assert forall r, k :: Owns(t, r, k) == (Owns(s, r, k) && s.blocks[r].slot >= slot);
    forall k | k in t.states ensures exists r :: Owns(t, r, k) {
      var r :| Owns(s, r, k);
      assert s.states[k] == h.posts[r];
      assert Owns(t, r, k);
    }
  }

  lemma BlocksPruned(s: Store, t: Store, h: Hist)
    requires BlocksOk(s, h) && t.latestFinalized.slot >= s.latestFinalized.slot
    requires t.blocks == PruneBlocks(s.blocks, t.latestFinalized.slot)
    ensures BlocksOk(t, h) && forall r :: r in s.blocks ==> r in h.tree && s.blocks[r] == h.tree[r]
  {
  }

  lemma CoverStays(cfg: Config, s: Store, t: Store, h: Hist)
    requires cfg.Valid() && Rooted(s, h) && CoverOk(cfg, s, h) && Rooted(t, h) && t.tailSlot == s.tailSlot
    ensures CoverOk(cfg, t, h)
  {
  }

  lemma ViewStays(cfg: Config, s: Store, t: Store, h: Hist)
    requires cfg.Valid() && Rooted(s, h) && Rooted(t, h) && ViewOk(cfg, s, h)
    requires t.tailSlot == s.tailSlot && t.bestUpdates == s.bestUpdates && t.latest == s.latest
    ensures ViewOk(cfg, t, h)
  {
    hide Tree, ShowsPeriods, LatestOf, SignerKnown;
  }

  /** Finalizing a descendant of the finalized block never fails and keeps the invariant. A block that is not
      higher changes nothing; a higher one becomes the finalized block, and the views stay as they are. */
  lemma FinalizeKeeps(cfg: Config, s: Store, h: Hist, fr: Root, epoch: nat)
    requires Inv(cfg, s, h) && Above(s, h, fr) && Descending(s.blocks)
    ensures
      var out := Finalize(cfg, s, fr, epoch);
      && out.Some? && Inv(cfg, out.value, h)
      && out.value.latest == s.latest && out.value.bestUpdates == s.bestUpdates && out.value.tailSlot == s.tailSlot
      && if h.tree[fr].slot <= s.latestFinalized.slot then out.value == s
         else out.value.latestFinalized == h.tree[fr].Id() && out.value.latestFinalizedEpoch == epoch
  {
    hide Tree, IsAncestor, CacheOk, CoverOk, RememberedOk, BlocksOk, Descending, StatesOk, DbFor, ViewOk, PruneStates,
      PruneCache, Finalize, CreateBootstraps, PruneBlocks, IsChainOf, LastOfEpoch, Chosen;
    ParentIn(h, fr);
    if h.tree[fr].slot <= s.latestFinalized.slot {
      NotHigher(cfg, s, h, fr, epoch);
    } else {
      var mid, db := FinalizeSteps(cfg, s, h, fr, epoch);
      var t := Pruned(mid, db, h.tree[fr].slot);
      TopIsRecorded(mid.finalizedBlockRoots, h, fr);
      CachePruned(cfg, s, t, h);
      PrunedWithin(s.cache, h.tree[fr].slot);
      RememberedPruned(cfg, s, t, h);
      BlocksPruned(s, t, h);
      StatesPruned(s, t, h, h.tree[fr].slot);
      CoverStays(cfg, s, t, h);
      ViewStays(cfg, s, t, h);
    }
  }

  lemma PrunedWithin(cache: Cache, slot: nat)
    ensures forall id :: id in PruneCache(cache, slot) ==> id in cache && PruneCache(cache, slot)[id] == cache[id]
  {
  }

  lemma NotHigher(cfg: Config, s: Store, h: Hist, fr: Root, epoch: nat)
    requires Settled(cfg, s, h) && Above(s, h, fr) && Descending(s.blocks) && h.tree[fr].slot <= s.latestFinalized.slot
    ensures Finalize(cfg, s, fr, epoch) == Some(s)
  {
    hide Tree, IsAncestor, CacheOk, CoverOk, RememberedOk, IsChainOf, Descending;
    AncestorBelow(h.tree, h.genesis, Finalized(s), fr);
  }

  /** After finalization, a newly finalized block from the tail slot on has a bootstrap exactly if no later
      finalized block lies at or before its next epoch boundary. */
  lemma FinalizeBootstraps(cfg: Config, s: Store, h: Hist, fr: Root, epoch: nat, a: Root)
    requires Inv(cfg, s, h) && Above(s, h, fr) && Descending(s.blocks)
    requires h.tree[fr].slot > s.latestFinalized.slot && h.tree[fr].slot >= s.tailSlot
    requires a in h.tree && IsAncestor(h.tree, h.genesis, a, fr) && h.tree[a].slot >= FirstSlot(s)
    ensures
      var out := Finalize(cfg, s, fr, epoch);
      && out.Some?
      && (a in out.value.db.headers <==> NoneBeforeBoundary(cfg, out.value.finalizedBlockRoots, h.tree[a].slot))
      && (a in out.value.db.headers ==> HasBootstrap(cfg, out.value.db, h, a))
  {
    hide Tree, IsAncestor, CacheOk, CoverOk, RememberedOk, BlocksOk, IsChainOf, Descending, StatesOk, ViewOk, Finalize,
      CreateBootstraps, Chosen, NoneBeforeBoundary, LastOfEpoch, Period;
    var mid, db := FinalizeSteps(cfg, s, h, fr, epoch);
    BootstrapsCreated(cfg, s, mid, h, fr, a);
  }
}
