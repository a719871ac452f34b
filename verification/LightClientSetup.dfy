/** The start of a run (`setup_lc_data_collection_test`). */
module LightClientSetup {
  import opened Slots
  import opened Wrappers
  import opened BlockTree
  import opened LightClientData
  import opened LightClientInvariant

  function InitialHist(stored: Block, state: PostState): Hist {
    Hist(map[stored.root := stored], stored.root, map[stored.root := state], map[], None, 0)
  }

  /** A genesis state: the identifier of its latest block is that of the block that setup stores for it. */
  predicate IsGenesis(stored: Block, state: PostState) {
    && state.slot == GENESIS_SLOT == stored.slot && state.finalizedEpoch == GENESIS_EPOCH
    && stored.parentRoot != stored.root
  }

  /** What the first bootstrap leaves in the database. */
  lemma FirstBootstrap(cfg: Config, stored: Block, state: PostState, altairEpoch: nat)
    requires cfg.Valid() && IsGenesis(stored, state)
    ensures
      var s := BareStore(cfg, stored.Id(), stored, state, altairEpoch);
      var db := CreateBootstrap(cfg, s, s.db, stored.Id());
      && db.Some?
      && db.value.headers == map[stored.root := stored.Id()]
      && db.value.branches == map[GENESIS_SLOT := stored.stateRoot]
      && db.value.syncCommittees.Keys == {Period(cfg, GENESIS_SLOT)} && stored.stateRoot in db.value.checkpointStates
      && (Period(cfg, GENESIS_SLOT) >= Period(cfg, s.tailSlot) ==>
            db.value.syncCommittees[Period(cfg, GENESIS_SLOT)].Some?)
  {
    hide Period, CommitteeSlot, StartSlot, BlockIdAtFinalizedSlot;
    var s := BareStore(cfg, stored.Id(), stored, state, altairEpoch);
    var period := Period(cfg, GENESIS_SLOT);
    var slot := CommitteeSlot(cfg, s.tailSlot, period);
    FirstFound(s.finalizedBlockRoots, stored.root, slot);
  }

  lemma {:induction false} FirstFound(roots: map<nat, Root>, root: Root, slot: nat)
    requires roots == map[GENESIS_SLOT := root]
    ensures BlockIdAtFinalizedSlot(roots, GENESIS_SLOT, slot) == Some(BlockId(GENESIS_SLOT, root))
  {
    if slot > 0 {
      FirstFound(roots, root, slot - 1);
    }
  }

  lemma TailIsBoundary(cfg: Config, stored: Block, state: PostState, altairEpoch: nat)
    requires cfg.Valid() && IsGenesis(stored, state)
    ensures BareStore(cfg, stored.Id(), stored, state, altairEpoch).tailSlot % cfg.slotsPerEpoch == 0
  {
    BoundarySlot(altairEpoch, cfg.slotsPerEpoch);
  }

  /** From a genesis state setup succeeds exactly if the state is not older than Altair, and then establishes the
      invariant, with no updates. The tail slot is the start of the Altair epoch. */
  lemma InitialInv(cfg: Config, stored: Block, state: PostState, postAltair: bool, altairEpoch: nat)
    requires cfg.Valid() && IsGenesis(stored, state)
    ensures
      var s := SetUp(cfg, stored.Id(), stored, state, postAltair, altairEpoch);
      && (s.Some? <==> postAltair)
      && (s.Some? ==>
            && Inv(cfg, s.value, InitialHist(stored, state)) && s.value.tailSlot == altairEpoch * cfg.slotsPerEpoch
            && s.value.latestFinalized == BlockId(GENESIS_SLOT, state.finalizedRoot)
            && s.value.latestFinalizedEpoch == GENESIS_EPOCH && s.value.latest == None && s.value.bestUpdates == map[])
  {
    hide CacheOk, Period, CreateBootstrap, RememberedOk, BlocksOk;
    FirstBootstrap(cfg, stored, state, altairEpoch);
    TailIsBoundary(cfg, stored, state, altairEpoch);
    if postAltair {
      var s := SetUp(cfg, stored.Id(), stored, state, postAltair, altairEpoch).value;
      InitialCache(cfg, s, stored, state, altairEpoch);
      assert Owns(s, stored.root, stored.stateRoot);
    }
  }

  lemma InitialCache(cfg: Config, s: Store, stored: Block, state: PostState, altairEpoch: nat)
    requires cfg.Valid() && IsGenesis(stored, state)
    requires s == BareStore(cfg, stored.Id(), stored, state, altairEpoch).(db := s.db)
    ensures Rooted(s, InitialHist(stored, state)) && CacheOk(cfg, s, InitialHist(stored, state))
    ensures RememberedOk(cfg, s, InitialHist(stored, state)) && BlocksOk(s, InitialHist(stored, state))
  {
    hide Period;
    var h, id := InitialHist(stored, state), stored.Id();
    assert Recomputed(cfg, s.tailSlot, h, stored.root, 0) == CachedData(stored.stateRoot, None, GENESIS_SLOT, 0);
    forall i | Cacheable(s, h, i) ensures i == id {
    }
    assert s.blocks == PruneBlocks(h.tree, s.latestFinalized.slot);
  }

  /** From any other state no header can ever be looked up for the first block: its finalized slot lies before
      everything that is recorded, so an update that attests to it fails. */
  lemma OnlyFromGenesis(cfg: Config, id: BlockId, stored: Block, state: PostState, postAltair: bool, altairEpoch: nat)
    requires cfg.Valid() && id.slot <= state.slot && SetUp(cfg, id, stored, state, postAltair, altairEpoch).Some?
    requires StartSlot(cfg, state.finalizedEpoch) < state.slot || IsGenesis(stored, state)
    ensures
      var s := SetUp(cfg, id, stored, state, postAltair, altairEpoch).value;
      FinalizedHeader(s, id).Some? <==> state.slot == GENESIS_SLOT
  {
    hide Period, CreateBootstrap, BlockIdAtFinalizedSlot;
    var s := SetUp(cfg, id, stored, state, postAltair, altairEpoch).value;
    FoundBelow(s.finalizedBlockRoots, s.historicalTailSlot, StartSlot(cfg, state.finalizedEpoch));
    if state.slot == GENESIS_SLOT {
      FirstFound(s.finalizedBlockRoots, id.root, GENESIS_SLOT);
    }
  }
}
