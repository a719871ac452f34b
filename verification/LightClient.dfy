/** The light client data collection, updated in place (`light_client_data_collection.py`). Every method is
    proved against the function of the same name on stores; a method that reports failure stands for one
    that raises. */
module LightClient {
  import opened Wrappers
  import opened BlockTree
  import opened LightClientInvariant
  import opened LightClientBlock
  import opened LightClientSetup
  import opened LightClientHead
  import opened LightClientRun
  import opened LightClientData
  import Data = LightClientData

  class DataCollection {
    const cfg: Config
    var blocks: Blocks
    var finalizedBlockRoots: map<nat, Root>
    var states: map<Root, PostState>
    var latestFinalizedEpoch: nat
    var latestFinalized: BlockId
    var historicalTailSlot: nat
    var tailSlot: nat
    var cache: Cache
    var latest: Option<Update>
    var bestUpdates: map<nat, Update>
    var db: Db
    ghost var hist: Hist

    function Snapshot(): Store
      reads this
    {
      Store(
        blocks, finalizedBlockRoots, states, latestFinalizedEpoch, latestFinalized, historicalTailSlot, tailSlot, cache,
        latest, bestUpdates, db)
    }

    ghost predicate Valid()
      reads this
    {
      Inv(cfg, Snapshot(), hist)
    }

    /** What is set up before the first bootstrap. */
    constructor (cfg: Config, id: BlockId, stored: Block, state: PostState, altairEpoch: nat)
      ensures this.cfg == cfg && Snapshot() == BareStore(cfg, id, stored, state, altairEpoch)
      ensures hist == InitialHist(stored, state)
    {
      var start, altair := StartSlot(cfg, state.finalizedEpoch), StartSlot(cfg, altairEpoch);
      this.cfg := cfg;
      blocks, finalizedBlockRoots := map[id.root := stored], map[id.slot := id.root];
      states := map[stored.stateRoot := state];
      latestFinalizedEpoch, latestFinalized := state.finalizedEpoch, BlockId(start, state.finalizedRoot);
      historicalTailSlot, tailSlot := state.slot, if state.slot >= altair then state.slot else altair;
      cache := map[id := CachedData(stored.stateRoot, None, GENESIS_SLOT, start)];
      latest, bestUpdates := None, map[];
      db := Db(map[], map[], map[], map[stored.stateRoot := state]);
      hist := InitialHist(stored, state);
    }

    method GetAncestorOfBlockId(id: BlockId, slot: int) returns (found: Option<BlockId>)
      requires Descending(blocks)
      ensures found == FindAncestor(blocks, id.root, slot)
    {
      if id.root !in blocks {
        return None;
      }
      var block := blocks[id.root];
      while true
        invariant FindAncestor(blocks, id.root, slot) ==
                  if block.slot <= slot then Some(block.Id()) else FindAncestor(blocks, block.parentRoot, slot)
        invariant block.parentRoot in blocks ==> blocks[block.parentRoot].slot < block.slot
        decreases block.slot
      {
        if block.slot <= slot {
          return Some(block.Id());
        }
        if block.parentRoot !in blocks {
          return None;
        }
        block := blocks[block.parentRoot];
      }
    }

    method BlockIdAtFinalizedSlot(slot: int) returns (found: Option<BlockId>)
      ensures found == Data.BlockIdAtFinalizedSlot(finalizedBlockRoots, historicalTailSlot, slot)
    {
      var current := slot;
      while current >= historicalTailSlot
        invariant Data.BlockIdAtFinalizedSlot(finalizedBlockRoots, historicalTailSlot, slot)
               == Data.BlockIdAtFinalizedSlot(finalizedBlockRoots, historicalTailSlot, current)
      {
        if current in finalizedBlockRoots {
          return Some(BlockId(current, finalizedBlockRoots[current]));
        }
        current := current - 1;
      }
      return None;
    }

    method CacheLcData(id: BlockId, data: CachedData) returns (ok: bool)
      modifies this`cache
      ensures ok == (id !in old(cache))
      ensures cache == if ok then old(cache)[id := data] else old(cache)
    {
      ok := id !in cache;
      if ok {
        cache := cache[id := data];
      }
    }

    /** Looks up a finalized header, and writes the slot of the block it finds back to the cache. */
    method LookUpHeader(attested: BlockId) returns (ok: bool, header: Option<BlockId>)
      modifies this`cache
      ensures ok <==> FinalizedHeader(old(Snapshot()), attested).Some?
      ensures ok ==>
        && attested in old(cache) && header == FinalizedHeader(old(Snapshot()), attested).value.header
        && cache == Remember(old(cache), attested, FinalizedHeader(old(Snapshot()), attested).value.slot)
    {
      ok, header := false, None;
      if attested.root !in blocks || attested !in cache {
        return;
      }
      var data := cache[attested];
      var found := BlockIdAtFinalizedSlot(data.finalizedSlot);
      if found.None? {
        return;
      }
      if found.value.slot != data.finalizedSlot {
        cache := cache[attested := data.(finalizedSlot := found.value.slot)];
      }
      if found.value.slot == GENESIS_SLOT {
        return true, None;
      }
      if found.value.root !in blocks {
        return;
      }
      return true, found;
    }

    method CreateLcUpdate(b: Block, post: PostState, parent: BlockId) returns (ok: bool)
      requires cfg.Valid()
      modifies this`cache
      ensures Data.CreateLcUpdate(cfg, old(Snapshot()), b, post, parent) == if ok then Some(cache) else None
    {
      hide Period, FinalizedHeader;
      var start := StartSlot(cfg, post.finalizedEpoch);
      if parent.slot < tailSlot {
        ok := CacheLcData(b.Id(), CachedData(b.stateRoot, None, GENESIS_SLOT, start));
        return;
      }
      if parent !in cache {
        return false;
      }
      var attested := cache[parent];
      var attestedPeriod, signaturePeriod := Period(cfg, parent.slot), Period(cfg, b.slot);
      var best := attested.best;
      if attestedPeriod != signaturePeriod {
        best := None;
      }
      var signatureSlot := b.slot;
      if b.participants < cfg.minParticipants {
        signatureSlot := attested.latestSignatureSlot;
      }
      if b.participants < cfg.minParticipants || attestedPeriod != signaturePeriod {
        ok := CacheLcData(b.Id(), CachedData(b.stateRoot, best, signatureSlot, start));
        return;
      }
      var header;
      ok, header := LookUpHeader(parent);
      if ok {
        var update := Update(parent, b.slot, b.participants, header);
        if best.None? || cfg.isBetter(update, best.value) {
          best := Some(update);
        }
        ok := CacheLcData(b.Id(), CachedData(b.stateRoot, best, signatureSlot, start));
      }
    }

    method ProcessNewBlock(b: Block, post: PostState, parent: BlockId) returns (ok: bool)
      requires cfg.Valid()
      modifies this`cache
      ensures Data.ProcessNewBlock(cfg, old(Snapshot()), b, post, parent) == if ok then Some(Snapshot()) else None
    {
      hide Data.CreateLcUpdate;
      if b.slot < tailSlot {
        return true;
      }
      ok := CreateLcUpdate(b, post, parent);
    }

    /** A new block. Under the assumptions it succeeds exactly if a header is available for the update it makes, and
        then keeps the invariant. */
    method AddNewBlock(b: Block, post: PostState, parent: BlockId) returns (ok: bool)
      requires cfg.Valid()
      modifies this
      ensures Data.AddNewBlock(cfg, old(Snapshot()), b, post, parent) == if ok then Some(Snapshot()) else None
      ensures old(Expected(cfg, Snapshot(), hist, NewBlock(b, post, parent))) ==>
                && (ok <==> old(Succeeds(cfg, Snapshot(), hist, NewBlock(b, post, parent))))
                && (ok ==> Valid() && hist == old(After(cfg, Snapshot(), hist, NewBlock(b, post, parent))))
    {
      hide Inv, Data.ProcessNewBlock, Legal, After, Succeeds, Rooted, FinalOk;
      ghost var e, before, known := NewBlock(b, post, parent), Snapshot(), hist;
      blocks := blocks[b.root := b];
      states := states[b.stateRoot := post];
      ok := ProcessNewBlock(b, post, parent);
      if Expected(cfg, before, known, e) {
        DoKeeps(cfg, before, known, e);
        InvRooted(cfg, before, known);
        hist := After(cfg, before, known, e);
      }
    }

    /** Commits the best updates of the head's chain, from its period down. */
    method CommitBestUpdates(head: BlockId, lowSlot: nat) returns (ok: bool)
      requires cfg.Valid() && Descending(blocks)
      modifies this`bestUpdates
      ensures
        CommitPeriods(
          cfg, old(Snapshot()), old(bestUpdates), head.root, Period(cfg, head.slot), Period(cfg, lowSlot), lowSlot)
        == if ok then Some(bestUpdates) else None
    {
      hide FindAncestor, Period, PeriodStart;
      var lowPeriod := Period(cfg, lowSlot);
      var id, period: int := head, Period(cfg, head.slot);
      ghost var s := Snapshot();
      ghost var result := CommitPeriods(cfg, s, bestUpdates, id.root, period, lowPeriod, lowSlot);
      while period >= lowPeriod
        invariant result == CommitPeriods(cfg, s, bestUpdates, id.root, period, lowPeriod, lowSlot)
      {
        var found := GetAncestorOfBlockId(id, PeriodStart(cfg, period + 1) - 1);
        if found.None? || found.value.slot < lowSlot {
          break;
        }
        id := found.value;
        if id !in cache {
          return false;
        }
        var best := cache[id].best;
        if best.None? || best.value.participants < cfg.minParticipants {
          bestUpdates := bestUpdates - {period};
        } else {
          bestUpdates := bestUpdates[period := best.value];
        }
        period := period - 1;
      }
      return true;
    }

    method UpdateLatest(head: BlockId, lowSlot: nat) returns (ok: bool)
      requires Descending(blocks)
      modifies this`latest, this`cache
      ensures LatestFor(old(Snapshot()), head, lowSlot) == if ok then Some((latest, cache)) else None
    {
      hide FindAncestor, Descending, FinalizedHeader;
      if head !in cache {
        return false;
      }
      var signatureSlot := cache[head].latestSignatureSlot;
      if signatureSlot <= lowSlot {
        latest := None;
        return true;
      }
      var signature := GetAncestorOfBlockId(head, signatureSlot);
      if signature.None? || signature.value.slot <= lowSlot {
        latest := None;
        return true;
      }
      var attested := GetAncestorOfBlockId(signature.value, signature.value.slot - 1);
      if attested.None? || attested.value.slot < lowSlot {
        latest := None;
        return true;
      }
      if signature.value.root !in blocks {
        return false;
      }
      var participants, header := blocks[signature.value.root].participants, None;
      ok, header := LookUpHeader(attested.value);
      if ok {
        latest := Some(Update(attested.value, signatureSlot, participants, header));
      }
    }

    method ProcessHeadChange(head: BlockId, oldFinalized: BlockId) returns (ok: bool)
      requires cfg.Valid() && Descending(blocks)
      modifies this`bestUpdates, this`latest, this`cache
      ensures Data.ProcessHeadChange(cfg, old(Snapshot()), head, oldFinalized)
           == if ok then Some(Snapshot()) else None
    {
      hide CommitPeriods, LatestFor, Period, Descending;
      if head.slot < tailSlot {
        return true;
      }
      var lowSlot := if tailSlot >= oldFinalized.slot then tailSlot else oldFinalized.slot;
      ghost var before := Snapshot();
      ok := CommitBestUpdates(head, lowSlot);
      if ok {
        LatestIgnoresBest(before, Snapshot(), head, lowSlot);
        ok := UpdateLatest(head, lowSlot);
      }
    }

    /** The committee at the start of a period, as far as finalized. */
    method GetCommitteeForPeriod(period: nat) returns (ok: bool, committee: Option<nat>)
      requires cfg.Valid()
      modifies this`db
      ensures CommitteeForPeriod(cfg, old(Snapshot()), old(db).checkpointStates, period)
           == if ok then Some((committee, db.checkpointStates)) else None
      ensures db == old(db).(checkpointStates := db.checkpointStates)
    {
      hide Period, PeriodStart;
      if period < Period(cfg, tailSlot) {
        return true, None;
      }
      var slot := if PeriodStart(cfg, period) >= tailSlot then PeriodStart(cfg, period) else tailSlot;
      var found := BlockIdAtFinalizedSlot(slot);
      if found.None? {
        return true, None;
      }
      if found.value.root !in blocks || blocks[found.value.root].stateRoot !in db.checkpointStates {
        return false, None;
      }
      var stateRoot := blocks[found.value.root].stateRoot;
      var state := db.checkpointStates[stateRoot];
      if slot > state.slot {
        state := cfg.advance(state, slot);
      }
      db := db.(checkpointStates := db.checkpointStates[stateRoot := state]);
      return true, Some(state.committee);
    }

    method CreateLcBootstrap(id: BlockId) returns (ok: bool)
      requires cfg.Valid()
      modifies this`db
      ensures CreateBootstrap(cfg, old(Snapshot()), old(db), id) == if ok then Some(db) else None
    {
      hide Period, CommitteeForPeriod;
      if id.root !in blocks {
        return false;
      }
      var period := Period(cfg, id.slot);
      if period !in db.syncCommittees {
        var committee;
        ok, committee := GetCommitteeForPeriod(period);
        if !ok {
          return;
        }
        db := db.(syncCommittees := db.syncCommittees[period := committee]);
      }
      db := db.(headers := db.headers[id.root := id]);
      if id !in cache {
        return false;
      }
      db := db.(branches := db.branches[id.slot := cache[id].branch]);
      return true;
    }

    /** Creates the bootstraps of newly finalized epoch boundary blocks. */
    method CreateLcBootstraps(finalizedSlot: nat, lowSlot: nat) returns (ok: bool)
      requires cfg.Valid()
      modifies this`db
      ensures
        CreateBootstraps(
          cfg, old(Snapshot()), old(db),
          BootstrapIds(cfg, finalizedBlockRoots, historicalTailSlot, lowSlot, finalizedSlot))
        == if ok then Some(db) else None
    {
      hide NextEpochBoundarySlot, Data.BlockIdAtFinalizedSlot, CreateBootstrap;
      var boundarySlot: int := finalizedSlot;
      ghost var s := Snapshot();
      ghost var chosen := (slot: int) => BootstrapIds(cfg, s.finalizedBlockRoots, s.historicalTailSlot, lowSlot, slot);
      ghost var result := CreateBootstraps(cfg, s, db, chosen(boundarySlot));
      while boundarySlot >= lowSlot
        invariant result == CreateBootstraps(cfg, s, db, chosen(boundarySlot))
      {
        var found := BlockIdAtFinalizedSlot(boundarySlot);
        if found.None? {
          break;
        }
        FoundBelow(finalizedBlockRoots, historicalTailSlot, boundarySlot);
        NextBoundary(cfg, found.value.slot);
        if found.value.slot >= lowSlot {
          BootstrapIgnoresDb(cfg, s, Snapshot(), db, found.value);
          ok := CreateLcBootstrap(found.value);
          if !ok {
            return;
          }
        }
        boundarySlot := NextEpochBoundarySlot(cfg, found.value.slot);
        if boundarySlot < cfg.slotsPerEpoch {
          break;
        }
        boundarySlot := boundarySlot - cfg.slotsPerEpoch;
      }
      return true;
    }

    method ProcessFinalization(finalized: BlockId, oldFinalized: BlockId) returns (ok: bool)
      requires cfg.Valid()
      modifies this`db, this`cache
      ensures Data.ProcessFinalization(cfg, old(Snapshot()), finalized, oldFinalized)
           == if ok then Some(Snapshot()) else None
    {
      hide CreateBootstraps, BootstrapIds;
      if finalized.slot < tailSlot {
        return true;
      }
      var lowSlot := if oldFinalized.slot + 1 >= tailSlot then oldFinalized.slot + 1 else tailSlot;
      ok := CreateLcBootstraps(finalized.slot, lowSlot);
      if ok {
        var idsToDelete := set id | id in cache && id.slot < finalized.slot;
        assert PruneCache(cache, finalized.slot) == cache - idsToDelete;
        cache := DeleteKeys(cache, idsToDelete);
      }
    }

    /** Records the chain from a block down to the latest finalized slot. */
    method RecordFinalizedChain(root: Root) returns (ok: bool)
      requires cfg.Valid() && Descending(blocks)
      modifies this`finalizedBlockRoots, this`db
      ensures
        RecordFinalized(cfg, old(Snapshot()), Records(old(finalizedBlockRoots), old(db).checkpointStates), root, None)
        == if ok then Some(Records(finalizedBlockRoots, db.checkpointStates)) else None
      ensures db == old(db).(checkpointStates := db.checkpointStates)
    {
      hide Descending, BoundaryEpoch;
      if root !in blocks {
        return false;
      }
      ghost var s := Snapshot();
      var block, id, lastEpoch := blocks[root], BlockId(blocks[root].slot, root), None;
      while id.slot > latestFinalized.slot
        invariant id.root in blocks && blocks[id.root] == block && block.slot == id.slot
        invariant RecordFinalized(cfg, s, Records(s.finalizedBlockRoots, s.db.checkpointStates), root, None)
               == RecordFinalized(cfg, s, Records(finalizedBlockRoots, db.checkpointStates), id.root, lastEpoch)
        invariant db == old(db).(checkpointStates := db.checkpointStates)
        decreases id.slot
      {
        ParentLower(blocks, id.root);
        finalizedBlockRoots := finalizedBlockRoots[id.slot := id.root];
        var epoch := BoundaryEpoch(cfg, id.slot);
        if Some(epoch) != lastEpoch {
          if block.stateRoot !in states {
            return false;
          }
          db := db.(checkpointStates := db.checkpointStates[block.stateRoot := states[block.stateRoot]]);
          lastEpoch := Some(epoch);
        }
        if block.parentRoot !in blocks {
          return false;
        }
        id := BlockId(blocks[block.parentRoot].slot, block.parentRoot);
        block := blocks[block.parentRoot];
      }
      return true;
    }

    /** Drops the blocks and states from before a slot. */
    method DropBefore(slot: nat)
      modifies this`blocks, this`states
      ensures blocks == PruneBlocks(old(blocks), slot) && states == PruneStates(old(states), slot)
    {
      var blocksToDelete := set r | r in blocks && blocks[r].slot < slot;
      blocks := DeleteKeys(blocks, blocksToDelete);
      var statesToDelete := set r | r in states && states[r].slot < slot;
      states := DeleteKeys(states, statesToDelete);
    }

    method Finalize(root: Root, epoch: nat) returns (ok: bool)
      requires cfg.Valid() && Descending(blocks)
      modifies this`finalizedBlockRoots, this`latestFinalizedEpoch, this`latestFinalized
      modifies this`db, this`cache, this`blocks, this`states
      ensures Data.Finalize(cfg, old(Snapshot()), root, epoch) == if ok then Some(Snapshot()) else None
    {
      hide RecordFinalized, Data.ProcessFinalization, Descending;
      if root !in blocks {
        return false;
      }
      var oldFinalized, finalized := latestFinalized, blocks[root].Id();
      if finalized.slot <= oldFinalized.slot {
        return true;
      }
      ok := RecordFinalizedChain(root);
      if !ok {
        return;
      }
      latestFinalizedEpoch, latestFinalized := epoch, finalized;
      ok := ProcessFinalization(finalized, oldFinalized);
      if ok {
        DropBefore(finalized.slot);
      }
    }

    /** A new head. Under the assumptions it succeeds exactly if its latest update can be built, and then keeps the
        invariant. */
    method SelectNewHead(head: BlockId) returns (ok: bool)
      requires cfg.Valid() && Descending(blocks)
      modifies this
      ensures Data.SelectNewHead(cfg, old(Snapshot()), head) == if ok then Some(Snapshot()) else None
      ensures old(Expected(cfg, Snapshot(), hist, NewHead(head))) ==>
                && (ok <==> old(Succeeds(cfg, Snapshot(), hist, NewHead(head))))
                && (ok ==> Valid() && hist == old(After(cfg, Snapshot(), hist, NewHead(head))))
    {
      hide Inv, Data.SelectNewHead, Descending, Legal, After, Succeeds, Rooted, FinalOk;
      ghost var e, before, known := NewHead(head), Snapshot(), hist;
      ok := SwitchHead(head);
      if Expected(cfg, before, known, e) {
        DoKeeps(cfg, before, known, e);
        InvRooted(cfg, before, known);
        hist := After(cfg, before, known, e);
      }
    }

    method SwitchHead(head: BlockId) returns (ok: bool)
      requires cfg.Valid() && Descending(blocks)
      modifies this`bestUpdates, this`latest, this`finalizedBlockRoots, this`latestFinalizedEpoch, this`latestFinalized,
        this`db, this`cache, this`blocks, this`states
      ensures Data.SelectNewHead(cfg, old(Snapshot()), head) == if ok then Some(Snapshot()) else None
    {
      hide Data.ProcessHeadChange, Data.Finalize, Descending;
      ok := ProcessHeadChange(head, latestFinalized);
      if !ok {
        return;
      }
      if head.root !in blocks || blocks[head.root].stateRoot !in states {
        return false;
      }
      var post := states[blocks[head.root].stateRoot];
      if post.finalizedEpoch != GENESIS_EPOCH {
        ok := Finalize(post.finalizedRoot, post.finalizedEpoch);
      }
    }
  }

  lemma InvRooted(cfg: Config, s: Store, h: Hist)
    requires Inv(cfg, s, h)
    ensures Rooted(s, h) && FinalOk(s, h)
  {
    hide Rooted, FinalOk;
  }

  lemma ParentLower(blocks: Blocks, r: Root)
    requires Descending(blocks) && r in blocks
    ensures blocks[r].parentRoot in blocks ==> blocks[blocks[r].parentRoot].slot < blocks[r].slot
  {
  }

  lemma LatestIgnoresBest(s: Store, t: Store, head: BlockId, lowSlot: nat)
    requires Descending(s.blocks) && t == s.(bestUpdates := t.bestUpdates)
    ensures LatestFor(t, head, lowSlot) == LatestFor(s, head, lowSlot)
  {
    hide FindAncestor, Descending;
  }

  lemma BootstrapIgnoresDb(cfg: Config, s: Store, t: Store, db: Db, id: BlockId)
    requires cfg.Valid() && t == s.(db := t.db)
    ensures CreateBootstrap(cfg, t, db, id) == CreateBootstrap(cfg, s, db, id)
  {
    hide Period, PeriodStart;
  }

  /** Setup; `None` where it fails. From a genesis state it fails exactly if the state is older than Altair. */
  method SetUp(cfg: Config, id: BlockId, stored: Block, state: PostState, postAltair: bool, altairEpoch: nat)
    returns (test: Option<DataCollection>)
    requires cfg.Valid()
    ensures test.Some? <==> Data.SetUp(cfg, id, stored, state, postAltair, altairEpoch).Some?
    ensures test.Some? ==>
      && fresh(test.value) && test.value.cfg == cfg
      && Some(test.value.Snapshot()) == Data.SetUp(cfg, id, stored, state, postAltair, altairEpoch)
    ensures IsGenesis(stored, state) && id == stored.Id() ==>
      && (test.Some? <==> postAltair)
      && (test.Some? ==> test.value.Valid() && test.value.hist == InitialHist(stored, state))
  {
    hide Inv, BareStore, CreateBootstrap;
    if IsGenesis(stored, state) && id == stored.Id() {
      InitialInv(cfg, stored, state, postAltair, altairEpoch);
    }
    if state.slot % cfg.slotsPerEpoch != 0 {
      return None;
    }
    if !postAltair {
      return None;
    }
    var made := new DataCollection(cfg, id, stored, state, altairEpoch);
    var ok := made.CreateLcBootstrap(id);
    test := if ok then Some(made) else None;
  }

  /** Deletes keys one by one. */
  method DeleteKeys<K, V>(m: map<K, V>, keys: set<K>) returns (rest: map<K, V>)
    ensures rest == m - keys
  {
    rest := m;
    var todo := keys;
    while todo != {}
      invariant todo <= keys
      invariant rest == m - (keys - todo)
      decreases |todo|
    {
      var key :| key in todo;
      rest := rest - {key};
      todo := todo - {key};
    }
  }
}
