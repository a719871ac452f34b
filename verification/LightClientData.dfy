/** Light client data collection, as functions of its state (`light_client_data_collection.py`).
    Python's `KeyError` and `ValueError` become `None`. */
module LightClientData {
  import opened Slots
  import opened Wrappers
  import opened BlockTree

  /** Cached data about a block; `branch` names the state that the sync committee branches were taken from. */
  datatype CachedData = CachedData(branch: Root, best: Option<Update>, latestSignatureSlot: nat, finalizedSlot: nat)

  /** The database that bootstraps are served from, with the states that its sync committees are taken from. */
  datatype Db = Db(
    headers: map<Root, BlockId>,
    branches: map<nat, Root>,
    syncCommittees: map<nat, Option<nat>>,
    checkpointStates: map<Root, PostState>)

  type Cache = map<BlockId, CachedData>

  datatype Store = Store(
    blocks: Blocks,
    finalizedBlockRoots: map<nat, Root>,
    states: map<Root, PostState>,
    latestFinalizedEpoch: nat,
    latestFinalized: BlockId,
    historicalTailSlot: nat,
    tailSlot: nat,
    cache: Cache,
    latest: Option<Update>,
    bestUpdates: map<nat, Update>,
    db: Db)

  const GENESIS_SLOT: nat := 0
  const GENESIS_EPOCH: nat := 0

  /** Retained blocks lie above their retained parents, so walking back ends. */
  ghost predicate Descending(blocks: Blocks) {
    forall r {:trigger blocks[r].parentRoot} :: r in blocks && blocks[r].parentRoot in blocks ==>
      blocks[blocks[r].parentRoot].slot < blocks[r].slot
  }

  /** `get_ancestor_of_block_id`: the walk over the retained blocks. */
  function FindAncestor(blocks: Blocks, root: Root, slot: int): Option<BlockId>
    requires Descending(blocks)
    decreases if root in blocks then blocks[root].slot + 1 else 0
  {
    if root !in blocks then None
    else if blocks[root].slot <= slot then Some(blocks[root].Id())
    else FindAncestor(blocks, blocks[root].parentRoot, slot)
  }

  /** `_block_id_at_finalized_slot`. */
  function BlockIdAtFinalizedSlot(roots: map<nat, Root>, tail: nat, slot: int): Option<BlockId>
    decreases slot
  {
    if slot < tail then None
    else if slot in roots then Some(BlockId(slot, roots[slot]))
    else BlockIdAtFinalizedSlot(roots, tail, slot - 1)
  }

  /** `_cache_lc_data`; a redundant call fails. */
  function CacheLcData(cache: Cache, id: BlockId, data: CachedData): Option<Cache> {
    if id in cache then None else Some(cache[id := data])
  }

  /** The finalized header for an update, and the slot that the attested block's cache entry then remembers. */
  datatype Found = Found(slot: nat, header: Option<BlockId>)

  /** The lookups of `_create_lc_finality_update_from_lc_data`. They fail on a missing block or cache entry; when no
      block is recorded at or before the finalized slot, which leaves the header unbound; and when the recorded block
      is not the one at the genesis slot and is no longer retained. */
  function FinalizedHeader(s: Store, attested: BlockId): Option<Found> {
    if attested.root !in s.blocks || attested !in s.cache then None
    else
      match BlockIdAtFinalizedSlot(s.finalizedBlockRoots, s.historicalTailSlot, s.cache[attested].finalizedSlot)
      case None => None
      case Some(id) =>
        if id.slot == GENESIS_SLOT then Some(Found(id.slot, None))
        else if id.root !in s.blocks then None
        else Some(Found(id.slot, Some(id)))
  }

  /** The write-back to the attested block's entry. */
  function Remember(cache: Cache, attested: BlockId, slot: nat): Cache
    requires attested in cache
  {
    cache[attested := cache[attested].(finalizedSlot := slot)]
  }

  function StartSlot(cfg: Config, epoch: nat): nat {
    epoch * cfg.slotsPerEpoch
  }

  /** `_create_lc_update`; fails when the parent's data is not cached, or its finalized header is not found. */
  function CreateLcUpdate(cfg: Config, s: Store, b: Block, post: PostState, parent: BlockId): Option<Cache>
    requires cfg.Valid()
  {
    var start := StartSlot(cfg, post.finalizedEpoch);
    if parent.slot < s.tailSlot then CacheLcData(s.cache, b.Id(), CachedData(b.stateRoot, None, GENESIS_SLOT, start))
    else if parent !in s.cache then None
    else
      var attested := s.cache[parent];
      var samePeriod := Period(cfg, parent.slot) == Period(cfg, b.slot);
      var best := if samePeriod then attested.best else None;
      var enough := b.participants >= cfg.minParticipants;
      var signature := if enough then b.slot else attested.latestSignatureSlot;
      if !enough || !samePeriod then CacheLcData(s.cache, b.Id(), CachedData(b.stateRoot, best, signature, start))
      else
        match FinalizedHeader(s, parent)
        case None => None
        case Some(found) =>
          var improved := Improve(cfg, best, Update(parent, b.slot, b.participants, found.header));
          CacheLcData(
            Remember(s.cache, parent, found.slot), b.Id(), CachedData(b.stateRoot, improved, signature, start))
  }

  function WithState(s: Store, b: Block, post: PostState): Store {
    s.(blocks := s.blocks[b.root := b], states := s.states[b.stateRoot := post])
  }

  /** `_process_new_block_for_light_client`. */
  function ProcessNewBlock(cfg: Config, s: Store, b: Block, post: PostState, parent: BlockId): Option<Store>
    requires cfg.Valid()
  {
    if b.slot < s.tailSlot then Some(s)
    else
      match CreateLcUpdate(cfg, s, b, post, parent)
      case None => None
      case Some(cache) => Some(s.(cache := cache))
  }

  /** `add_new_block`, from the moment the block is built. */
  function AddNewBlock(cfg: Config, s: Store, b: Block, post: PostState, parent: BlockId): Option<Store>
    requires cfg.Valid()
  {
    ProcessNewBlock(cfg, WithState(s, b, post), b, post, parent)
  }

  /** The loop that commits best updates, from a period down to the lowest one. */
  function CommitPeriods(
      cfg: Config, s: Store, best: map<nat, Update>, root: Root, period: int, lowPeriod: nat, lowSlot: nat)
      : Option<map<nat, Update>>
    requires cfg.Valid() && Descending(s.blocks)
    decreases period
  {
    if period < lowPeriod then Some(best)
    else
      match FindAncestor(s.blocks, root, PeriodStart(cfg, period + 1) - 1)
      case None => Some(best)
      case Some(id) =>
        if id.slot < lowSlot then Some(best)
        else if id !in s.cache then None
        else CommitPeriods(
          cfg, s, CommitOne(cfg, best, period, s.cache[id].best), id.root, period - 1, lowPeriod, lowSlot)
  }

  function CommitOne(cfg: Config, best: map<nat, Update>, period: nat, update: Option<Update>): map<nat, Update> {
    if update.None? || update.value.participants < cfg.minParticipants then best - {period}
    else best[period := update.value]
  }

  /** The latest update for a head, and the cache that remembers its header. The update is `None` when there is
      nothing recent enough to show. */
  function LatestFor(s: Store, head: BlockId, lowSlot: nat): Option<(Option<Update>, Cache)>
    requires Descending(s.blocks)
  {
    if head !in s.cache then None
    else
      var signatureSlot := s.cache[head].latestSignatureSlot;
      if signatureSlot <= lowSlot then Some((None, s.cache))
      else
        match FindAncestor(s.blocks, head.root, signatureSlot)
        case None => Some((None, s.cache))
        case Some(signature) =>
          if signature.slot <= lowSlot then Some((None, s.cache))
          else
            match FindAncestor(s.blocks, signature.root, signature.slot - 1)
            case None => Some((None, s.cache))
            case Some(attested) =>
              if attested.slot < lowSlot then Some((None, s.cache))
              else if signature.root !in s.blocks then None
              else
                match FinalizedHeader(s, attested)
                case None => None
                case Some(found) =>
                  var update := Update(attested, signatureSlot, s.blocks[signature.root].participants, found.header);
                  Some((Some(update), Remember(s.cache, attested, found.slot)))
  }

  /** `_process_head_change_for_light_client`. */
  function ProcessHeadChange(cfg: Config, s: Store, head: BlockId, oldFinalized: BlockId): Option<Store>
    requires cfg.Valid() && Descending(s.blocks)
  {
    if head.slot < s.tailSlot then Some(s)
    else
      var lowSlot := if s.tailSlot >= oldFinalized.slot then s.tailSlot else oldFinalized.slot;
      match CommitPeriods(cfg, s, s.bestUpdates, head.root, Period(cfg, head.slot), Period(cfg, lowSlot), lowSlot)
      case None => None
      case Some(best) =>
        match LatestFor(s, head, lowSlot)
        case None => None
        case Some(latest) => Some(s.(bestUpdates := best, latest := latest.0, cache := latest.1))
  }

  /** The first epoch boundary at or after a slot. */
  function NextEpochBoundarySlot(cfg: Config, slot: nat): nat
    requires cfg.Valid()
  {
    StartSlot(cfg, BoundaryEpoch(cfg, slot))
  }

  lemma NextBoundary(cfg: Config, slot: nat)
    requires cfg.Valid()
    ensures slot <= NextEpochBoundarySlot(cfg, slot) < slot + cfg.slotsPerEpoch
  {
    var n, e := cfg.slotsPerEpoch, EpochAtSlot(slot + cfg.slotsPerEpoch - 1, cfg.slotsPerEpoch);
    EpochOrder(slot + n - 1, e, n);
    EpochOrder(slot + n - 1, e + 1, n);
    assert (e + 1) * n == e * n + n;
  }

  /** The blocks that the finalization loop makes bootstraps for. Each turn continues below the block it found:
      the boundary strictly decreases. */
  function BootstrapIds(cfg: Config, roots: map<nat, Root>, tail: nat, lowSlot: nat, boundary: int): seq<BlockId>
    requires cfg.Valid()
    decreases boundary
  {
    if boundary < lowSlot then []
    else
      match BlockIdAtFinalizedSlot(roots, tail, boundary)
      case None => []
      case Some(id) =>
        FoundBelow(roots, tail, boundary);
        NextBoundary(cfg, id.slot);
        var next := NextEpochBoundarySlot(cfg, id.slot);
        (if id.slot >= lowSlot then [id] else [])
          + if next < cfg.slotsPerEpoch then [] else BootstrapIds(cfg, roots, tail, lowSlot, next - cfg.slotsPerEpoch)
  }

  /** The recorded block at or before a slot: the last one. */
  lemma {:induction false} FoundBelow(roots: map<nat, Root>, tail: nat, slot: int)
    ensures
      match BlockIdAtFinalizedSlot(roots, tail, slot)
      case Some(id) => tail <= id.slot <= slot && id.slot in roots && roots[id.slot] == id.root
                       && forall k :: id.slot < k <= slot ==> k !in roots
      case None => forall k :: tail <= k <= slot ==> k !in roots
    decreases slot
  {
    if slot >= tail && slot !in roots {
      FoundBelow(roots, tail, slot - 1);
    }
  }

  /** `_get_current_sync_committee_for_finalized_period`: the committee at the start of a period, or at the tail slot
      when that is later, from the state of the last finalized block before it. The second result holds the checkpoint
      states, one of which may have been advanced. The tail slot serves as the source's bound, to which it is equal. */
  function CommitteeForPeriod(cfg: Config, s: Store, states: map<Root, PostState>, period: nat)
      : Option<(Option<nat>, map<Root, PostState>)>
    requires cfg.Valid()
  {
    if period < Period(cfg, s.tailSlot) then Some((None, states))
    else
      var slot := CommitteeSlot(cfg, s.tailSlot, period);
      match BlockIdAtFinalizedSlot(s.finalizedBlockRoots, s.historicalTailSlot, slot)
      case None => Some((None, states))
      case Some(id) =>
        if id.root !in s.blocks || s.blocks[id.root].stateRoot !in states then None
        else
          var stateRoot := s.blocks[id.root].stateRoot;
          var state := states[stateRoot];
          var advanced := if slot > state.slot then cfg.advance(state, slot) else state;
          Some((Some(advanced.committee), states[stateRoot := advanced]))
  }

  function CommitteeSlot(cfg: Config, tail: nat, period: nat): nat {
    if PeriodStart(cfg, period) >= tail then PeriodStart(cfg, period) else tail
  }

  /** `_create_lc_bootstrap`. */
  function CreateBootstrap(cfg: Config, s: Store, db: Db, id: BlockId): Option<Db>
    requires cfg.Valid()
  {
    if id.root !in s.blocks then None
    else
      match AddCommittee(cfg, s, db, Period(cfg, id.slot))
      case None => None
      case Some(next) =>
        if id !in s.cache then None
        else Some(next.(
          headers := next.headers[id.root := id], branches := next.branches[id.slot := s.cache[id].branch]))
  }

  function AddCommittee(cfg: Config, s: Store, db: Db, period: nat): Option<Db>
    requires cfg.Valid()
  {
    if period in db.syncCommittees then Some(db)
    else
      match CommitteeForPeriod(cfg, s, db.checkpointStates, period)
      case None => None
      case Some(found) =>
        Some(db.(syncCommittees := db.syncCommittees[period := found.0], checkpointStates := found.1))
  }

  /** `_create_lc_bootstrap` for every chosen block. */
  function CreateBootstraps(cfg: Config, s: Store, db: Db, ids: seq<BlockId>): Option<Db>
    requires cfg.Valid()
    decreases |ids|
  {
    if ids == [] then Some(db)
    else
      match CreateBootstrap(cfg, s, db, ids[0])
      case None => None
      case Some(next) => CreateBootstraps(cfg, s, next, ids[1..])
  }

  function PruneCache(cache: map<BlockId, CachedData>, slot: nat): map<BlockId, CachedData> {
    map id | id in cache && id.slot >= slot :: cache[id]
  }

  /** `_process_finalization_for_light_client`. */
  function ProcessFinalization(cfg: Config, s: Store, finalized: BlockId, oldFinalized: BlockId): Option<Store>
    requires cfg.Valid()
  {
    if finalized.slot < s.tailSlot then Some(s)
    else
      var lowSlot := if oldFinalized.slot + 1 >= s.tailSlot then oldFinalized.slot + 1 else s.tailSlot;
      var ids := BootstrapIds(cfg, s.finalizedBlockRoots, s.historicalTailSlot, lowSlot, finalized.slot);
      match CreateBootstraps(cfg, s, s.db, ids)
      case None => None
      case Some(db) => Some(s.(db := db, cache := PruneCache(s.cache, finalized.slot)))
  }

  /** The finalized roots and checkpoint states, which the recording loop extends. */
  datatype Records = Records(roots: map<nat, Root>, states: map<Root, PostState>)

  /** Records the chain from a newly finalized block back to the finalized slot, and the states of the blocks that
      are last before an epoch boundary; fails on a missing parent or state. */
  function RecordFinalized(cfg: Config, s: Store, records: Records, root: Root, lastEpoch: Option<nat>): Option<Records>
    requires cfg.Valid() && Descending(s.blocks)
    decreases if root in s.blocks then s.blocks[root].slot + 1 else 0
  {
    if root !in s.blocks then None
    else if s.blocks[root].slot <= s.latestFinalized.slot then Some(records)
    else
      var b, epoch := s.blocks[root], BoundaryEpoch(cfg, s.blocks[root].slot);
      var roots := records.roots[b.slot := root];
      if lastEpoch == Some(epoch) then RecordFinalized(cfg, s, Records(roots, records.states), b.parentRoot, lastEpoch)
      else if b.stateRoot !in s.states then None
      else
        RecordFinalized(
          cfg, s, Records(roots, records.states[b.stateRoot := s.states[b.stateRoot]]), b.parentRoot, Some(epoch))
  }

  /** The epoch whose start is the first boundary at or after a slot. */
  function BoundaryEpoch(cfg: Config, slot: nat): nat
    requires cfg.Valid()
  {
    EpochAtSlot(slot + cfg.slotsPerEpoch - 1, cfg.slotsPerEpoch)
  }

  function PruneBlocks(blocks: Blocks, slot: nat): Blocks {
    map r | r in blocks && blocks[r].slot >= slot :: blocks[r]
  }

  function PruneStates(states: map<Root, PostState>, slot: nat): map<Root, PostState> {
    map r | r in states && states[r].slot >= slot :: states[r]
  }

  /** The finalization part of `select_new_head`. */
  function Finalize(cfg: Config, s: Store, root: Root, epoch: nat): Option<Store>
    requires cfg.Valid() && Descending(s.blocks)
  {
    if root !in s.blocks then None
    else
      var before, id := s.latestFinalized, s.blocks[root].Id();
      if id.slot <= before.slot then Some(s)
      else
        match RecordFinalized(cfg, s, Records(s.finalizedBlockRoots, s.db.checkpointStates), root, None)
        case None => None
        case Some(records) =>
          match ProcessFinalization(cfg, Advanced(s, records, id, epoch), id, before)
          case None => None
          case Some(next) =>
            Some(next.(blocks := PruneBlocks(next.blocks, id.slot), states := PruneStates(next.states, id.slot)))
  }

  /** The state in which finalization is processed. */
  function Advanced(s: Store, records: Records, id: BlockId, epoch: nat): Store {
    s.(
      finalizedBlockRoots := records.roots, db := s.db.(checkpointStates := records.states),
      latestFinalizedEpoch := epoch, latestFinalized := id)
  }

  /** `select_new_head`. */
  function SelectNewHead(cfg: Config, s: Store, head: BlockId): Option<Store>
    requires cfg.Valid() && Descending(s.blocks)
  {
    match ProcessHeadChange(cfg, s, head, s.latestFinalized)
    case None => None
    case Some(next) =>
      if head.root !in next.blocks || next.blocks[head.root].stateRoot !in next.states then None
      else
        var post := next.states[next.blocks[head.root].stateRoot];
        if post.finalizedEpoch == GENESIS_EPOCH then Some(next)
        else Finalize(cfg, next, post.finalizedRoot, post.finalizedEpoch)
  }

  /** `setup_lc_data_collection_test`, from the identifier of the latest block of the initial state, the block that is
      stored for it, whether the specification of the state is Altair's or a later one, and the configured epoch of the
      Altair fork. The assertion on the state's slot becomes `None`; so does caching data of an earlier state, for
      which no merkle proofs are defined. */
  function SetUp(cfg: Config, id: BlockId, stored: Block, state: PostState, postAltair: bool, altairEpoch: nat)
    : Option<Store>
    requires cfg.Valid()
  {
    if state.slot % cfg.slotsPerEpoch != 0 || !postAltair then None
    else
      var s := BareStore(cfg, id, stored, state, altairEpoch);
      match CreateBootstrap(cfg, s, s.db, id)
      case None => None
      case Some(db) => Some(s.(db := db))
  }

  /** What is set up before the first bootstrap. */
  function BareStore(cfg: Config, id: BlockId, stored: Block, state: PostState, altairEpoch: nat): Store {
    var start, altair := StartSlot(cfg, state.finalizedEpoch), StartSlot(cfg, altairEpoch);
    Store(
      map[id.root := stored], map[id.slot := id.root], map[stored.stateRoot := state],
      state.finalizedEpoch, BlockId(start, state.finalizedRoot), state.slot,
      if state.slot >= altair then state.slot else altair,
      map[id := CachedData(stored.stateRoot, None, GENESIS_SLOT, start)], None, map[],
      Db(map[], map[], map[], map[stored.stateRoot := state]))
  }
}
