/** What every reachable state of the light client data collection satisfies. */
module LightClientInvariant {
  import opened Wrappers
  import opened BlockTree
  import opened LightClientData

  /** The history of a run: every block ever added with its post-state, the first block, the finalized headers that
      have been looked up, the head that the views show, and the slot below which they show nothing. */
  datatype Hist = Hist(
    tree: Blocks, genesis: Root, posts: map<Root, PostState>, finality: Finality, head: Option<Root>, low: nat)

  ghost predicate Rooted(s: Store, h: Hist) {
    && Tree(h.tree, h.genesis)
    && h.tree[h.genesis].slot == s.historicalTailSlot <= s.tailSlot
    && s.historicalTailSlot <= s.latestFinalized.slot
  }

  /** Exactly the blocks from the finalized slot on are retained. */
  ghost predicate BlocksOk(s: Store, h: Hist) {
    s.blocks == PruneBlocks(h.tree, s.latestFinalized.slot)
  }

  /** The latest finalized block, as recorded for its slot. */
  function Finalized(s: Store): Root
    requires s.latestFinalized.slot in s.finalizedBlockRoots
  {
    s.finalizedBlockRoots[s.latestFinalized.slot]
  }

  /** `roots` records, by slot, exactly the chain from the first block to `top`. */
  ghost predicate IsChainOf(roots: map<nat, Root>, h: Hist, top: Root)
    requires Tree(h.tree, h.genesis) && top in h.tree
  {
    && (forall k {:trigger k in roots} {:trigger roots[k]} :: k in roots ==>
          roots[k] in h.tree && h.tree[roots[k]].slot == k && IsAncestor(h.tree, h.genesis, roots[k], top))
    && (forall r {:trigger IsAncestor(h.tree, h.genesis, r, top)} ::
          r in h.tree && IsAncestor(h.tree, h.genesis, r, top) ==>
          h.tree[r].slot in roots && roots[h.tree[r].slot] == r)
  }

  ghost predicate FinalOk(s: Store, h: Hist)
    requires Rooted(s, h)
  {
    && s.latestFinalized.slot in s.finalizedBlockRoots && Finalized(s) in h.tree
    && h.tree[Finalized(s)].slot == s.latestFinalized.slot
    && IsChainOf(s.finalizedBlockRoots, h, Finalized(s))
    && (s.latestFinalized.root == Finalized(s) || Finalized(s) == h.genesis)
  }

  ghost function SignatureSlot(cfg: Config, tail: nat, h: Hist, r: Root): nat
    requires Tree(h.tree, h.genesis) && r in h.tree
  {
    match LastSigned(cfg, tail, h.tree, h.genesis, r)
    case None => GENESIS_SLOT
    case Some(x) => h.tree[x].slot
  }

  ghost function Best(cfg: Config, tail: nat, h: Hist, r: Root): Option<Update>
    requires cfg.Valid() && Tree(h.tree, h.genesis) && r in h.tree
  {
    BestOf(cfg, tail, h.tree, h.genesis, h.finality, r)
  }

  /** The cached data of a block, recomputed from its whole chain; the finalized slot has an invariant of its own. */
  ghost function Recomputed(cfg: Config, tail: nat, h: Hist, r: Root, finalizedSlot: nat): CachedData
    requires cfg.Valid() && Tree(h.tree, h.genesis) && r in h.tree
  {
    CachedData(h.tree[r].stateRoot, Best(cfg, tail, h, r), SignatureSlot(cfg, tail, h, r), finalizedSlot)
  }

  /** The blocks that have a cache entry: those from the tail and finalized slots on, and the first block
      until something at or after the tail slot is finalized. */
  ghost predicate Cacheable(s: Store, h: Hist, id: BlockId)
    requires Rooted(s, h)
  {
    && id.root in h.tree && h.tree[id.root].Id() == id
    && ((id.slot >= s.tailSlot && id.slot >= s.latestFinalized.slot)
        || (id.root == h.genesis && s.latestFinalized.slot < s.tailSlot))
  }

  ghost predicate CacheOk(cfg: Config, s: Store, h: Hist)
    requires cfg.Valid() && Rooted(s, h)
  {
    && (forall id {:trigger id in s.cache} :: id in s.cache ==> Cacheable(s, h, id))
    && (forall id {:trigger Cacheable(s, h, id)} :: Cacheable(s, h, id) ==>
          id in s.cache && s.cache[id] == Recomputed(cfg, s.tailSlot, h, id.root, s.cache[id].finalizedSlot))
  }

  ghost predicate Owns(s: Store, r: Root, stateRoot: Root) {
    r in s.blocks && s.blocks[r].stateRoot == stateRoot
  }

  /** Every stored state belongs to one retained block. */
  ghost predicate StatesOwned(s: Store) {
    && (forall k {:trigger k in s.states} :: k in s.states ==> exists r :: Owns(s, r, k))
    && (forall q, r, k {:trigger Owns(s, q, k), Owns(s, r, k)} :: Owns(s, q, k) && Owns(s, r, k) ==> q == r)
  }

  /** The states of the retained blocks are stored, and no others. */
  ghost predicate StatesOk(s: Store, h: Hist) {
    && StatesOwned(s)
    && (forall r {:trigger r in h.posts} :: r in h.tree ==> r in h.posts && h.posts[r].slot == h.tree[r].slot)
    && (forall r {:trigger s.blocks[r].stateRoot} :: r in s.blocks ==>
          r in h.posts && s.blocks[r].stateRoot in s.states && s.states[s.blocks[r].stateRoot] == h.posts[r])
  }

  /** The finalized slot of a cache entry is the start of the finalized epoch of the block's post-state, until the
      header is looked up for the first time; from then on it is the slot of the recorded block that was found. */
  ghost predicate Remembered(cfg: Config, roots: map<nat, Root>, h: Hist, r: Root, slot: nat) {
    && r in h.posts
    && if r in h.finality then
         && slot <= StartSlot(cfg, h.posts[r].finalizedEpoch) && slot in roots
         && h.finality[r] == if slot == GENESIS_SLOT then None else Some(BlockId(slot, roots[slot]))
       else slot == StartSlot(cfg, h.posts[r].finalizedEpoch)
  }

  ghost predicate RememberedOk(cfg: Config, s: Store, h: Hist) {
    forall id {:trigger id in s.cache} :: id in s.cache ==>
      Remembered(cfg, s.finalizedBlockRoots, h, id.root, s.cache[id].finalizedSlot)
  }

  /** Bootstraps exist only for blocks of the finalized chain, with the branch of the block's own state, and can be
      served: the committee of their period is there. */
  ghost predicate HeadersOf(cfg: Config, db: Db, h: Hist, top: Root)
    requires cfg.Valid() && Tree(h.tree, h.genesis) && top in h.tree
  {
    forall r {:trigger r in db.headers} :: r in db.headers ==>
      && r in h.tree && IsAncestor(h.tree, h.genesis, r, top) && db.headers[r] == h.tree[r].Id()
      && h.tree[r].slot in db.branches && db.branches[h.tree[r].slot] == h.tree[r].stateRoot
      && Period(cfg, h.tree[r].slot) in db.syncCommittees
  }

  /** What the database keeps for the latest finalized block `top`. */
  ghost predicate DbFor(cfg: Config, tail: nat, db: Db, h: Hist, top: Root)
    requires cfg.Valid() && Tree(h.tree, h.genesis) && top in h.tree
  {
    && HeadersOf(cfg, db, h, top) && tail % cfg.slotsPerEpoch == 0
    && h.tree[top].stateRoot in db.checkpointStates
    && (h.tree[top].slot >= tail ==> top in db.headers)
    && (forall p :: p in db.syncCommittees && p >= Period(cfg, tail) ==> db.syncCommittees[p].Some?)
  }

  ghost predicate DbOk(cfg: Config, s: Store, h: Hist)
    requires cfg.Valid() && Rooted(s, h) && FinalOk(s, h)
  {
    DbFor(cfg, s.tailSlot, s.db, h, Finalized(s))
  }

  function Lookup(m: map<nat, Update>, k: nat): Option<Update> {
    if k in m then Some(m[k]) else None
  }

  /** The last block of a chain in or before a period. */
  ghost function PeriodBlock(cfg: Config, h: Hist, r: Root, period: nat): Option<Root>
    requires cfg.Valid() && Tree(h.tree, h.genesis) && r in h.tree
  {
    AncestorAt(h.tree, h.genesis, r, PeriodStart(cfg, period + 1) - 1)
  }

  /** The block that the latest update of a chain is made by: its most recent sufficiently signed block, unless the
      parent of that block is too old. */
  ghost function Signer(cfg: Config, tail: nat, h: Hist, r: Root, low: nat): (x: Option<Root>)
    requires Tree(h.tree, h.genesis) && r in h.tree
    ensures x.Some? ==> x.value in h.tree && x.value != h.genesis && h.tree[x.value].parentRoot in h.tree
  {
    match LastSigned(cfg, tail, h.tree, h.genesis, r)
    case None => None
    case Some(x) => if h.tree[h.tree[x].parentRoot].slot < low then None else Some(x)
  }

  /** The update that the chain of r calls for. */
  ghost function LatestOf(cfg: Config, tail: nat, h: Hist, r: Root, low: nat): Option<Update>
    requires Tree(h.tree, h.genesis) && r in h.tree
  {
    match Signer(cfg, tail, h, r, low)
    case None => None
    case Some(x) => Some(UpdateOf(h.finality, h.tree[x], h.tree[h.tree[x].parentRoot]))
  }

  /** If the chain has a block from `low` on in a period, the committed update is the best update of the last one. */
  ghost predicate ShowsPeriod(cfg: Config, tail: nat, best: map<nat, Update>, h: Hist, r: Root, low: nat, p: nat)
    requires cfg.Valid() && Tree(h.tree, h.genesis) && r in h.tree
  {
    match PeriodBlock(cfg, h, r, p)
    case None => true
    case Some(a) =>
      h.tree[a].slot >= low && Period(cfg, h.tree[a].slot) == p ==> Lookup(best, p) == Best(cfg, tail, h, a)
  }

  ghost predicate ShowsPeriods(cfg: Config, tail: nat, best: map<nat, Update>, h: Hist, r: Root, low: nat)
    requires cfg.Valid() && Tree(h.tree, h.genesis) && r in h.tree
  {
    forall p: nat :: ShowsPeriod(cfg, tail, best, h, r, low, p)
  }

  /** The header of the latest update has been looked up. */
  ghost predicate SignerKnown(cfg: Config, tail: nat, h: Hist, r: Root, low: nat)
    requires Tree(h.tree, h.genesis) && r in h.tree
  {
    match Signer(cfg, tail, h, r, low)
    case None => true
    case Some(x) => h.tree[x].parentRoot in h.finality
  }

  /** Both views are those of one head's chain. */
  ghost predicate ShowsHead(cfg: Config, s: Store, h: Hist, r: Root, low: nat)
    requires cfg.Valid() && Rooted(s, h) && r in h.tree
  {
    ShowsPeriods(cfg, s.tailSlot, s.bestUpdates, h, r, low) && s.latest == LatestOf(cfg, s.tailSlot, h, r, low)
  }

  ghost predicate ViewOk(cfg: Config, s: Store, h: Hist)
    requires cfg.Valid() && Rooted(s, h)
  {
    h.head.Some? ==>
      h.head.value in h.tree && ShowsHead(cfg, s, h, h.head.value, h.low)
      && SignerKnown(cfg, s.tailSlot, h, h.head.value, h.low)
  }

  ghost predicate CoverOk(cfg: Config, s: Store, h: Hist)
    requires cfg.Valid() && Rooted(s, h)
  {
    Covered(cfg, s.tailSlot, h.tree, h.genesis, h.finality) && forall k :: k in h.finality ==> k in h.tree
  }

  /** The part of the invariant that the cache and the finalized chain need. */
  ghost predicate Settled(cfg: Config, s: Store, h: Hist) {
    && cfg.Valid() && Rooted(s, h) && BlocksOk(s, h) && FinalOk(s, h) && CacheOk(cfg, s, h) && CoverOk(cfg, s, h)
    && RememberedOk(cfg, s, h)
  }

  ghost predicate Inv(cfg: Config, s: Store, h: Hist) {
    Settled(cfg, s, h) && StatesOk(s, h) && DbOk(cfg, s, h) && ViewOk(cfg, s, h)
  }

  lemma InvDescends(cfg: Config, s: Store, h: Hist)
    requires Settled(cfg, s, h)
    ensures Descending(s.blocks)
  {
    hide IsChainOf, CacheOk, RememberedOk, CoverOk;
  }

  /** A block that descends from the latest finalized one. */
  ghost predicate Above(s: Store, h: Hist, r: Root)
    requires Rooted(s, h) && FinalOk(s, h)
  {
    r in h.tree && IsAncestor(h.tree, h.genesis, Finalized(s), r)
  }

  lemma ParentIn(h: Hist, r: Root)
    requires Tree(h.tree, h.genesis) && r in h.tree
    ensures h.tree[r].root == r
    ensures r != h.genesis ==> h.tree[r].parentRoot in h.tree && h.tree[h.tree[r].parentRoot].slot < h.tree[r].slot
  {
  }

  /** Blocks from the tail and finalized slots on are retained and cached. */
  lemma CachedAt(cfg: Config, s: Store, h: Hist, r: Root)
    requires Settled(cfg, s, h) && r in h.tree
    requires h.tree[r].slot >= s.tailSlot && h.tree[r].slot >= s.latestFinalized.slot
    ensures h.tree[r].root == r && r in s.blocks && s.blocks[r] == h.tree[r] && h.tree[r].Id() in s.cache
    ensures
      var data := s.cache[h.tree[r].Id()];
      data == Recomputed(cfg, s.tailSlot, h, r, data.finalizedSlot)
      && Remembered(cfg, s.finalizedBlockRoots, h, r, data.finalizedSlot)
  {
    hide Tree, Recomputed, IsChainOf, FinalOk, CoverOk, Remembered;
    ParentIn(h, r);
    assert Cacheable(s, h, h.tree[r].Id());
  }

  // ----- Finalized headers -----

  /** A header can be looked up for a finalized slot: it is not below the latest finalized slot, or the genesis slot is
      the last one recorded at or before it. */
  ghost predicate HeaderAvailable(s: Store, slot: nat) {
    || slot >= s.latestFinalized.slot
    || (GENESIS_SLOT in s.finalizedBlockRoots && forall k :: GENESIS_SLOT < k <= slot ==> k !in s.finalizedBlockRoots)
  }

  lemma RecordedBelow(s: Store, h: Hist, k: nat)
    requires Rooted(s, h) && FinalOk(s, h) && k in s.finalizedBlockRoots
    ensures s.historicalTailSlot <= k <= s.latestFinalized.slot
    ensures s.finalizedBlockRoots[k] in h.tree && h.tree[s.finalizedBlockRoots[k]].slot == k
  {
    hide Tree, IsAncestor;
    var r := s.finalizedBlockRoots[k];
    AncestorBelow(h.tree, h.genesis, r, Finalized(s));
    GenesisIsAncestor(h.tree, h.genesis, r);
    AncestorBelow(h.tree, h.genesis, h.genesis, r);
  }

  /** The lookup succeeds exactly if the header is available, and then finds the latest finalized block, or the empty
      header for the genesis slot. */
  lemma HeaderExact(cfg: Config, s: Store, h: Hist, r: Root)
    requires Settled(cfg, s, h) && r in h.tree
    requires h.tree[r].slot >= s.tailSlot && h.tree[r].slot >= s.latestFinalized.slot
    ensures h.tree[r].Id() in s.cache
    ensures
      var slot, found := s.cache[h.tree[r].Id()].finalizedSlot, FinalizedHeader(s, h.tree[r].Id());
      && (found.Some? <==> HeaderAvailable(s, slot))
      && (found.Some? ==>
            found.value ==
            if slot >= s.latestFinalized.slot > GENESIS_SLOT
            then Found(s.latestFinalized.slot, Some(BlockId(s.latestFinalized.slot, Finalized(s))))
            else Found(GENESIS_SLOT, None))
  {
    hide Tree, IsAncestor, CacheOk, CoverOk, RememberedOk, IsChainOf, Recomputed, Remembered, BlockIdAtFinalizedSlot;
    CachedAt(cfg, s, h, r);
    var slot := s.cache[h.tree[r].Id()].finalizedSlot;
    FoundBelow(s.finalizedBlockRoots, s.historicalTailSlot, slot);
    var found := BlockIdAtFinalizedSlot(s.finalizedBlockRoots, s.historicalTailSlot, slot);
    if found.Some? {
      RecordedBelow(s, h, found.value.slot);
    }
    if GENESIS_SLOT in s.finalizedBlockRoots {
      RecordedBelow(s, h, GENESIS_SLOT);
    }
  }
}
