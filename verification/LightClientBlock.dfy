/** What a new block adds (`add_new_block`), and what looking up a finalized header fixes. */
module LightClientBlock {
  import opened Wrappers
  import opened BlockTree
  import opened LightClientData
  import opened LightClientInvariant

  // ----- Histories that know more -----

  /** Two histories, the second of which may know more blocks and headers. */
  ghost predicate Widens(h: Hist, g: Hist) {
    && Extends(h.tree, g.tree, h.genesis) && g.genesis == h.genesis
    && forall k :: k in h.finality ==> k in g.finality && g.finality[k] == h.finality[k]
  }

  lemma BestWidens(cfg: Config, tail: nat, h: Hist, g: Hist, r: Root)
    requires cfg.Valid() && Widens(h, g) && r in h.tree && Covered(cfg, tail, h.tree, h.genesis, h.finality)
    ensures Best(cfg, tail, g, r) == Best(cfg, tail, h, r)
  {
    hide Tree, Covered, Period, FoldBest, Scan;
    SameScan(cfg, tail, h.tree, g.tree, h.genesis, h.finality, g.finality, r, Period(cfg, h.tree[r].slot));
  }

  lemma RecomputedWidens(cfg: Config, tail: nat, h: Hist, g: Hist, r: Root, slot: nat)
    requires cfg.Valid() && Widens(h, g) && r in h.tree && Covered(cfg, tail, h.tree, h.genesis, h.finality)
    ensures Recomputed(cfg, tail, g, r, slot) == Recomputed(cfg, tail, h, r, slot)
  {
    hide Tree, Covered, Best, LastSigned;
    BestWidens(cfg, tail, h, g, r);
    SameLastSigned(cfg, tail, h.tree, g.tree, h.genesis, r);
  }

  lemma PeriodWidens(cfg: Config, tail: nat, best: map<nat, Update>, h: Hist, g: Hist, r: Root, low: nat, p: nat)
    requires cfg.Valid() && Widens(h, g) && r in h.tree && Covered(cfg, tail, h.tree, h.genesis, h.finality)
    ensures ShowsPeriod(cfg, tail, best, g, r, low, p) == ShowsPeriod(cfg, tail, best, h, r, low, p)
    ensures PeriodBlock(cfg, g, r, p) == PeriodBlock(cfg, h, r, p)
  {
    hide Tree, AncestorAt, Best, Period, PeriodStart, Covered;
    SameAncestorAt(h.tree, g.tree, h.genesis, r, PeriodStart(cfg, p + 1) - 1);
    var a := PeriodBlock(cfg, h, r, p);
    if a.Some? {
      BestWidens(cfg, tail, h, g, a.value);
    }
  }

  lemma SignerWidens(cfg: Config, tail: nat, h: Hist, g: Hist, r: Root, low: nat)
    requires cfg.Valid() && Extends(h.tree, g.tree, h.genesis) && g.genesis == h.genesis && r in h.tree
    ensures Signer(cfg, tail, g, r, low) == Signer(cfg, tail, h, r, low)
  {
    SameLastSigned(cfg, tail, h.tree, g.tree, h.genesis, r);
  }

  lemma LatestWidens(cfg: Config, tail: nat, h: Hist, g: Hist, r: Root, low: nat)
    requires cfg.Valid() && Widens(h, g) && r in h.tree && SignerKnown(cfg, tail, h, r, low)
    ensures LatestOf(cfg, tail, g, r, low) == LatestOf(cfg, tail, h, r, low) && SignerKnown(cfg, tail, g, r, low)
  {
    hide Tree, Signer;
    SignerWidens(cfg, tail, h, g, r, low);
  }

  lemma ViewWidens(cfg: Config, s: Store, t: Store, h: Hist, g: Hist)
    requires cfg.Valid() && Rooted(s, h) && ViewOk(cfg, s, h) && CoverOk(cfg, s, h) && Widens(h, g) && Rooted(t, g)
    requires g.head == h.head && g.low == h.low
    requires t.tailSlot == s.tailSlot && t.bestUpdates == s.bestUpdates && t.latest == s.latest
    ensures ViewOk(cfg, t, g)
  {
    hide Tree, ShowsPeriod, LatestOf, SignerKnown, Covered;
    if h.head.Some? {
      var r := h.head.value;
      forall p: nat ensures ShowsPeriod(cfg, s.tailSlot, s.bestUpdates, g, r, h.low, p) {
        PeriodWidens(cfg, s.tailSlot, s.bestUpdates, h, g, r, h.low, p);
      }
      LatestWidens(cfg, s.tailSlot, h, g, r, h.low);
    }
  }

  lemma ChainWidens(roots: map<nat, Root>, h: Hist, g: Hist, top: Root)
    requires Tree(h.tree, h.genesis) && top in h.tree && IsChainOf(roots, h, top) && Widens(h, g)
    ensures IsChainOf(roots, g, top)
  {
    hide Tree, IsAncestor;
    forall k | k in roots ensures IsAncestor(g.tree, h.genesis, roots[k], top) {
      SameAncestry(h.tree, g.tree, h.genesis, roots[k], top);
    }
    forall r | r in g.tree && IsAncestor(g.tree, h.genesis, r, top)
      ensures g.tree[r].slot in roots && roots[g.tree[r].slot] == r
    {
      SameAncestry(h.tree, g.tree, h.genesis, r, top);
      AncestorBelow(h.tree, h.genesis, r, top);
    }
  }

  lemma DbWidens(cfg: Config, tail: nat, db: Db, h: Hist, g: Hist, top: Root)
    requires cfg.Valid() && Tree(h.tree, h.genesis) && top in h.tree && DbFor(cfg, tail, db, h, top) && Widens(h, g)
    ensures DbFor(cfg, tail, db, g, top)
  {
    hide Tree, IsAncestor, Period;
    forall r | r in db.headers ensures IsAncestor(g.tree, h.genesis, r, top) {
      SameAncestry(h.tree, g.tree, h.genesis, r, top);
    }
  }

  // ----- Looking up a header -----

  /** The history once the header of an attested block has been looked up. */
  function Pinned(s: Store, h: Hist, attested: BlockId): Hist {
    match FinalizedHeader(s, attested)
    case None => h
    case Some(found) => h.(finality := h.finality[attested.root := found.header])
  }

  /** A second lookup finds the header of the first. */
  lemma SameHeader(cfg: Config, s: Store, h: Hist, r: Root)
    requires Settled(cfg, s, h) && r in h.tree
    requires h.tree[r].slot >= s.tailSlot && h.tree[r].slot >= s.latestFinalized.slot
    requires FinalizedHeader(s, h.tree[r].Id()).Some? && r in h.finality
    ensures h.tree[r].Id() in s.cache
    ensures
      var found := FinalizedHeader(s, h.tree[r].Id()).value;
      found.slot == s.cache[h.tree[r].Id()].finalizedSlot && found.header == h.finality[r]
  {
    hide Tree, IsAncestor, CacheOk, CoverOk, RememberedOk, IsChainOf, Recomputed;
    CachedAt(cfg, s, h, r);
  }

  /** What a lookup leaves to remember. */
  lemma RemembersFound(cfg: Config, s: Store, h: Hist, r: Root)
    requires Settled(cfg, s, h) && r in h.tree
    requires h.tree[r].slot >= s.tailSlot && h.tree[r].slot >= s.latestFinalized.slot
    requires FinalizedHeader(s, h.tree[r].Id()).Some?
    ensures
      var g := Pinned(s, h, h.tree[r].Id());
      && Widens(h, g) && r in g.finality && g.finality[r] == FinalizedHeader(s, h.tree[r].Id()).value.header
      && (forall k :: k in g.finality ==> k in h.tree)
      && Remembered(cfg, s.finalizedBlockRoots, g, r, FinalizedHeader(s, h.tree[r].Id()).value.slot)
  {
    hide Tree, IsAncestor, CacheOk, Covered, RememberedOk, IsChainOf, Recomputed, BlockIdAtFinalizedSlot;
    CachedAt(cfg, s, h, r);
    var slot := s.cache[h.tree[r].Id()].finalizedSlot;
    FoundBelow(s.finalizedBlockRoots, s.historicalTailSlot, slot);
    if r in h.finality {
      SameHeader(cfg, s, h, r);
    }
  }

  /** A lookup keeps the invariant, with the write-back to the cache and the header fixed in the history. */
  lemma PinKeeps(cfg: Config, s: Store, h: Hist, r: Root)
    requires Inv(cfg, s, h) && r in h.tree
    requires h.tree[r].slot >= s.tailSlot && h.tree[r].slot >= s.latestFinalized.slot
    requires FinalizedHeader(s, h.tree[r].Id()).Some?
    ensures h.tree[r].Id() in s.cache
    ensures
      var g, found := Pinned(s, h, h.tree[r].Id()), FinalizedHeader(s, h.tree[r].Id()).value;
      && Inv(cfg, s.(cache := Remember(s.cache, h.tree[r].Id(), found.slot)), g)
      && Widens(h, g) && r in g.finality && g.finality[r] == found.header
  {
    hide Tree, ViewOk, CacheOk, IsChainOf, Recomputed, CoverOk, BlocksOk, StatesOk, DbOk, RememberedOk, FinalizedHeader,
      Remembered;
    var id := h.tree[r].Id();
    CachedAt(cfg, s, h, r);
    RemembersFound(cfg, s, h, r);
    var g, found := Pinned(s, h, id), FinalizedHeader(s, id).value;
    var t := s.(cache := Remember(s.cache, id, found.slot));
    ChainWidens(s.finalizedBlockRoots, h, g, Finalized(s));
    ViewWidens(cfg, s, t, h, g);
    DbPinned(cfg, s, t, h, g);
    CoverPinned(cfg, s, t, h, g);
    CachePinned(cfg, s, t, h, g, id);
    RememberedPinned(cfg, s, t, h, g, id, found.slot);
    StatesPinned(s, t, h, g);
    BlocksPinned(s, t, h, g);
  }

  lemma DbPinned(cfg: Config, s: Store, t: Store, h: Hist, g: Hist)
    requires cfg.Valid() && Rooted(s, h) && FinalOk(s, h) && DbOk(cfg, s, h) && Widens(h, g)
    requires Rooted(t, g) && FinalOk(t, g) && t.db == s.db && t.tailSlot == s.tailSlot && Finalized(t) == Finalized(s)
    ensures DbOk(cfg, t, g)
  {
    hide Tree, IsChainOf, DbFor;
    DbWidens(cfg, s.tailSlot, s.db, h, g, Finalized(s));
  }

  lemma CoverPinned(cfg: Config, s: Store, t: Store, h: Hist, g: Hist)
    requires cfg.Valid() && Rooted(s, h) && CoverOk(cfg, s, h) && Rooted(t, g) && Widens(h, g)
    requires g.tree == h.tree && t.tailSlot == s.tailSlot && forall k :: k in g.finality ==> k in h.tree
    ensures CoverOk(cfg, t, g)
  {
    hide Period;
  }

  lemma CachePinned(cfg: Config, s: Store, t: Store, h: Hist, g: Hist, id: BlockId)
    requires cfg.Valid() && Rooted(s, h) && CacheOk(cfg, s, h) && CoverOk(cfg, s, h) && Rooted(t, g) && Widens(h, g)
    requires g.tree == h.tree && id in s.cache && exists slot :: t.cache == Remember(s.cache, id, slot)
    requires t.tailSlot == s.tailSlot && t.latestFinalized == s.latestFinalized
    ensures CacheOk(cfg, t, g)
  {
    hide Tree, Best, SignatureSlot, Covered;
    assert forall i :: Cacheable(t, g, i) == Cacheable(s, h, i);
    forall i | Cacheable(t, g, i)
      ensures i in t.cache && t.cache[i] == Recomputed(cfg, t.tailSlot, g, i.root, t.cache[i].finalizedSlot)
    {
      assert Cacheable(s, h, i);
      RecomputedWidens(cfg, s.tailSlot, h, g, i.root, t.cache[i].finalizedSlot);
    }
  }

  lemma RememberedPinned(cfg: Config, s: Store, t: Store, h: Hist, g: Hist, id: BlockId, slot: nat)
    requires cfg.Valid() && Rooted(s, h) && CacheOk(cfg, s, h) && RememberedOk(cfg, s, h) && id in s.cache
    requires t.cache == Remember(s.cache, id, slot) && t.finalizedBlockRoots == s.finalizedBlockRoots
    requires g == h.(finality := g.finality) && id.root in h.tree && h.tree[id.root].Id() == id
    requires forall k :: k != id.root ==> (k in g.finality <==> k in h.finality)
    requires forall k :: k in h.finality && k != id.root ==> g.finality[k] == h.finality[k]
    requires Remembered(cfg, s.finalizedBlockRoots, g, id.root, slot)
    ensures RememberedOk(cfg, t, g)
  {
    hide Tree;
    forall i | i in t.cache ensures Remembered(cfg, t.finalizedBlockRoots, g, i.root, t.cache[i].finalizedSlot) {
      assert i in s.cache && Cacheable(s, h, i);
      assert Remembered(cfg, s.finalizedBlockRoots, h, i.root, s.cache[i].finalizedSlot);
    }
  }

  lemma StatesPinned(s: Store, t: Store, h: Hist, g: Hist)
    requires StatesOk(s, h) && t.blocks == s.blocks && t.states == s.states && g.tree == h.tree && g.posts == h.posts
    ensures StatesOk(t, g)
  {
    hide StatesOwned;
    SameOwners(s, t);
    forall r | r in t.blocks
      ensures r in g.posts && t.blocks[r].stateRoot in t.states && t.states[t.blocks[r].stateRoot] == g.posts[r]
    {
      assert s.blocks[r].stateRoot in s.states;
    }
  }

  lemma SameOwners(s: Store, t: Store)
    requires StatesOwned(s) && t.blocks == s.blocks && t.states == s.states
    ensures StatesOwned(t)
  {
    assert forall r, k :: Owns(t, r, k) == Owns(s, r, k);
  }

  lemma BlocksPinned(s: Store, t: Store, h: Hist, g: Hist)
    requires BlocksOk(s, h) && t.blocks == s.blocks && t.latestFinalized == s.latestFinalized && g.tree == h.tree
    ensures BlocksOk(t, g)
  {
  }

  // ----- Adding a block -----

  /** What is assumed of a new block: it is new, extends a block that is not below the finalized slot, and its
      post-state is not stored yet. */
  ghost predicate LegalBlock(s: Store, h: Hist, b: Block, post: PostState)
    requires Rooted(s, h)
  {
    && b.root !in h.tree && b.root != h.tree[h.genesis].parentRoot
    && b.parentRoot in h.tree && s.latestFinalized.slot <= h.tree[b.parentRoot].slot < b.slot
    && b.stateRoot !in s.states && post.slot == b.slot
  }

  /** The block makes an update of its parent. */
  predicate MakesUpdate(cfg: Config, s: Store, h: Hist, b: Block)
    requires cfg.Valid() && b.parentRoot in h.tree
  {
    Qualifies(cfg, s.tailSlot, b, h.tree[b.parentRoot])
  }

  /** When adding a block succeeds: a header is available for the update it makes, if it makes one. */
  ghost predicate BlockSucceeds(cfg: Config, s: Store, h: Hist, b: Block)
    requires cfg.Valid() && b.parentRoot in h.tree
  {
    var parent := h.tree[b.parentRoot].Id();
    MakesUpdate(cfg, s, h, b) ==> parent in s.cache && HeaderAvailable(s, s.cache[parent].finalizedSlot)
  }

  function WithBlock(h: Hist, b: Block, post: PostState): Hist {
    h.(tree := h.tree[b.root := b], posts := h.posts[b.root := post])
  }

  /** The history after the header for a block's update is looked up, if it makes one. */
  function BeforeBlock(cfg: Config, s: Store, h: Hist, b: Block): Hist
    requires cfg.Valid() && b.parentRoot in h.tree
  {
    if MakesUpdate(cfg, s, h, b) then Pinned(s, h, h.tree[b.parentRoot].Id()) else h
  }

  function AfterBlock(cfg: Config, s: Store, h: Hist, b: Block, post: PostState): Hist
    requires cfg.Valid() && b.parentRoot in h.tree
  {
    WithBlock(BeforeBlock(cfg, s, h, b), b, post)
  }

  lemma BlockWidens(h: Hist, b: Block, post: PostState)
    requires Tree(h.tree, h.genesis) && b.root !in h.tree && b.root != h.tree[h.genesis].parentRoot
    requires b.parentRoot in h.tree && h.tree[b.parentRoot].slot < b.slot
    ensures Widens(h, WithBlock(h, b, post)) && b.root != h.genesis
  {
    TreeWithBlock(h.tree, h.genesis, b);
  }

  /** The incremental rule computes the full scan. */
  lemma ScanStep(cfg: Config, tail: nat, h: Hist, r: Root, slot: nat)
    requires cfg.Valid() && Tree(h.tree, h.genesis) && r in h.tree && r != h.genesis
    ensures
      var b, parent := h.tree[r], h.tree[h.tree[r].parentRoot];
      var same := Period(cfg, parent.slot) == Period(cfg, b.slot);
      var enough := b.participants >= cfg.minParticipants;
      if parent.slot < tail then Recomputed(cfg, tail, h, r, slot) == CachedData(b.stateRoot, None, GENESIS_SLOT, slot)
      else
        var before := if same then Best(cfg, tail, h, parent.root) else None;
        Recomputed(cfg, tail, h, r, slot) == CachedData(
          b.stateRoot,
          if enough && same then Improve(cfg, before, UpdateOf(h.finality, b, parent)) else before,
          if enough then b.slot else SignatureSlot(cfg, tail, h, parent.root),
          slot)
  {
    var b, parent := h.tree[r], h.tree[h.tree[r].parentRoot];
    var period := Period(cfg, b.slot);
    var older := Scan(cfg, tail, h.tree, h.genesis, h.finality, parent.root, period);
    if parent.slot < tail {
      ScanBelowTail(cfg, tail, h.tree, h.genesis, h.finality, parent.root, period);
    } else if Period(cfg, parent.slot) != period {
      PeriodMonotone(cfg, parent.slot, b.slot);
      ScanLater(cfg, tail, h.tree, h.genesis, h.finality, parent.root, period);
    }
    FoldBestNext(cfg, older, UpdateOf(h.finality, b, parent));
    assert older + [] == older;
  }

  /** The lookup does not depend on the block that is being added. */
  lemma HeaderIgnoresNew(cfg: Config, s: Store, h: Hist, b: Block, post: PostState, attested: BlockId)
    requires Settled(cfg, s, h) && b.root !in h.tree && attested.root in h.tree
    ensures FinalizedHeader(WithState(s, b, post), attested) == FinalizedHeader(s, attested)
  {
    hide Tree, IsAncestor, CacheOk, CoverOk, RememberedOk, IsChainOf;
    if attested in s.cache {
      var slot := s.cache[attested].finalizedSlot;
      FoundBelow(s.finalizedBlockRoots, s.historicalTailSlot, slot);
      var found := BlockIdAtFinalizedSlot(s.finalizedBlockRoots, s.historicalTailSlot, slot);
      if found.Some? {
        RecordedBelow(s, h, found.value.slot);
      }
    }
  }

  lemma NewIsUncached(cfg: Config, s: Store, h: Hist, b: Block)
    requires cfg.Valid() && Rooted(s, h) && CacheOk(cfg, s, h) && b.root !in h.tree
    ensures b.Id() !in s.cache
  {
    hide Tree;
    assert b.Id() in s.cache ==> Cacheable(s, h, b.Id());
  }

  /** The cache that a new block leaves. */
  ghost function CacheAfter(cfg: Config, s: Store, h: Hist, b: Block, post: PostState): Cache
    requires cfg.Valid() && Tree(h.tree, h.genesis) && b.root !in h.tree && b.parentRoot in h.tree
    requires MakesUpdate(cfg, s, h, b) ==> h.tree[b.parentRoot].Id() in s.cache
    requires Tree(AfterBlock(cfg, s, h, b, post).tree, h.genesis)
  {
    var parent, found := h.tree[b.parentRoot].Id(), FinalizedHeader(s, h.tree[b.parentRoot].Id());
    var before :=
      if MakesUpdate(cfg, s, h, b) && found.Some? then Remember(s.cache, parent, found.value.slot) else s.cache;
    if b.slot < s.tailSlot then before
    else
      var g := AfterBlock(cfg, s, h, b, post);
      before[b.Id() := Recomputed(cfg, s.tailSlot, g, b.root, StartSlot(cfg, post.finalizedEpoch))]
  }

  /** The recomputed data of a new block, in terms of what the cache holds for its parent. */
  lemma NewData(cfg: Config, s: Store, h: Hist, b: Block, post: PostState, slot: nat)
    requires Settled(cfg, s, h) && LegalBlock(s, h, b, post) && b.slot >= s.tailSlot
    requires MakesUpdate(cfg, s, h, b) ==> FinalizedHeader(s, h.tree[b.parentRoot].Id()).Some?
    ensures Tree(AfterBlock(cfg, s, h, b, post).tree, h.genesis)
    ensures
      var g, parent := AfterBlock(cfg, s, h, b, post), h.tree[b.parentRoot];
      var same, enough := Period(cfg, parent.slot) == Period(cfg, b.slot), b.participants >= cfg.minParticipants;
      if parent.slot < s.tailSlot
      then Recomputed(cfg, s.tailSlot, g, b.root, slot) == CachedData(b.stateRoot, None, GENESIS_SLOT, slot)
      else
        && parent.Id() in s.cache
        && var attested := s.cache[parent.Id()];
           var before := if same then attested.best else None;
           Recomputed(cfg, s.tailSlot, g, b.root, slot) == CachedData(
             b.stateRoot,
             if enough && same
             then
               var header := FinalizedHeader(s, parent.Id()).value.header;
               Improve(cfg, before, Update(parent.Id(), b.slot, b.participants, header))
             else before,
             if enough then b.slot else attested.latestSignatureSlot, slot)
  {
    hide Tree, IsAncestor, CacheOk, CoverOk, RememberedOk, IsChainOf, Best, LastSigned, FinalizedHeader, BlocksOk,
      Period, Remembered, Improve;
    var h1, parent := BeforeBlock(cfg, s, h, b), h.tree[b.parentRoot];
    var g := AfterBlock(cfg, s, h, b, post);
    ParentIn(h, b.parentRoot);
    BlockWidens(h1, b, post);
    ScanStep(cfg, s.tailSlot, g, b.root, slot);
    if parent.slot >= s.tailSlot {
      CachedAt(cfg, s, h, b.parentRoot);
      if MakesUpdate(cfg, s, h, b) {
        RemembersFound(cfg, s, h, b.parentRoot);
      }
      WidensTrans(h, h1, g);
      CoverIsCovered(cfg, s, h);
      RecomputedWidens(cfg, s.tailSlot, h, g, b.parentRoot, slot);
    }
  }

  lemma CoverIsCovered(cfg: Config, s: Store, h: Hist)
    requires cfg.Valid() && Rooted(s, h) && CoverOk(cfg, s, h)
    ensures Covered(cfg, s.tailSlot, h.tree, h.genesis, h.finality)
  {
    hide Covered;
  }

  lemma WidensTrans(f: Hist, g: Hist, h: Hist)
    requires Widens(f, g) && Widens(g, h)
    ensures Widens(f, h)
  {
    hide Tree;
  }

  /** Adding a block succeeds exactly if a header is available for the update it makes, and leaves the recomputed
      data. */
  lemma AddedData(cfg: Config, s: Store, h: Hist, b: Block, post: PostState)
    requires Settled(cfg, s, h) && LegalBlock(s, h, b, post)
    ensures MakesUpdate(cfg, s, h, b) ==> h.tree[b.parentRoot].Id() in s.cache
    ensures Tree(AfterBlock(cfg, s, h, b, post).tree, h.genesis)
    ensures
      AddNewBlock(cfg, s, b, post, h.tree[b.parentRoot].Id()) ==
        if BlockSucceeds(cfg, s, h, b)
        then Some(WithState(s, b, post).(cache := CacheAfter(cfg, s, h, b, post)))
        else None
  {
    hide Tree, IsAncestor, CacheOk, CoverOk, RememberedOk, IsChainOf, Recomputed, FinalizedHeader, BlocksOk, Period,
      Remembered, Improve, HeaderAvailable;
    var parent := h.tree[b.parentRoot];
    ParentIn(h, b.parentRoot);
    BlockWidens(BeforeBlock(cfg, s, h, b), b, post);
    NewIsUncached(cfg, s, h, b);
    HeaderIgnoresNew(cfg, s, h, b, post, parent.Id());
    if parent.slot >= s.tailSlot {
      HeaderExact(cfg, s, h, b.parentRoot);
    }
    if b.slot >= s.tailSlot && BlockSucceeds(cfg, s, h, b) {
      NewData(cfg, s, h, b, post, StartSlot(cfg, post.finalizedEpoch));
    }
  }

  /** A block whose update has its header, and whose data is the recomputed one, keeps the invariant. */
  lemma BlockJoins(cfg: Config, s: Store, h: Hist, b: Block, post: PostState, t: Store)
    requires Inv(cfg, s, h) && LegalBlock(s, h, b, post)
    requires MakesUpdate(cfg, s, h, b) ==> b.parentRoot in h.finality
    requires Tree(WithBlock(h, b, post).tree, h.genesis)
    requires t == WithState(s, b, post).(
      cache := if b.slot < s.tailSlot then s.cache
               else
                 var start := StartSlot(cfg, post.finalizedEpoch);
                 s.cache[b.Id() := Recomputed(cfg, s.tailSlot, WithBlock(h, b, post), b.root, start)])
    ensures Inv(cfg, t, WithBlock(h, b, post))
  {
    hide Tree, ViewOk, CacheOk, IsChainOf, Best, SignatureSlot, CoverOk, BlocksOk, StatesOk, DbOk, RememberedOk,
      MakesUpdate;
    var g := WithBlock(h, b, post);
    BlockWidens(h, b, post);
    ChainWidens(s.finalizedBlockRoots, h, g, Finalized(s));
    ViewWidens(cfg, s, t, h, g);
    DbPinned(cfg, s, t, h, g);
    CoverJoins(cfg, s, t, h, b, post);
    CacheJoins(cfg, s, t, h, b, post);
    RememberedJoins(
      cfg, s, t, h, b, post, Recomputed(cfg, s.tailSlot, g, b.root, StartSlot(cfg, post.finalizedEpoch)));
    StatesJoin(s, t, h, b, post);
  }

  lemma CoverJoins(cfg: Config, s: Store, t: Store, h: Hist, b: Block, post: PostState)
    requires cfg.Valid() && Rooted(s, h) && CoverOk(cfg, s, h) && LegalBlock(s, h, b, post)
    requires Rooted(t, WithBlock(h, b, post)) && t.tailSlot == s.tailSlot
    requires MakesUpdate(cfg, s, h, b) ==> b.parentRoot in h.finality
    ensures CoverOk(cfg, t, WithBlock(h, b, post))
  {
    hide Period;
  }

  lemma CacheJoins(cfg: Config, s: Store, t: Store, h: Hist, b: Block, post: PostState)
    requires cfg.Valid() && Rooted(s, h) && CacheOk(cfg, s, h) && CoverOk(cfg, s, h) && LegalBlock(s, h, b, post)
    requires Widens(h, WithBlock(h, b, post)) && Rooted(t, WithBlock(h, b, post)) && b.root != h.genesis
    requires t.tailSlot == s.tailSlot && t.latestFinalized == s.latestFinalized
    requires t.cache == if b.slot < s.tailSlot then s.cache
                        else
                          var start := StartSlot(cfg, post.finalizedEpoch);
                          s.cache[b.Id() := Recomputed(cfg, s.tailSlot, WithBlock(h, b, post), b.root, start)]
    ensures CacheOk(cfg, t, WithBlock(h, b, post))
  {
    hide Tree, Best, SignatureSlot, Covered;
    var g := WithBlock(h, b, post);
    forall id | id in t.cache ensures Cacheable(t, g, id) {
      assert id in s.cache ==> Cacheable(s, h, id);
    }
    forall id | Cacheable(t, g, id)
      ensures id in t.cache && t.cache[id] == Recomputed(cfg, t.tailSlot, g, id.root, t.cache[id].finalizedSlot)
    {
      if id.root != b.root {
        assert Cacheable(s, h, id);
        RecomputedWidens(cfg, s.tailSlot, h, g, id.root, s.cache[id].finalizedSlot);
      }
    }
  }

  lemma RememberedJoins(cfg: Config, s: Store, t: Store, h: Hist, b: Block, post: PostState, data: CachedData)
    requires cfg.Valid() && Rooted(s, h) && CacheOk(cfg, s, h) && RememberedOk(cfg, s, h) && CoverOk(cfg, s, h)
    requires b.root !in h.tree && t.finalizedBlockRoots == s.finalizedBlockRoots
    requires data.finalizedSlot == StartSlot(cfg, post.finalizedEpoch)
    requires t.cache == s.cache || t.cache == s.cache[b.Id() := data]
    ensures RememberedOk(cfg, t, WithBlock(h, b, post))
  {
    hide Tree, Covered;
    var g := WithBlock(h, b, post);
    forall i | i in t.cache ensures Remembered(cfg, t.finalizedBlockRoots, g, i.root, t.cache[i].finalizedSlot) {
      if i != b.Id() || t.cache == s.cache {
        assert i in s.cache && Cacheable(s, h, i);
        assert Remembered(cfg, s.finalizedBlockRoots, h, i.root, s.cache[i].finalizedSlot);
      }
    }
  }

  lemma StatesJoin(s: Store, t: Store, h: Hist, b: Block, post: PostState)
    requires Rooted(s, h) && StatesOk(s, h) && BlocksOk(s, h) && LegalBlock(s, h, b, post)
    requires t.blocks == s.blocks[b.root := b] && t.states == s.states[b.stateRoot := post]
    requires t.latestFinalized == s.latestFinalized
    ensures StatesOk(t, WithBlock(h, b, post)) && BlocksOk(t, WithBlock(h, b, post))
  {
    hide Tree, StatesOwned;
    BlocksJoin(s, t, h, b, post);
    forall r | r in t.blocks && r != b.root
      ensures t.blocks[r].stateRoot in t.states && t.states[t.blocks[r].stateRoot] == h.posts[r]
    {
      assert r in s.blocks;
    }
    OwnersJoin(s, t, b);
  }

  lemma OwnersJoin(s: Store, t: Store, b: Block)
    requires StatesOwned(s) && b.root !in s.blocks && b.stateRoot !in s.states
    requires forall r :: r in s.blocks ==> s.blocks[r].stateRoot in s.states
    requires t.blocks == s.blocks[b.root := b] && t.states.Keys == s.states.Keys + {b.stateRoot}
    ensures StatesOwned(t)
  {
    assert forall r, k :: Owns(t, r, k) == if r == b.root then k == b.stateRoot else Owns(s, r, k);
    forall k | k in t.states ensures exists r :: Owns(t, r, k) {
      if k == b.stateRoot {
        assert Owns(t, b.root, k);
      } else {
        var r :| Owns(s, r, k);
        assert Owns(t, r, k);
      }
    }
  }

  lemma BlocksJoin(s: Store, t: Store, h: Hist, b: Block, post: PostState)
    requires BlocksOk(s, h) && t.blocks == s.blocks[b.root := b] && t.latestFinalized == s.latestFinalized
    requires b.root !in h.tree && b.slot >= s.latestFinalized.slot
    ensures BlocksOk(t, WithBlock(h, b, post)) && b.root !in s.blocks
  {
  }

  /** A new block that meets the assumptions is added exactly if a header is available for the update it makes, and then
      the invariant is kept. */
  lemma AddBlockKeeps(cfg: Config, s: Store, h: Hist, b: Block, post: PostState)
    requires Inv(cfg, s, h) && LegalBlock(s, h, b, post)
    ensures
      var out := AddNewBlock(cfg, s, b, post, h.tree[b.parentRoot].Id());
      && (out.Some? <==> BlockSucceeds(cfg, s, h, b))
      && (out.Some? ==> Inv(cfg, out.value, AfterBlock(cfg, s, h, b, post)))
  {
    hide Tree, ViewOk, CacheOk, IsChainOf, Recomputed, CoverOk, BlocksOk, StatesOk, DbOk, RememberedOk, AddNewBlock,
      FinalizedHeader, HeaderAvailable, Qualifies;
    AddedData(cfg, s, h, b, post);
    if BlockSucceeds(cfg, s, h, b) {
      var out := AddNewBlock(cfg, s, b, post, h.tree[b.parentRoot].Id()).value;
      if MakesUpdate(cfg, s, h, b) {
        var id := h.tree[b.parentRoot].Id();
        MakerIsRecent(cfg, s, h, b);
        HeaderExact(cfg, s, h, b.parentRoot);
        PinKeeps(cfg, s, h, b.parentRoot);
        var found := FinalizedHeader(s, id).value;
        BlockJoins(
          cfg, s.(cache := Remember(s.cache, id, found.slot)), Pinned(s, h, id), b, post, out);
      } else {
        BlockJoins(cfg, s, h, b, post, out);
      }
    }
  }

  lemma MakerIsRecent(cfg: Config, s: Store, h: Hist, b: Block)
    requires cfg.Valid() && b.parentRoot in h.tree && MakesUpdate(cfg, s, h, b)
    ensures h.tree[b.parentRoot].slot >= s.tailSlot
  {
    hide Period;
  }
}
