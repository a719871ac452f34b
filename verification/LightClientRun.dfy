/** Whole runs of the light client data collection. */
module LightClientRun {
  import opened Wrappers
  import opened BlockTree
  import opened LightClientData
  import opened LightClientInvariant
  import opened LightClientBlock
  import opened LightClientSetup
  import opened LightClientHead
  import opened LightClientFinality

  // ----- Selecting a head -----

  /** What is assumed of a new head: it descends from the latest finalized block, and so does the block that its
      post-state finalizes. */
  ghost predicate LegalHead(s: Store, h: Hist, r: Root)
    requires Rooted(s, h) && FinalOk(s, h)
  {
    && Above(s, h, r)
    && (h.tree[r].stateRoot in s.states && s.states[h.tree[r].stateRoot].finalizedEpoch != GENESIS_EPOCH ==>
          Above(s, h, s.states[h.tree[r].stateRoot].finalizedRoot))
  }

  /** The history after a switch: a head below the tail slot is ignored. */
  ghost function AfterHead(cfg: Config, s: Store, h: Hist, r: Root): Hist
    requires Tree(h.tree, h.genesis) && r in h.tree
  {
    if h.tree[r].slot < s.tailSlot then h
    else BeforeHead(cfg, s, h, r, LowSlot(s)).(head := Some(r), low := LowSlot(s))
  }

  lemma HeadIsStored(cfg: Config, s: Store, h: Hist, r: Root)
    requires Inv(cfg, s, h) && Above(s, h, r)
    ensures r in s.blocks && s.blocks[r] == h.tree[r] && h.tree[r].stateRoot in s.states && h.tree[r].root == r
    ensures r in h.posts && s.states[h.tree[r].stateRoot] == h.posts[r]
  {
    hide Tree, IsAncestor, CacheOk, CoverOk, RememberedOk, IsChainOf, ViewOk, DbOk;
    AncestorBelow(h.tree, h.genesis, Finalized(s), r);
    ParentIn(h, r);
  }

  /** The state and history in which the header for the latest update has been looked up. */
  lemma SignerPinned(cfg: Config, s: Store, h: Hist, r: Root) returns (t: Store)
    requires Inv(cfg, s, h) && Above(s, h, r) && LatestSucceeds(cfg, s, h, r, LowSlot(s))
    ensures t == s.(cache := CacheWith(cfg, s, h, r, LowSlot(s)))
    ensures
      var g := BeforeHead(cfg, s, h, r, LowSlot(s));
      Inv(cfg, t, g) && Widens(h, g) && g.tree == h.tree && SignerKnown(cfg, s.tailSlot, g, r, LowSlot(s))
  {
    hide Tree, IsAncestor, CacheOk, CoverOk, RememberedOk, IsChainOf, ViewOk, DbOk, StatesOk, BlocksOk, LastSigned,
      FinalizedHeader, HeaderAvailable;
    t := s.(cache := CacheWith(cfg, s, h, r, LowSlot(s)));
    var signer := Signer(cfg, s.tailSlot, h, r, LowSlot(s));
    if signer.Some? {
      var p := h.tree[signer.value].parentRoot;
      HeaderExact(cfg, s, h, p);
      PinKeeps(cfg, s, h, p);
    } else {
      WidensRefl(h);
    }
  }

  lemma WidensRefl(h: Hist)
    requires Tree(h.tree, h.genesis)
    ensures Widens(h, h)
  {
    hide Tree;
  }

  lemma HeadChangeKeepsInv(cfg: Config, s: Store, h: Hist, r: Root)
    requires Inv(cfg, s, h) && Above(s, h, r) && Descending(s.blocks)
    ensures
      var out := ProcessHeadChange(cfg, s, h.tree[r].Id(), s.latestFinalized);
      && (out.Some? <==> HeadSucceeds(cfg, s, h, r))
      && (out.Some? ==>
            && Inv(cfg, out.value, AfterHead(cfg, s, h, r))
            && out.value ==
               s.(bestUpdates := out.value.bestUpdates, latest := out.value.latest, cache := out.value.cache)
            && (h.tree[r].slot < s.tailSlot ==> out.value == s))
  {
    hide Tree, IsAncestor, CacheOk, CoverOk, RememberedOk, BlocksOk, IsChainOf, Descending, StatesOk, DbOk,
      ShowsPeriods, LatestOf, Committed, Period, ProcessHeadChange, ViewOk, LatestSucceeds, CacheWith, BeforeHead,
      SignerKnown;
    HeadChangeShows(cfg, s, h, r);
    var out, low := ProcessHeadChange(cfg, s, h.tree[r].Id(), s.latestFinalized), LowSlot(s);
    if out.Some? && h.tree[r].slot >= s.tailSlot {
      var g := BeforeHead(cfg, s, h, r, low);
      var t := SignerPinned(cfg, s, h, r);
      CommittedShows(cfg, s.tailSlot, s.bestUpdates, out.value.bestUpdates, h, r, low);
      PeriodsWiden(cfg, s, out.value.bestUpdates, h, g, r, low);
      InvWithViews(cfg, t, out.value, g, r, low);
    }
  }

  lemma PeriodsWiden(cfg: Config, s: Store, best: map<nat, Update>, h: Hist, g: Hist, r: Root, low: nat)
    requires cfg.Valid() && Rooted(s, h) && CoverOk(cfg, s, h) && Widens(h, g) && r in h.tree
    requires ShowsPeriods(cfg, s.tailSlot, best, h, r, low)
    ensures ShowsPeriods(cfg, s.tailSlot, best, g, r, low)
  {
    hide Tree, ShowsPeriod, Covered;
    forall p: nat ensures ShowsPeriod(cfg, s.tailSlot, best, g, r, low, p) {
      PeriodWidens(cfg, s.tailSlot, best, h, g, r, low, p);
    }
  }

  lemma InvWithViews(cfg: Config, s: Store, t: Store, h: Hist, r: Root, low: nat)
    requires Inv(cfg, s, h) && r in h.tree && t == s.(bestUpdates := t.bestUpdates, latest := t.latest)
    requires ShowsHead(cfg, t, h, r, low) && SignerKnown(cfg, t.tailSlot, h, r, low)
    ensures Inv(cfg, t, h.(head := Some(r), low := low))
  {
    hide Tree, IsAncestor, ShowsHead, CacheOk, Covered, RememberedOk, IsChainOf, BlocksOk, StatesOk, DbOk, ViewOk,
      SignerKnown;
    var g := h.(head := Some(r), low := low);
    WidensRefl(h);
    SameWiden(h, g);
    ChainWidens(s.finalizedBlockRoots, h, g, Finalized(s));
    DbPinned(cfg, s, t, h, g);
    CoverPinned(cfg, s, t, h, g);
    SameCache(cfg, s, t, h, g);
    StatesPinned(s, t, h, g);
    BlocksPinned(s, t, h, g);
    SameShown(cfg, t, h, g, r, low);
  }

  lemma SameWiden(h: Hist, g: Hist)
    requires Widens(h, h) && g == h.(head := g.head, low := g.low)
    ensures Widens(h, g) && forall k :: k in g.finality ==> k in h.finality
  {
    hide Tree;
  }

  lemma SameCache(cfg: Config, s: Store, t: Store, h: Hist, g: Hist)
    requires cfg.Valid() && Rooted(s, h) && CacheOk(cfg, s, h) && RememberedOk(cfg, s, h) && CoverOk(cfg, s, h)
    requires Rooted(t, g) && Widens(h, g) && g == h.(head := g.head, low := g.low)
    requires t.cache == s.cache && t.tailSlot == s.tailSlot && t.latestFinalized == s.latestFinalized
    requires t.finalizedBlockRoots == s.finalizedBlockRoots
    ensures CacheOk(cfg, t, g) && RememberedOk(cfg, t, g)
  {
    hide Tree, Recomputed, Covered;
    assert forall id :: Cacheable(t, g, id) == Cacheable(s, h, id);
    forall id | Cacheable(t, g, id)
      ensures id in t.cache && t.cache[id] == Recomputed(cfg, t.tailSlot, g, id.root, t.cache[id].finalizedSlot)
    {
      assert Cacheable(s, h, id);
      RecomputedWidens(cfg, s.tailSlot, h, g, id.root, t.cache[id].finalizedSlot);
    }
    forall id | id in t.cache ensures Remembered(cfg, t.finalizedBlockRoots, g, id.root, t.cache[id].finalizedSlot) {
      assert Remembered(cfg, s.finalizedBlockRoots, h, id.root, s.cache[id].finalizedSlot);
    }
  }

  lemma SameShown(cfg: Config, t: Store, h: Hist, g: Hist, r: Root, low: nat)
    requires cfg.Valid() && Rooted(t, h) && Rooted(t, g) && CoverOk(cfg, t, h) && r in h.tree && Widens(h, g)
    requires g == h.(head := Some(r), low := low)
    requires ShowsHead(cfg, t, h, r, low) && SignerKnown(cfg, t.tailSlot, h, r, low)
    ensures ViewOk(cfg, t, g)
  {
    hide Tree, ShowsPeriods, LatestOf, SignerKnown, Covered;
    PeriodsWiden(cfg, t, t.bestUpdates, h, g, r, low);
    LatestWidens(cfg, t.tailSlot, h, g, r, low);
  }

  /** Selecting a head that meets the assumptions succeeds exactly if its latest update can be built, and then keeps the
      invariant: afterwards the views are those of the new head's chain. The finalized block and epoch become those of
      the head's post-state, if it finalizes a higher block than before. */
  lemma SelectHeadKeeps(cfg: Config, s: Store, h: Hist, r: Root)
    requires Inv(cfg, s, h) && LegalHead(s, h, r) && Descending(s.blocks)
    ensures
      var out := SelectNewHead(cfg, s, h.tree[r].Id());
      && (out.Some? <==> HeadSucceeds(cfg, s, h, r))
      && h.tree[r].stateRoot in s.states
      && (out.Some? ==>
            && Inv(cfg, out.value, AfterHead(cfg, s, h, r)) && out.value.tailSlot == s.tailSlot
            && r in h.posts
            && var root, epoch := h.posts[r].finalizedRoot, h.posts[r].finalizedEpoch;
               if epoch != GENESIS_EPOCH && root in h.tree && h.tree[root].slot > s.latestFinalized.slot
               then out.value.latestFinalized == h.tree[root].Id() && out.value.latestFinalizedEpoch == epoch
               else
                 && out.value.latestFinalized == s.latestFinalized
                 && out.value.latestFinalizedEpoch == s.latestFinalizedEpoch)
      && (out.Some? && h.tree[r].slot < s.tailSlot ==>
            out.value.latest == s.latest && out.value.bestUpdates == s.bestUpdates)
  {
    hide Tree, IsAncestor, CacheOk, CoverOk, RememberedOk, BlocksOk, IsChainOf, Descending, StatesOk, DbOk, ShowsHead,
      Finalize, ProcessHeadChange, ViewOk, LatestSucceeds, BeforeHead;
    HeadIsStored(cfg, s, h, r);
    HeadChangeKeepsInv(cfg, s, h, r);
    var out := ProcessHeadChange(cfg, s, h.tree[r].Id(), s.latestFinalized);
    if out.Some? {
      var next, g := out.value, AfterHead(cfg, s, h, r);
      var post := s.states[h.tree[r].stateRoot];
      if post.finalizedEpoch != GENESIS_EPOCH {
        AfterHeadTree(cfg, s, h, r);
        FinalizeKeeps(cfg, next, g, post.finalizedRoot, post.finalizedEpoch);
      }
    }
  }

  lemma AfterHeadTree(cfg: Config, s: Store, h: Hist, r: Root)
    requires Tree(h.tree, h.genesis) && r in h.tree
    ensures AfterHead(cfg, s, h, r).tree == h.tree && AfterHead(cfg, s, h, r).genesis == h.genesis
  {
    hide Tree;
  }

  /** After a successful switch the views show the requested head exactly if it is not below the tail slot, or there was
      no latest update to go stale. */
  lemma HeadIsShown(cfg: Config, s: Store, h: Hist, r: Root)
    requires Inv(cfg, s, h) && LegalHead(s, h, r) && Descending(s.blocks) && HeadSucceeds(cfg, s, h, r)
    ensures
      var out, g := SelectNewHead(cfg, s, h.tree[r].Id()), AfterHead(cfg, s, h, r);
      && out.Some? && Rooted(out.value, g) && r in g.tree
      && (ShowsHead(cfg, out.value, g, r, LowSlot(s)) <==> h.tree[r].slot >= s.tailSlot || s.latest == None)
  {
    hide Tree, IsAncestor, CacheOk, CoverOk, RememberedOk, BlocksOk, IsChainOf, Descending, StatesOk, DbOk,
      SelectNewHead, ShowsPeriods, LatestOf, SignerKnown, LatestSucceeds, BeforeHead;
    SelectHeadKeeps(cfg, s, h, r);
    AfterHeadTree(cfg, s, h, r);
    if h.tree[r].slot < s.tailSlot {
      NothingToShow(cfg, SelectNewHead(cfg, s, h.tree[r].Id()).value, h, r, LowSlot(s));
    }
  }

  lemma NothingToShow(cfg: Config, t: Store, h: Hist, r: Root, low: nat)
    requires cfg.Valid() && Rooted(t, h) && r in h.tree && h.tree[r].slot < t.tailSlot <= low
    ensures ShowsHead(cfg, t, h, r, low) <==> t.latest == None
  {
    hide Tree, AncestorAt, Best, Period, PeriodStart, LastSigned;
    ScanBelowTail(cfg, t.tailSlot, h.tree, h.genesis, h.finality, r, 0);
    forall p: nat ensures ShowsPeriod(cfg, t.tailSlot, t.bestUpdates, h, r, low, p) {
      var found := PeriodBlock(cfg, h, r, p);
      if found.Some? {
        AncestorAtIsAncestor(h.tree, h.genesis, r, PeriodStart(cfg, p + 1) - 1);
        AncestorBelow(h.tree, h.genesis, found.value, r);
      }
    }
  }

  // ----- Runs -----

  datatype Event =
    | NewBlock(block: Block, post: PostState, parent: BlockId)
    | NewHead(head: BlockId)

  /** One operation; a walk that would not end counts as a failure. */
  ghost function Do(cfg: Config, s: Store, e: Event): Option<Store>
    requires cfg.Valid()
  {
    match e
    case NewBlock(b, post, parent) => AddNewBlock(cfg, s, b, post, parent)
    case NewHead(head) => if Descending(s.blocks) then SelectNewHead(cfg, s, head) else None
  }

  ghost function Run(cfg: Config, s: Store, events: seq<Event>): Option<Store>
    requires cfg.Valid()
    decreases |events|
  {
    if events == [] then Some(s)
    else
      match Do(cfg, s, events[0])
      case None => None
      case Some(next) => Run(cfg, next, events[1..])
  }

  /** What is assumed of an event. */
  ghost predicate Legal(s: Store, h: Hist, e: Event)
    requires Rooted(s, h) && FinalOk(s, h)
  {
    match e
    case NewBlock(b, post, parent) => LegalBlock(s, h, b, post) && parent == h.tree[b.parentRoot].Id()
    case NewHead(head) => LegalHead(s, h, head.root) && head == h.tree[head.root].Id()
  }

  /** The finalized header that an event needs, if it needs one, is available. */
  ghost predicate Succeeds(cfg: Config, s: Store, h: Hist, e: Event)
    requires cfg.Valid() && Rooted(s, h) && FinalOk(s, h) && Legal(s, h, e)
  {
    match e
    case NewBlock(b, _, _) => BlockSucceeds(cfg, s, h, b)
    case NewHead(head) => HeadSucceeds(cfg, s, h, head.root)
  }

  ghost function After(cfg: Config, s: Store, h: Hist, e: Event): Hist
    requires cfg.Valid() && Rooted(s, h) && FinalOk(s, h) && Legal(s, h, e)
  {
    match e
    case NewBlock(b, post, _) => AfterBlock(cfg, s, h, b, post)
    case NewHead(head) => AfterHead(cfg, s, h, head.root)
  }

  /** Every event meets the assumptions in the state it meets, up to the first failure. */
  ghost predicate LegalRun(cfg: Config, s: Store, h: Hist, events: seq<Event>)
    requires cfg.Valid()
    decreases |events|
  {
    events == []
    || (Rooted(s, h) && FinalOk(s, h) && Legal(s, h, events[0])
        && match Do(cfg, s, events[0])
           case None => true
           case Some(next) => LegalRun(cfg, next, After(cfg, s, h, events[0]), events[1..]))
  }

  /** Every event finds the header it needs. */
  ghost predicate AllSucceed(cfg: Config, s: Store, h: Hist, events: seq<Event>)
    requires cfg.Valid() && LegalRun(cfg, s, h, events)
    decreases |events|
  {
    events == []
    || (Succeeds(cfg, s, h, events[0])
        && match Do(cfg, s, events[0])
           case None => true
           case Some(next) => AllSucceed(cfg, next, After(cfg, s, h, events[0]), events[1..]))
  }

  /** The history at the end of a run. */
  ghost function HistAfter(cfg: Config, s: Store, h: Hist, events: seq<Event>): Hist
    requires cfg.Valid() && LegalRun(cfg, s, h, events)
    decreases |events|
  {
    if events == [] then h
    else
      match Do(cfg, s, events[0])
      case None => h
      case Some(next) => HistAfter(cfg, next, After(cfg, s, h, events[0]), events[1..])
  }

  ghost predicate Expected(cfg: Config, s: Store, h: Hist, e: Event) {
    Inv(cfg, s, h) && Legal(s, h, e)
  }

  lemma DoKeeps(cfg: Config, s: Store, h: Hist, e: Event)
    requires cfg.Valid() && Expected(cfg, s, h, e)
    ensures Do(cfg, s, e).Some? <==> Succeeds(cfg, s, h, e)
    ensures Do(cfg, s, e).Some? ==> Inv(cfg, Do(cfg, s, e).value, After(cfg, s, h, e))
  {
    hide Tree, LegalHead, LegalBlock, SelectNewHead, AddNewBlock, BlockSucceeds, HeadSucceeds, AfterBlock, AfterHead,
      BlocksOk, CacheOk, CoverOk, RememberedOk, StatesOk, DbOk, ViewOk, IsChainOf, Descending;
    match e
    case NewBlock(b, post, parent) => AddBlockKeeps(cfg, s, h, b, post);
    case NewHead(head) =>
      InvDescends(cfg, s, h);
      SelectHeadKeeps(cfg, s, h, head.root);
  }

  /** A legal run succeeds exactly if every event finds the finalized header it needs: nothing else can fail. Then the
      state it reaches satisfies the invariant. */
  lemma {:induction false} RunKeeps(cfg: Config, s: Store, h: Hist, events: seq<Event>)
    requires cfg.Valid() && Inv(cfg, s, h) && LegalRun(cfg, s, h, events)
    ensures Run(cfg, s, events).Some? <==> AllSucceed(cfg, s, h, events)
    ensures Run(cfg, s, events).Some? ==> Inv(cfg, Run(cfg, s, events).value, HistAfter(cfg, s, h, events))
    decreases |events|
  {
    hide Inv, Legal, Do, Rooted, FinalOk, After, Succeeds;
    if events != [] {
      DoKeeps(cfg, s, h, events[0]);
      if Do(cfg, s, events[0]).Some? {
        RunKeeps(cfg, Do(cfg, s, events[0]).value, After(cfg, s, h, events[0]), events[1..]);
      }
    }
  }

  /** The same for a run from the setup at genesis. */
  lemma RunIsSafe(cfg: Config, stored: Block, state: PostState, postAltair: bool, altairEpoch: nat, events: seq<Event>)
    requires cfg.Valid() && IsGenesis(stored, state)
    ensures
      var s, h := SetUp(cfg, stored.Id(), stored, state, postAltair, altairEpoch), InitialHist(stored, state);
      && (s.Some? <==> postAltair)
      && (s.Some? && LegalRun(cfg, s.value, h, events) ==>
            var out := Run(cfg, s.value, events);
            && (out.Some? <==> AllSucceed(cfg, s.value, h, events))
            && (out.Some? ==> Inv(cfg, out.value, HistAfter(cfg, s.value, h, events))))
  {
    hide Inv, LegalRun, Run, AllSucceed, HistAfter, SetUp;
    InitialInv(cfg, stored, state, postAltair, altairEpoch);
    var s, h := SetUp(cfg, stored.Id(), stored, state, postAltair, altairEpoch), InitialHist(stored, state);
    if s.Some? && LegalRun(cfg, s.value, h, events) {
      RunKeeps(cfg, s.value, h, events);
    }
  }

  // ----- What the views depend on -----

  /** Whatever else two runs saw, if they show the same head from the same low slot on, their latest updates attest to
      the same block, with the same signature slot and participation. */
  lemma LatestDependsOnChain(cfg: Config, s: Store, g: Hist, t: Store, h: Hist, u: Hist)
    requires Inv(cfg, s, g) && Inv(cfg, t, h) && s.tailSlot == t.tailSlot
    requires Extends(g.tree, u.tree, u.genesis) && Extends(h.tree, u.tree, u.genesis)
    requires g.genesis == h.genesis == u.genesis
    requires g.head.Some? && g.head == h.head && g.low == h.low
    ensures s.latest.Some? <==> t.latest.Some?
    ensures s.latest.Some? ==>
      && s.latest.value.attested == t.latest.value.attested
      && s.latest.value.signatureSlot == t.latest.value.signatureSlot
      && s.latest.value.participants == t.latest.value.participants
  {
    hide BlocksOk, FinalOk, CacheOk, CoverOk, RememberedOk, StatesOk, DbOk, ShowsPeriods, Signer, SignerKnown, Tree;
    var r := g.head.value;
    SignerWidens(cfg, s.tailSlot, g, u, r, g.low);
    SignerWidens(cfg, s.tailSlot, h, u, r, g.low);
  }

  /** If they also fixed the same finalized headers, as far as both have looked them up, their latest updates agree, and
      so do their best updates of every period in which the chain has a block from the low slot on. */
  lemma ViewsDependOnChain(cfg: Config, s: Store, g: Hist, t: Store, h: Hist, u: Hist, p: nat)
    requires Inv(cfg, s, g) && Inv(cfg, t, h) && s.tailSlot == t.tailSlot
    requires Widens(g, u) && Widens(h, u)
    requires g.head.Some? && g.head == h.head && g.low == h.low
    ensures s.latest == t.latest
    ensures
      var a := PeriodBlock(cfg, u, g.head.value, p);
      a.Some? && u.tree[a.value].slot >= g.low && Period(cfg, u.tree[a.value].slot) == p ==>
        Lookup(s.bestUpdates, p) == Lookup(t.bestUpdates, p)
  {
    hide Tree, PeriodBlock, Best, LatestOf, Period, BlocksOk, FinalOk, CacheOk, RememberedOk, StatesOk, DbOk, Covered,
      SignerKnown;
    var r := g.head.value;
    LatestWidens(cfg, s.tailSlot, g, u, r, g.low);
    LatestWidens(cfg, s.tailSlot, h, u, r, g.low);
    assert ShowsPeriod(cfg, s.tailSlot, s.bestUpdates, g, r, g.low, p);
    assert ShowsPeriod(cfg, t.tailSlot, t.bestUpdates, h, r, g.low, p);
    PeriodWidens(cfg, s.tailSlot, s.bestUpdates, g, u, r, g.low, p);
    PeriodWidens(cfg, s.tailSlot, t.bestUpdates, h, u, r, g.low, p);
  }

  // ----- Which header an update carries -----

  /** The header of a block: the empty one at the genesis slot. */
  function HeaderFor(b: Block): Option<BlockId> {
    if b.slot == GENESIS_SLOT then None else Some(b.Id())
  }

  /** The header that a first lookup fixes is the one of the attested block's own checkpoint, that is, of the last block
      of its chain at or before its finalized slot, exactly if that block is not after the latest finalized one. */
  lemma HeaderIsCheckpoint(cfg: Config, s: Store, h: Hist, r: Root)
    requires Inv(cfg, s, h) && Above(s, h, r) && h.tree[r].slot >= s.tailSlot && r !in h.finality
    requires FinalizedHeader(s, h.tree[r].Id()).Some?
    ensures r in h.posts
    ensures
      var slot := StartSlot(cfg, h.posts[r].finalizedEpoch);
      var own := AncestorAt(h.tree, h.genesis, r, slot);
      && own.Some?
      && (FinalizedHeader(s, h.tree[r].Id()).value.header == HeaderFor(h.tree[own.value]) <==>
            h.tree[own.value].slot <= s.latestFinalized.slot)
  {
    hide Tree, IsAncestor, CacheOk, CoverOk, RememberedOk, BlocksOk, IsChainOf, StatesOk, DbOk, ViewOk, FinalizedHeader,
      AncestorAt, HeaderAvailable, Recomputed;
    AncestorBelow(h.tree, h.genesis, Finalized(s), r);
    CachedAt(cfg, s, h, r);
    var slot := StartSlot(cfg, h.posts[r].finalizedEpoch);
    HeaderExact(cfg, s, h, r);
    OwnCheckpoint(cfg, s, h, r, slot);
    ParentIn(h, Finalized(s));
  }

  /** The last block of a chain at or before a slot for which a header is available. */
  lemma OwnCheckpoint(cfg: Config, s: Store, h: Hist, r: Root, slot: nat)
    requires Settled(cfg, s, h) && Above(s, h, r) && HeaderAvailable(s, slot)
    ensures
      var own := AncestorAt(h.tree, h.genesis, r, slot);
      && own.Some?
      && (slot >= s.latestFinalized.slot ==> h.tree[own.value].slot >= s.latestFinalized.slot)
      && (slot < s.latestFinalized.slot ==> h.tree[own.value].slot == GENESIS_SLOT)
      && (h.tree[own.value].slot == s.latestFinalized.slot ==> own.value == Finalized(s))
  {
    hide Tree, IsAncestor, CacheOk, CoverOk, RememberedOk, BlocksOk, IsChainOf, AncestorAt;
    var f := Finalized(s);
    if slot >= s.latestFinalized.slot {
      AncestorAtIsLast(h.tree, h.genesis, r, slot, f);
      OneAtSlot(h, AncestorAt(h.tree, h.genesis, r, slot).value, f, r, slot);
    } else {
      RecordedBelow(s, h, GENESIS_SLOT);
      GenesisIsAncestor(h.tree, h.genesis, r);
      AncestorAtIsLast(h.tree, h.genesis, r, slot, h.genesis);
      var own := AncestorAt(h.tree, h.genesis, r, slot).value;
      AncestorAtIsAncestor(h.tree, h.genesis, r, slot);
      AncestorsLinear(h.tree, h.genesis, own, f, r);
      IsRecorded(s, h, own);
    }
  }

  lemma OneAtSlot(h: Hist, own: Root, f: Root, r: Root, slot: nat)
    requires Tree(h.tree, h.genesis) && r in h.tree && AncestorAt(h.tree, h.genesis, r, slot) == Some(own)
    requires f in h.tree && IsAncestor(h.tree, h.genesis, f, r)
    ensures h.tree[own].slot == h.tree[f].slot ==> own == f
  {
    hide Tree, IsAncestor, AncestorAt;
    AncestorAtIsAncestor(h.tree, h.genesis, r, slot);
    AncestorsLinear(h.tree, h.genesis, own, f, r);
    if h.tree[own].slot == h.tree[f].slot {
      AncestorBelow(h.tree, h.genesis, own, f);
    }
  }

  lemma IsRecorded(s: Store, h: Hist, a: Root)
    requires Rooted(s, h) && FinalOk(s, h) && a in h.tree && IsAncestor(h.tree, h.genesis, a, Finalized(s))
    ensures h.tree[a].slot in s.finalizedBlockRoots
  {
    hide Tree, IsAncestor;
  }
}
