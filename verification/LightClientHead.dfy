/** What a head change shows (`_process_head_change_for_light_client`). */
module LightClientHead {
  import opened Wrappers
  import opened BlockTree
  import opened LightClientData
  import opened LightClientInvariant
  import opened LightClientBlock

  // ----- Walking over the retained blocks -----

  lemma {:induction false} AncestorAtSelf(t: Blocks, genesis: Root, r: Root, a: Root)
    requires Tree(t, genesis) && r in t && IsAncestor(t, genesis, a, r)
    ensures a in t && AncestorAt(t, genesis, r, t[a].slot) == Some(a)
    decreases t[r].slot
  {
    AncestorBelow(t, genesis, a, r);
    if a != r {
      AncestorAtSelf(t, genesis, t[r].parentRoot, a);
    }
  }

  /** From a block above the finalized one, the walk over the retained blocks finds what a walk over all blocks
      would, as far back as the finalized slot, and nothing further back. */
  lemma {:induction false} FindInRetained(t: Blocks, genesis: Root, f: Root, r: Root, slot: int)
    requires Tree(t, genesis) && f in t && r in t && IsAncestor(t, genesis, f, r)
    requires Descending(PruneBlocks(t, t[f].slot))
    ensures
      var found := FindAncestor(PruneBlocks(t, t[f].slot), r, slot);
      if slot < t[f].slot then found == None
      else
        var a := AncestorAt(t, genesis, r, slot);
        a.Some? && IsAncestor(t, genesis, f, a.value) && found == Some(t[a.value].Id())
    decreases t[r].slot
  {
    AncestorBelow(t, genesis, f, r);
    if t[r].slot > slot {
      if r == f {
        assert t[r].parentRoot !in PruneBlocks(t, t[f].slot);
      } else {
        FindInRetained(t, genesis, f, t[r].parentRoot, slot);
      }
    }
  }

  lemma Find(cfg: Config, s: Store, h: Hist, r: Root, slot: nat) returns (a: Root)
    requires Settled(cfg, s, h) && Descending(s.blocks) && Above(s, h, r) && s.latestFinalized.slot <= slot
    ensures AncestorAt(h.tree, h.genesis, r, slot) == Some(a) && Above(s, h, a)
    ensures FindAncestor(s.blocks, r, slot) == Some(h.tree[a].Id())
    ensures h.tree[a].slot <= slot && h.tree[a].slot <= h.tree[r].slot && h.tree[a].root == a && a in s.blocks
    ensures s.blocks[a] == h.tree[a]
  {
    hide Tree, CacheOk, CoverOk, RememberedOk, IsChainOf, Descending, FindAncestor, AncestorAt;
    var f := Finalized(s);
    FindInRetained(h.tree, h.genesis, f, r, slot);
    a := AncestorAt(h.tree, h.genesis, r, slot).value;
    AncestorAtIsAncestor(h.tree, h.genesis, r, slot);
    AncestorBelow(h.tree, h.genesis, a, r);
    AncestorBelow(h.tree, h.genesis, f, a);
    ParentIn(h, a);
  }

  // ----- The best updates -----

  /** What a head change leaves for a period: the best update of the chain's last block in or before it, unless
      that block is too old. */
  ghost function Committed(cfg: Config, tail: nat, h: Hist, r: Root, lowSlot: nat, p: nat,
      before: Option<Update>): Option<Update>
    requires cfg.Valid() && Tree(h.tree, h.genesis) && r in h.tree
  {
    match PeriodBlock(cfg, h, r, p)
    case Some(a) => if h.tree[a].slot < lowSlot then before else Best(cfg, tail, h, a)
    case None => before
  }

  /** The best update of a block is sufficiently signed. */
  lemma BestIsSigned(cfg: Config, tail: nat, h: Hist, r: Root)
    requires cfg.Valid() && Tree(h.tree, h.genesis) && r in h.tree
    ensures
      var best := Best(cfg, tail, h, r);
      best.Some? ==> best.value.participants >= cfg.minParticipants
  {
    hide Tree, FoldBest, Scan;
    var period := Period(cfg, h.tree[r].slot);
    ScanParticipants(cfg, tail, h.tree, h.genesis, h.finality, r, period);
    FoldBestMember(cfg, Scan(cfg, tail, h.tree, h.genesis, h.finality, r, period));
  }

  lemma EndsInOrder(cfg: Config, p: nat, q: nat)
    requires cfg.Valid() && p <= q
    ensures PeriodStart(cfg, p) <= PeriodStart(cfg, q)
  {
    var d := q - p;
    assert q * cfg.epochsPerPeriod == p * cfg.epochsPerPeriod + d * cfg.epochsPerPeriod;
    assert PeriodStart(cfg, q) == PeriodStart(cfg, p) + d * cfg.epochsPerPeriod * cfg.slotsPerEpoch;
  }

  /** Below a period's last block, earlier periods look the same, and their last blocks are no later. */
  lemma EarlierPeriod(cfg: Config, h: Hist, r: Root, p: nat, q: nat)
    requires cfg.Valid() && Tree(h.tree, h.genesis) && r in h.tree && p <= q && PeriodBlock(cfg, h, r, q).Some?
    ensures
      var a := PeriodBlock(cfg, h, r, q).value;
      && PeriodBlock(cfg, h, r, p) == PeriodBlock(cfg, h, a, p)
      && (PeriodBlock(cfg, h, r, p).Some? ==> h.tree[PeriodBlock(cfg, h, r, p).value].slot <= h.tree[a].slot)
  {
    hide Tree, AncestorAt, PeriodStart;
    var a := PeriodBlock(cfg, h, r, q).value;
    EndsInOrder(cfg, p + 1, q + 1);
    AncestorAtFrom(h.tree, h.genesis, r, PeriodStart(cfg, q + 1) - 1, PeriodStart(cfg, p + 1) - 1);
    var b := PeriodBlock(cfg, h, a, p);
    if b.Some? {
      AncestorAtIsAncestor(h.tree, h.genesis, a, PeriodStart(cfg, p + 1) - 1);
      AncestorBelow(h.tree, h.genesis, b.value, a);
    }
  }

  /** Committing a sufficiently signed update, or removing the entry. */
  lemma CommitsOne(cfg: Config, best: map<nat, Update>, period: nat, update: Option<Update>)
    requires update.Some? ==> update.value.participants >= cfg.minParticipants
    ensures forall q: nat ::
              Lookup(CommitOne(cfg, best, period, update), q) == if q == period then update else Lookup(best, q)
  {
  }

  /** One turn of the loop that commits best updates. */
  lemma CommitTurn(cfg: Config, s: Store, h: Hist, best: map<nat, Update>, r: Root, period: nat, lowSlot: nat)
      returns (a: Root)
    requires Settled(cfg, s, h) && Descending(s.blocks) && Above(s, h, r)
    requires s.tailSlot <= lowSlot && s.latestFinalized.slot <= lowSlot && Period(cfg, lowSlot) <= period
    ensures PeriodBlock(cfg, h, r, period) == Some(a) && Above(s, h, a)
    ensures CommitPeriods(cfg, s, best, r, period, Period(cfg, lowSlot), lowSlot) ==
      if h.tree[a].slot < lowSlot then Some(best)
      else CommitPeriods(
        cfg, s, CommitOne(cfg, best, period, Best(cfg, s.tailSlot, h, a)), a, period - 1, Period(cfg, lowSlot), lowSlot)
  {
    hide Tree, CacheOk, CoverOk, RememberedOk, IsChainOf, Descending, FindAncestor, AncestorAt, BlocksOk, Period,
      PeriodStart, Best, IsAncestor, CommitOne, Remembered;
    PeriodOrder(cfg, lowSlot, period + 1);
    a := Find(cfg, s, h, r, PeriodStart(cfg, period + 1) - 1);
    if h.tree[a].slot >= lowSlot {
      CachedAt(cfg, s, h, a);
    }
  }

  /** The loop never misses a cache entry, and leaves exactly the committed updates. */
  lemma {:induction false} CommitShows(
      cfg: Config, s: Store, h: Hist, best: map<nat, Update>, r: Root, period: int, lowSlot: nat)
    requires Settled(cfg, s, h) && Descending(s.blocks) && Above(s, h, r)
    requires s.tailSlot <= lowSlot && s.latestFinalized.slot <= lowSlot
    ensures
      var out := CommitPeriods(cfg, s, best, r, period, Period(cfg, lowSlot), lowSlot);
      out.Some? && forall p: nat ::
        Lookup(out.value, p) ==
          if Period(cfg, lowSlot) <= p <= period
          then Committed(cfg, s.tailSlot, h, r, lowSlot, p, Lookup(best, p)) else Lookup(best, p)
    decreases period
  {
    hide Tree, IsChainOf, Descending, FindAncestor, BlocksOk, Period, Best, PeriodBlock, IsAncestor, FinalOk, CacheOk,
      CoverOk, RememberedOk, CommitPeriods, CommitOne;
    var low := Period(cfg, lowSlot);
    if period < low {
      CommitEnds(cfg, s, best, r, period, low, lowSlot);
    } else {
      var a := CommitTurn(cfg, s, h, best, r, period, lowSlot);
      var update := Best(cfg, s.tailSlot, h, a);
      BestIsSigned(cfg, s.tailSlot, h, a);
      CommitsOne(cfg, best, period, update);
      if h.tree[a].slot >= lowSlot {
        CommitShows(cfg, s, h, CommitOne(cfg, best, period, update), a, period - 1, lowSlot);
      }
      forall p: nat | low <= p <= period
        ensures
          Committed(cfg, s.tailSlot, h, r, lowSlot, p, Lookup(best, p)) ==
          if h.tree[a].slot < lowSlot then Lookup(best, p)
          else if p == period then update
          else Committed(cfg, s.tailSlot, h, a, lowSlot, p, Lookup(best, p))
      {
        EarlierPeriod(cfg, h, r, p, period);
      }
    }
  }

  lemma CommitEnds(cfg: Config, s: Store, best: map<nat, Update>, r: Root, period: int, low: nat, lowSlot: nat)
    requires cfg.Valid() && Descending(s.blocks) && period < low
    ensures CommitPeriods(cfg, s, best, r, period, low, lowSlot) == Some(best)
  {
  }

  // ----- The latest update -----

  lemma {:induction false} LastSignedFacts(cfg: Config, tail: nat, t: Blocks, genesis: Root, r: Root)
    requires Tree(t, genesis) && r in t && LastSigned(cfg, tail, t, genesis, r).Some?
    ensures
      var x := LastSigned(cfg, tail, t, genesis, r).value;
      && IsAncestor(t, genesis, x, r) && t[x].parentRoot in t && tail <= t[t[x].parentRoot].slot < t[x].slot
      && t[x].root == x && t[t[x].parentRoot].root == t[x].parentRoot
    decreases t[r].slot
  {
    if !(t[t[r].parentRoot].slot >= tail && t[r].participants >= cfg.minParticipants) {
      LastSignedFacts(cfg, tail, t, genesis, t[r].parentRoot);
    }
  }

  lemma AncestorAtParent(t: Blocks, genesis: Root, x: Root)
    requires Tree(t, genesis) && x in t && x != genesis
    ensures AncestorAt(t, genesis, x, t[x].slot - 1) == Some(t[x].parentRoot)
  {
  }

  /** When the latest update of a head can be built: a header is available for the block it attests to, if the chain
      calls for one. */
  ghost predicate LatestSucceeds(cfg: Config, s: Store, h: Hist, r: Root, low: nat)
    requires Tree(h.tree, h.genesis) && r in h.tree
  {
    var signer := Signer(cfg, s.tailSlot, h, r, low);
    signer.Some? ==>
      var attested := h.tree[h.tree[signer.value].parentRoot].Id();
      attested in s.cache && HeaderAvailable(s, s.cache[attested].finalizedSlot)
  }

  /** The history after the header for the latest update is looked up, if there is one. */
  ghost function BeforeHead(cfg: Config, s: Store, h: Hist, r: Root, low: nat): Hist
    requires Tree(h.tree, h.genesis) && r in h.tree
  {
    match Signer(cfg, s.tailSlot, h, r, low)
    case None => h
    case Some(x) => Pinned(s, h, h.tree[h.tree[x].parentRoot].Id())
  }

  ghost function CacheWith(cfg: Config, s: Store, h: Hist, r: Root, low: nat): Cache
    requires Tree(h.tree, h.genesis) && r in h.tree
  {
    match Signer(cfg, s.tailSlot, h, r, low)
    case None => s.cache
    case Some(x) =>
      var attested := h.tree[h.tree[x].parentRoot].Id();
      match FinalizedHeader(s, attested)
      case None => s.cache
      case Some(found) => if attested in s.cache then Remember(s.cache, attested, found.slot) else s.cache
  }

  /** The block that signs, and the block it attests to, where the walks look for them. */
  lemma SignerFound(cfg: Config, s: Store, h: Hist, r: Root, lowSlot: nat)
    requires Settled(cfg, s, h) && Descending(s.blocks) && Above(s, h, r)
    requires s.tailSlot <= lowSlot && s.latestFinalized.slot <= lowSlot
    requires LastSigned(cfg, s.tailSlot, h.tree, h.genesis, r).Some?
    requires h.tree[LastSigned(cfg, s.tailSlot, h.tree, h.genesis, r).value].slot > lowSlot
    ensures
      var x := LastSigned(cfg, s.tailSlot, h.tree, h.genesis, r).value;
      var p := h.tree[x].parentRoot;
      && FindAncestor(s.blocks, r, h.tree[x].slot) == Some(h.tree[x].Id()) && h.tree[x].root == x
      && x in s.blocks && s.blocks[x] == h.tree[x]
      && p in h.tree && FindAncestor(s.blocks, x, h.tree[x].slot - 1) == Some(h.tree[p].Id())
  {
    hide Tree, CacheOk, CoverOk, RememberedOk, IsChainOf, Descending, FindAncestor, BlocksOk, IsAncestor, AncestorAt,
      LastSigned;
    var x := LastSigned(cfg, s.tailSlot, h.tree, h.genesis, r).value;
    LastSignedFacts(cfg, s.tailSlot, h.tree, h.genesis, r);
    AncestorAtSelf(h.tree, h.genesis, r, x);
    var signature := Find(cfg, s, h, r, h.tree[x].slot);
    AncestorAtParent(h.tree, h.genesis, x);
    var attested := Find(cfg, s, h, x, h.tree[x].slot - 1);
  }

  /** The walks for the latest update find what the chain calls for, and succeed exactly if its header is available. */
  lemma LatestShows(cfg: Config, s: Store, h: Hist, r: Root, lowSlot: nat)
    requires Settled(cfg, s, h) && Descending(s.blocks) && Above(s, h, r)
    requires s.tailSlot <= lowSlot && s.latestFinalized.slot <= lowSlot
    requires h.tree[r].slot >= s.tailSlot && h.tree[r].slot >= s.latestFinalized.slot
    ensures Tree(BeforeHead(cfg, s, h, r, lowSlot).tree, BeforeHead(cfg, s, h, r, lowSlot).genesis)
    ensures
      LatestFor(s, h.tree[r].Id(), lowSlot) ==
        if LatestSucceeds(cfg, s, h, r, lowSlot)
        then Some((
          LatestOf(cfg, s.tailSlot, BeforeHead(cfg, s, h, r, lowSlot), r, lowSlot), CacheWith(cfg, s, h, r, lowSlot)))
        else None
  {
    hide Tree, CacheOk, CoverOk, RememberedOk, IsChainOf, Descending, FindAncestor, BlocksOk, IsAncestor, Best,
      LastSigned, FinalizedHeader, HeaderAvailable, Remembered;
    CachedAt(cfg, s, h, r);
    var signer := LastSigned(cfg, s.tailSlot, h.tree, h.genesis, r);
    if signer.Some? {
      var p := h.tree[signer.value].parentRoot;
      LastSignedFacts(cfg, s.tailSlot, h.tree, h.genesis, r);
      if h.tree[signer.value].slot > lowSlot {
        SignerFound(cfg, s, h, r, lowSlot);
        if h.tree[p].slot >= lowSlot {
          HeaderExact(cfg, s, h, p);
        }
      }
    }
  }

  // ----- Head changes -----

  /** The slot below which a head change shows nothing. */
  function LowSlot(s: Store): nat {
    if s.tailSlot >= s.latestFinalized.slot then s.tailSlot else s.latestFinalized.slot
  }

  /** When a head change succeeds: the head is below the tail slot, or its latest update can be built. */
  ghost predicate HeadSucceeds(cfg: Config, s: Store, h: Hist, r: Root)
    requires Tree(h.tree, h.genesis) && r in h.tree
  {
    h.tree[r].slot >= s.tailSlot ==> LatestSucceeds(cfg, s, h, r, LowSlot(s))
  }

  /** A head change succeeds exactly if the latest update can be built. It replaces the two views, and shows exactly
      the committed updates of the new head's chain and its latest update; a head below the tail slot changes
      nothing. */
  lemma HeadChangeShows(cfg: Config, s: Store, h: Hist, r: Root)
    requires Settled(cfg, s, h) && Descending(s.blocks) && Above(s, h, r)
    ensures
      var out, low := ProcessHeadChange(cfg, s, h.tree[r].Id(), s.latestFinalized), LowSlot(s);
      && (out.Some? <==> HeadSucceeds(cfg, s, h, r))
      && (h.tree[r].slot < s.tailSlot ==> out == Some(s))
      && (out.Some? && h.tree[r].slot >= s.tailSlot ==>
            && out.value ==
               s.(bestUpdates := out.value.bestUpdates, latest := out.value.latest,
                  cache := CacheWith(cfg, s, h, r, low))
            && Tree(BeforeHead(cfg, s, h, r, low).tree, BeforeHead(cfg, s, h, r, low).genesis)
            && out.value.latest == LatestOf(cfg, s.tailSlot, BeforeHead(cfg, s, h, r, low), r, low)
            && forall p: nat ::
                 Lookup(out.value.bestUpdates, p) ==
                   if Period(cfg, low) <= p <= Period(cfg, h.tree[r].slot)
                   then Committed(cfg, s.tailSlot, h, r, low, p, Lookup(s.bestUpdates, p))
                   else Lookup(s.bestUpdates, p))
  {
    hide Tree, CacheOk, CoverOk, RememberedOk, IsChainOf, Descending, BlocksOk, IsAncestor, Best, LatestOf, Committed,
      CommitPeriods, LatestFor, Period, LatestSucceeds, CacheWith, BeforeHead;
    AncestorBelow(h.tree, h.genesis, Finalized(s), r);
    ParentIn(h, r);
    if h.tree[r].slot >= s.tailSlot {
      CommitShows(cfg, s, h, s.bestUpdates, r, Period(cfg, h.tree[r].slot), LowSlot(s));
      LatestShows(cfg, s, h, r, LowSlot(s));
    }
  }

  /** A head at or after the tail slot is shown. */
  lemma CommittedShows(cfg: Config, tail: nat, before: map<nat, Update>, after: map<nat, Update>, h: Hist, r: Root,
      low: nat)
    requires cfg.Valid() && Tree(h.tree, h.genesis) && r in h.tree
    requires forall p: nat ::
               Lookup(after, p) ==
                 if Period(cfg, low) <= p <= Period(cfg, h.tree[r].slot)
                 then Committed(cfg, tail, h, r, low, p, Lookup(before, p)) else Lookup(before, p)
    ensures ShowsPeriods(cfg, tail, after, h, r, low)
  {
    hide Tree, AncestorAt, Best, Period, PeriodStart;
    forall p: nat ensures ShowsPeriod(cfg, tail, after, h, r, low, p) {
      var found := PeriodBlock(cfg, h, r, p);
      if found.Some? && h.tree[found.value].slot >= low && Period(cfg, h.tree[found.value].slot) == p {
        AncestorAtIsAncestor(h.tree, h.genesis, r, PeriodStart(cfg, p + 1) - 1);
        AncestorBelow(h.tree, h.genesis, found.value, r);
        PeriodMonotone(cfg, low, h.tree[found.value].slot);
        PeriodMonotone(cfg, h.tree[found.value].slot, h.tree[r].slot);
      }
    }
  }
}
