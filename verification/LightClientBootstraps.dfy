/** Which finalized blocks have a bootstrap at the end of a run. */
module LightClientBootstraps {
  import opened Slots
  import opened Wrappers
  import opened BlockTree
  import opened LightClientData
  import opened LightClientInvariant
  import opened LightClientBlock
  import opened LightClientSetup
  import opened LightClientHead
  import opened LightClientFinality
  import opened LightClientRun

  /** Every block recorded between a slot and the next epoch boundary was finalized later than that slot: some
      finalization ended at or after the slot and before the block. `tops` holds the slots at which finalizations
      ended. */
  ghost predicate Separated(cfg: Config, roots: map<nat, Root>, tops: set<nat>, slot: nat)
    requires cfg.Valid()
  {
    forall k {:trigger k in roots} :: k in roots && slot < k <= NextEpochBoundarySlot(cfg, slot) ==>
      exists t :: t in tops && slot <= t < k
  }

  /** A block of the finalized chain that is the first one, or that lies from the tail slot on and is separated from the
      recorded blocks up to its boundary. */
  ghost predicate Deserves(cfg: Config, s: Store, h: Hist, tops: set<nat>, r: Root)
    requires cfg.Valid() && Rooted(s, h) && FinalOk(s, h) && r in h.tree
  {
    && IsAncestor(h.tree, h.genesis, r, Finalized(s))
    && (r == h.genesis
        || (h.tree[r].slot >= s.tailSlot && Separated(cfg, s.finalizedBlockRoots, tops, h.tree[r].slot)))
  }

  /** The bootstraps are exactly those. */
  ghost predicate Bootstrapped(cfg: Config, s: Store, h: Hist, tops: set<nat>)
    requires cfg.Valid() && Rooted(s, h) && FinalOk(s, h)
  {
    && s.latestFinalized.slot in tops && (forall t :: t in tops ==> t <= s.latestFinalized.slot)
    && (forall r {:trigger r in s.db.headers} {:trigger Deserves(cfg, s, h, tops, r)} :: r in h.tree ==>
          (r in s.db.headers <==> Deserves(cfg, s, h, tops, r)))
  }

  // ----- One finalization -----

  /** The chain after a finalization, as seen from before. */
  ghost predicate Advances(s: Store, t: Store, h: Hist, fr: Root)
    requires Rooted(s, h) && FinalOk(s, h)
  {
    && Rooted(t, h) && FinalOk(t, h) && Finalized(t) == fr && t.latestFinalized.slot > s.latestFinalized.slot
    && t.tailSlot == s.tailSlot && IsAncestor(h.tree, h.genesis, Finalized(s), fr)
  }

  lemma RootsAdvance(s: Store, t: Store, h: Hist, fr: Root, k: nat)
    requires Rooted(s, h) && FinalOk(s, h) && Advances(s, t, h, fr)
    ensures k <= s.latestFinalized.slot ==> (k in t.finalizedBlockRoots <==> k in s.finalizedBlockRoots)
    ensures k in t.finalizedBlockRoots ==> k <= t.latestFinalized.slot
  {
    hide Tree, IsAncestor;
    if k in t.finalizedBlockRoots {
      RecordedBelow(t, h, k);
      if k <= s.latestFinalized.slot {
        AncestorsLinear(h.tree, h.genesis, t.finalizedBlockRoots[k], Finalized(s), fr);
      }
    }
    if k in s.finalizedBlockRoots {
      AncestorTrans(h.tree, h.genesis, s.finalizedBlockRoots[k], Finalized(s), fr);
    }
  }

  lemma ChainAdvances(s: Store, t: Store, h: Hist, fr: Root, r: Root)
    requires Rooted(s, h) && FinalOk(s, h) && Advances(s, t, h, fr) && r in h.tree
    ensures h.tree[r].slot <= s.latestFinalized.slot ==>
      (IsAncestor(h.tree, h.genesis, r, fr) <==> IsAncestor(h.tree, h.genesis, r, Finalized(s)))
    ensures h.tree[r].slot > s.latestFinalized.slot ==>
      r != h.genesis && !IsAncestor(h.tree, h.genesis, r, Finalized(s))
  {
    hide Tree, IsAncestor, IsChainOf;
    if IsAncestor(h.tree, h.genesis, r, Finalized(s)) {
      AncestorBelow(h.tree, h.genesis, r, Finalized(s));
      AncestorTrans(h.tree, h.genesis, r, Finalized(s), fr);
    }
    if IsAncestor(h.tree, h.genesis, r, fr) {
      AncestorsLinear(h.tree, h.genesis, r, Finalized(s), fr);
    }
  }

  /** Separation of an earlier slot does not change: whatever is recorded now lies behind the old finalized slot. */
  lemma OldSeparation(cfg: Config, s: Store, t: Store, h: Hist, fr: Root, tops: set<nat>, slot: nat)
    requires cfg.Valid() && Rooted(s, h) && FinalOk(s, h) && Advances(s, t, h, fr)
    requires s.latestFinalized.slot in tops && slot <= s.latestFinalized.slot
    ensures Separated(cfg, t.finalizedBlockRoots, tops + {t.latestFinalized.slot}, slot)
       <==> Separated(cfg, s.finalizedBlockRoots, tops, slot)
  {
    hide Rooted, FinalOk, NextEpochBoundarySlot;
    var roots, earlier, next := t.finalizedBlockRoots, s.finalizedBlockRoots, tops + {t.latestFinalized.slot};
    if Separated(cfg, earlier, tops, slot) {
      forall k | k in roots && slot < k <= NextEpochBoundarySlot(cfg, slot)
        ensures exists u :: u in next && slot <= u < k
      {
        RootsAdvance(s, t, h, fr, k);
        if k <= s.latestFinalized.slot {
          var u :| u in tops && slot <= u < k;
          assert u in next;
        } else {
          assert s.latestFinalized.slot in next;
        }
      }
    }
    if Separated(cfg, roots, next, slot) {
      forall k | k in earlier && slot < k <= NextEpochBoundarySlot(cfg, slot)
        ensures exists u :: u in tops && slot <= u < k
      {
        OldIsBelow(s, h, k);
        RootsAdvance(s, t, h, fr, k);
        var u :| u in next && slot <= u < k;
        assert u in tops;
      }
    }
  }

  lemma OldIsBelow(s: Store, h: Hist, k: nat)
    requires Rooted(s, h) && FinalOk(s, h) && k in s.finalizedBlockRoots
    ensures k <= s.latestFinalized.slot
  {
    RecordedBelow(s, h, k);
  }

  /** A newly finalized slot is separated exactly if nothing is recorded up to its boundary. */
  lemma NewSeparation(cfg: Config, s: Store, t: Store, h: Hist, fr: Root, tops: set<nat>, slot: nat)
    requires cfg.Valid() && Rooted(s, h) && FinalOk(s, h) && Advances(s, t, h, fr)
    requires slot > s.latestFinalized.slot && forall u :: u in tops ==> u <= s.latestFinalized.slot
    ensures Separated(cfg, t.finalizedBlockRoots, tops + {t.latestFinalized.slot}, slot)
       <==> NoneBeforeBoundary(cfg, t.finalizedBlockRoots, slot)
  {
    hide Rooted, FinalOk, NextEpochBoundarySlot;
    var roots, next := t.finalizedBlockRoots, tops + {t.latestFinalized.slot};
    if !NoneBeforeBoundary(cfg, roots, slot) {
      var k :| k in roots && slot < k <= NextEpochBoundarySlot(cfg, slot);
      RootsAdvance(s, t, h, fr, k);
      assert !exists u :: u in next && slot <= u < k;
    }
  }

  /** Finalization leaves the bootstraps of the earlier blocks alone, and makes none below the tail slot. */
  lemma HeadersAdvance(cfg: Config, s: Store, h: Hist, fr: Root, epoch: nat, r: Root)
    requires Inv(cfg, s, h) && Above(s, h, fr) && Descending(s.blocks) && h.tree[fr].slot > s.latestFinalized.slot
    requires r in h.tree
    ensures Finalize(cfg, s, fr, epoch).Some?
    ensures
      var t := Finalize(cfg, s, fr, epoch).value;
      && (h.tree[r].slot <= s.latestFinalized.slot ==> (r in t.db.headers <==> r in s.db.headers))
      && (h.tree[r].slot > s.latestFinalized.slot && r in t.db.headers ==> h.tree[r].slot >= s.tailSlot)
      && Advances(s, t, h, fr)
  {
    hide Tree, IsAncestor, CacheOk, CoverOk, RememberedOk, BlocksOk, IsChainOf, Descending, StatesOk, ViewOk, Finalize,
      CreateBootstraps, Chosen, LastOfEpoch, Period, Grows, DbFor, PruneBlocks, PruneCache, PruneStates;
    var mid, db := FinalizeSteps(cfg, s, h, fr, epoch);
    FinalizeKeeps(cfg, s, h, fr, epoch);
    TopIsRecorded(mid.finalizedBlockRoots, h, fr);
    ParentIn(h, r);
    if r in s.db.headers {
      HeadersAreOld(cfg, s, h, r);
    }
    if h.tree[fr].slot >= s.tailSlot {
      var ids, made := BootstrapsMade(cfg, s, mid, h, fr);
    }
  }

  /** A finalization keeps the account of bootstraps. */
  lemma FinalizeAccounts(cfg: Config, s: Store, h: Hist, fr: Root, epoch: nat, tops: set<nat>)
    requires Inv(cfg, s, h) && Above(s, h, fr) && Descending(s.blocks) && Bootstrapped(cfg, s, h, tops)
    ensures Finalize(cfg, s, fr, epoch).Some?
    ensures
      var t := Finalize(cfg, s, fr, epoch).value;
      Rooted(t, h) && FinalOk(t, h) && Bootstrapped(cfg, t, h, tops + {t.latestFinalized.slot})
  {
    hide Tree, IsAncestor, CacheOk, CoverOk, RememberedOk, BlocksOk, IsChainOf, Descending, StatesOk, ViewOk, Finalize,
      DbOk, Deserves;
    FinalizeKeeps(cfg, s, h, fr, epoch);
    var t := Finalize(cfg, s, fr, epoch).value;
    if h.tree[fr].slot <= s.latestFinalized.slot {
      assert tops + {t.latestFinalized.slot} == tops;
    } else {
      var next := tops + {t.latestFinalized.slot};
      assert s.latestFinalized.slot in tops && forall u :: u in tops ==> u <= s.latestFinalized.slot;
      HeadersAdvance(cfg, s, h, fr, epoch, fr);
      forall r | r in h.tree ensures r in t.db.headers <==> Deserves(cfg, t, h, next, r) {
        BlockAccounts(cfg, s, h, fr, epoch, tops, r);
      }
    }
  }

  lemma BlockAccounts(cfg: Config, s: Store, h: Hist, fr: Root, epoch: nat, tops: set<nat>, r: Root)
    requires Inv(cfg, s, h) && Above(s, h, fr) && Descending(s.blocks) && h.tree[fr].slot > s.latestFinalized.slot
    requires s.latestFinalized.slot in tops && forall u :: u in tops ==> u <= s.latestFinalized.slot
    requires r in h.tree && (r in s.db.headers <==> Deserves(cfg, s, h, tops, r))
    ensures Finalize(cfg, s, fr, epoch).Some?
    ensures
      var t := Finalize(cfg, s, fr, epoch).value;
      && Rooted(t, h) && FinalOk(t, h)
      && (r in t.db.headers <==> Deserves(cfg, t, h, tops + {t.latestFinalized.slot}, r))
  {
    hide Tree, IsAncestor, CacheOk, CoverOk, RememberedOk, BlocksOk, IsChainOf, Descending, StatesOk, ViewOk, Finalize,
      Separated, NoneBeforeBoundary, Period;
    HeadersAdvance(cfg, s, h, fr, epoch, r);
    FinalizeKeeps(cfg, s, h, fr, epoch);
    var t := Finalize(cfg, s, fr, epoch).value;
    ChainAdvances(s, t, h, fr, r);
    if h.tree[r].slot <= s.latestFinalized.slot {
      OldSeparation(cfg, s, t, h, fr, tops, h.tree[r].slot);
    } else if IsAncestor(h.tree, h.genesis, r, fr) && h.tree[r].slot >= s.tailSlot {
      AncestorBelow(h.tree, h.genesis, r, fr);
      FinalizeBootstraps(cfg, s, h, fr, epoch, r);
      NewSeparation(cfg, s, t, h, fr, tops, h.tree[r].slot);
    }
  }

  // ----- One event -----

  /** What a change of cache, views and states leaves of the account, also when blocks join the tree. */
  lemma SameAccount(cfg: Config, s: Store, h: Hist, t: Store, g: Hist, tops: set<nat>)
    requires Inv(cfg, s, h) && Inv(cfg, t, g) && Bootstrapped(cfg, s, h, tops)
    requires Extends(h.tree, g.tree, h.genesis) && g.genesis == h.genesis
    requires t.db == s.db && t.finalizedBlockRoots == s.finalizedBlockRoots && t.tailSlot == s.tailSlot
    requires t.latestFinalized == s.latestFinalized
    requires forall r :: r in g.tree && r !in h.tree ==> g.tree[r].slot > s.latestFinalized.slot
    ensures Bootstrapped(cfg, t, g, tops + {t.latestFinalized.slot})
  {
    hide Tree, IsAncestor, CacheOk, CoverOk, RememberedOk, BlocksOk, IsChainOf, StatesOk, ViewOk, Separated,
      DbFor;
    assert tops + {t.latestFinalized.slot} == tops;
    forall r | r in g.tree ensures r in t.db.headers <==> Deserves(cfg, t, g, tops, r) {
      if r in h.tree {
        SameAncestry(h.tree, g.tree, h.genesis, r, Finalized(s));
        assert r in s.db.headers <==> Deserves(cfg, s, h, tops, r);
      } else {
        if r in s.db.headers {
          HeadersAreOld(cfg, s, h, r);
        }
        if IsAncestor(g.tree, g.genesis, r, Finalized(s)) {
          AncestorBelow(g.tree, g.genesis, r, Finalized(s));
        }
      }
    }
  }

  lemma EventAccounts(cfg: Config, s: Store, h: Hist, e: Event, tops: set<nat>)
    requires cfg.Valid() && Expected(cfg, s, h, e) && Bootstrapped(cfg, s, h, tops) && Do(cfg, s, e).Some?
    ensures
      var t, g := Do(cfg, s, e).value, After(cfg, s, h, e);
      Rooted(t, g) && FinalOk(t, g) && Bootstrapped(cfg, t, g, tops + {t.latestFinalized.slot})
  {
    hide Tree, LegalHead, LegalBlock, SelectNewHead, AddNewBlock, BlockSucceeds, HeadSucceeds, AfterBlock, AfterHead,
      BlocksOk, CacheOk, CoverOk, RememberedOk, StatesOk, DbOk, ViewOk, IsChainOf, Descending, Bootstrapped;
    match e
    case NewBlock(b, post, parent) => BlockAdded(cfg, s, h, b, post, tops);
    case NewHead(head) =>
      InvDescends(cfg, s, h);
      HeadSelected(cfg, s, h, head.root, tops);
  }

  lemma BlockAdded(cfg: Config, s: Store, h: Hist, b: Block, post: PostState, tops: set<nat>)
    requires Inv(cfg, s, h) && LegalBlock(s, h, b, post) && Bootstrapped(cfg, s, h, tops)
    requires AddNewBlock(cfg, s, b, post, h.tree[b.parentRoot].Id()).Some?
    ensures
      var t, g := AddNewBlock(cfg, s, b, post, h.tree[b.parentRoot].Id()).value, AfterBlock(cfg, s, h, b, post);
      Rooted(t, g) && FinalOk(t, g) && Bootstrapped(cfg, t, g, tops + {t.latestFinalized.slot})
  {
    hide IsAncestor, CacheOk, CoverOk, RememberedOk, BlocksOk, IsChainOf, StatesOk, ViewOk, DbOk, Bootstrapped,
      AddNewBlock, CacheAfter, FinalizedHeader, BlockSucceeds, Tree;
    AddBlockKeeps(cfg, s, h, b, post);
    AddedData(cfg, s, h, b, post);
    var t, g := AddNewBlock(cfg, s, b, post, h.tree[b.parentRoot].Id()).value, AfterBlock(cfg, s, h, b, post);
    BlockWidens(h, b, post);
    SameAccount(cfg, s, h, t, g, tops);
  }

  lemma HeadSelected(cfg: Config, s: Store, h: Hist, r: Root, tops: set<nat>)
    requires Inv(cfg, s, h) && LegalHead(s, h, r) && Descending(s.blocks) && Bootstrapped(cfg, s, h, tops)
    requires SelectNewHead(cfg, s, h.tree[r].Id()).Some?
    ensures
      var t, g := SelectNewHead(cfg, s, h.tree[r].Id()).value, AfterHead(cfg, s, h, r);
      Rooted(t, g) && FinalOk(t, g) && Bootstrapped(cfg, t, g, tops + {t.latestFinalized.slot})
  {
    hide Tree, IsAncestor, CacheOk, CoverOk, RememberedOk, BlocksOk, IsChainOf, Descending, StatesOk, DbOk, ShowsHead,
      Finalize, ProcessHeadChange, ViewOk, LatestSucceeds, BeforeHead, Bootstrapped;
    HeadIsStored(cfg, s, h, r);
    HeadChangeKeepsInv(cfg, s, h, r);
    AfterHeadTree(cfg, s, h, r);
    var next, g := ProcessHeadChange(cfg, s, h.tree[r].Id(), s.latestFinalized).value, AfterHead(cfg, s, h, r);
    ExtendsSelf(h);
    SameAccount(cfg, s, h, next, g, tops);
    var post := s.states[h.tree[r].stateRoot];
    if post.finalizedEpoch != GENESIS_EPOCH {
      FinalizeAccounts(cfg, next, g, post.finalizedRoot, post.finalizedEpoch, tops + {s.latestFinalized.slot});
      OldTop(cfg, s, h, tops);
    }
  }

  lemma OldTop(cfg: Config, s: Store, h: Hist, tops: set<nat>)
    requires cfg.Valid() && Rooted(s, h) && FinalOk(s, h) && Bootstrapped(cfg, s, h, tops)
    ensures tops + {s.latestFinalized.slot} == tops
  {
  }

  lemma ExtendsSelf(h: Hist)
    requires Tree(h.tree, h.genesis)
    ensures Extends(h.tree, h.tree, h.genesis)
  {
    hide Tree;
  }

  // ----- Whole runs -----

  /** The slots at which the finalizations of a run end, with the finalized slot at its start. */
  ghost function Tops(cfg: Config, s: Store, events: seq<Event>): set<nat>
    requires cfg.Valid()
    decreases |events|
  {
    {s.latestFinalized.slot}
    + if events == [] then {}
      else
        match Do(cfg, s, events[0])
        case None => {}
        case Some(next) => Tops(cfg, next, events[1..])
  }

  lemma {:induction false} RunAccounts(cfg: Config, s: Store, h: Hist, events: seq<Event>, tops: set<nat>)
    requires cfg.Valid() && Inv(cfg, s, h) && LegalRun(cfg, s, h, events) && Run(cfg, s, events).Some?
    requires Bootstrapped(cfg, s, h, tops)
    ensures
      var t, g := Run(cfg, s, events).value, HistAfter(cfg, s, h, events);
      Inv(cfg, t, g) && Bootstrapped(cfg, t, g, tops + Tops(cfg, s, events))
    decreases |events|
  {
    hide Tree, CacheOk, CoverOk, RememberedOk, BlocksOk, StatesOk, DbOk, ViewOk, IsChainOf, Legal, Do, After, Succeeds,
      Bootstrapped;
    OldTop(cfg, s, h, tops);
    if events == [] {
      assert tops + Tops(cfg, s, events) == tops;
    } else {
      var t, g, rest := Do(cfg, s, events[0]).value, After(cfg, s, h, events[0]), events[1..];
      DoKeeps(cfg, s, h, events[0]);
      EventAccounts(cfg, s, h, events[0], tops);
      RunAccounts(cfg, t, g, rest, tops + {t.latestFinalized.slot});
      assert tops + {t.latestFinalized.slot} + Tops(cfg, t, rest) == tops + Tops(cfg, s, events);
    }
  }

  /** After setup the first block has the only bootstrap. */
  lemma InitialAccount(cfg: Config, stored: Block, state: PostState, altairEpoch: nat)
    requires cfg.Valid() && IsGenesis(stored, state)
    ensures
      var s, h := SetUp(cfg, stored.Id(), stored, state, true, altairEpoch), InitialHist(stored, state);
      && s.Some? && Inv(cfg, s.value, h) && Bootstrapped(cfg, s.value, h, {GENESIS_SLOT})
  {
    hide CacheOk, Period, CreateBootstrap, RememberedOk, BlocksOk, StatesOk, ViewOk, CoverOk, DbOk, Separated;
    InitialInv(cfg, stored, state, true, altairEpoch);
    FirstBootstrap(cfg, stored, state, altairEpoch);
  }

  /** After any run from genesis, a block has a bootstrap exactly if it is the first block, or a finalized block from
      the tail slot on such that between it and each finalized block after it, up to its next epoch boundary, some
      finalization ended. Each bootstrap can be served. */
  lemma RunBootstraps(cfg: Config, stored: Block, state: PostState, altairEpoch: nat, events: seq<Event>, r: Root)
    requires cfg.Valid() && IsGenesis(stored, state)
    ensures
      var s, h := SetUp(cfg, stored.Id(), stored, state, true, altairEpoch), InitialHist(stored, state);
      && s.Some?
      && (LegalRun(cfg, s.value, h, events) && Run(cfg, s.value, events).Some? ==>
            var t, g := Run(cfg, s.value, events).value, HistAfter(cfg, s.value, h, events);
            && Rooted(t, g) && FinalOk(t, g)
            && (r in t.db.headers ==> r in g.tree && HasBootstrap(cfg, t.db, g, r))
            && (r in g.tree ==>
                  (r in t.db.headers <==> Deserves(cfg, t, g, Tops(cfg, s.value, events), r))))
  {
    hide Tree, LegalRun, Run, HistAfter, SetUp, CacheOk, CoverOk, RememberedOk, BlocksOk, StatesOk, ViewOk, IsChainOf,
      Deserves, Do, IsAncestor;
    InitialAccount(cfg, stored, state, altairEpoch);
    var s, h := SetUp(cfg, stored.Id(), stored, state, true, altairEpoch).value, InitialHist(stored, state);
    if LegalRun(cfg, s, h, events) && Run(cfg, s, events).Some? {
      RunAccounts(cfg, s, h, events, {GENESIS_SLOT});
      assert {GENESIS_SLOT} + Tops(cfg, s, events) == Tops(cfg, s, events);
    }
  }

  /** A finalization that ended at a checkpoint: the last recorded block at or before the start of some epoch. */
  ghost predicate AtCheckpoint(cfg: Config, roots: map<nat, Root>, t: nat) {
    exists epoch: nat {:trigger StartSlot(cfg, epoch)} ::
      t <= StartSlot(cfg, epoch) && forall k :: k in roots && k > t ==> k > StartSlot(cfg, epoch)
  }

  /** If all finalizations ended at checkpoints, it does not matter when: the separated slots are those with nothing
      recorded up to their next epoch boundary. */
  lemma CheckpointsSeparate(cfg: Config, roots: map<nat, Root>, tops: set<nat>, slot: nat)
    requires cfg.Valid() && forall t :: t in tops ==> AtCheckpoint(cfg, roots, t)
    ensures Separated(cfg, roots, tops, slot) <==> NoneBeforeBoundary(cfg, roots, slot)
  {
    hide StartSlot, NextEpochBoundarySlot;
    if Separated(cfg, roots, tops, slot) && !NoneBeforeBoundary(cfg, roots, slot) {
      var k :| k in roots && slot < k <= NextEpochBoundarySlot(cfg, slot);
      var t :| t in tops && slot <= t < k;
      assert AtCheckpoint(cfg, roots, t);
      var epoch: nat :| t <= StartSlot(cfg, epoch) && forall k :: k in roots && k > t ==> k > StartSlot(cfg, epoch);
      BoundaryIsFirst(cfg, slot, epoch);
    }
  }

  /** No epoch starts between a slot and its next boundary. */
  lemma BoundaryIsFirst(cfg: Config, slot: nat, epoch: nat)
    requires cfg.Valid() && slot <= StartSlot(cfg, epoch)
    ensures NextEpochBoundarySlot(cfg, slot) <= StartSlot(cfg, epoch)
  {
    hide EpochAtSlot;
    var n, boundary := cfg.slotsPerEpoch, BoundaryEpoch(cfg, slot);
    assert (epoch + 1) * n == epoch * n + n;
    EpochOrder(slot + n - 1, epoch + 1, n);
    ProductMonotone(boundary, epoch, n);
  }

  lemma ProductMonotone(a: nat, b: nat, n: nat)
    requires a <= b
    ensures a * n <= b * n
  {
    assert b * n == a * n + (b - a) * n;
  }
}
