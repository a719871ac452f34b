/** What the cache and the two views hold, in terms of single blocks of the chain. */
module LightClientViews {
  import opened Slots
  import opened Wrappers
  import opened BlockTree
  import opened LightClientData
  import opened LightClientInvariant
  import opened LightClientBlock
  import opened LightClientSetup
  import opened LightClientHead
  import opened LightClientFinality
  import opened LightClientRun

  /** The number of slots in a period. */
  function SlotsPerPeriod(cfg: Config): nat {
    cfg.epochsPerPeriod * cfg.slotsPerEpoch
  }

  lemma PeriodIsQuotient(cfg: Config, slot: nat, period: nat)
    requires cfg.Valid()
    ensures Period(cfg, slot) == period <==> period * SlotsPerPeriod(cfg) <= slot < (period + 1) * SlotsPerPeriod(cfg)
  {
    PeriodOrder(cfg, slot, period);
    PeriodOrder(cfg, slot, period + 1);
    StartIsMultiple(cfg, period);
    StartIsMultiple(cfg, period + 1);
  }

  lemma StartIsMultiple(cfg: Config, period: nat)
    ensures PeriodStart(cfg, period) == period * SlotsPerPeriod(cfg)
  {
  }

  // ----- Signing blocks -----

  /** A block of the chain of r that is signed by enough, and whose parent is recent enough. */
  ghost predicate Signs(cfg: Config, tail: nat, t: Blocks, genesis: Root, r: Root, x: Root)
    requires Tree(t, genesis) && r in t
  {
    && x in t && x != genesis && IsAncestor(t, genesis, x, r)
    && t[x].parentRoot in t && t[t[x].parentRoot].slot >= tail && t[x].participants >= cfg.minParticipants
  }

  /** Signing blocks lie on one side of a link of the chain or the other. */
  lemma SignsStep(cfg: Config, tail: nat, t: Blocks, genesis: Root, r: Root, x: Root)
    requires Tree(t, genesis) && r in t && r != genesis
    ensures t[r].parentRoot in t && t[t[r].parentRoot].slot < t[r].slot
    ensures Signs(cfg, tail, t, genesis, r, x) <==>
      || Signs(cfg, tail, t, genesis, t[r].parentRoot, x)
      || (x == r && t[t[r].parentRoot].slot >= tail && t[r].participants >= cfg.minParticipants)
  {
    StepBack(t, genesis, r, r);
    IsAncestorOfChild(t, genesis, x, r);
    if x in t && IsAncestor(t, genesis, x, r) {
      StepBack(t, genesis, x, r);
    }
  }

  lemma NothingSigns(cfg: Config, tail: nat, t: Blocks, genesis: Root, x: Root)
    requires Tree(t, genesis)
    ensures !Signs(cfg, tail, t, genesis, genesis, x)
  {
  }

  lemma SignsBelow(cfg: Config, tail: nat, t: Blocks, genesis: Root, r: Root, x: Root)
    requires Tree(t, genesis) && r in t && Signs(cfg, tail, t, genesis, r, x)
    ensures x in t && t[x].slot <= t[r].slot && (x != r ==> t[x].slot < t[r].slot)
  {
    hide Tree, IsAncestor;
    AncestorBelow(t, genesis, x, r);
  }

  /** `LastSigned` finds the last signing block, if there is one. */
  lemma {:induction false} LastSignedIsLast(cfg: Config, tail: nat, t: Blocks, genesis: Root, r: Root)
    requires Tree(t, genesis) && r in t
    ensures
      match LastSigned(cfg, tail, t, genesis, r)
      case Some(x) =>
        && Signs(cfg, tail, t, genesis, r, x)
        && (forall y :: Signs(cfg, tail, t, genesis, r, y) && y != x ==> y in t && t[y].slot < t[x].slot)
      case None => forall y :: !Signs(cfg, tail, t, genesis, r, y)
    decreases t[r].slot
  {
    hide Tree, IsAncestor, Signs;
    if r == genesis {
      forall y ensures !Signs(cfg, tail, t, genesis, r, y) {
        NothingSigns(cfg, tail, t, genesis, y);
      }
    } else {
      SignsStep(cfg, tail, t, genesis, r, r);
      var p := t[r].parentRoot;
      LastSignedIsLast(cfg, tail, t, genesis, p);
      forall y ensures Signs(cfg, tail, t, genesis, r, y) <==>
        || Signs(cfg, tail, t, genesis, p, y)
        || (y == r && t[p].slot >= tail && t[r].participants >= cfg.minParticipants)
      {
        SignsStep(cfg, tail, t, genesis, r, y);
      }
      forall y | Signs(cfg, tail, t, genesis, r, y) && y != r ensures y in t && t[y].slot < t[r].slot {
        SignsBelow(cfg, tail, t, genesis, r, y);
      }
    }
  }

  /** The update that a signing block makes of its parent, if both lie in a period. */
  ghost predicate Makes(cfg: Config, tail: nat, t: Blocks, genesis: Root, fin: Finality, r: Root, period: nat, x: Root,
      u: Update)
    requires Tree(t, genesis) && r in t
  {
    && Signs(cfg, tail, t, genesis, r, x)
    && var parent := t[x].parentRoot;
       && period * SlotsPerPeriod(cfg) <= t[parent].slot && t[x].slot < (period + 1) * SlotsPerPeriod(cfg)
       && u.attested == BlockId(t[parent].slot, parent) && u.signatureSlot == t[x].slot
       && u.participants == t[x].participants && (parent in fin ==> u.finalized == fin[parent])
       && (parent !in fin ==> u.finalized == None)
  }

  lemma MakesStep(cfg: Config, tail: nat, t: Blocks, genesis: Root, fin: Finality, r: Root, period: nat, x: Root,
      u: Update)
    requires cfg.Valid() && Tree(t, genesis) && r in t && r != genesis
    ensures t[r].parentRoot in t && t[t[r].parentRoot].slot < t[r].slot
    ensures Makes(cfg, tail, t, genesis, fin, r, period, x, u) <==>
      || Makes(cfg, tail, t, genesis, fin, t[r].parentRoot, period, x, u)
      || (x == r && Period(cfg, t[r].slot) == period && Qualifies(cfg, tail, t[r], t[t[r].parentRoot])
          && u == UpdateOf(fin, t[r], t[t[r].parentRoot]))
  {
    hide IsAncestor, Period, Signs, PeriodStart, SlotsPerPeriod;
    SignsStep(cfg, tail, t, genesis, r, x);
    var p := t[r].parentRoot;
    PeriodIsQuotient(cfg, t[r].slot, period);
    PeriodIsQuotient(cfg, t[p].slot, period);
    MultiplesApart(period, SlotsPerPeriod(cfg), t[p].slot, t[r].slot);
  }

  lemma MultiplesApart(period: nat, n: nat, a: nat, b: nat)
    requires a < b
    ensures (period * n <= a && b < (period + 1) * n) <==>
      (period * n <= a < (period + 1) * n && period * n <= b < (period + 1) * n)
  {
  }

  ghost predicate InScan(cfg: Config, tail: nat, t: Blocks, genesis: Root, fin: Finality, r: Root, period: nat,
      u: Update)
    requires Tree(t, genesis) && r in t
  {
    exists x :: Makes(cfg, tail, t, genesis, fin, r, period, x, u)
  }

  /** The scan of a chain holds exactly the updates that its signing blocks make in the period, in the order of their
      slots. */
  lemma {:induction false} ScanMembers(
      cfg: Config, tail: nat, t: Blocks, genesis: Root, fin: Finality, r: Root, period: nat)
    requires cfg.Valid() && Tree(t, genesis) && r in t
    ensures
      var scan := Scan(cfg, tail, t, genesis, fin, r, period);
      && (forall u :: u in scan <==> InScan(cfg, tail, t, genesis, fin, r, period, u))
      && InOrder(scan, t[r].slot)
    decreases t[r].slot
  {
    hide Tree, Makes, Period, Signs, InScan, Qualifies;
    if r == genesis {
      forall u ensures !InScan(cfg, tail, t, genesis, fin, r, period, u) {
        NothingMade(cfg, tail, t, genesis, fin, period, u);
      }
    } else {
      SignsStep(cfg, tail, t, genesis, r, r);
      var p := t[r].parentRoot;
      ScanMembers(cfg, tail, t, genesis, fin, p, period);
      ParentUpdates(cfg, tail, t, genesis, fin, r, period);
      var older := Scan(cfg, tail, t, genesis, fin, p, period);
      var added :=
        if Period(cfg, t[r].slot) == period && Qualifies(cfg, tail, t[r], t[p]) then [UpdateOf(fin, t[r], t[p])]
        else [];
      var scan := Scan(cfg, tail, t, genesis, fin, r, period);
      assert scan == older + added;
      StaysInOrder(older, added, t[p].slot, t[r].slot);
    }
  }

  /** Signature slots increase, up to a last one. */
  ghost predicate InOrder(updates: seq<Update>, top: nat) {
    && (forall i :: 0 <= i < |updates| ==> updates[i].signatureSlot <= top)
    && forall i, j :: 0 <= i < j < |updates| ==> updates[i].signatureSlot < updates[j].signatureSlot
  }

  lemma StaysInOrder(older: seq<Update>, added: seq<Update>, top: nat, slot: nat)
    requires InOrder(older, top) && top < slot
    requires |added| <= 1 && forall i :: 0 <= i < |added| ==> added[i].signatureSlot == slot
    ensures InOrder(older + added, slot)
  {
  }

  /** One more block of the chain. */
  lemma ParentUpdates(cfg: Config, tail: nat, t: Blocks, genesis: Root, fin: Finality, r: Root, period: nat)
    requires cfg.Valid() && Tree(t, genesis) && r in t && r != genesis
    ensures t[r].parentRoot in t
    ensures forall u :: InScan(cfg, tail, t, genesis, fin, r, period, u) <==>
              || InScan(cfg, tail, t, genesis, fin, t[r].parentRoot, period, u)
              || (Period(cfg, t[r].slot) == period && Qualifies(cfg, tail, t[r], t[t[r].parentRoot])
                  && u == UpdateOf(fin, t[r], t[t[r].parentRoot]))
  {
    hide Tree, Makes, Period, Signs, Qualifies, UpdateOf;
    SignsStep(cfg, tail, t, genesis, r, r);
    forall x, u ensures Makes(cfg, tail, t, genesis, fin, r, period, x, u) <==>
      || Makes(cfg, tail, t, genesis, fin, t[r].parentRoot, period, x, u)
      || (x == r && Period(cfg, t[r].slot) == period && Qualifies(cfg, tail, t[r], t[t[r].parentRoot])
          && u == UpdateOf(fin, t[r], t[t[r].parentRoot]))
    {
      MakesStep(cfg, tail, t, genesis, fin, r, period, x, u);
    }
    var own := UpdateOf(fin, t[r], t[t[r].parentRoot]);
    MakesStep(cfg, tail, t, genesis, fin, r, period, r, own);
  }

  lemma NothingMade(cfg: Config, tail: nat, t: Blocks, genesis: Root, fin: Finality, period: nat, u: Update)
    requires Tree(t, genesis)
    ensures !InScan(cfg, tail, t, genesis, fin, genesis, period, u)
  {
    hide Signs;
    forall x ensures !Signs(cfg, tail, t, genesis, genesis, x) {
      NothingSigns(cfg, tail, t, genesis, x);
    }
  }

  /** The best update of a block: among the updates of its period on its chain none is better, and all older ones are
      worse. */
  lemma BestIsBest(cfg: Config, tail: nat, h: Hist, r: Root)
    requires cfg.Valid() && Tree(h.tree, h.genesis) && r in h.tree && StrictWeakOrder(cfg.isBetter)
    ensures
      var p := Period(cfg, h.tree[r].slot);
      match Best(cfg, tail, h, r)
      case None => forall u :: !InScan(cfg, tail, h.tree, h.genesis, h.finality, r, p, u)
      case Some(best) =>
        && InScan(cfg, tail, h.tree, h.genesis, h.finality, r, p, best)
        && forall u :: InScan(cfg, tail, h.tree, h.genesis, h.finality, r, p, u) ==>
             !cfg.isBetter(u, best) && (u.signatureSlot < best.signatureSlot ==> cfg.isBetter(best, u))
  {
    hide Tree, InScan, Period, StrictWeakOrder, Scan, FoldBest;
    var p := Period(cfg, h.tree[r].slot);
    var scan := Scan(cfg, tail, h.tree, h.genesis, h.finality, r, p);
    ScanMembers(cfg, tail, h.tree, h.genesis, h.finality, r, p);
    if scan == [] {
      FoldBestMember(cfg, scan);
    } else {
      var k := FoldBestIsBest(cfg, scan);
      assert scan[k] in scan;
    }
  }

  // ----- After a switch -----

  /** The cached best update of a block is that best update, in every state. */
  lemma CachedBest(cfg: Config, s: Store, h: Hist, r: Root)
    requires Inv(cfg, s, h) && r in h.tree
    requires h.tree[r].slot >= s.tailSlot && h.tree[r].slot >= s.latestFinalized.slot
    ensures h.tree[r].Id() in s.cache
    ensures
      var data := s.cache[h.tree[r].Id()];
      && data.branch == h.tree[r].stateRoot && data.best == Best(cfg, s.tailSlot, h, r)
      && match LastSigned(cfg, s.tailSlot, h.tree, h.genesis, r)
         case None => data.latestSignatureSlot == 0
         case Some(x) => data.latestSignatureSlot == h.tree[x].slot
  {
    hide Tree, IsChainOf, FinalOk, CoverOk, RememberedOk, BlocksOk, StatesOk, DbOk, ViewOk, Best, LastSigned,
      Remembered, CacheOk;
    CachedAt(cfg, s, h, r);
  }

  /** A period's entry after a switch to r. In the periods from the low slot's to the head's it is the best update of
      the last block of the chain before the next period, if that block lies from `low` on. This holds also if the
      period has no block of its own. All else stays. */
  ghost predicate Entry(cfg: Config, tail: nat, h: Hist, r: Root, low: nat, p: nat, before: Option<Update>,
      after: Option<Update>)
    requires cfg.Valid() && Tree(h.tree, h.genesis) && r in h.tree
  {
    var end, last := (p + 1) * SlotsPerPeriod(cfg), AncestorAt(h.tree, h.genesis, r, (p + 1) * SlotsPerPeriod(cfg) - 1);
    if end > low && p * SlotsPerPeriod(cfg) <= h.tree[r].slot && last.Some? && h.tree[last.value].slot >= low
    then after == Best(cfg, tail, h, last.value) else after == before
  }

  /** Everything that a switch shows. The entries of the periods from the low slot's to the head's are replaced, unless
      the chain has nothing recent enough. The latest update is the one of the last signing block, unless the block that
      it attests to is too old. */
  lemma SwitchShows(cfg: Config, s: Store, h: Hist, r: Root)
    requires Inv(cfg, s, h) && LegalHead(s, h, r) && Descending(s.blocks) && h.tree[r].slot >= s.tailSlot
    requires SelectNewHead(cfg, s, h.tree[r].Id()).Some?
    ensures
      var t, g := SelectNewHead(cfg, s, h.tree[r].Id()).value, AfterHead(cfg, s, h, r);
      var low := if s.tailSlot >= s.latestFinalized.slot then s.tailSlot else s.latestFinalized.slot;
      && g.tree == h.tree && g.genesis == h.genesis && g.head == Some(r) && g.low == low
      && (forall p: nat ::
            Entry(cfg, s.tailSlot, h, r, low, p, Lookup(s.bestUpdates, p), Lookup(t.bestUpdates, p)))
      && match LastSigned(cfg, s.tailSlot, h.tree, h.genesis, r)
         case None => t.latest == None
         case Some(x) =>
           var parent := h.tree[x].parentRoot;
           && parent in h.tree
           && if h.tree[parent].slot < low then t.latest == None
              else
                && parent in g.finality
                && t.latest == Some(Update(BlockId(h.tree[parent].slot, parent), h.tree[x].slot,
                     h.tree[x].participants, g.finality[parent]))
  {
    hide Tree, IsAncestor, CacheOk, CoverOk, RememberedOk, BlocksOk, IsChainOf, Descending, StatesOk, DbOk, ShowsHead,
      Finalize, ViewOk, LatestSucceeds, Best, LastSigned, Period, PeriodStart, LatestOf, BeforeHead, CacheWith,
      AncestorAt, AfterHead, ProcessHeadChange, SlotsPerPeriod;
    HeadIsStored(cfg, s, h, r);
    HeadChangeKeepsInv(cfg, s, h, r);
    HeadChangeShows(cfg, s, h, r);
    SwitchHistory(cfg, s, h, r);
    LatestInFull(cfg, s.tailSlot, BeforeHead(cfg, s, h, r, LowSlot(s)), r, LowSlot(s));
    var next, g := ProcessHeadChange(cfg, s, h.tree[r].Id(), s.latestFinalized).value, AfterHead(cfg, s, h, r);
    var post := s.states[h.tree[r].stateRoot];
    if post.finalizedEpoch != GENESIS_EPOCH {
      FinalizeKeeps(cfg, next, g, post.finalizedRoot, post.finalizedEpoch);
    }
    forall p: nat
      ensures Entry(cfg, s.tailSlot, h, r, LowSlot(s), p, Lookup(s.bestUpdates, p), Lookup(next.bestUpdates, p))
    {
      CommittedIsEntry(cfg, s.tailSlot, h, r, LowSlot(s), p, Lookup(s.bestUpdates, p), Lookup(next.bestUpdates, p));
    }
  }

  lemma CommittedIsEntry(cfg: Config, tail: nat, h: Hist, r: Root, low: nat, p: nat, before: Option<Update>,
      after: Option<Update>)
    requires cfg.Valid() && Tree(h.tree, h.genesis) && r in h.tree
    requires after == if Period(cfg, low) <= p <= Period(cfg, h.tree[r].slot)
                      then Committed(cfg, tail, h, r, low, p, before) else before
    ensures Entry(cfg, tail, h, r, low, p, before, after)
  {
    hide Tree, Period, PeriodStart, SlotsPerPeriod, AncestorAt, Best;
    StartIsMultiple(cfg, p);
    StartIsMultiple(cfg, p + 1);
    PeriodOrder(cfg, low, p + 1);
    PeriodOrder(cfg, h.tree[r].slot, p);
  }

  /** The history after a switch. */
  lemma SwitchHistory(cfg: Config, s: Store, h: Hist, r: Root)
    requires Inv(cfg, s, h) && Above(s, h, r) && h.tree[r].slot >= s.tailSlot && HeadSucceeds(cfg, s, h, r)
    ensures
      var g := AfterHead(cfg, s, h, r);
      && g.tree == h.tree && g.genesis == h.genesis && g.head == Some(r) && g.low == LowSlot(s)
      && BeforeHead(cfg, s, h, r, LowSlot(s)) == g.(head := h.head, low := h.low)
      && match Signer(cfg, s.tailSlot, h, r, LowSlot(s))
         case None => true
         case Some(x) => h.tree[x].parentRoot in g.finality
  {
    hide Tree, IsAncestor, CacheOk, CoverOk, RememberedOk, BlocksOk, IsChainOf, StatesOk, DbOk, ViewOk, BeforeHead,
      LatestSucceeds, Signer;
    AfterHeadTree(cfg, s, h, r);
    var t := SignerPinned(cfg, s, h, r);
    HeadKept(cfg, s, h, r, LowSlot(s));
    SignerWidens(cfg, s.tailSlot, h, BeforeHead(cfg, s, h, r, LowSlot(s)), r, LowSlot(s));
  }

  lemma HeadKept(cfg: Config, s: Store, h: Hist, r: Root, low: nat)
    requires Tree(h.tree, h.genesis) && r in h.tree
    ensures BeforeHead(cfg, s, h, r, low).head == h.head && BeforeHead(cfg, s, h, r, low).low == h.low
  {
    hide Tree;
  }

  /** The latest update that a chain calls for, in full. */
  lemma LatestInFull(cfg: Config, tail: nat, g: Hist, r: Root, low: nat)
    requires Tree(g.tree, g.genesis) && r in g.tree
    ensures
      match LastSigned(cfg, tail, g.tree, g.genesis, r)
      case None => LatestOf(cfg, tail, g, r, low) == None
      case Some(x) =>
        var parent := g.tree[x].parentRoot;
        && parent in g.tree
        && if g.tree[parent].slot < low then LatestOf(cfg, tail, g, r, low) == None
           else parent in g.finality ==>
             LatestOf(cfg, tail, g, r, low) == Some(Update(BlockId(g.tree[parent].slot, parent), g.tree[x].slot,
                                                           g.tree[x].participants, g.finality[parent]))
  {
    hide LastSigned;
    if LastSigned(cfg, tail, g.tree, g.genesis, r).Some? {
      LastSignedFacts(cfg, tail, g.tree, g.genesis, r);
    }
  }
}
