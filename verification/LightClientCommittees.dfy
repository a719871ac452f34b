/** Which committees bootstraps are served with. */
module LightClientCommittees {
  import opened Slots
  import opened Wrappers
  import opened BlockTree
  import opened LightClientData
  import opened LightClientInvariant
  import opened LightClientBlock
  import opened LightClientSetup
  import opened LightClientHead
  import opened LightClientFinality
  import opened LightClientRun

  // ----- Advancing a state -----

  /** What is assumed of advancing: the state arrives at the slot, and it does not matter whether it stops on the
      way. */
  ghost predicate LawfulAdvance(cfg: Config) {
    && (forall st: PostState, t: nat {:trigger cfg.advance(st, t)} :: t > st.slot ==> cfg.advance(st, t).slot == t)
    && (forall st: PostState, a: nat, b: nat {:trigger cfg.advance(cfg.advance(st, a), b)} ::
          st.slot < a < b ==> cfg.advance(cfg.advance(st, a), b) == cfg.advance(st, b))
  }

  /** A state, advanced to a slot unless it is there already. */
  function StateAt(cfg: Config, st: PostState, slot: nat): PostState {
    if slot > st.slot then cfg.advance(st, slot) else st
  }

  lemma StateAtTwice(cfg: Config, st: PostState, a: nat, b: nat)
    requires LawfulAdvance(cfg)
    ensures a <= b ==> StateAt(cfg, StateAt(cfg, st, a), b) == StateAt(cfg, st, b)
    ensures a >= b ==> StateAt(cfg, StateAt(cfg, st, a), b) == StateAt(cfg, st, a)
  {
  }

  // ----- The intended and the actual committee -----

  /** The slot that a period's committee is meant for: the first one of the period, or the tail slot if that is
      later. */
  function CommitteeStart(cfg: Config, tail: nat, period: nat): nat {
    if PeriodStart(cfg, period) >= tail then PeriodStart(cfg, period) else tail
  }

  /** Where an entry comes from: the finalized slot when it was made, and all periods whose entries were made by the
      same finalization, or by setup. */
  datatype Origin = Origin(top: nat, made: set<nat>)

  /** The block that a period's committee is taken from: the last one of the finalized chain at or before the slot it is
      meant for, as far as the chain was finalized then. */
  ghost function SourceOf(cfg: Config, tail: nat, h: Hist, fin: Root, o: Origin, period: nat): Option<Root>
    requires cfg.Valid() && Tree(h.tree, h.genesis) && fin in h.tree
  {
    var start := CommitteeStart(cfg, tail, period);
    AncestorAt(h.tree, h.genesis, fin, if start <= o.top then start else o.top)
  }

  /** The last period, among those made together, whose committee comes from the same block. */
  ghost predicate LastFrom(cfg: Config, tail: nat, h: Hist, fin: Root, o: Origin, period: nat, last: nat)
    requires cfg.Valid() && Tree(h.tree, h.genesis) && fin in h.tree
  {
    && last in o.made && SourceOf(cfg, tail, h, fin, o, last) == SourceOf(cfg, tail, h, fin, o, period)
    && forall q {:trigger q in o.made} ::
         (q in o.made && SourceOf(cfg, tail, h, fin, o, q) == SourceOf(cfg, tail, h, fin, o, period)) ==> q <= last
  }

  /** The committee of a period is that of its source's post-state, advanced to the slot of the last period that was
      made from it. */
  ghost predicate TakenFrom(cfg: Config, tail: nat, h: Hist, fin: Root, o: Origin, period: nat, committee: Option<nat>)
    requires cfg.Valid() && Tree(h.tree, h.genesis) && fin in h.tree
  {
    var source := SourceOf(cfg, tail, h, fin, o, period);
    && period in o.made && source.Some? && source.value in h.posts
    && exists last {:trigger LastFrom(cfg, tail, h, fin, o, period, last)} ::
         LastFrom(cfg, tail, h, fin, o, period, last)
         && committee == Some(StateAt(cfg, h.posts[source.value], CommitteeStart(cfg, tail, last)).committee)
  }

  /** The recorded state of a block that no committee has been taken from since it was finalized: its post-state, which
      setup may have advanced to the tail slot. */
  ghost predicate Untouched(cfg: Config, tail: nat, h: Hist, r: Root, st: PostState) {
    r in h.posts && (st == h.posts[r] || (r == h.genesis && st == StateAt(cfg, h.posts[r], tail)))
  }

  /** Periods made together share their origin. */
  ghost predicate Together(origins: map<nat, Origin>) {
    forall p, q {:trigger q in origins[p].made} :: p in origins && q in origins[p].made ==>
      q in origins && origins[q] == origins[p]
  }

  /** An entry: before the tail slot's period there is no committee. A finalization makes entries only for slots that it
      finalizes; setup makes one. */
  ghost predicate EntryOk(cfg: Config, tail: nat, h: Hist, fin: Root, o: Origin, p: nat, committee: Option<nat>)
    requires cfg.Valid() && Tree(h.tree, h.genesis) && fin in h.tree && h.genesis in h.tree
  {
    && o.top <= h.tree[fin].slot
    && (CommitteeStart(cfg, tail, p) <= o.top || (p <= Period(cfg, tail) && o == Origin(h.tree[h.genesis].slot, {p})))
    && if p < Period(cfg, tail) then committee == None else TakenFrom(cfg, tail, h, fin, o, p, committee)
  }

  ghost predicate CommitteesOk(cfg: Config, s: Store, h: Hist, origins: map<nat, Origin>)
    requires cfg.Valid() && Rooted(s, h) && FinalOk(s, h)
  {
    && origins.Keys == s.db.syncCommittees.Keys && Together(origins)
    && h.tree[Finalized(s)].stateRoot in s.db.checkpointStates
    && Untouched(cfg, s.tailSlot, h, Finalized(s), s.db.checkpointStates[h.tree[Finalized(s)].stateRoot])
    && forall p {:trigger p in s.db.syncCommittees} :: p in s.db.syncCommittees ==>
         EntryOk(cfg, s.tailSlot, h, Finalized(s), origins[p], p, s.db.syncCommittees[p])
  }

  // ----- What later blocks and finalizations leave alone -----

  lemma SourceStays(cfg: Config, tail: nat, h: Hist, fin: Root, g: Hist, next: Root, o: Origin, period: nat)
    requires cfg.Valid() && Extends(h.tree, g.tree, h.genesis) && g.genesis == h.genesis && fin in h.tree
    requires next in g.tree && IsAncestor(g.tree, g.genesis, fin, next) && o.top <= h.tree[fin].slot
    ensures SourceOf(cfg, tail, g, next, o, period) == SourceOf(cfg, tail, h, fin, o, period)
  {
    hide IsAncestor, AncestorAt, PeriodStart;
    var start := CommitteeStart(cfg, tail, period);
    var slot := if start <= o.top then start else o.top;
    AncestorAtSelf(g.tree, g.genesis, next, fin);
    AncestorAtFrom(g.tree, g.genesis, next, g.tree[fin].slot, slot);
    SameAncestorAt(h.tree, g.tree, h.genesis, fin, slot);
  }

  lemma TakenStays(cfg: Config, tail: nat, h: Hist, fin: Root, g: Hist, next: Root, o: Origin, period: nat,
      committee: Option<nat>)
    requires cfg.Valid() && Extends(h.tree, g.tree, h.genesis) && g.genesis == h.genesis && fin in h.tree
    requires next in g.tree && IsAncestor(g.tree, g.genesis, fin, next) && o.top <= h.tree[fin].slot
    requires forall r :: r in h.tree && r in h.posts ==> r in g.posts && g.posts[r] == h.posts[r]
    requires TakenFrom(cfg, tail, h, fin, o, period, committee)
    ensures TakenFrom(cfg, tail, g, next, o, period, committee)
  {
    hide IsAncestor, SourceOf, Tree;
    forall q ensures SourceOf(cfg, tail, g, next, o, q) == SourceOf(cfg, tail, h, fin, o, q) {
      SourceStays(cfg, tail, h, fin, g, next, o, q);
    }
    SourceInTree(cfg, tail, h, fin, o, period);
    var last :| LastFrom(cfg, tail, h, fin, o, period, last)
      && committee == Some(StateAt(cfg, h.posts[SourceOf(cfg, tail, h, fin, o, period).value],
                                   CommitteeStart(cfg, tail, last)).committee);
    assert LastFrom(cfg, tail, g, next, o, period, last);
  }

  lemma EntryStays(cfg: Config, tail: nat, h: Hist, fin: Root, g: Hist, next: Root, o: Origin, period: nat,
      committee: Option<nat>)
    requires cfg.Valid() && Extends(h.tree, g.tree, h.genesis) && g.genesis == h.genesis && fin in h.tree
    requires next in g.tree && IsAncestor(g.tree, g.genesis, fin, next) && h.genesis in h.tree
    requires forall r :: r in h.tree && r in h.posts ==> r in g.posts && g.posts[r] == h.posts[r]
    requires EntryOk(cfg, tail, h, fin, o, period, committee)
    ensures EntryOk(cfg, tail, g, next, o, period, committee)
  {
    hide IsAncestor, TakenFrom, Tree, CommitteeStart, Period;
    AncestorBelow(g.tree, g.genesis, fin, next);
    if period >= Period(cfg, tail) {
      TakenStays(cfg, tail, h, fin, g, next, o, period, committee);
    }
  }

  lemma SourceInTree(cfg: Config, tail: nat, h: Hist, fin: Root, o: Origin, period: nat)
    requires cfg.Valid() && Tree(h.tree, h.genesis) && fin in h.tree
    ensures SourceOf(cfg, tail, h, fin, o, period).Some? ==> SourceOf(cfg, tail, h, fin, o, period).value in h.tree
  {
    hide AncestorAt, Tree;
  }

  // ----- One finalization -----

  /** The walk over recorded slots finds the block that the chain has there. */
  lemma FoundIsAncestor(s: Store, mid: Store, h: Hist, fr: Root, slot: nat)
    requires Rooted(s, h) && fr in h.tree && IsChainOf(mid.finalizedBlockRoots, h, fr) && slot <= h.tree[fr].slot
    requires s.historicalTailSlot <= slot && mid.historicalTailSlot == s.historicalTailSlot
    ensures
      var found := BlockIdAtFinalizedSlot(mid.finalizedBlockRoots, mid.historicalTailSlot, slot);
      found.Some? && AncestorAt(h.tree, h.genesis, fr, slot) == Some(found.value.root)
  {
    hide Tree, IsAncestor, AncestorAt, BlockIdAtFinalizedSlot;
    var t, genesis, roots := h.tree, h.genesis, mid.finalizedBlockRoots;
    GenesisIsAncestor(t, genesis, fr);
    AncestorBelow(t, genesis, genesis, fr);
    assert t[genesis].slot in roots;
    AncestorAtIsLast(t, genesis, fr, slot, genesis);
    var a := AncestorAt(t, genesis, fr, slot).value;
    AncestorAtIsAncestor(t, genesis, fr, slot);
    FoundBelow(roots, mid.historicalTailSlot, slot);
    AncestorAbove(t, genesis, a, fr);
    var b := BlockIdAtFinalizedSlot(roots, mid.historicalTailSlot, slot).value;
    AncestorAtIsLast(t, genesis, fr, slot, b.root);
    AncestorsLinear(t, genesis, a, b.root, fr);
    assert t[a].slot in roots && roots[t[a].slot] == a;
  }

  lemma AncestorAbove(t: Blocks, genesis: Root, a: Root, r: Root)
    requires Tree(t, genesis) && r in t && IsAncestor(t, genesis, a, r)
    ensures a in t && t[genesis].slot <= t[a].slot
  {
    hide Tree, IsAncestor;
    AncestorBelow(t, genesis, a, r);
    GenesisIsAncestor(t, genesis, a);
    AncestorBelow(t, genesis, genesis, a);
  }

  /** A block that committees can be taken from during a finalization: the old finalized block, or one whose state has
      just been recorded. */
  ghost predicate Candidate(cfg: Config, s: Store, h: Hist, fr: Root, b: Root)
    requires cfg.Valid() && Rooted(s, h) && FinalOk(s, h) && fr in h.tree
  {
    || b == Finalized(s)
    || RecordsState(cfg, h.tree, h.genesis, Finalized(s), fr, None, b)
  }

  /** The state of a candidate once the committees of some periods are taken. */
  ghost predicate Touched(cfg: Config, tail: nat, h: Hist, fr: Root, o: Origin, b: Root, st: PostState)
    requires cfg.Valid() && Tree(h.tree, h.genesis) && fr in h.tree
  {
    b in h.posts &&
    if forall q :: q in o.made ==> SourceOf(cfg, tail, h, fr, o, q) != Some(b) then Untouched(cfg, tail, h, b, st)
    else exists last {:trigger LastFrom(cfg, tail, h, fr, o, last, last)} ::
      LastFrom(cfg, tail, h, fr, o, last, last) && SourceOf(cfg, tail, h, fr, o, last) == Some(b)
      && st == StateAt(cfg, h.posts[b], CommitteeStart(cfg, tail, last))
  }

  /** What holds while bootstraps are made, with the committees of the periods in `done` taken. */
  ghost predicate Progress(cfg: Config, s: Store, h: Hist, fr: Root, db: Db, done: set<nat>)
    requires cfg.Valid() && Rooted(s, h) && FinalOk(s, h) && fr in h.tree
  {
    var o := Origin(h.tree[fr].slot, done);
    && db.syncCommittees.Keys == s.db.syncCommittees.Keys + done && done !! s.db.syncCommittees.Keys
    && (forall p :: p in s.db.syncCommittees ==> db.syncCommittees[p] == s.db.syncCommittees[p])
    && (forall p {:trigger p in done} :: p in done ==>
          && p >= Period(cfg, s.tailSlot) && CommitteeStart(cfg, s.tailSlot, p) <= h.tree[fr].slot
          && TakenFrom(cfg, s.tailSlot, h, fr, o, p, db.syncCommittees[p]))
    && (forall b {:trigger Candidate(cfg, s, h, fr, b)} :: b in h.tree && Candidate(cfg, s, h, fr, b) ==>
          h.tree[b].stateRoot in db.checkpointStates
          && Touched(cfg, s.tailSlot, h, fr, o, b, db.checkpointStates[h.tree[b].stateRoot]))
  }

  /** The store and the state that finalization processes. */
  ghost predicate Finalizing(cfg: Config, s: Store, mid: Store, h: Hist, fr: Root)
    requires cfg.Valid() && Rooted(s, h) && FinalOk(s, h)
  {
    Recorded(cfg, s, mid, h, fr) && StatesOk(s, h)
  }

  /** Before the first bootstrap no candidate's state has been advanced. */
  lemma ProgressStarts(cfg: Config, s: Store, mid: Store, h: Hist, fr: Root, origins: map<nat, Origin>)
    requires cfg.Valid() && Rooted(s, h) && FinalOk(s, h) && Finalizing(cfg, s, mid, h, fr)
    requires CommitteesOk(cfg, s, h, origins)
    ensures Progress(cfg, s, h, fr, mid.db, {})
  {
    hide Tree, IsAncestor, IsChainOf, CacheOk, CoverOk, RememberedOk, DbOk, TakenFrom, RecordsState, StatesOwned,
      SourceOf;
    forall b | b in h.tree && Candidate(cfg, s, h, fr, b)
      ensures h.tree[b].stateRoot in mid.db.checkpointStates
      ensures Untouched(cfg, s.tailSlot, h, b, mid.db.checkpointStates[h.tree[b].stateRoot])
    {
      CandidateState(cfg, s, mid, h, fr, b);
    }
  }

  lemma CandidateState(cfg: Config, s: Store, mid: Store, h: Hist, fr: Root, b: Root)
    requires cfg.Valid() && Rooted(s, h) && FinalOk(s, h) && Finalizing(cfg, s, mid, h, fr)
    requires b in h.tree && Candidate(cfg, s, h, fr, b)
    requires h.tree[Finalized(s)].stateRoot in s.db.checkpointStates
    requires Untouched(cfg, s.tailSlot, h, Finalized(s), s.db.checkpointStates[h.tree[Finalized(s)].stateRoot])
    ensures h.tree[b].stateRoot in mid.db.checkpointStates
    ensures Untouched(cfg, s.tailSlot, h, b, mid.db.checkpointStates[h.tree[b].stateRoot])
  {
    hide Tree, IsAncestor, IsChainOf, CacheOk, CoverOk, RememberedOk, DbOk, LastOfEpoch, StatesOwned, BoundaryEpoch;
    var f, k := Finalized(s), h.tree[b].stateRoot;
    if b == f {
      if a :| RecordsState(cfg, h.tree, h.genesis, f, fr, None, a) && h.tree[a].stateRoot == k {
        OneOwner(s, h, a, f);
      }
    } else {
      assert b in s.blocks;
    }
  }

  /** Two retained blocks have different states. */
  lemma OneOwner(s: Store, h: Hist, a: Root, b: Root)
    requires BlocksOk(s, h) && StatesOwned(s) && a in h.tree && b in h.tree && a != b
    requires h.tree[a].slot >= s.latestFinalized.slot && h.tree[b].slot >= s.latestFinalized.slot
    ensures h.tree[a].stateRoot != h.tree[b].stateRoot
  {
    if h.tree[a].stateRoot == h.tree[b].stateRoot {
      assert Owns(s, a, h.tree[a].stateRoot) && Owns(s, b, h.tree[a].stateRoot);
    }
  }

  /** Taking the committee of one more period, earlier than all those taken before. */
  lemma ProgressStep(cfg: Config, s: Store, mid: Store, h: Hist, fr: Root, db: Db, done: set<nat>, slot: nat)
    requires cfg.Valid() && Rooted(s, h) && FinalOk(s, h) && Finalizing(cfg, s, mid, h, fr) && LawfulAdvance(cfg)
    requires Progress(cfg, s, h, fr, db, done) && FirstSlot(s) <= slot <= h.tree[fr].slot
    requires forall q :: q in done ==> Period(cfg, slot) <= q
    ensures AddCommittee(cfg, mid, db, Period(cfg, slot)).Some?
    ensures
      var next := AddCommittee(cfg, mid, db, Period(cfg, slot)).value;
      && next.headers == db.headers && next.branches == db.branches
      && Progress(cfg, s, h, fr, next, next.syncCommittees.Keys - s.db.syncCommittees.Keys)
      && forall q :: q in next.syncCommittees.Keys - s.db.syncCommittees.Keys ==> Period(cfg, slot) <= q
  {
    hide Tree, IsAncestor, IsChainOf, CacheOk, CoverOk, RememberedOk, DbOk, TakenFrom, RecordsState, Touched, Period,
      StatesOk, SourceOf, CommitteeSlot, Candidate, BlockIdAtFinalizedSlot, StatesRecorded, PeriodStart;
    var p := Period(cfg, slot);
    assert db.syncCommittees.Keys - s.db.syncCommittees.Keys == done;
    if p !in db.syncCommittees {
      var start := CommitteeStart(cfg, s.tailSlot, p);
      var b := SourceIsCandidate(cfg, s, mid, h, fr, slot);
      var next := AddCommittee(cfg, mid, db, p).value;
      assert next.syncCommittees.Keys - s.db.syncCommittees.Keys == done + {p};
      ProgressTaken(cfg, s, h, fr, db, next, done, p, b);
    }
  }

  /** The block found for a period is a candidate, and the period has its source there. */
  lemma SourceIsCandidate(cfg: Config, s: Store, mid: Store, h: Hist, fr: Root, slot: nat) returns (b: Root)
    requires cfg.Valid() && Rooted(s, h) && FinalOk(s, h) && Finalizing(cfg, s, mid, h, fr)
    requires FirstSlot(s) <= slot <= h.tree[fr].slot && Period(cfg, slot) !in s.db.syncCommittees
    ensures
      var p := Period(cfg, slot);
      var start := CommitteeStart(cfg, s.tailSlot, p);
      && start == CommitteeSlot(cfg, s.tailSlot, p) && s.tailSlot <= start <= slot && p >= Period(cfg, s.tailSlot)
      && b in h.tree && Candidate(cfg, s, h, fr, b) && b in s.blocks && s.blocks[b] == h.tree[b]
      && AncestorAt(h.tree, h.genesis, fr, start) == Some(b)
      && BlockIdAtFinalizedSlot(mid.finalizedBlockRoots, mid.historicalTailSlot, start)
           == Some(BlockId(h.tree[b].slot, b))
  {
    hide Tree, IsAncestor, CacheOk, CoverOk, RememberedOk, StatesOk, Period, BoundaryEpoch, LastOfEpoch, AncestorAt,
      BlockIdAtFinalizedSlot, PeriodStart, StatesRecorded;
    var roots, start := mid.finalizedBlockRoots, CommitteeStart(cfg, s.tailSlot, Period(cfg, slot));
    CommitteeSlotIsNew(cfg, s, h, slot);
    FoundIsAncestor(s, mid, h, fr, start);
    FoundBelow(roots, s.historicalTailSlot, start);
    var found := BlockIdAtFinalizedSlot(roots, s.historicalTailSlot, start).value;
    b := found.root;
    assert s.latestFinalized.slot in roots && found.slot >= s.latestFinalized.slot;
    if found.slot > s.latestFinalized.slot {
      IsLastOfEpoch(cfg, h, roots, fr, b, start);
    }
  }

  /** The books after one more committee. */
  lemma ProgressTaken(cfg: Config, s: Store, h: Hist, fr: Root, db: Db, next: Db, done: set<nat>, p: nat, b: Root)
    requires cfg.Valid() && Settled(cfg, s, h) && StatesOk(s, h) && fr in h.tree && LawfulAdvance(cfg)
    requires IsAncestor(h.tree, h.genesis, Finalized(s), fr)
    requires Progress(cfg, s, h, fr, db, done) && p !in db.syncCommittees && forall q :: q in done ==> p < q
    requires p >= Period(cfg, s.tailSlot) && CommitteeStart(cfg, s.tailSlot, p) <= h.tree[fr].slot
    requires b in h.tree && Candidate(cfg, s, h, fr, b)
    requires AncestorAt(h.tree, h.genesis, fr, CommitteeStart(cfg, s.tailSlot, p)) == Some(b)
    requires h.tree[b].stateRoot in db.checkpointStates
    requires
      var st := StateAt(cfg, db.checkpointStates[h.tree[b].stateRoot], CommitteeStart(cfg, s.tailSlot, p));
      next.syncCommittees == db.syncCommittees[p := Some(st.committee)]
      && next.checkpointStates == db.checkpointStates[h.tree[b].stateRoot := st]
    ensures Progress(cfg, s, h, fr, next, done + {p})
  {
    hide Tree, IsAncestor, IsChainOf, CacheOk, CoverOk, RememberedOk, TakenFrom, RecordsState, Touched, Period,
      StatesOk, SourceOf, Candidate, PeriodStart, AncestorAt, LastFrom;
    var tail, top := s.tailSlot, h.tree[fr].slot;
    var before, now := Origin(top, done), Origin(top, done + {p});
    SourceAtStart(cfg, tail, h, fr, now, p, b);
    forall q ensures SourceOf(cfg, tail, h, fr, now, q) == SourceOf(cfg, tail, h, fr, before, q) {
      SameTop(cfg, tail, h, fr, before, now, q);
    }
    var st, later := db.checkpointStates[h.tree[b].stateRoot], next.checkpointStates[h.tree[b].stateRoot];
    var last := SourceTouched(cfg, tail, h, fr, before, p, b, st, later);
    forall q | q in done ensures TakenFrom(cfg, tail, h, fr, now, q, next.syncCommittees[q]) {
      TakenEarlier(cfg, tail, h, fr, before, p, q, db.syncCommittees[q]);
    }
    forall c | c in h.tree && Candidate(cfg, s, h, fr, c)
      ensures h.tree[c].stateRoot in next.checkpointStates
      ensures Touched(cfg, tail, h, fr, now, c, next.checkpointStates[h.tree[c].stateRoot])
    {
      if c != b {
        CandidatesDiffer(cfg, s, h, fr, c, b);
        TouchedElsewhere(cfg, tail, h, fr, before, p, c, db.checkpointStates[h.tree[c].stateRoot]);
      }
    }
  }

  lemma SourceAtStart(cfg: Config, tail: nat, h: Hist, fr: Root, o: Origin, p: nat, b: Root)
    requires cfg.Valid() && Tree(h.tree, h.genesis) && fr in h.tree && CommitteeStart(cfg, tail, p) <= o.top
    requires AncestorAt(h.tree, h.genesis, fr, CommitteeStart(cfg, tail, p)) == Some(b)
    ensures SourceOf(cfg, tail, h, fr, o, p) == Some(b)
  {
    hide Tree, AncestorAt, CommitteeStart;
  }

  lemma SameTop(cfg: Config, tail: nat, h: Hist, fr: Root, a: Origin, b: Origin, p: nat)
    requires cfg.Valid() && Tree(h.tree, h.genesis) && fr in h.tree && a.top == b.top
    ensures SourceOf(cfg, tail, h, fr, a, p) == SourceOf(cfg, tail, h, fr, b, p)
  {
    hide Tree, AncestorAt;
  }

  lemma CandidatesDiffer(cfg: Config, s: Store, h: Hist, fr: Root, a: Root, b: Root)
    requires cfg.Valid() && Settled(cfg, s, h) && StatesOk(s, h) && fr in h.tree && a in h.tree && b in h.tree && a != b
    requires Candidate(cfg, s, h, fr, a) && Candidate(cfg, s, h, fr, b)
    ensures h.tree[a].stateRoot != h.tree[b].stateRoot
  {
    hide Tree, IsAncestor, CacheOk, CoverOk, RememberedOk, IsChainOf, LastOfEpoch, StatesOwned, BlocksOk;
    OneOwner(s, h, a, b);
  }

  lemma StartsInOrder(cfg: Config, tail: nat, p: nat, q: nat)
    requires cfg.Valid() && p <= q
    ensures CommitteeStart(cfg, tail, p) <= CommitteeStart(cfg, tail, q)
  {
    hide PeriodStart;
    EndsInOrder(cfg, p, q);
  }

  /** The source itself: what its state becomes, and the committee taken from it. */
  lemma SourceTouched(cfg: Config, tail: nat, h: Hist, fr: Root, o: Origin, p: nat, b: Root, st: PostState,
      next: PostState) returns (last: nat)
    requires cfg.Valid() && Tree(h.tree, h.genesis) && fr in h.tree && LawfulAdvance(cfg)
    requires SourceOf(cfg, tail, h, fr, Origin(o.top, o.made + {p}), p) == Some(b) && forall q :: q in o.made ==> p < q
    requires Touched(cfg, tail, h, fr, o, b, st) && next == StateAt(cfg, st, CommitteeStart(cfg, tail, p))
    ensures
      var now := Origin(o.top, o.made + {p});
      && Touched(cfg, tail, h, fr, now, b, next) && TakenFrom(cfg, tail, h, fr, now, p, Some(next.committee))
  {
    hide Tree, SourceOf, PeriodStart, LawfulAdvance, StateAt;
    var now, start := Origin(o.top, o.made + {p}), CommitteeStart(cfg, tail, p);
    forall q ensures SourceOf(cfg, tail, h, fr, now, q) == SourceOf(cfg, tail, h, fr, o, q) {
      SameTop(cfg, tail, h, fr, o, now, q);
    }
    if forall q :: q in o.made ==> SourceOf(cfg, tail, h, fr, o, q) != Some(b) {
      last := p;
      StateAtTwice(cfg, h.posts[b], tail, start);
    } else {
      last :| LastFrom(cfg, tail, h, fr, o, last, last) && SourceOf(cfg, tail, h, fr, o, last) == Some(b)
        && st == StateAt(cfg, h.posts[b], CommitteeStart(cfg, tail, last));
      StartsInOrder(cfg, tail, p, last);
      StateAtTwice(cfg, h.posts[b], CommitteeStart(cfg, tail, last), start);
    }
    assert next == StateAt(cfg, h.posts[b], CommitteeStart(cfg, tail, last));
    assert LastFrom(cfg, tail, h, fr, now, last, last) && LastFrom(cfg, tail, h, fr, now, p, last);
    assert p in now.made;
  }

  /** An entry made before stays what it is. */
  lemma TakenEarlier(cfg: Config, tail: nat, h: Hist, fr: Root, o: Origin, p: nat, q: nat, committee: Option<nat>)
    requires cfg.Valid() && Tree(h.tree, h.genesis) && fr in h.tree && forall r :: r in o.made ==> p < r
    requires TakenFrom(cfg, tail, h, fr, o, q, committee)
    ensures TakenFrom(cfg, tail, h, fr, Origin(o.top, o.made + {p}), q, committee)
  {
    hide Tree, SourceOf, PeriodStart, CommitteeStart;
    var now := Origin(o.top, o.made + {p});
    forall r ensures SourceOf(cfg, tail, h, fr, now, r) == SourceOf(cfg, tail, h, fr, o, r) {
      SameTop(cfg, tail, h, fr, o, now, r);
    }
    var last :| LastFrom(cfg, tail, h, fr, o, q, last)
      && committee == Some(StateAt(cfg, h.posts[SourceOf(cfg, tail, h, fr, o, q).value],
                                   CommitteeStart(cfg, tail, last)).committee);
    assert LastFrom(cfg, tail, h, fr, now, q, last);
  }

  /** Another block's state is not touched. */
  lemma TouchedElsewhere(cfg: Config, tail: nat, h: Hist, fr: Root, o: Origin, p: nat, c: Root, st: PostState)
    requires cfg.Valid() && Tree(h.tree, h.genesis) && fr in h.tree && forall r :: r in o.made ==> p < r
    requires SourceOf(cfg, tail, h, fr, o, p) != Some(c) && Touched(cfg, tail, h, fr, o, c, st)
    ensures Touched(cfg, tail, h, fr, Origin(o.top, o.made + {p}), c, st)
  {
    hide Tree, SourceOf, PeriodStart, CommitteeStart;
    var now := Origin(o.top, o.made + {p});
    forall r ensures SourceOf(cfg, tail, h, fr, now, r) == SourceOf(cfg, tail, h, fr, o, r) {
      SameTop(cfg, tail, h, fr, o, now, r);
    }
    if !forall q :: q in o.made ==> SourceOf(cfg, tail, h, fr, o, q) != Some(c) {
      var last :| LastFrom(cfg, tail, h, fr, o, last, last) && SourceOf(cfg, tail, h, fr, o, last) == Some(c)
        && st == StateAt(cfg, h.posts[c], CommitteeStart(cfg, tail, last));
      assert LastFrom(cfg, tail, h, fr, now, last, last);
      assert last in now.made;
    }
  }

  /** Whatever else a bootstrap stores, the committees and the recorded states are what matters here. */
  lemma SameBooks(cfg: Config, s: Store, h: Hist, fr: Root, a: Db, b: Db, done: set<nat>)
    requires cfg.Valid() && Rooted(s, h) && FinalOk(s, h) && fr in h.tree && Progress(cfg, s, h, fr, a, done)
    requires b.syncCommittees == a.syncCommittees && b.checkpointStates == a.checkpointStates
    ensures Progress(cfg, s, h, fr, b, done)
  {
    hide Tree, IsChainOf, TakenFrom, Touched, Candidate, Period, CommitteeStart;
  }

  /** Each block is later than all those behind it. */
  ghost predicate LatestFirst(ids: seq<BlockId>) {
    forall i, j :: 0 <= i < j < |ids| ==> ids[i].slot > ids[j].slot
  }

  /** The chosen blocks come latest first. */
  lemma {:induction false} ChosenLatestFirst(
      cfg: Config, roots: map<nat, Root>, tail: nat, lowSlot: nat, top: int)
    requires cfg.Valid()
    ensures LatestFirst(BootstrapIds(cfg, roots, tail, lowSlot, top))
    decreases top
  {
    hide NextEpochBoundarySlot, BlockIdAtFinalizedSlot, BootstrapIds, LatestFirst;
    ChosenInTurn(cfg, roots, tail, lowSlot, top);
    if top >= lowSlot {
      var found := BlockIdAtFinalizedSlot(roots, tail, top);
      FoundBelow(roots, tail, top);
      if found.Some? {
        NextBoundary(cfg, found.value.slot);
        var next := NextEpochBoundarySlot(cfg, found.value.slot) - cfg.slotsPerEpoch;
        BootstrapsBelow(cfg, roots, tail, lowSlot, next);
        ChosenLatestFirst(cfg, roots, tail, lowSlot, next);
        LatestInFront(found.value, BootstrapIds(cfg, roots, tail, lowSlot, next));
      }
    }
  }

  /** One turn of the loop that chooses them. */
  lemma ChosenInTurn(cfg: Config, roots: map<nat, Root>, tail: nat, lowSlot: nat, top: int)
    requires cfg.Valid()
    ensures
      var found, ids := BlockIdAtFinalizedSlot(roots, tail, top), BootstrapIds(cfg, roots, tail, lowSlot, top);
      if top < lowSlot || found.None? then LatestFirst(ids)
      else
        var rest :=
          BootstrapIds(
            cfg, roots, tail, lowSlot, NextEpochBoundarySlot(cfg, found.value.slot) - cfg.slotsPerEpoch);
        ids == [found.value] + rest || ids == rest
  {
    hide NextEpochBoundarySlot, BlockIdAtFinalizedSlot;
  }

  lemma LatestInFront(id: BlockId, rest: seq<BlockId>)
    requires LatestFirst(rest) && forall i :: i in rest ==> i.slot < id.slot
    ensures LatestFirst([id] + rest)
  {
    assert forall j :: 0 <= j < |rest| ==> rest[j] in rest;
  }

  /** Making bootstraps, latest first. */
  lemma {:induction false} ProgressAll(cfg: Config, s: Store, mid: Store, h: Hist, fr: Root, db: Db, done: set<nat>,
      ids: seq<BlockId>, out: Db)
    requires cfg.Valid() && Rooted(s, h) && FinalOk(s, h) && Finalizing(cfg, s, mid, h, fr) && LawfulAdvance(cfg)
    requires fr in h.tree && Progress(cfg, s, h, fr, db, done) && CreateBootstraps(cfg, mid, db, ids) == Some(out)
    requires forall id :: id in ids ==> FirstSlot(s) <= id.slot <= h.tree[fr].slot
    requires forall id, q :: id in ids && q in done ==> Period(cfg, id.slot) <= q
    requires LatestFirst(ids)
    ensures Progress(cfg, s, h, fr, out, out.syncCommittees.Keys - s.db.syncCommittees.Keys)
    decreases |ids|
  {
    hide Rooted, FinalOk, Finalizing, LawfulAdvance, Progress, Period, FirstSlot, AddCommittee;
    if ids == [] {
      ProgressKeys(cfg, s, h, fr, db, done);
    } else {
      var id := ids[0];
      assert id in ids;
      ProgressStep(cfg, s, mid, h, fr, db, done, id.slot);
      var added := AddCommittee(cfg, mid, db, Period(cfg, id.slot)).value;
      var next := CreateBootstrap(cfg, mid, db, id).value;
      var more := next.syncCommittees.Keys - s.db.syncCommittees.Keys;
      SameBooks(cfg, s, h, fr, added, next, more);
      forall i, q | i in ids[1..] && q in more ensures Period(cfg, i.slot) <= q {
        PeriodMonotone(cfg, i.slot, id.slot);
      }
      ProgressAll(cfg, s, mid, h, fr, next, more, ids[1..], out);
    }
  }

  lemma ProgressKeys(cfg: Config, s: Store, h: Hist, fr: Root, db: Db, done: set<nat>)
    requires cfg.Valid() && Rooted(s, h) && FinalOk(s, h) && fr in h.tree && Progress(cfg, s, h, fr, db, done)
    ensures db.syncCommittees.Keys - s.db.syncCommittees.Keys == done && done !! s.db.syncCommittees.Keys
    ensures db.syncCommittees.Keys == s.db.syncCommittees.Keys + done
    ensures forall p :: p in s.db.syncCommittees ==> db.syncCommittees[p] == s.db.syncCommittees[p]
  {
    hide Tree, IsChainOf, TakenFrom, Touched, Candidate, Period, CommitteeStart;
  }

  /** The origins once the new entries of a state are accounted for. */
  ghost function OriginsAfter(origins: map<nat, Origin>, t: Store): map<nat, Origin> {
    var keys := t.db.syncCommittees.Keys;
    map p | p in keys :: if p in origins then origins[p] else Origin(t.latestFinalized.slot, keys - origins.Keys)
  }

  /** The newly finalized block's own state is where it was: nothing is taken from it later than its slot. */
  lemma TopUntouched(cfg: Config, s: Store, mid: Store, h: Hist, fr: Root, db: Db, done: set<nat>)
    requires cfg.Valid() && Rooted(s, h) && FinalOk(s, h) && Finalizing(cfg, s, mid, h, fr)
    requires Progress(cfg, s, h, fr, db, done)
    ensures h.tree[fr].stateRoot in db.checkpointStates
    ensures Untouched(cfg, s.tailSlot, h, fr, db.checkpointStates[h.tree[fr].stateRoot])
  {
    hide Tree, IsAncestor, CacheOk, CoverOk, RememberedOk, BlocksOk, DbOk, BoundaryEpoch, IsChainOf, TakenFrom, Period,
      CommitteeStart, SourceOf, StatesOwned, StatesRecorded, CommitteeSlot;
    IsOwnAncestor(h, fr);
    LastOfOwnChain(cfg, h.tree, h.genesis, fr);
    assert Candidate(cfg, s, h, fr, fr);
  }

  /** One finalization keeps the account of committees. */
  lemma FinalizeCommittees(cfg: Config, s: Store, h: Hist, fr: Root, epoch: nat, origins: map<nat, Origin>)
    requires Inv(cfg, s, h) && Above(s, h, fr) && Descending(s.blocks) && LawfulAdvance(cfg)
    requires CommitteesOk(cfg, s, h, origins)
    ensures Finalize(cfg, s, fr, epoch).Some?
    ensures
      var t := Finalize(cfg, s, fr, epoch).value;
      Rooted(t, h) && FinalOk(t, h) && CommitteesOk(cfg, t, h, OriginsAfter(origins, t))
  {
    hide Tree, IsAncestor, CacheOk, CoverOk, RememberedOk, BlocksOk, IsChainOf, Descending, StatesOk, ViewOk, Finalize,
      DbOk, CommitteesOk, LawfulAdvance, Chosen, Progress, StatesRecorded, CreateBootstraps, PruneCache, PruneBlocks,
      PruneStates, DbFor;
    FinalizeKeeps(cfg, s, h, fr, epoch);
    if h.tree[fr].slot <= s.latestFinalized.slot {
      SameOrigins(cfg, s, h, origins);
    } else {
      var mid, db := FinalizeSteps(cfg, s, h, fr, epoch);
      var done := ProgressMade(cfg, s, mid, h, fr, db, origins);
      TopIsRecorded(mid.finalizedBlockRoots, h, fr);
      CommitteesMove(cfg, s, mid, h, fr, db, done, origins, Pruned(mid, db, h.tree[fr].slot));
    }
  }

  /** The origins of old entries stay; the new ones belong together. */
  lemma OriginsGrow(origins: map<nat, Origin>, t: Store, done: set<nat>)
    requires t.db.syncCommittees.Keys == origins.Keys + done && done !! origins.Keys
    requires Together(origins)
    ensures
      var after := OriginsAfter(origins, t);
      && after.Keys == t.db.syncCommittees.Keys
      && (forall p :: p in origins ==> after[p] == origins[p])
      && (forall p :: p in done ==> after[p] == Origin(t.latestFinalized.slot, done))
      && Together(after)
  {
    assert t.db.syncCommittees.Keys - origins.Keys == done;
  }

  lemma SameOrigins(cfg: Config, s: Store, h: Hist, origins: map<nat, Origin>)
    requires cfg.Valid() && Rooted(s, h) && FinalOk(s, h) && CommitteesOk(cfg, s, h, origins)
    ensures OriginsAfter(origins, s) == origins
  {
    hide Tree, IsChainOf, EntryOk, Untouched, Together;
  }

  lemma ProgressMade(cfg: Config, s: Store, mid: Store, h: Hist, fr: Root, db: Db, origins: map<nat, Origin>)
      returns (done: set<nat>)
    requires cfg.Valid() && Rooted(s, h) && FinalOk(s, h) && Finalizing(cfg, s, mid, h, fr) && LawfulAdvance(cfg)
    requires fr in h.tree && CommitteesOk(cfg, s, h, origins)
    requires
      if h.tree[fr].slot < s.tailSlot then db == mid.db
      else CreateBootstraps(cfg, mid, mid.db, Chosen(cfg, s, mid.finalizedBlockRoots, h.tree[fr].slot)) == Some(db)
    ensures done == db.syncCommittees.Keys - s.db.syncCommittees.Keys && Progress(cfg, s, h, fr, db, done)
  {
    hide Tree, IsAncestor, IsChainOf, CommitteesOk, LawfulAdvance, Progress, Recorded, StatesOk, CreateBootstraps,
      BootstrapIds, Period, LatestFirst;
    ProgressStarts(cfg, s, mid, h, fr, origins);
    done := db.syncCommittees.Keys - s.db.syncCommittees.Keys;
    if h.tree[fr].slot < s.tailSlot {
      ProgressKeys(cfg, s, h, fr, db, {});
    } else {
      var ids := Chosen(cfg, s, mid.finalizedBlockRoots, h.tree[fr].slot);
      ChosenLatestFirst(cfg, mid.finalizedBlockRoots, s.historicalTailSlot, FirstSlot(s), h.tree[fr].slot);
      BootstrapsBelow(cfg, mid.finalizedBlockRoots, s.historicalTailSlot, FirstSlot(s), h.tree[fr].slot);
      ProgressAll(cfg, s, mid, h, fr, mid.db, {}, ids, db);
    }
  }

  /** The account after a finalization. */
  lemma CommitteesMove(cfg: Config, s: Store, mid: Store, h: Hist, fr: Root, db: Db, done: set<nat>,
      origins: map<nat, Origin>, t: Store)
    requires cfg.Valid() && Rooted(s, h) && FinalOk(s, h) && Finalizing(cfg, s, mid, h, fr)
    requires CommitteesOk(cfg, s, h, origins) && Progress(cfg, s, h, fr, db, done)
    requires Rooted(t, h) && FinalOk(t, h) && Finalized(t) == fr && t.db == db && t.tailSlot == s.tailSlot
    requires t.latestFinalized == h.tree[fr].Id()
    ensures CommitteesOk(cfg, t, h, OriginsAfter(origins, t))
  {
    hide Tree, IsAncestor, IsChainOf, CacheOk, CoverOk, RememberedOk, BlocksOk, DbOk, EntryOk, Untouched, Progress,
      StatesOk, StatesRecorded, OriginsAfter;
    TopUntouched(cfg, s, mid, h, fr, db, done);
    ProgressKeys(cfg, s, h, fr, db, done);
    OriginsGrow(origins, t, done);
    ExtendsItself(h);
    GenesisIn(h);
    var after := OriginsAfter(origins, t);
    forall p | p in db.syncCommittees ensures EntryOk(cfg, s.tailSlot, h, fr, after[p], p, db.syncCommittees[p]) {
      if p in done {
        NewEntry(cfg, s, h, fr, db, done, p);
      } else {
        EntryStays(cfg, s.tailSlot, h, Finalized(s), h, fr, origins[p], p, db.syncCommittees[p]);
      }
    }
  }

  lemma NewEntry(cfg: Config, s: Store, h: Hist, fr: Root, db: Db, done: set<nat>, p: nat)
    requires cfg.Valid() && Rooted(s, h) && FinalOk(s, h) && fr in h.tree && h.genesis in h.tree
    requires Progress(cfg, s, h, fr, db, done) && p in done
    ensures p in db.syncCommittees
    ensures EntryOk(cfg, s.tailSlot, h, fr, Origin(h.tree[fr].slot, done), p, db.syncCommittees[p])
  {
    hide Tree, IsChainOf, TakenFrom, Touched, Candidate, Period, CommitteeStart;
  }

  lemma ExtendsItself(h: Hist)
    requires Tree(h.tree, h.genesis)
    ensures Extends(h.tree, h.tree, h.genesis)
  {
    hide Tree;
  }

  // ----- One event -----

  lemma GenesisIn(h: Hist)
    requires Tree(h.tree, h.genesis)
    ensures h.genesis in h.tree
  {
  }

  /** What a change of cache, views and states leaves of the account, also when blocks join the tree. */
  lemma SameCommittees(cfg: Config, s: Store, h: Hist, t: Store, g: Hist, origins: map<nat, Origin>)
    requires cfg.Valid() && Rooted(s, h) && FinalOk(s, h) && Rooted(t, g) && FinalOk(t, g)
    requires CommitteesOk(cfg, s, h, origins) && Extends(h.tree, g.tree, h.genesis) && g.genesis == h.genesis
    requires forall r :: r in h.tree && r in h.posts ==> r in g.posts && g.posts[r] == h.posts[r]
    requires t.db == s.db && t.finalizedBlockRoots == s.finalizedBlockRoots && t.tailSlot == s.tailSlot
    requires t.latestFinalized == s.latestFinalized
    ensures CommitteesOk(cfg, t, g, origins) && OriginsAfter(origins, t) == origins
  {
    hide Tree, IsAncestor, IsChainOf, EntryOk, StateAt, Together;
    IsOwnAncestor(g, Finalized(s));
    GenesisIn(h);
    GenesisIn(g);
    SameOrigins(cfg, s, h, origins);
    forall p | p in s.db.syncCommittees
      ensures EntryOk(cfg, s.tailSlot, g, Finalized(s), origins[p], p, s.db.syncCommittees[p])
    {
      EntryStays(cfg, s.tailSlot, h, Finalized(s), g, Finalized(s), origins[p], p, s.db.syncCommittees[p]);
    }
  }

  lemma BlockCommittees(cfg: Config, s: Store, h: Hist, b: Block, post: PostState, origins: map<nat, Origin>)
    requires Inv(cfg, s, h) && LegalBlock(s, h, b, post) && CommitteesOk(cfg, s, h, origins)
    requires AddNewBlock(cfg, s, b, post, h.tree[b.parentRoot].Id()).Some?
    ensures
      var t, g := AddNewBlock(cfg, s, b, post, h.tree[b.parentRoot].Id()).value, AfterBlock(cfg, s, h, b, post);
      Rooted(t, g) && FinalOk(t, g) && CommitteesOk(cfg, t, g, OriginsAfter(origins, t))
  {
    hide IsAncestor, CacheOk, CoverOk, RememberedOk, BlocksOk, IsChainOf, StatesOk, ViewOk, DbOk, CommitteesOk,
      AddNewBlock, CacheAfter, FinalizedHeader, BlockSucceeds, Tree;
    AddBlockKeeps(cfg, s, h, b, post);
    AddedData(cfg, s, h, b, post);
    var t, g := AddNewBlock(cfg, s, b, post, h.tree[b.parentRoot].Id()).value, AfterBlock(cfg, s, h, b, post);
    BlockWidens(h, b, post);
    SameCommittees(cfg, s, h, t, g, origins);
  }

  lemma AfterHeadPosts(cfg: Config, s: Store, h: Hist, r: Root)
    requires Tree(h.tree, h.genesis) && r in h.tree
    ensures AfterHead(cfg, s, h, r).posts == h.posts
  {
    hide Tree;
  }

  lemma HeadCommittees(cfg: Config, s: Store, h: Hist, r: Root, origins: map<nat, Origin>)
    requires Inv(cfg, s, h) && LegalHead(s, h, r) && Descending(s.blocks) && CommitteesOk(cfg, s, h, origins)
    requires SelectNewHead(cfg, s, h.tree[r].Id()).Some? && LawfulAdvance(cfg)
    ensures
      var t, g := SelectNewHead(cfg, s, h.tree[r].Id()).value, AfterHead(cfg, s, h, r);
      Rooted(t, g) && FinalOk(t, g) && CommitteesOk(cfg, t, g, OriginsAfter(origins, t))
  {
    hide Tree, IsAncestor, CacheOk, CoverOk, RememberedOk, BlocksOk, IsChainOf, Descending, StatesOk, DbOk, ShowsHead,
      Finalize, ProcessHeadChange, ViewOk, LatestSucceeds, BeforeHead, CommitteesOk, LawfulAdvance;
    HeadIsStored(cfg, s, h, r);
    HeadChangeKeepsInv(cfg, s, h, r);
    AfterHeadTree(cfg, s, h, r);
    AfterHeadPosts(cfg, s, h, r);
    var next, g := ProcessHeadChange(cfg, s, h.tree[r].Id(), s.latestFinalized).value, AfterHead(cfg, s, h, r);
    ExtendsItself(h);
    SameCommittees(cfg, s, h, next, g, origins);
    var post := s.states[h.tree[r].stateRoot];
    if post.finalizedEpoch != GENESIS_EPOCH {
      FinalizeCommittees(cfg, next, g, post.finalizedRoot, post.finalizedEpoch, origins);
    }
  }

  lemma EventCommittees(cfg: Config, s: Store, h: Hist, e: Event, origins: map<nat, Origin>)
    requires cfg.Valid() && Expected(cfg, s, h, e) && Do(cfg, s, e).Some? && LawfulAdvance(cfg)
    requires CommitteesOk(cfg, s, h, origins)
    ensures
      var t, g := Do(cfg, s, e).value, After(cfg, s, h, e);
      Rooted(t, g) && FinalOk(t, g) && CommitteesOk(cfg, t, g, OriginsAfter(origins, t))
  {
    hide Tree, LegalHead, LegalBlock, SelectNewHead, AddNewBlock, BlockSucceeds, HeadSucceeds, AfterBlock, AfterHead,
      BlocksOk, CacheOk, CoverOk, RememberedOk, StatesOk, DbOk, ViewOk, IsChainOf, Descending, CommitteesOk,
      LawfulAdvance;
    match e
    case NewBlock(b, post, parent) => BlockCommittees(cfg, s, h, b, post, origins);
    case NewHead(head) =>
      InvDescends(cfg, s, h);
      HeadCommittees(cfg, s, h, head.root, origins);
  }

  // ----- Whole runs -----

  /** The origins at the end of a run. */
  ghost function Origins(cfg: Config, s: Store, origins: map<nat, Origin>, events: seq<Event>): map<nat, Origin>
    requires cfg.Valid()
    decreases |events|
  {
    if events == [] then origins
    else
      match Do(cfg, s, events[0])
      case None => origins
      case Some(next) => Origins(cfg, next, OriginsAfter(origins, next), events[1..])
  }

  lemma {:induction false} CommitteesKept(cfg: Config, s: Store, h: Hist, events: seq<Event>,
      origins: map<nat, Origin>)
    requires cfg.Valid() && Inv(cfg, s, h) && LegalRun(cfg, s, h, events) && Run(cfg, s, events).Some?
    requires CommitteesOk(cfg, s, h, origins) && LawfulAdvance(cfg)
    ensures
      var t, g := Run(cfg, s, events).value, HistAfter(cfg, s, h, events);
      Inv(cfg, t, g) && CommitteesOk(cfg, t, g, Origins(cfg, s, origins, events))
    decreases |events|
  {
    hide Tree, CacheOk, CoverOk, RememberedOk, BlocksOk, StatesOk, DbOk, ViewOk, IsChainOf, Legal, Do, After, Succeeds,
      CommitteesOk, LawfulAdvance, OriginsAfter;
    if events != [] {
      var t, g, rest := Do(cfg, s, events[0]).value, After(cfg, s, h, events[0]), events[1..];
      DoKeeps(cfg, s, h, events[0]);
      EventCommittees(cfg, s, h, events[0], origins);
      CommitteesKept(cfg, t, g, rest, OriginsAfter(origins, t));
    }
  }

  const SETUP_ORIGINS: map<nat, Origin> := map[0 := Origin(GENESIS_SLOT, {0})]

  /** After setup only the first period has an entry. */
  lemma InitialCommittees(cfg: Config, stored: Block, state: PostState, altairEpoch: nat)
    requires cfg.Valid() && IsGenesis(stored, state)
    ensures
      var s, h := SetUp(cfg, stored.Id(), stored, state, true, altairEpoch), InitialHist(stored, state);
      && s.Some? && Inv(cfg, s.value, h) && CommitteesOk(cfg, s.value, h, SETUP_ORIGINS)
  {
    hide CacheOk, RememberedOk, BlocksOk, StatesOk, ViewOk, CoverOk, DbOk, BlockIdAtFinalizedSlot, IsChainOf, Period,
      PeriodStart;
    InitialInv(cfg, stored, state, true, altairEpoch);
    FirstBootstrap(cfg, stored, state, altairEpoch);
    FirstPeriod(cfg);
    var bare := BareStore(cfg, stored.Id(), stored, state, altairEpoch);
    FirstFound(bare.finalizedBlockRoots, stored.root, CommitteeSlot(cfg, bare.tailSlot, 0));
    var s, h := SetUp(cfg, stored.Id(), stored, state, true, altairEpoch).value, InitialHist(stored, state);
    assert LastFrom(cfg, s.tailSlot, h, stored.root, SETUP_ORIGINS[0], 0, 0);
  }

  lemma FirstPeriod(cfg: Config)
    requires cfg.Valid()
    ensures Period(cfg, GENESIS_SLOT) == 0 && PeriodStart(cfg, 0) == 0
  {
  }

  /** After any run from genesis, every period that bootstraps are served with has, before the tail slot's period, no
      committee, and otherwise the committee of one post-state of the finalized chain, at one slot: that of the last
      block at or before the slot that the committee is meant for, advanced to the slot of the last of the periods made
      with it that have the same block. */
  lemma RunCommittees(cfg: Config, stored: Block, state: PostState, altairEpoch: nat, events: seq<Event>)
    requires cfg.Valid() && IsGenesis(stored, state) && LawfulAdvance(cfg)
    ensures
      var s, h := SetUp(cfg, stored.Id(), stored, state, true, altairEpoch), InitialHist(stored, state);
      && s.Some?
      && (LegalRun(cfg, s.value, h, events) && Run(cfg, s.value, events).Some? ==>
            var t, g := Run(cfg, s.value, events).value, HistAfter(cfg, s.value, h, events);
            && Rooted(t, g) && FinalOk(t, g)
            && CommitteesOk(cfg, t, g, Origins(cfg, s.value, SETUP_ORIGINS, events)))
  {
    hide Tree, LegalRun, Run, HistAfter, SetUp, CacheOk, CoverOk, RememberedOk, BlocksOk, StatesOk, ViewOk, IsChainOf,
      CommitteesOk, LawfulAdvance, Do, IsAncestor, Origins;
    InitialCommittees(cfg, stored, state, altairEpoch);
    var s, h := SetUp(cfg, stored.Id(), stored, state, true, altairEpoch).value, InitialHist(stored, state);
    if LegalRun(cfg, s, h, events) && Run(cfg, s, events).Some? {
      CommitteesKept(cfg, s, h, events, SETUP_ORIGINS);
    }
  }

  // ----- When a committee is the one that is meant -----

  /** Nothing is finalized between the slots that two periods' committees are meant for. */
  ghost predicate NothingBetween(cfg: Config, s: Store, p: nat, q: nat) {
    forall k :: CommitteeStart(cfg, s.tailSlot, p) < k <= CommitteeStart(cfg, s.tailSlot, q) ==>
      k !in s.finalizedBlockRoots
  }

  /** Two periods made together have the same source exactly if nothing is finalized between their slots. */
  lemma SharedSource(cfg: Config, s: Store, h: Hist, o: Origin, p: nat, q: nat)
    requires cfg.Valid() && Rooted(s, h) && FinalOk(s, h) && p <= q
    requires CommitteeStart(cfg, s.tailSlot, q) <= o.top <= s.latestFinalized.slot
    ensures SourceOf(cfg, s.tailSlot, h, Finalized(s), o, p) == SourceOf(cfg, s.tailSlot, h, Finalized(s), o, q)
            <==> NothingBetween(cfg, s, p, q)
  {
    hide Tree, IsAncestor, AncestorAt, IsChainOf, PeriodStart;
    StartsInOrder(cfg, s.tailSlot, p, q);
    var low, high := CommitteeStart(cfg, s.tailSlot, p), CommitteeStart(cfg, s.tailSlot, q);
    RecordedAt(cfg, s, h, low, high);
  }

  lemma RecordedAt(cfg: Config, s: Store, h: Hist, low: nat, high: nat)
    requires cfg.Valid() && Rooted(s, h) && FinalOk(s, h) && s.tailSlot <= low <= high
    ensures
      AncestorAt(h.tree, h.genesis, Finalized(s), low) == AncestorAt(h.tree, h.genesis, Finalized(s), high)
      <==> forall k :: low < k <= high ==> k !in s.finalizedBlockRoots
  {
    hide Tree, IsAncestor, AncestorAt;
    var t, genesis, f, roots := h.tree, h.genesis, Finalized(s), s.finalizedBlockRoots;
    GenesisIsAncestor(t, genesis, f);
    AncestorAtIsLast(t, genesis, f, low, genesis);
    AncestorAtIsLast(t, genesis, f, high, genesis);
    AncestorAtIsAncestor(t, genesis, f, high);
    AncestorAtIsAncestor(t, genesis, f, low);
    var a, b := AncestorAt(t, genesis, f, low).value, AncestorAt(t, genesis, f, high).value;
    AncestorAtIsLast(t, genesis, f, high, a);
    if t[b].slot <= low {
      AncestorAtIsLast(t, genesis, f, low, b);
      AncestorsLinear(t, genesis, a, b, f);
      AncestorsLinear(t, genesis, b, a, f);
      assert roots[t[a].slot] == a && roots[t[b].slot] == b;
      forall k | low < k <= high ensures k !in roots {
        if k in roots {
          AncestorAtIsLast(t, genesis, f, high, roots[k]);
        }
      }
    } else {
      assert t[b].slot in roots;
    }
  }

  /** The entry of a period, in terms of the finalized chain. A finalization makes the entries of later periods first,
      and advances the recorded state of the block that it takes a committee from. So the committee is the one that is
      meant for the period exactly as far as no later period made with it has the same block: otherwise it is the one at
      the slot of the last such period. */
  lemma EntryIsTaken(cfg: Config, s: Store, h: Hist, origins: map<nat, Origin>, p: nat) returns (a: Root, last: nat)
    requires cfg.Valid() && Rooted(s, h) && FinalOk(s, h) && CommitteesOk(cfg, s, h, origins)
    requires p in s.db.syncCommittees && p >= Period(cfg, s.tailSlot)
    ensures a in h.posts && last in origins[p].made
    ensures
      s.db.syncCommittees[p] == Some(StateAt(cfg, h.posts[a], CommitteeStart(cfg, s.tailSlot, last)).committee)
    ensures
      if CommitteeStart(cfg, s.tailSlot, p) > origins[p].top
      then origins[p] == Origin(h.tree[h.genesis].slot, {p}) && a == h.genesis && last == p
      else
        && AncestorAt(h.tree, h.genesis, Finalized(s), CommitteeStart(cfg, s.tailSlot, p)) == Some(a)
        && last >= p && NothingBetween(cfg, s, p, last)
        && forall q :: q in origins[p].made && q > last ==> !NothingBetween(cfg, s, p, q)
  {
    hide Tree, IsAncestor, AncestorAt, IsChainOf, CommitteeStart, NothingBetween, StateAt, SourceOf, Untouched, Period;
    var tail, f, o := s.tailSlot, Finalized(s), origins[p];
    var source := SourceOf(cfg, tail, h, f, o, p);
    a := source.value;
    last :| LastFrom(cfg, tail, h, f, o, p, last)
      && s.db.syncCommittees[p] == Some(StateAt(cfg, h.posts[a], CommitteeStart(cfg, tail, last)).committee);
    SourceUnfolds(cfg, tail, h, f, o, p);
    if CommitteeStart(cfg, s.tailSlot, p) > o.top {
      FirstAtTop(s, h);
    } else {
      forall q | q in o.made && q >= p
        ensures SourceOf(cfg, tail, h, f, o, q) == source <==> NothingBetween(cfg, s, p, q)
      {
        StartsBelow(cfg, s, h, origins, p, q);
        SharedSource(cfg, s, h, o, p, q);
      }
    }
  }

  /** States of one chain have different committees in different periods. */
  ghost predicate CommitteesDiffer(cfg: Config)
    requires cfg.Valid()
  {
    forall st: PostState, a: nat, b: nat {:trigger StateAt(cfg, st, a), StateAt(cfg, st, b)} ::
      st.slot <= a && st.slot <= b && Period(cfg, a) != Period(cfg, b) ==>
        StateAt(cfg, st, a).committee != StateAt(cfg, st, b).committee
  }

  /** A period has the committee that is meant for it if no later period was made with it such that nothing is finalized
      between their slots; and only then, unless two periods happen to have the same committee. */
  lemma ServedAsMeant(cfg: Config, s: Store, h: Hist, origins: map<nat, Origin>, p: nat)
    requires Inv(cfg, s, h) && CommitteesOk(cfg, s, h, origins)
    requires p in s.db.syncCommittees && p >= Period(cfg, s.tailSlot)
    requires CommitteeStart(cfg, s.tailSlot, p) <= origins[p].top
    ensures
      var start := CommitteeStart(cfg, s.tailSlot, p);
      var a := AncestorAt(h.tree, h.genesis, Finalized(s), start);
      && a.Some? && a.value in h.posts
      && var meant := Some(StateAt(cfg, h.posts[a.value], start).committee);
         var alone := forall q :: q in origins[p].made && q > p ==> !NothingBetween(cfg, s, p, q);
         && (alone ==> s.db.syncCommittees[p] == meant)
         && (CommitteesDiffer(cfg) && s.db.syncCommittees[p] == meant ==> alone)
  {
    hide Tree, IsAncestor, AncestorAt, IsChainOf, CommitteeStart, NothingBetween, StateAt, SourceOf, Untouched, Period,
      CacheOk, CoverOk, RememberedOk, BlocksOk, DbOk, ViewOk, StatesOwned, EntryOk, Together;
    var a, last := EntryIsTaken(cfg, s, h, origins, p);
    if last > p {
      StartInPeriod(cfg, s.tailSlot, p);
      StartInPeriod(cfg, s.tailSlot, last);
      StartsInOrder(cfg, s.tailSlot, p, last);
    }
  }

  lemma StartInPeriod(cfg: Config, tail: nat, p: nat)
    requires cfg.Valid() && p >= Period(cfg, tail)
    ensures Period(cfg, CommitteeStart(cfg, tail, p)) == p
  {
    hide Period, PeriodStart;
    var start := CommitteeStart(cfg, tail, p);
    PeriodOrder(cfg, start, p);
    PeriodOrder(cfg, start, p + 1);
    PeriodOrder(cfg, tail, p + 1);
    StartsApart(cfg, p);
  }

  lemma StartsApart(cfg: Config, p: nat)
    requires cfg.Valid()
    ensures PeriodStart(cfg, p) < PeriodStart(cfg, p + 1)
  {
    hide Period;
    var n := cfg.epochsPerPeriod * cfg.slotsPerEpoch;
    assert (p + 1) * cfg.epochsPerPeriod == p * cfg.epochsPerPeriod + cfg.epochsPerPeriod;
    assert n > 0;
  }

  lemma FirstAtTop(s: Store, h: Hist)
    requires Rooted(s, h) && FinalOk(s, h)
    ensures AncestorAt(h.tree, h.genesis, Finalized(s), h.tree[h.genesis].slot) == Some(h.genesis)
  {
    hide Tree, IsAncestor, AncestorAt;
    var t, genesis, f := h.tree, h.genesis, Finalized(s);
    GenesisIn(h);
    GenesisIsAncestor(t, genesis, f);
    AncestorAtIsLast(t, genesis, f, t[genesis].slot, genesis);
    AncestorAtIsAncestor(t, genesis, f, t[genesis].slot);
    AncestorsLinear(t, genesis, genesis, AncestorAt(t, genesis, f, t[genesis].slot).value, f);
    assert s.finalizedBlockRoots[t[genesis].slot] == genesis;
  }

  lemma StartsBelow(cfg: Config, s: Store, h: Hist, origins: map<nat, Origin>, p: nat, q: nat)
    requires cfg.Valid() && Rooted(s, h) && FinalOk(s, h) && CommitteesOk(cfg, s, h, origins)
    requires p in s.db.syncCommittees && q in origins[p].made && q >= p
    requires CommitteeStart(cfg, s.tailSlot, p) <= origins[p].top && p >= Period(cfg, s.tailSlot)
    ensures CommitteeStart(cfg, s.tailSlot, q) <= origins[p].top <= s.latestFinalized.slot
  {
    hide Tree, IsChainOf, CommitteeStart, Untouched, Period, TakenFrom;
    assert q in s.db.syncCommittees && origins[q] == origins[p];
  }

  lemma SourceUnfolds(cfg: Config, tail: nat, h: Hist, fin: Root, o: Origin, p: nat)
    requires cfg.Valid() && Tree(h.tree, h.genesis) && fin in h.tree
    ensures
      var start := CommitteeStart(cfg, tail, p);
      SourceOf(cfg, tail, h, fin, o, p)
      == AncestorAt(h.tree, h.genesis, fin, if start <= o.top then start else o.top)
  {
    hide Tree, AncestorAt, CommitteeStart;
  }
}
