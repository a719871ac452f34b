/** A run of the light client data collection that serves a period with the committee of a later one. */
module LightClientWrongCommittee {
  import opened Slots
  import opened Wrappers
  import opened BlockTree
  import opened LightClientData
  import opened LightClientInvariant
  import opened LightClientBlock
  import opened LightClientSetup
  import opened LightClientHead
  import opened LightClientFinality
  import opened LightClientRun
  import opened LightClientCommittees
  import opened LightClientExamples

  // ----- A chain with a gap -----

  /** The blocks behind the gap, unsigned; the first of them extends the block at slot 32. */
  function LateBlock(k: nat): Block {
    Block(k + 1, k, if k == 65 then 33 else k, k + 10, 0)
  }

  /** With blocks full of attestations again, epoch 8 is justified at its end; its checkpoint is the block at slot 32.
      It is finalized one epoch later, and epoch 9 another epoch later. */
  function LateState(k: nat): PostState {
    var epoch := if k < 80 then 2 else if k < 88 then 8 else 9;
    PostState(k, epoch, if k < 80 then 17 else if k < 88 then 33 else 73, k / 32)
  }

  /** A block at every slot up to slot 32, and at every slot from slot 65 to slot n. */
  function Late(n: nat): (c: Blocks)
    ensures forall r :: r in c <==> 1 <= r <= 33 || 66 <= r <= n + 1
    ensures forall r :: 1 <= r <= 33 ==> c[r] == BlockOf(r - 1)
    ensures forall r :: 66 <= r <= n + 1 ==> c[r] == LateBlock(r - 1)
  {
    if n <= 64 then Chain(32) else Late(n - 1)[n + 1 := LateBlock(n)]
  }

  function LatePosts(n: nat): (p: map<Root, PostState>)
    ensures forall r :: r in p <==> 1 <= r <= 33 || 66 <= r <= n + 1
    ensures forall r :: 66 <= r <= n + 1 ==> p[r] == LateState(r - 1)
    ensures p[33] == StateOf(32)
  {
    if n <= 64 then ChainPosts(32) else LatePosts(n - 1)[n + 1 := LateState(n)]
  }

  function LateStates(n: nat): (states: set<Root>)
    ensures forall r :: r in states <==> 10 <= r <= 42 || 75 <= r <= n + 10
  {
    if n <= 64 then ChainStates(32) else LateStates(n - 1) + {n + 10}
  }

  function LateEvent(n: nat): Event
    requires n > 64
  {
    NewBlock(LateBlock(n), LateState(n), if n == 65 then BlockOf(32).Id() else LateBlock(n - 1).Id())
  }

  function LateEvents(n: nat): seq<Event> {
    if n <= 64 then ChainEvents(32) else LateEvents(n - 1) + [LateEvent(n)]
  }

  /** A state that a run with these blocks, and nothing else, has reached. */
  ghost predicate LateGrown(s: Store, h: Hist, n: nat) {
    && Stage(s, h, Late(n), LateStates(n), 0, 0) && h.posts == LatePosts(n)
    && s.db.syncCommittees.Keys == {0}
  }

  lemma LateStep(n: nat, s: Store, h: Hist) returns (t: Store, g: Hist)
    requires n > 64 && LateGrown(s, h, n - 1)
    ensures Expected(ExampleConfig(), s, h, LateEvent(n)) && Do(ExampleConfig(), s, LateEvent(n)) == Some(t)
    ensures After(ExampleConfig(), s, h, LateEvent(n)) == g
    ensures LateGrown(t, g, n)
  {
    hide Inv, Do, After, Expected;
    var b := LateBlock(n);
    g := WithBlock(h, b, LateState(n));
    t := QuietStage(s, h, Late(n - 1), LateStates(n - 1), 0, 0, b, LateState(n));
    assert g.posts == LatePosts(n);
  }

  lemma LateStarts() returns (s: Store, h: Hist)
    ensures Start(0).Some?
    ensures LegalRun(ExampleConfig(), Start(0).value, InitialHist(FIRST, FIRST_STATE), LateEvents(64))
    ensures Run(ExampleConfig(), Start(0).value, LateEvents(64)) == Some(s)
    ensures HistAfter(ExampleConfig(), Start(0).value, InitialHist(FIRST, FIRST_STATE), LateEvents(64)) == h
    ensures LateGrown(s, h, 64)
  {
    hide Inv, LegalRun, Run, HistAfter, CreateBootstrap, ChainEvents, Chain, ChainPosts, ChainStates;
    s, h := Grow(32);
    FirstBootstrap(ExampleConfig(), FIRST, FIRST_STATE, 0);
    assert h.posts == LatePosts(64);
  }

  lemma {:induction false} LateGrow(n: nat) returns (s: Store, h: Hist)
    requires n >= 64
    ensures Start(0).Some?
    ensures LegalRun(ExampleConfig(), Start(0).value, InitialHist(FIRST, FIRST_STATE), LateEvents(n))
    ensures Run(ExampleConfig(), Start(0).value, LateEvents(n)) == Some(s)
    ensures HistAfter(ExampleConfig(), Start(0).value, InitialHist(FIRST, FIRST_STATE), LateEvents(n)) == h
    ensures LateGrown(s, h, n)
    decreases n
  {
    hide Inv, Do, After, Expected, LegalRun, Run, HistAfter, SetUp, Legal, LateGrown, Start, InitialHist, LateEvent;
    if n == 64 {
      s, h := LateStarts();
    } else {
      var s1, h1 := LateGrow(n - 1);
      s, h := LateStep(n, s1, h1);
      OneEvent(ExampleConfig(), s1, h1, LateEvent(n), s);
      RunAppend(
        ExampleConfig(), Start(0).value, InitialHist(FIRST, FIRST_STATE), LateEvents(n - 1), s1, [LateEvent(n)]);
    }
  }

  // ----- Reading the chain -----

  /** The blocks behind the gap have those up to slot 32 below them. */
  lemma {:induction false} LateAncestors(t: Blocks, n: nat, i: nat, k: nat)
    requires Tree(t, 1) && t == Late(n) && 65 <= k <= n && 65 <= i <= k
    ensures k + 1 in t && IsAncestor(t, 1, i + 1, k + 1) && AncestorAt(t, 1, k + 1, 32) == Some(33)
    ensures IsAncestor(t, 1, 33, k + 1)
    decreases k
  {
    hide Late;
    if k > 65 {
      LateAncestors(t, n, if i < k then i else 65, k - 1);
    } else {
      assert t[k + 1].parentRoot == 33;
    }
  }

  lemma {:induction false} Unsigned(t: Blocks, r: Root)
    requires Tree(t, 1) && r in t && forall x :: x in t ==> t[x].participants == 0
    ensures LastSigned(ExampleConfig(), 0, t, 1, r) == None
    decreases t[r].slot
  {
    if r != 1 {
      Unsigned(t, t[r].parentRoot);
    }
  }

  // ----- The switch -----

  function LastEvent(): Event {
    NewHead(LateBlock(88).Id())
  }

  /** The state of the block at slot 88 finalizes the block at slot 72. */
  lemma LateHead(s: Store, h: Hist)
    requires LateGrown(s, h, 88)
    ensures Expected(ExampleConfig(), s, h, LastEvent()) && Descending(s.blocks) && 89 in h.tree
    ensures h.tree[89] == LateBlock(88) && Above(s, h, 89) && LegalHead(s, h, 89)
    ensures 89 in s.blocks && s.blocks[89] == LateBlock(88) && LateBlock(88).stateRoot in s.states
    ensures s.states[LateBlock(88).stateRoot] == LateState(88)
    ensures HeadSucceeds(ExampleConfig(), s, h, 89)
  {
    hide IsAncestor, CacheOk, CoverOk, RememberedOk, BlocksOk, IsChainOf, DbOk, ViewOk, Tree, Late, LatePosts,
      LateStates, StatesOwned, Descending;
    FirstIsFinalized(s, h);
    GenesisIsAncestor(h.tree, 1, 89);
    GenesisIsAncestor(h.tree, 1, 73);
    InvDescends(ExampleConfig(), s, h);
    HeadIsStored(ExampleConfig(), s, h, 89);
    Unsigned(h.tree, 89);
  }

  lemma FirstIsFinalized(s: Store, h: Hist)
    requires LateGrown(s, h, 88)
    ensures Rooted(s, h) && FinalOk(s, h) && Finalized(s) == 1
  {
    hide Tree, IsAncestor, CacheOk, CoverOk, RememberedOk, BlocksOk, IsChainOf, StatesOk, DbOk, ViewOk, Late,
      LatePosts, LateStates;
  }

  /** The finalization that the switch leads to. */
  lemma LateFinalized(s: Store, h: Hist) returns (next: Store, t: Store, g: Hist)
    requires LateGrown(s, h, 88)
    ensures Expected(ExampleConfig(), s, h, LastEvent()) && Do(ExampleConfig(), s, LastEvent()) == Some(t)
    ensures After(ExampleConfig(), s, h, LastEvent()) == g && g.genesis == 1
    ensures Inv(ExampleConfig(), next, g) && next.db == s.db && next.tailSlot == 0 && next.latestFinalized.slot == 0
    ensures g.tree == h.tree && g.posts == h.posts && Above(next, g, 73) && Descending(next.blocks)
    ensures Finalize(ExampleConfig(), next, 73, 9) == Some(t)
  {
    hide IsAncestor, CacheOk, CoverOk, RememberedOk, BlocksOk, IsChainOf, DbOk, StatesOk, ViewOk, Tree, Late,
      LatePosts, LateStates, ProcessHeadChange, Finalize, Descending, HeadSucceeds, LegalHead;
    var cfg := ExampleConfig();
    LateHead(s, h);
    HeadChangeKeepsInv(cfg, s, h, 89);
    AfterHeadTree(cfg, s, h, 89);
    AfterHeadPosts(cfg, s, h, 89);
    next := ProcessHeadChange(cfg, s, LateBlock(88).Id(), s.latestFinalized).value;
    g := AfterHead(cfg, s, h, 89);
    FirstIsFinalized(s, h);
    GenesisIsAncestor(g.tree, 1, 73);
    InvDescends(cfg, next, g);
    FinalizeKeeps(cfg, next, g, 73, 9);
    t := Finalize(cfg, next, 73, 9).value;
  }

  /** It makes bootstraps for the blocks at slots 72 and 32, and so entries for periods 2 and 1. */
  lemma LateSwitch(s: Store, h: Hist) returns (t: Store, g: Hist)
    requires LateGrown(s, h, 88)
    ensures Expected(ExampleConfig(), s, h, LastEvent()) && Do(ExampleConfig(), s, LastEvent()) == Some(t)
    ensures After(ExampleConfig(), s, h, LastEvent()) == g && g.genesis == 1
    ensures Inv(ExampleConfig(), t, g) && t.latestFinalized.slot == 72 && t.tailSlot == 0 && Finalized(t) == 73
    ensures g.tree == h.tree && g.posts == h.posts
    ensures 1 in t.db.syncCommittees && 2 in t.db.syncCommittees
    ensures 33 in g.tree && HasBootstrap(ExampleConfig(), t.db, g, 33)
  {
    hide IsAncestor, CacheOk, CoverOk, RememberedOk, BlocksOk, IsChainOf, DbOk, StatesOk, ViewOk, Tree, Late,
      LatePosts, LateStates, Do, After, Finalize, Descending;
    var cfg, next := ExampleConfig(), s;
    next, t, g := LateFinalized(s, h);
    FinalizeKeeps(cfg, next, g, 73, 9);
    LateAncestors(g.tree, 88, 72, 72);
    FinalizeBootstraps(cfg, next, g, 73, 9, 73);
    FinalizeBootstraps(cfg, next, g, 73, 9, 33);
  }

  /** With the entries of periods 1 and 2 made together, and nothing finalized between their slots, period 1 has the
      committee of period 2. */
  lemma LateEntry(s: Store, h: Hist, t: Store, g: Hist, origins: map<nat, Origin>)
    requires LateGrown(s, h, 88) && Inv(ExampleConfig(), t, g) && t.latestFinalized.slot == 72 && t.tailSlot == 0
    requires g.tree == h.tree && g.posts == h.posts && g.genesis == 1 && Finalized(t) == 73
    requires 1 in t.db.syncCommittees && 2 in t.db.syncCommittees && origins.Keys == {0}
    requires CommitteesOk(ExampleConfig(), t, g, OriginsAfter(origins, t))
    ensures t.db.syncCommittees[1] == Some(2)
  {
    hide IsAncestor, CacheOk, CoverOk, RememberedOk, BlocksOk, IsChainOf, DbOk, StatesOk, ViewOk, Tree, Late,
      LatePosts, LateStates, AncestorAt, CommitteesOk;
    var cfg, after := ExampleConfig(), OriginsAfter(origins, t);
    LateAncestors(g.tree, 88, 72, 72);
    assert after[1] == Origin(72, t.db.syncCommittees.Keys - {0});
    var a, last := EntryIsTaken(cfg, t, g, after, 1);
    GapIsEmpty(t, g);
    assert a == 33 && NothingBetween(cfg, t, 1, 2);
    assert 2 in after[1].made;
    assert g.posts[33] == StateOf(32);
  }

  lemma GapIsEmpty(t: Store, g: Hist)
    requires Rooted(t, g) && FinalOk(t, g) && Finalized(t) == 73 && g.tree == Late(88) && g.genesis == 1
    ensures 65 in t.finalizedBlockRoots && forall k :: 32 < k <= 64 ==> k !in t.finalizedBlockRoots
  {
    hide IsAncestor, Tree, Late;
    LateAncestors(g.tree, 88, 65, 72);
    assert g.tree[66] == LateBlock(65);
  }

  /** The blocks up to slot 88, and the switch to the last one. */
  function WrongEvents(): seq<Event> {
    LateEvents(88) + [LastEvent()]
  }

  /** The advance of the example is a lawful one. */
  lemma ExampleIsLawful()
    ensures LawfulAdvance(ExampleConfig())
  {
  }

  /** A run that meets all assumptions, and after which the bootstrap of the block at slot 32, the first slot of period
      1, is served with the committee of period 2. One finalization makes the entries of both periods from the state of
      that block: first the one of period 2, for which the recorded state is advanced to slot 64, then the one of
      period 1, for which the state that is recorded now has passed slot 32. */
  lemma WrongCommittee() returns (t: Store)
    ensures
      var cfg, s, h := ExampleConfig(), Start(0), InitialHist(FIRST, FIRST_STATE);
      && s.Some? && LawfulAdvance(cfg) && LegalRun(cfg, s.value, h, WrongEvents())
      && Run(cfg, s.value, WrongEvents()) == Some(t)
      && var g := HistAfter(cfg, s.value, h, WrongEvents());
         && Rooted(t, g) && FinalOk(t, g) && 33 in g.tree && 33 in g.posts && g.tree[33] == BlockOf(32)
         && AncestorAt(g.tree, g.genesis, Finalized(t), CommitteeStart(cfg, t.tailSlot, 1)) == Some(33)
         && g.posts[33] == StateOf(32) && StateAt(cfg, g.posts[33], CommitteeStart(cfg, t.tailSlot, 1)).committee == 1
         && HasBootstrap(cfg, t.db, g, 33) && t.db.syncCommittees[Period(cfg, 32)] == Some(2)
  {
    hide Inv, Do, After, Expected, LegalRun, Run, HistAfter, SetUp, Legal, LateEvents, Tree, AncestorAt, Late,
      LatePosts, LateStates, CommitteesOk, OriginsAfter, LateGrown, Finalized, CommitteeStart, StateAt, HasBootstrap,
      LawfulAdvance, LastEvent, Start, InitialHist;
    ExampleIsLawful();
    var cfg := ExampleConfig();
    var s, h := LateGrow(88);
    var origins := LateOrigins(s, h);
    var g := h;
    t, g := LateSwitch(s, h);
    EventCommittees(cfg, s, h, LastEvent(), origins);
    LateEntry(s, h, t, g, origins);
    LateSource(s, h, t, g);
    OneEvent(cfg, s, h, LastEvent(), t);
    RunAppend(cfg, Start(0).value, InitialHist(FIRST, FIRST_STATE), LateEvents(88), s, [LastEvent()]);
  }

  /** Up to the switch, setup's entry is the only one. */
  lemma LateOrigins(s: Store, h: Hist) returns (origins: map<nat, Origin>)
    requires LateGrown(s, h, 88) && Start(0).Some?
    requires LegalRun(ExampleConfig(), Start(0).value, InitialHist(FIRST, FIRST_STATE), LateEvents(88))
    requires Run(ExampleConfig(), Start(0).value, LateEvents(88)) == Some(s)
    requires HistAfter(ExampleConfig(), Start(0).value, InitialHist(FIRST, FIRST_STATE), LateEvents(88)) == h
    ensures Rooted(s, h) && FinalOk(s, h) && CommitteesOk(ExampleConfig(), s, h, origins) && origins.Keys == {0}
  {
    hide LegalRun, Run, HistAfter, SetUp, LateEvents, Tree, Late, LatePosts, LateStates, IsChainOf, CacheOk, CoverOk,
      RememberedOk, BlocksOk, StatesOk, DbOk, ViewOk, Untouched, EntryOk, Origins, LawfulAdvance;
    ExampleIsLawful();
    InitialCommittees(ExampleConfig(), FIRST, FIRST_STATE, 0);
    CommitteesKept(
      ExampleConfig(), Start(0).value, InitialHist(FIRST, FIRST_STATE), LateEvents(88), SETUP_ORIGINS);
    origins := Origins(ExampleConfig(), Start(0).value, SETUP_ORIGINS, LateEvents(88));
  }

  /** The committee that period 1 is meant to have. */
  lemma LateSource(s: Store, h: Hist, t: Store, g: Hist)
    requires LateGrown(s, h, 88) && Inv(ExampleConfig(), t, g) && g.tree == h.tree && g.posts == h.posts
    requires g.genesis == 1 && t.latestFinalized.slot == 72 && t.tailSlot == 0 && Finalized(t) == 73
    ensures 33 in g.tree && 33 in g.posts && g.tree[33] == BlockOf(32) && g.posts[33] == StateOf(32)
    ensures AncestorAt(g.tree, g.genesis, Finalized(t), CommitteeStart(ExampleConfig(), 0, 1)) == Some(33)
    ensures StateAt(ExampleConfig(), g.posts[33], CommitteeStart(ExampleConfig(), 0, 1)).committee == 1
  {
    hide IsAncestor, CacheOk, CoverOk, RememberedOk, BlocksOk, IsChainOf, DbOk, StatesOk, ViewOk, Tree, Late,
      LatePosts, LateStates, AncestorAt;
    LateAncestors(g.tree, 88, 72, 72);
  }
}
