/** Three runs of the light client data collection that go wrong. */
module LightClientExamples {
  import opened Wrappers
  import opened BlockTree
  import opened LightClientData
  import opened LightClientInvariant
  import opened LightClientBlock
  import opened LightClientSetup
  import opened LightClientHead
  import opened LightClientFinality
  import opened LightClientRun

  /** Eight slots in an epoch, four epochs in a period, one participant is enough. Committees are numbered by the
      periods that they serve in. */
  function ExampleConfig(): Config {
    Config(8, 4, 1, (a, b) => false, (state: PostState, slot: nat) => state.(slot := slot, committee := slot / 32))
  }

  const FIRST: Block := Block(1, 0, 0, 10, 0)
  const FIRST_STATE: PostState := PostState(0, 0, 0, 0)

  function Start(altairEpoch: nat): Option<Store> {
    SetUp(ExampleConfig(), FIRST.Id(), FIRST, FIRST_STATE, true, altairEpoch)
  }

  // ----- Steps -----

  /** One legal event in front of a run. */
  lemma LegalStep(cfg: Config, s: Store, h: Hist, e: Event, t: Store, rest: seq<Event>)
    requires cfg.Valid() && Expected(cfg, s, h, e) && Do(cfg, s, e) == Some(t)
    requires LegalRun(cfg, t, After(cfg, s, h, e), rest)
    ensures LegalRun(cfg, s, h, [e] + rest) && Run(cfg, s, [e] + rest) == Run(cfg, t, rest)
    ensures HistAfter(cfg, s, h, [e] + rest) == HistAfter(cfg, t, After(cfg, s, h, e), rest)
  {
    hide Legal, Do, Rooted, FinalOk, After, CacheOk, CoverOk, RememberedOk, BlocksOk, StatesOk, DbOk, ViewOk;
    assert ([e] + rest)[1..] == rest;
  }

  /** A block that makes no update. */
  lemma AddQuiet(cfg: Config, s: Store, h: Hist, b: Block, post: PostState) returns (t: Store)
    requires Inv(cfg, s, h) && LegalBlock(s, h, b, post) && !MakesUpdate(cfg, s, h, b)
    ensures Do(cfg, s, NewBlock(b, post, h.tree[b.parentRoot].Id())) == Some(t)
    ensures Inv(cfg, t, WithBlock(h, b, post)) && t == WithState(s, b, post).(cache := t.cache) && t.db == s.db
  {
    hide Tree, IsAncestor, CacheOk, CoverOk, RememberedOk, BlocksOk, IsChainOf, StatesOk, DbOk, ViewOk, MakesUpdate,
      AddNewBlock, CacheAfter;
    AddBlockKeeps(cfg, s, h, b, post);
    AddedData(cfg, s, h, b, post);
    t := AddNewBlock(cfg, s, b, post, h.tree[b.parentRoot].Id()).value;
  }

  /** States are only dropped by a switch. */
  lemma SwitchDropsStates(cfg: Config, s: Store, head: BlockId)
    requires cfg.Valid() && Descending(s.blocks) && SelectNewHead(cfg, s, head).Some?
    ensures forall k :: k in SelectNewHead(cfg, s, head).value.states ==> k in s.states
  {
    hide Descending, CommitPeriods, LatestFor, RecordFinalized, CreateBootstraps, BootstrapIds, PruneCache, Period;
  }

  /** What the examples need to know of a state: its history, and what is finalized and stored. */
  ghost predicate Stage(s: Store, h: Hist, tree: Blocks, states: set<Root>, finalizedSlot: nat, tail: nat) {
    && Inv(ExampleConfig(), s, h) && h.genesis == FIRST.root && h.tree == tree
    && s.latestFinalized.slot == finalizedSlot && s.tailSlot == tail && s.states.Keys <= states
  }

  lemma StartStage(altairEpoch: nat)
    ensures
      var s, h := Start(altairEpoch), InitialHist(FIRST, FIRST_STATE);
      s.Some? && Stage(s.value, h, map[1 := FIRST], {10}, 0, altairEpoch * 8)
  {
    hide Inv, CreateBootstrap;
    InitialInv(ExampleConfig(), FIRST, FIRST_STATE, true, altairEpoch);
  }

  /** Adding a block that makes no update. */
  lemma QuietStage(s: Store, h: Hist, tree: Blocks, states: set<Root>, f: nat, tail: nat, b: Block, post: PostState)
      returns (t: Store)
    requires Stage(s, h, tree, states, f, tail) && post.slot == b.slot
    requires b.root !in tree && 1 in tree && b.root != tree[1].parentRoot && b.stateRoot !in states
    requires b.parentRoot in tree && f <= tree[b.parentRoot].slot < b.slot
    requires b.participants < 1 || tree[b.parentRoot].slot < tail
    ensures tree[b.parentRoot].root == b.parentRoot
    ensures Expected(ExampleConfig(), s, h, NewBlock(b, post, tree[b.parentRoot].Id()))
    ensures Do(ExampleConfig(), s, NewBlock(b, post, tree[b.parentRoot].Id())) == Some(t)
    ensures After(ExampleConfig(), s, h, NewBlock(b, post, tree[b.parentRoot].Id())) == WithBlock(h, b, post)
    ensures Stage(t, WithBlock(h, b, post), tree[b.root := b], states + {b.stateRoot}, f, tail) && t.db == s.db
  {
    hide Tree, IsAncestor, CacheOk, CoverOk, RememberedOk, BlocksOk, IsChainOf, StatesOk, DbOk, ViewOk, Do, Period;
    ParentIn(h, b.parentRoot);
    t := AddQuiet(ExampleConfig(), s, h, b, post);
  }

  // ----- A chain with a block at every slot -----

  /** A legal event that fails ends a legal run. */
  lemma LastFails(cfg: Config, s: Store, h: Hist, e: Event)
    requires cfg.Valid() && Expected(cfg, s, h, e) && Do(cfg, s, e) == None
    ensures LegalRun(cfg, s, h, [e]) && Run(cfg, s, [e]) == None
  {
    hide Legal, Do, Rooted, FinalOk, After, CacheOk, CoverOk, RememberedOk, BlocksOk, StatesOk, DbOk, ViewOk;
  }

  lemma RunEnds(cfg: Config, s: Store, h: Hist)
    requires cfg.Valid()
    ensures LegalRun(cfg, s, h, []) && Run(cfg, s, []) == Some(s) && HistAfter(cfg, s, h, []) == h
  {
  }

  /** A run of one event. */
  lemma OneEvent(cfg: Config, s: Store, h: Hist, e: Event, t: Store)
    requires cfg.Valid() && Expected(cfg, s, h, e) && Do(cfg, s, e) == Some(t)
    ensures LegalRun(cfg, s, h, [e]) && Run(cfg, s, [e]) == Some(t) && HistAfter(cfg, s, h, [e]) == After(cfg, s, h, e)
  {
    hide Legal, Do, After, LegalRun, Run, HistAfter, Rooted, FinalOk, CacheOk, CoverOk, RememberedOk, BlocksOk,
      StatesOk, DbOk, ViewOk;
    RunEnds(cfg, t, After(cfg, s, h, e));
    LegalStep(cfg, s, h, e, t, []);
    assert [e] + [] == [e];
  }

  /** One run after the other. */
  lemma {:induction false} RunAppend(cfg: Config, s: Store, h: Hist, first: seq<Event>, t: Store, rest: seq<Event>)
    requires cfg.Valid() && LegalRun(cfg, s, h, first) && Run(cfg, s, first) == Some(t)
    requires LegalRun(cfg, t, HistAfter(cfg, s, h, first), rest)
    ensures LegalRun(cfg, s, h, first + rest) && Run(cfg, s, first + rest) == Run(cfg, t, rest)
    ensures HistAfter(cfg, s, h, first + rest) == HistAfter(cfg, t, HistAfter(cfg, s, h, first), rest)
    decreases |first|
  {
    hide Legal, Do, Rooted, FinalOk, After;
    if first == [] {
      assert first + rest == rest;
    } else {
      assert (first + rest)[0] == first[0] && (first + rest)[1..] == first[1..] + rest;
      RunAppend(cfg, Do(cfg, s, first[0]).value, After(cfg, s, h, first[0]), first[1..], t, rest);
    }
  }

  /** The block of a slot, unsigned. */
  function BlockOf(k: nat): Block {
    Block(k + 1, k, k, k + 10, 0)
  }

  /** Its post-state. With blocks full of attestations at every slot, each epoch from the second on is justified at its
      end, so that the start of epoch e finalizes epoch e - 2, from epoch 4 on. */
  function StateOf(k: nat): PostState {
    if k < 32 then PostState(k, 0, 0, 0) else PostState(k, k / 8 - 2, BlockOf((k / 8 - 2) * 8).root, k / 32)
  }

  function Chain(n: nat): (c: Blocks)
    ensures forall r :: r in c <==> 1 <= r <= n + 1
    ensures forall r :: r in c ==> r >= 1 && c[r] == BlockOf(r - 1)
  {
    if n == 0 then map[1 := BlockOf(0)] else Chain(n - 1)[n + 1 := BlockOf(n)]
  }

  function ChainPosts(n: nat): (p: map<Root, PostState>)
    ensures forall r :: r in p <==> 1 <= r <= n + 1
    ensures forall r :: r in p ==> r >= 1 && p[r] == StateOf(r - 1)
  {
    if n == 0 then map[1 := StateOf(0)] else ChainPosts(n - 1)[n + 1 := StateOf(n)]
  }

  function ChainStates(n: nat): (states: set<Root>)
    ensures forall r :: r in states <==> 10 <= r <= n + 10
  {
    if n == 0 then {10} else ChainStates(n - 1) + {n + 10}
  }

  function ChainEvents(n: nat): seq<Event> {
    if n == 0 then [] else ChainEvents(n - 1) + [ChainEvent(n)]
  }

  /** A state that a run with the chain up to slot n, and nothing else, has reached. */
  ghost predicate Grown(s: Store, h: Hist, n: nat, f: nat) {
    Stage(s, h, Chain(n), ChainStates(n), f, 0) && h.posts == ChainPosts(n) && h.finality == map[]
  }

  /** The next block of the chain. */
  function ChainEvent(n: nat): Event
    requires n > 0
  {
    NewBlock(BlockOf(n), StateOf(n), BlockOf(n - 1).Id())
  }

  lemma GrowStep(n: nat, s: Store, h: Hist) returns (t: Store, g: Hist)
    requires n > 0 && Grown(s, h, n - 1, 0)
    ensures Expected(ExampleConfig(), s, h, ChainEvent(n)) && Do(ExampleConfig(), s, ChainEvent(n)) == Some(t)
    ensures After(ExampleConfig(), s, h, ChainEvent(n)) == g
    ensures Grown(t, g, n, 0) && t.db == s.db
  {
    hide Inv, Do, After, Expected;
    var b := BlockOf(n);
    g := WithBlock(h, b, StateOf(n));
    t := QuietStage(s, h, Chain(n - 1), ChainStates(n - 1), 0, 0, b, StateOf(n));
    assert g.posts == ChainPosts(n);
  }

  lemma GrowStarts()
    ensures Start(0).Some? && Grown(Start(0).value, InitialHist(FIRST, FIRST_STATE), 0, 0)
  {
    hide Inv, SetUp;
    StartStage(0);
    var h := InitialHist(FIRST, FIRST_STATE);
    assert Chain(0) == map[1 := FIRST] && h.posts == ChainPosts(0);
  }

  lemma {:induction false} Grow(n: nat) returns (s: Store, h: Hist)
    ensures Start(0).Some? && LegalRun(ExampleConfig(), Start(0).value, InitialHist(FIRST, FIRST_STATE), ChainEvents(n))
    ensures Run(ExampleConfig(), Start(0).value, ChainEvents(n)) == Some(s)
    ensures HistAfter(ExampleConfig(), Start(0).value, InitialHist(FIRST, FIRST_STATE), ChainEvents(n)) == h
    ensures Grown(s, h, n, 0) && s.db == Start(0).value.db
    decreases n
  {
    hide Inv, Do, After, Expected, LegalRun, Run, HistAfter, SetUp, Legal, Grown, Start, InitialHist, ChainEvent;
    GrowStarts();
    var cfg, s0, h0 := ExampleConfig(), Start(0).value, InitialHist(FIRST, FIRST_STATE);
    if n == 0 {
      s, h := s0, h0;
      RunEnds(cfg, s0, h0);
    } else {
      var s1, h1 := Grow(n - 1);
      s, h := GrowStep(n, s1, h1);
      OneEvent(cfg, s1, h1, ChainEvent(n), s);
      RunAppend(cfg, s0, h0, ChainEvents(n - 1), s1, [ChainEvent(n)]);
    }
  }

  /** A tree that holds the chain. */
  ghost predicate Holds(t: Blocks, n: nat) {
    Tree(t, 1) && forall k: nat {:trigger BlockOf(k)} :: k <= n ==> k + 1 in t && t[k + 1] == BlockOf(k)
  }

  lemma {:induction false} ChainAncestors(t: Blocks, n: nat, i: nat, k: nat)
    requires Holds(t, n) && i <= k <= n
    ensures k + 1 in t && IsAncestor(t, 1, i + 1, k + 1) && AncestorAt(t, 1, k + 1, i) == Some(i + 1)
    decreases k
  {
    var b := BlockOf(k);
    assert k + 1 in t && t[k + 1] == b;
    if i < k {
      ChainAncestors(t, n, i, k - 1);
    }
  }

  lemma {:induction false} ChainUnsigned(t: Blocks, n: nat, k: nat, fin: Finality, period: nat)
    requires Holds(t, n) && k <= n
    ensures k + 1 in t && LastSigned(ExampleConfig(), 0, t, 1, k + 1) == None
    ensures Scan(ExampleConfig(), 0, t, 1, fin, k + 1, period) == []
    decreases k
  {
    hide Period, Chain, ChainPosts, ChainStates;
    var b := BlockOf(k);
    assert k + 1 in t && t[k + 1] == b;
    if k > 0 {
      ChainUnsigned(t, n, k - 1, fin, period);
      assert t[k] == BlockOf(k - 1);
    }
  }

  lemma GrownHolds(s: Store, h: Hist, n: nat, f: nat)
    requires Grown(s, h, n, f)
    ensures Holds(h.tree, n)
  {
    hide Tree, IsAncestor, CacheOk, CoverOk, RememberedOk, BlocksOk, IsChainOf, StatesOk, DbOk, ViewOk, FinalOk,
      Chain, ChainPosts, ChainStates;
  }

  /** A signed block at slot 33, beside the chain. */
  const FORK: Block := Block(100, 33, 33, 200, 1)
  const FORK_STATE: PostState := PostState(33, 2, 17, 1)

  function ForkEvent(): Event {
    NewBlock(FORK, FORK_STATE, BlockOf(32).Id())
  }

  // ----- A header that is no longer retained -----

  /** The chain up to slot 48, a switch to its end, which finalizes the block at slot 32, and a signed block on that
      block, whose own state finalizes slot 16. */
  function PrunedEvents(): seq<Event> {
    ChainEvents(48) + ([NewHead(BlockOf(48).Id())] + [ForkEvent()])
  }

  /** The switch to the block at slot 48. */
  lemma SwitchStage(s: Store, h: Hist) returns (t: Store)
    requires Grown(s, h, 48, 0)
    ensures Expected(ExampleConfig(), s, h, NewHead(BlockOf(48).Id()))
    ensures Do(ExampleConfig(), s, NewHead(BlockOf(48).Id())) == Some(t)
    ensures After(ExampleConfig(), s, h, NewHead(BlockOf(48).Id())) == h.(head := Some(49), low := 0)
    ensures Grown(t, h.(head := Some(49), low := 0), 48, 32)
  {
    hide IsAncestor, CacheOk, CoverOk, RememberedOk, BlocksOk, IsChainOf, DbOk, ViewOk, SelectNewHead, Descending,
      Tree, Chain, ChainPosts, ChainStates;
    var cfg := ExampleConfig();
    GrownHolds(s, h, 48, 0);
    FinalizedIs(s, h, 48, 0);
    ChainAncestors(h.tree, 48, 0, 48);
    ChainAncestors(h.tree, 48, 0, 32);
    ChainUnsigned(h.tree, 48, 48, h.finality, 0);
    InvDescends(cfg, s, h);
    HeadIsStored(cfg, s, h, 49);
    SelectHeadKeeps(cfg, s, h, 49);
    SwitchDropsStates(cfg, s, BlockOf(48).Id());
    t := SelectNewHead(cfg, s, BlockOf(48).Id()).value;
  }

  lemma FinalizedIs(s: Store, h: Hist, n: nat, f: nat)
    requires Grown(s, h, n, f)
    ensures Rooted(s, h) && FinalOk(s, h) && Finalized(s) == f + 1
  {
    hide Tree, IsAncestor, CacheOk, CoverOk, RememberedOk, BlocksOk, IsChainOf, StatesOk, DbOk, ViewOk, Chain,
      ChainPosts, ChainStates;
  }

  /** The block at slot 33 meets the assumptions, and its header is gone. */
  lemma PrunedStage(s: Store, h: Hist)
    requires Grown(s, h, 48, 32)
    ensures Expected(ExampleConfig(), s, h, ForkEvent()) && Do(ExampleConfig(), s, ForkEvent()) == None
  {
    hide IsAncestor, CacheOk, CoverOk, RememberedOk, BlocksOk, IsChainOf, StatesOk, DbOk, ViewOk, AddNewBlock,
      Recomputed, AfterBlock, Tree, Chain, ChainPosts, ChainStates;
    var cfg := ExampleConfig();
    GrownHolds(s, h, 48, 32);
    CachedAt(cfg, s, h, 33);
    SixteenIsRecorded(s, h);
    AddBlockKeeps(cfg, s, h, FORK, FORK_STATE);
  }

  lemma SixteenIsRecorded(s: Store, h: Hist)
    requires Grown(s, h, 48, 32)
    ensures 16 in s.finalizedBlockRoots
  {
    hide Tree, IsAncestor, CacheOk, CoverOk, RememberedOk, BlocksOk, StatesOk, DbOk, ViewOk, Chain, ChainPosts,
      ChainStates;
    GrownHolds(s, h, 48, 32);
    FinalizedIs(s, h, 48, 32);
    ChainAncestors(h.tree, 48, 16, 32);
  }

  /** A run that meets all assumptions and fails: the last block's update needs the header of the block at slot 16,
      which finalizing the block at slot 32 has dropped. */
  lemma PrunedHeader()
    ensures
      var cfg, s, h := ExampleConfig(), Start(0), InitialHist(FIRST, FIRST_STATE);
      s.Some? && LegalRun(cfg, s.value, h, PrunedEvents()) && Run(cfg, s.value, PrunedEvents()) == None
  {
    hide Inv, Do, After, Expected, LegalRun, Run, HistAfter, SetUp, Legal, ChainEvents, Chain, ChainPosts,
      ChainStates;
    var s, h := Grow(48);
    var cfg, e := ExampleConfig(), NewHead(BlockOf(48).Id());
    var t := SwitchStage(s, h);
    var g := h.(head := Some(49), low := 0);
    PrunedStage(t, g);
    LastFails(cfg, t, g, ForkEvent());
    LegalStep(cfg, s, h, e, t, [ForkEvent()]);
    RunAppend(cfg, Start(0).value, InitialHist(FIRST, FIRST_STATE), ChainEvents(48), s, [e] + [ForkEvent()]);
  }

  // ----- A header that is not the block's own -----

  /** The chain up to slot 32, and a signed block on it, with no switch in between. */
  function EarlyEvents(): seq<Event> {
    ChainEvents(32) + [ForkEvent()]
  }

  /** Nothing is finalized but the first block, so the lookup falls back to it. */
  lemma EarlyStage(s: Store, h: Hist) returns (t: Store, g: Hist)
    requires Grown(s, h, 32, 0)
    ensures Expected(ExampleConfig(), s, h, ForkEvent()) && Do(ExampleConfig(), s, ForkEvent()) == Some(t)
    ensures After(ExampleConfig(), s, h, ForkEvent()) == g
    ensures Holds(g.tree, 32) && g.genesis == 1 && 33 in g.posts && g.posts[33] == StateOf(32)
    ensures FORK.Id() in t.cache && t.cache[FORK.Id()].best == Some(Update(BlockOf(32).Id(), 33, 1, None))
  {
    hide IsAncestor, CacheOk, CoverOk, RememberedOk, BlocksOk, IsChainOf, StatesOk, DbOk, ViewOk, AddNewBlock, Tree,
      FinalizedHeader, AfterBlock, CacheAfter, Chain, ChainPosts, ChainStates;
    var cfg := ExampleConfig();
    GrownHolds(s, h, 32, 0);
    CachedAt(cfg, s, h, 33);
    HeaderExact(cfg, s, h, 33);
    AddBlockKeeps(cfg, s, h, FORK, FORK_STATE);
    AddedData(cfg, s, h, FORK, FORK_STATE);
    t, g := AddNewBlock(cfg, s, FORK, FORK_STATE, BlockOf(32).Id()).value, AfterBlock(cfg, s, h, FORK, FORK_STATE);
    ForkHistory(s, h);
    ForkData(s, h);
  }

  lemma ForkHistory(s: Store, h: Hist)
    requires Grown(s, h, 32, 0) && FinalizedHeader(s, BlockOf(32).Id()) == Some(Found(0, None))
    requires Tree(AfterBlock(ExampleConfig(), s, h, FORK, FORK_STATE).tree, h.genesis)
    ensures
      var g := AfterBlock(ExampleConfig(), s, h, FORK, FORK_STATE);
      && Holds(g.tree, 32) && g.genesis == 1 && 33 in g.posts && g.posts[33] == StateOf(32)
      && 100 in g.tree && g.tree[100] == FORK && g.finality == map[33 := None]
  {
    hide IsAncestor, CacheOk, CoverOk, RememberedOk, BlocksOk, IsChainOf, StatesOk, DbOk, ViewOk, Tree,
      FinalizedHeader, FinalOk, Rooted, Chain, ChainPosts, ChainStates;
  }

  /** What the cache holds for the fork: the scan of its chain finds no other update. */
  lemma ForkData(s: Store, h: Hist)
    requires Grown(s, h, 32, 0) && FinalizedHeader(s, BlockOf(32).Id()) == Some(Found(0, None))
    requires BlockOf(32).Id() in s.cache && Tree(AfterBlock(ExampleConfig(), s, h, FORK, FORK_STATE).tree, h.genesis)
    ensures
      var cache := CacheAfter(ExampleConfig(), s, h, FORK, FORK_STATE);
      FORK.Id() in cache && cache[FORK.Id()].best == Some(Update(BlockOf(32).Id(), 33, 1, None))
  {
    hide IsAncestor, CacheOk, CoverOk, RememberedOk, BlocksOk, IsChainOf, StatesOk, DbOk, ViewOk, Tree,
      FinalizedHeader, SignatureSlot, AfterBlock, Best, Chain, ChainPosts, ChainStates;
    ForkHistory(s, h);
    ForkBest(AfterBlock(ExampleConfig(), s, h, FORK, FORK_STATE));
  }

  lemma ForkBest(g: Hist)
    requires Holds(g.tree, 32) && g.genesis == 1
    requires 100 in g.tree && g.tree[100] == FORK && g.finality == map[33 := None]
    ensures Best(ExampleConfig(), 0, g, 100) == Some(Update(BlockOf(32).Id(), 33, 1, None))
  {
    hide Tree, Chain, ChainPosts, ChainStates;
    var cfg, update := ExampleConfig(), Update(BlockOf(32).Id(), 33, 1, None);
    var period := Period(cfg, 33);
    ChainUnsigned(g.tree, 32, 32, g.finality, period);
    assert g.tree[33] == BlockOf(32) && UpdateOf(g.finality, FORK, g.tree[33]) == update;
    assert Scan(cfg, 0, g.tree, 1, g.finality, 100, period) == [] + [update];
    FoldBestNext(cfg, [], update);
  }

  /** A run that meets all assumptions, and in which an update carries the header of another block than the attested
      one's own checkpoint: the state of the block at slot 32 finalizes the block at slot 16, which has not been
      recorded when the update is made; the header is the empty one of the first block. */
  lemma OtherHeader() returns (t: Store)
    ensures
      var cfg, s, h := ExampleConfig(), Start(0), InitialHist(FIRST, FIRST_STATE);
      && s.Some? && LegalRun(cfg, s.value, h, EarlyEvents()) && Run(cfg, s.value, EarlyEvents()) == Some(t)
      && FORK.Id() in t.cache && t.cache[FORK.Id()].best == Some(Update(BlockOf(32).Id(), 33, 1, None))
      && var g := HistAfter(cfg, s.value, h, EarlyEvents());
         && Tree(g.tree, g.genesis) && 33 in g.tree && g.tree[33] == BlockOf(32) && 33 in g.posts
         && AncestorAt(g.tree, g.genesis, 33, StartSlot(cfg, g.posts[33].finalizedEpoch)) == Some(BlockOf(16).root)
  {
    hide Inv, Do, After, Expected, LegalRun, Run, HistAfter, SetUp, Legal, ChainEvents, Tree, AncestorAt, Chain,
      ChainPosts, ChainStates;
    var s, h := Grow(32);
    var cfg, g := ExampleConfig(), h;
    t, g := EarlyStage(s, h);
    OneEvent(cfg, s, h, ForkEvent(), t);
    RunAppend(cfg, Start(0).value, InitialHist(FIRST, FIRST_STATE), ChainEvents(32), s, [ForkEvent()]);
    ChainAncestors(g.tree, 32, 16, 32);
    assert g.tree[33] == BlockOf(32);
  }

  // ----- A view that goes stale -----

  const AT_8: Block := Block(2, 8, 1, 20, 0)
  const AT_9: Block := Block(3, 9, 2, 30, 1)

  /** A signed block on the first block from the tail slot on, a switch to it, and a switch back to the first block. */
  function StaleEvents(): seq<Event> {
    [NewBlock(AT_8, PostState(8, 0, 0, 0), FIRST.Id())]
    + ([NewBlock(AT_9, PostState(9, 0, 0, 0), AT_8.Id())] + ([NewHead(AT_9.Id())] + [NewHead(FIRST.Id())]))
  }

  const PAIR: Blocks := map[1 := FIRST, 2 := AT_8, 3 := AT_9]

  /** The header of the block at slot 8 is the empty one. */
  lemma EmptyHeader(s: Store, h: Hist, tree: Blocks, states: set<Root>)
    requires Stage(s, h, tree, states, 0, 8) && 2 in tree && tree[2] == AT_8
    ensures AT_8.Id() in s.cache && HeaderAvailable(s, s.cache[AT_8.Id()].finalizedSlot)
    ensures FinalizedHeader(s, AT_8.Id()) == Some(Found(0, None))
  {
    hide Tree, IsAncestor, CacheOk, CoverOk, RememberedOk, BlocksOk, IsChainOf, StatesOk, DbOk, ViewOk, FinalizedHeader;
    HeaderExact(ExampleConfig(), s, h, 2);
  }

  lemma SignedStage(s: Store, h: Hist) returns (t: Store, g: Hist)
    requires Stage(s, h, map[1 := FIRST, 2 := AT_8], {10, 20}, 0, 8) && h.finality == map[]
    ensures Expected(ExampleConfig(), s, h, NewBlock(AT_9, PostState(9, 0, 0, 0), AT_8.Id()))
    ensures Do(ExampleConfig(), s, NewBlock(AT_9, PostState(9, 0, 0, 0), AT_8.Id())) == Some(t)
    ensures After(ExampleConfig(), s, h, NewBlock(AT_9, PostState(9, 0, 0, 0), AT_8.Id())) == g
    ensures Stage(t, g, PAIR, {10, 20, 30}, 0, 8) && g.finality == map[2 := None]
    ensures g.posts == h.posts[3 := PostState(9, 0, 0, 0)]
  {
    hide IsAncestor, CacheOk, CoverOk, RememberedOk, BlocksOk, IsChainOf, StatesOk, DbOk, ViewOk, AddNewBlock,
      FinalizedHeader, HeaderAvailable, CacheAfter;
    var cfg, post := ExampleConfig(), PostState(9, 0, 0, 0);
    EmptyHeader(s, h, h.tree, {10, 20});
    AddBlockKeeps(cfg, s, h, AT_9, post);
    AddedData(cfg, s, h, AT_9, post);
    t, g := AddNewBlock(cfg, s, AT_9, post, AT_8.Id()).value, AfterBlock(cfg, s, h, AT_9, post);
  }

  lemma PairSigned(h: Hist)
    requires h.tree == PAIR && h.genesis == 1 && Tree(h.tree, h.genesis)
    ensures Signer(ExampleConfig(), 8, h, 3, 8) == Some(3) && Signer(ExampleConfig(), 8, h, 1, 8) == None
  {
    assert LastSigned(ExampleConfig(), 8, h.tree, h.genesis, 3) == Some(3);
  }

  /** A head of the second run, whose post-state finalizes nothing. */
  lemma PairHead(s: Store, h: Hist, r: Root)
    requires Stage(s, h, PAIR, {10, 20, 30}, 0, 8) && r in PAIR && r in h.posts && h.posts[r].finalizedEpoch == 0
    ensures LegalHead(s, h, r) && Descending(s.blocks) && h.tree[r].stateRoot in s.states
    ensures s.states[h.tree[r].stateRoot].finalizedEpoch == 0
  {
    hide IsAncestor, CacheOk, CoverOk, RememberedOk, BlocksOk, IsChainOf, DbOk, ViewOk, Descending, Tree;
    GenesisIsAncestor(h.tree, 1, r);
    PairFinalized(s, h);
    InvDescends(ExampleConfig(), s, h);
    HeadIsStored(ExampleConfig(), s, h, r);
  }

  lemma PairFinalized(s: Store, h: Hist)
    requires Rooted(s, h) && FinalOk(s, h) && h.tree == PAIR && s.latestFinalized.slot == 0
    ensures Finalized(s) == 1
  {
    hide Tree, IsAncestor, IsChainOf;
  }

  /** The switch to the signed block. */
  lemma ShownStage(s: Store, h: Hist) returns (t: Store, g: Hist)
    requires Stage(s, h, PAIR, {10, 20, 30}, 0, 8) && h.finality == map[2 := None]
    requires 3 in h.posts && h.posts[3].finalizedEpoch == 0
    ensures Expected(ExampleConfig(), s, h, NewHead(AT_9.Id())) && Do(ExampleConfig(), s, NewHead(AT_9.Id())) == Some(t)
    ensures After(ExampleConfig(), s, h, NewHead(AT_9.Id())) == g
    ensures Stage(t, g, PAIR, {10, 20, 30}, 0, 8) && g == h.(head := Some(3), low := 8)
    ensures t.latest == Some(Update(BlockId(8, 2), 9, 1, None))
  {
    hide IsAncestor, CacheOk, CoverOk, RememberedOk, BlocksOk, IsChainOf, DbOk, StatesOk, SelectNewHead, Descending,
      FinalizedHeader, HeaderAvailable, ShowsPeriods, LastSigned;
    var cfg := ExampleConfig();
    PairHead(s, h, 3);
    PairSigned(h);
    EmptyHeader(s, h, PAIR, {10, 20, 30});
    SelectHeadKeeps(cfg, s, h, 3);
    SwitchDropsStates(cfg, s, AT_9.Id());
    t, g := SelectNewHead(cfg, s, AT_9.Id()).value, AfterHead(cfg, s, h, 3);
    PairSigned(g);
  }

  /** The switch back. */
  lemma BackStage(s: Store, h: Hist) returns (t: Store)
    requires Stage(s, h, PAIR, {10, 20, 30}, 0, 8) && 1 in h.posts && h.posts[1].finalizedEpoch == 0
    ensures Expected(ExampleConfig(), s, h, NewHead(FIRST.Id()))
    ensures Do(ExampleConfig(), s, NewHead(FIRST.Id())) == Some(t)
    ensures After(ExampleConfig(), s, h, NewHead(FIRST.Id())) == h && t.latest == s.latest && t.tailSlot == 8
  {
    hide Tree, IsAncestor, CacheOk, CoverOk, RememberedOk, BlocksOk, IsChainOf, DbOk, StatesOk, ViewOk, SelectNewHead,
      Descending, LatestSucceeds;
    PairHead(s, h, 1);
    SelectHeadKeeps(ExampleConfig(), s, h, 1);
    t := SelectNewHead(ExampleConfig(), s, FIRST.Id()).value;
  }

  /** A run that meets all assumptions, and after which the latest update is not the one of the selected head: the head
      lies below the tail slot and calls for none, but the one of the previous head is still there. */
  lemma StaleView() returns (t: Store)
    ensures
      var cfg, s, h := ExampleConfig(), Start(1), InitialHist(FIRST, FIRST_STATE);
      && s.Some? && LegalRun(cfg, s.value, h, StaleEvents()) && Run(cfg, s.value, StaleEvents()) == Some(t)
      && var g := HistAfter(cfg, s.value, h, StaleEvents());
         && Tree(g.tree, g.genesis) && 1 in g.tree && LatestOf(cfg, t.tailSlot, g, 1, 8) == None
         && t.latest == Some(Update(BlockId(8, 2), 9, 1, None))
  {
    hide Inv, Do, After, Expected, LegalRun, Run, HistAfter, SetUp, Legal, LatestOf, Tree;
    StartStage(1);
    var cfg, s0, h0 := ExampleConfig(), Start(1).value, InitialHist(FIRST, FIRST_STATE);
    var p8, p9 := PostState(8, 0, 0, 0), PostState(9, 0, 0, 0);
    var t1 := map[1 := FIRST];
    var s1 := QuietStage(s0, h0, t1, {10}, 0, 8, AT_8, p8);
    var h1 := WithBlock(h0, AT_8, p8);
    assert t1[2 := AT_8] == map[1 := FIRST, 2 := AT_8] && {10} + {20} == {10, 20};
    var s2, h2 := SignedStage(s1, h1);
    var s3, h3 := ShownStage(s2, h2);
    t := BackStage(s3, h3);
    var e1, e2 := NewBlock(AT_8, p8, FIRST.Id()), NewBlock(AT_9, p9, AT_8.Id());
    var e3, e4 := NewHead(AT_9.Id()), NewHead(FIRST.Id());
    RunEnds(cfg, t, h3);
    LegalStep(cfg, s3, h3, e4, t, []);
    assert [e4] + [] == [e4];
    LegalStep(cfg, s2, h2, e3, s3, [e4]);
    LegalStep(cfg, s1, h1, e2, s2, [e3] + [e4]);
    LegalStep(cfg, s0, h0, e1, s1, [e2] + ([e3] + [e4]));
    NothingCalledFor(s3, h3);
  }

  lemma NothingCalledFor(s: Store, h: Hist)
    requires Stage(s, h, PAIR, {10, 20, 30}, 0, 8)
    ensures Tree(h.tree, h.genesis) && 1 in h.tree && LatestOf(ExampleConfig(), 8, h, 1, 8) == None
  {
    PairSigned(h);
  }
}
