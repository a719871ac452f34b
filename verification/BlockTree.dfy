/** Block trees and what a light client reads off a chain (`light_client_data_collection.py`). */
module BlockTree {
  import opened Slots
  import opened Wrappers

  type Root = nat

  datatype BlockId = BlockId(slot: nat, root: Root)

  /** A block, with its own root and the number of sync committee members that signed its parent. */
  datatype Block = Block(root: Root, slot: nat, parentRoot: Root, stateRoot: Root, participants: nat) {
    function Id(): BlockId { BlockId(slot, root) }
  }

  /** A light client update: the block it attests to, the slot of the signing block, the participation, and the
      block of the finalized header; `None` is the empty header, which stands for the genesis block. */
  datatype Update = Update(attested: BlockId, signatureSlot: nat, participants: nat, finalized: Option<BlockId>)

  /** The parts of a state that matter here: its finalized checkpoint, and its current sync committee. */
  datatype PostState = PostState(slot: nat, finalizedEpoch: nat, finalizedRoot: Root, committee: nat)

  /** `advance` takes a state to a later slot. */
  datatype Config = Config(
    slotsPerEpoch: nat, epochsPerPeriod: nat, minParticipants: nat, isBetter: (Update, Update) -> bool,
    advance: (PostState, nat) -> PostState)
  {
    predicate Valid() { slotsPerEpoch > 0 && epochsPerPeriod > 0 }
  }

  function Period(cfg: Config, slot: nat): nat
    requires cfg.Valid()
  {
    EpochAtSlot(slot, cfg.slotsPerEpoch) / cfg.epochsPerPeriod
  }

  /** The first slot of a sync committee period. */
  function PeriodStart(cfg: Config, period: nat): nat {
    period * cfg.epochsPerPeriod * cfg.slotsPerEpoch
  }

  lemma PeriodOrder(cfg: Config, slot: nat, period: nat)
    requires cfg.Valid()
    ensures slot < PeriodStart(cfg, period) <==> Period(cfg, slot) < period
  {
    EpochOrder(slot, period * cfg.epochsPerPeriod, cfg.slotsPerEpoch);
    EpochOrder(EpochAtSlot(slot, cfg.slotsPerEpoch), period, cfg.epochsPerPeriod);
  }

  lemma PeriodMonotone(cfg: Config, a: nat, b: nat)
    requires cfg.Valid() && a <= b
    ensures Period(cfg, a) <= Period(cfg, b)
  {
    EpochMonotone(a, b, cfg.slotsPerEpoch);
    EpochMonotone(EpochAtSlot(a, cfg.slotsPerEpoch), EpochAtSlot(b, cfg.slotsPerEpoch), cfg.epochsPerPeriod);
  }

  // ----- Trees -----

  type Blocks = map<Root, Block>

  /** Every block but the first has its parent in the tree, at a lower slot. */
  ghost predicate Tree(t: Blocks, genesis: Root) {
    && genesis in t && t[genesis].parentRoot !in t
    && (forall r {:trigger t[r].root} :: r in t ==> t[r].root == r)
    && (forall r {:trigger t[r].parentRoot} :: r in t && r != genesis ==>
          t[r].parentRoot in t && t[t[r].parentRoot].slot < t[r].slot)
  }

  ghost predicate IsAncestor(t: Blocks, genesis: Root, a: Root, r: Root)
    requires Tree(t, genesis) && r in t
    decreases t[r].slot
  {
    a == r || (r != genesis && IsAncestor(t, genesis, a, t[r].parentRoot))
  }

  lemma {:induction false} AncestorBelow(t: Blocks, genesis: Root, a: Root, r: Root)
    requires Tree(t, genesis) && r in t && IsAncestor(t, genesis, a, r)
    ensures a in t && t[a].slot <= t[r].slot && (a != r ==> t[a].slot < t[r].slot)
    decreases t[r].slot
  {
    if a != r {
      AncestorBelow(t, genesis, a, t[r].parentRoot);
    }
  }

  lemma {:induction false} AncestorTrans(t: Blocks, genesis: Root, a: Root, b: Root, r: Root)
    requires Tree(t, genesis) && r in t && b in t && IsAncestor(t, genesis, a, b) && IsAncestor(t, genesis, b, r)
    ensures IsAncestor(t, genesis, a, r)
    decreases t[r].slot
  {
    if b != r {
      AncestorTrans(t, genesis, a, b, t[r].parentRoot);
    }
  }

  lemma {:induction false} GenesisIsAncestor(t: Blocks, genesis: Root, r: Root)
    requires Tree(t, genesis) && r in t
    ensures IsAncestor(t, genesis, genesis, r)
    decreases t[r].slot
  {
    if r != genesis {
      GenesisIsAncestor(t, genesis, t[r].parentRoot);
    }
  }

  /** The ancestors of a block are linearly ordered by their slots. */
  lemma {:induction false} AncestorsLinear(t: Blocks, genesis: Root, a: Root, b: Root, r: Root)
    requires Tree(t, genesis) && r in t && IsAncestor(t, genesis, a, r) && IsAncestor(t, genesis, b, r)
    ensures a in t && b in t
    ensures t[a].slot <= t[b].slot ==> IsAncestor(t, genesis, a, b)
    decreases t[r].slot
  {
    AncestorBelow(t, genesis, a, r);
    AncestorBelow(t, genesis, b, r);
    if a != r && b != r {
      AncestorsLinear(t, genesis, a, b, t[r].parentRoot);
    }
  }

  /** The last block of a chain at or before a slot. */
  function AncestorAt(t: Blocks, genesis: Root, r: Root, slot: int): (a: Option<Root>)
    requires Tree(t, genesis) && r in t
    ensures a.Some? ==> a.value in t && t[a.value].slot <= slot
    decreases t[r].slot
  {
    if t[r].slot <= slot then Some(r)
    else if r == genesis then None
    else AncestorAt(t, genesis, t[r].parentRoot, slot)
  }

  lemma {:induction false} AncestorAtIsLast(t: Blocks, genesis: Root, r: Root, slot: int, a: Root)
    requires Tree(t, genesis) && r in t && IsAncestor(t, genesis, a, r)
    ensures a in t
    ensures t[a].slot <= slot ==>
      && AncestorAt(t, genesis, r, slot).Some?
      && t[a].slot <= t[AncestorAt(t, genesis, r, slot).value].slot
    decreases t[r].slot
  {
    AncestorBelow(t, genesis, a, r);
    if t[r].slot > slot && r != genesis && a != r {
      AncestorAtIsLast(t, genesis, t[r].parentRoot, slot, a);
    }
  }

  lemma {:induction false} AncestorAtIsAncestor(t: Blocks, genesis: Root, r: Root, slot: int)
    requires Tree(t, genesis) && r in t && AncestorAt(t, genesis, r, slot).Some?
    ensures IsAncestor(t, genesis, AncestorAt(t, genesis, r, slot).value, r)
    decreases t[r].slot
  {
    if t[r].slot > slot && r != genesis {
      AncestorAtIsAncestor(t, genesis, t[r].parentRoot, slot);
    }
  }

  /** Looking further back from an ancestor gives the same answer. */
  lemma {:induction false} AncestorAtFrom(t: Blocks, genesis: Root, r: Root, high: int, slot: int)
    requires Tree(t, genesis) && r in t && slot <= high && AncestorAt(t, genesis, r, high).Some?
    ensures AncestorAt(t, genesis, AncestorAt(t, genesis, r, high).value, slot) == AncestorAt(t, genesis, r, slot)
    decreases t[r].slot
  {
    if t[r].slot > high && r != genesis {
      AncestorAtFrom(t, genesis, t[r].parentRoot, high, slot);
    }
  }

  // ----- Extending a tree -----

  ghost predicate Extends(t: Blocks, u: Blocks, genesis: Root) {
    Tree(t, genesis) && Tree(u, genesis) && forall r :: r in t ==> r in u && u[r] == t[r]
  }

  lemma TreeWithBlock(t: Blocks, genesis: Root, b: Block)
    requires Tree(t, genesis) && b.root !in t && b.parentRoot in t && t[b.parentRoot].slot < b.slot
    requires b.root != t[genesis].parentRoot
    ensures Extends(t, t[b.root := b], genesis) && b.root != genesis
  {
  }

  lemma {:induction false} SameAncestry(t: Blocks, u: Blocks, genesis: Root, a: Root, r: Root)
    requires Extends(t, u, genesis) && r in t
    ensures IsAncestor(u, genesis, a, r) == IsAncestor(t, genesis, a, r)
    decreases t[r].slot
  {
    if r != genesis {
      SameAncestry(t, u, genesis, a, t[r].parentRoot);
    }
  }

  lemma {:induction false} SameAncestorAt(t: Blocks, u: Blocks, genesis: Root, r: Root, slot: int)
    requires Extends(t, u, genesis) && r in t
    ensures AncestorAt(u, genesis, r, slot) == AncestorAt(t, genesis, r, slot)
    decreases t[r].slot
  {
    if r != genesis {
      SameAncestorAt(t, u, genesis, t[r].parentRoot, slot);
    }
  }

  // ----- Plain scans of a chain -----

  /** A block whose signatures make an update: its parent is recent enough, in the same period, and signed by enough. */
  predicate Qualifies(cfg: Config, tail: nat, b: Block, parent: Block)
    requires cfg.Valid()
  {
    parent.slot >= tail && Period(cfg, parent.slot) == Period(cfg, b.slot) && b.participants >= cfg.minParticipants
  }

  /** The finalized header that the updates attesting to a block carry, for the blocks that have been attested. */
  type Finality = map<Root, Option<BlockId>>

  function HeaderOf(fin: Finality, r: Root): Option<BlockId> {
    if r in fin then fin[r] else None
  }

  /** The update that a block makes of its parent. */
  function UpdateOf(fin: Finality, b: Block, parent: Block): Update {
    Update(parent.Id(), b.slot, b.participants, HeaderOf(fin, b.parentRoot))
  }

  /** Every block that makes an update has the header of its parent. */
  ghost predicate Covered(cfg: Config, tail: nat, t: Blocks, genesis: Root, fin: Finality)
    requires cfg.Valid() && Tree(t, genesis)
  {
    forall r {:trigger t[r].parentRoot} :: r in t && r != genesis && Qualifies(cfg, tail, t[r], t[t[r].parentRoot]) ==>
      t[r].parentRoot in fin
  }

  /** The updates of one period that the chain of r contains, oldest first. */
  ghost function Scan(cfg: Config, tail: nat, t: Blocks, genesis: Root, fin: Finality, r: Root, period: nat)
    : seq<Update>
    requires cfg.Valid() && Tree(t, genesis) && r in t
    decreases t[r].slot
  {
    if r == genesis then []
    else
      var b, parent := t[r], t[t[r].parentRoot];
      Scan(cfg, tail, t, genesis, fin, b.parentRoot, period)
        + if Period(cfg, b.slot) == period && Qualifies(cfg, tail, b, parent) then [UpdateOf(fin, b, parent)] else []
  }

  function Improve(cfg: Config, best: Option<Update>, u: Update): Option<Update> {
    if best.None? || cfg.isBetter(u, best.value) then Some(u) else best
  }

  /** The best update of a list: each one replaces the best so far when it is better. */
  function FoldBest(cfg: Config, updates: seq<Update>): Option<Update> {
    if updates == [] then None
    else Improve(cfg, FoldBest(cfg, updates[..|updates| - 1]), updates[|updates| - 1])
  }

  lemma FoldBestNext(cfg: Config, updates: seq<Update>, u: Update)
    ensures FoldBest(cfg, updates + [u]) == Improve(cfg, FoldBest(cfg, updates), u)
  {
    assert (updates + [u])[..|updates|] == updates;
  }

  /** The best update of a block's period, by a full scan of its chain. */
  ghost function BestOf(cfg: Config, tail: nat, t: Blocks, genesis: Root, fin: Finality, r: Root): Option<Update>
    requires cfg.Valid() && Tree(t, genesis) && r in t
  {
    FoldBest(cfg, Scan(cfg, tail, t, genesis, fin, r, Period(cfg, t[r].slot)))
  }

  /** The most recent block of the chain of r that is signed by enough and whose parent is recent enough. */
  ghost function LastSigned(cfg: Config, tail: nat, t: Blocks, genesis: Root, r: Root): (s: Option<Root>)
    requires Tree(t, genesis) && r in t
    ensures s.Some? ==> s.value in t && s.value != genesis && t[s.value].slot <= t[r].slot
    decreases t[r].slot
  {
    if r == genesis then None
    else if t[t[r].parentRoot].slot >= tail && t[r].participants >= cfg.minParticipants then Some(r)
    else LastSigned(cfg, tail, t, genesis, t[r].parentRoot)
  }

  /** A chain contains no updates of a period later than its last block. */
  lemma {:induction false} ScanLater(
      cfg: Config, tail: nat, t: Blocks, genesis: Root, fin: Finality, r: Root, period: nat)
    requires cfg.Valid() && Tree(t, genesis) && r in t && Period(cfg, t[r].slot) < period
    ensures Scan(cfg, tail, t, genesis, fin, r, period) == []
    decreases t[r].slot
  {
    if r != genesis {
      PeriodMonotone(cfg, t[t[r].parentRoot].slot, t[r].slot);
      ScanLater(cfg, tail, t, genesis, fin, t[r].parentRoot, period);
    }
  }

  /** A chain that ends before the tail slot contains nothing to record. */
  lemma {:induction false} ScanBelowTail(
      cfg: Config, tail: nat, t: Blocks, genesis: Root, fin: Finality, r: Root, period: nat)
    requires cfg.Valid() && Tree(t, genesis) && r in t && t[r].slot < tail
    ensures Scan(cfg, tail, t, genesis, fin, r, period) == []
    ensures LastSigned(cfg, tail, t, genesis, r) == None
    decreases t[r].slot
  {
    if r != genesis {
      ScanBelowTail(cfg, tail, t, genesis, fin, t[r].parentRoot, period);
    }
  }

  /** Later blocks and later headers leave the scans of a chain alone. */
  lemma {:induction false} SameScan(
      cfg: Config, tail: nat, t: Blocks, u: Blocks, genesis: Root, fin: Finality, more: Finality, r: Root, period: nat)
    requires cfg.Valid() && Extends(t, u, genesis) && r in t
    requires Covered(cfg, tail, t, genesis, fin) && forall k :: k in fin ==> k in more && more[k] == fin[k]
    ensures Scan(cfg, tail, u, genesis, more, r, period) == Scan(cfg, tail, t, genesis, fin, r, period)
    decreases t[r].slot
  {
    hide Period;
    if r != genesis {
      SameScan(cfg, tail, t, u, genesis, fin, more, t[r].parentRoot, period);
    }
  }

  lemma {:induction false} SameLastSigned(cfg: Config, tail: nat, t: Blocks, u: Blocks, genesis: Root, r: Root)
    requires Extends(t, u, genesis) && r in t
    ensures LastSigned(cfg, tail, u, genesis, r) == LastSigned(cfg, tail, t, genesis, r)
    decreases t[r].slot
  {
    if r != genesis {
      SameLastSigned(cfg, tail, t, u, genesis, t[r].parentRoot);
    }
  }

  /** Only sufficiently signed updates are ever found. */
  lemma {:induction false} ScanParticipants(
      cfg: Config, tail: nat, t: Blocks, genesis: Root, fin: Finality, r: Root, period: nat)
    requires cfg.Valid() && Tree(t, genesis) && r in t
    ensures forall i :: 0 <= i < |Scan(cfg, tail, t, genesis, fin, r, period)| ==>
              Scan(cfg, tail, t, genesis, fin, r, period)[i].participants >= cfg.minParticipants
    decreases t[r].slot
  {
    if r != genesis {
      ScanParticipants(cfg, tail, t, genesis, fin, t[r].parentRoot, period);
    }
  }

  lemma {:induction false} FoldBestMember(cfg: Config, updates: seq<Update>)
    ensures FoldBest(cfg, updates).Some? <==> updates != []
    ensures updates != [] ==> FoldBest(cfg, updates).value in updates
  {
    if updates != [] {
      FoldBestMember(cfg, updates[..|updates| - 1]);
    }
  }

  // ----- The comparison -----

  /** A strict weak order: irreflexive, transitive, and with transitive incomparability. */
  ghost predicate StrictWeakOrder(better: (Update, Update) -> bool) {
    && (forall a :: !better(a, a))
    && (forall a, b, c :: better(a, b) && better(b, c) ==> better(a, c))
    && (forall a, b, c :: better(a, c) ==> better(a, b) || better(b, c))
  }

  /** Under a strict weak order the fold finds a best update, and among equally good ones the oldest. */
  lemma {:induction false} FoldBestIsBest(cfg: Config, updates: seq<Update>) returns (k: nat)
    requires StrictWeakOrder(cfg.isBetter) && updates != []
    ensures k < |updates| && FoldBest(cfg, updates) == Some(updates[k])
    ensures forall i :: 0 <= i < |updates| ==> !cfg.isBetter(updates[i], updates[k])
    ensures forall i :: 0 <= i < k ==> cfg.isBetter(updates[k], updates[i])
  {
    var n := |updates| - 1;
    if n == 0 {
      k := 0;
    } else {
      k := FoldBestIsBest(cfg, updates[..n]);
      if cfg.isBetter(updates[n], updates[k]) {
        forall i | 0 <= i < n ensures cfg.isBetter(updates[n], updates[i]) {
          var older, best, newer := updates[..n][i], updates[k], updates[n];
          assert !cfg.isBetter(older, best);
          assert cfg.isBetter(newer, older) || cfg.isBetter(older, best);
        }
        k := n;
      }
    }
  }
}
