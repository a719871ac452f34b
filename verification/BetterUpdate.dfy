/** The comparison of light client updates (`is_better_update` of the Altair sync protocol). */
module BetterUpdate {
  import opened BlockTree

  /** What the comparison looks at. `committeeSize` is the length of the participation bits. */
  datatype Facts = Facts(
    participants: nat, relevantCommittee: bool, finality: bool, committeeFinality: bool,
    attestedSlot: nat, signatureSlot: nat)

  predicate HasSupermajority(u: Facts, committeeSize: nat) {
    u.participants * 3 >= committeeSize * 2
  }

  predicate IsBetterUpdate(newer: Facts, older: Facts, committeeSize: nat) {
    var n, o := HasSupermajority(newer, committeeSize), HasSupermajority(older, committeeSize);
    if n != o then n
    else if !n && newer.participants != older.participants then newer.participants > older.participants
    else if newer.relevantCommittee != older.relevantCommittee then newer.relevantCommittee
    else if newer.finality != older.finality then newer.finality
    else if newer.finality && newer.committeeFinality != older.committeeFinality then newer.committeeFinality
    else if newer.participants != older.participants then newer.participants > older.participants
    else if newer.attestedSlot != older.attestedSlot then newer.attestedSlot < older.attestedSlot
    else newer.signatureSlot < older.signatureSlot
  }

  /** What counts, most important first: a supermajority, without one the participation, the committee of the right
      period, finality, finality in that period, the participation, and an early attested and signature slot. */
  function Merits(u: Facts, committeeSize: nat): seq<int> {
    var super, attested: int, signature: int := HasSupermajority(u, committeeSize), u.attestedSlot, u.signatureSlot;
    [if super then 1 else 0, if super then 0 else u.participants, if u.relevantCommittee then 1 else 0,
     if u.finality then 1 else 0, if u.finality && u.committeeFinality then 1 else 0, u.participants,
     -attested, -signature]
  }

  /** The first difference decides. */
  predicate Exceeds(a: seq<int>, b: seq<int>)
    requires |a| == |b|
    decreases |a|
  {
    a != [] && (a[0] > b[0] || (a[0] == b[0] && Exceeds(a[1..], b[1..])))
  }

  lemma {:induction false} FirstDifference(a: seq<int>, b: seq<int>, k: nat)
    requires |a| == |b| && k < |a| && a[..k] == b[..k] && a[k] != b[k]
    ensures Exceeds(a, b) <==> a[k] > b[k]
    decreases |a|
  {
    if k > 0 {
      assert a[..k][0] == a[0] && b[..k][0] == b[0];
      assert a[1..][..k - 1] == a[..k][1..] && b[1..][..k - 1] == b[..k][1..];
      FirstDifference(a[1..], b[1..], k - 1);
    }
  }

  lemma {:induction false} NoDifference(a: seq<int>)
    ensures !Exceeds(a, a)
    decreases |a|
  {
    if a != [] { NoDifference(a[1..]); }
  }

  /** The cascade decides at the first merit that differs. */
  lemma DecidedAt(newer: Facts, older: Facts, n: nat, k: nat)
    requires k < 8 && Merits(newer, n)[k] != Merits(older, n)[k]
    requires forall i :: 0 <= i < k ==> Merits(newer, n)[i] == Merits(older, n)[i]
    ensures IsBetterUpdate(newer, older, n) <==> Merits(newer, n)[k] > Merits(older, n)[k]
  {
    hide HasSupermajority;
    var a, b := Merits(newer, n), Merits(older, n);
    assert k > 0 ==> a[0] == b[0];
    assert k > 1 ==> a[1] == b[1];
    assert k > 2 ==> a[2] == b[2];
    assert k > 3 ==> a[3] == b[3];
    assert k > 4 ==> a[4] == b[4];
    assert k > 5 ==> a[5] == b[5];
    assert k > 6 ==> a[6] == b[6];
  }

  /** The cascade compares these merits lexicographically. */
  lemma ComparesMerits(newer: Facts, older: Facts, n: nat)
    ensures IsBetterUpdate(newer, older, n) <==> Exceeds(Merits(newer, n), Merits(older, n))
  {
    hide Exceeds, HasSupermajority;
    var a, b := Merits(newer, n), Merits(older, n);
    if a == b {
      NoDifference(a);
    } else {
      var k := FirstUnequal(a, b);
      FirstDifference(a, b, k);
      assert forall i :: 0 <= i < k ==> a[i] == a[..k][i] == b[..k][i] == b[i];
      DecidedAt(newer, older, n, k);
    }
  }

  /** The first position at which two lists differ. */
  lemma FirstUnequal(a: seq<int>, b: seq<int>) returns (k: nat)
    requires |a| == |b| && a != b
    ensures k < |a| && a[..k] == b[..k] && a[k] != b[k]
  {
    assert a == a[..|a|] && b == b[..|b|];
    k := 0;
    while k < |a| && a[k] == b[k]
      invariant k <= |a| && a[..k] == b[..k]
    {
      k := k + 1;
    }
  }

  lemma TieBreaks(a: Facts, b: Facts, c: Facts, n: nat)
    ensures !IsBetterUpdate(a, a, n)
    ensures IsBetterUpdate(a, b, n) && IsBetterUpdate(b, c, n) ==> IsBetterUpdate(a, c, n)
    ensures IsBetterUpdate(a, c, n) ==> IsBetterUpdate(a, b, n) || IsBetterUpdate(b, c, n)
  {
  }

  /** The cascade of tie breaks is a strict weak order, although two of its stages are conditional. */
  lemma IsStrictWeakOrder(facts: Update -> Facts, n: nat)
    ensures StrictWeakOrder((a, b) => IsBetterUpdate(facts(a), facts(b), n))
  {
    hide IsBetterUpdate;
    forall a, b, c
      ensures !IsBetterUpdate(facts(a), facts(a), n)
      ensures IsBetterUpdate(facts(a), facts(b), n) && IsBetterUpdate(facts(b), facts(c), n) ==>
        IsBetterUpdate(facts(a), facts(c), n)
      ensures IsBetterUpdate(facts(a), facts(c), n) ==>
        IsBetterUpdate(facts(a), facts(b), n) || IsBetterUpdate(facts(b), facts(c), n)
    {
      TieBreaks(facts(a), facts(b), facts(c), n);
    }
  }
}
