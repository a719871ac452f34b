/** Dependency ordering to a fixpoint (`pysetup/helpers.py` and the loop in `setup.py`). */
module DependencyOrder {
  import opened Ordering

  /** What each key depends on. */
  type Graph<K> = map<K, seq<K>>

  ghost predicate Closed<K>(graph: Graph<K>, keys: seq<K>) {
    && Distinct(keys)
    && (forall x :: x in keys ==> x in graph)
    && (forall x :: x in graph ==> x in keys)
    && (forall x :: x in graph ==> forall d :: d in graph[x] ==> d in graph)
  }

  /** One dependency to look at: `key` uses `dep`. */
  datatype Use<K> = Use(dep: K, key: K)

  function UsesOf<K>(key: K, deps: seq<K>): (uses: seq<Use<K>>)
    ensures |uses| == |deps| && forall i :: 0 <= i < |deps| ==> uses[i] == Use(deps[i], key)
  {
    if deps == [] then [] else [Use(deps[0], key)] + UsesOf(key, deps[1..])
  }

  /** The dependencies in the order a pass looks at them: by the keys of its snapshot. */
  function PassUses<K>(graph: Graph<K>, items: seq<K>): seq<Use<K>>
    requires forall x :: x in items ==> x in graph
  {
    if items == [] then [] else UsesOf(items[0], graph[items[0]]) + PassUses(graph, items[1..])
  }

  ghost predicate Legal<K>(s: seq<K>, uses: seq<Use<K>>) {
    forall i :: 0 <= i < |uses| ==> uses[i].dep in s && uses[i].key in s
  }

  function Apply<K(==)>(s: seq<K>, use: Use<K>): seq<K> {
    if use.dep in s && use.key in s then MoveAfter(s, use.dep, use.key) else s
  }

  /** The order after looking at a list of dependencies. */
  function ApplyAll<K(==)>(s: seq<K>, uses: seq<Use<K>>): seq<K>
    decreases |uses|
  {
    if uses == [] then s else ApplyAll(Apply(s, uses[0]), uses[1..])
  }

  function Pass<K(==)>(graph: Graph<K>, s: seq<K>): seq<K>
    requires forall x :: x in s ==> x in graph
  {
    ApplyAll(s, PassUses(graph, s))
  }

  /** Whether looking at this dependency changes the order. */
  predicate Moves<K(==)>(s: seq<K>, use: Use<K>) {
    use.dep in s && use.key in s && IndexOf(s, use.key) < IndexOf(s, use.dep)
  }

  /** The keys that a list of dependencies moves. */
  function Movers<K(==)>(s: seq<K>, uses: seq<Use<K>>): set<K>
    decreases |uses|
  {
    if uses == [] then {}
    else (if Moves(s, uses[0]) then {uses[0].key} else {}) + Movers(Apply(s, uses[0]), uses[1..])
  }

  lemma ApplyKeeps<K>(s: seq<K>, use: Use<K>)
    requires Distinct(s)
    ensures Distinct(Apply(s, use)) && multiset(Apply(s, use)) == multiset(s)
    ensures forall x :: x in Apply(s, use) <==> x in s
  {
    if use.dep in s && use.key in s {
      MoveKeeps(s, use.dep, use.key);
    }
  }

  lemma {:induction false} ApplyAllKeeps<K>(s: seq<K>, uses: seq<Use<K>>)
    requires Distinct(s)
    ensures Distinct(ApplyAll(s, uses)) && multiset(ApplyAll(s, uses)) == multiset(s)
    ensures forall x :: x in ApplyAll(s, uses) <==> x in s
    decreases |uses|
  {
    if uses != [] {
      ApplyKeeps(s, uses[0]);
      ApplyAllKeeps(Apply(s, uses[0]), uses[1..]);
    }
  }

  lemma ApplyBefore<K>(s: seq<K>, use: Use<K>, a: K, b: K)
    requires Distinct(s) && Before(s, a, b) && (a != use.key || !Moves(s, use))
    ensures Before(Apply(s, use), a, b)
  {
    if use.dep in s && use.key in s {
      MoveKeepsBefore(s, use.dep, use.key, a, b);
    }
  }

  /** A key that does not move keeps everything behind it behind it. */
  lemma {:induction false} StillBefore<K>(s: seq<K>, uses: seq<Use<K>>, a: K, b: K)
    requires Distinct(s) && Before(s, a, b) && a !in Movers(s, uses)
    ensures Before(ApplyAll(s, uses), a, b)
    decreases |uses|
  {
    if uses != [] {
      ApplyKeeps(s, uses[0]);
      ApplyBefore(s, uses[0], a, b);
      StillBefore(Apply(s, uses[0]), uses[1..], a, b);
    }
  }

  lemma FirstMover<K>(s: seq<K>, uses: seq<Use<K>>)
    requires uses != []
    ensures Moves(s, uses[0]) ==> uses[0].key in Movers(s, uses)
    ensures Movers(Apply(s, uses[0]), uses[1..]) <= Movers(s, uses)
  {
  }

  lemma {:induction false} NoMovers<K>(s: seq<K>, uses: seq<Use<K>>)
    requires Legal(s, uses) && Movers(s, uses) == {}
    ensures ApplyAll(s, uses) == s
    ensures forall i :: 0 <= i < |uses| ==> !Moves(s, uses[i])
    decreases |uses|
  {
    if uses != [] {
      FirstMover(s, uses);
      assert uses[0].dep in s && uses[0].key in s;
      assert Movers(s, uses) == Movers(Apply(s, uses[0]), uses[1..]);
      NoMovers(s, uses[1..]);
    }
  }

  // ----- Acyclic relations -----

  /** A rank that every dependency lowers: the relation is acyclic, and no chain is longer than the rank of its end. */
  ghost predicate Ranks<K>(rank: K -> nat, uses: seq<Use<K>>) {
    forall i :: 0 <= i < |uses| ==> rank(uses[i].dep) < rank(uses[i].key)
  }

  /** Every dependency precedes its user. */
  ghost predicate Sorted<K>(graph: Graph<K>, s: seq<K>) {
    forall x :: x in s && x in graph ==> forall d :: d in graph[x] ==> Before(s, d, x)
  }

  /** A mover of least rank ends behind a key that it started before. */
  lemma {:induction false} LeastMover<K>(s: seq<K>, uses: seq<Use<K>>, rank: K -> nat, x: K) returns (d: K)
    requires Distinct(s) && Legal(s, uses) && Ranks(rank, uses)
    requires x in Movers(s, uses) && forall y :: y in Movers(s, uses) ==> rank(x) <= rank(y)
    ensures rank(d) < rank(x) && Before(s, x, d) && Before(ApplyAll(s, uses), d, x)
    decreases |uses|
  {
    hide *;
    FirstUse(s, uses, rank, x);
    FirstMover(s, uses);
    var use, rest := uses[0], uses[1..];
    var s' := Apply(s, use);
    if use.key == x && Moves(s, use) {
      d := use.dep;
      FirstMove(s, use);
      StillBefore(s', rest, d, x);
    } else {
      d := LeastMover(s', rest, rank, x);
      WasBefore(s, use, d, x);
    }
  }

  lemma FirstUse<K>(s: seq<K>, uses: seq<Use<K>>, rank: K -> nat, x: K)
    requires Distinct(s) && Legal(s, uses) && Ranks(rank, uses) && x in Movers(s, uses)
    ensures uses != [] && rank(uses[0].dep) < rank(uses[0].key)
    ensures ApplyAll(s, uses) == ApplyAll(Apply(s, uses[0]), uses[1..])
    ensures x in Movers(Apply(s, uses[0]), uses[1..]) || (x == uses[0].key && Moves(s, uses[0]))
    ensures Distinct(Apply(s, uses[0])) && Legal(Apply(s, uses[0]), uses[1..]) && Ranks(rank, uses[1..])
  {
    hide Distinct, IndexOf, Moves, Apply;
    ApplyKeeps(s, uses[0]);
  }

  lemma FirstMove<K>(s: seq<K>, use: Use<K>)
    requires Distinct(s) && Moves(s, use)
    ensures Before(s, use.key, use.dep) && Before(Apply(s, use), use.dep, use.key)
  {
    hide Distinct;
    MoveEstablishes(s, use.dep, use.key);
  }

  lemma WasBefore<K>(s: seq<K>, use: Use<K>, d: K, x: K)
    requires Distinct(s) && Before(Apply(s, use), x, d) && (d != use.key || !Moves(s, use))
    ensures Before(s, x, d)
  {
    ApplyKeeps(s, use);
    if IndexOf(s, d) < IndexOf(s, x) {
      ApplyBefore(s, use, d, x);
    }
  }

  ghost function LeastRanked<K>(keys: set<K>, rank: K -> nat): (x: K)
    requires keys != {}
    ensures x in keys && forall y :: y in keys ==> rank(x) <= rank(y)
    decreases keys
  {
    var x :| x in keys;
    if keys == {x} then x
    else
      var y := LeastRanked(keys - {x}, rank);
      if rank(x) <= rank(y) then x else y
  }

  /** On an acyclic relation a pass that moves anything cannot end in the order it started from. */
  lemma MovesNeverCancel<K>(s: seq<K>, uses: seq<Use<K>>, rank: K -> nat)
    requires Distinct(s) && Legal(s, uses) && Ranks(rank, uses)
    ensures ApplyAll(s, uses) == s <==> Movers(s, uses) == {}
  {
    if Movers(s, uses) == {} {
      NoMovers(s, uses);
    } else {
      var d := LeastMover(s, uses, rank, LeastRanked(Movers(s, uses), rank));
    }
  }

  /** All dependencies of keys below a rank are in order. */
  ghost predicate Settled<K>(s: seq<K>, uses: seq<Use<K>>, rank: K -> nat, n: nat) {
    forall i :: 0 <= i < |uses| && rank(uses[i].key) < n ==> Before(s, uses[i].dep, uses[i].key)
  }

  lemma SettledStep<K>(s: seq<K>, all: seq<Use<K>>, rank: K -> nat, n: nat, use: Use<K>)
    requires Distinct(s) && Ranks(rank, all) && Settled(s, all, rank, n) && use in all
    ensures Settled(Apply(s, use), all, rank, n)
    ensures Moves(s, use) ==> rank(use.key) >= n
  {
    var j :| 0 <= j < |all| && all[j] == use;
    assert Moves(s, use) ==> rank(all[j].key) >= n;
    forall i | 0 <= i < |all| && rank(all[i].key) < n ensures Before(Apply(s, use), all[i].dep, all[i].key) {
      ApplyBefore(s, use, all[i].dep, all[i].key);
    }
  }

  /** Settled ranks stay settled, and none of their keys moves again. */
  lemma {:induction false} SettledStays<K>(s: seq<K>, all: seq<Use<K>>, rank: K -> nat, n: nat, uses: seq<Use<K>>)
    requires Distinct(s) && Ranks(rank, all) && Settled(s, all, rank, n)
    requires forall i :: 0 <= i < |uses| ==> uses[i] in all
    ensures Settled(ApplyAll(s, uses), all, rank, n)
    ensures forall x :: x in Movers(s, uses) ==> rank(x) >= n
    decreases |uses|
  {
    if uses != [] {
      ApplyKeeps(s, uses[0]);
      SettledStep(s, all, rank, n, uses[0]);
      SettledStays(Apply(s, uses[0]), all, rank, n, uses[1..]);
    }
  }

  /** Looking at a dependency of a key of rank n, with all lower ranks settled, puts it in order for good. */
  lemma {:induction false} SettlesUse<K>(s: seq<K>, all: seq<Use<K>>, rank: K -> nat, n: nat, uses: seq<Use<K>>, k: nat)
    requires Distinct(s) && Ranks(rank, all) && Settled(s, all, rank, n) && Legal(s, all)
    requires forall i :: 0 <= i < |uses| ==> uses[i] in all
    requires k < |uses| && rank(uses[k].key) == n
    ensures Before(ApplyAll(s, uses), uses[k].dep, uses[k].key)
    decreases |uses|
  {
    hide Distinct, IndexOf, MoveAfter, Moves;
    var s' := Apply(s, uses[0]);
    ApplyKeeps(s, uses[0]);
    SettledStep(s, all, rank, n, uses[0]);
    var j :| 0 <= j < |all| && all[j] == uses[k];
    if k == 0 {
      assert rank(all[j].dep) < rank(all[j].key);
      MoveEstablishes(s, uses[0].dep, uses[0].key);
      SettledStays(s', all, rank, n, uses[1..]);
      StillBefore(s', uses[1..], uses[0].dep, uses[0].key);
    } else {
      SettlesUse(s', all, rank, n, uses[1..], k - 1);
    }
  }

  /** One pass settles one more rank. */
  lemma PassSettles<K>(s: seq<K>, all: seq<Use<K>>, rank: K -> nat, n: nat, uses: seq<Use<K>>)
    requires Distinct(s) && Legal(s, all) && Ranks(rank, all) && Settled(s, all, rank, n)
    requires forall u :: u in uses <==> u in all
    ensures Settled(ApplyAll(s, uses), all, rank, n + 1)
  {
    SettledStays(s, all, rank, n, uses);
    forall i | 0 <= i < |all| && rank(all[i].key) < n + 1
      ensures Before(ApplyAll(s, uses), all[i].dep, all[i].key)
    {
      if rank(all[i].key) == n {
        assert all[i] in uses;
        var k :| 0 <= k < |uses| && uses[k] == all[i];
        SettlesUse(s, all, rank, n, uses, k);
      }
    }
  }

  // ----- Passes over a closed graph -----

  lemma {:induction false} PassUsesCover<K>(graph: Graph<K>, items: seq<K>, u: Use<K>)
    requires forall x :: x in items ==> x in graph
    ensures u in PassUses(graph, items) <==> u.key in items && u.dep in graph[u.key]
  {
    if items != [] {
      PassUsesCover(graph, items[1..], u);
      var first, rest := UsesOf(items[0], graph[items[0]]), PassUses(graph, items[1..]);
      assert u in first + rest <==> u in first || u in rest;
      if u.key == items[0] && u.dep in graph[u.key] {
        var i :| 0 <= i < |graph[u.key]| && graph[u.key][i] == u.dep;
        assert first[i] == u;
      }
    }
  }

  lemma PassUsesLegal<K>(graph: Graph<K>, keys: seq<K>, items: seq<K>)
    requires Closed(graph, keys) && forall x :: x in items ==> x in keys
    ensures Legal(keys, PassUses(graph, items))
  {
    var uses := PassUses(graph, items);
    forall i | 0 <= i < |uses| ensures uses[i].dep in keys && uses[i].key in keys {
      PassUsesCover(graph, items, uses[i]);
    }
  }

  /** A rank for the graph: every dependency of a key ranks below it. */
  ghost predicate Acyclic<K>(graph: Graph<K>, rank: K -> nat) {
    forall x :: x in graph ==> forall d :: d in graph[x] ==> rank(d) < rank(x)
  }

  lemma AcyclicRanks<K>(graph: Graph<K>, rank: K -> nat, items: seq<K>)
    requires Acyclic(graph, rank) && forall x :: x in items ==> x in graph
    ensures Ranks(rank, PassUses(graph, items))
  {
    var uses := PassUses(graph, items);
    forall i | 0 <= i < |uses| ensures rank(uses[i].dep) < rank(uses[i].key) {
      PassUsesCover(graph, items, uses[i]);
    }
  }

  lemma PassKeeps<K>(graph: Graph<K>, s: seq<K>)
    requires Closed(graph, s)
    ensures Closed(graph, Pass(graph, s)) && multiset(Pass(graph, s)) == multiset(s)
  {
    var uses := PassUses(graph, s);
    ApplyAllKeeps(s, uses);
    hide Distinct, ApplyAll, PassUses;
    var r := ApplyAll(s, uses);
    assert r == Pass(graph, s);
    assert Distinct(r);
    forall x | x in r ensures x in graph { assert x in s; }
    forall x | x in graph ensures x in r { assert x in s; }
  }

  lemma SortedByMoves<K>(graph: Graph<K>, s: seq<K>)
    requires Closed(graph, s) && forall x :: x in graph ==> x !in graph[x]
    ensures Sorted(graph, s) <==> forall u :: u in PassUses(graph, s) ==> !Moves(s, u)
  {
    hide PassUses, Distinct;
    if forall u :: u in PassUses(graph, s) ==> !Moves(s, u) {
      forall x, d | x in s && x in graph && d in graph[x] ensures Before(s, d, x) {
        PassUsesCover(graph, s, Use(d, x));
        assert d != x;
      }
    }
    if Sorted(graph, s) {
      forall u | u in PassUses(graph, s) ensures !Moves(s, u) {
        PassUsesCover(graph, s, u);
        assert Before(s, u.dep, u.key);
      }
    }
  }

  /** A fixpoint of an acyclic relation has every dependency before its user; and a sorted order is a fixpoint. */
  lemma FixpointIsSorted<K>(graph: Graph<K>, rank: K -> nat, s: seq<K>)
    requires Closed(graph, s) && Acyclic(graph, rank)
    ensures Pass(graph, s) == s <==> Sorted(graph, s)
  {
    var uses := PassUses(graph, s);
    PassUsesLegal(graph, s, s);
    AcyclicRanks(graph, rank, s);
    MovesNeverCancel(s, uses, rank);
    SortedByMoves(graph, s);
    if Pass(graph, s) == s {
      NoMovers(s, uses);
    } else if Sorted(graph, s) {
      NeverMoves(s, uses);
    }
  }

  lemma {:induction false} NeverMoves<K>(s: seq<K>, uses: seq<Use<K>>)
    requires Legal(s, uses) && forall u :: u in uses ==> !Moves(s, u)
    ensures ApplyAll(s, uses) == s
    decreases |uses|
  {
    if uses != [] {
      assert uses[0] in uses && uses[0].dep in s && uses[0].key in s;
      NeverMoves(s, uses[1..]);
    }
  }

  /** Only an acyclic relation has a sorted order: the position is a rank. */
  lemma SortedIsAcyclic<K>(graph: Graph<K>, s: seq<K>)
    requires Closed(graph, s) && Sorted(graph, s)
    ensures Acyclic(graph, (x: K) => if x in s then IndexOf(s, x) else 0)
  {
    forall x, d | x in graph && d in graph[x] ensures Before(s, d, x) {
      assert x in s;
    }
  }

  /** After the first p passes the ranks up to p are settled. */
  ghost predicate SettledGraph<K>(graph: Graph<K>, rank: K -> nat, s: seq<K>, n: nat)
    requires forall x :: x in s ==> x in graph
  {
    Settled(s, PassUses(graph, s), rank, n)
  }

  lemma SettledFirst<K>(graph: Graph<K>, rank: K -> nat, s: seq<K>)
    requires Closed(graph, s) && Acyclic(graph, rank)
    ensures SettledGraph(graph, rank, s, 1)
  {
    AcyclicRanks(graph, rank, s);
  }

  lemma SettledNext<K>(graph: Graph<K>, rank: K -> nat, s: seq<K>, n: nat)
    requires Closed(graph, s) && Acyclic(graph, rank) && SettledGraph(graph, rank, s, n)
    ensures Closed(graph, Pass(graph, s)) && SettledGraph(graph, rank, Pass(graph, s), n + 1)
    ensures forall x :: x in Movers(s, PassUses(graph, s)) ==> rank(x) >= n
  {
    var uses, r := PassUses(graph, s), Pass(graph, s);
    PassKeeps(graph, s);
    PassUsesLegal(graph, s, s);
    AcyclicRanks(graph, rank, s);
    PassSettles(s, uses, rank, n, uses);
    SettledStays(s, uses, rank, n, uses);
    SameUses(graph, s, r);
    SettledFor(r, uses, PassUses(graph, r), rank, n + 1);
  }

  lemma SameUses<K>(graph: Graph<K>, s: seq<K>, r: seq<K>)
    requires Closed(graph, s) && Closed(graph, r)
    ensures forall u :: u in PassUses(graph, r) ==> u in PassUses(graph, s)
  {
    forall u | u in PassUses(graph, r) ensures u in PassUses(graph, s) {
      PassUsesCover(graph, s, u);
      PassUsesCover(graph, r, u);
    }
  }

  lemma SettledFor<K>(s: seq<K>, all: seq<Use<K>>, some: seq<Use<K>>, rank: K -> nat, n: nat)
    requires Settled(s, all, rank, n) && forall u :: u in some ==> u in all
    ensures Settled(s, some, rank, n)
  {
    forall i | 0 <= i < |some| && rank(some[i].key) < n ensures Before(s, some[i].dep, some[i].key) {
      assert some[i] in some;
      var j :| 0 <= j < |all| && all[j] == some[i];
    }
  }

  /** The order after a number of passes. */
  ghost function Passes<K>(graph: Graph<K>, s: seq<K>, q: nat): (r: seq<K>)
    requires Closed(graph, s)
    ensures Closed(graph, r) && multiset(r) == multiset(s)
  {
    if q == 0 then s
    else
      var before := Passes(graph, s, q - 1);
      PassKeeps(graph, before);
      Pass(graph, before)
  }

  lemma {:induction false} SettledAfter<K>(graph: Graph<K>, rank: K -> nat, s: seq<K>, q: nat)
    requires Closed(graph, s) && Acyclic(graph, rank)
    ensures SettledGraph(graph, rank, Passes(graph, s, q), q + 1)
  {
    hide Closed, Acyclic, SettledGraph, Pass;
    if q == 0 {
      SettledFirst(graph, rank, s);
    } else {
      SettledAfter(graph, rank, s, q - 1);
      SettledNext(graph, rank, Passes(graph, s, q - 1), q);
    }
  }

  /** After pass r no key of rank r or less ever moves again: not in the pass that follows q passes, for any q from r
      on. */
  lemma NeverMovesAgain<K>(graph: Graph<K>, rank: K -> nat, s: seq<K>, r: nat, q: nat, x: K)
    requires Closed(graph, s) && Acyclic(graph, rank) && r <= q && rank(x) <= r
    ensures x !in Movers(Passes(graph, s, q), PassUses(graph, Passes(graph, s, q)))
  {
    hide Acyclic, SettledGraph, Pass, Movers;
    SettledAfter(graph, rank, s, q);
    SettledNext(graph, rank, Passes(graph, s, q), q + 1);
  }

  /** Once all ranks are settled a pass changes nothing. */
  lemma AllSettled<K>(graph: Graph<K>, rank: K -> nat, s: seq<K>, longest: nat)
    requires Closed(graph, s) && Acyclic(graph, rank) && SettledGraph(graph, rank, s, longest + 1)
    requires forall x :: x in graph ==> rank(x) <= longest
    ensures Pass(graph, s) == s
  {
    var uses := PassUses(graph, s);
    PassUsesLegal(graph, s, s);
    forall u | u in uses ensures !Moves(s, u) {
      PassUsesCover(graph, s, u);
      var i :| 0 <= i < |uses| && uses[i] == u;
      assert Before(s, uses[i].dep, uses[i].key);
    }
    NeverMoves(s, uses);
  }

  // ----- The dictionary and the two loops of the source -----

  /** Python's insertion-ordered dictionary. */
  class OrderedDict<K(==), V> {
    var keys: seq<K>
    var values: map<K, V>

    ghost predicate Valid()
      reads this
    {
      Distinct(keys) && (forall x :: x in keys ==> x in values) && (forall x :: x in values ==> x in keys)
    }

    constructor ()
      ensures Valid() && keys == []
    {
      keys, values := [], map[];
    }

    method Pop(key: K) returns (value: V)
      requires Valid() && key in keys
      modifies this
      ensures Valid() && keys == Remove(old(keys), key) && values == old(values) - {key}
      ensures value == old(values)[key]
    {
      value := values[key];
      RemoveKeeps(keys, key);
      keys, values := Remove(keys, key), values - {key};
    }

    method Put(key: K, value: V)
      requires Valid()
      modifies this
      ensures Valid() && values == old(values)[key := value]
      ensures keys == if key in old(keys) then old(keys) else old(keys) + [key]
    {
      if key !in values {
        keys := keys + [key];
      }
      values := values[key := value];
    }
  }

  lemma CutKeeps<K>(s: seq<K>, i: nat)
    requires Distinct(s) && i < |s|
    ensures
      var r := s[..i] + s[i + 1..];
      Distinct(r) && s[i] !in r && forall y :: y in r <==> y in s && y != s[i]
  {
    var r := s[..i] + s[i + 1..];
    assert forall j :: 0 <= j < |r| ==> r[j] == s[if j < i then j else j + 1];
    forall y | y in s && y != s[i] ensures y in r {
      var j :| 0 <= j < |s| && s[j] == y;
      assert r[if j < i then j else j - 1] == y;
    }
  }

  lemma RemoveKeeps<K>(s: seq<K>, x: K)
    requires Distinct(s) && x in s
    ensures Distinct(Remove(s, x)) && x !in Remove(s, x)
    ensures forall y :: y in Remove(s, x) <==> y in s && y != x
  {
    hide IndexOf, Distinct;
    CutKeeps(s, IndexOf(s, x));
  }

  function GraphOf<K, V>(values: map<K, V>, deps: V -> seq<K>): Graph<K> {
    map k | k in values :: deps(values[k])
  }

  /** Moves one item to the end, as `objects[item] = objects.pop(item)` does. */
  method Reinsert<K(==), V>(objects: OrderedDict<K, V>, item: K)
    requires objects.Valid() && item in objects.keys
    modifies objects
    ensures objects.Valid() && objects.values == old(objects.values)
    ensures objects.keys == MoveToEnd(old(objects.keys), item)
  {
    RemoveKeeps(objects.keys, item);
    var value := objects.Pop(item);
    objects.Put(item, value);
  }

  /** One dependency of one key. */
  method OrderOne<K(==), V>(objects: OrderedDict<K, V>, dep: K, key: K)
    requires objects.Valid() && dep in objects.keys && key in objects.keys
    modifies objects
    ensures objects.Valid() && objects.values == old(objects.values)
    ensures objects.keys == MoveAfter(old(objects.keys), dep, key)
  {
    hide IndexOf, Distinct, MoveAfter;
    ghost var start := objects.keys;
    var items := PoppedItems(objects.keys, dep, key);
    SourceMove(start, dep, key);
    for i := 0 to |items|
      invariant objects.Valid() && objects.values == old(objects.values)
      invariant MoveAllToEnd(start, items) == MoveAllToEnd(objects.keys, items[i..])
    {
      assert items[i..][1..] == items[i + 1..];
      Reinsert(objects, items[i]);
    }
  }

  lemma {:induction false} ApplyAllAppend<K>(s: seq<K>, first: seq<Use<K>>, second: seq<Use<K>>)
    ensures ApplyAll(s, first + second) == ApplyAll(ApplyAll(s, first), second)
    decreases |first|
  {
    if first == [] {
      assert first + second == second;
    } else {
      assert (first + second)[1..] == first[1..] + second;
      ApplyAllAppend(Apply(s, first[0]), first[1..], second);
    }
  }

  lemma {:induction false} UsesOfAppend<K>(key: K, deps: seq<K>, d: K)
    ensures UsesOf(key, deps + [d]) == UsesOf(key, deps) + [Use(d, key)]
  {
    if deps == [] {
      assert deps + [d] == [d] && [d][1..] == [];
    } else {
      assert (deps + [d])[1..] == deps[1..] + [d];
      UsesOfAppend(key, deps[1..], d);
    }
  }

  /** All others keep their order, the key stands behind all its dependencies, and if it moved, right behind one of
      them, the last. */
  ghost predicate BehindLast<K>(s: seq<K>, r: seq<K>, key: K, deps: seq<K>)
    requires key in s && forall d :: d in deps ==> d in s
  {
    && Distinct(r) && key in r && Remove(r, key) == Remove(s, key)
    && (forall d :: d in deps && d != key ==> Before(r, d, key))
    && (r != s ==> exists d :: d in deps && RightBehind(r, d, key))
    && ((forall d :: d in deps ==> IndexOf(s, d) <= IndexOf(s, key)) ==> r == s)
  }

  ghost predicate RightBehind<K>(r: seq<K>, d: K, key: K) {
    d in r && key in r && IndexOf(r, key) == IndexOf(r, d) + 1
  }

  /** Where the inner loop leaves its key, whatever the order of the dependencies. */
  lemma {:induction false} KeyBehindLast<K>(s: seq<K>, key: K, deps: seq<K>)
    requires Distinct(s) && key in s && forall d :: d in deps ==> d in s
    ensures BehindLast(s, ApplyAll(s, UsesOf(key, deps)), key, deps)
    decreases |deps|
  {
    hide Distinct, IndexOf, Remove, MoveAfter;
    if deps != [] {
      var init, d := deps[..|deps| - 1], deps[|deps| - 1];
      assert deps == init + [d];
      KeyBehindLast(s, key, init);
      UsesOfAppend(key, init, d);
      ApplyAllAppend(s, UsesOf(key, init), [Use(d, key)]);
      ApplyAllKeeps(s, UsesOf(key, init));
      OneUse(ApplyAll(s, UsesOf(key, init)), Use(d, key));
      BehindOneMore(s, ApplyAll(s, UsesOf(key, init)), key, init, d);
    }
  }

  lemma BehindOneMore<K>(s: seq<K>, before: seq<K>, key: K, init: seq<K>, d: K)
    requires key in s && d in s && (forall c :: c in init ==> c in s) && d in before && key in before
    requires BehindLast(s, before, key, init)
    ensures BehindLast(s, MoveAfter(before, d, key), key, init + [d])
  {
    hide Distinct, IndexOf, Remove, MoveAfter;
    var r, deps := MoveAfter(before, d, key), init + [d];
    assert forall c :: c in deps <==> c in init || c == d;
    MoveKeeps(before, d, key);
    MovedRightBehind(before, d, key);
    forall c | c in deps && c != key ensures Before(r, c, key) {
      if c in init {
        MoveKeepsBefore(before, d, key, c, key);
      } else {
        MoveEstablishes(before, d, key);
      }
    }
    assert r == before || RightBehind(r, d, key);
  }

  lemma OneUse<K>(s: seq<K>, use: Use<K>)
    ensures ApplyAll(s, [use]) == Apply(s, use)
  {
    assert [use][1..] == [];
  }

  /** A pass takes the keys in the order of its snapshot, and for each its dependencies in their order. */
  lemma {:induction false} PassUsesInOrder<K>(graph: Graph<K>, first: seq<K>, key: K, rest: seq<K>)
    requires forall x :: x in first + [key] + rest ==> x in graph
    ensures forall x :: x in first || x == key || x in rest ==> x in graph
    ensures PassUses(graph, first + [key] + rest)
         == PassUses(graph, first) + UsesOf(key, graph[key]) + PassUses(graph, rest)
  {
    assert forall x :: x in first || x == key || x in rest ==> x in first + [key] + rest;
    var all := first + [key] + rest;
    if first == [] {
      assert all == [key] + rest && all[1..] == rest;
      assert PassUses(graph, first) == [] && [] + UsesOf(key, graph[key]) == UsesOf(key, graph[key]);
    } else {
      assert all[0] == first[0] && all[1..] == first[1..] + [key] + rest;
      PassUsesInOrder(graph, first[1..], key, rest);
    }
  }

  /** The inner loop: every dependency of one key. */
  method OrderKey<K(==), V>(objects: OrderedDict<K, V>, key: K, dependencies: seq<K>)
    requires objects.Valid() && key in objects.keys
    requires forall d :: d in dependencies ==> d in objects.keys
    modifies objects
    ensures objects.Valid() && objects.values == old(objects.values)
    ensures objects.keys == ApplyAll(old(objects.keys), UsesOf(key, dependencies))
  {
    for j := 0 to |dependencies|
      invariant objects.Valid() && objects.values == old(objects.values)
      invariant ApplyAll(old(objects.keys), UsesOf(key, dependencies))
             == ApplyAll(objects.keys, UsesOf(key, dependencies[j..]))
    {
      assert dependencies[j..][1..] == dependencies[j + 1..];
      assert UsesOf(key, dependencies[j..])[1..] == UsesOf(key, dependencies[j + 1..]);
      assert dependencies[j] in dependencies;
      OrderOne(objects, dependencies[j], key);
    }
  }

  /** One pass: for every key of the snapshot and every dependency of its value. */
  method DependencyOrderClassObjects<K(==), V>(objects: OrderedDict<K, V>, deps: V -> seq<K>)
    requires objects.Valid() && Closed(GraphOf(objects.values, deps), objects.keys)
    modifies objects
    ensures objects.Valid() && objects.values == old(objects.values)
    ensures objects.keys == Pass(GraphOf(objects.values, deps), old(objects.keys))
  {
    hide ApplyAll, Apply, UsesOf, Distinct;
    var items := objects.keys;
    ghost var graph := GraphOf(objects.values, deps);
    for i := 0 to |items|
      invariant objects.Valid() && objects.values == old(objects.values)
      invariant Pass(graph, items) == ApplyAll(objects.keys, PassUses(graph, items[i..]))
    {
      var key := items[i];
      assert items[i..][1..] == items[i + 1..];
      assert forall d :: d in graph[key] ==> d in graph;
      ApplyAllAppend(objects.keys, UsesOf(key, graph[key]), PassUses(graph, items[i + 1..]));
      OrderKey(objects, key, deps(objects.values[key]));
    }
    ApplyNone(objects.keys);
  }

  lemma ApplyNone<K>(s: seq<K>)
    ensures ApplyAll(s, []) == s
  {
  }

  /** The loop of `build_spec`: passes until the dictionary equals its copy from before the pass. */
  method OrderToFixpoint<K(==), V(==)>(objects: OrderedDict<K, V>, deps: V -> seq<K>, ghost rank: K -> nat,
      ghost longest: nat)
    returns (ghost passes: nat)
    requires objects.Valid() && Closed(GraphOf(objects.values, deps), objects.keys)
    requires Acyclic(GraphOf(objects.values, deps), rank)
    requires forall x :: x in objects.values ==> rank(x) <= longest
    modifies objects
    ensures objects.Valid() && objects.values == old(objects.values)
    ensures multiset(objects.keys) == multiset(old(objects.keys))
    ensures Sorted(GraphOf(objects.values, deps), objects.keys)
    ensures Pass(GraphOf(objects.values, deps), objects.keys) == objects.keys
    ensures passes <= longest + 1
  {
    ghost var graph := GraphOf(objects.values, deps);
    var newKeys: seq<K>, newValues: map<K, V> := [], map[];
    passes := 0;
    SettledFirst(graph, rank, objects.keys);
    while newKeys != objects.keys || newValues != objects.values
      invariant objects.Valid() && objects.values == old(objects.values) && passes <= longest + 1
      invariant Closed(graph, objects.keys) && multiset(objects.keys) == multiset(old(objects.keys))
      invariant SettledGraph(graph, rank, objects.keys, passes + 1)
      invariant passes == 0 ==> newKeys == []
      invariant passes > 0 ==>
        && newValues == objects.values && Closed(graph, newKeys)
        && SettledGraph(graph, rank, newKeys, passes) && objects.keys == Pass(graph, newKeys)
      decreases longest + 1 - passes
    {
      if passes == longest + 1 {
        AllSettled(graph, rank, newKeys, longest);
        assert false;
      }
      newKeys, newValues := objects.keys, objects.values;
      SettledNext(graph, rank, objects.keys, passes + 1);
      PassKeeps(graph, objects.keys);
      DependencyOrderClassObjects(objects, deps);
      passes := passes + 1;
    }
    FixpointIsSorted(graph, rank, objects.keys);
  }

  /** On a cycle the loop of the source stops after one pass, in an order that no pass improves and that is
      not sorted: the two moves of the pass undo each other. */
  lemma CycleStopsUnsorted(a: int, b: int)
    requires a != b
    ensures Closed(map[a := [b], b := [a]], [a, b])
    ensures Movers([a, b], PassUses(map[a := [b], b := [a]], [a, b])) == {a, b}
    ensures Pass(map[a := [b], b := [a]], [a, b]) == [a, b]
    ensures !Sorted(map[a := [b], b := [a]], [a, b])
  {
    var graph := map[a := [b], b := [a]];
    var ab, ba, first, second := [a, b], [b, a], Use(b, a), Use(a, b);
    assert ab[1..] == [b] && ba[1..] == [a];
    assert UsesOf(a, [b]) == [first] && UsesOf(b, [a]) == [second];
    assert PassUses(graph, [b]) == [second];
    var uses := [first, second];
    assert PassUses(graph, ab) == uses;
    assert uses[1..] == [second];
    SwapsTwo(a, b);
    SwapsTwo(b, a);
    assert ApplyAll(ba, [second]) == ab && Movers(ba, [second]) == {b};
    assert !Before(ab, b, a);
  }

  /** With two keys the first one moves behind the second. */
  lemma SwapsTwo(a: int, b: int)
    requires a != b
    ensures IndexOf([a, b], a) == 0 && IndexOf([a, b], b) == 1
    ensures Apply([a, b], Use(b, a)) == [b, a] && Movers([b, a], []) == {} && ApplyAll([b, a], []) == [b, a]
  {
    assert [a, b][1..] == [b];
  }
}
