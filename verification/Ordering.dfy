/** The order of keys under the moves of `dependency_order_class_objects`, on values. */
module Ordering {

  ghost predicate Distinct<K>(s: seq<K>) {
    forall i, j :: 0 <= i < j < |s| ==> s[i] != s[j]
  }

  function IndexOf<K(==)>(s: seq<K>, x: K): (i: nat)
    requires x in s
    ensures i < |s| && s[i] == x
  {
    if s[0] == x then 0 else 1 + IndexOf(s[1..], x)
  }

  lemma {:induction false} IndexUnique<K>(s: seq<K>, i: nat)
    requires Distinct(s) && i < |s|
    ensures IndexOf(s, s[i]) == i
  {
    var j := IndexOf(s, s[i]);
    assert i == j;
  }

  ghost predicate Before<K>(s: seq<K>, a: K, b: K) {
    a in s && b in s && IndexOf(s, a) < IndexOf(s, b)
  }

  /** The sequence with the element at position k carried right, to position d. */
  function CarryRight<K>(s: seq<K>, k: nat, d: nat): (r: seq<K>)
    requires k < d < |s|
    ensures |r| == |s|
  {
    s[..k] + s[k + 1..d + 1] + [s[k]] + s[d + 1..]
  }

  /** Where the element at position i of the result came from. */
  function Origin(i: nat, k: nat, d: nat): nat
    requires k < d
  {
    if i < k || i > d then i else if i < d then i + 1 else k
  }

  /** Where the element at position i of the argument went. */
  function Target(i: nat, k: nat, d: nat): nat
    requires k < d
  {
    if i < k || i > d then i else if i == k then d else i - 1
  }

  lemma CarryElement<K>(s: seq<K>, k: nat, d: nat, i: nat)
    requires k < d < |s| && i < |s|
    ensures CarryRight(s, k, d)[i] == s[Origin(i, k, d)] && CarryRight(s, k, d)[Target(i, k, d)] == s[i]
  {
  }

  lemma CarryKeeps<K>(s: seq<K>, k: nat, d: nat)
    requires k < d < |s| && Distinct(s)
    ensures Distinct(CarryRight(s, k, d)) && multiset(CarryRight(s, k, d)) == multiset(s)
  {
    var r := CarryRight(s, k, d);
    forall i, j | 0 <= i < j < |r| ensures r[i] != r[j] {
      CarryElement(s, k, d, i);
      CarryElement(s, k, d, j);
    }
    assert s == s[..k] + [s[k]] + s[k + 1..d + 1] + s[d + 1..];
  }

  /** The move of the source, in one piece: a key that stands before its dependency goes right behind it. */
  function MoveAfter<K(==)>(s: seq<K>, dep: K, key: K): seq<K>
    requires dep in s && key in s
  {
    var d, k := IndexOf(s, dep), IndexOf(s, key);
    if d <= k then s else CarryRight(s, k, d)
  }

  lemma MoveKeeps<K>(s: seq<K>, dep: K, key: K)
    requires Distinct(s) && dep in s && key in s
    ensures multiset(MoveAfter(s, dep, key)) == multiset(s) && Distinct(MoveAfter(s, dep, key))
    ensures forall x :: x in MoveAfter(s, dep, key) <==> x in s
  {
    var r := MoveAfter(s, dep, key);
    if IndexOf(s, key) < IndexOf(s, dep) {
      CarryKeeps(s, IndexOf(s, key), IndexOf(s, dep));
    }
    assert forall x :: x in r <==> x in multiset(r);
    assert forall x :: x in s <==> x in multiset(s);
  }

  lemma MovedIndex<K>(s: seq<K>, dep: K, key: K, x: K)
    requires Distinct(s) && dep in s && key in s && x in s && IndexOf(s, key) < IndexOf(s, dep)
    ensures x in MoveAfter(s, dep, key)
    ensures IndexOf(MoveAfter(s, dep, key), x) == Target(IndexOf(s, x), IndexOf(s, key), IndexOf(s, dep))
  {
    hide CarryRight;
    var k, d, i := IndexOf(s, key), IndexOf(s, dep), IndexOf(s, x);
    CarryElement(s, k, d, i);
    CarryKeeps(s, k, d);
    IndexUnique(CarryRight(s, k, d), Target(i, k, d));
  }

  /** A move only carries its key to the right: everything before something else stays before it,
      unless it is the key itself. */
  lemma MoveKeepsBefore<K>(s: seq<K>, dep: K, key: K, a: K, b: K)
    requires Distinct(s) && dep in s && key in s && Before(s, a, b)
    requires a != key || IndexOf(s, dep) <= IndexOf(s, key)
    ensures Before(MoveAfter(s, dep, key), a, b)
  {
    if IndexOf(s, key) < IndexOf(s, dep) {
      MovedIndex(s, dep, key, a);
      MovedIndex(s, dep, key, b);
    }
  }

  lemma MoveEstablishes<K>(s: seq<K>, dep: K, key: K)
    requires Distinct(s) && dep in s && key in s && dep != key
    ensures Before(MoveAfter(s, dep, key), dep, key)
  {
    if IndexOf(s, key) < IndexOf(s, dep) {
      MovedIndex(s, dep, key, dep);
      MovedIndex(s, dep, key, key);
    }
  }

  // ----- The same move, as the source performs it: by popping and reinserting -----

  function Remove<K(==)>(s: seq<K>, x: K): seq<K> {
    if x in s then s[..IndexOf(s, x)] + s[IndexOf(s, x) + 1..] else s
  }

  /** Where a moved key goes: right behind its dependency, with the order of all others unchanged. */
  lemma MovedRightBehind<K>(s: seq<K>, dep: K, key: K)
    requires Distinct(s) && dep in s && key in s
    ensures IndexOf(s, dep) <= IndexOf(s, key) ==> MoveAfter(s, dep, key) == s
    ensures IndexOf(s, key) < IndexOf(s, dep) ==>
      && dep in MoveAfter(s, dep, key) && key in MoveAfter(s, dep, key)
      && IndexOf(MoveAfter(s, dep, key), key) == IndexOf(MoveAfter(s, dep, key), dep) + 1
    ensures Remove(MoveAfter(s, dep, key), key) == Remove(s, key)
  {
    hide CarryRight, IndexOf, Distinct, Remove;
    var k, d := IndexOf(s, key), IndexOf(s, dep);
    if k < d {
      MovedIndex(s, dep, key, dep);
      MovedIndex(s, dep, key, key);
      OthersKeep(s, dep, key);
    }
  }

  lemma OthersKeep<K>(s: seq<K>, dep: K, key: K)
    requires Distinct(s) && dep in s && key in s && IndexOf(s, key) < IndexOf(s, dep)
    ensures Remove(MoveAfter(s, dep, key), key) == Remove(s, key)
  {
    hide CarryRight, IndexOf, Distinct;
    MovedIndex(s, dep, key, key);
    CutCarried(s, IndexOf(s, key), IndexOf(s, dep));
  }

  lemma CutCarried<K>(s: seq<K>, k: nat, d: nat)
    requires k < d < |s|
    ensures CarryRight(s, k, d)[..d] + CarryRight(s, k, d)[d + 1..] == s[..k] + s[k + 1..]
  {
    var r := CarryRight(s, k, d);
    assert r[..d] == s[..k] + s[k + 1..d + 1];
    assert r[d + 1..] == s[d + 1..];
    assert s[k + 1..] == s[k + 1..d + 1] + s[d + 1..];
  }

  function MoveToEnd<K(==)>(s: seq<K>, x: K): seq<K> {
    Remove(s, x) + [x]
  }

  function MoveAllToEnd<K(==)>(s: seq<K>, items: seq<K>): seq<K>
    decreases |items|
  {
    if items == [] then s else MoveAllToEnd(MoveToEnd(s, items[0]), items[1..])
  }

  lemma RotatedDistinct<K>(a: seq<K>, x: K, b: seq<K>)
    requires Distinct(a + [x] + b)
    ensures Distinct(a + b + [x])
  {
    hide Distinct;
    var s := a + [x] + b;
    if b == [] {
      assert s == a + b + [x];
    } else {
      CarryKeeps(s, |a|, |s| - 1);
      assert s[..|a|] == a && s[|a| + 1..|s|] == b && s[|s|..] == [];
      assert CarryRight(s, |a|, |s| - 1) == a + b + [x] + [] == a + b + [x];
    }
  }

  lemma MoveMiddleToEnd<K>(a: seq<K>, x: K, b: seq<K>)
    requires Distinct(a + [x] + b)
    ensures MoveToEnd(a + [x] + b, x) == a + b + [x] && Distinct(a + b + [x])
  {
    hide Distinct;
    var s := a + [x] + b;
    assert s[|a|] == x;
    IndexUnique(s, |a|);
    assert s[..|a|] == a && s[|a| + 1..] == b;
    RotatedDistinct(a, x, b);
  }

  lemma MoveOne<K>(s: seq<K>, x: K, rest: seq<K>)
    ensures MoveAllToEnd(s, [x] + rest) == MoveAllToEnd(MoveToEnd(s, x), rest)
  {
    assert ([x] + rest)[1..] == rest;
  }

  /** Moving a whole block to the end, element by element, rotates it past what follows. */
  lemma {:induction false} RotateBlock<K>(a: seq<K>, block: seq<K>, b: seq<K>)
    requires Distinct(a + block + b)
    ensures MoveAllToEnd(a + block + b, block) == a + b + block && Distinct(a + b + block)
    decreases |block|
  {
    hide MoveToEnd, Distinct, MoveAllToEnd;
    if block == [] {
      MoveNone(a + block + b);
      assert a + block + b == a + b + block;
    } else {
      var x, rest := block[0], block[1..];
      assert block == [x] + rest;
      Reassociate(a, [x], rest, b);
      MoveOne(a + block + b, x, rest);
      MoveMiddleToEnd(a, x, rest + b);
      Reassociate(a, rest, b, [x]);
      RotateBlock(a, rest, b + [x]);
      Reassociate(a, b, [x], rest);
    }
  }

  lemma MoveNone<K>(s: seq<K>)
    ensures MoveAllToEnd(s, []) == s
  {
  }

  lemma Reassociate<K>(a: seq<K>, b: seq<K>, c: seq<K>, d: seq<K>)
    ensures a + (b + c) + d == a + b + (c + d)
    ensures a + b + c + d == a + b + (c + d)
  {
  }

  lemma {:induction false} MoveAllSplit<K>(s: seq<K>, first: seq<K>, second: seq<K>)
    ensures MoveAllToEnd(s, first + second) == MoveAllToEnd(MoveAllToEnd(s, first), second)
    decreases |first|
  {
    if first == [] {
      assert first + second == second;
    } else {
      assert (first + second)[1..] == first[1..] + second;
      MoveAllSplit(MoveToEnd(s, first[0]), first[1..], second);
    }
  }

  /** The key stands somewhere behind its dependency. */
  lemma BehindRestores<K>(a: seq<K>, dep: K, c1: seq<K>, key: K, c2: seq<K>)
    requires Distinct(a + [dep] + (c1 + [key] + c2))
    ensures MoveAllToEnd(a + [dep] + (c1 + [key] + c2), [dep] + ([key] + (c1 + ([key] + c2))))
         == a + [dep] + (c1 + [key] + c2)
  {
    hide MoveToEnd, Distinct, MoveAllToEnd;
    var s0 := a + [dep] + (c1 + [key] + c2);
    MoveOne(s0, dep, [key] + (c1 + ([key] + c2)));
    MoveMiddleToEnd(a, dep, c1 + [key] + c2);
    var s1 := (a + c1) + [key] + (c2 + [dep]);
    assert a + (c1 + [key] + c2) + [dep] == s1;
    MoveOne(s1, key, c1 + ([key] + c2));
    MoveMiddleToEnd(a + c1, key, c2 + [dep]);
    var s2 := a + c1 + (c2 + [dep] + [key]);
    assert (a + c1) + (c2 + [dep]) + [key] == s2;
    MoveAllSplit(s2, c1, [key] + c2);
    RotateBlock(a, c1, c2 + [dep] + [key]);
    var s3 := (a + c2 + [dep]) + [key] + c1;
    assert a + (c2 + [dep] + [key]) + c1 == s3;
    MoveOne(s3, key, c2);
    MoveMiddleToEnd(a + c2 + [dep], key, c1);
    var s4 := a + c2 + ([dep] + c1 + [key]);
    assert (a + c2 + [dep]) + c1 + [key] == s4;
    RotateBlock(a, c2, [dep] + c1 + [key]);
    assert a + ([dep] + c1 + [key]) + c2 == s0;
  }

  /** The key stands somewhere before its dependency. */
  lemma BeforeMoves<K>(a1: seq<K>, key: K, a2: seq<K>, dep: K, c: seq<K>)
    requires Distinct((a1 + [key] + a2) + [dep] + c)
    ensures MoveAllToEnd((a1 + [key] + a2) + [dep] + c, [dep] + ([key] + c)) == a1 + a2 + [dep] + [key] + c
  {
    hide MoveToEnd, Distinct, MoveAllToEnd;
    var s0 := (a1 + [key] + a2) + [dep] + c;
    MoveOne(s0, dep, [key] + c);
    MoveMiddleToEnd(a1 + [key] + a2, dep, c);
    var s1 := a1 + [key] + (a2 + c + [dep]);
    assert (a1 + [key] + a2) + c + [dep] == s1;
    MoveOne(s1, key, c);
    MoveMiddleToEnd(a1, key, a2 + c + [dep]);
    var s2 := (a1 + a2) + c + ([dep] + [key]);
    assert a1 + (a2 + c + [dep]) + [key] == s2;
    RotateBlock(a1 + a2, c, [dep] + [key]);
    assert (a1 + a2) + ([dep] + [key]) + c == a1 + a2 + [dep] + [key] + c;
  }

  /** The key is its own dependency. */
  lemma SelfRestores<K>(a: seq<K>, dep: K, c: seq<K>)
    requires Distinct(a + [dep] + c)
    ensures MoveAllToEnd(a + [dep] + c, [dep] + ([dep] + c)) == a + [dep] + c
  {
    hide MoveToEnd, Distinct, MoveAllToEnd;
    MoveOne(a + [dep] + c, dep, [dep] + c);
    MoveMiddleToEnd(a, dep, c);
    assert a + c + [dep] == (a + c) + [dep] + [];
    MoveOne(a + c + [dep], dep, c);
    MoveMiddleToEnd(a + c, dep, []);
    assert (a + c) + [] + [dep] == a + c + [dep];
    RotateBlock(a, c, [dep]);
  }

  lemma SplitAt<K>(s: seq<K>, i: nat)
    requires i < |s|
    ensures s == s[..i] + [s[i]] + s[i + 1..]
  {
  }

  /** The items popped for one dependency: itself, its user, and every key that stood behind it. */
  function PoppedItems<K(==)>(s: seq<K>, dep: K, key: K): seq<K>
    requires dep in s
  {
    [dep] + ([key] + s[IndexOf(s, dep) + 1..])
  }

  lemma SourceMoveBehind<K>(s: seq<K>, d: nat, k: nat)
    requires Distinct(s) && d < k < |s|
    ensures MoveAllToEnd(s, [s[d]] + ([s[k]] + s[d + 1..])) == s
  {
    hide MoveToEnd, Distinct, MoveAllToEnd;
    var c, i := s[d + 1..], k - d - 1;
    SplitAt(s, d);
    SplitAt(c, i);
    BehindRestores(s[..d], s[d], c[..i], s[k], c[i + 1..]);
    assert c[..i] + ([s[k]] + c[i + 1..]) == c[..i] + [s[k]] + c[i + 1..];
  }

  lemma SourceMoveBefore<K>(s: seq<K>, d: nat, k: nat)
    requires Distinct(s) && k < d < |s|
    ensures MoveAllToEnd(s, [s[d]] + ([s[k]] + s[d + 1..])) == CarryRight(s, k, d)
  {
    hide MoveToEnd, Distinct, MoveAllToEnd;
    var a := s[..d];
    SplitAt(s, d);
    SplitAt(a, k);
    BeforeMoves(a[..k], s[k], a[k + 1..], s[d], s[d + 1..]);
    assert a[k + 1..] + [s[d]] == s[k + 1..d + 1];
    assert CarryRight(s, k, d) == a[..k] + a[k + 1..] + [s[d]] + [s[k]] + s[d + 1..];
  }

  /** The pops and reinsertions of the source amount to one move, or to none. */
  lemma SourceMove<K>(s: seq<K>, dep: K, key: K)
    requires Distinct(s) && dep in s && key in s
    ensures MoveAllToEnd(s, PoppedItems(s, dep, key)) == MoveAfter(s, dep, key)
  {
    hide MoveToEnd, Distinct, MoveAllToEnd, CarryRight;
    var d, k := IndexOf(s, dep), IndexOf(s, key);
    if k == d {
      SplitAt(s, d);
      SelfRestores(s[..d], dep, s[d + 1..]);
    } else if d < k {
      SourceMoveBehind(s, d, k);
    } else {
      SourceMoveBefore(s, d, k);
    }
  }
}
