/** Mutated test vectors (`mutation_operators.py`) and their conversion to events (`test_case.py`). */
module Mutation {
  import opened Wrappers

  datatype Payload = Payload(kind: string, data: nat)

  /** A message and the time it is delivered at; `None` before the first tick. */
  datatype Entry = Entry(time: Option<int>, payload: Payload)

  type TestVector = seq<Entry>

  ghost predicate Timed(tv: TestVector) {
    forall i :: 0 <= i < |tv| ==> tv[i].time.Some?
  }

  ghost predicate SortedFrom(tv: TestVector, start: int) {
    && Timed(tv)
    && (forall i :: 0 <= i < |tv| ==> tv[i].time.value >= start)
    && (forall i, j :: 0 <= i < j < |tv| ==> tv[i].time.value <= tv[j].time.value)
  }

  // ----- Python's stable sort by time -----

  function Insert(e: Entry, sorted: TestVector): TestVector
    requires e.time.Some? && Timed(sorted)
  {
    if sorted == [] || e.time.value <= sorted[0].time.value then [e] + sorted
    else [sorted[0]] + Insert(e, sorted[1..])
  }

  function Sort(tv: TestVector): (r: TestVector)
    requires Timed(tv)
    ensures Timed(r)
    ensures multiset(r) == multiset(tv)
  {
    if tv == [] then []
    else
      InsertKeeps(tv[0], Sort(tv[1..]));
      assert tv == [tv[0]] + tv[1..];
      Insert(tv[0], Sort(tv[1..]))
  }

  lemma {:induction false} InsertKeeps(e: Entry, sorted: TestVector)
    requires e.time.Some? && Timed(sorted)
    ensures Timed(Insert(e, sorted)) && multiset(Insert(e, sorted)) == multiset{e} + multiset(sorted)
  {
    if !(sorted == [] || e.time.value <= sorted[0].time.value) {
      InsertKeeps(e, sorted[1..]);
      assert sorted == [sorted[0]] + sorted[1..];
    }
  }

  lemma {:induction false} InsertSorts(e: Entry, sorted: TestVector, start: int)
    requires e.time.Some? && e.time.value >= start && SortedFrom(sorted, start)
    ensures SortedFrom(Insert(e, sorted), start)
  {
    InsertKeeps(e, sorted);
    if !(sorted == [] || e.time.value <= sorted[0].time.value) {
      InsertSorts(e, sorted[1..], sorted[0].time.value);
    }
  }

  lemma {:induction false} SortSorts(tv: TestVector, start: int)
    requires Timed(tv) && forall i :: 0 <= i < |tv| ==> tv[i].time.value >= start
    ensures SortedFrom(Sort(tv), start)
  {
    if tv != [] {
      SortSorts(tv[1..], start);
      InsertSorts(tv[0], Sort(tv[1..]), start);
    }
  }

  function At(tv: TestVector, time: int): TestVector {
    if tv == [] then [] else (if tv[0].time == Some(time) then [tv[0]] else []) + At(tv[1..], time)
  }

  /** The sort is stable: messages of equal time keep their order. */
  lemma {:induction false} SortIsStable(tv: TestVector, time: int)
    requires Timed(tv)
    ensures At(Sort(tv), time) == At(tv, time)
  {
    if tv != [] {
      SortIsStable(tv[1..], time);
      SortSorts(tv[1..], Least(tv[1..]));
      InsertIsStable(tv[0], Sort(tv[1..]), time);
    }
  }

  function Least(tv: TestVector): (m: int)
    requires Timed(tv)
    ensures forall i :: 0 <= i < |tv| ==> tv[i].time.value >= m
  {
    if tv == [] then 0
    else
      var rest := Least(tv[1..]);
      if tv[0].time.value < rest then tv[0].time.value else rest
  }

  lemma {:induction false} InsertIsStable(e: Entry, sorted: TestVector, time: int)
    requires e.time.Some? && Timed(sorted)
    ensures At(Insert(e, sorted), time) == (if e.time == Some(time) then [e] else []) + At(sorted, time)
  {
    hide At;
    if sorted == [] || e.time.value <= sorted[0].time.value {
      AtCons(e, sorted, time);
    } else {
      assert sorted == [sorted[0]] + sorted[1..];
      AtCons(sorted[0], sorted[1..], time);
      InsertIsStable(e, sorted[1..], time);
      AtCons(sorted[0], Insert(e, sorted[1..]), time);
    }
  }

  lemma AtCons(e: Entry, tv: TestVector, time: int)
    ensures At([e] + tv, time) == (if e.time == Some(time) then [e] else []) + At(tv, time)
  {
    assert ([e] + tv)[1..] == tv;
  }

  // ----- The mutations -----

  /** `mut_shift_` returns a new vector, or on a negative time the index it was given. */
  datatype Shifted = Vector(tv: TestVector) | Index(idx: nat)

  function MutShift(tv: TestVector, idx: nat, delta: int): Shifted
    requires Timed(tv) && idx < |tv|
  {
    var newTime := tv[idx].time.value + delta;
    if newTime >= 0 then Vector(Sort(tv[..idx] + [Entry(Some(newTime), tv[idx].payload)] + tv[idx + 1..]))
    else Index(idx)
  }

  function MutDrop(tv: TestVector, idx: nat): TestVector
    requires idx < |tv|
  {
    tv[..idx] + tv[idx + 1..]
  }

  function MutDup(tv: TestVector, idx: nat, shift: int): Shifted
    requires Timed(tv) && idx < |tv|
  {
    MutShift(tv + [tv[idx]], |tv|, shift)
  }

  datatype MutationOp = Shift(idx: nat, delta: int) | Drop(idx: nat) | DupShift(idx: nat, delta: int)

  function ApplyMutation(tv: TestVector, op: MutationOp): Shifted
    requires Timed(tv) && op.idx < |tv|
  {
    match op
    case Shift(idx, delta) => MutShift(tv, idx, delta)
    case Drop(idx) => Vector(MutDrop(tv, idx))
    case DupShift(idx, delta) => MutDup(tv, idx, delta)
  }

  /** An operation that `rand_mutation` can produce: it never reaches back before the start time. */
  ghost predicate Producible(tv: TestVector, op: MutationOp, start: int) {
    && op.idx < |tv| && tv[op.idx].time.Some?
    && (op.Drop? || tv[op.idx].time.value + op.delta >= start)
  }

  lemma ShiftKeeps(tv: TestVector, idx: nat, delta: int, start: int)
    requires start >= 0 && Timed(tv) && idx < |tv| && tv[idx].time.value + delta >= start
    requires forall i :: 0 <= i < |tv| ==> tv[i].time.value >= start
    ensures MutShift(tv, idx, delta).Vector? && SortedFrom(MutShift(tv, idx, delta).tv, start)
    ensures multiset(MutShift(tv, idx, delta).tv) + multiset{tv[idx]}
         == multiset(tv) + multiset{Entry(Some(tv[idx].time.value + delta), tv[idx].payload)}
  {
    var e := Entry(Some(tv[idx].time.value + delta), tv[idx].payload);
    var changed := tv[..idx] + [e] + tv[idx + 1..];
    ReplaceOne(tv, idx, e);
    SortSorts(changed, start);
  }

  lemma ReplaceOne(tv: TestVector, idx: nat, e: Entry)
    requires idx < |tv|
    ensures multiset(tv[..idx] + [e] + tv[idx + 1..]) + multiset{tv[idx]} == multiset(tv) + multiset{e}
  {
    assert tv == tv[..idx] + [tv[idx]] + tv[idx + 1..];
  }

  lemma DropKeeps(tv: TestVector, idx: nat, start: int)
    requires SortedFrom(tv, start) && idx < |tv|
    ensures SortedFrom(MutDrop(tv, idx), start)
    ensures multiset(MutDrop(tv, idx)) + multiset{tv[idx]} == multiset(tv)
  {
    assert tv == tv[..idx] + [tv[idx]] + tv[idx + 1..];
  }

  /** Such an operation keeps the vector sorted and after the start time, never returns an index, and changes
      exactly one entry: it removes it, replaces it by its shifted form, or adds that form. */
  lemma MutationKeepsSorted(tv: TestVector, op: MutationOp, start: int)
    requires start >= 0 && SortedFrom(tv, start) && Producible(tv, op, start)
    ensures ApplyMutation(tv, op).Vector? && SortedFrom(ApplyMutation(tv, op).tv, start)
    ensures
      var r, entry := ApplyMutation(tv, op).tv, tv[op.idx];
      match op
      case Drop(_) => multiset(r) + multiset{entry} == multiset(tv)
      case Shift(_, delta) =>
        multiset(r) + multiset{entry} == multiset(tv) + multiset{Entry(Some(entry.time.value + delta), entry.payload)}
      case DupShift(_, delta) =>
        multiset(r) == multiset(tv) + multiset{Entry(Some(entry.time.value + delta), entry.payload)}
  {
    hide Sort, SortedFrom, MutShift;
    var idx, entry := op.idx, tv[op.idx];
    match op
    case Drop(_) => DropKeeps(tv, idx, start);
    case Shift(_, delta) =>
      FromStart(tv, start);
      ShiftKeeps(tv, idx, delta, start);
    case DupShift(_, delta) =>
      FromStart(tv, start);
      ShiftKeeps(tv + [entry], |tv|, delta, start);
      var r, shifted := MutDup(tv, idx, delta).tv, Entry(Some(entry.time.value + delta), entry.payload);
      assert multiset(tv + [entry]) == multiset(tv) + multiset{entry};
      SameRest(multiset(r), multiset(tv) + multiset{shifted}, entry);
  }

  lemma FromStart(tv: TestVector, start: int)
    requires SortedFrom(tv, start)
    ensures Timed(tv) && forall i :: 0 <= i < |tv| ==> tv[i].time.value >= start
  {
  }

  lemma SameRest(a: multiset<Entry>, b: multiset<Entry>, e: Entry)
    requires a + multiset{e} == b + multiset{e}
    ensures a == b
  {
    forall x ensures a[x] == b[x] {
      assert (a + multiset{e})[x] == (b + multiset{e})[x];
    }
  }

  lemma {:induction false} AtAppend(a: TestVector, b: TestVector, time: int)
    ensures At(a + b, time) == At(a, time) + At(b, time)
  {
    hide At;
    if a == [] {
      assert a + b == b;
      AtNone(time);
    } else {
      assert a + b == [a[0]] + (a[1..] + b) && a == [a[0]] + a[1..];
      AtCons(a[0], a[1..] + b, time);
      AtCons(a[0], a[1..], time);
      AtAppend(a[1..], b, time);
    }
  }

  /** An entry, if it has the given time. */
  function AtOne(e: Entry, time: int): TestVector {
    if e.time == Some(time) then [e] else []
  }

  lemma AtSplit(before: TestVector, e: Entry, behind: TestVector, time: int)
    ensures At(before + [e] + behind, time) == At(before, time) + AtOne(e, time) + At(behind, time)
  {
    hide At;
    AtAppend(before + [e], behind, time);
    AtAppend(before, [e], time);
    AtCons(e, [], time);
    AtNone(time);
    assert [e] + [] == [e] && AtOne(e, time) + [] == AtOne(e, time);
  }

  lemma AtNone(time: int)
    ensures At([], time) == []
  {
  }

  /** The messages of any one time after a mutation, in order: a dropped entry is gone, a shifted one stands where it
      stood among those of its new time, and a duplicate behind them. With the order by time this fixes the vector. */
  lemma MutationPerTime(tv: TestVector, op: MutationOp, time: int)
    requires Timed(tv) && op.idx < |tv| && ApplyMutation(tv, op).Vector?
    ensures
      var r, before, behind := At(ApplyMutation(tv, op).tv, time), At(tv[..op.idx], time), At(tv[op.idx + 1..], time);
      match op
      case Drop(idx) => r == before + behind
      case Shift(idx, delta) =>
        r == before + AtOne(Entry(Some(tv[idx].time.value + delta), tv[idx].payload), time) + behind
      case DupShift(idx, delta) =>
        r == At(tv, time) + AtOne(Entry(Some(tv[idx].time.value + delta), tv[idx].payload), time)
  {
    hide Sort, At;
    match op
    case Drop(idx) => AtAppend(tv[..idx], tv[idx + 1..], time);
    case Shift(idx, delta) =>
      var e := Entry(Some(tv[idx].time.value + delta), tv[idx].payload);
      SortIsStable(tv[..idx] + [e] + tv[idx + 1..], time);
      AtSplit(tv[..idx], e, tv[idx + 1..], time);
    case DupShift(idx, delta) =>
      var e, longer := Entry(Some(tv[idx].time.value + delta), tv[idx].payload), tv + [tv[idx]];
      assert longer[..|tv|] == tv && longer[|tv| + 1..] == [] && longer[|tv|] == tv[idx];
      SortIsStable(tv + [e] + [], time);
      AtSplit(tv, e, [], time);
      AtNone(time);
  }

  /** Only a shift to before time zero returns an index: the one it was given. */
  lemma IndexMeansNegative(tv: TestVector, op: MutationOp)
    requires Timed(tv) && op.idx < |tv|
    ensures ApplyMutation(tv, op).Index? <==> !op.Drop? && tv[op.idx].time.value + op.delta < 0
    ensures ApplyMutation(tv, op).Index? ==> ApplyMutation(tv, op).idx == if op.Shift? then op.idx else |tv|
  {
    hide Sort;
    assert (tv + [tv[op.idx]])[|tv|] == tv[op.idx];
  }

  function Payloads(tv: TestVector): set<Payload> {
    set i | 0 <= i < |tv| :: tv[i].payload
  }

  /** A mutation invents no message. */
  lemma MutationKeepsPayloads(tv: TestVector, op: MutationOp, start: int)
    requires start >= 0 && SortedFrom(tv, start) && Producible(tv, op, start)
    ensures ApplyMutation(tv, op).Vector? && Payloads(ApplyMutation(tv, op).tv) <= Payloads(tv)
  {
    hide Sort, SortedFrom, MutShift, ApplyMutation;
    FromStart(tv, start);
    MutationKeepsSorted(tv, op, start);
    var r, entry := ApplyMutation(tv, op).tv, tv[op.idx];
    var shifted := Entry(Some(entry.time.value + if op.Drop? then 0 else op.delta), entry.payload);
    forall i | 0 <= i < |r| ensures r[i].payload in Payloads(tv) {
      assert r[i] in multiset(r) + multiset{entry} && r[i] in multiset(r);
      assert r[i] in multiset(tv) || r[i] == shifted;
      if r[i] in multiset(tv) {
        var j :| 0 <= j < |tv| && tv[j] == r[i];
      }
    }
  }

  // ----- Random runs -----

  /** A source of random numbers: any function from draws to numbers. */
  class Random {
    const draw: nat -> nat
    var position: nat

    constructor (draw: nat -> nat)
      ensures this.draw == draw && position == 0
    {
      this.draw, position := draw, 0;
    }

    method RandInt(low: int, high: int) returns (r: int)
      requires low <= high
      modifies this`position
      ensures r == Pick(draw, old(position), low, high) && low <= r <= high && position == old(position) + 1
    {
      r := Pick(draw, position, low, high);
      position := position + 1;
    }
  }

  /** The number that a draw picks from a range. */
  function Pick(draw: nat -> nat, position: nat, low: int, high: int): (r: int)
    requires low <= high
    ensures low <= r <= high
  {
    low + draw(position) % (high - low + 1)
  }

  /** A run of operations, each on the result of the one before; `None` if one of them returns an index. */
  function ApplyMutations(tv: TestVector, ops: seq<MutationOp>): Option<TestVector>
    requires Timed(tv)
    decreases |ops|
  {
    if ops == [] then Some(tv)
    else if ops[0].idx >= |tv| then None
    else
      match ApplyMutation(tv, ops[0])
      case Index(_) => None
      case Vector(next) =>
        if forall e :: e in next ==> e.time.Some? then ApplyMutations(next, ops[1..]) else None
  }

  lemma NoMutations(tv: TestVector)
    requires Timed(tv)
    ensures ApplyMutations(tv, []) == Some(tv)
  {
  }

  lemma {:induction false} OneMutation(tv: TestVector, op: MutationOp)
    requires Timed(tv) && op.idx < |tv| && ApplyMutation(tv, op).Vector? && Timed(ApplyMutation(tv, op).tv)
    ensures ApplyMutations(tv, [op]) == Some(ApplyMutation(tv, op).tv)
  {
    assert [op][1..] == [];
  }

  lemma {:induction false} ApplyMutationsAppend(tv: TestVector, ops: seq<MutationOp>, op: MutationOp)
    requires Timed(tv) && ApplyMutations(tv, ops).Some?
    ensures Timed(ApplyMutations(tv, ops).value)
    ensures ApplyMutations(tv, ops + [op]) == ApplyMutations(ApplyMutations(tv, ops).value, [op])
    decreases |ops|
  {
    if ops == [] {
      assert ops + [op] == [op];
    } else {
      assert (ops + [op])[1..] == ops[1..] + [op];
      ApplyMutationsAppend(ApplyMutation(tv, ops[0]).tv, ops[1..], op);
    }
  }

  class MutationOps {
    const startTime: int
    const secondsPerSlot: nat
    const negShift: int
    const posShift: int

    ghost predicate Valid() {
      startTime >= 0 && secondsPerSlot > 0 && negShift <= 0 && posShift > 0
    }

    constructor (startTime: int, secondsPerSlot: nat, negShift: int, posShift: int)
      requires startTime >= 0 && secondsPerSlot > 0 && negShift <= 0 && posShift > 0
      ensures Valid() && this.startTime == startTime && this.secondsPerSlot == secondsPerSlot
    {
      this.startTime, this.secondsPerSlot := startTime, secondsPerSlot;
      this.negShift, this.posShift := negShift, posShift;
    }

    /** The shifts that a message of the given time can get. */
    predicate InBounds(time: int, shift: int) {
      time + shift >= startTime && negShift * secondsPerSlot <= shift <= posShift * secondsPerSlot
    }

    /** The shift drawn from a position on. */
    function DrawnShift(time: int, draw: nat -> nat, position: nat): (shift: int)
      requires Valid() && time >= startTime
      ensures InBounds(time, shift)
    {
      ShiftRange(negShift, posShift, secondsPerSlot);
      var back := negShift * secondsPerSlot;
      if Pick(draw, position, 0, 1) == 1 then Pick(draw, position + 1, 1, posShift * secondsPerSlot)
      else Pick(draw, position + 1, if startTime - time >= back then startTime - time else back, 0)
    }

    /** The operation drawn from a position on. */
    function DrawnMutation(tv: TestVector, draw: nat -> nat, position: nat): (op: MutationOp)
      requires Valid() && SortedFrom(tv, startTime) && tv != []
      ensures Producible(tv, op, startTime)
    {
      var idx, kind := Pick(draw, position, 0, |tv| - 1), Pick(draw, position + 1, 0, 2);
      if kind == 1 then Drop(idx)
      else
        var shift := DrawnShift(tv[idx].time.value, draw, position + 2);
        if kind == 0 then Shift(idx, shift) else DupShift(idx, shift)
    }

    /** The draws that an operation takes. */
    function Draws(op: MutationOp): nat {
      if op.Drop? then 2 else 4
    }

    /** An operation with its shift in bounds. */
    ghost predicate Drawable(tv: TestVector, op: MutationOp) {
      Producible(tv, op, startTime) && (op.Drop? || InBounds(tv[op.idx].time.value, op.delta))
    }

    /** Numbers that lead to such an operation. */
    function DrawsOf(tv: TestVector, op: MutationOp): (list: seq<int>)
      requires Timed(tv) && op.idx < |tv|
      ensures |list| == Draws(op)
    {
      if op.Drop? then [op.idx, 1]
      else
        var time, back := tv[op.idx].time.value, negShift * secondsPerSlot;
        var low := if startTime - time >= back then startTime - time else back;
        [op.idx, if op.Shift? then 0 else 2] + if op.delta > 0 then [1, op.delta - 1] else [0, op.delta - low]
    }

    /** Nothing else is drawn. */
    lemma DrawnIsDrawable(tv: TestVector, draw: nat -> nat, position: nat)
      requires Valid() && SortedFrom(tv, startTime) && tv != []
      ensures Drawable(tv, DrawnMutation(tv, draw, position))
    {
      hide Pick, Producible;
    }

    /** And each such operation is. */
    lemma EveryMutationIsDrawn(tv: TestVector, op: MutationOp, draw: nat -> nat, position: nat)
      requires Valid() && SortedFrom(tv, startTime) && tv != [] && op.idx < |tv|
      requires forall i :: 0 <= i < Draws(op) ==> draw(position + i) == DrawsOf(tv, op)[i]
      ensures Drawable(tv, op) ==> DrawnMutation(tv, draw, position) == op
    {
      hide Pick;
      assert draw(position + 0) == DrawsOf(tv, op)[0] && draw(position + 1) == DrawsOf(tv, op)[1];
      if Drawable(tv, op) {
        PickFor(draw, position, 0, |tv| - 1, op.idx);
        PickFor(draw, position + 1, 0, 2, if op.Drop? then 1 else if op.Shift? then 0 else 2);
        if !op.Drop? {
          assert draw(position + 2) == DrawsOf(tv, op)[2] && draw(position + 3) == DrawsOf(tv, op)[3];
          ShiftIsDrawn(tv[op.idx].time.value, op.delta, draw, position + 2);
        }
      }
    }

    lemma ShiftIsDrawn(time: int, delta: int, draw: nat -> nat, position: nat)
      requires Valid() && time >= startTime && InBounds(time, delta)
      requires
        var back := negShift * secondsPerSlot;
        var low := if startTime - time >= back then startTime - time else back;
        if delta > 0 then draw(position) == 1 && draw(position + 1) == delta - 1
        else draw(position) == 0 && draw(position + 1) == delta - low
      ensures DrawnShift(time, draw, position) == delta
    {
      hide Pick;
      ShiftRange(negShift, posShift, secondsPerSlot);
      var back, top := negShift * secondsPerSlot, posShift * secondsPerSlot;
      PickFor(draw, position, 0, 1, if delta > 0 then 1 else 0);
      if delta > 0 {
        PickFor(draw, position + 1, 1, top, delta);
      } else {
        PickFor(draw, position + 1, if startTime - time >= back then startTime - time else back, 0, delta);
      }
    }

    method RandShift(time: int, rnd: Random) returns (shift: int)
      requires Valid() && time >= startTime
      modifies rnd`position
      ensures shift == DrawnShift(time, rnd.draw, old(rnd.position)) && InBounds(time, shift)
      ensures rnd.position == old(rnd.position) + 2
    {
      ShiftRange(negShift, posShift, secondsPerSlot);
      var back := negShift * secondsPerSlot;
      var minShift := if startTime - time >= back then startTime - time else back;
      var maxShift := posShift * secondsPerSlot;
      var coin := rnd.RandInt(0, 1);
      if coin == 0 {
        shift := rnd.RandInt(minShift, 0);
      } else {
        shift := rnd.RandInt(1, maxShift);
      }
    }

    method RandMutation(tv: TestVector, rnd: Random) returns (op: MutationOp)
      requires Valid() && SortedFrom(tv, startTime) && tv != []
      modifies rnd`position
      ensures op == DrawnMutation(tv, rnd.draw, old(rnd.position)) && Producible(tv, op, startTime)
      ensures rnd.position == old(rnd.position) + Draws(op)
    {
      var idx := rnd.RandInt(0, |tv| - 1);
      var kind := rnd.RandInt(0, 2);
      if kind == 1 {
        return Drop(idx);
      }
      var shift := RandShift(tv[idx].time.value, rnd);
      op := if kind == 0 then Shift(idx, shift) else DupShift(idx, shift);
    }

    /** The operations drawn one after the other, each for the vector that the one before leaves. */
    ghost function DrawnRun(tv: TestVector, num: nat, draw: nat -> nat, position: nat): seq<MutationOp>
      requires Valid() && SortedFrom(tv, startTime)
      decreases num
    {
      if num == 0 || tv == [] then []
      else
        var op := DrawnMutation(tv, draw, position);
        MutationKeepsSorted(tv, op, startTime);
        [op] + DrawnRun(ApplyMutation(tv, op).tv, num - 1, draw, position + Draws(op))
    }

    /** A list of operations that can be drawn one after the other. */
    ghost predicate DrawableRun(tv: TestVector, ops: seq<MutationOp>)
      requires Valid() && SortedFrom(tv, startTime)
      decreases |ops|
    {
      ops == [] ||
      (tv != [] && Drawable(tv, ops[0])
       && (MutationKeepsSorted(tv, ops[0], startTime);
           DrawableRun(ApplyMutation(tv, ops[0]).tv, ops[1..])))
    }

    lemma RunStep(tv: TestVector, num: nat, draw: nat -> nat, position: nat)
      requires Valid() && SortedFrom(tv, startTime) && num > 0 && tv != []
      ensures
        var op := DrawnMutation(tv, draw, position);
        && Producible(tv, op, startTime) && ApplyMutation(tv, op).Vector?
        && SortedFrom(ApplyMutation(tv, op).tv, startTime)
        && DrawnRun(tv, num, draw, position)
             == [op] + DrawnRun(ApplyMutation(tv, op).tv, num - 1, draw, position + Draws(op))
    {
      hide SortedFrom, ApplyMutation, DrawnMutation, Producible;
      MutationKeepsSorted(tv, DrawnMutation(tv, draw, position), startTime);
    }

    /** Every such list is drawn for some random numbers. */
    lemma {:induction false} EveryRunIsDrawn(tv: TestVector, ops: seq<MutationOp>, prefix: seq<nat>)
      returns (list: seq<nat>)
      requires Valid() && SortedFrom(tv, startTime) && DrawableRun(tv, ops)
      ensures prefix <= list && DrawnRun(tv, |ops|, FromList(list), |prefix|) == ops
      decreases |ops|
    {
      hide DrawnMutation, ApplyMutation, SortedFrom, DrawsOf, InBounds, DrawnRun;
      if ops == [] {
        list := prefix;
        NoneLeft(tv, 0, FromList(list), |prefix|);
      } else {
        var op := ops[0];
        FromStart(tv, startTime);
        MutationKeepsSorted(tv, op, startTime);
        var first := NaturalDraws(tv, op);
        list := EveryRunIsDrawn(ApplyMutation(tv, op).tv, ops[1..], prefix + first);
        forall i | 0 <= i < |first| ensures FromList(list)(|prefix| + i) == first[i] {
          assert list[|prefix| + i] == (prefix + first)[|prefix| + i];
        }
        EveryMutationIsDrawn(tv, op, FromList(list), |prefix|);
        RunStep(tv, |ops|, FromList(list), |prefix|);
        assert ops == [op] + ops[1..];
      }
    }

    lemma NaturalDraws(tv: TestVector, op: MutationOp) returns (list: seq<nat>)
      requires Valid() && Timed(tv) && Drawable(tv, op)
      ensures list == DrawsOf(tv, op)
    {
      ShiftRange(negShift, posShift, secondsPerSlot);
      var numbers := DrawsOf(tv, op);
      list := seq(|numbers|, i requires 0 <= i < |numbers| => if numbers[i] >= 0 then numbers[i] else 0);
      assert forall i :: 0 <= i < |numbers| ==> numbers[i] >= 0;
    }

    lemma NoneLeft(tv: TestVector, num: nat, draw: nat -> nat, position: nat)
      requires Valid() && SortedFrom(tv, startTime) && (tv == [] || num == 0)
      ensures DrawnRun(tv, num, draw, position) == []
    {
    }

    /** Any random run from a sorted vector ends in a sorted vector after the start time, is reproduced by its
        recorded operations, and stops early only on an empty vector. */
    method RandMutations(initial: TestVector, num: nat, rnd: Random)
      returns (tv: TestVector, mutations: seq<MutationOp>)
      requires Valid() && SortedFrom(initial, startTime)
      modifies rnd`position
      ensures SortedFrom(tv, startTime) && ApplyMutations(initial, mutations) == Some(tv)
      ensures mutations == DrawnRun(initial, num, rnd.draw, old(rnd.position))
      ensures |mutations| == num || (|mutations| < num && tv == [])
      ensures Payloads(tv) <= Payloads(initial)
    {
      hide SortedFrom, ApplyMutation, ApplyMutations, DrawnMutation, DrawnRun, Producible, Payloads;
      FromStart(initial, startTime);
      NoMutations(initial);
      tv, mutations := initial, [];
      for i := 0 to num
        invariant SortedFrom(tv, startTime) && ApplyMutations(initial, mutations) == Some(tv) && |mutations| == i
        invariant Payloads(tv) <= Payloads(initial)
        invariant DrawnRun(initial, num, rnd.draw, old(rnd.position))
               == mutations + DrawnRun(tv, num - i, rnd.draw, rnd.position)
      {
        if |tv| == 0 {
          NoneLeft(tv, num - i, rnd.draw, rnd.position);
          return;
        }
        ghost var start := rnd.position;
        var op := RandMutation(tv, rnd);
        MutationKeepsSorted(tv, op, startTime);
        MutationKeepsPayloads(tv, op, startTime);
        ApplyMutationsAppend(initial, mutations, op);
        RunStep(tv, num - i, rnd.draw, start);
        ghost var done := mutations;
        var r := ApplyMutation(tv, op);
        FromStart(r.tv, startTime);
        OneMutation(tv, op);
        mutations := mutations + [op];
        tv := r.tv;
        assert done + ([op] + DrawnRun(tv, num - i - 1, rnd.draw, rnd.position))
            == mutations + DrawnRun(tv, num - i - 1, rnd.draw, rnd.position);
      }
      NoneLeft(tv, 0, rnd.draw, rnd.position);
    }
  }

  /** The draws of a list, and zeros behind it. */
  function FromList(list: seq<nat>): nat -> nat {
    (i: nat) => if i < |list| then list[i] else 0
  }

  lemma PickFor(draw: nat -> nat, position: nat, low: int, high: int, r: int)
    requires low <= r <= high && draw(position) == r - low
    ensures Pick(draw, position, low, high) == r
  {
  }

  lemma ShiftRange(neg: int, pos: int, s: nat)
    requires neg <= 0 < pos && s > 0
    ensures neg * s <= 0 < pos * s
  {
  }

  // ----- Conversion to events and back -----

  /** The triples of the source: ticks carry a time, messages a payload; the last part is a validity mark. */
  datatype Event = Tick(time: Option<int>, valid: Option<bool>) | Message(payload: Payload, valid: Option<bool>)

  predicate KnownKind(kind: string) {
    kind == "block" || kind == "attestation" || kind == "attester_slashing"
  }

  /** The vector of the messages in the events, each with the time of the last tick; `None` on an unknown kind. */
  function ToVector(events: seq<Event>, current: Option<int>): Option<TestVector>
    decreases |events|
  {
    if events == [] then Some([])
    else
      match events[0]
      case Tick(time, _) => ToVector(events[1..], time)
      case Message(payload, _) =>
        if !KnownKind(payload.kind) then None
        else
          match ToVector(events[1..], current)
          case None => None
          case Some(rest) => Some([Entry(current, payload)] + rest)
  }

  function ToEvents(tv: TestVector, current: Option<int>): seq<Event>
    decreases |tv|
  {
    if tv == [] then []
    else
      var body := [Message(tv[0].payload, None)] + ToEvents(tv[1..], tv[0].time);
      if tv[0].time == current then body else [Tick(tv[0].time, None)] + body
  }

  /** How many messages there are among the first j events, and the time of the last tick among them. */
  function MessagesBefore(events: seq<Event>, j: nat): nat
    requires j <= |events|
  {
    if j == 0 then 0 else MessagesBefore(events, j - 1) + if events[j - 1].Message? then 1 else 0
  }

  function TimeBefore(events: seq<Event>, j: nat, current: Option<int>): Option<int>
    requires j <= |events|
  {
    if j == 0 then current else if events[j - 1].Tick? then events[j - 1].time else TimeBefore(events, j - 1, current)
  }

  lemma {:induction false} BeforeRest(e: Event, rest: seq<Event>, j: nat, current: Option<int>)
    requires j <= |rest|
    ensures MessagesBefore([e] + rest, j + 1) == MessagesBefore(rest, j) + if e.Message? then 1 else 0
    ensures TimeBefore([e] + rest, j + 1, current) == TimeBefore(rest, j, if e.Tick? then e.time else current)
  {
    if j > 0 {
      BeforeRest(e, rest, j - 1, current);
      assert ([e] + rest)[j] == rest[j - 1];
    } else {
      assert MessagesBefore([e] + rest, 0) == 0 && TimeBefore([e] + rest, 0, current) == current;
    }
  }

  /** For any events, whatever their marks and however many ticks follow one another: the conversion fails exactly on an
      unknown kind, and otherwise entry i is the i-th message, with the time of the last tick before it. */
  lemma VectorEntries(events: seq<Event>, current: Option<int>)
    ensures ToVector(events, current).Some? <==>
      forall j :: 0 <= j < |events| && events[j].Message? ==> KnownKind(events[j].payload.kind)
    ensures ToVector(events, current).Some? ==>
      && |ToVector(events, current).value| == MessagesBefore(events, |events|)
      && forall j :: 0 <= j < |events| && events[j].Message? ==>
           && MessagesBefore(events, j) < |ToVector(events, current).value|
           && ToVector(events, current).value[MessagesBefore(events, j)]
                == Entry(TimeBefore(events, j, current), events[j].payload)
  {
    hide KnownKind, ToVector;
    VectorLength(events, current);
    if ToVector(events, current).Some? {
      forall j | 0 <= j < |events| && events[j].Message?
        ensures MessagesBefore(events, j) < |ToVector(events, current).value|
        ensures ToVector(events, current).value[MessagesBefore(events, j)]
             == Entry(TimeBefore(events, j, current), events[j].payload)
      {
        EntryOf(events, current, j);
      }
    }
  }

  lemma {:induction false} VectorLength(events: seq<Event>, current: Option<int>)
    ensures ToVector(events, current).Some? <==>
      forall j :: 0 <= j < |events| && events[j].Message? ==> KnownKind(events[j].payload.kind)
    ensures ToVector(events, current).Some? ==> |ToVector(events, current).value| == MessagesBefore(events, |events|)
    decreases |events|
  {
    hide KnownKind, TimeBefore;
    if events != [] {
      var rest := events[1..];
      VectorLength(rest, if events[0].Tick? then events[0].time else current);
      assert events == [events[0]] + rest;
      BeforeRest(events[0], rest, |rest|, current);
      assert forall j :: 0 <= j < |rest| ==> rest[j] == events[j + 1];
      assert forall j :: 0 < j < |events| ==> rest[j - 1] == events[j];
    }
  }

  lemma {:induction false} EntryOf(events: seq<Event>, current: Option<int>, j: nat)
    requires ToVector(events, current).Some? && j < |events| && events[j].Message?
    ensures
      var tv := ToVector(events, current).value;
      MessagesBefore(events, j) < |tv|
      && tv[MessagesBefore(events, j)] == Entry(TimeBefore(events, j, current), events[j].payload)
    decreases |events|
  {
    hide KnownKind;
    if j > 0 {
      var rest := events[1..];
      assert events == [events[0]] + rest && rest[j - 1] == events[j];
      EntryOf(rest, if events[0].Tick? then events[0].time else current, j - 1);
      BeforeRest(events[0], rest, j - 1, current);
    }
  }

  method EventsToTestVector(events: seq<Event>) returns (tv: Option<TestVector>)
    ensures tv == ToVector(events, None)
  {
    var list: TestVector, current: Option<int> := [], None;
    assert events[0..] == events && (ToVector(events, None).Some? ==>
      [] + ToVector(events, None).value == ToVector(events, None).value);
    for i := 0 to |events|
      invariant ToVector(events, None) ==
        match ToVector(events[i..], current)
        case None => None
        case Some(rest) => Some(list + rest)
    {
      assert events[i..][1..] == events[i + 1..];
      match events[i] {
        case Tick(time, _) =>
          current := time;
        case Message(payload, _) =>
          if !KnownKind(payload.kind) {
            return None;
          }
          ghost var rest := ToVector(events[i + 1..], current);
          assert rest.Some? ==>
            list + [Entry(current, payload)] + rest.value == list + ([Entry(current, payload)] + rest.value);
          list := list + [Entry(current, payload)];
      }
    }
    assert list + [] == list;
    tv := Some(list);
  }

  method TestVectorToEvents(tv: TestVector) returns (events: seq<Event>)
    ensures events == ToEvents(tv, None)
  {
    events := [];
    var current: Option<int> := None;
    assert tv[0..] == tv && [] + ToEvents(tv, None) == ToEvents(tv, None);
    for i := 0 to |tv|
      invariant ToEvents(tv, None) == events + ToEvents(tv[i..], current)
    {
      assert tv[i..][1..] == tv[i + 1..];
      ghost var message, rest := [Message(tv[i].payload, None)], ToEvents(tv[i + 1..], tv[i].time);
      Regroup(events, [], message, rest);
      Regroup(events, [Tick(tv[i].time, None)], message, rest);
      if tv[i].time != current {
        current := tv[i].time;
        events := events + [Tick(tv[i].time, None)];
      }
      events := events + [Message(tv[i].payload, None)];
    }
    assert events + [] == events;
  }

  lemma Regroup(a: seq<Event>, b: seq<Event>, c: seq<Event>, d: seq<Event>)
    ensures a + b + c + d == a + (b + (c + d)) && a + [] == a && [] + c == c
    ensures a + c + d == a + (c + d)
  {
  }

  /** From a vector to events and back is the identity, for every vector of messages. */
  lemma {:induction false} VectorRoundTrip(tv: TestVector, current: Option<int>)
    requires forall i :: 0 <= i < |tv| ==> KnownKind(tv[i].payload.kind)
    ensures ToVector(ToEvents(tv, current), current) == Some(tv)
    decreases |tv|
  {
    if tv != [] {
      VectorRoundTrip(tv[1..], tv[0].time);
      var body := [Message(tv[0].payload, None)] + ToEvents(tv[1..], tv[0].time);
      assert body[1..] == ToEvents(tv[1..], tv[0].time) && ([Tick(tv[0].time, None)] + body)[1..] == body;
      assert tv == [tv[0]] + tv[1..];
    }
  }

  /** In particular for the result of every random run from a vector of messages. */
  method MutateAndConvert(ops: MutationOps, initial: TestVector, num: nat, rnd: Random)
    returns (tv: TestVector, events: seq<Event>)
    requires ops.Valid() && SortedFrom(initial, ops.startTime)
    requires forall p :: p in Payloads(initial) ==> KnownKind(p.kind)
    modifies rnd`position
    ensures SortedFrom(tv, ops.startTime) && Payloads(tv) <= Payloads(initial)
    ensures events == ToEvents(tv, None) && ToVector(events, None) == Some(tv)
  {
    var mutations;
    tv, mutations := ops.RandMutations(initial, num, rnd);
    events := TestVectorToEvents(tv);
    forall i | 0 <= i < |tv| ensures KnownKind(tv[i].payload.kind) {
      assert tv[i].payload in Payloads(tv);
    }
    VectorRoundTrip(tv, None);
  }

  /** Events without redundancy: every tick changes the time and is followed by a message; no validity marks. */
  predicate Canonical(events: seq<Event>, current: Option<int>)
    decreases |events|
  {
    events == [] ||
    match events[0]
    case Tick(time, valid) =>
      valid == None && time != current && |events| > 1 && events[1].Message? && Canonical(events[1..], time)
    case Message(payload, valid) => valid == None && Canonical(events[1..], current)
  }

  /** From events to a vector and back is the identity exactly on canonical events. */
  lemma {:induction false} EventsRoundTrip(events: seq<Event>, current: Option<int>)
    requires ToVector(events, current).Some?
    ensures ToEvents(ToVector(events, current).value, current) == events <==> Canonical(events, current)
    decreases |events|
  {
    if events != [] {
      var e, rest := events[0], events[1..];
      assert events == [e] + rest;
      match e {
        case Message(payload, valid) =>
          EventsRoundTrip(rest, current);
          var tail := ToVector(rest, current).value;
          assert ToVector(events, current).value[1..] == tail;
          var vector := ToVector(events, current).value;
          assert ToEvents(vector, current) == [Message(payload, None)] + ToEvents(tail, current);
        case Tick(time, valid) =>
          EventsRoundTrip(rest, time);
          var tv := ToVector(rest, time).value;
          if tv != [] {
            FirstTick(rest, time);
          }
          TickFirst(tv, time, current);
      }
    }
  }

  /** Reading a vector with another time at hand only differs in the tick in front. */
  lemma TickFirst(tv: TestVector, time: Option<int>, current: Option<int>)
    ensures tv != [] && tv[0].time == time && time != current ==>
      ToEvents(tv, current) == [Tick(time, None)] + ToEvents(tv, time)
    ensures tv != [] && tv[0].time == current ==> ToEvents(tv, current) != [] && ToEvents(tv, current)[0].Message?
    ensures tv != [] && tv[0].time != current ==> ToEvents(tv, current)[0] == Tick(tv[0].time, None)
    ensures tv != [] && tv[0].time != current ==> |ToEvents(tv, current)| > 1 && ToEvents(tv, current)[1].Message?
  {
    if tv != [] {
      assert [Message(tv[0].payload, None)][0].Message?;
    }
  }

  /** The first entry carries the time at hand when the first event is a message. */
  lemma FirstTick(events: seq<Event>, time: Option<int>)
    requires ToVector(events, time).Some? && ToVector(events, time).value != []
    ensures events != [] && (events[0].Message? ==> ToVector(events, time).value[0].time == time)
  {
  }
}
