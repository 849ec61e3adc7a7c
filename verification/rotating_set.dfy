/** A set with time-based garbage collection: three generations shifted right by rotations. */
module RotatingSets {
  /** The value held by a rotating set (`newest` is its fresh generation). Times are ticks of
      a clock that never runs backwards. */
  datatype Generations<T(==)> = Generations(
    newest: set<T>, stale: set<T>, expiring: set<T>, lastRotation: nat, period: nat)
  {
    predicate Contains(key: T) { key in newest || key in stale || key in expiring }

    function All(): set<T> { newest + stale + expiring }

    function Extended(values: set<T>): Generations<T> { this.(newest := newest + values) }

    function ForceRotated(now: nat): Generations<T> {
      Generations({}, newest, stale, now, period)
    }

    /** Elapsed time strictly beyond the period is what lets a rotation happen. */
    predicate Due(now: nat) { now > lastRotation + period }

    function Rotated(now: nat): Generations<T> {
      if Due(now) then ForceRotated(now) else this
    }
  }

  function Empty<T(==)>(period: nat, now: nat): Generations<T> {
    Generations({}, {}, {}, now, period)
  }

  class RotatingSet<T(==)> {
    var newest: set<T>
    var stale: set<T>
    var expiring: set<T>
    var lastRotation: nat
    var period: nat

    function Value(): Generations<T>
      reads this
    {
      Generations(newest, stale, expiring, lastRotation, period)
    }

    constructor (period: nat, now: nat)
      ensures Value() == Empty(period, now)
    {
      newest, stale, expiring := {}, {}, {};
      lastRotation, this.period := now, period;
    }

    constructor Clone(other: RotatingSet<T>)
      ensures Value() == other.Value()
    {
      newest, stale, expiring := other.newest, other.stale, other.expiring;
      lastRotation, period := other.lastRotation, other.period;
    }

    method Contains(key: T) returns (found: bool)
      ensures found == Value().Contains(key)
    {
      found := key in newest || key in stale || key in expiring;
    }

    method Insert(value: T)
      modifies this
      ensures Value() == old(Value()).Extended({value})
    {
      newest := newest + {value};
    }

    /** Elements arrive one at a time from an iterator. */
    method Extend(values: seq<T>)
      modifies this
      ensures Value() == old(Value()).Extended(set v | v in values)
    {
      for i := 0 to |values|
        invariant Value() == old(Value()).Extended(set v | v in values[..i])
      {
        newest := newest + {values[i]};
        assert values[..i + 1] == values[..i] + [values[i]];
      }
      assert values[..|values|] == values;
    }

    method ForceRotate(now: nat)
      modifies this
      ensures Value() == old(Value()).ForceRotated(now)
    {
      var nowStale := newest;
      newest := {};
      var nowExpiring := stale;
      stale := nowStale;
      expiring := nowExpiring;
      lastRotation := now;
    }

    method Rotate(now: nat) returns (rotated: bool)
      modifies this
      ensures rotated == old(Value()).Due(now)
      ensures Value() == old(Value()).Rotated(now)
    {
      if now > lastRotation + period {
        ForceRotate(now);
        rotated := true;
      } else {
        rotated := false;
      }
    }
  }

  // ----- Whole histories of one set -----

  /** `Put` stands for both single and bulk insertion. */
  datatype Op<T> = Put(values: set<T>, at: nat) | TryRotate(at: nat) | Force(at: nat)

  function Apply<T(==)>(g: Generations<T>, op: Op<T>): Generations<T> {
    match op
    case Put(values, _) => g.Extended(values)
    case TryRotate(at) => g.Rotated(at)
    case Force(at) => g.ForceRotated(at)
  }

  function Run<T(==)>(g: Generations<T>, ops: seq<Op<T>>): Generations<T>
    decreases |ops|
  {
    if ops == [] then g else Run(Apply(g, ops[0]), ops[1..])
  }

  /** The reference: how many rotations ago each value was last inserted, never forgotten. */
  datatype Ages<T(==)> = Ages(age: map<T, nat>, lastRotation: nat, period: nat)
  {
    function Older(now: nat): Ages<T> {
      Ages(map x | x in age :: age[x] + 1, now, period)
    }

    function Step(op: Op<T>): Ages<T> {
      match op
      case Put(values, _) =>
        this.(age := map x | x in age.Keys + values :: if x in values then 0 else age[x])
      case TryRotate(at) => if at > lastRotation + period then Older(at) else this
      case Force(at) => Older(at)
    }

    function Run(ops: seq<Op<T>>): Ages<T>
      decreases |ops|
    {
      if ops == [] then this else Step(ops[0]).Run(ops[1..])
    }
  }

  ghost predicate Refines<T(!new)>(g: Generations<T>, a: Ages<T>) {
    && g.lastRotation == a.lastRotation
    && g.period == a.period
    && (forall x :: x in g.newest <==> x in a.age && a.age[x] == 0)
    && (forall x :: x in g.stale ==> x in a.age && a.age[x] <= 1)
    && (forall x :: x in g.expiring ==> x in a.age && a.age[x] <= 2)
    && (forall x :: x in a.age && a.age[x] == 1 ==> x in g.stale)
    && (forall x :: x in a.age && a.age[x] == 2 ==> x in g.expiring)
  }

  lemma RefinesStep<T(!new)>(g: Generations<T>, a: Ages<T>, op: Op<T>)
    requires Refines(g, a)
    ensures Refines(Apply(g, op), a.Step(op))
  {
  }

  lemma {:induction false} RefinesRun<T(!new)>(g: Generations<T>, a: Ages<T>, ops: seq<Op<T>>)
    requires Refines(g, a)
    ensures Refines(Run(g, ops), a.Run(ops))
    decreases |ops|
  {
    if ops != [] {
      RefinesStep(g, a, ops[0]);
      RefinesRun(Apply(g, ops[0]), a.Step(ops[0]), ops[1..]);
    }
  }

  /** After any history, a value is present exactly when it was inserted at most two
      rotations ago: it survives two rotations and is gone after the third. */
  lemma {:induction false} ContainsIffYoung<T(!new)>(period: nat, created: nat, ops: seq<Op<T>>, x: T)
    ensures var age := Ages(map[], created, period).Run(ops).age;
            Run(Empty(period, created), ops).Contains(x) <==> x in age && age[x] <= 2
  {
    RefinesRun(Empty(period, created), Ages(map[], created, period), ops);
  }

  /** No forced rotation, and clock readings that never decrease and stay below `limit`. */
  predicate Timely<T>(ops: seq<Op<T>>, now: nat, limit: nat) {
    ops == [] || (now <= ops[0].at < limit && !ops[0].Force? && Timely(ops[1..], ops[0].at, limit))
  }

  /** `x` cannot be collected before the clock reaches `limit`. */
  ghost predicate SafeUntil<T>(g: Generations<T>, x: T, now: nat, limit: nat) {
    || (x in g.newest && limit <= now + 2 * g.period + 2)
    || (x in g.stale && limit <= g.lastRotation + 2 * g.period + 2)
    || (x in g.expiring && limit <= g.lastRotation + g.period + 1)
  }

  lemma {:induction false} StaysSafe<T(!new)>(
      g: Generations<T>, ops: seq<Op<T>>, x: T, now: nat, limit: nat)
    requires SafeUntil(g, x, now, limit) && Timely(ops, now, limit)
    ensures Run(g, ops).Contains(x)
    decreases |ops|
  {
    if ops != [] {
      StaysSafe(Apply(g, ops[0]), ops[1..], x, ops[0].at, limit);
    }
  }

  /** Retention: whatever the history before, a value inserted at tick `t` is present
      at every tick before t + 2 * period + 2, however often rotation is attempted. */
  lemma {:induction false} RetainedTwoPeriods<T(!new)>(
      before: Generations<T>, values: set<T>, x: T, t: nat, after: seq<Op<T>>)
    requires x in values
    requires Timely(after, t, t + 2 * before.period + 2)
    ensures Run(before, [Put(values, t)] + after).Contains(x)
  {
    assert ([Put(values, t)] + after)[1..] == after;
    StaysSafe(before.Extended(values), after, x, t, t + 2 * before.period + 2);
  }

  /** The bound is sharp for every period: three prompt rotations collect the value
      exactly at tick t + 2 * period + 2. */
  lemma RetentionIsSharp<T(!new)>(period: nat, x: T)
    ensures var t := period + 1;
            var ops := [Put({x}, t), TryRotate(t), TryRotate(t + period + 1)];
            && Run(Empty(period, 0), ops).Contains(x)
            && !Run(Empty(period, 0), ops + [TryRotate(t + 2 * period + 2)]).Contains(x)
  {
    var t := period + 1;
    var o1, o2, o3 := Op<T>.TryRotate(t), Op<T>.TryRotate(t + period + 1), Op<T>.TryRotate(t + 2 * period + 2);
    var ops := [Put({x}, t), o1, o2];
    var g2 := Generations({}, {}, {x}, t + period + 1, period);
    assert ops[1..] == [o1, o2] && [o1, o2][1..] == [o2] && [o2][1..] == [];
    calc {
      Run(Empty(period, 0), ops);
      Run(Empty(period, 0).Extended({x}), [o1, o2]);
      { assert {} + {x} == {x}; }
      Run(Generations({}, {x}, {}, t, period), [o2]);
      Run(g2, []);
    }
    assert [o3][1..] == [];
    RunConcat(Empty(period, 0), ops, [o3]);
  }

  lemma {:induction false} RunConcat<T>(g: Generations<T>, first: seq<Op<T>>, second: seq<Op<T>>)
    ensures Run(g, first + second) == Run(Run(g, first), second)
    decreases |first|
  {
    if first == [] {
      assert first + second == second;
    } else {
      assert (first + second)[1..] == first[1..] + second;
      RunConcat(Apply(g, first[0]), first[1..], second);
    }
  }
}
