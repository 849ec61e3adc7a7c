/** The adaptive limit on block size. */
module BlockSizeLimitsModel {
  import opened Blocks

  const MAX_BLOCK_SIZE_FLOOR: nat := 10_000
  const MAX_BLOCK_SIZE_CHANGE_DIVISOR: nat := 10

  function DivCeil(n: nat): nat { (n + MAX_BLOCK_SIZE_CHANGE_DIVISOR - 1) / MAX_BLOCK_SIZE_CHANGE_DIVISOR }

  function Max(a: nat, b: nat): nat { if a >= b then a else b }

  function Incremented(size: nat, protocolMax: nat): nat { Min(size + DivCeil(size), protocolMax) }

  function Decremented(size: nat): nat {
    Max(if size >= DivCeil(size) then size - DivCeil(size) else 0, MAX_BLOCK_SIZE_FLOOR)
  }

  /** A reading of the clock before `last` counts as no time at all. */
  function Elapsed(last: nat, now: nat): nat { if now >= last then now - last else 0 }

  /** The pair that is replaced atomically. */
  datatype MutableState = MutableState(maxBlockSize: nat, lastBlockSizeIncrement: nat)

  /** Outcome of serving a header request: timed out, refused, or served with or without
      time to spare a block that was or was not truncated. */
  datatype Served = TimedOut | Refused | InTime(margin: bool, truncated: bool)

  class BlockSizeLimits {
    var mutableState: MutableState
    const protocolMaxBlockSize: nat
    const incrementPeriod: nat

    constructor (protocolMaxBlockSize: nat, incrementPeriod: nat, now: nat)
      ensures this.protocolMaxBlockSize == protocolMaxBlockSize && this.incrementPeriod == incrementPeriod
      ensures mutableState == MutableState(protocolMaxBlockSize, now)
    {
      this.protocolMaxBlockSize, this.incrementPeriod := protocolMaxBlockSize, incrementPeriod;
      mutableState := MutableState(protocolMaxBlockSize, now);
    }

    method TryIncrementBlockSize(force: bool, now: nat)
      modifies this
      ensures var due := || force || incrementPeriod == 0
                         || now >= old(mutableState).lastBlockSizeIncrement + incrementPeriod;
        mutableState == if due then MutableState(Incremented(old(mutableState).maxBlockSize, protocolMaxBlockSize), now)
                        else old(mutableState)
    {
      if force || Elapsed(mutableState.lastBlockSizeIncrement, now) >= incrementPeriod {
        var previous := mutableState;
        var maxBlockSize := Min(previous.maxBlockSize + DivCeil(previous.maxBlockSize), protocolMaxBlockSize);
        mutableState := MutableState(maxBlockSize, now);
      }
    }

    method DecrementBlockSize()
      modifies this
      ensures mutableState == old(mutableState).(maxBlockSize := Decremented(old(mutableState).maxBlockSize))
    {
      var step := DivCeil(mutableState.maxBlockSize);
      var lowered := if mutableState.maxBlockSize >= step then mutableState.maxBlockSize - step else 0;
      mutableState := mutableState.(maxBlockSize := Max(lowered, MAX_BLOCK_SIZE_FLOOR));
    }

    /** The feedback of one served request. */
    method ClaimFeedback(served: Served, now: nat)
      modifies this
      ensures served.Refused? || (served.InTime? && !served.margin) ==> mutableState == old(mutableState)
      ensures served.TimedOut? ==>
        mutableState == old(mutableState).(maxBlockSize := Decremented(old(mutableState).maxBlockSize))
      ensures served.InTime? && served.margin && served.truncated ==>
        mutableState == MutableState(Incremented(old(mutableState).maxBlockSize, protocolMaxBlockSize), now)
      ensures served.InTime? && served.margin && !served.truncated ==>
        mutableState == if incrementPeriod == 0
                           || now >= old(mutableState).lastBlockSizeIncrement + incrementPeriod
                        then MutableState(Incremented(old(mutableState).maxBlockSize, protocolMaxBlockSize), now)
                        else old(mutableState)
      ensures Applied(old(mutableState).maxBlockSize, mutableState.maxBlockSize, protocolMaxBlockSize)
    {
      match served
      case TimedOut => DecrementBlockSize();
      case Refused =>
      case InTime(margin, truncated) =>
        if margin {
          TryIncrementBlockSize(truncated, now);
        }
    }
  }

  predicate Applied(before: nat, after: nat, protocolMax: nat) {
    after == before || after == Incremented(before, protocolMax) || after == Decremented(before)
  }

  // ----- Whole runs -----

  /** Only the updates that take effect; checking the clock beforehand is a separate read,
      so any order and number of them is possible. */
  datatype Update = Increment | Decrement

  function Step(size: nat, protocolMax: nat, u: Update): nat {
    match u
    case Increment => Incremented(size, protocolMax)
    case Decrement => Decremented(size)
  }

  function Run(size: nat, protocolMax: nat, updates: seq<Update>): nat
    decreases |updates|
  {
    if updates == [] then size else Run(Step(size, protocolMax, updates[0]), protocolMax, updates[1..])
  }

  lemma {:induction false} StaysBetween(size: nat, protocolMax: nat, updates: seq<Update>)
    requires MAX_BLOCK_SIZE_FLOOR <= size <= protocolMax
    ensures MAX_BLOCK_SIZE_FLOOR <= Run(size, protocolMax, updates) <= protocolMax
    decreases |updates|
  {
    if updates != [] {
      StaysBetween(Step(size, protocolMax, updates[0]), protocolMax, updates[1..]);
    }
  }

  /** Starting from the protocol maximum, the limit stays within the protocol maximum in
      every run exactly when that maximum is at least the floor. */
  lemma NeverExceedsProtocolIff(protocolMax: nat)
    ensures (forall updates :: Run(protocolMax, protocolMax, updates) <= protocolMax) <==>
      protocolMax >= MAX_BLOCK_SIZE_FLOOR
  {
    if protocolMax >= MAX_BLOCK_SIZE_FLOOR {
      forall updates ensures Run(protocolMax, protocolMax, updates) <= protocolMax {
        StaysBetween(protocolMax, protocolMax, updates);
      }
    } else {
      assert [Decrement][1..] == [];
      assert Run(protocolMax, protocolMax, [Decrement]) == Run(Decremented(protocolMax), protocolMax, []);
      assert Run(protocolMax, protocolMax, [Decrement]) == MAX_BLOCK_SIZE_FLOOR;
    }
  }

  /** Decrementing and then incrementing ends above the start exactly when the floor
      stopped the decrement and the climb from the floor passes the start. */
  lemma NoGainFromDipIff(size: nat, protocolMax: nat)
    ensures Incremented(Decremented(size), protocolMax) <= size <==>
      9 * size / 10 >= MAX_BLOCK_SIZE_FLOOR || Min(11_000, protocolMax) <= size
  {
    assert Incremented(MAX_BLOCK_SIZE_FLOOR, protocolMax) == Min(11_000, protocolMax);
  }

  // ----- Recovery -----

  function Pow(b: nat, n: nat): nat { if n == 0 then 1 else b * Pow(b, n - 1) }

  function Increments(size: nat, protocolMax: nat, n: nat): nat {
    if n == 0 then size else Incremented(Increments(size, protocolMax, n - 1), protocolMax)
  }

  /** A tenth more, rounded up, unless the maximum stops it; never beyond. */
  lemma GrowsByTenth(size: nat, protocolMax: nat)
    ensures Incremented(size, protocolMax) == protocolMax || 10 * Incremented(size, protocolMax) >= 11 * size
    ensures 10 * Incremented(size, protocolMax) <= 11 * size + 9
  {
  }

  /** A tenth less, rounded down, unless the floor stops it; never beyond. */
  lemma FallsByTenth(size: nat)
    ensures Decremented(size) == 10_000 || 10 * Decremented(size) <= 9 * size
    ensures 10 * Decremented(size) + 9 >= 9 * size
  {
  }

  lemma ScaleUp(p: nat, r: nat, k: nat, size: nat, x: nat, y: nat)
    requires p * x >= r * size && 10 * y >= k * x
    ensures (10 * p) * y >= (k * r) * size
  {
    assert (10 * p) * y == p * (10 * y) >= p * (k * x);
    assert p * (k * x) == k * (p * x) >= k * (r * size) == (k * r) * size;
  }

  lemma ScaleDown(p: nat, r: nat, k: nat, size: nat, x: nat, y: nat)
    requires p * x <= r * size && 10 * y <= k * x
    ensures (10 * p) * y <= (k * r) * size
  {
    assert (10 * p) * y == p * (10 * y) <= p * (k * x);
    assert p * (k * x) == k * (p * x) <= k * (r * size) == (k * r) * size;
  }

  /** After n increments the limit is the protocol maximum or has grown by (11/10)^n ... */
  lemma {:induction false} GrowsGeometrically(size: nat, protocolMax: nat, n: nat)
    ensures n > 0 || size <= protocolMax ==> Increments(size, protocolMax, n) <= protocolMax
    ensures || Increments(size, protocolMax, n) == protocolMax
            || Pow(10, n) * Increments(size, protocolMax, n) >= Pow(11, n) * size
  {
    if n > 0 {
      GrowsGeometrically(size, protocolMax, n - 1);
      var before := Increments(size, protocolMax, n - 1);
      GrowsByTenth(before, protocolMax);
      if before != protocolMax && Increments(size, protocolMax, n) != protocolMax {
        ScaleUp(Pow(10, n - 1), Pow(11, n - 1), 11, size, before, Increments(size, protocolMax, n));
      }
    }
  }

  /** ... and, but for the rounding of each step, no faster. */
  lemma {:induction false} GrowsNoFaster(size: nat, protocolMax: nat, n: nat)
    ensures Pow(10, n) * (Increments(size, protocolMax, n) + 9) <= Pow(11, n) * (size + 9)
  {
    if n > 0 {
      GrowsNoFaster(size, protocolMax, n - 1);
      var before, after := Increments(size, protocolMax, n - 1), Increments(size, protocolMax, n);
      GrowsByTenth(before, protocolMax);
      ScaleDown(Pow(10, n - 1), Pow(11, n - 1), 11, size + 9, before + 9, after + 9);
    }
  }

  function Decrements(size: nat, n: nat): nat {
    if n == 0 then size else Decremented(Decrements(size, n - 1))
  }

  /** After n decrements the limit is the floor or has fallen by (9/10)^n ... */
  lemma {:induction false} FallsGeometrically(size: nat, n: nat)
    ensures n > 0 ==> Decrements(size, n) >= 10_000
    ensures Decrements(size, n) == 10_000 || Pow(10, n) * Decrements(size, n) <= Pow(9, n) * size
  {
    if n > 0 {
      FallsGeometrically(size, n - 1);
      var before := Decrements(size, n - 1);
      FallsByTenth(before);
      if before != 10_000 && Decrements(size, n) != 10_000 {
        ScaleDown(Pow(10, n - 1), Pow(9, n - 1), 9, size, before, Decrements(size, n));
      }
    }
  }

  /** ... and, but for the rounding of each step, no faster. */
  lemma {:induction false} FallsNoFaster(size: nat, n: nat)
    ensures Pow(10, n) * (Decrements(size, n) + 9) >= Pow(9, n) * (size + 9)
  {
    if n > 0 {
      FallsNoFaster(size, n - 1);
      var before, after := Decrements(size, n - 1), Decrements(size, n);
      FallsByTenth(before);
      ScaleUp(Pow(10, n - 1), Pow(9, n - 1), 9, size + 9, before + 9, after + 9);
    }
  }

  lemma {:induction false} PowPositive(b: nat, n: nat)
    requires b > 0
    ensures Pow(b, n) > 0
  {
    if n > 0 { PowPositive(b, n - 1); }
  }

  /** So the maximum is reached within any N with 11^N * size >= 10^N * maximum; a size
      above it comes down with the first increment. */
  lemma Recovers(size: nat, protocolMax: nat, n: nat)
    requires size <= protocolMax || n > 0
    requires Pow(11, n) * size >= Pow(10, n) * protocolMax
    ensures Increments(size, protocolMax, n) == protocolMax
  {
    GrowsGeometrically(size, protocolMax, n);
    PowPositive(10, n);
    if Increments(size, protocolMax, n) != protocolMax {
      CancelFactor(Pow(10, n), Increments(size, protocolMax, n), protocolMax);
    }
  }

  lemma CancelFactor(p: nat, a: nat, b: nat)
    requires p > 0 && p * a >= p * b
    ensures a >= b
  {
  }

  // ----- The older builder's limits -----

  /** The same adjustments on plain fields, without the saturating subtraction. */
  class LegacyBlockSizeLimits {
    const protocolMaxBlockSize: nat
    var maxBlockSize: nat
    const incrementPeriod: nat
    var lastBlockSizeIncrement: nat

    constructor (protocolMaxBlockSize: nat, incrementPeriod: nat, now: nat)
      ensures maxBlockSize == this.protocolMaxBlockSize == protocolMaxBlockSize
      ensures lastBlockSizeIncrement == now && this.incrementPeriod == incrementPeriod
    {
      this.protocolMaxBlockSize, this.incrementPeriod := protocolMaxBlockSize, incrementPeriod;
      maxBlockSize, lastBlockSizeIncrement := protocolMaxBlockSize, now;
    }

    method TryIncrementBlockSize(force: bool, now: nat)
      requires now >= lastBlockSizeIncrement
      modifies this
      ensures var due := force || now >= old(lastBlockSizeIncrement) + incrementPeriod;
        && maxBlockSize == (if due then Incremented(old(maxBlockSize), protocolMaxBlockSize) else old(maxBlockSize))
        && lastBlockSizeIncrement == (if due then now else old(lastBlockSizeIncrement))
    {
      if force || now - lastBlockSizeIncrement >= incrementPeriod {
        maxBlockSize := Min(maxBlockSize + DivCeil(maxBlockSize), protocolMaxBlockSize);
        lastBlockSizeIncrement := now;
      }
    }

    /** The subtraction cannot underflow. */
    method DecrementBlockSize()
      modifies this`maxBlockSize
      ensures maxBlockSize == Decremented(old(maxBlockSize))
    {
      assert DivCeil(maxBlockSize) <= maxBlockSize;
      maxBlockSize := Max(maxBlockSize - DivCeil(maxBlockSize), MAX_BLOCK_SIZE_FLOOR);
    }
  }
}
