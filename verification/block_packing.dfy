/** Choosing which queued transactions go into the next block. */
module BlockPacking {
  import opened Blocks
  import opened TxnSeqs

  function Sum(s: seq<Txn>): nat {
    if s == [] then 0 else Sum(Init(s)) + Last(s).minBlockSize
  }

  /** The total of the sizes: additive, and a transaction's own size for one. */
  lemma {:induction false} SumConcat(a: seq<Txn>, b: seq<Txn>)
    ensures Sum(a + b) == Sum(a) + Sum(b)
    ensures forall t :: Sum([t]) == t.minBlockSize
    decreases |b|
  {
    if b == [] {
      assert a + b == a;
    } else {
      assert Init(a + b) == a + Init(b) && Last(a + b) == Last(b);
      SumConcat(a, Init(b));
    }
    forall t ensures Sum([t]) == t.minBlockSize {
      assert Init([t]) == [];
    }
  }

  /** The first transaction at or after `i` that the scan refuses: it would bring the total
      to the limit, and something of positive size was taken before it. */
  function Scan(queue: seq<Txn>, limit: nat, i: nat): (k: nat)
    requires i <= |queue|
    ensures i <= k <= |queue|
    decreases |queue| - i
  {
    if i == |queue| then i
    else if Sum(queue[..i + 1]) >= limit && Sum(queue[..i]) != 0 then i
    else Scan(queue, limit, i + 1)
  }

  function PackCount(queue: seq<Txn>, limit: nat): (k: nat)
    ensures k <= |queue|
  {
    Scan(queue, limit, 0)
  }

  /** The scan with its running total. */
  method Pack(queue: seq<Txn>, maxBlockSize: nat) returns (included: seq<Txn>)
    ensures included == queue[..PackCount(queue, maxBlockSize)]
  {
    included := [];
    var totalSize := 0;
    var i := 0;
    while i < |queue|
      invariant i <= |queue| && included == queue[..i] && totalSize == Sum(queue[..i])
      invariant PackCount(queue, maxBlockSize) == Scan(queue, maxBlockSize, i)
    {
      var prevSize := totalSize;
      totalSize := totalSize + queue[i].minBlockSize;
      assert Init(queue[..i + 1]) == queue[..i];
      if totalSize >= maxBlockSize && prevSize != 0 {
        return;
      }
      included := included + [queue[i]];
      i := i + 1;
    }
  }

  /** A block of the first `j` transactions is allowed: its total stays below the limit, or
      nothing but its last transaction has a size. */
  predicate Admissible(queue: seq<Txn>, limit: nat, j: nat)
    requires j <= |queue|
  {
    j == 0 || Sum(queue[..j - 1]) == 0 || Sum(queue[..j]) < limit
  }

  lemma {:induction false} SumMonotone(queue: seq<Txn>, i: nat, j: nat)
    requires i <= j <= |queue|
    ensures Sum(queue[..i]) <= Sum(queue[..j])
    decreases j - i
  {
    if i < j {
      assert Init(queue[..j]) == queue[..j - 1];
      SumMonotone(queue, i, j - 1);
    }
  }

  lemma {:induction false} ScanSplits(queue: seq<Txn>, limit: nat, i: nat, j: nat)
    requires i <= |queue| && i < j <= |queue|
    ensures j <= Scan(queue, limit, i) <==> forall m :: i < m <= j ==> Admissible(queue, limit, m)
    decreases |queue| - i
  {
    if Admissible(queue, limit, i + 1) {
      if i + 1 < j { ScanSplits(queue, limit, i + 1, j); }
    } else {
      assert Scan(queue, limit, i) == i;
    }
  }

  lemma AdmissibleDown(queue: seq<Txn>, limit: nat, m: nat, j: nat)
    requires 0 < m <= j <= |queue| && Admissible(queue, limit, j)
    ensures Admissible(queue, limit, m)
  {
    SumMonotone(queue, m - 1, j - 1);
    SumMonotone(queue, m, j);
  }

  /** The scan takes the longest allowed prefix. */
  lemma PackIsGreatest(queue: seq<Txn>, limit: nat, j: nat)
    requires j <= |queue|
    ensures j <= PackCount(queue, limit) <==> Admissible(queue, limit, j)
  {
    if 0 < j {
      ScanSplits(queue, limit, 0, j);
      if Admissible(queue, limit, j) {
        forall m | 0 < m <= j ensures Admissible(queue, limit, m) { AdmissibleDown(queue, limit, m, j); }
      }
    }
  }

  /** So a non-empty queue yields a non-empty block, below the limit unless all but its
      last transaction have size 0, and one more transaction would reach the limit. */
  lemma PackIsGreedy(queue: seq<Txn>, limit: nat)
    ensures var k := PackCount(queue, limit);
      && (queue != [] ==> k >= 1)
      && (k > 0 ==> Sum(queue[..k]) < limit || Sum(queue[..k - 1]) == 0)
      && (k < |queue| ==> Sum(queue[..k + 1]) >= limit && Sum(queue[..k]) > 0)
  {
    var k := PackCount(queue, limit);
    PackIsGreatest(queue, limit, k);
    if queue != [] { PackIsGreatest(queue, limit, 1); }
    if k < |queue| { PackIsGreatest(queue, limit, k + 1); }
  }
}
