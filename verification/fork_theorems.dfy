/** What the step system of ForkTrees guarantees in every run. */
module ForkTheorems {
  import opened Blocks
  import opened TxnSeqs
  import opened RotatingSets
  import opened BuilderStates
  import opened ForkTrees

  /** The system after any run from the bootstrap state. */
  function Final(period: nat, t0: nat, steps: seq<Step>): System {
    ForkTrees.Run(Start(period, t0), steps)
  }

  lemma Reachable(period: nat, t0: nat, steps: seq<Step>, i: nat)
    requires i < |Final(period, t0, steps).nodes|
    ensures var s := Final(period, t0, steps); NodeOk(s.nodes[i], s.log)
  {
    StartInv(period, t0);
    RunInv(Start(period, t0), steps);
  }

  function Receives(i: nat, n: nat): seq<Step> {
    if n == 0 then [] else [ForkTrees.Receive(i)] + Receives(i, n - 1)
  }

  /** One undisturbed drain of a state is a run of single receives, so the runs here cover
      every way in which drains of different states can overlap. */
  lemma {:induction false} DrainIsRun(s: System, i: nat, n: nat)
    requires i < |s.nodes| && s.nodes[i].state.position + n <= |s.log|
    ensures var p := s.nodes[i].state.position;
      var s' := ForkTrees.Run(s, Receives(i, n));
      && |s'.nodes| == |s.nodes|
      && s'.nodes[i].state == s.nodes[i].state.ReceiveAll(s.log[p..p + n])
      && s' == s.(nodes := s.nodes[i := s'.nodes[i]])
    decreases n
  {
    if n > 0 {
      var p := s.nodes[i].state.position;
      var s1 := Next(s, ForkTrees.Receive(i));
      DrainIsRun(s1, i, n - 1);
      assert Receives(i, n)[1..] == Receives(i, n - 1);
      assert s.log[p..p + n][1..] == s.log[p + 1..p + n];
    }
  }

  // ----- No repeats -----

  /** The state forked less than two whole rotation periods after its `k`-th block was
      included, by a clock that did not run backwards on its chain. Block and fork time
      lists have equal lengths. */
  predicate WithinTwoPeriods(n: Node, k: nat) {
    k < |n.times| && Ascending(n.times) && n.times[|n.times| - 1] < Horizon(n, n.times[k])
  }

  /** In every run, with any rotations, pops and forks, no queue ever offers a commit of
      the last three blocks of its chain, nor one of a block it included less than two
      whole rotation periods before its own fork; and it never offers a commit twice. */
  lemma NoRepeats(period: nat, t0: nat, steps: seq<Step>, i: nat, k: nat, c: TxCommit)
    requires i < |Final(period, t0, steps).nodes|
    requires var n := Final(period, t0, steps).nodes[i];
      k < |n.blocks| && c in n.blocks[k] && (k + 3 >= |n.blocks| || WithinTwoPeriods(n, k))
    ensures var n := Final(period, t0, steps).nodes[i];
      n.state.included.Contains(c) && c !in Commits(n.state.queue) && Distinct(n.state.queue)
  {
    Reachable(period, t0, steps, i);
    var n := Final(period, t0, steps).nodes[i];
    if k + 3 < |n.blocks| {
      assert SafeUntil(n.state.included, c, n.times[|n.times| - 1], Horizon(n, n.times[k]));
    }
    assert c in n.state.included.All();
  }

  // ----- Exactly what is still included -----

  /** What the forks of a chain did to its included set. */
  function History(blocks: seq<set<TxCommit>>, times: seq<nat>): seq<Op<TxCommit>>
    requires |blocks| == |times|
  {
    if blocks == [] then []
    else
      var k := |blocks| - 1;
      History(blocks[..k], times[..k]) + [TryRotate(times[k]), Put(blocks[k], times[k])]
  }

  ghost predicate FromHistory(n: Node, period: nat, t0: nat) {
    && |n.blocks| == |n.times|
    && n.state.included == RotatingSets.Run(Empty(period, t0), History(n.blocks, n.times))
  }

  lemma ForkHistory(n: Node, period: nat, t0: nat, quorum: QuorumProposal, da: DaProposal, now: nat, skipped: seq<Txn>)
    requires FromHistory(n, period, t0)
    ensures FromHistory(n.Fork(quorum, da, now, skipped), period, t0)
  {
    var child, b := n.Fork(quorum, da, now, skipped), SetOf(da.txnCommitments);
    var r, p := Op<TxCommit>.TryRotate(now), Op<TxCommit>.Put(b, now);
    assert child.blocks[..|n.blocks|] == n.blocks && child.times[..|n.times|] == n.times;
    assert History(child.blocks, child.times) == History(n.blocks, n.times) + [r, p];
    RotatingSets.RunConcat(Empty(period, t0), History(n.blocks, n.times), [r, p]);
    assert [r, p][1..] == [p] && [p][1..] == [];
    assert RotatingSets.Run(n.state.included, [r, p]) == RotatingSets.Run(n.state.included.Rotated(now), [p]);
  }

  ghost predicate AllFromHistory(s: System, period: nat, t0: nat) {
    && (forall i :: 0 <= i < |s.nodes| ==> FromHistory(s.nodes[i], period, t0))
    && (forall h :: 0 <= h < |s.halves| ==> FromHistory(s.halves[h].snapshot, period, t0))
  }

  lemma ForkedHistory(s: System, child: Node, halves: seq<Half>, period: nat, t0: nat)
    requires AllFromHistory(s, period, t0) && FromHistory(child, period, t0)
    requires forall h: Half :: h in halves ==> h in s.halves
    ensures AllFromHistory(System(s.log, s.nodes + [child], halves), period, t0)
  {
    forall h | 0 <= h < |halves| ensures FromHistory(halves[h].snapshot, period, t0) {
      assert halves[h] in s.halves;
    }
  }

  lemma EndForkHistory(s: System, h: nat, period: nat, t0: nat)
    requires AllFromHistory(s, period, t0) && h < |s.halves| && s.halves[h].parent < |s.nodes|
    ensures AllFromHistory(Next(s, EndFork(h)), period, t0)
  {
    var half := s.halves[h];
    var skipped := Between(s.log, half.snapshot.state.position, s.nodes[half.parent].state.position);
    ForkHistory(half.snapshot, period, t0, half.quorum, half.da, half.now, skipped);
    ForkedHistory(s, half.snapshot.Fork(half.quorum, half.da, half.now, skipped),
                  s.halves[..h] + s.halves[h + 1..], period, t0);
  }

  lemma NextHistory(s: System, step: Step, period: nat, t0: nat)
    requires AllFromHistory(s, period, t0)
    ensures AllFromHistory(Next(s, step), period, t0)
  {
    match step
    case Broadcast(_) =>
    case Receive(_) =>
    case Pop(_) =>
    case Fork(i, quorum, da, now) =>
      if i < |s.nodes| {
        ForkHistory(s.nodes[i], period, t0, quorum, da, now, []);
        ForkedHistory(s, s.nodes[i].Fork(quorum, da, now, []), s.halves, period, t0);
      }
    case BeginFork(_, _, _, _) =>
    case EndFork(h) =>
      if h < |s.halves| && s.halves[h].parent < |s.nodes| {
        EndForkHistory(s, h, period, t0);
      }
  }

  lemma {:induction false} RunHistory(s: System, steps: seq<Step>, period: nat, t0: nat)
    requires AllFromHistory(s, period, t0)
    ensures AllFromHistory(ForkTrees.Run(s, steps), period, t0)
    decreases |steps|
  {
    if steps != [] {
      NextHistory(s, steps[0], period, t0);
      RunHistory(Next(s, steps[0]), steps[1..], period, t0);
    }
  }

  /** In every run a state refuses a commit exactly when a block of its chain included it
      at most two rotations of that chain ago. */
  lemma IncludedExactly(period: nat, t0: nat, steps: seq<Step>, i: nat, c: TxCommit)
    requires i < |Final(period, t0, steps).nodes|
    ensures var n := Final(period, t0, steps).nodes[i];
      && |n.blocks| == |n.times|
      && var age := Ages(map[], t0, period).Run(History(n.blocks, n.times)).age;
      n.state.included.Contains(c) <==> c in age && age[c] <= 2
  {
    assert FromHistory(Start(period, t0).nodes[0], period, t0);
    RunHistory(Start(period, t0), steps, period, t0);
    var n := Final(period, t0, steps).nodes[i];
    ContainsIffYoung(period, t0, History(n.blocks, n.times), c);
  }

  // ----- Conservation -----

  /** Everything before the read position is queued, in a block of the chain, or popped. */
  ghost predicate Lossless(n: Node, log: seq<Txn>) {
    n.state.position <= |log| && Commits(log[..n.state.position]) <= Commits(n.state.queue) + n.Gone()
  }

  lemma QueueCommits(n: Node)
    requires QueueOk(n)
    ensures Commits(n.state.queue) + n.Gone() == Commits(n.read) + n.Gone()
  {
    WithoutCommits(n.state.queue, n.Gone());
    WithoutCommits(FirstOccurrences(n.read), n.Gone());
    FirstOccurrencesCommits(n.read);
    forall c | c !in n.Gone() ensures c in Commits(n.state.queue) <==> c in Commits(n.read) {
      assert c in Commits(n.state.queue) <==> c in Commits(n.state.queue) - n.Gone();
      assert c in Commits(n.read) <==> c in Commits(n.read) - n.Gone();
    }
  }

  lemma MultisetCommits(a: seq<Txn>, b: seq<Txn>, c: seq<Txn>)
    requires multiset(a) == multiset(b) + multiset(c)
    ensures Commits(a) == Commits(b) + Commits(c)
  {
    forall x | x in Commits(a) ensures x in Commits(b) + Commits(c) {
      var t :| t in a && t.commit == x;
      assert t in multiset(a);
    }
    forall x | x in Commits(b) + Commits(c) ensures x in Commits(a) {
      var t :| t in b + c && t.commit == x;
      assert t in multiset(b) || t in multiset(c);
      assert t in multiset(a);
    }
  }

  /** In every run a state has lost a transaction exactly when one was consumed by an
      ancestor between the two halves of a fork and never seen again. */
  lemma LossExactlyInSplitForks(period: nat, t0: nat, steps: seq<Step>, i: nat)
    requires i < |Final(period, t0, steps).nodes|
    ensures var s := Final(period, t0, steps);
      var n := s.nodes[i];
      Lossless(n, s.log) <==> Commits(n.missed) <= Commits(n.read) + n.Gone()
  {
    Reachable(period, t0, steps, i);
    var s := Final(period, t0, steps);
    var n := s.nodes[i];
    QueueCommits(n);
    MultisetCommits(s.log[..n.state.position], n.read, n.missed);
  }

  /** The queue is at all times a duplicate-free subsequence of the log it has read. */
  lemma QueueFollowsLog(period: nat, t0: nat, steps: seq<Step>, i: nat)
    requires i < |Final(period, t0, steps).nodes|
    ensures var s := Final(period, t0, steps);
      var n := s.nodes[i];
      && n.state.position <= |s.log|
      && Subsequence(n.state.queue, s.log[..n.state.position]) && Distinct(n.state.queue)
  {
    Reachable(period, t0, steps, i);
    var s := Final(period, t0, steps);
    var n := s.nodes[i];
    SubsequenceTrans(n.state.queue, n.read, s.log[..n.state.position]);
  }

  // ----- Atomic forks -----

  /** No ancestor of the node consumed a message between the two halves of a fork. */
  predicate MissedNothing(n: Node) { n.missed == [] }

  predicate AtomicForks(steps: seq<Step>) {
    forall k :: 0 <= k < |steps| ==> !steps[k].BeginFork?
  }

  ghost predicate NothingMissed(s: System) {
    s.halves == [] && forall i :: 0 <= i < |s.nodes| ==> MissedNothing(s.nodes[i])
  }

  lemma {:induction false} AtomicMissNothing(s: System, steps: seq<Step>)
    requires AtomicForks(steps) && NothingMissed(s)
    ensures NothingMissed(ForkTrees.Run(s, steps))
    decreases |steps|
  {
    if steps != [] {
      assert !steps[0].BeginFork?;
      assert NothingMissed(Next(s, steps[0]));
      assert forall k :: 0 <= k < |steps[1..]| ==> steps[1..][k] == steps[k + 1];
      AtomicMissNothing(Next(s, steps[0]), steps[1..]);
    }
  }

  /** While every fork is atomic, no state of the run has missed anything. */
  lemma AtomicRunsMissNothing(period: nat, t0: nat, steps: seq<Step>, i: nat)
    requires AtomicForks(steps) && i < |Final(period, t0, steps).nodes|
    ensures MissedNothing(Final(period, t0, steps).nodes[i])
  {
    AtomicMissNothing(Start(period, t0), steps);
  }

  lemma ReadsPrefix(period: nat, t0: nat, steps: seq<Step>, i: nat)
    requires i < |Final(period, t0, steps).nodes| && MissedNothing(Final(period, t0, steps).nodes[i])
    ensures var s := Final(period, t0, steps);
      NodeOk(s.nodes[i], s.log) && s.nodes[i].read == s.log[..s.nodes[i].state.position]
  {
    Reachable(period, t0, steps, i);
  }

  /** Conservation: a state that missed nothing has lost nothing, in any run, with rotation
      allowed and whatever forks happened elsewhere in the tree. */
  lemma Conservation(period: nat, t0: nat, steps: seq<Step>, i: nat)
    requires i < |Final(period, t0, steps).nodes| && MissedNothing(Final(period, t0, steps).nodes[i])
    ensures var s := Final(period, t0, steps); Lossless(s.nodes[i], s.log)
  {
    ReadsPrefix(period, t0, steps, i);
    QueueCommits(Final(period, t0, steps).nodes[i]);
  }

  /** No commit of the chain has been garbage collected from the included set, and no
      head has been dropped as oversized. */
  ghost predicate Pristine(n: Node) {
    Union(n.blocks) <= n.state.included.All() && n.popped == {}
  }

  /** Then, if the state missed nothing, its queue is a function of the log prefix and the
      blocks alone: first occurrences, minus every transaction of a chain block, in log order. */
  lemma PristineQueue(period: nat, t0: nat, steps: seq<Step>, i: nat)
    requires i < |Final(period, t0, steps).nodes|
    requires var n := Final(period, t0, steps).nodes[i]; MissedNothing(n) && Pristine(n)
    ensures var s := Final(period, t0, steps);
      var n := s.nodes[i];
      && n.state.position <= |s.log|
      && n.state.queue == Without(FirstOccurrences(s.log[..n.state.position]), Union(n.blocks))
  {
    ReadsPrefix(period, t0, steps, i);
    var n := Final(period, t0, steps).nodes[i];
    assert n.Gone() == Union(n.blocks);
    WithoutNone(n.state.queue, n.Gone());
  }

  /** Independence of interleaving: two states of any two runs that missed nothing, popped
      nothing and had nothing expire, however and whenever they drained and forked, have
      equal queues if they stand at equal log prefixes with equal sets of included
      transactions. */
  lemma InterleavingIndependence(
      period1: nat, t1: nat, steps1: seq<Step>, i: nat,
      period2: nat, t2: nat, steps2: seq<Step>, j: nat)
    requires i < |Final(period1, t1, steps1).nodes|
    requires j < |Final(period2, t2, steps2).nodes|
    requires var n := Final(period1, t1, steps1).nodes[i]; MissedNothing(n) && Pristine(n)
    requires var n := Final(period2, t2, steps2).nodes[j]; MissedNothing(n) && Pristine(n)
    requires var s1, s2 := Final(period1, t1, steps1), Final(period2, t2, steps2);
      var p := s1.nodes[i].state.position;
      && p == s2.nodes[j].state.position
      && Between(s1.log, 0, p) == Between(s2.log, 0, p)
      && Union(s1.nodes[i].blocks) == Union(s2.nodes[j].blocks)
    ensures Final(period1, t1, steps1).nodes[i].state.queue
         == Final(period2, t2, steps2).nodes[j].state.queue
  {
    PristineQueue(period1, t1, steps1, i);
    PristineQueue(period2, t2, steps2, j);
  }

  lemma {:induction false} UnionMember(blocks: seq<set<TxCommit>>, c: TxCommit) returns (k: nat)
    requires c in Union(blocks)
    ensures k < |blocks| && c in blocks[k]
  {
    if c in blocks[|blocks| - 1] {
      k := |blocks| - 1;
    } else {
      k := UnionMember(blocks[..|blocks| - 1], c);
    }
  }

  /** When nothing can have expired: on chains of at most three blocks, and on chains
      forked within less than two whole rotation periods. */
  lemma NothingExpired(period: nat, t0: nat, steps: seq<Step>, i: nat)
    requires i < |Final(period, t0, steps).nodes|
    requires var n := Final(period, t0, steps).nodes[i]; |n.blocks| <= 3 || WithinTwoPeriods(n, 0)
    ensures var n := Final(period, t0, steps).nodes[i];
      Union(n.blocks) == n.state.included.All()
  {
    Reachable(period, t0, steps, i);
    var n := Final(period, t0, steps).nodes[i];
    forall c | c in Union(n.blocks) ensures c in n.state.included.All() {
      var k := UnionMember(n.blocks, c);
      NoRepeats(period, t0, steps, i, k, c);
    }
  }

  // ----- Order -----

  lemma {:induction false} WithoutKeepsOrder(s: seq<Txn>, drop: set<TxCommit>, j: nat, k: nat)
      returns (j': nat, k': nat)
    requires j < k < |s| && s[j].commit !in drop && s[k].commit !in drop
    ensures j' < k' < |Without(s, drop)| && Without(s, drop)[j'] == s[j] && Without(s, drop)[k'] == s[k]
  {
    if k == |s| - 1 {
      assert s == Init(s) + [s[k]];
      var a := Init(s)[..j + 1];
      assert Init(s) == a + Init(s)[j + 1..];
      WithoutConcat(a, Init(s)[j + 1..], drop);
      assert Init(a) == s[..j] && Last(a) == s[j];
      j', k' := |Without(a, drop)| - 1, |Without(Init(s), drop)|;
    } else {
      j', k' := WithoutKeepsOrder(Init(s), drop, j, k);
    }
  }

  lemma {:induction false} WithoutComesFrom(s: seq<Txn>, drop: set<TxCommit>, j: nat, k: nat)
      returns (j': nat, k': nat)
    requires j < k < |Without(s, drop)|
    ensures j' < k' < |s| && s[j'] == Without(s, drop)[j] && s[k'] == Without(s, drop)[k]
  {
    if Last(s).commit in drop || k < |Without(s, drop)| - 1 {
      j', k' := WithoutComesFrom(Init(s), drop, j, k);
    } else {
      k' := |s| - 1;
      j' := WithoutElement(Init(s), drop, j);
    }
  }

  lemma {:induction false} WithoutElement(s: seq<Txn>, drop: set<TxCommit>, j: nat) returns (j': nat)
    requires j < |Without(s, drop)|
    ensures j' < |s| && s[j'] == Without(s, drop)[j]
  {
    if Last(s).commit !in drop && j == |Without(s, drop)| - 1 {
      j' := |s| - 1;
    } else {
      j' := WithoutElement(Init(s), drop, j);
    }
  }

  lemma SharedFilterOrder(q: seq<Txn>, read: seq<Txn>, gone: set<TxCommit>, j: nat, k: nat)
    requires Without(q, gone) == Without(FirstOccurrences(read), gone)
    requires j < k < |q| && q[j].commit !in gone && q[k].commit !in gone
    ensures FirstIndex(read, q[j].commit) < FirstIndex(read, q[k].commit) < |read|
  {
    var f := FirstOccurrences(read);
    var j1, k1 := WithoutKeepsOrder(q, gone, j, k);
    var j2, k2 := WithoutComesFrom(f, gone, j1, k1);
    FirstOccurrencesOrdered(read);
    assert FirstIndex(read, f[j2].commit) < FirstIndex(read, f[k2].commit) < |read|;
  }

  /** The queue order of transactions that never left the queue is their log order. */
  lemma QueueOrderIsFirstIndex(n: Node, j: nat, k: nat)
    requires QueueOk(n) && j < k < |n.state.queue|
    requires n.state.queue[j].commit !in n.Gone() && n.state.queue[k].commit !in n.Gone()
    ensures FirstIndex(n.read, n.state.queue[j].commit) < FirstIndex(n.read, n.state.queue[k].commit) < |n.read|
  {
    SharedFilterOrder(n.state.queue, n.read, n.Gone(), j, k);
  }

  lemma {:induction false} FirstIndexPrefix(s: seq<Txn>, p: nat, c: TxCommit)
    requires p <= |s| && FirstIndex(s[..p], c) < p
    ensures FirstIndex(s, c) == FirstIndex(s[..p], c)
  {
    if p < |s| {
      assert Init(s)[..p] == s[..p];
      FirstIndexPrefix(Init(s), p, c);
    } else {
      assert s[..p] == s;
    }
  }

  lemma QueueOrderIsLogOrder(n: Node, log: seq<Txn>, j: nat, k: nat)
    requires NodeOk(n, log) && n.read == log[..n.state.position] && j < k < |n.state.queue|
    requires n.state.queue[j].commit !in n.Gone() && n.state.queue[k].commit !in n.Gone()
    ensures FirstIndex(log, n.state.queue[j].commit) < FirstIndex(log, n.state.queue[k].commit)
  {
    QueueOrderIsFirstIndex(n, j, k);
    FirstIndexPrefix(log, n.state.position, n.state.queue[j].commit);
    FirstIndexPrefix(log, n.state.position, n.state.queue[k].commit);
  }

  /** Order is preserved across forks: no two states of a run that missed nothing, on
      whatever branches, queue the same two never-included transactions in opposite orders. */
  lemma OrderPreserved(period: nat, t0: nat, steps: seq<Step>, i: nat, i': nat, j: nat, k: nat, j': nat, k': nat)
    requires i < |Final(period, t0, steps).nodes| && MissedNothing(Final(period, t0, steps).nodes[i])
    requires i' < |Final(period, t0, steps).nodes| && MissedNothing(Final(period, t0, steps).nodes[i'])
    requires var s := Final(period, t0, steps);
      var q, q' := s.nodes[i].state.queue, s.nodes[i'].state.queue;
      && j < k < |q| && j' < |q'| && k' < |q'|
      && q'[j'].commit == q[j].commit && q'[k'].commit == q[k].commit
      && q[j].commit !in s.nodes[i].Gone() + s.nodes[i'].Gone()
      && q[k].commit !in s.nodes[i].Gone() + s.nodes[i'].Gone()
    ensures j' < k'
  {
    ReadsPrefix(period, t0, steps, i);
    ReadsPrefix(period, t0, steps, i');
    var s := Final(period, t0, steps);
    QueueOrderIsLogOrder(s.nodes[i], s.log, j, k);
    if k' < j' {
      QueueOrderIsLogOrder(s.nodes[i'], s.log, k', j');
    }
  }

  /** In general, split forks included, two states queue the same two never-included
      transactions in opposite orders exactly when they first read them so. */
  lemma OrdersDifferIff(period: nat, t0: nat, steps: seq<Step>, i: nat, i': nat, j: nat, k: nat, j': nat, k': nat)
    requires i < |Final(period, t0, steps).nodes| && i' < |Final(period, t0, steps).nodes|
    requires var s := Final(period, t0, steps);
      var q, q' := s.nodes[i].state.queue, s.nodes[i'].state.queue;
      && j < k < |q| && j' < |q'| && k' < |q'|
      && q'[j'].commit == q[j].commit && q'[k'].commit == q[k].commit
      && q[j].commit !in s.nodes[i].Gone() + s.nodes[i'].Gone()
      && q[k].commit !in s.nodes[i].Gone() + s.nodes[i'].Gone()
    ensures var s := Final(period, t0, steps);
      var c, d := s.nodes[i].state.queue[j].commit, s.nodes[i].state.queue[k].commit;
      && FirstIndex(s.nodes[i].read, c) < FirstIndex(s.nodes[i].read, d)
      && (k' < j' <==> FirstIndex(s.nodes[i'].read, d) < FirstIndex(s.nodes[i'].read, c))
  {
    Reachable(period, t0, steps, i);
    Reachable(period, t0, steps, i');
    var s := Final(period, t0, steps);
    QueueOrderIsFirstIndex(s.nodes[i], j, k);
    if k' < j' {
      QueueOrderIsFirstIndex(s.nodes[i'], k', j');
    } else {
      assert j' != k';
      QueueOrderIsFirstIndex(s.nodes[i'], j', k');
    }
  }

  // ----- Split forks -----

  lemma LosslessFork(n: Node, log: seq<Txn>, child: Node, more: seq<Txn>)
    requires QueueOk(n) && Lossless(n, log) && QueueOk(child) && child.read == n.read && n.Gone() <= child.Gone()
    requires n.state.position <= child.state.position <= |log|
    requires more == log[n.state.position..child.state.position]
    ensures Lossless(child, log) <==> Commits(more) <= Commits(n.read) + child.Gone()
  {
    assert log[..child.state.position] == log[..n.state.position] + more;
    CommitsConcat(log[..n.state.position], more);
    QueueCommits(child);
    QueueCommits(n);
  }

  lemma SplitChild(n: Node, log: seq<Txn>, quorum: QuorumProposal, da: DaProposal, now: nat, position: nat)
    requires QueueOk(n) && Lossless(n, log) && n.state.position <= position <= |log|
    ensures var child := n.Fork(quorum, da, now, log[n.state.position..position]);
      && child.state.position == position
      && (Lossless(child, log) <==>
            Commits(log[n.state.position..position]) <= Commits(n.read) + child.Gone())
  {
    var more := log[n.state.position..position];
    var child := n.Fork(quorum, da, now, more);
    ForkKeepsQueue(n, quorum, da, now, more);
    UnionSnoc(n.blocks, SetOf(da.txnCommitments));
    LosslessFork(n, log, child, more);
  }

  lemma EndForkFacts(s: System, h: nat)
    requires Inv(s) && h < |s.halves|
    ensures var half := s.halves[h];
      && half.parent < |s.nodes| && QueueOk(half.snapshot)
      && var p, p' := half.snapshot.state.position, s.nodes[half.parent].state.position;
      && p <= p' <= |s.log|
      && Next(s, EndFork(h)).nodes
           == s.nodes + [half.snapshot.Fork(half.quorum, half.da, half.now, s.log[p..p'])]
  {
    EndForkChild(s, h);
  }

  /** Finishing a split fork of a state that had lost nothing loses nothing exactly when
      every message its parent consumed in between had been read before, or is in the
      child's block. In particular it is safe when the parent consumed none. */
  lemma SplitForkLossless(s: System, h: nat)
    requires Inv(s) && h < |s.halves| && Lossless(s.halves[h].snapshot, s.log)
    ensures var half := s.halves[h];
      var nodes := Next(s, EndFork(h)).nodes;
      var p, p' := half.snapshot.state.position, s.nodes[half.parent].state.position;
      && |nodes| == |s.nodes| + 1 && p <= p' <= |s.log|
      && nodes[|s.nodes|].state.position == p'
      && (Lossless(nodes[|s.nodes|], s.log) <==>
            Commits(s.log[p..p']) <= Commits(half.snapshot.read) + nodes[|s.nodes|].Gone())
  {
    EndForkFacts(s, h);
    var half := s.halves[h];
    SplitChild(half.snapshot, s.log, half.quorum, half.da, half.now, s.nodes[half.parent].state.position);
  }

  /** A parent receives `t` between the two halves of a fork for an empty block. */
  function SplitFork(t: Txn, quorum: QuorumProposal, da: DaProposal): seq<Step> {
    [Broadcast(t), BeginFork(0, quorum, da, 0), ForkTrees.Receive(0), EndFork(0)]
  }

  lemma FirstHalf(period: nat, t: Txn, quorum: QuorumProposal, da: DaProposal)
    ensures var s0 := Start(period, 0);
      var s := Next(Next(Next(s0, Broadcast(t)), BeginFork(0, quorum, da, 0)), ForkTrees.Receive(0));
      && s.log == [t] && s.nodes == [s0.nodes[0].Receive(t)] && s.halves == [Half(0, s0.nodes[0], quorum, da, 0)]
      && s.nodes[0].state.queue == [t]
  {
  }

  lemma EmptyFork(n: Node, quorum: QuorumProposal, da: DaProposal, now: nat, skipped: seq<Txn>)
    requires n.state.queue == [] && n.Gone() == {} && n.state.included.All() == {} && da.txnCommitments == []
    ensures var child := n.Fork(quorum, da, now, skipped);
      child.state.queue == [] && child.Gone() == {} && child.state.included.All() == {}
  {
    assert SetOf(da.txnCommitments) == {};
    UnionSnoc(n.blocks, {});
    assert n.state.included.Rotated(now).All() == {};
  }

  lemma SecondHalf(s: System, n: Node, t: Txn, quorum: QuorumProposal, da: DaProposal)
    requires s.log == [t] && n.state.position == 0
    requires s.nodes == [n.Receive(t)] && s.halves == [Half(0, n, quorum, da, 0)]
    ensures Next(s, EndFork(0)).log == [t]
    ensures Next(s, EndFork(0)).nodes == [s.nodes[0], n.Fork(quorum, da, 0, [t])]
  {
    assert Between([t], 0, 1) == [t];
  }

  lemma SplitForkFacts(period: nat, t: Txn, quorum: QuorumProposal, da: DaProposal)
    requires da.txnCommitments == []
    ensures var s := ForkTrees.Run(Start(period, 0), SplitFork(t, quorum, da));
      && |s.nodes| == 2 && s.log == [t]
      && s.nodes[0].state.queue == [t] && s.nodes[1].state.queue == []
      && (forall i :: 0 <= i < 2 ==>
            s.nodes[i].state.position == 1 && s.nodes[i].Gone() == {} && s.nodes[i].state.included.All() == {})
  {
    var s0 := Start(period, 0);
    var b, f, r, e := Broadcast(t), BeginFork(0, quorum, da, 0), ForkTrees.Receive(0), EndFork(0);
    var s3 := Next(Next(Next(s0, b), f), r);
    FirstHalf(period, t, quorum, da);
    SecondHalf(s3, s0.nodes[0], t, quorum, da);
    EmptyFork(s0.nodes[0], quorum, da, 0, [t]);
    RunFour(s0, b, f, r, e);
  }

  lemma RunFour(s: System, a: Step, b: Step, c: Step, d: Step)
    ensures ForkTrees.Run(s, [a, b, c, d]) == Next(Next(Next(Next(s, a), b), c), d)
  {
    assert [a, b, c, d][1..] == [b, c, d] && [b, c, d][1..] == [c, d] && [c, d][1..] == [d] && [d][1..] == [];
    var s3 := Next(Next(Next(s, a), b), c);
    assert ForkTrees.Run(Next(s, a), [b, c, d]) == ForkTrees.Run(Next(Next(s, a), b), [c, d]) == ForkTrees.Run(s3, [d]);
    assert ForkTrees.Run(s3, [d]) == ForkTrees.Run(Next(s3, d), []);
  }

  /** The code can lose a transaction: received by the parent after the queue was cloned
      and before the receiver was, it is in neither of the child's parts. */
  lemma SplitForkLoses(period: nat, t: Txn, quorum: QuorumProposal, da: DaProposal)
    requires da.txnCommitments == []
    ensures var s := ForkTrees.Run(Start(period, 0), SplitFork(t, quorum, da));
      && |s.nodes| == 2 && s.log == [t]
      && s.nodes[0].state.queue == [t]
      && s.nodes[1].state.position == 1 && s.nodes[1].state.queue == [] && !Lossless(s.nodes[1], s.log)
  {
    SplitForkFacts(period, t, quorum, da);
    assert t in [t] && t.commit in Commits([t][..1]);
  }

  /** It can also invert the order: the child missed `a`, reads `b` first and then a
      re-broadcast `a`, which its parent ignores as queued. */
  lemma SplitForkInverts(period: nat, a: Txn, b: Txn, quorum: QuorumProposal, da: DaProposal)
    requires a.commit != b.commit && da.txnCommitments == []
    ensures var steps := SplitFork(a, quorum, da)
        + [Broadcast(b), Broadcast(a), ForkTrees.Receive(0)] + [ForkTrees.Receive(1), ForkTrees.Receive(1)];
      var s := ForkTrees.Run(Start(period, 0), steps);
      && |s.nodes| == 2
      && s.nodes[0].state.queue == [a, b] && s.nodes[1].state.queue == [b, a]
      && s.nodes[0].Gone() == s.nodes[1].Gone() == {}
  {
    var first, second := SplitFork(a, quorum, da), [Broadcast(b), Broadcast(a), ForkTrees.Receive(0)];
    var third := [ForkTrees.Receive(1), ForkTrees.Receive(1)];
    var s1 := ForkTrees.Run(Start(period, 0), first);
    SplitForkFacts(period, a, quorum, da);
    SystemRunConcat(Start(period, 0), first + second, third);
    SystemRunConcat(Start(period, 0), first, second);
    ParentReads(s1, a, b);
    ChildReads(ForkTrees.Run(s1, second), a, b);
  }

  lemma ParentReads(s: System, a: Txn, b: Txn)
    requires a.commit != b.commit && |s.nodes| == 2 && s.log == [a]
    requires s.nodes[0].state.position == 1 && s.nodes[0].state.included.All() == {}
    requires s.nodes[0].state.queue == [a]
    ensures var s' := ForkTrees.Run(s, [Broadcast(b), Broadcast(a), ForkTrees.Receive(0)]);
      && s'.log == [a, b, a] && |s'.nodes| == 2 && s'.nodes[1] == s.nodes[1]
      && s'.nodes[0].state.queue == [a, b] && s'.nodes[0].Gone() == s.nodes[0].Gone()
  {
    var x, y, r := Broadcast(b), Broadcast(a), ForkTrees.Receive(0);
    assert [x, y, r][1..] == [y, r] && [y, r][1..] == [r] && [r][1..] == [];
    var s2 := Next(Next(s, x), y);
    var s3 := Next(s2, r);
    assert ForkTrees.Run(s, [x, y, r]) == ForkTrees.Run(Next(s, x), [y, r])
      == ForkTrees.Run(s2, [r]) == ForkTrees.Run(s3, []) == s3;
    assert s2.log == [a, b, a];
    assert s3.nodes[0].state.queue == [a, b];
  }

  lemma ChildReads(s: System, a: Txn, b: Txn)
    requires a.commit != b.commit && |s.nodes| == 2 && s.log == [a, b, a]
    requires s.nodes[1].state.position == 1 && s.nodes[1].state.included.All() == {}
    requires s.nodes[1].state.queue == []
    ensures var s' := ForkTrees.Run(s, [ForkTrees.Receive(1), ForkTrees.Receive(1)]);
      && |s'.nodes| == 2 && s'.nodes[0] == s.nodes[0]
      && s'.nodes[1].state.queue == [b, a] && s'.nodes[1].Gone() == s.nodes[1].Gone()
  {
    var r := ForkTrees.Receive(1);
    assert [r, r][1..] == [r] && [r][1..] == [];
    var s1 := Next(s, r);
    var s2 := Next(s1, r);
    assert ForkTrees.Run(s, [r, r]) == ForkTrees.Run(s1, [r]) == ForkTrees.Run(s2, []) == s2;
    assert s1.nodes[1].state.queue == [b] && s1.nodes[1].state.position == 2;
    assert s2.nodes[1].state.queue == [b, a];
  }

  lemma {:induction false} SystemRunConcat(s: System, first: seq<Step>, second: seq<Step>)
    ensures ForkTrees.Run(s, first + second) == ForkTrees.Run(ForkTrees.Run(s, first), second)
    decreases |first|
  {
    if first == [] {
      assert first + second == second;
    } else {
      assert (first + second)[1..] == first[1..] + second;
      SystemRunConcat(Next(s, first[0]), first[1..], second);
    }
  }
}
