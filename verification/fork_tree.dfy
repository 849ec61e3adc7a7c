/** The tree of builder states over one shared channel, as a step system.

    Any state may receive, lose an oversized head or fork at any time, in any order.
    Forking is modelled twice: atomically, and in the two steps the code really takes
    (clone the queue, later clone the receiver) with anything in between. */
module ForkTrees {
  import opened Blocks
  import opened TxnSeqs
  import opened RotatingSets
  import opened TransactionQueues
  import opened BuilderStates

  /** A state together with its history: `read` lists the messages its queue has seen
      (itself or through ancestors), `missed` those its receiver skipped because an
      ancestor consumed them between the two halves of a fork, `blocks` and `times`
      the blocks on its chain and when they forked it, `popped` the dropped heads. */
  datatype Node = Node(
    state: State, read: seq<Txn>, missed: seq<Txn>,
    blocks: seq<set<TxCommit>>, times: seq<nat>, popped: set<TxCommit>)
  {
    function Receive(t: Txn): Node {
      this.(state := state.Receive(t), read := read + [t])
    }

    function Pop(): Node {
      this.(state := state.Popped(),
            popped := if state.queue == [] then popped else popped + {state.queue[0].commit})
    }

    function Fork(quorum: QuorumProposal, da: DaProposal, now: nat, skipped: seq<Txn>): Node {
      Node(state.Child(quorum, da, now, state.position + |skipped|), read, missed + skipped,
           blocks + [SetOf(da.txnCommitments)], times + [now], popped)
    }

    /** Commits that left the queue for good reasons. */
    function Gone(): set<TxCommit> { Union(blocks) + popped }
  }

  function Union(blocks: seq<set<TxCommit>>): set<TxCommit> {
    if blocks == [] then {} else Union(blocks[..|blocks| - 1]) + blocks[|blocks| - 1]
  }

  /** A fork that has cloned the queue but not yet the receiver. */
  datatype Half = Half(parent: nat, snapshot: Node, quorum: QuorumProposal, da: DaProposal, now: nat)

  datatype System = System(log: seq<Txn>, nodes: seq<Node>, halves: seq<Half>)

  datatype Step =
    | Broadcast(t: Txn)
    | Receive(i: nat)
    | Pop(i: nat)
    | Fork(i: nat, quorum: QuorumProposal, da: DaProposal, now: nat)
    | BeginFork(i: nat, quorum: QuorumProposal, da: DaProposal, now: nat)
    | EndFork(h: nat)

  function Start(period: nat, now: nat): System {
    System([], [Node(NewState(BOOTSTRAP, period, now, 0), [], [], [], [], {})], [])
  }

  function Between(log: seq<Txn>, lo: nat, hi: nat): seq<Txn> {
    if lo <= hi <= |log| then log[lo..hi] else []
  }

  /** Steps that are not enabled leave the system as it is. */
  function Next(s: System, step: Step): System {
    match step
    case Broadcast(t) => s.(log := s.log + [t])
    case Receive(i) =>
      if i < |s.nodes| && s.nodes[i].state.position < |s.log|
      then s.(nodes := s.nodes[i := s.nodes[i].Receive(s.log[s.nodes[i].state.position])])
      else s
    case Pop(i) =>
      if i < |s.nodes| then s.(nodes := s.nodes[i := s.nodes[i].Pop()]) else s
    case Fork(i, quorum, da, now) =>
      if i < |s.nodes| then s.(nodes := s.nodes + [s.nodes[i].Fork(quorum, da, now, [])]) else s
    case BeginFork(i, quorum, da, now) =>
      if i < |s.nodes| then s.(halves := s.halves + [Half(i, s.nodes[i], quorum, da, now)]) else s
    case EndFork(h) =>
      if h < |s.halves| && s.halves[h].parent < |s.nodes| then
        var half := s.halves[h];
        var skipped := Between(s.log, half.snapshot.state.position, s.nodes[half.parent].state.position);
        System(s.log, s.nodes + [half.snapshot.Fork(half.quorum, half.da, half.now, skipped)],
               s.halves[..h] + s.halves[h + 1..])
      else s
  }

  function Run(s: System, steps: seq<Step>): System
    decreases |steps|
  {
    if steps == [] then s else Run(Next(s, steps[0]), steps[1..])
  }

  // ----- What every reachable node keeps -----

  /** Of what it has read, a queue holds exactly the first occurrences, in order, apart
      from commits that are on the chain or were popped (those may come back later). */
  ghost predicate ExactQueue(n: Node) {
    Without(n.state.queue, n.Gone()) == Without(FirstOccurrences(n.read), n.Gone())
  }

  ghost predicate LastThreeIncluded(g: Generations<TxCommit>, blocks: seq<set<TxCommit>>) {
    var k := |blocks|;
    && (k >= 1 ==> blocks[k - 1] <= g.newest)
    && (k >= 2 ==> blocks[k - 2] <= g.newest + g.stale)
    && (k >= 3 ==> blocks[k - 3] <= g.All())
  }

  predicate Ascending(times: seq<nat>) {
    forall i, j :: 0 <= i < j < |times| ==> times[i] <= times[j]
  }

  /** The tick before which commits of a block included at `t` stay included. */
  function Horizon(n: Node, t: nat): nat { t + 2 * n.state.included.period + 2 }

  ghost predicate RetainedByTime(n: Node) {
    && |n.times| == |n.blocks|
    && (Ascending(n.times) ==>
          forall k, c :: 0 <= k < |n.blocks| && c in n.blocks[k] && n.times[|n.times| - 1] < Horizon(n, n.times[k]) ==>
            SafeUntil(n.state.included, c, n.times[|n.times| - 1], Horizon(n, n.times[k])))
  }

  ghost predicate Accounted(n: Node, log: seq<Txn>) {
    && n.state.position <= |log|
    && multiset(log[..n.state.position]) == multiset(n.read) + multiset(n.missed)
    && Subsequence(n.read, log[..n.state.position])
    && (n.missed == [] ==> n.read == log[..n.state.position])
  }

  ghost predicate QueueOk(n: Node) {
    && Distinct(n.state.queue)
    && Subsequence(n.state.queue, n.read)
    && Commits(n.state.queue) !! n.state.included.All()
    && n.state.included.All() <= Union(n.blocks)
    && ExactQueue(n)
  }

  ghost predicate NodeOk(n: Node, log: seq<Txn>) {
    && Accounted(n, log)
    && QueueOk(n)
    && LastThreeIncluded(n.state.included, n.blocks)
    && RetainedByTime(n)
  }

  ghost predicate Inv(s: System) {
    && (forall i :: 0 <= i < |s.nodes| ==> NodeOk(s.nodes[i], s.log))
    && (forall h :: 0 <= h < |s.halves| ==>
          && NodeOk(s.halves[h].snapshot, s.log)
          && s.halves[h].parent < |s.nodes|
          && s.halves[h].snapshot.state.position <= s.nodes[s.halves[h].parent].state.position)
  }

  // ----- One node at a time -----

  /** Receiving `t` adds it to the queue and to the first occurrences alike, if at all. */
  lemma ReceiveKeepsExact(q: seq<Txn>, read: seq<Txn>, gone: set<TxCommit>, t: Txn, skip: bool)
    requires Without(q, gone) == Without(FirstOccurrences(read), gone)
    requires skip ==> t.commit in gone
    ensures Without(if skip then q else Inserted(q, t), gone) == Without(FirstOccurrences(read + [t]), gone)
  {
    assert Init(read + [t]) == read && Last(read + [t]) == t;
    WithoutConcat(q, [t], gone);
    WithoutConcat(FirstOccurrences(read), [t], gone);
    WithoutSingle(t, gone);
    FirstOccurrencesCommits(read);
    WithoutCommits(q, gone);
    WithoutCommits(FirstOccurrences(read), gone);
    assert t.commit !in gone ==> (t.commit in Commits(q) <==> t.commit in Commits(read)) by {
      assert t.commit !in gone ==> (t.commit in Commits(q) <==> t.commit in Commits(q) - gone);
      assert t.commit !in gone ==> (t.commit in Commits(read) <==> t.commit in Commits(read) - gone);
    }
  }

  lemma InsertedIsDistinct(q: seq<Txn>, t: Txn)
    requires Distinct(q)
    ensures Distinct(Inserted(q, t)) && Commits(Inserted(q, t)) == Commits(q) + {t.commit}
  {
    AppendDistinct(q, t);
    CommitsConcat(q, [t]);
  }

  lemma InsertedIsSubsequence(q: seq<Txn>, read: seq<Txn>, t: Txn)
    requires Subsequence(q, read)
    ensures Subsequence(Inserted(q, t), read + [t])
  {
    SubsequenceAppend(q, read, t);
  }

  lemma ReceiveKeepsQueue(n: Node, t: Txn)
    requires QueueOk(n)
    ensures QueueOk(n.Receive(t))
  {
    var q, skip := n.state.queue, n.state.included.Contains(t.commit);
    assert skip ==> t.commit in n.state.included.All();
    ReceiveKeepsExact(q, n.read, n.Gone(), t, skip);
    InsertedIsDistinct(q, t);
    InsertedIsSubsequence(q, n.read, t);
    SubsequenceAppend(q, n.read, t);
  }

  lemma WithoutHead(q: seq<Txn>, drop: set<TxCommit>)
    requires q != [] && q[0].commit in drop
    ensures Without(q[1..], drop) == Without(q, drop)
  {
    assert q == [q[0]] + q[1..];
    WithoutConcat([q[0]], q[1..], drop);
    WithoutSingle(q[0], drop);
  }

  lemma PopKeepsExact(q: seq<Txn>, f: seq<Txn>, gone: set<TxCommit>)
    requires q != [] && Without(q, gone) == Without(f, gone)
    ensures Without(q[1..], gone + {q[0].commit}) == Without(f, gone + {q[0].commit})
  {
    var more := gone + {q[0].commit};
    WithoutHead(q, more);
    WithoutWithout(q, gone, {q[0].commit});
    WithoutWithout(f, gone, {q[0].commit});
  }

  lemma PopKeepsQueue(n: Node)
    requires QueueOk(n)
    ensures QueueOk(n.Pop())
  {
    var q := n.state.queue;
    if q != [] {
      PopCommits(q);
      SuffixSubsequence(q, 1);
      SubsequenceTrans(q[1..], q, n.read);
      assert n.Pop().Gone() == n.Gone() + {q[0].commit};
      PopKeepsExact(q, FirstOccurrences(n.read), n.Gone());
    }
  }

  lemma UnionSnoc(blocks: seq<set<TxCommit>>, b: set<TxCommit>)
    ensures Union(blocks + [b]) == Union(blocks) + b
  {
    assert (blocks + [b])[..|blocks|] == blocks;
  }

  lemma ForkKeepsQueue(n: Node, quorum: QuorumProposal, da: DaProposal, now: nat, skipped: seq<Txn>)
    requires QueueOk(n)
    ensures QueueOk(n.Fork(quorum, da, now, skipped))
  {
    var q, b := n.state.queue, SetOf(da.txnCommitments);
    var child := n.Fork(quorum, da, now, skipped);
    UnionSnoc(n.blocks, b);
    WithoutDistinct(q, b);
    WithoutCommits(q, b);
    WithoutSubsequence(q, b);
    SubsequenceTrans(Without(q, b), q, n.read);
    assert child.Gone() == n.Gone() + b == b + child.Gone();
    WithoutWithout(q, b, child.Gone());
    WithoutWithout(q, n.Gone(), b);
    WithoutWithout(FirstOccurrences(n.read), n.Gone(), b);
  }

  lemma ForkKeepsLastThree(n: Node, quorum: QuorumProposal, da: DaProposal, now: nat, skipped: seq<Txn>)
    requires LastThreeIncluded(n.state.included, n.blocks)
    ensures var child := n.Fork(quorum, da, now, skipped);
            LastThreeIncluded(child.state.included, child.blocks)
  {
  }

  lemma ForkKeepsRetained(n: Node, quorum: QuorumProposal, da: DaProposal, now: nat, skipped: seq<Txn>)
    requires RetainedByTime(n)
    ensures RetainedByTime(n.Fork(quorum, da, now, skipped))
  {
    var child := n.Fork(quorum, da, now, skipped);
    if Ascending(child.times) {
      var last := |n.times|;
      assert forall i :: 0 <= i < last ==> child.times[i] == n.times[i];
      assert Ascending(n.times);
      forall k, c | 0 <= k < |child.blocks| && c in child.blocks[k] && now < Horizon(child, child.times[k])
        ensures SafeUntil(child.state.included, c, now, Horizon(child, child.times[k]))
      {
        if k < last {
          assert child.times[last - 1] <= child.times[last];
          assert SafeUntil(n.state.included, c, n.times[last - 1], Horizon(n, n.times[k]));
        }
      }
    }
  }

  lemma SnocCounts(prefix: seq<Txn>, read: seq<Txn>, missed: seq<Txn>, t: Txn)
    requires multiset(prefix) == multiset(read) + multiset(missed)
    ensures multiset(prefix + [t]) == multiset(read + [t]) + multiset(missed)
  {
  }

  lemma ReceiveKeepsAccount(n: Node, log: seq<Txn>)
    requires Accounted(n, log) && n.state.position < |log|
    ensures Accounted(n.Receive(log[n.state.position]), log)
  {
    var p, t := n.state.position, log[n.state.position];
    assert log[..p + 1] == log[..p] + [t];
    var n' := n.Receive(t);
    assert n'.state.position == p + 1 && n'.read == n.read + [t] && n'.missed == n.missed;
    SnocCounts(log[..p], n.read, n.missed, t);
    SubsequenceAppend(n.read, log[..p], t);
  }

  lemma ForkKeepsAccount(n: Node, log: seq<Txn>, quorum: QuorumProposal, da: DaProposal, now: nat, position: nat)
    requires Accounted(n, log) && n.state.position <= position <= |log|
    ensures Accounted(n.Fork(quorum, da, now, log[n.state.position..position]), log)
  {
    var p := n.state.position;
    assert log[..position] == log[..p] + log[p..position];
    PrefixSubsequence(log[..p], log[p..position]);
    SubsequenceTrans(n.read, log[..p], log[..position]);
  }

  lemma {:induction false} PrefixSubsequence(a: seq<Txn>, b: seq<Txn>)
    ensures Subsequence(a, a + b)
  {
    if b == [] {
      assert a + b == a;
      SubsequenceRefl(a);
    } else {
      PrefixSubsequence(a, Init(b));
      assert Init(a + b) == a + Init(b);
    }
  }

  // ----- Whole runs -----

  lemma StartInv(period: nat, now: nat)
    ensures Inv(Start(period, now))
  {
  }

  lemma SameIncluded(n: Node, n': Node)
    requires n'.state.included == n.state.included && n'.blocks == n.blocks && n'.times == n.times
    requires LastThreeIncluded(n.state.included, n.blocks) && RetainedByTime(n)
    ensures LastThreeIncluded(n'.state.included, n'.blocks) && RetainedByTime(n')
  {
  }

  lemma NodeReceive(n: Node, log: seq<Txn>)
    requires NodeOk(n, log) && n.state.position < |log|
    ensures NodeOk(n.Receive(log[n.state.position]), log)
  {
    var n' := n.Receive(log[n.state.position]);
    SameIncluded(n, n');
    ReceiveKeepsQueue(n, log[n.state.position]);
    ReceiveKeepsAccount(n, log);
  }

  lemma NodePop(n: Node, log: seq<Txn>)
    requires NodeOk(n, log)
    ensures NodeOk(n.Pop(), log)
  {
    SameIncluded(n, n.Pop());
    PopKeepsQueue(n);
  }

  lemma NodeFork(n: Node, log: seq<Txn>, quorum: QuorumProposal, da: DaProposal, now: nat, position: nat)
    requires NodeOk(n, log) && n.state.position <= position <= |log|
    ensures NodeOk(n.Fork(quorum, da, now, log[n.state.position..position]), log)
  {
    var skipped := log[n.state.position..position];
    ForkKeepsQueue(n, quorum, da, now, skipped);
    ForkKeepsLastThree(n, quorum, da, now, skipped);
    ForkKeepsRetained(n, quorum, da, now, skipped);
    ForkKeepsAccount(n, log, quorum, da, now, position);
  }

  lemma NodeBroadcast(n: Node, log: seq<Txn>, t: Txn)
    requires NodeOk(n, log)
    ensures NodeOk(n, log + [t])
  {
    assert (log + [t])[..n.state.position] == log[..n.state.position];
  }

  lemma UpdatedInv(s: System, i: nat, n: Node)
    requires Inv(s) && i < |s.nodes|
    requires NodeOk(n, s.log) && n.state.position >= s.nodes[i].state.position
    ensures Inv(s.(nodes := s.nodes[i := n]))
  {
  }

  lemma AddedInv(s: System, n: Node)
    requires Inv(s) && NodeOk(n, s.log)
    ensures Inv(s.(nodes := s.nodes + [n]))
  {
  }

  lemma BroadcastInv(s: System, t: Txn)
    requires Inv(s)
    ensures Inv(s.(log := s.log + [t]))
  {
    forall i | 0 <= i < |s.nodes| ensures NodeOk(s.nodes[i], s.log + [t]) {
      NodeBroadcast(s.nodes[i], s.log, t);
    }
    forall h | 0 <= h < |s.halves| ensures NodeOk(s.halves[h].snapshot, s.log + [t]) {
      NodeBroadcast(s.halves[h].snapshot, s.log, t);
    }
  }

  lemma EndForkChild(s: System, h: nat)
    requires Inv(s) && h < |s.halves|
    ensures var half := s.halves[h];
      var p, p' := half.snapshot.state.position, s.nodes[half.parent].state.position;
      && p <= p' <= |s.log|
      && NodeOk(half.snapshot.Fork(half.quorum, half.da, half.now, s.log[p..p']), s.log)
  {
    var half := s.halves[h];
    assert NodeOk(s.nodes[half.parent], s.log);
    NodeFork(half.snapshot, s.log, half.quorum, half.da, half.now, s.nodes[half.parent].state.position);
  }

  lemma RemovedInv(s: System, h: nat)
    requires Inv(s) && h < |s.halves|
    ensures Inv(s.(halves := s.halves[..h] + s.halves[h + 1..]))
  {
  }

  lemma EndForkInv(s: System, h: nat)
    requires Inv(s) && h < |s.halves|
    ensures Inv(Next(s, EndFork(h)))
  {
    var half := s.halves[h];
    var p, p' := half.snapshot.state.position, s.nodes[half.parent].state.position;
    EndForkChild(s, h);
    RemovedInv(s, h);
    AddedInv(s.(halves := s.halves[..h] + s.halves[h + 1..]),
             half.snapshot.Fork(half.quorum, half.da, half.now, s.log[p..p']));
  }

  lemma ReceiveInv(s: System, i: nat)
    requires Inv(s)
    ensures Inv(Next(s, Receive(i)))
  {
    if i < |s.nodes| && s.nodes[i].state.position < |s.log| {
      NodeReceive(s.nodes[i], s.log);
      UpdatedInv(s, i, s.nodes[i].Receive(s.log[s.nodes[i].state.position]));
    }
  }

  lemma PopInv(s: System, i: nat)
    requires Inv(s)
    ensures Inv(Next(s, Pop(i)))
  {
    if i < |s.nodes| {
      NodePop(s.nodes[i], s.log);
      UpdatedInv(s, i, s.nodes[i].Pop());
    }
  }

  lemma ForkInv(s: System, i: nat, quorum: QuorumProposal, da: DaProposal, now: nat)
    requires Inv(s)
    ensures Inv(Next(s, Step.Fork(i, quorum, da, now)))
  {
    if i < |s.nodes| {
      var p := s.nodes[i].state.position;
      assert s.log[p..p] == [];
      NodeFork(s.nodes[i], s.log, quorum, da, now, p);
      AddedInv(s, s.nodes[i].Fork(quorum, da, now, []));
    }
  }

  lemma BeginForkInv(s: System, i: nat, quorum: QuorumProposal, da: DaProposal, now: nat)
    requires Inv(s)
    ensures Inv(Next(s, BeginFork(i, quorum, da, now)))
  {
    if i < |s.nodes| {
      HalfInv(s, Half(i, s.nodes[i], quorum, da, now));
    }
  }

  lemma HalfInv(s: System, half: Half)
    requires Inv(s) && NodeOk(half.snapshot, s.log) && half.parent < |s.nodes|
    requires half.snapshot.state.position <= s.nodes[half.parent].state.position
    ensures Inv(s.(halves := s.halves + [half]))
  {
  }

  lemma NextInv(s: System, step: Step)
    requires Inv(s)
    ensures Inv(Next(s, step))
  {
    match step
    case Broadcast(t) => BroadcastInv(s, t);
    case Receive(i) => ReceiveInv(s, i);
    case Pop(i) => PopInv(s, i);
    case Fork(i, quorum, da, now) => ForkInv(s, i, quorum, da, now);
    case BeginFork(i, quorum, da, now) => BeginForkInv(s, i, quorum, da, now);
    case EndFork(h) => if h < |s.halves| { EndForkInv(s, h); }
  }

  lemma {:induction false} RunInv(s: System, steps: seq<Step>)
    requires Inv(s)
    ensures Inv(Run(s, steps))
    decreases |steps|
  {
    if steps != [] {
      NextInv(s, steps[0]);
      RunInv(Next(s, steps[0]), steps[1..]);
    }
  }
}
