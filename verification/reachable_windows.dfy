/** The empty-block windows over the states that runs really reach: the references of every
    node of the fork tree, and of every state the coordinator stores, are those of a chain. */
module ReachableWindows {
  import opened Blocks
  import opened BuilderStates
  import opened BlockBuilding
  import opened EmptyBlockWindow
  import opened ProposalPairing
  import opened TieredViewMaps
  import opened ParentSelection
  import C = CoordinatorRuns
  import F = ForkTrees
  import ForkTheorems

  // ----- Nodes of the fork tree -----

  ghost predicate OnChain(n: F.Node, chain: Chain) {
    && |chain| == |n.blocks|
    && RefsAt(chain) == n.state.refs
    && forall k :: 0 <= k < |chain| ==> SetOf(chain[k].da.txnCommitments) == n.blocks[k]
  }

  ghost predicate HasChain(n: F.Node) { exists chain :: OnChain(n, chain) }

  lemma ForkHasChain(n: F.Node, quorum: QuorumProposal, da: DaProposal, now: nat, skipped: seq<Txn>)
    requires HasChain(n)
    ensures HasChain(n.Fork(quorum, da, now, skipped))
  {
    var chain :| OnChain(n, chain);
    var longer := chain + [Pair(quorum, da)];
    assert Front(longer) == chain && Tip(longer) == Pair(quorum, da);
    assert OnChain(n.Fork(quorum, da, now, skipped), longer);
  }

  lemma SameChain(n: F.Node, n': F.Node)
    requires HasChain(n) && n'.blocks == n.blocks && n'.state.refs == n.state.refs
    ensures HasChain(n')
  {
    var chain :| OnChain(n, chain);
    assert OnChain(n', chain);
  }

  ghost predicate AllOnChains(s: F.System) {
    && (forall i :: 0 <= i < |s.nodes| ==> HasChain(s.nodes[i]))
    && (forall h :: 0 <= h < |s.halves| ==> HasChain(s.halves[h].snapshot))
  }

  lemma NextOnChains(s: F.System, step: F.Step)
    requires AllOnChains(s)
    ensures AllOnChains(F.Next(s, step))
  {
    match step
    case Broadcast(_) =>
    case Receive(i) =>
      if i < |s.nodes| && s.nodes[i].state.position < |s.log| {
        SameChain(s.nodes[i], s.nodes[i].Receive(s.log[s.nodes[i].state.position]));
      }
    case Pop(i) =>
      if i < |s.nodes| { SameChain(s.nodes[i], s.nodes[i].Pop()); }
    case Fork(i, quorum, da, now) =>
      if i < |s.nodes| { ForkHasChain(s.nodes[i], quorum, da, now, []); }
    case BeginFork(_, _, _, _) =>
    case EndFork(h) =>
      if h < |s.halves| && s.halves[h].parent < |s.nodes| {
        var half := s.halves[h];
        var skipped := F.Between(s.log, half.snapshot.state.position, s.nodes[half.parent].state.position);
        ForkHasChain(half.snapshot, half.quorum, half.da, half.now, skipped);
      }
  }

  lemma {:induction false} RunOnChains(s: F.System, steps: seq<F.Step>)
    requires AllOnChains(s)
    ensures AllOnChains(F.Run(s, steps))
    decreases |steps|
  {
    if steps != [] {
      NextOnChains(s, steps[0]);
      RunOnChains(F.Next(s, steps[0]), steps[1..]);
    }
  }

  /** In every run of the fork tree a state extends a chain of its blocks and names the last
      of them, and it may build an empty block exactly when that block has transactions:
      the three-view window never matters. */
  lemma WindowInRuns(period: nat, t0: nat, steps: seq<F.Step>, i: nat) returns (chain: Chain)
    requires i < |ForkTheorems.Final(period, t0, steps).nodes|
    ensures var n := ForkTheorems.Final(period, t0, steps).nodes[i];
      && OnChain(n, chain) && (chain != [] ==> NamesBlock(n.state.refs, Tip(chain)))
      && (ShouldPrioritizeFinalization(n.state.refs) <==> n.blocks != [] && n.blocks[|n.blocks| - 1] != {})
  {
    assert OnChain(F.Start(period, t0).nodes[0], []);
    RunOnChains(F.Start(period, t0), steps);
    var n := ForkTheorems.Final(period, t0, steps).nodes[i];
    chain :| OnChain(n, chain);
    RefactoredWindow(chain);
    if chain != [] {
      RefsNameTip(chain);
      var cs := Tip(chain).da.txnCommitments;
      assert cs != [] ==> cs[0] in SetOf(cs);
    }
  }

  // ----- States of the coordinator -----

  ghost predicate HasPairedChain(refs: ParentRefs) { exists chain :: Paired(chain) && RefsAt(chain) == refs }

  lemma ChildHasPairedChain(parent: ParentRefs, pair: Pair)
    requires HasPairedChain(parent) && pair.da.view == pair.quorum.view
    ensures HasPairedChain(ChildRefs(parent, pair.quorum, pair.da))
  {
    var chain :| Paired(chain) && RefsAt(chain) == parent;
    var longer := chain + [pair];
    assert Front(longer) == chain && Tip(longer) == pair;
    assert Paired(longer) && RefsAt(longer) == ChildRefs(parent, pair.quorum, pair.da);
  }

  ghost predicate AllPaired(s: C.Coordinator) {
    && (forall v, c :: v in s.states && c in s.states[v] ==> HasPairedChain(s.states[v][c]))
    && (s.flight.Forked? ==> HasPairedChain(s.flight.parent))
  }

  lemma NextPaired(s: C.Coordinator, step: C.Step)
    requires C.Inv(s) && AllPaired(s)
    ensures AllPaired(C.Next(s, step))
  {
    if step.InsertChild? && s.flight.Forked? {
      ChildHasPairedChain(s.flight.parent, s.flight.pair);
    }
  }

  lemma {:induction false} RunPaired(s: C.Coordinator, steps: seq<C.Step>)
    requires C.Inv(s) && AllPaired(s)
    ensures AllPaired(C.Run(s, steps))
    decreases |steps|
  {
    if steps != [] {
      C.NextInv(s, steps[0]);
      NextPaired(s, steps[0]);
      RunPaired(C.Next(s, steps[0]), steps[1..]);
    }
  }

  /** Every state that a run of the coordinator stores extends a chain of paired proposals,
      names the last of them, and so the comparison of the two windows applies to it: the
      newer flag says whether its block has transactions, and the older builder's deadline
      is the documented rule. */
  lemma StoredOnChain(steps: seq<C.Step>, id: BuilderStateId) returns (chain: Chain)
    requires Stored(C.Run(C.START, steps).states, id)
    ensures var refs := Get(C.Run(C.START, steps).states, id.parentView, id.parentCommitment).value;
      && Paired(chain) && RefsAt(chain) == refs
      && (chain != [] ==> NamesBlock(refs, Tip(chain)))
      && (ShouldPrioritizeFinalization(refs) <==> refs.txCount != 0)
      && (LegacyAllowsEmpty(chain) <==> DocumentedFlag(refs))
  {
    C.StartInv();
    assert Paired([]) && RefsAt([]) == BOOTSTRAP;
    RunPaired(C.START, steps);
    var m: Registry := C.Run(C.START, steps).states;
    var refs := m[id.parentView][id.parentCommitment];
    assert HasPairedChain(refs);
    chain :| Paired(chain) && RefsAt(chain) == refs;
    RefactoredWindow(chain);
    DocumentedFlagIsLegacy(chain);
    if chain != [] { RefsNameTip(chain); }
  }

  /** What an insertion stores names the block of the pair in flight. */
  lemma InsertedNamesBlock(s: C.Coordinator)
    requires C.Inv(s) && s.flight.Forked?
    ensures var q := s.flight.pair.quorum;
      var stored := Get(C.Next(s, C.InsertChild).states, q.view, q.payloadCommitment);
      stored.Some? && NamesBlock(stored.value, s.flight.pair)
  {
    var chain := [s.flight.pair];
    RefsNameTip(chain);
    InsertIsFlat(s.states, s.flight.pair.quorum.view, s.flight.pair.quorum.payloadCommitment,
                 ChildRefs(s.flight.parent, s.flight.pair.quorum, s.flight.pair.da),
                 s.flight.pair.quorum.view, s.flight.pair.quorum.payloadCommitment);
  }
}
