/** The objects follow the step system: whatever is done to builder states that share a
    channel, their values are those of the nodes after a run. */
module ForkObjects {
  import opened Blocks
  import opened BuilderStates
  import opened ForkTrees
  import ForkTheorems

  /** `states[i]` holds the value of node `i`, and no two states share a queue. */
  ghost predicate Mirrors(states: seq<BuilderState>, channel: TxnChannel, s: System)
    reads channel, states, set b | b in states :: b.txnQueue, set b | b in states :: b.includedTxns
  {
    && channel.log == s.log && |states| == |s.nodes|
    && (forall i :: 0 <= i < |states| ==>
          states[i].channel == channel && states[i].Valid() && states[i].Value() == s.nodes[i].state)
    && (forall i, j :: 0 <= i < j < |states| ==>
          states[i] != states[j] && states[i].txnQueue != states[j].txnQueue)
  }

  method BroadcastMirrored(ghost states: seq<BuilderState>, channel: TxnChannel, t: Txn, ghost s: System)
    requires Mirrors(states, channel, s)
    modifies channel
    ensures Mirrors(states, channel, Next(s, Broadcast(t)))
  {
    var _ := channel.TryBroadcast(t, true);
  }

  method CollectMirrored(ghost states: seq<BuilderState>, channel: TxnChannel, ghost i: nat, state: BuilderState,
                         attempts: nat, ghost s: System)
      returns (ghost n: nat)
    requires Mirrors(states, channel, s) && i < |states| && states[i] == state
    modifies state`received, state.txnQueue
    ensures Mirrors(states, channel, ForkTrees.Run(s, ForkTheorems.Receives(i, n)))
    ensures n <= attempts && (n < attempts ==> state.received == |channel.log|)
  {
    ghost var from := state.received;
    var _ := state.CollectTxns(attempts);
    n := state.received - from;
    ForkTheorems.DrainIsRun(s, i, n);
  }

  method ForkMirrored(states: seq<BuilderState>, channel: TxnChannel, i: nat,
                      quorum: QuorumProposal, da: DaProposal, now: nat, ghost s: System)
      returns (states': seq<BuilderState>)
    requires Mirrors(states, channel, s) && i < |states|
    ensures states <= states' && |states'| == |states| + 1
    ensures Mirrors(states', channel, Next(s, Fork(i, quorum, da, now)))
  {
    var child := states[i].NewChild(quorum, da, now);
    states' := states + [child];
  }

  method PopMirrored(ghost states: seq<BuilderState>, channel: TxnChannel, ghost i: nat, state: BuilderState,
                     ghost s: System)
    requires Mirrors(states, channel, s) && i < |states| && states[i] == state
    modifies state.txnQueue
    ensures Mirrors(states, channel, Next(s, Pop(i)))
  {
    var _ := state.txnQueue.PopFront();
  }
}
