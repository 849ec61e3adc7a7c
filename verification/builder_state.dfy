/** One builder state: its included set, its queue and its place in the transaction channel. */
module BuilderStates {
  import opened Blocks
  import opened TxnSeqs
  import opened RotatingSets
  import opened TransactionQueues

  function SetOf(cs: seq<TxCommit>): set<TxCommit> { set c | c in cs }

  /** The references of the state that extends the block of a pair of proposals. */
  function ChildRefs(parent: ParentRefs, quorum: QuorumProposal, da: DaProposal): ParentRefs {
    ParentRefs(
      quorum.view, quorum.payloadCommitment, quorum.leafCommit, quorum.builderCommitment,
      |da.txnCommitments|,
      if da.txnCommitments == [] then parent.lastNonemptyView else Some(quorum.view))
  }

  /** The value of a builder state. `position` counts the channel messages it has consumed. */
  datatype State = State(
    refs: ParentRefs, included: Generations<TxCommit>, queue: seq<Txn>, position: nat)
  {
    /** One receive: a recently included transaction is dropped, the others are queued. */
    function Receive(t: Txn): State {
      var next := this.(position := position + 1);
      if included.Contains(t.commit) then next else next.(queue := Inserted(queue, t))
    }

    function ReceiveAll(ts: seq<Txn>): State
      decreases |ts|
    {
      if ts == [] then this else Receive(ts[0]).ReceiveAll(ts[1..])
    }

    /** The state for the block of a pair of proposals. `childPosition` is the place of
        the cloned receiver, which the source reads after the queue. */
    function Child(quorum: QuorumProposal, da: DaProposal, now: nat, childPosition: nat): State {
      State(
        ChildRefs(refs, quorum, da),
        included.Rotated(now).Extended(SetOf(da.txnCommitments)),
        Without(queue, SetOf(da.txnCommitments)),
        childPosition)
    }

    function Popped(): State { if queue == [] then this else this.(queue := queue[1..]) }
  }

  function NewState(refs: ParentRefs, period: nat, now: nat, position: nat): State {
    State(refs, Empty(period, now), [], position)
  }

  /** The broadcast channel: every accepted message stays visible to the receivers
      that have not reached it yet, so the whole history is kept as a log. */
  class TxnChannel {
    var log: seq<Txn>

    constructor ()
      ensures log == []
    {
      log := [];
    }

    /** `hasRoom` stands for the channel's own verdict: a full channel refuses the message. */
    method TryBroadcast(t: Txn, hasRoom: bool) returns (accepted: bool)
      modifies this
      ensures accepted == hasRoom
      ensures log == if hasRoom then old(log) + [t] else old(log)
    {
      if hasRoom {
        log := log + [t];
      }
      accepted := hasRoom;
    }
  }

  class BuilderState {
    const refs: ParentRefs
    const includedTxns: RotatingSet<TxCommit>
    const txnQueue: TransactionQueue
    const channel: TxnChannel
    var received: nat

    ghost predicate Valid()
      reads this, txnQueue, channel
    {
      txnQueue.Valid() && received <= |channel.log|
    }

    ghost function Footprint(): set<object> { {this, includedTxns, txnQueue} }

    function Value(): State
      reads this, includedTxns, txnQueue
    {
      State(refs, includedTxns.Value(), txnQueue.transactions, received)
    }

    constructor (refs: ParentRefs, period: nat, now: nat, channel: TxnChannel)
      ensures Valid() && fresh(Footprint()) && this.channel == channel && this.refs == refs
      ensures Value() == NewState(refs, period, now, |channel.log|) && received == |channel.log|
    {
      this.refs := refs;
      includedTxns := new RotatingSet(period, now);
      txnQueue := new TransactionQueue();
      this.channel := channel;
      received := |channel.log|;
    }

    /** Assembles a child from parts made for it. */
    constructor FromParts(refs: ParentRefs, included: RotatingSet<TxCommit>, queue: TransactionQueue,
                          channel: TxnChannel, received: nat)
      requires queue.Valid() && received <= |channel.log|
      ensures Valid() && fresh(this)
      ensures this.refs == refs && includedTxns == included && txnQueue == queue
      ensures this.channel == channel && this.received == received
    {
      this.refs, includedTxns, txnQueue := refs, included, queue;
      this.channel, this.received := channel, received;
    }

    method NewChild(quorum: QuorumProposal, da: DaProposal, now: nat) returns (child: BuilderState)
      requires Valid()
      ensures Valid() && child.Valid() && fresh(child.Footprint()) && child.channel == channel
      ensures child.refs == child.Value().refs
      ensures child.Value() == old(Value()).Child(quorum, da, now, received)
    {
      var included := new RotatingSet.Clone(includedTxns);
      var _ := included.Rotate(now);
      var lastNonempty := if |da.txnCommitments| == 0 then refs.lastNonemptyView else Some(quorum.view);
      var childRefs := ParentRefs(quorum.view, quorum.payloadCommitment, quorum.leafCommit,
                                  quorum.builderCommitment, |da.txnCommitments|, lastNonempty);
      var queue := new TransactionQueue.Clone(txnQueue);
      queue.Prune(da.txnCommitments);
      included.Extend(da.txnCommitments);
      child := new BuilderState.FromParts(childRefs, included, queue, channel, received);
    }

    /** Drains the channel until it is empty or the deadline passes; `attempts` is how many
        receives fit before the deadline. The result tells whether the queue is EMPTY. */
    method CollectTxns(attempts: nat) returns (queueEmpty: bool)
      requires Valid()
      modifies this`received, txnQueue
      ensures Valid()
      ensures received == if old(received) + attempts <= |channel.log| then old(received) + attempts else |channel.log|
      ensures Value() == old(Value()).ReceiveAll(channel.log[old(received)..received])
      ensures queueEmpty <==> Value().queue == []
    {
      queueEmpty := txnQueue.IsEmpty();
      var n := 0;
      while n < attempts
        invariant n <= attempts && received == old(received) + n <= |channel.log|
        invariant txnQueue.Valid()
        invariant Value() == old(Value()).ReceiveAll(channel.log[old(received)..received])
        invariant queueEmpty <==> txnQueue.transactions == []
      {
        if received == |channel.log| {
          break;
        }
        var t := channel.log[received];
        ghost var before := Value();
        ghost var drained := channel.log[old(received)..received];
        received := received + 1;
        assert channel.log[old(received)..received] == drained + [t];
        ReceiveAllSnoc(old(Value()), drained, t);
        var seen := includedTxns.Contains(t.commit);
        if !seen {
          var _ := txnQueue.Insert(t);
          queueEmpty := false;
        }
        assert Value() == before.Receive(t);
        n := n + 1;
      }
    }
  }

  lemma {:induction false} ReceiveAllSnoc(s: State, ts: seq<Txn>, t: Txn)
    ensures s.ReceiveAll(ts + [t]) == s.ReceiveAll(ts).Receive(t)
    decreases |ts|
  {
    if ts == [] {
      assert [t][1..] == [];
      assert ts + [t] == [t];
    } else {
      assert (ts + [t])[1..] == ts[1..] + [t];
      ReceiveAllSnoc(s.Receive(ts[0]), ts[1..], t);
    }
  }
}
