/** Data shared by every component: transactions, proposals and identifiers.

    Digests (transaction, payload, leaf and builder commitments) are opaque in the
    system: the code below only ever compares them for equality. */
module Blocks {
  datatype Option<+T> = None | Some(value: T)

  function Min(a: nat, b: nat): nat { if a <= b then a else b }

  type View = nat
  type TxCommit = int
  type VidCommit = int
  type LeafCommit = int
  type BuilderCommit = int

  /** A received transaction: its digest and the least block size it needs. */
  datatype Txn = Txn(commit: TxCommit, minBlockSize: nat)

  /** Names the builder state that extends the block `parentCommitment` of view `parentView`. */
  datatype BuilderStateId = BuilderStateId(parentView: View, parentCommitment: VidCommit)

  datatype BlockId = BlockId(view: View, hash: BuilderCommit)

  /** What a builder state remembers of the block it extends. */
  datatype ParentRefs = ParentRefs(
    viewNumber: View,
    vidCommitment: VidCommit,
    leafCommit: LeafCommit,
    builderCommitment: BuilderCommit,
    txCount: nat,
    lastNonemptyView: Option<View>)
  {
    function Id(): BuilderStateId { BuilderStateId(viewNumber, vidCommitment) }
  }

  /** The references of the first state, which correspond to no real block. */
  const BOOTSTRAP := ParentRefs(0, 0, 0, 0, 0, None)

  /** `leafCommit` is the digest of the leaf that the proposal determines; the two
      `justify` fields are the view and leaf named by its quorum certificate. */
  datatype QuorumProposal = QuorumProposal(
    view: View,
    payloadCommitment: VidCommit,
    builderCommitment: BuilderCommit,
    leafCommit: LeafCommit,
    justifyView: View,
    justifyLeafCommit: LeafCommit)
  {
    function Id(): BuilderStateId { BuilderStateId(view, payloadCommitment) }
  }

  /** `builderCommitment` and `txnCommitments` are read off the decoded payload. */
  datatype DaProposal = DaProposal(
    view: View,
    builderCommitment: BuilderCommit,
    txnCommitments: seq<TxCommit>)
}
