/** How long empty blocks are allowed after a block with transactions: the older builder
    keeps a deadline, the newer one derives a flag from the parent references. */
module EmptyBlockWindow {
  import opened Blocks
  import opened BuilderStates
  import opened ProposalPairing
  import opened BlockBuilding

  /** The blocks from the first one after the bootstrap state to the one being extended. */
  type Chain = seq<Pair>

  /** Each pair is of one view, as pairing guarantees. */
  ghost predicate Paired(chain: Chain) {
    forall k :: 0 <= k < |chain| ==> chain[k].quorum.view == chain[k].da.view
  }

  function Front(chain: Chain): Chain
    requires chain != []
  {
    chain[..|chain| - 1]
  }

  function Tip(chain: Chain): Pair
    requires chain != []
  {
    chain[|chain| - 1]
  }

  /** The references of the state at the end of the chain, in the newer builder. */
  function RefsAt(chain: Chain): ParentRefs {
    if chain == [] then BOOTSTRAP else ChildRefs(RefsAt(Front(chain)), Tip(chain).quorum, Tip(chain).da)
  }

  /** The references name the block of a pair: its view, its three commitments, and how many
      transactions it has. */
  predicate NamesBlock(refs: ParentRefs, pair: Pair) {
    && refs.viewNumber == pair.quorum.view
    && refs.vidCommitment == pair.quorum.payloadCommitment
    && refs.leafCommit == pair.quorum.leafCommit
    && refs.builderCommitment == pair.quorum.builderCommitment
    && refs.txCount == |pair.da.txnCommitments|
  }

  lemma RefsNameTip(chain: Chain)
    requires chain != []
    ensures NamesBlock(RefsAt(chain), Tip(chain))
  {
  }

  /** The inherited deadline of the older builder: clones keep it, blocks with
      transactions renew it. */
  function AllowEmptyUntil(chain: Chain): Option<View> {
    if chain == [] then None
    else if Tip(chain).da.txnCommitments == [] then AllowEmptyUntil(Front(chain))
    else Some(Tip(chain).da.view + ALLOW_EMPTY_BLOCK_PERIOD)
  }

  /** The older builder answers requests for its own parent view only. */
  predicate LegacyAllowsEmpty(chain: Chain) {
    AllowEmptyUntil(chain).Some? && RefsAt(chain).viewNumber < AllowEmptyUntil(chain).value
  }

  predicate RefactoredAllowsEmpty(chain: Chain) { ShouldPrioritizeFinalization(RefsAt(chain)) }

  predicate HasTxns(pair: Pair) { pair.da.txnCommitments != [] }

  /** Block `k` is the nearest non-empty ancestor-or-self of the tip. */
  ghost predicate NearestNonempty(chain: Chain, k: int) {
    0 <= k < |chain| && HasTxns(chain[k]) && forall j :: k < j < |chain| ==> !HasTxns(chain[j])
  }

  lemma {:induction false} Remembered(chain: Chain)
    requires Paired(chain)
    ensures AllowEmptyUntil(chain).Some? <==> RefsAt(chain).lastNonemptyView.Some?
    ensures AllowEmptyUntil(chain).Some? ==>
      && AllowEmptyUntil(chain).value == RefsAt(chain).lastNonemptyView.value + ALLOW_EMPTY_BLOCK_PERIOD
      && exists k :: NearestNonempty(chain, k) && chain[k].quorum.view == RefsAt(chain).lastNonemptyView.value
    ensures AllowEmptyUntil(chain).None? ==> forall k :: 0 <= k < |chain| ==> !HasTxns(chain[k])
  {
    if chain != [] {
      Remembered(Front(chain));
      if HasTxns(Tip(chain)) {
        assert NearestNonempty(chain, |chain| - 1);
      } else if AllowEmptyUntil(chain).Some? {
        var front := Front(chain);
        var k :| NearestNonempty(front, k) && front[k].quorum.view == RefsAt(front).lastNonemptyView.value;
        assert NearestNonempty(chain, k);
      } else {
        forall k | 0 <= k < |chain| ensures !HasTxns(chain[k]) {
          if k < |chain| - 1 { assert chain[k] == Front(chain)[k]; }
        }
      }
    }
  }

  /** The older builder allows empty blocks exactly while the parent view is less than three
      past the nearest block with transactions. */
  lemma LegacyWindow(chain: Chain)
    requires Paired(chain)
    ensures LegacyAllowsEmpty(chain) <==>
      exists k :: NearestNonempty(chain, k) && Tip(chain).quorum.view < chain[k].quorum.view + 3
  {
    Remembered(chain);
    forall j, k | NearestNonempty(chain, j) && NearestNonempty(chain, k) ensures j == k {
      assert !(j < k) && !(k < j);
    }
  }

  /** In the newer builder the window is vacuous: in every reachable state the flag only
      says whether the parent block itself has transactions. */
  lemma RefactoredWindow(chain: Chain)
    ensures RefactoredAllowsEmpty(chain) <==> chain != [] && HasTxns(Tip(chain))
  {
    FlagIff(RefsAt(chain));
  }

  /** The newer window lies inside the older one, and they differ exactly on states whose
      parent block is empty but within three views of the nearest one that is not. */
  lemma WindowsDifferIff(chain: Chain)
    requires Paired(chain)
    ensures RefactoredAllowsEmpty(chain) ==> LegacyAllowsEmpty(chain)
    ensures LegacyAllowsEmpty(chain) && !RefactoredAllowsEmpty(chain) <==>
      exists k :: && NearestNonempty(chain, k) && k < |chain| - 1
                  && Tip(chain).quorum.view < chain[k].quorum.view + 3
  {
    LegacyWindow(chain);
    if RefactoredAllowsEmpty(chain) {
      assert NearestNonempty(chain, |chain| - 1);
    }
  }

  /** They do differ: one empty block after a non-empty one. */
  lemma WindowsDiffer(full: Pair, next: Pair)
    requires full.quorum.view == full.da.view && HasTxns(full)
    requires next.quorum.view == next.da.view == full.quorum.view + 1 && !HasTxns(next)
    ensures LegacyAllowsEmpty([full, next]) && !RefactoredAllowsEmpty([full, next])
  {
    assert NearestNonempty([full, next], 0);
    WindowsDifferIff([full, next]);
  }

  /** The documented rule, on the same references: without the count test and with the
      subtraction the other way round, the flag would be the older builder's, always. */
  predicate DocumentedFlag(refs: ParentRefs) {
    && refs.lastNonemptyView.Some?
    && SaturatingSub(refs.viewNumber, refs.lastNonemptyView.value) < ALLOW_EMPTY_BLOCK_PERIOD
  }

  lemma DocumentedFlagIsLegacy(chain: Chain)
    requires Paired(chain)
    ensures DocumentedFlag(RefsAt(chain)) <==> LegacyAllowsEmpty(chain)
  {
    Remembered(chain);
  }
}
