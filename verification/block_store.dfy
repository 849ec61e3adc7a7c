/** The blocks offered so far, and which of them was offered last to each requester. */
module BlockStores {
  import opened Blocks
  import opened TieredViewMaps

  /** `Info` is whatever is kept of a built block. */
  datatype Store<Info> = Store(
    blocks: Tiers<BuilderCommit, Info>, cache: Tiers<VidCommit, BlockId>)
  {
    function Update(builtBy: BuilderStateId, blockId: BlockId, info: Info): Store<Info> {
      Store(Inserted(blocks, blockId.view, blockId.hash, info),
            Inserted(cache, builtBy.parentView, builtBy.parentCommitment, blockId))
    }

    function Prune(cutoff: View): Store<Info> {
      Store(AtLeast(blocks, cutoff), AtLeast(cache, cutoff))
    }

    function Cached(id: BuilderStateId): Option<BlockId> { Get(cache, id.parentView, id.parentCommitment) }

    function GetBlock(id: BlockId): Option<Info> { Get(blocks, id.view, id.hash) }

    function GetCached(id: BuilderStateId): Option<Info> {
      match Cached(id)
      case None => None
      case Some(blockId) => GetBlock(blockId)
    }
  }

  class BlockStore<Info> {
    const blocks: TieredViewMap<BuilderCommit, Info>
    const blockCache: TieredViewMap<VidCommit, BlockId>

    ghost predicate Valid()
      reads this, blocks, blockCache
    {
      blocks.Valid() && blockCache.Valid() && blocks as object != blockCache as object
    }

    function Value(): Store<Info>
      reads this, blocks, blockCache
    {
      Store(blocks.tiers, blockCache.tiers)
    }

    constructor ()
      ensures Valid() && fresh(blocks) && fresh(blockCache)
      ensures Value() == Store(map[], map[])
    {
      blocks := new TieredViewMap();
      blockCache := new TieredViewMap();
    }

    method Update(builtBy: BuilderStateId, blockId: BlockId, info: Info)
      requires Valid()
      modifies blocks, blockCache
      ensures Valid() && Value() == old(Value()).Update(builtBy, blockId, info)
    {
      blocks.Insert(blockId.view, blockId.hash, info);
      blockCache.Insert(builtBy.parentView, builtBy.parentCommitment, blockId);
    }

    method GetCached(builderId: BuilderStateId) returns (info: Option<Info>)
      requires Valid()
      ensures info == Value().GetCached(builderId)
    {
      match Get(blockCache.tiers, builderId.parentView, builderId.parentCommitment)
      case None => info := None;
      case Some(blockId) => info := Get(blocks.tiers, blockId.view, blockId.hash);
    }

    method Prune(cutoff: View)
      requires Valid()
      modifies blocks, blockCache
      ensures Valid() && Value() == old(Value()).Prune(cutoff)
    {
      var _ := blocks.Prune(cutoff);
      var _ := blockCache.Prune(cutoff);
    }
  }

  // ----- Whole runs -----

  datatype Op<Info> = Update(builtBy: BuilderStateId, blockId: BlockId, info: Info) | Prune(cutoff: View)

  function Step<Info>(s: Store<Info>, op: Op<Info>): Store<Info> {
    match op
    case Update(builtBy, blockId, info) => s.Update(builtBy, blockId, info)
    case Prune(cutoff) => s.Prune(cutoff)
  }

  function Run<Info>(s: Store<Info>, ops: seq<Op<Info>>): Store<Info>
    decreases |ops|
  {
    if ops == [] then s else Run(Step(s, ops[0]), ops[1..])
  }

  /** Every cached id leads to a present block. */
  ghost predicate NoDangling<Info>(s: Store<Info>) {
    forall id :: s.Cached(id).Some? ==> s.GetCached(id).Some?
  }

  /** ... of a view not below the requester's. */
  ghost predicate Outlives<Info>(s: Store<Info>) {
    NoDangling(s) && forall id :: s.Cached(id).Some? ==> s.Cached(id).value.view >= id.parentView
  }

  predicate GoodUpdates<Info>(ops: seq<Op<Info>>) {
    forall k :: 0 <= k < |ops| && ops[k].Update? ==> ops[k].blockId.view >= ops[k].builtBy.parentView
  }

  lemma UpdateOutlives<Info>(s: Store<Info>, builtBy: BuilderStateId, blockId: BlockId, info: Info)
    requires Outlives(s) && blockId.view >= builtBy.parentView
    ensures Outlives(s.Update(builtBy, blockId, info))
  {
    var s' := s.Update(builtBy, blockId, info);
    forall id | s'.Cached(id).Some?
      ensures s'.GetCached(id).Some? && s'.Cached(id).value.view >= id.parentView
    {
      if id != builtBy {
        assert s.Cached(id) == s'.Cached(id);
      }
    }
  }

  lemma PruneOutlives<Info>(s: Store<Info>, cutoff: View)
    requires Outlives(s)
    ensures Outlives(s.Prune(cutoff))
  {
    var s' := s.Prune(cutoff);
    forall id | s'.Cached(id).Some?
      ensures s'.GetCached(id).Some? && s'.Cached(id).value.view >= id.parentView
    {
      assert s.Cached(id) == s'.Cached(id) && s.GetCached(id).Some?;
    }
  }

  lemma {:induction false} RunOutlives<Info>(s: Store<Info>, ops: seq<Op<Info>>)
    requires Outlives(s) && GoodUpdates(ops)
    ensures Outlives(Run(s, ops))
    decreases |ops|
  {
    if ops != [] {
      match ops[0] {
        case Update(builtBy, blockId, info) => UpdateOutlives(s, builtBy, blockId, info);
        case Prune(cutoff) => PruneOutlives(s, cutoff);
      }
      assert forall k :: 0 <= k < |ops[1..]| ==> ops[1..][k] == ops[k + 1];
      RunOutlives(Step(s, ops[0]), ops[1..]);
    }
  }

  /** When every block is stored under a view not below its requester's (the service uses
      the requester's own), a cached id always yields a block, and no other id does. */
  lemma CacheNeverDangles<Info>(ops: seq<Op<Info>>, id: BuilderStateId)
    requires GoodUpdates(ops)
    ensures var s := Run(Store(map[], map[]), ops);
      s.GetCached(id).Some? <==> s.Cached(id).Some?
  {
    RunOutlives(Store(map[], map[]), ops);
  }

  /** The condition is exact: a store whose cache does not dangle keeps that under every
      later prune if and only if each cached block's view is not below its requester's. */
  lemma SafeUnderPruneIff<Info>(s: Store<Info>)
    requires NoDangling(s)
    ensures (forall cutoff :: NoDangling(s.Prune(cutoff))) <==> Outlives(s)
  {
    if Outlives(s) {
      forall cutoff ensures NoDangling(s.Prune(cutoff)) { PruneOutlives(s, cutoff); }
    } else {
      var id :| s.Cached(id).Some? && s.Cached(id).value.view < id.parentView;
      var s' := s.Prune(id.parentView);
      assert s'.Cached(id) == s.Cached(id) && s'.GetCached(id) == None;
    }
  }

  /** The last update that stored a block, unless a later prune passed its view. */
  function LastInfo<Info>(ops: seq<Op<Info>>, id: BlockId): Option<Info> {
    if ops == [] then None
    else
      match ops[|ops| - 1]
      case Update(_, blockId, info) => if blockId == id then Some(info) else LastInfo(ops[..|ops| - 1], id)
      case Prune(cutoff) => if id.view < cutoff then None else LastInfo(ops[..|ops| - 1], id)
  }

  lemma {:induction false} RunSnoc<Info>(s: Store<Info>, ops: seq<Op<Info>>)
    requires ops != []
    ensures Run(s, ops) == Step(Run(s, ops[..|ops| - 1]), ops[|ops| - 1])
    decreases |ops|
  {
    if |ops| > 1 {
      RunSnoc(Step(s, ops[0]), ops[1..]);
      assert ops[1..][..|ops[1..]| - 1] == ops[..|ops| - 1][1..];
    }
  }

  /** `get_block` answers from the history: the latest block stored under the id. */
  lemma {:induction false} GetBlockIsLast<Info>(ops: seq<Op<Info>>, id: BlockId)
    ensures Run(Store(map[], map[]), ops).GetBlock(id) == LastInfo(ops, id)
    decreases |ops|
  {
    if ops != [] {
      RunSnoc(Store(map[], map[]), ops);
      GetBlockIsLast(ops[..|ops| - 1], id);
    }
  }

  /** The last block offered to a requester, unless a later prune passed its view. */
  function LastOffered<Info>(ops: seq<Op<Info>>, id: BuilderStateId): Option<BlockId> {
    if ops == [] then None
    else
      match ops[|ops| - 1]
      case Update(builtBy, blockId, _) => if builtBy == id then Some(blockId) else LastOffered(ops[..|ops| - 1], id)
      case Prune(cutoff) => if id.parentView < cutoff then None else LastOffered(ops[..|ops| - 1], id)
  }

  lemma {:induction false} CachedIsLast<Info>(ops: seq<Op<Info>>, id: BuilderStateId)
    ensures Run(Store(map[], map[]), ops).Cached(id) == LastOffered(ops, id)
    decreases |ops|
  {
    if ops != [] {
      RunSnoc(Store(map[], map[]), ops);
      CachedIsLast(ops[..|ops| - 1], id);
    }
  }

  /** What a repeated request gets: the latest contents of the block last offered to it. */
  lemma GetCachedFromHistory<Info>(ops: seq<Op<Info>>, id: BuilderStateId)
    requires GoodUpdates(ops)
    ensures var got := Run(Store(map[], map[]), ops).GetCached(id);
      match LastOffered(ops, id)
      case None => got == None
      case Some(blockId) => got.Some? && got == LastInfo(ops, blockId)
  {
    CacheNeverDangles(ops, id);
    CachedIsLast(ops, id);
    if LastOffered(ops, id).Some? {
      GetBlockIsLast(ops, LastOffered(ops, id).value);
    }
  }
}
