/** The coordinator object: it owns the map of builder states, the unmatched proposals
    and the sending end of the transaction channel. */
module Coordinators {
  import opened Blocks
  import opened BuilderStates
  import opened TieredViewMaps
  import opened ProposalPairing
  import opened ParentSelection
  import CoordinatorRuns

  datatype Lookup = NotFound | Decided | Found(state: BuilderState)

  type StateMap = Tiers<VidCommit, BuilderState>

  function RefsIn(bucket: map<VidCommit, BuilderState>): map<VidCommit, ParentRefs> {
    map c | c in bucket :: bucket[c].refs
  }

  /** What selection and pruning depend on: the references of the stored states. */
  function RefsOf(t: StateMap): Registry { map v | v in t :: RefsIn(t[v]) }

  lemma RefsCommute(t: StateMap, v: View)
    ensures RefsOf(t).Keys == t.Keys
    ensures Bucket(RefsOf(t), v) == RefsIn(Bucket(t, v))
    ensures WellFormed(t) ==> WellFormed(RefsOf(t))
  {
    forall u | u in t ensures RefsIn(t[u]).Keys == t[u].Keys { RefsKeys(t[u]); }
  }

  lemma RefsKeys(b: map<VidCommit, BuilderState>)
    ensures RefsIn(b).Keys == b.Keys
  {
  }

  lemma {:induction false} RefsLenOver(t: StateMap, views: set<View>)
    ensures LenOver(RefsOf(t), views) == LenOver(t, views)
    decreases |views|
  {
    if views != {} {
      var v := MinView(views);
      RefsCommute(t, v);
      RefsKeys(Bucket(t, v));
      RefsLenOver(t, views - {v});
    }
  }

  lemma RefsLen(t: StateMap)
    ensures Len(RefsOf(t)) == Len(t)
  {
    RefsCommute(t, 0);
    RefsLenOver(t, t.Keys);
  }

  lemma RefsInserted(t: StateMap, v: View, c: VidCommit, s: BuilderState)
    ensures RefsOf(Inserted(t, v, c, s)) == Inserted(RefsOf(t), v, c, s.refs)
  {
    RefsCommute(t, v);
    assert RefsIn(Bucket(t, v)[c := s]) == RefsIn(Bucket(t, v))[c := s.refs];
  }

  lemma RefsRange(t: StateMap, lo: View, hi: View)
    ensures |Range(RefsOf(t), lo, hi)| == |Range(t, lo, hi)|
    ensures Range(t, lo, hi) != [] ==> Range(RefsOf(t), lo, hi)[0] == RefsIn(Range(t, lo, hi)[0])
  {
    RefsCommute(t, 0);
    var vs := set v | v in t.Keys && lo <= v < hi;
    assert vs == set v | v in RefsOf(t).Keys && lo <= v < hi;
    RangeHead(t, lo, hi);
    RangeHead(RefsOf(t), lo, hi);
    if vs != {} {
      RefsCommute(t, MinView(vs));
    }
  }

  function IdsOf(states: set<BuilderState>): set<BuilderStateId> { set s | s in states :: s.refs.Id() }

  lemma KeyOf<K, V>(m: map<K, V>, value: V) returns (key: K)
    requires value in m.Values
    ensures key in m && m[key] == value
  {
    key :| key in m && m[key] == value;
  }

  lemma IdsOfBucket(b: map<VidCommit, BuilderState>)
    ensures IdsOf(b.Values) == Ids(RefsIn(b))
  {
    forall id | id in Ids(RefsIn(b)) ensures id in IdsOf(b.Values) {
      var c :| c in b && b[c].refs.Id() == id;
      assert b[c] in b.Values;
    }
    forall id | id in IdsOf(b.Values) ensures id in Ids(RefsIn(b)) {
      var s :| s in b.Values && s.refs.Id() == id;
      var c := KeyOf(b, s);
      assert RefsIn(b)[c].Id() == id;
    }
  }

  function LiveIn(t: StateMap): set<BuilderState> { set v, c | v in t && c in t[v] :: t[v][c] }

  lemma LiveMember(t: StateMap, v: View, c: VidCommit)
    requires Get(t, v, c).Some?
    ensures Get(t, v, c).value in LiveIn(t)
  {
    assert t[v][c] in LiveIn(t);
  }

  lemma LiveSource(t: StateMap, s: BuilderState) returns (v: View, c: VidCommit)
    requires s in LiveIn(t)
    ensures Get(t, v, c) == Some(s)
  {
    v, c :| v in t && c in t[v] && t[v][c] == s;
  }

  lemma LiveInserted(t: StateMap, v: View, c: VidCommit, s: BuilderState)
    requires Get(t, v, c).None?
    ensures LiveIn(Inserted(t, v, c, s)) == LiveIn(t) + {s}
  {
    var t' := Inserted(t, v, c, s);
    forall x | x in LiveIn(t) ensures x in LiveIn(t') {
      var u, d := LiveSource(t, x);
      LiveMember(t', u, d);
    }
    LiveMember(t', v, c);
    forall x | x in LiveIn(t') ensures x in LiveIn(t) + {s} {
      var u, d := LiveSource(t', x);
      if (u, d) != (v, c) { LiveMember(t, u, d); }
    }
  }

  lemma LiveIsStored(t: StateMap, s: BuilderState)
    requires RegistryOk(RefsOf(t)) && s in LiveIn(t)
    ensures Get(RefsOf(t), s.refs.viewNumber, s.refs.vidCommitment) == Some(s.refs)
  {
    var v, c := LiveSource(t, s);
    RefsCommute(t, v);
    assert RefsOf(t)[v][c] == s.refs;
  }

  lemma LivePruned(t: StateMap, cutoff: View)
    ensures LiveIn(AtLeast(t, cutoff)) <= LiveIn(t)
  {
    forall x | x in LiveIn(AtLeast(t, cutoff)) ensures x in LiveIn(t) {
      var u, d := LiveSource(AtLeast(t, cutoff), x);
      LiveMember(t, u, d);
    }
  }

  lemma RefsPruned(t: StateMap, cutoff: View)
    ensures RefsOf(AtLeast(t, cutoff)) == AtLeast(RefsOf(t), cutoff)
    ensures RefsOf(Below(t, cutoff)) == Below(RefsOf(t), cutoff)
  {
  }

  /** The stored objects sit under the ids they carry, and there is at least one. */
  ghost predicate MapOk(t: StateMap) { WellFormed(t) && RegistryOk(RefsOf(t)) && t.Keys != {} }

  lemma InsertFacts(t: StateMap, s: BuilderState)
    requires MapOk(t) && !Stored(RefsOf(t), s.refs.Id())
    ensures var t' := Inserted(t, s.refs.viewNumber, s.refs.vidCommitment, s);
      && MapOk(t') && LiveIn(t') == LiveIn(t) + {s}
      && RefsOf(t') == Inserted(RefsOf(t), s.refs.viewNumber, s.refs.vidCommitment, s.refs)
  {
    var v, c := s.refs.viewNumber, s.refs.vidCommitment;
    RefsCommute(t, v);
    RefsInserted(t, v, c, s);
    CoordinatorRuns.RegistryInserted(RefsOf(t), s.refs);
    LiveInserted(t, v, c, s);
    assert c in Bucket(t, v)[c := s].Keys;
  }

  /** The decide's cutoff keeps the highest view, so something always remains. */
  lemma PruneFacts(t: StateMap, decided: View) returns (cutoff: View)
    requires MapOk(t)
    ensures cutoff == CoordinatorRuns.Cutoff(RefsOf(t), decided)
    ensures HighestView(t).Some?
    ensures cutoff == if decided <= HighestView(t).value then decided else HighestView(t).value
    ensures MapOk(AtLeast(t, cutoff)) && LiveIn(AtLeast(t, cutoff)) <= LiveIn(t)
    ensures RefsOf(AtLeast(t, cutoff)) == AtLeast(RefsOf(t), cutoff)
    ensures RefsOf(Below(t, cutoff)) == Below(RefsOf(t), cutoff)
  {
    RefsCommute(t, 0);
    cutoff := CoordinatorRuns.Cutoff(RefsOf(t), decided);
    CoordinatorRuns.CutoffKeepsHighest(RefsOf(t), decided);
    LivePruned(t, cutoff);
    RefsPruned(t, cutoff);
    RegistryPruned(RefsOf(t), cutoff);
    RefsCommute(AtLeast(t, cutoff), 0);
  }

  lemma BucketIsLive(t: StateMap, bucket: map<VidCommit, BuilderState>, v: View)
    requires forall c :: c in bucket ==> Get(t, v, c) == Some(bucket[c])
    ensures bucket.Values <= LiveIn(t)
  {
    forall s | s in bucket.Values ensures s in LiveIn(t) {
      var c := KeyOf(bucket, s);
      LiveMember(t, v, c);
    }
  }

  lemma MatchFacts(t: StateMap, q: QuorumProposal, existing: map<VidCommit, BuilderState>)
    requires var bucket := Bucket(t, q.justifyView);
      existing == map c | c in bucket && bucket[c].refs.leafCommit == q.justifyLeafCommit :: bucket[c]
    ensures existing.Values <= LiveIn(t) && IdsOf(existing.Values) == Ids(JustifyMatches(RefsOf(t), q))
    ensures existing.Keys == {} <==> JustifyMatches(RefsOf(t), q) == map[]
  {
    RefsCommute(t, q.justifyView);
    assert RefsIn(existing) == JustifyMatches(RefsOf(t), q);
    RefsKeys(existing);
    IdsOfBucket(existing);
    BucketIsLive(t, existing, q.justifyView);
  }

  lemma LowestFacts(t: StateMap, view: View)
    ensures Range(t, 0, view) != [] <==> Range(RefsOf(t), 0, view) != []
    ensures Range(t, 0, view) != [] ==>
      var first := Range(t, 0, view)[0];
      first.Values <= LiveIn(t) && IdsOf(first.Values) == Ids(Range(RefsOf(t), 0, view)[0])
  {
    RefsRange(t, 0, view);
    RangeHead(t, 0, view);
    if Range(t, 0, view) != [] {
      IdsOfBucket(Range(t, 0, view)[0]);
      BucketIsLive(t, Range(t, 0, view)[0], MinView(set v | v in t.Keys && 0 <= v < view));
    }
  }

  lemma SoleFacts(t: StateMap)
    requires t.Keys != {}
    ensures HighestView(t).Some? && HighestView(RefsOf(t)) == HighestView(t)
    ensures var last := Bucket(t, HighestView(t).value);
      last.Values <= LiveIn(t) && IdsOf(last.Values) == Ids(Bucket(RefsOf(t), HighestView(t).value))
  {
    var last := Bucket(t, HighestView(t).value);
    RefsCommute(t, HighestView(t).value);
    IdsOfBucket(last);
    BucketIsLive(t, last, HighestView(t).value);
  }

  /** The field `builderStates` is the value of a tiered view map; its updates are the
      functions that the methods of TieredViewMap implement. */
  class BuilderStateCoordinator {
    var builderStates: StateMap
    const transactionSender: TxnChannel
    var proposals: ProposalMap

    ghost function Live(): set<BuilderState>
      reads this`builderStates
    {
      LiveIn(builderStates)
    }

    function States(): Registry
      reads this`builderStates
    {
      RefsOf(builderStates)
    }

    ghost predicate Valid()
      reads this, transactionSender, Live(), set s | s in Live() :: s.txnQueue
    {
      && MapOk(builderStates)
      && (forall id :: id in proposals ==> proposals[id].Id() == id)
      && AllValid(Live())
    }

    ghost predicate AllValid(group: set<BuilderState>)
      reads group, set s | s in group :: s.txnQueue, transactionSender
    {
      forall s :: s in group ==> s.channel == transactionSender && s.Valid()
    }

    constructor (period: nat, now: nat)
      ensures Valid() && fresh(transactionSender)
      ensures States() == CoordinatorRuns.START.states && proposals == map[]
      ensures transactionSender.log == []
      ensures forall s :: s in Live() ==> fresh(s.Footprint()) && s.Value() == NewState(BOOTSTRAP, period, now, 0)
    {
      var channel := new TxnChannel();
      var bootstrap := new BuilderState(BOOTSTRAP, period, now, channel);
      transactionSender, proposals := channel, map[];
      builderStates := Inserted(map[], bootstrap.refs.viewNumber, bootstrap.refs.vidCommitment, bootstrap);
      new;
      CoordinatorRuns.StartInv();
      assert builderStates == map[0 := map[0 := bootstrap]];
      assert RefsIn(map[0 := bootstrap]) == map[0 := BOOTSTRAP];
      assert RefsOf(builderStates) == map[0 := map[0 := BOOTSTRAP]];
      assert LiveIn(builderStates) == {bootstrap};
    }

    method HandleTransaction(t: Txn, hasRoom: bool) returns (ok: bool)
      requires Valid()
      modifies transactionSender
      ensures Valid() && ok == hasRoom
      ensures transactionSender.log == if ok then old(transactionSender.log) + [t] else old(transactionSender.log)
    {
      ok := transactionSender.TryBroadcast(t, hasRoom);
    }

    /** Prunes up to the decided view, but never past the highest stored one. */
    method HandleDecide(latestDecidedView: View) returns (pruned: StateMap)
      requires Valid()
      modifies this`builderStates
      ensures Valid() && Live() <= old(Live())
      ensures var cutoff := CoordinatorRuns.Cutoff(old(States()), latestDecidedView);
        builderStates == AtLeast(old(builderStates), cutoff) && pruned == Below(old(builderStates), cutoff)
      ensures States() == AtLeast(old(States()), CoordinatorRuns.Cutoff(old(States()), latestDecidedView))
      ensures RefsOf(pruned) == Below(old(States()), CoordinatorRuns.Cutoff(old(States()), latestDecidedView))
    {
      ghost var kept := PruneFacts(builderStates, latestDecidedView);
      var highest := match HighestView(builderStates) case Some(v) => v case None => 0;
      var cutoff := if latestDecidedView <= highest then latestDecidedView else highest;
      pruned := Below(builderStates, cutoff);
      ghost var live := Live();
      builderStates := AtLeast(builderStates, cutoff);
      assert AllValid(Live()) by {
        forall s | s in Live() ensures s.channel == transactionSender && s.Valid() {
          assert s in live && old(s.Valid());
        }
      }
    }

    method FindBuilderStatesToExtend(q: QuorumProposal) returns (candidates: set<BuilderState>)
      requires Valid()
      ensures candidates <= Live() && IdsOf(candidates) == Candidates(States(), q)
    {
      RefsCommute(builderStates, q.view);
      if Get(builderStates, q.view, q.payloadCommitment).Some? {
        return {};
      }
      var bucket := Bucket(builderStates, q.justifyView);
      var existing := map c | c in bucket && bucket[c].refs.leafCommit == q.justifyLeafCommit :: bucket[c];
      MatchFacts(builderStates, q, existing);
      if existing.Keys != {} {
        return existing.Values;
      }
      var ranges := Range(builderStates, 0, q.view);
      LowestFacts(builderStates, q.view);
      if |ranges| > 0 {
        return ranges[0].Values;
      }
      RefsLen(builderStates);
      if Len(builderStates) == 1 {
        SoleFacts(builderStates);
        var last := Bucket(builderStates, HighestView(builderStates).value);
        return last.Values;
      }
      return {};
    }

    method LookupBuilderState(id: BuilderStateId) returns (result: Lookup)
      requires Valid()
      ensures result.Found? <==> Stored(States(), id)
      ensures result.Found? ==> result.state in Live() && result.state.refs.Id() == id
      ensures result.Decided? <==> !Stored(States(), id) && forall v :: v in States() ==> v > id.parentView
    {
      RefsCommute(builderStates, id.parentView);
      match Get(builderStates, id.parentView, id.parentCommitment)
      case Some(state) =>
        assert States()[id.parentView][id.parentCommitment] == state.refs;
        LiveMember(builderStates, id.parentView, id.parentCommitment);
        return Found(state);
      case None =>
        var lowest := match LowestView(builderStates) case Some(v) => v case None => 0;
        if lowest > id.parentView {
          return Decided;
        }
        return NotFound;
    }

    method Store(state: BuilderState)
      requires Valid() && state.Valid() && state.channel == transactionSender
      requires !Stored(States(), state.refs.Id())
      modifies this`builderStates
      ensures Valid() && Live() == old(Live()) + {state}
      ensures States() == Inserted(old(States()), state.refs.viewNumber, state.refs.vidCommitment, state.refs)
    {
      InsertFacts(builderStates, state);
      builderStates := Inserted(builderStates, state.refs.viewNumber, state.refs.vidCommitment, state);
      assert AllValid(Live()) by {
        forall s | s in Live() ensures s.channel == transactionSender && s.Valid() {
          assert old(s.Valid());
        }
      }
    }

    method Extend(parent: BuilderState, q: QuorumProposal, d: DaProposal, now: nat) returns (child: BuilderState)
      requires Valid() && parent in Live() && !Stored(States(), q.Id())
      modifies this`builderStates
      ensures Valid() && fresh(child.Footprint()) && Live() == old(Live()) + {child}
      ensures States() == Inserted(old(States()), q.view, q.payloadCommitment, ChildRefs(parent.refs, q, d))
      ensures child.Value() == old(parent.Value().Child(q, d, now, parent.received))
    {
      ghost var expected := parent.Value().Child(q, d, now, parent.received);
      child := parent.NewChild(q, d, now);
      assert child.Value() == expected;
      Store(child);
    }

    /** `parent` and `child` only name the objects that the call extended and stored. */
    method SpawnBuilderState(q: QuorumProposal, d: DaProposal, now: nat)
        returns (ghost parent: BuilderState?, ghost child: BuilderState?)
      requires Valid() && q.view == d.view
      modifies this`builderStates
      ensures Valid()
      ensures child == null <==> parent == null
      ensures SpawnOutcome(old(States()), States(), Some(Pair(q, d)),
                           if parent == null then None else Some(parent.refs))
      ensures child != null ==>
        && parent in old(Live()) && fresh(child.Footprint()) && Live() == old(Live()) + {child}
        && child.Value() == old(parent.Value().Child(q, d, now, parent.received))
      ensures child == null ==> Live() == old(Live())
    {
      parent, child := null, null;
      var candidates := FindBuilderStatesToExtend(q);
      if candidates == {} {
        return;
      }
      var parentState :| parentState in candidates;
      assert parentState.refs.Id() in IdsOf(candidates);
      LiveIsStored(builderStates, parentState);
      NotYetStored(States(), q);
      parent := parentState;
      child := Extend(parentState, q, d, now);
    }

    /** Stores, ignores or completes a pair, and spawns for a completed pair. */
    method HandleProposal(p: Proposal, now: nat) returns (ghost parent: BuilderState?, ghost child: BuilderState?)
      requires Valid()
      modifies this`proposals, this`builderStates
      ensures Valid()
      ensures proposals == Offer(old(proposals), p).stored
      ensures child == null <==> parent == null
      ensures SpawnOutcome(old(States()), States(), Offer(old(proposals), p).pair,
                           if parent == null then None else Some(parent.refs))
      ensures child != null ==>
        && parent in old(Live()) && fresh(child.Footprint()) && Live() == old(Live()) + {child}
        && Offer(old(proposals), p).pair.Some?
        && var pair := Offer(old(proposals), p).pair.value;
        && child.Value() == old(parent.Value()).Child(pair.quorum, pair.da, now, old(parent.received))
      ensures child == null ==> Live() == old(Live())
    {
      parent, child := null, null;
      var id := p.Id();
      if id in proposals {
        var entry := proposals[id];
        if entry.Quorum? == p.Quorum? {
          return;
        }
        proposals := proposals - {id};
        var quorum := if entry.Quorum? then entry.quorum else p.quorum;
        var da := if entry.Quorum? then p.da else entry.da;
        assert Offer(old(proposals), p) == Offered(proposals, Some(Pair(quorum, da)));
        parent, child := SpawnBuilderState(quorum, da, now);
      } else {
        proposals := proposals[id := p];
      }
    }
  }

  lemma NotYetStored(m: Registry, q: QuorumProposal)
    requires Candidates(m, q) != {}
    ensures !Stored(m, q.Id())
  {
  }

  /** How one proposal changes the stored states: only a completed pair with a candidate
      parent adds one, under its own id, as a child of that parent. */
  ghost predicate SpawnOutcome(before: Registry, after: Registry, pair: Option<Pair>, parent: Option<ParentRefs>) {
    && (parent.Some? <==> pair.Some? && Candidates(before, pair.value.quorum) != {})
    && (parent.None? ==> after == before)
    && (parent.Some? ==>
          var q := pair.value.quorum;
          var id := parent.value.Id();
          && id in Candidates(before, q) && Get(before, id.parentView, id.parentCommitment) == parent
          && after == Inserted(before, q.view, q.payloadCommitment, ChildRefs(parent.value, q, pair.value.da)))
  }

  /** Handling a proposal in one piece is a run of the step system, so what holds of every
      run holds of the object, between whose calls other tasks only interleave more. */
  lemma ProposalIsRun(s: CoordinatorRuns.Coordinator, p: Proposal, after: Registry, parent: Option<ParentRefs>)
      returns (steps: seq<CoordinatorRuns.Step>)
    requires CoordinatorRuns.Inv(s) && s.flight.Idle?
    requires SpawnOutcome(s.states, after, Offer(s.proposals, p).pair, parent)
    ensures var s' := CoordinatorRuns.Run(s, steps);
      && CoordinatorRuns.Inv(s') && s'.flight.Idle?
      && s'.states == after && s'.proposals == Offer(s.proposals, p).stored
      && s'.spawned == s.spawned + (if parent.Some? then 1 else 0) && s'.pruned == s.pruned
  {
    var propose := CoordinatorRuns.Propose(p);
    var s1 := CoordinatorRuns.Next(s, propose);
    if s1.flight.Idle? {
      steps := [propose];
    } else {
      var id := if parent.Some? then parent.value.Id() else BuilderStateId(0, 0);
      var find := CoordinatorRuns.FindParent(id);
      CoordinatorRuns.RunThen(s, [propose], find);
      steps := [propose, find];
      assert steps == [propose] + [find];
      if parent.Some? {
        CoordinatorRuns.RunThen(s, steps, CoordinatorRuns.InsertChild);
        steps := steps + [CoordinatorRuns.InsertChild];
      }
    }
    assert CoordinatorRuns.Run(s, [propose]) == s1 by {
      assert [propose][1..] == [];
    }
    CoordinatorRuns.RunInv(s, steps);
  }
}
