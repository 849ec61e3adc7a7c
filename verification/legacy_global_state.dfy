/** The older builder's registry of running states, and how the coordinator refines it. */
module LegacyGlobalState {
  import opened Blocks
  import opened TieredViewMaps
  import opened ParentSelection
  import opened BuilderStates
  import opened CoordinatorRuns

  /** A registered state: its references (none for the bootstrap state) and the sending
      end of its request channel. */
  datatype Entry = Entry(refs: Option<ParentRefs>, sender: int)

  /** The value of the registry. */
  datatype Registered = Registered(
    spawned: map<BuilderStateId, Entry>, highest: BuilderStateId, lastGarbageCollected: View)
  {
    function Register(id: BuilderStateId, entry: Entry): Registered {
      this.(spawned := spawned[id := entry],
            highest := if id.parentView > highest.parentView then id else highest)
    }

    function CutoffFor(decided: View): View {
      if highest.parentView <= decided then highest.parentView else decided
    }

    function Remove(decided: View): Registered {
      var cutoff := CutoffFor(decided);
      this.(spawned := map id | id in spawned && id.parentView >= cutoff :: spawned[id],
            lastGarbageCollected := if cutoff > 0 then cutoff - 1 else 0)
    }

    /** The sender for a key, or the one of the highest state. */
    function Channel(key: BuilderStateId): Option<int> {
      if key in spawned then Some(spawned[key].sender)
      else if highest in spawned then Some(spawned[highest].sender)
      else None
    }
  }

  function New(bootstrap: BuilderStateId, sender: int, lastGarbageCollected: View): Registered {
    Registered(map[bootstrap := Entry(None, sender)], bootstrap, lastGarbageCollected)
  }

  class GlobalState {
    var spawnedBuilderStates: map<BuilderStateId, Entry>
    var lastGarbageCollectedViewNum: View
    var highestViewNumBuilderId: BuilderStateId

    function Value(): Registered
      reads this
    {
      Registered(spawnedBuilderStates, highestViewNumBuilderId, lastGarbageCollectedViewNum)
    }

    constructor (bootstrapSender: int, bootstrapped: BuilderStateId, lastGarbageCollected: View)
      ensures Value() == New(bootstrapped, bootstrapSender, lastGarbageCollected)
    {
      spawnedBuilderStates := map[bootstrapped := Entry(None, bootstrapSender)];
      lastGarbageCollectedViewNum, highestViewNumBuilderId := lastGarbageCollected, bootstrapped;
    }

    /** An existing entry is overwritten; the result is what it was. */
    method RegisterBuilderState(parentId: BuilderStateId, builtFrom: ParentRefs, requestSender: int)
        returns (previous: Option<Entry>)
      modifies this
      ensures Value() == old(Value()).Register(parentId, Entry(Some(builtFrom), requestSender))
      ensures previous == if parentId in old(spawnedBuilderStates)
                          then Some(old(spawnedBuilderStates)[parentId]) else None
    {
      previous := if parentId in spawnedBuilderStates then Some(spawnedBuilderStates[parentId]) else None;
      spawnedBuilderStates := spawnedBuilderStates[parentId := Entry(Some(builtFrom), requestSender)];
      if parentId.parentView > highestViewNumBuilderId.parentView {
        highestViewNumBuilderId := parentId;
      }
    }

    method RemoveHandles(onDecideView: View) returns (cutoff: View)
      modifies this
      ensures cutoff == old(Value()).CutoffFor(onDecideView)
      ensures Value() == old(Value()).Remove(onDecideView)
    {
      cutoff := if highestViewNumBuilderId.parentView <= onDecideView
                then highestViewNumBuilderId.parentView else onDecideView;
      spawnedBuilderStates :=
        map id | id in spawnedBuilderStates && id.parentView >= cutoff :: spawnedBuilderStates[id];
      lastGarbageCollectedViewNum := if cutoff > 0 then cutoff - 1 else 0;
    }

    method GetChannelForMatchingBuilderOrHighestViewBuilder(key: BuilderStateId) returns (sender: Option<int>)
      ensures sender == Value().Channel(key)
    {
      if key in spawnedBuilderStates {
        return Some(spawnedBuilderStates[key].sender);
      }
      if highestViewNumBuilderId in spawnedBuilderStates {
        return Some(spawnedBuilderStates[highestViewNumBuilderId].sender);
      }
      return None;
    }
  }

  // ----- Whole runs -----

  /** Both builders see the same operations: a state is added, or a view is decided. The
      older one registers a state with blank counts. */
  datatype Op = Add(refs: ParentRefs, sender: int) | OnDecide(view: View)

  function Step(g: Registered, op: Op): Registered {
    match op
    case Add(refs, sender) => g.Register(refs.Id(), Entry(Some(LegacyRefs(refs)), sender))
    case OnDecide(view) => g.Remove(view)
  }

  function RunLegacy(g: Registered, ops: seq<Op>): Registered
    decreases |ops|
  {
    if ops == [] then g else RunLegacy(Step(g, ops[0]), ops[1..])
  }

  ghost predicate HighestRegistered(g: Registered) {
    && g.highest in g.spawned
    && (forall id :: id in g.spawned ==> id.parentView <= g.highest.parentView)
  }

  lemma {:induction false} HighestStaysRegistered(g: Registered, ops: seq<Op>)
    requires HighestRegistered(g)
    ensures HighestRegistered(RunLegacy(g, ops))
    decreases |ops|
  {
    if ops != [] {
      assert HighestRegistered(Step(g, ops[0]));
      HighestStaysRegistered(Step(g, ops[0]), ops[1..]);
    }
  }

  lemma {:induction false} RunSnoc(g: Registered, ops: seq<Op>)
    requires ops != []
    ensures RunLegacy(g, ops) == Step(RunLegacy(g, ops[..|ops| - 1]), ops[|ops| - 1])
    decreases |ops|
  {
    if |ops| > 1 {
      RunSnoc(Step(g, ops[0]), ops[1..]);
      assert ops[1..][..|ops[1..]| - 1] == ops[..|ops| - 1][1..];
    }
  }

  /** The sender given with the last addition of a state, if it was ever added. */
  function LastSender(ops: seq<Op>, id: BuilderStateId): Option<int> {
    if ops == [] then None
    else
      var last := ops[|ops| - 1];
      if last.Add? && last.refs.Id() == id then Some(last.sender) else LastSender(ops[..|ops| - 1], id)
  }

  /** Every registered state has the sender of its last addition, or is the bootstrap state
      with the sender it started with. */
  lemma {:induction false} SendersFromHistory(bootstrap: BuilderStateId, sender: int, gc: View, ops: seq<Op>)
    ensures var g := RunLegacy(New(bootstrap, sender, gc), ops);
      forall id :: id in g.spawned ==>
        match LastSender(ops, id)
        case Some(last) => g.spawned[id].sender == last
        case None => id == bootstrap && g.spawned[id].sender == sender
    decreases |ops|
  {
    if ops != [] {
      RunSnoc(New(bootstrap, sender, gc), ops);
      SendersFromHistory(bootstrap, sender, gc, ops[..|ops| - 1]);
    }
  }

  function SenderOf(ops: seq<Op>, bootstrapSender: int, id: BuilderStateId): int {
    match LastSender(ops, id)
    case Some(last) => last
    case None => bootstrapSender
  }

  /** The channel lookup never fails: it answers the sender last given for the key, or, if
      the key is not registered, for a registered state of maximum view. */
  lemma FallbackNeverFails(bootstrap: BuilderStateId, sender: int, gc: View, ops: seq<Op>, key: BuilderStateId)
    ensures var g := RunLegacy(New(bootstrap, sender, gc), ops);
      && g.highest in g.spawned
      && (forall id :: id in g.spawned ==> id.parentView <= g.highest.parentView)
      && g.Channel(key) == Some(SenderOf(ops, sender, if key in g.spawned then key else g.highest))
  {
    HighestStaysRegistered(New(bootstrap, sender, gc), ops);
    SendersFromHistory(bootstrap, sender, gc, ops);
  }

  /** The highest state is the first that was added with its view, and no later one has
      a higher view. */
  lemma {:induction false} HighestIsFirst(bootstrap: BuilderStateId, sender: int, gc: View, ops: seq<Op>)
    ensures var h := RunLegacy(New(bootstrap, sender, gc), ops).highest;
      && (forall k :: 0 <= k < |ops| && ops[k].Add? ==> ops[k].refs.viewNumber <= h.parentView)
      && (|| h == bootstrap
          || (&& bootstrap.parentView < h.parentView
              && exists k :: && 0 <= k < |ops| && ops[k].Add? && ops[k].refs.Id() == h
                             && forall j :: 0 <= j < k && ops[j].Add? ==> ops[j].refs.viewNumber < h.parentView))
    decreases |ops|
  {
    if ops != [] {
      var front := ops[..|ops| - 1];
      RunSnoc(New(bootstrap, sender, gc), ops);
      HighestIsFirst(bootstrap, sender, gc, front);
      assert forall k :: 0 <= k < |front| ==> front[k] == ops[k];
      var before := RunLegacy(New(bootstrap, sender, gc), front).highest;
      var after := RunLegacy(New(bootstrap, sender, gc), ops).highest;
      if after == before && before != bootstrap {
        var k :| 0 <= k < |front| && front[k].Add? && front[k].refs.Id() == before
          && forall j :: 0 <= j < k && front[j].Add? ==> front[j].refs.viewNumber < before.parentView;
        assert ops[k].Add? && ops[k].refs.Id() == after;
      } else if after != before {
        assert ops[|ops| - 1].refs.Id() == after;
      }
    }
  }

  /** A decide spares the states of the decided view or later, and those of the highest
      view; the view it records separates exactly the states it removed from the others. */
  lemma DecideSpares(g: Registered, view: View)
    requires HighestRegistered(g)
    ensures var g' := g.Remove(view);
      && (forall id :: id in g'.spawned <==>
            id in g.spawned && (id.parentView >= view || id.parentView == g.highest.parentView))
      && (forall id :: id in g'.spawned ==> g'.spawned[id] == g.spawned[id])
      && (g.CutoffFor(view) > 0 ==>
            g'.lastGarbageCollected + 1 == g.CutoffFor(view)
            && forall id :: id in g.spawned ==> (id in g'.spawned <==> id.parentView > g'.lastGarbageCollected))
      && (g.CutoffFor(view) == 0 ==> g'.lastGarbageCollected == 0 && g'.spawned == g.spawned)
      && g.CutoffFor(view) == Min(view, g.highest.parentView)
  {
  }

  /** The recorded view after any run: that of the last decide, or the initial one. */
  lemma RecordedView(bootstrap: BuilderStateId, sender: int, gc: View, ops: seq<Op>)
    requires ops != []
    ensures var before := RunLegacy(New(bootstrap, sender, gc), ops[..|ops| - 1]);
      var after := RunLegacy(New(bootstrap, sender, gc), ops);
      match ops[|ops| - 1]
      case Add(_, _) => after.lastGarbageCollected == before.lastGarbageCollected
      case OnDecide(view) =>
        && (Min(view, before.highest.parentView) == 0 ==> after.lastGarbageCollected == 0)
        && (Min(view, before.highest.parentView) > 0 ==>
              after.lastGarbageCollected + 1 == Min(view, before.highest.parentView))
  {
    RunSnoc(New(bootstrap, sender, gc), ops);
    HighestStaysRegistered(New(bootstrap, sender, gc), ops[..|ops| - 1]);
    if ops[|ops| - 1].OnDecide? {
      DecideSpares(RunLegacy(New(bootstrap, sender, gc), ops[..|ops| - 1]), ops[|ops| - 1].view);
    }
  }

  function Cutoffs(g: Registered, ops: seq<Op>): seq<View>
    decreases |ops|
  {
    if ops == [] then []
    else (if ops[0].OnDecide? then [g.CutoffFor(ops[0].view)] else []) + Cutoffs(Step(g, ops[0]), ops[1..])
  }

  /** Decided views never decrease, starting from `from`. */
  predicate DecidesAscend(ops: seq<Op>, from: View) {
    ops == [] ||
    if ops[0].OnDecide? then ops[0].view >= from && DecidesAscend(ops[1..], ops[0].view)
    else DecidesAscend(ops[1..], from)
  }

  lemma {:induction false} CutoffsFrom(g: Registered, ops: seq<Op>, from: View)
    requires DecidesAscend(ops, from)
    ensures forall i :: 0 <= i < |Cutoffs(g, ops)| ==> Cutoffs(g, ops)[i] >= g.CutoffFor(from)
    ensures forall i, j :: 0 <= i < j < |Cutoffs(g, ops)| ==> Cutoffs(g, ops)[i] <= Cutoffs(g, ops)[j]
    decreases |ops|
  {
    if ops != [] {
      CutoffsFrom(Step(g, ops[0]), ops[1..], if ops[0].OnDecide? then ops[0].view else from);
    }
  }

  /** While decided views never decrease, neither do the returned cutoffs. */
  lemma CutoffsAscend(g: Registered, ops: seq<Op>)
    requires DecidesAscend(ops, 0)
    ensures forall i, j :: 0 <= i < j < |Cutoffs(g, ops)| ==> Cutoffs(g, ops)[i] <= Cutoffs(g, ops)[j]
  {
    CutoffsFrom(g, ops, 0);
  }

  // ----- The coordinator refines it -----

  function StepRegistry(m: Registry, op: Op): Registry {
    match op
    case Add(refs, _) => Inserted(m, refs.viewNumber, refs.vidCommitment, refs)
    case OnDecide(view) => AtLeast(m, Cutoff(m, view))
  }

  function RunRegistry(m: Registry, ops: seq<Op>): Registry
    decreases |ops|
  {
    if ops == [] then m else RunRegistry(StepRegistry(m, ops[0]), ops[1..])
  }

  /** The registry as parent selection sees it. */
  function RefsOf(g: Registered): Spawned { map id | id in g.spawned :: g.spawned[id].refs }

  /** The older builder's references never carry a count or a last non-empty view. */
  ghost predicate Blank(g: Registered) {
    forall id :: id in g.spawned && g.spawned[id].refs.Some? ==>
      g.spawned[id].refs.value.txCount == 0 && g.spawned[id].refs.value.lastNonemptyView == None
  }

  /** Same states stored, for the same blocks; same highest view. */
  ghost predicate Simulates(m: Registry, g: Registered) {
    && RegistryOk(m) && HighestRegistered(g)
    && SameStates(m, RefsOf(g)) && Blank(g)
    && HighestView(m) == Some(g.highest.parentView)
  }

  lemma HighestOfSame(m: Registry, g: Registered)
    requires RegistryOk(m) && HighestRegistered(g) && SameStates(m, RefsOf(g))
    ensures HighestView(m) == Some(g.highest.parentView)
  {
    assert g.highest in RefsOf(g) && Stored(m, g.highest);
    forall v | v in m ensures v <= g.highest.parentView {
      StoredAt(m, v);
      var id :| Stored(m, id) && id.parentView == v;
      assert id in RefsOf(g);
    }
  }

  lemma SameAfterAdd(m: Registry, spawned: Spawned, refs: ParentRefs)
    requires SameStates(m, spawned)
    ensures SameStates(Inserted(m, refs.viewNumber, refs.vidCommitment, refs),
                       spawned[refs.Id() := Some(LegacyRefs(refs))])
  {
    var m' := Inserted(m, refs.viewNumber, refs.vidCommitment, refs);
    forall id: BuilderStateId
      ensures Get(m', id.parentView, id.parentCommitment)
           == if id == refs.Id() then Some(refs) else Get(m, id.parentView, id.parentCommitment)
    {
      InsertIsFlat(m, refs.viewNumber, refs.vidCommitment, refs, id.parentView, id.parentCommitment);
    }
  }

  lemma SameAfterPrune(m: Registry, spawned: Spawned, cutoff: View)
    requires SameStates(m, spawned)
    ensures SameStates(AtLeast(m, cutoff), map id | id in spawned && id.parentView >= cutoff :: spawned[id])
  {
    forall id: BuilderStateId
      ensures Get(AtLeast(m, cutoff), id.parentView, id.parentCommitment)
           == if id.parentView >= cutoff then Get(m, id.parentView, id.parentCommitment) else None
    {
      PruneSplits(m, cutoff, id.parentView, id.parentCommitment);
    }
  }

  lemma RefsAfterAdd(g: Registered, refs: ParentRefs, sender: int)
    ensures RefsOf(Step(g, Add(refs, sender))) == RefsOf(g)[refs.Id() := Some(LegacyRefs(refs))]
  {
  }

  lemma RefsAfterDecide(g: Registered, view: View)
    ensures RefsOf(Step(g, OnDecide(view)))
         == map id | id in RefsOf(g) && id.parentView >= g.CutoffFor(view) :: RefsOf(g)[id]
  {
  }

  lemma RegistryStep(g: Registered, op: Op)
    requires HighestRegistered(g) && Blank(g)
    ensures HighestRegistered(Step(g, op)) && Blank(Step(g, op))
  {
  }

  lemma SimulatesAdd(m: Registry, g: Registered, refs: ParentRefs, sender: int)
    requires Simulates(m, g)
    ensures Simulates(StepRegistry(m, Add(refs, sender)), Step(g, Add(refs, sender)))
  {
    RegistryInserted(m, refs);
    SameAfterAdd(m, RefsOf(g), refs);
    RefsAfterAdd(g, refs, sender);
    RegistryStep(g, Add(refs, sender));
    HighestOfSame(StepRegistry(m, Add(refs, sender)), Step(g, Add(refs, sender)));
  }

  lemma SimulatesDecide(m: Registry, g: Registered, view: View)
    requires Simulates(m, g)
    ensures Cutoff(m, view) == g.CutoffFor(view)
    ensures Simulates(StepRegistry(m, OnDecide(view)), Step(g, OnDecide(view)))
  {
    RegistryPruned(m, Cutoff(m, view));
    SameAfterPrune(m, RefsOf(g), Cutoff(m, view));
    RefsAfterDecide(g, view);
    RegistryStep(g, OnDecide(view));
    HighestOfSame(StepRegistry(m, OnDecide(view)), Step(g, OnDecide(view)));
  }

  lemma {:induction false} SimulatesRun(m: Registry, g: Registered, ops: seq<Op>)
    requires Simulates(m, g)
    ensures Simulates(RunRegistry(m, ops), RunLegacy(g, ops))
    decreases |ops|
  {
    if ops != [] {
      match ops[0] {
        case Add(refs, sender) => SimulatesAdd(m, g, refs, sender);
        case OnDecide(view) => SimulatesDecide(m, g, view);
      }
      SimulatesRun(StepRegistry(m, ops[0]), Step(g, ops[0]), ops[1..]);
    }
  }

  lemma SimulatesFromStart(sender: int, gc: View, ops: seq<Op>)
    ensures Simulates(RunRegistry(START.states, ops), RunLegacy(New(BOOTSTRAP.Id(), sender, gc), ops))
  {
    StartInv();
    var m, g := START.states, New(BOOTSTRAP.Id(), sender, gc);
    assert SameStates(m, RefsOf(g));
    HighestOfSame(m, g);
    SimulatesRun(m, g, ops);
  }

  /** Fed the same additions and decides from the start, the two builders hold the same
      states after every step, the older one with blank counts and without references for
      its bootstrap entry; they prune at the same cutoff, and fall back to states of the
      same view. */
  lemma CoordinatorRefinesLegacy(sender: int, gc: View, ops: seq<Op>, view: View)
    ensures var m := RunRegistry(START.states, ops);
      var g := RunLegacy(New(BOOTSTRAP.Id(), sender, gc), ops);
      && SameStates(m, RefsOf(g)) && Blank(g)
      && Cutoff(m, view) == g.CutoffFor(view)
      && HighestView(m) == Some(g.highest.parentView)
  {
    SimulatesFromStart(sender, gc, ops);
    SimulatesDecide(RunRegistry(START.states, ops), RunLegacy(New(BOOTSTRAP.Id(), sender, gc), ops), view);
  }

  /** After any common run the two builders choose the same parents for a proposal exactly
      on the domain that parent selection states. */
  lemma SameChoiceInRuns(sender: int, gc: View, ops: seq<Op>, q: QuorumProposal)
    ensures var m := RunRegistry(START.states, ops);
      var spawned := RefsOf(RunLegacy(New(BOOTSTRAP.Id(), sender, gc), ops));
      SameChoice(m, spawned, q) <==> ChoicesCoincide(m, spawned, q)
  {
    SimulatesFromStart(sender, gc, ops);
    SameChoiceIff(RunRegistry(START.states, ops), RefsOf(RunLegacy(New(BOOTSTRAP.Id(), sender, gc), ops)), q);
  }

  /** The addition or decide that a step of the coordinator is, if it is one. */
  function OpsOfStep(s: Coordinator, step: CoordinatorRuns.Step): seq<Op> {
    if step.InsertChild? && s.flight.Forked?
    then [Add(ChildRefs(s.flight.parent, s.flight.pair.quorum, s.flight.pair.da), 0)]
    else if step.Decide? then [OnDecide(step.view)]
    else []
  }

  /** The additions and decides of a run of the coordinator, in order. */
  function OpsOf(s: Coordinator, steps: seq<CoordinatorRuns.Step>): seq<Op>
    decreases |steps|
  {
    if steps == [] then []
    else OpsOfStep(s, steps[0]) + OpsOf(CoordinatorRuns.Next(s, steps[0]), steps[1..])
  }

  lemma StepIsCommon(s: Coordinator, step: CoordinatorRuns.Step, rest: seq<Op>)
    ensures RunRegistry(s.states, OpsOfStep(s, step) + rest) == RunRegistry(CoordinatorRuns.Next(s, step).states, rest)
  {
    var ops := OpsOfStep(s, step);
    if ops == [] {
      assert ops + rest == rest;
    } else {
      assert (ops + rest)[1..] == rest && (ops + rest)[0] == ops[0];
    }
  }

  /** Every run of the coordinator, spawns interleaved with decides, is such a common run. */
  lemma {:induction false} RunsAreCommon(s: Coordinator, steps: seq<CoordinatorRuns.Step>)
    ensures CoordinatorRuns.Run(s, steps).states == RunRegistry(s.states, OpsOf(s, steps))
    decreases |steps|
  {
    if steps != [] {
      var s1 := CoordinatorRuns.Next(s, steps[0]);
      RunsAreCommon(s1, steps[1..]);
      StepIsCommon(s, steps[0], OpsOf(s1, steps[1..]));
    }
  }
}
