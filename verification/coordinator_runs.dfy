/** The coordinator as a step system, at the granularity of its locks.

    The proposal map stays locked while a pair is being spawned, so spawns never overlap
    each other; but decides and lookups run between any two of their lock acquisitions. */
module CoordinatorRuns {
  import opened Blocks
  import opened BuilderStates
  import opened TieredViewMaps
  import opened ProposalPairing
  import opened ParentSelection

  /** How far the pair that holds the proposal lock has come. */
  datatype Flight =
    | Idle
    | Matched(pair: Pair)
    | Forked(parent: ParentRefs, pair: Pair)

  /** `spawned` and `pruned` count insertions and the states handed back by decides. */
  datatype Coordinator = Coordinator(
    states: Registry, proposals: ProposalMap, flight: Flight, spawned: nat, pruned: nat)

  datatype Step =
    | Propose(p: Proposal)
    | FindParent(choice: BuilderStateId)
    | InsertChild
    | Decide(view: View)

  const START := Coordinator(map[0 := map[0 := BOOTSTRAP]], map[], Idle, 0, 0)

  /** The cutoff never passes the highest stored view. */
  function Cutoff(m: Registry, decided: View): View {
    match HighestView(m)
    case None => 0
    case Some(highest) => if decided <= highest then decided else highest
  }

  /** Steps that are not enabled leave the coordinator as it is. `choice` resolves the
      unspecified order in which candidates come out of a bucket. */
  function Next(s: Coordinator, step: Step): Coordinator {
    match step
    case Propose(p) =>
      if !s.flight.Idle? then s
      else
        var o := Offer(s.proposals, p);
        s.(proposals := o.stored, flight := if o.pair.Some? then Matched(o.pair.value) else Idle)
    case FindParent(choice) =>
      if !s.flight.Matched? then s
      else
        var candidates := Candidates(s.states, s.flight.pair.quorum);
        if candidates == {} then s.(flight := Idle)
        else if choice in candidates && Stored(s.states, choice)
        then s.(flight := Forked(s.states[choice.parentView][choice.parentCommitment], s.flight.pair))
        else s
    case InsertChild =>
      if !s.flight.Forked? then s
      else
        var q := s.flight.pair.quorum;
        s.(states := Inserted(s.states, q.view, q.payloadCommitment, ChildRefs(s.flight.parent, q, s.flight.pair.da)),
           flight := Idle, spawned := s.spawned + 1)
    case Decide(view) =>
      var cutoff := Cutoff(s.states, view);
      s.(states := AtLeast(s.states, cutoff), pruned := s.pruned + Len(Below(s.states, cutoff)))
  }

  function Run(s: Coordinator, steps: seq<Step>): Coordinator
    decreases |steps|
  {
    if steps == [] then s else Run(Next(s, steps[0]), steps[1..])
  }

  // ----- Spawn accounting -----

  ghost predicate FlightOk(s: Coordinator) {
    match s.flight
    case Idle => true
    case Matched(pair) => pair.da.view == pair.quorum.view
    case Forked(_, pair) => pair.da.view == pair.quorum.view && !Stored(s.states, pair.quorum.Id())
  }

  ghost predicate Inv(s: Coordinator) {
    && RegistryOk(s.states)
    && s.states.Keys != {}
    && FlightOk(s)
    && (forall id :: id in s.proposals ==> s.proposals[id].Id() == id)
    && 1 + s.spawned == Len(s.states) + s.pruned
  }

  lemma StartInv()
    ensures Inv(START)
  {
    var m: Registry := START.states;
    assert Inserted(map[], 0, 0, BOOTSTRAP) == m;
    LenInserted(map[], 0, 0, BOOTSTRAP);
    LenIsFlat<VidCommit, ParentRefs>(map[]);
    assert Len(m) == 1;
  }

  lemma CutoffKeepsHighest(m: Registry, view: View)
    requires m.Keys != {}
    ensures AtLeast(m, Cutoff(m, view)).Keys != {}
    ensures HighestView(AtLeast(m, Cutoff(m, view))) == HighestView(m)
  {
    assert MaxView(m.Keys) in AtLeast(m, Cutoff(m, view));
  }

  /** A decide spares exactly the states of the decided view or later, and those of the
      highest view, and leaves them as they are. */
  lemma DecideSparesExactly(s: Coordinator, view: View, id: BuilderStateId)
    requires RegistryOk(s.states)
    ensures Stored(Next(s, Decide(view)).states, id) <==>
      Stored(s.states, id) && (id.parentView >= view || forall v :: v in s.states ==> v <= id.parentView)
    ensures Stored(Next(s, Decide(view)).states, id) ==>
      Next(s, Decide(view)).states[id.parentView][id.parentCommitment] == s.states[id.parentView][id.parentCommitment]
  {
    PruneSplits(s.states, Cutoff(s.states, view), id.parentView, id.parentCommitment);
  }

  lemma RegistryInserted(m: Registry, refs: ParentRefs)
    requires RegistryOk(m)
    ensures RegistryOk(Inserted(m, refs.viewNumber, refs.vidCommitment, refs))
  {
    var m' := Inserted(m, refs.viewNumber, refs.vidCommitment, refs);
    assert refs.vidCommitment in m'[refs.viewNumber];
    assert m'[refs.viewNumber].Keys != {};
  }

  lemma ProposeInv(s: Coordinator, p: Proposal)
    requires Inv(s)
    ensures Inv(Next(s, Propose(p)))
  {
  }

  lemma FindParentInv(s: Coordinator, choice: BuilderStateId)
    requires Inv(s)
    ensures Inv(Next(s, FindParent(choice)))
  {
    if s.flight.Matched? && choice in Candidates(s.states, s.flight.pair.quorum) {
      CandidatesSpec(s.states, s.flight.pair.quorum, choice);
    }
  }

  lemma InsertChildInv(s: Coordinator)
    requires Inv(s)
    ensures Inv(Next(s, InsertChild))
  {
    if s.flight.Forked? {
      var q := s.flight.pair.quorum;
      var refs := ChildRefs(s.flight.parent, q, s.flight.pair.da);
      RegistryInserted(s.states, refs);
      LenInserted(s.states, q.view, q.payloadCommitment, refs);
      assert q.view in Next(s, InsertChild).states;
    }
  }

  lemma DecideKeepsRegistry(s: Coordinator, view: View)
    requires RegistryOk(s.states) && s.states.Keys != {}
    ensures RegistryOk(Next(s, Decide(view)).states) && Next(s, Decide(view)).states.Keys != {}
  {
    CutoffKeepsHighest(s.states, view);
  }

  lemma DecideKeepsFlight(s: Coordinator, view: View)
    requires FlightOk(s)
    ensures FlightOk(Next(s, Decide(view)))
  {
    if s.flight.Forked? {
      var q := s.flight.pair.quorum;
      PruneSplits(s.states, Cutoff(s.states, view), q.view, q.payloadCommitment);
    }
  }

  lemma DecideCounts(s: Coordinator, view: View)
    ensures var s' := Next(s, Decide(view));
      s'.spawned == s.spawned && Len(s'.states) + s'.pruned == Len(s.states) + s.pruned
  {
    PruneLen(s.states, Cutoff(s.states, view));
  }

  lemma DecideInv(s: Coordinator, view: View)
    requires Inv(s)
    ensures Inv(Next(s, Decide(view)))
  {
    DecideKeepsFlight(s, view);
    DecideCounts(s, view);
    DecideKeepsRegistry(s, view);
  }

  lemma NextInv(s: Coordinator, step: Step)
    requires Inv(s)
    ensures Inv(Next(s, step))
  {
    match step
    case Propose(p) => ProposeInv(s, p);
    case FindParent(choice) => FindParentInv(s, choice);
    case InsertChild => InsertChildInv(s);
    case Decide(view) => DecideInv(s, view);
  }

  lemma {:induction false} RunInv(s: Coordinator, steps: seq<Step>)
    requires Inv(s)
    ensures Inv(Run(s, steps))
    decreases |steps|
  {
    if steps != [] {
      NextInv(s, steps[0]);
      RunInv(Next(s, steps[0]), steps[1..]);
    }
  }

  /** Every run: keys are the states' own ids, the map is never empty, the insertion in
      flight overwrites nothing, and 1 + insertions = live states + pruned states. */
  lemma SpawnAccounting(steps: seq<Step>)
    ensures var s := Run(START, steps);
      && RegistryOk(s.states) && s.states.Keys != {}
      && (s.flight.Forked? ==> !Stored(s.states, s.flight.pair.quorum.Id()))
      && (!s.flight.Idle? ==> s.flight.pair.da.view == s.flight.pair.quorum.view)
      && 1 + s.spawned == Len(s.states) + s.pruned
  {
    StartInv();
    RunInv(START, steps);
  }

  /** No decide of the run goes beyond `view`. */
  predicate DecidesUpTo(steps: seq<Step>, view: View) {
    forall k :: 0 <= k < |steps| && steps[k].Decide? ==> steps[k].view <= view
  }

  lemma NextKeepsStored(s: Coordinator, step: Step, id: BuilderStateId)
    requires Inv(s) && Stored(s.states, id)
    requires step.Decide? ==> step.view <= id.parentView
    ensures Stored(Next(s, step).states, id)
    ensures Get(Next(s, step).states, id.parentView, id.parentCommitment)
         == Get(s.states, id.parentView, id.parentCommitment)
  {
    if step.InsertChild? && s.flight.Forked? {
      var q := s.flight.pair.quorum;
      InsertIsFlat(s.states, q.view, q.payloadCommitment,
                   ChildRefs(s.flight.parent, q, s.flight.pair.da), id.parentView, id.parentCommitment);
    }
  }

  /** Whatever else happens, a stored state stays the same until a decide passes its view. */
  lemma {:induction false} StoredUntilDecided(s: Coordinator, steps: seq<Step>, id: BuilderStateId)
    requires Inv(s) && Stored(s.states, id) && DecidesUpTo(steps, id.parentView)
    ensures Get(Run(s, steps).states, id.parentView, id.parentCommitment)
         == Get(s.states, id.parentView, id.parentCommitment)
    decreases |steps|
  {
    if steps != [] {
      NextInv(s, steps[0]);
      NextKeepsStored(s, steps[0], id);
      assert forall k :: 0 <= k < |steps[1..]| ==> steps[1..][k] == steps[k + 1];
      StoredUntilDecided(Next(s, steps[0]), steps[1..], id);
    }
  }

  /** So once a child is stored, a later proposal whose certificate names the child's block
      extends states of that very block, the child among them, until it is stored itself
      or a decide passes the child's view. */
  lemma ChainIsFollowed(s: Coordinator, steps: seq<Step>, next: QuorumProposal)
    requires Inv(s) && s.flight.Forked?
    requires var q := s.flight.pair.quorum;
      && next.justifyView == q.view && next.justifyLeafCommit == q.leafCommit && DecidesUpTo(steps, q.view)
    ensures var q := s.flight.pair.quorum;
      var m: Registry := Run(Next(s, InsertChild), steps).states;
      && (Stored(m, next.Id()) <==> q.Id() !in Candidates(m, next))
      && forall id :: id in Candidates(m, next) ==>
        Stored(m, id) && id.parentView == q.view && m[id.parentView][id.parentCommitment].leafCommit == q.leafCommit
  {
    var q := s.flight.pair.quorum;
    var s1 := Next(s, InsertChild);
    InsertChildInv(s);
    InsertedIsStored(s);
    RunInv(s1, steps);
    StoredUntilDecided(s1, steps, q.Id());
    var m: Registry := Run(s1, steps).states;
    assert m[q.view][q.payloadCommitment].leafCommit == q.leafCommit;
    assert q.payloadCommitment in JustifyMatches(m, next);
    forall id | id in Candidates(m, next)
      ensures Stored(m, id) && id.parentView == q.view
      ensures m[id.parentView][id.parentCommitment].leafCommit == q.leafCommit
    {
      CandidatesSpec(m, next, id);
    }
    CandidatesSpec(m, next, q.Id());
  }

  function Highest(s: Coordinator): View {
    if s.states.Keys == {} then 0 else MaxView(s.states.Keys)
  }

  function Lowest(s: Coordinator): View {
    if s.states.Keys == {} then 0 else MinView(s.states.Keys)
  }

  /** What a step does to the set of stored views. */
  lemma NextViews(s: Coordinator, step: Step)
    requires s.states.Keys != {}
    ensures var views := Next(s, step).states.Keys;
      if step.InsertChild? && s.flight.Forked? then views == s.states.Keys + {s.flight.pair.quorum.view}
      else if step.Decide? then views == set v | v in s.states.Keys && v >= Cutoff(s.states, step.view)
      else views == s.states.Keys
  {
  }

  lemma HighestStep(s: Coordinator, step: Step)
    requires s.states.Keys != {}
    ensures Highest(Next(s, step)) >= Highest(s)
  {
    NextViews(s, step);
    if step.Decide? {
      CutoffKeepsHighest(s.states, step.view);
    }
  }

  /** No step ever lowers the highest stored view. */
  lemma {:induction false} HighestNeverFalls(s: Coordinator, steps: seq<Step>)
    requires Inv(s)
    ensures Highest(Run(s, steps)) >= Highest(s)
    decreases |steps|
  {
    if steps != [] {
      NextInv(s, steps[0]);
      HighestStep(s, steps[0]);
      HighestNeverFalls(Next(s, steps[0]), steps[1..]);
    }
  }

  // ----- Lookups -----

  datatype Lookup = NotFound | Decided | Found(refs: ParentRefs)

  /** A lookup reads the map twice; anything may happen in between. */
  function LookupState(first: Coordinator, second: Coordinator, id: BuilderStateId): Lookup {
    match Get(first.states, id.parentView, id.parentCommitment)
    case Some(refs) => Found(refs)
    case None => if Lowest(second) > id.parentView then Decided else NotFound
  }

  predicate IsDecided(s: Coordinator, id: BuilderStateId) { Lowest(s) > id.parentView }

  /** `Found` and `NotFound` are true of the map at the first read, `Decided` at the second:
      the state is absent and every stored view is greater. */
  lemma LookupLinearizable(s: Coordinator, steps: seq<Step>, id: BuilderStateId)
    requires Inv(s)
    ensures var s' := Run(s, steps);
      match LookupState(s, s', id)
      case Found(refs) =>
        Stored(s.states, id) && refs == s.states[id.parentView][id.parentCommitment] && refs.Id() == id
      case NotFound => !Stored(s.states, id) && (exists v :: v in s'.states && v <= id.parentView)
      case Decided =>
        !Stored(s.states, id) && !Stored(s'.states, id) && forall v :: v in s'.states ==> v > id.parentView
  {
    RunInv(s, steps);
    var s' := Run(s, steps);
    assert Lowest(s') in s'.states;
  }

  // ----- When `Decided` is final -----

  /** Among all steps only an insertion can lower the lowest view, and it does so exactly
      when no stored view is at or below the child's. */
  lemma LowestFallsIff(s: Coordinator, step: Step)
    requires s.states.Keys != {}
    ensures Lowest(Next(s, step)) < Lowest(s) <==>
      step.InsertChild? && s.flight.Forked? && s.flight.pair.quorum.view < Lowest(s)
  {
    NextViews(s, step);
    if step.Decide? {
      CutoffKeepsHighest(s.states, step.view);
    }
  }

  /** Every insertion of the run happens at or above the lowest view of its moment. */
  ghost predicate InsertsAbove(s: Coordinator, steps: seq<Step>)
    decreases |steps|
  {
    steps == [] ||
    (&& (steps[0].InsertChild? && s.flight.Forked? ==> s.flight.pair.quorum.view >= Lowest(s))
     && InsertsAbove(Next(s, steps[0]), steps[1..]))
  }

  /** An insertion below the lowest view makes an id reported `Decided` just
      before it stored right after it; one at or above makes none. */
  lemma InsertRevivesIff(s: Coordinator)
    requires Inv(s) && s.flight.Forked?
    ensures var q := s.flight.pair.quorum;
      && (q.view < Lowest(s) <==> exists id :: IsDecided(s, id) && Stored(Next(s, InsertChild).states, id))
      && Stored(Next(s, InsertChild).states, q.Id())
  {
    var q := s.flight.pair.quorum;
    if q.view < Lowest(s) {
      assert IsDecided(s, q.Id());
    } else {
      forall id | IsDecided(s, id) ensures !Stored(Next(s, InsertChild).states, id) { }
    }
  }

  /** Finding the parent and inserting the child with no decide in between. */
  function Spawn(s: Coordinator, choice: BuilderStateId): Coordinator {
    Next(Next(s, FindParent(choice)), InsertChild)
  }

  /** Done in one go, a spawn lowers the lowest view exactly when the proposal lies below
      every stored view and still found a parent: through its justify certificate, or
      because only one state was left. In particular never when the child's view is at
      least its parent's. */
  lemma AtomicSpawnFallsIff(s: Coordinator, choice: BuilderStateId)
    requires Inv(s) && s.flight.Matched? && choice in Candidates(s.states, s.flight.pair.quorum)
    ensures var q := s.flight.pair.quorum;
      && (Lowest(Spawn(s, choice)) < Lowest(s) <==>
            && (forall v :: v in s.states ==> q.view < v)
            && (JustifyMatches(s.states, q) != map[] || Len(s.states) == 1))
      && (q.view >= choice.parentView ==> Lowest(Spawn(s, choice)) >= Lowest(s))
  {
    var q := s.flight.pair.quorum;
    CandidatesSpec(s.states, q, choice);
    var s1 := Next(s, FindParent(choice));
    NextInv(s, FindParent(choice));
    LowestFallsIff(s1, InsertChild);
    if forall v :: v in s.states ==> q.view < v {
      assert ViewsBelow(s.states, q.view) == {};
    }
  }

  /** When a chosen parent lies above the proposal: its certificate names a later view, or,
      without a match, every stored view is later and the sole state is the last resort. */
  lemma ParentAboveIff(m: Registry, q: QuorumProposal, choice: BuilderStateId)
    requires RegistryOk(m) && choice in Candidates(m, q)
    ensures choice.parentView > q.view <==>
      if JustifyMatches(m, q) != map[] then q.justifyView > q.view else forall v :: v in m ==> v > q.view
  {
    CandidatesSpec(m, q, choice);
    if JustifyMatches(m, q) == map[] && ViewsBelow(m, q.view) == {} {
      SoleState(m);
      forall v | v in m ensures v == choice.parentView {
        StoredAt(m, v);
      }
    }
  }

  // ----- Runs in which `Decided` is final -----

  /** Every child of the run has at least its parent's view. */
  ghost predicate ChildrenNotBelow(s: Coordinator, steps: seq<Step>)
    decreases |steps|
  {
    steps == [] ||
    (&& (steps[0].InsertChild? && s.flight.Forked? ==> s.flight.pair.quorum.view >= s.flight.parent.viewNumber)
     && ChildrenNotBelow(Next(s, steps[0]), steps[1..]))
  }

  /** No decide of the run prunes the parent of a child that is in flight. */
  ghost predicate DecidesSpareParents(s: Coordinator, steps: seq<Step>)
    decreases |steps|
  {
    steps == [] ||
    (&& (steps[0].Decide? && s.flight.Forked? ==>
           Cutoff(s.states, steps[0].view) <= s.flight.parent.viewNumber)
     && DecidesSpareParents(Next(s, steps[0]), steps[1..]))
  }

  /** In particular, nothing comes between finding a parent and inserting its child. */
  predicate AtomicSpawns(steps: seq<Step>) {
    forall k :: 0 <= k < |steps| - 1 && steps[k].FindParent? ==> steps[k + 1].InsertChild?
  }

  lemma {:induction false} AtomicSpawnsSpare(s: Coordinator, steps: seq<Step>)
    requires AtomicSpawns(steps) && (s.flight.Forked? && steps != [] ==> steps[0].InsertChild?)
    ensures DecidesSpareParents(s, steps)
    decreases |steps|
  {
    if steps != [] {
      assert forall k :: 0 <= k < |steps[1..]| ==> steps[1..][k] == steps[k + 1];
      AtomicSpawnsSpare(Next(s, steps[0]), steps[1..]);
    }
  }

  ghost predicate ParentStored(s: Coordinator) {
    s.flight.Forked? ==> Stored(s.states, s.flight.parent.Id())
  }

  lemma NextParentStored(s: Coordinator, step: Step)
    requires Inv(s) && ParentStored(s)
    requires step.Decide? && s.flight.Forked? ==> Cutoff(s.states, step.view) <= s.flight.parent.viewNumber
    ensures ParentStored(Next(s, step))
  {
    if step.FindParent? && s.flight.Matched? && Next(s, step).flight.Forked? {
      var id := step.choice;
      assert s.states[id.parentView][id.parentCommitment].Id() == id;
    }
  }

  lemma {:induction false} SparedInsertsAbove(s: Coordinator, steps: seq<Step>)
    requires Inv(s) && ParentStored(s) && ChildrenNotBelow(s, steps) && DecidesSpareParents(s, steps)
    ensures InsertsAbove(s, steps)
    decreases |steps|
  {
    if steps != [] {
      NextInv(s, steps[0]);
      NextParentStored(s, steps[0]);
      SparedInsertsAbove(Next(s, steps[0]), steps[1..]);
    }
  }

  lemma RunPrefix(s: Coordinator, steps: seq<Step>, k: nat)
    requires 0 < k <= |steps|
    ensures Run(s, steps[..k]) == Run(Next(s, steps[0]), steps[1..][..k - 1])
  {
    assert steps[..k][1..] == steps[1..][..k - 1];
  }

  lemma {:induction false} LowestAlongRun(s: Coordinator, steps: seq<Step>, i: nat, j: nat)
    requires Inv(s) && InsertsAbove(s, steps) && i <= j <= |steps|
    ensures Lowest(Run(s, steps[..i])) <= Lowest(Run(s, steps[..j]))
    decreases |steps|
  {
    if j > 0 {
      var s1, rest := Next(s, steps[0]), steps[1..];
      NextInv(s, steps[0]);
      LowestFallsIff(s, steps[0]);
      RunPrefix(s, steps, j);
      LowestAlongRun(s1, rest, if i > 0 then i - 1 else 0, j - 1);
      if i > 0 {
        RunPrefix(s, steps, i);
      } else {
        assert Run(s1, rest[..0]) == s1 && Run(s, steps[..0]) == s;
      }
    }
  }

  /** The whole-run law: while no child lies below its parent and no decide prunes a parent
      in flight, the lowest view never falls between any two moments of a run from the start. */
  lemma LowestNeverFalls(steps: seq<Step>, i: nat, j: nat)
    requires ChildrenNotBelow(START, steps) && DecidesSpareParents(START, steps) && i <= j <= |steps|
    ensures Lowest(Run(START, steps[..i])) <= Lowest(Run(START, steps[..j]))
  {
    StartInv();
    SparedInsertsAbove(START, steps);
    LowestAlongRun(START, steps, i, j);
  }

  /** So `Decided` is final: a lookup that answers it, reading at any moments `i <= i'` of
      such a run, makes every later lookup of the same id answer it too. */
  lemma DecidedStaysDecided(steps: seq<Step>, i: nat, i': nat, j: nat, j': nat, id: BuilderStateId)
    requires ChildrenNotBelow(START, steps) && DecidesSpareParents(START, steps)
    requires i <= i' <= j <= j' <= |steps|
    requires LookupState(Run(START, steps[..i]), Run(START, steps[..i']), id) == Decided
    ensures LookupState(Run(START, steps[..j]), Run(START, steps[..j']), id) == Decided
    ensures !Stored(Run(START, steps[..j]).states, id)
  {
    LowestNeverFalls(steps, i', j);
    LowestNeverFalls(steps, i', j');
    StartInv();
    RunInv(START, steps[..j]);
  }

  /** With one-step spawns only the children's views matter. */
  lemma AtomicLowestNeverFalls(steps: seq<Step>, i: nat, j: nat)
    requires AtomicSpawns(steps) && ChildrenNotBelow(START, steps) && i <= j <= |steps|
    ensures DecidesSpareParents(START, steps)
    ensures Lowest(Run(START, steps[..i])) <= Lowest(Run(START, steps[..j]))
  {
    AtomicSpawnsSpare(START, steps);
    LowestNeverFalls(steps, i, j);
  }

  /** The first way `Decided` is taken back: the fallback to a sole state that lies above
      the proposal. */
  lemma SoleStateRevives(s: Coordinator, choice: BuilderStateId)
    requires Inv(s) && s.flight.Matched? && Len(s.states) == 1
    requires Stored(s.states, choice) && s.flight.pair.quorum.view < choice.parentView
    requires JustifyMatches(s.states, s.flight.pair.quorum) == map[]
    ensures var id := s.flight.pair.quorum.Id();
      LookupState(s, s, id) == Decided && LookupState(Spawn(s, choice), Spawn(s, choice), id).Found?
  {
    var q := s.flight.pair.quorum;
    SoleState(s.states);
    forall v | v in s.states ensures v == choice.parentView {
      StoredAt(s.states, v);
    }
    CandidatesSpec(s.states, q, choice);
    CandidatesSpec(s.states, q, q.Id());
    var s1 := Next(s, FindParent(choice));
    assert s1.flight.Forked?;
    assert Stored(Next(s1, InsertChild).states, q.Id());
  }

  /** The second way: a decide between the two halves of a spawn. It happens exactly when
      the decide's cutoff leaves only states above the proposal's view. */
  lemma DecideInFlightRevivesIff(s: Coordinator, view: View)
    requires Inv(s) && s.flight.Forked?
    ensures var id := s.flight.pair.quorum.Id();
      var s1 := Next(s, Decide(view));
      && Stored(Next(s1, InsertChild).states, id)
      && (IsDecided(s1, id) <==> forall v :: v in s.states && v >= Cutoff(s.states, view) ==> v > id.parentView)
  {
    InsertedIsStored(Next(s, Decide(view)));
    LowestAfterDecide(s, view);
  }

  lemma LowestAfterDecide(s: Coordinator, view: View)
    requires s.states.Keys != {}
    ensures var lowest := Lowest(Next(s, Decide(view)));
      && lowest in s.states && lowest >= Cutoff(s.states, view)
      && forall v :: v in s.states && v >= Cutoff(s.states, view) ==> lowest <= v
  {
    CutoffKeepsHighest(s.states, view);
    NextViews(s, Decide(view));
    var kept := Next(s, Decide(view)).states.Keys;
    forall v | v in s.states && v >= Cutoff(s.states, view) ensures v in kept { }
  }

  lemma InsertedIsStored(s: Coordinator)
    requires s.flight.Forked?
    ensures Stored(Next(s, InsertChild).states, s.flight.pair.quorum.Id())
  {
  }

  /** It happens in runs from the start: two uncertified pairs and a decide suffice. */
  lemma ReviveReachable() returns (steps: seq<Step>)
    ensures var s := Run(START, steps);
      && s.flight.Forked? && IsDecided(s, s.flight.pair.quorum.Id())
      && Stored(Next(s, InsertChild).states, s.flight.pair.quorum.Id())
  {
    var q5, d5 := QuorumProposal(5, 50, 500, 5000, 9, 9000), DaProposal(5, 500, []);
    var q3, d3 := QuorumProposal(3, 30, 300, 3000, 9, 9000), DaProposal(3, 300, []);
    StartInv();
    var steps1 := SpawnOnRoot(START, q5, d5);
    RunInv(START, steps1);
    var s2 := Next(Run(START, steps1), InsertChild);
    InsertChildInv(Run(START, steps1));
    NextViews(Run(START, steps1), InsertChild);
    var steps2 := SpawnOnRoot(s2, q3, d3);
    var s3 := Run(s2, steps2);
    assert s3.states.Keys == {0, 5};
    DecideAbove(s3);
    steps := (steps1 + [InsertChild]) + (steps2 + [Decide(5)]);
    RunThen(START, steps1, InsertChild);
    RunThen(s2, steps2, Decide(5));
    RunConcat(START, steps1 + [InsertChild], steps2 + [Decide(5)]);
  }

  /** The first way happens too, with spawns in one step: the decide comes first, and the
      second pair falls back to the sole state left. */
  lemma AtomicReviveReachable() returns (steps: seq<Step>, choice: BuilderStateId)
    ensures var s := Run(START, steps);
      && s.flight.Matched? && choice in Candidates(s.states, s.flight.pair.quorum)
      && var id := s.flight.pair.quorum.Id();
      LookupState(s, s, id) == Decided && LookupState(Spawn(s, choice), Spawn(s, choice), id).Found?
  {
    var q5, d5 := QuorumProposal(5, 50, 500, 5000, 9, 9000), DaProposal(5, 500, []);
    var q3, d3 := QuorumProposal(3, 30, 300, 3000, 9, 9000), DaProposal(3, 300, []);
    choice := q5.Id();
    StartInv();
    var steps1 := SpawnOnRoot(START, q5, d5);
    var s1 := Run(START, steps1);
    var s2 := Next(s1, InsertChild);
    var s3 := Next(s2, Decide(5));
    SoleAfterDecide(s1);
    var s4 := Next(Next(s3, Propose(Quorum(q3))), Propose(Da(d3)));
    assert Next(s3, Propose(Quorum(q3))).proposals == map[Quorum(q3).Id() := Quorum(q3)];
    assert s4 == s3.(flight := Matched(Pair(q3, d3)));
    steps := steps1 + [InsertChild] + [Decide(5)] + [Propose(Quorum(q3))] + [Propose(Da(d3))];
    RunThen(START, steps1, InsertChild);
    RunThen(START, steps1 + [InsertChild], Decide(5));
    RunThen(START, steps1 + [InsertChild] + [Decide(5)], Propose(Quorum(q3)));
    RunThen(START, steps1 + [InsertChild] + [Decide(5)] + [Propose(Quorum(q3))], Propose(Da(d3)));
    RunInv(START, steps);
    NothingMatches(s4.states, q3);
    SoleStateRevives(s4, choice);
    CandidatesSpec(s4.states, q3, choice);
    CandidatesSpec(s4.states, q3, q3.Id());
  }

  lemma SoleAfterDecide(s: Coordinator)
    requires s.states == START.states && s.flight.Forked? && s.flight.pair.quorum.view == 5
    ensures var q := s.flight.pair.quorum;
      var m := Next(Next(s, InsertChild), Decide(5)).states;
      m.Keys == {5} && Len(m) == 1 && Stored(m, q.Id()) && forall id :: Stored(m, id) ==> id == q.Id()
  {
    var q := s.flight.pair.quorum;
    var refs := ChildRefs(s.flight.parent, q, s.flight.pair.da);
    var m2 := Next(s, InsertChild).states;
    assert m2.Keys == {0, 5};
    assert Cutoff(m2, 5) == 5;
    assert AtLeast(m2, 5) == Inserted(map[], 5, q.payloadCommitment, refs);
    LenInserted(map[], 5, q.payloadCommitment, refs);
    LenIsFlat<VidCommit, ParentRefs>(map[]);
  }

  lemma DecideAbove(s: Coordinator)
    requires s.states.Keys == {0, 5} && s.flight.Forked? && s.flight.pair.quorum.view == 3
    ensures var s' := Next(s, Decide(5));
      s'.flight == s.flight && IsDecided(s', s.flight.pair.quorum.Id())
      && Stored(Next(s', InsertChild).states, s.flight.pair.quorum.Id())
  {
    NextViews(s, Decide(5));
    assert Cutoff(s.states, 5) == 5;
    assert 5 in Next(s, Decide(5)).states.Keys;
    InsertedIsStored(Next(s, Decide(5)));
  }

  /** The steps that bring a pair to the brink of insertion below the root: nothing matches
      its certificate, and the fallback reaches the root as the lowest state. */
  lemma SpawnOnRoot(s: Coordinator, q: QuorumProposal, d: DaProposal) returns (steps: seq<Step>)
    requires Inv(s) && s.flight.Idle? && s.proposals == map[]
    requires 0 in s.states && 0 in s.states[0] && s.states[0][0] == BOOTSTRAP
    requires q.view > 0 && q.justifyView !in s.states && !Stored(s.states, q.Id())
    requires Quorum(q).Id() == Da(d).Id()
    ensures Run(s, steps) == s.(flight := Forked(BOOTSTRAP, Pair(q, d)))
  {
    var root := BuilderStateId(0, 0);
    var a, b, c := Propose(Quorum(q)), Propose(Da(d)), FindParent(root);
    steps := [a, b, c];
    var s1 := Next(s, a);
    var s2 := Next(s1, b);
    assert s1.proposals == map[Quorum(q).Id() := Quorum(q)];
    assert s2.proposals == map[];
    assert s2 == s.(flight := Matched(Pair(q, d)));
    RootIsCandidate(s.states, q);
    assert steps[1..] == [b, c] && [b, c][1..] == [c] && [c][1..] == [];
    var s3 := Next(s2, c);
    assert s3 == s.(flight := Forked(BOOTSTRAP, Pair(q, d)));
    calc {
      Run(s, steps);
      Run(s1, [b, c]);
      Run(s2, [c]);
      Run(s3, []);
    }
  }

  lemma NothingMatches(m: Registry, q: QuorumProposal)
    requires q.justifyView !in m
    ensures JustifyMatches(m, q) == map[]
  {
    var none: map<VidCommit, ParentRefs> := map[];
    assert Bucket(m, q.justifyView) == none;
    assert JustifyMatches(m, q) == none;
  }

  lemma RootIsCandidate(m: Registry, q: QuorumProposal)
    requires RegistryOk(m) && 0 in m && 0 in m[0] && m[0][0] == BOOTSTRAP
    requires q.view > 0 && q.justifyView !in m && !Stored(m, q.Id())
    ensures BuilderStateId(0, 0) in Candidates(m, q)
  {
    NothingMatches(m, q);
    assert 0 in ViewsBelow(m, q.view);
    CandidatesSpec(m, q, BuilderStateId(0, 0));
  }

  lemma RunThen(s: Coordinator, steps: seq<Step>, last: Step)
    ensures Run(s, steps + [last]) == Next(Run(s, steps), last)
  {
    RunConcat(s, steps, [last]);
    assert [last][1..] == [];
  }

  lemma {:induction false} RunConcat(s: Coordinator, first: seq<Step>, second: seq<Step>)
    ensures Run(s, first + second) == Run(Run(s, first), second)
    decreases |first|
  {
    if first == [] {
      assert first + second == second;
    } else {
      assert (first + second)[1..] == first[1..] + second;
      RunConcat(Next(s, first[0]), first[1..], second);
    }
  }
}
