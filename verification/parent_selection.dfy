/** Which stored state a new proposal extends: the coordinator's rule, the older
    builder's rule, and exactly when they agree. */
module ParentSelection {
  import opened Blocks
  import opened TieredViewMaps

  /** The coordinator's stored states, by the references they carry. */
  type Registry = Tiers<VidCommit, ParentRefs>

  /** Every state is stored under its own id. */
  ghost predicate RegistryOk(m: Registry) {
    && WellFormed(m)
    && (forall v, c :: v in m && c in m[v] ==> m[v][c].Id() == BuilderStateId(v, c))
  }

  lemma RegistryPruned(m: Registry, cutoff: View)
    requires RegistryOk(m)
    ensures RegistryOk(AtLeast(m, cutoff))
  {
  }

  predicate Stored(m: Registry, id: BuilderStateId) { Get(m, id.parentView, id.parentCommitment).Some? }

  function Ids(bucket: map<VidCommit, ParentRefs>): set<BuilderStateId> {
    set c | c in bucket :: bucket[c].Id()
  }

  function JustifyMatches(m: Registry, q: QuorumProposal): map<VidCommit, ParentRefs> {
    map c | c in Bucket(m, q.justifyView) && Bucket(m, q.justifyView)[c].leafCommit == q.justifyLeafCommit
          :: Bucket(m, q.justifyView)[c]
  }

  /** The coordinator's rule. */
  function Candidates(m: Registry, q: QuorumProposal): set<BuilderStateId> {
    if Stored(m, q.Id()) then {}
    else if JustifyMatches(m, q) != map[] then Ids(JustifyMatches(m, q))
    else
      var lower := Range(m, 0, q.view);
      if lower != [] then Ids(lower[0])
      else if Len(m) == 1 then Ids(Bucket(m, HighestView(m).value))
      else {}
  }

  /** The older builder's map of running states; the bootstrap entry has no references. */
  type Spawned = map<BuilderStateId, Option<ParentRefs>>

  predicate ExactMatch(spawned: Spawned, q: QuorumProposal, id: BuilderStateId) {
    && id in spawned && spawned[id].Some?
    && spawned[id].value.leafCommit == q.justifyLeafCommit
    && spawned[id].value.viewNumber == q.justifyView
  }

  ghost predicate NoExactMatch(spawned: Spawned, q: QuorumProposal) {
    forall id :: id in spawned ==> !ExactMatch(spawned, q, id)
  }

  ghost predicate NoneBelow(spawned: Spawned, view: View) {
    forall id :: id in spawned ==> id.parentView >= view
  }

  /** The documented five-case rule: none when already spawned; else the exact matches;
      else all states at the greatest lower view; else the only state; else none. */
  ghost predicate Best(spawned: Spawned, q: QuorumProposal, id: BuilderStateId) {
    && q.Id() !in spawned
    && id in spawned
    && (|| ExactMatch(spawned, q, id)
        || (&& NoExactMatch(spawned, q)
            && id.parentView < q.view
            && forall o :: o in spawned && o.parentView < q.view ==> o.parentView <= id.parentView)
        || (NoExactMatch(spawned, q) && NoneBelow(spawned, q.view) && |spawned| == 1))
  }

  /** The greatest key view below `bound`, if any. The keys come in no particular order. */
  method GreatestBelow(spawned: Spawned, bound: View) returns (greatest: Option<View>)
    ensures greatest.None? <==> NoneBelow(spawned, bound)
    ensures greatest.Some? ==>
      && greatest.value < bound
      && (exists id :: id in spawned && id.parentView == greatest.value)
      && (forall id :: id in spawned && id.parentView < bound ==> id.parentView <= greatest.value)
  {
    greatest := None;
    var rest := spawned.Keys;
    while rest != {}
      invariant rest <= spawned.Keys
      invariant greatest.None? ==> forall id :: id in spawned.Keys - rest ==> id.parentView >= bound
      invariant greatest.Some? ==>
        && greatest.value < bound
        && (exists id :: id in spawned && id.parentView == greatest.value)
        && (forall id :: id in spawned.Keys - rest && id.parentView < bound ==> id.parentView <= greatest.value)
      decreases |rest|
    {
      var id :| id in rest;
      rest := rest - {id};
      if id.parentView < bound && (greatest.None? || greatest.value < id.parentView) {
        greatest := Some(id.parentView);
      }
    }
  }

  /** The older builder's selection computes the documented rule. */
  method BestBuilderStatesToExtend(q: QuorumProposal, spawned: Spawned) returns (best: set<BuilderStateId>)
    ensures forall id :: id in best <==> Best(spawned, q, id)
  {
    if q.Id() in spawned {
      return {};
    }
    var existing := set id | id in spawned && ExactMatch(spawned, q, id);
    if existing != {} {
      return existing;
    }
    assert NoExactMatch(spawned, q) by {
      forall id | id in spawned ensures !ExactMatch(spawned, q, id) { assert id !in existing; }
    }
    var greatest := GreatestBelow(spawned, q.view);
    if greatest.Some? {
      best := {};
      var rest := set id | id in spawned && id.parentView == greatest.value;
      ghost var all := rest;
      while rest != {}
        invariant best + rest == all
        decreases |rest|
      {
        var id :| id in rest;
        best, rest := best + {id}, rest - {id};
      }
      return;
    }
    if |spawned| == 1 {
      return spawned.Keys;
    }
    return {};
  }

  // ----- Comparing the two -----

  /** What the older builder registers for a block: it leaves the transaction count and the
      last non-empty view blank. */
  function LegacyRefs(refs: ParentRefs): ParentRefs { refs.(txCount := 0, lastNonemptyView := None) }

  /** The same block is referred to, whatever is kept of its transactions. */
  predicate SameBlock(a: ParentRefs, b: ParentRefs) { LegacyRefs(a) == LegacyRefs(b) }

  /** The two structures hold the same states, up to the fields the older one leaves blank.
      It keeps no references for its bootstrap entry, where the coordinator has the
      bootstrap references. */
  ghost predicate SameStates(m: Registry, spawned: Spawned) {
    forall id ::
      && (id in spawned <==> Stored(m, id))
      && (id in spawned ==>
            var refs := Get(m, id.parentView, id.parentCommitment);
            && refs.Some?
            && if spawned[id].Some? then SameBlock(spawned[id].value, refs.value) else refs.value == BOOTSTRAP)
  }

  /** The proposal certifies the placeholder leaf of a bootstrap entry that is still there
      without references; the older builder then cannot see the match. */
  predicate CertifiesBareBootstrap(spawned: Spawned, q: QuorumProposal) {
    && BOOTSTRAP.Id() in spawned && spawned[BOOTSTRAP.Id()] == None
    && q.justifyView == BOOTSTRAP.viewNumber && q.justifyLeafCommit == BOOTSTRAP.leafCommit
  }

  lemma {:induction false} IdsSize(pairs: set<(View, VidCommit)>)
    ensures |set k | k in pairs :: BuilderStateId(k.0, k.1)| == |pairs|
    decreases |pairs|
  {
    if pairs == {} {
      assert (set k | k in pairs :: BuilderStateId(k.0, k.1)) == {};
    } else {
      var x :| x in pairs;
      IdsSize(pairs - {x});
      assert (set k | k in pairs :: BuilderStateId(k.0, k.1))
          == (set k | k in pairs - {x} :: BuilderStateId(k.0, k.1)) + {BuilderStateId(x.0, x.1)};
    }
  }

  lemma SameSize(m: Registry, spawned: Spawned)
    requires SameStates(m, spawned)
    ensures |spawned| == Len(m)
  {
    LenIsFlat(m);
    IdsSize(Keys(m));
    var ids := set k | k in Keys(m) :: BuilderStateId(k.0, k.1);
    forall id | id in spawned ensures id in ids {
      GetIsFlat(m, id.parentView, id.parentCommitment);
      assert (id.parentView, id.parentCommitment) in Keys(m);
    }
    forall id | id in ids ensures id in spawned {
      GetIsFlat(m, id.parentView, id.parentCommitment);
    }
    assert ids == spawned.Keys;
  }

  function ViewsBelow(m: Registry, view: View): set<View> { set v | v in m.Keys && v < view }

  /** The coordinator's fallback offers the states of the LOWEST stored view below the
      proposal's. */
  lemma CandidatesSpec(m: Registry, q: QuorumProposal, id: BuilderStateId)
    requires RegistryOk(m)
    ensures id in Candidates(m, q) <==>
      && !Stored(m, q.Id()) && Stored(m, id)
      && (if JustifyMatches(m, q) != map[] then
            id.parentView == q.justifyView && m[id.parentView][id.parentCommitment].leafCommit == q.justifyLeafCommit
          else if ViewsBelow(m, q.view) != {} then id.parentView == MinView(ViewsBelow(m, q.view))
          else Len(m) == 1)
  {
    if !Stored(m, q.Id()) {
      if JustifyMatches(m, q) != map[] {
        IdsMember(m, JustifyMatches(m, q), q.justifyView, id);
      } else if ViewsBelow(m, q.view) != {} {
        assert ViewsBelow(m, q.view) == set v | v in m.Keys && 0 <= v < q.view;
        RangeHead(m, 0, q.view);
        IdsMember(m, m[MinView(ViewsBelow(m, q.view))], MinView(ViewsBelow(m, q.view)), id);
      } else {
        assert ViewsBelow(m, q.view) == set v | v in m.Keys && 0 <= v < q.view;
        RangeHead(m, 0, q.view);
        if Len(m) == 1 {
          SoleState(m);
          IdsMember(m, Bucket(m, HighestView(m).value), HighestView(m).value, id);
        }
      }
    }
  }

  lemma IdsMember(m: Registry, bucket: map<VidCommit, ParentRefs>, v: View, id: BuilderStateId)
    requires RegistryOk(m)
    requires forall c :: c in bucket ==> v in m && c in m[v] && bucket[c] == m[v][c]
    ensures id in Ids(bucket) <==> id.parentView == v && id.parentCommitment in bucket
  {
    if id.parentView == v && id.parentCommitment in bucket {
      assert bucket[id.parentCommitment].Id() == id;
    }
  }

  /** A map with one entry has one view, which is also the highest. */
  lemma SoleState(m: Registry)
    requires RegistryOk(m) && Len(m) == 1
    ensures HighestView(m).Some?
    ensures forall id :: Stored(m, id) ==> id.parentView == HighestView(m).value
  {
    LenIsFlat(m);
    ExtremesAreFlat(m);
    var k :| k in Keys(m);
    assert |Keys(m) - {k}| == 0;
    assert Keys(m) == {k};
    forall id | Stored(m, id) ensures id.parentView == HighestView(m).value {
      GetIsFlat(m, id.parentView, id.parentCommitment);
    }
  }

  lemma OneView(vs: set<View>)
    requires vs != {}
    ensures |vs| == 1 <==> MinView(vs) == MaxView(vs)
  {
    var v := MinView(vs);
    if MinView(vs) == MaxView(vs) {
      assert vs == {v};
    } else {
      assert {v, MaxView(vs)} <= vs;
      assert |vs - {v}| == |vs| - 1;
      assert MaxView(vs) in vs - {v};
    }
  }

  lemma BareIsBootstrap(m: Registry, spawned: Spawned, id: BuilderStateId)
    requires RegistryOk(m) && SameStates(m, spawned) && id in spawned
    ensures Get(m, id.parentView, id.parentCommitment).Some?
    ensures spawned[id] == None ==> id == BOOTSTRAP.Id() && m[id.parentView][id.parentCommitment] == BOOTSTRAP
    ensures spawned[id] != None ==> SameBlock(spawned[id].value, m[id.parentView][id.parentCommitment])
  {
    assert id in spawned <==> Stored(m, id);
    assert m[id.parentView][id.parentCommitment].Id() == id;
  }

  /** Does a stored state match the proposal's certificate? */
  predicate Certified(m: Registry, q: QuorumProposal, id: BuilderStateId) {
    && Stored(m, id) && id.parentView == q.justifyView
    && m[id.parentView][id.parentCommitment].leafCommit == q.justifyLeafCommit
  }

  lemma MatchesAreCertified(m: Registry, q: QuorumProposal)
    ensures JustifyMatches(m, q) != map[] <==> exists id :: Certified(m, q, id)
  {
    var matches := JustifyMatches(m, q).Keys;
    if matches != {} {
      var c := Pick(matches);
      assert Certified(m, q, BuilderStateId(q.justifyView, c));
    }
    if id :| Certified(m, q, id) {
      assert id.parentCommitment in JustifyMatches(m, q);
    }
  }

  /** Same states, exact match case: the older builder sees the same exact matches, save
      only a bootstrap state without references. */
  lemma ExactMatchesAgree(m: Registry, spawned: Spawned, q: QuorumProposal)
    requires RegistryOk(m) && SameStates(m, spawned)
    ensures forall id :: ExactMatch(spawned, q, id) <==>
      Certified(m, q, id) && !(CertifiesBareBootstrap(spawned, q) && id == BOOTSTRAP.Id())
    ensures CertifiesBareBootstrap(spawned, q) ==> Certified(m, q, BOOTSTRAP.Id())
    ensures JustifyMatches(m, q) == map[] <==> NoExactMatch(spawned, q) && !CertifiesBareBootstrap(spawned, q)
  {
    forall id ensures ExactMatch(spawned, q, id) <==>
      Certified(m, q, id) && !(CertifiesBareBootstrap(spawned, q) && id == BOOTSTRAP.Id())
    {
      assert id in spawned <==> Stored(m, id);
      if id in spawned { BareIsBootstrap(m, spawned, id); }
      if Stored(m, id) { assert m[id.parentView][id.parentCommitment].Id() == id; }
    }
    if CertifiesBareBootstrap(spawned, q) {
      BareIsBootstrap(m, spawned, BOOTSTRAP.Id());
    }
    MatchesAreCertified(m, q);
    if JustifyMatches(m, q) != map[] {
      var id :| Certified(m, q, id);
      assert id in spawned <==> Stored(m, id);
    } else {
      assert !Certified(m, q, BOOTSTRAP.Id());
      forall id | id in spawned ensures !ExactMatch(spawned, q, id) {
        assert !Certified(m, q, id);
      }
    }
  }

  /** The choice is forced: the proposal is already spawned, has an exact match, or has at
      most one stored view below it. */
  predicate FallbackIsForced(m: Registry, q: QuorumProposal) {
    Stored(m, q.Id()) || JustifyMatches(m, q) != map[] || |ViewsBelow(m, q.view)| <= 1
  }

  /** Then the coordinator follows the documented rule. */
  lemma AgreesWhenForced(m: Registry, spawned: Spawned, q: QuorumProposal, id: BuilderStateId)
    requires RegistryOk(m) && SameStates(m, spawned)
    requires FallbackIsForced(m, q) && !CertifiesBareBootstrap(spawned, q)
    ensures id in Candidates(m, q) <==> Best(spawned, q, id)
  {
    CandidatesSpec(m, q, id);
    ExactMatchesAgree(m, spawned, q);
    assert q.Id() in spawned <==> Stored(m, q.Id());
    assert id in spawned <==> Stored(m, id);
    if !Stored(m, q.Id()) && JustifyMatches(m, q) == map[] {
      FallbacksAgree(m, spawned, q, id);
    }
  }

  lemma FallbacksAgree(m: Registry, spawned: Spawned, q: QuorumProposal, id: BuilderStateId)
    requires RegistryOk(m) && SameStates(m, spawned) && NoExactMatch(spawned, q)
    requires !Stored(m, q.Id()) && JustifyMatches(m, q) == map[] && |ViewsBelow(m, q.view)| <= 1
    ensures id in Candidates(m, q) <==> Best(spawned, q, id)
  {
    CandidatesSpec(m, q, id);
    SameSize(m, spawned);
    assert q.Id() in spawned <==> Stored(m, q.Id());
    assert id in spawned <==> Stored(m, id);
    var below := ViewsBelow(m, q.view);
    forall o | o in spawned && o.parentView < q.view ensures o.parentView in below { }
    if below == {} {
      assert NoneBelow(spawned, q.view);
    } else {
      OneView(below);
      forall v | v in below ensures v == MinView(below) { }
      StoredAt(m, MinView(below));
      var o :| Stored(m, o) && o.parentView == MinView(below);
      assert o in spawned && !NoneBelow(spawned, q.view);
    }
  }

  lemma Pick<T>(s: set<T>) returns (x: T)
    requires s != {}
    ensures x in s
  {
    x :| x in s;
  }

  lemma StoredAt(m: Registry, v: View)
    requires RegistryOk(m) && v in m
    ensures exists id :: Stored(m, id) && id.parentView == v
  {
    assert m[v].Keys != {};
    var c := Pick(m[v].Keys);
    assert Stored(m, BuilderStateId(v, c));
  }

  /** Otherwise the two choices have nothing in common: the coordinator offers only states
      of the lowest view, the documented rule only states of the highest below. */
  lemma DisjointOtherwise(m: Registry, spawned: Spawned, q: QuorumProposal)
    requires RegistryOk(m) && SameStates(m, spawned)
    requires !FallbackIsForced(m, q)
    ensures Candidates(m, q) != {}
    ensures forall id :: id in Candidates(m, q) ==> !Best(spawned, q, id)
  {
    var below := ViewsBelow(m, q.view);
    OneView(below);
    var lo, hi := MinView(below), MaxView(below);
    StoredAt(m, lo);
    StoredAt(m, hi);
    var a :| Stored(m, a) && a.parentView == lo;
    var b :| Stored(m, b) && b.parentView == hi;
    CandidatesSpec(m, q, a);
    ExactMatchesAgree(m, spawned, q);
    forall id | id in Candidates(m, q) ensures !Best(spawned, q, id) {
      CandidatesSpec(m, q, id);
      assert b in spawned && id.parentView < b.parentView < q.view;
    }
  }

  // ----- The exact domain of agreement -----

  /** The bootstrap state is the only stored one below the proposal, or, for a proposal of
      view 0, the only one at all. */
  ghost predicate BootstrapIsAlone(m: Registry, view: View) {
    if view == 0 then Len(m) == 1
    else forall id :: Stored(m, id) && id.parentView < view ==> id == BOOTSTRAP.Id()
  }

  /** When both builders choose the same states: the proposal is already spawned; or it
      certifies a bootstrap entry without references, which is also what the fallback would
      reach; or it does not, and the choice is forced. */
  ghost predicate ChoicesCoincide(m: Registry, spawned: Spawned, q: QuorumProposal) {
    || Stored(m, q.Id())
    || (if CertifiesBareBootstrap(spawned, q) then BootstrapIsAlone(m, q.view) else FallbackIsForced(m, q))
  }

  ghost predicate SameChoice(m: Registry, spawned: Spawned, q: QuorumProposal) {
    forall id :: id in Candidates(m, q) <==> Best(spawned, q, id)
  }

  lemma SoleEntry(spawned: Spawned, a: BuilderStateId, b: BuilderStateId)
    requires |spawned| == 1 && a in spawned && b in spawned
    ensures a == b
  {
    var keys := spawned.Keys;
    assert |keys - {a}| == 0;
    assert keys == {a};
  }

  /** A certified bare bootstrap entry: the coordinator offers it as an exact match ... */
  lemma BareBootstrapOffered(m: Registry, spawned: Spawned, q: QuorumProposal)
    requires RegistryOk(m) && SameStates(m, spawned)
    requires CertifiesBareBootstrap(spawned, q) && !Stored(m, q.Id())
    ensures BOOTSTRAP.Id() in Candidates(m, q)
    ensures forall id :: id in Candidates(m, q) <==> Certified(m, q, id)
  {
    ExactMatchesAgree(m, spawned, q);
    MatchesAreCertified(m, q);
    forall id ensures id in Candidates(m, q) <==> Certified(m, q, id) {
      CandidatesSpec(m, q, id);
    }
  }

  /** ... and the older builder reaches it by its fallback only when it is alone. */
  lemma BareBootstrapBestIff(m: Registry, spawned: Spawned, q: QuorumProposal)
    requires RegistryOk(m) && SameStates(m, spawned)
    requires CertifiesBareBootstrap(spawned, q) && !Stored(m, q.Id())
    ensures SameChoice(m, spawned, q) <==> BootstrapIsAlone(m, q.view)
  {
    if BootstrapIsAlone(m, q.view) {
      forall id ensures id in Candidates(m, q) <==> Best(spawned, q, id) {
        AloneIsBest(m, spawned, q, id);
      }
    } else {
      var id := NotAloneDiffers(m, spawned, q);
    }
  }

  lemma NotAloneDiffers(m: Registry, spawned: Spawned, q: QuorumProposal) returns (id: BuilderStateId)
    requires RegistryOk(m) && SameStates(m, spawned)
    requires CertifiesBareBootstrap(spawned, q) && !Stored(m, q.Id()) && !BootstrapIsAlone(m, q.view)
    ensures id in Candidates(m, q) <==> !Best(spawned, q, id)
  {
    BareBootstrapOffered(m, spawned, q);
    ExactMatchesAgree(m, spawned, q);
    SameSize(m, spawned);
    id := BOOTSTRAP.Id();
    if Best(spawned, q, id) {
      assert q.view > 0;
      id :| Stored(m, id) && id.parentView < q.view && id != BOOTSTRAP.Id();
      assert id in spawned && !ExactMatch(spawned, q, id);
    }
  }

  lemma AloneIsBest(m: Registry, spawned: Spawned, q: QuorumProposal, id: BuilderStateId)
    requires RegistryOk(m) && SameStates(m, spawned)
    requires CertifiesBareBootstrap(spawned, q) && !Stored(m, q.Id()) && BootstrapIsAlone(m, q.view)
    ensures id in Candidates(m, q) <==> Best(spawned, q, id)
  {
    BareBootstrapOffered(m, spawned, q);
    ExactMatchesAgree(m, spawned, q);
    SameSize(m, spawned);
    var root := BOOTSTRAP.Id();
    assert q.Id() in spawned <==> Stored(m, q.Id());
    forall o ensures o in spawned && (q.view == 0 || o.parentView < q.view) ==> o == root {
      assert o in spawned <==> Stored(m, o);
      if o in spawned && q.view == 0 { SoleEntry(spawned, o, root); }
    }
    forall o ensures !ExactMatch(spawned, q, o) {
      if Certified(m, q, o) { assert o in spawned; }
    }
    assert id in spawned <==> Stored(m, id);
  }

  /** For any registries that hold the same states, bootstrap entry included: the two
      builders choose the same parents exactly on the stated domain. */
  lemma SameChoiceIff(m: Registry, spawned: Spawned, q: QuorumProposal)
    requires RegistryOk(m) && SameStates(m, spawned)
    ensures SameChoice(m, spawned, q) <==> ChoicesCoincide(m, spawned, q)
  {
    assert q.Id() in spawned <==> Stored(m, q.Id());
    if Stored(m, q.Id()) {
    } else if CertifiesBareBootstrap(spawned, q) {
      BareBootstrapBestIff(m, spawned, q);
    } else if FallbackIsForced(m, q) {
      forall id ensures id in Candidates(m, q) <==> Best(spawned, q, id) {
        AgreesWhenForced(m, spawned, q, id);
      }
    } else {
      DisjointOtherwise(m, spawned, q);
      var id :| id in Candidates(m, q);
      assert !Best(spawned, q, id);
    }
  }

  /** A bootstrap entry without references makes them part even where the choice is forced:
      the coordinator extends the bootstrap state, the older builder the latest one. */
  lemma BareBootstrapDiverges(refs: ParentRefs, q: QuorumProposal)
    requires 0 < refs.viewNumber < q.view
    requires q.justifyView == BOOTSTRAP.viewNumber && q.justifyLeafCommit == BOOTSTRAP.leafCommit
    ensures var m := Inserted(map[0 := map[0 := BOOTSTRAP]], refs.viewNumber, refs.vidCommitment, refs);
      var spawned := map[BOOTSTRAP.Id() := None, refs.Id() := Some(LegacyRefs(refs))];
      && SameStates(m, spawned) && FallbackIsForced(m, q)
      && (forall id :: id in Candidates(m, q) <==> id == BOOTSTRAP.Id())
      && (forall id :: Best(spawned, q, id) <==> id == refs.Id())
  {
    var m: Registry := Inserted(map[0 := map[0 := BOOTSTRAP]], refs.viewNumber, refs.vidCommitment, refs);
    var spawned: Spawned := map[BOOTSTRAP.Id() := None, refs.Id() := Some(LegacyRefs(refs))];
    assert m == map[0 := map[0 := BOOTSTRAP], refs.viewNumber := map[refs.vidCommitment := refs]];
    assert SameStates(m, spawned);
    ExactMatchesAgree(m, spawned, q);
    BareBootstrapOffered(m, spawned, q);
    assert refs.Id() in spawned && BOOTSTRAP.Id() in spawned;
  }
}
