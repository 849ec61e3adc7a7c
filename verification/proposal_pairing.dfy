/** Matching quorum proposals with DA proposals, which arrive in any order. */
module ProposalPairing {
  import opened Blocks

  datatype ProposalId = ProposalId(view: View, builderCommitment: BuilderCommit)

  datatype Proposal = Quorum(quorum: QuorumProposal) | Da(da: DaProposal)
  {
    function Id(): ProposalId {
      match this
      case Quorum(q) => ProposalId(q.view, q.builderCommitment)
      case Da(d) => ProposalId(d.view, d.builderCommitment)
    }
  }

  datatype Pair = Pair(quorum: QuorumProposal, da: DaProposal)

  type ProposalMap = map<ProposalId, Proposal>

  datatype Offered = Offered(stored: ProposalMap, pair: Option<Pair>)

  /** A proposal of the other kind is taken out and paired; one of the same kind makes the
      newcomer a duplicate; otherwise the newcomer is stored. */
  function Offer(stored: ProposalMap, p: Proposal): Offered {
    if p.Id() !in stored then Offered(stored[p.Id() := p], None)
    else
      match (stored[p.Id()], p)
      case (Quorum(q), Da(d)) => Offered(stored - {p.Id()}, Some(Pair(q, d)))
      case (Da(d), Quorum(q)) => Offered(stored - {p.Id()}, Some(Pair(q, d)))
      case _ => Offered(stored, None)
  }

  /** The history of one map: what is stored and which pairs were handed on for spawning. */
  datatype Matching = Matching(stored: ProposalMap, attempts: seq<Pair>)

  function Init(ps: seq<Proposal>): seq<Proposal>
    requires ps != []
  {
    ps[..|ps| - 1]
  }

  function Last(ps: seq<Proposal>): Proposal
    requires ps != []
  {
    ps[|ps| - 1]
  }

  function Match(ps: seq<Proposal>): Matching {
    if ps == [] then Matching(map[], []) else Feed(Match(Init(ps)), Last(ps))
  }

  function Feed(m: Matching, p: Proposal): Matching {
    var o := Offer(m.stored, p);
    Matching(o.stored, if o.pair.Some? then m.attempts + [o.pair.value] else m.attempts)
  }

  function PairId(pair: Pair): ProposalId { Quorum(pair.quorum).Id() }

  // ----- Any event sequence -----

  function CountKind(ps: seq<Proposal>, id: ProposalId, quorum: bool): nat {
    if ps == [] then 0
    else CountKind(Init(ps), id, quorum)
         + if Last(ps).Id() == id && Last(ps).Quorum? == quorum then 1 else 0
  }

  function CountAttempts(pairs: seq<Pair>, id: ProposalId): nat {
    if pairs == [] then 0
    else CountAttempts(pairs[..|pairs| - 1], id) + if PairId(pairs[|pairs| - 1]) == id then 1 else 0
  }

  lemma CountAttemptsSnoc(pairs: seq<Pair>, p: Pair, id: ProposalId)
    ensures CountAttempts(pairs + [p], id) == CountAttempts(pairs, id) + if PairId(p) == id then 1 else 0
  {
    assert (pairs + [p])[..|pairs|] == pairs;
  }

  /** Entries sit under their own id, and both halves of a pair agree on it, so the view
      equality that spawning asserts always holds. */
  lemma {:induction false} IdsAgree(ps: seq<Proposal>)
    ensures forall id :: id in Match(ps).stored ==> Match(ps).stored[id].Id() == id
    ensures forall k :: 0 <= k < |Match(ps).attempts| ==>
              var pair := Match(ps).attempts[k];
              && Da(pair.da).Id() == PairId(pair)
              && pair.da.view == pair.quorum.view && pair.da.builderCommitment == pair.quorum.builderCommitment
  {
    if ps != [] {
      IdsAgree(Init(ps));
    }
  }

  /** `q` and `d` proposals of the two kinds have arrived for `id`. */
  ghost predicate Tally(m: Matching, id: ProposalId, q: nat, d: nat) {
    var a := CountAttempts(m.attempts, id);
    && a <= q && a <= d
    && (a >= 1 <==> q >= 1 && d >= 1)
    && (id in m.stored && m.stored[id].Quorum? ==> q >= a + 1 && (a == 0 ==> d == 0))
    && (id in m.stored && m.stored[id].Da? ==> d >= a + 1 && (a == 0 ==> q == 0))
    && (id !in m.stored && a == 0 ==> q == 0 && d == 0)
  }

  lemma FeedTally(m: Matching, p: Proposal, id: ProposalId, q: nat, d: nat)
    requires Tally(m, id, q, d)
    requires p.Id() in m.stored ==> m.stored[p.Id()].Id() == p.Id()
    ensures Tally(Feed(m, p), id,
                  q + (if p.Id() == id && p.Quorum? then 1 else 0),
                  d + (if p.Id() == id && p.Da? then 1 else 0))
  {
    var o := Offer(m.stored, p);
    if o.pair.Some? {
      CountAttemptsSnoc(m.attempts, o.pair.value, id);
    }
  }

  /** Over any events: a spawn is attempted for an id iff both kinds arrived, at most as
      often as the rarer kind; and the stored kind has arrived at least once more than
      spawns were attempted. */
  lemma {:induction false} SpawnsIffBoth(ps: seq<Proposal>, id: ProposalId)
    ensures Tally(Match(ps), id, CountKind(ps, id, true), CountKind(ps, id, false))
  {
    if ps != [] {
      SpawnsIffBoth(Init(ps), id);
      IdsAgree(Init(ps));
      FeedTally(Match(Init(ps)), Last(ps), id, CountKind(Init(ps), id, true), CountKind(Init(ps), id, false));
    }
  }

  /** Event `k` came when nothing was waiting for its id, and since then only its own kind
      has arrived for it. */
  ghost predicate Waits(ps: seq<Proposal>, k: nat) {
    && k < |ps|
    && ps[k].Id() !in Match(ps[..k]).stored
    && forall j :: k < j < |ps| && ps[j].Id() == ps[k].Id() ==> ps[j].Quorum? == ps[k].Quorum?
  }

  lemma WaitsInit(ps: seq<Proposal>, k: nat)
    requires ps != [] && k < |ps| - 1
    ensures Waits(ps, k) <==>
      Waits(Init(ps), k) && (Last(ps).Id() == ps[k].Id() ==> Last(ps).Quorum? == ps[k].Quorum?)
  {
    assert Init(ps)[..k] == ps[..k];
    assert forall j :: 0 <= j < |Init(ps)| ==> Init(ps)[j] == ps[j];
  }

  /** The leftover of an id is the first proposal that arrived for it after its last
      completed pair: it is stored exactly as long as it waits. */
  lemma {:induction false} LeftoverWaits(ps: seq<Proposal>, k: nat)
    requires k < |ps|
    ensures Waits(ps, k) ==> ps[k].Id() in Match(ps).stored && Match(ps).stored[ps[k].Id()] == ps[k]
    decreases |ps|
  {
    if k < |ps| - 1 {
      LeftoverWaits(Init(ps), k);
      WaitsInit(ps, k);
    } else {
      assert ps[..k] == Init(ps);
    }
  }

  lemma {:induction false} EveryLeftoverWaits(ps: seq<Proposal>, id: ProposalId) returns (k: nat)
    requires id in Match(ps).stored
    ensures k < |ps| && ps[k].Id() == id && Waits(ps, k)
    decreases |ps|
  {
    if id in Match(Init(ps)).stored {
      k := EveryLeftoverWaits(Init(ps), id);
      LeftoverWaits(Init(ps), k);
      WaitsInit(ps, k);
    } else {
      k := |ps| - 1;
      assert ps[..k] == Init(ps);
    }
  }

  /** In particular it need not be of the kind that arrived more often. */
  lemma LeftoverOfRarerKind(q: QuorumProposal, d: DaProposal)
    requires Quorum(q).Id() == Da(d).Id()
    ensures var ps := [Quorum(q), Quorum(q), Quorum(q), Da(d), Da(d)];
      && CountKind(ps, Da(d).Id(), true) == 3 && CountKind(ps, Da(d).Id(), false) == 2
      && Match(ps).stored == map[Da(d).Id() := Da(d)]
  {
    var id := Da(d).Id();
    var ps1, ps2 := [Quorum(q)], [Quorum(q), Quorum(q)];
    var ps3, ps4 := ps2 + [Quorum(q)], ps2 + [Quorum(q), Da(d)];
    var ps := ps4 + [Da(d)];
    assert ps == [Quorum(q), Quorum(q), Quorum(q), Da(d), Da(d)];
    assert Init(ps) == ps4 && Init(ps4) == ps3 && Init(ps3) == ps2 && Init(ps2) == ps1 && Init(ps1) == [];
    assert Match(ps1).stored == map[id := Quorum(q)];
    assert Match(ps2).stored == Match(ps3).stored == Match(ps1).stored;
    assert Match(ps4).stored == map[];
    assert CountKind(Init(ps1), id, true) == 0 && CountKind(Init(ps1), id, false) == 0;
    assert CountKind(ps1, id, true) == 1 && CountKind(ps1, id, false) == 0;
    assert CountKind(ps2, id, true) == 2 && CountKind(ps2, id, false) == 0;
    assert CountKind(ps4, id, true) == 3 && CountKind(ps4, id, false) == 1;
  }

  // ----- Duplicate-free event sequences -----

  /** No id receives the same kind of proposal twice. */
  ghost predicate DuplicateFree(ps: seq<Proposal>) {
    forall i, j :: 0 <= i < j < |ps| ==> !(ps[i].Id() == ps[j].Id() && ps[i].Quorum? == ps[j].Quorum?)
  }

  ghost predicate Arrived(ps: seq<Proposal>, id: ProposalId, quorum: bool) {
    exists p :: p in ps && p.Id() == id && p.Quorum? == quorum
  }

  /** The pairs are exactly the proposals of equal view and builder commitment, each once,
      whatever the arrival order. */
  ghost predicate AttemptsMatch(attempts: seq<Pair>, ps: seq<Proposal>) {
    && (forall q, d :: Pair(q, d) in attempts <==>
          && Quorum(q) in ps && Da(d) in ps
          && q.view == d.view && q.builderCommitment == d.builderCommitment)
    && (forall i, j :: 0 <= i < j < |attempts| ==> attempts[i] != attempts[j])
  }

  /** The leftovers are exactly the proposals without a counterpart. */
  ghost predicate MatchesArrivals(m: Matching, ps: seq<Proposal>) {
    && AttemptsMatch(m.attempts, ps)
    && (forall id :: id in m.stored <==> Arrived(ps, id, true) != Arrived(ps, id, false))
    && (forall id :: id in m.stored ==> m.stored[id] in ps && m.stored[id].Id() == id)
  }

  lemma Unique(ps: seq<Proposal>, p: Proposal, p': Proposal)
    requires DuplicateFree(ps) && p in ps && p' in ps && p.Id() == p'.Id() && p.Quorum? == p'.Quorum?
    ensures p == p'
  {
    var i :| 0 <= i < |ps| && ps[i] == p;
    var j :| 0 <= j < |ps| && ps[j] == p';
    assert !(i < j) && !(j < i);
  }

  lemma LastArrives(ps: seq<Proposal>)
    requires DuplicateFree(ps) && ps != []
    ensures forall p :: p in ps <==> p in Init(ps) || p == Last(ps)
    ensures !Arrived(Init(ps), Last(ps).Id(), Last(ps).Quorum?)
    ensures forall id, quorum :: Arrived(ps, id, quorum) <==>
              Arrived(Init(ps), id, quorum) || (id == Last(ps).Id() && quorum == Last(ps).Quorum?)
  {
    assert ps == Init(ps) + [Last(ps)];
  }

  lemma PairAttempts(ps: seq<Proposal>, other: Proposal, pair: Pair)
    requires DuplicateFree(ps) && ps != [] && other in Init(ps)
    requires other.Id() == Last(ps).Id() && other.Quorum? != Last(ps).Quorum?
    requires pair == if other.Quorum? then Pair(other.quorum, Last(ps).da) else Pair(Last(ps).quorum, other.da)
    requires forall p :: p in ps <==> p in Init(ps) || p == Last(ps)
    requires !Arrived(Init(ps), Last(ps).Id(), Last(ps).Quorum?)
    ensures forall q, d :: (Quorum(q) in ps && Da(d) in ps && Quorum(q).Id() == Da(d).Id()) <==>
      ((Quorum(q) in Init(ps) && Da(d) in Init(ps) && Quorum(q).Id() == Da(d).Id()) || Pair(q, d) == pair)
    ensures !(Quorum(pair.quorum) in Init(ps) && Da(pair.da) in Init(ps))
  {
    forall q, d | Quorum(q) in ps && Da(d) in ps && Quorum(q).Id() == Da(d).Id()
      ensures (Quorum(q) in Init(ps) && Da(d) in Init(ps)) || Pair(q, d) == pair
    {
      if Quorum(q) == Last(ps) { Unique(ps, Da(d), other); }
      if Da(d) == Last(ps) { Unique(ps, Quorum(q), other); }
    }
  }

  lemma CompletedAttempts(ps: seq<Proposal>, before: seq<Pair>, other: Proposal, pair: Pair)
    requires DuplicateFree(ps) && ps != [] && other in Init(ps)
    requires other.Id() == Last(ps).Id() && other.Quorum? != Last(ps).Quorum?
    requires pair == if other.Quorum? then Pair(other.quorum, Last(ps).da) else Pair(Last(ps).quorum, other.da)
    requires AttemptsMatch(before, Init(ps))
    ensures AttemptsMatch(before + [pair], ps)
  {
    LastArrives(ps);
    PairAttempts(ps, other, pair);
    assert Pair(pair.quorum, pair.da) !in before;
  }

  lemma LastCompletes(ps: seq<Proposal>)
    requires DuplicateFree(ps) && ps != [] && MatchesArrivals(Match(Init(ps)), Init(ps))
    requires Last(ps).Id() in Match(Init(ps)).stored
    ensures MatchesArrivals(Match(ps), ps)
  {
    LastArrives(ps);
    var before, p, m := Match(Init(ps)), Last(ps), Match(ps);
    var other := before.stored[p.Id()];
    assert Arrived(Init(ps), p.Id(), other.Quorum?);
    var pair := if other.Quorum? then Pair(other.quorum, p.da) else Pair(p.quorum, other.da);
    CompletedAttempts(ps, before.attempts, other, pair);
    assert m == Matching(before.stored - {p.Id()}, before.attempts + [pair]);
  }

  lemma LastWaits(ps: seq<Proposal>)
    requires DuplicateFree(ps) && ps != [] && MatchesArrivals(Match(Init(ps)), Init(ps))
    requires Last(ps).Id() !in Match(Init(ps)).stored
    ensures MatchesArrivals(Match(ps), ps)
  {
    LastArrives(ps);
    var before, p := Match(Init(ps)), Last(ps);
    assert !Arrived(Init(ps), p.Id(), !p.Quorum?);
    assert Match(ps) == Matching(before.stored[p.Id() := p], before.attempts);
  }

  lemma {:induction false} MatchByArrivals(ps: seq<Proposal>)
    requires DuplicateFree(ps)
    ensures MatchesArrivals(Match(ps), ps)
  {
    if ps != [] {
      MatchByArrivals(Init(ps));
      if Last(ps).Id() in Match(Init(ps)).stored {
        LastCompletes(ps);
      } else {
        LastWaits(ps);
      }
    }
  }

  /** Order independence: two duplicate-free sequences of the same proposals attempt the
      same pairs, each once, and leave the same map behind. */
  lemma OrderIndependent(ps: seq<Proposal>, ps': seq<Proposal>)
    requires DuplicateFree(ps) && DuplicateFree(ps')
    requires forall p :: p in ps <==> p in ps'
    ensures Match(ps).stored == Match(ps').stored
    ensures multiset(Match(ps).attempts) == multiset(Match(ps').attempts)
  {
    MatchByArrivals(ps);
    MatchByArrivals(ps');
    var m, m' := Match(ps), Match(ps');
    forall id, quorum ensures Arrived(ps, id, quorum) <==> Arrived(ps', id, quorum) { }
    forall id | id in m.stored ensures id in m'.stored && m'.stored[id] == m.stored[id] {
      OneKind(ps, m.stored[id], m'.stored[id]);
    }
    assert m.stored.Keys == m'.stored.Keys;
    forall pair: Pair ensures pair in m.attempts <==> pair in m'.attempts {
      assert pair == Pair(pair.quorum, pair.da);
    }
    SameMultiset(m.attempts, m'.attempts);
  }

  lemma OneKind(ps: seq<Proposal>, p: Proposal, p': Proposal)
    requires DuplicateFree(ps) && p in ps && p' in ps && p.Id() == p'.Id()
    requires Arrived(ps, p.Id(), true) != Arrived(ps, p.Id(), false)
    ensures p == p'
  {
    assert Arrived(ps, p.Id(), p.Quorum?) && Arrived(ps, p.Id(), p'.Quorum?);
    Unique(ps, p, p');
  }

  lemma DistinctCounts(s: seq<Pair>, x: Pair)
    requires forall i, j :: 0 <= i < j < |s| ==> s[i] != s[j]
    ensures multiset(s)[x] == if x in s then 1 else 0
  {
    if s != [] {
      var s' := s[..|s| - 1];
      assert s == s' + [s[|s| - 1]];
      DistinctCounts(s', x);
    }
  }

  lemma SameMultiset(a: seq<Pair>, b: seq<Pair>)
    requires forall i, j :: 0 <= i < j < |a| ==> a[i] != a[j]
    requires forall i, j :: 0 <= i < j < |b| ==> b[i] != b[j]
    requires forall x :: x in a <==> x in b
    ensures multiset(a) == multiset(b)
  {
    forall x ensures multiset(a)[x] == multiset(b)[x] {
      DistinctCounts(a, x);
      DistinctCounts(b, x);
    }
  }
}
