/** Building a block: waiting for transactions, packing them, and dropping a head that
    can never fit. */
module BlockBuilding {
  import opened Blocks
  import opened TxnSeqs
  import opened TransactionQueues
  import opened BuilderStates
  import opened BlockPacking

  const ALLOW_EMPTY_BLOCK_PERIOD: nat := 3

  function SaturatingSub(a: nat, b: nat): nat { if a >= b then a - b else 0 }

  /** Whether an empty block may be built, to help earlier transactions finalize. */
  predicate ShouldPrioritizeFinalization(refs: ParentRefs) {
    && refs.txCount != 0
    && refs.lastNonemptyView.Some?
    && SaturatingSub(refs.lastNonemptyView.value, refs.viewNumber) < ALLOW_EMPTY_BLOCK_PERIOD
  }

  /** The saturating subtraction the other way round: the flag never expires. Only a last
      non-empty view three or more past the parent's own view could turn it off. */
  lemma FlagIff(refs: ParentRefs)
    ensures ShouldPrioritizeFinalization(refs) <==>
      refs.txCount != 0 && refs.lastNonemptyView.Some? && refs.lastNonemptyView.value < refs.viewNumber + 3
  {
  }

  // ----- Waiting for transactions -----

  /** One iteration of the wait: what other tasks broadcast before it, and how many
      receives fit before the deadline. */
  datatype Round = Round(arrivals: seq<Txn>, attempts: nat)

  /** The state and the channel after one drain. */
  datatype Captured = Captured(state: State, log: seq<Txn>)
  {
    function Drain(round: Round): Captured {
      var log' := log + round.arrivals;
      if state.position <= |log'| then
        Captured(state.ReceiveAll(log'[state.position..Min(state.position + round.attempts, |log'|)]), log')
      else Captured(state, log')
    }
  }

  /** How many iterations run before the loop stops for reason `stop` or runs out of time,
      and what they leave. */
  function Capture(c: Captured, rounds: seq<Round>, stopWhenEmpty: bool): (Captured, nat)
    decreases |rounds|
  {
    if rounds == [] then (c, 0)
    else
      var c' := c.Drain(rounds[0]);
      if (c'.state.queue == []) == stopWhenEmpty || |rounds| == 1 then (c', 1)
      else
        var (last, n) := Capture(c', rounds[1..], stopWhenEmpty);
        (last, n + 1)
  }

  /** Other tasks broadcast, then the state drains. */
  method DrainRound(state: BuilderState, round: Round) returns (queueEmpty: bool)
    requires state.Valid()
    modifies state`received, state.txnQueue, state.channel
    ensures state.Valid()
    ensures Captured(state.Value(), state.channel.log) == old(Captured(state.Value(), state.channel.log)).Drain(round)
    ensures queueEmpty <==> state.Value().queue == []
  {
    for k := 0 to |round.arrivals|
      invariant state.Valid() && state.Value() == old(state.Value())
      invariant state.channel.log == old(state.channel.log) + round.arrivals[..k]
    {
      var _ := state.channel.TryBroadcast(round.arrivals[k], true);
      assert round.arrivals[..k + 1] == round.arrivals[..k] + [round.arrivals[k]];
    }
    assert round.arrivals[..|round.arrivals|] == round.arrivals;
    queueEmpty := state.CollectTxns(round.attempts);
  }

  /** The wait as written: the caller reads the "queue is empty" answer as "populated". */
  method CaptureTransactions(state: BuilderState, rounds: seq<Round>) returns (iterations: nat)
    requires state.Valid() && rounds != []
    modifies state`received, state.txnQueue, state.channel
    ensures state.Valid()
    ensures (Captured(state.Value(), state.channel.log), iterations)
         == Capture(old(Captured(state.Value(), state.channel.log)), rounds, true)
  {
    iterations := 0;
    ghost var start := Captured(state.Value(), state.channel.log);
    ghost var now := start;
    while true
      invariant state.Valid() && iterations < |rounds|
      invariant now == Captured(state.Value(), state.channel.log)
      invariant Capture(start, rounds, true)
             == (Capture(now, rounds[iterations..], true).0, iterations + Capture(now, rounds[iterations..], true).1)
      decreases |rounds| - iterations
    {
      ghost var rest := rounds[iterations..];
      assert rest[0] == rounds[iterations] && rest[1..] == rounds[iterations + 1..];
      var queuePopulated := DrainRound(state, rounds[iterations]);
      now := now.Drain(rounds[iterations]);
      iterations := iterations + 1;
      if queuePopulated || iterations == |rounds| {
        break;
      }
    }
  }

  lemma {:induction false} QueueOnlyGrows(s: State, ts: seq<Txn>)
    ensures s.queue <= s.ReceiveAll(ts).queue
    decreases |ts|
  {
    if ts != [] {
      QueueOnlyGrows(s.Receive(ts[0]), ts[1..]);
    }
  }

  /** Receiving consumes every message and ends with all of them queued or recently
      included, and nothing else is queued that was not before. */
  lemma {:induction false} ReceivesEverything(s: State, ts: seq<Txn>)
    ensures var s' := s.ReceiveAll(ts);
      && s'.position == s.position + |ts| && s'.included == s.included && s'.refs == s.refs
      && (forall t :: t in ts ==> t.commit in Commits(s'.queue) || s.included.Contains(t.commit))
      && (forall t :: t in s'.queue ==> t in s.queue || (t in ts && !s.included.Contains(t.commit)))
    decreases |ts|
  {
    if ts != [] {
      var s1 := s.Receive(ts[0]);
      ReceivesEverything(s1, ts[1..]);
      QueueOnlyGrows(s1, ts[1..]);
      var s' := s.ReceiveAll(ts);
      assert forall t :: t in s1.queue ==> t in s'.queue;
      forall t | t in ts ensures t.commit in Commits(s'.queue) || s.included.Contains(t.commit) {
        if t == ts[0] {
          assert s.included.Contains(t.commit) || t.commit in Commits(s1.queue);
        } else {
          assert t in ts[1..];
        }
      }
    }
  }

  /** One drain reads as far as the deadline and the channel allow; what it read is then
      queued or recently included. */
  lemma DrainReads(c: Captured, round: Round)
    requires c.state.position <= |c.log|
    ensures var c' := c.Drain(round);
      && c'.log == c.log + round.arrivals
      && c'.state.position == Min(c.state.position + round.attempts, |c'.log|)
      && c.state.queue <= c'.state.queue
      && c'.state.included == c.state.included && c'.state.refs == c.state.refs
      && (forall t :: t in c'.log[c.state.position..c'.state.position] ==>
            t.commit in Commits(c'.state.queue) || c.state.included.Contains(t.commit))
      && (forall t :: t in c'.state.queue ==>
            t in c.state.queue || t in c'.log[c.state.position..c'.state.position])
  {
    var log' := c.log + round.arrivals;
    var ts := log'[c.state.position..Min(c.state.position + round.attempts, |log'|)];
    ReceivesEverything(c.state, ts);
    QueueOnlyGrows(c.state, ts);
  }

  lemma DrainKeepsNonempty(c: Captured, round: Round)
    ensures c.state.queue <= c.Drain(round).state.queue
  {
    var log' := c.log + round.arrivals;
    if c.state.position <= |log'| {
      QueueOnlyGrows(c.state, log'[c.state.position..Min(c.state.position + round.attempts, |log'|)]);
    }
  }

  function DrainAll(c: Captured, rounds: seq<Round>): Captured
    decreases |rounds|
  {
    if rounds == [] then c else DrainAll(c.Drain(rounds[0]), rounds[1..])
  }

  /** As written, the loop gives up after one drain when there is nothing to build with, so
      it sees no later arrival; and it sits out the whole window once there is something. */
  lemma {:induction false} WaitsOnlyWhenPopulated(c: Captured, rounds: seq<Round>)
    requires rounds != []
    ensures var first := c.Drain(rounds[0]);
      Capture(c, rounds, true) == if first.state.queue == [] then (first, 1) else (DrainAll(c, rounds), |rounds|)
    decreases |rounds|
  {
    var first := c.Drain(rounds[0]);
    if first.state.queue != [] && |rounds| > 1 {
      DrainKeepsNonempty(first, rounds[1]);
      WaitsOnlyWhenPopulated(first, rounds[1..]);
    }
  }

  /** The wait meant by the parameter's name, as in the older builder, stops with the
      first transaction. The two run equally long exactly when the window has room for
      a single iteration. */
  lemma WaitsAgreeIff(c: Captured, rounds: seq<Round>)
    requires rounds != []
    ensures Capture(c, rounds, true).1 == Capture(c, rounds, false).1 <==> |rounds| == 1
  {
    WaitsOnlyWhenPopulated(c, rounds);
    if |rounds| > 1 && c.Drain(rounds[0]).state.queue == [] {
      CaptureRuns(c.Drain(rounds[0]), rounds[1..], false);
    }
  }

  lemma CaptureRuns(c: Captured, rounds: seq<Round>, stopWhenEmpty: bool)
    requires rounds != []
    ensures 1 <= Capture(c, rounds, stopWhenEmpty).1 <= |rounds|
    decreases |rounds|
  {
    if |rounds| > 1 {
      CaptureRuns(c.Drain(rounds[0]), rounds[1..], stopWhenEmpty);
    }
  }

  // ----- The block -----

  /** `payload` is what the sequencer accepted of the packed transactions. */
  datatype BuildResult = NoBlock | Failed | Built(payload: seq<Txn>, truncated: bool)

  /** The foreign payload constructor: an error, or the length of the prefix it kept. */
  type Encoder = seq<Txn> -> Option<nat>

  ghost predicate KeepsPrefix(encode: Encoder) {
    forall s :: encode(s).Some? ==> encode(s).value <= |s|
  }

  function Build(s: State, maxBlockSize: nat, encode: Encoder): (BuildResult, State)
  {
    var included := s.queue[..PackCount(s.queue, maxBlockSize)];
    if s.queue == [] && !ShouldPrioritizeFinalization(s.refs) then (NoBlock, s)
    else
      match encode(included)
      case None => (Failed, s)
      case Some(n) =>
        if n == 0 then
          (if ShouldPrioritizeFinalization(s.refs) then Built([], true) else NoBlock, s.Popped())
        else (Built(if n <= |included| then included[..n] else included, false), s)
  }

  method BuildBlock(state: BuilderState, rounds: seq<Round>, maxBlockSize: nat, encode: Encoder)
      returns (result: BuildResult, ghost captured: State)
    requires state.Valid() && rounds != [] && KeepsPrefix(encode)
    modifies state`received, state.txnQueue, state.channel
    ensures state.Valid()
    ensures captured == Capture(old(Captured(state.Value(), state.channel.log)), rounds, true).0.state
    ensures (result, state.Value()) == Build(captured, maxBlockSize, encode)
  {
    var _ := CaptureTransactions(state, rounds);
    captured := state.Value();
    var shouldPrioritizeFinalization := ShouldPrioritizeFinalization(state.refs);
    var empty := state.txnQueue.IsEmpty();
    if empty && !shouldPrioritizeFinalization {
      return NoBlock, captured;
    }
    var included := Pack(state.txnQueue.transactions, maxBlockSize);
    match encode(included)
    case None => result := Failed;
    case Some(kept) =>
      var truncated := kept == 0;
      if truncated {
        var _ := state.txnQueue.PopFront();
        if !shouldPrioritizeFinalization {
          return NoBlock, captured;
        }
      }
      result := Built(included[..kept], truncated);
  }

  /** Which outcome means what, in both directions: a block is exactly what the sequencer
      kept of the packed prefix, a transaction is dropped exactly when the sequencer kept
      nothing, and an empty block needs the finalization flag. */
  lemma BuildOutcome(s: State, maxBlockSize: nat, encode: Encoder)
    requires KeepsPrefix(encode)
    ensures var (result, s') := Build(s, maxBlockSize, encode);
      var flag, kept := ShouldPrioritizeFinalization(s.refs), encode(s.queue[..PackCount(s.queue, maxBlockSize)]);
      && (s' == s || (s.queue != [] && s' == s.(queue := s.queue[1..])))
      && (s'.queue != s.queue <==> s.queue != [] && kept == Some(0))
      && (result.Failed? <==> (s.queue != [] || flag) && kept == None)
      && (result.NoBlock? <==> !flag && (s.queue == [] || kept == Some(0)))
      && (result.Built? ==>
            && kept == Some(|result.payload|) && result.payload <= s.queue
            && (result.truncated <==> result.payload == []))
  {
  }

  // ----- The drop happens later -----

  /** What other tasks may do between packing, which reads the queue, and the drop, which
      takes its lock again: drain the channel, or drop a head for a build of their own. */
  datatype Meanwhile = Arrives(t: Txn) | Drops

  function After(s: State, events: seq<Meanwhile>): State
    decreases |events|
  {
    if events == [] then s
    else
      After(match events[0] case Arrives(t) => s.Receive(t) case Drops => s.Popped(), events[1..])
  }

  /** How many transactions of a queue of length `n` those drops take. Arrivals queue up
      behind them. */
  function Dropped(n: nat, events: seq<Meanwhile>): nat
    decreases |events|
  {
    if events == [] || n == 0 then 0
    else (if events[0].Drops? then 1 else 0) + Dropped(if events[0].Drops? then n - 1 else n, events[1..])
  }

  lemma {:induction false} DroppedAtMost(n: nat, events: seq<Meanwhile>)
    ensures Dropped(n, events) <= n
    decreases |events|
  {
    if events != [] && n > 0 {
      DroppedAtMost(if events[0].Drops? then n - 1 else n, events[1..]);
    }
  }

  /** What is left of the queue that was read stands in front, in order. */
  lemma {:induction false} AfterKeepsRest(s: State, n: nat, events: seq<Meanwhile>)
    requires n <= |s.queue|
    ensures Dropped(n, events) <= n
    ensures s.queue[..n][Dropped(n, events)..] <= After(s, events).queue
    decreases |events|
  {
    DroppedAtMost(n, events);
    if events != [] && n > 0 {
      if events[0].Drops? {
        AfterKeepsRest(s.Popped(), n - 1, events[1..]);
        assert s.Popped().queue[..n - 1] == s.queue[..n][1..];
      } else {
        var s1 := s.Receive(events[0].t);
        AfterKeepsRest(s1, n, events[1..]);
        assert s1.queue[..n] == s.queue[..n];
      }
    }
  }

  /** Once none is left of the first `n`, what is queued has arrived since. */
  lemma {:induction false} RestHasArrived(s: State, n: nat, events: seq<Meanwhile>, t: Txn)
    requires n <= |s.queue| && Dropped(n, events) == n && t in After(s, events).queue
    ensures t in s.queue[n..] || Arrives(t) in events
    decreases |events|
  {
    if events != [] {
      var rest := events[1..];
      if events[0].Drops? {
        if s.queue == [] {
          RestHasArrived(s, 0, rest, t);
        } else {
          RestHasArrived(s.Popped(), if n > 0 then n - 1 else 0, rest, t);
          SuffixMembers(s.queue, n, t);
        }
      } else {
        var s1 := s.Receive(events[0].t);
        RestHasArrived(s1, n, rest, t);
        assert s1.queue == s.queue || s1.queue[n..] == s.queue[n..] + [events[0].t];
      }
      if Arrives(t) in rest { assert Arrives(t) in events; }
    }
  }

  lemma SuffixMembers(q: seq<Txn>, n: nat, t: Txn)
    requires q != [] && n <= |q|
    ensures n > 0 && t in q[1..][n - 1..] ==> t in q[n..]
    ensures n == 0 && t in q[1..] ==> t in q[n..]
  {
    if n > 0 { assert q[1..][n - 1..] == q[n..]; }
  }

  /** The drop takes the first that is left of the transactions read, and one that arrived
      later exactly when none is left. So, unless the offered head itself arrived anew, it
      is what the drop takes exactly when no other drop came in between. */
  lemma DropsOfferedHeadIff(s: State, events: seq<Meanwhile>)
    requires Distinct(s.queue)
    ensures var d := Dropped(|s.queue|, events);
      var queue := After(s, events).queue;
      && d <= |s.queue|
      && (d < |s.queue| ==> queue != [] && queue[0] == s.queue[d])
      && (d < |s.queue| ==> (queue[0] == s.queue[0] <==> d == 0))
      && (d == |s.queue| ==> queue == [] || Arrives(queue[0]) in events)
      && (queue != [] && s.queue != [] && Arrives(s.queue[0]) !in events ==> (queue[0] == s.queue[0] <==> d == 0))
  {
    var read, d, queue := s.queue, Dropped(|s.queue|, events), After(s, events).queue;
    AfterKeepsRest(s, |read|, events);
    assert read[..|read|] == read;
    if d < |read| {
      assert read[d..][0] == read[d];
    } else if queue != [] {
      RestHasArrived(s, |read|, events, queue[0]);
    }
  }

  /** The exception: the head is dropped by another build and broadcast again, and this
      drop takes it a second time. */
  lemma RearrivedHeadIsDropped(s: State)
    requires |s.queue| == 1 && !s.included.Contains(s.queue[0].commit)
    ensures var events := [Drops, Arrives(s.queue[0])];
      Dropped(1, events) == 1 && After(s, events).queue == [s.queue[0]]
  {
    var a := s.queue[0];
    var events := [Drops, Arrives(a)];
    assert events[1..] == [Arrives(a)] && [Arrives(a)][1..] == [];
    assert After(s, events) == After(s.Popped(), [Arrives(a)]) == After(s.Popped().Receive(a), []);
    assert Dropped(1, events) == 1 + Dropped(0, [Arrives(a)]);
  }

  /** An empty queue read with the finalization flag set: the sequencer keeps all of
      nothing, and the drop takes a transaction that arrived since and was offered to
      no one. */
  lemma EmptyReadDropsArrival(s: State, t: Txn, maxBlockSize: nat, encode: Encoder)
    requires KeepsPrefix(encode) && encode([]).Some?
    requires s.queue == [] && ShouldPrioritizeFinalization(s.refs) && !s.included.Contains(t.commit)
    ensures Build(s, maxBlockSize, encode).0 == Built([], true)
    ensures After(s, [Arrives(t)]).queue == [t] && After(s, [Arrives(t), Drops]).queue == []
  {
    assert s.queue[..PackCount(s.queue, maxBlockSize)] == [];
    BuildOutcome(s, maxBlockSize, encode);
    assert [Arrives(t)][1..] == [] && [Arrives(t), Drops][1..] == [Drops] && [Drops][1..] == [];
    assert After(s, [Arrives(t)]) == After(s.Receive(t), []);
    assert After(s, [Arrives(t), Drops]) == After(s.Receive(t), [Drops]) == After(s.Receive(t).Popped(), []);
  }

  lemma {:induction false} NothingDropped(n: nat, arrivals: seq<Meanwhile>)
    requires forall k :: 0 <= k < |arrivals| ==> arrivals[k].Arrives?
    ensures Dropped(n, arrivals) == 0
    decreases |arrivals|
  {
    if arrivals != [] && n > 0 {
      assert forall k :: 0 <= k < |arrivals[1..]| ==> arrivals[1..][k] == arrivals[k + 1];
      NothingDropped(n, arrivals[1..]);
    }
  }

  /** So while only arrivals come in between, the dropped transaction is the head that was
      offered, or, if nothing was read, one that was never offered at all. */
  lemma DropsOnlyOffered(s: State, arrivals: seq<Meanwhile>, maxBlockSize: nat)
    requires After(s, arrivals).queue != []
    requires forall k :: 0 <= k < |arrivals| ==> arrivals[k].Arrives?
    ensures (PackCount(s.queue, maxBlockSize) > 0 && After(s, arrivals).queue[0] == s.queue[0]) <==> s.queue != []
  {
    NothingDropped(|s.queue|, arrivals);
    AfterKeepsRest(s, |s.queue|, arrivals);
    assert s.queue[..|s.queue|][0..] == s.queue;
    PackIsGreedy(s.queue, maxBlockSize);
  }

  /** Two builds on the same state that both find its head too big drop the transaction
      behind it as well, although neither offered that one first. */
  lemma SecondBuildDropsNext(s: State)
    requires Distinct(s.queue) && |s.queue| >= 2
    ensures After(s, [Drops]).queue != [] && After(s, [Drops]).queue[0] == s.queue[1] != s.queue[0]
    ensures After(s, [Drops, Drops]).queue == s.queue[2..]
  {
    DropsOfferedHeadIff(s, [Drops]);
    assert [Drops][1..] == [] && [Drops, Drops][1..] == [Drops];
    assert After(s, [Drops]) == After(s.Popped(), []);
    assert After(s, [Drops, Drops]) == After(s.Popped(), [Drops]) == After(s.Popped().Popped(), []);
  }

  // ----- Progress -----

  /** One turn: a block is built and accepted, and the child takes over; if the payload
      came out empty, the head is dropped. `kept` is the sequencer's choice. */
  datatype Turn = Turn(limit: nat, kept: nat, quorum: QuorumProposal, now: nat)

  function CommitList(s: seq<Txn>): seq<TxCommit> {
    seq(|s|, i requires 0 <= i < |s| => s[i].commit)
  }

  function TurnEncoder(t: Turn): Encoder { s => Some(Min(t.kept, |s|)) }

  function TakeTurn(s: State, t: Turn): State {
    var (result, s') := Build(s, t.limit, TurnEncoder(t));
    match result
    case Built(payload, _) =>
      s'.Child(t.quorum, DaProposal(t.quorum.view, t.quorum.builderCommitment, CommitList(payload)), t.now, s'.position)
    case _ => s'
  }

  /** What a turn takes off the queue: its block, or the dropped head. */
  function Output(s: State, t: Turn): seq<Txn> {
    var (result, s') := Build(s, t.limit, TurnEncoder(t));
    if result.Built? && result.payload != [] then result.payload
    else if s.queue == [] then [] else [s.queue[0]]
  }

  function TakeTurns(s: State, ts: seq<Turn>): State
    decreases |ts|
  {
    if ts == [] then s else TakeTurns(TakeTurn(s, ts[0]), ts[1..])
  }

  function Outputs(s: State, ts: seq<Turn>): seq<Txn>
    decreases |ts|
  {
    if ts == [] then [] else Output(s, ts[0]) + Outputs(TakeTurn(s, ts[0]), ts[1..])
  }

  lemma CommitsOfList(ts: seq<Txn>)
    ensures SetOf(CommitList(ts)) == Commits(ts)
  {
    forall c | c in Commits(ts) ensures c in SetOf(CommitList(ts)) {
      var i :| 0 <= i < |ts| && ts[i].commit == c;
      assert CommitList(ts)[i] == c;
    }
  }

  lemma DistinctHalves(q: seq<Txn>, k: nat)
    requires Distinct(q) && k <= |q|
    ensures Distinct(q[k..]) && Commits(q[..k]) !! Commits(q[k..])
  {
    forall t, u | t in q[..k] && u in q[k..] ensures t.commit != u.commit {
      var i :| 0 <= i < k && q[i] == t;
      var j :| 0 <= j < |q[k..]| && q[k..][j] == u;
      assert q[k + j] == u;
    }
  }

  lemma PrunedPrefix(q: seq<Txn>, k: nat)
    requires Distinct(q) && k <= |q|
    ensures Without(q, SetOf(CommitList(q[..k]))) == q[k..] && Distinct(q[k..])
  {
    var cs := Commits(q[..k]);
    CommitsOfList(q[..k]);
    DistinctHalves(q, k);
    assert q == q[..k] + q[k..];
    WithoutConcat(q[..k], q[k..], cs);
    WithoutAll(q[..k], cs);
    WithoutNone(q[k..], cs);
  }

  lemma HeadDropped(q: seq<Txn>)
    requires Distinct(q)
    ensures var rest := if q == [] then [] else q[1..];
      && Distinct(rest) && Without(rest, SetOf(CommitList([]))) == rest
      && (q != [] ==> q == [q[0]] + rest)
  {
    var rest := if q == [] then [] else q[1..];
    if q != [] { PopCommits(q); }
    assert SetOf(CommitList([])) == {};
    WithoutNone(rest, {});
  }

  /** Either a non-empty block is built and its prefix pruned, or only the head goes. */
  lemma TurnCases(s: State, t: Turn)
    ensures var (result, s') := Build(s, t.limit, TurnEncoder(t));
      if result.Built? && result.payload != []
      then |result.payload| <= |s.queue| && result.payload == s.queue[..|result.payload|] && s'.queue == s.queue
      else s'.queue == if s.queue == [] then [] else s.queue[1..]
  {
    BuildOutcome(s, t.limit, TurnEncoder(t));
    PackIsGreedy(s.queue, t.limit);
  }

  /** A turn takes a prefix off the queue, a non-empty one while there is a queue. */
  lemma TurnTakesPrefix(s: State, t: Turn)
    requires Distinct(s.queue)
    ensures s.queue == Output(s, t) + TakeTurn(s, t).queue
    ensures Distinct(TakeTurn(s, t).queue)
    ensures s.queue != [] ==> Output(s, t) != []
  {
    var q := s.queue;
    var (result, s') := Build(s, t.limit, TurnEncoder(t));
    TurnCases(s, t);
    if result.Built? && result.payload != [] {
      PrunedPrefix(q, |result.payload|);
    } else {
      HeadDropped(q);
    }
  }

  /** Progress on a closed channel: whatever the limits and however little the sequencer
      keeps, a queue of n transactions is empty after n turns, and the blocks together with
      the dropped heads are the original queue, in order. */
  lemma {:induction false} DrainsInOrder(s: State, ts: seq<Turn>)
    requires Distinct(s.queue)
    ensures s.queue == Outputs(s, ts) + TakeTurns(s, ts).queue
    ensures |ts| >= |s.queue| ==> TakeTurns(s, ts).queue == [] && Outputs(s, ts) == s.queue
    decreases |ts|
  {
    if ts != [] {
      TurnTakesPrefix(s, ts[0]);
      DrainsInOrder(TakeTurn(s, ts[0]), ts[1..]);
    }
  }

  // ----- Progress while transactions arrive -----

  /** A turn opens with the drain that precedes every build. */
  datatype OpenTurn = OpenTurn(arrivals: seq<Txn>, turn: Turn)

  function TakeOpenTurns(s: State, ts: seq<OpenTurn>): State
    decreases |ts|
  {
    if ts == [] then s else TakeOpenTurns(TakeTurn(s.ReceiveAll(ts[0].arrivals), ts[0].turn), ts[1..])
  }

  function OpenOutputs(s: State, ts: seq<OpenTurn>): seq<Txn>
    decreases |ts|
  {
    if ts == [] then []
    else
      var drained := s.ReceiveAll(ts[0].arrivals);
      Output(drained, ts[0].turn) + OpenOutputs(TakeTurn(drained, ts[0].turn), ts[1..])
  }

  lemma {:induction false} DrainKeepsDistinct(s: State, ts: seq<Txn>)
    requires Distinct(s.queue)
    ensures Distinct(s.ReceiveAll(ts).queue)
    decreases |ts|
  {
    if ts != [] {
      AppendDistinct(s.queue, ts[0]);
      DrainKeepsDistinct(s.Receive(ts[0]), ts[1..]);
    }
  }

  /** Of the queue drained at the start of a turn, `rest` is what the turn leaves. */
  lemma ChainPrefixes(q: seq<Txn>, drained: seq<Txn>, output: seq<Txn>, rest: seq<Txn>, later: seq<Txn>)
    requires q <= drained && drained == output + rest && rest <= later
    ensures q <= output + later
  {
    assert drained <= output + later;
  }

  /** No starvation and no overtaking: whatever arrives meanwhile, the first n transactions
      of the queue have left it after n turns, in blocks or as dropped heads, in order and
      before anything that arrived later; and what has not left is still queued. */
  lemma {:induction false} ServedInOrder(s: State, ts: seq<OpenTurn>, n: nat)
    requires Distinct(s.queue) && n <= |s.queue| && n <= |ts|
    ensures s.queue <= OpenOutputs(s, ts) + TakeOpenTurns(s, ts).queue
    ensures n <= |OpenOutputs(s, ts)| && s.queue[..n] <= OpenOutputs(s, ts)
    decreases |ts|
  {
    if ts != [] {
      var drained := s.ReceiveAll(ts[0].arrivals);
      QueueOnlyGrows(s, ts[0].arrivals);
      DrainKeepsDistinct(s, ts[0].arrivals);
      TurnTakesPrefix(drained, ts[0].turn);
      var output, s' := Output(drained, ts[0].turn), TakeTurn(drained, ts[0].turn);
      var n' := if n <= |output| then 0 else n - |output|;
      ServedInOrder(s', ts[1..], n');
      var later := OpenOutputs(s', ts[1..]) + TakeOpenTurns(s', ts[1..]).queue;
      ChainPrefixes(s.queue, drained.queue, output, s'.queue, later);
      assert OpenOutputs(s, ts) + TakeOpenTurns(s, ts).queue == output + later;
    }
    PrefixOfPrefix(s.queue, OpenOutputs(s, ts), TakeOpenTurns(s, ts).queue, n);
  }

  lemma PrefixOfPrefix(q: seq<Txn>, a: seq<Txn>, b: seq<Txn>, n: nat)
    requires q <= a + b && n <= |q| && n <= |a|
    ensures q[..n] <= a
  {
  }
}
