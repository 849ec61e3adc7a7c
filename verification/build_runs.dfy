/** Building over the fork tree: the wait, the build and the drop of a state are steps of the
    system of all builder states, so what holds of its runs holds while blocks are built. */
module BuildRuns {
  import opened Blocks
  import opened BuilderStates
  import opened BlockBuilding
  import F = ForkTrees
  import ForkTheorems

  function Broadcasts(ts: seq<Txn>): seq<F.Step>
    decreases |ts|
  {
    if ts == [] then [] else [F.Broadcast(ts[0])] + Broadcasts(ts[1..])
  }

  lemma RunCons(s: F.System, step: F.Step, rest: seq<F.Step>)
    ensures F.Run(s, [step] + rest) == F.Run(F.Next(s, step), rest)
  {
    assert ([step] + rest)[1..] == rest;
  }

  lemma {:induction false} BroadcastsRun(s: F.System, ts: seq<Txn>)
    ensures F.Run(s, Broadcasts(ts)) == s.(log := s.log + ts)
    decreases |ts|
  {
    if ts == [] {
      assert s.log + ts == s.log;
    } else {
      RunCons(s, F.Broadcast(ts[0]), Broadcasts(ts[1..]));
      BroadcastsRun(s.(log := s.log + [ts[0]]), ts[1..]);
      assert (s.log + [ts[0]]) + ts[1..] == s.log + ts;
    }
  }

  /** One iteration of the wait of state `i`, which stands at `position` of a log of length
      `length`: the broadcasts of others, then as many receives as there are messages and
      time for. */
  function RoundSteps(i: nat, position: nat, length: nat, round: Round): seq<F.Step>
    requires position <= length
  {
    Broadcasts(round.arrivals)
    + ForkTheorems.Receives(i, Min(round.attempts, length + |round.arrivals| - position))
  }

  function CapturedAt(s: F.System, i: nat): Captured
    requires i < |s.nodes|
  {
    Captured(s.nodes[i].state, s.log)
  }

  /** Nothing but the log and node `i` differs. */
  ghost predicate OnlyNode(s: F.System, s': F.System, i: nat) {
    && |s'.nodes| == |s.nodes| && s'.halves == s.halves
    && forall j :: 0 <= j < |s.nodes| && j != i ==> s'.nodes[j] == s.nodes[j]
  }

  lemma ReceivesOnly(s: F.System, i: nat, n: nat)
    requires i < |s.nodes| && s.nodes[i].state.position + n <= |s.log|
    ensures var p := s.nodes[i].state.position;
      var s' := F.Run(s, ForkTheorems.Receives(i, n));
      && OnlyNode(s, s', i) && s'.log == s.log
      && s'.nodes[i].state == s.nodes[i].state.ReceiveAll(s.log[p..p + n])
  {
    ForkTheorems.DrainIsRun(s, i, n);
  }

  lemma RoundSplits(s: F.System, i: nat, p: nat, round: Round)
    requires p <= |s.log|
    ensures F.Run(s, RoundSteps(i, p, |s.log|, round))
         == F.Run(s.(log := s.log + round.arrivals),
                  ForkTheorems.Receives(i, Min(round.attempts, |s.log| + |round.arrivals| - p)))
  {
    var receives := ForkTheorems.Receives(i, Min(round.attempts, |s.log| + |round.arrivals| - p));
    ForkTheorems.SystemRunConcat(s, Broadcasts(round.arrivals), receives);
    BroadcastsRun(s, round.arrivals);
  }

  /** What the two parts of an iteration leave is what a drain leaves. */
  lemma RoundEnds(c: Captured, round: Round, after: State)
    requires var p, log' := c.state.position, c.log + round.arrivals;
      p <= |c.log| && after == c.state.ReceiveAll(log'[p..p + Min(round.attempts, |log'| - p)])
    ensures Captured(after, c.log + round.arrivals) == c.Drain(round)
    ensures after.position <= |c.log + round.arrivals|
  {
    var p, log' := c.state.position, c.log + round.arrivals;
    assert p + Min(round.attempts, |log'| - p) == Min(p + round.attempts, |log'|);
    DrainReads(c, round);
  }

  /** The system after an iteration of the wait of state `i`. */
  ghost predicate RoundDone(s: F.System, s': F.System, i: nat, round: Round)
    requires i < |s.nodes|
  {
    && OnlyNode(s, s', i) && CapturedAt(s', i) == CapturedAt(s, i).Drain(round)
    && s'.nodes[i].state.position <= |s'.log|
  }

  lemma ReceivesDone(s: F.System, i: nat, round: Round, s1: F.System, n: nat)
    requires i < |s.nodes| && s.nodes[i].state.position <= |s.log|
    requires s1 == s.(log := s.log + round.arrivals)
    requires n == Min(round.attempts, |s.log| + |round.arrivals| - s.nodes[i].state.position)
    ensures RoundDone(s, F.Run(s1, ForkTheorems.Receives(i, n)), i, round)
  {
    var s' := F.Run(s1, ForkTheorems.Receives(i, n));
    ReceivesOnly(s1, i, n);
    RoundEnds(CapturedAt(s, i), round, s'.nodes[i].state);
  }

  lemma RoundIsRun(s: F.System, i: nat, round: Round)
    requires i < |s.nodes| && s.nodes[i].state.position <= |s.log|
    ensures RoundDone(s, F.Run(s, RoundSteps(i, s.nodes[i].state.position, |s.log|, round)), i, round)
  {
    var p := s.nodes[i].state.position;
    RoundSplits(s, i, p, round);
    ReceivesDone(s, i, round, s.(log := s.log + round.arrivals),
                 Min(round.attempts, |s.log| + |round.arrivals| - p));
  }

  /** The whole wait is a run in which only its own state receives. */
  lemma {:induction false} WaitIsRun(s: F.System, i: nat, rounds: seq<Round>, stopWhenEmpty: bool)
      returns (steps: seq<F.Step>)
    requires i < |s.nodes| && s.nodes[i].state.position <= |s.log|
    ensures var s' := F.Run(s, steps);
      && OnlyNode(s, s', i) && CapturedAt(s', i) == Capture(CapturedAt(s, i), rounds, stopWhenEmpty).0
    ensures forall k :: 0 <= k < |steps| ==> steps[k].Broadcast? || steps[k] == F.Receive(i)
    decreases |rounds|
  {
    if rounds == [] {
      steps := [];
    } else {
      var c' := CapturedAt(s, i).Drain(rounds[0]);
      steps := RoundSteps(i, s.nodes[i].state.position, |s.log|, rounds[0]);
      RoundIsRun(s, i, rounds[0]);
      RoundStepsKinds(i, s.nodes[i].state.position, |s.log|, rounds[0]);
      if !((c'.state.queue == []) == stopWhenEmpty || |rounds| == 1) {
        var rest := WaitIsRun(F.Run(s, steps), i, rounds[1..], stopWhenEmpty);
        ForkTheorems.SystemRunConcat(s, steps, rest);
        steps := steps + rest;
      }
    }
  }

  lemma {:induction false} BroadcastsKinds(ts: seq<Txn>)
    ensures forall k :: 0 <= k < |Broadcasts(ts)| ==> Broadcasts(ts)[k].Broadcast?
    decreases |ts|
  {
    if ts != [] { BroadcastsKinds(ts[1..]); }
  }

  lemma {:induction false} ReceivesKinds(i: nat, n: nat)
    ensures forall k :: 0 <= k < |ForkTheorems.Receives(i, n)| ==> ForkTheorems.Receives(i, n)[k] == F.Receive(i)
  {
    if n > 0 { ReceivesKinds(i, n - 1); }
  }

  lemma RoundStepsKinds(i: nat, position: nat, length: nat, round: Round)
    requires position <= length
    ensures forall k :: 0 <= k < |RoundSteps(i, position, length, round)| ==>
      var step := RoundSteps(i, position, length, round)[k];
      step.Broadcast? || step == F.Receive(i)
  {
    BroadcastsKinds(round.arrivals);
    ReceivesKinds(i, Min(round.attempts, length + |round.arrivals| - position));
  }

  /** A build, wait and drop included, is a run too: only its own state receives, and at
      most one pop ends it. */
  lemma BuildIsRun(s: F.System, i: nat, rounds: seq<Round>, maxBlockSize: nat, encode: Encoder)
      returns (steps: seq<F.Step>)
    requires i < |s.nodes| && s.nodes[i].state.position <= |s.log| && KeepsPrefix(encode)
    ensures var s' := F.Run(s, steps);
      var captured := Capture(CapturedAt(s, i), rounds, true).0;
      && OnlyNode(s, s', i) && s'.log == captured.log
      && s'.nodes[i].state == Build(captured.state, maxBlockSize, encode).1
    ensures forall k :: 0 <= k < |steps| - 1 ==> steps[k].Broadcast? || steps[k] == F.Receive(i)
    ensures steps != [] ==> var last := steps[|steps| - 1];
      last.Broadcast? || last == F.Receive(i) || last == F.Pop(i)
  {
    steps := WaitIsRun(s, i, rounds, true);
    var s1 := F.Run(s, steps);
    var captured := Capture(CapturedAt(s, i), rounds, true).0;
    var s2 := F.Next(s1, F.Pop(i));
    BuildOutcome(captured.state, maxBlockSize, encode);
    if Build(captured.state, maxBlockSize, encode).1 != captured.state {
      assert s2.nodes[i].state == captured.state.Popped();
      ForkTheorems.SystemRunConcat(s, steps, [F.Pop(i)]);
      assert F.Run(s1, [F.Pop(i)]) == s2 by { assert [F.Pop(i)][1..] == []; }
      steps := steps + [F.Pop(i)];
    }
  }
}
