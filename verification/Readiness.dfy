/**
  What being ready on the board means for a group's members when it is claimed. A mark is never
  taken back, so a member that marked and then went away still counts.
 */
module Readiness {
  import opened Types
  import opened Initialization

  /** Step `q` made the group's local raft on node `n`, or found it there. */
  ghost predicate SpawnsAt(run: seq<Board>, steps: seq<Step>, q: nat, n: NodeId, g: GroupId)
    requires q < |steps| < |run|
  {
    steps[q].Spawned? && steps[q].ok && steps[q].c in run[q].calls
    && run[q].calls[steps[q].c].node == n && run[q].calls[steps[q].c].group == g
  }

  ghost predicate HasSpawned(run: seq<Board>, steps: seq<Step>, i: nat, n: NodeId, g: GroupId)
    requires i <= |steps| < |run|
  {
    exists q :: 0 <= q < i && SpawnsAt(run, steps, q, n, g)
  }

  /** The node has had the group's local raft since its last start. */
  ghost predicate IsLocal(run: seq<Board>, steps: seq<Step>, i: nat, n: NodeId, g: GroupId)
    requires i <= |steps| < |run|
  {
    exists q :: 0 <= q < i && SpawnsAt(run, steps, q, n, g) && forall r :: q < r < i ==> steps[r] != Restart(n)
  }

  predicate BeyondSpawn(k: Call, n: NodeId, g: GroupId) {
    k.node == n && k.group == g && (k.pc.Marking? || k.pc.Claiming? || k.pc.Initializing? || k.pc.Leaving?)
  }

  /** Whoever is on the board, or on the way there, had the local raft at some time. */
  lemma {:induction false} ReadyHaveSpawned(env: Env, run: seq<Board>, steps: seq<Step>, i: nat, n: NodeId, g: GroupId)
    requires IsRun(env, run, steps) && i < |run|
    ensures n in ReadyIn(run[i].ready, g) ==> HasSpawned(run, steps, i, n, g)
    ensures forall c :: c in run[i].calls && BeyondSpawn(run[i].calls[c], n, g) ==> HasSpawned(run, steps, i, n, g)
  {
    if i > 0 {
      ReadyHaveSpawned(env, run, steps, i - 1, n, g);
      var b, a, b' := run[i - 1], steps[i - 1], run[i];
      assert Next(env, b, a, b');
      assert HasSpawned(run, steps, i - 1, n, g) ==> HasSpawned(run, steps, i, n, g);
      forall c | c in b'.calls && BeyondSpawn(b'.calls[c], n, g)
        ensures HasSpawned(run, steps, i, n, g)
      {
        if a.Spawned? && a.c == c {
          assert SpawnsAt(run, steps, i - 1, n, g);
        } else {
          assert c in b.calls && BeyondSpawn(b.calls[c], n, g);
        }
      }
    }
  }

  /** The node's last restart before moment `i`, or -1. */
  lemma {:induction false} LastRestart(steps: seq<Step>, i: nat, n: NodeId) returns (r: int)
    requires i <= |steps|
    ensures -1 <= r < i && (r >= 0 ==> steps[r] == Restart(n))
    ensures forall p :: r < p < i ==> steps[p] != Restart(n)
  {
    r := -1;
    if i > 0 {
      if steps[i - 1] == Restart(n) {
        r := i - 1;
      } else {
        r := LastRestart(steps, i - 1, n);
      }
    }
  }

  /** After every restart of the node the group was spawned on it again. */
  ghost predicate RespawnedAfterRestarts(run: seq<Board>, steps: seq<Step>, i: nat, n: NodeId, g: GroupId)
    requires i <= |steps| < |run|
  {
    forall r :: 0 <= r < i && steps[r] == Restart(n) ==> exists q :: r < q < i && SpawnsAt(run, steps, q, n, g)
  }

  lemma LocalExactly(run: seq<Board>, steps: seq<Step>, i: nat, n: NodeId, g: GroupId)
    requires i <= |steps| < |run| && HasSpawned(run, steps, i, n, g)
    ensures IsLocal(run, steps, i, n, g) <==> RespawnedAfterRestarts(run, steps, i, n, g)
  {
    if IsLocal(run, steps, i, n, g) {
      var q :| 0 <= q < i && SpawnsAt(run, steps, q, n, g) && forall r :: q < r < i ==> steps[r] != Restart(n);
      forall r | 0 <= r < i && steps[r] == Restart(n) ensures r < q < i && SpawnsAt(run, steps, q, n, g) {
      }
    }
    if RespawnedAfterRestarts(run, steps, i, n, g) {
      var r := LastRestart(steps, i, n);
      var q :| r < q < i && 0 <= q && SpawnsAt(run, steps, q, n, g);
      assert forall p :: q < p < i ==> steps[p] != Restart(n);
    }
  }

  /**
    When a call wins the claim, every member has its local raft exactly when each member that
    restarted was spawned again since. The board cannot tell the difference.
   */
  lemma AllLocalAtClaimExactly(env: Env, run: seq<Board>, steps: seq<Step>, i: nat, c: nat, g: GroupId)
    requires IsRun(env, run, steps) && i < |steps| && steps[i] == Claim(c) && c in run[i].calls
    requires run[i].calls[c].group == g && g !in run[i].claimed
    ensures (forall m :: m in env.members(g) ==> IsLocal(run, steps, i, m, g)) <==>
            (forall m :: m in env.members(g) ==> RespawnedAfterRestarts(run, steps, i, m, g))
  {
    RunKeepsInv(env, run, steps, i);
    assert Next(env, run[i], steps[i], run[i + 1]);
    forall m | m in env.members(g)
      ensures IsLocal(run, steps, i, m, g) <==> RespawnedAfterRestarts(run, steps, i, m, g)
    {
      assert m in ReadyIn(run[i].ready, g);
      ReadyHaveSpawned(env, run, steps, i, m, g);
      LocalExactly(run, steps, i, m, g);
    }
  }

  // ----- a run in which a member is missing -----

  /** One member marks and goes away; the other comes, marks and claims. */
  function Story(n: NodeId, m: NodeId, g: GroupId): seq<Board> {
    var marked := NewBoard.(ready := map[g := {n}]);
    var both := NewBoard.(ready := map[g := {n, m}]);
    [NewBoard,
     NewBoard.(calls := map[0 := Call(n, g, Spawning)]),
     NewBoard.(calls := map[0 := Call(n, g, Marking)]),
     marked.(calls := map[0 := Call(n, g, Leaving)]),
     marked,
     marked.(calls := map[1 := Call(m, g, Spawning)]),
     marked.(calls := map[1 := Call(m, g, Marking)]),
     both.(calls := map[1 := Call(m, g, Claiming)]),
     both.(claimed := {g}, claims := [(1, g)], calls := map[1 := Call(m, g, Initializing)])]
  }

  function StorySteps(n: NodeId, m: NodeId, g: GroupId): seq<Step> {
    [Enter(0, n, g), Spawned(0, true), Mark(0), Restart(n), Enter(1, m, g), Spawned(1, true), Mark(1), Claim(1)]
  }

  lemma FirstMarksAndLeaves(env: Env, n: NodeId, m: NodeId, g: GroupId)
    requires env.members(g) == [n, m] && n != m && n !in env.standbys
    ensures forall i :: 0 <= i < 4 ==> Next(env, Story(n, m, g)[i], StorySteps(n, m, g)[i], Story(n, m, g)[i + 1])
  {
    var run := Story(n, m, g);
    assert Next(env, run[0], Enter(0, n, g), run[1]);
    assert Next(env, run[1], Spawned(0, true), run[2]);
    assert Next(env, run[2], Mark(0), run[3]) by {
      assert ReadyIn(run[2].ready, g) + {n} == {n} && run[2].ready[g := {n}] == run[3].ready;
      assert env.members(g)[1] == m && !AllReady(env, run[3], g);
    }
    assert Next(env, run[3], Restart(n), run[4]);
  }

  lemma SecondMarksAndClaims(env: Env, n: NodeId, m: NodeId, g: GroupId)
    requires env.members(g) == [n, m] && m !in env.standbys
    ensures forall i :: 4 <= i < 8 ==> Next(env, Story(n, m, g)[i], StorySteps(n, m, g)[i], Story(n, m, g)[i + 1])
  {
    var run := Story(n, m, g);
    assert Next(env, run[4], Enter(1, m, g), run[5]);
    assert Next(env, run[5], Spawned(1, true), run[6]);
    assert Next(env, run[6], Mark(1), run[7]) by {
      assert ReadyIn(run[6].ready, g) + {m} == {n, m} && run[6].ready[g := {n, m}] == run[7].ready;
      assert AllReady(env, run[7], g);
    }
    assert Next(env, run[7], Claim(1), run[8]);
  }

  /** So a group can be initialized while a listed member is not there. */
  lemma AbsentMemberCounts(env: Env, n: NodeId, m: NodeId, g: GroupId) returns (run: seq<Board>, steps: seq<Step>)
    requires env.members(g) == [n, m] && n != m && n !in env.standbys && m !in env.standbys
    ensures IsRun(env, run, steps)
    ensures InitializingAt(run[|steps|], 1, g) && !IsLocal(run, steps, |steps|, n, g)
  {
    FirstMarksAndLeaves(env, n, m, g);
    SecondMarksAndClaims(env, n, m, g);
    run, steps := Story(n, m, g), StorySteps(n, m, g);
    assert steps[3] == Restart(n) && !SpawnsAt(run, steps, 5, n, g);
  }
}
