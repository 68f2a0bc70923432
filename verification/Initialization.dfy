/**
  Who initializes a group: the readiness board that in-process nodes share
  (crates/multiraft-net/src/multiraft.rs, ClusterGlue and create_group). Calls from different
  nodes, repeated calls and restarts interleave between the two locks.
 */
module Initialization {
  import opened Types

  /** Where a call of `create_group` stands. */
  datatype Pc =
    | Spawning
    | Marking
    | Claiming
    | Initializing
    | Leaving
    | Returned(ok: bool)

  datatype Call = Call(node: NodeId, group: GroupId, pc: Pc)

  /** The agreed member list of each group, and the nodes that run as standbys. */
  datatype Env = Env(members: GroupId -> seq<NodeId>, standbys: set<NodeId>)

  /**
    `claims` and `succeeded` are history: which call claimed which group, in order, and the
    groups whose `initialize` came back well.
   */
  datatype Board = Board(
    ready: map<GroupId, set<NodeId>>,
    claimed: set<GroupId>,
    calls: map<nat, Call>,
    claims: seq<(nat, GroupId)>,
    succeeded: set<GroupId>)

  const NewBoard := Board(map[], {}, map[], [], {})

  function ReadyIn(ready: map<GroupId, set<NodeId>>, g: GroupId): set<NodeId> {
    if g in ready then ready[g] else {}
  }

  predicate AllIn(members: seq<NodeId>, nodes: set<NodeId>) {
    forall i :: 0 <= i < |members| ==> members[i] in nodes
  }

  predicate AllReady(env: Env, b: Board, g: GroupId) {
    AllIn(env.members(g), ReadyIn(b.ready, g))
  }

  datatype Step =
    | Enter(c: nat, node: NodeId, group: GroupId)
    | Spawned(c: nat, ok: bool)
    | Mark(c: nat)
    | Claim(c: nat)
    | Initialized(c: nat, ok: bool)
    | Leave(c: nat)
    | Restart(node: NodeId)

  function At(b: Board, c: nat, pc: Pc): Board
    requires c in b.calls
  {
    b.(calls := b.calls[c := b.calls[c].(pc := pc)])
  }

  /** The board outlives the nodes: a restart cuts off the node's unfinished calls and nothing else. */
  ghost predicate Next(env: Env, b: Board, a: Step, b': Board) {
    match a
    case Enter(c, n, g) =>
      && c !in b.calls && env.members(g) != [] && (n in env.standbys || n in env.members(g))
      && b' == b.(calls := b.calls[c := Call(n, g, Spawning)])
    case Spawned(c, ok) =>
      && c in b.calls && b.calls[c].pc.Spawning?
      && b' == At(b, c, if !ok then Returned(false)
                        else if b.calls[c].node in env.standbys then Returned(true)
                        else Marking)
    case Mark(c) =>
      && c in b.calls && b.calls[c].pc.Marking?
      && var g := b.calls[c].group;
      && var marked := b.(ready := b.ready[g := ReadyIn(b.ready, g) + {b.calls[c].node}]);
      && b' == At(marked, c, if AllReady(env, marked, g) then Claiming else Leaving)
    case Claim(c) =>
      && c in b.calls && b.calls[c].pc.Claiming?
      && var g := b.calls[c].group;
      && b' == if g in b.claimed then At(b, c, Leaving)
               else At(b.(claimed := b.claimed + {g}, claims := b.claims + [(c, g)]), c, Initializing)
    case Initialized(c, ok) =>
      && c in b.calls && b.calls[c].pc.Initializing?
      && b' == if ok then At(b.(succeeded := b.succeeded + {b.calls[c].group}), c, Leaving)
               else At(b, c, Returned(false))
    case Leave(c) =>
      && c in b.calls && b.calls[c].pc.Leaving?
      && b' == At(b, c, Returned(true))
    case Restart(n) =>
      b' == b.(calls := map c | c in b.calls && (b.calls[c].node != n || b.calls[c].pc.Returned?) :: b.calls[c])
  }

  // ----- the invariant -----

  /** A voter's call that needs, or needed, no claim of its own any more. */
  predicate Passed(k: Call) {
    k.pc.Leaving? || k.pc.Initializing? || k.pc == Returned(true)
  }

  ghost predicate NonePassed(b: Board, n: NodeId, g: GroupId) {
    forall c :: c in b.calls && b.calls[c].node == n && b.calls[c].group == g ==> !Passed(b.calls[c])
  }

  ghost predicate ClaimsOk(env: Env, b: Board) {
    && (forall i :: 0 <= i < |b.claims| ==> b.claims[i].1 in b.claimed)
    && (forall i, j :: 0 <= i < j < |b.claims| ==> b.claims[i].1 != b.claims[j].1)
    && (forall g :: g in b.claimed ==> AllReady(env, b, g))
  }

  ghost predicate CallsOk(env: Env, b: Board) {
    forall c :: c in b.calls ==>
      var k := b.calls[c];
      && (k.node in env.standbys ==> k.pc.Spawning? || k.pc.Returned?)
      && (k.node !in env.standbys && (Passed(k) || k.pc.Claiming?) ==> k.node in ReadyIn(b.ready, k.group))
      && (k.pc.Claiming? ==> AllReady(env, b, k.group))
      && (k.pc.Initializing? ==> k.group in b.claimed)
  }

  ghost predicate StandbysNeverReady(env: Env, b: Board) {
    forall g, n :: n in ReadyIn(b.ready, g) ==> n !in env.standbys
  }

  ghost predicate Holder(env: Env, b: Board, g: GroupId, m: NodeId) {
    m in env.members(g) && (m in env.standbys || NonePassed(b, m, g))
  }

  /** Until a group is claimed, some member still owes the call that will claim it. */
  ghost predicate SomeoneWillClaim(env: Env, b: Board) {
    forall g :: g !in b.claimed && env.members(g) != [] ==> exists m :: Holder(env, b, g, m)
  }

  ghost predicate Inv(env: Env, b: Board) {
    ClaimsOk(env, b) && CallsOk(env, b) && StandbysNeverReady(env, b) && SomeoneWillClaim(env, b)
  }

  lemma HolderAfter(env: Env, b: Board, a: Step, b': Board, g: GroupId)
    requires Inv(env, b) && Next(env, b, a, b') && g !in b'.claimed && env.members(g) != []
    ensures exists m :: Holder(env, b', g, m)
  {
    var m :| Holder(env, b, g, m);
    if a.Mark? && b.calls[a.c].group == g && !AllReady(env, b', g) {
      // whoever is missing from the board has passed nowhere
      var i :| 0 <= i < |env.members(g)| && env.members(g)[i] !in ReadyIn(b'.ready, g);
      assert Holder(env, b', g, env.members(g)[i]);
    } else {
      assert Holder(env, b', g, m);
    }
  }

  lemma StepKeepsInv(env: Env, b: Board, a: Step, b': Board)
    requires Inv(env, b) && Next(env, b, a, b')
    ensures Inv(env, b')
  {
    assert forall g :: ReadyIn(b.ready, g) <= ReadyIn(b'.ready, g);
    assert forall g :: AllReady(env, b, g) ==> AllReady(env, b', g);
    forall g | g !in b'.claimed && env.members(g) != [] ensures exists m :: Holder(env, b', g, m) {
      HolderAfter(env, b, a, b', g);
    }
  }

  ghost predicate IsRun(env: Env, run: seq<Board>, steps: seq<Step>) {
    && |run| == |steps| + 1
    && run[0] == NewBoard
    && forall i :: 0 <= i < |steps| ==> Next(env, run[i], steps[i], run[i + 1])
  }

  lemma {:induction false} RunKeepsInv(env: Env, run: seq<Board>, steps: seq<Step>, i: nat)
    requires IsRun(env, run, steps) && i < |run|
    ensures Inv(env, run[i])
  {
    if i == 0 {
      forall g | env.members(g) != [] ensures exists m :: Holder(env, NewBoard, g, m) {
        assert Holder(env, NewBoard, g, env.members(g)[0]);
      }
    } else {
      RunKeepsInv(env, run, steps, i - 1);
      StepKeepsInv(env, run[i - 1], steps[i - 1], run[i]);
    }
  }

  /**
    In every interleaving, repeats and restarts included, a group is claimed by at most one call
    and only once all its members are ready.
   */
  lemma GroupIsClaimedOnce(env: Env, run: seq<Board>, steps: seq<Step>, i: nat, p: nat, q: nat)
    requires IsRun(env, run, steps) && i < |run|
    requires p < |run[i].claims| && q < |run[i].claims| && run[i].claims[p].1 == run[i].claims[q].1
    ensures p == q && AllReady(env, run[i], run[i].claims[p].1)
  {
    RunKeepsInv(env, run, steps, i);
  }

  /** A voter that is a member of the group has a call that came back well. */
  ghost predicate HasReturned(b: Board, n: NodeId, g: GroupId) {
    exists c :: c in b.calls && b.calls[c] == Call(n, g, Returned(true))
  }

  /** A call that came back stays so, through restarts too. */
  lemma ReturnedStays(env: Env, b: Board, a: Step, b': Board, n: NodeId, g: GroupId)
    requires Next(env, b, a, b') && HasReturned(b, n, g)
    ensures HasReturned(b', n, g)
  {
    var c :| c in b.calls && b.calls[c] == Call(n, g, Returned(true));
    assert c in b'.calls && b'.calls[c] == Call(n, g, Returned(true));
  }

  lemma {:induction false} ReturnedStaysThrough(env: Env, run: seq<Board>, steps: seq<Step>, i: nat, j: nat,
                                                n: NodeId, g: GroupId)
    requires IsRun(env, run, steps) && i <= j < |run| && HasReturned(run[i], n, g)
    ensures HasReturned(run[j], n, g)
  {
    if i < j {
      ReturnedStaysThrough(env, run, steps, i, j - 1, n, g);
      ReturnedStays(env, run[j - 1], steps[j - 1], run[j], n, g);
    }
  }

  /**
    By the time every member has had a call come back well, whatever restarted since, the group
    has been claimed, exactly when no standby is listed as a member: a standby's call comes back
    well without ever marking it.
   */
  lemma ClaimedWhenAllReturned(env: Env, run: seq<Board>, steps: seq<Step>, i: nat, g: GroupId)
    requires IsRun(env, run, steps) && i < |run| && env.members(g) != []
    requires forall m :: m in env.members(g) ==> HasReturned(run[i], m, g)
    ensures g in run[i].claimed <==> forall m :: m in env.members(g) ==> m !in env.standbys
  {
    RunKeepsInv(env, run, steps, i);
  }

  // ----- what becomes of a claim -----

  predicate InitializingAt(b: Board, c: nat, g: GroupId) {
    c in b.calls && b.calls[c].group == g && b.calls[c].pc.Initializing?
  }

  ghost predicate Pending(b: Board, g: GroupId) {
    exists c :: InitializingAt(b, c, g)
  }

  /** The claiming call fails in `initialize`, or its node goes away in the middle of it. */
  ghost predicate LosesClaim(b: Board, a: Step, g: GroupId) {
    || (a.Initialized? && !a.ok && InitializingAt(b, a.c, g))
    || (a.Restart? && exists c :: InitializingAt(b, c, g) && b.calls[c].node == a.node)
  }

  ghost predicate Lost(run: seq<Board>, steps: seq<Step>, i: nat, g: GroupId)
    requires i <= |steps| < |run|
  {
    exists p :: 0 <= p < i && LosesClaim(run[p], steps[p], g)
  }

  /** A claim has one fate: still pending, succeeded, or lost. */
  ghost predicate OneFate(b: Board, g: GroupId, lost: bool) {
    && (g !in b.claimed ==> g !in b.succeeded && !Pending(b, g) && !lost)
    && (g in b.claimed ==> (g in b.succeeded <==> !Pending(b, g) && !lost) && !(Pending(b, g) && lost))
    && (forall c, d :: InitializingAt(b, c, g) && InitializingAt(b, d, g) ==> c == d)
  }

  lemma FateStep(env: Env, b: Board, a: Step, b': Board, g: GroupId, lost: bool)
    requires Next(env, b, a, b') && OneFate(b, g, lost)
    ensures OneFate(b', g, lost || LosesClaim(b, a, g))
  {
    match a {
      case Initialized(c, ok) =>
        assert InitializingAt(b, c, b.calls[c].group);
        assert forall d :: InitializingAt(b', d, g) <==> InitializingAt(b, d, g) && d != c;
      case Claim(c) =>
        assert forall d :: InitializingAt(b', d, g) ==> d == c || InitializingAt(b, d, g);
        assert g == b.calls[c].group && g !in b.claimed ==> InitializingAt(b', c, g);
        if Pending(b, g) {
          var d :| InitializingAt(b, d, g);
          assert InitializingAt(b', d, g);
        }
      case Restart(n) =>
        assert forall d :: InitializingAt(b', d, g) <==> InitializingAt(b, d, g) && b.calls[d].node != n;
      case _ =>
        assert forall d :: InitializingAt(b', d, g) <==> InitializingAt(b, d, g);
    }
  }

  lemma {:induction false} RunKeepsFate(env: Env, run: seq<Board>, steps: seq<Step>, i: nat, g: GroupId)
    requires IsRun(env, run, steps) && i < |run|
    ensures OneFate(run[i], g, Lost(run, steps, i, g))
  {
    if i > 0 {
      RunKeepsFate(env, run, steps, i - 1, g);
      FateStep(env, run[i - 1], steps[i - 1], run[i], g, Lost(run, steps, i - 1, g));
      assert Lost(run, steps, i, g) <==> Lost(run, steps, i - 1, g) || LosesClaim(run[i - 1], steps[i - 1], g);
    }
  }

  /**
    When every member has had a call come back well, the group has been initialized exactly when no
    standby is listed, nobody is still at it, and the one claim was not lost on the way: a lost
    claim is never made again.
   */
  lemma InitializedWhenAllReturned(env: Env, run: seq<Board>, steps: seq<Step>, i: nat, g: GroupId)
    requires IsRun(env, run, steps) && i < |run| && env.members(g) != []
    requires forall m :: m in env.members(g) ==> HasReturned(run[i], m, g)
    ensures g in run[i].succeeded <==>
            (forall m :: m in env.members(g) ==> m !in env.standbys) && !Pending(run[i], g) && !Lost(run, steps, i, g)
  {
    ClaimedWhenAllReturned(env, run, steps, i, g);
    RunKeepsFate(env, run, steps, i, g);
  }

  // ----- runs that show both defects -----

  lemma {:induction false} StepsTo(env: Env, run: seq<Board>, steps: seq<Step>, a: Step, b: Board)
    returns (run': seq<Board>, steps': seq<Step>)
    requires IsRun(env, run, steps) && Next(env, run[|run| - 1], a, b)
    ensures IsRun(env, run', steps') && run'[|run'| - 1] == b
  {
    run', steps' := run + [b], steps + [a];
  }

  /** A new call of a voter that its own mark decides: it stops at the claim, or passes on. */
  lemma EnterAndMark(env: Env, run: seq<Board>, steps: seq<Step>, c: nat, n: NodeId, g: GroupId)
    returns (run': seq<Board>, steps': seq<Step>)
    requires IsRun(env, run, steps) && n in env.members(g) && n !in env.standbys && c !in run[|run| - 1].calls
    ensures IsRun(env, run', steps')
    ensures var b := run[|run| - 1];
            var marked := b.(ready := b.ready[g := ReadyIn(b.ready, g) + {n}]);
            var pc := if AllReady(env, marked, g) then Claiming else Leaving;
            run'[|run'| - 1] == marked.(calls := b.calls[c := Call(n, g, pc)])
  {
    var b := run[|run| - 1];
    var b1 := b.(calls := b.calls[c := Call(n, g, Spawning)]);
    var b2 := b1.(calls := b.calls[c := Call(n, g, Marking)]);
    assert b1.calls[c := Call(n, g, Marking)] == b2.calls;
    run', steps' := StepsTo(env, run, steps, Enter(c, n, g), b1);
    run', steps' := StepsTo(env, run', steps', Spawned(c, true), b2);
    var marked := b.(ready := b.ready[g := ReadyIn(b.ready, g) + {n}]);
    var pc := if AllReady(env, marked, g) then Claiming else Leaving;
    var b3 := marked.(calls := b.calls[c := Call(n, g, pc)]);
    assert b2.calls[c := Call(n, g, pc)] == b3.calls;
    run', steps' := StepsTo(env, run', steps', Mark(c), b3);
  }

  /**
    The claim outlives a failed `initialize`. The only member's first call claims and fails; its
    second call finds the group claimed and comes back well, and nothing was ever initialized.
   */
  lemma FailedClaimIsKept(env: Env, n: NodeId, g: GroupId) returns (run: seq<Board>, steps: seq<Step>)
    requires env.members(g) == [n] && n !in env.standbys
    ensures IsRun(env, run, steps)
    ensures var b := run[|run| - 1]; HasReturned(b, n, g) && g in b.claimed && g !in b.succeeded
  {
    run, steps := [NewBoard], [];
    run, steps := EnterAndMark(env, run, steps, 0, n, g);
    var b := Board(map[g := {n}], {}, map[0 := Call(n, g, Claiming)], [], {});
    assert ReadyIn(NewBoard.ready, g) + {n} == {n};
    assert NewBoard.ready[g := {n}] == b.ready;
    assert AllReady(env, NewBoard.(ready := b.ready), g);
    assert run[|run| - 1] == b;
    var b1 := b.(claimed := {g}, claims := [(0, g)], calls := map[0 := Call(n, g, Initializing)]);
    run, steps := StepsTo(env, run, steps, Claim(0), b1);
    var b2 := b1.(calls := map[0 := Call(n, g, Returned(false))]);
    run, steps := StepsTo(env, run, steps, Initialized(0, false), b2);
    run, steps := SecondCall(env, run, steps, n, g);
  }

  lemma SecondCall(env: Env, run: seq<Board>, steps: seq<Step>, n: NodeId, g: GroupId)
    returns (run': seq<Board>, steps': seq<Step>)
    requires IsRun(env, run, steps) && env.members(g) == [n] && n !in env.standbys
    requires var b := run[|run| - 1]; g in b.claimed && 1 !in b.calls
    ensures IsRun(env, run', steps')
    ensures var b, b' := run[|run| - 1], run'[|run'| - 1];
            HasReturned(b', n, g) && b'.claimed == b.claimed && b'.succeeded == b.succeeded
  {
    run', steps' := EnterAndMark(env, run, steps, 1, n, g);
    var b := run'[|run'| - 1];
    assert b.calls[1].pc.Claiming?;
    run', steps' := StepsTo(env, run', steps', Claim(1), At(b, 1, Leaving));
    var b1 := At(b, 1, Leaving);
    run', steps' := StepsTo(env, run', steps', Leave(1), At(b1, 1, Returned(true)));
    assert At(b1, 1, Returned(true)).calls[1] == Call(n, g, Returned(true));
  }

  /** With a voter and a standby listed, both calls come back well and nobody has claimed. */
  lemma ListedStandbyPreventsClaim(env: Env, n: NodeId, m: NodeId, g: GroupId)
    returns (run: seq<Board>, steps: seq<Step>)
    requires env.members(g) == [n, m] && n !in env.standbys && m in env.standbys
    ensures IsRun(env, run, steps)
    ensures var b := run[|run| - 1];
            g !in b.claimed && forall k :: k in env.members(g) ==> HasReturned(b, k, g)
  {
    run, steps := [NewBoard], [];
    run, steps := EnterAndMark(env, run, steps, 0, n, g);
    var b := Board(map[g := {n}], {}, map[0 := Call(n, g, Leaving)], [], {});
    assert ReadyIn(NewBoard.ready, g) + {n} == {n};
    assert NewBoard.ready[g := {n}] == b.ready;
    assert env.members(g)[1] == m && !AllReady(env, NewBoard.(ready := b.ready), g);
    assert run[|run| - 1] == b;
    var done := Call(n, g, Returned(true));
    var b1 := b.(calls := map[0 := done]);
    run, steps := StepsTo(env, run, steps, Leave(0), b1);
    var b2 := b1.(calls := map[0 := done, 1 := Call(m, g, Spawning)]);
    run, steps := StepsTo(env, run, steps, Enter(1, m, g), b2);
    var b3 := b1.(calls := map[0 := done, 1 := Call(m, g, Returned(true))]);
    run, steps := StepsTo(env, run, steps, Spawned(1, true), b3);
    assert b3.calls[0] == done && b3.calls[1] == Call(m, g, Returned(true));
  }

  // ----- the two critical sections -----

  /** The shared board, with the calls in progress as ghosts. */
  class ClusterGlue {
    var ready: map<GroupId, set<NodeId>>
    var claimed: set<GroupId>
    ghost var calls: map<nat, Call>
    ghost var claims: seq<(nat, GroupId)>
    ghost var succeeded: set<GroupId>

    ghost function State(): Board
      reads this
    {
      Board(ready, claimed, calls, claims, succeeded)
    }

    constructor ()
      ensures State() == NewBoard
    {
      ready, claimed := map[], {};
      calls, claims, succeeded := map[], [], {};
    }

    /** Performs the mark step of call `c`, and tells whether the call goes on to claim. */
    method MarkReady(ghost env: Env, ghost c: nat, g: GroupId, n: NodeId, members: seq<NodeId>) returns (all: bool)
      requires Inv(env, State()) && c in calls && calls[c] == Call(n, g, Marking) && members == env.members(g)
      modifies this
      ensures Next(env, old(State()), Mark(c), State()) && Inv(env, State())
      ensures all <==> calls[c].pc.Claiming?
      ensures all <==> AllReady(env, State(), g)
    {
      ghost var before := State();
      if g !in ready {
        ready := ready[g := {}];
      }
      ready := ready[g := ready[g] + {n}];
      all := true;
      for i := 0 to |members|
        invariant all <==> forall j :: 0 <= j < i ==> members[j] in ready[g]
        invariant ready == before.ready[g := ReadyIn(before.ready, g) + {n}]
        invariant State() == before.(ready := ready)
      {
        if members[i] !in ready[g] {
          all := false;
        }
      }
      calls := calls[c := calls[c].(pc := if all then Claiming else Leaving)];
      StepKeepsInv(env, before, Mark(c), State());
    }

    /**
      Performs the claim step of call `c`. A call wins exactly when no call before it claimed the
      group, and then every member is ready and no other call will ever win.
     */
    method TryClaimInit(ghost env: Env, ghost c: nat, g: GroupId) returns (won: bool)
      requires Inv(env, State()) && c in calls && calls[c].group == g && calls[c].pc.Claiming?
      modifies this
      ensures Next(env, old(State()), Claim(c), State()) && Inv(env, State())
      ensures won <==> calls[c].pc.Initializing?
      ensures won ==> AllReady(env, State(), g) && forall i :: 0 <= i < |old(claims)| ==> old(claims)[i].1 != g
      ensures g in claimed
    {
      ghost var before := State();
      won := g !in claimed;
      claimed := claimed + {g};
      claims := if won then claims + [(c, g)] else claims;
      calls := calls[c := calls[c].(pc := if won then Initializing else Leaving)];
      assert !won ==> claimed == before.claimed;
      StepKeepsInv(env, before, Claim(c), State());
    }
  }
}
