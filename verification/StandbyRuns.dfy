/**
  Runs that show the surprising behaviours are real: a snapshot ahead of its label, an older build
  advertised last, an installed snapshot that never reached the catalog.
 */
module StandbyRuns {
  import opened Types
  import opened Names
  import opened Counter
  import opened Bridge
  import opened Catalog
  import opened Standby
  import opened StandbyTheorems
  import CS = CatalogSteps
  import CW = CatalogWrites

  // ----- putting runs together -----

  /** Any nodes, all new, and a log already committed. */
  lemma {:induction false} Commits(env: Env, nodes: map<NodeId, Node>, log: seq<Entry>)
    returns (run: seq<Sys>, steps: seq<Step>)
    requires env.Valid() && forall n :: n in nodes ==> nodes[n] == NewNode
    requires forall i :: 0 <= i < |log| ==> log[i].id.index == i
    ensures IsRun(env, run, steps) && run[|run| - 1] == Sys(log, nodes, {}, map[])
  {
    if log == [] {
      run, steps := [Sys([], nodes, {}, map[])], [];
    } else {
      var before, e := log[..|log| - 1], log[|log| - 1];
      run, steps := Commits(env, nodes, before);
      assert log == before + [e];
      var s := Sys(log, nodes, {}, map[]);
      assert Next(env, run[|run| - 1], Commit(e), s);
      run, steps := run + [s], steps + [Commit(e)];
    }
  }

  /** Feeding a replica the next entry has that entry's effect on its group state. */
  lemma FeedOne(env: Env, log: seq<Entry>, n: NodeId, x: Node, spawned: map<nat, Task>) returns (a: NodeStep, x': Node)
    requires env.Valid() && x.delivered < |log| && !Rejected(env.codec, log[x.delivered])
    requires var e := log[x.delivered];
             forall t :: t in spawned ==>
               t !in x.tasks && env.offload && n in env.standbys && IsTrigger(e) && spawned[t] == Spawned(e.id)
    ensures NodeNext(env, log, {}, n, x, a, x')
    ensures x'.delivered == x.delivered + 1 && x'.tasks == x.tasks + spawned
    ensures x'.core.fsm.View(env.group) == Effect(env.codec, x.core.fsm.View(env.group), log[x.delivered])
  {
    var e := log[x.delivered];
    var items := [Item(e, false)];
    a := NodeStep.Apply(items, spawned);
    assert items[1..] == [] && Accepted(env.codec, items) == 1;
    var es := Applied(env.codec, items);
    assert es == [e] && es[..|es| - 1] == [];
    FsmReplayIsLocal(env.codec, x.core.fsm, env.group, es);
    assert IsTrigger(e) ==> Triggers(es)[0] == e.id;
    x' := Node(AfterApply(env.codec, env.group, x.core, items), x.delivered + 1, x.cat, x.tasks + spawned);
  }

  lemma RunExtends(env: Env, run: seq<Sys>, steps: seq<Step>, n: NodeId, a: NodeStep, x: Node)
    returns (run': seq<Sys>, steps': seq<Step>)
    requires IsRun(env, run, steps)
    requires var s := run[|run| - 1]; n in s.nodes && NodeNext(env, s.log, s.msgs, n, s.nodes[n], a, x)
    ensures IsRun(env, run', steps')
    ensures |run'| == |run| + 1 && run <= run'
    ensures run'[|run|] == run[|run| - 1].(nodes := run[|run| - 1].nodes[n := x])
  {
    var s := run[|run| - 1];
    var s' := s.(nodes := s.nodes[n := x]);
    assert Next(env, s, Do(n, a), s');
    run', steps' := run + [s'], steps + [Do(n, a)];
  }

  /** The steps of a catalog are steps of the node it belongs to. */
  lemma {:induction false} CatalogExtends(env: Env, run: seq<Sys>, steps: seq<Step>, n: NodeId,
                                          cats: seq<CS.State>, cs: seq<CS.Step>)
    returns (run': seq<Sys>, steps': seq<Step>)
    requires IsRun(env, run, steps) && CW.IsPath(env.Catalog(), cats, cs)
    requires var s := run[|run| - 1]; n in s.nodes && s.nodes[n].cat == cats[0]
    ensures IsRun(env, run', steps')
    ensures var s := run[|run| - 1];
            run'[|run'| - 1] == s.(nodes := s.nodes[n := s.nodes[n].(cat := cats[|cats| - 1])])
    decreases |cs|
  {
    var s := run[|run| - 1];
    if cs == [] {
      run', steps' := run, steps;
      assert s.nodes[n := s.nodes[n]] == s.nodes;
    } else {
      var m := |cs| - 1;
      run', steps' := CatalogExtends(env, run, steps, n, cats[..m + 1], cs[..m]);
      var x := s.nodes[n].(cat := cats[m]);
      assert CS.Next(env.Catalog(), cats[m], cs[m], cats[m + 1]);
      var x' := x.(cat := cats[m + 1]);
      run', steps' := RunExtends(env, run', steps', n, NodeStep.CatalogStep(cs[m]), x');
      assert s.nodes[n := x][n := x'] == s.nodes[n := x'];
    }
  }

  lemma CatalogIsGood(env: Env, run: seq<Sys>, steps: seq<Step>, n: NodeId)
    requires IsRun(env, run, steps) && n in run[|run| - 1].nodes
    ensures CS.Inv(env.Catalog(), run[|run| - 1].nodes[n].cat)
  {
    RunKeepsInv(env, run, steps, |run| - 1);
  }

  lemma WritesQuietly(c: CS.Config, s: CS.State, t: nat, w: CS.Write) returns (cats: seq<CS.State>, cs: seq<CS.Step>)
    requires CS.Inv(c, s) && t !in s.writers && !AnyTorn(s.dirs)
    ensures CW.IsPath(c, cats, cs) && CS.Next(c, s, CS.Begin(t, w), cats[0])
    ensures cats[|cats| - 1].writers == s.writers[t := CS.Finished(w, true)] && !AnyTorn(cats[|cats| - 1].dirs)
  {
    cats, cs := CW.QuietWriteIsWrite(c, s, t, w);
  }

  /** A frozen build writes its snapshot undisturbed. */
  lemma BuildWrites(env: Env, run: seq<Sys>, steps: seq<Step>, n: NodeId, t: nat)
    returns (run': seq<Sys>, steps': seq<Step>, cat: CS.State)
    requires IsRun(env, run, steps) && n in run[|run| - 1].nodes
    requires var x := run[|run| - 1].nodes[n];
             t in x.tasks && x.tasks[t].Frozen? && t !in x.cat.writers && !AnyTorn(x.cat.dirs)
    ensures IsRun(env, run', steps')
    ensures var s := run[|run| - 1];
            var x := s.nodes[n];
            var w := BuildWrite(x.tasks[t].upTo, x.tasks[t].data);
            && run'[|run'| - 1] == s.(nodes := s.nodes[n := x.(cat := cat, tasks := x.tasks[t := BuildWriting(w)])])
            && cat.writers == x.cat.writers[t := CS.Finished(w, true)] && !AnyTorn(cat.dirs)
  {
    var s := run[|run| - 1];
    var x := s.nodes[n];
    var w := BuildWrite(x.tasks[t].upTo, x.tasks[t].data);
    CatalogIsGood(env, run, steps, n);
    var cats, cs := WritesQuietly(env.Catalog(), x.cat, t, w);
    cat := cats[|cats| - 1];
    var x1 := x.(cat := cats[0], tasks := x.tasks[t := BuildWriting(w)]);
    run', steps' := RunExtends(env, run, steps, n, NodeStep.BeginBuildWrite(t), x1);
    run', steps' := CatalogExtends(env, run', steps', n, cats, cs);
    var x2 := x1.(cat := cat);
    assert s.nodes[n := x1][n := x2] == s.nodes[n := x2];
  }

  lemma Advertises(env: Env, run: seq<Sys>, steps: seq<Step>, n: NodeId, t: nat)
    returns (run': seq<Sys>, steps': seq<Step>, x': Node)
    requires IsRun(env, run, steps) && n in run[|run| - 1].nodes
    requires var x := run[|run| - 1].nodes[n];
             && t in x.tasks && x.tasks[t].BuildWriting?
             && t in x.cat.writers && x.cat.writers[t] == CS.Finished(x.tasks[t].w, true)
    ensures IsRun(env, run', steps') && |run'| == |run| + 1 && run <= run'
    ensures var s := run[|run| - 1];
            var x := s.nodes[n];
            && run'[|run|] == s.(nodes := s.nodes[n := x'])
            && x' == x.(core := x'.core, tasks := x.tasks - {t}) && x'.core.current.Some?
            && var w := x.tasks[t].w;
               x'.core.current.value == StoredSnapshot(SnapshotMeta(Some(LabelOf(w.key)), NoMembership, w.id), w.data)
  {
    var x := run[|run| - 1].nodes[n];
    var w := x.tasks[t].w;
    x' := x.(core := Advertised(x.core, LabelOf(w.key), NoMembership, w.id, w.data), tasks := x.tasks - {t});
    run', steps' := RunExtends(env, run, steps, n, NodeStep.Advertise(t, NoMembership), x');
  }

  // ----- ahead of its label -----

  /** The replica's part of the story: trigger, increment, freeze. */
  lemma LateFreeze(env: Env, trigger: Entry, add: Entry, data: Bytes)
    returns (a1: NodeStep, x1: Node, a2: NodeStep, x2: Node, x3: Node)
    requires env.Valid() && env.offload && 0 in env.standbys
    requires IsTrigger(trigger) && CmdOf(env.codec, add) == Some(Cmd(7, 5))
    requires Holds(env.codec, data, GroupState(5, {7}))
    ensures NodeNext(env, [trigger, add], {}, 0, NewNode, a1, x1)
    ensures NodeNext(env, [trigger, add], {}, 0, x1, a2, x2)
    ensures NodeNext(env, [trigger, add], {}, 0, x2, NodeStep.Freeze(0, data), x3)
    ensures 0 in x3.tasks && x3.tasks[0] == Frozen(trigger.id, data)
  {
    var log := [trigger, add];
    a1, x1 := FeedOne(env, log, 0, NewNode, map[0 := Spawned(trigger.id)]);
    assert NewNode.core.fsm.View(env.group) == Empty;
    a2, x2 := FeedOne(env, log, 0, x1, map[]);
    assert x2.core.fsm.View(env.group) == GroupState(5, {7});
    x3 := x2.(tasks := x2.tasks[0 := Frozen(trigger.id, data)]);
  }

  /**
    A snapshot really can be ahead of its label: a trigger is applied, an increment follows, and
    only then does the task get the lock. The frozen bytes do not hold the state at the label.
   */
  lemma SnapshotCanBeAheadOfItsLabel(env: Env, trigger: Entry, add: Entry, data: Bytes)
    returns (run: seq<Sys>, steps: seq<Step>)
    requires env.Valid() && env.offload && 0 in env.standbys
    requires IsTrigger(trigger) && trigger.id.index == 0
    requires CmdOf(env.codec, add) == Some(Cmd(7, 5)) && add.id.index == 1
    requires Holds(env.codec, data, GroupState(5, {7}))
    ensures IsRun(env, run, steps)
    ensures var s := run[|run| - 1];
            && 0 in s.nodes && 0 in s.nodes[0].tasks && s.nodes[0].tasks[0] == Frozen(trigger.id, data)
            && 1 <= |s.log| && !Holds(env.codec, data, StateAt(env.codec, s.log, 1))
  {
    run, steps := Commits(env, map[0 := NewNode], [trigger, add]);
    var a1, x1, a2, x2, x3 := LateFreeze(env, trigger, add, data);
    run, steps := RunExtends(env, run, steps, 0, a1, x1);
    run, steps := RunExtends(env, run, steps, 0, a2, x2);
    run, steps := RunExtends(env, run, steps, 0, NodeStep.Freeze(0, data), x3);
    TriggerLeavesEmpty(env, [trigger, add]);
  }

  lemma TriggerLeavesEmpty(env: Env, log: seq<Entry>)
    requires |log| >= 1 && IsTrigger(log[0])
    ensures StateAt(env.codec, log, 1) == Empty
  {
    var first := log[..1];
    calc {
      Replay(env.codec, Empty, first);
      Effect(env.codec, Replay(env.codec, Empty, first[..|first| - 1]), first[|first| - 1]);
      { assert first[..|first| - 1] == []; }
      Effect(env.codec, Empty, log[0]);
      Empty;
    }
  }


  // ----- an older build advertised last -----

  /** A standby is fed a trigger and freezes at once; bytes that hold its state go with the label. */
  lemma FeedAndFreeze(env: Env, run: seq<Sys>, steps: seq<Step>, t: nat, data: Bytes)
    returns (run': seq<Sys>, steps': seq<Step>, x': Node)
    requires IsRun(env, run, steps) && env.offload && 0 in env.standbys && 0 in run[|run| - 1].nodes
    requires var s := run[|run| - 1];
             var x := s.nodes[0];
             && s.msgs == {} && x.delivered < |s.log| && IsTrigger(s.log[x.delivered]) && t !in x.tasks
             && Holds(env.codec, data, x.core.fsm.View(env.group))
    ensures IsRun(env, run', steps')
    ensures var s := run[|run| - 1];
            var x := s.nodes[0];
            && run'[|run'| - 1] == s.(nodes := s.nodes[0 := x'])
            && x'.delivered == x.delivered + 1 && x'.cat == x.cat
            && x'.tasks == x.tasks[t := Frozen(s.log[x.delivered].id, data)]
            && x'.core.fsm.View(env.group) == x.core.fsm.View(env.group)
  {
    var s := run[|run| - 1];
    var x := s.nodes[0];
    var id := s.log[x.delivered].id;
    var a, x1 := FeedOne(env, s.log, 0, x, map[t := Spawned(id)]);
    run', steps' := RunExtends(env, run, steps, 0, a, x1);
    assert t in x1.tasks && x1.tasks[t] == Spawned(id);
    x' := x1.(tasks := x1.tasks[t := Frozen(id, data)]);
    run', steps' := RunExtends(env, run', steps', 0, NodeStep.Freeze(t, data), x');
    assert x'.tasks == x.tasks[t := Frozen(id, data)];
    assert s.nodes[0 := x1][0 := x'] == s.nodes[0 := x'];
  }

  lemma TwoFrozen(env: Env, a: Entry, b: Entry, data: Bytes) returns (run: seq<Sys>, steps: seq<Step>, x: Node)
    requires env.Valid() && env.offload && 0 in env.standbys && Holds(env.codec, data, Empty)
    requires IsTrigger(a) && IsTrigger(b) && a.id.index == 0 && b.id.index == 1
    ensures IsRun(env, run, steps) && run[|run| - 1] == Sys([a, b], map[0 := x], {}, map[])
    ensures x.cat == CS.Initial && x.tasks == map[0 := Frozen(a.id, data), 1 := Frozen(b.id, data)]
  {
    run, steps := Commits(env, map[0 := NewNode], [a, b]);
    assert NewNode.core.fsm.View(env.group) == Empty;
    run, steps, x := FeedAndFreeze(env, run, steps, 0, data);
    run, steps, x := FeedAndFreeze(env, run, steps, 1, data);
  }

  /** Both builds then write their snapshots, the older first. */
  lemma TwoWritten(env: Env, a: Entry, b: Entry, data: Bytes) returns (run: seq<Sys>, steps: seq<Step>, x: Node)
    requires env.Valid() && env.offload && 0 in env.standbys && Holds(env.codec, data, Empty)
    requires IsTrigger(a) && IsTrigger(b) && a.id.index == 0 && b.id.index == 1
    ensures IsRun(env, run, steps) && run[|run| - 1] == Sys([a, b], map[0 := x], {}, map[])
    ensures var v, w := BuildWrite(a.id, data), BuildWrite(b.id, data);
            && x.tasks == map[0 := BuildWriting(v), 1 := BuildWriting(w)]
            && x.cat.writers == map[0 := CS.Finished(v, true), 1 := CS.Finished(w, true)]
  {
    run, steps, x := TwoFrozen(env, a, b, data);
    var cat;
    run, steps, cat := BuildWrites(env, run, steps, 0, 0);
    x := run[|run| - 1].nodes[0];
    run, steps, cat := BuildWrites(env, run, steps, 0, 1);
    x := run[|run| - 1].nodes[0];
  }

  /**
    Builds may finish out of order. In this run the newer label is advertised first and the older
    one replaces it, so `current_snapshot` goes back.
   */
  lemma CurrentCanGoBack(env: Env, a: Entry, b: Entry, data: Bytes) returns (run: seq<Sys>, steps: seq<Step>)
    requires env.Valid() && env.offload && 0 in env.standbys && Holds(env.codec, data, Empty)
    requires IsTrigger(a) && IsTrigger(b) && a.id.index == 0 && b.id.index == 1
    ensures IsRun(env, run, steps) && |run| >= 2
    ensures var s, s' := run[|run| - 2], run[|run| - 1];
            && 0 in s.nodes && s.nodes[0].core.current.Some?
            && s.nodes[0].core.current.value.meta.lastLogId == Some(b.id)
            && 0 in s'.nodes && s'.nodes[0].core.current.Some?
            && s'.nodes[0].core.current.value.meta.lastLogId == Some(a.id)
  {
    var x;
    run, steps, x := TwoWritten(env, a, b, data);
    run, steps, x := Advertises(env, run, steps, 0, 1);
    run, steps, x := Advertises(env, run, steps, 0, 0);
  }

  // ----- an install that never reached the catalog -----

  /** A standby builds one snapshot, advertises and serves it; another node exists. */
  lemma OneServed(env: Env, a: Entry, data: Bytes) returns (run: seq<Sys>, steps: seq<Step>, x: Node, m: StoredSnapshot)
    requires env.Valid() && env.offload && 0 in env.standbys && Holds(env.codec, data, Empty)
    requires IsTrigger(a) && a.id.index == 0
    ensures IsRun(env, run, steps) && run[|run| - 1] == Sys([a], map[0 := x, 1 := NewNode], {m}, map[])
    ensures m == StoredSnapshot(SnapshotMeta(Some(a.id), NoMembership, Name(KeyOf(a.id))), data)
  {
    var nodes := map[0 := NewNode, 1 := NewNode];
    run, steps := Commits(env, nodes, [a]);
    assert NewNode.core.fsm.View(env.group) == Empty;
    run, steps, x := FeedAndFreeze(env, run, steps, 0, data);
    var cat;
    run, steps, cat := BuildWrites(env, run, steps, 0, 0);
    run, steps, x := Advertises(env, run, steps, 0, 0);
    m := x.core.current.value;
    var s := run[|run| - 1];
    assert s.nodes == map[0 := x, 1 := NewNode];
    var s' := s.(msgs := s.msgs + {m});
    assert Next(env, s, Serve(0), s');
    run, steps := run + [s'], steps + [Serve(0)];
  }

  /** The other node installs it in memory, and the catalog write fails before its meta file. */
  lemma InstallFails(env: Env, log: seq<Entry>, m: StoredSnapshot) returns (acts: seq<NodeStep>, xs: seq<Node>)
    requires env.Valid() && env.offload && m.meta.lastLogId.Some? && env.codec.decodeSnap(m.data).Some?
    ensures |acts| == 4 && |xs| == 5 && xs[0] == NewNode
    ensures forall i :: 0 <= i < 4 ==> NodeNext(env, log, {m}, 1, xs[i], acts[i], xs[i + 1])
    ensures xs[4].core.current == Some(m) && xs[4].tasks == map[0 := InstallFailed(InstallWrite(m))]
    ensures xs[4].cat.dirs == map[Name(InstallWrite(m).key) := Dir(None, None)]
  {
    var w := InstallWrite(m);
    var c1 := CS.Begun(CS.Initial, 0, w);
    var c2 := c1.(writers := c1.writers[0 := CS.Finished(w, false)]);
    var core := Installed(env.codec, env.group, NewCore, m);
    var x1 := Node(core, Count(m.meta.lastLogId), CS.Initial, map[0 := InstallPending(w)]);
    var x2 := x1.(cat := c1, tasks := map[0 := InstallWriting(w)]);
    var x3 := x2.(cat := c2);
    var x4 := x3.(tasks := map[0 := InstallFailed(w)]);
    acts := [NodeStep.Install(0, m), NodeStep.BeginInstallWrite(0),
             NodeStep.CatalogStep(CS.Fail(0)), NodeStep.EndInstall(0)];
    xs := [NewNode, x1, x2, x3, x4];
    assert NodeNext(env, log, {m}, 1, NewNode, acts[0], x1);
    assert CS.Next(env.Catalog(), CS.Initial, CS.Begin(0, w), c1);
    assert NodeNext(env, log, {m}, 1, x1, acts[1], x2);
    assert CS.Next(env.Catalog(), c1, CS.Fail(0), c2);
    assert NodeNext(env, log, {m}, 1, x2, acts[2], x3);
    assert NodeNext(env, log, {m}, 1, x3, acts[3], x4);
  }

  /**
    When the catalog write of an install fails, memory has already been replaced: the node
    advertises a label its catalog, which lists without error, has never held.
   */
  lemma InstalledCanMissCatalog(env: Env, a: Entry, data: Bytes) returns (run: seq<Sys>, steps: seq<Step>)
    requires env.Valid() && env.offload && 0 in env.standbys && Holds(env.codec, data, Empty)
    requires IsTrigger(a) && a.id.index == 0
    ensures IsRun(env, run, steps)
    ensures var s := run[|run| - 1];
            && 1 in s.nodes
            && var x := s.nodes[1];
            && x.core.current.Some? && x.core.current.value.meta.lastLogId == Some(a.id)
            && !AnyTorn(x.cat.dirs) && !LatestReaches(x.cat.dirs, KeyOf(a.id))
  {
    var x, m;
    run, steps, x, m := OneServed(env, a, data);
    var acts, xs := InstallFails(env, [a], m);
    for i := 0 to 4
      invariant IsRun(env, run, steps)
      invariant run[|run| - 1] == Sys([a], map[0 := x, 1 := xs[i]], {m}, map[])
    {
      var s := run[|run| - 1];
      run, steps := RunExtends(env, run, steps, 1, acts[i], xs[i + 1]);
      assert s.nodes[1 := xs[i + 1]] == map[0 := x, 1 := xs[i + 1]];
    }
  }
}
