/** What the standby snapshot protocol guarantees in every run, under any interleaving. */
module StandbyTheorems {
  import opened Types
  import opened Names
  import opened TopKeep
  import opened Counter
  import opened Bridge
  import opened Catalog
  import opened Standby
  import StandbyProof
  import CS = CatalogSteps

  ghost predicate IsRun(env: Env, run: seq<Sys>, steps: seq<Step>) {
    && env.Valid()
    && |run| == |steps| + 1
    && Init(run[0])
    && forall i :: 0 <= i < |steps| ==> Next(env, run[i], steps[i], run[i + 1])
  }

  lemma InitOk(env: Env, s: Sys)
    requires Init(s)
    ensures Inv(env, s)
  {
    assert HoldsLog(env, s.log, NewNode, 0);
  }

  lemma {:induction false} RunKeepsInv(env: Env, run: seq<Sys>, steps: seq<Step>, i: nat)
    requires IsRun(env, run, steps) && i < |run|
    ensures Inv(env, run[i])
  {
    if i == 0 {
      InitOk(env, run[0]);
    } else {
      RunKeepsInv(env, run, steps, i - 1);
      StandbyProof.StepKeepsInv(env, run[i - 1], steps[i - 1], run[i]);
    }
  }

  lemma {:induction false} LogGrows(env: Env, run: seq<Sys>, steps: seq<Step>, i: nat, j: nat)
    requires IsRun(env, run, steps) && i <= j < |run|
    ensures run[i].log <= run[j].log
  {
    if i < j {
      LogGrows(env, run, steps, i, j - 1);
      assert Next(env, run[j - 1], steps[j - 1], run[j]);
    }
  }

  /**
    Snapshot coverage. Whatever a replica advertises, whatever is in flight and whatever a
    catalog read can return holds the state of a committed prefix at least as long as its label.
   */
  lemma SnapshotCoverage(env: Env, run: seq<Sys>, steps: seq<Step>, i: nat)
    requires IsRun(env, run, steps) && i < |run|
    ensures var s := run[i];
            && (forall m :: m in s.msgs ==> Covers(env, s.log, Count(m.meta.lastLogId), m.data))
            && (forall n :: n in s.nodes && s.nodes[n].core.current.Some? ==>
                  var m := s.nodes[n].core.current.value;
                  Covers(env, s.log, Count(m.meta.lastLogId), m.data))
            && (forall n, dir, id, data :: n in s.nodes && Yields(env.hash, s.nodes[n].cat.dirs, dir, id, data) ==>
                  var key := MetaAt(s.nodes[n].cat.dirs, dir).key;
                  IsLabel(s.log, LabelOf(key)) && Covers(env, s.log, key.index + 1, data))
  {
    RunKeepsInv(env, run, steps, i);
    var s := run[i];
    forall n, dir, id, data | n in s.nodes && Yields(env.hash, s.nodes[n].cat.dirs, dir, id, data)
      ensures var key := MetaAt(s.nodes[n].cat.dirs, dir).key;
              IsLabel(s.log, LabelOf(key)) && Covers(env, s.log, key.index + 1, data)
    {
      var w := CS.ReadReturnsTheAuthorsBytes(env.Catalog(), s.nodes[n].cat, dir, id, data);
      assert WriteOk(env, s.log, w);
    }
  }

  /** Covering bytes, restored into any state machine and fed the log after the label, catch up. */
  lemma CoveringBytesRecover(env: Env, log: seq<Entry>, later: seq<Entry>, c: nat, data: Bytes, f: Fsm)
    requires Covers(env, log, c, data) && log <= later
    ensures env.codec.decodeSnap(data).Some? && c <= |later|
    ensures var restored := Restored(f, env.group, env.codec.decodeSnap(data).value);
            var r := FsmReplay(env.codec, restored, env.group, later[c..]);
            && r.View(env.group) == StateAt(env.codec, later, |later|)
            && SameElsewhere(r, f, env.group)
  {
    var j :| c <= j && HoldsPrefix(env, log, data, j);
    assert later == log + later[|log|..];
    StateAtPrefix(env.codec, log, later[|log|..], j);
    var s := StateAt(env.codec, later, j);
    RestoreRecovers(env.codec, f, env.group, data, s);
    var g := Restored(f, env.group, env.codec.decodeSnap(data).value);
    FsmReplayIsLocal(env.codec, g, env.group, later[c..]);
    assert later[c..|later|] == later[c..];
    ReplayAbsorbs(env.codec, later, c, j, |later|);
  }

  /**
    End-to-end recovery. A replica that at any later time installs any snapshot ever served and
    is then given every committed entry after its label ends in the state of one that applied
    the whole log, although the snapshot may be ahead of its label.
   */
  lemma AnyServedSnapshotRecovers(env: Env, run: seq<Sys>, steps: seq<Step>, i: nat, j: nat, m: StoredSnapshot, f: Fsm)
    requires IsRun(env, run, steps) && i <= j < |run| && m in run[i].msgs
    ensures var log := run[j].log;
            var c := Count(m.meta.lastLogId);
            && c <= |log| && env.codec.decodeSnap(m.data).Some?
            && var restored := Restored(f, env.group, env.codec.decodeSnap(m.data).value);
            && var r := FsmReplay(env.codec, restored, env.group, log[c..]);
            && r.View(env.group) == StateAt(env.codec, log, |log|)
            && SameElsewhere(r, f, env.group)
  {
    SnapshotCoverage(env, run, steps, i);
    LogGrows(env, run, steps, i, j);
    CoveringBytesRecover(env, run[i].log, run[j].log, Count(m.meta.lastLogId), m.data, f);
  }

  /** A replica that has been fed the whole log, or says it applied it, is in the log's state. */
  lemma CaughtUpReplicaIsExact(env: Env, run: seq<Sys>, steps: seq<Step>, i: nat, n: NodeId)
    requires IsRun(env, run, steps) && i < |run| && n in run[i].nodes
    requires var x := run[i].nodes[n];
             x.delivered == |run[i].log| || Count(x.core.lastApplied) == |run[i].log|
    ensures run[i].nodes[n].core.fsm.View(env.group) == StateAt(env.codec, run[i].log, |run[i].log|)
  {
    var j := ReplicaHoldsPrefix(env, run, steps, i, n);
  }

  /** At every moment a replica's state machine holds a committed prefix, no shorter than it reports. */
  lemma ReplicaHoldsPrefix(env: Env, run: seq<Sys>, steps: seq<Step>, i: nat, n: NodeId) returns (j: nat)
    requires IsRun(env, run, steps) && i < |run| && n in run[i].nodes
    ensures HoldsLog(env, run[i].log, run[i].nodes[n], j)
  {
    RunKeepsInv(env, run, steps, i);
    j :| HoldsLog(env, run[i].log, run[i].nodes[n], j);
  }

  /**
    What a replica reports as applied. At every moment of every run it is no less than what openraft
    fed it and no more than what is committed, and it names a committed entry, whether batches
    finished, broke off or were rejected.
   */
  lemma AppliedIsReported(env: Env, run: seq<Sys>, steps: seq<Step>, i: nat, n: NodeId)
    requires IsRun(env, run, steps) && i < |run| && n in run[i].nodes
    ensures var x := run[i].nodes[n];
            && x.delivered <= Count(x.core.lastApplied) <= |run[i].log|
            && (x.core.lastApplied.Some? ==> run[i].log[x.core.lastApplied.value.index].id == x.core.lastApplied.value)
  {
    RunKeepsInv(env, run, steps, i);
    var j :| HoldsLog(env, run[i].log, run[i].nodes[n], j);
  }

  /** After an install of either kind the node reports the snapshot's label as applied and serves it. */
  lemma InstallIsReported(env: Env, run: seq<Sys>, steps: seq<Step>, i: nat)
    requires IsRun(env, run, steps) && i < |steps|
    requires steps[i].Do? && (steps[i].a.Install? || steps[i].a.InstallDurable?)
    ensures var s := steps[i].a.s;
            && steps[i].n in run[i + 1].nodes
            && var x := run[i + 1].nodes[steps[i].n];
            && x.core.lastApplied == s.meta.lastLogId
            && x.core.current.Some? && x.core.current.value.data == s.data
            && x.core.current.value.meta.lastLogId == s.meta.lastLogId
            && Holds(env.codec, s.data, x.core.fsm.View(env.group))
  {
    assert Next(env, run[i], steps[i], run[i + 1]);
  }

  /** The catalog can be listed and its latest key is at least this one. */
  ghost predicate LatestReaches(d: Dirs, key: Key) {
    !AnyTorn(d) && exists dir :: IsLatest(d, dir) && !MetaAt(d, dir).key.Less(key)
  }

  /**
    Builds may finish in any order and move `current_snapshot` backwards. The catalog keeps up
    with it exactly when it can be listed and some write of that key or a greater one got its
    files through. Only an install of that very snapshot, unfinished or failed, leaves this open.
   */
  lemma CatalogKeepsUpWithCurrent(env: Env, run: seq<Sys>, steps: seq<Step>, i: nat, n: NodeId)
    requires IsRun(env, run, steps) && i < |run| && n in run[i].nodes && env.offload
    requires run[i].nodes[n].core.current.Some?
    ensures var x := run[i].nodes[n];
            && x.core.current.value.meta.lastLogId.Some?
            && var key := KeyOf(x.core.current.value.meta.lastLogId.value);
            && (LatestReaches(x.cat.dirs, key) <==>
                  !AnyTorn(x.cat.dirs) && exists k :: k in x.cat.written && !k.Less(key))
            && ((forall t :: t in x.tasks ==> !IsInstallOf(x.tasks[t], key)) ==> key in x.cat.written)
  {
    RunKeepsInv(env, run, steps, i);
    var x := run[i].nodes[n];
    var key := KeyOf(x.core.current.value.meta.lastLogId.value);
    if !AnyTorn(x.cat.dirs) {
      LatestReachesExactly(env.Catalog(), x.cat, key);
    }
  }

  lemma LatestReachesExactly(c: CS.Config, s: CS.State, key: Key)
    requires c.Valid() && CS.Inv(c, s) && !AnyTorn(s.dirs)
    ensures LatestReaches(s.dirs, key) <==> exists k :: k in s.written && !k.Less(key)
  {
    if k :| k in s.written && !k.Less(key) {
      var dir := LatestExists(c, s);
      CS.LatestIsGreatestWritten(c, s, dir, k);
    }
    if dir :| IsLatest(s.dirs, dir) && !MetaAt(s.dirs, dir).key.Less(key) {
      var w :| CS.ProducedBy(c, s, dir, w);
      assert w.key in s.written && !w.key.Less(key);
    }
  }

  lemma LatestExists(c: CS.Config, s: CS.State) returns (dir: string)
    requires c.Valid() && CS.Inv(c, s) && !AnyTorn(s.dirs) && s.written != {}
    ensures IsLatest(s.dirs, dir)
  {
    var m := Greatest(s.written);
    assert Above(s.written, m) == {};
    dir := Name(m);
    assert CS.BothFiles(s, m) && IsComplete(s.dirs, dir);
    var u :| CS.ProducedBy(c, s, dir, u);
    NameIsInjective(u.key, m);
    forall n | IsComplete(s.dirs, n) && n != dir ensures MetaAt(s.dirs, n).key.Less(m) {
      var w :| CS.ProducedBy(c, s, n, w);
    }
  }

  /** In an offload cluster every snapshot in flight or advertised carries the name of its label. */
  lemma SnapshotsAreNamedAfterLabels(env: Env, run: seq<Sys>, steps: seq<Step>, i: nat)
    requires IsRun(env, run, steps) && i < |run| && env.offload
    ensures forall m :: m in run[i].msgs ==>
              m.meta.lastLogId.Some? && m.meta.id == Name(KeyOf(m.meta.lastLogId.value))
    ensures forall n, dir :: n in run[i].nodes && IsComplete(run[i].nodes[n].cat.dirs, dir) ==>
              MetaAt(run[i].nodes[n].cat.dirs, dir).id == dir == Name(MetaAt(run[i].nodes[n].cat.dirs, dir).key)
  {
    RunKeepsInv(env, run, steps, i);
    forall n, dir | n in run[i].nodes && IsComplete(run[i].nodes[n].cat.dirs, dir)
      ensures MetaAt(run[i].nodes[n].cat.dirs, dir).id == dir == Name(MetaAt(run[i].nodes[n].cat.dirs, dir).key)
    {
      var w :| CS.ProducedBy(env.Catalog(), run[i].nodes[n].cat, dir, w);
      assert WriteOk(env, run[i].log, w);
    }
  }

  /**
    Identifier soundness. In every run of an offload cluster an id picks one directory: whatever
    matches the id of a complete entry, by id or by name, is that entry.
   */
  lemma IdPicksOneEntry(env: Env, run: seq<Sys>, steps: seq<Step>, i: nat, n: NodeId, dir: string, other: string)
    requires IsRun(env, run, steps) && i < |run| && env.offload && n in run[i].nodes
    requires var d := run[i].nodes[n].cat.dirs; IsComplete(d, dir) && Matches(d, other, MetaAt(d, dir).id)
    ensures other == dir
  {
    SnapshotsAreNamedAfterLabels(env, run, steps, i);
  }

  /**
    And so `latest` followed by `read` cannot diverge. Whatever happened since, the only directory
    that matches a pending reader's id is that of the key `latest` gave it, and any bytes with the
    digest found there cover that label.
   */
  lemma FetchPicksItsEntry(env: Env, run: seq<Sys>, steps: seq<Step>, i: nat, r: nat)
    requires IsRun(env, run, steps) && i < |run| && r in run[i].fetches && run[i].fetches[r].node in run[i].nodes
    ensures var f := run[i].fetches[r];
            var d := run[i].nodes[f.node].cat.dirs;
            && f.id == Name(f.key) && IsLabel(run[i].log, LabelOf(f.key))
            && (forall dir :: Matches(d, dir, f.id) ==> dir == Name(f.key) && MetaAt(d, dir).key == f.key)
            && (f.Found? ==>
                  && f.dir == Name(f.key)
                  && forall data :: env.hash(data) == f.sha ==> Covers(env, run[i].log, f.key.index + 1, data))
  {
    RunKeepsInv(env, run, steps, i);
    var f := run[i].fetches[r];
    var x := run[i].nodes[f.node];
    assert FetchOk(env, run[i].log, f);
    forall dir | Matches(x.cat.dirs, dir, f.id) ensures dir == Name(f.key) && MetaAt(x.cat.dirs, dir).key == f.key {
      StandbyProof.FetchFindOk(env, run[i].log, x, f, dir);
    }
  }
}
