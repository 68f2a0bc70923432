/** Every step of the standby snapshot protocol keeps its invariant, one lemma per kind of step. */
module StandbyProof {
  import opened Types
  import opened Names
  import opened Counter
  import opened Bridge
  import opened Catalog
  import opened Standby
  import CS = CatalogSteps

  /** A node step from a good state of the node and of what is in flight. */
  ghost predicate Steps(env: Env, log: seq<Entry>, msgs: set<StoredSnapshot>, n: NodeId, x: Node, a: NodeStep,
                        x': Node)
  {
    && env.Valid()
    && (forall i :: 0 <= i < |log| ==> log[i].id.index == i)
    && (forall m :: m in msgs ==> SnapshotOk(env, log, m))
    && NodeOk(env, log, x)
    && NodeNext(env, log, msgs, n, x, a, x')
  }

  lemma ApplyOk(env: Env, log: seq<Entry>, msgs: set<StoredSnapshot>, n: NodeId, x: Node, a: NodeStep, x': Node)
    requires Steps(env, log, msgs, n, x, a, x') && a.Apply?
    ensures NodeOk(env, log, x')
  {
    ApplyHoldsLog(env, log, msgs, n, x, a, x');
    forall t | t in x'.tasks ensures TaskOk(env, log, x', x'.tasks[t]) {
      ApplyTaskOk(env, log, msgs, n, x, a, x', t);
    }
    assert forall t :: t in x.tasks ==> t in x'.tasks && x'.tasks[t] == x.tasks[t];
  }

  lemma ApplyHoldsLog(env: Env, log: seq<Entry>, msgs: set<StoredSnapshot>, n: NodeId, x: Node, a: NodeStep, x': Node)
    requires Steps(env, log, msgs, n, x, a, x') && a.Apply?
    ensures exists j :: HoldsLog(env, log, x', j)
    ensures x'.delivered <= Count(x'.core.lastApplied)
    ensures x'.core.lastApplied.Some? ==> IsLabel(log, x'.core.lastApplied.value)
  {
    var j :| HoldsLog(env, log, x, j);
    var r := Reached(env.codec, x.delivered, a.items);
    ApplyKeepsPrefix(env.codec, env.group, x.core, log, x.delivered, j, a.items);
    assert HoldsLog(env, log, x', if j <= r then r else j);
  }

  lemma ApplyTaskOk(env: Env, log: seq<Entry>, msgs: set<StoredSnapshot>, n: NodeId, x: Node, a: NodeStep,
                    x': Node, t: nat)
    requires Steps(env, log, msgs, n, x, a, x') && a.Apply? && t in x'.tasks
    ensures TaskOk(env, log, x', x'.tasks[t])
  {
    if t in a.spawned {
      TriggerOk(env.codec, log, x.delivered, a.items, a.spawned[t].upTo);
    } else {
      assert TaskOk(env, log, x, x.tasks[t]);
    }
  }

  /** A trigger of a finished batch is a committed entry the replica has been fed. */
  lemma TriggerOk(codec: Codec, log: seq<Entry>, d: nat, items: seq<Item>, id: LogId)
    requires forall i :: 0 <= i < |log| ==> log[i].id.index == i
    requires Feeds(log, d, items) && Accepted(codec, items) == |items|
    requires id in Triggers(Applied(codec, items))
    ensures IsLabel(log, id) && id.index < d + |items|
  {
    var es := Applied(codec, items);
    var p :| 0 <= p < |es| && IsTrigger(es[p]) && es[p].id == id;
    assert es[p] == items[p].entry == log[d + p];
  }

  /** What is frozen now covers any label the replica was fed before. */
  lemma FreezeCovers(env: Env, log: seq<Entry>, x: Node, c: nat, data: Bytes)
    requires NodeOk(env, log, x) && (c <= x.delivered || c <= Count(x.core.lastApplied))
    requires Holds(env.codec, data, x.core.fsm.View(env.group))
    ensures Covers(env, log, c, data)
  {
    var j :| HoldsLog(env, log, x, j);
    assert HoldsPrefix(env, log, data, j);
  }

  /** Installing covering bytes at or beyond the delivered position keeps the replica on the log. */
  lemma InstallHoldsLog(env: Env, log: seq<Entry>, x: Node, s: StoredSnapshot, x': Node)
    requires SnapshotOk(env, log, s) && x.delivered <= Count(s.meta.lastLogId)
    requires env.codec.decodeSnap(s.data).Some?
    requires x'.core == Installed(env.codec, env.group, x.core, s)
    requires x'.delivered <= Count(s.meta.lastLogId)
    ensures exists j :: HoldsLog(env, log, x', j)
  {
    var j :| Count(s.meta.lastLogId) <= j && HoldsPrefix(env, log, s.data, j);
    RestoreRecovers(env.codec, x.core.fsm, env.group, s.data, StateAt(env.codec, log, j));
    assert HoldsLog(env, log, x', j);
  }

  lemma InstallOk(env: Env, log: seq<Entry>, x: Node, t: nat, s: StoredSnapshot, x': Node)
    requires NodeOk(env, log, x) && SnapshotOk(env, log, s)
    requires t !in x.tasks && env.codec.decodeSnap(s.data).Some?
    requires x.delivered <= x'.delivered <= Count(s.meta.lastLogId)
    requires x' == Node(Installed(env.codec, env.group, x.core, s), x'.delivered, x.cat, WithInstall(env, x, t, s))
    ensures NodeOk(env, log, x')
  {
    InstallHoldsLog(env, log, x, s, x');
    if env.offload {
      var w := InstallWrite(s);
      assert WriteOk(env, log, w);
      assert IsInstallOf(x'.tasks[t], w.key);
    }
    forall u | u in x'.tasks ensures TaskOk(env, log, x', x'.tasks[u]) {
      if u in x.tasks {
        assert TaskOk(env, log, x, x.tasks[u]);
      }
    }
  }

  /** The catalog moved and recorded only writes that are in order. */
  lemma CatalogOk(env: Env, log: seq<Entry>, x: Node, c: CS.Step, cat': CS.State)
    requires NodeOk(env, log, x) && CS.Next(env.Catalog(), x.cat, c, cat')
    requires c.Begin? ==> WriteOk(env, log, c.w)
    ensures CS.Inv(env.Catalog(), cat') && x.cat.written <= cat'.written
    ensures forall w :: w in cat'.begun ==> WriteOk(env, log, w)
  {
    CS.StepKeepsInv(env.Catalog(), x.cat, c, cat');
  }

  /** Changing the catalog and one task, with the label of `current` still backed. */
  lemma OtherTasksOk(env: Env, log: seq<Entry>, x: Node, x': Node, t: nat)
    requires NodeOk(env, log, x)
    requires x'.core == x.core && x'.delivered == x.delivered
    requires CS.Inv(env.Catalog(), x'.cat) && x.cat.written <= x'.cat.written
    requires forall w :: w in x'.cat.begun ==> WriteOk(env, log, w)
    requires x'.tasks - {t} == x.tasks - {t}
    requires t in x'.tasks ==> TaskOk(env, log, x', x'.tasks[t])
    requires t in x.tasks ==>
               forall key :: IsInstallOf(x.tasks[t], key) ==>
                 (t in x'.tasks && IsInstallOf(x'.tasks[t], key)) || key in x'.cat.written
    ensures NodeOk(env, log, x')
  {
    var j :| HoldsLog(env, log, x, j);
    assert HoldsLog(env, log, x', j);
    assert forall u :: u != t ==> (u in x'.tasks <==> u in x.tasks) by {
      forall u | u != t ensures u in x'.tasks <==> u in x.tasks {
        assert u in x'.tasks - {t} <==> u in x.tasks - {t};
      }
    }
    forall u | u in x'.tasks ensures TaskOk(env, log, x', x'.tasks[u]) {
      if u != t {
        assert u in x'.tasks - {t};
        assert (x'.tasks - {t})[u] == (x.tasks - {t})[u];
        assert TaskOk(env, log, x, x.tasks[u]);
      }
    }
    forall u | u in x.tasks && u != t ensures u in x'.tasks && x'.tasks[u] == x.tasks[u] {
      assert (x'.tasks - {t})[u] == (x.tasks - {t})[u];
    }
  }

  lemma FreezeOk(env: Env, log: seq<Entry>, msgs: set<StoredSnapshot>, n: NodeId, x: Node, a: NodeStep, x': Node)
    requires Steps(env, log, msgs, n, x, a, x') && a.Freeze?
    ensures NodeOk(env, log, x')
  {
    assert TaskOk(env, log, x, x.tasks[a.t]);
    FreezeCovers(env, log, x, x.tasks[a.t].upTo.index + 1, a.data);
    OtherTasksOk(env, log, x, x', a.t);
  }

  /** A task's write begins; the task goes on, and if it was an install it still is one. */
  lemma BeginWriteOk(env: Env, log: seq<Entry>, x: Node, t: nat, w: CS.Write, x': Node)
    requires NodeOk(env, log, x) && t in x.tasks && WriteOk(env, log, w)
    requires CS.Next(env.Catalog(), x.cat, CS.Begin(t, w), x'.cat)
    requires x'.core == x.core && x'.delivered == x.delivered
    requires t in x'.tasks && x'.tasks == x.tasks[t := x'.tasks[t]]
    requires x'.tasks[t] == BuildWriting(w) || x'.tasks[t] == InstallWriting(w)
    requires forall key :: IsInstallOf(x.tasks[t], key) ==> IsInstallOf(x'.tasks[t], key)
    ensures NodeOk(env, log, x')
  {
    CatalogOk(env, log, x, CS.Begin(t, w), x'.cat);
    OtherTasksOk(env, log, x, x', t);
  }

  lemma CatalogStepOk(env: Env, log: seq<Entry>, msgs: set<StoredSnapshot>, n: NodeId, x: Node, a: NodeStep, x': Node)
    requires Steps(env, log, msgs, n, x, a, x') && a.CatalogStep?
    ensures NodeOk(env, log, x')
  {
    CatalogOk(env, log, x, a.c, x'.cat);
    var j :| HoldsLog(env, log, x, j);
    assert HoldsLog(env, log, x', j);
    forall u | u in x'.tasks ensures TaskOk(env, log, x', x'.tasks[u]) {
      assert TaskOk(env, log, x, x.tasks[u]);
    }
  }

  lemma HotBuildOk(env: Env, log: seq<Entry>, msgs: set<StoredSnapshot>, n: NodeId, x: Node, a: NodeStep, x': Node)
    requires Steps(env, log, msgs, n, x, a, x') && a.HotBuild?
    ensures NodeOk(env, log, x')
  {
    FreezeCovers(env, log, x, Count(x.core.lastApplied), a.data);
    var j :| HoldsLog(env, log, x, j);
    assert HoldsLog(env, log, x', j);
    forall u | u in x'.tasks ensures TaskOk(env, log, x', x'.tasks[u]) {
      assert TaskOk(env, log, x, x.tasks[u]);
    }
  }

  lemma TaskEndOk(env: Env, log: seq<Entry>, msgs: set<StoredSnapshot>, n: NodeId, x: Node, a: NodeStep, x': Node)
    requires Steps(env, log, msgs, n, x, a, x') && (a.DropBuild? || a.EndInstall?)
    ensures NodeOk(env, log, x')
  {
    assert TaskOk(env, log, x, x.tasks[a.t]);
    OtherTasksOk(env, log, x, x', a.t);
  }

  lemma NodeStepOk(env: Env, log: seq<Entry>, msgs: set<StoredSnapshot>, n: NodeId, x: Node, a: NodeStep, x': Node)
    requires Steps(env, log, msgs, n, x, a, x')
    ensures NodeOk(env, log, x')
  {
    match a {
      case Apply(_, _) => ApplyOk(env, log, msgs, n, x, a, x');
      case Freeze(_, _) => FreezeOk(env, log, msgs, n, x, a, x');
      case BeginBuildWrite(t) =>
        assert TaskOk(env, log, x, x.tasks[t]);
        BeginWriteOk(env, log, x, t, BuildWrite(x.tasks[t].upTo, x.tasks[t].data), x');
      case CatalogStep(_) => CatalogStepOk(env, log, msgs, n, x, a, x');
      case Advertise(_, _) => AdvertiseOk(env, log, msgs, n, x, a, x');
      case DropBuild(_) => TaskEndOk(env, log, msgs, n, x, a, x');
      case HotBuild(_, _) => HotBuildOk(env, log, msgs, n, x, a, x');
      case Install(t, s) => InstallOk(env, log, x, t, s, x');
      case InstallDurable(t, s) => InstallOk(env, log, x, t, Durable(s), x');
      case BeginInstallWrite(t) =>
        assert TaskOk(env, log, x, x.tasks[t]);
        BeginWriteOk(env, log, x, t, x.tasks[t].w, x');
      case EndInstall(_) => TaskEndOk(env, log, msgs, n, x, a, x');
      case Restart => RestartOk(env, log, x, x');
    }
  }

  lemma AdvertiseOk(env: Env, log: seq<Entry>, msgs: set<StoredSnapshot>, n: NodeId, x: Node, a: NodeStep, x': Node)
    requires Steps(env, log, msgs, n, x, a, x') && a.Advertise?
    ensures NodeOk(env, log, x')
  {
    var w := x.tasks[a.t].w;
    assert TaskOk(env, log, x, x.tasks[a.t]);
    assert w.key in x.cat.written;
    var j :| HoldsLog(env, log, x, j);
    assert HoldsLog(env, log, x', j);
    forall u | u in x'.tasks ensures TaskOk(env, log, x', x'.tasks[u]) {
      assert TaskOk(env, log, x, x.tasks[u]);
    }
  }

  lemma RestartOk(env: Env, log: seq<Entry>, x: Node, x': Node)
    requires NodeOk(env, log, x) && x' == Node(NewCore, 0, x.cat.(writers := map[]), map[])
    ensures NodeOk(env, log, x')
  {
    CS.StepKeepsInv(env.Catalog(), x.cat, CS.Crash, x'.cat);
    assert log[..0] == [];
    assert HoldsLog(env, log, x', 0);
  }

  lemma FetchLatestOk(env: Env, log: seq<Entry>, x: Node, dir: string)
    requires env.Valid() && NodeOk(env, log, x) && IsComplete(x.cat.dirs, dir)
    ensures forall n :: FetchOk(env, log, Latest(n, MetaAt(x.cat.dirs, dir).key, MetaAt(x.cat.dirs, dir).id))
  {
    var w :| CS.ProducedBy(env.Catalog(), x.cat, dir, w);
    assert WriteOk(env, log, w);
  }

  /** The entry an id finds is the label's own, and its digest is that of bytes that cover it. */
  lemma FetchFindOk(env: Env, log: seq<Entry>, x: Node, f: Fetch, dir: string)
    requires env.Valid() && NodeOk(env, log, x) && FetchOk(env, log, f) && Matches(x.cat.dirs, dir, f.id)
    ensures FetchOk(env, log, Found(f.node, f.key, f.id, dir, MetaAt(x.cat.dirs, dir).sha))
    ensures dir == Name(f.key) && MetaAt(x.cat.dirs, dir).key == f.key
  {
    var w :| CS.ProducedBy(env.Catalog(), x.cat, dir, w);
    assert WriteOk(env, log, w);
    NameIsInjective(w.key, f.key);
    forall data | env.hash(data) == env.hash(w.data) ensures Covers(env, log, f.key.index + 1, data) {
      assert data == w.data;
    }
  }

  lemma FetchKeepsInv(env: Env, s: Sys, a: Step, s': Sys)
    requires env.Valid() && Inv(env, s) && Next(env, s, a, s') && (a.FetchLatest? || a.FetchFind?)
    ensures Inv(env, s')
  {
    if a.FetchLatest? {
      FetchLatestOk(env, s.log, s.nodes[a.n], a.dir);
    } else {
      FetchFindOk(env, s.log, s.nodes[s.fetches[a.r].node], s.fetches[a.r], a.dir);
    }
  }

  lemma ReadKeepsInv(env: Env, s: Sys, r: nat, data: Bytes, s': Sys)
    requires Inv(env, s) && Next(env, s, FetchRead(r, data), s')
    ensures Inv(env, s')
  {
    var f := s.fetches[r];
    assert FetchOk(env, s.log, f);
    assert SnapshotOk(env, s.log, StoredSnapshot(SnapshotMeta(Some(LabelOf(f.key)), NoMembership, f.id), data));
  }

  lemma DoKeepsInv(env: Env, s: Sys, n: NodeId, a: NodeStep, s': Sys)
    requires env.Valid() && Inv(env, s) && Next(env, s, Do(n, a), s')
    ensures Inv(env, s')
  {
    NodeStepOk(env, s.log, s.msgs, n, s.nodes[n], a, s'.nodes[n]);
  }

  lemma StepKeepsInv(env: Env, s: Sys, a: Step, s': Sys)
    requires env.Valid() && Inv(env, s) && Next(env, s, a, s')
    ensures Inv(env, s')
  {
    match a {
      case Commit(e) => CommitKeepsInv(env, s, e, s');
      case Do(n, na) => DoKeepsInv(env, s, n, na, s');
      case Serve(n) =>
      case FetchLatest(_, _, _) => FetchKeepsInv(env, s, a, s');
      case FetchFind(_, _) => FetchKeepsInv(env, s, a, s');
      case FetchRead(r, data) => ReadKeepsInv(env, s, r, data, s');
    }
  }
}
