/**
  Many replicas of one group over one growing committed log, with asynchronous standby
  snapshots. Steps are the critical sections of crates/multiraft-store/src/sm_bridge.rs and of
  the trigger task in crates/multiraft-net/src/multiraft.rs; anything may happen in between.
 */
module Standby {
  import opened Types
  import opened Names
  import opened Counter
  import opened Bridge
  import opened Catalog
  import CS = CatalogSteps

  /** `offload` is the cluster's snapshot mode; `standbys` are the nodes that react to triggers. */
  datatype Env = Env(
    codec: Codec,
    group: GroupId,
    offload: bool,
    standbys: set<NodeId>,
    keep: nat,
    hash: Bytes -> Digest)
  {
    function Catalog(): CS.Config {
      CS.Config(group, keep, hash)
    }

    ghost predicate Valid() {
      codec.Lawful() && Catalog().Valid()
    }
  }

  /** A spawned build, or the second half of an install, between its lock regions. */
  datatype Task =
    | Spawned(upTo: LogId)
    | Frozen(upTo: LogId, data: Bytes)
    | BuildWriting(w: CS.Write)
    | InstallPending(w: CS.Write)
    | InstallWriting(w: CS.Write)
    | InstallFailed(w: CS.Write)

  /** `delivered` is how far openraft has fed this replica; a durable install does not move it. */
  datatype Node = Node(core: Core, delivered: nat, cat: CS.State, tasks: map<nat, Task>)

  const NewNode := Node(NewCore, 0, CS.Initial, map[])

  /** A reader between the entry `latest` gave it, the entry found by id, and that entry's bytes. */
  datatype Fetch =
    | Latest(node: NodeId, key: Key, id: string)
    | Found(node: NodeId, key: Key, id: string, dir: string, sha: Digest)

  datatype Sys = Sys(log: seq<Entry>, nodes: map<NodeId, Node>, msgs: set<StoredSnapshot>, fetches: map<nat, Fetch>)

  datatype NodeStep =
    | Apply(items: seq<Item>, spawned: map<nat, Task>)
    | Freeze(t: nat, data: Bytes)
    | BeginBuildWrite(t: nat)
    | CatalogStep(c: CS.Step)
    | Advertise(t: nat, membership: StoredMembership)
    | DropBuild(t: nat)
    | HotBuild(id: string, data: Bytes)
    | Install(t: nat, s: StoredSnapshot)
    | InstallDurable(t: nat, s: StoredSnapshot)
    | BeginInstallWrite(t: nat)
    | EndInstall(t: nat)
    | Restart

  datatype Step =
    | Commit(e: Entry)
    | Do(n: NodeId, a: NodeStep)
    | Serve(n: NodeId)
    | FetchLatest(r: nat, n: NodeId, dir: string)
    | FetchFind(r: nat, dir: string)
    | FetchRead(r: nat, data: Bytes)

  // ----- node steps -----

  function BuildWrite(upTo: LogId, data: Bytes): CS.Write {
    CS.Write(KeyOf(upTo), Name(KeyOf(upTo)), data)
  }

  function InstallWrite(s: StoredSnapshot): CS.Write {
    CS.Write(CatalogKey(s.meta), s.meta.id, s.data)
  }

  function WithInstall(env: Env, x: Node, t: nat, s: StoredSnapshot): map<nat, Task> {
    if env.offload then x.tasks[t := InstallPending(InstallWrite(s))] else x.tasks
  }

  /** The durable path renames the snapshot after its label and forgets the membership. */
  function Durable(s: StoredSnapshot): StoredSnapshot
    requires s.meta.lastLogId.Some?
  {
    StoredSnapshot(SnapshotMeta(s.meta.lastLogId, NoMembership, Name(KeyOf(s.meta.lastLogId.value))), s.data)
  }

  ghost predicate NodeNext(env: Env, log: seq<Entry>, msgs: set<StoredSnapshot>, n: NodeId, x: Node, a: NodeStep,
                           x': Node)
  {
    match a
    case Apply(items, spawned) =>
      var done := Accepted(env.codec, items) == |items|;
      && Feeds(log, x.delivered, items)
      && (if done then x'.delivered == x.delivered + |items|
          else x.delivered <= x'.delivered <= Reached(env.codec, x.delivered, items))
      && (forall t :: t in spawned ==>
            && t !in x.tasks && done && env.offload && n in env.standbys
            && spawned[t].Spawned? && spawned[t].upTo in Triggers(Applied(env.codec, items)))
      && x' == Node(AfterApply(env.codec, env.group, x.core, items), x'.delivered, x.cat, x.tasks + spawned)
    case Freeze(t, data) =>
      && t in x.tasks && x.tasks[t].Spawned?
      && Holds(env.codec, data, x.core.fsm.View(env.group))
      && x' == x.(tasks := x.tasks[t := Frozen(x.tasks[t].upTo, data)])
    case BeginBuildWrite(t) =>
      && t in x.tasks && x.tasks[t].Frozen?
      && var w := BuildWrite(x.tasks[t].upTo, x.tasks[t].data);
      && CS.Next(env.Catalog(), x.cat, CS.Begin(t, w), x'.cat)
      && x' == x.(cat := x'.cat, tasks := x.tasks[t := BuildWriting(w)])
    case CatalogStep(c) =>
      && !c.Begin? && !c.Crash?
      && CS.Next(env.Catalog(), x.cat, c, x'.cat)
      && x' == x.(cat := x'.cat)
    case Advertise(t, membership) =>
      && t in x.tasks && x.tasks[t].BuildWriting?
      && var w := x.tasks[t].w;
      && t in x.cat.writers && x.cat.writers[t] == CS.Finished(w, true)
      && x' == x.(core := Advertised(x.core, LabelOf(w.key), membership, w.id, w.data), tasks := x.tasks - {t})
    case DropBuild(t) =>
      && t in x.tasks && (x.tasks[t].Spawned? || x.tasks[t].Frozen? || x.tasks[t].BuildWriting?)
      && x' == x.(tasks := x.tasks - {t})
    case HotBuild(id, data) =>
      && !env.offload
      && Holds(env.codec, data, x.core.fsm.View(env.group))
      && x' == x.(core := HotBuilt(x.core, id, data))
    case Install(t, s) =>
      && s in msgs && t !in x.tasks && env.codec.decodeSnap(s.data).Some?
      && x.delivered <= Count(s.meta.lastLogId)
      && x' == Node(Installed(env.codec, env.group, x.core, s),
                    Count(s.meta.lastLogId), x.cat, WithInstall(env, x, t, s))
    case InstallDurable(t, s) =>
      && s in msgs && t !in x.tasks && env.codec.decodeSnap(s.data).Some?
      && s.meta.lastLogId.Some? && x.delivered <= Count(s.meta.lastLogId)
      && x' == x.(core := Installed(env.codec, env.group, x.core, Durable(s)),
                  tasks := WithInstall(env, x, t, Durable(s)))
    case BeginInstallWrite(t) =>
      && t in x.tasks && x.tasks[t].InstallPending?
      && var w := x.tasks[t].w;
      && CS.Next(env.Catalog(), x.cat, CS.Begin(t, w), x'.cat)
      && x' == x.(cat := x'.cat, tasks := x.tasks[t := InstallWriting(w)])
    case EndInstall(t) =>
      && t in x.tasks && x.tasks[t].InstallWriting?
      && var w := x.tasks[t].w;
      && t in x.cat.writers && x.cat.writers[t].Finished? && x.cat.writers[t].w == w
      && x' == x.(tasks := if x.cat.writers[t].ok then x.tasks - {t} else x.tasks[t := InstallFailed(w)])
    // The state machine lives in memory; only the catalog directory survives.
    case Restart =>
      x' == Node(NewCore, 0, x.cat.(writers := map[]), map[])
  }

  ghost predicate Next(env: Env, s: Sys, a: Step, s': Sys) {
    match a
    case Commit(e) =>
      e.id.index == |s.log| && s' == s.(log := s.log + [e])
    case Do(n, na) =>
      && n in s.nodes && n in s'.nodes
      && NodeNext(env, s.log, s.msgs, n, s.nodes[n], na, s'.nodes[n])
      && s' == s.(nodes := s.nodes[n := s'.nodes[n]])
    case Serve(n) =>
      && n in s.nodes && s.nodes[n].core.current.Some?
      && s' == s.(msgs := s.msgs + {s.nodes[n].core.current.value})
    // Listings visit directories one at a time, so `latest` may give any entry that was complete
    // when it was visited; this is that moment. The entry to read is found by id alone, by a
    // second listing, and its bytes are read later still. Steps of others may come between.
    case FetchLatest(r, n, dir) =>
      && env.offload && n in s.nodes && r !in s.fetches
      && var d := s.nodes[n].cat.dirs;
      && IsComplete(d, dir)
      && s' == s.(fetches := s.fetches[r := Latest(n, MetaAt(d, dir).key, MetaAt(d, dir).id)])
    case FetchFind(r, dir) =>
      && r in s.fetches && s.fetches[r].Latest?
      && var f := s.fetches[r];
      && f.node in s.nodes
      && var d := s.nodes[f.node].cat.dirs;
      && Matches(d, dir, f.id)
      && s' == s.(fetches := s.fetches[r := Found(f.node, f.key, f.id, dir, MetaAt(d, dir).sha)])
    case FetchRead(r, data) =>
      && r in s.fetches && s.fetches[r].Found?
      && var f := s.fetches[r];
      && f.node in s.nodes
      && var d := s.nodes[f.node].cat.dirs;
      && f.dir in d && d[f.dir].data == Some(data) && env.hash(data) == f.sha
      && s' == s.(msgs := s.msgs + {StoredSnapshot(SnapshotMeta(Some(LabelOf(f.key)), NoMembership, f.id), data)})
  }

  ghost predicate Init(s: Sys) {
    s.log == [] && s.msgs == {} && s.fetches == map[] && forall n :: n in s.nodes ==> s.nodes[n] == NewNode
  }

  // ----- the invariant -----

  ghost predicate HoldsPrefix(env: Env, log: seq<Entry>, data: Bytes, j: nat) {
    j <= |log| && Holds(env.codec, data, StateAt(env.codec, log, j))
  }

  /** The bytes hold the state of some committed prefix of at least `c` entries. */
  ghost predicate Covers(env: Env, log: seq<Entry>, c: nat, data: Bytes) {
    exists j :: c <= j && HoldsPrefix(env, log, data, j)
  }

  ghost predicate IsLabel(log: seq<Entry>, id: LogId) {
    id.index < |log| && log[id.index].id == id
  }

  /** A snapshot anywhere in the system: a real label, enough data, and in offload mode its own name. */
  ghost predicate SnapshotOk(env: Env, log: seq<Entry>, s: StoredSnapshot) {
    && Covers(env, log, Count(s.meta.lastLogId), s.data)
    && (s.meta.lastLogId.Some? ==> IsLabel(log, s.meta.lastLogId.value))
    && (env.offload ==> s.meta.lastLogId.Some? && s.meta.id == Name(KeyOf(s.meta.lastLogId.value)))
  }

  ghost predicate WriteOk(env: Env, log: seq<Entry>, w: CS.Write) {
    Covers(env, log, w.key.index + 1, w.data) && IsLabel(log, LabelOf(w.key)) && w.id == Name(w.key)
  }

  /** The state machine holds the first `j` entries, no fewer than applied or delivered. */
  ghost predicate HoldsLog(env: Env, log: seq<Entry>, x: Node, j: nat) {
    && Count(x.core.lastApplied) <= j && x.delivered <= j <= |log|
    && x.core.fsm.View(env.group) == StateAt(env.codec, log, j)
  }

  ghost predicate TaskOk(env: Env, log: seq<Entry>, x: Node, k: Task) {
    match k
    case Spawned(l) => IsLabel(log, l) && l.index < x.delivered
    case Frozen(l, data) => IsLabel(log, l) && Covers(env, log, l.index + 1, data)
    case BuildWriting(w) => WriteOk(env, log, w)
    case InstallPending(w) => WriteOk(env, log, w)
    case InstallWriting(w) => WriteOk(env, log, w)
    case InstallFailed(w) => WriteOk(env, log, w)
  }

  predicate IsInstallOf(k: Task, key: Key) {
    (k.InstallPending? || k.InstallWriting? || k.InstallFailed?) && k.w.key == key
  }

  /** What `current_snapshot` advertises is in the catalog's history or on its way there. */
  ghost predicate CurrentIsBacked(env: Env, x: Node) {
    env.offload && x.core.current.Some? && x.core.current.value.meta.lastLogId.Some? ==>
      var key := KeyOf(x.core.current.value.meta.lastLogId.value);
      key in x.cat.written || exists t :: t in x.tasks && IsInstallOf(x.tasks[t], key)
  }

  ghost predicate NodeOk(env: Env, log: seq<Entry>, x: Node) {
    && (exists j :: HoldsLog(env, log, x, j))
    && x.delivered <= Count(x.core.lastApplied)
    && (x.core.lastApplied.Some? ==> IsLabel(log, x.core.lastApplied.value))
    && (x.core.current.Some? ==> SnapshotOk(env, log, x.core.current.value))
    && (forall t :: t in x.tasks ==> TaskOk(env, log, x, x.tasks[t]))
    && CS.Inv(env.Catalog(), x.cat)
    && (forall w :: w in x.cat.begun ==> WriteOk(env, log, w))
    && CurrentIsBacked(env, x)
  }

  /** The reader has the name of its label, and a digest only bytes that cover the label have. */
  ghost predicate FetchOk(env: Env, log: seq<Entry>, f: Fetch) {
    && f.id == Name(f.key) && IsLabel(log, LabelOf(f.key))
    && (f.Found? ==>
          f.dir == f.id && forall data :: env.hash(data) == f.sha ==> Covers(env, log, f.key.index + 1, data))
  }

  ghost predicate Inv(env: Env, s: Sys) {
    && (forall i :: 0 <= i < |s.log| ==> s.log[i].id.index == i)
    && (forall n :: n in s.nodes ==> NodeOk(env, s.log, s.nodes[n]))
    && (forall m :: m in s.msgs ==> SnapshotOk(env, s.log, m))
    && (forall r :: r in s.fetches ==> FetchOk(env, s.log, s.fetches[r]))
  }

  // ----- a growing log invalidates nothing -----

  lemma CoversLasts(env: Env, log: seq<Entry>, e: Entry, c: nat, data: Bytes)
    requires Covers(env, log, c, data)
    ensures Covers(env, log + [e], c, data)
  {
    var j :| c <= j && HoldsPrefix(env, log, data, j);
    StateAtPrefix(env.codec, log, [e], j);
    assert HoldsPrefix(env, log + [e], data, j);
  }

  lemma NodeOkLasts(env: Env, log: seq<Entry>, e: Entry, x: Node)
    requires NodeOk(env, log, x)
    ensures NodeOk(env, log + [e], x)
  {
    var log' := log + [e];
    var j :| HoldsLog(env, log, x, j);
    StateAtPrefix(env.codec, log, [e], j);
    assert HoldsLog(env, log', x, j);
    if x.core.current.Some? {
      CoversLasts(env, log, e, Count(x.core.current.value.meta.lastLogId), x.core.current.value.data);
    }
    forall t | t in x.tasks ensures TaskOk(env, log', x, x.tasks[t]) {
      match x.tasks[t] {
        case Spawned(l) =>
        case Frozen(l, data) => CoversLasts(env, log, e, l.index + 1, data);
        case BuildWriting(w) => CoversLasts(env, log, e, w.key.index + 1, w.data);
        case InstallPending(w) => CoversLasts(env, log, e, w.key.index + 1, w.data);
        case InstallWriting(w) => CoversLasts(env, log, e, w.key.index + 1, w.data);
        case InstallFailed(w) => CoversLasts(env, log, e, w.key.index + 1, w.data);
      }
    }
    forall w | w in x.cat.begun ensures WriteOk(env, log', w) {
      CoversLasts(env, log, e, w.key.index + 1, w.data);
    }
  }

  lemma FetchOkLasts(env: Env, log: seq<Entry>, e: Entry, f: Fetch)
    requires FetchOk(env, log, f)
    ensures FetchOk(env, log + [e], f)
  {
    if f.Found? {
      forall data | env.hash(data) == f.sha ensures Covers(env, log + [e], f.key.index + 1, data) {
        CoversLasts(env, log, e, f.key.index + 1, data);
      }
    }
  }

  lemma CommitKeepsInv(env: Env, s: Sys, e: Entry, s': Sys)
    requires Inv(env, s) && Next(env, s, Commit(e), s')
    ensures Inv(env, s')
  {
    forall n | n in s'.nodes ensures NodeOk(env, s'.log, s'.nodes[n]) {
      NodeOkLasts(env, s.log, e, s.nodes[n]);
    }
    forall m | m in s'.msgs ensures SnapshotOk(env, s'.log, m) {
      CoversLasts(env, s.log, e, Count(m.meta.lastLogId), m.data);
    }
    forall r | r in s'.fetches ensures FetchOk(env, s'.log, s'.fetches[r]) {
      FetchOkLasts(env, s.log, e, s.fetches[r]);
    }
  }
}
