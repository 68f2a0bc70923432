/**
  Clients over the replicas: `propose` and `read_linearizable`
  (crates/multiraft-net/src/multiraft.rs). What openraft answers for is a guard of a step:
  an acknowledged write has been committed once, at an index not committed before the call; a
  confirmed read's replica has been fed at least what was committed at the call.
 */
module Clients {
  import opened Types
  import opened Counter
  import opened Bridge
  import Standby
  import StandbyProof

  /** `base` and `ceil` are the committed lengths when the call began and when its effect was sure. */
  datatype WriteCall = WriteCall(cmd: Cmd, began: nat, base: nat, pos: Option<nat>, ended: Option<nat>, ceil: nat)

  datatype ReadCall =
    | Waiting(node: NodeId, began: nat, base: nat)
    | Confirmed(node: NodeId, began: nat, base: nat)
    | Got(node: NodeId, began: nat, base: nat, view: GroupState, at: nat, ceil: nat, ended: Option<nat>)

  /** `owner[p]` is the call whose command sits at log position `p`; `order` lists reads as they read. */
  datatype History = History(
    sys: Standby.Sys,
    clock: nat,
    puts: map<nat, WriteCall>,
    gets: map<nat, ReadCall>,
    owner: seq<Option<nat>>,
    order: seq<nat>)

  datatype Step =
    | CallWrite(id: nat, cmd: Cmd)
    | CommitWrite(id: nat, term: nat)
    | ReturnWrite(id: nat)
    | CallRead(id: nat, node: NodeId)
    | Confirm(id: nat)
    | ReadFsm(id: nat)
    | ReturnRead(id: nat)
    | Internal(a: Standby.Step)

  ghost predicate Init(h: History) {
    Standby.Init(h.sys) && h.clock == 0 && h.puts == map[] && h.gets == map[] && h.owner == [] && h.order == []
  }

  /** A restart loses the calls that were reading on the node. */
  function Surviving(gets: map<nat, ReadCall>, n: NodeId): map<nat, ReadCall> {
    map id | id in gets && (gets[id].Got? || gets[id].node != n) :: gets[id]
  }

  ghost predicate Next(env: Standby.Env, h: History, a: Step, h': History) {
    var len := |h.sys.log|;
    match a
    case CallWrite(id, cmd) =>
      && id !in h.puts
      && h' == h.(clock := h.clock + 1, puts := h.puts[id := WriteCall(cmd, h.clock, len, None, None, 0)])
    case CommitWrite(id, term) =>
      && id in h.puts && h.puts[id].pos.None?
      && var e := Entry(LogId(term, len), Normal(env.codec.encodeCmd(h.puts[id].cmd)));
      && Standby.Next(env, h.sys, Standby.Commit(e), h'.sys)
      && h' == h.(sys := h'.sys, clock := h.clock + 1, owner := h.owner + [Some(id)],
                  puts := h.puts[id := h.puts[id].(pos := Some(len))])
    case ReturnWrite(id) =>
      && id in h.puts && h.puts[id].pos.Some? && h.puts[id].ended.None?
      && h' == h.(clock := h.clock + 1,
                  puts := h.puts[id := h.puts[id].(ended := Some(h.clock), ceil := len)])
    case CallRead(id, node) =>
      && id !in h.gets
      && h' == h.(clock := h.clock + 1, gets := h.gets[id := Waiting(node, h.clock, len)])
    case Confirm(id) =>
      && id in h.gets && h.gets[id].Waiting?
      && var r := h.gets[id];
      && r.node in h.sys.nodes && r.base <= h.sys.nodes[r.node].delivered
      && h' == h.(clock := h.clock + 1, gets := h.gets[id := Confirmed(r.node, r.began, r.base)])
    case ReadFsm(id) =>
      && id in h.gets && h.gets[id].Confirmed? && h.gets[id].node in h.sys.nodes
      && var r := h.gets[id];
      && h' == h.(clock := h.clock + 1, order := h.order + [id],
                  gets := h.gets[id := Got(r.node, r.began, r.base, h.sys.nodes[r.node].core.fsm.View(env.group),
                                             h.clock, len, None)])
    case ReturnRead(id) =>
      && id in h.gets && h.gets[id].Got? && h.gets[id].ended.None?
      && h' == h.(clock := h.clock + 1, gets := h.gets[id := h.gets[id].(ended := Some(h.clock))])
    // Everything else the system does, including blanks, memberships and triggers being committed.
    case Internal(b) =>
      && Standby.Next(env, h.sys, b, h'.sys)
      && (b.Commit? ==> CmdOf(env.codec, b.e).None?)
      && h' == h.(sys := h'.sys, clock := h.clock + 1,
                  owner := if b.Commit? then h.owner + [None] else h.owner,
                  gets := if b.Do? && b.a.Restart? then Surviving(h.gets, b.n) else h.gets)
  }

  // ----- the invariant -----

  ghost predicate PointOf(env: Standby.Env, log: seq<Entry>, r: ReadCall, j: nat) {
    r.Got? && r.base <= j <= r.ceil && r.ceil <= |log| && r.view == StateAt(env.codec, log, j)
  }

  ghost predicate WriteOk(h: History, id: nat)
    requires id in h.puts
  {
    var w := h.puts[id];
    && w.base <= |h.sys.log| && w.began < h.clock
    && (w.pos.Some? ==> w.base <= w.pos.value < |h.owner| && h.owner[w.pos.value] == Some(id))
    && (w.ended.Some? ==>
          w.pos.Some? && w.pos.value < w.ceil <= |h.sys.log| && w.began < w.ended.value < h.clock)
  }

  ghost predicate ReadOk(env: Standby.Env, h: History, id: nat)
    requires id in h.gets
  {
    var r := h.gets[id];
    && r.base <= |h.sys.log| && r.began < h.clock
    && (r.Confirmed? ==> r.node in h.sys.nodes && r.base <= h.sys.nodes[r.node].delivered)
    && (r.Got? ==>
          && id in h.order
          && (exists j :: PointOf(env, h.sys.log, r, j))
          && r.began < r.at < h.clock
          && (r.ended.Some? ==> r.at < r.ended.value < h.clock))
  }

  /** The log is what the calls put there, and nothing else carries a command. */
  ghost predicate OwnersOk(env: Standby.Env, h: History) {
    && |h.owner| == |h.sys.log|
    && forall p :: 0 <= p < |h.owner| ==>
         match h.owner[p]
         case None => CmdOf(env.codec, h.sys.log[p]).None?
         case Some(id) =>
           id in h.puts && h.puts[id].pos == Some(p) && CmdOf(env.codec, h.sys.log[p]) == Some(h.puts[id].cmd)
  }

  ghost predicate OrderOk(h: History) {
    && (forall i :: 0 <= i < |h.order| ==> h.order[i] in h.gets && h.gets[h.order[i]].Got?)
    && (forall i, j :: 0 <= i < j < |h.order| ==> h.gets[h.order[i]].at < h.gets[h.order[j]].at)
  }

  /** A call of either kind. */
  datatype Event = W(id: nat) | R(id: nat)

  predicate Known(h: History, v: Event) {
    match v
    case W(id) => id in h.puts
    case R(id) => id in h.gets
  }

  function Began(h: History, v: Event): nat
    requires Known(h, v)
  {
    match v
    case W(id) => h.puts[id].began
    case R(id) => h.gets[id].began
  }

  function Base(h: History, v: Event): nat
    requires Known(h, v)
  {
    match v
    case W(id) => h.puts[id].base
    case R(id) => h.gets[id].base
  }

  function Ended(h: History, v: Event): Option<nat>
    requires Known(h, v)
  {
    match v
    case W(id) => h.puts[id].ended
    case R(id) => if h.gets[id].Got? then h.gets[id].ended else None
  }

  function Ceil(h: History, v: Event): nat
    requires Known(h, v) && Ended(h, v).Some?
  {
    match v
    case W(id) => h.puts[id].ceil
    case R(id) => h.gets[id].ceil
  }

  /** The first call returned before the second was made. */
  predicate Precedes(h: History, v: Event, w: Event) {
    Known(h, v) && Known(h, w) && Ended(h, v).Some? && Ended(h, v).value < Began(h, w)
  }

  /** Then the first's effect was sure in what was committed when the second was made. */
  ghost predicate RealTimeOk(h: History) {
    forall v, w :: Precedes(h, v, w) ==> Ceil(h, v) <= Base(h, w)
  }

  ghost predicate Inv(env: Standby.Env, h: History) {
    Standby.Inv(env, h.sys) && CallsOk(env, h)
  }

  ghost predicate CallsOk(env: Standby.Env, h: History) {
    && OwnersOk(env, h)
    && OrderOk(h)
    && (forall id :: id in h.puts ==> WriteOk(h, id))
    && (forall id :: id in h.gets ==> ReadOk(env, h, id))
    && RealTimeOk(h)
  }

  // ----- every step keeps it -----

  lemma DeliveredGrows(env: Standby.Env, log: seq<Entry>, msgs: set<StoredSnapshot>, n: NodeId, x: Standby.Node,
                       a: Standby.NodeStep, x': Standby.Node)
    requires Standby.NodeNext(env, log, msgs, n, x, a, x') && !a.Restart?
    ensures x.delivered <= x'.delivered
  {
  }

  predicate Restarts(a: Standby.Step, n: NodeId) {
    a.Do? && a.n == n && a.a.Restart?
  }

  /** All that clients notice of a step: the log grows, replicas stay and are fed further. */
  ghost predicate SysMoves(s: Standby.Sys, a: Standby.Step, s': Standby.Sys) {
    && s'.log == (if a.Commit? then s.log + [a.e] else s.log)
    && forall n :: n in s.nodes ==>
         n in s'.nodes && (Restarts(a, n) || s.nodes[n].delivered <= s'.nodes[n].delivered)
  }

  lemma StepMovesSys(env: Standby.Env, s: Standby.Sys, a: Standby.Step, s': Standby.Sys)
    requires Standby.Next(env, s, a, s')
    ensures SysMoves(s, a, s')
  {
    forall n | n in s.nodes
      ensures n in s'.nodes && (Restarts(a, n) || s.nodes[n].delivered <= s'.nodes[n].delivered)
    {
      if a.Do? && a.n == n && !Restarts(a, n) {
        DeliveredGrows(env, s.log, s.msgs, n, s.nodes[n], a.a, s'.nodes[n]);
      }
    }
  }

  lemma PointLasts(env: Standby.Env, log: seq<Entry>, e: Entry, r: ReadCall)
    requires exists j :: PointOf(env, log, r, j)
    ensures exists j :: PointOf(env, log + [e], r, j)
  {
    var j :| PointOf(env, log, r, j);
    StateAtPrefix(env.codec, log, [e], j);
    assert PointOf(env, log + [e], r, j);
  }

  /** A read that no step touched, while the system moved. */
  lemma ReadLasts(env: Standby.Env, h: History, a: Standby.Step, h': History, id: nat)
    requires id in h.gets && ReadOk(env, h, id) && SysMoves(h.sys, a, h'.sys)
    requires id in h'.gets && h'.gets[id] == h.gets[id]
    requires h.clock <= h'.clock && h'.order == h.order
    requires h.gets[id].Confirmed? ==> !Restarts(a, h.gets[id].node)
    ensures ReadOk(env, h', id)
  {
    if h.gets[id].Got? && a.Commit? {
      PointLasts(env, h.sys.log, a.e, h.gets[id]);
    }
  }

  lemma WriteLasts(h: History, h': History, id: nat)
    requires id in h.puts && WriteOk(h, id) && id in h'.puts && h'.puts[id] == h.puts[id]
    requires h.clock <= h'.clock && h.owner <= h'.owner && |h.sys.log| <= |h'.sys.log|
    ensures WriteOk(h', id)
  {
  }

  /** One step makes at most new calls, now, and ends calls, now; it rewrites no times. */
  ghost predicate TimesMove(h: History, h': History) {
    forall v :: Known(h', v) ==>
      if Known(h, v) then
        && Began(h', v) == Began(h, v) && Base(h', v) == Base(h, v)
        && (Ended(h', v) == Some(h.clock)
            || (Ended(h', v) == Ended(h, v) && (Ended(h, v).Some? ==> Ceil(h', v) == Ceil(h, v))))
      else Began(h', v) == h.clock && Base(h', v) == |h.sys.log| && Ended(h', v).None?
  }

  lemma RealTimeLasts(env: Standby.Env, h: History, h': History)
    requires CallsOk(env, h) && TimesMove(h, h')
    ensures RealTimeOk(h')
  {
    forall v, w | Precedes(h', v, w) ensures Ceil(h', v) <= Base(h', w) {
      TimesOk(env, h, v);
      TimesOk(env, h, w);
      if Known(h, v) && Known(h, w) {
        assert Precedes(h, v, w);
      }
    }
  }

  lemma TimesOk(env: Standby.Env, h: History, v: Event)
    requires CallsOk(env, h)
    ensures Known(h, v) ==> Began(h, v) < h.clock && (Ended(h, v).Some? ==> Ceil(h, v) <= |h.sys.log|)
  {
    match v {
      case W(id) => assert id in h.puts ==> WriteOk(h, id);
      case R(id) =>
        if id in h.gets {
          assert ReadOk(env, h, id);
        }
    }
  }

  lemma OwnersGrow(env: Standby.Env, h: History, e: Entry, whose: Option<nat>, h': History)
    requires OwnersOk(env, h) && h'.sys.log == h.sys.log + [e] && h'.owner == h.owner + [whose]
    requires match whose
             case None => CmdOf(env.codec, e).None? && h'.puts == h.puts
             case Some(id) =>
               && id in h.puts && h.puts[id].pos.None? && CmdOf(env.codec, e) == Some(h.puts[id].cmd)
               && h'.puts == h.puts[id := h.puts[id].(pos := Some(|h.sys.log|))]
    ensures OwnersOk(env, h')
  {
  }

  /** The log grew by one entry: a call's command, or one that carries none. */
  lemma GrowthKeepsCalls(env: Standby.Env, h: History, e: Entry, whose: Option<nat>, h': History)
    requires CallsOk(env, h) && SysMoves(h.sys, Standby.Commit(e), h'.sys)
    requires match whose
             case None => CmdOf(env.codec, e).None?
             case Some(id) =>
               id in h.puts && h.puts[id].pos.None? && CmdOf(env.codec, e) == Some(h.puts[id].cmd)
    requires h' == h.(sys := h'.sys, clock := h.clock + 1, owner := h.owner + [whose],
                      puts := match whose
                              case None => h.puts
                              case Some(id) => h.puts[id := h.puts[id].(pos := Some(|h.sys.log|))])
    ensures CallsOk(env, h')
  {
    forall id | id in h'.gets ensures ReadOk(env, h', id) {
      ReadLasts(env, h, Standby.Commit(e), h', id);
    }
    forall id | id in h'.puts ensures WriteOk(h', id) {
      assert WriteOk(h, id);
      if whose != Some(id) {
        WriteLasts(h, h', id);
      }
    }
    OwnersGrow(env, h, e, whose, h');
    RealTimeLasts(env, h, h');
  }

  /** The system moved without a commit; a restart may have lost reads. */
  lemma QuietMoveKeepsCalls(env: Standby.Env, h: History, b: Standby.Step, h': History)
    requires CallsOk(env, h) && SysMoves(h.sys, b, h'.sys) && !b.Commit?
    requires h' == h.(sys := h'.sys, clock := h.clock + 1,
                      gets := if b.Do? && b.a.Restart? then Surviving(h.gets, b.n) else h.gets)
    ensures CallsOk(env, h')
  {
    forall id | id in h'.gets ensures ReadOk(env, h', id) {
      ReadLasts(env, h, b, h', id);
    }
    forall id | id in h'.puts ensures WriteOk(h', id) {
      WriteLasts(h, h', id);
    }
    RealTimeLasts(env, h, h');
  }

  /** The state a confirmed read finds is that of a prefix no shorter than its base. */
  lemma ReadFsmKeepsCalls(env: Standby.Env, h: History, a: Step, h': History, j: nat)
    requires CallsOk(env, h) && Next(env, h, a, h') && a.ReadFsm?
    requires Standby.HoldsLog(env, h.sys.log, h.sys.nodes[h.gets[a.id].node], j)
    ensures CallsOk(env, h')
  {
    forall id | id in h'.gets ensures ReadOk(env, h', id) {
      if id == a.id {
        ReadFsmOk(env, h, a, h', j);
      } else {
        ReadWaits(env, h, h', id);
      }
    }
    forall id | id in h'.puts ensures WriteOk(h', id) {
      WriteLasts(h, h', id);
    }
    OrderGrows(env, h, a, h');
    OwnersLast(env, h, h');
    ReadFsmMovesTimes(env, h, a, h');
    RealTimeLasts(env, h, h');
  }

  lemma ReadFsmOk(env: Standby.Env, h: History, a: Step, h': History, j: nat)
    requires CallsOk(env, h) && Next(env, h, a, h') && a.ReadFsm?
    requires Standby.HoldsLog(env, h.sys.log, h.sys.nodes[h.gets[a.id].node], j)
    ensures ReadOk(env, h', a.id)
  {
    assert ReadOk(env, h, a.id);
    assert PointOf(env, h'.sys.log, h'.gets[a.id], j);
    assert h'.order[|h.order|] == a.id;
  }

  lemma ReadFsmMovesTimes(env: Standby.Env, h: History, a: Step, h': History)
    requires Next(env, h, a, h') && a.ReadFsm?
    ensures TimesMove(h, h')
  {
  }

  lemma OrderGrows(env: Standby.Env, h: History, a: Step, h': History)
    requires CallsOk(env, h) && Next(env, h, a, h') && a.ReadFsm?
    ensures OrderOk(h')
  {
    forall i | 0 <= i < |h.order|
      ensures h.gets[h.order[i]].at < h.clock && h'.order[i] == h.order[i] != a.id
    {
      assert ReadOk(env, h, h.order[i]);
    }
  }

  /** A read that a client's own bookkeeping does not touch. */
  lemma ReadWaits(env: Standby.Env, h: History, h': History, id: nat)
    requires id in h.gets && ReadOk(env, h, id) && id in h'.gets && h'.gets[id] == h.gets[id]
    requires h.clock <= h'.clock && h'.sys == h.sys && forall i :: i in h.order ==> i in h'.order
    ensures ReadOk(env, h', id)
  {
  }

  lemma OwnersLast(env: Standby.Env, h: History, h': History)
    requires OwnersOk(env, h) && h'.sys.log == h.sys.log && h'.owner == h.owner
    requires forall id :: id in h.puts ==>
               id in h'.puts && h'.puts[id].pos == h.puts[id].pos && h'.puts[id].cmd == h.puts[id].cmd
    ensures OwnersOk(env, h')
  {
  }

  lemma WriteCallMovesTimes(env: Standby.Env, h: History, a: Step, h': History)
    requires Next(env, h, a, h') && (a.CallWrite? || a.ReturnWrite?)
    ensures TimesMove(h, h')
  {
  }

  lemma WriteCallKeepsCalls(env: Standby.Env, h: History, a: Step, h': History)
    requires CallsOk(env, h) && Next(env, h, a, h') && (a.CallWrite? || a.ReturnWrite?)
    ensures CallsOk(env, h')
  {
    forall id | id in h'.puts ensures WriteOk(h', id) {
      if id == a.id {
        assert id in h.puts ==> WriteOk(h, id);
      } else {
        WriteLasts(h, h', id);
      }
    }
    forall id | id in h'.gets ensures ReadOk(env, h', id) {
      ReadWaits(env, h, h', id);
    }
    OwnersLast(env, h, h');
    WriteCallMovesTimes(env, h, a, h');
    RealTimeLasts(env, h, h');
  }

  lemma ReadCallMovesTimes(env: Standby.Env, h: History, a: Step, h': History)
    requires Next(env, h, a, h') && (a.CallRead? || a.Confirm? || a.ReturnRead?)
    ensures TimesMove(h, h')
  {
  }

  lemma ReadCallKeepsCalls(env: Standby.Env, h: History, a: Step, h': History)
    requires CallsOk(env, h) && Next(env, h, a, h') && (a.CallRead? || a.Confirm? || a.ReturnRead?)
    ensures CallsOk(env, h')
  {
    forall id | id in h'.puts ensures WriteOk(h', id) {
      WriteLasts(h, h', id);
    }
    forall id | id in h'.gets ensures ReadOk(env, h', id) {
      if id in h.gets {
        OneReadLasts(env, h, a, h', id);
      }
    }
    OrderLasts(env, h, a, h');
    OwnersLast(env, h, h');
    ReadCallMovesTimes(env, h, a, h');
    RealTimeLasts(env, h, h');
  }

  lemma OneReadLasts(env: Standby.Env, h: History, a: Step, h': History, id: nat)
    requires id in h.gets && ReadOk(env, h, id) && Next(env, h, a, h')
    requires a.CallRead? || a.Confirm? || a.ReturnRead?
    ensures id in h'.gets && ReadOk(env, h', id)
  {
    if h.gets[id].Got? {
      var j :| PointOf(env, h.sys.log, h.gets[id], j);
      assert PointOf(env, h'.sys.log, h'.gets[id], j);
    }
  }

  lemma OrderLasts(env: Standby.Env, h: History, a: Step, h': History)
    requires OrderOk(h) && Next(env, h, a, h')
    requires a.CallRead? || a.Confirm? || a.ReturnRead?
    ensures OrderOk(h')
  {
    forall i | 0 <= i < |h'.order|
      ensures h'.order[i] in h'.gets && h'.gets[h'.order[i]].Got?
      ensures h'.gets[h'.order[i]].at == h.gets[h.order[i]].at
    {
      assert h.order[i] in h.gets && h.gets[h.order[i]].Got?;
    }
  }

  lemma CommitWriteKeepsInv(env: Standby.Env, h: History, a: Step, h': History)
    requires env.Valid() && Inv(env, h) && Next(env, h, a, h') && a.CommitWrite?
    ensures Inv(env, h')
  {
    var e := Entry(LogId(a.term, |h.sys.log|), Normal(env.codec.encodeCmd(h.puts[a.id].cmd)));
    StandbyProof.StepKeepsInv(env, h.sys, Standby.Commit(e), h'.sys);
    StepMovesSys(env, h.sys, Standby.Commit(e), h'.sys);
    GrowthKeepsCalls(env, h, e, Some(a.id), h');
  }

  lemma InternalKeepsInv(env: Standby.Env, h: History, a: Step, h': History)
    requires env.Valid() && Inv(env, h) && Next(env, h, a, h') && a.Internal?
    ensures Inv(env, h')
  {
    StandbyProof.StepKeepsInv(env, h.sys, a.a, h'.sys);
    StepMovesSys(env, h.sys, a.a, h'.sys);
    if a.a.Commit? {
      GrowthKeepsCalls(env, h, a.a.e, None, h');
    } else {
      QuietMoveKeepsCalls(env, h, a.a, h');
    }
  }

  lemma ReadFsmKeepsInv(env: Standby.Env, h: History, a: Step, h': History)
    requires Inv(env, h) && Next(env, h, a, h') && a.ReadFsm?
    ensures Inv(env, h')
  {
    var j :| Standby.HoldsLog(env, h.sys.log, h.sys.nodes[h.gets[a.id].node], j);
    ReadFsmKeepsCalls(env, h, a, h', j);
  }

  lemma StepKeepsInv(env: Standby.Env, h: History, a: Step, h': History)
    requires env.Valid() && Inv(env, h) && Next(env, h, a, h')
    ensures Inv(env, h')
  {
    match a {
      case CallWrite(_, _) => WriteCallKeepsCalls(env, h, a, h');
      case CommitWrite(_, _) => CommitWriteKeepsInv(env, h, a, h');
      case ReturnWrite(_) => WriteCallKeepsCalls(env, h, a, h');
      case CallRead(_, _) => ReadCallKeepsCalls(env, h, a, h');
      case Confirm(_) => ReadCallKeepsCalls(env, h, a, h');
      case ReadFsm(_) => ReadFsmKeepsInv(env, h, a, h');
      case ReturnRead(_) => ReadCallKeepsCalls(env, h, a, h');
      case Internal(_) => InternalKeepsInv(env, h, a, h');
    }
  }

  ghost predicate IsRun(env: Standby.Env, run: seq<History>, steps: seq<Step>) {
    && env.Valid()
    && |run| == |steps| + 1
    && Init(run[0])
    && forall i :: 0 <= i < |steps| ==> Next(env, run[i], steps[i], run[i + 1])
  }
}
