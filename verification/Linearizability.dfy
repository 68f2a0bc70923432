/**
  Acknowledged proposes and linearizable reads of a group form a linearizable history in every
  run, with replicas restarting, installing snapshots that are ahead of their labels, and
  building snapshots in the background.
 */
module Linearizability {
  import opened Types
  import opened Counter
  import Standby
  import StandbyTheorems
  import opened Clients
  import opened Placement

  /** The commands of the writes in a sequence of calls, in that order. */
  ghost function CmdsOf(h: History, evs: seq<Event>): seq<Cmd> {
    if evs == [] then []
    else
      var v := evs[|evs| - 1];
      CmdsOf(h, evs[..|evs| - 1]) + if v.W? && v.id in h.puts then [h.puts[v.id].cmd] else []
  }

  /**
    A total order of calls. It may also contain writes that were committed without an answer
    having reached the client, but every call that returned is in it.
   */
  ghost predicate IsLinearization(h: History, evs: seq<Event>) {
    && (forall i :: 0 <= i < |evs| ==> Known(h, evs[i]))
    && (forall i, j :: 0 <= i < j < |evs| ==> evs[i] != evs[j])
    && (forall v :: Known(h, v) && Ended(h, v).Some? ==> v in evs)
    && (forall i, j :: 0 <= i < j < |evs| ==> !Precedes(h, evs[j], evs[i]))
    && (forall i :: 0 <= i < |evs| && evs[i].R? ==>
          h.gets[evs[i].id].Got? && h.gets[evs[i].id].view == Run(Empty, CmdsOf(h, evs[..i])))
  }

  // ----- the plan -----

  /** The plan gives every read a number of entries it held when it read. */
  ghost predicate Plans(env: Standby.Env, h: History, plan: Plan) {
    && |plan.owned| == |h.owner|
    && (forall p :: 0 <= p < |h.owner| ==> (plan.owned[p] <==> h.owner[p].Some?))
    && |plan.points| == |h.order|
    && (forall i :: 0 <= i < |h.order| ==>
          h.order[i] in h.gets && PointOf(env, h.sys.log, h.gets[h.order[i]], plan.points[i]))
  }

  lemma {:induction false} ChoosePoints(env: Standby.Env, h: History, n: nat) returns (points: seq<nat>)
    requires CallsOk(env, h) && n <= |h.order|
    ensures |points| == n
    ensures forall i :: 0 <= i < n ==> PointOf(env, h.sys.log, h.gets[h.order[i]], points[i])
  {
    points := [];
    if n > 0 {
      points := ChoosePoints(env, h, n - 1);
      assert ReadOk(env, h, h.order[n - 1]);
      var j :| PointOf(env, h.sys.log, h.gets[h.order[n - 1]], j);
      points := points + [j];
    }
  }

  function EventOf(h: History, s: Slot): Event
    requires match s case Put(p) => p < |h.owner| && h.owner[p].Some? case Get(i) => i < |h.order|
  {
    match s
    case Put(p) => W(h.owner[p].value)
    case Get(i) => R(h.order[i])
  }

  ghost function Events(env: Standby.Env, h: History, plan: Plan, ss: seq<Slot>): (evs: seq<Event>)
    requires Plans(env, h, plan)
    requires forall i :: 0 <= i < |ss| ==> plan.Has(ss[i])
  {
    seq(|ss|, i requires 0 <= i < |ss| => assert plan.Has(ss[i]); EventOf(h, ss[i]))
  }

  /** Distinct slots are distinct calls: a call is committed once and reads once. */
  lemma SlotsAreDistinctCalls(env: Standby.Env, h: History, plan: Plan, a: Slot, b: Slot)
    requires CallsOk(env, h) && Plans(env, h, plan) && plan.Has(a) && plan.Has(b)
    requires plan.Lower(a, b)
    ensures EventOf(h, a) != EventOf(h, b)
  {
    if a.Put? && b.Put? {
      assert h.puts[h.owner[a.p].value].pos == Some(a.p);
      assert h.puts[h.owner[b.p].value].pos == Some(b.p);
    } else if a.Get? && b.Get? {
      assert a.i < b.i ==> h.gets[h.order[a.i]].at < h.gets[h.order[b.i]].at;
      assert b.i < a.i ==> h.gets[h.order[b.i]].at < h.gets[h.order[a.i]].at;
    }
  }

  /** A slot lies between what its call saw at the start and what was sure at its end. */
  lemma SlotBounds(env: Standby.Env, h: History, plan: Plan, s: Slot)
    requires CallsOk(env, h) && Plans(env, h, plan) && plan.Has(s)
    ensures var v := EventOf(h, s);
            && Known(h, v)
            && 2 * Base(h, v) <= plan.Rank(s)
            && (Ended(h, v).Some? ==> plan.Rank(s) <= 2 * Ceil(h, v) - if s.Put? then 1 else 0)
  {
    match s {
      case Put(p) => assert WriteOk(h, h.owner[p].value) && h.puts[h.owner[p].value].pos == Some(p);
      case Get(i) =>
        assert ReadOk(env, h, h.order[i]) && PointOf(env, h.sys.log, h.gets[h.order[i]], plan.points[i]);
    }
  }

  /** A read returned before another was made has read before it. */
  lemma EarlierReadReadFirst(env: Standby.Env, h: History, a: nat, b: nat)
    requires CallsOk(env, h) && a < |h.order| && b < |h.order|
    requires Precedes(h, R(h.order[a]), R(h.order[b]))
    ensures a < b
  {
    assert ReadOk(env, h, h.order[a]) && ReadOk(env, h, h.order[b]);
    var first, second := h.gets[h.order[a]].at, h.gets[h.order[b]].at;
    assert b < a ==> second < first;
  }

  /** Calls that do not overlap in time are placed in the order they were made. */
  lemma PrecedesIsLower(env: Standby.Env, h: History, plan: Plan, a: Slot, b: Slot)
    requires CallsOk(env, h) && Plans(env, h, plan) && plan.Has(a) && plan.Has(b)
    requires Precedes(h, EventOf(h, a), EventOf(h, b))
    ensures plan.Lower(a, b)
  {
    assert Ceil(h, EventOf(h, a)) <= Base(h, EventOf(h, b));
    SlotBounds(env, h, plan, a);
    SlotBounds(env, h, plan, b);
    if a.Get? && b.Get? {
      EarlierReadReadFirst(env, h, a.i, b.i);
    }
  }

  /** A call that returned has a slot. */
  lemma ReturnedHasSlot(env: Standby.Env, h: History, plan: Plan, v: Event) returns (s: Slot)
    requires CallsOk(env, h) && Plans(env, h, plan)
    requires Known(h, v) && Ended(h, v).Some?
    ensures plan.Has(s) && EventOf(h, s) == v
  {
    match v {
      case W(id) =>
        assert WriteOk(h, id);
        s := Put(h.puts[id].pos.value);
      case R(id) =>
        assert ReadOk(env, h, id);
        var i :| 0 <= i < |h.order| && h.order[i] == id;
        assert PointOf(env, h.sys.log, h.gets[id], plan.points[i]);
        s := Get(i);
    }
  }

  /** The calls write what the log shows at their slots. */
  lemma {:induction false} EventsWrite(env: Standby.Env, h: History, plan: Plan, ss: seq<Slot>)
    requires OwnersOk(env, h) && Plans(env, h, plan)
    requires forall i :: 0 <= i < |ss| ==> plan.Has(ss[i])
    ensures CmdsOf(h, Events(env, h, plan, ss)) == Written(env.codec, h.sys.log, ss)
  {
    if ss != [] {
      var n := |ss| - 1;
      EventsWrite(env, h, plan, ss[..n]);
      var evs := Events(env, h, plan, ss);
      assert evs[..n] == Events(env, h, plan, ss[..n]);
      var s := ss[n];
      assert evs[n] == EventOf(h, s) && plan.Has(s);
    }
  }

  // ----- the theorem -----

  /** A read that stands where its entries end returns the fold of the writes before it. */
  lemma ReadIsLegal(env: Standby.Env, h: History, plan: Plan, ss: seq<Slot>, k: nat)
    requires CallsOk(env, h) && Plans(env, h, plan) && ss == plan.UpTo(|plan.owned|)
    requires forall i :: 0 <= i < |ss| ==> plan.Has(ss[i])
    requires k < |ss| && ss[k].Get? && ss[k].i < |h.order|
    ensures var id := h.order[ss[k].i];
            && id in h.gets && h.gets[id].Got?
            && h.gets[id].view == Run(Empty, CmdsOf(h, Events(env, h, plan, ss[..k])))
  {
    assert Matches(env.codec, h.sys.log, plan);
    EventsWrite(env, h, plan, ss[..k]);
    ReadFollowsItsPrefix(env.codec, h.sys.log, plan, |plan.owned|, k);
    var j := plan.points[ss[k].i];
    assert PointOf(env, h.sys.log, h.gets[h.order[ss[k].i]], j);
    ReplayRunsCmds(env.codec, Empty, h.sys.log[..j]);
  }

  lemma EventsKnown(env: Standby.Env, h: History, plan: Plan, s: Slot)
    requires CallsOk(env, h) && Plans(env, h, plan) && plan.Has(s)
    ensures Known(h, EventOf(h, s))
  {
  }

  /** The calls laid out along the plan's slots. */
  ghost predicate LaidOut(env: Standby.Env, h: History, plan: Plan, ss: seq<Slot>, evs: seq<Event>) {
    && CallsOk(env, h) && Plans(env, h, plan)
    && ss == plan.UpTo(|plan.owned|) && plan.Sorted(ss)
    && evs == Events(env, h, plan, ss)
  }

  lemma LaidOutInTime(env: Standby.Env, h: History, plan: Plan, ss: seq<Slot>, evs: seq<Event>, i: nat, j: nat)
    requires LaidOut(env, h, plan, ss, evs) && i < j < |evs|
    ensures Known(h, evs[i]) && Known(h, evs[j])
    ensures evs[i] != evs[j] && !Precedes(h, evs[j], evs[i])
  {
    var a, b := ss[i], ss[j];
    assert plan.Has(a) && plan.Has(b) && plan.Lower(a, b);
    EventsKnown(env, h, plan, a);
    EventsKnown(env, h, plan, b);
    SlotsAreDistinctCalls(env, h, plan, a, b);
    if Precedes(h, evs[j], evs[i]) {
      PrecedesIsLower(env, h, plan, b, a);
      assert false;
    }
  }

  lemma LaidOutComplete(env: Standby.Env, h: History, plan: Plan, ss: seq<Slot>, evs: seq<Event>, v: Event)
    requires LaidOut(env, h, plan, ss, evs) && Known(h, v) && Ended(h, v).Some?
    ensures v in evs
  {
    var s := ReturnedHasSlot(env, h, plan, v);
    plan.UpToComplete(|plan.owned|, s);
    var k :| 0 <= k < |ss| && ss[k] == s;
    assert evs[k] == v;
  }

  lemma LaidOutLegal(env: Standby.Env, h: History, plan: Plan, ss: seq<Slot>, evs: seq<Event>, i: nat)
    requires LaidOut(env, h, plan, ss, evs) && i < |evs|
    ensures Known(h, evs[i])
    ensures evs[i].R? ==>
              h.gets[evs[i].id].Got? && h.gets[evs[i].id].view == Run(Empty, CmdsOf(h, evs[..i]))
  {
    assert plan.Has(ss[i]);
    EventsKnown(env, h, plan, ss[i]);
    if evs[i].R? {
      ReadIsLegal(env, h, plan, ss, i);
      assert evs[..i] == Events(env, h, plan, ss[..i]);
    }
  }

  lemma MakePlan(env: Standby.Env, h: History) returns (plan: Plan)
    requires CallsOk(env, h)
    ensures Plans(env, h, plan)
  {
    var points := ChoosePoints(env, h, |h.order|);
    plan := Plan(seq(|h.owner|, p requires 0 <= p < |h.owner| => h.owner[p].Some?), points);
  }

  lemma Linearize(env: Standby.Env, h: History) returns (evs: seq<Event>)
    requires CallsOk(env, h)
    ensures IsLinearization(h, evs)
  {
    var plan := MakePlan(env, h);
    var ss := plan.UpTo(|plan.owned|);
    plan.UpToSorted(|plan.owned|);
    evs := Events(env, h, plan, ss);
    forall i | 0 <= i < |evs|
      ensures Known(h, evs[i])
      ensures evs[i].R? ==>
                h.gets[evs[i].id].Got? && h.gets[evs[i].id].view == Run(Empty, CmdsOf(h, evs[..i]))
    {
      LaidOutLegal(env, h, plan, ss, evs, i);
    }
    forall i, j | 0 <= i < j < |evs| ensures evs[i] != evs[j] && !Precedes(h, evs[j], evs[i]) {
      LaidOutInTime(env, h, plan, ss, evs, i, j);
    }
    forall v | Known(h, v) && Ended(h, v).Some? ensures v in evs {
      LaidOutComplete(env, h, plan, ss, evs, v);
    }
  }

  lemma {:induction false} RunKeepsInv(env: Standby.Env, run: seq<History>, steps: seq<Step>, i: nat)
    requires IsRun(env, run, steps) && i < |run|
    ensures Inv(env, run[i])
  {
    if i == 0 {
      StandbyTheorems.InitOk(env, run[0].sys);
    } else {
      RunKeepsInv(env, run, steps, i - 1);
      StepKeepsInv(env, run[i - 1], steps[i - 1], run[i]);
    }
  }

  /** At every moment of every run, the calls made so far have a linearization. */
  lemma EveryHistoryIsLinearizable(env: Standby.Env, run: seq<History>, steps: seq<Step>, i: nat)
    returns (evs: seq<Event>)
    requires IsRun(env, run, steps) && i < |run|
    ensures IsLinearization(run[i], evs)
  {
    RunKeepsInv(env, run, steps, i);
    evs := Linearize(env, run[i]);
  }
}
