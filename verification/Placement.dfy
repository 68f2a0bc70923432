/**
  Interleaving reads with a log. Each read holds some number of entries; it is placed after
  exactly those, and reads that hold equally many stay in the order they read.
 */
module Placement {
  import opened Types
  import opened Counter

  /** The write at log position `p`, or the `i`-th read. */
  datatype Slot = Put(p: nat) | Get(i: nat)

  /** Which positions carry a write, and how many entries each read holds. */
  datatype Plan = Plan(owned: seq<bool>, points: seq<nat>) {
    predicate Has(s: Slot) {
      match s
      case Put(p) => p < |owned| && owned[p]
      case Get(i) => i < |points| && points[i] <= |owned|
    }

    function Rank(s: Slot): nat
      requires Has(s)
    {
      match s
      case Put(p) => 2 * p + 1
      case Get(i) => 2 * points[i]
    }

    predicate Lower(a: Slot, b: Slot)
      requires Has(a) && Has(b)
    {
      Rank(a) < Rank(b) || (Rank(a) == Rank(b) && a.Get? && b.Get? && a.i < b.i)
    }

    ghost predicate Sorted(ss: seq<Slot>) {
      && (forall i :: 0 <= i < |ss| ==> Has(ss[i]))
      && (forall i, j :: 0 <= i < j < |ss| ==> Lower(ss[i], ss[j]))
    }

    ghost predicate Within(ss: seq<Slot>, lo: nat, hi: nat) {
      forall i :: 0 <= i < |ss| ==> Has(ss[i]) && lo <= Rank(ss[i]) < hi
    }

    /** Among the first `n` reads, those that hold exactly `p` entries. */
    function GetsAt(n: nat, p: nat): (ss: seq<Slot>)
      requires n <= |points|
      ensures forall k :: 0 <= k < |ss| ==> ss[k].Get? && ss[k].i < n && points[ss[k].i] == p
    {
      if n == 0 then []
      else GetsAt(n - 1, p) + if points[n - 1] == p then [Get(n - 1)] else []
    }

    function PutAt(p: nat): seq<Slot>
      requires p < |owned|
    {
      if owned[p] then [Put(p)] else []
    }

    /** Everything placed before the reads that hold `p` entries. */
    function Front(p: nat): seq<Slot>
      requires p <= |owned|
      decreases p, 0
    {
      if p == 0 then [] else UpTo(p - 1) + PutAt(p - 1)
    }

    function UpTo(p: nat): seq<Slot>
      requires p <= |owned|
      decreases p, 1
    {
      Front(p) + GetsAt(|points|, p)
    }

    lemma SortedConcat(a: seq<Slot>, b: seq<Slot>, mid: nat, hi: nat)
      requires Sorted(a) && Sorted(b) && mid <= hi
      requires Within(a, 0, mid) && Within(b, mid, hi)
      ensures Sorted(a + b) && Within(a + b, 0, hi)
    {
    }

    lemma {:induction false} GetsAtSorted(n: nat, p: nat)
      requires n <= |points| && p <= |owned|
      ensures Sorted(GetsAt(n, p)) && Within(GetsAt(n, p), 2 * p, 2 * p + 1)
    {
      if n > 0 {
        GetsAtSorted(n - 1, p);
      }
    }

    lemma {:induction false} FrontSorted(p: nat)
      requires p <= |owned|
      ensures Sorted(Front(p)) && Within(Front(p), 0, 2 * p)
      decreases p, 0
    {
      if p > 0 {
        UpToSorted(p - 1);
        SortedConcat(UpTo(p - 1), PutAt(p - 1), 2 * p - 1, 2 * p);
      }
    }

    lemma {:induction false} UpToSorted(p: nat)
      requires p <= |owned|
      ensures Sorted(UpTo(p)) && Within(UpTo(p), 0, 2 * p + 1)
      decreases p, 1
    {
      FrontSorted(p);
      GetsAtSorted(|points|, p);
      SortedConcat(Front(p), GetsAt(|points|, p), 2 * p, 2 * p + 1);
    }

    lemma {:induction false} GetsAtComplete(n: nat, p: nat, i: nat)
      requires i < n <= |points| && points[i] == p
      ensures Get(i) in GetsAt(n, p)
    {
      if i < n - 1 {
        GetsAtComplete(n - 1, p, i);
      }
    }

    /** Every slot ranked up to `p` is placed up to `p`. */
    lemma {:induction false} UpToComplete(p: nat, s: Slot)
      requires p <= |owned| && Has(s) && Rank(s) <= 2 * p
      ensures s in UpTo(p)
    {
      if s.Get? && points[s.i] == p {
        GetsAtComplete(|points|, p, s.i);
      } else if s.Put? && s.p == p - 1 {
        assert s in PutAt(p - 1);
      } else {
        UpToComplete(p - 1, s);
      }
    }
  }

  // ----- what has been written before a slot -----

  /** The commands of the placed writes, in order, read off the log. */
  function Written(codec: Codec, log: seq<Entry>, ss: seq<Slot>): seq<Cmd> {
    if ss == [] then []
    else
      var s := ss[|ss| - 1];
      Written(codec, log, ss[..|ss| - 1]) +
      if s.Put? && s.p < |log| && CmdOf(codec, log[s.p]).Some? then [CmdOf(codec, log[s.p]).value] else []
  }

  lemma {:induction false} WrittenConcat(codec: Codec, log: seq<Entry>, a: seq<Slot>, b: seq<Slot>)
    ensures Written(codec, log, a + b) == Written(codec, log, a) + Written(codec, log, b)
  {
    if b == [] {
      assert a + b == a;
    } else {
      WrittenConcat(codec, log, a, b[..|b| - 1]);
      assert (a + b)[..|a + b| - 1] == a + b[..|b| - 1];
    }
  }

  lemma {:induction false} GetsWriteNothing(codec: Codec, log: seq<Entry>, ss: seq<Slot>)
    requires forall i :: 0 <= i < |ss| ==> ss[i].Get?
    ensures Written(codec, log, ss) == []
  {
    if ss != [] {
      GetsWriteNothing(codec, log, ss[..|ss| - 1]);
    }
  }

  /** Positions that carry a command are exactly the owned ones. */
  ghost predicate Matches(codec: Codec, log: seq<Entry>, plan: Plan) {
    |plan.owned| == |log| && forall p :: 0 <= p < |log| ==> (plan.owned[p] <==> CmdOf(codec, log[p]).Some?)
  }

  lemma PutWritesEntry(codec: Codec, log: seq<Entry>, plan: Plan, p: nat)
    requires Matches(codec, log, plan) && p < |log|
    ensures Cmds(codec, log[..p + 1]) == Cmds(codec, log[..p]) + Written(codec, log, plan.PutAt(p))
  {
    assert log[..p + 1][..p] == log[..p];
    var s := plan.PutAt(p);
    assert s != [] ==> s[..0] == [];
  }

  /** What is placed before the reads that hold `p` entries has written exactly those entries. */
  lemma {:induction false} FrontWritesThePrefix(codec: Codec, log: seq<Entry>, plan: Plan, p: nat)
    requires Matches(codec, log, plan) && p <= |log|
    ensures Written(codec, log, plan.Front(p)) == Cmds(codec, log[..p])
    decreases p, 0
  {
    if p > 0 {
      var a, b := plan.UpTo(p - 1), plan.PutAt(p - 1);
      calc {
        Written(codec, log, plan.Front(p));
        { WrittenConcat(codec, log, a, b); }
        Written(codec, log, a) + Written(codec, log, b);
        { UpToWritesThePrefix(codec, log, plan, p - 1); }
        Cmds(codec, log[..p - 1]) + Written(codec, log, b);
        { PutWritesEntry(codec, log, plan, p - 1); }
        Cmds(codec, log[..p]);
      }
    }
  }

  lemma {:induction false} UpToWritesThePrefix(codec: Codec, log: seq<Entry>, plan: Plan, p: nat)
    requires Matches(codec, log, plan) && p <= |log|
    ensures Written(codec, log, plan.UpTo(p)) == Cmds(codec, log[..p])
    decreases p, 1
  {
    var late := plan.GetsAt(|plan.points|, p);
    FrontWritesThePrefix(codec, log, plan, p);
    GetsWriteNothing(codec, log, late);
    WrittenConcat(codec, log, plan.Front(p), late);
  }

  lemma LateReadFollowsItsPrefix(codec: Codec, log: seq<Entry>, plan: Plan, p: nat, k: nat)
    requires Matches(codec, log, plan) && p <= |log| && |plan.Front(p)| <= k < |plan.UpTo(p)|
    ensures plan.UpTo(p)[k].Get? && plan.Has(plan.UpTo(p)[k]) && plan.points[plan.UpTo(p)[k].i] == p
    ensures Written(codec, log, plan.UpTo(p)[..k]) == Cmds(codec, log[..p])
  {
    var front, late := plan.Front(p), plan.GetsAt(|plan.points|, p);
    var m := k - |front|;
    assert plan.UpTo(p)[k] == late[m];
    assert plan.UpTo(p)[..k] == front + late[..m];
    FrontWritesThePrefix(codec, log, plan, p);
    GetsWriteNothing(codec, log, late[..m]);
    WrittenConcat(codec, log, front, late[..m]);
  }

  /** Before a read stand exactly the commands of the entries it holds. */
  lemma {:induction false} ReadFollowsItsPrefix(codec: Codec, log: seq<Entry>, plan: Plan, p: nat, k: nat)
    requires Matches(codec, log, plan) && p <= |log| && k < |plan.UpTo(p)| && plan.UpTo(p)[k].Get?
    ensures plan.Has(plan.UpTo(p)[k])
    ensures Written(codec, log, plan.UpTo(p)[..k]) == Cmds(codec, log[..plan.points[plan.UpTo(p)[k].i]])
  {
    var front := plan.Front(p);
    if k >= |front| {
      LateReadFollowsItsPrefix(codec, log, plan, p, k);
    } else {
      assert plan.UpTo(p)[k] == front[k];
      assert k < |plan.UpTo(p - 1)|;
      ReadFollowsItsPrefix(codec, log, plan, p - 1, k);
      assert plan.UpTo(p)[..k] == plan.UpTo(p - 1)[..k];
    }
  }
}
