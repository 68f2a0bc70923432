/** The shape of the stored log when appends are contiguous, and replaying it after a restart. */
module LogShape {
  import opened Types
  import opened Counter
  import opened Bridge
  import LS = LogSpec
  import LC = LogCrash

  /** The keys are the gap-free interval that starts after the purge mark and ends before `n`. */
  ghost predicate Shape(s: LS.Store, n: nat) {
    && Count(s.lastPurged) <= n
    && LS.Keyed(s.log)
    && forall k: nat :: k in s.log <==> Count(s.lastPurged) <= k < n
  }

  /** What openraft promises of its calls: contiguous appends, and no purge behind the mark. */
  ghost predicate Orderly(s: LS.Store, n: nat, op: LS.Op) {
    match op
    case Append(es) => forall i :: 0 <= i < |es| ==> es[i].id.index == n + i
    case Purge(id) => Count(s.lastPurged) <= id.index + 1
    case _ => true
  }

  function EndAfter(s: LS.Store, n: nat, op: LS.Op): nat {
    match op
    case Append(es) => n + |es|
    case TruncateAfter(last) =>
      if n <= Count(last) then n else if Count(s.lastPurged) <= Count(last) then Count(last) else Count(s.lastPurged)
    case Purge(id) => if LS.CanPurge(s, id) && n <= id.index then id.index + 1 else n
    case _ => n
  }

  lemma {:induction false} ContiguousInsert(m: LS.Log, n: nat, es: seq<Entry>)
    requires forall i :: 0 <= i < |es| ==> es[i].id.index == n + i
    ensures forall k :: k in LS.InsertAll(m, es) <==> k in m || n <= k < n + |es|
  {
    if es != [] {
      ContiguousInsert(m, n, es[..|es| - 1]);
    }
  }

  lemma OrderlyKeepsShape(s: LS.Store, n: nat, op: LS.Op)
    requires Shape(s, n) && Orderly(s, n, op)
    ensures Shape(LS.After(s, op), EndAfter(s, n, op))
  {
    LS.AfterKeepsKeyed(s, op);
    if op.Append? {
      ContiguousInsert(s.log, n, op.es);
    }
  }

  /**
    The purge assertion compares terms before indexes, so it alone does not protect the shape: an
    allowed purge keeps it exactly when the mark's index does not fall back, or nothing is stored.
   */
  lemma PurgeKeepsShapeExactly(s: LS.Store, n: nat, id: LogId)
    requires Shape(s, n) && LS.CanPurge(s, id)
    ensures (exists e :: Shape(LS.PurgeTo(s, id), e)) <==>
            Count(s.lastPurged) <= id.index + 1 || n == Count(s.lastPurged)
  {
    var t := LS.PurgeTo(s, id);
    if Count(s.lastPurged) <= id.index + 1 {
      OrderlyKeepsShape(s, n, LS.Purge(id));
    } else if n == Count(s.lastPurged) {
      assert Shape(t, id.index + 1);
    } else {
      assert n - 1 in t.log && Count(s.lastPurged) - 1 !in t.log;
      forall e ensures !Shape(t, e) {
        assert n - 1 in t.log;
        assert Count(s.lastPurged) - 1 !in t.log;
      }
    }
  }

  /** Three entries, a purge of two in their term, and an allowed purge of one in the next: a gap. */
  lemma PurgeCanLeaveGap(es: seq<Entry>)
    requires |es| == 3 && forall i :: 0 <= i < 3 ==> es[i].id == LogId(1, i)
    ensures var s := LS.After(LS.After(LS.NewStore, LS.Append(es)), LS.Purge(LogId(1, 1)));
            && Shape(s, 3) && LS.CanPurge(s, LogId(2, 0))
            && forall e :: !Shape(LS.After(s, LS.Purge(LogId(2, 0))), e)
  {
    var s1 := LS.After(LS.NewStore, LS.Append(es));
    OrderlyKeepsShape(LS.NewStore, 0, LS.Append(es));
    OrderlyKeepsShape(s1, 3, LS.Purge(LogId(1, 1)));
    var s2 := LS.After(s1, LS.Purge(LogId(1, 1)));
    PurgeKeepsShapeExactly(s2, 3, LogId(2, 0));
  }

  predicate MarkAtMost(a: Option<LogId>, b: Option<LogId>) {
    a.None? || (b.Some? && a.value.AtMost(b.value))
  }

  ghost predicate IsOrderlyRun(ss: seq<LS.Store>, ns: seq<nat>, ops: seq<LS.Op>) {
    && |ss| == |ns| == |ops| + 1
    && ss[0] == LS.NewStore && ns[0] == 0
    && forall i :: 0 <= i < |ops| ==>
         && Orderly(ss[i], ns[i], ops[i])
         && ss[i + 1] == LS.After(ss[i], ops[i]) && ns[i + 1] == EndAfter(ss[i], ns[i], ops[i])
  }

  /** In every orderly run the log keeps its shape and the purge mark never decreases. */
  lemma {:induction false} OrderlyRunKeepsShape(ss: seq<LS.Store>, ns: seq<nat>, ops: seq<LS.Op>, i: nat, j: nat)
    requires IsOrderlyRun(ss, ns, ops) && i <= j < |ss|
    ensures Shape(ss[j], ns[j])
    ensures MarkAtMost(ss[i].lastPurged, ss[j].lastPurged)
  {
    if j > 0 {
      OrderlyRunKeepsShape(ss, ns, ops, if i < j then i else j - 1, j - 1);
      OrderlyKeepsShape(ss[j - 1], ns[j - 1], ops[j - 1]);
    }
  }

  lemma {:induction false} StoredRange(s: LS.Store, n: nat, lo: nat, hi: nat)
    requires Shape(s, n) && Count(s.lastPurged) <= lo <= hi <= n
    ensures var es := LS.Range(s.log, lo, hi);
            |es| == hi - lo && forall i :: 0 <= i < |es| ==> es[i] == s.log[lo + i] && es[i].id.index == lo + i
  {
    if lo < hi {
      StoredRange(s, n, lo, hi - 1);
    }
  }

  lemma {:induction false} NothingStored(m: LS.Log, lo: nat, hi: nat)
    requires forall k :: lo <= k < hi ==> k !in m
    ensures LS.Range(m, lo, hi) == []
  {
    if lo < hi {
      NothingStored(m, lo, hi - 1);
    }
  }

  lemma {:induction false} RangeSplits(m: LS.Log, lo: nat, mid: nat, hi: nat)
    requires lo <= mid <= hi
    ensures LS.Range(m, lo, hi) == LS.Range(m, lo, mid) + LS.Range(m, mid, hi)
  {
    if mid < hi {
      RangeSplits(m, lo, mid, hi - 1);
    }
  }

  /**
    On a well-shaped log a range read is exactly the stored part of the range, in index order,
    wherever the range begins and ends; one without an end runs to the last entry.
   */
  lemma RangeIsExact(s: LS.Store, n: nat, lo: nat, hi: Option<nat>)
    requires Shape(s, n)
    ensures var es := LS.Range(s.log, lo, if hi.Some? then hi.value else LS.Bound(s.log.Keys));
            var from := if lo <= Count(s.lastPurged) then Count(s.lastPurged) else lo;
            var to := if hi.None? || n <= hi.value then n else hi.value;
            && |es| == (if from <= to then to - from else 0)
            && forall i :: 0 <= i < |es| ==> es[i] == s.log[from + i] && es[i].id.index == from + i
  {
    var end := if hi.Some? then hi.value else LS.Bound(s.log.Keys);
    var first := Count(s.lastPurged);
    ClippedRange(s, n, lo, end);
    if hi.None? && first < n {
      assert n - 1 in s.log.Keys;
    }
  }

  lemma ClippedRange(s: LS.Store, n: nat, lo: nat, hi: nat)
    requires Shape(s, n)
    ensures var es := LS.Range(s.log, lo, hi);
            var from := if lo <= Count(s.lastPurged) then Count(s.lastPurged) else lo;
            var to := if n <= hi then n else hi;
            && |es| == (if from <= to then to - from else 0)
            && forall i :: 0 <= i < |es| ==> es[i] == s.log[from + i] && es[i].id.index == from + i
  {
    var first := Count(s.lastPurged);
    var from := if lo <= first then first else lo;
    var to := if n <= hi then n else hi;
    if n <= hi {
      LS.RangeBeyondKeys(s.log, lo, n, hi);
    }
    if from <= to {
      ClipBelow(s.log, lo, from, to);
      StoredRange(s, n, from, to);
    } else {
      NothingStored(s.log, lo, to);
    }
  }

  lemma ClipBelow(m: LS.Log, lo: nat, from: nat, hi: nat)
    requires lo <= from <= hi && forall k :: lo <= k < from ==> k !in m
    ensures LS.Range(m, lo, hi) == LS.Range(m, from, hi)
  {
    RangeSplits(m, lo, from, hi);
    NothingStored(m, lo, from);
  }

  /** The reported last log id is the last entry, or the purge mark when none is left. */
  lemma LastLogIdEndsTheLog(s: LS.Store, n: nat)
    requires Shape(s, n)
    ensures if n == Count(s.lastPurged) then LS.LastLogId(s) == s.lastPurged
            else LS.LastLogId(s) == Some(s.log[n - 1].id)
    ensures Count(LS.LastLogId(s)) == n
  {
    var first := Count(s.lastPurged);
    LS.ValuesAre(s.log, n);
    RangeSplits(s.log, 0, first, n);
    NothingStored(s.log, 0, first);
    StoredRange(s, n, first, n);
  }

  // ----- restart -----

  function AsItems(es: seq<Entry>): seq<Item> {
    seq(|es|, i requires 0 <= i < |es| => Item(es[i], false))
  }

  /**
    Restart replay. If nothing was purged, reopening the files and applying the entries up to the
    saved committed id to a new store rebuilds the state a replica has after exactly that
    prefix; should the state machine reject one, the state of the prefix up to it.
   */
  lemma ReopenAndReplay(codec: Codec, g: GroupId, f: LC.FileStore, n: nat, id: LogId, log: seq<Entry>)
    requires LC.Synced(f) && Shape(f.mem, n) && f.mem.lastPurged == None
    requires f.mem.committed == Some(id) && id.index < n && id.index < |log|
    requires forall k :: 0 <= k <= id.index ==> f.mem.log[k] == log[k]
    ensures LC.Open(f.disk).Ok?
    ensures var s := LC.Open(f.disk).value;
            var items := AsItems(LS.Range(s.log, 0, Count(s.committed)));
            var core := AfterApply(codec, g, NewCore, items);
            var r := Reached(codec, 0, items);
            && |items| == id.index + 1 && 0 < r <= |items|
            && core.fsm.View(g) == StateAt(codec, log, r)
            && core.lastApplied == Some(log[r - 1].id)
            && (Accepted(codec, items) == |items| ==> r == id.index + 1)
  {
    RestartReadsPrefix(f, n, id, log);
    ReplayPrefix(codec, g, log[..id.index + 1], log);
  }

  lemma RestartReadsPrefix(f: LC.FileStore, n: nat, id: LogId, log: seq<Entry>)
    requires LC.Synced(f) && Shape(f.mem, n) && f.mem.lastPurged == None
    requires f.mem.committed == Some(id) && id.index < n && id.index < |log|
    requires forall k :: 0 <= k <= id.index ==> f.mem.log[k] == log[k]
    ensures LC.Open(f.disk) == Ok(f.mem)
    ensures LS.Range(f.mem.log, 0, Count(f.mem.committed)) == log[..id.index + 1]
  {
    StoredRange(f.mem, n, 0, id.index + 1);
  }

  /** A first part of the log applied to a new store. */
  lemma ReplayPrefix(codec: Codec, g: GroupId, es: seq<Entry>, log: seq<Entry>)
    requires es <= log && es != []
    ensures var items := AsItems(es);
            var core := AfterApply(codec, g, NewCore, items);
            var r := Reached(codec, 0, items);
            && 0 < r <= |es|
            && core.fsm.View(g) == StateAt(codec, log, r)
            && core.lastApplied == Some(log[r - 1].id)
            && (Accepted(codec, items) == |items| ==> r == |es|)
  {
    var items := AsItems(es);
    assert Feeds(log, 0, items);
    assert log[..0] == [];
    ApplyKeepsPrefix(codec, g, NewCore, log, 0, 0, items);
  }
}
