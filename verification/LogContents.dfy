/** What a log store holds and answers after any operations, said entry by entry. */
module LogContents {
  import opened Types
  import opened LogSpec
  import LC = LogCrash

  // ----- one operation -----

  /** Entry `i` of an append is the last one there with its index. */
  predicate IsLastOf(es: seq<Entry>, i: nat) {
    i < |es| && forall j :: i < j < |es| ==> es[j].id.index != es[i].id.index
  }

  /** Each appended entry is stored as it is, the last one where indexes repeat; nothing else changes. */
  ghost predicate Appended(was: Log, es: seq<Entry>, now: Log) {
    && (forall i :: 0 <= i < |es| && IsLastOf(es, i) ==> es[i].id.index in now && now[es[i].id.index] == es[i])
    && (forall k :: (forall j :: 0 <= j < |es| ==> es[j].id.index != k) ==>
          (k in now <==> k in was) && (k in was ==> now[k] == was[k]))
  }

  lemma {:induction false} InsertStores(m: Log, es: seq<Entry>, i: nat)
    requires IsLastOf(es, i)
    ensures es[i].id.index in InsertAll(m, es) && InsertAll(m, es)[es[i].id.index] == es[i]
  {
    if i < |es| - 1 {
      InsertStores(m, es[..|es| - 1], i);
    }
  }

  lemma {:induction false} InsertKeeps(m: Log, es: seq<Entry>, k: nat)
    requires forall j :: 0 <= j < |es| ==> es[j].id.index != k
    ensures k in InsertAll(m, es) <==> k in m
    ensures k in m ==> InsertAll(m, es)[k] == m[k]
  {
    if es != [] {
      InsertKeeps(m, es[..|es| - 1], k);
    }
  }

  lemma AppendIsExact(m: Log, es: seq<Entry>)
    ensures Appended(m, es, InsertAll(m, es))
  {
    forall i | 0 <= i < |es| && IsLastOf(es, i)
      ensures es[i].id.index in InsertAll(m, es) && InsertAll(m, es)[es[i].id.index] == es[i]
    {
      InsertStores(m, es, i);
    }
    forall k: nat | forall j :: 0 <= j < |es| ==> es[j].id.index != k
      ensures (k in InsertAll(m, es) <==> k in m) && (k in m ==> InsertAll(m, es)[k] == m[k])
    {
      InsertKeeps(m, es, k);
    }
  }

  /** The operation appends an entry at this index. */
  predicate Touches(op: Op, k: nat) {
    op.Append? && exists j :: 0 <= j < |op.es| && op.es[j].id.index == k
  }

  /** The operation cuts this index off: truncation above the last kept, a purge that is allowed below. */
  predicate Drops(s: Store, op: Op, k: nat) {
    match op
    case TruncateAfter(last) => last.None? || last.value.index < k
    case Purge(id) => CanPurge(s, id) && k <= id.index
    case _ => false
  }

  lemma {:induction false} LastOfExists(es: seq<Entry>, j: nat) returns (i: nat)
    requires j < |es|
    ensures IsLastOf(es, i) && es[i].id.index == es[j].id.index
    decreases |es| - j
  {
    i := j;
    if n :| j < n < |es| && es[n].id.index == es[j].id.index {
      i := LastOfExists(es, n);
    }
  }

  /** What one operation does to one index: dropped, or left as it was, unless it is appended. */
  lemma UntouchedIsExact(s: Store, op: Op, k: nat)
    requires !Touches(op, k)
    ensures k in After(s, op).log <==> k in s.log && !Drops(s, op, k)
    ensures k in After(s, op).log ==> After(s, op).log[k] == s.log[k]
  {
    if op.Append? {
      InsertKeeps(s.log, op.es, k);
    }
  }

  // ----- whole runs -----

  /** Entry `i` of append `p` is still the one for its index: nothing since appended, cut or purged it. */
  ghost predicate Survives(ops: seq<Op>, p: int, i: int) {
    && 0 <= p < |ops| && ops[p].Append? && 0 <= i && IsLastOf(ops[p].es, i)
    && var k := ops[p].es[i].id.index;
    && forall q :: p < q < |ops| ==> !Touches(ops[q], k) && !Drops(Run(NewStore, ops[..q]), ops[q], k)
  }

  lemma RunsOneMore(ops: seq<Op>)
    requires ops != []
    ensures Run(NewStore, ops) == After(Run(NewStore, ops[..|ops| - 1]), ops[|ops| - 1])
  {
  }

  lemma {:induction false} SurvivorIsStored(ops: seq<Op>, p: int, i: int)
    requires Survives(ops, p, i)
    ensures var e := ops[p].es[i]; e.id.index in Run(NewStore, ops).log && Run(NewStore, ops).log[e.id.index] == e
  {
    var n := |ops| - 1;
    var before, s := ops[..n], Run(NewStore, ops[..n]);
    RunsOneMore(ops);
    if p == n {
      InsertStores(s.log, ops[n].es, i);
    } else {
      var k := ops[p].es[i].id.index;
      forall q | p < q < n ensures !Touches(before[q], k) && !Drops(Run(NewStore, before[..q]), before[q], k) {
        assert before[..q] == ops[..q];
      }
      SurvivorIsStored(before, p, i);
      UntouchedIsExact(s, ops[n], k);
    }
  }

  lemma {:induction false} StoredSurvives(ops: seq<Op>, k: nat) returns (p: int, i: int)
    requires k in Run(NewStore, ops).log
    ensures Survives(ops, p, i) && ops[p].es[i].id.index == k
  {
    var n := |ops| - 1;
    RunsOneMore(ops);
    if Touches(ops[n], k) {
      var j: nat :| j < |ops[n].es| && ops[n].es[j].id.index == k;
      i := LastOfExists(ops[n].es, j);
      p := n;
    } else {
      UntouchedIsExact(Run(NewStore, ops[..n]), ops[n], k);
      p, i := StoredSurvives(ops[..n], k);
      forall q | p < q < |ops| ensures !Touches(ops[q], k) && !Drops(Run(NewStore, ops[..q]), ops[q], k) {
        if q < n {
          assert ops[..n][q] == ops[q] && ops[..n][..q] == ops[..q];
        }
      }
    }
  }

  // ----- what range reads answer -----

  lemma {:induction false} RunKeepsKeyed(ops: seq<Op>)
    ensures Keyed(Run(NewStore, ops).log)
  {
    if ops != [] {
      RunKeepsKeyed(ops[..|ops| - 1]);
      AfterKeepsKeyed(Run(NewStore, ops[..|ops| - 1]), ops[|ops| - 1]);
    }
  }

  lemma {:induction false} RangeHolds(m: Log, lo: nat, hi: nat, e: Entry)
    requires Keyed(m)
    ensures e in Range(m, lo, hi) <==> lo <= e.id.index < hi && e.id.index in m && m[e.id.index] == e
  {
    if lo < hi {
      RangeHolds(m, lo, hi - 1, e);
    }
  }

  ghost predicate Ascends(es: seq<Entry>) {
    forall a, b :: 0 <= a < b < |es| ==> es[a].id.index < es[b].id.index
  }

  lemma {:induction false} RangeAscends(m: Log, lo: nat, hi: nat)
    requires Keyed(m)
    ensures Ascends(Range(m, lo, hi))
    ensures forall a :: 0 <= a < |Range(m, lo, hi)| ==> Range(m, lo, hi)[a].id.index < hi
  {
    if lo < hi {
      RangeAscends(m, lo, hi - 1);
    }
  }

  /** The entries a range read must answer with: the survivors of the range. */
  ghost predicate IsAnswer(ops: seq<Op>, lo: nat, hi: Option<nat>, e: Entry) {
    && lo <= e.id.index && (hi.Some? ==> e.id.index < hi.value)
    && exists p, i :: Survives(ops, p, i) && ops[p].es[i] == e
  }

  /**
    End to end. After any operations a range read answers, in index order and once each, exactly the
    entries of the range that were appended and neither appended over, truncated nor purged since.
   */
  lemma ReadRangeIsExact(ops: seq<Op>, lo: nat, hi: Option<nat>)
    ensures AnswerOf(Run(NewStore, ops), ReadRange(lo, hi)).Entries?
    ensures var es := AnswerOf(Run(NewStore, ops), ReadRange(lo, hi)).es;
            && (forall e :: e in es <==> IsAnswer(ops, lo, hi, e))
            && Ascends(es)
  {
    var s := Run(NewStore, ops);
    var end := if hi.Some? then hi.value else Bound(s.log.Keys);
    RunKeepsKeyed(ops);
    RangeAscends(s.log, lo, end);
    forall e ensures e in Range(s.log, lo, end) <==> IsAnswer(ops, lo, hi, e) {
      RangeHolds(s.log, lo, end, e);
      AnsweredSurvives(ops, e);
      if e.id.index in s.log {
        assert e.id.index in s.log.Keys;
      }
    }
  }

  lemma AnsweredSurvives(ops: seq<Op>, e: Entry)
    ensures var m := Run(NewStore, ops).log;
            e.id.index in m && m[e.id.index] == e <==> exists p, i :: Survives(ops, p, i) && ops[p].es[i] == e
  {
    var m := Run(NewStore, ops).log;
    if e.id.index in m && m[e.id.index] == e {
      var p, i := StoredSurvives(ops, e.id.index);
      SurvivorIsStored(ops, p, i);
    }
    if p, i :| Survives(ops, p, i) && ops[p].es[i] == e {
      SurvivorIsStored(ops, p, i);
    }
  }

  /** The file store, reopened as often as one likes, answers the same. */
  lemma FileReadRangeIsExact(ops: seq<Op>, lo: nat, hi: Option<nat>)
    ensures var f := LC.FileRun(LC.FileStore(NewStore, LC.NewDisk), ops);
            && AnswerOf(f.mem, ReadRange(lo, hi)).Entries?
            && var es := AnswerOf(f.mem, ReadRange(lo, hi)).es;
            && (forall e :: e in es <==> IsAnswer(ops, lo, hi, e))
            && Ascends(es)
  {
    LC.FileStoreRefinesMemory(LC.FileStore(NewStore, LC.NewDisk), ops);
    ReadRangeIsExact(ops, lo, hi);
  }

  // ----- what the other reads answer -----

  /** The last of the operations picked, or none. */
  ghost predicate IsLastPick(pick: seq<bool>, p: int) {
    && -1 <= p < |pick| && (p >= 0 ==> pick[p])
    && forall q :: p < q < |pick| ==> !pick[q]
  }

  ghost function VoteSaves(ops: seq<Op>): seq<bool> {
    seq(|ops|, q requires 0 <= q < |ops| => ops[q].SaveVote?)
  }

  lemma {:induction false} ReadVoteIsLastSaved(ops: seq<Op>, p: int)
    requires IsLastPick(VoteSaves(ops), p)
    ensures AnswerOf(Run(NewStore, ops), ReadVote) == VoteIs(if p < 0 then None else Some(ops[p].vote))
  {
    var n := |ops| - 1;
    if p < n {
      assert !VoteSaves(ops)[n];
      assert VoteSaves(ops[..n]) == VoteSaves(ops)[..n];
      ReadVoteIsLastSaved(ops[..n], p);
    }
  }

  ghost function CommittedSaves(ops: seq<Op>): seq<bool> {
    seq(|ops|, q requires 0 <= q < |ops| => ops[q].SaveCommitted?)
  }

  lemma {:induction false} ReadCommittedIsLastSaved(ops: seq<Op>, p: int)
    requires IsLastPick(CommittedSaves(ops), p)
    ensures AnswerOf(Run(NewStore, ops), ReadCommitted) == CommittedIs(if p < 0 then None else ops[p].committed)
  {
    var n := |ops| - 1;
    if p < n {
      assert !CommittedSaves(ops)[n];
      assert CommittedSaves(ops[..n]) == CommittedSaves(ops)[..n];
      ReadCommittedIsLastSaved(ops[..n], p);
    }
  }

  /** The purges that were allowed when they came. */
  ghost function Purges(ops: seq<Op>): seq<bool> {
    seq(|ops|, q requires 0 <= q < |ops| => ops[q].Purge? && CanPurge(Run(NewStore, ops[..q]), ops[q].id))
  }

  lemma {:induction false} MarkIsLastPurged(ops: seq<Op>, p: int)
    requires IsLastPick(Purges(ops), p)
    ensures Run(NewStore, ops).lastPurged == if p < 0 then None else Some(ops[p].id)
  {
    var n := |ops| - 1;
    if p < n {
      assert !Purges(ops)[n];
      forall q | 0 <= q < n ensures Purges(ops[..n])[q] == Purges(ops)[q] {
        assert ops[..n][..q] == ops[..q];
      }
      MarkIsLastPurged(ops[..n], p);
    } else if n >= 0 {
      assert Purges(ops)[n];
    }
  }

  /** The last log id is that of the greatest index stored, or the purge mark when nothing is. */
  lemma LastLogIdIsGreatest(s: Store, k: nat)
    requires k in s.log && forall j :: j in s.log ==> j <= k
    ensures LastLogId(s) == Some(s.log[k].id)
  {
    ValuesAre(s.log, k + 1);
  }

  lemma EmptyLogEndsAtMark(s: Store)
    requires s.log == map[]
    ensures LastLogId(s) == s.lastPurged
  {
    ValuesAre(s.log, 0);
  }

  /**
    The log state after any operations: the last allowed purge, and the id of the survivor with the
    greatest index, or the purge again when nothing survives.
   */
  lemma ReadStateIsExact(ops: seq<Op>, mark: int, p: int, i: int)
    requires IsLastPick(Purges(ops), mark)
    requires p < 0 ==> forall q, j :: !Survives(ops, q, j)
    requires p >= 0 ==>
               && Survives(ops, p, i)
               && forall q, j :: Survives(ops, q, j) ==> ops[q].es[j].id.index <= ops[p].es[i].id.index
    ensures var purged := if mark < 0 then None else Some(ops[mark].id);
            AnswerOf(Run(NewStore, ops), ReadState) == LogState(purged, if p < 0 then purged else Some(ops[p].es[i].id))
  {
    var s := Run(NewStore, ops);
    MarkIsLastPurged(ops, mark);
    forall k | k in s.log ensures p >= 0 && k <= ops[p].es[i].id.index {
      var q, j := StoredSurvives(ops, k);
    }
    if p < 0 {
      assert s.log == map[];
      EmptyLogEndsAtMark(s);
    } else {
      SurvivorIsStored(ops, p, i);
      LastLogIdIsGreatest(s, ops[p].es[i].id.index);
    }
  }
}
