/**
  The Raft log store as a value: what every operation of the in-memory store
  (crates/multiraft-store/src/log_mem.rs) does to the store and answers.
 */
module LogSpec {
  import opened Types

  datatype Vote = Vote(term: nat, node: NodeId, committed: bool)

  type Log = map<nat, Entry>

  datatype Store = Store(lastPurged: Option<LogId>, log: Log, committed: Option<LogId>, vote: Option<Vote>)

  const NewStore := Store(None, map[], None, None)

  // ----- ordered maps -----

  /** The entries with keys in `lo..hi`, in key order. */
  function Range(m: Log, lo: nat, hi: nat): seq<Entry> {
    if hi <= lo then []
    else Range(m, lo, hi - 1) + if hi - 1 in m then [m[hi - 1]] else []
  }

  /** Some number above every key. */
  ghost function Bound(keys: set<nat>): (b: nat)
    ensures forall k :: k in keys ==> k < b
  {
    if keys == {} then 0
    else
      var k :| k in keys;
      var b := Bound(keys - {k});
      assert forall j :: j in keys ==> j == k || j in keys - {k};
      if k < b then b else k + 1
  }

  ghost function Values(m: Log): seq<Entry> {
    Range(m, 0, Bound(m.Keys))
  }

  lemma {:induction false} RangeBeyondKeys(m: Log, lo: nat, a: nat, b: nat)
    requires a <= b && forall k :: k in m ==> k < a
    ensures Range(m, lo, b) == Range(m, lo, a)
  {
    if a < b {
      RangeBeyondKeys(m, lo, a, b - 1);
      if b <= lo {
        assert Range(m, lo, b) == [] == Range(m, lo, a);
      }
    }
  }

  lemma ValuesAre(m: Log, b: nat)
    requires forall k :: k in m ==> k < b
    ensures Values(m) == Range(m, 0, b)
  {
    var c := Bound(m.Keys);
    if b <= c {
      RangeBeyondKeys(m, 0, b, c);
    } else {
      RangeBeyondKeys(m, 0, c, b);
    }
  }

  // ----- operations -----

  function InsertAll(m: Log, es: seq<Entry>): Log {
    if es == [] then m
    else InsertAll(m, es[..|es| - 1])[es[|es| - 1].id.index := es[|es| - 1]]
  }

  function AppendTo(s: Store, es: seq<Entry>): Store {
    s.(log := InsertAll(s.log, es))
  }

  function TruncateTo(s: Store, last: Option<LogId>): Store {
    s.(log := map k | k in s.log && k < Count(last) :: s.log[k])
  }

  /** The assertion `purge` opens with. */
  predicate CanPurge(s: Store, id: LogId) {
    s.lastPurged.None? || s.lastPurged.value.AtMost(id)
  }

  function PurgeTo(s: Store, id: LogId): Store {
    s.(lastPurged := Some(id), log := map k | k in s.log && id.index < k :: s.log[k])
  }

  ghost function LastLogId(s: Store): Option<LogId> {
    var vs := Values(s.log);
    if vs == [] then s.lastPurged else Some(vs[|vs| - 1].id)
  }

  datatype Op =
    | Append(es: seq<Entry>)
    | TruncateAfter(last: Option<LogId>)
    | Purge(id: LogId)
    | SaveVote(vote: Vote)
    | SaveCommitted(committed: Option<LogId>)
    | ReadRange(lo: nat, hi: Option<nat>)
    | ReadState
    | ReadVote
    | ReadCommitted
    | Reopen

  datatype Answer =
    | Done
    | Panicked
    | Entries(es: seq<Entry>)
    | LogState(lastPurged: Option<LogId>, last: Option<LogId>)
    | VoteIs(vote: Option<Vote>)
    | CommittedIs(committed: Option<LogId>)

  /** Reopening means nothing to a store in memory: it simply stays. */
  ghost function After(s: Store, op: Op): Store {
    match op
    case Append(es) => AppendTo(s, es)
    case TruncateAfter(last) => TruncateTo(s, last)
    case Purge(id) => if CanPurge(s, id) then PurgeTo(s, id) else s
    case SaveVote(v) => s.(vote := Some(v))
    case SaveCommitted(c) => s.(committed := c)
    case _ => s
  }

  ghost function AnswerOf(s: Store, op: Op): Answer {
    match op
    case Purge(id) => if CanPurge(s, id) then Done else Panicked
    case ReadRange(lo, hi) => Entries(Range(s.log, lo, if hi.Some? then hi.value else Bound(s.log.Keys)))
    case ReadState => LogState(s.lastPurged, LastLogId(s))
    case ReadVote => VoteIs(s.vote)
    case ReadCommitted => CommittedIs(s.committed)
    case _ => Done
  }

  ghost function Run(s: Store, ops: seq<Op>): Store {
    if ops == [] then s else After(Run(s, ops[..|ops| - 1]), ops[|ops| - 1])
  }

  ghost function Answers(s: Store, ops: seq<Op>): seq<Answer> {
    if ops == [] then []
    else Answers(s, ops[..|ops| - 1]) + [AnswerOf(Run(s, ops[..|ops| - 1]), ops[|ops| - 1])]
  }

  // ----- keys and indexes -----

  /** Every key is the index of its entry. */
  ghost predicate Keyed(m: Log) {
    forall k :: k in m ==> m[k].id.index == k
  }

  lemma {:induction false} InsertKeepsKeyed(m: Log, es: seq<Entry>)
    requires Keyed(m)
    ensures Keyed(InsertAll(m, es))
  {
    if es != [] {
      InsertKeepsKeyed(m, es[..|es| - 1]);
    }
  }

  lemma AfterKeepsKeyed(s: Store, op: Op)
    requires Keyed(s.log)
    ensures Keyed(After(s, op).log)
  {
    if op.Append? {
      InsertKeepsKeyed(s.log, op.es);
    }
  }

  /** Writing the entries out in key order and reading them back gives the same map. */
  lemma {:induction false} RangeReadsBack(m: Log, hi: nat)
    requires Keyed(m)
    ensures InsertAll(map[], Range(m, 0, hi)) == map k | k in m && k < hi :: m[k]
  {
    if hi > 0 {
      RangeReadsBack(m, hi - 1);
      var rest := Range(m, 0, hi - 1);
      if hi - 1 in m {
        assert (rest + [m[hi - 1]])[..|rest + [m[hi - 1]]| - 1] == rest;
      } else {
        assert Range(m, 0, hi) == rest;
        assert (map k | k in m && k < hi - 1 :: m[k]) == (map k | k in m && k < hi :: m[k]);
      }
    }
  }

  lemma ValuesReadBack(m: Log)
    requires Keyed(m)
    ensures InsertAll(map[], Values(m)) == m
  {
    RangeReadsBack(m, Bound(m.Keys));
    assert (map k | k in m && k < Bound(m.Keys) :: m[k]) == m;
  }
}
