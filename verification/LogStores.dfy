/**
  The two log stores as objects, proved to do what LogSpec and LogCrash say of them. Each has its
  own fields, as crates/multiraft-store/src/log_mem.rs and log_file.rs do.
 */
module LogStores {
  import opened Types
  import opened LogSpec
  import opened LogContents
  import LC = LogCrash

  // ----- loops both stores run over their ordered map -----

  method Inserted(m: Log, es: seq<Entry>) returns (out: Log)
    ensures out == InsertAll(m, es)
  {
    out := m;
    for i := 0 to |es|
      invariant out == InsertAll(m, es[..i])
    {
      assert es[..i + 1][..i] == es[..i];
      out := out[es[i].id.index := es[i]];
    }
    assert es[..|es|] == es;
  }

  /** Collect the keys, then remove them one by one. */
  method WithoutKeys(m: Log, keys: set<nat>) returns (out: Log)
    requires keys <= m.Keys
    ensures out == map k | k in m && k !in keys :: m[k]
  {
    out := m;
    var left := keys;
    while left != {}
      invariant left <= keys
      invariant out == map k | k in m && k !in keys - left :: m[k]
      decreases left
    {
      var k :| k in left;
      left := left - {k};
      out := out - {k};
    }
    assert keys - left == keys;
  }

  method Limit(keys: set<nat>) returns (b: nat)
    ensures forall k :: k in keys ==> k < b
  {
    b := 0;
    var left := keys;
    while left != {}
      invariant forall k :: k in keys ==> k in left || k < b
      decreases left
    {
      var k :| k in left;
      left := left - {k};
      if b <= k {
        b := k + 1;
      }
    }
  }

  method Scan(m: Log, lo: nat, hi: nat) returns (es: seq<Entry>)
    ensures es == Range(m, lo, hi)
  {
    es := [];
    if hi <= lo {
      return;
    }
    for k := lo to hi
      invariant es == Range(m, lo, k)
    {
      if k in m {
        es := es + [m[k]];
      }
    }
  }

  lemma {:induction false} RangeToBound(m: Log, lo: nat, b: nat)
    requires forall k :: k in m ==> k < b
    ensures Range(m, lo, b) == Range(m, lo, Bound(m.Keys))
  {
    var c := Bound(m.Keys);
    if b <= c {
      RangeBeyondKeys(m, lo, b, c);
    } else {
      RangeBeyondKeys(m, lo, c, b);
    }
  }

  /** An open-ended range runs to the greatest key. Callers never pass an inverted range. */
  method ReadEntries(m: Log, lo: nat, hi: Option<nat>) returns (es: seq<Entry>)
    requires hi.Some? ==> lo <= hi.value
    ensures es == Range(m, lo, if hi.Some? then hi.value else Bound(m.Keys))
  {
    match hi {
      case Some(h) => es := Scan(m, lo, h);
      case None =>
        var b := Limit(m.Keys);
        RangeToBound(m, lo, b);
        es := Scan(m, lo, b);
    }
  }

  method AllEntries(m: Log) returns (es: seq<Entry>)
    ensures es == Values(m)
  {
    es := ReadEntries(m, 0, None);
  }

  // ----- the store in memory -----

  class MemLog {
    var lastPurged: Option<LogId>
    var log: Log
    var committed: Option<LogId>
    var vote: Option<Vote>

    ghost function State(): Store
      reads this
    {
      Store(lastPurged, log, committed, vote)
    }

    constructor ()
      ensures State() == NewStore
    {
      lastPurged, log, committed, vote := None, map[], None, None;
    }

    method AppendEntries(es: seq<Entry>)
      modifies this`log
      ensures State() == After(old(State()), Append(es))
      ensures Appended(old(log), es, log)
    {
      AppendIsExact(log, es);
      log := Inserted(log, es);
    }

    method Truncate(last: Option<LogId>)
      modifies this`log
      ensures State() == After(old(State()), TruncateAfter(last))
      ensures forall k :: k in log <==> k in old(log) && last.Some? && k <= last.value.index
      ensures forall k :: k in log ==> log[k] == old(log)[k]
    {
      var start := match last case Some(id) => id.index + 1 case None => 0;
      log := WithoutKeys(log, set k | k in log && start <= k);
    }

    /** A mark that would go back panics before anything changes. */
    method PurgeUpTo(id: LogId) returns (r: Answer)
      modifies this`log, this`lastPurged
      ensures State() == After(old(State()), Purge(id))
      ensures r == AnswerOf(old(State()), Purge(id))
      ensures r == Done || r == Panicked
      ensures r == Panicked <==> old(lastPurged).Some? && !old(lastPurged).value.AtMost(id)
      ensures r == Panicked ==> State() == old(State())
      ensures r == Done ==> lastPurged == Some(id) && forall k :: k in log <==> k in old(log) && id.index < k
      ensures forall k :: k in log ==> k in old(log) && log[k] == old(log)[k]
    {
      if lastPurged.Some? && !lastPurged.value.AtMost(id) {
        return Panicked;
      }
      lastPurged := Some(id);
      log := WithoutKeys(log, set k | k in log && k <= id.index);
      r := Done;
    }

    method GetLogState() returns (r: Answer)
      ensures r == AnswerOf(State(), ReadState)
    {
      var es := AllEntries(log);
      r := LogState(lastPurged, if es == [] then lastPurged else Some(es[|es| - 1].id));
    }

    method TryGetLogEntries(lo: nat, hi: Option<nat>) returns (r: Answer)
      requires hi.Some? ==> lo <= hi.value
      ensures r == AnswerOf(State(), ReadRange(lo, hi))
    {
      var es := ReadEntries(log, lo, hi);
      r := Entries(es);
    }
  }

  // ----- the store on disk -----

  class FileLog {
    var lastPurged: Option<LogId>
    var log: Log
    var committed: Option<LogId>
    var vote: Option<Vote>
    var disk: LC.Disk
    /** Every disk state since the last open, in order: the points a crash can hit. */
    ghost var trace: seq<LC.Disk>

    ghost function State(): LC.FileStore
      reads this
    {
      LC.FileStore(Store(lastPurged, log, committed, vote), disk)
    }

    /** Fails on a file that does not parse; a file store never leaves one behind. */
    static method OpenAt(disk: LC.Disk) returns (r: Result<FileLog, string>)
      ensures r.Ok? <==> LC.Open(disk).Ok?
      ensures r.Ok? ==>
                && fresh(r.value) && r.value.trace == []
                && r.value.State() == LC.FileStore(LC.Open(disk).value, disk)
    {
      if disk.hard == Some(LC.Partial) || disk.log == Some(LC.Partial) {
        return Err("InvalidData");
      }
      var h := if disk.hard.None? then LC.HardState(None, None, None) else disk.hard.value.content;
      var m := Inserted(map[], if disk.log.None? then [] else disk.log.value.content);
      var f := new FileLog(Store(h.lastPurged, m, h.committed, h.vote), disk);
      r := Ok(f);
    }

    constructor (s: Store, disk: LC.Disk)
      ensures State() == LC.FileStore(s, disk) && trace == []
    {
      lastPurged, log, committed, vote := s.lastPurged, s.log, s.committed, s.vote;
      this.disk := disk;
      trace := [];
    }

    /** Write the temporary file, then rename it over the old one. */
    method PersistHardState()
      modifies this`disk, this`trace
      ensures var w := LC.HardWrites(old(disk), LC.HardOf(State().mem));
              disk == w[2] && trace == old(trace) + w
    {
      var h := LC.HardState(lastPurged, committed, vote);
      disk := disk.(hardTmp := Some(LC.Partial));
      trace := trace + [disk];
      disk := disk.(hardTmp := Some(LC.Whole(h)));
      trace := trace + [disk];
      disk := disk.(hard := disk.hardTmp, hardTmp := None);
      trace := trace + [disk];
    }

    method PersistLog()
      modifies this`disk, this`trace
      ensures var w := LC.LogWrites(old(disk), Values(log));
              disk == w[2] && trace == old(trace) + w
    {
      var es := AllEntries(log);
      disk := disk.(logTmp := Some(LC.Partial));
      trace := trace + [disk];
      disk := disk.(logTmp := Some(LC.Whole(es)));
      trace := trace + [disk];
      disk := disk.(log := disk.logTmp, logTmp := None);
      trace := trace + [disk];
    }

    method PersistAll()
      modifies this`disk, this`trace
      ensures var w := LC.BothWrites(old(disk), State().mem);
              disk == w[5] && trace == old(trace) + w
    {
      PersistHardState();
      PersistLog();
    }

    method AppendEntries(es: seq<Entry>)
      modifies this
      ensures State() == LC.FileAfter(old(State()), Append(es))
      ensures trace == old(trace) + LC.Passes(old(State()), Append(es))
      ensures Appended(old(log), es, log)
    {
      AppendIsExact(log, es);
      log := Inserted(log, es);
      PersistAll();
    }

    method Truncate(last: Option<LogId>)
      modifies this
      ensures State() == LC.FileAfter(old(State()), TruncateAfter(last))
      ensures trace == old(trace) + LC.Passes(old(State()), TruncateAfter(last))
      ensures forall k :: k in log <==> k in old(log) && last.Some? && k <= last.value.index
      ensures forall k :: k in log ==> log[k] == old(log)[k]
    {
      var start := match last case Some(id) => id.index + 1 case None => 0;
      log := WithoutKeys(log, set k | k in log && start <= k);
      assert log == TruncateTo(old(State()).mem, last).log;
      PersistLog();
    }

    method PurgeUpTo(id: LogId) returns (r: Answer)
      modifies this
      ensures State() == LC.FileAfter(old(State()), Purge(id))
      ensures r == AnswerOf(old(State()).mem, Purge(id))
      ensures trace == old(trace) + LC.Passes(old(State()), Purge(id))
      ensures r == Done || r == Panicked
      ensures r == Panicked <==> old(lastPurged).Some? && !old(lastPurged).value.AtMost(id)
      ensures r == Panicked ==> State() == old(State())
      ensures r == Done ==> lastPurged == Some(id) && forall k :: k in log <==> k in old(log) && id.index < k
      ensures forall k :: k in log ==> k in old(log) && log[k] == old(log)[k]
    {
      if lastPurged.Some? && !lastPurged.value.AtMost(id) {
        return Panicked;
      }
      lastPurged := Some(id);
      log := WithoutKeys(log, set k | k in log && k <= id.index);
      assert log == PurgeTo(old(State()).mem, id).log;
      PersistAll();
      r := Done;
    }

    method RecordVote(v: Vote)
      modifies this
      ensures State() == LC.FileAfter(old(State()), SaveVote(v))
      ensures trace == old(trace) + LC.Passes(old(State()), SaveVote(v))
      ensures vote == Some(v) && log == old(log) && lastPurged == old(lastPurged) && committed == old(committed)
    {
      vote := Some(v);
      PersistHardState();
    }

    method RecordCommitted(c: Option<LogId>)
      modifies this
      ensures State() == LC.FileAfter(old(State()), SaveCommitted(c))
      ensures trace == old(trace) + LC.Passes(old(State()), SaveCommitted(c))
      ensures committed == c && log == old(log) && lastPurged == old(lastPurged) && vote == old(vote)
    {
      committed := c;
      PersistHardState();
    }

    method GetLogState() returns (r: Answer)
      ensures r == AnswerOf(State().mem, ReadState)
    {
      var es := AllEntries(log);
      r := LogState(lastPurged, if es == [] then lastPurged else Some(es[|es| - 1].id));
    }

    method TryGetLogEntries(lo: nat, hi: Option<nat>) returns (r: Answer)
      requires hi.Some? ==> lo <= hi.value
      ensures r == AnswerOf(State().mem, ReadRange(lo, hi))
    {
      var es := ReadEntries(log, lo, hi);
      r := Entries(es);
    }
  }
}
