/**
  The file-backed log store (crates/multiraft-store/src/log_file.rs): two files replaced by
  rename, memory in front of them, and a process that may die between any two file effects.
 */
module LogCrash {
  import opened Types
  import opened LogSpec

  datatype HardState = HardState(lastPurged: Option<LogId>, committed: Option<LogId>, vote: Option<Vote>)

  /** A file as a reader finds it: cut off in the middle, or whole. */
  datatype File<T> = Partial | Whole(content: T)

  datatype Disk = Disk(
    hard: Option<File<HardState>>, hardTmp: Option<File<HardState>>,
    log: Option<File<seq<Entry>>>, logTmp: Option<File<seq<Entry>>>)

  const NewDisk := Disk(None, None, None, None)

  function HardOf(s: Store): HardState {
    HardState(s.lastPurged, s.committed, s.vote)
  }

  /** The disk states a replacement of the hard state file passes through. */
  function HardWrites(d: Disk, h: HardState): seq<Disk> {
    [d.(hardTmp := Some(Partial)),
     d.(hardTmp := Some(Whole(h))),
     d.(hard := Some(Whole(h)), hardTmp := None)]
  }

  function LogWrites(d: Disk, es: seq<Entry>): seq<Disk> {
    [d.(logTmp := Some(Partial)),
     d.(logTmp := Some(Whole(es))),
     d.(log := Some(Whole(es)), logTmp := None)]
  }

  /** Opening ignores leftover temporary files and takes absent files for empty ones. */
  function Open(d: Disk): Result<Store, string> {
    if d.hard == Some(Partial) || d.log == Some(Partial) then Err("InvalidData")
    else
      var h := if d.hard.None? then HardState(None, None, None) else d.hard.value.content;
      var es := if d.log.None? then [] else d.log.value.content;
      Ok(Store(h.lastPurged, InsertAll(map[], es), h.committed, h.vote))
  }

  datatype FileStore = FileStore(mem: Store, disk: Disk)

  /** Every disk state the operation passes through, the last being where it ends. */
  ghost function Passes(f: FileStore, op: Op): seq<Disk> {
    var s := After(f.mem, op);
    match op
    case Append(_) => BothWrites(f.disk, s)
    case TruncateAfter(_) => LogWrites(f.disk, Values(s.log))
    case Purge(id) => if CanPurge(f.mem, id) then BothWrites(f.disk, s) else []
    case SaveVote(_) => HardWrites(f.disk, HardOf(s))
    case SaveCommitted(_) => HardWrites(f.disk, HardOf(s))
    case _ => []
  }

  ghost function BothWrites(d: Disk, s: Store): seq<Disk> {
    var h := HardWrites(d, HardOf(s));
    h + LogWrites(h[2], Values(s.log))
  }

  ghost function DiskAfter(f: FileStore, op: Op): Disk {
    var p := Passes(f, op);
    if p == [] then f.disk else p[|p| - 1]
  }

  /** A reopen forgets memory and reads the files. */
  ghost function FileAfter(f: FileStore, op: Op): FileStore {
    if op.Reopen? then
      match Open(f.disk)
      case Ok(s) => FileStore(s, f.disk)
      case Err(_) => f
    else FileStore(After(f.mem, op), DiskAfter(f, op))
  }

  ghost function FileRun(f: FileStore, ops: seq<Op>): FileStore {
    if ops == [] then f else FileAfter(FileRun(f, ops[..|ops| - 1]), ops[|ops| - 1])
  }

  ghost function FileAnswers(f: FileStore, ops: seq<Op>): seq<Answer> {
    if ops == [] then []
    else FileAnswers(f, ops[..|ops| - 1]) + [AnswerOf(FileRun(f, ops[..|ops| - 1]).mem, ops[|ops| - 1])]
  }

  // ----- disk equals memory -----

  ghost predicate Synced(f: FileStore) {
    Open(f.disk) == Ok(f.mem) && Keyed(f.mem.log)
  }

  lemma StepStaysSynced(f: FileStore, op: Op)
    requires Synced(f)
    ensures Synced(FileAfter(f, op))
    ensures FileAfter(f, op).mem == After(f.mem, op)
  {
    AfterKeepsKeyed(f.mem, op);
    var s := After(f.mem, op);
    ValuesReadBack(s.log);
  }

  /**
    The file store refines the memory store: any sequence of operations, with reopens anywhere,
    gets the same answers from both.
   */
  lemma {:induction false} FileStoreRefinesMemory(f: FileStore, ops: seq<Op>)
    requires Synced(f)
    ensures FileAnswers(f, ops) == Answers(f.mem, ops)
    ensures FileRun(f, ops).mem == Run(f.mem, ops)
    ensures Synced(FileRun(f, ops))
  {
    if ops != [] {
      FileStoreRefinesMemory(f, ops[..|ops| - 1]);
      StepStaysSynced(FileRun(f, ops[..|ops| - 1]), ops[|ops| - 1]);
    }
  }

  // ----- crashes -----

  /** The disk after `point` file effects of the operation. */
  ghost function CrashDisk(f: FileStore, op: Op, point: nat): Disk
    requires point <= |Passes(f, op)|
  {
    if point == 0 then f.disk else Passes(f, op)[point - 1]
  }

  /** Only the purge mark got through. */
  function MarkOnly(s: Store, id: LogId): Store {
    s.(lastPurged := Some(id))
  }

  /** Cut short anywhere, a replacement of the hard state leaves the old one or the new one. */
  lemma HardCrash(d: Disk, h: HardState, s: Store, point: nat)
    requires Open(d) == Ok(s) && point <= 3
    ensures var d' := if point == 0 then d else HardWrites(d, h)[point - 1];
            Open(d') == Ok(if point < 3 then s
                           else s.(lastPurged := h.lastPurged, committed := h.committed, vote := h.vote))
  {
  }

  lemma LogFileCrash(d: Disk, m: Log, s: Store, point: nat)
    requires Open(d) == Ok(s) && point <= 3 && Keyed(m)
    ensures var d' := if point == 0 then d else LogWrites(d, Values(m))[point - 1];
            Open(d') == Ok(if point < 3 then s else s.(log := m))
  {
    ValuesReadBack(m);
  }

  /** Both files in turn: before the first rename, between the two, after the second. */
  lemma BothCrash(d: Disk, t: Store, s: Store, point: nat)
    requires Open(d) == Ok(s) && point <= 6 && Keyed(t.log)
    ensures var d' := if point == 0 then d else BothWrites(d, t)[point - 1];
            Open(d') == Ok(if point < 3 then s else if point < 6 then t.(log := s.log) else t)
  {
    HardCrash(d, HardOf(t), s, if point < 3 then point else 3);
    if point > 3 {
      LogFileCrash(HardWrites(d, HardOf(t))[2], t.log, t.(log := s.log), point - 3);
    }
  }

  /**
    Crash recovery. A crash after any number of file effects reopens to the state before or after
    the operation. Inside a purge it may also reopen with the new mark and the old log, and
    then repeating that purge is allowed and completes it.
   */
  lemma CrashRecovers(f: FileStore, op: Op, point: nat)
    requires Synced(f) && point <= |Passes(f, op)|
    ensures Open(CrashDisk(f, op, point)).Ok?
    ensures var s := Open(CrashDisk(f, op, point)).value;
            || s == f.mem
            || s == After(f.mem, op)
            || (op.Purge? && CanPurge(f.mem, op.id) && s == MarkOnly(f.mem, op.id)
                && CanPurge(s, op.id) && After(s, op) == After(f.mem, op))
    ensures point == |Passes(f, op)| ==> Open(CrashDisk(f, op, point)).value == After(f.mem, op)
  {
    AfterKeepsKeyed(f.mem, op);
    var t := After(f.mem, op);
    match op {
      case Append(_) => BothCrash(f.disk, t, f.mem, point);
      case TruncateAfter(_) => LogFileCrash(f.disk, t.log, f.mem, point);
      case Purge(id) =>
        if CanPurge(f.mem, id) {
          BothCrash(f.disk, t, f.mem, point);
        }
      case SaveVote(_) => HardCrash(f.disk, HardOf(t), f.mem, point);
      case SaveCommitted(_) => HardCrash(f.disk, HardOf(t), f.mem, point);
      case _ =>
    }
  }

  /** What happens to the store over its life: operations that finish, and ones a crash cuts short. */
  datatype Event = Finished(op: Op) | Crashed(op: Op, point: nat)

  ghost predicate Possible(f: FileStore, e: Event) {
    e.Crashed? ==> e.point <= |Passes(f, e.op)|
  }

  ghost function Live(f: FileStore, e: Event): FileStore
    requires Possible(f, e)
  {
    match e
    case Finished(op) => FileAfter(f, op)
    case Crashed(op, point) =>
      var d := CrashDisk(f, op, point);
      match Open(d)
      case Ok(s) => FileStore(s, d)
      case Err(_) => f.(disk := d)
  }

  ghost predicate IsLife(fs: seq<FileStore>, es: seq<Event>) {
    && |fs| == |es| + 1
    && fs[0] == FileStore(NewStore, NewDisk)
    && forall i :: 0 <= i < |es| ==> Possible(fs[i], es[i]) && fs[i + 1] == Live(fs[i], es[i])
  }

  /** One event as the memory store could have seen it. */
  ghost predicate Explained(s: Store, e: Event, s': Store) {
    || s' == After(s, e.op)
    || (e.Crashed? && s' == s)
    || (e.Crashed? && e.op.Purge? && CanPurge(s, e.op.id) && s' == MarkOnly(s, e.op.id))
  }

  /**
    Over a whole life with crashes anywhere, the store always reopens, and every finished
    operation took effect in full: each change of the store is that of the operation, or for a
    crashed one nothing at all, or a purge mark alone.
   */
  lemma {:induction false} LifeIsExplained(fs: seq<FileStore>, es: seq<Event>, i: nat)
    requires IsLife(fs, es) && i < |fs|
    ensures Synced(fs[i])
    ensures forall p :: 0 <= p < i ==> Explained(fs[p].mem, es[p], fs[p + 1].mem)
  {
    if i > 0 {
      LifeIsExplained(fs, es, i - 1);
      var f, e := fs[i - 1], es[i - 1];
      assert Possible(f, e) && fs[i] == Live(f, e);
      match e {
        case Finished(op) => StepStaysSynced(f, op);
        case Crashed(op, point) =>
          CrashRecovers(f, op, point);
          AfterKeepsKeyed(f.mem, op);
      }
    }
  }
}
