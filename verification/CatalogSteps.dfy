/**
  One group's catalog under any number of concurrent writers and at any crash point. Each step
  is one effect on the file system: part of a file, a whole file, a listing, a removal.
 */
module CatalogSteps {
  import opened Types
  import opened Names
  import opened TopKeep
  import opened Catalog

  datatype Write = Write(key: Key, id: string, data: Bytes)

  datatype Config = Config(group: GroupId, keep: nat, hash: Bytes -> Digest) {
    ghost predicate Valid() {
      keep >= 1 && forall a, b :: hash(a) == hash(b) ==> a == b
    }
  }

  function MetaFor(c: Config, w: Write): Meta {
    MetaOf(c.hash, c.group, w.key, w.id, w.data)
  }

  /** Where a call of `write` stands. */
  datatype Writer =
    | Data(w: Write)
    | MetaPart(w: Write)
    | Placed(w: Write)
    | Listing(w: Write, todo: set<string>, listed: set<Key>)
    | Removing(w: Write, victims: set<string>)
    | Finished(w: Write, ok: bool)

  /**
    `begun` and `written` are history: the writes ever begun, and the keys whose meta file was
    ever complete.
   */
  datatype State = State(dirs: Dirs, writers: map<nat, Writer>, begun: set<Write>, written: set<Key>)

  const Initial := State(map[], map[], {}, {})

  datatype Step =
    | Begin(t: nat, w: Write)
    | DataChunk(t: nat, n: nat)
    | DataDone(t: nat)
    | MetaChunk(t: nat)
    | MetaDone(t: nat)
    | OpenListing(t: nat)
    | Visit(t: nat, dir: string)
    | ListDone(t: nat)
    | RemoveFiles(t: nat, victim: string, dataToo: bool, metaToo: bool)
    | RemoveDir(t: nat, victim: string)
    | RemoveFails(t: nat, victim: string)
    | Finish(t: nat)
    | Fail(t: nat)
    | Crash

  /** The names a prune would remove after listing these keys. */
  ghost function VictimNames(keep: nat, listed: set<Key>): set<string> {
    set k | k in listed && |Above(listed, k)| >= keep :: Name(k)
  }

  /** A listing reads one more directory; a meta file that does not parse ends the whole write. */
  function Visited(d: Dirs, l: Writer, n: string): Writer
    requires l.Listing?
  {
    if n in d && d[n].meta == Some(Torn) then Finished(l.w, false)
    else Listing(l.w, l.todo - {n}, if IsComplete(d, n) then l.listed + {MetaAt(d, n).key} else l.listed)
  }

  predicate At(s: State, t: nat) {
    t in s.writers
  }

  /** The directory is made if it is not there; files in it stay. */
  function Begun(s: State, t: nat, w: Write): State {
    s.(dirs := if Name(w.key) in s.dirs then s.dirs else s.dirs[Name(w.key) := Dir(None, None)],
       writers := s.writers[t := Data(w)],
       begun := s.begun + {w})
  }

  ghost predicate Next(c: Config, s: State, a: Step, s': State) {
    match a
    case Begin(t, w) =>
      && t !in s.writers
      && s' == Begun(s, t, w)
    case DataChunk(t, n) =>
      && At(s, t) && s.writers[t].Data?
      && var w := s.writers[t].w;
      && n <= |w.data| && Name(w.key) in s.dirs
      && s' == s.(dirs := s.dirs[Name(w.key) := s.dirs[Name(w.key)].(data := Some(w.data[..n]))])
    case DataDone(t) =>
      && At(s, t) && s.writers[t].Data?
      && var w := s.writers[t].w;
      && Name(w.key) in s.dirs
      && s' == s.(dirs := s.dirs[Name(w.key) := s.dirs[Name(w.key)].(data := Some(w.data))],
                  writers := s.writers[t := MetaPart(w)])
    case MetaChunk(t) =>
      && At(s, t) && s.writers[t].MetaPart?
      && var w := s.writers[t].w;
      && Name(w.key) in s.dirs
      && s' == s.(dirs := s.dirs[Name(w.key) := s.dirs[Name(w.key)].(meta := Some(Torn))])
    case MetaDone(t) =>
      && At(s, t) && s.writers[t].MetaPart?
      && var w := s.writers[t].w;
      && Name(w.key) in s.dirs
      && s' == s.(dirs := s.dirs[Name(w.key) := s.dirs[Name(w.key)].(meta := Some(Complete(MetaFor(c, w))))],
                  writers := s.writers[t := Placed(w)],
                  written := s.written + {w.key})
    // A listing is not atomic. It visits every directory there was when it was opened, each at its
    // own moment; one made since may be visited or not.
    case OpenListing(t) =>
      && At(s, t) && s.writers[t].Placed?
      && s' == s.(writers := s.writers[t := Listing(s.writers[t].w, s.dirs.Keys, {})])
    case Visit(t, n) =>
      && At(s, t) && s.writers[t].Listing? && (n in s.writers[t].todo || n in s.dirs)
      && s' == s.(writers := s.writers[t := Visited(s.dirs, s.writers[t], n)])
    case ListDone(t) =>
      && At(s, t) && s.writers[t].Listing? && s.writers[t].todo == {}
      && s' == s.(writers := s.writers[t := Removing(s.writers[t].w, VictimNames(c.keep, s.writers[t].listed))])
    case RemoveFiles(t, v, dataToo, metaToo) =>
      && At(s, t) && s.writers[t].Removing? && v in s.writers[t].victims && v in s.dirs
      && s' == s.(dirs := s.dirs[v := Dir(if dataToo then None else s.dirs[v].data,
                                          if metaToo then None else s.dirs[v].meta)])
    case RemoveDir(t, v) =>
      && At(s, t) && s.writers[t].Removing? && v in s.writers[t].victims
      && s' == s.(dirs := s.dirs - {v},
                  writers := s.writers[t := Removing(s.writers[t].w, s.writers[t].victims - {v})])
    case RemoveFails(t, v) =>
      && At(s, t) && s.writers[t].Removing? && v in s.writers[t].victims
      && s' == s.(writers := s.writers[t := Removing(s.writers[t].w, s.writers[t].victims - {v})])
    case Finish(t) =>
      && At(s, t) && s.writers[t].Removing? && s.writers[t].victims == {}
      && s' == s.(writers := s.writers[t := Finished(s.writers[t].w, true)])
    case Fail(t) =>
      && At(s, t) && !s.writers[t].Finished?
      && s' == s.(writers := s.writers[t := Finished(s.writers[t].w, false)])
    case Crash =>
      s' == s.(writers := map[])
  }

  // ----- the invariant -----

  /** The complete meta file at `n` was produced by this write, whose key was recorded. */
  ghost predicate ProducedBy(c: Config, s: State, n: string, w: Write) {
    && w in s.begun && w.key in s.written && n == Name(w.key)
    && IsComplete(s.dirs, n) && MetaAt(s.dirs, n) == MetaFor(c, w)
  }

  ghost predicate MetasHaveAuthors(c: Config, s: State) {
    forall n :: IsComplete(s.dirs, n) ==> exists w :: ProducedBy(c, s, n, w)
  }

  predicate BothFiles(s: State, k: Key) {
    Name(k) in s.dirs && s.dirs[Name(k)].meta.Some? && s.dirs[Name(k)].data.Some?
  }

  ghost predicate TopIsPresent(c: Config, s: State) {
    forall k :: k in Top(c.keep, s.written) ==> BothFiles(s, k)
  }

  /** Between its two files, a writer's bytes are there unless pruning was entitled to them. */
  ghost predicate DataIsPresent(c: Config, s: State) {
    forall t :: t in s.writers && s.writers[t].MetaPart? ==>
      var k := s.writers[t].w.key;
      Outranked(c, s, k) || (Name(k) in s.dirs && s.dirs[Name(k)].data.Some?)
  }

  /** A key with `keep` written keys above it. */
  ghost predicate Outranked(c: Config, s: State, k: Key) {
    k in s.written && |Above(s.written, k)| >= c.keep
  }

  ghost predicate OnlyOutrankedGo(c: Config, s: State) {
    forall t, v :: t in s.writers && s.writers[t].Removing? && v in s.writers[t].victims ==>
      exists k :: v == Name(k) && Outranked(c, s, k)
  }

  predicate PastMeta(x: Writer) {
    x.Placed? || x.Listing? || x.Removing? || (x.Finished? && x.ok)
  }

  ghost predicate WritersAreRecorded(s: State) {
    forall t :: t in s.writers ==>
      && s.writers[t].w in s.begun
      && (PastMeta(s.writers[t]) ==> s.writers[t].w.key in s.written)
      && (s.writers[t].Listing? ==> s.writers[t].listed <= s.written)
  }

  ghost predicate Inv(c: Config, s: State) {
    && MetasHaveAuthors(c, s) && TopIsPresent(c, s) && DataIsPresent(c, s)
    && OnlyOutrankedGo(c, s) && WritersAreRecorded(s)
  }

  lemma AuthorsKept(c: Config, s: State, a: Step, s': State)
    requires Inv(c, s) && Next(c, s, a, s')
    ensures MetasHaveAuthors(c, s')
  {
    forall n | IsComplete(s'.dirs, n) ensures exists w :: ProducedBy(c, s', n, w) {
      if IsComplete(s.dirs, n) && MetaAt(s.dirs, n) == MetaAt(s'.dirs, n) {
        var w :| ProducedBy(c, s, n, w);
        assert ProducedBy(c, s', n, w);
      } else {
        assert a.MetaDone?;
        assert ProducedBy(c, s', n, s.writers[a.t].w);
      }
    }
  }

  lemma TopShrinks(keep: nat, w: set<Key>, v: set<Key>, k: Key)
    requires w <= v && k in w && k in Top(keep, v)
    ensures k in Top(keep, w)
  {
    AboveGrows(w, v, k);
  }

  /** No key among the `keep` greatest ever written is what a prune removes. */
  lemma VictimIsNotTop(c: Config, s: State, t: nat, v: string, k: Key)
    requires OnlyOutrankedGo(c, s)
    requires t in s.writers && s.writers[t].Removing? && v in s.writers[t].victims
    requires k in Top(c.keep, s.written)
    ensures v != Name(k)
  {
    var j :| v == Name(j) && Outranked(c, s, j);
    if v == Name(k) {
      NameIsInjective(j, k);
    }
  }

  lemma TopKept(c: Config, s: State, a: Step, s': State)
    requires Inv(c, s) && Next(c, s, a, s')
    ensures TopIsPresent(c, s')
  {
    forall k | k in Top(c.keep, s'.written) ensures BothFiles(s', k) {
      if k in s.written {
        TopShrinks(c.keep, s.written, s'.written, k);
        assert BothFiles(s, k);
        if a.RemoveFiles? || a.RemoveDir? {
          VictimIsNotTop(c, s, a.t, a.victim, k);
        }
      } else {
        assert a.MetaDone?;
      }
    }
  }

  lemma DataKept(c: Config, s: State, a: Step, s': State)
    requires Inv(c, s) && Next(c, s, a, s')
    ensures DataIsPresent(c, s')
  {
    HistoryOnlyGrows(c, s, a, s');
    forall t | t in s'.writers && s'.writers[t].MetaPart?
      ensures var k := s'.writers[t].w.key;
              Outranked(c, s', k) || (Name(k) in s'.dirs && s'.dirs[Name(k)].data.Some?)
    {
      var k := s'.writers[t].w.key;
      if Outranked(c, s, k) {
        OutrankedLasts(c, s, s', k);
      } else if a.RemoveFiles? || a.RemoveDir? {
        var j :| a.victim == Name(j) && Outranked(c, s, j);
        if Name(j) == Name(k) {
          NameIsInjective(j, k);
        }
      }
    }
  }

  lemma OutrankedLasts(c: Config, s: State, s': State, k: Key)
    requires s.written <= s'.written && Outranked(c, s, k)
    ensures Outranked(c, s', k)
  {
    AboveGrows(s.written, s'.written, k);
  }

  lemma OnlyOutrankedKept(c: Config, s: State, a: Step, s': State)
    requires Inv(c, s) && Next(c, s, a, s')
    ensures OnlyOutrankedGo(c, s')
  {
    forall t, v | t in s'.writers && s'.writers[t].Removing? && v in s'.writers[t].victims
      ensures exists k :: v == Name(k) && Outranked(c, s', k)
    {
      if a.ListDone? && t == a.t {
        var listed := s.writers[t].listed;
        var k :| k in listed && |Above(listed, k)| >= c.keep && v == Name(k);
        AboveGrows(listed, s.written, k);
        assert Outranked(c, s', k);
      } else {
        assert v in s.writers[t].victims;
        var k :| v == Name(k) && Outranked(c, s, k);
        OutrankedLasts(c, s, s', k);
      }
    }
  }

  lemma HistoryOnlyGrows(c: Config, s: State, a: Step, s': State)
    requires Next(c, s, a, s')
    ensures s.begun <= s'.begun && s.written <= s'.written
  {
  }

  lemma StepKeepsInv(c: Config, s: State, a: Step, s': State)
    requires Inv(c, s) && Next(c, s, a, s')
    ensures Inv(c, s')
    ensures s.begun <= s'.begun && s.written <= s'.written
  {
    HistoryOnlyGrows(c, s, a, s');
    AuthorsKept(c, s, a, s');
    TopKept(c, s, a, s');
    DataKept(c, s, a, s');
    OnlyOutrankedKept(c, s, a, s');
  }

  // ----- what holds over whole runs -----

  ghost predicate IsRun(c: Config, run: seq<State>, steps: seq<Step>) {
    && |run| == |steps| + 1
    && run[0] == Initial
    && forall i :: 0 <= i < |steps| ==> Next(c, run[i], steps[i], run[i + 1])
  }

  lemma {:induction false} RunKeepsInv(c: Config, run: seq<State>, steps: seq<Step>, i: nat)
    requires IsRun(c, run, steps) && i < |run|
    ensures Inv(c, run[i])
  {
    if i > 0 {
      RunKeepsInv(c, run, steps, i - 1);
      StepKeepsInv(c, run[i - 1], steps[i - 1], run[i]);
    }
  }

  lemma HistoryGrowsAt(c: Config, run: seq<State>, steps: seq<Step>, i: nat)
    requires IsRun(c, run, steps) && i + 1 < |run|
    ensures run[i].written <= run[i + 1].written && run[i].begun <= run[i + 1].begun
  {
    HistoryOnlyGrows(c, run[i], steps[i], run[i + 1]);
  }

  lemma {:induction false} HistoryGrows(c: Config, run: seq<State>, steps: seq<Step>, i: nat, j: nat)
    requires IsRun(c, run, steps) && i <= j < |run|
    ensures run[i].written <= run[j].written && run[i].begun <= run[j].begun
  {
    if i < j {
      HistoryGrows(c, run, steps, i, j - 1);
      HistoryGrowsAt(c, run, steps, j - 1);
    }
  }

  /** When the listing succeeds, the latest entry is the greatest key ever written. */
  lemma LatestIsGreatestWritten(c: Config, s: State, n: string, k: Key)
    requires c.Valid() && Inv(c, s) && !AnyTorn(s.dirs)
    requires IsLatest(s.dirs, n) && k in s.written
    ensures MetaAt(s.dirs, n).key in s.written
    ensures !MetaAt(s.dirs, n).key.Less(k)
  {
    var w :| ProducedBy(c, s, n, w);
    var m := Greatest(s.written);
    assert Above(s.written, m) == {};
    assert BothFiles(s, m) && IsComplete(s.dirs, Name(m));
    var u :| ProducedBy(c, s, Name(m), u);
    NameIsInjective(u.key, m);
  }

  /** In every run none of the `keep` greatest keys written so far has lost a file. */
  lemma GreatestKeysSurvive(c: Config, run: seq<State>, steps: seq<Step>, i: nat, k: Key)
    requires IsRun(c, run, steps) && i < |run|
    requires k in Top(c.keep, run[i].written)
    ensures BothFiles(run[i], k)
  {
    RunKeepsInv(c, run, steps, i);
  }

  /**
    Crash safety. Bytes that a read returns are the bytes of the very write that produced the
    meta file present, however files were torn, overwritten or half removed.
   */
  lemma ReadReturnsTheAuthorsBytes(c: Config, s: State, n: string, id: string, data: Bytes) returns (w: Write)
    requires c.Valid() && Inv(c, s)
    requires Yields(c.hash, s.dirs, n, id, data)
    ensures w in s.begun && w.key in s.written && n == Name(w.key)
    ensures MetaAt(s.dirs, n) == MetaFor(c, w) && data == w.data
  {
    w :| ProducedBy(c, s, n, w);
  }
}
