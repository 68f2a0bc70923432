/** What a catalog holds after completed writes, and a write that nothing disturbs. */
module CatalogWrites {
  import opened Types
  import opened Names
  import opened TopKeep
  import opened Catalog
  import opened CatalogSteps

  // ----- writes one after another -----

  ghost function AfterWrites(c: Config, ws: seq<Write>): Dirs {
    if ws == [] then map[]
    else
      var w := ws[|ws| - 1];
      Pruned(c.keep, Stored(c.hash, c.group, AfterWrites(c, ws[..|ws| - 1]), w.key, w.id, w.data))
  }

  ghost function KeysOf(ws: seq<Write>): set<Key> {
    set i | 0 <= i < |ws| :: ws[i].key
  }

  lemma KeysOfExtend(ws: seq<Write>)
    requires ws != []
    ensures KeysOf(ws) == KeysOf(ws[..|ws| - 1]) + {ws[|ws| - 1].key}
  {
    forall i | 0 <= i < |ws| - 1 ensures ws[i].key in KeysOf(ws[..|ws| - 1]) {
      assert ws[..|ws| - 1][i] == ws[i];
    }
  }

  /** Completed writes in any order, with repeats, leave exactly the `keep` greatest distinct keys. */
  lemma {:induction false} WritesRetainTop(c: Config, ws: seq<Write>)
    ensures WellNamed(AfterWrites(c, ws))
    ensures Completed(AfterWrites(c, ws)) == Top(c.keep, KeysOf(ws))
  {
    if ws != [] {
      var before, w := ws[..|ws| - 1], ws[|ws| - 1];
      WritesRetainTop(c, before);
      var d := AfterWrites(c, before);
      WriteKeepsTop(c.keep, c.hash, c.group, d, w.key, w.id, w.data);
      PrunedKeepsTop(c.keep, Stored(c.hash, c.group, d, w.key, w.id, w.data));
      TopIsIncremental(c.keep, KeysOf(before), w.key);
      KeysOfExtend(ws);
    }
  }

  /** And under each retained key stand the files of the last write of that key. */
  lemma {:induction false} RetainedHoldsLastWrite(c: Config, ws: seq<Write>, i: nat)
    requires i < |ws| && (forall j :: i < j < |ws| ==> ws[j].key != ws[i].key)
    requires ws[i].key in Top(c.keep, KeysOf(ws))
    ensures Name(ws[i].key) in AfterWrites(c, ws)
    ensures AfterWrites(c, ws)[Name(ws[i].key)] == Dir(Some(ws[i].data), Some(Complete(MetaFor(c, ws[i]))))
  {
    var before, w := ws[..|ws| - 1], ws[|ws| - 1];
    WritesRetainTop(c, ws);
    CompletedByName(AfterWrites(c, ws), ws[i].key);
    if i < |ws| - 1 {
      KeysOfExtend(ws);
      assert before[i] == ws[i];
      TopShrinks(c.keep, KeysOf(before), KeysOf(ws), ws[i].key);
      RetainedHoldsLastWrite(c, before, i);
      if Name(w.key) == Name(ws[i].key) {
        NameIsInjective(w.key, ws[i].key);
      }
    }
  }

  // ----- a write that is left alone -----

  /** Steps of writers that have begun, without a crash. */
  ghost predicate IsPath(c: Config, run: seq<State>, steps: seq<Step>) {
    && |run| == |steps| + 1
    && forall i :: 0 <= i < |steps| ==> Next(c, run[i], steps[i], run[i + 1]) && !steps[i].Begin? && !steps[i].Crash?
  }

  lemma Extend(c: Config, run: seq<State>, steps: seq<Step>, a: Step, s: State)
    requires IsPath(c, run, steps) && Next(c, run[|run| - 1], a, s) && !a.Begin? && !a.Crash?
    ensures IsPath(c, run + [s], steps + [a])
  {
  }

  /** Removing the victims one by one leaves the directories without them. */
  lemma {:induction false} RemoveVictims(c: Config, run: seq<State>, steps: seq<Step>, t: nat)
    returns (run': seq<State>, steps': seq<Step>)
    requires IsPath(c, run, steps) && At(run[|run| - 1], t) && run[|run| - 1].writers[t].Removing?
    ensures IsPath(c, run', steps') && run'[0] == run[0]
    ensures var s, s' := run[|run| - 1], run'[|run'| - 1];
            s' == s.(dirs := s.dirs - s.writers[t].victims, writers := s.writers[t := Finished(s.writers[t].w, true)])
    decreases run[|run| - 1].writers[t].victims
  {
    var s := run[|run| - 1];
    var w, vs := s.writers[t].w, s.writers[t].victims;
    if vs == {} {
      var s' := s.(writers := s.writers[t := Finished(w, true)]);
      Extend(c, run, steps, Finish(t), s');
      run', steps' := run + [s'], steps + [Finish(t)];
      assert s.dirs - vs == s.dirs;
    } else {
      var v :| v in vs;
      var s' := s.(dirs := s.dirs - {v}, writers := s.writers[t := Removing(w, vs - {v})]);
      Extend(c, run, steps, RemoveDir(t, v), s');
      run', steps' := RemoveVictims(c, run + [s'], steps + [RemoveDir(t, v)], t);
      assert s.dirs - {v} - (vs - {v}) == s.dirs - vs;
    }
  }

  lemma VictimsByName(c: Config, d: Dirs)
    requires WellNamed(d)
    ensures d - VictimNames(c.keep, Completed(d)) == Pruned(c.keep, d)
  {
    forall n | n in d ensures n in VictimNames(c.keep, Completed(d)) <==> Victim(c.keep, d, n) {
      if n in VictimNames(c.keep, Completed(d)) {
        var k :| k in Completed(d) && |Above(Completed(d), k)| >= c.keep && n == Name(k);
        CompletedByName(d, k);
      }
    }
  }

  lemma StateIsWellNamed(c: Config, s: State)
    requires MetasHaveAuthors(c, s)
    ensures WellNamed(s.dirs) && Completed(s.dirs) <= s.written
  {
    forall n | IsComplete(s.dirs, n) ensures n == Name(MetaAt(s.dirs, n).key) && MetaAt(s.dirs, n).key in s.written {
      var w :| ProducedBy(c, s, n, w);
    }
  }

  /** The state once the files of a fresh write are in place, before it prunes. */
  function FilesInPlace(c: Config, s: State, t: nat, w: Write): State {
    State(Stored(c.hash, c.group, s.dirs, w.key, w.id, w.data),
          s.writers[t := Placed(w)],
          s.begun + {w},
          s.written + {w.key})
  }

  lemma FilesGoInPlace(c: Config, s: State, t: nat, w: Write) returns (run: seq<State>, steps: seq<Step>)
    requires t !in s.writers
    ensures Next(c, s, Begin(t, w), Begun(s, t, w))
    ensures IsPath(c, run, steps) && run[0] == Begun(s, t, w) && run[|run| - 1] == FilesInPlace(c, s, t, w)
  {
    var n := Name(w.key);
    var s1 := Begun(s, t, w);
    var s2 := s1.(dirs := s1.dirs[n := s1.dirs[n].(data := Some(w.data))], writers := s1.writers[t := MetaPart(w)]);
    var s3 := FilesInPlace(c, s, t, w);
    assert s3.dirs == s2.dirs[n := s2.dirs[n].(meta := Some(Complete(MetaFor(c, w))))];
    assert s3.writers == s2.writers[t := Placed(w)];
    run, steps := [s1, s2, s3], [DataDone(t), MetaDone(t)];
  }

  /** Visiting the directories one by one collects the completed keys. */
  lemma {:induction false} VisitAll(c: Config, run: seq<State>, steps: seq<Step>, t: nat)
    returns (run': seq<State>, steps': seq<Step>)
    requires IsPath(c, run, steps) && At(run[|run| - 1], t) && run[|run| - 1].writers[t].Listing?
    requires var s := run[|run| - 1]; !AnyTorn(s.dirs) && s.writers[t].todo <= s.dirs.Keys
    ensures IsPath(c, run', steps') && run'[0] == run[0]
    ensures var s, s' := run[|run| - 1], run'[|run'| - 1];
            var l := s.writers[t];
            s' == s.(writers := s.writers[t := Listing(l.w, {}, l.listed + KeysAt(s.dirs, l.todo))])
    decreases run[|run| - 1].writers[t].todo
  {
    var s := run[|run| - 1];
    var l := s.writers[t];
    if l.todo == {} {
      run', steps' := run, steps;
      assert l.listed + KeysAt(s.dirs, {}) == l.listed;
      assert s.writers[t := l] == s.writers;
    } else {
      var n :| n in l.todo;
      var s' := s.(writers := s.writers[t := Visited(s.dirs, l, n)]);
      Extend(c, run, steps, Visit(t, n), s');
      run', steps' := VisitAll(c, run + [s'], steps + [Visit(t, n)], t);
      KeysAtSplit(s.dirs, l.todo, n);
      assert s'.writers[t].listed + KeysAt(s.dirs, l.todo - {n}) == l.listed + KeysAt(s.dirs, l.todo);
      assert run'[|run'| - 1].writers == s.writers[t := Listing(l.w, {}, l.listed + KeysAt(s.dirs, l.todo))];
    }
  }

  ghost function KeysAt(d: Dirs, names: set<string>): set<Key> {
    set n | n in names && IsComplete(d, n) :: MetaAt(d, n).key
  }

  lemma KeysAtSplit(d: Dirs, names: set<string>, n: string)
    requires n in names
    ensures KeysAt(d, names) == KeysAt(d, names - {n}) + (if IsComplete(d, n) then {MetaAt(d, n).key} else {})
  {
    forall m | m in names && IsComplete(d, m)
      ensures MetaAt(d, m).key in KeysAt(d, names - {n}) || m == n
    {
      assert m != n ==> m in names - {n};
    }
  }

  /** With the files in place, an undisturbed listing collects exactly the completed keys. */
  lemma QuietListing(c: Config, run: seq<State>, steps: seq<Step>, t: nat) returns (run': seq<State>, steps': seq<Step>)
    requires IsPath(c, run, steps) && At(run[|run| - 1], t) && run[|run| - 1].writers[t].Placed?
    requires !AnyTorn(run[|run| - 1].dirs)
    ensures IsPath(c, run', steps') && run'[0] == run[0]
    ensures var s, s' := run[|run| - 1], run'[|run'| - 1];
            s' == s.(writers := s.writers[t := Removing(s.writers[t].w, VictimNames(c.keep, Completed(s.dirs)))])
  {
    var s := run[|run| - 1];
    var w := s.writers[t].w;
    var s1 := s.(writers := s.writers[t := Listing(w, s.dirs.Keys, {})]);
    Extend(c, run, steps, OpenListing(t), s1);
    run', steps' := VisitAll(c, run + [s1], steps + [OpenListing(t)], t);
    assert {} + KeysAt(s.dirs, s.dirs.Keys) == Completed(s.dirs);
    var s2 := run'[|run'| - 1];
    var s3 := s2.(writers := s2.writers[t := Removing(w, VictimNames(c.keep, Completed(s.dirs)))]);
    Extend(c, run', steps', ListDone(t), s3);
    run', steps' := run' + [s3], steps' + [ListDone(t)];
    assert s3.writers == s.writers[t := Removing(w, VictimNames(c.keep, Completed(s.dirs)))];
  }

  /**
    A write nobody interferes with takes the catalog to exactly where the `Write` method of the
    catalog object takes it.
   */
  lemma QuietWriteIsWrite(c: Config, s: State, t: nat, w: Write) returns (run: seq<State>, steps: seq<Step>)
    requires Inv(c, s) && t !in s.writers && !AnyTorn(Stored(c.hash, c.group, s.dirs, w.key, w.id, w.data))
    ensures IsPath(c, run, steps) && Next(c, s, Begin(t, w), run[0])
    ensures run[|run| - 1].dirs == Pruned(c.keep, Stored(c.hash, c.group, s.dirs, w.key, w.id, w.data))
    ensures run[|run| - 1].writers == s.writers[t := Finished(w, true)]
    ensures run[|run| - 1].written == s.written + {w.key}
  {
    run, steps := FilesGoInPlace(c, s, t, w);
    StateIsWellNamed(c, s);
    WriteKeepsTop(c.keep, c.hash, c.group, s.dirs, w.key, w.id, w.data);
    run, steps := QuietListing(c, run, steps, t);
    VictimsByName(c, FilesInPlace(c, s, t, w).dirs);
    run, steps := RemoveVictims(c, run, steps, t);
    assert run[|run| - 1].writers == s.writers[t := Finished(w, true)];
  }
}
