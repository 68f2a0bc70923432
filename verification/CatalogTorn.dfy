/**
  What a meta file that was cut off does to its group. Every listing that meets it fails, and
  since pruning lists first, nothing that starts afterwards removes it, at whatever rank.
 */
module CatalogTorn {
  import opened Types
  import opened Names
  import opened Catalog
  import opened CatalogSteps

  predicate TornAt(s: State, n: string) {
    n in s.dirs && s.dirs[n].meta == Some(Torn)
  }

  /** A write of the key gets its meta file through. */
  predicate Completes(s: State, a: Step, k: Key) {
    a.MetaDone? && At(s, a.t) && s.writers[a.t].w.key == k
  }

  predicate Removes(a: Step, n: string) {
    (a.RemoveFiles? && a.metaToo && a.victim == n) || (a.RemoveDir? && a.victim == n)
  }

  /** The writer's listing has read the key's meta file whole. */
  ghost predicate HasRead(s: State, t: nat, k: Key) {
    At(s, t) && match s.writers[t]
                case Listing(_, _, listed) => k in listed
                case Removing(_, victims) => Name(k) in victims
                case _ => false
  }

  /** One step: the torn file goes exactly when its key is completed or it is removed. */
  lemma TornStepExactly(c: Config, s: State, a: Step, s': State, k: Key)
    requires Next(c, s, a, s') && TornAt(s, Name(k))
    ensures TornAt(s', Name(k)) <==> !Completes(s, a, k) && !Removes(a, Name(k))
  {
    if a.MetaDone? && Name(s.writers[a.t].w.key) == Name(k) {
      NameIsInjective(s.writers[a.t].w.key, k);
    }
  }

  /** Nobody gets to read a torn file, so nobody new comes to remove it. */
  lemma UnreadStaysUnread(c: Config, s: State, a: Step, s': State, t: nat, k: Key)
    requires Inv(c, s) && Next(c, s, a, s') && TornAt(s, Name(k)) && !HasRead(s, t, k)
    ensures !HasRead(s', t, k)
  {
    if a.Visit? && IsComplete(s.dirs, a.dir) {
      var w :| ProducedBy(c, s, a.dir, w);
    } else if a.ListDone? && a.t == t && Name(k) in s'.writers[t].victims {
      var j :| j in s.writers[t].listed && Name(j) == Name(k);
      NameIsInjective(j, k);
    }
  }

  ghost predicate TornThrough(run: seq<State>, i: nat, j: nat, n: string)
    requires i <= j < |run|
  {
    forall q :: i <= q <= j ==> TornAt(run[q], n)
  }

  lemma {:induction false} UnreadThrough(c: Config, run: seq<State>, steps: seq<Step>, i: nat, j: nat, t: nat, k: Key)
    requires IsRun(c, run, steps) && i <= j < |run|
    requires TornThrough(run, i, j, Name(k)) && !HasRead(run[i], t, k)
    ensures !HasRead(run[j], t, k)
  {
    if i < j {
      UnreadThrough(c, run, steps, i, j - 1, t, k);
      RunKeepsInv(c, run, steps, j - 1);
      UnreadStaysUnread(c, run[j - 1], steps[j - 1], run[j], t, k);
    }
  }

  /** A removal by a writer that had read the file before it was torn. */
  ghost predicate LateRemoval(torn: State, a: Step, k: Key) {
    Removes(a, Name(k)) && HasRead(torn, a.t, k)
  }

  lemma TornNextExactly(c: Config, run: seq<State>, steps: seq<Step>, i: nat, p: nat, k: Key)
    requires IsRun(c, run, steps) && i <= p < |steps| && TornThrough(run, i, p, Name(k))
    ensures TornAt(run[p + 1], Name(k)) <==> !Completes(run[p], steps[p], k) && !LateRemoval(run[i], steps[p], k)
  {
    TornStepExactly(c, run[p], steps[p], run[p + 1], k);
    if Removes(steps[p], Name(k)) && !HasRead(run[i], steps[p].t, k) {
      UnreadThrough(c, run, steps, i, p, steps[p].t, k);
      assert false;
    }
  }

  /**
    Exactly when a torn meta file goes. In every run, with any writers, crashes and restarts, it
    stays from moment `i` to moment `j` if and only if no write of its key completes, and no
    prune that had already read it before it was torn removes it. How many greater keys are
    written does not matter.
   */
  lemma {:induction false} TornMetaGoesExactly(c: Config, run: seq<State>, steps: seq<Step>, i: nat, j: nat, k: Key)
    requires IsRun(c, run, steps) && i <= j < |run| && TornAt(run[i], Name(k))
    ensures TornThrough(run, i, j, Name(k)) <==>
            forall p :: i <= p < j ==> !Completes(run[p], steps[p], k) && !LateRemoval(run[i], steps[p], k)
  {
    if i < j {
      TornMetaGoesExactly(c, run, steps, i, j - 1, k);
      if TornThrough(run, i, j - 1, Name(k)) {
        TornNextExactly(c, run, steps, i, j - 1, k);
      }
    }
  }

  /** After a crash no prune is left that could remove it: only a new write of the same key helps. */
  lemma OnlyRewriteRepairs(c: Config, run: seq<State>, steps: seq<Step>, i: nat, j: nat, k: Key)
    requires IsRun(c, run, steps) && i <= j < |run| && TornAt(run[i], Name(k)) && run[i].writers == map[]
    ensures TornThrough(run, i, j, Name(k)) <==> forall p :: i <= p < j ==> !Completes(run[p], steps[p], k)
  {
    TornMetaGoesExactly(c, run, steps, i, j, k);
  }

  // ----- what fails meanwhile -----

  /** The writer has not got past the torn directory. */
  ghost predicate Stuck(s: State, t: nat, n: string) {
    At(s, t) ==> match s.writers[t]
                 case Data(_) => true
                 case MetaPart(_) => true
                 case Placed(_) => true
                 case Listing(_, todo, _) => n in todo
                 case Removing(_, _) => false
                 case Finished(_, ok) => !ok
  }

  lemma StuckStays(c: Config, s: State, a: Step, s': State, t: nat, n: string)
    requires Next(c, s, a, s') && TornAt(s, n) && Stuck(s, t, n)
    ensures Stuck(s', t, n)
  {
  }

  /**
    While the file is torn every listing of the group fails, and every write that had not begun
    its listing when the file was torn, of whatever key, can only end in an error.
   */
  lemma {:induction false} TornMetaFailsWrites(c: Config, run: seq<State>, steps: seq<Step>, i: nat, j: nat,
                                               n: string, t: nat)
    requires IsRun(c, run, steps) && i <= j < |run| && TornThrough(run, i, j, n)
    requires Stuck(run[i], t, n)
    ensures AnyTorn(run[j].dirs)
    ensures Stuck(run[j], t, n)
  {
    if i < j {
      TornMetaFailsWrites(c, run, steps, i, j - 1, n, t);
      StuckStays(c, run[j - 1], steps[j - 1], run[j], t, n);
    }
  }

  /** Such a file comes from one crash in the middle of writing it. */
  lemma CrashTearsMeta(c: Config, w: Write) returns (run: seq<State>, steps: seq<Step>)
    ensures IsRun(c, run, steps)
    ensures TornAt(run[|run| - 1], Name(w.key)) && run[|run| - 1].writers == map[]
  {
    var n := Name(w.key);
    var s1 := State(map[n := Dir(None, None)], map[0 := Data(w)], {w}, {});
    var s2 := s1.(dirs := map[n := Dir(Some(w.data), None)], writers := map[0 := MetaPart(w)]);
    var s3 := s2.(dirs := map[n := Dir(Some(w.data), Some(Torn))]);
    var s4 := s3.(writers := map[]);
    assert Next(c, Initial, Begin(0, w), s1);
    assert Next(c, s1, DataDone(0), s2);
    assert Next(c, s2, MetaChunk(0), s3);
    run, steps := [Initial, s1, s2, s3, s4], [Begin(0, w), DataDone(0), MetaChunk(0), Crash];
  }
}
