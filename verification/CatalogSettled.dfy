/**
  What concurrent writers leave behind once all of them are through. As long as nothing fails or
  crashes, it is exactly the greatest keys, however their steps were interleaved.
 */
module CatalogSettled {
  import opened Types
  import opened Names
  import opened TopKeep
  import opened Catalog
  import opened CatalogSteps
  import CatalogTorn

  /** Nothing fails: no crash, no error, no removal that is given up, no listing that meets a torn file. */
  predicate Smooth(s: State, a: Step) {
    && !a.Crash? && !a.Fail? && !a.RemoveFails?
    && (a.Visit? ==> !CatalogTorn.TornAt(s, a.dir))
  }

  /** The writer is still bound to remove key `k`: its listing will find it, and enough above it. */
  ghost predicate WillRemove(c: Config, s: State, t: nat, k: Key) {
    At(s, t) && match s.writers[t]
                case Data(_) => true
                case MetaPart(_) => true
                case Placed(_) => true
                case Listing(_, todo, listed) =>
                  && (Name(k) in todo || k in listed)
                  && forall a :: a in Top(c.keep, s.written) && k.Less(a) ==> Name(a) in todo || a in listed
                case Removing(_, victims) => Name(k) in victims
                case Finished(_, _) => false
  }

  ghost predicate IsSurplus(c: Config, s: State, k: Key) {
    Outranked(c, s, k) && IsComplete(s.dirs, Name(k))
  }

  /** Every complete entry beyond the greatest has a writer bound to remove it. */
  ghost predicate SurplusIsOwed(c: Config, s: State) {
    forall k :: IsSurplus(c, s, k) ==> exists t :: WillRemove(c, s, t, k)
  }

  /** A meta file is torn only while someone is writing it. */
  ghost predicate TornIsBeingWritten(s: State) {
    forall n :: CatalogTorn.TornAt(s, n) ==>
      exists t :: At(s, t) && s.writers[t].MetaPart? && n == Name(s.writers[t].w.key)
  }

  // ----- one step -----

  /** What a directory visited whole adds to the listing is its own key. */
  lemma VisitLists(c: Config, s: State, k: Key)
    requires Inv(c, s) && IsComplete(s.dirs, Name(k))
    ensures MetaAt(s.dirs, Name(k)).key == k
  {
    var w :| ProducedBy(c, s, Name(k), w);
    NameIsInjective(w.key, k);
  }

  lemma VisitStillOwes(c: Config, s: State, a: Step, s': State, k: Key)
    requires Inv(c, s) && Next(c, s, a, s') && Smooth(s, a) && a.Visit?
    requires WillRemove(c, s, a.t, k) && IsSurplus(c, s, k)
    ensures WillRemove(c, s', a.t, k)
  {
    if a.dir == Name(k) {
      VisitLists(c, s, k);
    }
    forall x | x in Top(c.keep, s.written) && k.Less(x)
      ensures Name(x) in s'.writers[a.t].todo || x in s'.writers[a.t].listed
    {
      if a.dir == Name(x) {
        assert BothFiles(s, x);
        VisitLists(c, s, x);
      }
    }
  }

  /** A finished listing holds the greatest keys above `k`, so `k` is among its victims. */
  lemma ListDoneStillOwes(c: Config, s: State, a: Step, s': State, k: Key)
    requires Next(c, s, a, s') && a.ListDone?
    requires WillRemove(c, s, a.t, k) && Outranked(c, s, k)
    ensures WillRemove(c, s', a.t, k)
  {
    var listed := s.writers[a.t].listed;
    KeptAbove(c.keep, s.written, k);
    assert Above(Top(c.keep, s.written), k) <= Above(listed, k);
    SubsetSize(Above(Top(c.keep, s.written), k), Above(listed, k));
  }

  lemma OpenListingStillOwes(c: Config, s: State, a: Step, s': State, k: Key)
    requires Inv(c, s) && Next(c, s, a, s') && a.OpenListing? && IsSurplus(c, s, k)
    ensures WillRemove(c, s', a.t, k)
  {
    forall x | x in Top(c.keep, s.written) ensures Name(x) in s.dirs {
      assert BothFiles(s, x);
    }
  }

  /** A writer that owed the removal owes it still, or the entry is gone. */
  lemma StillOwes(c: Config, s: State, a: Step, s': State, t: nat, k: Key)
    requires Inv(c, s) && Next(c, s, a, s') && Smooth(s, a) && !a.MetaDone?
    requires IsSurplus(c, s, k) && WillRemove(c, s, t, k) && IsSurplus(c, s', k)
    ensures WillRemove(c, s', t, k)
  {
    if !a.Begin? && a.t == t {
      if a.Visit? {
        VisitStillOwes(c, s, a, s', k);
      } else if a.ListDone? {
        ListDoneStillOwes(c, s, a, s', k);
      } else if a.OpenListing? {
        OpenListingStillOwes(c, s, a, s', k);
      }
    }
  }

  lemma NoNewSurplus(c: Config, s: State, a: Step, s': State, k: Key)
    requires Next(c, s, a, s') && !a.MetaDone? && IsSurplus(c, s', k)
    ensures IsSurplus(c, s, k)
  {
  }

  lemma OwedStep(c: Config, s: State, a: Step, s': State)
    requires Inv(c, s) && Next(c, s, a, s') && Smooth(s, a) && SurplusIsOwed(c, s)
    ensures SurplusIsOwed(c, s')
  {
    forall k | IsSurplus(c, s', k) ensures exists t :: WillRemove(c, s', t, k) {
      if a.MetaDone? {
        assert WillRemove(c, s', a.t, k);
      } else {
        NoNewSurplus(c, s, a, s', k);
        var t :| WillRemove(c, s, t, k);
        StillOwes(c, s, a, s', t, k);
      }
    }
  }

  lemma TornStep(c: Config, s: State, a: Step, s': State)
    requires Next(c, s, a, s') && Smooth(s, a) && TornIsBeingWritten(s)
    ensures TornIsBeingWritten(s')
  {
    forall n | CatalogTorn.TornAt(s', n)
      ensures exists t :: At(s', t) && s'.writers[t].MetaPart? && n == Name(s'.writers[t].w.key)
    {
      if CatalogTorn.TornAt(s, n) {
        var t :| At(s, t) && s.writers[t].MetaPart? && n == Name(s.writers[t].w.key);
        assert At(s', t) && s'.writers[t].MetaPart?;
      } else {
        assert a.MetaChunk? && At(s', a.t);
      }
    }
  }

  // ----- whole runs -----

  ghost predicate IsSmooth(run: seq<State>, steps: seq<Step>)
    requires |run| == |steps| + 1
  {
    forall i :: 0 <= i < |steps| ==> Smooth(run[i], steps[i])
  }

  lemma {:induction false} SmoothRunOwes(c: Config, run: seq<State>, steps: seq<Step>, i: nat)
    requires IsRun(c, run, steps) && IsSmooth(run, steps) && i < |run|
    ensures SurplusIsOwed(c, run[i]) && TornIsBeingWritten(run[i])
  {
    if i > 0 {
      SmoothRunOwes(c, run, steps, i - 1);
      RunKeepsInv(c, run, steps, i - 1);
      OwedStep(c, run[i - 1], steps[i - 1], run[i]);
      TornStep(c, run[i - 1], steps[i - 1], run[i]);
    }
  }

  /**
    Exact retention under any interleaving. In a run without crashes and errors, whenever every
    write that began is through, the catalog can be listed and holds exactly the `keep` greatest
    keys ever written.
   */
  lemma SettledHoldsTop(c: Config, run: seq<State>, steps: seq<Step>, i: nat)
    requires IsRun(c, run, steps) && IsSmooth(run, steps) && i < |run|
    requires forall t :: t in run[i].writers ==> run[i].writers[t].Finished?
    ensures !AnyTorn(run[i].dirs)
    ensures Completed(run[i].dirs) == Top(c.keep, run[i].written)
  {
    var s := run[i];
    RunKeepsInv(c, run, steps, i);
    SmoothRunOwes(c, run, steps, i);
    assert !AnyTorn(s.dirs) by {
      if n :| n in s.dirs && s.dirs[n].meta == Some(Torn) {
        assert CatalogTorn.TornAt(s, n);
        assert false;
      }
    }
    forall k ensures k in Completed(s.dirs) <==> k in Top(c.keep, s.written) {
      SettledKey(c, s, k);
    }
  }

  lemma SettledKey(c: Config, s: State, k: Key)
    requires Inv(c, s) && SurplusIsOwed(c, s) && !AnyTorn(s.dirs)
    requires forall t :: t in s.writers ==> s.writers[t].Finished?
    ensures k in Completed(s.dirs) <==> k in Top(c.keep, s.written)
  {
    if k in Completed(s.dirs) {
      var n :| n in s.dirs && IsComplete(s.dirs, n) && MetaAt(s.dirs, n).key == k;
      var w :| ProducedBy(c, s, n, w);
      assert !IsSurplus(c, s, k);
    }
    if k in Top(c.keep, s.written) {
      assert BothFiles(s, k) && IsComplete(s.dirs, Name(k));
      VisitLists(c, s, k);
    }
  }
}
