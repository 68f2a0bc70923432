/**
  `latest` as its caller sees it: a listing that visits directories one at a time while others
  write and prune.
 */
module CatalogListing {
  import opened Types
  import opened Names
  import opened TopKeep
  import opened Catalog
  import opened CatalogSteps
  import CatalogTorn
  import CW = CatalogWrites

  /**
    A listing opened at moment `o` and finished at moment `e`. It visits every directory there was
    at `o`, and perhaps newer ones, each at its own moment, and meets no torn meta file.
   */
  ghost predicate Lists(run: seq<State>, o: nat, e: nat, visits: map<string, nat>) {
    && o <= e < |run| && run[o].dirs.Keys <= visits.Keys
    && forall n :: n in visits ==> o <= visits[n] <= e && !CatalogTorn.TornAt(run[visits[n]], n)
  }

  ghost function Listed(run: seq<State>, visits: map<string, nat>): set<Key>
    requires forall n :: n in visits ==> visits[n] < |run|
  {
    set n | n in visits && IsComplete(run[visits[n]].dirs, n) :: MetaAt(run[visits[n]].dirs, n).key
  }

  /** The greatest key listed is at least `m`. */
  ghost predicate Reaches(run: seq<State>, visits: map<string, nat>, m: Key)
    requires forall n :: n in visits ==> visits[n] < |run|
  {
    exists k :: k in Listed(run, visits) && !k.Less(m)
  }

  lemma ListedWasWritten(c: Config, run: seq<State>, steps: seq<Step>, o: nat, e: nat, visits: map<string, nat>, k: Key)
    requires IsRun(c, run, steps) && Lists(run, o, e, visits) && k in Listed(run, visits)
    ensures k in run[e].written
  {
    var n :| n in visits && IsComplete(run[visits[n]].dirs, n) && MetaAt(run[visits[n]].dirs, n).key == k;
    RunKeepsInv(c, run, steps, visits[n]);
    var w :| ProducedBy(c, run[visits[n]], n, w);
    HistoryGrows(c, run, steps, visits[n], e);
  }

  /** Every key there was at the start that is still among the greatest at the end is listed. */
  lemma StayingKeysAreListed(c: Config, run: seq<State>, steps: seq<Step>, o: nat, e: nat,
                             visits: map<string, nat>, k: Key)
    requires IsRun(c, run, steps) && Lists(run, o, e, visits)
    requires k in run[o].written && k in Top(c.keep, run[e].written)
    ensures k in Listed(run, visits)
  {
    TopThroughout(c, run, steps, o, o, e, k);
    var v := visits[Name(k)];
    TopThroughout(c, run, steps, o, v, e, k);
    RunKeepsInv(c, run, steps, v);
    assert IsComplete(run[v].dirs, Name(k));
    var w :| ProducedBy(c, run[v], Name(k), w);
    NameIsInjective(w.key, k);
  }

  lemma TopThroughout(c: Config, run: seq<State>, steps: seq<Step>, o: nat, v: nat, e: nat, k: Key)
    requires IsRun(c, run, steps) && o <= v <= e < |run|
    requires k in run[o].written && k in Top(c.keep, run[e].written)
    ensures BothFiles(run[v], k)
  {
    HistoryGrows(c, run, steps, o, v);
    HistoryGrows(c, run, steps, v, e);
    TopShrinks(c.keep, run[v].written, run[e].written, k);
    GreatestKeysSurvive(c, run, steps, v, k);
  }

  /** The greatest key ever written at some moment. */
  ghost predicate IsGreatest(s: State, m: Key) {
    m in s.written && forall k :: k in s.written ==> !m.Less(k)
  }

  /**
    A `latest` whose listing began when `m` was the greatest key answers at least `m`, unless `keep`
    greater keys were written before it ended.
   */
  lemma ListingReachesGreatest(c: Config, run: seq<State>, steps: seq<Step>, o: nat, e: nat,
                               visits: map<string, nat>, m: Key)
    requires IsRun(c, run, steps) && Lists(run, o, e, visits) && IsGreatest(run[o], m)
    requires |Above(run[e].written, m)| < c.keep
    ensures Reaches(run, visits, m)
  {
    HistoryGrows(c, run, steps, o, e);
    StayingKeysAreListed(c, run, steps, o, e, visits, m);
  }

  /** Of two listings that do not overlap, the later answers at least what the earlier did. */
  lemma LatestNeverGoesBack(c: Config, run: seq<State>, steps: seq<Step>,
                            o: nat, e: nat, visits: map<string, nat>, o': nat, e': nat, visits': map<string, nat>,
                            k: Key, m: Key)
    requires IsRun(c, run, steps) && Lists(run, o, e, visits) && Lists(run, o', e', visits') && e <= o'
    requires k in Listed(run, visits)
    requires IsGreatest(run[o'], m) && |Above(run[e'].written, m)| < c.keep
    ensures Reaches(run, visits', k)
  {
    ListedWasWritten(c, run, steps, o, e, visits, k);
    HistoryGrows(c, run, steps, e, o');
    ListingReachesGreatest(c, run, steps, o', e', visits', m);
    var j :| j in Listed(run, visits') && !j.Less(m);
    assert !j.Less(k);
  }

  // ----- the bound is exact -----

  /** A listing during which at most `d` keys greater than the greatest were written. */
  ghost predicate During(c: Config, d: nat, run: seq<State>, steps: seq<Step>, o: nat, e: nat,
                         visits: map<string, nat>, m: Key)
  {
    && IsRun(c, run, steps) && Lists(run, o, e, visits) && IsGreatest(run[o], m)
    && |Above(run[e].written, m)| <= d
  }

  /**
    However a listing falls among `d` writes of greater keys, it reaches the key that was greatest
    when it began: this holds if and only if `d` is less than `keep`.
   */
  lemma ListingReachesExactly(c: Config, d: nat)
    requires c.Valid()
    ensures (forall run, steps, o, e, visits, m ::
               During(c, d, run, steps, o, e, visits, m) ==> Reaches(run, visits, m))
            <==> d < c.keep
  {
    if d < c.keep {
      forall run, steps, o, e, visits, m | During(c, d, run, steps, o, e, visits, m) ensures Reaches(run, visits, m) {
        ListingReachesGreatest(c, run, steps, o, e, visits, m);
      }
    } else {
      var run, steps, o, e, visits, m := ListingMissesAll(c);
      assert During(c, d, run, steps, o, e, visits, m);
    }
  }

  lemma AppendPath(c: Config, run: seq<State>, steps: seq<Step>, a: Step, cats: seq<State>, cs: seq<Step>)
    requires IsRun(c, run, steps) && CW.IsPath(c, cats, cs) && Next(c, run[|run| - 1], a, cats[0])
    ensures IsRun(c, run + cats, steps + [a] + cs)
  {
    var run', steps' := run + cats, steps + [a] + cs;
    forall i | 0 <= i < |steps'| ensures Next(c, run'[i], steps'[i], run'[i + 1]) {
      if i > |steps| {
        var p := i - |steps| - 1;
        assert Next(c, cats[p], cs[p], cats[p + 1]);
      }
    }
  }

  /** Writes one after another, undisturbed; `o` is the moment the first is through. */
  lemma {:induction false} WriteInTurn(c: Config, ws: seq<Write>) returns (run: seq<State>, steps: seq<Step>, o: nat)
    requires ws != []
    ensures IsRun(c, run, steps) && o < |run|
    ensures run[o].dirs == CW.AfterWrites(c, ws[..1]) && run[o].written == {ws[0].key}
    ensures var s := run[|run| - 1];
            && s.dirs == CW.AfterWrites(c, ws) && !AnyTorn(s.dirs) && s.written == CW.KeysOf(ws)
            && forall t :: t in s.writers ==> t < |ws|
  {
    var n := |ws| - 1;
    if n == 0 {
      run, steps := [Initial], [];
      assert CW.AfterWrites(c, ws[..n]) == map[] && CW.KeysOf(ws[..n]) == {};
    } else {
      run, steps, o := WriteInTurn(c, ws[..n]);
      assert ws[..n][..1] == ws[..1];
    }
    var s := run[|run| - 1];
    RunKeepsInv(c, run, steps, |run| - 1);
    var cats, cs := CW.QuietWriteIsWrite(c, s, n, ws[n]);
    AppendPath(c, run, steps, Begin(n, ws[n]), cats, cs);
    CW.KeysOfExtend(ws);
    run, steps := run + cats, steps + [Begin(n, ws[n])] + cs;
    if n == 0 {
      o := |run| - 1;
      assert ws[..1] == ws;
    }
  }

  /** Keys 0 to `keep`, in order. */
  lemma RisingKeys(c: Config) returns (ws: seq<Write>)
    ensures |ws| == c.keep + 1 && ws[0].key == Key(0, 0)
    ensures |Above(CW.KeysOf(ws), Key(0, 0))| == c.keep
  {
    var ks := seq(c.keep + 1, i requires 0 <= i => Key(i, 0));
    ws := seq(c.keep + 1, i requires 0 <= i => Write(Key(i, 0), "", []));
    RankInSorted(ks, 0);
    forall k ensures k in KeySet(ks) <==> k in CW.KeysOf(ws) {
      if i :| 0 <= i < |ks| && ks[i] == k {
        assert ws[i].key == k;
      }
      if i :| 0 <= i < |ws| && ws[i].key == k {
        assert ks[i] == k;
      }
    }
    assert KeySet(ks) == CW.KeysOf(ws);
  }

  /**
    The listing opens on one entry; `keep` greater ones are written and the one is pruned before
    it is visited, and the new directories are not part of the listing. It comes back empty.
   */
  lemma ListingMissesAll(c: Config)
    returns (run: seq<State>, steps: seq<Step>, o: nat, e: nat, visits: map<string, nat>, m: Key)
    ensures During(c, c.keep, run, steps, o, e, visits, m)
    ensures Listed(run, visits) == {} && !Reaches(run, visits, m)
  {
    var ws := RisingKeys(c);
    m := Key(0, 0);
    run, steps, o := WriteInTurn(c, ws);
    e := |run| - 1;
    visits := map n | n in run[o].dirs :: e;
    CW.WritesRetainTop(c, ws);
    CompletedByName(run[e].dirs, m);
    OneEntry(c, ws[0]);
    assert ws[..1] == [ws[0]];
    if IsComplete(run[e].dirs, Name(m)) {
      NameIsInjective(MetaAt(run[e].dirs, Name(m)).key, m);
    }
    assert forall n :: n in visits ==> n == Name(m) && !IsComplete(run[e].dirs, n);
  }

  lemma OneEntry(c: Config, w: Write)
    ensures CW.AfterWrites(c, [w]).Keys <= {Name(w.key)}
  {
    assert [w][..0] == [];
    assert CW.AfterWrites(c, [w][..0]) == map[];
  }
}
