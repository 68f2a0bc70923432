/**
  The durable snapshot catalog (crates/multiraft-store/src/snapshot_catalog.rs): one directory
  per snapshot under a directory per group, listed in whatever order the file system yields.
 */
module Catalog {
  import opened Types
  import opened Names
  import opened TopKeep

  type Digest = string

  datatype Meta = Meta(group: GroupId, key: Key, id: string, size: nat, sha: Digest)

  /** A cut-off `meta.json` never parses, because the closing brace is its last character. */
  datatype MetaFile = Torn | Complete(meta: Meta)

  datatype Dir = Dir(data: Option<Bytes>, meta: Option<MetaFile>)

  type Dirs = map<string, Dir>

  datatype CatalogEntry = CatalogEntry(meta: Meta, dir: string)

  predicate IsComplete(d: Dirs, n: string) {
    n in d && d[n].meta.Some? && d[n].meta.value.Complete?
  }

  function MetaAt(d: Dirs, n: string): Meta
    requires IsComplete(d, n)
  {
    d[n].meta.value.meta
  }

  ghost predicate AnyTorn(d: Dirs) {
    exists n :: n in d && d[n].meta == Some(Torn)
  }

  ghost predicate WellNamed(d: Dirs) {
    forall n :: IsComplete(d, n) ==> n == Name(MetaAt(d, n).key)
  }

  ghost function Completed(d: Dirs): set<Key> {
    set n | n in d && IsComplete(d, n) :: MetaAt(d, n).key
  }

  lemma CompletedByName(d: Dirs, k: Key)
    requires WellNamed(d)
    ensures k in Completed(d) <==> IsComplete(d, Name(k)) && MetaAt(d, Name(k)).key == k
  {
  }

  // ----- listing -----

  /** Every directory once, in any order. */
  ghost predicate IsListing(order: seq<string>, d: Dirs) {
    && (forall n :: n in order <==> n in d)
    && (forall i, j :: 0 <= i < j < |order| ==> order[i] != order[j])
  }

  ghost predicate Lists(d: Dirs, es: seq<CatalogEntry>) {
    && (forall i :: 0 <= i < |es| ==> IsComplete(d, es[i].dir) && es[i].meta == MetaAt(d, es[i].dir))
    && (forall n :: IsComplete(d, n) ==> CatalogEntry(MetaAt(d, n), n) in es)
    && Distinct(es)
  }

  /** The listing loop after `i` directories. */
  ghost predicate ListedUpTo(d: Dirs, order: seq<string>, i: nat, out: seq<CatalogEntry>)
    requires i <= |order|
  {
    && (forall p :: 0 <= p < i ==> order[p] in d && d[order[p]].meta != Some(Torn))
    && (forall p :: 0 <= p < |out| ==> IsComplete(d, out[p].dir) && out[p].meta == MetaAt(d, out[p].dir))
    && (forall p :: 0 <= p < |out| ==> out[p].dir in order[..i])
    && (forall p :: 0 <= p < i && IsComplete(d, order[p]) ==> CatalogEntry(MetaAt(d, order[p]), order[p]) in out)
    && Distinct(out)
  }

  /** The entries are those of the complete directories among the first `i`, at these positions, in order. */
  ghost predicate InOrder(d: Dirs, order: seq<string>, i: nat, out: seq<CatalogEntry>, at: seq<nat>)
    requires i <= |order|
  {
    && |at| == |out|
    && (forall k :: 0 <= k < |at| ==> at[k] < i && out[k].dir == order[at[k]])
    && (forall j, k :: 0 <= j < k < |at| ==> at[j] < at[k])
    && (forall p: nat :: p < i && IsComplete(d, order[p]) ==> p in at)
  }

  lemma OrderExtends(d: Dirs, order: seq<string>, i: nat, out: seq<CatalogEntry>, at: seq<nat>, m: Meta)
    requires i < |order| && InOrder(d, order, i, out, at)
    ensures InOrder(d, order, i + 1, out + [CatalogEntry(m, order[i])], at + [i])
    ensures !IsComplete(d, order[i]) ==> InOrder(d, order, i + 1, out, at)
  {
    assert (at + [i])[|at|] == i;
  }

  lemma ListedExtends(d: Dirs, order: seq<string>, i: nat, out: seq<CatalogEntry>)
    requires IsListing(order, d) && i < |order| && ListedUpTo(d, order, i, out) && order[i] in d
    ensures match d[order[i]].meta
            case None => ListedUpTo(d, order, i + 1, out)
            case Some(Torn) => true
            case Some(Complete(m)) => ListedUpTo(d, order, i + 1, out + [CatalogEntry(m, order[i])])
  {
    assert order[..i + 1] == order[..i] + [order[i]];
    assert order[i] !in order[..i];
  }

  lemma ListedAll(d: Dirs, order: seq<string>, out: seq<CatalogEntry>)
    requires IsListing(order, d) && ListedUpTo(d, order, |order|, out)
    ensures Lists(d, out) && !AnyTorn(d)
  {
    forall n | n in d ensures d[n].meta != Some(Torn) && (IsComplete(d, n) ==> CatalogEntry(MetaAt(d, n), n) in out) {
      assert n in order;
      var p :| 0 <= p < |order| && order[p] == n;
    }
  }

  ghost predicate Ascending(es: seq<CatalogEntry>) {
    forall i, j :: 0 <= i < j < |es| ==> !es[j].meta.key.Less(es[i].meta.key)
  }

  ghost predicate Distinct(es: seq<CatalogEntry>) {
    forall i, j :: 0 <= i < j < |es| ==> es[i].dir != es[j].dir
  }

  function Insert(s: seq<CatalogEntry>, e: CatalogEntry): (r: seq<CatalogEntry>)
    ensures |r| == |s| + 1
    ensures forall x :: x in r <==> x == e || x in s
  {
    if s == [] || !e.meta.key.Less(s[|s| - 1].meta.key) then s + [e]
    else Insert(s[..|s| - 1], e) + [s[|s| - 1]]
  }

  lemma {:induction false} InsertKeepsOrder(s: seq<CatalogEntry>, e: CatalogEntry)
    requires Ascending(s) && Distinct(s)
    requires forall i :: 0 <= i < |s| ==> s[i].dir != e.dir
    ensures Ascending(Insert(s, e)) && Distinct(Insert(s, e))
  {
    if s != [] && e.meta.key.Less(s[|s| - 1].meta.key) {
      InsertKeepsOrder(s[..|s| - 1], e);
      var front := Insert(s[..|s| - 1], e);
      forall p | 0 <= p < |front|
        ensures !s[|s| - 1].meta.key.Less(front[p].meta.key) && front[p].dir != s[|s| - 1].dir
      {
        assert front[p] in front;
      }
    }
  }

  /** A library sort, by its contract: the same entries, ascending by key. */
  method SortByKey(es: seq<CatalogEntry>) returns (s: seq<CatalogEntry>)
    requires Distinct(es)
    ensures |s| == |es| && forall e :: e in s <==> e in es
    ensures Ascending(s) && Distinct(s)
  {
    s := [];
    for i := 0 to |es|
      invariant |s| == i && forall e :: e in s <==> e in es[..i]
      invariant Ascending(s) && Distinct(s)
    {
      forall p | 0 <= p < |s| ensures s[p].dir != es[i].dir {
        assert s[p] in es[..i];
      }
      InsertKeepsOrder(s, es[i]);
      s := Insert(s, es[i]);
      assert es[..i + 1] == es[..i] + [es[i]];
    }
    assert es[..|es|] == es;
  }

  lemma SameEntriesList(d: Dirs, es: seq<CatalogEntry>, s: seq<CatalogEntry>)
    requires Lists(d, es) && Distinct(s) && forall e :: e in s <==> e in es
    ensures Lists(d, s)
  {
    forall i | 0 <= i < |s|
      ensures IsComplete(d, s[i].dir) && s[i].meta == MetaAt(d, s[i].dir)
    {
      assert s[i] in es;
    }
  }

  // ----- pruning -----

  /** A complete entry with at least `keep` complete entries above it. */
  ghost predicate Victim(keep: nat, d: Dirs, n: string) {
    IsComplete(d, n) && |Above(Completed(d), MetaAt(d, n).key)| >= keep
  }

  ghost function Pruned(keep: nat, d: Dirs): Dirs {
    map n | n in d && !Victim(keep, d, n) :: d[n]
  }

  lemma PrunedKeepsTop(keep: nat, d: Dirs)
    requires WellNamed(d)
    ensures Completed(Pruned(keep, d)) == Top(keep, Completed(d))
    ensures WellNamed(Pruned(keep, d))
  {
    forall k
      ensures k in Completed(Pruned(keep, d)) <==> k in Top(keep, Completed(d))
    {
      CompletedByName(d, k);
      CompletedByName(Pruned(keep, d), k);
    }
  }

  /** The keys of a sorted listing ascend strictly and are exactly the completed ones. */
  lemma SortedKeys(d: Dirs, s: seq<CatalogEntry>) returns (ks: seq<Key>)
    requires WellNamed(d) && Lists(d, s) && Ascending(s)
    ensures |ks| == |s| && forall i :: 0 <= i < |s| ==> ks[i] == s[i].meta.key
    ensures forall a, b :: 0 <= a < b < |ks| ==> ks[a].Less(ks[b])
    ensures KeySet(ks) == Completed(d)
  {
    ks := seq(|s|, i requires 0 <= i < |s| => s[i].meta.key);
    forall a, b | 0 <= a < b < |ks| ensures ks[a].Less(ks[b]) {
      assert s[a].dir == Name(ks[a]) && s[b].dir == Name(ks[b]);
    }
    forall k ensures k in ks <==> k in Completed(d) {
      CompletedByName(d, k);
      if k in Completed(d) {
        var e := CatalogEntry(MetaAt(d, Name(k)), Name(k));
        var i :| 0 <= i < |s| && s[i] == e;
        assert ks[i] == k;
      }
    }
  }

  /** The entries the sorted prune loop takes are exactly the victims. */
  lemma OldestAreVictims(keep: nat, d: Dirs, s: seq<CatalogEntry>)
    requires WellNamed(d) && Lists(d, s) && Ascending(s)
    ensures forall i :: 0 <= i < |s| ==> (Victim(keep, d, s[i].dir) <==> i < |s| - keep)
    ensures forall n :: Victim(keep, d, n) ==> exists i :: 0 <= i < |s| && s[i].dir == n
  {
    var ks := SortedKeys(d, s);
    forall i | 0 <= i < |s| ensures Victim(keep, d, s[i].dir) <==> i < |s| - keep {
      RankInSorted(ks, i);
    }
    forall n | Victim(keep, d, n) ensures exists i :: 0 <= i < |s| && s[i].dir == n {
      var i :| 0 <= i < |s| && s[i] == CatalogEntry(MetaAt(d, n), n);
    }
  }

  method RemoveAll(d0: Dirs, es: seq<CatalogEntry>) returns (d: Dirs)
    ensures forall n :: n in d <==> n in d0 && (forall p :: 0 <= p < |es| ==> es[p].dir != n)
    ensures forall n :: n in d ==> d[n] == d0[n]
  {
    d := d0;
    for i := 0 to |es|
      invariant forall n :: n in d <==> n in d0 && (forall p :: 0 <= p < i ==> es[p].dir != n)
      invariant forall n :: n in d ==> d[n] == d0[n]
    {
      d := d - {es[i].dir};
    }
  }

  /** Sort the listing and remove all but the newest `keep`. */
  method PruneDirs(keep: nat, d0: Dirs, listed: seq<CatalogEntry>) returns (d: Dirs)
    requires WellNamed(d0) && Lists(d0, listed)
    ensures d == Pruned(keep, d0)
    ensures WellNamed(d)
  {
    PrunedKeepsTop(keep, d0);
    var s := SortByKey(listed);
    SameEntriesList(d0, listed, s);
    OldestAreVictims(keep, d0, s);
    if |s| <= keep {
      assert forall n :: n in d0 ==> !Victim(keep, d0, n);
      assert Pruned(keep, d0) == d0;
      return d0;
    }
    var oldest := s[..|s| - keep];
    d := RemoveAll(d0, oldest);
    forall n | n in d0 ensures n in d <==> !Victim(keep, d0, n) {
      if Victim(keep, d0, n) {
        var i :| 0 <= i < |s| && s[i].dir == n;
        assert oldest[i].dir == n;
      }
    }
  }

  // ----- writing -----

  function MetaOf(hash: Bytes -> Digest, g: GroupId, k: Key, id: string, data: Bytes): Meta {
    Meta(g, k, id, |data|, hash(data))
  }

  function Stored(hash: Bytes -> Digest, g: GroupId, d: Dirs, k: Key, id: string, data: Bytes): Dirs {
    d[Name(k) := Dir(Some(data), Some(Complete(MetaOf(hash, g, k, id, data))))]
  }

  /** A completed write leaves the `keep` greatest of the old keys and the new one. */
  lemma WriteKeepsTop(keep: nat, hash: Bytes -> Digest, g: GroupId, d: Dirs, k: Key, id: string, data: Bytes)
    requires WellNamed(d)
    ensures var d' := Stored(hash, g, d, k, id, data);
            && WellNamed(d')
            && Completed(d') == Completed(d) + {k}
            && Completed(Pruned(keep, d')) == Top(keep, Completed(d) + {k})
  {
    var d' := Stored(hash, g, d, k, id, data);
    forall n | IsComplete(d', n) ensures n == Name(MetaAt(d', n).key) {
      assert n != Name(k) ==> IsComplete(d, n);
    }
    forall x ensures x in Completed(d') <==> x in Completed(d) + {k} {
      CompletedByName(d, x);
      CompletedByName(d', x);
      if Name(x) == Name(k) {
        NameIsInjective(x, k);
      }
    }
    PrunedKeepsTop(keep, d');
  }

  // ----- reading -----

  predicate Matches(d: Dirs, n: string, id: string) {
    IsComplete(d, n) && (MetaAt(d, n).id == id || n == id)
  }

  /** Directory `n` answers a read of `id` with these bytes: they match its digest. */
  predicate Yields(hash: Bytes -> Digest, d: Dirs, n: string, id: string, data: Bytes) {
    Matches(d, n, id) && d[n].data == Some(data) && hash(data) == MetaAt(d, n).sha
  }

  /** The bytes of the directory are there and have the digest its meta file records. */
  predicate Intact(hash: Bytes -> Digest, d: Dirs, n: string) {
    IsComplete(d, n) && d[n].data.Some? && hash(d[n].data.value) == MetaAt(d, n).sha
  }

  /** Position `p` of the listing is the first directory that matches. */
  ghost predicate IsFirstMatch(d: Dirs, order: seq<string>, id: string, p: int) {
    0 <= p < |order| && Matches(d, order[p], id) && forall q :: 0 <= q < p ==> !Matches(d, order[q], id)
  }

  lemma FoundIsFirst(d: Dirs, order: seq<string>, id: string, out: seq<CatalogEntry>, at: seq<nat>, i: nat)
    requires InOrder(d, order, |order|, out, at) && i < |out|
    requires Matches(d, out[i].dir, id) && forall j :: 0 <= j < i ==> !Matches(d, out[j].dir, id)
    ensures IsFirstMatch(d, order, id, at[i]) && order[at[i]] == out[i].dir
  {
    forall q: nat | q < at[i] && IsComplete(d, order[q]) ensures !Matches(d, order[q], id) {
      var j :| 0 <= j < |at| && at[j] == q;
      assert j < i && out[j].dir == order[q];
    }
  }

  /** The first entry with this id or directory name, or the end. */
  method FirstNamed(es: seq<CatalogEntry>, id: string) returns (i: nat)
    ensures i <= |es| && forall j :: 0 <= j < i ==> es[j].meta.id != id && es[j].dir != id
    ensures i < |es| ==> es[i].meta.id == id || es[i].dir == id
  {
    i := 0;
    while i < |es| && es[i].meta.id != id && es[i].dir != id
      invariant i <= |es| && forall j :: 0 <= j < i ==> es[j].meta.id != id && es[j].dir != id
    {
      i := i + 1;
    }
  }

  lemma FoundOrAbsent(d: Dirs, order: seq<string>, id: string, out: seq<CatalogEntry>, at: seq<nat>, i: nat)
    requires Lists(d, out) && InOrder(d, order, |order|, out, at)
    requires i <= |out| && forall j :: 0 <= j < i ==> out[j].meta.id != id && out[j].dir != id
    requires i < |out| ==> out[i].meta.id == id || out[i].dir == id
    ensures i == |out| ==> forall n :: !Matches(d, n, id)
    ensures i < |out| ==> Matches(d, out[i].dir, id) && IsFirstMatch(d, order, id, at[i]) && order[at[i]] == out[i].dir
  {
    if i < |out| {
      FoundIsFirst(d, order, id, out, at, i);
    } else {
      forall n | IsComplete(d, n) ensures !Matches(d, n, id) {
        var j :| 0 <= j < |out| && out[j] == CatalogEntry(MetaAt(d, n), n);
      }
    }
  }

  /** Reading fails exactly on a torn meta file of the group, or if the first match is damaged. */
  ghost predicate ReadFails(hash: Bytes -> Digest, d: Dirs, order: seq<string>, id: string) {
    AnyTorn(d) || exists p :: IsFirstMatch(d, order, id, p) && !Intact(hash, d, order[p])
  }

  /** All that a read may answer: an error exactly then, None exactly without a match, else the match's bytes. */
  ghost predicate ReadAnswers(hash: Bytes -> Digest, d: Dirs, order: seq<string>, id: string,
                              r: Result<Option<Bytes>, string>) {
    && (r.Err? <==> ReadFails(hash, d, order, id))
    && (r.Ok? ==> (r.value.None? <==> forall n :: !Matches(d, n, id)))
    && (r.Ok? && r.value.Some? ==>
          exists p :: IsFirstMatch(d, order, id, p) && Yields(hash, d, order[p], id, r.value.value))
  }

  lemma FirstMatchIsUnique(d: Dirs, order: seq<string>, id: string, p: int, q: int)
    requires IsFirstMatch(d, order, id, p) && IsFirstMatch(d, order, id, q)
    ensures p == q
  {
  }

  /** Where something matches and every match is intact, a read answers with bytes. */
  lemma IntactReads(hash: Bytes -> Digest, d: Dirs, order: seq<string>, id: string, n: string,
                    r: Result<Option<Bytes>, string>)
    requires ReadAnswers(hash, d, order, id, r) && !AnyTorn(d) && Matches(d, n, id)
    requires forall m :: Matches(d, m, id) ==> Intact(hash, d, m)
    ensures r.Ok? && r.value.Some?
  {
  }

  /**
    Round trip. A completed write that kept its key, read back by its id where no other entry
    matches, in whatever order the directories are listed, gives exactly the bytes written.
   */
  lemma WrittenReadsBack(keep: nat, hash: Bytes -> Digest, g: GroupId, d: Dirs, k: Key, id: string, data: Bytes,
                         order: seq<string>, r: Result<Option<Bytes>, string>)
    requires WellNamed(d) && !AnyTorn(Stored(hash, g, d, k, id, data))
    requires k in Top(keep, Completed(d) + {k})
    requires var d' := Pruned(keep, Stored(hash, g, d, k, id, data));
             && ReadAnswers(hash, d', order, id, r)
             && forall n :: Matches(d', n, id) ==> n == Name(k)
    ensures r == Ok(Some(data))
  {
    var d' := Pruned(keep, Stored(hash, g, d, k, id, data));
    WriteKeepsTop(keep, hash, g, d, k, id, data);
    PrunedKeepsTop(keep, Stored(hash, g, d, k, id, data));
    CompletedByName(d', k);
    assert Matches(d', Name(k), id) && Intact(hash, d', Name(k));
    IntactReads(hash, d', order, id, Name(k), r);
  }

  ghost predicate IsLatest(d: Dirs, n: string) {
    IsComplete(d, n) && forall m :: IsComplete(d, m) && m != n ==> MetaAt(d, m).key.Less(MetaAt(d, n).key)
  }

  lemma LastIsLatest(d: Dirs, s: seq<CatalogEntry>)
    requires WellNamed(d) && Lists(d, s) && Ascending(s) && s != []
    ensures IsLatest(d, s[|s| - 1].dir)
  {
    var ks := SortedKeys(d, s);
    forall m | IsComplete(d, m) && m != s[|s| - 1].dir
      ensures MetaAt(d, m).key.Less(s[|s| - 1].meta.key)
    {
      var i :| 0 <= i < |s| && s[i] == CatalogEntry(MetaAt(d, m), m);
      assert ks[i].Less(ks[|s| - 1]);
    }
  }

  class SnapshotCatalog {
    const keep: nat
    const hash: Bytes -> Digest
    var groups: map<string, Dirs>

    function DirsOf(g: GroupId): Dirs
      reads this
    {
      if Decimal(g) in groups then groups[Decimal(g)] else map[]
    }

    ghost predicate Valid()
      reads this
    {
      keep >= 1 && forall n :: n in groups ==> WellNamed(groups[n])
    }

    constructor (hash: Bytes -> Digest, keep: nat)
      ensures Valid() && this.hash == hash
      ensures this.keep == if keep == 0 then 1 else keep
      ensures forall g: GroupId :: DirsOf(g) == map[]
    {
      this.hash := hash;
      this.keep := if keep == 0 then 1 else keep;
      groups := map[];
    }

    /** One unreadable meta file fails the listing of the whole group. */
    method List(g: GroupId, order: seq<string>) returns (r: Result<seq<CatalogEntry>, string>)
      requires IsListing(order, DirsOf(g))
      ensures r.Err? <==> AnyTorn(DirsOf(g))
      ensures r.Ok? ==> Lists(DirsOf(g), r.value) && exists at :: InOrder(DirsOf(g), order, |order|, r.value, at)
    {
      var d := DirsOf(g);
      var out: seq<CatalogEntry> := [];
      ghost var at: seq<nat> := [];
      for i := 0 to |order|
        invariant ListedUpTo(d, order, i, out) && InOrder(d, order, i, out, at)
      {
        var n := order[i];
        assert n in d;
        ListedExtends(d, order, i, out);
        match d[n].meta {
          case None =>
          case Some(Torn) => return Err("meta.json");
          case Some(Complete(m)) =>
            OrderExtends(d, order, i, out, at, m);
            out := out + [CatalogEntry(m, n)];
            at := at + [i];
        }
      }
      ListedAll(d, order, out);
      r := Ok(out);
    }

    method Latest(g: GroupId, order: seq<string>) returns (r: Result<Option<CatalogEntry>, string>)
      requires Valid() && IsListing(order, DirsOf(g))
      ensures r.Err? <==> AnyTorn(DirsOf(g))
      ensures r == Ok(None) ==> Completed(DirsOf(g)) == {}
      ensures r.Ok? && r.value.Some? ==>
                var e := r.value.value;
                && IsLatest(DirsOf(g), e.dir) && e.meta == MetaAt(DirsOf(g), e.dir)
                && forall n :: IsComplete(DirsOf(g), n) && n != e.dir ==>
                     var k := MetaAt(DirsOf(g), n).key;
                     k.index < e.meta.key.index || (k.index == e.meta.key.index && k.term < e.meta.key.term)
    {
      var l := List(g, order);
      if l.Err? {
        return Err(l.error);
      }
      var s := SortByKey(l.value);
      SameEntriesList(DirsOf(g), l.value, s);
      if s == [] {
        return Ok(None);
      }
      LastIsLatest(DirsOf(g), s);
      r := Ok(Some(s[|s| - 1]));
    }

    method Find(g: GroupId, id: string, order: seq<string>) returns (r: Result<Option<CatalogEntry>, string>)
      requires IsListing(order, DirsOf(g))
      ensures r.Err? <==> AnyTorn(DirsOf(g))
      ensures r == Ok(None) ==> forall n :: !Matches(DirsOf(g), n, id)
      ensures r.Ok? && r.value.Some? ==>
                var e := r.value.value;
                && Matches(DirsOf(g), e.dir, id) && e.meta == MetaAt(DirsOf(g), e.dir)
                && exists p :: IsFirstMatch(DirsOf(g), order, id, p) && order[p] == e.dir
    {
      var l := List(g, order);
      if l.Err? {
        return Err(l.error);
      }
      ghost var at :| InOrder(DirsOf(g), order, |order|, l.value, at);
      var i := FirstNamed(l.value, id);
      FoundOrAbsent(DirsOf(g), order, id, l.value, at, i);
      r := Ok(if i < |l.value| then Some(l.value[i]) else None);
    }

    /** Bytes come back only from a directory whose digest they match, and then they do come back. */
    method Read(g: GroupId, id: string, order: seq<string>) returns (r: Result<Option<Bytes>, string>)
      requires IsListing(order, DirsOf(g))
      ensures ReadAnswers(hash, DirsOf(g), order, id, r)
      ensures AnyTorn(DirsOf(g)) ==> r.Err?
      ensures r.Ok? ==>
                if r.value.None? then forall n :: !Matches(DirsOf(g), n, id)
                else exists n :: Yields(hash, DirsOf(g), n, id, r.value.value)
    {
      var f := Find(g, id, order);
      if f.Err? {
        return Err(f.error);
      }
      if f.value.None? {
        return Ok(None);
      }
      var e := f.value.value;
      ghost var p :| IsFirstMatch(DirsOf(g), order, id, p) && order[p] == e.dir;
      forall q | IsFirstMatch(DirsOf(g), order, id, q) ensures q == p {
        FirstMatchIsUnique(DirsOf(g), order, id, p, q);
      }
      var file := DirsOf(g)[e.dir].data;
      if file.None? {
        return Err("data.bin");
      }
      if hash(file.value) != e.meta.sha {
        return Err("snapshot sha256 mismatch");
      }
      assert Yields(hash, DirsOf(g), e.dir, id, file.value);
      r := Ok(Some(file.value));
    }

    method Prune(g: GroupId, order: seq<string>) returns (r: Result<(), string>)
      requires Valid() && IsListing(order, DirsOf(g))
      modifies this`groups
      ensures Valid()
      ensures r.Err? <==> AnyTorn(old(DirsOf(g)))
      ensures r.Err? ==> groups == old(groups)
      ensures r.Ok? ==> DirsOf(g) == Pruned(keep, old(DirsOf(g)))
      ensures r.Ok? ==>
                && (forall n :: n in DirsOf(g) ==> n in old(DirsOf(g)) && DirsOf(g)[n] == old(DirsOf(g))[n])
                && (forall n :: n in old(DirsOf(g)) && !IsComplete(old(DirsOf(g)), n) ==> n in DirsOf(g))
      ensures forall n :: n != Decimal(g) ==> (n in groups <==> n in old(groups))
      ensures forall n :: n != Decimal(g) && n in groups ==> groups[n] == old(groups[n])
    {
      var l := List(g, order);
      if l.Err? {
        return Err(l.error);
      }
      var d := PruneDirs(keep, DirsOf(g), l.value);
      groups := groups[Decimal(g) := d];
      r := Ok(());
    }

    /**
      A write that runs to its end. Its files are in place in either case; it fails when some
      other entry's meta file is torn, because then pruning cannot list the group.
     */
    method Write(g: GroupId, key: Key, id: string, data: Bytes, order: seq<string>)
      returns (r: Result<CatalogEntry, string>)
      requires Valid()
      requires IsListing(order, Stored(hash, g, DirsOf(g), key, id, data))
      modifies this`groups
      ensures Valid()
      ensures var d := Stored(hash, g, old(DirsOf(g)), key, id, data);
              && (r.Err? <==> AnyTorn(d))
              && DirsOf(g) == (if r.Ok? then Pruned(keep, d) else d)
              && (r.Ok? ==> Completed(DirsOf(g)) == Top(keep, Completed(old(DirsOf(g))) + {key}))
              && (r.Ok? ==> r.value == CatalogEntry(MetaOf(hash, g, key, id, data), Name(key)))
              && (r.Ok? ==> r.value == CatalogEntry(Meta(g, key, id, |data|, hash(data)), Name(key)))
      ensures forall h: GroupId :: h != g ==> DirsOf(h) == old(DirsOf(h))
    {
      ghost var before := DirsOf(g);
      WriteKeepsTop(keep, hash, g, before, key, id, data);
      groups := groups[Decimal(g) := Stored(hash, g, DirsOf(g), key, id, data)];
      var p := Prune(g, order);
      forall h: GroupId | h != g ensures DirsOf(h) == old(DirsOf(h)) {
        if Decimal(h) == Decimal(g) {
          DecimalIsInjective(h, g);
        }
      }
      if p.Err? {
        return Err(p.error);
      }
      r := Ok(CatalogEntry(MetaOf(hash, g, key, id, data), Name(key)));
    }
  }
}
