/**
  The state-machine store as an object (crates/multiraft-store/src/sm_bridge.rs). Each method is
  one critical section, or a sequence of them run without interference, proved to have the
  effect the protocol model takes for it.
 */
module Store {
  import opened Types
  import opened Names
  import opened Counter
  import opened Bridge
  import opened Catalog

  lemma {:induction false} AcceptedIs(codec: Codec, items: seq<Item>, k: nat)
    requires k <= |items|
    requires forall p :: 0 <= p < k ==> !Stops(codec, items[p])
    requires k < |items| ==> Stops(codec, items[k])
    ensures Accepted(codec, items) == k
  {
    if items != [] && k > 0 {
      AcceptedIs(codec, items[1..], k - 1);
    }
  }

  lemma EntriesExtend(items: seq<Item>, i: nat)
    requires i < |items| && forall p :: 0 <= p <= i ==> items[p].Item?
    ensures Entries(items[..i + 1]) == Entries(items[..i]) + [items[i].entry]
    ensures items[..i + 1] == items[..i] + [items[i]]
  {
  }

  /** One accepted entry extends every part of what the loop has accumulated. */
  lemma AcceptOne(codec: Codec, g: GroupId, f: Fsm, m: StoredMembership, items: seq<Item>, i: nat)
    requires i < |items| && (forall p :: 0 <= p <= i ==> items[p].Item?)
    ensures var es, e := Entries(items[..i]), items[i].entry;
            var es' := Entries(items[..i + 1]);
            && FsmReplay(codec, f, g, es') == FsmEffect(codec, FsmReplay(codec, f, g, es), g, e)
            && LastMembership(m, es') ==
                 (if e.payload.Membership? then StoredMembership(Some(e.id), e.payload.members)
                  else LastMembership(m, es))
            && Triggers(es') == (if IsTrigger(e) then Triggers(es) + [e.id] else Triggers(es))
            && Answered(items[..i + 1]) ==
                 (if items[i].responder then Answered(items[..i]) + [e.id] else Answered(items[..i]))
  {
    EntriesExtend(items, i);
    var es' := Entries(items[..i + 1]);
    assert es'[..|es'| - 1] == Entries(items[..i]);
    assert items[..i + 1][..i] == items[..i];
  }

  /** The fields after the first `i` items, all accepted. */
  ghost function AfterAccepted(codec: Codec, g: GroupId, c: Core, items: seq<Item>, i: nat): Core
    requires i <= |items| && forall p :: 0 <= p < i ==> items[p].Item?
  {
    c.(lastApplied := if i == 0 then c.lastApplied else Some(items[i - 1].entry.id),
       membership := LastMembership(c.membership, Entries(items[..i])),
       fsm := FsmReplay(codec, c.fsm, g, Entries(items[..i])))
  }

  /** What one entry does to the fields, accepted or not. */
  ghost function Took(codec: Codec, g: GroupId, c: Core, e: Entry): Core {
    c.(lastApplied := Some(e.id),
       membership := if e.payload.Membership? then StoredMembership(Some(e.id), e.payload.members) else c.membership,
       fsm := FsmEffect(codec, c.fsm, g, e))
  }

  lemma AcceptedExtends(codec: Codec, g: GroupId, c: Core, items: seq<Item>, i: nat)
    requires i < |items| && (forall p :: 0 <= p <= i ==> items[p].Item?)
    ensures AfterAccepted(codec, g, c, items, i + 1)
         == Took(codec, g, AfterAccepted(codec, g, c, items, i), items[i].entry)
  {
    AcceptOne(codec, g, c.fsm, c.membership, items, i);
  }

  /** A batch that stops at item `i`: the fields are those of the items before it, but for the id. */
  lemma StopsAt(codec: Codec, g: GroupId, c: Core, items: seq<Item>, i: nat)
    requires i <= |items| && forall p :: 0 <= p < i ==> !Stops(codec, items[p])
    requires i < |items| ==> Stops(codec, items[i])
    ensures Accepted(codec, items) == i
    ensures var before := AfterAccepted(codec, g, c, items, i);
            AfterApply(codec, g, c, items) ==
              if i < |items| && items[i].Item? then Took(codec, g, before, items[i].entry) else before
  {
    AcceptedIs(codec, items, i);
  }

  /** Of the first `k` items the last membership entry is what is stored, or the old one if there is none. */
  ghost predicate KeepsLastMembership(was: StoredMembership, items: seq<Item>, k: nat, now: StoredMembership)
    requires k <= |items| && forall p :: 0 <= p < k ==> items[p].Item?
  {
    && ((forall p :: 0 <= p < k ==> !items[p].entry.payload.Membership?) ==> now == was)
    && (forall p :: 0 <= p < k && items[p].entry.payload.Membership?
                    && (forall q :: p < q < k ==> !items[q].entry.payload.Membership?) ==>
          now == StoredMembership(Some(items[p].entry.id), items[p].entry.payload.members))
  }

  lemma LastMembershipIsKept(m: StoredMembership, items: seq<Item>, k: nat)
    requires k <= |items| && forall p :: 0 <= p < k ==> items[p].Item?
    ensures KeepsLastMembership(m, items, k, LastMembership(m, Entries(items[..k])))
  {
    var es := Entries(items[..k]);
    if forall p :: 0 <= p < k ==> !items[p].entry.payload.Membership? {
      MembershipStays(m, es);
    }
    forall p | 0 <= p < k && items[p].entry.payload.Membership?
               && (forall q :: p < q < k ==> !items[q].entry.payload.Membership?)
      ensures LastMembership(m, es) == StoredMembership(Some(items[p].entry.id), items[p].entry.payload.members)
    {
      MembershipIsTheLast(m, es, p);
    }
  }

  class StateMachineStore {
    const group: GroupId
    const codec: Codec
    const allowHotBuild: bool
    const onTrigger: bool
    const catalog: SnapshotCatalog?
    const fsm: CounterFsm

    var lastApplied: Option<LogId>
    var membership: StoredMembership
    var current: Option<StoredSnapshot>
    var built: nat

    ghost function State(): Core
      reads this, fsm
    {
      Core(lastApplied, membership, fsm.State(), current, built)
    }

    ghost predicate Valid()
      reads this, catalog
    {
      codec.Lawful() && (catalog != null ==> catalog.Valid())
    }

    constructor (group: GroupId, codec: Codec, allowHotBuild: bool, onTrigger: bool, catalog: SnapshotCatalog?)
      requires codec.Lawful() && (catalog != null ==> catalog.Valid())
      ensures Valid() && State() == NewCore && fresh(fsm)
      ensures this.group == group && this.codec == codec && this.catalog == catalog
      ensures this.allowHotBuild == allowHotBuild && this.onTrigger == onTrigger
    {
      this.group, this.codec, this.catalog := group, codec, catalog;
      this.allowHotBuild, this.onTrigger := allowHotBuild, onTrigger;
      lastApplied, membership, current, built := None, NoMembership, None, 0;
      fsm := new CounterFsm();
    }

    /** One entry: the id is recorded first, so a rejected entry still moves `lastApplied`. */
    method ApplyOne(e: Entry) returns (r: Result<(), string>)
      modifies this`lastApplied, this`membership, fsm
      ensures r.Err? <==> Rejected(codec, e)
      ensures lastApplied == Some(e.id)
      ensures fsm.State() == FsmEffect(codec, old(fsm.State()), group, e)
      ensures membership ==
                if e.payload.Membership? then StoredMembership(Some(e.id), e.payload.members) else old(membership)
      ensures State() == Took(codec, group, old(State()), e)
    {
      lastApplied := Some(e.id);
      r := Ok(());
      match e.payload {
        case Blank =>
        case Normal(data) =>
          if data != STANDBY_SNAPSHOT_TRIGGER {
            r := fsm.Apply(codec, group, data);
          }
        case Membership(members) =>
          membership := StoredMembership(Some(e.id), members);
      }
    }

    /**
      The apply loop. The ids handed to the trigger callback are the batch's triggers in log order,
      and only after the whole batch; a batch that stops early calls back for none of them.
     */
    method Apply(items: seq<Item>) returns (r: Result<(), string>, callbacks: seq<LogId>, answered: seq<LogId>)
      requires Valid()
      modifies this`lastApplied, this`membership, fsm
      ensures r.Ok? <==> Accepted(codec, items) == |items|
      ensures State() == AfterApply(codec, group, old(State()), items)
      ensures var k := Accepted(codec, items);
              && (k < |items| && items[k].Item? ==> lastApplied == Some(items[k].entry.id))
              && (k == |items| && k > 0 ==> lastApplied == Some(items[k - 1].entry.id))
              && KeepsLastMembership(old(membership), items, k, membership)
      ensures current == old(current) && built == old(built)
      ensures callbacks == if r.Ok? && onTrigger then Triggers(Applied(codec, items)) else []
      ensures answered == Answered(items[..Accepted(codec, items)])
    {
      var pending: seq<LogId> := [];
      callbacks, answered := [], [];
      var i := 0;
      while i < |items|
        invariant i <= |items|
        invariant forall p :: 0 <= p < i ==> !Stops(codec, items[p])
        invariant State() == AfterAccepted(codec, group, old(State()), items, i)
        invariant pending == if onTrigger then Triggers(Entries(items[..i])) else []
        invariant answered == Answered(items[..i]) && callbacks == []
      {
        if items[i].StreamError? {
          StopsAt(codec, group, old(State()), items, i);
          LastMembershipIsKept(old(membership), items, i);
          return Err("stream"), [], answered;
        }
        var e := items[i].entry;
        AcceptOne(codec, group, old(fsm.State()), old(membership), items, i);
        AcceptedExtends(codec, group, old(State()), items, i);
        var out := ApplyOne(e);
        if out.Err? {
          StopsAt(codec, group, old(State()), items, i);
          LastMembershipIsKept(old(membership), items, i);
          return Err(out.error), [], answered;
        }
        if IsTrigger(e) && onTrigger {
          pending := pending + [e.id];
        }
        if items[i].responder {
          answered := answered + [e.id];
        }
        i := i + 1;
      }
      StopsAt(codec, group, old(State()), items, |items|);
      LastMembershipIsKept(old(membership), items, |items|);
      assert items[..|items|] == items;
      callbacks := pending;
      r := Ok(());
    }

    /** The first lock region of a standby build. */
    method Freeze() returns (data: Bytes)
      requires Valid()
      ensures Holds(codec, data, State().fsm.View(group))
    {
      data := fsm.Snapshot(codec, group);
    }

    /** The last lock regions of a standby build, after its catalog write. */
    method Advertise(upTo: LogId, id: string, data: Bytes)
      modifies this`current
      ensures State() == Advertised(old(State()), upTo, old(membership), id, data)
      ensures current == Some(StoredSnapshot(SnapshotMeta(Some(upTo), membership, id), data))
      ensures lastApplied == old(lastApplied) && membership == old(membership) && built == old(built)
    {
      var m := membership;
      current := Some(StoredSnapshot(SnapshotMeta(Some(upTo), m, id), data));
    }

    ghost function CatalogDirs(): Dirs
      reads this, catalog
    {
      if catalog == null then map[] else catalog.DirsOf(group)
    }

    /** Undecodable bytes change nothing; otherwise memory first, then the catalog. */
    method InstallSnapshot(s: StoredSnapshot, order: seq<string>) returns (r: Result<(), string>)
      requires Valid()
      requires catalog != null ==>
                 IsListing(order, Stored(catalog.hash, group, CatalogDirs(), CatalogKey(s.meta), s.meta.id, s.data))
      modifies this`lastApplied, this`membership, this`current, fsm, catalog
      ensures Valid()
      ensures codec.decodeSnap(s.data).None? ==>
                r.Err? && State() == old(State()) && CatalogDirs() == old(CatalogDirs())
      ensures codec.decodeSnap(s.data).Some? ==>
                && State() == Installed(codec, group, old(State()), s)
                && lastApplied == s.meta.lastLogId && membership == s.meta.membership && current == Some(s)
                && Holds(codec, s.data, fsm.State().View(group))
                && SameElsewhere(fsm.State(), old(fsm.State()), group)
                && (catalog == null ==> r.Ok?)
                && (catalog != null ==>
                      var d := Stored(catalog.hash, group, old(CatalogDirs()), CatalogKey(s.meta), s.meta.id, s.data);
                      && (r.Err? <==> AnyTorn(d))
                      && CatalogDirs() == if r.Ok? then Pruned(catalog.keep, d) else d)
    {
      var restored := fsm.Restore(codec, group, s.data);
      if restored.Err? {
        return Err(restored.error);
      }
      lastApplied, membership, current := s.meta.lastLogId, s.meta.membership, Some(s);
      if catalog != null {
        var w := catalog.Write(group, CatalogKey(s.meta), s.meta.id, s.data, order);
        if w.Err? {
          return Err(w.error);
        }
      }
      r := Ok(());
    }

    /** The pull path: the snapshot takes the name of its label and no membership. */
    method InstallDurableSnapshot(upTo: LogId, data: Bytes, order: seq<string>) returns (r: Result<(), string>)
      requires Valid()
      requires catalog != null ==>
                 IsListing(order, Stored(catalog.hash, group, CatalogDirs(), KeyOf(upTo), Name(KeyOf(upTo)), data))
      modifies this`lastApplied, this`membership, this`current, fsm, catalog
      ensures Valid()
      ensures codec.decodeSnap(data).None? ==>
                r.Err? && State() == old(State()) && CatalogDirs() == old(CatalogDirs())
      ensures codec.decodeSnap(data).Some? ==>
                && State() == Installed(codec, group, old(State()),
                                        StoredSnapshot(SnapshotMeta(Some(upTo), NoMembership, Name(KeyOf(upTo))), data))
                && lastApplied == Some(upTo) && membership == StoredMembership(None, {})
                && current == Some(StoredSnapshot(SnapshotMeta(Some(upTo), membership, Name(KeyOf(upTo))), data))
                && Holds(codec, data, fsm.State().View(group))
                && SameElsewhere(fsm.State(), old(fsm.State()), group)
                && (catalog == null ==> r.Ok?)
                && (catalog != null ==>
                      var d := Stored(catalog.hash, group, old(CatalogDirs()), KeyOf(upTo), Name(KeyOf(upTo)), data);
                      && (r.Err? <==> AnyTorn(d))
                      && CatalogDirs() == if r.Ok? then Pruned(catalog.keep, d) else d)
    {
      var meta := SnapshotMeta(Some(upTo), NoMembership, Name(KeyOf(upTo)));
      r := InstallSnapshot(StoredSnapshot(meta, data), order);
    }

    /** What the catalog offers: its latest label, with bytes found by that entry's id. */
    ghost predicate Offers(s: StoredSnapshot)
      reads this, catalog
    {
      catalog != null && exists dir, from ::
        && IsLatest(CatalogDirs(), dir)
        && var m := MetaAt(CatalogDirs(), dir);
        && s.meta == SnapshotMeta(Some(LabelOf(m.key)), NoMembership, m.id)
        && Yields(catalog.hash, CatalogDirs(), from, s.meta.id, s.data)
    }

    /** The catalog has an entry to offer and cannot: a torn meta file, or the one found is damaged. */
    ghost predicate OfferFails(again: seq<string>)
      reads this, catalog
    {
      catalog != null &&
      (AnyTorn(CatalogDirs()) || exists dir ::
         IsLatest(CatalogDirs(), dir) && ReadFails(catalog.hash, CatalogDirs(), again, MetaAt(CatalogDirs(), dir).id))
    }

    method SnapshotFromCatalog(order: seq<string>, again: seq<string>)
      returns (r: Result<Option<StoredSnapshot>, string>)
      requires Valid() && (catalog != null ==> IsListing(order, CatalogDirs()) && IsListing(again, CatalogDirs()))
      ensures catalog == null ==> r == Ok(None)
      ensures r.Err? <==> OfferFails(again)
      ensures r.Ok? ==> (r.value.None? <==> catalog == null || Completed(CatalogDirs()) == {})
      ensures AnyTorn(CatalogDirs()) ==> r.Err?
      ensures r.Ok? && r.value.Some? ==> Offers(r.value.value)
      ensures r == Ok(None) && catalog != null ==> Completed(CatalogDirs()) == {}
    {
      if catalog == null {
        return Ok(None);
      }
      var l := catalog.Latest(group, order);
      if l.Err? {
        return Err(l.error);
      }
      if l.value.None? {
        assert forall dir :: IsComplete(CatalogDirs(), dir) ==>
                 MetaAt(CatalogDirs(), dir).key in Completed(CatalogDirs());
        return Ok(None);
      }
      var e := l.value.value;
      assert forall dir :: IsLatest(CatalogDirs(), dir) ==> dir == e.dir;
      assert MetaAt(CatalogDirs(), e.dir).key in Completed(CatalogDirs());
      var data := catalog.Read(group, e.meta.id, again);
      if data.Err? {
        return Err(data.error);
      }
      if data.value.None? {
        assert Matches(CatalogDirs(), e.dir, e.meta.id);
        assert false;
      }
      var meta := SnapshotMeta(Some(LabelOf(e.meta.key)), NoMembership, e.meta.id);
      r := Ok(Some(StoredSnapshot(meta, data.value.value)));
    }

    /**
      With hot builds off, the live state machine is never dumped: the answer is what was
      installed or advertised, else what the catalog offers, else an error.
     */
    method BuildSnapshot(leader: string, order: seq<string>, again: seq<string>)
      returns (r: Result<StoredSnapshot, string>)
      requires Valid() && (catalog != null ==> IsListing(order, CatalogDirs()) && IsListing(again, CatalogDirs()))
      modifies this`current, this`built
      ensures Valid()
      ensures !allowHotBuild ==>
                && State() == old(State())
                && (current.Some? ==> r == Ok(current.value))
                && (current.None? && r.Ok? ==> Offers(r.value))
                && (current.None? ==>
                      (r.Err? <==> OfferFails(again) || catalog == null || Completed(CatalogDirs()) == {}))
      ensures allowHotBuild ==>
                && r.Ok? && Holds(codec, r.value.data, State().fsm.View(group))
                && State() == HotBuilt(old(State()), r.value.meta.id, r.value.data)
                && current == Some(r.value) && built == old(built) + 1
                && r.value.meta.lastLogId == lastApplied && r.value.meta.membership == membership
                && (exists front :: r.value.meta.id == front + "-" + Decimal(built))
    {
      if !allowHotBuild {
        if current.Some? {
          return Ok(current.value);
        }
        var c := SnapshotFromCatalog(order, again);
        if c.Err? {
          return Err(c.error);
        }
        if c.value.None? {
          return Err("no catalog/installed snapshot available");
        }
        return Ok(c.value.value);
      }
      var data := fsm.Snapshot(codec, group);
      built := built + 1;
      var id := match lastApplied
        case Some(l) => leader + "-" + Decimal(l.index) + "-" + Decimal(built)
        case None => "--" + Decimal(built);
      ghost var front := match lastApplied case Some(l) => leader + "-" + Decimal(l.index) case None => "-";
      assert id == front + "-" + Decimal(built);
      var s := StoredSnapshot(SnapshotMeta(lastApplied, membership, id), data);
      current := Some(s);
      r := Ok(s);
    }

    method GetCurrentSnapshot(order: seq<string>, again: seq<string>)
      returns (r: Result<Option<StoredSnapshot>, string>)
      requires Valid() && (catalog != null ==> IsListing(order, CatalogDirs()) && IsListing(again, CatalogDirs()))
      ensures current.Some? ==> r == Ok(current)
      ensures current.None? && r.Ok? && r.value.Some? ==> Offers(r.value.value)
      ensures current.None? && r == Ok(None) ==> catalog == null || Completed(CatalogDirs()) == {}
      ensures current.None? ==> (r.Err? <==> OfferFails(again))
      ensures current.None? && r.Ok? ==> (r.value.None? <==> catalog == null || Completed(CatalogDirs()) == {})
    {
      if current.Some? {
        return Ok(current);
      }
      r := SnapshotFromCatalog(order, again);
    }
  }
}
