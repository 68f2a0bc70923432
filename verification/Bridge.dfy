/**
  What each critical section of the state-machine store does to the fields behind its lock
  (crates/multiraft-store/src/sm_bridge.rs), and what the apply loop promises as a whole.
 */
module Bridge {
  import opened Types
  import opened Names
  import opened Counter

  datatype StoredMembership = StoredMembership(at: Option<LogId>, members: set<NodeId>)

  const NoMembership := StoredMembership(None, {})

  datatype SnapshotMeta = SnapshotMeta(lastLogId: Option<LogId>, membership: StoredMembership, id: string)

  /** The catalog key of a snapshot; one without a last log id counts as entry zero of term zero. */
  function CatalogKey(meta: SnapshotMeta): Key {
    match meta.lastLogId
    case None => Key(0, 0)
    case Some(l) => KeyOf(l)
  }

  datatype StoredSnapshot = StoredSnapshot(meta: SnapshotMeta, data: Bytes)

  /** The fields guarded by the store's lock. */
  datatype Core = Core(
    lastApplied: Option<LogId>,
    membership: StoredMembership,
    fsm: Fsm,
    current: Option<StoredSnapshot>,
    built: nat)

  const NewCore := Core(None, NoMembership, NewFsm, None, 0)

  // ----- the apply loop -----

  /** One element of the entry stream: an entry, perhaps with a waiting client, or a broken stream. */
  datatype Item = Item(entry: Entry, responder: bool) | StreamError

  predicate Rejected(codec: Codec, e: Entry) {
    e.payload.Normal? && !IsTrigger(e) && codec.decodeCmd(e.payload.data).None?
  }

  predicate Stops(codec: Codec, it: Item) {
    it.StreamError? || Rejected(codec, it.entry)
  }

  /** How many items come before the first that stops the loop. */
  function Accepted(codec: Codec, items: seq<Item>): (k: nat)
    ensures k <= |items|
    ensures forall p :: 0 <= p < k ==> !Stops(codec, items[p])
    ensures k < |items| ==> Stops(codec, items[k])
  {
    if items == [] || Stops(codec, items[0]) then 0 else 1 + Accepted(codec, items[1..])
  }

  function Entries(items: seq<Item>): (es: seq<Entry>)
    requires forall p :: 0 <= p < |items| ==> items[p].Item?
  {
    seq(|items|, p requires 0 <= p < |items| => items[p].entry)
  }

  /** The entries the loop applied. */
  function Applied(codec: Codec, items: seq<Item>): seq<Entry> {
    Entries(items[..Accepted(codec, items)])
  }

  function LastMembership(m: StoredMembership, es: seq<Entry>): StoredMembership {
    if es == [] then m
    else
      var e := es[|es| - 1];
      if e.payload.Membership? then StoredMembership(Some(e.id), e.payload.members)
      else LastMembership(m, es[..|es| - 1])
  }

  /** The trigger entries of a stretch of log, in log order. */
  function Triggers(es: seq<Entry>): (ids: seq<LogId>)
    ensures forall id :: id in ids ==> exists p :: 0 <= p < |es| && IsTrigger(es[p]) && es[p].id == id
  {
    if es == [] then []
    else
      var rest := Triggers(es[..|es| - 1]);
      if IsTrigger(es[|es| - 1]) then rest + [es[|es| - 1].id] else rest
  }

  /** `at` lists, in order and once each, exactly the positions picked, and `ids` the log ids there. */
  ghost predicate ArePicked(es: seq<Entry>, pick: seq<bool>, ids: seq<LogId>, at: seq<nat>)
    requires |pick| == |es|
  {
    && |at| == |ids|
    && (forall i, j :: 0 <= i < j < |at| ==> at[i] < at[j])
    && (forall i :: 0 <= i < |at| ==> at[i] < |es| && pick[at[i]] && ids[i] == es[at[i]].id)
    && (forall p: nat :: p < |es| && pick[p] ==> p in at)
  }

  lemma PickedExtend(es: seq<Entry>, pick: seq<bool>, ids: seq<LogId>, at: seq<nat>, e: Entry, b: bool)
    requires |pick| == |es| && ArePicked(es, pick, ids, at)
    ensures if b then ArePicked(es + [e], pick + [b], ids + [e.id], at + [|es|])
            else ArePicked(es + [e], pick + [b], ids, at)
  {
  }

  function TriggerMarks(es: seq<Entry>): seq<bool> {
    seq(|es|, p requires 0 <= p < |es| => IsTrigger(es[p]))
  }

  /** The callbacks are exactly the trigger entries, once each and in log order. */
  lemma {:induction false} TriggersAreExact(es: seq<Entry>) returns (at: seq<nat>)
    ensures ArePicked(es, TriggerMarks(es), Triggers(es), at)
  {
    at := [];
    if es != [] {
      var n := |es| - 1;
      at := TriggersAreExact(es[..n]);
      PickedExtend(es[..n], TriggerMarks(es[..n]), Triggers(es[..n]), at, es[n], IsTrigger(es[n]));
      assert es == es[..n] + [es[n]] && TriggerMarks(es) == TriggerMarks(es[..n]) + [IsTrigger(es[n])];
      at := if IsTrigger(es[n]) then at + [n] else at;
    }
  }

  /** A stretch without a membership entry leaves the stored membership alone. */
  lemma {:induction false} MembershipStays(m: StoredMembership, es: seq<Entry>)
    requires forall q :: 0 <= q < |es| ==> !es[q].payload.Membership?
    ensures LastMembership(m, es) == m
  {
    if es != [] {
      MembershipStays(m, es[..|es| - 1]);
    }
  }

  /** With one, the stored membership becomes that of the last. */
  lemma {:induction false} MembershipIsTheLast(m: StoredMembership, es: seq<Entry>, p: nat)
    requires p < |es| && es[p].payload.Membership?
    requires forall q :: p < q < |es| ==> !es[q].payload.Membership?
    ensures LastMembership(m, es) == StoredMembership(Some(es[p].id), es[p].payload.members)
  {
    if p < |es| - 1 {
      MembershipIsTheLast(m, es[..|es| - 1], p);
    }
  }

  /** The ids of the entries whose clients were answered, in log order. */
  function Answered(items: seq<Item>): seq<LogId>
    requires forall p :: 0 <= p < |items| ==> items[p].Item?
  {
    if items == [] then []
    else
      var rest := Answered(items[..|items| - 1]);
      if items[|items| - 1].responder then rest + [items[|items| - 1].entry.id] else rest
  }

  function ResponderMarks(items: seq<Item>): seq<bool>
    requires forall p :: 0 <= p < |items| ==> items[p].Item?
  {
    seq(|items|, p requires 0 <= p < |items| => items[p].responder)
  }

  /** The clients answered are exactly the waiting ones, once each and in log order. */
  lemma {:induction false} AnsweredAreExact(items: seq<Item>) returns (at: seq<nat>)
    requires forall p :: 0 <= p < |items| ==> items[p].Item?
    ensures ArePicked(Entries(items), ResponderMarks(items), Answered(items), at)
  {
    at := [];
    if items != [] {
      var n := |items| - 1;
      var before, last := items[..n], items[n];
      at := AnsweredAreExact(before);
      PickedExtend(Entries(before), ResponderMarks(before), Answered(before), at, last.entry, last.responder);
      assert Entries(items) == Entries(before) + [last.entry];
      assert ResponderMarks(items) == ResponderMarks(before) + [last.responder];
      at := if last.responder then at + [n] else at;
    }
  }

  /**
    The fields after a batch. A rejected entry still moves `lastApplied` onto itself, because
    the loop records the id before it calls the state machine.
   */
  function AfterApply(codec: Codec, g: GroupId, c: Core, items: seq<Item>): Core {
    var k := Accepted(codec, items);
    var es := Applied(codec, items);
    c.(lastApplied :=
         if k < |items| && items[k].Item? then Some(items[k].entry.id)
         else if k > 0 then Some(items[k - 1].entry.id)
         else c.lastApplied,
       membership := LastMembership(c.membership, es),
       fsm := FsmReplay(codec, c.fsm, g, es))
  }

  /** A rejected entry is one the replay ignores, so state before it and after it agree. */
  lemma RejectedChangesNothing(codec: Codec, log: seq<Entry>, n: nat)
    requires n < |log| && Rejected(codec, log[n])
    ensures StateAt(codec, log, n + 1) == StateAt(codec, log, n)
  {
    assert log[..n + 1][..n] == log[..n];
  }

  /** The items carry the log from position `d` on, with at most a broken stream at the end. */
  ghost predicate Feeds(log: seq<Entry>, d: nat, items: seq<Item>) {
    forall p :: 0 <= p < |items| ==>
      if items[p].Item? then d + p < |log| && items[p].entry == log[d + p] else p == |items| - 1
  }

  /** The position the batch reached, counting a rejected entry as reached. */
  function Reached(codec: Codec, d: nat, items: seq<Item>): nat {
    var k := Accepted(codec, items);
    if k < |items| && items[k].Item? then d + k + 1 else d + k
  }

  /**
    The apply loop and absorption together. If the state machine holds the first `j` entries
    and the batch starts no later than `j`, then whether the batch finishes, breaks off or is
    rejected, the state machine afterwards holds the longer of the two prefixes, and that
    prefix covers the new `lastApplied`.
   */
  lemma ApplyKeepsPrefix(codec: Codec, g: GroupId, c: Core, log: seq<Entry>, d: nat, j: nat, items: seq<Item>)
    requires d <= j <= |log|
    requires Feeds(log, d, items)
    requires c.fsm.View(g) == StateAt(codec, log, j)
    ensures var r := Reached(codec, d, items);
            && r <= |log|
            && AfterApply(codec, g, c, items).fsm.View(g) == StateAt(codec, log, if j <= r then r else j)
            && SameElsewhere(AfterApply(codec, g, c, items).fsm, c.fsm, g)
            && (if r == d then AfterApply(codec, g, c, items).lastApplied == c.lastApplied
                else AfterApply(codec, g, c, items).lastApplied == Some(log[r - 1].id))
  {
    var k := Accepted(codec, items);
    var es := Applied(codec, items);
    assert k > 0 ==> items[k - 1].Item? && d + (k - 1) < |log|;
    assert forall p :: 0 <= p < k ==> es[p] == items[p].entry == log[d + p];
    assert es == log[d..d + k];
    FsmReplayIsLocal(codec, c.fsm, g, es);
    ReplayAbsorbs(codec, log, d, j, d + k);
    if k < |items| && items[k].Item? {
      RejectedChangesNothing(codec, log, d + k);
    }
  }

  // ----- freezing, advertising, building, installing -----

  function Advertised(c: Core, upTo: LogId, membership: StoredMembership, id: string, data: Bytes): Core {
    c.(current := Some(StoredSnapshot(SnapshotMeta(Some(upTo), membership, id), data)))
  }

  function HotBuilt(c: Core, id: string, data: Bytes): Core {
    c.(current := Some(StoredSnapshot(SnapshotMeta(c.lastApplied, c.membership, id), data)), built := c.built + 1)
  }

  ghost function Installed(codec: Codec, g: GroupId, c: Core, s: StoredSnapshot): Core
    requires codec.decodeSnap(s.data).Some?
  {
    c.(lastApplied := s.meta.lastLogId,
       membership := s.meta.membership,
       fsm := Restored(c.fsm, g, codec.decodeSnap(s.data).value),
       current := Some(s))
  }

  /**
    Why installs must not rewind. Openraft keeps delivering from its own position `d` after
    a durable install that bypassed it. Every snapshot labelled with `c` entries leads, for
    every log and whatever extra entries the snapshot happens to hold, to the state of the
    whole log exactly when `c` is not behind `d`.
   */
  lemma NoRewindIsExact(codec: Codec, c: nat, d: nat)
    requires codec.Lawful()
    ensures (forall log: seq<Entry>, j: nat :: d <= |log| && c <= j <= |log| ==>
               Replay(codec, StateAt(codec, log, j), log[d..]) == StateAt(codec, log, |log|))
            <==> d <= c
  {
    if d <= c {
      forall log: seq<Entry>, j: nat | d <= |log| && c <= j <= |log|
        ensures Replay(codec, StateAt(codec, log, j), log[d..]) == StateAt(codec, log, |log|)
      {
        ReplayAbsorbs(codec, log, d, j, |log|);
        assert log[d..|log|] == log[d..];
      }
    } else {
      var add := Entry(LogId(0, c), Normal(codec.encodeCmd(Cmd(0, 1))));
      var log := seq(d, p requires 0 <= p => if p == c then add else Entry(LogId(0, p), Blank));
      assert CmdOf(codec, log[c]) == Some(Cmd(0, 1));
      SeenGrows(codec, Empty, log[..|log|]);
      assert log[..|log|][c] == add;
      BlanksLeaveNothing(codec, log[..c]);
      assert log[d..] == [];
      assert Replay(codec, StateAt(codec, log, c), log[d..]) != StateAt(codec, log, |log|);
    }
  }

  lemma {:induction false} BlanksLeaveNothing(codec: Codec, es: seq<Entry>)
    requires forall p :: 0 <= p < |es| ==> es[p].payload.Blank?
    ensures Replay(codec, Empty, es) == Empty
  {
    if es != [] {
      BlanksLeaveNothing(codec, es[..|es| - 1]);
    }
  }
}
