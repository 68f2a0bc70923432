/**
  The deduplicating counter state machine (crates/multiraft-fsm/src/counter_fsm.rs) and the
  laws the rest of the system leans on: replay absorption and exactly-once counting.
 */
module Counter {
  import opened Types

  datatype Cmd = Cmd(idem: U64, delta: I64)

  /** What a snapshot file holds: the value and the seen keys in some order. */
  datatype Snap = Snap(value: I64, seen: seq<U64>)

  /** serde_json, known only by its round trips; an encoded command opens with a brace, the trigger does not. */
  datatype Codec = Codec(
    decodeCmd: Bytes -> Option<Cmd>,
    encodeCmd: Cmd -> Bytes,
    decodeSnap: Bytes -> Option<Snap>,
    encodeSnap: Snap -> Bytes)
  {
    ghost predicate Lawful() {
      && (forall c :: decodeCmd(encodeCmd(c)) == Some(c))
      && (forall s :: decodeSnap(encodeSnap(s)) == Some(s))
      && (forall c :: encodeCmd(c) != STANDBY_SNAPSHOT_TRIGGER)
    }
  }

  /** The two's complement wrap-around of 64-bit addition in a release build. */
  function Wrap(x: int): I64 {
    (x + 0x8000_0000_0000_0000) % 0x1_0000_0000_0000_0000 - 0x8000_0000_0000_0000
  }

  /** What fits in 64 bits stays as it is. */
  lemma WrapFits(x: I64)
    ensures Wrap(x) == x
  {
  }

  /** And anything else differs from it by a multiple of 2^64, so it is the two's complement word. */
  lemma WrapIsCongruent(x: int)
    ensures (x - Wrap(x)) % 0x1_0000_0000_0000_0000 == 0
  {
    var q := (x + 0x8000_0000_0000_0000) / 0x1_0000_0000_0000_0000;
    assert x - Wrap(x) == q * 0x1_0000_0000_0000_0000;
  }

  lemma WrapAdd(a: int, b: int)
    ensures Wrap(Wrap(a) + b) == Wrap(a + b)
  {
    var q := (a + 0x8000_0000_0000_0000) / 0x1_0000_0000_0000_0000;
    assert Wrap(a) + b == a + b - q * 0x1_0000_0000_0000_0000;
  }

  // ----- one group's state -----

  datatype GroupState = GroupState(value: I64, seen: set<U64>)

  const Empty := GroupState(0, {})

  function Step(s: GroupState, c: Cmd): GroupState {
    if c.idem in s.seen then s
    else GroupState(Wrap(s.value + c.delta), s.seen + {c.idem})
  }

  /** The command an entry carries; blanks, memberships, triggers and undecodable bytes carry none. */
  function CmdOf(codec: Codec, e: Entry): Option<Cmd> {
    if e.payload.Normal? && !IsTrigger(e) then codec.decodeCmd(e.payload.data) else None
  }

  function Effect(codec: Codec, s: GroupState, e: Entry): GroupState {
    match CmdOf(codec, e)
    case None => s
    case Some(c) => Step(s, c)
  }

  function Replay(codec: Codec, s: GroupState, es: seq<Entry>): GroupState {
    if es == [] then s
    else Effect(codec, Replay(codec, s, es[..|es| - 1]), es[|es| - 1])
  }

  /** The state a replica must be in after exactly the first `n` committed entries. */
  function StateAt(codec: Codec, log: seq<Entry>, n: nat): GroupState
    requires n <= |log|
  {
    Replay(codec, Empty, log[..n])
  }

  lemma {:induction false} ReplayConcat(codec: Codec, s: GroupState, a: seq<Entry>, b: seq<Entry>)
    ensures Replay(codec, s, a + b) == Replay(codec, Replay(codec, s, a), b)
  {
    if b == [] {
      assert a + b == a;
    } else {
      var m := |b| - 1;
      ReplayConcat(codec, s, a, b[..m]);
      assert (a + b)[..|a + b| - 1] == a + b[..m];
    }
  }

  lemma {:induction false} SeenGrows(codec: Codec, s: GroupState, es: seq<Entry>)
    ensures s.seen <= Replay(codec, s, es).seen
    ensures forall i :: 0 <= i < |es| && CmdOf(codec, es[i]).Some? ==>
              CmdOf(codec, es[i]).value.idem in Replay(codec, s, es).seen
  {
    if es != [] {
      SeenGrows(codec, s, es[..|es| - 1]);
    }
  }

  /** Entries whose keys were all seen before change nothing. */
  lemma {:induction false} SeenEntriesAreIgnored(codec: Codec, s: GroupState, es: seq<Entry>)
    requires forall i :: 0 <= i < |es| && CmdOf(codec, es[i]).Some? ==>
               CmdOf(codec, es[i]).value.idem in s.seen
    ensures Replay(codec, s, es) == s
  {
    if es != [] {
      SeenEntriesAreIgnored(codec, s, es[..|es| - 1]);
    }
  }

  /** Entries that lie inside the prefix a state already holds change nothing. */
  lemma {:induction false} HeldEntriesAreIgnored(codec: Codec, log: seq<Entry>, i: nat, m: nat, j: nat)
    requires i <= m <= j <= |log|
    ensures Replay(codec, StateAt(codec, log, j), log[i..m]) == StateAt(codec, log, j)
  {
    var s, again := StateAt(codec, log, j), log[i..m];
    SeenGrows(codec, Empty, log[..j]);
    forall p | 0 <= p < |again| && CmdOf(codec, again[p]).Some?
      ensures CmdOf(codec, again[p]).value.idem in s.seen
    {
      assert again[p] == log[..j][i + p];
    }
    SeenEntriesAreIgnored(codec, s, again);
  }

  lemma {:induction false} StateAtExtends(codec: Codec, log: seq<Entry>, j: nat, n: nat)
    requires j <= n <= |log|
    ensures Replay(codec, StateAt(codec, log, j), log[j..n]) == StateAt(codec, log, n)
  {
    assert log[..n] == log[..j] + log[j..n];
    ReplayConcat(codec, Empty, log[..j], log[j..n]);
  }

  /**
    Replay absorption. A state that already holds the first `j` entries, given entries
    `i..n` again from any earlier point `i`, ends where the longer of the two prefixes ends.
   */
  lemma {:induction false} ReplayAbsorbs(codec: Codec, log: seq<Entry>, i: nat, j: nat, n: nat)
    requires i <= j <= |log| && i <= n <= |log|
    ensures Replay(codec, StateAt(codec, log, j), log[i..n])
         == StateAt(codec, log, if j <= n then n else j)
  {
    if n < j {
      HeldEntriesAreIgnored(codec, log, i, n, j);
    } else {
      HeldEntriesAreIgnored(codec, log, i, j, j);
      assert log[i..n] == log[i..j] + log[j..n];
      ReplayConcat(codec, StateAt(codec, log, j), log[i..j], log[j..n]);
      StateAtExtends(codec, log, j, n);
    }
  }

  lemma StateAtPrefix(codec: Codec, log: seq<Entry>, more: seq<Entry>, n: nat)
    requires n <= |log|
    ensures StateAt(codec, log + more, n) == StateAt(codec, log, n)
  {
    assert (log + more)[..n] == log[..n];
  }

  // ----- exactly once -----

  function Run(s: GroupState, cs: seq<Cmd>): GroupState {
    if cs == [] then s else Step(Run(s, cs[..|cs| - 1]), cs[|cs| - 1])
  }

  /** The commands of a stretch of log, in order. */
  function Cmds(codec: Codec, es: seq<Entry>): seq<Cmd> {
    if es == [] then []
    else
      var rest := Cmds(codec, es[..|es| - 1]);
      match CmdOf(codec, es[|es| - 1])
      case None => rest
      case Some(c) => rest + [c]
  }

  lemma {:induction false} ReplayRunsCmds(codec: Codec, s: GroupState, es: seq<Entry>)
    ensures Replay(codec, s, es) == Run(s, Cmds(codec, es))
  {
    if es != [] {
      ReplayRunsCmds(codec, s, es[..|es| - 1]);
      var rest := Cmds(codec, es[..|es| - 1]);
      match CmdOf(codec, es[|es| - 1]) {
        case None =>
        case Some(c) => assert (rest + [c])[..|rest + [c]| - 1] == rest;
      }
    }
  }

  ghost predicate IsFirst(cs: seq<Cmd>, i: nat)
    requires i < |cs|
  {
    forall j :: 0 <= j < i ==> cs[j].idem != cs[i].idem
  }

  /** The sum, over positions, of the deltas that are the first of their key. */
  ghost function FirstDeltas(cs: seq<Cmd>, n: nat): int
    requires n <= |cs|
  {
    if n == 0 then 0
    else FirstDeltas(cs, n - 1) + if IsFirst(cs, n - 1) then cs[n - 1].delta else 0
  }

  ghost function Keys(cs: seq<Cmd>): set<U64> {
    set i | 0 <= i < |cs| :: cs[i].idem
  }

  lemma {:induction false} RunCountsFirsts(cs: seq<Cmd>, n: nat)
    requires n <= |cs|
    ensures Run(Empty, cs[..n]) == GroupState(Wrap(FirstDeltas(cs, n)), Keys(cs[..n]))
  {
    if n == 0 {
      assert cs[..0] == [];
    } else {
      RunCountsFirsts(cs, n - 1);
      assert cs[..n][..n - 1] == cs[..n - 1];
      var c := cs[n - 1];
      assert IsFirst(cs, n - 1) <==> c.idem !in Keys(cs[..n - 1]) by {
        assert forall j :: 0 <= j < n - 1 ==> cs[j] == cs[..n - 1][j];
      }
      WrapAdd(FirstDeltas(cs, n - 1), c.delta);
      assert cs[..n] == cs[..n - 1] + [c];
      KeysExtend(cs[..n - 1], c);
    }
  }

  /**
    Exactly once. Whatever duplicates the committed log holds, the counter is the wrapped sum
    of the first delta of each distinct key, and the seen set is the set of keys.
   */
  lemma CounterIsSumOfFirstDeltas(codec: Codec, log: seq<Entry>)
    ensures var cs := Cmds(codec, log);
            Replay(codec, Empty, log) == GroupState(Wrap(FirstDeltas(cs, |cs|)), Keys(cs))
  {
    var cs := Cmds(codec, log);
    ReplayRunsCmds(codec, Empty, log);
    RunCountsFirsts(cs, |cs|);
    assert cs[..|cs|] == cs;
  }

  /** As long as that sum fits in 64 bits, the counter is the plain sum, positive or negative. */
  lemma CounterIsPlainSum(codec: Codec, log: seq<Entry>)
    requires var cs := Cmds(codec, log);
             -0x8000_0000_0000_0000 <= FirstDeltas(cs, |cs|) < 0x8000_0000_0000_0000
    ensures var cs := Cmds(codec, log); Replay(codec, Empty, log).value == FirstDeltas(cs, |cs|)
  {
    var cs := Cmds(codec, log);
    CounterIsSumOfFirstDeltas(codec, log);
    WrapFits(FirstDeltas(cs, |cs|));
  }

  /** The log's commands with every use of one key struck out. */
  function Without(cs: seq<Cmd>, key: U64): seq<Cmd> {
    if cs == [] then []
    else
      var rest := Without(cs[..|cs| - 1], key);
      if cs[|cs| - 1].idem == key then rest else rest + [cs[|cs| - 1]]
  }

  lemma KeysExtend(before: seq<Cmd>, c: Cmd)
    ensures Keys(before + [c]) == Keys(before) + {c.idem}
  {
    var cs := before + [c];
    assert cs[|before|].idem in Keys(cs);
    forall x | x in Keys(before) ensures x in Keys(cs) {
      var i :| 0 <= i < |before| && before[i].idem == x;
      assert cs[i].idem == x;
    }
  }

  lemma RunExtend(s: GroupState, before: seq<Cmd>, c: Cmd)
    ensures Run(s, before + [c]) == Step(Run(s, before), c)
  {
    assert (before + [c])[..|before + [c]| - 1] == before;
  }

  lemma WrapSwap(a: int, d: int, e: int)
    ensures Wrap(Wrap(a + d) + e) == Wrap(Wrap(a + e) + d)
  {
    WrapAdd(a + d, e);
    WrapAdd(a + e, d);
  }

  /** One more command keeps the two runs apart by the key's single contribution. */
  ghost predicate ApartBy(s: GroupState, t: GroupState, key: U64, delta: I64, used: bool) {
    && key !in t.seen
    && s.seen == t.seen + (if used then {key} else {})
    && s.value == if used then Wrap(t.value + delta) else t.value
  }

  lemma StepKeepsApart(s: GroupState, t: GroupState, key: U64, delta: I64, used: bool, c: Cmd)
    requires ApartBy(s, t, key, delta, used)
    requires c.idem == key ==> c.delta == delta
    ensures c.idem != key ==> ApartBy(Step(s, c), Step(t, c), key, delta, used)
    ensures c.idem == key ==> ApartBy(Step(s, c), t, key, delta, true)
  {
    WrapSwap(t.value, delta, c.delta);
    assert s.seen + {c.idem} == t.seen + {c.idem} + (if used then {key} else {});
  }

  lemma {:induction false} WithoutRuns(cs: seq<Cmd>, key: U64, delta: I64)
    requires forall i :: 0 <= i < |cs| && cs[i].idem == key ==> cs[i].delta == delta
    ensures ApartBy(Run(Empty, cs), Run(Empty, Without(cs, key)), key, delta, key in Keys(cs))
  {
    if cs != [] {
      var c, before := cs[|cs| - 1], cs[..|cs| - 1];
      var rest := Without(before, key);
      WithoutRuns(before, key, delta);
      assert cs == before + [c];
      KeysExtend(before, c);
      RunExtend(Empty, before, c);
      RunExtend(Empty, rest, c);
      StepKeepsApart(Run(Empty, before), Run(Empty, rest), key, delta, key in Keys(before), c);
    }
  }

  /**
    A key whose uses all carry the same delta counts once however often it was proposed and
    committed, and not at all if it never was.
   */
  lemma RetriesCountOnce(codec: Codec, log: seq<Entry>, key: U64, delta: I64)
    requires forall c :: c in Cmds(codec, log) && c.idem == key ==> c.delta == delta
    ensures var cs := Cmds(codec, log);
            var others := Run(Empty, Without(cs, key));
            && key !in others.seen
            && Replay(codec, Empty, log).value
               == if key in Keys(cs) then Wrap(others.value + delta) else others.value
  {
    ReplayRunsCmds(codec, Empty, log);
    WithoutRuns(Cmds(codec, log), key, delta);
  }

  // ----- the store over all groups -----

  datatype Fsm = Fsm(values: map<GroupId, I64>, seen: map<GroupId, set<U64>>) {
    function View(g: GroupId): GroupState {
      GroupState(if g in values then values[g] else 0, if g in seen then seen[g] else {})
    }
  }

  const NewFsm := Fsm(map[], map[])

  ghost predicate SameElsewhere(a: Fsm, b: Fsm, g: GroupId) {
    forall h :: h != g ==> a.View(h) == b.View(h)
  }

  function FsmStep(f: Fsm, g: GroupId, c: Cmd): Fsm {
    var s := f.View(g).seen;
    if c.idem in s then f
    else Fsm(f.values[g := Wrap(f.View(g).value + c.delta)], f.seen[g := s + {c.idem}])
  }

  function FsmEffect(codec: Codec, f: Fsm, g: GroupId, e: Entry): Fsm {
    match CmdOf(codec, e)
    case None => f
    case Some(c) => FsmStep(f, g, c)
  }

  function FsmReplay(codec: Codec, f: Fsm, g: GroupId, es: seq<Entry>): Fsm {
    if es == [] then f
    else FsmEffect(codec, FsmReplay(codec, f, g, es[..|es| - 1]), g, es[|es| - 1])
  }

  /** Replaying into one group is the group replay there and nothing anywhere else. */
  lemma {:induction false} FsmReplayIsLocal(codec: Codec, f: Fsm, g: GroupId, es: seq<Entry>)
    ensures FsmReplay(codec, f, g, es).View(g) == Replay(codec, f.View(g), es)
    ensures SameElsewhere(FsmReplay(codec, f, g, es), f, g)
  {
    if es != [] {
      FsmReplayIsLocal(codec, f, g, es[..|es| - 1]);
    }
  }

  ghost function ToSet(xs: seq<U64>): set<U64> {
    set x | x in xs
  }

  /** The bytes hold exactly this group state. */
  ghost predicate Holds(codec: Codec, data: Bytes, s: GroupState) {
    && codec.decodeSnap(data).Some?
    && codec.decodeSnap(data).value.value == s.value
    && ToSet(codec.decodeSnap(data).value.seen) == s.seen
  }

  ghost function Restored(f: Fsm, g: GroupId, snap: Snap): Fsm {
    Fsm(f.values[g := snap.value], f.seen[g := ToSet(snap.seen)])
  }

  /** Restoring bytes that hold a state puts the group in that state and moves no other group. */
  lemma RestoreRecovers(codec: Codec, f: Fsm, g: GroupId, data: Bytes, s: GroupState)
    requires Holds(codec, data, s)
    ensures var r := Restored(f, g, codec.decodeSnap(data).value);
            r.View(g) == s && SameElsewhere(r, f, g)
  {
  }

  class CounterFsm {
    var values: map<GroupId, I64>
    var seen: map<GroupId, set<U64>>

    ghost function State(): Fsm
      reads this
    {
      Fsm(values, seen)
    }

    constructor ()
      ensures State() == NewFsm
    {
      values, seen := map[], map[];
    }

    function Value(g: GroupId): (v: I64)
      reads this
      ensures v == State().View(g).value
    {
      if g in values then values[g] else 0
    }

    /** A store that replayed a log into one group answers with that log's sum, and zero elsewhere. */
    lemma ValueCountsEachKeyOnce(codec: Codec, g: GroupId, log: seq<Entry>)
      requires State() == FsmReplay(codec, NewFsm, g, log)
      ensures var cs := Cmds(codec, log); Value(g) == Wrap(FirstDeltas(cs, |cs|))
      ensures forall h :: h != g ==> Value(h) == 0
    {
      FsmReplayIsLocal(codec, NewFsm, g, log);
      CounterIsSumOfFirstDeltas(codec, log);
      assert forall h :: h != g ==> State().View(h) == NewFsm.View(h);
    }

    lemma ValueIsPlainSum(codec: Codec, g: GroupId, log: seq<Entry>)
      requires State() == FsmReplay(codec, NewFsm, g, log)
      requires var cs := Cmds(codec, log);
               -0x8000_0000_0000_0000 <= FirstDeltas(cs, |cs|) < 0x8000_0000_0000_0000
      ensures var cs := Cmds(codec, log); Value(g) == FirstDeltas(cs, |cs|)
    {
      FsmReplayIsLocal(codec, NewFsm, g, log);
      CounterIsPlainSum(codec, log);
    }

    /**
      Err on undecodable bytes, with nothing changed; otherwise one deduplicated step: a new key is
      remembered and its delta added, by plain addition where the sum fits; a known key does nothing.
     */
    method Apply(codec: Codec, g: GroupId, data: Bytes) returns (r: Result<(), string>)
      modifies this
      ensures r.Ok? <==> codec.decodeCmd(data).Some?
      ensures r.Err? ==> State() == old(State())
      ensures r.Ok? ==> State() == FsmStep(old(State()), g, codec.decodeCmd(data).value)
      ensures r.Ok? ==>
                var c, was := codec.decodeCmd(data).value, old(State()).View(g);
                var now := State().View(g);
                && now.seen == was.seen + {c.idem}
                && (c.idem in was.seen ==> now.value == was.value)
                && (c.idem !in was.seen && -0x8000_0000_0000_0000 <= was.value + c.delta < 0x8000_0000_0000_0000 ==>
                      now.value == was.value + c.delta)
      ensures forall h :: h != g ==> State().View(h) == old(State()).View(h)
    {
      var cmd := codec.decodeCmd(data);
      if cmd.None? {
        return Err("decode");
      }
      if g !in seen {
        seen := seen[g := {}];
      }
      if cmd.value.idem !in seen[g] {
        seen := seen[g := seen[g] + {cmd.value.idem}];
        values := values[g := Wrap((if g in values then values[g] else 0) + cmd.value.delta)];
      }
      r := Ok(());
    }

    /** The seen set is written out in whatever order its iterator yields. */
    method Snapshot(codec: Codec, g: GroupId) returns (data: Bytes)
      requires codec.Lawful()
      ensures Holds(codec, data, State().View(g))
    {
      var left := if g in seen then seen[g] else {};
      ghost var all := left;
      var order: seq<U64> := [];
      while left != {}
        invariant ToSet(order) + left == all
        decreases left
      {
        var x :| x in left;
        left := left - {x};
        order := order + [x];
      }
      data := codec.encodeSnap(Snap(Value(g), order));
    }

    /** Err on undecodable bytes, with nothing changed; otherwise the group becomes what they hold. */
    method Restore(codec: Codec, g: GroupId, data: Bytes) returns (r: Result<(), string>)
      modifies this
      ensures r.Ok? <==> codec.decodeSnap(data).Some?
      ensures r.Err? ==> State() == old(State())
      ensures r.Ok? ==> State() == Restored(old(State()), g, codec.decodeSnap(data).value)
    {
      var snap := codec.decodeSnap(data);
      if snap.None? {
        return Err("decode");
      }
      values := values[g := snap.value.value];
      var keys: set<U64> := {};
      for i := 0 to |snap.value.seen|
        invariant keys == ToSet(snap.value.seen[..i])
        invariant seen == old(seen) && values == old(values)[g := snap.value.value]
      {
        keys := keys + {snap.value.seen[i]};
      }
      assert snap.value.seen[..|snap.value.seen|] == snap.value.seen;
      seen := seen[g := keys];
      r := Ok(());
    }
  }
}
