/**
  One node's increments over two process lifetimes, among everyone else's
  (crates/multiraft-demo/src/main.rs, next_idem): the key counter starts again.
 */
module Lifetimes {
  import opened Types
  import opened Counter
  import opened Idempotency

  /** A command in the log during one lifetime: the node's next increment, or someone else's. */
  datatype Turn = Mine(delta: I64) | Other(cmd: Cmd)

  function Deltas(ts: seq<Turn>): seq<I64> {
    if ts == [] then []
    else
      var t := ts[|ts| - 1];
      Deltas(ts[..|ts| - 1]) + if t.Mine? then [t.delta] else []
  }

  function Others(ts: seq<Turn>): seq<Cmd> {
    if ts == [] then []
    else
      var t := ts[|ts| - 1];
      Others(ts[..|ts| - 1]) + if t.Other? then [t.cmd] else []
  }

  /** The log's commands, the node's k-th increment carrying the k-th key. */
  function Merged(keys: seq<U64>, ts: seq<Turn>): seq<Cmd>
    requires |Deltas(ts)| <= |keys|
  {
    if ts == [] then []
    else
      var before, t := ts[..|ts| - 1], ts[|ts| - 1];
      Merged(keys, before) + [if t.Mine? then Cmd(keys[|Deltas(before)|], t.delta) else t.cmd]
  }

  /** The first `n` keys a node makes in a lifetime. */
  function NodeKeys(node: U64, n: nat): seq<U64> {
    seq(n, i requires 0 <= i < n => IdemKey(node, i))
  }

  ghost predicate Distinct(keys: seq<U64>) {
    forall i, j :: 0 <= i < j < |keys| ==> keys[i] != keys[j]
  }

  lemma NodeKeysDiffer(node: U64, i: nat, j: nat)
    requires i < j < 0x1_0000_0000
    ensures IdemKey(node, i) != IdemKey(node, j)
  {
    KeysCollideExactly(node, i, node, j);
  }

  lemma NodeKeysAreDistinct(node: U64, n: nat)
    requires n <= 0x1_0000_0000
    ensures Distinct(NodeKeys(node, n))
  {
    var keys := NodeKeys(node, n);
    forall i, j | 0 <= i < j < |keys| ensures keys[i] != keys[j] {
      NodeKeysDiffer(node, i, j);
    }
  }

  /** One process lifetime really makes these commands. */
  method Lifetime(node: U64, ts: seq<Turn>, ghost n: nat) returns (cs: seq<Cmd>)
    requires |Deltas(ts)| <= n
    ensures cs == Merged(NodeKeys(node, n), ts)
  {
    var source := new KeySource(node);
    cs := [];
    for i := 0 to |ts|
      invariant source.Valid() && source.node == node && fresh(source)
      invariant source.calls == |Deltas(ts[..i])| && |Deltas(ts[..i])| <= n
      invariant cs == Merged(NodeKeys(node, n), ts[..i])
    {
      DeltasGrow(ts, i + 1);
      assert ts[..i + 1][..i] == ts[..i];
      match ts[i] {
        case Mine(d) =>
          var k := source.NextIdem();
          cs := cs + [Cmd(k, d)];
        case Other(c) => cs := cs + [c];
      }
    }
    assert ts[..|ts|] == ts;
  }

  lemma {:induction false} DeltasGrow(ts: seq<Turn>, i: nat)
    requires i <= |ts|
    ensures |Deltas(ts[..i])| <= |Deltas(ts)|
    decreases |ts|
  {
    if i < |ts| {
      DeltasGrow(ts[..|ts| - 1], i);
      assert ts[..|ts| - 1][..i] == ts[..i];
    } else {
      assert ts[..i] == ts;
    }
  }

  // ----- counting -----

  /** A 64-bit value with these deltas added one after another. */
  ghost function Plus(v: I64, ds: seq<I64>): I64 {
    if ds == [] then v else Wrap(Plus(v, ds[..|ds| - 1]) + ds[|ds| - 1])
  }

  lemma PlusOne(v: I64, ds: seq<I64>, d: I64)
    ensures Plus(v, ds + [d]) == Wrap(Plus(v, ds) + d)
  {
    assert (ds + [d])[..|ds + [d]| - 1] == ds;
  }

  ghost function Sum(ds: seq<I64>): int {
    if ds == [] then 0 else Sum(ds[..|ds| - 1]) + ds[|ds| - 1]
  }

  /** Where the total fits in 64 bits this is plain addition. */
  lemma {:induction false} PlusIsSum(v: I64, ds: seq<I64>)
    ensures Plus(v, ds) == Wrap(v + Sum(ds))
    ensures -0x8000_0000_0000_0000 <= v + Sum(ds) < 0x8000_0000_0000_0000 ==> Plus(v, ds) == v + Sum(ds)
  {
    if ds == [] {
      WrapFits(v);
    } else {
      PlusIsSum(v, ds[..|ds| - 1]);
      WrapAdd(v + Sum(ds[..|ds| - 1]), ds[|ds| - 1]);
    }
  }

  /** It does not matter when someone else's delta is added. */
  lemma {:induction false} PlusSwaps(v: I64, ds: seq<I64>, d: I64)
    ensures Plus(Wrap(v + d), ds) == Wrap(Plus(v, ds) + d)
  {
    if ds != [] {
      PlusSwaps(v, ds[..|ds| - 1], d);
      WrapSwap(Plus(v, ds[..|ds| - 1]), d, ds[|ds| - 1]);
    }
  }

  function Min(a: nat, b: nat): nat {
    if a <= b then a else b
  }

  function Max(a: nat, b: nat): nat {
    if a <= b then b else a
  }

  ghost predicate Foreign(keys: seq<U64>, cs: seq<Cmd>) {
    forall c :: c in cs ==> c.idem !in keys
  }

  /** `r` is `q` plus what the first `a` keys brought in: these deltas. */
  ghost predicate Ahead(r: GroupState, q: GroupState, keys: seq<U64>, a: nat, ds: seq<I64>) {
    && (forall i :: 0 <= i < |keys| ==> (keys[i] in r.seen <==> i < a))
    && (forall x :: x !in keys ==> (x in r.seen <==> x in q.seen))
    && r.value == Plus(q.value, ds)
  }

  lemma OtherStep(r: GroupState, q: GroupState, keys: seq<U64>, a: nat, ds: seq<I64>, c: Cmd)
    requires Ahead(r, q, keys, a, ds) && c.idem !in keys
    ensures Ahead(Step(r, c), Step(q, c), keys, a, ds)
  {
    PlusSwaps(q.value, ds, c.delta);
  }

  lemma MineStep(r: GroupState, q: GroupState, keys: seq<U64>, a: nat, ds: seq<I64>, n: nat, d: I64)
    requires Distinct(keys) && n < |keys| && Ahead(r, q, keys, a, ds)
    ensures n < a ==> Ahead(Step(r, Cmd(keys[n], d)), q, keys, a, ds)
    ensures n == a ==> Ahead(Step(r, Cmd(keys[n], d)), q, keys, n + 1, ds + [d])
  {
    PlusOne(q.value, ds, d);
  }

  /** Where a lifetime of these turns leads that finds its first `a` keys used. */
  ghost predicate Counted(r: GroupState, q: GroupState, keys: seq<U64>, a: nat, ds: seq<I64>, ts: seq<Turn>)
    requires |Deltas(ts)| <= |keys|
  {
    var mine := Deltas(ts);
    Ahead(Run(r, Merged(keys, ts)), Run(q, Others(ts)), keys, Max(a, |mine|), ds + mine[Min(a, |mine|)..])
  }

  lemma OtherCounted(r: GroupState, q: GroupState, keys: seq<U64>, a: nat, ds: seq<I64>, ts: seq<Turn>, c: Cmd)
    requires |Deltas(ts)| <= |keys| && Counted(r, q, keys, a, ds, ts) && c.idem !in keys
    ensures Deltas(ts + [Other(c)]) == Deltas(ts) && Counted(r, q, keys, a, ds, ts + [Other(c)])
  {
    var ts', mine := ts + [Other(c)], Deltas(ts);
    assert ts'[..|ts'| - 1] == ts;
    OtherStep(Run(r, Merged(keys, ts)), Run(q, Others(ts)), keys, Max(a, |mine|), ds + mine[Min(a, |mine|)..], c);
    RunExtend(r, Merged(keys, ts), c);
    RunExtend(q, Others(ts), c);
  }

  /** One more increment of one's own, in each list it belongs to. */
  lemma MineExtends(keys: seq<U64>, ts: seq<Turn>, d: I64)
    requires |Deltas(ts)| < |keys|
    ensures var ts' := ts + [Mine(d)];
            && Deltas(ts') == Deltas(ts) + [d] && Others(ts') == Others(ts)
            && Merged(keys, ts') == Merged(keys, ts) + [Cmd(keys[|Deltas(ts)|], d)]
  {
    var ts' := ts + [Mine(d)];
    assert ts'[..|ts'| - 1] == ts;
  }

  lemma TailExtends(ds: seq<I64>, mine: seq<I64>, a: nat, d: I64)
    ensures var n := |mine|;
            ds + (mine + [d])[Min(a, n + 1)..] == if n < a then ds + mine[Min(a, n)..] else ds + mine[Min(a, n)..] + [d]
  {
  }

  lemma MineCounted(r: GroupState, q: GroupState, keys: seq<U64>, a: nat, ds: seq<I64>, ts: seq<Turn>, d: I64)
    requires Distinct(keys) && |Deltas(ts)| < |keys| && Counted(r, q, keys, a, ds, ts)
    ensures Deltas(ts + [Mine(d)]) == Deltas(ts) + [d] && Counted(r, q, keys, a, ds, ts + [Mine(d)])
  {
    var mine := Deltas(ts);
    var n, ds1 := |mine|, ds + mine[Min(a, |mine|)..];
    MineExtends(keys, ts, d);
    RunExtend(r, Merged(keys, ts), Cmd(keys[n], d));
    TailExtends(ds, mine, a, d);
    MineStep(Run(r, Merged(keys, ts)), Run(q, Others(ts)), keys, Max(a, n), ds1, n, d);
  }

  /** A lifetime that finds its first `a` keys used loses its first `a` increments and no other. */
  lemma {:induction false} TurnsCount(r: GroupState, q: GroupState, keys: seq<U64>, a: nat, ds: seq<I64>, ts: seq<Turn>)
    requires Distinct(keys) && Ahead(r, q, keys, a, ds) && |Deltas(ts)| <= |keys| && Foreign(keys, Others(ts))
    ensures Counted(r, q, keys, a, ds, ts)
  {
    if ts == [] {
      assert ds + Deltas(ts)[0..] == ds;
    } else {
      var before, t := ts[..|ts| - 1], ts[|ts| - 1];
      TurnsCount(r, q, keys, a, ds, before);
      assert ts == before + [t];
      match t {
        case Other(c) =>
          assert c in Others(ts);
          OtherCounted(r, q, keys, a, ds, before, c);
        case Mine(d) => MineCounted(r, q, keys, a, ds, before, d);
      }
    }
  }

  lemma {:induction false} RunConcat(s: GroupState, a: seq<Cmd>, b: seq<Cmd>)
    ensures Run(s, a + b) == Run(Run(s, a), b)
  {
    if b == [] {
      assert a + b == a;
    } else {
      RunConcat(s, a, b[..|b| - 1]);
      assert (a + b)[..|a + b| - 1] == a + b[..|b| - 1];
    }
  }

  /**
    The key counter restarts with the process. In a log that holds a node's increments of one
    lifetime and then of the next, with other clients' commands anywhere, every increment of the
    first lifetime counts, and of the second exactly as many are lost, from its first on, as the
    first lifetime made, or all of them.
   */
  lemma RestartLosesIncrements(codec: Codec, log: seq<Entry>, node: U64, n: nat, first: seq<Turn>, second: seq<Turn>)
    requires n <= 0x1_0000_0000 && |Deltas(first)| <= n && |Deltas(second)| <= n
    requires Foreign(NodeKeys(node, n), Others(first)) && Foreign(NodeKeys(node, n), Others(second))
    requires Cmds(codec, log) == Merged(NodeKeys(node, n), first) + Merged(NodeKeys(node, n), second)
    ensures var a, b := |Deltas(first)|, |Deltas(second)|;
            var others := Run(Empty, Others(first) + Others(second));
            Replay(codec, Empty, log).value == Plus(others.value, Deltas(first) + Deltas(second)[Min(a, b)..])
  {
    NodeKeysAreDistinct(node, n);
    ReplayRunsCmds(codec, Empty, log);
    TwoLifetimes(NodeKeys(node, n), first, second);
  }

  lemma TwoLifetimes(keys: seq<U64>, first: seq<Turn>, second: seq<Turn>)
    requires Distinct(keys) && |Deltas(first)| <= |keys| && |Deltas(second)| <= |keys|
    requires Foreign(keys, Others(first)) && Foreign(keys, Others(second))
    ensures var a, b := |Deltas(first)|, |Deltas(second)|;
            var others := Run(Empty, Others(first) + Others(second));
            Run(Empty, Merged(keys, first) + Merged(keys, second)).value
              == Plus(others.value, Deltas(first) + Deltas(second)[Min(a, b)..])
  {
    TurnsCount(Empty, Empty, keys, 0, [], first);
    assert [] + Deltas(first)[0..] == Deltas(first);
    var r, q := Run(Empty, Merged(keys, first)), Run(Empty, Others(first));
    TurnsCount(r, q, keys, |Deltas(first)|, Deltas(first), second);
    RunConcat(Empty, Merged(keys, first), Merged(keys, second));
    RunConcat(Empty, Others(first), Others(second));
  }
}
