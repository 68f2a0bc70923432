/** The demo's idempotency keys (crates/multiraft-demo/src/main.rs, next_idem). */
module Idempotency {
  import opened Types

  /**
    `node << 32 | (local & 0xffff_ffff)` on 64-bit words, where `local` is one more than the
    number of earlier calls: the shift drops the node's high half, and the two parts do not
    overlap, so the bitwise or is a sum.
   */
  function IdemKey(node: U64, earlier: nat): U64 {
    (node * 0x1_0000_0000) % 0x1_0000_0000_0000_0000 + ((earlier + 1) % 0x1_0000_0000_0000_0000) % 0x1_0000_0000
  }

  /** A shifted word and a masked one share no bit, so or-ing them adds them. */
  lemma OrOfHalvesIsSum(node: bv64, local: bv64)
    ensures (node << 32) | (local & 0xffff_ffff) == (node << 32) + (local & 0xffff_ffff)
  {
  }

  lemma WordStep(n: nat)
    ensures (n % 0x1_0000_0000_0000_0000 + 1) % 0x1_0000_0000_0000_0000 == (n + 1) % 0x1_0000_0000_0000_0000
  {
    var q := n / 0x1_0000_0000_0000_0000;
    assert n + 1 == q * 0x1_0000_0000_0000_0000 + (n % 0x1_0000_0000_0000_0000 + 1);
  }

  /** One process lifetime of key making; the counter is an atomic word that starts at one. */
  class KeySource {
    const node: U64
    var next: U64
    ghost var calls: nat

    ghost predicate Valid()
      reads this
    {
      next == (calls + 1) % 0x1_0000_0000_0000_0000
    }

    constructor (node: U64)
      ensures Valid() && this.node == node && calls == 0
    {
      this.node, next, calls := node, 1, 0;
    }

    method NextIdem() returns (k: U64)
      requires Valid()
      modifies this
      ensures Valid() && calls == old(calls) + 1
      ensures k == IdemKey(node, old(calls))
    {
      var local := next;
      WordStep(calls + 1);
      next := (next + 1) % 0x1_0000_0000_0000_0000;
      calls := calls + 1;
      k := (node * 0x1_0000_0000) % 0x1_0000_0000_0000_0000 + local % 0x1_0000_0000;
    }
  }

  lemma HighHalf(n: nat)
    ensures (n * 0x1_0000_0000) % 0x1_0000_0000_0000_0000 == (n % 0x1_0000_0000) * 0x1_0000_0000
  {
    var q := n / 0x1_0000_0000;
    assert n * 0x1_0000_0000 == q * 0x1_0000_0000_0000_0000 + (n % 0x1_0000_0000) * 0x1_0000_0000;
  }

  lemma LowHalf(n: nat)
    ensures (n % 0x1_0000_0000_0000_0000) % 0x1_0000_0000 == n % 0x1_0000_0000
  {
    var q := n / 0x1_0000_0000_0000_0000;
    assert n == q * 0x1_0000_0000 * 0x1_0000_0000 + n % 0x1_0000_0000_0000_0000;
  }

  /** The key's high half is the node's low 32 bits; its low half counts the calls from one. */
  lemma KeyHalves(node: U64, earlier: nat)
    ensures IdemKey(node, earlier) / 0x1_0000_0000 == node % 0x1_0000_0000
    ensures IdemKey(node, earlier) % 0x1_0000_0000 == (earlier + 1) % 0x1_0000_0000
  {
    HighHalf(node);
    LowHalf(earlier + 1);
  }

  /** Two keys collide exactly when node ids and call numbers agree in their low 32 bits. */
  lemma KeysCollideExactly(m: U64, i: nat, n: U64, j: nat)
    ensures IdemKey(m, i) == IdemKey(n, j) <==>
            m % 0x1_0000_0000 == n % 0x1_0000_0000 && (i + 1) % 0x1_0000_0000 == (j + 1) % 0x1_0000_0000
  {
    HighHalf(m);
    HighHalf(n);
    LowHalf(i + 1);
    LowHalf(j + 1);
  }

  /** One process lifetime of a node with a small id never repeats a key within 2^32 calls. */
  lemma KeysAreUnique(m: U64, i: nat, n: U64, j: nat)
    requires m < 0x1_0000_0000 && n < 0x1_0000_0000 && i < 0x1_0000_0000 && j < 0x1_0000_0000
    requires IdemKey(m, i) == IdemKey(n, j)
    ensures m == n && i == j
  {
    KeysCollideExactly(m, i, n, j);
  }
}
