/** The `keep` greatest keys of a set, and why keeping them incrementally loses nothing. */
module TopKeep {
  import opened Names

  ghost function Above(w: set<Key>, k: Key): set<Key> {
    set x | x in w && k.Less(x)
  }

  /** The keys with fewer than `keep` keys above them. */
  ghost function Top(keep: nat, w: set<Key>): set<Key> {
    set k | k in w && |Above(w, k)| < keep
  }

  lemma SubsetSize<T>(a: set<T>, b: set<T>)
    requires a <= b
    ensures |a| <= |b|
  {
    assert b == a + (b - a);
  }

  /** The more keys were written, the more stand above any one of them. */
  lemma AboveGrows(w: set<Key>, v: set<Key>, k: Key)
    requires w <= v
    ensures Above(w, k) <= Above(v, k)
    ensures |Above(w, k)| <= |Above(v, k)|
  {
    SubsetSize(Above(w, k), Above(v, k));
  }

  lemma {:induction false} Least(w: set<Key>) returns (m: Key)
    requires w != {}
    ensures m in w && forall x :: x in w && x != m ==> m.Less(x)
    decreases w
  {
    m :| m in w;
    var rest := w - {m};
    assert forall x :: x in w ==> x == m || x in rest;
    if rest != {} {
      var l := Least(rest);
      if l.Less(m) {
        m := l;
      }
    }
  }

  lemma Greatest(w: set<Key>) returns (m: Key)
    requires w != {}
    ensures m in w && forall x :: x in w && x != m ==> x.Less(m)
    decreases w
  {
    m :| m in w;
    var rest := w - {m};
    assert forall x :: x in w ==> x == m || x in rest;
    if rest != {} {
      var l := Greatest(rest);
      if m.Less(l) {
        m := l;
      }
    }
  }

  /** `Top` really is `keep` keys, or all of them when there are fewer. */
  lemma {:induction false} TopSize(keep: nat, w: set<Key>)
    ensures |Top(keep, w)| == if |w| <= keep then |w| else keep
    decreases w
  {
    if w == {} {
      assert Top(keep, w) == {};
    } else {
      var m := Least(w);
      var rest := w - {m};
      TopSize(keep, rest);
      assert Above(w, m) == rest;
      forall k | k in rest
        ensures Above(rest, k) == Above(w, k)
      {
      }
      assert Top(keep, w) == if |rest| < keep then Top(keep, rest) + {m} else Top(keep, rest);
    }
  }

  /** Every kept key is greater than every dropped one. */
  lemma TopIsGreatest(keep: nat, w: set<Key>, a: Key, b: Key)
    requires a in Top(keep, w) && b in w - Top(keep, w)
    ensures b.Less(a)
  {
    if a.Less(b) {
      SubsetSize(Above(w, b), Above(w, a));
    }
  }

  /** Among the keys above `k`, the kept ones number `keep`, or all when there are fewer. */
  lemma KeptAbove(keep: nat, w: set<Key>, k: Key)
    ensures |Above(Top(keep, w), k)| == if |Above(w, k)| <= keep then |Above(w, k)| else keep
  {
    var up := Above(w, k);
    TopSize(keep, up);
    forall x | x in up
      ensures Above(up, x) == Above(w, x)
    {
    }
    assert Above(Top(keep, w), k) == Top(keep, up);
  }

  lemma AboveWith(w: set<Key>, x: Key, k: Key)
    ensures Above(w + {x}, k) == Above(w, k) + (if k.Less(x) then {x} else {})
  {
  }

  /** Whether `k` has `keep` keys above it shows already among the kept ones. */
  lemma SameRank(keep: nat, w: set<Key>, x: Key, k: Key)
    ensures |Above(Top(keep, w) + {x}, k)| < keep <==> |Above(w + {x}, k)| < keep
  {
    var t := Top(keep, w);
    KeptAbove(keep, w, k);
    AboveWith(w, x, k);
    AboveWith(t, x, k);
    AboveGrows(t + {x}, w + {x}, k);
    AboveGrows(t, t + {x}, k);
  }

  /** Pruning after each write keeps what pruning once at the end would have kept. */
  lemma TopIsIncremental(keep: nat, w: set<Key>, x: Key)
    ensures Top(keep, Top(keep, w) + {x}) == Top(keep, w + {x})
  {
    forall k | k in w + {x}
      ensures k in Top(keep, Top(keep, w) + {x}) <==> k in Top(keep, w + {x})
    {
      SameRank(keep, w, x, k);
      AboveGrows(w, w + {x}, k);
    }
  }

  // ----- what a run of writes retains -----

  ghost function KeySet(ks: seq<Key>): set<Key> {
    set k | k in ks
  }

  /** In a strictly ascending list, an element has above it exactly those after it. */
  lemma {:induction false} RankInSorted(ks: seq<Key>, i: nat)
    requires i < |ks|
    requires forall a, b :: 0 <= a < b < |ks| ==> ks[a].Less(ks[b])
    ensures |Above(KeySet(ks), ks[i])| == |ks| - 1 - i
    decreases |ks|
  {
    if i == 0 {
      DistinctSize(ks[1..]);
      assert ks == [ks[0]] + ks[1..];
      assert Above(KeySet(ks), ks[0]) == KeySet(ks[1..]);
    } else {
      RankInSorted(ks[1..], i - 1);
      assert ks == [ks[0]] + ks[1..];
      assert Above(KeySet(ks), ks[i]) == Above(KeySet(ks[1..]), ks[i]);
    }
  }

  lemma {:induction false} DistinctSize(ks: seq<Key>)
    requires forall a, b :: 0 <= a < b < |ks| ==> ks[a] != ks[b]
    ensures |KeySet(ks)| == |ks|
  {
    if ks != [] {
      DistinctSize(ks[1..]);
      assert KeySet(ks) == {ks[0]} + KeySet(ks[1..]);
    }
  }
}
