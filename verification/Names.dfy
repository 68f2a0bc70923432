/** Decimal names: "{index}-{term}" identifies a snapshot, "{group}" a group's directory. */
module Names {
  import opened Types

  datatype Key = Key(index: nat, term: nat) {
    /** The catalog orders keys by index first. */
    predicate Less(k: Key) {
      index < k.index || (index == k.index && term < k.term)
    }
  }

  function KeyOf(id: LogId): Key {
    Key(id.index, id.term)
  }

  function LabelOf(k: Key): LogId {
    LogId(k.term, k.index)
  }

  function Digit(d: nat): char
    requires d < 10
  {
    '0' + (d as char)
  }

  function Decimal(n: nat): string {
    if n < 10 then [Digit(n)] else Decimal(n / 10) + [Digit(n % 10)]
  }

  function Name(k: Key): string {
    Decimal(k.index) + "-" + Decimal(k.term)
  }

  ghost function Parse(s: string): int {
    if s == [] then 0 else Parse(s[..|s| - 1]) * 10 + (s[|s| - 1] as int - '0' as int)
  }

  lemma {:induction false} DecimalParses(n: nat)
    ensures Parse(Decimal(n)) == n
    ensures '-' !in Decimal(n)
    ensures forall c :: c in Decimal(n) ==> '0' <= c <= '9'
    ensures Decimal(n) != [] && (n > 0 ==> Decimal(n)[0] != '0')
  {
    if n >= 10 {
      DecimalParses(n / 10);
      var front := Decimal(n / 10);
      assert (front + [Digit(n % 10)])[..|front + [Digit(n % 10)]| - 1] == front;
    } else {
      assert Decimal(n)[..0] == [];
    }
  }

  lemma DecimalIsInjective(m: nat, n: nat)
    requires Decimal(m) == Decimal(n)
    ensures m == n
  {
    DecimalParses(m);
    DecimalParses(n);
  }

  /** A dash-free part that is longer puts the dash elsewhere. */
  lemma DashesDiffer(a: string, b: string, c: string, d: string)
    ensures |a| < |c| && '-' !in c ==> a + "-" + b != c + "-" + d
  {
    if |a| < |c| && '-' !in c {
      assert (a + "-" + b)[|a|] == '-' && (c + "-" + d)[|a|] == c[|a|];
    }
  }

  /** A name spells the index, a dash and the term, in that order. */
  lemma NameSpells(k: Key) returns (dash: nat)
    ensures dash < |Name(k)| && Name(k)[dash] == '-' && '-' !in Name(k)[..dash]
    ensures Parse(Name(k)[..dash]) == k.index && Parse(Name(k)[dash + 1..]) == k.term
  {
    DecimalParses(k.index);
    DecimalParses(k.term);
    dash := |Decimal(k.index)|;
    assert Name(k)[..dash] == Decimal(k.index) && Name(k)[dash + 1..] == Decimal(k.term);
  }

  /** A dash-free ending that is longer puts the last dash elsewhere. */
  lemma LastDashesDiffer(a: string, b: string, c: string, d: string)
    ensures |a| < |c| && '-' !in b ==> a + "-" + b != c + "-" + d
  {
    var x, y := a + "-" + b, c + "-" + d;
    if |a| < |c| && |x| == |y| {
      assert x[|c|] == b[|c| - |a| - 1] && y[|c|] == '-';
    }
  }

  /** Names that end in different numbers differ, whatever comes before. */
  lemma EndingsDiffer(a: string, m: nat, b: string, n: nat)
    requires a + "-" + Decimal(m) == b + "-" + Decimal(n)
    ensures m == n
  {
    DecimalParses(m);
    DecimalParses(n);
    LastDashesDiffer(a, Decimal(m), b, Decimal(n));
    LastDashesDiffer(b, Decimal(n), a, Decimal(m));
    assert (a + "-" + Decimal(m))[|a| + 1..] == Decimal(m) && (b + "-" + Decimal(n))[|b| + 1..] == Decimal(n);
    DecimalIsInjective(m, n);
  }

  lemma NameIsInjective(j: Key, k: Key)
    requires Name(j) == Name(k)
    ensures j == k
  {
    var a, b, c, d := Decimal(j.index), Decimal(j.term), Decimal(k.index), Decimal(k.term);
    DecimalParses(j.index);
    DecimalParses(k.index);
    DashesDiffer(a, b, c, d);
    DashesDiffer(c, d, a, b);
    assert Name(j)[..|a|] == a && Name(k)[..|c|] == c;
    assert Name(j)[|a| + 1..] == b && Name(k)[|c| + 1..] == d;
    DecimalIsInjective(j.index, k.index);
    DecimalIsInjective(j.term, k.term);
  }
}
