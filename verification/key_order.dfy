/**
 The iteration order of a `QMap<QString, …>`: ascending by lexicographic comparison
 of the keys. `browserCleanUp` walks the services map in this order, so the
 removal events it emits come out in this order.
 */
module KeyOrder {

  /** `a` sorts no later than `b`: lexicographic, a proper prefix first. */
  predicate Leq(a: string, b: string)
    decreases |a|
  {
    |a| == 0 || (|b| > 0 && (a[0] < b[0] || (a[0] == b[0] && Leq(a[1..], b[1..]))))
  }

  lemma {:induction false} LeqReflexive(a: string)
    ensures Leq(a, a)
    decreases |a|
  {
    if |a| > 0 {
      LeqReflexive(a[1..]);
    }
  }

  lemma {:induction false} LeqTotal(a: string, b: string)
    ensures Leq(a, b) || Leq(b, a)
    decreases |a|
  {
    if |a| > 0 && |b| > 0 && a[0] == b[0] {
      LeqTotal(a[1..], b[1..]);
    }
  }

  lemma {:induction false} LeqAntisymmetric(a: string, b: string)
    requires Leq(a, b) && Leq(b, a)
    ensures a == b
    decreases |a|
  {
    if |a| > 0 {
      LeqAntisymmetric(a[1..], b[1..]);
      assert a == [a[0]] + a[1..];
      assert b == [b[0]] + b[1..];
    }
  }

  lemma {:induction false} LeqTransitive(a: string, b: string, c: string)
    requires Leq(a, b) && Leq(b, c)
    ensures Leq(a, c)
    decreases |a|
  {
    if |a| > 0 && a[0] == b[0] && b[0] == c[0] {
      LeqTransitive(a[1..], b[1..], c[1..]);
    }
  }

  predicate IsLeast(m: string, s: set<string>) {
    m in s && forall k :: k in s ==> Leq(m, k)
  }

  lemma {:induction false} LeastExists(s: set<string>)
    requires s != {}
    ensures exists m :: IsLeast(m, s)
    decreases |s|
  {
    var x :| x in s;
    if s == {x} {
      LeqReflexive(x);
      assert IsLeast(x, s);
    } else {
      LeastExists(s - {x});
      var m :| IsLeast(m, s - {x});
      LeqTotal(x, m);
      if Leq(x, m) {
        forall k | k in s
          ensures Leq(x, k)
        {
          if k == x {
            LeqReflexive(x);
          } else {
            LeqTransitive(x, m, k);
          }
        }
        assert IsLeast(x, s);
      } else {
        assert IsLeast(m, s);
      }
    }
  }

  /** The first key of a non-empty key set. */
  function Least(s: set<string>): (m: string)
    requires s != {}
    ensures m in s
    ensures forall k :: k in s ==> Leq(m, k)
  {
    LeastExists(s);
    var m :| IsLeast(m, s);
    assert forall m' :: IsLeast(m', s) ==> m' == m by {
      forall m' | IsLeast(m', s)
        ensures m' == m
      {
        LeqAntisymmetric(m, m');
      }
    }
    m
  }

  /** The keys of a map in iteration order. */
  function Ascending(s: set<string>): (ks: seq<string>)
    ensures |ks| == |s|
    ensures forall i :: 0 <= i < |ks| ==> ks[i] in s
    ensures forall k :: k in s ==> k in ks
    ensures forall i, j :: 0 <= i < j < |ks| ==> ks[i] != ks[j]
    decreases |s|
  {
    if s == {} then []
    else
      var m := Least(s);
      [m] + Ascending(s - {m})
  }

  /** The keys come out in ascending order: each key sorts no later than the next. */
  lemma {:induction false} AscendingIsSorted(s: set<string>)
    ensures forall i :: 0 < i < |Ascending(s)| ==> Leq(Ascending(s)[i - 1], Ascending(s)[i])
    decreases |s|
  {
    if s != {} {
      var m := Least(s);
      var rest := Ascending(s - {m});
      var ks := Ascending(s);
      AscendingIsSorted(s - {m});
      assert ks == [m] + rest;
      forall i | 0 < i < |ks|
        ensures Leq(ks[i - 1], ks[i])
      {
        assert ks[i] == rest[i - 1];
        if i > 1 {
          assert ks[i - 1] == rest[i - 2];
        } else {
          assert rest[0] in s;
        }
      }
    }
  }
}
