/** Data keys (Python tuples of ints), their ordering, truncation and sorted enumeration. */
module Keys {

  /** A key of the data dictionary: `(i, j)` or `(i, j, k)`. */
  type Key = seq<int>

  /** Python's tuple `<`: lexicographic, and a proper prefix is smaller. */
  predicate Below(a: Key, b: Key)
    decreases |a|
  {
    if |a| == 0 then |b| > 0
    else if |b| == 0 then false
    else a[0] < b[0] || (a[0] == b[0] && Below(a[1..], b[1..]))
  }

  lemma {:induction false} BelowIrreflexive(a: Key)
    ensures !Below(a, a)
    decreases |a|
  {
    if |a| > 0 {
      BelowIrreflexive(a[1..]);
    }
  }

  lemma {:induction false} BelowTransitive(a: Key, b: Key, c: Key)
    requires Below(a, b) && Below(b, c)
    ensures Below(a, c)
    decreases |a|
  {
    if |a| > 0 && a[0] == b[0] && b[0] == c[0] {
      BelowTransitive(a[1..], b[1..], c[1..]);
    }
  }

  lemma {:induction false} BelowTotal(a: Key, b: Key)
    requires a != b
    ensures Below(a, b) || Below(b, a)
    decreases |a|
  {
    if |a| > 0 && |b| > 0 && a[0] == b[0] {
      assert a == [a[0]] + a[1..] && b == [b[0]] + b[1..];
      BelowTotal(a[1..], b[1..]);
    }
  }

  lemma BelowAsymmetric(a: Key, b: Key)
    requires Below(a, b)
    ensures !Below(b, a)
  {
    if Below(b, a) {
      BelowTransitive(a, b, a);
      BelowIrreflexive(a);
    }
  }

  /** `m` is the smallest element of `s`. */
  predicate IsLeast(m: Key, s: set<Key>)
  {
    m in s && forall x :: x in s && x != m ==> Below(m, x)
  }

  lemma {:induction false} LeastExists(s: set<Key>)
    requires s != {}
    ensures exists m :: IsLeast(m, s)
    decreases |s|
  {
    var x :| x in s;
    if s != {x} {
      var rest := s - {x};
      LeastExists(rest);
      var m :| IsLeast(m, rest);
      if Below(x, m) {
        forall y | y in s && y != x
          ensures Below(x, y)
        {
          if y != m {
            BelowTransitive(x, m, y);
          }
        }
        assert IsLeast(x, s);
      } else {
        BelowTotal(x, m);
        assert IsLeast(m, s);
      }
    } else {
      assert IsLeast(x, s);
    }
  }

  lemma LeastUnique(s: set<Key>)
    ensures forall m, m' :: IsLeast(m, s) && IsLeast(m', s) ==> m == m'
  {
    forall m, m' | IsLeast(m, s) && IsLeast(m', s)
      ensures m == m'
    {
      if m != m' {
        BelowAsymmetric(m, m');
      }
    }
  }

  /** The smallest key of a non-empty set. */
  function Least(s: set<Key>): (m: Key)
    requires s != {}
    ensures IsLeast(m, s)
  {
    LeastExists(s);
    LeastUnique(s);
    var m :| m in s && IsLeast(m, s);
    m
  }

  /** Keys listed in strictly ascending order. */
  predicate Ascending(ks: seq<Key>)
  {
    forall a, b :: 0 <= a < b < |ks| ==> Below(ks[a], ks[b])
  }

  /** The keys of `s` in ascending order, as `sorted` lists a dictionary's items. */
  function SortedKeys(s: set<Key>): (r: seq<Key>)
    ensures Ascending(r)
    ensures forall x :: x in r <==> x in s
    decreases s
  {
    if s == {} then []
    else
      var m := Least(s);
      var rest := SortedKeys(s - {m});
      assert forall n :: 0 <= n < |rest| ==> rest[n] in s - {m};
      [m] + rest
  }

  /** An ascending listing of a set is unique: there is exactly one traversal order. */
  lemma {:induction false} AscendingUnique(a: seq<Key>, b: seq<Key>)
    requires Ascending(a) && Ascending(b)
    requires forall x :: x in a <==> x in b
    ensures a == b
    decreases |a|
  {
    if |b| > 0 {
      assert b[0] in a;
    }
    if |a| > 0 {
      assert a[0] in b;
      if a[0] != b[0] {
        assert a[0] in b;
        assert b[0] in a;
        var p :| 0 <= p < |b| && b[p] == a[0];
        var q :| 0 <= q < |a| && a[q] == b[0];
        assert Below(b[0], a[0]);
        assert Below(a[0], b[0]);
        BelowAsymmetric(a[0], b[0]);
      }
      BelowIrreflexive(a[0]);
      forall x
        ensures x in a[1..] <==> x in b[1..]
      {
        if x in a[1..] {
          TailMember(a, b, x);
        }
        if x in b[1..] {
          TailMember(b, a, x);
        }
      }
      AscendingUnique(a[1..], b[1..]);
      assert a == [a[0]] + a[1..] && b == [b[0]] + b[1..];
    }
  }

  lemma TailMember(a: seq<Key>, b: seq<Key>, x: Key)
    requires Ascending(a) && |a| > 0 && |b| > 0 && a[0] == b[0]
    requires forall y :: y in a <==> y in b
    requires x in a[1..]
    ensures x in b[1..]
  {
    var n :| 1 <= n < |a| && a[n] == x;
    assert Below(a[0], x);
    BelowIrreflexive(a[0]);
    assert x in b;
    var p :| 0 <= p < |b| && b[p] == x;
    assert p != 0;
    assert b[1..][p - 1] == x;
  }

  /** `key[:w]` in Python: the first `w` components, or the whole key when it is shorter. */
  function Truncate(key: Key, w: nat): (r: Key)
    ensures |r| == if w <= |key| then w else |key|
    ensures r <= key
  {
    if w <= |key| then key[..w] else key
  }
}
