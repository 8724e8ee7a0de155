/** Names (machine ids, regions, states) are strings. A `BTreeMap` keyed by names is visited in
    ascending order; `SortedKeys` is that order. */
module Names {
  /** Lexicographic order on strings, as Rust's `Ord for String`. */
  predicate Le(a: string, b: string)
    decreases |a|
  {
    a == "" || (b != "" && (a[0] < b[0] || (a[0] == b[0] && Le(a[1..], b[1..]))))
  }

  /** The strings agree up to position `n`, where `a` ends or has the smaller character. */
  ghost predicate DiffersAt(a: string, b: string, n: nat) {
    n <= |a| && n <= |b| && a[..n] == b[..n] && (n == |a| || (n < |b| && a[n] < b[n]))
  }

  lemma {:induction false} LeIsLexicographic(a: string, b: string)
    ensures Le(a, b) <==> exists n: nat :: DiffersAt(a, b, n)
    decreases |a|
  {
    if a == "" || (b != "" && a[0] < b[0]) {
      assert DiffersAt(a, b, 0);
    } else if b != "" && a[0] == b[0] {
      LeIsLexicographic(a[1..], b[1..]);
      if n: nat :| DiffersAt(a[1..], b[1..], n) {
        assert a[..n + 1] == [a[0]] + a[1..][..n] && b[..n + 1] == [b[0]] + b[1..][..n];
        assert DiffersAt(a, b, n + 1);
      }
      if n: nat :| DiffersAt(a, b, n) {
        assert n > 0;
        assert a[1..][..n - 1] == a[..n][1..] && b[1..][..n - 1] == b[..n][1..];
        assert DiffersAt(a[1..], b[1..], n - 1);
      }
    } else {
      assert forall n: nat :: 0 < n <= |a| && n <= |b| ==> a[..n][0] == a[0] && b[..n][0] == b[0];
    }
  }

  lemma {:induction false} LeReflexive(a: string)
    ensures Le(a, a)
    decreases |a|
  {
    if a != "" {
      LeReflexive(a[1..]);
    }
  }

  lemma {:induction false} LeTotal(a: string, b: string)
    ensures Le(a, b) || Le(b, a)
    decreases |a|
  {
    if a != "" && b != "" && a[0] == b[0] {
      LeTotal(a[1..], b[1..]);
    }
  }

  lemma {:induction false} LeTransitive(a: string, b: string, c: string)
    requires Le(a, b) && Le(b, c)
    ensures Le(a, c)
    decreases |a|
  {
    if a != "" && a[0] == b[0] == c[0] {
      LeTransitive(a[1..], b[1..], c[1..]);
    }
  }

  lemma {:induction false} LeAntisymmetric(a: string, b: string)
    requires Le(a, b) && Le(b, a)
    ensures a == b
    decreases |a|
  {
    if a != "" {
      LeAntisymmetric(a[1..], b[1..]);
      assert a == [a[0]] + a[1..] && b == [b[0]] + b[1..];
    }
  }

  predicate IsLeast(m: string, s: set<string>) {
    m in s && forall x :: x in s ==> Le(m, x)
  }

  lemma {:induction false} LeastExists(s: set<string>) returns (m: string)
    requires s != {}
    ensures IsLeast(m, s)
    decreases |s|
  {
    var x :| x in s;
    if s == {x} {
      LeReflexive(x);
      m := x;
    } else {
      var rest := s - {x};
      var m' := LeastExists(rest);
      LeTotal(x, m');
      LeReflexive(x);
      m := if Le(x, m') then x else m';
      forall y | y in s ensures Le(m, y) {
        if y != x && m == x {
          LeTransitive(x, m', y);
        }
      }
    }
  }

  predicate NoDups<T(==)>(s: seq<T>) {
    forall i, j :: 0 <= i < j < |s| ==> s[i] != s[j]
  }

  predicate Ascending(s: seq<string>) {
    forall i, j :: 0 <= i < j < |s| ==> Le(s[i], s[j])
  }

  /** The keys in ascending order, each once. */
  function SortedKeys(keys: set<string>): (order: seq<string>)
    ensures forall x :: x in order <==> x in keys
    decreases |keys|
  {
    if keys == {} then
      []
    else
      assert exists m :: IsLeast(m, keys) by { var m := LeastExists(keys); }
      assert forall m, m' :: IsLeast(m, keys) && IsLeast(m', keys) ==> m == m' by {
        forall m, m' | IsLeast(m, keys) && IsLeast(m', keys) ensures m == m' {
          LeAntisymmetric(m, m');
        }
      }
      var m :| IsLeast(m, keys);
      [m] + SortedKeys(keys - {m})
  }

  lemma {:induction false} SortedKeysOrder(keys: set<string>)
    ensures NoDups(SortedKeys(keys))
    ensures Ascending(SortedKeys(keys))
    decreases |keys|
  {
    if keys != {} {
      var order := SortedKeys(keys);
      var rest := order[1..];
      assert IsLeast(order[0], keys) && rest == SortedKeys(keys - {order[0]});
      SortedKeysOrder(keys - {order[0]});
      forall i, j | 0 <= i < j < |order| ensures order[i] != order[j] && Le(order[i], order[j]) {
        assert order[j] == rest[j - 1] && order[j] in rest;
        if i > 0 {
          assert order[i] == rest[i - 1];
        }
      }
    }
  }

  lemma OneKey(k: string)
    ensures SortedKeys({k}) == [k]
  {
    SortedKeysOrder({k});
    var keys := SortedKeys({k});
    assert k in keys;
    forall i | 0 <= i < |keys| ensures keys[i] == k {
      assert keys[i] in keys;
    }
  }
}
