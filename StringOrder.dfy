/**
 * The order in which `std::map<std::wstring, ...>` keeps its keys: lexicographic
 * comparison by character code, a proper prefix coming first. `SortedKeys` is the
 * sequence an in-order walk over such a map visits.
 */
module StringOrder {

  /** `a` sorts strictly before `b`. */
  predicate Below(a: string, b: string)
  {
    if a == [] then b != []
    else if b == [] then false
    else if a[0] != b[0] then a[0] < b[0]
    else Below(a[1..], b[1..])
  }

  lemma {:induction false} BelowIrreflexive(a: string)
    ensures !Below(a, a)
  {
    if a != [] {
      BelowIrreflexive(a[1..]);
    }
  }

  lemma {:induction false} BelowAsymmetric(a: string, b: string)
    requires Below(a, b)
    ensures !Below(b, a)
  {
    if a != [] && b != [] && a[0] == b[0] {
      BelowAsymmetric(a[1..], b[1..]);
    }
  }

  lemma {:induction false} BelowTransitive(a: string, b: string, c: string)
    requires Below(a, b) && Below(b, c)
    ensures Below(a, c)
  {
    if a != [] && b != [] && c != [] && a[0] == b[0] && b[0] == c[0] {
      BelowTransitive(a[1..], b[1..], c[1..]);
    }
  }

  lemma {:induction false} BelowTotal(a: string, b: string)
    requires a != b
    ensures Below(a, b) || Below(b, a)
  {
    if a != [] && b != [] && a[0] == b[0] {
      assert a == [a[0]] + a[1..] && b == [b[0]] + b[1..];
      BelowTotal(a[1..], b[1..]);
    }
  }

  /** Every key of the sequence sorts before every later one. */
  predicate StrictlyIncreasing(ks: seq<string>)
  {
    forall i, j :: 0 <= i < j < |ks| ==> Below(ks[i], ks[j])
  }

  /** `k` is the key of `s` that sorts first. */
  predicate IsLeast(k: string, s: set<string>)
  {
    k in s && forall x :: x in s && x != k ==> Below(k, x)
  }

  lemma {:induction false} LeastExists(s: set<string>)
    requires s != {}
    ensures exists k :: IsLeast(k, s)
    decreases |s|
  {
    var x :| x in s;
    var rest := s - {x};
    if rest == {} {
      assert s == {x};
      assert IsLeast(x, s);
    } else {
      LeastExists(rest);
      var y :| IsLeast(y, rest);
      BelowTotal(x, y);
      if Below(x, y) {
        forall z | z in s && z != x
          ensures Below(x, z)
        {
          if z != y {
            BelowTransitive(x, y, z);
          }
        }
        assert IsLeast(x, s);
      } else {
        assert IsLeast(y, s);
      }
    }
  }

  lemma LeastUnique(s: set<string>)
    ensures forall a, b :: IsLeast(a, s) && IsLeast(b, s) ==> a == b
  {
    forall a, b | IsLeast(a, s) && IsLeast(b, s)
      ensures a == b
    {
      if a != b {
        BelowAsymmetric(a, b);
      }
    }
  }

  /** The keys of `s` in the order an ordered map visits them: the least one first. */
  function SortedSet(s: set<string>): (ks: seq<string>)
    ensures forall k :: k in ks <==> k in s
    ensures |ks| == |s|
    decreases |s|
  {
    if s == {} then []
    else
      LeastExists(s);
      LeastUnique(s);
      var k :| IsLeast(k, s);
      [k] + SortedSet(s - {k})
  }

  /** The enumeration visits the keys in increasing order. */
  lemma {:induction false} SortedSetIncreasing(s: set<string>)
    ensures StrictlyIncreasing(SortedSet(s))
    decreases |s|
  {
    var ks := SortedSet(s);
    if s != {} {
      LeastExists(s);
      LeastUnique(s);
      var k :| IsLeast(k, s);
      var rest := SortedSet(s - {k});
      assert ks == [k] + rest;
      SortedSetIncreasing(s - {k});
      forall i, j | 0 <= i < j < |ks|
        ensures Below(ks[i], ks[j])
      {
        assert ks[j] == rest[j - 1];
        if i > 0 {
          assert ks[i] == rest[i - 1];
        } else {
          assert rest[j - 1] in s - {k};
        }
      }
    }
  }

  /** The keys of `m` in the order an in-order walk of the ordered map visits them. */
  function SortedKeys<V>(m: map<string, V>): (ks: seq<string>)
    ensures forall k :: k in ks <==> k in m
    ensures |ks| == |m|
  {
    SortedSet(m.Keys)
  }

  lemma SortedKeysIncreasing<V>(m: map<string, V>)
    ensures StrictlyIncreasing(SortedKeys(m))
  {
    SortedSetIncreasing(m.Keys);
  }

  /** A strictly increasing sequence holds no key twice. */
  lemma IncreasingDistinct(ks: seq<string>)
    requires StrictlyIncreasing(ks)
    ensures forall i, j :: 0 <= i < |ks| && 0 <= j < |ks| && i != j ==> ks[i] != ks[j]
  {
    forall i, j | 0 <= i < |ks| && 0 <= j < |ks| && i != j
      ensures ks[i] != ks[j]
    {
      if i < j {
        if ks[i] == ks[j] { BelowIrreflexive(ks[i]); }
      } else {
        if ks[i] == ks[j] { BelowIrreflexive(ks[j]); }
      }
    }
  }

  /** The first key of a strictly increasing enumeration of `s` is the least key of `s`,
      and the rest enumerates what remains. */
  lemma HeadIsLeast(ks: seq<string>, s: set<string>)
    requires StrictlyIncreasing(ks) && ks != []
    requires forall k :: k in ks <==> k in s
    ensures IsLeast(ks[0], s)
    ensures StrictlyIncreasing(ks[1..])
    ensures forall k :: k in ks[1..] <==> k in s - {ks[0]}
  {
    forall x | x in s && x != ks[0]
      ensures Below(ks[0], x)
    {
      var j :| 0 <= j < |ks| && ks[j] == x;
    }
    IncreasingDistinct(ks);
    forall k
      ensures k in ks[1..] <==> k in s - {ks[0]}
    {
      if k in ks[1..] {
        var j :| 1 <= j < |ks| && ks[j] == k;
      }
      if k in s - {ks[0]} {
        var j :| 0 <= j < |ks| && ks[j] == k;
      }
    }
  }

  /** There is only one strictly increasing enumeration of a set of keys. */
  lemma {:induction false} SortedUnique(ks: seq<string>, s: set<string>)
    requires StrictlyIncreasing(ks)
    requires forall k :: k in ks <==> k in s
    ensures SortedSet(s) == ks
    decreases |s|
  {
    var r := SortedSet(s);
    SortedSetIncreasing(s);
    if ks == [] {
      assert s == {};
    } else {
      assert ks[0] in s;
      HeadIsLeast(ks, s);
      HeadIsLeast(r, s);
      LeastUnique(s);
      var tail := s - {ks[0]};
      SortedUnique(ks[1..], tail);
      SortedUnique(r[1..], tail);
      assert r == [r[0]] + r[1..];
      assert ks == [ks[0]] + ks[1..];
    }
  }

  /** The empty key sorts before every other one, so an ordered walk visits it first. */
  lemma EmptyKeyFirst<V>(m: map<string, V>)
    requires "" in m
    ensures SortedKeys(m)[0] == ""
  {
    var ks := SortedKeys(m);
    SortedKeysIncreasing(m);
    var j :| 0 <= j < |ks| && ks[j] == "";
    if j != 0 {
      assert Below(ks[0], ks[j]);
    }
  }
}
