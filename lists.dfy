/** Array operations the storefront applies to its catalog, cart and
    wishlist, on sequences: `filter`, and the `find`, `some` and
    `filter` idioms keyed by a product identifier. */
module Lists {

  datatype Option<T> = None | Some(value: T)

  /** `xs` is an order-preserving sublist of `ys`. */
  predicate IsSubsequence<T(==)>(xs: seq<T>, ys: seq<T>)
    decreases |ys|
  {
    xs == [] ||
    (ys != [] &&
     ((xs[0] == ys[0] && IsSubsequence(xs[1..], ys[1..])) || IsSubsequence(xs, ys[1..])))
  }

  /** `Array.prototype.filter`: the elements of `s` that satisfy `f`, in their order. */
  function Filter<T(!new)>(s: seq<T>, f: T -> bool): (r: seq<T>)
    ensures |r| <= |s|
    ensures forall x :: x in r <==> x in s && f(x)
    ensures forall x :: multiset(r)[x] == if f(x) then multiset(s)[x] else 0
    decreases |s|
  {
    if s == [] then []
    else
      assert s == [s[0]] + s[1..];
      if f(s[0]) then [s[0]] + Filter(s[1..], f)
      else Filter(s[1..], f)
  }

  lemma {:induction false} FilterIsSubsequence<T(!new)>(s: seq<T>, f: T -> bool)
    ensures IsSubsequence(Filter(s, f), s)
    decreases |s|
  {
    if s != [] {
      FilterIsSubsequence(s[1..], f);
      var r := Filter(s, f);
      if f(s[0]) {
        assert r[0] == s[0] && r[1..] == Filter(s[1..], f);
      }
    }
  }

  lemma {:induction false} FilterAppend<T(!new)>(a: seq<T>, b: seq<T>, f: T -> bool)
    ensures Filter(a + b, f) == Filter(a, f) + Filter(b, f)
    decreases |a|
  {
    if a == [] {
      assert a + b == b;
    } else {
      assert (a + b)[0] == a[0] && (a + b)[1..] == a[1..] + b;
      FilterAppend(a[1..], b, f);
    }
  }

  /** Filtering by a predicate every element satisfies keeps the whole sequence. */
  lemma {:induction false} FilterKeepsAll<T(!new)>(s: seq<T>, f: T -> bool)
    requires forall x :: x in s ==> f(x)
    ensures Filter(s, f) == s
    decreases |s|
  {
    if s != [] {
      assert s[0] in s;
      assert forall x :: x in s[1..] ==> x in s;
      FilterKeepsAll(s[1..], f);
    }
  }

  /** Two predicates that agree on the elements of `s` filter it alike. */
  lemma {:induction false} FilterCongruent<T(!new)>(s: seq<T>, f: T -> bool, g: T -> bool)
    requires forall x :: x in s ==> f(x) == g(x)
    ensures Filter(s, f) == Filter(s, g)
    decreases |s|
  {
    if s != [] {
      assert s[0] in s;
      assert forall x :: x in s[1..] ==> x in s;
      FilterCongruent(s[1..], f, g);
    }
  }

  /** `s.some(x => key(x) == k)`. */
  predicate HasKey<T(==)>(s: seq<T>, key: T -> int, k: int)
  {
    exists x :: x in s && key(x) == k
  }

  /** No two elements of `s` share a key. */
  predicate UniqueBy<T>(s: seq<T>, key: T -> int)
  {
    forall i, j :: 0 <= i < j < |s| ==> key(s[i]) != key(s[j])
  }

  /** The position `s.find(x => key(x) == k)` stops at: the first element with key `k`. */
  function IndexOfKey<T(==)>(s: seq<T>, key: T -> int, k: int): (r: Option<nat>)
    ensures r.Some? ==> r.value < |s| && key(s[r.value]) == k
    ensures r.Some? ==> forall j :: 0 <= j < r.value ==> key(s[j]) != k
    ensures r.None? <==> !HasKey(s, key, k)
    decreases |s|
  {
    if s == [] then None
    else if key(s[0]) == k then Some(0)
    else
      match IndexOfKey(s[1..], key, k)
      case None =>
        assert forall x :: x in s ==> x == s[0] || x in s[1..];
        None
      case Some(i) => Some(i + 1)
  }

  /** The test `x => key(x) != k` handed to `filter`. */
  function NotKey<T>(key: T -> int, k: int): T -> bool
  {
    x => key(x) != k
  }

  /** `s.filter(x => key(x) != k)`: drops every element with key `k`, keeping the order of the rest. */
  function Without<T(==,!new)>(s: seq<T>, key: T -> int, k: int): (r: seq<T>)
    ensures forall x :: x in r <==> x in s && key(x) != k
    ensures forall x :: multiset(r)[x] == if key(x) != k then multiset(s)[x] else 0
    ensures IsSubsequence(r, s)
  {
    FilterIsSubsequence(s, NotKey(key, k));
    Filter(s, NotKey(key, k))
  }

  lemma HasKeyWithout<T(!new)>(s: seq<T>, key: T -> int, k: int, x: int)
    ensures HasKey(Without(s, key, k), key, x) <==> HasKey(s, key, x) && x != k
  {
  }

  /** With no element keyed `k`, the filter changes nothing. */
  lemma WithoutAbsent<T(!new)>(s: seq<T>, key: T -> int, k: int)
    requires !HasKey(s, key, k)
    ensures Without(s, key, k) == s
  {
    FilterKeepsAll(s, NotKey(key, k));
  }

  /** Filtering keeps keys unique. */
  lemma {:induction false} FilterUnique<T(!new)>(s: seq<T>, f: T -> bool, key: T -> int)
    requires UniqueBy(s, key)
    ensures UniqueBy(Filter(s, f), key)
    decreases |s|
  {
    if s != [] {
      var t := Filter(s[1..], f);
      FilterUnique(s[1..], f, key);
      if f(s[0]) {
        var r := [s[0]] + t;
        forall i, j | 0 <= i < j < |r|
          ensures key(r[i]) != key(r[j])
        {
          if i == 0 {
            assert r[j] == t[j - 1] && t[j - 1] in t;
            var m :| 0 <= m < |s[1..]| && s[1..][m] == r[j];
            assert s[m + 1] == r[j];
          } else {
            assert r[i] == t[i - 1] && r[j] == t[j - 1];
          }
        }
      }
    }
  }

  lemma WithoutUnique<T(!new)>(s: seq<T>, key: T -> int, k: int)
    requires UniqueBy(s, key)
    ensures UniqueBy(Without(s, key, k), key)
  {
    FilterUnique(s, NotKey(key, k), key);
  }

  /** With unique keys, dropping the key of the element at `i` removes exactly that element. */
  lemma WithoutAt<T(!new)>(s: seq<T>, key: T -> int, i: nat)
    requires UniqueBy(s, key) && i < |s|
    ensures Without(s, key, key(s[i])) == s[..i] + s[i + 1..]
  {
    var f := NotKey(key, key(s[i]));
    assert s == s[..i] + ([s[i]] + s[i + 1..]);
    FilterAppend(s[..i], [s[i]] + s[i + 1..], f);
    FilterAppend([s[i]], s[i + 1..], f);
    assert Filter([s[i]], f) == [];
    forall x | x in s[..i]
      ensures f(x)
    {
      var m :| 0 <= m < i && s[m] == x;
    }
    FilterKeepsAll(s[..i], f);
    forall x | x in s[i + 1..]
      ensures f(x)
    {
      var m :| i < m < |s| && s[m] == x;
    }
    FilterKeepsAll(s[i + 1..], f);
  }

  /** Appending keeps keys unique exactly when the new key is not already present. */
  lemma UniqueAppend<T(!new)>(s: seq<T>, x: T, key: T -> int)
    ensures UniqueBy(s + [x], key) <==> UniqueBy(s, key) && !HasKey(s, key, key(x))
  {
    var r := s + [x];
    if UniqueBy(r, key) {
      assert forall i :: 0 <= i < |s| ==> r[i] == s[i];
      forall y | y in s
        ensures key(y) != key(x)
      {
        var m :| 0 <= m < |s| && s[m] == y;
        assert r[m] == y && r[|s|] == x;
      }
    }
    if UniqueBy(s, key) && !HasKey(s, key, key(x)) {
      forall i, j | 0 <= i < j < |r|
        ensures key(r[i]) != key(r[j])
      {
        if j == |s| {
          assert r[i] == s[i] && s[i] in s;
        }
      }
    }
  }
}
