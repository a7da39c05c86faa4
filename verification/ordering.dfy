/**
 * The orders the protocol code sorts by: `Ord` on strings, and a sort of
 * keyed entries by the name of their key.
 */
module Ordering {

  /** `Ord` on strings: lexicographic, a prefix first. */
  predicate StrLe(a: string, b: string)
    decreases |a|
  {
    |a| == 0 || (|b| > 0 && (a[0] < b[0] || (a[0] == b[0] && StrLe(a[1..], b[1..]))))
  }

  lemma {:induction false} StrLeTotal(a: string, b: string)
    ensures StrLe(a, b) || StrLe(b, a)
    decreases |a|
  {
    if |a| > 0 && |b| > 0 && a[0] == b[0] {
      StrLeTotal(a[1..], b[1..]);
    }
  }

  lemma {:induction false} StrLeTrans(a: string, b: string, c: string)
    requires StrLe(a, b) && StrLe(b, c)
    ensures StrLe(a, c)
    decreases |a|
  {
    if |a| > 0 && a[0] == b[0] && b[0] == c[0] {
      StrLeTrans(a[1..], b[1..], c[1..]);
    }
  }

  lemma {:induction false} StrLeAntisymmetric(a: string, b: string)
    requires StrLe(a, b) && StrLe(b, a)
    ensures a == b
    decreases |a|
  {
    if |a| > 0 {
      StrLeAntisymmetric(a[1..], b[1..]);
      assert a == [a[0]] + a[1..] && b == [b[0]] + b[1..];
    }
  }

  /** The entries are in ascending order of the names of their keys. */
  predicate SortedBy<K, X>(xs: seq<(K, X)>, name: K -> string) {
    forall i, j :: 0 <= i < j < |xs| ==> StrLe(name(xs[i].0), name(xs[j].0))
  }

  /** Inserts `x` before the first entry it is not above. */
  function InsertBy<K, X>(x: (K, X), xs: seq<(K, X)>, name: K -> string): (r: seq<(K, X)>)
    ensures multiset(r) == multiset(xs) + multiset{x}
  {
    if xs == [] then [x]
    else if StrLe(name(x.0), name(xs[0].0)) then [x] + xs
    else
      assert xs == [xs[0]] + xs[1..];
      [xs[0]] + InsertBy(x, xs[1..], name)
  }

  /** Inserting into a sorted sequence keeps it sorted. */
  lemma {:induction false} InsertBySorted<K, X>(x: (K, X), xs: seq<(K, X)>, name: K -> string)
    requires SortedBy(xs, name)
    ensures SortedBy(InsertBy(x, xs, name), name)
  {
    if xs == [] {
    } else if StrLe(name(x.0), name(xs[0].0)) {
      forall j | 0 <= j < |xs|
        ensures StrLe(name(x.0), name(xs[j].0))
      {
        if j > 0 {
          StrLeTrans(name(x.0), name(xs[0].0), name(xs[j].0));
        }
      }
    } else {
      StrLeTotal(name(x.0), name(xs[0].0));
      var rest := InsertBy(x, xs[1..], name);
      InsertBySorted(x, xs[1..], name);
      assert xs == [xs[0]] + xs[1..];
      forall j | 0 <= j < |rest|
        ensures StrLe(name(xs[0].0), name(rest[j].0))
      {
        assert rest[j] in multiset(rest);
        if rest[j] != x {
          assert rest[j] in xs[1..];
        }
      }
    }
  }

  /**
   * `sort_by` on the key names, as an insertion sort: the result is sorted
   * and holds the same entries.
   */
  function SortBy<K, X>(xs: seq<(K, X)>, name: K -> string): (r: seq<(K, X)>)
    ensures SortedBy(r, name) && multiset(r) == multiset(xs)
  {
    if xs == [] then []
    else
      assert xs == [xs[0]] + xs[1..];
      InsertBySorted(xs[0], SortBy(xs[1..], name), name);
      InsertBy(xs[0], SortBy(xs[1..], name), name)
  }

  /** The entries whose key has the name `n`, in their order. */
  function Named<K, X>(xs: seq<(K, X)>, name: K -> string, n: string): seq<(K, X)> {
    if xs == [] then []
    else (if name(xs[0].0) == n then [xs[0]] else []) + Named(xs[1..], name, n)
  }

  /**
   * Insertion puts the new entry in front of the entries of its own name
   * and keeps the order of the others.
   */
  lemma {:induction false} InsertByNamed<K, X>(x: (K, X), xs: seq<(K, X)>, name: K -> string, n: string)
    ensures Named(InsertBy(x, xs, name), name, n) ==
            if name(x.0) == n then [x] + Named(xs, name, n) else Named(xs, name, n)
  {
    var r := InsertBy(x, xs, name);
    if xs == [] {
      assert r == [x] && r[1..] == [];
    } else if StrLe(name(x.0), name(xs[0].0)) {
      assert r == [x] + xs && r[1..] == xs;
    } else {
      StrLeTotal(name(x.0), name(x.0));
      assert name(xs[0].0) != name(x.0);
      InsertByNamed(x, xs[1..], name, n);
      assert r[0] == xs[0] && r[1..] == InsertBy(x, xs[1..], name);
    }
  }

  /**
   * `sort_by` is stable: for every name, the entries of that name keep
   * their input order.
   */
  lemma {:induction false} SortByStable<K, X>(xs: seq<(K, X)>, name: K -> string, n: string)
    ensures Named(SortBy(xs, name), name, n) == Named(xs, name, n)
  {
    if xs != [] {
      SortByStable(xs[1..], name, n);
      InsertByNamed(xs[0], SortBy(xs[1..], name), name, n);
    }
  }

  /** No two entries have keys of the same name. */
  predicate DistinctNames<K, X>(xs: seq<(K, X)>, name: K -> string) {
    forall i, j :: 0 <= i < j < |xs| ==> name(xs[i].0) != name(xs[j].0)
  }

  /** The names of the keys of the entries. */
  function Names<K, X>(xs: seq<(K, X)>, name: K -> string): (r: set<string>)
    ensures forall i :: 0 <= i < |xs| ==> name(xs[i].0) in r
    ensures forall n :: n in r ==> exists i :: 0 <= i < |xs| && name(xs[i].0) == n
  {
    set i | 0 <= i < |xs| :: name(xs[i].0)
  }

  lemma {:induction false} NamesTail<K, X>(xs: seq<(K, X)>, name: K -> string)
    requires xs != [] && DistinctNames(xs, name)
    ensures DistinctNames(xs[1..], name)
    ensures Names(xs[1..], name) == Names(xs, name) - {name(xs[0].0)}
  {
    var t := xs[1..];
    forall n | n in Names(xs, name) - {name(xs[0].0)}
      ensures n in Names(t, name)
    {
      var i :| 0 <= i < |xs| && name(xs[i].0) == n;
      assert t[i - 1] == xs[i];
    }
    forall n | n in Names(t, name)
      ensures n in Names(xs, name) - {name(xs[0].0)}
    {
      var i :| 0 <= i < |t| && name(t[i].0) == n;
      assert t[i] == xs[i + 1];
    }
  }

  /** Sorted lists with the same names start with the same (least) name. */
  lemma SortedHeadsMatch<K, X, Y>(xs: seq<(K, X)>, ys: seq<(K, Y)>, name: K -> string)
    requires SortedBy(xs, name) && SortedBy(ys, name)
    requires xs != [] && Names(xs, name) == Names(ys, name)
    ensures ys != [] && name(xs[0].0) == name(ys[0].0)
  {
    assert name(xs[0].0) in Names(ys, name);
    var j :| 0 <= j < |ys| && name(ys[j].0) == name(xs[0].0);
    assert name(ys[0].0) in Names(xs, name);
    var l :| 0 <= l < |xs| && name(xs[l].0) == name(ys[0].0);
    if j == 0 {
      StrLeTotal(name(ys[0].0), name(ys[0].0));
    }
    if l == 0 {
      StrLeTotal(name(xs[0].0), name(xs[0].0));
    }
    StrLeAntisymmetric(name(xs[0].0), name(ys[0].0));
  }

  /**
   * Two sorted entry lists without repeated names whose keys have the same
   * names list those names in the same order: the i-th entries of both
   * belong to the same name.
   */
  lemma {:induction false} SortedKeysAlign<K, X, Y>(xs: seq<(K, X)>, ys: seq<(K, Y)>, name: K -> string)
    requires SortedBy(xs, name) && DistinctNames(xs, name)
    requires SortedBy(ys, name) && DistinctNames(ys, name)
    requires Names(xs, name) == Names(ys, name)
    ensures |xs| == |ys|
    ensures forall i :: 0 <= i < |xs| ==> name(xs[i].0) == name(ys[i].0)
    decreases |xs|
  {
    if xs == [] {
      assert Names(ys, name) == {};
    } else {
      SortedHeadsMatch(xs, ys, name);
      NamesTail(xs, name);
      NamesTail(ys, name);
      SortedKeysAlign(xs[1..], ys[1..], name);
      forall i | 0 < i < |xs|
        ensures name(xs[i].0) == name(ys[i].0)
      {
        assert xs[i] == xs[1..][i - 1] && ys[i] == ys[1..][i - 1];
      }
    }
  }

  /** Without repeated names no entry occurs twice. */
  lemma {:induction false} DistinctCountOne<K, X>(xs: seq<(K, X)>, e: (K, X), name: K -> string)
    requires DistinctNames(xs, name)
    ensures multiset(xs)[e] <= 1
  {
    if xs != [] {
      assert xs == [xs[0]] + xs[1..];
      NamesTail(xs, name);
      DistinctCountOne(xs[1..], e, name);
    }
  }

  /** A permutation of entries without repeated names has none either. */
  lemma PermutationKeepsDistinct<K, X>(xs: seq<(K, X)>, ys: seq<(K, X)>, name: K -> string)
    requires multiset(xs) == multiset(ys) && DistinctNames(xs, name)
    ensures DistinctNames(ys, name)
  {
    forall i, j | 0 <= i < j < |ys|
      ensures name(ys[i].0) != name(ys[j].0)
    {
      if ys[i] == ys[j] {
        assert ys == ys[..j] + ys[j..];
        assert ys[i] in ys[..j] && ys[j] in ys[j..];
        assert multiset(ys)[ys[i]] >= 2;
        DistinctCountOne(xs, ys[i], name);
      } else {
        assert ys[i] in multiset(xs) && ys[j] in multiset(xs);
        var a :| 0 <= a < |xs| && xs[a] == ys[i];
        var b :| 0 <= b < |xs| && xs[b] == ys[j];
        assert a != b;
      }
    }
  }
}
