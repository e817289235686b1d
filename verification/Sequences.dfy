// Order-preserving filters and maps over sequences, the stable insertion sort
// behind `sortBy`, and the few facts about them every other module uses.
module Sequences {

  function Filter<T>(s: seq<T>, keep: T -> bool): (r: seq<T>)
    ensures forall x | x in r :: x in s && keep(x)
    ensures forall x | x in s && keep(x) :: x in r
    ensures |r| <= |s|
  {
    if s == [] then []
    else if keep(s[0]) then [s[0]] + Filter(s[1..], keep)
    else Filter(s[1..], keep)
  }

  function Map<T, U>(s: seq<T>, f: T -> U): (r: seq<U>)
    ensures |r| == |s|
    ensures forall i | 0 <= i < |s| :: r[i] == f(s[i])
  {
    seq(|s|, i requires 0 <= i < |s| => f(s[i]))
  }

  ghost predicate Distinct<T>(s: seq<T>) {
    forall i, j | 0 <= i < j < |s| :: s[i] != s[j]
  }

  // No two elements of `s` share a key.
  ghost predicate DistinctBy<T, K>(s: seq<T>, key: T -> K) {
    forall i, j | 0 <= i < j < |s| :: key(s[i]) != key(s[j])
  }

  lemma Associate<T>(s: seq<T>, t: seq<T>, u: seq<T>)
    ensures s + (t + u) == (s + t) + u
  {
  }

  lemma {:induction false} FilterConcat<T>(s: seq<T>, t: seq<T>, keep: T -> bool)
    ensures Filter(s + t, keep) == Filter(s, keep) + Filter(t, keep)
  {
    if s == [] {
      assert s + t == t;
    } else {
      assert (s + t)[0] == s[0] && (s + t)[1..] == s[1..] + t;
      FilterConcat(s[1..], t, keep);
      Associate([s[0]], Filter(s[1..], keep), Filter(t, keep));
    }
  }

  lemma FilterAppend<T>(s: seq<T>, x: T, keep: T -> bool)
    ensures Filter(s + [x], keep) == Filter(s, keep) + (if keep(x) then [x] else [])
  {
    FilterConcat(s, [x], keep);
  }

  lemma {:induction false} FilterAll<T>(s: seq<T>, keep: T -> bool)
    requires forall x | x in s :: keep(x)
    ensures Filter(s, keep) == s
  {
    if s != [] {
      FilterAll(s[1..], keep);
    }
  }

  lemma {:induction false} FilterSame<T>(s: seq<T>, keep: T -> bool, same: T -> bool)
    requires forall x | x in s :: keep(x) == same(x)
    ensures Filter(s, keep) == Filter(s, same)
  {
    if s != [] { FilterSame(s[1..], keep, same); }
  }

  lemma {:induction false} FilterLength<T>(s: seq<T>, keep: T -> bool)
    ensures |Filter(s, keep)| == |s| <==> Filter(s, keep) == s
  {
    if s != [] { FilterLength(s[1..], keep); }
  }

  lemma {:induction false} FilterNone<T>(s: seq<T>, keep: T -> bool)
    ensures Filter(s, keep) == [] <==> forall x | x in s :: !keep(x)
  {
    if s != [] {
      FilterNone(s[1..], keep);
      assert s[0] in s;
    }
  }

  lemma {:induction false} FilterTwice<T>(s: seq<T>, first: T -> bool, second: T -> bool, both: T -> bool)
    requires forall x | x in s :: both(x) == (first(x) && second(x))
    ensures Filter(Filter(s, first), second) == Filter(s, both)
  {
    if s != [] {
      FilterTwice(s[1..], first, second, both);
      assert s[0] in s;
    }
  }

  // A change of elements that no test notices leaves the count alone.
  lemma {:induction false} FilterCount<T>(s: seq<T>, f: T -> T, keep: T -> bool)
    requires forall x | x in s :: keep(f(x)) == keep(x)
    ensures |Filter(Map(s, f), keep)| == |Filter(s, keep)|
  {
    if s != [] {
      assert s[0] in s && Map(s, f)[1..] == Map(s[1..], f);
      FilterCount(s[1..], f, keep);
    }
  }

  lemma {:induction false} FilterDistinctBy<T, K>(s: seq<T>, keep: T -> bool, key: T -> K)
    requires DistinctBy(s, key)
    ensures DistinctBy(Filter(s, keep), key)
  {
    if s != [] {
      FilterDistinctBy(s[1..], keep, key);
      var rest := Filter(s[1..], keep);
      forall j | 0 <= j < |rest|
        ensures key(s[0]) != key(rest[j])
      {
        assert rest[j] in s[1..];
      }
    }
  }

  // Two elements of a sequence with distinct keys that share a key are one.
  lemma DistinctByKey<T, K>(s: seq<T>, key: T -> K, x: T, y: T)
    requires DistinctBy(s, key)
    requires x in s && y in s && key(x) == key(y)
    ensures x == y
  {
  }

  lemma DistinctByConcat<T, K>(s: seq<T>, t: seq<T>, key: T -> K)
    ensures DistinctBy(s + t, key)
       <==> DistinctBy(s, key) && DistinctBy(t, key) && forall x, y | x in s && y in t :: key(x) != key(y)
  {
    var st := s + t;
    if DistinctBy(st, key) {
      forall i, j | 0 <= i < j < |s| ensures key(s[i]) != key(s[j]) { assert key(st[i]) != key(st[j]); }
      forall i, j | 0 <= i < j < |t| ensures key(t[i]) != key(t[j]) { assert key(st[|s| + i]) != key(st[|s| + j]); }
      forall x, y | x in s && y in t ensures key(x) != key(y) {
        var i :| 0 <= i < |s| && s[i] == x;
        var j :| 0 <= j < |t| && t[j] == y;
        assert key(st[i]) != key(st[|s| + j]);
      }
    }
    if DistinctBy(s, key) && DistinctBy(t, key) && (forall x, y | x in s && y in t :: key(x) != key(y)) {
      forall i, j | 0 <= i < j < |st| ensures key(st[i]) != key(st[j]) {
        if j < |s| {
        } else if i >= |s| {
          assert key(t[i - |s|]) != key(t[j - |s|]);
        } else {
          assert st[i] in s && st[j] in t;
        }
      }
    }
  }

  // A set of keys as large as the sequence means no key repeats.
  predicate HasDuplicates<K(==)>(keys: seq<K>) {
    |set k | k in keys| != |keys|
  }

  lemma {:induction false} KeySetSize<T, K>(s: seq<T>, key: T -> K)
    ensures |set k | k in Map(s, key)| <= |s|
    ensures |set k | k in Map(s, key)| == |s| <==> DistinctBy(s, key)
  {
    var keys := set k | k in Map(s, key);
    if s == [] {
      assert keys == {};
    } else {
      var front, last := s[..|s| - 1], s[|s| - 1];
      KeySetSize(front, key);
      var fewer := set k | k in Map(front, key);
      assert Map(s, key) == Map(front, key) + [key(last)];
      assert keys == fewer + {key(last)};
      assert s == front + [last];
      DistinctByConcat(front, [last], key);
      assert key(last) in fewer <==> exists x :: x in front && key(x) == key(last) by {
        if key(last) in fewer {
          var i :| 0 <= i < |front| && Map(front, key)[i] == key(last);
          assert front[i] in front;
        }
        if x :| x in front && key(x) == key(last) {
          var i :| 0 <= i < |front| && front[i] == x;
          assert Map(front, key)[i] == key(last);
        }
      }
      assert DistinctBy([last], key);
    }
  }

  lemma MapHas<T, U>(s: seq<T>, f: T -> U, y: U)
    ensures y in Map(s, f) <==> exists x :: x in s && f(x) == y
  {
  }

  function FlatMap<T, U>(s: seq<T>, f: T -> seq<U>): seq<U> {
    if s == [] then [] else f(s[0]) + FlatMap(s[1..], f)
  }

  lemma {:induction false} FlatMapHas<T, U>(s: seq<T>, f: T -> seq<U>, t: T, u: U)
    requires t in s && u in f(t)
    ensures u in FlatMap(s, f)
  {
    if t != s[0] { FlatMapHas(s[1..], f, t, u); }
  }

  lemma {:induction false} FlatMapIn<T, U>(s: seq<T>, f: T -> seq<U>, u: U) returns (t: T)
    requires u in FlatMap(s, f)
    ensures t in s && u in f(t)
  {
    if u in f(s[0]) { t := s[0]; } else { t := FlatMapIn(s[1..], f, u); }
  }

  // Pieces that never share a key, each with no key twice, have none together.
  lemma {:induction false} FlatMapDistinct<T, U, K>(s: seq<T>, f: T -> seq<U>, key: U -> K)
    requires forall t | t in s :: DistinctBy(f(t), key)
    requires forall i, j | 0 <= i < j < |s| :: forall u, v | u in f(s[i]) && v in f(s[j]) :: key(u) != key(v)
    ensures DistinctBy(FlatMap(s, f), key)
  {
    if s != [] {
      var rest := s[1..];
      forall i, j | 0 <= i < j < |rest| ensures forall u, v | u in f(rest[i]) && v in f(rest[j]) :: key(u) != key(v) {
        assert rest[i] == s[i + 1] && rest[j] == s[j + 1];
      }
      FlatMapDistinct(rest, f, key);
      forall u, v | u in f(s[0]) && v in FlatMap(rest, f) ensures key(u) != key(v) {
        var t := FlatMapIn(rest, f, v);
        var j :| 0 <= j < |rest| && rest[j] == t;
        assert s[j + 1] == t;
      }
      DistinctByConcat(f(s[0]), FlatMap(rest, f), key);
    }
  }
}
