// `sortBy` on up to two numeric keys: a stable insertion sort and its facts.
module StableSort {
  import opened Sequences

  type Key = (real, real)

  predicate KeyLe(a: Key, b: Key) {
    a.0 < b.0 || (a.0 == b.0 && a.1 <= b.1)
  }

  function Insert<T>(x: T, sorted: seq<T>, key: T -> Key): seq<T> {
    if sorted == [] then [x]
    else if KeyLe(key(x), key(sorted[0])) then [x] + sorted
    else [sorted[0]] + Insert(x, sorted[1..], key)
  }

  function SortBy<T>(s: seq<T>, key: T -> Key): seq<T> {
    if s == [] then [] else Insert(s[0], SortBy(s[1..], key), key)
  }

  ghost predicate SortedBy<T>(s: seq<T>, key: T -> Key) {
    forall i, j | 0 <= i < j < |s| :: KeyLe(key(s[i]), key(s[j]))
  }

  lemma {:induction false} InsertContents<T>(x: T, s: seq<T>, key: T -> Key)
    ensures multiset(Insert(x, s, key)) == multiset(s) + multiset{x}
  {
    if s != [] && !KeyLe(key(x), key(s[0])) {
      InsertContents(x, s[1..], key);
      assert s == [s[0]] + s[1..];
    }
  }

  lemma {:induction false} SortContents<T>(s: seq<T>, key: T -> Key)
    ensures multiset(SortBy(s, key)) == multiset(s)
    ensures |SortBy(s, key)| == |s|
  {
    if s != [] {
      SortContents(s[1..], key);
      InsertContents(s[0], SortBy(s[1..], key), key);
      assert s == [s[0]] + s[1..];
    }
    assert |multiset(SortBy(s, key))| == |SortBy(s, key)|;
  }

  lemma SortMembers<T>(s: seq<T>, key: T -> Key, x: T)
    ensures x in SortBy(s, key) <==> x in s
  {
    SortContents(s, key);
    assert x in SortBy(s, key) <==> x in multiset(SortBy(s, key));
    assert x in s <==> x in multiset(s);
  }

  lemma {:induction false} InsertSorted<T>(x: T, s: seq<T>, key: T -> Key)
    requires SortedBy(s, key)
    ensures SortedBy(Insert(x, s, key), key)
  {
    if s != [] && !KeyLe(key(x), key(s[0])) {
      InsertSorted(x, s[1..], key);
      var rest := Insert(x, s[1..], key);
      InsertContents(x, s[1..], key);
      forall j | 0 <= j < |rest| ensures KeyLe(key(s[0]), key(rest[j])) {
        assert rest[j] in multiset(s[1..]) + multiset{x};
        if rest[j] in s[1..] {
          var i :| 0 <= i < |s[1..]| && s[1..][i] == rest[j];
          assert s[i + 1] == rest[j];
        }
      }
    }
  }

  lemma {:induction false} SortSorted<T>(s: seq<T>, key: T -> Key)
    ensures SortedBy(SortBy(s, key), key)
  {
    if s != [] {
      SortSorted(s[1..], key);
      InsertSorted(s[0], SortBy(s[1..], key), key);
    }
  }

  // --- stability ---

  lemma {:induction false} InsertAhead<T>(x: T, s: seq<T>, key: T -> Key, y: T) returns (k: nat, l: nat)
    requires SortedBy(s, key) && y in s && KeyLe(key(x), key(y))
    ensures k < l < |Insert(x, s, key)| && Insert(x, s, key)[k] == x && Insert(x, s, key)[l] == y
  {
    if KeyLe(key(x), key(s[0])) {
      var j :| 0 <= j < |s| && s[j] == y;
      k, l := 0, j + 1;
    } else {
      k, l := InsertAhead(x, s[1..], key, y);
      k, l := k + 1, l + 1;
    }
  }

  lemma {:induction false} InsertKeepsOrder<T>(x: T, s: seq<T>, key: T -> Key, i: nat, j: nat)
    returns (k: nat, l: nat)
    requires i < j < |s|
    ensures k < l < |Insert(x, s, key)| && Insert(x, s, key)[k] == s[i] && Insert(x, s, key)[l] == s[j]
  {
    if KeyLe(key(x), key(s[0])) {
      k, l := i + 1, j + 1;
    } else if i == 0 {
      var rest := Insert(x, s[1..], key);
      InsertContents(x, s[1..], key);
      assert s[j] in multiset(rest) by { assert s[1..][j - 1] == s[j]; }
      var m :| 0 <= m < |rest| && rest[m] == s[j];
      k, l := 0, m + 1;
    } else {
      k, l := InsertKeepsOrder(x, s[1..], key, i - 1, j - 1);
      k, l := k + 1, l + 1;
    }
  }

  lemma {:induction false} SortStable<T>(s: seq<T>, key: T -> Key, a: nat, b: nat) returns (k: nat, l: nat)
    requires a < b < |s| && KeyLe(key(s[a]), key(s[b]))
    ensures k < l < |SortBy(s, key)| && SortBy(s, key)[k] == s[a] && SortBy(s, key)[l] == s[b]
  {
    var rest := SortBy(s[1..], key);
    if a == 0 {
      assert s[1..][b - 1] == s[b];
      SortMembers(s[1..], key, s[b]);
      SortSorted(s[1..], key);
      k, l := InsertAhead(s[0], rest, key, s[b]);
    } else {
      var i, j := SortStable(s[1..], key, a - 1, b - 1);
      k, l := InsertKeepsOrder(s[0], rest, key, i, j);
    }
  }

  // A smaller key goes first, and of two equal keys the earlier in the list.
  predicate SortsFirst<T>(s: seq<T>, key: T -> Key, a: nat, b: nat)
    requires a < |s| && b < |s|
  {
    !KeyLe(key(s[b]), key(s[a])) || (KeyLe(key(s[a]), key(s[b])) && a < b)
  }

  lemma SortOrder<T>(s: seq<T>, key: T -> Key, a: nat, b: nat) returns (k: nat, l: nat)
    requires a < |s| && b < |s| && SortsFirst(s, key, a, b)
    ensures k < l < |SortBy(s, key)| && SortBy(s, key)[k] == s[a] && SortBy(s, key)[l] == s[b]
  {
    if a < b {
      k, l := SortStable(s, key, a, b);
    } else {
      SortMembers(s, key, s[a]);
      SortMembers(s, key, s[b]);
      SortSorted(s, key);
      k :| 0 <= k < |SortBy(s, key)| && SortBy(s, key)[k] == s[a];
      l :| 0 <= l < |SortBy(s, key)| && SortBy(s, key)[l] == s[b];
    }
  }

  // Sorting commutes with a change that leaves every key alone.
  lemma {:induction false} InsertMapped<T>(x: T, s: seq<T>, key: T -> Key, f: T -> T)
    requires key(f(x)) == key(x) && forall y | y in s :: key(f(y)) == key(y)
    ensures Insert(f(x), Map(s, f), key) == Map(Insert(x, s, key), f)
  {
    if s != [] {
      assert s[0] in s;
      assert Map(s, f)[1..] == Map(s[1..], f);
      if !KeyLe(key(x), key(s[0])) { InsertMapped(x, s[1..], key, f); }
    }
  }

  lemma {:induction false} SortMapped<T>(s: seq<T>, key: T -> Key, f: T -> T)
    requires forall y | y in s :: key(f(y)) == key(y)
    ensures SortBy(Map(s, f), key) == Map(SortBy(s, key), f)
  {
    if s != [] {
      assert s[0] in s;
      assert Map(s, f)[1..] == Map(s[1..], f);
      SortMapped(s[1..], key, f);
      forall y | y in SortBy(s[1..], key) ensures key(f(y)) == key(y) {
        SortMembers(s[1..], key, y);
        assert y in s;
      }
      InsertMapped(s[0], SortBy(s[1..], key), key, f);
    }
  }

  lemma MapCons<T, U>(x: T, s: seq<T>, f: T -> U)
    ensures Map([x] + s, f) == [f(x)] + Map(s, f)
  {
  }

  lemma {:induction false} InsertImage<T, U>(x: T, s: seq<T>, key: T -> Key, f: T -> U)
    ensures multiset(Map(Insert(x, s, key), f)) == multiset(Map(s, f)) + multiset{f(x)}
  {
    if s == [] {
      MapCons(x, [], f);
    } else if KeyLe(key(x), key(s[0])) {
      MapCons(x, s, f);
    } else {
      InsertImage(x, s[1..], key, f);
      MapCons(s[0], Insert(x, s[1..], key), f);
      MapCons(s[0], s[1..], f);
      assert s == [s[0]] + s[1..];
    }
  }

  lemma {:induction false} SortImage<T, U>(s: seq<T>, key: T -> Key, f: T -> U)
    ensures multiset(Map(SortBy(s, key), f)) == multiset(Map(s, f))
  {
    if s != [] {
      SortImage(s[1..], key, f);
      InsertImage(s[0], SortBy(s[1..], key), key, f);
      assert Map(s, f) == [f(s[0])] + Map(s[1..], f);
    }
  }

  lemma {:induction false} InsertDistinct<T, K>(x: T, s: seq<T>, key: T -> Key, id: T -> K)
    requires DistinctBy(s, id) && forall y | y in s :: id(y) != id(x)
    ensures DistinctBy(Insert(x, s, key), id)
  {
    if s != [] {
      assert s == [s[0]] + s[1..];
      DistinctByConcat([s[0]], s[1..], id);
      if KeyLe(key(x), key(s[0])) {
        DistinctByConcat([x], s, id);
      } else {
        var rest := Insert(x, s[1..], key);
        InsertDistinct(x, s[1..], key, id);
        InsertContents(x, s[1..], key);
        forall y | y in rest ensures id(y) != id(s[0]) {
          assert y in multiset(s[1..]) + multiset{x};
          assert s[0] in s;
        }
        DistinctByConcat([s[0]], rest, id);
      }
    }
  }

  lemma {:induction false} SortDistinct<T, K>(s: seq<T>, key: T -> Key, id: T -> K)
    requires DistinctBy(s, id)
    ensures DistinctBy(SortBy(s, key), id)
  {
    if s != [] {
      assert s == [s[0]] + s[1..];
      DistinctByConcat([s[0]], s[1..], id);
      SortDistinct(s[1..], key, id);
      forall y | y in SortBy(s[1..], key) ensures id(y) != id(s[0]) {
        SortMembers(s[1..], key, y);
      }
      InsertDistinct(s[0], SortBy(s[1..], key), key, id);
    }
  }

  ghost predicate StrictlySorted<T>(s: seq<T>, key: T -> Key) {
    forall i, j | 0 <= i < j < |s| :: key(s[i]).0 < key(s[j]).0
  }

  lemma LeastFirst<T>(a: seq<T>, b: seq<T>, key: T -> Key)
    requires a != [] && b != [] && a[0] in b && b[0] in a
    requires SortedBy(a, key) && StrictlySorted(b, key)
    ensures a[0] == b[0]
  {
  }

  lemma TailContents<T>(s: seq<T>)
    requires s != []
    ensures multiset(s[1..]) == multiset(s) - multiset{s[0]}
  {
    assert s == [s[0]] + s[1..];
  }

  // A list already in strict order is the only sorted arrangement of itself.
  lemma {:induction false} SortUnique<T>(a: seq<T>, b: seq<T>, key: T -> Key)
    requires multiset(a) == multiset(b) && SortedBy(a, key) && StrictlySorted(b, key)
    ensures a == b
  {
    assert |a| == |multiset(a)| == |b|;
    if a != [] {
      assert a[0] in multiset(b) && b[0] in multiset(a);
      LeastFirst(a, b, key);
      TailContents(a);
      TailContents(b);
      SortUnique(a[1..], b[1..], key);
    }
  }
}
