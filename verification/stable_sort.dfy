/**
  LINQ's `OrderByDescending(key)` followed by `Take(n)`, as used by the
  solution summary. `OrderByDescending` is a stable sort: elements with equal
  keys keep the order they had in the source sequence. The model is an
  insertion sort whose result is characterised by three lemmas: it is a
  permutation, it is non-increasing in the key, and it keeps equal keys in
  their original order.
*/
module StableSort {

  /** Non-increasing in `key`. */
  predicate SortedDescending<T>(s: seq<T>, key: T -> int) {
    forall i, j :: 0 <= i < j < |s| ==> key(s[i]) >= key(s[j])
  }

  /** The elements of `s` whose key is `k`, in their order in `s`. */
  function WithKey<T>(s: seq<T>, key: T -> int, k: int): (r: seq<T>)
    ensures |r| <= |s|
    ensures forall i :: 0 <= i < |r| ==> key(r[i]) == k
  {
    if s == [] then []
    else (if key(s[0]) == k then [s[0]] else []) + WithKey(s[1..], key, k)
  }

  /** Places `x` in front of the first element whose key is not larger. */
  function Insert<T>(x: T, s: seq<T>, key: T -> int): (r: seq<T>)
    ensures |r| == |s| + 1
    ensures r[0] == x || (s != [] && r[0] == s[0])
  {
    if s == [] || key(s[0]) <= key(x) then [x] + s
    else [s[0]] + Insert(x, s[1..], key)
  }

  /** `s.OrderByDescending(key)`: each element, from the last to the first,
      is inserted in front of the equal keys already placed. */
  function SortDescending<T>(s: seq<T>, key: T -> int): (r: seq<T>)
    ensures |r| == |s|
  {
    if s == [] then [] else Insert(s[0], SortDescending(s[1..], key), key)
  }

  /** `s.Take(n)`: the first `n` elements, or all when there are fewer. */
  function Take<T>(s: seq<T>, n: nat): (r: seq<T>)
    ensures |r| == if |s| <= n then |s| else n
    ensures r == s[..|r|]
  {
    if |s| <= n then s else s[..n]
  }

  lemma {:induction false} InsertPermutes<T>(x: T, s: seq<T>, key: T -> int)
    ensures multiset(Insert(x, s, key)) == multiset(s) + multiset{x}
    decreases |s|
  {
    if s == [] || key(s[0]) <= key(x) {
      assert Insert(x, s, key) == [x] + s;
    } else {
      InsertPermutes(x, s[1..], key);
      assert s == [s[0]] + s[1..];
      assert Insert(x, s, key) == [s[0]] + Insert(x, s[1..], key);
    }
  }

  lemma {:induction false} InsertSorted<T>(x: T, s: seq<T>, key: T -> int)
    requires SortedDescending(s, key)
    ensures SortedDescending(Insert(x, s, key), key)
    decreases |s|
  {
    if s == [] || key(s[0]) <= key(x) {
    } else {
      InsertSorted(x, s[1..], key);
    }
  }

  lemma {:induction false} InsertWithKey<T>(x: T, s: seq<T>, key: T -> int, k: int)
    ensures WithKey(Insert(x, s, key), key, k)
         == (if key(x) == k then [x] else []) + WithKey(s, key, k)
    decreases |s|
  {
    var r := Insert(x, s, key);
    if s == [] || key(s[0]) <= key(x) {
      assert r[1..] == s;
    } else {
      InsertWithKey(x, s[1..], key, k);
      assert r[1..] == Insert(x, s[1..], key);
    }
  }

  /** The sort is a permutation. */
  lemma {:induction false} SortPermutes<T>(s: seq<T>, key: T -> int)
    ensures multiset(SortDescending(s, key)) == multiset(s)
    decreases |s|
  {
    if s != [] {
      SortPermutes(s[1..], key);
      InsertPermutes(s[0], SortDescending(s[1..], key), key);
      assert s == [s[0]] + s[1..];
    }
  }

  /** The sort orders by non-increasing key. */
  lemma {:induction false} SortSorts<T>(s: seq<T>, key: T -> int)
    ensures SortedDescending(SortDescending(s, key), key)
    decreases |s|
  {
    if s != [] {
      SortSorts(s[1..], key);
      InsertSorted(s[0], SortDescending(s[1..], key), key);
    }
  }

  /** The sort is stable: the elements of each key keep their order. */
  lemma {:induction false} SortStable<T>(s: seq<T>, key: T -> int, k: int)
    ensures WithKey(SortDescending(s, key), key, k) == WithKey(s, key, k)
    decreases |s|
  {
    if s != [] {
      SortStable(s[1..], key, k);
      InsertWithKey(s[0], SortDescending(s[1..], key), key, k);
    }
  }

  /** Elements with equal keys appear in increasing `rank`. */
  predicate TiesRanked<T>(s: seq<T>, key: T -> int, rank: T -> int) {
    forall i, j :: 0 <= i < j < |s| && key(s[i]) == key(s[j]) ==> rank(s[i]) < rank(s[j])
  }

  /** Inserting an element that ranks before everything keeps ties ranked. */
  lemma {:induction false} InsertTiesRanked<T>(x: T, s: seq<T>, key: T -> int, rank: T -> int)
    requires TiesRanked(s, key, rank)
    requires forall i :: 0 <= i < |s| ==> rank(x) < rank(s[i])
    ensures TiesRanked(Insert(x, s, key), key, rank)
    decreases |s|
  {
    if s != [] && key(s[0]) > key(x) {
      var tail := s[1..];
      var rest := Insert(x, tail, key);
      InsertTiesRanked(x, tail, key, rank);
      var r := Insert(x, s, key);
      assert r == [s[0]] + rest;
      forall i, j | 0 <= i < j < |r| && key(r[i]) == key(r[j]) ensures rank(r[i]) < rank(r[j]) {
        if i == 0 {
          InsertElement(x, tail, key, j - 1);
          if rest[j - 1] != x {
            var m :| 0 <= m < |tail| && tail[m] == rest[j - 1];
            assert s[m + 1] == r[j];
          }
        } else {
          assert r[i] == rest[i - 1] && r[j] == rest[j - 1];
        }
      }
    }
  }

  /** Each element of `Insert(x, s, key)` is `x` or an element of `s`. */
  lemma InsertElement<T>(x: T, s: seq<T>, key: T -> int, n: nat)
    requires n < |s| + 1
    ensures var y := Insert(x, s, key)[n]; y == x || exists m :: 0 <= m < |s| && s[m] == y
  {
    var y := Insert(x, s, key)[n];
    InsertPermutes(x, s, key);
    assert y in multiset(Insert(x, s, key));
    assert y == x || y in multiset(s);
  }

  /** When the input is in increasing `rank`, the sort lists the elements of
      each key in increasing `rank`: the stability the ranking witnesses. */
  lemma {:induction false} SortTiesRanked<T>(s: seq<T>, key: T -> int, rank: T -> int)
    requires forall i, j :: 0 <= i < j < |s| ==> rank(s[i]) < rank(s[j])
    ensures TiesRanked(SortDescending(s, key), key, rank)
    decreases |s|
  {
    if s != [] {
      var tail := s[1..];
      var t := SortDescending(tail, key);
      SortTiesRanked(tail, key, rank);
      SortPermutes(tail, key);
      forall i | 0 <= i < |t| ensures rank(s[0]) < rank(t[i]) {
        assert t[i] in multiset(t);
        assert t[i] in multiset(tail);
        var m :| 0 <= m < |tail| && tail[m] == t[i];
        assert s[m + 1] == t[i];
      }
      InsertTiesRanked(s[0], t, key, rank);
    }
  }

  /** The sort keeps exactly the elements it was given. */
  lemma SortSameElements<T>(s: seq<T>, key: T -> int)
    ensures forall x :: x in SortDescending(s, key) <==> x in s
  {
    SortPermutes(s, key);
    forall x ensures x in SortDescending(s, key) <==> x in s {
      assert x in SortDescending(s, key) <==> x in multiset(SortDescending(s, key));
      assert x in s <==> x in multiset(s);
    }
  }

  /** Of a non-increasing sequence, `Take` keeps the largest keys: every
      element left out has a key no larger than any element kept. */
  lemma TakeKeepsLargest<T>(s: seq<T>, key: T -> int, n: nat)
    requires SortedDescending(s, key)
    ensures SortedDescending(Take(s, n), key)
    ensures forall x, y :: x in Take(s, n) && y in s && y !in Take(s, n) ==> key(y) <= key(x)
  {
    var t := Take(s, n);
    forall x, y | x in t && y in s && y !in t ensures key(y) <= key(x) {
      var i :| 0 <= i < |t| && t[i] == x;
      var j :| 0 <= j < |s| && s[j] == y;
      assert j >= |t| by {
        assert forall m :: 0 <= m < |t| ==> t[m] == s[m];
      }
    }
  }

  /** Taking a prefix keeps, for every key, a prefix of that key's elements:
      `Take` after a stable sort still lists equal keys in source order. */
  lemma {:induction false} TakeWithKey<T>(s: seq<T>, key: T -> int, n: nat, k: int)
    ensures WithKey(Take(s, n), key, k) <= WithKey(s, key, k)
    decreases |s|
  {
    if |s| > n {
      if n == 0 {
        assert Take(s, n) == [];
      } else {
        var t := Take(s, n);
        TakeWithKey(s[1..], key, n - 1, k);
        assert t[1..] == Take(s[1..], n - 1);
        assert WithKey(t, key, k)
            == (if key(s[0]) == k then [s[0]] else []) + WithKey(Take(s[1..], n - 1), key, k);
      }
    }
  }

  /** No two elements share a name. */
  ghost predicate DistinctBy<T, K>(s: seq<T>, name: T -> K) {
    forall i, j :: 0 <= i < j < |s| ==> name(s[i]) != name(s[j])
  }

  lemma {:induction false} InsertDistinct<T, K>(x: T, s: seq<T>, key: T -> int, name: T -> K)
    requires DistinctBy(s, name)
    requires forall i :: 0 <= i < |s| ==> name(s[i]) != name(x)
    ensures DistinctBy(Insert(x, s, key), name)
    decreases |s|
  {
    if s != [] && key(s[0]) > key(x) {
      InsertDistinct(x, s[1..], key, name);
      InsertPermutes(x, s[1..], key);
      var r := Insert(x, s, key);
      forall j | 1 <= j < |r| ensures name(r[j]) != name(s[0]) {
        assert r[j] in multiset(Insert(x, s[1..], key));
        assert r[j] == x || r[j] in multiset(s[1..]);
      }
    }
  }

  /** Sorting keeps names distinct. */
  lemma {:induction false} SortDistinct<T, K>(s: seq<T>, key: T -> int, name: T -> K)
    requires DistinctBy(s, name)
    ensures DistinctBy(SortDescending(s, key), name)
    decreases |s|
  {
    if s != [] {
      var rest := SortDescending(s[1..], key);
      SortDistinct(s[1..], key, name);
      SortPermutes(s[1..], key);
      forall i | 0 <= i < |rest| ensures name(rest[i]) != name(s[0]) {
        assert rest[i] in multiset(rest);
        assert rest[i] in multiset(s[1..]);
        var j :| 0 <= j < |s[1..]| && s[1..][j] == rest[i];
        assert s[j + 1] == rest[i];
      }
      InsertDistinct(s[0], rest, key, name);
    }
  }

  /** An element of a non-increasing sequence that `Take` leaves out means
      the cut was made, and its key is no larger than any key kept. */
  lemma TakeLeavesOut<T>(s: seq<T>, key: T -> int, n: nat, k: nat)
    requires SortedDescending(s, key) && k < |s|
    requires s[k] !in Take(s, n)
    ensures |Take(s, n)| == n
    ensures forall i :: 0 <= i < n ==> key(s[k]) <= key(Take(s, n)[i])
  {
    var t := Take(s, n);
    assert forall m :: 0 <= m < |t| ==> t[m] == s[m];
    var x := s[k];
    assert k < |t| ==> x in t;
  }
}
