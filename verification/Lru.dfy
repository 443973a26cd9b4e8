/** What an LRU cache holds, as a function of the keys it was asked for so far. */
module Lru {

  function Without<K(==)>(s: seq<K>, k: K): (r: seq<K>)
    ensures |r| <= |s|
    ensures k !in s ==> r == s
  {
    if s == [] then [] else if s[0] == k then Without(s[1..], k) else [s[0]] + Without(s[1..], k)
  }

  function Take<K>(s: seq<K>, n: nat): (r: seq<K>)
    ensures |r| == if n < |s| then n else |s|
  {
    if n < |s| then s[..n] else s
  }

  ghost predicate Distinct<K>(s: seq<K>) {
    forall i, j :: 0 <= i < j < |s| ==> s[i] != s[j]
  }

  /** One `insert` on the keys of the cache, most recent first. */
  function Touch<K(==)>(keys: seq<K>, max: nat, k: K): (r: seq<K>)
    requires max >= 1
    ensures |r| >= 1
  {
    if k in keys then [k] + Without(keys, k)
    else if |keys| < max then [k] + keys
    else [k] + keys[..|keys| - 1]
  }

  /** The keys of a cache that has been asked for the keys of h, in order. */
  function CacheKeys<K(==)>(h: seq<K>, max: nat): seq<K>
    requires max >= 1
  {
    if h == [] then [] else Touch(CacheKeys(h[..|h| - 1], max), max, h[|h| - 1])
  }

  /** All keys of h, the most recently used first. */
  function Mru<K(==)>(h: seq<K>): seq<K> {
    if h == [] then [] else [h[|h| - 1]] + Without(Mru(h[..|h| - 1]), h[|h| - 1])
  }

  /** The last time a key was asked for. */
  function LastUse<K(==)>(h: seq<K>, k: K): (i: nat)
    requires k in h
    ensures i < |h| && h[i] == k
    ensures forall j :: i < j < |h| ==> h[j] != k
  {
    if h[|h| - 1] == k then |h| - 1 else LastUse(h[..|h| - 1], k)
  }

  // ----- what Mru is -----

  lemma {:induction false} WithoutKeys<K>(s: seq<K>, k: K, x: K)
    ensures x in Without(s, k) <==> x in s && x != k
  {
    if s != [] {
      WithoutKeys(s[1..], k, x);
    }
  }

  lemma {:induction false} WithoutIndex<K>(s: seq<K>, i: nat)
    requires Distinct(s) && i < |s|
    ensures Without(s, s[i]) == s[..i] + s[i + 1..]
  {
    hide Without, Distinct;
    WithoutUnfolds(s, s[i]);
    DistinctTail(s);
    var rest := s[1..];
    if i > 0 {
      assert rest[i - 1] == s[i];
      WithoutIndex(rest, i - 1);
      SplitAround(s, i);
    }
  }

  lemma SplitAround<K>(s: seq<K>, i: nat)
    requires 0 < i < |s|
    ensures [s[0]] + (s[1..][..i - 1] + s[1..][i..]) == s[..i] + s[i + 1..]
  {
  }

  lemma WithoutUnfolds<K>(s: seq<K>, k: K)
    requires s != []
    ensures Without(s, k) == if s[0] == k then Without(s[1..], k) else [s[0]] + Without(s[1..], k)
  {
  }

  lemma DistinctTail<K>(s: seq<K>)
    requires Distinct(s) && s != []
    ensures Distinct(s[1..]) && s[0] !in s[1..] && forall i :: 0 < i < |s| ==> s[i] != s[0]
  {
  }

  /** What remains keeps its order. */
  lemma {:induction false} WithoutOrder<K>(s: seq<K>, k: K, i: nat, j: nat) returns (i': nat, j': nat)
    requires i < j < |Without(s, k)|
    ensures i' < j' < |s| && s[i'] == Without(s, k)[i] && s[j'] == Without(s, k)[j]
  {
    if s[0] == k {
      i', j' := WithoutOrder(s[1..], k, i, j);
      i', j' := i' + 1, j' + 1;
    } else if i == 0 {
      i' := 0;
      j' := WithoutAt(s[1..], k, j - 1);
      j' := j' + 1;
    } else {
      i', j' := WithoutOrder(s[1..], k, i - 1, j - 1);
      i', j' := i' + 1, j' + 1;
    }
  }

  lemma {:induction false} WithoutAt<K>(s: seq<K>, k: K, i: nat) returns (i': nat)
    requires i < |Without(s, k)|
    ensures i' < |s| && s[i'] == Without(s, k)[i]
  {
    WithoutKeys(s, k, Without(s, k)[i]);
    i' :| i' < |s| && s[i'] == Without(s, k)[i];
  }

  lemma {:induction false} MruKeys<K>(h: seq<K>, k: K)
    ensures k in Mru(h) <==> k in h
  {
    if h != [] {
      var front, last := h[..|h| - 1], h[|h| - 1];
      MruKeys(front, k);
      WithoutKeys(Mru(front), last, k);
      assert h == front + [last];
    }
  }

  lemma MruUnfolds<K>(h: seq<K>)
    ensures if h == [] then Mru(h) == []
            else Mru(h) == [h[|h| - 1]] + Without(Mru(h[..|h| - 1]), h[|h| - 1])
  {
  }

  /** Mru lists every key once, by decreasing time of last use. */
  lemma {:induction false} MruOrder<K>(h: seq<K>, i: nat, j: nat)
    requires i < j < |Mru(h)|
    ensures Mru(h)[i] in h && Mru(h)[j] in h && LastUse(h, Mru(h)[i]) > LastUse(h, Mru(h)[j])
  {
    hide Mru, Without;
    MruUnfolds(h);
    MruKeys(h, Mru(h)[i]);
    MruKeys(h, Mru(h)[j]);
    var front, last := h[..|h| - 1], h[|h| - 1];
    var rest := Without(Mru(front), last);
    WithoutKeys(Mru(front), last, Mru(h)[j]);
    assert Mru(h)[j] == rest[j - 1];
    if i > 0 {
      assert Mru(h)[i] == rest[i - 1];
      WithoutKeys(Mru(front), last, Mru(h)[i]);
      var i', j' := WithoutOrder(Mru(front), last, i - 1, j - 1);
      MruOrder(front, i', j');
    }
  }

  lemma MruDistinct<K>(h: seq<K>)
    ensures Distinct(Mru(h))
  {
    forall i, j | 0 <= i < j < |Mru(h)|
      ensures Mru(h)[i] != Mru(h)[j]
    {
      MruOrder(h, i, j);
    }
  }

  // ----- the cache holds the most recent keys -----

  lemma {:induction false} TakeWithout<K>(s: seq<K>, n: nat, k: K)
    requires Distinct(s) && k in Take(s, n)
    ensures Take(Without(s, k), n - 1) == Without(Take(s, n), k)
  {
    hide Without, Distinct;
    var t, r := Take(s, n), s[1..];
    assert t[0] == s[0] && t[1..] == Take(r, n - 1);
    WithoutUnfolds(s, k);
    WithoutUnfolds(t, k);
    DistinctTail(s);
    if s[0] == k {
      assert k !in t[1..];
    } else {
      TakeWithout(r, n - 1, k);
    }
  }

  lemma {:induction false} TakeMissing<K>(s: seq<K>, n: nat, k: K)
    requires n >= 1 && k !in Take(s, n)
    ensures Take(Without(s, k), n - 1) == Take(s, n - 1)
  {
    hide Without;
    if |s| > n && n > 1 {
      assert Take(s[1..], n - 1) == Take(s, n)[1..];
      TakeMissing(s[1..], n - 1, k);
      assert s[0] == Take(s, n)[0];
      WithoutUnfolds(s, k);
      assert Take(Without(s, k), n - 1) == [s[0]] + Take(Without(s[1..], k), n - 2);
      assert Take(s, n - 1) == [s[0]] + Take(s[1..], n - 2);
    }
  }

  lemma TouchTake<K>(s: seq<K>, max: nat, k: K)
    requires max >= 1 && Distinct(s)
    ensures Touch(Take(s, max), max, k) == Take([k] + Without(s, k), max)
  {
    var t := Take(s, max);
    assert Take([k] + Without(s, k), max) == [k] + Take(Without(s, k), max - 1);
    if k in t {
      TakeWithout(s, max, k);
    } else {
      TakeMissing(s, max, k);
    }
  }

  /** The cache holds exactly the most recently used keys, as many as fit, in order of recency. */
  lemma {:induction false} CacheIsMostRecent<K>(h: seq<K>, max: nat)
    requires max >= 1
    ensures CacheKeys(h, max) == Take(Mru(h), max)
  {
    if h != [] {
      var front := h[..|h| - 1];
      CacheIsMostRecent(front, max);
      MruDistinct(front);
      TouchTake(Mru(front), max, h[|h| - 1]);
    }
  }

  lemma CacheDistinct<K>(h: seq<K>, max: nat)
    requires max >= 1
    ensures Distinct(CacheKeys(h, max)) && |CacheKeys(h, max)| <= max
  {
    CacheIsMostRecent(h, max);
    MruDistinct(h);
  }

  lemma CacheNext<K>(h: seq<K>, max: nat, k: K)
    requires max >= 1
    ensures CacheKeys(h + [k], max) == Touch(CacheKeys(h, max), max, k)
  {
  }

  /** Stack inclusion: a smaller cache holds the first entries of a larger one. */
  lemma StackInclusion<K>(h: seq<K>, small: nat, large: nat)
    requires 1 <= small <= large
    ensures CacheKeys(h, small) <= CacheKeys(h, large)
  {
    CacheIsMostRecent(h, small);
    CacheIsMostRecent(h, large);
  }

  function Hits<K(==)>(h: seq<K>, max: nat): nat
    requires max >= 1
  {
    if h == [] then 0
    else Hits(h[..|h| - 1], max) + if h[|h| - 1] in CacheKeys(h[..|h| - 1], max) then 1 else 0
  }

  /** A larger cache never hits less often. */
  lemma {:induction false} HitsGrow<K>(h: seq<K>, small: nat, large: nat)
    requires 1 <= small <= large
    ensures Hits(h, small) <= Hits(h, large)
  {
    if h != [] {
      HitsGrow(h[..|h| - 1], small, large);
      StackInclusion(h[..|h| - 1], small, large);
    }
  }

  // ----- when an access hits -----

  /** The different keys asked for since the last use of k. */
  ghost function Since<K>(h: seq<K>, k: K): set<K>
    requires k in h
  {
    set j | LastUse(h, k) < j < |h| :: h[j]
  }

  lemma {:induction false} DistinctCount<K>(s: seq<K>, keys: set<K>)
    requires Distinct(s) && forall x :: x in keys <==> x in s
    ensures |keys| == |s|
  {
    if s == [] {
      assert keys == {};
    } else {
      DistinctCount(s[1..], keys - {s[0]});
    }
  }

  lemma MruBefore<K>(h: seq<K>, i: nat)
    requires i < |Mru(h)| && Mru(h)[i] in h
    ensures |Since(h, Mru(h)[i])| == i
  {
    var k, before := Mru(h)[i], Mru(h)[..i];
    MruDistinct(h);
    forall x
      ensures x in Since(h, k) <==> x in before
    {
      MruSince(h, i, x);
    }
    DistinctCount(before, Since(h, k));
  }

  lemma MruSince<K>(h: seq<K>, i: nat, x: K)
    requires i < |Mru(h)| && Mru(h)[i] in h
    ensures x in Since(h, Mru(h)[i]) <==> x in Mru(h)[..i]
  {
    var k := Mru(h)[i];
    if x in Since(h, k) {
      MruKeys(h, x);
      var j :| 0 <= j < |Mru(h)| && Mru(h)[j] == x;
      if j > i { MruOrder(h, i, j); }
    }
    if x in Mru(h)[..i] {
      var j :| 0 <= j < i && Mru(h)[j] == x;
      MruOrder(h, j, i);
    }
  }

  /** A key is in the cache exactly when fewer than max other keys were asked for since. */
  lemma HitIffRecent<K>(h: seq<K>, max: nat, k: K)
    requires max >= 1
    ensures k in CacheKeys(h, max) <==> k in h && |Since(h, k)| < max
  {
    CacheIsMostRecent(h, max);
    MruKeys(h, k);
    if k in h {
      var i :| 0 <= i < |Mru(h)| && Mru(h)[i] == k;
      MruBefore(h, i);
      MruDistinct(h);
      if i < max {
        assert Take(Mru(h), max)[i] == k;
      }
    }
  }
}
