/** The order Python's stable `list.sort(key=k, reverse=True)` leaves a list in, stated on
    indices: a larger key comes first, and among equal keys the earlier element stays first.
    Both explanation ranking and global feature importance sort this way. */
module Ranking {
  import opened Seqs

  /** Index `i` is placed before index `j`: a strict total order on the indices of `keys`. */
  predicate Before(keys: seq<real>, i: nat, j: nat)
    requires i < |keys| && j < |keys|
  {
    keys[i] > keys[j] || (keys[i] == keys[j] && i < j)
  }

  /** `r` lists indices of `keys`, each strictly before the next: sorted by key (largest
      first), ties in original order, and no index repeated. */
  predicate Ranked(keys: seq<real>, r: seq<nat>) {
    && (forall p :: 0 <= p < |r| ==> r[p] < |keys|)
    && (forall p, q :: 0 <= p < q < |r| ==> Before(keys, r[p], r[q]))
  }

  /** Insert a new index, larger than all ranked so far, after every index whose key is at
      least its own: one step of a stable insertion sort. */
  function Insert(keys: seq<real>, i: nat, r: seq<nat>): (r': seq<nat>)
    requires i < |keys| && Ranked(keys, r)
    requires forall p :: 0 <= p < |r| ==> r[p] < i
    ensures |r'| == |r| + 1
    ensures forall x :: x in r' <==> x in r || x == i
    ensures Ranked(keys, r')
  {
    if r == [] then [i]
    else if keys[r[0]] < keys[i] then
      assert forall q :: 0 <= q < |r| ==> keys[r[q]] <= keys[r[0]] by {
        forall q | 0 < q < |r| ensures keys[r[q]] <= keys[r[0]] {
          assert Before(keys, r[0], r[q]);
        }
      }
      [i] + r
    else
      var rest := Insert(keys, i, r[1..]);
      assert forall q :: 0 <= q < |rest| ==> Before(keys, r[0], rest[q]) by {
        forall q | 0 <= q < |rest| ensures Before(keys, r[0], rest[q]) {
          if rest[q] != i {
            assert rest[q] in r[1..];
            var q' :| 0 <= q' < |r[1..]| && r[1..][q'] == rest[q];
            assert Before(keys, r[0], r[q' + 1]);
          }
        }
      }
      [r[0]] + rest
  }

  /** The indices `0 .. n-1` in ranked order. */
  function RankPrefix(keys: seq<real>, n: nat): (r: seq<nat>)
    requires n <= |keys|
    ensures |r| == n && Ranked(keys, r)
    ensures forall x :: x in r <==> 0 <= x < n
  {
    if n == 0 then []
    else
      var r := RankPrefix(keys, n - 1);
      assert forall p :: 0 <= p < |r| ==> r[p] < n - 1 by {
        forall p | 0 <= p < |r| ensures r[p] < n - 1 {
          assert r[p] in r;
        }
      }
      Insert(keys, n - 1, r)
  }

  /** Every index of `keys`, in the order a stable descending sort by key leaves them. */
  function Rank(keys: seq<real>): (r: seq<nat>)
    ensures |r| == |keys| && Ranked(keys, r)
    ensures forall i :: 0 <= i < |keys| ==> i in r
  {
    RankPrefix(keys, |keys|)
  }

  lemma HeadIsMember<T>(s: seq<T>)
    ensures s != [] ==> s[0] in s
  {
  }

  /** The first index of a ranking is before every other index in it. */
  lemma RankedHeadFirst(keys: seq<real>, r: seq<nat>, x: nat)
    requires Ranked(keys, r) && x in r
    ensures r != [] && x < |keys| && r[0] < |keys|
    ensures x == r[0] || Before(keys, r[0], x)
  {
    var q :| 0 <= q < |r| && r[q] == x;
    if q > 0 {
      assert Before(keys, r[0], r[q]);
    }
  }

  /** An element taken from inside a prefix belongs to it. */
  lemma PrefixMember<T>(s: seq<T>, n: nat, q: nat)
    requires n <= |s| && q < |s|
    ensures q < n ==> s[q] in s[..n]
  {
    if q < n {
      assert s[..n][q] == s[q];
    }
  }

  /** The ranking is unique: any two ranked sequences over the same indices are equal.
      So `Ranked` alone pins down what the stable sort returns. */
  lemma {:induction false} RankedUnique(keys: seq<real>, a: seq<nat>, b: seq<nat>)
    requires Ranked(keys, a) && Ranked(keys, b)
    requires forall x :: x in a <==> x in b
    ensures a == b
    decreases |a|
  {
    HeadIsMember(b);
    if a != [] {
      assert a[0] in b;
      RankedHeadFirst(keys, b, a[0]);
      RankedHeadFirst(keys, a, b[0]);
      forall x
        ensures x in a[1..] <==> x in b[1..]
      {
        if x in a[1..] {
          var p :| 0 <= p < |a[1..]| && a[1..][p] == x;
          assert Before(keys, a[0], a[p + 1]);
          assert x in b;
        }
        if x in b[1..] {
          var q :| 0 <= q < |b[1..]| && b[1..][q] == x;
          assert Before(keys, b[0], b[q + 1]);
          assert x in a;
        }
      }
      RankedUnique(keys, a[1..], b[1..]);
    }
  }

  /** Python's `sorted_list[:k]` on the ranking: the indices a top-`k` selection keeps. */
  function Top(keys: seq<real>, k: int): (r: seq<nat>)
    ensures Ranked(keys, r)
    ensures k >= 0 ==> |r| == (if k < |keys| then k else |keys|)
    ensures k < 0 ==> |r| == (if |keys| + k > 0 then |keys| + k else 0)
    ensures forall p, i :: 0 <= p < |r| && 0 <= i < |keys| && i !in r ==> Before(keys, r[p], i)
  {
    var all := Rank(keys);
    var r := PrefixSlice(all, k);
    assert forall p, i :: 0 <= p < |r| && 0 <= i < |keys| && i !in r ==> Before(keys, r[p], i) by {
      forall p, i | 0 <= p < |r| && 0 <= i < |keys| && i !in r
        ensures Before(keys, r[p], i)
      {
        assert i in all;
        var q :| 0 <= q < |all| && all[q] == i;
        PrefixMember(all, |r|, q);
        assert Before(keys, all[p], all[q]);
      }
    }
    r
  }

  // ---------------------------------------------------------------------------------------
  // Order statistics: what a position in the ranking says about the other keys

  /** The positions of `keys` holding a value above `v`. */
  function Above(keys: seq<real>, v: real): set<nat> {
    set j: nat | j < |keys| && keys[j] > v
  }

  /** The positions of `keys` holding a value below `v`. */
  function Below(keys: seq<real>, v: real): set<nat> {
    set j: nat | j < |keys| && keys[j] < v
  }

  /** `v` is the `k`-th smallest key, counting from 0: it is one of the keys, at most `k`
      keys are smaller and at most `|keys| - 1 - k` are larger. */
  predicate OrderStatistic(keys: seq<real>, k: nat, v: real) {
    k < |keys| && v in keys && |Below(keys, v)| <= k && |Above(keys, v)| <= |keys| - 1 - k
  }

  lemma SubsetCard(a: set<nat>, b: set<nat>)
    requires a <= b
    ensures |a| <= |b|
  {
    assert b == a + (b - a);
  }

  /** The positions `0 .. n-1`. */
  function Indices(n: nat): (s: set<nat>)
    ensures forall j :: j in s <==> 0 <= j < n
    ensures |s| == n
  {
    if n == 0 then {}
    else
      var s := Indices(n - 1);
      assert n - 1 !in s;
      s + {n - 1}
  }

  /** The indices at ranking positions `lo .. hi-1`. */
  function Positions(r: seq<nat>, lo: nat, hi: nat): (s: set<nat>)
    requires lo <= hi <= |r|
    ensures |s| <= hi - lo
    ensures forall q :: lo <= q < hi ==> r[q] in s
    decreases hi - lo
  {
    if lo == hi then {} else {r[lo]} + Positions(r, lo + 1, hi)
  }

  /** The key at position `p` of a full ranking is the `(n-1-p)`-th smallest: every larger
      key is ranked before it and every smaller one after it. */
  lemma {:induction false} RankedOrderStatistic(keys: seq<real>, r: seq<nat>, p: nat)
    requires Ranked(keys, r) && |r| == |keys|
    requires forall i :: 0 <= i < |keys| ==> i in r
    requires p < |r|
    ensures OrderStatistic(keys, |keys| - 1 - p, keys[r[p]])
  {
    var v := keys[r[p]];
    var n := |keys|;
    assert v in keys;
    forall j | j in Above(keys, v)
      ensures j in Positions(r, 0, p)
    {
      assert j < |keys| && j in r;
      var q :| 0 <= q < |r| && r[q] == j;
      assert q < p;
    }
    SubsetCard(Above(keys, v), Positions(r, 0, p));
    forall j | j in Below(keys, v)
      ensures j in Positions(r, p + 1, n)
    {
      assert j < |keys| && j in r;
      var q :| 0 <= q < |r| && r[q] == j;
      assert q > p;
    }
    SubsetCard(Below(keys, v), Positions(r, p + 1, n));
  }

  /** A key above the `k`-th smallest has more than `k` keys below it. */
  lemma {:induction false} AboveOrderStatistic(keys: seq<real>, k: nat, v: real, w: real)
    requires OrderStatistic(keys, k, v) && v < w
    ensures |Below(keys, w)| > k
  {
    var n := |keys|;
    var all := Indices(n);
    SubsetCard(Above(keys, v), all);
    assert all == (all - Above(keys, v)) + Above(keys, v);
    SubsetCard(all - Above(keys, v), Below(keys, w));
  }

  /** The `k`-th smallest key is unique. */
  lemma OrderStatisticUnique(keys: seq<real>, k: nat, v: real, w: real)
    requires OrderStatistic(keys, k, v) && OrderStatistic(keys, k, w)
    ensures v == w
  {
    if v < w {
      AboveOrderStatistic(keys, k, v, w);
    } else if w < v {
      AboveOrderStatistic(keys, k, w, v);
    }
  }

  /** The mean of the `(k-1)`-th and `k`-th smallest keys has at most `k` keys below it and
      at most `|keys| - k` above it. */
  lemma MeanOfMiddles(keys: seq<real>, k: nat, a: real, b: real)
    requires 0 < k && OrderStatistic(keys, k - 1, b) && OrderStatistic(keys, k, a) && b <= a
    ensures |Below(keys, (a + b) / 2.0)| <= k && |Above(keys, (a + b) / 2.0)| <= |keys| - k
  {
    var m := (a + b) / 2.0;
    SubsetCard(Below(keys, m), Below(keys, a));
    SubsetCard(Above(keys, m), Above(keys, b));
  }
}
