/**
 * The generic pairwise clustering routine `cluster_elements` of the wifi
 * locate module: single-linkage clustering of a list of items under a
 * distance threshold.
 *
 * Items are referred to by their index; a cluster is a sequence of indices.
 * The routine computes the full distance matrix once, starts from one
 * singleton cluster per item and repeatedly merges the first pair of
 * clusters (in scan order) whose single-linkage distance is within the
 * threshold, until a full scan finds no such pair.
 */
module Clustering {

  /** Row `y`, column `x` holds the distance from item `x` to item `y`. */
  type Matrix = seq<seq<real>>

  // ---------------------------------------------------------------------
  // The distance matrix and the single-linkage cluster distance
  // ---------------------------------------------------------------------

  /** `[[distance_fn(a, b) for a in items] for b in items]` */
  function DistanceMatrix<T>(items: seq<T>, distanceFn: (T, T) --> real): (m: Matrix)
    requires forall a, b :: a in items && b in items ==> distanceFn.requires(a, b)
    ensures |m| == |items| && Square(m)
    ensures forall x, y :: 0 <= x < |items| && 0 <= y < |items| ==> m[y][x] == distanceFn(items[x], items[y])
  {
    seq(|items|, y requires 0 <= y < |items| =>
      seq(|items|, x requires 0 <= x < |items| => distanceFn(items[x], items[y])))
  }

  ghost predicate Square(m: Matrix)
  {
    forall y :: 0 <= y < |m| ==> |m[y]| == |m|
  }

  /** Every index of every cluster is an item index and no cluster is empty. */
  ghost predicate WellFormed(m: Matrix, clusters: seq<seq<nat>>)
  {
    && Square(m)
    && forall k :: 0 <= k < |clusters| ==> clusters[k] != [] && forall x :: x in clusters[k] ==> x < |m|
  }

  /** The smallest distance `m[x][y]` for `y` in `b`. */
  function MinOverRow(m: Matrix, x: nat, b: seq<nat>): (d: real)
    requires b != [] && x < |m| && forall y :: y in b ==> y < |m[x]|
    ensures forall y :: y in b ==> d <= m[x][y]
    ensures exists y :: y in b && d == m[x][y]
  {
    assert b[0] in b;
    if |b| == 1 then m[x][b[0]]
    else
      assert forall y :: y in b[1..] ==> y in b;
      var rest := MinOverRow(m, x, b[1..]);
      if m[x][b[0]] <= rest then m[x][b[0]] else rest
  }

  /** `cluster_distance(a, b)`: `min([distance_matrix[i][j] for i in a for j in b])`. */
  function ClusterDistance(m: Matrix, a: seq<nat>, b: seq<nat>): (d: real)
    requires a != [] && b != [] && Square(m)
    requires forall x :: x in a ==> x < |m|
    requires forall y :: y in b ==> y < |m|
    ensures forall x, y :: x in a && y in b ==> d <= m[x][y]
    ensures exists x, y :: x in a && y in b && d == m[x][y]
  {
    assert a[0] in a;
    var first := MinOverRow(m, a[0], b);
    if |a| == 1 then first
    else
      assert forall x :: x in a[1..] ==> x in a;
      var rest := ClusterDistance(m, a[1..], b);
      if first <= rest then first else rest
  }

  // ---------------------------------------------------------------------
  // The threshold graph
  // ---------------------------------------------------------------------

  /** Item `y` is within the threshold as seen from row `x` of the matrix. */
  ghost predicate Close(m: Matrix, t: real, x: nat, y: nat)
  {
    x < |m| && y < |m[x]| && m[x][y] <= t
  }

  /** An edge of the (undirected) threshold graph. */
  ghost predicate Adjacent(m: Matrix, t: real, x: nat, y: nat)
  {
    Close(m, t, x, y) || Close(m, t, y, x)
  }

  /** Clusters `a` then `b` pass the merge test: some member pair is within the threshold. */
  ghost predicate Linked(m: Matrix, t: real, a: seq<nat>, b: seq<nat>)
  {
    exists x, y :: x in a && y in b && Close(m, t, x, y)
  }

  ghost predicate IsPath(m: Matrix, t: real, p: seq<nat>)
  {
    |p| > 0 && forall k :: 0 <= k < |p| - 1 ==> Adjacent(m, t, p[k], p[k + 1])
  }

  /** `x` and `y` are joined by a chain of within-threshold links. */
  ghost predicate Reachable(m: Matrix, t: real, x: nat, y: nat)
  {
    exists p :: IsPath(m, t, p) && p[0] == x && p[|p| - 1] == y
  }

  ghost predicate Connected(m: Matrix, t: real, a: seq<nat>)
  {
    forall x, y :: x in a && y in a ==> Reachable(m, t, x, y)
  }

  ghost predicate AllConnected(m: Matrix, t: real, clusters: seq<seq<nat>>)
  {
    forall k :: 0 <= k < |clusters| ==> Connected(m, t, clusters[k])
  }

  /** The loop's exit condition: no ordered pair of distinct clusters passes the merge test. */
  ghost predicate NoLinkedPair(m: Matrix, t: real, clusters: seq<seq<nat>>)
  {
    forall i, j :: 0 <= i < |clusters| && 0 <= j < |clusters| && i != j ==> !Linked(m, t, clusters[i], clusters[j])
  }

  /** No ordered pair scanned before `(i, j)` passes the merge test. */
  ghost predicate NoneBefore(m: Matrix, t: real, clusters: seq<seq<nat>>, i: nat, j: nat)
  {
    forall p, q :: 0 <= p < |clusters| && 0 <= q < |clusters| && p != q && (p < i || (p == i && q < j)) ==>
      !Linked(m, t, clusters[p], clusters[q])
  }

  ghost predicate Symmetric(m: Matrix)
  {
    forall x, y :: 0 <= x < |m| && 0 <= y < |m| && y < |m[x]| && x < |m[y]| ==> m[x][y] == m[y][x]
  }

  /** Every cluster starts with its smallest index, and clusters are ordered by that index. */
  ghost predicate HeadsAscending(clusters: seq<seq<nat>>)
  {
    && (forall k, x :: 0 <= k < |clusters| && x in clusters[k] ==> clusters[k][0] <= x)
    && (forall k, l :: 0 <= k < l < |clusters| && clusters[k] != [] && clusters[l] != [] ==> clusters[k][0] < clusters[l][0])
  }

  // ---------------------------------------------------------------------
  // Partitions of the item indices
  // ---------------------------------------------------------------------

  function Flatten(c: seq<seq<nat>>): seq<nat>
  {
    if c == [] then [] else c[0] + Flatten(c[1..])
  }

  function Range(n: nat): (r: seq<nat>)
    ensures |r| == n && forall i :: 0 <= i < n ==> r[i] == i
  {
    seq(n, i => i)
  }

  /** The clusters are non-empty and together hold every index below `n` exactly once. */
  ghost predicate Partition(clusters: seq<seq<nat>>, n: nat)
  {
    && (forall k :: 0 <= k < |clusters| ==> clusters[k] != [])
    && (forall k, q :: 0 <= k < |clusters| && 0 <= q < |clusters[k]| ==> clusters[k][q] < n)
    && multiset(Flatten(clusters)) == multiset(Range(n))
  }

  /** `[[i] for i in range(n)]` */
  function Singletons(n: nat): (c: seq<seq<nat>>)
    ensures |c| == n && forall i :: 0 <= i < n ==> c[i] == [i]
  {
    seq(n, i => [i])
  }

  /** `clusters.pop(j)` followed by `a.extend(b)` where `a` is `clusters[i]` and `b` is `clusters[j]`. */
  function Merged(clusters: seq<seq<nat>>, i: nat, j: nat): (r: seq<seq<nat>>)
    requires i < |clusters| && j < |clusters| && i != j
    ensures |r| == |clusters| - 1
  {
    var popped := clusters[..j] + clusters[j + 1..];
    var at := if j < i then i - 1 else i;
    popped[at := clusters[i] + clusters[j]]
  }

  /** `[[items[i] for i in c] for c in clusters]` */
  function Gather<T>(items: seq<T>, clusters: seq<seq<nat>>): (r: seq<seq<T>>)
    requires forall k, q :: 0 <= k < |clusters| && 0 <= q < |clusters[k]| ==> clusters[k][q] < |items|
    ensures |r| == |clusters|
    ensures forall k :: 0 <= k < |r| ==> |r[k]| == |clusters[k]| && forall q :: 0 <= q < |r[k]| ==> r[k][q] == items[clusters[k][q]]
  {
    seq(|clusters|, k requires 0 <= k < |clusters| =>
      seq(|clusters[k]|, q requires 0 <= q < |clusters[k]| => items[clusters[k][q]]))
  }

  // ---------------------------------------------------------------------
  // cluster_elements
  // ---------------------------------------------------------------------

  /**
   * Scans the ordered pairs `(i, j)`, `i != j`, of `clusters` row by row and
   * returns the first one whose cluster distance is within the threshold
   * (the two nested `for` loops of `cluster_elements`, which stop at the
   * first merge).
   */
  method FirstMergeablePair(m: Matrix, t: real, clusters: seq<seq<nat>>) returns (found: bool, i: nat, j: nat)
    requires WellFormed(m, clusters)
    ensures found ==> i < |clusters| && j < |clusters| && i != j
    ensures found ==> ClusterDistance(m, clusters[i], clusters[j]) <= t
    ensures found ==> Linked(m, t, clusters[i], clusters[j]) && NoneBefore(m, t, clusters, i, j)
    ensures !found ==> NoLinkedPair(m, t, clusters)
  {
    var n := |clusters|;
    i := 0;
    while i < n
      invariant 0 <= i <= n
      invariant NoneBefore(m, t, clusters, i, 0)
    {
      j := 0;
      while j < n
        invariant 0 <= j <= n
        invariant NoneBefore(m, t, clusters, i, j)
      {
        if i != j {
          var d := ClusterDistance(m, clusters[i], clusters[j]);
          LinkedIffWithin(m, t, clusters[i], clusters[j]);
          if d <= t {
            return true, i, j;
          }
        }
        NoneBeforeNext(m, t, clusters, i, j);
        j := j + 1;
      }
      NoneBeforeNextRow(m, t, clusters, i);
      i := i + 1;
    }
    NoneBeforeAll(m, t, clusters);
    found, i, j := false, 0, 0;
  }

  /** The merge test passes exactly when the cluster distance is within the threshold. */
  lemma LinkedIffWithin(m: Matrix, t: real, a: seq<nat>, b: seq<nat>)
    requires a != [] && b != [] && Square(m)
    requires forall x :: x in a ==> x < |m|
    requires forall y :: y in b ==> y < |m|
    ensures Linked(m, t, a, b) <==> ClusterDistance(m, a, b) <= t
  {
    var d := ClusterDistance(m, a, b);
    if d <= t {
      var x, y :| x in a && y in b && d == m[x][y];
      assert Close(m, t, x, y);
    }
  }

  lemma NoneBeforeNext(m: Matrix, t: real, clusters: seq<seq<nat>>, i: nat, j: nat)
    requires NoneBefore(m, t, clusters, i, j)
    requires i < |clusters| && j < |clusters|
    requires i != j ==> !Linked(m, t, clusters[i], clusters[j])
    ensures NoneBefore(m, t, clusters, i, j + 1)
  {
  }

  lemma NoneBeforeNextRow(m: Matrix, t: real, clusters: seq<seq<nat>>, i: nat)
    requires NoneBefore(m, t, clusters, i, |clusters|)
    ensures NoneBefore(m, t, clusters, i + 1, 0)
  {
  }

  lemma NoneBeforeAll(m: Matrix, t: real, clusters: seq<seq<nat>>)
    requires NoneBefore(m, t, clusters, |clusters|, 0)
    ensures NoLinkedPair(m, t, clusters)
  {
  }

  /**
   * `cluster_elements(items, distance_fn, threshold)`. Besides the clusters of
   * items, it yields the clusters of item indices they are gathered from and,
   * as a ghost result, the number of merges performed.
   */
  method ClusterElements<T>(items: seq<T>, distanceFn: (T, T) --> real, threshold: real)
    returns (result: seq<seq<T>>, clusters: seq<seq<nat>>, ghost merges: nat)
    requires forall a, b :: a in items && b in items ==> distanceFn.requires(a, b)
    ensures Partition(clusters, |items|)
    ensures result == Gather(items, clusters)
    ensures AllConnected(DistanceMatrix(items, distanceFn), threshold, clusters)
    ensures NoLinkedPair(DistanceMatrix(items, distanceFn), threshold, clusters)
    ensures forall k, x, y ::
      (0 <= k < |clusters| && x in clusters[k] && 0 <= y < |items| && distanceFn(items[x], items[y]) <= threshold)
      ==> y in clusters[k]
    ensures Symmetric(DistanceMatrix(items, distanceFn)) ==> HeadsAscending(clusters)
    ensures merges + |clusters| == |items|
  {
    var m := DistanceMatrix(items, distanceFn);
    var cs := Singletons(|items|);
    SingletonsPartition(|items|);
    SingletonsConnected(m, threshold, |items|);
    merges := 0;
    var mergedOne := true;
    while mergedOne
      invariant Partition(cs, |items|)
      invariant AllConnected(m, threshold, cs)
      invariant Symmetric(m) ==> HeadsAscending(cs)
      invariant !mergedOne ==> NoLinkedPair(m, threshold, cs)
      invariant merges + |cs| == |items|
      decreases |cs| + (if mergedOne then 1 else 0)
    {
      var i, j;
      mergedOne, i, j := FirstMergeablePair(m, threshold, cs);
      if mergedOne {
        MergedPartition(cs, |items|, i, j);
        MergedConnected(m, threshold, cs, i, j);
        if Symmetric(m) {
          FirstPairIsForward(m, threshold, cs, i, j);
          MergedHeads(cs, i, j);
        }
        cs := Merged(cs, i, j);
        merges := merges + 1;
      }
    }
    clusters := cs;
    result := Gather(items, cs);
    forall k, x, y | 0 <= k < |cs| && x in cs[k] && 0 <= y < |items| && distanceFn(items[x], items[y]) <= threshold
      ensures y in cs[k]
    {
      assert Close(m, threshold, y, x);
      SameClusterWhenAdjacent(m, threshold, cs, k, x, y);
    }
  }

  // ---------------------------------------------------------------------
  // Lemmas: partitions
  // ---------------------------------------------------------------------

  lemma {:induction false} FlattenConcat(a: seq<seq<nat>>, b: seq<seq<nat>>)
    ensures Flatten(a + b) == Flatten(a) + Flatten(b)
  {
    if a == [] {
      assert a + b == b;
    } else {
      assert (a + b)[0] == a[0];
      assert (a + b)[1..] == a[1..] + b;
      FlattenConcat(a[1..], b);
    }
  }

  lemma FlattenSplit(c: seq<seq<nat>>, k: nat)
    requires k < |c|
    ensures multiset(Flatten(c)) == multiset(Flatten(c[..k])) + multiset(c[k]) + multiset(Flatten(c[k + 1..]))
  {
    assert c == c[..k] + ([c[k]] + c[k + 1..]);
    FlattenConcat(c[..k], [c[k]] + c[k + 1..]);
    assert ([c[k]] + c[k + 1..])[1..] == c[k + 1..];
  }

  lemma MemberInFlatten(c: seq<seq<nat>>, k: nat, x: nat)
    requires k < |c| && x in c[k]
    ensures x in multiset(Flatten(c))
  {
    FlattenSplit(c, k);
  }

  lemma {:induction false} SingletonsFlatten(n: nat)
    ensures Flatten(Singletons(n)) == Range(n)
  {
    if n > 0 {
      SingletonsFlatten(n - 1);
      var last: seq<seq<nat>> := [[n - 1]];
      assert Singletons(n) == Singletons(n - 1) + last;
      FlattenConcat(Singletons(n - 1), last);
      assert Flatten(last) == [n - 1];
      assert Range(n) == Range(n - 1) + [n - 1];
    }
  }

  lemma SingletonsPartition(n: nat)
    ensures Partition(Singletons(n), n)
  {
    SingletonsFlatten(n);
  }

  lemma MergedAt(c: seq<seq<nat>>, i: nat, j: nat, k: nat)
    requires i < |c| && j < |c| && i != j && k < |c| - 1
    ensures Merged(c, i, j)[k] ==
      if k == (if j < i then i - 1 else i) then c[i] + c[j]
      else if k < j then c[k] else c[k + 1]
  {
  }

  lemma PopFlatten(c: seq<seq<nat>>, j: nat)
    requires j < |c|
    ensures multiset(Flatten(c[..j] + c[j + 1..])) + multiset(c[j]) == multiset(Flatten(c))
  {
    FlattenConcat(c[..j], c[j + 1..]);
    FlattenSplit(c, j);
  }

  lemma UpdateFlatten(c: seq<seq<nat>>, k: nat, x: seq<nat>)
    requires k < |c|
    ensures multiset(Flatten(c[k := x])) + multiset(c[k]) == multiset(Flatten(c)) + multiset(x)
  {
    var u := c[k := x];
    FlattenSplit(c, k);
    FlattenSplit(u, k);
    assert u[..k] == c[..k];
    assert u[k + 1..] == c[k + 1..];
  }

  /** Cancelling the two removed clusters: if `u + ci == p + (ci + cj)` and `p + cj == f`, then `u == f`. */
  lemma MultisetCancel(u: multiset<nat>, p: multiset<nat>, f: multiset<nat>, ci: multiset<nat>, cj: multiset<nat>)
    requires u + ci == p + (ci + cj)
    requires p + cj == f
    ensures u == f
  {
    assert forall z :: u[z] == (u + ci)[z] - ci[z];
  }

  lemma MergedIsUpdate(c: seq<seq<nat>>, i: nat, j: nat)
    requires i < |c| && j < |c| && i != j
    ensures var popped := c[..j] + c[j + 1..];
            var at := if j < i then i - 1 else i;
            at < |popped| && popped[at] == c[i] && Merged(c, i, j) == popped[at := c[i] + c[j]]
  {
  }

  lemma MergedFlatten(c: seq<seq<nat>>, i: nat, j: nat)
    requires i < |c| && j < |c| && i != j
    ensures multiset(Flatten(Merged(c, i, j))) == multiset(Flatten(c))
  {
    var popped := c[..j] + c[j + 1..];
    var at := if j < i then i - 1 else i;
    MergedIsUpdate(c, i, j);
    PopFlatten(c, j);
    UpdateFlatten(popped, at, c[i] + c[j]);
    MultisetCancel(multiset(Flatten(Merged(c, i, j))), multiset(Flatten(popped)), multiset(Flatten(c)),
                   multiset(c[i]), multiset(c[j]));
  }

  lemma MergedPartition(c: seq<seq<nat>>, n: nat, i: nat, j: nat)
    requires Partition(c, n) && i < |c| && j < |c| && i != j
    ensures Partition(Merged(c, i, j), n)
  {
    MergedFlatten(c, i, j);
    forall k | 0 <= k < |c| - 1 ensures Merged(c, i, j)[k] != [] {
      MergedAt(c, i, j, k);
    }
  }

  /** Each cluster of a partition of `n` indices is non-empty, so there are at most `n` of them. */
  lemma {:induction false} PartitionSize(clusters: seq<seq<nat>>, n: nat)
    requires Partition(clusters, n)
    ensures |clusters| <= n
    ensures n > 0 ==> |clusters| > 0
  {
    NonEmptyFlattenLength(clusters);
    assert |multiset(Flatten(clusters))| == |Flatten(clusters)|;
    assert |multiset(Range(n))| == n;
  }

  lemma {:induction false} NonEmptyFlattenLength(c: seq<seq<nat>>)
    requires forall k :: 0 <= k < |c| ==> c[k] != []
    ensures |c| <= |Flatten(c)|
    ensures |Flatten(c)| == 0 ==> c == []
  {
    if c != [] {
      NonEmptyFlattenLength(c[1..]);
    }
  }

  lemma {:induction false} RangeCountsOnce(n: nat, x: nat)
    ensures multiset(Range(n))[x] == if x < n then 1 else 0
  {
    if n > 0 {
      assert Range(n) == Range(n - 1) + [n - 1];
      RangeCountsOnce(n - 1, x);
    }
  }

  /** An index of a partition lies in exactly one cluster. */
  lemma PartitionUnique(clusters: seq<seq<nat>>, n: nat, x: nat, k: nat, l: nat)
    requires Partition(clusters, n)
    requires k < |clusters| && l < |clusters| && x in clusters[k] && x in clusters[l]
    ensures k == l
  {
    if k != l {
      var lo, hi := if k < l then k else l, if k < l then l else k;
      FlattenSplit(clusters, lo);
      var tail := clusters[lo + 1..];
      assert tail[hi - lo - 1] == clusters[hi];
      MemberInFlatten(tail, hi - lo - 1, x);
      assert multiset(clusters[lo])[x] >= 1;
      assert multiset(Flatten(tail))[x] >= 1;
      assert multiset(Flatten(clusters))[x] ==
        multiset(Flatten(clusters[..lo]))[x] + multiset(clusters[lo])[x] + multiset(Flatten(tail))[x];
      assert multiset(Flatten(clusters))[x] >= 2;
      RangeCountsOnce(n, x);
      assert false;
    }
  }

  /** Every index below `n` lies in some cluster of a partition of `n`. */
  lemma {:induction false} PartitionCovers(clusters: seq<seq<nat>>, n: nat, x: nat)
    requires Partition(clusters, n) && x < n
    ensures exists k :: 0 <= k < |clusters| && x in clusters[k]
  {
    RangeCountsOnce(n, x);
    InFlattenSomeCluster(clusters, x);
  }

  lemma {:induction false} InFlattenSomeCluster(c: seq<seq<nat>>, x: nat)
    requires x in multiset(Flatten(c))
    ensures exists k :: 0 <= k < |c| && x in c[k]
  {
    if c != [] && x !in c[0] {
      InFlattenSomeCluster(c[1..], x);
      var k :| 0 <= k < |c[1..]| && x in c[1..][k];
      assert x in c[k + 1];
    }
  }

  // ---------------------------------------------------------------------
  // Lemmas: connectivity of each cluster
  // ---------------------------------------------------------------------

  lemma PathJoin(m: Matrix, t: real, p1: seq<nat>, p2: seq<nat>)
    requires IsPath(m, t, p1) && IsPath(m, t, p2)
    requires Adjacent(m, t, p1[|p1| - 1], p2[0])
    ensures IsPath(m, t, p1 + p2)
  {
    var p := p1 + p2;
    forall k | 0 <= k < |p| - 1 ensures Adjacent(m, t, p[k], p[k + 1]) {
      if k < |p1| - 1 {
        assert p[k] == p1[k] && p[k + 1] == p1[k + 1];
      } else if k == |p1| - 1 {
        assert p[k] == p1[k] && p[k + 1] == p2[0];
      } else {
        assert p[k] == p2[k - |p1|] && p[k + 1] == p2[k - |p1| + 1];
      }
    }
  }

  lemma ReachableJoin(m: Matrix, t: real, x: nat, u: nat, v: nat, y: nat)
    requires Reachable(m, t, x, u) && Adjacent(m, t, u, v) && Reachable(m, t, v, y)
    ensures Reachable(m, t, x, y)
  {
    var p1 :| IsPath(m, t, p1) && p1[0] == x && p1[|p1| - 1] == u;
    var p2 :| IsPath(m, t, p2) && p2[0] == v && p2[|p2| - 1] == y;
    PathJoin(m, t, p1, p2);
    var p := p1 + p2;
    assert p[0] == x && p[|p| - 1] == y;
  }

  lemma SingletonsConnected(m: Matrix, t: real, n: nat)
    ensures AllConnected(m, t, Singletons(n))
  {
    forall k, x, y | 0 <= k < n && x in Singletons(n)[k] && y in Singletons(n)[k]
      ensures Reachable(m, t, x, y)
    {
      assert x == y == k;
      assert IsPath(m, t, [x]);
    }
  }

  /** Joining two connected clusters that pass the merge test yields a connected cluster. */
  lemma UnionConnected(m: Matrix, t: real, a: seq<nat>, b: seq<nat>)
    requires Connected(m, t, a) && Connected(m, t, b) && Linked(m, t, a, b)
    ensures Connected(m, t, a + b)
  {
    var u, v :| u in a && v in b && Close(m, t, u, v);
    forall x, y | x in a + b && y in a + b ensures Reachable(m, t, x, y) {
      if x in a && y in b {
        ReachableJoin(m, t, x, u, v, y);
      } else if x in b && y in a {
        ReachableJoin(m, t, x, v, u, y);
      }
    }
  }

  lemma MergedConnected(m: Matrix, t: real, c: seq<seq<nat>>, i: nat, j: nat)
    requires i < |c| && j < |c| && i != j
    requires AllConnected(m, t, c) && Linked(m, t, c[i], c[j])
    ensures AllConnected(m, t, Merged(c, i, j))
  {
    UnionConnected(m, t, c[i], c[j]);
    forall k | 0 <= k < |c| - 1 ensures Connected(m, t, Merged(c, i, j)[k]) {
      MergedAt(c, i, j, k);
    }
  }

  // ---------------------------------------------------------------------
  // Lemmas: cluster heads under a symmetric distance
  // ---------------------------------------------------------------------

  lemma LinkedSymmetric(m: Matrix, t: real, a: seq<nat>, b: seq<nat>)
    requires Square(m) && Symmetric(m) && Linked(m, t, a, b)
    ensures Linked(m, t, b, a)
  {
    var x, y :| x in a && y in b && Close(m, t, x, y);
    assert Close(m, t, y, x);
  }

  /** Under a symmetric distance the first mergeable pair found has `i < j`. */
  lemma FirstPairIsForward(m: Matrix, t: real, c: seq<seq<nat>>, i: nat, j: nat)
    requires Square(m) && Symmetric(m)
    requires i < |c| && j < |c| && i != j
    requires Linked(m, t, c[i], c[j]) && NoneBefore(m, t, c, i, j)
    ensures i < j
  {
    LinkedSymmetric(m, t, c[i], c[j]);
  }

  lemma MergedHeads(c: seq<seq<nat>>, i: nat, j: nat)
    requires i < j < |c| && HeadsAscending(c)
    requires forall k :: 0 <= k < |c| ==> c[k] != []
    ensures HeadsAscending(Merged(c, i, j))
  {
    var r := Merged(c, i, j);
    forall k | 0 <= k < |r| ensures r[k] != [] && r[k][0] == (if k < j then c[k][0] else c[k + 1][0]) {
      MergedAt(c, i, j, k);
    }
    forall k, x | 0 <= k < |r| && x in r[k] ensures r[k][0] <= x {
      MergedAt(c, i, j, k);
      if k == i {
        assert x in c[i] || x in c[j];
        assert c[i][0] < c[j][0];
      }
    }
    forall k, l | 0 <= k < l < |r| && r[k] != [] && r[l] != [] ensures r[k][0] < r[l][0] {
      var k', l' := if k < j then k else k + 1, if l < j then l else l + 1;
      assert k' < l';
      assert c[k'] != [] && c[l'] != [];
    }
  }

  // ---------------------------------------------------------------------
  // Lemmas: what the final clusters are
  // ---------------------------------------------------------------------

  /** Two items joined by an edge of the threshold graph share a final cluster. */
  lemma SameClusterWhenAdjacent(m: Matrix, t: real, c: seq<seq<nat>>, k: nat, x: nat, y: nat)
    requires Square(m) && Partition(c, |m|) && NoLinkedPair(m, t, c)
    requires k < |c| && x in c[k] && Adjacent(m, t, x, y)
    ensures y in c[k]
  {
    PartitionCovers(c, |m|, y);
    var l :| 0 <= l < |c| && y in c[l];
    if l != k {
      if Close(m, t, x, y) {
        assert Linked(m, t, c[k], c[l]);
      } else {
        assert Linked(m, t, c[l], c[k]);
      }
    }
  }

  lemma {:induction false} PathStaysInCluster(m: Matrix, t: real, c: seq<seq<nat>>, k: nat, p: seq<nat>)
    requires Square(m) && Partition(c, |m|) && NoLinkedPair(m, t, c)
    requires k < |c| && IsPath(m, t, p) && p[0] in c[k]
    ensures p[|p| - 1] in c[k]
    decreases |p|
  {
    if |p| > 1 {
      SameClusterWhenAdjacent(m, t, c, k, p[0], p[1]);
      var rest := p[1..];
      assert IsPath(m, t, rest) by {
        forall q | 0 <= q < |rest| - 1 ensures Adjacent(m, t, rest[q], rest[q + 1]) {
          assert rest[q] == p[q + 1] && rest[q + 1] == p[q + 2];
        }
      }
      PathStaysInCluster(m, t, c, k, rest);
    }
  }

  /**
   * The final clusters are exactly the connected components of the threshold
   * graph: an item shares the cluster of `x` iff a chain of within-threshold
   * links joins it to `x`.
   */
  lemma ClustersAreComponents(m: Matrix, t: real, c: seq<seq<nat>>, k: nat, x: nat, y: nat)
    requires Square(m) && Partition(c, |m|) && AllConnected(m, t, c) && NoLinkedPair(m, t, c)
    requires k < |c| && x in c[k] && y < |m|
    ensures y in c[k] <==> Reachable(m, t, x, y)
  {
    if Reachable(m, t, x, y) {
      var p :| IsPath(m, t, p) && p[0] == x && p[|p| - 1] == y;
      PathStaysInCluster(m, t, c, k, p);
    }
  }

  /** At termination no two distinct clusters are within the threshold of each other. */
  lemma NoMergeableDistance(m: Matrix, t: real, c: seq<seq<nat>>, i: nat, j: nat)
    requires WellFormed(m, c) && NoLinkedPair(m, t, c)
    requires i < |c| && j < |c| && i != j
    ensures ClusterDistance(m, c[i], c[j]) > t
  {
    var d := ClusterDistance(m, c[i], c[j]);
    if d <= t {
      var x, y :| x in c[i] && y in c[j] && d == m[x][y];
      assert Close(m, t, x, y);
      assert Linked(m, t, c[i], c[j]);
    }
  }
}
