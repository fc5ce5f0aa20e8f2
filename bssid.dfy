/**
 * The BSSID near-duplicate filter of the wifi locator: a BSSID is a hex string,
 * two BSSIDs differ by the sum, over their aligned bytes, of the smaller of the
 * arithmetic difference and the Hamming distance of each byte pair, and the
 * filter keeps one BSSID out of every single-linkage cluster of that difference.
 */
module BssidFilter {
  import opened Clustering

  /** Python's `distance_threshold=2` default of the filter. */
  const DefaultThreshold: nat := 2

  /** A decoded byte, as the Python integer `int(chunk, 16)` of a chunk of at most two digits. */
  type Byte = x: nat | x < 256

  // ---------------------------------------------------------------------------
  // Hex decoding (`bytes_of_hex_string`)
  // ---------------------------------------------------------------------------

  predicate IsHexDigit(c: char)
  {
    ('0' <= c <= '9') || ('a' <= c <= 'f') || ('A' <= c <= 'F')
  }

  predicate IsHex(s: string)
  {
    forall i :: 0 <= i < |s| ==> IsHexDigit(s[i])
  }

  /** The value of one hex digit, either case, as `int(c, 16)` reads it. */
  function HexVal(c: char): (v: nat)
    requires IsHexDigit(c)
    ensures v < 16
  {
    if '0' <= c <= '9' then (c as int - '0' as int)
    else if 'a' <= c <= 'f' then (c as int - 'a' as int) + 10
    else (c as int - 'A' as int) + 10
  }

  /** The lower-case digit for a value below 16. */
  function HexDigit(v: nat): (c: char)
    requires v < 16
    ensures IsHexDigit(c) && HexVal(c) == v
  {
    if v < 10 then ('0' as int + v) as char else ('a' as int + v - 10) as char
  }

  /**
   * The string read two characters at a time, each chunk as a base-16 number;
   * an odd-length string ends in a one-character chunk.
   */
  function BytesOfHex(hs: string): (r: seq<Byte>)
    requires IsHex(hs)
    ensures |r| == (|hs| + 1) / 2
  {
    if |hs| == 0 then []
    else if |hs| == 1 then [HexVal(hs[0])]
    else [HexVal(hs[0]) * 16 + HexVal(hs[1])] + BytesOfHex(hs[2..])
  }

  /** The chunk value `int(hs[2k:2k+2], 16)` behind each decoded byte. */
  lemma {:induction false} BytesOfHexChunks(hs: string, k: nat)
    requires IsHex(hs) && k < (|hs| + 1) / 2
    ensures 2 * k + 1 < |hs| ==> BytesOfHex(hs)[k] == HexVal(hs[2 * k]) * 16 + HexVal(hs[2 * k + 1])
    ensures 2 * k + 1 == |hs| ==> BytesOfHex(hs)[k] == HexVal(hs[2 * k])
    decreases k
  {
    if k > 0 {
      var rest := hs[2..];
      BytesOfHexChunks(rest, k - 1);
      assert BytesOfHex(hs)[k] == BytesOfHex(rest)[k - 1];
      assert rest[2 * (k - 1)] == hs[2 * k];
      assert 2 * (k - 1) + 1 < |rest| ==> rest[2 * (k - 1) + 1] == hs[2 * k + 1];
    }
  }

  /** Two lower-case hex digits per byte: the inverse of `BytesOfHex` on bytes. */
  function ToHex(bytes: seq<Byte>): (s: string)
    ensures IsHex(s) && |s| == 2 * |bytes|
  {
    if bytes == [] then []
    else [HexDigit(bytes[0] / 16), HexDigit(bytes[0] % 16)] + ToHex(bytes[1..])
  }

  lemma {:induction false} BytesOfHexToHex(bytes: seq<Byte>)
    ensures BytesOfHex(ToHex(bytes)) == bytes
  {
    if bytes != [] {
      var s := ToHex(bytes);
      assert s[2..] == ToHex(bytes[1..]);
      BytesOfHexToHex(bytes[1..]);
    }
  }

  /** Decoding an even-length prefix is decoding its chunks first. */
  lemma {:induction false} BytesOfHexConcat(a: string, s: string)
    requires IsHex(a) && IsHex(s) && |a| % 2 == 0
    ensures IsHex(a + s) && BytesOfHex(a + s) == BytesOfHex(a) + BytesOfHex(s)
  {
    assert IsHex(a + s) by {
      forall i | 0 <= i < |a + s| ensures IsHexDigit((a + s)[i]) {
        if i < |a| { assert (a + s)[i] == a[i]; } else { assert (a + s)[i] == s[i - |a|]; }
      }
    }
    if |a| > 0 {
      assert (a + s)[2..] == a[2..] + s;
      BytesOfHexConcat(a[2..], s);
    } else {
      assert a + s == s;
    }
  }

  // ---------------------------------------------------------------------------
  // Hamming distance (`hamming_distance`)
  // ---------------------------------------------------------------------------

  /** Python's `&` on non-negative integers, bit by bit from the lowest. */
  function And(a: nat, b: nat): nat
    decreases a
  {
    if a == 0 || b == 0 then 0 else (a % 2) * (b % 2) + 2 * And(a / 2, b / 2)
  }

  /** Python's `^` on non-negative integers, bit by bit from the lowest. */
  function Xor(a: nat, b: nat): nat
    decreases a + b
  {
    if a == 0 && b == 0 then 0 else (if a % 2 == b % 2 then 0 else 1) + 2 * Xor(a / 2, b / 2)
  }

  /** The number of set bits. */
  function PopCount(v: nat): nat
  {
    if v == 0 then 0 else v % 2 + PopCount(v / 2)
  }

  function Pow2(n: nat): (p: nat)
    ensures p >= 1
  {
    if n == 0 then 1 else 2 * Pow2(n - 1)
  }

  lemma {:induction false} AndSelf(x: nat)
    ensures And(x, x) == x
  {
    if x != 0 {
      AndSelf(x / 2);
    }
  }

  lemma PopCountDouble(w: nat)
    ensures PopCount(2 * w) == PopCount(w)
  {
    if w != 0 {
      assert (2 * w) / 2 == w;
    }
  }

  /** For odd `v`, `v & (v - 1)` is `v` with its lowest bit cleared. */
  lemma ClearOddBit(v: nat)
    requires v % 2 == 1
    ensures And(v, v - 1) == v - 1
  {
    if v > 1 {
      AndSelf(v / 2);
      assert (v - 1) / 2 == v / 2 && (v - 1) % 2 == 0;
    }
  }

  /** `v & (v - 1)` clears exactly one set bit, the lowest. */
  lemma {:induction false} ClearLowestBit(v: nat)
    requires v != 0
    ensures PopCount(And(v, v - 1)) == PopCount(v) - 1
  {
    if v % 2 == 1 {
      ClearOddBit(v);
      if v > 1 {
        assert (v - 1) / 2 == v / 2 && (v - 1) % 2 == 0;
      }
    } else {
      var w := v / 2;
      ClearLowestBit(w);
      assert (v - 1) / 2 == w - 1 && (v - 1) % 2 == 1;
      assert And(v, v - 1) == 2 * And(w, w - 1);
      PopCountDouble(And(w, w - 1));
    }
  }

  /** `a ^ b` is zero exactly when `a == b`, and stays below the power of two both are below. */
  lemma {:induction false} XorProperties(a: nat, b: nat, n: nat)
    ensures Xor(a, b) == Xor(b, a)
    ensures Xor(a, b) == 0 <==> a == b
    ensures a < Pow2(n) && b < Pow2(n) ==> Xor(a, b) < Pow2(n)
    decreases a + b
  {
    if a != 0 || b != 0 {
      XorProperties(a / 2, b / 2, if n == 0 then 0 else n - 1);
    }
  }

  lemma {:induction false} PopCountBound(v: nat, n: nat)
    requires v < Pow2(n)
    ensures PopCount(v) <= n
  {
    if v != 0 {
      PopCountBound(v / 2, n - 1);
    }
  }

  /** The number of bits in which two bytes differ: the set bits of `a ^ b`. */
  function Hamming(a: Byte, b: Byte): nat
  {
    PopCount(Xor(a, b))
  }

  lemma HammingProperties(a: Byte, b: Byte)
    ensures Hamming(a, b) == Hamming(b, a)
    ensures Hamming(a, b) <= 8
    ensures Hamming(a, b) == 0 <==> a == b
  {
    assert Pow2(8) == 256;
    XorProperties(a, b, 8);
    PopCountBound(Xor(a, b), 8);
    if Xor(a, b) != 0 {
      assert PopCount(Xor(a, b)) > 0 by { PopCountPositive(Xor(a, b)); }
    }
  }

  lemma {:induction false} PopCountPositive(v: nat)
    requires v != 0
    ensures PopCount(v) > 0
  {
    if v % 2 == 0 {
      PopCountPositive(v / 2);
    }
  }

  /**
   * `hamming_distance`: counts the set bits of `a ^ b` by clearing the lowest
   * set bit until none is left.
   */
  method HammingDistance(a: Byte, b: Byte) returns (h: nat)
    ensures h == Hamming(a, b)
    ensures h <= 8
    ensures h == 0 <==> a == b
  {
    h := 0;
    var v := Xor(a, b);
    while v != 0
      invariant h + PopCount(v) == Hamming(a, b)
      decreases PopCount(v)
    {
      ClearLowestBit(v);
      h := h + 1;
      v := And(v, v - 1);
    }
    HammingProperties(a, b);
  }

  // ---------------------------------------------------------------------------
  // Per-byte and per-BSSID difference
  // ---------------------------------------------------------------------------

  function Abs(x: int): nat
  {
    if x < 0 then -x else x
  }

  /** The smaller of the arithmetic difference and the Hamming distance of two bytes. */
  function ByteDifference(a: Byte, b: Byte): (d: nat)
    ensures d <= Abs(a - b) && d <= Hamming(a, b)
    ensures d == Abs(a - b) || d == Hamming(a, b)
  {
    var arithmetic := Abs(a - b);
    var hamming := Hamming(a, b);
    if arithmetic < hamming then arithmetic else hamming
  }

  lemma ByteDifferenceProperties(a: Byte, b: Byte)
    ensures ByteDifference(a, b) == ByteDifference(b, a)
    ensures ByteDifference(a, b) <= 8
    ensures ByteDifference(a, b) == 0 <==> a == b
  {
    HammingProperties(a, b);
  }

  /** The sum of byte differences over aligned pairs; the longer input's tail is not read. */
  function ZipDifference(x: seq<Byte>, y: seq<Byte>): nat
  {
    if x == [] || y == [] then 0
    else ByteDifference(x[0], y[0]) + ZipDifference(x[1..], y[1..])
  }

  function Min(a: nat, b: nat): nat
  {
    if a < b then a else b
  }

  lemma {:induction false} ZipSymmetric(x: seq<Byte>, y: seq<Byte>)
    ensures ZipDifference(x, y) == ZipDifference(y, x)
  {
    if x != [] && y != [] {
      ByteDifferenceProperties(x[0], y[0]);
      ZipSymmetric(x[1..], y[1..]);
    }
  }

  lemma {:induction false} ZipBound(x: seq<Byte>, y: seq<Byte>)
    ensures ZipDifference(x, y) <= 8 * Min(|x|, |y|)
  {
    if x != [] && y != [] {
      ByteDifferenceProperties(x[0], y[0]);
      ZipBound(x[1..], y[1..]);
    }
  }

  /** The difference is zero exactly when the aligned bytes agree. */
  lemma {:induction false} ZipZero(x: seq<Byte>, y: seq<Byte>)
    ensures ZipDifference(x, y) == 0 <==> forall i :: 0 <= i < Min(|x|, |y|) ==> x[i] == y[i]
  {
    if x != [] && y != [] {
      ByteDifferenceProperties(x[0], y[0]);
      ZipZero(x[1..], y[1..]);
      if ZipDifference(x, y) == 0 {
        forall i | 0 <= i < Min(|x|, |y|) ensures x[i] == y[i] {
          if i > 0 { assert x[i] == x[1..][i - 1] && y[i] == y[1..][i - 1]; }
        }
      } else if x[0] == y[0] {
        var i :| 0 <= i < Min(|x| - 1, |y| - 1) && x[1..][i] != y[1..][i];
        assert x[i + 1] != y[i + 1];
      }
    }
  }

  /** Bytes past the end of the shorter input do not count. */
  lemma {:induction false} ZipIgnoresTail(x: seq<Byte>, y: seq<Byte>, tail: seq<Byte>)
    requires |x| >= |y|
    ensures ZipDifference(x + tail, y) == ZipDifference(x, y)
  {
    if y != [] {
      assert (x + tail)[1..] == x[1..] + tail;
      ZipIgnoresTail(x[1..], y[1..], tail);
    }
  }

  /** `bssid_difference`: the summed byte difference of two decoded BSSIDs. */
  function BssidDifference(a: string, b: string): nat
    requires IsHex(a) && IsHex(b)
  {
    ZipDifference(BytesOfHex(a), BytesOfHex(b))
  }

  lemma BssidDifferenceProperties(a: string, b: string)
    requires IsHex(a) && IsHex(b)
    ensures BssidDifference(a, b) == BssidDifference(b, a)
    ensures BssidDifference(a, a) == 0
    ensures BssidDifference(a, b) <= 8 * Min((|a| + 1) / 2, (|b| + 1) / 2)
  {
    ZipSymmetric(BytesOfHex(a), BytesOfHex(b));
    ZipZero(BytesOfHex(a), BytesOfHex(a));
    ZipBound(BytesOfHex(a), BytesOfHex(b));
  }

  /** Hex characters appended after an even-length BSSID at least as long as the other do not count. */
  lemma BssidIgnoresTrailing(a: string, s: string, b: string)
    requires IsHex(a) && IsHex(s) && IsHex(b)
    requires |a| % 2 == 0 && |a| >= |b|
    ensures IsHex(a + s) && BssidDifference(a + s, b) == BssidDifference(a, b)
  {
    BytesOfHexConcat(a, s);
    ZipIgnoresTail(BytesOfHex(a), BytesOfHex(b), BytesOfHex(s));
  }

  // ---------------------------------------------------------------------------
  // The filter (`filter_bssids_by_similarity`)
  // ---------------------------------------------------------------------------

  /** `bssid_difference` as the distance function handed to `cluster_elements`. */
  function BssidDistance(a: string, b: string): real
    requires IsHex(a) && IsHex(b)
  {
    BssidDifference(a, b) as real
  }

  /** The distance matrix `cluster_elements` builds over the BSSIDs. */
  function BssidMatrix(bssids: seq<string>): (m: Matrix)
    requires forall b :: b in bssids ==> IsHex(b)
    ensures |m| == |bssids| && Square(m)
    ensures forall x, y :: 0 <= x < |bssids| && 0 <= y < |bssids| ==>
      m[y][x] == BssidDifference(bssids[x], bssids[y]) as real
  {
    DistanceMatrix(bssids, BssidDistance)
  }

  /** The BSSID distance matrix is symmetric. */
  lemma DifferenceMatrixSymmetric(bssids: seq<string>)
    requires forall b :: b in bssids ==> IsHex(b)
    ensures Symmetric(BssidMatrix(bssids))
  {
    var m := BssidMatrix(bssids);
    forall x, y | 0 <= x < |m| && 0 <= y < |m| && y < |m[x]| && x < |m[y]|
      ensures m[x][y] == m[y][x]
    {
      BssidDifferenceProperties(bssids[x], bssids[y]);
    }
  }

  /**
   * `clusters` is the single-linkage clustering of the BSSIDs under `t`: a
   * partition into groups chained by within-`t` differences, no two groups
   * linked, each group led by its first BSSID and the groups in order of those.
   */
  ghost predicate SingleLinkage(bssids: seq<string>, clusters: seq<seq<nat>>, t: nat)
    requires forall b :: b in bssids ==> IsHex(b)
  {
    && Partition(clusters, |bssids|)
    && HeadsAscending(clusters)
    && AllConnected(BssidMatrix(bssids), t as real, clusters)
    && NoLinkedPair(BssidMatrix(bssids), t as real, clusters)
  }

  /** Every BSSID within the threshold of a cluster member is in that cluster. */
  ghost predicate LinkageClosed(bssids: seq<string>, clusters: seq<seq<nat>>, t: nat)
    requires forall b :: b in bssids ==> IsHex(b)
  {
    forall k, x, y ::
      (0 <= k < |clusters| && x in clusters[k] && 0 <= y < |bssids| && x < |bssids| &&
       BssidDifference(bssids[x], bssids[y]) <= t)
      ==> y in clusters[k]
  }

  /** The first members of two different clusters of a closed partition are more than `t` apart. */
  lemma HeadsSeparated(bssids: seq<string>, clusters: seq<seq<nat>>, t: nat, k: nat, l: nat)
    requires forall b :: b in bssids ==> IsHex(b)
    requires Partition(clusters, |bssids|) && LinkageClosed(bssids, clusters, t)
    requires k < |clusters| && l < |clusters| && k != l
    ensures BssidDifference(bssids[clusters[k][0]], bssids[clusters[l][0]]) > t
  {
    var x, y := clusters[k][0], clusters[l][0];
    if BssidDifference(bssids[x], bssids[y]) <= t {
      assert x in clusters[k];
      assert y in clusters[l];
      PartitionUnique(clusters, |bssids|, y, k, l);
      assert false;
    }
  }

  /**
   * The first member of a cluster whose members all follow it is more than `t`
   * away from every earlier BSSID: it is the first occurrence of its neighbourhood.
   */
  lemma HeadIsFirst(bssids: seq<string>, clusters: seq<seq<nat>>, t: nat, k: nat, j: nat)
    requires forall b :: b in bssids ==> IsHex(b)
    requires Partition(clusters, |bssids|) && LinkageClosed(bssids, clusters, t) && HeadsAscending(clusters)
    requires k < |clusters| && j < clusters[k][0]
    ensures BssidDifference(bssids[j], bssids[clusters[k][0]]) > t
  {
    var head := clusters[k][0];
    assert head in clusters[k];
    PartitionCovers(clusters, |bssids|, j);
    var l :| 0 <= l < |clusters| && j in clusters[l];
    if BssidDifference(bssids[j], bssids[head]) <= t {
      PartitionUnique(clusters, |bssids|, head, k, l);
      assert false;
    }
  }

  /** `cluster_elements` applied to the BSSIDs with `BssidDifference` as the distance. */
  method ClusterBssids(bssids: seq<string>, distanceThreshold: nat)
    returns (grouped: seq<seq<string>>, clusters: seq<seq<nat>>)
    requires forall b :: b in bssids ==> IsHex(b)
    ensures SingleLinkage(bssids, clusters, distanceThreshold)
    ensures grouped == Gather(bssids, clusters)
    ensures LinkageClosed(bssids, clusters, distanceThreshold)
  {
    ghost var merges;
    grouped, clusters, merges := ClusterElements(bssids, BssidDistance, distanceThreshold as real);
    DifferenceMatrixSymmetric(bssids);
  }

  /** `kept` holds the first member of each cluster, in cluster order. */
  ghost predicate KeepsHeads(bssids: seq<string>, clusters: seq<seq<nat>>, kept: seq<string>)
  {
    |kept| == |clusters| &&
    forall k :: 0 <= k < |kept| ==>
      |clusters[k]| > 0 && clusters[k][0] < |bssids| && kept[k] == bssids[clusters[k][0]]
  }

  /** The kept BSSIDs are pairwise more than `t` apart. */
  lemma KeptSeparated(bssids: seq<string>, clusters: seq<seq<nat>>, t: nat, kept: seq<string>)
    requires forall b :: b in bssids ==> IsHex(b)
    requires Partition(clusters, |bssids|) && LinkageClosed(bssids, clusters, t)
    requires KeepsHeads(bssids, clusters, kept)
    ensures forall k, l :: 0 <= k < |kept| && 0 <= l < |kept| && k != l ==> BssidDifference(kept[k], kept[l]) > t
  {
    forall k, l | 0 <= k < |kept| && 0 <= l < |kept| && k != l
      ensures BssidDifference(kept[k], kept[l]) > t
    {
      HeadsSeparated(bssids, clusters, t, k, l);
    }
  }

  /** Each kept BSSID is more than `t` away from every BSSID before it in the input. */
  lemma KeptFirst(bssids: seq<string>, clusters: seq<seq<nat>>, t: nat, kept: seq<string>)
    requires forall b :: b in bssids ==> IsHex(b)
    requires Partition(clusters, |bssids|) && LinkageClosed(bssids, clusters, t) && HeadsAscending(clusters)
    requires KeepsHeads(bssids, clusters, kept)
    ensures forall k, j :: 0 <= k < |kept| && 0 <= j < clusters[k][0] ==> BssidDifference(bssids[j], kept[k]) > t
  {
    forall k, j | 0 <= k < |kept| && 0 <= j < clusters[k][0]
      ensures BssidDifference(bssids[j], kept[k]) > t
    {
      HeadIsFirst(bssids, clusters, t, k, j);
    }
  }

  /**
   * Clusters the BSSIDs by `BssidDifference` with the given threshold and keeps
   * the first member of each cluster.
   */
  method FilterBssidsBySimilarity(bssids: seq<string>, distanceThreshold: nat)
    returns (kept: seq<string>, clusters: seq<seq<nat>>)
    requires forall b :: b in bssids ==> IsHex(b)
    ensures SingleLinkage(bssids, clusters, distanceThreshold)
    ensures KeepsHeads(bssids, clusters, kept)
    ensures |kept| <= |bssids|
    ensures bssids != [] ==> kept != []
    ensures forall k, l :: 0 <= k < |kept| && 0 <= l < |kept| && k != l ==>
      BssidDifference(kept[k], kept[l]) > distanceThreshold
    ensures forall k, j :: 0 <= k < |kept| && 0 <= j < clusters[k][0] ==>
      BssidDifference(bssids[j], kept[k]) > distanceThreshold
    ensures LinkageClosed(bssids, clusters, distanceThreshold)
  {
    var grouped;
    grouped, clusters := ClusterBssids(bssids, distanceThreshold);
    PartitionSize(clusters, |bssids|);
    kept := seq(|grouped|, k requires 0 <= k < |grouped| => grouped[k][0]);
    assert KeepsHeads(bssids, clusters, kept);
    KeptSeparated(bssids, clusters, distanceThreshold, kept);
    KeptFirst(bssids, clusters, distanceThreshold, kept);
  }

  /**
   * The filter's clusters are the connected components of the BSSIDs under the
   * threshold: a BSSID is in the cluster of a kept one exactly when a chain of
   * within-threshold differences joins them.
   */
  lemma FilterComponents(bssids: seq<string>, clusters: seq<seq<nat>>, t: nat, k: nat, j: nat)
    requires forall b :: b in bssids ==> IsHex(b)
    requires SingleLinkage(bssids, clusters, t)
    requires k < |clusters| && j < |bssids|
    ensures clusters[k] != [] && (j in clusters[k] <==> Reachable(BssidMatrix(bssids), t as real, clusters[k][0], j))
  {
    assert clusters[k][0] in clusters[k];
    ClustersAreComponents(BssidMatrix(bssids), t as real, clusters, k, clusters[k][0], j);
  }

  /** Every BSSID is joined by a chain of within-threshold differences to some kept BSSID. */
  lemma KeptCoversAll(bssids: seq<string>, clusters: seq<seq<nat>>, t: nat, kept: seq<string>, j: nat)
    requires forall b :: b in bssids ==> IsHex(b)
    requires SingleLinkage(bssids, clusters, t) && KeepsHeads(bssids, clusters, kept)
    requires j < |bssids|
    ensures exists k :: 0 <= k < |kept| && Reachable(BssidMatrix(bssids), t as real, clusters[k][0], j)
  {
    PartitionCovers(clusters, |bssids|, j);
    var k :| 0 <= k < |clusters| && j in clusters[k];
    assert clusters[k][0] in clusters[k];
    assert Connected(BssidMatrix(bssids), t as real, clusters[k]);
  }

  // ---------------------------------------------------------------------------
  // A worked pair: two interfaces of one access point
  // ---------------------------------------------------------------------------

  /** 0xBB and 0xBD differ in two bits and are 2 apart, so their byte difference is 2. */
  lemma FixtureLastByte()
    ensures Hamming(187, 189) == 2 && ByteDifference(187, 189) == 2
  {
    assert Xor(187, 189) == 6 by {
      assert Xor(5, 5) == 0;
      assert Xor(11, 11) == 0;
      assert Xor(23, 23) == 0;
      assert Xor(46, 47) == 1;
      assert Xor(93, 94) == 3;
    }
    assert PopCount(6) == 2 by {
      assert PopCount(3) == 2;
    }
  }

  /** The two fixture BSSIDs decode to three bytes each, differing in the last. */
  lemma FixtureBytes()
    ensures IsHex("AA00BB") && IsHex("AA00BD")
    ensures BytesOfHex("AA00BB") == [170, 0, 187] && BytesOfHex("AA00BD") == [170, 0, 189]
  {
    assert IsHex("AA00BB") && IsHex("AA00BD");
    assert "AA00BB"[2..] == "00BB" && "00BB"[2..] == "BB" && "BB"[2..] == "";
    assert "AA00BD"[2..] == "00BD" && "00BD"[2..] == "BD" && "BD"[2..] == "";
  }

  /**
   * "AA00BB" and "AA00BD" differ only in the last byte: 0xBB and 0xBD are 2
   * apart arithmetically and differ in 2 bits, so the BSSIDs are 2 apart.
   */
  lemma FixtureDifference()
    ensures IsHex("AA00BB") && IsHex("AA00BD")
    ensures BssidDifference("AA00BB", "AA00BD") == 2
  {
    FixtureBytes();
    FixtureLastByte();
    ByteDifferenceProperties(170, 170);
    ByteDifferenceProperties(0, 0);
    assert ZipDifference([187], [189]) == 2;
    assert ZipDifference([0, 187], [0, 189]) == 2;
  }

  /**
   * Two BSSIDs within the threshold of each other form one cluster led by the
   * first, and the similarity filter keeps the first alone.
   */
  lemma SimilarPair(bssids: seq<string>, t: nat, clusters: seq<seq<nat>>, kept: seq<string>)
    requires forall b :: b in bssids ==> IsHex(b)
    requires |bssids| == 2 && BssidDifference(bssids[0], bssids[1]) <= t
    requires SingleLinkage(bssids, clusters, t) && KeepsHeads(bssids, clusters, kept)
    ensures |clusters| == 1 && clusters[0][0] == 0 && 1 in clusters[0]
    ensures kept == [bssids[0]]
  {
    var m := BssidMatrix(bssids);
    assert Adjacent(m, t as real, 0, 1);
    PartitionCovers(clusters, 2, 0);
    var k :| 0 <= k < |clusters| && 0 in clusters[k];
    SameClusterWhenAdjacent(m, t as real, clusters, k, 0, 1);
    if |clusters| > 1 {
      var l := if k == 0 then 1 else 0;
      var x := clusters[l][0];
      assert x in clusters[l] && x in clusters[k];
      PartitionUnique(clusters, 2, x, l, k);
    }
  }

  /**
   * "AA00BB" and "AA00BD" are within the default threshold of each other, so
   * they form one cluster and the similarity filter keeps "AA00BB" alone.
   */
  lemma FilterExample(clusters: seq<seq<nat>>, kept: seq<string>)
    requires forall b :: b in ["AA00BB", "AA00BD"] ==> IsHex(b)
    requires SingleLinkage(["AA00BB", "AA00BD"], clusters, DefaultThreshold)
    requires KeepsHeads(["AA00BB", "AA00BD"], clusters, kept)
    ensures |clusters| == 1 && clusters[0][0] == 0 && 1 in clusters[0]
    ensures kept == ["AA00BB"]
  {
    FixtureDifference();
    SimilarPair(["AA00BB", "AA00BD"], DefaultThreshold, clusters, kept);
  }

  /** Filtering the fixture pair keeps one BSSID out of one cluster. */
  method FilterFixture() returns (kept: seq<string>, clusters: seq<seq<nat>>)
    ensures |clusters| == 1 && kept == ["AA00BB"]
  {
    FixtureBytes();
    kept, clusters := FilterBssidsBySimilarity(["AA00BB", "AA00BD"], DefaultThreshold);
    FilterExample(clusters, kept);
  }
}
