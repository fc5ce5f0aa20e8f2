/**
 * The wifi position search: the stations found for the query's BSSIDs are
 * thinned by the BSSID similarity filter, given the query's signal strengths,
 * sorted strongest first and clustered by geodesic distance; the largest
 * cluster (the earliest of equally large ones) gives the position as the
 * centroid of its first few networks.
 *
 * The geodesic `distance` and `estimate_accuracy` are parameters of the model.
 */
module WifiSearch {
  import opened Wrappers
  import opened Clustering
  import opened BssidFilter

  /** A wifi station as the database stores it. */
  datatype Station = Station(key: string, lat: real, lon: real, range: int)

  /** One wifi network reported in the query, with its signal strength if any. */
  datatype Lookup = Lookup(key: string, signal: Option<int>)

  /** A station joined with the query's signal strength for it. */
  datatype Network = Network(key: string, lat: real, lon: real, range: int, signal: int)

  /** The search result: empty, or a position with its accuracy. */
  datatype Position = Empty | Found(lat: real, lon: real, accuracy: real)

  /**
   * The constants the locator imports: the clustering radius in km, the
   * smallest cluster considered, the number of networks averaged and the
   * smallest accuracy reported.
   */
  datatype Config = Config(
    maxWifiClusterKm: real,
    minWifisInCluster: nat,
    maxWifisInCluster: nat,
    wifiMinAccuracy: real)

  /** The signal assumed for a network reported without one, or with 0. */
  const DefaultSignal: int := -100

  // ---------------------------------------------------------------------------
  // Signals (`wifi_signals` in `get_clusters`)
  // ---------------------------------------------------------------------------

  /** Python's `signal or -100`: a missing or zero signal becomes -100. */
  function SignalOrDefault(signal: Option<int>): (r: int)
    ensures r != 0
    ensures signal.Some? && signal.value != 0 ==> r == signal.value
    ensures signal == None || signal == Some(0) ==> r == DefaultSignal
  {
    match signal
    case Some(v) => if v != 0 then v else DefaultSignal
    case None => DefaultSignal
  }

  predicate Reported(lookups: seq<Lookup>, key: string)
  {
    exists i :: 0 <= i < |lookups| && lookups[i].key == key
  }

  /** The signal of the last lookup for `key`: later lookups overwrite earlier ones. */
  function LastSignal(lookups: seq<Lookup>, key: string): (r: int)
    requires Reported(lookups, key)
    ensures exists i ::
      && 0 <= i < |lookups| && lookups[i].key == key && r == SignalOrDefault(lookups[i].signal)
      && (forall j :: i < j < |lookups| ==> lookups[j].key != key)
  {
    var last := lookups[|lookups| - 1];
    if last.key == key then SignalOrDefault(last.signal)
    else
      assert Reported(lookups[..|lookups| - 1], key) by {
        var i :| 0 <= i < |lookups| && lookups[i].key == key;
        assert lookups[..|lookups| - 1][i] == lookups[i];
      }
      LastSignal(lookups[..|lookups| - 1], key)
  }

  /** The signal map `get_clusters` builds: each kept, reported key with its last signal. */
  function SignalsOf(lookups: seq<Lookup>, kept: set<string>): map<string, int>
  {
    map k | k in kept && Reported(lookups, k) :: LastSignal(lookups, k)
  }

  /**
   * Fills the signal map: for every lookup whose key was kept, its signal (or
   * -100) under its key.
   */
  method SignalMap(lookups: seq<Lookup>, kept: set<string>) returns (signals: map<string, int>)
    ensures forall k :: k in signals <==> k in kept && Reported(lookups, k)
    ensures forall k :: k in signals ==> signals[k] == LastSignal(lookups, k)
    ensures signals == SignalsOf(lookups, kept)
  {
    signals := map[];
    for i := 0 to |lookups|
      invariant forall k :: k in signals <==> k in kept && Reported(lookups[..i], k)
      invariant forall k :: k in signals ==> signals[k] == LastSignal(lookups[..i], k)
    {
      var lookup := lookups[i];
      assert lookups[..i + 1][..i] == lookups[..i];
      assert lookups[..i + 1][i] == lookup;
      forall k | Reported(lookups[..i], k) ensures Reported(lookups[..i + 1], k) {
        var j :| 0 <= j < i && lookups[..i][j].key == k;
        assert lookups[..i + 1][j] == lookups[..i][j];
      }
      forall k | Reported(lookups[..i + 1], k) && k != lookup.key ensures Reported(lookups[..i], k) {
        var j :| 0 <= j < i + 1 && lookups[..i + 1][j].key == k;
        assert lookups[..i][j] == lookups[..i + 1][j];
      }
      if lookup.key in kept {
        signals := signals[lookup.key := SignalOrDefault(lookup.signal)];
      }
    }
    assert lookups[..|lookups|] == lookups;
  }

  // ---------------------------------------------------------------------------
  // Networks (`wifi_networks` in `get_clusters`)
  // ---------------------------------------------------------------------------

  function ToNetwork(w: Station, signal: int): Network
  {
    Network(w.key, w.lat, w.lon, w.range, signal)
  }

  /** The stations whose key was kept, in order, each with its signal. */
  function BuildNetworks(wifis: seq<Station>, kept: set<string>, signals: map<string, int>): (r: seq<Network>)
    requires forall w :: w in wifis && w.key in kept ==> w.key in signals
    ensures |r| <= |wifis|
  {
    if wifis == [] then []
    else
      var rest := BuildNetworks(wifis[1..], kept, signals);
      if wifis[0].key in kept then [ToNetwork(wifis[0], signals[wifis[0].key])] + rest else rest
  }

  /** A network is built exactly for each kept station, with that station's signal. */
  lemma {:induction false} BuildNetworksMembers(wifis: seq<Station>, kept: set<string>, signals: map<string, int>)
    requires forall w :: w in wifis && w.key in kept ==> w.key in signals
    ensures forall n :: n in BuildNetworks(wifis, kept, signals) <==>
      exists w :: w in wifis && w.key in kept && n == ToNetwork(w, signals[w.key])
  {
    if wifis != [] {
      BuildNetworksMembers(wifis[1..], kept, signals);
      forall w | w in wifis ensures w == wifis[0] || w in wifis[1..] {
        var i :| 0 <= i < |wifis| && wifis[i] == w;
        if i > 0 { assert wifis[1..][i - 1] == w; }
      }
    }
  }

  // ---------------------------------------------------------------------------
  // Sorting (`wifi_networks.sort(key=signal, reverse=True)`, a stable sort)
  // ---------------------------------------------------------------------------

  ghost predicate Descending(ns: seq<Network>)
  {
    forall i, j :: 0 <= i < j < |ns| ==> ns[i].signal >= ns[j].signal
  }

  /** The networks with the given signal, in their order. */
  function WithSignal(ns: seq<Network>, v: int): seq<Network>
  {
    if ns == [] then []
    else (if ns[0].signal == v then [ns[0]] else []) + WithSignal(ns[1..], v)
  }

  /** Puts `n` before the first network whose signal is not stronger than its own. */
  function Insert(n: Network, ns: seq<Network>): (r: seq<Network>)
    ensures multiset(r) == multiset(ns) + multiset{n}
  {
    if ns == [] || ns[0].signal <= n.signal then [n] + ns
    else
      assert ns == [ns[0]] + ns[1..];
      [ns[0]] + Insert(n, ns[1..])
  }

  /** Strongest signal first; equal signals keep their input order. */
  function SortBySignal(ns: seq<Network>): (r: seq<Network>)
    ensures multiset(r) == multiset(ns)
  {
    if ns == [] then []
    else
      assert ns == [ns[0]] + ns[1..];
      Insert(ns[0], SortBySignal(ns[1..]))
  }

  /** Inserting under a bound keeps every signal under it. */
  lemma {:induction false} InsertBounded(n: Network, ns: seq<Network>, bound: int)
    requires n.signal <= bound && forall i :: 0 <= i < |ns| ==> ns[i].signal <= bound
    ensures forall i :: 0 <= i < |Insert(n, ns)| ==> Insert(n, ns)[i].signal <= bound
  {
    if ns != [] && ns[0].signal > n.signal {
      InsertBounded(n, ns[1..], bound);
    }
  }

  lemma {:induction false} InsertDescending(n: Network, ns: seq<Network>)
    requires Descending(ns)
    ensures Descending(Insert(n, ns))
  {
    if ns != [] && ns[0].signal > n.signal {
      InsertDescending(n, ns[1..]);
      InsertBounded(n, ns[1..], ns[0].signal);
    }
  }

  lemma WithSignalCons(x: Network, ns: seq<Network>, v: int)
    ensures WithSignal([x] + ns, v) == (if x.signal == v then [x] else []) + WithSignal(ns, v)
  {
    assert ([x] + ns)[1..] == ns;
  }

  /** Inserting `n` puts it before the networks of equal signal, so their order is kept. */
  lemma {:induction false} InsertWithSignal(n: Network, ns: seq<Network>, v: int)
    ensures WithSignal(Insert(n, ns), v) == (if n.signal == v then [n] else []) + WithSignal(ns, v)
  {
    if ns == [] || ns[0].signal <= n.signal {
      WithSignalCons(n, ns, v);
    } else {
      InsertWithSignal(n, ns[1..], v);
      WithSignalCons(ns[0], Insert(n, ns[1..]), v);
      WithSignalCons(ns[0], ns[1..], v);
      assert ns == [ns[0]] + ns[1..];
    }
  }

  lemma {:induction false} SortBySignalCorrect(ns: seq<Network>, v: int)
    ensures Descending(SortBySignal(ns))
    ensures WithSignal(SortBySignal(ns), v) == WithSignal(ns, v)
  {
    if ns != [] {
      SortBySignalCorrect(ns[1..], v);
      InsertDescending(ns[0], SortBySignal(ns[1..]));
      InsertWithSignal(ns[0], SortBySignal(ns[1..]), v);
    }
  }

  // ---------------------------------------------------------------------------
  // Clusters (`get_clusters`)
  // ---------------------------------------------------------------------------

  /** `wifi_distance`: the geodesic distance between two networks' positions. */
  function NetworkDistance(distance: (real, real, real, real) -> real, a: Network, b: Network): real
  {
    distance(a.lat, a.lon, b.lat, b.lon)
  }

  /** Every network within `km` of a cluster member is in that cluster. */
  ghost predicate NetworkLinkageClosed(
    networks: seq<Network>, clusters: seq<seq<nat>>, distance: (real, real, real, real) -> real, km: real)
  {
    forall k, x, y ::
      (0 <= k < |clusters| && x in clusters[k] && x < |networks| && 0 <= y < |networks| &&
       NetworkDistance(distance, networks[x], networks[y]) <= km)
      ==> y in clusters[k]
  }

  /** The distance matrix `cluster_elements` builds over the networks with `wifi_distance`. */
  function NetworkMatrix(networks: seq<Network>, distance: (real, real, real, real) -> real): (m: Matrix)
    ensures |m| == |networks| && Square(m)
    ensures forall x, y :: 0 <= x < |networks| && 0 <= y < |networks| ==>
      m[y][x] == distance(networks[x].lat, networks[x].lon, networks[y].lat, networks[y].lon)
  {
    DistanceMatrix(networks, (a: Network, b: Network) => NetworkDistance(distance, a, b))
  }

  /**
   * `parts` is the single-linkage clustering of the networks within `km`: a
   * partition into within-`km` chained groups, no two of them linked, every
   * network within `km` of a member inside the member's group, and, for a
   * symmetric distance, each group led by its first network in signal order.
   */
  ghost predicate SingleLinkageParts(
    networks: seq<Network>, parts: seq<seq<nat>>, distance: (real, real, real, real) -> real, km: real)
  {
    && Partition(parts, |networks|)
    && AllConnected(NetworkMatrix(networks, distance), km, parts)
    && NoLinkedPair(NetworkMatrix(networks, distance), km, parts)
    && NetworkLinkageClosed(networks, parts, distance, km)
    && (Symmetric(NetworkMatrix(networks, distance)) ==> HeadsAscending(parts))
  }

  /** `cluster_elements` applied to the networks with the geodesic distance. */
  method ClusterNetworks(networks: seq<Network>, distance: (real, real, real, real) -> real, km: real)
    returns (grouped: seq<seq<Network>>, clusters: seq<seq<nat>>)
    ensures SingleLinkageParts(networks, clusters, distance, km)
    ensures grouped == Gather(networks, clusters)
  {
    var wifiDistance := (a: Network, b: Network) => NetworkDistance(distance, a, b);
    ghost var merges;
    grouped, clusters, merges := ClusterElements(networks, wifiDistance, km);
    assert DistanceMatrix(networks, wifiDistance) == NetworkMatrix(networks, distance);
  }

  /**
   * The network clusters are the connected components of the within-`km`
   * graph: a network is in the cluster of `x` exactly when a chain of
   * within-`km` distances joins it to `x`.
   */
  lemma NetworkComponents(
    networks: seq<Network>, parts: seq<seq<nat>>, distance: (real, real, real, real) -> real, km: real,
    k: nat, x: nat, y: nat)
    requires SingleLinkageParts(networks, parts, distance, km)
    requires k < |parts| && x in parts[k] && y < |networks|
    ensures y in parts[k] <==> Reachable(NetworkMatrix(networks, distance), km, x, y)
  {
    ClustersAreComponents(NetworkMatrix(networks, distance), km, parts, k, x, y);
  }

  /** The clusters with at least `minSize` networks, in their order. */
  function LargeClusters(clusters: seq<seq<Network>>, minSize: nat): (r: seq<seq<Network>>)
    ensures |r| <= |clusters|
    ensures forall c :: c in r <==> c in clusters && |c| >= minSize
  {
    if clusters == [] then []
    else
      var rest := LargeClusters(clusters[1..], minSize);
      assert forall c :: c in clusters <==> c == clusters[0] || c in clusters[1..];
      if |clusters[0]| >= minSize then [clusters[0]] + rest else rest
  }

  function KeptSet(kept: seq<string>): set<string>
  {
    set k | k in kept
  }

  function Keys(wifis: seq<Station>): (keys: seq<string>)
    ensures |keys| == |wifis| && forall i :: 0 <= i < |wifis| ==> keys[i] == wifis[i].key
  {
    seq(|wifis|, i requires 0 <= i < |wifis| => wifis[i].key)
  }

  /** Any two of the keys are more than the filter's threshold apart. */
  ghost predicate Dissimilar(keys: seq<string>)
  {
    forall i, j :: 0 <= i < |keys| && 0 <= j < |keys| && i != j ==>
      IsHex(keys[i]) && IsHex(keys[j]) && BssidDifference(keys[i], keys[j]) > DefaultThreshold
  }

  /**
   * `kept` is what the similarity filter keeps of the station keys: the first
   * key of each cluster of `keyClusters`, the single-linkage clustering of the
   * keys under the default threshold.
   */
  ghost predicate FilteredKeys(wifis: seq<Station>, kept: seq<string>, keyClusters: seq<seq<nat>>)
    requires forall b :: b in Keys(wifis) ==> IsHex(b)
  {
    SingleLinkage(Keys(wifis), keyClusters, DefaultThreshold) && KeepsHeads(Keys(wifis), keyClusters, kept)
  }

  /** `dissimilar_keys`: the station keys the similarity filter keeps. */
  method DissimilarKeys(wifis: seq<Station>) returns (kept: seq<string>, ghost keyClusters: seq<seq<nat>>)
    requires forall w :: w in wifis ==> IsHex(w.key)
    ensures FilteredKeys(wifis, kept, keyClusters)
    ensures forall k :: k in kept ==> exists w :: w in wifis && w.key == k
    ensures Dissimilar(kept)
  {
    var keys := Keys(wifis);
    kept, keyClusters := FilterBssidsBySimilarity(keys, DefaultThreshold);
    forall k | k in kept ensures exists w :: w in wifis && w.key == k {
      var i :| 0 <= i < |kept| && kept[i] == k;
      assert wifis[keyClusters[i][0]].key == k;
    }
  }

  /** `wifi_networks` after the sort: the kept stations with their signals, strongest first. */
  method SortedNetworks(wifis: seq<Station>, lookups: seq<Lookup>, kept: set<string>) returns (networks: seq<Network>)
    requires forall w :: w in wifis ==> Reported(lookups, w.key)
    ensures networks == SortBySignal(BuildNetworks(wifis, kept, SignalsOf(lookups, kept)))
    ensures Descending(networks)
    ensures forall n :: n in networks <==>
      exists w :: w in wifis && w.key in kept && Reported(lookups, w.key) && n == ToNetwork(w, LastSignal(lookups, w.key))
  {
    var signals := SignalMap(lookups, kept);
    var built := BuildNetworks(wifis, kept, signals);
    networks := SortBySignal(built);
    NetworksFacts(wifis, lookups, kept, built, networks);
  }

  /**
   * The networks behind the stations kept by the similarity filter, strongest
   * signal first, clustered by distance; only clusters of at least
   * `minWifisInCluster` networks are returned.
   */
  method GetClusters(wifis: seq<Station>, lookups: seq<Lookup>, cfg: Config, distance: (real, real, real, real) -> real)
    returns (clusters: seq<seq<Network>>, kept: seq<string>, ghost keyClusters: seq<seq<nat>>,
             networks: seq<Network>, parts: seq<seq<nat>>)
    requires forall w :: w in wifis ==> IsHex(w.key) && Reported(lookups, w.key)
    ensures FilteredKeys(wifis, kept, keyClusters)
    ensures forall k :: k in kept ==> exists w :: w in wifis && w.key == k
    ensures Dissimilar(kept)
    ensures forall n :: n in networks <==>
      exists w :: w in wifis && w.key in kept && Reported(lookups, w.key) && n == ToNetwork(w, LastSignal(lookups, w.key))
    ensures networks == SortBySignal(BuildNetworks(wifis, KeptSet(kept), SignalsOf(lookups, KeptSet(kept))))
    ensures Descending(networks)
    ensures SingleLinkageParts(networks, parts, distance, cfg.maxWifiClusterKm)
    ensures clusters == LargeClusters(Gather(networks, parts), cfg.minWifisInCluster)
    ensures forall c :: c in clusters ==> |c| >= cfg.minWifisInCluster && forall n :: n in c ==> n in networks
  {
    kept, keyClusters := DissimilarKeys(wifis);
    networks := SortedNetworks(wifis, lookups, KeptSet(kept));
    var grouped;
    grouped, parts := ClusterNetworks(networks, distance, cfg.maxWifiClusterKm);
    clusters := LargeClusters(grouped, cfg.minWifisInCluster);
    GroupedMembers(networks, parts, grouped);
  }

  /** The sorted networks are the kept stations with their last signals, in descending order. */
  lemma NetworksFacts(wifis: seq<Station>, lookups: seq<Lookup>, kept: set<string>, built: seq<Network>, networks: seq<Network>)
    requires forall w :: w in wifis ==> Reported(lookups, w.key)
    requires built == BuildNetworks(wifis, kept, SignalsOf(lookups, kept))
    requires networks == SortBySignal(built)
    ensures Descending(networks)
    ensures forall n :: n in networks <==>
      exists w :: w in wifis && w.key in kept && Reported(lookups, w.key) && n == ToNetwork(w, LastSignal(lookups, w.key))
  {
    SortBySignalCorrect(built, 0);
    BuildNetworksMembers(wifis, kept, SignalsOf(lookups, kept));
    forall n ensures n in networks <==> n in built {
      assert n in networks <==> n in multiset(networks);
    }
  }

  lemma GroupedMembers(networks: seq<Network>, parts: seq<seq<nat>>, grouped: seq<seq<Network>>)
    requires Partition(parts, |networks|) && grouped == Gather(networks, parts)
    ensures forall c, n :: c in grouped && n in c ==> n in networks
  {
    forall c, n | c in grouped && n in c ensures n in networks {
      var k :| 0 <= k < |grouped| && grouped[k] == c;
      var q :| 0 <= q < |c| && c[q] == n;
      assert n == networks[parts[k][q]];
    }
  }

  // ---------------------------------------------------------------------------
  // Choosing a cluster (`pick_best_cluster`) and its sample
  // ---------------------------------------------------------------------------

  /** The index of the first longest cluster: where a stable sort by length, descending, starts. */
  function BestIndex(clusters: seq<seq<Network>>): (i: nat)
    requires clusters != []
    ensures i < |clusters|
    ensures forall j :: 0 <= j < |clusters| ==> |clusters[j]| <= |clusters[i]|
    ensures forall j :: 0 <= j < i ==> |clusters[j]| < |clusters[i]|
  {
    if |clusters| == 1 then 0
    else
      var k := BestIndex(clusters[..|clusters| - 1]);
      if |clusters[|clusters| - 1]| > |clusters[k]| then |clusters| - 1 else k
  }

  /** `pick_best_cluster`: the longest cluster, the earliest one among equally long. */
  function PickBestCluster(clusters: seq<seq<Network>>): (best: seq<Network>)
    requires clusters != []
    ensures best in clusters && forall c :: c in clusters ==> |c| <= |best|
    ensures exists i :: 0 <= i < |clusters| && clusters[i] == best && forall j :: 0 <= j < i ==> |clusters[j]| < |best|
  {
    clusters[BestIndex(clusters)]
  }

  /** The first `min(len(cluster), maxWifis)` networks of the cluster. */
  function Sample(cluster: seq<Network>, maxWifis: nat): (s: seq<Network>)
    ensures |s| == Min(|cluster|, maxWifis) && |s| <= maxWifis
    ensures forall i :: 0 <= i < |s| ==> s[i] == cluster[i]
  {
    cluster[..Min(|cluster|, maxWifis)]
  }

  // ---------------------------------------------------------------------------
  // Position (`aggregate_cluster_position`, `search_wifi`)
  // ---------------------------------------------------------------------------

  function Sum(xs: seq<real>): real
  {
    if xs == [] then 0.0 else xs[0] + Sum(xs[1..])
  }

  function Mean(xs: seq<real>): real
    requires xs != []
  {
    Sum(xs) / (|xs| as real)
  }

  function Lats(ns: seq<Network>): (r: seq<real>)
    ensures |r| == |ns| && forall i :: 0 <= i < |ns| ==> r[i] == ns[i].lat
  {
    seq(|ns|, i requires 0 <= i < |ns| => ns[i].lat)
  }

  function Lons(ns: seq<Network>): (r: seq<real>)
    ensures |r| == |ns| && forall i :: 0 <= i < |ns| ==> r[i] == ns[i].lon
  {
    seq(|ns|, i requires 0 <= i < |ns| => ns[i].lon)
  }

  lemma {:induction false} SumBetween(xs: seq<real>, lo: real, hi: real)
    requires forall i :: 0 <= i < |xs| ==> lo <= xs[i] <= hi
    ensures (|xs| as real) * lo <= Sum(xs) <= (|xs| as real) * hi
  {
    if xs != [] {
      SumBetween(xs[1..], lo, hi);
    }
  }

  function ArgMin(xs: seq<real>): (i: nat)
    requires xs != []
    ensures i < |xs| && forall j :: 0 <= j < |xs| ==> xs[i] <= xs[j]
  {
    if |xs| == 1 then 0
    else
      var k := ArgMin(xs[..|xs| - 1]);
      if xs[|xs| - 1] < xs[k] then |xs| - 1 else k
  }

  function ArgMax(xs: seq<real>): (i: nat)
    requires xs != []
    ensures i < |xs| && forall j :: 0 <= j < |xs| ==> xs[j] <= xs[i]
  {
    if |xs| == 1 then 0
    else
      var k := ArgMax(xs[..|xs| - 1]);
      if xs[|xs| - 1] > xs[k] then |xs| - 1 else k
  }

  /** The mean lies between the smallest and the largest value. */
  lemma MeanWithin(xs: seq<real>)
    requires xs != []
    ensures xs[ArgMin(xs)] <= Mean(xs) <= xs[ArgMax(xs)]
  {
    MeanBetween(xs, xs[ArgMin(xs)], xs[ArgMax(xs)]);
  }

  lemma MeanBetween(xs: seq<real>, lo: real, hi: real)
    requires xs != [] && forall i :: 0 <= i < |xs| ==> lo <= xs[i] <= hi
    ensures lo <= Mean(xs) <= hi
  {
    SumBetween(xs, lo, hi);
    DivBetween(Sum(xs), |xs| as real, lo, hi);
  }

  lemma DivBetween(s: real, n: real, lo: real, hi: real)
    requires n > 0.0 && n * lo <= s <= n * hi
    ensures lo <= s / n <= hi
  {
    assert s / n * n == s;
  }

  /**
   * `aggregate_cluster_position`: the centroid of the cluster's sample, with the
   * accuracy `estimate_accuracy` gives for it.
   */
  function AggregateClusterPosition(
    cluster: seq<Network>, cfg: Config, estimateAccuracy: (real, real, seq<Network>, real) -> real): (r: Position)
    requires cluster != [] && cfg.maxWifisInCluster > 0
    ensures r.Found?
    ensures var sample := Sample(cluster, cfg.maxWifisInCluster);
      && r.lat == Mean(Lats(sample)) && r.lon == Mean(Lons(sample))
      && (exists i, j :: 0 <= i < |sample| && 0 <= j < |sample| && sample[i].lat <= r.lat <= sample[j].lat)
      && (exists i, j :: 0 <= i < |sample| && 0 <= j < |sample| && sample[i].lon <= r.lon <= sample[j].lon)
      && r.accuracy == estimateAccuracy(r.lat, r.lon, sample, cfg.wifiMinAccuracy)
  {
    var sample := Sample(cluster, cfg.maxWifisInCluster);
    var lat := Mean(Lats(sample));
    var lon := Mean(Lons(sample));
    MeanWithin(Lats(sample));
    MeanWithin(Lons(sample));
    Found(lat, lon, estimateAccuracy(lat, lon, sample, cfg.wifiMinAccuracy))
  }

  /**
   * `search_wifi`: no position for a query without wifi networks; otherwise the
   * position of the best cluster of the stations `wifis` found for it, if any.
   */
  method SearchWifi(
    lookups: seq<Lookup>, wifis: seq<Station>, cfg: Config,
    distance: (real, real, real, real) -> real, estimateAccuracy: (real, real, seq<Network>, real) -> real)
    returns (r: Position, ghost clusters: seq<seq<Network>>, ghost kept: seq<string>, ghost keyClusters: seq<seq<nat>>,
             ghost networks: seq<Network>, ghost parts: seq<seq<nat>>)
    requires cfg.maxWifisInCluster > 0
    requires forall w :: w in wifis ==> IsHex(w.key) && Reported(lookups, w.key)
    ensures lookups == [] ==> r == Empty
    ensures lookups == [] ==> clusters == []
    ensures lookups != [] ==>
      && FilteredKeys(wifis, kept, keyClusters)
      && networks == SortBySignal(BuildNetworks(wifis, KeptSet(kept), SignalsOf(lookups, KeptSet(kept))))
      && SingleLinkageParts(networks, parts, distance, cfg.maxWifiClusterKm)
      && clusters == LargeClusters(Gather(networks, parts), cfg.minWifisInCluster)
    ensures r.Found? <==> clusters != []
    ensures forall c :: c in clusters ==>
      && |c| >= cfg.minWifisInCluster && c != []
      && (forall n :: n in c ==> exists w :: w in wifis && w.key == n.key)
    ensures clusters != [] ==> r == AggregateClusterPosition(PickBestCluster(clusters), cfg, estimateAccuracy)
  {
    r := Empty;
    clusters, kept, keyClusters, networks, parts := [], [], [], [], [];
    if lookups == [] {
      return;
    }
    var found, keptKeys, sorted, groups;
    found, keptKeys, keyClusters, sorted, groups := GetClusters(wifis, lookups, cfg, distance);
    clusters, kept, networks, parts := found, keptKeys, sorted, groups;
    ClustersNonEmpty(networks, parts, cfg.minWifisInCluster);
    if found != [] {
      var best := PickBestCluster(found);
      r := AggregateClusterPosition(best, cfg, estimateAccuracy);
    }
  }

  /** Every cluster built from a partition holds at least one network. */
  lemma ClustersNonEmpty(networks: seq<Network>, parts: seq<seq<nat>>, minSize: nat)
    requires Partition(parts, |networks|)
    ensures forall c :: c in LargeClusters(Gather(networks, parts), minSize) ==> c != []
  {
    var grouped := Gather(networks, parts);
    forall c | c in grouped ensures c != [] {
      var k :| 0 <= k < |grouped| && grouped[k] == c;
      assert |c| == |parts[k]|;
    }
  }
}
