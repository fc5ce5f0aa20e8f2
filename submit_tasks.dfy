/**
 * Measurement ingestion: wifi and cell measures submitted in a batch are turned
 * into measure records and the per-station counters of new and total measures
 * are raised, inside one transaction that commits, conflicts or is retried.
 *
 * The database session is a store object: a map from station key to its
 * counters, the wifi blacklist and the list of persisted measures.
 */
module SubmitTasks {
  import opened Wrappers

  /** The header of a submitted batch: the fields every measure copies. */
  datatype MeasureData = MeasureData(
    id: int, lat: real, lon: real,
    accuracy: Option<int>, altitude: Option<int>, altitudeAccuracy: Option<int>,
    radio: Option<int>)

  /** One submitted wifi observation; `None` is a key absent from the entry. */
  datatype WifiEntry = WifiEntry(
    key: string, id: Option<int>, channel: Option<int>, frequency: Option<int>, signal: Option<int>)

  datatype WifiMeasure = WifiMeasure(
    measureId: int, lat: real, lon: real, accuracy: int, altitude: int, altitudeAccuracy: int,
    id: Option<int>, key: string, channel: int, signal: int)

  /** One submitted cell observation; `None` is a key absent from the entry. */
  datatype CellEntry = CellEntry(
    radio: Option<string>, mcc: Option<int>, mnc: Option<int>,
    lac: Option<int>, cid: Option<int>, psc: Option<int>, asu: Option<int>, signal: Option<int>, ta: Option<int>)

  datatype CellMeasure = CellMeasure(
    measureId: int, lat: real, lon: real, accuracy: int, altitude: int, altitudeAccuracy: int,
    radio: int, mcc: int, mnc: int, lac: int, cid: int, psc: int, asu: int, signal: int, ta: int)

  /** The columns that identify a cell station. */
  datatype CellKey = CellKey(radio: int, mcc: int, mnc: int, lac: int, cid: int)

  /** A station's counters of measures not yet processed and of all measures. */
  datatype Counters = Counters(newMeasures: nat, totalMeasures: nat)

  /** A value, or the `KeyError` a missing dictionary key raises. */
  datatype Result<T> = Success(value: T) | KeyError(field: string)

  /** How the transaction ends: committed with a count, an integrity conflict, or a retry. */
  datatype Outcome = Ok(count: nat) | Conflict | Retry

  /** What the database does at commit time. */
  datatype StorageFault = NoFault | IntegrityConflict | TransientFailure

  /** What the task returns: the count, 0 on a conflict, nothing when it is retried. */
  function ReturnValue(outcome: Outcome): (r: Option<nat>)
    ensures outcome.Ok? ==> r == Some(outcome.count)
    ensures outcome == Conflict ==> r == Some(0)
    ensures r == None <==> outcome == Retry
  {
    match outcome
    case Ok(n) => Some(n)
    case Conflict => Some(0)
    case Retry => None
  }

  // ---------------------------------------------------------------------------
  // Frequency to channel (`convert_frequency`)
  // ---------------------------------------------------------------------------

  /** The channel of a frequency in MHz, when it lies in the 2.4 GHz or the 5 GHz band. */
  function BandChannel(freq: int): (r: Option<int>)
    ensures r.Some? <==> (2411 < freq < 2473 || 5169 < freq < 5826)
    ensures 2411 < freq < 2473 ==> r.Some? && 1 <= r.value <= 13 && 5 * r.value + 2407 <= freq < 5 * r.value + 2412
    ensures 5169 < freq < 5826 ==> r.Some? && 34 <= r.value <= 165 && 5 * r.value + 5000 <= freq < 5 * r.value + 5005
  {
    if 2411 < freq < 2473 then Some((freq - 2407) / 5)
    else if 5169 < freq < 5826 then Some((freq - 5000) / 5)
    else None
  }

  /**
   * Removes the frequency and, when a nonzero frequency comes with a zero
   * channel, sets the channel of the frequency's band; a nonzero frequency
   * without any channel key is a `KeyError`.
   */
  function ConvertFrequency(entry: WifiEntry): (r: Result<WifiEntry>)
    ensures r.KeyError? <==> entry.frequency.GetOr(0) != 0 && entry.channel == None
    ensures r.Success? ==>
      r.value.frequency == None && r.value.key == entry.key && r.value.id == entry.id && r.value.signal == entry.signal
    ensures r.Success? ==>
      r.value.channel ==
        if entry.frequency.GetOr(0) != 0 && entry.channel == Some(0) && BandChannel(entry.frequency.GetOr(0)).Some?
        then BandChannel(entry.frequency.GetOr(0))
        else entry.channel
  {
    var freq := entry.frequency.GetOr(0);
    var popped := entry.(frequency := None);
    if freq == 0 then Success(popped)
    else if entry.channel == None then KeyError("channel")
    else if entry.channel != Some(0) then Success(popped)
    else match BandChannel(freq)
      case Some(c) => Success(popped.(channel := Some(c)))
      case None => Success(popped)
  }

  /** Converting again changes nothing: the frequency is gone after the first time. */
  lemma ConvertFrequencyIdempotent(entry: WifiEntry)
    requires ConvertFrequency(entry).Success?
    ensures ConvertFrequency(ConvertFrequency(entry).value) == ConvertFrequency(entry)
  {
  }

  /** 2437 MHz is channel 6, 5200 MHz channel 40; 900 MHz, outside both bands, leaves the channel. */
  lemma ConvertFrequencyExamples(key: string)
    ensures ConvertFrequency(WifiEntry(key, None, Some(0), Some(2437), None)) ==
      Success(WifiEntry(key, None, Some(6), None, None))
    ensures ConvertFrequency(WifiEntry(key, None, Some(0), Some(5200), None)) ==
      Success(WifiEntry(key, None, Some(40), None, None))
    ensures ConvertFrequency(WifiEntry(key, None, Some(0), Some(900), None)) ==
      Success(WifiEntry(key, None, Some(0), None, None))
    ensures ConvertFrequency(WifiEntry(key, None, Some(11), Some(2437), None)) ==
      Success(WifiEntry(key, None, Some(11), None, None))
  {
  }

  // ---------------------------------------------------------------------------
  // Measure records (`create_wifi_measure`, `create_cell_measure`)
  // ---------------------------------------------------------------------------

  /** A wifi measure: header fields copied, optional fields 0 when absent. */
  function CreateWifiMeasure(data: MeasureData, entry: WifiEntry): (m: WifiMeasure)
    ensures m.measureId == data.id && m.lat == data.lat && m.lon == data.lon
    ensures m.key == entry.key && m.id == entry.id
    ensures m.accuracy == data.accuracy.GetOr(0) && m.altitude == data.altitude.GetOr(0) &&
      m.altitudeAccuracy == data.altitudeAccuracy.GetOr(0)
    ensures m.channel == entry.channel.GetOr(0) && m.signal == entry.signal.GetOr(0)
  {
    WifiMeasure(
      data.id, data.lat, data.lon,
      data.accuracy.GetOr(0), data.altitude.GetOr(0), data.altitudeAccuracy.GetOr(0),
      entry.id, entry.key, entry.channel.GetOr(0), entry.signal.GetOr(0))
  }

  /**
   * A cell measure: header fields copied, `mcc` and `mnc` required, the other
   * optional fields 0 when absent. The radio is set by the caller.
   */
  function CreateCellMeasure(data: MeasureData, entry: CellEntry): (r: Result<CellMeasure>)
    ensures r.KeyError? <==> entry.mcc == None || entry.mnc == None
    ensures r.Success? ==>
      && r.value.measureId == data.id && r.value.lat == data.lat && r.value.lon == data.lon
      && r.value.accuracy == data.accuracy.GetOr(0) && r.value.altitude == data.altitude.GetOr(0)
      && r.value.altitudeAccuracy == data.altitudeAccuracy.GetOr(0)
      && r.value.radio == -1
      && r.value.mcc == entry.mcc.value && r.value.mnc == entry.mnc.value
      && r.value.lac == entry.lac.GetOr(0) && r.value.cid == entry.cid.GetOr(0)
      && r.value.psc == entry.psc.GetOr(0) && r.value.asu == entry.asu.GetOr(0)
      && r.value.signal == entry.signal.GetOr(0) && r.value.ta == entry.ta.GetOr(0)
  {
    if entry.mcc == None then KeyError("mcc")
    else if entry.mnc == None then KeyError("mnc")
    else Success(CellMeasure(
      data.id, data.lat, data.lon,
      data.accuracy.GetOr(0), data.altitude.GetOr(0), data.altitudeAccuracy.GetOr(0),
      -1, entry.mcc.value, entry.mnc.value,
      entry.lac.GetOr(0), entry.cid.GetOr(0), entry.psc.GetOr(0), entry.asu.GetOr(0),
      entry.signal.GetOr(0), entry.ta.GetOr(0)))
  }

  /**
   * The radio of a cell measure: the entry's own radio name through
   * `radioType` (-1 when unknown) when it is a non-empty string, the header's
   * radio otherwise, a `KeyError` when the header has none.
   */
  function ResolveRadio(data: MeasureData, entry: CellEntry, radioType: map<string, int>): (r: Result<int>)
    ensures entry.radio.Some? && entry.radio.value != "" ==>
      r == Success(if entry.radio.value in radioType then radioType[entry.radio.value] else -1)
    ensures (entry.radio == None || entry.radio == Some("")) ==>
      (r.Success? <==> data.radio.Some?) && (r.Success? ==> r.value == data.radio.value)
  {
    if entry.radio.Some? && entry.radio.value != "" then
      Success(if entry.radio.value in radioType then radioType[entry.radio.value] else -1)
    else if data.radio.Some? then Success(data.radio.value)
    else KeyError("radio")
  }

  /** The measure one cell entry becomes, with its radio resolved. */
  function CellMeasureOf(data: MeasureData, entry: CellEntry, radioType: map<string, int>): (r: Result<CellMeasure>)
    ensures r.KeyError? <==> entry.mcc == None || entry.mnc == None || ResolveRadio(data, entry, radioType).KeyError?
    ensures r.Success? ==>
      && r.value.radio == ResolveRadio(data, entry, radioType).value
      && r.value.(radio := -1) == CreateCellMeasure(data, entry).value
  {
    match CreateCellMeasure(data, entry)
    case KeyError(f) => KeyError(f)
    case Success(m) =>
      match ResolveRadio(data, entry, radioType)
      case KeyError(f) => KeyError(f)
      case Success(radio) => Success(m.(radio := radio))
  }

  // ---------------------------------------------------------------------------
  // Counters (`update_wifi_measure_count`, `update_cell_measure_count`)
  // ---------------------------------------------------------------------------

  /** One more measure for `key`: both counters up by one, or a new station at 1/1. */
  function Bump<K(!new)>(counts: map<K, Counters>, key: K): (r: map<K, Counters>)
    ensures key in r
    ensures key in counts ==> r[key] == Counters(counts[key].newMeasures + 1, counts[key].totalMeasures + 1)
    ensures key !in counts ==> r[key] == Counters(1, 1)
    ensures forall k :: k != key ==> (k in r <==> k in counts) && (k in counts ==> r[k] == counts[k])
  {
    if key in counts then counts[key := Counters(counts[key].newMeasures + 1, counts[key].totalMeasures + 1)]
    else counts[key := Counters(1, 1)]
  }

  /** The counters after one `Bump` per key, in order. */
  function CountKeys<K(!new)>(counts: map<K, Counters>, keys: seq<K>): map<K, Counters>
  {
    if keys == [] then counts else Bump(CountKeys(counts, keys[..|keys| - 1]), keys[|keys| - 1])
  }

  /**
   * After counting a batch, a key's counters have grown by its number of
   * occurrences; a key new to the map starts at that number; nothing else changes.
   */
  lemma {:induction false} CountKeysEffect<K(!new)>(counts: map<K, Counters>, keys: seq<K>, k: K)
    ensures k in CountKeys(counts, keys) <==> k in counts || k in keys
    ensures k in counts ==>
      CountKeys(counts, keys)[k] == Counters(counts[k].newMeasures + multiset(keys)[k], counts[k].totalMeasures + multiset(keys)[k])
    ensures k !in counts && k in keys ==> CountKeys(counts, keys)[k] == Counters(multiset(keys)[k], multiset(keys)[k])
  {
    if keys != [] {
      var prefix := keys[..|keys| - 1];
      var last := keys[|keys| - 1];
      CountKeysEffect(counts, prefix, k);
      assert keys == prefix + [last];
      assert multiset(keys)[k] == multiset(prefix)[k] + (if last == k then 1 else 0);
      assert k in keys <==> k in prefix || k == last;
      if k !in counts && k !in prefix && k == last {
        assert multiset(prefix)[k] == 0;
      }
    }
  }

  /** Only a measure with a known radio, a nonzero lac and a nonzero cid is counted. */
  predicate Complete(m: CellMeasure)
  {
    !(m.radio == -1 || m.lac == 0 || m.cid == 0)
  }

  function KeyOf(m: CellMeasure): CellKey
  {
    CellKey(m.radio, m.mcc, m.mnc, m.lac, m.cid)
  }

  /** The station keys of the complete measures, in order. */
  function CompleteKeys(ms: seq<CellMeasure>): (keys: seq<CellKey>)
    ensures |keys| <= |ms|
    ensures forall k :: k in keys <==> exists m :: m in ms && Complete(m) && KeyOf(m) == k
  {
    if ms == [] then []
    else
      var prefix := CompleteKeys(ms[..|ms| - 1]);
      var last := ms[|ms| - 1];
      assert forall m :: m in ms <==> m in ms[..|ms| - 1] || m == last;
      if Complete(last) then prefix + [KeyOf(last)] else prefix
  }

  /** Counting one more measure bumps its key exactly when the measure is complete. */
  lemma CountCompleteSnoc(counts: map<CellKey, Counters>, ms: seq<CellMeasure>, m: CellMeasure)
    ensures CountKeys(counts, CompleteKeys(ms + [m])) ==
      if Complete(m) then Bump(CountKeys(counts, CompleteKeys(ms)), KeyOf(m)) else CountKeys(counts, CompleteKeys(ms))
  {
    assert (ms + [m])[..|ms|] == ms;
    if Complete(m) {
      var keys := CompleteKeys(ms) + [KeyOf(m)];
      assert keys[..|keys| - 1] == CompleteKeys(ms);
    }
  }

  // ---------------------------------------------------------------------------
  // Batches (the entry loops of `insert_wifi_measure`, `insert_cell_measure`)
  // ---------------------------------------------------------------------------

  /** The keys of the entries that are not blacklisted, in order. */
  function AcceptedKeys(entries: seq<WifiEntry>, blacklist: set<string>): (keys: seq<string>)
    ensures |keys| <= |entries|
    ensures forall k :: k in keys <==> k !in blacklist && exists e :: e in entries && e.key == k
  {
    if entries == [] then []
    else
      var prefix := AcceptedKeys(entries[..|entries| - 1], blacklist);
      var last := entries[|entries| - 1];
      assert forall e :: e in entries <==> e in entries[..|entries| - 1] || e == last;
      if last.key in blacklist then prefix else prefix + [last.key]
  }

  /**
   * The wifi measures a batch produces: one per entry that is not blacklisted,
   * after converting its frequency; the first failing conversion fails the batch.
   */
  function WifiBatch(data: MeasureData, entries: seq<WifiEntry>, blacklist: set<string>): (r: Result<seq<WifiMeasure>>)
    ensures r.Success? ==> |r.value| <= |entries|
    ensures r.Success? ==> forall m :: m in r.value ==> m.key !in blacklist && m.measureId == data.id
  {
    if entries == [] then Success([])
    else
      var prev := WifiBatch(data, entries[..|entries| - 1], blacklist);
      var last := entries[|entries| - 1];
      if prev.KeyError? || last.key in blacklist then prev
      else match ConvertFrequency(last)
        case KeyError(f) => KeyError(f)
        case Success(converted) => Success(prev.value + [CreateWifiMeasure(data, converted)])
  }

  /** A successful batch has one measure per accepted key, with that key. */
  lemma {:induction false} WifiBatchMatchesKeys(data: MeasureData, entries: seq<WifiEntry>, blacklist: set<string>)
    requires WifiBatch(data, entries, blacklist).Success?
    ensures var ms := WifiBatch(data, entries, blacklist).value;
      var keys := AcceptedKeys(entries, blacklist);
      |ms| == |keys| && forall i :: 0 <= i < |ms| ==> ms[i].key == keys[i]
  {
    if entries != [] {
      var prefix := entries[..|entries| - 1];
      WifiBatchMatchesKeys(data, prefix, blacklist);
    }
  }

  /** The entries whose key is not blacklisted, in order. */
  function AcceptedEntries(entries: seq<WifiEntry>, blacklist: set<string>): (acc: seq<WifiEntry>)
    ensures |acc| <= |entries|
    ensures forall e :: e in acc <==> e in entries && e.key !in blacklist
  {
    if entries == [] then []
    else
      var prefix := AcceptedEntries(entries[..|entries| - 1], blacklist);
      var last := entries[|entries| - 1];
      assert forall e :: e in entries <==> e in entries[..|entries| - 1] || e == last;
      if last.key in blacklist then prefix else prefix + [last]
  }

  /**
   * A successful batch holds, at each position, the measure built from the
   * matching accepted entry after its frequency is converted.
   */
  lemma {:induction false} WifiBatchContents(data: MeasureData, entries: seq<WifiEntry>, blacklist: set<string>)
    requires WifiBatch(data, entries, blacklist).Success?
    ensures var ms := WifiBatch(data, entries, blacklist).value;
      var acc := AcceptedEntries(entries, blacklist);
      && |ms| == |acc|
      && forall i :: 0 <= i < |acc| ==>
           ConvertFrequency(acc[i]).Success? && ms[i] == CreateWifiMeasure(data, ConvertFrequency(acc[i]).value)
  {
    if entries != [] {
      WifiBatchContents(data, entries[..|entries| - 1], blacklist);
    }
  }

  /** Counting one more entry bumps its key exactly when the key is not blacklisted. */
  lemma CountAcceptedStep(counts: map<string, Counters>, entries: seq<WifiEntry>, blacklist: set<string>, i: nat)
    requires i < |entries|
    ensures CountKeys(counts, AcceptedKeys(entries[..i + 1], blacklist)) ==
      if entries[i].key in blacklist then CountKeys(counts, AcceptedKeys(entries[..i], blacklist))
      else Bump(CountKeys(counts, AcceptedKeys(entries[..i], blacklist)), entries[i].key)
  {
    assert entries[..i + 1][..i] == entries[..i];
    if entries[i].key !in blacklist {
      var keys := AcceptedKeys(entries[..i], blacklist) + [entries[i].key];
      assert keys[..|keys| - 1] == AcceptedKeys(entries[..i], blacklist);
    }
  }

  /** The number of entries with the given key. */
  function Occurrences(entries: seq<WifiEntry>, key: string): nat
  {
    if entries == [] then 0
    else Occurrences(entries[..|entries| - 1], key) + (if entries[|entries| - 1].key == key then 1 else 0)
  }

  /** A key is counted once per entry carrying it, unless it is blacklisted. */
  lemma {:induction false} AcceptedKeysCount(entries: seq<WifiEntry>, blacklist: set<string>, key: string)
    ensures multiset(AcceptedKeys(entries, blacklist))[key] == if key in blacklist then 0 else Occurrences(entries, key)
  {
    if entries != [] {
      AcceptedKeysCount(entries[..|entries| - 1], blacklist, key);
    }
  }

  /** A batch fails exactly when some entry that is not blacklisted has a frequency but no channel key. */
  lemma {:induction false} WifiBatchFails(data: MeasureData, entries: seq<WifiEntry>, blacklist: set<string>)
    ensures WifiBatch(data, entries, blacklist).KeyError? <==>
      exists i :: 0 <= i < |entries| && entries[i].key !in blacklist && ConvertFrequency(entries[i]).KeyError?
  {
    if entries != [] {
      var prefix := entries[..|entries| - 1];
      var last := entries[|entries| - 1];
      WifiBatchFails(data, prefix, blacklist);
      WifiBatchFailsStep(data, entries, blacklist);
      var lastFails := last.key !in blacklist && ConvertFrequency(last).KeyError?;
      if WifiBatch(data, prefix, blacklist).KeyError? {
        var i :| 0 <= i < |prefix| && prefix[i].key !in blacklist && ConvertFrequency(prefix[i]).KeyError?;
        assert entries[i] == prefix[i];
      } else if lastFails {
        assert entries[|entries| - 1] == last;
      } else {
        forall i | 0 <= i < |entries|
          ensures entries[i].key in blacklist || !ConvertFrequency(entries[i]).KeyError?
        {
          if i < |prefix| {
            assert prefix[i] == entries[i];
          }
        }
      }
    }
  }

  /** A non-empty batch fails exactly when its prefix fails or its last accepted entry does not convert. */
  lemma WifiBatchFailsStep(data: MeasureData, entries: seq<WifiEntry>, blacklist: set<string>)
    requires entries != []
    ensures var last := entries[|entries| - 1];
      WifiBatch(data, entries, blacklist).KeyError? <==>
      WifiBatch(data, entries[..|entries| - 1], blacklist).KeyError? ||
      (last.key !in blacklist && ConvertFrequency(last).KeyError?)
  {
  }

  /** The cell measures a batch produces, one per entry; the first failing entry fails the batch. */
  function CellBatch(data: MeasureData, entries: seq<CellEntry>, radioType: map<string, int>): (r: Result<seq<CellMeasure>>)
    ensures r.Success? ==> |r.value| == |entries|
  {
    if entries == [] then Success([])
    else
      var prev := CellBatch(data, entries[..|entries| - 1], radioType);
      if prev.KeyError? then prev
      else match CellMeasureOf(data, entries[|entries| - 1], radioType)
        case KeyError(f) => KeyError(f)
        case Success(m) => Success(prev.value + [m])
  }

  /** A batch fails exactly when some entry lacks `mcc` or `mnc`, or its radio cannot be resolved. */
  lemma {:induction false} CellBatchFails(data: MeasureData, entries: seq<CellEntry>, radioType: map<string, int>)
    ensures CellBatch(data, entries, radioType).KeyError? <==>
      exists i :: 0 <= i < |entries| && CellMeasureOf(data, entries[i], radioType).KeyError?
  {
    if entries != [] {
      var prefix := entries[..|entries| - 1];
      CellBatchFails(data, prefix, radioType);
      if exists i :: 0 <= i < |prefix| && CellMeasureOf(data, prefix[i], radioType).KeyError? {
        var i :| 0 <= i < |prefix| && CellMeasureOf(data, prefix[i], radioType).KeyError?;
        assert entries[i] == prefix[i];
      }
      if exists i :: 0 <= i < |entries| && CellMeasureOf(data, entries[i], radioType).KeyError? {
        var i :| 0 <= i < |entries| && CellMeasureOf(data, entries[i], radioType).KeyError?;
        if i < |prefix| {
          assert prefix[i] == entries[i];
        }
      }
    }
  }

  /** How one more entry extends a successful batch. */
  lemma WifiBatchStep(data: MeasureData, entries: seq<WifiEntry>, blacklist: set<string>, i: nat)
    requires i < |entries| && WifiBatch(data, entries[..i], blacklist).Success?
    ensures var prev := WifiBatch(data, entries[..i], blacklist);
      var next := WifiBatch(data, entries[..i + 1], blacklist);
      && (entries[i].key in blacklist ==> next == prev)
      && (entries[i].key !in blacklist && ConvertFrequency(entries[i]).KeyError? ==> next.KeyError?)
      && (entries[i].key !in blacklist && ConvertFrequency(entries[i]).Success? ==>
            next == Success(prev.value + [CreateWifiMeasure(data, ConvertFrequency(entries[i]).value)]))
  {
    assert entries[..i + 1][..i] == entries[..i];
  }

  /** A prefix that fails makes the whole batch fail. */
  lemma {:induction false} WifiBatchPrefixFails(data: MeasureData, entries: seq<WifiEntry>, blacklist: set<string>, j: nat)
    requires j <= |entries| && WifiBatch(data, entries[..j], blacklist).KeyError?
    ensures WifiBatch(data, entries, blacklist).KeyError?
    decreases |entries| - j
  {
    if j < |entries| {
      assert entries[..j + 1][..j] == entries[..j];
      WifiBatchPrefixFails(data, entries, blacklist, j + 1);
    } else {
      assert entries[..j] == entries;
    }
  }

  /** A successful batch holds, at each position, the measure built from that entry. */
  lemma {:induction false} CellBatchContents(data: MeasureData, entries: seq<CellEntry>, radioType: map<string, int>)
    requires CellBatch(data, entries, radioType).Success?
    ensures var ms := CellBatch(data, entries, radioType).value;
      |ms| == |entries| && forall i :: 0 <= i < |entries| ==> CellMeasureOf(data, entries[i], radioType) == Success(ms[i])
  {
    if entries != [] {
      var prefix := entries[..|entries| - 1];
      CellBatchContents(data, prefix, radioType);
    }
  }

  /** One more entry extends a successful batch by its measure, or fails it. */
  lemma CellBatchStep(data: MeasureData, entries: seq<CellEntry>, radioType: map<string, int>, i: nat)
    requires i < |entries| && CellBatch(data, entries[..i], radioType).Success?
    ensures var prev := CellBatch(data, entries[..i], radioType);
      var next := CellBatch(data, entries[..i + 1], radioType);
      && (CellMeasureOf(data, entries[i], radioType).KeyError? ==> next.KeyError?)
      && (CellMeasureOf(data, entries[i], radioType).Success? ==>
            next == Success(prev.value + [CellMeasureOf(data, entries[i], radioType).value]))
  {
    assert entries[..i + 1][..i] == entries[..i];
  }

  /**
   * The cell task's progress: the measures built so far are the batch of the
   * entries read, and the counters have been bumped for the complete ones.
   */
  ghost predicate CellProgress(
    data: MeasureData, entries: seq<CellEntry>, radioType: map<string, int>,
    cells0: map<CellKey, Counters>, pending: seq<CellMeasure>, cells: map<CellKey, Counters>)
  {
    CellBatch(data, entries, radioType) == Success(pending) && cells == CountKeys(cells0, CompleteKeys(pending))
  }

  /** Building and counting one more entry keeps the progress. */
  lemma CellProgressStep(
    data: MeasureData, entries: seq<CellEntry>, radioType: map<string, int>, i: nat,
    cells0: map<CellKey, Counters>, pending: seq<CellMeasure>, cells: map<CellKey, Counters>)
    requires i < |entries| && CellProgress(data, entries[..i], radioType, cells0, pending, cells)
    requires CellMeasureOf(data, entries[i], radioType).Success?
    ensures var cell := CellMeasureOf(data, entries[i], radioType).value;
      CellProgress(data, entries[..i + 1], radioType, cells0, pending + [cell],
                   if Complete(cell) then Bump(cells, KeyOf(cell)) else cells)
  {
    CellBatchStep(data, entries, radioType, i);
    CountCompleteSnoc(cells0, pending, CellMeasureOf(data, entries[i], radioType).value);
  }

  lemma {:induction false} CellBatchPrefixFails(data: MeasureData, entries: seq<CellEntry>, radioType: map<string, int>, j: nat)
    requires j <= |entries| && CellBatch(data, entries[..j], radioType).KeyError?
    ensures CellBatch(data, entries, radioType).KeyError?
    decreases |entries| - j
  {
    if j < |entries| {
      assert entries[..j + 1][..j] == entries[..j];
      CellBatchPrefixFails(data, entries, radioType, j + 1);
    } else {
      assert entries[..j] == entries;
    }
  }

  // ---------------------------------------------------------------------------
  // The stores and their transactions
  // ---------------------------------------------------------------------------

  /** The wifi tables: station counters, the blacklist and the persisted measures. */
  class WifiStore {
    var wifis: map<string, Counters>
    var blacklist: set<string>
    var measures: seq<WifiMeasure>

    constructor (wifis0: map<string, Counters>, blacklist0: set<string>)
      ensures wifis == wifis0 && blacklist == blacklist0 && measures == []
    {
      wifis := wifis0;
      blacklist := blacklist0;
      measures := [];
    }

    /** `update_wifi_measure_count`: one more measure for `key`. */
    method UpdateWifiMeasureCount(key: string)
      modifies this
      ensures wifis == Bump(old(wifis), key)
      ensures blacklist == old(blacklist) && measures == old(measures)
    {
      if key in wifis {
        var wifi := wifis[key];
        wifis := wifis[key := Counters(wifi.newMeasures + 1, wifi.totalMeasures + 1)];
      } else {
        wifis := wifis[key := Counters(1, 1)];
      }
    }

    /**
     * The entry loop of `insert_wifi_measure`: skips blacklisted entries,
     * converts each other entry's frequency, records its measure and counts its
     * key; stops at the first entry whose conversion fails.
     */
    method ProcessEntries(data: MeasureData, entries: seq<WifiEntry>) returns (pending: seq<WifiMeasure>, failed: bool)
      modifies this
      ensures blacklist == old(blacklist) && measures == old(measures)
      ensures failed <==> WifiBatch(data, entries, blacklist).KeyError?
      ensures !failed ==>
        && WifiBatch(data, entries, blacklist) == Success(pending)
        && wifis == CountKeys(old(wifis), AcceptedKeys(entries, blacklist))
    {
      pending := [];
      failed := false;
      for i := 0 to |entries|
        invariant blacklist == old(blacklist) && measures == old(measures)
        invariant WifiBatch(data, entries[..i], blacklist) == Success(pending)
        invariant wifis == CountKeys(old(wifis), AcceptedKeys(entries[..i], blacklist))
      {
        var entry := entries[i];
        WifiBatchStep(data, entries, blacklist, i);
        if entry.key !in blacklist {
          var converted := ConvertFrequency(entry);
          if converted.KeyError? {
            WifiBatchPrefixFails(data, entries, blacklist, i + 1);
            failed := true;
            return;
          }
          pending := pending + [CreateWifiMeasure(data, converted.value)];
          UpdateWifiMeasureCount(entry.key);
        }
        CountAcceptedStep(old(wifis), entries, blacklist, i);
      }
      assert entries[..|entries|] == entries;
    }

    /**
     * `insert_wifi_measure`: processes the entries, then commits. Only a
     * commit without fault changes the store.
     */
    method InsertWifiMeasure(data: MeasureData, entries: seq<WifiEntry>, fault: StorageFault) returns (outcome: Outcome)
      modifies this
      ensures blacklist == old(blacklist)
      ensures WifiBatch(data, entries, old(blacklist)).KeyError? ==> outcome == Retry
      ensures WifiBatch(data, entries, old(blacklist)).Success? ==>
        outcome == (match fault
                    case NoFault => Ok(|WifiBatch(data, entries, old(blacklist)).value|)
                    case IntegrityConflict => Conflict
                    case TransientFailure => Retry)
      ensures ReturnValue(outcome) ==
        if WifiBatch(data, entries, old(blacklist)).KeyError? || fault == TransientFailure then None
        else if fault == IntegrityConflict then Some(0)
        else Some(|WifiBatch(data, entries, old(blacklist)).value|)
      ensures outcome.Ok? ==>
        && measures == old(measures) + WifiBatch(data, entries, old(blacklist)).value
        && wifis == CountKeys(old(wifis), AcceptedKeys(entries, old(blacklist)))
      ensures !outcome.Ok? ==> wifis == old(wifis) && measures == old(measures)
    {
      var savedWifis := wifis;
      var pending, failed := ProcessEntries(data, entries);
      if failed || fault != NoFault {
        wifis := savedWifis;
        outcome := if failed || fault == TransientFailure then Retry else Conflict;
        return;
      }
      measures := measures + pending;
      outcome := Ok(|pending|);
    }
  }

  /** The cell tables: station counters and the persisted measures. */
  class CellStore {
    var cells: map<CellKey, Counters>
    var measures: seq<CellMeasure>

    constructor (cells0: map<CellKey, Counters>)
      ensures cells == cells0 && measures == []
    {
      cells := cells0;
      measures := [];
    }

    /** `update_cell_measure_count`: one more measure for a complete measure's cell. */
    method UpdateCellMeasureCount(measure: CellMeasure)
      modifies this
      ensures cells == if Complete(measure) then Bump(old(cells), KeyOf(measure)) else old(cells)
      ensures measures == old(measures)
    {
      if measure.radio == -1 || measure.lac == 0 || measure.cid == 0 {
        return;
      }
      var key := KeyOf(measure);
      if key in cells {
        var cell := cells[key];
        cells := cells[key := Counters(cell.newMeasures + 1, cell.totalMeasures + 1)];
      } else {
        cells := cells[key := Counters(1, 1)];
      }
    }

    /**
     * The entry loop of `insert_cell_measure`: records one measure per entry,
     * its radio resolved, and counts the complete ones; stops at the first
     * entry that cannot be built.
     */
    method ProcessEntries(data: MeasureData, entries: seq<CellEntry>, radioType: map<string, int>)
      returns (pending: seq<CellMeasure>, failed: bool)
      modifies this
      ensures measures == old(measures)
      ensures failed <==> CellBatch(data, entries, radioType).KeyError?
      ensures !failed ==>
        && CellBatch(data, entries, radioType) == Success(pending)
        && cells == CountKeys(old(cells), CompleteKeys(pending))
    {
      pending := [];
      failed := false;
      for i := 0 to |entries|
        invariant measures == old(measures)
        invariant CellProgress(data, entries[..i], radioType, old(cells), pending, cells)
      {
        var built := CellMeasureOf(data, entries[i], radioType);
        if built.KeyError? {
          CellBatchStep(data, entries, radioType, i);
          CellBatchPrefixFails(data, entries, radioType, i + 1);
          failed := true;
          return;
        }
        CellProgressStep(data, entries, radioType, i, old(cells), pending, cells);
        UpdateCellMeasureCount(built.value);
        pending := pending + [built.value];
      }
      assert entries[..|entries|] == entries;
    }

    /**
     * `insert_cell_measure`: processes the entries, then commits. Only a
     * commit without fault changes the store.
     */
    method InsertCellMeasure(data: MeasureData, entries: seq<CellEntry>, radioType: map<string, int>, fault: StorageFault)
      returns (outcome: Outcome)
      modifies this
      ensures CellBatch(data, entries, radioType).KeyError? ==> outcome == Retry
      ensures CellBatch(data, entries, radioType).Success? ==>
        outcome == (match fault
                    case NoFault => Ok(|entries|)
                    case IntegrityConflict => Conflict
                    case TransientFailure => Retry)
      ensures ReturnValue(outcome) ==
        if CellBatch(data, entries, radioType).KeyError? || fault == TransientFailure then None
        else if fault == IntegrityConflict then Some(0)
        else Some(|entries|)
      ensures outcome.Ok? ==>
        && measures == old(measures) + CellBatch(data, entries, radioType).value
        && cells == CountKeys(old(cells), CompleteKeys(CellBatch(data, entries, radioType).value))
      ensures !outcome.Ok? ==> cells == old(cells) && measures == old(measures)
    {
      var savedCells := cells;
      var pending, failed := ProcessEntries(data, entries, radioType);
      if failed || fault != NoFault {
        cells := savedCells;
        outcome := if failed || fault == TransientFailure then Retry else Conflict;
        return;
      }
      measures := measures + pending;
      outcome := Ok(|pending|);
    }
  }
}
