/**
 * process_aggregated_data: smooth each reading of a completed cycle,
 * convert it to a distance, locate the device and choose the status that
 * is published on the alerts topic.
 */
module Pipeline {
  import opened Json
  import opened Config
  import opened NoiseFilter
  import opened Distance
  import opened Trilateration
  import opened Geofence

  /** The latest reading a node reported for a device. */
  datatype Reading = Reading(node: string, rssi: real, timestamp: Value, location: Point)

  /** One completed cycle of a device: its readings in first-report order. */
  datatype AggEntry = AggEntry(device: Value, timestamp: string, readings: seq<Reading>)

  /** The message published on the alerts topic. */
  datatype AlertResult = AlertResult(device: Value, timestamp: string, status: string, location: Point)

  /**
   * Feeding the readings, in order, through the moving-average filter: the
   * histories afterwards and the filtered RSSI of each reading.
   */
  function SmoothAll(h: map<string, seq<real>>, rs: seq<Reading>): (r: (map<string, seq<real>>, seq<real>))
    ensures |r.1| == |rs|
  {
    if rs == [] then (h, [])
    else
      var prev := SmoothAll(h, rs[..|rs| - 1]);
      var last := rs[|rs| - 1];
      var w := Slide(WindowOf(prev.0, last.node), last.rssi);
      (prev.0[last.node := w], prev.1 + [Mean(w)])
  }

  /**
   * Every RSSI ever fed to the filter, per node, after feeding the
   * readings in order: each reading's RSSI appended under its node.
   */
  ghost function FedAll(fed: map<string, seq<real>>, rs: seq<Reading>): map<string, seq<real>> {
    if rs == [] then fed
    else
      var prev := FedAll(fed, rs[..|rs| - 1]);
      var last := rs[|rs| - 1];
      prev[last.node := (if last.node in prev then prev[last.node] else []) + [last.rssi]]
  }

  /** The distance samples trilateration receives: one per reading, in order. */
  function DistanceSamples(rs: seq<Reading>, filtered: seq<real>): (s: seq<Sample>)
    requires |filtered| == |rs|
    ensures |s| == |rs|
  {
    seq(|rs|, i requires 0 <= i < |rs| => Sample(rs[i].node, RssiToDistance(filtered[i]), rs[i].location))
  }

  /**
   * The alert published for a cycle whose readings were filtered to
   * `filtered`; None where the fallback centroid is undefined. It carries
   * the cycle's device and timestamp, and its status is "Safe" exactly
   * when the estimate lies in the safe zone. With three or more readings
   * the least-squares branch always yields a location.
   */
  function Report(entry: AggEntry, filtered: seq<real>): (r: Option<AlertResult>)
    requires |filtered| == |entry.readings|
    ensures r.Some? ==> r.value.device == entry.device && r.value.timestamp == entry.timestamp
    ensures r.Some? ==> (r.value.status == SafeStatus <==> WithinSafeZone(r.value.location))
    ensures r.Some? ==> (r.value.status == AlertStatus <==> !WithinSafeZone(r.value.location))
    ensures |entry.readings| >= 3 ==> r.Some?
  {
    match Locate(DistanceSamples(entry.readings, filtered))
    case None => None
    case Some(p) => Some(AlertResult(entry.device, entry.timestamp, Status(p), p))
  }

  /** Step 1 of process_aggregated_data: the filtered RSSI of each reading, in order. */
  method SmoothReadings(filter: MovingAverage, rs: seq<Reading>) returns (filtered: seq<real>)
    requires filter.Valid()
    modifies filter
    ensures filter.Valid()
    ensures (filter.history, filtered) == SmoothAll(old(filter.history), rs)
    ensures filter.fed == FedAll(old(filter.fed), rs)
  {
    filtered := [];
    var i := 0;
    while i < |rs|
      invariant 0 <= i <= |rs|
      invariant filter.Valid()
      invariant (filter.history, filtered) == SmoothAll(old(filter.history), rs[..i])
      invariant filter.fed == FedAll(old(filter.fed), rs[..i])
    {
      var avg := filter.Filter(rs[i].node, rs[i].rssi);
      filtered := filtered + [avg];
      assert rs[..i + 1][..i] == rs[..i];
      i := i + 1;
    }
    assert rs[..i] == rs;
  }

  /** Step 2 of process_aggregated_data: each filtered RSSI converted to a distance. */
  method ToDistances(rs: seq<Reading>, filtered: seq<real>) returns (samples: seq<Sample>)
    requires |filtered| == |rs|
    ensures samples == DistanceSamples(rs, filtered)
  {
    samples := [];
    var j := 0;
    while j < |rs|
      invariant 0 <= j <= |rs|
      invariant samples == DistanceSamples(rs, filtered)[..j]
    {
      samples := samples + [Sample(rs[j].node, RssiToDistance(filtered[j]), rs[j].location)];
      j := j + 1;
    }
  }

  /**
   * process_aggregated_data: filters every reading, converts the results
   * to distances, locates the device and picks the status to publish.
   */
  method Process(filter: MovingAverage, entry: AggEntry) returns (alert: Option<AlertResult>)
    requires filter.Valid()
    modifies filter
    ensures filter.Valid()
    ensures filter.history == SmoothAll(old(filter.history), entry.readings).0
    ensures filter.fed == FedAll(old(filter.fed), entry.readings)
    ensures alert == Report(entry, SmoothAll(old(filter.history), entry.readings).1)
  {
    var filtered := SmoothReadings(filter, entry.readings);
    var samples := ToDistances(entry.readings, filtered);
    var location := Trilaterate(samples);
    match location {
      case None => alert := None;
      case Some(p) => alert := Some(AlertResult(entry.device, entry.timestamp, Status(p), p));
    }
  }

  /** Every value in every window of h lies within [lo, hi]. */
  ghost predicate WindowsWithin(h: map<string, seq<real>>, lo: real, hi: real) {
    forall node, k :: node in h && 0 <= k < |h[node]| ==> lo <= h[node][k] <= hi
  }

  /**
   * Readings within the validated RSSI range keep every window, and so
   * every filtered value, within that range.
   */
  lemma {:induction false} SmoothedWithinRange(h: map<string, seq<real>>, rs: seq<Reading>)
    requires WindowsWithin(h, RssiMin, RssiMax)
    requires forall i :: 0 <= i < |rs| ==> RssiMin <= rs[i].rssi <= RssiMax
    ensures WindowsWithin(SmoothAll(h, rs).0, RssiMin, RssiMax)
    ensures forall i :: 0 <= i < |rs| ==> RssiMin <= SmoothAll(h, rs).1[i] <= RssiMax
  {
    if rs != [] {
      var init, last := rs[..|rs| - 1], rs[|rs| - 1];
      var prev := SmoothAll(h, init);
      assert WindowsWithin(prev.0, RssiMin, RssiMax)
          && forall i :: 0 <= i < |init| ==> RssiMin <= prev.1[i] <= RssiMax by {
        assert forall i :: 0 <= i < |init| ==> init[i] == rs[i];
        SmoothedWithinRange(h, init);
      }
      var w := Slide(WindowOf(prev.0, last.node), last.rssi);
      SlideWithin(prev.0, last.node, last.rssi, RssiMin, RssiMax);
      MeanBounds(w, RssiMin, RssiMax);
      assert SmoothAll(h, rs) == (prev.0[last.node := w], prev.1 + [Mean(w)]);
    }
  }

  /** Sliding an in-range value into an in-range window keeps every window in range. */
  lemma SlideWithin(h: map<string, seq<real>>, node: string, x: real, lo: real, hi: real)
    requires WindowsWithin(h, lo, hi) && lo <= x <= hi
    ensures var w := Slide(WindowOf(h, node), x);
            && (forall k :: 0 <= k < |w| ==> lo <= w[k] <= hi)
            && WindowsWithin(h[node := w], lo, hi)
  {
    var prior := WindowOf(h, node);
    assert forall k :: 0 <= k < |prior| ==> lo <= prior[k] <= hi;
    var w := Slide(prior, x);
    assert forall k :: 0 <= k < |w| ==> lo <= w[k] <= hi by {
      forall k | 0 <= k < |w| ensures lo <= w[k] <= hi {
        if k < |w| - 1 {
          var j :| 0 <= j < |prior| && prior[j] == w[k];
        }
      }
    }
  }

  /** Each distance derived from validated readings lies in [-3.0, 12.0]. */
  lemma DistancesWithinRange(h: map<string, seq<real>>, rs: seq<Reading>)
    requires WindowsWithin(h, RssiMin, RssiMax)
    requires forall i :: 0 <= i < |rs| ==> RssiMin <= rs[i].rssi <= RssiMax
    ensures forall i :: 0 <= i < |rs| ==>
              -3.0 <= DistanceSamples(rs, SmoothAll(h, rs).1)[i].distance <= 12.0
  {
    SmoothedWithinRange(h, rs);
    var f := SmoothAll(h, rs).1;
    forall i | 0 <= i < |rs|
      ensures -3.0 <= DistanceSamples(rs, f)[i].distance <= 12.0
    {
      DistanceRange(f[i]);
    }
  }

  /** Only the windows of the nodes named by the readings change. */
  lemma {:induction false} OtherWindowsUnchanged(h: map<string, seq<real>>, rs: seq<Reading>, node: string)
    requires forall i :: 0 <= i < |rs| ==> rs[i].node != node
    ensures WindowOf(SmoothAll(h, rs).0, node) == WindowOf(h, node)
  {
    if rs != [] {
      OtherWindowsUnchanged(h, rs[..|rs| - 1], node);
    }
  }

  /**
   * Windows are keyed by node only: a reading of -40 left in Node_A's
   * window by one device pulls another device's -80 reading to -60.
   */
  lemma SharedWindowExample()
    ensures var r := Reading("Node_A", -80.0, Int(1), NodeLocations["Node_A"]);
            SmoothAll(map["Node_A" := [-40.0]], [r]).1 == [-60.0]
  {
    var r := Reading("Node_A", -80.0, Int(1), NodeLocations["Node_A"]);
    assert [r][..0] == [];
    var w := Slide([-40.0], -80.0);
    assert w == [-40.0, -80.0];
    assert w[..1] == [-40.0] && w[..1][..0] == [];
    assert Sum(w) == -120.0;
  }
}
