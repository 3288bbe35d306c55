/** The scan map of the search: one data point set per MS1 scan, seeded with
    a dummy point, into which every peak adds its intensity at each scan where
    it has a data point, tagged with the peak's m/z. The peak loop builds the
    peak rows at the same time and fails at the first scan of a peak that is
    missing from the raw file or is not an MS1 scan.

    The specification keeps, per scan, the sequence of points handed to the
    set (`inserted`); the set itself is TreeOf of that sequence, and
    dataPointCount is the total length of those sequences. */
module ScanMap {
  import opened CameraTypes
  import opened PointSet
  import opened PeakRows

  /** Sample `s` is the peak's data point in one of its listed scans: an MS1
      scan of the file whose retention time `s` carries, with the intensity
      of the peak's own data point there. */
  predicate Drawn(raw: RawFile, peak: Feature, scans: seq<int>, s: Sample) {
    && s.scan in scans
    && s.scan in peak.dataPoints
    && IsMs1(raw, s.scan)
    && s.rt == GetScan(raw, s.scan).value.retentionTime
    && s.intensity == peak.dataPoints[s.scan].intensity
  }

  /** The inner loop over a peak's scans: for each listed scan in order, look
      the scan up, fail if it is missing or not MS1, and keep a sample where
      the peak has a data point. */
  function Samples(raw: RawFile, peak: Feature, scans: seq<int>): (r: Result<seq<Sample>, SearchError>)
    ensures r.Ok? <==> forall j :: 0 <= j < |scans| ==> IsMs1(raw, scans[j])
    ensures r.Err? ==> r.error == WrongMsLevel || r.error == MissingScan
    ensures r.Ok? ==> |r.value| <= |scans|
    ensures r.Ok? ==> forall s :: s in r.value ==> Drawn(raw, peak, scans, s)
  {
    if scans == [] then Ok([])
    else
      var init := scans[..|scans| - 1];
      var n := scans[|scans| - 1];
      assert scans == init + [n];
      match Samples(raw, peak, init)
      case Err(e) => Err(e)
      case Ok(ss) =>
        match GetScan(raw, n)
        case None => Err(MissingScan)
        case Some(scan) =>
          if scan.msLevel != MS_LEVEL then Err(WrongMsLevel)
          else if n in peak.dataPoints then Ok(ss + [Sample(n, scan.retentionTime, peak.dataPoints[n].intensity)])
          else Ok(ss)
  }

  /** The listed scans where the peak has a data point, in list order, a scan
      listed twice counted twice. */
  function WithData(peak: Feature, scans: seq<int>): (r: seq<int>)
    ensures |r| <= |scans|
    ensures forall n :: n in r ==> n in scans && n in peak.dataPoints
  {
    if scans == [] then []
    else
      var last := scans[|scans| - 1];
      WithData(peak, scans[..|scans| - 1]) + (if last in peak.dataPoints then [last] else [])
  }

  /** A successful inner loop yields one sample per listed scan where the peak
      has a data point, in list order, and nothing else. */
  lemma {:induction false} SamplesScans(raw: RawFile, peak: Feature, scans: seq<int>)
    requires Samples(raw, peak, scans).Ok?
    ensures |Samples(raw, peak, scans).value| == |WithData(peak, scans)|
    ensures forall i :: 0 <= i < |WithData(peak, scans)| ==>
      Samples(raw, peak, scans).value[i].scan == WithData(peak, scans)[i]
  {
    if scans != [] {
      var init := scans[..|scans| - 1];
      assert scans == init + [scans[|scans| - 1]];
      SamplesScans(raw, peak, init);
    }
  }

  /** Every listed scan where the peak has a data point yields a sample. */
  lemma {:induction false} SamplesComplete(raw: RawFile, peak: Feature, scans: seq<int>, n: int)
    requires Samples(raw, peak, scans).Ok?
    requires n in scans && n in peak.dataPoints
    ensures exists s :: s in Samples(raw, peak, scans).value && s.scan == n
  {
    var init := scans[..|scans| - 1];
    var last := scans[|scans| - 1];
    assert scans == init + [last];
    if n != last {
      SamplesComplete(raw, peak, init, n);
      var s :| s in Samples(raw, peak, init).value && s.scan == n;
      assert s in Samples(raw, peak, scans).value;
    }
  }

  /** The error names the first listed scan that is not an MS1 scan: missing
      from the file, or present at another MS level. */
  lemma {:induction false} SamplesFirstError(raw: RawFile, peak: Feature, scans: seq<int>, j: int)
    requires 0 <= j < |scans| && !IsMs1(raw, scans[j])
    requires forall i :: 0 <= i < j ==> IsMs1(raw, scans[i])
    ensures Samples(raw, peak, scans) == Err(if GetScan(raw, scans[j]).None? then MissingScan else WrongMsLevel)
  {
    var init := scans[..|scans| - 1];
    assert scans == init + [scans[|scans| - 1]];
    if j < |scans| - 1 {
      SamplesFirstError(raw, peak, init, j);
    } else {
      assert Samples(raw, peak, init).Ok?;
    }
  }

  /** The map holds a set for every MS1 scan of the file. */
  ghost predicate Covers(raw: RawFile, m: map<int, seq<DataPoint>>) {
    forall n :: IsMs1(raw, n) ==> n in m
  }

  /** The scan map before any peak: each listed scan holds the dummy point. */
  function Seeded(keys: seq<int>, dummy: DataPoint): map<int, seq<DataPoint>> {
    map k | k in keys :: [dummy]
  }

  /** The points the samples hand to the set of scan `k`, in order. */
  function Appended(ss: seq<Sample>, k: int, mz: real): seq<DataPoint> {
    if ss == [] then []
    else
      var s := ss[|ss| - 1];
      Appended(ss[..|ss| - 1], k, mz) + (if s.scan == k then [DataPoint(mz, s.intensity)] else [])
  }

  /** The points handed to scan `k` all carry the peak's m/z and the
      intensity of a sample in `k`; there are none when no sample is in `k`. */
  lemma {:induction false} AppendedShape(ss: seq<Sample>, k: int, mz: real)
    ensures forall q :: q in Appended(ss, k, mz) ==>
      q.mz == mz && exists s :: s in ss && s.scan == k && s.intensity == q.intensity
    ensures Appended(ss, k, mz) == [] <==> forall s :: s in ss ==> s.scan != k
  {
    if ss != [] {
      var init := ss[..|ss| - 1];
      var s := ss[|ss| - 1];
      assert ss == init + [s];
      AppendedShape(init, k, mz);
    }
  }

  /** Adding a peak's samples to the scan map: each sample appends a point
      with the peak's m/z and the sample's intensity to its own scan. */
  function Deliver(ins: map<int, seq<DataPoint>>, mz: real, ss: seq<Sample>): (r: map<int, seq<DataPoint>>)
    requires forall s :: s in ss ==> s.scan in ins
    ensures r.Keys == ins.Keys
    ensures forall k :: k in ins ==> r[k] == ins[k] + Appended(ss, k, mz)
  {
    if ss == [] then ins
    else
      var init := ss[..|ss| - 1];
      var s := ss[|ss| - 1];
      assert ss == init + [s];
      var prev := Deliver(ins, mz, init);
      prev[s.scan := prev[s.scan] + [DataPoint(mz, s.intensity)]]
  }

  /** The data point sets: each the TreeSet built from what was handed to it. */
  function Trees(ins: map<int, seq<DataPoint>>): map<int, seq<DataPoint>> {
    map k | k in ins :: TreeOf(ins[k])
  }

  /** Handing one more point to scan `k` is TreeSet.add on that scan's set. */
  lemma TreesAdd(ins: map<int, seq<DataPoint>>, k: int, p: DataPoint)
    requires k in ins
    ensures Trees(ins[k := ins[k] + [p]]) == Trees(ins)[k := Insert(Trees(ins)[k], p)]
  {
    var xs := ins[k] + [p];
    assert xs[..|xs| - 1] == ins[k];
  }

  /** The number of points handed to the sets of `keys`: dataPointCount. */
  function TotalLen(keys: seq<int>, m: map<int, seq<DataPoint>>): nat
    requires forall k :: k in keys ==> k in m
  {
    if keys == [] then 0
    else
      var last := keys[|keys| - 1];
      assert last in keys;
      TotalLen(keys[..|keys| - 1], m) + |m[last]|
  }

  /** Replacing one scan's sequence changes the total by the change in its length. */
  lemma {:induction false} TotalLenUpdate(keys: seq<int>, m: map<int, seq<DataPoint>>, k: int, v: seq<DataPoint>)
    requires Distinct(keys)
    requires forall j :: j in keys ==> j in m
    requires k in m
    ensures TotalLen(keys, m[k := v]) == TotalLen(keys, m) + (if k in keys then |v| - |m[k]| else 0)
  {
    if keys != [] {
      var init := keys[..|keys| - 1];
      var last := keys[|keys| - 1];
      assert keys == init + [last];
      TotalLenUpdate(init, m, k, v);
      if last == k {
        assert k !in init;
      }
    }
  }

  /** Each sample of a peak raises dataPointCount by one. */
  lemma {:induction false} DeliverCount(keys: seq<int>, ins: map<int, seq<DataPoint>>, mz: real, ss: seq<Sample>)
    requires Distinct(keys)
    requires forall k :: k in keys ==> k in ins
    requires forall s :: s in ss ==> s.scan in keys && s.scan in ins
    ensures TotalLen(keys, Deliver(ins, mz, ss)) == TotalLen(keys, ins) + |ss|
  {
    if ss != [] {
      var init := ss[..|ss| - 1];
      var s := ss[|ss| - 1];
      assert ss == init + [s];
      DeliverCount(keys, ins, mz, init);
      var prev := Deliver(ins, mz, init);
      TotalLenUpdate(keys, prev, s.scan, prev[s.scan] + [DataPoint(mz, s.intensity)]);
    }
  }

  /** A set per scan holding a point at least: dataPointCount is at least the number of scans. */
  lemma {:induction false} TotalLenAtLeastKeys(keys: seq<int>, m: map<int, seq<DataPoint>>)
    requires forall k :: k in keys ==> k in m && |m[k]| >= 1
    ensures TotalLen(keys, m) >= |keys|
  {
    if keys != [] {
      assert keys == keys[..|keys| - 1] + [keys[|keys| - 1]];
      TotalLenAtLeastKeys(keys[..|keys| - 1], m);
    }
  }

  /** What one peak contributes: the new scan map, its row, and how many
      points it handed to the sets. */
  datatype Step = Step(inserted: map<int, seq<DataPoint>>, row: seq<real>, added: nat)

  function PeakStep(raw: RawFile, peak: Feature, ins: map<int, seq<DataPoint>>): Result<Step, SearchError>
    requires Covers(raw, ins)
  {
    match Samples(raw, peak, peak.scanNumbers)
    case Err(e) => Err(e)
    case Ok(ss) => Ok(Step(Deliver(ins, peak.mz, ss), PeakRow(peak, ss), |ss|))
  }

  /** A peak adds points only to the sets of its own listed scans where it has
      a data point; each added point carries the peak's m/z (not the raw
      point's) and the raw point's intensity; every other set is unchanged. */
  lemma PeakStepTouchesOwnScans(raw: RawFile, peak: Feature, ins: map<int, seq<DataPoint>>, k: int)
    requires Covers(raw, ins) && k in ins
    requires PeakStep(raw, peak, ins).Ok?
    ensures var after := PeakStep(raw, peak, ins).value.inserted[k];
      && |after| >= |ins[k]| && after[..|ins[k]|] == ins[k]
      && (|after| > |ins[k]| <==> k in peak.scanNumbers && k in peak.dataPoints)
      && forall q :: q in after[|ins[k]|..] ==> q == DataPoint(peak.mz, peak.dataPoints[k].intensity)
  {
    var ss := Samples(raw, peak, peak.scanNumbers).value;
    var after := PeakStep(raw, peak, ins).value.inserted[k];
    AppendedShape(ss, k, peak.mz);
    assert after == ins[k] + Appended(ss, k, peak.mz);
    assert after[|ins[k]|..] == Appended(ss, k, peak.mz);
    if k in peak.scanNumbers && k in peak.dataPoints {
      SamplesComplete(raw, peak, peak.scanNumbers, k);
    }
  }

  /** The scan map and the peak rows after the peak loop, or its error. */
  datatype Pass = Pass(inserted: map<int, seq<DataPoint>>, rows: seq<seq<real>>)

  function PeakPass(raw: RawFile, peaks: seq<Feature>, start: map<int, seq<DataPoint>>): (r: Result<Pass, SearchError>)
    requires Covers(raw, start)
    ensures r.Ok? ==> r.value.inserted.Keys == start.Keys
  {
    if peaks == [] then Ok(Pass(start, []))
    else
      match PeakPass(raw, peaks[..|peaks| - 1], start)
      case Err(e) => Err(e)
      case Ok(p) =>
        match PeakStep(raw, peaks[|peaks| - 1], p.inserted)
        case Err(e) => Err(e)
        case Ok(st) => Ok(Pass(st.inserted, p.rows + [st.row]))
  }

  /** The scan map built by the search: seeded per MS1 scan, then filled peak by peak. */
  function ScanMapOf(raw: RawFile, peaks: seq<Feature>, dummy: DataPoint): Result<Pass, SearchError>
    requires DistinctNumbers(raw)
  {
    var ms1 := ScanNumbersAt(raw, MS_LEVEL);
    assert Covers(raw, Seeded(ms1, dummy)) by {
      forall n | IsMs1(raw, n) ensures n in Seeded(ms1, dummy) {
        Ms1Listed(raw, n);
      }
    }
    PeakPass(raw, peaks, Seeded(ms1, dummy))
  }

  /** The peak loop succeeds exactly when every listed scan of every peak is
      an MS1 scan of the file; otherwise it ends with one of the two errors. */
  lemma {:induction false} PeakPassSucceedsIff(raw: RawFile, peaks: seq<Feature>, start: map<int, seq<DataPoint>>)
    requires Covers(raw, start)
    ensures PeakPass(raw, peaks, start).Ok? <==>
      forall i, j :: 0 <= i < |peaks| && 0 <= j < |peaks[i].scanNumbers| ==> IsMs1(raw, peaks[i].scanNumbers[j])
    ensures PeakPass(raw, peaks, start).Err? ==>
      PeakPass(raw, peaks, start).error in {WrongMsLevel, MissingScan}
  {
    if peaks != [] {
      var init := peaks[..|peaks| - 1];
      assert peaks == init + [peaks[|peaks| - 1]];
      PeakPassSucceedsIff(raw, init, start);
    }
  }

  /** One row per peak, in peak order, each built from that peak's samples. */
  lemma {:induction false} PeakPassRows(raw: RawFile, peaks: seq<Feature>, start: map<int, seq<DataPoint>>)
    requires Covers(raw, start)
    requires PeakPass(raw, peaks, start).Ok?
    ensures |PeakPass(raw, peaks, start).value.rows| == |peaks|
    ensures forall i :: 0 <= i < |peaks| ==>
      Samples(raw, peaks[i], peaks[i].scanNumbers).Ok? &&
      PeakPass(raw, peaks, start).value.rows[i] == PeakRow(peaks[i], Samples(raw, peaks[i], peaks[i].scanNumbers).value)
  {
    if peaks != [] {
      var init := peaks[..|peaks| - 1];
      assert peaks == init + [peaks[|peaks| - 1]];
      PeakPassRows(raw, init, start);
    }
  }

  /** Every set keeps the point it was seeded with as its first entry. */
  lemma {:induction false} PeakPassKeepsSeed(raw: RawFile, peaks: seq<Feature>, start: map<int, seq<DataPoint>>, dummy: DataPoint)
    requires Covers(raw, start)
    requires forall k :: k in start ==> start[k] != [] && start[k][0] == dummy
    requires PeakPass(raw, peaks, start).Ok?
    ensures forall k :: k in PeakPass(raw, peaks, start).value.inserted ==>
      PeakPass(raw, peaks, start).value.inserted[k] != [] &&
      PeakPass(raw, peaks, start).value.inserted[k][0] == dummy
  {
    if peaks != [] {
      var init := peaks[..|peaks| - 1];
      PeakPassKeepsSeed(raw, init, start, dummy);
    }
  }
}
