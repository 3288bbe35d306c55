/** The marshalling part of cameraSearch: the scan map seeded per MS1 scan,
    the peak loop that fills it and builds the peak rows, and the vector fill
    that flattens it, proved against the specification `Translate`: the rows
    of the peaks matrix and the four raw-signal vectors R receives. */
module CameraSearch {
  import opened CameraTypes
  import opened PointSet
  import opened PeakRows
  import opened ScanMap
  import opened RawVectors

  /** What the search hands to R before CAMERA runs: the peaks matrix, one
      row per peak, and the raw-signal vectors. */
  datatype Translation = Translation(rows: seq<seq<real>>, vectors: Vectors)

  /** The points handed to the sets of the first peaks' listed scans. */
  function SampleCount(raw: RawFile, peaks: seq<Feature>): nat {
    if peaks == [] then 0
    else
      var p := peaks[|peaks| - 1];
      var ss := Samples(raw, p, p.scanNumbers);
      SampleCount(raw, peaks[..|peaks| - 1]) + (if ss.Ok? then |ss.value| else 0)
  }

  /** The peaks matrix and the vectors for `peaks` of the raw file `raw`, or
      the error of the peak loop. */
  function Translate(raw: RawFile, peaks: seq<Feature>, dummy: DataPoint): Result<Translation, SearchError>
    requires DistinctNumbers(raw)
  {
    match ScanMapOf(raw, peaks, dummy)
    case Err(e) => Err(e)
    case Ok(p) =>
      var ms1 := ScanNumbersAt(raw, MS_LEVEL);
      assert forall k :: k in ms1 ==> k in Seeded(ms1, dummy);
      Ok(Translation(p.rows, Flatten(ScansAt(raw, MS_LEVEL), Trees(p.inserted), TotalLen(ms1, p.inserted))))
  }

  // ----- The scan map -----

  /** A map with one single-point set per key counts one point per key. */
  lemma {:induction false} TotalLenOnes(keys: seq<int>, m: map<int, seq<DataPoint>>)
    requires forall k :: k in keys ==> k in m && |m[k]| == 1
    ensures TotalLen(keys, m) == |keys|
  {
    if keys != [] {
      var init := keys[..|keys| - 1];
      assert forall k :: k in init ==> k in keys;
      TotalLenOnes(init, m);
    }
  }

  /** The loop over getScanNumbers(1) that gives every MS1 scan its own set
      holding the dummy point, counting one point per scan. */
  method SeedScanMap(raw: RawFile, dummy: DataPoint) returns (sets: map<int, seq<DataPoint>>, count: nat)
    ensures sets == Trees(Seeded(ScanNumbersAt(raw, MS_LEVEL), dummy))
    ensures count == |ScanNumbersAt(raw, MS_LEVEL)|
    ensures count == TotalLen(ScanNumbersAt(raw, MS_LEVEL), Seeded(ScanNumbersAt(raw, MS_LEVEL), dummy))
  {
    var ms1 := ScanNumbersAt(raw, MS_LEVEL);
    sets := map[];
    count := 0;
    var i := 0;
    while i < |ms1|
      invariant 0 <= i <= |ms1| && count == i
      invariant forall k :: k in sets <==> k in ms1[..i]
      invariant forall k :: k in sets ==> sets[k] == [dummy]
    {
      var dataPoints := Insert([], dummy);
      sets := sets[ms1[i] := dataPoints];
      count := count + 1;
      assert ms1[..i + 1] == ms1[..i] + [ms1[i]];
      i := i + 1;
    }
    assert ms1[..i] == ms1;
    ghost var seeded := Seeded(ms1, dummy);
    forall k | k in seeded ensures TreeOf(seeded[k]) == [dummy] {
      assert seeded[k][..0] == [];
    }
    assert forall k :: k in sets <==> k in seeded;
    TotalLenOnes(ms1, seeded);
  }

  /** What one pass of the peak loop yields: the updated sets, dataPointCount
      and the peak's row. */
  datatype Added = Added(sets: map<int, seq<DataPoint>>, count: nat, row: seq<real>)

  /** The state of the scan loop of a peak after its first `j` listed scans:
      the samples `ss` drawn so far, the sets with their points added, the
      count raised by one per sample, and the ranges accumulated over them. */
  ghost predicate Collected(raw: RawFile, peak: Feature, ins: map<int, seq<DataPoint>>, count: nat, j: nat,
                            ss: seq<Sample>, current: map<int, seq<DataPoint>>, n: nat,
                            rtRange: Option<Range>, intRange: Option<Range>)
    requires Covers(raw, ins)
  {
    && j <= |peak.scanNumbers|
    && Samples(raw, peak, peak.scanNumbers[..j]) == Ok(ss)
    && (forall s :: s in ss ==> s.scan in ins)
    && current == Trees(Deliver(ins, peak.mz, ss))
    && n == count + |ss|
    && rtRange == Span(Rts(ss)) && intRange == Span(Intensities(ss))
  }

  /** Before the first listed scan nothing is collected. */
  lemma CollectStart(raw: RawFile, peak: Feature, ins: map<int, seq<DataPoint>>, count: nat)
    requires Covers(raw, ins)
    ensures Collected(raw, peak, ins, count, 0, [], Trees(ins), count, None, None)
  {
    assert peak.scanNumbers[..0] == [];
  }

  /** The samples of one more listed scan that is an MS1 scan: one more
      sample where the peak has a data point, none otherwise. */
  lemma SamplesStep(raw: RawFile, peak: Feature, j: nat, ss: seq<Sample>)
    requires j < |peak.scanNumbers| && IsMs1(raw, peak.scanNumbers[j])
    requires Samples(raw, peak, peak.scanNumbers[..j]) == Ok(ss)
    ensures var k := peak.scanNumbers[j];
      Samples(raw, peak, peak.scanNumbers[..j + 1]) ==
        Ok(if k in peak.dataPoints
           then ss + [Sample(k, GetScan(raw, k).value.retentionTime, peak.dataPoints[k].intensity)]
           else ss)
  {
    var scans := peak.scanNumbers;
    assert scans[..j + 1][..j] == scans[..j] && scans[..j + 1][j] == scans[j];
  }

  /** Delivering one more sample appends its point to its own scan. */
  lemma DeliverStep(ins: map<int, seq<DataPoint>>, mz: real, ss: seq<Sample>, s: Sample)
    requires forall t :: t in ss ==> t.scan in ins
    requires s.scan in ins
    ensures forall t :: t in ss + [s] ==> t.scan in ins
    ensures Deliver(ins, mz, ss + [s]) ==
      Deliver(ins, mz, ss)[s.scan := Deliver(ins, mz, ss)[s.scan] + [DataPoint(mz, s.intensity)]]
  {
    assert (ss + [s])[..|ss|] == ss;
  }

  /** The ranges over one more sample extend those over the earlier ones. */
  lemma SpanStep(ss: seq<Sample>, s: Sample)
    ensures Span(Rts(ss + [s])) == Some(Extend(Span(Rts(ss)), s.rt))
    ensures Span(Intensities(ss + [s])) == Some(Extend(Span(Intensities(ss)), s.intensity))
  {
    assert Rts(ss + [s])[..|ss|] == Rts(ss);
    assert Intensities(ss + [s])[..|ss|] == Intensities(ss);
  }

  /** One more listed MS1 scan where the peak has a data point: one more
      sample, its point added to the scan's set, the count raised by one and
      both ranges extended. */
  lemma CollectAdd(raw: RawFile, peak: Feature, ins: map<int, seq<DataPoint>>, count: nat, j: nat,
                   ss: seq<Sample>, current: map<int, seq<DataPoint>>, n: nat,
                   rtRange: Option<Range>, intRange: Option<Range>)
    requires Covers(raw, ins)
    requires Collected(raw, peak, ins, count, j, ss, current, n, rtRange, intRange)
    requires j < |peak.scanNumbers| && IsMs1(raw, peak.scanNumbers[j])
    requires peak.scanNumbers[j] in peak.dataPoints
    ensures var k := peak.scanNumbers[j];
      var s := Sample(k, GetScan(raw, k).value.retentionTime, peak.dataPoints[k].intensity);
      && k in current && Ascending(current[k])
      && Collected(raw, peak, ins, count, j + 1, ss + [s],
                   current[k := Insert(current[k], DataPoint(peak.mz, s.intensity))], n + 1,
                   Some(Extend(rtRange, s.rt)), Some(Extend(intRange, s.intensity)))
  {
    var k := peak.scanNumbers[j];
    var s := Sample(k, GetScan(raw, k).value.retentionTime, peak.dataPoints[k].intensity);
    SamplesStep(raw, peak, j, ss);
    DeliverStep(ins, peak.mz, ss, s);
    var before := Deliver(ins, peak.mz, ss);
    TreesAdd(before, k, DataPoint(peak.mz, s.intensity));
    SpanStep(ss, s);
  }

  /** One more listed MS1 scan where the peak has no data point changes nothing. */
  lemma CollectSkip(raw: RawFile, peak: Feature, ins: map<int, seq<DataPoint>>, count: nat, j: nat,
                    ss: seq<Sample>, current: map<int, seq<DataPoint>>, n: nat,
                    rtRange: Option<Range>, intRange: Option<Range>)
    requires Covers(raw, ins)
    requires Collected(raw, peak, ins, count, j, ss, current, n, rtRange, intRange)
    requires j < |peak.scanNumbers| && IsMs1(raw, peak.scanNumbers[j])
    requires peak.scanNumbers[j] !in peak.dataPoints
    ensures Collected(raw, peak, ins, count, j + 1, ss, current, n, rtRange, intRange)
  {
    SamplesStep(raw, peak, j, ss);
  }

  /** A listed scan that is not an MS1 scan ends the peak with the error
      for it. */
  lemma CollectFails(raw: RawFile, peak: Feature, ins: map<int, seq<DataPoint>>, j: nat)
    requires Covers(raw, ins)
    requires j < |peak.scanNumbers| && Samples(raw, peak, peak.scanNumbers[..j]).Ok?
    requires !IsMs1(raw, peak.scanNumbers[j])
    ensures PeakStep(raw, peak, ins) ==
      Err(if GetScan(raw, peak.scanNumbers[j]).None? then MissingScan else WrongMsLevel)
  {
    var scans := peak.scanNumbers;
    assert forall i :: 0 <= i < j ==> IsMs1(raw, scans[..j][i]);
    SamplesFirstError(raw, peak, scans, j);
  }

  /** After the last listed scan the sets, the count and the ranges are those
      of the peak's step. */
  lemma CollectEnd(raw: RawFile, peak: Feature, ins: map<int, seq<DataPoint>>, count: nat,
                   ss: seq<Sample>, current: map<int, seq<DataPoint>>, n: nat,
                   rtRange: Option<Range>, intRange: Option<Range>)
    requires Covers(raw, ins)
    requires Collected(raw, peak, ins, count, |peak.scanNumbers|, ss, current, n, rtRange, intRange)
    ensures PeakStep(raw, peak, ins).Ok?
    ensures current == Trees(PeakStep(raw, peak, ins).value.inserted)
    ensures n == count + PeakStep(raw, peak, ins).value.added
    ensures PeakStep(raw, peak, ins).value.row == PeakRow(peak, ss)
    ensures rtRange == Span(Rts(ss)) && intRange == Span(Intensities(ss))
  {
    assert peak.scanNumbers[..|peak.scanNumbers|] == peak.scanNumbers;
  }

  /** One pass of the peak loop: for each listed scan of the peak, look the
      scan up, abort unless it is an MS1 scan, and where the peak has a data
      point add (peak m/z, intensity) to the scan's set, count it, and extend
      the retention-time and intensity ranges; then build the peak's row. */
  method AddPeak(raw: RawFile, peak: Feature, sets: map<int, seq<DataPoint>>, count: nat,
                 ghost ins: map<int, seq<DataPoint>>)
    returns (r: Result<Added, SearchError>)
    requires Covers(raw, ins) && sets == Trees(ins)
    ensures PeakStep(raw, peak, ins).Err? ==> r == Err(PeakStep(raw, peak, ins).error)
    ensures PeakStep(raw, peak, ins).Ok? ==> r.Ok?
    ensures PeakStep(raw, peak, ins).Ok? ==> r.value.sets == Trees(PeakStep(raw, peak, ins).value.inserted)
    ensures PeakStep(raw, peak, ins).Ok? ==> r.value.count == count + PeakStep(raw, peak, ins).value.added
    ensures PeakStep(raw, peak, ins).Ok? ==> r.value.row == PeakStep(raw, peak, ins).value.row
  {
    var mz := peak.mz;
    var scans := peak.scanNumbers;
    var current := sets;
    var n := count;
    var rtRange: Option<Range> := None;
    var intRange: Option<Range> := None;
    ghost var ss: seq<Sample> := [];
    CollectStart(raw, peak, ins, count);
    var j := 0;
    while j < |scans|
      invariant Collected(raw, peak, ins, count, j, ss, current, n, rtRange, intRange)
    {
      var scanNumber := scans[j];
      var scan := GetScan(raw, scanNumber);
      if scan.None? {
        CollectFails(raw, peak, ins, j);
        return Err(MissingScan);
      }
      if scan.value.msLevel != MS_LEVEL {
        CollectFails(raw, peak, ins, j);
        return Err(WrongMsLevel);
      }
      if scanNumber in peak.dataPoints {
        CollectAdd(raw, peak, ins, count, j, ss, current, n, rtRange, intRange);
        var intensity := peak.dataPoints[scanNumber].intensity;
        var rt := scan.value.retentionTime;
        current := current[scanNumber := Insert(current[scanNumber], DataPoint(mz, intensity))];
        n := n + 1;
        rtRange := Some(Extend(rtRange, rt));
        intRange := Some(Extend(intRange, intensity));
        ss := ss + [Sample(scanNumber, rt, intensity)];
      } else {
        CollectSkip(raw, peak, ins, count, j, ss, current, n, rtRange, intRange);
      }
      j := j + 1;
    }
    CollectEnd(raw, peak, ins, count, ss, current, n, rtRange, intRange);
    var rts := if rtRange.None? then peak.rawDataPointsRTRange else rtRange.value;
    var maxo := if intRange.None? then peak.height else intRange.value.max;
    var row := [mz, mz, mz, peak.rt, rts.min, rts.max, peak.area, peak.area, maxo, SIGNAL_TO_NOISE];
    return Ok(Added(current, n, row));
  }

  /** Once the peak loop has failed, later peaks do not change its error. */
  lemma {:induction false} PeakPassErrorSticks(raw: RawFile, peaks: seq<Feature>, start: map<int, seq<DataPoint>>, i: nat)
    requires Covers(raw, start)
    requires i <= |peaks| && PeakPass(raw, peaks[..i], start).Err?
    ensures PeakPass(raw, peaks, start) == PeakPass(raw, peaks[..i], start)
  {
    if i < |peaks| {
      var init := peaks[..|peaks| - 1];
      assert init[..i] == peaks[..i];
      PeakPassErrorSticks(raw, init, start, i);
    } else {
      assert peaks[..i] == peaks;
    }
  }

  /** The scan map seeded with the dummy point covers every MS1 scan. */
  lemma SeededCovers(raw: RawFile, dummy: DataPoint)
    requires DistinctNumbers(raw)
    ensures Covers(raw, Seeded(ScanNumbersAt(raw, MS_LEVEL), dummy))
  {
    forall k | IsMs1(raw, k) ensures k in Seeded(ScanNumbersAt(raw, MS_LEVEL), dummy) {
      Ms1Listed(raw, k);
    }
  }

  /** What the peak loop leaves behind: the sets, dataPointCount and the rows. */
  datatype Filled = Filled(sets: map<int, seq<DataPoint>>, count: nat, rows: seq<seq<real>>)

  /** The loop over the peaks of the peak list: each peak adds its points to
      the sets and its row to the matrix, and the first peak with a listed
      scan that is not an MS1 scan ends the loop with that error. */
  method RunPeaks(raw: RawFile, peaks: seq<Feature>, sets: map<int, seq<DataPoint>>, count: nat,
                  ghost start: map<int, seq<DataPoint>>)
    returns (r: Result<Filled, SearchError>)
    requires DistinctNumbers(raw)
    requires forall k :: k in ScanNumbersAt(raw, MS_LEVEL) ==> k in start
    requires Covers(raw, start) && sets == Trees(start)
    requires count == TotalLen(ScanNumbersAt(raw, MS_LEVEL), start)
    ensures PeakPass(raw, peaks, start).Err? ==> r == Err(PeakPass(raw, peaks, start).error)
    ensures PeakPass(raw, peaks, start).Ok? ==> r.Ok?
    ensures PeakPass(raw, peaks, start).Ok? ==> r.value.sets == Trees(PeakPass(raw, peaks, start).value.inserted)
    ensures PeakPass(raw, peaks, start).Ok? ==>
      r.value.count == TotalLen(ScanNumbersAt(raw, MS_LEVEL), PeakPass(raw, peaks, start).value.inserted)
    ensures PeakPass(raw, peaks, start).Ok? ==> r.value.rows == PeakPass(raw, peaks, start).value.rows
  {
    ghost var ms1 := ScanNumbersAt(raw, MS_LEVEL);
    ScansAtDistinct(raw, MS_LEVEL);
    ghost var ins := start;
    var current := sets;
    var n := count;
    var rows: seq<seq<real>> := [];
    var i := 0;
    while i < |peaks|
      invariant 0 <= i <= |peaks|
      invariant PeakPass(raw, peaks[..i], start) == Ok(Pass(ins, rows))
      invariant ins.Keys == start.Keys && Covers(raw, ins)
      invariant current == Trees(ins) && n == TotalLen(ms1, ins)
    {
      var peak := peaks[i];
      var added := AddPeak(raw, peak, current, n, ins);
      PassStep(raw, peaks, start, i, ins, rows);
      if added.Err? {
        PeakPassErrorSticks(raw, peaks, start, i + 1);
        return Err(added.error);
      }
      PeakCount(raw, peak, ins);
      ins := PeakStep(raw, peak, ins).value.inserted;
      current := added.value.sets;
      n := added.value.count;
      rows := rows + [added.value.row];
      i := i + 1;
    }
    assert peaks[..i] == peaks;
    return Ok(Filled(current, n, rows));
  }

  /** The peak loop over one more peak: that peak's step after the earlier ones'. */
  lemma PassStep(raw: RawFile, peaks: seq<Feature>, start: map<int, seq<DataPoint>>, i: nat,
                 ins: map<int, seq<DataPoint>>, rows: seq<seq<real>>)
    requires Covers(raw, start) && Covers(raw, ins)
    requires i < |peaks| && PeakPass(raw, peaks[..i], start) == Ok(Pass(ins, rows))
    ensures PeakPass(raw, peaks[..i + 1], start) ==
      match PeakStep(raw, peaks[i], ins)
      case Err(e) => Err(e)
      case Ok(st) => Ok(Pass(st.inserted, rows + [st.row]))
  {
    assert peaks[..i + 1][..i] == peaks[..i] && peaks[..i + 1][i] == peaks[i];
  }

  /** A peak raises dataPointCount over the MS1 scans by its number of samples. */
  lemma PeakCount(raw: RawFile, peak: Feature, ins: map<int, seq<DataPoint>>)
    requires DistinctNumbers(raw)
    requires Covers(raw, ins) && PeakStep(raw, peak, ins).Ok?
    requires forall k :: k in ScanNumbersAt(raw, MS_LEVEL) ==> k in ins
    ensures forall k :: k in ScanNumbersAt(raw, MS_LEVEL) ==> k in PeakStep(raw, peak, ins).value.inserted
    ensures TotalLen(ScanNumbersAt(raw, MS_LEVEL), PeakStep(raw, peak, ins).value.inserted) ==
      TotalLen(ScanNumbersAt(raw, MS_LEVEL), ins) + PeakStep(raw, peak, ins).value.added
  {
    var ms1 := ScanNumbersAt(raw, MS_LEVEL);
    ScansAtDistinct(raw, MS_LEVEL);
    var ss := Samples(raw, peak, peak.scanNumbers).value;
    forall s | s in ss ensures s.scan in ms1 && s.scan in ins {
      Ms1Listed(raw, s.scan);
    }
    DeliverCount(ms1, ins, peak.mz, ss);
  }

  /** The sets after the peak loop meet the vector fill's needs: one set per
      MS1 scan, and no more points in them than dataPointCount. */
  lemma FillReady(raw: RawFile, ins: map<int, seq<DataPoint>>)
    requires DistinctNumbers(raw)
    requires forall k :: k in ins <==> k in ScanNumbersAt(raw, MS_LEVEL)
    ensures AllMapped(ScansAt(raw, MS_LEVEL), Trees(ins))
    ensures |Trees(ins)| == |ScansAt(raw, MS_LEVEL)|
    ensures |AllPoints(ScansAt(raw, MS_LEVEL), Trees(ins))| <= TotalLen(ScanNumbersAt(raw, MS_LEVEL), ins)
  {
    var ms1 := ScanNumbersAt(raw, MS_LEVEL);
    var scans := ScansAt(raw, MS_LEVEL);
    var sets := Trees(ins);
    ScansAtDistinct(raw, MS_LEVEL);
    assert AllMapped(scans, sets) && AllMapped(scans, ins) by {
      forall j | 0 <= j < |scans| ensures scans[j].number in ins {
        assert ms1[j] == scans[j].number;
      }
    }
    DistinctKeysCount(ms1, sets);
    TreesShrunk(ins);
    WrittenVersusHanded(scans, sets, ins, |scans|);
    TotalLenIsHanded(scans, ins, |scans|);
    assert scans[..|scans|] == scans;
  }

  /** The flattening part of cameraSearch: seed the scan map, run the peak
      loop, and fill the four vectors, yielding what R receives. */
  method Marshal(raw: RawFile, peaks: seq<Feature>, dummy: DataPoint) returns (r: Result<Translation, SearchError>)
    requires DistinctNumbers(raw)
    ensures r == Translate(raw, peaks, dummy)
  {
    var sets, count := SeedScanMap(raw, dummy);
    ghost var start := Seeded(ScanNumbersAt(raw, MS_LEVEL), dummy);
    SeededCovers(raw, dummy);
    var filled := RunPeaks(raw, peaks, sets, count, start);
    if filled.Err? {
      return Err(filled.error);
    }
    ghost var ins := PeakPass(raw, peaks, start).value.inserted;
    FillReady(raw, ins);
    var scanTimes, scanIndices, masses, intensities :=
      FillVectors(ScansAt(raw, MS_LEVEL), filled.value.sets, filled.value.count);
    r := Ok(Translation(filled.value.rows, Vectors(scanTimes[..], scanIndices[..], masses[..], intensities[..])));
  }

  // ----- What the translation promises -----

  /** The points handed to each MS1 scan's set by the end of the peak loop. */
  ghost function Handed(raw: RawFile, peaks: seq<Feature>, dummy: DataPoint): map<int, seq<DataPoint>>
    requires DistinctNumbers(raw) && ScanMapOf(raw, peaks, dummy).Ok?
  {
    ScanMapOf(raw, peaks, dummy).value.inserted
  }

  /** The data point sets at the end of the peak loop. */
  ghost function FinalSets(raw: RawFile, peaks: seq<Feature>, dummy: DataPoint): map<int, seq<DataPoint>>
    requires DistinctNumbers(raw) && ScanMapOf(raw, peaks, dummy).Ok?
  {
    Trees(Handed(raw, peaks, dummy))
  }

  /** The peak loop over `peaks` raises dataPointCount by their samples. */
  lemma {:induction false} PassCount(raw: RawFile, peaks: seq<Feature>, start: map<int, seq<DataPoint>>)
    requires DistinctNumbers(raw)
    requires Covers(raw, start) && PeakPass(raw, peaks, start).Ok?
    requires forall k :: k in ScanNumbersAt(raw, MS_LEVEL) ==> k in start
    ensures forall k :: k in ScanNumbersAt(raw, MS_LEVEL) ==> k in PeakPass(raw, peaks, start).value.inserted
    ensures TotalLen(ScanNumbersAt(raw, MS_LEVEL), PeakPass(raw, peaks, start).value.inserted) ==
      TotalLen(ScanNumbersAt(raw, MS_LEVEL), start) + SampleCount(raw, peaks)
  {
    if peaks != [] {
      var init := peaks[..|peaks| - 1];
      var last := peaks[|peaks| - 1];
      PassCount(raw, init, start);
      var p := PeakPass(raw, init, start).value;
      PeakCount(raw, last, p.inserted);
    }
  }

  /** Each MS1 scan, and nothing else, was handed a sequence of points that
      starts with the dummy point. */
  lemma HandedSeeded(raw: RawFile, peaks: seq<Feature>, dummy: DataPoint)
    requires DistinctNumbers(raw) && ScanMapOf(raw, peaks, dummy).Ok?
    ensures forall k :: k in Handed(raw, peaks, dummy) <==> k in ScanNumbersAt(raw, MS_LEVEL)
    ensures forall k :: k in Handed(raw, peaks, dummy) ==>
      Handed(raw, peaks, dummy)[k] != [] && Handed(raw, peaks, dummy)[k][0] == dummy
  {
    var start := Seeded(ScanNumbersAt(raw, MS_LEVEL), dummy);
    SeededCovers(raw, dummy);
    PeakPassKeepsSeed(raw, peaks, start, dummy);
  }

  /** The search fails exactly when some listed scan of some peak is missing
      from the file or is not an MS1 scan, and then with one of those two
      errors. */
  lemma TranslateSucceedsIff(raw: RawFile, peaks: seq<Feature>, dummy: DataPoint)
    requires DistinctNumbers(raw)
    ensures Translate(raw, peaks, dummy).Ok? <==>
      forall i, j :: 0 <= i < |peaks| && 0 <= j < |peaks[i].scanNumbers| ==> IsMs1(raw, peaks[i].scanNumbers[j])
    ensures Translate(raw, peaks, dummy).Err? ==>
      Translate(raw, peaks, dummy).error in {WrongMsLevel, MissingScan}
  {
    SeededCovers(raw, dummy);
    PeakPassSucceedsIff(raw, peaks, Seeded(ScanNumbersAt(raw, MS_LEVEL), dummy));
  }

  /** One row per peak, in peak order, each the row of that peak's samples. */
  lemma TranslateRows(raw: RawFile, peaks: seq<Feature>, dummy: DataPoint)
    requires DistinctNumbers(raw) && Translate(raw, peaks, dummy).Ok?
    ensures |Translate(raw, peaks, dummy).value.rows| == |peaks|
    ensures forall i :: 0 <= i < |peaks| ==>
      Samples(raw, peaks[i], peaks[i].scanNumbers).Ok? &&
      Translate(raw, peaks, dummy).value.rows[i] == PeakRow(peaks[i], Samples(raw, peaks[i], peaks[i].scanNumbers).value)
  {
    SeededCovers(raw, dummy);
    PeakPassRows(raw, peaks, Seeded(ScanNumbersAt(raw, MS_LEVEL), dummy));
  }

  /** Every MS1 scan, and nothing else, has a set: the TreeSet of the points
      handed to it, holding the dummy point, in ascending m/z, and no longer
      than what was handed to it. */
  lemma TranslateSets(raw: RawFile, peaks: seq<Feature>, dummy: DataPoint)
    requires DistinctNumbers(raw) && ScanMapOf(raw, peaks, dummy).Ok?
    ensures var ins := Handed(raw, peaks, dummy);
      var sets := FinalSets(raw, peaks, dummy);
      && (forall k :: k in sets <==> k in ScanNumbersAt(raw, MS_LEVEL))
      && forall k :: k in ScanNumbersAt(raw, MS_LEVEL) ==>
        && k in ins
        && sets[k] == TreeOf(ins[k])
        && dummy in sets[k]
        && Ascending(sets[k])
        && 1 <= |sets[k]| <= |ins[k]|
  {
    var ins := Handed(raw, peaks, dummy);
    HandedSeeded(raw, peaks, dummy);
    forall k | k in ScanNumbersAt(raw, MS_LEVEL)
      ensures dummy in TreeOf(ins[k]) && 1 <= |TreeOf(ins[k])| <= |ins[k]|
    {
      assert AddedFirst(ins[k], dummy, 0);
      TreeOfKeepsFirst(ins[k], dummy);
    }
  }

  /** Every MS1 scan has a non-empty set in ascending m/z. */
  lemma SetsOfScans(raw: RawFile, peaks: seq<Feature>, dummy: DataPoint)
    requires DistinctNumbers(raw) && ScanMapOf(raw, peaks, dummy).Ok?
    ensures AllMapped(ScansAt(raw, MS_LEVEL), Handed(raw, peaks, dummy))
    ensures AllMapped(ScansAt(raw, MS_LEVEL), FinalSets(raw, peaks, dummy))
    ensures forall i :: 0 <= i < |ScansAt(raw, MS_LEVEL)| ==>
      var pts := SetOf(FinalSets(raw, peaks, dummy), ScansAt(raw, MS_LEVEL)[i].number);
      pts != [] && Ascending(pts)
  {
    TranslateSets(raw, peaks, dummy);
    var scans := ScansAt(raw, MS_LEVEL);
    forall i | 0 <= i < |scans| ensures scans[i].number in ScanNumbersAt(raw, MS_LEVEL) {
      assert ScanNumbersAt(raw, MS_LEVEL)[i] == scans[i].number;
    }
  }

  /** The vectors are the flattening of the final sets, with dataPointCount
      slots for the points. */
  lemma TranslateFlat(raw: RawFile, peaks: seq<Feature>, dummy: DataPoint)
    requires DistinctNumbers(raw) && Translate(raw, peaks, dummy).Ok?
    ensures ScanMapOf(raw, peaks, dummy).Ok?
    ensures forall k :: k in Handed(raw, peaks, dummy) <==> k in ScanNumbersAt(raw, MS_LEVEL)
    ensures Translate(raw, peaks, dummy).value.vectors ==
      Flatten(ScansAt(raw, MS_LEVEL), FinalSets(raw, peaks, dummy),
              TotalLen(ScanNumbersAt(raw, MS_LEVEL), Handed(raw, peaks, dummy)))
  {
    HandedSeeded(raw, peaks, dummy);
  }

  /** scanTimes lists the retention times of the MS1 scans in the order of
      getScanNumbers(1); scanIndices starts at 1 and grows by the size of each
      scan's set, so it strictly increases. */
  lemma TranslateScanColumns(raw: RawFile, peaks: seq<Feature>, dummy: DataPoint)
    requires DistinctNumbers(raw) && Translate(raw, peaks, dummy).Ok?
    ensures ScanMapOf(raw, peaks, dummy).Ok?
    ensures var v := Translate(raw, peaks, dummy).value.vectors;
      var scans := ScansAt(raw, MS_LEVEL);
      var sets := FinalSets(raw, peaks, dummy);
      && AllMapped(scans, sets)
      && |v.scanTimes| == |v.scanIndices| == |scans|
      && (forall i :: 0 <= i < |scans| ==> v.scanTimes[i] == scans[i].retentionTime)
      && (|scans| > 0 ==> v.scanIndices[0] == 1)
      && (forall i :: 0 <= i < |scans| - 1 ==>
            v.scanIndices[i + 1] == v.scanIndices[i] + |sets[scans[i].number]|)
      && (forall i :: 0 <= i < |scans| - 1 ==> v.scanIndices[i] < v.scanIndices[i + 1])
  {
    TranslateFlat(raw, peaks, dummy);
    SetsOfScans(raw, peaks, dummy);
    FlatScanColumns(ScansAt(raw, MS_LEVEL), FinalSets(raw, peaks, dummy),
                    TotalLen(ScanNumbersAt(raw, MS_LEVEL), Handed(raw, peaks, dummy)),
                    Translate(raw, peaks, dummy).value.vectors);
  }

  /** m/z and intensity columns have one slot per point handed to a set:
      one per MS1 scan for the dummy point and one per peak sample. Exactly
      those are written when no scan was handed two points with the same
      m/z; otherwise the trailing slots hold 0.0. */
  lemma TranslateCount(raw: RawFile, peaks: seq<Feature>, dummy: DataPoint)
    requires DistinctNumbers(raw) && Translate(raw, peaks, dummy).Ok?
    ensures ScanMapOf(raw, peaks, dummy).Ok?
    ensures var v := Translate(raw, peaks, dummy).value.vectors;
      var scans := ScansAt(raw, MS_LEVEL);
      var ins := Handed(raw, peaks, dummy);
      var written := |AllPoints(scans, FinalSets(raw, peaks, dummy))|;
      && AllMapped(scans, ins)
      && |v.masses| == |v.intensities| == |scans| + SampleCount(raw, peaks)
      && |scans| <= written <= |v.masses|
      && (written == |v.masses| <==> forall i :: 0 <= i < |scans| ==> DistinctMz(ins[scans[i].number]))
      && (forall k :: written <= k < |v.masses| ==> v.masses[k] == 0.0 && v.intensities[k] == 0.0)
  {
    TranslateFlat(raw, peaks, dummy);
    SetsOfScans(raw, peaks, dummy);
    var ms1 := ScanNumbersAt(raw, MS_LEVEL);
    var scans := ScansAt(raw, MS_LEVEL);
    var ins := Handed(raw, peaks, dummy);
    var start := Seeded(ms1, dummy);
    SeededCovers(raw, dummy);
    TotalLenOnes(ms1, start);
    PassCount(raw, peaks, start);
    FlatCount(scans, ins, TotalLen(ms1, ins), Translate(raw, peaks, dummy).value.vectors);
    WrittenAtLeastScans(scans, FinalSets(raw, peaks, dummy), |scans|);
  }

  /** Each MS1 scan's segment of the point columns, starting at its
      scanIndices entry, holds the points of its set in order, masses
      strictly ascending. */
  lemma TranslateSegments(raw: RawFile, peaks: seq<Feature>, dummy: DataPoint)
    requires DistinctNumbers(raw) && Translate(raw, peaks, dummy).Ok?
    ensures ScanMapOf(raw, peaks, dummy).Ok?
    ensures Segmented(ScansAt(raw, MS_LEVEL), FinalSets(raw, peaks, dummy), Translate(raw, peaks, dummy).value.vectors)
  {
    TranslateFlat(raw, peaks, dummy);
    SetsOfScans(raw, peaks, dummy);
    FillReady(raw, Handed(raw, peaks, dummy));
    FlatSegments(ScansAt(raw, MS_LEVEL), FinalSets(raw, peaks, dummy),
                 TotalLen(ScanNumbersAt(raw, MS_LEVEL), Handed(raw, peaks, dummy)),
                 Translate(raw, peaks, dummy).value.vectors);
  }
}
