/** The ten-column feature row the search builds for each peak:
    mz, mzmin, mzmax, rt, rtmin, rtmax, into, intb, maxo, sn. */
module PeakRows {
  import opened CameraTypes

  /** The signal-to-noise placeholder written in the last column. */
  const SIGNAL_TO_NOISE: real := 10.0

  /** A data point of a peak in one of its scans, with that scan's retention time. */
  datatype Sample = Sample(scan: int, rt: real, intensity: real)

  /** `new Range(x)` when there is no range yet, `extendRange(x)` otherwise. */
  function Extend(r: Option<Range>, x: real): (g: Range)
    ensures g.min <= x <= g.max
    ensures r.Some? ==> g.min <= r.value.min && r.value.max <= g.max
    ensures g.min == x || (r.Some? && g.min == r.value.min)
    ensures g.max == x || (r.Some? && g.max == r.value.max)
  {
    match r
    case None => Range(x, x)
    case Some(g) => Range(if x < g.min then x else g.min, if g.max < x then x else g.max)
  }

  /** The range accumulated over `xs` in order; none when `xs` is empty. */
  function Span(xs: seq<real>): (r: Option<Range>)
    ensures r.None? <==> xs == []
    ensures r.Some? ==> r.value.min in xs && r.value.max in xs
    ensures r.Some? ==> forall x :: x in xs ==> r.value.min <= x <= r.value.max
  {
    if xs == [] then None
    else
      var init := xs[..|xs| - 1];
      assert xs == init + [xs[|xs| - 1]];
      Some(Extend(Span(init), xs[|xs| - 1]))
  }

  function Rts(ss: seq<Sample>): seq<real> {
    seq(|ss|, i requires 0 <= i < |ss| => ss[i].rt)
  }

  function Intensities(ss: seq<Sample>): seq<real> {
    seq(|ss|, i requires 0 <= i < |ss| => ss[i].intensity)
  }

  /** The row of `peak`, given its samples in the scans where it has data. */
  function PeakRow(peak: Feature, ss: seq<Sample>): (row: seq<real>)
    ensures |row| == 10
  {
    var rtRange := Span(Rts(ss));
    var intRange := Span(Intensities(ss));
    var rts := if rtRange.None? then peak.rawDataPointsRTRange else rtRange.value;
    var maxo := if intRange.None? then peak.height else intRange.value.max;
    [peak.mz, peak.mz, peak.mz, peak.rt, rts.min, rts.max, peak.area, peak.area, maxo, SIGNAL_TO_NOISE]
  }

  /** The row holds the peak's m/z three times, its retention time, the
      smallest and largest retention time of the scans where it has data,
      its area twice, its largest intensity in those scans, and the
      signal-to-noise placeholder. Without such scans, the raw retention-time
      range and the peak height stand in. */
  lemma PeakRowColumns(peak: Feature, ss: seq<Sample>)
    ensures var row := PeakRow(peak, ss);
      && |row| == 10
      && row[0] == row[1] == row[2] == peak.mz
      && row[3] == peak.rt
      && row[6] == row[7] == peak.area
      && row[9] == SIGNAL_TO_NOISE
      && (ss == [] ==> row[4] == peak.rawDataPointsRTRange.min && row[5] == peak.rawDataPointsRTRange.max
                       && row[8] == peak.height)
      && (ss != [] ==>
            && (forall s :: s in ss ==> row[4] <= s.rt <= row[5] && s.intensity <= row[8])
            && (exists s :: s in ss && s.rt == row[4])
            && (exists s :: s in ss && s.rt == row[5])
            && (exists s :: s in ss && s.intensity == row[8]))
  {
    var row := PeakRow(peak, ss);
    if ss != [] {
      var rts := Rts(ss);
      var ints := Intensities(ss);
      assert |rts| == |ss| > 0;
      forall s | s in ss ensures row[4] <= s.rt <= row[5] && s.intensity <= row[8] {
        var k :| 0 <= k < |ss| && ss[k] == s;
        assert rts[k] in rts && ints[k] in ints;
      }
      var a :| 0 <= a < |rts| && rts[a] == row[4];
      assert ss[a] in ss;
      var b :| 0 <= b < |rts| && rts[b] == row[5];
      assert ss[b] in ss;
      var c :| 0 <= c < |ints| && ints[c] == row[8];
      assert ss[c] in ss;
    }
  }
}
