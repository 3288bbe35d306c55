/** The raw-signal vectors handed to R: the retention time of each MS1 scan,
    the 1-based offset of each scan's points, and the m/z and intensity of
    every point of every scan's set, scan after scan in the order of
    getScanNumbers(1), in the style of compressed sparse rows. The point
    arrays are allocated with dataPointCount entries; slots that no point
    fills keep Java's initial 0.0. */
module RawVectors {
  import opened CameraTypes
  import opened PointSet
  import opened ScanMap

  /** The set mapped to scan number `k`; the search maps every MS1 scan, so
      the empty default is never reached from it. */
  function SetOf(sets: map<int, seq<DataPoint>>, k: int): seq<DataPoint> {
    if k in sets then sets[k] else []
  }

  /** Every scan of `scans` has a set. */
  predicate AllMapped(scans: seq<MsScan>, sets: map<int, seq<DataPoint>>) {
    forall i :: 0 <= i < |scans| ==> scans[i].number in sets
  }

  /** The points of the sets of the first `i` scans, set after set. */
  function PointsBefore(scans: seq<MsScan>, sets: map<int, seq<DataPoint>>, i: nat): seq<DataPoint>
    requires i <= |scans|
  {
    if i == 0 then [] else PointsBefore(scans, sets, i - 1) + SetOf(sets, scans[i - 1].number)
  }

  /** The points of the sets of all scans, set after set. */
  function AllPoints(scans: seq<MsScan>, sets: map<int, seq<DataPoint>>): seq<DataPoint> {
    PointsBefore(scans, sets, |scans|)
  }

  /** scanIndices: one more than the number of points before each scan. */
  function Offsets(scans: seq<MsScan>, sets: map<int, seq<DataPoint>>): seq<int> {
    seq(|scans|, i requires 0 <= i < |scans| => |PointsBefore(scans, sets, i)| + 1)
  }

  function RetentionTimes(scans: seq<MsScan>): seq<real> {
    seq(|scans|, i requires 0 <= i < |scans| => scans[i].retentionTime)
  }

  function MassColumn(w: seq<DataPoint>, count: nat): seq<real> {
    seq(count, k requires 0 <= k < count => if k < |w| then w[k].mz else 0.0)
  }

  function IntensityColumn(w: seq<DataPoint>, count: nat): seq<real> {
    seq(count, k requires 0 <= k < count => if k < |w| then w[k].intensity else 0.0)
  }

  datatype Vectors = Vectors(scanTimes: seq<real>, scanIndices: seq<int>, masses: seq<real>, intensities: seq<real>)

  /** The four vectors for the sets of the MS1 scans `scans` and dataPointCount `count`. */
  function Flatten(scans: seq<MsScan>, sets: map<int, seq<DataPoint>>, count: nat): (v: Vectors)
    ensures |v.scanTimes| == |v.scanIndices| == |scans|
    ensures |v.masses| == |v.intensities| == count
  {
    var w := AllPoints(scans, sets);
    Vectors(RetentionTimes(scans), Offsets(scans, sets), MassColumn(w, count), IntensityColumn(w, count))
  }

  /** The points of the first `i` scans come first, in the same order. */
  lemma {:induction false} PointsPrefix(scans: seq<MsScan>, sets: map<int, seq<DataPoint>>, i: nat, j: nat)
    requires i <= j <= |scans|
    ensures |PointsBefore(scans, sets, i)| <= |PointsBefore(scans, sets, j)|
    ensures PointsBefore(scans, sets, j)[..|PointsBefore(scans, sets, i)|] == PointsBefore(scans, sets, i)
  {
    if i < j {
      PointsPrefix(scans, sets, i, j - 1);
    }
  }

  /** Scan `i`'s set follows the points of the scans before it. */
  lemma ScanSegment(scans: seq<MsScan>, sets: map<int, seq<DataPoint>>, i: int)
    requires 0 <= i < |scans|
    ensures var w := AllPoints(scans, sets);
      var o := |PointsBefore(scans, sets, i)|;
      var pts := SetOf(sets, scans[i].number);
      && |PointsBefore(scans, sets, i + 1)| == o + |pts| <= |w|
      && w[o..o + |pts|] == pts
  {
    PointsPrefix(scans, sets, i + 1, |scans|);
    var o := |PointsBefore(scans, sets, i)|;
    var pts := SetOf(sets, scans[i].number);
    assert PointsBefore(scans, sets, i + 1)[o..o + |pts|] == pts;
  }

  /** Offsets start at 1 and each grows by the size of the previous scan's set. */
  lemma OffsetsStep(scans: seq<MsScan>, sets: map<int, seq<DataPoint>>)
    ensures |Offsets(scans, sets)| == |scans|
    ensures |scans| > 0 ==> Offsets(scans, sets)[0] == 1
    ensures forall i :: 0 <= i < |scans| - 1 ==>
      Offsets(scans, sets)[i + 1] == Offsets(scans, sets)[i] + |SetOf(sets, scans[i].number)|
  {
  }

  /** Each set is no longer than the sequence handed to it, and as long
      exactly when that sequence has pairwise distinct m/z. */
  ghost predicate Shrunk(sets: map<int, seq<DataPoint>>, ins: map<int, seq<DataPoint>>) {
    forall k :: k in ins ==>
      k in sets && |sets[k]| <= |ins[k]| && (|sets[k]| == |ins[k]| <==> DistinctMz(ins[k]))
  }

  /** The TreeSets built from the handed points are shrunk versions of them. */
  lemma TreesShrunk(ins: map<int, seq<DataPoint>>)
    ensures Shrunk(Trees(ins), ins)
  {
    forall k | k in ins
      ensures k in Trees(ins) && |Trees(ins)[k]| <= |ins[k]| && (|Trees(ins)[k]| == |ins[k]| <==> DistinctMz(ins[k]))
    {
      TreeOfExact(ins[k]);
    }
  }

  /** The sets never hold more points than were handed to them, and hold
      exactly as many when no scan was handed two points with the same m/z. */
  lemma {:induction false} WrittenVersusHanded(scans: seq<MsScan>, sets: map<int, seq<DataPoint>>,
                                               ins: map<int, seq<DataPoint>>, i: nat)
    requires AllMapped(scans, ins) && Shrunk(sets, ins)
    requires i <= |scans|
    ensures |PointsBefore(scans, sets, i)| <= |PointsBefore(scans, ins, i)|
    ensures |PointsBefore(scans, sets, i)| == |PointsBefore(scans, ins, i)| <==>
      forall j :: 0 <= j < i ==> DistinctMz(ins[scans[j].number])
  {
    if i > 0 {
      WrittenVersusHanded(scans, sets, ins, i - 1);
      var last := scans[i - 1].number;
      assert |SetOf(sets, last)| <= |SetOf(ins, last)|;
    }
  }

  /** dataPointCount, summed over the scan numbers, is the number of points
      handed to the sets of the scans. */
  lemma {:induction false} TotalLenIsHanded(scans: seq<MsScan>, ins: map<int, seq<DataPoint>>, i: nat)
    requires AllMapped(scans, ins)
    requires i <= |scans|
    ensures forall k :: k in Numbers(scans[..i]) ==> k in ins
    ensures TotalLen(Numbers(scans[..i]), ins) == |PointsBefore(scans, ins, i)|
  {
    var keys := Numbers(scans[..i]);
    assert forall k :: k in keys ==> k in ins by {
      forall k | k in keys ensures k in ins {
        var j :| 0 <= j < |keys| && keys[j] == k;
        assert scans[..i][j] == scans[j];
      }
    }
    if i > 0 {
      TotalLenIsHanded(scans, ins, i - 1);
      assert keys[..i - 1] == Numbers(scans[..i - 1]);
      assert keys[i - 1] == scans[i - 1].number;
    }
  }

  /** Strictly ascending values between `lo` and `hi`. */
  predicate AscendingBetween(xs: seq<real>, lo: int, hi: int)
    requires 0 <= lo <= hi <= |xs|
  {
    forall a, b :: lo <= a < b < hi ==> xs[a] < xs[b]
  }

  /** The segment of scan `i` in the m/z column is its set's m/z values, so
      it is non-empty and strictly ascending when the set is. */
  lemma SegmentAscending(scans: seq<MsScan>, sets: map<int, seq<DataPoint>>, count: nat, i: int)
    requires |AllPoints(scans, sets)| <= count
    requires 0 <= i < |scans|
    requires SetOf(sets, scans[i].number) != [] && Ascending(SetOf(sets, scans[i].number))
    ensures var o := Offsets(scans, sets)[i];
      var n := |SetOf(sets, scans[i].number)|;
      1 <= o < o + n <= |AllPoints(scans, sets)| + 1 &&
      AscendingBetween(MassColumn(AllPoints(scans, sets), count), o - 1, o - 1 + n)
  {
    var w := AllPoints(scans, sets);
    var masses := MassColumn(w, count);
    ScanSegment(scans, sets, i);
    var o := |PointsBefore(scans, sets, i)|;
    var pts := SetOf(sets, scans[i].number);
    forall a, b | o <= a < b < o + |pts| ensures masses[a] < masses[b] {
      assert w[o..o + |pts|][a - o] == pts[a - o] && w[o..o + |pts|][b - o] == pts[b - o];
    }
  }

  /** A map whose keys are exactly the entries of a repetition-free sequence
      has as many entries as the sequence. */
  lemma {:induction false} DistinctKeysCount(keys: seq<int>, m: map<int, seq<DataPoint>>)
    requires Distinct(keys)
    requires forall n :: n in m <==> n in keys
    ensures |m| == |keys|
  {
    if keys == [] {
      assert forall n :: n in m.Keys ==> n in keys;
      assert m.Keys == {};
    } else {
      var init := keys[..|keys| - 1];
      var last := keys[|keys| - 1];
      assert keys == init + [last];
      var rest := m - {last};
      assert forall n :: n in rest <==> n in init;
      DistinctKeysCount(init, rest);
      assert m.Keys == rest.Keys + {last};
      assert |m.Keys| == |rest.Keys| + 1;
    }
  }

  /** The scan arrays hold the retention times and offsets of the first `n` scans. */
  ghost predicate ScansFilled(scans: seq<MsScan>, sets: map<int, seq<DataPoint>>, st: seq<real>, si: seq<int>, n: nat)
    requires n <= |scans|
  {
    && |st| == |si| == |scans|
    && (forall i :: 0 <= i < n ==> st[i] == scans[i].retentionTime && si[i] == |PointsBefore(scans, sets, i)| + 1)
  }

  /** The point arrays hold the points of `done`, then 0.0. */
  ghost predicate PointsFilled(done: seq<DataPoint>, count: nat, ms: seq<real>, it: seq<real>) {
    && |ms| == |it| == count && |done| <= count
    && (forall k :: 0 <= k < |done| ==> ms[k] == done[k].mz && it[k] == done[k].intensity)
    && (forall k :: |done| <= k < count ==> ms[k] == 0.0 && it[k] == 0.0)
  }

  /** The arrays hold the vectors of the first `n` scans: their retention
      times and offsets, then their points, and 0.0 after the last point. */
  ghost predicate FilledUpTo(scans: seq<MsScan>, sets: map<int, seq<DataPoint>>, count: nat,
                             st: seq<real>, si: seq<int>, ms: seq<real>, it: seq<real>, n: nat)
    requires n <= |scans|
  {
    ScansFilled(scans, sets, st, si, n) && PointsFilled(PointsBefore(scans, sets, n), count, ms, it)
  }

  /** Writing scan `n`'s retention time and offset extends the filled scan prefix. */
  lemma ScansStep(scans: seq<MsScan>, sets: map<int, seq<DataPoint>>, n: nat, o: nat,
                  st: seq<real>, si: seq<int>, st': seq<real>, si': seq<int>)
    requires n < |scans| && ScansFilled(scans, sets, st, si, n)
    requires o == |PointsBefore(scans, sets, n)|
    requires |st'| == |st| && |si'| == |si|
    requires forall i :: 0 <= i < |st| ==>
      st'[i] == (if i == n then scans[n].retentionTime else st[i]) &&
      si'[i] == (if i == n then o + 1 else si[i])
    ensures ScansFilled(scans, sets, st', si', n + 1)
  {
  }

  /** Writing the points of `pts` after those of `done` extends the filled point prefix. */
  lemma PointsStep(done: seq<DataPoint>, o: nat, pts: seq<DataPoint>, count: nat,
                   ms: seq<real>, it: seq<real>, ms': seq<real>, it': seq<real>)
    requires PointsFilled(done, count, ms, it) && o == |done| && o + |pts| <= count
    requires |ms'| == |ms| && |it'| == |it|
    requires forall k :: 0 <= k < o ==> ms'[k] == ms[k] && it'[k] == it[k]
    requires forall k :: o + |pts| <= k < |ms| ==> ms'[k] == ms[k] && it'[k] == it[k]
    requires forall j :: 0 <= j < |pts| ==> ms'[o + j] == pts[j].mz && it'[o + j] == pts[j].intensity
    ensures PointsFilled(done + pts, count, ms', it')
  {
    forall k | o <= k < o + |pts| ensures ms'[k] == (done + pts)[k].mz && it'[k] == (done + pts)[k].intensity {
      assert ms'[o + (k - o)] == pts[k - o].mz && it'[o + (k - o)] == pts[k - o].intensity;
    }
  }

  /** Writing scan `n`'s time, offset and points extends the filled prefix by one scan. */
  lemma FillStep(scans: seq<MsScan>, sets: map<int, seq<DataPoint>>, count: nat, n: nat, o: nat, pts: seq<DataPoint>,
                 st: seq<real>, si: seq<int>, ms: seq<real>, it: seq<real>,
                 st': seq<real>, si': seq<int>, ms': seq<real>, it': seq<real>)
    requires n < |scans| && FilledUpTo(scans, sets, count, st, si, ms, it, n)
    requires o == |PointsBefore(scans, sets, n)| && pts == SetOf(sets, scans[n].number)
    requires o + |pts| <= count
    requires |st'| == |st| && |si'| == |si| && |ms'| == |ms| && |it'| == |it|
    requires forall i :: 0 <= i < |st| ==>
      st'[i] == (if i == n then scans[n].retentionTime else st[i]) &&
      si'[i] == (if i == n then o + 1 else si[i])
    requires forall k :: 0 <= k < o ==> ms'[k] == ms[k] && it'[k] == it[k]
    requires forall k :: o + |pts| <= k < |ms| ==> ms'[k] == ms[k] && it'[k] == it[k]
    requires forall j :: 0 <= j < |pts| ==> ms'[o + j] == pts[j].mz && it'[o + j] == pts[j].intensity
    ensures FilledUpTo(scans, sets, count, st', si', ms', it', n + 1)
  {
    ScansStep(scans, sets, n, o, st, si, st', si');
    assert PointsBefore(scans, sets, n + 1) == PointsBefore(scans, sets, n) + pts;
    PointsStep(PointsBefore(scans, sets, n), o, pts, count, ms, it, ms', it');
  }

  /** Filled scan arrays are the retention-time and offset vectors. */
  lemma ScansColumns(scans: seq<MsScan>, sets: map<int, seq<DataPoint>>, st: seq<real>, si: seq<int>)
    requires ScansFilled(scans, sets, st, si, |scans|)
    ensures st == RetentionTimes(scans) && si == Offsets(scans, sets)
  {
  }

  /** Filled point arrays are the m/z and intensity vectors. */
  lemma PointsColumns(done: seq<DataPoint>, count: nat, ms: seq<real>, it: seq<real>)
    requires PointsFilled(done, count, ms, it)
    ensures ms == MassColumn(done, count) && it == IntensityColumn(done, count)
  {
  }

  /** Once every scan is filled, the arrays are the four vectors. */
  lemma FilledAll(scans: seq<MsScan>, sets: map<int, seq<DataPoint>>, count: nat,
                  st: seq<real>, si: seq<int>, ms: seq<real>, it: seq<real>)
    requires FilledUpTo(scans, sets, count, st, si, ms, it, |scans|)
    ensures Vectors(st, si, ms, it) == Flatten(scans, sets, count)
  {
    ScansColumns(scans, sets, st, si);
    PointsColumns(AllPoints(scans, sets), count, ms, it);
  }

  /** The inner loop of the vector fill: the points of one set go to the m/z
      and intensity arrays from index `start` on, in the set's iteration order;
      nothing else changes. */
  method CopyPoints(masses: array<real>, intensities: array<real>, points: seq<DataPoint>, start: nat)
    returns (next: nat)
    requires masses != intensities
    requires masses.Length == intensities.Length && start + |points| <= masses.Length
    modifies masses, intensities
    ensures next == start + |points|
    ensures forall k :: 0 <= k < start ==> masses[k] == old(masses[k]) && intensities[k] == old(intensities[k])
    ensures forall k :: next <= k < masses.Length ==> masses[k] == old(masses[k]) && intensities[k] == old(intensities[k])
    ensures forall j :: 0 <= j < |points| ==>
      masses[start + j] == points[j].mz && intensities[start + j] == points[j].intensity
  {
    next := start;
    var j := 0;
    while j < |points|
      invariant 0 <= j <= |points| && next == start + j
      invariant forall k :: 0 <= k < start ==> masses[k] == old(masses[k]) && intensities[k] == old(intensities[k])
      invariant forall k :: next <= k < masses.Length ==> masses[k] == old(masses[k]) && intensities[k] == old(intensities[k])
      invariant forall k :: 0 <= k < j ==>
        masses[start + k] == points[k].mz && intensities[start + k] == points[k].intensity
    {
      masses[next] := points[j].mz;
      intensities[next] := points[j].intensity;
      next := next + 1;
      j := j + 1;
    }
  }

  /** One pass of the vector fill's outer loop: scan `scanIndex`'s retention
      time and 1-based offset go to slot `scanIndex`, and the points of its set
      follow the points of the scans before it. */
  method FillScan(scanTimes: array<real>, scanIndices: array<int>, masses: array<real>, intensities: array<real>,
                  scans: seq<MsScan>, sets: map<int, seq<DataPoint>>, count: nat, scanIndex: nat, start: nat)
    returns (next: nat)
    requires scanTimes != masses && scanTimes != intensities && masses != intensities
    requires AllMapped(scans, sets) && |AllPoints(scans, sets)| <= count
    requires scanIndex < |scans| && start == |PointsBefore(scans, sets, scanIndex)|
    requires FilledUpTo(scans, sets, count, scanTimes[..], scanIndices[..], masses[..], intensities[..], scanIndex)
    modifies scanTimes, scanIndices, masses, intensities
    ensures next == |PointsBefore(scans, sets, scanIndex + 1)|
    ensures FilledUpTo(scans, sets, count, scanTimes[..], scanIndices[..], masses[..], intensities[..], scanIndex + 1)
  {
    ScanSegment(scans, sets, scanIndex);
    var scan := scans[scanIndex];
    scanTimes[scanIndex] := scan.retentionTime;
    scanIndices[scanIndex] := start + 1;
    var points := sets[scan.number];
    next := CopyPoints(masses, intensities, points, start);
    FillStep(scans, sets, count, scanIndex, start, points,
             old(scanTimes[..]), old(scanIndices[..]), old(masses[..]), old(intensities[..]),
             scanTimes[..], scanIndices[..], masses[..], intensities[..]);
  }

  /** The vector fill of the search: walk the MS1 scans in the order of
      getScanNumbers(1), record each scan's retention time and 1-based offset,
      and copy the points of its set into the m/z and intensity arrays. */
  method FillVectors(scans: seq<MsScan>, sets: map<int, seq<DataPoint>>, count: nat)
    returns (scanTimes: array<real>, scanIndices: array<int>, masses: array<real>, intensities: array<real>)
    requires AllMapped(scans, sets) && |sets| == |scans|
    requires |AllPoints(scans, sets)| <= count
    ensures fresh(scanTimes) && fresh(scanIndices) && fresh(masses) && fresh(intensities)
    ensures Vectors(scanTimes[..], scanIndices[..], masses[..], intensities[..]) == Flatten(scans, sets, count)
  {
    var scanCount := |sets|;
    scanTimes := new real[scanCount];
    scanIndices := new int[scanCount];
    masses := new real[count](_ => 0.0);
    intensities := new real[count](_ => 0.0);
    var scanIndex := 0;
    var pointIndex := 0;
    while scanIndex < |scans|
      invariant 0 <= scanIndex <= |scans|
      invariant scanTimes != masses && scanTimes != intensities && masses != intensities
      invariant pointIndex == |PointsBefore(scans, sets, scanIndex)|
      invariant FilledUpTo(scans, sets, count, scanTimes[..], scanIndices[..], masses[..], intensities[..], scanIndex)
    {
      pointIndex := FillScan(scanTimes, scanIndices, masses, intensities, scans, sets, count, scanIndex, pointIndex);
      scanIndex := scanIndex + 1;
    }
    FilledAll(scans, sets, count, scanTimes[..], scanIndices[..], masses[..], intensities[..]);
  }

  // ----- Facts about a flattening, for the search's specification -----

  /** The scan columns of a flattening: the scans' retention times, and
      offsets from 1 that grow by the size of each scan's set. */
  lemma FlatScanColumns(scans: seq<MsScan>, sets: map<int, seq<DataPoint>>, count: nat, v: Vectors)
    requires forall i :: 0 <= i < |scans| ==> SetOf(sets, scans[i].number) != []
    requires v == Flatten(scans, sets, count)
    ensures |v.scanTimes| == |v.scanIndices| == |scans|
    ensures forall i :: 0 <= i < |scans| ==> v.scanTimes[i] == scans[i].retentionTime
    ensures |scans| > 0 ==> v.scanIndices[0] == 1
    ensures forall i :: 0 <= i < |scans| - 1 ==>
      v.scanIndices[i + 1] == v.scanIndices[i] + |SetOf(sets, scans[i].number)|
    ensures forall i :: 0 <= i < |scans| - 1 ==> v.scanIndices[i] < v.scanIndices[i + 1]
  {
    OffsetsStep(scans, sets);
  }

  /** The point columns of the flattening of the TreeSets of `ins` with
      `count` the number of points handed to them: the points written are
      no more than `count`, exactly `count` when no scan was handed two
      points with the same m/z, and the slots after them hold 0.0. */
  lemma FlatCount(scans: seq<MsScan>, ins: map<int, seq<DataPoint>>, count: nat, v: Vectors)
    requires AllMapped(scans, ins)
    requires forall k :: k in Numbers(scans) ==> k in ins
    requires count == TotalLen(Numbers(scans), ins)
    requires v == Flatten(scans, Trees(ins), count)
    ensures |v.masses| == |v.intensities| == count
    ensures |AllPoints(scans, Trees(ins))| <= count
    ensures |AllPoints(scans, Trees(ins))| == count <==>
      forall i :: 0 <= i < |scans| ==> DistinctMz(ins[scans[i].number])
    ensures forall k :: |AllPoints(scans, Trees(ins))| <= k < count ==> v.masses[k] == 0.0 && v.intensities[k] == 0.0
  {
    TreesShrunk(ins);
    WrittenVersusHanded(scans, Trees(ins), ins, |scans|);
    TotalLenIsHanded(scans, ins, |scans|);
    assert scans[..|scans|] == scans;
  }

  /** With a non-empty set per scan, at least one point per scan is written. */
  lemma {:induction false} WrittenAtLeastScans(scans: seq<MsScan>, sets: map<int, seq<DataPoint>>, i: nat)
    requires i <= |scans|
    requires forall i :: 0 <= i < |scans| ==> SetOf(sets, scans[i].number) != []
    ensures |PointsBefore(scans, sets, i)| >= i
  {
    if i > 0 {
      WrittenAtLeastScans(scans, sets, i - 1);
    }
  }

  /** The columns `ms` and `it` hold `pts`, in order, from slot `o` on. */
  predicate RunAt(ms: seq<real>, it: seq<real>, o: int, pts: seq<DataPoint>) {
    && 0 <= o && o + |pts| <= |ms| == |it|
    && forall t :: 0 <= t < |pts| ==> ms[o + t] == pts[t].mz && it[o + t] == pts[t].intensity
  }

  /** A run of points inside the written prefix shows up, in order, in both
      point columns. */
  lemma RunColumns(w: seq<DataPoint>, count: nat, o: nat, pts: seq<DataPoint>)
    requires o + |pts| <= |w| <= count
    requires w[o..o + |pts|] == pts
    ensures RunAt(MassColumn(w, count), IntensityColumn(w, count), o, pts)
  {
    forall t | 0 <= t < |pts|
      ensures MassColumn(w, count)[o + t] == pts[t].mz && IntensityColumn(w, count)[o + t] == pts[t].intensity
    {
      assert w[o..o + |pts|][t] == w[o + t];
    }
  }

  /** Scan `i`'s segment of the point columns, after the points of the
      earlier scans, holds its set's points in order. */
  lemma FlatSegmentContent(scans: seq<MsScan>, sets: map<int, seq<DataPoint>>, count: nat, v: Vectors, i: int)
    requires 0 <= i < |scans|
    requires |AllPoints(scans, sets)| <= count
    requires v == Flatten(scans, sets, count)
    ensures RunAt(v.masses, v.intensities, v.scanIndices[i] - 1, SetOf(sets, scans[i].number))
  {
    var w := AllPoints(scans, sets);
    ScanSegment(scans, sets, i);
    RunColumns(w, count, |PointsBefore(scans, sets, i)|, SetOf(sets, scans[i].number));
  }

  /** The masses of scan `i`'s segment strictly ascend with its set's. */
  lemma FlatSegmentAscending(scans: seq<MsScan>, sets: map<int, seq<DataPoint>>, count: nat, v: Vectors, i: int)
    requires 0 <= i < |scans|
    requires SetOf(sets, scans[i].number) != [] && Ascending(SetOf(sets, scans[i].number))
    requires |AllPoints(scans, sets)| <= count
    requires v == Flatten(scans, sets, count)
    ensures var o := v.scanIndices[i] - 1;
      && 0 <= o && o + |SetOf(sets, scans[i].number)| <= |v.masses|
      && AscendingBetween(v.masses, o, o + |SetOf(sets, scans[i].number)|)
  {
    SegmentAscending(scans, sets, count, i);
  }

  /** The point columns hold every scan's set in the segment that starts at
      its offset, in order, with strictly ascending masses. */
  predicate Segmented(scans: seq<MsScan>, sets: map<int, seq<DataPoint>>, v: Vectors) {
    && |v.scanIndices| == |scans|
    && |v.masses| == |v.intensities|
    && forall i :: 0 <= i < |scans| ==>
      var o := v.scanIndices[i] - 1;
      var pts := SetOf(sets, scans[i].number);
      && 0 <= o && o + |pts| <= |v.masses|
      && AscendingBetween(v.masses, o, o + |pts|)
      && (forall t :: 0 <= t < |pts| ==> v.masses[o + t] == pts[t].mz && v.intensities[o + t] == pts[t].intensity)
  }

  /** Every scan's segment of a flattening's point columns holds its set's
      points in order, masses strictly ascending. */
  lemma FlatSegments(scans: seq<MsScan>, sets: map<int, seq<DataPoint>>, count: nat, v: Vectors)
    requires forall i :: 0 <= i < |scans| ==>
      SetOf(sets, scans[i].number) != [] && Ascending(SetOf(sets, scans[i].number))
    requires |AllPoints(scans, sets)| <= count
    requires v == Flatten(scans, sets, count)
    ensures Segmented(scans, sets, v)
  {
    forall i | 0 <= i < |scans|
      ensures var o := v.scanIndices[i] - 1;
        var pts := SetOf(sets, scans[i].number);
        && 0 <= o && o + |pts| <= |v.masses| == |v.intensities|
        && AscendingBetween(v.masses, o, o + |pts|)
        && (forall t :: 0 <= t < |pts| ==> v.masses[o + t] == pts[t].mz && v.intensities[o + t] == pts[t].intensity)
    {
      FlatSegmentContent(scans, sets, count, v, i);
      FlatSegmentAscending(scans, sets, count, v, i);
    }
  }
}
