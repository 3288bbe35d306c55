/** The parts of the host platform's data model that the CAMERA search reads:
    data points, scans of a raw data file, detected peaks, and the errors
    that end the search. */
module CameraTypes {

  datatype Option<+T> = None | Some(value: T)

  datatype Result<+T, +E> = Ok(value: T) | Err(error: E)

  /** The only MS level the search processes. */
  const MS_LEVEL: int := 1

  /** One (m/z, intensity) pair of a spectrum. */
  datatype DataPoint = DataPoint(mz: real, intensity: real)

  /** The attributes of a raw scan that the search reads. */
  datatype MsScan = MsScan(number: int, msLevel: int, retentionTime: real)

  /** A closed interval of values. */
  datatype Range = Range(min: real, max: real)

  /** A detected chromatographic peak: its m/z, retention time, area, height,
      the retention-time range of its raw data points, the scans it spans in
      order, and its data point in each of those scans where it has one. */
  datatype Feature = Feature(
    mz: real,
    rt: real,
    area: real,
    height: real,
    rawDataPointsRTRange: Range,
    scanNumbers: seq<int>,
    dataPoints: map<int, DataPoint>)

  /** A raw data file, as its scans in file order. */
  type RawFile = seq<MsScan>

  /** Why a search ends in the error state. */
  datatype SearchError =
    | NotSingleRawFile     // the peak list does not belong to exactly one raw data file
    | REngineUnavailable   // R could not be loaded
    | CameraNotInstalled   // require(CAMERA) was false
    | CameraTooOld         // the installed CAMERA is older than the required version
    | WrongMsLevel         // a scan of a peak is not an MS1 scan
    | MissingScan          // a scan of a peak is not in the raw file (a null dereference)
    | ShortResultVector    // CAMERA's spectra or isotope vector has no entry for a peak

  predicate Distinct(xs: seq<int>) {
    forall i, j :: 0 <= i < j < |xs| ==> xs[i] != xs[j]
  }

  /** Scan numbers identify the scans of a raw data file. */
  predicate DistinctNumbers(scans: seq<MsScan>) {
    forall i, j :: 0 <= i < j < |scans| ==> scans[i].number != scans[j].number
  }

  /** The scan with number `n`, if the file has one. */
  function GetScan(raw: RawFile, n: int): (r: Option<MsScan>)
    ensures r.Some? ==> r.value in raw && r.value.number == n
    ensures r.None? ==> forall s :: s in raw ==> s.number != n
  {
    if raw == [] then None
    else if raw[0].number == n then Some(raw[0])
    else GetScan(raw[1..], n)
  }

  /** The scans of the given MS level, in file order. */
  function ScansAt(raw: RawFile, level: int): (r: seq<MsScan>)
    ensures |r| <= |raw|
  {
    if raw == [] then []
    else (if raw[0].msLevel == level then [raw[0]] else []) + ScansAt(raw[1..], level)
  }

  /** The filter yields exactly the file's scans of the given level. */
  lemma {:induction false} ScansAtMember(raw: RawFile, level: int, s: MsScan)
    ensures s in ScansAt(raw, level) <==> s in raw && s.msLevel == level
  {
    if raw != [] {
      ScansAtMember(raw[1..], level, s);
      assert raw == [raw[0]] + raw[1..];
    }
  }

  /** The filter's result after the first scan of a non-empty file. */
  lemma ScansAtCons(raw: RawFile, level: int)
    requires raw != []
    ensures raw[0].msLevel == level ==> ScansAt(raw, level) == [raw[0]] + ScansAt(raw[1..], level)
    ensures raw[0].msLevel != level ==> ScansAt(raw, level) == ScansAt(raw[1..], level)
  {
  }

  /** Where in the file the `k`-th scan the filter yields sits. */
  lemma {:induction false} ScansAtPosition(raw: RawFile, level: int, k: nat) returns (a: nat)
    requires k < |ScansAt(raw, level)|
    ensures a < |raw| && raw[a] == ScansAt(raw, level)[k]
  {
    var r, rest := ScansAt(raw, level), ScansAt(raw[1..], level);
    ScansAtCons(raw, level);
    if raw[0].msLevel == level && k == 0 {
      a := 0;
    } else {
      var d := if raw[0].msLevel == level then 1 else 0;
      assert r[k] == rest[k - d];
      var a' := ScansAtPosition(raw[1..], level, k - d);
      assert raw[a' + 1] == raw[1..][a'];
      a := a' + 1;
    }
  }

  /** Where in the file the `i`-th and `j`-th scans the filter yields sit,
      the earlier one first. */
  lemma {:induction false} ScansAtPositions(raw: RawFile, level: int, i: nat, j: nat) returns (a: nat, b: nat)
    requires i < j < |ScansAt(raw, level)|
    ensures a < b < |raw| && raw[a] == ScansAt(raw, level)[i] && raw[b] == ScansAt(raw, level)[j]
  {
    var r, rest := ScansAt(raw, level), ScansAt(raw[1..], level);
    ScansAtCons(raw, level);
    var d := if raw[0].msLevel == level then 1 else 0;
    assert r[j] == rest[j - d];
    var b' := 0;
    if d == 1 && i == 0 {
      a := 0;
      b' := ScansAtPosition(raw[1..], level, j - 1);
    } else {
      assert r[i] == rest[i - d];
      var a';
      a', b' := ScansAtPositions(raw[1..], level, i - d, j - d);
      assert raw[a' + 1] == raw[1..][a'];
      a := a' + 1;
    }
    assert raw[b' + 1] == raw[1..][b'];
    b := b' + 1;
  }

  /** The filter keeps the file's order: of any two scans it yields, the
      earlier one comes earlier in the file. */
  lemma ScansAtInFileOrder(raw: RawFile, level: int, i: nat, j: nat)
    requires i < j < |ScansAt(raw, level)|
    ensures exists a, b :: 0 <= a < b < |raw| && raw[a] == ScansAt(raw, level)[i] && raw[b] == ScansAt(raw, level)[j]
  {
    var a, b := ScansAtPositions(raw, level, i, j);
  }

  /** The numbers of `scans`, in order. */
  function Numbers(scans: seq<MsScan>): seq<int> {
    seq(|scans|, i requires 0 <= i < |scans| => scans[i].number)
  }

  /** The numbers of the scans of the given MS level, in file order. */
  function ScanNumbersAt(raw: RawFile, level: int): seq<int> {
    Numbers(ScansAt(raw, level))
  }

  /** Scan `n` exists and is an MS1 scan. */
  predicate IsMs1(raw: RawFile, n: int) {
    GetScan(raw, n).Some? && GetScan(raw, n).value.msLevel == MS_LEVEL
  }

  /** Every scan of a file with distinct scan numbers is found by its number. */
  lemma {:induction false} GetScanFindsListed(raw: RawFile, s: MsScan)
    requires DistinctNumbers(raw) && s in raw
    ensures GetScan(raw, s.number) == Some(s)
  {
    if raw[0] != s {
      assert raw[0].number != s.number by {
        var k :| 0 <= k < |raw| && raw[k] == s;
        assert k != 0;
      }
      assert s in raw[1..] by {
        var k :| 0 <= k < |raw| && raw[k] == s;
        assert raw[1..][k - 1] == s;
      }
      GetScanFindsListed(raw[1..], s);
    }
  }

  /** getScanNumbers(1) lists exactly the MS1 scans. */
  lemma Ms1Listed(raw: RawFile, n: int)
    requires DistinctNumbers(raw)
    ensures IsMs1(raw, n) <==> n in ScanNumbersAt(raw, MS_LEVEL)
  {
    var scans := ScansAt(raw, MS_LEVEL);
    if IsMs1(raw, n) {
      var s := GetScan(raw, n).value;
      ScansAtMember(raw, MS_LEVEL, s);
      var i :| 0 <= i < |scans| && scans[i] == s;
      assert ScanNumbersAt(raw, MS_LEVEL)[i] == n;
    }
    if n in ScanNumbersAt(raw, MS_LEVEL) {
      var i :| 0 <= i < |scans| && ScanNumbersAt(raw, MS_LEVEL)[i] == n;
      ScansAtMember(raw, MS_LEVEL, scans[i]);
      GetScanFindsListed(raw, scans[i]);
    }
  }

  /** Filtering a file with distinct scan numbers keeps them distinct. */
  lemma {:induction false} ScansAtDistinct(raw: RawFile, level: int)
    requires DistinctNumbers(raw)
    ensures DistinctNumbers(ScansAt(raw, level))
    ensures Distinct(ScanNumbersAt(raw, level))
  {
    if raw != [] {
      ScansAtDistinct(raw[1..], level);
      var rest := ScansAt(raw[1..], level);
      forall s | s in rest ensures s.number != raw[0].number {
        ScansAtMember(raw[1..], level, s);
        var k :| 0 <= k < |raw[1..]| && raw[1..][k] == s;
        assert raw[k + 1] == s;
      }
    }
  }

  /** Each number listed by getScanNumbers(1) finds that MS1 scan again. */
  lemma ListedScanFound(raw: RawFile, i: int)
    requires DistinctNumbers(raw)
    requires 0 <= i < |ScansAt(raw, MS_LEVEL)|
    ensures GetScan(raw, ScanNumbersAt(raw, MS_LEVEL)[i]) == Some(ScansAt(raw, MS_LEVEL)[i])
  {
    ScansAtMember(raw, MS_LEVEL, ScansAt(raw, MS_LEVEL)[i]);
    GetScanFindsListed(raw, ScansAt(raw, MS_LEVEL)[i]);
  }
}
