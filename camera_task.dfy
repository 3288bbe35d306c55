/** The task around the search: the guard on the peak list's raw data
    files, the R engine checks, the marshalling of the peak list, and the
    annotation of every peak row with its pseudo-spectrum identity. The
    CAMERA stages run inside R and are a parameter of the engine. */
module CameraTask {
  import opened CameraTypes
  import opened CameraSearch
  import opened Annotations

  /** The oldest CAMERA version the search accepts. */
  const CAMERA_VERSION: string := "1.12"

  datatype TaskStatus = Waiting | Processing | Finished | Error

  /** What R hands back after getPeaklist: the pseudo-spectrum group of each
      peak (absent when R returns null) and the isotope string of each peak
      (absent when R returns null). */
  datatype CameraResult = CameraResult(spectra: Option<seq<int>>, isotopes: Option<seq<string>>)

  /** The R engine as the search sees it: whether it loads, whether CAMERA is
      installed and at least CAMERA_VERSION, and the CAMERA stages as a
      function of what the search hands over. */
  datatype REngine = REngine(loads: bool, cameraInstalled: bool, cameraCurrent: bool,
                             camera: Translation -> CameraResult)

  /** What the search yields before the annotation: CAMERA's result, or the
      error that stops it. The raw data file count is checked before the
      engine is touched, and the engine before the peaks are marshalled. */
  function SearchOutcome(rawFiles: seq<RawFile>, peaks: seq<Feature>, engine: REngine, dummy: DataPoint)
    : (r: Result<CameraResult, SearchError>)
    requires |rawFiles| == 1 ==> DistinctNumbers(rawFiles[0])
    ensures r.Ok? ==> |rawFiles| == 1 && engine.loads && engine.cameraInstalled && engine.cameraCurrent
  {
    if |rawFiles| != 1 then Err(NotSingleRawFile)
    else if !engine.loads then Err(REngineUnavailable)
    else if !engine.cameraInstalled then Err(CameraNotInstalled)
    else if !engine.cameraCurrent then Err(CameraTooOld)
    else
      match Translate(rawFiles[0], peaks, dummy)
      case Err(e) => Err(e)
      case Ok(t) => Ok(engine.camera(t))
  }

  /** How many peaks the annotation loop reaches before it reads past the end
      of the spectra vector or of the isotope vector. */
  function Reach(n: nat, spectra: seq<int>, isotopes: Option<seq<string>>): (r: nat)
    ensures r <= n && r <= |spectra| && (isotopes.Some? ==> r <= |isotopes.value|)
    ensures r == n || r == |spectra| || (isotopes.Some? && r == |isotopes.value|)
  {
    var m := if n < |spectra| then n else |spectra|;
    if isotopes.Some? && |isotopes.value| < m then |isotopes.value| else m
  }

  /** The identity of the `k`-th peak. */
  function IdentityAt(spectra: seq<int>, isotopes: Option<seq<string>>, k: nat): Identity
    requires k < |spectra| && (isotopes.Some? ==> k < |isotopes.value|)
  {
    IdentityFor(spectra[k], if isotopes.Some? then Some(isotopes.value[k]) else None)
  }

  /** The rows' identities after the annotation loop: each row it reaches
      gets its peak's identity appended. */
  function Annotated(ids: seq<seq<Identity>>, spectra: seq<int>, isotopes: Option<seq<string>>)
    : (r: seq<seq<Identity>>)
    ensures |r| == |ids|
  {
    var reach := Reach(|ids|, spectra, isotopes);
    seq(|ids|, k requires 0 <= k < |ids| =>
      if k < reach then ids[k] + [IdentityAt(spectra, isotopes, k)] else ids[k])
  }

  /** The rows' preferred identities after the annotation loop: the appended
      identity, in each row the loop reaches. */
  function Preferred(pref: seq<Option<Identity>>, spectra: seq<int>, isotopes: Option<seq<string>>)
    : (r: seq<Option<Identity>>)
    ensures |r| == |pref|
  {
    var reach := Reach(|pref|, spectra, isotopes);
    seq(|pref|, k requires 0 <= k < |pref| =>
      if k < reach then Some(IdentityAt(spectra, isotopes, k)) else pref[k])
  }

  /** The search reaches CAMERA exactly when the peak list has a single raw
      data file, R loads with a current CAMERA, and every listed scan of
      every peak is an MS1 scan of that file. The errors come in that order:
      a wrong raw data file count is reported whatever the engine, and an
      engine fault before any scan is looked at. */
  lemma SearchSucceedsIff(rawFiles: seq<RawFile>, peaks: seq<Feature>, engine: REngine, dummy: DataPoint)
    requires |rawFiles| == 1 ==> DistinctNumbers(rawFiles[0])
    ensures SearchOutcome(rawFiles, peaks, engine, dummy).Ok? <==>
      && |rawFiles| == 1
      && engine.loads && engine.cameraInstalled && engine.cameraCurrent
      && forall i, j :: 0 <= i < |peaks| && 0 <= j < |peaks[i].scanNumbers| ==>
           IsMs1(rawFiles[0], peaks[i].scanNumbers[j])
    ensures |rawFiles| != 1 ==> SearchOutcome(rawFiles, peaks, engine, dummy) == Err(NotSingleRawFile)
    ensures |rawFiles| == 1 && !(engine.loads && engine.cameraInstalled && engine.cameraCurrent) ==>
      SearchOutcome(rawFiles, peaks, engine, dummy).Err? &&
      SearchOutcome(rawFiles, peaks, engine, dummy).error in {REngineUnavailable, CameraNotInstalled, CameraTooOld}
    ensures |rawFiles| == 1 && engine.loads && engine.cameraInstalled && engine.cameraCurrent &&
            SearchOutcome(rawFiles, peaks, engine, dummy).Err? ==>
      SearchOutcome(rawFiles, peaks, engine, dummy).error in {WrongMsLevel, MissingScan}
  {
    if |rawFiles| == 1 {
      TranslateSucceedsIff(rawFiles[0], peaks, dummy);
    }
  }

  /** Every row the annotation loop reaches gains exactly one identity, at
      its end: named "Pseudo-spectrum #" and the peak's group written by
      `%03d`, reading back as the group, with the CAMERA method, and with an
      isotope property `g` exactly when there is an isotope vector whose
      trimmed entry is `[digits]g`. The rows past the loop's reach keep their
      identities. */
  lemma AnnotatedRow(ids: seq<seq<Identity>>, spectra: seq<int>, isotopes: Option<seq<string>>, k: nat, g: string)
    requires k < |ids|
    ensures |Annotated(ids, spectra, isotopes)| == |ids|
    ensures k >= Reach(|ids|, spectra, isotopes) ==> Annotated(ids, spectra, isotopes)[k] == ids[k]
    ensures k < Reach(|ids|, spectra, isotopes) ==>
      var row := Annotated(ids, spectra, isotopes)[k];
      |row| == |ids[k]| + 1 && row[..|ids[k]|] == ids[k]
    ensures k < Reach(|ids|, spectra, isotopes) ==>
      var id := Annotated(ids, spectra, isotopes)[k][|ids[k]|];
      && id.methodName == METHOD
      && |id.name| >= |LABEL_PREFIX| + 3
      && id.name[..|LABEL_PREFIX|] == LABEL_PREFIX
      && ParseInt(id.name[|LABEL_PREFIX|..]) == Some(spectra[k])
    ensures k < Reach(|ids|, spectra, isotopes) ==>
      (Annotated(ids, spectra, isotopes)[k][|ids[k]|].isotope == Some(g) <==>
       isotopes.Some? && exists d :: IsotopeForm(Trim(isotopes.value[k]), d, g))
  {
    if k < Reach(|ids|, spectra, isotopes) {
      var isotope := if isotopes.Some? then Some(isotopes.value[k]) else None;
      var row := Annotated(ids, spectra, isotopes)[k];
      assert row == ids[k] + [IdentityFor(spectra[k], isotope)];
      assert row[|ids[k]|] == IdentityFor(spectra[k], isotope);
      IdentityFacts(spectra[k], isotope, g);
    }
  }

  /** The name the loop appends to a row it reaches is exactly as wide as
      `%03d` makes it: the prefix and three characters for the groups -99 to
      999, and the prefix and the group's plain decimal digits (after a minus
      sign) beyond, with no added zeros. */
  lemma AnnotatedLabelWidth(ids: seq<seq<Identity>>, spectra: seq<int>, isotopes: Option<seq<string>>, k: nat)
    requires k < Reach(|ids|, spectra, isotopes)
    ensures |Annotated(ids, spectra, isotopes)[k]| == |ids[k]| + 1
    ensures -100 < spectra[k] < 1000 ==>
      |Annotated(ids, spectra, isotopes)[k][|ids[k]|].name| == |LABEL_PREFIX| + 3
    ensures spectra[k] >= 1000 ==>
      Annotated(ids, spectra, isotopes)[k][|ids[k]|].name == LABEL_PREFIX + Digits(spectra[k])
    ensures spectra[k] <= -100 ==>
      Annotated(ids, spectra, isotopes)[k][|ids[k]|].name == LABEL_PREFIX + "-" + Digits(-spectra[k])
  {
    var isotope := if isotopes.Some? then Some(isotopes.value[k]) else None;
    var row := Annotated(ids, spectra, isotopes)[k];
    assert row == ids[k] + [IdentityFor(spectra[k], isotope)];
    assert row[|ids[k]|].name == Label(spectra[k]);
    LabelWidth(spectra[k]);
  }

  /** In every row the loop reaches, the identity it appends becomes the
      preferred one; the other rows keep theirs. */
  lemma PreferredRow(ids: seq<seq<Identity>>, pref: seq<Option<Identity>>, spectra: seq<int>,
                     isotopes: Option<seq<string>>, k: nat)
    requires |pref| == |ids| && k < |ids|
    ensures |Preferred(pref, spectra, isotopes)| == |pref|
    ensures k < Reach(|ids|, spectra, isotopes) ==>
      |Annotated(ids, spectra, isotopes)[k]| == |ids[k]| + 1 &&
      Preferred(pref, spectra, isotopes)[k] == Some(Annotated(ids, spectra, isotopes)[k][|ids[k]|])
    ensures k >= Reach(|ids|, spectra, isotopes) ==> Preferred(pref, spectra, isotopes)[k] == pref[k]
  {
    if k < Reach(|ids|, spectra, isotopes) {
      var row := Annotated(ids, spectra, isotopes)[k];
      assert row == ids[k] + [IdentityAt(spectra, isotopes, k)];
      assert row[|ids[k]|] == IdentityAt(spectra, isotopes, k);
    }
  }

  /** The loop annotates every peak exactly when both vectors have an entry
      for each of them; otherwise it reaches exactly the peaks before the end
      of the shorter vector. */
  lemma AnnotatedAll(n: nat, spectra: seq<int>, isotopes: Option<seq<string>>)
    ensures Reach(n, spectra, isotopes) == n <==> n <= |spectra| && (isotopes.Some? ==> n <= |isotopes.value|)
    ensures Reach(n, spectra, isotopes) < n ==>
      Reach(n, spectra, isotopes) == |spectra| || (isotopes.Some? && Reach(n, spectra, isotopes) == |isotopes.value|)
  {
  }

  /** A peak list of a single raw data file: its raw data files, its peaks,
      and for each peak's row the identities added to it and the preferred
      one. Row `k` holds peak `k`. Adding an identity to a row always appends
      it; a row that refuses a name it already holds is not modelled. */
  class PeakList {
    const rawFiles: seq<RawFile>
    const peaks: seq<Feature>
    var identities: seq<seq<Identity>>
    var preferred: seq<Option<Identity>>

    ghost predicate Valid()
      reads this
    {
      |identities| == |peaks| && |preferred| == |peaks|
    }

    constructor(rawFiles: seq<RawFile>, peaks: seq<Feature>)
      ensures Valid()
      ensures this.rawFiles == rawFiles && this.peaks == peaks
      ensures forall k :: 0 <= k < |peaks| ==> identities[k] == [] && preferred[k] == None
    {
      this.rawFiles := rawFiles;
      this.peaks := peaks;
      identities := seq(|peaks|, _ => []);
      preferred := seq(|peaks|, _ => None);
    }

    /** addPeakIdentity on the row of peak `k`: the identity is appended to
        the row's identities, and becomes the preferred one when asked. */
    method AddPeakIdentity(k: nat, identity: Identity, setPreferred: bool)
      requires Valid() && k < |peaks|
      modifies this
      ensures Valid()
      ensures identities == old(identities)[k := old(identities)[k] + [identity]]
      ensures preferred == if setPreferred then old(preferred)[k := Some(identity)] else old(preferred)
    {
      identities := identities[k := identities[k] + [identity]];
      if setPreferred {
        preferred := preferred[k := Some(identity)];
      }
    }
  }

  class CameraSearchTask {
    const peakList: PeakList
    var status: TaskStatus
    var errorMessage: Option<SearchError>

    constructor(list: PeakList)
      ensures peakList == list && status == Waiting && errorMessage == None
    {
      peakList := list;
      status := Waiting;
      errorMessage := None;
    }

    /** The loop over the peaks that gives peak `k` the identity of
        pseudo-spectrum `spectra[k]` with the isotope group of
        `isotopes[k]`. It stops with false at the first peak past the end of
        either vector, the earlier peaks keeping their identities. */
    method AddPseudoSpectraIdentities(spectra: seq<int>, isotopes: Option<seq<string>>) returns (ok: bool)
      requires peakList.Valid()
      modifies peakList
      ensures peakList.Valid()
      ensures ok <==> Reach(|peakList.peaks|, spectra, isotopes) == |peakList.peaks|
      ensures peakList.identities == Annotated(old(peakList.identities), spectra, isotopes)
      ensures peakList.preferred == Preferred(old(peakList.preferred), spectra, isotopes)
    {
      ghost var ids := peakList.identities;
      ghost var pref := peakList.preferred;
      var peaks := peakList.peaks;
      var peakIndex := 0;
      while peakIndex < |peaks|
        invariant 0 <= peakIndex <= Reach(|peaks|, spectra, isotopes)
        invariant peakList.Valid()
        invariant forall k :: 0 <= k < |peaks| ==>
          peakList.identities[k] == if k < peakIndex then ids[k] + [IdentityAt(spectra, isotopes, k)] else ids[k]
        invariant forall k :: 0 <= k < |peaks| ==>
          peakList.preferred[k] == if k < peakIndex then Some(IdentityAt(spectra, isotopes, k)) else pref[k]
      {
        if peakIndex >= |spectra| {
          return false;
        }
        var isotope: Option<string> := None;
        if isotopes.Some? {
          if peakIndex >= |isotopes.value| {
            return false;
          }
          isotope := Some(isotopes.value[peakIndex]);
        }
        var identity := IdentityFor(spectra[peakIndex], isotope);
        peakList.AddPeakIdentity(peakIndex, identity, true);
        peakIndex := peakIndex + 1;
      }
      return true;
    }

    /** run: rejects a peak list that does not belong to exactly one raw data
        file, checks the R engine, marshals the peaks, hands them to CAMERA
        and annotates the peaks with its result; every error ends the task in
        the error state with that error as its message. */
    method Run(engine: REngine, dummy: DataPoint)
      requires peakList.Valid()
      requires |peakList.rawFiles| == 1 ==> DistinctNumbers(peakList.rawFiles[0])
      modifies this, peakList
      ensures peakList.Valid()
      ensures var outcome := SearchOutcome(peakList.rawFiles, peakList.peaks, engine, dummy);
        && (outcome.Err? ==>
              status == Error && errorMessage == Some(outcome.error)
              && peakList.identities == old(peakList.identities) && peakList.preferred == old(peakList.preferred))
        && (outcome.Ok? && outcome.value.spectra.None? ==>
              status == Finished && errorMessage == old(errorMessage)
              && peakList.identities == old(peakList.identities) && peakList.preferred == old(peakList.preferred))
        && (outcome.Ok? && outcome.value.spectra.Some? ==>
              var spectra := outcome.value.spectra.value;
              var isotopes := outcome.value.isotopes;
              && peakList.identities == Annotated(old(peakList.identities), spectra, isotopes)
              && peakList.preferred == Preferred(old(peakList.preferred), spectra, isotopes)
              && (if Reach(|peakList.peaks|, spectra, isotopes) == |peakList.peaks|
                  then status == Finished && errorMessage == old(errorMessage)
                  else status == Error && errorMessage == Some(ShortResultVector)))
    {
      status := Processing;
      if |peakList.rawFiles| != 1 {
        status := Error;
        errorMessage := Some(NotSingleRawFile);
        return;
      }
      var error: Option<SearchError> := None;
      if !engine.loads {
        error := Some(REngineUnavailable);
      } else if !engine.cameraInstalled {
        error := Some(CameraNotInstalled);
      } else if !engine.cameraCurrent {
        error := Some(CameraTooOld);
      }
      if error.Some? {
        status := Error;
        errorMessage := error;
        return;
      }
      var translation := Marshal(peakList.rawFiles[0], peakList.peaks, dummy);
      if translation.Err? {
        status := Error;
        errorMessage := Some(translation.error);
        return;
      }
      var result := engine.camera(translation.value);
      if result.spectra.Some? {
        var ok := AddPseudoSpectraIdentities(result.spectra.value, result.isotopes);
        if !ok {
          status := Error;
          errorMessage := Some(ShortResultVector);
          return;
        }
      }
      status := Finished;
    }
  }
}
