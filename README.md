# CAMERA pseudo-spectrum search: a Dafny model of its marshalling core

MZmine's CAMERA search task hands a single-file peak list to the R package
CAMERA. CAMERA groups the peaks into pseudo-spectra and annotates isotopes.
The Java task does no chemometrics itself. It marshals the peak list into R,
runs three CAMERA stages, and turns the two vectors R returns into peak
identities. This project models that Java code and proves what it promises.

The model has five parts:

- **The run guard and the engine checks** (`CameraTask`). A peak list must
  belong to exactly one raw data file. R must load, and CAMERA must be
  installed at version 1.12 or later. Every error ends the task in the error
  state with that error as its message.
- **The scan map** (`ScanMap`, `PointSet`, `CameraSearch`).
  - Every MS1 scan gets a TreeSet ordered by m/z alone, seeded with the dummy
    data point.
  - The peak loop visits every listed scan of every peak. It aborts at the
    first scan that is missing or not MS1. Where the peak has a data point,
    it adds (peak m/z, point intensity) to that scan's set and increments
    `dataPointCount`.
  - The set keeps only the first point at a given m/z, so `dataPointCount`
    counts insertions, not stored points.
- **The peak rows** (`PeakRows`). Each peak gets a ten-column row. The
  retention-time and intensity ranges are accumulated over the scans where
  the peak has data. Without such scans, the peak's raw retention-time range
  and its height stand in.
- **The raw-signal vectors** (`RawVectors`). The sets are flattened, scan by
  scan in the order of `getScanNumbers(1)`, into four vectors:
  - `scanTimes`;
  - `scanIndices`, the 1-based offsets;
  - `masses` and `intensities`, allocated with `dataPointCount` slots. Slots
    that no point fills keep 0.0.
- **The annotation** (`Annotations`, `CameraTask`). Peak `k` receives an
  identity with these parts:
  - the name "Pseudo-spectrum #" followed by `spectra[k]` formatted with
    `%03d`;
  - the method "Bioconductor CAMERA";
  - when an isotope vector came back, group 1 of `\[\d+\](.*)` matched
    against the whole trimmed isotope string.

  The identity is appended to the peak's row and becomes its preferred one.

The state that the source changes in place is imperative:
- `SeedScanMap`, `AddPeak`, `RunPeaks` and `Marshal` are loops over sets,
  counters and ranges.
- `FillVectors`, `FillScan` and `CopyPoints` write arrays.
- `PeakList` and `CameraSearchTask` are classes whose methods update fields.

Each method is proved against a specification function: `Samples`,
`PeakStep`, `PeakPass`, `Flatten`, `Translate`, `Annotated` and `Preferred`.
The properties the source promises are lemmas about those functions.

Two behaviours of the code are worth stating on their own, and the model has
both:
- An empty trimmed isotope string gives no isotope property and, unlike a
  non-empty one that does not match, logs no warning
  (CameraSearchTask.java:420-434).
- A CAMERA result vector shorter than the peak list ends the task in the
  error state. The loop fails on the array bound, so the identities it has
  already appended to earlier rows stay; nothing is rolled back
  (CameraSearchTask.java:409-439).

## Model

| member | source | states |
|---|---|---|
| CameraTypes.GetScan | src/main/java/net/sf/mzmine/modules/peaklistmethods/identification/camera/CameraSearchTask.java:240 | `getScan(n)` yields a scan of the file with number `n`, and null (None) only when the file has no scan with that number |
| CameraTypes.ScansAt | src/main/java/net/sf/mzmine/modules/peaklistmethods/identification/camera/CameraSearchTask.java:215 | filtering by MS level yields no more scans than the file holds |
| CameraTypes.ScansAtMember | src/main/java/net/sf/mzmine/modules/peaklistmethods/identification/camera/CameraSearchTask.java:215 | a scan is yielded for a level exactly when it is a scan of the file at that level |
| CameraTypes.ScansAtInFileOrder | src/main/java/net/sf/mzmine/modules/peaklistmethods/identification/camera/CameraSearchTask.java:215 | the yielded scans keep the file order: of any two, the earlier one sits earlier in the file |
| CameraTypes.Ms1Listed | src/main/java/net/sf/mzmine/modules/peaklistmethods/identification/camera/CameraSearchTask.java:215-225 | a scan number is listed by `getScanNumbers(1)` exactly when `getScan` finds it and its MS level is 1 |
| CameraTypes.ScansAtDistinct | src/main/java/net/sf/mzmine/modules/peaklistmethods/identification/camera/CameraSearchTask.java:212-215 | the listed MS1 scan numbers are pairwise distinct, so each scan gets its own map entry |
| CameraTypes.ListedScanFound | src/main/java/net/sf/mzmine/modules/peaklistmethods/identification/camera/CameraSearchTask.java:309-311 | looking up a listed MS1 number returns that very scan |
| CameraTypes.GetScanFindsListed | src/main/java/net/sf/mzmine/modules/peaklistmethods/identification/camera/CameraSearchTask.java:240 | every scan of the file is found again by its number |
| PointSet.Insert | src/main/java/net/sf/mzmine/modules/peaklistmethods/identification/camera/CameraSearchTask.java:252 | TreeSet.add under the ascending-m/z comparator: iteration stays strictly ascending, a point whose m/z is present leaves the set unchanged, otherwise the set gains exactly that point |
| PointSet.InsertHasMz | src/main/java/net/sf/mzmine/modules/peaklistmethods/identification/camera/CameraSearchTask.java:252 | after `add` the set has an entry at an m/z exactly when it had one before or the added point has it |
| PointSet.TreeOf | src/main/java/net/sf/mzmine/modules/peaklistmethods/identification/camera/CameraSearchTask.java:218-222 | the set built by adding points in order is strictly ascending, no longer than the points added, and holds only added points |
| PointSet.TreeOfHasMz | src/main/java/net/sf/mzmine/modules/peaklistmethods/identification/camera/CameraSearchTask.java:252 | the set has an entry at an m/z exactly when some added point has that m/z |
| PointSet.TreeOfExact | src/main/java/net/sf/mzmine/modules/peaklistmethods/identification/camera/CameraSearchTask.java:252-253 | the set holds as many points as were added exactly when the added points have pairwise distinct m/z |
| PointSet.TreeOfKeepsFirst | src/main/java/net/sf/mzmine/modules/peaklistmethods/identification/camera/CameraSearchTask.java:252 | a point is in the set exactly when it was added and no earlier added point had its m/z |
| PeakRows.Span | src/main/java/net/sf/mzmine/modules/peaklistmethods/identification/camera/CameraSearchTask.java:233-270 | the range built by `new Range` then `extendRange` is absent exactly for no values; otherwise its bounds are values of the sequence and enclose all of them |
| PeakRows.Extend | src/main/java/net/sf/mzmine/modules/peaklistmethods/identification/camera/CameraSearchTask.java:257-270 | `new Range(x)` is the point range at `x`; `extendRange(x)` widens a range just enough to hold `x`, each bound staying put or becoming `x` |
| PeakRows.PeakRowColumns | src/main/java/net/sf/mzmine/modules/peaklistmethods/identification/camera/CameraSearchTask.java:274-291 | the row is mz three times, rt, rtmin, rtmax, area twice, maxo and 10.0; with samples, rtmin/rtmax/maxo are the least and greatest sample retention time and the greatest sample intensity (each attained); without, the raw RT range and the height |
| PeakRows.PeakRow | src/main/java/net/sf/mzmine/modules/peaklistmethods/identification/camera/CameraSearchTask.java:274-291 | the peak row has ten columns; their values are stated by `PeakRowColumns` |
| ScanMap.Samples | src/main/java/net/sf/mzmine/modules/peaklistmethods/identification/camera/CameraSearchTask.java:238-256 | the inner scan loop succeeds exactly when every listed scan is an MS1 scan of the file, fails only with the missing-scan or wrong-level error, and yields at most one sample per listed scan, each drawn from an MS1 scan and the peak's own data point there |
| ScanMap.SamplesComplete | src/main/java/net/sf/mzmine/modules/peaklistmethods/identification/camera/CameraSearchTask.java:248-253 | every listed scan where the peak has a data point yields a sample |
| ScanMap.SamplesScans | src/main/java/net/sf/mzmine/modules/peaklistmethods/identification/camera/CameraSearchTask.java:237-253 | a successful inner loop yields exactly one sample per listed scan where the peak has a data point, in list order (a scan listed twice gives two samples), and no other |
| ScanMap.SamplesFirstError | src/main/java/net/sf/mzmine/modules/peaklistmethods/identification/camera/CameraSearchTask.java:240-245 | the loop fails at the first non-MS1 listed scan: missing-scan when it is not in the file (the null dereference), wrong MS level otherwise |
| ScanMap.AppendedShape | src/main/java/net/sf/mzmine/modules/peaklistmethods/identification/camera/CameraSearchTask.java:248-252 | the points a peak hands to a scan carry the peak's m/z and a sample's intensity in that scan, and there are none when no sample is in that scan |
| ScanMap.Deliver | src/main/java/net/sf/mzmine/modules/peaklistmethods/identification/camera/CameraSearchTask.java:252 | adding a peak's samples keeps the map's keys and appends to each scan exactly the points for its own samples |
| ScanMap.TreesAdd | src/main/java/net/sf/mzmine/modules/peaklistmethods/identification/camera/CameraSearchTask.java:252 | handing one more point to a scan is `TreeSet.add` on that scan's set, all other sets unchanged |
| ScanMap.DeliverCount | src/main/java/net/sf/mzmine/modules/peaklistmethods/identification/camera/CameraSearchTask.java:253 | each sample raises `dataPointCount` by exactly one |
| ScanMap.TotalLenAtLeastKeys | src/main/java/net/sf/mzmine/modules/peaklistmethods/identification/camera/CameraSearchTask.java:215-222 | with a point per scan, `dataPointCount` is at least the number of scans |
| ScanMap.PeakStepTouchesOwnScans | src/main/java/net/sf/mzmine/modules/peaklistmethods/identification/camera/CameraSearchTask.java:238-253 | a peak only appends to scans in its own list where it has a data point, each appended point is (peak m/z, that point's intensity), and every other scan's points are unchanged |
| ScanMap.PeakStep | src/main/java/net/sf/mzmine/modules/peaklistmethods/identification/camera/CameraSearchTask.java:232-291 | one pass of the peak loop over a peak; described by `PeakStepTouchesOwnScans`, `DeliverCount` and `PeakPassRows` |
| ScanMap.PeakPass | src/main/java/net/sf/mzmine/modules/peaklistmethods/identification/camera/CameraSearchTask.java:228-294 | the peak loop keeps exactly the seeded scans as keys |
| ScanMap.PeakPassSucceedsIff | src/main/java/net/sf/mzmine/modules/peaklistmethods/identification/camera/CameraSearchTask.java:238-245 | the peak loop succeeds exactly when every listed scan of every peak is an MS1 scan of the file, and otherwise fails with the missing-scan or wrong-level error |
| ScanMap.PeakPassRows | src/main/java/net/sf/mzmine/modules/peaklistmethods/identification/camera/CameraSearchTask.java:230-291 | one row per peak, in peak order, each the row of that peak's samples |
| ScanMap.PeakPassKeepsSeed | src/main/java/net/sf/mzmine/modules/peaklistmethods/identification/camera/CameraSearchTask.java:218-221 | every scan's handed points still start with the point it was seeded with |
| ScanMap.TotalLenUpdate | src/main/java/net/sf/mzmine/modules/peaklistmethods/identification/camera/CameraSearchTask.java:253 | replacing one scan's points changes `dataPointCount` by exactly the change in their number |
| RawVectors.ScanSegment | src/main/java/net/sf/mzmine/modules/peaklistmethods/identification/camera/CameraSearchTask.java:316-321 | a scan's points are written right after the points of the scans before it, in the set's order |
| RawVectors.OffsetsStep | src/main/java/net/sf/mzmine/modules/peaklistmethods/identification/camera/CameraSearchTask.java:307-314 | the offsets start at 1 and each grows by the size of the previous scan's set |
| RawVectors.TreesShrunk | src/main/java/net/sf/mzmine/modules/peaklistmethods/identification/camera/CameraSearchTask.java:252 | each set is no longer than what was handed to it, and as long exactly when those points have distinct m/z |
| RawVectors.WrittenVersusHanded | src/main/java/net/sf/mzmine/modules/peaklistmethods/identification/camera/CameraSearchTask.java:316-321 | the points written never outnumber the points handed to the sets, and equal them exactly when no scan was handed two points with one m/z |
| RawVectors.TotalLenIsHanded | src/main/java/net/sf/mzmine/modules/peaklistmethods/identification/camera/CameraSearchTask.java:252-253 | `dataPointCount` is the number of points handed to the sets of the MS1 scans |
| RawVectors.SegmentAscending | src/main/java/net/sf/mzmine/modules/peaklistmethods/identification/camera/CameraSearchTask.java:316-321 | a scan's segment of the masses lies within the written points and is strictly ascending |
| RawVectors.DistinctKeysCount | src/main/java/net/sf/mzmine/modules/peaklistmethods/identification/camera/CameraSearchTask.java:300 | `scanCount`, the map's size, equals the number of MS1 scans |
| RawVectors.CopyPoints | src/main/java/net/sf/mzmine/modules/peaklistmethods/identification/camera/CameraSearchTask.java:316-321 | the inner fill loop writes a set's points from `pointIndex` on, in order, advances `pointIndex` by the set's size, and leaves every other slot unchanged |
| RawVectors.FillScan | src/main/java/net/sf/mzmine/modules/peaklistmethods/identification/camera/CameraSearchTask.java:309-321 | one outer-loop pass writes the scan's retention time and offset and its points, extending the filled prefix by that scan |
| RawVectors.FillVectors | src/main/java/net/sf/mzmine/modules/peaklistmethods/identification/camera/CameraSearchTask.java:300-322 | the filled arrays are fresh and equal the flattening of the sets with `dataPointCount` point slots |
| RawVectors.Flatten | src/main/java/net/sf/mzmine/modules/peaklistmethods/identification/camera/CameraSearchTask.java:300-322 | the four vectors: `scanTimes` and `scanIndices` have one entry per MS1 scan, `masses` and `intensities` have `dataPointCount` slots |
| RawVectors.FlatScanColumns | src/main/java/net/sf/mzmine/modules/peaklistmethods/identification/camera/CameraSearchTask.java:307-314 | `scanTimes[i]` is scan `i`'s retention time; `scanIndices[0] == 1` and `scanIndices[i+1] == scanIndices[i] + |set of scan i|`, so the offsets strictly increase |
| RawVectors.FlatCount | src/main/java/net/sf/mzmine/modules/peaklistmethods/identification/camera/CameraSearchTask.java:303-321 | the point arrays have `dataPointCount` slots; the points written are at most that many, exactly that many iff no scan was handed two points with one m/z, and the slots after them hold 0.0 |
| RawVectors.WrittenAtLeastScans | src/main/java/net/sf/mzmine/modules/peaklistmethods/identification/camera/CameraSearchTask.java:316-321 | with a non-empty set per scan, at least one point per scan is written |
| RawVectors.FlatSegmentContent | src/main/java/net/sf/mzmine/modules/peaklistmethods/identification/camera/CameraSearchTask.java:313-321 | from slot `scanIndices[i]-1` on, the point arrays hold scan `i`'s set in order |
| RawVectors.FlatSegmentAscending | src/main/java/net/sf/mzmine/modules/peaklistmethods/identification/camera/CameraSearchTask.java:313-321 | the masses of scan `i`'s segment are strictly ascending |
| RawVectors.FlatSegments | src/main/java/net/sf/mzmine/modules/peaklistmethods/identification/camera/CameraSearchTask.java:313-321 | every scan's segment holds its set's points in order, masses strictly ascending |
| CameraSearch.TotalLenOnes | src/main/java/net/sf/mzmine/modules/peaklistmethods/identification/camera/CameraSearchTask.java:214-222 | with one point per seeded scan, the count is the number of scans |
| CameraSearch.SeedScanMap | src/main/java/net/sf/mzmine/modules/peaklistmethods/identification/camera/CameraSearchTask.java:212-226 | every MS1 scan gets its own set holding exactly the dummy point, and `dataPointCount` equals the number of MS1 scans |
| CameraSearch.SeededCovers | src/main/java/net/sf/mzmine/modules/peaklistmethods/identification/camera/CameraSearchTask.java:215-226 | the seeded map has a set for every MS1 scan |
| CameraSearch.SamplesStep | src/main/java/net/sf/mzmine/modules/peaklistmethods/identification/camera/CameraSearchTask.java:238-253 | one more listed MS1 scan yields one more sample where the peak has a data point, none otherwise |
| CameraSearch.CollectFails | src/main/java/net/sf/mzmine/modules/peaklistmethods/identification/camera/CameraSearchTask.java:240-245 | a listed scan that is not MS1 ends the peak with the error for it |
| CameraSearch.AddPeak | src/main/java/net/sf/mzmine/modules/peaklistmethods/identification/camera/CameraSearchTask.java:232-291 | one pass of the peak loop returns the peak step's error, or the TreeSets of the handed points, the count raised by the peak's samples, and the peak's row |
| CameraSearch.PeakPassErrorSticks | src/main/java/net/sf/mzmine/modules/peaklistmethods/identification/camera/CameraSearchTask.java:240-245 | once a peak has failed, later peaks do not change the error |
| CameraSearch.RunPeaks | src/main/java/net/sf/mzmine/modules/peaklistmethods/identification/camera/CameraSearchTask.java:228-294 | the peak loop returns the first peak's error, or the sets, the count and the rows of `PeakPass` |
| CameraSearch.PeakCount | src/main/java/net/sf/mzmine/modules/peaklistmethods/identification/camera/CameraSearchTask.java:253 | a peak raises `dataPointCount` over the MS1 scans by its number of samples |
| CameraSearch.FillReady | src/main/java/net/sf/mzmine/modules/peaklistmethods/identification/camera/CameraSearchTask.java:300-304 | after the peak loop there is one set per MS1 scan, and they hold no more points than `dataPointCount` |
| CameraSearch.Marshal | src/main/java/net/sf/mzmine/modules/peaklistmethods/identification/camera/CameraSearchTask.java:208-322 | seeding, the peak loop and the vector fill together yield exactly `Translate`: the rows and the four vectors, or the peak loop's error |
| CameraSearch.Translate | src/main/java/net/sf/mzmine/modules/peaklistmethods/identification/camera/CameraSearchTask.java:208-322 | the marshalling of the peak list; described by `TranslateSucceedsIff`, `TranslateRows`, `TranslateSets`, `TranslateFlat`, `TranslateScanColumns`, `TranslateCount` and `TranslateSegments` |
| CameraSearch.PassCount | src/main/java/net/sf/mzmine/modules/peaklistmethods/identification/camera/CameraSearchTask.java:253 | the peak loop raises `dataPointCount` by the total number of samples |
| CameraSearch.HandedSeeded | src/main/java/net/sf/mzmine/modules/peaklistmethods/identification/camera/CameraSearchTask.java:215-221 | each MS1 scan, and nothing else, was handed points, starting with the dummy point |
| CameraSearch.TranslateSucceedsIff | src/main/java/net/sf/mzmine/modules/peaklistmethods/identification/camera/CameraSearchTask.java:238-245 | marshalling succeeds exactly when every listed scan of every peak is an MS1 scan of the file, and otherwise fails with the missing-scan or wrong-level error |
| CameraSearch.TranslateRows | src/main/java/net/sf/mzmine/modules/peaklistmethods/identification/camera/CameraSearchTask.java:230-291 | the peaks matrix has one row per peak, in order, each that peak's row |
| CameraSearch.TranslateSets | src/main/java/net/sf/mzmine/modules/peaklistmethods/identification/camera/CameraSearchTask.java:212-226 | exactly the MS1 scans have sets; each is the TreeSet of its handed points, holds the dummy point, iterates in ascending m/z and has between 1 and the handed number of points |
| CameraSearch.SetsOfScans | src/main/java/net/sf/mzmine/modules/peaklistmethods/identification/camera/CameraSearchTask.java:218-221 | every MS1 scan's set is non-empty and strictly ascending |
| CameraSearch.TranslateFlat | src/main/java/net/sf/mzmine/modules/peaklistmethods/identification/camera/CameraSearchTask.java:300-322 | the vectors are the flattening of the final sets with `dataPointCount` point slots |
| CameraSearch.TranslateScanColumns | src/main/java/net/sf/mzmine/modules/peaklistmethods/identification/camera/CameraSearchTask.java:307-314 | `scanTimes` lists the MS1 retention times in `getScanNumbers(1)` order; `scanIndices` starts at 1, grows by each scan's set size and strictly increases |
| CameraSearch.TranslateCount | src/main/java/net/sf/mzmine/modules/peaklistmethods/identification/camera/CameraSearchTask.java:303-321 | the point arrays have one slot per MS1 scan plus one per sample; at least one point per scan is written; all slots are written iff no scan got two points with one m/z; the rest hold 0.0 |
| CameraSearch.TranslateSegments | src/main/java/net/sf/mzmine/modules/peaklistmethods/identification/camera/CameraSearchTask.java:313-321 | each MS1 scan's segment, starting at its `scanIndices` entry, holds its set's points in order with strictly ascending masses |
| Annotations.SkipBlanks | src/main/java/net/sf/mzmine/modules/peaklistmethods/identification/camera/CameraSearchTask.java:420 | `trim` stops its leading scan at the first character above U+0020 |
| Annotations.DropBlanks | src/main/java/net/sf/mzmine/modules/peaklistmethods/identification/camera/CameraSearchTask.java:420 | `trim` stops its trailing scan just after the last character above U+0020 |
| Annotations.Trim | src/main/java/net/sf/mzmine/modules/peaklistmethods/identification/camera/CameraSearchTask.java:420 | `trim` yields a string no longer than its input that neither starts nor ends with a character at or below U+0020 |
| Annotations.TrimKeepsMiddle | src/main/java/net/sf/mzmine/modules/peaklistmethods/identification/camera/CameraSearchTask.java:420 | the trimmed string is a slice between two runs of blanks and neither starts nor ends with a blank |
| Annotations.TrimIdempotent | src/main/java/net/sf/mzmine/modules/peaklistmethods/identification/camera/CameraSearchTask.java:420 | trimming a trimmed string changes nothing |
| Annotations.MatchIsotopeIff | src/main/java/net/sf/mzmine/modules/peaklistmethods/identification/camera/CameraSearchTask.java:425-428 | the anchored pattern matches with group `g` exactly when the string is `[`, one or more digits, `]`, then `g` without line terminators |
| Annotations.MatchIsotope | src/main/java/net/sf/mzmine/modules/peaklistmethods/identification/camera/CameraSearchTask.java:425-428 | a match needs a leading `[`, and its group is a line-terminator-free suffix of the string after at least `[d]` |
| Annotations.Digits | src/main/java/net/sf/mzmine/modules/peaklistmethods/identification/camera/CameraSearchTask.java:414 | the decimal rendering is a non-empty string of digits with no leading zero (just "0" for zero), at least three long from 100 on |
| Annotations.ZeroPad | src/main/java/net/sf/mzmine/modules/peaklistmethods/identification/camera/CameraSearchTask.java:414 | zero padding reaches the width, keeps the digits as suffix and adds only zeros |
| Annotations.Format03RoundTrip | src/main/java/net/sf/mzmine/modules/peaklistmethods/identification/camera/CameraSearchTask.java:414 | `%03d` reads back as the number and is at least three characters wide |
| Annotations.Format03Width | src/main/java/net/sf/mzmine/modules/peaklistmethods/identification/camera/CameraSearchTask.java:414 | `%03d` is exactly three characters wide for -99 to 999, and "000" for zero; beyond, it is the plain decimal digits after any minus sign, with no added zeros |
| Annotations.Format03 | src/main/java/net/sf/mzmine/modules/peaklistmethods/identification/camera/CameraSearchTask.java:414 | the `%03d` rendering; described by `Format03RoundTrip` and `Format03Width` |
| Annotations.Label | src/main/java/net/sf/mzmine/modules/peaklistmethods/identification/camera/CameraSearchTask.java:413-414 | the identity name "Pseudo-spectrum #" followed by `%03d`; described by `LabelRoundTrip` and `LabelWidth` |
| Annotations.LabelRoundTrip | src/main/java/net/sf/mzmine/modules/peaklistmethods/identification/camera/CameraSearchTask.java:413-414 | the label starts with "Pseudo-spectrum #" and its remainder reads back as the group |
| Annotations.LabelWidth | src/main/java/net/sf/mzmine/modules/peaklistmethods/identification/camera/CameraSearchTask.java:413-414 | the label is the prefix and three characters for groups -99 to 999, and the prefix and the plain decimal digits beyond |
| Annotations.IsotopeOf | src/main/java/net/sf/mzmine/modules/peaklistmethods/identification/camera/CameraSearchTask.java:418-434 | an isotope property is only set from a returned isotope string whose trimmed form is `[digits]` then the property |
| Annotations.IdentityIsotope | src/main/java/net/sf/mzmine/modules/peaklistmethods/identification/camera/CameraSearchTask.java:418-434 | the identity has isotope `g` exactly when an isotope vector was returned and the trimmed string is `[digits]g`; an empty trimmed string gives none |
| Annotations.IdentityFacts | src/main/java/net/sf/mzmine/modules/peaklistmethods/identification/camera/CameraSearchTask.java:413-434 | the identity's method is "Bioconductor CAMERA"; its name is the prefix then the group in `%03d`, reading back as the group, exactly the prefix plus three characters for -99 to 999 and the prefix plus the plain digits beyond; its isotope property is `g` exactly when the trimmed string is `[digits]g` |
| Annotations.IdentityFor | src/main/java/net/sf/mzmine/modules/peaklistmethods/identification/camera/CameraSearchTask.java:413-434 | the identity built for a peak has no isotope property when no isotope vector came back; its full contents are stated by `IdentityFacts` |
| CameraTask.Reach | src/main/java/net/sf/mzmine/modules/peaklistmethods/identification/camera/CameraSearchTask.java:405-420 | the loop reaches no further than the peaks, the spectra vector and the isotope vector, and stops at one of those ends |
| CameraTask.SearchSucceedsIff | src/main/java/net/sf/mzmine/modules/peaklistmethods/identification/camera/CameraSearchTask.java:138-245 | the search reaches CAMERA exactly when there is one raw data file, R loads with a current CAMERA, and every listed scan is MS1; a wrong file count is reported whatever the engine, and engine errors come before scan errors |
| CameraTask.SearchOutcome | src/main/java/net/sf/mzmine/modules/peaklistmethods/identification/camera/CameraSearchTask.java:133-199 | CAMERA runs only for a single raw data file and an R that loads with a current CAMERA; the error order is stated by `SearchSucceedsIff` |
| CameraTask.AnnotatedRow | src/main/java/net/sf/mzmine/modules/peaklistmethods/identification/camera/CameraSearchTask.java:409-439 | each reached row gains exactly one identity at its end, with the label reading back as the group, the CAMERA method and the isotope property as the pattern gives; rows past the reach are unchanged |
| CameraTask.AnnotatedLabelWidth | src/main/java/net/sf/mzmine/modules/peaklistmethods/identification/camera/CameraSearchTask.java:414 | the appended name is the prefix plus three characters for groups -99 to 999, and the prefix plus the plain decimal digits beyond |
| CameraTask.Annotated | src/main/java/net/sf/mzmine/modules/peaklistmethods/identification/camera/CameraSearchTask.java:405-439 | the rows after the annotation loop, one per row before it; described by `AnnotatedRow`, `AnnotatedLabelWidth` and `AnnotatedAll` |
| CameraTask.Preferred | src/main/java/net/sf/mzmine/modules/peaklistmethods/identification/camera/CameraSearchTask.java:405-439 | the preferred identities after the annotation loop, one per row; described by `PreferredRow` |
| CameraTask.PreferredRow | src/main/java/net/sf/mzmine/modules/peaklistmethods/identification/camera/CameraSearchTask.java:438 | in each reached row the appended identity becomes the preferred one; other rows keep theirs |
| CameraTask.AnnotatedAll | src/main/java/net/sf/mzmine/modules/peaklistmethods/identification/camera/CameraSearchTask.java:405-420 | every peak is annotated exactly when both vectors have an entry per peak; otherwise the loop stops at the end of the shorter vector |
| CameraTask.PeakList.AddPeakIdentity | src/main/java/net/sf/mzmine/modules/peaklistmethods/identification/camera/CameraSearchTask.java:438 | the identity is appended to row `k` and becomes its preferred one when asked; no other row changes |
| CameraTask.CameraSearchTask.constructor | src/main/java/net/sf/mzmine/modules/peaklistmethods/identification/camera/CameraSearchTask.java:102-106 | the task holds the peak list and starts waiting |
| CameraTask.CameraSearchTask.AddPseudoSpectraIdentities | src/main/java/net/sf/mzmine/modules/peaklistmethods/identification/camera/CameraSearchTask.java:400-441 | the loop annotates rows as `Annotated` and `Preferred` say, and completes exactly when both vectors cover every peak |
| CameraTask.CameraSearchTask.Run | src/main/java/net/sf/mzmine/modules/peaklistmethods/identification/camera/CameraSearchTask.java:130-163 | any error leaves the rows untouched and sets the error state and message; a null spectra vector finishes without annotations; otherwise the rows are annotated, and the task finishes or, on a short vector, ends in error |

## Left out

- The R engine: every `eval` and `assign` call, the matrix built in R, the
  `xcmsRaw`/`xcmsSet` objects and the CAMERA stages (`groupFWHM`,
  `findIsotopes`, `groupCorr`, `getPeaklist`). These are foreign calls. The
  engine is a parameter: whether R loads, whether CAMERA is installed and
  current, and a function from what the search hands over to the two result
  vectors.
- The seven numeric parameters that the constructor reads. They only reach R.
- The minutes-to-seconds scaling of `scantime`. It happens inside R.
- `progress`, logging, the window repaint and cancellation. These are UI and
  host plumbing, and the modelled task is never cancelled.
- The `R_SEMAPHORE` lock: concurrency, not behaviour.
- The error message text. Each error is a `SearchError` value, one per throw
  site. A `getScan` that returns null becomes `MissingScan`.
- An out-of-range read of a CAMERA result vector becomes `ShortResultVector`.
- The dummy data point from `MZmineObjectBuilder.getDataPoint()` is a
  parameter; its values are not known here.
- DataPointSorter and RawDataFile are not part of this model. The sorter is
  taken to compare m/z alone, so a point whose m/z equals a stored one is
  dropped.
- AddPeakIdentity: the peak list and row classes that implement
  `addPeakIdentity(identity, true)` are not part of this model. The `PeakList`
  class here assumes that the call always appends the identity to the row
  and, with the flag true, makes it the preferred one. A row implementation
  that skips an identity whose name the row already holds (so that running
  the search twice on one list adds nothing the second time) is not
  modelled. `AnnotatedRow`'s "exactly one identity at its end" rests on this
  assumption.
- Format03: `String.format("%03d", …)` is taken to render ASCII digits and
  an ASCII minus sign. It formats in the default locale, and a locale whose
  zero digit is not '0' would give other characters.
- `getPeakRow(peak)` is modelled by position: row `k` holds peak `k` of the
  single raw data file.
- src/net/sf/mzmine/interfaces/Scan.java is only the shape of `MsScan`
  (number, MS level, retention time).
- src/main/java/net/sf/mzmine/modules/rawdatamethods/targetedpeakdetection/GapDataPoint.java
  is a field holder and is not modelled.
- The scan map is keyed by scan number rather than by the `MsScan` object.
  Scan numbers within a raw file are assumed distinct (the `DistinctNumbers`
  precondition), so each number identifies one scan object.
- An NA entry in the isotope vector (a null Java string, whose `trim` would
  throw) is not modelled. Isotope entries are strings.
- Values (m/z, retention time, intensity, area, height) are reals. Double
  rounding, NaN and the decimal rendering of the row inside R are not
  modelled.
