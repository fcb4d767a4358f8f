# femtoscopy-hbt in Dafny

A Dafny model of the analysis core of femtoscopy-hbt. It is a ROOT/C++ analysis of
Hanbury-Brown–Twiss (HBT) two-pion correlations in heavy-ion collisions, plus a
Python script that splits an input file list into HTCondor jobs. The model covers:

- **Pair kinematics** (`Kinematics`, from `functions_definition.h`):
  - the signed invariant relative momentum q_inv;
  - the LCMS q_long, q_out and q_side;
  - the Gamow/Coulomb pair weights with their ±15% systematic dispatch;
  - the split-pair veto;
  - the track count under the HBT cut;
  - the momentum inversion and the XY rotation.

  `sqrt`, `exp`, `hypot` and pseudorapidity are foreign functions. They live in a
  `MathLib` value, and each lemma states the laws it assumes (`SqrtSign`,
  `SqrtSquares`, `ExpLaw`).
- **The same-event pair loop** (`PairAnalysis`, `AnalyzeHBTCorrelations`). It
  visits every unordered track pair once, drops split pairs, weights the pair, and
  routes it to the same-sign or the opposite-sign histogram object. The histogram
  object is a class whose only state is the sequence of `FillCorrelation` calls it
  has received. The per-pair decisions (split veto, charge sign, weight) are
  gathered in a ghost table of verdicts; the visiting order and the routing are
  proved over that table, and `SignFillsOfEvent` restates the result in terms of
  the event's tracks, charges and weights.
- **The event reader** (`TreeReader`, `read_tree.h`). `HBTEvent` is a class with
  its fixed-capacity parallel arrays, `clear()`, and the track-selection loop that
  copies passing tracks into the arrays in order, up to `MAX_HBT_TRACKS`.
- **The two efficiency-correction headers**:
  - `TrackCorrections`, from `track_corrections.h`: track validation, the bin
    lookup with fallback, and the three correction modes;
  - `TrackingCorrection`, from `tracking_correction.h`: the bounds check, the
    centrality-to-table dispatch and the inverse efficiency.

  A TH2 histogram is abstracted in `Histograms` by its bin counts, its axes'
  `FindBin` and its `GetBinContent`. C++ exceptions become `Outcome`/`Result`
  failures.
- **The driver's configuration and event loop** (`RunConfig`, `correlation_XeXe.C`):
  - the integer flags become booleans, some with an inverted convention;
  - `syst` becomes an output label and an efficiency file;
  - the event loop has its vz skip and its quick-test break.

  The per-event helpers the driver calls are recorded as a call log.
- **Job partitioning** (`CondorSubmit`, `HTCondor_submit_data.py`):
  - the files-per-job ratio and its guard;
  - the split of the file list into `nJobs` contiguous parts, the last one taking
    the remainder;
  - the text of the HTCondor submission file.

  File writes are returned as values.

`syst` is modelled as written. The driver labels `syst` 9 and 10 as the Gamow ±15%
variants (correlation_XeXe.C:37,53-54), and they force the Gamow correction on. The
Coulomb weights, however, apply the ±15% scale only for `syst` 1 and 2
(functions_definition.h:89,101), so for 9 and 10 the weights are the nominal ones
(`RunConfig.GamowVariantsAreNominal`).

## Model

| member | source | states |
|---|---|---|
| Kinematics.CalculateQinv | functions_definition.h:35-39 | q_inv = ±sqrt(\|M²(p1+p2) − 4m_π²\|), negative when the argument is negative. Its sign, square and symmetry are stated by QinvIsSignedRoot and QinvSymmetric. |
| Kinematics.CalculateQlongLCMS | functions_definition.h:48-52 | q_long = \|2(pz1·E2 − pz2·E1)\| / hypot(E1 + E2, pz1 + pz2), or 0 when that denominator is not positive. Its properties are stated by QlongProperties. |
| Kinematics.CalculateQout | functions_definition.h:61-65 | q_out is the projection of q_T on the unit vector of k_T. Its swap behaviour and its part in \|q_T\|² are stated by QoutQsideUnderSwap and QoutQsideDecomposeQT. |
| Kinematics.CalculateQside | functions_definition.h:74-79 | q_side is the length of q_T minus its projection on the unit vector of k_T. Its properties are stated by QoutQsideUnderSwap and QoutQsideDecomposeQT. |
| Kinematics.CoulombSSWeight | functions_definition.h:86-91 | The same-sign Gamow weight: 1 below q_inv 1e-6, else scale·((eˣ − 1)/x − 1) + 1 with scale 1.15, 0.85 or 1 for syst 1, 2 or other. Stated by CoulombBelowFloorIsOne, CoulombWeightsAboveFloor and CoulombVariantScalesCorrection. |
| Kinematics.CoulombOSWeight | functions_definition.h:98-103 | The opposite-sign Gamow weight: 1 below q_inv 1e-6, else scale·((1 − e⁻ˣ)/x − 1) + 1. Stated by the same three lemmas as CoulombSSWeight. |
| Kinematics.IsSplitPair | functions_definition.h:114-118 | A pair is split iff cos(angle between momenta) > 0.99996 and \|pT1 − pT2\| < 0.04; with a zero momentum it is not split. Stated by IsSplitPairSymmetric and DuplicateTrackIsSplit. |
| Kinematics.InvertMomentum | functions_definition.h:191-195 | (px, py, pz, E) ↦ (−px, −py, −pz, E). Stated by ReflectionsAreInvolutions and QinvInvariantUnderReflections. |
| Kinematics.RotateXY | functions_definition.h:203-207 | (px, py, pz, E) ↦ (−px, −py, pz, E). Stated by ReflectionsAreInvolutions and QinvInvariantUnderReflections. |
| Kinematics.CountHBTTracks | functions_definition.h:127-133 | The count is at most the number of tracks. It equals the number of tracks iff every track has pT > minPt and \|eta\| < maxEta, and it is 0 iff none has. |
| Kinematics.CountIsNumberOfPassingTracks | functions_definition.h:127-133 | The count equals the number of positions whose track has pT > minPt and \|eta\| < maxEta: the listed positions are exactly those, each once, in increasing order. |
| Kinematics.PassingPositionsExactly | functions_definition.h:128-131 | Among the first n tracks, a position is listed iff its track passes the pT and eta cuts, and the list is strictly increasing. |
| Kinematics.QinvIsSignedRoot | functions_definition.h:35-39 | q_inv is positive iff M²(p1+p2) − 4m² > 0, negative iff it is < 0, and 0 iff it is 0. Its square equals \|M²(p1+p2) − 4m²\|. |
| Kinematics.QinvSymmetric | functions_definition.h:35-39 | q_inv is unchanged when the two tracks are swapped. |
| Kinematics.QinvInvariantUnderReflections | functions_definition.h:191-206 | q_inv of a pair is unchanged when both tracks are rotated by π in the transverse plane, or both have their 3-momentum inverted. |
| Kinematics.QinvOfIdenticalPions | functions_definition.h:35-39 | A pion paired with itself has q_inv = 0. |
| Kinematics.QlongProperties | functions_definition.h:48-52 | q_long is never negative. It is exactly 0 when the hypot denominator is not positive. It is symmetric under swapping the tracks. |
| Kinematics.QlongOfIdenticalPions | functions_definition.h:48-52 | A track paired with itself has q_long = 0. |
| Kinematics.QoutQsideUnderSwap | functions_definition.h:61-79 | Swapping the tracks negates q_out and leaves q_side unchanged. q_side is never negative. |
| Kinematics.QsideVectorOfIdenticalPions | functions_definition.h:74-79 | A track paired with itself has a zero q_side vector. |
| Kinematics.QoutOfIdenticalPions | functions_definition.h:61-65 | A track paired with itself has q_out = 0. |
| Kinematics.QsideOfIdenticalPions | functions_definition.h:74-79 | A track paired with itself has q_side = 0. |
| Kinematics.QoutQsideDecomposeQT | functions_definition.h:61-79 | For a pair with non-zero kT, q_out² + q_side² equals \|q_T\|², so out and side split the transverse momentum difference. |
| Kinematics.GamowX | functions_definition.h:88-100 | The Gamow variable is positive for every q_inv at or above the 1e-6 floor. |
| Kinematics.CoulombBelowFloorIsOne | functions_definition.h:86-99 | Both Coulomb weights are exactly 1 whenever q_inv < 1e-6, negative q_inv included. |
| Kinematics.CoulombScaleDispatch | functions_definition.h:89-101 | The scale is 1.15 for syst 1, 0.85 for syst 2 and 1.0 for every other syst. |
| Kinematics.CoulombVariantScalesCorrection | functions_definition.h:86-103 | For every syst, each weight's departure from 1 is the nominal departure times that syst's scale, identically in the SS and OS functions. |
| Kinematics.CoulombWeightsAboveFloor | functions_definition.h:86-103 | Above the floor the SS weight is > 1 (repulsion) and the OS weight is < 1, under the law exp(x) > 1 + x. |
| Kinematics.IsSplitPairSymmetric | functions_definition.h:114-118 | The split-pair veto does not depend on the order of the two tracks. |
| Kinematics.DuplicateTrackIsSplit | functions_definition.h:114-118 | A track with non-zero momentum paired with itself is vetoed: cos = 1 > 0.99996 and ΔpT = 0 < 0.04. |
| Kinematics.ReflectionsAreInvolutions | functions_definition.h:191-206 | Inverting the momentum twice, or rotating XY twice, gives back the vector. Inversion keeps E and \|p\|, and the rotation keeps pT and pz. |
| PairAnalysis.PairWeight | functions_definition.h:165-173 | weights[i]·weights[j], times the same-sign or opposite-sign Coulomb weight of the pair's q_inv when Coulomb is on. Stated by PairWeightBounds. |
| PairAnalysis.HBTHistograms.FillCorrelation | functions_definition.h:178 | A fill appends exactly one record (track 1, track 2, centrality, weight) to the histogram object's log. |
| PairAnalysis.VisitPair | functions_definition.h:164-178 | One inner-loop step on (i, j): a split pair changes nothing. Otherwise the pair's call (its tracks, the centrality, its weight) is appended to hSame when charges[i]·charges[j] > 0 and to hOpp otherwise. When hSame and hOpp are one object, it gets every call. |
| PairAnalysis.AnalyzeRow | functions_definition.h:162-179 | The inner loop over j > i appends the calls of row i's kept pairs, in order, to the histogram object each one is routed to. |
| PairAnalysis.PairLoop | functions_definition.h:159-181 | The two nested loops. With distinct objects, hSame gains exactly the same-sign calls and hOpp exactly the opposite-sign calls of the kept pairs, in loop order. With one object passed twice, it gains every call. |
| PairAnalysis.AnalyzeHBTCorrelations | functions_definition.h:150-181 | The routing of PairLoop, for the verdicts (split veto, sign, weight) the source computes for each pair of the event. |
| PairAnalysis.FillsUpToVisited | functions_definition.h:161-179 | What a histogram object holds when the loop reaches (i, j) is the routed calls of the pairs visited before (i, j), in visiting order. |
| PairAnalysis.FillsBeforeVisited | functions_definition.h:161-179 | What a histogram object holds when the loop starts row i is the routed calls of the kept pairs of rows 0..i−1, in visiting order. |
| PairAnalysis.RowPairsExactly | functions_definition.h:162-164 | Up to j, row i lists exactly the kept pairs (i, j') with i < j' < j, in increasing j'. |
| PairAnalysis.PairsBeforeExactly | functions_definition.h:161-164 | The pairs of rows 0..i−1 are exactly the in-range kept pairs with first index < i, in lexicographic order. |
| PairAnalysis.VisitsEachKeptPairOnce | functions_definition.h:161-164 | A pair is visited iff 0 ≤ i < j < n and it is not split. Visits come in lexicographic order, so no pair appears twice and no track is paired with itself. |
| PairAnalysis.SignFillsCount | functions_definition.h:168-177 | Between them, the same-sign and the opposite-sign objects receive one call per visited pair. |
| PairAnalysis.SignFillsComplete | functions_definition.h:168-177 | Every visited pair's call is received by the object of its charge sign. |
| PairAnalysis.SignFillsSound | functions_definition.h:166-177 | Every call an object of one sign receives is the call of a visited pair of that sign. |
| PairAnalysis.SignFillsOfEvent | functions_definition.h:161-178 | A sign's object receives a call with arguments f iff some pair i < j that is not split has that charge sign and f is (tracks[i], tracks[j], cent, PairWeight of the pair). |
| PairAnalysis.SharedFillsInPairOrder | functions_definition.h:166-178 | An object passed as both receives exactly one call per visited pair, that pair's call, in visiting order. |
| PairAnalysis.PairWeightBounds | functions_definition.h:166-174 | Without Coulomb, or below the q_inv floor, the weight is weights[i]·weights[j]. With Coulomb above the floor and a positive product, it is raised for same-sign pairs and lowered for opposite-sign pairs. |
| TreeReader.PassesQuality | read_tree.h:154-163 | A track passes iff it survives every `continue` of the selection loop: pT, eta, purity, pixel hits, hits, both DCAs and χ². Stated by SelectionPasses. |
| TreeReader.PassingIndices | read_tree.h:152-163 | The indices below n of the passing tracks, each in [0, n), at most n of them. Stated fully by PassingIndicesExactly and PassingIndicesPrefix. |
| TreeReader.Selection | read_tree.h:151-174 | The first MAX_HBT_TRACKS passing tracks in input order, at most MAX_HBT_TRACKS of them. Stated by SelectionPasses, SelectionIsOrderedSubsequence and SelectionComplete. |
| TreeReader.HBTEvent.constructor | read_tree.h:24-44 | A new event has vz 0, hiBin −1, weight 1, no tracks, is not MC, and has empty gen vectors. Its seven track arrays are freshly allocated, so each event owns its storage and can be passed to ReadTree. |
| TreeReader.HBTEvent.Clear | read_tree.h:46-53 | nTracks becomes 0. The gen vectors are emptied iff isMC, and every other field and every array slot is unchanged. |
| TreeReader.HBTEvent.StoreTrack | read_tree.h:166-173 | The track's pt, eta, phi, dcaXY, dcaZ and charge are copied into slot nTracks, marked good, and nTracks grows by one. No other slot or field changes. |
| TreeReader.SelectTracks | read_tree.h:151-174 | After the loop, nTracks is the length of the selection, ≤ MAX_HBT_TRACKS. Slot k holds the k-th selected track marked good, and the slots beyond are untouched. |
| TreeReader.ReadTree | read_tree.h:66-174 | A null tree fails with "Null TChain provided" and leaves the event untouched. Otherwise the gen vectors are cleared per the previous isMC, isMC, vz and hiBin are set, the weight is read only for MC, and the tracks are selected. |
| TreeReader.PassingIndicesExactly | read_tree.h:152-163 | An input index is listed iff it is scanned and its track passes every cut. The list is strictly increasing. |
| TreeReader.PassingIndicesPrefix | read_tree.h:152 | Scanning further only appends: the tracks stored first stay first. |
| TreeReader.SelectionPasses | read_tree.h:154-163 | Every stored track has pT ≥ 0.15 and \|eta\| ≤ 2.4, is high purity if required, and meets the pixel-hit, hit, DCA and χ² cuts. |
| TreeReader.SelectionIsOrderedSubsequence | read_tree.h:152-171 | The stored tracks are input tracks at strictly increasing positions: input order is kept and nothing is stored twice. |
| TreeReader.SelectionComplete | read_tree.h:152 | When at most MAX_HBT_TRACKS tracks pass, as many tracks are stored as pass, and every passing track is among them. Otherwise the event is filled to capacity. |
| TrackCorrections.ValidateTrack | track_corrections.h:27-36 | The track passes iff \|eta\| ≤ 2.4 and 0.15 ≤ pT ≤ 500. An eta error takes precedence over a pT error. |
| TrackCorrections.SafeGetBinContent | track_corrections.h:42-55 | The fallback is returned when either bin lies outside 1..nbins, or when the content is outside [0.0001, 0.9999]. Otherwise the content is returned, so any non-fallback result is in range. |
| TrackCorrections.EfficiencyCorrection | track_corrections.h:61-66 | An invalid track gives the validation error, and a valid one always succeeds. The factor is 1 over the guarded bin content with fallback efficiency 1, and lies in [1, 10000]. |
| TrackCorrections.EfficiencyBounds | track_corrections.h:54-65 | 1/eff lies in [1, 10000] for the fallback 1.0 and for every content in [0.0001, 0.9999]. |
| TrackCorrections.FullTrackCorrection | track_corrections.h:79-99 | An invalid track gives the validation error, and a valid one always succeeds. Every result lies in (0, 10000]. |
| TrackCorrections.FractionOr | track_corrections.h:95-96 | An absent map contributes 0, and a present one contributes 0 or a fraction in [0.0001, 0.9999]. |
| TrackCorrections.EfficiencyOnlyMode | track_corrections.h:91 | Mode 2 equals EfficiencyCorrection. |
| TrackCorrections.FakeModeScalesEfficiencyCorrection | track_corrections.h:92 | Mode 1 equals (1 − fake) times the efficiency-only factor. |
| TrackCorrections.FullCorrectionBelowEfficiency | track_corrections.h:88-98 | Mode 0 succeeds exactly when the efficiency-only factor does, and never exceeds it. With no secondary or multiple map and a fake fraction of 0, it equals 1/eff. |
| TrackCorrections.InvalidTrackNeverCorrected | track_corrections.h:63-84 | A track outside the acceptance never gets a value, in any mode. |
| TrackingCorrection.TableFor | tracking_correction.h:30-40 | The table chosen by centrality bin: 0-10 up to 20, 10-30 up to 60, 30-50 up to 100, 50-70 up to 140, 70-100 above. Stated by TableMatchesItsName, TableOutsideRange and TableIndexMonotone. |
| TrackingCorrection.CheckBounds | tracking_correction.h:9-13 | The check is false iff \|eta\| > 2.4, pT < 0 or pT > 500. |
| TrackingCorrection.GetTrkCorrWeight | tracking_correction.h:23-49 | An out-of-bounds track gets 0. A missing table is an error. Otherwise the weight is w with w·eff = 1, where eff is the selected table's content at FindBin(eta), FindBin(pT); it fails iff eff is 0. |
| TrackingCorrection.TableMatchesItsName | tracking_correction.h:30-40 | For a centrality bin in 0..200, the table chosen is the one whose name's percent class (low, high] contains bin/2, with bin 0 in 0-10. |
| TrackingCorrection.TableOutsideRange | tracking_correction.h:30-38 | Bins below 0 select the 0-10 table, and bins above 200 select the 70-100 table. |
| TrackingCorrection.TableIndexMonotone | tracking_correction.h:30-40 | The table index never decreases as the centrality grows. |
| TrackingCorrection.TableNamesDistinct | tracking_correction.h:31-39 | The five tables are read under five different names. |
| TrackingCorrection.OutOfBoundsIgnoresTables | tracking_correction.h:24 | An out-of-bounds track gets 0 whatever the file and the centrality. |
| TrackingCorrection.OnlySelectedTableMatters | tracking_correction.h:30-43 | Two files that agree on the selected table give the same weight. |
| TrackingCorrection.ValidatedTrackInBounds | tracking_correction.h:9-13 | Every track ValidateTrack accepts passes checkBounds. |
| TrackingCorrection.InBoundsNotValidated | tracking_correction.h:11 | The converse fails: pT 0.1 passes checkBounds but not ValidateTrack. |
| TrackingCorrection.AgreesWithEfficiencyCorrection | tracking_correction.h:43-46 | When the selected table's bin is a regular bin with content in [0.0001, 0.9999], the weight equals the newer header's EfficiencyCorrection. |
| RunConfig.SystName | correlation_XeXe.C:42-55 | The switch over syst: eleven names for 0–10, "nonapplied_nominal" otherwise. Stated by SystNamesDistinct and LabelSuffix. |
| RunConfig.SystLabel | correlation_XeXe.C:42-56 | The syst name followed by "_cent" or "_Ntroff". Stated by LabelSuffix. |
| RunConfig.EffFile | correlation_XeXe.C:59-64 | The narrow, wide, tight and loose efficiency files for syst 1–4, the nominal file otherwise. Stated by EffFileDispatch. |
| RunConfig.ConvertFlags | correlation_XeXe.C:30-39 | Quick test iff doquicktest > 0, MC iff isMC > 0, mixing iff domixing == 0, 3D iff hbt3d == 0, centrality iff cent_bool == 0, Gamow iff gamov > 0 or syst is 9 or 10, and split iff syst ≠ 7. |
| RunConfig.LabelSuffix | correlation_XeXe.C:42-56 | The label is the syst name followed by "_cent" or "_Ntroff" according to use_centrality. syst 0–10 have their listed names, and any other syst is "nonapplied_nominal". |
| RunConfig.SystNamesDistinct | correlation_XeXe.C:43-55 | The eleven syst values 0–10 get eleven different names, none of them the default. |
| RunConfig.EffFileDispatch | correlation_XeXe.C:59-64 | The efficiency file is non-default iff syst is 1–4, and those four files differ. |
| RunConfig.GamowVariantsAreNominal | correlation_XeXe.C:37-54 | syst 9 and 10 turn the Gamow correction on, but their Coulomb weights equal the nominal ones (see functions_definition.h:89,101). |
| RunConfig.EntriesReadFrom | correlation_XeXe.C:135-167 | The number of entries the loop reads lies between its start index and the number of entries. |
| RunConfig.EventLoop | correlation_XeXe.C:135-167 | The loop reads EntriesReadFrom entries. Its call log is the fill, mixing and systematics calls of the accepted entries among them, in order. |
| RunConfig.CallsRespectGuards | correlation_XeXe.C:143-161 | Every call comes from an entry with vz ≥ minvz. Mixing happens only when enabled, and systematics only when syst ≠ 0. |
| RunConfig.AcceptedEntriesFilled | correlation_XeXe.C:143-151 | Every read entry with vz ≥ minvz is filled. |
| RunConfig.FullRunReadsEverything | correlation_XeXe.C:135 | Without quick test every entry is read. |
| RunConfig.NoStopBeforeLimit | correlation_XeXe.C:164 | No quick-test stop happens before entry 1000. |
| RunConfig.ShortChainReadsEverything | correlation_XeXe.C:135-164 | A chain of at most 1000 entries is read whole, with or without quick test. |
| RunConfig.SkippedEntriesDefeatQuickTest | correlation_XeXe.C:143-166 | As written, when every entry fails the vz cut, quick test reads every entry. |
| RunConfig.SkippedUntilQuickTestStop | correlation_XeXe.C:143-166 | In a quick test, every entry from index 1000 on that is read before the last one read was skipped by the vz cut. |
| RunConfig.QuickTestProcessesAtMost1001 | correlation_XeXe.C:143-166 | As written, a quick test still processes at most 1001 events: every call for an entry at index 1000 or later is for the last entry read. |
| RunConfig.QuickTestReadsPastLimit | correlation_XeXe.C:143-166 | As written, 1002 entries all below minvz are all read in quick-test mode, more than the 1001 intended. |
| RunConfig.CorrectedEntriesReadFrom | correlation_XeXe.C:164-166 | The corrected count lies between its start index and the number of entries. |
| RunConfig.CorrectedEventLoop | correlation_XeXe.C:135-167 | The corrected loop applies the quick-test break to skipped entries as well. It reads CorrectedEntriesReadFrom entries, and its call log is the same function of the entries read. |
| RunConfig.CorrectedQuickTestBound | correlation_XeXe.C:164-166 | The corrected quick test reads exactly min(n, 1001) entries. |
| RunConfig.CorrectedAgreesWhenEntry1000Passes | correlation_XeXe.C:143-166 | When entry 1000 passes the vz cut, or there is no such entry, the as-written and corrected loops read the same entries. |
| CondorSubmit.Offset | HTCondor_submit_data.py:71-72 | The start line of part i, built by adding ratioint i times. Stated by OffsetIsProduct and OffsetMonotone. |
| CondorSubmit.Part | HTCondor_submit_data.py:71-75 | Lines [Offset(i), Offset(i + 1)) of the list, or from Offset(i) to the end for the last job. Stated by PartSizes, PartsPrefix and PartsCoverLines. |
| CondorSubmit.Header | HTCondor_submit_data.py:49-55 | The six header lines: universe, getenv, executable, +JobFlavour, requirements and RequestCpus, with the job flavour and CPU count filled in. |
| CondorSubmit.JobBlock | HTCondor_submit_data.py:59-65 | One queue block: the log, output and error paths under cond/, the arguments line, and "queue". Stated by JobBlockTail. |
| CondorSubmit.SingleSubmission | HTCondor_submit_data.py:57-66 | Without splitting: no part file, the one job over `{inFiles}.txt`, and the header followed by that job's block. |
| CondorSubmit.SplitSubmission | HTCondor_submit_data.py:67-86 | With splitting: part files 0..nJobs−1 holding the parts, whose contents concatenate to the list, jobs 0..nJobs−1 in order, and the header followed by the blocks. |
| CondorSubmit.FilesPerJob | HTCondor_submit_data.py:41-44 | The ratio guard passes iff (nJobs == 0 and there is a file) or (nJobs > 0 and files ≥ nJobs), and otherwise fails with the script's message. ratioint is ⌊files/nJobs⌋ ≥ 1, or the file count when nJobs == 0. |
| CondorSubmit.RatioFacts | HTCondor_submit_data.py:41-44 | A negative nJobs gives a ratio < 1. For positive nJobs, ratio < 1 iff files < nJobs, and int(ratio) is the integer quotient. |
| CondorSubmit.RatioBetweenQuotients | HTCondor_submit_data.py:41-44 | The real ratio lies in [q, q + 1) for the integer quotient q. |
| CondorSubmit.NatToStringRoundTrip | HTCondor_submit_data.py:70-83 | The decimal rendering of a job index reads back as the same number. |
| CondorSubmit.PartFileNamesDistinct | HTCondor_submit_data.py:70 | Different jobs write different part files. |
| CondorSubmit.OffsetIsProduct | HTCondor_submit_data.py:71 | Part i starts at i·ratioint. |
| CondorSubmit.OffsetMonotone | HTCondor_submit_data.py:71-72 | Start offsets never decrease with the job index. |
| CondorSubmit.PartFilesHoldParts | HTCondor_submit_data.py:69-77 | The part files written hold, in order, parts 0..k−1 of the list. |
| CondorSubmit.PartFiles | HTCondor_submit_data.py:69-77 | The files written for jobs 0..k−1, one per job, in order: entry i is named `{inFiles}_part{i}.txt` and holds part i. |
| CondorSubmit.SplitJobs | HTCondor_submit_data.py:79-86 | The queue blocks of jobs 0..k−1, one per job, in order: entry i is job i's block. |
| CondorSubmit.PartsPrefix | HTCondor_submit_data.py:71-75 | Parts 0..k−1 concatenate to the first k·ratioint lines. |
| CondorSubmit.PartsCoverLines | HTCondor_submit_data.py:69-77 | Parts 0..nJobs−1 concatenate to exactly the list, so every line lands in exactly one part. |
| CondorSubmit.PartSizes | HTCondor_submit_data.py:71-74 | Every part but the last has ratioint lines. The last has the rest, at least ratioint. |
| CondorSubmit.LastPartTakesRemainder | HTCondor_submit_data.py:44-74 | The last part has ratioint plus (files mod nJobs) lines, fewer than ratioint + nJobs. |
| CondorSubmit.JobBlockTail | HTCondor_submit_data.py:63-84 | Every queue block ends with " 0 0 0 10 5 2.0 0 0 0 ", the systematics number, and "queue". |
| CondorSubmit.WritePart | HTCondor_submit_data.py:70-77 | Writes part file i with part i of the list. |
| CondorSubmit.WriteParts | HTCondor_submit_data.py:69-86 | Writes nJobs part files and blocks, part i and job i in order, appending each block to the text. |
| CondorSubmit.PrepareSubmission | HTCondor_submit_data.py:41-86 | Too many jobs gives the error. The text is the header followed by the queue blocks. Without splitting there is one job over the whole list and no part file. With splitting there are nJobs part files whose contents concatenate to the list, plus nJobs jobs. |

## Left out

- The event-mixing pool (MixEventsHBT.h:13-36) is not modelled: the file only declares `splitcomb` and `MixEvents`, with no body.
- define_histograms.h and call_libraries.h hold global histogram objects, binning constants and includes, with no logic.
- ROOT I/O is not modelled:
  - `TChain` branch status and addresses, and `GetEntry` (read_tree.h:76-148): the loaded entry is a `TreeEntry` value;
  - opening `TFile`s and reading the file list (correlation_XeXe.C:59-116): the efficiency file is a map from names to histograms.
- `TH2::FindBin` and `GetBinContent` internals: each histogram carries its bin functions.
- Python file reads and writes, and `subprocess.call(["condor_submit", ...])`: the part files and the submission text are returned as values.
- Floating point is modelled as exact reals:
  - float32 rounding of the cut fields;
  - the exact values of sqrt, exp and hypot: only the laws each lemma states are assumed;
  - `TVector3::Unit()` on a zero vector: it returns the zero vector here;
  - Python's float division `len(Lines)/nJobs`: it is exact real division.
- NaN: in `IsSplitPair`, a zero momentum makes the C++ division NaN. The model states the outcome, not split, directly.
- GetTrkCorrWeight: an efficiency of 0, which gives infinity in C++, is a `ZeroEfficiency` failure. A table missing from the file, a null-pointer dereference in C++, is a `MissingTable` failure.
- The driver's undefined helpers (`getCentrality`, `getVz`, `getTracks`, `fillHistograms`, `mixEvents`, `applySystematicUncertainty`) are modelled only through the event's centrality and vz fields and a log of the calls made.
- The MC-truth stub at read_tree.h:177-179 has no logic.
- The tmp arrays of read_tree.h:87-96 are not modelled: the selection reads the entry's track sequence, so an `nTrk` larger than the buffers is not modelled.
- Timing, dates and console output are side effects.
- TrackCorrections.EfficiencyCorrection: a null eff_map, a null-pointer dereference in C++, is excluded by the `Hist2D` type.
- TrackCorrections.FullTrackCorrection: a null eff_map or fake_map, a null-pointer dereference in C++, is excluded by the `Hist2D` type; only sec_map and mul_map are optional.
- TrackCorrections.FullTrackCorrection: the mode 0 factor (1 − fake)(1 − sec)/eff/(1 + mul) is stated as the bound of FullCorrectionBelowEfficiency and the equality for absent maps, not as an equation relating it to EfficiencyCorrection.
- PairAnalysis.AnalyzeHBTCorrelations: charge or weight vectors shorter than the track vector, an out-of-bounds read in C++, are excluded by the `EventTracks.WellFormed` precondition, which PairAnalysis.PairLoop and the per-pair verdicts share.
- RunConfig.EventLoop: the mixing, histogram and systematics calls are recorded, not executed.

## Findings

| source | as written | input that shows it | evidently intended | confidence | as-written member | corrected member |
|---|---|---|---|---|---|---|
| correlation_XeXe.C:143-166 | The quick-test break comes after the vz `continue`, so an entry skipped by the vz cut never reaches the break. | 1002 entries, all with vz = −1.0, with minvz = 0.0 and quick test on: all 1002 entries are read. The events processed stay within 1001 as written (`RunConfig.QuickTestProcessesAtMost1001`); only the reads of skipped entries are unbounded. | Quick test reads at most 1001 entries (indices 0..1000). | not executed | RunConfig.QuickTestReadsPastLimit | RunConfig.CorrectedQuickTestBound |
