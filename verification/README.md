# EvAnalyz in Dafny

A model of the event analyser of MCevent_analyzer (class `EvAnalyz`).

An analysis reads a tree of simulated detector events. Each entry holds an impact point, a pulse amplitude `AMP_MAX` and one signal crossing time `LDE<thr>` per photon threshold. The analysis builds three families of time profiles per threshold:
- time against amplitude;
- time against rise time, which is `ftime[50] - ftime[20]`;
- time against impact point.

It then derives new, corrected analyses from them. The model covers:

- **Configuration.** The required keys and the defaults of the optional ones. The data label derived from the first file name. The fatal errors of the configuration constructor, in the order it meets them (`config.dfy`).
- **Reading the tree.** Branch `mu_x_hit` is bound to `fmu_y_hit` and branch `mu_y_hit` to `fmu_x_hit`. A threshold column that is not configured reads as 0 (`events.dfy`).
- **Profiles as values.** A profile is its binning plus the history of its fills. `CreateProfile`, `FillProfile`, the tree constructor and the two range setters all act on these values (`profiles.dfy`, `analyzer.dfy`).
  - `Consistent` says that every profile holds exactly what one pass over the current tree puts in it.
  - Bin lookup is a parameter. `GetBinNumber` fills a discarded copy, so the profile it queries is unchanged.
- **The fit cascade** of the two amplitude-walk corrections (`cascade.dfy`). Thresholds are fitted from the last configured one down to the first. Each fit is seeded with the previous fit's result.
  - The function map is keyed by the threshold truncated to `int`. Thresholds with the same integer part therefore share one function, and the lowest such index wins.
- **The correction pass** all four corrections share, and the metadata of the analysis it derives (`passes.dfy`, `corrections.dfy`).
  - Each new time is the raw time, minus the time offset, minus a correction.
  - The label gets a suffix and the offset is reset to 0.
  - The thresholds and ranges are carried over.
  - The stored position columns are exchanged on every pass.
- **Printed file names** in `DrawProfiles` (`plots.dfy`, `strings.dfy`).
  - The four `TString::ReplaceAll` edits of a canvas key.
  - The PDF name, and the PNG name made by renaming every `"pdf"` in it.
  - The `%.0f` formatting of a threshold in the position canvases' keys.

The following are parameters of the model:
- the fit routine (`TF1::Fit` with option `"R"`);
- function evaluation (`TF1::Eval`);
- bin location and bin content of a profile;
- the number of files `TChain::Add` reports;
- the tree's entries.

## Model

| member | source | states |
|---|---|---|
| Events.BindReadsConfiguredColumns | EvAnalyz.cc:169-173 | An entry's time at a threshold is the tree's LDE column for it when the threshold is configured and the column exists, and 0 otherwise. |
| Events.StoreReadsBackSwapped | EvAnalyz.cc:336-356 | An entry written with a time for every configured threshold reads back with x and y exchanged, the same amplitude and the same times. |
| Events.SwapInvolution | EvAnalyz.cc:165-166 | Writing an entry and reading it back twice gives the entry back unchanged. |
| Profiles.GetBinNumber | EvAnalyz.cc:15-25 | The bin reported is the bin that a fill of the same covariate, with any value, would use in the profile itself. The queried profile is not changed. |
| Profiles.FillEvent | EvAnalyz.cc:214-222 | For one entry, each profile gets its threshold's fill once for every position at which the threshold occurs in the configuration. The set of profiles is unchanged. |
| Profiles.FillAll | EvAnalyz.cc:209-223 | A fill pass appends to each profile exactly its reference fills, entry by entry in tree order, and keeps its binning. |
| Profiles.FreshThenFill | EvAnalyz.cc:80-82 | Creating fresh profiles for every threshold and then filling them gives exactly the reference family, whatever the family held before. |
| Profiles.CollectedDistinct | EvAnalyz.cc:210-222 | A threshold configured once gets exactly one fill per entry, in tree order. |
| Analyzer.CreateProfile | EvAnalyz.cc:185-203 | Each selected family gets a fresh, empty profile per configured threshold: amplitude 100 bins on [amp_min, amp_max], rise time 100 bins on [risetime_min, risetime_max], position 22 x 22 on [-6, 6]². Unselected families and all other fields are unchanged; with no arguments all three families are rebuilt. |
| Analyzer.FillProfile | EvAnalyz.cc:207-224 | Each selected family's profiles get their reference fills appended. Unselected families and all other fields are unchanged. |
| Analyzer.Make | EvAnalyz.cc:69-83 | The tree constructor stores its arguments, and every profile holds what one pass over the tree puts in it. |
| Analyzer.SetAmpRange | EvAnalyz.cc:521-532 | For distinct thresholds: only amp_min and amp_max change, with no check that min < max. The amplitude profiles become the reference profiles for the new range, and everything else is untouched. |
| Analyzer.SetRiseTimeRange | EvAnalyz.cc:535-545 | For distinct thresholds: only risetime_min and risetime_max change. The rise-time profiles are rebuilt for the new range, and everything else is untouched. |
| Analyzer.SetAmpRangeKeepsConsistent | EvAnalyz.cc:521-532 | Changing the amplitude range leaves every profile family consistent with the tree. |
| Analyzer.SetRiseTimeRangeKeepsConsistent | EvAnalyz.cc:535-545 | Changing the rise-time range leaves every profile family consistent with the tree. |
| Analyzer.SetAmpRangeIdempotent | EvAnalyz.cc:521-532 | Re-setting a consistent analysis's own amplitude range changes nothing. Setting a range twice is the same as setting it once. |
| Analyzer.SetRiseTimeRangeIdempotent | EvAnalyz.cc:535-545 | Re-setting a consistent analysis's own rise-time range changes nothing. Setting a range twice is the same as setting it once. |
| Analyzer.RangeSettersCommute | EvAnalyz.cc:521-545 | The two range setters touch disjoint state, so their order does not matter. |
| Cascade.Trunc | EvAnalyz.cc:310-313 | A threshold's key in the fit map is its value truncated toward zero. |
| Cascade.RunCascade | EvAnalyz.cc:310-327 | Every index is fitted exactly once, from the last down to the first, and the last is seeded with the given literal. Each later fit is seeded with the result of the fit before it; index 0's result seeds nothing. After the loop, the function under each key holds the result of the lowest index with that key. |
| Cascade.DistinctKeysKeepOwnFit | EvAnalyz.cc:317-327 | When all thresholds have distinct integer parts, each ends with its own fit. |
| Cascade.SharedKeyTakesLowestFit | EvAnalyz.cc:310-327 | A threshold that shares its integer part with a lower index ends with that lower index's fit. |
| Corrections.AmpCorrection | EvAnalyz.cc:307-367 | The cascade uses the exponential form on [amp_min, amp_max], seeded with (0.01, 0.0006, 1). Each entry's new time is raw - offset - the threshold's fitted function at AMP_MAX. The result is labelled `<label>_amw`, has offset 0, the same thresholds and ranges, and consistent profiles. It is the shared pass applied with that walk correction. |
| Corrections.MitigatedAmpCorrection | EvAnalyz.cc:371-431 | The cascade uses the logarithmic form on the caller's fit range, seeded with (10.4, -0.3, 0.00013). The correction is applied the same way. The result is labelled `<label>_mitigatedamw` and keeps the analysis's own amplitude range, not the fit range. It is the shared pass applied with that walk correction. |
| Corrections.PosCorrection | EvAnalyz.cc:435-476 | Each new time is raw - offset - the parent position profile's content at the entry's impact point. The result is labelled `<label>_poscorr`, has offset 0, the same thresholds and ranges, and consistent profiles. |
| Corrections.PosCorrectionTime | EvAnalyz.cc:462-463 | Entry k's new time at a configured threshold t, stated directly in terms of the parent entry and the parent's position profile for t. |
| Corrections.RiseTimeCorrection | EvAnalyz.cc:478-519 | Each new time is raw - offset - the parent rise-time profile's content at ftime[50] - ftime[20]. The result is labelled `<label>_risetimecorr`, with the same metadata guarantees. |
| Corrections.RiseTimeCorrectionTime | EvAnalyz.cc:505-506 | Entry k's new time at a configured threshold t, stated directly in terms of the parent entry and the parent's rise-time profile for t. |
| Corrections.WalkCorrectionVanishing | EvAnalyz.cc:343-365 | If the fitted functions evaluate to 0 everywhere, an amplitude-walk pass keeps the amplitude profiles and transposes the position profiles. It keeps the rise-time profiles when the offset cancels. |
| Corrections.PosCorrectionVanishing | EvAnalyz.cc:435-476 | If every bin content of the position profiles is 0, the position pass keeps the amplitude profiles and transposes the position profiles. It keeps the rise-time profiles when the offset cancels. |
| Corrections.RiseTimeCorrectionVanishing | EvAnalyz.cc:478-519 | If every bin content of the rise-time profiles is 0, the rise-time pass keeps the amplitude profiles and transposes the position profiles. It keeps the rise-time profiles when the offset cancels. |
| Passes.CorrectedRow | EvAnalyz.cc:350-354 | A corrected entry holds one new time column per configured threshold and no other. |
| Passes.ReadBack | EvAnalyz.cc:346-356 | A corrected entry, once written and read back, has x and y exchanged, the same amplitude, and each configured time lowered by the offset and the correction. |
| Passes.Derive | EvAnalyz.cc:358-365 | The derived analysis has the parent's label plus the suffix, offset 0, the same thresholds and ranges, the corrected tree, and consistent profiles. |
| Passes.DerivePass | EvAnalyz.cc:343-365 | The shared pass as a step, together with what every derived entry reads back as relative to its parent entry. |
| Passes.RowsPassThrough | EvAnalyz.cc:346-356 | Every entry of the new tree reads back as its parent passed through the correction, and the stored mu_x_hit and mu_y_hit columns are exchanged. |
| Passes.ZeroCorrectionKeepsAmp | EvAnalyz.cc:217 | With a zero correction, the derived amplitude profiles equal the parent's fill for fill, because raw - offset on one side is new - 0 on the other. |
| Passes.ZeroCorrectionTransposesPos | EvAnalyz.cc:221 | With a zero correction, the derived position profiles are the parent's with x and y exchanged in every fill. |
| Passes.ZeroCorrectionKeepsRise | EvAnalyz.cc:219 | With a zero correction, the derived rise-time profiles equal the parent's whenever the offset cancels in ftime[50] - ftime[20]. This holds when both or neither of 50 and 20 are configured thresholds, or when the offset is 0. |
| Passes.DeriveExt | EvAnalyz.cc:343-365 | The derived analysis depends only on the values of the correction: two corrections that agree on every entry and threshold derive the same analysis. |
| Passes.VanishingCorrectionRoundTrip | EvAnalyz.cc:343-365 | Any correction that is 0 on every entry and threshold keeps the amplitude profiles and transposes the position profiles. It keeps the rise-time profiles when the offset cancels. |
| Passes.TwoPassesRestorePositions | EvAnalyz.cc:165-166 | Two passes, whatever their corrections, restore the stored position columns, because each pass reads them exchanged and writes them back as read (EvAnalyz.cc:350-351). Two zero-correction passes also restore the position profiles. |
| Config.DeriveLabel | EvAnalyz.cc:112-116 | A derived label holds no '.' and no '*', and has no characters other than those of the file name and 'p'. |
| Config.DeriveLabelByChar | EvAnalyz.cc:112-116 | The label is the file name with every ".root" removed, then every '*' dropped and every '.' turned into 'p', with all other characters kept in order. |
| Config.DeriveLabelFixedPoints | EvAnalyz.cc:108-117 | A string is its own derived label exactly when it holds no '.' and no '*'. Deriving twice is the same as deriving once. |
| Config.DeriveLabelStripsRoot | EvAnalyz.cc:112-116 | A file name that is a stem free of '.' and '*' followed by ".root" yields the stem as its label. |
| Config.ParseConfigFile | EvAnalyz.cc:103-153 | It fails exactly when thr is missing. On success: the label is given or derived, fNthr is the length of thr, and each absent optional key takes its default (0, 8000, 0, 10, 10) while a present one replaces it. |
| Config.FilesAdded | EvAnalyz.cc:51-53 | No file is added to the chain exactly when every name adds none. |
| Config.Open | EvAnalyz.cc:27-65 | Each of the four fatal errors occurs exactly under its condition, in source order: Filename missing, Filename empty, thr missing, no file added. An empty thr list is accepted. On success the analysis holds the parsed settings and consistent profiles. |
| Strings.ReplaceAll | EvAnalyz.cc:113-115 | Text without the pattern's first character is unchanged. The result has only characters of the text or of the replacement. Equal-length patterns keep the length. |
| Strings.ReplaceSkip | EvAnalyz.cc:113 | The scan passes over a prefix that holds no character starting the pattern. |
| Strings.ReplaceChanges | EvAnalyz.cc:278 | Wherever the pattern occurs, a different replacement of the same length changes the text. |
| Strings.DeleteChar | EvAnalyz.cc:114 | Deleting a character drops every copy of it and keeps the other characters in order. The result is shorter by the number of copies. |
| Strings.ReplaceCharPointwise | EvAnalyz.cc:115 | A one-character replacement acts position by position. |
| Strings.ReplaceConcat | EvAnalyz.cc:276-278 | A replacement distributes over a concatenation when no occurrence can straddle the seam. |
| Plots.SanitizeByChar | EvAnalyz.cc:271-275 | The four edits act character by character: blank and ',' become '_', '=' is dropped, and '.' becomes 'p'. |
| Plots.SanitizeRemovesSeparators | EvAnalyz.cc:271-275 | A sanitised key holds no blank, '=', ',' or '.'. |
| Plots.SanitizeKeepsOthers | EvAnalyz.cc:271-275 | Every other character of the key survives sanitising. |
| Plots.ExtensionRenamed | EvAnalyz.cc:276-278 | The ".pdf" extension itself becomes ".png". |
| Plots.PngNameShape | EvAnalyz.cc:271-279 | The PNG name is the sanitised key with its own "pdf"s renamed, plus ".png". It differs from the PDF name only in the extension when the key holds no "pdf". |
| Plots.LabelPdfRenamed | EvAnalyz.cc:271-279 | When the sanitised key holds "pdf" anywhere, that "pdf" is renamed too, so the PNG file does not share the PDF file's stem. When the key starts with "pdf", the PNG name starts with "png". |
| Plots.RoundHalfEven | EvAnalyz.cc:237 | The rounded value is within 1/2 of the threshold, and even on a tie. |
| Plots.NatDigits | EvAnalyz.cc:237 | A number prints as decimal digits, with no leading zero; 0 prints as "0". |
| Plots.FormatThr | EvAnalyz.cc:237 | A formatted threshold is an optional leading '-', present exactly for a negative threshold, followed by decimal digits with no leading zero. |
| Plots.NatDigitsRoundTrip | EvAnalyz.cc:237 | Reading the decimal digits of a number back gives the number. |
| Plots.FormatThrRoundTrip | EvAnalyz.cc:293 | Reading a formatted threshold back gives the rounded threshold. |
| Plots.FormatThrSign | EvAnalyz.cc:237 | A formatted threshold is non-empty and starts with '-' exactly when the threshold is negative. |
| Plots.SameFormatIffSameRounding | EvAnalyz.cc:237 | Two thresholds print alike exactly when they round to the same integer and are on the same side of zero. |
| Plots.SameKeyIffSameRounding | EvAnalyz.cc:235-238 | Two thresholds get the same impact-point canvas key exactly when they round to the same integer and are on the same side of zero. So -0.3 and 0.3 get different keys. |
| Plots.CloseThresholdsShareName | EvAnalyz.cc:235-238 | An instance of the above: 9.8 and 10.2 both print as "10". |
| Plots.MakePlot | EvAnalyz.cc:271-279 | A canvas is printed to its sanitised key plus ".pdf", and to that stem with its "pdf"s renamed, plus ".png". |
| Plots.DrawProfiles | EvAnalyz.cc:229-238 | The time range defaults to [0, 2], as declared in EvAnalyz.hh:54. It creates an amplitude canvas and a rise-time canvas, then one impact-point canvas per threshold in configuration order. Their keys are "<label>, time vs AMP_MAX", "<label>, time vs risetime" and "<label>, time vs impact point, thr=<%.0f>". |
| Plots.DrawProfilesPrinted | EvAnalyz.cc:270-302 | Every canvas DrawProfiles creates is printed under its sanitised key. |
| Plots.DrawProfilesFileNames | EvAnalyz.cc:291-302 | Every PDF name printed is a stem free of blanks, '=', ',' and '.', followed by ".pdf". |

## Behaviour worth noting

- **Cascade order.** The fits walk the thresholds by index, from the last configured to the first, whatever their values (`Cascade.RunCascade`).
- **Threshold list.**
  - An empty `thr` list is accepted (`Config.Open`).
  - A threshold listed twice is filled once per occurrence (`Profiles.FillEvent`).
  - The range setters delete the profile of every listed threshold. A threshold listed twice would have its profile deleted twice, so the model of the range setters requires distinct thresholds (`Analyzer.SetAmpRange`, `Analyzer.SetRiseTimeRange`).
  - Thresholds with the same integer part share one fit function (`Cascade.SharedKeyTakesLowestFit`).
- **Empty input.** The constructor fails when no file was added to the chain. A chain whose files hold no entries is accepted (`Config.Open`).
- **Rise-time reference thresholds.** The reference thresholds of the rise-time covariate are the literal values 50 and 20, not configured ones. Unconfigured, they read as 0.
- **Zero-correction round trip.** A correction that is 0 everywhere reproduces the amplitude profiles (`Passes.VanishingCorrectionRoundTrip`). It reproduces the rise-time profiles only when the offset cancels. It reproduces the position profiles only with x and y exchanged, because of the branch binding. Each of the four corrections reaches this case when its fitted functions or bin contents are 0 (`Corrections.WalkCorrectionVanishing`, `Corrections.PosCorrectionVanishing`, `Corrections.RiseTimeCorrectionVanishing`).

## Left out

- ROOT input and output:
  - `TChain`, `TFile` and `TTree` branching;
  - writing the `/tmp/<label>_<suffix>.root` files and re-opening them.

  The tree is a sequence of rows. What `TChain::Add` reports is a parameter.
- `ConfigFile` text parsing. `ConfigFile.hh` is not part of this model. A configuration is a record of optional typed values.
- Profile internals are parameters of the model:
  - bin edges, underflow and overflow;
  - `GetBinContent` as a bin mean;
  - `TProfile::Fill`'s choice of bin.
- `TF1::Fit` and `TF1::Eval`, and with them `exp` and `log`, are parameters of the model. Fresh functions hold parameters (0, 0, 0).
- `float` storage and arithmetic: times, amplitudes, positions and ranges are modelled as reals. Only the float-to-`int` conversion of the fit-map key is modelled, as truncation toward zero.
- Column names `LDE%.0f`: the model keys columns by the threshold value, so it does not model two thresholds that print alike. In the source:
  - when reading, `SetBranchAddress` is called twice for the same column name (EvAnalyz.cc:172), the later address wins, and the earlier threshold's `ftime` entry stays 0;
  - the derived trees get two branches with the same name (EvAnalyz.cc:340), and reading such a tree back binds the first of them.
- Canvas replacement: `fPlots` is a map, so a canvas whose key equals an earlier one (Plots.SameKeyIffSameRounding says when) replaces it, and its files overwrite the earlier files. The model returns the canvases as a sequence, one per threshold.
- Drawing in `DrawProfiles`: canvas sizes, line colours, drawing options and the time axis range. The time range parameter has no effect on the model.
- The destructor, the leaked `TF1` objects, and the progress output on `cout` and `cerr`.
- The command-line driver `test.cpp`, which has no logic of its own.
- Analyzer.Make: requires Nthr to equal the length of thr. Every caller in the source passes `fthr.size()` or its stored copy `fNthr`.
- Corrections.AmpCorrection: requires at least one threshold, because the source seeds `fthr[fNthr-1]`, which is out of range for an empty list.
- Corrections.MitigatedAmpCorrection: requires at least one threshold, for the same reason.
- Plots.DrawProfiles: requires at least one threshold, because the source draws the profiles of `fthr[0]` first. It does not state the file names; Plots.DrawProfilesPrinted does.
- Passes.ZeroCorrectionKeepsRise: holds only when the offset cancels in `ftime[50] - ftime[20]`. Otherwise a non-configured 50 or 20 reads as 0 on both sides, and the rise time shifts by the offset.
- Config.Open: a chain of files that hold no entries is accepted, as in the code. The constructor tests files added, not entries.
- Analyzer.SetAmpRange: requires distinct thresholds. With a threshold listed twice, the source deletes the same amplitude profile twice (EvAnalyz.cc:526-529), and the model does not promise anything for that case.
- Analyzer.SetRiseTimeRange: requires distinct thresholds. With a threshold listed twice, the source deletes the same rise-time profile twice (EvAnalyz.cc:540-541), and the model does not promise anything for that case.
- Analyzer.SetAmpRangeKeepsConsistent: requires distinct thresholds, because it is stated about the range setters.
- Analyzer.SetRiseTimeRangeKeepsConsistent: requires distinct thresholds, because it is stated about the range setters.
- Analyzer.SetAmpRangeIdempotent: requires distinct thresholds, because it is stated about the range setters.
- Analyzer.SetRiseTimeRangeIdempotent: requires distinct thresholds, because it is stated about the range setters.
- Analyzer.RangeSettersCommute: requires distinct thresholds, because it is stated about the range setters.
