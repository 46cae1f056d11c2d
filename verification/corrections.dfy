/** The four corrections: the two amplitude-walk corrections, which first
    run the fit cascade, and the position and rise-time corrections, which
    look their correction up in the parent's profiles. */
module Corrections {
  import opened Events
  import opened Profiles
  import opened Analyzer
  import opened Cascade
  import opened Passes

  /** The correction of the amplitude-walk passes: the threshold's fitted
      function evaluated at the amplitude. The function is looked up under
      the threshold's int key; `eval` is TF1::Eval. */
  function WalkCorrection(form: Form, lo: real, hi: real, fitted: map<int, Params>,
                          eval: (FitModel, real) -> real): (Event, real) -> real
  {
    (e: Event, t: real) =>
      eval(FitModel(form, lo, hi, if Trunc(t) in fitted then fitted[Trunc(t)] else Unset), e.amp)
  }

  /** The int keys of the thresholds' fit functions, in configuration order. */
  function FitKeys(thr: seq<real>): (keys: seq<int>)
    ensures |keys| == |thr|
    ensures forall i :: 0 <= i < |thr| ==> keys[i] == Trunc(thr[i])
  {
    seq(|thr|, i requires 0 <= i < |thr| => Trunc(thr[i]))
  }

  /** The amplitude profiles in configuration order: the fit targets. */
  function AmpTargets(ds: Dataset): (ps: seq<Profile1D>)
    requires Valid(ds)
    ensures |ps| == |ds.thr|
    ensures forall i :: 0 <= i < |ds.thr| ==> ps[i] == ds.amp[ds.thr[i]]
  {
    seq(|ds.thr|, i requires 0 <= i < |ds.thr| => ds.amp[ds.thr[i]])
  }

  /** AmpCorrection: exponential walk p2 + p0 exp(-p1 x) fitted to each
      threshold's amplitude profile on the analysis's amplitude range, the
      last threshold seeded with (0.01, 0.0006, 1); then every time is
      lowered by the offset and by its threshold's fitted function at the
      entry's amplitude. The result is labelled "<label>_amw". */
  method AmpCorrection(ds: Dataset, fit: (Profile1D, FitModel) -> Params, eval: (FitModel, real) -> real)
    returns (r: Dataset, calls: seq<FitCall>, fitted: map<int, Params>)
    requires Valid(ds) && ds.nthr > 0
    ensures Trace(calls, AmpTargets(ds), Exponential, ds.ampMin, ds.ampMax, ExpSeed, fit)
    ensures calls[0].seed == Params(0.01, 0.0006, 1.0)
    ensures FinalParams(FitKeys(ds.thr), calls, fitted)
    ensures r.dataLabel == ds.dataLabel + "_amw" && r.offset == 0.0 && r.thr == ds.thr && r.nthr == ds.nthr
    ensures r.ampMin == ds.ampMin && r.ampMax == ds.ampMax && r.riseMin == ds.riseMin && r.riseMax == ds.riseMax
    ensures Consistent(r)
    ensures AllPassedThrough(ds, r, WalkCorrection(Exponential, ds.ampMin, ds.ampMax, fitted, eval))
    ensures r == Derive(ds, "_amw", WalkCorrection(Exponential, ds.ampMin, ds.ampMax, fitted, eval))
  {
    calls, fitted := RunCascade(AmpTargets(ds), FitKeys(ds.thr), Exponential, ds.ampMin, ds.ampMax, ExpSeed, fit);
    r := DerivePass(ds, "_amw", WalkCorrection(Exponential, ds.ampMin, ds.ampMax, fitted, eval));
  }

  /** MitigatedAmpCorrection: logarithmic walk p0 + p1 log(p2 x) fitted on
      the caller's range [fitLo, fitHi], the last threshold seeded with
      (10.4, -0.3, 0.00013). The result is labelled "<label>_mitigatedamw"
      and keeps the analysis's own amplitude range, not the fit range. */
  method MitigatedAmpCorrection(ds: Dataset, fitLo: real, fitHi: real,
                                fit: (Profile1D, FitModel) -> Params, eval: (FitModel, real) -> real)
    returns (r: Dataset, calls: seq<FitCall>, fitted: map<int, Params>)
    requires Valid(ds) && ds.nthr > 0
    ensures Trace(calls, AmpTargets(ds), Logarithmic, fitLo, fitHi, LogSeed, fit)
    ensures calls[0].seed == Params(10.4, -0.3, 0.00013)
    ensures FinalParams(FitKeys(ds.thr), calls, fitted)
    ensures r.dataLabel == ds.dataLabel + "_mitigatedamw" && r.offset == 0.0 && r.thr == ds.thr && r.nthr == ds.nthr
    ensures r.ampMin == ds.ampMin && r.ampMax == ds.ampMax && r.riseMin == ds.riseMin && r.riseMax == ds.riseMax
    ensures Consistent(r)
    ensures AllPassedThrough(ds, r, WalkCorrection(Logarithmic, fitLo, fitHi, fitted, eval))
    ensures r == Derive(ds, "_mitigatedamw", WalkCorrection(Logarithmic, fitLo, fitHi, fitted, eval))
  {
    calls, fitted := RunCascade(AmpTargets(ds), FitKeys(ds.thr), Logarithmic, fitLo, fitHi, LogSeed, fit);
    r := DerivePass(ds, "_mitigatedamw", WalkCorrection(Logarithmic, fitLo, fitHi, fitted, eval));
  }

  /** A walk correction whose functions evaluate to 0 everywhere is 0 on
      every entry and threshold, so the amplitude-walk passes then satisfy
      the zero-correction round trip (Passes.VanishingCorrectionRoundTrip). */
  lemma WalkCorrectionVanishes(form: Form, lo: real, hi: real, fitted: map<int, Params>,
                               eval: (FitModel, real) -> real)
    requires forall m, x :: eval(m, x) == 0.0
    ensures forall e, t :: WalkCorrection(form, lo, hi, fitted, eval)(e, t) == 0.0
  {
  }

  /** The correction of the position pass: the content of the bin of the
      parent's position profile that holds the impact point. */
  function PosLookup(ds: Dataset, content: (Profile2D, int) -> real, locate: (seq<Axis>, (real, real)) -> int): (Event, real) -> real {
    (e: Event, t: real) =>
      if t in ds.pos then content(ds.pos[t], GetBinNumber(ds.pos[t], (e.x, e.y), locate)) else 0.0
  }

  /** The correction of the rise-time pass: the content of the bin of the
      parent's rise-time profile that holds ftime[50] - ftime[20]. */
  function RiseLookup(ds: Dataset, content: (Profile1D, int) -> real, locate: (seq<Axis>, real) -> int): (Event, real) -> real {
    (e: Event, t: real) =>
      if t in ds.rise then content(ds.rise[t], GetBinNumber(ds.rise[t], RiseTime(e), locate)) else 0.0
  }

  /** PosCorrection: every crossing time is lowered by the offset and by the
      content, in the parent's position profile of its threshold, of the bin
      holding the entry's impact point; the result is labelled
      "<label>_poscorr". Every lookup queries the parent's profile as it
      was before the pass. */
  function PosCorrection(ds: Dataset, content: (Profile2D, int) -> real, locate: (seq<Axis>, (real, real)) -> int): (r: Dataset)
    requires Valid(ds)
    ensures r.dataLabel == ds.dataLabel + "_poscorr" && r.offset == 0.0 && r.thr == ds.thr && r.nthr == ds.nthr
    ensures r.ampMin == ds.ampMin && r.ampMax == ds.ampMax && r.riseMin == ds.riseMin && r.riseMax == ds.riseMax
    ensures Consistent(r)
    ensures AllPassedThrough(ds, r, PosLookup(ds, content, locate))
  {
    DerivePassesThrough(ds, "_poscorr", PosLookup(ds, content, locate));
    Derive(ds, "_poscorr", PosLookup(ds, content, locate))
  }

  /** Entry k's new time at a configured threshold t after the position
      pass. */
  lemma PosCorrectionTime(ds: Dataset, content: (Profile2D, int) -> real, locate: (seq<Axis>, (real, real)) -> int,
                          k: int, t: real)
    requires Valid(ds) && 0 <= k < |ds.rows| && t in ds.thr
    ensures var r := PosCorrection(ds, content, locate);
            var e := Entries(ds.rows, ds.thr)[k];
            Time(Entries(r.rows, r.thr)[k], t) == Time(e, t) - ds.offset - content(ds.pos[t], GetBinNumber(ds.pos[t], (e.x, e.y), locate))
  {
    var r := PosCorrection(ds, content, locate);
    assert PassedThrough(Entries(ds.rows, ds.thr)[k], Entries(r.rows, r.thr)[k], ds.thr, ds.offset, PosLookup(ds, content, locate));
    assert t in ThrSet(ds.thr);
  }

  /** RiseTimeCorrection: every crossing time is lowered by the offset and
      by the content, in the parent's rise-time profile of its threshold, of
      the bin holding the entry's ftime[50] - ftime[20]; the result is
      labelled "<label>_risetimecorr". */
  function RiseTimeCorrection(ds: Dataset, content: (Profile1D, int) -> real, locate: (seq<Axis>, real) -> int): (r: Dataset)
    requires Valid(ds)
    ensures r.dataLabel == ds.dataLabel + "_risetimecorr" && r.offset == 0.0 && r.thr == ds.thr && r.nthr == ds.nthr
    ensures r.ampMin == ds.ampMin && r.ampMax == ds.ampMax && r.riseMin == ds.riseMin && r.riseMax == ds.riseMax
    ensures Consistent(r)
    ensures AllPassedThrough(ds, r, RiseLookup(ds, content, locate))
  {
    DerivePassesThrough(ds, "_risetimecorr", RiseLookup(ds, content, locate));
    Derive(ds, "_risetimecorr", RiseLookup(ds, content, locate))
  }

  /** Entry k's new time at a configured threshold t after the rise-time
      pass. */
  lemma RiseTimeCorrectionTime(ds: Dataset, content: (Profile1D, int) -> real, locate: (seq<Axis>, real) -> int,
                               k: int, t: real)
    requires Valid(ds) && 0 <= k < |ds.rows| && t in ds.thr
    ensures var r := RiseTimeCorrection(ds, content, locate);
            var e := Entries(ds.rows, ds.thr)[k];
            Time(Entries(r.rows, r.thr)[k], t) == Time(e, t) - ds.offset - content(ds.rise[t], GetBinNumber(ds.rise[t], RiseTime(e), locate))
  {
    var r := RiseTimeCorrection(ds, content, locate);
    assert PassedThrough(Entries(ds.rows, ds.thr)[k], Entries(r.rows, r.thr)[k], ds.thr, ds.offset, RiseLookup(ds, content, locate));
    assert t in ThrSet(ds.thr);
  }

  /** With every bin content 0, the position pass reproduces the parent's
      amplitude profiles, its position profiles with x and y exchanged, and
      its rise-time profiles when the offset cancels in the rise time. */
  lemma PosCorrectionVanishing(ds: Dataset, content: (Profile2D, int) -> real, locate: (seq<Axis>, (real, real)) -> int)
    requires Consistent(ds)
    requires forall p, b :: content(p, b) == 0.0
    ensures var r := PosCorrection(ds, content, locate);
            && r.amp == ds.amp
            && r.pos == Transposed(ds.pos)
            && ((RiseHi in ThrSet(ds.thr) <==> RiseLo in ThrSet(ds.thr)) || ds.offset == 0.0 ==> r.rise == ds.rise)
  {
    VanishingCorrectionRoundTrip(ds, "_poscorr", PosLookup(ds, content, locate));
  }

  /** With every bin content 0, the rise-time pass is the zero-correction
      round trip too. */
  lemma RiseTimeCorrectionVanishing(ds: Dataset, content: (Profile1D, int) -> real, locate: (seq<Axis>, real) -> int)
    requires Consistent(ds)
    requires forall p, b :: content(p, b) == 0.0
    ensures var r := RiseTimeCorrection(ds, content, locate);
            && r.amp == ds.amp
            && r.pos == Transposed(ds.pos)
            && ((RiseHi in ThrSet(ds.thr) <==> RiseLo in ThrSet(ds.thr)) || ds.offset == 0.0 ==> r.rise == ds.rise)
  {
    VanishingCorrectionRoundTrip(ds, "_risetimecorr", RiseLookup(ds, content, locate));
  }

  /** With fit functions that evaluate to 0, the amplitude-walk pass is the
      zero-correction round trip. */
  lemma WalkCorrectionVanishing(ds: Dataset, suffix: string, form: Form, lo: real, hi: real,
                                fitted: map<int, Params>, eval: (FitModel, real) -> real)
    requires Consistent(ds)
    requires forall m, x :: eval(m, x) == 0.0
    ensures var r := Derive(ds, suffix, WalkCorrection(form, lo, hi, fitted, eval));
            && r.amp == ds.amp
            && r.pos == Transposed(ds.pos)
            && ((RiseHi in ThrSet(ds.thr) <==> RiseLo in ThrSet(ds.thr)) || ds.offset == 0.0 ==> r.rise == ds.rise)
  {
    WalkCorrectionVanishes(form, lo, hi, fitted, eval);
    VanishingCorrectionRoundTrip(ds, suffix, WalkCorrection(form, lo, hi, fitted, eval));
  }
}
