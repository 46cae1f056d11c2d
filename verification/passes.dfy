/** The pass all corrections share: every entry of the tree is re-read, its
    crossing times are lowered by the time offset and a per-threshold
    correction, and a new analysis is built on the new tree. */
module Passes {
  import opened Events
  import opened Profiles
  import opened Analyzer

  /** One output entry: the position and amplitude copied from the variables
      as read, and new time = raw - time offset - correction for every
      configured threshold. */
  function CorrectedRow(e: Event, thr: seq<real>, offset: real, corr: (Event, real) -> real): (row: Row)
    ensures row.lde.Keys == ThrSet(thr)
  {
    Store(e, map t | t in ThrSet(thr) :: Time(e, t) - offset - corr(e, t))
  }

  /** How an entry of a corrected analysis reads back relative to its parent
      entry: the two position variables are exchanged, the amplitude is
      unchanged, and each configured threshold's time is lowered by the
      offset and the correction. */
  predicate PassedThrough(parent: Event, child: Event, thr: seq<real>, offset: real, corr: (Event, real) -> real) {
    && child.x == parent.y
    && child.y == parent.x
    && child.amp == parent.amp
    && child.time.Keys == parent.time.Keys
    && forall t :: t in ThrSet(thr) ==> Time(child, t) == Time(parent, t) - offset - corr(parent, t)
  }

  /** Every entry of `child` reads back as the same entry of `parent`
      passed through the correction `corr`. */
  predicate AllPassedThrough(parent: Dataset, child: Dataset, corr: (Event, real) -> real) {
    && |child.rows| == |parent.rows|
    && forall k :: 0 <= k < |parent.rows| ==>
         PassedThrough(Entries(parent.rows, parent.thr)[k], Entries(child.rows, child.thr)[k], parent.thr, parent.offset, corr)
  }

  /** Writing a corrected entry and reading it back. */
  lemma ReadBack(e: Event, thr: seq<real>, offset: real, corr: (Event, real) -> real)
    requires e.time.Keys == ThrSet(thr)
    ensures PassedThrough(e, Bind(CorrectedRow(e, thr, offset, corr), thr), thr, offset, corr)
  {
    var row := CorrectedRow(e, thr, offset, corr);
    var child := Bind(row, thr);
    forall t | t in ThrSet(thr)
      ensures Time(child, t) == Time(e, t) - offset - corr(e, t)
    {
      assert t in row.lde;
    }
  }

  /** The new tree: one corrected entry per parent entry, in order. */
  function CorrectedRows(ds: Dataset, corr: (Event, real) -> real): (rows: seq<Row>)
    ensures |rows| == |ds.rows|
    ensures forall k :: 0 <= k < |ds.rows| ==> rows[k] == CorrectedRow(Entries(ds.rows, ds.thr)[k], ds.thr, ds.offset, corr)
  {
    var parent := Entries(ds.rows, ds.thr);
    seq(|ds.rows|, k requires 0 <= k < |ds.rows| => CorrectedRow(parent[k], ds.thr, ds.offset, corr))
  }

  /** The part all four corrections share: a full pass producing the new
      tree, and the new analysis built on it with the parent's thresholds
      and ranges, the parent's label plus `suffix`, and time offset 0. */
  function Derive(ds: Dataset, suffix: string, corr: (Event, real) -> real): (r: Dataset)
    requires ds.nthr == |ds.thr|
    ensures Consistent(r)
    ensures r.dataLabel == ds.dataLabel + suffix && r.offset == 0.0
    ensures r.thr == ds.thr && r.nthr == ds.nthr
    ensures r.ampMin == ds.ampMin && r.ampMax == ds.ampMax && r.riseMin == ds.riseMin && r.riseMax == ds.riseMax
    ensures r.rows == CorrectedRows(ds, corr)
  {
    Make(CorrectedRows(ds, corr), ds.nthr, ds.thr, ds.dataLabel + suffix, ds.ampMin, ds.ampMax, ds.riseMin, ds.riseMax, 0.0)
  }

  /** Every entry of the new tree reads back as its parent entry with the
      position variables exchanged and the times corrected; the stored
      position columns are exchanged too. */
  lemma RowsPassThrough(ds: Dataset, corr: (Event, real) -> real)
    ensures forall k :: 0 <= k < |ds.rows| ==>
      PassedThrough(Entries(ds.rows, ds.thr)[k], Entries(CorrectedRows(ds, corr), ds.thr)[k], ds.thr, ds.offset, corr)
    ensures forall k :: 0 <= k < |ds.rows| ==>
      var row := CorrectedRows(ds, corr)[k];
      row.muX == ds.rows[k].muY && row.muY == ds.rows[k].muX && row.amp == ds.rows[k].amp
  {
    var rows := CorrectedRows(ds, corr);
    var parent := Entries(ds.rows, ds.thr);
    forall k | 0 <= k < |ds.rows|
      ensures PassedThrough(parent[k], Entries(rows, ds.thr)[k], ds.thr, ds.offset, corr)
    {
      ReadBack(parent[k], ds.thr, ds.offset, corr);
    }
  }

  /** Every entry of a derived analysis reads back as its parent entry
      passed through the correction. */
  lemma DerivePassesThrough(ds: Dataset, suffix: string, corr: (Event, real) -> real)
    requires ds.nthr == |ds.thr|
    ensures AllPassedThrough(ds, Derive(ds, suffix, corr), corr)
  {
    RowsPassThrough(ds, corr);
  }

  /** Derive as a step of a correction: the new analysis and what its
      entries read back as. */
  method DerivePass(ds: Dataset, suffix: string, corr: (Event, real) -> real) returns (r: Dataset)
    requires ds.nthr == |ds.thr|
    ensures r == Derive(ds, suffix, corr)
    ensures Consistent(r)
    ensures r.dataLabel == ds.dataLabel + suffix && r.offset == 0.0
    ensures r.thr == ds.thr && r.nthr == ds.nthr
    ensures r.ampMin == ds.ampMin && r.ampMax == ds.ampMax && r.riseMin == ds.riseMin && r.riseMax == ds.riseMax
    ensures AllPassedThrough(ds, r, corr)
  {
    r := Derive(ds, suffix, corr);
    DerivePassesThrough(ds, suffix, corr);
  }

  /** Corrections that agree on every entry and threshold derive the same
      analysis. */
  lemma DeriveExt(ds: Dataset, suffix: string, c1: (Event, real) -> real, c2: (Event, real) -> real)
    requires ds.nthr == |ds.thr|
    requires forall e, t :: c1(e, t) == c2(e, t)
    ensures Derive(ds, suffix, c1) == Derive(ds, suffix, c2)
  {
    var a := CorrectedRows(ds, c1);
    var b := CorrectedRows(ds, c2);
    forall k | 0 <= k < |ds.rows|
      ensures a[k] == b[k]
    {
      var e := Entries(ds.rows, ds.thr)[k];
      assert a[k].lde == b[k].lde;
    }
    assert a == b;
  }

  function Zero(): (Event, real) -> real { (e: Event, t: real) => 0.0 }

  function SwapFill(f: ((real, real), real)): ((real, real), real) { ((f.0.1, f.0.0), f.1) }

  /** A position family with x and y exchanged in every fill. */
  function Transposed(fam: map<real, Profile2D>): map<real, Profile2D> {
    MapFamily(fam, SwapFill)
  }

  /** With a zero correction every entry of the derived analysis reads back
      as its parent entry with x and y exchanged and the offset subtracted. */
  lemma ZeroPass(ds: Dataset, suffix: string)
    requires ds.nthr == |ds.thr|
    ensures var r := Derive(ds, suffix, Zero());
            && r.thr == ds.thr && r.offset == 0.0 && Consistent(r)
            && AllPassedThrough(ds, r, Zero())
  {
    DerivePassesThrough(ds, suffix, Zero());
  }

  /** An entry passed through a zero correction: only the offset is taken
      off the time, and x and y are exchanged. */
  lemma ZeroEntry(parent: Event, child: Event, thr: seq<real>, offset: real, t: real)
    requires PassedThrough(parent, child, thr, offset, Zero()) && t in ThrSet(thr)
    ensures Time(child, t) == Time(parent, t) - offset
    ensures child.amp == parent.amp && child.x == parent.y && child.y == parent.x
  {
    assert Zero()(parent, t) == 0.0;
  }

  function Same(f: (real, real)): (real, real) { f }

  /** What the fill rules make of entries passed through a zero correction. */
  lemma ZeroRules(ev1: seq<Event>, ev2: seq<Event>, thr: seq<real>, offset: real)
    requires |ev1| == |ev2|
    requires forall k :: 0 <= k < |ev1| ==> PassedThrough(ev1[k], ev2[k], thr, offset, Zero())
    requires forall k :: 0 <= k < |ev1| ==> ev1[k].time.Keys == ThrSet(thr)
    ensures forall k, t :: 0 <= k < |ev1| && t in ThrSet(thr) ==>
      AmpRule(0.0)(ev2[k], t) == Same(AmpRule(offset)(ev1[k], t))
    ensures forall k, t :: 0 <= k < |ev1| && t in ThrSet(thr) ==>
      PosRule(0.0)(ev2[k], t) == SwapFill(PosRule(offset)(ev1[k], t))
    ensures (RiseHi in ThrSet(thr) <==> RiseLo in ThrSet(thr)) || offset == 0.0 ==>
      forall k, t :: 0 <= k < |ev1| && t in ThrSet(thr) ==>
        RiseRule(0.0)(ev2[k], t) == Same(RiseRule(offset)(ev1[k], t))
  {
    forall k, t | 0 <= k < |ev1| && t in ThrSet(thr)
      ensures AmpRule(0.0)(ev2[k], t) == Same(AmpRule(offset)(ev1[k], t))
      ensures PosRule(0.0)(ev2[k], t) == SwapFill(PosRule(offset)(ev1[k], t))
      ensures (RiseHi in ThrSet(thr) <==> RiseLo in ThrSet(thr)) || offset == 0.0 ==>
        RiseRule(0.0)(ev2[k], t) == Same(RiseRule(offset)(ev1[k], t))
    {
      ZeroEntry(ev1[k], ev2[k], thr, offset, t);
      if (RiseHi in ThrSet(thr) <==> RiseLo in ThrSet(thr)) || offset == 0.0 {
        var p, c := ev1[k], ev2[k];
        if RiseHi in ThrSet(thr) {
          ZeroEntry(p, c, thr, offset, RiseHi);
        } else {
          assert RiseHi !in c.time;
        }
        if RiseLo in ThrSet(thr) {
          ZeroEntry(p, c, thr, offset, RiseLo);
        } else {
          assert RiseLo !in c.time;
        }
        assert RiseTime(c) == RiseTime(p);
      }
    }
  }

  /** A pass with a zero correction reproduces the parent's amplitude
      profiles fill for fill: raw - offset on the parent side is new - 0 on
      the child side. */
  lemma ZeroCorrectionKeepsAmp(ds: Dataset, suffix: string)
    requires Consistent(ds)
    ensures Derive(ds, suffix, Zero()).amp == ds.amp
  {
    var r := Derive(ds, suffix, Zero());
    ZeroPass(ds, suffix);
    var ev1 := Entries(ds.rows, ds.thr);
    var ev2 := Entries(r.rows, r.thr);
    ZeroRules(ev1, ev2, ds.thr, ds.offset);
    ReferenceMap(ds.thr, AmpAxes(ds), ev1, ev2, AmpRule(ds.offset), AmpRule(0.0), Same);
    MapFamilyIdentity(ds.amp, Same);
    assert AmpAxes(r) == AmpAxes(ds);
  }

  /** A pass with a zero correction reproduces the parent's position
      profiles with x and y exchanged in every fill. */
  lemma ZeroCorrectionTransposesPos(ds: Dataset, suffix: string)
    requires Consistent(ds)
    ensures Derive(ds, suffix, Zero()).pos == Transposed(ds.pos)
  {
    var r := Derive(ds, suffix, Zero());
    ZeroPass(ds, suffix);
    var ev1 := Entries(ds.rows, ds.thr);
    var ev2 := Entries(r.rows, r.thr);
    ZeroRules(ev1, ev2, ds.thr, ds.offset);
    ReferenceMap(ds.thr, PosAxes(), ev1, ev2, PosRule(ds.offset), PosRule(0.0), SwapFill);
  }

  /** A pass with a zero correction reproduces the parent's rise-time
      profiles whenever the offset cancels in ftime[50] - ftime[20]: both
      or neither of 50 and 20 are configured thresholds, or the offset is
      0. */
  lemma ZeroCorrectionKeepsRise(ds: Dataset, suffix: string)
    requires Consistent(ds)
    requires (RiseHi in ThrSet(ds.thr) <==> RiseLo in ThrSet(ds.thr)) || ds.offset == 0.0
    ensures Derive(ds, suffix, Zero()).rise == ds.rise
  {
    var r := Derive(ds, suffix, Zero());
    ZeroPass(ds, suffix);
    var ev1 := Entries(ds.rows, ds.thr);
    var ev2 := Entries(r.rows, r.thr);
    ZeroRules(ev1, ev2, ds.thr, ds.offset);
    ReferenceMap(ds.thr, RiseAxes(ds), ev1, ev2, RiseRule(ds.offset), RiseRule(0.0), Same);
    MapFamilyIdentity(ds.rise, Same);
    assert RiseAxes(r) == RiseAxes(ds);
  }

  /** Every pass exchanges the two position columns of the stored tree,
      whatever its correction, so two passes restore them; two zero passes
      restore the position profiles as well. */
  lemma TwoPassesRestorePositions(ds: Dataset, s1: string, s2: string,
                                  c1: (Event, real) -> real, c2: (Event, real) -> real)
    requires Consistent(ds)
    ensures var once := Derive(ds, s1, c1);
            var twice := Derive(once, s2, c2);
            && |twice.rows| == |ds.rows|
            && (forall k :: 0 <= k < |ds.rows| ==> twice.rows[k].muX == ds.rows[k].muX && twice.rows[k].muY == ds.rows[k].muY)
    ensures var once := Derive(ds, s1, Zero());
            Derive(once, s2, Zero()).pos == ds.pos
  {
    var once := Derive(ds, s1, c1);
    RowsPassThrough(ds, c1);
    RowsPassThrough(once, c2);
    var zonce := Derive(ds, s1, Zero());
    ZeroCorrectionTransposesPos(ds, s1);
    ZeroPass(ds, s1);
    ZeroCorrectionTransposesPos(zonce, s2);
    MapFamilyInverse(ds.pos, SwapFill, SwapFill);
  }

  /** The zero-correction round trip for any correction that is 0 on every
      entry and threshold. */
  lemma VanishingCorrectionRoundTrip(ds: Dataset, suffix: string, corr: (Event, real) -> real)
    requires Consistent(ds)
    requires forall e, t :: corr(e, t) == 0.0
    ensures var r := Derive(ds, suffix, corr);
            && r.amp == ds.amp
            && r.pos == Transposed(ds.pos)
            && ((RiseHi in ThrSet(ds.thr) <==> RiseLo in ThrSet(ds.thr)) || ds.offset == 0.0 ==> r.rise == ds.rise)
  {
    DeriveExt(ds, suffix, corr, Zero());
    ZeroCorrectionKeepsAmp(ds, suffix);
    ZeroCorrectionTransposesPos(ds, suffix);
    if (RiseHi in ThrSet(ds.thr) <==> RiseLo in ThrSet(ds.thr)) || ds.offset == 0.0 {
      ZeroCorrectionKeepsRise(ds, suffix);
    }
  }
}
