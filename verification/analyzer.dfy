/** The analysis object (class EvAnalyz): the event tree, the configured
    thresholds, the covariate ranges and the time offset, and the three
    families of time profiles built over them. */
module Analyzer {
  import opened Events
  import opened Profiles

  const AmpBins: nat := 100
  const RiseBins: nat := 100
  const PosBins: nat := 22
  const PosLo: real := -6.0
  const PosHi: real := 6.0
  /** The rise-time covariate is ftime[50] - ftime[20]. */
  const RiseHi: real := 50.0
  const RiseLo: real := 20.0

  type Profile1D = Profile<real>
  type Profile2D = Profile<(real, real)>

  /** rows is the event tree; nthr the stored threshold count fNthr; amp,
      rise and pos the profile maps fp_time_amp, fp_time_risetime and
      fp2_time_x_y, keyed by threshold. */
  datatype Dataset = Dataset(
    rows: seq<Row>,
    nthr: int,
    thr: seq<real>,
    dataLabel: string,
    ampMin: real, ampMax: real,
    riseMin: real, riseMax: real,
    offset: real,
    amp: map<real, Profile1D>,
    rise: map<real, Profile1D>,
    pos: map<real, Profile2D>)

  /** The events as the analysis reads them, in tree order. */
  function Entries(rows: seq<Row>, thr: seq<real>): (es: seq<Event>)
    ensures |es| == |rows|
    ensures forall k :: 0 <= k < |rows| ==> es[k] == Bind(rows[k], thr)
  {
    seq(|rows|, k requires 0 <= k < |rows| => Bind(rows[k], thr))
  }

  function RiseTime(e: Event): real {
    Time(e, RiseHi) - Time(e, RiseLo)
  }

  /** What each family is filled with for threshold t: the covariate, and the
      crossing time less the time offset. */
  function AmpRule(offset: real): (Event, real) -> (real, real) {
    (e: Event, t: real) => (e.amp, Time(e, t) - offset)
  }

  function RiseRule(offset: real): (Event, real) -> (real, real) {
    (e: Event, t: real) => (RiseTime(e), Time(e, t) - offset)
  }

  function PosRule(offset: real): (Event, real) -> ((real, real), real) {
    (e: Event, t: real) => ((e.x, e.y), Time(e, t) - offset)
  }

  function AmpAxes(ds: Dataset): seq<Axis> { [Axis(AmpBins, ds.ampMin, ds.ampMax)] }
  function RiseAxes(ds: Dataset): seq<Axis> { [Axis(RiseBins, ds.riseMin, ds.riseMax)] }
  function PosAxes(): seq<Axis> { [Axis(PosBins, PosLo, PosHi), Axis(PosBins, PosLo, PosHi)] }

  /** Reference contents of each family: one profile per configured
      threshold, with its binning and the fills of one pass over the tree. */
  function AmpProfiles(ds: Dataset): map<real, Profile1D> {
    Reference(ds.thr, AmpAxes(ds), Entries(ds.rows, ds.thr), AmpRule(ds.offset))
  }

  function RiseProfiles(ds: Dataset): map<real, Profile1D> {
    Reference(ds.thr, RiseAxes(ds), Entries(ds.rows, ds.thr), RiseRule(ds.offset))
  }

  function PosProfiles(ds: Dataset): map<real, Profile2D> {
    Reference(ds.thr, PosAxes(), Entries(ds.rows, ds.thr), PosRule(ds.offset))
  }

  /** The class invariant: fNthr is the length of fthr and every profile map
      has exactly one entry per configured threshold. */
  predicate Valid(ds: Dataset) {
    && ds.nthr == |ds.thr|
    && ds.amp.Keys == ThrSet(ds.thr)
    && ds.rise.Keys == ThrSet(ds.thr)
    && ds.pos.Keys == ThrSet(ds.thr)
  }

  /** Every profile holds what one pass over the current tree, ranges and
      offset puts in it. */
  predicate Consistent(ds: Dataset) {
    && ds.nthr == |ds.thr|
    && ds.amp == AmpProfiles(ds)
    && ds.rise == RiseProfiles(ds)
    && ds.pos == PosProfiles(ds)
  }

  /** CreateProfile: a fresh, empty profile per configured threshold in each
      selected family (amplitude: 100 bins on [amp_min, amp_max]; rise time:
      100 bins on [risetime_min, risetime_max]; position: 22 x 22 on
      [-6, 6] x [-6, 6]). With no arguments all three families are rebuilt.
      Nothing but the selected profile maps changes. */
  function CreateProfile(ds: Dataset, mkamp: bool := true, mkrise: bool := true, mkpos: bool := true): (r: Dataset)
    ensures r.(amp := ds.amp, rise := ds.rise, pos := ds.pos) == ds
    ensures mkamp ==> r.amp.Keys == ds.amp.Keys + ThrSet(ds.thr)
    ensures mkamp ==> forall t :: t in ThrSet(ds.thr) ==> r.amp[t] == Profile([Axis(100, ds.ampMin, ds.ampMax)], [])
    ensures !mkamp ==> r.amp == ds.amp
    ensures mkrise ==> r.rise.Keys == ds.rise.Keys + ThrSet(ds.thr)
    ensures mkrise ==> forall t :: t in ThrSet(ds.thr) ==> r.rise[t] == Profile([Axis(100, ds.riseMin, ds.riseMax)], [])
    ensures !mkrise ==> r.rise == ds.rise
    ensures mkpos ==> r.pos.Keys == ds.pos.Keys + ThrSet(ds.thr)
    ensures mkpos ==> forall t :: t in ThrSet(ds.thr) ==> r.pos[t] == Profile([Axis(22, -6.0, 6.0), Axis(22, -6.0, 6.0)], [])
    ensures !mkpos ==> r.pos == ds.pos
  {
    var amp := if mkamp then Fresh(ds.amp, ds.thr, AmpAxes(ds)) else ds.amp;
    var rise := if mkrise then Fresh(ds.rise, ds.thr, RiseAxes(ds)) else ds.rise;
    var pos := if mkpos then Fresh(ds.pos, ds.thr, PosAxes()) else ds.pos;
    ds.(amp := amp, rise := rise, pos := pos)
  }

  /** FillProfile: one pass over the tree filling each selected family; each
      profile of a selected family gets its reference fills appended. */
  function FillProfile(ds: Dataset, mkamp: bool := true, mkrise: bool := true, mkpos: bool := true): (r: Dataset)
    requires mkamp ==> ThrSet(ds.thr) <= ds.amp.Keys
    requires mkrise ==> ThrSet(ds.thr) <= ds.rise.Keys
    requires mkpos ==> ThrSet(ds.thr) <= ds.pos.Keys
    ensures r.(amp := ds.amp, rise := ds.rise, pos := ds.pos) == ds
    ensures r.amp.Keys == ds.amp.Keys && r.rise.Keys == ds.rise.Keys && r.pos.Keys == ds.pos.Keys
    ensures mkamp ==> forall t :: t in ds.amp ==>
      r.amp[t] == Profile(ds.amp[t].axes, ds.amp[t].fills + Collected(ds.thr, Entries(ds.rows, ds.thr), t, AmpRule(ds.offset)))
    ensures !mkamp ==> r.amp == ds.amp
    ensures mkrise ==> forall t :: t in ds.rise ==>
      r.rise[t] == Profile(ds.rise[t].axes, ds.rise[t].fills + Collected(ds.thr, Entries(ds.rows, ds.thr), t, RiseRule(ds.offset)))
    ensures !mkrise ==> r.rise == ds.rise
    ensures mkpos ==> forall t :: t in ds.pos ==>
      r.pos[t] == Profile(ds.pos[t].axes, ds.pos[t].fills + Collected(ds.thr, Entries(ds.rows, ds.thr), t, PosRule(ds.offset)))
    ensures !mkpos ==> r.pos == ds.pos
  {
    var es := Entries(ds.rows, ds.thr);
    ds.(amp := if mkamp then FillAll(ds.amp, ds.thr, es, AmpRule(ds.offset)) else ds.amp,
        rise := if mkrise then FillAll(ds.rise, ds.thr, es, RiseRule(ds.offset)) else ds.rise,
        pos := if mkpos then FillAll(ds.pos, ds.thr, es, PosRule(ds.offset)) else ds.pos)
  }

  /** The constructor from an existing tree (the one the corrections use):
      stores its arguments, creates all profiles and fills them. */
  function Make(rows: seq<Row>, nthr: int, thr: seq<real>, dataLabel: string,
                ampMin: real, ampMax: real, riseMin: real, riseMax: real, offset: real): (r: Dataset)
    requires nthr == |thr|
    ensures Consistent(r)
    ensures r.rows == rows && r.nthr == nthr && r.thr == thr && r.dataLabel == dataLabel
    ensures r.ampMin == ampMin && r.ampMax == ampMax && r.riseMin == riseMin && r.riseMax == riseMax
    ensures r.offset == offset
  {
    var bare := Dataset(rows, nthr, thr, dataLabel, ampMin, ampMax, riseMin, riseMax, offset, map[], map[], map[]);
    var es := Entries(rows, thr);
    FreshThenFill(bare.amp, thr, AmpAxes(bare), es, AmpRule(offset));
    FreshThenFill(bare.rise, thr, RiseAxes(bare), es, RiseRule(offset));
    FreshThenFill(bare.pos, thr, PosAxes(), es, PosRule(offset));
    FillProfile(CreateProfile(bare))
  }

  /** SetAmpRange: stores the new amplitude range (no check that lo < hi)
      and rebuilds and refills the amplitude profiles only. The old profiles
      are deleted once per configured threshold, so a threshold configured
      twice would have its profile deleted twice; the thresholds must be
      distinct. */
  function SetAmpRange(ds: Dataset, lo: real, hi: real): (r: Dataset)
    requires Valid(ds) && Distinct(ds.thr)
    ensures r == ds.(ampMin := lo, ampMax := hi, amp := r.amp)
    ensures r.amp == AmpProfiles(r)
  {
    var ranged := ds.(ampMin := lo, ampMax := hi);
    FreshThenFill(ds.amp, ds.thr, AmpAxes(ranged), Entries(ds.rows, ds.thr), AmpRule(ds.offset));
    FillProfile(CreateProfile(ranged, true, false, false), true, false, false)
  }

  /** SetRiseTimeRange: stores the new rise-time range and rebuilds and
      refills the rise-time profiles only; as for SetAmpRange, the
      thresholds must be distinct. */
  function SetRiseTimeRange(ds: Dataset, lo: real, hi: real): (r: Dataset)
    requires Valid(ds) && Distinct(ds.thr)
    ensures r == ds.(riseMin := lo, riseMax := hi, rise := r.rise)
    ensures r.rise == RiseProfiles(r)
  {
    var ranged := ds.(riseMin := lo, riseMax := hi);
    FreshThenFill(ds.rise, ds.thr, RiseAxes(ranged), Entries(ds.rows, ds.thr), RiseRule(ds.offset));
    FillProfile(CreateProfile(ranged, false, true, false), false, true, false)
  }

  /** Changing the amplitude range keeps every profile in step with the
      tree: the rise-time and position profiles do not depend on it. */
  lemma SetAmpRangeKeepsConsistent(ds: Dataset, lo: real, hi: real)
    requires Consistent(ds) && Distinct(ds.thr)
    ensures Consistent(SetAmpRange(ds, lo, hi))
  {
    var r := SetAmpRange(ds, lo, hi);
    assert RiseProfiles(r) == RiseProfiles(ds);
    assert PosProfiles(r) == PosProfiles(ds);
  }

  lemma SetRiseTimeRangeKeepsConsistent(ds: Dataset, lo: real, hi: real)
    requires Consistent(ds) && Distinct(ds.thr)
    ensures Consistent(SetRiseTimeRange(ds, lo, hi))
  {
    var r := SetRiseTimeRange(ds, lo, hi);
    assert AmpProfiles(r) == AmpProfiles(ds);
    assert PosProfiles(r) == PosProfiles(ds);
  }

  /** Setting the range a consistent analysis already has changes nothing;
      setting a range twice is the same as setting it once. */
  lemma SetAmpRangeIdempotent(ds: Dataset, lo: real, hi: real)
    requires Valid(ds) && Distinct(ds.thr)
    ensures Consistent(ds) ==> SetAmpRange(ds, ds.ampMin, ds.ampMax) == ds
    ensures SetAmpRange(SetAmpRange(ds, lo, hi), lo, hi) == SetAmpRange(ds, lo, hi)
  {
    var once := SetAmpRange(ds, lo, hi);
    assert Valid(once);
  }

  lemma SetRiseTimeRangeIdempotent(ds: Dataset, lo: real, hi: real)
    requires Valid(ds) && Distinct(ds.thr)
    ensures Consistent(ds) ==> SetRiseTimeRange(ds, ds.riseMin, ds.riseMax) == ds
    ensures SetRiseTimeRange(SetRiseTimeRange(ds, lo, hi), lo, hi) == SetRiseTimeRange(ds, lo, hi)
  {
    var once := SetRiseTimeRange(ds, lo, hi);
    assert Valid(once);
  }

  /** The two range setters touch disjoint parts of the analysis, so their
      order does not matter. */
  lemma RangeSettersCommute(ds: Dataset, alo: real, ahi: real, rlo: real, rhi: real)
    requires Valid(ds) && Distinct(ds.thr)
    ensures Valid(SetRiseTimeRange(ds, rlo, rhi)) && Valid(SetAmpRange(ds, alo, ahi))
    ensures SetAmpRange(SetRiseTimeRange(ds, rlo, rhi), alo, ahi) == SetRiseTimeRange(SetAmpRange(ds, alo, ahi), rlo, rhi)
  {
    var a := SetAmpRange(ds, alo, ahi);
    var r := SetRiseTimeRange(ds, rlo, rhi);
    assert Valid(a) && Valid(r);
    var ar := SetRiseTimeRange(a, rlo, rhi);
    var ra := SetAmpRange(r, alo, ahi);
    assert AmpProfiles(ra) == AmpProfiles(a);
    assert RiseProfiles(ar) == RiseProfiles(r);
  }
}
