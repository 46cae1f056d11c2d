/** One entry of the "digi" event tree, as stored and as read back through
    the branch addresses the analysis binds. */
module Events {

  /** The set of configured thresholds (photon counts). */
  function ThrSet(thr: seq<real>): (s: set<real>)
    ensures forall i :: 0 <= i < |thr| ==> thr[i] in s
    ensures forall t :: t in s ==> t in thr
  {
    set i | 0 <= i < |thr| :: thr[i]
  }

  /** No threshold is configured twice. */
  predicate Distinct(thr: seq<real>) {
    forall i, j :: 0 <= i < j < |thr| ==> thr[i] != thr[j]
  }

  /** A stored entry: the columns mu_x_hit, mu_y_hit and AMP_MAX, and one
      crossing-time column LDE<thr> per threshold, keyed by the threshold. */
  datatype Row = Row(muX: real, muY: real, amp: real, lde: map<real, real>)

  /** The values an entry leaves in the analysis's variables after it is read:
      x and y are the impact point as held in fmu_x_hit and fmu_y_hit, amp is
      fAMP_MAX, and time holds ftime for each configured threshold. */
  datatype Event = Event(x: real, y: real, amp: real, time: map<real, real>)

  /** The stored crossing time of threshold t; a column that is not present
      leaves the bound variable at its initial value 0. */
  function Column(row: Row, t: real): real {
    if t in row.lde then row.lde[t] else 0.0
  }

  /** Reads one entry. Branch mu_x_hit is bound to fmu_y_hit and branch
      mu_y_hit to fmu_x_hit, so the event's x is the stored mu_y_hit and its y
      the stored mu_x_hit. Only the configured thresholds' columns are read. */
  function Bind(row: Row, thr: seq<real>): (e: Event)
    ensures e.x == row.muY && e.y == row.muX && e.amp == row.amp
    ensures e.time.Keys == ThrSet(thr)
    ensures forall t :: t in e.time ==> e.time[t] == Column(row, t)
  {
    Event(row.muY, row.muX, row.amp, map t | t in ThrSet(thr) :: Column(row, t))
  }

  /** ftime[t]: the crossing time of threshold t in an event; asking for a
      threshold that is not configured (ftime[50] and ftime[20] in the
      rise-time covariate) yields the 0 that std::map default-inserts. */
  function Time(e: Event, t: real): real {
    if t in e.time then e.time[t] else 0.0
  }

  /** Writes an entry of a corrected tree: fmu_x_hit goes to column mu_x_hit,
      fmu_y_hit to column mu_y_hit, fAMP_MAX to AMP_MAX, and the new crossing
      times to the LDE columns. */
  function Store(e: Event, time: map<real, real>): (row: Row)
    ensures row.muX == e.x && row.muY == e.y && row.amp == e.amp && row.lde == time
  {
    Row(e.x, e.y, e.amp, time)
  }

  /** Writing an event and reading the entry back exchanges the two
      position variables and keeps the amplitude and the times: the stored
      mu_x_hit column is read into fmu_y_hit. */
  lemma StoreReadsBackSwapped(e: Event, time: map<real, real>, thr: seq<real>)
    requires time.Keys == ThrSet(thr)
    ensures Bind(Store(e, time), thr) == Event(e.y, e.x, e.amp, time)
  {
    var b := Bind(Store(e, time), thr);
    assert b.time == time;
  }

  /** Writing and reading back twice restores the event: the exchange of
      the position variables is an involution. */
  lemma SwapInvolution(e: Event, thr: seq<real>)
    requires e.time.Keys == ThrSet(thr)
    ensures Bind(Store(Bind(Store(e, e.time), thr), e.time), thr) == e
  {
    StoreReadsBackSwapped(e, e.time, thr);
    StoreReadsBackSwapped(Event(e.y, e.x, e.amp, e.time), e.time, thr);
  }

  /** Reading an entry: a configured threshold whose column is present
      reads its stored value; any other threshold reads 0. */
  lemma BindReadsConfiguredColumns(row: Row, thr: seq<real>, t: real)
    ensures Time(Bind(row, thr), t) == (if t in thr && t in row.lde then row.lde[t] else 0.0)
  {
  }
}
