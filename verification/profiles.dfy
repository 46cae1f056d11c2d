/** Binned profiles (ROOT's TProfile and TProfile2D) as values. A profile is
    its binning and the history of its fills; bin contents are a
    deterministic function of that history that the analysis only queries,
    so they are left to the caller as a parameter. */
module Profiles {
  import opened Events

  /** One binned axis: `bins` bins on [lo, hi]. */
  datatype Axis = Axis(bins: nat, lo: real, hi: real)

  /** A profile over covariate type P: its axes and, in order, every
      (covariate, value) pair it has been filled with. */
  datatype Profile<P> = Profile(axes: seq<Axis>, fills: seq<(P, real)>)

  /** TProfile::Fill: accumulates one pair and returns the number of the bin
      that the binning assigns to the covariate. */
  function Fill<P>(p: Profile<P>, x: P, y: real, locate: (seq<Axis>, P) -> int): (r: (Profile<P>, int))
    ensures r.0.axes == p.axes && r.0.fills == p.fills + [(x, y)]
  {
    (Profile(p.axes, p.fills + [(x, y)]), locate(p.axes, x))
  }

  /** GetBinNumber / GetBinNumber2d: fills a copy of the profile with value 0
      and reports the bin that fill used. The copy is discarded, so the
      profile queried is not changed, and the bin reported is the bin that a
      fill of the same covariate into the profile itself would use. */
  function GetBinNumber<P>(p: Profile<P>, x: P, locate: (seq<Axis>, P) -> int): (b: int)
    ensures forall y :: b == Fill(p, x, y, locate).1
  {
    var copy := p;
    Fill(copy, x, 0.0, locate).1
  }

  /** How many times t occurs in the threshold list. */
  function Count(thr: seq<real>, t: real): (n: nat)
    ensures n <= |thr|
    ensures n > 0 <==> t in thr
  {
    if thr == [] then 0 else (if thr[0] == t then 1 else 0) + Count(thr[1..], t)
  }

  function Repeat<F>(n: nat, f: F): (r: seq<F>)
    ensures |r| == n
    ensures forall i :: 0 <= i < n ==> r[i] == f
  {
    seq(n, _ => f)
  }

  function MapSeq<A, B>(s: seq<A>, h: A -> B): (r: seq<B>)
    ensures |r| == |s|
    ensures forall i :: 0 <= i < |s| ==> r[i] == h(s[i])
  {
    seq(|s|, i requires 0 <= i < |s| => h(s[i]))
  }

  /** Reference definition of the fills threshold t's profile receives from
      a pass over `events`: per event, in reading order, one fill for every
      position at which t occurs in the threshold list. */
  function Collected<E, P>(thr: seq<real>, events: seq<E>, t: real, rule: (E, real) -> (P, real)): seq<(P, real)>
    decreases |events|
  {
    if events == [] then []
    else Repeat(Count(thr, t), rule(events[0], t)) + Collected(thr, events[1..], t, rule)
  }

  /** The inner loop of a fill pass: for one event, fills the profile of each
      threshold in configuration order. */
  function FillEvent<E, P>(fam: map<real, Profile<P>>, thr: seq<real>, e: E, rule: (E, real) -> (P, real)): (r: map<real, Profile<P>>)
    requires forall i :: 0 <= i < |thr| ==> thr[i] in fam
    ensures r.Keys == fam.Keys
    ensures forall t :: t in fam ==> r[t] == Profile(fam[t].axes, fam[t].fills + Repeat(Count(thr, t), rule(e, t)))
    decreases |thr|
  {
    if thr == [] then fam
    else
      var t0 := thr[0];
      var fam' := fam[t0 := Profile(fam[t0].axes, fam[t0].fills + [rule(e, t0)])];
      var r := FillEvent(fam', thr[1..], e, rule);
      assert forall t :: t in fam ==> r[t] == Profile(fam[t].axes, fam[t].fills + Repeat(Count(thr, t), rule(e, t))) by {
        forall t | t in fam
          ensures r[t] == Profile(fam[t].axes, fam[t].fills + Repeat(Count(thr, t), rule(e, t)))
        {
          if t == t0 {
            assert Repeat(Count(thr, t), rule(e, t)) == [rule(e, t)] + Repeat(Count(thr[1..], t), rule(e, t));
          } else {
            assert Repeat(Count(thr, t), rule(e, t)) == Repeat(Count(thr[1..], t), rule(e, t));
          }
        }
      }
      r
  }

  /** A fill pass (FillProfile for one profile family): every event in
      reading order, and for each event every threshold in configuration
      order. Each profile ends up with exactly its reference fills appended. */
  function FillAll<E, P>(fam: map<real, Profile<P>>, thr: seq<real>, events: seq<E>, rule: (E, real) -> (P, real)): (r: map<real, Profile<P>>)
    requires forall i :: 0 <= i < |thr| ==> thr[i] in fam
    ensures r.Keys == fam.Keys
    ensures forall t :: t in fam ==> r[t] == Profile(fam[t].axes, fam[t].fills + Collected(thr, events, t, rule))
    decreases |events|
  {
    if events == [] then fam
    else
      var fam' := FillEvent(fam, thr, events[0], rule);
      var r := FillAll(fam', thr, events[1..], rule);
      FillAllStep(fam, fam', r, thr, events, rule);
      r
  }

  /** The fills of the first event followed by those of the rest are the
      fills of the whole pass. */
  lemma FillAllStep<E, P>(fam: map<real, Profile<P>>, fam': map<real, Profile<P>>, r: map<real, Profile<P>>,
                          thr: seq<real>, events: seq<E>, rule: (E, real) -> (P, real))
    requires events != []
    requires fam'.Keys == fam.Keys && r.Keys == fam'.Keys
    requires forall t :: t in fam ==> fam'[t] == Profile(fam[t].axes, fam[t].fills + Repeat(Count(thr, t), rule(events[0], t)))
    requires forall t :: t in fam' ==> r[t] == Profile(fam'[t].axes, fam'[t].fills + Collected(thr, events[1..], t, rule))
    ensures forall t :: t in fam ==> r[t] == Profile(fam[t].axes, fam[t].fills + Collected(thr, events, t, rule))
  {
    forall t | t in fam
      ensures r[t] == Profile(fam[t].axes, fam[t].fills + Collected(thr, events, t, rule))
    {
      var a := fam[t].fills;
      var b := Repeat(Count(thr, t), rule(events[0], t));
      var c := Collected(thr, events[1..], t, rule);
      assert (a + b) + c == a + (b + c);
    }
  }

  /** A fresh, empty profile with the given binning for every threshold,
      replacing any profile the family held for it. */
  function Fresh<P>(fam: map<real, Profile<P>>, thr: seq<real>, axes: seq<Axis>): (r: map<real, Profile<P>>)
    ensures r.Keys == fam.Keys + ThrSet(thr)
    ensures forall t :: t in ThrSet(thr) ==> r[t] == Profile(axes, [])
    ensures forall t :: t in fam && t !in ThrSet(thr) ==> r[t] == fam[t]
  {
    fam + map t | t in ThrSet(thr) :: Profile(axes, [])
  }

  /** Reference contents of a family built from scratch: one profile per
      threshold, with the given binning and the fills of one pass. */
  function Reference<E, P>(thr: seq<real>, axes: seq<Axis>, events: seq<E>, rule: (E, real) -> (P, real)): (r: map<real, Profile<P>>)
    ensures r.Keys == ThrSet(thr)
  {
    map t | t in ThrSet(thr) :: Profile(axes, Collected(thr, events, t, rule))
  }

  /** Creating fresh profiles for every threshold and then running one fill
      pass yields exactly the reference family. */
  lemma FreshThenFill<E, P>(fam: map<real, Profile<P>>, thr: seq<real>, axes: seq<Axis>, events: seq<E>, rule: (E, real) -> (P, real))
    requires fam.Keys <= ThrSet(thr)
    ensures FillAll(Fresh(fam, thr, axes), thr, events, rule) == Reference(thr, axes, events, rule)
  {
    var f := Fresh(fam, thr, axes);
    var r := FillAll(f, thr, events, rule);
    var ref := Reference(thr, axes, events, rule);
    assert r.Keys == ref.Keys;
    forall t | t in r ensures r[t] == ref[t] {
      assert f[t] == Profile(axes, []);
      assert [] + Collected(thr, events, t, rule) == Collected(thr, events, t, rule);
    }
  }

  /** Two passes whose events are related fill by fill through h produce
      fill histories related through h. */
  lemma {:induction false} CollectedMap<E1, E2, P, Q>(thr: seq<real>, ev1: seq<E1>, ev2: seq<E2>, t: real,
                                                      rule1: (E1, real) -> (P, real), rule2: (E2, real) -> (Q, real),
                                                      h: ((P, real)) -> (Q, real))
    requires |ev1| == |ev2|
    requires forall k :: 0 <= k < |ev1| ==> rule2(ev2[k], t) == h(rule1(ev1[k], t))
    ensures Collected(thr, ev2, t, rule2) == MapSeq(Collected(thr, ev1, t, rule1), h)
    decreases |ev1|
  {
    if ev1 != [] {
      CollectedMap(thr, ev1[1..], ev2[1..], t, rule1, rule2, h);
      var a := Repeat(Count(thr, t), rule1(ev1[0], t));
      var rest := Collected(thr, ev1[1..], t, rule1);
      assert rule2(ev2[0], t) == h(rule1(ev1[0], t));
      assert MapSeq(a + rest, h) == MapSeq(a, h) + MapSeq(rest, h);
      assert MapSeq(a, h) == Repeat(Count(thr, t), rule2(ev2[0], t));
    }
  }

  /** Applies h to every fill of every profile of a family. */
  function MapFamily<P, Q>(fam: map<real, Profile<P>>, h: ((P, real)) -> (Q, real)): (r: map<real, Profile<Q>>)
    ensures r.Keys == fam.Keys
    ensures forall t :: t in fam ==> r[t].axes == fam[t].axes && |r[t].fills| == |fam[t].fills|
  {
    map t | t in fam :: Profile(fam[t].axes, MapSeq(fam[t].fills, h))
  }

  /** Families built by two passes whose per-event fills are related through
      h are related through h profile by profile. */
  lemma {:induction false} ReferenceMap<E1, E2, P, Q>(thr: seq<real>, axes: seq<Axis>, ev1: seq<E1>, ev2: seq<E2>,
                                                      rule1: (E1, real) -> (P, real), rule2: (E2, real) -> (Q, real),
                                                      h: ((P, real)) -> (Q, real))
    requires |ev1| == |ev2|
    requires forall k, t :: 0 <= k < |ev1| && t in ThrSet(thr) ==> rule2(ev2[k], t) == h(rule1(ev1[k], t))
    ensures Reference(thr, axes, ev2, rule2) == MapFamily(Reference(thr, axes, ev1, rule1), h)
  {
    var a := Reference(thr, axes, ev2, rule2);
    var b := MapFamily(Reference(thr, axes, ev1, rule1), h);
    assert a.Keys == b.Keys;
    forall t | t in a ensures a[t] == b[t] {
      CollectedMap(thr, ev1, ev2, t, rule1, rule2, h);
    }
  }

  /** Mapping the identity leaves a family as it is. */
  lemma MapFamilyIdentity<P>(fam: map<real, Profile<P>>, h: ((P, real)) -> (P, real))
    requires forall f :: h(f) == f
    ensures MapFamily(fam, h) == fam
  {
    var r := MapFamily(fam, h);
    forall t | t in fam ensures r[t] == fam[t] {
      assert MapSeq(fam[t].fills, h) == fam[t].fills;
    }
  }

  /** Mapping two functions that undo each other restores the family. */
  lemma MapFamilyInverse<P, Q>(fam: map<real, Profile<P>>, h: ((P, real)) -> (Q, real), g: ((Q, real)) -> (P, real))
    requires forall f :: g(h(f)) == f
    ensures MapFamily(MapFamily(fam, h), g) == fam
  {
    var r := MapFamily(MapFamily(fam, h), g);
    forall t | t in fam ensures r[t] == fam[t] {
      assert MapSeq(MapSeq(fam[t].fills, h), g) == fam[t].fills;
    }
  }

  /** For distinct thresholds, each profile receives exactly one fill per
      event, in reading order. */
  lemma {:induction false} CollectedDistinct<E, P>(thr: seq<real>, events: seq<E>, t: real, rule: (E, real) -> (P, real))
    requires Count(thr, t) == 1
    ensures |Collected(thr, events, t, rule)| == |events|
    ensures forall k :: 0 <= k < |events| ==> Collected(thr, events, t, rule)[k] == rule(events[k], t)
    decreases |events|
  {
    if events != [] {
      CollectedDistinct(thr, events[1..], t, rule);
    }
  }
}
