/** The fit-seeding cascade of the amplitude-walk corrections: one
    three-parameter function per threshold, fitted from the last configured
    threshold down to the first, each fit seeded with the parameters the
    previous fit produced. The fit routine itself is a parameter. */
module Cascade {

  /** The two parametric forms: p2 + p0 exp(-p1 x) and p0 + p1 log(p2 x). */
  datatype Form = Exponential | Logarithmic

  datatype Params = Params(p0: real, p1: real, p2: real)

  /** A fit function (TF1): its form, its range and its current parameters. */
  datatype FitModel = FitModel(form: Form, lo: real, hi: real, params: Params)

  /** One call of the fit routine: the threshold index fitted, the parameters
      the function held before the call, and the parameters it returned. */
  datatype FitCall = FitCall(index: nat, seed: Params, result: Params)

  /** The literal seeds of the last threshold. */
  const ExpSeed: Params := Params(0.01, 0.0006, 1.0)
  const LogSeed: Params := Params(10.4, -0.3, 0.00013)

  /** A freshly created function's parameters. */
  const Unset: Params := Params(0.0, 0.0, 0.0)

  /** Conversion of a threshold to the int key of the fit map: truncation
      toward zero. */
  function Trunc(x: real): (k: int)
    ensures 0.0 <= x ==> k as real <= x < k as real + 1.0
    ensures x < 0.0 ==> k as real - 1.0 < x <= k as real
  {
    if 0.0 <= x then x.Floor else -((-x).Floor)
  }

  function KeySet(keys: seq<int>): set<int> {
    set i | 0 <= i < |keys| :: keys[i]
  }

  /** Index j holds the first occurrence of its key among indices lo and up. */
  predicate FirstFrom(keys: seq<int>, lo: int, j: int) {
    0 <= lo <= j < |keys| && forall j' :: lo <= j' < j ==> keys[j'] != keys[j]
  }

  /** The calls made so far, the first fitting the last index: each call's
      index counts down from the last, the first call is seeded with
      `seed`, every later one with the result of the call before it, and
      each result is what the fit routine returns for that index's target
      and a function of the given form and range holding the call's seed. */
  predicate Chain<T>(calls: seq<FitCall>, targets: seq<T>, form: Form, lo: real, hi: real, seed: Params,
                     fit: (T, FitModel) -> Params) {
    && |calls| <= |targets|
    && (forall m :: 0 <= m < |calls| ==> calls[m].index == |targets| - 1 - m)
    && (|calls| > 0 ==> calls[0].seed == seed)
    && (forall m :: 0 < m < |calls| ==> calls[m].seed == calls[m - 1].result)
    && (forall m :: 0 <= m < |calls| ==>
          calls[m].result == fit(targets[calls[m].index], FitModel(form, lo, hi, calls[m].seed)))
  }

  /** The fit calls of a whole cascade over `targets`: every index is fitted
      exactly once, from the last to the first, in a chain. */
  predicate Trace<T>(calls: seq<FitCall>, targets: seq<T>, form: Form, lo: real, hi: real, seed: Params,
                     fit: (T, FitModel) -> Params) {
    |calls| == |targets| > 0 && Chain(calls, targets, form, lo, hi, seed, fit)
  }

  /** Every first occurrence from `i` on whose key is not the one index
      i - 1 is about to be fitted under holds the result of its own call. */
  predicate Kept(keys: seq<int>, i: int, calls: seq<FitCall>, fitted: map<int, Params>) {
    && |calls| == |keys| - i
    && KeySet(keys) <= fitted.Keys
    && forall j :: i <= j < |keys| && FirstFrom(keys, i, j) && (i == 0 || keys[j] != keys[i - 1]) ==>
         fitted[keys[j]] == calls[|keys| - 1 - j].result
  }

  /** The functions held after a cascade, keyed as in `keys`: the function
      under a key is the result of the fit at the smallest index with that
      key. */
  predicate FinalParams(keys: seq<int>, calls: seq<FitCall>, fitted: map<int, Params>) {
    && |calls| == |keys|
    && fitted.Keys == KeySet(keys)
    && forall j :: 0 <= j < |keys| && FirstFrom(keys, 0, j) ==> fitted[keys[j]] == calls[|keys| - 1 - j].result
  }

  /** The cascade. keys[i] is the map key of threshold i's function, so
      thresholds with equal keys share one function; targets[i] is what
      threshold i is fitted against. A later-fitted, lower index with the
      same key overwrites the function a higher index left under it. */
  method RunCascade<T>(targets: seq<T>, keys: seq<int>, form: Form, lo: real, hi: real, seed: Params,
                       fit: (T, FitModel) -> Params)
    returns (calls: seq<FitCall>, fitted: map<int, Params>)
    requires |targets| == |keys| > 0
    ensures Trace(calls, targets, form, lo, hi, seed, fit)
    ensures FinalParams(keys, calls, fitted)
  {
    var n := |keys|;
    fitted := map k | k in KeySet(keys) :: Unset;
    fitted := fitted[keys[n - 1] := seed];
    calls := [];
    var i := n;
    while i > 0
      invariant 0 <= i <= n
      invariant fitted.Keys == KeySet(keys)
      invariant Chain(calls, targets, form, lo, hi, seed, fit)
      invariant Kept(keys, i, calls, fitted)
      invariant i > 0 ==> fitted[keys[i - 1]] == (if i == n then seed else calls[n - 1 - i].result)
    {
      i := i - 1;
      var s := fitted[keys[i]];
      var r := fit(targets[i], FitModel(form, lo, hi, s));
      ChainExtend(calls, targets, form, lo, hi, seed, fit, FitCall(i, s, r));
      KeptStep(keys, i, calls, fitted, FitCall(i, s, r));
      calls := calls + [FitCall(i, s, r)];
      fitted := fitted[keys[i] := r];
      if i >= 1 {
        fitted := fitted[keys[i - 1] := r];
      }
    }
  }

  /** Appending the call for the next index down extends a chain. */
  lemma ChainExtend<T>(calls: seq<FitCall>, targets: seq<T>, form: Form, lo: real, hi: real, seed: Params,
                       fit: (T, FitModel) -> Params, c: FitCall)
    requires Chain(calls, targets, form, lo, hi, seed, fit)
    requires |calls| < |targets| && c.index == |targets| - 1 - |calls|
    requires c.seed == (if calls == [] then seed else calls[|calls| - 1].result)
    requires c.result == fit(targets[c.index], FitModel(form, lo, hi, c.seed))
    ensures Chain(calls + [c], targets, form, lo, hi, seed, fit)
  {
  }

  /** Fitting index i under keys[i], then copying the result under
      keys[i - 1], keeps every earlier-kept first occurrence. */
  lemma KeptStep(keys: seq<int>, i: int, calls: seq<FitCall>, fitted: map<int, Params>, c: FitCall)
    requires 0 <= i < |keys| && Kept(keys, i + 1, calls, fitted)
    requires i + 1 < |keys| ==> fitted[keys[i]] == calls[|keys| - 2 - i].result
    ensures var f := fitted[keys[i] := c.result];
            Kept(keys, i, calls + [c], if i >= 1 then f[keys[i - 1] := c.result] else f)
  {
    var f := fitted[keys[i] := c.result];
    var g := if i >= 1 then f[keys[i - 1] := c.result] else f;
    var cs := calls + [c];
    forall j | FirstFrom(keys, i, j) && (i == 0 || keys[j] != keys[i - 1])
      ensures g[keys[j]] == cs[|keys| - 1 - j].result
    {
      if j > i {
        assert keys[j] != keys[i];
        assert FirstFrom(keys, i + 1, j);
      }
    }
  }

  /** With pairwise distinct keys every threshold ends with its own fit. */
  lemma DistinctKeysKeepOwnFit(keys: seq<int>, calls: seq<FitCall>, fitted: map<int, Params>)
    requires FinalParams(keys, calls, fitted)
    requires forall i, j :: 0 <= i < j < |keys| ==> keys[i] != keys[j]
    ensures forall i :: 0 <= i < |keys| ==> fitted[keys[i]] == calls[|keys| - 1 - i].result
  {
    forall i | 0 <= i < |keys|
      ensures fitted[keys[i]] == calls[|keys| - 1 - i].result
    {
      assert FirstFrom(keys, 0, i);
    }
  }

  /** With a shared key, a threshold ends with the fit of the lowest index
      that shares it, not its own. */
  lemma SharedKeyTakesLowestFit(keys: seq<int>, calls: seq<FitCall>, fitted: map<int, Params>, i: int, j: int)
    requires FinalParams(keys, calls, fitted)
    requires FirstFrom(keys, 0, j) && j <= i < |keys| && keys[i] == keys[j]
    ensures fitted[keys[i]] == calls[|keys| - 1 - j].result
  {
  }
}
