/**
 * Chaining animations: cumulatedAnimations (one element, a list of
 * animation functions played one after the other, with the settings
 * distributed over the legs) and the manager's combinators playSequentially,
 * playParallel and playInterval. An animation is whatever the caller passes;
 * what playing it yields is a function parameter, so the model records which
 * animations were started, in which order and with which arguments, and the
 * promise they end in.
 */
module Sequencing {
  import opened JsValues

  /** `settingsOrSettingsArray`: one value shared by every leg, or an array with one entry per leg. */
  datatype LegSettings<S> = Shared(value: Option<S>) | PerLeg(list: seq<Option<S>>)

  /** The settings leg `i` receives: the shared value, or the array's entry (undefined past the end). */
  function LegSetting<S>(arg: LegSettings<S>, i: nat): Option<S> {
    match arg
    case Shared(v) => v
    case PerLeg(l) => if i < |l| then l[i] else None
  }

  /** What the recursive call receives: the array without its head, or the same single value. */
  function Rest<S>(arg: LegSettings<S>): LegSettings<S> {
    match arg
    case Shared(_) => arg
    case PerLeg(l) => PerLeg(if |l| == 0 then [] else l[1..])
  }

  /** Slicing the settings shifts every leg's settings by one. */
  lemma RestShifts<S>(arg: LegSettings<S>, i: nat)
    ensures LegSetting(Rest(arg), i) == LegSetting(arg, i + 1)
  {
  }

  /**
   * A chain that waits for each leg before starting the next one starts `k`
   * of the legs whose outcomes are `outcomes`: at least the first, each one
   * after a success, and it stops early only after a rejection.
   */
  predicate StopsAtFirstRejection<V>(outcomes: seq<Result<V>>, k: nat) {
    && k <= |outcomes|
    && (|outcomes| > 0 ==> k >= 1)
    && (forall i :: 0 <= i < k - 1 ==> outcomes[i].Ok?)
    && (0 < k < |outcomes| ==> outcomes[k - 1].Err?)
  }

  /** The number of legs such a chain starts is determined by the outcomes. */
  lemma StopsUnique<V>(outcomes: seq<Result<V>>, k1: nat, k2: nat)
    requires StopsAtFirstRejection(outcomes, k1) && StopsAtFirstRejection(outcomes, k2)
    ensures k1 == k2
  {
  }

  // ----- cumulatedAnimations -----

  /** The animations started, each with the settings it was given, and the returned promise. */
  datatype Run<A, S, V> = Run(calls: seq<(A, Option<S>)>, result: Result<V>)

  const EmptyMessage := "[bga-animation] animations of cumulatedAnimations cannot be empty"

  /**
   * cumulatedAnimations: an empty list throws; one animation is played with
   * the first settings and its promise returned; otherwise the first is
   * played and, once it resolves, the rest recursively with the sliced
   * settings. A rejection skips the rest and is what the promise rejects with.
   */
  function Cumulated<A, S, V>(animations: seq<A>, arg: LegSettings<S>, play: (A, Option<S>) -> Result<V>): (r: Run<A, S, V>)
    ensures |animations| == 0 <==> r.calls == []
    ensures |animations| == 0 ==> r.result == Err(Thrown(EmptyMessage))
    ensures |r.calls| <= |animations|
    decreases |animations|
  {
    var settings := LegSetting(arg, 0);
    if |animations| == 0 then Run([], Err(Thrown(EmptyMessage)))
    else if |animations| == 1 then Run([(animations[0], settings)], play(animations[0], settings))
    else
      var first := play(animations[0], settings);
      if first.Err? then Run([(animations[0], settings)], first)
      else
        var rest := Cumulated(animations[1..], Rest(arg), play);
        Run([(animations[0], settings)] + rest.calls, rest.result)
  }

  /** What each leg of cumulatedAnimations would yield if it were started. */
  function LegOutcomes<A, S, V>(animations: seq<A>, arg: LegSettings<S>, play: (A, Option<S>) -> Result<V>): (o: seq<Result<V>>)
    ensures |o| == |animations|
  {
    seq(|animations|, i requires 0 <= i < |animations| => play(animations[i], LegSetting(arg, i)))
  }

  /** The trace property of a non-empty chain, as CumulatedTrace states it. */
  ghost predicate Traced<A, S, V>(animations: seq<A>, arg: LegSettings<S>, play: (A, Option<S>) -> Result<V>)
    requires |animations| > 0
  {
    var r := Cumulated(animations, arg, play);
    var outcomes := LegOutcomes(animations, arg, play);
    && StopsAtFirstRejection(outcomes, |r.calls|)
    && (forall i :: 0 <= i < |r.calls| ==> r.calls[i] == (animations[i], LegSetting(arg, i)))
    && r.result == outcomes[|r.calls| - 1]
  }

  /**
   * The legs run in list order, leg `i` with the settings for `i`, each one
   * only after the previous one resolved; the overall result is the result
   * of the last leg started.
   */
  lemma {:induction false} CumulatedTrace<A, S, V>(animations: seq<A>, arg: LegSettings<S>, play: (A, Option<S>) -> Result<V>)
    requires |animations| > 0
    ensures var r := Cumulated(animations, arg, play);
            var outcomes := LegOutcomes(animations, arg, play);
            && StopsAtFirstRejection(outcomes, |r.calls|)
            && (forall i :: 0 <= i < |r.calls| ==> r.calls[i] == (animations[i], LegSetting(arg, i)))
            && r.result == outcomes[|r.calls| - 1]
    decreases |animations|
  {
    if |animations| == 1 || play(animations[0], LegSetting(arg, 0)).Err? {
      TraceFirstOnly(animations, arg, play);
    } else {
      CumulatedTrace(animations[1..], Rest(arg), play);
      TraceStep(animations, arg, play);
    }
    assert Traced(animations, arg, play);
  }

  /** A chain whose first leg is its only one, or rejects, starts just that leg. */
  lemma TraceFirstOnly<A, S, V>(animations: seq<A>, arg: LegSettings<S>, play: (A, Option<S>) -> Result<V>)
    requires |animations| > 0
    requires |animations| == 1 || play(animations[0], LegSetting(arg, 0)).Err?
    ensures Traced(animations, arg, play)
  {
    var r := Cumulated(animations, arg, play);
    var outcomes := LegOutcomes(animations, arg, play);
    assert r.calls == [(animations[0], LegSetting(arg, 0))];
    assert outcomes[0] == play(animations[0], LegSetting(arg, 0)) == r.result;
    assert StopsAtFirstRejection(outcomes, 1);
  }

  /** A first leg that resolves is followed by the trace of the rest, shifted by one. */
  lemma TraceStep<A, S, V>(animations: seq<A>, arg: LegSettings<S>, play: (A, Option<S>) -> Result<V>)
    requires |animations| > 1 && play(animations[0], LegSetting(arg, 0)).Ok?
    requires Traced(animations[1..], Rest(arg), play)
    ensures Traced(animations, arg, play)
  {
    var r := Cumulated(animations, arg, play);
    var outcomes := LegOutcomes(animations, arg, play);
    var tail := animations[1..];
    var rest := Cumulated(tail, Rest(arg), play);
    var later := LegOutcomes(tail, Rest(arg), play);
    assert r == Run([(animations[0], LegSetting(arg, 0))] + rest.calls, rest.result);
    OutcomesShift(animations, arg, play);
    forall i | 0 <= i < |rest.calls|
      ensures rest.calls[i] == (animations[i + 1], LegSetting(arg, i + 1))
    {
      RestShifts(arg, i);
    }
    var k := |rest.calls|;
    assert |r.calls| == k + 1;
    StopsShift(outcomes, later, k);
    assert StopsAtFirstRejection(outcomes, |r.calls|);
    assert r.result == later[k - 1] == outcomes[|r.calls| - 1];
    forall i | 0 <= i < |r.calls|
      ensures r.calls[i] == (animations[i], LegSetting(arg, i))
    {
      if i > 0 {
        assert r.calls[i] == rest.calls[i - 1];
      }
    }
  }

  /** The outcomes of the rest of the legs are the outcomes after the first. */
  lemma OutcomesShift<A, S, V>(animations: seq<A>, arg: LegSettings<S>, play: (A, Option<S>) -> Result<V>)
    requires |animations| > 0
    ensures var later := LegOutcomes(animations[1..], Rest(arg), play);
            var outcomes := LegOutcomes(animations, arg, play);
            forall i :: 0 <= i < |later| ==> later[i] == outcomes[i + 1]
  {
    var later := LegOutcomes(animations[1..], Rest(arg), play);
    forall i | 0 <= i < |later|
      ensures later[i] == LegOutcomes(animations, arg, play)[i + 1]
    {
      RestShifts(arg, i);
    }
  }

  /** A chain that stops after `k` legs of the tail, behind a first leg that resolved, stops after `k + 1`. */
  lemma StopsShift<V>(outcomes: seq<Result<V>>, later: seq<Result<V>>, k: nat)
    requires |outcomes| == |later| + 1 && |later| > 0 && outcomes[0].Ok?
    requires forall i :: 0 <= i < |later| ==> later[i] == outcomes[i + 1]
    requires StopsAtFirstRejection(later, k)
    ensures StopsAtFirstRejection(outcomes, k + 1)
  {
    forall i | 0 <= i < k
      ensures outcomes[i].Ok?
    {
      if i > 0 {
        assert outcomes[i] == later[i - 1];
      }
    }
  }

  /** A single settings value reaches every leg unchanged. */
  lemma CumulatedSharesSettings<A, S, V>(animations: seq<A>, settings: Option<S>, play: (A, Option<S>) -> Result<V>)
    requires |animations| > 0
    ensures var r := Cumulated(animations, Shared(settings), play);
            forall i :: 0 <= i < |r.calls| ==> r.calls[i].1 == settings
  {
    CumulatedTrace(animations, Shared(settings), play);
  }

  /** When every leg resolves, every animation is played, in order, and the last one's value is returned. */
  lemma CumulatedPlaysAll<A, S, V>(animations: seq<A>, arg: LegSettings<S>, play: (A, Option<S>) -> Result<V>)
    requires |animations| > 0
    requires forall i :: 0 <= i < |animations| ==> play(animations[i], LegSetting(arg, i)).Ok?
    ensures var r := Cumulated(animations, arg, play);
            && |r.calls| == |animations|
            && r.result == play(animations[|animations| - 1], LegSetting(arg, |animations| - 1))
  {
    CumulatedTrace(animations, arg, play);
    var r := Cumulated(animations, arg, play);
    var outcomes := LegOutcomes(animations, arg, play);
    assert forall i :: 0 <= i < |animations| ==> outcomes[i] == play(animations[i], LegSetting(arg, i));
    assert StopsAtFirstRejection(outcomes, |animations|);
    StopsUnique(outcomes, |r.calls|, |animations|);
  }

  // ----- playSequentially -----

  /** The indices of the animations started, and the promise the chain ends in. */
  datatype Chain<V> = Chain(invoked: seq<nat>, result: Result<Option<V>>)

  /** `.then(() => animation())`: the promise's value, now one that may be absent. */
  function Lift<V>(r: Result<V>): Result<Option<V>> {
    match r
    case Ok(v) => Ok(Some(v))
    case Err(e) => Err(e)
  }

  /**
   * playSequentially: a left fold from `Promise.resolve()`; each step starts
   * its animation once the promise so far resolved. An empty list resolves
   * with no value.
   */
  function Sequentially<F, V>(animations: seq<F>, run: F -> Result<V>): (r: Chain<V>)
    ensures |r.invoked| <= |animations|
    decreases |animations|
  {
    if |animations| == 0 then Chain([], Ok(None))
    else
      var prev := Sequentially(animations[..|animations| - 1], run);
      if prev.result.Err? then prev
      else Chain(prev.invoked + [|animations| - 1], Lift(run(animations[|animations| - 1])))
  }

  /**
   * Animation `k + 1` is started only after animation `k` resolved, in list
   * order; the chain's result is that of the last animation started (no
   * value for an empty list).
   */
  lemma {:induction false} SequentiallyTrace<F, V>(animations: seq<F>, run: F -> Result<V>)
    ensures var r := Sequentially(animations, run);
            var outcomes := seq(|animations|, i requires 0 <= i < |animations| => run(animations[i]));
            && StopsAtFirstRejection(outcomes, |r.invoked|)
            && (forall i :: 0 <= i < |r.invoked| ==> r.invoked[i] == i)
            && (|animations| == 0 ==> r.result == Ok(None))
            && (|animations| > 0 ==> r.result == Lift(outcomes[|r.invoked| - 1]))
    decreases |animations|
  {
    if |animations| > 0 {
      var n := |animations|;
      var outcomes := seq(n, i requires 0 <= i < n => run(animations[i]));
      var init := animations[..n - 1];
      var prev := Sequentially(init, run);
      SequentiallyTrace(init, run);
      var before := seq(n - 1, i requires 0 <= i < n - 1 => run(init[i]));
      assert forall i :: 0 <= i < n - 1 ==> before[i] == outcomes[i];
      var k := |prev.invoked|;
      if prev.result.Ok? && n > 1 {
        assert before[k - 1].Ok?;
        assert k == n - 1;
      }
    }
  }

  /**
   * playSequentially and cumulatedAnimations with one settings value start
   * the same animations and end with the same outcome.
   */
  lemma SequentiallyAgreesWithCumulated<A, S, V>(animations: seq<A>, settings: Option<S>,
                                                 play: (A, Option<S>) -> Result<V>, run: A -> Result<V>)
    requires |animations| > 0
    requires forall a :: run(a) == play(a, settings)
    ensures var c := Cumulated(animations, Shared(settings), play);
            var s := Sequentially(animations, run);
            |s.invoked| == |c.calls| && s.result == Lift(c.result)
  {
    var c := Cumulated(animations, Shared(settings), play);
    var s := Sequentially(animations, run);
    CumulatedTrace(animations, Shared(settings), play);
    SequentiallyTrace(animations, run);
    var outcomes := seq(|animations|, i requires 0 <= i < |animations| => run(animations[i]));
    var legs := LegOutcomes(animations, Shared(settings), play);
    forall i | 0 <= i < |animations|
      ensures outcomes[i] == legs[i]
    {
      assert legs[i] == play(animations[i], LegSetting(Shared(settings), i));
    }
    assert outcomes == legs;
    StopsUnique(outcomes, |s.invoked|, |c.calls|);
  }

  // ----- playParallel -----

  /** `Promise.all`: every value in order, or a rejection of one of them. */
  function All<V>(outcomes: seq<Result<V>>): (r: Result<seq<V>>)
    ensures r.Ok? <==> forall i :: 0 <= i < |outcomes| ==> outcomes[i].Ok?
    ensures r.Ok? ==> |r.value| == |outcomes| && forall i :: 0 <= i < |outcomes| ==> r.value[i] == outcomes[i].value
    ensures r.Err? ==> exists i :: 0 <= i < |outcomes| && outcomes[i] == Err(r.error)
    decreases |outcomes|
  {
    if |outcomes| == 0 then Ok([])
    else if outcomes[0].Err? then Err(outcomes[0].error)
    else
      var rest := All(outcomes[1..]);
      if rest.Err? then rest else Ok([outcomes[0].value] + rest.value)
  }

  /** playParallel: every animation is started at once with its index; the promise of all of them. */
  function Parallel<F, V>(animations: seq<F>, run: (F, nat) -> Result<V>): (r: Result<seq<V>>)
    ensures r.Ok? <==> forall i :: 0 <= i < |animations| ==> run(animations[i], i).Ok?
    ensures r.Ok? ==> |r.value| == |animations| &&
                      forall i :: 0 <= i < |animations| ==> r.value[i] == run(animations[i], i).value
    ensures r.Err? ==> exists i :: 0 <= i < |animations| && run(animations[i], i) == Err(r.error)
  {
    var outcomes := seq(|animations|, i requires 0 <= i < |animations| => run(animations[i], i));
    assert forall i :: 0 <= i < |animations| ==> outcomes[i] == run(animations[i], i);
    All(outcomes)
  }

  // ----- playInterval -----

  /**
   * playInterval: animation 0 is started at once, animation `i` at the
   * `i`-th tick of the interval; the tick after the last clears the interval
   * and waits for all of them. The promise resolves only when every
   * animation resolved: it never rejects, and a rejection leaves it pending
   * for ever. An empty list resolves at once. Returned: each start as
   * (index passed, time), and whether the promise ever settles.
   */
  method PlayInterval<F, V>(animations: seq<F>, interval: real, run: (F, nat) -> Result<V>)
    returns (starts: seq<(nat, real)>, settles: bool)
    ensures |starts| == |animations|
    ensures forall i :: 0 <= i < |starts| ==> starts[i].0 == i && starts[i].1 == i as real * interval
    ensures settles <==> Parallel(animations, run).Ok?
    ensures |animations| == 0 ==> settles
  {
    if |animations| == 0 {
      return [], true;
    }
    var index: nat := 0;
    var promises := [run(animations[index], index)];
    starts := [(index, 0.0)];
    index := index + 1;
    while index < |animations|
      invariant 1 <= index <= |animations|
      invariant |promises| == index && forall i :: 0 <= i < index ==> promises[i] == run(animations[i], i)
      invariant |starts| == index && forall i :: 0 <= i < index ==> starts[i].0 == i && starts[i].1 == i as real * interval
      decreases |animations| - index
    {
      promises := promises + [run(animations[index], index)];
      ghost var before := starts;
      starts := starts + [(index, index as real * interval)];
      assert forall i :: 0 <= i < index ==> starts[i] == before[i];
      index := index + 1;
    }
    var all := All(promises);
    assert promises == seq(|animations|, i requires 0 <= i < |animations| => run(animations[i], i));
    settles := all.Ok?;
  }
}
