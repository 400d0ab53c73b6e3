/**
 The public EMA features.  The query computes the averages over every raw row, NULLs
 included, but takes its lags over the non-NULL rows only; the reference indexes raw rows
 throughout.
 */
module EmaFeatures {
  import opened Common
  import opened Reals
  import opened Ema

  const SHORT: nat := 5
  const MIDDLE: nat := 9
  const LONG: nat := 21
  const LAG: nat := 3

  datatype Features = Features(
    distance5: Option<real>, distance9: Option<real>, distance21: Option<real>,
    spread: Option<real>, slope: Option<real>, cross: Option<real>)

  function EmaAt(levels: Levels, period: nat, k: nat): Option<real>
    requires period >= 1 && k < |levels|
  {
    StateAt(levels, period, false, k).ema
  }

  predicate Positive(level: Option<real>) {
    level.Some? && level.value > 0.0
  }

  /** level / NULLIF(ema, 0) - 1. */
  function Distance(level: Option<real>, ema: Option<real>): Option<real> {
    if Positive(level) && ema.Some? && ema.value != 0.0
    then Some(Ratio(level.value, ema.value) - 1.0) else None
  }

  function Spread(level: Option<real>, fast: Option<real>, slow: Option<real>): Option<real> {
    if Positive(level) && fast.Some? && slow.Some?
    then Some(Ratio(fast.value - slow.value, level.value)) else None
  }

  function Slope(level: Option<real>, now: Option<real>, lagged: Option<real>): Option<real> {
    if Positive(level) && now.Some? && lagged.Some?
    then Some(Ratio(now.value - lagged.value, 3.0 * level.value)) else None
  }

  function Cross(fast: real, slow: real, priorFast: real, priorSlow: real): real {
    if fast > slow && priorFast <= priorSlow then 1.0
    else if fast < slow && priorFast >= priorSlow then -1.0
    else 0.0
  }

  function CrossOf(fast: Option<real>, slow: Option<real>, priorFast: Option<real>, priorSlow: Option<real>): Option<real> {
    if fast.Some? && slow.Some? && priorFast.Some? && priorSlow.Some?
    then Some(Cross(fast.value, slow.value, priorFast.value, priorSlow.value)) else None
  }

  /* ---------- the query: lags over the kept rows ---------- */

  /** Raw positions of the non-NULL rows among the first n, ascending. */
  function Kept(levels: Levels, n: nat): (rows: seq<nat>)
    requires n <= |levels|
    ensures |rows| <= n
    ensures forall r :: 0 <= r < |rows| ==> rows[r] < n
  {
    if n == 0 then [] else Kept(levels, n - 1) + (if levels[n - 1].Some? then [n - 1] else [])
  }

  /** The kept rows are exactly the non-NULL ones, in order. */
  lemma {:induction false} KeptExact(levels: Levels, n: nat)
    requires n <= |levels|
    ensures forall k :: 0 <= k < n ==> (k in Kept(levels, n) <==> levels[k].Some?)
    ensures forall i, j :: 0 <= i < j < |Kept(levels, n)| ==> Kept(levels, n)[i] < Kept(levels, n)[j]
  {
    if n > 0 {
      KeptExact(levels, n - 1);
      var before := Kept(levels, n - 1);
      forall k | 0 <= k < n ensures k in Kept(levels, n) <==> levels[k].Some? {
        if k == n - 1 {
          assert k !in before;
          assert levels[k].Some? ==> Kept(levels, n)[|before|] == k;
        } else {
          assert k in Kept(levels, n) <==> k in before;
        }
      }
    }
  }

  function Lagged(levels: Levels, rows: seq<nat>, period: nat, r: nat, lag: nat): Option<real>
    requires period >= 1 && r < |rows| && forall i :: 0 <= i < |rows| ==> rows[i] < |levels|
  {
    if r < lag then None else EmaAt(levels, period, rows[r - lag])
  }

  /** The feature row of the r-th non-NULL level. */
  function QueryRow(levels: Levels, r: nat): Features
    requires r < |Kept(levels, |levels|)|
  {
    var rows := Kept(levels, |levels|);
    var level := levels[rows[r]];
    var e5, e9, e21 := EmaAt(levels, SHORT, rows[r]), EmaAt(levels, MIDDLE, rows[r]), EmaAt(levels, LONG, rows[r]);
    Features(
      Distance(level, e5), Distance(level, e9), Distance(level, e21), Spread(level, e5, e21),
      Slope(level, e9, Lagged(levels, rows, MIDDLE, r, LAG)),
      if Positive(level)
      then CrossOf(e5, e9, Lagged(levels, rows, SHORT, r, 1), Lagged(levels, rows, MIDDLE, r, 1)) else None)
  }

  /* ---------- the reference: lags over raw rows ---------- */

  function ReferenceRow(levels: Levels, k: nat): Features
    requires k < |levels|
  {
    var level := levels[k];
    var e5, e9, e21 := EmaAt(levels, SHORT, k), EmaAt(levels, MIDDLE, k), EmaAt(levels, LONG, k);
    Features(
      Distance(level, e5), Distance(level, e9), Distance(level, e21), Spread(level, e5, e21),
      if k >= LAG then Slope(level, e9, EmaAt(levels, MIDDLE, k - LAG)) else None,
      if k >= 1 then CrossOf(e5, e9, EmaAt(levels, SHORT, k - 1), EmaAt(levels, MIDDLE, k - 1)) else None)
  }

  /**
   The reference as the tests write it: averages first, then one pass over raw rows.  Its
   divisions by an average carry no zero check, and need none.
   */
  method IndependentEmaFeatures(levels: Levels) returns (features: seq<Features>)
    ensures |features| == |levels|
    ensures forall k :: 0 <= k < |levels| ==> features[k] == ReferenceRow(levels, k)
  {
    hide StateAt, Ratio, Cross;
    var ema5 := IndependentEma(levels, SHORT, false);
    var ema9 := IndependentEma(levels, MIDDLE, false);
    var ema21 := IndependentEma(levels, LONG, false);
    features := [];
    for i := 0 to |levels|
      invariant |features| == i
      invariant forall k :: 0 <= k < i ==> features[k] == ReferenceRow(levels, k)
    {
      AveragesPositive(levels, i);
      assert ema5[i] == EmaAt(levels, SHORT, i) && ema9[i] == EmaAt(levels, MIDDLE, i)
          && ema21[i] == EmaAt(levels, LONG, i);
      var level := levels[i];
      var distance5, distance9, distance21: Option<real> := None, None, None;
      var spread, slope, cross: Option<real> := None, None, None;
      if Positive(level) {
        if ema5[i].Some? { distance5 := Some(Ratio(level.value, ema5[i].value) - 1.0); }
        if ema9[i].Some? { distance9 := Some(Ratio(level.value, ema9[i].value) - 1.0); }
        if ema21[i].Some? {
          distance21 := Some(Ratio(level.value, ema21[i].value) - 1.0);
          if ema5[i].Some? { spread := Some(Ratio(ema5[i].value - ema21[i].value, level.value)); }
        }
        if i >= LAG && ema9[i].Some? && ema9[i - LAG].Some? {
          slope := Some(Ratio(ema9[i].value - ema9[i - LAG].value, 3.0 * level.value));
        }
      }
      if i > 0 && ema5[i].Some? && ema9[i].Some? && ema5[i - 1].Some? && ema9[i - 1].Some? {
        cross := Some(Cross(ema5[i].value, ema9[i].value, ema5[i - 1].value, ema9[i - 1].value));
      }
      features := features + [Features(distance5, distance9, distance21, spread, slope, cross)];
    }
  }

  lemma AveragesPositive(levels: Levels, k: nat)
    requires k < |levels|
    ensures EmaAt(levels, SHORT, k).Some? ==> EmaAt(levels, SHORT, k).value > 0.0
    ensures EmaAt(levels, MIDDLE, k).Some? ==> EmaAt(levels, MIDDLE, k).value > 0.0
    ensures EmaAt(levels, LONG, k).Some? ==> EmaAt(levels, LONG, k).value > 0.0
  {
    hide StateAt;
    if EmaAt(levels, SHORT, k).Some? { PriceEmaPositive(levels, SHORT, k); }
    if EmaAt(levels, MIDDLE, k).Some? { PriceEmaPositive(levels, MIDDLE, k); }
    if EmaAt(levels, LONG, k).Some? { PriceEmaPositive(levels, LONG, k); }
  }

  /* ---------- alignment ---------- */

  /** Counting back j kept rows inside a run of usable levels counts back j raw rows. */
  lemma {:induction false} KeptAligned(levels: Levels, n: nat, r: nat, j: nat)
    requires n <= |levels| && r < |Kept(levels, n)|
    requires j < RunLength(levels, false, Kept(levels, n)[r])
    ensures j <= r && j <= Kept(levels, n)[r]
    ensures Kept(levels, n)[r - j] == Kept(levels, n)[r] - j
  {
    var before := Kept(levels, n - 1);
    if r < |before| {
      KeptAligned(levels, n - 1, r, j);
    } else if j > 0 {
      var i := n - 1;
      assert Kept(levels, n)[r] == i;
      assert i > 0 && RunLength(levels, false, i - 1) == RunLength(levels, false, i) - 1 > 0;
      assert Kept(levels, n - 1) == Kept(levels, n - 2) + [n - 2];
      KeptAligned(levels, n - 1, r - 1, j - 1);
    }
  }

  /** A lag over kept rows is the same lag over raw rows whenever the run is long enough. */
  lemma LagAligned(levels: Levels, period: nat, r: nat, j: nat)
    requires period >= 1
    requires r < |Kept(levels, |levels|)| && j < RunLength(levels, false, Kept(levels, |levels|)[r])
    ensures j <= Kept(levels, |levels|)[r]
    ensures Lagged(levels, Kept(levels, |levels|), period, r, j) == EmaAt(levels, period, Kept(levels, |levels|)[r] - j)
  {
    hide StateAt;
    KeptAligned(levels, |levels|, r, j);
  }

  /** The query and the reference agree on every non-NULL row of every input. */
  lemma QueryMatchesReference(levels: Levels, r: nat)
    requires r < |Kept(levels, |levels|)|
    ensures QueryRow(levels, r) == ReferenceRow(levels, Kept(levels, |levels|)[r])
  {
    hide StateAt, Ratio, Cross;
    var k := Kept(levels, |levels|)[r];
    DefinedIff(levels, MIDDLE, false, k);
    if EmaAt(levels, MIDDLE, k).Some? {
      RunIsMaximal(levels, false, k);
      LagAligned(levels, MIDDLE, r, LAG);
      LagAligned(levels, MIDDLE, r, 1);
      LagAligned(levels, SHORT, r, 1);
    }
  }

  /* ---------- the values, over the levels of the current run ---------- */

  /** The average of the last rows of a run of values, by its weights. */
  lemma AverageValue(levels: Levels, period: nat, k: nat, j: nat)
    requires period >= 2 && k < |levels| && j < RunLength(levels, false, k)
    ensures j <= k
    ensures var run := RunValues(levels, false, k)[..RunLength(levels, false, k) - j];
            EmaAt(levels, period, k - j) == if |run| >= period then Some(Dot(EmaWeights(period, |run|), run)) else None
  {
    hide StateAt, Dot, EmaWeights, RunValues;
    RunPrefix(levels, false, k, j);
    RunEarlier(levels, false, k, j);
    DefinedIff(levels, period, false, k - j);
    if RunLength(levels, false, k - j) >= period {
      ClosedForm(levels, period, false, k - j);
    }
  }

  lemma NewestLevel(levels: Levels, k: nat)
    requires k < |levels| && RunLength(levels, false, k) >= 1
    ensures var run := RunValues(levels, false, k); levels[k] == Some(run[|run| - 1]) && run[|run| - 1] > 0.0
  {
  }

  /** The distances are level over average minus one, from the 5th, 9th and 21st level of a run on. */
  lemma DistanceValues(levels: Levels, k: nat)
    requires k < |levels| && RunLength(levels, false, k) >= 1
    ensures var run, row := RunValues(levels, false, k), ReferenceRow(levels, k);
            var m := |run|;
            && (m < 5 ==> row.distance5.None?) && (m < 9 ==> row.distance9.None?) && (m < 21 ==> row.distance21.None?)
            && (m >= 5 ==> var e := Dot(EmaWeights(5, m), run); e > 0.0 && row.distance5 == Some(run[m - 1] / e - 1.0))
            && (m >= 9 ==> var e := Dot(EmaWeights(9, m), run); e > 0.0 && row.distance9 == Some(run[m - 1] / e - 1.0))
            && (m >= 21 ==> var e := Dot(EmaWeights(21, m), run); e > 0.0 && row.distance21 == Some(run[m - 1] / e - 1.0))
  {
    hide StateAt, Dot, EmaWeights, RunValues, EmaAt;
    var run := RunValues(levels, false, k);
    assert run[..|run|] == run;
    AverageValue(levels, 5, k, 0);
    AverageValue(levels, 9, k, 0);
    AverageValue(levels, 21, k, 0);
    AveragesPositive(levels, k);
    NewestLevel(levels, k);
  }

  /** The spread is the 5-row average minus the 21-row one, over the level, from the 21st level on. */
  lemma SpreadValue(levels: Levels, k: nat)
    requires k < |levels| && RunLength(levels, false, k) >= 1
    ensures var run := RunValues(levels, false, k);
            var m := |run|;
            && run[m - 1] > 0.0
            && ReferenceRow(levels, k).spread
               == if m >= 21 then Some((Dot(EmaWeights(5, m), run) - Dot(EmaWeights(21, m), run)) / run[m - 1]) else None
  {
    hide StateAt, Dot, EmaWeights, RunValues, EmaAt, Distance, Slope, CrossOf;
    var run := RunValues(levels, false, k);
    assert run[..|run|] == run;
    AverageValue(levels, 5, k, 0);
    AverageValue(levels, 21, k, 0);
    NewestLevel(levels, k);
  }

  /** The slope is the change of the 9-row average over three rows, per row and over the level, from the 12th level on. */
  lemma SlopeValue(levels: Levels, k: nat)
    requires k < |levels| && RunLength(levels, false, k) >= 1
    ensures var run := RunValues(levels, false, k);
            var m := |run|;
            && run[m - 1] > 0.0
            && ReferenceRow(levels, k).slope
               == if m >= 12 then Some((Dot(EmaWeights(9, m), run) - Dot(EmaWeights(9, m - 3), run[..m - 3])) / (3.0 * run[m - 1]))
                  else None
  {
    hide StateAt, Dot, EmaWeights, RunValues, EmaAt, Distance, Spread, CrossOf;
    var run := RunValues(levels, false, k);
    assert run[..|run|] == run;
    AverageValue(levels, 9, k, 0);
    NewestLevel(levels, k);
    if |run| > 3 {
      AverageValue(levels, 9, k, 3);
    }
  }

  /**
   The crossover, from the 10th level of a run on: 1 where the 5-row average rises above the 9-row
   one, -1 where it falls below, 0 elsewhere.
   */
  lemma CrossValue(levels: Levels, k: nat)
    requires k < |levels| && RunLength(levels, false, k) >= 1
    ensures var run := RunValues(levels, false, k);
            var m := |run|;
            if m < 10 then ReferenceRow(levels, k).cross.None?
            else
              var above := Dot(EmaWeights(5, m), run) - Dot(EmaWeights(9, m), run);
              var before := Dot(EmaWeights(5, m - 1), run[..m - 1]) - Dot(EmaWeights(9, m - 1), run[..m - 1]);
              ReferenceRow(levels, k).cross
              == Some(if above > 0.0 && before <= 0.0 then 1.0 else if above < 0.0 && before >= 0.0 then -1.0 else 0.0)
  {
    hide StateAt, Dot, EmaWeights, RunValues, EmaAt, Distance, Spread, Slope;
    var run := RunValues(levels, false, k);
    assert run[..|run|] == run;
    AverageValue(levels, 5, k, 0);
    AverageValue(levels, 9, k, 0);
    if |run| > 1 {
      AverageValue(levels, 5, k, 1);
      AverageValue(levels, 9, k, 1);
    }
  }
}
