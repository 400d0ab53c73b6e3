/**
 Wilder's relative strength index over the non-NULL levels of one series, in the
 step-machine form the serving database evaluates.
 */
module Rsi {
  import opened Common
  import opened Reals
  import E = Ema

  /** Both the level and its predecessor exist and are positive. */
  predicate Comparable(xs: seq<real>, i: nat)
    requires i < |xs|
  {
    i >= 1 && xs[i] > 0.0 && xs[i - 1] > 0.0
  }

  function Gain(xs: seq<real>, i: nat): Option<real>
    requires i < |xs|
  {
    if Comparable(xs, i) then Some(Max(xs[i] - xs[i - 1], 0.0)) else None
  }

  function Loss(xs: seq<real>, i: nat): Option<real>
    requires i < |xs|
  {
    if Comparable(xs, i) then Some(Max(xs[i - 1] - xs[i], 0.0)) else None
  }

  datatype State = State(validCount: nat, gainSum: real, lossSum: real, avgGain: Option<real>, avgLoss: Option<real>)

  function OrZero(v: Option<real>): real {
    if v.Some? then v.value else 0.0
  }

  function Average(sum: real, period: nat): real
    requires period >= 1
  {
    Ratio(sum, period as real)
  }

  /** ((period - 1) * average + value) / period. */
  function Smooth(period: nat, average: real, value: real): real
    requires period >= 1
  {
    Ratio(Times((period - 1) as real, average) + value, period as real)
  }

  function FirstState(gain: Option<real>, loss: Option<real>): State {
    State(if gain.None? || loss.None? then 0 else 1, OrZero(gain), OrZero(loss), None, None)
  }

  function NextState(s: State, gain: Option<real>, loss: Option<real>, period: nat): State
    requires period >= 1
  {
    if gain.None? || loss.None? then State(0, 0.0, 0.0, None, None)
    else
      State(
        if s.avgGain.None? then (if s.validCount + 1 <= period then s.validCount + 1 else period) else period,
        if s.avgGain.None? then s.gainSum + gain.value else 0.0,
        if s.avgLoss.None? then s.lossSum + loss.value else 0.0,
        if s.avgGain.None? && s.validCount + 1 >= period then Some(Average(s.gainSum + gain.value, period))
        else if s.avgGain.Some? then Some(Smooth(period, s.avgGain.value, gain.value))
        else None,
        if s.avgLoss.None? && s.validCount + 1 >= period then Some(Average(s.lossSum + loss.value, period))
        else if s.avgLoss.Some? then Some(Smooth(period, s.avgLoss.value, loss.value))
        else None)
  }

  function StateAt(xs: seq<real>, period: nat, i: nat): State
    requires period >= 1 && i < |xs|
  {
    if i == 0 then FirstState(Gain(xs, 0), Loss(xs, 0))
    else NextState(StateAt(xs, period, i - 1), Gain(xs, i), Loss(xs, i), period)
  }

  /** 100 - 100 / (1 + gain / loss), with the two special cases of the query. */
  function Index(gain: real, loss: real): Option<real>
    requires gain >= 0.0 && loss >= 0.0
  {
    if gain == 0.0 && loss == 0.0 then None
    else if loss == 0.0 then Some(100.0)
    else
      RatioSign(gain, loss);
      Some(100.0 - Ratio(100.0, 1.0 + Ratio(gain, loss)))
  }

  /** The published column: observation numbers count from 1. */
  function RsiAt(xs: seq<real>, period: nat, i: nat): Option<real>
    requires period >= 1 && i < |xs|
  {
    if i + 1 < period + 1 then None else Unguarded(xs, period, i)
  }

  /** The same without the observation-number test. */
  function Unguarded(xs: seq<real>, period: nat, i: nat): Option<real>
    requires period >= 1 && i < |xs|
  {
    AveragesNonNegative(xs, period, i);
    var s := StateAt(xs, period, i);
    if s.avgGain.None? || s.avgLoss.None? then None else Index(s.avgGain.value, s.avgLoss.value)
  }

  lemma RatioSign(x: real, y: real)
    requires x >= 0.0 && y > 0.0
    ensures Ratio(x, y) >= 0.0
    ensures Ratio(x, y) == 0.0 <==> x == 0.0
  {
  }

  /* ---------- the two averages move together ---------- */

  predicate Sane(s: State) {
    && (s.avgGain.Some? <==> s.avgLoss.Some?)
    && s.gainSum >= 0.0 && s.lossSum >= 0.0
    && OrZero(s.avgGain) >= 0.0 && OrZero(s.avgLoss) >= 0.0
  }

  lemma SmoothSign(period: nat, average: real, value: real)
    requires period >= 1 && average >= 0.0 && value >= 0.0
    ensures Smooth(period, average, value) >= 0.0
    ensures period >= 2 ==> (Smooth(period, average, value) == 0.0 <==> average == 0.0 && value == 0.0)
  {
    hide Ratio;
    RatioSign(Times((period - 1) as real, average) + value, period as real);
    if period >= 2 {
      ProductZero((period - 1) as real, average);
    }
  }

  lemma ProductZero(n: real, x: real)
    requires n > 0.0 && x >= 0.0
    ensures Times(n, x) >= 0.0 && (Times(n, x) == 0.0 <==> x == 0.0)
  {
  }

  /** Average gain and average loss are NULL together and never negative. */
  lemma {:induction false} AveragesNonNegative(xs: seq<real>, period: nat, i: nat)
    requires period >= 1 && i < |xs|
    ensures Sane(StateAt(xs, period, i))
  {
    hide Ratio, Times, Smooth;
    if i > 0 {
      AveragesNonNegative(xs, period, i - 1);
      var s := StateAt(xs, period, i - 1);
      if Comparable(xs, i) {
        var g, l := Gain(xs, i).value, Loss(xs, i).value;
        if s.avgGain.Some? {
          SmoothSign(period, s.avgGain.value, g);
          SmoothSign(period, s.avgLoss.value, l);
        } else {
          RatioSign(s.gainSum + g, period as real);
          RatioSign(s.lossSum + l, period as real);
        }
      }
    }
  }

  /* ---------- when the index exists ---------- */

  /** Number of consecutive positive levels ending at observation i. */
  function PositiveRun(xs: seq<real>, i: nat): (m: nat)
    requires i < |xs|
    ensures m <= i + 1
  {
    if xs[i] <= 0.0 then 0 else if i == 0 then 1 else PositiveRun(xs, i - 1) + 1
  }

  /** All levels of the positive run ending at i are equal. */
  predicate Flat(xs: seq<real>, i: nat)
    requires i < |xs|
  {
    PositiveRun(xs, i) <= 1 || (xs[i] == xs[i - 1] && Flat(xs, i - 1))
  }

  lemma {:induction false} AveragesDefinedIff(xs: seq<real>, period: nat, i: nat)
    requires period >= 1 && i < |xs|
    ensures StateAt(xs, period, i).avgGain.Some? <==> PositiveRun(xs, i) >= period + 1
    ensures StateAt(xs, period, i).avgGain.None? ==>
              StateAt(xs, period, i).validCount == if PositiveRun(xs, i) == 0 then 0 else PositiveRun(xs, i) - 1
  {
    hide Ratio, Smooth;
    AveragesNonNegative(xs, period, i);
    if i > 0 {
      AveragesNonNegative(xs, period, i - 1);
      AveragesDefinedIff(xs, period, i - 1);
    }
  }

  /** The observation-number test never changes the result. */
  lemma GuardIsRedundant(xs: seq<real>, period: nat, i: nat)
    requires period >= 1 && i < |xs|
    ensures RsiAt(xs, period, i) == Unguarded(xs, period, i)
  {
    hide Ratio, StateAt;
    AveragesDefinedIff(xs, period, i);
  }

  /* ---------- value ---------- */

  lemma IndexValue(gain: real, loss: real)
    requires gain >= 0.0 && loss >= 0.0
    ensures Index(gain, loss).Some? <==> gain + loss > 0.0
    ensures gain + loss > 0.0 ==>
              Index(gain, loss).value == Ratio(100.0 * gain, gain + loss) && 0.0 <= Index(gain, loss).value <= 100.0
  {
    if gain + loss > 0.0 && loss > 0.0 {
      Quotients(gain, loss);
    }
    if gain + loss > 0.0 {
      PercentageExact(gain, gain + loss);
    }
  }

  lemma Quotients(gain: real, loss: real)
    requires gain >= 0.0 && loss > 0.0
    ensures 1.0 + gain / loss > 0.0
    ensures 100.0 - 100.0 / (1.0 + gain / loss) == (100.0 * gain) / (gain + loss)
  {
    var r, sum := gain / loss, gain + loss;
    assert r * loss == gain && r >= 0.0;
    var d := 1.0 + r;
    assert d * loss == sum;
    var q := 100.0 / d;
    assert q * d == 100.0;
    Cancel(q, d, loss, sum);
    assert (100.0 - q) * sum == 100.0 * sum - q * sum;
    DivideBack(100.0 - q, sum, 100.0 * gain);
  }

  lemma Cancel(q: real, d: real, loss: real, sum: real)
    requires q * d == 100.0 && d * loss == sum
    ensures q * sum == 100.0 * loss
  {
    assert q * (d * loss) == (q * d) * loss;
  }

  lemma DivideBack(q: real, d: real, n: real)
    requires d > 0.0 && q * d == n
    ensures q == n / d
  {
  }

  /** RSI is 100 * gain / (gain + loss) and lies in [0, 100] wherever it is defined. */
  lemma RsiInRange(xs: seq<real>, period: nat, i: nat)
    requires period >= 1 && i < |xs| && RsiAt(xs, period, i).Some?
    ensures var s := StateAt(xs, period, i);
            && s.avgGain.Some? && s.avgLoss.Some? && s.avgGain.value + s.avgLoss.value > 0.0
            && RsiAt(xs, period, i).value
               == Ratio(100.0 * s.avgGain.value, s.avgGain.value + s.avgLoss.value)
    ensures 0.0 <= RsiAt(xs, period, i).value <= 100.0
  {
    hide Ratio, StateAt;
    AveragesNonNegative(xs, period, i);
    var s := StateAt(xs, period, i);
    IndexValue(s.avgGain.value, s.avgLoss.value);
  }

  /* ---------- the averages, spelled out over the levels ---------- */

  /** The moves of the positive run ending at i: how far each level rose, and how far it fell. */
  ghost predicate Moves(xs: seq<real>, i: nat, rises: seq<real>, falls: seq<real>)
    requires i < |xs|
  {
    && |rises| == |falls| == PositiveRun(xs, i) - 1
    && forall k :: 0 <= k < |rises| ==>
         var j := i - |rises| + 1 + k;
         && rises[k] == (if xs[j] > xs[j - 1] then xs[j] - xs[j - 1] else 0.0)
         && falls[k] == (if xs[j] < xs[j - 1] then xs[j - 1] - xs[j] else 0.0)
  }

  lemma MovesBefore(xs: seq<real>, i: nat, rises: seq<real>, falls: seq<real>)
    requires i < |xs| && Moves(xs, i, rises, falls) && rises != []
    ensures i > 0 && Comparable(xs, i) && PositiveRun(xs, i - 1) == PositiveRun(xs, i) - 1
    ensures Moves(xs, i - 1, rises[..|rises| - 1], falls[..|falls| - 1])
    ensures Gain(xs, i) == Some(rises[|rises| - 1]) && Loss(xs, i) == Some(falls[|falls| - 1])
  {
    assert PositiveRun(xs, i - 1) >= 1;
    var n := |rises| - 1;
    var j := i - |rises| + 1 + n;
    assert j == i;
    forall k | 0 <= k < n
      ensures var j := (i - 1) - n + 1 + k;
              && rises[..n][k] == (if xs[j] > xs[j - 1] then xs[j] - xs[j - 1] else 0.0)
              && falls[..n][k] == (if xs[j] < xs[j - 1] then xs[j - 1] - xs[j] else 0.0)
    {
      assert (i - 1) - n + 1 + k == i - |rises| + 1 + k;
    }
  }

  lemma SmoothIsBlend(period: nat, average: real, value: real)
    requires period >= 1
    ensures Smooth(period, average, value) == E.Blend(1.0 / period as real, value, average)
  {
    var p := period as real;
    MulDiv(1.0, value, p);
    assert ((p - 1.0) * average + value) / p == (1.0 - 1.0 / p) * average + (1.0 / p) * value by {
      var q := 1.0 / p;
      assert q * p == 1.0;
      DivideBack((1.0 - q) * average + q * value, p, (p - 1.0) * average + value) by {
        assert ((1.0 - q) * average + q * value) * p == (p - q * p) * average + (q * p) * value;
      }
    }
  }

  /** Before the seed completes the machine holds the plain sums of rises and falls. */
  lemma {:induction false} SumsOfMoves(xs: seq<real>, period: nat, i: nat, rises: seq<real>, falls: seq<real>)
    requires period >= 1 && i < |xs| && Moves(xs, i, rises, falls) && |rises| < period
    ensures StateAt(xs, period, i).gainSum == Sum(rises) && StateAt(xs, period, i).lossSum == Sum(falls)
  {
    hide Ratio, Smooth, Average;
    AveragesDefinedIff(xs, period, i);
    if rises != [] {
      MovesBefore(xs, i, rises, falls);
      SumsOfMoves(xs, period, i - 1, rises[..|rises| - 1], falls[..|falls| - 1]);
      AveragesDefinedIff(xs, period, i - 1);
      AveragesNonNegative(xs, period, i - 1);
    } else {
      NoMoveNoSum(xs, period, i);
    }
  }

  lemma NoMoveNoSum(xs: seq<real>, period: nat, i: nat)
    requires period >= 1 && i < |xs| && PositiveRun(xs, i) == 1
    ensures StateAt(xs, period, i).gainSum == 0.0 && StateAt(xs, period, i).lossSum == 0.0
  {
    assert Gain(xs, i).None? by {
      if i > 0 && xs[i - 1] > 0.0 {
        assert PositiveRun(xs, i - 1) >= 1;
      }
    }
  }

  /**
   The averages over the levels alone: after exactly `period` moves the plain means of the rises
   and of the falls; each later move enters with weight 1/period and scales what came before by
   1 - 1/period.
   */
  lemma {:induction false} AveragesClosedForm(xs: seq<real>, period: nat, i: nat, rises: seq<real>, falls: seq<real>)
    requires period >= 1 && i < |xs| && Moves(xs, i, rises, falls) && |rises| >= period
    ensures var share := 1.0 / period as real;
            && StateAt(xs, period, i).avgGain == Some(E.Dot(E.Weights(share, share, period, |rises|), rises))
            && StateAt(xs, period, i).avgLoss == Some(E.Dot(E.Weights(share, share, period, |rises|), falls))
  {
    hide Ratio, Smooth, Average, Times, E.Dot, E.Weights, Moves;
    MovesLengths(xs, i, rises, falls);
    MovesBefore(xs, i, rises, falls);
    var n := |rises| - 1;
    var share := 1.0 / period as real;
    assert rises == rises[..n] + [rises[n]] && falls == falls[..n] + [falls[n]];
    AveragesDefinedIff(xs, period, i - 1);
    AveragesNonNegative(xs, period, i - 1);
    var s := StateAt(xs, period, i - 1);
    if n >= period {
      AveragesClosedForm(xs, period, i - 1, rises[..n], falls[..n]);
      SmoothIsBlend(period, s.avgGain.value, rises[n]);
      SmoothIsBlend(period, s.avgLoss.value, falls[n]);
      E.SmoothingStep(share, share, period, rises[..n], rises[n]);
      E.SmoothingStep(share, share, period, falls[..n], falls[n]);
    } else {
      SumsOfMoves(xs, period, i - 1, rises[..n], falls[..n]);
      E.SeedCompletes(share, period, rises[..n], rises[n]);
      E.SeedCompletes(share, period, falls[..n], falls[n]);
      AverageIsMean(s.gainSum + rises[n], period);
      AverageIsMean(s.lossSum + falls[n], period);
    }
  }

  lemma MovesLengths(xs: seq<real>, i: nat, rises: seq<real>, falls: seq<real>)
    requires i < |xs| && Moves(xs, i, rises, falls)
    ensures |rises| == |falls| == PositiveRun(xs, i) - 1
  {
  }

  lemma AverageIsMean(sum: real, period: nat)
    requires period >= 1
    ensures Average(sum, period) == E.Mean(sum, period)
  {
  }

  /** Each weight spelled out: the seed moves share 1/period, and every later move ages the ones before it. */
  lemma WilderWeight(period: nat, n: nat, i: nat)
    requires 1 <= period <= n && i < n
    ensures E.Weights(1.0 / period as real, 1.0 / period as real, period, n)[i]
            == E.Power(1.0 - 1.0 / period as real, if i < period then n - period else n - 1 - i) * (1.0 / period as real)
  {
    hide E.Weights, E.Power;
    E.WeightFormula(1.0 / period as real, 1.0 / period as real, period, n, i);
  }

  /** The index from the levels alone: 100 times the averaged rises over the averaged rises and falls. */
  lemma RsiClosedForm(xs: seq<real>, period: nat, i: nat, rises: seq<real>, falls: seq<real>)
    requires period >= 1 && i < |xs| && Moves(xs, i, rises, falls) && |rises| >= period
    ensures var ws := E.Weights(1.0 / period as real, 1.0 / period as real, period, |rises|);
            var up, down := E.Dot(ws, rises), E.Dot(ws, falls);
            && up >= 0.0 && down >= 0.0
            && RsiAt(xs, period, i) == if up + down > 0.0 then Some(100.0 * up / (up + down)) else None
  {
    hide StateAt, E.Dot, E.Weights, Moves;
    AveragesClosedForm(xs, period, i, rises, falls);
    AveragesNonNegative(xs, period, i);
    GuardIsRedundant(xs, period, i);
    var s := StateAt(xs, period, i);
    IndexValue(s.avgGain.value, s.avgLoss.value);
  }

  /* ---------- the ends of the scale ---------- */

  /** No level of the positive run ending at i is below the one before it. */
  ghost predicate NeverFalls(xs: seq<real>, i: nat)
    requires i < |xs|
  {
    forall j :: i - PositiveRun(xs, i) + 1 < j <= i ==> xs[j - 1] <= xs[j]
  }

  ghost predicate NeverRises(xs: seq<real>, i: nat)
    requires i < |xs|
  {
    forall j :: i - PositiveRun(xs, i) + 1 < j <= i ==> xs[j] <= xs[j - 1]
  }

  lemma NeverStep(xs: seq<real>, i: nat)
    requires 0 < i < |xs| && Comparable(xs, i)
    ensures NeverFalls(xs, i) <==> NeverFalls(xs, i - 1) && xs[i - 1] <= xs[i]
    ensures NeverRises(xs, i) <==> NeverRises(xs, i - 1) && xs[i] <= xs[i - 1]
  {
    assert PositiveRun(xs, i) == PositiveRun(xs, i - 1) + 1 && PositiveRun(xs, i - 1) >= 1;
  }

  lemma NeverTrivial(xs: seq<real>, i: nat)
    requires i < |xs| && PositiveRun(xs, i) <= 1
    ensures NeverFalls(xs, i) && NeverRises(xs, i)
  {
  }

  /** The gain side vanishes exactly without a rise, the loss side exactly without a fall. */
  lemma {:induction false} SidesTracked(xs: seq<real>, period: nat, i: nat)
    requires period >= 2 && i < |xs|
    ensures var s := StateAt(xs, period, i);
            if s.avgGain.None? then (s.gainSum == 0.0 <==> NeverRises(xs, i)) && (s.lossSum == 0.0 <==> NeverFalls(xs, i))
            else s.avgLoss.Some? && (s.avgGain.value == 0.0 <==> NeverRises(xs, i)) && (s.avgLoss.value == 0.0 <==> NeverFalls(xs, i))
  {
    hide Ratio, Times, Smooth, NeverFalls, NeverRises;
    AveragesNonNegative(xs, period, i);
    AveragesDefinedIff(xs, period, i);
    if !Comparable(xs, i) {
      RunOfOne(xs, i);
      NeverTrivial(xs, i);
    } else {
      AveragesNonNegative(xs, period, i - 1);
      AveragesDefinedIff(xs, period, i - 1);
      SidesTracked(xs, period, i - 1);
      NeverStep(xs, i);
      var s := StateAt(xs, period, i - 1);
      var g, l := Gain(xs, i).value, Loss(xs, i).value;
      if s.avgGain.Some? {
        SmoothSign(period, s.avgGain.value, g);
        SmoothSign(period, s.avgLoss.value, l);
      } else {
        RatioSign(s.gainSum + g, period as real);
        RatioSign(s.lossSum + l, period as real);
      }
    }
  }

  lemma RunOfOne(xs: seq<real>, i: nat)
    requires i < |xs| && !Comparable(xs, i)
    ensures PositiveRun(xs, i) <= 1
  {
  }

  lemma {:induction false} FlatIsBoth(xs: seq<real>, i: nat)
    requires i < |xs|
    ensures Flat(xs, i) <==> NeverRises(xs, i) && NeverFalls(xs, i)
  {
    hide NeverFalls, NeverRises;
    if Comparable(xs, i) {
      NeverStep(xs, i);
      FlatIsBoth(xs, i - 1);
    } else {
      RunOfOne(xs, i);
      NeverTrivial(xs, i);
    }
  }

  /** The index exists exactly after period + 1 consecutive positive levels that are not all equal. */
  lemma RsiDefinedIff(xs: seq<real>, period: nat, i: nat)
    requires period >= 2 && i < |xs|
    ensures RsiAt(xs, period, i).Some? <==> PositiveRun(xs, i) >= period + 1 && !Flat(xs, i)
  {
    hide Ratio, StateAt, NeverFalls, NeverRises;
    AveragesNonNegative(xs, period, i);
    AveragesDefinedIff(xs, period, i);
    SidesTracked(xs, period, i);
    FlatIsBoth(xs, i);
  }

  /** The index is 100 exactly on long enough runs that rise and never fall, 0 exactly on those that fall and never rise. */
  lemma ScaleEnds(xs: seq<real>, period: nat, i: nat)
    requires period >= 2 && i < |xs|
    ensures RsiAt(xs, period, i) == Some(100.0)
            <==> PositiveRun(xs, i) >= period + 1 && NeverFalls(xs, i) && !NeverRises(xs, i)
    ensures RsiAt(xs, period, i) == Some(0.0)
            <==> PositiveRun(xs, i) >= period + 1 && NeverRises(xs, i) && !NeverFalls(xs, i)
  {
    hide StateAt, NeverFalls, NeverRises, Ratio;
    AveragesNonNegative(xs, period, i);
    AveragesDefinedIff(xs, period, i);
    SidesTracked(xs, period, i);
    GuardIsRedundant(xs, period, i);
    var s := StateAt(xs, period, i);
    if s.avgGain.Some? {
      EndsOfShare(s.avgGain.value, s.avgLoss.value);
    }
  }

  lemma EndsOfShare(gain: real, loss: real)
    requires gain >= 0.0 && loss >= 0.0
    ensures Index(gain, loss) == Some(100.0) <==> loss == 0.0 && gain > 0.0
    ensures Index(gain, loss) == Some(0.0) <==> gain == 0.0 && loss > 0.0
  {
    IndexValue(gain, loss);
    if gain + loss > 0.0 {
      var q := (100.0 * gain) / (gain + loss);
      assert q * (gain + loss) == 100.0 * gain;
    }
  }

  /* ---------- scale invariance ---------- */

  function ScaledOption(c: real, v: Option<real>): Option<real> {
    if v.Some? then Some(Times(c, v.value)) else None
  }

  function ScaledState(c: real, s: State): State {
    State(s.validCount, Times(c, s.gainSum), Times(c, s.lossSum),
          ScaledOption(c, s.avgGain), ScaledOption(c, s.avgLoss))
  }

  lemma MovesScale(c: real, x: real, y: real)
    requires c > 0.0
    ensures Times(c, x) > 0.0 <==> x > 0.0
    ensures Max(Times(c, x) - Times(c, y), 0.0) == Times(c, Max(x - y, 0.0))
  {
    if x >= y {
      assert c * (x - y) >= 0.0;
    } else {
      assert c * (y - x) > 0.0;
    }
  }

  lemma GainsScale(c: real, xs: seq<real>, i: nat)
    requires c > 0.0 && i < |xs|
    ensures Gain(Scaled(c, xs), i) == ScaledOption(c, Gain(xs, i))
    ensures Loss(Scaled(c, xs), i) == ScaledOption(c, Loss(xs, i))
  {
    hide Times, Max, Scaled;
    ScaledAt(c, xs, i);
    if i > 0 {
      ScaledAt(c, xs, i - 1);
      MovesScale(c, xs[i], xs[i - 1]);
      MovesScale(c, xs[i - 1], xs[i]);
    }
  }

  lemma SmoothScales(c: real, period: nat, average: real, value: real)
    requires period >= 1
    ensures Smooth(period, Times(c, average), Times(c, value)) == Times(c, Smooth(period, average, value))
    ensures Average(Times(c, value), period) == Times(c, Average(value, period))
  {
    var p := period as real;
    MulDiv(c, (p - 1.0) * average + value, p);
    MulDiv(c, value, p);
    assert (p - 1.0) * (c * average) + c * value == c * ((p - 1.0) * average + value);
  }

  lemma MulDiv(c: real, x: real, d: real)
    requires d > 0.0
    ensures (c * x) / d == c * (x / d)
  {
  }

  lemma NextScales(c: real, s: State, gain: Option<real>, loss: Option<real>, period: nat)
    requires c > 0.0 && period >= 1
    ensures NextState(ScaledState(c, s), ScaledOption(c, gain), ScaledOption(c, loss), period)
         == ScaledState(c, NextState(s, gain, loss, period))
  {
    hide Times, Smooth, Average, Ratio;
    TimesOne(c);
    if gain.Some? && loss.Some? {
      TimesAdd(c, s.gainSum, gain.value);
      TimesAdd(c, s.lossSum, loss.value);
      SmoothScales(c, period, OrZero(s.avgGain), gain.value);
      SmoothScales(c, period, OrZero(s.avgLoss), loss.value);
      SmoothScales(c, period, 0.0, s.gainSum + gain.value);
      SmoothScales(c, period, 0.0, s.lossSum + loss.value);
    }
  }

  lemma {:induction false} StatesScale(c: real, xs: seq<real>, period: nat, i: nat)
    requires c > 0.0 && period >= 1 && i < |xs|
    ensures StateAt(Scaled(c, xs), period, i) == ScaledState(c, StateAt(xs, period, i))
  {
    hide Times, NextState, Gain, Loss, Scaled;
    GainsScale(c, xs, i);
    if i == 0 {
      assert Gain(xs, 0).None? && Loss(xs, 0).None? by { FirstHasNoGain(xs); }
      TimesOne(c);
    } else {
      StatesScale(c, xs, period, i - 1);
      NextScales(c, StateAt(xs, period, i - 1), Gain(xs, i), Loss(xs, i), period);
    }
  }

  lemma FirstHasNoGain(xs: seq<real>)
    requires xs != []
    ensures Gain(xs, 0).None? && Loss(xs, 0).None?
  {
  }

  lemma IndexScales(c: real, gain: real, loss: real)
    requires c > 0.0 && gain >= 0.0 && loss >= 0.0
    ensures Times(c, gain) >= 0.0 && Times(c, loss) >= 0.0
    ensures Index(Times(c, gain), Times(c, loss)) == Index(gain, loss)
  {
    assert Times(c, loss) == 0.0 <==> loss == 0.0;
    assert Times(c, gain) == 0.0 <==> gain == 0.0;
    if loss > 0.0 {
      var r := gain / loss;
      assert r * (c * loss) == c * (r * loss) == c * gain;
      DivideBack(r, c * loss, c * gain);
    }
  }

  /** Quoting a series in another positive unit leaves its RSI unchanged. */
  lemma RsiScaleInvariant(c: real, xs: seq<real>, period: nat, i: nat)
    requires c > 0.0 && period >= 1 && i < |xs|
    ensures RsiAt(Scaled(c, xs), period, i) == RsiAt(xs, period, i)
  {
    hide Times, Ratio, StateAt, Scaled, Index;
    AveragesNonNegative(xs, period, i);
    StatesScale(c, xs, period, i);
    var s := StateAt(xs, period, i);
    if s.avgGain.Some? {
      IndexScales(c, s.avgGain.value, s.avgLoss.value);
    }
  }
}
