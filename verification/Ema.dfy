/**
 The SMA-seeded exponential moving average that the serving database computes by a
 recursive query, against the reference loop the parity tests use.

 A level is NULL or a real number.  A level that is NULL (or, in the price form, not
 positive) resets both machines.
 */
module Ema {
  import opened Common
  import opened Reals

  type Levels = seq<Option<real>>

  /** A level that continues a run; the signed form is the one used over the MACD line. */
  predicate Usable(v: Option<real>, signed: bool) {
    v.Some? && (signed || v.value > 0.0)
  }

  function Alpha(period: nat): real {
    2.0 / (period as real + 1.0)
  }

  /** The arithmetic mean that seeds a run. */
  function Mean(total: real, period: nat): real
    requires period >= 1
  {
    total / period as real
  }

  /** One exponential step. */
  function Blend(a: real, x: real, previous: real): real {
    Times(a, x) + Times(1.0 - a, previous)
  }

  /* ---------- the generated recursive query ---------- */

  datatype State = State(seedCount: nat, seedSum: real, ema: Option<real>)

  /** The non-recursive term: the first row never carries an average. */
  function FirstState(v: Option<real>, signed: bool): State {
    if Usable(v, signed) then State(1, v.value, None) else State(0, 0.0, None)
  }

  /** The recursive term. */
  function NextState(s: State, v: Option<real>, period: nat, signed: bool): State
    requires period >= 1
  {
    if !Usable(v, signed) then State(0, 0.0, None)
    else if s.ema.Some? then
      State(period, 0.0, Some(Blend(Alpha(period), v.value, s.ema.value)))
    else
      State(s.seedCount + 1, s.seedSum + v.value,
            if s.seedCount + 1 >= period then Some(Mean(s.seedSum + v.value, period)) else None)
  }

  function StateAt(levels: Levels, period: nat, signed: bool, k: nat): State
    requires period >= 1 && k < |levels|
  {
    if k == 0 then FirstState(levels[0], signed)
    else NextState(StateAt(levels, period, signed, k - 1), levels[k], period, signed)
  }

  /** The `ema` column of the query, one entry per input row. */
  function Column(levels: Levels, period: nat, signed: bool): seq<Option<real>>
    requires period >= 1
  {
    seq(|levels|, k requires 0 <= k < |levels| => StateAt(levels, period, signed, k).ema)
  }

  /* ---------- the reference loop ---------- */

  datatype Buffer = Buffer(seed: seq<real>, current: Option<real>)

  function Absorb(b: Buffer, v: Option<real>, period: nat, signed: bool): Buffer
    requires period >= 1
  {
    if !Usable(v, signed) then Buffer([], None)
    else if b.current.None? then
      var seed := b.seed + [v.value];
      if |seed| == period then Buffer([], Some(Mean(Sum(seed), period))) else Buffer(seed, None)
    else
      Buffer(b.seed, Some(Blend(Alpha(period), v.value, b.current.value)))
  }

  function BufferAfter(levels: Levels, period: nat, signed: bool, n: nat): Buffer
    requires period >= 1 && n <= |levels|
  {
    if n == 0 then Buffer([], None)
    else Absorb(BufferAfter(levels, period, signed, n - 1), levels[n - 1], period, signed)
  }

  function Reference(levels: Levels, period: nat, signed: bool): seq<Option<real>>
    requires period >= 1
  {
    seq(|levels|, k requires 0 <= k < |levels| => BufferAfter(levels, period, signed, k + 1).current)
  }

  /** The reference as the tests write it: one pass that appends to and clears `seed`. */
  method IndependentEma(levels: Levels, period: nat, signed: bool) returns (result: seq<Option<real>>)
    requires period >= 1
    ensures result == Reference(levels, period, signed)
    ensures period >= 2 ==> result == Column(levels, period, signed)
  {
    hide Times, Alpha, Mean;
    var seed: seq<real>, current: Option<real> := [], None;
    result := [];
    for i := 0 to |levels|
      invariant |result| == i
      invariant Buffer(seed, current) == BufferAfter(levels, period, signed, i)
      invariant forall k :: 0 <= k < i ==> result[k] == Reference(levels, period, signed)[k]
    {
      var level := levels[i];
      assert BufferAfter(levels, period, signed, i + 1) == Absorb(Buffer(seed, current), level, period, signed);
      if !Usable(level, signed) {
        seed, current := [], None;
        result := result + [None];
        continue;
      }
      if current.None? {
        seed := seed + [level.value];
        if |seed| == period {
          current := Some(Mean(Sum(seed), period));
          seed := [];
        }
      } else {
        current := Some(Blend(Alpha(period), level.value, current.value));
      }
      result := result + [current];
    }
    if period >= 2 {
      QueryRefinesReference(levels, period, signed);
    }
  }

  /* ---------- refinement ---------- */

  lemma SumAppend(s: seq<real>, x: real)
    ensures Sum(s + [x]) == Sum(s) + x
  {
    assert (s + [x])[..|s|] == s;
  }

  predicate Matches(s: State, b: Buffer, period: nat) {
    && s.ema == b.current
    && (b.current.Some? ==> b.seed == [])
    && (b.current.None? ==> s.seedCount == |b.seed| < period && s.seedSum == Sum(b.seed))
  }

  lemma StepsMatch(s: State, b: Buffer, v: Option<real>, period: nat, signed: bool)
    requires period >= 2 && Matches(s, b, period)
    ensures Matches(NextState(s, v, period, signed), Absorb(b, v, period, signed), period)
  {
    if Usable(v, signed) && b.current.None? {
      SumAppend(b.seed, v.value);
    }
  }

  lemma {:induction false} StatesMatch(levels: Levels, period: nat, signed: bool, k: nat)
    requires period >= 2 && k < |levels|
    ensures Matches(StateAt(levels, period, signed, k), BufferAfter(levels, period, signed, k + 1), period)
  {
    if k == 0 {
      assert BufferAfter(levels, period, signed, 0) == Buffer([], None);
      SumAppend([], if levels[0].Some? then levels[0].value else 0.0);
      assert [] + [0.0] == [0.0];
    } else {
      StatesMatch(levels, period, signed, k - 1);
      StepsMatch(StateAt(levels, period, signed, k - 1), BufferAfter(levels, period, signed, k), levels[k],
                 period, signed);
    }
  }

  /** The recursive query and the reference loop agree on every row of every input. */
  lemma QueryRefinesReference(levels: Levels, period: nat, signed: bool)
    requires period >= 2
    ensures Column(levels, period, signed) == Reference(levels, period, signed)
  {
    forall k | 0 <= k < |levels|
      ensures Column(levels, period, signed)[k] == Reference(levels, period, signed)[k]
    {
      StatesMatch(levels, period, signed, k);
    }
  }

  /** Period 1 is the one period for which they differ: the query skips the first row. */
  lemma AgreementNeedsPeriodTwo(period: nat, signed: bool)
    requires period >= 1
    ensures (forall levels: Levels :: Column(levels, period, signed) == Reference(levels, period, signed))
            <==> period >= 2
  {
    if period >= 2 {
      forall levels: Levels
        ensures Column(levels, period, signed) == Reference(levels, period, signed)
      {
        QueryRefinesReference(levels, period, signed);
      }
    } else {
      PeriodOneDiffers(signed);
    }
  }

  lemma PeriodOneDiffers(signed: bool)
    ensures Column([Some(1.0)], 1, signed) == [None]
    ensures Reference([Some(1.0)], 1, signed)[0] != None
  {
    hide Times, Alpha, Mean, Sum;
    var levels: Levels := [Some(1.0)];
    assert BufferAfter(levels, 1, signed, 0) == Buffer([], None);
    assert BufferAfter(levels, 1, signed, 1) == Absorb(Buffer([], None), Some(1.0), 1, signed);
  }

  /* ---------- when an average exists ---------- */

  /** Length of the unbroken run of usable levels ending at row k. */
  function RunLength(levels: Levels, signed: bool, k: nat): (m: nat)
    requires k < |levels|
    ensures m <= k + 1
  {
    if !Usable(levels[k], signed) then 0
    else if k == 0 then 1
    else RunLength(levels, signed, k - 1) + 1
  }

  /** The run is all usable and is stopped by an unusable row or the start of the input. */
  lemma {:induction false} RunIsMaximal(levels: Levels, signed: bool, k: nat)
    requires k < |levels|
    ensures var m := RunLength(levels, signed, k);
            && (forall j :: k - m < j <= k ==> Usable(levels[j], signed))
            && (m <= k ==> !Usable(levels[k - m], signed))
  {
    if k > 0 {
      RunIsMaximal(levels, signed, k - 1);
    }
  }

  /** If the run reaches back past row k - j, it had length m - j there. */
  lemma {:induction false} RunEarlier(levels: Levels, signed: bool, k: nat, j: nat)
    requires k < |levels| && j < RunLength(levels, signed, k)
    ensures j <= k && RunLength(levels, signed, k - j) == RunLength(levels, signed, k) - j
  {
    if j > 0 {
      RunEarlier(levels, signed, k, j - 1);
    }
  }

  /** An average is emitted exactly from the period-th row of a run on. */
  lemma {:induction false} DefinedIff(levels: Levels, period: nat, signed: bool, k: nat)
    requires period >= 2 && k < |levels|
    ensures StateAt(levels, period, signed, k).ema.Some? <==> RunLength(levels, signed, k) >= period
    ensures StateAt(levels, period, signed, k).ema.None? ==>
              StateAt(levels, period, signed, k).seedCount == RunLength(levels, signed, k)
  {
    hide Times, Alpha, Mean;
    if k > 0 {
      DefinedIff(levels, period, signed, k - 1);
    }
  }

  /* ---------- closed form ---------- */

  function Power(b: real, n: nat): real {
    if n == 0 then 1.0 else Times(b, Power(b, n - 1))
  }

  function Repeat(c: real, n: nat): (r: seq<real>)
    ensures |r| == n
    ensures forall i :: 0 <= i < n ==> r[i] == c
  {
    if n == 0 then [] else Repeat(c, n - 1) + [c]
  }

  /**
   The weights of a run of length m >= period, oldest level first: `c` for each seed level,
   scaled by 1 - a for every later level, which itself enters with weight `a`.
   */
  function Weights(a: real, c: real, period: nat, m: nat): (ws: seq<real>)
    requires m >= period
    ensures |ws| == m
  {
    if m == period then Repeat(c, period) else Scaled(1.0 - a, Weights(a, c, period, m - 1)) + [a]
  }

  /** The weights the recursion produces: smoothing 2/(p+1) and seed share 1/p. */
  function EmaWeights(period: nat, m: nat): (ws: seq<real>)
    requires 1 <= period <= m
    ensures |ws| == m
  {
    Weights(Alpha(period), 1.0 / period as real, period, m)
  }

  function Dot(ws: seq<real>, xs: seq<real>): real
    requires |ws| == |xs|
  {
    if ws == [] then 0.0
    else Dot(ws[..|ws| - 1], xs[..|xs| - 1]) + Times(ws[|ws| - 1], xs[|xs| - 1])
  }

  /** The values of the run ending at row k, oldest first. */
  function RunValues(levels: Levels, signed: bool, k: nat): (xs: seq<real>)
    requires k < |levels|
    ensures |xs| == RunLength(levels, signed, k)
  {
    if !Usable(levels[k], signed) then []
    else if k == 0 then [levels[0].value]
    else RunValues(levels, signed, k - 1) + [levels[k].value]
  }

  /** Inside a run the values up to j rows back are a prefix of the values up to now. */
  lemma {:induction false} RunPrefix(levels: Levels, signed: bool, k: nat, j: nat)
    requires k < |levels| && j < RunLength(levels, signed, k)
    ensures j <= k && RunValues(levels, signed, k - j) == RunValues(levels, signed, k)[..RunLength(levels, signed, k) - j]
  {
    RunEarlier(levels, signed, k, j);
    if j > 0 {
      RunPrefix(levels, signed, k, j - 1);
      RunEarlier(levels, signed, k, j - 1);
    }
  }

  lemma {:induction false} RunValuesAreTheLevels(levels: Levels, signed: bool, k: nat, i: nat)
    requires k < |levels| && i < RunLength(levels, signed, k)
    ensures levels[k + 1 - RunLength(levels, signed, k) + i] == Some(RunValues(levels, signed, k)[i])
  {
    if k > 0 && i < RunLength(levels, signed, k) - 1 {
      RunValuesAreTheLevels(levels, signed, k - 1, i);
    }
  }

  lemma TimesShare(s: real, period: nat)
    requires period >= 1
    ensures Times(1.0 / period as real, s) == s / period as real
    ensures Times(1.0 / period as real, period as real) == 1.0
  {
  }

  /**
   Each weight spelled out: the seed levels share c(1-a)^(m-p), and the level at position i
   after the seed has a(1-a)^(m-1-i).
   */
  lemma {:induction false} WeightFormula(a: real, c: real, period: nat, m: nat, i: nat)
    requires m >= period && i < m
    ensures Weights(a, c, period, m)[i]
         == if i < period then Times(Power(1.0 - a, m - period), c) else Times(Power(1.0 - a, m - 1 - i), a)
  {
    hide Times;
    if m == period {
      TimesOne(c);
    } else if i == m - 1 {
      TimesOne(a);
    } else {
      WeightFormula(a, c, period, m - 1, i);
      ScaledAt(1.0 - a, Weights(a, c, period, m - 1), i);
      if i < period {
        TimesAssociates(1.0 - a, Power(1.0 - a, m - 1 - period), c);
      } else {
        TimesAssociates(1.0 - a, Power(1.0 - a, m - 2 - i), a);
      }
    }
  }

  /** The weights of an average with the smoothing factor written out: 2/(p+1) on the newest level. */
  lemma EmaWeightFormula(period: nat, m: nat, i: nat)
    requires 1 <= period <= m && i < m
    ensures EmaWeights(period, m)[i]
            == if i < period then Power(1.0 - 2.0 / (period as real + 1.0), m - period) * (1.0 / period as real)
               else Power(1.0 - 2.0 / (period as real + 1.0), m - 1 - i) * (2.0 / (period as real + 1.0))
  {
    hide Weights, Power;
    WeightFormula(Alpha(period), 1.0 / period as real, period, m, i);
  }

  lemma {:induction false} DotScaled(b: real, ws: seq<real>, xs: seq<real>)
    requires |ws| == |xs|
    ensures Dot(Scaled(b, ws), xs) == Times(b, Dot(ws, xs))
  {
    hide Times;
    if ws == [] {
      TimesOne(b);
    } else {
      var n := |ws| - 1;
      DotScaled(b, ws[..n], xs[..n]);
      DotAppend(Scaled(b, ws[..n]), Times(b, ws[n]), xs[..n], xs[n]);
      assert xs[..n] + [xs[n]] == xs;
      TimesAssociates(b, ws[n], xs[n]);
      TimesAdd(b, Dot(ws[..n], xs[..n]), Times(ws[n], xs[n]));
    }
  }

  lemma DotAppend(ws: seq<real>, w: real, xs: seq<real>, x: real)
    requires |ws| == |xs|
    ensures Dot(ws + [w], xs + [x]) == Dot(ws, xs) + Times(w, x)
  {
    hide Times;
    assert (ws + [w])[..|ws|] == ws && (xs + [x])[..|xs|] == xs;
  }

  lemma {:induction false} DotConstant(w: real, ws: seq<real>, xs: seq<real>)
    requires |ws| == |xs| && forall i :: 0 <= i < |ws| ==> ws[i] == w
    ensures Dot(ws, xs) == Times(w, Sum(xs))
  {
    hide Times;
    if ws == [] {
      TimesOne(w);
    } else {
      var n := |ws| - 1;
      DotConstant(w, ws[..n], xs[..n]);
      TimesAdd(w, Sum(xs[..n]), xs[n]);
    }
  }

  /** Before the seed completes the machine holds the plain sum of the run. */
  lemma {:induction false} SeedSumIsRunSum(levels: Levels, period: nat, signed: bool, k: nat)
    requires period >= 2 && k < |levels| && RunLength(levels, signed, k) < period
    ensures StateAt(levels, period, signed, k).seedSum == Sum(RunValues(levels, signed, k))
  {
    hide Times, Alpha, Mean;
    if k > 0 && Usable(levels[k], signed) {
      SeedSumIsRunSum(levels, period, signed, k - 1);
      DefinedIff(levels, period, signed, k - 1);
      SumAppend(RunValues(levels, signed, k - 1), levels[k].value);
    } else if Usable(levels[k], signed) {
      SumAppend([], levels[k].value);
      assert [] + [levels[k].value] == [levels[k].value];
    }
  }

  /** The average is the fixed combination of the levels of the current run. */
  lemma {:induction false} ClosedForm(levels: Levels, period: nat, signed: bool, k: nat)
    requires period >= 2 && k < |levels| && RunLength(levels, signed, k) >= period
    ensures StateAt(levels, period, signed, k).ema
         == Some(Dot(EmaWeights(period, RunLength(levels, signed, k)), RunValues(levels, signed, k)))
  {
    hide Times, Alpha, Mean, Weights, Dot, Sum;
    DefinedIff(levels, period, signed, k - 1);
    var ys := RunValues(levels, signed, k - 1);
    if |ys| >= period {
      ClosedForm(levels, period, signed, k - 1);
      SmoothingStep(Alpha(period), 1.0 / period as real, period, ys, levels[k].value);
    } else {
      SeedSumIsRunSum(levels, period, signed, k - 1);
      SeedCompletes(Alpha(period), period, ys, levels[k].value);
    }
  }

  lemma WeightsStep(a: real, c: real, period: nat, m: nat)
    requires period <= m
    ensures Weights(a, c, period, m + 1) == Scaled(1.0 - a, Weights(a, c, period, m)) + [a]
  {
    hide Times, Scaled;
  }

  lemma SmoothingStep(a: real, c: real, period: nat, ys: seq<real>, x: real)
    requires period <= |ys|
    ensures Dot(Weights(a, c, period, |ys| + 1), ys + [x]) == Blend(a, x, Dot(Weights(a, c, period, |ys|), ys))
  {
    hide Times, Weights, Scaled, Dot;
    WeightsStep(a, c, period, |ys|);
    DotScaled(1.0 - a, Weights(a, c, period, |ys|), ys);
    DotAppend(Scaled(1.0 - a, Weights(a, c, period, |ys|)), a, ys, x);
  }

  lemma SeedCompletes(a: real, period: nat, ys: seq<real>, x: real)
    requires period == |ys| + 1
    ensures Dot(Weights(a, 1.0 / period as real, period, period), ys + [x]) == Mean(Sum(ys) + x, period)
  {
    hide Times;
    SumAppend(ys, x);
    DotConstant(1.0 / period as real, Weights(a, 1.0 / period as real, period, period), ys + [x]);
    TimesShare(Sum(ys) + x, period);
  }

  lemma {:induction false} SumScaled(b: real, ws: seq<real>)
    ensures Sum(Scaled(b, ws)) == Times(b, Sum(ws))
  {
    hide Times;
    if ws == [] {
      TimesOne(b);
    } else {
      var n := |ws| - 1;
      SumScaled(b, ws[..n]);
      SumAppend(Scaled(b, ws[..n]), Times(b, ws[n]));
      TimesAdd(b, Sum(ws[..n]), ws[n]);
    }
  }

  lemma {:induction false} SumConstant(w: real, ws: seq<real>)
    requires forall i :: 0 <= i < |ws| ==> ws[i] == w
    ensures Sum(ws) == Times(w, |ws| as real)
  {
    hide Times;
    if ws == [] {
      TimesOne(w);
    } else {
      SumConstant(w, ws[..|ws| - 1]);
      TimesAdd(w, (|ws| - 1) as real, 1.0);
      TimesOne(w);
    }
  }

  predicate NonNegative(ws: seq<real>) {
    forall i :: 0 <= i < |ws| ==> ws[i] >= 0.0
  }

  predicate Within(lo: real, xs: seq<real>, hi: real) {
    forall i :: 0 <= i < |xs| ==> lo <= xs[i] <= hi
  }

  lemma {:induction false} ScaledNonNegative(b: real, ws: seq<real>)
    requires b >= 0.0 && NonNegative(ws)
    ensures NonNegative(Scaled(b, ws))
  {
    hide Times;
    if ws != [] {
      ScaledNonNegative(b, ws[..|ws| - 1]);
      TimesSign(b, ws[|ws| - 1]);
    }
  }

  /** With a seed share of 1/p the weights are non-negative and sum to one. */
  lemma {:induction false} WeightsAreConvex(a: real, c: real, period: nat, m: nat)
    requires m >= period && 0.0 < a <= 1.0 && c >= 0.0 && Times(c, period as real) == 1.0
    ensures Sum(Weights(a, c, period, m)) == 1.0
    ensures NonNegative(Weights(a, c, period, m))
  {
    hide Times, Scaled, Sum;
    if m == period {
      SumConstant(c, Weights(a, c, period, m));
    } else {
      WeightsAreConvex(a, c, period, m - 1);
      var ws := Weights(a, c, period, m - 1);
      SumScaled(1.0 - a, ws);
      SumAppend(Scaled(1.0 - a, ws), a);
      TimesOne(1.0 - a);
      ScaledNonNegative(1.0 - a, ws);
    }
  }

  /** The averages are convex combinations: non-negative weights, total one. */
  lemma EmaWeightsAreConvex(period: nat, m: nat)
    requires 1 <= period <= m
    ensures Sum(EmaWeights(period, m)) == 1.0 && NonNegative(EmaWeights(period, m))
  {
    hide Times;
    TimesShare(1.0, period);
    WeightsAreConvex(Alpha(period), 1.0 / period as real, period, m);
  }

  lemma {:induction false} DotBounds(ws: seq<real>, xs: seq<real>, lo: real, hi: real)
    requires |ws| == |xs| && NonNegative(ws) && Within(lo, xs, hi)
    ensures Times(lo, Sum(ws)) <= Dot(ws, xs) <= Times(hi, Sum(ws))
  {
    hide Times;
    if ws == [] {
      TimesOne(lo);
      TimesOne(hi);
    } else {
      var n := |ws| - 1;
      DotBounds(ws[..n], xs[..n], lo, hi);
      TimesAdd(lo, Sum(ws[..n]), ws[n]);
      TimesAdd(hi, Sum(ws[..n]), ws[n]);
      TimesMonotone(ws[n], lo, xs[n], hi);
    }
  }

  /** Every average lies between any bounds on the levels of its own run. */
  lemma EmaWithinRun(levels: Levels, period: nat, signed: bool, k: nat, lo: real, hi: real)
    requires period >= 2 && k < |levels| && RunLength(levels, signed, k) >= period
    requires Within(lo, RunValues(levels, signed, k), hi)
    ensures StateAt(levels, period, signed, k).ema.Some?
    ensures lo <= StateAt(levels, period, signed, k).ema.value <= hi
  {
    hide Times;
    ClosedForm(levels, period, signed, k);
    var xs := RunValues(levels, signed, k);
    EmaWeightsAreConvex(period, |xs|);
    DotBounds(EmaWeights(period, |xs|), xs, lo, hi);
    TimesOne(lo);
    TimesOne(hi);
  }

  function Smallest(xs: seq<real>): (lo: real)
    requires xs != []
    ensures lo in xs && forall i :: 0 <= i < |xs| ==> lo <= xs[i]
  {
    if |xs| == 1 then xs[0]
    else
      var rest := Smallest(xs[1..]);
      assert forall i :: 1 <= i < |xs| ==> xs[i] == xs[1..][i - 1];
      if xs[0] <= rest then xs[0] else rest
  }

  function Largest(xs: seq<real>): (hi: real)
    requires xs != []
    ensures hi in xs && forall i :: 0 <= i < |xs| ==> xs[i] <= hi
  {
    if |xs| == 1 then xs[0]
    else
      var rest := Largest(xs[1..]);
      assert forall i :: 1 <= i < |xs| ==> xs[i] == xs[1..][i - 1];
      if xs[0] >= rest then xs[0] else rest
  }

  /** Hence a price average is positive, and no division by it can fail. */
  lemma PriceEmaPositive(levels: Levels, period: nat, k: nat)
    requires period >= 2 && k < |levels| && StateAt(levels, period, false, k).ema.Some?
    ensures StateAt(levels, period, false, k).ema.value > 0.0
  {
    hide Times, Alpha, Mean, StateAt;
    DefinedIff(levels, period, false, k);
    RunIsMaximal(levels, false, k);
    var xs := RunValues(levels, false, k);
    var lo := Smallest(xs);
    var i :| 0 <= i < |xs| && xs[i] == lo;
    RunValuesAreTheLevels(levels, false, k, i);
    EmaWithinRun(levels, period, false, k, lo, Largest(xs));
  }

  /** Nothing before the last reset matters: equal runs give equal averages. */
  lemma OnlyTheRunMatters(a: Levels, b: Levels, period: nat, signed: bool, i: nat, j: nat)
    requires period >= 2 && i < |a| && j < |b|
    requires RunValues(a, signed, i) == RunValues(b, signed, j)
    ensures StateAt(a, period, signed, i).ema == StateAt(b, period, signed, j).ema
  {
    DefinedIff(a, period, signed, i);
    DefinedIff(b, period, signed, j);
    if RunLength(a, signed, i) >= period {
      ClosedForm(a, period, signed, i);
      ClosedForm(b, period, signed, j);
    }
  }
}
