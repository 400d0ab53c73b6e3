/**
 The relative MACD family: EMA 12 and EMA 26 over the levels, a signed EMA 9 over their
 difference, and outputs divided by the level, against the reference of the parity tests.
 */
module Macd {
  import opened Common
  import opened Reals
  import opened Ema

  const FAST: nat := 12
  const SLOW: nat := 26
  const SIGNAL: nat := 9
  const LAG: nat := 3

  function Difference(fast: Option<real>, slow: Option<real>): Option<real> {
    if fast.Some? && slow.Some? then Some(fast.value - slow.value) else None
  }

  function Over(numerator: real, level: Option<real>): Option<real> {
    if level.Some? && level.value > 0.0 then Some(Ratio(numerator, level.value)) else None
  }

  /* ---------- the generated query ---------- */

  function LineColumn(levels: Levels): (line: Levels)
    ensures |line| == |levels|
  {
    seq(|levels|, k requires 0 <= k < |levels| => LineAt(levels, k))
  }

  function LineAt(levels: Levels, k: nat): Option<real>
    requires k < |levels|
  {
    Difference(StateAt(levels, FAST, false, k).ema, StateAt(levels, SLOW, false, k).ema)
  }

  function SignalAt(levels: Levels, k: nat): Option<real>
    requires k < |levels|
  {
    StateAt(LineColumn(levels), SIGNAL, true, k).ema
  }

  function LineRelative(levels: Levels, k: nat): Option<real>
    requires k < |levels|
  {
    var line := LineAt(levels, k);
    if line.Some? then Over(line.value, levels[k]) else None
  }

  function HistRelative(levels: Levels, k: nat): Option<real>
    requires k < |levels|
  {
    var line, signal := LineAt(levels, k), SignalAt(levels, k);
    if line.Some? && signal.Some? then Over(line.value - signal.value, levels[k]) else None
  }

  /** The lagged difference runs over every raw row. */
  function HistDelta(levels: Levels, k: nat): Option<real>
    requires k < |levels|
  {
    if k < LAG then None else Difference(HistRelative(levels, k), HistRelative(levels, k - LAG))
  }

  /* ---------- the reference ---------- */

  /** The reference of the parity tests agrees with the query on every row. */
  method MacdReference(levels: Levels)
    returns (lineRelative: seq<Option<real>>, histogram: seq<Option<real>>, delta: seq<Option<real>>)
    ensures |lineRelative| == |histogram| == |delta| == |levels|
    ensures forall k :: 0 <= k < |levels| ==> lineRelative[k] == LineRelative(levels, k)
    ensures forall k :: 0 <= k < |levels| ==> histogram[k] == HistRelative(levels, k)
    ensures forall k :: 0 <= k < |levels| ==> delta[k] == HistDelta(levels, k)
  {
    hide StateAt, Ratio;
    var fast := IndependentEma(levels, FAST, false);
    var slow := IndependentEma(levels, SLOW, false);
    var line := [];
    for i := 0 to |levels|
      invariant |line| == i
      invariant forall k :: 0 <= k < i ==> line[k] == LineAt(levels, k)
    {
      line := line + [Difference(fast[i], slow[i])];
    }
    assert line == LineColumn(levels);
    var signal := IndependentEma(line, SIGNAL, true);
    lineRelative, histogram, delta := [], [], [];
    for i := 0 to |levels|
      invariant |lineRelative| == |histogram| == |delta| == i
      invariant forall k :: 0 <= k < i ==> lineRelative[k] == LineRelative(levels, k)
      invariant forall k :: 0 <= k < i ==> histogram[k] == HistRelative(levels, k)
      invariant forall k :: 0 <= k < i ==> delta[k] == HistDelta(levels, k)
    {
      lineRelative := lineRelative + [if line[i].Some? then Over(line[i].value, levels[i]) else None];
      histogram := histogram + [if line[i].Some? && signal[i].Some?
                                then Over(line[i].value - signal[i].value, levels[i]) else None];
      var lagged := if i >= LAG then histogram[i - LAG] else None;
      delta := delta + [Difference(histogram[i], lagged)];
    }
  }

  /* ---------- exact warm-up ---------- */

  lemma LineDefinedIff(levels: Levels, k: nat)
    requires k < |levels|
    ensures LineAt(levels, k).Some? <==> RunLength(levels, false, k) >= SLOW
  {
    hide StateAt, Ratio;
    DefinedIff(levels, FAST, false, k);
    DefinedIff(levels, SLOW, false, k);
  }

  /** The MACD line is a signed run that starts 25 rows into the run of positive levels. */
  lemma {:induction false} LineRun(levels: Levels, k: nat)
    requires k < |levels|
    ensures RunLength(LineColumn(levels), true, k)
         == if RunLength(levels, false, k) >= SLOW then RunLength(levels, false, k) - (SLOW - 1) else 0
  {
    hide StateAt, Ratio;
    LineDefinedIff(levels, k);
    if k > 0 {
      LineRun(levels, k - 1);
    }
  }

  lemma LevelPositive(levels: Levels, k: nat)
    requires k < |levels| && RunLength(levels, false, k) >= 1
    ensures levels[k].Some? && levels[k].value > 0.0
  {
  }

  lemma HistDefinedIff(levels: Levels, k: nat)
    requires k < |levels|
    ensures HistRelative(levels, k).Some? <==> RunLength(levels, false, k) >= SLOW + SIGNAL - 1
  {
    hide StateAt, Ratio;
    LineDefinedIff(levels, k);
    LineRun(levels, k);
    DefinedIff(LineColumn(levels), SIGNAL, true, k);
    if RunLength(levels, false, k) >= 1 {
      LevelPositive(levels, k);
    }
  }

  /**
   The three outputs are non-NULL exactly when at least 26, 34 and 37 consecutive positive
   levels end at the row.
   */
  lemma ExactWarmUp(levels: Levels, k: nat)
    requires k < |levels|
    ensures LineRelative(levels, k).Some? <==> RunLength(levels, false, k) >= 26
    ensures HistRelative(levels, k).Some? <==> RunLength(levels, false, k) >= 34
    ensures HistDelta(levels, k).Some? <==> RunLength(levels, false, k) >= 37
  {
    hide StateAt, Ratio, HistRelative, LineAt;
    var m := RunLength(levels, false, k);
    LineDefinedIff(levels, k);
    HistDefinedIff(levels, k);
    if m >= 1 {
      LevelPositive(levels, k);
    }
    if k >= LAG {
      HistDefinedIff(levels, k - LAG);
      if m > LAG {
        RunEarlier(levels, false, k, LAG);
      }
    }
  }

  /* ---------- the values, over the levels of the current run ---------- */

  /** The line at each row of the run from its 26th level on, from closed-form averages of 12 and 26 rows. */
  ghost predicate Lines(run: seq<real>, lines: seq<real>) {
    && |lines| == |run| - 25
    && forall i :: 0 <= i < |lines| ==>
         lines[i] == Dot(EmaWeights(12, i + 26), run[..i + 26]) - Dot(EmaWeights(26, i + 26), run[..i + 26])
  }

  lemma LineValue(levels: Levels, k: nat)
    requires k < |levels| && RunLength(levels, false, k) >= 26
    ensures var run := RunValues(levels, false, k);
            LineAt(levels, k) == Some(Dot(EmaWeights(12, |run|), run) - Dot(EmaWeights(26, |run|), run))
  {
    hide StateAt, Dot, EmaWeights;
    ClosedForm(levels, 12, false, k);
    ClosedForm(levels, 26, false, k);
  }

  /** The signed run of the line is exactly those values. */
  lemma {:induction false} LineValues(levels: Levels, k: nat, lines: seq<real>)
    requires k < |levels| && RunLength(levels, false, k) >= 26 && Lines(RunValues(levels, false, k), lines)
    ensures RunValues(LineColumn(levels), true, k) == lines
  {
    hide StateAt, Dot, EmaWeights, LineAt;
    var run := RunValues(levels, false, k);
    LineRun(levels, k);
    LineValue(levels, k);
    assert run[..|run|] == run;
    var n := |lines| - 1;
    if n > 0 {
      RunPrefix(levels, false, k, 1);
      ShorterLines(run, lines);
      LineValues(levels, k - 1, lines[..n]);
      assert lines == lines[..n] + [lines[n]];
    } else if k > 0 {
      LineRun(levels, k - 1);
    }
  }

  lemma ShorterLines(run: seq<real>, lines: seq<real>)
    requires Lines(run, lines) && |lines| > 1
    ensures Lines(run[..|run| - 1], lines[..|lines| - 1])
  {
    hide Dot, EmaWeights;
    var front, shorter := run[..|run| - 1], lines[..|lines| - 1];
    forall i | 0 <= i < |shorter|
      ensures shorter[i] == Dot(EmaWeights(12, i + 26), front[..i + 26]) - Dot(EmaWeights(26, i + 26), front[..i + 26])
    {
      assert front[..i + 26] == run[..i + 26];
    }
  }

  lemma LastLine(run: seq<real>, lines: seq<real>)
    requires Lines(run, lines) && lines != []
    ensures |run| >= 26
    ensures lines[|lines| - 1] == Dot(EmaWeights(12, |run|), run) - Dot(EmaWeights(26, |run|), run)
  {
    hide Dot, EmaWeights;
    assert run[..|run|] == run;
  }

  /** The relative histogram is the line minus its 9-row average, over the level. */
  lemma HistogramValue(levels: Levels, k: nat, lines: seq<real>)
    requires k < |levels| && RunLength(levels, false, k) >= 34 && Lines(RunValues(levels, false, k), lines)
    ensures levels[k].Some? && levels[k].value > 0.0 && |lines| >= 9
    ensures HistRelative(levels, k)
            == Some((lines[|lines| - 1] - Dot(EmaWeights(9, |lines|), lines)) / levels[k].value)
  {
    LinesLength(RunValues(levels, false, k), lines);
    hide StateAt, Dot, EmaWeights, LineAt, Lines, RunValues, LineColumn;
    LevelPositive(levels, k);
    LineValue(levels, k);
    LastLine(RunValues(levels, false, k), lines);
    LineRun(levels, k);
    LineValues(levels, k, lines);
    ClosedForm(LineColumn(levels), 9, true, k);
  }

  /** The relative line is the closed-form average of 12 rows minus that of 26 rows, over the level. */
  lemma LineRelativeValue(levels: Levels, k: nat)
    requires k < |levels| && RunLength(levels, false, k) >= 26
    ensures levels[k].Some? && levels[k].value > 0.0
    ensures var run := RunValues(levels, false, k);
            LineRelative(levels, k)
            == Some((Dot(EmaWeights(12, |run|), run) - Dot(EmaWeights(26, |run|), run)) / levels[k].value)
  {
    hide StateAt, Dot, EmaWeights, LineAt, RunValues;
    LevelPositive(levels, k);
    LineValue(levels, k);
  }

  /** The histogram change is the histogram now minus the histogram three rows back. */
  lemma HistogramChange(levels: Levels, k: nat, lines: seq<real>)
    requires k < |levels| && RunLength(levels, false, k) >= 37 && Lines(RunValues(levels, false, k), lines)
    ensures k >= 3 && levels[k].Some? && levels[k].value > 0.0 && levels[k - 3].Some? && levels[k - 3].value > 0.0
    ensures HistDelta(levels, k)
            == Some((lines[|lines| - 1] - Dot(EmaWeights(9, |lines|), lines)) / levels[k].value
                    - (lines[|lines| - 4] - Dot(EmaWeights(9, |lines| - 3), lines[..|lines| - 3])) / levels[k - 3].value)
  {
    hide StateAt, Dot, EmaWeights, LineAt, HistRelative, Lines;
    LinesLength(RunValues(levels, false, k), lines);
    var run, n := RunValues(levels, false, k), |lines|;
    RunPrefix(levels, false, k, 3);
    RunEarlier(levels, false, k, 3);
    ShorterLines(run, lines);
    ShorterLines(run[..|run| - 1], lines[..n - 1]);
    ShorterLines(run[..|run| - 1][..|run| - 2], lines[..n - 1][..n - 2]);
    assert run[..|run| - 1][..|run| - 2][..|run| - 3] == run[..|run| - 3];
    assert lines[..n - 1][..n - 2][..n - 3] == lines[..n - 3];
    HistogramValue(levels, k, lines);
    HistogramValue(levels, k - 3, lines[..n - 3]);
  }

  lemma LinesLength(run: seq<real>, lines: seq<real>)
    requires Lines(run, lines)
    ensures |lines| == |run| - 25
  {
  }
}
