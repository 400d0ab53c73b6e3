/**
 The stochastic oscillator over native bars, for the bars ingestion accepts.
 */
module Stochastic {
  import opened Common
  import opened Reals

  datatype Bar = Bar(open: real, high: real, low: real, close: real)

  datatype BarError = NegativeLevel | HighBelowLow | HighBelowOpenOrClose | LowAboveOpenOrClose

  /** The shared bar check: the first violated relation, in the order it tests them. */
  function ValidateBar(b: Bar): Result<Bar, BarError> {
    if b.open < 0.0 || b.high < 0.0 || b.low < 0.0 || b.close < 0.0 then Err(NegativeLevel)
    else if b.high < b.low then Err(HighBelowLow)
    else if b.high < Max(b.open, b.close) then Err(HighBelowOpenOrClose)
    else if b.low > Min(b.open, b.close) then Err(LowAboveOpenOrClose)
    else Ok(b)
  }

  /** The row filter of the CBOE adapter. */
  predicate CboeKeeps(b: Bar) {
    && b.open >= 0.0 && b.high >= 0.0 && b.low >= 0.0 && b.close >= 0.0
    && b.high >= b.low
    && b.high >= Max(b.open, b.close)
    && b.low <= Min(b.open, b.close)
  }

  /** Both entry points accept the same bars: non-negative, with low <= open, close <= high. */
  lemma EntryPointsAgree(b: Bar)
    ensures ValidateBar(b).Ok? <==> CboeKeeps(b)
    ensures CboeKeeps(b) <==> 0.0 <= b.low <= b.open <= b.high && b.low <= b.close <= b.high
  {
  }

  /** A Gold row as far as one OHLC series is concerned. */
  datatype Row = Row(open: Option<real>, high: Option<real>, low: Option<real>, close: Option<real>)

  predicate Complete(r: Row) {
    r.open.Some? && r.high.Some? && r.low.Some? && r.close.Some?
  }

  function ToBar(r: Row): Bar
    requires Complete(r)
  {
    Bar(r.open.value, r.high.value, r.low.value, r.close.value)
  }

  /** The complete bars in row order: incomplete rows do not advance any window. */
  function CompleteBars(rows: seq<Row>): seq<Bar> {
    if rows == [] then []
    else CompleteBars(rows[..|rows| - 1]) + (if Complete(rows[|rows| - 1]) then [ToBar(rows[|rows| - 1])] else [])
  }

  /** Smallest low of the window of at most n bars ending at i. */
  function MinLow(bars: seq<Bar>, i: nat, n: nat): real
    requires i < |bars| && n >= 1
  {
    if n == 1 || i == 0 then bars[i].low else Min(MinLow(bars, i - 1, n - 1), bars[i].low)
  }

  function MaxHigh(bars: seq<Bar>, i: nat, n: nat): real
    requires i < |bars| && n >= 1
  {
    if n == 1 || i == 0 then bars[i].high else Max(MaxHigh(bars, i - 1, n - 1), bars[i].high)
  }

  /** %K over a full window of n bars with a non-empty range. */
  function PercentK(bars: seq<Bar>, i: nat, n: nat): Option<real>
    requires i < |bars| && n >= 1
  {
    var lo, hi := MinLow(bars, i, n), MaxHigh(bars, i, n);
    if i + 1 >= n && hi > lo then Some(Ratio(100.0 * (bars[i].close - lo), hi - lo)) else None
  }

  /** The values of %K that exist among the last m rows ending at i. */
  function Defined(bars: seq<Bar>, i: nat, n: nat, m: nat): (ks: seq<real>)
    requires i < |bars| && n >= 1
    ensures |ks| <= m
    decreases m
  {
    if m == 0 then []
    else
      (if i == 0 then [] else Defined(bars, i - 1, n, m - 1))
      + (if PercentK(bars, i, n).Some? then [PercentK(bars, i, n).value] else [])
  }

  /** %D: the mean of the last three %K, all of which must exist. */
  function PercentD(bars: seq<Bar>, i: nat, n: nat): Option<real>
    requires i < |bars| && n >= 1
  {
    var ks := Defined(bars, i, n, 3);
    if |ks| == 3 then Some(Ratio(Sum(ks), 3.0)) else None
  }

  predicate AllAccepted(bars: seq<Bar>) {
    forall i :: 0 <= i < |bars| ==> ValidateBar(bars[i]).Ok?
  }

  /** The window bounds are attained in the window and bound every bar of it. */
  lemma {:induction false} WindowBounds(bars: seq<Bar>, i: nat, n: nat)
    requires i < |bars| && n >= 1
    ensures forall j :: 0 <= j <= i && i - n < j ==> MinLow(bars, i, n) <= bars[j].low && bars[j].high <= MaxHigh(bars, i, n)
    ensures exists j :: 0 <= j <= i && i - n < j && bars[j].low == MinLow(bars, i, n)
    ensures exists j :: 0 <= j <= i && i - n < j && bars[j].high == MaxHigh(bars, i, n)
  {
    if n > 1 && i > 0 {
      WindowBounds(bars, i - 1, n - 1);
    }
    assert bars[i].low == MinLow(bars, i, n) || MinLow(bars, i, n) < bars[i].low;
  }

  /**
   Without any assumption on the bars: %K is a percentage if and only if the close lies between
   the bounds of its window.
   */
  lemma PercentKRangeExact(bars: seq<Bar>, i: nat, n: nat)
    requires i < |bars| && n >= 1 && PercentK(bars, i, n).Some?
    ensures 0.0 <= PercentK(bars, i, n).value <= 100.0
            <==> MinLow(bars, i, n) <= bars[i].close <= MaxHigh(bars, i, n)
  {
    hide Ratio;
    PercentageExact(bars[i].close - MinLow(bars, i, n), MaxHigh(bars, i, n) - MinLow(bars, i, n));
  }

  /** %K of accepted bars is a percentage, whatever the window length. */
  lemma PercentKInRange(bars: seq<Bar>, i: nat, n: nat)
    requires i < |bars| && n >= 1 && AllAccepted(bars) && PercentK(bars, i, n).Some?
    ensures 0.0 <= PercentK(bars, i, n).value <= 100.0
  {
    hide Ratio;
    WindowBounds(bars, i, n);
    assert MinLow(bars, i, n) <= bars[i].low && bars[i].high <= MaxHigh(bars, i, n);
    assert ValidateBar(bars[i]).Ok?;
    PercentKRangeExact(bars, i, n);
  }

  lemma {:induction false} DefinedInRange(bars: seq<Bar>, i: nat, n: nat, m: nat)
    requires i < |bars| && n >= 1 && AllAccepted(bars)
    ensures forall k :: k in Defined(bars, i, n, m) ==> 0.0 <= k <= 100.0
    decreases m
  {
    hide Ratio, PercentK;
    if m > 0 {
      if i > 0 {
        DefinedInRange(bars, i - 1, n, m - 1);
      }
      if PercentK(bars, i, n).Some? {
        PercentKInRange(bars, i, n);
      }
    }
  }

  /** %D of accepted bars is a percentage too. */
  lemma PercentDInRange(bars: seq<Bar>, i: nat, n: nat)
    requires i < |bars| && n >= 1 && AllAccepted(bars) && PercentD(bars, i, n).Some?
    ensures 0.0 <= PercentD(bars, i, n).value <= 100.0
  {
    DefinedInRange(bars, i, n, 3);
    var ks := Defined(bars, i, n, 3);
    assert ks[0] in ks && ks[1] in ks && ks[2] in ks;
    assert Sum(ks) == ks[0] + ks[1] + ks[2] by {
      assert ks[..2][..1][..0] == [];
      assert Sum(ks[..2]) == Sum(ks[..2][..1]) + ks[1];
      assert Sum(ks[..2][..1]) == ks[0];
    }
  }

  /* ---------- the values ---------- */

  /**
   %K written out: from a full window of n bars with lowest low `lo` and highest high `hi`, the
   place of the close between them in percent; nothing without a full window or a range.
   */
  lemma PercentKValue(bars: seq<Bar>, i: nat, n: nat, lo: real, hi: real)
    requires i < |bars| && n >= 1
    requires forall j :: 0 <= j <= i && i - n < j ==> lo <= bars[j].low && bars[j].high <= hi
    requires exists j :: 0 <= j <= i && i - n < j && bars[j].low == lo
    requires exists j :: 0 <= j <= i && i - n < j && bars[j].high == hi
    ensures PercentK(bars, i, n) == if i >= n - 1 && hi > lo then Some(100.0 * (bars[i].close - lo) / (hi - lo)) else None
  {
    WindowBounds(bars, i, n);
    assert MinLow(bars, i, n) == lo && MaxHigh(bars, i, n) == hi;
  }

  /** %D is the mean of the %K of this bar and the two before it, and exists exactly when all three do. */
  lemma PercentDValue(bars: seq<Bar>, i: nat, n: nat)
    requires i < |bars| && n >= 1
    ensures PercentD(bars, i, n)
            == if i >= 2 && PercentK(bars, i - 2, n).Some? && PercentK(bars, i - 1, n).Some? && PercentK(bars, i, n).Some?
               then Some((PercentK(bars, i - 2, n).value + PercentK(bars, i - 1, n).value + PercentK(bars, i, n).value) / 3.0)
               else None
  {
    hide PercentK;
    var ks := Defined(bars, i, n, 3);
    if |ks| == 3 {
      assert Sum(ks) == ks[0] + ks[1] + ks[2] by {
        assert ks[..2][..1][..0] == [];
        assert Sum(ks[..2]) == Sum(ks[..2][..1]) + ks[1];
        assert Sum(ks[..2][..1]) == ks[0];
      }
    }
    if i >= 2 {
      assert Defined(bars, i - 2, n, 1) == if PercentK(bars, i - 2, n).Some? then [PercentK(bars, i - 2, n).value] else [];
    }
  }

  /** The k-th complete row in order becomes the k-th bar, field by field. */
  lemma {:induction false} CompleteBarAt(rows: seq<Row>, j: nat)
    requires j < |rows| && Complete(rows[j])
    ensures var k := |CompleteBars(rows[..j])|;
            && k < |CompleteBars(rows)|
            && rows[j] == Row(Some(CompleteBars(rows)[k].open), Some(CompleteBars(rows)[k].high),
                              Some(CompleteBars(rows)[k].low), Some(CompleteBars(rows)[k].close))
  {
    var n := |rows| - 1;
    if j < n {
      CompleteBarAt(rows[..n], j);
      assert rows[..n][..j] == rows[..j];
    }
  }

  /** There are no other bars. */
  lemma {:induction false} CompleteBarsCount(rows: seq<Row>)
    ensures |CompleteBars(rows)| == |set j | 0 <= j < |rows| && Complete(rows[j])|
  {
    if rows != [] {
      var n := |rows| - 1;
      CompleteBarsCount(rows[..n]);
      var before := set j | 0 <= j < n && Complete(rows[..n][j]);
      var all := set j | 0 <= j < |rows| && Complete(rows[j]);
      assert all == if Complete(rows[n]) then before + {n} else before;
    }
  }

  const FLAT := Bar(1.0, 2.0, 1.0, 1.0)
  const SPIKE := Bar(1.0, 2.0, 1.0, 3.0)

  /** n - 1 accepted bars and then one whose close is above its high. */
  function Spiked(n: nat): (bars: seq<Bar>)
    requires n >= 1
    ensures |bars| == n && bars[n - 1] == SPIKE && forall k :: 0 <= k < n - 1 ==> bars[k] == FLAT
  {
    seq(n, k => if k < n - 1 then FLAT else SPIKE)
  }

  /** Every window the query uses leaves the scale on a bar that the check rejects. */
  lemma RejectedBarBreaksScale(n: nat)
    requires n in {5, 14}
    ensures ValidateBar(FLAT).Ok? && ValidateBar(SPIKE) == Err(HighBelowOpenOrClose)
    ensures PercentK(Spiked(n), n - 1, n) == Some(200.0)
  {
    WindowBounds(Spiked(n), n - 1, n);
    assert Ratio(100.0 * (3.0 - 1.0), 2.0 - 1.0) == 200.0;
  }

  /** Filtering incomplete rows keeps acceptance: every bar comes from some row. */
  lemma {:induction false} CompleteBarsAccepted(rows: seq<Row>)
    requires forall i :: 0 <= i < |rows| && Complete(rows[i]) ==> ValidateBar(ToBar(rows[i])).Ok?
    ensures AllAccepted(CompleteBars(rows))
  {
    if rows != [] {
      CompleteBarsAccepted(rows[..|rows| - 1]);
    }
  }

  /** End to end: Gold rows whose complete bars were accepted give %K and %D in [0, 100]. */
  lemma OscillatorInRange(rows: seq<Row>, i: nat, n: nat)
    requires forall j :: 0 <= j < |rows| && Complete(rows[j]) ==> ValidateBar(ToBar(rows[j])).Ok?
    requires i < |CompleteBars(rows)| && n in {5, 14}
    ensures PercentK(CompleteBars(rows), i, n).Some? ==> 0.0 <= PercentK(CompleteBars(rows), i, n).value <= 100.0
    ensures PercentD(CompleteBars(rows), i, n).Some? ==> 0.0 <= PercentD(CompleteBars(rows), i, n).value <= 100.0
  {
    hide PercentK, PercentD;
    var bars := CompleteBars(rows);
    CompleteBarsAccepted(rows);
    if PercentK(bars, i, n).Some? { PercentKInRange(bars, i, n); }
    if PercentD(bars, i, n).Some? { PercentDInRange(bars, i, n); }
  }
}
