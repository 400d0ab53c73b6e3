/** Bronze payloads, the equality they are compared with, and their row-wise canonical Silver form. */
module SilverRows {
  import opened Common
  import opened RowDigest

  /** A Bronze row's numbers; None is a missing or non-numeric cell. */
  datatype Payload =
    | BarPayload(open: Option<Double>, high: Option<Double>, low: Option<Double>, close: Option<Double>)
    | ScalarPayload(scalar: Option<Double>)

  datatype SilverRow = SilverRow(value: Option<Double>, open: Option<Double>, high: Option<Double>,
                                 low: Option<Double>, close: Option<Double>)

  /* ---------- equality of values ---------- */

  predicate IsNan(d: Double) {
    d.exponent == 2047 && d.fraction != 0
  }

  /** Equality of numbers: both zeros are equal, and so are all NaNs. */
  predicate SameDouble(a: Double, b: Double) {
    a == b || (a.Zero() && b.Zero()) || (IsNan(a) && IsNan(b))
  }

  /** eq_missing: two missing cells are equal. */
  predicate SameCell(a: Option<Double>, b: Option<Double>) {
    if a.Some? && b.Some? then SameDouble(a.value, b.value) else a.None? && b.None?
  }

  predicate SamePayload(a: Payload, b: Payload) {
    match (a, b)
    case (BarPayload(ao, ah, al, ac), BarPayload(bo, bh, bl, bc)) =>
      SameCell(ao, bo) && SameCell(ah, bh) && SameCell(al, bl) && SameCell(ac, bc)
    case (ScalarPayload(x), ScalarPayload(y)) => SameCell(x, y)
    case _ => false
  }

  predicate SameSilver(a: SilverRow, b: SilverRow) {
    && SameCell(a.value, b.value) && SameCell(a.open, b.open) && SameCell(a.high, b.high)
    && SameCell(a.low, b.low) && SameCell(a.close, b.close)
  }

  const INFINITY := Double(false, 2047, 0)

  const MINUS_INFINITY := Double(true, 2047, 0)

  /**
   Finite numbers are equal exactly when the row digest reads them as the same number; an infinity
   equals only itself, and all that remains is one NaN.
   */
  lemma SameDoubleExact(a: Double, b: Double)
    requires a.WellFormed() && b.WellFormed()
    ensures SameDouble(a, b)
            <==> if a.Finite() && b.Finite() then CanonicalFloat(a) == CanonicalFloat(b)
                 else if a in {INFINITY, MINUS_INFINITY} || b in {INFINITY, MINUS_INFINITY} then a == b
                 else !a.Finite() && !b.Finite()
  {
  }

  /* ---------- canonical Silver ---------- */

  predicate FiniteNonNull(d: Option<Double>) {
    d.Some? && d.value.Finite()
  }

  /** One row, or None where a column is absent, missing or not finite. */
  function CanonicalRow(ohlc: bool, p: Payload): Option<SilverRow> {
    if ohlc then
      if p.BarPayload? && FiniteNonNull(p.open) && FiniteNonNull(p.high) && FiniteNonNull(p.low) && FiniteNonNull(p.close)
      then Some(SilverRow(p.close, p.open, p.high, p.low, p.close))
      else None
    else if p.ScalarPayload? && FiniteNonNull(p.scalar) then Some(SilverRow(p.scalar, None, None, None, None))
    else None
  }

  /** The whole series, refused if any row is. */
  function CanonicalizeRows<K>(ohlc: bool, bronze: map<K, Payload>): Option<map<K, SilverRow>> {
    if forall k :: k in bronze ==> CanonicalRow(ohlc, bronze[k]).Some?
    then Some(map k | k in bronze :: CanonicalRow(ohlc, bronze[k]).value)
    else None
  }

  predicate CanonicalSilverRow(ohlc: bool, row: SilverRow) {
    && FiniteNonNull(row.value)
    && (ohlc ==> FiniteNonNull(row.open) && FiniteNonNull(row.high) && FiniteNonNull(row.low) && row.close == row.value)
    && (!ohlc ==> row.open.None? && row.high.None? && row.low.None? && row.close.None?)
  }

  /** What canonicalisation accepts is canonical: the value of an OHLC row is its close. */
  lemma CanonicalizedRows<K>(ohlc: bool, bronze: map<K, Payload>, k: K)
    requires CanonicalizeRows(ohlc, bronze).Some? && k in bronze
    ensures CanonicalizeRows(ohlc, bronze).value.Keys == bronze.Keys
    ensures CanonicalSilverRow(ohlc, CanonicalizeRows(ohlc, bronze).value[k])
    ensures CanonicalizeRows(ohlc, bronze).value[k].value
            == match bronze[k] case BarPayload(_, _, _, close) => close case ScalarPayload(scalar) => scalar
  {
  }
}
