/**
 Real multiplication and division by name.  Proofs over sequences leave them uninterpreted
 (`hide`) and use the laws below, which keeps non-linear arithmetic out of large goals.
 */
module Reals {
  function Times(x: real, y: real): real {
    x * y
  }

  function Ratio(x: real, y: real): real
    requires y != 0.0
  {
    x / y
  }

  function Max(x: real, y: real): real {
    if x >= y then x else y
  }

  function Min(x: real, y: real): real {
    if x <= y then x else y
  }

  function Sum(s: seq<real>): real {
    if s == [] then 0.0 else Sum(s[..|s| - 1]) + s[|s| - 1]
  }

  lemma TimesAdd(b: real, s: real, t: real)
    ensures Times(b, s + t) == Times(b, s) + Times(b, t)
  {
  }

  lemma TimesAssociates(x: real, y: real, z: real)
    ensures Times(x, Times(y, z)) == Times(Times(x, y), z)
  {
  }

  lemma TimesOne(x: real)
    ensures Times(x, 1.0) == x == Times(1.0, x) && Times(x, 0.0) == 0.0
  {
  }

  lemma TimesSign(x: real, y: real)
    requires x >= 0.0 && y >= 0.0
    ensures Times(x, y) >= 0.0
  {
  }

  lemma TimesMonotone(w: real, lo: real, x: real, hi: real)
    requires w >= 0.0 && lo <= x <= hi
    ensures Times(lo, w) <= Times(w, x) <= Times(hi, w)
  {
    assert 0.0 <= w * (x - lo) && 0.0 <= w * (hi - x);
  }

  /** A share of a positive whole is a percentage exactly when it lies between nothing and the whole. */
  lemma PercentageExact(d: real, w: real)
    requires w > 0.0
    ensures 0.0 <= Ratio(100.0 * d, w) <= 100.0 <==> 0.0 <= d <= w
  {
    var q := d / w;
    assert q * w == d;
    assert Ratio(100.0 * d, w) == 100.0 * q;
    if q < 0.0 { assert q * w < 0.0; } else { assert q * w >= 0.0; }
    if q > 1.0 { assert q * w > w; } else { assert q * w <= w; }
  }

  /** Every element times b. */
  function Scaled(b: real, ws: seq<real>): (r: seq<real>)
    ensures |r| == |ws|
  {
    if ws == [] then [] else Scaled(b, ws[..|ws| - 1]) + [Times(b, ws[|ws| - 1])]
  }

  lemma {:induction false} ScaledAt(b: real, ws: seq<real>, i: nat)
    requires i < |ws|
    ensures Scaled(b, ws)[i] == Times(b, ws[i])
  {
    hide Times;
    if i < |ws| - 1 {
      ScaledAt(b, ws[..|ws| - 1], i);
    }
  }
}
