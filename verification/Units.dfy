/** Base units rendered as whole tokens, exactly (indexer/erc20.go:329-355). */
module Units {
  import opened Wrappers
  import opened Text

  /** `strings.TrimRight(s, "0")`. */
  function TrimZeros(s: string): string {
    if s != [] && s[|s| - 1] == '0' then TrimZeros(s[..|s| - 1]) else s
  }

  /** How many zeros the source pads the remainder's digits with; `strings.Repeat` panics below zero. */
  function Padding(r: nat, decimals: nat): int {
    decimals - |Render(r, Dec)|
  }

  /** The remainder's digits at full width. */
  function Fraction(r: nat, decimals: nat): string
    requires Padding(r, decimals) >= 0
  {
    Repeat('0', Padding(r, decimals)) + Render(r, Dec)
  }

  lemma PaddingNonNegative(r: nat, decimals: nat)
    requires decimals > 0 && r < Dec.Pow(decimals)
    ensures Padding(r, decimals) >= 0
  {
    RenderLength(r, Dec, decimals);
  }

  /** `big.Int.QuoRem`. */
  function DivMod(n: nat, d: nat): (qr: (nat, nat))
    requires d > 0
    ensures qr.1 < d
  {
    (n / d, n % d)
  }

  function QuoRem(n: nat, decimals: nat): (qr: (nat, nat))
    ensures qr.1 < Dec.Pow(decimals)
  {
    DivMod(n, Dec.Pow(decimals))
  }

  lemma DivModSum(n: nat, d: nat)
    requires d > 0
    ensures n == DivMod(n, d).0 * d + DivMod(n, d).1
  {
    assert n == (n / d) * d + n % d;
  }

  lemma QuoRemShift(n: nat, decimals: nat)
    ensures n == Shift(QuoRem(n, decimals).0, decimals, Dec) + QuoRem(n, decimals).1
  {
    hide DivMod;
    DivModSum(n, Dec.Pow(decimals));
    ShiftIsTimesPow(QuoRem(n, decimals).0, decimals, Dec);
  }

  function WholeUnits(n: Option<nat>, decimals: int): string {
    if n.None? then ""
    else if decimals <= 0 then Render(n.value, Dec)
    else
      var (q, r) := QuoRem(n.value, decimals);
      if r == 0 then Render(q, Dec)
      else
        PaddingNonNegative(r, decimals);
        Render(q, Dec) + "." + TrimZeros(Fraction(r, decimals))
  }

  // ----- the reader -----

  /** Where the point is, or the length of the text when there is none. */
  function PointAt(s: string): (i: nat)
    ensures i <= |s|
    ensures forall k | 0 <= k < i :: s[k] != '.'
    ensures i < |s| ==> s[i] == '.'
  {
    if s == [] || s[0] == '.' then 0 else 1 + PointAt(s[1..])
  }

  /** The base units a decimal text stands for: whole part and fraction, scaled by 10^decimals. */
  function ReadUnits(s: string, decimals: nat): Option<nat> {
    var at := PointAt(s);
    var whole, frac := s[..at], if at < |s| then s[at + 1..] else "";
    if whole == [] || !AllDigits(whole, Dec) || !AllDigits(frac, Dec) || |frac| > decimals then None
    else Some(Shift(Value(whole, Dec), decimals, Dec) + Shift(Value(frac, Dec), decimals - |frac|, Dec))
  }

  lemma {:induction false} TrimZerosValue(s: string)
    requires AllDigits(s, Dec)
    ensures |TrimZeros(s)| <= |s| && AllDigits(TrimZeros(s), Dec)
    ensures Value(s, Dec) == Shift(Value(TrimZeros(s), Dec), |s| - |TrimZeros(s)|, Dec)
    ensures TrimZeros(s) != [] ==> TrimZeros(s)[|TrimZeros(s)| - 1] != '0'
    ensures TrimZeros(s) == [] ==> Value(s, Dec) == 0
  {
    if s != [] && s[|s| - 1] == '0' {
      var u := s[..|s| - 1];
      TrimZerosValue(u);
    }
  }

  lemma PointSplits(whole: string, frac: string)
    requires AllDigits(whole, Dec)
    ensures PointAt(whole) == |whole|
    ensures PointAt(whole + "." + frac) == |whole|
  {
    var s := whole + "." + frac;
    assert s[|whole|] == '.';
    assert forall k | 0 <= k < |whole| :: s[k] == whole[k] && IsDigit(whole[k], Dec);
  }

  lemma ReadWhole(whole: string, decimals: nat)
    requires whole != [] && AllDigits(whole, Dec)
    ensures ReadUnits(whole, decimals) == Some(Shift(Value(whole, Dec), decimals, Dec))
  {
    PointSplits(whole, "");
    assert whole[..|whole|] == whole;
    ShiftZero(decimals, Dec);
  }

  lemma ReadPoint(whole: string, frac: string, decimals: nat)
    requires whole != [] && AllDigits(whole, Dec) && AllDigits(frac, Dec) && |frac| <= decimals
    ensures ReadUnits(whole + "." + frac, decimals)
         == Some(Shift(Value(whole, Dec), decimals, Dec) + Shift(Value(frac, Dec), decimals - |frac|, Dec))
  {
    PointSplits(whole, frac);
    var s := whole + "." + frac;
    assert s[..|whole|] == whole && s[|whole| + 1..] == frac;
  }

  lemma ReadTrimmed(whole: string, q: nat, frac: string, r: nat, decimals: nat)
    requires whole != [] && AllDigits(whole, Dec) && Value(whole, Dec) == q
    requires AllDigits(frac, Dec) && |frac| == decimals && Value(frac, Dec) == r
    ensures ReadUnits(whole + "." + TrimZeros(frac), decimals) == Some(Shift(q, decimals, Dec) + r)
  {
    hide ReadUnits;
    TrimZerosValue(frac);
    ReadPoint(whole, TrimZeros(frac), decimals);
  }

  lemma WholeRead(q: nat, decimals: nat)
    ensures ReadUnits(Render(q, Dec), decimals) == Some(Shift(q, decimals, Dec))
  {
    RenderRoundTrip(q, Dec);
    ReadWhole(Render(q, Dec), decimals);
  }

  lemma FractionRead(q: nat, r: nat, decimals: nat, frac: string)
    requires AllDigits(frac, Dec) && |frac| == decimals && Value(frac, Dec) == r
    ensures ReadUnits(Render(q, Dec) + "." + TrimZeros(frac), decimals) == Some(Shift(q, decimals, Dec) + r)
  {
    RenderRoundTrip(q, Dec);
    ReadTrimmed(Render(q, Dec), q, frac, r, decimals);
  }

  lemma UnitsRead(q: nat, r: nat, decimals: nat)
    requires Padding(r, decimals) >= 0
    ensures ReadUnits(Render(q, Dec) + "." + TrimZeros(Fraction(r, decimals)), decimals)
         == Some(Shift(q, decimals, Dec) + r)
  {
    FractionValue(r, decimals);
    FractionRead(q, r, decimals, Fraction(r, decimals));
  }

  /** Reading the text back and scaling it gives exactly the amount. */
  lemma WholeUnitsRoundTrip(n: nat, decimals: int)
    ensures ReadUnits(WholeUnits(Some(n), decimals), if decimals > 0 then decimals else 0) == Some(n)
  {
    hide ReadUnits, Render, TrimZeros;
    if decimals <= 0 {
      WholeRead(n, 0);
    } else {
      var (q, r) := QuoRem(n, decimals);
      QuoRemShift(n, decimals);
      if r == 0 {
        WholeRead(q, decimals);
      } else {
        PaddingNonNegative(r, decimals);
        UnitsRead(q, r, decimals);
      }
    }
  }

  /** A fraction is written exactly when there is one, and never ends in a zero or a bare point. */
  lemma WholeUnitsCanonical(n: nat, decimals: int)
    ensures var s := WholeUnits(Some(n), decimals);
            && (PointAt(s) < |s| <==> decimals > 0 && QuoRem(n, decimals).1 != 0)
            && (PointAt(s) < |s| ==> s[|s| - 1] != '0' && s[|s| - 1] != '.')
  {
    if decimals <= 0 {
      RenderRoundTrip(n, Dec);
      PointSplits(Render(n, Dec), "");
    } else {
      var (q, r) := QuoRem(n, decimals);
      RenderRoundTrip(q, Dec);
      if r == 0 {
        PointSplits(Render(q, Dec), "");
      } else {
        PaddingNonNegative(r, decimals);
        FractionValue(r, decimals);
        var frac := Fraction(r, decimals);
        TrimZerosValue(frac);
        var t := TrimZeros(frac);
        PointSplits(Render(q, Dec), t);
        assert IsDigit(t[|t| - 1], Dec);
      }
    }
  }

  lemma FractionValue(r: nat, decimals: nat)
    requires Padding(r, decimals) >= 0
    ensures |Fraction(r, decimals)| == decimals
    ensures AllDigits(Fraction(r, decimals), Dec) && Value(Fraction(r, decimals), Dec) == r
  {
    RenderRoundTrip(r, Dec);
    ValueZeros(Padding(r, decimals), Dec);
    ValueConcat(Repeat('0', Padding(r, decimals)), Render(r, Dec), Dec);
    ShiftZero(|Render(r, Dec)|, Dec);
  }

  /** So no two amounts of one token share a rendering. */
  lemma WholeUnitsInjective(m: nat, n: nat, decimals: int)
    ensures WholeUnits(Some(m), decimals) == WholeUnits(Some(n), decimals) <==> m == n
  {
    WholeUnitsRoundTrip(m, decimals);
    WholeUnitsRoundTrip(n, decimals);
  }
}
