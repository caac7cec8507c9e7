/**
 * ethers' `parseEther` and `formatEther` by their meaning: exact fixed-point
 * conversion between a decimal ether amount and an integer number of wei,
 * with 18 decimals (1 ether = 10^18 wei).
 */
module Ether {
  import opened Wrappers
  import opened Text

  const Decimals: nat := 18
  const WeiPerEther: nat := 1_000_000_000_000_000_000

  lemma WeiPerEtherIsPow10()
    ensures WeiPerEther == Pow10(Decimals)
  {
    assert Pow10(6) == 1_000_000;
    assert Pow10(12) == 1_000_000_000_000;
  }

  /** Fraction digits padded on the right with zeros to at least 18 places. */
  function PadFraction(f: string): (p: string)
    requires AllDigits(f)
    ensures AllDigits(p) && |p| >= Decimals
  {
    if |f| >= Decimals then f else f + Zeros(Decimals - |f|)
  }

  /** The wei in the fraction digits of an ether amount; None when a digit past the 18th is not 0. */
  function FractionWei(f: string): Option<nat>
    requires AllDigits(f)
  {
    var p := PadFraction(f);
    if AllZeros(p[Decimals..]) then Some(DigitsVal(p[..Decimals])) else None
  }

  /** `ethers.parseEther(s)`: the wei amount, or None when it throws. */
  function ParseEther(s: string): Option<nat>
  {
    ParseParts(Split(s, '.'))
  }

  /** The amount from the fields around the points: one field of digits, or two. */
  function ParseParts(parts: seq<string>): (r: Option<nat>)
    ensures r.Some? ==>
      1 <= |parts| <= 2 && (forall i | 0 <= i < |parts| :: AllDigits(parts[i]))
      && exists i | 0 <= i < |parts| :: |parts[i]| > 0
  {
    if |parts| == 1 then
      if |parts[0]| > 0 && AllDigits(parts[0]) then Some(DigitsVal(parts[0]) * WeiPerEther) else None
    else if |parts| == 2 then ParseFields(parts[0], parts[1])
    else None
  }

  /** Whole and fraction digits around a single point; at least one of them present. */
  function ParseFields(w: string, f: string): Option<nat>
  {
    if AllDigits(w) && AllDigits(f) && |w| + |f| > 0 then WeiOfParts(DigitsVal(w), FractionWei(f))
    else None
  }

  /** Whole ether plus the wei of the fraction, when the fraction fits. */
  function WeiOfParts(whole: nat, fraction: Option<nat>): Option<nat>
  {
    match fraction
    case None => None
    case Some(x) => Some(whole * WeiPerEther + x)
  }

  /** A whole number of ether, written without a point. */
  lemma ParseWholeEther(w: string)
    requires |w| > 0 && AllDigits(w)
    ensures ParseEther(w) == Some(DigitsVal(w) * WeiPerEther)
  {
    assert NoChar(w, '.');
    SplitNoSep(w, '.');
  }

  /** The two fields of `w.f` when both are digit strings. */
  lemma SplitDecimal(w: string, f: string)
    requires AllDigits(w) && AllDigits(f)
    ensures Split(w + "." + f, '.') == [w, f]
  {
    assert NoChar(w, '.') && NoChar(f, '.');
    SplitAtFirst(w, '.', f);
    SplitNoSep(f, '.');
  }

  /** `w.f` parses to w ether plus the wei of its fraction digits. */
  lemma ParseDecimalFields(w: string, f: string)
    requires AllDigits(w) && AllDigits(f)
    ensures ParseEther(w + "." + f) == ParseFields(w, f)
  {
    SplitDecimal(w, f);
  }

  /** `w.f` with at most 18 fraction digits is w ether plus f scaled to 18 places. */
  lemma {:induction false} ParseDecimalEther(w: string, f: string)
    requires AllDigits(w) && AllDigits(f) && |w| + |f| > 0 && |f| <= Decimals
    ensures ParseEther(w + "." + f) == Some(DigitsVal(w) * WeiPerEther + DigitsVal(f) * Pow10(Decimals - |f|))
  {
    SplitDecimal(w, f);
    ShortFractionWei(f);
    var parts := Split(w + "." + f, '.');
    assert parts[0] == w && parts[1] == f;
  }

  /** Fraction digits within 18 places are scaled up to 18 places. */
  lemma {:induction false} ShortFractionWei(f: string)
    requires AllDigits(f) && |f| <= Decimals
    ensures FractionWei(f) == Some(DigitsVal(f) * Pow10(Decimals - |f|))
  {
    var k := Decimals - |f|;
    var p := PadFraction(f);
    assert p == f + Zeros(k);
    assert p[..Decimals] == p && p[Decimals..] == [];
    TrailingZerosVal(f, k);
  }

  /** A trailing zero in the fraction changes nothing. */
  lemma FractionTrailingZero(f: string)
    requires AllDigits(f)
    ensures AllDigits(f + "0") && FractionWei(f + "0") == FractionWei(f)
  {
    var g := f + "0";
    if |f| < Decimals {
      assert PadFraction(g) == g + Zeros(Decimals - |g|);
      assert PadFraction(g) == PadFraction(f);
    } else {
      assert PadFraction(g) == g && PadFraction(f) == f;
      assert g[..Decimals] == f[..Decimals];
      var tail := f[Decimals..];
      assert g[Decimals..] == tail + "0";
      assert AllZeros(tail + "0") ==> AllZeros(tail) by {
        if AllZeros(tail + "0") {
          forall i | 0 <= i < |tail| ensures tail[i] == '0' {
            assert tail[i] == (tail + "0")[i];
          }
        }
      }
    }
  }

  lemma {:induction false} FractionTrailingZeros(f: string, k: nat)
    requires AllDigits(f)
    ensures AllDigits(f + Zeros(k)) && FractionWei(f + Zeros(k)) == FractionWei(f)
    decreases k
  {
    if k > 0 {
      FractionTrailingZeros(f, k - 1);
      assert f + Zeros(k) == (f + Zeros(k - 1)) + "0";
      FractionTrailingZero(f + Zeros(k - 1));
    } else {
      assert f + Zeros(k) == f;
    }
  }

  /** A fraction of zeros only is worth no wei. */
  lemma ZeroFraction(k: nat)
    ensures FractionWei(Zeros(k)) == Some(0)
  {
    FractionTrailingZeros("", k);
    assert "" + Zeros(k) == Zeros(k);
    assert PadFraction("") == Zeros(Decimals);
    assert Zeros(Decimals)[..Decimals] == Zeros(Decimals);
    AllZerosVal(Zeros(Decimals));
  }

  /** The launchpad fee string "0.0004" is 4 * 10^14 wei. */
  lemma FeeWei()
    ensures ParseEther("0.0004") == Some(400_000_000_000_000)
  {
    var w, f := "0", "0004";
    assert w + "." + f == "0.0004";
    assert ParseEther(w + "." + f) == Some(400_000_000_000_000) by {
      ParseDecimalEther(w, f);
      FeeFields();
    }
  }

  lemma FeeFields()
    ensures DigitsVal("0") * WeiPerEther + DigitsVal("0004") * Pow10(Decimals - |"0004"|) == 400_000_000_000_000
  {
    var z, f := "0", "0004";
    assert f[..|f| - 1] == "000";
    AllZerosVal("000");
    AllZerosVal(z);
    assert DigitsVal(f) == 4;
    assert Pow10(7) == 10_000_000;
    assert Pow10(14) == 100_000_000_000_000;
  }

  /** `s` padded on the left with zeros to k characters. */
  function PadLeft(s: string, k: nat): (r: string)
    ensures |r| == if |s| >= k then |s| else k
  {
    if |s| >= k then s else Zeros(k - |s|) + s
  }

  /**
   * `ethers.formatEther(wei)` before its own trailing-zero trimming: the whole
   * ether, a point, and the 18-digit fraction.
   */
  function FormatEther(wei: nat): (r: string)
    ensures var w := NatToString(wei / WeiPerEther);
      |r| == |w| + 1 + Decimals && r[..|w|] == w && r[|w|] == '.'
  {
    WeiPerEtherIsPow10();
    NatToStringLength(wei % WeiPerEther, Decimals);
    NatToString(wei / WeiPerEther) + "." + PadLeft(NatToString(wei % WeiPerEther), Decimals)
  }

  /** The fraction field of FormatEther is 18 digits worth wei % 10^18. */
  lemma FormatEtherFraction(wei: nat)
    ensures var f := PadLeft(NatToString(wei % WeiPerEther), Decimals);
      |f| == Decimals && AllDigits(f) && DigitsVal(f) == wei % WeiPerEther
  {
    var t := NatToString(wei % WeiPerEther);
    WeiPerEtherIsPow10();
    NatToStringLength(wei % WeiPerEther, Decimals);
    LeadingZerosVal(Decimals - |t|, t);
  }

  /** Parsing what formatEther prints gives the wei amount back. */
  lemma ParseFormatEther(wei: nat)
    ensures ParseEther(FormatEther(wei)) == Some(wei)
  {
    var w := NatToString(wei / WeiPerEther);
    var f := PadLeft(NatToString(wei % WeiPerEther), Decimals);
    FormatEtherFraction(wei);
    ParseDecimalEther(w, f);
  }
}
