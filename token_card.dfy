/**
 * The TokenCard component (app/components/TokenCard.tsx): the price label
 * (`formatPrice`), the minted count and sold-out flag, the choice between
 * `priceEth` and `price`, and the card's dimensions.
 */
module TokenCard {
  import opened Wrappers
  import opened Text
  import opened Ether
  import NftImage

  // ----- the trailing-zero pattern /(\.0+|(?<=\.\d+)0+)$/ -----

  /** First alternative at p: a '.' then one or more '0' up to the end. */
  predicate DotZerosAt(s: string, p: nat) {
    p + 1 < |s| && s[p] == '.' && AllZeros(s[p + 1..])
  }

  /**
   * The lookbehind `(?<=\.\d+)` at p: the characters right before p are one
   * or more digits, and a '.' comes right before those digits.
   */
  predicate DotDigitsBefore(s: string, p: nat)
    requires p <= |s|
    decreases p
  {
    p >= 2 && IsDigit(s[p - 1]) && (s[p - 2] == '.' || DotDigitsBefore(s, p - 1))
  }

  /** Second alternative at p: one or more '0' up to the end, behind a '.' and digits. */
  predicate ZerosAfterFractionAt(s: string, p: nat) {
    p < |s| && AllZeros(s[p..]) && DotDigitsBefore(s, p)
  }

  predicate TrimMatchesAt(s: string, p: nat) {
    DotZerosAt(s, p) || ZerosAfterFractionAt(s, p)
  }

  /** The leftmost start position, from `from` on, at which the pattern matches. */
  function FirstTrimMatch(s: string, from: nat): (r: Option<nat>)
    requires from <= |s|
    ensures r.Some? ==> from <= r.value < |s| && TrimMatchesAt(s, r.value)
                        && forall p | from <= p < r.value :: !TrimMatchesAt(s, p)
    ensures r.None? ==> forall p | from <= p < |s| :: !TrimMatchesAt(s, p)
    decreases |s| - from
  {
    if from == |s| then None
    else if TrimMatchesAt(s, from) then Some(from)
    else FirstTrimMatch(s, from + 1)
  }

  /**
   * `s.replace(/(\.0+|(?<=\.\d+)0+)$/, '')`: the leftmost match, which always
   * runs to the end of the string, is removed; without a match s is unchanged.
   */
  function TrimZeros(s: string): (r: string)
    ensures |r| <= |s| && r == s[..|r|]
    ensures |r| < |s| ==> TrimMatchesAt(s, |r|)
    ensures forall p | 0 <= p < |r| :: !TrimMatchesAt(s, p)
  {
    match FirstTrimMatch(s, 0)
    case None => s
    case Some(p) => s[..p]
  }

  /** The trim is the cut at c when the pattern matches at c and nowhere before. */
  lemma TrimAt(s: string, c: nat)
    requires c <= |s|
    requires c < |s| ==> TrimMatchesAt(s, c)
    requires forall p | 0 <= p < c :: !TrimMatchesAt(s, p)
    ensures TrimZeros(s) == s[..c]
  {
    var n: nat := |TrimZeros(s)|;
    assert n < c ==> !TrimMatchesAt(s, n);
    assert c < n ==> !TrimMatchesAt(s, c);
  }

  /** No match can start at or before a character other than '0' (a '.' there may start one). */
  lemma NoMatchUpTo(s: string, b: nat)
    requires b < |s| && s[b] != '0'
    ensures forall p | 0 <= p < b :: !TrimMatchesAt(s, p)
    ensures s[b] != '.' ==> forall p | 0 <= p <= b :: !TrimMatchesAt(s, p)
  {
    forall p | 0 <= p <= b ensures p < b || s[b] != '.' ==> !TrimMatchesAt(s, p) {
      assert s[p..][b - p] == s[b];
      if p < b {
        assert s[p + 1..][b - p - 1] == s[b];
      }
    }
  }

  /** The fraction digits without their trailing zeros. */
  function StripZeros(f: string): (g: string)
    ensures |g| <= |f| && f == g + Zeros(|f| - |g|)
    ensures |g| == 0 || g[|g| - 1] != '0'
    ensures |g| == 0 <==> AllZeros(f)
    decreases |f|
  {
    if |f| > 0 && f[|f| - 1] == '0' then
      var g := StripZeros(f[..|f| - 1]);
      assert f == f[..|f| - 1] + "0";
      assert Zeros(|f| - |g|) == Zeros(|f| - 1 - |g|) + "0";
      g
    else
      assert f == f + Zeros(0);
      f
  }

  /** A trailing point is kept: "1." is not changed. */
  lemma TrimNoFraction(w: string)
    requires AllDigits(w)
    ensures TrimZeros(w + ".") == w + "."
  {
    var s := w + ".";
    NoMatchUpTo(s, |w|);
    assert !ZerosAfterFractionAt(s, |w|) by {
      assert s[|w|..][0] == '.';
    }
    TrimAt(s, |s|);
    assert s[..|s|] == s;
  }

  /** A fraction of zeros is removed with its point: "2.000" becomes "2". */
  lemma TrimZeroFraction(w: string, f: string)
    requires AllDigits(w) && AllZeros(f) && |f| > 0
    ensures TrimZeros(w + "." + f) == w
  {
    var s := w + "." + f;
    NoMatchUpTo(s, |w|);
    assert s[|w| + 1..] == f;
    assert DotZerosAt(s, |w|);
    TrimAt(s, |w|);
    assert s[..|w|] == w;
  }

  /** The lookbehind holds at c when a '.' and digits end right before c. */
  lemma {:induction false} LookbehindAt(s: string, q: nat, c: nat)
    requires q + 2 <= c <= |s| && s[q] == '.' && AllDigits(s[q + 1..c])
    ensures DotDigitsBefore(s, c)
    decreases c
  {
    assert IsDigit(s[q + 1..c][c - 1 - (q + 1)]);
    if q + 2 < c {
      var digits := s[q + 1..c - 1];
      assert AllDigits(digits) by {
        forall i | 0 <= i < |digits| ensures IsDigit(digits[i]) {
          assert digits[i] == s[q + 1..c][i];
        }
      }
      LookbehindAt(s, q, c - 1);
    }
  }

  /** Otherwise only the fraction's trailing zeros go: "1.500" becomes "1.5". */
  lemma TrimFraction(w: string, f: string)
    requires AllDigits(w) && AllDigits(f) && !AllZeros(f)
    ensures TrimZeros(w + "." + f) == w + "." + StripZeros(f)
  {
    var g := StripZeros(f);
    var z := Zeros(|f| - |g|);
    assert w + "." + f == w + "." + g + z by {
      assert f == g + z;
    }
    assert AllDigits(g) by {
      forall i | 0 <= i < |g| ensures IsDigit(g[i]) {
        assert g[i] == f[i];
      }
    }
    TrimAfterDigits(w, g, z);
  }

  /** Zeros after a point and digits ending in a nonzero digit are exactly what is cut. */
  lemma TrimAfterDigits(w: string, g: string, z: string)
    requires AllDigits(w) && AllDigits(g) && |g| > 0 && g[|g| - 1] != '0' && AllZeros(z)
    ensures TrimZeros(w + "." + g + z) == w + "." + g
  {
    var u := w + "." + g;
    var s := u + z;
    var c := |u|;
    assert forall p | 0 <= p < c :: !TrimMatchesAt(s, p) by {
      assert s[c - 1] == g[|g| - 1];
      NoMatchUpTo(s, c - 1);
    }
    assert c < |s| ==> TrimMatchesAt(s, c) by {
      if c < |s| {
        FractionZerosMatch(w, g, z);
      }
    }
    TrimAt(s, c);
    assert s[..c] == u;
  }

  /** Zeros after a point and digits match the second alternative. */
  lemma FractionZerosMatch(w: string, g: string, z: string)
    requires AllDigits(w) && AllDigits(g) && |g| > 0 && AllZeros(z) && |z| > 0
    ensures ZerosAfterFractionAt(w + "." + g + z, |w| + 1 + |g|)
  {
    var s := w + "." + g + z;
    var c := |w| + 1 + |g|;
    assert s[c..] == z;
    assert s[|w| + 1..c] == g;
    LookbehindAt(s, |w|, c);
  }

  /** Trimming `w.f` with an all-zero fraction keeps its value. */
  lemma TrimZeroFractionValue(w: string, f: string)
    requires AllDigits(w) && AllZeros(f) && |f| > 0 && |w| > 0
    ensures ParseEther(TrimZeros(w + "." + f)) == ParseEther(w + "." + f)
  {
    TrimZeroFraction(w, f);
    ParseDecimalFields(w, f);
    assert f == Zeros(|f|);
    ZeroFraction(|f|);
    ParseWholeEther(w);
  }

  /** Two fractions worth the same wei give the same amount behind the same integer part. */
  lemma SameFractionSameEther(w: string, f: string, g: string)
    requires AllDigits(w) && AllDigits(f) && AllDigits(g) && |w| > 0
    requires FractionWei(f) == FractionWei(g)
    ensures ParseEther(w + "." + f) == ParseEther(w + "." + g)
  {
    ParseDecimalFields(w, f);
    ParseDecimalFields(w, g);
    SameFractionSameFields(w, f, g);
  }

  lemma SameFractionSameFields(w: string, f: string, g: string)
    requires |w| > 0 && AllDigits(f) && AllDigits(g) && FractionWei(f) == FractionWei(g)
    ensures ParseFields(w, f) == ParseFields(w, g)
  {
    if AllDigits(w) {
      assert ParseFields(w, f) == WeiOfParts(DigitsVal(w), FractionWei(f));
      assert ParseFields(w, g) == WeiOfParts(DigitsVal(w), FractionWei(g));
    }
  }

  /** Trimming the trailing zeros of a fraction keeps its value. */
  lemma TrimFractionValue(w: string, f: string)
    requires AllDigits(w) && AllDigits(f) && !AllZeros(f) && |w| > 0
    ensures ParseEther(TrimZeros(w + "." + f)) == ParseEther(w + "." + f)
  {
    TrimFraction(w, f);
    var g := StripZeros(f);
    var k := |f| - |g|;
    assert AllDigits(g) by {
      forall i | 0 <= i < |g| ensures IsDigit(g[i]) {
        assert g[i] == (g + Zeros(k))[i];
      }
    }
    FractionTrailingZeros(g, k);
    SameFractionSameEther(w, f, g);
  }

  /** Trimming a decimal ether amount does not change its value. */
  lemma TrimKeepsEtherValue(w: string, f: string)
    requires AllDigits(w) && AllDigits(f) && |w| > 0
    ensures ParseEther(TrimZeros(w + "." + f)) == ParseEther(w + "." + f)
  {
    if f == "" {
      TrimNoFraction(w);
      assert w + "." + f == w + ".";
    } else if AllZeros(f) {
      TrimZeroFractionValue(w, f);
    } else {
      TrimFractionValue(w, f);
    }
  }

  // ----- formatPrice -----

  /** `/\d*\.\d+/.test(price)`: somewhere a '.' is followed by a digit. */
  predicate IsEthFormat(price: string) {
    exists i | 0 <= i < |price| - 1 :: price[i] == '.' && IsDigit(price[i + 1])
  }

  /** `BigInt(price || '0')` for a decimal digit string; None when BigInt throws. */
  function WeiOf(price: string): (r: Option<nat>)
    ensures price == "" ==> r == Some(0)
    ensures r.Some? && price != "" ==> AllDigits(price) && r.value == DigitsVal(price)
    ensures price != "" && AllDigits(price) ==> r == Some(DigitsVal(price))
  {
    if price == "" then Some(0)
    else if AllDigits(price) then Some(DigitsVal(price))
    else None
  }

  datatype PriceLabel = SoldOut | Free | Amount(text: string)

  /** `formatPrice`; None when `BigInt` throws on a price that is neither ether nor wei. */
  function FormatPrice(price: string, isFreeMint: bool, isSoldOut: bool): (r: Option<PriceLabel>)
    ensures isSoldOut ==> r == Some(SoldOut)
    ensures !isSoldOut && isFreeMint ==> r == Some(Free)
    ensures !isSoldOut && !isFreeMint && IsEthFormat(price) ==> r == Some(Amount(TrimZeros(price)))
    ensures !isSoldOut && !isFreeMint && !IsEthFormat(price) && WeiOf(price).None? ==> r.None?
    ensures !isSoldOut && !isFreeMint && !IsEthFormat(price) && WeiOf(price).Some?
      ==> r == Some(Amount(TrimZeros(FormatEther(WeiOf(price).value))))
  {
    if isSoldOut then Some(SoldOut)
    else if isFreeMint then Some(Free)
    else if IsEthFormat(price) then Some(Amount(TrimZeros(price)))
    else
      match WeiOf(price)
      case None => None
      case Some(wei) => Some(Amount(TrimZeros(FormatEther(wei))))
  }

  /** An ether price `w.f` is only trimmed: its label is a prefix of it with the same value. */
  lemma EtherPriceOnlyTrimmed(w: string, f: string)
    requires AllDigits(w) && AllDigits(f) && |w| > 0 && |f| > 0
    ensures var price := w + "." + f;
      FormatPrice(price, false, false) == Some(Amount(TrimZeros(price)))
      && ParseEther(TrimZeros(price)) == ParseEther(price)
  {
    var price := w + "." + f;
    assert price[|w|] == '.' && IsDigit(price[|w| + 1]);
    TrimKeepsEtherValue(w, f);
  }

  /** A wei price is shown in ether: parsing the label back gives the same wei. */
  lemma {:induction false} WeiPriceShownInEther(price: string)
    requires AllDigits(price)
    ensures var r := FormatPrice(price, false, false);
      r.Some? && r.value.Amount? && ParseEther(r.value.text) == Some(NumberOrZero(price))
  {
    var wei := NumberOrZero(price);
    assert !IsEthFormat(price) by {
      forall i | 0 <= i < |price| - 1 ensures price[i] != '.' {
        assert IsDigit(price[i]);
      }
    }
    if price == "" {
      assert wei == 0;
    }
    var e := FormatEther(wei);
    var w := NatToString(wei / WeiPerEther);
    var f := PadLeft(NatToString(wei % WeiPerEther), Decimals);
    FormatEtherFraction(wei);
    TrimKeepsEtherValue(w, f);
    ParseFormatEther(wei);
  }

  /** A whole number of ether given in wei is shown as that integer: 10^18 wei is "1". */
  lemma {:induction false} WholeEtherShownAsInteger(n: nat)
    ensures FormatPrice(NatToString(n * WeiPerEther), false, false) == Some(Amount(NatToString(n)))
  {
    var price := NatToString(n * WeiPerEther);
    assert !IsEthFormat(price) by {
      forall i | 0 <= i < |price| - 1 ensures price[i] != '.' {
        assert IsDigit(price[i]);
      }
    }
    assert (n * WeiPerEther) / WeiPerEther == n && (n * WeiPerEther) % WeiPerEther == 0;
    FormatEtherFraction(n * WeiPerEther);
    var f := PadLeft(NatToString(0), Decimals);
    assert f == Zeros(Decimals - 1) + "0";
    assert AllZeros(f);
    TrimZeroFraction(NatToString(n), f);
  }

  /** `edition.priceEth || edition.price` */
  function DisplayPriceSource(priceEth: Option<string>, price: string): (r: string)
    ensures IsTruthy(priceEth) ==> r == priceEth.value
    ensures !IsTruthy(priceEth) ==> r == price
  {
    OrElse(priceEth, price)
  }

  // ----- supply and dimensions -----

  /** `Math.min(edition.totalSupply, edition.editionSize)` */
  function Minted(totalSupply: nat, editionSize: nat): (m: nat)
    ensures m <= editionSize && m <= totalSupply
    ensures m == totalSupply || m == editionSize
  {
    if totalSupply < editionSize then totalSupply else editionSize
  }

  /** `minted >= edition.editionSize` */
  predicate IsSoldOut(totalSupply: nat, editionSize: nat)
    ensures IsSoldOut(totalSupply, editionSize) <==> totalSupply >= editionSize
  {
    Minted(totalSupply, editionSize) >= editionSize
  }

  /** The count shown in the card's bottom row: `${minted}/${editionSize}`. */
  function CountText(totalSupply: nat, editionSize: nat): string {
    NatToString(Minted(totalSupply, editionSize)) + "/" + NatToString(editionSize)
  }

  /** The count splits at its one '/' into the minted count, capped at the size, and the size. */
  lemma CountTextFields(totalSupply: nat, editionSize: nat)
    ensures var fields := Split(CountText(totalSupply, editionSize), '/');
      |fields| == 2 && AllDigits(fields[0]) && AllDigits(fields[1])
      && DigitsVal(fields[0]) == Minted(totalSupply, editionSize) && DigitsVal(fields[1]) == editionSize
  {
    var m, e := NatToString(Minted(totalSupply, editionSize)), NatToString(editionSize);
    DigitsHaveNoChar(m, '/');
    DigitsHaveNoChar(e, '/');
    SplitAtFirst(m, '/', e);
    SplitNoSep(e, '/');
    assert CountText(totalSupply, editionSize) == m + ['/'] + e;
  }

  /** The card is the image plus 16px of padding on each side. */
  function CardWidth(scale: nat): (px: nat)
    ensures px == NftImage.Size(scale) + 32
  {
    scale * 72 + 32
  }

  /** The card is 24px taller when it shows the count/price row. */
  function CardHeight(scale: nat): (px: nat)
    ensures px == NftImage.Size(scale) + (if ShowsCountRow(scale) then 56 else 32)
    ensures ShowsCountRow(scale) ==> px == CardWidth(scale) + 24
    ensures !ShowsCountRow(scale) ==> px == CardWidth(scale)
  {
    scale * 72 + (if scale > 1 then 56 else 32)
  }

  /** The count/price row is rendered only at scales above 1. */
  predicate ShowsCountRow(scale: nat) {
    scale > 1
  }
}
