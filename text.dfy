/**
 * String helpers with the meaning the JavaScript built-ins give them:
 * `startsWith`, `includes`, `split`, decimal digit strings, `Number(...)`
 * on a decimal string, integer-to-string conversion and ASCII lower-casing.
 */
module Text {
  import opened Wrappers

  /** JavaScript truthiness of a string that may be null or undefined (None). */
  predicate IsTruthy(s: Option<string>) {
    s.Some? && s.value != ""
  }

  /** `s || fallback` for a string that may be null or undefined. */
  function OrElse(s: Option<string>, fallback: string): (r: string)
    ensures IsTruthy(s) ==> r == s.value
    ensures !IsTruthy(s) ==> r == fallback
  {
    if IsTruthy(s) then s.value else fallback
  }

  predicate StartsWith(s: string, prefix: string) {
    |prefix| <= |s| && s[..|prefix|] == prefix
  }

  /** `s.includes(part)` */
  predicate Contains(s: string, part: string)
    decreases |s|
  {
    StartsWith(s, part) || (|s| > 0 && Contains(s[1..], part))
  }

  predicate NoChar(s: string, c: char) {
    forall i | 0 <= i < |s| :: s[i] != c
  }

  /** A digit string contains no character that is not a digit. */
  lemma DigitsHaveNoChar(s: string, c: char)
    requires AllDigits(s) && !IsDigit(c)
    ensures NoChar(s, c)
  {
    forall i | 0 <= i < |s| ensures s[i] != c {
      assert IsDigit(s[i]);
    }
  }

  /** `s.split(sep)` for a one-character separator: the fields between separators. */
  function Split(s: string, sep: char): (fields: seq<string>)
    ensures |fields| >= 1
    ensures forall i | 0 <= i < |fields| :: NoChar(fields[i], sep)
    decreases |s|
  {
    if |s| == 0 then [""]
    else
      var rest := Split(s[1..], sep);
      if s[0] == sep then [""] + rest
      else [[s[0]] + rest[0]] + rest[1..]
  }

  /** `fields.join(sep)` */
  function Join(fields: seq<string>, sep: char): string
    requires |fields| >= 1
    decreases |fields|
  {
    if |fields| == 1 then fields[0] else fields[0] + [sep] + Join(fields[1..], sep)
  }

  /** Splitting and joining again gives back the original string. */
  lemma {:induction false} JoinSplit(s: string, sep: char)
    ensures Join(Split(s, sep), sep) == s
    decreases |s|
  {
    if |s| > 0 {
      JoinSplit(s[1..], sep);
      var rest := Split(s[1..], sep);
      if s[0] == sep {
        assert Split(s, sep) == [""] + rest;
        assert ([""] + rest)[1..] == rest;
      } else {
        var f := Split(s, sep);
        assert f == [[s[0]] + rest[0]] + rest[1..];
        if |rest| == 1 {
          assert f == [[s[0]] + rest[0]];
        } else {
          assert f[1..] == rest[1..];
          assert Join(rest, sep) == rest[0] + [sep] + Join(rest[1..], sep);
        }
      }
    }
  }

  /** A string without the separator is a single field. */
  lemma {:induction false} SplitNoSep(s: string, sep: char)
    requires NoChar(s, sep)
    ensures Split(s, sep) == [s]
    decreases |s|
  {
    if |s| > 0 {
      SplitNoSep(s[1..], sep);
      assert Split(s, sep) == [[s[0]] + s[1..]];
      assert [s[0]] + s[1..] == s;
    }
  }

  /** The first separator ends the first field; the rest is split independently. */
  lemma {:induction false} SplitAtFirst(p: string, sep: char, q: string)
    requires NoChar(p, sep)
    ensures Split(p + [sep] + q, sep) == [p] + Split(q, sep)
    decreases |p|
  {
    if |p| == 0 {
      assert p + [sep] + q == [sep] + q;
      assert ([sep] + q)[1..] == q;
    } else {
      var s := p + [sep] + q;
      assert s[0] == p[0];
      assert s[1..] == p[1..] + [sep] + q;
      SplitAtFirst(p[1..], sep, q);
      assert [p[0]] + p[1..] == p;
    }
  }

  // ----- decimal digits -----

  predicate IsDigit(c: char) { '0' <= c <= '9' }

  predicate AllDigits(s: string) {
    forall i | 0 <= i < |s| :: IsDigit(s[i])
  }

  predicate AllZeros(s: string) {
    forall i | 0 <= i < |s| :: s[i] == '0'
  }

  function Zeros(k: nat): (z: string)
    ensures |z| == k && AllZeros(z) && AllDigits(z)
  {
    seq(k, _ => '0')
  }

  function DigitValue(c: char): (d: nat)
    requires IsDigit(c)
    ensures d < 10
  {
    c as int - '0' as int
  }

  function DigitChar(d: nat): (c: char)
    requires d < 10
    ensures IsDigit(c) && DigitValue(c) == d
  {
    ('0' as int + d) as char
  }

  /** The value of a decimal digit string, most significant digit first. */
  function DigitsVal(s: string): nat
    requires AllDigits(s)
    decreases |s|
  {
    if |s| == 0 then 0 else DigitsVal(s[..|s| - 1]) * 10 + DigitValue(s[|s| - 1])
  }

  function Pow10(k: nat): (p: nat)
    ensures p >= 1
  {
    if k == 0 then 1 else 10 * Pow10(k - 1)
  }

  /** A digit string of length k denotes a number below 10^k. */
  lemma {:induction false} DigitsValBound(s: string)
    requires AllDigits(s)
    ensures DigitsVal(s) < Pow10(|s|)
    decreases |s|
  {
    if |s| > 0 {
      DigitsValBound(s[..|s| - 1]);
    }
  }

  /** Leading zeros do not change the value of a digit string. */
  lemma {:induction false} LeadingZerosVal(k: nat, t: string)
    requires AllDigits(t)
    ensures AllDigits(Zeros(k) + t) && DigitsVal(Zeros(k) + t) == DigitsVal(t)
    decreases |t|
  {
    var s := Zeros(k) + t;
    if |t| == 0 {
      assert s == Zeros(k);
      ZerosVal(k);
    } else {
      assert s[..|s| - 1] == Zeros(k) + t[..|t| - 1];
      LeadingZerosVal(k, t[..|t| - 1]);
    }
  }

  lemma {:induction false} ZerosVal(k: nat)
    ensures DigitsVal(Zeros(k)) == 0
    decreases k
  {
    if k > 0 {
      assert Zeros(k)[..k - 1] == Zeros(k - 1);
      ZerosVal(k - 1);
    }
  }

  /** A digit string of zeros, whatever its length, is worth 0. */
  lemma {:induction false} AllZerosVal(s: string)
    requires AllZeros(s)
    ensures AllDigits(s) && DigitsVal(s) == 0
  {
    assert s == Zeros(|s|);
    ZerosVal(|s|);
  }

  /** Trailing zeros multiply the value by a power of ten. */
  lemma {:induction false} TrailingZerosVal(t: string, k: nat)
    requires AllDigits(t)
    ensures AllDigits(t + Zeros(k)) && DigitsVal(t + Zeros(k)) == DigitsVal(t) * Pow10(k)
    decreases k
  {
    var s := t + Zeros(k);
    if k > 0 {
      var u := t + Zeros(k - 1);
      assert s == u + "0";
      TrailingZerosVal(t, k - 1);
      AppendDigitVal(u, '0');
      ScaleByTen(DigitsVal(t), Pow10(k - 1));
    } else {
      assert s == t;
    }
  }

  /** Appending a digit multiplies by ten and adds it. */
  lemma AppendDigitVal(u: string, c: char)
    requires AllDigits(u) && IsDigit(c)
    ensures AllDigits(u + [c]) && DigitsVal(u + [c]) == DigitsVal(u) * 10 + DigitValue(c)
  {
    assert (u + [c])[..|u|] == u;
  }

  lemma ScaleByTen(v: nat, p: nat)
    ensures (v * p) * 10 == v * (10 * p)
  {
  }

  /** The decimal representation of n (`String(n)` / `n.toString()`). */
  function NatToString(n: nat): (r: string)
    ensures |r| >= 1 && AllDigits(r)
    ensures DigitsVal(r) == n
    ensures |r| > 1 ==> r[0] != '0'
    decreases n
  {
    if n < 10 then [DigitChar(n)] else NatToString(n / 10) + [DigitChar(n % 10)]
  }

  /** A number below 10^k needs at most k digits. */
  lemma {:induction false} NatToStringLength(n: nat, k: nat)
    requires k >= 1 && n < Pow10(k)
    ensures |NatToString(n)| <= k
    decreases n
  {
    if n >= 10 {
      assert k >= 2;
      NatToStringLength(n / 10, k - 1);
    }
  }

  /** Distinct numbers have distinct decimal representations. */
  lemma NatToStringInjective(a: nat, b: nat)
    requires NatToString(a) == NatToString(b)
    ensures a == b
  {
  }

  /** `String(i)` for a (possibly negative) integer. */
  function IntToString(i: int): (r: string)
    ensures |r| >= 1 && NoChar(r, ':')
    ensures r[0] == '-' <==> i < 0
    ensures i >= 0 ==> r == NatToString(i)
    ensures i < 0 ==> r == "-" + NatToString(-i)
  {
    if i < 0 then "-" + NatToString(-i) else NatToString(i)
  }

  /** Distinct integers have distinct string forms. */
  lemma IntToStringInjective(a: int, b: int)
    requires IntToString(a) == IntToString(b)
    ensures a == b
  {
    if a < 0 && b < 0 {
      assert NatToString(-a) == IntToString(a)[1..];
      NatToStringInjective(-a, -b);
    } else {
      NatToStringInjective(a, b);
    }
  }

  /**
   * `Number(s) || 0` for a string that is either a decimal digit string
   * (the empty string converts to 0) or not a number at all (NaN, which `|| 0` turns into 0).
   */
  function NumberOrZero(s: string): (n: nat)
    ensures AllDigits(s) ==> n == DigitsVal(s)
    ensures !AllDigits(s) ==> n == 0
  {
    if AllDigits(s) then DigitsVal(s) else 0
  }

  /** `Number(s)` on the indexer's decimal strings; None is NaN. */
  function JsNumber(s: string): (r: Option<nat>)
    ensures r.None? <==> !AllDigits(s)
    ensures r.Some? ==> r.value == NumberOrZero(s)
  {
    if AllDigits(s) then Some(DigitsVal(s)) else None
  }

  /** `Number(x) || 0` on an optional field: undefined and null give 0, so does NaN. */
  function NumberOrZeroField(x: Option<string>): (n: nat)
    ensures x.None? ==> n == 0
    ensures x.Some? ==> n == NumberOrZero(x.value)
  {
    match x
    case None => 0
    case Some(s) => match JsNumber(s) case None => 0 case Some(v) => v
  }

  /** `s.toLowerCase()` on ASCII text. */
  function ToLowerAscii(s: string): (r: string)
    ensures |r| == |s|
    ensures forall i | 0 <= i < |s| :: r[i] == (if 'A' <= s[i] <= 'Z' then (s[i] as int + 32) as char else s[i])
  {
    seq(|s|, i requires 0 <= i < |s| => if 'A' <= s[i] <= 'Z' then (s[i] as int + 32) as char else s[i])
  }
}
