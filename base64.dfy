/**
 * `atob`: the forgiving-base64 decode of the WHATWG Infra Standard over the
 * alphabet of section 4 of RFC 4648, returning one character per decoded byte.
 * `Encode` is the standard padded encoding of RFC 4648 section 4; it is the
 * partner of the decoder (the round trip is proved below).
 */
module Base64 {
  import opened Wrappers

  type byte = x: int | 0 <= x < 256

  /** ASCII whitespace: TAB, LF, FF, CR and SPACE. */
  predicate IsAsciiWhitespace(c: char) {
    c == '\t' || c == '\n' || c == 12 as char || c == '\r' || c == ' '
  }

  predicate IsAlphabetChar(c: char) {
    'A' <= c <= 'Z' || 'a' <= c <= 'z' || '0' <= c <= '9' || c == '+' || c == '/'
  }

  predicate AllAlphabet(s: string) {
    forall i | 0 <= i < |s| :: IsAlphabetChar(s[i])
  }

  /** The 6-bit value an alphabet character stands for. */
  function SextetOf(c: char): (v: nat)
    requires IsAlphabetChar(c)
    ensures v < 64
  {
    if 'A' <= c <= 'Z' then c as int - 'A' as int
    else if 'a' <= c <= 'z' then c as int - 'a' as int + 26
    else if '0' <= c <= '9' then c as int - '0' as int + 52
    else if c == '+' then 62
    else 63
  }

  /** The alphabet character of a 6-bit value; the inverse of SextetOf. */
  function CharOf(v: nat): (c: char)
    requires v < 64
    ensures IsAlphabetChar(c) && SextetOf(c) == v
    ensures c != '=' && !IsAsciiWhitespace(c) && c != ','
  {
    if v < 26 then ('A' as int + v) as char
    else if v < 52 then ('a' as int + v - 26) as char
    else if v < 62 then ('0' as int + v - 52) as char
    else if v == 62 then '+'
    else '/'
  }

  /** Step 1 of the decoder: drop every ASCII whitespace character. */
  function RemoveWhitespace(s: string): (r: string)
    ensures |r| <= |s|
    ensures forall i | 0 <= i < |r| :: !IsAsciiWhitespace(r[i])
    decreases |s|
  {
    if |s| == 0 then ""
    else (if IsAsciiWhitespace(s[0]) then "" else [s[0]]) + RemoveWhitespace(s[1..])
  }

  /** Step 2: when the length is a multiple of 4, drop one or two trailing '='. */
  function StripPadding(d: string): string {
    if |d| % 4 == 0 && |d| >= 2 && d[|d| - 1] == '=' && d[|d| - 2] == '=' then d[..|d| - 2]
    else if |d| % 4 == 0 && |d| >= 1 && d[|d| - 1] == '=' then d[..|d| - 1]
    else d
  }

  /** Four sextets (24 bits) give three bytes. */
  function DecodeQuad(a: nat, b: nat, c: nat, d: nat): (r: seq<byte>)
    requires a < 64 && b < 64 && c < 64 && d < 64
    ensures |r| == 3
  {
    var n := a * 262144 + b * 4096 + c * 64 + d;
    [n / 65536, (n / 256) % 256, n % 256]
  }

  /** A final pair of sextets (12 bits): the last 4 bits are discarded. */
  function DecodePair(a: nat, b: nat): (r: seq<byte>)
    requires a < 64 && b < 64
    ensures |r| == 1
  {
    [(a * 64 + b) / 16]
  }

  /** A final triple of sextets (18 bits): the last 2 bits are discarded. */
  function DecodeTriple(a: nat, b: nat, c: nat): (r: seq<byte>)
    requires a < 64 && b < 64 && c < 64
    ensures |r| == 2
  {
    var n := (a * 4096 + b * 64 + c) / 4;
    [n / 256, n % 256]
  }

  /** Steps 5 to 7: the bit buffer, emptied every 24 bits and flushed at the end. */
  function DecodeSextets(d: string): seq<byte>
    requires AllAlphabet(d) && |d| % 4 != 1
    decreases |d|
  {
    if |d| == 0 then []
    else if |d| == 2 then DecodePair(SextetOf(d[0]), SextetOf(d[1]))
    else if |d| == 3 then DecodeTriple(SextetOf(d[0]), SextetOf(d[1]), SextetOf(d[2]))
    else DecodeQuad(SextetOf(d[0]), SextetOf(d[1]), SextetOf(d[2]), SextetOf(d[3])) + DecodeSextets(d[4..])
  }

  /** Every 4 characters give 3 bytes, and a final 2 or 3 give 1 or 2. */
  lemma {:induction false} DecodeSextetsLength(d: string)
    requires AllAlphabet(d) && |d| % 4 != 1
    ensures |DecodeSextets(d)| == |d| * 3 / 4
    decreases |d|
  {
    if |d| >= 4 {
      var rest := d[4..];
      DecodeSextetsLength(rest);
      assert |d| * 3 / 4 == 3 + |rest| * 3 / 4;
    }
  }

  /** Forgiving-base64 decode; None is the failure that makes `atob` throw. */
  function ForgivingDecode(s: string): (r: Option<seq<byte>>)
  {
    var d := StripPadding(RemoveWhitespace(s));
    if |d| % 4 == 1 then None
    else if !AllAlphabet(d) then None
    else Some(DecodeSextets(d))
  }

  /** One character per byte, as `atob` returns its result. */
  function BytesToText(b: seq<byte>): (t: string)
    ensures |t| == |b| && forall i | 0 <= i < |b| :: t[i] as int == b[i]
  {
    seq(|b|, i requires 0 <= i < |b| => b[i] as char)
  }

  /** `atob(s)`: None when it throws. */
  function Atob(s: string): (r: Option<string>)
    ensures r.Some? <==> ForgivingDecode(s).Some?
    ensures r.Some? ==> r.value == BytesToText(ForgivingDecode(s).value)
  {
    match ForgivingDecode(s)
    case None => None
    case Some(b) => Some(BytesToText(b))
  }

  // ----- the encoder, the decoder's partner -----

  /** Three bytes (24 bits) become four sextets. */
  function EncodeQuad(b0: byte, b1: byte, b2: byte): (r: string)
    ensures |r| == 4 && AllAlphabet(r)
  {
    [CharOf(b0 / 4), CharOf((b0 % 4) * 16 + b1 / 16), CharOf((b1 % 16) * 4 + b2 / 64), CharOf(b2 % 64)]
  }

  /** Four characters per three bytes; a final one or two bytes take two or three. */
  function UnpaddedLength(n: nat): (k: nat)
    ensures k % 4 != 1
    ensures n % 3 == 0 ==> k % 4 == 0
    ensures n % 3 == 1 ==> k % 4 == 2
    ensures n % 3 == 2 ==> k % 4 == 3
  {
    if n == 0 then 0 else if n == 1 then 2 else if n == 2 then 3 else 4 + UnpaddedLength(n - 3)
  }

  /** The unpadded length in closed form: 4 characters per 3 bytes, rounded up. */
  lemma {:induction false} UnpaddedLengthFormula(n: nat)
    ensures UnpaddedLength(n) == (if n % 3 == 0 then n / 3 * 4 else n / 3 * 4 + n % 3 + 1)
  {
    if n >= 3 {
      UnpaddedLengthFormula(n - 3);
      assert (n - 3) / 3 == n / 3 - 1 && (n - 3) % 3 == n % 3;
    }
  }

  /** The encoding without '=' padding. */
  function EncodeUnpadded(b: seq<byte>): (r: string)
    ensures AllAlphabet(r)
    ensures |r| == UnpaddedLength(|b|)
    decreases |b|
  {
    if |b| == 0 then ""
    else if |b| == 1 then [CharOf(b[0] / 4), CharOf((b[0] % 4) * 16)]
    else if |b| == 2 then [CharOf(b[0] / 4), CharOf((b[0] % 4) * 16 + b[1] / 16), CharOf((b[1] % 16) * 4)]
    else
      var q := EncodeQuad(b[0], b[1], b[2]);
      var rest := EncodeUnpadded(b[3..]);
      assert forall i | 0 <= i < |q + rest| :: (q + rest)[i] == (if i < 4 then q[i] else rest[i - 4]);
      q + rest
  }

  /** The padded encoding (`btoa` on a byte string). */
  function Encode(b: seq<byte>): (r: string)
    ensures |r| % 4 == 0
  {
    Pad(EncodeUnpadded(b))
  }

  /** '=' characters appended up to a multiple of 4. */
  function Pad(u: string): (r: string)
    requires |u| % 4 != 1
    ensures |r| % 4 == 0
  {
    u + (if |u| % 4 == 2 then "==" else if |u| % 4 == 3 then "=" else "")
  }

  lemma SplitByte(x: int, k: int)
    requires 0 <= x && 0 < k
    ensures x == (x / k) * k + x % k && 0 <= x % k < k
  {
  }

  lemma QuadRoundTrip(b0: byte, b1: byte, b2: byte)
    ensures var e := EncodeQuad(b0, b1, b2);
      DecodeQuad(SextetOf(e[0]), SextetOf(e[1]), SextetOf(e[2]), SextetOf(e[3])) == [b0, b1, b2]
  {
    var a, b, c, d := b0 / 4, (b0 % 4) * 16 + b1 / 16, (b1 % 16) * 4 + b2 / 64, b2 % 64;
    SplitByte(b0, 4);
    SplitByte(b1, 16);
    SplitByte(b2, 64);
    var n: int := a * 262144 + b * 4096 + c * 64 + d;
    assert n == b0 * 65536 + b1 * 256 + b2;
    assert n / 65536 == b0;
    assert n / 256 == b0 * 256 + b1;
    assert (b0 * 256 + b1) % 256 == b1;
    assert n % 256 == b2;
  }

  lemma PairRoundTrip(b0: byte)
    ensures DecodePair(SextetOf(CharOf(b0 / 4)), SextetOf(CharOf((b0 % 4) * 16))) == [b0]
  {
    SplitByte(b0, 4);
    assert (b0 / 4) * 64 + (b0 % 4) * 16 == b0 * 16;
    assert (b0 * 16) / 16 == b0;
  }

  lemma TripleRoundTrip(b0: byte, b1: byte)
    ensures DecodeTriple(SextetOf(CharOf(b0 / 4)), SextetOf(CharOf((b0 % 4) * 16 + b1 / 16)), SextetOf(CharOf((b1 % 16) * 4))) == [b0, b1]
  {
    var a, b, c := b0 / 4, (b0 % 4) * 16 + b1 / 16, (b1 % 16) * 4;
    SplitByte(b0, 4);
    SplitByte(b1, 16);
    var m: int := a * 4096 + b * 64 + c;
    assert m == (b0 * 256 + b1) * 4;
    assert m / 4 == b0 * 256 + b1;
    assert (b0 * 256 + b1) / 256 == b0;
    assert (b0 * 256 + b1) % 256 == b1;
  }

  /** Decoding a string of four or more characters decodes its first quad, then the rest. */
  lemma DecodeSextetsQuad(q: string, rest: string)
    requires |q| == 4 && AllAlphabet(q) && AllAlphabet(rest) && |rest| % 4 != 1
    ensures AllAlphabet(q + rest) && |q + rest| % 4 != 1
    ensures DecodeSextets(q + rest) ==
      DecodeQuad(SextetOf(q[0]), SextetOf(q[1]), SextetOf(q[2]), SextetOf(q[3])) + DecodeSextets(rest)
  {
    var e := q + rest;
    assert forall i | 0 <= i < |e| :: e[i] == (if i < 4 then q[i] else rest[i - 4]);
    assert e[4..] == rest;
  }

  /** One byte encodes to two characters that decode back to it. */
  lemma DecodeEncodeOne(b: seq<byte>)
    requires |b| == 1
    ensures DecodeSextets(EncodeUnpadded(b)) == b
  {
    var e := EncodeUnpadded(b);
    assert e == [CharOf(b[0] / 4), CharOf((b[0] % 4) * 16)];
    assert DecodeSextets(e) == DecodePair(SextetOf(e[0]), SextetOf(e[1]));
    PairRoundTrip(b[0]);
  }

  /** Two bytes encode to three characters that decode back to them. */
  lemma DecodeEncodeTwo(b: seq<byte>)
    requires |b| == 2
    ensures DecodeSextets(EncodeUnpadded(b)) == b
  {
    var e := EncodeUnpadded(b);
    var x0, x1 := b[0], b[1];
    assert e == [CharOf(x0 / 4), CharOf((x0 % 4) * 16 + x1 / 16), CharOf((x1 % 16) * 4)];
    assert DecodeSextets(e) == DecodeTriple(SextetOf(e[0]), SextetOf(e[1]), SextetOf(e[2]));
    assert DecodeSextets(e) == [x0, x1] by {
      TripleRoundTrip(x0, x1);
    }
    assert b == [x0, x1];
  }

  lemma FirstThree<T>(s: seq<T>)
    requires |s| >= 3
    ensures s == [s[0], s[1], s[2]] + s[3..]
  {
  }

  lemma EncodeUnpaddedStep(b: seq<byte>)
    requires |b| >= 3
    ensures EncodeUnpadded(b) == EncodeQuad(b[0], b[1], b[2]) + EncodeUnpadded(b[3..])
  {
  }

  /** Three or more bytes: the first quad decodes to the first three bytes, the rest as before. */
  lemma DecodeEncodeStep(b: seq<byte>)
    requires |b| >= 3 && DecodeSextets(EncodeUnpadded(b[3..])) == b[3..]
    ensures DecodeSextets(EncodeUnpadded(b)) == b
  {
    var q := EncodeQuad(b[0], b[1], b[2]);
    var rest := EncodeUnpadded(b[3..]);
    var head := DecodeQuad(SextetOf(q[0]), SextetOf(q[1]), SextetOf(q[2]), SextetOf(q[3]));
    assert EncodeUnpadded(b) == q + rest by {
      EncodeUnpaddedStep(b);
    }
    assert DecodeSextets(q + rest) == head + DecodeSextets(rest) by {
      DecodeSextetsQuad(q, rest);
    }
    assert head == [b[0], b[1], b[2]] by {
      QuadRoundTrip(b[0], b[1], b[2]);
    }
    FirstThree(b);
  }

  /** Decoding the unpadded encoding gives the bytes back. */
  lemma {:induction false} DecodeEncodeUnpadded(b: seq<byte>)
    ensures DecodeSextets(EncodeUnpadded(b)) == b
    decreases |b|
  {
    if |b| == 1 {
      DecodeEncodeOne(b);
    } else if |b| == 2 {
      DecodeEncodeTwo(b);
    } else if |b| >= 3 {
      DecodeEncodeUnpadded(b[3..]);
      DecodeEncodeStep(b);
    }
  }

  lemma {:induction false} RemoveWhitespaceNoop(s: string)
    requires forall i | 0 <= i < |s| :: !IsAsciiWhitespace(s[i])
    ensures RemoveWhitespace(s) == s
    decreases |s|
  {
    if |s| > 0 {
      RemoveWhitespaceNoop(s[1..]);
      assert [s[0]] + s[1..] == s;
    }
  }

  /** An alphabet-only string of a decodable length is decoded as it stands. */
  lemma DecodeAlphabetOnly(u: string)
    requires AllAlphabet(u) && |u| % 4 != 1
    ensures ForgivingDecode(u) == Some(DecodeSextets(u))
  {
    RemoveWhitespaceNoop(u);
    assert |u| > 0 ==> IsAlphabetChar(u[|u| - 1]);
  }

  /** Removing whitespace and padding from the padded encoding leaves the unpadded one. */
  lemma StripEncodePadding(b: seq<byte>)
    ensures StripPadding(RemoveWhitespace(Encode(b))) == EncodeUnpadded(b)
  {
    var u := EncodeUnpadded(b);
    var pad := if |u| % 4 == 2 then "==" else if |u| % 4 == 3 then "=" else "";
    var e := u + pad;
    assert Encode(b) == e;
    assert RemoveWhitespace(e) == e by {
      forall i | 0 <= i < |e| ensures !IsAsciiWhitespace(e[i]) {
        if i < |u| {
          assert e[i] == u[i];
        } else {
          assert e[i] == '=';
        }
      }
      RemoveWhitespaceNoop(e);
    }
    StripAlphabetPadding(u, pad);
  }

  /** Padding after alphabet characters, up to a multiple of 4, is exactly what StripPadding drops. */
  lemma StripAlphabetPadding(u: string, pad: string)
    requires AllAlphabet(u) && (pad == "" || pad == "=" || pad == "==") && |u + pad| % 4 == 0
    ensures StripPadding(u + pad) == u
  {
    var e := u + pad;
    if pad == "==" {
      assert e[..|e| - 2] == u;
    } else if pad == "=" {
      assert e[..|e| - 1] == u && e[|e| - 2] == u[|u| - 1];
    } else {
      assert e == u;
      assert |u| > 0 ==> IsAlphabetChar(u[|u| - 1]);
    }
  }

  /** `atob` inverts the padded encoding: decode(encode(b)) == b. */
  lemma DecodeEncode(b: seq<byte>)
    ensures ForgivingDecode(Encode(b)) == Some(b)
  {
    StripEncodePadding(b);
    DecodeEncodeUnpadded(b);
  }

  /** The decoder is forgiving about missing padding too. */
  lemma DecodeUnpadded(b: seq<byte>)
    ensures ForgivingDecode(EncodeUnpadded(b)) == Some(b)
  {
    DecodeAlphabetOnly(EncodeUnpadded(b));
    DecodeEncodeUnpadded(b);
  }

  /** The encoding never contains a comma, so it survives `split(',')` whole. */
  lemma EncodeHasNoComma(b: seq<byte>)
    ensures forall i | 0 <= i < |Encode(b)| :: Encode(b)[i] != ','
  {
  }

  /** Whitespace anywhere in the input is ignored. */
  lemma {:induction false} RemoveWhitespaceIdempotent(s: string)
    ensures RemoveWhitespace(RemoveWhitespace(s)) == RemoveWhitespace(s)
  {
    RemoveWhitespaceNoop(RemoveWhitespace(s));
  }

  lemma WhitespaceIgnored(s: string)
    ensures ForgivingDecode(RemoveWhitespace(s)) == ForgivingDecode(s)
  {
    RemoveWhitespaceIdempotent(s);
  }

  /** An input whose length (after whitespace and padding removal) leaves remainder 1 mod 4 is rejected. */
  lemma RemainderOneRejected(s: string)
    requires |StripPadding(RemoveWhitespace(s))| % 4 == 1
    ensures ForgivingDecode(s) == None
  {
  }

  /** A character outside the alphabet, '=' and whitespace makes `atob` throw. */
  lemma {:induction false} ForeignCharRejected(s: string, i: nat)
    requires i < |s| && !IsAlphabetChar(s[i]) && s[i] != '=' && !IsAsciiWhitespace(s[i])
    ensures ForgivingDecode(s) == None
  {
    var w := RemoveWhitespace(s);
    var k := KeptByRemoveWhitespace(s, i);
    var d := StripPadding(w);
    assert d == w[..|d|];
    assert k < |d|;
    assert d[k] == s[i];
  }

  /** A non-whitespace character survives whitespace removal at some position. */
  lemma {:induction false} KeptByRemoveWhitespace(s: string, i: nat) returns (k: nat)
    requires i < |s| && !IsAsciiWhitespace(s[i])
    ensures k < |RemoveWhitespace(s)| && RemoveWhitespace(s)[k] == s[i]
    decreases |s|
  {
    var head := if IsAsciiWhitespace(s[0]) then "" else [s[0]];
    assert RemoveWhitespace(s) == head + RemoveWhitespace(s[1..]);
    if i == 0 {
      k := 0;
    } else {
      var k' := KeptByRemoveWhitespace(s[1..], i - 1);
      k := |head| + k';
    }
  }
}
