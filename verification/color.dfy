/** `hexToRgba`: CSS hex colour notation (CSS Color Module Level 4,
    section 5.2) in its 3- and 6-digit forms, turned into an `rgba(...)`
    colour with a given alpha. Anything else passes through untouched. */
module Color {

  /** A CSS colour value as the source emits it: either an `rgba()` built
      from channels or the caller's text, verbatim. */
  datatype CssColor = Rgba(red: int, green: int, blue: int, alpha: real) | Verbatim(text: string)

  predicate IsHexDigit(c: char) {
    ('0' <= c <= '9') || ('a' <= c <= 'f') || ('A' <= c <= 'F')
  }

  predicate AllHex(s: string) {
    forall i :: 0 <= i < |s| ==> IsHexDigit(s[i])
  }

  function HexValue(c: char): (v: nat)
    requires IsHexDigit(c)
    ensures v < 16
  {
    if '0' <= c <= '9' then c as int - '0' as int
    else if 'a' <= c <= 'f' then c as int - 'a' as int + 10
    else c as int - 'A' as int + 10
  }

  /** The test `/^#([A-Fa-f0-9]{3}){1,2}$/`: a `#` and then exactly three or
      exactly six hex digits. */
  predicate IsHexColor(s: string) {
    && (|s| == 4 || |s| == 7)
    && s[0] == '#'
    && AllHex(s[1..])
  }

  /** The three-digit shorthand with each digit doubled; six digits unchanged. */
  function Expand(d: string): (e: string)
    requires |d| == 3 || |d| == 6
    ensures |e| == 6
  {
    if |d| == 3 then [d[0], d[0], d[1], d[1], d[2], d[2]] else d
  }

  /** The number a `0x`-prefixed hex literal denotes. */
  function ParseHex(d: string): nat
    requires AllHex(d)
  {
    if |d| == 0 then 0 else ParseHex(d[..|d| - 1]) * 16 + HexValue(d[|d| - 1])
  }

  /** Channel `k` (0 red, 1 green, 2 blue) read directly off the digit pair
      `2k, 2k+1` of six hex digits: the reference reading of the notation. */
  function PairValue(d: string, k: nat): (v: nat)
    requires |d| == 6 && AllHex(d) && k < 3
    ensures v <= 255
  {
    HexValue(d[2 * k]) * 16 + HexValue(d[2 * k + 1])
  }

  /** `hexToRgba(hex, alpha)`. The channels come, as in the source, from
      shifting and masking the 24-bit number; the contract states them as
      the digit pairs of the (expanded) notation. */
  function HexToRgba(hex: string, alpha: real): (r: CssColor)
    ensures r.Verbatim? <==> !IsHexColor(hex)
    ensures r.Verbatim? ==> r.text == hex
    ensures r.Rgba? ==>
      && r.alpha == alpha
      && 0 <= r.red <= 255 && 0 <= r.green <= 255 && 0 <= r.blue <= 255
      && r.red == PairValue(Expand(hex[1..]), 0)
      && r.green == PairValue(Expand(hex[1..]), 1)
      && r.blue == PairValue(Expand(hex[1..]), 2)
  {
    if !IsHexColor(hex) then Verbatim(hex)
    else
      var digits := Expand(hex[1..]);
      assert AllHex(digits);
      var c := ParseHex(digits);
      ShiftsReadPairs(digits);
      Rgba((c / 65536) % 256, (c / 256) % 256, c % 256, alpha)
  }

  /** `(c >> 16) & 255`, `(c >> 8) & 255` and `c & 255` on the number of six
      hex digits are exactly the three digit pairs. */
  lemma ShiftsReadPairs(d: string)
    requires |d| == 6 && AllHex(d)
    ensures (ParseHex(d) / 65536) % 256 == PairValue(d, 0)
    ensures (ParseHex(d) / 256) % 256 == PairValue(d, 1)
    ensures ParseHex(d) % 256 == PairValue(d, 2)
  {
    var hi, mid, lo := PairValue(d, 0), PairValue(d, 1), PairValue(d, 2);
    SixDigitValue(d);
    var c := ParseHex(d);
    assert c == hi * 65536 + mid * 256 + lo;
    DivModSplit(c, hi, mid * 256 + lo, 65536);
    DivModSplit(c, hi * 256 + mid, lo, 256);
    DivModSplit(c / 256, hi, mid, 256);
  }

  lemma SixDigitValue(d: string)
    requires |d| == 6 && AllHex(d)
    ensures ParseHex(d) == PairValue(d, 0) * 65536 + PairValue(d, 1) * 256 + PairValue(d, 2)
  {
    var v0, v1, v2 := HexValue(d[0]), HexValue(d[1]), HexValue(d[2]);
    var v3, v4, v5 := HexValue(d[3]), HexValue(d[4]), HexValue(d[5]);
    assert d[..1][..0] == d[..0];
    assert ParseHex(d[..1]) == v0;
    assert d[..2][..1] == d[..1];
    assert ParseHex(d[..2]) == v0 * 16 + v1;
    assert d[..3][..2] == d[..2];
    assert ParseHex(d[..3]) == (v0 * 16 + v1) * 16 + v2;
    assert d[..4][..3] == d[..3];
    assert ParseHex(d[..4]) == ((v0 * 16 + v1) * 16 + v2) * 16 + v3;
    assert d[..5][..4] == d[..4];
    assert ParseHex(d[..5]) == (((v0 * 16 + v1) * 16 + v2) * 16 + v3) * 16 + v4;
    assert d[..6] == d;
  }

  /** `q * m + r` divided by `m` is `q` with remainder `r`, for `r < m`. */
  lemma DivModSplit(c: nat, q: nat, r: nat, m: nat)
    requires 0 < m && r < m && c == q * m + r
    ensures c / m == q && c % m == r
  {
    var k := c / m - q;
    assert m * (c / m) + c % m == c;
    assert m * k == r - c % m;
  }

  /** The three-digit form `#rgb` gives exactly the colour of `#rrggbb`. */
  lemma ShortFormDoubles(hex: string, alpha: real)
    requires |hex| == 4 && IsHexColor(hex)
    ensures var long := ['#', hex[1], hex[1], hex[2], hex[2], hex[3], hex[3]];
      IsHexColor(long) && HexToRgba(hex, alpha) == HexToRgba(long, alpha)
  {
    var long := ['#', hex[1], hex[1], hex[2], hex[2], hex[3], hex[3]];
    assert long[1..] == Expand(hex[1..]);
  }
}
