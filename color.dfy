/**
 * The colour codec of the glitch background: hex strings from the
 * configuration, the `rgb(r, g, b)` strings the canvas is painted with,
 * reading either form back, per-channel interpolation, and the palette.
 */
module Color {
  import opened Wrappers
  import opened Decimal
  import opened Draws
  import opened Arith

  datatype Rgb = Rgb(r: int, g: int, b: int)

  /** What `getRandomColor` returns when the palette is empty. */
  const White := Rgb(255, 255, 255)

  predicate IsByte(x: int) { 0 <= x < 256 }

  predicate ValidRgb(c: Rgb) { IsByte(c.r) && IsByte(c.g) && IsByte(c.b) }

  /** Every entry of a palette has byte channels. */
  predicate ValidPalette(p: seq<Rgb>) { forall i :: 0 <= i < |p| ==> ValidRgb(p[i]) }

  predicate NonNegative(c: Rgb) { c.r >= 0 && c.g >= 0 && c.b >= 0 }

  // ---------------------------------------------------------------------
  // Hex colours

  /** `[a-f\d]` under the `i` flag. */
  predicate IsHexDigit(c: char) { '0' <= c <= '9' || 'a' <= c <= 'f' || 'A' <= c <= 'F' }

  predicate AllHex(s: string) { forall i :: 0 <= i < |s| ==> IsHexDigit(s[i]) }

  function HexDigitValue(c: char): (v: nat)
    requires IsHexDigit(c)
    ensures v < 16
  {
    if '0' <= c <= '9' then c as int - '0' as int
    else if 'a' <= c <= 'f' then c as int - 'a' as int + 10
    else c as int - 'A' as int + 10
  }

  /** `parseInt(pair, 16)` of two hex digits. */
  function HexByte(hi: char, lo: char): (v: int)
    requires IsHexDigit(hi) && IsHexDigit(lo)
    ensures IsByte(v)
  {
    16 * HexDigitValue(hi) + HexDigitValue(lo)
  }

  /** The part of `s` after the optional leading `#` that both patterns allow. */
  function Digits(s: string): string {
    if |s| > 0 && s[0] == '#' then s[1..] else s
  }

  /** Whole-string match of the shorthand pattern (`#` optional, three hex digits). */
  predicate MatchesShorthand(s: string) { |Digits(s)| == 3 && AllHex(Digits(s)) }

  /** Whole-string match of the full pattern (`#` optional, three pairs of hex digits). */
  predicate MatchesFull(s: string) { |Digits(s)| == 6 && AllHex(Digits(s)) }

  /** The strings the parser accepts: an optional `#`, then 3 or 6 hex digits in either case. */
  predicate IsHexColor(s: string) {
    (|Digits(s)| == 3 || |Digits(s)| == 6) && AllHex(Digits(s))
  }

  /**
   * The shorthand replacement: a whole-string shorthand match, `#`
   * included, becomes its digits each written twice; anything else is
   * left as it is.
   */
  function ExpandShorthand(s: string): (t: string)
    ensures MatchesShorthand(s) ==> MatchesFull(t)
  {
    if MatchesShorthand(s) then
      var d := Digits(s);
      [d[0], d[0], d[1], d[1], d[2], d[2]]
    else s
  }

  /** `hexToRgb` on a string argument. */
  function HexToRgb(hex: string): (c: Option<Rgb>)
    ensures c.Some? <==> IsHexColor(hex)
    ensures c.Some? ==> ValidRgb(c.value)
  {
    var full := ExpandShorthand(hex);
    if MatchesFull(full) then
      var d := Digits(full);
      Some(Rgb(HexByte(d[0], d[1]), HexByte(d[2], d[3]), HexByte(d[4], d[5])))
    else None
  }

  /** The shorthand `xyz` denotes the same colour as `xxyyzz`, with or without `#`. */
  lemma HexShorthandDoubles(hash: bool, x: char, y: char, z: char)
    ensures var p := if hash then "#" else "";
      HexToRgb(p + [x, y, z]) == HexToRgb(p + [x, x, y, y, z, z])
  {
    var p := if hash then "#" else "";
    var short, long := p + [x, y, z], p + [x, x, y, y, z, z];
    if hash || x != '#' {
      assert Digits(short) == [x, y, z];
      assert Digits(long) == [x, x, y, y, z, z];
    } else {
      assert |Digits(short)| == 2 && |Digits(long)| == 5;
    }
  }

  /** ASCII lower case, enough for the characters the patterns care about. */
  function LowerChar(c: char): char {
    if 'A' <= c <= 'Z' then (c as int + 32) as char else c
  }

  function Lower(s: string): string {
    seq(|s|, i requires 0 <= i < |s| => LowerChar(s[i]))
  }

  /** Lower-casing keeps hex digits hex digits, with the same value, and adds none. */
  lemma LowerHexDigit(c: char)
    ensures IsHexDigit(LowerChar(c)) <==> IsHexDigit(c)
    ensures IsHexDigit(c) ==> HexDigitValue(LowerChar(c)) == HexDigitValue(c)
  {
  }

  /** The parser ignores case. */
  lemma HexToRgbIgnoresCase(s: string)
    ensures HexToRgb(Lower(s)) == HexToRgb(s)
  {
    var t := Lower(s);
    var d, e := Digits(s), Digits(t);
    assert e == Lower(d);
    forall i | 0 <= i < |d|
      ensures IsHexDigit(e[i]) <==> IsHexDigit(d[i])
      ensures IsHexDigit(d[i]) ==> HexDigitValue(e[i]) == HexDigitValue(d[i])
    {
      LowerHexDigit(d[i]);
    }
    assert AllHex(e) <==> AllHex(d);
  }

  /** The `#` is optional: with or without it, the digits denote the same colour. */
  lemma HexHashOptional(s: string)
    requires !StartsWith(s, '#')
    ensures HexToRgb("#" + s) == HexToRgb(s)
  {
    assert Digits("#" + s) == s;
    assert Digits(s) == s;
  }

  /** Lower-case hex digit of a value below 16. */
  function HexChar(v: nat): (c: char)
    requires v < 16
    ensures IsHexDigit(c) && HexDigitValue(c) == v
  {
    if v < 10 then ('0' as int + v) as char else ('a' as int + v - 10) as char
  }

  /** Two hex digits of a byte: a reference encoder the parser inverts. */
  function ByteToHex(v: int): (s: string)
    requires IsByte(v)
    ensures |s| == 2 && AllHex(s) && HexByte(s[0], s[1]) == v
  {
    [HexChar(v / 16), HexChar(v % 16)]
  }

  function RgbToHex(c: Rgb): string
    requires ValidRgb(c)
  {
    "#" + ByteToHex(c.r) + ByteToHex(c.g) + ByteToHex(c.b)
  }

  /** Every colour with byte channels has a hex form that the parser reads back exactly. */
  lemma HexToRgbOfRgbToHex(c: Rgb)
    requires ValidRgb(c)
    ensures HexToRgb(RgbToHex(c)) == Some(c)
  {
    var s := RgbToHex(c);
    var d := Digits(s);
    assert d == ByteToHex(c.r) + ByteToHex(c.g) + ByteToHex(c.b);
    assert !MatchesShorthand(s);
  }

  lemma HexToRgbExample()
    ensures HexToRgb("#61dca3") == Some(Rgb(97, 220, 163))
    ensures HexToRgb("61DCA3") == Some(Rgb(97, 220, 163))
    ensures HexToRgb("#fff") == Some(White)
    ensures HexToRgb("#61dca") == None && HexToRgb("") == None
  {
    assert Digits("#61dca3") == "61dca3";
    assert Digits("61DCA3") == "61DCA3";
    assert Digits("#fff") == "fff";
    assert Digits("#61dca") == "61dca";
  }

  // ---------------------------------------------------------------------
  // The `rgb(r, g, b)` form

  /**
   * `rgbToString`: `rgb(` and `)` around three non-empty numerals separated
   * by `, `; `ParseColorToRgbOfRgbToString` reads it back.
   */
  function RgbToString(c: Rgb): (s: string)
    ensures |s| >= 12 && s[..4] == "rgb(" && s[|s| - 1] == ')'
  {
    "rgb(" + IntToString(c.r) + ", " + IntToString(c.g) + ", " + IntToString(c.b) + ")"
  }

  /** `\s` of a JavaScript regular expression: white space and line terminators. */
  predicate IsSpace(c: char) {
    c == ' ' || c == '\t' || c == '\n' || c == '\r' || c as int == 0x0B || c as int == 0x0C
    || c as int == 0xA0 || c as int == 0x1680 || 0x2000 <= c as int <= 0x200A
    || c as int == 0x2028 || c as int == 0x2029 || c as int == 0x202F
    || c as int == 0x205F || c as int == 0x3000 || c as int == 0xFEFF
  }

  /** What is left after the leading run of `\s`. */
  function SkipSpaces(s: string): (t: string)
    ensures |t| <= |s| && (t != [] ==> !IsSpace(t[0]))
  {
    if s != [] && IsSpace(s[0]) then SkipSpaces(s[1..]) else s
  }

  /** Length of the leading run of `\d`. */
  function DigitRun(s: string): (n: nat)
    ensures n <= |s| && AllDigits(s[..n]) && (n < |s| ==> !IsDigit(s[n]))
  {
    if s != [] && IsDigit(s[0]) then
      var n := 1 + DigitRun(s[1..]);
      assert s[..n] == [s[0]] + s[1..][..n - 1];
      n
    else 0
  }

  /**
   * `\s*(\d+)\s*` at the start of `s`: the number read and the rest of the
   * input after the trailing spaces. Greedy matching is the only way to
   * match here, since `\s`, `\d`, `,` and `)` are pairwise disjoint.
   */
  function Field(s: string): (f: Option<(nat, string)>)
    ensures f.Some? ==> |f.value.1| < |s|
    ensures f.Some? ==> !(f.value.1 != [] && IsSpace(f.value.1[0]))
    ensures f.None? <==> !(SkipSpaces(s) != [] && IsDigit(SkipSpaces(s)[0]))
  {
    var t := SkipSpaces(s);
    var n := DigitRun(t);
    if n == 0 then None
    else Some((DigitsValue(t[..n]), SkipSpaces(t[n..])))
  }

  /** `s` starts with the character `c`. */
  predicate StartsWith(s: string, c: char) { s != [] && s[0] == c }

  /** The pattern `rgb\(\s*(\d+)\s*,\s*(\d+)\s*,\s*(\d+)\s*\)`/i matched at the start of `s`. */
  function MatchRgb(s: string): (m: Option<Rgb>)
    ensures m.Some? ==> NonNegative(m.value)
    ensures m.Some? ==> |s| >= 10 && LowerChar(s[0]) == 'r' && LowerChar(s[1]) == 'g' && LowerChar(s[2]) == 'b' && s[3] == '('
  {
    if !(|s| >= 4 && LowerChar(s[0]) == 'r' && LowerChar(s[1]) == 'g'
         && LowerChar(s[2]) == 'b' && s[3] == '(') then None
    else
      match Field(s[4..])
      case None => None
      case Some((r, t)) =>
        if !StartsWith(t, ',') then None
        else match Field(t[1..])
          case None => None
          case Some((g, u)) =>
            if !StartsWith(u, ',') then None
            else match Field(u[1..])
              case None => None
              case Some((b, v)) =>
                if !StartsWith(v, ')') then None else Some(Rgb(r, g, b))
  }

  /** `exec` of the unanchored pattern: the match at the leftmost position where there is one. */
  function FindRgb(s: string): (m: Option<Rgb>)
    ensures m.Some? ==> NonNegative(m.value) && |s| >= 10
  {
    var here := MatchRgb(s);
    if here.Some? then here else if s == [] then None else FindRgb(s[1..])
  }

  /** `parseColorToRgb`. */
  function ParseColorToRgb(color: string): (c: Option<Rgb>)
    ensures c.Some? ==> NonNegative(c.value)
  {
    if color == "" then None
    else if color[0] == '#' then HexToRgb(color)
    else FindRgb(color)
  }

  /**
   * The unanchored search finds a match exactly when one starts somewhere
   * in the string, and it returns the leftmost one.
   */
  lemma {:induction false} FindRgbLeftmost(s: string)
    ensures FindRgb(s).Some? <==> exists k :: 0 <= k <= |s| && MatchRgb(s[k..]).Some?
    ensures FindRgb(s).Some? ==>
      exists k :: 0 <= k <= |s| && FindRgb(s) == MatchRgb(s[k..])
                  && forall j :: 0 <= j < k ==> MatchRgb(s[j..]).None?
    decreases |s|
  {
    if MatchRgb(s).Some? {
      assert s[0..] == s;
    } else if s == [] {
      forall k | 0 <= k <= |s| ensures MatchRgb(s[k..]).None? {
        assert s[k..] == s;
      }
    } else {
      var rest := s[1..];
      FindRgbLeftmost(rest);
      if FindRgb(rest).Some? {
        var k :| 0 <= k <= |rest| && FindRgb(rest) == MatchRgb(rest[k..])
                 && forall j :: 0 <= j < k ==> MatchRgb(rest[j..]).None?;
        assert rest[k..] == s[k + 1..];
        forall j | 0 <= j < k + 1 ensures MatchRgb(s[j..]).None? {
          if j == 0 {
            assert s[0..] == s;
          } else {
            assert rest[j - 1..] == s[j..];
          }
        }
      } else {
        forall k | 0 <= k <= |s| ensures MatchRgb(s[k..]).None? {
          if k == 0 {
            assert s[0..] == s;
          } else {
            assert rest[k - 1..] == s[k..];
          }
        }
      }
    }
  }

  /**
   * `parseColorToRgb`: nothing for the empty string, the hex parser for a
   * string that starts with `#`, and otherwise the leftmost `rgb(...)`
   * match anywhere in the string, or nothing when there is none.
   */
  lemma ParseColorToRgbCases(color: string)
    ensures color == [] ==> ParseColorToRgb(color).None?
    ensures StartsWith(color, '#') ==> ParseColorToRgb(color) == HexToRgb(color)
    ensures color != [] && !StartsWith(color, '#') ==>
      (ParseColorToRgb(color).Some? <==> exists k :: 0 <= k <= |color| && MatchRgb(color[k..]).Some?)
  {
    FindRgbLeftmost(color);
  }

  lemma {:induction false} DigitRunOf(d: string, t: string)
    requires AllDigits(d) && !(t != [] && IsDigit(t[0]))
    ensures DigitRun(d + t) == |d|
  {
    if d != [] {
      assert (d + t)[1..] == d[1..] + t;
      DigitRunOf(d[1..], t);
    }
  }

  /** Digits `d` followed by a character that is neither a digit nor a space form a field. */
  lemma FieldOf(d: string, t: string)
    requires |d| > 0 && AllDigits(d) && t != [] && !IsDigit(t[0]) && !IsSpace(t[0])
    ensures Field(d + t) == Some((DigitsValue(d), t))
  {
    var s := d + t;
    assert SkipSpaces(s) == s by {
      assert s[0] == d[0] && IsDigit(d[0]);
    }
    DigitRunOf(d, t);
    assert s[..|d|] == d && s[|d|..] == t;
    assert SkipSpaces(t) == t;
  }

  /** A leading space does not change a field. */
  lemma FieldAfterSpace(w: string)
    ensures Field([' '] + w) == Field(w)
  {
    assert ([' '] + w)[1..] == w;
  }

  /** The pattern matches the layout `rgbToString` produces, for any three numerals. */
  lemma MatchRgbOfLayout(R: string, G: string, B: string)
    requires |R| > 0 && |G| > 0 && |B| > 0 && AllDigits(R) && AllDigits(G) && AllDigits(B)
    ensures MatchRgb("rgb(" + R + ", " + G + ", " + B + ")")
         == Some(Rgb(DigitsValue(R), DigitsValue(G), DigitsValue(B)))
  {
    var s := "rgb(" + R + ", " + G + ", " + B + ")";
    var t, u, v := LayoutFields(R, G, B);
    MatchRgbOfFields(s, t, u, v, DigitsValue(R), DigitsValue(G), DigitsValue(B));
  }

  /** The three fields of the layout and what follows each of them. */
  lemma LayoutFields(R: string, G: string, B: string) returns (t: string, u: string, v: string)
    requires |R| > 0 && |G| > 0 && |B| > 0 && AllDigits(R) && AllDigits(G) && AllDigits(B)
    ensures var s := "rgb(" + R + ", " + G + ", " + B + ")";
      |s| >= 4 && s[..4] == "rgb("
      && Field(s[4..]) == Some((DigitsValue(R), t)) && StartsWith(t, ',')
      && Field(t[1..]) == Some((DigitsValue(G), u)) && StartsWith(u, ',')
      && Field(u[1..]) == Some((DigitsValue(B), v)) && StartsWith(v, ')')
  {
    var s := "rgb(" + R + ", " + G + ", " + B + ")";
    v := ")";
    u := ", " + (B + v);
    t := ", " + (G + u);
    assert s[4..] == R + t by { assert s == "rgb(" + (R + t); }
    assert Field(s[4..]) == Some((DigitsValue(R), t)) by { FieldOf(R, t); }
    assert Field(t[1..]) == Some((DigitsValue(G), u)) by {
      DropComma(G + u);
      FieldOf(G, u);
      FieldAfterSpace(G + u);
    }
    assert Field(u[1..]) == Some((DigitsValue(B), v)) by {
      DropComma(B + v);
      FieldOf(B, v);
      FieldAfterSpace(B + v);
    }
    assert s[..4] == "rgb(";
  }

  lemma DropComma(x: string)
    ensures (", " + x)[1..] == [' '] + x
  {
  }

  /** The pattern matches once its three fields and separators are in place. */
  lemma MatchRgbOfFields(s: string, t: string, u: string, v: string, r: nat, g: nat, b: nat)
    requires |s| >= 4 && s[..4] == "rgb("
    requires Field(s[4..]) == Some((r, t)) && StartsWith(t, ',')
    requires Field(t[1..]) == Some((g, u)) && StartsWith(u, ',')
    requires Field(u[1..]) == Some((b, v)) && StartsWith(v, ')')
    ensures MatchRgb(s) == Some(Rgb(r, g, b))
  {
    assert s[0] == 'r' && s[1] == 'g' && s[2] == 'b' && s[3] == '(' by { assert s[..4] == "rgb("; }
  }

  /** What `rgbToString` prints with non-negative channels, `parseColorToRgb` reads back. */
  lemma ParseColorToRgbOfRgbToString(c: Rgb)
    requires NonNegative(c)
    ensures ParseColorToRgb(RgbToString(c)) == Some(c)
  {
    var R, G, B := NatToString(c.r), NatToString(c.g), NatToString(c.b);
    MatchRgbOfLayout(R, G, B);
    DigitsValueOfNatToString(c.r);
    DigitsValueOfNatToString(c.g);
    DigitsValueOfNatToString(c.b);
    assert MatchRgb(RgbToString(c)) == Some(c);
  }

  // ---------------------------------------------------------------------
  // Interpolation

  /** `Math.round(num / den)`: the nearest integer, halves rounded up. */
  function RoundDiv(num: int, den: int): (r: int)
    requires den > 0
    ensures 2 * den * r <= 2 * num + den < 2 * den * r + 2 * den
  {
    (2 * num + den) / (2 * den)
  }

  /** `a <= x <= b` or `b <= x <= a`: `x` lies between the two ends, in whichever order they come. */
  predicate Between(a: int, x: int, b: int) {
    (a <= x <= b) || (b <= x <= a)
  }

  /** Rounding a quotient that lies in [lo, hi] stays in [lo, hi]. */
  lemma RoundDivBetween(x: int, n: int, lo: int, hi: int)
    requires n > 0 && lo * n <= x <= hi * n
    ensures lo <= RoundDiv(x, n) <= hi
  {
    var r := RoundDiv(x, n);
    assert 2 * n * lo < 2 * n * (r + 1);
    MulCancelLt(2 * n, lo, r + 1);
    assert 2 * n * r < 2 * n * (hi + 1);
    MulCancelLt(2 * n, r, hi + 1);
  }

  /**
   * One channel: `Math.round(a + (b - a) * factor)` with `factor == k / n`.
   * Factor 0 gives `a`, factor 1 gives `b`, and any factor in [0, 1] gives
   * a value between them.
   */
  function Lerp(a: int, b: int, k: int, n: int): (r: int)
    requires n > 0
    ensures k == 0 ==> r == a
    ensures k == n ==> r == b
    ensures 0 <= k <= n ==> Between(a, r, b)
  {
    var x := a * n + (b - a) * k;
    if k == 0 then
      DivUnique(2 * (a * n) + n, 2 * n, a);
      RoundDiv(x, n)
    else if k == n then
      assert x == b * n;
      DivUnique(2 * (b * n) + n, 2 * n, b);
      RoundDiv(x, n)
    else if 0 < k < n then
      if a <= b then
        MulMono(b - a, 0, k);
        MulMono(b - a, k, n);
        assert (b - a) * n == b * n - a * n;
        RoundDivBetween(x, n, a, b);
        RoundDiv(x, n)
      else
        MulMono(a - b, 0, k);
        MulMono(a - b, k, n);
        assert (a - b) * n == a * n - b * n;
        assert (b - a) * k == -((a - b) * k);
        RoundDivBetween(x, n, b, a);
        RoundDiv(x, n)
    else
      RoundDiv(x, n)
  }

  /**
   * `interpolateColor(start, end, k / n)`: factor 0 gives the start colour,
   * factor 1 the end colour, and any factor in [0, 1] a colour whose every
   * channel lies between the two ends, so byte colours give a byte colour.
   */
  function InterpolateColor(start: Rgb, end: Rgb, k: int, n: int): (c: Rgb)
    requires n > 0
    ensures k == 0 ==> c == start
    ensures k == n ==> c == end
    ensures 0 <= k <= n ==>
      Between(start.r, c.r, end.r) && Between(start.g, c.g, end.g) && Between(start.b, c.b, end.b)
    ensures 0 <= k <= n && ValidRgb(start) && ValidRgb(end) ==> ValidRgb(c)
  {
    Rgb(Lerp(start.r, end.r, k, n), Lerp(start.g, end.g, k, n), Lerp(start.b, end.b, k, n))
  }

  // ---------------------------------------------------------------------
  // Palette

  /** The configured `glitchColors`. */
  const GlitchColors: seq<string> := ["#2b4539", "#61dca3", "#61b3dc"]

  /** `glitchColors.map(hexToRgb).filter(Boolean)`. */
  function Palette(colors: seq<string>): (p: seq<Rgb>)
    ensures |p| <= |colors|
    ensures ValidPalette(p)
  {
    if colors == [] then []
    else match HexToRgb(colors[0])
      case Some(c) => [c] + Palette(colors[1..])
      case None => Palette(colors[1..])
  }

  /** A colour is in the palette exactly when some configured entry parses to it. */
  lemma {:induction false} PaletteMembers(colors: seq<string>, c: Rgb)
    ensures c in Palette(colors) <==> exists s :: s in colors && HexToRgb(s) == Some(c)
  {
    if colors != [] {
      PaletteMembers(colors[1..], c);
      assert forall s :: s in colors <==> s == colors[0] || s in colors[1..];
    }
  }

  /** With only valid entries nothing is dropped and the order is kept. */
  lemma {:induction false} PaletteOfValid(colors: seq<string>)
    requires forall i :: 0 <= i < |colors| ==> IsHexColor(colors[i])
    ensures |Palette(colors)| == |colors|
    ensures forall i :: 0 <= i < |colors| ==> Some(Palette(colors)[i]) == HexToRgb(colors[i])
  {
    if colors != [] {
      PaletteOfValid(colors[1..]);
      var p := Palette(colors);
      assert p == [HexToRgb(colors[0]).value] + Palette(colors[1..]);
      forall i | 0 <= i < |colors| ensures Some(p[i]) == HexToRgb(colors[i]) {
        if i > 0 {
          assert colors[i] == colors[1..][i - 1];
        }
      }
    }
  }

  lemma DefaultPalette()
    ensures Palette(GlitchColors) == [Rgb(43, 69, 57), Rgb(97, 220, 163), Rgb(97, 179, 220)]
  {
    var c := GlitchColors;
    assert HexToRgb(c[0]) == Some(Rgb(43, 69, 57)) by {
      assert Digits(c[0]) == "2b4539";
    }
    assert HexToRgb(c[1]) == Some(Rgb(97, 220, 163)) by {
      assert Digits(c[1]) == "61dca3";
    }
    assert HexToRgb(c[2]) == Some(Rgb(97, 179, 220)) by {
      assert Digits(c[2]) == "61b3dc";
    }
    assert c[1..][1..] == [c[2]] && c[1..][0] == c[1];
    assert [c[2]][1..] == [];
  }

  /** `getRandomColor`: a palette entry, or white when the palette is empty. */
  function PickColor(palette: seq<Rgb>, u: Fraction): (c: Rgb)
    ensures |palette| == 0 ==> c == White
    ensures |palette| > 0 ==> c in palette
    ensures ValidPalette(palette) ==> ValidRgb(c)
  {
    if |palette| == 0 then White else palette[Pick(|palette|, u)]
  }
}
