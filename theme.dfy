/**
 * The colour codec of the theme helpers: `hexToRgb` (through `parseInt(…, 16)`
 * and 32-bit shifts) and `rgbToHex` (through `Number.prototype.toString(16)`),
 * and the keys of the palette `generateThemeColors` builds.
 */
module Theme {
  import opened Wrappers

  const TwoTo32: int := 0x1_0000_0000

  /** The white space and line terminators `parseInt` skips (section 7.2 and 7.3 of ECMA-262). */
  predicate IsWhiteSpace(c: char) {
    || c == '\t' || c == '\n' || c == '\U{000B}' || c == '\U{000C}' || c == '\r' || c == ' '
    || c == '\U{00A0}' || c == '\U{1680}' || ('\U{2000}' <= c <= '\U{200A}')
    || c == '\U{2028}' || c == '\U{2029}' || c == '\U{202F}' || c == '\U{205F}'
    || c == '\U{3000}' || c == '\U{FEFF}'
  }

  function TrimStart(s: string): (t: string)
    ensures |t| <= |s| && t == s[|s| - |t|..]
    ensures |t| > 0 ==> !IsWhiteSpace(t[0])
  {
    if |s| > 0 && IsWhiteSpace(s[0]) then TrimStart(s[1..]) else s
  }

  /** The value of a hex digit of either case, if it is one. */
  function DigitValue(c: char): Option<int> {
    if '0' <= c <= '9' then Some(c as int - '0' as int)
    else if 'a' <= c <= 'f' then Some(c as int - 'a' as int + 10)
    else if 'A' <= c <= 'F' then Some(c as int - 'A' as int + 10)
    else None
  }

  predicate IsHexDigit(c: char) {
    DigitValue(c).Some?
  }

  predicate AllHex(s: string) {
    forall i :: 0 <= i < |s| ==> IsHexDigit(s[i])
  }

  /** The longest prefix of hex digits. */
  function HexPrefix(s: string): (p: string)
    ensures |p| <= |s| && p == s[..|p|] && AllHex(p)
    ensures |p| < |s| ==> !IsHexDigit(s[|p|])
  {
    if |s| > 0 && IsHexDigit(s[0]) then [s[0]] + HexPrefix(s[1..]) else []
  }

  /** The number a string of hex digits denotes. */
  function ValueOf(digits: string): (v: nat)
    requires AllHex(digits)
    ensures v < Pow16(|digits|)
  {
    if digits == [] then 0
    else
      var init := digits[..|digits| - 1];
      assert AllHex(init) by {
        assert forall i :: 0 <= i < |init| ==> init[i] == digits[i];
      }
      ValueOf(init) * 16 + DigitValue(digits[|digits| - 1]).value
  }

  function Pow16(k: nat): (p: nat)
    ensures p >= 1
  {
    if k == 0 then 1 else 16 * Pow16(k - 1)
  }

  /** `parseInt`'s sign: `-`, `+` or none. */
  function Unsigned(t: string): string {
    if |t| > 0 && (t[0] == '-' || t[0] == '+') then t[1..] else t
  }

  /** With radix 16, `parseInt` drops a `0x` or `0X` prefix. */
  function StripPrefix(u: string): string {
    if |u| >= 2 && u[0] == '0' && (u[1] == 'x' || u[1] == 'X') then u[2..] else u
  }

  /** `parseInt(s, 16)`; `None` is `NaN`. */
  function ParseIntHex(s: string): Option<int> {
    var t := TrimStart(s);
    var digits := HexPrefix(StripPrefix(Unsigned(t)));
    if digits == [] then None
    else
      var v: int := ValueOf(digits);
      Some(if |t| > 0 && t[0] == '-' then -v else v)
  }

  /** `hexToRgb`: the three bytes of the 32-bit pattern of the parsed number (`NaN` counts as 0). */
  function HexToRgb(hex: string): (rgb: (int, int, int))
    ensures 0 <= rgb.0 < 256 && 0 <= rgb.1 < 256 && 0 <= rgb.2 < 256
  {
    var n := ParseIntHex(if |hex| > 0 then hex[1..] else "");
    Bytes(n.GetOr(0) % TwoTo32)
  }

  /** Bits 16-23, 8-15 and 0-7 of a 32-bit pattern: `(x >> 16) & 255`, `(x >> 8) & 255`, `x & 255`. */
  function Bytes(u: int): (rgb: (int, int, int))
    ensures 0 <= rgb.0 < 256 && 0 <= rgb.1 < 256 && 0 <= rgb.2 < 256
  {
    (u / 65536 % 256, u / 256 % 256, u % 256)
  }

  /** `ToInt32`. */
  function ToInt32(x: int): (r: int)
    ensures -0x8000_0000 <= r < 0x8000_0000 && (r - x) % TwoTo32 == 0
  {
    var u := x % TwoTo32;
    if u >= 0x8000_0000 then u - TwoTo32 else u
  }

  /** A lower-case hex digit. */
  function HexChar(d: int): (c: char)
    requires 0 <= d < 16
    ensures IsHexDigit(c) && DigitValue(c) == Some(d)
  {
    if d < 10 then ('0' as int + d) as char else ('a' as int + d - 10) as char
  }

  /** `n.toString(16)` for a non-negative integer: no leading zeros. */
  function ToHex(n: nat): string {
    if n < 16 then [HexChar(n)] else ToHex(n / 16) + [HexChar(n % 16)]
  }

  /** `x.toString(16)` for an integer. */
  function ToString16(x: int): string {
    if x < 0 then "-" + ToHex(-x) else ToHex(x)
  }

  /** `rgbToHex` for integer components. */
  function RgbToHex(r: int, g: int, b: int): string {
    var sum := 0x100_0000 + ToInt32(r * 65536) + ToInt32(g * 256) + b;
    var text := ToString16(sum);
    "#" + (if |text| > 0 then text[1..] else "")
  }

  /** The low `k` hex digits of `n`, with leading zeros. */
  function FixedHex(n: nat, k: nat): (s: string)
    ensures |s| == k && AllHex(s)
  {
    if k == 0 then [] else FixedHex(n / 16, k - 1) + [HexChar(n % 16)]
  }

  lemma {:induction false} ToHexFixed(n: nat, k: nat)
    requires k >= 1 && Pow16(k - 1) <= n < Pow16(k)
    ensures ToHex(n) == FixedHex(n, k)
  {
    if k > 1 {
      ToHexFixed(n / 16, k - 1);
    }
  }

  lemma {:induction false} ValueOfAppend(s: string, c: char)
    requires AllHex(s) && IsHexDigit(c)
    ensures AllHex(s + [c]) && ValueOf(s + [c]) == ValueOf(s) * 16 + DigitValue(c).value
  {
    assert (s + [c])[..|s|] == s;
  }

  /** Reading the fixed digits of a number below `16^k` back gives the number. */
  lemma {:induction false} ValueOfFixed(n: nat, k: nat)
    requires n < Pow16(k)
    ensures ValueOf(FixedHex(n, k)) == n
  {
    if k > 0 {
      ValueOfFixed(n / 16, k - 1);
      ValueOfAppend(FixedHex(n / 16, k - 1), HexChar(n % 16));
    }
  }

  function LowerChar(c: char): char {
    if 'A' <= c <= 'Z' then (c as int - 'A' as int + 'a' as int) as char else c
  }

  function Lower(s: string): (t: string)
    ensures |t| == |s| && forall i :: 0 <= i < |s| ==> t[i] == LowerChar(s[i])
  {
    seq(|s|, i requires 0 <= i < |s| => LowerChar(s[i]))
  }

  /** Writing a digit string's value back gives the digits, lower-cased. */
  lemma {:induction false} FixedOfValue(s: string)
    requires AllHex(s)
    ensures FixedHex(ValueOf(s), |s|) == Lower(s)
  {
    if s != [] {
      var init := s[..|s| - 1];
      assert AllHex(init) by {
        assert forall i :: 0 <= i < |init| ==> init[i] == s[i];
      }
      FixedOfValue(init);
      var v := ValueOf(s);
      var d := DigitValue(s[|s| - 1]).value;
      assert v / 16 == ValueOf(init) && v % 16 == d;
      assert HexChar(d) == LowerChar(s[|s| - 1]);
      assert Lower(s) == Lower(init) + [LowerChar(s[|s| - 1])];
    }
  }

  /** In range, `rgbToHex` writes the 24-bit colour as six lower-case digits. */
  lemma RgbToHexFixed(r: int, g: int, b: int)
    requires 0 <= r < 256 && 0 <= g < 256 && 0 <= b < 256
    ensures RgbToHex(r, g, b) == "#" + FixedHex(r * 65536 + g * 256 + b, 6)
  {
    var v := r * 65536 + g * 256 + b;
    assert ToInt32(r * 65536) == r * 65536 && ToInt32(g * 256) == g * 256;
    var n := 0x100_0000 + v;
    assert Pow16(6) == 0x100_0000 && Pow16(7) == 0x1000_0000;
    ToHexFixed(n, 7);
    assert FixedHex(n, 7) == FixedHex(n / 16, 6) + [HexChar(n % 16)];
    LeadingOne(v, 6);
  }

  /** `16^k + v` written with `k + 1` digits is `1` followed by `v` written with `k`. */
  lemma {:induction false} LeadingOne(v: nat, k: nat)
    requires v < Pow16(k)
    ensures FixedHex(Pow16(k) + v, k + 1) == ['1'] + FixedHex(v, k)
  {
    if k == 0 {
      assert FixedHex(1 + v, 1) == FixedHex(0, 0) + [HexChar(1)];
    } else {
      var n := Pow16(k) + v;
      assert n / 16 == Pow16(k - 1) + v / 16 && n % 16 == v % 16;
      LeadingOne(v / 16, k - 1);
    }
  }

  /** Each component returned by `rgbToHex` then `hexToRgb` is the one given. */
  lemma HexToRgbOfRgbToHex(r: int, g: int, b: int)
    requires 0 <= r < 256 && 0 <= g < 256 && 0 <= b < 256
    ensures HexToRgb(RgbToHex(r, g, b)) == (r, g, b)
  {
    var v := r * 65536 + g * 256 + b;
    RgbToHexFixedAt(v, r, g, b);
    HexToRgbOfFixed(v);
    BytesOfJoin(v, r, g, b);
  }

  /** `hexToRgb` reads six fixed digits of a 24-bit number back as its bytes. */
  lemma HexToRgbOfFixed(v: int)
    requires 0 <= v < 0x100_0000
    ensures HexToRgb("#" + FixedHex(v, 6)) == Bytes(v)
  {
    var digits := FixedHex(v, 6);
    assert ValueOf(digits) == v by {
      SixDigits();
      ValueOfFixed(v, 6);
    }
    HexToRgbOfDigits(digits);
  }

  lemma BytesOfJoin(v: int, r: int, g: int, b: int)
    requires 0 <= r < 256 && 0 <= g < 256 && 0 <= b < 256 && v == r * 65536 + g * 256 + b
    ensures Bytes(v) == (r, g, b)
  {
    SplitBytes(r, g, b);
  }

  lemma SixDigits()
    ensures Pow16(6) == 0x100_0000
  {
  }

  /** `hexToRgb` of `#` and six digits splits their value into bytes. */
  lemma HexToRgbOfDigits(digits: string)
    requires |digits| == 6 && AllHex(digits)
    ensures HexToRgb("#" + digits) == Bytes(ValueOf(digits))
  {
    var hex := "#" + digits;
    assert hex[1..] == digits;
    ParseDigits(digits);
    var n := ParseIntHex(hex[1..]);
    assert n == Some(ValueOf(digits));
    SixDigits();
    var v := ValueOf(digits);
    SmallMod(v);
  }

  lemma SmallMod(v: int)
    requires 0 <= v < 0x100_0000
    ensures v % TwoTo32 == v
  {
  }

  /** The three bytes of `r * 2^16 + g * 2^8 + b`. */
  lemma SplitBytes(r: int, g: int, b: int)
    requires 0 <= r < 256 && 0 <= g < 256 && 0 <= b < 256
    ensures var v := r * 65536 + g * 256 + b;
      v / 65536 % 256 == r && v / 256 % 256 == g && v % 256 == b
  {
    var v := r * 65536 + g * 256 + b;
    var high := r * 256 + g;
    assert v == high * 256 + b;
    DivMod256(high, b);
    DivMod256(r, g);
    DivMod256(0, r);
    assert v == r * 65536 + (g * 256 + b);
    DivMod65536(r, g * 256 + b);
  }

  lemma DivMod256(q: int, rem: int)
    requires 0 <= rem < 256
    ensures (q * 256 + rem) / 256 == q && (q * 256 + rem) % 256 == rem
  {
  }

  lemma DivMod65536(q: int, rem: int)
    requires 0 <= rem < 65536
    ensures (q * 65536 + rem) / 65536 == q
  {
  }

  /** `parseInt` reads a plain non-empty digit string as its value. */
  lemma ParseDigits(digits: string)
    requires |digits| > 0 && AllHex(digits)
    ensures ParseIntHex(digits) == Some(ValueOf(digits))
  {
    NothingToStrip(digits);
    HexPrefixAll(digits);
  }

  /** A digit string has no leading white space, sign or `0x` prefix. */
  lemma NothingToStrip(digits: string)
    requires |digits| > 0 && AllHex(digits)
    ensures TrimStart(digits) == digits && Unsigned(digits) == digits && StripPrefix(digits) == digits
    ensures !(digits[0] == '-')
  {
    HexNotSpace(digits[0]);
    if |digits| >= 2 {
      HexNotSpace(digits[1]);
    }
  }

  lemma HexNotSpace(c: char)
    requires IsHexDigit(c)
    ensures !IsWhiteSpace(c) && c != '-' && c != '+' && c != 'x' && c != 'X'
  {
  }

  lemma {:induction false} HexPrefixAll(s: string)
    requires AllHex(s)
    ensures HexPrefix(s) == s
  {
    if s != [] {
      HexPrefixAll(s[1..]);
    }
  }

  /** `#` and six hex digits: `hexToRgb` then `rgbToHex` gives it back, lower-cased. */
  lemma RgbToHexOfHexToRgb(hex: string)
    requires |hex| == 7 && hex[0] == '#' && AllHex(hex[1..])
    ensures var rgb := HexToRgb(hex); RgbToHex(rgb.0, rgb.1, rgb.2) == "#" + Lower(hex[1..])
  {
    var digits := hex[1..];
    assert hex == "#" + digits;
    HexToRgbOfDigits(digits);
    var v := ValueOf(digits);
    SixDigits();
    var rgb := HexToRgb(hex);
    assert rgb == (v / 65536 % 256, v / 256 % 256, v % 256);
    RgbOfValue(v, rgb.0, rgb.1, rgb.2);
    FixedOfValue(digits);
  }

  lemma RgbOfValue(v: int, r: int, g: int, b: int)
    requires 0 <= v < 0x100_0000 && r == v / 65536 % 256 && g == v / 256 % 256 && b == v % 256
    ensures RgbToHex(r, g, b) == "#" + FixedHex(v, 6)
  {
    assert r * 65536 + g * 256 + b == v by {
      JoinBytes(v);
    }
    RgbToHexFixedAt(v, r, g, b);
  }

  lemma RgbToHexFixedAt(v: int, r: int, g: int, b: int)
    requires 0 <= r < 256 && 0 <= g < 256 && 0 <= b < 256 && v == r * 65536 + g * 256 + b
    ensures RgbToHex(r, g, b) == "#" + FixedHex(v, 6)
  {
    RgbToHexFixed(r, g, b);
  }

  /** A 24-bit number is its three bytes put back together. */
  lemma JoinBytes(v: int)
    requires 0 <= v < 0x100_0000
    ensures (v / 65536 % 256) * 65536 + (v / 256 % 256) * 256 + v % 256 == v
  {
  }

  /** In range, `rgbToHex` yields `#` and exactly six lower-case hex digits. */
  lemma RgbToHexShape(r: int, g: int, b: int)
    requires 0 <= r < 256 && 0 <= g < 256 && 0 <= b < 256
    ensures var hex := RgbToHex(r, g, b);
      && |hex| == 7 && hex[0] == '#'
      && forall i :: 1 <= i < 7 ==> ('0' <= hex[i] <= '9' || 'a' <= hex[i] <= 'f')
  {
    var hex := RgbToHex(r, g, b);
    var digits := FixedHex(r * 65536 + g * 256 + b, 6);
    assert hex == "#" + digits by {
      RgbToHexFixed(r, g, b);
    }
    assert forall i :: 0 <= i < 6 ==> ('0' <= digits[i] <= '9' || 'a' <= digits[i] <= 'f') by {
      LowerDigits(r * 65536 + g * 256 + b, 6);
    }
    assert forall i :: 1 <= i < 7 ==> hex[i] == digits[i - 1];
  }

  lemma {:induction false} LowerDigits(n: nat, k: nat)
    ensures forall i :: 0 <= i < k ==> ('0' <= FixedHex(n, k)[i] <= '9' || 'a' <= FixedHex(n, k)[i] <= 'f')
  {
    if k > 0 {
      LowerDigits(n / 16, k - 1);
      assert FixedHex(n, k) == FixedHex(n / 16, k - 1) + [HexChar(n % 16)];
    }
  }

  /** The key of the `i`-th light shade. */
  function LightKey(i: int): string
    requires 1 <= i <= 9
  {
    "primary-light-" + [('0' as int + i) as char]
  }

  const DarkKey: string := "primary-dark-2"

  /** The palette keys: the primary colour, nine light shades and one dark shade. */
  function ThemeKeys(): set<string> {
    {"primary", DarkKey} + set i | 1 <= i <= 9 :: LightKey(i)
  }

  /** The eleven keys are pairwise distinct. */
  lemma ThemeKeysDistinct(i: int, j: int)
    requires 1 <= i <= 9 && 1 <= j <= 9
    ensures i != j ==> LightKey(i) != LightKey(j)
    ensures LightKey(i) != "primary" && LightKey(i) != DarkKey && DarkKey != "primary"
  {
    if i != j {
      assert LightKey(i)[14] != LightKey(j)[14];
    }
    assert |LightKey(i)| == 15 && |DarkKey| == 14;
  }

  /** `generateThemeColors(primary)`; `shade(step)` is `adjustBrightness(primary, step / 10)`. */
  method GenerateThemeColors(primary: string, shade: int -> string) returns (colors: map<string, string>)
    ensures colors.Keys == ThemeKeys()
    ensures colors["primary"] == primary
    ensures forall i :: 1 <= i <= 9 ==> LightKey(i) in colors && colors[LightKey(i)] == shade(i)
    ensures colors[DarkKey] == shade(-2)
  {
    colors := map["primary" := primary];
    for i := 1 to 10
      invariant colors.Keys == {"primary"} + set j | 1 <= j < i :: LightKey(j)
      invariant colors["primary"] == primary
      invariant forall j :: 1 <= j < i ==> colors[LightKey(j)] == shade(j)
    {
      ThemeKeysDistinct(i, i);
      forall j | 1 <= j < i
        ensures LightKey(j) != LightKey(i)
      {
        ThemeKeysDistinct(i, j);
      }
      colors := colors[LightKey(i) := shade(i)];
    }
    ThemeKeysDistinct(1, 1);
    forall j | 1 <= j <= 9
      ensures LightKey(j) != DarkKey
    {
      ThemeKeysDistinct(j, j);
    }
    colors := colors[DarkKey := shade(-2)];
    PaletteKeys();
  }

  lemma PaletteKeys()
    ensures ({"primary"} + set j | 1 <= j < 10 :: LightKey(j)) + {DarkKey} == ThemeKeys()
  {
  }
}
