/** `dimColor`: decoding a state's `#rrggbb` colour into its three channels
    for a translucent column background. The alpha value and the text of
    the `rgba(...)` result are not modelled. */
module Colors {

  /** The channel value of the fixed gray fallback `rgba(120,120,120,…)`. */
  const NeutralChannel: nat := 120

  /** What `dimColor` produces: the gray fallback, or three decoded
      channels. `Unparsed` stands for a six-character remainder holding a
      character that is not a hexadecimal digit. There `parseInt` skips
      leading white space, reads an optional sign and then a hexadecimal
      prefix, or yields NaN; those values are not modelled. */
  datatype Dimmed = Neutral | Rgb(red: nat, green: nat, blue: nat) | Unparsed

  /** `hex.startsWith("#") ? hex.slice(1) : hex`: one leading `#` is
      removed, and nothing else changes. */
  function StripHash(hex: string): (s: string)
    ensures |hex| > 0 && hex[0] == '#' ==> "#" + s == hex
    ensures (|hex| == 0 || hex[0] != '#') ==> s == hex
  {
    if |hex| > 0 && hex[0] == '#' then hex[1..] else hex
  }

  const LowerDigits := "0123456789abcdef"
  const UpperDigits := "0123456789ABCDEF"

  /** The value of one hexadecimal digit, in either case, as `parseInt`
      with radix 16 reads it: its position in the digit table. */
  function HexValue(c: char): (v: nat)
    requires IsHexDigit(c)
    ensures v < 16 && (LowerDigits[v] == c || UpperDigits[v] == c)
  {
    if '0' <= c <= '9' then c as nat - '0' as nat
    else if 'a' <= c <= 'f' then c as nat - 'a' as nat + 10
    else c as nat - 'A' as nat + 10
  }

  predicate IsHexDigit(c: char)
  {
    '0' <= c <= '9' || 'a' <= c <= 'f' || 'A' <= c <= 'F'
  }

  /** `parseInt(s.slice(i, i + 2), 16)` for two hexadecimal digits: the
      first is the high digit of the channel, the second the low one. */
  function Channel(s: string, i: nat): (v: nat)
    requires i + 2 <= |s| && IsHexDigit(s[i]) && IsHexDigit(s[i + 1])
    ensures v < 256 && v / 16 == HexValue(s[i]) && v % 16 == HexValue(s[i + 1])
  {
    HexValue(s[i]) * 16 + HexValue(s[i + 1])
  }

  function DimColor(hex: string): (d: Dimmed)
    ensures d.Neutral? <==> |StripHash(hex)| != 6
    ensures d.Unparsed? <==> |StripHash(hex)| == 6 && exists i :: 0 <= i < 6 && !IsHexDigit(StripHash(hex)[i])
    ensures d.Rgb? ==> d.red < 256 && d.green < 256 && d.blue < 256
    ensures d.Rgb? ==>
      var s := StripHash(hex);
      && d.red / 16 == HexValue(s[0]) && d.red % 16 == HexValue(s[1])
      && d.green / 16 == HexValue(s[2]) && d.green % 16 == HexValue(s[3])
      && d.blue / 16 == HexValue(s[4]) && d.blue % 16 == HexValue(s[5])
  {
    var s := StripHash(hex);
    if |s| != 6 then Neutral
    else if forall i :: 0 <= i < 6 ==> IsHexDigit(s[i]) then Rgb(Channel(s, 0), Channel(s, 2), Channel(s, 4))
    else Unparsed
  }

  /** The hexadecimal digit for `v`, in upper or lower case. */
  function HexDigit(v: nat, upper: bool): (c: char)
    requires v < 16
    ensures IsHexDigit(c) && HexValue(c) == v
  {
    if upper then UpperDigits[v] else LowerDigits[v]
  }

  /** `#rrggbb` (or `#RRGGBB`) for three channels: the form of a state's
      colour. */
  function ToHex(red: nat, green: nat, blue: nat, upper: bool): (s: string)
    requires red < 256 && green < 256 && blue < 256
    ensures |s| == 7 && s[0] == '#'
  {
    ['#', HexDigit(red / 16, upper), HexDigit(red % 16, upper), HexDigit(green / 16, upper),
     HexDigit(green % 16, upper), HexDigit(blue / 16, upper), HexDigit(blue % 16, upper)]
  }

  /** Decoding a colour written as `#rrggbb` or `rrggbb`, in either case,
      gives back its channels. */
  lemma DimColorRoundTrip(red: nat, green: nat, blue: nat, upper: bool)
    requires red < 256 && green < 256 && blue < 256
    ensures DimColor(ToHex(red, green, blue, upper)) == Rgb(red, green, blue)
    ensures DimColor(ToHex(red, green, blue, upper)[1..]) == Rgb(red, green, blue)
  {
    var s := ToHex(red, green, blue, upper);
    assert StripHash(s) == s[1..];
    assert StripHash(s[1..]) == s[1..];
  }

  /** A leading `#` is optional, and only one is stripped: `##rrggbb`
      has seven characters left and falls back to gray. */
  lemma StripsOneHash(rest: string)
    ensures (|rest| == 0 || rest[0] != '#') ==> DimColor("#" + rest) == DimColor(rest)
    ensures |rest| == 6 ==> DimColor("##" + rest) == Neutral
  {
    assert StripHash("##" + rest) == "#" + rest;
    assert StripHash("#" + rest) == rest;
  }

  /** `dimColor("#336699")` decodes to (51, 102, 153), `"#FFFFFF"` to
      (255, 255, 255), mixed-case `"#aAbBcC"` to (170, 187, 204); `"xyz"`
      is gray. */
  lemma DimColorExamples()
    ensures DimColor("#336699") == Rgb(51, 102, 153)
    ensures DimColor("#FFFFFF") == Rgb(255, 255, 255)
    ensures DimColor("#aAbBcC") == Rgb(170, 187, 204)
    ensures DimColor("xyz") == Neutral
  {
    var s, t := "336699", "FFFFFF";
    assert StripHash("#336699") == s;
    assert forall i :: 0 <= i < 6 ==> IsHexDigit(s[i]);
    assert Channel(s, 0) == 51 && Channel(s, 2) == 102 && Channel(s, 4) == 153;
    assert StripHash("#FFFFFF") == t;
    assert forall i :: 0 <= i < 6 ==> IsHexDigit(t[i]);
    assert Channel(t, 0) == 255 && Channel(t, 2) == 255 && Channel(t, 4) == 255;
    var m := "aAbBcC";
    assert StripHash("#aAbBcC") == m;
    assert forall i :: 0 <= i < 6 ==> IsHexDigit(m[i]);
    assert Channel(m, 0) == 170 && Channel(m, 2) == 187 && Channel(m, 4) == 204;
  }
}
