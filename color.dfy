/** lib/color.ts: colour text to channel vector and back.
    Encoding understands `#RGB`, `#RRGGBB`, `#RRGGBBAA` (section 5.2 of CSS Color
    Module Level 4) and comma-separated `rgb(...)` / `rgba(...)` (section 5.1);
    decoding writes the family of a hint string. */
module Color {
  import opened Results
  import opened JsText
  import Numbers

  /** `color.startsWith('#')`. */
  predicate IsHex(color: string) {
    |color| >= 1 && color[0] == '#'
  }

  /** `color.startsWith('rgb')`. No text is of both families. */
  predicate IsRGB(color: string)
    ensures IsRGB(color) ==> !IsHex(color)
  {
    |color| >= 3 && color[0] == 'r' && color[1] == 'g' && color[2] == 'b'
  }

  /** `s.slice(i, j)` for non-negative bounds: both are cut down to the length. */
  function Slice(s: string, i: nat, j: nat): (r: string)
    requires i <= j
    ensures j <= |s| ==> r == s[i..j]
  {
    var lo := if i < |s| then i else |s|;
    var hi := if j < |s| then j else |s|;
    s[lo..hi]
  }

  // ---------------------------------------------------------------------------
  // Encoding

  /** `hex.replace(/^#(.)(.)(.)$/, '#$1$1$2$2$3$3')` applied to 4-character text. */
  function ExpandShortHex(hex: string): string {
    if |hex| == 4 && hex[0] == '#'
       && !IsLineTerminator(hex[1]) && !IsLineTerminator(hex[2]) && !IsLineTerminator(hex[3])
    then ['#', hex[1], hex[1], hex[2], hex[2], hex[3], hex[3]]
    else hex
  }

  function ToReal(n: Option<int>): Option<real> {
    if n.Some? then Some(n.value as real) else None
  }

  /** `parseInt(...) / 255`: the alpha pair as a fraction; NaN stays NaN. */
  function AlphaFraction(a: Option<int>): Option<real> {
    if a.Some? then Some(a.value as real / 255.0) else None
  }

  /** hexToAnimatedValue: R, G, B from the pairs at 1-3, 3-5, 5-7 of the expanded
      text, and alpha / 255 from 7-9 when the expanded text has 9 characters.
      `None` is NaN. */
  function HexChannels(hex: string): (cs: seq<Option<real>>)
    ensures |cs| == 3 || |cs| == 4
  {
    var h := ExpandShortHex(hex);
    var r := ParseIntHex(Slice(h, 1, 3));
    var g := ParseIntHex(Slice(h, 3, 5));
    var b := ParseIntHex(Slice(h, 5, 7));
    if |h| == 9 then
      var a := ParseIntHex(Slice(h, 7, 9));
      [ToReal(r), ToReal(g), ToReal(b), AlphaFraction(a)]
    else [ToReal(r), ToReal(g), ToReal(b)]
  }

  /** `fields.map(Number)`; a field that is not a decimal numeral is refused. */
  function ParseFields(fields: seq<string>): (r: Result<seq<real>>)
    ensures r.Ok? ==> |r.value| == |fields|
    ensures r.Ok? <==> forall i :: 0 <= i < |fields| ==> ParseNumber(fields[i]).Some?
    ensures r.Ok? ==> forall i :: 0 <= i < |fields| ==> r.value[i] == ParseNumber(fields[i]).value
    ensures r.Err? ==> r.error == UnmodelledInput
  {
    if fields == [] then Ok([])
    else
      var head := ParseNumber(fields[0]);
      var tail := ParseFields(fields[1..]);
      if head.None? then Err(UnmodelledInput)
      else if tail.Err? then tail
      else Ok([head.value] + tail.value)
  }

  /** The rgb branch of colorToAnimatedValue: the first parenthesised group, split
      at commas, each field read as a number. */
  function EncodeRgb(color: string): (r: Result<seq<real>>)
    ensures ParenGroup(color).None? ==> r == Err(ColorFormatError)
    ensures ParenGroup(color).Some? ==> r == ParseFields(SplitComma(ParenGroup(color).value))
  {
    var group := ParenGroup(color);
    if group.None? then Err(ColorFormatError) else ParseFields(SplitComma(group.value))
  }

  /** The hex branch of colorToAnimatedValue: the channels, refused when one is NaN. */
  function EncodeHex(color: string): (r: Result<seq<real>>)
    ensures r.Err? ==> r.error == ColorFormatError
    ensures r.Ok? <==> forall i :: 0 <= i < |HexChannels(color)| ==> HexChannels(color)[i].Some?
    ensures r.Ok? ==>
              |r.value| == |HexChannels(color)|
              && forall i :: 0 <= i < |r.value| ==> Some(r.value[i]) == HexChannels(color)[i]
  {
    var cs := HexChannels(color);
    if forall i :: 0 <= i < |cs| ==> cs[i].Some? then Ok(seq(|cs|, i requires 0 <= i < |cs| => cs[i].value))
    else Err(ColorFormatError)
  }

  /** colorToAnimatedValue, with the development-mode checks as errors. */
  function Encode(color: string): (r: Result<seq<real>>)
    ensures !IsRGB(color) && !IsHex(color) ==> r == Err(UnsupportedValue)
    ensures IsRGB(color) ==> r == EncodeRgb(color)
    ensures IsHex(color) ==> r == EncodeHex(color)
  {
    if IsRGB(color) then EncodeRgb(color)
    else if IsHex(color) then EncodeHex(color)
    else Err(UnsupportedValue)
  }

  // ---------------------------------------------------------------------------
  // Decoding

  /** `clamp(Math.round(v), 0, 255)`. */
  function Channel(v: real): (c: nat)
    ensures c <= 255
    ensures c as real == Numbers.Clamp(Numbers.Round(v) as real, 0.0, 255.0)
    ensures -0.5 <= v < 255.5 ==> c == Numbers.Round(v)
  {
    Numbers.Clamp(Numbers.Round(v) as real, 0.0, 255.0).Floor
  }

  /** The i-th destructured channel: `undefined` past the end of the vector. */
  function ChannelAt(vec: seq<real>, i: nat): Option<nat> {
    if i < |vec| then Some(Channel(vec[i])) else None
  }

  /** `` `${c}` `` of a channel or of `undefined`. */
  function Show(c: Option<nat>): string {
    if c.Some? then NatToDecimal(c.value) else "undefined"
  }

  /** The rgb branch of animationValueToColor: `rgba(r,g,b,a)` when a fourth
      channel exists, `rgb(r,g,b)` otherwise. */
  function RgbText(vec: seq<real>): (s: string)
    ensures IsRGB(s) && s[|s| - 1] == ')'
  {
    var r, g, b, a := ChannelAt(vec, 0), ChannelAt(vec, 1), ChannelAt(vec, 2), ChannelAt(vec, 3);
    if a.Some? then "rgba(" + Show(r) + "," + Show(g) + "," + Show(b) + "," + Show(a) + ")"
    else "rgb(" + Show(r) + "," + Show(g) + "," + Show(b) + ")"
  }

  /** rgbToHex: `'#' + ((1 << 24) + (r << 16) + (g << 8) + b).toString(16).slice(1)`.
      An `undefined` r or g shifts as 0; an `undefined` b makes the sum NaN,
      printed "NaN", of which "aN" survives the slice. */
  function RgbToHex(r: Option<nat>, g: Option<nat>, b: Option<nat>): (s: string)
    requires r.Some? ==> r.value <= 255
    requires g.Some? ==> g.value <= 255
    requires b.Some? ==> b.value <= 255
    ensures IsHex(s)
  {
    var rr := if r.Some? then r.value else 0;
    var gg := if g.Some? then g.value else 0;
    if b.None? then "#aN"
    else "#" + NatToHex(16777216 + rr * 65536 + gg * 256 + b.value)[1..]
  }

  /** The alpha digits rgbaToHexA writes for a scaled alpha: `toString(16)`,
      with a single digit doubled. */
  function AlphaDigitsAsWritten(x: nat): (s: string)
    ensures |s| >= 2
    ensures x < 16 ==> s == [HexDigit(x), HexDigit(x)]
    ensures x >= 16 ==> s == NatToHex(x)
  {
    var digits := NatToHex(x);
    if |digits| == 1 then digits + digits else digits
  }

  /** rgbaToHexA as written, fed the alpha already rounded and clamped like a
      colour channel: `Math.round(a * 255).toString(16)`, a single digit doubled. */
  function RgbaToHexAAsWritten(r: nat, g: nat, b: nat, a: nat): (s: string)
    requires r <= 255 && g <= 255 && b <= 255 && a <= 255
    ensures a <= 1 ==> s == "#" + HexByte(r) + HexByte(g) + HexByte(b) + (if a == 1 then "ff" else "00")
  {
    RgbToHexDigits(r, g, b);
    var alpha := AlphaDigitsAsWritten(a * 255);
    assert a == 0 ==> alpha == "00";
    assert a == 1 ==> alpha == NatToHex(255) == "ff";
    RgbToHex(Some(r), Some(g), Some(b)) + alpha
  }

  /** The alpha byte of the corrected decoder: `Math.round(clamp(a, 0, 1) * 255)`. */
  function AlphaByte(a: real): (x: nat)
    ensures x <= 255
    ensures 0.0 <= a <= 1.0 ==> x == Numbers.Round(a * 255.0)
  {
    var scaled := Numbers.Clamp(a, 0.0, 1.0) * 255.0;
    Numbers.Round(scaled)
  }

  /** rgbaToHexA as evidently intended: the alpha in [0, 1] scaled to a byte and
      written as two zero-padded hex digits. */
  function RgbaToHexA(r: nat, g: nat, b: nat, a: real): (s: string)
    requires r <= 255 && g <= 255 && b <= 255
    ensures s == "#" + HexByte(r) + HexByte(g) + HexByte(b) + HexByte(AlphaByte(a))
  {
    RgbToHexDigits(r, g, b);
    RgbToHex(Some(r), Some(g), Some(b)) + HexByte(AlphaByte(a))
  }

  /** animationValueToColor with the hex alpha corrected. The text family is the
      hint's, never the encoded input's; a hint of neither family is an error. */
  function Decode(vec: seq<real>, hint: string): (r: Result<string>)
    ensures r.Ok? <==> IsRGB(hint) || IsHex(hint)
    ensures r.Err? ==> r.error == ColorFormatError
    ensures IsRGB(hint) ==> IsRGB(r.value) && r.value[|r.value| - 1] == ')'
    ensures IsRGB(hint) && |vec| == 3 ==>
              r.value == "rgb(" + NatToDecimal(Channel(vec[0])) + "," + NatToDecimal(Channel(vec[1])) + ","
                         + NatToDecimal(Channel(vec[2])) + ")"
    ensures IsRGB(hint) && |vec| >= 4 ==>
              r.value == "rgba(" + NatToDecimal(Channel(vec[0])) + "," + NatToDecimal(Channel(vec[1])) + ","
                         + NatToDecimal(Channel(vec[2])) + "," + NatToDecimal(Channel(vec[3])) + ")"
    ensures IsHex(hint) ==> IsHex(r.value)
    ensures IsHex(hint) && |vec| == 3 ==>
              r.value == "#" + HexByte(Channel(vec[0])) + HexByte(Channel(vec[1])) + HexByte(Channel(vec[2]))
    ensures IsHex(hint) && |vec| >= 4 ==>
              r.value == "#" + HexByte(Channel(vec[0])) + HexByte(Channel(vec[1])) + HexByte(Channel(vec[2]))
                         + HexByte(AlphaByte(vec[3]))
  {
    if IsRGB(hint) then Ok(RgbText(vec))
    else if IsHex(hint) then
      var r, g, b := ChannelAt(vec, 0), ChannelAt(vec, 1), ChannelAt(vec, 2);
      if |vec| >= 4 then
        RgbToHexDigits(r.value, g.value, b.value);
        Ok(RgbaToHexA(r.value, g.value, b.value, vec[3]))
      else if |vec| == 3 then
        RgbToHexDigits(r.value, g.value, b.value);
        Ok(RgbToHex(r, g, b))
      else Ok(RgbToHex(r, g, b))
    else Err(ColorFormatError)
  }

  /** animationValueToColor as written: differs from Decode only for a hex hint and
      a vector of four or more values, where the alpha goes through the channel
      rounding before rgbaToHexA. */
  function DecodeAsWritten(vec: seq<real>, hint: string): (r: Result<string>)
    ensures r.Ok? <==> IsRGB(hint) || IsHex(hint)
    ensures r.Err? ==> r.error == ColorFormatError
    ensures !(IsHex(hint) && |vec| >= 4) ==> r == Decode(vec, hint)
    ensures IsHex(hint) && |vec| >= 4 ==> IsHex(r.value)
  {
    if IsHex(hint) && |vec| >= 4 then
      Ok(RgbaToHexAAsWritten(Channel(vec[0]), Channel(vec[1]), Channel(vec[2]), Channel(vec[3])))
    else Decode(vec, hint)
  }

  /** The hex text of three in-range channels is two zero-padded digits each. */
  lemma RgbToHexDigits(r: nat, g: nat, b: nat)
    requires r <= 255 && g <= 255 && b <= 255
    ensures RgbToHex(Some(r), Some(g), Some(b)) == "#" + HexByte(r) + HexByte(g) + HexByte(b)
  {
    HexAppendByte(1, r);
    HexAppendByte(256 + r, g);
    HexAppendByte((256 + r) * 256 + g, b);
    assert 16777216 + r * 65536 + g * 256 + b == ((256 + r) * 256 + g) * 256 + b;
    assert NatToHex(1) == "1";
  }
}
