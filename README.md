# from-to, modelled in Dafny

from-to is a small value-interpolation animation engine. Given a start and an
end value, it produces the values in between, frame by frame. A value is a
number, an array of values, or a colour written as `#rgb`, `#rrggbb`,
`#rrggbbaa`, `rgb(...)` or `rgba(...)`. It moves along one of two generators:
a cubic-bezier easing curve ("tween") or a damped spring. The controls it
returns play, pause, stop, cancel and loop the animation, and offer a
completion promise.

The model covers the `lib/` core:

- `Numbers` and `Codec` model `lib/utils.ts`.
  - `Codec.Encode` is `valueToAnimationValue`: it flattens any value into a
    vector of numbers.
  - `Codec.Decode` is `animationValueToValue`: it turns a vector back into a
    value shaped like the target.
  - `Numbers` holds the unit conversions, `clamp` and `Math.round`.
- `Color` models `lib/color.ts`. Encoding reads hex and rgb text into
  channels; decoding writes channels back in the family of a hint. `JsText`
  holds the JavaScript text primitives this needs, written out: `parseInt(_, 16)`,
  `Number`, `split(',')`, the parenthesis regex and `toString(16)`.
- `Bezier` models `lib/bezier.ts`: the preset table, the progress ratio and
  the per-component interpolation.
- `Spring` models `lib/spring.ts`: the closed-form damped oscillator in its
  three regimes, the velocity estimate and the settling test.
- `AnimateSpec` and `Animate` model `lib/animate.ts`.
  - `AnimateSpec` states the factory's checks and every controller operation
    as a function from one state to the next.
  - `Animate.Animation` is a class. Its fields are the closure variables of
    `animate`. Its methods are `play`, `pause`, `stop`, `cancel`, `then` and
    the frame callback `tick`, and each is proved to move its fields exactly
    as the matching `AnimateSpec` function says, keeping the controller
    invariant.
- The modules ending in `Properties` hold the lemmas about each part.

Numbers are `real`, and `Math.round(x)` is `floor(x + 0.5)`. Every error the
library throws in development mode is an `Err` of a `Result`.

Some things come into the model as parameters:

- the bezier-easing solver is a function from control points to an easing
  function;
- `Math.exp`, `sin`, `cos`, `sinh`, `cosh` and `sqrt` are a `Maths` record of
  functions;
- `performance.now()` and the frame timestamp are `real` arguments.

`requestAnimationFrame` is a `scheduled` flag. The completion promise is a
generation counter: each new promise resolves the one before. The callbacks
fired are an event log.

The model keeps these behaviours of the source as they are written:

- An array of four control points for `ease` is ignored. Only preset names
  are looked up, and anything else uses the "ease" curve
  (`lib/bezier.ts:24-37`).
- The linear preset is named `liner` (`lib/bezier.ts:18`).
- An `ease` name that is a key every JavaScript object inherits, such as
  `"toString"`, makes the factory throw a TypeError (`lib/bezier.ts:24-39`).
  `AnimateSpec.Setup` returns `Err(NotIterable)` for it. See Findings.
- Progress is `min(1, elapsed / duration)`. It is not clamped below 0
  (`lib/bezier.ts:46`).
- A frame that arrives during a loop delay still samples the generator at
  the current elapsed time and fires `onUpdate` (`lib/animate.ts:107-125`).
- The velocity estimate is scaled by `1000 / t - prevT`, not by
  `1000 / (t - prevT)` (`lib/spring.ts:25`), and the spring's settling test
  uses that estimate. See Findings.
- A hex colour with an alpha channel gets its alpha written as `00` unless
  it is fully opaque, and that is the text `onUpdate` receives
  (`lib/color.ts:103`). See Findings.
- An `rgba(...)` colour gets its alpha rounded to `0` or `1`
  (`lib/color.ts:103-107`).

## Model

| member | source | states |
|---|---|---|
| Numbers.ConversionsInverse | lib/utils.ts:9-12 | seconds to milliseconds and back is the identity, and so is the other direction |
| Numbers.SecondsToMilliseconds | lib/utils.ts:9-10 | seconds times 1000, which the other conversion turns back into the seconds |
| Numbers.MillisecondsToSeconds | lib/utils.ts:11-12 | milliseconds divided by 1000: the seconds that make that many milliseconds |
| Numbers.Clamp | lib/utils.ts:46-47 | the result lies in [min, max] when min <= max, is the value itself when that is in range, and is one of value, min or max |
| Numbers.Round | lib/animate.ts:115 | `Math.round` gives the integer n with x - 0.5 < n <= x + 0.5 |
| Numbers.RoundShift | lib/animate.ts:115 | rounding commutes with adding an integer, so elapsed times shift exactly |
| JsText.HexDigit | lib/color.ts:88 | the digit `toString(16)` writes is a lower-case hex digit whose value is d |
| JsText.LowerHex | lib/color.ts:88 | lower-casing a hex digit keeps its value, and only A-F change |
| JsText.LowerHexString | lib/color.ts:88 | every digit of the text is lower-cased, and the length is kept |
| JsText.DecimalRun | lib/color.ts:39 | the longest prefix of decimal digits: all digits, followed by a non-digit or the end |
| JsText.HexRun | lib/color.ts:21-23 | the longest prefix of hex digits, the part `parseInt(_, 16)` reads |
| JsText.ParseIntHex | lib/color.ts:21-23 | `parseInt(_, 16)`: leading white space, a sign and a `0x` prefix skipped, then the longest run of hex digits, or NaN when there is none; its value on a pair is stated by JsText.ParseIntHexPair |
| JsText.ParseNumber | lib/color.ts:39 | `Number` of blank text is 0 |
| JsText.NatToDecimal | lib/color.ts:107 | `${n}` is non-empty decimal digits |
| JsText.NatToHex | lib/color.ts:88 | `n.toString(16)` is non-empty lower-case hex digits |
| JsText.HexByte | lib/color.ts:88 | a byte is written as exactly two hex digits |
| JsText.DecimalRoundTrip | lib/color.ts:107 | reading the digits `${n}` writes gives back n |
| JsText.ParseNumberOfDecimal | lib/color.ts:39 | `Number` of the text `${n}` is n, so channels written by rgb text read back |
| JsText.HexAppendByte | lib/color.ts:88 | `toString(16)` of n * 256 + x ends with x as two digits; this is why rgbToHex adds 1 << 24 and slices |
| JsText.ParseIntHexPair | lib/color.ts:21-23 | `parseInt` of a two-digit hex pair is its base-16 value |
| JsText.SplitComma | lib/color.ts:39 | `split(',')` gives at least one part, and no part contains a comma |
| JsText.SplitJoin | lib/color.ts:39 | joining the parts of `split(',')` with commas gives the text back |
| JsText.CloseRun | lib/color.ts:36 | the longest prefix without `)` ends at the first `)` |
| JsText.ParenGroup | lib/color.ts:36-37 | the group of `/\(([^)]+)\)/` is non-empty and holds no `)` |
| JsText.ParenGroupOf | lib/color.ts:36-37 | in `p(body)q`, where p has no `(`, the group is exactly body |
| Color.Slice | lib/color.ts:21-23 | `slice(i, j)` within bounds is the sub-sequence from i to j |
| Color.IsHex | lib/color.ts:10-11 | the hex family: text that starts with `#` |
| Color.IsRGB | lib/color.ts:12-13 | the rgb family: text that starts with `rgb`; no text is of both families |
| Color.ExpandShortHex | lib/color.ts:16-19 | four-character `#abc` text without a line terminator becomes `#aabbcc`, other text stays as it is; ColorProperties.ShortHexDoubles states what this means for encoding |
| Color.HexChannels | lib/color.ts:15-31 | hex text gives three channels (R, G, B), or four with the alpha |
| Color.ParseFields | lib/color.ts:39 | `map(Number)` succeeds exactly when every field reads as a number, and then gives those numbers in order |
| Color.EncodeRgb | lib/color.ts:33-42 | rgb text without a parenthesised group is an error; otherwise its fields, split at commas, read as numbers |
| Color.EncodeHex | lib/color.ts:62-75 | hex text encodes exactly when no channel is NaN, to those channels, and fails with a colour-format error otherwise |
| Color.Encode | lib/color.ts:44-84 | the rgb family is tried first, then hex; text of neither family is an unsupported value |
| Color.Channel | lib/color.ts:103 | `clamp(Math.round(v), 0, 255)` is a byte, and equals `Math.round(v)` for v in [-0.5, 255.5) |
| Color.AlphaByte | lib/color.ts:92 | the corrected alpha byte is `Math.round(a * 255)` for a in [0, 1]; outside [0, 1] the alpha is clamped first, which the source does not do, so it is always a byte |
| Color.RgbText | lib/color.ts:105-110 | the rgb template gives text of the rgb family ending in `)` |
| Color.RgbToHex | lib/color.ts:86-89 | `rgbToHex` gives text of the hex family |
| Color.AlphaDigitsAsWritten | lib/color.ts:92-95 | the alpha digits as written: `toString(16)`, a single digit d written twice as `dd`, two or more digits as they are |
| Color.RgbaToHexAAsWritten | lib/color.ts:90-97 | as written, a channel-rounded alpha of 0 or 1 is written as `00` or `ff` after the three colour pairs |
| Color.RgbaToHexA | lib/color.ts:90-97 | corrected, `#` then two digits for each colour byte and for the alpha byte |
| Color.Decode | lib/color.ts:99-121 | decoding succeeds exactly for a hint of the rgb or hex family and writes text of the hint's family; three channels give `rgb(r,g,b)`, four or more `rgba(r,g,b,a)` of the rounded, clamped channels; hex is `#` plus two digits per channel, with the corrected alpha byte |
| Color.DecodeAsWritten | lib/color.ts:99-121 | as written, decoding agrees with the corrected decoder except for a hex hint with an alpha, where it still writes hex text; it fails only with a colour-format error |
| Color.RgbToHexDigits | lib/color.ts:86-89 | rgbToHex of three bytes is `#` followed by two zero-padded digits per channel |
| ColorProperties.HexBytePair | lib/color.ts:21-23 | a hex pair read and written back is the pair in lower case |
| ColorProperties.PairAt | lib/color.ts:21-23 | a two-digit pair's value is a byte |
| ColorProperties.HexChannelsOfPairs6 | lib/color.ts:15-31 | `#RRGGBB` gives its three pairs as channels |
| ColorProperties.HexChannelsOfPairs8 | lib/color.ts:15-31 | `#RRGGBBAA` gives its three pairs and the alpha pair / 255 |
| ColorProperties.PairParsed | lib/color.ts:21-23 | `parseInt(hex.slice(i, i + 2), 16)` is the pair's value |
| ColorProperties.EncodeHexOfChannels | lib/color.ts:62-75 | hex text whose channels are all numbers encodes to exactly them |
| ColorProperties.EncodeHex6 | lib/color.ts:44-84 | `#RRGGBB` encodes to its three pair values |
| ColorProperties.EncodeHex8 | lib/color.ts:44-84 | `#RRGGBBAA` encodes to its pairs with alpha / 255, which lies in [0, 1] |
| ColorProperties.EncodeHexExample | lib/color.ts:44-84 | `#112233` encodes to 17, 34, 51 |
| ColorProperties.ShortHexDoubles | lib/color.ts:16-19 | `#abc` encodes exactly as `#aabbcc` |
| ColorProperties.HexBytesOfPairs | lib/color.ts:86-89 | writing the three pairs of hex text back gives that text, lower-cased |
| ColorProperties.PairByte | lib/color.ts:86-89 | a pair written back is the pair lower-cased |
| ColorProperties.ChannelOfPair | lib/color.ts:103 | a channel read from a pair passes the rounding and clamping unchanged |
| ColorProperties.AlphaByteOfFraction | lib/color.ts:26 | the corrected decoder turns the alpha fraction x / 255 back into x |
| ColorProperties.ChannelOfFraction | lib/color.ts:103 | as written, the alpha fraction rounds to 0, or to 1 from 128 up |
| ColorProperties.HexRoundTrip6 | lib/color.ts:15-31 | `#RRGGBB` encoded and decoded against any hex hint is the same colour in lower case |
| ColorProperties.DecodeBytes4 | lib/color.ts:111-116 | four bytes, with the alpha as a fraction, decode to their eight digits |
| ColorProperties.DecodeAsWrittenBytes4 | lib/color.ts:111-116 | as written, the alpha of the same four bytes decodes to `00` or `ff` |
| ColorProperties.HexRoundTrip8 | lib/color.ts:15-31 | with the corrected decoder, `#RRGGBBAA` encoded and decoded is the same colour in lower case |
| ColorProperties.HexBytesOfPairs8 | lib/color.ts:90-97 | writing the four pairs back gives the eight digits lower-cased |
| ColorProperties.LowerHexSplit | lib/color.ts:90-97 | lower-casing eight digits is lower-casing the six colour digits and then the alpha pair |
| ColorProperties.HexAlphaAsWritten | lib/color.ts:90-97 | as written, `#RRGGBBAA` comes back with the alpha pair replaced by `00` or `ff`, from 128 up `ff` |
| ColorProperties.AlphaDoublingAgrees | lib/color.ts:92-95 | the doubling agrees with two zero-padded digits exactly for 0 and from 16 up |
| ColorProperties.AlphaDoublingExample | lib/color.ts:92-95 | an alpha byte of 10 is written `aa`, where zero padding writes `0a` |
| ColorProperties.HexByteExamples | lib/color.ts:88 | 17, 34, 51 and 68 are written as 11, 22, 33 and 44 |
| ColorProperties.HexAlphaEncodeExample | lib/color.ts:25-28 | `#11223344` encodes to 17, 34, 51 and 68 / 255 |
| ColorProperties.HexAlphaDecodeAsWrittenExample | lib/color.ts:103 | as written, that vector decodes to `#11223300` |
| ColorProperties.HexAlphaDecodeExample | lib/color.ts:111-116 | corrected, that vector decodes to `#11223344` |
| ColorProperties.SplitNoComma | lib/color.ts:39 | text without a comma splits into itself alone |
| ColorProperties.SplitFirst | lib/color.ts:39 | splitting `a,rest` gives a, then the parts of rest |
| ColorProperties.RgbBodySplit | lib/color.ts:39 | `r,g,b` splits into the three decimal numerals |
| ColorProperties.RgbGroup | lib/color.ts:36-37 | the group matched in `rgb(r,g,b)` is `r,g,b` |
| ColorProperties.ParseFieldsOf | lib/color.ts:39 | fields that all read as numbers parse to exactly those numbers |
| ColorProperties.ParseFields3 | lib/color.ts:39 | the same for three fields |
| ColorProperties.EncodeRgbTriple | lib/color.ts:48-60 | `rgb(r,g,b)` encodes to r, g, b |
| ColorProperties.RgbTripleFamily | lib/color.ts:12-13 | `rgb(r,g,b)` is of the rgb family |
| ColorProperties.DecodeRgbTriple | lib/color.ts:105-110 | three byte channels decode to `rgb(r,g,b)` against any rgb hint |
| ColorProperties.RgbRoundTrip | lib/color.ts:99-121 | `rgb(r,g,b)` with byte channels, encoded and decoded against any rgb hint, is unchanged |
| ColorProperties.RgbExample | lib/color.ts:33-42 | `rgb(10,20,30)` encodes to 10, 20, 30 |
| ColorProperties.RgbTripleExample | lib/color.ts:105-110 | the template writes 10, 20, 30 as `rgb(10,20,30)` |
| ColorProperties.RgbaAlphaAsWritten | lib/color.ts:103-107 | as written, byte channels with an alpha in [0, 1] decode against an rgb hint to `rgba(r,g,b,0)` below 0.5 and `rgba(r,g,b,1)` from 0.5 up |
| ColorProperties.RgbaAlphaExample | lib/color.ts:103-107 | 10, 20, 30 with alpha 0.4 decode to `rgba(10,20,30,0)` |
| Codec.Nums | lib/utils.ts:39-41 | a vector seen as an array of numbers, element by element |
| Codec.Encode | lib/utils.ts:14-29 | a number is a one-element vector, a string is a colour, an array is flattened, anything else is an unsupported value |
| Codec.EncodeAll | lib/utils.ts:20 | flattening an array succeeds exactly when every element encodes |
| Codec.Decode | lib/utils.ts:31-44 | a string hint gives colour text of the hint's family as the source writes it (the hex alpha rounded), and fails with a colour-format error exactly for a hint of neither family; an array hint gives the whole vector as numbers; any other hint gives the first component, or `undefined` when the vector is empty |
| CodecProperties.EncodeAllAppend | lib/utils.ts:20 | flattening distributes over concatenation, and the first error wins |
| CodecProperties.EncodeNums | lib/utils.ts:19-20 | an array of numbers flattens to exactly those numbers |
| CodecProperties.NumberRoundTrip | lib/utils.ts:14-44 | a number encodes to `[n]`, which any number hint decodes back to n |
| CodecProperties.NumberArrayRoundTrip | lib/utils.ts:14-44 | a flat array of numbers comes back unchanged against an array hint |
| CodecProperties.HexColorRoundTrip | lib/utils.ts:14-44 | a six-digit hex colour comes back as the same colour, in lower case |
| CodecProperties.HexAlphaValueAsWritten | lib/utils.ts:35-37 | the value reported for the vector of `#11223344` against a hex hint is `#11223300` |
| CodecProperties.DecodeEncodable | lib/utils.ts:31-44 | decoding fails exactly for a string hint of no colour family, so any value that encodes can be the hint |
| CodecProperties.EncodeAllSingle | lib/utils.ts:20 | a one-element array flattens to its element's encoding |
| CodecProperties.FlattenOrder | lib/utils.ts:19-20 | nested arrays and colours flatten in order |
| Bezier.Preset | lib/bezier.ts:16-22 | each of the five preset names maps to its own control points (ease 0.25, 0.1, 0.25, 1; liner 0, 0, 1, 1; easeIn 0.42, 0, 1, 1; easeOut 0, 0, 0.58, 1; easeInOut 0.42, 0, 0.58, 1), and any other name has none |
| Bezier.ResolveEaseAsWritten | lib/bezier.ts:24-39 | as written, the lookup fails with a TypeError exactly for a name that is an inherited object key, and otherwise picks the intended curve |
| Bezier.ResolveEase | lib/bezier.ts:29-37 | a preset name picks its curve; anything else gets the "ease" curve |
| Bezier.DurationOf | lib/bezier.ts:29 | the duration defaults to 3 seconds |
| Bezier.Progress | lib/bezier.ts:46 | progress is at most 1, non-negative for non-negative times, and elapsed / (duration * 1000) below 1 |
| Bezier.Interpolate | lib/bezier.ts:48-51 | each component is `from + (to - from) * e`, with as many components as the start vector |
| Bezier.TweenGet | lib/bezier.ts:42-59 | the frame is final exactly when progress reaches 1, and is then the end vector; otherwise it is the interpolation at the eased progress |
| BezierProperties.DoneExactlyAfterDuration | lib/bezier.ts:46-57 | for a positive duration the frame is final exactly from duration * 1000 ms on, and is then the end vector |
| BezierProperties.DoneStaysDone | lib/bezier.ts:46-57 | once final, every later frame is the final end vector |
| BezierProperties.StartsAtFrom | lib/bezier.ts:42-59 | with an easing that maps 0 to 0, the frame at 0 ms is the start vector and is not final |
| BezierProperties.MixBetween | lib/bezier.ts:50 | a component at a fraction in [0, 1] lies between its endpoints, in either order |
| BezierProperties.MixUp | lib/bezier.ts:50 | the same for an increasing pair |
| BezierProperties.ScaleDown | lib/bezier.ts:50 | a non-negative amount scaled by a fraction in [0, 1] stays in [0, amount] |
| BezierProperties.StaysBetweenEndpoints | lib/bezier.ts:42-59 | while the easing stays in [0, 1], every component of every frame lies between its start and its end |
| BezierProperties.ResolveEaseDiffersOnlyOnPrototypeKeys | lib/bezier.ts:24-39 | as written, the curve lookup agrees with the intended one except for an inherited object key, which fails |
| BezierProperties.ToStringEase | lib/bezier.ts:24-39 | `ease: 'toString'` fails as written, and uses the default curve as intended |
| BezierProperties.PointsFallBackToDefault | lib/bezier.ts:24-37 | an array of control points is not consulted, and the default curve is used |
| Spring.ParamsOf | lib/spring.ts:33 | stiffness, damping and mass default to 100, 10 and 1 |
| Spring.Abs | lib/spring.ts:42 | `Math.abs` is non-negative and is x or -x |
| Spring.Max | lib/spring.ts:24 | `Math.max` is at least both arguments and is one of them |
| Spring.PrevT | lib/spring.ts:24 | the earlier sample is at least 0 and at least t - 5, and before t when t > 0 |
| Spring.Velocity | lib/spring.ts:19-26 | corrected, the velocity times the sample window is 1000 times the change over it, and is 0 for an empty window |
| Spring.VelocityAsWritten | lib/spring.ts:19-26 | as written, from 5 ms on the change over the last 5 ms is scaled by `1000 / t - (t - 5)`; before 5 ms, negative times included, the change since time 0 is scaled by `1000 / t`; no change gives 0 |
| Spring.Oscillator.RestSpeed | lib/spring.ts:40-43 | the rest speed is 2 units/s, or 0.01 exactly when the distance to travel is under 5 |
| Spring.Oscillator.RestDelta | lib/spring.ts:40-44 | the rest distance is 0.5, or 0.005 exactly when the distance to travel is under 5 |
| Spring.CappedFreq | lib/spring.ts:73 | `Math.min(dampedAngularFreq * t, 300)`: at most 300 and at most the product, and one of the two |
| Spring.Resolve | lib/spring.ts:46-86 | the closed-form position in the under-damped, critically damped and over-damped regimes; stated by SpringProperties.StartsAtFrom, AtRestStays and OverdampedBeyondCap |
| Spring.Position | lib/spring.ts:96 | the function `resolveSpring` handed to the velocity estimate, equal to it at every time |
| Spring.SettleVelocity | lib/spring.ts:93-99 | 0 for a spring that does not oscillate; for an under-damped one, the as-written estimate, stated by SpringProperties.SettleVelocityUnderdamped and SettleVelocityEarly |
| Spring.Settled | lib/spring.ts:93-105 | settled: a non-zero time, a speed within the rest speed and a distance within the rest distance; stated through Spring.Next |
| Spring.SettleVelocityIntended | lib/spring.ts:93-99 | corrected, the same with the intended velocity estimate, still 0 for a spring that does not oscillate |
| Spring.NextIntended | lib/spring.ts:88-111 | corrected, a step is final exactly when the intended velocity and the distance are within their rest bounds at a non-zero time; a final step is the end, otherwise the position |
| Spring.Next | lib/spring.ts:88-111 | as written, the step is final exactly when settled with the as-written velocity estimate, never at time 0; a final step is the end, within the rest distance of the position, otherwise the closed-form position |
| Spring.SpringGet | lib/spring.ts:114-132 | one step per start component against the end component at the same index; the frame is final when every component has settled |
| SpringProperties.StartsAtFrom | lib/spring.ts:46-86 | at time 0 every damping regime gives the start value |
| SpringProperties.AtRestStays | lib/spring.ts:46-86 | a component whose start is its end stays there at every time, in every regime |
| SpringProperties.AtRestSettlesAtOnce | lib/spring.ts:88-111 | such a component is settled at the end at every time except 0 |
| SpringProperties.SnapIsSmall | lib/spring.ts:101-108 | snapping to the end moves the value by at most the rest distance, which is at most 0.5 |
| SpringProperties.OverdampedBeyondCap | lib/spring.ts:69-83 | once the over-damped phase reaches 300 rad, the distance to the end is the decaying envelope times a fixed bracket: the `Math.min` cap freezes the hyperbolic terms |
| SpringProperties.NonOscillatingSettlesAlike | lib/spring.ts:88-111 | for a spring that does not oscillate, the as-written and the corrected settling tests agree at every time |
| SpringProperties.SettlesLaterAsWritten | lib/spring.ts:19-26 | an under-damped spring whose estimated speed over the last 5 ms is within the rest speed by the intended estimate but not by the written one is settled at 1000 ms as intended and not as written |
| SpringProperties.FinalFrameIsTarget | lib/spring.ts:114-132 | a final frame is exactly the end vector |
| SpringProperties.FirstFrame | lib/spring.ts:114-132 | the frame at 0 is the start vector, and is final only for an empty vector |
| SpringProperties.RootOfPositive | lib/spring.ts:36-38 | the square root of a positive number is positive |
| SpringProperties.PhysicalRatios | lib/spring.ts:36-38 | positive stiffness and mass with non-negative damping give a positive root, a non-negative damping ratio and a positive undamped frequency |
| SpringProperties.PhysicalIsWellPosed | lib/spring.ts:36-83 | such parameters never divide by zero in any regime |
| SpringProperties.RegimeFrequencies | lib/spring.ts:52-71 | the under-damped and over-damped frequencies are positive in their regimes |
| SpringProperties.DefaultsUnderdamped | lib/spring.ts:33-38 | the default parameters give damping ratio 0.5 and 0.01 rad/ms, an under-damped spring that can be sampled |
| SpringProperties.VelocityAfterWindow | lib/spring.ts:24-25 | from 5 ms on, the intended estimate is the change over the last 5 ms times 200; the estimate as written uses `1000 / t - (t - 5)` instead |
| SpringProperties.VelocityAgreesBeforeWindow | lib/spring.ts:24-25 | before 5 ms the estimate as written equals the intended one, so the two differ only from 5 ms on |
| SpringProperties.SettleVelocityUnderdamped | lib/spring.ts:93-99 | from 5 ms on, an under-damped spring's settling speed is the change of position over the last 5 ms times `1000 / t - (t - 5)` |
| SpringProperties.SettleVelocityEarly | lib/spring.ts:93-99 | before 5 ms, negative times included, it is the change since time 0 times `1000 / t` |
| SpringProperties.VelocityExample | lib/spring.ts:25 | a change of 1 over the 5 ms before t = 10 is 200 units/s as intended and 95 as written |
| AnimateSpec.GeneratorOf | lib/animate.ts:85-98 | type "tween" builds a tween of the resolved duration and curve, or fails with a TypeError for an inherited-key ease name; "spring" builds a spring of the resolved parameters; any other type is unsupported |
| AnimateSpec.Setup | lib/animate.ts:43-98 | the checks in source order: different typeof, then the encoding errors of from and then to, then an unsupported type or the TypeError of an inherited-key ease name; an accepted setting keeps the values, the defaults and the generator, and satisfies the setting invariant |
| AnimateSpec.GeneratorNext | lib/animate.ts:120 | a frame is the tween's or the spring's frame on the current endpoints |
| AnimateSpec.Shown | lib/animate.ts:122-125 | the value passed to `onUpdate` is the decoding of the frame against `to`, which always succeeds |
| AnimateSpec.StateValid | lib/animate.ts:54-83 | the controller invariant: the endpoints are the encoded values, or swapped when looping; an idle clock is fully reset; a running clock has a frame requested and a promise; no delay means no delayed time |
| AnimateSpec.Reset | lib/animate.ts:146-153 | internalReset idles the clock and makes one new promise, and changes nothing else |
| AnimateSpec.Start | lib/animate.ts:160-164 | the clock starts now and a frame is requested; nothing else changes |
| AnimateSpec.Fire | lib/animate.ts:122-125 | a callback is logged exactly when it was supplied; nothing else changes |
| AnimateSpec.Complete | lib/animate.ts:166-169 | the clock idles, one new promise, `onComplete` logged when supplied; endpoints and frame request unchanged |
| AnimateSpec.Repeat | lib/animate.ts:171-188 | without loop nothing changes; with loop the endpoints swap, the clock starts now, in a delay when `loopDelay` is non-zero, a frame is requested and one new promise is made |
| AnimateSpec.Stop | lib/animate.ts:190-194 | the endpoints return to the encoded values, the clock idles, one new promise, `onStop` logged when supplied |
| AnimateSpec.Cancel | lib/animate.ts:196-200 | the same, but `onUpdate` reports the start value as given |
| AnimateSpec.Resumed | lib/animate.ts:203-208 | resuming shifts the start so that the paused elapsed time is kept, and shifts a delay so that the time already waited is kept |
| AnimateSpec.Play | lib/animate.ts:202-214 | afterwards the clock is running and not paused, and the endpoints are unchanged |
| AnimateSpec.Pause | lib/animate.ts:216-220 | a running clock records the elapsed time shown as paused; only the pause changes |
| AnimateSpec.AdvanceClock | lib/animate.ts:105-116 | paused, the elapsed time is the paused one; running, it is `Math.round(timestamp - startTime)`; in a delay it does not move |
| AnimateSpec.Report | lib/animate.ts:114-125 | the frame request is consumed, the clock is the advanced one, and `onUpdate` is logged with the decoded value when supplied |
| AnimateSpec.AfterFrame | lib/animate.ts:127-132 | a frame that is not final requests the next; a final one idles the clock exactly when there is no loop, and with loop swaps the endpoints and requests a frame |
| AnimateSpec.Tick | lib/animate.ts:100-133 | with an idle clock only the frame request is consumed; a running frame ends with another frame requested or an idle clock |
| AnimateSpec.Then | lib/animate.ts:226-229 | `then` has a promise exactly once one was created, and it is the latest |
| AnimateSpec.InitialValid | lib/animate.ts:54-83 | the state built by the factory satisfies the invariant and has no promise yet |
| AnimateSpec.PlayKeepsValid | lib/animate.ts:202-214 | play keeps the invariant |
| AnimateSpec.PauseKeepsValid | lib/animate.ts:216-220 | pause keeps the invariant |
| AnimateSpec.StopKeepsValid | lib/animate.ts:190-194 | stop keeps the invariant and leaves the clock idle |
| AnimateSpec.CancelKeepsValid | lib/animate.ts:196-200 | cancel keeps the invariant and leaves the clock idle |
| AnimateSpec.RepeatKeepsValid | lib/animate.ts:171-188 | the loop swap keeps the endpoints in one of the two orientations |
| AnimateSpec.AdvanceKeepsClock | lib/animate.ts:105-116 | the clock update keeps a running clock running, and records delayed time only during a delay |
| AnimateSpec.ReportKeepsValid | lib/animate.ts:127-132 | both ends of a frame, another frame or complete and repeat, keep the invariant |
| AnimateSpec.TickKeepsValid | lib/animate.ts:100-133 | tick keeps the invariant |
| Animate.Animation.constructor | lib/animate.ts:54-83 | the fields start as `animate` declares them, which satisfies the invariant |
| Animate.Animation.UpdateCompletedPromise | lib/animate.ts:135-140 | one new promise, nothing else changed |
| Animate.Animation.InternalReset | lib/animate.ts:146-153 | the fields move as `AnimateSpec.Reset` says |
| Animate.Animation.InternalResetRefValues | lib/animate.ts:155-158 | both endpoints return to the encoded values |
| Animate.Animation.Start | lib/animate.ts:160-164 | the clock starts now and exactly one frame is requested |
| Animate.Animation.Fire | lib/animate.ts:122-125 | a callback is logged exactly when it was supplied |
| Animate.Animation.Complete | lib/animate.ts:166-169 | reset, then `onComplete` |
| Animate.Animation.Repeat | lib/animate.ts:171-188 | without loop nothing changes; with loop the endpoints swap, the clock resets, a delay starts when `loopDelay` is non-zero, and the clock starts |
| Animate.Animation.Stop | lib/animate.ts:190-194 | the fields move as `AnimateSpec.Stop` says, and the invariant holds |
| Animate.Animation.Cancel | lib/animate.ts:196-200 | the fields move as `AnimateSpec.Cancel` says, and the invariant holds |
| Animate.Animation.Play | lib/animate.ts:202-214 | the fields move as `AnimateSpec.Play` says, and the invariant holds |
| Animate.Animation.Pause | lib/animate.ts:216-220 | the fields move as `AnimateSpec.Pause` says, and the invariant holds |
| Animate.Animation.Tick | lib/animate.ts:100-133 | a requested frame moves the fields as `AnimateSpec.Tick` says, and the invariant holds |
| Animate.Animation.AdvanceClock | lib/animate.ts:105-116 | the clock moves as `AnimateSpec.AdvanceClock` says, and nothing else changes |
| Animate.Animation.AfterFrame | lib/animate.ts:127-132 | another frame is requested, or the run completes and repeats |
| Animate.Animation.Then | lib/animate.ts:226-229 | the current promise, present exactly once one was created |
| Animate.Animate | lib/animate.ts:38-236 | the factory fails exactly as `AnimateSpec.Setup` does; otherwise it returns fresh controls that satisfy the invariant, already playing when `autoplay` holds |
| AnimateProperties.SetupDefaults | lib/animate.ts:60-70 | without options two numbers tween for 3 seconds on the "ease" curve, without a loop, with autoplay |
| AnimateProperties.UnknownTypeRefused | lib/animate.ts:89-97 | an unknown `type` is refused once the values are accepted |
| AnimateProperties.PlayFromIdle | lib/animate.ts:209-213 | play from idle makes a new promise, starts the clock now at elapsed 0, requests a frame and fires `onPlay` |
| AnimateProperties.PlayWhileRunningIsNoOp | lib/animate.ts:202-214 | play while running changes nothing |
| AnimateProperties.PausedIgnoresTimestamp | lib/animate.ts:105-106 | while paused, a frame shows the paused elapsed time, and two frames at different times do the same |
| AnimateProperties.ResumeContinues | lib/animate.ts:203-205 | a pause and a play x ms later continue from the elapsed time shown at the pause, plus Round(x) |
| AnimateProperties.ResumeContinuesDelay | lib/animate.ts:206-208 | a pause during a loop delay resumes the delay from the time already waited |
| AnimateProperties.DelayWaits | lib/animate.ts:107-113 | during a loop delay the clock does not advance until `loopDelay` seconds have passed |
| AnimateProperties.DelayThenRestarts | lib/animate.ts:109-115 | the frame that ends a delay restarts the clock, and a frame y ms later shows Round(y) |
| AnimateProperties.StopRestores | lib/animate.ts:190-194 | stop restores the encoded endpoints and an idle clock, makes a new promise and fires `onStop`; the frame still pending then does nothing |
| AnimateProperties.CancelRestores | lib/animate.ts:196-200 | cancel does the same, and reports the start value as given |
| AnimateProperties.StopThenPlayStartsOver | lib/animate.ts:190-214 | after stop, play starts over from the start value, whatever the loop had swapped |
| AnimateProperties.CompletionWithoutLoop | lib/animate.ts:129-131 | without loop, the final frame idles the clock, resolves the promise and fires `onComplete` |
| AnimateProperties.CompletionWithLoop | lib/animate.ts:166-188 | with loop, the final frame swaps the endpoints, starts the clock at once (in a delay when `loopDelay` is non-zero) and replaces the promise twice |
| AnimateProperties.LoopSwapsTwice | lib/animate.ts:176-179 | two completions in a loop bring the endpoints back |
| AnimateProperties.NotDoneContinues | lib/animate.ts:127-128 | a frame that is not final only requests the next frame |
| AnimateProperties.RunningTick | lib/animate.ts:114-132 | a running frame samples the generator at the rounded time since the start, reports it, and then ends the frame |
| AnimateProperties.TweenFinishesOnTime | lib/animate.ts:114-132 | a tween completes on a frame half a millisecond or more past its duration |
| AnimateProperties.TweenRunsUntilDuration | lib/animate.ts:114-128 | a tween frame more than half a millisecond before its duration is not final, and only advances the clock and requests the next frame |
| AnimateProperties.PromisesOnlyAdvance | lib/animate.ts:146-220 | no operation returns to an older promise, and stop and cancel always resolve the current one |
| AnimateProperties.TickPromise | lib/animate.ts:100-133 | a frame never returns to an older promise |
| AnimateProperties.AfterFrameGeneration | lib/animate.ts:127-132 | a frame replaces the promise exactly when the run completes: once, or twice with loop |

## Left out

- Rendering, `requestAnimationFrame` and `cancelAnimationFrame` are a `scheduled` flag, and the frame handle itself is not kept. `Animate.Animation.Tick` requires a requested frame, because the browser calls it for no other.
- `performance.now()` is a parameter read once per operation. `repeat` reads the clock twice (`lib/animate.ts:162`, `lib/animate.ts:184`), and so does `play` after a pause (`lib/animate.ts:204`, `lib/animate.ts:207`); the model gives both readings the same value.
- The promise is a generation counter. What `then` callbacks run, their rejection, and microtask timing are not modelled.
- Callbacks are an event log. User code run inside a callback, including re-entrant calls to the controls, is not modelled.
- Floating point: numbers are unbounded reals, so rounding error is not modelled. NaN and Infinity are not modelled either. Inputs whose JavaScript result would be NaN or Infinity are refused with `UnmodelledInput`: a tween duration of 0, a spring that takes the square root of a negative number (stiffness * mass not positive, or a damping ratio of -1 or less) or divides by zero, a start vector longer than the end vector, vectors of different lengths with loop, and an rgb field that does not read as a number. A hex channel that reads as NaN is a colour-format error, as in the source.
- Bezier.TweenGet: requires a non-zero duration, because with a duration of 0 JavaScript computes `0 / 0`, NaN, at elapsed time 0 (and at a negative time an easing of minus infinity); at a positive time it gives progress 1 and the end vector, which the model does not capture. It also requires an end vector at least as long as the start, because JavaScript gives NaN components otherwise.
- Spring.SpringGet: requires well-posed parameters (no square root of a negative number, no division by zero) and an end vector at least as long as the start, because JavaScript gives NaN components otherwise.
- The bezier-easing solver and `Math.exp`, `sin`, `cos`, `sinh`, `cosh`, `sqrt` are function parameters. Properties that need their values state them as hypotheses: easing(0) = 0, the values at 0, and that sqrt is a square root.
- `Number(text)` is modelled for decimal numerals only: trimmed, optionally signed, digits with an optional fraction, and blank text is 0. Other numerals (`0x10`, which JavaScript reads as 16, `1e2` as 100, `Infinity`) make an rgb colour fail with `UnmodelledInput`, although JavaScript reads them as numbers.
- Color.Decode: an `rgba(...)` alpha is written as the source writes it, rounded to 0 or 1 like a colour channel, and not as the fraction the design intends; writing a fraction needs JavaScript's number-to-text conversion, which is not modelled. ColorProperties.RgbaAlphaAsWritten states what is written.
- Only development mode is modelled: every check that throws there is an error of the `Result`. In production mode some of these return `[]` or NaN; that is not modelled.
- Text length and `slice` count UTF-16 code units in JavaScript (`lib/color.ts:16-28`), but a Dafny string counts Unicode scalar values. Hex text holding a character outside the Basic Multilingual Plane is therefore measured differently: `#112233` followed by one emoji has length 9 in JavaScript, whose alpha slice is the surrogate pair, NaN, and an error; the model sees length 8 and encodes three channels.
- `typeof` is modelled for the kinds of value the library handles. Objects, functions, symbols and big integers are one `Obj` kind.
- Truthiness of non-boolean options is not modelled. `loop` and `autoplay` are booleans, and `loopDelay` counts as set when it is non-zero.
- `lib/index.ts` re-exports and the demo in `src/main.js` are not part of this model.

## Findings

The controller follows the code as written: `AnimateSpec` and `Animate` use the as-written members. Each corrected member is proved beside its as-written one.

| source | as written | input that shows it | evidently intended | confidence | as-written member | corrected member |
|---|---|---|---|---|---|---|
| lib/color.ts:92-103 | the alpha component goes through `clamp(Math.round(v), 0, 255)` like a colour channel before rgbaToHexA scales it by 255, so an alpha fraction becomes 0 or 1; with that rounding alone corrected, rgbaToHexA would still double a single digit, writing an alpha byte of 10 as `aa` (170); the controller reports the value as written, and `rgba(...)` text gets the same rounded alpha (ColorProperties.RgbaAlphaExample), which the corrected decoder keeps because writing a fraction is not modelled | `#11223344` decoded against a hex hint gives `#11223300`; an alpha byte of 10 written as `aa` | the alpha fraction in [0, 1] is scaled to a byte and written as two zero-padded digits (10 as `0a`), so `#11223344` comes back unchanged; the corrected writer also clamps an alpha outside [0, 1] before scaling | not executed | Color.DecodeAsWritten, ColorProperties.HexAlphaDecodeAsWrittenExample, CodecProperties.HexAlphaValueAsWritten, Color.AlphaDigitsAsWritten, ColorProperties.AlphaDoublingExample | Color.Decode, Color.RgbaToHexA, ColorProperties.HexRoundTrip8, ColorProperties.AlphaDoublingAgrees |
| lib/bezier.ts:25 | `ease in defaultEaseMap` also holds for keys inherited from `Object.prototype`; their values cannot be destructured into four numbers, which throws a TypeError | `ease: 'toString'` | an unknown name falls back to the "ease" curve | not executed | Bezier.ResolveEaseAsWritten, BezierProperties.ToStringEase, AnimateSpec.Setup | Bezier.ResolveEase, BezierProperties.ResolveEaseDiffersOnlyOnPrototypeKeys |
| lib/spring.ts:25 | the change between the two samples is multiplied by `1000 / t - prevT`: 1000 is divided by the elapsed time instead of by the sample window, and the earlier sample time is then subtracted | t = 10 ms, a change of 1 over the window: 95 instead of 200 units/s | the change over the window in units per second, `(current - previous) * (1000 / (t - prevT))` | not executed | Spring.VelocityAsWritten, Spring.Next, SpringProperties.VelocityExample, SpringProperties.SettlesLaterAsWritten | Spring.Velocity, Spring.NextIntended, SpringProperties.VelocityAfterWindow |
