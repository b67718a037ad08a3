/** lib/bezier.ts: the tween generator. A named preset picks the control points of
    a cubic-bezier easing curve, and each call maps elapsed milliseconds to a
    frame that moves every component from its start towards its end along the
    eased progress. The curve solver itself (the bezier-easing package) is a
    parameter: `easing` is whatever function it built for the chosen curve. */
module Bezier {
  import opened Results
  import opened Interface
  import Numbers

  /** The control points `x1, y1, x2, y2` handed to the easing factory. */
  datatype Curve = Curve(x1: real, y1: real, x2: real, y2: real)

  /** `options.ease`: a preset name, an array of control points, or absent. */
  datatype Ease = EaseName(name: string) | EasePoints(points: seq<real>) | EaseUnset

  /** The preset table `defaultEaseMap`. */
  function Preset(name: string): (c: Option<Curve>)
    ensures name == "ease" ==> c == Some(Curve(0.25, 0.1, 0.25, 1.0))
    ensures name == "liner" ==> c == Some(Curve(0.0, 0.0, 1.0, 1.0))
    ensures name == "easeIn" ==> c == Some(Curve(0.42, 0.0, 1.0, 1.0))
    ensures name == "easeOut" ==> c == Some(Curve(0.0, 0.0, 0.58, 1.0))
    ensures name == "easeInOut" ==> c == Some(Curve(0.42, 0.0, 0.58, 1.0))
    ensures c.Some? ==> c.value.x1 in {0.0, 0.25, 0.42} && c.value.y2 == 1.0
    ensures c.Some? <==> name in {"ease", "liner", "easeIn", "easeOut", "easeInOut"}
  {
    if name == "ease" then Some(Curve(0.25, 0.1, 0.25, 1.0))
    else if name == "liner" then Some(Curve(0.0, 0.0, 1.0, 1.0))
    else if name == "easeIn" then Some(Curve(0.42, 0.0, 1.0, 1.0))
    else if name == "easeOut" then Some(Curve(0.0, 0.0, 0.58, 1.0))
    else if name == "easeInOut" then Some(Curve(0.42, 0.0, 0.58, 1.0))
    else None
  }

  /** The curve used when no preset applies. */
  const DefaultCurve := Curve(0.25, 0.1, 0.25, 1.0)

  /** The keys every plain object inherits from `Object.prototype`; the `in`
      operator reports them as present in the preset table too. */
  predicate IsPrototypeKey(name: string) {
    name in {"constructor", "__defineGetter__", "__defineSetter__", "hasOwnProperty",
             "__lookupGetter__", "__lookupSetter__", "isPrototypeOf", "propertyIsEnumerable",
             "toString", "valueOf", "__proto__", "toLocaleString"}
  }

  /** The choice of curve as written: `ease in defaultEaseMap` also holds for an
      inherited key, whose value (a function, or the prototype object) cannot be
      destructured into four numbers, a TypeError. A control-point array is not a
      string and falls back to the default like an unknown name. */
  function ResolveEaseAsWritten(ease: Ease): (r: Result<Curve>)
    ensures r.Err? <==> ease.EaseName? && IsPrototypeKey(ease.name)
    ensures r.Err? ==> r.error == NotIterable
    ensures r.Ok? ==> r.value == ResolveEase(ease)
  {
    if ease.EaseName? && Preset(ease.name).Some? then Ok(Preset(ease.name).value)
    else if ease.EaseName? && IsPrototypeKey(ease.name) then Err(NotIterable)
    else Ok(DefaultCurve)
  }

  /** The choice of curve as evidently intended: a preset by its own name,
      otherwise the default "ease" curve. */
  function ResolveEase(ease: Ease): (c: Curve)
    ensures ease.EaseName? && Preset(ease.name).Some? ==> c == Preset(ease.name).value
    ensures !(ease.EaseName? && Preset(ease.name).Some?) ==> c == DefaultCurve
  {
    if ease.EaseName? && Preset(ease.name).Some? then Preset(ease.name).value
    else DefaultCurve
  }

  /** `const { duration = 3 } = options`, in seconds. */
  function DurationOf(duration: Option<real>): (d: real)
    ensures duration.None? ==> d == 3.0
    ensures duration.Some? ==> d == duration.value
  {
    if duration.Some? then duration.value else 3.0
  }

  /** `Math.min(1, elapsed / secondsToMilliseconds(duration))`: not clamped below,
      so a negative elapsed time gives negative progress. */
  function Progress(elapsed: real, duration: real): (t: real)
    requires duration != 0.0
    ensures t <= 1.0
    ensures duration > 0.0 && elapsed >= 0.0 ==> 0.0 <= t
    ensures t < 1.0 ==> t == elapsed / Numbers.SecondsToMilliseconds(duration)
  {
    var ratio := elapsed / Numbers.SecondsToMilliseconds(duration);
    if ratio < 1.0 then ratio else 1.0
  }

  /** `fromValue + (toValue - fromValue) * e`: the point at fraction `e` of the way. */
  function Lerp(a: real, b: real, e: real): real {
    a + (b - a) * e
  }

  /** Lerp for every component of the start vector, paired with the end vector's
      component at the same index. */
  function Interpolate(from: seq<real>, to: seq<real>, e: real): (v: seq<real>)
    requires |from| <= |to|
    ensures |v| == |from|
    ensures forall i :: 0 <= i < |from| ==> v[i] == Lerp(from[i], to[i], e)
  {
    seq(|from|, i requires 0 <= i < |from| => Lerp(from[i], to[i], e))
  }

  /** The frame at `elapsed` milliseconds: the interpolated vector while the
      progress is below 1, exactly the end vector once it reaches 1. A zero
      duration (progress NaN in JavaScript) is left to the caller. */
  function TweenGet(from: seq<real>, to: seq<real>, duration: real, easing: real -> real, elapsed: real): (f: Frame)
    requires duration != 0.0
    requires |from| <= |to|
    ensures f.done <==> Progress(elapsed, duration) >= 1.0
    ensures f.done ==> f.value == to
    ensures !f.done ==> f.value == Interpolate(from, to, easing(Progress(elapsed, duration)))
  {
    var t := Progress(elapsed, duration);
    var done := t >= 1.0;
    Frame(if done then to else Interpolate(from, to, easing(t)), done)
  }
}
