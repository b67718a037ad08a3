/** lib/spring.ts: the spring generator. Every component is an independent damped
    harmonic oscillator released at rest from its start and pulled towards its
    end; its closed-form position is sampled at each elapsed time, and it is
    settled once both its speed and its distance to the end fall under
    thresholds chosen from the size of the move. The transcendental functions
    come in as a `Maths` record. */
module Spring {
  import opened Results
  import opened Interface
  import Numbers

  /** `Math.exp`, `Math.sin`, `Math.cos`, `Math.sinh`, `Math.cosh`, `Math.sqrt`. */
  datatype Maths = Maths(
    exp: real -> real, sin: real -> real, cos: real -> real,
    sinh: real -> real, cosh: real -> real, sqrt: real -> real)

  /** The options of a spring; an absent one takes its default. */
  datatype SpringOptions = SpringOptions(stiffness: Option<real>, damping: Option<real>, mass: Option<real>)

  datatype Params = Params(stiffness: real, damping: real, mass: real)

  /** `const { stiffness = 100, damping = 10, mass = 1 } = options`. */
  function ParamsOf(o: SpringOptions): (p: Params)
    ensures p.stiffness == (if o.stiffness.Some? then o.stiffness.value else 100.0)
    ensures p.damping == (if o.damping.Some? then o.damping.value else 10.0)
    ensures p.mass == (if o.mass.Some? then o.mass.value else 1.0)
  {
    Params(if o.stiffness.Some? then o.stiffness.value else 100.0,
           if o.damping.Some? then o.damping.value else 10.0,
           if o.mass.Some? then o.mass.value else 1.0)
  }

  /** `Math.abs`. */
  function Abs(x: real): (r: real)
    ensures r >= 0.0 && (r == x || r == -x)
  {
    if x < 0.0 then -x else x
  }

  /** `Math.max`. */
  function Max(a: real, b: real): (r: real)
    ensures r >= a && r >= b && (r == a || r == b)
  {
    if a < b then b else a
  }

  /** Milliseconds between the two samples of the velocity estimate. */
  const VelocitySampleDuration := 5.0

  /** The earlier sample time: 5 ms back, but not before the start. */
  function PrevT(t: real): (p: real)
    ensures p >= 0.0 && p >= t - VelocitySampleDuration
    ensures t > 0.0 ==> p < t
  {
    Max(t - VelocitySampleDuration, 0.0)
  }

  /** calcGeneratorVelocity as written: the difference of the two samples is
      multiplied by `1000 / t - prevT`, which divides by the elapsed time instead
      of the sample window and then subtracts the earlier sample time. */
  function VelocityAsWritten(resolve: real -> real, t: real, current: real): (v: real)
    requires t != 0.0
    ensures t >= VelocitySampleDuration ==> v == (current - resolve(t - 5.0)) * (1000.0 / t - (t - 5.0))
    ensures t < VelocitySampleDuration ==> v == (current - resolve(0.0)) * (1000.0 / t)
    ensures current == resolve(PrevT(t)) ==> v == 0.0
  {
    var prevT := PrevT(t);
    var change := current - resolve(prevT);
    assert change == 0.0 ==> change * (1000.0 / t - prevT) == 0.0;
    if t - prevT != 0.0 then change * (1000.0 / t - prevT) else 0.0
  }

  /** calcGeneratorVelocity as evidently intended: the difference of the two
      samples over the sample window, in units per second. */
  function Velocity(resolve: real -> real, t: real, current: real): (v: real)
    ensures t - PrevT(t) != 0.0 ==> v * (t - PrevT(t)) == 1000.0 * (current - resolve(PrevT(t)))
    ensures t - PrevT(t) == 0.0 ==> v == 0.0
  {
    var prevT := PrevT(t);
    var window := t - prevT;
    if window != 0.0 then
      var v := (current - resolve(prevT)) * (1000.0 / window);
      assert v * window == 1000.0 * (current - resolve(prevT)) by {
        assert (1000.0 / window) * window == 1000.0;
      }
      v
    else 0.0
  }

  /** `Math.sqrt(stiffness * mass)`. */
  function RootStiffnessMass(p: Params, m: Maths): real {
    m.sqrt(p.stiffness * p.mass)
  }

  /** `damping / (2 * Math.sqrt(stiffness * mass))`. */
  function DampingRatio(p: Params, m: Maths): real
    requires RootStiffnessMass(p, m) != 0.0
  {
    p.damping / (2.0 * RootStiffnessMass(p, m))
  }

  /** `millisecondsToSeconds(Math.sqrt(stiffness / mass))`: radians per
      millisecond. */
  function UndampedAngularFreq(p: Params, m: Maths): real
    requires p.mass != 0.0
  {
    Numbers.MillisecondsToSeconds(m.sqrt(p.stiffness / p.mass))
  }

  /** The under-damped frequency `undampedAngularFreq * Math.sqrt(1 - ζ²)`. */
  function AngularFreq(p: Params, m: Maths): real
    requires p.mass != 0.0 && RootStiffnessMass(p, m) != 0.0
  {
    var zeta := DampingRatio(p, m);
    UndampedAngularFreq(p, m) * m.sqrt(1.0 - zeta * zeta)
  }

  /** The over-damped frequency `undampedAngularFreq * Math.sqrt(ζ² - 1)`. */
  function DampedAngularFreq(p: Params, m: Maths): real
    requires p.mass != 0.0 && RootStiffnessMass(p, m) != 0.0
  {
    var zeta := DampingRatio(p, m);
    UndampedAngularFreq(p, m) * m.sqrt(zeta * zeta - 1.0)
  }

  /** Every square root the closed form takes is of a number that is not
      negative, and every divisor is non-zero: the mass, the root of
      stiffness * mass, and the frequency of the regime in force. JavaScript
      turns a negative root into NaN and each of these zeros into NaN or
      Infinity. stiffness * mass > 0 also makes stiffness / mass positive, and
      -1 < ζ keeps 1 - ζ² positive in the under-damped regime. */
  predicate WellPosed(p: Params, m: Maths) {
    p.mass != 0.0 && p.stiffness * p.mass > 0.0 && RootStiffnessMass(p, m) != 0.0
    && (DampingRatio(p, m) < 1.0 ==> -1.0 < DampingRatio(p, m) && AngularFreq(p, m) != 0.0)
    && (DampingRatio(p, m) > 1.0 ==> DampedAngularFreq(p, m) != 0.0)
  }

  /** The state springSingleValue closes over for one component. */
  datatype Oscillator = Oscillator(from: real, to: real, p: Params, m: Maths)
  {
    /** `to - from`. */
    function Delta(): real { to - from }

    /** `Math.abs(initialDelta) < 5`: a move of a few units settles on finer
        thresholds. */
    predicate IsGranularScale() { Abs(Delta()) < 5.0 }

    /** The speed under which the component may settle: 0.01 for a move of
        under 5 units, 2 otherwise. */
    function RestSpeed(): (r: real)
      ensures r == 0.01 || r == 2.0
      ensures r < 2.0 <==> Abs(to - from) < 5.0
    {
      if IsGranularScale() then 0.01 else 2.0
    }

    /** The distance to the end under which the component may settle: 0.005 for
        a move of under 5 units, 0.5 otherwise. */
    function RestDelta(): (r: real)
      ensures r == 0.005 || r == 0.5
      ensures r < 0.5 <==> Abs(to - from) < 5.0
    {
      if IsGranularScale() then 0.005 else 0.5
    }
  }

  /** `Math.min(dampedAngularFreq * elapsed, 300)`: the argument of the
      hyperbolic functions, which stops growing at 300. */
  function CappedFreq(w: real, elapsed: real): (f: real)
    ensures f <= 300.0 && f <= w * elapsed
    ensures f == w * elapsed || f == 300.0
  {
    if w * elapsed < 300.0 then w * elapsed else 300.0
  }

  /** resolveSpring: the closed-form position at `elapsed` milliseconds of an
      oscillator released at rest from `from`, for the under-damped, critically
      damped and over-damped regimes; in the last the hyperbolic argument is
      capped at 300. */
  function Resolve(o: Oscillator, elapsed: real): real
    requires WellPosed(o.p, o.m)
  {
    var m := o.m;
    var zeta := DampingRatio(o.p, m);
    var w0 := UndampedAngularFreq(o.p, m);
    var delta := o.Delta();
    var v0 := 0.0;
    var envelope := m.exp(-zeta * w0 * elapsed);
    if zeta < 1.0 then
      var angularFreq := AngularFreq(o.p, m);
      o.to - envelope * (((v0 + zeta * w0 * delta) / angularFreq) * m.sin(angularFreq * elapsed)
                         + delta * m.cos(angularFreq * elapsed))
    else if zeta == 1.0 then
      o.to - m.exp(-w0 * elapsed) * (delta + (v0 + w0 * delta) * elapsed)
    else
      var dampedAngularFreq := DampedAngularFreq(o.p, m);
      var freqForT := CappedFreq(dampedAngularFreq, elapsed);
      o.to - (envelope * ((v0 + zeta * w0 * delta) * m.sinh(freqForT)
                          + dampedAngularFreq * delta * m.cosh(freqForT))) / dampedAngularFreq
  }

  /** resolveSpring as a function value, the form the velocity estimate takes it
      in. */
  function Position(o: Oscillator): (f: real -> real)
    requires WellPosed(o.p, o.m)
    ensures forall t :: f(t) == Resolve(o, t)
  {
    t requires WellPosed(o.p, o.m) => Resolve(o, t)
  }

  /** The velocity the settling test uses, as written: estimated from two
      samples when under-damped, taken as 0 otherwise. `next` computes it only
      for a non-zero elapsed time. */
  function SettleVelocity(o: Oscillator, elapsed: real): (v: real)
    requires WellPosed(o.p, o.m) && elapsed != 0.0
    ensures DampingRatio(o.p, o.m) >= 1.0 ==> v == 0.0
  {
    if DampingRatio(o.p, o.m) < 1.0 then
      VelocityAsWritten(Position(o), elapsed, Resolve(o, elapsed))
    else 0.0
  }

  /** The settling test of `next`: after time 0, both the speed and the distance
      to the end under their thresholds. */
  predicate Settled(o: Oscillator, elapsed: real)
    requires WellPosed(o.p, o.m)
  {
    elapsed != 0.0
    && Abs(SettleVelocity(o, elapsed)) <= o.RestSpeed()
    && Abs(o.to - Resolve(o, elapsed)) <= o.RestDelta()
  }

  /** `next` of springSingleValue: never settled at time 0; once settled the value
      snaps to the end, otherwise it is the closed-form position. */
  function Next(o: Oscillator, elapsed: real): (s: Step)
    requires WellPosed(o.p, o.m)
    ensures s.done <==> Settled(o, elapsed)
    ensures elapsed == 0.0 ==> !s.done
    ensures s.done ==> s.value == o.to && Abs(o.to - Resolve(o, elapsed)) <= o.RestDelta()
    ensures !s.done ==> s.value == Resolve(o, elapsed)
  {
    var current := Resolve(o, elapsed);
    var done := Settled(o, elapsed);
    Step(if done then o.to else current, done)
  }

  /** The velocity of the settling test as evidently intended: the corrected
      estimate. */
  function SettleVelocityIntended(o: Oscillator, elapsed: real): (v: real)
    requires WellPosed(o.p, o.m)
    ensures DampingRatio(o.p, o.m) >= 1.0 ==> v == 0.0
  {
    if DampingRatio(o.p, o.m) < 1.0 then
      Velocity(Position(o), elapsed, Resolve(o, elapsed))
    else 0.0
  }

  /** `next` as evidently intended: the same test on the corrected velocity. */
  function NextIntended(o: Oscillator, elapsed: real): (s: Step)
    requires WellPosed(o.p, o.m)
    ensures s.done <==> elapsed != 0.0 && Abs(SettleVelocityIntended(o, elapsed)) <= o.RestSpeed()
                        && Abs(o.to - Resolve(o, elapsed)) <= o.RestDelta()
    ensures s.done ==> s.value == o.to
    ensures !s.done ==> s.value == Resolve(o, elapsed)
  {
    var current := Resolve(o, elapsed);
    var done := elapsed != 0.0 && Abs(SettleVelocityIntended(o, elapsed)) <= o.RestSpeed()
                && Abs(o.to - current) <= o.RestDelta();
    Step(if done then o.to else current, done)
  }

  /** `spring`: one oscillator per component of the start vector, paired with the
      end vector's component at the same index, all sampled at the same time; the
      frame is final when every component has settled. */
  function SpringGet(from: seq<real>, to: seq<real>, p: Params, m: Maths, elapsed: real): (f: Frame)
    requires WellPosed(p, m) && |from| <= |to|
    ensures |f.value| == |from|
    ensures forall i :: 0 <= i < |from| ==> f.value[i] == Next(Oscillator(from[i], to[i], p, m), elapsed).value
    ensures f.done <==> forall i :: 0 <= i < |from| ==> Next(Oscillator(from[i], to[i], p, m), elapsed).done
  {
    var steps := seq(|from|, i requires 0 <= i < |from| => Next(Oscillator(from[i], to[i], p, m), elapsed));
    Frame(seq(|steps|, i requires 0 <= i < |steps| => steps[i].value),
          forall i :: 0 <= i < |steps| ==> steps[i].done)
  }
}
