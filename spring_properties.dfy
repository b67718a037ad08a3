/** What the spring generator of lib/spring.ts promises: a component starts at its
    start value, a component already at its end never moves and settles at once,
    a settled component shows exactly its end, a frame is final only when every
    component is, physically meaningful options never divide by zero, and the
    defaults give an under-damped spring. Also the velocity estimate as written
    against the one evidently intended. */
module SpringProperties {
  import opened Results
  import opened Interface
  import opened Spring

  // ---------------------------------------------------------------------------
  // Laws the transcendental functions are assumed to obey where a lemma needs them

  /** The values at 0 of `Math.exp`, `Math.sin`, `Math.cos`, `Math.sinh` and
      `Math.cosh`. */
  predicate LawsAtZero(m: Maths) {
    m.exp(0.0) == 1.0 && m.sin(0.0) == 0.0 && m.cos(0.0) == 1.0
    && m.sinh(0.0) == 0.0 && m.cosh(0.0) == 1.0
  }

  /** `Math.sqrt` on non-negative arguments: the non-negative square root. */
  ghost predicate SqrtLaw(m: Maths) {
    forall x: real :: x >= 0.0 ==> m.sqrt(x) >= 0.0 && m.sqrt(x) * m.sqrt(x) == x
  }

  // ---------------------------------------------------------------------------
  // One component

  /** At time 0 every regime gives back the start value. */
  lemma StartsAtFrom(o: Oscillator)
    requires WellPosed(o.p, o.m) && LawsAtZero(o.m)
    ensures Resolve(o, 0.0) == o.from
  {
    var m := o.m;
    var zeta := DampingRatio(o.p, m);
    var w0 := UndampedAngularFreq(o.p, m);
    var delta := o.Delta();
    assert -zeta * w0 * 0.0 == 0.0;
    if zeta < 1.0 {
      var af := AngularFreq(o.p, m);
      assert af * 0.0 == 0.0;
      var k := (0.0 + zeta * w0 * delta) / af;
      assert Resolve(o, 0.0) == o.to - 1.0 * (k * 0.0 + delta * 1.0);
    } else if zeta == 1.0 {
      assert -w0 * 0.0 == 0.0;
      var k := 0.0 + w0 * delta;
      assert Resolve(o, 0.0) == o.to - 1.0 * (delta + k * 0.0);
    } else {
      var wd := DampedAngularFreq(o.p, m);
      assert wd * 0.0 == 0.0;
      var k := 0.0 + zeta * w0 * delta;
      var num := wd * delta;
      assert Resolve(o, 0.0) == o.to - (1.0 * (k * 0.0 + num * 1.0)) / wd;
      assert num / wd == delta;
    }
  }

  /** A component whose start is its end stays there at every time, in every
      regime. */
  lemma AtRestStays(o: Oscillator, t: real)
    requires WellPosed(o.p, o.m) && o.from == o.to
    ensures Resolve(o, t) == o.to
  {
    var m := o.m;
    var zeta := DampingRatio(o.p, m);
    var w0 := UndampedAngularFreq(o.p, m);
    assert o.Delta() == 0.0;
    var env := m.exp(-zeta * w0 * t);
    if zeta < 1.0 {
      var af := AngularFreq(o.p, m);
      var k := (0.0 + zeta * w0 * 0.0) / af;
      assert k == 0.0;
      assert Resolve(o, t) == o.to - env * (k * m.sin(af * t) + 0.0 * m.cos(af * t));
    } else if zeta == 1.0 {
      assert Resolve(o, t) == o.to - m.exp(-w0 * t) * (0.0 + (0.0 + w0 * 0.0) * t);
    } else {
      var wd := DampedAngularFreq(o.p, m);
      var ft := CappedFreq(wd, t);
      assert Resolve(o, t) == o.to - (env * ((0.0 + zeta * w0 * 0.0) * m.sinh(ft) + wd * 0.0 * m.cosh(ft))) / wd;
    }
  }

  /** A component whose start is its end is settled at every time but 0. */
  lemma AtRestSettlesAtOnce(o: Oscillator, elapsed: real)
    requires WellPosed(o.p, o.m) && o.from == o.to && elapsed != 0.0
    ensures Next(o, elapsed) == Step(o.to, true)
  {
    AtRestStays(o, elapsed);
    AtRestStays(o, PrevT(elapsed));
    assert Abs(o.Delta()) < 5.0;
    assert SettleVelocity(o, elapsed) == 0.0;
  }

  /** Settling moves the shown value onto the end by at most the rest distance:
      half a unit, or 0.005 for a move of under 5 units. */
  lemma SnapIsSmall(o: Oscillator, elapsed: real)
    requires WellPosed(o.p, o.m) && Next(o, elapsed).done
    ensures Abs(Next(o, elapsed).value - Resolve(o, elapsed)) <= o.RestDelta() <= 0.5
  {
    assert Abs(o.to - Resolve(o, elapsed)) <= o.RestDelta();
    assert Abs(o.to - Resolve(o, elapsed)) == Abs(Resolve(o, elapsed) - o.to);
  }

  /** The exponential envelope `Math.exp(-ζ ω0 t)` of the closed form. */
  function Envelope(o: Oscillator, t: real): real
    requires WellPosed(o.p, o.m)
  {
    o.m.exp(-DampingRatio(o.p, o.m) * UndampedAngularFreq(o.p, o.m) * t)
  }

  /** The bracket of the over-damped closed form once its hyperbolic argument is
      capped: `ζ ω0 Δ sinh 300 + ωd Δ cosh 300`. */
  function CappedBracket(o: Oscillator): real
    requires WellPosed(o.p, o.m) && DampingRatio(o.p, o.m) > 1.0
  {
    var m := o.m;
    var zeta := DampingRatio(o.p, m);
    var w0 := UndampedAngularFreq(o.p, m);
    var wd := DampedAngularFreq(o.p, m);
    (0.0 + zeta * w0 * o.Delta()) * m.sinh(300.0) + wd * o.Delta() * m.cosh(300.0)
  }

  /** The cap of 300 on the hyperbolic argument: from `t >= 300 / ωd` on, an
      over-damped component's distance to its end is the exponential envelope
      times one constant, so it changes only through the envelope. */
  lemma OverdampedBeyondCap(o: Oscillator, t: real)
    requires WellPosed(o.p, o.m) && DampingRatio(o.p, o.m) > 1.0
    requires DampedAngularFreq(o.p, o.m) * t >= 300.0
    ensures o.to - Resolve(o, t) == Envelope(o, t) * (CappedBracket(o) / DampedAngularFreq(o.p, o.m))
  {
    var wd := DampedAngularFreq(o.p, o.m);
    var zeta := DampingRatio(o.p, o.m);
    assert !(zeta < 1.0) && zeta != 1.0;
    assert CappedFreq(wd, t) == 300.0;
    assert o.to - Resolve(o, t) == (Envelope(o, t) * CappedBracket(o)) / wd;
    DivideProduct(Envelope(o, t), CappedBracket(o), wd);
  }

  /** `(e * n) / w == e * (n / w)`. */
  lemma DivideProduct(e: real, n: real, w: real)
    requires w != 0.0
    ensures (e * n) / w == e * (n / w)
  {
    var k := n / w;
    assert n == k * w;
    assert e * n == (e * k) * w;
  }

  // ---------------------------------------------------------------------------
  // The settling test, as written and as intended

  /** Over-damped and critically damped components take their velocity as 0, so
      the velocity formula does not matter to them: `next` as written and as
      intended agree. */
  lemma NonOscillatingSettlesAlike(o: Oscillator, elapsed: real)
    requires WellPosed(o.p, o.m) && DampingRatio(o.p, o.m) >= 1.0
    ensures Next(o, elapsed) == NextIntended(o, elapsed)
  {
    if elapsed != 0.0 {
      assert SettleVelocity(o, elapsed) == 0.0 == SettleVelocityIntended(o, elapsed);
    }
  }

  /** At elapsed 1000 ms an under-damped component that changed by `d` over the
      last 5 ms has speed 994 |d| as written and 200 |d| as intended, so with a
      rest speed between the two it keeps moving although the intended test has
      it settled. */
  lemma SettlesLaterAsWritten(o: Oscillator)
    requires WellPosed(o.p, o.m) && DampingRatio(o.p, o.m) < 1.0
    requires Abs(o.to - Resolve(o, 1000.0)) <= o.RestDelta()
    requires var d := Resolve(o, 1000.0) - Resolve(o, 995.0);
             200.0 * Abs(d) <= o.RestSpeed() < 994.0 * Abs(d)
    ensures NextIntended(o, 1000.0).done && !Next(o, 1000.0).done
  {
    var d := Resolve(o, 1000.0) - Resolve(o, 995.0);
    var v := SettleVelocityIntended(o, 1000.0);
    assert v * 5.0 == 1000.0 * d;
    assert Abs(v) == 200.0 * Abs(d);
    assert 1000.0 / 1000.0 - (1000.0 - 5.0) == -994.0;
    assert SettleVelocity(o, 1000.0) == d * -994.0;
    assert Abs(SettleVelocity(o, 1000.0)) == 994.0 * Abs(d);
  }

  // ---------------------------------------------------------------------------
  // The vector generator

  /** A final frame shows exactly the end vector (its first |from| components). */
  lemma FinalFrameIsTarget(from: seq<real>, to: seq<real>, p: Params, m: Maths, elapsed: real)
    requires WellPosed(p, m) && |from| <= |to|
    requires SpringGet(from, to, p, m, elapsed).done
    ensures SpringGet(from, to, p, m, elapsed).value == to[..|from|]
  {
    var f := SpringGet(from, to, p, m, elapsed);
    forall i | 0 <= i < |from| ensures f.value[i] == to[i] {
      assert Next(Oscillator(from[i], to[i], p, m), elapsed).done;
    }
  }

  /** The first frame shows the start vector and is not final unless there are no
      components at all (`every` of nothing holds). */
  lemma FirstFrame(from: seq<real>, to: seq<real>, p: Params, m: Maths)
    requires WellPosed(p, m) && |from| <= |to| && LawsAtZero(m)
    ensures SpringGet(from, to, p, m, 0.0).value == from
    ensures SpringGet(from, to, p, m, 0.0).done <==> from == []
  {
    var f := SpringGet(from, to, p, m, 0.0);
    forall i | 0 <= i < |from| ensures f.value[i] == from[i] {
      StartsAtFrom(Oscillator(from[i], to[i], p, m));
    }
    if from != [] {
      assert !Next(Oscillator(from[0], to[0], p, m), 0.0).done;
    }
  }

  // ---------------------------------------------------------------------------
  // Options that make sense physically

  /** Scaling a positive number by a positive number stays positive. */
  lemma PositiveProduct(a: real, b: real)
    requires a > 0.0 && b > 0.0
    ensures a * b > 0.0
  {
  }

  /** The root of a positive number is positive. */
  lemma RootOfPositive(m: Maths, x: real)
    requires SqrtLaw(m) && x > 0.0
    ensures m.sqrt(x) > 0.0
  {
    var r := m.sqrt(x);
    assert r >= 0.0 && r * r == x;
  }

  /** Squaring keeps a non-negative fraction below 1 and a number above 1 above 1. */
  lemma SquareAgainstOne(z: real)
    ensures 0.0 <= z < 1.0 ==> z * z < 1.0
    ensures z > 1.0 ==> z * z > 1.0
  {
    if 0.0 <= z < 1.0 {
      var d := 1.0 - z;
      assert z * d >= 0.0;
      assert z * z == z - z * d;
    }
    if z > 1.0 {
      var d := z - 1.0;
      assert z * d > 0.0;
      assert z * z == z + z * d;
    }
  }

  /** Squaring is increasing on the non-negative numbers. */
  lemma SquareBelow(a: real, b: real)
    requires 0.0 <= a < b
    ensures a * a < b * b
  {
    var d := b - a;
    assert a * d >= 0.0;
    assert b * d > 0.0;
    assert b * b == a * a + a * d + b * d;
  }

  /** A non-negative number whose square is 100 is 10. */
  lemma RootOfHundred(s: real)
    requires s >= 0.0 && s * s == 100.0
    ensures s == 10.0
  {
    if s < 10.0 {
      SquareBelow(s, 10.0);
    }
    if s > 10.0 {
      SquareBelow(10.0, s);
    }
  }

  /** Positive stiffness and mass with a non-negative damping give a positive
      root, a non-negative damping ratio and a positive undamped frequency. */
  lemma PhysicalRatios(p: Params, m: Maths)
    requires SqrtLaw(m) && p.stiffness > 0.0 && p.mass > 0.0 && p.damping >= 0.0
    ensures RootStiffnessMass(p, m) > 0.0
    ensures DampingRatio(p, m) >= 0.0 && UndampedAngularFreq(p, m) > 0.0
  {
    PositiveProduct(p.stiffness, p.mass);
    RootOfPositive(m, p.stiffness * p.mass);
    var root := RootStiffnessMass(p, m);
    assert DampingRatio(p, m) == p.damping / (2.0 * root);
    var ratio := p.stiffness / p.mass;
    RootOfPositive(m, ratio);
    assert UndampedAngularFreq(p, m) == m.sqrt(ratio) / 1000.0;
  }

  /** Positive stiffness and mass with a non-negative damping never divide by
      zero, in any regime. */
  lemma PhysicalIsWellPosed(p: Params, m: Maths)
    requires SqrtLaw(m) && p.stiffness > 0.0 && p.mass > 0.0 && p.damping >= 0.0
    ensures WellPosed(p, m)
    ensures DampingRatio(p, m) >= 0.0 && UndampedAngularFreq(p, m) > 0.0
  {
    PhysicalRatios(p, m);
    RegimeFrequencies(p, m);
    PositiveProduct(p.stiffness, p.mass);
  }

  /** With a positive undamped frequency and a non-negative damping ratio, the
      frequency of the under-damped and of the over-damped regime is positive. */
  lemma RegimeFrequencies(p: Params, m: Maths)
    requires SqrtLaw(m) && p.mass != 0.0 && RootStiffnessMass(p, m) != 0.0
    requires UndampedAngularFreq(p, m) > 0.0 && DampingRatio(p, m) >= 0.0
    ensures DampingRatio(p, m) < 1.0 ==> AngularFreq(p, m) > 0.0
    ensures DampingRatio(p, m) > 1.0 ==> DampedAngularFreq(p, m) > 0.0
  {
    var zeta := DampingRatio(p, m);
    var w0 := UndampedAngularFreq(p, m);
    SquareAgainstOne(zeta);
    var zz := zeta * zeta;
    if zeta < 1.0 {
      RootOfPositive(m, 1.0 - zz);
      PositiveProduct(w0, m.sqrt(1.0 - zz));
      assert AngularFreq(p, m) == w0 * m.sqrt(1.0 - zz);
    }
    if zeta > 1.0 {
      RootOfPositive(m, zz - 1.0);
      PositiveProduct(w0, m.sqrt(zz - 1.0));
      assert DampedAngularFreq(p, m) == w0 * m.sqrt(zz - 1.0);
    }
  }

  /** The default options (stiffness 100, damping 10, mass 1) give damping ratio
      1/2, an under-damped spring, with an undamped frequency of 0.01 radians per
      millisecond. */
  lemma DefaultsUnderdamped(m: Maths)
    requires SqrtLaw(m)
    ensures var p := ParamsOf(SpringOptions(None, None, None));
            WellPosed(p, m) && DampingRatio(p, m) == 0.5 && UndampedAngularFreq(p, m) == 0.01
  {
    var p := ParamsOf(SpringOptions(None, None, None));
    assert p == Params(100.0, 10.0, 1.0);
    PhysicalIsWellPosed(p, m);
    assert p.stiffness * p.mass == 100.0 && p.stiffness / p.mass == 100.0;
    RootOfHundred(m.sqrt(100.0));
  }

  // ---------------------------------------------------------------------------
  // The velocity estimate

  /** From 5 ms on, the intended estimate is the change over the last 5 ms times
      200 (units per second); the one as written multiplies the same change by
      `1000 / t - (t - 5)`. */
  lemma VelocityAfterWindow(resolve: real -> real, t: real, current: real)
    requires t >= VelocitySampleDuration
    ensures Velocity(resolve, t, current) == (current - resolve(t - 5.0)) * 200.0
    ensures VelocityAsWritten(resolve, t, current) == (current - resolve(t - 5.0)) * (1000.0 / t - (t - 5.0))
  {
    assert PrevT(t) == t - 5.0;
    var v := Velocity(resolve, t, current);
    assert v * 5.0 == 1000.0 * (current - resolve(t - 5.0));
  }

  /** Before 5 ms the earlier sample is at time 0, so the window is t itself and
      `1000 / t - prevT` is `1000 / t`: the estimate as written and the intended
      one agree, and the finding matters only from 5 ms on. */
  lemma VelocityAgreesBeforeWindow(resolve: real -> real, t: real, current: real)
    requires t != 0.0 && t < VelocitySampleDuration
    ensures VelocityAsWritten(resolve, t, current) == Velocity(resolve, t, current)
  {
    assert PrevT(t) == 0.0;
    var v := Velocity(resolve, t, current);
    var change := current - resolve(0.0);
    assert v * t == 1000.0 * change;
    DivideProduct(change, 1000.0, t);
    assert v == (1000.0 * change) / t;
  }

  /** The settling speed of an under-damped spring from 5 ms on is the change of
      the position over the last 5 ms scaled by `1000 / t - (t - 5)`, as written. */
  lemma SettleVelocityUnderdamped(o: Oscillator, elapsed: real)
    requires WellPosed(o.p, o.m) && DampingRatio(o.p, o.m) < 1.0 && elapsed >= VelocitySampleDuration
    ensures SettleVelocity(o, elapsed) == (Resolve(o, elapsed) - Resolve(o, elapsed - 5.0)) * (1000.0 / elapsed - (elapsed - 5.0))
  {
  }

  /** Before 5 ms the same speed is the change since time 0 scaled by `1000 / t`;
      a negative elapsed time, from a frame stamped before `play`, is included. */
  lemma SettleVelocityEarly(o: Oscillator, elapsed: real)
    requires WellPosed(o.p, o.m) && DampingRatio(o.p, o.m) < 1.0
    requires elapsed != 0.0 && elapsed < VelocitySampleDuration
    ensures SettleVelocity(o, elapsed) == (Resolve(o, elapsed) - Resolve(o, 0.0)) * (1000.0 / elapsed)
  {
  }

  /** A concrete case: a component that moved by 1 over the 5 ms before t = 10.
      The intended estimate is 200 units per second; as written it is 95. */
  lemma VelocityExample()
    ensures Velocity(x => if x == 5.0 then 0.0 else 1.0, 10.0, 1.0) == 200.0
    ensures VelocityAsWritten(x => if x == 5.0 then 0.0 else 1.0, 10.0, 1.0) == 95.0
  {
    VelocityAfterWindow(x => if x == 5.0 then 0.0 else 1.0, 10.0, 1.0);
  }
}
