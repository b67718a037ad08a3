/** What the tween generator of lib/bezier.ts promises: it starts at the start
    vector, finishes exactly at the end vector once the duration has elapsed and
    not before, stays finished, and stays between the endpoints while the easing
    does; and what the preset lookup does with inherited object keys. */
module BezierProperties {
  import opened Results
  import opened Interface
  import opened Bezier

  /** For a positive duration the frame is final exactly when the elapsed time has
      reached the duration in milliseconds. */
  lemma DoneExactlyAfterDuration(from: seq<real>, to: seq<real>, duration: real, easing: real -> real, elapsed: real)
    requires duration > 0.0 && |from| <= |to|
    ensures TweenGet(from, to, duration, easing, elapsed).done <==> elapsed >= duration * 1000.0
    ensures elapsed >= duration * 1000.0 ==> TweenGet(from, to, duration, easing, elapsed).value == to
  {
    var ms := duration * 1000.0;
    assert ms > 0.0;
    if elapsed >= ms {
      assert elapsed / ms >= 1.0;
    } else {
      assert elapsed / ms < 1.0;
    }
  }

  /** Once the frame is final it stays final for every later time. */
  lemma DoneStaysDone(from: seq<real>, to: seq<real>, duration: real, easing: real -> real, e1: real, e2: real)
    requires duration > 0.0 && |from| <= |to| && e1 <= e2
    requires TweenGet(from, to, duration, easing, e1).done
    ensures TweenGet(from, to, duration, easing, e2) == Frame(to, true)
  {
    DoneExactlyAfterDuration(from, to, duration, easing, e1);
    DoneExactlyAfterDuration(from, to, duration, easing, e2);
  }

  /** With an easing that maps 0 to 0 (every bezier curve does), the first frame is
      the start vector and is not final. */
  lemma StartsAtFrom(from: seq<real>, to: seq<real>, duration: real, easing: real -> real)
    requires duration != 0.0 && |from| <= |to| && easing(0.0) == 0.0
    ensures TweenGet(from, to, duration, easing, 0.0) == Frame(from, false)
  {
    assert Progress(0.0, duration) == 0.0;
    var v := Interpolate(from, to, 0.0);
    assert forall i :: 0 <= i < |from| ==> v[i] == Lerp(from[i], to[i], 0.0) == from[i];
    assert v == from;
  }

  /** One component of the interpolation lies between its endpoints when the eased
      progress lies in [0, 1]. */
  lemma MixBetween(a: real, b: real, e: real)
    requires 0.0 <= e <= 1.0
    ensures a <= b ==> a <= Lerp(a, b, e) <= b
    ensures b <= a ==> b <= Lerp(a, b, e) <= a
  {
    if a <= b {
      MixUp(a, b, e);
    }
    if b <= a {
      MixUp(-a, -b, e);
      assert (b - a) * e == -(((-b) - (-a)) * e);
      assert Lerp(a, b, e) == -Lerp(-a, -b, e);
    }
  }

  /** The same for an increasing pair. */
  lemma MixUp(a: real, b: real, e: real)
    requires 0.0 <= e <= 1.0 && a <= b
    ensures a <= Lerp(a, b, e) <= b
  {
    var d := b - a;
    var x := d * e;
    ScaleDown(d, e);
    assert Lerp(a, b, e) == a + x;
    assert a <= a + x;
  }

  /** Scaling a non-negative amount by a fraction in [0, 1] keeps it in [0, amount]. */
  lemma ScaleDown(d: real, e: real)
    requires d >= 0.0 && 0.0 <= e <= 1.0
    ensures 0.0 <= d * e <= d
  {
    assert d * e >= 0.0;
    assert d * (1.0 - e) >= 0.0;
    assert d * (1.0 - e) == d - d * e;
  }

  /** While the easing stays in [0, 1], every component of every frame lies between
      its start and its end. */
  lemma StaysBetweenEndpoints(from: seq<real>, to: seq<real>, duration: real, easing: real -> real, elapsed: real, i: nat)
    requires duration != 0.0 && |from| <= |to| && i < |from|
    requires 0.0 <= easing(Progress(elapsed, duration)) <= 1.0
    ensures var v := TweenGet(from, to, duration, easing, elapsed).value;
            i < |v| && (from[i] <= to[i] ==> from[i] <= v[i] <= to[i])
                    && (to[i] <= from[i] ==> to[i] <= v[i] <= from[i])
  {
    var f := TweenGet(from, to, duration, easing, elapsed);
    if !f.done {
      MixBetween(from[i], to[i], easing(Progress(elapsed, duration)));
    }
  }

  /** The preset lookup as written agrees with the intended one on every option
      except an inherited object key, which it turns into an error. */
  lemma ResolveEaseDiffersOnlyOnPrototypeKeys(ease: Ease)
    ensures ease.EaseName? && IsPrototypeKey(ease.name) ==> ResolveEaseAsWritten(ease) == Err(NotIterable)
    ensures !(ease.EaseName? && IsPrototypeKey(ease.name)) ==> ResolveEaseAsWritten(ease) == Ok(ResolveEase(ease))
  {
    if ease.EaseName? && IsPrototypeKey(ease.name) {
      assert Preset(ease.name).None?;
    }
  }

  /** `ease: 'toString'` fails as written and eases with the default curve as
      intended. */
  lemma ToStringEase()
    ensures ResolveEaseAsWritten(EaseName("toString")) == Err(NotIterable)
    ensures ResolveEase(EaseName("toString")) == DefaultCurve
  {
    ResolveEaseDiffersOnlyOnPrototypeKeys(EaseName("toString"));
  }

  /** A control-point array is not consulted: the default curve is used. */
  lemma PointsFallBackToDefault(points: seq<real>)
    ensures ResolveEaseAsWritten(EasePoints(points)) == Ok(DefaultCurve)
    ensures ResolveEase(EasePoints(points)) == DefaultCurve
  {
  }
}
