/** What the controller of lib/animate.ts promises: pausing freezes the elapsed
    time and playing resumes it where it stopped, a loop delay waits and then
    restarts the clock, stop and cancel return to the start for good, a loop
    swaps the endpoints on every completion, a tween completes on the frame its
    duration has passed and not before, and each completion promise is replaced
    only by a newer one. */
module AnimateProperties {
  import opened Results
  import opened Interface
  import Numbers
  import Codec
  import Bezier
  import BezierProperties
  import Spring
  import opened AnimateSpec

  /** The clock runs: started, neither paused nor in a loop delay. */
  predicate Running(c: Clock) {
    c.startTime.Some? && c.pausedTime.None? && c.delayTime.None?
  }

  // ---------------------------------------------------------------------------
  // The factory

  /** Without options two numbers are tweened for 3 seconds on the "ease" curve,
      once, starting at once. */
  lemma SetupDefaults(a: real, b: real, cb: Callbacks, env: Environment)
    ensures Setup(Codec.Num(a), Codec.Num(b),
                  Options(None, Bezier.EaseUnset, None, Spring.SpringOptions(None, None, None), None, None, None, cb), env)
            == Ok(Setting(Codec.Num(a), Codec.Num(b), [a], [b], Tween(3.0, Bezier.DefaultCurve), false, 0.0, true, cb, env))
  {
    var o := Options(None, Bezier.EaseUnset, None, Spring.SpringOptions(None, None, None), None, None, None, cb);
    assert KindOf(o) == "tween";
  }

  /** An unknown `type` is refused once the two values are accepted. */
  lemma UnknownTypeRefused(from: Codec.JsValue, to: Codec.JsValue, o: Options, env: Environment)
    requires Codec.TypeOf(from) == Codec.TypeOf(to) && Codec.Encode(from).Ok? && Codec.Encode(to).Ok?
    requires o.kind.Some? && o.kind.value != "tween" && o.kind.value != "spring"
    ensures Setup(from, to, o, env) == Err(UnsupportedOptions)
  {
    assert GeneratorOf(o) == Err(UnsupportedOptions);
  }

  // ---------------------------------------------------------------------------
  // Play and pause

  /** Play from idle starts a new run: a new completion promise, the clock
      started now at elapsed 0, a frame requested, `onPlay` fired. */
  lemma PlayFromIdle(st: Setting, s: State, now: real)
    requires StateValid(st, s) && s.clock.startTime.None?
    ensures var r := Play(st, s, now);
            r.clock == IdleClock.(startTime := Some(now)) && r.scheduled
            && r.refStart == s.refStart && r.refEnd == s.refEnd
            && Then(r) == Some(s.generation + 1)
            && r.log == s.log + (if st.callbacks.onPlay then [Played] else [])
  {
  }

  /** Play while running changes nothing: no restart, no second frame request. */
  lemma PlayWhileRunningIsNoOp(st: Setting, s: State, now: real)
    requires s.clock.startTime.Some? && s.clock.pausedTime.None?
    ensures Play(st, s, now) == s
  {
  }

  /** While paused every frame samples the elapsed time shown when pausing,
      whatever its timestamp: two frames at different times do the same. */
  lemma PausedIgnoresTimestamp(st: Setting, s: State, t1: real, t2: real, now: real)
    requires SettingValid(st) && StateValid(st, s) && s.clock.startTime.Some?
    ensures StateValid(st, Pause(s))
    ensures AdvanceClock(Pause(s).clock, t1, st.loopDelay) == Pause(s).clock
    ensures Tick(st, Pause(s), t1, now) == Tick(st, Pause(s), t2, now)
  {
    PauseKeepsValid(st, s);
  }

  /** Pausing a running clock and playing again `x` milliseconds after `now`
      continues from the elapsed time shown when pausing, as if the pause had
      not happened. */
  lemma ResumeContinues(st: Setting, s: State, now: real, x: real)
    requires Running(s.clock)
    ensures var c := Play(st, Pause(s), now).clock;
            Running(c) && AdvanceClock(c, now + x, st.loopDelay).currentTime == s.clock.currentTime + Numbers.Round(x)
  {
    var k := s.clock.currentTime;
    var c := Play(st, Pause(s), now).clock;
    assert c.startTime == Some(now - k as real);
    assert (now + x) - (now - k as real) == x + k as real;
    Numbers.RoundShift(x, k);
  }

  /** Pausing during a loop delay and playing again `x` milliseconds after `now`
      continues the delay from the time it had already waited. */
  lemma ResumeContinuesDelay(st: Setting, s: State, now: real, x: real)
    requires s.clock.startTime.Some? && s.clock.pausedTime.Some? && s.clock.delayTime.Some?
    ensures var c := AdvanceClock(Play(st, s, now).clock, now + x, st.loopDelay);
            var waited := s.clock.timeHasDelayed + x;
            (waited < Numbers.SecondsToMilliseconds(st.loopDelay) ==> c.delayTime.Some? && c.timeHasDelayed == waited)
            && (waited >= Numbers.SecondsToMilliseconds(st.loopDelay) ==> Running(c) && c.startTime == Some(now + x))
  {
    var c := Play(st, s, now).clock;
    assert c.delayTime == Some(now - s.clock.timeHasDelayed);
    assert (now + x) - (now - s.clock.timeHasDelayed) == s.clock.timeHasDelayed + x;
  }

  // ---------------------------------------------------------------------------
  // Loop delay

  /** During a loop delay the elapsed time does not move until `loopDelay`
      seconds have passed since the delay began. */
  lemma DelayWaits(c: Clock, timestamp: real, loopDelay: real)
    requires c.startTime.Some? && c.pausedTime.None? && c.delayTime.Some?
    requires timestamp - c.delayTime.value < Numbers.SecondsToMilliseconds(loopDelay)
    ensures var c1 := AdvanceClock(c, timestamp, loopDelay);
            c1.currentTime == c.currentTime && c1.startTime == c.startTime && c1.delayTime == c.delayTime
            && c1.timeHasDelayed == timestamp - c.delayTime.value
  {
  }

  /** The frame that ends a loop delay restarts the clock: the frame `y`
      milliseconds later shows elapsed `Round(y)`. */
  lemma DelayThenRestarts(c: Clock, t1: real, y: real, loopDelay: real)
    requires c.startTime.Some? && c.pausedTime.None? && c.delayTime.Some?
    requires t1 - c.delayTime.value >= Numbers.SecondsToMilliseconds(loopDelay)
    ensures var c1 := AdvanceClock(c, t1, loopDelay);
            Running(c1) && c1.timeHasDelayed == 0.0
            && AdvanceClock(c1, t1 + y, loopDelay).currentTime == Numbers.Round(y)
  {
    assert (t1 + y) - t1 == y;
  }

  // ---------------------------------------------------------------------------
  // Stop and cancel

  /** Stop returns to the encoded endpoints and an idle clock, replaces the
      completion promise and fires `onStop`; the frame still requested then does
      nothing but end. */
  lemma StopRestores(st: Setting, s: State, timestamp: real, now: real)
    requires SettingValid(st) && StateValid(st, s)
    ensures var r := Stop(st, s);
            r.refStart == st.start && r.refEnd == st.end && r.clock == IdleClock && r.scheduled == s.scheduled
            && r.generation == s.generation + 1
            && r.log == s.log + (if st.callbacks.onStop then [Stopped] else [])
            && StateValid(st, r) && Tick(st, r, timestamp, now) == r.(scheduled := false)
  {
    StopKeepsValid(st, s);
  }

  /** Cancel does the same as stop but reports the start value as given. */
  lemma CancelRestores(st: Setting, s: State, timestamp: real, now: real)
    requires SettingValid(st) && StateValid(st, s)
    ensures var r := Cancel(st, s);
            r.refStart == st.start && r.refEnd == st.end && r.clock == IdleClock && r.scheduled == s.scheduled
            && r.generation == s.generation + 1
            && r.log == s.log + (if st.callbacks.onUpdate then [Updated(st.from)] else [])
            && StateValid(st, r) && Tick(st, r, timestamp, now) == r.(scheduled := false)
  {
    CancelKeepsValid(st, s);
  }

  /** After stop, play starts over from the start value whatever the loop had
      swapped. */
  lemma StopThenPlayStartsOver(st: Setting, s: State, now: real)
    requires StateValid(st, s)
    ensures var r := Play(st, Stop(st, s), now);
            r.refStart == st.start && r.refEnd == st.end && r.clock == IdleClock.(startTime := Some(now))
            && r.generation == s.generation + 2
  {
    StopKeepsValid(st, s);
  }

  // ---------------------------------------------------------------------------
  // Completion and loops

  /** Without `loop` the final frame completes the run: an idle clock, no new
      frame, a new promise (the old one resolved) and `onComplete`. */
  lemma CompletionWithoutLoop(st: Setting, s: State, now: real)
    requires !st.loop
    ensures var r := AfterFrame(st, s, true, now);
            r.clock == IdleClock && r.scheduled == s.scheduled && r.generation == s.generation + 1
            && r.refStart == s.refStart && r.refEnd == s.refEnd
            && r.log == s.log + (if st.callbacks.onComplete then [Completed] else [])
  {
  }

  /** With `loop` the final frame completes the run and starts the next one at
      once with the endpoints swapped, in a delay when `loopDelay` is not zero;
      two promises are replaced. */
  lemma CompletionWithLoop(st: Setting, s: State, now: real)
    requires st.loop
    ensures var r := AfterFrame(st, s, true, now);
            r.clock == Clock(Some(now), None, if st.loopDelay != 0.0 then Some(now) else None, 0, 0.0)
            && r.scheduled && r.generation == s.generation + 2
            && r.refStart == s.refEnd && r.refEnd == s.refStart
            && r.log == s.log + (if st.callbacks.onComplete then [Completed] else [])
  {
  }

  /** Two completions in a loop bring the endpoints back to where they were. */
  lemma LoopSwapsTwice(st: Setting, s: State, n1: real, n2: real)
    requires st.loop
    ensures var r1 := AfterFrame(st, s, true, n1);
            var r2 := AfterFrame(st, r1, true, n2);
            r1.refStart == s.refEnd && r1.refEnd == s.refStart
            && r2.refStart == s.refStart && r2.refEnd == s.refEnd
  {
    CompletionWithLoop(st, s, n1);
    CompletionWithLoop(st, AfterFrame(st, s, true, n1), n2);
  }

  /** A frame that is not final only asks for the next frame. */
  lemma NotDoneContinues(st: Setting, s: State, now: real)
    ensures AfterFrame(st, s, false, now) == s.(scheduled := true)
  {
  }

  /** The frame of a running tick, in the order the source takes its steps:
      the clock advanced, the generator sampled at the rounded elapsed time,
      `onUpdate` fired with the decoded value, then the end of the frame. */
  lemma RunningTick(st: Setting, s: State, timestamp: real, now: real)
    requires SettingValid(st) && StateValid(st, s) && Running(s.clock)
    ensures var e := Numbers.Round(timestamp - s.clock.startTime.value);
            var frame := GeneratorNext(st, s.refStart, s.refEnd, e as real);
            Tick(st, s, timestamp, now) == AfterFrame(st, Report(st, s, s.clock.(currentTime := e), frame.value), frame.done, now)
  {
    assert AdvanceClock(s.clock, timestamp, st.loopDelay) == s.clock.(currentTime := Numbers.Round(timestamp - s.clock.startTime.value));
  }

  /** A tween whose frame comes at least half a millisecond after its duration
      has elapsed (so that the rounded elapsed time reaches it) completes on
      that frame. */
  lemma TweenFinishesOnTime(st: Setting, s: State, timestamp: real, now: real)
    requires SettingValid(st) && StateValid(st, s) && Running(s.clock)
    requires st.generator.Tween? && st.generator.duration > 0.0
    requires timestamp >= s.clock.startTime.value + st.generator.duration * 1000.0 + 0.5
    ensures var r := Tick(st, s, timestamp, now);
            r.generation == s.generation + (if st.loop then 2 else 1)
            && (!st.loop ==> r.clock == IdleClock)
            && (st.loop ==> r.refStart == s.refEnd && r.refEnd == s.refStart && r.scheduled)
  {
    var e := Numbers.Round(timestamp - s.clock.startTime.value);
    assert e as real >= st.generator.duration * 1000.0;
    var easing := st.env.easingOf(st.generator.curve);
    BezierProperties.DoneExactlyAfterDuration(s.refStart, s.refEnd, st.generator.duration, easing, e as real);
    var frame := GeneratorNext(st, s.refStart, s.refEnd, e as real);
    assert frame.done;
    var s2 := Report(st, s, s.clock.(currentTime := e), frame.value);
    RunningTick(st, s, timestamp, now);
    if st.loop {
      CompletionWithLoop(st, s2, now);
    } else {
      CompletionWithoutLoop(st, s2, now);
    }
  }

  /** A tween whose frame comes more than half a millisecond before its duration
      has elapsed does not complete: it reports and asks for the next frame. */
  lemma TweenRunsUntilDuration(st: Setting, s: State, timestamp: real, now: real)
    requires SettingValid(st) && StateValid(st, s) && Running(s.clock)
    requires st.generator.Tween? && st.generator.duration > 0.0
    requires timestamp + 0.5 < s.clock.startTime.value + st.generator.duration * 1000.0
    ensures var r := Tick(st, s, timestamp, now);
            r.scheduled && r.generation == s.generation && r.refStart == s.refStart && r.refEnd == s.refEnd
            && r.clock == s.clock.(currentTime := Numbers.Round(timestamp - s.clock.startTime.value))
  {
    var e := Numbers.Round(timestamp - s.clock.startTime.value);
    assert (e as real) < st.generator.duration * 1000.0;
    var easing := st.env.easingOf(st.generator.curve);
    BezierProperties.DoneExactlyAfterDuration(s.refStart, s.refEnd, st.generator.duration, easing, e as real);
    RunningTick(st, s, timestamp, now);
  }

  // ---------------------------------------------------------------------------
  // Completion promises

  /** No step goes back to an older promise; stop and cancel always make a new
      one, so a `then` taken before them is resolved. */
  lemma PromisesOnlyAdvance(st: Setting, s: State, now: real)
    requires StateValid(st, s)
    ensures Play(st, s, now).generation >= s.generation
    ensures Pause(s).generation == s.generation
    ensures Stop(st, s).generation > s.generation && Cancel(st, s).generation > s.generation
  {
  }

  /** A frame keeps the current promise until the run completes. */
  lemma TickPromise(st: Setting, s: State, timestamp: real, now: real)
    requires SettingValid(st) && StateValid(st, s)
    ensures Tick(st, s, timestamp, now).generation >= s.generation
  {
    if s.clock.startTime.Some? {
      var c := AdvanceClock(s.clock, timestamp, st.loopDelay);
      var frame := GeneratorNext(st, s.refStart, s.refEnd, c.currentTime as real);
      AfterFrameGeneration(st, Report(st, s, c, frame.value), frame.done, now);
    }
  }

  /** The end of a frame replaces the promise exactly when the run completes. */
  lemma AfterFrameGeneration(st: Setting, s: State, done: bool, now: real)
    ensures AfterFrame(st, s, done, now).generation == s.generation + (if !done then 0 else if st.loop then 2 else 1)
  {
  }
}
