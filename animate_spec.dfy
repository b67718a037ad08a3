/** lib/animate.ts, as values: the options and their defaults, the checks the
    factory makes before it builds anything, the generator it picks, and every
    operation of the controller as a function from one controller state to the
    next. The class in module Animate runs these steps in place and is proved to
    agree with them; the properties are proved here and in AnimateProperties. */
module AnimateSpec {
  import opened Results
  import opened Interface
  import Numbers
  import Codec
  import CodecProperties
  import Bezier
  import Spring

  // ---------------------------------------------------------------------------
  // Options

  /** Which of the optional callbacks the caller supplied. */
  datatype Callbacks = Callbacks(onUpdate: bool, onPlay: bool, onComplete: bool, onStop: bool)

  /** The options object; an absent field is `None`. `kind` is `options.type`. */
  datatype Options = Options(
    kind: Option<string>,
    ease: Bezier.Ease,
    duration: Option<real>,
    spring: Spring.SpringOptions,
    loop: Option<bool>,
    loopDelay: Option<real>,
    autoplay: Option<bool>,
    callbacks: Callbacks)

  /** The code the engine calls but does not own: the bezier-easing factory and
      the `Math` functions. */
  datatype Environment = Environment(easingOf: Bezier.Curve -> (real -> real), maths: Spring.Maths)

  /** The generator `next` the factory builds. */
  datatype Generator = Tween(duration: real, curve: Bezier.Curve) | SpringGen(params: Spring.Params)

  /** What the factory fixes once: the two values as given and as encoded, the
      generator, and the resolved options. */
  datatype Setting = Setting(
    from: Codec.JsValue, to: Codec.JsValue,
    start: seq<real>, end: seq<real>,
    generator: Generator,
    loop: bool, loopDelay: real, autoplay: bool,
    callbacks: Callbacks,
    env: Environment)

  /** `type = 'tween'`. */
  function KindOf(o: Options): string {
    if o.kind.Some? then o.kind.value else "tween"
  }

  /** `loop = false`, `loopDelay = 0`, `autoplay = true`. */
  function LoopOf(o: Options): bool { if o.loop.Some? then o.loop.value else false }
  function LoopDelayOf(o: Options): real { if o.loopDelay.Some? then o.loopDelay.value else 0.0 }
  function AutoplayOf(o: Options): bool { if o.autoplay.Some? then o.autoplay.value else true }

  /** The generator can be sampled without dividing by zero. */
  predicate GeneratorWellPosed(g: Generator, env: Environment) {
    match g
    case Tween(duration, _) => duration != 0.0
    case SpringGen(params) => Spring.WellPosed(params, env.maths)
  }

  /** What every setting the factory produces satisfies. */
  predicate SettingValid(st: Setting) {
    Codec.Encode(st.from) == Ok(st.start) && Codec.Encode(st.to) == Ok(st.end)
    && |st.start| <= |st.end| && (st.loop ==> |st.start| == |st.end|)
    && GeneratorWellPosed(st.generator, st.env)
  }

  /** The generator the factory builds for `options.type`. Building a tween
      looks its ease up as written, so an inherited object key such as
      "toString" throws there. */
  function GeneratorOf(o: Options): (g: Result<Generator>)
    ensures KindOf(o) == "tween" && Bezier.ResolveEaseAsWritten(o.ease).Ok? ==>
              g == Ok(Tween(Bezier.DurationOf(o.duration), Bezier.ResolveEase(o.ease)))
    ensures KindOf(o) == "tween" && Bezier.ResolveEaseAsWritten(o.ease).Err? ==> g == Err(NotIterable)
    ensures KindOf(o) == "spring" ==> g == Ok(SpringGen(Spring.ParamsOf(o.spring)))
    ensures KindOf(o) != "tween" && KindOf(o) != "spring" ==> g == Err(UnsupportedOptions)
  {
    if KindOf(o) == "tween" then
      var curve := Bezier.ResolveEaseAsWritten(o.ease);
      if curve.Ok? then Ok(Tween(Bezier.DurationOf(o.duration), curve.value)) else Err(curve.error)
    else if KindOf(o) == "spring" then Ok(SpringGen(Spring.ParamsOf(o.spring)))
    else Err(UnsupportedOptions)
  }

  /** The checks of the factory, in the order the source makes them: the two
      values must have the same `typeof`, both must encode, the type must be
      "tween" or "spring", and a tween's ease must be looked up without a
      TypeError. The model then refuses what JavaScript would turn into
      NaN: a zero tween duration, a spring that divides by zero, vectors of
      different lengths where a component would be missing. */
  function Setup(from: Codec.JsValue, to: Codec.JsValue, o: Options, env: Environment): (r: Result<Setting>)
    ensures r.Ok? ==> SettingValid(r.value)
    ensures r.Ok? ==> r.value.from == from && r.value.to == to && r.value.callbacks == o.callbacks
                      && r.value.loop == LoopOf(o) && r.value.loopDelay == LoopDelayOf(o)
                      && r.value.autoplay == AutoplayOf(o) && r.value.env == env
                      && Ok(r.value.generator) == GeneratorOf(o)
    ensures Codec.TypeOf(from) != Codec.TypeOf(to) ==> r == Err(InputTypeMismatch)
    ensures Codec.TypeOf(from) == Codec.TypeOf(to) && Codec.Encode(from).Err? ==> r == Err(Codec.Encode(from).error)
    ensures Codec.TypeOf(from) == Codec.TypeOf(to) && Codec.Encode(from).Ok? && Codec.Encode(to).Err?
            ==> r == Err(Codec.Encode(to).error)
    ensures (Codec.TypeOf(from) == Codec.TypeOf(to) && Codec.Encode(from).Ok? && Codec.Encode(to).Ok?
             && GeneratorOf(o).Err?) ==> r == Err(GeneratorOf(o).error)
    ensures (Codec.TypeOf(from) == Codec.TypeOf(to) && Codec.Encode(from).Ok? && Codec.Encode(to).Ok?
             && KindOf(o) == "tween" && o.ease.EaseName? && Bezier.IsPrototypeKey(o.ease.name)) ==> r == Err(NotIterable)
    ensures (Codec.TypeOf(from) == Codec.TypeOf(to) && Codec.Encode(from).Ok? && Codec.Encode(to).Ok?
             && GeneratorOf(o).Ok?) ==>
              (r.Ok? <==> GeneratorWellPosed(GeneratorOf(o).value, env)
                          && |Codec.Encode(from).value| <= |Codec.Encode(to).value|
                          && (LoopOf(o) ==> |Codec.Encode(from).value| == |Codec.Encode(to).value|))
              && (r.Err? ==> r.error == UnmodelledInput)
  {
    if Codec.TypeOf(from) != Codec.TypeOf(to) then Err(InputTypeMismatch)
    else
      var start := Codec.Encode(from);
      var end := Codec.Encode(to);
      if start.Err? then Err(start.error)
      else if end.Err? then Err(end.error)
      else
        var g := GeneratorOf(o);
        if g.Err? then Err(g.error)
        else if !GeneratorWellPosed(g.value, env) then Err(UnmodelledInput)
        else if |start.value| > |end.value| || (LoopOf(o) && |start.value| != |end.value|) then Err(UnmodelledInput)
        else Ok(Setting(from, to, start.value, end.value, g.value,
                        LoopOf(o), LoopDelayOf(o), AutoplayOf(o), o.callbacks, env))
  }

  /** One call of the generator on the current endpoints. */
  function GeneratorNext(st: Setting, from: seq<real>, to: seq<real>, elapsed: real): (f: Frame)
    requires GeneratorWellPosed(st.generator, st.env) && |from| <= |to|
    ensures st.generator.Tween? ==>
              f == Bezier.TweenGet(from, to, st.generator.duration, st.env.easingOf(st.generator.curve), elapsed)
    ensures st.generator.SpringGen? ==> f == Spring.SpringGet(from, to, st.generator.params, st.env.maths, elapsed)
  {
    match st.generator
    case Tween(duration, curve) => Bezier.TweenGet(from, to, duration, st.env.easingOf(curve), elapsed)
    case SpringGen(params) => Spring.SpringGet(from, to, params, st.env.maths, elapsed)
  }

  /** `animationValueToValue(value, to)`: the value handed to `onUpdate`. It
      cannot fail, because `to` itself was encoded. */
  function Shown(st: Setting, value: seq<real>): (v: Codec.JsValue)
    requires Codec.Encode(st.to).Ok?
    ensures Codec.Decode(value, st.to) == Ok(v)
  {
    CodecProperties.DecodeEncodable(value, st.to);
    Codec.Decode(value, st.to).value
  }

  // ---------------------------------------------------------------------------
  // Controller state

  /** The callbacks the controller fires, in order. */
  datatype Event = Played | Updated(value: Codec.JsValue) | Completed | Stopped

  /** The clock variables: `startTime`, `pausedTime`, `delayTime` (null is
      `None`), `currentTime` and `timeHasDelayed`, in milliseconds. */
  datatype Clock = Clock(
    startTime: Option<real>, pausedTime: Option<int>, delayTime: Option<real>,
    currentTime: int, timeHasDelayed: real)

  /** Everything the controller changes: the two endpoint references, the clock,
      whether a frame is requested, how many completion promises have been
      created (each new one resolves the one before), and the callbacks fired. */
  datatype State = State(
    refStart: seq<real>, refEnd: seq<real>,
    clock: Clock,
    scheduled: bool,
    generation: nat,
    log: seq<Event>)

  const IdleClock := Clock(None, None, None, 0, 0.0)

  /** The state right after the factory, before autoplay. */
  function Initial(st: Setting): State {
    State(st.start, st.end, IdleClock, false, 0, [])
  }

  /** The invariant of the controller: the endpoints are the encoded values, or
      swapped by a loop; an idle clock is fully reset; a running clock has a
      frame requested and a completion promise; an elapsed delay is recorded only
      during a delay. */
  predicate StateValid(st: Setting, s: State) {
    ((s.refStart == st.start && s.refEnd == st.end) || (st.loop && s.refStart == st.end && s.refEnd == st.start))
    && (s.clock.startTime.None? ==> s.clock == IdleClock)
    && (s.clock.startTime.Some? ==> s.scheduled && s.generation > 0)
    && (s.clock.delayTime.None? ==> s.clock.timeHasDelayed == 0.0)
  }

  // ---------------------------------------------------------------------------
  // The steps

  /** internalReset: the clock back to idle and a new completion promise, which
      resolves the previous one. */
  function Reset(s: State): (r: State)
    ensures r.clock == IdleClock && r.generation == s.generation + 1
    ensures r.refStart == s.refStart && r.refEnd == s.refEnd && r.scheduled == s.scheduled && r.log == s.log
  {
    s.(clock := IdleClock, generation := s.generation + 1)
  }

  /** internalResetRefValues: both endpoints back to the encoded values. */
  function ResetRefs(st: Setting, s: State): State {
    s.(refStart := st.start, refEnd := st.end)
  }

  /** start: the clock starts now and a frame is requested (any pending request
      is cancelled first, so there is never more than one). */
  function Start(s: State, now: real): (r: State)
    ensures r.clock.startTime == Some(now) && r.scheduled
    ensures r == s.(clock := r.clock, scheduled := true) && r.clock == s.clock.(startTime := Some(now))
  {
    s.(clock := s.clock.(startTime := Some(now)), scheduled := true)
  }

  /** Appends an event when its callback is present. */
  function Fire(s: State, present: bool, e: Event): (r: State)
    ensures r.log == s.log + (if present then [e] else [])
    ensures r == s.(log := r.log)
  {
    if present then s.(log := s.log + [e]) else s
  }

  /** complete: reset, then `onComplete`. */
  function Complete(st: Setting, s: State): (r: State)
    ensures r.clock == IdleClock && r.generation == s.generation + 1
    ensures r.log == s.log + (if st.callbacks.onComplete then [Completed] else [])
    ensures r.refStart == s.refStart && r.refEnd == s.refEnd && r.scheduled == s.scheduled
  {
    Fire(Reset(s), st.callbacks.onComplete, Completed)
  }

  /** repeat: without `loop` nothing; with it the endpoints swap, the clock is
      reset, a non-zero `loopDelay` starts a delay now, and the clock starts now. */
  function Repeat(st: Setting, s: State, now: real): (r: State)
    ensures !st.loop ==> r == s
    ensures st.loop ==> r.refStart == s.refEnd && r.refEnd == s.refStart
                        && r.clock == IdleClock.(startTime := Some(now),
                                                 delayTime := if st.loopDelay != 0.0 then Some(now) else None)
                        && r.scheduled && r.generation == s.generation + 1 && r.log == s.log
  {
    if !st.loop then s
    else
      var r := Reset(s.(refStart := s.refEnd, refEnd := s.refStart));
      var d := if st.loopDelay != 0.0 then r.(clock := r.clock.(delayTime := Some(now))) else r;
      Start(d, now)
  }

  /** stop: reset, original endpoints, `onStop`. The requested frame is not
      cancelled; it finds the clock idle and does nothing. */
  function Stop(st: Setting, s: State): (r: State)
    ensures r.refStart == st.start && r.refEnd == st.end && r.clock == IdleClock
    ensures r.generation == s.generation + 1 && r.scheduled == s.scheduled
    ensures r.log == s.log + (if st.callbacks.onStop then [Stopped] else [])
  {
    Fire(ResetRefs(st, Reset(s)), st.callbacks.onStop, Stopped)
  }

  /** cancel: reset, original endpoints, `onUpdate` with the start value as given. */
  function Cancel(st: Setting, s: State): (r: State)
    ensures r.refStart == st.start && r.refEnd == st.end && r.clock == IdleClock
    ensures r.generation == s.generation + 1 && r.scheduled == s.scheduled
    ensures r.log == s.log + (if st.callbacks.onUpdate then [Updated(st.from)] else [])
  {
    Fire(ResetRefs(st, Reset(s)), st.callbacks.onUpdate, Updated(st.from))
  }

  /** The clock after play resumes a pause: started as long ago as the paused
      elapsed time, a delay in progress shifted the same way. */
  function Resumed(c: Clock, now: real): (r: Clock)
    requires c.pausedTime.Some?
    ensures r.startTime.Some? && r.pausedTime.None? && r.currentTime == c.currentTime
    ensures now - r.startTime.value == c.pausedTime.value as real
    ensures r.delayTime.Some? <==> c.delayTime.Some?
    ensures r.delayTime.Some? ==> now - r.delayTime.value == c.timeHasDelayed
    ensures r.timeHasDelayed == c.timeHasDelayed
  {
    Clock(Some(now - c.pausedTime.value as real), None,
          if c.delayTime.Some? then Some(now - c.timeHasDelayed) else None,
          c.currentTime, c.timeHasDelayed)
  }

  /** play: resume a pause; from idle reset, start and fire `onPlay`; while
      running do nothing. */
  function Play(st: Setting, s: State, now: real): (r: State)
    ensures r.clock.startTime.Some? && r.clock.pausedTime.None?
    ensures r.refStart == s.refStart && r.refEnd == s.refEnd
  {
    if s.clock.pausedTime.Some? then s.(clock := Resumed(s.clock, now))
    else if s.clock.startTime.None? then Fire(Start(Reset(s), now), st.callbacks.onPlay, Played)
    else s
  }

  /** pause: while running, record the elapsed time shown last. */
  function Pause(s: State): (r: State)
    ensures s.clock.startTime.Some? ==> r.clock.pausedTime == Some(s.clock.currentTime)
    ensures r == s.(clock := r.clock) && r.clock == s.clock.(pausedTime := r.clock.pausedTime)
  {
    if s.clock.startTime.Some? then s.(clock := s.clock.(pausedTime := Some(s.clock.currentTime)))
    else s
  }

  /** The clock update at the head of tick: a paused clock shows the paused time;
      during a loop delay the elapsed delay is measured and, once it reaches
      `loopDelay` seconds, the delay ends and the clock restarts at this frame;
      otherwise the elapsed time is the rounded time since the start. */
  function AdvanceClock(c: Clock, timestamp: real, loopDelay: real): (r: Clock)
    requires c.startTime.Some?
    ensures r.startTime.Some? && r.pausedTime == c.pausedTime
    ensures c.pausedTime.Some? ==> r.currentTime == c.pausedTime.value
    ensures c.pausedTime.None? && c.delayTime.None? ==> r.currentTime == Numbers.Round(timestamp - c.startTime.value)
    ensures c.pausedTime.None? && c.delayTime.Some? ==> r.currentTime == c.currentTime
  {
    if c.pausedTime.Some? then c.(currentTime := c.pausedTime.value)
    else if c.delayTime.Some? then
      var delayed := timestamp - c.delayTime.value;
      if delayed >= Numbers.SecondsToMilliseconds(loopDelay) then
        c.(delayTime := None, timeHasDelayed := 0.0, startTime := Some(timestamp))
      else c.(timeHasDelayed := delayed)
    else c.(currentTime := Numbers.Round(timestamp - c.startTime.value))
  }

  /** tick, the frame callback at `timestamp`: nothing once the clock is idle;
      otherwise advance the clock, sample the generator at the elapsed time,
      report the value, and request another frame, or complete and repeat. */
  function Tick(st: Setting, s: State, timestamp: real, now: real): (r: State)
    requires SettingValid(st) && StateValid(st, s)
    ensures s.clock.startTime.None? ==> r == s.(scheduled := false)
    ensures s.clock.startTime.Some? ==> r.scheduled || r.clock == IdleClock
  {
    var s1 := s.(scheduled := false);
    if s.clock.startTime.None? then s1
    else
      var c := AdvanceClock(s.clock, timestamp, st.loopDelay);
      var frame := GeneratorNext(st, s.refStart, s.refEnd, c.currentTime as real);
      AfterFrame(st, Report(st, s, c, frame.value), frame.done, now)
  }

  /** The middle of tick: the frame request consumed, the clock advanced to `c`,
      and `onUpdate` fired with the decoded value. */
  function Report(st: Setting, s: State, c: Clock, value: seq<real>): (r: State)
    requires Codec.Encode(st.to).Ok?
    ensures r.log == s.log + (if st.callbacks.onUpdate then [Updated(Shown(st, value))] else [])
    ensures r == s.(scheduled := false, clock := c, log := r.log)
  {
    Fire(s.(scheduled := false, clock := c), st.callbacks.onUpdate, Updated(Shown(st, value)))
  }

  /** The end of tick: another frame while not done, otherwise complete and
      repeat. */
  function AfterFrame(st: Setting, s: State, done: bool, now: real): (r: State)
    ensures !done ==> r == s.(scheduled := true)
    ensures done ==> (r.clock == IdleClock <==> !st.loop)
    ensures done && st.loop ==> r.scheduled && r.refStart == s.refEnd && r.refEnd == s.refStart
  {
    if !done then s.(scheduled := true)
    else Repeat(st, Complete(st, s), now)
  }

  /** `then`: the completion promise current now, identified by its generation;
      before the first play there is none and JavaScript throws a TypeError. */
  function Then(s: State): (p: Option<nat>)
    ensures p.Some? <==> s.generation > 0
    ensures p.Some? ==> p.value == s.generation
  {
    if s.generation == 0 then None else Some(s.generation)
  }

  // ---------------------------------------------------------------------------
  // The invariant is kept by every step

  lemma InitialValid(st: Setting)
    ensures StateValid(st, Initial(st)) && Then(Initial(st)).None?
  {
  }

  lemma PlayKeepsValid(st: Setting, s: State, now: real)
    requires StateValid(st, s)
    ensures StateValid(st, Play(st, s, now))
  {
  }

  lemma PauseKeepsValid(st: Setting, s: State)
    requires StateValid(st, s)
    ensures StateValid(st, Pause(s))
  {
  }

  lemma StopKeepsValid(st: Setting, s: State)
    requires StateValid(st, s)
    ensures StateValid(st, Stop(st, s)) && Stop(st, s).clock == IdleClock
  {
  }

  lemma CancelKeepsValid(st: Setting, s: State)
    requires StateValid(st, s)
    ensures StateValid(st, Cancel(st, s)) && Cancel(st, s).clock == IdleClock
  {
  }

  /** The loop swap keeps the endpoints in one of the two orientations. */
  lemma RepeatKeepsValid(st: Setting, s: State, now: real)
    requires StateValid(st, s) && s.clock == IdleClock && s.generation > 0
    ensures StateValid(st, Repeat(st, s, now))
  {
  }

  /** Advancing a running clock keeps it running and records an elapsed delay only
      during a delay. */
  lemma AdvanceKeepsClock(c: Clock, timestamp: real, loopDelay: real)
    requires c.startTime.Some? && (c.delayTime.None? ==> c.timeHasDelayed == 0.0)
    ensures AdvanceClock(c, timestamp, loopDelay).startTime.Some?
    ensures AdvanceClock(c, timestamp, loopDelay).delayTime.None? ==> AdvanceClock(c, timestamp, loopDelay).timeHasDelayed == 0.0
  {
  }

  /** The frame reported by a tick keeps the invariant, whichever way it goes. */
  lemma ReportKeepsValid(st: Setting, s: State, s2: State, done: bool, now: real)
    requires StateValid(st, s) && s.clock.startTime.Some?
    requires s2.refStart == s.refStart && s2.refEnd == s.refEnd && s2.generation == s.generation
    requires s2.clock.startTime.Some? && (s2.clock.delayTime.None? ==> s2.clock.timeHasDelayed == 0.0)
    ensures StateValid(st, AfterFrame(st, s2, done, now))
  {
    if done {
      RepeatKeepsValid(st, Complete(st, s2), now);
    }
  }

  lemma TickKeepsValid(st: Setting, s: State, timestamp: real, now: real)
    requires SettingValid(st) && StateValid(st, s)
    ensures StateValid(st, Tick(st, s, timestamp, now))
  {
    if s.clock.startTime.Some? {
      var c := AdvanceClock(s.clock, timestamp, st.loopDelay);
      AdvanceKeepsClock(s.clock, timestamp, st.loopDelay);
      var frame := GeneratorNext(st, s.refStart, s.refEnd, c.currentTime as real);
      var s2 := Report(st, s, c, frame.value);
      ReportKeepsValid(st, s, s2, frame.done, now);
    }
  }
}
