/** lib/animate.ts: the controller. The closure variables of `animate` are the
    fields of an `Animation`; `play`, `pause`, `stop`, `cancel`, `then` and the
    frame callback `tick` are its methods, and each is proved to move the state
    exactly as the matching function of AnimateSpec does, keeping its invariant.
    `requestAnimationFrame` is the `scheduled` flag (the browser then calls
    `Tick`), the completion promise is the `generation` counter, the callbacks
    are the `log`, and `performance.now()` and the frame timestamp are
    parameters. */
module Animate {
  import opened Results
  import opened Interface
  import Numbers
  import Codec
  import opened AnimateSpec

  class Animation {
    /** What `animate` fixed before returning the controls. */
    const setting: Setting

    /** `refStartValue.current` and `refEndValue.current`. */
    var refStart: seq<real>
    var refEnd: seq<real>

    var startTime: Option<real>
    var pausedTime: Option<int>
    var delayTime: Option<real>
    var currentTime: int
    var timeHasDelayed: real

    /** A frame has been requested and `tick` will be called. */
    var scheduled: bool
    /** How many completion promises have been created. */
    var generation: nat
    /** The callbacks fired so far. */
    var log: seq<Event>

    ghost function Clock(): AnimateSpec.Clock
      reads this
    {
      AnimateSpec.Clock(startTime, pausedTime, delayTime, currentTime, timeHasDelayed)
    }

    ghost function State(): AnimateSpec.State
      reads this
    {
      AnimateSpec.State(refStart, refEnd, Clock(), scheduled, generation, log)
    }

    ghost predicate Valid()
      reads this
    {
      SettingValid(setting) && StateValid(setting, State())
    }

    /** The variables as `animate` declares them. */
    constructor(st: Setting)
      requires SettingValid(st)
      ensures setting == st && State() == Initial(st) && Valid()
    {
      setting := st;
      refStart := st.start;
      refEnd := st.end;
      startTime := None;
      pausedTime := None;
      delayTime := None;
      currentTime := 0;
      timeHasDelayed := 0.0;
      scheduled := false;
      generation := 0;
      log := [];
      InitialValid(st);
    }

    /** updateCompletedPromise: resolve the current promise, make a new one. */
    method UpdateCompletedPromise()
      modifies this
      ensures State() == old(State()).(generation := old(generation) + 1)
    {
      generation := generation + 1;
    }

    method InternalReset()
      modifies this
      ensures State() == Reset(old(State()))
    {
      startTime := None;
      currentTime := 0;
      pausedTime := None;
      delayTime := None;
      timeHasDelayed := 0.0;
      UpdateCompletedPromise();
    }

    method InternalResetRefValues()
      modifies this
      ensures State() == ResetRefs(setting, old(State()))
    {
      refStart := setting.start;
      refEnd := setting.end;
    }

    method Start(now: real)
      modifies this
      ensures State() == AnimateSpec.Start(old(State()), now)
    {
      startTime := Some(now);
      scheduled := true;
    }

    /** Calls a callback when the caller supplied it. */
    method Fire(present: bool, e: Event)
      modifies this
      ensures State() == AnimateSpec.Fire(old(State()), present, e)
    {
      if present {
        log := log + [e];
      }
    }

    method Complete()
      modifies this
      ensures State() == AnimateSpec.Complete(setting, old(State()))
    {
      InternalReset();
      Fire(setting.callbacks.onComplete, Completed);
    }

    method Repeat(now: real)
      modifies this
      ensures State() == AnimateSpec.Repeat(setting, old(State()), now)
    {
      if !setting.loop {
        return;
      }
      refStart, refEnd := refEnd, refStart;
      InternalReset();
      if setting.loopDelay != 0.0 {
        delayTime := Some(now);
      }
      Start(now);
    }

    method Stop()
      requires Valid()
      modifies this
      ensures State() == AnimateSpec.Stop(setting, old(State())) && Valid()
    {
      StopKeepsValid(setting, State());
      InternalReset();
      InternalResetRefValues();
      Fire(setting.callbacks.onStop, Stopped);
    }

    method Cancel()
      requires Valid()
      modifies this
      ensures State() == AnimateSpec.Cancel(setting, old(State())) && Valid()
    {
      CancelKeepsValid(setting, State());
      InternalReset();
      InternalResetRefValues();
      Fire(setting.callbacks.onUpdate, Updated(setting.from));
    }

    method Play(now: real)
      requires Valid()
      modifies this
      ensures State() == AnimateSpec.Play(setting, old(State()), now) && Valid()
    {
      PlayKeepsValid(setting, State(), now);
      if pausedTime.Some? {
        startTime := Some(now - pausedTime.value as real);
        pausedTime := None;
        if delayTime.Some? {
          delayTime := Some(now - timeHasDelayed);
        }
      } else if startTime.None? {
        InternalReset();
        Start(now);
        Fire(setting.callbacks.onPlay, Played);
      }
    }

    method Pause()
      requires Valid()
      modifies this
      ensures State() == AnimateSpec.Pause(old(State())) && Valid()
    {
      PauseKeepsValid(setting, State());
      if startTime.Some? {
        pausedTime := Some(currentTime);
      }
    }

    /** The frame callback, called by the browser for a requested frame. */
    method Tick(timestamp: real, now: real)
      requires Valid() && scheduled
      modifies this
      ensures State() == AnimateSpec.Tick(setting, old(State()), timestamp, now) && Valid()
    {
      TickKeepsValid(setting, State(), timestamp, now);
      scheduled := false;
      if startTime.None? {
        return;
      }
      AdvanceClock(timestamp);
      var elapsed := currentTime;
      var frame := GeneratorNext(setting, refStart, refEnd, elapsed as real);
      Fire(setting.callbacks.onUpdate, Updated(Shown(setting, frame.value)));
      AfterFrame(frame.done, now);
    }

    /** The clock update at the head of `tick`. */
    method AdvanceClock(timestamp: real)
      requires startTime.Some?
      modifies this
      ensures State() == old(State()).(clock := AnimateSpec.AdvanceClock(old(Clock()), timestamp, setting.loopDelay))
    {
      if pausedTime.Some? {
        currentTime := pausedTime.value;
      } else if delayTime.Some? {
        timeHasDelayed := timestamp - delayTime.value;
        if timeHasDelayed >= Numbers.SecondsToMilliseconds(setting.loopDelay) {
          delayTime := None;
          timeHasDelayed := 0.0;
          startTime := Some(timestamp);
        }
      } else {
        currentTime := Numbers.Round(timestamp - startTime.value);
      }
    }

    /** The end of `tick`: request another frame, or complete and repeat. */
    method AfterFrame(done: bool, now: real)
      modifies this
      ensures State() == AnimateSpec.AfterFrame(setting, old(State()), done, now)
    {
      if !done {
        scheduled := true;
      } else {
        Complete();
        Repeat(now);
      }
    }

    /** `then`: the current completion promise. */
    method Then() returns (p: Option<nat>)
      ensures p == AnimateSpec.Then(State())
      ensures p.Some? <==> generation > 0
    {
      if generation == 0 {
        p := None;
      } else {
        p := Some(generation);
      }
    }
  }

  /** `animate(from, to, options)`: the checks of the factory, then the controls,
      already playing when `autoplay` holds. */
  method Animate(from: Codec.JsValue, to: Codec.JsValue, o: Options, env: Environment, now: real)
    returns (r: Result<Animation>)
    ensures r.Err? <==> Setup(from, to, o, env).Err?
    ensures r.Err? ==> r.error == Setup(from, to, o, env).error
    ensures r.Ok? ==> fresh(r.value) && r.value.Valid() && r.value.setting == Setup(from, to, o, env).value
    ensures r.Ok? ==> r.value.State() == (if AutoplayOf(o) then AnimateSpec.Play(r.value.setting, Initial(r.value.setting), now)
                                          else Initial(r.value.setting))
  {
    var st := Setup(from, to, o, env);
    if st.Err? {
      return Err(st.error);
    }
    var a := new Animation(st.value);
    if st.value.autoplay {
      a.Play(now);
    }
    return Ok(a);
  }
}
