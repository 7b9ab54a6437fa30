/** The absolute-to-relative translator of
    drivers/input/input_processor_absolute_to_relative.c.

    The processor keeps one baseline per axis (stored as `uint16_t`) and turns
    absolute X and Y samples into HID mouse movement. Its `touching` flag is
    never set (the driver's touch-start handler has no caller), so the time gap
    alone decides: an event outside the window of the previous one is fresh and
    only records its axis' baseline; any other event is a continuation and
    reports movement. The movement call of an X sample carries the absolute Y
    baseline as its second argument, and that of a Y sample carries the X
    baseline as its first: the model keeps these arguments as the driver
    passes them. */
module AbsoluteToRelative {
  import opened Wrappers
  import opened Input
  import opened Timer

  /** `struct absolute_to_relative_config` */
  datatype Config = Config(window: u8)

  const DEFAULT_WINDOW: u8 := 30
  const DefaultConfig: Config := Config(DEFAULT_WINDOW)

  /** `struct absolute_to_relative_data` */
  datatype State = State(prevX: u16, prevY: u16, touching: bool, last: nat, touchEnd: Deadline)

  /** The HID calls the driver makes: `zmk_hid_mouse_movement_update(x, y)` and
      `zmk_usb_hid_send_mouse_report()`. */
  datatype HidCall = MovementUpdate(x: int, y: int) | SendMouseReport

  /** The driver owns a single work item. */
  datatype TimerId = TouchEndTimeout

  /** Static initial data plus `absolute_to_relative_init` at time `now`. */
  function Init(now: nat): (s: State)
    ensures !s.touching && s.last == now && s.touchEnd == Idle
    ensures s.prevX == 0 && s.prevY == 0
  {
    State(0, 0, false, now, Idle)
  }

  /** The condition of the driver's first branch: the event opens a new stroke. */
  predicate IsFresh(cfg: Config, s: State, now: nat)
  {
    !s.touching && !IsShortlyAfter(cfg.window, s.last, now)
  }

  /** The HID calls of a continuation event. */
  function Movement(s: State, ev: InputEvent): seq<HidCall>
  {
    if IsAbsX(ev) then [MovementUpdate(ev.value - s.prevX, s.prevY), SendMouseReport]
    else if IsAbsY(ev) then [MovementUpdate(s.prevX, ev.value - s.prevY), SendMouseReport]
    else if ev.evType == EV_ABS then [SendMouseReport]
    else []
  }

  /** `absolute_to_relative_handle_event`. Both branches leave the sampled
      axis' baseline at the new value, so the branches differ only in what is
      reported. */
  function HandleEvent(cfg: Config, s: State, now: nat, ev: InputEvent): (r: Handled<State, HidCall>)
    ensures r.verdict == Continue
    ensures r.next.last == now && r.next.touchEnd == Pending(now + cfg.window)
    ensures r.next.touching == s.touching
    ensures IsAbsX(ev) ==> r.next.prevX == ToU16(ev.value) && r.next.prevY == s.prevY
    ensures IsAbsY(ev) ==> r.next.prevY == ToU16(ev.value) && r.next.prevX == s.prevX
    ensures !IsAbsX(ev) && !IsAbsY(ev) ==> r.next.prevX == s.prevX && r.next.prevY == s.prevY
    ensures !s.touching && now >= s.last + cfg.window ==> r.out == []
    ensures ev.evType != EV_ABS ==> r.out == []
    ensures (s.touching || now < s.last + cfg.window) && IsAbsX(ev) ==>
      r.out == [MovementUpdate(ev.value - s.prevX, s.prevY), SendMouseReport]
    ensures (s.touching || now < s.last + cfg.window) && IsAbsY(ev) ==>
      r.out == [MovementUpdate(s.prevX, ev.value - s.prevY), SendMouseReport]
    ensures (s.touching || now < s.last + cfg.window) && ev.evType == EV_ABS && !IsAbsX(ev) && !IsAbsY(ev) ==>
      r.out == [SendMouseReport]
  {
    var x := if IsAbsX(ev) then ToU16(ev.value) else s.prevX;
    var y := if IsAbsY(ev) then ToU16(ev.value) else s.prevY;
    var out := if IsFresh(cfg, s, now) then [] else Movement(s, ev);
    Handled(State(x, y, s.touching, now, Reschedule(now, cfg.window)), out, Continue)
  }

  /** `touch_end_timeout_callback` calling `handle_touch_end`, run after the
      work queue cleared the slot. */
  function TouchEndTimeoutCallback(s: State): (r: Transition<State, HidCall>)
    ensures !r.next.touching && r.next.prevX == 0 && r.next.prevY == 0
    ensures r.next.last == s.last && r.next.touchEnd == s.touchEnd
    ensures r.out == []
  {
    Transition(s.(touching := false, prevX := 0, prevY := 0), [])
  }

  /** One action: an event, or the touch-end work running once its deadline
      has been reached. `None` when the work is not due. */
  function Step(cfg: Config, s: State, a: Action<TimerId>): (r: Option<Transition<State, HidCall>>)
    ensures r.Some? <==> a.Event? || Due(s.touchEnd, a.now)
    ensures r.Some? && a.Fire? ==> r.value.next.touchEnd == Idle
  {
    match a
    case Event(now, ev) =>
      var h := HandleEvent(cfg, s, now, ev);
      Some(Transition(h.next, h.out))
    case Fire(TouchEndTimeout, now) =>
      if Due(s.touchEnd, now) then Some(TouchEndTimeoutCallback(s.(touchEnd := Idle))) else None
  }

  /** `Step` under a fixed configuration, as a function value. */
  function StepFn(cfg: Config): (State, Action<TimerId>) -> Option<Transition<State, HidCall>>
  {
    (s, a) => Step(cfg, s, a)
  }

  /** A sequence of actions, with the HID calls made along the way. */
  function Run(cfg: Config, s: State, acts: seq<Action<TimerId>>): Option<Transition<State, HidCall>>
  {
    RunSteps(StepFn(cfg), s, acts)
  }

  /** Never touching, and a pending touch-end deadline lies exactly one window
      after the latest event. */
  predicate Inv(cfg: Config, s: State)
  {
    && !s.touching
    && (s.touchEnd.Pending? ==> s.touchEnd.at == s.last + cfg.window)
  }

  lemma StepPreservesInv(cfg: Config, s: State, a: Action<TimerId>)
    requires Inv(cfg, s)
    requires Step(cfg, s, a).Some?
    ensures Inv(cfg, Step(cfg, s, a).value.next)
  {
  }

  lemma RunPreservesInv(cfg: Config, s: State, acts: seq<Action<TimerId>>)
    requires Inv(cfg, s)
    requires Run(cfg, s, acts).Some?
    ensures Inv(cfg, Run(cfg, s, acts).value.next)
  {
    forall s': State, a: Action<TimerId> | Inv(cfg, s') && Step(cfg, s', a).Some?
      ensures Inv(cfg, Step(cfg, s', a).value.next)
    {
      StepPreservesInv(cfg, s', a);
    }
    RunStepsPreserves(StepFn(cfg), s' => Inv(cfg, s'), s, acts);
  }

  /** In every state reachable from initialisation the processor is not
      touching, so an event is fresh exactly when it is not shortly after the
      previous one. */
  lemma NeverTouching(cfg: Config, t0: nat, acts: seq<Action<TimerId>>, now: nat)
    requires Run(cfg, Init(t0), acts).Some?
    ensures var s := Run(cfg, Init(t0), acts).value.next;
      && !s.touching
      && (IsFresh(cfg, s, now) <==> now >= s.last + cfg.window)
  {
    RunPreservesInv(cfg, Init(t0), acts);
  }

  /** The touch-end work cannot run while the window of the latest event is open. */
  lemma NoEndWithinWindow(cfg: Config, s: State, now: nat)
    requires Inv(cfg, s)
    requires now < s.last + cfg.window
    ensures Step(cfg, s, Fire(TouchEndTimeout, now)) == None
  {
  }

  /** After the touch-end work has run, both baselines are zero and the next
      event, being no earlier than the firing, is fresh: it reports nothing. */
  lemma EndThenFresh(cfg: Config, s: State, t1: nat, t2: nat, ev: InputEvent)
    requires Inv(cfg, s)
    requires Due(s.touchEnd, t1)
    requires t1 <= t2
    ensures var s1 := Step(cfg, s, Fire(TouchEndTimeout, t1)).value.next;
      && s1.prevX == 0 && s1.prevY == 0
      && IsFresh(cfg, s1, t2)
      && HandleEvent(cfg, s1, t2, ev).out == []
  {
  }

  /** A timed absolute sample. */
  datatype Sample = Sample(at: nat, value: i32)

  /** The samples delivered as ABS_X events. */
  function XEvents(samples: seq<Sample>): (acts: seq<Action<TimerId>>)
    ensures |acts| == |samples|
    ensures forall i :: 0 <= i < |samples| ==>
      acts[i] == Event(samples[i].at, InputEvent(EV_ABS, ABS_X, samples[i].value))
  {
    seq(|samples|, i requires 0 <= i < |samples| => Event(samples[i].at, InputEvent(EV_ABS, ABS_X, samples[i].value)))
  }

  /** Reference definition of the HID calls a continuing X stroke should make:
      one movement update and one report per sample, each delta taken from the
      truncated previous sample, starting from baseline `base`. */
  function XDeltas(base: u16, y: u16, samples: seq<Sample>): seq<HidCall>
    decreases |samples|
  {
    if samples == [] then []
    else [MovementUpdate(samples[0].value - base, y), SendMouseReport] + XDeltas(ToU16(samples[0].value), y, samples[1..])
  }

  /** A continuing stroke of X samples, each inside the window of its
      predecessor, makes exactly the reference HID calls and leaves the Y
      baseline alone. */
  lemma {:induction false} ContinuingXStroke(cfg: Config, s: State, samples: seq<Sample>)
    requires |samples| > 0 ==> IsShortlyAfter(cfg.window, s.last, samples[0].at)
    requires forall i :: 0 < i < |samples| ==> IsShortlyAfter(cfg.window, samples[i - 1].at, samples[i].at)
    ensures var r := Run(cfg, s, XEvents(samples));
      && r.Some?
      && r.value.out == XDeltas(s.prevX, s.prevY, samples)
      && r.value.next.prevY == s.prevY
      && r.value.next.prevX == (if samples == [] then s.prevX else ToU16(samples[|samples| - 1].value))
      && r.value.next.touching == s.touching
    decreases |samples|
  {
    if samples != [] {
      var s1 := Step(cfg, s, XEvents(samples)[0]).value.next;
      assert XEvents(samples)[1..] == XEvents(samples[1..]);
      forall i | 0 < i < |samples[1..]|
        ensures IsShortlyAfter(cfg.window, samples[1..][i - 1].at, samples[1..][i].at)
      {
        assert samples[1..][i] == samples[i + 1];
      }
      ContinuingXStroke(cfg, s1, samples[1..]);
    }
  }

  /** The reference calls of a stroke read position by position: for `n`
      samples there are `n - 1` movement updates, each followed by a mouse
      report, and the `j`-th update carries the difference between sample
      `j + 1` and the truncated sample `j`. */
  lemma {:induction false} StrokeShape(y: u16, samples: seq<Sample>)
    requires |samples| > 0
    ensures var out := XDeltas(ToU16(samples[0].value), y, samples[1..]);
      && |out| == 2 * (|samples| - 1)
      && forall j :: 0 <= j < |samples| - 1 ==>
        && out[2 * j] == MovementUpdate(samples[j + 1].value - ToU16(samples[j].value), y)
        && out[2 * j + 1] == SendMouseReport
    decreases |samples|
  {
    var rest := samples[1..];
    var out := XDeltas(ToU16(samples[0].value), y, rest);
    if |rest| > 0 {
      StrokeShape(y, rest);
      var tail := XDeltas(ToU16(rest[0].value), y, rest[1..]);
      assert out == [MovementUpdate(rest[0].value - ToU16(samples[0].value), y), SendMouseReport] + tail;
      forall j | 1 <= j < |samples| - 1
        ensures out[2 * j] == MovementUpdate(samples[j + 1].value - ToU16(samples[j].value), y)
        ensures out[2 * j + 1] == SendMouseReport
      {
        assert out[2 * j] == tail[2 * (j - 1)];
        assert out[2 * j + 1] == tail[2 * (j - 1) + 1];
        assert rest[j] == samples[j + 1] && rest[j - 1] == samples[j];
      }
    }
  }

  /** A fresh X sample followed by further X samples, each inside the window of
      its predecessor: the first reports nothing and each later one reports its
      difference to the truncated previous sample, so `n` samples make `n - 1`
      movement updates and `n - 1` mouse reports. */
  lemma XStrokeDeltas(cfg: Config, s: State, samples: seq<Sample>)
    requires |samples| > 0
    requires IsFresh(cfg, s, samples[0].at)
    requires forall i :: 0 < i < |samples| ==> IsShortlyAfter(cfg.window, samples[i - 1].at, samples[i].at)
    ensures var r := Run(cfg, s, XEvents(samples));
      && r.Some?
      && |r.value.out| == 2 * (|samples| - 1)
      && (forall j :: 0 <= j < |samples| - 1 ==>
           && r.value.out[2 * j] == MovementUpdate(samples[j + 1].value - ToU16(samples[j].value), s.prevY)
           && r.value.out[2 * j + 1] == SendMouseReport)
      && r.value.next.prevX == ToU16(samples[|samples| - 1].value)
      && r.value.next.prevY == s.prevY
  {
    var rest := samples[1..];
    var s1 := HandleEvent(cfg, s, samples[0].at, InputEvent(EV_ABS, ABS_X, samples[0].value)).next;
    assert Step(cfg, s, XEvents(samples)[0]) == Some(Transition(s1, []));
    assert XEvents(samples)[1..] == XEvents(rest);
    forall i | 0 < i < |rest|
      ensures IsShortlyAfter(cfg.window, rest[i - 1].at, rest[i].at)
    {
      assert rest[i] == samples[i + 1];
    }
    ContinuingXStroke(cfg, s1, rest);
    var r1 := Run(cfg, s1, XEvents(rest)).value;
    assert [] + r1.out == r1.out;
    assert Run(cfg, s, XEvents(samples)) == Some(r1);
    StrokeShape(s.prevY, samples);
  }

  /** Two X samples 5 ms apart after a quiet period: the first only sets the
      baseline, the second reports +5; the stroke then ends by silence. */
  lemma TwoSampleStroke(t: nat)
    requires t >= DEFAULT_WINDOW
    ensures var acts := [Event(t, InputEvent(EV_ABS, ABS_X, 10)), Event(t + 5, InputEvent(EV_ABS, ABS_X, 15)),
                         Fire(TouchEndTimeout, t + 5 + DEFAULT_WINDOW)];
      var r := Run(DefaultConfig, Init(0), acts);
      && Ordered(acts)
      && r.Some?
      && r.value.out == [MovementUpdate(5, 0), SendMouseReport]
      && r.value.next == Init(t + 5)
  {
    var acts := [Event(t, InputEvent(EV_ABS, ABS_X, 10)), Event(t + 5, InputEvent(EV_ABS, ABS_X, 15)),
                 Fire(TouchEndTimeout, t + 5 + DEFAULT_WINDOW)];
    var s1 := Step(DefaultConfig, Init(0), acts[0]).value.next;
    var s2 := Step(DefaultConfig, s1, acts[1]).value.next;
    var s3 := Step(DefaultConfig, s2, acts[2]).value.next;
    RunStepsCons(StepFn(DefaultConfig), s2, acts[2], []);
    RunStepsCons(StepFn(DefaultConfig), s1, acts[1], [acts[2]]);
    RunStepsCons(StepFn(DefaultConfig), Init(0), acts[0], [acts[1], acts[2]]);
    assert acts == [acts[0]] + [acts[1], acts[2]];
  }
}
