/** The tap input processor of drivers/input/input_processor_tap.c.

    Its touch tracking is the generic detector (the driver carries its own copy
    of the same logic); a touch start additionally arms the tap-decision work.
    When that work runs and the touch has already ended by silence, the
    processor presses key 256 (Zephyr's BTN_0) and arms a second work item that
    releases it 200 ms later. Every event, and both tap work items, also emit
    fixed relative-motion reports (-100, 0) or (+100, +100) which the driver
    sends unconditionally. */
module TapProcessor {
  import opened Wrappers
  import opened Input
  import opened Timer
  import TouchDetection

  /** `struct tap_config` */
  datatype Config = Config(timeout: u8, window: u8)

  const DEFAULT_TIMEOUT: u8 := 50
  const DEFAULT_WINDOW: u8 := 30
  const DefaultConfig: Config := Config(DEFAULT_TIMEOUT, DEFAULT_WINDOW)

  /** Delay between the synthesized press and its release. */
  const RELEASE_DELAY: nat := 200

  /** The key code pressed for a tap. */
  const TAP_KEY: nat := 256

  /** `struct tap_data`: the touch part and the tap part. */
  datatype State = State(touch: TouchDetection.State, isTap: bool, tapTimeout: Deadline, tapEnd: Deadline)

  /** The three work items of the driver. */
  datatype TimerId = TapTimeout | TouchEndTimeout | TapEndTimeout

  function Detection(cfg: Config): TouchDetection.Config
  {
    TouchDetection.Config(cfg.window)
  }

  /** Reports sent at every event and when a tap is released. */
  const MarkerReports: seq<Report> := [RelReport(REL_X, -100, false), RelReport(REL_Y, 0, true)]

  /** Reports sent when a tap is recognised. */
  const PressReports: seq<Report> := [KeyReport(TAP_KEY, 1, false), RelReport(REL_X, 100, false), RelReport(REL_Y, 100, true)]

  /** Reports sent when the tap's key is released. */
  const ReleaseReports: seq<Report> := [KeyReport(TAP_KEY, 0, false)] + MarkerReports

  /** Static initial data plus `tap_init` at time `now`. */
  function Init(now: nat): (s: State)
    ensures !s.touch.touching && !s.isTap && s.touch.last == now
    ensures s.touch.touchEnd == Idle && s.tapTimeout == Idle && s.tapEnd == Idle
  {
    State(TouchDetection.Prepare(now), false, Idle, Idle)
  }

  /** `tap_handle_event`, with `handle_touch_start` inlined. */
  function HandleEvent(cfg: Config, s: State, now: nat, ev: InputEvent): (r: Handled<State, Report>)
    ensures r.verdict == Continue
    ensures r.out == [Report(EV_REL, REL_X, -100, false), Report(EV_REL, REL_Y, 0, true)]
    ensures r.next.touch.last == now
    ensures r.next.touch.touchEnd == Pending(now + cfg.window)
    ensures r.next.touch.touching <==> s.touch.touching || now >= s.touch.last + cfg.window
    ensures r.next.tapTimeout ==
      (if r.next.touch.touching && !s.touch.touching then Pending(now + cfg.timeout) else s.tapTimeout)
    ensures r.next.isTap == s.isTap && r.next.tapEnd == s.tapEnd
  {
    var starts := TouchDetection.StartsTouch(Detection(cfg), s.touch, now);
    var touch := TouchDetection.HandleEvent(Detection(cfg), s.touch, now, ev).next;
    var tap := if starts then Reschedule(now, cfg.timeout) else s.tapTimeout;
    Handled(State(touch, s.isTap, tap, s.tapEnd), MarkerReports, Continue)
  }

  /** `tap_timeout_callback`, run at `now` after the work queue cleared its slot. */
  function TapTimeoutCallback(s: State, now: nat): (r: Transition<State, Report>)
    ensures !r.next.isTap
    ensures r.next.touch == s.touch && r.next.tapTimeout == s.tapTimeout
    ensures s.touch.touching ==> r.out == [] && r.next.tapEnd == s.tapEnd
    ensures !s.touch.touching ==>
      && r.out == [Report(EV_KEY, 256, 1, false), Report(EV_REL, REL_X, 100, false), Report(EV_REL, REL_Y, 100, true)]
      && r.next.tapEnd == Pending(now + 200)
  {
    if s.touch.touching then
      Transition(s.(isTap := false), [])
    else
      Transition(s.(isTap := false, tapEnd := Reschedule(now, RELEASE_DELAY)), PressReports)
  }

  /** `tap_end_timeout_callback` */
  function TapEndTimeoutCallback(s: State): (r: Transition<State, Report>)
    ensures r.next == s
    ensures r.out == [Report(EV_KEY, 256, 0, false), Report(EV_REL, REL_X, -100, false), Report(EV_REL, REL_Y, 0, true)]
  {
    Transition(s, ReleaseReports)
  }

  /** `touch_end_timeout_callback` calling `handle_touch_end`, which only
      clears `touching`: the detector's transition is reused and its end
      notification discarded, since the tap driver has no end hook. */
  function TouchEndTimeoutCallback(s: State): (r: Transition<State, Report>)
    ensures !r.next.touch.touching
    ensures r.next == s.(touch := r.next.touch)
    ensures r.next.touch == s.touch.(touching := false)
    ensures r.out == []
  {
    Transition(s.(touch := TouchDetection.TouchEndTimeoutCallback(s.touch).next), [])
  }

  function Slot(s: State, t: TimerId): Deadline
  {
    match t
    case TapTimeout => s.tapTimeout
    case TouchEndTimeout => s.touch.touchEnd
    case TapEndTimeout => s.tapEnd
  }

  /** One action: an event, or one of the work items running once its deadline
      has been reached. `None` when that work item is not due. */
  function Step(cfg: Config, s: State, a: Action<TimerId>): (r: Option<Transition<State, Report>>)
    ensures r.Some? <==> a.Event? || Due(Slot(s, a.timer), a.now)
    ensures r.Some? && a.Fire? ==> Slot(r.value.next, a.timer) == Idle
  {
    match a
    case Event(now, ev) =>
      var h := HandleEvent(cfg, s, now, ev);
      Some(Transition(h.next, h.out))
    case Fire(t, now) =>
      if !Due(Slot(s, t), now) then None
      else match t
        case TapTimeout => Some(TapTimeoutCallback(s.(tapTimeout := Idle), now))
        case TouchEndTimeout => Some(TouchEndTimeoutCallback(s.(touch := s.touch.(touchEnd := Idle))))
        case TapEndTimeout => Some(TapEndTimeoutCallback(s.(tapEnd := Idle)))
  }

  /** `Step` under a fixed configuration, as a function value. */
  function StepFn(cfg: Config): (State, Action<TimerId>) -> Option<Transition<State, Report>>
  {
    (s, a) => Step(cfg, s, a)
  }

  /** A sequence of actions, with the reports emitted along the way. */
  function Run(cfg: Config, s: State, acts: seq<Action<TimerId>>): Option<Transition<State, Report>>
  {
    RunSteps(StepFn(cfg), s, acts)
  }

  /** The detector's invariant on the touch part, and `is_tap` never set. */
  predicate Inv(cfg: Config, s: State)
  {
    TouchDetection.Inv(Detection(cfg), s.touch) && !s.isTap
  }

  lemma InitEstablishesInv(cfg: Config, now: nat)
    ensures Inv(cfg, Init(now))
  {
  }

  lemma StepPreservesInv(cfg: Config, s: State, a: Action<TimerId>)
    requires Inv(cfg, s)
    requires Step(cfg, s, a).Some?
    ensures Inv(cfg, Step(cfg, s, a).value.next)
  {
  }

  lemma RunPreservesInv(cfg: Config, s: State, acts: seq<Action<TimerId>>)
    requires Inv(cfg, s)
    requires Run(cfg, s, acts).Some?
    ensures Inv(cfg, Run(cfg, s, acts).value.next)
    ensures Run(cfg, s, acts).value.next.touch.touching ==> Run(cfg, s, acts).value.next.touch.touchEnd.Pending?
    ensures !Run(cfg, s, acts).value.next.isTap
  {
    forall s': State, a: Action<TimerId> | Inv(cfg, s') && Step(cfg, s', a).Some?
      ensures Inv(cfg, Step(cfg, s', a).value.next)
    {
      StepPreservesInv(cfg, s', a);
    }
    RunStepsPreserves(StepFn(cfg), s' => Inv(cfg, s'), s, acts);
  }

  /** The actions the touch part sees: events and touch-end firings. */
  function TouchActions(acts: seq<Action<TimerId>>): seq<Action<TouchDetection.TimerId>>
    decreases |acts|
  {
    if acts == [] then []
    else
      var rest := TouchActions(acts[1..]);
      match acts[0]
      case Event(now, ev) => [Event(now, ev)] + rest
      case Fire(TouchEndTimeout, now) => [Fire(TouchDetection.TouchEndTimeout, now)] + rest
      case Fire(_, _) => rest
  }

  /** The touch part of the tap processor runs exactly as the generic detector
      on the events and touch-end firings, whatever the tap work items do in
      between. */
  lemma {:induction false} TouchPartIsDetector(cfg: Config, s: State, acts: seq<Action<TimerId>>)
    requires Run(cfg, s, acts).Some?
    ensures TouchDetection.Run(Detection(cfg), s.touch, TouchActions(acts)).Some?
    ensures TouchDetection.Run(Detection(cfg), s.touch, TouchActions(acts)).value.next == Run(cfg, s, acts).value.next.touch
    decreases |acts|
  {
    if acts != [] {
      var t := Step(cfg, s, acts[0]).value;
      TouchPartIsDetector(cfg, t.next, acts[1..]);
      var rest := TouchActions(acts[1..]);
      match acts[0]
      case Event(now, ev) =>
        assert TouchActions(acts) == [Event(now, ev)] + rest;
        assert ([Event(now, ev)] + rest)[1..] == rest;
      case Fire(TouchEndTimeout, now) =>
        assert TouchActions(acts) == [Fire(TouchDetection.TouchEndTimeout, now)] + rest;
        assert ([Fire(TouchDetection.TouchEndTimeout, now)] + rest)[1..] == rest;
      case Fire(_, _) =>
        assert TouchActions(acts) == rest;
    }
  }

  /** Between two touch starts of the tap processor its touch-end work has run:
      the start and end notifications of its touch part alternate. */
  lemma TouchStartsSeparatedByEnd(cfg: Config, s: State, acts: seq<Action<TimerId>>)
    requires Run(cfg, s, acts).Some?
    ensures var d := TouchDetection.Run(Detection(cfg), s.touch, TouchActions(acts));
      && d.Some?
      && d.value.next == Run(cfg, s, acts).value.next.touch
      && forall i, j :: 0 <= i < j < |d.value.out| && d.value.out[i] == TouchDetection.TouchStart && d.value.out[j] == TouchDetection.TouchStart ==>
        exists k :: i < k < j && d.value.out[k] == TouchDetection.TouchEnd
  {
    TouchPartIsDetector(cfg, s, acts);
    TouchDetection.StartsSeparatedByEnd(Detection(cfg), s.touch, TouchActions(acts));
  }

  /** A touch that starts at `t` and then falls silent is a tap: the touch-end
      work runs once the window has passed, the tap work after it finds the
      device no longer touching and presses the key, and the release follows
      200 ms later. */
  lemma QuietTouchIsTap(cfg: Config, s: State, ev: InputEvent, t: nat, t1: nat, t2: nat, t3: nat)
    requires Inv(cfg, s)
    requires !s.touch.touching && t >= s.touch.last + cfg.window
    requires t + cfg.window <= t1 <= t2 && t + cfg.timeout <= t2 && t2 + RELEASE_DELAY <= t3
    ensures var acts := [Event(t, ev), Fire(TouchEndTimeout, t1), Fire(TapTimeout, t2), Fire(TapEndTimeout, t3)];
      var r := Run(cfg, s, acts);
      && Ordered(acts)
      && r.Some?
      && r.value.out == MarkerReports + PressReports + ReleaseReports
      && !r.value.next.touch.touching
      && r.value.next.tapTimeout == Idle && r.value.next.tapEnd == Idle
  {
    var acts := [Event(t, ev), Fire(TouchEndTimeout, t1), Fire(TapTimeout, t2), Fire(TapEndTimeout, t3)];
    var s1 := Step(cfg, s, acts[0]).value.next;
    var s2 := Step(cfg, s1, acts[1]).value.next;
    var s3 := Step(cfg, s2, acts[2]).value.next;
    RunStepsCons(StepFn(cfg), s3, acts[3], []);
    RunStepsCons(StepFn(cfg), s2, acts[2], [acts[3]]);
    RunStepsCons(StepFn(cfg), s1, acts[1], [acts[2], acts[3]]);
    RunStepsCons(StepFn(cfg), s, acts[0], [acts[1], acts[2], acts[3]]);
    assert acts == [acts[0]] + [acts[1], acts[2], acts[3]];
  }

  /** The per-event reports of `n` events. */
  function MarkersFor(n: nat): seq<Report>
  {
    if n == 0 then [] else MarkerReports + MarkersFor(n - 1)
  }

  /** `s` with its touch held since an event at `last`. */
  function Held(cfg: Config, s: State, last: nat): State
  {
    s.(touch := TouchDetection.State(true, last, Pending(last + cfg.window)))
  }

  /** An event during a touch only moves the touch-end deadline along. */
  lemma HeldEventStep(cfg: Config, s: State, now: nat, ev: InputEvent)
    requires s.touch.touching
    ensures StepFn(cfg)(s, Event(now, ev)) == Some(Transition(Held(cfg, s, now), MarkerReports))
  {
  }

  /** An event that starts a touch also arms the tap work one timeout later. */
  lemma StartEventStep(cfg: Config, s: State, now: nat, ev: InputEvent)
    requires !s.touch.touching && now >= s.touch.last + cfg.window
    ensures StepFn(cfg)(s, Event(now, ev)) ==
      Some(Transition(Held(cfg, s, now).(tapTimeout := Pending(now + cfg.timeout)), MarkerReports))
  {
  }

  /** The tap work, run while touching, only clears its slot and `is_tap`. */
  lemma TapWhileTouchingStep(cfg: Config, s: State, now: nat)
    requires s.touch.touching && Due(s.tapTimeout, now)
    ensures StepFn(cfg)(s, Fire(TapTimeout, now)) == Some(Transition(s.(tapTimeout := Idle, isTap := false), []))
  {
  }

  /** While a touch is going on, further events keep it going: each emits only
      the per-event reports and moves the touch-end deadline along, and the
      tap part is left alone. */
  lemma {:induction false} HeldEventsKeepTouch(cfg: Config, s: State, times: seq<nat>, ev: InputEvent)
    requires s.touch.touching
    ensures Run(cfg, s, Events(times, ev)) ==
      Some(Transition(if times == [] then s else Held(cfg, s, times[|times| - 1]), MarkersFor(|times|)))
    decreases |times|
  {
    if times == [] {
      assert Events<TimerId>(times, ev) == [];
      assert Run(cfg, s, []) == Some(Transition(s, []));
    } else {
      var s1 := Held(cfg, s, times[0]);
      HeldEventStep(cfg, s, times[0], ev);
      HeldEventsKeepTouch(cfg, s1, times[1..], ev);
      EventsCons<TimerId>(times, ev);
      RunStepsCons(StepFn(cfg), s, Event(times[0], ev), Events(times[1..], ev));
      assert MarkersFor(|times|) == MarkerReports + MarkersFor(|times[1..]|);
      if |times| > 1 {
        assert times[1..][|times[1..]| - 1] == times[|times| - 1];
        assert Held(cfg, s1, times[|times| - 1]) == Held(cfg, s, times[|times| - 1]);
      }
    }
  }

  /** An event that starts a touch, followed by further events: one touch,
      held through the last of them, whose tap work is due one timeout after
      the first. */
  lemma StartThenHold(cfg: Config, s: State, ev: InputEvent, times: seq<nat>)
    requires |times| > 0
    requires !s.touch.touching && times[0] >= s.touch.last + cfg.window
    ensures Run(cfg, s, Events(times, ev)) ==
      Some(Transition(Held(cfg, s, times[|times| - 1]).(tapTimeout := Pending(times[0] + cfg.timeout)), MarkersFor(|times|)))
  {
    var rest := times[1..];
    var s1 := Held(cfg, s, times[0]).(tapTimeout := Pending(times[0] + cfg.timeout));
    StartEventStep(cfg, s, times[0], ev);
    HeldEventsKeepTouch(cfg, s1, rest, ev);
    EventsCons<TimerId>(times, ev);
    RunStepsCons(StepFn(cfg), s, Event(times[0], ev), Events(rest, ev));
    assert MarkersFor(|times|) == MarkerReports + MarkersFor(|rest|);
    if rest != [] {
      assert rest[|rest| - 1] == times[|times| - 1];
      assert Held(cfg, s1, rest[|rest| - 1]) == Held(cfg, s, times[|times| - 1]).(tapTimeout := Pending(times[0] + cfg.timeout));
    }
  }

  /** A touch that is still going on when its tap work runs is not a tap.
      Events keep arriving, each inside the window of its predecessor, past
      the tap deadline; the tap work runs before the window of the last of
      them closes, so before the touch-end work is due. It finds the device
      touching: only the per-event reports are emitted, no release is
      scheduled, and the touch-end work is still not due. */
  lemma HeldTouchIsNotTap(cfg: Config, s: State, ev: InputEvent, times: seq<nat>, t2: nat)
    requires |times| > 0
    requires !s.touch.touching && times[0] >= s.touch.last + cfg.window
    requires forall i :: 0 < i < |times| ==> times[i - 1] <= times[i] < times[i - 1] + cfg.window
    requires times[|times| - 1] <= t2 && times[0] + cfg.timeout <= t2 < times[|times| - 1] + cfg.window
    ensures var acts := Events(times, ev) + [Fire(TapTimeout, t2)];
      var r := Run(cfg, s, acts);
      && Ordered(acts)
      && r.Some?
      && r.value.out == MarkersFor(|times|)
      && r.value.next.touch.touching
      && r.value.next.tapEnd == s.tapEnd
      && r.value.next.tapTimeout == Idle
      && Step(cfg, r.value.next, Fire(TouchEndTimeout, t2)) == None
  {
    var acts := Events<TimerId>(times, ev) + [Fire(TapTimeout, t2)];
    StartThenHold(cfg, s, ev, times);
    var s2 := Held(cfg, s, times[|times| - 1]).(tapTimeout := Pending(times[0] + cfg.timeout));
    var s3 := s2.(tapTimeout := Idle, isTap := false);
    TapWhileTouchingStep(cfg, s2, t2);
    RunStepsCons(StepFn(cfg), s2, Fire(TapTimeout, t2), []);
    assert [Fire(TapTimeout, t2)] + [] == [Fire(TapTimeout, t2)];
    assert Run(cfg, s3, []) == Some(Transition(s3, []));
    RunStepsAppend(StepFn(cfg), s, Events(times, ev), [Fire(TapTimeout, t2)]);
    assert Run(cfg, s, acts) == Some(Transition(s3, MarkersFor(|times|) + ([] + [])));
    forall i | 0 < i < |acts|
      ensures acts[i - 1].now <= acts[i].now
    {
      if i == |times| {
        assert acts[i - 1] == Event(times[|times| - 1], ev);
      }
    }
  }

  /** With a tap timeout longer than twice the window (100 ms against 30 ms),
      a touch held by events every 25 ms from 30 ms to 130 ms is still going
      on when its tap work runs at 130 ms, and nothing is pressed. */
  lemma LongTimeoutHeldTouch(ev: InputEvent)
    ensures var acts := Events<TimerId>([30, 55, 80, 105, 130], ev) + [Fire(TapTimeout, 130)];
      var r := Run(Config(100, 30), Init(0), acts);
      && Ordered(acts)
      && r.Some?
      && r.value.out == MarkersFor(5)
      && r.value.next.touch.touching
      && r.value.next.tapEnd == Idle
  {
    HeldTouchIsNotTap(Config(100, 30), Init(0), ev, [30, 55, 80, 105, 130], 130);
  }

  /** With the default configuration, starting at initialisation time 0: an
      event at 29 ms is still inside the initial window and starts nothing, one
      at 30 ms starts a touch whose tap work is due at 80 ms and not before;
      silence then gives a press at 80 ms and the release at 280 ms. */
  lemma DefaultTiming(ev: InputEvent)
    ensures !HandleEvent(DefaultConfig, Init(0), 29, ev).next.touch.touching
    ensures var s1 := HandleEvent(DefaultConfig, Init(0), 30, ev).next;
      && s1.touch.touching
      && Step(DefaultConfig, s1, Fire(TapTimeout, 79)) == None
      && Step(DefaultConfig, s1, Fire(TouchEndTimeout, 59)) == None
    ensures var acts := [Event(30, ev), Fire(TouchEndTimeout, 60), Fire(TapTimeout, 80), Fire(TapEndTimeout, 280)];
      var r := Run(DefaultConfig, Init(0), acts);
      && Ordered(acts)
      && r.Some?
      && r.value.out == MarkerReports + PressReports + ReleaseReports
  {
    QuietTouchIsTap(DefaultConfig, Init(0), ev, 30, 60, 80, 280);
  }

  /** The driver's decision for a touch that falls silent right after it
      starts, each work item running exactly at its deadline. When the
      touch-end window is no longer than the tap timeout, the touch-end work
      comes first and the tap work presses the key; when the timeout is
      shorter, the tap work runs while the device is still touching and
      nothing is pressed. */
  lemma SilentTouchDecision(cfg: Config, s: State, ev: InputEvent, t: nat)
    requires Inv(cfg, s)
    requires !s.touch.touching && t >= s.touch.last + cfg.window
    ensures cfg.window <= cfg.timeout ==>
      var acts := [Event(t, ev), Fire(TouchEndTimeout, t + cfg.window), Fire(TapTimeout, t + cfg.timeout)];
      var r := Run(cfg, s, acts);
      && Ordered(acts)
      && r.Some?
      && r.value.out == MarkerReports + PressReports
      && r.value.next.tapEnd == Pending(t + cfg.timeout + RELEASE_DELAY)
    ensures cfg.timeout < cfg.window ==>
      var acts := [Event(t, ev), Fire(TapTimeout, t + cfg.timeout), Fire(TouchEndTimeout, t + cfg.window)];
      var r := Run(cfg, s, acts);
      && Ordered(acts)
      && r.Some?
      && r.value.out == MarkerReports
      && r.value.next.tapEnd == s.tapEnd
      && !r.value.next.touch.touching
  {
    var s1 := Step(cfg, s, Event(t, ev)).value.next;
    assert s1.touch.touching && s1.tapTimeout == Pending(t + cfg.timeout);
    if cfg.window <= cfg.timeout {
      var acts := [Event(t, ev), Fire(TouchEndTimeout, t + cfg.window), Fire(TapTimeout, t + cfg.timeout)];
      var s2 := Step(cfg, s1, acts[1]).value.next;
      RunStepsCons(StepFn(cfg), s2, acts[2], []);
      RunStepsCons(StepFn(cfg), s1, acts[1], [acts[2]]);
      RunStepsCons(StepFn(cfg), s, acts[0], [acts[1], acts[2]]);
      assert acts == [acts[0]] + [acts[1], acts[2]];
    } else {
      var acts := [Event(t, ev), Fire(TapTimeout, t + cfg.timeout), Fire(TouchEndTimeout, t + cfg.window)];
      var s2 := Step(cfg, s1, acts[1]).value.next;
      RunStepsCons(StepFn(cfg), s2, acts[2], []);
      RunStepsCons(StepFn(cfg), s1, acts[1], [acts[2]]);
      RunStepsCons(StepFn(cfg), s, acts[0], [acts[1], acts[2]]);
      assert acts == [acts[0]] + [acts[1], acts[2]];
    }
  }

  /** Every press is followed by its release: the tap work that presses the
      key arms the release work exactly 200 ms later and not before, and that
      work reports the release and leaves everything else as it was. */
  lemma PressIsReleased(cfg: Config, s: State, now: nat)
    requires !s.touch.touching && Due(s.tapTimeout, now)
    ensures var p := Step(cfg, s, Fire(TapTimeout, now)).value;
      && p.out == PressReports
      && (forall t: nat :: t < now + RELEASE_DELAY ==> Step(cfg, p.next, Fire(TapEndTimeout, t)) == None)
      && Step(cfg, p.next, Fire(TapEndTimeout, now + RELEASE_DELAY)) == Some(Transition(p.next.(tapEnd := Idle), ReleaseReports))
  {
  }
}
