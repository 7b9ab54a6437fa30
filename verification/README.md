# ZMK touch input processors in Dafny

A model of three small timer-driven state machines from the ZMK input-processor
drivers of a capacitive touchpad:

- the generic **touch detector** (`drivers/input/touch_detection.c`): every event
  re-arms a sliding inactivity deadline and records its timestamp; an event
  starts a touch when the device is not touching and the event is not shortly
  after the previous one; only the firing of the inactivity deadline ends a
  touch;
- the **tap processor** (`drivers/input/input_processor_tap.c`): the same touch
  tracking, plus a tap-decision work item armed at every touch start; when it
  runs and the touch has already ended, key 256 is pressed and a second work
  item releases it 200 ms later;
- the **absolute-to-relative translator**
  (`drivers/input/input_processor_absolute_to_relative.c`): per-axis baselines
  that turn ABS_X / ABS_Y samples into HID mouse movement.

Each processor is an immutable state record with pure transition functions. An
action is either `Event(now, ev)` or `Fire(timer, now)`. A Zephyr delayable work
item is a deadline slot (`Timer.Deadline`): rescheduling overwrites it, a fire is
enabled only when the slot is pending and its deadline has been reached, and
firing clears the slot before the callback runs. `Step` returns `None` for a
fire that is not enabled, and `Run` folds `Step` over a sequence of actions,
concatenating the outputs (`Input.RunSteps`, written once for all three
processors). Time is a `nat` passed in with every action; `Input.Ordered` says
that the times of a sequence of actions never decrease.

Outputs are what the drivers hand to their collaborators, in call order:
`Input.Report` records for `input_report_rel` / `input_report_key`,
`AbsoluteToRelative.HidCall` records for `zmk_hid_mouse_movement_update` /
`zmk_usb_hid_send_mouse_report`, and `TouchDetection.Hook` records for the
configuration's `touch_start` / `touch_end` hooks.

The tap processor is modelled by composition. Its touch part is a
`TouchDetection.State`, and its event handler calls the detector's. The driver
carries its own copy of the same logic. `TapProcessor.TouchPartIsDetector`
proves that the tap processor's touch part evolves exactly like the detector on
the same events and touch-end firings.

Behaviour the model reproduces as the code has it:

- The translator never sets `touching`. Its touch-start handler
  (`input_processor_absolute_to_relative.c:31-35`) has no caller. So only the
  time gap decides between a fresh event and a continuation, and a touch-end
  firing only zeroes both baselines.
- A fresh translator event records only its own axis' baseline. It does not
  clear the other axis' baseline.
- In the translator's continuation branch, every ABS event sends a mouse
  report, including one whose code is neither X nor Y. Line 70 sits outside the
  X/Y branches.
- The movement call for an X sample passes the absolute Y baseline as its y
  argument. The call for a Y sample passes the absolute X baseline as its x
  argument (lines 64 and 67).
- The tap processor emits the fixed relative reports (-100, 0) at every event
  and at the tap release, and (+100, +100) at the tap press.
- `is_tap` is only ever set to false.

Event type and code values are those of Zephyr's input event codes: EV_KEY 1,
EV_REL 2, EV_ABS 3, REL_X/ABS_X 0, REL_Y/ABS_Y 1, and key 256 is BTN_0. That
header is not part of this model.

## Model

| member | source | states |
|---|---|---|
| Input.IsShortlyAfter | drivers/input/input_processor_tap.c:28-31 | an event is shortly after the previous one exactly when the gap is strictly less than the window; an event exactly one window later is not |
| Input.ToU16 | drivers/input/input_processor_absolute_to_relative.c:55-58 | storing a sample in a `uint16_t` baseline keeps it modulo 2^16 and leaves values already in range unchanged |
| Input.RunStepsPreserves | drivers/input/touch_detection.c:8-28 | an invariant that every enabled action preserves holds after any run that starts in it; the three processors' run lemmas are instances |
| Input.RunStepsAppend | drivers/input/touch_detection.c:8-28 | running two sequences of actions one after the other is running their concatenation: the second starts where the first stopped and the outputs are concatenated, and neither is enabled when either part is not |
| TouchDetection.Prepare | drivers/input/touch_detection.c:31-37 | preparation records the current time as the last event time, with no touch and no pending touch-end work |
| TouchDetection.HandleEvent | drivers/input/touch_detection.c:3-19 | every event re-arms the touch-end deadline one window ahead, records its time and returns CONTINUE; it starts a touch, with one start notification, exactly when not touching and at least one window after the previous event |
| TouchDetection.TouchEndTimeoutCallback | drivers/input/touch_detection.c:21-28 | the touch-end work clears `touching`, calls the end hook exactly once, and changes nothing else |
| TouchDetection.Step | drivers/input/touch_detection.c:8-28 | an event is always accepted; the touch-end work runs only when pending and due, and leaves the slot empty and the device not touching |
| TouchDetection.PrepareEstablishesInv | drivers/input/touch_detection.c:31-37 | the prepared state satisfies the invariant: touching implies the touch-end work is pending, and a pending deadline lies one window after the last event |
| TouchDetection.StepPreservesInv | drivers/input/touch_detection.c:8-28 | every action preserves that invariant |
| TouchDetection.RunPreservesInv | drivers/input/touch_detection.c:8-28 | every sequence of actions preserves that invariant |
| TouchDetection.PrepareBlocksEarlyStart | drivers/input/touch_detection.c:11-37 | no event earlier than the preparation time plus one window starts a touch or notifies |
| TouchDetection.NoEndWithinWindow | drivers/input/touch_detection.c:8-9 | the touch-end work cannot run while the window of the latest event is still open |
| TouchDetection.EndThenFreshStart | drivers/input/touch_detection.c:9-28 | after the touch-end work has run it cannot run again before another event, and the next event (no earlier than the firing) starts a touch |
| TouchDetection.SteadyStreamKeepsTouch | drivers/input/touch_detection.c:8-16 | events that keep arriving within the window of their predecessor keep the touch alive, notify nothing, and keep the touch-end work from becoming due until the last window closes |
| TouchDetection.RunAlternates | drivers/input/touch_detection.c:11-27 | over any run a start notification only occurs while not touching, and the last notification tells the final touching flag |
| TouchDetection.StartsSeparatedByEnd | drivers/input/touch_detection.c:11-27 | between any two start notifications of a run there is an end notification |
| TapProcessor.Init | drivers/input/input_processor_tap.c:131-156 | the processor starts not touching, with `is_tap` false, the last event time at initialisation and no work pending |
| TapProcessor.HandleEvent | drivers/input/input_processor_tap.c:33-93 | every event reports rel X -100 then rel Y 0 (with sync), re-arms the touch-end deadline, records its time and returns CONTINUE; it starts a touch exactly when not touching and not shortly after, and only then re-arms the tap deadline at `timeout` ms |
| TapProcessor.TapTimeoutCallback | drivers/input/input_processor_tap.c:96-112 | while touching the tap work emits nothing; otherwise it emits key 256 press, rel X +100, rel Y +100 and arms the release 200 ms later; either way `is_tap` becomes false and the touch state is untouched |
| TapProcessor.TapEndTimeoutCallback | drivers/input/input_processor_tap.c:114-121 | the release work emits key 256 release, rel X -100, rel Y 0 and changes no state |
| TapProcessor.TouchEndTimeoutCallback | drivers/input/input_processor_tap.c:123-129 | the touch-end work only clears `touching`: no timestamp, no other deadline, no report |
| TapProcessor.Step | drivers/input/input_processor_tap.c:131-142 | each of the three work items runs only when pending and due, and its slot is empty afterwards |
| TapProcessor.InitEstablishesInv | drivers/input/input_processor_tap.c:131-156 | the initial state satisfies the detector invariant and has `is_tap` false |
| TapProcessor.StepPreservesInv | drivers/input/input_processor_tap.c:80-129 | every action preserves the invariant |
| TapProcessor.RunPreservesInv | drivers/input/input_processor_tap.c:80-129 | after any run, touching implies the touch-end work is pending, and `is_tap` is still false |
| TapProcessor.TouchPartIsDetector | drivers/input/input_processor_tap.c:28-86 | the tap processor's touch state evolves exactly as the generic detector on its events and touch-end firings, whatever the tap work items do |
| TapProcessor.TouchStartsSeparatedByEnd | drivers/input/input_processor_tap.c:80-129 | between two touch starts of the tap processor its touch-end work has run |
| TapProcessor.QuietTouchIsTap | drivers/input/input_processor_tap.c:76-121 | a touch that starts and falls silent until the touch-end work runs yields press then release, after the per-event reports |
| TapProcessor.HeldEventsKeepTouch | drivers/input/input_processor_tap.c:76-93 | during a touch, any further events keep it going: exactly the per-event reports once per event, the touch-end deadline one window after the last of them, and the tap work, release work and `is_tap` unchanged |
| TapProcessor.StartThenHold | drivers/input/input_processor_tap.c:33-93 | an event that starts a touch followed by further events gives one touch held through the last event, with the tap work due one timeout after the first event and one set of per-event reports per event |
| TapProcessor.HeldTouchIsNotTap | drivers/input/input_processor_tap.c:76-112 | for any timeout and window: a touch held by a stream of events, each inside the window of its predecessor, past the tap deadline, with the tap work running before the last window closes, yields only the per-event reports, stays touching, schedules no release, and its touch-end work is still not due |
| TapProcessor.LongTimeoutHeldTouch | drivers/input/input_processor_tap.c:76-112 | with a 100 ms timeout and a 30 ms window, events every 25 ms from 30 ms to 130 ms keep the touch going when the tap work runs at 130 ms, and nothing is pressed |
| TapProcessor.PressIsReleased | drivers/input/input_processor_tap.c:100-121 | the tap work that presses the key arms the release work exactly 200 ms later and not before, and the release work reports key 256 released then (-100, 0) and changes nothing else |
| TapProcessor.SilentTouchDecision | drivers/input/input_processor_tap.c:76-121 | with every work item running exactly at its deadline, a touch that falls silent is a tap (press, release armed 200 ms after the tap deadline) when the window is no longer than the timeout, and is not a tap (no key report, still not touching afterwards) when the timeout is shorter |
| TapProcessor.DefaultTiming | drivers/input/input_processor_tap.c:148-156 | with the defaults (timeout 50, window 30) an event 29 ms after initialisation starts nothing, one at 30 ms does, its tap work is due at 80 ms, and a silent touch presses at 80 ms and releases at 280 ms, in non-decreasing time order |
| AbsoluteToRelative.Init | drivers/input/input_processor_absolute_to_relative.c:86-106 | the translator starts with both baselines 0, not touching, the last event time at initialisation and no work pending |
| AbsoluteToRelative.HandleEvent | drivers/input/input_processor_absolute_to_relative.c:45-77 | every event re-arms the deadline, records its time and returns CONTINUE; an X sample sets only the X baseline and a Y sample only the Y baseline; a fresh event reports nothing; a continuation X or Y sample makes one movement update and one mouse report; another ABS code in a continuation makes one mouse report; a non-ABS event reports nothing |
| AbsoluteToRelative.TouchEndTimeoutCallback | drivers/input/input_processor_absolute_to_relative.c:37-84 | the touch-end work clears `touching` and both baselines and reports nothing |
| AbsoluteToRelative.Step | drivers/input/input_processor_absolute_to_relative.c:79-91 | the touch-end work runs only when pending and due, and its slot is empty afterwards |
| AbsoluteToRelative.StepPreservesInv | drivers/input/input_processor_absolute_to_relative.c:45-84 | every action keeps the translator not touching, with a pending deadline one window after the last event |
| AbsoluteToRelative.RunPreservesInv | drivers/input/input_processor_absolute_to_relative.c:45-84 | every sequence of actions keeps that invariant |
| AbsoluteToRelative.NeverTouching | drivers/input/input_processor_absolute_to_relative.c:31-53 | in every state reachable from initialisation the translator is not touching, so an event is fresh exactly when it comes at least one window after the previous event |
| AbsoluteToRelative.NoEndWithinWindow | drivers/input/input_processor_absolute_to_relative.c:50-51 | the touch-end work cannot run while the window of the latest event is still open |
| AbsoluteToRelative.EndThenFresh | drivers/input/input_processor_absolute_to_relative.c:37-60 | after the touch-end work has run, both baselines are zero and the next event is fresh and reports nothing |
| AbsoluteToRelative.ContinuingXStroke | drivers/input/input_processor_absolute_to_relative.c:61-70 | X samples each within the window of their predecessor make exactly the reference calls (delta to the truncated previous sample, then a report) and leave the Y baseline unchanged |
| AbsoluteToRelative.StrokeShape | drivers/input/input_processor_absolute_to_relative.c:61-70 | for `n` samples the reference calls are `n - 1` movement updates, each followed by a report, the `j`-th carrying sample `j + 1` minus truncated sample `j` |
| AbsoluteToRelative.XStrokeDeltas | drivers/input/input_processor_absolute_to_relative.c:53-70 | a fresh X sample followed by `n - 1` X samples within the window of their predecessors makes exactly `n - 1` movement updates and `n - 1` reports, each delta the difference of consecutive samples with the truncated baseline, and leaves the Y baseline unchanged |
| AbsoluteToRelative.TwoSampleStroke | drivers/input/input_processor_absolute_to_relative.c:45-84 | X=10 then X=15 five ms later after a quiet period reports a movement of +5, and the stroke then ends by silence with both baselines back to 0 |

## Left out

- The Zephyr work queue (`k_work_reschedule`, `k_work_init_delayable`, `k_work_delayable_from_work`) is reduced to one deadline slot per work item. Its internal states are not modelled, including a work item that expired but has not run yet. A fire may happen at any time at or after its deadline. The model does not force work to run at its deadline.
- `k_uptime_get` is a `nat` parameter of every action. Its truncation to `uint32_t` and the wrap-around of timestamps are not modelled.
- `Run` does not require the times of its actions to be non-decreasing: an action may carry an earlier time than its predecessor. The invariant lemmas (`RunPreservesInv`, `RunAlternates`, `StartsSeparatedByEnd`, `TouchPartIsDetector`, `XStrokeDeltas`) hold for any order. The scenario lemmas (`QuietTouchIsTap`, `HeldTouchIsNotTap`, `LongTimeoutHeldTouch`, `SilentTouchDecision`, `DefaultTiming`, `TwoSampleStroke`) state that their action times are ordered.
- AbsoluteToRelative.HandleEvent: the movement arguments are computed as unbounded integers. The `int` overflow of `value - previous_x` for values near the 32-bit minimum, and any narrowing inside `zmk_hid_mouse_movement_update`, are not modelled. That function is not part of this model.
- The HID transport and the input reporting calls are not executed. Each call becomes a record appended to the output sequence.
- Logging and the debug classification of event type and code strings (`input_processor_tap.c:54-74`, 89) have no effect on state.
- Devicetree and instance macros are not modelled. The model covers a single instance and keeps the default configuration values as constants.
- Concurrency is not modelled. Events and work-item callbacks run on one serialized context, so they are interleaved sequential actions.
- The translator's `handle_touch_start` is not modelled as an operation, because nothing calls it. `AbsoluteToRelative.NeverTouching` states the consequence.
- `touch_detection.h` and `input_additional_behaviors.h` only declare types and hook signatures. The datatypes mirror their shape.
- In `touch_detection.c`, `prepare` leaves `touching` at its static initial value, which the model takes to be false. The draft's compile-level defects are not modelled: undeclared helpers, `prepare` returning nothing, and a `touch_end` hook that could be absent.
- The result of `k_work_reschedule` is ignored by the drivers, and so scheduling failures are not modelled.
