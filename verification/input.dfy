/** Vocabulary shared by the input-processor drivers: Zephyr input events, the
    reports a processor emits, the verdict an event handler returns, the actions
    that drive a processor, and the two small helpers every driver repeats. */
module Input {
  import opened Wrappers

  /** C integer widths that appear in the drivers. */
  type u8 = x: int | 0 <= x < 0x100
  type u16 = x: int | 0 <= x < 0x1_0000
  type i32 = x: int | -0x8000_0000 <= x < 0x8000_0000

  // Event types and codes, with the values of Zephyr's input event codes.
  const EV_KEY: nat := 0x01
  const EV_REL: nat := 0x02
  const EV_ABS: nat := 0x03
  const REL_X: nat := 0x00
  const REL_Y: nat := 0x01
  const ABS_X: nat := 0x00
  const ABS_Y: nat := 0x01

  /** `struct input_event`: type, code and signed 32-bit value. */
  datatype InputEvent = InputEvent(evType: nat, code: nat, value: i32)

  predicate IsAbsX(ev: InputEvent)
  {
    ev.evType == EV_ABS && ev.code == ABS_X
  }

  predicate IsAbsY(ev: InputEvent)
  {
    ev.evType == EV_ABS && ev.code == ABS_Y
  }

  /** One `input_report` call: type, code, value and the sync flag. */
  datatype Report = Report(evType: nat, code: nat, value: int, sync: bool)

  /** `input_report_rel(dev, code, value, sync, K_FOREVER)` */
  function RelReport(code: nat, value: int, sync: bool): Report
  {
    Report(EV_REL, code, value, sync)
  }

  /** `input_report_key(dev, code, value, sync, K_FOREVER)` */
  function KeyReport(code: nat, value: int, sync: bool): Report
  {
    Report(EV_KEY, code, value, sync)
  }

  /** What an event handler tells the processor chain. */
  datatype Verdict = Continue | Stop

  /** An input event handed to the processor at time `now`, or the work item
      `timer` running at time `now`. */
  datatype Action<T> = Event(now: nat, ev: InputEvent) | Fire(timer: T, now: nat)

  /** A processor's new state and what it emitted, in order. */
  datatype Transition<S, O> = Transition(next: S, out: seq<O>)

  /** The same for an event handler, together with the verdict it returned. */
  datatype Handled<S, O> = Handled(next: S, out: seq<O>, verdict: Verdict)

  /** `is_shortly_after_previous`: the new event falls strictly inside the
      window that opened at the previous event. */
  function IsShortlyAfter(window: u8, last: nat, now: nat): (r: bool)
    ensures r <==> now as int - last < window
  {
    last + window > now
  }

  /** Assignment of an `int32_t` to a `uint16_t`: reduction modulo 2^16. */
  function ToU16(v: int): (r: u16)
    ensures (v - r) % 0x1_0000 == 0
    ensures 0 <= v < 0x1_0000 ==> r == v
  {
    v % 0x1_0000
  }

  /** The action times never go backwards, as the uptime clock guarantees. */
  predicate Ordered<T>(acts: seq<Action<T>>)
  {
    forall i :: 0 < i < |acts| ==> acts[i - 1].now <= acts[i].now
  }

  /** A sequence of actions fed to a processor's step function one by one,
      with the outputs concatenated in order; `None` as soon as an action is
      not enabled. */
  function RunSteps<S, O, T>(step: (S, Action<T>) -> Option<Transition<S, O>>, s: S, acts: seq<Action<T>>): Option<Transition<S, O>>
    decreases |acts|
  {
    if acts == [] then Some(Transition(s, []))
    else match step(s, acts[0])
      case None => None
      case Some(t) =>
        match RunSteps(step, t.next, acts[1..])
        case None => None
        case Some(u) => Some(Transition(u.next, t.out + u.out))
  }

  /** A state property that every enabled step preserves holds after any run. */
  lemma {:induction false} RunStepsPreserves<S, O, T>(step: (S, Action<T>) -> Option<Transition<S, O>>, inv: S -> bool, s: S, acts: seq<Action<T>>)
    requires forall s': S, a: Action<T> :: inv(s') && step(s', a).Some? ==> inv(step(s', a).value.next)
    requires inv(s)
    requires RunSteps(step, s, acts).Some?
    ensures inv(RunSteps(step, s, acts).value.next)
    decreases |acts|
  {
    if acts != [] {
      RunStepsPreserves(step, inv, step(s, acts[0]).value.next, acts[1..]);
    }
  }

  /** Running one action and then the rest: the first step's output followed
      by the rest's, and no run at all when either part is not enabled. */
  lemma RunStepsCons<S, O, T>(step: (S, Action<T>) -> Option<Transition<S, O>>, s: S, a: Action<T>, rest: seq<Action<T>>)
    requires step(s, a).Some?
    ensures RunSteps(step, s, [a] + rest) ==
      match RunSteps(step, step(s, a).value.next, rest)
      case None => None
      case Some(u) => Some(Transition(u.next, step(s, a).value.out + u.out))
  {
    assert ([a] + rest)[0] == a;
    assert ([a] + rest)[1..] == rest;
  }

  /** Running two sequences of actions one after the other is running their
      concatenation: the second starts where the first stopped, and the
      outputs are concatenated. */
  lemma {:induction false} RunStepsAppend<S, O, T>(step: (S, Action<T>) -> Option<Transition<S, O>>, s: S, a: seq<Action<T>>, b: seq<Action<T>>)
    ensures RunSteps(step, s, a + b) ==
      match RunSteps(step, s, a)
      case None => None
      case Some(t) =>
        match RunSteps(step, t.next, b)
        case None => None
        case Some(u) => Some(Transition(u.next, t.out + u.out))
    decreases |a|
  {
    if a == [] {
      assert a + b == b;
      assert RunSteps(step, s, a) == Some(Transition(s, []));
      match RunSteps(step, s, b)
      case None =>
      case Some(u) => assert [] + u.out == u.out;
    } else {
      assert (a + b)[0] == a[0];
      assert (a + b)[1..] == a[1..] + b;
      if step(s, a[0]).Some? {
        var t0 := step(s, a[0]).value;
        RunStepsAppend(step, t0.next, a[1..], b);
        match RunSteps(step, t0.next, a[1..])
        case None =>
        case Some(t1) =>
          match RunSteps(step, t1.next, b)
          case None =>
          case Some(u) =>
            assert t0.out + (t1.out + u.out) == (t0.out + t1.out) + u.out;
      }
    }
  }

  /** The same event delivered at each of the given times. */
  function Events<T>(times: seq<nat>, ev: InputEvent): (acts: seq<Action<T>>)
    ensures |acts| == |times|
    ensures forall i :: 0 <= i < |times| ==> acts[i] == Event(times[i], ev)
  {
    seq(|times|, i requires 0 <= i < |times| => Event(times[i], ev))
  }

  /** The first of the delivered events, then the rest of them. */
  lemma EventsCons<T>(times: seq<nat>, ev: InputEvent)
    requires |times| > 0
    ensures Events<T>(times, ev) == [Event(times[0], ev)] + Events<T>(times[1..], ev)
  {
    assert Events<T>(times, ev)[1..] == Events<T>(times[1..], ev);
  }
}
