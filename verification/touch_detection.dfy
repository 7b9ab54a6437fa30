/** The generic touch detector of drivers/input/touch_detection.c.

    The sensor never reports lift-off, so a touch ends only by silence: every
    event re-arms a sliding inactivity deadline, and only the firing of that
    deadline ends the touch. An event starts a touch when the device is not
    touching and the event is not shortly after the previous one. The two hooks
    of the configuration (`touch_start`, `touch_end`) are modelled as
    notifications the detector emits, in the order it calls them. */
module TouchDetection {
  import opened Wrappers
  import opened Input
  import opened Timer

  /** `struct touch_detection_config` without its hooks. */
  datatype Config = Config(window: u8)

  /** `struct touch_detection_data`. */
  datatype State = State(touching: bool, last: nat, touchEnd: Deadline)

  /** A call of one of the configuration's hooks. */
  datatype Hook = TouchStart | TouchEnd

  /** The detector owns a single work item. */
  datatype TimerId = TouchEndTimeout

  /** The condition under which an event at `now` begins a new touch. */
  predicate StartsTouch(cfg: Config, s: State, now: nat)
  {
    !s.touching && !IsShortlyAfter(cfg.window, s.last, now)
  }

  /** `prepare`: the timestamp starts at the preparation time; the flag keeps
      its static initial value, false. */
  function Prepare(now: nat): (s: State)
    ensures !s.touching && s.last == now && s.touchEnd == Idle
  {
    State(false, now, Idle)
  }

  /** `touch_detection_handle_event` */
  function HandleEvent(cfg: Config, s: State, now: nat, ev: InputEvent): (r: Handled<State, Hook>)
    ensures r.verdict == Continue
    ensures r.next.last == now
    ensures r.next.touchEnd == Pending(now + cfg.window)
    ensures r.next.touching <==> s.touching || now >= s.last + cfg.window
    ensures r.out == (if r.next.touching && !s.touching then [TouchStart] else [])
  {
    var starts := StartsTouch(cfg, s, now);
    var next := State(s.touching || starts, now, Reschedule(now, cfg.window));
    Handled(next, if starts then [TouchStart] else [], Continue)
  }

  /** `touch_end_timeout_callback`, run after the work queue cleared the slot. */
  function TouchEndTimeoutCallback(s: State): (r: Transition<State, Hook>)
    ensures !r.next.touching
    ensures r.next.last == s.last && r.next.touchEnd == s.touchEnd
    ensures r.out == [TouchEnd]
  {
    Transition(s.(touching := false), [TouchEnd])
  }

  /** One action: an event, or the touch-end work running once its deadline
      has been reached. `None` when the work is not due. */
  function Step(cfg: Config, s: State, a: Action<TimerId>): (r: Option<Transition<State, Hook>>)
    ensures r.Some? <==> a.Event? || Due(s.touchEnd, a.now)
    ensures r.Some? && a.Fire? ==> r.value.next.touchEnd == Idle && !r.value.next.touching
  {
    match a
    case Event(now, ev) =>
      var h := HandleEvent(cfg, s, now, ev);
      Some(Transition(h.next, h.out))
    case Fire(TouchEndTimeout, now) =>
      if Due(s.touchEnd, now) then Some(TouchEndTimeoutCallback(s.(touchEnd := Idle))) else None
  }

  /** `Step` under a fixed configuration, as a function value. */
  function StepFn(cfg: Config): (State, Action<TimerId>) -> Option<Transition<State, Hook>>
  {
    (s, a) => Step(cfg, s, a)
  }

  /** A sequence of actions, with the hooks called along the way. */
  function Run(cfg: Config, s: State, acts: seq<Action<TimerId>>): Option<Transition<State, Hook>>
  {
    RunSteps(StepFn(cfg), s, acts)
  }

  /** Touching implies that the touch-end work is pending, and a pending
      touch-end deadline lies exactly one window after the latest event. */
  predicate Inv(cfg: Config, s: State)
  {
    && (s.touching ==> s.touchEnd.Pending?)
    && (s.touchEnd.Pending? ==> s.touchEnd.at == s.last + cfg.window)
  }

  lemma PrepareEstablishesInv(cfg: Config, now: nat)
    ensures Inv(cfg, Prepare(now))
  {
  }

  lemma StepPreservesInv(cfg: Config, s: State, a: Action<TimerId>)
    requires Inv(cfg, s)
    requires Step(cfg, s, a).Some?
    ensures Inv(cfg, Step(cfg, s, a).value.next)
  {
  }

  lemma RunPreservesInv(cfg: Config, s: State, acts: seq<Action<TimerId>>)
    requires Inv(cfg, s)
    requires Run(cfg, s, acts).Some?
    ensures Inv(cfg, Run(cfg, s, acts).value.next)
  {
    forall s': State, a: Action<TimerId> | Inv(cfg, s') && Step(cfg, s', a).Some?
      ensures Inv(cfg, Step(cfg, s', a).value.next)
    {
      StepPreservesInv(cfg, s', a);
    }
    RunStepsPreserves(StepFn(cfg), s' => Inv(cfg, s'), s, acts);
  }

  /** After `prepare` at `t0`, no event earlier than `t0 + window` starts a touch. */
  lemma PrepareBlocksEarlyStart(cfg: Config, t0: nat, now: nat, ev: InputEvent)
    requires now < t0 + cfg.window
    ensures !HandleEvent(cfg, Prepare(t0), now, ev).next.touching
    ensures HandleEvent(cfg, Prepare(t0), now, ev).out == []
  {
  }

  /** The touch-end work cannot run while the window of the latest event is open. */
  lemma NoEndWithinWindow(cfg: Config, s: State, now: nat)
    requires Inv(cfg, s)
    requires now < s.last + cfg.window
    ensures Step(cfg, s, Fire(TouchEndTimeout, now)) == None
  {
  }

  /** Once the touch-end work has run, it cannot run again before another event,
      and the next event, being no earlier than the firing, starts a touch. */
  lemma EndThenFreshStart(cfg: Config, s: State, t1: nat, t2: nat, ev: InputEvent)
    requires Inv(cfg, s)
    requires Due(s.touchEnd, t1)
    requires t1 <= t2
    ensures var s1 := Step(cfg, s, Fire(TouchEndTimeout, t1)).value.next;
      && (forall t3: nat :: Step(cfg, s1, Fire(TouchEndTimeout, t3)) == None)
      && HandleEvent(cfg, s1, t2, ev).out == [TouchStart]
  {
  }

  /** An event during a touch notifies nothing and only moves the touch-end
      deadline along. */
  lemma HeldEventStep(cfg: Config, s: State, now: nat, ev: InputEvent)
    requires s.touching
    ensures StepFn(cfg)(s, Event(now, ev)) == Some(Transition(State(true, now, Pending(now + cfg.window)), []))
  {
  }

  /** Events that keep arriving inside the window of their predecessor keep a
      touch alive: no hook is called and the touch-end work never becomes due
      before the window of the last of them closes. */
  lemma {:induction false} SteadyStreamKeepsTouch(cfg: Config, s: State, times: seq<nat>, ev: InputEvent)
    requires Inv(cfg, s) && s.touching
    requires |times| > 0
    requires forall i :: 0 <= i < |times| ==> times[i] < (if i == 0 then s.last else times[i - 1]) + cfg.window
    ensures var r := Run(cfg, s, Events(times, ev));
      && r.Some?
      && r.value.out == []
      && r.value.next.touching
      && r.value.next.last == times[|times| - 1]
      && forall now: nat :: now < times[|times| - 1] + cfg.window ==> Step(cfg, r.value.next, Fire(TouchEndTimeout, now)) == None
    decreases |times|
  {
    var s1 := State(true, times[0], Pending(times[0] + cfg.window));
    HeldEventStep(cfg, s, times[0], ev);
    EventsCons<TimerId>(times, ev);
    RunStepsCons(StepFn(cfg), s, Event(times[0], ev), Events(times[1..], ev));
    if |times| > 1 {
      forall i | 0 <= i < |times[1..]|
        ensures times[1..][i] < (if i == 0 then s1.last else times[1..][i - 1]) + cfg.window
      {
        assert times[1..][i] == times[i + 1];
      }
      SteadyStreamKeepsTouch(cfg, s1, times[1..], ev);
      var u := Run(cfg, s1, Events(times[1..], ev)).value;
      assert Run(cfg, s, Events(times, ev)) == Some(Transition(u.next, [] + u.out));
    } else {
      assert Events<TimerId>(times[1..], ev) == [];
      assert Run(cfg, s1, []) == Some(Transition(s1, []));
      assert Run(cfg, s, Events(times, ev)) == Some(Transition(s1, [] + []));
    }
  }

  /** The hooks called so far alternate correctly given the flag they started
      from: a start is only ever notified while not touching. */
  predicate Alternates(out: seq<Hook>, touching: bool)
    decreases |out|
  {
    out == [] ||
    match out[0]
    case TouchStart => !touching && Alternates(out[1..], true)
    case TouchEnd => Alternates(out[1..], false)
  }

  /** The flag as the hooks called so far leave it. */
  function TouchingAfter(out: seq<Hook>, touching: bool): bool
  {
    if out == [] then touching else out[|out| - 1] == TouchStart
  }

  lemma {:induction false} AlternatesAppend(a: seq<Hook>, b: seq<Hook>, touching: bool)
    requires Alternates(a, touching)
    requires Alternates(b, TouchingAfter(a, touching))
    ensures Alternates(a + b, touching)
    decreases |a|
  {
    if a == [] {
      assert a + b == b;
    } else {
      assert (a + b)[0] == a[0];
      assert (a + b)[1..] == a[1..] + b;
      var t' := a[0] == TouchStart;
      if a[1..] == [] {
        assert TouchingAfter(a, touching) == t';
      } else {
        assert TouchingAfter(a[1..], t') == TouchingAfter(a, touching);
      }
      AlternatesAppend(a[1..], b, t');
    }
  }

  lemma StepAlternates(cfg: Config, s: State, a: Action<TimerId>)
    requires Step(cfg, s, a).Some?
    ensures Alternates(Step(cfg, s, a).value.out, s.touching)
    ensures TouchingAfter(Step(cfg, s, a).value.out, s.touching) == Step(cfg, s, a).value.next.touching
  {
    var t := Step(cfg, s, a).value;
    match a
    case Event(now, ev) =>
      if StartsTouch(cfg, s, now) {
        assert t.out == [TouchStart];
        assert Alternates(t.out[1..], true);
      } else {
        assert t.out == [];
      }
    case Fire(_, _) =>
      assert t.out == [TouchEnd];
      assert Alternates(t.out[1..], false);
  }

  /** Over any run the hooks alternate, and the last of them tells the flag. */
  lemma {:induction false} RunAlternates(cfg: Config, s: State, acts: seq<Action<TimerId>>)
    requires Run(cfg, s, acts).Some?
    ensures Alternates(Run(cfg, s, acts).value.out, s.touching)
    ensures TouchingAfter(Run(cfg, s, acts).value.out, s.touching) == Run(cfg, s, acts).value.next.touching
    decreases |acts|
  {
    if acts != [] {
      var t := Step(cfg, s, acts[0]).value;
      var u := Run(cfg, t.next, acts[1..]).value;
      RunAlternates(cfg, t.next, acts[1..]);
      StepAlternates(cfg, s, acts[0]);
      AlternatesAppend(t.out, u.out, s.touching);
      if u.out == [] {
        assert t.out + u.out == t.out;
      } else {
        assert (t.out + u.out)[|t.out + u.out| - 1] == u.out[|u.out| - 1];
      }
    }
  }

  /** Alternation read position by position: between two start notifications
      there is an end notification, and when the detector was already touching
      even the first start is preceded by one. */
  lemma {:induction false} AlternatesSeparated(out: seq<Hook>, touching: bool)
    requires Alternates(out, touching)
    ensures forall i, j :: 0 <= i < j < |out| && out[i] == TouchStart && out[j] == TouchStart ==>
      exists k :: i < k < j && out[k] == TouchEnd
    ensures touching ==> forall j :: 0 <= j < |out| && out[j] == TouchStart ==>
      exists k :: 0 <= k < j && out[k] == TouchEnd
    decreases |out|
  {
    if out != [] {
      var rest := out[1..];
      var t' := out[0] == TouchStart;
      AlternatesSeparated(rest, t');
      forall i, j | 0 <= i < j < |out| && out[i] == TouchStart && out[j] == TouchStart
        ensures exists k :: i < k < j && out[k] == TouchEnd
      {
        assert rest[j - 1] == out[j];
        if i == 0 {
          var k' :| 0 <= k' < j - 1 && rest[k'] == TouchEnd;
          assert out[k' + 1] == TouchEnd;
        } else {
          assert rest[i - 1] == out[i];
          var k' :| i - 1 < k' < j - 1 && rest[k'] == TouchEnd;
          assert out[k' + 1] == TouchEnd;
        }
      }
      if touching {
        forall j | 0 <= j < |out| && out[j] == TouchStart
          ensures exists k :: 0 <= k < j && out[k] == TouchEnd
        {
          assert out[0] == TouchEnd;
        }
      }
    }
  }

  /** No two touch starts are notified without a touch end between them. */
  lemma StartsSeparatedByEnd(cfg: Config, s: State, acts: seq<Action<TimerId>>)
    requires Run(cfg, s, acts).Some?
    ensures var out := Run(cfg, s, acts).value.out;
      forall i, j :: 0 <= i < j < |out| && out[i] == TouchStart && out[j] == TouchStart ==>
        exists k :: i < k < j && out[k] == TouchEnd
  {
    RunAlternates(cfg, s, acts);
    AlternatesSeparated(Run(cfg, s, acts).value.out, s.touching);
  }
}
