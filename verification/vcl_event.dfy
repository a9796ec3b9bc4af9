/** The readiness-event coalescer attached to one session I/O handle.

    The state is the accumulator of injected events still pending delivery
    and whether the next-iteration activation callback is armed. `activate`
    delivers its events synchronously and also parks them in the accumulator;
    the armed callback later delivers the whole accumulator once. */
module VclEvent {
  import opened Outcomes
  import opened Readiness

  /** `injected`: events injected by recent activations, pending delivery.
      `armed`: the activation callback is scheduled for the next iteration.
      `latched`: the next-iteration runtime toggle read at construction. */
  datatype EventState = EventState(injected: Mask, armed: bool, latched: bool)

  /** What an operation does outside the state, in order. */
  datatype Effect =
    | Deliver(events: Mask)        // the host readiness callback runs with `events`
    | Schedule                     // the activation callback is armed for the next iteration
    | Cancel                       // the activation callback is disarmed
    | InterestUpdate(events: Mask)   // the owning handle re-registers its interest

  datatype Step = Step(state: EventState, effects: seq<Effect>)

  /** The invariant the adapter keeps: armed exactly when something is
      pending, and only supported events are ever pending. */
  predicate Valid(s: EventState) {
    && (s.armed <==> s.injected != 0)
    && s.injected & SUPPORTED == s.injected
  }

  /** The events handed to the host callback, in order. */
  function Delivered(effects: seq<Effect>): (d: seq<Mask>)
    ensures |d| <= |effects|
  {
    if |effects| == 0 then []
    else (if effects[0].Deliver? then [effects[0].events] else []) + Delivered(effects[1..])
  }

  /** How many times the activation callback was armed. */
  function Schedules(effects: seq<Effect>): (n: nat)
    ensures n <= |effects|
  {
    if |effects| == 0 then 0
    else (if effects[0] == Schedule then 1 else 0) + Schedules(effects[1..])
  }

  lemma {:induction false} DeliveredAppend(a: seq<Effect>, b: seq<Effect>)
    ensures Delivered(a + b) == Delivered(a) + Delivered(b)
    decreases |a|
  {
    if |a| == 0 {
      assert a + b == b;
    } else {
      var ab := a + b;
      assert ab[0] == a[0];
      assert ab[1..] == a[1..] + b;
      DeliveredAppend(a[1..], b);
    }
  }

  lemma {:induction false} SchedulesAppend(a: seq<Effect>, b: seq<Effect>)
    ensures Schedules(a + b) == Schedules(a) + Schedules(b)
    decreases |a|
  {
    if |a| == 0 {
      assert a + b == b;
    } else {
      var ab := a + b;
      assert ab[0] == a[0];
      assert ab[1..] == a[1..] + b;
      SchedulesAppend(a[1..], b);
    }
  }

  /** The effects of one activation: the synchronous delivery, then the
      arming of the activation callback when `schedule` holds. */
  function ActivationEffects(events: Mask, schedule: bool): (effects: seq<Effect>)
    ensures |effects| > 0 && effects[0] == Deliver(events)
    ensures Delivered(effects) == [events]
    ensures Schedules(effects) == (if schedule then 1 else 0)
  {
    var effects := [Deliver(events)] + (if schedule then [Schedule] else []);
    assert effects[1..] == (if schedule then [Schedule] else []);
    effects
  }

  /** A freshly constructed coalescer: nothing pending, nothing armed. */
  function Create(latched: bool): (s: EventState)
    ensures Valid(s)
    ensures s.injected == 0 && !s.armed && s.latched == latched
  {
    EventState(0, false, latched)
  }

  /** `activate(events)`: the host callback runs at once with `events`; the
      activation callback is armed if the accumulator was empty; `events`
      join the accumulator. The debug assertions become aborts. */
  function Activate(s: EventState, events: Mask): (r: Checked<Step>)
    ensures !ValidEvents(events) ==> r == Abort(BadEventMask)
    ensures Valid(s) && ValidEvents(events) ==> r.Ok?
    ensures r.Ok? ==> && r.value.state.injected == s.injected | events
                      && r.value.state.injected != 0
                      && r.value.state.armed
                      && r.value.state.latched == s.latched
                      && Delivered(r.value.effects) == [events]
                      && r.value.effects[0] == Deliver(events)
                      && Schedules(r.value.effects) == (if s.injected == 0 then 1 else 0)
    ensures Valid(s) && r.Ok? ==> Valid(r.value.state)
  {
    if !ValidEvents(events) then Abort(BadEventMask)
    else
      var schedule := s.injected == 0;
      if schedule && s.armed then Abort(ScheduleAlreadyArmed)
      else
        var armed := s.armed || schedule;
        if !armed then Abort(ScheduleNotArmed)
        else
          Ok(Step(s.(injected := s.injected | events, armed := armed), ActivationEffects(events, schedule)))
  }

  /** `setEnabled(events)`: only asks the owning handle to update its
      interest. */
  function SetEnabled(s: EventState, events: Mask): (r: Step)
    ensures r.state == s
    ensures Delivered(r.effects) == [] && Schedules(r.effects) == 0
    ensures r.effects == [InterestUpdate(events)]
  {
    Step(s, [InterestUpdate(events)])
  }

  /** The emulated-edge hooks: the foreign multiplexer is level-triggered, so
      there is nothing to re-arm. */
  function RegisterEventIfEmulatedEdge(s: EventState, events: Mask): Step {
    Step(s, [])
  }

  function UnregisterEventIfEmulatedEdge(s: EventState, events: Mask): Step {
    Step(s, [])
  }

  /** `mergeInjectedEventsAndRunCb(events)`: pending events, if any, are
      folded into `events`, the accumulator is emptied and the activation
      callback disarmed; the host callback then runs exactly once. */
  function Merge(s: EventState, events: Mask): (r: Step)
    ensures Delivered(r.effects) == [events | s.injected]
    ensures Schedules(r.effects) == 0
    ensures r.state.injected == 0
    ensures r.state.latched == s.latched
    ensures s.injected != 0 ==> !r.state.armed && Cancel in r.effects
    ensures s.injected == 0 ==> r.state == s && r.effects == [Deliver(events)]
  {
    if s.injected != 0 then
      var effects := [Cancel, Deliver(events | s.injected)];
      assert effects[1..] == [Deliver(events | s.injected)];
      Step(s.(injected := 0, armed := false), effects)
    else
      Step(s, [Deliver(events)])
  }

  /** One turn of the host loop as seen by this coalescer: when the
      activation callback is armed the loop disarms and runs it, and it
      merges the pending events into an otherwise empty set. */
  function NextIteration(s: EventState): (r: Checked<Step>)
    ensures !s.armed ==> r == Ok(Step(s, []))
    ensures s.armed && s.injected == 0 ==> r == Abort(EmptyAccumulator)
    ensures Valid(s) ==> r.Ok?
    ensures r.Ok? && s.armed ==> && Delivered(r.value.effects) == [s.injected]
                                 && r.value.state == s.(injected := 0, armed := false)
    ensures Valid(s) ==> Valid(r.value.state)
  {
    if !s.armed then Ok(Step(s, []))
    else if s.injected == 0 then Abort(EmptyAccumulator)
    else Ok(Merge(s.(armed := false), 0))
  }

  /** The bitwise union of a sequence of event sets. */
  function Union(evs: seq<Mask>): Mask {
    if |evs| == 0 then 0 else evs[0] | Union(evs[1..])
  }

  lemma HasUnionOfTwo(a: Mask, b: Mask, bit: Mask)
    ensures Has(a | b, bit) <==> Has(a, bit) || Has(b, bit)
  {
    assert (a | b) & bit == (a & bit) | (b & bit);
    NonZeroUnion(a & bit, b & bit);
  }

  lemma HasUnionCons(evs: seq<Mask>, bit: Mask)
    requires |evs| > 0
    ensures Has(Union(evs), bit) <==> Has(evs[0], bit) || Has(Union(evs[1..]), bit)
  {
    HasUnionOfTwo(evs[0], Union(evs[1..]), bit);
  }

  lemma NonZeroUnion(x: Mask, y: Mask)
    ensures x | y != 0 <==> x != 0 || y != 0
  {
  }

  /** Some set in the sequence has the bit. */
  ghost predicate SomeHas(evs: seq<Mask>, bit: Mask) {
    exists j :: 0 <= j < |evs| && Has(evs[j], bit)
  }

  /** A bit is in the union exactly when some set in the sequence has it. */
  lemma {:induction false} UnionHasBit(evs: seq<Mask>, bit: Mask)
    ensures Has(Union(evs), bit) <==> SomeHas(evs, bit)
    decreases |evs|
  {
    if |evs| > 0 {
      UnionHasBit(evs[1..], bit);
      HasUnionCons(evs, bit);
      SomeHasCons(evs, bit);
    }
  }

  lemma SomeHasCons(evs: seq<Mask>, bit: Mask)
    requires |evs| > 0
    ensures SomeHas(evs, bit) <==> Has(evs[0], bit) || SomeHas(evs[1..], bit)
  {
    var tail := evs[1..];
    if SomeHas(tail, bit) {
      var j :| 0 <= j < |tail| && Has(tail[j], bit);
      assert evs[j + 1] == tail[j];
    }
    if SomeHas(evs, bit) {
      var j :| 0 <= j < |evs| && Has(evs[j], bit);
      if j > 0 {
        assert tail[j - 1] == evs[j];
      }
    }
  }

  /** Several `activate` calls in one loop iteration, in order; the first
      abort ends the sequence. */
  function ActivateAll(s: EventState, evs: seq<Mask>): Checked<Step>
    decreases |evs|
  {
    if |evs| == 0 then Ok(Step(s, []))
    else
      var first :- Activate(s, evs[0]);
      var rest :- ActivateAll(first.state, evs[1..]);
      Ok(Step(rest.state, first.effects + rest.effects))
  }

  /** Activations keep the invariant, deliver every set synchronously in
      order, arm the activation callback at most once (exactly once when
      nothing was pending), and leave the union of all sets pending. */
  lemma {:induction false} ActivateAllAccumulates(s: EventState, evs: seq<Mask>)
    requires Valid(s)
    requires forall j :: 0 <= j < |evs| ==> ValidEvents(evs[j])
    ensures ActivateAll(s, evs).Ok?
    ensures Valid(ActivateAll(s, evs).value.state)
    ensures ActivateAll(s, evs).value.state.injected == s.injected | Union(evs)
    ensures ActivateAll(s, evs).value.state.latched == s.latched
    ensures Delivered(ActivateAll(s, evs).value.effects) == evs
    ensures Schedules(ActivateAll(s, evs).value.effects)
            == (if s.injected == 0 && |evs| > 0 then 1 else 0)
    decreases |evs|
  {
    if |evs| > 0 {
      var first := Activate(s, evs[0]).value;
      ActivateAllAccumulates(first.state, evs[1..]);
      var rest := ActivateAll(first.state, evs[1..]).value;
      DeliveredAppend(first.effects, rest.effects);
      SchedulesAppend(first.effects, rest.effects);
      assert evs == [evs[0]] + evs[1..];
    }
  }

  /** Coalescing: from a quiet coalescer, any non-empty run of valid
      activations before the loop advances arms the activation callback
      once, and the next iteration delivers one merged set, the union of all
      of them, and leaves the coalescer quiet again. */
  lemma CoalescedDelivery(s: EventState, evs: seq<Mask>)
    requires Valid(s) && s.injected == 0
    requires |evs| > 0
    requires forall j :: 0 <= j < |evs| ==> ValidEvents(evs[j])
    ensures ActivateAll(s, evs).Ok?
    ensures Schedules(ActivateAll(s, evs).value.effects) == 1
    ensures NextIteration(ActivateAll(s, evs).value.state).Ok?
    ensures Delivered(NextIteration(ActivateAll(s, evs).value.state).value.effects) == [Union(evs)]
    ensures NextIteration(ActivateAll(s, evs).value.state).value.state == s
  {
    ActivateAllAccumulates(s, evs);
  }

  /** The operations that do not inject events leave the pending state and
      the armed flag as they were and never run the host callback. */
  lemma PassiveOperationsKeepPending(s: EventState, events: Mask)
    ensures SetEnabled(s, events).state == s
    ensures RegisterEventIfEmulatedEdge(s, events) == Step(s, [])
    ensures UnregisterEventIfEmulatedEdge(s, events) == Step(s, [])
  {
  }

  /** The latched toggle is fixed at construction: no operation changes it. */
  lemma LatchedNeverChanges(s: EventState, events: Mask)
    ensures Activate(s, events).Ok? ==> Activate(s, events).value.state.latched == s.latched
    ensures NextIteration(s).Ok? ==> NextIteration(s).value.state.latched == s.latched
    ensures SetEnabled(s, events).state.latched == s.latched
  {
  }
}
