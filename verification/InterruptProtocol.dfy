/**
 Driver and device on one queue, step by step, for the interrupts from device to driver.

 The driver side is virtqueue_get_buf, virtqueue_disable_cb, virtqueue_enable_cb,
 virtqueue_enable_cb_delayed and virtqueue_poll; the device completes buffers in batches and,
 after publishing used->idx, decides by section 2.4.9 of VIRTIO 1.0 whether to interrupt.
 */
module InterruptProtocol {
  import opened Words

  datatype Driver =
    | Active                       // processing buffers
    | Enabling(limit: nat)         // wrote used_event and the flag, has not looked at used->idx yet
    | Waiting(eventPos: nat, until: nat)  // enable_cb returned true with used_event at eventPos;
                                          // everything published up to `until` was in flight then
  datatype Device = Quiet | Deciding(start: nat)

  datatype State = State(
    num: nat,
    event: bool,
    published: nat,        // avail->idx
    used: nat,             // used->idx
    lastUsed: nat,         // last_used_idx
    noInterrupt: bool,     // VRING_AVAIL_F_NO_INTERRUPT
    usedEvent: nat,
    driver: Driver,
    device: Device,
    raised: bool           // an interrupt the driver has not handled
  )

  predicate Init(s: State)
  {
    && RingSize(s.num)
    && s.published == s.used == s.lastUsed == s.usedEvent == 0
    && s.driver == Active && s.device == Quiet && !s.raised
  }

  datatype Step =
    | Add | GetBuf | DisableCb | Enable(delayed: bool) | Check | Handle | Resume
    | Complete(count: nat) | Decide

  // (u16)(avail->idx - last_used_idx) * 3 / 4
  function DelayedBufs(s: State): nat { Wrap16(Wrap16(s.published) - Wrap16(s.lastUsed)) * 3 / 4 }

  predicate Decision(s: State)
    requires s.device.Deciding?
  {
    if s.event then NeedEvent(s.usedEvent, Wrap16(s.used), Wrap16(s.device.start)) else !s.noInterrupt
  }

  predicate Enabled(s: State, step: Step)
  {
    match step
    case Add => !s.driver.Enabling? && s.published - s.lastUsed < s.num
    case GetBuf => s.driver == Active && Wrap16(s.lastUsed) != Wrap16(s.used)
    case DisableCb => s.driver == Active
    case Enable(delayed) => s.driver == Active
    case Check => s.driver.Enabling?
    case Handle => s.raised && !s.driver.Enabling?
    case Resume => s.driver.Waiting?
    case Complete(count) => s.device == Quiet && 0 < count <= s.published - s.used
    case Decide => s.device.Deciding?
  }

  function Apply(s: State, step: Step): State
    requires Enabled(s, step)
  {
    match step
    case Add => s.(published := s.published + 1)
    case GetBuf =>
      s.(lastUsed := s.lastUsed + 1, usedEvent := if s.noInterrupt then s.usedEvent else Wrap16(s.lastUsed + 1))
    case DisableCb => s.(noInterrupt := true)
    case Enable(delayed) =>
      var limit := if delayed then DelayedBufs(s) else 0;
      s.(noInterrupt := false, usedEvent := Wrap16(Wrap16(s.lastUsed) + limit), driver := Enabling(limit))
    // virtqueue_poll and the test in virtqueue_enable_cb_delayed
    case Check =>
      if Wrap16(Wrap16(s.used) - Wrap16(s.lastUsed)) > s.driver.limit then s.(driver := Active)
      else s.(driver := Waiting(s.lastUsed + s.driver.limit, s.published))
    case Handle => s.(raised := false, driver := Active)
    // the driver looks at the queue again without having been interrupted
    case Resume => s.(driver := Active)
    case Complete(count) => s.(used := s.used + count, device := Deciding(s.used))
    case Decide => s.(device := Quiet, raised := s.raised || Decision(s))
  }

  predicate Moves(s: State, step: Step, s': State)
  {
    Enabled(s, step) && s' == Apply(s, step)
  }

  predicate NextAt(states: seq<State>, steps: seq<Step>, i: nat)
    requires i < |steps| && |states| == |steps| + 1
  {
    Moves(states[i], steps[i], states[i + 1])
  }

  predicate IsRun(states: seq<State>, steps: seq<Step>)
  {
    && |states| == |steps| + 1
    && Init(states[0])
    && (forall i :: 0 <= i < |steps| ==> NextAt(states, steps, i))
  }

  predicate Crossed(s: State)
    requires s.driver.Waiting?
  {
    s.used > s.driver.eventPos
  }

  ghost predicate Inv(s: State)
  {
    && RingSize(s.num)
    && s.lastUsed <= s.used <= s.published <= s.lastUsed + s.num
    && (s.device.Deciding? ==> s.used - s.num <= s.device.start < s.used)
    && (s.driver.Enabling? ==>
          !s.noInterrupt && s.usedEvent == Wrap16(s.lastUsed + s.driver.limit)
          && s.driver.limit <= (s.published - s.lastUsed) * 3 / 4)
    && (s.driver.Waiting? ==>
          var e := s.driver.eventPos;
          && !s.noInterrupt && s.usedEvent == Wrap16(e)
          && s.lastUsed <= e && s.driver.until <= s.published
          && (if s.driver.until == s.lastUsed then e == s.lastUsed else e < s.driver.until)
          // the event was crossed only if that was, or is about to be, signalled
          && (Crossed(s) ==> s.raised || (s.device.Deciding? && s.device.start <= e)))
  }

  lemma Differences(s: State)
    requires Inv(s)
    ensures Wrap16(Wrap16(s.published) - Wrap16(s.lastUsed)) == s.published - s.lastUsed
    ensures Wrap16(Wrap16(s.used) - Wrap16(s.lastUsed)) == s.used - s.lastUsed
  {
    WrapDifference(s.published, s.lastUsed);
    WrapDifference(s.used, s.lastUsed);
  }

  // A batch that steps over the event position raises the interrupt.
  lemma CrossingIsSignalled(s: State)
    requires Inv(s) && s.driver.Waiting? && s.device.Deciding?
    requires s.device.start <= s.driver.eventPos < s.used
    ensures Decision(s)
  {
    if s.event {
      NeedEventIffCrossed(s.usedEvent, s.used, s.device.start);
      assert Wrap16(s.driver.eventPos) == s.usedEvent;
    }
  }

  lemma EnableInv(s: State, delayed: bool)
    requires Inv(s) && s.driver == Active
    ensures Inv(Apply(s, Enable(delayed)))
  {
    Differences(s);
    var limit := if delayed then DelayedBufs(s) else 0;
    var q := s.lastUsed / TWO_16;
    assert s.lastUsed + limit == (Wrap16(s.lastUsed) + limit) + TWO_16 * q;
    ModAddMultiple(Wrap16(s.lastUsed) + limit, q, TWO_16);
  }

  lemma GetBufInv(s: State)
    requires Inv(s) && Enabled(s, GetBuf)
    ensures Inv(Apply(s, GetBuf))
  {
    Differences(s);
  }

  lemma CheckInv(s: State)
    requires Inv(s) && Enabled(s, Check)
    ensures Inv(Apply(s, Check))
  {
    Differences(s);
  }

  lemma DecideInv(s: State)
    requires Inv(s) && Enabled(s, Decide)
    ensures Inv(Apply(s, Decide))
  {
    if s.driver.Waiting? && s.device.start <= s.driver.eventPos < s.used { CrossingIsSignalled(s); }
  }

  lemma PlainInv(s: State, step: Step)
    requires Inv(s) && Enabled(s, step)
    requires step.Add? || step.DisableCb? || step.Handle? || step.Resume? || step.Complete?
    ensures Inv(Apply(s, step))
  {
  }

  lemma StepInv(s: State, step: Step, s': State)
    requires Inv(s) && Moves(s, step, s')
    ensures Inv(s')
  {
    match step
    case GetBuf => GetBufInv(s);
    case Enable(delayed) => EnableInv(s, delayed);
    case Check => CheckInv(s);
    case Decide => DecideInv(s);
    case _ => PlainInv(s, step);
  }

  lemma {:induction false} RunInv(states: seq<State>, steps: seq<Step>, k: nat)
    requires IsRun(states, steps) && k < |states|
    ensures Inv(states[k])
  {
    if k > 0 {
      RunInv(states, steps, k - 1);
      assert NextAt(states, steps, k - 1);
      StepInv(states[k - 1], steps[k - 1], states[k]);
    }
  }

  // When virtqueue_enable_cb or virtqueue_enable_cb_delayed has returned true, the used_event left
  // behind is at or after last_used_idx, and before the end of what was in flight, if anything was.
  lemma EventInReach(states: seq<State>, steps: seq<Step>, k: nat)
    requires IsRun(states, steps) && k < |states| && states[k].driver.Waiting?
    ensures var s := states[k];
      && s.usedEvent == Wrap16(s.driver.eventPos)
      && s.lastUsed <= s.driver.eventPos
      && (s.lastUsed < s.driver.until ==> s.driver.eventPos < s.driver.until <= s.published)
  {
    RunInv(states, steps, k);
  }

  // So once the device has completed everything that was in flight and made up its mind
  // about an interrupt, one has been raised -- or the driver has already run again.
  lemma NoInterruptLost(states: seq<State>, steps: seq<Step>, k: nat)
    requires IsRun(states, steps) && k < |states|
    requires var s := states[k];
      s.driver.Waiting? && s.lastUsed < s.driver.until <= s.used && s.device == Quiet
    ensures states[k].raised
  {
    RunInv(states, steps, k);
  }

  // With nothing in flight, the very next completion does.
  lemma FirstCompletionInterrupts(states: seq<State>, steps: seq<Step>, k: nat)
    requires IsRun(states, steps) && k < |states|
    requires var s := states[k];
      s.driver.Waiting? && s.driver.until == s.lastUsed < s.used && s.device == Quiet
    ensures states[k].raised
  {
    RunInv(states, steps, k);
  }

  // A return value of false is never for nothing: more buffers than the limit are waiting.
  lemma FalseMeansWork(s: State)
    requires Inv(s) && s.driver.Enabling?
    ensures Apply(s, Check).driver == Active <==> s.used - s.lastUsed > s.driver.limit
    ensures Apply(s, Check).driver == Active ==> Wrap16(s.lastUsed) != Wrap16(s.used)
  {
    Differences(s);
    if s.used != s.lastUsed { WrapsApart(s.used, s.lastUsed); }
  }
}
