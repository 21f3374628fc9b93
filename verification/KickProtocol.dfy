/**
 Driver and device on one queue, step by step, for the notifications from driver to device.

 Positions are unbounded; every comparison the two sides make is on their u16 values. The
 driver side is virtqueue_add, virtqueue_kick_prepare, virtqueue_notify; the device side is a
 device of sections 2.4.7 and 2.4.9 of VIRTIO 1.0: it looks for buffers, publishes where it wants
 the next kick, looks once more, and only then sleeps.
 */
module KickProtocol {
  import opened Words
  import Vring

  // Between clearing num_added and reading what the device published, the driver has a window open.
  datatype Driver = Idle | Window(start: nat)
  datatype Device = Running | Armed | Asleep

  datatype State = State(
    num: nat,            // queue size
    event: bool,         // VIRTIO_RING_F_EVENT_IDX
    published: nat,      // avail->idx
    returned: nat,       // last_used_idx
    numAdded: nat,
    driver: Driver,
    owed: nat,           // kick_prepare answered true, notify not called yet
    notified: bool,      // a notification the device has not taken
    seen: nat,           // how far the device has read the avail ring
    availEvent: nat,
    noNotify: bool,      // VRING_USED_F_NO_NOTIFY
    device: Device
  )

  predicate Init(s: State)
  {
    && RingSize(s.num)
    && s.published == s.returned == s.numAdded == s.owed == s.seen == s.availEvent == 0
    && s.driver == Idle && s.device == Running && !s.notified && !s.noNotify
  }

  datatype Step =
    | Add | KickPrepare | KickDecide | Notify | NotifyFull | Reclaim
    | Fetch | Disarm | Arm | Recheck | Wake | ClearLatch

  // virtqueue_add: at num_added == 2^16 - 1 it goes straight on to the kick.
  function AfterAdd(s: State, forced: bool): State
  {
    var added := s.(published := s.published + 1, numAdded := s.numAdded + 1);
    if forced && added.numAdded == Vring.FORCED_KICK then OpenWindow(added) else added
  }

  // The first half of virtqueue_kick_prepare, up to reading the device's side.
  function OpenWindow(s: State): State
  {
    s.(driver := Window(if s.numAdded <= s.published then s.published - s.numAdded else 0), numAdded := 0)
  }

  predicate Decision(s: State)
    requires s.driver.Window?
  {
    if s.event then NeedEvent(s.availEvent, Wrap16(s.published), Wrap16(s.driver.start)) else !s.noNotify
  }

  ghost predicate Enabled(s: State, step: Step)
  {
    match step
    case Add => s.driver == Idle && s.published - s.returned < s.num
    case KickPrepare => s.driver == Idle
    case KickDecide => s.driver.Window?
    case Notify => s.owed > 0
    case NotifyFull => s.driver == Idle
    case Reclaim => s.returned < s.seen
    case Fetch => s.device == Running && Wrap16(s.published) != Wrap16(s.seen)
    case Disarm => s.device == Running
    case Arm => s.device == Running
    case Recheck => s.device == Armed
    case Wake => s.device == Asleep
    case ClearLatch => s.device == Running
  }

  // `forced`: does virtqueue_add kick by itself when num_added gets to 2^16 - 1, as it does?
  function Apply(s: State, step: Step, forced: bool): State
    requires step.KickDecide? ==> s.driver.Window?
  {
    match step
    case Add => AfterAdd(s, forced)
    case KickPrepare => OpenWindow(s)
    case KickDecide => s.(driver := Idle, owed := if Decision(s) then s.owed + 1 else s.owed)
    case Notify => s.(owed := if s.owed > 0 then s.owed - 1 else 0, notified := true)
    // virtqueue_add finds no room for a request with out elements
    case NotifyFull => s.(notified := true)
    case Reclaim => s.(returned := s.returned + 1)
    // the device reads one more entry; it may finish and return it any time later
    case Fetch => s.(seen := s.seen + 1)
    case Disarm => s.(noNotify := true)
    case Arm => s.(availEvent := Wrap16(s.seen), noNotify := false, device := Armed)
    case Recheck => s.(device := if Wrap16(s.published) == Wrap16(s.seen) then Asleep else Running)
    case Wake => s.(device := Running, notified := false)
    case ClearLatch => s.(notified := false)
  }

  ghost predicate Moves(s: State, step: Step, s': State, forced: bool)
  {
    Enabled(s, step) && s' == Apply(s, step, forced)
  }

  ghost predicate NextAt(states: seq<State>, steps: seq<Step>, i: nat, forced: bool)
    requires i < |steps| && |states| == |steps| + 1
  {
    Moves(states[i], steps[i], states[i + 1], forced)
  }

  // Any interleaving of the two sides.
  ghost predicate IsRun(states: seq<State>, steps: seq<Step>, forced: bool)
  {
    && |states| == |steps| + 1
    && Init(states[0])
    && (forall i :: 0 <= i < |steps| ==> NextAt(states, steps, i, forced))
  }

  /* ---- no buffer is left waiting ---- */

  // Where the driver's responsibility to kick begins: everything before it was kicked for.
  function Responsible(s: State): int
  {
    match s.driver
    case Idle => s.published - s.numAdded
    case Window(start) => start
  }

  ghost predicate Inv(s: State)
  {
    && RingSize(s.num)
    && s.returned <= s.seen <= s.published <= s.returned + s.num
    && s.numAdded < Vring.FORCED_KICK
    && 0 <= Responsible(s) <= s.published
    && (s.driver.Window? ==> s.published - s.driver.start <= Vring.FORCED_KICK && s.numAdded == 0)
    && (s.device != Running ==> s.availEvent == Wrap16(s.seen) && !s.noNotify)
    && (s.device == Asleep && !s.notified && s.owed == 0 ==> s.seen >= Responsible(s))
  }

  lemma InitInv(s: State)
    requires Init(s)
    ensures Inv(s)
  {
  }

  // A sleeping device whose position lies in the window is kicked if it has anything to do.
  lemma DecisionSound(s: State)
    requires Inv(s) && s.driver.Window? && s.device == Asleep
    requires s.driver.start <= s.seen < s.published
    ensures Decision(s)
  {
    if s.event {
      NeedEventIffCrossed(s.availEvent, s.published, s.driver.start);
      assert s.driver.start <= s.seen < s.published && Wrap16(s.seen) == s.availEvent;
    }
  }

  // Nor is it kicked without need: with event indices exactly if the index passed the place where the
  // device wants to hear of it, whatever wrapped in between.
  lemma DecisionIff(s: State)
    requires Inv(s) && s.driver.Window? && s.availEvent < TWO_16
    ensures s.event ==>
              (Decision(s) <==> exists p :: s.driver.start <= p < s.published && Wrap16(p) == s.availEvent)
    ensures !s.event ==> (Decision(s) <==> !s.noNotify)
  {
    if s.event { NeedEventIffCrossed(s.availEvent, s.published, s.driver.start); }
  }

  lemma SameIndexSamePosition(s: State)
    requires Inv(s)
    ensures Wrap16(s.published) == Wrap16(s.seen) <==> s.published == s.seen
  {
    if s.published != s.seen { WrapsApart(s.published, s.seen); }
  }

  lemma KickDecideInv(s: State)
    requires Inv(s) && Enabled(s, KickDecide)
    ensures Inv(Apply(s, KickDecide, true))
  {
    if s.device == Asleep && !s.notified && s.owed == 0 && s.seen < s.published { DecisionSound(s); }
  }

  lemma LookInv(s: State, step: Step)
    requires Inv(s) && Enabled(s, step) && (step.Fetch? || step.Recheck?)
    ensures Inv(Apply(s, step, true))
  {
    SameIndexSamePosition(s);
  }

  lemma PlainInv(s: State, step: Step)
    requires Inv(s) && Enabled(s, step) && !step.KickDecide? && !step.Fetch? && !step.Recheck?
    ensures Inv(Apply(s, step, true))
  {
  }

  lemma StepInv(s: State, step: Step, s': State)
    requires Inv(s) && Moves(s, step, s', true)
    ensures Inv(s')
  {
    match step
    case KickDecide => KickDecideInv(s);
    case Fetch => LookInv(s, step);
    case Recheck => LookInv(s, step);
    case _ => PlainInv(s, step);
  }

  lemma {:induction false} RunInv(states: seq<State>, steps: seq<Step>, k: nat)
    requires IsRun(states, steps, true) && k < |states|
    ensures Inv(states[k])
  {
    if k == 0 {
      InitInv(states[0]);
    } else {
      RunInv(states, steps, k - 1);
      assert NextAt(states, steps, k - 1, true);
      StepInv(states[k - 1], steps[k - 1], states[k]);
    }
  }

  // Nothing the driver still has to do: no unkicked addition, no kick under way.
  predicate DriverDone(s: State) { s.driver == Idle && s.numAdded == 0 && s.owed == 0 }

  // In every interleaving: when the device sleeps and the driver has kicked for all it
  // added, either the device has seen every published buffer or a notification is pending.
  lemma NoKickLost(states: seq<State>, steps: seq<Step>, k: nat)
    requires IsRun(states, steps, true) && k < |states|
    requires states[k].device == Asleep && DriverDone(states[k])
    ensures states[k].seen == states[k].published || states[k].notified
  {
    RunInv(states, steps, k);
  }

  /* ---- and the forced kick is what makes it so ---- */

  // k times: add one buffer, have the device read it, take it back.
  function Pumped(k: nat): State
  {
    State(1, true, k, k, k, Idle, 0, false, k, 0, false, Running)
  }

  lemma {:induction false} Pump(k: nat) returns (states: seq<State>, steps: seq<Step>)
    ensures IsRun(states, steps, false) && states[|states| - 1] == Pumped(k)
  {
    if k == 0 {
      states, steps := [Pumped(0)], [];
    } else {
      states, steps := Pump(k - 1);
      var p := Pumped(k - 1);
      var a := p.(published := k, numAdded := k);
      var f := a.(seen := k);
      WrapsApart(k, k - 1);
      states, steps := Extend(states, steps, Add, a);
      states, steps := Extend(states, steps, Fetch, f);
      states, steps := Extend(states, steps, Reclaim, Pumped(k));
    }
  }

  lemma Extend(states: seq<State>, steps: seq<Step>, step: Step, s': State)
    returns (states': seq<State>, steps': seq<Step>)
    requires IsRun(states, steps, false) && Moves(states[|states| - 1], step, s', false)
    ensures IsRun(states', steps', false) && states'[|states'| - 1] == s'
  {
    states', steps' := states + [s'], steps + [step];
    forall i | 0 <= i < |steps'|
      ensures NextAt(states', steps', i, false)
    {
      if i < |steps| { assert NextAt(states, steps, i, false); }
    }
  }

  // Without it, 2^16 additions in one window make old and new the same u16: the kick is
  // suppressed and the device sleeps on a buffer it never hears of.
  lemma UnforcedKickIsLost() returns (states: seq<State>, steps: seq<Step>)
    ensures IsRun(states, steps, false)
    ensures var s := states[|states| - 1];
      s.device == Asleep && DriverDone(s) && s.seen < s.published && !s.notified
  {
    var n := TWO_16 - 1;
    states, steps := Pump(n);
    var p := Pumped(n);
    var armed := p.(availEvent := n, device := Armed);
    states, steps := Extend(states, steps, Arm, armed);
    var asleep := armed.(device := Asleep);
    states, steps := Extend(states, steps, Recheck, asleep);
    var added := asleep.(published := n + 1, numAdded := n + 1);
    states, steps := Extend(states, steps, Add, added);
    var window := added.(numAdded := 0, driver := Window(0));
    states, steps := Extend(states, steps, KickPrepare, window);
    assert !Decision(window);
    states, steps := Extend(states, steps, KickDecide, window.(driver := Idle));
  }
}
