/**
 Driver and device together: runs of the queue's own operations, interleaved with those of a device
 that follows sections 2.4.7 to 2.4.9 of VIRTIO 1.0. Each is a run of the kick protocol and of the
 interrupt protocol, and every buffer goes round once.
 */
module QueueRuns {
  import opened Words
  import opened Basics
  import opened Vring
  import opened VringInvariant
  import opened VringSteps
  import opened VringTheorems
  import opened VringAccounting
  import opened VringHistory
  import Kicks = KickProtocol
  import Interrupts = InterruptProtocol

  datatype World = World(
    r: Ring,
    log: seq<nat>,              // the heads published so far
    sent: seq<seq<Elem>>,       // the requests they stand for
    given: seq<nat>,            // and the tokens that came with these
    returned: nat,              // buffers taken back so far
    mode: Interrupts.Driver,
    raised: bool,
    notified: bool,
    seen: nat,                  // avail entries the device has read
    atDevice: multiset<nat>,    // heads it has read and not put into the used ring
    done: seq<nat>,             // heads it has put there so far
    used: nat,                  // and how many of them used->idx covers
    usedRing: seq<UsedElem>,
    availEvent: nat,
    noNotify: bool,
    device: Kicks.Device,
    batch: Interrupts.Device
  )

  datatype Step =
    | Driver(op: Op) | Check | Handle | Resume
    | Fetch | Put(e: UsedElem) | Complete | Decide
    | Disarm | Arm | Recheck | Wake | ClearLatch

  ghost predicate Init(w: World)
  {
    && IsNew(w.r) && w.log == w.done == w.given == [] && w.sent == [] && w.atDevice == multiset{}
    && w.returned == w.seen == w.used == w.availEvent == 0 && |w.usedRing| == w.r.Num()
    && !w.raised && !w.notified && !w.noNotify
    && w.mode == Interrupts.Active && w.device == Kicks.Running && w.batch == Interrupts.Quiet
  }

  // What the driver's operations read of the device's side is what is there.
  predicate ReadsWorld(w: World, op: Op)
  {
    match op
    case OpAdd(_, _, _, _, dev) => dev == KickView(w.availEvent, w.noNotify)
    case OpKick(dev) => dev == KickView(w.availEvent, w.noNotify)
    case OpGet(used) => used == UsedView(Wrap16(w.used), w.usedRing)
    case _ => true
  }

  predicate Enabled(w: World, step: Step)
  {
    match step
    case Driver(op) =>
      && Legal(w.r, op) && ReadsWorld(w, op) && !op.OpDetachUnused? && !w.mode.Enabling?
      && (!op.OpAdd? && !op.OpKick? ==> w.mode == Interrupts.Active)
    case Check => w.mode.Enabling?
    case Handle => w.raised && !w.mode.Enabling?
    case Resume => w.mode.Waiting?
    case Fetch => w.device == Kicks.Running && w.r.availIdx != Wrap16(w.seen) && |w.r.avail| > 0
    case Put(e) => w.batch == Interrupts.Quiet && e.id in w.atDevice && |w.usedRing| > 0
    case Complete => w.batch == Interrupts.Quiet && w.used < |w.done|
    case Decide => w.batch.Deciding?
    case Disarm => w.device == Kicks.Running
    case Arm => w.device == Kicks.Running
    case Recheck => w.device == Kicks.Armed
    case Wake => w.device == Kicks.Asleep
    case ClearLatch => w.device == Kicks.Running
  }

  function Took(r: Ring, op: Op): nat
    requires Legal(r, op)
  {
    if op.OpGet? && GetResult(r, op.used).Got? then 1 else 0
  }

  function SentBy(r: Ring, op: Op): seq<seq<Elem>>
  {
    if PublishedBy(r, op) != [] then [op.elems] else []
  }

  function TokenOf(r: Ring, op: Op): seq<nat>
  {
    if PublishedBy(r, op) != [] then [op.token] else []
  }

  function AfterOp(w: World, op: Op): World
    requires Legal(w.r, op)
  {
    var r' := VringTheorems.Step(w.r, op);
    w.(r := r', log := w.log + PublishedBy(w.r, op), sent := w.sent + SentBy(w.r, op),
       given := w.given + TokenOf(w.r, op),
       returned := w.returned + Took(w.r, op),
       notified := w.notified || r'.notifies != w.r.notifies,
       mode := match op
               case OpEnableCb => Interrupts.Enabling(0)
               case OpEnableCbDelayed => Interrupts.Enabling(DelayedBufs(w.r))
               case _ => w.mode)
  }

  predicate Interrupting(w: World)
    requires w.batch.Deciding?
  {
    if w.r.event then NeedEvent(w.r.usedEvent, Wrap16(w.used), Wrap16(w.batch.start)) else !w.r.noInterrupt
  }

  function Apply(w: World, step: Step): World
    requires Enabled(w, step)
  {
    match step
    case Driver(op) => AfterOp(w, op)
    // the test behind enabling: are more than the limit waiting already?
    case Check =>
      if Wrap16(Wrap16(w.used) - w.r.lastUsedIdx) > w.mode.limit then w.(mode := Interrupts.Active)
      else w.(mode := Interrupts.Waiting(w.returned + w.mode.limit, |w.log|))
    case Handle => w.(raised := false, mode := Interrupts.Active)
    case Resume => w.(mode := Interrupts.Active)
    case Fetch =>
      w.(seen := w.seen + 1, atDevice := w.atDevice + multiset{w.r.avail[Slot(Wrap16(w.seen), |w.r.avail|)]})
    case Put(e) =>
      w.(atDevice := w.atDevice - multiset{e.id}, done := w.done + [e.id],
         usedRing := w.usedRing[Slot(Wrap16(|w.done|), |w.usedRing|) := e])
    case Complete => w.(used := |w.done|, batch := Interrupts.Deciding(w.used))
    case Decide => w.(batch := Interrupts.Quiet, raised := w.raised || Interrupting(w))
    case Disarm => w.(noNotify := true)
    case Arm => w.(availEvent := Wrap16(w.seen), noNotify := false, device := Kicks.Armed)
    case Recheck => w.(device := if w.r.availIdx == Wrap16(w.seen) then Kicks.Asleep else Kicks.Running)
    case Wake => w.(device := Kicks.Running, notified := false)
    case ClearLatch => w.(notified := false)
  }

  predicate NextAt(worlds: seq<World>, steps: seq<Step>, i: nat)
    requires i < |steps| && |worlds| == |steps| + 1
  {
    Enabled(worlds[i], steps[i]) && worlds[i + 1] == Apply(worlds[i], steps[i])
  }

  ghost predicate IsRun(worlds: seq<World>, steps: seq<Step>)
  {
    && |worlds| == |steps| + 1
    && Init(worlds[0])
    && (forall i :: 0 <= i < |steps| ==> NextAt(worlds, steps, i))
  }

  /* ---- the two protocols behind a world ---- */

  function KickState(w: World): Kicks.State
  {
    Kicks.State(w.r.Num(), w.r.event, |w.log|, w.returned, w.r.numAdded, Kicks.Idle, 0, w.notified,
                w.seen, w.availEvent, w.noNotify, w.device)
  }

  function InterruptState(w: World): Interrupts.State
  {
    Interrupts.State(w.r.Num(), w.r.event, |w.log|, w.used, w.returned, w.r.noInterrupt, w.r.usedEvent,
                     w.mode, w.batch, w.raised)
  }

  ghost predicate KickReach(s: Kicks.State)
  {
    exists states, steps :: Kicks.IsRun(states, steps, true) && states[|states| - 1] == s
  }

  ghost predicate InterruptReach(s: Interrupts.State)
  {
    exists states, steps :: Interrupts.IsRun(states, steps) && states[|states| - 1] == s
  }

  lemma KickOn(s: Kicks.State, step: Kicks.Step, s': Kicks.State)
    requires KickReach(s) && Kicks.Moves(s, step, s', true)
    ensures KickReach(s')
  {
    var states, steps :| Kicks.IsRun(states, steps, true) && states[|states| - 1] == s;
    var states', steps' := states + [s'], steps + [step];
    forall i | 0 <= i < |steps'|
      ensures Kicks.NextAt(states', steps', i, true)
    {
      if i < |steps| { assert Kicks.NextAt(states, steps, i, true); }
    }
    assert Kicks.IsRun(states', steps', true) && states'[|states'| - 1] == s';
  }

  lemma InterruptOn(s: Interrupts.State, step: Interrupts.Step, s': Interrupts.State)
    requires InterruptReach(s) && Interrupts.Moves(s, step, s')
    ensures InterruptReach(s')
  {
    var states, steps :| Interrupts.IsRun(states, steps) && states[|states| - 1] == s;
    var states', steps' := states + [s'], steps + [step];
    forall i | 0 <= i < |steps'|
      ensures Interrupts.NextAt(states', steps', i)
    {
      if i < |steps| { assert Interrupts.NextAt(states, steps, i); }
    }
    assert Interrupts.IsRun(states', steps') && states'[|states'| - 1] == s';
  }

  lemma KickReachInv(s: Kicks.State)
    requires KickReach(s)
    ensures Kicks.Inv(s)
  {
    var states, steps :| Kicks.IsRun(states, steps, true) && states[|states| - 1] == s;
    Kicks.RunInv(states, steps, |steps|);
  }

  lemma InterruptReachInv(s: Interrupts.State)
    requires InterruptReach(s)
    ensures Interrupts.Inv(s)
  {
    var states, steps :| Interrupts.IsRun(states, steps) && states[|states| - 1] == s;
    Interrupts.RunInv(states, steps, |steps|);
  }

  /* ---- where the buffers are ---- */

  // Each buffer in flight is in one place: published and not read by the device yet, with the
  // device, or in the used ring.
  ghost predicate InPlaces(heads: set<nat>, w: World)
  {
    && w.returned <= w.used <= |w.done| && w.seen <= |w.log| && |w.done| + |w.atDevice| == w.seen
    && multiset(w.log[w.seen..]) + w.atDevice + multiset(w.done[w.returned..]) == multiset(heads)
  }

  // The used ring holds what was put there and is not taken back yet.
  ghost predicate UsedOk(w: World)
  {
    |w.usedRing| == w.r.Num() && Listed(w.usedRing, w.done, w.returned)
  }

  ghost predicate Listed(ring: seq<UsedElem>, done: seq<nat>, from: nat)
  {
    |ring| > 0 && from <= |done| && forall q: nat :: from <= q < |done| ==> ring[Slot(Wrap16(q), |ring|)].id == done[q]
  }

  // The requests the device has not read yet are laid out as they were added.
  ghost predicate SentOk(w: World, g: Shape)
  {
    && |w.sent| == |w.log|
    && forall q: nat :: w.seen <= q < |w.log| ==> w.log[q] in g.bufs && g.bufs[w.log[q]] == w.sent[q]
  }

  // Each buffer in flight has the token that came with its last publication.
  ghost predicate TokensGiven(r: Ring, log: seq<nat>, given: seq<nat>)
  {
    |given| == |log| && forall h: nat :: IsHead(r, h) ==> h in log && r.data[h] == given[LastOf(log, h)]
  }

  ghost predicate RingOf(w: World, g: Shape)
  {
    Inv(w.r, g) && g.log == w.log && |g.log| - |g.chains| == w.returned
  }

  ghost predicate Books(w: World, g: Shape)
  {
    && RingOf(w, g) && !w.r.broken && InPlaces(g.chains.Keys, w) && UsedOk(w) && SentOk(w, g)
    && TokensGiven(w.r, w.log, w.given)
  }

  /* ---- the queue under an operation ---- */

  lemma RingStep(w: World, g: Shape, op: Op) returns (g': Shape)
    requires RingOf(w, g) && Enabled(w, Driver(op))
    ensures RingOf(AfterOp(w, op), g') && g' == StepShape(w.r, g, op)
  {
    g' := StepShape(w.r, g, op);
    StepInv(w.r, g, op);
    ShapeLog(w.r, g, op);
    ChainsChange(w.r, g, op);
  }

  lemma AddedSizes(r: Ring, g: Shape, elems: seq<Elem>, token: nat, kmalloc: Option<nat>)
    requires Inv(r, g) && AddOutcome(r, elems, token, kmalloc).Added?
    ensures var g' := AddShape(r, g, elems, token, kmalloc);
      |g'.log| == |g.log| + 1 && |g'.chains| == |g.chains| + 1 && |g.chains| < r.Num()
  {
    InFlightBound(r, g);
    AddedShape(r, g, elems, token, kmalloc);
    AddedIs(r, g, elems, token, kmalloc);
    OneMoreHead(g.chains, AddShape(r, g, elems, token, kmalloc).chains, r.freeHead);
  }

  lemma ChainsChange(r: Ring, g: Shape, op: Op)
    requires Inv(r, g) && Legal(r, op) && !op.OpDetachUnused?
    ensures |StepShape(r, g, op).chains| + Took(r, op) == |g.chains| + |PublishedBy(r, op)|
  {
    if op.OpAdd? && AddOutcome(r, op.elems, op.token, op.kmalloc).Added? {
      AddedSizes(r, g, op.elems, op.token, op.kmalloc);
    } else if op.OpGet? && GetResult(r, op.used).Got? {
      GotShape(r, g, op.used);
      OneLess(g.chains, StepShape(r, g, op).chains, GetResult(r, op.used).id);
    }
  }

  // What an add leaves alone, and how it kicks.
  lemma FillFrame(r: Ring, elems: seq<Elem>, kmalloc: Option<nat>)
    requires elems != []
    ensures var f := if GoesIndirect(r, elems, kmalloc) then FillIndirect(r, elems, kmalloc.value)
            else FillDirect(r, elems);
      && f.event == r.event && f.noInterrupt == r.noInterrupt && f.usedEvent == r.usedEvent && f.broken == r.broken
      && f.availIdx == r.availIdx && f.lastUsedIdx == r.lastUsedIdx && f.numAdded == r.numAdded
      && f.notifies == r.notifies && |f.desc| == |r.desc| && f.avail == r.avail
  {
  }

  predicate NeededFrom(r: Ring, dev: KickView, idx: nat, added: nat)
  {
    if r.event then NeedEvent(dev.availEvent, idx, Wrap16(idx - added)) else !dev.noNotify
  }

  lemma PublishFields(r: Ring, head: nat, token: nat, dev: KickView)
    requires |r.avail| > 0
    ensures var p := Publish(r, head, token, dev);
      && p.event == r.event && p.noInterrupt == r.noInterrupt && p.usedEvent == r.usedEvent && p.broken == r.broken
      && p.lastUsedIdx == r.lastUsedIdx && p.desc == r.desc
      && p.numAdded == (if r.numAdded + 1 == FORCED_KICK then 0 else r.numAdded + 1)
      && p.notifies == r.notifies + (if r.numAdded + 1 == FORCED_KICK
                                        && NeededFrom(r, dev, Wrap16(r.availIdx + 1), FORCED_KICK) then 1 else 0)
  {
  }

  lemma AddedFields(r: Ring, op: Op)
    requires Legal(r, op) && PublishedBy(r, op) != [] && op.elems != []
    ensures AddedFrom(r, VringTheorems.Step(r, op), op.dev)
  {
    FillFrame(r, op.elems, op.kmalloc);
    if GoesIndirect(r, op.elems, op.kmalloc) {
      PublishedFrom(r, FillIndirect(r, op.elems, op.kmalloc.value), r.freeHead, op.token, op.dev);
    } else {
      PublishedFrom(r, FillDirect(r, op.elems), r.freeHead, op.token, op.dev);
    }
  }

  predicate AddedFrom(r: Ring, r': Ring, dev: KickView)
  {
    && r'.event == r.event && r'.noInterrupt == r.noInterrupt && r'.usedEvent == r.usedEvent && r'.broken == r.broken
    && r'.Num() == r.Num()
    && r'.numAdded == (if r.numAdded + 1 == FORCED_KICK then 0 else r.numAdded + 1)
    && r'.notifies == r.notifies + (if r.numAdded + 1 == FORCED_KICK
                                       && NeededFrom(r, dev, Wrap16(r.availIdx + 1), FORCED_KICK) then 1 else 0)
  }

  lemma PublishedFrom(r: Ring, f: Ring, head: nat, token: nat, dev: KickView)
    requires |f.avail| > 0
    requires f.event == r.event && f.noInterrupt == r.noInterrupt && f.usedEvent == r.usedEvent && f.broken == r.broken
    requires f.availIdx == r.availIdx && f.numAdded == r.numAdded && f.notifies == r.notifies && f.Num() == r.Num()
    ensures AddedFrom(r, Publish(f, head, token, dev), dev)
  {
    PublishFields(f, head, token, dev);
  }

  lemma AddedNotEmpty(r: Ring, op: Op)
    requires PublishedBy(r, op) != []
    ensures op.OpAdd? && op.elems != []
  {
  }

  /* ---- the kick protocol ---- */

  lemma KickOver(s: Kicks.State, needed: bool)
    requires KickReach(s) && s.driver.Window? && s.owed == 0 && Kicks.Decision(s) == needed
    ensures KickReach(s.(driver := Kicks.Idle, notified := s.notified || needed))
  {
    var s2 := Kicks.Apply(s, Kicks.KickDecide, true);
    KickOn(s, Kicks.KickDecide, s2);
    if needed { KickOn(s2, Kicks.Notify, Kicks.Apply(s2, Kicks.Notify, true)); }
  }

  lemma ForcedDecision(s: Kicks.State, r: Ring, dev: KickView)
    requires Kicks.Inv(s) && s.event == r.event && dev == KickView(s.availEvent, s.noNotify)
    requires s.driver == Kicks.Idle && s.numAdded + 1 == FORCED_KICK && r.availIdx == Wrap16(s.published)
    ensures var s1 := Kicks.Apply(s, Kicks.Add, true);
      s1.driver.Window? && Kicks.Decision(s1) == NeededFrom(r, dev, Wrap16(r.availIdx + 1), FORCED_KICK)
  {
    WrapSuccessor(s.published);
    OldIndex(s.published + 1, FORCED_KICK);
  }

  lemma RingFacts(w: World, g: Shape)
    requires RingOf(w, g)
    ensures w.r.Num() == |w.r.avail| == |w.r.data| > 0 && w.returned <= |w.log|
    ensures w.r.availIdx == Wrap16(|w.log|) && w.r.lastUsedIdx == Wrap16(w.returned)
  {
  }

  lemma AddFacts(w: World, g: Shape, op: Op)
    requires RingOf(w, g) && Legal(w.r, op) && PublishedBy(w.r, op) != []
    ensures op.OpAdd? && op.elems != [] && |w.log| - w.returned < w.r.Num()
  {
    AddedNotEmpty(w.r, op);
    AddedSizes(w.r, g, op.elems, op.token, op.kmalloc);
  }

  lemma AddedStates(w: World, op: Op)
    requires Legal(w.r, op) && PublishedBy(w.r, op) != [] && op.elems != []
    ensures var forced := w.r.numAdded + 1 == FORCED_KICK;
      KickState(AfterOp(w, op)) == KickState(w).(
        published := |w.log| + 1, numAdded := if forced then 0 else w.r.numAdded + 1,
        notified := w.notified || (forced && NeededFrom(w.r, op.dev, Wrap16(w.r.availIdx + 1), FORCED_KICK)))
    ensures InterruptState(AfterOp(w, op)) == InterruptState(w).(published := |w.log| + 1)
  {
    AddedFields(w.r, op);
  }

  lemma AddKickSim(w: World, op: Op)
    requires KickReach(KickState(w)) && Enabled(w, Driver(op)) && PublishedBy(w.r, op) != []
    requires w.r.availIdx == Wrap16(|w.log|) && op.elems != [] && |w.log| - w.returned < w.r.Num()
    ensures KickReach(KickState(AfterOp(w, op)))
  {
    AddedStates(w, op);
    KickAdd(KickState(w), w.r, op.dev, KickState(AfterOp(w, op)));
  }

  lemma KickAdd(s: Kicks.State, r: Ring, dev: KickView, s': Kicks.State)
    requires KickReach(s) && s.driver == Kicks.Idle && s.owed == 0 && s.published - s.returned < s.num
    requires s.event == r.event && dev == KickView(s.availEvent, s.noNotify)
    requires s.numAdded == r.numAdded && r.availIdx == Wrap16(s.published)
    requires var forced := s.numAdded + 1 == FORCED_KICK;
      s' == s.(published := s.published + 1, numAdded := if forced then 0 else s.numAdded + 1,
               notified := s.notified || (forced && NeededFrom(r, dev, Wrap16(r.availIdx + 1), FORCED_KICK)))
    ensures KickReach(s')
  {
    KickReachInv(s);
    var s1 := Kicks.Apply(s, Kicks.Add, true);
    KickOn(s, Kicks.Add, s1);
    if s.numAdded + 1 == FORCED_KICK {
      ForcedDecision(s, r, dev);
      KickOver(s1, NeededFrom(r, dev, Wrap16(r.availIdx + 1), FORCED_KICK));
    }
  }

  lemma OpKickSim(w: World, op: Op)
    requires w.r.availIdx == Wrap16(|w.log|) && KickReach(KickState(w)) && Enabled(w, Driver(op)) && op.OpKick?
    ensures KickReach(KickState(AfterOp(w, op)))
  {
    var s := KickState(w);
    KickReachInv(s);
    OldIndex(|w.log|, w.r.numAdded);
    var s1 := Kicks.Apply(s, Kicks.KickPrepare, true);
    KickOn(s, Kicks.KickPrepare, s1);
    KickOver(s1, KickNeeded(w.r, op.dev));
    assert w.log + [] == w.log;
  }

  lemma NotAddedKickSim(w: World, op: Op)
    requires KickReach(KickState(w)) && Enabled(w, Driver(op)) && PublishedBy(w.r, op) == [] && op.OpAdd?
    ensures KickReach(KickState(AfterOp(w, op)))
  {
    var s := KickState(w);
    assert w.log + [] == w.log;
    if AddOutcome(w.r, op.elems, op.token, op.kmalloc).NoSpace? && op.hasOut {
      KickOn(s, Kicks.NotifyFull, Kicks.Apply(s, Kicks.NotifyFull, true));
    }
  }

  lemma GetFields(r: Ring, used: UsedView)
    requires |used.ring| == |r.data| == |r.desc| > 0
    ensures var r' := GetBuf(r, used);
      && r'.numAdded == r.numAdded && r'.notifies == r.notifies && r'.event == r.event && r'.Num() == r.Num()
      && (GetResult(r, used).Nothing? ==> r' == r)
      && (!GetResult(r, used).BadId? ==> r'.broken == r.broken)
  {
  }

  lemma GetKickSim(w: World, op: Op)
    requires KickReach(KickState(w)) && Enabled(w, Driver(op)) && op.OpGet? && |w.r.data| == |w.r.desc|
    requires Took(w.r, op) == 1 ==> w.returned < w.seen
    ensures KickReach(KickState(AfterOp(w, op)))
  {
    var s := KickState(w);
    assert w.log + [] == w.log;
    GetFields(w.r, op.used);
    if Took(w.r, op) == 1 { KickOn(s, Kicks.Reclaim, Kicks.Apply(s, Kicks.Reclaim, true)); }
  }

  lemma IndexKickSim(w: World, op: Op)
    requires Enabled(w, Driver(op)) && (op.OpDisableCb? || op.OpEnableCb? || op.OpEnableCbDelayed?)
    ensures KickState(AfterOp(w, op)) == KickState(w)
  {
    assert w.log + [] == w.log;
  }

  // Something to take back has been put into the used ring.
  lemma TookOne(w: World, heads: set<nat>, op: Op)
    requires w.r.lastUsedIdx == Wrap16(w.returned) && InPlaces(heads, w)
    requires Enabled(w, Driver(op)) && Took(w.r, op) == 1
    ensures w.returned < w.used <= w.seen
  {
  }

  lemma DriverKickSim(w: World, g: Shape, op: Op)
    requires RingOf(w, g) && KickReach(KickState(w)) && InPlaces(g.chains.Keys, w) && Enabled(w, Driver(op))
    ensures KickReach(KickState(AfterOp(w, op)))
  {
    RingFacts(w, g);
    if op.OpKick? {
      OpKickSim(w, op);
    } else if op.OpAdd? {
      if PublishedBy(w.r, op) != [] {
        AddFacts(w, g, op);
        AddKickSim(w, op);
      } else {
        NotAddedKickSim(w, op);
      }
    } else if op.OpGet? {
      if Took(w.r, op) == 1 { TookOne(w, g.chains.Keys, op); }
      GetKickSim(w, op);
    } else {
      IndexKickSim(w, op);
    }
  }

  // The device's own steps are the protocol's.
  lemma DeviceKickSim(w: World, step: Step)
    requires w.r.availIdx == Wrap16(|w.log|) && KickReach(KickState(w)) && Enabled(w, step) && !step.Driver?
    ensures KickReach(KickState(Apply(w, step)))
  {
    match step
    case Fetch => FetchKick(w);
    case Recheck => RecheckKick(w);
    case Disarm => FlagKick(w, step, Kicks.Disarm);
    case Arm => FlagKick(w, step, Kicks.Arm);
    case Wake => FlagKick(w, step, Kicks.Wake);
    case ClearLatch => FlagKick(w, step, Kicks.ClearLatch);
    case _ => OutsideKick(w, step);
  }

  lemma FetchKick(w: World)
    requires w.r.availIdx == Wrap16(|w.log|) && KickReach(KickState(w)) && Enabled(w, Fetch)
    ensures KickReach(KickState(Apply(w, Fetch)))
  {
    KickOn(KickState(w), Kicks.Fetch, KickState(w).(seen := w.seen + 1));
  }

  lemma RecheckKick(w: World)
    requires w.r.availIdx == Wrap16(|w.log|) && KickReach(KickState(w)) && Enabled(w, Recheck)
    ensures KickReach(KickState(Apply(w, Recheck)))
  {
    KickOn(KickState(w), Kicks.Recheck, Kicks.Apply(KickState(w), Kicks.Recheck, true));
  }

  lemma FlagKick(w: World, step: Step, k: Kicks.Step)
    requires KickReach(KickState(w)) && Enabled(w, step)
    requires (step.Disarm? && k.Disarm?) || (step.Arm? && k.Arm?) || (step.Wake? && k.Wake?)
             || (step.ClearLatch? && k.ClearLatch?)
    ensures KickReach(KickState(Apply(w, step)))
  {
    KickOn(KickState(w), k, Kicks.Apply(KickState(w), k, true));
  }

  lemma OutsideKick(w: World, step: Step)
    requires Enabled(w, step)
    requires step.Check? || step.Handle? || step.Resume? || step.Put? || step.Complete? || step.Decide?
    ensures KickState(Apply(w, step)) == KickState(w)
  {
  }

  /* ---- the interrupt protocol ---- */

  lemma AddInterruptSim(w: World, g: Shape, op: Op)
    requires RingOf(w, g) && InterruptReach(InterruptState(w)) && Enabled(w, Driver(op)) && PublishedBy(w.r, op) != []
    ensures InterruptReach(InterruptState(AfterOp(w, op)))
  {
    AddFacts(w, g, op);
    AddedStates(w, op);
    InterruptAdd(InterruptState(w));
  }

  lemma InterruptAdd(s: Interrupts.State)
    requires InterruptReach(s) && !s.driver.Enabling? && s.published - s.lastUsed < s.num
    ensures InterruptReach(s.(published := s.published + 1))
  {
    InterruptOn(s, Interrupts.Add, Interrupts.Apply(s, Interrupts.Add));
  }

  lemma GetInterruptSim(w: World, op: Op)
    requires w.r.lastUsedIdx == Wrap16(w.returned) && |w.r.data| == |w.r.desc|
    requires InterruptReach(InterruptState(w)) && Enabled(w, Driver(op)) && Took(w.r, op) == 1
    ensures InterruptReach(InterruptState(AfterOp(w, op)))
  {
    var s := InterruptState(w);
    WrapSuccessor(w.returned);
    GotRing(w.r, op.used);
    assert w.log + [] == w.log;
    InterruptOn(s, Interrupts.GetBuf, Interrupts.Apply(s, Interrupts.GetBuf));
  }

  lemma GotRing(r: Ring, used: UsedView)
    requires |used.ring| == |r.data| == |r.desc| > 0 && GetResult(r, used).Got?
    ensures var r' := GetBuf(r, used);
      && r.lastUsedIdx != used.idx && r'.Num() == r.Num() && r'.event == r.event && r'.noInterrupt == r.noInterrupt
      && r'.usedEvent == (if r.noInterrupt then r.usedEvent else Wrap16(r.lastUsedIdx + 1))
  {
  }

  lemma EnableInterruptSim(w: World, op: Op)
    requires w.r.availIdx == Wrap16(|w.log|) && w.r.lastUsedIdx == Wrap16(w.returned)
    requires InterruptReach(InterruptState(w)) && Enabled(w, Driver(op))
    requires op.OpEnableCb? || op.OpEnableCbDelayed?
    ensures InterruptReach(InterruptState(AfterOp(w, op)))
  {
    var s, step := InterruptState(w), Interrupts.Enable(op.OpEnableCbDelayed?);
    assert Wrap16(w.r.lastUsedIdx + 0) == w.r.lastUsedIdx;
    assert Interrupts.DelayedBufs(s) == DelayedBufs(w.r);
    assert w.log + [] == w.log;
    InterruptOn(s, step, Interrupts.Apply(s, step));
  }

  lemma DisableInterruptSim(w: World)
    requires InterruptReach(InterruptState(w)) && Enabled(w, Driver(OpDisableCb))
    ensures InterruptReach(InterruptState(AfterOp(w, OpDisableCb)))
  {
    assert w.log + [] == w.log;
    var s := InterruptState(w);
    InterruptOn(s, Interrupts.DisableCb, Interrupts.Apply(s, Interrupts.DisableCb));
  }

  lemma OutsideInterrupt(w: World, op: Op)
    requires Enabled(w, Driver(op)) && PublishedBy(w.r, op) == [] && Took(w.r, op) == 0
    requires op.OpAdd? || op.OpGet? || op.OpKick?
    ensures InterruptState(AfterOp(w, op)) == InterruptState(w)
  {
    assert w.log + [] == w.log;
  }

  lemma DriverInterruptSim(w: World, g: Shape, op: Op)
    requires RingOf(w, g) && InterruptReach(InterruptState(w)) && Enabled(w, Driver(op))
    ensures InterruptReach(InterruptState(AfterOp(w, op)))
  {
    RingFacts(w, g);
    if PublishedBy(w.r, op) != [] {
      AddInterruptSim(w, g, op);
    } else if Took(w.r, op) == 1 {
      GetInterruptSim(w, op);
    } else if op.OpEnableCb? || op.OpEnableCbDelayed? {
      EnableInterruptSim(w, op);
    } else if op.OpDisableCb? {
      DisableInterruptSim(w);
    } else {
      OutsideInterrupt(w, op);
    }
  }

  lemma DeviceInterruptSim(w: World, step: Step)
    requires w.r.lastUsedIdx == Wrap16(w.returned) && w.used <= |w.done| <= |w.log|
    requires InterruptReach(InterruptState(w)) && Enabled(w, step) && !step.Driver?
    ensures InterruptReach(InterruptState(Apply(w, step)))
  {
    match step
    case Check => CheckInterrupt(w);
    case Handle => PlainInterrupt(w, step, Interrupts.Handle);
    case Resume => PlainInterrupt(w, step, Interrupts.Resume);
    case Complete => PlainInterrupt(w, step, Interrupts.Complete(|w.done| - w.used));
    case Decide => PlainInterrupt(w, step, Interrupts.Decide);
    case _ => AsideInterrupt(w, step);
  }

  lemma CheckInterrupt(w: World)
    requires w.r.lastUsedIdx == Wrap16(w.returned)
    requires InterruptReach(InterruptState(w)) && Enabled(w, Check)
    ensures InterruptReach(InterruptState(Apply(w, Check)))
  {
    InterruptOn(InterruptState(w), Interrupts.Check, Interrupts.Apply(InterruptState(w), Interrupts.Check));
  }

  lemma PlainInterrupt(w: World, step: Step, k: Interrupts.Step)
    requires w.used <= |w.done| <= |w.log| && InterruptReach(InterruptState(w)) && Enabled(w, step)
    requires (step.Handle? && k.Handle?) || (step.Resume? && k.Resume?) || (step.Decide? && k.Decide?)
             || (step.Complete? && k == Interrupts.Complete(|w.done| - w.used))
    ensures InterruptReach(InterruptState(Apply(w, step)))
  {
    InterruptOn(InterruptState(w), k, Interrupts.Apply(InterruptState(w), k));
  }

  lemma AsideInterrupt(w: World, step: Step)
    requires Enabled(w, step)
    requires step.Fetch? || step.Put? || step.Disarm? || step.Arm? || step.Recheck? || step.Wake? || step.ClearLatch?
    ensures InterruptState(Apply(w, step)) == InterruptState(w)
  {
  }

  /* ---- every buffer goes round once ---- */

  lemma PlacedHead(heads: set<nat>, w: World, h: nat)
    requires InPlaces(heads, w)
    requires h in w.log[w.seen..] || h in w.atDevice || h in w.done[w.returned..]
    ensures h in heads
  {
    assert multiset(heads)[h] > 0;
  }

  lemma PlacedCount(heads: set<nat>, w: World)
    requires InPlaces(heads, w)
    ensures |heads| == |w.log| - w.returned
  {
    assert |multiset(heads)| == |heads|;
  }

  lemma PlacedAdd(heads: set<nat>, w: World, head: nat, w': World)
    requires InPlaces(heads, w) && head !in heads
    requires w'.log == w.log + [head] && w'.returned == w.returned && w'.used == w.used && w'.done == w.done
    requires w'.seen == w.seen && w'.atDevice == w.atDevice
    ensures InPlaces(heads + {head}, w')
  {
    assert w'.log[w.seen..] == w.log[w.seen..] + [head];
    assert multiset(heads + {head}) == multiset(heads) + multiset{head};
  }

  lemma PlacedGet(heads: set<nat>, w: World, w': World)
    requires InPlaces(heads, w) && w.returned < w.used
    requires w' == w.(r := w'.r, notified := w'.notified, returned := w.returned + 1)
    ensures InPlaces(heads - {w.done[w.returned]}, w')
  {
    var h := w.done[w.returned];
    assert w.done[w.returned..] == [h] + w.done[w.returned + 1..];
    PlacedHead(heads, w, h);
    assert multiset(heads) == multiset(heads - {h}) + multiset{h};
    assert multiset(w.done[w.returned..]) == multiset{h} + multiset(w.done[w.returned + 1..]);
    OneFewer(multiset(w.log[w.seen..]) + w.atDevice, h, multiset(w.done[w.returned + 1..]), multiset(heads - {h}));
  }

  lemma OneFewer(a: multiset<nat>, h: nat, x: multiset<nat>, b: multiset<nat>)
    requires a + (multiset{h} + x) == b + multiset{h}
    ensures a + x == b
  {
    assert a + x == (a + (multiset{h} + x)) - multiset{h};
    assert b == (b + multiset{h}) - multiset{h};
  }

  lemma PlacedFetch(heads: set<nat>, w: World, w': World)
    requires InPlaces(heads, w) && w.seen < |w.log|
    requires w' == w.(seen := w.seen + 1, atDevice := w.atDevice + multiset{w.log[w.seen]})
    ensures InPlaces(heads, w')
  {
    assert w.log[w.seen..] == [w.log[w.seen]] + w.log[w.seen + 1..];
  }

  lemma PlacedPut(heads: set<nat>, w: World, id: nat, w': World)
    requires InPlaces(heads, w) && id in w.atDevice
    requires w' == w.(atDevice := w.atDevice - multiset{id}, done := w.done + [id], usedRing := w'.usedRing)
    ensures InPlaces(heads, w')
  {
    assert w'.done[w.returned..] == w.done[w.returned..] + [id];
    assert w.atDevice == w'.atDevice + multiset{id};
  }

  // What virtqueue_get_buf finds: nothing, or the oldest completion not taken back, never a bad id.
  lemma GetFinds(w: World, g: Shape, used: UsedView)
    requires RingOf(w, g) && !w.r.broken && InPlaces(g.chains.Keys, w) && UsedOk(w)
    requires used == UsedView(Wrap16(w.used), w.usedRing)
    ensures |used.ring| == |w.r.data|
    ensures GetResult(w.r, used) == if w.returned == w.used then Nothing else Got(w.done[w.returned])
  {
    RingFacts(w, g);
    if w.returned < w.used {
      assert w.done[w.returned] in w.done[w.returned..];
      PlacedHead(g.chains.Keys, w, w.done[w.returned]);
      HeadHasToken(w, g, w.done[w.returned]);
      PlacedCount(g.chains.Keys, w);
      ChainsFit(w, g);
      WrapsApart(w.used, w.returned);
    }
  }

  lemma HeadHasToken(w: World, g: Shape, h: nat)
    requires RingOf(w, g) && h in g.chains
    ensures h < |w.r.data| && w.r.data[h] != 0
  {
    assert ChainOk(w.r, g, h);
  }

  lemma ChainsFit(w: World, g: Shape)
    requires RingOf(w, g)
    ensures |w.log| - w.returned == |g.chains| <= w.r.Num() <= 0x8000
  {
    InFlightBound(w.r, g);
  }

  // The device reads the heads in the order they were published.
  lemma FetchReads(w: World, g: Shape)
    requires RingOf(w, g) && InPlaces(g.chains.Keys, w) && Enabled(w, Fetch)
    ensures w.seen < |w.log| && w.r.avail[Slot(Wrap16(w.seen), |w.r.avail|)] == w.log[w.seen]
  {
    RingFacts(w, g);
    ChainsFit(w, g);
    SlotOfWrapped(w.seen, w.r.Num());
  }

  lemma UsedPut(w: World, heads: set<nat>, e: UsedElem)
    requires InPlaces(heads, w) && UsedOk(w) && Enabled(w, Put(e)) && RingSize(w.r.Num())
    requires |w.log| - w.returned <= w.r.Num()
    ensures UsedOk(Apply(w, Put(e)))
  {
    assert |w.done| < w.returned + w.r.Num();
    ListedAfterPut(w.usedRing, w.done, w.returned, e);
  }

  lemma ListedAfterPut(ring: seq<UsedElem>, done: seq<nat>, from: nat, e: UsedElem)
    requires Listed(ring, done, from) && RingSize(|ring|) && |done| < from + |ring|
    ensures Listed(ring[Slot(Wrap16(|done|), |ring|) := e], done + [e.id], from)
  {
    forall q: nat | from <= q < |done|
      ensures Slot(Wrap16(q), |ring|) != Slot(Wrap16(|done|), |ring|)
    {
      SlotsDiffer(q, |done|, |ring|);
    }
  }

  /* ---- the invariant over runs ---- */

  lemma TokensAdd(r: Ring, log: seq<nat>, given: seq<nat>, r': Ring, head: nat, token: nat)
    requires TokensGiven(r, log, given) && head < |r.data| && r'.data == r.data[head := token]
    ensures TokensGiven(r', log + [head], given + [token])
  {
    assert (log + [head])[..|log|] == log;
    forall h: nat | IsHead(r', h) && h != head
      ensures h in log && r'.data[h] == given[LastOf(log, h)]
    {
      assert IsHead(r, h);
    }
  }

  ghost predicate NoNewTokens(r: Ring, r': Ring)
  {
    forall h: nat :: IsHead(r', h) ==> IsHead(r, h) && r'.data[h] == r.data[h]
  }

  lemma TokensFewer(r: Ring, log: seq<nat>, given: seq<nat>, r': Ring)
    requires TokensGiven(r, log, given)
    requires NoNewTokens(r, r')
    ensures TokensGiven(r', log, given)
  {
  }

  lemma AddBooks(w: World, g: Shape, op: Op, g': Shape)
    requires Books(w, g) && Enabled(w, Driver(op)) && PublishedBy(w.r, op) != []
    requires RingOf(AfterOp(w, op), g') && g' == StepShape(w.r, g, op)
    ensures Books(AfterOp(w, op), g')
  {
    var w' := AfterOp(w, op);
    AddFacts(w, g, op);
    AddedFields(w.r, op);
    AddedShape(w.r, g, op.elems, op.token, op.kmalloc);
    PlacedAdd(g.chains.Keys, w, w.r.freeHead, w');
    assert g'.chains.Keys == g.chains.Keys + {w.r.freeHead};
    SentAdd(w, g, w', g', w.r.freeHead, op.elems);
    AddSetsToken(w.r, g, op.elems, op.hasOut, op.token, op.kmalloc, op.dev);
    RingFacts(w, g);
    TokensAdd(w.r, w.log, w.given, w'.r, w.r.freeHead, op.token);
  }

  lemma SentAdd(w: World, g: Shape, w': World, g': Shape, head: nat, elems: seq<Elem>)
    requires SentOk(w, g) && InPlaces(g.chains.Keys, w) && head !in g.chains && g'.bufs == g.bufs[head := elems]
    requires w'.seen == w.seen && w'.log == w.log + [head] && w'.sent == w.sent + [elems]
    ensures SentOk(w', g')
  {
    forall q: nat | w.seen <= q < |w.log|
      ensures w.log[q] != head
    {
      Unread(g.chains.Keys, w, q);
    }
  }

  // Nothing or the next completion: the rest of the world stays.
  lemma GetEffect(w: World, op: Op)
    requires Enabled(w, Driver(op)) && op.OpGet? && |w.r.data| == |w.r.desc| && !GetResult(w.r, op.used).BadId?
    ensures var w' := AfterOp(w, op);
      && w' == w.(r := w'.r, returned := w.returned + Took(w.r, op))
      && w'.r.broken == w.r.broken && w'.r.Num() == w.r.Num() && (Took(w.r, op) == 0 ==> w'.r == w.r)
  {
    GetFields(w.r, op.used);
    assert w.log + [] == w.log && w.sent + [] == w.sent && w.given + [] == w.given;
  }

  lemma GotBooks(w: World, g: Shape, op: Op, w': World, g': Shape)
    requires Books(w, g) && Legal(w.r, op) && RingOf(w', g') && g' == StepShape(w.r, g, op)
    requires w.returned < w.used && g'.chains.Keys == g.chains.Keys - {w.done[w.returned]}
    requires w' == w.(r := w'.r, returned := w.returned + 1) && !w'.r.broken && w'.r.Num() == w.r.Num()
    requires NoNewTokens(w.r, w'.r)
    ensures Books(w', g')
  {
    TokensFewer(w.r, w.log, w.given, w'.r);
    PlacedGet(g.chains.Keys, w, w');
    SentKept(w, g, op, w', g');
  }

  lemma GetBooks(w: World, g: Shape, op: Op, g': Shape)
    requires Books(w, g) && Enabled(w, Driver(op)) && op.OpGet?
    requires RingOf(AfterOp(w, op), g') && g' == StepShape(w.r, g, op)
    ensures Books(AfterOp(w, op), g')
  {
    GetFacts(w, g, op);
    if Took(w.r, op) == 1 {
      GotKeys(w.r, g, op);
      GotBooks(w, g, op, AfterOp(w, op), g');
    } else {
      NoGetShape(w.r, g, op);
      SameBooks(w, g, AfterOp(w, op));
    }
  }

  lemma GetFacts(w: World, g: Shape, op: Op)
    requires Books(w, g) && Enabled(w, Driver(op)) && op.OpGet?
    ensures var w' := AfterOp(w, op);
      && w' == w.(r := w'.r, returned := w.returned + Took(w.r, op)) && !w'.r.broken && w'.r.Num() == w.r.Num()
      && (Took(w.r, op) == 0 ==> w' == w)
      && (Took(w.r, op) == 1 ==> w.returned < w.used && GetResult(w.r, op.used) == Got(w.done[w.returned]))
      && NoNewTokens(w.r, w'.r)
  {
    RingFacts(w, g);
    GetFinds(w, g, op.used);
    GetEffect(w, op);
    GetKeepsTokens(w.r, op.used);
  }

  lemma GetKeepsTokens(r: Ring, used: UsedView)
    requires |used.ring| == |r.data| == |r.desc| > 0
    ensures NoNewTokens(r, GetBuf(r, used))
  {
  }

  lemma SameBooks(w: World, g: Shape, w': World)
    requires Books(w, g) && w' == w
    ensures Books(w', g)
  {
  }

  lemma GotKeys(r: Ring, g: Shape, op: Op)
    requires Inv(r, g) && Legal(r, op) && op.OpGet? && GetResult(r, op.used).Got?
    ensures StepShape(r, g, op).chains.Keys == g.chains.Keys - {GetResult(r, op.used).id}
  {
    GotShape(r, g, op.used);
    OneLess(g.chains, StepShape(r, g, op).chains, GetResult(r, op.used).id);
  }

  lemma SentKept(w: World, g: Shape, op: Op, w': World, g': Shape)
    requires Inv(w.r, g) && SentOk(w, g) && Legal(w.r, op) && g' == StepShape(w.r, g, op)
    requires InPlaces(g.chains.Keys, w) && InPlaces(g'.chains.Keys, w')
    requires w'.seen == w.seen && w'.log == w.log && w'.sent == w.sent
    ensures SentOk(w', g')
  {
    forall q: nat | w.seen <= q < |w.log|
      ensures w.log[q] in g'.bufs && g'.bufs[w.log[q]] == w.sent[q]
    {
      Unread(g.chains.Keys, w, q);
      Unread(g'.chains.Keys, w', q);
      StableBufs(w.r, g, op, w.log[q]);
    }
  }

  lemma Unread(heads: set<nat>, w: World, q: nat)
    requires InPlaces(heads, w) && w.seen <= q < |w.log|
    ensures w.log[q] in heads
  {
    assert w.log[q] == w.log[w.seen..][q - w.seen];
    PlacedHead(heads, w, w.log[q]);
  }

  lemma QuietOp(w: World, op: Op)
    requires Enabled(w, Driver(op)) && !op.OpGet? && PublishedBy(w.r, op) == []
    ensures var w' := AfterOp(w, op);
      w' == w.(r := w'.r, notified := w'.notified, mode := w'.mode) && w'.r.broken == w.r.broken
      && w'.r.Num() == w.r.Num() && w'.r.data == w.r.data
  {
    assert w.log + [] == w.log && w.sent + [] == w.sent && w.given + [] == w.given;
    if !op.OpAdd? { IndexStep(w.r, op); }
  }

  lemma QuietBooks(w: World, g: Shape, op: Op, g': Shape)
    requires Books(w, g) && Enabled(w, Driver(op)) && !op.OpGet? && PublishedBy(w.r, op) == []
    requires RingOf(AfterOp(w, op), g') && g' == StepShape(w.r, g, op)
    ensures Books(AfterOp(w, op), g')
  {
    QuietOp(w, op);
    QuietShape(w.r, g, op);
    TokensFewer(w.r, w.log, w.given, AfterOp(w, op).r);
  }

  lemma FetchBooks(w: World, g: Shape)
    requires Books(w, g) && Enabled(w, Fetch)
    ensures Books(Apply(w, Fetch), g)
  {
    FetchReads(w, g);
    PlacedFetch(g.chains.Keys, w, Apply(w, Fetch));
  }

  lemma PutBooks(w: World, g: Shape, e: UsedElem)
    requires Books(w, g) && Enabled(w, Put(e))
    ensures Books(Apply(w, Put(e)), g)
  {
    ChainsFit(w, g);
    UsedPut(w, g.chains.Keys, e);
    PlacedPut(g.chains.Keys, w, e.id, Apply(w, Put(e)));
  }

  // The steps that move no buffer.
  lemma FlagBooks(w: World, g: Shape, w': World)
    requires Books(w, g)
    requires w' == w.(mode := w'.mode, raised := w'.raised, notified := w'.notified, used := w'.used,
                      availEvent := w'.availEvent, noNotify := w'.noNotify, device := w'.device, batch := w'.batch)
    requires w'.used == w.used || w'.used == |w.done|
    ensures Books(w', g)
  {
  }

  lemma DeviceBooks(w: World, g: Shape, step: Step)
    requires Books(w, g) && Enabled(w, step) && !step.Driver?
    ensures Books(Apply(w, step), g)
  {
    if step.Fetch? {
      FetchBooks(w, g);
    } else if step.Put? {
      PutBooks(w, g, step.e);
    } else {
      NoBufferMoves(w, step);
      FlagBooks(w, g, Apply(w, step));
    }
  }

  lemma NoBufferMoves(w: World, step: Step)
    requires Enabled(w, step) && !step.Driver? && !step.Fetch? && !step.Put?
    ensures var w' := Apply(w, step);
      w' == w.(mode := w'.mode, raised := w'.raised, notified := w'.notified, used := w'.used,
               availEvent := w'.availEvent, noNotify := w'.noNotify, device := w'.device, batch := w'.batch)
      && (w'.used == w.used || w'.used == |w.done|)
  {
  }

  lemma OpBooks(w: World, g: Shape, op: Op, g': Shape)
    requires Books(w, g) && Enabled(w, Driver(op)) && RingOf(AfterOp(w, op), g') && g' == StepShape(w.r, g, op)
    ensures Books(AfterOp(w, op), g')
  {
    if op.OpGet? {
      GetBooks(w, g, op, g');
    } else if PublishedBy(w.r, op) != [] {
      AddBooks(w, g, op, g');
    } else {
      QuietBooks(w, g, op, g');
    }
  }

  lemma BooksStep(w: World, g: Shape, step: Step, w': World) returns (g': Shape)
    requires Books(w, g) && Enabled(w, step) && w' == Apply(w, step)
    ensures Books(w', g')
  {
    if step.Driver? {
      g' := RingStep(w, g, step.op);
      OpBooks(w, g, step.op, g');
    } else {
      g' := g;
      DeviceBooks(w, g, step);
    }
  }

  lemma StartBooks(w: World) returns (g: Shape)
    requires Init(w)
    ensures Books(w, g)
  {
    var num: nat, event, indirect, callback :|
      RingSize(num) && w.r == Vring.Init(num, event, indirect, callback);
    InitInv(num, event, indirect, callback);
    g := InitShape(num);
    assert forall h: nat :: !IsHead(w.r, h);
  }

  lemma NextBooks(worlds: seq<World>, steps: seq<Step>, k: nat, before: Shape) returns (g: Shape)
    requires IsRun(worlds, steps) && 0 < k <= |steps| && Books(worlds[k - 1], before)
    ensures Books(worlds[k], g)
  {
    assert NextAt(worlds, steps, k - 1);
    g := BooksStep(worlds[k - 1], before, steps[k - 1], worlds[k]);
  }

  // In every world of every run the ring is sound and its buffers are each in one place.
  lemma RunBooks(worlds: seq<World>, steps: seq<Step>, k: nat) returns (g: Shape)
    requires IsRun(worlds, steps) && k < |worlds|
    ensures Books(worlds[k], g)
  {
    g := StartBooks(worlds[0]);
    for i := 0 to k
      invariant Books(worlds[i], g)
    {
      g := NextBooks(worlds, steps, i + 1, g);
    }
  }

  lemma StartReach(w: World)
    requires Init(w)
    ensures KickReach(KickState(w)) && InterruptReach(InterruptState(w))
  {
    assert Kicks.IsRun([KickState(w)], [], true);
    assert [KickState(w)][0] == KickState(w);
    assert Interrupts.IsRun([InterruptState(w)], []);
    assert [InterruptState(w)][0] == InterruptState(w);
  }

  lemma KickStep(w: World, g: Shape, step: Step)
    requires Books(w, g) && KickReach(KickState(w)) && Enabled(w, step)
    ensures KickReach(KickState(Apply(w, step)))
  {
    RingFacts(w, g);
    if step.Driver? { DriverKickSim(w, g, step.op); } else { DeviceKickSim(w, step); }
  }

  lemma InterruptStep(w: World, g: Shape, step: Step)
    requires Books(w, g) && InterruptReach(InterruptState(w)) && Enabled(w, step)
    ensures InterruptReach(InterruptState(Apply(w, step)))
  {
    RingFacts(w, g);
    if step.Driver? { DriverInterruptSim(w, g, step.op); } else { DeviceInterruptSim(w, step); }
  }

  lemma NextKick(worlds: seq<World>, steps: seq<Step>, k: nat)
    requires IsRun(worlds, steps) && k < |steps| && KickReach(KickState(worlds[k]))
    ensures KickReach(KickState(worlds[k + 1]))
  {
    var g := RunBooks(worlds, steps, k);
    assert NextAt(worlds, steps, k);
    KickStep(worlds[k], g, steps[k]);
  }

  lemma NextInterrupt(worlds: seq<World>, steps: seq<Step>, k: nat)
    requires IsRun(worlds, steps) && k < |steps| && InterruptReach(InterruptState(worlds[k]))
    ensures InterruptReach(InterruptState(worlds[k + 1]))
  {
    var g := RunBooks(worlds, steps, k);
    assert NextAt(worlds, steps, k);
    InterruptStep(worlds[k], g, steps[k]);
  }

  // A run of the queue and its device shows a run of the kick protocol and one of the interrupt
  // protocol.
  lemma RunShows(worlds: seq<World>, steps: seq<Step>, k: nat)
    requires IsRun(worlds, steps) && k < |worlds|
    ensures KickReach(KickState(worlds[k])) && InterruptReach(InterruptState(worlds[k]))
  {
    StartReach(worlds[0]);
    for i := 0 to k
      invariant KickReach(KickState(worlds[i])) && InterruptReach(InterruptState(worlds[i]))
    {
      NextKick(worlds, steps, i);
      NextInterrupt(worlds, steps, i);
    }
  }

  lemma TokenFound(w: World, g: Shape)
    requires Books(w, g) && w.returned < w.used
    ensures var h := w.done[w.returned];
      h in w.log && |w.given| == |w.log| && h < |w.r.data| && w.r.data[h] == w.given[LastOf(w.log, h)] != 0
  {
    var h := w.done[w.returned];
    assert h in w.done[w.returned..];
    PlacedHead(g.chains.Keys, w, h);
    HeadHasToken(w, g, h);
    assert IsHead(w.r, h);
  }

  /* ---- what a run of the queue promises ---- */

  // A device that sleeps has read all that was published or has a notification coming, once the
  // driver has kicked for what it added.
  lemma SleeperSawAll(worlds: seq<World>, steps: seq<Step>, k: nat)
    requires IsRun(worlds, steps) && k < |worlds|
    requires worlds[k].device == Kicks.Asleep && worlds[k].r.numAdded == 0
    ensures worlds[k].notified || (worlds[k].seen == |worlds[k].log| && worlds[k].r.availIdx == Wrap16(worlds[k].seen))
  {
    var g := RunBooks(worlds, steps, k);
    RingFacts(worlds[k], g);
    RunShows(worlds, steps, k);
    var s := KickState(worlds[k]);
    var states, kicks :| Kicks.IsRun(states, kicks, true) && states[|states| - 1] == s;
    Kicks.NoKickLost(states, kicks, |states| - 1);
  }

  // A driver that waits, told by enabling that nothing was there, is interrupted once all that was in
  // flight then is completed.
  lemma WaiterInterrupted(worlds: seq<World>, steps: seq<Step>, k: nat)
    requires IsRun(worlds, steps) && k < |worlds|
    requires worlds[k].mode.Waiting? && worlds[k].batch == Interrupts.Quiet
    requires worlds[k].returned < worlds[k].mode.until <= worlds[k].used
    ensures worlds[k].raised
  {
    RunShows(worlds, steps, k);
    var s := InterruptState(worlds[k]);
    var states, moves :| Interrupts.IsRun(states, moves) && states[|states| - 1] == s;
    Interrupts.NoInterruptLost(states, moves, |states| - 1);
  }

  // The device's q-th read yields the q-th request added, as it was added.
  lemma ReadsWhatWasSent(worlds: seq<World>, steps: seq<Step>, k: nat)
    requires IsRun(worlds, steps) && k < |steps| && steps[k] == Fetch
    ensures var w := worlds[k];
      && w.seen < |w.sent| && |w.r.avail| > 0
      && (|w.sent[w.seen]| <= TWO_16 ==>
            Decode(w.r, w.r.avail[Slot(Wrap16(w.seen), |w.r.avail|)]) == Some(w.sent[w.seen]))
  {
    var g := RunBooks(worlds, steps, k);
    var w := worlds[k];
    assert NextAt(worlds, steps, k);
    FetchReads(w, g);
    var h := w.log[w.seen];
    assert h == w.log[w.seen..][0];
    PlacedHead(g.chains.Keys, w, h);
    DecodeInFlight(w.r, g, h);
  }

  // The driver takes completions back in the order of the used ring, each with the token that came
  // with the buffer, and never finds the queue broken.
  lemma TakesWhatWasDone(worlds: seq<World>, steps: seq<Step>, k: nat, used: UsedView)
    requires IsRun(worlds, steps) && k < |steps| && steps[k] == Driver(OpGet(used))
    ensures var w := worlds[k];
      && w.returned <= w.used <= |w.done| && |used.ring| == |w.r.data| > 0
      && GetResult(w.r, used) == (if w.returned == w.used then Nothing else Got(w.done[w.returned]))
      && (w.returned < w.used ==>
            var h := w.done[w.returned];
            h in w.log && |w.given| == |w.log| && h < |w.r.data| && w.r.data[h] == w.given[LastOf(w.log, h)] != 0)
      && !worlds[k + 1].r.broken
  {
    var g := RunBooks(worlds, steps, k);
    assert NextAt(worlds, steps, k);
    RingFacts(worlds[k], g);
    GetFinds(worlds[k], g, used);
    if worlds[k].returned < worlds[k].used { TokenFound(worlds[k], g); }
    var after := RunBooks(worlds, steps, k + 1);
  }
}
