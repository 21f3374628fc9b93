/**
 Events that arrive at any moment of evtchn_interrupt. The hypervisor raises and unmasks a port in
 several steps, with those for other ports and those of the handler in between; the handler clears
 the upcall flag, takes the selector, scans the words it took, reading pending and mask bits one
 after the other, and drops a word only when it saw nothing active in it.
 */
module EventDelivery {
  import opened EventScan

  datatype Handler =
    | Idle
    | Entered                      // evtchn_upcall_pending cleared, selector not taken yet
    | Taken                        // the other order: selector taken, flag not cleared yet
    | Scanning

  // What the handler has read of a word.
  datatype Look =
    | Blind
    | PendingRead(word: nat, bits: set<nat>)
    | MaskRead(word: nat, bits: set<nat>)
    | Seen(word: nat, active: set<nat>)

  // Where the hypervisor is with a port, whose lock it holds.
  datatype Phase =
    | TestMask                     // set its pending bit
    | TestPending                  // cleared its mask bit
    | MarkWord                     // found it active
    | RaiseFlag                    // set its word's bit in the selector, which was clear

  datatype State = State(
    pending: set<nat>,
    masked: set<nat>,
    selector: set<nat>,            // evtchn_pending_sel
    upcall: bool,                  // evtchn_upcall_pending
    work: map<nat, Phase>,
    handler: Handler,
    l1: set<nat>,                  // the words the handler has taken
    look: Look
  )

  predicate Init(s: State)
  {
    && s.pending == {} && s.selector == {} && !s.upcall && s.work == map[]
    && s.handler == Idle && s.l1 == {} && s.look == Blind
  }

  datatype Step =
    | Raise(port: nat) | Unmask(port: nat) | Advance(port: nat) | Mask(port: nat)
    | Enter | Take | ReadPending(word: nat) | ReadMask(word: nat) | ProcessPort(port: nat) | DropWord(word: nat) | Leave

  predicate Active(s: State, port: nat) { port in s.pending && port !in s.masked }

  predicate Enabled(s: State, step: Step, flagFirst: bool)
  {
    match step
    case Raise(port) => port !in s.work
    case Unmask(port) => port !in s.work
    case Advance(port) => port in s.work
    case Mask(port) => true
    case Enter => if flagFirst then s.handler == Idle && s.upcall else s.handler == Taken
    case Take => if flagFirst then s.handler == Entered else s.handler == Idle && s.upcall
    case ReadPending(w) => s.handler == Scanning && w in s.l1 && (s.look.MaskRead? ==> s.look.word == w)
    case ReadMask(w) => s.handler == Scanning && w in s.l1 && (s.look.PendingRead? ==> s.look.word == w)
    case ProcessPort(port) => s.handler == Scanning && s.look.Seen? && port in s.look.active
    case DropWord(w) => s.handler == Scanning && s.look == Seen(w, {}) && w in s.l1
    case Leave => s.handler == Scanning && s.l1 == {}
  }

  // The ports of a word that have a bit set.
  function BitsOf(bits: set<nat>, word: nat): set<nat> { set p | p in bits && WordOf(p) == word }

  // The next step of raising or unmasking a port.
  function Advanced(s: State, port: nat): State
    requires port in s.work
  {
    var through := s.(work := s.work - {port});
    match s.work[port]
    case TestMask => if port in s.masked then through else s.(work := s.work[port := MarkWord])
    case TestPending => if port in s.pending then s.(work := s.work[port := MarkWord]) else through
    case MarkWord =>
      if WordOf(port) in s.selector then through
      else s.(selector := s.selector + {WordOf(port)}, work := s.work[port := RaiseFlag])
    case RaiseFlag => through.(upcall := true)
  }

  // flagFirst: the order of the source, which clears the master flag before the selector.
  function Apply(s: State, step: Step, flagFirst: bool): State
    requires Enabled(s, step, flagFirst)
  {
    match step
    case Raise(port) =>
      if port in s.pending then s else s.(pending := s.pending + {port}, work := s.work[port := TestMask])
    case Unmask(port) =>
      if port !in s.masked then s else s.(masked := s.masked - {port}, work := s.work[port := TestPending])
    case Advance(port) => Advanced(s, port)
    case Mask(port) => s.(masked := s.masked + {port})
    case Enter => s.(upcall := false, handler := if flagFirst then Entered else Scanning)
    case Take => s.(l1 := s.selector, selector := {}, handler := if flagFirst then Scanning else Taken)
    // sh->evtchn_pending[idx] & ~sh->evtchn_mask[idx], the two reads in either order
    case ReadPending(w) =>
      s.(look := if s.look.MaskRead? then Seen(w, BitsOf(s.pending, w) - s.look.bits)
                 else PendingRead(w, BitsOf(s.pending, w)))
    case ReadMask(w) =>
      s.(look := if s.look.PendingRead? then Seen(w, s.look.bits - s.masked) else MaskRead(w, BitsOf(s.masked, w)))
    case ProcessPort(port) => s.(pending := s.pending - {port}, look := Blind)
    case DropWord(w) => s.(l1 := s.l1 - {w}, look := Blind)
    case Leave => s.(handler := Idle)
  }

  predicate NextAt(states: seq<State>, steps: seq<Step>, i: nat, flagFirst: bool)
    requires i < |steps| && |states| == |steps| + 1
  {
    Enabled(states[i], steps[i], flagFirst) && states[i + 1] == Apply(states[i], steps[i], flagFirst)
  }

  ghost predicate IsRun(states: seq<State>, steps: seq<Step>, flagFirst: bool)
  {
    && |states| == |steps| + 1
    && Init(states[0])
    && (forall i :: 0 <= i < |steps| ==> NextAt(states, steps, i, flagFirst))
  }

  // Its word is in the selector, or the hypervisor is about to see to that.
  predicate Marked(s: State, port: nat)
  {
    WordOf(port) in s.selector || (port in s.work && s.work[port] != RaiseFlag)
  }

  predicate FlagComing(s: State) { s.upcall || exists p :: p in s.work && s.work[p] == RaiseFlag }

  // What was read of a word misses no active port that is not marked again.
  ghost predicate LookOk(s: State)
  {
    match s.look
    case Blind => true
    case PendingRead(w, bits) => forall p :: Active(s, p) && WordOf(p) == w && p !in bits ==> Marked(s, p)
    case MaskRead(w, bits) => forall p :: Active(s, p) && WordOf(p) == w && p in bits ==> Marked(s, p)
    case Seen(w, active) => forall p :: Active(s, p) && WordOf(p) == w && p !in active ==> Marked(s, p)
  }

  // Every active port is marked or in a word the handler still holds, and a non-empty selector has
  // an upcall coming.
  ghost predicate Inv(s: State)
  {
    && (forall p :: Active(s, p) ==> Marked(s, p) || WordOf(p) in s.l1)
    && (s.handler != Scanning ==> s.l1 == {}) && (s.l1 == {} ==> s.look == Blind)
    && LookOk(s)
    && (s.selector != {} ==> FlagComing(s) || s.handler == Entered)
    && s.handler != Taken
  }

  // While the hypervisor goes on with a port, every other is marked as before, and it is if active.
  lemma AdvanceMarks(s: State, port: nat, p: nat)
    requires port in s.work && Active(s, p) && Marked(s, p)
    ensures Marked(Advanced(s, port), p)
  {
  }

  lemma AdvanceFlag(s: State, port: nat)
    requires port in s.work && (s.selector != {} ==> FlagComing(s) || s.handler == Entered)
    ensures var s' := Advanced(s, port); s'.selector != {} ==> FlagComing(s') || s'.handler == Entered
  {
    var s' := Advanced(s, port);
    if s.work[port] == MarkWord && WordOf(port) !in s.selector {
      assert s'.work[port] == RaiseFlag;
    } else if !s'.upcall && FlagComing(s) {
      var q :| q in s.work && s.work[q] == RaiseFlag;
      assert q != port && q in s'.work && s'.work[q] == RaiseFlag;
    }
  }

  lemma AdvanceInv(s: State, port: nat)
    requires Inv(s) && port in s.work
    ensures Inv(Advanced(s, port))
  {
    var s' := Advanced(s, port);
    AdvanceFlag(s, port);
    forall p | Active(s, p) && Marked(s, p) ensures Marked(s', p) { AdvanceMarks(s, port, p); }
    assert forall p :: Active(s', p) <==> Active(s, p);
  }

  lemma RaiseInv(s: State, port: nat)
    requires Inv(s) && port !in s.work
    ensures Inv(Apply(s, Raise(port), true))
  {
    var s' := Apply(s, Raise(port), true);
    KeepFlag(s, s');
  }

  lemma UnmaskInv(s: State, port: nat)
    requires Inv(s) && port !in s.work
    ensures Inv(Apply(s, Unmask(port), true))
  {
    var s' := Apply(s, Unmask(port), true);
    KeepFlag(s, s');
  }

  // Work that is added leaves a flag that is coming, coming.
  lemma KeepFlag(s: State, s': State)
    requires s'.upcall == s.upcall && forall p :: p in s.work ==> p in s'.work && s'.work[p] == s.work[p]
    ensures FlagComing(s) ==> FlagComing(s')
  {
  }

  lemma HandlerInv(s: State, step: Step)
    requires Inv(s) && Enabled(s, step, true) && !step.Raise? && !step.Unmask? && !step.Advance?
    ensures Inv(Apply(s, step, true))
  {
    var s' := Apply(s, step, true);
    KeepFlag(s, s'.(upcall := s.upcall));
    if !step.Take? { assert forall p :: Marked(s', p) <==> Marked(s, p); }
  }

  lemma StepInv(s: State, step: Step)
    requires Inv(s) && Enabled(s, step, true)
    ensures Inv(Apply(s, step, true))
  {
    match step
    case Raise(port) => RaiseInv(s, port);
    case Unmask(port) => UnmaskInv(s, port);
    case Advance(port) => AdvanceInv(s, port);
    case _ => HandlerInv(s, step);
  }

  lemma {:induction false} RunInv(states: seq<State>, steps: seq<Step>, k: nat)
    requires IsRun(states, steps, true) && k < |states|
    ensures Inv(states[k])
  {
    if k > 0 {
      RunInv(states, steps, k - 1);
      assert NextAt(states, steps, k - 1, true);
      StepInv(states[k - 1], steps[k - 1]);
    }
  }

  // In every interleaving: an event that is pending and unmasked while the handler is not running
  // is marked or being marked, and once its word is in the selector, an upcall is pending or being
  // raised. So when the hypervisor is through with what it has begun, the handler will run for it.
  lemma NoEventLost(states: seq<State>, steps: seq<Step>, k: nat, port: nat)
    requires IsRun(states, steps, true) && k < |states|
    requires Active(states[k], port) && states[k].handler == Idle
    ensures Marked(states[k], port) && (WordOf(port) in states[k].selector ==> FlagComing(states[k]))
    ensures states[k].work == map[] ==> states[k].upcall && WordOf(port) in states[k].selector
  {
    RunInv(states, steps, k);
  }

  // ... and while it runs, the port is in a word it still holds or will be called again for.
  lemma NoEventForgotten(states: seq<State>, steps: seq<Step>, k: nat, port: nat)
    requires IsRun(states, steps, true) && k < |states|
    requires Active(states[k], port) && states[k].handler == Scanning && WordOf(port) !in states[k].l1
    ensures Marked(states[k], port) && (WordOf(port) in states[k].selector ==> FlagComing(states[k]))
    ensures states[k].work == map[] ==> states[k].upcall && WordOf(port) in states[k].selector
  {
    RunInv(states, steps, k);
  }

  /* ---- the other order ---- */

  lemma Extend(states: seq<State>, steps: seq<Step>, step: Step) returns (states': seq<State>, steps': seq<Step>)
    requires IsRun(states, steps, false) && Enabled(states[|states| - 1], step, false)
    ensures IsRun(states', steps', false)
    ensures |states'| > 0 && states'[|states'| - 1] == Apply(states[|states| - 1], step, false)
  {
    states', steps' := states + [Apply(states[|states| - 1], step, false)], steps + [step];
    forall i | 0 <= i < |steps'|
      ensures NextAt(states', steps', i, false)
    {
      if i < |steps| { assert NextAt(states, steps, i, false); }
    }
  }

  // A port of a word that is not in the selector is raised without interruption.
  lemma RaiseWhole(states: seq<State>, steps: seq<Step>, port: nat) returns (states': seq<State>, steps': seq<Step>)
    requires IsRun(states, steps, false)
    requires var s := states[|states| - 1];
      s.work == map[] && port !in s.pending && port !in s.masked && WordOf(port) !in s.selector
    ensures IsRun(states', steps', false) && |states'| > 0
    ensures var s := states[|states| - 1];
      states'[|states'| - 1] == s.(pending := s.pending + {port}, selector := s.selector + {WordOf(port)},
                                   upcall := true)
  {
    states', steps' := Extend(states, steps, Raise(port));
    states', steps' := Extend(states', steps', Advance(port));
    states', steps' := Extend(states', steps', Advance(port));
    states', steps' := Extend(states', steps', Advance(port));
    assert states'[|states'| - 1].work == map[];
  }

  // "Clear master flag before clearing selector flag": the other order can lose an event.
  lemma OtherOrderLoses() returns (states: seq<State>, steps: seq<Step>)
    ensures IsRun(states, steps, false)
    ensures var s := states[|states| - 1];
      Active(s, 64) && s.handler == Idle && s.work == map[] && !s.upcall
  {
    assert WordOf(0) == 0 && WordOf(64) == 1;
    states, steps := [State({}, {}, {}, false, map[], Idle, {}, Blind)], [];
    states, steps := RaiseWhole(states, steps, 0);
    states, steps := Extend(states, steps, Take);
    states, steps := RaiseWhole(states, steps, 64);
    states, steps := Extend(states, steps, Enter);
    assert states[|states| - 1] == State({0, 64}, {}, {1}, false, map[], Scanning, {0}, Blind);
    states, steps := ProcessAndDrop(states, steps);
    states, steps := Extend(states, steps, Leave);
  }

  lemma ProcessAndDrop(states: seq<State>, steps: seq<Step>) returns (states': seq<State>, steps': seq<Step>)
    requires IsRun(states, steps, false)
    requires states[|states| - 1] == State({0, 64}, {}, {1}, false, map[], Scanning, {0}, Blind)
    ensures IsRun(states', steps', false) && |states'| > 0
    ensures states'[|states'| - 1] == State({64}, {}, {1}, false, map[], Scanning, {}, Blind)
  {
    assert BitsOf({0, 64}, 0) == {0} && BitsOf({64}, 0) == {};
    states', steps' := Extend(states, steps, ReadPending(0));
    states', steps' := Extend(states', steps', ReadMask(0));
    states', steps' := Extend(states', steps', ProcessPort(0));
    assert states'[|states'| - 1].pending == {64};
    states', steps' := Extend(states', steps', ReadPending(0));
    states', steps' := Extend(states', steps', ReadMask(0));
    states', steps' := Extend(states', steps', DropWord(0));
    assert states'[|states'| - 1].l1 == {};
  }
}
