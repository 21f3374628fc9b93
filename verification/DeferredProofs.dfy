/** What every interleaving of end-of-access calls, the timer handler and the remote domain keeps. */
module DeferredProofs {
  import opened Basics
  import opened DeferredFree

  /* ---- adding up what is on the way ---- */

  type Weight = Entry -> nat

  // The reference of an attempt is still to be freed; or it is, and the page is not.
  predicate Before(pc: Pc) { pc != RefFreed && pc != Done }
  predicate AtPage(pc: Pc) { pc == RefFreed }

  function Part(w: Work, p: Pc -> bool, f: Weight): nat { if p(w.pc) then f(w.entry) else 0 }

  function CallTally(ws: seq<Work>, p: Pc -> bool, f: Weight): nat
  {
    if ws == [] then 0 else Part(ws[0], p, f) + CallTally(ws[1..], p, f)
  }

  function ListTally(es: seq<Entry>, f: Weight): nat
  {
    if es == [] then 0 else f(es[0]) + ListTally(es[1..], f)
  }

  function HandTally(h: Handler, p: Pc -> bool, f: Weight): nat
  {
    if h.Running? then Part(h.hand, p, f) else 0
  }

  // The weight of all that is in a call, listed, in the handler's hand, or leaked.
  function Carried(s: Sys, f: Weight): nat
  {
    CallTally(s.calls, Before, f) + ListTally(s.listed, f) + HandTally(s.handler, Before, f) + ListTally(s.leaked, f)
  }

  function PagesDue(s: Sys, f: Weight): nat
  {
    CallTally(s.calls, AtPage, f) + HandTally(s.handler, AtPage, f)
  }

  function Is(e: Entry): Weight { (x: Entry) => if x == e then 1 else 0 }
  function IsRef(r: nat): Weight { (x: Entry) => if x.ref == r then 1 else 0 }

  lemma {:induction false} CallTallySplit(ws: seq<Work>, i: nat, p: Pc -> bool, f: Weight)
    requires i < |ws|
    ensures CallTally(ws, p, f) == CallTally(ws[..i], p, f) + Part(ws[i], p, f) + CallTally(ws[i + 1..], p, f)
  {
    if i > 0 {
      CallTallySplit(ws[1..], i - 1, p, f);
      assert ws[1..][..i - 1] == ws[..i][1..] && ws[1..][i..] == ws[i + 1..];
    }
  }

  lemma {:induction false} CallTallyConcat(a: seq<Work>, b: seq<Work>, p: Pc -> bool, f: Weight)
    ensures CallTally(a + b, p, f) == CallTally(a, p, f) + CallTally(b, p, f)
  {
    if a == [] {
      assert a + b == b;
    } else {
      CallTallyConcat(a[1..], b, p, f);
      assert (a + b)[1..] == a[1..] + b;
    }
  }

  lemma {:induction false} ListTallyConcat(a: seq<Entry>, b: seq<Entry>, f: Weight)
    ensures ListTally(a + b, f) == ListTally(a, f) + ListTally(b, f)
  {
    if a == [] {
      assert a + b == b;
    } else {
      ListTallyConcat(a[1..], b, f);
      assert (a + b)[1..] == a[1..] + b;
    }
  }

  lemma ListTallyAdd(a: seq<Entry>, e: Entry, f: Weight)
    ensures ListTally(a + [e], f) == ListTally(a, f) + f(e)
  {
    ListTallyConcat(a, [e], f);
  }

  lemma CallTallyRemove(ws: seq<Work>, i: nat, p: Pc -> bool, f: Weight)
    requires i < |ws|
    ensures CallTally(ws[..i] + ws[i + 1..], p, f) + Part(ws[i], p, f) == CallTally(ws, p, f)
  {
    CallTallySplit(ws, i, p, f);
    CallTallyConcat(ws[..i], ws[i + 1..], p, f);
  }

  // Where a work stands decides what it adds.
  lemma WithPcTally(s: Sys, slot: Slot, pc: Pc, p: Pc -> bool, f: Weight)
    requires HasWork(s, slot)
    ensures var (s', w) := (WithPc(s, slot, pc), WorkOf(s, slot));
      CallTally(s'.calls, p, f) + HandTally(s'.handler, p, f) + Part(w, p, f)
      == CallTally(s.calls, p, f) + HandTally(s.handler, p, f) + Part(w.(pc := pc), p, f)
  {
    if slot.Call? {
      var ws, ws' := s.calls, s.calls[slot.i := s.calls[slot.i].(pc := pc)];
      CallTallySplit(ws, slot.i, p, f);
      CallTallySplit(ws', slot.i, p, f);
      assert ws'[..slot.i] == ws[..slot.i] && ws'[slot.i + 1..] == ws[slot.i + 1..];
    }
  }

  /* ---- the flow through one step ---- */

  // What a step takes up from the drivers, and what it gives to the free list.
  function Entering(s: Sys, a: Act, f: Weight): nat
    requires Enabled(s, a)
  {
    if a.Begin? then f(Entry(|s.begun|, a.ref, a.page)) else 0
  }

  function Leaving(s: Sys, a: Act, f: Weight): nat
    requires Enabled(s, a)
  {
    if a.DoPutRef? then f(WorkOf(s, a.slot).entry) else 0
  }

  lemma StepCarried(s: Sys, a: Act, f: Weight)
    requires Enabled(s, a)
    ensures Carried(Next(s, a), f) + Leaving(s, a, f) == Carried(s, f) + Entering(s, a, f)
  {
    if a.Begin? {
      CallTallyConcat(s.calls, [Work(Entry(|s.begun|, a.ref, a.page), Start)], Before, f);
    } else if a.DoTryClear? {
      TryClearTally(s, a.slot, Before, f);
    } else if a.DoLoad? || a.DoPutRef? || a.DoFreePage? {
      PcCarried(s, a, f);
    } else if a.DoDefer? {
      DeferCarried(s, a.i, a.memory, f);
    } else if a.Return? {
      CallTallyRemove(s.calls, a.i, Before, f);
    } else if a.DoHandNext? {
      HandNextCarried(s, f);
    }
  }

  lemma PcCarried(s: Sys, a: Act, f: Weight)
    requires Enabled(s, a) && (a.DoLoad? || a.DoPutRef? || a.DoFreePage?)
    ensures Carried(Next(s, a), f) + Leaving(s, a, f) == Carried(s, f)
  {
    var pc := if a.DoLoad? then Loaded(FlagsOf(s, WorkOf(s, a.slot).entry.ref))
              else if a.DoPutRef? then RefFreed else Done;
    WithPcTally(s, a.slot, pc, Before, f);
  }

  lemma TryClearTally(s: Sys, slot: Slot, p: Pc -> bool, f: Weight)
    requires HasWork(s, slot) && WorkOf(s, slot).pc.Loaded?
    requires p == Before || p == AtPage
    ensures var s' := TryClear(s, slot);
      CallTally(s'.calls, p, f) + HandTally(s'.handler, p, f) == CallTally(s.calls, p, f) + HandTally(s.handler, p, f)
      && s'.listed == s.listed && s'.leaked == s.leaked && s'.freed == s.freed && s'.ended == s.ended
      && s'.begun == s.begun
  {
    WithPcTally(s, slot, InUse, p, f);
    WithPcTally(s, slot, Cleared, p, f);
    WithPcTally(s, slot, Loaded(FlagsOf(s, WorkOf(s, slot).entry.ref)), p, f);
  }

  lemma DeferCarried(s: Sys, i: nat, memory: bool, f: Weight)
    requires i < |s.calls| && s.calls[i].pc == InUse
    ensures Carried(Defer(s, i, memory), f) == Carried(s, f)
  {
    CallTallyRemove(s.calls, i, Before, f);
    ListTallyAdd(s.listed, s.calls[i].entry, f);
    ListTallyAdd(s.leaked, s.calls[i].entry, f);
  }

  lemma HandNextCarried(s: Sys, f: Weight)
    requires s.handler.Running? && (s.handler.hand.pc == InUse || s.handler.hand.pc == Done)
    ensures Carried(HandNext(s), f) == Carried(s, f)
  {
    var h := s.handler;
    if h.hand.pc == InUse {
      var s1 := s.(listed := s.listed + [h.hand.entry]);
      ListTallyAdd(s.listed, h.hand.entry, f);
      LoopTopCarried(s1, h.nr, if h.first == None then Some(h.hand.entry.id) else h.first, h.added, f);
    } else {
      LoopTopCarried(s, h.nr, h.first, h.added, f);
    }
  }

  // Nothing but the list and the hand changes at the top of the loop.
  lemma LoopTopCarried(s: Sys, nr: nat, first: Option<nat>, added: bool, f: Weight)
    ensures Carried(LoopTop(s, nr, first, added), f)
            == CallTally(s.calls, Before, f) + ListTally(s.listed, f) + ListTally(s.leaked, f)
  {
  }

  lemma StepPages(s: Sys, a: Act, f: Weight)
    requires Enabled(s, a)
    ensures PagesDue(Next(s, a), f) + ListTally(Next(s, a).ended, f) + ListTally(s.freed, f)
            == PagesDue(s, f) + ListTally(s.ended, f) + ListTally(Next(s, a).freed, f)
  {
    if a.Begin? {
      CallTallyConcat(s.calls, [Work(Entry(|s.begun|, a.ref, a.page), Start)], AtPage, f);
    } else if a.DoTryClear? {
      TryClearTally(s, a.slot, AtPage, f);
    } else if a.DoLoad? || a.DoPutRef? || a.DoFreePage? {
      var pc := if a.DoLoad? then Loaded(FlagsOf(s, WorkOf(s, a.slot).entry.ref))
                else if a.DoPutRef? then RefFreed else Done;
      WithPcTally(s, a.slot, pc, AtPage, f);
      ListTallyAdd(s.freed, WorkOf(s, a.slot).entry, f);
      ListTallyAdd(s.ended, WorkOf(s, a.slot).entry, f);
    } else if a.DoDefer? || a.Return? {
      CallTallyRemove(s.calls, a.i, AtPage, f);
    } else if a.DoFire? || a.DoHandNext? {
      HandlerPages(s, a, f);
    }
  }

  lemma HandlerPages(s: Sys, a: Act, f: Weight)
    requires Enabled(s, a) && (a.DoFire? || a.DoHandNext?)
    ensures PagesDue(Next(s, a), f) == PagesDue(s, f) && Next(s, a).ended == s.ended && Next(s, a).freed == s.freed
  {
  }

  /* ---- the laws of conservation ---- */

  // By any weight: every call made is exactly one of on the way, or with its reference freed; of
  // the latter, the page is freed or still due.
  ghost predicate CallsLaw(s: Sys, f: Weight)
  {
    && Carried(s, f) + ListTally(s.freed, f) == ListTally(s.begun, f)
    && PagesDue(s, f) + ListTally(s.ended, f) == ListTally(s.freed, f)
  }

  lemma StepHistory(s: Sys, a: Act, f: Weight)
    requires Enabled(s, a)
    ensures ListTally(Next(s, a).begun, f) == ListTally(s.begun, f) + Entering(s, a, f)
    ensures ListTally(Next(s, a).freed, f) == ListTally(s.freed, f) + Leaving(s, a, f)
  {
    if a.Begin? {
      ListTallyAdd(s.begun, Entry(|s.begun|, a.ref, a.page), f);
    } else if a.DoPutRef? {
      ListTallyAdd(s.freed, WorkOf(s, a.slot).entry, f);
    }
  }

  lemma StepCalls(s: Sys, a: Act, f: Weight)
    requires Enabled(s, a) && CallsLaw(s, f)
    ensures CallsLaw(Next(s, a), f)
  {
    StepCarried(s, a, f);
    StepPages(s, a, f);
    StepHistory(s, a, f);
    Balance(s, Next(s, a), f, Entering(s, a, f), Leaving(s, a, f));
  }

  lemma Balance(s: Sys, s': Sys, f: Weight, entering: nat, leaving: nat)
    requires CallsLaw(s, f)
    requires Carried(s', f) + leaving == Carried(s, f) + entering
    requires ListTally(s'.begun, f) == ListTally(s.begun, f) + entering
    requires ListTally(s'.freed, f) == ListTally(s.freed, f) + leaving
    requires PagesDue(s', f) + ListTally(s'.ended, f) + ListTally(s.freed, f)
             == PagesDue(s, f) + ListTally(s.ended, f) + ListTally(s'.freed, f)
    ensures CallsLaw(s', f)
  {
  }

  // How often a reference is free, held by a driver, or on the way.
  function Places(s: Sys, r: nat): nat { s.free[r] + s.held[r] + Carried(s, IsRef(r)) }

  lemma StepPlaces(s: Sys, a: Act, r: nat)
    requires Enabled(s, a)
    ensures Places(Next(s, a), r) == Places(s, r)
  {
    StepCarried(s, a, IsRef(r));
    StepPool(s, a, r);
  }

  lemma StepPool(s: Sys, a: Act, r: nat)
    requires Enabled(s, a)
    ensures Next(s, a).free[r] + Next(s, a).held[r] + Entering(s, a, IsRef(r)) ==
            s.free[r] + s.held[r] + Leaving(s, a, IsRef(r))
  {
    if a.Grant? {
    } else if a.Begin? {
    } else if a.DoPutRef? {
    } else {
      PoolStays(s, a);
    }
  }

  lemma PoolStays(s: Sys, a: Act)
    requires Enabled(s, a) && !a.Grant? && !a.Begin? && !a.DoPutRef?
    ensures Next(s, a).free == s.free && Next(s, a).held == s.held
  {
  }

  // A work that still has its reference is among what is carried.
  lemma WorkCarried(s: Sys, slot: Slot, f: Weight)
    requires HasWork(s, slot) && Before(WorkOf(s, slot).pc)
    ensures f(WorkOf(s, slot).entry) <= Carried(s, f)
  {
    if slot.Call? { CallTallySplit(s.calls, slot.i, Before, f); }
  }
}
