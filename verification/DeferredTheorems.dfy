/**
 Over whole runs: a grant reference and its page are freed only after the remote domain was
 seen to be off the page, in the very step that shut it out, and each at most once.
 */
module DeferredTheorems {
  import opened Basics
  import opened DeferredFree
  import opened DeferredProofs

  /* ---- what is known of each attempt ---- */

  // The flags of e.ref went from a value without reading or writing to 0, in one step.
  ghost predicate WasCleared(s: Sys, e: Entry)
  {
    exists i :: 0 <= i < |s.cleared| && s.cleared[i].entry == e && !Busy(s.cleared[i].before)
  }

  ghost predicate WorkOk(s: Sys, w: Work)
  {
    && (w.pc == Cleared ==> FlagsOf(s, w.entry.ref) == ZERO)
    && (w.pc == Cleared || w.pc == RefFreed ==> WasCleared(s, w.entry))
    && (w.pc == RefFreed ==> w.entry in s.freed)
  }

  ghost predicate WorksOk(s: Sys)
  {
    forall slot :: HasWork(s, slot) ==> WorkOk(s, WorkOf(s, slot))
  }

  // No flag is set on a free reference, so the remote domain cannot map it.
  ghost predicate FreeIsShut(s: Sys) { forall r :: r in s.free ==> FlagsOf(s, r) == ZERO }

  ghost predicate FreedAfterClearing(s: Sys)
  {
    && (forall e :: e in s.freed ==> WasCleared(s, e))
    && (forall e :: e in s.ended ==> e in s.freed)
  }

  ghost predicate NumberedOk(s: Sys) { forall i :: 0 <= i < |s.begun| ==> s.begun[i].id == i }

  // Each reference of the table is in one place, and no other is anywhere.
  ghost predicate PlacesLaw(s: Sys) { forall r: nat :: Places(s, r) == if r in s.flags then 1 else 0 }

  ghost predicate Inv(s: Sys)
  {
    PlacesLaw(s) && WorksOk(s) && FreeIsShut(s) && FreedAfterClearing(s) && NumberedOk(s)
  }

  /* ---- one step ---- */

  lemma CarriedRef(s: Sys, slot: Slot)
    requires PlacesLaw(s) && HasWork(s, slot) && Before(WorkOf(s, slot).pc)
    ensures WorkOf(s, slot).entry.ref in s.flags && WorkOf(s, slot).entry.ref !in s.free
  {
    var r := WorkOf(s, slot).entry.ref;
    WorkCarried(s, slot, IsRef(r));
    assert Places(s, r) >= 1 + s.free[r];
  }

  lemma FreeRef(s: Sys, r: nat)
    requires PlacesLaw(s) && r in s.free
    ensures r in s.flags && s.free[r] == 1
  {
    assert Places(s, r) >= s.free[r];
  }

  lemma KeysStay(s: Sys, a: Act)
    requires Enabled(s, a) && PlacesLaw(s)
    ensures forall r :: r in Next(s, a).flags <==> r in s.flags
  {
    if a.Grant? { FreeRef(s, a.ref); }
    if a.DoTryClear? { CarriedRef(s, a.slot); }
  }

  lemma StepPlacesLaw(s: Sys, a: Act)
    requires Enabled(s, a) && PlacesLaw(s)
    ensures PlacesLaw(Next(s, a))
  {
    KeysStay(s, a);
    forall r: nat ensures Places(Next(s, a), r) == Places(s, r) { StepPlaces(s, a, r); }
  }

  // What is known of a work stays known as history grows, if zero flags of its reference stay.
  lemma StillOk(s: Sys, s': Sys, w: Work)
    requires WorkOk(s, w) && s.cleared <= s'.cleared && s.freed <= s'.freed
    requires w.pc == Cleared ==> FlagsOf(s', w.entry.ref) == FlagsOf(s, w.entry.ref)
    ensures WorkOk(s', w)
  {
    if w.pc == Cleared || w.pc == RefFreed { StillCleared(s, s', w.entry); }
    if w.pc == RefFreed { InLonger(s.freed, s'.freed, w.entry); }
  }

  // Steps on the flags by others leave a cleared reference's flags at 0.
  lemma ClearedStays(s: Sys, a: Act, slot: Slot)
    requires Inv(s) && Enabled(s, a) && HasWork(s, slot) && WorkOf(s, slot).pc == Cleared
    ensures FlagsOf(Next(s, a), WorkOf(s, slot).entry.ref) == ZERO
  {
    CarriedRef(s, slot);
    assert WorkOk(s, WorkOf(s, slot));
    StaysShut(s, a, WorkOf(s, slot).entry.ref);
  }

  lemma HistoryGrows(s: Sys, a: Act)
    requires Enabled(s, a)
    ensures s.cleared <= Next(s, a).cleared && s.freed <= Next(s, a).freed
  {
  }

  lemma KeptWork(s: Sys, a: Act, slot: Slot)
    requires Inv(s) && Enabled(s, a) && HasWork(s, slot)
    ensures WorkOk(Next(s, a), WorkOf(s, slot))
  {
    HistoryGrows(s, a);
    if WorkOf(s, slot).pc == Cleared { ClearedStays(s, a, slot); }
    assert WorkOk(s, WorkOf(s, slot));
    StillOk(s, Next(s, a), WorkOf(s, slot));
  }

  // The slot a step works on.
  predicate WorksOn(a: Act, slot: Slot)
  {
    (a.DoLoad? || a.DoTryClear? || a.DoPutRef? || a.DoFreePage?) && a.slot == slot
  }

  // Any other work after a step was there before, or has just started.
  lemma OtherWork(s: Sys, a: Act, slot: Slot)
    requires Enabled(s, a) && HasWork(Next(s, a), slot) && !WorksOn(a, slot)
    ensures WorkOf(Next(s, a), slot).pc == Start
            || exists t :: HasWork(s, t) && WorkOf(s, t) == WorkOf(Next(s, a), slot)
  {
    if a.DoDefer? || a.Return? {
      CallGone(s, a, slot);
    } else {
      SameSlot(s, a, slot);
    }
  }

  lemma CallGone(s: Sys, a: Act, slot: Slot)
    requires Enabled(s, a) && HasWork(Next(s, a), slot) && (a.DoDefer? || a.Return?)
    ensures var t := if slot.Hand? || slot.i < a.i then slot else Call(slot.i + 1);
      HasWork(s, t) && WorkOf(s, t) == WorkOf(Next(s, a), slot)
  {
  }

  lemma SameSlot(s: Sys, a: Act, slot: Slot)
    requires Enabled(s, a) && HasWork(Next(s, a), slot) && !WorksOn(a, slot) && !a.DoDefer? && !a.Return?
    ensures WorkOf(Next(s, a), slot).pc == Start || (HasWork(s, slot) && WorkOf(s, slot) == WorkOf(Next(s, a), slot))
  {
    if a.DoFire? || a.DoHandNext? {
      HandlerKeepsCalls(s, a);
    } else if a.Begin? {
      assert slot.Call? && slot.i < |s.calls| ==> Next(s, a).calls[slot.i] == s.calls[slot.i];
    } else {
      PcKeepsOthers(s, a, slot);
    }
  }

  lemma HandlerKeepsCalls(s: Sys, a: Act)
    requires Enabled(s, a) && (a.DoFire? || a.DoHandNext?)
    ensures Next(s, a).calls == s.calls
    ensures Next(s, a).handler.Running? ==> Next(s, a).handler.hand.pc == Start
  {
  }

  lemma PcKeepsOthers(s: Sys, a: Act, slot: Slot)
    requires Enabled(s, a) && HasWork(Next(s, a), slot) && !WorksOn(a, slot)
    requires a.Grant? || a.Remote? || a.DoLoad? || a.DoTryClear? || a.DoPutRef? || a.DoFreePage?
    ensures HasWork(s, slot) && WorkOf(s, slot) == WorkOf(Next(s, a), slot)
  {
  }

  lemma WorkedOn(s: Sys, a: Act, slot: Slot, s': Sys)
    requires Inv(s) && Enabled(s, a) && WorksOn(a, slot) && s' == Next(s, a) && HasWork(s', slot)
    ensures WorkOk(s', WorkOf(s', slot))
  {
    assert HasWork(s, slot);
    assert WorkOk(s, WorkOf(s, slot));
    if a.DoTryClear? { WorkedClear(s, slot); } else if a.DoPutRef? { WorkedPut(s, slot); }
  }

  lemma WorkedClear(s: Sys, slot: Slot)
    requires HasWork(s, slot) && WorkOf(s, slot).pc.Loaded?
    ensures HasWork(TryClear(s, slot), slot) && WorkOk(TryClear(s, slot), WorkOf(TryClear(s, slot), slot))
  {
    var s', e := TryClear(s, slot), WorkOf(s, slot).entry;
    assert WorkOf(s', slot).entry == e;
    if WorkOf(s', slot).pc == Cleared {
      assert s'.cleared[|s.cleared|] == Clearing(e, WorkOf(s, slot).pc.nflags);
    }
  }

  lemma WorkedPut(s: Sys, slot: Slot)
    requires HasWork(s, slot) && WorkOf(s, slot).pc == Cleared && WorkOk(s, WorkOf(s, slot))
    ensures HasWork(PutRef(s, slot), slot) && WorkOk(PutRef(s, slot), WorkOf(PutRef(s, slot), slot))
  {
    var s', e := PutRef(s, slot), WorkOf(s, slot).entry;
    assert WorkOf(s', slot) == Work(e, RefFreed);
    assert s'.freed[|s.freed|] == e;
    StillCleared(s, s', e);
  }

  lemma StillCleared(s: Sys, s': Sys, e: Entry)
    requires WasCleared(s, e) && s.cleared <= s'.cleared
    ensures WasCleared(s', e)
  {
    var i :| 0 <= i < |s.cleared| && s.cleared[i].entry == e && !Busy(s.cleared[i].before);
    assert s'.cleared[i] == s.cleared[i];
  }

  lemma StepWorks(s: Sys, a: Act)
    requires Inv(s) && Enabled(s, a)
    ensures WorksOk(Next(s, a))
  {
    var s' := Next(s, a);
    forall slot | HasWork(s', slot)
      ensures WorkOk(s', WorkOf(s', slot))
    {
      if WorksOn(a, slot) {
        WorkedOn(s, a, slot, s');
      } else {
        OtherWork(s, a, slot);
        if WorkOf(s', slot).pc != Start {
          var t :| HasWork(s, t) && WorkOf(s, t) == WorkOf(s', slot);
          KeptWork(s, a, t);
        }
      }
    }
  }

  lemma StepShut(s: Sys, a: Act)
    requires Inv(s) && Enabled(s, a)
    ensures FreeIsShut(Next(s, a))
  {
    forall r | r in Next(s, a).free
      ensures FlagsOf(Next(s, a), r) == ZERO
    {
      FreeAfter(s, a, r);
      if r in s.free { StaysShut(s, a, r); } else { assert WorkOk(s, WorkOf(s, a.slot)); }
    }
  }

  lemma FreeAfter(s: Sys, a: Act, r: nat)
    requires Inv(s) && Enabled(s, a) && r in Next(s, a).free
    ensures r in s.free || (a.DoPutRef? && r == WorkOf(s, a.slot).entry.ref)
    ensures r in s.free ==> !(a.Grant? && a.ref == r)
  {
    if a.Grant? {
      FreeRef(s, a.ref);
    } else if !a.DoPutRef? {
      SameFree(s, a);
    }
  }

  lemma SameFree(s: Sys, a: Act)
    requires Enabled(s, a) && !a.Grant? && !a.DoPutRef?
    ensures Next(s, a).free == s.free
  {
  }

  lemma StaysShut(s: Sys, a: Act, r: nat)
    requires Enabled(s, a) && FlagsOf(s, r) == ZERO && !(a.Grant? && a.ref == r)
    ensures FlagsOf(Next(s, a), r) == ZERO
  {
  }

  lemma InLonger(es: seq<Entry>, es': seq<Entry>, e: Entry)
    requires e in es && es <= es'
    ensures e in es'
  {
    var i :| 0 <= i < |es| && es[i] == e;
    assert es'[i] == e;
  }

  // What is new in the histories of freed references and pages was just worked on.
  lemma NewlyFreed(s: Sys, a: Act, e: Entry)
    requires Enabled(s, a)
    ensures e in Next(s, a).freed && e !in s.freed ==> a.DoPutRef? && e == WorkOf(s, a.slot).entry
    ensures e in Next(s, a).ended && e !in s.ended ==> a.DoFreePage? && e == WorkOf(s, a.slot).entry
  {
  }

  lemma StepFreed(s: Sys, a: Act)
    requires Inv(s) && Enabled(s, a)
    ensures FreedAfterClearing(Next(s, a))
  {
    HistoryGrows(s, a);
    forall e | e in Next(s, a).freed
      ensures WasCleared(Next(s, a), e)
    {
      NewlyFreed(s, a, e);
      if e !in s.freed { assert WorkOk(s, WorkOf(s, a.slot)); }
      StillCleared(s, Next(s, a), e);
    }
    forall e | e in Next(s, a).ended
      ensures e in Next(s, a).freed
    {
      NewlyFreed(s, a, e);
      if e !in s.ended { assert WorkOk(s, WorkOf(s, a.slot)); }
      InLonger(s.freed, Next(s, a).freed, e);
    }
  }

  lemma StepNumbered(s: Sys, a: Act)
    requires NumberedOk(s) && Enabled(s, a)
    ensures NumberedOk(Next(s, a))
  {
  }

  lemma StepInv(s: Sys, a: Act)
    requires Inv(s) && Enabled(s, a)
    ensures Inv(Next(s, a))
  {
    StepPlacesLaw(s, a);
    StepWorks(s, a);
    StepShut(s, a);
    StepFreed(s, a);
    StepNumbered(s, a);
  }

  /* ---- whole runs ---- */

  lemma {:induction false} RunInv(s: Sys, acts: seq<Act>)
    requires Inv(s) && CanRun(s, acts)
    ensures Inv(Ran(s, acts))
    ensures forall r :: r in Ran(s, acts).flags <==> r in s.flags
    decreases |acts|
  {
    if acts != [] {
      StepInv(s, acts[0]);
      KeysStay(s, acts[0]);
      RunInv(Next(s, acts[0]), acts[1..]);
    }
  }

  lemma BegunInv(refs: set<nat>)
    ensures Inv(Begun(refs))
  {
  }

  lemma {:induction false} RunCalls(s: Sys, acts: seq<Act>, f: Weight)
    requires CallsLaw(s, f) && CanRun(s, acts)
    ensures CallsLaw(Ran(s, acts), f)
    decreases |acts|
  {
    if acts != [] {
      StepCalls(s, acts[0], f);
      RunCalls(Next(s, acts[0]), acts[1..], f);
    }
  }

  // In every reachable state each grant reference is in exactly one place: free, held by a
  // driver, or on the way (in one call, once on the list, in the handler's hand, or leaked);
  // and a free one has no flag set.
  lemma RunPlaces(refs: set<nat>, acts: seq<Act>)
    requires CanRun(Begun(refs), acts)
    ensures var s := Ran(Begun(refs), acts);
      FreeIsShut(s) && forall r: nat :: Places(s, r) == if r in refs then 1 else 0
  {
    BegunInv(refs);
    RunInv(Begun(refs), acts);
  }

  // What is freed was cleared: its flags went from no reading and no writing to 0 in one step.
  // What was ended was freed.
  lemma RunFreesCleared(refs: set<nat>, acts: seq<Act>)
    requires CanRun(Begun(refs), acts)
    ensures FreedAfterClearing(Ran(Begun(refs), acts))
  {
    BegunInv(refs);
    RunInv(Begun(refs), acts);
  }

  lemma ClearingIsOneStep(s: Sys, a: Act)
    requires Enabled(s, a) && Next(s, a).cleared != s.cleared
    ensures a.DoTryClear?
    ensures var e := WorkOf(s, a.slot).entry;
      && Next(s, a).cleared == s.cleared + [Clearing(e, FlagsOf(s, e.ref))]
      && !Busy(FlagsOf(s, e.ref)) && FlagsOf(Next(s, a), e.ref) == ZERO
  {
  }

  /* ---- at most once ---- */

  lemma {:induction false} TallyNone(es: seq<Entry>, e: Entry)
    ensures e !in es <==> ListTally(es, Is(e)) == 0
  {
    if es != [] {
      assert es == [es[0]] + es[1..];
      TallyNone(es[1..], e);
    }
  }

  lemma TallyTwice(es: seq<Entry>, i: nat, j: nat)
    requires i < j < |es| && es[i] == es[j]
    ensures ListTally(es, Is(es[i])) >= 2
  {
    var a, b := es[..j], es[j..];
    assert es == a + b && es[i] == a[i] && es[j] == b[0];
    ListTallyConcat(a, b, Is(es[i]));
    TallyNone(a, es[i]);
    TallyNone(b, es[i]);
  }

  lemma {:induction false} TallyOfNumbered(es: seq<Entry>, e: Entry, from: nat)
    requires forall i :: 0 <= i < |es| ==> es[i].id == from + i
    ensures ListTally(es, Is(e)) <= 1
    ensures e.id < from ==> ListTally(es, Is(e)) == 0
  {
    if es != [] {
      TallyOfNumbered(es[1..], e, from + 1);
    }
  }

  // Every call's entry is on the way exactly once, or its reference was freed exactly once, and
  // never both; its page was freed at most once, and only after the reference.
  ghost predicate OnceEach(s: Sys, e: Entry)
  {
    && Carried(s, Is(e)) + ListTally(s.freed, Is(e)) == (if e in s.begun then 1 else 0)
    && ListTally(s.ended, Is(e)) <= ListTally(s.freed, Is(e))
  }

  lemma RunOnceEach(refs: set<nat>, acts: seq<Act>, e: Entry)
    requires CanRun(Begun(refs), acts)
    ensures OnceEach(Ran(Begun(refs), acts), e)
  {
    var s := Ran(Begun(refs), acts);
    BegunInv(refs);
    RunInv(Begun(refs), acts);
    RunCalls(Begun(refs), acts, Is(e));
    TallyOfNumbered(s.begun, e, 0);
    TallyNone(s.begun, e);
  }

  // A deferred entry is still listed, or freed, never both; and neither list repeats.
  lemma ListedOrFreed(refs: set<nat>, acts: seq<Act>)
    requires CanRun(Begun(refs), acts)
    ensures var s := Ran(Begun(refs), acts);
      && (forall e :: e in s.listed ==> e !in s.freed)
      && (forall i, j :: 0 <= i < j < |s.listed| ==> s.listed[i] != s.listed[j])
      && (forall i, j :: 0 <= i < j < |s.freed| ==> s.freed[i] != s.freed[j])
      && (forall i, j :: 0 <= i < j < |s.ended| ==> s.ended[i] != s.ended[j])
  {
    var s := Ran(Begun(refs), acts);
    forall e | e in s.listed
      ensures e !in s.freed
    {
      RunOnceEach(refs, acts, e);
      TallyNone(s.listed, e);
      TallyNone(s.freed, e);
    }
    NoRepeat(refs, acts, s.listed);
    NoRepeat(refs, acts, s.freed);
    NoRepeat(refs, acts, s.ended);
  }

  lemma NoRepeat(refs: set<nat>, acts: seq<Act>, es: seq<Entry>)
    requires CanRun(Begun(refs), acts)
    requires var s := Ran(Begun(refs), acts); es == s.listed || es == s.freed || es == s.ended
    ensures forall i, j :: 0 <= i < j < |es| ==> es[i] != es[j]
  {
    forall i, j | 0 <= i < j < |es|
      ensures es[i] != es[j]
    {
      if es[i] == es[j] {
        TallyTwice(es, i, j);
        RunOnceEach(refs, acts, es[i]);
      }
    }
  }
}
