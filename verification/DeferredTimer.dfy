/**
 The timer of the deferred list: no entry is stranded, and when the handler is started on an
 empty list, whose first entry it takes all the same.
 */
module DeferredTimer {
  import opened Basics
  import opened DeferredFree

  // With the handler idle, a listed entry has the timer pending; while it runs, the timer is
  // pending again exactly if something was deferred meanwhile.
  ghost predicate TimerOk(s: Sys)
  {
    && (s.handler.Idle? && s.listed != [] ==> s.timer)
    && (s.handler.Running? ==> (s.timer <==> s.handler.added))
  }

  lemma StepTimer(s: Sys, a: Act)
    requires TimerOk(s) && Enabled(s, a)
    ensures TimerOk(Next(s, a))
  {
  }

  // No entry is stranded: while any is listed, the timer is pending or the handler is at work.
  lemma {:induction false} RunTimer(s: Sys, acts: seq<Act>)
    requires TimerOk(s) && CanRun(s, acts)
    ensures TimerOk(Ran(s, acts))
    decreases |acts|
  {
    if acts != [] {
      StepTimer(s, acts[0]);
      RunTimer(Next(s, acts[0]), acts[1..]);
    }
  }

  /* ---- starting on an empty list ---- */

  // The timer is pending with nothing listed: the next run of the handler goes astray.
  predicate Stale(s: Sys) { s.handler.Idle? && s.timer && s.listed == [] }

  // The handler takes from an empty list exactly when it is started on one.
  lemma AstrayIffStale(s: Sys, a: Act)
    requires Enabled(s, a) && !s.handler.Astray?
    ensures Next(s, a).handler.Astray? <==> a.DoFire? && Stale(s)
  {
  }

  // That comes about exactly when a run of the handler during which something was deferred ends
  // with every entry freed: the entry it was rearmed for is gone, and the timer is not.
  lemma StaleIff(s: Sys, a: Act)
    requires TimerOk(s) && Enabled(s, a) && !Stale(s)
    ensures Stale(Next(s, a)) <==> a.DoHandNext? && s.handler.added && s.handler.hand.pc == Done && s.listed == []
  {
  }

  predicate Quiet(s: Sys, acts: seq<Act>)
    requires CanRun(s, acts)
    decreases |acts|
  {
    acts == [] ||
    (!(s.handler.Running? && acts[0].DoDefer? && acts[0].memory) && Quiet(Next(s, acts[0]), acts[1..]))
  }

  // If nothing is deferred while the handler runs, it never goes astray.
  lemma {:induction false} QuietNeverAstray(s: Sys, acts: seq<Act>)
    requires CanRun(s, acts) && Quiet(s, acts)
    requires TimerOk(s) && !Stale(s) && !s.handler.Astray? && (s.handler.Running? ==> !s.handler.added)
    ensures !Ran(s, acts).handler.Astray?
    decreases |acts|
  {
    if acts != [] {
      StepTimer(s, acts[0]);
      AstrayIffStale(s, acts[0]);
      StaleIff(s, acts[0]);
      QuietStep(s, acts[0]);
      QuietNeverAstray(Next(s, acts[0]), acts[1..]);
    }
  }

  lemma QuietStep(s: Sys, a: Act)
    requires Enabled(s, a) && !(s.handler.Running? && a.DoDefer? && a.memory)
    requires s.handler.Running? ==> !s.handler.added
    ensures Next(s, a).handler.Running? ==> !Next(s, a).handler.added
  {
  }

  /* ---- a run that goes astray ---- */

  lemma {:induction false} OneMore(s: Sys, acts: seq<Act>, a: Act) returns (acts': seq<Act>)
    requires CanRun(s, acts) && Enabled(Ran(s, acts), a)
    ensures acts' == acts + [a]
    ensures CanRun(s, acts') && Ran(s, acts') == Next(Ran(s, acts), a)
    decreases |acts|
  {
    acts' := acts + [a];
    if acts == [] {
      assert acts'[1..] == [];
    } else {
      var rest := OneMore(Next(s, acts[0]), acts[1..], a);
      assert acts'[1..] == rest;
    }
  }

  // The list, the timer and the handler are as they were.
  predicate SameTimer(s: Sys, s': Sys)
  {
    s'.listed == s.listed && s'.timer == s.timer && s'.handler == s.handler
  }

  // A reference is granted, and mapped by the remote domain.
  lemma Mapped(s: Sys, acts: seq<Act>, r: nat) returns (acts': seq<Act>)
    requires CanRun(s, acts)
    requires var t := Ran(s, acts); r in t.free && t.held == multiset{} && t.calls == []
    ensures CanRun(s, acts')
    ensures var (t, t') := (Ran(s, acts), Ran(s, acts'));
      && SameTimer(t, t') && t'.free == t.free - multiset{r} && t'.held == multiset{r} && t'.calls == []
      && t'.flags == t.flags[r := Flags(true, false, true, false)]
  {
    acts' := OneMore(s, acts, Grant(r, false));
    acts' := OneMore(s, acts', Remote(r, Flags(true, false, true, false)));
  }

  // Access to it is ended, and it is found in use.
  lemma FoundInUse(s: Sys, acts: seq<Act>, r: nat) returns (acts': seq<Act>)
    requires CanRun(s, acts)
    requires var t := Ran(s, acts); t.held == multiset{r} && t.calls == [] && r in t.flags && t.flags[r].reading
    ensures CanRun(s, acts')
    ensures var (t, t') := (Ran(s, acts), Ran(s, acts'));
      && SameTimer(t, t') && t'.free == t.free && t'.held == multiset{} && t'.flags == t.flags
      && |t'.calls| == 1 && t'.calls[0].pc == InUse && t'.calls[0].entry.ref == r
  {
    acts' := OneMore(s, acts, Begin(r, 0));
    acts' := OneMore(s, acts', DoLoad(Call(0)));
    acts' := OneMore(s, acts', DoTryClear(Call(0)));
  }

  // The remote domain lets go of what the handler has in hand, so its flags are cleared ..
  lemma HandClears(s: Sys, acts: seq<Act>) returns (acts': seq<Act>)
    requires CanRun(s, acts)
    requires var t := Ran(s, acts);
      t.handler.Running? && t.handler.hand.pc == Start && t.handler.hand.entry.ref in t.flags
    ensures CanRun(s, acts')
    ensures var (t, t') := (Ran(s, acts), Ran(s, acts'));
      && t'.handler == t.handler.(hand := t.handler.hand.(pc := Cleared))
      && t'.listed == t.listed && t'.timer == t.timer && t'.flags.Keys == t.flags.Keys
  {
    acts' := HandLoads(s, acts);
    acts' := OneMore(s, acts', DoTryClear(Hand));
  }

  lemma HandLoads(s: Sys, acts: seq<Act>) returns (acts': seq<Act>)
    requires CanRun(s, acts)
    requires var t := Ran(s, acts);
      t.handler.Running? && t.handler.hand.pc == Start && t.handler.hand.entry.ref in t.flags
    ensures CanRun(s, acts')
    ensures var (t, t') := (Ran(s, acts), Ran(s, acts'));
      && t'.handler == t.handler.(hand := t.handler.hand.(pc := Loaded(FlagsOf(t', t.handler.hand.entry.ref))))
      && !Busy(FlagsOf(t', t.handler.hand.entry.ref))
      && t'.listed == t.listed && t'.timer == t.timer && t'.flags.Keys == t.flags.Keys
  {
    acts' := HandLetGo(s, acts);
    acts' := OneMore(s, acts', DoLoad(Hand));
  }

  lemma HandLetGo(s: Sys, acts: seq<Act>) returns (acts': seq<Act>)
    requires CanRun(s, acts)
    requires var t := Ran(s, acts); t.handler.Running? && t.handler.hand.entry.ref in t.flags
    ensures CanRun(s, acts')
    ensures var (t, t') := (Ran(s, acts), Ran(s, acts'));
      && SameTimer(t, t') && t'.flags.Keys == t.flags.Keys && !Busy(t'.flags[t.handler.hand.entry.ref])
  {
    var r := Ran(s, acts).handler.hand.entry.ref;
    var f := Ran(s, acts).flags[r];
    acts' := OneMore(s, acts, Remote(r, f.(reading := false, writing := false)));
  }

  // .. and the handler frees it.
  lemma HandFrees(s: Sys, acts: seq<Act>) returns (acts': seq<Act>)
    requires CanRun(s, acts)
    requires var t := Ran(s, acts);
      t.handler.Running? && t.handler.hand.pc == Start && t.handler.hand.entry.ref in t.flags
    ensures CanRun(s, acts')
    ensures var (t, t') := (Ran(s, acts), Ran(s, acts'));
      && t'.handler == t.handler.(hand := t.handler.hand.(pc := Done))
      && t'.listed == t.listed && t'.timer == t.timer && t'.flags.Keys == t.flags.Keys
  {
    acts' := HandClears(s, acts);
    acts' := OneMore(s, acts', DoPutRef(Hand));
    acts' := OneMore(s, acts', DoFreePage(Hand));
  }

  // One entry is listed, and a second call has found its reference in use.
  ghost predicate OneAndOne(t: Sys)
  {
    && t.handler.Idle? && t.timer && |t.listed| == 1 && t.listed[0].ref in t.flags
    && |t.calls| == 1 && t.calls[0].pc == InUse && t.calls[0].entry.ref in t.flags
  }

  lemma OneListed() returns (acts: seq<Act>)
    ensures CanRun(Begun({8, 9}), acts)
    ensures var t := Ran(Begun({8, 9}), acts);
      t.handler.Idle? && t.timer && |t.listed| == 1 && t.listed[0].ref == 8
      && t.calls == [] && t.held == multiset{} && 9 in t.free && 8 in t.flags
  {
    acts := Mapped(Begun({8, 9}), [], 8);
    acts := FoundInUse(Begun({8, 9}), acts, 8);
    acts := OneMore(Begun({8, 9}), acts, DoDefer(0, true));
  }

  lemma OneListedOneFound() returns (acts: seq<Act>)
    ensures CanRun(Begun({8, 9}), acts) && OneAndOne(Ran(Begun({8, 9}), acts))
  {
    acts := OneListed();
    acts := Mapped(Begun({8, 9}), acts, 9);
    acts := FoundInUse(Begun({8, 9}), acts, 9);
  }

  // The handler has taken the first; the second is deferred meanwhile.
  lemma OneInHand() returns (acts: seq<Act>)
    ensures CanRun(Begun({8, 9}), acts)
    ensures var t := Ran(Begun({8, 9}), acts);
      && t.handler.Running? && t.handler.nr == 9 && t.handler.first == None && t.handler.hand.pc == Start
      && |t.listed| == 1 && t.timer && t.handler.hand.entry.ref in t.flags && t.listed[0].ref in t.flags
  {
    acts := OneListedOneFound();
    acts := OneMore(Begun({8, 9}), acts, DoFire);
    acts := OneMore(Begun({8, 9}), acts, DoDefer(0, true));
  }

  // An entry deferred while the handler has the lock dropped, and freed by that same run of it,
  // leaves the timer pending for nothing.
  lemma AstrayRun() returns (acts: seq<Act>)
    ensures CanRun(Begun({8, 9}), acts) && Ran(Begun({8, 9}), acts).handler.Astray?
  {
    var s := Begun({8, 9});
    acts := OneInHand();
    acts := HandFrees(s, acts);
    acts := OneMore(s, acts, DoHandNext);
    acts := HandFrees(s, acts);
    acts := OneMore(s, acts, DoHandNext);
    acts := OneMore(s, acts, DoFire);
  }
}
