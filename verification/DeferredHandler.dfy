/**
 What an attempt to end access answers, and what one run of the timer handler does when it is left to
 itself.
 */
module DeferredHandler {
  import opened Basics
  import opened DeferredFree
  import opened DeferredTimer

  /* ---- attempts ---- */

  // An attempt nobody interferes with clears the flags and frees reference and page, or, when the
  // remote domain is reading or writing, finds the page in use and changes nothing.
  lemma Attempt(s: Sys, acts: seq<Act>, slot: Slot) returns (acts': seq<Act>)
    requires CanRun(s, acts)
    requires var t := Ran(s, acts); HasWork(t, slot) && WorkOf(t, slot).pc == Start
    ensures CanRun(s, acts')
    ensures var t := Ran(s, acts); var e := WorkOf(t, slot).entry;
      Ran(s, acts') == if Busy(FlagsOf(t, e.ref)) then WithPc(t, slot, InUse) else Freed(t, slot, e)
  {
    var t := Ran(s, acts);
    var e := WorkOf(t, slot).entry;
    LoadThenTry(t, slot, e);
    acts' := OneMore(s, acts, DoLoad(slot));
    acts' := OneMore(s, acts', DoTryClear(slot));
    if !Busy(FlagsOf(t, e.ref)) {
      FreedIs(t, slot, e);
      acts' := OneMore(s, acts', DoPutRef(slot));
      acts' := OneMore(s, acts', DoFreePage(slot));
    }
  }

  lemma LoadThenTry(t: Sys, slot: Slot, e: Entry)
    requires HasWork(t, slot) && WorkOf(t, slot).entry == e
    ensures var loaded := Load(t, slot);
      && HasWork(loaded, slot) && WorkOf(loaded, slot).pc.Loaded?
      && (Busy(FlagsOf(t, e.ref)) ==> TryClear(loaded, slot) == WithPc(t, slot, InUse))
      && (!Busy(FlagsOf(t, e.ref)) ==>
            HasWork(TryClear(loaded, slot), slot) && WorkOf(TryClear(loaded, slot), slot).pc == Cleared)
  {
    PcTwice(t, slot, Loaded(FlagsOf(t, e.ref)), InUse);
  }

  function Freed(t: Sys, slot: Slot, e: Entry): Sys
    requires HasWork(t, slot)
  {
    WithPc(t, slot, Done).(flags := t.flags[e.ref := ZERO], cleared := t.cleared + [Clearing(e, FlagsOf(t, e.ref))],
                           free := t.free + multiset{e.ref}, freed := t.freed + [e], ended := t.ended + [e])
  }

  lemma PcTwice(s: Sys, slot: Slot, a: Pc, b: Pc)
    requires HasWork(s, slot)
    ensures HasWork(WithPc(s, slot, a), slot) && WorkOf(WithPc(s, slot, a), slot).pc == a
    ensures WorkOf(WithPc(s, slot, a), slot).entry == WorkOf(s, slot).entry
    ensures WithPc(WithPc(s, slot, a), slot, b) == WithPc(s, slot, b)
  {
    if slot.Call? { assert s.calls[slot.i := s.calls[slot.i].(pc := a)][slot.i := s.calls[slot.i].(pc := b)]
                        == s.calls[slot.i := s.calls[slot.i].(pc := b)]; }
  }

  lemma FreedIs(t: Sys, slot: Slot, e: Entry)
    requires HasWork(t, slot) && WorkOf(t, slot).entry == e && !Busy(FlagsOf(t, e.ref))
    ensures var loaded := Load(t, slot);
      && HasWork(loaded, slot) && WorkOf(loaded, slot).pc.Loaded?
      && HasWork(TryClear(loaded, slot), slot) && HasWork(PutRef(TryClear(loaded, slot), slot), slot)
      && WorkOf(PutRef(TryClear(loaded, slot), slot), slot).pc == RefFreed
      && FreePage(PutRef(TryClear(loaded, slot), slot), slot) == Freed(t, slot, e)
  {
  }

  /* ---- one run of the handler ---- */

  function InUseOf(s: Sys, es: seq<Entry>): seq<Entry>
  {
    if es == [] then []
    else (if Busy(FlagsOf(s, es[0].ref)) then [es[0]] else []) + InUseOf(s, es[1..])
  }

  function NotInUse(s: Sys, es: seq<Entry>): seq<Entry>
  {
    if es == [] then []
    else (if Busy(FlagsOf(s, es[0].ref)) then [] else [es[0]]) + NotInUse(s, es[1..])
  }

  predicate DistinctIds(es: seq<Entry>) { forall i, j :: 0 <= i < j < |es| ==> es[i].id != es[j].id }

  // The handler has taken todo[0], with `tried` found in use before it; the rest is listed.
  ghost predicate AtWork(t: Sys, nr: nat, todo: seq<Entry>, tried: seq<Entry>)
  {
    && todo != [] && DistinctIds(tried + todo) && !t.timer && t.listed == todo[1..] + tried
    && t.handler == Running(nr, if tried == [] then None else Some(tried[0].id), Work(todo[0], Start), false)
  }

  // After n entries of todo: those in use are at the rear of the list, the others are freed, in order,
  // and the timer is set again if and only if something is listed.
  ghost predicate Through(t: Sys, todo: seq<Entry>, tried: seq<Entry>, n: nat, u: Sys)
  {
    && n <= |todo| && u.handler == Idle && u.listed == todo[n..] + tried + InUseOf(t, todo[..n])
    && u.freed == t.freed + NotInUse(t, todo[..n]) && (u.timer <==> u.listed != [])
  }

  // The same references are in use.
  predicate SameUse(t: Sys, u: Sys, es: seq<Entry>)
  {
    forall i :: 0 <= i < |es| ==> (Busy(FlagsOf(u, es[i].ref)) <==> Busy(FlagsOf(t, es[i].ref)))
  }

  lemma {:induction false} SameUseSame(t: Sys, u: Sys, es: seq<Entry>)
    requires SameUse(t, u, es)
    ensures InUseOf(u, es) == InUseOf(t, es) && NotInUse(u, es) == NotInUse(t, es)
  {
    if es != [] {
      assert Busy(FlagsOf(u, es[0].ref)) <==> Busy(FlagsOf(t, es[0].ref));
      assert SameUse(t, u, es[1..]) by {
        forall i | 0 <= i < |es[1..]|
          ensures Busy(FlagsOf(u, es[1..][i].ref)) <==> Busy(FlagsOf(t, es[1..][i].ref))
        {
          assert es[1..][i] == es[i + 1];
        }
      }
      SameUseSame(t, u, es[1..]);
    }
  }

  // todo[0] is dealt with and the handler is back under the lock: it ends, or is at work on the next.
  lemma ServedInUse(t: Sys, nr: nat, todo: seq<Entry>, tried: seq<Entry>, u: Sys)
    requires AtWork(t, nr, todo, tried) && u == HandNext(WithPc(t, Hand, InUse))
    ensures nr == 0 || |todo| == 1 ==>
              u.handler == Idle && u.listed == todo[1..] + (tried + [todo[0]]) && u.timer && u.freed == t.freed
    ensures nr > 0 && |todo| > 1 ==>
              AtWork(u, nr - 1, todo[1..], tried + [todo[0]]) && u.flags == t.flags && u.freed == t.freed
  {
    var tried' := tried + [todo[0]];
    assert (todo[1..] + tried) + [todo[0]] == todo[1..] + tried';
    if |todo| > 1 {
      NextDistinct(tried, todo);
      assert (todo[1..] + tried')[0] == todo[1] && (todo[1..] + tried')[1..] == todo[1..][1..] + tried';
      assert (tried + todo)[0] != (tried + todo)[|tried| + 1];
    }
  }

  lemma ServedFreed(t: Sys, nr: nat, todo: seq<Entry>, tried: seq<Entry>, u: Sys)
    requires AtWork(t, nr, todo, tried) && u == HandNext(Freed(t, Hand, todo[0]))
    ensures nr == 0 || |todo| == 1 ==>
              u.handler == Idle && u.listed == todo[1..] + tried && u.freed == t.freed + [todo[0]]
              && (u.timer <==> u.listed != [])
    ensures nr > 0 && |todo| > 1 ==>
              AtWork(u, nr - 1, todo[1..], tried) && u.flags == t.flags[todo[0].ref := ZERO]
              && u.freed == t.freed + [todo[0]]
  {
    if |todo| > 1 {
      FewerDistinct(tried, todo);
      assert (todo[1..] + tried)[0] == todo[1] && (todo[1..] + tried)[1..] == todo[1..][1..] + tried;
      if tried != [] { assert (tried + todo)[0] != (tried + todo)[|tried| + 1]; }
    } else {
      assert todo[1..] + tried == tried;
      if tried != [] { assert tried[0] == (todo[1..] + tried)[0]; }
    }
  }

  lemma NextDistinct(tried: seq<Entry>, todo: seq<Entry>)
    requires todo != [] && DistinctIds(tried + todo)
    ensures DistinctIds((tried + [todo[0]]) + todo[1..])
  {
    assert (tried + [todo[0]]) + todo[1..] == tried + todo;
  }

  lemma FewerDistinct(tried: seq<Entry>, todo: seq<Entry>)
    requires todo != [] && DistinctIds(tried + todo)
    ensures DistinctIds(tried + todo[1..])
  {
    forall i, j | 0 <= i < j < |tried + todo[1..]|
      ensures (tried + todo[1..])[i].id != (tried + todo[1..])[j].id
    {
      var k, l := if i < |tried| then i else i + 1, if j < |tried| then j else j + 1;
      assert (tried + todo)[k] == (tried + todo[1..])[i] && (tried + todo)[l] == (tried + todo[1..])[j];
    }
  }

  // What is tried after todo[0].
  function Tried(todo: seq<Entry>, tried: seq<Entry>, busy: bool): seq<Entry>
    requires todo != []
  {
    if busy then tried + [todo[0]] else tried
  }

  ghost predicate Served(t: Sys, nr: nat, todo: seq<Entry>, tried: seq<Entry>, busy: bool, u: Sys)
    requires todo != []
  {
    && u.freed == t.freed + (if busy then [] else [todo[0]])
    && if nr > 0 && |todo| > 1 then
         AtWork(u, nr - 1, todo[1..], Tried(todo, tried, busy))
         && u.flags == if busy then t.flags else t.flags[todo[0].ref := ZERO]
       else
         u.handler == Idle && u.listed == todo[1..] + Tried(todo, tried, busy) && (u.timer <==> u.listed != [])
  }

  lemma ServeOne(s: Sys, acts: seq<Act>, nr: nat, todo: seq<Entry>, tried: seq<Entry>) returns (acts': seq<Act>)
    requires CanRun(s, acts) && AtWork(Ran(s, acts), nr, todo, tried)
    ensures CanRun(s, acts')
    ensures Served(Ran(s, acts), nr, todo, tried, Busy(FlagsOf(Ran(s, acts), todo[0].ref)), Ran(s, acts'))
  {
    var t := Ran(s, acts);
    acts' := Attempt(s, acts, Hand);
    acts' := OneMore(s, acts', DoHandNext);
    var u := Ran(s, acts');
    if Busy(FlagsOf(t, todo[0].ref)) {
      ServedInUse(t, nr, todo, tried, u);
      assert t.freed + [] == t.freed;
    } else {
      ServedFreed(t, nr, todo, tried, u);
    }
  }

  lemma {:induction false} FromWork(s: Sys, acts: seq<Act>, nr: nat, todo: seq<Entry>, tried: seq<Entry>)
    returns (acts': seq<Act>)
    requires CanRun(s, acts) && AtWork(Ran(s, acts), nr, todo, tried)
    ensures CanRun(s, acts')
    ensures Through(Ran(s, acts), todo, tried, Min(nr + 1, |todo|), Ran(s, acts'))
    decreases nr
  {
    var t := Ran(s, acts);
    var busy := Busy(FlagsOf(t, todo[0].ref));
    acts' := ServeOne(s, acts, nr, todo, tried);
    var u := Ran(s, acts');
    if nr > 0 && |todo| > 1 {
      acts' := FromWork(s, acts', nr - 1, todo[1..], Tried(todo, tried, busy));
      ServedOn(t, u, nr, todo, tried, Ran(s, acts'), busy);
    } else {
      ServedLast(t, u, nr, todo, tried, busy);
    }
  }

  lemma ServedOn(t: Sys, u: Sys, nr: nat, todo: seq<Entry>, tried: seq<Entry>, v: Sys, busy: bool)
    requires nr > 0 && |todo| > 1 && busy == Busy(FlagsOf(t, todo[0].ref)) && Served(t, nr, todo, tried, busy, u)
    requires Through(u, todo[1..], Tried(todo, tried, busy), Min(nr, |todo[1..]|), v)
    ensures Through(t, todo, tried, Min(nr + 1, |todo|), v)
  {
    Onwards(t, u, todo, tried, Min(nr, |todo| - 1), v, busy);
  }

  lemma ServedLast(t: Sys, u: Sys, nr: nat, todo: seq<Entry>, tried: seq<Entry>, busy: bool)
    requires todo != [] && (nr == 0 || |todo| == 1)
    requires busy == Busy(FlagsOf(t, todo[0].ref)) && Served(t, nr, todo, tried, busy, u)
    ensures Through(t, todo, tried, Min(nr + 1, |todo|), u)
  {
    LastOne(t, u, todo, tried, busy);
  }

  lemma LastOne(t: Sys, u: Sys, todo: seq<Entry>, tried: seq<Entry>, busy: bool)
    requires todo != [] && busy == Busy(FlagsOf(t, todo[0].ref)) && u.handler == Idle && (u.timer <==> u.listed != [])
    requires u.listed == todo[1..] + if busy then tried + [todo[0]] else tried
    requires u.freed == t.freed + if busy then [] else [todo[0]]
    ensures Through(t, todo, tried, 1, u)
  {
    assert todo[..1] == [todo[0]] && todo[..1][1..] == [];
    assert InUseOf(t, todo[..1]) == (if busy then [todo[0]] else []) + InUseOf(t, []);
    assert NotInUse(t, todo[..1]) == (if busy then [] else [todo[0]]) + NotInUse(t, []);
  }

  lemma Onwards(t: Sys, u: Sys, todo: seq<Entry>, tried: seq<Entry>, n: nat, v: Sys, busy: bool)
    requires todo != [] && n <= |todo[1..]| && busy == Busy(FlagsOf(t, todo[0].ref))
    requires u.flags == if busy then t.flags else t.flags[todo[0].ref := ZERO]
    requires u.freed == t.freed + if busy then [] else [todo[0]]
    requires Through(u, todo[1..], Tried(todo, tried, busy), n, v)
    ensures Through(t, todo, tried, n + 1, v)
  {
    var front, left := todo[1..][..n], todo[1..][n..];
    FrontAndLeft(todo, n);
    assert SameUse(t, u, front);
    SameUseSame(t, u, front);
    FrontUse(t, todo[0], front, busy);
    ListedJoin(left, tried, todo[0], InUseOf(t, front), busy);
    FreedJoin(t.freed, todo[0], NotInUse(t, front), busy);
  }

  lemma FrontAndLeft(todo: seq<Entry>, n: nat)
    requires todo != [] && n <= |todo[1..]|
    ensures todo[..n + 1] == [todo[0]] + todo[1..][..n] && todo[n + 1..] == todo[1..][n..]
  {
  }

  lemma FrontUse(t: Sys, e: Entry, front: seq<Entry>, busy: bool)
    requires busy == Busy(FlagsOf(t, e.ref))
    ensures InUseOf(t, [e] + front) == (if busy then [e] else []) + InUseOf(t, front)
    ensures NotInUse(t, [e] + front) == (if busy then [] else [e]) + NotInUse(t, front)
  {
    assert ([e] + front)[1..] == front;
  }

  lemma ListedJoin(left: seq<Entry>, tried: seq<Entry>, e: Entry, more: seq<Entry>, busy: bool)
    ensures left + (if busy then tried + [e] else tried) + more == left + tried + ((if busy then [e] else []) + more)
  {
  }

  lemma FreedJoin(freed: seq<Entry>, e: Entry, more: seq<Entry>, busy: bool)
    ensures (freed + if busy then [] else [e]) + more == freed + ((if busy then [] else [e]) + more)
  {
  }

  // Left to itself, a run of the handler tries the first ten entries, or all there are: it frees those
  // no longer in use, puts the others back in order behind the rest, and sets the timer again if and
  // only if something is listed.
  lemma HandlerRun(s: Sys, acts: seq<Act>) returns (acts': seq<Act>)
    requires CanRun(s, acts)
    requires var t := Ran(s, acts); t.handler.Idle? && t.timer && t.listed != [] && DistinctIds(t.listed)
    ensures CanRun(s, acts')
    ensures var t := Ran(s, acts); Through(t, t.listed, [], Min(10, |t.listed|), Ran(s, acts'))
  {
    var t := Ran(s, acts);
    acts' := OneMore(s, acts, DoFire);
    var u := Ran(s, acts');
    Fired(t, u);
    acts' := FromWork(s, acts', 9, t.listed, []);
    SameUseSame(t, u, t.listed[..Min(10, |t.listed|)]);
  }

  lemma Fired(t: Sys, u: Sys)
    requires t.handler.Idle? && t.timer && t.listed != [] && DistinctIds(t.listed) && u == Fire(t)
    ensures AtWork(u, 9, t.listed, []) && u.flags == t.flags && u.freed == t.freed
  {
    assert [] + t.listed == t.listed && t.listed[1..] + [] == t.listed[1..];
  }

  /* ---- giving up ---- */

  // A flag word a reference had at some point of a run.
  predicate Had(s: Sys, acts: seq<Act>, ref: nat, f: Flags)
    requires CanRun(s, acts)
    decreases |acts|
  {
    FlagsOf(s, ref) == f || (acts != [] && Had(Next(s, acts[0]), acts[1..], ref, f))
  }

  // What an attempt has seen it has not made up; it gives up over a word with reading or writing set.
  ghost predicate Explained(w: Work, seen: iset<(nat, Flags)>)
  {
    && (w.pc.Loaded? ==> (w.entry.ref, w.pc.nflags) in seen)
    && (w.pc.InUse? ==> exists f :: Busy(f) && (w.entry.ref, f) in seen)
  }

  ghost predicate AllExplained(s: Sys, seen: iset<(nat, Flags)>)
  {
    forall slot :: HasWork(s, slot) ==> Explained(WorkOf(s, slot), seen)
  }

  ghost function Shown(s: Sys): iset<(nat, Flags)> { iset r: nat | true :: (r, FlagsOf(s, r)) }

  lemma StepExplained(s: Sys, a: Act, seen: iset<(nat, Flags)>)
    requires Enabled(s, a) && AllExplained(s, seen)
    ensures AllExplained(Next(s, a), seen + Shown(s))
  {
    forall slot | HasWork(Next(s, a), slot)
      ensures Explained(WorkOf(Next(s, a), slot), seen + Shown(s))
    {
      SlotExplained(s, a, seen, slot);
    }
  }

  lemma SlotExplained(s: Sys, a: Act, seen: iset<(nat, Flags)>, slot: Slot)
    requires Enabled(s, a) && AllExplained(s, seen) && HasWork(Next(s, a), slot)
    ensures Explained(WorkOf(Next(s, a), slot), seen + Shown(s))
  {
    var w := WorkOf(Next(s, a), slot);
    assert (w.entry.ref, FlagsOf(s, w.entry.ref)) in Shown(s);
    if HasWork(s, slot) { assert Explained(WorkOf(s, slot), seen); }
    if a.DoDefer? {
      ShiftExplained(s, a.i, seen, slot, Next(s, a));
    } else if a.Return? {
      ShiftExplained(s, a.i, seen, slot, Next(s, a));
    } else if a.DoFire? || a.DoHandNext? {
      TurnExplained(s, a, seen, slot);
    } else {
      PlainExplained(s, a, seen, slot);
    }
  }

  // A call has left, and those behind it have moved up.
  lemma ShiftExplained(s: Sys, i: nat, seen: iset<(nat, Flags)>, slot: Slot, s': Sys)
    requires AllExplained(s, seen) && i < |s.calls| && HasWork(s', slot)
    requires s'.calls == WithoutCall(s, i).calls
    requires s'.handler.Running? ==> s.handler.Running? && s'.handler.hand == s.handler.hand
    ensures Explained(WorkOf(s', slot), seen)
  {
    if slot.Hand? {
      assert Explained(WorkOf(s, Hand), seen);
    } else if slot.i < i {
      assert Explained(WorkOf(s, slot), seen);
    } else {
      assert Explained(WorkOf(s, Call(slot.i + 1)), seen);
    }
  }

  // The handler starts on an entry, or ends.
  lemma TurnExplained(s: Sys, a: Act, seen: iset<(nat, Flags)>, slot: Slot)
    requires Enabled(s, a) && (a.DoFire? || a.DoHandNext?) && AllExplained(s, seen) && HasWork(Next(s, a), slot)
    ensures Explained(WorkOf(Next(s, a), slot), seen)
  {
    if slot.Call? { assert Explained(WorkOf(s, slot), seen); }
  }

  // What a step may make of an attempt, whose reference has flags `now`.
  predicate Became(w: Work, w': Work, now: Flags)
  {
    && w'.entry == w.entry
    && (w'.pc == w.pc || w'.pc == Loaded(now) || (w.pc.Loaded? && Busy(w.pc.nflags) && w'.pc == InUse)
        || !(w'.pc.Loaded? || w'.pc.InUse?))
  }

  lemma StillExplained(w: Work, w': Work, now: Flags, seen: iset<(nat, Flags)>)
    requires Explained(w, seen) && (w.entry.ref, now) in seen && Became(w, w', now)
    ensures Explained(w', seen)
  {
  }

  lemma AttemptStep(s: Sys, a: Act, slot: Slot)
    requires Enabled(s, a) && !a.DoDefer? && !a.Return? && !a.DoFire? && !a.DoHandNext?
    requires HasWork(Next(s, a), slot)
    ensures HasWork(s, slot) ==>
              Became(WorkOf(s, slot), WorkOf(Next(s, a), slot), FlagsOf(s, WorkOf(s, slot).entry.ref))
    ensures !HasWork(s, slot) ==> WorkOf(Next(s, a), slot).pc == Start
  {
    if a.DoLoad? || a.DoTryClear? || a.DoPutRef? || a.DoFreePage? { MoveStep(s, a, slot); }
  }

  lemma PcOf(s: Sys, at: Slot, pc: Pc, slot: Slot)
    requires HasWork(s, at)
    ensures HasWork(WithPc(s, at, pc), slot) <==> HasWork(s, slot)
    ensures HasWork(s, slot) ==>
              WorkOf(WithPc(s, at, pc), slot) == if slot == at then WorkOf(s, slot).(pc := pc) else WorkOf(s, slot)
  {
  }

  lemma MoveStep(s: Sys, a: Act, slot: Slot)
    requires Enabled(s, a) && (a.DoLoad? || a.DoTryClear? || a.DoPutRef? || a.DoFreePage?)
    requires HasWork(Next(s, a), slot)
    ensures HasWork(s, slot)
    ensures Became(WorkOf(s, slot), WorkOf(Next(s, a), slot), FlagsOf(s, WorkOf(s, slot).entry.ref))
  {
    var pc := MovePc(s, a);
    MoveIs(s, a, slot);
    PcOf(s, a.slot, pc, slot);
  }

  function MovePc(s: Sys, a: Act): Pc
    requires Enabled(s, a) && (a.DoLoad? || a.DoTryClear? || a.DoPutRef? || a.DoFreePage?)
  {
    var w := WorkOf(s, a.slot);
    match a
    case DoLoad(_) => Loaded(FlagsOf(s, w.entry.ref))
    case DoPutRef(_) => RefFreed
    case DoFreePage(_) => Done
    case DoTryClear(_) =>
      if Busy(w.pc.nflags) then InUse
      else if FlagsOf(s, w.entry.ref) == w.pc.nflags then Cleared else Loaded(FlagsOf(s, w.entry.ref))
  }

  lemma MoveIs(s: Sys, a: Act, slot: Slot)
    requires Enabled(s, a) && (a.DoLoad? || a.DoTryClear? || a.DoPutRef? || a.DoFreePage?)
    ensures var s1 := WithPc(s, a.slot, MovePc(s, a)); Next(s, a).calls == s1.calls && Next(s, a).handler == s1.handler
  {
  }

  lemma PlainExplained(s: Sys, a: Act, seen: iset<(nat, Flags)>, slot: Slot)
    requires Enabled(s, a) && !a.DoDefer? && !a.Return? && !a.DoFire? && !a.DoHandNext?
    requires HasWork(Next(s, a), slot) && (HasWork(s, slot) ==> Explained(WorkOf(s, slot), seen))
    requires (WorkOf(Next(s, a), slot).entry.ref, FlagsOf(s, WorkOf(Next(s, a), slot).entry.ref)) in Shown(s)
    ensures Explained(WorkOf(Next(s, a), slot), seen + Shown(s))
  {
    AttemptStep(s, a, slot);
    if HasWork(s, slot) {
      var w := WorkOf(s, slot);
      StillExplained(w, WorkOf(Next(s, a), slot), FlagsOf(s, w.entry.ref), seen + Shown(s));
    }
  }

  lemma {:induction false} RunExplained(s: Sys, acts: seq<Act>, seen: iset<(nat, Flags)>)
    requires CanRun(s, acts) && AllExplained(s, seen)
    ensures AllExplained(Ran(s, acts), seen + iset r: nat, f | Had(s, acts, r, f) :: (r, f))
    decreases |acts|
  {
    if acts != [] {
      StepExplained(s, acts[0], seen);
      RunExplained(Next(s, acts[0]), acts[1..], seen + Shown(s));
    }
  }

  // An attempt ends in use only if the remote domain was reading or writing at some point of the run.
  lemma InUseWasBusy(refs: set<nat>, acts: seq<Act>, slot: Slot)
    requires CanRun(Begun(refs), acts)
    requires HasWork(Ran(Begun(refs), acts), slot) && WorkOf(Ran(Begun(refs), acts), slot).pc.InUse?
    ensures exists f :: Busy(f) && Had(Begun(refs), acts, WorkOf(Ran(Begun(refs), acts), slot).entry.ref, f)
  {
    RunExplained(Begun(refs), acts, iset{});
    assert Explained(WorkOf(Ran(Begun(refs), acts), slot),
                     iset{} + iset r: nat, f | Had(Begun(refs), acts, r, f) :: (r, f));
  }

  // A deferred entry queues up behind the others with its reference and page, and the timer is set.
  lemma DeferQueues(s: Sys, i: nat)
    requires Enabled(s, DoDefer(i, true))
    ensures var s' := Next(s, DoDefer(i, true));
      s'.listed == s.listed + [s.calls[i].entry] && s'.timer && s'.leaked == s.leaked && |s'.calls| == |s.calls| - 1
  {
  }

  function NoMemories(acts: seq<Act>): nat
  {
    if acts == [] then 0 else (if acts[0].DoDefer? && !acts[0].memory then 1 else 0) + NoMemories(acts[1..])
  }

  // A reference is leaked exactly where there is no memory to defer it.
  lemma {:induction false} LeaksCounted(s: Sys, acts: seq<Act>)
    requires CanRun(s, acts)
    ensures |Ran(s, acts).leaked| == |s.leaked| + NoMemories(acts)
    decreases |acts|
  {
    if acts != [] { LeaksCounted(Next(s, acts[0]), acts[1..]); }
  }
}
