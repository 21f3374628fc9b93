/**
 Ending foreign access in gnttab.c while the remote domain may still be using the page: the
 compare-and-swap loop, the list of deferred entries and the timer that drains it, as steps
 that interleave freely. The list lock makes each of its sections one step.
 */
module DeferredFree {
  import opened Basics

  // The grant entry's flag word, bit by bit.
  datatype Flags = Flags(permit: bool, readonly: bool, reading: bool, writing: bool)

  const ZERO := Flags(false, false, false, false)

  predicate Busy(f: Flags) { f.reading || f.writing }

  // One call of gnttab_end_foreign_access, and the deferred_entry it may leave; page 0 is none.
  datatype Entry = Entry(id: nat, ref: nat, page: nat)

  // Where an attempt to end access stands.
  datatype Pc = Start | Loaded(nflags: Flags) | InUse | Cleared | RefFreed | Done

  datatype Work = Work(entry: Entry, pc: Pc)

  // The timer handler holds one entry while the lock is dropped. `added` records whether an
  // entry was deferred since it started; Astray: it took the first entry of an empty list.
  datatype Handler = Idle | Running(nr: nat, first: Option<nat>, hand: Work, added: bool) | Astray

  datatype Clearing = Clearing(entry: Entry, before: Flags)

  datatype Sys = Sys(
    flags: map<nat, Flags>,      // shared[ref].flags
    free: multiset<nat>,         // references on the free list
    held: multiset<nat>,         // references a driver has, granted to the remote domain
    calls: seq<Work>,            // calls of gnttab_end_foreign_access in progress
    listed: seq<Entry>,          // deferred_list
    handler: Handler,
    timer: bool,                 // timer_pending
    leaked: seq<Entry>,          // no memory for a deferred_entry
    begun: seq<Entry>,           // history: every call, in order
    cleared: seq<Clearing>,      // history: flag words set to 0, and their value before
    freed: seq<Entry>,           // history: references given to put_free_entry
    ended: seq<Entry>            // history: pages freed, where there was one
  )

  function FlagsOf(s: Sys, ref: nat): Flags { if ref in s.flags then s.flags[ref] else ZERO }

  /* ---- attempts, by a caller or by the handler ---- */

  datatype Slot = Call(i: nat) | Hand

  predicate HasWork(s: Sys, slot: Slot)
  {
    match slot
    case Call(i) => i < |s.calls|
    case Hand => s.handler.Running?
  }

  function WorkOf(s: Sys, slot: Slot): Work
    requires HasWork(s, slot)
  {
    match slot
    case Call(i) => s.calls[i]
    case Hand => s.handler.hand
  }

  function WithPc(s: Sys, slot: Slot, pc: Pc): Sys
    requires HasWork(s, slot)
  {
    match slot
    case Call(i) => s.(calls := s.calls[i := s.calls[i].(pc := pc)])
    case Hand => s.(handler := s.handler.(hand := s.handler.hand.(pc := pc)))
  }

  // nflags = shared[ref].flags
  function Load(s: Sys, slot: Slot): Sys
    requires HasWork(s, slot)
  {
    WithPc(s, slot, Loaded(FlagsOf(s, WorkOf(s, slot).entry.ref)))
  }

  // One round of the loop: the test, and the compare-and-swap.
  function TryClear(s: Sys, slot: Slot): Sys
    requires HasWork(s, slot) && WorkOf(s, slot).pc.Loaded?
  {
    var (entry, n) := (WorkOf(s, slot).entry, WorkOf(s, slot).pc.nflags);
    if Busy(n) then WithPc(s, slot, InUse)
    else if FlagsOf(s, entry.ref) == n then
      WithPc(s, slot, Cleared).(flags := s.flags[entry.ref := ZERO], cleared := s.cleared + [Clearing(entry, n)])
    else WithPc(s, slot, Loaded(FlagsOf(s, entry.ref)))
  }

  // put_free_entry
  function PutRef(s: Sys, slot: Slot): Sys
    requires HasWork(s, slot)
  {
    var e := WorkOf(s, slot).entry;
    WithPc(s, slot, RefFreed).(free := s.free + multiset{e.ref}, freed := s.freed + [e])
  }

  function FreePage(s: Sys, slot: Slot): Sys
    requires HasWork(s, slot)
  {
    WithPc(s, slot, Done).(ended := s.ended + [WorkOf(s, slot).entry])
  }

  /* ---- the list and the timer ---- */

  function WithoutCall(s: Sys, i: nat): Sys
    requires i < |s.calls|
  {
    s.(calls := s.calls[..i] + s.calls[i + 1..])
  }

  // gnttab_add_deferred, when kmalloc succeeds and when it fails.
  function Defer(s: Sys, i: nat, memory: bool): Sys
    requires i < |s.calls|
  {
    var e := s.calls[i].entry;
    if memory then
      WithoutCall(s, i).(listed := s.listed + [e], timer := true,
                         handler := if s.handler.Running? then s.handler.(added := true) else s.handler)
    else WithoutCall(s, i).(leaked := s.leaked + [e])
  }

  // The end of gnttab_handle_deferred.
  function Rest(s: Sys): Sys { s.(handler := Idle, timer := s.timer || s.listed != []) }

  // The top of its loop, with the lock held.
  function LoopTop(s: Sys, nr: nat, first: Option<nat>, added: bool): Sys
  {
    if nr == 0 then Rest(s)
    else if s.listed == [] then s.(handler := Astray)
    else if first == Some(s.listed[0].id) then Rest(s)
    else s.(listed := s.listed[1..], handler := Running(nr - 1, first, Work(s.listed[0], Start), added))
  }

  function Fire(s: Sys): Sys { LoopTop(s.(timer := false), 10, None, false) }

  // Back under the lock with an entry still in use, or none.
  function HandNext(s: Sys): Sys
    requires s.handler.Running?
  {
    var h := s.handler;
    if h.hand.pc == InUse then
      LoopTop(s.(listed := s.listed + [h.hand.entry]), h.nr,
              if h.first == None then Some(h.hand.entry.id) else h.first, h.added)
    else if s.listed == [] then Rest(s)
    else LoopTop(s, h.nr, h.first, h.added)
  }

  /* ---- steps ---- */

  // The remote domain takes a mapping only while access is permitted, and writes only where it may.
  predicate RemoteMay(f: Flags, f': Flags)
  {
    && f'.permit == f.permit && f'.readonly == f.readonly
    && (f'.reading && !f.reading ==> f.permit)
    && (f'.writing && !f.writing ==> f.permit && !f.readonly)
  }

  datatype Act =
    | Grant(ref: nat, readonly: bool)      // a free reference is taken and granted
    | Remote(ref: nat, f: Flags)           // the remote domain maps or unmaps
    | Begin(ref: nat, page: nat)           // gnttab_end_foreign_access is called
    | DoLoad(slot: Slot) | DoTryClear(slot: Slot) | DoPutRef(slot: Slot) | DoFreePage(slot: Slot)
    | DoDefer(i: nat, memory: bool)
    | Return(i: nat)
    | DoFire
    | DoHandNext

  predicate Enabled(s: Sys, a: Act)
  {
    match a
    case Grant(ref, _) => ref in s.free
    case Remote(ref, f) => ref in s.flags && RemoteMay(s.flags[ref], f)
    case Begin(ref, _) => ref in s.held
    case DoLoad(slot) => HasWork(s, slot) && WorkOf(s, slot).pc == Start
    case DoTryClear(slot) => HasWork(s, slot) && WorkOf(s, slot).pc.Loaded?
    case DoPutRef(slot) => HasWork(s, slot) && WorkOf(s, slot).pc == Cleared
    case DoFreePage(slot) => HasWork(s, slot) && WorkOf(s, slot).pc == RefFreed
    case DoDefer(i, _) => i < |s.calls| && s.calls[i].pc == InUse
    case Return(i) => i < |s.calls| && s.calls[i].pc == Done
    case DoFire => s.timer && s.handler.Idle?
    case DoHandNext => s.handler.Running? && (s.handler.hand.pc == InUse || s.handler.hand.pc == Done)
  }

  function Next(s: Sys, a: Act): Sys
    requires Enabled(s, a)
  {
    match a
    case Grant(ref, readonly) =>
      s.(free := s.free - multiset{ref}, held := s.held + multiset{ref},
         flags := s.flags[ref := Flags(true, readonly, false, false)])
    case Remote(ref, f) => s.(flags := s.flags[ref := f])
    case Begin(ref, page) =>
      var e := Entry(|s.begun|, ref, page);
      s.(held := s.held - multiset{ref}, calls := s.calls + [Work(e, Start)], begun := s.begun + [e])
    case DoLoad(slot) => Load(s, slot)
    case DoTryClear(slot) => TryClear(s, slot)
    case DoPutRef(slot) => PutRef(s, slot)
    case DoFreePage(slot) => FreePage(s, slot)
    case DoDefer(i, memory) => Defer(s, i, memory)
    case Return(i) => WithoutCall(s, i)
    case DoFire => Fire(s)
    case DoHandNext => HandNext(s)
  }

  // A free list of references below `refs`, none granted.
  function Begun(refs: set<nat>): Sys
  {
    Sys(map r | r in refs :: ZERO, multiset(refs), multiset{}, [], [], Idle, false, [], [], [], [], [])
  }

  predicate CanRun(s: Sys, acts: seq<Act>)
    decreases |acts|
  {
    acts == [] || (Enabled(s, acts[0]) && CanRun(Next(s, acts[0]), acts[1..]))
  }

  // Where the steps lead.
  function Ran(s: Sys, acts: seq<Act>): Sys
    requires CanRun(s, acts)
    decreases |acts|
  {
    if acts == [] then s else Ran(Next(s, acts[0]), acts[1..])
  }
}
