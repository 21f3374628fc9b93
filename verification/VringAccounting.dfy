/** Indices, avail slots and tokens: what the counters of the virtqueue are worth. */
module VringAccounting {
  import opened Words
  import opened Basics
  import opened Vring
  import opened VringInvariant
  import opened VringSteps
  import opened VringTheorems

  /* ---- the index distance counts the buffers in flight ---- */

  function TokenCount(data: seq<nat>): nat
  {
    if data == [] then 0
    else TokenCount(data[..|data| - 1]) + (if data[|data| - 1] != 0 then 1 else 0)
  }

  lemma {:induction false} TokenCountIsHeads(r: Ring, g: Shape, n: nat)
    requires TokensOk(r, g) && n <= |r.data|
    ensures TokenCount(r.data[..n]) == |set h | h in g.chains && h < n|
  {
    if n == 0 {
      assert (set h | h in g.chains && h < 0) == {};
    } else {
      TokenCountIsHeads(r, g, n - 1);
      assert r.data[..n][..n - 1] == r.data[..n - 1];
      var below := set h | h in g.chains && h < n - 1;
      assert (set h | h in g.chains && h < n) == if n - 1 in g.chains then below + {n - 1} else below;
    }
  }

  lemma TokenCountIsInFlight(r: Ring, g: Shape)
    requires Inv(r, g)
    ensures TokenCount(r.data) == |g.chains|
  {
    TokenCountIsHeads(r, g, |r.data|);
    assert r.data[..|r.data|] == r.data;
    forall h | h in g.chains
      ensures h < r.Num()
    {
      assert ChainOk(r, g, h);
    }
    assert (set h | h in g.chains && h < |r.data|) == g.chains.Keys;
  }

  lemma WindowDistance(r: Ring, g: Shape)
    requires |r.avail| > 0 && WindowOk(r, g) && |g.chains| < TWO_16
    ensures Wrap16(r.availIdx - r.lastUsedIdx) == |g.chains|
  {
    WrapDifference(|g.log|, |g.log| - |g.chains|);
  }

  // However often avail->idx and last_used_idx have wrapped.
  lemma IndexDistance(r: Ring, g: Shape)
    requires Inv(r, g)
    ensures Wrap16(r.availIdx - r.lastUsedIdx) == TokenCount(r.data) == |g.chains| <= r.Num()
  {
    InFlightBound(r, g);
    TokenCountIsInFlight(r, g);
    WindowDistance(r, g);
  }

  lemma RunIndexDistance(states: seq<Ring>, ops: seq<Op>, k: nat)
    requires IsRun(states, ops) && k < |states|
    ensures var r := states[k]; Wrap16(r.availIdx - r.lastUsedIdx) == TokenCount(r.data) <= r.Num() <= 0x8000
  {
    var g := RunInv(states, ops, k);
    IndexDistance(states[k], g);
  }

  /* ---- event indices ---- */

  // virtqueue_kick asks for a notification exactly if the additions since the last one passed the
  // device's event index, or, without event indices, unless the device has switched them off.
  lemma KickIffPassed(r: Ring, g: Shape, dev: KickView)
    requires Inv(r, g) && r.numAdded <= |g.log| && dev.availEvent < TWO_16
    ensures r.event ==>
              (KickNeeded(r, dev) <==>
               exists p: nat :: |g.log| - r.numAdded <= p < |g.log| && Wrap16(p) == dev.availEvent)
    ensures !r.event ==> (KickNeeded(r, dev) <==> !dev.noNotify)
  {
    if r.event {
      OldIndex(|g.log|, r.numAdded);
      NeedEventIffCrossed(dev.availEvent, |g.log|, |g.log| - r.numAdded);
    }
  }

  lemma OldIndex(n: nat, added: nat)
    ensures Wrap16(Wrap16(n) - added) == Wrap16(n - added)
  {
    var q := n / TWO_16;
    assert n - added == (Wrap16(n) - added) + TWO_16 * q;
    ModAddMultiple(Wrap16(n) - added, q, TWO_16);
  }

  // Enabling asks for an interrupt at the next buffer, or, delayed, once three quarters of those in
  // flight are used ..
  lemma EventsPlaced(r: Ring, g: Shape)
    requires Inv(r, g)
    ensures var next := |g.log| - |g.chains|;
      && EnableCb(r) == r.(noInterrupt := false, usedEvent := Wrap16(next))
      && 4 * DelayedBufs(r) <= 3 * |g.chains| < 4 * DelayedBufs(r) + 4
      && EnableCbDelayed(r) == r.(noInterrupt := false, usedEvent := Wrap16(next + DelayedBufs(r)))
      && DisableCb(r) == r.(noInterrupt := true)
  {
    NextIndex(r, g);
    EventIndices(r, |g.log| - |g.chains|, |g.chains|);
  }

  lemma EventIndices(r: Ring, next: nat, inFlight: nat)
    requires r.lastUsedIdx == Wrap16(next) && Wrap16(r.availIdx - r.lastUsedIdx) == inFlight
    ensures EnableCb(r) == r.(noInterrupt := false, usedEvent := Wrap16(next))
    ensures 4 * DelayedBufs(r) <= 3 * inFlight < 4 * DelayedBufs(r) + 4
    ensures EnableCbDelayed(r) == r.(noInterrupt := false, usedEvent := Wrap16(next + DelayedBufs(r)))
  {
    WrapSum(next, DelayedBufs(r));
  }

  lemma NextIndex(r: Ring, g: Shape)
    requires Inv(r, g)
    ensures |g.chains| <= |g.log| && r.lastUsedIdx == Wrap16(|g.log| - |g.chains|)
    ensures Wrap16(r.availIdx - r.lastUsedIdx) == |g.chains|
  {
    IndexDistance(r, g);
  }

  lemma WrapSum(a: nat, b: nat)
    ensures Wrap16(Wrap16(a) + b) == Wrap16(a + b)
  {
    var q := a / TWO_16;
    assert a + b == (Wrap16(a) + b) + TWO_16 * q;
    ModAddMultiple(Wrap16(a) + b, q, TWO_16);
  }

  // .. and taking a buffer moves the wish on to the next, while interrupts are wanted at all.
  lemma EventMovesOn(r: Ring, used: UsedView)
    requires |used.ring| == |r.data| == |r.desc| > 0 && GetResult(r, used).Got?
    ensures var r' := GetBuf(r, used);
      r'.usedEvent == if r.noInterrupt then r.usedEvent else r'.lastUsedIdx
  {
  }

  /* ---- avail slots ---- */

  // An add never overwrites the entry of a position the driver has not yet seen completed:
  // a device, however far behind, finds at each such position the head published there.
  lemma AddKeepsWindow(r: Ring, g: Shape, elems: seq<Elem>, hasOut: bool, token: nat, kmalloc: Option<nat>,
                       dev: KickView, q: nat)
    requires Inv(r, g) && AddOutcome(r, elems, token, kmalloc).Added?
    requires |g.log| - Wrap16(r.availIdx - r.lastUsedIdx) <= q < |g.log|
    ensures Slot(Wrap16(q), r.Num()) != Slot(r.availIdx, r.Num())
    ensures var avail' := Add(r, elems, hasOut, token, kmalloc, dev).avail;
      Slot(Wrap16(q), r.Num()) < |avail'| && avail'[Slot(Wrap16(q), r.Num())] == g.log[q]
  {
    AddedAvail(r, g, elems, hasOut, token, kmalloc, dev);
    WindowKept(r, g, Add(r, elems, hasOut, token, kmalloc, dev).avail, q);
  }

  lemma WindowKept(r: Ring, g: Shape, avail': seq<nat>, q: nat)
    requires Inv(r, g) && r.numFree > 0 && avail' == r.avail[Slot(r.availIdx, r.Num()) := r.freeHead]
    requires |g.log| - Wrap16(r.availIdx - r.lastUsedIdx) <= q < |g.log|
    ensures Slot(Wrap16(q), r.Num()) != Slot(r.availIdx, r.Num())
    ensures avail'[Slot(Wrap16(q), r.Num())] == g.log[q]
  {
    IndexDistance(r, g);
    InFlightBound(r, g);
    WindowSlotFresh(r, g, q);
  }

  // While a descriptor is free, the next slot is none of the window's.
  lemma WindowSlotFresh(r: Ring, g: Shape, q: nat)
    requires |r.avail| == r.Num() && RingSize(r.Num()) && WindowOk(r, g) && |g.chains| < r.Num()
    requires |g.log| - |g.chains| <= q < |g.log|
    ensures Slot(Wrap16(q), r.Num()) != Slot(r.availIdx, r.Num())
    ensures r.avail[Slot(Wrap16(q), r.Num())] == g.log[q]
  {
    SlotOfWrapped(|g.log|, r.Num());
    SlotOfWrapped(q, r.Num());
    DistinctSlots(q, |g.log|, r.Num());
  }

  lemma AddedAvail(r: Ring, g: Shape, elems: seq<Elem>, hasOut: bool, token: nat, kmalloc: Option<nat>, dev: KickView)
    requires Inv(r, g) && AddOutcome(r, elems, token, kmalloc).Added?
    ensures Add(r, elems, hasOut, token, kmalloc, dev).avail == r.avail[Slot(r.availIdx, r.Num()) := r.freeHead]
  {
    if GoesIndirect(r, elems, kmalloc) {
      PublishAvail(FillIndirect(r, elems, kmalloc.value), r.freeHead, token, dev);
    } else {
      PublishAvail(FillDirect(r, elems), r.freeHead, token, dev);
    }
  }

  lemma PublishAvail(r: Ring, head: nat, token: nat, dev: KickView)
    requires |r.avail| > 0
    ensures Publish(r, head, token, dev).avail == r.avail[Slot(r.availIdx, |r.avail|) := head]
  {
  }

  // Are all these heads named by as many of the last entries published?
  ghost predicate InWindow(heads: set<nat>, log: seq<nat>)
  {
    |heads| <= |log| && forall h :: h in heads ==> h in log[|log| - |heads|..]
  }

  // Are all buffers in flight still named by the window of the avail ring?
  ghost predicate Windowed(g: Shape) { InWindow(g.chains.Keys, g.log) }

  lemma {:induction false} ValuesAtMostLength(s: seq<nat>)
    ensures |Values(s)| <= |s|
  {
    if s == [] {
      assert Values(s) == {};
    } else {
      ValuesAtMostLength(s[1..]);
      assert Values(s) == Values(s[1..]) + {s[0]};
    }
  }

  // They stay so exactly as long as the device completes buffers in the order they were
  // published; an out-of-order completion leaves some buffer without its avail entry.
  lemma WindowedIffInOrder(r: Ring, g: Shape, used: UsedView)
    requires Inv(r, g) && Windowed(g) && |used.ring| == r.Num() && GetResult(r, used).Got?
    ensures 0 < |g.chains| <= |g.log|
    ensures Windowed(GetShape(r, g, used)) <==> GetResult(r, used).id == g.log[|g.log| - |g.chains|]
  {
    GotShape(r, g, used);
    InOrder(g, GetShape(r, g, used), GetResult(r, used).id);
  }

  lemma InOrder(g: Shape, g': Shape, id: nat)
    requires Windowed(g) && id in g.chains && g'.chains == g.chains - {id} && g'.log == g.log
    ensures 0 < |g.chains| <= |g.log|
    ensures Windowed(g') <==> id == g.log[|g.log| - |g.chains|]
  {
    OneLess(g.chains, g'.chains, id);
    WindowAfterReturn(g.chains.Keys, g.log, id);
  }

  lemma GotShape(r: Ring, g: Shape, used: UsedView)
    requires Inv(r, g) && |used.ring| == r.Num() && GetResult(r, used).Got?
    ensures GetResult(r, used).id in g.chains
    ensures GetShape(r, g, used).chains == g.chains - {GetResult(r, used).id} && GetShape(r, g, used).log == g.log
  {
  }

  lemma OneLess(chains: map<nat, seq<nat>>, chains': map<nat, seq<nat>>, id: nat)
    requires id in chains && chains' == chains - {id}
    ensures chains'.Keys == chains.Keys - {id}
    ensures 0 < |chains| == |chains.Keys| && |chains'| == |chains| - 1
  {
    assert chains'.Keys == chains.Keys - {id};
    assert |chains'| == |chains'.Keys|;
  }

  lemma WindowAfterReturn(heads: set<nat>, log: seq<nat>, id: nat)
    requires InWindow(heads, log) && id in heads
    ensures 0 < |heads| <= |log|
    ensures InWindow(heads - {id}, log) <==> id == log[|log| - |heads|]
  {
    var n, c := |log|, |heads|;
    var rest := log[n - (c - 1)..];
    assert |heads - {id}| == c - 1;
    assert log[n - c..] == [log[n - c]] + rest;
    DropOldest(heads, log[n - c], rest, id);
    assert InWindow(heads - {id}, log) <==> forall h :: h in heads - {id} ==> h in rest;
    assert (forall h :: h in heads - {id} ==> h in rest) <==> (forall h :: h in heads && h != id ==> h in rest);
  }

  lemma DropOldest(heads: set<nat>, oldest: nat, rest: seq<nat>, id: nat)
    requires |heads| == |rest| + 1 && id in heads && forall h :: h in heads ==> h in [oldest] + rest
    ensures (forall h :: h in heads && h != id ==> h in rest) <==> id == oldest
  {
    if id != oldest {
      // otherwise all the heads, id included, would be among fewer values
      ValuesAtMostLength(rest);
      if heads <= Values(rest) { SubsetSize(heads, Values(rest)); }
    }
  }

  lemma WindowedAdd(r: Ring, g: Shape, elems: seq<Elem>, token: nat, kmalloc: Option<nat>)
    requires Inv(r, g) && Windowed(g)
    ensures Windowed(AddShape(r, g, elems, token, kmalloc))
  {
    if AddOutcome(r, elems, token, kmalloc).Added? {
      AddedShape(r, g, elems, token, kmalloc);
      AddedIs(r, g, elems, token, kmalloc);
      WindowAfterAdd(g.chains.Keys, g.log, r.freeHead);
    }
  }

  lemma WindowAfterAdd(heads: set<nat>, log: seq<nat>, head: nat)
    requires InWindow(heads, log) && head !in heads
    ensures InWindow(heads + {head}, log + [head])
  {
    var c := |heads|;
    assert |heads + {head}| == c + 1;
    assert (log + [head])[|log + [head]| - (c + 1)..] == log[|log| - c..] + [head];
  }

  // A one-element request, laid out directly.
  lemma AddOne(r: Ring, e: Elem, hasOut: bool, token: nat, dev: KickView)
    requires |r.avail| == |r.data| == r.Num() > 0 && 0 < r.numFree && r.freeHead < r.Num() && token != 0
    requires r.numAdded + 1 != FORCED_KICK
    ensures AddOutcome(r, [e], token, None) == Added(r.freeHead)
    ensures Add(r, [e], hasOut, token, None, dev) ==
      r.(desc := r.desc[r.freeHead := Desc(e.addr, e.len, Flags(false, e.write, false), r.desc[r.freeHead].next)],
         data := r.data[r.freeHead := token], avail := r.avail[Slot(r.availIdx, r.Num()) := r.freeHead],
         freeHead := r.desc[r.freeHead].next, numFree := r.numFree - 1,
         availIdx := Wrap16(r.availIdx + 1), numAdded := r.numAdded + 1)
  {
    FillOne(r, e);
  }

  lemma FillOne(r: Ring, e: Elem)
    requires 0 < r.numFree && r.freeHead < r.Num()
    ensures FillDirect(r, [e]) ==
      r.(desc := r.desc[r.freeHead := Desc(e.addr, e.len, Flags(false, e.write, false), r.desc[r.freeHead].next)],
         freeHead := r.desc[r.freeHead].next, numFree := r.numFree - 1)
  {
    var cells := Walk(r.desc, r.freeHead, 1);
    assert cells == [r.freeHead];
    assert cells[..0] == [] && [e][..0] == [] && [e][..1] == [e];
    var filled := Filled(r.desc, cells, [e]);
    assert Filled(r.desc, [], []) == r.desc;
    assert filled == r.desc[r.freeHead := Written(r.desc[r.freeHead], e)];
    assert Ended(filled, r.freeHead) ==
      r.desc[r.freeHead := Desc(e.addr, e.len, Flags(false, e.write, false), r.desc[r.freeHead].next)];
  }

  // So an add may overwrite the avail entry of a buffer that is still in flight: a ring of
  // two, whose second buffer comes back first.
  lemma OutOfOrderOverwrites() returns (r: Ring, r': Ring)
    ensures IsHead(r, 0) && 0 in r.avail
    ensures r' == Add(r, [Elem(4096, 64, false)], true, 9, None, KickView(0, false))
    ensures AddOutcome(r, [Elem(4096, 64, false)], 9, None).Added?
    ensures IsHead(r', 0) && 0 !in r'.avail
    ensures exists states, ops :: IsRun(states, ops) && states[|states| - 1] == r
  {
    var e, dev := Elem(4096, 64, false), KickView(0, false);
    var r0 := Init(2, false, false, true);
    var r1, r2 := TwoAdded(r0, e, dev);
    var used := UsedView(1, [UsedElem(1, 0), UsedElem(0, 0)]);
    r := SecondReturned(r2, used);
    r' := ThirdAdded(r, e, dev);
    ThreeStepRun(r0, OpAdd([e], true, 7, None, dev), r1, OpAdd([e], true, 8, None, dev), r2, OpGet(used), r);
  }

  lemma ThreeStepRun(r0: Ring, a: Op, r1: Ring, b: Op, r2: Ring, c: Op, r3: Ring)
    requires r0 == Init(2, false, false, true)
    requires StepsTo(r0, a, r1) && StepsTo(r1, b, r2) && StepsTo(r2, c, r3)
    ensures exists states, ops :: IsRun(states, ops) && states[|states| - 1] == r3
  {
    assert PowerOfTwo(1) && PowerOfTwo(2);
    assert RingSize(2);
    RunOfThree(r0, a, r1, b, r2, c, r3);
  }

  lemma RunOfThree(r0: Ring, a: Op, r1: Ring, b: Op, r2: Ring, c: Op, r3: Ring)
    requires IsNew(r0) && StepsTo(r0, a, r1) && StepsTo(r1, b, r2) && StepsTo(r2, c, r3)
    ensures IsRun([r0, r1, r2, r3], [a, b, c])
  {
    var states, ops := [r0, r1, r2, r3], [a, b, c];
    assert StepAt(states, ops, 0) && StepAt(states, ops, 1) && StepAt(states, ops, 2);
  }

  lemma TwoAdded(r0: Ring, e: Elem, dev: KickView) returns (r1: Ring, r2: Ring)
    requires r0 == Init(2, false, false, true)
    ensures r1 == Add(r0, [e], true, 7, None, dev) && r2 == Add(r1, [e], true, 8, None, dev)
    ensures r1.Num() == r2.Num() == 2 && |r1.data| == |r1.avail| == 2
    ensures r2.data == [7, 8] && r2.avail == [0, 1] && r2.availIdx == 2 && r2.numAdded == 2
    ensures r2.numFree == 0 && r2.lastUsedIdx == 0 && !r2.broken && !r2.indirect
    ensures r2.desc[1].flags == Flags(false, e.write, false)
  {
    assert r0.desc[0].next == 1 && r0.data == [0, 0] && r0.avail == [0, 0];
    AddOne(r0, e, true, 7, dev);
    r1 := Add(r0, [e], true, 7, None, dev);
    assert r1.data == [7, 0] && r1.avail == [0, 0] && r1.freeHead == 1;
    AddOne(r1, e, true, 8, dev);
    r2 := Add(r1, [e], true, 8, None, dev);
  }

  lemma ThirdAdded(r: Ring, e: Elem, dev: KickView) returns (r': Ring)
    requires r.Num() == 2 && r.data == [7, 0] && r.avail == [0, 1] && r.freeHead == 1 && r.numFree == 1
    requires r.availIdx == 2 && r.numAdded == 2 && !r.indirect
    ensures AddOutcome(r, [e], 9, None).Added?
    ensures r' == Add(r, [e], true, 9, None, dev) && r'.avail == [1, 1] && r'.data == [7, 9]
  {
    AddOne(r, e, true, 9, dev);
    r' := Add(r, [e], true, 9, None, dev);
  }

  lemma SecondReturned(r2: Ring, used: UsedView) returns (r: Ring)
    requires r2.Num() == 2 && r2.data == [7, 8] && r2.avail == [0, 1] && r2.availIdx == 2 && r2.numAdded == 2
    requires r2.numFree == 0 && r2.lastUsedIdx == 0 && !r2.broken && !r2.indirect
    requires !r2.desc[1].flags.next
    requires used == UsedView(1, [UsedElem(1, 0), UsedElem(0, 0)])
    ensures r == GetBuf(r2, used) && r.Num() == 2
    ensures r.data == [7, 0] && r.avail == [0, 1] && r.freeHead == 1 && r.numFree == 1 && r.availIdx == 2
    ensures r.numAdded == 2 && !r.indirect
  {
    assert GetResult(r2, used) == Got(1);
    assert ChainOf(r2, 1) == [1];
    r := GetBuf(r2, used);
  }

  /* ---- every token comes back at most once, and none is lost ---- */

  function Tokens(data: seq<nat>): multiset<nat>
  {
    if data == [] then multiset{}
    else Tokens(data[..|data| - 1]) + One(data[|data| - 1])
  }

  function One(token: nat): multiset<nat> { if token != 0 then multiset{token} else multiset{} }

  lemma {:induction false} TokensUpdate(data: seq<nat>, i: nat, t: nat)
    requires i < |data|
    ensures Tokens(data[i := t]) + One(data[i]) == Tokens(data) + One(t)
  {
    var n := |data| - 1;
    var data' := data[i := t];
    if i < n {
      TokensUpdate(data[..n], i, t);
      assert data'[..n] == data[..n][i := t] && data'[n] == data[n];
      Regroup(Tokens(data'[..n]), One(data[i]), Tokens(data[..n]), One(t), One(data[n]));
    } else {
      assert data'[..n] == data[..n];
      Swap(Tokens(data[..n]), One(t), One(data[n]));
    }
  }

  lemma Swap(a: multiset<nat>, x: multiset<nat>, y: multiset<nat>)
    ensures (a + x) + y == (a + y) + x
  {
  }

  lemma Regroup(a: multiset<nat>, x: multiset<nat>, b: multiset<nat>, y: multiset<nat>, z: multiset<nat>)
    requires a + x == b + y
    ensures (a + z) + x == (b + z) + y
  {
    assert (a + z) + x == (a + x) + z;
    assert (b + z) + y == (b + y) + z;
  }

  // The tokens an operation takes in, and those it hands back.
  function TakenIn(r: Ring, op: Op): multiset<nat>
    requires Legal(r, op)
  {
    if op.OpAdd? && AddOutcome(r, op.elems, op.token, op.kmalloc).Added? then multiset{op.token} else multiset{}
  }

  function HandedBack(r: Ring, op: Op): multiset<nat>
    requires Legal(r, op)
  {
    match op
    case OpGet(used) =>
      var res := GetResult(r, used);
      if res.Got? && res.id < |r.data| then multiset{r.data[res.id]} else multiset{}
    case OpDetachUnused =>
      var h := FirstHead(r.data, 0);
      if h < |r.data| then multiset{r.data[h]} else multiset{}
    case _ => multiset{}
  }

  // held' + out == held + taken, kept as a name so that the proofs below pass it on whole.
  ghost predicate Balanced(held': multiset<nat>, out: multiset<nat>, held: multiset<nat>, taken: multiset<nat>)
  {
    held' + out == held + taken
  }

  ghost predicate StepBalanced(r: Ring, op: Op, r': Ring)
    requires Legal(r, op)
  {
    Balanced(Tokens(r'.data), HandedBack(r, op), Tokens(r.data), TakenIn(r, op))
  }

  lemma StepTokens(r: Ring, g: Shape, op: Op)
    requires Inv(r, g) && Legal(r, op)
    ensures StepBalanced(r, op, Step(r, op))
  {
    if op.OpAdd? {
      AddTokens(r, g, op);
    } else if op.OpGet? {
      GetTokens(r, op);
    } else if op.OpDetachUnused? {
      UnusedTokens(r, op);
    } else {
      IndexStep(r, op);
    }
  }

  lemma AddTokens(r: Ring, g: Shape, op: Op)
    requires Inv(r, g) && Legal(r, op) && op.OpAdd?
    ensures StepBalanced(r, op, Step(r, op))
  {
    if AddOutcome(r, op.elems, op.token, op.kmalloc).Added? {
      AddSetsToken(r, g, op.elems, op.hasOut, op.token, op.kmalloc, op.dev);
      FreeHeadUnowned(r, g);
      assert r.data[r.freeHead] == 0;
      TokensUpdate(r.data, r.freeHead, op.token);
    }
  }

  lemma GetTokens(r: Ring, op: Op)
    requires Legal(r, op) && op.OpGet?
    ensures StepBalanced(r, op, Step(r, op))
  {
    if GetResult(r, op.used).Got? {
      TokensUpdate(r.data, GetResult(r, op.used).id, 0);
    }
  }

  lemma UnusedTokens(r: Ring, op: Op)
    requires Legal(r, op) && op.OpDetachUnused?
    ensures StepBalanced(r, op, Step(r, op))
  {
    if FirstHead(r.data, 0) < |r.data| {
      TokensUpdate(r.data, FirstHead(r.data, 0), 0);
    }
  }

  function AllTaken(states: seq<Ring>, ops: seq<Op>, k: nat): multiset<nat>
    requires k <= |ops| <= |states|
  {
    if k == 0 then multiset{}
    else AllTaken(states, ops, k - 1) + (if Legal(states[k - 1], ops[k - 1]) then TakenIn(states[k - 1], ops[k - 1])
                                         else multiset{})
  }

  function AllHandedBack(states: seq<Ring>, ops: seq<Op>, k: nat): multiset<nat>
    requires k <= |ops| <= |states|
  {
    if k == 0 then multiset{}
    else AllHandedBack(states, ops, k - 1) + (if Legal(states[k - 1], ops[k - 1])
                                              then HandedBack(states[k - 1], ops[k - 1]) else multiset{})
  }

  lemma {:induction false} NoTokens(n: nat)
    ensures Tokens(seq(n, _ => 0)) == multiset{}
  {
    if n > 0 {
      NoTokens(n - 1);
      assert seq(n, _ => 0)[..n - 1] == seq(n - 1, _ => 0);
    }
  }

  lemma InitTokens(r: Ring)
    requires IsNew(r)
    ensures Tokens(r.data) == multiset{}
  {
    var num: nat, event, indirect, callback :|
      RingSize(num) && r == Init(num, event, indirect, callback);
    NoTokens(num);
  }

  ghost predicate Accounted(states: seq<Ring>, ops: seq<Op>, k: nat)
  {
    k <= |ops| < |states| && AllTaken(states, ops, k) == AllHandedBack(states, ops, k) + Tokens(states[k].data)
  }

  lemma AccountedFirst(states: seq<Ring>, ops: seq<Op>)
    requires IsRun(states, ops)
    ensures Accounted(states, ops, 0)
  {
    InitTokens(states[0]);
  }

  lemma AccountedNext(states: seq<Ring>, ops: seq<Op>, k: nat)
    requires IsRun(states, ops) && 0 < k <= |ops| && Accounted(states, ops, k - 1)
    ensures Accounted(states, ops, k)
  {
    RunStepTokens(states, ops, k);
    SumsStep(states, ops, k);
  }

  // Whatever the device reports: tokens added so far = tokens handed back + tokens in flight.
  lemma RunTokens(states: seq<Ring>, ops: seq<Op>, k: nat)
    requires IsRun(states, ops) && k <= |ops|
    ensures AllTaken(states, ops, k) == AllHandedBack(states, ops, k) + Tokens(states[k].data)
  {
    AccountedFirst(states, ops);
    var i := 0;
    while i < k
      invariant 0 <= i <= k && Accounted(states, ops, i)
    {
      i := i + 1;
      AccountedNext(states, ops, i);
    }
  }

  lemma SumsStep(states: seq<Ring>, ops: seq<Op>, k: nat)
    requires 0 < k <= |ops| < |states| && Legal(states[k - 1], ops[k - 1])
    requires AllTaken(states, ops, k - 1) == AllHandedBack(states, ops, k - 1) + Tokens(states[k - 1].data)
    requires StepBalanced(states[k - 1], ops[k - 1], states[k])
    ensures AllTaken(states, ops, k) == AllHandedBack(states, ops, k) + Tokens(states[k].data)
  {
    Balance(AllTaken(states, ops, k - 1), AllHandedBack(states, ops, k - 1), Tokens(states[k - 1].data),
            TakenIn(states[k - 1], ops[k - 1]), HandedBack(states[k - 1], ops[k - 1]), Tokens(states[k].data));
  }

  lemma RunStepTokens(states: seq<Ring>, ops: seq<Op>, k: nat)
    requires IsRun(states, ops) && 0 < k <= |ops|
    ensures StepsTo(states[k - 1], ops[k - 1], states[k])
    ensures StepBalanced(states[k - 1], ops[k - 1], states[k])
  {
    var g := RunInv(states, ops, k - 1);
    assert StepAt(states, ops, k - 1);
    StepTokens(states[k - 1], g, ops[k - 1]);
  }

  lemma Balance(taken: multiset<nat>, back: multiset<nat>, held: multiset<nat>,
                more: multiset<nat>, less: multiset<nat>, held': multiset<nat>)
    requires taken == back + held && Balanced(held', less, held, more)
    ensures taken + more == (back + less) + held'
  {
    assert taken + more == back + (held + more);
    assert (back + less) + held' == back + (held' + less);
  }
}
