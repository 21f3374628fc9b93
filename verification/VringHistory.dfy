/** Which avail entries stand: the history of a queue, from its start to the detaching of unused buffers. */
module VringHistory {
  import opened Words
  import opened Basics
  import opened Vring
  import opened VringInvariant
  import opened VringSteps
  import opened VringTheorems
  import opened VringAccounting

  /* ---- the heads published ---- */

  function PublishedBy(r: Ring, op: Op): seq<nat>
  {
    if op.OpAdd? && AddOutcome(r, op.elems, op.token, op.kmalloc).Added? then [r.freeHead] else []
  }

  // The heads of all adds before step k, in order.
  function Published(states: seq<Ring>, ops: seq<Op>, k: nat): seq<nat>
    requires k <= |ops| < |states|
  {
    if k == 0 then [] else Published(states, ops, k - 1) + PublishedBy(states[k - 1], ops[k - 1])
  }

  // Detaching unused buffers steps avail->idx back; it is for the end of a queue.
  predicate InUse(ops: seq<Op>, k: nat) { forall i :: 0 <= i < k && i < |ops| ==> !ops[i].OpDetachUnused? }

  // The place where a head was published last.
  function LastOf(log: seq<nat>, h: nat): (p: nat)
    requires h in log
    ensures p < |log| && log[p] == h && forall q :: p < q < |log| ==> log[q] != h
  {
    if log[|log| - 1] == h then |log| - 1 else LastOf(log[..|log| - 1], h)
  }

  // The avail entry of place p.
  function EntryAt(r: Ring, p: nat): nat
    requires |r.avail| == r.Num() > 0
  {
    r.avail[Slot(Wrap16(p), r.Num())]
  }

  // The last Num() entries stand, and every buffer in flight has been published.
  ghost predicate Fits(r: Ring, log: seq<nat>)
  {
    && |r.avail| == r.Num() && RingSize(r.Num()) && r.availIdx == Wrap16(|log|)
    && (forall q: nat :: |log| - r.Num() <= q < |log| ==> EntryAt(r, q) == log[q])
    && (forall h :: IsHead(r, h) ==> h in log)
  }

  lemma SlotsDiffer(p: nat, q: nat, n: nat)
    requires RingSize(n) && p < q < p + n
    ensures Slot(Wrap16(p), n) != Slot(Wrap16(q), n)
  {
    SlotOfWrapped(p, n);
    SlotOfWrapped(q, n);
    DistinctSlots(p, q, n);
  }

  lemma SlotsAgree(p: nat, n: nat)
    requires RingSize(n)
    ensures Slot(Wrap16(p), n) == Slot(Wrap16(p + n), n)
  {
    SlotOfWrapped(p, n);
    SlotOfWrapped(p + n, n);
    ModAddMultiple(p, 1, n);
  }

  lemma FitsAfterAdd(r: Ring, log: seq<nat>, r': Ring, head: nat, token: nat)
    requires Fits(r, log) && r'.Num() == r.Num() && head < |r.data| && token != 0
    requires r'.avail == r.avail[Slot(Wrap16(|log|), r.Num()) := head] && r'.availIdx == Wrap16(|log| + 1)
    requires r'.data == r.data[head := token]
    ensures Fits(r', log + [head])
  {
    forall q: nat | |log| + 1 - r.Num() <= q < |log|
      ensures EntryAt(r', q) == log[q]
    {
      SlotsDiffer(q, |log|, r.Num());
      assert EntryAt(r', q) == EntryAt(r, q);
    }
    forall h | IsHead(r', h)
      ensures h in log + [head]
    {
      assert h != head ==> IsHead(r, h);
    }
  }

  lemma AddedIdx(r: Ring, elems: seq<Elem>, hasOut: bool, token: nat, kmalloc: Option<nat>, dev: KickView)
    requires |r.avail| > 0 && AddOutcome(r, elems, token, kmalloc).Added?
    ensures Add(r, elems, hasOut, token, kmalloc, dev).availIdx == Wrap16(r.availIdx + 1)
    ensures |Add(r, elems, hasOut, token, kmalloc, dev).desc| == |r.desc|
  {
    if GoesIndirect(r, elems, kmalloc) {
      PublishIdx(FillIndirect(r, elems, kmalloc.value), r.freeHead, token, dev);
    } else {
      PublishIdx(FillDirect(r, elems), r.freeHead, token, dev);
    }
  }

  lemma PublishIdx(r: Ring, head: nat, token: nat, dev: KickView)
    requires |r.avail| > 0
    ensures Publish(r, head, token, dev).availIdx == Wrap16(r.availIdx + 1)
    ensures Publish(r, head, token, dev).desc == r.desc
  {
  }

  lemma FitsAdd(r: Ring, g: Shape, op: Op)
    requires Inv(r, g) && Legal(r, op) && Fits(r, g.log) && op.OpAdd?
    ensures Fits(Step(r, op), g.log + PublishedBy(r, op))
  {
    if AddOutcome(r, op.elems, op.token, op.kmalloc).Added? {
      AddedAvail(r, g, op.elems, op.hasOut, op.token, op.kmalloc, op.dev);
      AddedIdx(r, op.elems, op.hasOut, op.token, op.kmalloc, op.dev);
      AddSetsToken(r, g, op.elems, op.hasOut, op.token, op.kmalloc, op.dev);
      WrapSuccessor(|g.log|);
      FitsAfterAdd(r, g.log, Step(r, op), r.freeHead, op.token);
    } else {
      FitsSame(r, Step(r, op), g.log);
    }
  }

  lemma FitsSame(r: Ring, r': Ring, log: seq<nat>)
    requires Fits(r, log) && r'.avail == r.avail && r'.availIdx == r.availIdx && r'.Num() == r.Num()
    requires forall h :: IsHead(r', h) ==> IsHead(r, h)
    ensures Fits(r', log + [])
  {
    assert log + [] == log;
    forall q: nat | |log| - r.Num() <= q < |log|
      ensures EntryAt(r', q) == log[q]
    {
      assert EntryAt(r', q) == EntryAt(r, q);
    }
  }

  lemma GetFrame(r: Ring, used: UsedView)
    requires |used.ring| == |r.data| == |r.desc| > 0
    ensures var r' := GetBuf(r, used);
      && r'.avail == r.avail && r'.availIdx == r.availIdx && r'.Num() == r.Num()
      && forall h :: IsHead(r', h) ==> IsHead(r, h)
  {
  }

  lemma FitsStep(r: Ring, g: Shape, op: Op)
    requires Inv(r, g) && Legal(r, op) && Fits(r, g.log) && !op.OpDetachUnused?
    ensures Fits(Step(r, op), g.log + PublishedBy(r, op))
  {
    if op.OpAdd? {
      FitsAdd(r, g, op);
    } else if op.OpGet? {
      GetFrame(r, op.used);
      FitsSame(r, Step(r, op), g.log);
    } else {
      IndexStep(r, op);
      FitsSame(r, Step(r, op), g.log);
    }
  }

  lemma ShapeLog(r: Ring, g: Shape, op: Op)
    requires Inv(r, g) && Legal(r, op) && !op.OpDetachUnused?
    ensures StepShape(r, g, op).log == g.log + PublishedBy(r, op)
  {
    if op.OpAdd? && AddOutcome(r, op.elems, op.token, op.kmalloc).Added? {
      AddedIs(r, g, op.elems, op.token, op.kmalloc);
    } else {
      assert g.log + [] == g.log;
    }
  }

  lemma StepHistory(r: Ring, g0: Shape, op: Op, r': Ring) returns (g: Shape)
    requires Inv(r, g0) && Fits(r, g0.log) && StepsTo(r, op, r') && !op.OpDetachUnused?
    ensures Inv(r', g) && g.log == g0.log + PublishedBy(r, op) && Fits(r', g.log)
    ensures Windowed(g0) && OldestFirst(r, op, g0.log) ==> Windowed(g)
  {
    g := StepShape(r, g0, op);
    StepInv(r, g0, op);
    FitsStep(r, g0, op);
    ShapeLog(r, g0, op);
    if Windowed(g0) && OldestFirst(r, op, g0.log) { WindowedStep(r, g0, op); }
  }

  // The shape and the log behind a state of a run.
  ghost predicate HistoryAt(r: Ring, g: Shape, log: seq<nat>) { Inv(r, g) && g.log == log && Fits(r, log) }

  ghost predicate HistoryOf(states: seq<Ring>, ops: seq<Op>, k: nat, g: Shape)
    requires k <= |ops| < |states|
  {
    HistoryAt(states[k], g, Published(states, ops, k)) && (InOrder(states, ops, k) ==> Windowed(g))
  }

  lemma NextHistory(states: seq<Ring>, ops: seq<Op>, k: nat, g0: Shape) returns (g: Shape)
    requires IsRun(states, ops) && 0 < k <= |ops| && !ops[k - 1].OpDetachUnused?
    requires HistoryOf(states, ops, k - 1, g0)
    ensures HistoryOf(states, ops, k, g)
  {
    assert StepAt(states, ops, k - 1);
    g := StepHistory(states[k - 1], g0, ops[k - 1], states[k]);
    if InOrder(states, ops, k) { InOrderBefore(states, ops, k); }
  }

  lemma RunHistory(states: seq<Ring>, ops: seq<Op>, k: nat) returns (g: Shape)
    requires IsRun(states, ops) && k <= |ops| && InUse(ops, k)
    ensures HistoryOf(states, ops, k, g)
  {
    g := FirstHistory(states, ops);
    for i := 0 to k
      invariant HistoryOf(states, ops, i, g)
    {
      g := NextHistory(states, ops, i + 1, g);
    }
  }

  lemma FirstHistory(states: seq<Ring>, ops: seq<Op>) returns (g: Shape)
    requires IsRun(states, ops)
    ensures HistoryOf(states, ops, 0, g)
  {
    g := StartHistory(states[0]);
  }

  lemma InOrderBefore(states: seq<Ring>, ops: seq<Op>, k: nat)
    requires 0 < k <= |ops| < |states| && InOrder(states, ops, k)
    ensures InOrder(states, ops, k - 1)
    ensures OldestFirst(states[k - 1], ops[k - 1], Published(states, ops, k - 1))
  {
  }

  lemma StartHistory(r: Ring) returns (g: Shape)
    requires IsNew(r)
    ensures HistoryAt(r, g, []) && Windowed(g)
  {
    var num: nat, event, indirect, callback :| RingSize(num) && r == Init(num, event, indirect, callback);
    InitInv(num, event, indirect, callback);
    g := InitShape(num);
  }

  /* ---- which entries stand ---- */

  // The entry of a buffer in flight stands if and only if it is among the last Num() published.
  lemma StandsIff(r: Ring, log: seq<nat>, p: nat)
    requires Fits(r, log) && p < |log| && forall q :: p < q < |log| ==> log[q] != log[p]
    ensures EntryAt(r, p) == log[p] <==> |log| <= p + r.Num()
  {
    var n := r.Num();
    if |log| > p + n {
      // the last place with the same slot names another head
      var d := LastSame(p, n, |log|);
      SameSlot(p, d, n);
      assert EntryAt(r, p + n * d) == log[p + n * d];
    }
  }

  lemma LastSame(p: nat, n: nat, len: nat) returns (d: nat)
    requires n > 0 && p + n < len
    ensures p < p + n * d && len - n <= p + n * d < len
  {
    d := (len - 1 - p) / n;
    assert len - 1 - p == n * d + (len - 1 - p) % n;
  }

  lemma SameSlot(p: nat, d: nat, n: nat)
    requires RingSize(n)
    ensures Slot(Wrap16(p), n) == Slot(Wrap16(p + n * d), n)
  {
    SlotOfWrapped(p, n);
    SlotOfWrapped(p + n * d, n);
    ModAddMultiple(p, d, n);
  }

  lemma OverwritesIff(r: Ring, log: seq<nat>, r': Ring, head: nat, h: nat)
    requires Fits(r, log) && h in log && head != h && r'.Num() == r.Num()
    requires r'.avail == r.avail[Slot(Wrap16(|log|), r.Num()) := head]
    ensures EntryAt(r, LastOf(log, h)) == h <==> |log| <= LastOf(log, h) + r.Num()
    ensures EntryAt(r, LastOf(log, h)) == h && EntryAt(r', LastOf(log, h)) != h <==> |log| == LastOf(log, h) + r.Num()
  {
    var p := LastOf(log, h);
    StandsIff(r, log, p);
    if |log| == p + r.Num() {
      SlotsAgree(p, r.Num());
    } else if |log| < p + r.Num() {
      SlotsDiffer(p, |log|, r.Num());
    }
  }

  // An add overwrites the entry of a buffer in flight if and only if that was published exactly Num()
  // adds ago: its entry is there before, and not after.
  lemma RunOverwritesIff(states: seq<Ring>, ops: seq<Op>, k: nat, h: nat)
    requires IsRun(states, ops) && k < |ops| && InUse(ops, k) && IsHead(states[k], h)
    requires PublishedBy(states[k], ops[k]) != []
    ensures |states[k].avail| == |states[k + 1].avail| == states[k].Num() == states[k + 1].Num() > 0
    ensures h in Published(states, ops, k)
    ensures var log := Published(states, ops, k); var p := LastOf(log, h);
      && (EntryAt(states[k], p) == h <==> |log| <= p + states[k].Num())
      && (EntryAt(states[k], p) == h && EntryAt(states[k + 1], p) != h <==> |log| == p + states[k].Num())
  {
    var g := RunHistory(states, ops, k);
    assert StepAt(states, ops, k);
    AddOverwritesIff(states[k], g, ops[k], states[k + 1], h);
  }

  lemma AddOverwritesIff(r: Ring, g: Shape, op: Op, r': Ring, h: nat)
    requires HistoryAt(r, g, g.log) && StepsTo(r, op, r') && IsHead(r, h) && PublishedBy(r, op) != []
    ensures |r.avail| == |r'.avail| == r.Num() == r'.Num() > 0 && h in g.log
    ensures var p := LastOf(g.log, h);
      && (EntryAt(r, p) == h <==> |g.log| <= p + r.Num())
      && (EntryAt(r, p) == h && EntryAt(r', p) != h <==> |g.log| == p + r.Num())
  {
    AddedRing(r, g, op);
    NotFreeHead(r, g, h);
    OverwritesIff(r, g.log, r', r.freeHead, h);
  }

  lemma AddedRing(r: Ring, g: Shape, op: Op)
    requires Inv(r, g) && Legal(r, op) && PublishedBy(r, op) != []
    ensures var r' := Step(r, op);
      r'.Num() == r.Num() && r'.avail == r.avail[Slot(r.availIdx, r.Num()) := r.freeHead] && r.numFree > 0
  {
    AddedAvail(r, g, op.elems, op.hasOut, op.token, op.kmalloc, op.dev);
    AddedIdx(r, op.elems, op.hasOut, op.token, op.kmalloc, op.dev);
  }

  lemma NotFreeHead(r: Ring, g: Shape, h: nat)
    requires Inv(r, g) && IsHead(r, h) && r.numFree > 0
    ensures r.freeHead != h
  {
    FreeHeadUnowned(r, g);
  }

  /* ---- completions in order ---- */

  // A buffer taken back is the oldest of the last n published, n as many as are in flight.
  predicate OldestFirst(r: Ring, op: Op, log: seq<nat>)
  {
    var n := Wrap16(r.availIdx - r.lastUsedIdx);
    op.OpGet? && |op.used.ring| == |r.data| > 0 && GetResult(r, op.used).Got? && 0 < n <= |log| ==>
      GetResult(r, op.used).id == log[|log| - n]
  }

  predicate InOrder(states: seq<Ring>, ops: seq<Op>, k: nat)
    requires k <= |ops| < |states|
  {
    forall i :: 0 <= i < k ==> OldestFirst(states[i], ops[i], Published(states, ops, i))
  }

  lemma WindowedStep(r: Ring, g: Shape, op: Op)
    requires Inv(r, g) && Windowed(g) && Legal(r, op) && !op.OpDetachUnused? && OldestFirst(r, op, g.log)
    ensures Windowed(StepShape(r, g, op))
  {
    if op.OpAdd? {
      WindowedAdd(r, g, op.elems, op.token, op.kmalloc);
    } else if op.OpGet? {
      WindowedGet(r, g, op);
    } else {
      QuietShape(r, g, op);
    }
  }

  lemma QuietShape(r: Ring, g: Shape, op: Op)
    requires Sized(r, g) && Legal(r, op) && !op.OpGet? && !op.OpDetachUnused? && PublishedBy(r, op) == []
    ensures StepShape(r, g, op) == g
  {
  }

  lemma NoGetShape(r: Ring, g: Shape, op: Op)
    requires Sized(r, g) && Legal(r, op) && op.OpGet? && !GetResult(r, op.used).Got?
    ensures StepShape(r, g, op) == g
  {
  }

  lemma WindowedGet(r: Ring, g: Shape, op: Op)
    requires Inv(r, g) && Windowed(g) && Legal(r, op) && op.OpGet? && OldestFirst(r, op, g.log)
    ensures Windowed(StepShape(r, g, op))
  {
    if GetResult(r, op.used).Got? {
      OldestIs(r, g, op);
      WindowedIffInOrder(r, g, op.used);
    } else {
      NoGetShape(r, g, op);
    }
  }

  lemma OldestIs(r: Ring, g: Shape, op: Op)
    requires Inv(r, g) && Legal(r, op) && op.OpGet? && OldestFirst(r, op, g.log) && GetResult(r, op.used).Got?
    ensures 0 < |g.chains| <= |g.log| && GetResult(r, op.used).id == g.log[|g.log| - |g.chains|]
  {
    InFlightSome(r, g, op.used);
    OldestGot(r, op, g.log, |g.chains|);
  }

  lemma InFlightSome(r: Ring, g: Shape, used: UsedView)
    requires Inv(r, g) && |used.ring| == r.Num() && GetResult(r, used).Got?
    ensures 0 < |g.chains| <= |g.log| && Wrap16(r.availIdx - r.lastUsedIdx) == |g.chains|
  {
    IndexDistance(r, g);
    GotShape(r, g, used);
    OneLess(g.chains, GetShape(r, g, used).chains, GetResult(r, used).id);
  }

  lemma OldestGot(r: Ring, op: Op, log: seq<nat>, n: nat)
    requires Legal(r, op) && OldestFirst(r, op, log) && op.OpGet? && GetResult(r, op.used).Got?
    requires n == Wrap16(r.availIdx - r.lastUsedIdx) && 0 < n <= |log|
    ensures GetResult(r, op.used).id == log[|log| - n]
  {
  }

  // So while buffers come back in the order they were published, no add overwrites the entry of one
  // in flight.
  lemma InOrderNeverOverwrites(states: seq<Ring>, ops: seq<Op>, k: nat, h: nat)
    requires IsRun(states, ops) && k < |ops| && InUse(ops, k) && InOrder(states, ops, k) && IsHead(states[k], h)
    requires PublishedBy(states[k], ops[k]) != []
    ensures |states[k + 1].avail| == states[k + 1].Num() > 0 && h in Published(states, ops, k)
    ensures EntryAt(states[k + 1], LastOf(Published(states, ops, k), h)) == h
  {
    RunOverwritesIff(states, ops, k, h);
    var g := RunHistory(states, ops, k);
    var r, p := states[k], LastOf(g.log, h);
    RoomToAdd(r, g, ops[k]);
    assert h in g.chains;
    assert h in g.log[|g.log| - |g.chains.Keys|..];
    LastInWindow(g.log, |g.chains.Keys|, h);
  }

  lemma LastInWindow(log: seq<nat>, n: nat, h: nat)
    requires n <= |log| && h in log[|log| - n..]
    ensures h in log && LastOf(log, h) >= |log| - n
  {
    var i :| 0 <= i < n && log[|log| - n..][i] == h;
    assert log[|log| - n + i] == h;
  }

  lemma RoomToAdd(r: Ring, g: Shape, op: Op)
    requires Inv(r, g) && PublishedBy(r, op) != []
    ensures |g.chains.Keys| < r.Num()
  {
    InFlightBound(r, g);
    assert |g.chains.Keys| == |g.chains|;
  }
}
