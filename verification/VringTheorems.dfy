/**
 The promises of the split virtqueue over whole runs: any sequence of driver operations,
 any used-ring contents, any kmalloc results.
 */
module VringTheorems {
  import opened Words
  import opened Basics
  import opened Vring
  import opened VringInvariant
  import opened VringSteps

  /* ---- runs ---- */

  datatype Op =
    | OpAdd(elems: seq<Elem>, hasOut: bool, token: nat, kmalloc: Option<nat>, dev: KickView)
    | OpGet(used: UsedView)
    | OpKick(dev: KickView)
    | OpDisableCb
    | OpEnableCb
    | OpEnableCbDelayed
    | OpDetachUnused

  predicate Legal(r: Ring, op: Op)
  {
    && |r.data| == |r.avail| == r.Num() > 0
    && (op.OpAdd? ==> FreshTable(r, op.kmalloc))
    && (op.OpGet? ==> |op.used.ring| == r.Num())
  }

  function Step(r: Ring, op: Op): Ring
    requires Legal(r, op)
  {
    match op
    case OpAdd(elems, hasOut, token, kmalloc, dev) => Add(r, elems, hasOut, token, kmalloc, dev)
    case OpGet(used) => GetBuf(r, used)
    case OpKick(dev) => Kick(r, dev)
    case OpDisableCb => DisableCb(r)
    case OpEnableCb => EnableCb(r)
    case OpEnableCbDelayed => EnableCbDelayed(r)
    case OpDetachUnused => DetachUnused(r)
  }

  predicate StepsTo(r: Ring, op: Op, r': Ring)
  {
    Legal(r, op) && r' == Step(r, op)
  }

  ghost predicate IsNew(r: Ring)
  {
    exists num: nat, event, indirect, callback :: RingSize(num) && r == Init(num, event, indirect, callback)
  }

  predicate StepAt(states: seq<Ring>, ops: seq<Op>, i: nat)
    requires i < |ops| && |states| == |ops| + 1
  {
    StepsTo(states[i], ops[i], states[i + 1])
  }

  // A run from a new queue: states[i + 1] is states[i] after ops[i].
  ghost predicate IsRun(states: seq<Ring>, ops: seq<Op>)
  {
    && |states| == |ops| + 1
    && IsNew(states[0])
    && (forall i :: 0 <= i < |ops| ==> StepAt(states, ops, i))
  }

  function StepShape(r: Ring, g: Shape, op: Op): Shape
    requires Sized(r, g) && Legal(r, op)
  {
    match op
    case OpAdd(elems, hasOut, token, kmalloc, dev) => AddShape(r, g, elems, token, kmalloc)
    case OpGet(used) => GetShape(r, g, used)
    case OpDetachUnused => DetachUnusedShape(r, g)
    case _ => g
  }

  lemma StepInv(r: Ring, g: Shape, op: Op)
    requires Inv(r, g) && Legal(r, op)
    ensures Inv(Step(r, op), StepShape(r, g, op))
  {
    if op.OpAdd? {
      AddInv(r, g, op.elems, op.hasOut, op.token, op.kmalloc, op.dev);
    } else if op.OpGet? {
      GetInv(r, g, op.used);
    } else if op.OpDetachUnused? {
      DetachUnusedInv(r, g);
    } else {
      IndexStep(r, op);
      IndexOnlyInv(r, g, Step(r, op));
    }
  }

  lemma IndexStep(r: Ring, op: Op)
    requires Legal(r, op) && !op.OpAdd? && !op.OpGet? && !op.OpDetachUnused?
    ensures var r' := Step(r, op);
      && r' == r.(noInterrupt := r'.noInterrupt, usedEvent := r'.usedEvent, numAdded := r'.numAdded,
                  notifies := r'.notifies)
      && r'.numAdded <= r.numAdded
  {
  }

  // Every state of every run is a ring with Inv.
  lemma {:induction false} RunInv(states: seq<Ring>, ops: seq<Op>, k: nat) returns (g: Shape)
    requires IsRun(states, ops) && k < |states|
    ensures Inv(states[k], g)
  {
    if k == 0 {
      var num: nat, event, indirect, callback :|
        RingSize(num) && states[0] == Init(num, event, indirect, callback);
      InitInv(num, event, indirect, callback);
      g := InitShape(num);
    } else {
      var before := RunInv(states, ops, k - 1);
      assert StepAt(states, ops, k - 1);
      StepInv(states[k - 1], before, ops[k - 1]);
      g := StepShape(states[k - 1], before, ops[k - 1]);
    }
  }

  /* ---- the descriptor table is partitioned ---- */

  predicate IsHead(r: Ring, h: nat) { h < |r.data| && r.data[h] != 0 }

  function FreeCells(r: Ring): seq<nat> { Walk(r.desc, r.freeHead, r.numFree) }

  predicate NoRepeats(cells: seq<nat>) { forall i, j :: 0 <= i < j < |cells| ==> cells[i] != cells[j] }

  // Per token, the descriptors the driver finds following NEXT from its head.
  function Chains(r: Ring): map<nat, seq<nat>>
  {
    map h | 0 <= h < |r.data| && r.data[h] != 0 :: ChainOf(r, h)
  }

  // The lists repeat no descriptor, share none, and cover exactly [0, n).
  ghost predicate Partition(n: nat, free: seq<nat>, chains: map<nat, seq<nat>>)
  {
    && NoRepeats(free)
    && (forall h :: h in chains ==> NoRepeats(chains[h]) && h in chains[h])
    && (forall h, x :: h in chains && x in chains[h] ==> x < n && x !in free)
    && (forall h, o, x :: h in chains && o in chains && x in chains[h] && x in chains[o] ==> h == o)
    && (forall x :: x in free ==> x < n)
    && (forall x: nat :: x < n && x !in free ==> exists h :: h in chains && x in chains[h])
    && |free| + ChainTotal(chains, n) == n
  }

  // The first num_free steps from free_head and one chain per token partition the table.
  ghost predicate Partitioned(r: Ring)
  {
    |FreeCells(r)| == r.numFree && Partition(r.Num(), FreeCells(r), Chains(r))
  }

  lemma FreeCellsAre(r: Ring, g: Shape)
    requires Inv(r, g)
    ensures FreeCells(r) == g.free
  {
    if r.numFree > 0 { WalkIsFree(r, g, 0, r.numFree); }
  }

  lemma ChainsAre(r: Ring, g: Shape)
    requires Inv(r, g)
    ensures Chains(r) == g.chains
  {
    forall h | IsHead(r, h)
      ensures h in g.chains && ChainOf(r, h) == g.chains[h]
    {
      ChainIs(r, g, h);
    }
    forall h | h in g.chains
      ensures IsHead(r, h)
    {
      assert ChainOk(r, g, h);
    }
  }

  lemma ChainOnce(n: nat, g: Shape, h: nat)
    requires |g.owner| == |g.pos| == n && h in g.chains && Owned(n, g, h)
    ensures NoRepeats(g.chains[h]) && h in g.chains[h]
    ensures forall x :: x in g.chains[h] ==> x < n && g.owner[x] == Some(h)
  {
    var cells := g.chains[h];
    assert cells[0] == h;
    forall i, j | 0 <= i < j < |cells|
      ensures cells[i] != cells[j]
    {
      assert g.pos[cells[i]] == i && g.pos[cells[j]] == j;
    }
  }

  lemma FreeOnce(r: Ring, g: Shape)
    requires Inv(r, g)
    ensures NoRepeats(g.free)
    ensures forall x :: x in g.free ==> x < r.Num() && g.owner[x] == None
  {
    forall i, j | 0 <= i < j < |g.free|
      ensures g.free[i] != g.free[j]
    {
      assert g.pos[g.free[i]] == i && g.pos[g.free[j]] == j;
    }
  }

  lemma ShapePartition(r: Ring, g: Shape)
    requires Inv(r, g)
    ensures Partition(r.Num(), g.free, g.chains)
  {
    FreeOnce(r, g);
    forall h | h in g.chains
      ensures NoRepeats(g.chains[h]) && h in g.chains[h]
      ensures forall x :: x in g.chains[h] ==> x < r.Num() && g.owner[x] == Some(h)
    {
      assert ChainOk(r, g, h);
      ChainOnce(r.Num(), g, h);
    }
    forall x: nat | x < r.Num() && x !in g.free
      ensures exists h :: h in g.chains && x in g.chains[h]
    {
      assert Placed(g, x);
      assert g.chains[g.owner[x].value][g.pos[x]] == x;
    }
  }

  lemma PartitionOf(r: Ring, g: Shape)
    requires Inv(r, g)
    ensures Partitioned(r)
  {
    FreeCellsAre(r, g);
    ChainsAre(r, g);
    ShapePartition(r, g);
  }

  lemma RunPartition(states: seq<Ring>, ops: seq<Op>, k: nat)
    requires IsRun(states, ops) && k < |states|
    ensures Partitioned(states[k])
  {
    var g := RunInv(states, ops, k);
    PartitionOf(states[k], g);
  }

  // So the last check of virtqueue_detach_unused_buf cannot fail.
  lemma NoTokensAllFree(r: Ring, g: Shape)
    requires Inv(r, g) && FirstHead(r.data, 0) == |r.data|
    ensures r.numFree == r.Num() && r.tables == map[]
  {
    forall h | h in g.chains
      ensures IsHead(r, h)
    {
      assert ChainOk(r, g, h);
    }
    assert g.chains == map[];
    NoChains(r.Num());
    assert g.tabs == map[];
  }

  /* ---- what virtqueue_add answers ---- */

  // k descriptors of the free list hold the request now, and it has one more head, with the token.
  predicate TookRoom(r: Ring, r': Ring, k: nat, token: nat, res: AddResult)
    requires |r.avail| > 0
  {
    && res == Added(r.freeHead) && r.freeHead < |r.data| && r'.data == r.data[r.freeHead := token]
    && k <= r.numFree && r'.numFree == r.numFree - k
    && r'.avail == r.avail[Slot(r.availIdx, |r.avail|) := r.freeHead] && r'.availIdx == Wrap16(r.availIdx + 1)
    && r'.lastUsedIdx == r.lastUsedIdx && r'.broken == r.broken
    && r'.numAdded == (if r.numAdded + 1 == 0xffff then 0 else r.numAdded + 1)   // kicked, or counted
  }

  // A request of n elements goes through a table of its own, taking one descriptor, where the device
  // takes these, it has more than two, and there is a descriptor and memory for it. Otherwise it takes
  // n; with too few free it is refused, one notification being sent if it has out lists, and with
  // none, or more than the ring has at all, it is a bug. Only an added request changes anything else.
  predicate Answers(r: Ring, n: nat, hasOut: bool, token: nat, memory: bool, r': Ring, res: AddResult)
    requires |r.avail| > 0
  {
    var table := r.indirect && n > 2 && r.numFree > 0 && memory;
    && (token == 0 ==> res == Bug && r' == r)
    && (token != 0 && table ==> TookRoom(r, r', 1, token, res))
    && (token != 0 && !table && (n == 0 || n > r.Num()) ==> res == Bug && r' == r)
    && (token != 0 && !table && 1 <= n <= r.Num() && n <= r.numFree ==> TookRoom(r, r', n, token, res))
    && (token != 0 && !table && r.numFree < n <= r.Num() && n > 0 ==>
          res == NoSpace && r' == r.(notifies := r.notifies + if hasOut then 1 else 0))
  }

  lemma AddAnswers(r: Ring, elems: seq<Elem>, hasOut: bool, token: nat, kmalloc: Option<nat>, dev: KickView)
    requires |r.data| == |r.avail| == r.Num() > 0 && (r.numFree > 0 ==> r.freeHead < r.Num())
    ensures Answers(r, |elems|, hasOut, token, kmalloc.Some?,
                    Add(r, elems, hasOut, token, kmalloc, dev), AddOutcome(r, elems, token, kmalloc))
  {
    if AddOutcome(r, elems, token, kmalloc).Added? {
      if GoesIndirect(r, elems, kmalloc) {
        var f := FillIndirect(r, elems, kmalloc.value);
        assert f.numFree == r.numFree - 1 && f.data == r.data && f.avail == r.avail;
        PublishRoom(r, f, 1, token, dev);
      } else {
        FillDirectRoom(r, elems);
        PublishRoom(r, FillDirect(r, elems), |elems|, token, dev);
      }
    }
  }

  lemma FillDirectRoom(r: Ring, elems: seq<Elem>)
    requires 0 < |elems| <= r.numFree
    ensures var f := FillDirect(r, elems);
      && f.numFree == r.numFree - |elems| && f.data == r.data && f.avail == r.avail && f.availIdx == r.availIdx
      && f.lastUsedIdx == r.lastUsedIdx && f.broken == r.broken && f.numAdded == r.numAdded
  {
  }

  lemma PublishRoom(r: Ring, f: Ring, k: nat, token: nat, dev: KickView)
    requires |r.avail| > 0 && r.freeHead < |r.data| && k <= r.numFree
    requires f.numFree == r.numFree - k && f.data == r.data && f.avail == r.avail && f.availIdx == r.availIdx
    requires f.lastUsedIdx == r.lastUsedIdx && f.broken == r.broken && f.numAdded == r.numAdded
    ensures TookRoom(r, Publish(f, r.freeHead, token, dev), k, token, Added(r.freeHead))
  {
  }

  // What virtqueue_get_buf answers: nothing on a broken queue or with nothing new in the used ring; an
  // entry that names no descriptor of the ring, or one without a token, breaks the queue and changes
  // nothing else; any other gives its head, whose token is forgotten.
  predicate GetAnswered(r: Ring, used: UsedView, r': Ring, res: GetOutcome)
    requires |used.ring| == |r.data| > 0
  {
    var id := used.ring[Slot(r.lastUsedIdx, |used.ring|)].id;
    if r.broken || used.idx == r.lastUsedIdx then res == Nothing && r' == r
    else if id >= |r.data| || r.data[id] == 0 then res == BadId && r' == r.(broken := true)
    else
      && res == Got(id) && r'.data == r.data[id := 0] && r'.lastUsedIdx == Wrap16(r.lastUsedIdx + 1)
      && r'.numFree > r.numFree && !r'.broken && r'.avail == r.avail && r'.availIdx == r.availIdx
  }

  lemma GetAnswers(r: Ring, used: UsedView)
    requires |used.ring| == |r.data| == |r.desc| > 0
    ensures GetAnswered(r, used, GetBuf(r, used), GetResult(r, used))
  {
    if GetResult(r, used).Got? { GotMore(r, GetResult(r, used).id); }
  }

  lemma GotMore(r: Ring, h: nat)
    requires h < r.Num() == |r.data|
    ensures Detach(r, h).numFree > r.numFree && Detach(r, h).data == r.data[h := 0]
  {
  }

  /* ---- decoding ---- */

  lemma {:induction false} DecodeDirect(r: Ring, g: Shape, h: nat, i: nat, fuel: nat)
    requires Sized(r, g) && h in g.chains && h in g.bufs && ChainOk(r, g, h) && !r.desc[h].flags.indirect
    requires i < |g.chains[h]| && |g.chains[h]| - i <= fuel
    ensures DecodeChain(r.desc, g.chains[h][i], fuel) == Some(g.bufs[h][i..])
    decreases fuel
  {
    var cells, buf := g.chains[h], g.bufs[h];
    assert Holds(r.desc[cells[i]], buf[i], i + 1 < |cells|);
    if i + 1 < |cells| {
      assert Link(r.desc, cells, i);
      DecodeDirect(r, g, h, i + 1, fuel - 1);
      assert [buf[i]] + buf[i + 1..] == buf[i..];
    } else {
      assert buf[i..] == [buf[i]];
    }
  }

  lemma {:induction false} DecodeIndirect(buf: seq<Elem>, i: nat, fuel: nat)
    requires i < |buf| <= TWO_16 && |buf| - i <= fuel
    ensures DecodeChain(IndirectTable(buf), i, fuel) == Some(buf[i..])
    decreases fuel
  {
    if i + 1 < |buf| {
      DecodeIndirect(buf, i + 1, fuel - 1);
      assert [buf[i]] + buf[i + 1..] == buf[i..];
    } else {
      assert buf[i..] == [buf[i]];
    }
    assert IndirectTable(buf)[i] == IndirectDesc(buf, i);
  }

  // next is a u16: past 2^16 entries the table runs in circles.
  lemma {:induction false} DecodeWrapped(buf: seq<Elem>, i: nat, fuel: nat)
    requires |buf| > TWO_16 && i < TWO_16
    ensures DecodeChain(IndirectTable(buf), i, fuel) == None
    decreases fuel
  {
    if fuel > 0 { DecodeWrapped(buf, Wrap16(i + 1), fuel - 1); }
  }

  lemma DecodeTable(r: Ring, g: Shape, h: nat)
    requires h < r.Num() && h in g.chains && h in g.bufs && g.bufs[h] != [] && IndirectOk(r, g, h)
    ensures Decode(r, h) == if |g.bufs[h]| <= TWO_16 then Some(g.bufs[h]) else None
  {
    var buf := g.bufs[h];
    if |buf| <= TWO_16 {
      DecodeIndirect(buf, 0, |buf|);
    } else {
      DecodeWrapped(buf, 0, |buf|);
    }
  }

  // What a device reads at an in-flight head is the request, unless that has over 2^16 elements.
  lemma DecodeInFlight(r: Ring, g: Shape, h: nat)
    requires Inv(r, g) && h in g.chains
    ensures Decode(r, h) == if |g.bufs[h]| <= TWO_16 then Some(g.bufs[h]) else None
  {
    assert ChainOk(r, g, h);
    DecodeChained(r, g, h);
  }

  lemma DecodeChained(r: Ring, g: Shape, h: nat)
    requires Sized(r, g) && h in g.chains && h in g.bufs && ChainOk(r, g, h)
    ensures Decode(r, h) == if |g.bufs[h]| <= TWO_16 then Some(g.bufs[h]) else None
  {
    if r.desc[h].flags.indirect {
      DecodeTable(r, g, h);
    } else {
      DecodeDirect(r, g, h, 0, r.Num());
    }
  }

  lemma AddedIs(r: Ring, g: Shape, elems: seq<Elem>, token: nat, kmalloc: Option<nat>)
    requires Inv(r, g) && AddOutcome(r, elems, token, kmalloc).Added?
    ensures var k := if GoesIndirect(r, elems, kmalloc) then 1 else |elems|;
      0 < k <= |g.free| && AddShape(r, g, elems, token, kmalloc) ==
        (if GoesIndirect(r, elems, kmalloc) then TakenIndirect(r, g, elems, kmalloc.value) else Taken(g, k, elems)).(
          log := g.log + [r.freeHead])
  {
  }

  lemma TakenMaps(g: Shape, k: nat, elems: seq<Elem>)
    requires 0 < k <= |g.free| && |g.owner| == |g.pos|
    ensures Taken(g, k, elems).chains.Keys == g.chains.Keys + {g.free[0]}
    ensures Taken(g, k, elems).bufs == g.bufs[g.free[0] := elems]
  {
  }

  lemma AddedShape(r: Ring, g: Shape, elems: seq<Elem>, token: nat, kmalloc: Option<nat>)
    requires Inv(r, g) && AddOutcome(r, elems, token, kmalloc).Added?
    ensures var g' := AddShape(r, g, elems, token, kmalloc);
      && g.free != [] && r.freeHead == g.free[0] && r.freeHead !in g.chains
      && g'.chains.Keys == g.chains.Keys + {r.freeHead}
      && g'.bufs == g.bufs[r.freeHead := elems]
  {
    AddedIs(r, g, elems, token, kmalloc);
    FreeHeadUnowned(r, g);
    TakenMaps(g, if GoesIndirect(r, elems, kmalloc) then 1 else |elems|, elems);
  }

  // A published request is decoded as its out elements, then its in elements, WRITE set on
  // the in part only -- by chain or by table, and exactly when it has at most 2^16 elements.
  lemma AddedRequestDecodes(r: Ring, g: Shape, lists: seq<seq<Sg>>, outSgs: nat, token: nat,
                            kmalloc: Option<nat>, dev: KickView)
    requires Inv(r, g) && FreshTable(r, kmalloc) && outSgs <= |lists|
    requires AddOutcome(r, Request(lists, outSgs), token, kmalloc).Added?
    ensures var r' := Add(r, Request(lists, outSgs), outSgs > 0, token, kmalloc, dev);
      var outs, ins := Flatten(lists[..outSgs]), Flatten(lists[outSgs..]);
      && r.freeHead < |r'.data| && r'.data[r.freeHead] == token
      && (Decode(r', r.freeHead) == Some(Tag(outs, false) + Tag(ins, true)) <==> |outs| + |ins| <= TWO_16)
  {
    var elems := Request(lists, outSgs);
    AddInv(r, g, elems, outSgs > 0, token, kmalloc, dev);
    AddedShape(r, g, elems, token, kmalloc);
    DecodeInFlight(Add(r, elems, outSgs > 0, token, kmalloc, dev), AddShape(r, g, elems, token, kmalloc), r.freeHead);
    AddSetsToken(r, g, elems, outSgs > 0, token, kmalloc, dev);
  }

  // A longer request is accepted too, where it goes to a table of its own; a device going through that
  // table never comes to its end.
  lemma LongRequestLost(num: nat, event: bool, callback: bool, sgs: seq<Sg>, token: nat, at: nat, dev: KickView)
    requires RingSize(num) && |sgs| > TWO_16 && token != 0
    ensures var r := Init(num, event, true, callback);
      && AddOutcome(r, Request([sgs], 1), token, Some(at)) == Added(0)
      && Decode(Add(r, Request([sgs], 1), true, token, Some(at), dev), 0) == None
  {
    var r, g, elems := Init(num, event, true, callback), InitShape(num), Request([sgs], 1);
    assert [sgs][..1] == [sgs] && [sgs][..0] == [] && [sgs][1..] == [];
    assert Flatten([sgs]) == Flatten([]) + sgs == sgs;
    assert |elems| == |sgs|;
    InitInv(num, event, true, callback);
    AddInv(r, g, elems, true, token, Some(at), dev);
    AddedShape(r, g, elems, token, Some(at));
    DecodeInFlight(Add(r, elems, true, token, Some(at), dev), AddShape(r, g, elems, token, Some(at)), 0);
  }

  lemma AddSetsToken(r: Ring, g: Shape, elems: seq<Elem>, hasOut: bool, token: nat, kmalloc: Option<nat>, dev: KickView)
    requires Inv(r, g) && AddOutcome(r, elems, token, kmalloc).Added?
    ensures r.freeHead < r.Num()
    ensures Add(r, elems, hasOut, token, kmalloc, dev).data == r.data[r.freeHead := token]
  {
    assert g.free[0] < r.Num();
    if GoesIndirect(r, elems, kmalloc) {
      PublishData(FillIndirect(r, elems, kmalloc.value), r.freeHead, token, dev);
    } else {
      PublishData(FillDirect(r, elems), r.freeHead, token, dev);
    }
  }

  lemma PublishData(r: Ring, head: nat, token: nat, dev: KickView)
    requires |r.avail| > 0 && head < |r.data|
    ensures Publish(r, head, token, dev).data == r.data[head := token]
  {
  }

  // An operation leaves the decoding of every head that stays in flight alone.
  lemma DecodingIsStable(r: Ring, g: Shape, op: Op, h: nat)
    requires Inv(r, g) && Legal(r, op)
    requires IsHead(r, h) && IsHead(Step(r, op), h)
    ensures Decode(Step(r, op), h) == Decode(r, h)
  {
    var r', g' := Step(r, op), StepShape(r, g, op);
    StepInv(r, g, op);
    assert h in g.chains && h in g'.chains;
    assert g'.bufs[h] == g.bufs[h] by {
      StableBufs(r, g, op, h);
    }
    DecodeInFlight(r, g, h);
    DecodeInFlight(r', g', h);
  }

  lemma StableBufs(r: Ring, g: Shape, op: Op, h: nat)
    requires Inv(r, g) && Legal(r, op)
    requires h in g.chains && h in StepShape(r, g, op).chains
    ensures h in g.bufs && h in StepShape(r, g, op).bufs && StepShape(r, g, op).bufs[h] == g.bufs[h]
  {
    assert ChainOk(r, g, h);
    if op.OpAdd? {
      if AddOutcome(r, op.elems, op.token, op.kmalloc).Added? { AddedShape(r, g, op.elems, op.token, op.kmalloc); }
    } else {
      BufsOnlyGo(r, g, op, h);
    }
  }

  lemma BufsOnlyGo(r: Ring, g: Shape, op: Op, h: nat)
    requires Sized(r, g) && Legal(r, op) && !op.OpAdd? && h in g.chains && h in g.bufs
    requires h in StepShape(r, g, op).chains
    ensures h in StepShape(r, g, op).bufs && StepShape(r, g, op).bufs[h] == g.bufs[h]
  {
  }
}
