/** The driver side of virtio_ring.c in place: each method against the operation of Vring it performs. */
module VirtqueueDriver {
  import opened Words
  import opened Basics
  import opened Vring
  import opened VringInvariant
  import opened VringSteps
  import opened VringTheorems

  /* ---- descriptors that are written one after the other ---- */

  ghost predicate CellsOk(desc: seq<Desc>, cells: seq<nat>)
  {
    && cells != []
    && (forall k :: 0 <= k < |cells| ==> cells[k] < |desc|)
    && (forall j, k :: 0 <= j < k < |cells| ==> cells[j] != cells[k])
    && (forall k :: 0 <= k < |cells| - 1 ==> Link(desc, cells, k))
  }

  // The descriptor reached after k steps along cells.
  ghost function At(desc: seq<Desc>, cells: seq<nat>, k: nat): nat
    requires CellsOk(desc, cells) && k <= |cells|
  {
    if k < |cells| then cells[k] else desc[cells[|cells| - 1]].next
  }

  // The table d while cells are being written: `done` is there, i comes next, prev came last.
  ghost predicate Progress(d: seq<Desc>, d0: seq<Desc>, cells: seq<nat>, done: seq<Elem>, i: nat, prev: nat)
    requires CellsOk(d0, cells)
  {
    && |done| <= |cells|
    && d == Filled(d0, cells[..|done|], done)
    && i == At(d0, cells, |done|)
    && (done != [] ==> prev == cells[|done| - 1])
  }

  lemma ProgressNext(d: seq<Desc>, d0: seq<Desc>, cells: seq<nat>, done: seq<Elem>, i: nat, prev: nat, e: Elem)
    requires CellsOk(d0, cells) && Progress(d, d0, cells, done, i, prev) && |done| < |cells|
    ensures i < |d| && Progress(d[i := Written(d[i], e)], d0, cells, done + [e], d[i].next, i)
  {
    var k := |done|;
    FilledAt(d0, cells[..k], done);
    assert cells[k] !in cells[..k];
    assert cells[..k + 1][..k] == cells[..k] && (done + [e])[..k] == done;
    assert k + 1 < |cells| ==> Link(d0, cells, k);
  }

  lemma ProgressEnds(d: seq<Desc>, d0: seq<Desc>, cells: seq<nat>, all: seq<Elem>, i: nat, prev: nat)
    requires CellsOk(d0, cells) && Progress(d, d0, cells, all, i, prev) && |all| == |cells|
    ensures d == Filled(d0, cells, all) && prev == cells[|cells| - 1] < |d| && i == d[prev].next
  {
    assert cells[..|cells|] == cells;
    FilledAt(d0, cells, all);
  }

  lemma TagAppend(a: seq<Sg>, b: seq<Sg>, write: bool)
    ensures Tag(a + b, write) == Tag(a, write) + Tag(b, write)
  {
  }

  lemma TagNext(sgs: seq<Sg>, k: nat, write: bool, done: seq<Elem>)
    requires k < |sgs|
    ensures done + Tag(sgs[..k + 1], write) == (done + Tag(sgs[..k], write)) + [Elem(sgs[k].addr, sgs[k].len, write)]
  {
    assert sgs[..k + 1] == sgs[..k] + [sgs[k]];
    TagAppend(sgs[..k], [sgs[k]], write);
    assert Tag([sgs[k]], write) == [Elem(sgs[k].addr, sgs[k].len, write)];
  }

  lemma FlattenNext(lists: seq<seq<Sg>>, n: nat)
    requires n < |lists|
    ensures Flatten(lists[..n + 1]) == Flatten(lists[..n]) + lists[n]
  {
    assert lists[..n + 1][..n] == lists[..n];
  }

  /* ---- what the methods need of a ring; Inv gives it ---- */

  // In a chain, the NEXT flag says whether there is a further descriptor.
  ghost predicate ChainStep(desc: seq<Desc>, cells: seq<nat>, k: nat)
  {
    k < |cells| && cells[k] < |desc|
    && desc[cells[k]].flags.next == (k + 1 < |cells|)
    && (k + 1 < |cells| ==> desc[cells[k]].next == cells[k + 1])
  }

  ghost predicate IsChain(desc: seq<Desc>, cells: seq<nat>)
  {
    cells != [] && forall k :: 0 <= k < |cells| ==> ChainStep(desc, cells, k)
  }

  ghost predicate Ready(r: Ring)
  {
    && (forall k :: 0 < k <= r.numFree ==> FreeRun(r, k))
    && (forall h :: IsHead(r, h) ==> HeadReady(r, h))
    && (FirstHead(r.data, 0) == |r.data| ==> r.numFree == r.Num())
  }

  ghost predicate FreeRun(r: Ring, k: nat)
  {
    |Walk(r.desc, r.freeHead, k)| == k && CellsOk(r.desc, Walk(r.desc, r.freeHead, k))
  }

  ghost predicate HeadReady(r: Ring, h: nat)
  {
    IsChain(r.desc, ChainOf(r, h)) && ChainOf(r, h)[0] == h
  }

  lemma FreeRunOk(r: Ring, g: Shape, k: nat)
    requires Layout(r, g) && 0 < k <= |g.free|
    ensures FreeRun(r, k)
  {
    FreeFront(r, g, k);
  }

  lemma FreeFront(r: Ring, g: Shape, k: nat)
    requires |g.owner| == |g.pos| == r.Num() && FreeOk(r, g) && 0 < k <= |g.free|
    ensures FreeRun(r, k)
  {
    var cells := g.free[..k];
    WalkIsFree(r, g, 0, k);
    forall i, j | 0 <= i < j < k
      ensures cells[i] != cells[j]
    {
      assert g.pos[g.free[i]] == i && g.pos[g.free[j]] == j;
    }
    forall j | 0 <= j < k - 1
      ensures Link(r.desc, cells, j)
    {
      assert Link(r.desc, g.free, j);
    }
  }

  lemma ChainSteps(r: Ring, g: Shape, h: nat)
    requires Layout(r, g) && h in g.chains
    ensures HeadReady(r, h)
  {
    ChainIs(r, g, h);
    assert ChainOk(r, g, h);
    forall k | 0 <= k < |g.chains[h]|
      ensures ChainStep(r.desc, g.chains[h], k)
    {
      if !r.desc[h].flags.indirect {
        assert Holds(r.desc[g.chains[h][k]], g.bufs[h][k], k + 1 < |g.chains[h]|);
        assert k + 1 < |g.chains[h]| ==> Link(r.desc, g.chains[h], k);
      }
    }
  }

  lemma InvIsReady(r: Ring, g: Shape)
    requires Inv(r, g)
    ensures Ready(r)
  {
    forall k | 0 < k <= r.numFree
      ensures FreeRun(r, k)
    {
      FreeRunOk(r, g, k);
    }
    forall h | IsHead(r, h)
      ensures HeadReady(r, h)
    {
      ChainSteps(r, g, h);
    }
    if FirstHead(r.data, 0) == |r.data| { NoTokensAllFree(r, g); }
  }

  /* ---- an indirect table while it is being filled ---- */

  ghost function OpenEntry(elems: seq<Elem>, i: nat): Desc
    requires i < |elems|
  {
    Desc(elems[i].addr, elems[i].len, Flags(true, elems[i].write, false), Wrap16(i + 1))
  }

  method FillTable(table: array<Desc>, sgs: seq<Sg>, write: bool, start: nat, ghost done: seq<Elem>) returns (i: nat)
    requires start == |done| && start + |sgs| <= table.Length
    requires forall j :: 0 <= j < start ==> table[j] == OpenEntry(done, j)
    modifies table
    ensures i == start + |sgs|
    ensures forall j :: 0 <= j < i ==> table[j] == OpenEntry(done + Tag(sgs, write), j)
  {
    i := start;
    var k := 0;
    ghost var all := done + Tag(sgs, write);
    while k < |sgs|
      invariant 0 <= k <= |sgs| && i == start + k
      invariant forall j :: 0 <= j < i ==> table[j] == OpenEntry(all, j)
    {
      table[i] := Desc(sgs[k].addr, sgs[k].len, Flags(true, write, false), Wrap16(i + 1));
      i, k := i + 1, k + 1;
    }
  }

  method FillTableLists(table: array<Desc>, lists: seq<seq<Sg>>, write: bool,
                        start: nat, ghost done: seq<Elem>) returns (i: nat)
    requires start == |done| && start + |Flatten(lists)| <= table.Length
    requires forall j :: 0 <= j < start ==> table[j] == OpenEntry(done, j)
    modifies table
    ensures i == start + |Flatten(lists)|
    ensures forall j :: 0 <= j < i ==> table[j] == OpenEntry(done + Tag(Flatten(lists), write), j)
  {
    i := start;
    var n := 0;
    ghost var all := done;
    while n < |lists|
      invariant 0 <= n <= |lists| && all == done + Tag(Flatten(lists[..n]), write)
      invariant i == |all| <= table.Length
      invariant forall j :: 0 <= j < i ==> table[j] == OpenEntry(all, j)
    {
      FlattenStep(lists, n, write);
      i := FillTable(table, lists[n], write, i, all);
      n, all := n + 1, all + Tag(lists[n], write);
    }
    assert lists[..n] == lists;
  }

  method BuildTable(lists: seq<seq<Sg>>, outSgs: nat, totalSg: nat) returns (table: array<Desc>)
    requires outSgs <= |lists| && totalSg == |Request(lists, outSgs)| > 0
    ensures fresh(table)
    ensures table[..] == IndirectTable(Request(lists, outSgs))
  {
    table := new Desc[totalSg](_ => Desc(0, 0, Flags(false, false, false), 0));
    ghost var outs := Tag(Flatten(lists[..outSgs]), false);
    ghost var all := Request(lists, outSgs);
    assert [] + outs == outs;
    var i := FillTableLists(table, lists[..outSgs], false, 0, []);
    i := FillTableLists(table, lists[outSgs..], true, i, outs);
    // Last one doesn't continue.
    table[i - 1] := table[i - 1].(flags := table[i - 1].flags.(next := false), next := 0);
    forall j | 0 <= j < i
      ensures table[j] == IndirectDesc(all, j)
    {
      assert j < i - 1 ==> table[j] == OpenEntry(all, j);
    }
    assert table[..] == IndirectTable(all);
  }

  lemma FlattenStep(lists: seq<seq<Sg>>, n: nat, write: bool)
    requires n < |lists|
    ensures Tag(Flatten(lists[..n + 1]), write) == Tag(Flatten(lists[..n]), write) + Tag(lists[n], write)
    ensures |Flatten(lists[..n])| + |lists[n]| <= |Flatten(lists)|
  {
    FlattenNext(lists, n);
    TagAppend(Flatten(lists[..n]), lists[n], write);
    FlattenPrefix(lists, n + 1);
  }

  ghost function Laid(r: Ring, elems: seq<Elem>, hasOut: bool, token: nat, kmalloc: Option<nat>): Ring
  {
    match AddOutcome(r, elems, token, kmalloc)
    case Bug => r
    case NoSpace => if hasOut then Notify(r) else r
    case Added(_) =>
      if GoesIndirect(r, elems, kmalloc) then FillIndirect(r, elems, kmalloc.value)
      else if elems == [] then r else FillDirect(r, elems)
  }

  lemma ReadyHead(r: Ring)
    requires Ready(r)
    ensures r.numFree > 0 ==> FreeRun(r, 1) && r.freeHead < r.Num()
  {
  }

  lemma ListsStep(lists: seq<seq<Sg>>, n: nat, write: bool, done: seq<Elem>, room: nat)
    requires n < |lists| && |done| + |Flatten(lists)| <= room
    ensures var all := done + Tag(Flatten(lists[..n]), write);
      && done + Tag(Flatten(lists[..n + 1]), write) == all + Tag(lists[n], write)
      && |all| + |lists[n]| <= room
  {
    FlattenStep(lists, n, write);
  }

  lemma {:induction false} FlattenPrefix(lists: seq<seq<Sg>>, n: nat)
    requires n <= |lists|
    ensures |Flatten(lists[..n])| <= |Flatten(lists)|
    decreases |lists| - n
  {
    if n < |lists| {
      FlattenPrefix(lists, n + 1);
      assert lists[..n + 1][..n] == lists[..n];
    } else {
      assert lists[..n] == lists;
    }
  }

  ghost function Spliced(r: Ring, h: nat, cells: seq<nat>): Ring
    requires IsChain(r.desc, cells) && h == cells[0] < |r.desc| && |r.data| == |r.desc|
  {
    var last := cells[|cells| - 1];
    r.(data := r.data[h := 0],
       tables := if r.desc[h].flags.indirect then r.tables - {r.desc[h].addr} else r.tables,
       desc := if last < |r.desc| then r.desc[last := r.desc[last].(next := r.freeHead)] else r.desc,
       freeHead := h, numFree := r.numFree + |cells|)
  }

  lemma DetachIs(r: Ring, h: nat)
    requires h < r.Num() && |r.data| == r.Num() && HeadReady(r, h)
    ensures Detach(r, h) == Spliced(r, h, ChainOf(r, h))
  {
    assert ChainStep(r.desc, ChainOf(r, h), |ChainOf(r, h)| - 1);
  }

  lemma GotIs(r: Ring, used: UsedView, i: nat)
    requires |used.ring| == |r.data| == |r.desc| > 0
    requires !r.broken && r.lastUsedIdx != used.idx && i == used.ring[Slot(r.lastUsedIdx, |used.ring|)].id
    requires i < |r.data| && r.data[i] != 0
    ensures GetResult(r, used) == Got(i)
    ensures GetBuf(r, used) == Detach(r, i).(
              lastUsedIdx := Wrap16(r.lastUsedIdx + 1),
              usedEvent := if r.noInterrupt then r.usedEvent else Wrap16(r.lastUsedIdx + 1))
  {
  }

  /* ---- the queue ---- */

  class Virtqueue {
    const num: nat
    const event: bool
    const indirect: bool
    const desc: array<Desc>
    const data: array<nat>
    const avail: array<nat>
    var tables: map<nat, seq<Desc>>
    var freeHead: nat
    var numFree: nat
    var availIdx: nat
    var noInterrupt: bool
    var usedEvent: nat
    var lastUsedIdx: nat
    var numAdded: nat
    var broken: bool
    var notifies: nat

    ghost function State(): Ring
      reads this, desc, data, avail
    {
      Ring(event, indirect, desc[..], tables, data[..], freeHead, numFree, avail[..], availIdx, noInterrupt,
           usedEvent, lastUsedIdx, numAdded, broken, notifies)
    }

    // The memory layout of the object; what its contents must satisfy is Ready(State()).
    ghost predicate Valid()
      reads this
    {
      0 < desc.Length == data.Length == avail.Length == num && data != avail
    }

    // vring_new_virtqueue once the length has been accepted.
    constructor (num: nat, event: bool, indirect: bool, callback: bool)
      requires RingSize(num)
      ensures Valid() && fresh(desc) && fresh(data) && fresh(avail)
      ensures State() == Init(num, event, indirect, callback)
      ensures this.event == event && this.indirect == indirect && noInterrupt == !callback && !broken
      ensures numFree == num && availIdx == lastUsedIdx == usedEvent == numAdded == notifies == 0 && tables == map[]
      ensures forall i :: 0 <= i < num ==> data[i] == 0
    {
      this.num, this.event, this.indirect := num, event, indirect;
      // the ring pages come zeroed, the tokens do not
      desc := new Desc[num](_ => Desc(0, 0, Flags(false, false, false), 0));
      data := new nat[num];
      avail := new nat[num](_ => 0);
      tables, freeHead, numFree, availIdx, noInterrupt, usedEvent := map[], 0, num, 0, !callback, 0;
      lastUsedIdx, numAdded, broken, notifies := 0, 0, false, 0;
      new;
      var i := 0;
      while i < num - 1
        invariant 0 <= i <= num - 1
        invariant forall j :: 0 <= j < num ==>
                    desc[j] == Desc(0, 0, Flags(false, false, false), if j < i then j + 1 else 0)
        invariant forall j :: 0 <= j < i ==> data[j] == 0
        modifies desc, data
      {
        desc[i] := desc[i].(next := i + 1);
        data[i] := 0;
        i := i + 1;
      }
      data[i] := 0;
      assert desc[..] == Init(num, event, indirect, callback).desc;
      assert data[..] == Init(num, event, indirect, callback).data;
      assert avail[..] == Init(num, event, indirect, callback).avail;
    }

    // Write one request element to descriptor i and move on along the free list.
    method WriteDesc(sg: Sg, write: bool, i: nat) returns (next: nat)
      requires Valid() && i < num
      modifies desc
      ensures desc[..] == old(desc[..])[i := Written(old(desc[i]), Elem(sg.addr, sg.len, write))]
      ensures next == old(desc[i]).next
    {
      desc[i] := Desc(sg.addr, sg.len, Flags(true, write, false), desc[i].next);
      next := desc[i].next;
    }

    method FillList(sgs: seq<Sg>, write: bool, i0: nat, prev0: nat,
                    ghost d0: seq<Desc>, ghost cells: seq<nat>, ghost done: seq<Elem>) returns (i: nat, prev: nat)
      requires Valid() && |d0| == num && CellsOk(d0, cells) && |done| + |sgs| <= |cells|
      requires Progress(desc[..], d0, cells, done, i0, prev0)
      modifies desc
      ensures Progress(desc[..], d0, cells, done + Tag(sgs, write), i, prev)
    {
      i, prev := i0, prev0;
      var k := 0;
      ghost var all := done;
      while k < |sgs|
        invariant 0 <= k <= |sgs| && all == done + Tag(sgs[..k], write)
        invariant Progress(desc[..], d0, cells, all, i, prev)
      {
        ghost var e := Elem(sgs[k].addr, sgs[k].len, write);
        TagNext(sgs, k, write, done);
        ProgressNext(desc[..], d0, cells, all, i, prev, e);
        prev := i;
        i := WriteDesc(sgs[k], write, i);
        k, all := k + 1, all + [e];
      }
      assert sgs[..k] == sgs;
    }

    method FillLists(lists: seq<seq<Sg>>, write: bool, i0: nat, prev0: nat,
                     ghost d0: seq<Desc>, ghost cells: seq<nat>, ghost done: seq<Elem>) returns (i: nat, prev: nat)
      requires Valid() && |d0| == num && CellsOk(d0, cells)
      requires |done| + |Flatten(lists)| <= |cells|
      requires Progress(desc[..], d0, cells, done, i0, prev0)
      modifies desc
      ensures Progress(desc[..], d0, cells, done + Tag(Flatten(lists), write), i, prev)
    {
      i, prev := i0, prev0;
      var n := 0;
      ghost var all := done;
      while n < |lists|
        invariant 0 <= n <= |lists| && all == done + Tag(Flatten(lists[..n]), write)
        invariant Progress(desc[..], d0, cells, all, i, prev)
      {
        ListsStep(lists, n, write, done, |cells|);
        i, prev := FillList(lists[n], write, i, prev, d0, cells, all);
        n, all := n + 1, all + Tag(lists[n], write);
      }
      assert lists[..n] == lists;
    }

    // The direct part of virtqueue_add.
    method AddDirect(lists: seq<seq<Sg>>, outSgs: nat, totalSg: nat) returns (head: nat)
      requires Valid() && 0 < totalSg <= numFree && FreeRun(State(), totalSg)
      requires outSgs <= |lists| && totalSg == |Request(lists, outSgs)|
      modifies this`numFree, this`freeHead, desc
      ensures head == old(freeHead)
      ensures State() == FillDirect(old(State()), Request(lists, outSgs))
    {
      ghost var r, all := State(), Request(lists, outSgs);
      ghost var cells := Walk(r.desc, r.freeHead, totalSg);
      numFree := numFree - totalSg;
      head := freeHead;
      var prev := FillRequest(lists, outSgs, r.desc, cells);
      ProgressEnds(desc[..], r.desc, cells, all, freeHead, prev);
      // Last one doesn't continue.
      desc[prev] := desc[prev].(flags := desc[prev].flags.(next := false));
      assert desc[..] == Ended(Filled(r.desc, cells, all), prev);
      assert all[..totalSg] == all;
    }

    // Both loops; freeHead is left at the descriptor after the last one written.
    method FillRequest(lists: seq<seq<Sg>>, outSgs: nat, ghost d0: seq<Desc>, ghost cells: seq<nat>) returns (prev: nat)
      requires Valid() && d0 == desc[..] && CellsOk(d0, cells) && freeHead == cells[0]
      requires outSgs <= |lists| && |cells| == |Request(lists, outSgs)|
      modifies this`freeHead, desc
      ensures Progress(desc[..], d0, cells, Request(lists, outSgs), freeHead, prev)
    {
      ghost var outs := Tag(Flatten(lists[..outSgs]), false);
      assert [] + outs == outs;
      assert Progress(desc[..], d0, cells, [], freeHead, freeHead);
      var i;
      i, prev := FillLists(lists[..outSgs], false, freeHead, freeHead, d0, cells, []);
      i, prev := FillLists(lists[outSgs..], true, i, prev, d0, cells, outs);
      freeHead := i;
    }

    // vring_add_indirect, given the address kmalloc returned.
    method AddIndirect(lists: seq<seq<Sg>>, outSgs: nat, totalSg: nat, at: nat) returns (head: nat)
      requires Valid() && 0 < numFree && freeHead < num
      requires outSgs <= |lists| && totalSg == |Request(lists, outSgs)| > 0
      modifies this`numFree, this`freeHead, this`tables, desc
      ensures Valid() && head == old(freeHead)
      ensures State() == FillIndirect(old(State()), Request(lists, outSgs), at)
    {
      ghost var r := State();
      var table := BuildTable(lists, outSgs, totalSg);
      tables := tables[at := table[..]];
      numFree := numFree - 1;
      head := freeHead;
      desc[head] := Desc(at, Wrap32(DESC_BYTES * totalSg), Flags(false, false, true), desc[head].next);
      freeHead := desc[head].next;
      assert desc[..] == r.desc[head := Desc(at, Wrap32(DESC_BYTES * totalSg), Flags(false, false, true),
                                             r.desc[head].next)];
    }

    // virtqueue_add. kmalloc: the address of the indirect table, None when out of memory.
    method Add(lists: seq<seq<Sg>>, totalOut: nat, totalIn: nat, outSgs: nat, token: nat,
               kmalloc: Option<nat>, dev: KickView) returns (res: AddResult)
      requires Valid() && Ready(State())
      requires outSgs <= |lists|
      requires totalOut == |Flatten(lists[..outSgs])| && totalIn == |Flatten(lists[outSgs..])|
      modifies this, desc, data, avail
      ensures Valid()
      ensures State() == Vring.Add(old(State()), Request(lists, outSgs), outSgs > 0, token, kmalloc, dev)
      ensures res == AddOutcome(old(State()), Request(lists, outSgs), token, kmalloc)
      ensures Answers(old(State()), totalOut + totalIn, outSgs > 0, token, kmalloc.Some?, State(), res)
    {
      ghost var r, elems := State(), Request(lists, outSgs);
      ReadyHead(r);
      AddAnswers(r, elems, outSgs > 0, token, kmalloc, dev);
      if token == 0 { return Bug; }
      res := Place(lists, totalOut, totalIn, outSgs, token, kmalloc);
      if res.Added? { Publish(res.head, token, dev); }
    }

    // Its middle part: the request is written to descriptors, or there is no room for it.
    method Place(lists: seq<seq<Sg>>, totalOut: nat, totalIn: nat, outSgs: nat, ghost token: nat,
                 kmalloc: Option<nat>) returns (res: AddResult)
      requires Valid() && Ready(State()) && token != 0
      requires outSgs <= |lists|
      requires totalOut == |Flatten(lists[..outSgs])| && totalIn == |Flatten(lists[outSgs..])|
      modifies this`tables, this`numFree, this`freeHead, this`notifies, desc
      ensures res == AddOutcome(old(State()), Request(lists, outSgs), token, kmalloc)
      ensures res.Added? ==> res.head < num
      ensures State() == Laid(old(State()), Request(lists, outSgs), outSgs > 0, token, kmalloc)
    {
      ReadyHead(State());
      var totalSg := totalIn + totalOut;
      if indirect && totalSg > 2 && numFree > 0 && kmalloc.Some? {
        var head := AddIndirect(lists, outSgs, totalSg, kmalloc.value);
        return Added(head);
      }
      res := PlaceDirect(lists, outSgs, totalSg);
    }

    // In the ring's own descriptors.
    method PlaceDirect(lists: seq<seq<Sg>>, outSgs: nat, totalSg: nat) returns (res: AddResult)
      requires Valid() && Ready(State()) && outSgs <= |lists| && totalSg == |Request(lists, outSgs)|
      modifies this`numFree, this`freeHead, this`notifies, desc
      ensures res.Bug? <==> totalSg > num || totalSg == 0
      ensures res.NoSpace? <==> !res.Bug? && old(numFree) < totalSg
      ensures res.Added? ==> res.head == old(freeHead) < num
      ensures State() == if res.Added? then FillDirect(old(State()), Request(lists, outSgs))
                         else if res.NoSpace? && outSgs > 0 then Notify(old(State())) else old(State())
    {
      if totalSg > num || totalSg == 0 { return Bug; }
      if numFree < totalSg {
        if outSgs > 0 { notifies := notifies + 1; }
        return NoSpace;
      }
      ReadyHead(State());
      var head := AddDirect(lists, outSgs, totalSg);
      res := Added(head);
    }

    method Publish(head: nat, token: nat, dev: KickView)
      requires Valid() && head < num
      modifies this`availIdx, this`numAdded, this`notifies, data, avail
      ensures Valid()
      ensures State() == Vring.Publish(old(State()), head, token, dev)
    {
      ghost var r := State();
      data[head] := token;
      var slot := Slot(availIdx, num);
      avail[slot] := head;
      availIdx := Wrap16(availIdx + 1);
      numAdded := numAdded + 1;
      assert data[..] == r.data[head := token] && avail[..] == r.avail[slot := head];
      assert State() == Expose(r, head, token);
      if numAdded == FORCED_KICK {
        Kick(dev);
      }
    }

    // virtqueue_kick_prepare
    method KickPrepare(dev: KickView) returns (needsKick: bool)
      requires Valid()
      modifies this`numAdded
      ensures Valid() && needsKick == KickNeeded(old(State()), dev)
      ensures State() == Vring.KickPrepare(old(State()))
    {
      var oldIdx := Wrap16(availIdx - numAdded);
      var newIdx := availIdx;
      numAdded := 0;
      if event {
        needsKick := NeedEvent(dev.availEvent, newIdx, oldIdx);
      } else {
        needsKick := !dev.noNotify;
      }
    }

    method Kick(dev: KickView)
      requires Valid()
      modifies this`numAdded, this`notifies
      ensures Valid()
      ensures State() == Vring.Kick(old(State()), dev)
    {
      var needsKick := KickPrepare(dev);
      if needsKick { notifies := notifies + 1; }
    }

    // "Put back on free list: find end", counting every descriptor but the last.
    method FindEnd(head: nat, ghost cells: seq<nat>) returns (i: nat)
      requires Valid() && IsChain(desc[..], cells) && head == cells[0]
      modifies this`numFree
      ensures i == cells[|cells| - 1] && numFree == old(numFree) + |cells| - 1
    {
      i := head;
      ghost var k := 0;
      assert ChainStep(desc[..], cells, k);
      while desc[i].flags.next
        invariant 0 <= k < |cells| && i == cells[k] && i < num
        invariant numFree == old(numFree) + k
        decreases |cells| - k
      {
        assert ChainStep(desc[..], cells, k);
        i := desc[i].next;
        numFree := numFree + 1;
        k := k + 1;
        assert ChainStep(desc[..], cells, k);
      }
      assert ChainStep(desc[..], cells, k);
    }

    // The token, and the indirect table if there is one.
    method ClearToken(head: nat)
      requires Valid() && head < num
      modifies this`tables, data
      ensures data[..] == old(data[..])[head := 0]
      ensures tables == if desc[head].flags.indirect then old(tables) - {desc[head].addr} else old(tables)
    {
      data[head] := 0;
      if desc[head].flags.indirect { tables := tables - {desc[head].addr}; }
    }

    // detach_buf, on the chain the NEXT flags spell out from head.
    method DetachCells(head: nat, ghost cells: seq<nat>)
      requires Valid() && IsChain(desc[..], cells) && head == cells[0] < num
      modifies this`tables, this`numFree, this`freeHead, desc, data
      ensures State() == Spliced(old(State()), head, cells)
    {
      ghost var r := State();
      assert ChainStep(r.desc, cells, |cells| - 1);
      ClearToken(head);
      var i := FindEnd(head, cells);
      desc[i] := desc[i].(next := freeHead);
      freeHead := head;
      // Plus final descriptor
      numFree := numFree + 1;
      assert desc[..] == r.desc[i := r.desc[i].(next := r.freeHead)];
    }

    method DetachBuf(head: nat)
      requires Valid() && head < num && HeadReady(State(), head)
      modifies this`tables, this`numFree, this`freeHead, desc, data
      ensures State() == Detach(old(State()), head)
    {
      DetachIs(State(), head);
      DetachCells(head, ChainOf(State(), head));
    }

    // virtqueue_get_buf, for any used ring the device may have written.
    method GetBuf(used: UsedView) returns (token: nat, len: nat)
      requires Valid() && Ready(State()) && |used.ring| == num
      modifies this, desc, data
      ensures Valid()
      ensures State() == Vring.GetBuf(old(State()), used)
      ensures GetAnswered(old(State()), used, State(), GetResult(old(State()), used))
      ensures var res := GetResult(old(State()), used);
        if res.Got? then res.id < num && token == old(data[..])[res.id] != 0
           && len == used.ring[Slot(old(lastUsedIdx), num)].len
        else token == 0
    {
      GetAnswers(State(), used);
      token, len := 0, 0;
      if broken { return; }
      if lastUsedIdx == used.idx { return; }
      var lastUsed := Slot(lastUsedIdx, num);
      var i := used.ring[lastUsed].id;
      len := used.ring[lastUsed].len;
      if i >= num || data[i] == 0 {
        broken := true;
        return;
      }
      assert IsHead(State(), i);
      GotIs(State(), used, i);
      token := TakeBuf(i);
    }

    method TakeBuf(i: nat) returns (token: nat)
      requires Valid() && i < num && HeadReady(State(), i)
      modifies this, desc, data
      ensures token == old(data[i])
      ensures State() == Detach(old(State()), i).(
                lastUsedIdx := Wrap16(old(lastUsedIdx) + 1),
                usedEvent := if old(noInterrupt) then old(usedEvent) else Wrap16(old(lastUsedIdx) + 1))
    {
      // detach_buf clears data, so grab it now.
      token := data[i];
      DetachBuf(i);
      lastUsedIdx := Wrap16(lastUsedIdx + 1);
      if !noInterrupt { usedEvent := lastUsedIdx; }
    }

    method DisableCb()
      requires Valid()
      modifies this`noInterrupt
      ensures Valid() && State() == Vring.DisableCb(old(State()))
    {
      noInterrupt := true;
    }

    method EnableCbPrepare() returns (last: nat)
      requires Valid()
      modifies this`noInterrupt, this`usedEvent
      ensures Valid() && last == lastUsedIdx && State() == Vring.EnableCb(old(State()))
    {
      noInterrupt := false;
      last := lastUsedIdx;
      usedEvent := last;
    }

    // virtqueue_enable_cb; usedIdx is what the poll reads after used_event is written.
    method EnableCb(usedIdx: nat) returns (idle: bool)
      requires Valid()
      modifies this`noInterrupt, this`usedEvent
      ensures Valid() && State() == Vring.EnableCb(old(State()))
      ensures idle == (lastUsedIdx == usedIdx)
    {
      var last := EnableCbPrepare();
      idle := last == usedIdx;
    }

    method EnableCbDelayed(usedIdx: nat) returns (idle: bool)
      requires Valid()
      modifies this`noInterrupt, this`usedEvent
      ensures Valid() && State() == Vring.EnableCbDelayed(old(State()))
      ensures idle == (Wrap16(usedIdx - lastUsedIdx) <= DelayedBufs(old(State())))
    {
      noInterrupt := false;
      var bufs := Wrap16(availIdx - lastUsedIdx) * 3 / 4;
      usedEvent := Wrap16(lastUsedIdx + bufs);
      idle := !(Wrap16(usedIdx - lastUsedIdx) > bufs);
    }

    method FindToken() returns (i: nat)
      requires Valid()
      ensures i == FirstHead(data[..], 0)
    {
      i := 0;
      while i < num && data[i] == 0
        invariant 0 <= i <= num
        invariant FirstHead(data[..], 0) == FirstHead(data[..], i)
      {
        i := i + 1;
      }
    }

    method TakeUnused(i: nat) returns (token: nat)
      requires Valid() && i < num && HeadReady(State(), i)
      modifies this, desc, data
      ensures token == old(data[i])
      ensures State() == Detach(old(State()), i).(availIdx := Wrap16(old(availIdx) - 1))
    {
      token := data[i];
      DetachBuf(i);
      availIdx := Wrap16(availIdx - 1);
    }

    // virtqueue_detach_unused_buf; 0 once everything is free.
    method DetachUnusedBuf() returns (token: nat)
      requires Valid() && Ready(State())
      modifies this, desc, data
      ensures Valid()
      ensures State() == DetachUnused(old(State()))
      ensures var h := FirstHead(old(data[..]), 0);
        if h < num then token == old(data[..])[h] != 0 else token == 0 && numFree == num
    {
      var i := FindToken();
      if i < num {
        assert IsHead(State(), i);
        token := TakeUnused(i);
      } else {
        token := 0;
      }
    }
  }

  // "We assume num is a power of 2"; any other length is turned away with NULL.
  method NewVirtqueue(num: nat, event: bool, indirect: bool, callback: bool) returns (vq: Virtqueue?)
    requires 0 < num <= 0x8000
    ensures vq != null <==> PowerOfTwo(num)
    ensures vq != null ==> fresh(vq) && vq.Valid() && vq.State() == Init(num, event, indirect, callback)
    ensures vq != null ==> Inv(vq.State(), InitShape(num)) && Ready(vq.State())
    ensures vq != null ==> vq.event == event && vq.indirect == indirect && vq.noInterrupt == !callback
  {
    if !PowerOfTwo(num) { return null; }
    vq := new Virtqueue(num, event, indirect, callback);
    InitInv(num, event, indirect, callback);
    InvIsReady(Init(num, event, indirect, callback), InitShape(num));
  }

  // The counting loops of virtqueue_add_sgs.
  method CountElements(sgs: seq<seq<Sg>>, outSgs: nat) returns (totalOut: nat, totalIn: nat)
    requires outSgs <= |sgs|
    ensures totalOut == |Flatten(sgs[..outSgs])| && totalIn == |Flatten(sgs[outSgs..])|
  {
    totalOut := CountLists(sgs[..outSgs]);
    totalIn := CountLists(sgs[outSgs..]);
  }

  method CountLists(sgs: seq<seq<Sg>>) returns (total: nat)
    ensures total == |Flatten(sgs)|
  {
    var i := 0;
    total := 0;
    while i < |sgs|
      invariant 0 <= i <= |sgs| && total == |Flatten(sgs[..i])|
    {
      FlattenNext(sgs, i);
      total := total + |sgs[i]|;
      i := i + 1;
    }
    assert sgs[..i] == sgs;
  }

  method AddSgs(vq: Virtqueue, sgs: seq<seq<Sg>>, outSgs: nat, token: nat,
                kmalloc: Option<nat>, dev: KickView) returns (res: AddResult)
    requires vq.Valid() && Ready(vq.State()) && outSgs <= |sgs|
    modifies vq, vq.desc, vq.data, vq.avail
    ensures vq.Valid()
    ensures vq.State() == Vring.Add(old(vq.State()), Request(sgs, outSgs), outSgs > 0, token, kmalloc, dev)
    ensures res == AddOutcome(old(vq.State()), Request(sgs, outSgs), token, kmalloc)
    ensures Answers(old(vq.State()), |Flatten(sgs[..outSgs])| + |Flatten(sgs[outSgs..])|, outSgs > 0, token,
                    kmalloc.Some?, vq.State(), res)
  {
    var totalOut, totalIn := CountElements(sgs, outSgs);
    res := vq.Add(sgs, totalOut, totalIn, outSgs, token, kmalloc, dev);
  }

  // virtqueue_add_buf: the first `out` elements of one array, then the next `in`.
  method AddBuf(vq: Virtqueue, sg: seq<Sg>, outNum: nat, inNum: nat, token: nat,
                kmalloc: Option<nat>, dev: KickView) returns (res: AddResult)
    requires vq.Valid() && Ready(vq.State()) && outNum + inNum <= |sg|
    modifies vq, vq.desc, vq.data, vq.avail
    ensures vq.Valid()
    ensures var elems := Tag(sg[..outNum], false) + Tag(sg[outNum..outNum + inNum], true);
      && vq.State() == Vring.Add(old(vq.State()), elems, outNum > 0, token, kmalloc, dev)
      && res == AddOutcome(old(vq.State()), elems, token, kmalloc)
    ensures Answers(old(vq.State()), outNum + inNum, outNum > 0, token, kmalloc.Some?, vq.State(), res)
  {
    var outs := if outNum > 0 then [sg[..outNum]] else [];
    var ins := if inNum > 0 then [sg[outNum..outNum + inNum]] else [];
    TwoLists(sg[..outNum], sg[outNum..outNum + inNum], outs, ins);
    res := vq.Add(outs + ins, outNum, inNum, |outs|, token, kmalloc, dev);
  }

  lemma TwoLists(outs: seq<Sg>, ins: seq<Sg>, outLists: seq<seq<Sg>>, inLists: seq<seq<Sg>>)
    requires outLists == (if outs != [] then [outs] else []) && inLists == (if ins != [] then [ins] else [])
    ensures Flatten((outLists + inLists)[..|outLists|]) == outs && Flatten((outLists + inLists)[|outLists|..]) == ins
    ensures Request(outLists + inLists, |outLists|) == Tag(outs, false) + Tag(ins, true)
  {
    assert (outLists + inLists)[..|outLists|] == outLists && (outLists + inLists)[|outLists|..] == inLists;
    assert [outs][..0] == [] && [ins][..0] == [];
  }
}
