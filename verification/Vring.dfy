/**
 The split virtqueue as values: what one driver operation does to the descriptor table,
 the token table and the indices, and how a device decodes what was published.

 The memory that only the driver writes (descriptors, indirect tables, the avail ring) is
 part of the state; what the device writes (used ring, avail_event) comes in as arguments.
 */
module Vring {
  import opened Words
  import opened Basics

  datatype Flags = Flags(next: bool, write: bool, indirect: bool)
  datatype Desc = Desc(addr: nat, len: nat, flags: Flags, next: nat)

  // One scatterlist element, and the same element as a device sees it.
  datatype Sg = Sg(addr: nat, len: nat)
  datatype Elem = Elem(addr: nat, len: nat, write: bool)

  const DESC_BYTES := 16
  const FORCED_KICK := TWO_16 - 1

  datatype Ring = Ring(
    event: bool,                    // VIRTIO_RING_F_EVENT_IDX
    indirect: bool,                 // VIRTIO_RING_F_INDIRECT_DESC
    desc: seq<Desc>,
    tables: map<nat, seq<Desc>>,    // kmalloc'ed indirect tables by physical address
    data: seq<nat>,                 // tokens; 0 is NULL
    freeHead: nat,
    numFree: nat,
    avail: seq<nat>,
    availIdx: nat,
    noInterrupt: bool,              // VRING_AVAIL_F_NO_INTERRUPT
    usedEvent: nat,
    lastUsedIdx: nat,
    numAdded: nat,
    broken: bool,
    notifies: nat                   // calls of vq->notify so far
  ) {
    function Num(): nat { |desc| }
  }

  // What a kick reads from the device's side of the ring.
  datatype KickView = KickView(availEvent: nat, noNotify: bool)

  datatype UsedElem = UsedElem(id: nat, len: nat)
  // The used ring: its index and, per slot, whatever the device put there.
  datatype UsedView = UsedView(idx: nat, ring: seq<UsedElem>)

  datatype AddResult = Added(head: nat) | NoSpace | Bug

  /* ---- what a list of scatterlists means ---- */

  function Tag(sgs: seq<Sg>, write: bool): seq<Elem>
  {
    seq(|sgs|, i requires 0 <= i < |sgs| => Elem(sgs[i].addr, sgs[i].len, write))
  }

  function Flatten(lists: seq<seq<Sg>>): seq<Sg>
  {
    if lists == [] then [] else Flatten(lists[..|lists| - 1]) + lists[|lists| - 1]
  }

  // The first outSgs lists are readable by the device, the rest writable.
  function Request(lists: seq<seq<Sg>>, outSgs: nat): seq<Elem>
    requires outSgs <= |lists|
  {
    Tag(Flatten(lists[..outSgs]), false) + Tag(Flatten(lists[outSgs..]), true)
  }

  /* ---- device side: decoding a published head ---- */

  // Follow NEXT flags from index i; None when the chain leaves the table, holds an indirect
  // descriptor, or does not end within `fuel` descriptors.
  function DecodeChain(table: seq<Desc>, i: nat, fuel: nat): Option<seq<Elem>>
    decreases fuel
  {
    if fuel == 0 || i >= |table| || table[i].flags.indirect then None
    else
      var e := Elem(table[i].addr, table[i].len, table[i].flags.write);
      if !table[i].flags.next then Some([e])
      else
        match DecodeChain(table, table[i].next, fuel - 1)
        case None => None
        case Some(rest) => Some([e] + rest)
  }

  function Decode(r: Ring, head: nat): Option<seq<Elem>>
  {
    if head >= r.Num() then None
    else if r.desc[head].flags.indirect then
      if r.desc[head].addr !in r.tables then None
      else
        var table := r.tables[r.desc[head].addr];
        if r.desc[head].len != DESC_BYTES * |table| then None else DecodeChain(table, 0, |table|)
    else DecodeChain(r.desc, head, r.Num())
  }

  /* ---- walking the table as the driver does ---- */

  // The first n descriptors of the free list that starts at i.
  function Walk(desc: seq<Desc>, i: nat, n: nat): (cells: seq<nat>)
    ensures |cells| <= n
    ensures n > 0 ==> |cells| > 0 && cells[0] == i
    decreases n
  {
    if n == 0 then [] else [i] + (if i < |desc| then Walk(desc, desc[i].next, n - 1) else [])
  }

  // The descriptors detach_buf visits from i: follow NEXT until a descriptor without it.
  function Chain(desc: seq<Desc>, i: nat, fuel: nat): (cells: seq<nat>)
    ensures forall j :: 0 <= j < |cells| ==> cells[j] < |desc|
    ensures fuel > 0 && i < |desc| ==> |cells| > 0 && cells[0] == i
    decreases fuel
  {
    if fuel == 0 || i >= |desc| then []
    else [i] + (if desc[i].flags.next then Chain(desc, desc[i].next, fuel - 1) else [])
  }

  function ChainOf(r: Ring, head: nat): seq<nat> { Chain(r.desc, head, r.Num()) }

  /* ---- the operations ---- */

  function Init(num: nat, event: bool, indirect: bool, callback: bool): Ring
    requires num > 0
  {
    Ring(event, indirect,
         seq(num, (i: nat) => Desc(0, 0, Flags(false, false, false), if i + 1 < num then i + 1 else 0)),
         map[], seq(num, _ => 0), 0, num, seq(num, _ => 0), 0, !callback, 0, 0, 0, false, 0)
  }

  function Written(d: Desc, e: Elem): Desc
  {
    Desc(e.addr, e.len, Flags(true, e.write, false), d.next)
  }

  // The table after writing elems[j] to descriptor cells[j] for every j.
  function Filled(desc: seq<Desc>, cells: seq<nat>, elems: seq<Elem>): (r: seq<Desc>)
    requires |cells| == |elems|
    ensures |r| == |desc|
  {
    if cells == [] then desc
    else
      var n := |cells| - 1;
      var d := Filled(desc, cells[..n], elems[..n]);
      if cells[n] < |d| then d[cells[n] := Written(d[cells[n]], elems[n])] else d
  }

  // "Last one doesn't continue."
  function Ended(desc: seq<Desc>, last: nat): (r: seq<Desc>)
    ensures |r| == |desc|
  {
    if last < |desc| then desc[last := desc[last].(flags := desc[last].flags.(next := false))]
    else desc
  }

  function IndirectDesc(elems: seq<Elem>, i: nat): Desc
    requires i < |elems|
  {
    Desc(elems[i].addr, elems[i].len, Flags(i + 1 < |elems|, elems[i].write, false),
         if i + 1 < |elems| then Wrap16(i + 1) else 0)
  }

  function IndirectTable(elems: seq<Elem>): seq<Desc>
  {
    seq(|elems|, i requires 0 <= i < |elems| => IndirectDesc(elems, i))
  }

  predicate KickNeeded(r: Ring, dev: KickView)
  {
    if r.event then NeedEvent(dev.availEvent, r.availIdx, Wrap16(r.availIdx - r.numAdded))
    else !dev.noNotify
  }

  function KickPrepare(r: Ring): Ring { r.(numAdded := 0) }

  function Notify(r: Ring): Ring { r.(notifies := r.notifies + 1) }

  function Kick(r: Ring, dev: KickView): Ring
  {
    if KickNeeded(r, dev) then Notify(KickPrepare(r)) else KickPrepare(r)
  }

  // Set the token, fill the next avail slot and expose it.
  function Expose(r: Ring, head: nat, token: nat): Ring
    requires |r.avail| > 0
  {
    r.(data := if head < |r.data| then r.data[head := token] else r.data,
       avail := r.avail[Slot(r.availIdx, |r.avail|) := head],
       availIdx := Wrap16(r.availIdx + 1),
       numAdded := r.numAdded + 1)
  }

  // ... and kick before num_added can reach 2^16.
  function Publish(r: Ring, head: nat, token: nat, dev: KickView): Ring
    requires |r.avail| > 0
  {
    var p := Expose(r, head, token);
    if p.numAdded == FORCED_KICK then Kick(p, dev) else p
  }

  function FillDirect(r: Ring, elems: seq<Elem>): Ring
    requires |elems| > 0
  {
    var cells := Walk(r.desc, r.freeHead, |elems|);
    var n := |cells|;
    var filled := Filled(r.desc, cells, elems[..n]);
    var last := cells[n - 1];
    r.(desc := Ended(filled, last),
       numFree := if r.numFree < |elems| then 0 else r.numFree - |elems|,
       freeHead := if last < |filled| then filled[last].next else 0)
  }

  function FillIndirect(r: Ring, elems: seq<Elem>, at: nat): Ring
  {
    if r.freeHead >= |r.desc| || r.numFree == 0 then r
    else
      var d := r.desc[r.freeHead];
      r.(desc := r.desc[r.freeHead := Desc(at, Wrap32(DESC_BYTES * |elems|), Flags(false, false, true), d.next)],
         tables := r.tables[at := IndirectTable(elems)],
         numFree := r.numFree - 1,
         freeHead := d.next)
  }

  predicate GoesIndirect(r: Ring, elems: seq<Elem>, kmalloc: Option<nat>)
  {
    r.indirect && |elems| > 2 && r.numFree > 0 && kmalloc.Some?
  }

  function AddOutcome(r: Ring, elems: seq<Elem>, token: nat, kmalloc: Option<nat>): AddResult
  {
    if token == 0 then Bug
    else if GoesIndirect(r, elems, kmalloc) then Added(r.freeHead)
    else if |elems| > r.Num() || elems == [] then Bug
    else if r.numFree < |elems| then NoSpace
    else Added(r.freeHead)
  }

  function Add(r: Ring, elems: seq<Elem>, hasOut: bool, token: nat, kmalloc: Option<nat>, dev: KickView): Ring
    requires |r.avail| > 0
  {
    match AddOutcome(r, elems, token, kmalloc)
    case Bug => r
    case NoSpace => if hasOut then Notify(r) else r
    case Added(head) =>
      if GoesIndirect(r, elems, kmalloc)
      then Publish(FillIndirect(r, elems, kmalloc.value), head, token, dev)
      else Publish(FillDirect(r, elems), head, token, dev)
  }

  // detach_buf: the chain of `head` goes back to the front of the free list.
  function Detach(r: Ring, head: nat): Ring
    requires head < |r.desc| && |r.data| == |r.desc|
  {
    var cells := ChainOf(r, head);
    var last := cells[|cells| - 1];
    r.(data := r.data[head := 0],
       tables := if r.desc[head].flags.indirect then r.tables - {r.desc[head].addr} else r.tables,
       desc := r.desc[last := r.desc[last].(next := r.freeHead)],
       freeHead := head,
       numFree := r.numFree + |cells|)
  }

  datatype GetOutcome = Nothing | BadId | Got(id: nat)

  function GetResult(r: Ring, used: UsedView): GetOutcome
    requires |used.ring| == |r.data| > 0
  {
    if r.broken || r.lastUsedIdx == used.idx then Nothing
    else
      var id := used.ring[Slot(r.lastUsedIdx, |used.ring|)].id;
      if id >= |r.data| || r.data[id] == 0 then BadId else Got(id)
  }

  function GetBuf(r: Ring, used: UsedView): Ring
    requires |used.ring| == |r.data| == |r.desc| > 0
  {
    match GetResult(r, used)
    case Nothing => r
    case BadId => r.(broken := true)
    case Got(id) =>
      var d := Detach(r, id);
      var next := Wrap16(r.lastUsedIdx + 1);
      d.(lastUsedIdx := next, usedEvent := if r.noInterrupt then r.usedEvent else next)
  }

  function DisableCb(r: Ring): Ring { r.(noInterrupt := true) }

  function EnableCb(r: Ring): Ring { r.(noInterrupt := false, usedEvent := r.lastUsedIdx) }

  // (u16)(avail->idx - last_used_idx) * 3 / 4: the product is an int, only the quotient is cut.
  function DelayedBufs(r: Ring): nat { Wrap16(r.availIdx - r.lastUsedIdx) * 3 / 4 }

  function EnableCbDelayed(r: Ring): Ring
  {
    r.(noInterrupt := false, usedEvent := Wrap16(r.lastUsedIdx + DelayedBufs(r)))
  }

  // The first head with a token, or Num() when there is none.
  function FirstHead(data: seq<nat>, i: nat): (h: nat)
    requires i <= |data|
    ensures i <= h <= |data|
    ensures forall j :: i <= j < h ==> data[j] == 0
    ensures h < |data| ==> data[h] != 0
    decreases |data| - i
  {
    if i == |data| || data[i] != 0 then i else FirstHead(data, i + 1)
  }

  function DetachUnused(r: Ring): Ring
    requires |r.data| == |r.desc|
  {
    var h := FirstHead(r.data, 0);
    if h == |r.data| then r else Detach(r, h).(availIdx := Wrap16(r.availIdx - 1))
  }
}
