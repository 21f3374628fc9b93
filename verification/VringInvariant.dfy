/**
 What every driver operation keeps: the descriptor table is split between the free list and
 one chain per token, and each chain still decodes to the request it was built from.

 Shape is the ghost side of a ring: which descriptors are where, and what was asked for.
 */
module VringInvariant {
  import opened Words
  import opened Basics
  import opened Vring

  datatype Shape = Shape(
    free: seq<nat>,                  // the free list, in order
    chains: map<nat, seq<nat>>,      // per in-flight head, its descriptors in order
    bufs: map<nat, seq<Elem>>,       // per in-flight head, the request it carries
    owner: seq<Option<nat>>,         // per descriptor: None when free, else its head
    pos: seq<nat>,                   // per descriptor: its index in its list
    tabs: map<nat, nat>,             // per indirect table, the head that points to it
    log: seq<nat>                    // every head ever published, by position
  )

  ghost predicate Link(desc: seq<Desc>, cells: seq<nat>, i: int)
  {
    0 <= i && i + 1 < |cells| && cells[i] < |desc| && desc[cells[i]].next == cells[i + 1]
  }

  ghost predicate FreeOk(r: Ring, g: Shape)
    requires |g.owner| == |g.pos| == r.Num()
  {
    && |g.free| == r.numFree
    && (g.free != [] ==> r.freeHead == g.free[0])
    && (forall j :: 0 <= j < |g.free| ==>
          g.free[j] < r.Num() && g.owner[g.free[j]] == None && g.pos[g.free[j]] == j)
    && (forall j :: 0 <= j < |g.free| - 1 ==> Link(r.desc, g.free, j))
  }

  ghost predicate Holds(d: Desc, e: Elem, more: bool)
  {
    d.addr == e.addr && d.len == e.len && d.flags == Flags(more, e.write, false)
  }

  ghost predicate DirectOk(desc: seq<Desc>, cells: seq<nat>, buf: seq<Elem>)
    requires forall j :: 0 <= j < |cells| ==> cells[j] < |desc|
  {
    && |cells| == |buf| <= |desc|
    && (forall j :: 0 <= j < |cells| ==> Holds(desc[cells[j]], buf[j], j + 1 < |cells|))
    && (forall j :: 0 <= j < |cells| - 1 ==> Link(desc, cells, j))
  }

  ghost predicate IndirectOk(r: Ring, g: Shape, h: nat)
    requires h < r.Num() && h in g.chains && h in g.bufs
  {
    && |g.chains[h]| == 1
    && r.desc[h].flags == Flags(false, false, true)
    && r.desc[h].len == Wrap32(DESC_BYTES * |g.bufs[h]|)
    && r.desc[h].addr in r.tables
    && r.tables[r.desc[h].addr] == IndirectTable(g.bufs[h])
    && r.desc[h].addr in g.tabs
    && g.tabs[r.desc[h].addr] == h
  }

  ghost predicate Owned(n: nat, g: Shape, h: nat)
    requires |g.owner| == |g.pos| == n && h in g.chains
  {
    && h < n
    && |g.chains[h]| > 0
    && g.chains[h][0] == h
    && (forall j :: 0 <= j < |g.chains[h]| ==>
          g.chains[h][j] < n && g.owner[g.chains[h][j]] == Some(h) && g.pos[g.chains[h][j]] == j)
  }

  ghost predicate ChainOk(r: Ring, g: Shape, h: nat)
    requires |g.owner| == |g.pos| == r.Num() && h in g.chains && h in g.bufs
  {
    && Owned(r.Num(), g, h)
    && g.bufs[h] != []
    && if r.desc[h].flags.indirect then IndirectOk(r, g, h) else DirectOk(r.desc, g.chains[h], g.bufs[h])
  }

  ghost predicate ChainsOk(r: Ring, g: Shape)
    requires |g.owner| == |g.pos| == r.Num()
  {
    && g.bufs.Keys == g.chains.Keys
    && (forall h :: h in g.chains ==> ChainOk(r, g, h))
  }

  // Every descriptor is where owner and pos say it is.
  ghost predicate Placed(g: Shape, x: nat)
    requires |g.owner| == |g.pos| && x < |g.owner|
  {
    match g.owner[x]
    case None => g.pos[x] < |g.free| && g.free[g.pos[x]] == x
    case Some(h) => h in g.chains && g.pos[x] < |g.chains[h]| && g.chains[h][g.pos[x]] == x
  }

  ghost predicate TabsOk(r: Ring, g: Shape)
  {
    && g.tabs.Keys == r.tables.Keys
    && (forall a :: a in g.tabs ==>
          g.tabs[a] in g.chains && g.tabs[a] < r.Num() &&
          r.desc[g.tabs[a]].flags.indirect && r.desc[g.tabs[a]].addr == a)
  }

  ghost predicate TokensOk(r: Ring, g: Shape)
  {
    forall h :: 0 <= h < |r.data| ==> (r.data[h] != 0 <==> h in g.chains)
  }

  // The last |chains| published heads are still in their avail slots, and the indices
  // are the wrapped positions of that window.
  ghost predicate WindowOk(r: Ring, g: Shape)
    requires |r.avail| > 0
  {
    && |g.chains| <= |g.log|
    && r.availIdx == Wrap16(|g.log|)
    && r.lastUsedIdx == Wrap16(|g.log| - |g.chains|)
    && (forall q :: |g.log| - |g.chains| <= q < |g.log| ==> r.avail[Slot(q, |r.avail|)] == g.log[q])
  }

  // Total length of the chains whose head is below n.
  function ChainTotal(chains: map<nat, seq<nat>>, n: nat): nat
  {
    if n == 0 then 0
    else ChainTotal(chains, n - 1) + (if n - 1 in chains then |chains[n - 1]| else 0)
  }

  ghost predicate Sized(r: Ring, g: Shape)
  {
    && RingSize(r.Num())
    && |r.data| == |r.avail| == |g.owner| == |g.pos| == r.Num()
  }

  // Where every descriptor is and what every chain says.
  ghost predicate Layout(r: Ring, g: Shape)
  {
    && Sized(r, g)
    && FreeOk(r, g)
    && ChainsOk(r, g)
    && (forall x :: 0 <= x < r.Num() ==> Placed(g, x))
    && TabsOk(r, g)
    && |g.free| + ChainTotal(g.chains, r.Num()) == r.Num()
  }

  // Tokens, indices and the kick counter.
  ghost predicate Books(r: Ring, g: Shape)
    requires |r.avail| > 0
  {
    && TokensOk(r, g)
    && WindowOk(r, g)
    && r.numAdded < FORCED_KICK
  }

  ghost predicate Inv(r: Ring, g: Shape)
  {
    Layout(r, g) && Books(r, g)
  }

  /* ---- initial state ---- */

  function InitShape(num: nat): Shape
  {
    Shape(seq(num, i => i), map[], map[], seq(num, _ => None), seq(num, i => i), map[], [])
  }

  lemma {:induction false} NoChains(n: nat)
    ensures ChainTotal(map[], n) == 0
  {
    if n > 0 { NoChains(n - 1); }
  }

  lemma InitInv(num: nat, event: bool, indirect: bool, callback: bool)
    requires RingSize(num)
    ensures Inv(Init(num, event, indirect, callback), InitShape(num))
  {
    NoChains(num);
  }

  /* ---- facts every operation uses ---- */

  lemma {:induction false} TotalWithNew(chains: map<nat, seq<nat>>, h: nat, cells: seq<nat>, n: nat)
    requires h !in chains
    ensures ChainTotal(chains[h := cells], n) == ChainTotal(chains, n) + (if h < n then |cells| else 0)
  {
    if n > 0 { TotalWithNew(chains, h, cells, n - 1); }
  }

  lemma {:induction false} TotalWithout(chains: map<nat, seq<nat>>, h: nat, n: nat)
    requires h in chains
    ensures ChainTotal(chains - {h}, n) == ChainTotal(chains, n) - (if h < n then |chains[h]| else 0)
    ensures ChainTotal(chains, n) >= if h < n then |chains[h]| else 0
  {
    if n > 0 { TotalWithout(chains, h, n - 1); }
  }

  // As many chains below n as heads there, and none of them empty.
  lemma {:induction false} ChainsAtMostTotal(chains: map<nat, seq<nat>>, n: nat)
    requires forall h :: h in chains ==> h < n && |chains[h]| > 0
    ensures |chains| <= ChainTotal(chains, n)
  {
    if n == 0 {
      assert chains.Keys == {};
    } else if n - 1 in chains {
      var rest := chains - {n - 1};
      assert rest.Keys == chains.Keys - {n - 1};
      assert |rest| == |chains| - 1;
      ChainsAtMostTotal(rest, n - 1);
      TotalWithout(chains, n - 1, n - 1);
    } else {
      ChainsAtMostTotal(chains, n - 1);
    }
  }

  lemma InFlightBound(r: Ring, g: Shape)
    requires Layout(r, g)
    ensures |g.chains| + r.numFree <= r.Num()
  {
    ChainsAtMostTotal(g.chains, r.Num());
  }

  lemma {:induction false} WalkIsFree(r: Ring, g: Shape, i: nat, n: nat)
    requires |g.owner| == |g.pos| == r.Num() && FreeOk(r, g)
    requires i + n <= |g.free| && n > 0
    ensures Walk(r.desc, g.free[i], n) == g.free[i..i + n]
    decreases n
  {
    if n > 1 {
      assert Link(r.desc, g.free, i);
      WalkIsFree(r, g, i + 1, n - 1);
      SliceFront(g.free, i, n);
      assert Walk(r.desc, g.free[i], n) == [g.free[i]] + Walk(r.desc, g.free[i + 1], n - 1);
    } else {
      assert Walk(r.desc, g.free[i], 1) == [g.free[i]] == g.free[i..i + 1];
    }
  }

  lemma SliceFront(s: seq<nat>, i: nat, n: nat)
    requires n > 0 && i + n <= |s|
    ensures [s[i]] + s[i + 1..i + n] == s[i..i + n]
  {
  }

  lemma {:induction false} FilledAt(desc: seq<Desc>, cells: seq<nat>, elems: seq<Elem>)
    requires |cells| == |elems|
    requires forall j :: 0 <= j < |cells| ==> cells[j] < |desc|
    requires forall i, j :: 0 <= i < j < |cells| ==> cells[i] != cells[j]
    ensures forall j :: 0 <= j < |cells| ==> Filled(desc, cells, elems)[cells[j]] == Written(desc[cells[j]], elems[j])
    ensures forall x :: 0 <= x < |desc| && x !in cells ==> Filled(desc, cells, elems)[x] == desc[x]
  {
    if cells != [] {
      var n := |cells| - 1;
      FilledAt(desc, cells[..n], elems[..n]);
      assert cells[n] !in cells[..n];
      forall x | 0 <= x < |desc| && x !in cells
        ensures x !in cells[..n]
      {
      }
    }
  }
}
