/** Each driver operation takes a ring with Inv to a ring with Inv, and what it changes. */
module VringSteps {
  import opened Words
  import opened Basics
  import opened Vring
  import opened VringInvariant

  /* ---- adding ---- */

  // The first k free descriptors become the chain of the first of them.
  function Taken(g: Shape, k: nat, elems: seq<Elem>): Shape
    requires 0 < k <= |g.free| && |g.owner| == |g.pos|
  {
    var head := g.free[0];
    g.(free := g.free[k..],
       chains := g.chains[head := g.free[..k]],
       bufs := g.bufs[head := elems],
       owner := seq(|g.owner|, x requires 0 <= x < |g.owner| =>
                  if g.owner[x] == None && g.pos[x] < k then Some(head) else g.owner[x]),
       pos := seq(|g.pos|, x requires 0 <= x < |g.pos| =>
                if g.owner[x] == None && g.pos[x] >= k then g.pos[x] - k else g.pos[x]))
  }

  lemma FreeHeadUnowned(r: Ring, g: Shape)
    requires Layout(r, g) && g.free != []
    ensures g.free[0] !in g.chains
  {
    forall h | h in g.chains
      ensures h != g.free[0]
    {
      assert ChainOk(r, g, h);
      assert g.owner[g.chains[h][0]] == Some(h);
    }
  }

  lemma TakenPlacedAt(g: Shape, k: nat, elems: seq<Elem>, x: nat)
    requires 0 < k <= |g.free| && |g.owner| == |g.pos| && x < |g.owner|
    requires Placed(g, x) && g.free[0] !in g.chains
    ensures Placed(Taken(g, k, elems), x)
  {
  }

  lemma TakenPlaced(r: Ring, g: Shape, k: nat, elems: seq<Elem>)
    requires Layout(r, g) && 0 < k <= |g.free|
    ensures forall x :: 0 <= x < r.Num() ==> Placed(Taken(g, k, elems), x)
    ensures |g.free| - k + ChainTotal(Taken(g, k, elems).chains, r.Num()) == r.Num()
  {
    FreeHeadUnowned(r, g);
    TotalWithNew(g.chains, g.free[0], g.free[..k], r.Num());
    forall x | 0 <= x < r.Num()
      ensures Placed(Taken(g, k, elems), x)
    {
      TakenPlacedAt(g, k, elems, x);
    }
  }

  // What writing the taken descriptors must leave alone for the rest of the layout to stand.
  lemma TakenFree(r: Ring, g: Shape, k: nat, elems: seq<Elem>, r': Ring)
    requires Layout(r, g) && 0 < k <= |g.free|
    requires r'.Num() == r.Num() && r'.numFree == r.numFree - k
    requires forall x :: 0 <= x < r.Num() && x !in g.free[..k] ==> r'.desc[x] == r.desc[x]
    requires r'.freeHead == r.desc[g.free[k - 1]].next
    ensures FreeOk(r', Taken(g, k, elems))
  {
    var g' := Taken(g, k, elems);
    forall j | 0 <= j < |g'.free|
      ensures g'.free[j] < r.Num() && g'.owner[g'.free[j]] == None && g'.pos[g'.free[j]] == j
      ensures r'.desc[g'.free[j]] == r.desc[g'.free[j]]
    {
      assert g'.free[j] == g.free[j + k];
      assert g'.free[j] !in g.free[..k];
    }
    forall j | 0 <= j < |g'.free| - 1
      ensures Link(r'.desc, g'.free, j)
    {
      assert Link(r.desc, g.free, j + k);
    }
    if g'.free != [] {
      assert Link(r.desc, g.free, k - 1);
    }
  }

  lemma TakenOthers(r: Ring, g: Shape, k: nat, elems: seq<Elem>, r': Ring, h: nat)
    requires Layout(r, g) && 0 < k <= |g.free|
    requires Sized(r', Taken(g, k, elems)) && r'.Num() == r.Num()
    requires forall x :: 0 <= x < r.Num() && x !in g.free[..k] ==> r'.desc[x] == r.desc[x]
    requires forall a :: a in r.tables ==> a in r'.tables && r'.tables[a] == r.tables[a]
    requires h in g.chains
    ensures h != g.free[0]
    ensures r'.desc[h] == r.desc[h]
    ensures r.desc[h].flags.indirect ==> g.tabs[r.desc[h].addr] == h
    ensures ChainOk(r', Taken(g, k, elems), h)
  {
    FreeHeadUnowned(r, g);
    assert ChainOk(r, g, h);
    var cells := g.chains[h];
    forall j | 0 <= j < |cells|
      ensures cells[j] !in g.free[..k]
      ensures Taken(g, k, elems).owner[cells[j]] == Some(h) && Taken(g, k, elems).pos[cells[j]] == j
    {
      assert g.owner[cells[j]] == Some(h);
    }
    assert cells[0] == h;
    if !r.desc[h].flags.indirect {
      forall j | 0 <= j < |cells| - 1
        ensures Link(r'.desc, cells, j)
      {
        assert Link(r.desc, cells, j);
      }
    }
  }

  lemma FreeNoRepeats(r: Ring, g: Shape, k: nat)
    requires Sized(r, g) && FreeOk(r, g) && k <= |g.free|
    ensures forall j :: 0 <= j < k ==> g.free[..k][j] < r.Num()
    ensures forall i, j :: 0 <= i < j < k ==> g.free[..k][i] != g.free[..k][j]
  {
    forall i, j | 0 <= i < j < k
      ensures g.free[i] != g.free[j]
    {
      assert g.pos[g.free[i]] == i && g.pos[g.free[j]] == j;
    }
  }

  lemma EndedAt(desc: seq<Desc>, cells: seq<nat>, elems: seq<Elem>)
    requires |cells| == |elems| > 0
    requires forall j :: 0 <= j < |cells| ==> cells[j] < |desc|
    requires forall i, j :: 0 <= i < j < |cells| ==> cells[i] != cells[j]
    ensures var last := cells[|cells| - 1]; var d := Ended(Filled(desc, cells, elems), last);
      && Filled(desc, cells, elems)[last].next == desc[last].next
      && (forall x :: 0 <= x < |desc| && x !in cells ==> d[x] == desc[x])
      && (forall j :: 0 <= j < |cells| ==>
            Holds(d[cells[j]], elems[j], j + 1 < |cells|) && d[cells[j]].next == desc[cells[j]].next)
  {
    FilledAt(desc, cells, elems);
    forall j | 0 <= j < |cells|
      ensures Filled(desc, cells, elems)[cells[j]] == Written(desc[cells[j]], elems[j])
    {
    }
  }

  lemma FillDirectIs(r: Ring, g: Shape, elems: seq<Elem>)
    requires Layout(r, g) && 0 < |elems| <= r.numFree
    ensures var k := |elems|; var cells := g.free[..k]; var r' := FillDirect(r, elems);
      && Walk(r.desc, r.freeHead, k) == cells
      && r'.numFree == r.numFree - k && r'.Num() == r.Num()
      && r'.freeHead == r.desc[g.free[k - 1]].next
      && (forall x :: 0 <= x < r.Num() && x !in cells ==> r'.desc[x] == r.desc[x])
      && (forall j :: 0 <= j < k ==>
            Holds(r'.desc[cells[j]], elems[j], j + 1 < k) && r'.desc[cells[j]].next == r.desc[cells[j]].next)
  {
    var k := |elems|;
    WalkIsFree(r, g, 0, k);
    FreeNoRepeats(r, g, k);
    assert elems[..k] == elems;
    EndedAt(r.desc, g.free[..k], elems);
  }

  lemma TakenTabs(r: Ring, g: Shape, k: nat, elems: seq<Elem>, r': Ring, a: nat)
    requires Layout(r, g) && 0 < k <= |g.free|
    requires Sized(r', Taken(g, k, elems)) && r'.Num() == r.Num()
    requires forall x :: 0 <= x < r.Num() && x !in g.free[..k] ==> r'.desc[x] == r.desc[x]
    requires forall a :: a in r.tables ==> a in r'.tables && r'.tables[a] == r.tables[a]
    requires a in g.tabs
    ensures g.tabs[a] in g.chains && g.tabs[a] < r.Num()
    ensures r'.desc[g.tabs[a]].flags.indirect && r'.desc[g.tabs[a]].addr == a
  {
    TakenOthers(r, g, k, elems, r', g.tabs[a]);
  }

  lemma NewDirectChain(r: Ring, g: Shape, elems: seq<Elem>)
    requires Layout(r, g) && 0 < |elems| <= r.numFree
    ensures Sized(FillDirect(r, elems), Taken(g, |elems|, elems))
    ensures ChainOk(FillDirect(r, elems), Taken(g, |elems|, elems), g.free[0])
  {
    var k, r' := |elems|, FillDirect(r, elems);
    var g' := Taken(g, k, elems);
    FillDirectIs(r, g, elems);
    var cells := g.free[..k];
    assert Holds(r'.desc[cells[0]], elems[0], 1 < k);
    forall j | 0 <= j < k
      ensures cells[j] < r'.Num() && g'.owner[cells[j]] == Some(g.free[0]) && g'.pos[cells[j]] == j
      ensures Holds(r'.desc[cells[j]], elems[j], j + 1 < k)
    {
      assert cells[j] == g.free[j];
    }
    forall j | 0 <= j < k - 1
      ensures Link(r'.desc, cells, j)
    {
      assert Link(r.desc, g.free, j);
      assert cells[j] == g.free[j];
    }
  }

  lemma AddDirectLayout(r: Ring, g: Shape, elems: seq<Elem>)
    requires Layout(r, g) && 0 < |elems| <= r.numFree
    ensures Layout(FillDirect(r, elems), Taken(g, |elems|, elems))
  {
    var k, r' := |elems|, FillDirect(r, elems);
    var g' := Taken(g, k, elems);
    assert Sized(r', g');
    FillDirectFacts(r, g, elems);
    TakenPlaced(r, g, k, elems);
    assert FreeOk(r', g') by { TakenFree(r, g, k, elems, r'); }
    assert ChainsOk(r', g') by {
      forall h | h in g'.chains
        ensures ChainOk(r', g', h)
      {
        if h == g.free[0] { NewDirectChain(r, g, elems); } else { TakenOthers(r, g, k, elems, r', h); }
      }
    }
    assert TabsOk(r', g') by {
      forall a | a in g'.tabs
        ensures g'.tabs[a] in g.chains && g'.tabs[a] < r.Num()
        ensures r'.desc[g'.tabs[a]].flags.indirect && r'.desc[g'.tabs[a]].addr == a
      {
        TakenTabs(r, g, k, elems, r', a);
      }
    }
  }

  lemma FillDirectFacts(r: Ring, g: Shape, elems: seq<Elem>)
    requires Layout(r, g) && 0 < |elems| <= r.numFree
    ensures var k := |elems|; var r' := FillDirect(r, elems);
      && r'.numFree == r.numFree - k && r'.Num() == r.Num()
      && r'.freeHead == r.desc[g.free[k - 1]].next
      && (forall x :: 0 <= x < r.Num() && x !in g.free[..k] ==> r'.desc[x] == r.desc[x])
  {
    FillDirectIs(r, g, elems);
  }

  function TakenIndirect(r: Ring, g: Shape, elems: seq<Elem>, at: nat): Shape
    requires g.free != [] && |g.owner| == |g.pos|
  {
    Taken(g, 1, elems).(tabs := g.tabs[at := g.free[0]])
  }

  lemma NewIndirectChain(r: Ring, g: Shape, elems: seq<Elem>, at: nat)
    requires Layout(r, g) && 0 < r.numFree && elems != [] && at !in r.tables
    ensures Sized(FillIndirect(r, elems, at), TakenIndirect(r, g, elems, at))
    ensures ChainOk(FillIndirect(r, elems, at), TakenIndirect(r, g, elems, at), g.free[0])
  {
  }

  lemma IgnoresTabs(r: Ring, g: Shape, g': Shape, h: nat)
    requires Sized(r, g) && h in g.chains && h in g.bufs && ChainOk(r, g, h)
    requires g' == g.(tabs := g'.tabs)
    requires r.desc[h].flags.indirect ==> r.desc[h].addr in g'.tabs && g'.tabs[r.desc[h].addr] == h
    ensures ChainOk(r, g', h)
  {
    assert Owned(r.Num(), g', h);
  }

  lemma FillIndirectFacts(r: Ring, g: Shape, elems: seq<Elem>, at: nat)
    requires Sized(r, g) && FreeOk(r, g) && 0 < r.numFree && at !in r.tables
    ensures var r' := FillIndirect(r, elems, at);
      && Sized(r', Taken(g, 1, elems)) && r'.Num() == r.Num()
      && r'.numFree == r.numFree - 1 && r'.freeHead == r.desc[g.free[0]].next
      && (forall x :: 0 <= x < r.Num() && x !in g.free[..1] ==> r'.desc[x] == r.desc[x])
      && (forall a :: a in r.tables ==> a in r'.tables && r'.tables[a] == r.tables[a])
  {
    assert g.free[..1][0] == g.free[0];
  }

  lemma OldIndirectChain(r: Ring, g: Shape, elems: seq<Elem>, at: nat, h: nat)
    requires Layout(r, g) && 0 < r.numFree && at !in r.tables
    requires h in g.chains
    ensures Sized(FillIndirect(r, elems, at), TakenIndirect(r, g, elems, at))
    ensures ChainOk(FillIndirect(r, elems, at), TakenIndirect(r, g, elems, at), h)
  {
    OldChainTaken(r, g, elems, at, h);
    IgnoresTabs(FillIndirect(r, elems, at), Taken(g, 1, elems), TakenIndirect(r, g, elems, at), h);
  }

  lemma OldChainTaken(r: Ring, g: Shape, elems: seq<Elem>, at: nat, h: nat)
    requires Layout(r, g) && 0 < r.numFree && at !in r.tables && h in g.chains
    ensures var r', g1 := FillIndirect(r, elems, at), Taken(g, 1, elems);
      Sized(r', g1) && h in g1.chains && h in g1.bufs && ChainOk(r', g1, h)
      && (r'.desc[h].flags.indirect ==>
            r'.desc[h].addr in g.tabs && g.tabs[r'.desc[h].addr] == h && r'.desc[h].addr != at)
  {
    FillIndirectFacts(r, g, elems, at);
    TakenOthers(r, g, 1, elems, FillIndirect(r, elems, at), h);
  }

  lemma IndirectFree(r: Ring, g: Shape, elems: seq<Elem>, at: nat)
    requires Layout(r, g) && 0 < r.numFree
    ensures Sized(FillIndirect(r, elems, at), TakenIndirect(r, g, elems, at))
    ensures FreeOk(FillIndirect(r, elems, at), TakenIndirect(r, g, elems, at))
    ensures forall x :: 0 <= x < r.Num() ==> Placed(TakenIndirect(r, g, elems, at), x)
  {
    var r' := FillIndirect(r, elems, at);
    var g1, g' := Taken(g, 1, elems), TakenIndirect(r, g, elems, at);
    TakenPlaced(r, g, 1, elems);
    TakenFree(r, g, 1, elems, r');
    forall x | 0 <= x < r.Num()
      ensures Placed(g', x)
    {
      assert Placed(g1, x);
    }
    forall j | 0 <= j < |g'.free|
      ensures g'.free[j] < r.Num() && g'.owner[g'.free[j]] == None && g'.pos[g'.free[j]] == j
    {
      assert g1.free[j] < r.Num() && g1.owner[g1.free[j]] == None;
    }
    forall j | 0 <= j < |g'.free| - 1
      ensures Link(r'.desc, g'.free, j)
    {
      assert Link(r'.desc, g1.free, j);
    }
  }

  lemma IndirectTabs(r: Ring, g: Shape, elems: seq<Elem>, at: nat)
    requires Layout(r, g) && 0 < r.numFree && at !in r.tables
    ensures TabsOk(FillIndirect(r, elems, at), TakenIndirect(r, g, elems, at))
  {
    forall a | a in g.tabs && a != at
      ensures g.tabs[a] in g.chains && g.tabs[a] < r.Num()
      ensures FillIndirect(r, elems, at).desc[g.tabs[a]].flags.indirect
      ensures FillIndirect(r, elems, at).desc[g.tabs[a]].addr == a
    {
      OldTab(r, g, elems, at, a);
    }
    NewTab(r, g, elems, at);
  }

  lemma NewTab(r: Ring, g: Shape, elems: seq<Elem>, at: nat)
    requires Sized(r, g) && FreeOk(r, g) && 0 < r.numFree && at !in r.tables && g.tabs.Keys == r.tables.Keys
    ensures var r', g' := FillIndirect(r, elems, at), TakenIndirect(r, g, elems, at);
      && r'.Num() == r.Num() && g'.tabs == g.tabs[at := g.free[0]] && g'.tabs.Keys == r'.tables.Keys
      && g'.chains.Keys == g.chains.Keys + {g.free[0]}
      && g.free[0] < r.Num() && r'.desc[g.free[0]].flags.indirect && r'.desc[g.free[0]].addr == at
  {
  }

  lemma OldTab(r: Ring, g: Shape, elems: seq<Elem>, at: nat, a: nat)
    requires Layout(r, g) && 0 < r.numFree && at !in r.tables && a in g.tabs
    ensures var r' := FillIndirect(r, elems, at);
      && g.tabs[a] in g.chains && g.tabs[a] < r.Num() == r'.Num()
      && r'.desc[g.tabs[a]].flags.indirect && r'.desc[g.tabs[a]].addr == a
  {
    FillIndirectFacts(r, g, elems, at);
    TakenTabs(r, g, 1, elems, FillIndirect(r, elems, at), a);
  }

  lemma IndirectChains(r: Ring, g: Shape, elems: seq<Elem>, at: nat)
    requires Layout(r, g) && 0 < r.numFree && elems != [] && at !in r.tables
    ensures ChainsOk(FillIndirect(r, elems, at), TakenIndirect(r, g, elems, at))
  {
    var r', g' := FillIndirect(r, elems, at), TakenIndirect(r, g, elems, at);
    forall h | h in g'.chains
      ensures ChainOk(r', g', h)
    {
      if h == g.free[0] { NewIndirectChain(r, g, elems, at); } else { OldIndirectChain(r, g, elems, at, h); }
    }
  }

  lemma AddIndirectLayout(r: Ring, g: Shape, elems: seq<Elem>, at: nat)
    requires Layout(r, g) && 0 < r.numFree && elems != [] && at !in r.tables
    ensures Layout(FillIndirect(r, elems, at), TakenIndirect(r, g, elems, at))
  {
    IndirectFree(r, g, elems, at);
    IndirectTabs(r, g, elems, at);
    IndirectChains(r, g, elems, at);
    TakenPlaced(r, g, 1, elems);
  }

  // Exposing a head extends the window by one slot that held nothing of it.
  lemma OneMoreHead(chains: map<nat, seq<nat>>, chains': map<nat, seq<nat>>, head: nat)
    requires head !in chains && chains'.Keys == chains.Keys + {head}
    ensures |chains'| == |chains| + 1
  {
    assert |chains'| == |chains'.Keys|;
    assert |chains| == |chains.Keys|;
  }

  lemma ExposeWindow(r: Ring, g: Shape, g2: Shape, head: nat, token: nat)
    requires RingSize(|r.avail|) && WindowOk(r, g)
    requires |g.chains| < |r.avail| && head !in g.chains
    requires g2.chains.Keys == g.chains.Keys + {head} && g2.log == g.log + [head]
    ensures WindowOk(Expose(r, head, token), g2)
  {
    OneMoreHead(g.chains, g2.chains, head);
    ExposeSlots(r, Expose(r, head, token), g, g2, head);
  }

  lemma ExposeSlots(r: Ring, r2: Ring, g: Shape, g2: Shape, head: nat)
    requires RingSize(|r.avail|) && WindowOk(r, g) && |g.chains| < |r.avail|
    requires |g2.chains| == |g.chains| + 1 && g2.log == g.log + [head]
    requires r2.avail == r.avail[Slot(r.availIdx, |r.avail|) := head]
    requires r2.availIdx == Wrap16(r.availIdx + 1) && r2.lastUsedIdx == r.lastUsedIdx
    ensures WindowOk(r2, g2)
  {
    var n, num := |g.log|, |r.avail|;
    WrapSuccessor(n);
    SlotOfWrapped(n, num);
    forall q | n + 1 - |g2.chains| <= q < n + 1
      ensures r2.avail[Slot(q, num)] == g2.log[q]
    {
      if q < n { DistinctSlots(q, n, num); }
    }
  }

  lemma ExposeTokens(r: Ring, g: Shape, g2: Shape, head: nat, token: nat)
    requires |r.avail| > 0 && TokensOk(r, g) && head < |r.data| && token != 0
    requires g2.chains.Keys == g.chains.Keys + {head}
    ensures TokensOk(Expose(r, head, token), g2)
  {
  }

  lemma KickBooks(r: Ring, g: Shape, dev: KickView)
    requires |r.avail| > 0 && TokensOk(r, g) && WindowOk(r, g)
    ensures Books(Kick(r, dev), g)
  {
  }

  lemma PublishBooks(r: Ring, g: Shape, g2: Shape, head: nat, token: nat, dev: KickView)
    requires RingSize(|r.avail|) && Books(r, g)
    requires |g.chains| < |r.avail| && head !in g.chains && head < |r.data| && token != 0
    requires g2.chains.Keys == g.chains.Keys + {head} && g2.log == g.log + [head]
    ensures Books(Publish(r, head, token, dev), g2)
  {
    ExposeWindow(r, g, g2, head, token);
    ExposeTokens(r, g, g2, head, token);
    var p := Expose(r, head, token);
    if p.numAdded == FORCED_KICK { KickBooks(p, g2, dev); }
  }

  lemma PublishFrame(r: Ring, head: nat, token: nat, dev: KickView)
    requires |r.avail| > 0
    ensures var p := Publish(r, head, token, dev);
      && p.desc == r.desc && p.tables == r.tables && p.freeHead == r.freeHead && p.numFree == r.numFree
      && |p.data| == |r.data| && |p.avail| == |r.avail|
  {
  }

  lemma BooksFrame(r: Ring, g: Shape, r1: Ring)
    requires |r.avail| > 0 && Books(r, g)
    requires r1.data == r.data && r1.avail == r.avail && r1.availIdx == r.availIdx
    requires r1.lastUsedIdx == r.lastUsedIdx && r1.numAdded == r.numAdded
    ensures Books(r1, g)
  {
  }

  lemma PublishInv(r: Ring, g: Shape, r1: Ring, g1: Shape, head: nat, token: nat, dev: KickView)
    requires Inv(r, g) && Layout(r1, g1)
    requires head !in g.chains && head < r.Num() && g1.chains.Keys == g.chains.Keys + {head}
    requires g1.log == g.log && token != 0 && r.numFree > 0
    requires r1.Num() == r.Num() && r1.data == r.data && r1.avail == r.avail && r1.availIdx == r.availIdx
    requires r1.lastUsedIdx == r.lastUsedIdx && r1.numAdded == r.numAdded
    ensures Inv(Publish(r1, head, token, dev), g1.(log := g.log + [head]))
  {
    var g2 := g1.(log := g.log + [head]);
    InFlightBound(r, g);
    BooksFrame(r, g, r1);
    PublishBooks(r1, g, g2, head, token, dev);
    PublishFrame(r1, head, token, dev);
    SameLayout(r1, g1, Publish(r1, head, token, dev), g2);
  }

  // The layout depends on the table, the free list and the shape only.
  lemma SameLayout(r1: Ring, g1: Shape, r2: Ring, g2: Shape)
    requires Layout(r1, g1)
    requires r2.desc == r1.desc && r2.tables == r1.tables && r2.freeHead == r1.freeHead && r2.numFree == r1.numFree
    requires |r2.data| == |r1.data| && |r2.avail| == |r1.avail| && g2 == g1.(log := g2.log)
    ensures Layout(r2, g2)
  {
    forall h | h in g2.chains
      ensures ChainOk(r2, g2, h)
    {
      assert ChainOk(r1, g1, h);
    }
    forall x | 0 <= x < r2.Num()
      ensures Placed(g2, x)
    {
      assert Placed(g1, x);
    }
  }

  function AddShape(r: Ring, g: Shape, elems: seq<Elem>, token: nat, kmalloc: Option<nat>): Shape
    requires Sized(r, g)
  {
    var k := if GoesIndirect(r, elems, kmalloc) then 1 else |elems|;
    if !AddOutcome(r, elems, token, kmalloc).Added? || k == 0 || |g.free| < k then g
    else
      var g1 := if GoesIndirect(r, elems, kmalloc) then TakenIndirect(r, g, elems, kmalloc.value)
                else Taken(g, k, elems);
      g1.(log := g.log + [r.freeHead])
  }

  // kmalloc returns memory that is not in use.
  predicate FreshTable(r: Ring, kmalloc: Option<nat>)
  {
    kmalloc.Some? ==> kmalloc.value !in r.tables
  }

  lemma AddInv(r: Ring, g: Shape, elems: seq<Elem>, hasOut: bool, token: nat, kmalloc: Option<nat>, dev: KickView)
    requires Inv(r, g) && FreshTable(r, kmalloc)
    ensures Inv(Add(r, elems, hasOut, token, kmalloc, dev), AddShape(r, g, elems, token, kmalloc))
  {
    match AddOutcome(r, elems, token, kmalloc)
    case Bug =>
    case NoSpace => NotifyInv(r, g);
    case Added(head) =>
      if GoesIndirect(r, elems, kmalloc) {
        AddIndirectInv(r, g, elems, token, kmalloc.value, dev);
      } else {
        AddDirectInv(r, g, elems, token, dev);
      }
  }

  lemma IndirectFrame(r: Ring, g: Shape, elems: seq<Elem>, at: nat)
    requires Sized(r, g) && FreeOk(r, g) && 0 < r.numFree && at !in r.tables
    ensures var r1, g1 := FillIndirect(r, elems, at), TakenIndirect(r, g, elems, at);
      && r.freeHead == g.free[0] < r.Num()
      && g1.chains.Keys == g.chains.Keys + {r.freeHead} && g1.log == g.log
      && r1.Num() == r.Num() && r1.data == r.data && r1.avail == r.avail && r1.availIdx == r.availIdx
      && r1.lastUsedIdx == r.lastUsedIdx && r1.numAdded == r.numAdded
  {
  }

  lemma AddIndirectInv(r: Ring, g: Shape, elems: seq<Elem>, token: nat, at: nat, dev: KickView)
    requires Inv(r, g) && elems != [] && r.numFree > 0 && token != 0 && at !in r.tables
    ensures Inv(Publish(FillIndirect(r, elems, at), r.freeHead, token, dev),
                TakenIndirect(r, g, elems, at).(log := g.log + [r.freeHead]))
  {
    FreeHeadUnowned(r, g);
    AddIndirectLayout(r, g, elems, at);
    IndirectFrame(r, g, elems, at);
    PublishInv(r, g, FillIndirect(r, elems, at), TakenIndirect(r, g, elems, at), r.freeHead, token, dev);
  }

  lemma DirectFrame(r: Ring, g: Shape, elems: seq<Elem>)
    requires Layout(r, g) && 0 < |elems| <= r.numFree
    ensures var r1, g1 := FillDirect(r, elems), Taken(g, |elems|, elems);
      && r.freeHead == g.free[0] < r.Num()
      && g1.chains.Keys == g.chains.Keys + {r.freeHead} && g1.log == g.log
      && r1.Num() == r.Num() && r1.data == r.data && r1.avail == r.avail && r1.availIdx == r.availIdx
      && r1.lastUsedIdx == r.lastUsedIdx && r1.numAdded == r.numAdded
  {
    FillDirectFacts(r, g, elems);
  }

  lemma AddDirectInv(r: Ring, g: Shape, elems: seq<Elem>, token: nat, dev: KickView)
    requires Inv(r, g) && 0 < |elems| <= r.numFree && token != 0
    ensures Inv(Publish(FillDirect(r, elems), r.freeHead, token, dev),
                Taken(g, |elems|, elems).(log := g.log + [r.freeHead]))
  {
    FreeHeadUnowned(r, g);
    AddDirectLayout(r, g, elems);
    DirectFrame(r, g, elems);
    PublishInv(r, g, FillDirect(r, elems), Taken(g, |elems|, elems), r.freeHead, token, dev);
  }

  lemma NotifyInv(r: Ring, g: Shape)
    requires Inv(r, g)
    ensures Inv(Notify(r), g)
  {
    SameLayout(r, g, Notify(r), g);
  }

  /* ---- giving back ---- */

  function Returned(r: Ring, g: Shape, h: nat): Shape
    requires h in g.chains && h < r.Num() && |g.owner| == |g.pos|
  {
    g.(free := g.chains[h] + g.free,
       chains := g.chains - {h},
       bufs := g.bufs - {h},
       owner := seq(|g.owner|, x requires 0 <= x < |g.owner| => if g.owner[x] == Some(h) then None else g.owner[x]),
       pos := seq(|g.pos|, x requires 0 <= x < |g.pos| => if g.owner[x] == None then g.pos[x] + |g.chains[h]|
                  else g.pos[x]),
       tabs := if r.desc[h].flags.indirect then g.tabs - {r.desc[h].addr} else g.tabs)
  }

  lemma {:induction false} ChainFollows(r: Ring, g: Shape, h: nat, i: nat, fuel: nat)
    requires Sized(r, g) && h in g.chains && h in g.bufs && ChainOk(r, g, h)
    requires i < |g.chains[h]| && |g.chains[h]| - i <= fuel
    ensures Chain(r.desc, g.chains[h][i], fuel) == g.chains[h][i..]
    decreases fuel
  {
    var cells := g.chains[h];
    if !r.desc[h].flags.indirect {
      assert Holds(r.desc[cells[i]], g.bufs[h][i], i + 1 < |cells|);
      if i + 1 < |cells| {
        assert Link(r.desc, cells, i);
        ChainFollows(r, g, h, i + 1, fuel - 1);
        assert [cells[i]] + cells[i + 1..] == cells[i..];
      }
    }
  }

  // A chain has no repetition, so it fits the table.
  lemma ChainIs(r: Ring, g: Shape, h: nat)
    requires Layout(r, g) && h in g.chains
    ensures ChainOf(r, h) == g.chains[h] && 0 < |g.chains[h]| <= r.Num()
  {
    assert ChainOk(r, g, h);
    TotalWithout(g.chains, h, r.Num());
    ChainFollows(r, g, h, 0, r.Num());
  }

  lemma ReturnedPlacedAt(r: Ring, g: Shape, h: nat, x: nat)
    requires |g.owner| == |g.pos| == r.Num() && h in g.chains && h < r.Num() && x < r.Num()
    requires Placed(g, x)
    ensures Placed(Returned(r, g, h), x)
  {
  }

  lemma ReturnedPlaced(r: Ring, g: Shape, h: nat)
    requires Layout(r, g) && h in g.chains && h < r.Num()
    ensures forall x :: 0 <= x < r.Num() ==> Placed(Returned(r, g, h), x)
    ensures |Returned(r, g, h).free| + ChainTotal(Returned(r, g, h).chains, r.Num()) == r.Num()
  {
    TotalWithout(g.chains, h, r.Num());
    forall x | 0 <= x < r.Num()
      ensures Placed(Returned(r, g, h), x)
    {
      ReturnedPlacedAt(r, g, h, x);
    }
  }

  lemma ReturnedFree(r: Ring, g: Shape, h: nat)
    requires Layout(r, g) && h in g.chains && h < r.Num()
    ensures FreeOk(Detach(r, h), Returned(r, g, h))
  {
    ChainIs(r, g, h);
    assert ChainOk(r, g, h);
    var r', g' := Detach(r, h), Returned(r, g, h);
    var cells := g.chains[h];
    forall j | 0 <= j < |g'.free|
      ensures g'.free[j] < r.Num() && g'.owner[g'.free[j]] == None && g'.pos[g'.free[j]] == j
    {
      if j < |cells| {
        assert g.owner[cells[j]] == Some(h);
      } else {
        assert g.owner[g.free[j - |cells|]] == None;
      }
    }
    forall j | 0 <= j < |g'.free| - 1
      ensures Link(r'.desc, g'.free, j)
    {
      ReturnedLink(r, g, h, j);
    }
  }

  // In detach_buf only the last descriptor of the chain is written, its next field.
  lemma DetachDesc(r: Ring, g: Shape, h: nat)
    requires Layout(r, g) && h in g.chains && h < r.Num()
    ensures var cells := g.chains[h]; var last := cells[|cells| - 1];
      last < r.Num() && Detach(r, h).desc == r.desc[last := r.desc[last].(next := r.freeHead)]
  {
    ChainIs(r, g, h);
  }

  lemma ReturnedLink(r: Ring, g: Shape, h: nat, j: nat)
    requires Layout(r, g) && h in g.chains && h < r.Num()
    requires j + 1 < |g.chains[h] + g.free|
    ensures Link(Detach(r, h).desc, g.chains[h] + g.free, j)
  {
    var cells := g.chains[h];
    assert ChainOk(r, g, h);
    DetachDesc(r, g, h);
    if j < |cells| - 1 {
      assert Link(r.desc, cells, j);
      assert g.pos[cells[j]] == j && g.pos[cells[|cells| - 1]] == |cells| - 1;
    } else if j >= |cells| {
      assert Link(r.desc, g.free, j - |cells|);
      assert g.owner[g.free[j - |cells|]] == None && g.owner[cells[|cells| - 1]] == Some(h);
    }
  }

  lemma ReturnedCells(r: Ring, g: Shape, h: nat, o: nat)
    requires Layout(r, g) && h in g.chains && h < r.Num() && o in g.chains && o != h
    ensures Detach(r, h).Num() == r.Num()
    ensures forall j :: 0 <= j < |g.chains[o]| ==>
              g.chains[o][j] < r.Num() && Detach(r, h).desc[g.chains[o][j]] == r.desc[g.chains[o][j]]
  {
    ChainIs(r, g, h);
    assert ChainOk(r, g, h) && ChainOk(r, g, o);
    assert g.owner[g.chains[h][|g.chains[h]| - 1]] == Some(h);
    forall j | 0 <= j < |g.chains[o]|
      ensures g.owner[g.chains[o][j]] == Some(o)
    {
    }
  }

  lemma ReturnedOwned(r: Ring, g: Shape, h: nat, o: nat)
    requires Layout(r, g) && h in g.chains && h < r.Num() && o in g.chains && o != h
    ensures Owned(r.Num(), Returned(r, g, h), o)
  {
    assert ChainOk(r, g, o);
  }

  lemma TablesDistinct(r: Ring, g: Shape, h: nat, o: nat)
    requires Layout(r, g) && h in g.chains && o in g.chains && o != h && h < r.Num() && o < r.Num()
    ensures r.desc[o].flags.indirect && r.desc[h].flags.indirect ==> r.desc[o].addr != r.desc[h].addr
  {
    assert ChainOk(r, g, h) && ChainOk(r, g, o);
  }

  lemma ReturnedOthers(r: Ring, g: Shape, h: nat, o: nat)
    requires Layout(r, g) && h in g.chains && h < r.Num() && o in g.chains && o != h
    ensures Sized(Detach(r, h), Returned(r, g, h))
    ensures o < r.Num() && Detach(r, h).desc[o] == r.desc[o]
    ensures ChainOk(Detach(r, h), Returned(r, g, h), o)
  {
    assert ChainOk(r, g, o);
    ReturnedCells(r, g, h, o);
    assert g.chains[o][0] == o;
    ReturnedOwned(r, g, h, o);
    TablesDistinct(r, g, h, o);
    StillOk(r, g, Detach(r, h), Returned(r, g, h), o);
  }

  // A chain whose descriptors, table and owners stand is still in order.
  lemma StillOk(r: Ring, g: Shape, r': Ring, g': Shape, o: nat)
    requires Sized(r, g) && Sized(r', g') && r'.Num() == r.Num()
    requires o in g.chains && o in g.bufs && ChainOk(r, g, o)
    requires o in g'.chains && o in g'.bufs && g'.chains[o] == g.chains[o] && g'.bufs[o] == g.bufs[o]
    requires Owned(r.Num(), g', o)
    requires forall j :: 0 <= j < |g.chains[o]| ==> r'.desc[g.chains[o][j]] == r.desc[g.chains[o][j]]
    requires r.desc[o].flags.indirect ==>
      var a := r.desc[o].addr;
      a in r.tables && a in r'.tables && r'.tables[a] == r.tables[a] && a in g'.tabs && g'.tabs[a] == o
    ensures ChainOk(r', g', o)
  {
    assert r'.desc[o] == r.desc[o] by { assert g.chains[o][0] == o; }
    if !r.desc[o].flags.indirect {
      forall j | 0 <= j < |g.chains[o]| - 1
        ensures Link(r'.desc, g.chains[o], j)
      {
        assert Link(r.desc, g.chains[o], j);
      }
    }
  }

  lemma ReturnedTabs(r: Ring, g: Shape, h: nat)
    requires Layout(r, g) && h in g.chains && h < r.Num()
    ensures Sized(Detach(r, h), Returned(r, g, h))
    ensures TabsOk(Detach(r, h), Returned(r, g, h))
  {
    var r', g' := Detach(r, h), Returned(r, g, h);
    ChainIs(r, g, h);
    assert ChainOk(r, g, h);
    forall a | a in g'.tabs
      ensures g'.tabs[a] in g'.chains && g'.tabs[a] < r.Num()
      ensures r'.desc[g'.tabs[a]].flags.indirect && r'.desc[g'.tabs[a]].addr == a
    {
      assert g.tabs[a] != h;
      assert ChainOk(r, g, g.tabs[a]);
      ReturnedCells(r, g, h, g.tabs[a]);
      assert g.chains[g.tabs[a]][0] == g.tabs[a];
    }
  }

  lemma DetachLayout(r: Ring, g: Shape, h: nat)
    requires Layout(r, g) && h in g.chains && h < r.Num()
    ensures Layout(Detach(r, h), Returned(r, g, h))
  {
    var r', g' := Detach(r, h), Returned(r, g, h);
    ReturnedPlaced(r, g, h);
    ReturnedFree(r, g, h);
    ReturnedTabs(r, g, h);
    assert ChainsOk(r', g') by {
      forall o | o in g'.chains
        ensures ChainOk(r', g', o)
      {
        ReturnedOthers(r, g, h, o);
      }
    }
  }

  function GetShape(r: Ring, g: Shape, used: UsedView): Shape
    requires Sized(r, g) && |used.ring| == r.Num()
  {
    var res := GetResult(r, used);
    if res.Got? && res.id in g.chains then Returned(r, g, res.id) else g
  }

  lemma ReturnedTokens(r: Ring, g: Shape, h: nat, r': Ring, g': Shape)
    requires TokensOk(r, g) && h in g.chains && h < |r.data|
    requires r'.data == r.data[h := 0] && g'.chains == g.chains - {h}
    ensures TokensOk(r', g')
    ensures 0 < |g.chains| && |g'.chains| == |g.chains| - 1
  {
    assert g'.chains.Keys == g.chains.Keys - {h};
  }

  // get_buf: the window loses its oldest position.
  lemma GotBooks(r: Ring, g: Shape, h: nat, r': Ring, g': Shape)
    requires |r.avail| > 0 && Books(r, g) && h in g.chains && h < |r.data|
    requires r'.data == r.data[h := 0] && r'.avail == r.avail && r'.numAdded == r.numAdded && r'.availIdx == r.availIdx
    requires g'.chains == g.chains - {h} && g'.log == g.log && r'.lastUsedIdx == Wrap16(r.lastUsedIdx + 1)
    ensures Books(r', g')
  {
    ReturnedTokens(r, g, h, r', g');
    WrapSuccessor(|g.log| - |g.chains|);
  }

  // detach of an unused buffer: the window loses its newest position.
  lemma UnusedBooks(r: Ring, g: Shape, h: nat, r': Ring, g': Shape)
    requires |r.avail| > 0 && Books(r, g) && h in g.chains && h < |r.data|
    requires r'.data == r.data[h := 0] && r'.avail == r.avail && r'.numAdded == r.numAdded
    requires g'.chains == g.chains - {h} && g.log != [] && g'.log == g.log[..|g.log| - 1]
    requires r'.availIdx == Wrap16(r.availIdx - 1) && r'.lastUsedIdx == r.lastUsedIdx
    ensures Books(r', g')
  {
    ReturnedTokens(r, g, h, r', g');
    WrapSuccessor(|g.log|);
  }

  lemma ReturnedInv(r: Ring, g: Shape, h: nat, r': Ring, g': Shape)
    requires Inv(r, g) && h in g.chains && h < r.Num()
    requires |r'.avail| > 0 && Books(r', g') && g' == Returned(r, g, h).(log := g'.log)
    requires var d := Detach(r, h);
      r'.desc == d.desc && r'.tables == d.tables && r'.freeHead == d.freeHead && r'.numFree == d.numFree
      && |r'.data| == |r.data| && |r'.avail| == |r.avail|
    ensures Inv(r', g')
  {
    DetachLayout(r, g, h);
    SameLayout(Detach(r, h), Returned(r, g, h), r', g');
  }

  // Whatever the device wrote to the used ring.
  lemma GetInv(r: Ring, g: Shape, used: UsedView)
    requires Inv(r, g) && |used.ring| == r.Num()
    ensures Inv(GetBuf(r, used), GetShape(r, g, used))
  {
    if GetResult(r, used).Got? {
      GetInvGot(r, g, used);
    } else if GetResult(r, used).BadId? {
      GetInvBad(r, g, used);
    }
  }

  lemma GetInvBad(r: Ring, g: Shape, used: UsedView)
    requires Inv(r, g) && |used.ring| == r.Num() && GetResult(r, used).BadId?
    ensures Inv(GetBuf(r, used), GetShape(r, g, used))
  {
    BrokenInv(r, g);
  }

  lemma GetBufIs(r: Ring, g: Shape, used: UsedView)
    requires Sized(r, g) && |used.ring| == r.Num() && GetResult(r, used).Got?
    ensures GetBuf(r, used) == Detach(r, GetResult(r, used).id).(
              lastUsedIdx := Wrap16(r.lastUsedIdx + 1),
              usedEvent := if r.noInterrupt then r.usedEvent else Wrap16(r.lastUsedIdx + 1))
  {
  }

  lemma GetInvGot(r: Ring, g: Shape, used: UsedView)
    requires Inv(r, g) && |used.ring| == r.Num() && GetResult(r, used).Got?
    ensures Inv(GetBuf(r, used), GetShape(r, g, used))
  {
    var id := GetResult(r, used).id;
    assert id in g.chains;
    GetBufIs(r, g, used);
    GotInv(r, g, id, Wrap16(r.lastUsedIdx + 1), if r.noInterrupt then r.usedEvent else Wrap16(r.lastUsedIdx + 1));
  }

  lemma BrokenInv(r: Ring, g: Shape)
    requires Inv(r, g)
    ensures Inv(r.(broken := true), g)
  {
    SameLayout(r, g, r.(broken := true), g);
  }

  lemma GotInv(r: Ring, g: Shape, h: nat, next: nat, event: nat)
    requires Inv(r, g) && h in g.chains && h < r.Num() && next == Wrap16(r.lastUsedIdx + 1)
    ensures Inv(Detach(r, h).(lastUsedIdx := next, usedEvent := event), Returned(r, g, h))
  {
    var r' := Detach(r, h).(lastUsedIdx := next, usedEvent := event);
    GotBooks(r, g, h, r', Returned(r, g, h));
    ReturnedInv(r, g, h, r', Returned(r, g, h));
  }

  function DetachUnusedShape(r: Ring, g: Shape): Shape
    requires Sized(r, g)
  {
    var h := FirstHead(r.data, 0);
    if h !in g.chains || h == |r.data| || g.log == [] then g else Returned(r, g, h).(log := g.log[..|g.log| - 1])
  }

  lemma DetachUnusedInv(r: Ring, g: Shape)
    requires Inv(r, g)
    ensures Inv(DetachUnused(r), DetachUnusedShape(r, g))
  {
    if FirstHead(r.data, 0) < |r.data| { DetachUnusedInvSome(r, g); }
  }

  lemma DetachUnusedIs(r: Ring, g: Shape)
    requires Sized(r, g) && FirstHead(r.data, 0) < |r.data|
    ensures DetachUnused(r) == Detach(r, FirstHead(r.data, 0)).(availIdx := Wrap16(r.availIdx - 1))
  {
  }

  lemma DetachUnusedInvSome(r: Ring, g: Shape)
    requires Inv(r, g) && FirstHead(r.data, 0) < |r.data|
    ensures Inv(DetachUnused(r), DetachUnusedShape(r, g))
  {
    var h := FirstHead(r.data, 0);
    assert |g.chains| > 0 by { assert h in g.chains.Keys; }
    DetachUnusedIs(r, g);
    UnusedInv(r, g, h);
  }

  lemma UnusedInv(r: Ring, g: Shape, h: nat)
    requires Inv(r, g) && h in g.chains && h < r.Num() && g.log != []
    ensures Inv(Detach(r, h).(availIdx := Wrap16(r.availIdx - 1)), Returned(r, g, h).(log := g.log[..|g.log| - 1]))
  {
    var r', g' := Detach(r, h).(availIdx := Wrap16(r.availIdx - 1)), Returned(r, g, h).(log := g.log[..|g.log| - 1]);
    UnusedBooks(r, g, h, r', g');
    ReturnedInv(r, g, h, r', g');
  }

  // Kicks and interrupt switches touch no descriptor, token or index.
  lemma IndexOnlyInv(r: Ring, g: Shape, r': Ring)
    requires Inv(r, g)
    requires r' == r.(noInterrupt := r'.noInterrupt, usedEvent := r'.usedEvent, numAdded := r'.numAdded,
                      notifies := r'.notifies)
    requires r'.numAdded <= r.numAdded
    ensures Inv(r', g)
  {
    SameLayout(r, g, r', g);
  }
}
