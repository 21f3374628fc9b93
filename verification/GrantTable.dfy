/**
 The grant reference free list of gnttab.c as values: a list threaded through a two-level
 table that grows on demand, private lists cut from it, and callers waiting for entries.
 */
module GrantTable {
  import opened Basics

  const RPP := 1024               // references per free-list page
  const ENTRIES := 512            // grant entries per grant frame
  const RESERVED := 8             // NR_RESERVED_ENTRIES
  const LIST_END := 0xffff_ffff   // GNTTAB_LIST_END
  const INT_REFS := 0x8000_0000  // references that an int return value can carry

  /* ---- the two-level table ---- */

  // Dangling: a page that a failed grow has given back but still points to.
  datatype Page = Absent | Dangling | Present(cells: seq<nat>)

  predicate Backed(t: seq<Page>, e: nat)
  {
    e / RPP < |t| && t[e / RPP].Present? && |t[e / RPP].cells| == RPP
  }

  // gnttab_entry(e)
  function Cell(t: seq<Page>, e: nat): nat
    requires Backed(t, e)
  {
    t[e / RPP].cells[e % RPP]
  }

  function Put(t: seq<Page>, e: nat, v: nat): (t': seq<Page>)
    requires Backed(t, e)
    ensures |t'| == |t|
  {
    t[e / RPP := Present(t[e / RPP].cells[e % RPP := v])]
  }

  lemma PutCell(t: seq<Page>, e: nat, v: nat, f: nat)
    requires Backed(t, e)
    ensures Backed(Put(t, e, v), f) <==> Backed(t, f)
    ensures Backed(t, f) ==> Cell(Put(t, e, v), f) == if f == e then v else Cell(t, f)
  {
  }

  ghost predicate BackedBelow(t: seq<Page>, n: nat)
  {
    forall e: nat :: e < n ==> Backed(t, e)
  }

  ghost predicate SameBelow(t: seq<Page>, t': seq<Page>, n: nat)
  {
    forall e: nat :: e < n && Backed(t, e) ==> Backed(t', e) && Cell(t', e) == Cell(t, e)
  }

  // nr_freelist_frames: pages needed for the entries of so many grant frames.
  function FreelistFrames(frames: nat): nat { CeilDiv(frames * ENTRIES, RPP) }

  // a / d rounded up, written (a + d - 1) / d in the source: the least q with a <= q * d.
  function CeilDiv(a: nat, d: nat): (q: nat)
    requires d > 0
    ensures a <= q * d < a + d
  {
    if a == 0 then 0 else if a <= d then 1 else 1 + CeilDiv(a - d, d)
  }

  lemma FreelistFramesFit(frames: nat, more: nat)
    ensures FreelistFrames(frames) <= FreelistFrames(frames + more)
    ensures forall e: nat :: e < frames * ENTRIES ==> e / RPP < FreelistFrames(frames)
  {
  }

  /* ---- lists ---- */

  datatype Key = FreeList | Private(id: nat)

  // The ghost side: what is on each list, and where each reference is. pos counts from the
  // end of the list, so that work at the front moves nobody else.
  datatype Shape = Shape(lists: map<Key, seq<nat>>, owner: seq<Option<Key>>, pos: seq<nat>)

  ghost predicate NextOk(t: seq<Page>, cells: seq<nat>, i: nat)
  {
    i < |cells| && Backed(t, cells[i])
    && Cell(t, cells[i]) == if i + 1 < |cells| then cells[i + 1] else LIST_END
  }

  function HeadOf(cells: seq<nat>): nat { if cells == [] then LIST_END else cells[0] }

  ghost predicate On(g: Shape, k: Key, i: nat)
    requires |g.owner| == |g.pos| && k in g.lists
  {
    var cells := g.lists[k];
    i < |cells| && cells[i] < |g.owner| && g.owner[cells[i]] == Some(k) && g.pos[cells[i]] == |cells| - 1 - i
  }

  ghost predicate ListOk(t: seq<Page>, heads: map<Key, nat>, g: Shape, k: Key)
    requires |g.owner| == |g.pos| && k in g.lists && k in heads
  {
    && heads[k] == HeadOf(g.lists[k])
    && (forall i :: 0 <= i < |g.lists[k]| ==> On(g, k, i))
    && (forall i :: 0 <= i < |g.lists[k]| ==> NextOk(t, g.lists[k], i))
  }

  ghost predicate Placed(g: Shape, e: nat)
    requires |g.owner| == |g.pos| && e < |g.owner|
  {
    match g.owner[e]
    case None => true
    case Some(k) =>
      k in g.lists && g.pos[e] < |g.lists[k]| && g.lists[k][|g.lists[k]| - 1 - g.pos[e]] == e
  }

  // Every reference below the limit is on the list its owner says, and nowhere else; those
  // without an owner are handed out, or reserved.
  ghost predicate Layout(t: seq<Page>, heads: map<Key, nat>, g: Shape)
  {
    && |g.owner| == |g.pos| <= LIST_END
    && BackedBelow(t, |g.owner|)
    && heads.Keys == g.lists.Keys && FreeList in heads
    && (forall k :: k in g.lists ==> ListOk(t, heads, g, k))
    && (forall e :: 0 <= e < |g.owner| ==> Placed(g, e))
    && (forall e :: 0 <= e < |g.owner| && e < RESERVED ==> g.owner[e] == None)
  }

  /* ---- moving references between lists ---- */

  // Writing entry e leaves every list that e is not on in order.
  lemma OtherListStands(t: seq<Page>, heads: map<Key, nat>, g: Shape, e: nat, v: nat,
                        heads': map<Key, nat>, g': Shape, k: Key)
    requires Layout(t, heads, g) && e < |g.owner| && g.owner[e] != Some(k) && k in g.lists
    requires |g'.owner| == |g'.pos| == |g.owner| && k in heads' && heads'[k] == heads[k]
    requires k in g'.lists && g'.lists[k] == g.lists[k]
    requires forall f :: 0 <= f < |g.owner| && g.owner[f] == Some(k) ==> g'.owner[f] == Some(k) && g'.pos[f] == g.pos[f]
    ensures ListOk(Put(t, e, v), heads', g', k)
  {
    assert ListOk(t, heads, g, k);
    var cells := g.lists[k];
    forall i | 0 <= i < |cells|
      ensures On(g', k, i) && NextOk(Put(t, e, v), cells, i)
    {
      assert On(g, k, i) && NextOk(t, cells, i);
      PutCell(t, e, v, cells[i]);
    }
  }

  lemma StillBacked(t: seq<Page>, e: nat, v: nat, n: nat)
    requires Backed(t, e) && BackedBelow(t, n)
    ensures BackedBelow(Put(t, e, v), n)
  {
    forall f: nat | f < n
      ensures Backed(Put(t, e, v), f)
    {
      PutCell(t, e, v, f);
    }
  }

  // put_free_entry and gnttab_release_grant_reference: a reference that is out goes to the front.
  function Pushed(g: Shape, k: Key, e: nat): Shape
    requires k in g.lists && |g.owner| == |g.pos| && e < |g.owner|
  {
    g.(lists := g.lists[k := [e] + g.lists[k]], owner := g.owner[e := Some(k)], pos := g.pos[e := |g.lists[k]|])
  }

  lemma PushLayout(t: seq<Page>, heads: map<Key, nat>, g: Shape, k: Key, e: nat)
    requires Layout(t, heads, g) && k in g.lists && RESERVED <= e < |g.owner| && g.owner[e] == None
    ensures Layout(Put(t, e, heads[k]), heads[k := e], Pushed(g, k, e))
  {
    var t', heads', g' := Put(t, e, heads[k]), heads[k := e], Pushed(g, k, e);
    StillBacked(t, e, heads[k], |g.owner|);
    forall o | o in g'.lists
      ensures ListOk(t', heads', g', o)
    {
      if o == k { PushedList(t, heads, g, k, e); } else { OtherListStands(t, heads, g, e, heads[k], heads', g', o); }
    }
    forall f | 0 <= f < |g'.owner|
      ensures Placed(g', f)
    {
      assert Placed(g, f);
    }
  }

  lemma PushedList(t: seq<Page>, heads: map<Key, nat>, g: Shape, k: Key, e: nat)
    requires Layout(t, heads, g) && k in g.lists && e < |g.owner| && g.owner[e] == None
    ensures ListOk(Put(t, e, heads[k]), heads[k := e], Pushed(g, k, e), k)
  {
    var t', g' := Put(t, e, heads[k]), Pushed(g, k, e);
    var cells, cells' := g.lists[k], g'.lists[k];
    assert ListOk(t, heads, g, k);
    PutCell(t, e, heads[k], e);
    forall i | 0 <= i < |cells'|
      ensures On(g', k, i) && NextOk(t', cells', i)
    {
      if i > 0 {
        assert On(g, k, i - 1) && NextOk(t, cells, i - 1);
        PutCell(t, e, heads[k], cells[i - 1]);
      }
    }
  }

  // gnttab_claim_grant_reference: the first reference of a list is handed out; nothing is written.
  function Popped(g: Shape, k: Key): Shape
    requires k in g.lists && g.lists[k] != [] && g.lists[k][0] < |g.owner|
  {
    g.(lists := g.lists[k := g.lists[k][1..]], owner := g.owner[g.lists[k][0] := None])
  }

  lemma PopLayout(t: seq<Page>, heads: map<Key, nat>, g: Shape, k: Key)
    requires Layout(t, heads, g) && k in g.lists && heads[k] != LIST_END
    ensures g.lists[k] != [] && heads[k] == g.lists[k][0] && RESERVED <= heads[k] < |g.owner| && Backed(t, heads[k])
    ensures g.owner[heads[k]] == Some(k)
    ensures Layout(t, heads[k := Cell(t, heads[k])], Popped(g, k))
  {
    assert ListOk(t, heads, g, k);
    assert On(g, k, 0) && NextOk(t, g.lists[k], 0);
    var heads', g' := heads[k := Cell(t, heads[k])], Popped(g, k);
    forall o | o in g'.lists
      ensures ListOk(t, heads', g', o)
    {
      PoppedList(t, heads, g, k, o);
    }
    forall f | 0 <= f < |g'.owner|
      ensures Placed(g', f)
    {
      assert Placed(g, f);
    }
  }

  lemma PoppedList(t: seq<Page>, heads: map<Key, nat>, g: Shape, k: Key, o: Key)
    requires Layout(t, heads, g) && k in g.lists && g.lists[k] != [] && o in g.lists
    ensures On(g, k, 0) && NextOk(t, g.lists[k], 0)
    ensures ListOk(t, heads[k := Cell(t, g.lists[k][0])], Popped(g, k), o)
  {
    assert ListOk(t, heads, g, k) && ListOk(t, heads, g, o);
    assert On(g, k, 0) && NextOk(t, g.lists[k], 0);
    var g' := Popped(g, k);
    forall i | 0 <= i < |g'.lists[o]|
      ensures On(g', o, i) && NextOk(t, g'.lists[o], i)
    {
      var j := if o == k then i + 1 else i;
      assert On(g, o, j) && NextOk(t, g.lists[o], j);
      assert On(g, k, 0);
    }
  }

  // The detaching half of get_free_entries: the first n of the free list become list k.
  function Split(g: Shape, k: Key, n: nat): Shape
    requires FreeList in g.lists && 0 < n <= |g.lists[FreeList]| && |g.owner| == |g.pos|
  {
    var cells := g.lists[FreeList];
    g.(lists := g.lists[FreeList := cells[n..]][k := cells[..n]],
       owner := seq(|g.owner|, f requires 0 <= f < |g.owner| =>
                  if g.owner[f] == Some(FreeList) && g.pos[f] >= |cells| - n then Some(k) else g.owner[f]),
       pos := seq(|g.pos|, f requires 0 <= f < |g.pos| =>
                if g.owner[f] == Some(FreeList) && g.pos[f] >= |cells| - n then g.pos[f] - (|cells| - n) else g.pos[f]))
  }

  lemma SplitLayout(t: seq<Page>, heads: map<Key, nat>, g: Shape, k: Key, n: nat)
    requires Layout(t, heads, g) && k != FreeList && k !in g.lists && 0 < n <= |g.lists[FreeList]|
    ensures var last := g.lists[FreeList][n - 1];
      && Backed(t, last)
      && Layout(Put(t, last, LIST_END), heads[FreeList := Cell(t, last)][k := heads[FreeList]], Split(g, k, n))
  {
    var cells := g.lists[FreeList];
    var last := cells[n - 1];
    assert ListOk(t, heads, g, FreeList);
    assert On(g, FreeList, n - 1) && NextOk(t, cells, n - 1);
    var t', heads', g' := Put(t, last, LIST_END), heads[FreeList := Cell(t, last)][k := heads[FreeList]],
        Split(g, k, n);
    StillBacked(t, last, LIST_END, |g.owner|);
    assert heads'.Keys == heads.Keys + {k} && g'.lists.Keys == g.lists.Keys + {k};
    forall o | o in g'.lists
      ensures ListOk(t', heads', g', o)
    {
      if o == k || o == FreeList {
        SplitLists(t, heads, g, k, n);
      } else {
        OtherListStands(t, heads, g, last, LIST_END, heads', g', o);
      }
    }
    forall f | 0 <= f < |g'.owner|
      ensures Placed(g', f)
    {
      assert Placed(g, f);
    }
  }

  lemma SplitLists(t: seq<Page>, heads: map<Key, nat>, g: Shape, k: Key, n: nat)
    requires Layout(t, heads, g) && k != FreeList && k !in g.lists && 0 < n <= |g.lists[FreeList]|
    ensures var last := g.lists[FreeList][n - 1];
      && Backed(t, last)
      && var t', heads', g' := Put(t, last, LIST_END), heads[FreeList := Cell(t, last)][k := heads[FreeList]],
             Split(g, k, n);
         ListOk(t', heads', g', k) && ListOk(t', heads', g', FreeList)
  {
    var cells := g.lists[FreeList];
    var last := cells[n - 1];
    assert ListOk(t, heads, g, FreeList);
    assert On(g, FreeList, n - 1) && NextOk(t, cells, n - 1);
    var t', heads', g' := Put(t, last, LIST_END), heads[FreeList := Cell(t, last)][k := heads[FreeList]],
        Split(g, k, n);
    forall i | 0 <= i < n
      ensures On(g', k, i) && NextOk(t', cells[..n], i)
    {
      assert On(g, FreeList, i) && NextOk(t, cells, i);
      PutCell(t, last, LIST_END, cells[i]);
    }
    forall i | 0 <= i < |cells| - n
      ensures On(g', FreeList, i) && NextOk(t', cells[n..], i)
    {
      assert On(g, FreeList, n + i) && NextOk(t, cells, n + i);
      PutCell(t, last, LIST_END, cells[n + i]);
    }
    assert On(g, FreeList, 0);
  }

  // gnttab_free_grant_references: list k goes in front of the free list and is gone.
  function Spliced(g: Shape, k: Key): Shape
    requires FreeList in g.lists && k in g.lists && |g.owner| == |g.pos|
  {
    var n := |g.lists[FreeList]|;
    g.(lists := g.lists[FreeList := g.lists[k] + g.lists[FreeList]] - {k},
       owner := seq(|g.owner|, f requires 0 <= f < |g.owner| =>
                  if g.owner[f] == Some(k) then Some(FreeList) else g.owner[f]),
       pos := seq(|g.pos|, f requires 0 <= f < |g.pos| => if g.owner[f] == Some(k) then g.pos[f] + n else g.pos[f]))
  }

  lemma SpliceLayout(t: seq<Page>, heads: map<Key, nat>, g: Shape, k: Key)
    requires Layout(t, heads, g) && k in g.lists && k != FreeList && g.lists[k] != []
    ensures var last := g.lists[k][|g.lists[k]| - 1];
      && Backed(t, last)
      && Layout(Put(t, last, heads[FreeList]), heads[FreeList := heads[k]] - {k}, Spliced(g, k))
  {
    var cells := g.lists[k];
    var last := cells[|cells| - 1];
    assert ListOk(t, heads, g, k);
    assert On(g, k, |cells| - 1) && NextOk(t, cells, |cells| - 1);
    var t', heads', g' := Put(t, last, heads[FreeList]), heads[FreeList := heads[k]] - {k}, Spliced(g, k);
    StillBacked(t, last, heads[FreeList], |g.owner|);
    forall o | o in g'.lists
      ensures ListOk(t', heads', g', o)
    {
      if o == FreeList {
        SplicedList(t, heads, g, k);
      } else {
        OtherListStands(t, heads, g, last, heads[FreeList], heads', g', o);
      }
    }
    forall f | 0 <= f < |g'.owner|
      ensures Placed(g', f)
    {
      assert Placed(g, f);
    }
  }

  lemma SplicedList(t: seq<Page>, heads: map<Key, nat>, g: Shape, k: Key)
    requires Layout(t, heads, g) && k in g.lists && k != FreeList && g.lists[k] != []
    ensures var last := g.lists[k][|g.lists[k]| - 1];
      && Backed(t, last)
      && ListOk(Put(t, last, heads[FreeList]), heads[FreeList := heads[k]] - {k}, Spliced(g, k), FreeList)
  {
    var cells, free := g.lists[k], g.lists[FreeList];
    var m := |cells|;
    var last := cells[m - 1];
    assert ListOk(t, heads, g, k) && ListOk(t, heads, g, FreeList);
    assert On(g, k, m - 1) && NextOk(t, cells, m - 1);
    var t', g' := Put(t, last, heads[FreeList]), Spliced(g, k);
    forall i | 0 <= i < m + |free|
      ensures On(g', FreeList, i) && NextOk(t', cells + free, i)
    {
      if i < m {
        assert On(g, k, i) && NextOk(t, cells, i);
        PutCell(t, last, heads[FreeList], cells[i]);
      } else {
        assert On(g, FreeList, i - m) && NextOk(t, free, i - m);
        PutCell(t, last, heads[FreeList], free[i - m]);
      }
    }
  }

  /* ---- growing ---- */

  // Entries lo, lo + 1, .., hi - 1 linked in this order, the last to `end`.
  function LinkRange(t: seq<Page>, lo: nat, hi: nat, end: nat): (t': seq<Page>)
    ensures |t'| == |t|
    decreases hi - lo
  {
    if lo >= hi || !Backed(t, lo) then t
    else if lo + 1 == hi then Put(t, lo, end)
    else LinkRange(Put(t, lo, lo + 1), lo + 1, hi, end)
  }

  lemma {:induction false} LinkRangeCells(t: seq<Page>, lo: nat, hi: nat, end: nat, n: nat)
    requires lo < hi <= n && BackedBelow(t, n)
    ensures BackedBelow(LinkRange(t, lo, hi, end), n)
    ensures forall f: nat | f < n ::
              (Backed(t, f) && Backed(LinkRange(t, lo, hi, end), f)
               && Cell(LinkRange(t, lo, hi, end), f) ==
                  if f < lo || hi <= f then Cell(t, f) else if f + 1 == hi then end else f + 1)
    decreases hi - lo
  {
    var t1 := if lo + 1 == hi then Put(t, lo, end) else Put(t, lo, lo + 1);
    forall f: nat | f < n
      ensures Backed(t1, f) && Cell(t1, f) == if f == lo then (if lo + 1 == hi then end else lo + 1) else Cell(t, f)
    {
      PutCell(t, lo, if lo + 1 == hi then end else lo + 1, f);
    }
    if lo + 1 < hi { LinkRangeCells(t1, lo + 1, hi, end, n); }
  }

  function Range(lo: nat, hi: nat): (s: seq<nat>)
    requires lo <= hi
    ensures |s| == hi - lo
  {
    seq(hi - lo, i requires 0 <= i < hi - lo => lo + i)
  }

  function Grown(g: Shape, hi: nat): Shape
    requires FreeList in g.lists && |g.owner| == |g.pos| <= hi
  {
    var lo, n := |g.owner|, |g.lists[FreeList]|;
    Shape(g.lists[FreeList := Range(lo, hi) + g.lists[FreeList]],
          g.owner + seq(hi - lo, _ => Some(FreeList)),
          g.pos + seq(hi - lo, i requires 0 <= i < hi - lo => n + (hi - lo) - 1 - i))
  }

  lemma GrowLayout(t: seq<Page>, t0: seq<Page>, heads: map<Key, nat>, g: Shape, hi: nat)
    requires Layout(t0, heads, g) && RESERVED <= |g.owner| < hi <= LIST_END
    requires BackedBelow(t, hi) && SameBelow(t0, t, |g.owner|)
    ensures Layout(LinkRange(t, |g.owner|, hi, heads[FreeList]), heads[FreeList := |g.owner|], Grown(g, hi))
  {
    var lo := |g.owner|;
    var t', heads', g' := LinkRange(t, lo, hi, heads[FreeList]), heads[FreeList := lo], Grown(g, hi);
    LinkRangeCells(t, lo, hi, heads[FreeList], hi);
    forall o | o in g'.lists
      ensures ListOk(t', heads', g', o)
    {
      GrownList(t, t0, heads, g, hi, o);
    }
    forall f | 0 <= f < |g'.owner|
      ensures Placed(g', f)
    {
      if f < lo { assert Placed(g, f); }
    }
  }

  lemma GrownList(t: seq<Page>, t0: seq<Page>, heads: map<Key, nat>, g: Shape, hi: nat, o: Key)
    requires Layout(t0, heads, g) && RESERVED <= |g.owner| < hi <= LIST_END && o in g.lists
    requires BackedBelow(t, hi) && SameBelow(t0, t, |g.owner|)
    ensures ListOk(LinkRange(t, |g.owner|, hi, heads[FreeList]), heads[FreeList := |g.owner|], Grown(g, hi), o)
  {
    var lo := |g.owner|;
    var t', g' := LinkRange(t, lo, hi, heads[FreeList]), Grown(g, hi);
    var added := if o == FreeList then hi - lo else 0;
    LinkRangeCells(t, lo, hi, heads[FreeList], hi);
    assert ListOk(t0, heads, g, o);
    forall i | 0 <= i < |g'.lists[o]|
      ensures On(g', o, i) && NextOk(t', g'.lists[o], i)
    {
      if i >= added {
        assert On(g, o, i - added) && NextOk(t0, g.lists[o], i - added);
        assert g'.lists[o][i] == g.lists[o][i - added];
      } else {
        assert g'.lists[o][i] == lo + i;
      }
    }
  }
}
