/** What every operation on the grant free list keeps, for any hypervisor limits and page shortages. */
module GrantInvariant {
  import opened Basics
  import opened GrantTable
  import opened GrantOps

  ghost predicate TableOk(s: Grants, g: Shape)
  {
    && |g.owner| == Limit(s)
    && |s.table| == FreelistFrames(s.bootMax)
    && 1 <= s.frames <= s.bootMax
    && ENTRIES * s.bootMax <= INT_REFS
  }

  ghost predicate Counted(s: Grants, g: Shape)
  {
    FreeList in g.lists && |g.lists[FreeList]| == s.freeCount
  }

  // queued is set exactly for the members of the list.
  ghost predicate WaitersOk(s: Grants)
  {
    && (forall i, j :: 0 <= i < j < |s.waiting| ==> s.waiting[i] != s.waiting[j])
    && (forall id :: id in s.waiting ==> id in s.waiters)
    && (forall id :: id in s.waiters ==> (s.waiters[id].queued <==> id in s.waiting))
  }

  // Everyone on the list asks for more than there is.
  ghost predicate AllWait(s: Grants)
  {
    forall id :: id in s.waiting ==> StillWaits(s, id)
  }

  ghost predicate Lists(s: Grants, g: Shape)
  {
    Layout(s.table, s.heads, g) && TableOk(s, g) && Counted(s, g)
  }

  // Holds whenever the list lock is free.
  ghost predicate Inv(s: Grants, g: Shape)
  {
    Lists(s, g) && WaitersOk(s) && AllWait(s)
  }

  // The references callers hold outside any list.
  function Outstanding(g: Shape): set<nat>
  {
    set e: nat | RESERVED <= e < |g.owner| && g.owner[e] == None
  }

  /* ---- callbacks ---- */

  lemma {:induction false} KeptIs(s: Grants, list: seq<nat>)
    requires forall i, j :: 0 <= i < j < |list| ==> list[i] != list[j]
    ensures forall id :: id in KeptOf(s, list) <==> id in list && StillWaits(s, id)
    ensures forall i, j :: 0 <= i < j < |KeptOf(s, list)| ==> KeptOf(s, list)[i] != KeptOf(s, list)[j]
  {
    if list != [] {
      KeptIs(s, list[1..]);
      assert list == [list[0]] + list[1..];
      assert list[0] !in list[1..];
    }
  }

  lemma {:induction false} FiredIs(s: Grants, list: seq<nat>)
    ensures forall id :: id in FiredOf(s, list) <==> id in list && !StillWaits(s, id)
  {
    if list != [] {
      FiredIs(s, list[1..]);
      assert list == [list[0]] + list[1..];
    }
  }

  lemma {:induction false} FiredOnce(s: Grants, list: seq<nat>)
    requires forall i, j :: 0 <= i < j < |list| ==> list[i] != list[j]
    ensures forall i, j :: 0 <= i < j < |FiredOf(s, list)| ==> FiredOf(s, list)[i] != FiredOf(s, list)[j]
  {
    if list != [] {
      FiredOnce(s, list[1..]);
      FiredIs(s, list[1..]);
      assert list[0] !in list[1..];
    }
  }

  // A pass fires exactly the callbacks whose count is met, once each, and leaves the others queued.
  lemma CheckFiresTheMet(s: Grants)
    requires WaitersOk(s)
    ensures var c := CheckCallbacks(s);
      && WaitersOk(c) && AllWait(c)
      && c.table == s.table && c.heads == s.heads && c.freeCount == s.freeCount && c.frames == s.frames
      && c.bootMax == s.bootMax
      && s.fired <= c.fired
      && (forall id :: id in c.fired[|s.fired|..] <==> id in s.waiting && s.waiters[id].count <= s.freeCount)
      && (forall i, j :: |s.fired| <= i < j < |c.fired| ==> c.fired[i] != c.fired[j])
      && (forall id :: id in c.waiting <==> id in s.waiting && s.waiters[id].count > s.freeCount)
  {
    KeptIs(s, s.waiting);
    FiredIs(s, s.waiting);
    FiredOnce(s, s.waiting);
    var c := CheckCallbacks(s);
    assert c.fired[|s.fired|..] == FiredOf(s, s.waiting);
    forall i, j | |s.fired| <= i < j < |c.fired|
      ensures c.fired[i] != c.fired[j]
    {
      assert c.fired[i] == FiredOf(s, s.waiting)[i - |s.fired|] && c.fired[j] == FiredOf(s, s.waiting)[j - |s.fired|];
    }
  }

  // Callbacks are called in list order ..
  lemma {:induction false} FiredInOrder(s: Grants, list: seq<nat>, i: nat, j: nat)
    requires i < j < |list| && !StillWaits(s, list[i]) && !StillWaits(s, list[j])
    ensures Before(FiredOf(s, list), list[i], list[j])
  {
    var rest := list[1..];
    var first := if StillWaits(s, list[0]) then [] else [list[0]];
    assert list == [list[0]] + rest;
    if i > 0 {
      FiredInOrder(s, rest, i - 1, j - 1);
      BeforeIn(FiredOf(s, rest), list[i], list[j], first, []);
      assert first + FiredOf(s, rest) + [] == FiredOf(s, list);
    } else {
      FiredIs(s, rest);
      assert list[j] == rest[j - 1] && list[j] in rest;
      var k :| 0 <= k < |FiredOf(s, rest)| && FiredOf(s, rest)[k] == list[j];
      assert FiredOf(s, list)[0] == list[i] && FiredOf(s, list)[k + 1] == list[j];
    }
  }

  // .. and those kept end up in the reverse of it.
  lemma {:induction false} KeptReversed(s: Grants, list: seq<nat>, i: nat, j: nat)
    requires i < j < |list| && StillWaits(s, list[i]) && StillWaits(s, list[j])
    requires forall i, j :: 0 <= i < j < |list| ==> list[i] != list[j]
    ensures Before(KeptOf(s, list), list[j], list[i])
  {
    var rest := list[1..];
    var last := if StillWaits(s, list[0]) then [list[0]] else [];
    assert list == [list[0]] + rest;
    if i > 0 {
      KeptReversed(s, rest, i - 1, j - 1);
      BeforeIn(KeptOf(s, rest), list[j], list[i], [], last);
      assert [] + KeptOf(s, rest) + last == KeptOf(s, list);
    } else {
      KeptIs(s, rest);
      assert list[j] == rest[j - 1] && list[j] in rest;
      var k :| 0 <= k < |KeptOf(s, rest)| && KeptOf(s, rest)[k] == list[j];
      assert KeptOf(s, list)[k] == list[j] && KeptOf(s, list)[|KeptOf(s, rest)|] == list[i];
    }
  }

  ghost predicate Before(list: seq<nat>, x: nat, y: nat)
  {
    exists k, l :: 0 <= k < l < |list| && list[k] == x && list[l] == y
  }

  lemma BeforeIn(list: seq<nat>, x: nat, y: nat, a: seq<nat>, b: seq<nat>)
    requires Before(list, x, y)
    ensures Before(a + list + b, x, y)
  {
    var k, l :| 0 <= k < l < |list| && list[k] == x && list[l] == y;
    assert (a + list + b)[|a| + k] == x && (a + list + b)[|a| + l] == y;
  }

  lemma CheckInv(s: Grants, g: Shape)
    requires Lists(s, g) && WaitersOk(s)
    ensures Inv(CheckCallbacks(s), g)
  {
    CheckFiresTheMet(s);
  }

  /* ---- walking the lists ---- */

  lemma FirstOn(t: seq<Page>, heads: map<Key, nat>, g: Shape, k: Key, i: nat)
    requires Layout(t, heads, g) && k in g.lists && i < |g.lists[k]|
    ensures On(g, k, i) && NextOk(t, g.lists[k], i)
    ensures heads[k] == g.lists[k][0] && g.lists[k][i] != LIST_END
  {
    assert ListOk(t, heads, g, k);
    assert On(g, k, 0) && On(g, k, i) && NextOk(t, g.lists[k], i);
  }

  lemma {:induction false} NthIs(t: seq<Page>, heads: map<Key, nat>, g: Shape, k: Key, i: nat, n: nat)
    requires Layout(t, heads, g) && k in g.lists && i + n < |g.lists[k]|
    ensures Nth(t, g.lists[k][i], n) == g.lists[k][i + n]
    decreases n
  {
    FirstOn(t, heads, g, k, i);
    if n > 0 { NthIs(t, heads, g, k, i + 1, n - 1); }
  }

  lemma {:induction false} ListFromIs(t: seq<Page>, heads: map<Key, nat>, g: Shape, k: Key, i: nat, fuel: nat)
    requires Layout(t, heads, g) && k in g.lists && i < |g.lists[k]| && |g.lists[k]| - i <= fuel
    ensures ListFrom(t, g.lists[k][i], fuel) == g.lists[k][i..]
    decreases fuel
  {
    FirstOn(t, heads, g, k, i);
    var cells := g.lists[k];
    if i + 1 < |cells| {
      ListFromIs(t, heads, g, k, i + 1, fuel - 1);
      assert [cells[i]] + cells[i + 1..] == cells[i..];
    } else {
      assert cells[i..] == [cells[i]];
    }
  }

  function Below(n: nat): (s: set<nat>)
    ensures forall x: nat :: x in s <==> x < n
    ensures |s| == n
  {
    if n == 0 then {} else Below(n - 1) + {n - 1}
  }

  lemma {:induction false} SizeOfDistinct(s: seq<nat>)
    requires forall i, j :: 0 <= i < j < |s| ==> s[i] != s[j]
    ensures |Values(s)| == |s|
  {
    if s == [] {
      assert Values(s) == {};
    } else {
      SizeOfDistinct(s[1..]);
      assert s[0] !in s[1..];
      assert Values(s) == Values(s[1..]) + {s[0]};
    }
  }

  lemma DistinctBelow(s: seq<nat>, n: nat)
    requires forall i :: 0 <= i < |s| ==> s[i] < n
    requires forall i, j :: 0 <= i < j < |s| ==> s[i] != s[j]
    ensures |s| <= n
  {
    SizeOfDistinct(s);
    SubsetSize(Values(s), Below(n));
  }

  // A list repeats no reference, so it fits below the limit.
  lemma ListDistinct(t: seq<Page>, heads: map<Key, nat>, g: Shape, k: Key)
    requires Layout(t, heads, g) && k in g.lists
    ensures forall i :: 0 <= i < |g.lists[k]| ==> g.lists[k][i] < |g.owner| && g.owner[g.lists[k][i]] == Some(k)
    ensures forall i, j :: 0 <= i < j < |g.lists[k]| ==> g.lists[k][i] != g.lists[k][j]
    ensures |g.lists[k]| <= |g.owner|
  {
    var cells := g.lists[k];
    forall i | 0 <= i < |cells|
      ensures cells[i] < |g.owner| && g.owner[cells[i]] == Some(k) && g.pos[cells[i]] == |cells| - 1 - i
    {
      FirstOn(t, heads, g, k, i);
    }
    DistinctBelow(cells, |g.owner|);
  }

  // Following the links from a head to LIST_END gives the list.
  lemma WalkedList(s: Grants, g: Shape, k: Key)
    requires Layout(s.table, s.heads, g) && |g.owner| == Limit(s) && k in g.lists
    ensures ListFrom(s.table, s.heads[k], Limit(s)) == g.lists[k]
  {
    ListDistinct(s.table, s.heads, g, k);
    assert ListOk(s.table, s.heads, g, k);
    if g.lists[k] != [] {
      FirstOn(s.table, s.heads, g, k, 0);
      ListFromIs(s.table, s.heads, g, k, 0, Limit(s));
    }
  }

  /* ---- each operation ---- */

  // Is a reference one the caller may give back?
  predicate Held(s: Grants, g: Shape, ref: nat) { ref in Outstanding(g) }

  lemma PutFreeInv(s: Grants, g: Shape, ref: nat)
    requires Inv(s, g) && Held(s, g, ref)
    ensures Backed(s.table, ref)
    ensures Inv(PutFree(s, ref), Pushed(g, FreeList, ref))
    ensures Outstanding(Pushed(g, FreeList, ref)) == Outstanding(g) - {ref}
  {
    PushLayout(s.table, s.heads, g, FreeList, ref);
    var s1 := s.(table := Put(s.table, ref, s.heads[FreeList]), heads := s.heads[FreeList := ref],
                 freeCount := s.freeCount + 1);
    assert Lists(s1, Pushed(g, FreeList, ref));
    CheckInv(s1, Pushed(g, FreeList, ref));
  }

  lemma ReleaseInv(s: Grants, g: Shape, id: nat, ref: nat)
    requires Inv(s, g) && Held(s, g, ref) && Private(id) in s.heads
    ensures Backed(s.table, ref)
    ensures Inv(Release(s, id, ref), Pushed(g, Private(id), ref))
    ensures Outstanding(Pushed(g, Private(id), ref)) == Outstanding(g) - {ref}
  {
    PushLayout(s.table, s.heads, g, Private(id), ref);
  }

  function ClaimShape(s: Grants, g: Shape, id: nat): Shape
    requires Private(id) in s.heads
  {
    if Claim(s, id).1.Some? && Private(id) in g.lists && g.lists[Private(id)] != []
       && g.lists[Private(id)][0] < |g.owner|
    then Popped(g, Private(id)) else g
  }

  // A claim takes the first reference of the private list, and fails exactly when it is empty.
  lemma ClaimInv(s: Grants, g: Shape, id: nat)
    requires Inv(s, g) && Private(id) in s.heads
    ensures var (s', ref) := Claim(s, id);
      && Inv(s', ClaimShape(s, g, id))
      && (ref == None <==> g.lists[Private(id)] == [])
      && (ref == None ==> s' == s)
      && (ref.Some? ==> ref.value == g.lists[Private(id)][0] && ref.value !in Outstanding(g)
                        && RESERVED <= ref.value < Limit(s)
                        && Outstanding(ClaimShape(s, g, id)) == Outstanding(g) + {ref.value})
  {
    var k := Private(id);
    assert ListOk(s.table, s.heads, g, k);
    if s.heads[k] != LIST_END {
      PopLayout(s.table, s.heads, g, k);
    } else if g.lists[k] != [] {
      FirstOn(s.table, s.heads, g, k, 0);
    }
  }

  function FreeRefsShape(s: Grants, g: Shape, id: nat): Shape
    requires Private(id) in g.lists && FreeList in g.lists && |g.owner| == |g.pos|
  {
    if g.lists[Private(id)] == [] then g.(lists := g.lists - {Private(id)}) else Spliced(g, Private(id))
  }

  lemma FreeRefsInv(s: Grants, g: Shape, id: nat)
    requires Inv(s, g) && Private(id) in s.heads
    ensures Inv(FreeRefs(s, id), FreeRefsShape(s, g, id))
    ensures Outstanding(FreeRefsShape(s, g, id)) == Outstanding(g)
  {
    var k := Private(id);
    WalkedList(s, g, k);
    if g.lists[k] == [] {
      EmptyListGoes(s, g, id);
    } else {
      FirstOn(s.table, s.heads, g, k, 0);
      SpliceLayout(s.table, s.heads, g, k);
      var cells := g.lists[k];
      var s1 := s.(table := Put(s.table, cells[|cells| - 1], s.heads[FreeList]),
                   heads := s.heads[FreeList := s.heads[k]] - {k}, freeCount := s.freeCount + |cells|);
      assert Lists(s1, Spliced(g, k));
      CheckInv(s1, Spliced(g, k));
    }
  }

  lemma EmptyListGoes(s: Grants, g: Shape, id: nat)
    requires Inv(s, g) && Private(id) in g.lists && g.lists[Private(id)] == []
    ensures Inv(s.(heads := s.heads - {Private(id)}), g.(lists := g.lists - {Private(id)}))
    ensures s.heads[Private(id)] == LIST_END
  {
    var g' := g.(lists := g.lists - {Private(id)});
    var heads' := s.heads - {Private(id)};
    assert ListOk(s.table, s.heads, g, Private(id));
    forall k | k in g'.lists
      ensures ListOk(s.table, heads', g', k)
    {
      assert ListOk(s.table, s.heads, g, k);
      forall i | 0 <= i < |g.lists[k]|
        ensures On(g', k, i)
      {
        assert On(g, k, i);
      }
    }
    forall e | 0 <= e < |g'.owner|
      ensures Placed(g', e)
    {
      assert Placed(g, e);
    }
  }

  lemma RequestInv(s: Grants, g: Shape, id: nat, count: nat)
    requires Inv(s, g)
    ensures Inv(Request(s, id, count), g)
  {
    if !(id in s.waiters && s.waiters[id].queued) {
      var s1 := s.(waiters := s.waiters[id := Waiter(count, true)], waiting := [id] + s.waiting);
      assert Lists(s1, g);
      assert id !in s.waiting;
      assert WaitersOk(s1) by {
        assert forall x :: x in s1.waiting <==> x == id || x in s.waiting;
      }
      CheckInv(s1, g);
    }
  }

  // A callback that is queued stays as it is; another is called where there are enough entries, and
  // else waits for as many as it asks for.
  predicate Answered(s: Grants, r: Grants, id: nat, count: nat)
    requires |s.fired| <= |r.fired|
  {
    && r.table == s.table && r.heads == s.heads && r.freeCount == s.freeCount && r.frames == s.frames
    && (id in s.waiting ==> r == s)
    && (id !in s.waiting && count <= s.freeCount ==> id in r.fired[|s.fired|..] && id !in r.waiting)
    && (id !in s.waiting && count > s.freeCount ==>
          id !in r.fired[|s.fired|..] && id in r.waiting && id in r.waiters && r.waiters[id] == Waiter(count, true))
  }

  lemma RequestAnswered(s: Grants, id: nat, count: nat)
    requires WaitersOk(s)
    ensures |s.fired| <= |Request(s, id, count).fired| && Answered(s, Request(s, id, count), id, count)
  {
    if id !in s.waiting {
      var s1 := s.(waiters := s.waiters[id := Waiter(count, true)], waiting := [id] + s.waiting);
      assert forall x :: x in s1.waiting <==> x == id || x in s.waiting;
      CheckFiresTheMet(s1);
      OnlyTheMet(s1);
    }
  }

  // What becomes of a request: one that is queued stays as it is; another is called at once where
  // there are enough entries, and else waits for as many as it asks for. Nobody else is concerned.
  lemma RequestServes(s: Grants, g: Shape, id: nat, count: nat)
    requires Inv(s, g)
    ensures var r := Request(s, id, count);
      && r.table == s.table && r.heads == s.heads && r.freeCount == s.freeCount && r.frames == s.frames
      && (id in s.waiting ==> r == s)
      && (id !in s.waiting && count <= s.freeCount ==> r.fired == s.fired + [id] && id !in r.waiting)
      && (id !in s.waiting && count > s.freeCount ==>
            r.fired == s.fired && id in r.waiting && id in r.waiters && r.waiters[id] == Waiter(count, true))
      && (forall x :: x != id ==> (x in r.waiting <==> x in s.waiting))
      && (forall x :: x != id && x in s.waiters ==> x in r.waiters && r.waiters[x] == s.waiters[x])
  {
    if id !in s.waiting {
      var s1 := s.(waiters := s.waiters[id := Waiter(count, true)], waiting := [id] + s.waiting);
      Queued(s, s1, id, count);
      CheckFiresTheMet(s1);
      assert s1.waiting[1..] == s.waiting;
      FiredNone(s1, s.waiting);
      assert FiredOf(s1, s1.waiting) == if count <= s.freeCount then [id] else [];
      OnlyTheMet(s1);
    }
  }

  lemma Queued(s: Grants, s1: Grants, id: nat, count: nat)
    requires WaitersOk(s) && AllWait(s) && id !in s.waiting
    requires s1 == s.(waiters := s.waiters[id := Waiter(count, true)], waiting := [id] + s.waiting)
    ensures WaitersOk(s1) && forall x :: x in s.waiting ==> StillWaits(s1, x)
  {
    assert forall x :: x in s1.waiting <==> x == id || x in s.waiting;
  }

  lemma {:induction false} FiredNone(s: Grants, list: seq<nat>)
    requires forall x :: x in list ==> StillWaits(s, x)
    ensures FiredOf(s, list) == []
  {
    if list != [] { FiredNone(s, list[1..]); }
  }

  // A pass unqueues those it calls, and changes no callback else.
  lemma OnlyTheMet(s: Grants)
    ensures var c := CheckCallbacks(s);
      && c.waiters.Keys == s.waiters.Keys
      && forall x :: x in s.waiters ==>
           c.waiters[x] == if x in s.waiting && s.waiters[x].count <= s.freeCount then s.waiters[x].(queued := false)
                           else s.waiters[x]
  {
  }

  lemma {:induction false} WithoutIs(list: seq<nat>, id: nat)
    requires forall i, j :: 0 <= i < j < |list| ==> list[i] != list[j]
    ensures forall x :: x in Without(list, id) <==> x in list && x != id
    ensures forall i, j :: 0 <= i < j < |Without(list, id)| ==> Without(list, id)[i] != Without(list, id)[j]
  {
    if list != [] {
      assert list == [list[0]] + list[1..];
      assert list[0] !in list[1..];
      WithoutIs(list[1..], id);
    }
  }

  // Cancelling takes a callback off the list, and only it.
  lemma CancelInv(s: Grants, g: Shape, id: nat)
    requires Inv(s, g)
    ensures Inv(Cancel(s, id), g)
    ensures forall x :: x in Cancel(s, id).waiting <==> x in s.waiting && x != id
  {
    WithoutIs(s.waiting, id);
  }

  /* ---- growth ---- */

  // The fewest frames that hold req entries.
  lemma ExtraIsLeast(req: nat)
    ensures req <= Extra(req) * ENTRIES < req + ENTRIES && (req >= 1 ==> Extra(req) >= 1)
  {
  }

  lemma PagesAbove(t: seq<Page>, t': seq<Page>, frames: nat)
    requires |t'| == |t| && forall i :: 0 <= i < |t| && i < FreelistFrames(frames) ==> t'[i] == t[i]
    ensures SameBelow(t, t', ENTRIES * frames)
  {
    FreelistFramesFit(frames, 0);
  }

  lemma FreshBacked(s: Grants, g: Shape, more: nat)
    requires Layout(s.table, s.heads, g) && TableOk(s, g) && s.frames + more <= s.bootMax
    ensures var t := FreshPages(s.table, FreelistFrames(s.frames), FreelistFrames(s.frames + more));
      && BackedBelow(t, ENTRIES * (s.frames + more))
      && SameBelow(s.table, t, Limit(s))
  {
    var lo, hi := FreelistFrames(s.frames), FreelistFrames(s.frames + more);
    var t := FreshPages(s.table, lo, hi);
    PagesAbove(s.table, t, s.frames);
    forall e: nat | e < ENTRIES * (s.frames + more)
      ensures Backed(t, e)
    {
      FreshPageBacked(s, g, more, e);
    }
  }

  lemma FreshPageBacked(s: Grants, g: Shape, more: nat, e: nat)
    requires Layout(s.table, s.heads, g) && TableOk(s, g) && s.frames + more <= s.bootMax
    requires e < ENTRIES * (s.frames + more)
    ensures Backed(FreshPages(s.table, FreelistFrames(s.frames), FreelistFrames(s.frames + more)), e)
  {
    FreelistFramesFit(s.frames + more, s.bootMax - (s.frames + more));
    if e / RPP < FreelistFrames(s.frames) {
      // a page that is already in use, if only for its first half
      PageInUse(s, g, e);
    }
  }

  lemma PageInUse(s: Grants, g: Shape, e: nat)
    requires Layout(s.table, s.heads, g) && TableOk(s, g) && e / RPP < FreelistFrames(s.frames)
    ensures Backed(s.table, e)
  {
    // the first entry of that page is below the limit
    var first := e / RPP * RPP;
    assert first < Limit(s) && first / RPP == e / RPP;
    assert Backed(s.table, first);
  }

  function GrowShape(s: Grants, g: Shape, more: nat): Shape
    requires FreeList in g.lists && |g.owner| == |g.pos| <= ENTRIES * (s.frames + more)
  {
    Grown(g, ENTRIES * (s.frames + more))
  }

  // A successful grow: every index below the new limit has a page, inside the array that was
  // sized at boot, and the new references are free.
  lemma GrowInv(s: Grants, g: Shape, more: nat, pages: nat)
    requires Lists(s, g) && WaitersOk(s) && 1 <= more && s.frames + more <= s.bootMax
    requires FreelistFrames(s.frames + more) - FreelistFrames(s.frames) <= pages
    ensures var (s', ok) := GrowList(s, more, pages);
      ok && Inv(s', GrowShape(s, g, more)) && s'.heads.Keys == s.heads.Keys
      && s'.freeCount == s.freeCount + more * ENTRIES && s'.frames == s.frames + more && s'.bootMax == s.bootMax
    ensures Outstanding(GrowShape(s, g, more)) == Outstanding(g)
  {
    GrownLists(s, g, more);
    GrownOutstanding(s, g, more);
    GrownServes(GrownBy(s, more), GrowShape(s, g, more));
  }

  lemma GrownServes(s: Grants, g: Shape)
    requires Lists(s, g) && WaitersOk(s)
    ensures var c := CheckCallbacks(s);
      Inv(c, g) && c.heads == s.heads && c.freeCount == s.freeCount && c.frames == s.frames && c.bootMax == s.bootMax
  {
    CheckFiresTheMet(s);
  }

  lemma GrownOutstanding(s: Grants, g: Shape, more: nat)
    requires Layout(s.table, s.heads, g) && TableOk(s, g)
    ensures Outstanding(GrowShape(s, g, more)) == Outstanding(g)
  {
  }

  lemma GrownLists(s: Grants, g: Shape, more: nat)
    requires Lists(s, g) && 1 <= more && s.frames + more <= s.bootMax
    ensures Lists(GrownBy(s, more), GrowShape(s, g, more))
  {
    GrownSizes(s, g, more);
    GrownKeepsLayout(s, g, more, GrownBy(s, more), GrowShape(s, g, more));
  }

  lemma GrownKeepsLayout(s: Grants, g: Shape, more: nat, s': Grants, g': Shape)
    requires Layout(s.table, s.heads, g) && TableOk(s, g) && 1 <= more && s.frames + more <= s.bootMax
    requires s' == GrownBy(s, more) && g' == GrowShape(s, g, more)
    ensures Layout(s'.table, s'.heads, g')
  {
    FreshBacked(s, g, more);
    GrownOver(FreshPages(s.table, FreelistFrames(s.frames), FreelistFrames(s.frames + more)),
              s, g, ENTRIES * (s.frames + more), s'.table, s'.heads, g');
  }

  lemma GrownOver(t: seq<Page>, s: Grants, g: Shape, hi: nat, t': seq<Page>, heads': map<Key, nat>, g': Shape)
    requires Layout(s.table, s.heads, g) && |g.owner| == Limit(s) && RESERVED <= Limit(s) < hi <= LIST_END
    requires BackedBelow(t, hi) && SameBelow(s.table, t, Limit(s))
    requires t' == LinkRange(t, Limit(s), hi, s.heads[FreeList])
    requires heads' == s.heads[FreeList := Limit(s)] && g' == Grown(g, hi)
    ensures Layout(t', heads', g')
  {
    GrownLayout(t, s.table, s.heads, g, hi, t', heads', g');
  }

  lemma GrownSizes(s: Grants, g: Shape, more: nat)
    requires TableOk(s, g) && Counted(s, g) && |g.pos| == |g.owner| && FreeList in s.heads
             && s.frames + more <= s.bootMax
    ensures TableOk(GrownBy(s, more), GrowShape(s, g, more)) && Counted(GrownBy(s, more), GrowShape(s, g, more))
  {
  }

  // GrowLayout, with the new state named.
  lemma GrownLayout(t: seq<Page>, t0: seq<Page>, heads: map<Key, nat>, g: Shape, hi: nat,
                    t': seq<Page>, heads': map<Key, nat>, g': Shape)
    requires Layout(t0, heads, g) && RESERVED <= |g.owner| < hi <= LIST_END
    requires BackedBelow(t, hi) && SameBelow(t0, t, |g.owner|)
    requires t' == LinkRange(t, |g.owner|, hi, heads[FreeList])
    requires heads' == heads[FreeList := |g.owner|] && g' == Grown(g, hi)
    ensures Layout(t', heads', g')
  {
    GrowLayout(t, t0, heads, g, hi);
  }

  lemma SameBelowLayout(t: seq<Page>, t': seq<Page>, heads: map<Key, nat>, g: Shape)
    requires Layout(t, heads, g) && SameBelow(t, t', |g.owner|)
    ensures Layout(t', heads, g)
  {
    forall k | k in g.lists
      ensures ListOk(t', heads, g, k)
    {
      assert ListOk(t, heads, g, k);
      forall i | 0 <= i < |g.lists[k]|
        ensures NextOk(t', g.lists[k], i)
      {
        assert On(g, k, i) && NextOk(t, g.lists[k], i);
      }
    }
  }

  // A grow that runs out of pages leaves every list as it was.
  lemma FailedGrowInv(s: Grants, g: Shape, more: nat, pages: nat)
    requires Inv(s, g) && s.frames + more <= s.bootMax
    requires pages < FreelistFrames(s.frames + more) - FreelistFrames(s.frames)
    ensures var (s', ok) := GrowList(s, more, pages);
      && !ok && Inv(s', g) && s' == s.(table := s'.table) && SameBelow(s.table, s'.table, Limit(s))
      // the pages that were had are given back, but still pointed to
      && (forall i :: FreelistFrames(s.frames) <= i < FreelistFrames(s.frames) + pages ==> s'.table[i] == Dangling)
  {
    var (s', ok) := GrowList(s, more, pages);
    PagesAbove(s.table, s'.table, s.frames);
    SameBelowLayout(s.table, s'.table, s.heads, g);
  }
}
