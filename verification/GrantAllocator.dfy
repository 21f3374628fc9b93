/** The allocator as gnttab.c has it: links in pages, a free head, a count and a callback list, changed in place. */
module GrantAllocator {
  import opened Basics
  import opened GrantTable
  import opened GrantOps
  import opened GrantInvariant
  import opened GrantAllocation

  // What do_free_callbacks has built up after n callbacks.
  ghost predicate SoFar(s: Grants, n: nat, waiting: seq<nat>, waiters: map<nat, Waiter>, fired: seq<nat>)
  {
    && n <= |s.waiting|
    && KeptOf(s, s.waiting[n..]) + waiting == KeptOf(s, s.waiting)
    && fired + FiredOf(s, s.waiting[n..]) == s.fired + FiredOf(s, s.waiting)
    && waiters == Unqueued(s, s.waiting[..n])
  }

  lemma UnqueueNext(s: Grants, n: nat)
    requires WaitersOk(s) && n < |s.waiting|
    ensures var id := s.waiting[n];
      && id in s.waiters && id in Unqueued(s, s.waiting[..n])
      && Unqueued(s, s.waiting[..n])[id].count == s.waiters[id].count
      && Unqueued(s, s.waiting[..n + 1]) ==
         if StillWaits(s, id) then Unqueued(s, s.waiting[..n])
         else Unqueued(s, s.waiting[..n])[id := Unqueued(s, s.waiting[..n])[id].(queued := false)]
  {
    assert s.waiting[..n + 1] == s.waiting[..n] + [s.waiting[n]];
  }

  // One round.
  lemma ServeNext(s: Grants, n: nat, waiting: seq<nat>, waiters: map<nat, Waiter>, fired: seq<nat>)
    requires WaitersOk(s) && n < |s.waiting| && SoFar(s, n, waiting, waiters, fired)
    ensures var id := s.waiting[n];
      && id in waiters && waiters[id].count == s.waiters[id].count && s.waiting[n..][1..] == s.waiting[n + 1..]
      && if StillWaits(s, id) then SoFar(s, n + 1, [id] + waiting, waiters, fired)
         else SoFar(s, n + 1, waiting, waiters[id := waiters[id].(queued := false)], fired + [id])
  {
    UnqueueNext(s, n);
    KeptNext(s, n, waiting);
    FiredNext(s, n, fired);
  }

  lemma KeptNext(s: Grants, n: nat, waiting: seq<nat>)
    requires n < |s.waiting|
    ensures s.waiting[n..][1..] == s.waiting[n + 1..]
    ensures KeptOf(s, s.waiting[n..]) + waiting ==
            KeptOf(s, s.waiting[n + 1..]) + (if StillWaits(s, s.waiting[n]) then [s.waiting[n]] + waiting else waiting)
  {
  }

  lemma FiredNext(s: Grants, n: nat, fired: seq<nat>)
    requires n < |s.waiting|
    ensures fired + FiredOf(s, s.waiting[n..]) ==
            (if StillWaits(s, s.waiting[n]) then fired else fired + [s.waiting[n]]) + FiredOf(s, s.waiting[n + 1..])
  {
    assert s.waiting[n..][1..] == s.waiting[n + 1..];
  }

  lemma AllServed(s: Grants, waiting: seq<nat>, waiters: map<nat, Waiter>, fired: seq<nat>)
    requires SoFar(s, |s.waiting|, waiting, waiters, fired)
    ensures CheckCallbacks(s) == s.(waiting := waiting, waiters := waiters, fired := fired)
  {
    assert s.waiting[..|s.waiting|] == s.waiting;
  }

  lemma HeadIsBacked(s: Grants, out: set<nat>)
    requires Good(s, out) && FreeList in s.heads && 1 <= s.freeCount
    ensures Backed(s.table, s.heads[FreeList])
  {
    TakeFirstGood(s, out);
  }

  // gnttab_free_grant_references, once the end of the private list is found.
  lemma FreeRefsIs(s: Grants, id: nat, last: nat, count: nat)
    requires FreeList in s.heads && Private(id) in s.heads && s.heads[Private(id)] != LIST_END && Backed(s.table, last)
    requires var cells := ListFrom(s.table, s.heads[Private(id)], Limit(s));
      cells != [] && count == |cells| && last == cells[|cells| - 1]
    ensures FreeRefs(s, id) ==
      CheckCallbacks(s.(table := Put(s.table, last, s.heads[FreeList]),
                        heads := s.heads[FreeList := s.heads[Private(id)]] - {Private(id)},
                        freeCount := s.freeCount + count))
  {
  }

  class Allocator {
    const pages: array<Page>           // gnttab_list
    const bootMax: nat                 // boot_max_nr_grant_frames
    var frames: nat                    // nr_grant_frames
    var heads: map<Key, nat>           // gnttab_free_head, and the callers' private heads
    var freeCount: int                 // gnttab_free_count
    var waiting: seq<nat>              // gnttab_free_callback_list
    var waiters: map<nat, Waiter>      // the callback structures
    var fired: seq<nat>                // calls made

    ghost function State(): Grants
      reads this, pages
    {
      Grants(pages[..], frames, bootMax, heads, freeCount, waiting, waiters, fired)
    }

    // gnttab_init
    constructor (max: nat)
      requires 1 <= max && ENTRIES * max <= INT_REFS
      ensures State() == Init(max) && fresh(pages)
    {
      bootMax, frames, freeCount := max, 1, ENTRIES - RESERVED;
      heads, waiting, waiters, fired := map[FreeList := RESERVED], [], map[], [];
      pages := new Page[FreelistFrames(max)](_ => Absent);
      new;
      FreelistFramesFit(1, max - 1);
      pages[0] := BlankPage();
      ghost var blank := seq(FreelistFrames(max), i => if i < FreelistFrames(1) then Present(seq(RPP, _ => 0))
                             else Absent);
      assert pages[..] == blank;
      LinkEntries(RESERVED, ENTRIES, LIST_END);
    }

    // gnttab_entry(e)
    function Entry(e: nat): nat
      requires Backed(pages[..], e)
      reads pages
    {
      pages[e / RPP].cells[e % RPP]
    }

    method SetEntry(e: nat, v: nat)
      requires Backed(pages[..], e)
      modifies pages
      ensures pages[..] == Put(old(pages[..]), e, v)
    {
      pages[e / RPP] := Present(pages[e / RPP].cells[e % RPP := v]);
    }

    // The linking loops of gnttab_init and grow_gnttab_list.
    method LinkEntries(lo: nat, hi: nat, end: nat)
      requires lo < hi && BackedBelow(pages[..], hi)
      modifies pages
      ensures pages[..] == LinkRange(old(pages[..]), lo, hi, end)
    {
      var i := lo;
      while i < hi - 1
        invariant lo <= i < hi && BackedBelow(pages[..], hi)
        invariant LinkRange(pages[..], i, hi, end) == LinkRange(old(pages[..]), lo, hi, end)
      {
        StillBacked(pages[..], i, i + 1, hi);
        SetEntry(i, i + 1);
        i := i + 1;
      }
      SetEntry(i, end);
    }

    // do_free_callbacks; on an empty list it does nothing, as check_free_callbacks would.
    method DoFreeCallbacks()
      requires WaitersOk(State())
      modifies this`waiting, this`waiters, this`fired
      ensures State() == CheckCallbacks(old(State()))
    {
      ghost var s := State();
      var list := waiting;
      ghost var n := 0;
      waiting := [];
      while list != []
        invariant n <= |s.waiting| && list == s.waiting[n..]
        invariant SoFar(s, n, waiting, waiters, fired)
        decreases |s.waiting| - n
      {
        var id := list[0];
        ServeNext(s, n, waiting, waiters, fired);
        if freeCount >= waiters[id].count {
          waiters := waiters[id := waiters[id].(queued := false)];
          fired := fired + [id];
        } else {
          waiting := [id] + waiting;
        }
        list := list[1..];
        n := n + 1;
      }
      AllServed(s, waiting, waiters, fired);
    }

    /* ---- growing ---- */

    // The pages of grow_gnttab_list: all of them, or none that counts.
    method GetPages(lo: nat, hi: nat, avail: nat) returns (ok: bool)
      requires lo <= hi <= pages.Length
      modifies pages
      ensures ok <==> hi - lo <= avail
      ensures pages[..] == if ok then FreshPages(old(pages[..]), lo, hi)
              else FailedPages(old(pages[..]), lo, lo + avail)
    {
      var i := lo;
      while i < hi && i - lo < avail
        invariant lo <= i <= hi && i - lo <= avail
        invariant pages[..] == SetPages(old(pages[..]), lo, i, BlankPage())
      {
        pages[i] := BlankPage();
        i := i + 1;
        assert pages[..] == SetPages(old(pages[..]), lo, i, BlankPage());
      }
      ok := i == hi;
      if !ok {
        pages[i] := Absent;
        GiveBack(lo, i);
        assert pages[..] == FailedPages(old(pages[..]), lo, lo + avail);
      }
    }

    method GiveBack(lo: nat, hi: nat)
      requires lo <= hi <= pages.Length
      modifies pages
      ensures pages[..] == SetPages(old(pages[..]), lo, hi, Dangling)
    {
      var i := hi;
      while i > lo
        invariant lo <= i <= hi
        invariant pages[..] == SetPages(old(pages[..]), i, hi, Dangling)
      {
        i := i - 1;
        pages[i] := Dangling;
        assert pages[..] == SetPages(old(pages[..]), i, hi, Dangling);
      }
    }

    // grow_gnttab_list
    method Grow(more: nat, avail: nat, ghost g: Shape) returns (ok: bool)
      requires Inv(State(), g) && 1 <= more && frames + more <= bootMax
      modifies this, pages
      ensures (State(), ok) == GrowList(old(State()), more, avail)
    {
      ghost var s := State();
      var lo, hi := FreelistFrames(frames), FreelistFrames(frames + more);
      FreelistFramesFit(frames, more);
      FreelistFramesFit(frames + more, bootMax - (frames + more));
      FreshBacked(s, g, more);
      ok := GetPages(lo, hi, avail);
      if ok {
        LinkEntries(ENTRIES * frames, ENTRIES * (frames + more), heads[FreeList]);
        heads := heads[FreeList := ENTRIES * frames];
        freeCount := freeCount + more * ENTRIES;
        frames := frames + more;
        assert State() == GrownBy(s, more);
        DoFreeCallbacks();
      }
    }

    // gnttab_expand
    method ExpandBy(req: nat, env: Env, ghost g: Shape) returns (ok: bool)
      requires Inv(State(), g) && req >= 1
      modifies this, pages
      ensures (State(), ok) == Expand(old(State()), req, env)
    {
      var extra := Extra(req);
      ExtraIsLeast(req);
      if frames + extra > Min(env.xenMax, bootMax) || !env.mapOk { return false; }
      ok := Grow(extra, env.pages, g);
    }

    /* ---- taking ---- */

    // The walk of get_free_entries, and the cut after the count-th entry.
    method CutFront(id: nat, count: nat, ghost g: Shape)
      requires Inv(State(), g) && Private(id) !in heads && 1 <= count <= freeCount
      modifies this`heads, this`freeCount, pages
      ensures State() == Detach(old(State()), id, count)
    {
      var first, last, left := heads[FreeList], heads[FreeList], count;
      freeCount := freeCount - count;
      WalkStopsAt(old(State()), g, count);
      while left > 1
        invariant 1 <= left <= count && pages[..] == old(pages[..])
        invariant last == g.lists[FreeList][count - left]
        decreases left
        modifies {}
      {
        FirstOn(pages[..], heads, g, FreeList, count - left);
        last := Entry(last);
        left := left - 1;
      }
      heads := heads[FreeList := Entry(last)][Private(id) := first];
      SetEntry(last, LIST_END);
    }

    // The check at the top of get_free_entries.
    method MakeReady(count: nat, env: Env, ghost out: set<nat>) returns (ok: bool)
      requires Good(State(), out) && FreeList in heads && count >= 1
      modifies this, pages
      ensures (State(), ok) == Ready(old(State()), count, env)
    {
      if freeCount >= count { return true; }
      ghost var g :| Inv(State(), g);
      ok := ExpandBy(count - freeCount, env, g);
    }

    // gnttab_alloc_grant_references
    method AllocReferences(id: nat, count: nat, env: Env, ghost out: set<nat>) returns (ok: bool)
      requires Good(State(), out) && FreeList in heads && Private(id) !in heads && count >= 1
      modifies this, pages
      ensures (State(), ok) == Alloc(old(State()), id, count, env)
    {
      ReadyGood(State(), out, count, env);
      AllocIs(State(), id, count, env);
      ok := MakeReady(count, env, out);
      if ok {
        ghost var g :| Inv(State(), g);
        CutFront(id, count, g);
      }
    }

    // get_free_entry
    method GetFreeEntry(env: Env, ghost out: set<nat>) returns (ref: Option<nat>)
      requires Good(State(), out) && FreeList in heads
      modifies this, pages
      ensures (State(), ref) == Take(old(State()), env)
    {
      ReadyGood(State(), out, 1, env);
      TakeIs(State(), env);
      var ok := MakeReady(1, env, out);
      if ok {
        HeadIsBacked(State(), out);
        ref := TakeHead();
      } else {
        ref := None;
      }
    }

    method TakeHead() returns (ref: Option<nat>)
      requires FreeList in heads && Backed(pages[..], heads[FreeList])
      modifies this`heads, this`freeCount, pages
      ensures (State(), ref) == TakeFirst(old(State()))
    {
      var head := heads[FreeList];
      freeCount := freeCount - 1;
      heads := heads[FreeList := Entry(head)];
      SetEntry(head, LIST_END);
      ref := Some(head);
    }

    // gnttab_claim_grant_reference
    method ClaimReference(id: nat, ghost out: set<nat>) returns (ref: Option<nat>)
      requires Good(State(), out) && Private(id) in heads
      modifies this`heads
      ensures (State(), ref) == Claim(old(State()), id)
    {
      var head := heads[Private(id)];
      if head == LIST_END { return None; }
      ghost var g :| Inv(State(), g);
      PopLayout(pages[..], heads, g, Private(id));
      heads := heads[Private(id) := Entry(head)];
      ref := Some(head);
    }

    /* ---- giving back ---- */

    // gnttab_release_grant_reference
    method ReleaseReference(id: nat, ref: nat)
      requires Private(id) in heads && Backed(pages[..], ref)
      modifies this`heads, pages
      ensures State() == Release(old(State()), id, ref)
    {
      SetEntry(ref, heads[Private(id)]);
      heads := heads[Private(id) := ref];
    }

    // put_free_entry
    method PutFreeEntry(ref: nat)
      requires FreeList in heads && Backed(pages[..], ref) && WaitersOk(State())
      modifies this, pages
      ensures State() == PutFree(old(State()), ref)
    {
      SetEntry(ref, heads[FreeList]);
      heads := heads[FreeList := ref];
      freeCount := freeCount + 1;
      DoFreeCallbacks();
    }

    // The walk of gnttab_free_grant_references to the end of a private list.
    method LastOf(id: nat, ghost g: Shape) returns (last: nat, count: nat)
      requires Inv(State(), g) && Private(id) in heads && heads[Private(id)] != LIST_END
      ensures var cells := ListFrom(pages[..], heads[Private(id)], Limit(State()));
        cells != [] && count == |cells| && last == cells[|cells| - 1] && Backed(pages[..], last)
    {
      ghost var k := Private(id);
      ghost var cells := g.lists[k];
      WalkedList(State(), g, k);
      assert ListOk(pages[..], heads, g, k);
      last, count := heads[Private(id)], 1;
      FirstOn(pages[..], heads, g, k, 0);
      while Entry(last) != LIST_END
        invariant 1 <= count <= |cells| && last == cells[count - 1] && Backed(pages[..], last)
        decreases |cells| - count
      {
        FirstOn(pages[..], heads, g, k, count - 1);
        last := Entry(last);
        FirstOn(pages[..], heads, g, k, count);
        count := count + 1;
      }
      FirstOn(pages[..], heads, g, k, count - 1);
      if count < |cells| { FirstOn(pages[..], heads, g, k, count); }
    }

    // gnttab_free_grant_references
    method FreeReferences(id: nat, ghost out: set<nat>)
      requires Good(State(), out) && FreeList in heads && Private(id) in heads
      modifies this, pages
      ensures State() == FreeRefs(old(State()), id)
    {
      ghost var g :| Inv(State(), g);
      if heads[Private(id)] == LIST_END {
        heads := heads - {Private(id)};
        return;
      }
      var last, count := LastOf(id, g);
      FreeRefsIs(State(), id, last, count);
      Splice(id, last, count);
      DoFreeCallbacks();
    }

    // A private list goes in front of the free list.
    method Splice(id: nat, last: nat, count: nat)
      requires FreeList in heads && Private(id) in heads && Backed(pages[..], last)
      modifies this`heads, this`freeCount, pages
      ensures State() == old(State()).(table := Put(old(pages[..]), last, old(heads[FreeList])),
                                       heads := old(heads)[FreeList := old(heads[Private(id)])] - {Private(id)},
                                       freeCount := old(freeCount) + count)
    {
      SetEntry(last, heads[FreeList]);
      heads := heads[FreeList := heads[Private(id)]] - {Private(id)};
      freeCount := freeCount + count;
    }

    /* ---- callbacks ---- */

    // gnttab_request_free_callback
    method RequestCallback(id: nat, count: nat)
      requires WaitersOk(State())
      modifies this
      ensures State() == Request(old(State()), id, count)
      ensures |old(fired)| <= |fired| && Answered(old(State()), State(), id, count)
    {
      RequestAnswered(State(), id, count);
      if id in waiters && waiters[id].queued { return; }
      waiters := waiters[id := Waiter(count, true)];
      waiting := [id] + waiting;
      DoFreeCallbacks();
    }

    // gnttab_cancel_free_callback: the first match is unlinked, and the search stops.
    method CancelCallback(id: nat)
      requires WaitersOk(State())
      modifies this`waiting, this`waiters
      ensures State() == Cancel(old(State()), id)
    {
      var i := 0;
      while i < |waiting| && waiting[i] != id
        invariant i <= |waiting| && id !in waiting[..i]
      {
        i := i + 1;
      }
      if i < |waiting| {
        WithoutFirst(waiting, id, i);
        waiting := waiting[..i] + waiting[i + 1..];
        waiters := waiters[id := waiters[id].(queued := false)];
      }
    }
  }

  lemma {:induction false} WithoutFirst(list: seq<nat>, id: nat, i: nat)
    requires i < |list| && list[i] == id && id !in list[..i]
    ensures Without(list, id) == list[..i] + list[i + 1..]
  {
    if i > 0 {
      assert list[0] in list[..i];
      assert list[1..][..i - 1] == list[..i][1..];
      WithoutFirst(list[1..], id, i - 1);
    }
  }
}
