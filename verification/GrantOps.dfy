/**
 The operations of gnttab.c on the free list, each under the list lock: taking entries (growing
 the table when there are too few), giving them back, and serving those who wait for entries.
 */
module GrantOps {
  import opened Basics
  import opened GrantTable

  datatype Waiter = Waiter(count: nat, queued: bool)

  datatype Grants = Grants(
    table: seq<Page>,             // gnttab_list
    frames: nat,                  // nr_grant_frames
    bootMax: nat,                 // boot_max_nr_grant_frames
    heads: map<Key, nat>,         // gnttab_free_head, and the private heads of the callers
    freeCount: int,               // gnttab_free_count
    waiting: seq<nat>,            // gnttab_free_callback_list
    waiters: map<nat, Waiter>,    // the callback structures
    fired: seq<nat>               // callbacks called so far
  )

  // What an expansion meets: the hypervisor's limit, gnttab_map's result, pages to be had.
  datatype Env = Env(xenMax: nat, mapOk: bool, pages: nat)

  function Limit(s: Grants): nat { ENTRIES * s.frames }

  /* ---- callbacks ---- */

  predicate StillWaits(s: Grants, id: nat)
  {
    id in s.waiters && s.freeCount < s.waiters[id].count
  }

  // Those left on the list, each put back at its front, and those called, in list order.
  function KeptOf(s: Grants, list: seq<nat>): seq<nat>
  {
    if list == [] then []
    else KeptOf(s, list[1..]) + (if StillWaits(s, list[0]) then [list[0]] else [])
  }

  function FiredOf(s: Grants, list: seq<nat>): seq<nat>
  {
    if list == [] then []
    else (if StillWaits(s, list[0]) then [] else [list[0]]) + FiredOf(s, list[1..])
  }

  // The callback structures after those of `list` whose count is met are no longer queued.
  function Unqueued(s: Grants, list: seq<nat>): map<nat, Waiter>
  {
    map id | id in s.waiters ::
      if id in list && !StillWaits(s, id) then s.waiters[id].(queued := false) else s.waiters[id]
  }

  // check_free_callbacks
  function CheckCallbacks(s: Grants): Grants
  {
    s.(waiting := KeptOf(s, s.waiting), waiters := Unqueued(s, s.waiting), fired := s.fired + FiredOf(s, s.waiting))
  }

  /* ---- growing ---- */

  function BlankPage(): Page { Present(seq(RPP, _ => 0)) }

  function SetPages(t: seq<Page>, lo: nat, hi: nat, page: Page): (t': seq<Page>)
    ensures |t'| == |t|
    ensures forall i :: 0 <= i < |t| ==> t'[i] == if lo <= i < hi then page else t[i]
    decreases hi - lo
  {
    if lo >= hi || lo >= |t| then t else SetPages(t[lo := page], lo + 1, hi, page)
  }

  // Pages lo..hi were to be had.
  function FreshPages(t: seq<Page>, lo: nat, hi: nat): (t': seq<Page>)
    ensures |t'| == |t|
  {
    SetPages(t, lo, hi, BlankPage())
  }

  // Pages lo..mid were had and given back, mid was not to be had.
  function FailedPages(t: seq<Page>, lo: nat, mid: nat): (t': seq<Page>)
    ensures |t'| == |t|
  {
    var back := SetPages(t, lo, mid, Dangling);
    if mid < |t| then back[mid := Absent] else back
  }

  // The new entries in front of the free list, in order.
  function GrownBy(s: Grants, more: nat): Grants
    requires FreeList in s.heads
  {
    var t := FreshPages(s.table, FreelistFrames(s.frames), FreelistFrames(s.frames + more));
    s.(table := LinkRange(t, ENTRIES * s.frames, ENTRIES * (s.frames + more), s.heads[FreeList]),
       heads := s.heads[FreeList := ENTRIES * s.frames],
       freeCount := s.freeCount + more * ENTRIES,
       frames := s.frames + more)
  }

  // grow_gnttab_list
  function GrowList(s: Grants, more: nat, pages: nat): (Grants, bool)
    requires FreeList in s.heads
  {
    var lo, hi := FreelistFrames(s.frames), FreelistFrames(s.frames + more);
    if pages < hi - lo then (s.(table := FailedPages(s.table, lo, lo + pages)), false)
    else (CheckCallbacks(GrownBy(s, more)), true)
  }

  function Extra(req: nat): nat { CeilDiv(req, ENTRIES) }

  // gnttab_expand
  function Expand(s: Grants, req: nat, env: Env): (Grants, bool)
    requires FreeList in s.heads
  {
    if s.frames + Extra(req) > Min(env.xenMax, s.bootMax) || !env.mapOk then (s, false)
    else GrowList(s, Extra(req), env.pages)
  }

  /* ---- taking and giving back ---- */

  // The n-th reference from head on.
  function Nth(t: seq<Page>, head: nat, n: nat): nat
    decreases n
  {
    if n == 0 || !Backed(t, head) then head else Nth(t, Cell(t, head), n - 1)
  }

  // get_free_entries, leaving the detached list in the private head `id`. A count of 0 detaches
  // one entry all the same: the walk makes no step, and the entry it stands on is cut off.
  function Detach(s: Grants, id: nat, count: nat): Grants
    requires FreeList in s.heads
  {
    var head := s.heads[FreeList];
    var last := Nth(s.table, head, if count > 1 then count - 1 else 0);
    if !Backed(s.table, last) then s
    else
      s.(table := Put(s.table, last, LIST_END),
         heads := s.heads[FreeList := Cell(s.table, last)][Private(id) := head],
         freeCount := s.freeCount - count)
  }

  // The check at the top of get_free_entries.
  function Ready(s: Grants, count: nat, env: Env): (Grants, bool)
    requires FreeList in s.heads
  {
    if s.freeCount < count then Expand(s, count - s.freeCount, env) else (s, true)
  }

  function Alloc(s: Grants, id: nat, count: nat, env: Env): (Grants, bool)
    requires FreeList in s.heads
  {
    var (ready, ok) := Ready(s, count, env);
    if ok && FreeList in ready.heads then (Detach(ready, id, count), true) else (ready, false)
  }

  // get_free_entry: the one entry goes to the caller directly.
  function TakeFirst(s: Grants): (Grants, Option<nat>)
    requires FreeList in s.heads
  {
    var ref := s.heads[FreeList];
    if !Backed(s.table, ref) then (s, None)
    else
      (s.(table := Put(s.table, ref, LIST_END),
          heads := s.heads[FreeList := Cell(s.table, ref)],
          freeCount := s.freeCount - 1), Some(ref))
  }

  function Take(s: Grants, env: Env): (Grants, Option<nat>)
    requires FreeList in s.heads
  {
    var (ready, ok) := Ready(s, 1, env);
    if ok && FreeList in ready.heads then TakeFirst(ready) else (ready, None)
  }

  // put_free_entry
  function PutFree(s: Grants, ref: nat): Grants
    requires FreeList in s.heads && Backed(s.table, ref)
  {
    CheckCallbacks(s.(table := Put(s.table, ref, s.heads[FreeList]),
                      heads := s.heads[FreeList := ref],
                      freeCount := s.freeCount + 1))
  }

  // The references from head to LIST_END.
  function ListFrom(t: seq<Page>, head: nat, fuel: nat): seq<nat>
    decreases fuel
  {
    if fuel == 0 || head == LIST_END || !Backed(t, head) then []
    else [head] + ListFrom(t, Cell(t, head), fuel - 1)
  }

  // gnttab_free_grant_references
  function FreeRefs(s: Grants, id: nat): Grants
    requires FreeList in s.heads && Private(id) in s.heads
  {
    var head := s.heads[Private(id)];
    var cells := ListFrom(s.table, head, Limit(s));
    if head == LIST_END || cells == [] || !Backed(s.table, cells[|cells| - 1]) then s.(heads := s.heads - {Private(id)})
    else
      CheckCallbacks(s.(table := Put(s.table, cells[|cells| - 1], s.heads[FreeList]),
                        heads := s.heads[FreeList := head] - {Private(id)},
                        freeCount := s.freeCount + |cells|))
  }

  // gnttab_claim_grant_reference; None is -ENOSPC.
  function Claim(s: Grants, id: nat): (Grants, Option<nat>)
    requires Private(id) in s.heads
  {
    var ref := s.heads[Private(id)];
    if ref == LIST_END || !Backed(s.table, ref) then (s, None)
    else (s.(heads := s.heads[Private(id) := Cell(s.table, ref)]), Some(ref))
  }

  // gnttab_release_grant_reference
  function Release(s: Grants, id: nat, ref: nat): Grants
    requires Private(id) in s.heads && Backed(s.table, ref)
  {
    s.(table := Put(s.table, ref, s.heads[Private(id)]), heads := s.heads[Private(id) := ref])
  }

  // gnttab_request_free_callback
  function Request(s: Grants, id: nat, count: nat): Grants
  {
    if id in s.waiters && s.waiters[id].queued then s
    else CheckCallbacks(s.(waiters := s.waiters[id := Waiter(count, true)], waiting := [id] + s.waiting))
  }

  function Without(list: seq<nat>, id: nat): seq<nat>
  {
    if list == [] then [] else if list[0] == id then list[1..] else [list[0]] + Without(list[1..], id)
  }

  // gnttab_cancel_free_callback
  function Cancel(s: Grants, id: nat): Grants
  {
    if id in s.waiting && id in s.waiters
    then s.(waiting := Without(s.waiting, id), waiters := s.waiters[id := s.waiters[id].(queued := false)])
    else s
  }

  // gnttab_init, once its pages and the grant frame are there.
  function Init(bootMax: nat): Grants
    requires bootMax >= 1
  {
    var pages := seq(FreelistFrames(bootMax), i => if i < FreelistFrames(1) then Present(seq(RPP, _ => 0)) else Absent);
    Grants(LinkRange(pages, RESERVED, ENTRIES, LIST_END), 1, bootMax, map[FreeList := RESERVED],
           ENTRIES - RESERVED, [], map[], [])
  }
}
