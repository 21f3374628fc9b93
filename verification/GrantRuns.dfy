/** Whole runs of the grant free list: grant references are conserved. */
module GrantRuns {
  import opened Basics
  import opened GrantTable
  import opened GrantOps
  import opened GrantInvariant
  import opened GrantAllocation

  datatype Op =
    | DoTake(env: Env)                          // get_free_entry
    | DoAlloc(id: nat, count: nat, env: Env)    // gnttab_alloc_grant_references
    | DoPutFree(ref: nat)                       // put_free_entry
    | DoFreeRefs(id: nat)                       // gnttab_free_grant_references
    | DoClaim(id: nat)                          // gnttab_claim_grant_reference
    | DoRelease(id: nat, ref: nat)              // gnttab_release_grant_reference
    | DoRequest(id: nat, count: nat)            // gnttab_request_free_callback
    | DoCancel(id: nat)                         // gnttab_cancel_free_callback

  // The allocator and the references its callers hold.
  datatype Sys = Sys(grants: Grants, out: set<nat>)

  // What callers owe: they give back only what they hold, use lists they have, and ask for at least one.
  predicate Legal(y: Sys, op: Op)
  {
    match op
    case DoTake(_) => FreeList in y.grants.heads
    case DoAlloc(id, count, _) => FreeList in y.grants.heads && Private(id) !in y.grants.heads && count >= 1
    case DoPutFree(ref) => FreeList in y.grants.heads && ref in y.out && Backed(y.grants.table, ref)
    case DoFreeRefs(id) => FreeList in y.grants.heads && Private(id) in y.grants.heads
    case DoClaim(id) => Private(id) in y.grants.heads
    case DoRelease(id, ref) => Private(id) in y.grants.heads && ref in y.out && Backed(y.grants.table, ref)
    case DoRequest(_, _) => true
    case DoCancel(_) => true
  }

  function Given(out: set<nat>, ref: Option<nat>): set<nat>
  {
    if ref.Some? then out + {ref.value} else out
  }

  function Step(y: Sys, op: Op): Sys
    requires Legal(y, op)
  {
    match op
    case DoTake(env) => Sys(Take(y.grants, env).0, Given(y.out, Take(y.grants, env).1))
    case DoAlloc(id, count, env) => Sys(Alloc(y.grants, id, count, env).0, y.out)
    case DoPutFree(ref) => Sys(PutFree(y.grants, ref), y.out - {ref})
    case DoFreeRefs(id) => Sys(FreeRefs(y.grants, id), y.out)
    case DoClaim(id) => Sys(Claim(y.grants, id).0, Given(y.out, Claim(y.grants, id).1))
    case DoRelease(id, ref) => Sys(Release(y.grants, id, ref), y.out - {ref})
    case DoRequest(id, count) => Sys(Request(y.grants, id, count), y.out)
    case DoCancel(id) => Sys(Cancel(y.grants, id), y.out)
  }

  predicate StepAt(ys: seq<Sys>, ops: seq<Op>, i: nat)
  {
    i < |ops| && i + 1 < |ys| && Legal(ys[i], ops[i]) && ys[i + 1] == Step(ys[i], ops[i])
  }

  predicate IsRun(bootMax: nat, ys: seq<Sys>, ops: seq<Op>)
  {
    && 1 <= bootMax && ENTRIES * bootMax <= INT_REFS
    && |ys| == |ops| + 1 && ys[0] == Sys(Init(bootMax), {})
    && forall i :: 0 <= i < |ops| ==> StepAt(ys, ops, i)
  }

  ghost predicate GoodSys(y: Sys) { Good(y.grants, y.out) }

  /* ---- each step ---- */

  lemma PutFreeGood(s: Grants, out: set<nat>, ref: nat)
    requires Good(s, out) && FreeList in s.heads && ref in out && Backed(s.table, ref)
    ensures Good(PutFree(s, ref), out - {ref})
  {
    var g :| Inv(s, g) && Outstanding(g) == out;
    PutFreeInv(s, g, ref);
  }

  lemma ReleaseGood(s: Grants, out: set<nat>, id: nat, ref: nat)
    requires Good(s, out) && Private(id) in s.heads && ref in out && Backed(s.table, ref)
    ensures Good(Release(s, id, ref), out - {ref})
  {
    var g :| Inv(s, g) && Outstanding(g) == out;
    ReleaseInv(s, g, id, ref);
  }

  // A claim fails exactly when the private list is empty, and takes its first reference otherwise.
  lemma ClaimGood(s: Grants, out: set<nat>, id: nat)
    requires Good(s, out) && Private(id) in s.heads
    ensures Good(Claim(s, id).0, Given(out, Claim(s, id).1))
    ensures Claim(s, id).1 == None <==> ListOf(s, Private(id)) == []
    ensures Claim(s, id).1.Some? ==> Claim(s, id).1.value == ListOf(s, Private(id))[0] && Claim(s, id).1.value !in out
  {
    var g :| Inv(s, g) && Outstanding(g) == out;
    ClaimInv(s, g, id);
    WalkedList(s, g, Private(id));
  }

  lemma FreeRefsGood(s: Grants, out: set<nat>, id: nat)
    requires Good(s, out) && FreeList in s.heads && Private(id) in s.heads
    ensures Good(FreeRefs(s, id), out)
  {
    var g :| Inv(s, g) && Outstanding(g) == out;
    FreeRefsInv(s, g, id);
  }

  lemma RequestGood(s: Grants, out: set<nat>, id: nat, count: nat)
    requires Good(s, out)
    ensures Good(Request(s, id, count), out)
  {
    var g :| Inv(s, g) && Outstanding(g) == out;
    RequestInv(s, g, id, count);
  }

  lemma CancelGood(s: Grants, out: set<nat>, id: nat)
    requires Good(s, out)
    ensures Good(Cancel(s, id), out)
  {
    var g :| Inv(s, g) && Outstanding(g) == out;
    CancelInv(s, g, id);
  }

  lemma StepGood(y: Sys, op: Op)
    requires GoodSys(y) && Legal(y, op)
    ensures GoodSys(Step(y, op))
  {
    match op
    case DoTake(env) => TakeGood(y.grants, y.out, env);
    case DoAlloc(id, count, env) => AllocGood(y.grants, y.out, id, count, env);
    case DoPutFree(ref) => PutFreeGood(y.grants, y.out, ref);
    case DoFreeRefs(id) => FreeRefsGood(y.grants, y.out, id);
    case DoClaim(id) => ClaimGood(y.grants, y.out, id);
    case DoRelease(id, ref) => ReleaseGood(y.grants, y.out, id, ref);
    case DoRequest(id, count) => RequestGood(y.grants, y.out, id, count);
    case DoCancel(id) => CancelGood(y.grants, y.out, id);
  }

  lemma {:induction false} RunGood(bootMax: nat, ys: seq<Sys>, ops: seq<Op>)
    requires IsRun(bootMax, ys, ops)
    ensures GoodSys(ys[|ops|])
  {
    if ops == [] {
      InitInv(bootMax);
      assert Inv(ys[0].grants, InitShape());
    } else {
      var n := |ops| - 1;
      forall i | 0 <= i < n ensures StepAt(ys[..|ops|], ops[..n], i) {
        assert StepAt(ys, ops, i);
      }
      RunGood(bootMax, ys[..|ops|], ops[..n]);
      assert StepAt(ys, ops, n);
      StepGood(ys[n], ops[n]);
    }
  }

  /* ---- conservation ---- */

  // Is `ref` on exactly one list, or on none and held by a caller?
  ghost predicate InOnePlace(s: Grants, out: set<nat>, ref: nat)
  {
    || (ref in out && forall k :: k in s.heads ==> ref !in ListOf(s, k))
    || (ref !in out && exists k :: k in s.heads && ref in ListOf(s, k)
                                   && forall o :: o in s.heads && ref in ListOf(s, o) ==> o == k)
  }

  // Followed from its head, list k meets no reference twice, none that is reserved, and ends in LIST_END.
  ghost predicate ProperList(s: Grants, k: Key)
    requires k in s.heads
  {
    var refs := ListOf(s, k);
    && (forall i, j :: 0 <= i < j < |refs| ==> refs[i] != refs[j])
    && (forall i :: 0 <= i < |refs| ==> RESERVED <= refs[i] < Limit(s))
    && if refs == [] then s.heads[k] == LIST_END
       else Backed(s.table, refs[|refs| - 1]) && Cell(s.table, refs[|refs| - 1]) == LIST_END
  }

  ghost predicate Conserved(s: Grants, out: set<nat>)
  {
    && (forall k :: k in s.heads ==> ProperList(s, k))
    && (forall ref :: RESERVED <= ref < Limit(s) ==> InOnePlace(s, out, ref))
    && (forall ref :: ref in out ==> RESERVED <= ref < Limit(s))
    && FreeList in s.heads && |ListOf(s, FreeList)| == s.freeCount
  }

  // Every index below the limit has a page, inside the array that was sized at start-up.
  ghost predicate PagesStand(s: Grants, bootMax: nat)
  {
    && BackedBelow(s.table, Limit(s))
    && |s.table| == FreelistFrames(bootMax)
    && 1 <= s.frames <= bootMax
  }

  ghost predicate ServesWaiters(s: Grants) { WaitersOk(s) && AllWait(s) }

  lemma ListIsProper(s: Grants, g: Shape, k: Key)
    requires Inv(s, g) && k in s.heads
    ensures ProperList(s, k)
  {
    WalkedList(s, g, k);
    ListDistinct(s.table, s.heads, g, k);
    var refs := g.lists[k];
    assert ListOk(s.table, s.heads, g, k);
    if refs != [] { FirstOn(s.table, s.heads, g, k, |refs| - 1); }
  }

  lemma PlaceIs(s: Grants, g: Shape, ref: nat, k: Key)
    requires Inv(s, g) && RESERVED <= ref < Limit(s) && k in s.heads
    ensures ref in ListOf(s, k) <==> g.owner[ref] == Some(k)
  {
    WalkedList(s, g, k);
    ListDistinct(s.table, s.heads, g, k);
    assert Placed(g, ref);
  }

  lemma OnePlace(s: Grants, g: Shape, ref: nat)
    requires Inv(s, g) && RESERVED <= ref < Limit(s)
    ensures InOnePlace(s, Outstanding(g), ref)
  {
    forall k | k in s.heads ensures ref in ListOf(s, k) <==> g.owner[ref] == Some(k) {
      PlaceIs(s, g, ref, k);
    }
    assert Placed(g, ref);
    match g.owner[ref]
    case None =>
    case Some(k) =>
      assert k in s.heads.Keys;
  }

  lemma GoodConserved(s: Grants, out: set<nat>)
    requires Good(s, out)
    ensures Conserved(s, out) && ServesWaiters(s) && PagesStand(s, s.bootMax)
  {
    var g :| Inv(s, g) && Outstanding(g) == out;
    forall k | k in s.heads ensures ProperList(s, k) { ListIsProper(s, g, k); }
    forall ref | RESERVED <= ref < Limit(s) ensures InOnePlace(s, out, ref) { OnePlace(s, g, ref); }
    WalkedList(s, g, FreeList);
  }

  // After any run with counts of at least 1: every reference from 8 up to the limit is on the
  // free list, on one private list, or held by a caller, and only there; the free list is as
  // long as the count says; no list repeats, and each ends in LIST_END; a waiting callback asks
  // for more than there is.
  lemma RunConserves(bootMax: nat, ys: seq<Sys>, ops: seq<Op>)
    requires IsRun(bootMax, ys, ops)
    ensures Conserved(ys[|ops|].grants, ys[|ops|].out)
    ensures ServesWaiters(ys[|ops|].grants)
  {
    RunGood(bootMax, ys, ops);
    GoodConserved(ys[|ops|].grants, ys[|ops|].out);
  }

  lemma BootMaxStays(y: Sys, op: Op)
    requires GoodSys(y) && Legal(y, op)
    ensures Step(y, op).grants.bootMax == y.grants.bootMax
  {
  }

  // Growth is sound: the table never leaves the array, and every index below the limit has a page.
  lemma {:induction false} RunPages(bootMax: nat, ys: seq<Sys>, ops: seq<Op>)
    requires IsRun(bootMax, ys, ops)
    ensures PagesStand(ys[|ops|].grants, bootMax)
    ensures ys[|ops|].grants.bootMax == bootMax
  {
    RunGood(bootMax, ys, ops);
    GoodConserved(ys[|ops|].grants, ys[|ops|].out);
    if ops != [] {
      var n := |ops| - 1;
      forall i | 0 <= i < n ensures StepAt(ys[..|ops|], ops[..n], i) {
        assert StepAt(ys, ops, i);
      }
      RunPages(bootMax, ys[..|ops|], ops[..n]);
      RunGood(bootMax, ys[..|ops|], ops[..n]);
      assert StepAt(ys, ops, n);
      BootMaxStays(ys[n], ops[n]);
    }
  }

  // What a caller holds has a page, so giving it back touches only backed cells.
  lemma HeldIsBacked(s: Grants, out: set<nat>, ref: nat)
    requires Good(s, out) && ref in out
    ensures Backed(s.table, ref) && RESERVED <= ref < Limit(s)
  {
    GoodConserved(s, out);
  }
}
