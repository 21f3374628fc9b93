/** Taking entries from the grant free list, with and without growth, and the list at start-up. */
module GrantAllocation {
  import opened Basics
  import opened GrantTable
  import opened GrantOps
  import opened GrantInvariant

  /* ---- detaching ---- */

  // The walk of get_free_entries stops on the count-th entry; a count of 0 stops on the first.
  lemma WalkStopsAt(s: Grants, g: Shape, count: nat)
    requires Inv(s, g) && 1 <= count <= s.freeCount
    ensures Nth(s.table, s.heads[FreeList], count - 1) == g.lists[FreeList][count - 1]
    ensures Backed(s.table, g.lists[FreeList][count - 1])
  {
    FirstOn(s.table, s.heads, g, FreeList, 0);
    FirstOn(s.table, s.heads, g, FreeList, count - 1);
    NthIs(s.table, s.heads, g, FreeList, 0, count - 1);
  }

  // The detached list is the first `count` entries, and the rest stay.
  lemma DetachInv(s: Grants, g: Shape, id: nat, count: nat)
    requires Inv(s, g) && Private(id) !in s.heads && 1 <= count <= s.freeCount
    ensures Inv(Detach(s, id, count), Split(g, Private(id), count))
    ensures Outstanding(Split(g, Private(id), count)) == Outstanding(g)
    ensures Detach(s, id, count).heads.Keys == s.heads.Keys + {Private(id)}
  {
    WalkStopsAt(s, g, count);
    SplitLayout(s.table, s.heads, g, Private(id), count);
  }

  lemma TakeFirstInv(s: Grants, g: Shape)
    requires Inv(s, g) && 1 <= s.freeCount
    ensures var (s', ref) := TakeFirst(s);
      && ref == Some(g.lists[FreeList][0]) && ref.value !in Outstanding(g) && ref.value < |g.owner|
      && Inv(s', Popped(g, FreeList))
      && Outstanding(Popped(g, FreeList)) == Outstanding(g) + {ref.value}
  {
    FirstOn(s.table, s.heads, g, FreeList, 0);
    PopLayout(s.table, s.heads, g, FreeList);
    var ref := s.heads[FreeList];
    LooseWrite(s.table, s.heads[FreeList := Cell(s.table, ref)], Popped(g, FreeList), ref, LIST_END);
  }

  // Writing the link of an entry that is on no list harms nobody.
  lemma LooseWrite(t: seq<Page>, heads: map<Key, nat>, g: Shape, e: nat, v: nat)
    requires Layout(t, heads, g) && e < |g.owner| && g.owner[e] == None
    ensures Backed(t, e) && Layout(Put(t, e, v), heads, g)
  {
    StillBacked(t, e, v, |g.owner|);
    forall k | k in g.lists
      ensures ListOk(Put(t, e, v), heads, g, k)
    {
      OtherListStands(t, heads, g, e, v, heads, g, k);
    }
  }

  /* ---- with growth ---- */

  function Pages(s: Grants, req: nat): int
  {
    FreelistFrames(s.frames + Extra(req)) - FreelistFrames(s.frames)
  }

  // What an expansion needs: room below both limits, the new frames mapped, and its pages.
  predicate CanExpand(s: Grants, req: nat, env: Env)
  {
    s.frames + Extra(req) <= env.xenMax && s.frames + Extra(req) <= s.bootMax && env.mapOk && Pages(s, req) <= env.pages
  }

  function ExpandShape(s: Grants, g: Shape, req: nat, env: Env): Shape
    requires FreeList in g.lists && |g.owner| == |g.pos| == Limit(s)
  {
    if CanExpand(s, req, env) then GrowShape(s, g, Extra(req)) else g
  }

  // An expansion succeeds exactly when it can, and then frees at least what was asked; a failed
  // one leaves lists and counts as they were.
  lemma ExpandInv(s: Grants, g: Shape, req: nat, env: Env)
    requires Inv(s, g) && req >= 1
    ensures var (s', ok) := Expand(s, req, env);
      && Inv(s', ExpandShape(s, g, req, env)) && Outstanding(ExpandShape(s, g, req, env)) == Outstanding(g)
      && (ok <==> CanExpand(s, req, env))
      && (ok ==> s.freeCount + req <= s'.freeCount < s.freeCount + req + ENTRIES)
      && (!ok ==> s' == s.(table := s'.table) && SameBelow(s.table, s'.table, Limit(s)))
      && s'.heads.Keys == s.heads.Keys
  {
    ExtraIsLeast(req);
    if s.frames + Extra(req) > Min(env.xenMax, s.bootMax) || !env.mapOk {
    } else if CanExpand(s, req, env) {
      GrowInv(s, g, Extra(req), env.pages);
    } else {
      FailedGrowInv(s, g, Extra(req), env.pages);
    }
  }

  /* ---- without the ghost shape ---- */

  // The references on list k, from its head on.
  function ListOf(s: Grants, k: Key): seq<nat>
    requires k in s.heads
  {
    ListFrom(s.table, s.heads[k], Limit(s))
  }

  // The lists are in order, and exactly the references of `out` are held outside them.
  ghost predicate Good(s: Grants, out: set<nat>)
  {
    exists g :: Inv(s, g) && Outstanding(g) == out
  }

  lemma GoodBasics(s: Grants, out: set<nat>)
    requires Good(s, out)
    ensures FreeList in s.heads && 0 <= s.freeCount
  {
  }

  lemma ExpandGood(s: Grants, out: set<nat>, req: nat, env: Env)
    requires Good(s, out) && req >= 1 && FreeList in s.heads
    ensures var (s', ok) := Expand(s, req, env);
      && Good(s', out) && (forall k :: k in s'.heads <==> k in s.heads)
      && (ok <==> CanExpand(s, req, env))
      && (ok ==> s'.freeCount >= s.freeCount + req)
      && (!ok ==> SameLists(s, s'))
  {
    var g :| Inv(s, g) && Outstanding(g) == out;
    ExpandInv(s, g, req, env);
  }

  lemma DetachGood(s: Grants, out: set<nat>, id: nat, count: nat)
    requires Good(s, out) && Private(id) !in s.heads && 1 <= count <= s.freeCount && FreeList in s.heads
    ensures Good(Detach(s, id, count), out)
    ensures Private(id) in Detach(s, id, count).heads
    ensures count <= |ListOf(s, FreeList)| && ListOf(Detach(s, id, count), Private(id)) == ListOf(s, FreeList)[..count]
  {
    var g :| Inv(s, g) && Outstanding(g) == out;
    DetachInv(s, g, id, count);
    WalkedList(s, g, FreeList);
    WalkedList(Detach(s, id, count), Split(g, Private(id), count), Private(id));
  }

  lemma TakeFirstGood(s: Grants, out: set<nat>)
    requires Good(s, out) && 1 <= s.freeCount && FreeList in s.heads
    ensures var (s', ref) := TakeFirst(s);
      ref.Some? && ref.value !in out && Good(s', out + {ref.value})
  {
    var g :| Inv(s, g) && Outstanding(g) == out;
    TakeFirstInv(s, g);
  }

  // Are there enough entries, or can there be?
  predicate Served(s: Grants, count: nat, env: Env)
  {
    s.freeCount >= count || CanExpand(s, count - s.freeCount, env)
  }

  // A failed request leaves heads and counts as they were, and every link below the limit.
  ghost predicate SameLists(s: Grants, s': Grants)
  {
    s' == s.(table := s'.table) && SameBelow(s.table, s'.table, Limit(s))
  }

  // What a caller knows of the state in which its entries are cut off, or its request fails.
  ghost predicate ReadyFor(s: Grants, out: set<nat>, count: nat, served: bool, r: (Grants, bool))
  {
    && Good(r.0, out) && (forall k :: k in r.0.heads <==> k in s.heads)
    && (r.1 <==> served)
    && (r.1 ==> r.0.freeCount >= count)
    && (!r.1 ==> SameLists(s, r.0))
  }

  lemma ReadyGood(s: Grants, out: set<nat>, count: nat, env: Env)
    requires Good(s, out) && FreeList in s.heads && count >= 1
    ensures ReadyFor(s, out, count, Served(s, count, env), Ready(s, count, env))
  {
    GoodBasics(s, out);
    if s.freeCount < count {
      ReadyExpanded(s, out, count, env, count - s.freeCount, Ready(s, count, env), Served(s, count, env));
    }
  }

  lemma ReadyExpanded(s: Grants, out: set<nat>, count: nat, env: Env, req: nat, r: (Grants, bool), served: bool)
    requires Good(s, out) && FreeList in s.heads && 0 <= s.freeCount < count && req == count - s.freeCount
    requires r == Expand(s, req, env) && (served <==> CanExpand(s, req, env))
    ensures ReadyFor(s, out, count, served, r)
  {
    ExpandGood(s, out, req, env);
  }

  // gnttab_alloc_grant_references: it fails exactly when there are too few entries and no
  // expansion is possible, and then no list changed. When it succeeds the new list has `count`
  // references.
  lemma AllocGood(s: Grants, out: set<nat>, id: nat, count: nat, env: Env)
    requires Good(s, out) && FreeList in s.heads && Private(id) !in s.heads && count >= 1
    ensures Good(Alloc(s, id, count, env).0, out)
    ensures Alloc(s, id, count, env).1 <==> Served(s, count, env)
    ensures Alloc(s, id, count, env).1 ==>
              Private(id) in Alloc(s, id, count, env).0.heads
              && |ListOf(Alloc(s, id, count, env).0, Private(id))| == count
    ensures !Alloc(s, id, count, env).1 ==> SameLists(s, Alloc(s, id, count, env).0)
  {
    ReadyGood(s, out, count, env);
    AllocIs(s, id, count, env);
    DetachedIf(Ready(s, count, env), out, id, count, Alloc(s, id, count, env));
  }

  lemma AllocIs(s: Grants, id: nat, count: nat, env: Env)
    requires FreeList in s.heads && FreeList in Ready(s, count, env).0.heads
    ensures var (ready, ok) := Ready(s, count, env);
      Alloc(s, id, count, env) == if ok then (Detach(ready, id, count), true) else (ready, false)
  {
  }

  lemma DetachedIf(r: (Grants, bool), out: set<nat>, id: nat, count: nat, a: (Grants, bool))
    requires Good(r.0, out) && FreeList in r.0.heads && Private(id) !in r.0.heads
             && (r.1 ==> 1 <= count <= r.0.freeCount)
    requires a == if r.1 then (Detach(r.0, id, count), true) else (r.0, false)
    ensures Good(a.0, out) && a.1 == r.1
    ensures a.1 ==> Private(id) in a.0.heads && |ListOf(a.0, Private(id))| == count
  {
    if r.1 { DetachGood(r.0, out, id, count); }
  }

  // The reference taken, if any, was held by nobody, and now is.
  ghost predicate TookGood(out: set<nat>, a: (Grants, Option<nat>))
  {
    match a.1
    case None => Good(a.0, out)
    case Some(ref) => ref !in out && Good(a.0, out + {ref})
  }

  // get_free_entry: a reference nobody holds, or -ENOSPC exactly when nothing is free and no
  // expansion is possible.
  lemma TakeGood(s: Grants, out: set<nat>, env: Env)
    requires Good(s, out) && FreeList in s.heads
    ensures Take(s, env).1.Some? <==> Served(s, 1, env)
    ensures TookGood(out, Take(s, env))
  {
    ReadyGood(s, out, 1, env);
    TakeIs(s, env);
    TakenIf(Ready(s, 1, env), out, Take(s, env));
  }

  lemma TakeIs(s: Grants, env: Env)
    requires FreeList in s.heads && FreeList in Ready(s, 1, env).0.heads
    ensures var (ready, ok) := Ready(s, 1, env);
      Take(s, env) == if ok then TakeFirst(ready) else (ready, None)
  {
  }

  lemma TakenIf(r: (Grants, bool), out: set<nat>, a: (Grants, Option<nat>))
    requires Good(r.0, out) && FreeList in r.0.heads && (r.1 ==> 1 <= r.0.freeCount)
    requires a == if r.1 then TakeFirst(r.0) else (r.0, None)
    ensures a.1.Some? <==> r.1
    ensures TookGood(out, a)
  {
    if r.1 { TakeFirstGood(r.0, out); }
  }

  /* ---- a count of 0 ---- */

  // The count stays the length of the free list exactly when at least one entry is asked for:
  // a request for none cuts off one entry without counting it.
  lemma CountedIffAsked(s: Grants, g: Shape, id: nat, count: nat)
    requires Inv(s, g) && Private(id) !in s.heads && count <= s.freeCount && 1 <= s.freeCount
    ensures var s' := Detach(s, id, count);
      |ListFrom(s'.table, s'.heads[FreeList], Limit(s'))| == s'.freeCount <==> count >= 1
  {
    if count >= 1 {
      DetachInv(s, g, id, count);
      WalkedList(Detach(s, id, count), Split(g, Private(id), count), FreeList);
    } else {
      DetachInv(s, g, id, 1);
      WalkStopsAt(s, g, 1);
      WalkedList(Detach(s, id, 1), Split(g, Private(id), 1), FreeList);
      assert Detach(s, id, 0) == Detach(s, id, 1).(freeCount := s.freeCount);
    }
  }

  /* ---- start-up ---- */

  function InitShape(): Shape
  {
    Grown(Shape(map[FreeList := []], seq(RESERVED, _ => None), seq(RESERVED, _ => 0)), ENTRIES)
  }

  lemma InitInv(bootMax: nat)
    requires 1 <= bootMax && ENTRIES * bootMax <= INT_REFS
    ensures Inv(Init(bootMax), InitShape())
    ensures Outstanding(InitShape()) == {}
  {
    var g := Shape(map[FreeList := []], seq(RESERVED, _ => None), seq(RESERVED, _ => 0));
    var pages := seq(FreelistFrames(bootMax), i => if i < FreelistFrames(1) then Present(seq(RPP, _ => 0)) else Absent);
    FreelistFramesFit(1, bootMax - 1);
    assert BackedBelow(pages, ENTRIES);
    assert Layout(pages, map[FreeList := LIST_END], g) by {
      assert ListOk(pages, map[FreeList := LIST_END], g, FreeList);
      forall e | 0 <= e < |g.owner| ensures Placed(g, e) {}
    }
    GrownLayout(pages, pages, map[FreeList := LIST_END], g, ENTRIES,
                Init(bootMax).table, Init(bootMax).heads, InitShape());
  }
}
