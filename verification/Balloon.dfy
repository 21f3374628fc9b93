/**
 The balloon driver: pages given back to the hypervisor are kept on a list, low memory in
 front, and a worker moves pages in batches until the target is reached or memory runs short.
 */
module Balloon {
  import opened Basics

  const BATCH := 512   // entries of frame_list

  datatype Page = Page(pfn: nat, high: bool)

  function Lows(ps: seq<Page>): nat { if ps == [] then 0 else (if ps[0].high then 0 else 1) + Lows(ps[1..]) }
  function Highs(ps: seq<Page>): nat { if ps == [] then 0 else (if ps[0].high then 1 else 0) + Highs(ps[1..]) }

  lemma {:induction false} LowsAndHighs(ps: seq<Page>)
    ensures Lows(ps) + Highs(ps) == |ps|
  {
    if ps != [] { LowsAndHighs(ps[1..]); }
  }

  lemma {:induction false} CountLast(ps: seq<Page>, p: Page)
    ensures Lows(ps + [p]) == Lows(ps) + (if p.high then 0 else 1)
    ensures Highs(ps + [p]) == Highs(ps) + (if p.high then 1 else 0)
  {
    if ps == [] {
      assert [] + [p] == [p];
    } else {
      CountLast(ps[1..], p);
      assert (ps + [p])[1..] == ps[1..] + [p];
    }
  }

  // No low page behind a high one.
  predicate LowFirst(ps: seq<Page>)
  {
    forall i, j :: 0 <= i < j < |ps| && ps[i].high ==> ps[j].high
  }

  predicate Distinct(ps: seq<Page>) { forall i, j :: 0 <= i < j < |ps| ==> ps[i].pfn != ps[j].pfn }

  // Ballooned pages have no machine frame.
  predicate Unmapped(ps: seq<Page>, p2m: map<nat, nat>) { forall i :: 0 <= i < |ps| ==> ps[i].pfn !in p2m }

  predicate Apart(ps: seq<Page>, qs: seq<Page>)
  {
    forall i, j :: 0 <= i < |ps| && 0 <= j < |qs| ==> ps[i].pfn != qs[j].pfn
  }

  predicate Mapped(ps: seq<Page>, p2m: map<nat, nat>) { forall i :: 0 <= i < |ps| ==> ps[i].pfn in p2m }

  // What one round of the worker meets: populate_physmap's result before it is cut to the size of
  // the request (negative is an error), the machine frames, and how many pages the allocator yields.
  datatype Round = Round(rc: int, mfns: seq<nat>, avail: nat)

  class BalloonDriver {
    var pages: seq<Page>          // ballooned_pages
    var current: nat              // bs.current_pages
    var target: nat               // bs.target_pages
    var low: nat                  // bs.balloon_low
    var high: nat                 // bs.balloon_high
    var p2m: map<nat, nat>
    var free: seq<Page>           // the allocator's free pages
    const frames: array<nat>      // frame_list

    ghost predicate Valid()
      reads this
    {
      && frames.Length == BATCH
      && LowFirst(pages) && Distinct(pages) && Unmapped(pages, p2m)
      && low == Lows(pages) && high == Highs(pages)
      && Distinct(free) && Mapped(free, p2m)
    }

    // current_target
    function CurrentTarget(): (t: nat)
      reads this
      ensures t <= target && t <= current + low + high && (t == target || t == current + low + high)
    {
      if target > current + low + high then current + low + high else target
    }

    // Everything the guest owns: ballooned, or free in the allocator.
    ghost function Owned(): multiset<Page>
      reads this
    {
      multiset(pages) + multiset(free)
    }

    // balloon_append, for a page that is to be accounted for.
    method Append(page: Page)
      requires Valid() && page.pfn in p2m && forall i :: 0 <= i < |free| ==> free[i].pfn != page.pfn
      modifies this`pages, this`low, this`high, this`p2m
      ensures Valid()
      ensures pages == Appended(old(pages), [page])
      ensures p2m == old(p2m) - {page.pfn}
    {
      if page.high {
        CountLast(pages, page);
        pages := pages + [page];
        high := high + 1;
      } else {
        pages := [page] + pages;
        low := low + 1;
      }
      p2m := p2m - {page.pfn};
    }

    // balloon_retrieve
    method Retrieve() returns (page: Option<Page>)
      requires Valid()
      modifies this`pages, this`low, this`high
      ensures Valid()
      ensures page == None <==> old(pages) == []
      ensures old(pages) != [] ==> page == Some(old(pages)[0]) && pages == old(pages)[1..]
      ensures old(pages) == [] ==> pages == []
    {
      if pages == [] { return None; }
      page := Some(pages[0]);
      if pages[0].high { high := high - 1; } else { low := low - 1; }
      pages := pages[1..];
    }

    // One round of the second loop of increase_reservation: the first page comes off the list and
    // has its frame recorded. It is not found to have one already.
    method RepopulateFirst(i: nat, mfn: nat)
      requires Valid() && pages != [] && i < BATCH
      modifies this`pages, this`low, this`high, this`p2m, this`free, frames
      ensures Valid() && pages == old(pages)[1..] && free == old(free) + [old(pages)[0]]
      ensures old(pages)[0].pfn !in old(p2m) && p2m == old(p2m)[old(pages)[0].pfn := mfn]
    {
      frames[i] := mfn;
      var page := Retrieve();
      assert page.value.pfn !in p2m;
      p2m := p2m[page.value.pfn := frames[i]];
      free := free + [page.value];
    }

    // That loop: the first n pages come off the list, the i-th with the i-th machine frame.
    method Repopulate(n: nat, mfns: seq<nat>)
      requires Valid() && n <= |pages| && n <= |mfns| == BATCH
      modifies this`pages, this`low, this`high, this`p2m, this`free, frames
      ensures Valid() && pages == old(pages)[n..] && free == old(free) + old(pages)[..n]
      ensures p2m == WithFrames(old(p2m), old(pages)[..n], mfns)
    {
      ghost var ps := pages;
      for i := 0 to n
        invariant Valid() && pages == ps[i..] && free == old(free) + ps[..i]
        invariant p2m == WithFrames(old(p2m), ps[..i], mfns)
      {
        NextFramed(old(p2m), ps, i, mfns);
        RepopulateFirst(i, mfns[i]);
      }
    }

    // increase_reservation: the first pages of the list are submitted, and as many of them as the
    // hypervisor could populate come back, the i-th page with the i-th machine frame. The list is
    // never found empty.
    method Increase(credit: nat, env: Round) returns (r: int, given: nat)
      requires Valid() && credit <= |pages| && |env.mfns| == BATCH
      modifies this, frames
      ensures Valid() && target == old(target)
      ensures var nr := Min(credit, BATCH);
              var rc := if env.rc > nr then nr else env.rc;
        (if rc < 0 then r == rc && given == 0 else r == (if rc != nr then 1 else 0) && given == rc)
      ensures pages == old(pages)[given..] && free == old(free) + old(pages)[..given]
      ensures p2m == WithFrames(old(p2m), old(pages)[..given], env.mfns)
      ensures current == old(current) + given && current + low + high == old(current + low + high)
      ensures Owned() == old(Owned())
    {
      LowsAndHighs(pages);
      var nr := Min(credit, BATCH);
      SubmitFirst(nr);
      var rc := if env.rc > nr then nr else env.rc;
      if rc < 0 { return rc, 0; }
      given := rc;
      Parts(pages, given);
      Repopulate(given, env.mfns);
      current := current + given;
      LowsAndHighs(pages);
      r := if rc != nr then 1 else 0;
    }

    // The first loop of increase_reservation walks the list without taking anything off it.
    method SubmitFirst(nr: nat)
      requires frames.Length == BATCH && nr <= |pages| && nr <= BATCH
      modifies frames
      ensures forall i :: 0 <= i < nr ==> frames[i] == pages[i].pfn
    {
      for i := 0 to nr
        invariant forall j :: 0 <= j < i ==> frames[j] == pages[j].pfn
      {
        frames[i] := pages[i].pfn;
      }
    }

    // decrease_reservation: pages come from the allocator until it yields no more.
    method Decrease(credit: nat, env: Round) returns (needSleep: bool, taken: nat)
      requires Valid() && credit <= current
      modifies this, frames
      ensures Valid() && target == old(target)
      ensures taken == Min(Min(credit, BATCH), Min(env.avail, |old(free)|))
      ensures needSleep <==> taken < Min(credit, BATCH)
      ensures free == old(free)[taken..] && pages == Appended(old(pages), old(free)[..taken])
      ensures p2m == Forgotten(old(p2m), old(free)[..taken])
      ensures current == old(current) - taken && current + low + high == old(current + low + high)
      ensures Owned() == old(Owned())
    {
      LowsAndHighs(pages);
      var spare := free;
      needSleep, taken := AllocPages(Min(credit, BATCH), env.avail);
      AppendAll(spare[..taken]);
      GivenUp(old(pages), spare, taken);
      current := current - taken;
      LowsAndHighs(pages);
    }

    // The first loop of decrease_reservation.
    method AllocPages(nr: nat, avail: nat) returns (needSleep: bool, taken: nat)
      requires Valid() && nr <= BATCH
      modifies this`free, frames
      ensures taken == Min(nr, Min(avail, |old(free)|)) && (needSleep <==> taken < nr)
      ensures free == old(free)[taken..] && Valid()
      ensures forall j :: 0 <= j < taken ==> frames[j] == old(free)[j].pfn
    {
      needSleep, taken := false, 0;
      while taken < nr && !needSleep
        invariant taken <= nr && taken <= avail && taken <= |old(free)|
        invariant needSleep ==> taken < nr && (taken == avail || taken == |old(free)|)
        invariant free == old(free)[taken..]
        invariant forall j :: 0 <= j < taken ==> frames[j] == old(free)[j].pfn
        decreases nr - taken, !needSleep
      {
        if free == [] || taken == avail {
          needSleep := true;
        } else {
          frames[taken] := free[0].pfn;
          free := free[1..];
          taken := taken + 1;
        }
      }
    }

    // Its second loop.
    method AppendAll(ps: seq<Page>)
      requires Valid() && Distinct(ps) && Mapped(ps, p2m) && Apart(ps, free)
      modifies this`pages, this`low, this`high, this`p2m
      ensures Valid() && p2m == Forgotten(old(p2m), ps) && pages == Appended(old(pages), ps)
    {
      for i := 0 to |ps|
        invariant Valid() && p2m == Forgotten(old(p2m), ps[..i])
        invariant pages == Appended(old(pages), ps[..i])
        invariant forall j :: i <= j < |ps| ==> ps[j].pfn in p2m
      {
        OneMore(ps, i, old(p2m), old(pages));
        Append(ps[i]);
      }
      assert ps[..|ps|] == ps;
    }

    // How far the worker still has to go.
    function Distance(): nat
      reads this
    {
      if CurrentTarget() > current then CurrentTarget() - current else current - CurrentTarget()
    }

    // Less than the batch can be had.
    predicate FallsShort(env: Round)
      reads this
    {
      var nr := Min(Distance(), BATCH);
      if CurrentTarget() > current then env.rc < nr else Min(env.avail, |free|) < nr
    }

    // Enough is to be had for all rounds.
    ghost predicate Ample(env: nat -> Round)
      reads this
    {
      && (forall k :: env(k).rc >= BATCH && env(k).avail >= BATCH)
      && (current <= CurrentTarget() || |free| >= Distance())
    }

    // One round of the loop of balloon_process; `done` when there was nothing left to do.
    method Round1(env: Round) returns (done: bool, short: bool)
      requires Valid() && |env.mfns| == BATCH
      modifies this, frames
      ensures Valid() && target == old(target) && current + low + high == old(current + low + high)
      ensures Owned() == old(Owned())
      ensures done <==> old(Distance()) == 0
      ensures done ==> !short && current == old(current)
      ensures !done && !short ==> Distance() == old(Distance()) - Min(old(Distance()), BATCH)
      ensures Between(old(current), current, CurrentTarget())
      ensures short <==> old(FallsShort(env))
      ensures old(current) >= CurrentTarget() ==> |free| - current == |old(free)| - old(current)
    {
      LowsAndHighs(pages);
      var credit: int := CurrentTarget() - current;
      done, short := credit == 0, false;
      if credit > 0 {
        var r, given := Increase(credit, env);
        short := r != 0;
      }
      if credit < 0 {
        var taken;
        short, taken := Decrease(-credit, env);
      }
    }

    // balloon_process: it ends, with the target reached or memory reported short; it never moves
    // away from the target nor past it, and without shortage each round but the last moves a full
    // batch, or all that is left.
    method Process(env: nat -> Round) returns (rounds: nat, short: bool)
      requires Valid() && forall k :: |env(k).mfns| == BATCH
      modifies this, frames
      ensures Valid() && target == old(target) && current + low + high == old(current + low + high)
      ensures Owned() == old(Owned())
      ensures !short ==> current == CurrentTarget()
      ensures Between(old(current), current, CurrentTarget())
      ensures old(Ample(env)) ==> !short
      ensures !short && old(Distance()) != 0 ==> rounds == (old(Distance()) + BATCH - 1) / BATCH + 1
    {
      rounds, short := 0, false;
      if CurrentTarget() == current { return; }
      var done := false;
      while !done && !short
        invariant Valid() && target == old(target) && current + low + high == old(current + low + high)
        invariant Owned() == old(Owned())
        invariant done ==> current == CurrentTarget()
        invariant Between(old(current), current, CurrentTarget())
        invariant !short && !done ==> Distance() + rounds * BATCH >= old(Distance())
                                      && (rounds - 1) * BATCH < old(Distance())
                                      && (Distance() > 0 ==> Distance() + rounds * BATCH == old(Distance()))
        invariant done ==> rounds == (old(Distance()) + BATCH - 1) / BATCH + 1
        invariant old(Ample(env)) ==> !short && Ample(env)
        decreases !short, Distance(), !done
      {
        done, short := Round1(env(rounds));
        rounds := rounds + 1;
      }
    }
  }

  // x lies between where it started and where it should go.
  predicate Between(start: nat, x: nat, goal: nat)
  {
    (start <= x <= goal) || (goal <= x <= start)
  }

  /* ---- the minimum target ---- */

  const MIB := 256   // pages

  function MinPages(maxPfn: nat): nat
  {
    if maxPfn < 128 * MIB then 8 * MIB + maxPfn / 2
    else if maxPfn < 512 * MIB then 40 * MIB + maxPfn / 4
    else if maxPfn < 2048 * MIB then 104 * MIB + maxPfn / 8
    else 296 * MIB + maxPfn / 32
  }

  // balloon_minimum_target
  function MinimumTarget(maxPfn: nat, currentTarget: nat): nat { Min(MinPages(maxPfn), currentTarget) }

  // balloon_set_new_target
  function NewTarget(asked: nat, maxPfn: nat, currentTarget: nat): nat
  {
    if asked > MinimumTarget(maxPfn, currentTarget) then asked else MinimumTarget(maxPfn, currentTarget)
  }

  // The pieces join: more memory never lowers the floor, and raises it by at most half as much.
  lemma FloorIsContinuous(a: nat, b: nat)
    requires a <= b
    ensures MinPages(a) <= MinPages(b) <= MinPages(a) + (b - a) / 2 + 1
  {
  }

  // The table of the source, and the gradients between its lines.
  lemma FloorTable(a: nat, k: nat)
    ensures MinPages(16 * MIB) == 16 * MIB && MinPages(32 * MIB) == 24 * MIB && MinPages(128 * MIB) == 72 * MIB
    ensures MinPages(512 * MIB) == 168 * MIB && MinPages(2048 * MIB) == 360 * MIB && MinPages(8192 * MIB) == 552 * MIB
    ensures MinPages(32768 * MIB) == 1320 * MIB && MinPages(131072 * MIB) == 4392 * MIB
    ensures a + 2 * k <= 128 * MIB ==> MinPages(a + 2 * k) == MinPages(a) + k
    ensures 128 * MIB <= a && a + 4 * k <= 512 * MIB ==> MinPages(a + 4 * k) == MinPages(a) + k
    ensures 512 * MIB <= a && a + 8 * k <= 2048 * MIB ==> MinPages(a + 8 * k) == MinPages(a) + k
    ensures 2048 * MIB <= a ==> MinPages(a + 32 * k) == MinPages(a) + k
  {
  }

  // The floor meets the whole memory at 16 MiB (to the page), is below it more than there is, and never grown into:
  // a target under the current one is not raised above it.
  lemma FloorNeverForcesGrowth(asked: nat, maxPfn: nat, currentTarget: nat)
    ensures MinPages(maxPfn) <= maxPfn <==> maxPfn >= 16 * MIB - 1
    ensures asked <= currentTarget ==> asked <= NewTarget(asked, maxPfn, currentTarget) <= currentTarget
    ensures asked >= currentTarget ==> NewTarget(asked, maxPfn, currentTarget) == asked
  {
  }

  // A new target is what is asked, unless that is below the floor or, where the floor is higher, below
  // what there is now: then it is the lower of these.
  lemma TargetKeepsFloor(asked: nat, maxPfn: nat, currentTarget: nat)
    ensures var t := NewTarget(asked, maxPfn, currentTarget);
      && (t >= MinPages(maxPfn) || t >= currentTarget) && t >= asked
      && (t == asked || (asked < t && (t == MinPages(maxPfn) || t == currentTarget)
                         && t <= MinPages(maxPfn) && t <= currentTarget))
  {
  }

  lemma AppendedOne(pages: seq<Page>, page: Page)
    ensures Appended(pages, [page]) == if page.high then pages + [page] else [page] + pages
  {
    assert [page][..0] == [];
  }

  lemma OneMore(ps: seq<Page>, i: nat, p2m: map<nat, nat>, pages: seq<Page>)
    requires i < |ps|
    ensures Appended(pages, ps[..i + 1]) == Appended(Appended(pages, ps[..i]), [ps[i]])
    ensures Forgotten(p2m, ps[..i + 1]) == Forgotten(p2m, ps[..i]) - {ps[i].pfn}
  {
    assert ps[..i + 1] == ps[..i] + [ps[i]] && ps[..i + 1][..i] == ps[..i];
  }

  // Giving up the first n free pages loses none.
  lemma GivenUp(pages: seq<Page>, spare: seq<Page>, n: nat)
    requires n <= |spare|
    ensures |Appended(pages, spare[..n])| == |pages| + n
    ensures multiset(Appended(pages, spare[..n])) + multiset(spare[n..]) == multiset(pages) + multiset(spare)
  {
    AppendedKeeps(pages, spare[..n]);
    Parts(spare, n);
  }

  lemma Parts(ps: seq<Page>, n: nat)
    requires n <= |ps|
    ensures multiset(ps) == multiset(ps[..n]) + multiset(ps[n..])
  {
    assert ps == ps[..n] + ps[n..];
  }

  // The list after pages are appended to it, one by one: low memory in front, high memory behind.
  function Appended(pages: seq<Page>, ps: seq<Page>): seq<Page>
    decreases |ps|
  {
    if ps == [] then pages
    else
      var p, before := ps[|ps| - 1], Appended(pages, ps[..|ps| - 1]);
      if p.high then before + [p] else [p] + before
  }

  lemma {:induction false} AppendedKeeps(pages: seq<Page>, ps: seq<Page>)
    ensures |Appended(pages, ps)| == |pages| + |ps|
    ensures multiset(Appended(pages, ps)) == multiset(pages) + multiset(ps)
    decreases |ps|
  {
    if ps != [] {
      AppendedKeeps(pages, ps[..|ps| - 1]);
      assert ps == ps[..|ps| - 1] + [ps[|ps| - 1]];
    } else {
      assert multiset(ps) == multiset{};
    }
  }

  // Pages given up have no machine frame any more.
  function Forgotten(p2m: map<nat, nat>, ps: seq<Page>): map<nat, nat>
    decreases |ps|
  {
    if ps == [] then p2m else Forgotten(p2m, ps[..|ps| - 1]) - {ps[|ps| - 1].pfn}
  }

  lemma {:induction false} ForgottenIs(p2m: map<nat, nat>, ps: seq<Page>)
    ensures Forgotten(p2m, ps) == p2m - PfnsOf(ps)
    decreases |ps|
  {
    if ps != [] {
      ForgottenIs(p2m, ps[..|ps| - 1]);
      assert PfnsOf(ps) == PfnsOf(ps[..|ps| - 1]) + {ps[|ps| - 1].pfn};
    }
  }

  // The machine frames of pages given back, in order.
  function WithFrames(p2m: map<nat, nat>, ps: seq<Page>, mfns: seq<nat>): map<nat, nat>
    requires |ps| <= |mfns|
    decreases |ps|
  {
    if ps == [] then p2m
    else WithFrames(p2m, ps[..|ps| - 1], mfns)[ps[|ps| - 1].pfn := mfns[|ps| - 1]]
  }

  lemma NextFramed(p2m: map<nat, nat>, ps: seq<Page>, i: nat, mfns: seq<nat>)
    requires i < |ps| && i < |mfns|
    ensures ps[..i + 1] == ps[..i] + [ps[i]]
    ensures WithFrames(p2m, ps[..i + 1], mfns) == WithFrames(p2m, ps[..i], mfns)[ps[i].pfn := mfns[i]]
  {
    assert ps[..i + 1][..i] == ps[..i];
  }

  // The i-th page given back has the i-th frame, and no other page's frame changed.
  lemma {:induction false} FramesInOrder(p2m: map<nat, nat>, ps: seq<Page>, mfns: seq<nat>)
    requires |ps| <= |mfns| && Distinct(ps)
    ensures forall i :: 0 <= i < |ps| ==>
              ps[i].pfn in WithFrames(p2m, ps, mfns) && WithFrames(p2m, ps, mfns)[ps[i].pfn] == mfns[i]
    ensures forall pfn :: pfn !in PfnsOf(ps) && pfn in p2m ==>
              pfn in WithFrames(p2m, ps, mfns) && WithFrames(p2m, ps, mfns)[pfn] == p2m[pfn]
    ensures WithFrames(p2m, ps, mfns).Keys == p2m.Keys + PfnsOf(ps)
    decreases |ps|
  {
    if ps != [] {
      var front := ps[..|ps| - 1];
      FramesInOrder(p2m, front, mfns);
      assert PfnsOf(ps) == PfnsOf(front) + {ps[|ps| - 1].pfn};
    }
  }

  function PfnsOf(ps: seq<Page>): set<nat> { set i | 0 <= i < |ps| :: ps[i].pfn }
}
