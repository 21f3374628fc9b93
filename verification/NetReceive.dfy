/**
 The receive side of the virtio network driver with mergeable buffers: how many buffers the
 driver believes it has posted, and what becomes of their pages.
 */
module NetReceive {
  import opened Basics

  const MAX_FRAGS := 17     // MAX_SKB_FRAGS

  // A buffer the device has used, one page, with what it and the packet allocator decide: the
  // number of buffers of the packet (any 16-bit value), whether the frame is too short, whether a
  // socket buffer can be had, and whether it holds the first page's data without the page.
  datatype Used = Used(page: nat, numBuffers: nat, short: bool, skbOk: bool, copied: bool)

  datatype Error = NoError | NoMemory | NoSpace

  function One(x: nat, page: nat): nat { if x == page then 1 else 0 }

  // How often a page is on a list, or among used buffers.
  function Times(ps: seq<nat>, page: nat): nat { if ps == [] then 0 else One(ps[0], page) + Times(ps[1..], page) }
  function TimesUsed(us: seq<Used>, page: nat): nat
  {
    if us == [] then 0 else One(us[0].page, page) + TimesUsed(us[1..], page)
  }

  lemma TimesFront(x: nat, ps: seq<nat>, page: nat)
    ensures Times([x] + ps, page) == One(x, page) + Times(ps, page)
  {
    assert ([x] + ps)[1..] == ps;
  }

  lemma {:induction false} TimesSplit(a: seq<nat>, x: nat, b: seq<nat>, page: nat)
    ensures Times(a + [x] + b, page) == Times(a + b, page) + One(x, page)
    decreases |a|
  {
    if a == [] {
      assert a + [x] + b == [x] + b && a + b == b;
      TimesFront(x, b, page);
    } else {
      TimesSplit(a[1..], x, b, page);
      assert (a + [x] + b)[1..] == a[1..] + [x] + b && (a + b)[1..] == a[1..] + b;
    }
  }

  lemma {:induction false} TimesUsedLast(us: seq<Used>, u: Used, page: nat)
    ensures TimesUsed(us + [u], page) == TimesUsed(us, page) + One(u.page, page)
  {
    if us == [] {
      assert us + [u] == [u];
    } else {
      TimesUsedLast(us[1..], u, page);
      assert (us + [u])[1..] == us[1..] + [u];
    }
  }

  // Buffers a packet takes besides its first: as many as its header says, less one, while there
  // are any. A header of 0 is taken to the last buffer there is.
  function Further(numBuffers: nat, ready: nat): nat
  {
    if numBuffers == 0 then ready else Min(numBuffers - 1, ready)
  }

  // Is the packet delivered? All its buffers are there, and each page finds a place.
  predicate Delivered(u: Used, ready: nat)
  {
    && u.skbOk && 1 <= u.numBuffers && u.numBuffers - 1 <= ready
    && (u.numBuffers == 1 || (if u.copied then 0 else 1) + u.numBuffers - 1 <= MAX_FRAGS)
  }

  /* ---- what becomes of the buffers of a packet ---- */

  // Fragments its first buffer takes; further buffers that go with the socket buffer, as many as find
  // a place; the pages that come back to the pool, the last given in front.
  function FirstFrags(u: Used): nat { if u.copied then 0 else 1 }
  function GoneWith(u: Used, further: nat): nat { if !u.skbOk then 0 else Min(further, MAX_FRAGS - FirstFrags(u)) }

  function Back(us: seq<Used>): seq<nat> { if us == [] then [] else Back(us[1..]) + [us[0].page] }

  function PagesBack(u: Used, rest: seq<Used>): seq<nat>
  {
    Back(rest[Min(GoneWith(u, |rest|), |rest|)..]) + if u.skbOk && !u.copied then [] else [u.page]
  }

  datatype Packet = Packet(first: Used, rest: seq<Used>, delivered: bool)

  // How many further buffers a packet takes of those ready; a short frame takes none.
  function Taken(u: Used, ready: nat): (n: nat)
    ensures n <= ready
  {
    if u.short then 0 else Further(u.numBuffers, ready)
  }

  // The packets of the used buffers, as the headers say.
  function PacketOf(u: Used, us: seq<Used>): Packet
  {
    Packet(u, us[..Taken(u, |us|)], !u.short && Delivered(u, |us|))
  }

  // Those of the buffers from the i-th on, as many as the budget allows, and where they end.
  function PacketsFrom(all: seq<Used>, i: nat, budget: nat): seq<Packet>
    decreases budget
  {
    if i >= |all| || budget == 0 then []
    else [PacketAt(all, i)] + PacketsFrom(all, i + 1 + Taken(all[i], |all| - i - 1), budget - 1)
  }

  function EndOf(all: seq<Used>, i: nat, budget: nat): (end: nat)
    requires i <= |all|
    ensures i <= end <= |all|
    decreases budget
  {
    if i == |all| || budget == 0 then i else EndOf(all, i + 1 + Taken(all[i], |all| - i - 1), budget - 1)
  }

  function PacketAt(all: seq<Used>, i: nat): Packet
    requires i < |all|
  {
    var n := Taken(all[i], |all| - i - 1);
    Packet(all[i], all[i + 1..i + 1 + n], !all[i].short && Delivered(all[i], |all| - i - 1))
  }

  function Packets(us: seq<Used>, budget: nat): seq<Packet> { PacketsFrom(us, 0, budget) }

  function BuffersOf(p: Packet): seq<Used> { [p.first] + p.rest }
  function Buffers(ps: seq<Packet>): seq<Used> { if ps == [] then [] else BuffersOf(ps[0]) + Buffers(ps[1..]) }

  function BackOf(p: Packet): seq<nat>
  {
    if p.first.short then [p.first.page] else PagesBack(p.first, p.rest)
  }

  lemma PacketAtIs(all: seq<Used>, i: nat)
    requires i < |all|
    ensures PacketAt(all, i) == PacketOf(all[i], all[i + 1..])
  {
    var n := Taken(all[i], |all| - i - 1);
    assert all[i + 1..][..n] == all[i + 1..i + 1 + n];
  }

  lemma BuffersFront(p: Packet, ps: seq<Packet>)
    ensures Buffers([p] + ps) == BuffersOf(p) + Buffers(ps)
  {
    assert ([p] + ps)[1..] == ps;
  }

  // The packets are the used buffers from i on, in order, and no buffer is in two; with budget left
  // they are all of them.
  lemma {:induction false} PacketsAre(all: seq<Used>, i: nat, budget: nat)
    requires i <= |all|
    ensures Buffers(PacketsFrom(all, i, budget)) == all[i..EndOf(all, i, budget)]
    ensures |PacketsFrom(all, i, budget)| <= budget
    ensures |PacketsFrom(all, i, budget)| < budget ==> EndOf(all, i, budget) == |all|
    decreases budget
  {
    if i < |all| && budget > 0 {
      var k, end := i + 1 + Taken(all[i], |all| - i - 1), EndOf(all, i, budget);
      PacketsAre(all, k, budget - 1);
      BuffersFront(PacketAt(all, i), PacketsFrom(all, k, budget - 1));
      Pieces(all, i, k, end);
    }
  }

  lemma Pieces(all: seq<Used>, i: nat, k: nat, end: nat)
    requires i < k <= end <= |all|
    ensures ([all[i]] + all[i + 1..k]) + all[k..end] == all[i..end]
  {
  }

  // A packet as a sound device sends it, with memory for it at hand.
  predicate Whole(p: Packet)
  {
    && !p.first.short && p.first.skbOk && p.first.numBuffers == 1 + |p.rest|
    && (p.rest == [] || FirstFrags(p.first) + |p.rest| <= MAX_FRAGS) && p.delivered
  }

  lemma WholeIs(p: Packet, all: seq<Used>, i: nat, tail: seq<Used>)
    requires Whole(p) && i < |all| && all[i] == p.first && all[i + 1..] == p.rest + tail
    ensures Taken(all[i], |all| - i - 1) == |p.rest| && PacketAt(all, i) == p
  {
    assert |all| - i - 1 == |all[i + 1..]|;
    assert all[i + 1..i + 1 + |p.rest|] == all[i + 1..][..|p.rest|] == p.rest;
  }

  // Such packets are delivered, each with its own buffers, in order, whatever follows.
  lemma {:induction false} WholeDelivered(all: seq<Used>, i: nat, ps: seq<Packet>, more: seq<Used>, budget: nat)
    requires i <= |all| && all[i..] == Buffers(ps) + more
    requires forall i :: 0 <= i < |ps| ==> Whole(ps[i])
    requires |ps| <= budget
    ensures ps <= PacketsFrom(all, i, budget)
    decreases |ps|
  {
    if ps != [] {
      var p, tail := ps[0], Buffers(ps[1..]) + more;
      assert Whole(ps[0]);
      AllSplits(all, i, p, Buffers(ps[1..]), more);
      WholeDelivered(all, i + 1 + |p.rest|, ps[1..], more, budget - 1);
      WholeIs(p, all, i, tail);
      FirstThen(p, ps, PacketsFrom(all, i + 1 + |p.rest|, budget - 1));
    }
  }

  lemma FirstThen(p: Packet, ps: seq<Packet>, rest: seq<Packet>)
    requires ps != [] && ps[0] == p && ps[1..] <= rest
    ensures ps <= [p] + rest
  {
    assert ps == [p] + ps[1..];
  }

  lemma AllSplits(all: seq<Used>, i: nat, p: Packet, b: seq<Used>, more: seq<Used>)
    requires i <= |all| && all[i..] == (BuffersOf(p) + b) + more
    ensures i + 1 + |p.rest| <= |all| && all[i] == p.first
    ensures all[i + 1..] == p.rest + (b + more) && all[i + 1 + |p.rest|..] == b + more
  {
    var k := 1 + |p.rest|;
    assert all[i..][1..] == all[i + 1..] && all[i..][k..] == all[i + k..];
    assert all[i..] == BuffersOf(p) + (b + more);
    assert all[i] == all[i..][0];
  }

  // A delivered packet gives back no page but that of a first buffer that was copied; one that is not
  // gives back all its pages but those that went with the socket buffer, which is freed.
  lemma DeliveredKeepsPages(u: Used, us: seq<Used>)
    ensures PacketOf(u, us).delivered ==> BackOf(PacketOf(u, us)) == if u.copied then [u.page] else []
  {
    var rest := PacketOf(u, us).rest;
    assert rest[|rest|..] == [];
  }

  lemma BackLast(us: seq<Used>, u: Used)
    ensures Back(us + [u]) == [u.page] + Back(us)
  {
    if us == [] {
      assert us + [u] == [u];
    } else {
      assert (us + [u])[1..] == us[1..] + [u];
      BackLast(us[1..], u);
    }
  }

  // The packets of `all` up to its i-th buffer are received, and `used` is left.
  ghost predicate SoFar(received: seq<Packet>, all: seq<Used>, budget: nat, i: nat, used: seq<Used>)
  {
    && |received| <= budget && Rest(all, used, i)
    && PacketsFrom(all, 0, budget) == received + PacketsFrom(all, i, budget - |received|)
    && EndOf(all, 0, budget) == EndOf(all, i, budget - |received|)
  }

  lemma OneMorePacket(received: seq<Packet>, all: seq<Used>, budget: nat, i: nat, used: seq<Used>, p: Packet,
                      left: seq<Used>)
    requires SoFar(received, all, budget, i, used) && |received| < budget && used != []
    requires p == PacketOf(used[0], used[1..]) && Rest(used, left, 1 + |p.rest|)
    ensures SoFar(received + [p], all, budget, i + 1 + |p.rest|, left)
  {
    PacketAtIs(all, i);
    assert used[0] == all[i] && used[1..] == all[i + 1..];
    SeqAssoc(received, [p], PacketsFrom(all, i + 1 + |p.rest|, budget - |received| - 1));
    RestOfRest(all, used, left, i, 1 + |p.rest|);
  }

  lemma SeqAssoc<T>(a: seq<T>, b: seq<T>, c: seq<T>)
    ensures a + (b + c) == (a + b) + c
  {
  }

  lemma ReceivedAll(received: seq<Packet>, all: seq<Used>, budget: nat, i: nat, used: seq<Used>)
    requires SoFar(received, all, budget, i, used) && (used == [] || |received| == budget)
    ensures received == PacketsFrom(all, 0, budget) && i == EndOf(all, 0, budget)
  {
    assert PacketsFrom(all, i, budget - |received|) == [];
  }

  lemma PagesDropped(u: Used, rest: seq<Used>, pages: seq<nat>, pool: seq<nat>)
    requires !u.skbOk && pages == Back(rest) + ([u.page] + pool)
    ensures pages == PagesBack(u, rest) + pool
  {
    assert rest[0..] == rest;
    SeqAssoc(Back(rest), [u.page], pool);
  }

  lemma PagesTogether(u: Used, rest: seq<Used>, pages: seq<nat>, pool: seq<nat>)
    requires u.skbOk
    requires pages == Back(rest[Min(|rest|, MAX_FRAGS - FirstFrags(u))..])
                      + ((if u.copied then [u.page] else []) + pool)
    ensures pages == PagesBack(u, rest) + pool
  {
  }

  lemma OneMoreBack(us: seq<Used>, n: nat, pages: seq<nat>, pool: seq<nat>)
    requires n < |us| && pages == Back(us[..n]) + pool
    ensures [us[n].page] + pages == Back(us[..n + 1]) + pool
  {
    assert us[..n + 1] == us[..n] + [us[n]];
    BackLast(us[..n], us[n]);
  }

  class ReceiveQueue {
    var num: nat               // rq->num
    var max: nat               // rq->max
    var pages: seq<nat>        // rq->pages, chained by private
    var waiting: seq<nat>      // pages of buffers the device still has
    var used: seq<Used>        // buffers it has used, to be fetched in this order
    var numFree: nat           // vq->num_free
    ghost const page: nat      // some page, any one: where it is, is followed below
    ghost var gone: nat        // times it left with a socket buffer
    ghost var had: nat         // times it was taken from the allocator

    // Buffers in flight.
    function InFlight(): nat
      reads this
    {
      |waiting| + |used|
    }

    ghost predicate Valid()
      reads this
    {
      num == InFlight()
    }

    // As often as the page was taken from the allocator, it is in the pool, in flight, gone with a
    // socket buffer, or in the driver's hand.
    ghost predicate Kept(hand: Option<nat>)
      reads this
    {
      had == Times(pages, page) + Times(waiting, page) + TimesUsed(used, page) + gone
             + if hand.Some? then One(hand.value, page) else 0
    }

    constructor (numFree0: nat, ghost page: nat)
      ensures Valid() && Kept(None) && waiting == [] && used == [] && numFree == numFree0
    {
      num, max, numFree := 0, 0, numFree0;
      pages, waiting, used, gone, had := [], [], [], 0, 0;
      this.page := page;
    }

    // virtqueue_get_buf
    method GetBuf() returns (u: Option<Used>)
      requires Kept(None)
      modifies this`used, this`numFree
      ensures u == None <==> old(used) == []
      ensures u == None ==> used == [] && numFree == old(numFree) && Kept(None)
      ensures u.Some? ==> u.value == old(used)[0] && used == old(used)[1..] && numFree == old(numFree) + 1
                          && Kept(Some(u.value.page))
    {
      if used == [] { return None; }
      u := Some(used[0]);
      used := used[1..];
      numFree := numFree + 1;
    }

    // give_pages, for one page.
    method GivePage(given: nat)
      requires Kept(Some(given))
      modifies this`pages
      ensures Kept(None) && pages == [given] + old(pages)
    {
      TimesFront(given, pages, page);
      pages := [given] + pages;
    }

    // get_a_page; `yielded` is what alloc_page would give.
    method GetAPage(yielded: Option<nat>) returns (p: Option<nat>)
      requires Kept(None)
      modifies this`pages, this`had
      ensures old(pages) != [] ==> p == Some(old(pages)[0]) && pages == old(pages)[1..] && had == old(had)
      ensures old(pages) == [] ==> p == yielded && pages == [] && (p == None ==> had == old(had))
      ensures Kept(p)
    {
      if pages != [] {
        p := Some(pages[0]);
        pages := pages[1..];
      } else {
        p := yielded;
        if p.Some? { had := had + One(p.value, page); }
      }
    }

    // add_recvbuf_mergeable
    method AddRecvbuf(yielded: Option<nat>) returns (err: Error)
      requires Kept(None)
      modifies this`pages, this`waiting, this`numFree, this`had
      ensures err == NoMemory <==> old(pages) == [] && yielded == None
      ensures err == NoSpace <==> err != NoMemory && old(numFree) == 0
      ensures err == NoMemory ==> pages == []
      ensures err == NoSpace ==> pages == if old(pages) == [] then [yielded.value] else old(pages)
      ensures err == NoError ==>
                waiting == old(waiting) + [if old(pages) == [] then yielded.value else old(pages)[0]]
                && pages == (if old(pages) == [] then [] else old(pages)[1..]) && numFree == old(numFree) - 1
      ensures err != NoError ==> waiting == old(waiting) && numFree == old(numFree)
      ensures Kept(None)
    {
      var p := GetAPage(yielded);
      if p == None { return NoMemory; }
      if numFree == 0 {
        GivePage(p.value);
        return NoSpace;
      }
      TimesSplit(waiting, p.value, [], page);
      assert waiting + [p.value] + [] == waiting + [p.value] && waiting + [] == waiting;
      waiting := waiting + [p.value];
      numFree := numFree - 1;
      err := NoError;
    }

    // try_fill_recv: it fills the ring up unless it runs out of pages, taking those of the pool first;
    // alloc says what alloc_page gives at each turn.
    method TryFill(alloc: nat -> Option<nat>) returns (full: bool)
      requires Valid() && Kept(None)
      modifies this`num, this`max, this`pages, this`waiting, this`numFree, this`had
      ensures Valid() && num + numFree == old(num) + old(numFree) && num >= old(num)
      ensures full && old(numFree) > 0 ==> numFree == 0
      ensures !full ==> pages == [] && alloc(num - old(num)) == None
      ensures old(numFree) > 0 ==> Rest(old(pages), pages, Min(num - old(num), |old(pages)|))
      ensures old(numFree) == 0 ==> (full <==> old(pages) != [] || alloc(0).Some?)
      ensures max == if num > old(max) then num else old(max)
      ensures Kept(None)
    {
      var err, turn, first := NoError, 0, true;
      ghost var pool := pages;
      while first || (err == NoError && numFree > 0)
        invariant Valid() && num + numFree == old(num) + old(numFree) && num >= old(num) && max == old(max)
        invariant Kept(None)
        invariant first ==> num == old(num) && err == NoError && pages == pool
        invariant err == NoError ==> turn == num - old(num) && Rest(pool, pages, Min(turn, |pool|))
        invariant err == NoMemory ==> pages == [] && |pool| <= num - old(num) && alloc(num - old(num)) == None
        invariant !first && err == NoSpace ==> old(numFree) == 0 && (pool != [] || alloc(0).Some?)
        invariant !first && err == NoError ==> old(numFree) > 0
        decreases first, err == NoError, numFree
      {
        first := false;
        err := AddRecvbuf(alloc(turn));
        turn := turn + 1;
        if err == NoError { num := num + 1; }
      }
      if num > max { max := num; }
      full := err != NoMemory;
    }

    // The loops behind err_skb and err_frags of receive_mergeable: the packet's other buffers are
    // fetched and given back. `left` counts the buffers to come; below 0 it is never used up.
    method DropRest(left: int) returns (consumed: nat)
      requires num >= |used| && Kept(None)
      modifies this`num, this`pages, this`used, this`numFree
      ensures consumed == (if left < 0 then |old(used)| else Min(left, |old(used)|))
      ensures used == old(used)[consumed..] && num == old(num) - consumed && numFree == old(numFree) + consumed
      ensures pages == Back(old(used)[..consumed]) + old(pages)
      ensures Kept(None)
    {
      var n := left;
      consumed := 0;
      assert old(used)[..0] == [];
      while n != 0
        invariant consumed <= |old(used)| && used == old(used)[consumed..] && n == left - consumed
        invariant pages == Back(old(used)[..consumed]) + old(pages)
        invariant left >= 0 ==> n >= 0
        invariant num == old(num) - consumed && numFree == old(numFree) + consumed
        invariant Kept(None)
        decreases |used|, if used == [] then 0 else 1
      {
        var u := GetBuf();
        if u == None { break; }
        OneMoreBack(old(used), consumed, pages, old(pages));
        GivePage(u.value.page);
        num := num - 1;
        n := n - 1;
        consumed := consumed + 1;
      }
    }

    // receive_mergeable, for a packet whose first buffer was fetched but is still counted: it takes
    // exactly the packet's other buffers or all there are, delivers it exactly if it got them and
    // has room for them, and counts what it took; on every path no page is lost.
    method ReceiveMergeable(u: Used) returns (delivered: bool, ghost consumed: nat)
      requires num == InFlight() + 1 && Kept(Some(u.page))
      modifies this`num, this`pages, this`used, this`numFree, this`gone
      ensures consumed == Further(u.numBuffers, |old(used)|) && used == old(used)[consumed..]
      ensures num == InFlight() + 1 && numFree == old(numFree) + consumed
      ensures delivered <==> Delivered(u, |old(used)|)
      ensures pages == PagesBack(u, old(used)[..consumed]) + old(pages)
      ensures Kept(None)
    {
      var numBuf: int := u.numBuffers;
      if !u.skbOk {
        GivePage(u.page);
        consumed := DropRest(numBuf - 1);
        PagesDropped(u, old(used)[..consumed], pages, old(pages));
        return false, consumed;
      }
      var frags := if u.copied then 0 else 1;
      if u.copied { GivePage(u.page); } else { gone := gone + One(u.page, page); }
      delivered, consumed := TakeRest(numBuf - 1, frags);
      PagesTogether(u, old(used)[..consumed], pages, old(pages));
    }

    // Its main loop, with `left` buffers to come, and the exits from it.
    method TakeRest(left: int, frags0: nat) returns (delivered: bool, consumed: nat)
      requires num >= |used| && frags0 <= MAX_FRAGS && Kept(None)
      modifies this`num, this`pages, this`used, this`numFree, this`gone
      ensures consumed == (if left < 0 then |old(used)| else Min(left, |old(used)|))
      ensures used == old(used)[consumed..] && num == old(num) - consumed && numFree == old(numFree) + consumed
      ensures delivered <==> 0 <= left <= |old(used)| && (left == 0 || frags0 + left <= MAX_FRAGS)
      ensures pages == Back(old(used)[Min(consumed, MAX_FRAGS - frags0)..consumed]) + old(pages)
      ensures Kept(None)
    {
      var n, frags := left, frags0;
      consumed := 0;
      while n != 0
        invariant consumed <= |old(used)| && used == old(used)[consumed..] && n == left - consumed
        invariant left >= 0 ==> n >= 0
        invariant num == old(num) - consumed && numFree == old(numFree) + consumed
        invariant frags == frags0 + consumed <= MAX_FRAGS && pages == old(pages)
        invariant Kept(None)
        decreases |used|
      {
        if frags >= MAX_FRAGS {
          var more := DropRest(n);
          assert old(used)[consumed..][..more] == old(used)[consumed..consumed + more];
          consumed := consumed + more;
          return false, consumed;
        }
        var u := GetBuf();
        if u == None { return false, consumed; }
        gone := gone + One(u.value.page, page);
        frags := frags + 1;
        num := num - 1;
        n := n - 1;
        consumed := consumed + 1;
      }
      delivered := true;
    }

    // receive_buf, up to delivery: a short frame gives its page back and takes no other buffer; any
    // other is a packet of as many as its header says.
    method ReceiveBuf(u: Used) returns (delivered: bool, ghost p: Packet)
      requires num == InFlight() + 1 && Kept(Some(u.page))
      modifies this`num, this`pages, this`used, this`numFree, this`gone
      ensures num == InFlight() + 1 && Kept(None)
      ensures p == PacketOf(u, old(used)) && delivered == p.delivered
      ensures Rest(old(used), used, |p.rest|) && numFree == old(numFree) + |p.rest|
      ensures pages == BackOf(p) + old(pages)
    {
      if u.short {
        GivePage(u.page);
        return false, Packet(u, [], false);
      }
      ghost var was, consumed := used, 0;
      delivered, consumed := ReceiveMergeable(u);
      p := Packet(u, was[..consumed], delivered);
    }

    // The loop and the refill of virtnet_poll: the packets there are, as many as the budget allows,
    // then, with less than half of the most ever posted in flight, a refill. Between polls the count is
    // the number in flight.
    method Poll(budget: nat, alloc: nat -> Option<nat>) returns (received: nat, ghost packets: seq<Packet>)
      requires Valid() && Kept(None)
      modifies this
      ensures Valid() && Kept(None)
      ensures packets == Packets(old(used), budget) && received == |packets|
      ensures Rest(old(used), used, EndOf(old(used), 0, budget))
      ensures var taken := EndOf(old(used), 0, budget);
        if old(num) - taken >= old(max) / 2 then
          num == old(num) - taken && max == old(max) && numFree == old(numFree) + taken && waiting == old(waiting)
        else
          num >= old(num) - taken && (numFree == 0 || (pages == [] && alloc(num - (old(num) - taken)) == None))
    {
      received, packets := Receive(budget);
      if num < max / 2 {
        var _ := TryFill(alloc);
      }
    }

    // One buffer, and what belongs to it.
    method ReceiveOne() returns (ghost p: Packet)
      requires Valid() && Kept(None) && used != []
      modifies this`num, this`pages, this`used, this`numFree, this`gone
      ensures Valid() && Kept(None) && p == PacketOf(old(used)[0], old(used)[1..])
      ensures Rest(old(used), used, 1 + |p.rest|)
      ensures numFree == old(numFree) + 1 + |p.rest| && pages == BackOf(p) + old(pages)
    {
      var u := GetBuf();
      var delivered: bool;
      delivered, p := ReceiveBuf(u.value);
      num := num - 1;
    }

    // Its loop.
    method Receive(budget: nat) returns (received: nat, ghost packets: seq<Packet>)
      requires Valid() && Kept(None)
      modifies this`num, this`pages, this`used, this`numFree, this`gone
      ensures Valid() && Kept(None)
      ensures packets == Packets(old(used), budget) && received == |packets|
      ensures Rest(old(used), used, EndOf(old(used), 0, budget))
      ensures numFree == old(numFree) + EndOf(old(used), 0, budget)
    {
      ghost var i: nat := 0;
      received, packets := 0, [];
      while received < budget
        invariant Valid() && received == |packets| <= budget && Kept(None)
        invariant SoFar(packets, old(used), budget, i, used)
        invariant numFree == old(numFree) + i
        decreases |used|, budget - received
      {
        if used == [] { break; }
        ghost var before := used;
        var p := ReceiveOne();
        OneMorePacket(packets, old(used), budget, i, before, p, used);
        i := i + 1 + |p.rest|;
        received, packets := received + 1, packets + [p];
      }
      ReceivedAll(packets, old(used), budget, i, used);
    }

    // The device uses the i-th buffer it has.
    method DeviceUses(i: nat, u: Used)
      requires Valid() && Kept(None) && i < |waiting| && u.page == waiting[i]
      modifies this`waiting, this`used
      ensures Valid() && Kept(None)
    {
      assert waiting == waiting[..i] + [waiting[i]] + waiting[i + 1..];
      TimesSplit(waiting[..i], waiting[i], waiting[i + 1..], page);
      TimesUsedLast(used, u, page);
      waiting := waiting[..i] + waiting[i + 1..];
      used := used + [u];
    }

    // The receive half of free_unused_bufs: every buffer in flight is detached, fetched or not, and
    // the count comes down to 0, as its last check demands.
    method FreeUnused()
      requires Valid() && Kept(None)
      modifies this`num, this`pages, this`waiting, this`used, this`numFree
      ensures num == 0 && waiting == [] && used == [] && Kept(None)
      ensures numFree == old(numFree) + old(InFlight()) && |pages| == |old(pages)| + old(InFlight())
    {
      while waiting != []
        invariant Valid() && Kept(None)
        invariant numFree + InFlight() == old(numFree) + old(InFlight())
        invariant |pages| + InFlight() == |old(pages)| + old(InFlight())
        decreases |waiting|
      {
        var given := waiting[0];
        waiting := waiting[1..];
        GivePage(given);
        num := num - 1;
        numFree := numFree + 1;
      }
      while used != []
        invariant Valid() && waiting == [] && Kept(None)
        invariant numFree + InFlight() == old(numFree) + old(InFlight())
        invariant |pages| + InFlight() == |old(pages)| + old(InFlight())
        decreases |used|
      {
        var given := used[0].page;
        used := used[1..];
        GivePage(given);
        num := num - 1;
        numFree := numFree + 1;
      }
    }
  }
}
