/**
 The shared-memory byte ring of xenbus_comms.c: one producer, one consumer, free-running
 u32 indices. Each side writes only its own index and reads a possibly stale copy of the other's.
 */
module XenstoreRing {
  import opened Words
  import opened Basics

  const RING_SIZE := 1024

  type Byte = x: int | 0 <= x < 256

  // MASK_XENSTORE_IDX: the size is a power of two, so the mask is a remainder.
  function Mask(idx: int): (m: nat)
    ensures m < RING_SIZE && (0 <= idx < RING_SIZE ==> m == idx)
  {
    idx % RING_SIZE
  }

  // The slot i places after that of index start.
  function SlotAt(start: int, i: int): (m: nat)
    ensures m < RING_SIZE
  {
    Mask(start + i)
  }

  function Dist(cons: nat, prod: nat): nat { Wrap32(prod - cons) }

  predicate CheckIndexes(cons: nat, prod: nat) { Dist(cons, prod) <= RING_SIZE }

  // Where the producer may write next, and how much in one piece.
  function GetOutputChunk(cons: nat, prod: nat): (nat, nat)
    requires CheckIndexes(cons, prod)
  {
    var len := RING_SIZE - Mask(prod);
    var room := RING_SIZE - Dist(cons, prod);
    (Mask(prod), if room < len then room else len)
  }

  // Where the consumer may read next, and how much in one piece.
  function GetInputChunk(cons: nat, prod: nat): (nat, nat)
    requires CheckIndexes(cons, prod)
  {
    var len := RING_SIZE - Mask(cons);
    (Mask(cons), if Dist(cons, prod) < len then Dist(cons, prod) else len)
  }

  // len bytes from index start on, round the end of the buffer.
  function Bytes(buf: seq<Byte>, start: nat, len: nat): (s: seq<Byte>)
    requires |buf| == RING_SIZE
    ensures |s| == len
  {
    seq(len, i requires 0 <= i < len => buf[SlotAt(start, i)])
  }

  // The bytes between the two indices, oldest first.
  function Unread(buf: seq<Byte>, cons: nat, prod: nat): (s: seq<Byte>)
    requires |buf| == RING_SIZE
    ensures |s| == Dist(cons, prod)
  {
    Bytes(buf, cons, Dist(cons, prod))
  }

  /* ---- slots ---- */

  lemma MaskOfWrapped(x: int)
    ensures Mask(Wrap32(x)) == Mask(x)
  {
    var q := x / TWO_32;
    assert x == Wrap32(x) + RING_SIZE * (0x40_0000 * q);
    ModAddMultiple(Wrap32(x), 0x40_0000 * q, RING_SIZE);
  }

  lemma MaskSum(a: int, b: int, i: int)
    requires Mask(a) == Mask(b)
    ensures SlotAt(a, i) == SlotAt(b, i)
  {
    ModAddMultiple(a + i, b / RING_SIZE - a / RING_SIZE, RING_SIZE);
  }

  lemma MaskApart(p: int, q: int)
    requires p < q < p + RING_SIZE
    ensures Mask(p) != Mask(q)
  {
    DistinctSlots(p, q, RING_SIZE);
  }

  // prod's slot, Dist slots on from cons's.
  lemma MaskOfProd(cons: nat, prod: nat, j: nat)
    requires prod < TWO_32
    ensures SlotAt(prod, j) == SlotAt(cons + Dist(cons, prod), j)
  {
    var q := (prod - cons) / TWO_32;
    assert prod - cons == Dist(cons, prod) + TWO_32 * q;
    assert prod == cons + Dist(cons, prod) + RING_SIZE * (0x40_0000 * q);
    ModAddMultiple(cons + Dist(cons, prod), 0x40_0000 * q, RING_SIZE);
    MaskSum(prod, cons + Dist(cons, prod), j);
  }

  // Free slots are not unread ones.
  lemma FreeSlot(cons: nat, prod: nat, i: nat, j: nat)
    requires prod < TWO_32 && i < Dist(cons, prod) && j + Dist(cons, prod) < RING_SIZE
    ensures SlotAt(cons, i) != SlotAt(prod, j)
  {
    MaskOfProd(cons, prod, j);
    MaskApart(cons + i, cons + Dist(cons, prod) + j);
  }

  lemma DistConsume(cons: nat, prod: nat, k: nat)
    requires k <= Dist(cons, prod)
    ensures Dist(Wrap32(cons + k), prod) == Dist(cons, prod) - k
  {
    WrapDiff32(prod, cons + k);
    WrapOfDist(cons, prod, k);
    WrapSmall32(Dist(cons, prod) - k);
  }

  lemma DistProduce(cons: nat, prod: nat, k: nat)
    requires Dist(cons, prod) + k < TWO_32
    ensures Dist(cons, Wrap32(prod + k)) == Dist(cons, prod) + k
  {
    WrapDiff32(cons, prod + k);
    WrapOfDist(cons, prod, k);
    WrapSmall32(Dist(cons, prod) + k);
  }

  lemma WrapSmall32(x: int)
    requires 0 <= x < TWO_32
    ensures Wrap32(x) == x
  {
  }

  lemma WrapDiff32(a: int, b: int)
    ensures Wrap32(a - Wrap32(b)) == Wrap32(a - b)
    ensures Wrap32(Wrap32(b) - a) == Wrap32(b - a)
  {
    var q := b / TWO_32;
    assert a - Wrap32(b) == (a - b) + TWO_32 * q;
    ModAddMultiple(a - b, q, TWO_32);
    assert b - a == (Wrap32(b) - a) + TWO_32 * q;
    ModAddMultiple(Wrap32(b) - a, q, TWO_32);
  }

  lemma WrapOfDist(cons: nat, prod: nat, k: nat)
    ensures Wrap32(prod - (cons + k)) == Wrap32(Dist(cons, prod) - k)
    ensures Wrap32(prod + k - cons) == Wrap32(Dist(cons, prod) + k)
  {
    var q := (prod - cons) / TWO_32;
    assert prod - (cons + k) == (Dist(cons, prod) - k) + TWO_32 * q;
    ModAddMultiple(Dist(cons, prod) - k, q, TWO_32);
    assert prod + k - cons == (Dist(cons, prod) + k) + TWO_32 * q;
    ModAddMultiple(Dist(cons, prod) + k, q, TWO_32);
  }

  /* ---- chunks ---- */

  // For any two u32 indices that pass the check, the output chunk lies inside the buffer,
  // is the next avail slots from prod on, ends only at the end of the buffer or of the free
  // room, and so is empty only when the ring is full.
  lemma OutputChunkIsFree(cons: nat, prod: nat)
    requires prod < TWO_32 && CheckIndexes(cons, prod)
    ensures var (off, avail) := GetOutputChunk(cons, prod);
      && off + avail <= RING_SIZE && avail + Dist(cons, prod) <= RING_SIZE
      && (avail == 0 <==> Dist(cons, prod) == RING_SIZE)
      && (off + avail == RING_SIZE || avail + Dist(cons, prod) == RING_SIZE)
      && (forall j :: 0 <= j < avail ==> off + j == SlotAt(prod, j))
      && (forall i :: 0 <= i < Dist(cons, prod) ==> !(off <= SlotAt(cons, i) < off + avail))
  {
    var (off, avail) := GetOutputChunk(cons, prod);
    forall j | 0 <= j < avail
      ensures off + j == SlotAt(prod, j)
    {
      MaskRun(prod, j);
    }
    forall i | 0 <= i < Dist(cons, prod)
      ensures !(off <= SlotAt(cons, i) < off + avail)
    {
      if off <= SlotAt(cons, i) < off + avail { FreeSlot(cons, prod, i, SlotAt(cons, i) - off); }
    }
  }

  lemma MaskRun(idx: nat, j: nat)
    requires Mask(idx) + j < RING_SIZE
    ensures SlotAt(idx, j) == Mask(idx) + j
  {
    UniqueRemainder(idx + j, idx / RING_SIZE, Mask(idx) + j, RING_SIZE);
  }

  // The input chunk holds the oldest unread bytes, in order, up to the end of the buffer or all of
  // them, and is empty only when there are none.
  lemma InputChunkIsOldest(buf: seq<Byte>, cons: nat, prod: nat)
    requires |buf| == RING_SIZE && cons < TWO_32 && prod < TWO_32 && CheckIndexes(cons, prod)
    ensures var (off, avail) := GetInputChunk(cons, prod);
      && off + avail <= RING_SIZE && avail <= Dist(cons, prod)
      && (avail == 0 <==> cons == prod) && (off + avail == RING_SIZE || avail == Dist(cons, prod))
      && buf[off..off + avail] == Unread(buf, cons, prod)[..avail]
  {
    var (off, avail) := GetInputChunk(cons, prod);
    forall i | 0 <= i < avail
      ensures SlotAt(cons, i) == off + i
    {
      MaskRun(cons, i);
    }
    assert buf[off..off + avail] == Unread(buf, cons, prod)[..avail];
  }

  /* ---- what each side's update does to the unread bytes ---- */

  lemma SameBytes(buf: seq<Byte>, a: nat, b: nat, len: nat)
    requires |buf| == RING_SIZE && Mask(a) == Mask(b)
    ensures Bytes(buf, a, len) == Bytes(buf, b, len)
  {
    forall i | 0 <= i < len
      ensures SlotAt(a, i) == SlotAt(b, i)
    {
      MaskSum(a, b, i);
    }
  }

  lemma ConsumeDropsOldest(buf: seq<Byte>, cons: nat, prod: nat, k: nat)
    requires |buf| == RING_SIZE && k <= Dist(cons, prod)
    ensures Dist(Wrap32(cons + k), prod) == Dist(cons, prod) - k
    ensures Unread(buf, Wrap32(cons + k), prod) == Unread(buf, cons, prod)[k..]
  {
    DistConsume(cons, prod, k);
    var left := Dist(cons, prod) - k;
    MaskOfWrapped(cons + k);
    SameBytes(buf, Wrap32(cons + k), cons + k, left);
    assert Bytes(buf, cons + k, left) == Bytes(buf, cons, Dist(cons, prod))[k..];
  }

  // Filling the front of the free area and advancing prod appends, whatever chunk it is.
  lemma ProduceAppends(buf: seq<Byte>, buf': seq<Byte>, cons: nat, prod: nat, bytes: seq<Byte>)
    requires |buf| == |buf'| == RING_SIZE && prod < TWO_32
    requires Dist(cons, prod) + |bytes| <= RING_SIZE
    requires Bytes(buf', prod, |bytes|) == bytes
    requires Bytes(buf', cons, Dist(cons, prod)) == Bytes(buf, cons, Dist(cons, prod))
    ensures Dist(cons, Wrap32(prod + |bytes|)) == Dist(cons, prod) + |bytes|
    ensures Unread(buf', cons, Wrap32(prod + |bytes|)) == Unread(buf, cons, prod) + bytes
  {
    var d := Dist(cons, prod);
    DistProduce(cons, prod, |bytes|);
    MaskOfProd(cons, prod, 0);
    SameBytes(buf', prod, cons + d, |bytes|);
    BytesSplit(buf', cons, d, |bytes|);
  }

  lemma BytesSplit(buf: seq<Byte>, start: nat, d: nat, len: nat)
    requires |buf| == RING_SIZE
    ensures Bytes(buf, start, d + len) == Bytes(buf, start, d) + Bytes(buf, start + d, len)
  {
    var whole, parts := Bytes(buf, start, d + len), Bytes(buf, start, d) + Bytes(buf, start + d, len);
    forall i | 0 <= i < d + len
      ensures whole[i] == parts[i]
    {
      if d <= i { assert start + d + (i - d) == start + i; }
    }
  }

  lemma StoreOne(buf: seq<Byte>, cons: nat, prod: nat, j: nat, b: Byte)
    requires |buf| == RING_SIZE && prod < TWO_32 && Dist(cons, prod) + j < RING_SIZE
    ensures var buf' := buf[SlotAt(prod, j) := b];
      && Bytes(buf', prod, j + 1) == Bytes(buf, prod, j) + [b]
      && Bytes(buf', cons, Dist(cons, prod)) == Bytes(buf, cons, Dist(cons, prod))
  {
    forall i | 0 <= i < Dist(cons, prod)
      ensures SlotAt(cons, i) != SlotAt(prod, j)
    {
      FreeSlot(cons, prod, i, j);
    }
    forall i | 0 <= i < j
      ensures SlotAt(prod, i) != SlotAt(prod, j)
    {
      MaskApart(prod + i, prod + j);
    }
  }

  // A contiguous chunk written at prod's slot touches nothing unread.
  lemma ChunkStored(buf: seq<Byte>, buf': seq<Byte>, cons: nat, prod: nat, bytes: seq<Byte>)
    requires |buf| == |buf'| == RING_SIZE && prod < TWO_32 && Mask(prod) + |bytes| <= RING_SIZE
    requires forall x :: 0 <= x < RING_SIZE ==>
      buf'[x] == if Mask(prod) <= x < Mask(prod) + |bytes| then bytes[x - Mask(prod)] else buf[x]
    ensures Bytes(buf', prod, |bytes|) == bytes
    ensures Dist(cons, prod) + |bytes| <= RING_SIZE ==>
              Bytes(buf', cons, Dist(cons, prod)) == Bytes(buf, cons, Dist(cons, prod))
  {
    forall j | 0 <= j < |bytes|
      ensures SlotAt(prod, j) == Mask(prod) + j
    {
      MaskRun(prod, j);
    }
    if Dist(cons, prod) + |bytes| <= RING_SIZE {
      forall i | 0 <= i < Dist(cons, prod)
        ensures !(Mask(prod) <= SlotAt(cons, i) < Mask(prod) + |bytes|)
      {
        if Mask(prod) <= SlotAt(cons, i) < Mask(prod) + |bytes| {
          FreeSlot(cons, prod, i, SlotAt(cons, i) - Mask(prod));
        }
      }
    }
  }

  lemma StillOldest(taken: seq<Byte>, u: seq<Byte>, sent: seq<Byte>, u': seq<Byte>, sent': seq<Byte>, avail: nat)
    requires taken + u == sent && taken + u' == sent' && sent <= sent' && avail <= |u|
    ensures avail <= |u'| && u'[..avail] == u[..avail]
  {
    assert sent[|taken|..] == u && sent'[|taken|..] == u';
    forall i | 0 <= i < avail
      ensures u'[i] == u[i]
    {
      assert u[i] == sent[|taken| + i] == sent'[|taken| + i];
    }
  }

  lemma TakenFifo(buf: seq<Byte>, cons: nat, prod: nat, taken: seq<Byte>, sent: seq<Byte>, bytes: seq<Byte>)
    requires |buf| == RING_SIZE && CheckIndexes(cons, prod) && taken + Unread(buf, cons, prod) == sent
    requires |bytes| <= Dist(cons, prod) && Unread(buf, cons, prod)[..|bytes|] == bytes
    ensures CheckIndexes(Wrap32(cons + |bytes|), prod)
    ensures (taken + bytes) + Unread(buf, Wrap32(cons + |bytes|), prod) == sent
  {
    ConsumeDropsOldest(buf, cons, prod, |bytes|);
    var u := Unread(buf, cons, prod);
    assert u == bytes + u[|bytes|..];
    assert (taken + bytes) + u[|bytes|..] == taken + u;
  }

  lemma OldestAt(buf: seq<Byte>, cons: nat, prod: nat, avail: nat)
    requires |buf| == RING_SIZE && avail <= Dist(cons, prod) && Mask(cons) + avail <= RING_SIZE
    ensures buf[Mask(cons)..Mask(cons) + avail] == Unread(buf, cons, prod)[..avail]
  {
    forall i | 0 <= i < avail
      ensures SlotAt(cons, i) == Mask(cons) + i
    {
      MaskRun(cons, i);
    }
  }

  /* ---- the ring in shared memory ---- */

  // What the other side does between two of our accesses; a script of these is any interleaving.
  datatype Peer =
    | Consume(count: nat)        // as consumer: takes so many of the unread bytes, and no more
    | Produce(bytes: seq<Byte>)  // as producer: appends what fits
    | Corrupt(idx: nat)          // puts some u32 in its own index
    | Signal                     // a signal for us: it stays pending until we return

  datatype Status = Ok | Io | Interrupted

  predicate Corrupts(moves: seq<Peer>) { exists i :: 0 <= i < |moves| && moves[i].Corrupt? }

  lemma MadeOne(moves: seq<Peer>, m: Peer, script: seq<Peer>)
    ensures Corrupts(moves + [m]) <==> Corrupts(moves) || m.Corrupt?
    ensures Signal in moves + [m] <==> Signal in moves || m == Signal
    ensures moves + ([m] + script) == (moves + [m]) + script
  {
    if Corrupts(moves) {
      var i :| 0 <= i < |moves| && moves[i].Corrupt?;
      assert (moves + [m])[i].Corrupt?;
    }
    if m.Corrupt? { assert (moves + [m])[|moves|].Corrupt?; }
  }

  lemma FrontOf(buf: seq<Byte>, src: nat, avail: nat, k: nat, unread: seq<Byte>)
    requires src + avail <= |buf| && k <= avail <= |unread| && buf[src..src + avail] == unread[..avail]
    ensures buf[src..src + k] == unread[..k]
  {
    assert buf[src..src + avail][..k] == unread[..avail][..k];
  }

  class Ring {
    const buf: array<Byte>
    var cons: nat
    var prod: nat
    const weProduce: bool        // the request ring; otherwise the response ring
    var script: seq<Peer>        // what the peer is still going to do
    var signal: bool             // a signal is pending
    var notifies: nat            // events sent to the peer
    ghost var sent: seq<Byte>    // every byte produced so far
    ghost var taken: seq<Byte>   // every byte consumed so far
    ghost var made: seq<Peer>    // the peer's moves so far
    ghost const plan: seq<Peer>  // all its moves
    ghost var honest: bool       // the peer has kept to its own index and to the protocol

    ghost predicate Valid()
      reads this, buf
    {
      && buf.Length == RING_SIZE && cons < TWO_32 && prod < TWO_32
      && made + script == plan && (signal <==> Signal in made) && (honest <==> !Corrupts(made))
      && (honest ==> Fifo())
    }

    // The ring is a byte FIFO of at most RING_SIZE bytes.
    ghost predicate Fifo()
      reads this, buf
      requires buf.Length == RING_SIZE
    {
      && CheckIndexes(cons, prod)
      && taken + Unread(buf[..], cons, prod) == sent
    }

    // Is there nothing to do but wait?
    predicate Blocked()
      reads this
    {
      if weProduce then Dist(cons, prod) == RING_SIZE else cons == prod
    }

    constructor (weProduce: bool, script: seq<Peer>)
      ensures Valid() && fresh(buf) && honest && sent == taken == [] && cons == prod == 0
      ensures !signal && notifies == 0 && made == [] && plan == script
      ensures this.weProduce == weProduce && this.script == script
    {
      buf := new Byte[RING_SIZE](_ => 0);
      cons, prod := 0, 0;
      this.weProduce, this.script := weProduce, script;
      signal, notifies := false, 0;
      sent, taken, made, honest, plan := [], [], [], true, script;
    }

    // One move of the peer, if it has any left.
    method PeerMoves()
      requires Valid()
      modifies this`cons, this`prod, this`script, this`signal, this`sent, this`taken, this`made, this`honest, buf
      ensures Valid() && old(made) <= made && (honest ==> old(honest))
      ensures old(script) != [] ==> script == old(script)[1..]
      ensures old(script) == [] ==> script == []
      ensures old(script) == [] || old(script)[0] == Signal ==> cons == old(cons) && prod == old(prod)
      ensures old(script) != [] && old(script)[0].Consume? && weProduce && old(CheckIndexes(cons, prod)) ==>
                |taken| == |old(taken)| + Min(old(script)[0].count, old(Dist(cons, prod)))
      ensures old(script) != [] && old(script)[0].Produce? && !weProduce && old(CheckIndexes(cons, prod)) ==>
                |sent| == |old(sent)| + Min(|old(script)[0].bytes|, RING_SIZE - old(Dist(cons, prod)))
      ensures weProduce ==> prod == old(prod) && sent == old(sent) && buf[..] == old(buf[..])
      ensures weProduce && honest ==> old(taken) <= taken && Dist(cons, prod) <= old(Dist(cons, prod))
      ensures !weProduce ==> cons == old(cons) && taken == old(taken)
      ensures !weProduce && honest ==> old(sent) <= sent && Dist(cons, prod) >= old(Dist(cons, prod))
    {
      if script == [] { return; }
      var move := script[0];
      assert script == [move] + script[1..];
      script := script[1..];
      MadeOne(made, move, script);
      made := made + [move];
      match move
      case Signal => signal := true;
      case Corrupt(idx) =>
        honest := false;
        if weProduce { cons := Wrap32(idx); } else { prod := Wrap32(idx); }
      case Consume(count) =>
        if weProduce && CheckIndexes(cons, prod) {
          PeerConsumes(Min(count, Dist(cons, prod)));
        }
      case Produce(bytes) =>
        if !weProduce && CheckIndexes(cons, prod) {
          var room := RING_SIZE - Dist(cons, prod);
          var k := Min(|bytes|, room);
          StoreBytes(bytes[..k]);
        }
    }

    method PeerConsumes(k: nat)
      requires Valid() && CheckIndexes(cons, prod) && k <= Dist(cons, prod)
      modifies this`cons, this`taken
      ensures Valid() && taken == old(taken + Unread(buf[..], cons, prod)[..k])
      ensures Dist(cons, prod) == old(Dist(cons, prod)) - k
    {
      ConsumeDropsOldest(buf[..], cons, prod, k);
      taken := taken + Unread(buf[..], cons, prod)[..k];
      cons := Wrap32(cons + k);
    }

    // The peer's own copy loop, byte by byte round the end of the buffer.
    method StoreBytes(bytes: seq<Byte>)
      requires Valid() && Dist(cons, prod) + |bytes| <= RING_SIZE
      modifies this`prod, this`sent, buf
      ensures Valid() && sent == old(sent) + bytes
      ensures Dist(cons, prod) == old(Dist(cons, prod)) + |bytes|
    {
      ghost var before := buf[..];
      var j := 0;
      while j < |bytes|
        invariant 0 <= j <= |bytes|
        invariant Bytes(buf[..], prod, j) == bytes[..j]
        invariant Bytes(buf[..], cons, Dist(cons, prod)) == Bytes(before, cons, Dist(cons, prod))
        modifies buf
      {
        StoreOne(buf[..], cons, prod, j, bytes[j]);
        buf[SlotAt(prod, j)] := bytes[j];
        j := j + 1;
        assert bytes[..j] == bytes[..j - 1] + [bytes[j - 1]];
      }
      assert bytes[..j] == bytes;
      ProduceAppends(before, buf[..], cons, prod, bytes);
      prod := Wrap32(prod + |bytes|);
      sent := sent + bytes;
    }

    // wait_event_interruptible for room to write (or for data to read): it is over at once when there
    // is some, and otherwise once there is, or a signal is pending; it is interrupted exactly if there
    // is still none. With a peer that makes no more moves only a signal can end it.
    method Wait() returns (interrupted: bool)
      requires Valid()
      modifies this`cons, this`prod, this`script, this`signal, this`sent, this`taken, this`made, this`honest, buf
      ensures Valid() && old(made) <= made && (honest ==> old(honest))
      ensures interrupted <==> Blocked()
      ensures interrupted ==> signal || script == []
      ensures !old(Blocked()) || old(signal) ==> script == old(script) && cons == old(cons) && prod == old(prod)
      ensures weProduce ==> prod == old(prod) && sent == old(sent) && buf[..] == old(buf[..])
      ensures weProduce && honest ==> old(taken) <= taken && Dist(cons, prod) <= old(Dist(cons, prod))
      ensures !weProduce ==> cons == old(cons) && taken == old(taken)
      ensures !weProduce && honest ==> old(sent) <= sent && Dist(cons, prod) >= old(Dist(cons, prod))
    {
      while Blocked()
        invariant Valid() && old(made) <= made && (honest ==> old(honest))
        invariant !old(Blocked()) || old(signal) ==> script == old(script) && cons == old(cons) && prod == old(prod)
        invariant weProduce ==> prod == old(prod) && sent == old(sent) && buf[..] == old(buf[..])
        invariant weProduce && honest ==> old(taken) <= taken && Dist(cons, prod) <= old(Dist(cons, prod))
        invariant !weProduce ==> cons == old(cons) && taken == old(taken)
        invariant !weProduce && honest ==> old(sent) <= sent && Dist(cons, prod) >= old(Dist(cons, prod))
        decreases |script|
      {
        if signal || script == [] { return true; }
        PeerMoves();
      }
      interrupted := false;
    }

    // A pass of xb_write's loop: wait, read the indexes, verify, copy a chunk. `pair` is what it read.
    method WritePass(rest: seq<Byte>) returns (rc: Status, n: nat, ghost pair: Option<(nat, nat)>)
      requires Valid() && weProduce && rest != []
      modifies this, buf
      ensures Valid() && old(made) <= made && (honest ==> old(honest))
      ensures n <= |rest| && sent == old(sent) + rest[..n] && (rc != Ok ==> n == 0)
      ensures rc == Ok && n == 0 ==> |script| < |old(script)|
      ensures honest ==> old(taken) <= taken && Dist(cons, prod) <= old(Dist(cons, prod)) + n
      ensures notifies == old(notifies) + if n > 0 then 1 else 0
      ensures rc == Interrupted ==> pair == None && Blocked() && (signal || script == [])
      ensures rc != Interrupted ==> pair.Some? && (rc == Ok <==> CheckIndexes(pair.value.0, pair.value.1))
      ensures rc == Io ==> !honest && cons == prod == 0
    {
      n, pair := 0, None;
      assert rest[..0] == [];
      var interrupted := Wait();
      if interrupted { return Interrupted, n, pair; }
      // Read indexes, then verify.
      PeerMoves();
      var myCons, myProd := cons, prod;
      pair := Some((myCons, myProd));
      if !CheckIndexes(myCons, myProd) {
        cons, prod := 0, 0;
        return Io, n, pair;
      }
      n := WriteSome(rest);
      rc := Ok;
    }

    // As much of the rest as goes in one piece, for indexes that were verified.
    method WriteSome(rest: seq<Byte>) returns (n: nat)
      requires Valid() && weProduce && rest != [] && CheckIndexes(cons, prod)
      modifies this, buf
      ensures Valid() && old(made) <= made && (honest ==> old(honest))
      ensures n == Min(old(GetOutputChunk(cons, prod)).1, |rest|) && (n == 0 <==> old(Blocked()))
      ensures sent == old(sent) + rest[..n]
      ensures honest ==> old(taken) <= taken && Dist(cons, prod) <= old(Dist(cons, prod)) + n
      ensures notifies == old(notifies) + if n > 0 then 1 else 0
    {
      OutputChunkIsFree(cons, prod);
      var (dst, avail) := GetOutputChunk(cons, prod);
      n := Min(avail, |rest|);
      if n == 0 { return; }
      PutChunk(rest[..n], dst, cons);
    }

    // xb_write: on return `done` bytes of data are in the ring, all of them when the status is Ok; `pairs` are
    // the index pairs it read. It is interrupted only with the ring full and data left, by a pending
    // signal or for want of any further move.
    method XbWrite(data: seq<Byte>) returns (rc: Status, ghost done: nat, ghost pairs: seq<(nat, nat)>)
      requires Valid() && weProduce
      modifies this, buf
      ensures Valid() && old(made) <= made && (honest ==> old(honest))
      ensures done <= |data| && sent == old(sent) + data[..done]
      ensures honest ==> old(taken) <= taken
      ensures rc == Ok ==> done == |data|
      ensures rc == Io ==> !honest && cons == prod == 0
      ensures rc == Io <==> exists k :: 0 <= k < |pairs| && !CheckIndexes(pairs[k].0, pairs[k].1)
      ensures rc == Interrupted ==> done < |data| && Blocked() && (signal || script == [])
      ensures honest && |data| + old(Dist(cons, prod)) <= RING_SIZE ==> rc == Ok
      ensures done > 0 <==> notifies > old(notifies)
    {
      var len, pos := |data|, 0;
      done, pairs := 0, [];
      assert data[..0] == [];
      while len != 0
        invariant Valid() && old(made) <= made && (honest ==> old(honest))
        invariant forall k :: 0 <= k < |pairs| ==> CheckIndexes(pairs[k].0, pairs[k].1)
        invariant 0 <= len <= |data| && done == pos == |data| - len
        invariant sent == old(sent) + data[..done]
        invariant honest ==> old(taken) <= taken && Dist(cons, prod) <= old(Dist(cons, prod)) + done
        invariant notifies >= old(notifies) && (done > 0 <==> notifies > old(notifies))
        decreases len, |script|
      {
        var st, n, pair := WritePass(data[pos..]);
        if pair.Some? { pairs := pairs + [pair.value]; }
        if st != Ok {
          assert st == Io ==> pairs[|pairs| - 1] == pair.value;
          return st, done, pairs;
        }
        assert data[..pos] + data[pos..][..n] == data[..pos + n];
        pos := pos + n;
        done := pos;
        len := len - n;
      }
      rc := Ok;
    }

    // Copy the chunk in, then advance the producer and notify; the peer may move at any point.
    method PutChunk(bytes: seq<Byte>, dst: nat, ghost staleCons: nat)
      requires Valid() && weProduce && 0 < |bytes| && staleCons == cons && CheckIndexes(cons, prod)
      requires dst == Mask(prod) && dst + |bytes| <= RING_SIZE && |bytes| + Dist(cons, prod) <= RING_SIZE
      modifies this, buf
      ensures Valid() && old(made) <= made && (honest ==> old(honest))
      ensures sent == old(sent) + bytes && (honest ==> old(taken) <= taken)
      ensures honest ==> Dist(cons, prod) <= old(Dist(cons, prod)) + |bytes|
      ensures notifies == old(notifies) + 1
    {
      PeerMoves();
      // the stale consumer index only under-estimates the room
      ghost var before := buf[..];
      forall j | 0 <= j < |bytes| { buf[dst + j] := bytes[j]; }
      ChunkStored(before, buf[..], cons, prod, bytes);
      PeerMoves();
      AdvanceProducer(bytes);
    }

    // Other side must not see new producer until data is there.
    method AdvanceProducer(bytes: seq<Byte>)
      requires Valid() && weProduce && Bytes(buf[..], prod, |bytes|) == bytes
      requires honest ==> Dist(cons, prod) + |bytes| <= RING_SIZE
      modifies this`prod, this`sent, this`notifies
      ensures Valid() && sent == old(sent) + bytes && notifies == old(notifies) + 1
      ensures honest ==> Dist(cons, prod) == old(Dist(cons, prod)) + |bytes|
    {
      if honest { ProduceAppends(buf[..], buf[..], cons, prod, bytes); }
      prod := Wrap32(prod + |bytes|);
      sent := sent + bytes;
      notifies := notifies + 1;
    }

    // A pass of xb_read's loop.
    method ReadPass(len: nat) returns (rc: Status, data: seq<Byte>, ghost pair: Option<(nat, nat)>)
      requires Valid() && !weProduce && len > 0
      modifies this, buf
      ensures Valid() && old(made) <= made && (honest ==> old(honest))
      ensures |data| <= len && taken == old(taken) + data && (rc != Ok ==> data == [])
      ensures rc == Ok && data == [] ==> |script| < |old(script)|
      ensures honest ==> old(sent) <= sent && Dist(cons, prod) + |data| >= old(Dist(cons, prod))
      ensures notifies == old(notifies) + if data != [] then 1 else 0
      ensures rc == Interrupted ==> pair == None && Blocked() && (signal || script == [])
      ensures rc != Interrupted ==> pair.Some? && (rc == Ok <==> CheckIndexes(pair.value.0, pair.value.1))
      ensures rc == Io ==> !honest && cons == prod == 0
    {
      data, pair := [], None;
      var interrupted := Wait();
      if interrupted { return Interrupted, data, pair; }
      // Read indexes, then verify.
      PeerMoves();
      var myCons, myProd := cons, prod;
      pair := Some((myCons, myProd));
      if !CheckIndexes(myCons, myProd) {
        cons, prod := 0, 0;
        return Io, data, pair;
      }
      data := ReadSome(len);
      rc := Ok;
    }

    // As much as comes in one piece, for indexes that were verified.
    method ReadSome(len: nat) returns (data: seq<Byte>)
      requires Valid() && !weProduce && len > 0 && CheckIndexes(cons, prod)
      modifies this, buf
      ensures Valid() && old(made) <= made && (honest ==> old(honest))
      ensures |data| == Min(old(GetInputChunk(cons, prod)).1, len) && (data == [] <==> old(Blocked()))
      ensures taken == old(taken) + data
      ensures honest ==> old(sent) <= sent && Dist(cons, prod) + |data| >= old(Dist(cons, prod))
      ensures notifies == old(notifies) + if data != [] then 1 else 0
    {
      InputChunkIsOldest(buf[..], cons, prod);
      var (src, avail) := GetInputChunk(cons, prod);
      data := [];
      if avail == 0 { return; }
      FrontOf(buf[..], src, avail, Min(avail, len), Unread(buf[..], cons, prod));
      data := TakeChunk(src, Min(avail, len), prod);
    }

    // xb_read; `pairs` and interruption as for xb_write, with the ring empty.
    method XbRead(count: nat) returns (rc: Status, data: seq<Byte>, ghost pairs: seq<(nat, nat)>)
      requires Valid() && !weProduce
      modifies this, buf
      ensures Valid() && old(made) <= made && (honest ==> old(honest))
      ensures |data| <= count && taken == old(taken) + data
      ensures honest ==> old(sent) <= sent
      ensures rc == Ok ==> |data| == count
      ensures rc == Io ==> !honest && cons == prod == 0
      ensures rc == Io <==> exists k :: 0 <= k < |pairs| && !CheckIndexes(pairs[k].0, pairs[k].1)
      ensures rc == Interrupted ==> |data| < count && Blocked() && (signal || script == [])
      ensures honest && count <= old(Dist(cons, prod)) ==> rc == Ok
      ensures |data| > 0 <==> notifies > old(notifies)
    {
      var len := count;
      data, pairs := [], [];
      while len != 0
        invariant Valid() && old(made) <= made && (honest ==> old(honest))
        invariant forall k :: 0 <= k < |pairs| ==> CheckIndexes(pairs[k].0, pairs[k].1)
        invariant 0 <= len <= count && |data| == count - len
        invariant taken == old(taken) + data
        invariant honest ==> old(sent) <= sent && Dist(cons, prod) + |data| >= old(Dist(cons, prod))
        invariant notifies >= old(notifies) && (|data| > 0 <==> notifies > old(notifies))
        decreases len, |script|
      {
        var st, chunk, pair := ReadPass(len);
        if pair.Some? { pairs := pairs + [pair.value]; }
        if st != Ok {
          assert st == Io ==> pairs[|pairs| - 1] == pair.value;
          assert st == Interrupted ==> Dist(cons, prod) == 0;
          return st, data, pairs;
        }
        data := data + chunk;
        len := len - |chunk|;
      }
      rc := Ok;
    }

    // Copy the chunk out, then advance the consumer and notify.
    method TakeChunk(src: nat, avail: nat, ghost staleProd: nat) returns (bytes: seq<Byte>)
      requires Valid() && !weProduce && 0 < avail && staleProd == prod && CheckIndexes(cons, prod)
      requires src + avail <= RING_SIZE && avail <= Dist(cons, prod)
      requires buf[src..src + avail] == Unread(buf[..], cons, prod)[..avail] && src == Mask(cons)
      modifies this, buf
      ensures Valid() && old(made) <= made && (honest ==> old(honest))
      ensures |bytes| == avail && taken == old(taken) + bytes && (honest ==> old(sent) <= sent)
      ensures honest ==> Dist(cons, prod) + avail >= old(Dist(cons, prod))
      ensures notifies == old(notifies) + 1
    {
      PeerMoves();
      bytes := buf[src..src + avail];
      if honest { OldestAt(buf[..], cons, prod, avail); }
      ghost var unread, sofar := Unread(buf[..], cons, prod), sent;
      PeerMoves();
      if honest {
        // what the peer has appended meanwhile comes after the chunk
        StillOldest(taken, unread, sofar, Unread(buf[..], cons, prod), sent, avail);
        TakenFifo(buf[..], cons, prod, taken, sent, bytes);
        DistConsume(cons, prod, avail);
      }
      // Other side must not see free space until we've copied out
      cons := Wrap32(cons + avail);
      taken := taken + bytes;
      notifies := notifies + 1;
    }
  }
}
