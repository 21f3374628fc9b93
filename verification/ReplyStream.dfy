/**
 The reply queue of a xenbus file: replies and watch events are queued as framed messages, and
 read as one stream of bytes in pieces of any size.
 */
module ReplyStream {
  import opened Basics

  type Byte = b: int | 0 <= b < 256

  const HEADER := 16    // sizeof(struct xsd_sockmsg)
  const EFAULT := 14

  // A read_buffer; never without something left to read.
  datatype Buffer = Buffer(msg: seq<Byte>, cons: nat)

  predicate BufferOk(b: Buffer) { b.cons < |b.msg| }
  predicate QueueOk(q: seq<Buffer>) { forall i :: 0 <= i < |q| ==> BufferOk(q[i]) }

  function Rest(b: Buffer): seq<Byte> { if b.cons <= |b.msg| then b.msg[b.cons..] else [] }

  // What a queue still has to give.
  function Stream(q: seq<Buffer>): seq<Byte> { if q == [] then [] else Rest(q[0]) + Stream(q[1..]) }

  lemma {:induction false} StreamConcat(a: seq<Buffer>, b: seq<Buffer>)
    ensures Stream(a + b) == Stream(a) + Stream(b)
  {
    if a == [] {
      assert a + b == b;
      NothingInFront(Stream(a), Stream(b));
    } else {
      StreamConcat(a[1..], b);
      OneInFront(a[0], a[1..], b);
      FrontOff(a, a[0], a[1..], b);
    }
  }

  lemma FrontOff(a: seq<Buffer>, x: Buffer, rest: seq<Buffer>, b: seq<Buffer>)
    requires a != [] && x == a[0] && rest == a[1..]
    ensures a == [x] + rest && a + b == [x] + (rest + b)
  {
  }

  lemma OneInFront(x: Buffer, a: seq<Buffer>, b: seq<Buffer>)
    requires Stream(a + b) == Stream(a) + Stream(b)
    ensures Stream([x] + (a + b)) == Stream([x] + a) + Stream(b)
  {
    StreamFront(x, a + b);
    StreamFront(x, a);
    Associate(Rest(x), Stream(a), Stream(b));
  }

  /* ---- messages ---- */

  // A message; the header's length field is the length of the body.
  datatype Message = Message(kind: seq<Byte>, body: seq<Byte>)

  // The first three words of the header are in `kind`.
  predicate MessageOk(m: Message) { |m.kind| == HEADER - 4 && |m.body| < 0x1_0000_0000 }

  function Word(n: nat): seq<Byte>
    requires n < 0x1_0000_0000
  {
    [n % 256, n / 256 % 256, n / 65536 % 256, n / 16777216]
  }

  function Value(w: seq<Byte>): nat
    requires |w| == 4
  {
    w[0] as int + w[1] as int * 256 + w[2] as int * 65536 + w[3] as int * 16777216
  }

  lemma WordValue(n: nat)
    requires n < 0x1_0000_0000
    ensures Value(Word(n)) == n
    ensures n < 256 ==> Word(n) == [n, 0, 0, 0]
  {
    assert n == n / 256 * 256 + n % 256;
    assert n / 256 == n / 65536 * 256 + n / 256 % 256;
    assert n / 65536 == n / 16777216 * 256 + n / 65536 % 256;
  }

  function Header(m: Message): seq<Byte>
    requires MessageOk(m)
  {
    m.kind + Word(|m.body|)
  }

  function Flat(ms: seq<Message>): seq<Byte>
    requires forall i :: 0 <= i < |ms| ==> MessageOk(ms[i])
  {
    if ms == [] then [] else Header(ms[0]) + ms[0].body + Flat(ms[1..])
  }

  lemma {:induction false} FlatConcat(a: seq<Message>, b: seq<Message>)
    requires forall i :: 0 <= i < |a| ==> MessageOk(a[i])
    requires forall i :: 0 <= i < |b| ==> MessageOk(b[i])
    ensures Flat(a + b) == Flat(a) + Flat(b)
  {
    if a == [] {
      assert a + b == b;
    } else {
      FlatConcat(a[1..], b);
      assert (a + b)[1..] == a[1..] + b;
    }
  }

  // How a client reads the stream: a header, then as many bytes as it says.
  function Parse(s: seq<Byte>): Option<seq<Message>>
    decreases |s|
  {
    if s == [] then Some([])
    else if |s| < HEADER then None
    else
      var n := Value(s[HEADER - 4..HEADER]);
      if |s| < HEADER + n then None
      else
        match Parse(s[HEADER + n..])
        case None => None
        case Some(ms) => Some([Message(s[..HEADER - 4], s[HEADER..HEADER + n])] + ms)
  }

  // The stream of whole messages is read back as those messages, in order.
  lemma {:induction false} ParseFlat(ms: seq<Message>)
    requires forall i :: 0 <= i < |ms| ==> MessageOk(ms[i])
    ensures Parse(Flat(ms)) == Some(ms)
  {
    if ms != [] {
      var m, s := ms[0], Flat(ms);
      var n := |m.body|;
      WordValue(n);
      assert s == m.kind + (Word(n) + (m.body + Flat(ms[1..])));
      assert s[HEADER - 4..HEADER] == Word(n);
      assert s[..HEADER - 4] == m.kind && s[HEADER..HEADER + n] == m.body && s[HEADER + n..] == Flat(ms[1..]);
      ParseFlat(ms[1..]);
      assert [m] + ms[1..] == ms;
    }
  }

  /* ---- the file ---- */

  datatype ReadResult = WouldWait | Got(ret: int)

  class XenbusFile {
    var buffers: seq<Buffer>              // read_buffers
    ghost var queued: seq<Message>        // messages that were queued, in order
    ghost var delivered: seq<Byte>        // bytes that were copied out

    // Bytes copied out, then bytes queued, are the messages queued, one after another.
    ghost predicate Valid()
      reads this
    {
      && QueueOk(buffers)
      && (forall i :: 0 <= i < |queued| ==> MessageOk(queued[i]))
      && delivered + Stream(buffers) == Flat(queued)
    }

    constructor ()
      ensures Valid() && queued == [] && delivered == [] && buffers == []
    {
      buffers, queued, delivered := [], [], [];
    }

    // xenbus_write_transaction and watch_fired: header and pieces of the body are staged, and
    // spliced in only if memory was found for all; `memory` is how many buffers there is memory for.
    method Post(kind: seq<Byte>, pieces: seq<seq<Byte>>, ghost m: Message, memory: nat) returns (ok: bool)
      requires Valid() && MessageOk(m) && m == Message(kind, Joined(pieces))
      modifies this
      ensures Valid() && delivered == old(delivered)
      ensures ok <==> 1 + NonEmpty(pieces) <= memory
      ensures queued == if ok then old(queued) + [m] else old(queued)
      ensures !ok ==> buffers == old(buffers)
    {
      JoinedLength(pieces);
      var staged;
      ok, staged := Stage(kind + Word(TotalLength(pieces)), pieces, memory);
      if ok {
        PostedStream(buffers, staged, queued, m, delivered);
        buffers := buffers + staged;
        queued := queued + [m];
      }
    }

    // The first buffer of the queue gives what is wanted, what the user's buffer has room for, or
    // all it has, and goes when it is used up.
    method CopyFirst(want: nat, room: nat) returns (chunk: seq<Byte>, fault: bool)
      requires QueueOk(buffers) && buffers != [] && want > 0
      modifies this`buffers
      ensures QueueOk(buffers) && chunk + Stream(buffers) == Stream(old(buffers))
      ensures |chunk| <= want && |chunk| <= room && (fault ==> |chunk| == room < want)
      ensures !fault ==> chunk != [] && (|chunk| == want || |buffers| < |old(buffers)|)
      ensures |buffers| <= |old(buffers)|
    {
      var rb, rest := buffers[0], buffers[1..];
      assert buffers == [rb] + rest;
      var sz := Min(want, |rb.msg| - rb.cons);
      var copied := Min(sz, room);
      chunk := rb.msg[rb.cons..rb.cons + copied];
      ghost var was := rb;
      rb := rb.(cons := rb.cons + copied);
      TakeFromFirst(was, rb, rest, copied, chunk);
      fault := copied < sz;
      if !fault && rb.cons == |rb.msg| {
        UsedUp(rb, rest);
        buffers := rest;
      } else {
        buffers := [rb] + rest;
      }
    }

    // One pass of xenbus_file_read over a queue that is not empty, for a user's buffer that takes
    // `writable` bytes. It is repeated, with nothing changed, exactly when no byte is asked for:
    // nothing was read, so it does not return, and there is something, so it does not wait.
    method ReadPass(len: nat, writable: nat) returns (data: seq<Byte>, again: bool)
      requires Valid() && buffers != []
      modifies this
      ensures Valid() && queued == old(queued) && delivered == old(delivered) + data
      ensures data == Stream(old(buffers))[..Min(Min(len, writable), |Stream(old(buffers))|)]
      ensures again <==> len == 0
      ensures len == 0 ==> buffers == old(buffers)
    {
      var fault := false;
      data := [];
      while |data| < len && !fault && buffers != []
        invariant |data| <= len && |data| <= writable && QueueOk(buffers) && queued == old(queued)
                  && delivered == old(delivered)
        invariant data + Stream(buffers) == Stream(old(buffers))
        invariant fault ==> |data| == writable < len
        invariant !fault && data == [] ==> buffers == old(buffers)
        decreases !fault, |buffers|, len - |data|
      {
        var chunk;
        ghost var before := data;
        chunk, fault := CopyFirst(len - |data|, writable - |data|);
        Associate(data, chunk, Stream(buffers));
        data := data + chunk;
      }
      again := data == [] && !fault;
      Associate(delivered, data, Stream(buffers));
      delivered := delivered + data;
    }

    // xenbus_file_read of at least one byte. With nothing copied because of a fault, the unsigned
    // counter holds -EFAULT, and is returned as a positive number.
    method Read(len: nat, writable: nat) returns (r: ReadResult, data: seq<Byte>)
      requires Valid() && 0 < len < 0x1_0000_0000
      modifies this
      ensures Valid() && queued == old(queued) && delivered == old(delivered) + data
      ensures r.WouldWait? <==> old(buffers) == []
      ensures r.WouldWait? ==> data == [] && buffers == old(buffers)
      ensures r.Got? ==> data == Stream(old(buffers))[..Min(Min(len, writable), |Stream(old(buffers))|)]
      ensures r.Got? ==> r.ret == if data == [] then 0x1_0000_0000 - EFAULT else |data|
      ensures r.Got? ==> (data == [] <==> writable == 0)
    {
      data := [];
      if buffers == [] { return WouldWait, []; }
      StreamNotEmpty(buffers);
      var again;
      data, again := ReadPass(len, writable);
      r := Got(if data == [] then 0x1_0000_0000 - EFAULT else |data|);
    }
  }

  // Once all is read, in pieces of whatever sizes, what was read parses as the messages queued.
  lemma DrainedParses(f: XenbusFile)
    requires f.Valid() && f.buffers == []
    ensures Parse(f.delivered) == Some(f.queued)
  {
    assert f.delivered + [] == f.delivered;
    ParseFlat(f.queued);
  }

  lemma StreamNotEmpty(q: seq<Buffer>)
    requires QueueOk(q) && q != []
    ensures Stream(q) != []
  {
    assert BufferOk(q[0]);
  }

  // Staging the buffers of one message; an empty piece takes none.
  method Stage(head: seq<Byte>, pieces: seq<seq<Byte>>, memory: nat) returns (ok: bool, staged: seq<Buffer>)
    requires head != []
    ensures ok <==> 1 + NonEmpty(pieces) <= memory
    ensures ok ==> QueueOk(staged) && Stream(staged) == head + Joined(pieces)
  {
    if memory == 0 { return false, []; }
    staged := [Buffer(head, 0)];
    var i, left := 0, memory - 1;
    while i < |pieces|
      invariant i <= |pieces| && Staged(staged, head, Joined(pieces[..i]))
      invariant 0 <= left && left + NonEmpty(pieces[..i]) + 1 == memory
    {
      assert pieces[..i + 1][..i] == pieces[..i];
      if pieces[i] != [] {
        if left == 0 {
          NonEmptyGrows(pieces, i + 1);
          return false, [];
        }
        StagedNext(staged, head, Joined(pieces[..i]), pieces[i]);
        staged := staged + [Buffer(pieces[i], 0)];
        left := left - 1;
      }
      i := i + 1;
    }
    assert pieces[..i] == pieces;
    ok := true;
  }

  ghost predicate Staged(staged: seq<Buffer>, head: seq<Byte>, sofar: seq<Byte>)
  {
    QueueOk(staged) && Stream(staged) == head + sofar
  }

  lemma StagedNext(staged: seq<Buffer>, head: seq<Byte>, sofar: seq<Byte>, piece: seq<Byte>)
    requires Staged(staged, head, sofar) && piece != []
    ensures Staged(staged + [Buffer(piece, 0)], head, sofar + piece)
  {
    StreamConcat(staged, [Buffer(piece, 0)]);
    OnePiece(piece);
    Associate(head, sofar, piece);
  }

  lemma OnePiece(piece: seq<Byte>)
    ensures Stream([Buffer(piece, 0)]) == piece
  {
  }

  // Splicing a staged message behind the queue puts it behind the messages queued.
  lemma PostedStream(q: seq<Buffer>, staged: seq<Buffer>, ms: seq<Message>, m: Message, delivered: seq<Byte>)
    requires forall i :: 0 <= i < |ms| ==> MessageOk(ms[i])
    requires MessageOk(m) && Stream(staged) == Header(m) + m.body
    requires delivered + Stream(q) == Flat(ms)
    ensures delivered + Stream(q + staged) == Flat(ms + [m])
  {
    StreamConcat(q, staged);
    FlatConcat(ms, [m]);
    assert Flat([m]) == Header(m) + m.body;
    Associate(delivered, Stream(q), Stream(staged));
  }

  lemma TakeFromFirst(b: Buffer, b': Buffer, rest: seq<Buffer>, n: nat, chunk: seq<Byte>)
    requires b.cons + n <= |b.msg| && b' == b.(cons := b.cons + n) && chunk == b.msg[b.cons..b.cons + n]
    ensures Stream([b] + rest) == chunk + Stream([b'] + rest)
  {
    RestAdvances(b, n);
    StreamFront(b, rest);
    StreamFront(b', rest);
    Associate(chunk, Rest(b'), Stream(rest));
  }

  lemma UsedUp(b: Buffer, rest: seq<Buffer>)
    requires b.cons == |b.msg|
    ensures Stream([b] + rest) == Stream(rest)
  {
    StreamFront(b, rest);
    NothingInFront(Rest(b), Stream(rest));
  }

  lemma StreamFront(b: Buffer, q: seq<Buffer>)
    ensures Stream([b] + q) == Rest(b) + Stream(q)
  {
    assert ([b] + q)[1..] == q;
  }

  lemma NothingInFront(a: seq<Byte>, b: seq<Byte>)
    requires a == []
    ensures a + b == b
  {
  }

  lemma RestAdvances(b: Buffer, n: nat)
    requires b.cons + n <= |b.msg|
    ensures Rest(b) == b.msg[b.cons..b.cons + n] + Rest(b.(cons := b.cons + n))
  {
  }

  lemma Associate(a: seq<Byte>, b: seq<Byte>, c: seq<Byte>)
    ensures (a + b) + c == a + (b + c)
  {
  }

  function Joined(pieces: seq<seq<Byte>>): seq<Byte>
    decreases |pieces|
  {
    if pieces == [] then [] else Joined(pieces[..|pieces| - 1]) + pieces[|pieces| - 1]
  }

  function TotalLength(pieces: seq<seq<Byte>>): nat
    decreases |pieces|
  {
    if pieces == [] then 0 else TotalLength(pieces[..|pieces| - 1]) + |pieces[|pieces| - 1]|
  }

  function NonEmpty(pieces: seq<seq<Byte>>): nat
    decreases |pieces|
  {
    if pieces == [] then 0 else NonEmpty(pieces[..|pieces| - 1]) + if pieces[|pieces| - 1] == [] then 0 else 1
  }

  lemma {:induction false} JoinedLength(pieces: seq<seq<Byte>>)
    ensures |Joined(pieces)| == TotalLength(pieces)
    decreases |pieces|
  {
    if pieces != [] { JoinedLength(pieces[..|pieces| - 1]); }
  }

  lemma {:induction false} NonEmptyGrows(pieces: seq<seq<Byte>>, i: nat)
    requires i <= |pieces|
    ensures NonEmpty(pieces[..i]) <= NonEmpty(pieces)
    decreases |pieces|
  {
    if i < |pieces| {
      assert pieces[..|pieces| - 1][..i] == pieces[..i];
      NonEmptyGrows(pieces[..|pieces| - 1], i);
    } else {
      assert pieces[..i] == pieces;
    }
  }
}
