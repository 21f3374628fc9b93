/**
 evtchn_interrupt: the two-level scan of pending event channels, with cursors saved between
 calls. Here no event arrives while it runs; EventDelivery has the interleaved protocol.
 */
module EventScan {
  const BITS := 64                    // BITS_PER_LONG
  const PORTS := 4096                 // NR_EVENT_CHANNELS, BITS * BITS
  const IRQS := 256

  datatype Irq = Irq(hasHandler: bool, devId: nat, evtchn: nat, inHandler: bool)

  // One call of a handler.
  datatype Call = Call(port: nat, irq: nat, devId: nat)

  function WordOf(port: nat): nat { port / BITS }

  function PortOf(word: nat, bit: nat): nat { word * BITS + bit }

  // __ffs of a word with the bits below `from` masked out; BITS when nothing is left.
  function FirstFrom(word: seq<bool>, from: nat): (b: nat)
    requires from <= |word|
    ensures from <= b <= |word|
    ensures forall i :: from <= i < b ==> !word[i]
    ensures b < |word| ==> word[b]
    decreases |word| - from
  {
    if from == |word| || word[from] then from else FirstFrom(word, from + 1)
  }

  // The next bit number, cyclically.
  function Succ(i: nat): (r: nat)
    requires i < BITS
    ensures r == if i == BITS - 1 then 0 else i + 1
  {
    (i + 1) % BITS
  }

  function SetBits(word: seq<bool>): set<nat> { set b: nat | 0 <= b < |word| && word[b] }

  lemma ClearBit(word: seq<bool>, b: nat)
    requires b < |word| && word[b]
    ensures SetBits(word[b := false]) == SetBits(word) - {b}
    ensures |SetBits(word[b := false])| < |SetBits(word)|
  {
    assert b in SetBits(word);
    assert SetBits(word[b := false]) == SetBits(word) - {b};
  }

  lemma PortParts(word: nat, bit: nat)
    requires bit < BITS
    ensures WordOf(PortOf(word, bit)) == word && PortOf(word, bit) % BITS == bit
    ensures word < BITS ==> PortOf(word, bit) < PORTS
  {
  }

  /* ---- what one call does, as a list of ports ---- */

  // Pending, unmasked, and in a word the selector named.
  predicate Due(pending: seq<bool>, mask: seq<bool>, selected: seq<bool>, p: nat)
    requires |pending| == |mask| == PORTS && |selected| == BITS
  {
    p < PORTS && pending[p] && !mask[p] && selected[WordOf(p)]
  }

  predicate Bound(toIrq: seq<int>, irqs: seq<Irq>, p: nat)
    requires |toIrq| == PORTS && |irqs| == IRQS
  {
    p < PORTS && 0 <= toIrq[p] < IRQS && irqs[toIrq[p]].hasHandler
  }

  function ClearAll(pending: seq<bool>, ports: seq<nat>): (r: seq<bool>)
    ensures |r| == |pending|
  {
    seq(|pending|, p requires 0 <= p < |pending| => pending[p] && p !in ports)
  }

  // The handler calls for these ports: one per bound port, in order.
  function CallsOf(toIrq: seq<int>, irqs: seq<Irq>, ports: seq<nat>): seq<Call>
    requires |toIrq| == PORTS && |irqs| == IRQS
  {
    if ports == [] then []
    else
      var p := ports[|ports| - 1];
      CallsOf(toIrq, irqs, ports[..|ports| - 1])
      + (if Bound(toIrq, irqs, p) then [Call(p, toIrq[p], irqs[toIrq[p]].devId)] else [])
  }

  // The saved cursors afterwards: the last bound port, or what they were.
  function CursorAfter(toIrq: seq<int>, irqs: seq<Irq>, ports: seq<nat>, cursor: (nat, nat)): (nat, nat)
    requires |toIrq| == PORTS && |irqs| == IRQS
  {
    if ports == [] then cursor
    else if Bound(toIrq, irqs, ports[|ports| - 1]) then (WordOf(ports[|ports| - 1]), ports[|ports| - 1] % BITS)
    else CursorAfter(toIrq, irqs, ports[..|ports| - 1], cursor)
  }

  predicate NoRepeats(s: seq<nat>) { forall i, j :: 0 <= i < j < |s| ==> s[i] != s[j] }

  // Each port at most once, and only ports that were due.
  predicate Sound(pending: seq<bool>, mask: seq<bool>, selected: seq<bool>, ports: seq<nat>)
    requires |pending| == |mask| == PORTS && |selected| == BITS
  {
    NoRepeats(ports) && forall p :: p in ports ==> Due(pending, mask, selected, p)
  }

  function ActiveWord(pending: seq<bool>, mask: seq<bool>, w: nat): (word: seq<bool>)
    requires |pending| == |mask| == PORTS && w < BITS
    ensures |word| == BITS
  {
    seq(BITS, b requires 0 <= b < BITS => pending[PortOf(w, b)] && !mask[PortOf(w, b)])
  }

  // The ports of the set bits of word w from bit `from` on.
  function PortsFrom(word: seq<bool>, w: nat, from: nat): seq<nat>
    requires from <= |word|
    decreases |word| - from
  {
    if from == |word| then []
    else (if word[from] then [PortOf(w, from)] else []) + PortsFrom(word, w, from + 1)
  }

  lemma {:induction false} PortsFromSkip(word: seq<bool>, w: nat, from: nat, b: nat)
    requires from <= b <= |word| && forall i :: from <= i < b ==> !word[i]
    ensures PortsFrom(word, w, from) == PortsFrom(word, w, b)
    decreases b - from
  {
    if from < b { PortsFromSkip(word, w, from + 1, b); }
  }

  // What the scan finds next from bit `from` on, in a word that agrees with `word` there.
  lemma PortsFromNext(word: seq<bool>, now: seq<bool>, w: nat, from: nat)
    requires from <= BITS && |word| == |now| == BITS && Agree(word, now, from)
    ensures var b := FirstFrom(now, from);
      if b == BITS then PortsFrom(word, w, from) == []
      else PortsFrom(word, w, from) == [PortOf(w, b)] + PortsFrom(word, w, b + 1)
  {
    var b := FirstFrom(now, from);
    forall i | from <= i < b
      ensures !word[i]
    {
      assert !now[i];
    }
    PortsFromSkip(word, w, from, b);
  }

  ghost predicate Agree(word: seq<bool>, now: seq<bool>, from: nat)
    requires |word| == |now| == BITS
  {
    forall i :: from <= i < BITS ==> word[i] == now[i]
  }

  lemma {:induction false} PortsFromIs(word: seq<bool>, w: nat, from: nat)
    requires from <= |word| == BITS
    ensures forall p :: p in PortsFrom(word, w, from) <==> exists b :: from <= b < BITS && word[b] && p == PortOf(w, b)
    ensures NoRepeats(PortsFrom(word, w, from))
    decreases BITS - from
  {
    if from < BITS {
      PortsFromIs(word, w, from + 1);
      var rest, all := PortsFrom(word, w, from + 1), PortsFrom(word, w, from);
      forall p | p in all
        ensures exists b :: from <= b < BITS && word[b] && p == PortOf(w, b)
      {
        if p in rest {
          var b :| from + 1 <= b < BITS && word[b] && p == PortOf(w, b);
          assert from <= b;
        }
      }
      forall b | from <= b < BITS && word[b]
        ensures PortOf(w, b) in all
      {
        if b > from { assert PortOf(w, b) in rest; }
      }
      if word[from] {
        assert PortOf(w, from) !in rest;
        forall i, j | 0 <= i < j < |all|
          ensures all[i] != all[j]
        {
          if i > 0 { assert rest[i - 1] != rest[j - 1]; } else { assert all[j] in rest; }
        }
      }
    }
  }

  lemma CallsAppend(toIrq: seq<int>, irqs: seq<Irq>, a: seq<nat>, b: seq<nat>, cursor: (nat, nat))
    requires |toIrq| == PORTS && |irqs| == IRQS
    ensures CallsOf(toIrq, irqs, a + b) == CallsOf(toIrq, irqs, a) + CallsOf(toIrq, irqs, b)
    ensures CursorAfter(toIrq, irqs, a + b, cursor) == CursorAfter(toIrq, irqs, b, CursorAfter(toIrq, irqs, a, cursor))
    decreases |b|
  {
    if b == [] {
      assert a + b == a;
    } else {
      var n := |b| - 1;
      assert (a + b)[..|a| + n] == a + b[..n];
      CallsAppend(toIrq, irqs, a, b[..n], cursor);
    }
  }

  lemma ClearAppend(pending: seq<bool>, a: seq<nat>, b: seq<nat>)
    ensures ClearAll(ClearAll(pending, a), b) == ClearAll(pending, a + b)
  {
  }

  /* ---- what the list means for the handlers ---- */

  predicate CallFor(toIrq: seq<int>, irqs: seq<Irq>, ports: seq<nat>, c: Call)
    requires |toIrq| == PORTS && |irqs| == IRQS
  {
    c.port in ports && Bound(toIrq, irqs, c.port) && c == Call(c.port, toIrq[c.port], irqs[toIrq[c.port]].devId)
  }

  predicate HasCall(calls: seq<Call>, p: nat) { exists i :: 0 <= i < |calls| && calls[i].port == p }

  ghost predicate OncePerPort(toIrq: seq<int>, irqs: seq<Irq>, ports: seq<nat>, calls: seq<Call>)
    requires |toIrq| == PORTS && |irqs| == IRQS
  {
    && (forall i :: 0 <= i < |calls| ==> CallFor(toIrq, irqs, ports, calls[i]))
    && (forall p :: p in ports && Bound(toIrq, irqs, p) ==> HasCall(calls, p))
    && (forall i, j :: 0 <= i < j < |calls| ==> calls[i].port != calls[j].port)
  }

  // A list without repetition calls the handler of each bound port in it exactly once, and no other.
  lemma {:induction false} CalledOnce(toIrq: seq<int>, irqs: seq<Irq>, ports: seq<nat>)
    requires |toIrq| == PORTS && |irqs| == IRQS && NoRepeats(ports)
    ensures OncePerPort(toIrq, irqs, ports, CallsOf(toIrq, irqs, ports))
  {
    if ports != [] {
      var n := |ports| - 1;
      var p := ports[n];
      var before, calls := CallsOf(toIrq, irqs, ports[..n]), CallsOf(toIrq, irqs, ports);
      CalledOnce(toIrq, irqs, ports[..n]);
      assert calls == before || calls == before + [Call(p, toIrq[p], irqs[toIrq[p]].devId)];
      assert p !in ports[..n];
      forall i | 0 <= i < |calls|
        ensures CallFor(toIrq, irqs, ports, calls[i])
        ensures i < |before| ==> calls[i] == before[i] && calls[i].port != p
      {
        if i < |before| { assert CallFor(toIrq, irqs, ports[..n], before[i]); }
      }
      forall q | q in ports && Bound(toIrq, irqs, q)
        ensures HasCall(calls, q)
      {
        if q == p {
          assert calls[|before|].port == q;
        } else {
          assert q in ports[..n] && HasCall(before, q);
          var i :| 0 <= i < |before| && before[i].port == q;
          assert calls[i].port == q;
        }
      }
    }
  }

  /* ---- words with nothing left to do ---- */

  ghost predicate Quiet(pending: seq<bool>, mask: seq<bool>, w: nat)
    requires |pending| == |mask| == PORTS && w < BITS
  {
    forall b :: 0 <= b < BITS ==> !ActiveWord(pending, mask, w)[b]
  }

  lemma QuietAfter(pending: seq<bool>, mask: seq<bool>, w: nat, ports: seq<nat>)
    requires |pending| == |mask| == PORTS && w < BITS && Quiet(pending, mask, w)
    ensures Quiet(ClearAll(pending, ports), mask, w)
  {
    forall b | 0 <= b < BITS
      ensures !ActiveWord(ClearAll(pending, ports), mask, w)[b]
    {
      assert !ActiveWord(pending, mask, w)[b];
      PortParts(w, b);
    }
  }

  lemma AllQuietAfter(pending: seq<bool>, mask: seq<bool>, selected: seq<bool>, l1: seq<bool>, ports: seq<nat>)
    requires |pending| == |mask| == PORTS && |selected| == |l1| == BITS
    requires forall w :: 0 <= w < BITS && selected[w] && !l1[w] ==> Quiet(pending, mask, w)
    ensures forall w :: 0 <= w < BITS && selected[w] && !l1[w] ==> Quiet(ClearAll(pending, ports), mask, w)
  {
    forall w | 0 <= w < BITS && selected[w] && !l1[w]
      ensures Quiet(ClearAll(pending, ports), mask, w)
    {
      QuietAfter(pending, mask, w, ports);
    }
  }

  lemma WordQuiet(pending: seq<bool>, mask: seq<bool>, w: nat)
    requires |pending| == |mask| == PORTS && w < BITS
    ensures var ports := PortsFrom(ActiveWord(pending, mask, w), w, 0);
      FirstFrom(ActiveWord(ClearAll(pending, ports), mask, w), 0) == BITS
  {
    FullScanQuiets(pending, mask, w);
  }

  // A scan from bit 0 leaves its word quiet.
  lemma FullScanQuiets(pending: seq<bool>, mask: seq<bool>, w: nat)
    requires |pending| == |mask| == PORTS && w < BITS
    ensures Quiet(ClearAll(pending, PortsFrom(ActiveWord(pending, mask, w), w, 0)), mask, w)
  {
    var word := ActiveWord(pending, mask, w);
    var ports := PortsFrom(word, w, 0);
    PortsFromIs(word, w, 0);
    forall b | 0 <= b < BITS
      ensures !ActiveWord(ClearAll(pending, ports), mask, w)[b]
    {
      PortParts(w, b);
      if word[b] { assert PortOf(w, b) in ports; }
    }
  }

  // When every selected word is quiet, a sound list holds exactly the due ports.
  lemma QuietMeansAll(pending: seq<bool>, mask: seq<bool>, selected: seq<bool>, ports: seq<nat>)
    requires |pending| == |mask| == PORTS && |selected| == BITS
    requires Sound(pending, mask, selected, ports)
    requires forall w :: 0 <= w < BITS && selected[w] ==> Quiet(ClearAll(pending, ports), mask, w)
    ensures forall p: nat :: p in ports <==> Due(pending, mask, selected, p)
    ensures forall p :: 0 <= p < PORTS ==>
              ClearAll(pending, ports)[p] == (pending[p] && !Due(pending, mask, selected, p))
  {
    forall p: nat | Due(pending, mask, selected, p)
      ensures p in ports
    {
      var w, b := WordOf(p), p % BITS;
      assert p == PortOf(w, b);
      assert Quiet(ClearAll(pending, ports), mask, w);
      assert !ActiveWord(ClearAll(pending, ports), mask, w)[b];
    }
  }

  // One more scan adds only due ports, and none twice.
  lemma SoundScan(pending: seq<bool>, mask: seq<bool>, selected: seq<bool>, ports: seq<nat>, w: nat, from: nat)
    requires |pending| == |mask| == PORTS && |selected| == BITS && w < BITS && selected[w] && from <= BITS
    requires Sound(pending, mask, selected, ports)
    ensures Sound(pending, mask, selected, ports + PortsFrom(ActiveWord(ClearAll(pending, ports), mask, w), w, from))
  {
    var word := ActiveWord(ClearAll(pending, ports), mask, w);
    var more := PortsFrom(word, w, from);
    PortsFromIs(word, w, from);
    forall p | p in more
      ensures Due(pending, mask, selected, p) && p !in ports
    {
      var b :| from <= b < BITS && word[b] && p == PortOf(w, b);
      PortParts(w, b);
    }
    var all := ports + more;
    forall i, j | 0 <= i < j < |all|
      ensures all[i] != all[j]
    {
      if i < |ports| <= j {
        assert all[i] in ports && all[j] in more;
      } else if |ports| <= i {
        assert more[i - |ports|] != more[j - |ports|];
      }
    }
  }

  lemma SeqAssoc(a: seq<nat>, x: nat, b: seq<nat>)
    ensures a + ([x] + b) == (a + [x]) + b
  {
  }

  /* ---- the order of a call ---- */

  // Does no selected word come after the saved one?
  predicate Wraps(selected: seq<bool>, lastL1: nat)
    requires |selected| == BITS && lastL1 < BITS
  {
    FirstFrom(selected, Succ(lastL1)) == BITS
  }

  // Where the scan starts: in the first selected word cyclically after the saved one, at the bit
  // cyclically after the saved bit; having wrapped round, at bit 0.
  function StartWord(selected: seq<bool>, lastL1: nat): (w: nat)
    requires |selected| == BITS && lastL1 < BITS
    ensures w <= BITS
  {
    if Wraps(selected, lastL1) then FirstFrom(selected, 0) else FirstFrom(selected, Succ(lastL1))
  }

  function StartBit(selected: seq<bool>, lastL1: nat, lastL2: nat): nat
    requires |selected| == BITS && lastL1 < BITS && lastL2 < BITS
  {
    if Wraps(selected, lastL1) then 0 else Succ(lastL2)
  }

  // Words after the start word, cyclically.
  function Turn(w0: nat, w: nat): nat
    requires w0 < BITS
  {
    if w >= w0 then w - w0 else w + BITS - w0
  }

  // When a port's turn comes: words in cyclic order from the start word, in each the bits upwards; the
  // bits of the start word below the start bit come last.
  function Place(w0: nat, s: nat, p: nat): nat
    requires w0 < BITS
  {
    var d, b := Turn(w0, WordOf(p)), p % BITS;
    (if d == 0 && b < s then BITS else d) * BITS + b
  }

  ghost predicate InTurn(w0: nat, s: nat, ports: seq<nat>)
    requires w0 < BITS
  {
    && (forall p :: p in ports ==> p < PORTS)
    && (forall i, j :: 0 <= i < j < |ports| ==> Place(w0, s, ports[i]) < Place(w0, s, ports[j]))
  }

  ghost predicate Before(w0: nat, s: nat, ports: seq<nat>, bound: nat)
    requires w0 < BITS
  {
    forall p :: p in ports ==> p < PORTS && Place(w0, s, p) < bound
  }

  lemma InTurnMore(w0: nat, s: nat, a: seq<nat>, b: seq<nat>, bound: nat)
    requires w0 < BITS && InTurn(w0, s, a) && InTurn(w0, s, b) && Before(w0, s, a, bound)
    requires forall p :: p in b ==> p < PORTS && bound <= Place(w0, s, p)
    ensures InTurn(w0, s, a + b)
  {
    forall i, j | 0 <= i < j < |a + b|
      ensures Place(w0, s, (a + b)[i]) < Place(w0, s, (a + b)[j])
    {
      if i < |a| <= j {
        assert (a + b)[i] == a[i] && a[i] in a;
        assert (a + b)[j] == b[j - |a|] && b[j - |a|] in b;
      } else if |a| <= i {
        assert (a + b)[i] == b[i - |a|] && (a + b)[j] == b[j - |a|];
      }
    }
  }

  // The set bits of a word, upwards.
  lemma {:induction false} PortsFromUp(word: seq<bool>, w: nat, from: nat)
    requires from <= |word| == BITS && w < BITS
    ensures forall p :: p in PortsFrom(word, w, from) ==>
              p < PORTS && WordOf(p) == w && p % BITS >= from && word[p % BITS]
    ensures forall i, j :: 0 <= i < j < |PortsFrom(word, w, from)| ==>
              PortsFrom(word, w, from)[i] % BITS < PortsFrom(word, w, from)[j] % BITS
    decreases BITS - from
  {
    if from < BITS {
      PortParts(w, from);
      PortsFromUp(word, w, from + 1);
      var rest := PortsFrom(word, w, from + 1);
      var all := PortsFrom(word, w, from);
      if word[from] {
        forall i, j | 0 <= i < j < |all|
          ensures all[i] % BITS < all[j] % BITS
        {
          assert all[j] == rest[j - 1] && rest[j - 1] in rest;
          if i > 0 { assert all[i] == rest[i - 1]; }
        }
      } else {
        assert all == rest;
      }
    }
  }

  // A word's ports come in their turn, when all of them are above the start bit, or below, or the word
  // is another.
  lemma WordInTurn(w0: nat, s: nat, word: seq<bool>, w: nat, from: nat, d: nat)
    requires w0 < BITS && w < BITS && |word| == BITS && from <= BITS
    requires forall b :: from <= b < BITS && word[b] ==> d == if w == w0 && b < s then BITS else Turn(w0, w)
    ensures InTurn(w0, s, PortsFrom(word, w, from))
    ensures forall p :: p in PortsFrom(word, w, from) ==> p < PORTS && d * BITS <= Place(w0, s, p) < (d + 1) * BITS
  {
    PortsFromUp(word, w, from);
    var ports := PortsFrom(word, w, from);
    forall p | p in ports
      ensures p < PORTS && Place(w0, s, p) == d * BITS + p % BITS
    {
    }
    forall i, j | 0 <= i < j < |ports|
      ensures Place(w0, s, ports[i]) < Place(w0, s, ports[j])
    {
      assert ports[i] in ports && ports[j] in ports;
    }
  }

  // After the first word: those before `pos`, counted from it, are done, it from its start bit on.
  ghost predicate Swept(w0: nat, s: nat, l1: seq<bool>, l1i: nat, l2i: nat, pos: nat, ports: seq<nat>,
                        pending: seq<bool>, mask: seq<bool>)
    requires w0 < BITS && |l1| == BITS && |pending| == |mask| == PORTS
  {
    && 1 <= pos <= BITS + 1 && InTurn(w0, s, ports) && Before(w0, s, ports, pos * BITS)
    && (forall v :: 0 <= v < BITS && l1[v] ==> v == w0 || Turn(w0, v) >= pos)
    && (pos > BITS ==> !l1[w0])
    && LowOnly(pending, mask, w0, s)
    && l2i == BITS - 1 && (pos <= BITS ==> l1i == AtTurn(w0, pos))
  }

  // The last word done.
  function AtTurn(w0: nat, pos: nat): int { if w0 + pos - 1 < BITS then w0 + pos - 1 else w0 + pos - 1 - BITS }

  // Nothing is left in the word from the start bit on.
  ghost predicate LowOnly(pending: seq<bool>, mask: seq<bool>, w0: nat, s: nat)
    requires w0 < BITS && |pending| == |mask| == PORTS
  {
    forall b :: s <= b < BITS ==> !ActiveWord(pending, mask, w0)[b]
  }

  // The first scan.
  lemma SweepFirst(w0: nat, s: nat, l1: seq<bool>, l1': seq<bool>, pending: seq<bool>, mask: seq<bool>)
    requires w0 < BITS && s < BITS && |l1| == |l1'| == BITS && |pending| == |mask| == PORTS
    requires l1' == l1 || l1' == l1[w0 := false]
    ensures var more := PortsFrom(ActiveWord(pending, mask, w0), w0, s);
      Swept(w0, s, l1', w0, BITS - 1, 1, more, ClearAll(pending, more), mask)
  {
    var word := ActiveWord(pending, mask, w0);
    var more := PortsFrom(word, w0, s);
    WordInTurn(w0, s, word, w0, s, 0);
    PortsFromIs(word, w0, s);
    forall b | s <= b < BITS
      ensures !ActiveWord(ClearAll(pending, more), mask, w0)[b]
    {
      PortParts(w0, b);
      if word[b] { assert PortOf(w0, b) in more; }
    }
  }

  // Going round the end of the words.
  lemma SweepRound(w0: nat, s: nat, l1: seq<bool>, l1i: nat, l2i: nat, pos: nat, ports: seq<nat>,
                   pending: seq<bool>, mask: seq<bool>)
    requires w0 < BITS && |l1| == BITS && |pending| == |mask| == PORTS && l1i < BITS
    requires Swept(w0, s, l1, l1i, l2i, pos, ports, pending, mask)
    requires FirstFrom(l1, 0) < BITS && FirstFrom(l1, Succ(l1i)) == BITS
    ensures pos <= BITS - w0 && Swept(w0, s, l1, BITS - 1, BITS - 1, BITS - w0, ports, pending, mask)
  {
    var v := FirstFrom(l1, 0);
    assert l1[v] && v < Succ(l1i);
  }

  // A further scan, from bit 0: of the next word, or of what is left of the first.
  lemma SweepNext(w0: nat, s: nat, l1: seq<bool>, l1i: nat, l2i: nat, pos: nat, ports: seq<nat>,
                  pending: seq<bool>, mask: seq<bool>) returns (pos': nat)
    requires w0 < BITS && |l1| == BITS && |pending| == |mask| == PORTS && l1i < BITS
    requires Swept(w0, s, l1, l1i, l2i, pos, ports, pending, mask)
    requires FirstFrom(l1, Succ(l1i)) < BITS
    ensures var w := FirstFrom(l1, Succ(l1i));
      var more := PortsFrom(ActiveWord(pending, mask, w), w, 0);
      pos' >= 1 && Swept(w0, s, l1[w := false], w, BITS - 1, pos', ports + more, ClearAll(pending, more), mask)
  {
    var w := FirstFrom(l1, Succ(l1i));
    var word := ActiveWord(pending, mask, w);
    var more := PortsFrom(word, w, 0);
    var d := if w == w0 then BITS else Turn(w0, w);
    pos' := d + 1;
    NextWord(w0, l1, l1i, pos, w);
    WordInTurn(w0, s, word, w, 0, d);
    InTurnMore(w0, s, ports, more, d * BITS);
    ClearedLow(pending, mask, w0, s, more);
  }

  lemma NextWord(w0: nat, l1: seq<bool>, l1i: nat, pos: nat, w: nat)
    requires w0 < BITS && |l1| == BITS && l1i < BITS && 1 <= pos <= BITS + 1
    requires forall v :: 0 <= v < BITS && l1[v] ==> v == w0 || Turn(w0, v) >= pos
    requires (pos > BITS ==> !l1[w0]) && (pos <= BITS ==> l1i == AtTurn(w0, pos))
    requires w == FirstFrom(l1, Succ(l1i)) < BITS
    ensures pos <= BITS
    ensures w == w0 ==> forall v :: 0 <= v < BITS && l1[v] ==> v == w0
    ensures w != w0 ==> pos <= Turn(w0, w) && w == AtTurn(w0, Turn(w0, w) + 1)
                        && forall v :: 0 <= v < BITS && l1[v] && v != w0 && v != w ==> Turn(w0, v) > Turn(w0, w)
  {
    assert l1[w];
  }

  lemma ClearedLow(pending: seq<bool>, mask: seq<bool>, w0: nat, s: nat, more: seq<nat>)
    requires w0 < BITS && |pending| == |mask| == PORTS && LowOnly(pending, mask, w0, s)
    ensures LowOnly(ClearAll(pending, more), mask, w0, s)
  {
    forall b | s <= b < BITS
      ensures !ActiveWord(ClearAll(pending, more), mask, w0)[b]
    {
      assert !ActiveWord(pending, mask, w0)[b];
      PortParts(w0, b);
    }
  }

  // Before the first scan, gone round or not, and after it.
  ghost predicate Phase(selected: seq<bool>, saved: (nat, nat), w0: nat, s: nat, l1: seq<bool>, l1i: nat, l2i: nat,
                        pos: nat, ports: seq<nat>, pending: seq<bool>, pending0: seq<bool>, mask: seq<bool>)
    requires |selected| == |l1| == BITS && |pending| == |pending0| == |mask| == PORTS
    requires saved.0 < BITS && saved.1 < BITS
  {
    && w0 == StartWord(selected, saved.0) && s == StartBit(selected, saved.0, saved.1)
    && if pos == 0 then
         ports == [] && l1 == selected && pending == pending0
         && ((l1i, l2i) == saved || (Wraps(selected, saved.0) && (l1i, l2i) == (BITS - 1, BITS - 1)))
       else
         w0 < BITS && Swept(w0, s, l1, l1i, l2i, pos, ports, pending, mask)
  }

  lemma PhaseRound(selected: seq<bool>, saved: (nat, nat), w0: nat, s: nat, l1: seq<bool>, l1i: nat, l2i: nat,
                   pos: nat, ports: seq<nat>, pending: seq<bool>, pending0: seq<bool>, mask: seq<bool>)
    returns (pos': nat)
    requires |selected| == |l1| == BITS && |pending| == |pending0| == |mask| == PORTS
    requires saved.0 < BITS && saved.1 < BITS
    requires l1i < BITS && FirstFrom(l1, 0) < BITS && FirstFrom(l1, Succ(l1i)) == BITS
    requires Phase(selected, saved, w0, s, l1, l1i, l2i, pos, ports, pending, pending0, mask)
    ensures Phase(selected, saved, w0, s, l1, BITS - 1, BITS - 1, pos', ports, pending, pending0, mask)
  {
    pos' := 0;
    if pos > 0 {
      SweepRound(w0, s, l1, l1i, l2i, pos, ports, pending, mask);
      pos' := BITS - w0;
    }
  }

  lemma PhaseNext(selected: seq<bool>, saved: (nat, nat), w0: nat, s: nat, l1: seq<bool>, l1': seq<bool>, l1i: nat,
                  l2i: nat, pos: nat, w: nat, ports: seq<nat>, pending: seq<bool>, pending0: seq<bool>, mask: seq<bool>)
    returns (pos': nat)
    requires |selected| == |l1| == |l1'| == BITS && |pending| == |pending0| == |mask| == PORTS
    requires saved.0 < BITS && saved.1 < BITS && l1i < BITS && l2i < BITS
    requires w == FirstFrom(l1, Succ(l1i)) < BITS
    requires Phase(selected, saved, w0, s, l1, l1i, l2i, pos, ports, pending, pending0, mask)
    requires (l1' == l1 || l1' == l1[w := false]) && (Succ(l2i) == 0 ==> l1' == l1[w := false])
    ensures var more := PortsFrom(ActiveWord(pending, mask, w), w, Succ(l2i));
      Phase(selected, saved, w0, s, l1', w, BITS - 1, pos', ports + more, ClearAll(pending, more), pending0, mask)
  {
    if pos == 0 {
      assert w == w0 && Succ(l2i) == s;
      SweepFirst(w0, s, l1, l1', pending, mask);
      pos' := 1;
      assert [] + PortsFrom(ActiveWord(pending, mask, w), w, s) == PortsFrom(ActiveWord(pending, mask, w), w, s);
    } else {
      pos' := SweepNext(w0, s, l1, l1i, l2i, pos, ports, pending, mask);
    }
  }

  // The k-th port is the last that is bound.
  predicate LastBound(toIrq: seq<int>, irqs: seq<Irq>, ports: seq<nat>, k: nat)
    requires |toIrq| == PORTS && |irqs| == IRQS
  {
    k < |ports| && Bound(toIrq, irqs, ports[k]) && forall j :: k < j < |ports| ==> !Bound(toIrq, irqs, ports[j])
  }

  lemma {:induction false} CursorIsLast(toIrq: seq<int>, irqs: seq<Irq>, ports: seq<nat>, cursor: (nat, nat))
    requires |toIrq| == PORTS && |irqs| == IRQS
    ensures (forall p :: p in ports ==> !Bound(toIrq, irqs, p)) ==> CursorAfter(toIrq, irqs, ports, cursor) == cursor
    ensures forall k: nat :: LastBound(toIrq, irqs, ports, k) ==>
              CursorAfter(toIrq, irqs, ports, cursor) == (WordOf(ports[k]), ports[k] % BITS)
  {
    if ports != [] {
      var n := |ports| - 1;
      CursorIsLast(toIrq, irqs, ports[..n], cursor);
      forall k: nat | LastBound(toIrq, irqs, ports, k)
        ensures CursorAfter(toIrq, irqs, ports, cursor) == (WordOf(ports[k]), ports[k] % BITS)
      {
        if k < n { assert LastBound(toIrq, irqs, ports[..n], k) && ports[..n][k] == ports[k]; }
      }
    }
  }

  class EventChannels {
    const pending: array<bool>
    var mask: seq<bool>
    var toIrq: seq<int>               // evtchn_to_irq, -1 when unbound
    var irqs: seq<Irq>                // irq_evtchn
    var selector: seq<bool>           // evtchn_pending_sel
    var upcallPending: bool
    var lastL1: nat                   // last_processed_l1i
    var lastL2: nat                   // last_processed_l2i
    var calls: seq<Call>              // handler calls so far

    ghost predicate Valid()
      reads this
    {
      && pending.Length == |mask| == |toIrq| == PORTS && |irqs| == IRQS
      && |selector| == BITS && lastL1 < BITS && lastL2 < BITS
      && (forall p :: 0 <= p < PORTS ==> toIrq[p] < IRQS)
    }

    constructor ()
      ensures Valid() && fresh(pending) && calls == [] && (lastL1, lastL2) == (BITS - 1, BITS - 1)
      ensures forall p :: 0 <= p < PORTS ==> !pending[p] && mask[p] && toIrq[p] == -1
    {
      pending := new bool[PORTS](_ => false);
      mask, toIrq := seq(PORTS, _ => true), seq(PORTS, _ => -1);
      irqs := seq(IRQS, _ => Irq(false, 0, 0, false));
      selector, upcallPending := seq(BITS, _ => false), false;
      lastL1, lastL2, calls := BITS - 1, BITS - 1, [];
    }

    // pending, calls and cursors are those of the given start, after processing `ports`.
    ghost predicate After(ports: seq<nat>, pending0: seq<bool>, calls0: seq<Call>, cursor0: (nat, nat))
      reads this, pending
      requires Valid()
    {
      && pending[..] == ClearAll(pending0, ports)
      && calls == calls0 + CallsOf(toIrq, irqs, ports)
      && (lastL1, lastL2) == CursorAfter(toIrq, irqs, ports, cursor0)
    }

    // Returns the ports processed, in order: all that were due, once each, in their turn from the saved
    // cursors, which are left at the last one with a handler.
    method Interrupt() returns (ghost ports: seq<nat>)
      requires Valid()
      modifies this`selector, this`upcallPending, this`lastL1, this`lastL2, this`calls, pending
      ensures Valid() && !upcallPending && selector == seq(BITS, _ => false)
      ensures NoRepeats(ports)
      ensures forall p: nat :: p in ports <==> Due(old(pending[..]), mask, old(selector), p)
      ensures After(ports, old(pending[..]), old(calls), old((lastL1, lastL2)))
      ensures StartWord(old(selector), old(lastL1)) < BITS ==>
                InTurn(StartWord(old(selector), old(lastL1)), StartBit(old(selector), old(lastL1), old(lastL2)), ports)
      ensures (forall p :: p in ports ==> !Bound(toIrq, irqs, p)) ==> (lastL1, lastL2) == old((lastL1, lastL2))
      ensures forall k: nat :: LastBound(toIrq, irqs, ports, k) ==>
                (lastL1, lastL2) == (WordOf(ports[k]), ports[k] % BITS)
      ensures forall p :: 0 <= p < PORTS ==>
                pending[p] == (old(pending[p]) && !Due(old(pending[..]), mask, old(selector), p))
    {
      ghost var pending0, selected, cursor0 := pending[..], selector, (lastL1, lastL2);
      upcallPending := false;
      var l1 := selector;
      selector := seq(BITS, _ => false);
      ports := ScanSelected(l1);
      QuietMeansAll(pending0, mask, selected, ports);
      CursorIsLast(toIrq, irqs, ports, cursor0);
    }

    // Its outer loop.
    method ScanSelected(selected: seq<bool>) returns (ghost ports: seq<nat>)
      requires Valid() && |selected| == BITS
      modifies this`lastL1, this`lastL2, this`calls, pending
      ensures Valid() && Sound(old(pending[..]), mask, selected, ports)
      ensures After(ports, old(pending[..]), old(calls), old((lastL1, lastL2)))
      ensures StartWord(selected, old(lastL1)) < BITS ==>
                InTurn(StartWord(selected, old(lastL1)), StartBit(selected, old(lastL1), old(lastL2)), ports)
      ensures forall w :: 0 <= w < BITS && selected[w] ==> Quiet(pending[..], mask, w)
    {
      ghost var pending0, calls0, saved := pending[..], calls, (lastL1, lastL2);
      ghost var w0, s, pos := StartWord(selected, lastL1), StartBit(selected, lastL1, lastL2), 0;
      ports := [];
      var l1 := selected;
      var l1i: nat, l2i: nat := lastL1, lastL2;

      while FirstFrom(l1, 0) < BITS
        invariant Valid() && |l1| == BITS && l1i < BITS && l2i < BITS
        invariant After(ports, pending0, calls0, saved) && Sound(pending0, mask, selected, ports)
        invariant Phase(selected, saved, w0, s, l1, l1i, l2i, pos, ports, pending[..], pending0, mask)
        invariant forall w :: 0 <= w < BITS && l1[w] ==> selected[w]
        invariant forall w :: 0 <= w < BITS && selected[w] && !l1[w] ==> Quiet(pending[..], mask, w)
        decreases |SetBits(l1)|, if l2i != BITS - 1 then 1 else 0, BITS - 1 - l1i
      {
        var w := FirstFrom(l1, Succ(l1i));
        if w == BITS {
          // masked out everything: wrap around to the beginning
          pos := PhaseRound(selected, saved, w0, s, l1, l1i, l2i, pos, ports, pending[..], pending0, mask);
          l1i, l2i := BITS - 1, BITS - 1;
        } else {
          ghost var before, from, l1was, l2was := pending[..], l1i, l1, l2i;
          ghost var more := PortsFrom(ActiveWord(before, mask, w), w, Succ(l2i));
          l1i := w;
          l2i := ScanWord(w, l2i);
          AllQuietAfter(before, mask, selected, l1, more);
          if Succ(l2was) == 0 { WordQuiet(before, mask, w); }
          if FirstFrom(ActiveWord(pending[..], mask, l1i), 0) == BITS {
            ClearBit(l1, l1i);
            l1 := l1[l1i := false];
          }
          pos := PhaseNext(selected, saved, w0, s, l1was, l1, from, l2was, pos, w, ports, before, pending0, mask);
          SoundScan(pending0, mask, selected, ports, w, Succ(l2was));
          Chain(pending0, calls0, saved, ports, more);
          ports := ports + more;
        }
      }
    }

    lemma Chain(pending0: seq<bool>, calls0: seq<Call>, cursor0: (nat, nat), ports: seq<nat>, more: seq<nat>)
      requires Valid()
      requires After(more, ClearAll(pending0, ports), calls0 + CallsOf(toIrq, irqs, ports),
                     CursorAfter(toIrq, irqs, ports, cursor0))
      ensures After(ports + more, pending0, calls0, cursor0)
    {
      ClearAppend(pending0, ports, more);
      CallsAppend(toIrq, irqs, ports, more, cursor0);
    }

    // In the inner loop: `done` ports of `all` are processed, the bits from cur on are still to come.
    ghost predicate Scanning(w: nat, all: seq<nat>, word: seq<bool>, done: seq<nat>, cur: nat,
                             pending0: seq<bool>, calls0: seq<Call>, cursor0: (nat, nat))
      reads this, pending
      requires Valid() && w < BITS && |word| == BITS && cur <= BITS
    {
      && After(done, pending0, calls0, cursor0)
      && done + PortsFrom(word, w, cur) == all
      && Agree(word, ActiveWord(pending[..], mask, w), cur)
    }

    // The inner loop: word w from the bit after `start` (cyclically) to its end.
    method ScanWord(w: nat, start: nat) returns (l2i: nat)
      requires Valid() && w < BITS && start < BITS
      modifies this`calls, this`lastL1, this`lastL2, pending
      ensures Valid() && l2i == BITS - 1
      ensures After(PortsFrom(ActiveWord(old(pending[..]), mask, w), w, Succ(start)),
                    old(pending[..]), old(calls), old((lastL1, lastL2)))
    {
      ghost var pending0, calls0, cursor0, done := pending[..], calls, (lastL1, lastL2), [];
      ghost var word := ActiveWord(pending0, mask, w);
      ghost var cur := Succ(start);
      ghost var all := PortsFrom(word, w, cur);
      assert ClearAll(pending0, []) == pending0;
      assert [] + all == all;
      l2i := start;
      var more := true;
      while more
        invariant Valid() && l2i < BITS && (!more ==> l2i == BITS - 1)
        invariant cur == if more then Succ(l2i) else BITS
        invariant Scanning(w, all, word, done, cur, pending0, calls0, cursor0)
        decreases BITS - cur, more
      {
        l2i := Succ(l2i);
        var now := ActiveWord(pending[..], mask, w);
        var b := FirstFrom(now, l2i);
        if b == BITS {
          // masked out everything: move on
          PortsFromNext(word, now, w, l2i);
          l2i, more, cur := BITS - 1, false, BITS;
        } else {
          l2i := b;
          done := ScanOne(w, b, all, word, done, cur, pending0, calls0, cursor0);
          more := l2i != BITS - 1;
          cur := b + 1;
        }
      }
      assert done + [] == done;
    }

    method ScanOne(w: nat, b: nat, ghost all: seq<nat>, ghost word: seq<bool>, ghost done0: seq<nat>, ghost cur: nat,
                   ghost pending0: seq<bool>, ghost calls0: seq<Call>, ghost cursor0: (nat, nat))
      returns (ghost done: seq<nat>)
      requires Valid() && w < BITS && b < BITS && |word| == BITS && cur <= BITS
      requires Scanning(w, all, word, done0, cur, pending0, calls0, cursor0)
      requires b == FirstFrom(ActiveWord(pending[..], mask, w), cur)
      modifies this`calls, this`lastL1, this`lastL2, pending
      ensures Valid() && Scanning(w, all, word, done, b + 1, pending0, calls0, cursor0)
    {
      ghost var before := pending[..];
      PortsFromNext(word, ActiveWord(before, mask, w), w, cur);
      SeqAssoc(done0, PortOf(w, b), PortsFrom(word, w, b + 1));
      ActiveAfterClear(before, w, b);
      ProcessPort(w, b);
      Chain(pending0, calls0, cursor0, done0, [PortOf(w, b)]);
      done := done0 + [PortOf(w, b)];
    }

    lemma ActiveAfterClear(before: seq<bool>, w: nat, b: nat)
      requires Valid() && |before| == PORTS && w < BITS && b < BITS
      ensures Agree(ActiveWord(before, mask, w), ActiveWord(ClearAll(before, [PortOf(w, b)]), mask, w), b + 1)
    {
      forall c | b < c < BITS
        ensures ActiveWord(ClearAll(before, [PortOf(w, b)]), mask, w)[c] == ActiveWord(before, mask, w)[c]
      {
        PortParts(w, c);
        PortParts(w, b);
      }
    }

    method ProcessPort(w: nat, b: nat)
      requires Valid() && w < BITS && b < BITS
      modifies this`calls, this`lastL1, this`lastL2, pending
      ensures Valid() && After([PortOf(w, b)], old(pending[..]), old(calls), old((lastL1, lastL2)))
    {
      var port := PortOf(w, b);
      PortParts(w, b);
      ghost var before := pending[..];
      pending[port] := false;
      assert pending[..] == ClearAll(before, [port]);
      assert [port][..0] == [];
      var irq := toIrq[port];
      if irq >= 0 && irqs[irq].hasHandler {
        // in_handler is set and cleared around the call
        calls := calls + [Call(port, irq, irqs[irq].devId)];
        lastL1, lastL2 := w, b;
      }
    }
  }
}
