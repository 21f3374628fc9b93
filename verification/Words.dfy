/** Machine words: the free-running indices of the rings wrap, positions do not. */
module Words {
  const TWO_16 := 0x1_0000
  const TWO_32 := 0x1_0000_0000

  // The value a u16 (u32) holds after an assignment of x.
  function Wrap16(x: int): nat { x % TWO_16 }

  function Wrap32(x: int): nat { x % TWO_32 }

  // Differences of wrapped indices are the wrapped differences of the positions behind them.
  lemma WrapDifference(a: int, b: int)
    ensures Wrap16(Wrap16(a) - Wrap16(b)) == Wrap16(a - b)
    ensures 0 <= a - b < TWO_16 ==> Wrap16(Wrap16(a) - Wrap16(b)) == a - b
  {
    var qa, qb := a / TWO_16, b / TWO_16;
    assert Wrap16(a) - Wrap16(b) == (a - b) - TWO_16 * (qa - qb);
    ModAddMultiple(a - b, -(qa - qb), TWO_16);
  }

  lemma WrapSuccessor(a: int)
    ensures Wrap16(Wrap16(a) + 1) == Wrap16(a + 1)
    ensures Wrap16(Wrap16(a) - 1) == Wrap16(a - 1)
  {
  }

  lemma ModAddMultiple(x: int, k: int, m: int)
    requires m > 0
    ensures (x + m * k) % m == x % m
  {
    var q, r := x / m, x % m;
    assert x + m * k == m * (q + k) + r by {
      assert m * (q + k) == m * q + m * k;
    }
    UniqueRemainder(x + m * k, q + k, r, m);
  }

  lemma UniqueRemainder(x: int, q: int, r: int, m: int)
    requires m > 0 && 0 <= r < m && x == m * q + r
    ensures x / m == q && x % m == r
  {
    var d := x / m - q;
    assert m * d == r - x % m by {
      assert m * (x / m) + x % m == m * q + r;
      assert m * d == m * (x / m) - m * q;
    }
    MultipleLeavesRange(m, d);
  }

  lemma MultipleLeavesRange(m: int, d: int)
    requires m > 0
    ensures d >= 1 ==> m * d >= m
    ensures d <= -1 ==> m * d <= -m
  {
  }

  // The slot of a free-running index in a ring; the driver writes idx & (num - 1).
  function Slot(idx: int, num: nat): (s: nat)
    requires num > 0
    ensures s < num && (0 <= idx < num ==> s == idx)
  {
    idx % num
  }

  // Two distinct positions less than m apart occupy distinct slots of a ring of m slots.
  lemma DistinctSlots(p: int, q: int, m: int)
    requires m > 0 && p < q < p + m
    ensures Slot(p, m) != Slot(q, m)
  {
    var d := q / m - p / m;
    assert q - p == m * d + (q % m - p % m) by {
      assert m * d == m * (q / m) - m * (p / m);
    }
    MultipleLeavesRange(m, d);
  }

  // A ring size that virtio and this driver accept: a power of two up to 2^15. Such a
  // size divides 2^16, which is what makes the slot of a wrapped index the slot of its
  // position.
  predicate PowerOfTwo(n: nat)
  {
    n == 1 || (n > 0 && n % 2 == 0 && PowerOfTwo(n / 2))
  }

  predicate RingSize(n: nat) { PowerOfTwo(n) && n <= 0x8000 }

  lemma {:induction false} PowersDivide(n: nat, m: nat) returns (k: nat)
    requires PowerOfTwo(n) && PowerOfTwo(m) && n <= m
    ensures n * k == m
  {
    if n == 1 {
      k := m;
    } else {
      k := PowersDivide(n / 2, m / 2);
      assert 2 * (n / 2 * k) == (2 * (n / 2)) * k;
    }
  }

  lemma PowerOfTwo16()
    ensures PowerOfTwo(TWO_16)
  {
    assert PowerOfTwo(1) && PowerOfTwo(2) && PowerOfTwo(4) && PowerOfTwo(8);
    assert PowerOfTwo(0x10) && PowerOfTwo(0x20) && PowerOfTwo(0x40) && PowerOfTwo(0x80);
    assert PowerOfTwo(0x100) && PowerOfTwo(0x200) && PowerOfTwo(0x400) && PowerOfTwo(0x800);
    assert PowerOfTwo(0x1000) && PowerOfTwo(0x2000) && PowerOfTwo(0x4000) && PowerOfTwo(0x8000);
  }

  lemma SlotOfWrapped(p: nat, n: nat)
    requires RingSize(n)
    ensures Slot(Wrap16(p), n) == Slot(p, n)
  {
    PowerOfTwo16();
    var k := PowersDivide(n, TWO_16);
    var q := p / TWO_16;
    assert p == Wrap16(p) + n * (k * q) by {
      assert n * (k * q) == (n * k) * q;
    }
    ModAddMultiple(Wrap16(p), k * q, n);
  }

  /** vring_need_event: having just moved an index from `oldIdx` to `newIdx`, has it passed `event`? */
  predicate NeedEvent(event: nat, newIdx: nat, oldIdx: nat)
  {
    Wrap16(newIdx - event - 1) < Wrap16(newIdx - oldIdx)
  }

  lemma WrapsApart(p: int, q: int)
    requires p != q && p - TWO_16 < q < p + TWO_16
    ensures Wrap16(p) != Wrap16(q)
  {
  }

  // On wrapped indices, NeedEvent compares distances back from newPos - 1.
  lemma NeedEventByDistance(event: nat, newPos: nat, oldPos: nat)
    requires oldPos <= newPos < oldPos + TWO_16
    ensures NeedEvent(event, Wrap16(newPos), Wrap16(oldPos)) <==> Wrap16(newPos - 1 - event) < newPos - oldPos
  {
    WrapDifference(newPos, oldPos);
    var q := newPos / TWO_16;
    assert newPos - event - 1 == (Wrap16(newPos) - event - 1) + TWO_16 * q;
    ModAddMultiple(Wrap16(newPos) - event - 1, q, TWO_16);
  }

  // On positions: an event is due exactly when the index stepped over a position whose
  // wrapped value is the event index, whatever wrapped in between.
  lemma NeedEventIffCrossed(event: nat, newPos: nat, oldPos: nat)
    requires oldPos <= newPos < oldPos + TWO_16
    requires event < TWO_16
    ensures NeedEvent(event, Wrap16(newPos), Wrap16(oldPos)) <==>
            exists p :: oldPos <= p < newPos && Wrap16(p) == event
  {
    NeedEventByDistance(event, newPos, oldPos);
    var back := Wrap16(newPos - 1 - event);
    // the last position below newPos that wraps to `event`
    var last := newPos - 1 - back;
    assert Wrap16(last) == event by {
      var q := (newPos - 1 - event) / TWO_16;
      assert last == event + TWO_16 * q;
      ModAddMultiple(event, q, TWO_16);
    }
    if back < newPos - oldPos {
      assert oldPos <= last < newPos;
    } else {
      forall p | oldPos <= p < newPos
        ensures Wrap16(p) != event
      {
        WrapsApart(p, last);
      }
    }
  }
}
