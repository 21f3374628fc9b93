/**
 Cutting a SCSI scatter list into page segments, as scsifront_calculate_segs counts them and
 map_data_for_request emits them.
 */
module ScsiSegments {
  import opened Basics

  const PAGE := 4096
  const SEGS_PER_FRAME := 512   // SEGS_PER_VSCSI_INDIRECT_FRAME
  const SG_TABLESIZE := 26      // VSCSIIF_SG_TABLESIZE

  // A scatter list element: the frame number of its first page, and the bytes in it.
  datatype Sg = Sg(page: nat, offset: nat, length: nat)

  // A segment: the element it is of, the page of that element, and the bytes in that page.
  datatype Seg = Seg(sg: nat, nth: nat, offset: nat, length: nat)

  predicate SgOk(sgl: seq<Sg>) { forall i :: 0 <= i < |sgl| ==> sgl[i].offset < PAGE }

  // The segments of what is left of an element, from offset `off` of its nth page.
  function OfElement(k: nat, nth: nat, off: nat, len: nat, left: nat): seq<Seg>
    requires off < PAGE
    decreases len
  {
    if len == 0 || left == 0 then []
    else
      var bytes := Min(Min(len, PAGE - off), left);
      [Seg(k, nth, off, bytes)] + OfElement(k, nth + 1, 0, len - bytes, left - bytes)
  }

  // The segments of the elements from k on, with `left` bytes to transfer.
  function Segs(sgl: seq<Sg>, k: nat, left: nat): seq<Seg>
    requires SgOk(sgl) && k <= |sgl|
    decreases |sgl| - k
  {
    if k == |sgl| then []
    else
      OfElement(k, 0, sgl[k].offset, sgl[k].length, left)
      + Segs(sgl, k + 1, left - Min(sgl[k].length, left))
  }

  // scsifront_calculate_segs
  method CalculateSegs(sgl: seq<Sg>, dataLen: nat) returns (refCnt: nat)
    requires SgOk(sgl)
    ensures refCnt == |Segs(sgl, 0, dataLen)|
  {
    refCnt := 0;
    var left: nat := dataLen;
    for i := 0 to |sgl|
      invariant refCnt + |Segs(sgl, i, left)| == |Segs(sgl, 0, dataLen)|
    {
      var off: nat, len: nat := sgl[i].offset, sgl[i].length;
      ghost var nth := 0;
      while len > 0 && left > 0
        invariant off < PAGE
        invariant refCnt + |OfElement(i, nth, off, len, left)| + |Segs(sgl, i + 1, left - Min(len, left))|
                  == |Segs(sgl, 0, dataLen)|
        decreases len
      {
        var bytes := Min(Min(len, PAGE - off), left);
        len := len - bytes;
        left := left - bytes;
        off := 0;
        nth := nth + 1;
        refCnt := refCnt + 1;
      }
    }
  }

  /* ---- the bytes covered ---- */

  function Run(start: nat, n: nat): (r: seq<nat>)
    ensures |r| == n
  {
    seq(n, j requires 0 <= j < n => start + j)
  }

  // Byte addresses, page frame by page frame, of the elements from k on.
  function SgBytes(sgl: seq<Sg>, k: nat): seq<nat>
    requires k <= |sgl|
    decreases |sgl| - k
  {
    if k == |sgl| then [] else Run(sgl[k].page * PAGE + sgl[k].offset, sgl[k].length) + SgBytes(sgl, k + 1)
  }

  function SegBytes(sgl: seq<Sg>, s: Seg): seq<nat>
    requires s.sg < |sgl|
  {
    Run((sgl[s.sg].page + s.nth) * PAGE + s.offset, s.length)
  }

  predicate OfList(sgl: seq<Sg>, segs: seq<Seg>) { forall i :: 0 <= i < |segs| ==> segs[i].sg < |sgl| }

  function Flat(sgl: seq<Sg>, segs: seq<Seg>): seq<nat>
    requires OfList(sgl, segs)
  {
    if segs == [] then [] else SegBytes(sgl, segs[0]) + Flat(sgl, segs[1..])
  }

  lemma {:induction false} FlatConcat(sgl: seq<Sg>, a: seq<Seg>, b: seq<Seg>)
    requires OfList(sgl, a) && OfList(sgl, b)
    ensures OfList(sgl, a + b) && Flat(sgl, a + b) == Flat(sgl, a) + Flat(sgl, b)
  {
    if a == [] {
      assert a + b == b;
    } else {
      FlatConcat(sgl, a[1..], b);
      assert (a + b)[1..] == a[1..] + b;
    }
  }

  lemma RunSplit(start: nat, m: nat, n: nat)
    requires m <= n
    ensures Run(start, n) == Run(start, m) + Run(start + m, n - m)
    ensures Run(start, n)[..m] == Run(start, m)
  {
  }

  // The segments of an element go through its pages, each a non-empty run inside its page ..
  lemma {:induction false} ElementParts(k: nat, nth: nat, off: nat, len: nat, left: nat)
    requires off < PAGE
    ensures var segs := OfElement(k, nth, off, len, left);
      && (forall i :: 0 <= i < |segs| ==> segs[i].sg == k && segs[i].nth == nth + i)
      && (forall i :: 0 <= i < |segs| ==> 0 < segs[i].length && segs[i].offset + segs[i].length <= PAGE)
      && (segs == [] <==> Min(len, left) == 0)
    decreases len
  {
    if len > 0 && left > 0 {
      var bytes := Min(Min(len, PAGE - off), left);
      ElementParts(k, nth + 1, 0, len - bytes, left - bytes);
    }
  }

  // .. and cover its front.
  lemma {:induction false} ElementCovered(sgl: seq<Sg>, k: nat, nth: nat, off: nat, len: nat, left: nat)
    requires k < |sgl| && off < PAGE
    ensures OfList(sgl, OfElement(k, nth, off, len, left))
    ensures Flat(sgl, OfElement(k, nth, off, len, left)) == Run((sgl[k].page + nth) * PAGE + off, Min(len, left))
    decreases len
  {
    ElementParts(k, nth, off, len, left);
    if len > 0 && left > 0 {
      var bytes := Min(Min(len, PAGE - off), left);
      var rest := OfElement(k, nth + 1, 0, len - bytes, left - bytes);
      ElementCovered(sgl, k, nth + 1, 0, len - bytes, left - bytes);
      FlatFront(sgl, Seg(k, nth, off, bytes), rest);
      PageSplit(sgl[k].page + nth, off, bytes, Min(len, left));
    }
  }

  // Runs that end in a page and go on with the next.
  lemma PageSplit(page: nat, off: nat, bytes: nat, n: nat)
    requires bytes <= n && (bytes == n || off + bytes == PAGE)
    ensures Run(page * PAGE + off, n) == Run(page * PAGE + off, bytes) + Run((page + 1) * PAGE + 0, n - bytes)
  {
    RunSplit(page * PAGE + off, bytes, n);
  }

  lemma FlatFront(sgl: seq<Sg>, s: Seg, segs: seq<Seg>)
    requires s.sg < |sgl| && OfList(sgl, segs)
    ensures OfList(sgl, [s] + segs) && Flat(sgl, [s] + segs) == SegBytes(sgl, s) + Flat(sgl, segs)
  {
    assert ([s] + segs)[1..] == segs;
  }

  // Each segment is a non-empty run inside one page.
  lemma {:induction false} SegmentsInside(sgl: seq<Sg>, k: nat, left: nat)
    requires SgOk(sgl) && k <= |sgl|
    ensures var segs := Segs(sgl, k, left);
      && (forall i :: 0 <= i < |segs| ==> 0 < segs[i].length && segs[i].offset + segs[i].length <= PAGE)
      && OfList(sgl, segs)
    decreases |sgl| - k
  {
    if k < |sgl| {
      ElementParts(k, 0, sgl[k].offset, sgl[k].length, left);
      SegmentsInside(sgl, k + 1, left - Min(sgl[k].length, left));
    }
  }

  // The segments, in order, cover exactly the first min(data_len, total) bytes of the list.
  lemma {:induction false} SegmentsCover(sgl: seq<Sg>, k: nat, left: nat)
    requires SgOk(sgl) && k <= |sgl|
    ensures OfList(sgl, Segs(sgl, k, left))
    ensures Flat(sgl, Segs(sgl, k, left)) == SgBytes(sgl, k)[..Min(left, |SgBytes(sgl, k)|)]
    decreases |sgl| - k
  {
    SegmentsInside(sgl, k, left);
    if k < |sgl| {
      var n := Min(sgl[k].length, left);
      ElementCovered(sgl, k, 0, sgl[k].offset, sgl[k].length, left);
      SegmentsCover(sgl, k + 1, left - n);
      FlatConcat(sgl, OfElement(k, 0, sgl[k].offset, sgl[k].length, left), Segs(sgl, k + 1, left - n));
      TakeSplit(sgl, k, left);
    }
  }

  lemma TakeSplit(sgl: seq<Sg>, k: nat, left: nat)
    requires k < |sgl|
    ensures var (n, start) := (Min(sgl[k].length, left), sgl[k].page * PAGE + sgl[k].offset);
      SgBytes(sgl, k)[..Min(left, |SgBytes(sgl, k)|)]
      == Run(start, n) + SgBytes(sgl, k + 1)[..Min(left - n, |SgBytes(sgl, k + 1)|)]
  {
    var n, start := Min(sgl[k].length, left), sgl[k].page * PAGE + sgl[k].offset;
    RunSplit(start, n, sgl[k].length);
    assert SgBytes(sgl, k) == Run(start, sgl[k].length) + SgBytes(sgl, k + 1);
  }

  function Total(segs: seq<Seg>): nat { if segs == [] then 0 else segs[0].length + Total(segs[1..]) }

  lemma {:induction false} FlatLength(sgl: seq<Sg>, segs: seq<Seg>)
    requires OfList(sgl, segs)
    ensures |Flat(sgl, segs)| == Total(segs)
  {
    if segs != [] { FlatLength(sgl, segs[1..]); }
  }

  function SgTotal(sgl: seq<Sg>, k: nat): nat
    requires k <= |sgl|
    ensures SgTotal(sgl, k) == |SgBytes(sgl, k)|
    decreases |sgl| - k
  {
    if k == |sgl| then 0 else sgl[k].length + SgTotal(sgl, k + 1)
  }

  // The lengths sum to min(data_len, total).
  lemma SegmentsSum(sgl: seq<Sg>, dataLen: nat)
    requires SgOk(sgl)
    ensures Total(Segs(sgl, 0, dataLen)) == Min(dataLen, SgTotal(sgl, 0))
  {
    SegmentsCover(sgl, 0, dataLen);
    FlatLength(sgl, Segs(sgl, 0, dataLen));
  }

  /* ---- how many ---- */

  function PagesUp(n: nat): nat { (n + PAGE - 1) / PAGE }

  // An element takes one segment for each page its transferred bytes touch.
  lemma {:induction false} ElementPages(k: nat, nth: nat, off: nat, len: nat, left: nat)
    requires off < PAGE
    ensures |OfElement(k, nth, off, len, left)| == if len == 0 || left == 0 then 0 else PagesUp(off + Min(len, left))
    decreases len
  {
    if len > 0 && left > 0 {
      var bytes := Min(Min(len, PAGE - off), left);
      ElementPages(k, nth + 1, 0, len - bytes, left - bytes);
    }
  }

  // Pages touched, element by element.
  function PagesTouched(sgl: seq<Sg>, k: nat, left: nat): nat
    requires SgOk(sgl) && k <= |sgl|
    decreases |sgl| - k
  {
    if k == |sgl| then 0
    else
      (if sgl[k].length == 0 || left == 0 then 0 else PagesUp(sgl[k].offset + Min(sgl[k].length, left)))
      + PagesTouched(sgl, k + 1, left - Min(sgl[k].length, left))
  }

  lemma {:induction false} SegmentsAre(sgl: seq<Sg>, k: nat, left: nat)
    requires SgOk(sgl) && k <= |sgl|
    ensures |Segs(sgl, k, left)| == PagesTouched(sgl, k, left)
    decreases |sgl| - k
  {
    if k < |sgl| {
      ElementPages(k, 0, sgl[k].offset, sgl[k].length, left);
      SegmentsAre(sgl, k + 1, left - Min(sgl[k].length, left));
    }
  }

  // Bytes, of the pages touched from element k on, that are not transferred.
  function Unused(sgl: seq<Sg>, k: nat, left: nat): nat
    requires SgOk(sgl) && k <= |sgl|
    decreases |sgl| - k
  {
    if k == |sgl| then 0
    else
      ElementUnused(sgl[k].offset, Min(sgl[k].length, left)) + Unused(sgl, k + 1, left - Min(sgl[k].length, left))
  }

  function ElementUnused(off: nat, n: nat): nat { if n == 0 then 0 else off + Tail(off + n) }

  // From n to the next page boundary.
  function Tail(n: nat): nat { PagesUp(n) * PAGE - n }

  lemma ElementFull(k: nat, off: nat, len: nat, left: nat)
    requires off < PAGE
    ensures |OfElement(k, 0, off, len, left)| * PAGE == Min(len, left) + ElementUnused(off, Min(len, left))
  {
    ElementPages(k, 0, off, len, left);
  }

  lemma Sums(a: nat, b: nat, x: nat, y: nat, u: nat, v: nat)
    requires a * PAGE == x + u && b * PAGE == y + v
    ensures (a + b) * PAGE == (x + y) + (u + v)
  {
  }

  lemma {:induction false} PagesFull(sgl: seq<Sg>, k: nat, left: nat)
    requires SgOk(sgl) && k <= |sgl|
    ensures |Segs(sgl, k, left)| * PAGE == Min(left, SgTotal(sgl, k)) + Unused(sgl, k, left)
    decreases |sgl| - k
  {
    if k < |sgl| {
      var n := Min(sgl[k].length, left);
      var b := Segs(sgl, k + 1, left - n);
      ElementFull(k, sgl[k].offset, sgl[k].length, left);
      PagesFull(sgl, k + 1, left - n);
      Sums(|OfElement(k, 0, sgl[k].offset, sgl[k].length, left)|, |b|, n, Min(left - n, SgTotal(sgl, k + 1)),
           ElementUnused(sgl[k].offset, n), Unused(sgl, k + 1, left - n));
    }
  }

  // What is left unused between the first byte and the end of the last page, less what the list is
  // short of the data.
  function Gaps(sgl: seq<Sg>, left: nat): int
    requires SgOk(sgl) && sgl != []
  {
    Unused(sgl, 0, left) - sgl[0].offset + Min(left, SgTotal(sgl, 0)) - left
  }

  // The driver's size check looks at PFN_UP(data_len + offset of the first element), as if the list
  // were one buffer. There are more segments than that by one for each page's worth of gaps ..
  lemma CheckMisses(sgl: seq<Sg>, left: nat)
    requires SgOk(sgl) && sgl != []
    ensures |Segs(sgl, 0, left)| == PagesUp(left + sgl[0].offset) + Gaps(sgl, left) / PAGE
  {
    PagesFull(sgl, 0, left);
  }

  // .. so it counts them if and only if the gaps come to less than a page, ..
  lemma CheckCountsIff(sgl: seq<Sg>, left: nat)
    requires SgOk(sgl) && sgl != []
    ensures PagesUp(left + sgl[0].offset) == |Segs(sgl, 0, left)| <==> 0 <= Gaps(sgl, left) < PAGE
  {
    CheckMisses(sgl, left);
  }

  // .. as they do where every element but the first starts, and every one but the last ends, on a
  // page boundary.
  predicate Packed(sgl: seq<Sg>, k: nat, left: nat, first: bool)
    requires k <= |sgl|
    decreases |sgl| - k
  {
    k == |sgl| || left == 0
    || (if sgl[k].length == 0 then Packed(sgl, k + 1, left, first)
        else
          && (first || sgl[k].offset == 0)
          && (left <= sgl[k].length
              || ((sgl[k].offset + sgl[k].length) % PAGE == 0 && Packed(sgl, k + 1, left - sgl[k].length, false))))
  }

  lemma {:induction false} NothingLeft(sgl: seq<Sg>, k: nat)
    requires SgOk(sgl) && k <= |sgl|
    ensures Unused(sgl, k, 0) == 0
    decreases |sgl| - k
  {
    if k < |sgl| { NothingLeft(sgl, k + 1); }
  }

  lemma {:induction false} PackedUnused(sgl: seq<Sg>, k: nat, left: nat, first: bool)
    requires SgOk(sgl) && k <= |sgl| && Packed(sgl, k, left, first)
    ensures !first ==> Unused(sgl, k, left) < PAGE
    ensures first && k < |sgl| && 0 < sgl[k].length && 0 < left ==> Unused(sgl, k, left) < sgl[k].offset + PAGE
    decreases |sgl| - k
  {
    if left == 0 {
      NothingLeft(sgl, k);
    } else if k < |sgl| {
      if sgl[k].length == 0 {
        PackedUnused(sgl, k + 1, left, first);
      } else if left <= sgl[k].length {
        NothingLeft(sgl, k + 1);
      } else {
        PackedUnused(sgl, k + 1, left - sgl[k].length, false);
      }
    }
  }

  lemma PackedCounts(sgl: seq<Sg>, left: nat)
    requires SgOk(sgl) && sgl != [] && 0 < sgl[0].length && 0 < left <= SgTotal(sgl, 0) && Packed(sgl, 0, left, true)
    ensures PagesUp(left + sgl[0].offset) == |Segs(sgl, 0, left)|
  {
    PackedUnused(sgl, 0, left, true);
    assert Unused(sgl, 0, left) >= sgl[0].offset;
    CheckCountsIff(sgl, left);
  }

  // Two bytes across a page boundary take two segments; the check sees two pages for up to 2048 such
  // elements.
  lemma {:induction false} Straddling(sgl: seq<Sg>, k: nat)
    requires k <= |sgl| && forall i :: 0 <= i < |sgl| ==> sgl[i].offset == PAGE - 1 && sgl[i].length == 2
    ensures |Segs(sgl, k, 2 * (|sgl| - k))| == 2 * (|sgl| - k)
    ensures k < |sgl| <= PAGE / 2 ==> PagesUp(2 * (|sgl| - k) + sgl[k].offset) == 2
    decreases |sgl| - k
  {
    if k < |sgl| {
      ElementPages(k, 0, PAGE - 1, 2, 2 * (|sgl| - k));
      Straddling(sgl, k + 1);
    }
  }

  // With no element leaving its first page there are at most as many segments as elements.
  lemma {:induction false} AtMostElements(sgl: seq<Sg>, k: nat, left: nat)
    requires SgOk(sgl) && k <= |sgl| && FitsFirst(sgl, k, left)
    ensures |Segs(sgl, k, left)| <= |sgl| - k
    decreases |sgl| - k
  {
    if k < |sgl| {
      ElementPages(k, 0, sgl[k].offset, sgl[k].length, left);
      AtMostElements(sgl, k + 1, left - Min(sgl[k].length, left));
    }
  }

  /* ---- elements inside their first page ---- */

  // The transferred part of each element from k on lies in the element's first page.
  predicate FitsFirst(sgl: seq<Sg>, k: nat, left: nat)
    requires k <= |sgl|
    decreases |sgl| - k
  {
    k == |sgl|
    || ((Min(sgl[k].length, left) == 0 || sgl[k].offset + Min(sgl[k].length, left) <= PAGE)
        && FitsFirst(sgl, k + 1, left - Min(sgl[k].length, left)))
  }

  predicate FirstPages(segs: seq<Seg>) { forall i :: 0 <= i < |segs| ==> segs[i].nth == 0 }

  lemma {:induction false} FirstPagesIff(sgl: seq<Sg>, k: nat, left: nat)
    requires SgOk(sgl) && k <= |sgl|
    ensures FirstPages(Segs(sgl, k, left)) <==> FitsFirst(sgl, k, left)
    decreases |sgl| - k
  {
    if k < |sgl| {
      var a, b := OfElement(k, 0, sgl[k].offset, sgl[k].length, left),
          Segs(sgl, k + 1, left - Min(sgl[k].length, left));
      ElementPages(k, 0, sgl[k].offset, sgl[k].length, left);
      ElementParts(k, 0, sgl[k].offset, sgl[k].length, left);
      FirstPagesIff(sgl, k + 1, left - Min(sgl[k].length, left));
      assert FirstPages(a + b) <==> FirstPages(a) && FirstPages(b) by {
        if FirstPages(a + b) {
          forall i | 0 <= i < |a| ensures a[i].nth == 0 { assert (a + b)[i] == a[i]; }
          forall i | 0 <= i < |b| ensures b[i].nth == 0 { assert (a + b)[|a| + i] == b[i]; }
        }
      }
      if |a| > 1 { assert a[1].nth == 1; }
    }
  }

  lemma SameParts(a: seq<nat>, x: seq<nat>, b: seq<nat>, y: seq<nat>)
    requires |a| == |b|
    ensures a + x == b + y <==> a == b && x == y
  {
    if a + x == b + y {
      assert a == (a + x)[..|a|] && b == (b + y)[..|b|];
      assert x == (a + x)[|a|..] && y == (b + y)[|b|..];
    }
  }

  lemma SameRuns(s: nat, t: nat, n: nat)
    requires n > 0
    ensures Run(s, n) == Run(t, n) <==> s == t
  {
    assert Run(s, n)[0] == s && Run(t, n)[0] == t;
  }

  /* ---- finding an element's segment by the element's number ---- */

  // Completion of a read takes grant i for element i.
  predicate SameNumbers(segs: seq<Seg>, from: nat) { forall i :: 0 <= i < |segs| ==> segs[i].sg == from + i }

  // An element without bytes comes only after all that are transferred.
  predicate EmptyLast(sgl: seq<Sg>, k: nat, left: nat)
    requires k <= |sgl|
    decreases |sgl| - k
  {
    k == |sgl| || left == 0
    || (if sgl[k].length == 0 then SgTotal(sgl, k + 1) == 0
        else EmptyLast(sgl, k + 1, left - Min(sgl[k].length, left)))
  }

  lemma {:induction false} NoBytesNoSegments(sgl: seq<Sg>, k: nat, left: nat)
    requires SgOk(sgl) && k <= |sgl|
    ensures Segs(sgl, k, left) == [] <==> left == 0 || SgTotal(sgl, k) == 0
    decreases |sgl| - k
  {
    if k < |sgl| {
      var n := Min(sgl[k].length, left);
      ElementParts(k, 0, sgl[k].offset, sgl[k].length, left);
      NoBytesNoSegments(sgl, k + 1, left - n);
      BothEmpty(OfElement(k, 0, sgl[k].offset, sgl[k].length, left), Segs(sgl, k + 1, left - n));
    }
  }

  lemma BothEmpty(a: seq<Seg>, b: seq<Seg>)
    ensures a + b == [] <==> a == [] && b == []
  {
    if a != [] { assert (a + b)[0] == a[0]; }
    if b != [] { assert (a + b)[|a|] == b[0]; }
  }

  lemma {:induction false} LaterElements(sgl: seq<Sg>, k: nat, left: nat)
    requires SgOk(sgl) && k <= |sgl|
    ensures forall i :: 0 <= i < |Segs(sgl, k, left)| ==> Segs(sgl, k, left)[i].sg >= k
    decreases |sgl| - k
  {
    if k < |sgl| {
      ElementParts(k, 0, sgl[k].offset, sgl[k].length, left);
      LaterElements(sgl, k + 1, left - Min(sgl[k].length, left));
    }
  }

  lemma OneSegment(k: nat, off: nat, len: nat, left: nat)
    requires off < PAGE && 0 < Min(len, left) <= PAGE - off
    ensures OfElement(k, 0, off, len, left) == [Seg(k, 0, off, Min(len, left))]
  {
  }

  lemma SameNumbersFront(s: Seg, b: seq<Seg>, k: nat)
    ensures SameNumbers([s] + b, k) <==> s.sg == k && SameNumbers(b, k + 1)
  {
    if SameNumbers([s] + b, k) {
      assert ([s] + b)[0].sg == k;
      forall i | 0 <= i < |b| ensures b[i].sg == k + 1 + i { assert ([s] + b)[i + 1].sg == k + (i + 1); }
    }
  }

  lemma SameNumbersNot(b: seq<Seg>, k: nat)
    requires forall i :: 0 <= i < |b| ==> b[i].sg >= k + 1
    ensures SameNumbers(b, k) <==> b == []
  {
    if b != [] { assert b[0].sg >= k + 1; }
  }

  // The first element gives one segment, or none.
  lemma SegsFront(sgl: seq<Sg>, k: nat, left: nat)
    requires SgOk(sgl) && k < |sgl| && FitsFirst(sgl, k, left)
    ensures var (n, b) := (Min(sgl[k].length, left), Segs(sgl, k + 1, left - Min(sgl[k].length, left)));
      Segs(sgl, k, left) == if n > 0 then [Seg(k, 0, sgl[k].offset, n)] + b else b
  {
    var n, b := Min(sgl[k].length, left), Segs(sgl, k + 1, left - Min(sgl[k].length, left));
    if n > 0 { OneSegment(k, sgl[k].offset, sgl[k].length, left); } else { assert [] + b == b; }
  }

  lemma NumbersOf(all: seq<Seg>, b: seq<Seg>, s: Seg, k: nat, some: bool)
    requires all == (if some then [s] + b else b) && s.sg == k && forall i :: 0 <= i < |b| ==> b[i].sg >= k + 1
    ensures SameNumbers(all, k) <==> if some then SameNumbers(b, k + 1) else b == []
  {
    if some { SameNumbersFront(s, b, k); } else { SameNumbersNot(b, k); }
  }

  lemma NumbersStep(sgl: seq<Sg>, k: nat, left: nat)
    requires SgOk(sgl) && k < |sgl| && FitsFirst(sgl, k, left)
    ensures var b := Segs(sgl, k + 1, left - Min(sgl[k].length, left));
      SameNumbers(Segs(sgl, k, left), k) <==>
      if Min(sgl[k].length, left) > 0 then SameNumbers(b, k + 1) else b == []
  {
    var n := Min(sgl[k].length, left);
    SegsFront(sgl, k, left);
    LaterElements(sgl, k + 1, left - n);
    NumbersOf(Segs(sgl, k, left), Segs(sgl, k + 1, left - n), Seg(k, 0, sgl[k].offset, n), k, n > 0);
  }

  lemma EmptyLastStep(sgl: seq<Sg>, k: nat, left: nat)
    requires k < |sgl|
    ensures EmptyLast(sgl, k, left) <==>
      if Min(sgl[k].length, left) > 0 then EmptyLast(sgl, k + 1, left - Min(sgl[k].length, left))
      else left == 0 || SgTotal(sgl, k + 1) == 0
  {
  }

  // What the copy of a read demands of each element it reaches.
  predicate WholeInPage(sgl: seq<Sg>, k: nat, left: nat)
    requires k <= |sgl|
    decreases |sgl| - k
  {
    k == |sgl|
    || ((Min(sgl[k].length, left) == 0 || sgl[k].offset + sgl[k].length <= PAGE)
        && WholeInPage(sgl, k + 1, left - Min(sgl[k].length, left)))
  }

  lemma {:induction false} WholeFitsFirst(sgl: seq<Sg>, k: nat, left: nat)
    requires SgOk(sgl) && k <= |sgl| && WholeInPage(sgl, k, left)
    ensures FitsFirst(sgl, k, left)
    decreases |sgl| - k
  {
    if k < |sgl| { WholeFitsFirst(sgl, k + 1, left - Min(sgl[k].length, left)); }
  }

  // Where no element reached goes beyond its page, or the copy stops, grant i is element i's exactly
  // when elements without bytes come last.
  lemma SameNumbersIff(sgl: seq<Sg>, left: nat)
    requires SgOk(sgl) && WholeInPage(sgl, 0, left)
    ensures SameNumbers(Segs(sgl, 0, left), 0) <==> EmptyLast(sgl, 0, left)
  {
    WholeFitsFirst(sgl, 0, left);
    NumbersFrom(sgl, 0, left);
  }

  lemma {:induction false} NumbersFrom(sgl: seq<Sg>, k: nat, left: nat)
    requires SgOk(sgl) && k <= |sgl| && FitsFirst(sgl, k, left)
    ensures SameNumbers(Segs(sgl, k, left), k) <==> EmptyLast(sgl, k, left)
    decreases |sgl| - k
  {
    if k < |sgl| {
      var rest := left - Min(sgl[k].length, left);
      NumbersStep(sgl, k, left);
      EmptyLastStep(sgl, k, left);
      NoBytesNoSegments(sgl, k + 1, rest);
      NumbersFrom(sgl, k + 1, rest);
    }
  }

  // An element without bytes between two others: the second segment, and so the second grant, is
  // the third element's, while the copy for that element takes a third grant.
  lemma EmptyBetween(a: Sg, b: Sg, empty: Sg)
    requires a.offset + a.length <= PAGE && b.offset + b.length <= PAGE && a.length > 0 && b.length > 0
    requires empty.offset < PAGE && empty.length == 0
    ensures var (sgl, left) := ([a, empty, b], a.length + b.length);
      && SgOk(sgl) && WholeInPage(sgl, 0, left)
      && Segs(sgl, 0, left) == [Seg(0, 0, a.offset, a.length), Seg(2, 0, b.offset, b.length)]
      && !SameNumbers(Segs(sgl, 0, left), 0)
  {
    var sgl, left := [a, empty, b], a.length + b.length;
    assert WholeInPage(sgl, 3, 0) && WholeInPage(sgl, 2, b.length) && WholeInPage(sgl, 1, b.length);
    OneSegment(0, a.offset, a.length, left);
    OneSegment(2, b.offset, b.length, b.length);
    assert Segs(sgl, 3, 0) == [];
    assert Segs(sgl, 2, b.length) == [Seg(2, 0, b.offset, b.length)];
    assert Segs(sgl, 1, b.length) == Segs(sgl, 2, b.length);
    var segs := Segs(sgl, 0, left);
    assert segs[1].sg == 2;
  }

  /* ---- indirect frames ---- */

  // Segment k goes to slot k % SEGS_PER_FRAME of frame k / SEGS_PER_FRAME.
  function Frames<T>(segs: seq<T>): seq<seq<T>>
  {
    if segs == [] then []
    else if |segs| <= SEGS_PER_FRAME then [segs]
    else [segs[..SEGS_PER_FRAME]] + Frames(segs[SEGS_PER_FRAME..])
  }

  function IndirectPages(n: nat): nat { (n + SEGS_PER_FRAME - 1) / SEGS_PER_FRAME }

  // Reading the frames at (k / SEGS, k % SEGS) gives back segment k.
  lemma {:induction false} FrameReadsBack<T>(segs: seq<T>, k: nat)
    requires k < |segs|
    ensures |Frames(segs)| == IndirectPages(|segs|)
    ensures k / SEGS_PER_FRAME < |Frames(segs)|
    ensures k % SEGS_PER_FRAME < |Frames(segs)[k / SEGS_PER_FRAME]|
    ensures Frames(segs)[k / SEGS_PER_FRAME][k % SEGS_PER_FRAME] == segs[k]
  {
    if |segs| > SEGS_PER_FRAME {
      if k >= SEGS_PER_FRAME {
        FrameReadsBack(segs[SEGS_PER_FRAME..], k - SEGS_PER_FRAME);
      } else {
        FrameReadsBack(segs[SEGS_PER_FRAME..], 0);
      }
    }
  }

  // Emitting one more segment opens a frame when the last is full, and else fills it up.
  lemma {:induction false} FramesGrow<T>(segs: seq<T>, x: T)
    ensures |segs| % SEGS_PER_FRAME == 0 ==> Frames(segs + [x]) == Frames(segs) + [[x]]
    ensures |segs| % SEGS_PER_FRAME != 0 ==>
              |Frames(segs)| > 0
              && Frames(segs + [x]) == Frames(segs)[|Frames(segs)| - 1 := Frames(segs)[|Frames(segs)| - 1] + [x]]
  {
    if |segs| > SEGS_PER_FRAME {
      FramesGrow(segs[SEGS_PER_FRAME..], x);
      assert (segs + [x])[SEGS_PER_FRAME..] == segs[SEGS_PER_FRAME..] + [x];
      assert (segs + [x])[..SEGS_PER_FRAME] == segs[..SEGS_PER_FRAME];
    } else if |segs| == SEGS_PER_FRAME {
      assert (segs + [x])[SEGS_PER_FRAME..] == [x] && (segs + [x])[..SEGS_PER_FRAME] == segs;
      assert Frames([x]) == [[x]];
    } else if segs == [] {
      assert segs + [x] == [x] && Frames([x]) == [[x]];
    }
  }

  lemma FramesCount(c: nat, n: nat)
    requires c < n
    ensures IndirectPages(c + 1) == IndirectPages(c) + (if c % SEGS_PER_FRAME == 0 then 1 else 0)
    ensures IndirectPages(c + 1) <= IndirectPages(n)
  {
  }
}
