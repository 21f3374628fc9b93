/** The front end's mapping and completion of requests, with the pool and the shadow array changed in place. */
module ScsiFront {
  import opened Basics
  import opened ScsiGrantPool
  import S = ScsiSegments

  // A segment as the back end reads it.
  datatype Slot = Slot(gref: nat, offset: nat, length: nat)

  datatype Mapped =
    | Direct(slots: seq<Slot>)
    | Indirect(frames: seq<seq<Slot>>, grefs: seq<nat>)   // the frames, and their own grants
    | NoMemory                                            // -ENOMEM
    | TooBig                                              // -E2BIG

  predicate OpensFrame(indirect: bool, c: nat) { indirect && c % S.SEGS_PER_FRAME == 0 }
  function GrantsAt(indirect: bool, c: nat): nat { if OpensFrame(indirect, c) then 2 else 1 }

  // A request being filled in: what it is given, and the references still set aside for it.
  datatype Filling = Filling(slots: seq<Slot>, frames: seq<seq<Slot>>, used: seq<Gnt>, ind: seq<Gnt>, refs: seq<nat>)

  // Segment by segment, a grant of its own, the offset and the length; the frames hold the same.
  ghost predicate Emitted(segs: seq<S.Seg>, indirect: bool, q: Filling)
  {
    && |q.slots| == |q.used| == |segs|
    && (forall k :: 0 <= k < |segs| ==> q.slots[k] == Slot(q.used[k].gref, segs[k].offset, segs[k].length))
    && (forall k :: 0 <= k < |q.used| ==> q.used[k].gref != INVALID_REF)
    && (forall k :: 0 <= k < |q.ind| ==> q.ind[k].gref != INVALID_REF)
    && |q.ind| == (if indirect then S.IndirectPages(|q.used|) else 0)
    && q.frames == if indirect then S.Frames(q.slots) else []
  }

  ghost predicate GivenFor(q: Filling, q': Filling, g: Gnt, off: nat, bytes: nat)
  {
    g.gref != INVALID_REF && q'.used == q.used + [g] && q'.slots == q.slots + [Slot(g.gref, off, bytes)]
  }

  ghost predicate SegNext(indirect: bool, q: Filling, q': Filling, off: nat, bytes: nat)
  {
    && (exists g: Gnt :: GivenFor(q, q', g, off, bytes))
    && q'.frames == if indirect then S.Frames(q'.slots) else []
  }

  lemma EmittedNext(segs: seq<S.Seg>, seg: S.Seg, indirect: bool, q: Filling, q': Filling)
    requires Emitted(segs, indirect, q)
    requires SegNext(indirect, q, q', seg.offset, seg.length) && IndNext(indirect, q, q')
    ensures Emitted(segs + [seg], indirect, q')
  {
    S.FramesCount(|segs|, |segs| + 1);
  }

  ghost predicate IndNext(indirect: bool, q: Filling, q': Filling)
  {
    if OpensFrame(indirect, |q.used|) then exists f: Gnt :: f.gref != INVALID_REF && q'.ind == q.ind + [f]
    else q'.ind == q.ind
  }

  // With fewer than n segments emitted there is room for the next.
  lemma RoomForNext(c: nat, n: nat, indirect: bool)
    requires c < n && (indirect <==> n > S.SG_TABLESIZE)
    ensures var f := if indirect then S.IndirectPages(c) else 0;
      && c + f + GrantsAt(indirect, c) <= GrantsFor(n)
      && (OpensFrame(indirect, c) ==> f < FramesFor(n))
  {
    S.FramesCount(c, n);
  }

  // What a request takes is gone from the front of the pool; claims begin where the persistent
  // grants end; without persistent grants its frames are pages set aside.
  datatype Supply = Supply(grants: seq<Gnt>, persistent: nat, pages: seq<nat>)

  ghost predicate TookGrants(was: Supply, now: Supply, n: nat)
  {
    Rest(was.grants, now.grants, n) && now.persistent == Less(was.persistent, n)
  }

  ghost predicate TookRefs(was: Supply, refs: seq<nat>, left: seq<nat>, n: nat)
  {
    Rest(refs, left, Less(n, was.persistent))
  }

  ghost predicate TookPages(mode: bool, was: Supply, now: Supply, f: nat)
  {
    if mode then now.pages == was.pages else Rest(was.pages, now.pages, f)
  }

  // n grants taken, of which f for frames.
  ghost predicate Took(mode: bool, was: Supply, refs: seq<nat>, now: Supply, left: seq<nat>, n: nat, f: nat)
  {
    TookGrants(was, now, n) && TookRefs(was, refs, left, n) && TookPages(mode, was, now, f)
  }

  ghost predicate TookBy(mode: bool, was: Supply, refs: seq<nat>, now: Supply, q: Filling)
  {
    Took(mode, was, refs, now, q.refs, |q.used| + |q.ind|, |q.ind|)
  }

  lemma TookMore(mode: bool, was: Supply, refs: seq<nat>, now: Supply, left: seq<nat>, n: nat, f: nat,
                 now': Supply, left': seq<nat>, k: nat, h: nat)
    requires Took(mode, was, refs, now, left, n, f) && Took(mode, now, left, now', left', k, h)
    ensures Took(mode, was, refs, now', left', n + k, f + h)
  {
    GrantsNext(was, now, now', n, k);
    RefsNext(was, refs, now, left, left', n, k);
    PagesNext(mode, was, now, now', f, h);
  }

  // Where there was enough for n segments and fewer are emitted, there is enough for the next.
  lemma EnoughForNext(segs: seq<S.Seg>, indirect: bool, q: Filling, n: nat, mode: bool, was: Supply, refs: seq<nat>,
                      now: Supply)
    requires Emitted(segs, indirect, q) && |segs| < n && (indirect <==> n > S.SG_TABLESIZE)
    requires TookBy(mode, was, refs, now, q)
    requires GrantsFor(n) <= |was.grants| && GrantsFor(n) <= was.persistent + |refs|
    requires !mode ==> FramesFor(n) <= |was.pages|
    ensures GrantsAt(indirect, |q.used|) <= |now.grants| && GrantsAt(indirect, |q.used|) <= now.persistent + |q.refs|
    ensures OpensFrame(indirect, |q.used|) && !mode ==> now.pages != []
  {
    RoomForNext(|segs|, n, indirect);
    RefsLeft(was.persistent, |refs|, |q.used| + |q.ind|, GrantsAt(indirect, |q.used|));
  }

  lemma RefsLeft(p: nat, r: nat, n: nat, k: nat)
    requires n + k <= p + r
    ensures Less(n, p) <= r && k <= Less(p, n) + (r - Less(n, p))
  {
  }

  lemma OneFilled(indirect: bool, q: Filling, q': Filling, off: nat, bytes: nat)
    requires IndNext(indirect, q, q') && SegNext(indirect, q, q', off, bytes)
    ensures |q'.ind| == |q.ind| + GrantsAt(indirect, |q.used|) - 1
    ensures |q'.used| + |q'.ind| == |q.used| + |q.ind| + GrantsAt(indirect, |q.used|)
  {
  }

  lemma TookNext(mode: bool, was: Supply, refs: seq<nat>, now: Supply, q: Filling, now': Supply, q': Filling, k: nat)
    requires TookBy(mode, was, refs, now, q)
    requires k > 0 && |q'.ind| == |q.ind| + k - 1 && |q'.used| + |q'.ind| == |q.used| + |q.ind| + k
    requires Took(mode, now, q.refs, now', q'.refs, k, k - 1)
    ensures TookBy(mode, was, refs, now', q')
  {
    TookMore(mode, was, refs, now, q.refs, |q.used| + |q.ind|, |q.ind|, now', q'.refs, k, k - 1);
  }

  lemma GrantsNext(was: Supply, now: Supply, now': Supply, n: nat, k: nat)
    requires TookGrants(was, now, n) && TookGrants(now, now', k)
    ensures TookGrants(was, now', n + k)
  {
    RestOfRest(was.grants, now.grants, now'.grants, n, k);
  }

  lemma RefsNext(was: Supply, refs: seq<nat>, now: Supply, left: seq<nat>, left': seq<nat>, n: nat, k: nat)
    requires TookRefs(was, refs, left, n) && TookRefs(now, left, left', k)
    requires now.persistent == Less(was.persistent, n)
    ensures TookRefs(was, refs, left', n + k)
  {
    LessLess(n, k, was.persistent);
    RestOfRest(refs, left, left', Less(n, was.persistent), Less(k, now.persistent));
  }

  lemma LessLess(n: nat, k: nat, p: nat)
    ensures Less(n + k, p) == Less(n, p) + Less(k, Less(p, n))
  {
  }

  lemma PagesNext(mode: bool, was: Supply, now: Supply, now': Supply, f: nat, h: nat)
    requires TookPages(mode, was, now, f) && TookPages(mode, now, now', h)
    ensures TookPages(mode, was, now', f + h)
  {
    if !mode { RestOfRest(was.pages, now.pages, now'.pages, f, h); }
  }

  /* ---- which grants ---- */

  // The grant j places behind the front of the pool, as get_grant hands it out: a persistent one as
  // it is; another with the next reference, and, without persistent grants, for frame pfn.
  ghost predicate Granted(mode: bool, s: Supply, refs: seq<nat>, j: nat, g: Gnt, pfn: nat)
  {
    && j < |s.grants|
    && if j < s.persistent then g == s.grants[j]
       else j - s.persistent < |refs| && g == Gnt(refs[j - s.persistent], if mode then s.grants[j].pfn else pfn)
  }

  lemma GrantedLater(mode: bool, was: Supply, refs: seq<nat>, now: Supply, left: seq<nat>, n: nat, j: nat, g: Gnt,
                     pfn: nat)
    requires TookGrants(was, now, n) && TookRefs(was, refs, left, n) && Granted(mode, now, left, j, g, pfn)
    ensures Granted(mode, was, refs, n + j, g, pfn)
  {
  }

  // The places of segment k's grant and of frame f's: each frame's comes before its segments'.
  function PlaceOf(indirect: bool, k: nat): nat { if indirect then k + k / S.SEGS_PER_FRAME + 1 else k }
  function FramePlace(f: nat): nat { f * (S.SEGS_PER_FRAME + 1) }

  // Each segment's grant was asked for with the first page of its element ..
  ghost predicate DataGranted(mode: bool, was: Supply, refs: seq<nat>, sgl: seq<S.Sg>, segs: seq<S.Seg>,
                              indirect: bool, used: seq<Gnt>)
  {
    && |used| == |segs| && S.OfList(sgl, segs)
    && forall k :: 0 <= k < |segs| ==>
         Granted(mode, was, refs, PlaceOf(indirect, k), used[k], sgl[segs[k].sg].page)
  }

  // .. and each frame's, without persistent grants, with the next page set aside.
  ghost predicate FramesGranted(mode: bool, was: Supply, refs: seq<nat>, ind: seq<Gnt>)
  {
    forall f :: 0 <= f < |ind| ==> FrameGranted(mode, was, refs, f, FramePlace(f), ind[f])
  }

  ghost predicate FrameGranted(mode: bool, was: Supply, refs: seq<nat>, f: nat, j: nat, g: Gnt)
  {
    if mode then Granted(mode, was, refs, j, g, 0)
    else f < |was.pages| && Granted(mode, was, refs, j, g, was.pages[f])
  }

  ghost predicate GrantedNext(mode: bool, now: Supply, indirect: bool, q: Filling, q': Filling, pfn: nat)
  {
    && |q'.used| == |q.used| + 1
    && Granted(mode, now, q.refs, GrantsAt(indirect, |q.used|) - 1, q'.used[|q.used|], pfn)
    && (OpensFrame(indirect, |q.used|) ==>
          |q'.ind| == |q.ind| + 1 && FrameGranted(mode, now, q.refs, 0, 0, q'.ind[|q.ind|]))
  }

  lemma Places(c: nat)
    ensures c + S.IndirectPages(c) + GrantsAt(true, c) - 1 == PlaceOf(true, c)
    ensures c % S.SEGS_PER_FRAME == 0 ==> c + S.IndirectPages(c) == FramePlace(S.IndirectPages(c))
  {
  }

  lemma DataGrantedNext(mode: bool, was: Supply, refs: seq<nat>, sgl: seq<S.Sg>, segs: seq<S.Seg>, seg: S.Seg,
                        indirect: bool, used: seq<Gnt>, g: Gnt)
    requires DataGranted(mode, was, refs, sgl, segs, indirect, used) && seg.sg < |sgl|
    requires Granted(mode, was, refs, PlaceOf(indirect, |used|), g, sgl[seg.sg].page)
    ensures DataGranted(mode, was, refs, sgl, segs + [seg], indirect, used + [g])
  {
  }

  lemma FramesGrantedNext(mode: bool, was: Supply, refs: seq<nat>, ind: seq<Gnt>, g: Gnt)
    requires FramesGranted(mode, was, refs, ind) && FrameGranted(mode, was, refs, |ind|, FramePlace(|ind|), g)
    ensures FramesGranted(mode, was, refs, ind + [g])
  {
  }

  lemma FrameGrantedLater(mode: bool, was: Supply, refs: seq<nat>, now: Supply, left: seq<nat>, n: nat, f: nat, g: Gnt)
    requires Took(mode, was, refs, now, left, n, f) && FrameGranted(mode, now, left, 0, 0, g)
    ensures FrameGranted(mode, was, refs, f, n, g)
  {
    GrantedLater(mode, was, refs, now, left, n, 0, g, if mode then 0 else now.pages[0]);
  }

  ghost predicate AllGranted(mode: bool, was: Supply, refs: seq<nat>, sgl: seq<S.Sg>, segs: seq<S.Seg>,
                             indirect: bool, q: Filling)
  {
    DataGranted(mode, was, refs, sgl, segs, indirect, q.used) && FramesGranted(mode, was, refs, q.ind)
  }

  lemma AllGrantedNext(mode: bool, was: Supply, refs: seq<nat>, sgl: seq<S.Sg>, segs: seq<S.Seg>, seg: S.Seg,
                       indirect: bool, now: Supply, q: Filling, q': Filling)
    requires AllGranted(mode, was, refs, sgl, segs, indirect, q) && seg.sg < |sgl|
    requires TookBy(mode, was, refs, now, q) && |q.ind| == (if indirect then S.IndirectPages(|q.used|) else 0)
    requires SegNext(indirect, q, q', seg.offset, seg.length) && IndNext(indirect, q, q')
    requires GrantedNext(mode, now, indirect, q, q', sgl[seg.sg].page)
    ensures AllGranted(mode, was, refs, sgl, segs + [seg], indirect, q')
  {
    var n, c, g := |q.used| + |q.ind|, |q.used|, q'.used[|q.used|];
    if indirect { Places(c); }
    GrantedLater(mode, was, refs, now, q.refs, n, GrantsAt(indirect, c) - 1, g, sgl[seg.sg].page);
    DataGrantedNext(mode, was, refs, sgl, segs, seg, indirect, q.used, g);
    if OpensFrame(indirect, c) {
      FrameGrantedLater(mode, was, refs, now, q.refs, n, |q.ind|, q'.ind[|q.ind|]);
      FramesGrantedNext(mode, was, refs, q.ind, q'.ind[|q.ind|]);
    }
  }

  // What a request was given it holds in flight.
  lemma MappedConserves(c: Config, segs: seq<S.Seg>, was: Supply, now: Supply, refs: seq<nat>,
                        before: seq<Option<Shadow>>, id: nat, q: Filling)
    requires ConfigOk(c) && Conserved(c, was.grants, before) && id < |before| && before[id] == None
    requires |segs| <= SegLimit(c) && Emitted(segs, |segs| > S.SG_TABLESIZE, q)
    requires TookBy(c.persistentMode, was, refs, now, q)
    ensures Conserved(c, now.grants, before[id := Some(Shadow(q.used, q.ind))])
    ensures Sum(before[id := Some(Shadow(q.used, q.ind))], FramesHeld) == Sum(before, FramesHeld) + |q.ind|
    ensures |now.pages| == if c.persistentMode then |was.pages| else |was.pages| - |q.ind|
  {
    SumUpdate(before, id, Some(Shadow(q.used, q.ind)), Held);
    SumUpdate(before, id, Some(Shadow(q.used, q.ind)), FramesHeld);
  }

  // The back end's offer counts above the direct limit, up to the driver's own.
  function NegotiatedSegments(offered: Option<nat>): (n: nat)
    ensures offered == None || offered.value <= S.SG_TABLESIZE ==> n == 0
    ensures offered.Some? && S.SG_TABLESIZE < offered.value <= MAX_INDIRECT ==> n == offered.value
    ensures offered.Some? && offered.value >= MAX_INDIRECT ==> n == MAX_INDIRECT
  {
    if offered.Some? && offered.value > S.SG_TABLESIZE then Min(offered.value, MAX_INDIRECT) else 0
  }

  // The pages of the grants that were ended, the last in front.
  function EndedPages(gs: seq<Gnt>, mapped: seq<bool>): seq<nat>
    requires |gs| == |mapped|
    decreases |gs|
  {
    if gs == [] then []
    else
      (if mapped[|gs| - 1] then [] else [gs[|gs| - 1].pfn]) + EndedPages(gs[..|gs| - 1], mapped[..|gs| - 1])
  }

  class Front {
    const cfg: Config
    const shadow: array<Option<Shadow>>
    var grants: seq<Gnt>             // info->grants
    var persistent: nat              // persistent_gnts_c
    var indirectPages: seq<nat>      // info->indirect_pages
    ghost var leaked: nat            // indirect pages not given back

    // Without persistent grants, indirect frames come from pages set aside for them.
    ghost predicate FramesConserved()
      reads this, shadow
    {
      !cfg.persistentMode && cfg.maxIndirect != 0 ==>
        |indirectPages| + Sum(shadow[..], FramesHeld) + leaked == S.IndirectPages(SegLimit(cfg)) * cfg.ringSize
    }

    ghost predicate Valid()
      reads this, shadow
    {
      && ConfigOk(cfg)
      && PoolOk(grants, persistent)
      && Conserved(cfg, grants, shadow[..])
      && FramesConserved()
    }

    // The sizing of scsifront_setup_indirect; `offered` is what the back end advertises.
    constructor (persistentMode: bool, ringSize: nat, offered: Option<nat>, pfns: seq<nat>, pages: seq<nat>)
      requires ringSize >= 1
      requires var limit := SegLimit(Config(persistentMode, NegotiatedSegments(offered), ringSize));
        |pfns| == (limit + S.IndirectPages(limit)) * ringSize && |pages| == S.IndirectPages(limit) * ringSize
      ensures Valid() && fresh(shadow)
      ensures cfg == Config(persistentMode, NegotiatedSegments(offered), ringSize)
      ensures persistent == 0 && |grants| == |pfns| && leaked == 0
      ensures forall i :: 0 <= i < |pfns| ==> grants[i] == Gnt(INVALID_REF, pfns[|pfns| - 1 - i])
      ensures indirectPages == if !persistentMode && NegotiatedSegments(offered) != 0 then pages else []
      ensures forall id :: 0 <= id < ringSize ==> shadow[id] == None
    {
      var maxIndirect := 0;
      if offered.Some? && offered.value > S.SG_TABLESIZE { maxIndirect := Min(offered.value, MAX_INDIRECT); }
      cfg := Config(persistentMode, maxIndirect, ringSize);
      shadow := new Option<Shadow>[ringSize](_ => None);
      persistent, leaked := 0, 0;
      indirectPages := if !persistentMode && maxIndirect != 0 then pages else [];
      grants := [];
      new;
      var _, _ := FillGrantBuffer(pfns, |pfns|);
      NothingHeld(shadow[..]);
    }

    // fill_grant_buffer, when memory runs out after `avail` grants. On failure all that is in the
    // pool is freed, and `short` is what its last check compares with 0: that check holds exactly
    // if the pool was empty to begin with.
    method FillGrantBuffer(pfns: seq<nat>, avail: nat) returns (ok: bool, short: int)
      modifies this`grants
      ensures ok <==> |pfns| <= avail
      ensures ok ==> |grants| == |pfns| + |old(grants)| && grants[|pfns|..] == old(grants)
                     && forall i :: 0 <= i < |pfns| ==> grants[i] == Gnt(INVALID_REF, pfns[|pfns| - 1 - i])
      ensures !ok ==> grants == [] && (short == 0 <==> old(grants) == [])
    {
      var i := 0;
      while i < |pfns| && i < avail
        invariant i <= |pfns| && i <= avail && |grants| == i + |old(grants)| && grants[i..] == old(grants)
        invariant forall j :: 0 <= j < i ==> grants[j] == Gnt(INVALID_REF, pfns[i - 1 - j])
      {
        grants := [Gnt(INVALID_REF, pfns[i])] + grants;
        i := i + 1;
      }
      ok, short := i == |pfns|, i;
      if !ok {
        while grants != []
          invariant short == |grants| - |old(grants)|
          decreases |grants|
        {
          grants := grants[1..];
          short := short - 1;
        }
      }
    }

    // get_grant
    method GetGrant(refs: seq<nat>, pfn: nat) returns (g: Gnt, left: seq<nat>)
      requires PoolOk(grants, persistent) && RefsOk(refs)
      requires grants != [] && (persistent == 0 ==> refs != [])
      modifies this`grants, this`persistent
      ensures TakeOne(Taking(old(grants), old(persistent), refs, []), cfg.persistentMode, pfn)
              == Some(Taking(grants, persistent, left, [g]))
      ensures PoolOk(grants, persistent) && RefsOk(left) && g.gref != INVALID_REF
      ensures Took(cfg.persistentMode, old(Now()), refs, Now(), left, 1, 0)
      ensures Granted(cfg.persistentMode, old(Now()), refs, 0, g, pfn)
    {
      g, left := grants[0], refs;
      grants := grants[1..];
      if g.gref != INVALID_REF {
        persistent := persistent - 1;
        assert [] + [g] == [g];
        return;
      }
      g := Gnt(refs[0], if cfg.persistentMode then g.pfn else pfn);
      left := refs[1..];
      assert [] + [g] == [g];
    }

    // The grant for a frame.
    method TakeFrame(refs: seq<nat>) returns (f: Gnt, left: seq<nat>)
      requires PoolOk(grants, persistent) && RefsOk(refs)
      requires grants != [] && (persistent == 0 ==> refs != [])
      requires !cfg.persistentMode ==> indirectPages != []
      modifies this`grants, this`persistent, this`indirectPages
      ensures PoolOk(grants, persistent) && RefsOk(left) && f.gref != INVALID_REF
      ensures FrameGranted(cfg.persistentMode, old(Now()), refs, 0, 0, f)
      ensures Took(cfg.persistentMode, old(Now()), refs, Now(), left, 1, 1)
    {
      var page := 0;
      if !cfg.persistentMode {
        page := indirectPages[0];
        indirectPages := indirectPages[1..];
      }
      f, left := GetGrant(refs, page);
    }

    // What n more grants would need.
    predicate Has(refs: seq<nat>, n: nat)
      reads this
    {
      PoolOk(grants, persistent) && RefsOk(refs) && n <= |grants| && n <= persistent + |refs|
    }

    // The grants for segment number c: one for a new indirect frame, where it opens one, and its own.
    method TakeGrants(indirect: bool, c: nat, refs: seq<nat>, pfn: nat)
      returns (frame: Option<Gnt>, g: Gnt, left: seq<nat>)
      requires Has(refs, GrantsAt(indirect, c))
      requires OpensFrame(indirect, c) && !cfg.persistentMode ==> indirectPages != []
      modifies this`grants, this`persistent, this`indirectPages
      ensures frame.Some? <==> OpensFrame(indirect, c)
      ensures frame.Some? ==> frame.value.gref != INVALID_REF
                              && FrameGranted(cfg.persistentMode, old(Now()), refs, 0, 0, frame.value)
      ensures Granted(cfg.persistentMode, old(Now()), refs, GrantsAt(indirect, c) - 1, g, pfn)
      ensures g.gref != INVALID_REF
      ensures PoolOk(grants, persistent) && RefsOk(left)
      ensures Took(cfg.persistentMode, old(Now()), refs, Now(), left, GrantsAt(indirect, c), GrantsAt(indirect, c) - 1)
    {
      frame, left := None, refs;
      ghost var was := Now();
      if indirect && c % S.SEGS_PER_FRAME == 0 {
        var f, rest := TakeFrame(refs);
        frame, left := Some(f), rest;
        ghost var now := Now();
        g, left := GetGrant(left, pfn);
        GrantedLater(cfg.persistentMode, was, refs, now, rest, 1, 0, g, pfn);
        TookMore(cfg.persistentMode, was, refs, now, rest, 1, 1, Now(), left, 1, 0);
      } else {
        g, left := GetGrant(left, pfn);
      }
    }

    ghost function Now(): Supply
      reads this
    {
      Supply(grants, persistent, indirectPages)
    }

    // One round: the grants, the frame slot or the ring slot, and the shadow entries.
    method EmitOne(indirect: bool, q: Filling, pfn: nat, off: nat, bytes: nat) returns (q': Filling)
      requires |q.slots| == |q.used| && q.frames == (if indirect then S.Frames(q.slots) else [])
      requires Has(q.refs, GrantsAt(indirect, |q.used|))
      requires OpensFrame(indirect, |q.used|) && !cfg.persistentMode ==> indirectPages != []
      modifies this`grants, this`persistent, this`indirectPages
      ensures SegNext(indirect, q, q', off, bytes) && IndNext(indirect, q, q')
      ensures PoolOk(grants, persistent) && RefsOk(q'.refs)
      ensures Took(cfg.persistentMode, old(Now()), q.refs, Now(), q'.refs, GrantsAt(indirect, |q.used|),
                   GrantsAt(indirect, |q.used|) - 1)
      ensures GrantedNext(cfg.persistentMode, old(Now()), indirect, q, q', pfn)
    {
      var frame, g, left := TakeGrants(indirect, |q.used|, q.refs, pfn);
      var slot := Slot(g.gref, off, bytes);
      q' := q.(used := q.used + [g], slots := q.slots + [slot], refs := left);
      if frame.Some? { q' := q'.(ind := q.ind + [frame.value]); }
      if indirect {
        S.FramesGrow(q.slots, slot);
        if frame.Some? {
          q' := q'.(frames := q.frames + [[slot]]);
        } else {
          q' := q'.(frames := q.frames[|q.frames| - 1 := q.frames[|q.frames| - 1] + [slot]]);
        }
      }
      assert GivenFor(q, q', g, off, bytes);
    }

    // The same, within a request of n segments for which there is enough.
    method EmitNext(indirect: bool, q: Filling, pfn: nat, off: nat, bytes: nat, ghost sgl: seq<S.Sg>,
                    ghost segs: seq<S.Seg>, ghost seg: S.Seg, ghost n: nat, ghost was: Supply, ghost refs: seq<nat>)
      returns (q': Filling)
      requires Emitted(segs, indirect, q) && TookBy(cfg.persistentMode, was, refs, Now(), q)
      requires PoolOk(grants, persistent) && RefsOk(q.refs)
      requires AllGranted(cfg.persistentMode, was, refs, sgl, segs, indirect, q)
      requires seg.offset == off && seg.length == bytes && seg.sg < |sgl| && sgl[seg.sg].page == pfn
      requires |segs| < n && (indirect <==> n > S.SG_TABLESIZE)
      requires GrantsFor(n) <= |was.grants| && GrantsFor(n) <= was.persistent + |refs|
      requires !cfg.persistentMode ==> FramesFor(n) <= |was.pages|
      modifies this`grants, this`persistent, this`indirectPages
      ensures Emitted(segs + [seg], indirect, q') && TookBy(cfg.persistentMode, was, refs, Now(), q')
      ensures AllGranted(cfg.persistentMode, was, refs, sgl, segs + [seg], indirect, q')
      ensures PoolOk(grants, persistent) && RefsOk(q'.refs)
    {
      ghost var now := Now();
      EnoughForNext(segs, indirect, q, n, cfg.persistentMode, was, refs, now);
      q' := EmitOne(indirect, q, pfn, off, bytes);
      EmittedNext(segs, seg, indirect, q, q');
      AllGrantedNext(cfg.persistentMode, was, refs, sgl, segs, seg, indirect, now, q, q');
      OneFilled(indirect, q, q', off, bytes);
      TookNext(cfg.persistentMode, was, refs, now, q, Now(), q', GrantsAt(indirect, |q.used|));
    }

    // What must hold for n segments to be emitted, and holds while they are.
    ghost predicate Enough(n: nat, indirect: bool, was: Supply, refs: seq<nat>)
      reads this
    {
      && (indirect <==> n > S.SG_TABLESIZE)
      && GrantsFor(n) <= |was.grants| && GrantsFor(n) <= was.persistent + |refs|
      && (!cfg.persistentMode ==> FramesFor(n) <= |was.pages|)
    }

    ghost predicate Filled(sgl: seq<S.Sg>, done: seq<S.Seg>, indirect: bool, was: Supply, refs: seq<nat>, q: Filling)
      reads this
    {
      && AllGranted(cfg.persistentMode, was, refs, sgl, done, indirect, q)
      && Emitted(done, indirect, q) && TookBy(cfg.persistentMode, was, refs, Now(), q)
      && PoolOk(grants, persistent) && RefsOk(q.refs)
    }

    // The inner loop of map_data_for_request: the segments of element i.
    method EmitElement(sg: S.Sg, i: nat, dataLen: nat, indirect: bool, q0: Filling, ghost sgl: seq<S.Sg>,
                       ghost done: seq<S.Seg>, ghost n: nat, ghost was: Supply, ghost refs: seq<nat>)
      returns (q: Filling, toGo: nat)
      requires sg.offset < S.PAGE && i < |sgl| && sgl[i] == sg
      requires Filled(sgl, done, indirect, was, refs, q0) && Enough(n, indirect, was, refs)
      requires |done| + |S.OfElement(i, 0, sg.offset, sg.length, dataLen)| <= n
      modifies this`grants, this`persistent, this`indirectPages
      ensures toGo == dataLen - Min(sg.length, dataLen)
      ensures Filled(sgl, done + S.OfElement(i, 0, sg.offset, sg.length, dataLen), indirect, was, refs, q)
    {
      var off: nat, len: nat := sg.offset, sg.length;
      q, toGo := q0, dataLen;
      ghost var nth, all, now := 0, done + S.OfElement(i, 0, sg.offset, sg.length, dataLen), done;
      while len > 0 && toGo > 0
        invariant off < S.PAGE && toGo - Min(len, toGo) == dataLen - Min(sg.length, dataLen)
        invariant now + S.OfElement(i, nth, off, len, toGo) == all
        invariant Filled(sgl, now, indirect, was, refs, q) && Enough(n, indirect, was, refs)
        decreases len
      {
        var bytes := Min(Min(len, S.PAGE - off), toGo);
        ghost var seg := S.Seg(i, nth, off, bytes);
        NextOf(now, seg, S.OfElement(i, nth + 1, 0, len - bytes, toGo - bytes));
        q := EmitNext(indirect, q, sg.page, off, bytes, sgl, now, seg, n, was, refs);
        now := now + [seg];
        toGo := toGo - bytes;
        len := len - bytes;
        off := 0;
        nth := nth + 1;
      }
      assert now == all;
    }

    // Its outer loop, for a request within the limit whose references are set aside: segment by
    // segment, in the order of the scatter list.
    method Emit(sgl: seq<S.Sg>, dataLen: nat, indirect: bool, refs: seq<nat>) returns (q: Filling)
      requires S.SgOk(sgl) && PoolOk(grants, persistent) && RefsOk(refs)
      requires Enough(|S.Segs(sgl, 0, dataLen)|, indirect, Now(), refs)
      modifies this`grants, this`persistent, this`indirectPages
      ensures Filled(sgl, S.Segs(sgl, 0, dataLen), indirect, old(Now()), refs, q)
    {
      q := Filling([], [], [], [], refs);
      ghost var all, done, was := S.Segs(sgl, 0, dataLen), [], Now();
      var toGo: nat := dataLen;
      for i := 0 to |sgl|
        invariant done + S.Segs(sgl, i, toGo) == all
        invariant Filled(sgl, done, indirect, was, refs, q) && Enough(|all|, indirect, was, refs)
      {
        ghost var part := S.OfElement(i, 0, sgl[i].offset, sgl[i].length, toGo);
        ghost var rest := S.Segs(sgl, i + 1, toGo - Min(sgl[i].length, toGo));
        Parts3(done, part, rest);
        q, toGo := EmitElement(sgl[i], i, toGo, indirect, q, sgl, done, |all|, was, refs);
        done := done + part;
      }
      assert done == all;
    }

    // map_data_for_request. `alloc` is what gnttab_alloc_grant_references has, or None where it
    // fails; `left` goes back to it. A request that passes the size check must be within the segment
    // limit, with the pages for its frames set aside.
    method MapData(id: nat, sgl: seq<S.Sg>, dataLen: nat, alloc: Option<seq<nat>>) returns (r: Mapped, left: seq<nat>)
      requires Valid() && id < shadow.Length && shadow[id] == None
      requires S.SgOk(sgl) && (dataLen > 0 ==> sgl != [])
      requires alloc.Some? ==> RefsOk(alloc.value) && |alloc.value| == Less(MaxGrefs(cfg), persistent)
      requires Passes(cfg, sgl, dataLen) ==> |S.Segs(sgl, 0, dataLen)| <= SegLimit(cfg)
      requires Passes(cfg, sgl, dataLen) && !cfg.persistentMode ==>
                 FramesFor(|S.Segs(sgl, 0, dataLen)|) <= |indirectPages|
      modifies this`grants, this`persistent, this`indirectPages, shadow
      ensures Valid()
      ensures r.NoMemory? <==> dataLen > 0 && alloc == None && old(persistent) < MaxGrefs(cfg)
      ensures r.TooBig? <==> dataLen > 0 && !r.NoMemory? && !Passes(cfg, sgl, dataLen)
      ensures r.NoMemory? || r.TooBig? ==>
                Now() == old(Now()) && shadow[..] == old(shadow[..]) && left == RefsGiven(dataLen, alloc)
      ensures r.Direct? || r.Indirect? ==>
                exists q: Filling :: MappedAs(id, sgl, S.Segs(sgl, 0, dataLen), old(Now()), old(shadow[..]),
                                              RefsGiven(dataLen, alloc), r, left, q)
    {
      if dataLen > 0 && persistent < MaxGrefs(cfg) && alloc == None { return NoMemory, []; }
      var refs, nseg := RefsGiven(dataLen, alloc), 0;
      S.NoBytesNoSegments(sgl, 0, dataLen);
      if dataLen > 0 {
        nseg := S.CalculateSegs(sgl, dataLen);
        if S.PagesUp(dataLen + sgl[0].offset) > MaxGrefs(cfg) { return TooBig, refs; }
      }
      r, left := MapAll(id, sgl, dataLen, nseg, refs);
    }

    // The branch of map_data_for_request that maps.
    method MapAll(id: nat, sgl: seq<S.Sg>, dataLen: nat, nseg: nat, refs: seq<nat>) returns (r: Mapped, left: seq<nat>)
      requires Valid() && id < shadow.Length && shadow[id] == None
      requires S.SgOk(sgl) && nseg == |S.Segs(sgl, 0, dataLen)| <= SegLimit(cfg)
      requires !cfg.persistentMode ==> FramesFor(nseg) <= |indirectPages|
      requires RefsOk(refs) && (nseg > 0 ==> |refs| == Less(MaxGrefs(cfg), persistent))
      modifies this`grants, this`persistent, this`indirectPages, shadow
      ensures Valid() && (r.Direct? || r.Indirect?)
      ensures exists q: Filling :: MappedAs(id, sgl, S.Segs(sgl, 0, dataLen), old(Now()), old(shadow[..]), refs, r,
                                            left, q)
    {
      ghost var segs, was, before := S.Segs(sgl, 0, dataLen), Now(), shadow[..];
      PoolSuffices(cfg, grants, shadow[..], id);
      FitsRequest(cfg, nseg);
      var q := Emit(sgl, dataLen, nseg > S.SG_TABLESIZE, refs);
      shadow[id] := Some(Shadow(q.used, q.ind));
      left := q.refs;
      r := if nseg > S.SG_TABLESIZE then Indirect(q.frames, RefsOf(q.ind)) else Direct(q.slots);
      assert shadow[..] == before[id := Some(Shadow(q.used, q.ind))];
      MappedConserves(cfg, segs, was, Now(), refs, before, id, q);
      assert MappedAs(id, sgl, segs, was, before, refs, r, left, q);
    }

    // The segments, each with the grant it was given; what it was given is gone from the front of
    // the pool and recorded with the request.
    ghost predicate MappedAs(id: nat, sgl: seq<S.Sg>, segs: seq<S.Seg>, was: Supply, before: seq<Option<Shadow>>,
                             refs: seq<nat>, r: Mapped, left: seq<nat>, q: Filling)
      reads this, shadow
    {
      && id < |before| && Emitted(segs, |segs| > S.SG_TABLESIZE, q)
      && AllGranted(cfg.persistentMode, was, refs, sgl, segs, |segs| > S.SG_TABLESIZE, q)
      && TookBy(cfg.persistentMode, was, refs, Now(), q) && left == q.refs
      && shadow[..] == before[id := Some(Shadow(q.used, q.ind))]
      && if |segs| > S.SG_TABLESIZE then
           r.Indirect? && r.frames == q.frames && |r.grefs| == |q.ind|
           && forall f :: 0 <= f < |q.ind| ==> r.grefs[f] == q.ind[f].gref
         else r == Direct(q.slots)
    }

    /* ---- completion ---- */

    // The loops of scsifront_gnttab_done that give grants back.
    method GiveBack(gs: seq<Gnt>, mapped: seq<bool>)
      requires |gs| == |mapped|
      modifies this`grants, this`persistent
      ensures grants == PutAll(old(grants), gs, mapped) && persistent == old(persistent) + Count(mapped)
    {
      var i := 0;
      while i < |gs|
        invariant i <= |gs| && grants == PutAll(old(grants), gs[..i], mapped[..i])
        invariant persistent == old(persistent) + Count(mapped[..i])
      {
        assert gs[..i + 1][..i] == gs[..i] && mapped[..i + 1][..i] == mapped[..i];
        if mapped[i] {
          grants := [gs[i]] + grants;
          persistent := persistent + 1;
        } else {
          grants := grants + [gs[i].(gref := INVALID_REF)];
        }
        i := i + 1;
      }
      assert gs[..i] == gs && mapped[..i] == mapped;
    }

    // The pages of ended indirect grants go back to their list, without persistent grants.
    method GiveBackPages(gs: seq<Gnt>, mapped: seq<bool>)
      requires |gs| == |mapped|
      modifies this`indirectPages
      ensures indirectPages == EndedPages(gs, mapped) + old(indirectPages)
      ensures |indirectPages| + Count(mapped) == |old(indirectPages)| + |gs|
    {
      var i := 0;
      while i < |gs|
        invariant i <= |gs| && |indirectPages| + Count(mapped[..i]) == |old(indirectPages)| + i
        invariant indirectPages == EndedPages(gs[..i], mapped[..i]) + old(indirectPages)
      {
        assert gs[..i + 1][..i] == gs[..i] && mapped[..i + 1][..i] == mapped[..i];
        if !mapped[i] { indirectPages := [gs[i].pfn] + indirectPages; }
        i := i + 1;
      }
      assert gs[..i] == gs && mapped[..i] == mapped;
    }

    // scsifront_gnttab_done; the flags say which grants the back end still has mapped. Without
    // persistent grants a mapped data grant stops the driver.
    method Complete(id: nat, mappedUsed: seq<bool>, mappedInd: seq<bool>)
      requires Valid() && id < shadow.Length && shadow[id].Some?
      requires |mappedUsed| == |shadow[id].value.used| && |mappedInd| == |shadow[id].value.indirect|
      requires !cfg.persistentMode ==> forall i :: 0 <= i < |mappedUsed| ==> !mappedUsed[i]
      modifies this, shadow
      ensures Valid()
      ensures shadow[..] == old(shadow[..])[id := None]
      ensures grants == PutAll(PutAll(old(grants), old(shadow[id]).value.used, mappedUsed),
                               old(shadow[id]).value.indirect, mappedInd)
      ensures persistent == old(persistent) + Count(mappedUsed) + Count(mappedInd)
      ensures leaked == old(leaked) + if cfg.persistentMode then 0 else Count(mappedInd)
      ensures indirectPages == if cfg.persistentMode then old(indirectPages)
                               else EndedPages(old(shadow[id]).value.indirect, mappedInd) + old(indirectPages)
    {
      var s := shadow[id].value;
      ghost var before := shadow[..];
      PutAllOk(grants, persistent, s.used, mappedUsed);
      PutAllOk(PutAll(grants, s.used, mappedUsed), persistent + Count(mappedUsed), s.indirect, mappedInd);
      GiveBack(s.used, mappedUsed);
      GiveBack(s.indirect, mappedInd);
      if !cfg.persistentMode {
        GiveBackPages(s.indirect, mappedInd);
        leaked := leaked + Count(mappedInd);
      }
      shadow[id] := None;
      SumUpdate(before, id, None, Held);
      SumUpdate(before, id, None, FramesHeld);
      assert shadow[..] == before[id := None];
    }

    // The pool part of scsifront_resume_free: the count comes down to 0 with the pool, so the check
    // behind it holds.
    method DrainPool()
      requires PoolOk(grants, persistent)
      modifies this`grants, this`persistent
      ensures grants == [] && persistent == 0
    {
      while grants != []
        invariant PoolOk(grants, persistent)
        decreases |grants|
      {
        if grants[0].gref != INVALID_REF { persistent := persistent - 1; }
        grants := grants[1..];
      }
    }
  }

  // The driver's size check.
  predicate Passes(c: Config, sgl: seq<S.Sg>, dataLen: nat)
    requires dataLen > 0 ==> sgl != []
  {
    dataLen > 0 ==> S.PagesUp(dataLen + sgl[0].offset) <= MaxGrefs(c)
  }

  // References are set aside only for a request with data.
  function RefsGiven(dataLen: nat, alloc: Option<seq<nat>>): seq<nat>
  {
    if dataLen > 0 && alloc.Some? then alloc.value else []
  }

  function RefsOf(gs: seq<Gnt>): seq<nat> { seq(|gs|, i requires 0 <= i < |gs| => gs[i].gref) }

  // Segment k of a mapped request is read back with a grant of its own, at the offset and length
  // it was cut: from the ring slot, or from slot k % SEGS of indirect frame k / SEGS.
  lemma ReadBack(segs: seq<S.Seg>, indirect: bool, q: Filling, k: nat)
    requires Emitted(segs, indirect, q) && k < |segs|
    ensures var slot := Slot(q.used[k].gref, segs[k].offset, segs[k].length);
      if indirect then
        && |q.frames| == |q.ind| == S.IndirectPages(|segs|)
        && k / S.SEGS_PER_FRAME < |q.frames| && k % S.SEGS_PER_FRAME < |q.frames[k / S.SEGS_PER_FRAME]|
        && q.frames[k / S.SEGS_PER_FRAME][k % S.SEGS_PER_FRAME] == slot
      else q.slots[k] == slot
  {
    if indirect { S.FrameReadsBack(q.slots, k); }
  }

  lemma Parts3(a: seq<S.Seg>, b: seq<S.Seg>, c: seq<S.Seg>)
    ensures a + (b + c) == (a + b) + c
    ensures |a| + |b| <= |a + (b + c)|
  {
  }

  lemma NextOf(done: seq<S.Seg>, seg: S.Seg, more: seq<S.Seg>)
    ensures done + ([seg] + more) == (done + [seg]) + more
    ensures |done| < |done + ([seg] + more)|
  {
  }

  lemma {:induction false} NothingHeld(shadow: seq<Option<Shadow>>)
    requires forall i :: 0 <= i < |shadow| ==> shadow[i] == None
    ensures Sum(shadow, Held) == 0 && Sum(shadow, FramesHeld) == 0
  {
    if shadow != [] { NothingHeld(shadow[1..]); }
  }

  /* ---- the bytes granted ---- */

  // What the back end finds behind the grants of the segments, in order.
  function GrantedFlat(segs: seq<S.Seg>, used: seq<Gnt>): seq<nat>
    requires |used| == |segs|
  {
    if segs == [] then [] else GrantedBytes(segs[0], used[0].pfn) + GrantedFlat(segs[1..], used[1..])
  }

  function GrantedBytes(s: S.Seg, pfn: nat): seq<nat> { S.Run(pfn * S.PAGE + s.offset, s.length) }

  predicate RightFrames(sgl: seq<S.Sg>, segs: seq<S.Seg>, used: seq<Gnt>)
    requires |used| == |segs| && S.OfList(sgl, segs)
  {
    forall k :: 0 <= k < |segs| ==> used[k].pfn == sgl[segs[k].sg].page + segs[k].nth
  }

  lemma RightFramesFront(sgl: seq<S.Sg>, segs: seq<S.Seg>, used: seq<Gnt>)
    requires |used| == |segs| > 0 && S.OfList(sgl, segs)
    ensures RightFrames(sgl, segs, used) <==>
            used[0].pfn == sgl[segs[0].sg].page + segs[0].nth && RightFrames(sgl, segs[1..], used[1..])
  {
    if RightFrames(sgl, segs[1..], used[1..]) && used[0].pfn == sgl[segs[0].sg].page + segs[0].nth {
      forall k | 0 <= k < |segs| ensures used[k].pfn == sgl[segs[k].sg].page + segs[k].nth {
        if k > 0 { assert used[k] == used[1..][k - 1] && segs[k] == segs[1..][k - 1]; }
      }
    }
  }

  lemma {:induction false} RightBytesIff(sgl: seq<S.Sg>, segs: seq<S.Seg>, used: seq<Gnt>)
    requires |used| == |segs| && S.OfList(sgl, segs) && forall i :: 0 <= i < |segs| ==> 0 < segs[i].length
    ensures GrantedFlat(segs, used) == S.Flat(sgl, segs) <==> RightFrames(sgl, segs, used)
  {
    if segs != [] {
      RightBytesIff(sgl, segs[1..], used[1..]);
      RightFront(sgl, segs[0], used[0].pfn, GrantedFlat(segs[1..], used[1..]), S.Flat(sgl, segs[1..]));
      RightFramesFront(sgl, segs, used);
    }
  }

  lemma RightFront(sgl: seq<S.Sg>, s: S.Seg, pfn: nat, x: seq<nat>, y: seq<nat>)
    requires s.sg < |sgl| && 0 < s.length
    ensures GrantedBytes(s, pfn) + x == S.SegBytes(sgl, s) + y <==>
            pfn == sgl[s.sg].page + s.nth && x == y
  {
    S.SameRuns(pfn * S.PAGE + s.offset, (sgl[s.sg].page + s.nth) * S.PAGE + s.offset, s.length);
    S.SameParts(GrantedBytes(s, pfn), x, S.SegBytes(sgl, s), y);
  }

  // Before the request: a persistent grant that comes up for a segment must be of the segment's page,
  // and any other segment must lie in the first page of its element.
  predicate RightPages(sgl: seq<S.Sg>, segs: seq<S.Seg>, indirect: bool, was: Supply)
    requires S.OfList(sgl, segs)
  {
    forall k :: 0 <= k < |segs| ==> RightPage(sgl[segs[k].sg].page, segs[k].nth, was, PlaceOf(indirect, k))
  }

  predicate RightPage(page: nat, nth: nat, was: Supply, j: nat)
  {
    if j < was.persistent then j < |was.grants| && was.grants[j].pfn == page + nth else nth == 0
  }

  // A request mapped without persistent grants gives the back end the right bytes if and only if
  // that holds.
  lemma GrantsRightPagesIff(sgl: seq<S.Sg>, dataLen: nat, was: Supply, refs: seq<nat>, indirect: bool, q: Filling)
    requires S.SgOk(sgl) && S.OfList(sgl, S.Segs(sgl, 0, dataLen))
    requires AllGranted(false, was, refs, sgl, S.Segs(sgl, 0, dataLen), indirect, q)
    ensures GrantedFlat(S.Segs(sgl, 0, dataLen), q.used) == S.SgBytes(sgl, 0)[..Min(dataLen, |S.SgBytes(sgl, 0)|)]
            <==> RightPages(sgl, S.Segs(sgl, 0, dataLen), indirect, was)
  {
    var segs := S.Segs(sgl, 0, dataLen);
    S.SegmentsCover(sgl, 0, dataLen);
    S.SegmentsInside(sgl, 0, dataLen);
    RightBytesIff(sgl, segs, q.used);
    FramesIffPages(sgl, segs, was, refs, indirect, q.used);
  }

  lemma FramesIffPages(sgl: seq<S.Sg>, segs: seq<S.Seg>, was: Supply, refs: seq<nat>, indirect: bool, used: seq<Gnt>)
    requires S.OfList(sgl, segs) && DataGranted(false, was, refs, sgl, segs, indirect, used)
    ensures RightFrames(sgl, segs, used) <==> RightPages(sgl, segs, indirect, was)
  {
    if RightPages(sgl, segs, indirect, was) {
      forall k | 0 <= k < |segs| ensures used[k].pfn == sgl[segs[k].sg].page + segs[k].nth {
        assert RightPage(sgl[segs[k].sg].page, segs[k].nth, was, PlaceOf(indirect, k));
      }
    }
  }

  // With no persistent grant coming up for a segment: if and only if the transferred part of every
  // element lies in the element's first page, for the frame number passed does not advance.
  lemma FreshGrantsRightIff(sgl: seq<S.Sg>, dataLen: nat, was: Supply, refs: seq<nat>, indirect: bool, q: Filling)
    requires S.SgOk(sgl) && S.OfList(sgl, S.Segs(sgl, 0, dataLen)) && was.persistent <= PlaceOf(indirect, 0)
    requires AllGranted(false, was, refs, sgl, S.Segs(sgl, 0, dataLen), indirect, q)
    ensures GrantedFlat(S.Segs(sgl, 0, dataLen), q.used) == S.SgBytes(sgl, 0)[..Min(dataLen, |S.SgBytes(sgl, 0)|)]
            <==> S.FitsFirst(sgl, 0, dataLen)
  {
    var segs := S.Segs(sgl, 0, dataLen);
    GrantsRightPagesIff(sgl, dataLen, was, refs, indirect, q);
    S.FirstPagesIff(sgl, 0, dataLen);
    assert RightPages(sgl, segs, indirect, was) <==> S.FirstPages(segs) by {
      forall k | 0 <= k < |segs|
        ensures RightPage(sgl[segs[k].sg].page, segs[k].nth, was, PlaceOf(indirect, k)) <==> segs[k].nth == 0
      {
        assert PlaceOf(indirect, k) >= was.persistent;
      }
    }
  }

  // An element of two pages, served with fresh grants: the second page's bytes are not granted.
  lemma TwoPagesMissed(page: nat, was: Supply, refs: seq<nat>, q: Filling)
    requires var sgl := [S.Sg(page, 0, 2 * S.PAGE)];
      was.persistent == 0 && AllGranted(false, was, refs, sgl, S.Segs(sgl, 0, 2 * S.PAGE), false, q)
    ensures var sgl := [S.Sg(page, 0, 2 * S.PAGE)];
      GrantedFlat(S.Segs(sgl, 0, 2 * S.PAGE), q.used) != S.SgBytes(sgl, 0)
  {
    var sgl := [S.Sg(page, 0, 2 * S.PAGE)];
    FreshGrantsRightIff(sgl, 2 * S.PAGE, was, refs, false, q);
    assert |S.SgBytes(sgl, 0)| == S.SgTotal(sgl, 0) == 2 * S.PAGE + S.SgTotal(sgl, 1);
  }

  // A frame's grant that the back end keeps mapped comes back in front, and the next request's first
  // segment, where no frame is opened, is granted that frame's page in place of its own.
  lemma FramePageForData(pool: seq<Gnt>, persistent: nat, ind: Gnt, pages: seq<nat>, refs: seq<nat>, sg: S.Sg,
                         q: Filling)
    requires PoolOk(pool, persistent) && ind.gref != INVALID_REF && ind.pfn != sg.page
    requires sg.length > 0 && sg.offset + sg.length <= S.PAGE
    requires AllGranted(false, Supply(PutBack(pool, ind, true), persistent + 1, pages), refs, [sg],
                        S.Segs([sg], 0, sg.length), false, q)
    ensures q.used == [ind] && GrantedFlat(S.Segs([sg], 0, sg.length), q.used) != S.SgBytes([sg], 0)
    ensures TakeOne(Taking(PutBack(pool, ind, true), persistent + 1, refs, []), false, sg.page)
            == Some(Taking(pool, persistent, refs, [ind]))
  {
    var was := Supply(PutBack(pool, ind, true), persistent + 1, pages);
    var segs := S.Segs([sg], 0, sg.length);
    S.OneSegment(0, sg.offset, sg.length, sg.length);
    assert S.Segs([sg], 1, 0) == [] && segs == [S.Seg(0, 0, sg.offset, sg.length)];
    assert PlaceOf(false, 0) == 0 && q.used == [ind];
    assert |S.SgBytes([sg], 0)| == S.SgTotal([sg], 0) == sg.length + S.SgTotal([sg], 1);
    GrantsRightPagesIff([sg], sg.length, was, refs, false, q);
    assert !RightPage(sg.page, segs[0].nth, was, PlaceOf(false, 0));
    assert was.grants[0] == ind && was.grants[1..] == pool && [] + [ind] == [ind];
  }

  /* ---- the size check and the segment limit ---- */

  // A request that passes the size check is within the limit if and only if the pages it sees and the
  // pages' worth of gaps it does not see are ..
  lemma WithinLimitIff(c: Config, sgl: seq<S.Sg>, dataLen: nat)
    requires S.SgOk(sgl) && sgl != []
    ensures |S.Segs(sgl, 0, dataLen)| <= SegLimit(c) <==>
            S.PagesUp(dataLen + sgl[0].offset) + S.Gaps(sgl, dataLen) / S.PAGE <= SegLimit(c)
    ensures |S.Segs(sgl, 0, dataLen)| <= SegLimit(c) && S.Gaps(sgl, dataLen) >= 0 ==> Passes(c, sgl, dataLen)
  {
    S.CheckMisses(sgl, dataLen);
  }

  // .. as they are for a packed list of at most (limit - 1) pages, the host's max_sectors, ..
  lemma PackedWithinLimit(c: Config, sgl: seq<S.Sg>, dataLen: nat)
    requires S.SgOk(sgl) && sgl != [] && 0 < sgl[0].length && 0 < dataLen <= S.SgTotal(sgl, 0)
    requires S.Packed(sgl, 0, dataLen, true) && dataLen <= (SegLimit(c) - 1) * S.PAGE
    ensures |S.Segs(sgl, 0, dataLen)| <= SegLimit(c) && Passes(c, sgl, dataLen)
  {
    S.PackedCounts(sgl, dataLen);
  }

  // .. and for at most limit elements, each in one page.
  lemma SinglePagesWithinLimit(c: Config, sgl: seq<S.Sg>, dataLen: nat)
    requires S.SgOk(sgl) && S.FitsFirst(sgl, 0, dataLen) && |sgl| <= SegLimit(c)
    ensures |S.Segs(sgl, 0, dataLen)| <= SegLimit(c)
  {
    S.AtMostElements(sgl, 0, dataLen);
  }

  // Elements across page boundaries, no more of them than the host's table takes, pass the check and
  // need more segments than the limit.
  lemma StraddlingPasses(c: Config, sgl: seq<S.Sg>)
    requires ConfigOk(c) && SegLimit(c) < 2 * |sgl| <= 2 * SegLimit(c)
    requires forall i :: 0 <= i < |sgl| ==> sgl[i].offset == S.PAGE - 1 && sgl[i].length == 2
    ensures S.SgOk(sgl) && Passes(c, sgl, 2 * |sgl|) && |S.Segs(sgl, 0, 2 * |sgl|)| > SegLimit(c)
  {
    S.Straddling(sgl, 0);
  }

  // With indirect requests the check allows for the frame's page too: one element of limit + 1 whole
  // pages passes it.
  lemma OnePageOver(c: Config, page: nat)
    requires ConfigOk(c) && c.maxIndirect != 0
    ensures var (n, sgl) := (SegLimit(c) + 1, [S.Sg(page, 0, (SegLimit(c) + 1) * S.PAGE)]);
      Passes(c, sgl, n * S.PAGE) && |S.Segs(sgl, 0, n * S.PAGE)| == n
  {
    var n, sgl := SegLimit(c) + 1, [S.Sg(page, 0, (SegLimit(c) + 1) * S.PAGE)];
    S.SegmentsAre(sgl, 0, n * S.PAGE);
    assert S.PagesTouched(sgl, 1, 0) == 0;
  }
}
