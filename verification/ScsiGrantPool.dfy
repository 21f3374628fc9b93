/**
 The pool of reusable grants of the SCSI front end: persistent grants in front, grants without
 a reference behind, and what requests in flight have taken from it.
 */
module ScsiGrantPool {
  import opened Basics
  import S = ScsiSegments

  const INVALID_REF := 0          // GRANT_INVALID_REF
  const MAX_INDIRECT := 128       // MAX_VSCSI_INDIRECT_SEGMENTS

  datatype Gnt = Gnt(gref: nat, pfn: nat)

  // What a request in flight holds: grants_used and indirect_grants.
  datatype Shadow = Shadow(used: seq<Gnt>, indirect: seq<Gnt>)

  // maxIndirect is 0 when the back end takes no indirect requests.
  datatype Config = Config(persistentMode: bool, maxIndirect: nat, ringSize: nat)

  predicate ConfigOk(c: Config) { c.maxIndirect == 0 || S.SG_TABLESIZE < c.maxIndirect <= MAX_INDIRECT }

  // Segments a request may have, and grants set aside for one.
  function SegLimit(c: Config): nat { if c.maxIndirect == 0 then S.SG_TABLESIZE else c.maxIndirect }
  function PerRequest(c: Config): nat { SegLimit(c) + S.IndirectPages(SegLimit(c)) }

  function MaxGrefs(c: Config): nat
  {
    if c.maxIndirect == 0 then S.SG_TABLESIZE else c.maxIndirect + S.IndirectPages(c.maxIndirect)
  }

  // Indirect frames, and grants in all, for a request of n segments.
  function FramesFor(n: nat): nat { if n > S.SG_TABLESIZE then S.IndirectPages(n) else 0 }
  function GrantsFor(n: nat): nat { n + FramesFor(n) }

  /* ---- the order of the pool ---- */

  // Persistent grants, then grants without a reference; `persistent` counts the former.
  predicate PoolOk(grants: seq<Gnt>, persistent: nat)
  {
    && persistent <= |grants|
    && (forall i :: 0 <= i < persistent ==> grants[i].gref != INVALID_REF)
    && (forall i :: persistent <= i < |grants| ==> grants[i].gref == INVALID_REF)
  }

  // A grant comes back: to the front if the back end keeps it mapped, else, ended, to the rear.
  function PutBack(grants: seq<Gnt>, g: Gnt, mapped: bool): seq<Gnt>
  {
    if mapped then [g] + grants else grants + [g.(gref := INVALID_REF)]
  }

  function PutAll(grants: seq<Gnt>, gs: seq<Gnt>, mapped: seq<bool>): seq<Gnt>
    requires |gs| == |mapped|
    decreases |gs|
  {
    if gs == [] then grants
    else PutBack(PutAll(grants, gs[..|gs| - 1], mapped[..|gs| - 1]), gs[|gs| - 1], mapped[|gs| - 1])
  }

  function Count(mapped: seq<bool>): nat
  {
    if mapped == [] then 0
    else Count(mapped[..|mapped| - 1]) + if mapped[|mapped| - 1] then 1 else 0
  }

  // Whatever is returned, in whatever state, the order and the count stand.
  lemma {:induction false} PutAllOk(grants: seq<Gnt>, persistent: nat, gs: seq<Gnt>, mapped: seq<bool>)
    requires PoolOk(grants, persistent) && |gs| == |mapped|
    requires forall i :: 0 <= i < |gs| ==> gs[i].gref != INVALID_REF
    ensures PoolOk(PutAll(grants, gs, mapped), persistent + Count(mapped))
    ensures |PutAll(grants, gs, mapped)| == |grants| + |gs|
    decreases |gs|
  {
    if gs != [] {
      PutAllOk(grants, persistent, gs[..|gs| - 1], mapped[..|gs| - 1]);
    }
  }

  /* ---- conservation ---- */

  function Held(s: Option<Shadow>): nat { if s.Some? then |s.value.used| + |s.value.indirect| else 0 }
  function FramesHeld(s: Option<Shadow>): nat { if s.Some? then |s.value.indirect| else 0 }

  function Sum(shadow: seq<Option<Shadow>>, f: Option<Shadow> -> nat): nat
  {
    if shadow == [] then 0 else f(shadow[0]) + Sum(shadow[1..], f)
  }

  predicate ShadowOk(c: Config, s: Option<Shadow>)
  {
    s.Some? ==>
      && |s.value.used| <= SegLimit(c) && |s.value.indirect| == FramesFor(|s.value.used|)
      && (forall i :: 0 <= i < |s.value.used| ==> s.value.used[i].gref != INVALID_REF)
      && (forall i :: 0 <= i < |s.value.indirect| ==> s.value.indirect[i].gref != INVALID_REF)
  }

  lemma FitsRequest(c: Config, n: nat)
    requires ConfigOk(c) && n <= SegLimit(c)
    ensures GrantsFor(n) <= MaxGrefs(c) <= PerRequest(c) && FramesFor(n) <= S.IndirectPages(SegLimit(c))
  {
  }

  lemma {:induction false} SumUpdate(shadow: seq<Option<Shadow>>, id: nat, s: Option<Shadow>, f: Option<Shadow> -> nat)
    requires id < |shadow|
    ensures Sum(shadow[id := s], f) + f(shadow[id]) == Sum(shadow, f) + f(s)
  {
    if id > 0 {
      assert shadow[id := s][1..] == shadow[1..][id - 1 := s];
      SumUpdate(shadow[1..], id - 1, s, f);
    }
  }

  // Each request in flight holds at most its share; an idle one holds nothing.
  lemma {:induction false} SumBound(shadow: seq<Option<Shadow>>, f: Option<Shadow> -> nat, most: nat)
    requires forall i :: 0 <= i < |shadow| ==> f(shadow[i]) <= most
    ensures Sum(shadow, f) <= most * |shadow|
  {
    if shadow != [] {
      SumBound(shadow[1..], f, most);
      assert most * |shadow| == most + most * |shadow[1..]|;
    }
  }

  lemma {:induction false} SumWithIdle(shadow: seq<Option<Shadow>>, id: nat, f: Option<Shadow> -> nat, most: nat)
    requires id < |shadow| && f(shadow[id]) == 0
    requires forall i :: 0 <= i < |shadow| ==> f(shadow[i]) <= most
    ensures Sum(shadow, f) + most <= most * |shadow|
  {
    if id == 0 {
      SumBound(shadow[1..], f, most);
    } else {
      SumWithIdle(shadow[1..], id - 1, f, most);
    }
    assert most * |shadow| == most + most * |shadow[1..]|;
  }

  // Grants in the pool and with requests in flight are (segs + indirect pages) * ring size.
  predicate Conserved(c: Config, grants: seq<Gnt>, shadow: seq<Option<Shadow>>)
  {
    && |shadow| == c.ringSize
    && (forall i :: 0 <= i < |shadow| ==> ShadowOk(c, shadow[i]))
    && |grants| + Sum(shadow, Held) == PerRequest(c) * c.ringSize
  }

  // With an id to spare the pool has a whole request's grants: get_grant never finds it empty.
  lemma PoolSuffices(c: Config, grants: seq<Gnt>, shadow: seq<Option<Shadow>>, id: nat)
    requires ConfigOk(c) && Conserved(c, grants, shadow) && id < |shadow| && shadow[id] == None
    ensures |grants| >= PerRequest(c)
  {
    forall i | 0 <= i < |shadow|
      ensures Held(shadow[i]) <= PerRequest(c)
    {
      if shadow[i].Some? { FitsRequest(c, |shadow[i].value.used|); }
    }
    SumWithIdle(shadow, id, Held, PerRequest(c));
  }

  // Likewise for the pages set aside for indirect frames.
  lemma FramesSuffice(c: Config, shadow: seq<Option<Shadow>>, id: nat, pages: nat)
    requires ConfigOk(c) && |shadow| == c.ringSize && forall i :: 0 <= i < |shadow| ==> ShadowOk(c, shadow[i])
    requires pages + Sum(shadow, FramesHeld) == S.IndirectPages(SegLimit(c)) * c.ringSize
    requires id < |shadow| && shadow[id] == None
    ensures pages >= S.IndirectPages(SegLimit(c))
  {
    forall i | 0 <= i < |shadow|
      ensures FramesHeld(shadow[i]) <= S.IndirectPages(SegLimit(c))
    {
      if shadow[i].Some? { FitsRequest(c, |shadow[i].value.used|); }
    }
    SumWithIdle(shadow, id, FramesHeld, S.IndirectPages(SegLimit(c)));
  }

  /* ---- taking grants ---- */

  // The pool, the references set aside for the request, and the grants it has got.
  datatype Taking = Taking(grants: seq<Gnt>, persistent: nat, refs: seq<nat>, taken: seq<Gnt>)

  // get_grant; None where it would stop on an empty pool or a failed claim.
  function TakeOne(t: Taking, persistentMode: bool, pfn: nat): Option<Taking>
  {
    if t.grants == [] then None
    else
      var g := t.grants[0];
      if g.gref != INVALID_REF then
        Some(t.(grants := t.grants[1..], persistent := if t.persistent > 0 then t.persistent - 1 else 0,
                taken := t.taken + [g]))
      else if t.refs == [] then None
      else
        Some(t.(grants := t.grants[1..], refs := t.refs[1..],
                taken := t.taken + [Gnt(t.refs[0], if persistentMode then g.pfn else pfn)]))
  }

  function TakeMany(t: Taking, persistentMode: bool, pfns: seq<nat>): Option<Taking>
    decreases |pfns|
  {
    if pfns == [] then Some(t)
    else
      match TakeOne(t, persistentMode, pfns[0])
      case None => None
      case Some(t1) => TakeMany(t1, persistentMode, pfns[1..])
  }

  predicate RefsOk(refs: seq<nat>) { forall i :: 0 <= i < |refs| ==> refs[i] != INVALID_REF }

  function Less(a: nat, b: nat): nat { if a > b then a - b else 0 }

  // n grants can be had exactly when the pool has n, and the persistent ones and the references
  // set aside make n; they are the front of the pool, the persistent ones first.
  lemma {:induction false} TakeManyIff(t: Taking, persistentMode: bool, pfns: seq<nat>)
    requires PoolOk(t.grants, t.persistent) && RefsOk(t.refs)
    ensures var n := |pfns|;
      && (TakeMany(t, persistentMode, pfns).Some? <==> n <= |t.grants| && n <= t.persistent + |t.refs|)
      && (TakeMany(t, persistentMode, pfns).Some? ==>
            var t' := TakeMany(t, persistentMode, pfns).value;
            && t'.grants == t.grants[n..] && t'.persistent == Less(t.persistent, n)
            && t'.refs == t.refs[Less(n, t.persistent)..]
            && PoolOk(t'.grants, t'.persistent) && |t'.taken| == |t.taken| + n)
    decreases |pfns|
  {
    if pfns != [] {
      var t1 := TakeOne(t, persistentMode, pfns[0]);
      if t1.Some? { TakeManyIff(t1.value, persistentMode, pfns[1..]); }
    }
  }

  // A grant the back end keeps mapped is the next to be handed out; one that was ended comes after all
  // others in the pool, which keep their order.
  lemma Reused(grants: seq<Gnt>, persistent: nat, g: Gnt, refs: seq<nat>, mode: bool, pfn: nat)
    requires g.gref != INVALID_REF
    ensures TakeOne(Taking(PutBack(grants, g, true), persistent + 1, refs, []), mode, pfn)
            == Some(Taking(grants, persistent, refs, [g]))
    ensures PutBack(grants, g, false)[..|grants|] == grants
    ensures PutBack(grants, g, false)[|grants|..] == [Gnt(INVALID_REF, g.pfn)]
  {
    assert ([g] + grants)[0] == g && ([g] + grants)[1..] == grants && [] + [g] == [g];
  }

  // So with MaxGrefs - persistent references set aside, a request within the limit gets all it
  // asks for, while an id was free: neither of get_grant's checks can fail.
  lemma RequestServed(c: Config, t: Taking, shadow: seq<Option<Shadow>>, id: nat, n: nat, pfns: seq<nat>)
    requires ConfigOk(c) && Conserved(c, t.grants, shadow) && id < |shadow| && shadow[id] == None
    requires PoolOk(t.grants, t.persistent) && RefsOk(t.refs) && |t.refs| == Less(MaxGrefs(c), t.persistent)
    requires n <= SegLimit(c) && |pfns| == GrantsFor(n)
    ensures TakeMany(t, c.persistentMode, pfns).Some?
  {
    PoolSuffices(c, t.grants, shadow, id);
    FitsRequest(c, n);
    TakeManyIff(t, c.persistentMode, pfns);
  }
}
