/**
 What the recency list records. Over every run of the store its entries stand in the order in which
 they were last used, so that an entry taken for a missed slice is, among those the allocation may
 take, the one unused for the longest time.
 */
module Recency {
  import opened Common
  import opened F = Ftl
  import B = Buffer
  import opened S = BlockStore

  /** used[e] is the time entry e was last used; the list runs from the latest to the earliest. */
  ghost predicate ByLastUse(lru: seq<nat>, used: seq<int>) {
    && (forall i :: 0 <= i < |lru| ==> lru[i] < |used|)
    && forall i, j :: 0 <= i < j < |lru| ==> used[lru[i]] > used[lru[j]]
  }

  /** Every use was before the time. */
  ghost predicate Before(used: seq<int>, now: int) {
    forall e :: 0 <= e < |used| ==> used[e] < now
  }

  lemma UsedNow(lru: seq<nat>, lru': seq<nat>, used: seq<int>, e: nat, now: int)
    requires ByLastUse(lru, used) && Distinct(lru) && B.MovedUp(lru, lru', e) && Before(used, now) && e < |used|
    ensures ByLastUse(lru', used[e := now])
  {
    var at :| 0 <= at < |lru| && B.MovedUpFrom(lru, lru', e, at);
    forall i | 0 <= i < |lru'|
      ensures lru'[i] == if i == 0 then e else if i <= at then lru[i - 1] else lru[i]
    {
    }
  }

  // ---------- one step ----------

  /** The entry that caches the slice is the one most recently used now. */
  ghost predicate Touched<D>(s: Store<D>, s': Store<D>, l: nat) {
    exists e: nat :: B.Caches(s'.buf, e, l) && B.MovedUp(s.buf.lru, s'.buf.lru, e)
  }

  lemma TransferKeepsBuffer<D>(s: Store<D>, e: nat, a: Access<D>)
    requires B.Inv(s.buf) && e < |s.buf.entries| == |s.contents|
    requires if a.Read? then a.offset + a.count <= BLOCKS else a.offset + |a.data| <= BLOCKS
    ensures var s' := Transfer(s, e, a).0;
            && B.Inv(s'.buf) && s'.buf.lru == s.buf.lru && |s'.buf.entries| == |s.buf.entries|
            && forall f: nat, l: nat :: B.Caches(s'.buf, f, l) <==> B.Caches(s.buf, f, l)
  {
  }

  lemma EvictKeepsHash<D>(g: Geometry, s: Store<D>, e: nat)
    requires Sized(g, s) && B.InvBut(s.buf, Some(e)) && e < |s.buf.entries| && Evict(g, s, e).Success?
    ensures var s' := Evict(g, s, e).value;
            && B.InvBut(s'.buf, Some(e)) && s'.buf.lru == s.buf.lru
            && forall f: nat, l: nat :: B.Caches(s'.buf, f, l) <==> B.Caches(s.buf, f, l)
  {
    hide AddrTransWrite;
  }

  lemma MissMoves<D>(g: Geometry, s: Store<D>, a: Access<D>)
    requires Sized(g, s) && B.Inv(s.buf) && ValidAccess(g, a) && Miss(g, s, a).Success?
    requires forall e: nat :: !B.Caches(s.buf, e, a.lsa)
    ensures var (s', e) := Miss(g, s, a).value;
            && B.Inv(s'.buf) && B.Caches(s'.buf, e, a.lsa) && B.MovedUp(s.buf.lru, s'.buf.lru, e)
            && |s'.buf.entries| == |s.buf.entries|
  {
    B.AllocationKeeps(s.buf, false);
    var (buf, e) := B.AllocateDataBuf(s.buf, false).value;
    var s0 := s.(buf := buf);
    hide B.AllocateDataBuf, B.MovedUp, B.InvBut, Evict;
    assert Sized(g, s0) by {
      StillSized(g, s, buf, e);
    }
    EvictKeepsHash(g, s0, e);
    var s1 := Evict(g, s0, e).value;
    forall f | 0 <= f < |s1.buf.entries| && f != e
      ensures s1.buf.entries[f].lsa != Some(a.lsa)
    {
      assert !B.Caches(s.buf, f, a.lsa);
      assert B.Caches(s1.buf, f, a.lsa) <==> B.Caches(s0.buf, f, a.lsa);
    }
    B.RehashKeeps(s1.buf, e, a.lsa);
  }

  lemma StillSized<D>(g: Geometry, s: Store<D>, buf: B.Buffer, e: nat)
    requires Sized(g, s) && B.InvBut(buf, Some(e)) && buf.entries == s.buf.entries
    ensures Sized(g, s.(buf := buf))
  {
  }

  lemma ServeTouches<D>(g: Geometry, s: Store<D>, a: Access<D>)
    requires Sized(g, s) && B.Inv(s.buf) && ValidAccess(g, a) && Serve(g, s, a).Success?
    ensures var s' := Serve(g, s, a).value.0;
            B.Inv(s'.buf) && Touched(s, s', a.lsa) && |s'.buf.entries| == |s.buf.entries|
  {
    hide Miss, B.MovedUp, B.Inv, Transfer, B.CheckDataBufHit;
    B.HitKeeps(s.buf, a.lsa);
    match B.CheckDataBufHit(s.buf, a.lsa)
    case (buf, Some(e)) =>
      TransferKeepsBuffer(s.(buf := buf), e, a);
      assert B.Caches(Serve(g, s, a).value.0.buf, e, a.lsa);
    case (_, None) =>
      MissMoves(g, s, a);
      var (s1, e) := Miss(g, s, a).value;
      TransferKeepsBuffer(s1, e, a);
      assert B.Caches(Serve(g, s, a).value.0.buf, e, a.lsa);
  }

  lemma EvictKeepsList<D>(g: Geometry, s: Store<D>, e: nat)
    requires Sized(g, s) && B.Inv(s.buf) && e < |s.buf.entries| && Evict(g, s, e).Success?
    ensures B.Inv(Evict(g, s, e).value.buf) && Evict(g, s, e).value.buf.lru == s.buf.lru
  {
    hide AddrTransWrite;
  }

  lemma {:induction false} FlushKeepsList<D>(g: Geometry, s: Store<D>, i: nat)
    requires Sized(g, s) && B.Inv(s.buf) && i <= |s.buf.lru| && Flush(g, s, i).Success?
    ensures var s' := Flush(g, s, i).value;
            B.Inv(s'.buf) && s'.buf.lru == s.buf.lru && |s'.buf.entries| == |s.buf.entries|
    decreases i
  {
    hide Evict, B.Inv;
    if i > 0 {
      var e := s.buf.lru[i - 1];
      if s.buf.entries[e].pinned {
        FlushKeepsList(g, s, i - 1);
      } else {
        EvictKeepsList(g, s, e);
        FlushKeepsList(g, Evict(g, s, e).value, i - 1);
      }
    }
  }

  /** A slice request uses the entry that caches its slice; nothing else changes the list. */
  lemma StepTouches<D>(g: Geometry, s: Store<D>, v: Event<D>, s': Store<D>, out: seq<D>)
    requires S.Step(g, s, v, s', out)
    ensures B.Inv(s'.buf) && |s'.buf.entries| == |s.buf.entries|
    ensures if v.Slice? then Touched(s, s', v.access.lsa) else s'.buf.lru == s.buf.lru
  {
    match v
    case Slice(a) =>
      hide Serve, B.Inv, Touched;
      ServeTouches(g, s, a);
    case FlushAll =>
      hide Flush, B.Inv;
      FlushKeepsList(g, s, |s.buf.lru|);
    case Pin(e, on) =>
  }

  // ---------- runs ----------

  /** Steps of the store, whether or not they are calm. */
  ghost predicate Run<D>(g: Geometry, states: seq<Store<D>>, events: seq<Event<D>>, outs: seq<seq<D>>) {
    |states| == |events| + 1 && |outs| == |events|
    && forall i :: 0 <= i < |events| ==> S.Step(g, states[i], events[i], states[i + 1], outs[i])
  }

  /** The entry that caches slice l was used at the time. */
  function UsedAt(b: B.Buffer, used: seq<int>, l: nat, now: int): (r: seq<int>)
    ensures |r| == |used|
  {
    match B.Scan(b.entries, l, 0)
    case None => used
    case Some(e) => if e < |used| then used[e := now] else used
  }

  /**
   When each entry was last used in the first n steps, the i-th step being at time i: step i uses the
   entry that caches the slice it serves. start is from before the run.
   */
  function LastUse<D>(states: seq<Store<D>>, events: seq<Event<D>>, start: seq<int>, n: nat): (r: seq<int>)
    requires n <= |events| < |states|
    ensures |r| == |start|
  {
    if n == 0 then start
    else
      var used := LastUse(states, events, start, n - 1);
      match events[n - 1]
      case Slice(a) => UsedAt(states[n].buf, used, a.lsa, n)
      case _ => used
  }

  lemma CachedOnce(b: B.Buffer, e: nat, l: nat)
    requires B.Inv(b) && B.Caches(b, e, l)
    ensures B.Scan(b.entries, l, 0) == Some(e)
  {
  }

  /** In every run the recency list stands in the order of last use. */
  lemma {:induction false} ListIsByLastUse<D>(g: Geometry, states: seq<Store<D>>, events: seq<Event<D>>,
          outs: seq<seq<D>>, start: seq<int>, n: nat)
    requires Run(g, states, events, outs) && n <= |events| && B.Inv(states[0].buf)
    requires |start| == |states[0].buf.entries| && ByLastUse(states[0].buf.lru, start) && Before(start, 1)
    ensures B.Inv(states[n].buf) && |states[n].buf.entries| == |start|
    ensures ByLastUse(states[n].buf.lru, LastUse(states, events, start, n))
    ensures Before(LastUse(states, events, start, n), n + 1)
  {
    hide B.Inv, S.Step, ByLastUse, B.Scan;
    if n > 0 {
      ListIsByLastUse(g, states, events, outs, start, n - 1);
      assert S.Step(g, states[n - 1], events[n - 1], states[n], outs[n - 1]);
      StepTouches(g, states[n - 1], events[n - 1], states[n], outs[n - 1]);
      if events[n - 1].Slice? {
        TouchedIsUsed(states[n - 1].buf, states[n], events[n - 1].access.lsa, LastUse(states, events, start, n - 1), n,
            states[n - 1]);
      }
    }
  }

  lemma TouchedIsUsed<D>(b: B.Buffer, s': Store<D>, l: nat, used: seq<int>, now: int, s: Store<D>)
    requires b == s.buf && B.Inv(b) && B.Inv(s'.buf) && Touched(s, s', l) && |s'.buf.entries| == |used|
    requires ByLastUse(b.lru, used) && Before(used, now)
    ensures ByLastUse(s'.buf.lru, UsedAt(s'.buf, used, l, now)) && Before(UsedAt(s'.buf, used, l, now), now + 1)
  {
    var e: nat :| B.Caches(s'.buf, e, l) && B.MovedUp(s.buf.lru, s'.buf.lru, e);
    CachedOnce(s'.buf, e, l);
    hide B.Scan, ByLastUse, B.MovedUp;
    assert Distinct(b.lru);
    UsedNow(b.lru, s'.buf.lru, used, e, now);
  }

  /** Entry e, which is not pinned, is unused for longer than every other entry it competes with. */
  ghost predicate UnusedLongest(entries: seq<B.Entry>, used: seq<int>, e: nat) {
    && e < |entries| == |used| && !entries[e].pinned
    && forall f :: 0 <= f < |entries| && f != e && !entries[f].pinned && (entries[e].dirty || !entries[f].dirty) ==>
         used[e] < used[f]
  }

  /** By the list, the picked entry is the one unused for the longest time. */
  lemma PickedIsUnused(b: B.Buffer, used: seq<int>, clean: bool)
    requires B.Inv(b) && ByLastUse(b.lru, used) && |used| == |b.entries| && B.Pick(b, clean).Some?
    ensures UnusedLongest(b.entries, used, B.Pick(b, clean).value)
  {
    B.PickIsLeastRecent(b, clean);
    hide B.Pick;
    var i :| 0 <= i < |b.lru| && B.PickedAt(b, clean, i) && B.Pick(b, clean).value == b.lru[i];
    var e := b.lru[i];
    assert forall k :: i < k < |b.lru| ==> B.PassedOver(b, e, b.lru[k]);
    forall f | 0 <= f < |b.entries| && f != e && !b.entries[f].pinned
        && (b.entries[e].dirty || !b.entries[f].dirty)
      ensures used[e] < used[f]
    {
      assert f in b.lru;
      var j :| 0 <= j < |b.lru| && b.lru[j] == f;
    }
  }

  /** The entry a miss gives to the slice is the picked one. */
  lemma MissTakesPicked<D>(g: Geometry, s: Store<D>, a: Access<D>)
    requires Sized(g, s) && B.Inv(s.buf) && ValidAccess(g, a) && Serve(g, s, a).Success?
    requires forall f: nat :: !B.Caches(s.buf, f, a.lsa)
    ensures B.Pick(s.buf, false).Some? && B.Caches(Serve(g, s, a).value.0.buf, B.Pick(s.buf, false).value, a.lsa)
  {
    hide B.MovedUp, B.Inv, Transfer, Evict, Fetch;
    B.HitKeeps(s.buf, a.lsa);
    MissMoves(g, s, a);
    var (s1, e) := Miss(g, s, a).value;
    TransferKeepsBuffer(s1, e, a);
  }

  lemma OnlyCached(b: B.Buffer, e: nat, f: nat, l: nat)
    requires B.Inv(b) && B.Caches(b, e, l) && B.Caches(b, f, l)
    ensures e == f
  {
  }

  /**
   In every run: the entry that caches a slice after it was missed is the unpinned clean one unused for
   the longest time, and a dirty one, unused longest of all unpinned, only if no unpinned one is clean.
   */
  lemma MissEvictsUnused<D>(g: Geometry, states: seq<Store<D>>, events: seq<Event<D>>, outs: seq<seq<D>>,
          start: seq<int>, n: nat, e: nat)
    requires Run(g, states, events, outs) && n < |events| && B.Inv(states[0].buf)
    requires |start| == |states[0].buf.entries| && ByLastUse(states[0].buf.lru, start) && Before(start, 1)
    requires events[n].Slice? && B.Caches(states[n + 1].buf, e, events[n].access.lsa)
    requires forall f: nat :: !B.Caches(states[n].buf, f, events[n].access.lsa)
    ensures var b := states[n].buf;
            && UnusedLongest(b.entries, LastUse(states, events, start, n), e)
            && (b.entries[e].dirty ==> forall f :: 0 <= f < |b.entries| && !b.entries[f].pinned ==> b.entries[f].dirty)
  {
    ListIsByLastUse(g, states, events, outs, start, n);
    assert S.Step(g, states[n], events[n], states[n + 1], outs[n]);
    hide Run, LastUse, ByLastUse;
    MissIsPicked(g, states[n], events[n].access, states[n + 1], outs[n], LastUse(states, events, start, n), e);
  }

  lemma MissIsPicked<D>(g: Geometry, s: Store<D>, a: Access<D>, s': Store<D>, out: seq<D>, used: seq<int>, e: nat)
    requires S.Step(g, s, Slice(a), s', out) && B.Inv(s.buf) && ByLastUse(s.buf.lru, used)
        && |used| == |s.buf.entries|
    requires B.Caches(s'.buf, e, a.lsa) && forall f: nat :: !B.Caches(s.buf, f, a.lsa)
    ensures UnusedLongest(s.buf.entries, used, e)
    ensures s.buf.entries[e].dirty ==> forall f :: 0 <= f < |s.buf.entries| && !s.buf.entries[f].pinned ==>
        s.buf.entries[f].dirty
  {
    hide Serve, B.Inv, B.Pick, ByLastUse, UnusedLongest;
    StepTouches(g, s, Slice(a), s', out);
    MissTakesPicked(g, s, a);
    OnlyCached(s'.buf, e, B.Pick(s.buf, false).value, a.lsa);
    PickedIsUnused(s.buf, used, false);
    B.PickIsLeastRecent(s.buf, false);
  }

  /** The list InitDataBuf starts with: entry 0 counts as used last, before the first step. */
  lemma StartIsByLastUse(n: nat, lru: seq<nat>)
    requires |lru| == n && forall i :: 0 <= i < n ==> lru[i] == i
    ensures ByLastUse(B.Init(n, lru).lru, seq(n, e => -e)) && Before(seq(n, e => -e), 1)
  {
  }
}
