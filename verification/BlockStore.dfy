/**
 The write-back buffer on top of the translation layer, seen by the host as a plain block store.
 A step is one slice request, one flush or one pin change; the requests a step submits are taken to
 act in submission order, which is what the blocking chains of module Requests enforce per entry.
 */
module BlockStore {
  import opened Common
  import B = Buffer
  import opened F = Ftl
  import FI = FtlInvariant

  const BLOCKS: nat := B.NVME_BLOCKS_PER_SLICE

  /** The content of a slice: four NVMe blocks. */
  datatype Page<D> = Page(b0: D, b1: D, b2: D, b3: D) {
    function At(i: nat): D
      requires i < BLOCKS
    {
      if i == 0 then b0 else if i == 1 then b1 else if i == 2 then b2 else b3
    }
  }

  /** The page after data was transferred to its blocks offset, offset + 1, ... */
  function Overlay<D>(p: Page<D>, offset: nat, data: seq<D>): (r: Page<D>)
    requires offset + |data| <= BLOCKS
    ensures forall i :: 0 <= i < BLOCKS ==> r.At(i) == if offset <= i < offset + |data| then data[i - offset]
        else p.At(i)
  {
    Page(
      if offset == 0 < |data| then data[0] else p.b0,
      if offset <= 1 < offset + |data| then data[1 - offset] else p.b1,
      if offset <= 2 < offset + |data| then data[2 - offset] else p.b2,
      if offset <= 3 < offset + |data| then data[3 - offset] else p.b3)
  }

  /** contents[e] is what buffer entry e holds. */
  datatype Store<D> = Store(buf: B.Buffer, contents: seq<Page<D>>, ftl: Ftl<Page<D>>)

  datatype Access<D> = Read(lsa: nat, offset: nat, count: nat) | Write(lsa: nat, offset: nat, data: seq<D>)

  datatype Stop = AllPinned | Miscounted | Device(halt: Halt)

  ghost predicate Sized<D>(g: Geometry, s: Store<D>) {
    && Shape(g, s.ftl) && B.Shape(s.buf) && |s.contents| == |s.buf.entries|
    && (forall e :: 0 <= e < |s.buf.entries| && s.buf.entries[e].lsa.Some? ==> s.buf.entries[e].lsa.value < g.slices)
  }

  predicate ValidAccess<D>(g: Geometry, a: Access<D>) {
    && a.lsa < g.slices
    && match a
       case Read(_, offset, count) => 1 <= count && offset + count <= BLOCKS
       case Write(_, offset, data) => 1 <= |data| && offset + |data| <= BLOCKS
  }

  // ---------- the steps ----------

  /** EvictDataBufEntry: a dirty entry is written out and is clean afterwards. */
  function Evict<D>(g: Geometry, s: Store<D>, e: nat): (r: Result<Store<D>, Stop>)
    requires Sized(g, s) && e < |s.buf.entries|
    ensures r.Success? ==> Sized(g, r.value)
    ensures r.Success? ==> r.value.buf == s.buf.(entries := r.value.buf.entries) && r.value.contents == s.contents
    ensures r.Success? ==> |r.value.buf.entries| == |s.buf.entries|
  {
    var k := s.buf.entries[e];
    if !k.dirty || k.lsa.None? then Success(s)
    else if !Countable(g, s.ftl, k.lsa.value) then Failure(Miscounted)
    else
      match AddrTransWrite(g, s.ftl, k.lsa.value, s.contents[e])
      case Failure(halt) => Failure(Device(halt))
      case Success((ftl, _)) =>
        Success(Store(s.buf.(entries := s.buf.entries[e := k.(dirty := false, full := 0)]), s.contents, ftl))
  }

  /** DataReadFromNand: nothing is read for a slice that was never mapped. */
  function Load<D>(s: Store<D>, e: nat, l: nat): Store<D>
    requires e < |s.contents| && l < |s.ftl.l2v|
  {
    match Lookup(s.ftl, l)
    case None => s
    case Some(p) => s.(contents := s.contents[e := p])
  }

  /** A write of the whole slice needs nothing from flash. */
  predicate NeedsLoad<D>(a: Access<D>) {
    a.Write? ==> |a.data| != BLOCKS
  }

  /** The store after clean entry e was given to the slice of the access. */
  function Fetch<D>(s: Store<D>, e: nat, a: Access<D>): (r: Store<D>)
    requires e < |s.buf.entries| == |s.buf.chains| == |s.contents| && a.lsa < |s.ftl.l2v|
    ensures r.ftl == s.ftl && |r.buf.entries| == |s.buf.entries| == |r.contents|
  {
    var s2 := s.(buf := B.Rehash(s.buf, e, a.lsa));
    if NeedsLoad(a) then Load(s2, e, a.lsa) else s2
  }

  /** The miss path of ReqTransSliceToLowLevel. */
  function Miss<D>(g: Geometry, s: Store<D>, a: Access<D>): (r: Result<(Store<D>, nat), Stop>)
    requires Sized(g, s) && B.Inv(s.buf) && ValidAccess(g, a)
    ensures r.Success? ==> r.value.1 < |r.value.0.buf.entries| == |r.value.0.contents|
  {
    match B.AllocateDataBuf(s.buf, false)
    case None => Failure(AllPinned)
    case Some((buf, e)) =>
      B.AllocationKeeps(s.buf, false);
      var s1 :- Evict(g, s.(buf := buf), e);
      Success((Fetch(s1, e, a), e))
  }

  /** The DMA between host and buffer entry. */
  function Transfer<D>(s: Store<D>, e: nat, a: Access<D>): (Store<D>, seq<D>)
    requires e < |s.buf.entries| == |s.contents|
    requires if a.Read? then a.offset + a.count <= BLOCKS else a.offset + |a.data| <= BLOCKS
  {
    match a
    case Read(_, offset, count) => (s, seq(count, i requires 0 <= i < count => s.contents[e].At(offset + i)))
    case Write(_, offset, data) =>
      var k := s.buf.entries[e];
      var k' := k.(dirty := true, full := (k.full + |data|) % 2);
      (s.(buf := s.buf.(entries := s.buf.entries[e := k']), contents :=
          s.contents[e := Overlay(s.contents[e], offset, data)]), [])
  }

  /** One slice request of ReqTransSliceToLowLevel. */
  function Serve<D>(g: Geometry, s: Store<D>, a: Access<D>): (r: Result<(Store<D>, seq<D>), Stop>)
    requires Sized(g, s) && B.Inv(s.buf) && ValidAccess(g, a)
  {
    match B.CheckDataBufHit(s.buf, a.lsa)
    case (buf, Some(e)) => Success(Transfer(s.(buf := buf), e, a))
    case (_, None) =>
      var (s1, e) :- Miss(g, s, a);
      Success(Transfer(s1, e, a))
  }

  /** FlushAllDataBuf from position i - 1 of the recency list towards its head. */
  function Flush<D>(g: Geometry, s: Store<D>, i: nat): (r: Result<Store<D>, Stop>)
    requires Sized(g, s) && i <= |s.buf.lru|
    ensures r.Success? ==> Sized(g, r.value)
    decreases i
  {
    if i == 0 then Success(s)
    else
      var e := s.buf.lru[i - 1];
      if s.buf.entries[e].pinned then Flush(g, s, i - 1)
      else
        var s' :- Evict(g, s, e);
        Flush(g, s', i - 1)
  }

  function SetPin<D>(s: Store<D>, e: nat, pin: bool): Store<D>
    requires e < |s.buf.entries|
  {
    s.(buf := s.buf.(entries := s.buf.entries[e := s.buf.entries[e].(pinned := pin)]))
  }

  // ---------- the store the host sees ----------

  /** The block address of block i of slice l. */
  function Lba(l: nat, i: nat): nat {
    BLOCKS * l + i
  }

  /** The store after data was written from block address lba on. */
  function Overwrite<D>(m: map<nat, D>, lba: nat, data: seq<D>): (r: map<nat, D>)
    ensures forall k :: k in r <==> k in m || lba <= k < lba + |data|
    ensures forall k :: k in r ==> r[k] == if lba <= k < lba + |data| then data[k - lba] else m[k]
    decreases |data|
  {
    if data == [] then m else Overwrite(m[lba := data[0]], lba + 1, data[1..])
  }

  /** The page has every block of slice l that was ever written. */
  ghost predicate Holds<D>(page: Option<Page<D>>, m: map<nat, D>, l: nat) {
    forall i :: 0 <= i < BLOCKS && Lba(l, i) in m ==> page.Some? && page.value.At(i) == m[Lba(l, i)]
  }

  ghost predicate Dirty<D>(s: Store<D>, l: nat) {
    exists e: nat :: B.Caches(s.buf, e, l) && s.buf.entries[e].dirty
  }

  ghost predicate Unique(buf: B.Buffer) {
    forall e: nat, f: nat, l: nat :: B.Caches(buf, e, l) && B.Caches(buf, f, l) ==> e == f
  }

  /** Entry e, if it caches a slice, holds it. */
  ghost predicate EntryHolds<D>(s: Store<D>, m: map<nat, D>, e: nat)
    requires e < |s.buf.entries| == |s.contents|
  {
    s.buf.entries[e].lsa.Some? ==> Holds(Some(s.contents[e]), m, s.buf.entries[e].lsa.value)
  }

  /** Unless a dirty entry caches it, slice l is in flash. */
  ghost predicate FlashHolds<D>(s: Store<D>, m: map<nat, D>, l: nat)
    requires l < |s.ftl.l2v|
  {
    Dirty(s, l) || Holds(Lookup(s.ftl, l), m, l)
  }

  /** Buffer and flash together hold m; the content of entry but does not count. */
  ghost predicate HoldsBut<D>(g: Geometry, s: Store<D>, m: map<nat, D>, but: Option<nat>) {
    && Sized(g, s) && Unique(s.buf)
    && (forall k :: k in m ==> k < BLOCKS * g.slices)
    && (forall e :: 0 <= e < |s.buf.entries| && s.buf.entries[e].dirty ==> s.buf.entries[e].lsa.Some?)
    && (forall e :: 0 <= e < |s.buf.entries| && but != Some(e) ==> EntryHolds(s, m, e))
    && (forall l :: 0 <= l < g.slices ==> FlashHolds(s, m, l))
  }

  /** The store behaves as m: buffer content if the slice is cached, else what flash has. */
  ghost predicate Refines<D>(g: Geometry, s: Store<D>, m: map<nat, D>) {
    B.Inv(s.buf) && HoldsBut(g, s, m, None)
  }

  function Apply<D>(m: map<nat, D>, a: Access<D>): map<nat, D> {
    match a
    case Read(_, _, _) => m
    case Write(l, offset, data) => Overwrite(m, Lba(l, offset), data)
  }

  /** What was read are the values last written, where anything was written. */
  ghost predicate ReadsBack<D>(m: map<nat, D>, a: Access<D>, out: seq<D>) {
    a.Read? ==> |out| == a.count && forall i :: 0 <= i < a.count && Lba(a.lsa, a.offset + i) in m ==>
        out[i] == m[Lba(a.lsa, a.offset + i)]
  }

  // ---------- eviction ----------

  ghost function TargetDie<D>(g: Geometry, ftl: Ftl<D>, l: nat): (r: Die)
    requires Shape(g, ftl) && l < g.slices && Countable(g, ftl, l)
    ensures DieShape(g, r)
  {
    InvalidateOldVsa(g, ftl, l).dies[ftl.target]
  }

  /** Writing slice l stops the device: its target die must collect and has no stale slice. */
  ghost predicate Stuck<D>(g: Geometry, ftl: Ftl<D>, l: nat)
    requires Shape(g, ftl) && l < g.slices
  {
    Countable(g, ftl, l) ==>
      FI.MustCollect(g, TargetDie(g, ftl, l)) && PickVictim(TargetDie(g, ftl, l), g.pages) == None
  }

  /** Writing slice l collects a current block without live slices. */
  ghost predicate CollectsCurrent<D>(g: Geometry, ftl: Ftl<D>, l: nat)
    requires Shape(g, ftl) && l < g.slices
  {
    Countable(g, ftl, l) ==> FI.MustCollect(g, TargetDie(g, ftl, l)) && FI.FullyInvalidCurrent(g, TargetDie(g, ftl, l))
  }

  lemma EvictSpec<D>(g: Geometry, s: Store<D>, m: map<nat, D>, e: nat)
    requires HoldsBut(g, s, m, None) && FI.Inv(g, s.ftl) && e < |s.buf.entries|
    ensures var k := s.buf.entries[e]; var r := Evict(g, s, e);
            && (r.Failure? <==> k.dirty && Stuck(g, s.ftl, k.lsa.value))
            && (r.Failure? ==> r.error == Device(NoVictim))
            && (r.Success? ==>
                  && HoldsBut(g, r.value, m, None)
                  && r.value.buf == s.buf.(entries :=
                      s.buf.entries[e := if k.dirty then k.(dirty := false, full := 0) else k])
                  && (FI.Inv(g, r.value.ftl) <==> !(k.dirty && CollectsCurrent(g, s.ftl, k.lsa.value))))
  {
    var k := s.buf.entries[e];
    if k.dirty {
      var l := k.lsa.value;
      FI.AddrTransWriteSpec(g, s.ftl, l, s.contents[e]);
      var r := Evict(g, s, e);
      if r.Success? {
        EvictedHolds(g, s, m, e, r.value);
      }
    }
  }

  /** What a written-out entry held is in flash; nothing else changed. */
  lemma EvictedHolds<D>(g: Geometry, s: Store<D>, m: map<nat, D>, e: nat, s': Store<D>)
    requires HoldsBut(g, s, m, None) && e < |s.buf.entries| && s.buf.entries[e].dirty
    requires Sized(g, s') && s'.contents == s.contents
    requires s'.buf == s.buf.(entries := s.buf.entries[e := s.buf.entries[e].(dirty := false, full := 0)])
    requires var l := s.buf.entries[e].lsa.value;
             && Lookup(s'.ftl, l) == Some(s.contents[e])
             && (forall j :: 0 <= j < g.slices && j != l ==> Lookup(s'.ftl, j) == Lookup(s.ftl, j))
    ensures HoldsBut(g, s', m, None)
  {
    hide Lookup;
    var l := s.buf.entries[e].lsa.value;
    forall f | 0 <= f < |s'.buf.entries|
      ensures EntryHolds(s', m, f)
    {
      assert EntryHolds(s, m, f);
    }
    forall j | 0 <= j < g.slices
      ensures FlashHolds(s', m, j)
    {
      assert FlashHolds(s, m, j) && EntryHolds(s, m, e);
      if j != l && Dirty(s, j) {
        var f: nat :| B.Caches(s.buf, f, j) && s.buf.entries[f].dirty;
        assert B.Caches(s'.buf, f, j) && s'.buf.entries[f].dirty;
      }
    }
    forall a: nat, b: nat, j: nat | B.Caches(s'.buf, a, j) && B.Caches(s'.buf, b, j)
      ensures a == b
    {
      assert B.Caches(s.buf, a, j) && B.Caches(s.buf, b, j);
    }
  }

  /** Writing out the allocated entry leaves it out of the chains, and only it. */
  lemma EvictKeepsHeld<D>(g: Geometry, s: Store<D>, e: nat)
    requires Sized(g, s) && e < |s.buf.entries| && B.InvBut(s.buf, Some(e)) && Evict(g, s, e).Success?
    ensures B.InvBut(Evict(g, s, e).value.buf, Some(e))
  {
    hide AddrTransWrite;
  }

  // ---------- a miss ----------

  /** Giving clean entry e to a slice nobody caches. */
  lemma RehashHolds<D>(g: Geometry, s: Store<D>, m: map<nat, D>, e: nat, l: nat, s': Store<D>)
    requires HoldsBut(g, s, m, None) && e < |s.buf.entries| && !s.buf.entries[e].dirty && l < g.slices
    requires forall f: nat :: !B.Caches(s.buf, f, l)
    requires s' == s.(buf := s'.buf) && B.Shape(s'.buf)
    requires s'.buf.entries == s.buf.entries[e := s.buf.entries[e].(lsa := Some(l))]
    ensures HoldsBut(g, s', m, Some(e)) && Holds(Lookup(s'.ftl, l), m, l)
  {
    hide Lookup;
    forall f | 0 <= f < |s'.buf.entries| && f != e
      ensures EntryHolds(s', m, f)
    {
      assert EntryHolds(s, m, f);
    }
    forall j | 0 <= j < g.slices
      ensures FlashHolds(s', m, j)
    {
      assert FlashHolds(s, m, j);
      if Dirty(s, j) {
        var f: nat :| B.Caches(s.buf, f, j) && s.buf.entries[f].dirty;
        assert B.Caches(s'.buf, f, j) && s'.buf.entries[f].dirty;
      }
    }
    forall a: nat, b: nat, j: nat | B.Caches(s'.buf, a, j) && B.Caches(s'.buf, b, j)
      ensures a == b
    {
      assert a != e ==> B.Caches(s.buf, a, j);
      assert b != e ==> B.Caches(s.buf, b, j);
    }
    assert FlashHolds(s, m, l);
  }

  /** After the read from flash the entry holds its slice; if there was nothing to read, nothing was ever written. */
  lemma LoadHolds<D>(g: Geometry, s: Store<D>, m: map<nat, D>, e: nat, l: nat)
    requires HoldsBut(g, s, m, Some(e)) && B.Caches(s.buf, e, l) && l < g.slices && Holds(Lookup(s.ftl, l), m, l)
    ensures HoldsBut(g, Load(s, e, l), m, None)
  {
    hide Lookup;
    var s' := Load(s, e, l);
    forall f | 0 <= f < |s'.buf.entries|
      ensures EntryHolds(s', m, f)
    {
      assert f != e ==> EntryHolds(s, m, f);
    }
    forall j | 0 <= j < g.slices
      ensures FlashHolds(s', m, j)
    {
      assert FlashHolds(s, m, j);
    }
  }

  // ---------- the transfer ----------

  lemma ReadReads<D>(g: Geometry, s: Store<D>, m: map<nat, D>, e: nat, a: Access<D>)
    requires HoldsBut(g, s, m, None) && a.Read? && ValidAccess(g, a) && B.Caches(s.buf, e, a.lsa)
    ensures ReadsBack(m, a, Transfer(s, e, a).1)
  {
    assert EntryHolds(s, m, e);
  }

  /** A transfer into the entry; the old content of the entry counts only if some of it stays. */
  lemma WriteHolds<D>(g: Geometry, s: Store<D>, m: map<nat, D>, e: nat, a: Access<D>)
    requires a.Write? && ValidAccess(g, a) && B.Caches(s.buf, e, a.lsa)
    requires B.Inv(s.buf) && HoldsBut(g, s, m, if NeedsLoad(a) then None else Some(e))
    ensures Refines(g, Transfer(s, e, a).0, Apply(m, a))
  {
    var s', m' := Transfer(s, e, a).0, Apply(m, a);
    WriteKeepsUnique(s, e, a);
    assert Sized(g, s') && forall k :: k in m' ==> k < BLOCKS * g.slices;
    forall f | 0 <= f < |s'.buf.entries|
      ensures EntryHolds(s', m', f)
    {
      assert f != e ==> EntryHolds(s, m, f) && !B.Caches(s.buf, f, a.lsa);
      assert NeedsLoad(a) ==> EntryHolds(s, m, e);
      hide HoldsBut, B.Inv, Unique;
      WrittenEntry(s, m, e, a, f);
    }
    forall j | 0 <= j < g.slices
      ensures FlashHolds(s', m', j)
    {
      assert FlashHolds(s, m, j);
      hide HoldsBut, B.Inv, Unique;
      WrittenFlash(s, m, e, a, j);
    }
    hide B.Inv, Unique, EntryHolds, FlashHolds, Transfer, Apply;
  }

  /** What the entries hold after a write to entry e. */
  lemma WrittenEntry<D>(s: Store<D>, m: map<nat, D>, e: nat, a: Access<D>, f: nat)
    requires a.Write? && a.offset + |a.data| <= BLOCKS && B.Caches(s.buf, e, a.lsa) && |s.contents| == |s.buf.entries|
        && f < |s.contents|
    requires if f == e then (NeedsLoad(a) ==> EntryHolds(s, m, e))
        else EntryHolds(s, m, f) && !B.Caches(s.buf, f, a.lsa)
    ensures var s' := Transfer(s, e, a).0;
        |s'.contents| == |s'.buf.entries| == |s.contents| && EntryHolds(s', Apply(m, a), f)
  {
  }

  /** What flash holds after it: the slice written is dirty, and the others are as they were. */
  lemma WrittenFlash<D>(s: Store<D>, m: map<nat, D>, e: nat, a: Access<D>, j: nat)
    requires a.Write? && a.offset + |a.data| <= BLOCKS && B.Caches(s.buf, e, a.lsa) && |s.contents| == |s.buf.entries|
    requires j < |s.ftl.l2v| && FlashHolds(s, m, j)
    ensures FlashHolds(Transfer(s, e, a).0, Apply(m, a), j)
  {
    hide Lookup;
    var s' := Transfer(s, e, a).0;
    if j == a.lsa {
      assert B.Caches(s'.buf, e, j) && s'.buf.entries[e].dirty;
    } else if Dirty(s, j) {
      var f: nat :| B.Caches(s.buf, f, j) && s.buf.entries[f].dirty;
      assert B.Caches(s'.buf, f, j) && s'.buf.entries[f].dirty;
    }
  }

  lemma WriteKeepsUnique<D>(s: Store<D>, e: nat, a: Access<D>)
    requires a.Write? && a.offset + |a.data| <= BLOCKS && e < |s.buf.entries| == |s.contents|
    requires Unique(s.buf) && B.Inv(s.buf)
    ensures Unique(Transfer(s, e, a).0.buf) && B.Inv(Transfer(s, e, a).0.buf)
  {
    var s' := Transfer(s, e, a).0;
    assert forall f: nat, l: nat :: B.Caches(s'.buf, f, l) <==> B.Caches(s.buf, f, l);
  }

  // ---------- one slice request ----------

  /** The entry a miss takes over, and whether writing out what it held stops the device or breaks its invariant. */
  ghost predicate MissFails<D>(g: Geometry, s: Store<D>)
    requires Sized(g, s) && B.Inv(s.buf)
  {
    match B.AllocateDataBuf(s.buf, false)
    case None => true
    case Some((_, e)) =>
      B.AllocationKeeps(s.buf, false);
      s.buf.entries[e].dirty && s.buf.entries[e].lsa.Some? && Stuck(g, s.ftl, s.buf.entries[e].lsa.value)
  }

  ghost predicate MissCollectsCurrent<D>(g: Geometry, s: Store<D>)
    requires Sized(g, s) && B.Inv(s.buf)
  {
    match B.AllocateDataBuf(s.buf, false)
    case None => false
    case Some((_, e)) =>
      B.AllocationKeeps(s.buf, false);
      s.buf.entries[e].dirty && s.buf.entries[e].lsa.Some? && CollectsCurrent(g, s.ftl, s.buf.entries[e].lsa.value)
  }

  /** Reordering the recency list and taking an entry out of its chain changes nothing the host can see. */
  lemma ListsDoNotMatter<D>(g: Geometry, s: Store<D>, m: map<nat, D>, buf: B.Buffer)
    requires HoldsBut(g, s, m, None) && B.Shape(buf) && buf.entries == s.buf.entries
    ensures HoldsBut(g, s.(buf := buf), m, None)
  {
    hide Lookup;
    var s' := s.(buf := buf);
    assert forall e: nat, l: nat :: B.Caches(buf, e, l) <==> B.Caches(s.buf, e, l);
    forall e | 0 <= e < |buf.entries|
      ensures EntryHolds(s', m, e)
    {
      assert EntryHolds(s, m, e);
    }
    forall l | 0 <= l < g.slices
      ensures FlashHolds(s', m, l)
    {
      assert FlashHolds(s, m, l);
      if Dirty(s, l) {
        var f: nat :| B.Caches(s.buf, f, l) && s.buf.entries[f].dirty;
        assert B.Caches(buf, f, l) && buf.entries[f].dirty;
      }
    }
  }

  lemma AllocatedFits<D>(g: Geometry, s: Store<D>)
    requires Sized(g, s) && B.Inv(s.buf)
    ensures match B.AllocateDataBuf(s.buf, false)
            case None => true
            case Some((b, e)) => e < |b.entries| && B.InvBut(b, Some(e)) && b.entries == s.buf.entries && Sized(g,
                s.(buf := b))
  {
    if B.AllocateDataBuf(s.buf, false).Some? {
      B.AllocationKeeps(s.buf, false);
    }
    hide B.AllocateDataBuf;
  }

  /** A miss: the eviction of the allocated entry, and then its new slice. */
  lemma MissUnfold<D>(g: Geometry, s: Store<D>, a: Access<D>)
    requires Sized(g, s) && B.Inv(s.buf) && ValidAccess(g, a)
    ensures match B.AllocateDataBuf(s.buf, false)
            case None => Miss(g, s, a) == Failure(AllPinned)
            case Some((buf, e)) =>
              && Sized(g, s.(buf := buf)) && e < |buf.entries|
              && match Evict(g, s.(buf := buf), e)
                 case Failure(f) => Miss(g, s, a) == Failure(f)
                 case Success(s1) => Miss(g, s, a) == Success((Fetch(s1, e, a), e))
  {
    if B.AllocateDataBuf(s.buf, false).Some? {
      B.AllocationKeeps(s.buf, false);
    }
    hide Evict, B.Rehash, B.AllocateDataBuf;
  }

  lemma MissSpec<D>(g: Geometry, s: Store<D>, m: map<nat, D>, a: Access<D>)
    requires Refines(g, s, m) && FI.Inv(g, s.ftl) && ValidAccess(g, a)
    requires forall f: nat :: !B.Caches(s.buf, f, a.lsa)
    ensures var r := Miss(g, s, a);
            && (r.Failure? <==> MissFails(g, s))
            && (r.Failure? ==> r.error == if B.AllocateDataBuf(s.buf, false).None? then AllPinned else Device(NoVictim))
            && (r.Success? ==>
                  var (s', e) := r.value;
                  && B.Inv(s'.buf) && B.Caches(s'.buf, e, a.lsa)
                  && HoldsBut(g, s', m, if NeedsLoad(a) then None else Some(e))
                  && (FI.Inv(g, s'.ftl) <==> !MissCollectsCurrent(g, s)))
  {
    if B.AllocateDataBuf(s.buf, false).Some? {
      var (buf, e) := B.AllocateDataBuf(s.buf, false).value;
      B.AllocationKeeps(s.buf, false);
      var s0 := s.(buf := buf);
      assert HoldsBut(g, s, m, None) && B.Shape(buf) && s.buf.entries[e].dirty ==> s.buf.entries[e].lsa.Some?;
      assert forall f: nat :: B.Caches(s0.buf, f, a.lsa) <==> B.Caches(s.buf, f, a.lsa);
      MissUnfold(g, s, a);
      hide FI.Inv, Stuck, CollectsCurrent, HoldsBut, B.InvBut, B.Shape, B.AllocateDataBuf, Evict, B.Rehash, B.Caches,
          Miss, Sized, Load;
      ListsDoNotMatter(g, s, m, buf);
      EvictSpec(g, s0, m, e);
      if Evict(g, s0, e).Success? {
        MissAfterEviction(g, s0, m, e, a, Evict(g, s0, e).value);
      }
    }
  }

  lemma MissAfterEviction<D>(g: Geometry, s0: Store<D>, m: map<nat, D>, e: nat, a: Access<D>, s1: Store<D>)
    requires B.InvBut(s0.buf, Some(e)) && e < |s0.buf.entries| && ValidAccess(g, a)
    requires forall f: nat :: !B.Caches(s0.buf, f, a.lsa)
    requires HoldsBut(g, s1, m, None)
    requires var k := s0.buf.entries[e];
        s1.buf == s0.buf.(entries := s0.buf.entries[e := if k.dirty then k.(dirty := false, full := 0) else k])
    ensures var s' := Fetch(s1, e, a);
            && B.Inv(s'.buf) && B.Caches(s'.buf, e, a.lsa) && HoldsBut(g, s', m, if NeedsLoad(a) then None else Some(e))
  {
    assert B.InvBut(s1.buf, Some(e)) && forall f: nat :: B.Caches(s1.buf, f, a.lsa) <==> B.Caches(s0.buf, f, a.lsa);
    forall f | 0 <= f < |s1.buf.entries|
      ensures s1.buf.entries[f].lsa != Some(a.lsa)
    {
      assert !B.Caches(s1.buf, f, a.lsa);
    }
    B.RehashKeeps(s1.buf, e, a.lsa);
    var s2 := s1.(buf := B.Rehash(s1.buf, e, a.lsa));
    assert B.Shape(s2.buf);
    hide B.InvBut, Lookup;
    RehashHolds(g, s1, m, e, a.lsa, s2);
    if NeedsLoad(a) {
      LoadHolds(g, s2, m, e, a.lsa);
    }
  }

  /**
   A slice request on a store that behaves as m. It stops the device exactly if the slice is not
   cached and either every entry is pinned or writing out the evicted entry finds no stale slice to
   collect; otherwise reads return the values last written, the store afterwards behaves as m with the
   write applied, and the translation layer keeps its invariant exactly if the eviction did not
   collect a fully invalid current block.
   */
  lemma ServeSpec<D>(g: Geometry, s: Store<D>, m: map<nat, D>, a: Access<D>)
    requires Refines(g, s, m) && FI.Inv(g, s.ftl) && ValidAccess(g, a)
    ensures var miss := B.Scan(s.buf.entries, a.lsa, 0).None?;
            var r := Serve(g, s, a);
            && (r.Failure? <==> miss && MissFails(g, s))
            && (r.Failure? ==> r.error == if B.AllocateDataBuf(s.buf, false).None? then AllPinned else Device(NoVictim))
            && (r.Success? ==>
                  var (s', out) := r.value;
                  && Refines(g, s', Apply(m, a)) && ReadsBack(m, a, out)
                  && (FI.Inv(g, s'.ftl) <==> !(miss && MissCollectsCurrent(g, s))))
  {
    match B.Scan(s.buf.entries, a.lsa, 0)
    case Some(e) =>
      var buf := B.CheckDataBufHit(s.buf, a.lsa).0;
      B.HitKeeps(s.buf, a.lsa);
      ListsDoNotMatter(g, s, m, buf);
      ServeTransfer(g, s.(buf := buf), m, e, a);
    case None =>
      assert forall f: nat :: !B.Caches(s.buf, f, a.lsa);
      MissSpec(g, s, m, a);
      if Miss(g, s, a).Success? {
        ServeTransfer(g, Miss(g, s, a).value.0, m, Miss(g, s, a).value.1, a);
      }
  }

  lemma ServeTransfer<D>(g: Geometry, s: Store<D>, m: map<nat, D>, e: nat, a: Access<D>)
    requires B.Inv(s.buf) && ValidAccess(g, a) && B.Caches(s.buf, e, a.lsa)
    requires HoldsBut(g, s, m, None) || (!NeedsLoad(a) && HoldsBut(g, s, m, Some(e)))
    ensures var (s', out) := Transfer(s, e, a);
            Refines(g, s', Apply(m, a)) && ReadsBack(m, a, out) && s'.ftl == s.ftl
  {
    if a.Write? {
      WriteHolds(g, s, m, e, a);
    } else {
      ReadReads(g, s, m, e, a);
    }
  }

  // ---------- flush ----------

  /** No write of the flush collects a current block without live slices. */
  ghost predicate FlushCalm<D>(g: Geometry, s: Store<D>, i: nat)
    requires Sized(g, s) && i <= |s.buf.lru|
    decreases i
  {
    i > 0 ==>
      var e := s.buf.lru[i - 1];
      var k := s.buf.entries[e];
      if k.pinned then FlushCalm(g, s, i - 1)
      else
        && (k.dirty && k.lsa.Some? ==> !CollectsCurrent(g, s.ftl, k.lsa.value))
        && (Evict(g, s, e).Success? ==> FlushCalm(g, Evict(g, s, e).value, i - 1))
  }

  /**
   The first i entries of the recency list, as far as they are not pinned, are clean in s'; the
   other entries are as in s.
   */
  ghost predicate FlushedTo(s: B.Buffer, s': B.Buffer, i: nat)
    requires B.Shape(s) && i <= |s.lru|
  {
    && s' == s.(entries := s'.entries) && |s'.entries| == |s.entries|
    && (forall e :: 0 <= e < |s.entries| ==>
        s'.entries[e] == s.entries[e] || (!s.entries[e].pinned
        && s'.entries[e] == s.entries[e].(dirty := false, full := 0)))
    && (forall j :: 0 <= j < i && !s.entries[s.lru[j]].pinned ==> !s'.entries[s.lru[j]].dirty)
  }

  lemma EvictKeepsBuffer(b: B.Buffer, e: nat)
    requires B.Inv(b) && e < |b.entries|
    ensures B.Inv(b.(entries := b.entries[e := b.entries[e].(dirty := false, full := 0)]))
  {
  }

  function Cleaned(b: B.Buffer, e: nat): B.Buffer
    requires e < |b.entries|
  {
    var k := b.entries[e];
    b.(entries := b.entries[e := if k.dirty then k.(dirty := false, full := 0) else k])
  }

  lemma FlushedMore(b: B.Buffer, b': B.Buffer, i: nat)
    requires B.Shape(b) && 0 < i <= |b.lru|
    requires if b.entries[b.lru[i - 1]].pinned then FlushedTo(b, b', i - 1)
        else B.Shape(Cleaned(b, b.lru[i - 1])) && FlushedTo(Cleaned(b, b.lru[i - 1]), b', i - 1)
    ensures FlushedTo(b, b', i)
  {
  }

  lemma FlushedNone(b: B.Buffer)
    requires B.Shape(b)
    ensures FlushedTo(b, b, 0)
  {
  }

  /** When its turn comes, an entry of the walk has to be written out and its die has nothing to collect. */
  ghost predicate FlushStuck<D>(g: Geometry, s: Store<D>, i: nat)
    requires Sized(g, s) && i <= |s.buf.lru|
    decreases i
  {
    i > 0 &&
      var e := s.buf.lru[i - 1];
      var k := s.buf.entries[e];
      if k.pinned then FlushStuck(g, s, i - 1)
      else
        || (k.dirty && k.lsa.Some? && Stuck(g, s.ftl, k.lsa.value))
        || (Evict(g, s, e).Success? && FlushStuck(g, Evict(g, s, e).value, i - 1))
  }

  lemma RefinesSized<D>(g: Geometry, s: Store<D>, m: map<nat, D>)
    requires Refines(g, s, m)
    ensures Sized(g, s) && B.Shape(s.buf) && |s.contents| == |s.buf.entries| && B.Inv(s.buf) && HoldsBut(g, s, m, None)
    ensures forall e :: 0 <= e < |s.buf.entries| && s.buf.entries[e].dirty ==> s.buf.entries[e].lsa.Some?
  {
  }

  /** Writing out one entry, for the walks of the flush. */
  lemma EvictRefines<D>(g: Geometry, s: Store<D>, m: map<nat, D>, e: nat)
    requires Refines(g, s, m) && FI.Inv(g, s.ftl) && e < |s.buf.entries|
    ensures Sized(g, s)
    ensures var k := s.buf.entries[e]; var r := Evict(g, s, e);
            && (k.dirty ==> k.lsa.Some?)
            && (r.Failure? <==> k.dirty && Stuck(g, s.ftl, k.lsa.value))
            && (r.Failure? ==> r.error == Device(NoVictim))
            && (r.Success? ==>
                  && Refines(g, r.value, m) && r.value.buf == Cleaned(s.buf, e)
                  && (FI.Inv(g, r.value.ftl) <==> !(k.dirty && CollectsCurrent(g, s.ftl, k.lsa.value))))
  {
    hide FI.Inv, Stuck, CollectsCurrent, HoldsBut, B.InvBut;
    RefinesSized(g, s, m);
    EvictSpec(g, s, m, e);
    EvictKeepsBuffer(s.buf, e);
  }

  /**
   A flush stops the device exactly if one of its entries is stuck; otherwise it keeps everything
   and cleans what is not pinned.
   */
  lemma {:induction false} FlushSpec<D>(g: Geometry, s: Store<D>, m: map<nat, D>, i: nat)
    requires Refines(g, s, m) && FI.Inv(g, s.ftl) && i <= |s.buf.lru| && FlushCalm(g, s, i)
    ensures var r := Flush(g, s, i);
            && (r.Failure? <==> FlushStuck(g, s, i)) && (r.Failure? ==> r.error == Device(NoVictim))
            && (r.Success? ==> Refines(g, r.value, m) && FI.Inv(g, r.value.ftl) && FlushedTo(s.buf, r.value.buf, i))
    decreases i
  {
    hide FI.Inv, Stuck, CollectsCurrent, Refines, FlushedTo, Evict;
    RefinesSized(g, s, m);
    if i == 0 {
      FlushedNone(s.buf);
    } else {
      var e := s.buf.lru[i - 1];
      if s.buf.entries[e].pinned {
        FlushSpec(g, s, m, i - 1);
        if Flush(g, s, i - 1).Success? {
          FlushedMore(s.buf, Flush(g, s, i - 1).value.buf, i);
        }
      } else {
        EvictRefines(g, s, m, e);
        if Evict(g, s, e).Success? {
          var s' := Evict(g, s, e).value;
          RefinesSized(g, s', m);
          FlushSpec(g, s', m, i - 1);
          if Flush(g, s', i - 1).Success? {
            FlushedMore(s.buf, Flush(g, s', i - 1).value.buf, i);
          }
        }
      }
    }
  }

  /** In every state the walk goes through the translation layer keeps its invariant. */
  ghost predicate FlushKeepsInv<D>(g: Geometry, s: Store<D>, i: nat)
    requires Sized(g, s) && i <= |s.buf.lru|
    decreases i
  {
    && FI.Inv(g, s.ftl)
    && (i > 0 ==>
          var e := s.buf.lru[i - 1];
          if s.buf.entries[e].pinned then FlushKeepsInv(g, s, i - 1)
          else Evict(g, s, e).Success? ==> FlushKeepsInv(g, Evict(g, s, e).value, i - 1))
  }

  /** A die that collects a fully invalid block is not stuck. */
  lemma StuckIsCalm<D>(g: Geometry, ftl: Ftl<D>, l: nat)
    requires FI.Inv(g, ftl) && l < g.slices
    ensures !(Stuck(g, ftl, l) && CollectsCurrent(g, ftl, l))
  {
    FI.InvalidateCountable(g, ftl, l);
  }

  /**
   The condition under which a flush is looked at is necessary: without it some state on the way
   breaks the invariant.
   */
  lemma {:induction false} FlushCalmIsNecessary<D>(g: Geometry, s: Store<D>, m: map<nat, D>, i: nat)
    requires Refines(g, s, m) && FI.Inv(g, s.ftl) && i <= |s.buf.lru|
    ensures Sized(g, s) && (FlushCalm(g, s, i) <==> FlushKeepsInv(g, s, i))
    decreases i
  {
    hide FI.Inv, Stuck, CollectsCurrent, Refines, Evict;
    RefinesSized(g, s, m);
    if i > 0 {
      var e := s.buf.lru[i - 1];
      var k := s.buf.entries[e];
      if k.pinned {
        FlushCalmIsNecessary(g, s, m, i - 1);
      } else {
        EvictRefines(g, s, m, e);
        if k.dirty {
          StuckIsCalm(g, s.ftl, k.lsa.value);
        }
        if Evict(g, s, e).Success? && FI.Inv(g, Evict(g, s, e).value.ftl) {
          RefinesSized(g, Evict(g, s, e).value, m);
          FlushCalmIsNecessary(g, Evict(g, s, e).value, m, i - 1);
        } else if Evict(g, s, e).Success? {
          RefinesSized(g, Evict(g, s, e).value, m);
        }
      }
    }
  }

  lemma DirtyCachesSlice<D>(g: Geometry, s: Store<D>, m: map<nat, D>, e: nat)
    requires HoldsBut(g, s, m, None) && e < |s.buf.entries|
    ensures s.buf.entries[e].dirty ==> s.buf.entries[e].lsa.Some?
  {
  }

  /** After a flush flash alone holds every slice that no pinned entry caches. */
  lemma FlushIsDurable<D>(g: Geometry, s: Store<D>, m: map<nat, D>, l: nat)
    requires Refines(g, s, m) && FI.Inv(g, s.ftl) && FlushCalm(g, s, |s.buf.lru|) && Flush(g, s, |s.buf.lru|).Success?
    requires l < g.slices && forall e: nat :: B.Caches(s.buf, e, l) ==> !s.buf.entries[e].pinned
    ensures Holds(Lookup(Flush(g, s, |s.buf.lru|).value.ftl, l), m, l)
  {
    FlushSpec(g, s, m, |s.buf.lru|);
    hide FI.Inv, Flush, FlushCalm, Holds, Lookup, B.Inv;
    var s' := Flush(g, s, |s.buf.lru|).value;
    assert FlashHolds(s', m, l);
    forall e: nat | B.Caches(s'.buf, e, l)
      ensures !s'.buf.entries[e].dirty
    {
      FlushedIsClean(s.buf, s'.buf, e, l);
    }
  }

  lemma FlushedIsClean(b: B.Buffer, b': B.Buffer, e: nat, l: nat)
    requires B.Shape(b) && FlushedTo(b, b', |b.lru|) && B.Caches(b', e, l)
    requires B.Caches(b, e, l) ==> !b.entries[e].pinned
    ensures !b'.entries[e].dirty
  {
    assert B.Caches(b, e, l) && e in b.lru;
    var j :| 0 <= j < |b.lru| && b.lru[j] == e;
    assert !b.entries[b.lru[j]].pinned;
  }

  lemma PinHolds<D>(g: Geometry, s: Store<D>, m: map<nat, D>, e: nat, pin: bool)
    requires Refines(g, s, m) && e < |s.buf.entries|
    ensures Refines(g, SetPin(s, e, pin), m)
  {
    hide Lookup;
    var s' := SetPin(s, e, pin);
    assert forall f: nat, l: nat :: B.Caches(s'.buf, f, l) <==> B.Caches(s.buf, f, l);
    assert B.Inv(s'.buf);
    hide B.Inv;
    forall f | 0 <= f < |s'.buf.entries|
      ensures EntryHolds(s', m, f)
    {
      assert EntryHolds(s, m, f);
    }
    forall l | 0 <= l < g.slices
      ensures FlashHolds(s', m, l)
    {
      assert FlashHolds(s, m, l);
      if Dirty(s, l) {
        var f: nat :| B.Caches(s.buf, f, l) && s.buf.entries[f].dirty;
        assert B.Caches(s'.buf, f, l) && s'.buf.entries[f].dirty;
      }
    }
  }

  // ---------- runs ----------

  datatype Event<D> = Slice(access: Access<D>) | FlushAll | Pin(entry: nat, on: bool)

  /** The step from s to s' on event v, with what a read returns. */
  ghost predicate Step<D>(g: Geometry, s: Store<D>, v: Event<D>, s': Store<D>, out: seq<D>) {
    && Sized(g, s) && B.Inv(s.buf)
    && match v
       case Slice(a) => ValidAccess(g, a) && Serve(g, s, a) == Success((s', out))
       case FlushAll => Flush(g, s, |s.buf.lru|) == Success(s') && out == []
       case Pin(e, on) => e < |s.buf.entries| && s' == SetPin(s, e, on) && out == []
  }

  /** What the caller can check before the step: it collects no current block without live slices. */
  ghost predicate Calm<D>(g: Geometry, s: Store<D>, v: Event<D>)
    requires Sized(g, s) && B.Inv(s.buf)
  {
    match v
    case Slice(a) => B.Scan(s.buf.entries, a.lsa, 0).Some? || !MissCollectsCurrent(g, s)
    case FlushAll => FlushCalm(g, s, |s.buf.lru|)
    case Pin(_, _) => true
  }

  function After<D>(m: map<nat, D>, v: Event<D>): map<nat, D> {
    if v.Slice? then Apply(m, v.access) else m
  }

  function AfterAll<D>(m: map<nat, D>, events: seq<Event<D>>): map<nat, D> {
    if events == [] then m else After(AfterAll(m, events[..|events| - 1]), events[|events| - 1])
  }

  lemma StepRefines<D>(g: Geometry, s: Store<D>, m: map<nat, D>, v: Event<D>, s': Store<D>, out: seq<D>)
    requires Refines(g, s, m) && FI.Inv(g, s.ftl) && Step(g, s, v, s', out) && Calm(g, s, v)
    ensures Refines(g, s', After(m, v)) && FI.Inv(g, s'.ftl)
    ensures v.Slice? ==> ReadsBack(m, v.access, out)
  {
    hide FI.Inv, Serve, Flush, B.Inv, HoldsBut;
    match v
    case Slice(a) => ServeSpec(g, s, m, a);
    case FlushAll => FlushSpec(g, s, m, |s.buf.lru|);
    case Pin(e, on) => PinHolds(g, s, m, e, on);
  }

  ghost predicate Trace<D>(g: Geometry, states: seq<Store<D>>, events: seq<Event<D>>, outs: seq<seq<D>>) {
    && |states| == |events| + 1 && |outs| == |events|
    && forall i :: 0 <= i < |events| ==>
        Step(g, states[i], events[i], states[i + 1], outs[i]) && Calm(g, states[i], events[i])
  }

  /**
   Every run of slice requests, flushes and pin changes behaves as a plain block store: each read
   returns, for every block written before, the value last written, whatever was evicted,
   collected and erased in between.
   */
  lemma {:induction false} RunRefines<D>(g: Geometry, m: map<nat, D>, states: seq<Store<D>>, events: seq<Event<D>>,
          outs: seq<seq<D>>, n: nat)
    requires Trace(g, states, events, outs) && n <= |events|
    requires Refines(g, states[0], m) && FI.Inv(g, states[0].ftl)
    ensures Refines(g, states[n], AfterAll(m, events[..n])) && FI.Inv(g, states[n].ftl)
    ensures n < |events| && events[n].Slice? ==> ReadsBack(AfterAll(m, events[..n]), events[n].access, outs[n])
  {
    hide FI.Inv, Refines, Step, Calm, ReadsBack;
    if n > 0 {
      RunRefines(g, m, states, events, outs, n - 1);
      assert Step(g, states[n - 1], events[n - 1], states[n], outs[n - 1]);
      StepRefines(g, states[n - 1], AfterAll(m, events[..n - 1]), events[n - 1], states[n], outs[n - 1]);
      assert events[..n][..n - 1] == events[..n - 1];
    }
    if n < |events| {
      assert Step(g, states[n], events[n], states[n + 1], outs[n]);
      StepRefines(g, states[n], AfterAll(m, events[..n]), events[n], states[n + 1], outs[n]);
    }
  }

  /** Before the first request nothing was written. */
  lemma InitRefines<D>(g: Geometry, n: nat, lru: seq<nat>, contents: seq<Page<D>>, ftl: Ftl<Page<D>>)
    requires n > 0 && |lru| == |contents| == n && (forall i :: 0 <= i < n ==> lru[i] == i) && Shape(g, ftl)
    ensures Refines(g, Store(B.Init(n, lru), contents, ftl), map[])
  {
    B.InitEstablishesInv(n, lru);
  }
}
