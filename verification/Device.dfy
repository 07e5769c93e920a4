/**
 The buffer and the translation tables together, in place: eviction, flush and the slice requests of
 ReqTransSliceToLowLevel, each proved to do what the function of module BlockStore does. The data
 themselves, in buffer entries and in flash, move by DMA and NAND requests and are ghost here.
 */
module Device {
  import opened Common
  import B = Buffer
  import opened F = Ftl
  import FI = FtlInvariant
  import opened S = BlockStore
  import opened Addressing
  import opened DieTables
  import FT = FtlTables
  import opened DB = DataBuffer
  import R = Requests
  import U = Submissions

  /** Tables and buffer map are those of store s. */
  ghost predicate Is<D>(g: Geometry, tables: seq<DieTables>, l2v: array<Option<Vsa>>, buf: DB.DataBuffer, s: Store<D>)
    reads FT.Footprint(tables), l2v, buf.Repr()
  {
    FT.AllStand(g, tables, l2v, s.ftl) && buf.Valid() && buf.abs == s.buf && Sized(g, s)
  }

  lemma IsSized<D>(g: Geometry, tables: seq<DieTables>, l2v: array<Option<Vsa>>, buf: DB.DataBuffer, s: Store<D>)
    requires Is(g, tables, l2v, buf, s)
    ensures FT.AllStand(g, tables, l2v, s.ftl) && buf.Valid() && buf.abs == s.buf
        && buf.n == |s.buf.entries| <= DB.DATA_BUF_NONE
    ensures Sized(g, s) && B.Shape(s.buf) && |s.contents| == |s.buf.entries| && |s.ftl.l2v| == g.slices
  {
  }

  lemma Assemble<D>(g: Geometry, tables: seq<DieTables>, l2v: array<Option<Vsa>>, buf: DB.DataBuffer, s: Store<D>)
    requires FT.AllStand(g, tables, l2v, s.ftl) && buf.Valid() && buf.abs == s.buf && Sized(g, s)
    ensures Is(g, tables, l2v, buf, s)
  {
  }

  ghost predicate Apart(tables: seq<DieTables>, l2v: array<Option<Vsa>>, cursor: DieCursor, buf: DB.DataBuffer) {
    FT.Separate(tables, l2v, cursor) && buf.Repr() !! FT.Footprint(tables) && {l2v, cursor} !! buf.Repr()
  }

  /** The buffer shares nothing with the tables and the logical map. */
  ghost predicate Clear(tables: seq<DieTables>, l2v: array<Option<Vsa>>, buf: DB.DataBuffer) {
    buf.Repr() !! FT.Footprint(tables) + {l2v}
  }

  lemma ApartIsClear(tables: seq<DieTables>, l2v: array<Option<Vsa>>, cursor: DieCursor, buf: DB.DataBuffer)
    requires Apart(tables, l2v, cursor, buf)
    ensures Clear(tables, l2v, buf) && cursor !in buf.Repr()
  {
  }

  /** The cursor is one die ahead of the target. */
  ghost predicate CursorAt(g: Geometry, cursor: DieCursor, target: nat)
    requires g.dies > 0
    reads cursor
  {
    cursor.Valid() && cursor.channels * cursor.ways == g.dies && cursor.Next() == (target + 1) % g.dies
  }

  /** AddrTransWrite; the buffer does not notice. */
  method Translate<D>(g: Geometry, tables: seq<DieTables>, l2v: array<Option<Vsa>>, cursor: DieCursor,
          ghost buf: DB.DataBuffer, n: nat, target: nat, l: nat,
                      ghost ftl: U.Flash<D>, ghost data: Page<D>)
    returns (r: Result<Vsa, Halt>, next: nat, issued: seq<R.Req<D>>, ghost ftl': U.Flash<D>)
    requires FT.AllStand(g, tables, l2v, ftl) && Apart(tables, l2v, cursor, buf) && buf.Valid() && FI.Inv(g, ftl)
        && l < g.slices
    requires g.dies > 0 && CursorAt(g, cursor, target) && target == ftl.target
    modifies FT.Footprint(tables), l2v, cursor
    ensures buf.Valid() && buf.abs == old(buf.abs) && Countable(g, ftl, l)
    ensures issued == U.OpenRequests(g, n, F.InvalidateOldVsa(g, ftl, l))
    ensures match F.AddrTransWrite(g, ftl, l, data)
            case Failure(e) => r == Failure(e)
            case Success((after, v)) =>
              && r == Success(v) && ftl' == after && FT.AllStand(g, tables, l2v, after)
              && next == after.target && CursorAt(g, cursor, next)
  {
    hide FI.Inv, DieTables.Valid, DB.DataBuffer.Valid, F.AddrTransWrite, FT.AllStand, FT.DieStands, U.OpenRequests;
    r, next, issued, ftl' := FT.AddrTransWrite(g, tables, l2v, cursor, n, target, l, ftl, data);
  }

  /** The entry is clean; the tables do not notice. */
  method Clean<D>(g: Geometry, tables: seq<DieTables>, l2v: array<Option<Vsa>>, buf: DB.DataBuffer, e: nat,
          ghost ftl: F.Ftl<D>)
    requires FT.AllStand(g, tables, l2v, ftl) && buf.Repr() !! FT.Footprint(tables) + {l2v} && buf.Valid()
        && e < |buf.abs.entries|
    modifies buf.Repr()
    ensures FT.AllStand(g, tables, l2v, ftl) && buf.Valid()
    ensures buf.abs == B.MarkClean(old(buf.abs), e)
  {
    hide B.MarkClean, DieTables.Valid, DB.DataBuffer.Valid, FT.AllStand, FT.DieStands, F.Shape, Clear, Apart,
        FT.Separate, FT.Footprint;
    FT.FootprintIsAllocated(tables);
    buf.MarkClean(e);
  }

  lemma EvictUnfold<D>(g: Geometry, s: Store<D>, e: nat)
    requires Sized(g, s) && e < |s.buf.entries|
    ensures var k := s.buf.entries[e];
            if k.dirty && k.lsa.Some? then
              Countable(g, s.ftl, k.lsa.value) ==>
                match F.AddrTransWrite(g, s.ftl, k.lsa.value, s.contents[e])
                case Failure(halt) => S.Evict(g, s, e) == Failure(S.Device(halt))
                case Success((ftl, _)) =>
                  S.Evict(g, s, e) == Success(Store(s.buf.(entries :=
                      s.buf.entries[e := k.(dirty := false, full := 0)]), s.contents, ftl))
                  && Sized(g, S.Evict(g, s, e).value)
            else S.Evict(g, s, e) == Success(s)
  {
    hide F.AddrTransWrite;
  }

  lemma EvictIssues<D>(g: Geometry, s: Store<D>, e: nat)
    requires Sized(g, s) && e < |s.buf.entries|
    ensures var k := s.buf.entries[e];
            if k.dirty && k.lsa.Some? then
              Countable(g, s.ftl, k.lsa.value) ==>
                U.EvictRequests(g, s, e) ==
                  U.OpenRequests(g, |s.buf.entries|, F.InvalidateOldVsa(g, s.ftl, k.lsa.value))
                  + match F.AddrTransWrite(g, s.ftl, k.lsa.value, s.contents[e])
                    case Failure(_) => []
                    case Success((_, v)) => [U.WritePage(v, e)]
            else U.EvictRequests(g, s, e) == []
  {
    hide F.OpenForWrite, F.InvalidateOldVsa, U.OpenRequests;
  }

  /** An address for the slice of dirty entry e, and the NAND write to it. */
  method WriteOut<D>(g: Geometry, tables: seq<DieTables>, l2v: array<Option<Vsa>>, cursor: DieCursor,
          buf: DB.DataBuffer, target: nat, e: nat, l: nat, ghost s: Store<D>)
    returns (halt: Option<Halt>, next: nat, issued: seq<R.Req<D>>, ghost s': Store<D>)
    requires Is(g, tables, l2v, buf, s) && Apart(tables, l2v, cursor, buf) && FI.Inv(g, s.ftl)
    requires g.dies > 0 && CursorAt(g, cursor, target) && target == s.ftl.target && e < |s.buf.entries|
        && s.buf.entries[e].dirty && s.buf.entries[e].lsa == Some(l)
    modifies FT.Footprint(tables), l2v, cursor, buf.Repr()
    ensures match S.Evict(g, s, e)
            case Failure(stop) => halt.Some? && stop == S.Device(halt.value)
            case Success(after) =>
              && halt == None && s' == after && Is(g, tables, l2v, buf, after)
              && next == after.ftl.target && CursorAt(g, cursor, next)
    ensures issued == U.EvictRequests(g, s, e)
  {
    hide FI.Inv, DieTables.Valid, DB.DataBuffer.Valid, F.AddrTransWrite, FT.AllStand, FT.DieStands, S.Evict, Apart, Is,
        Sized, B.Shape, CursorAt, F.Countable, FT.Separate, U.EvictRequests, U.OpenRequests, F.InvalidateOldVsa;
    IsSized(g, tables, l2v, buf, s);
    EvictUnfold(g, s, e);
    EvictIssues(g, s, e);
    ghost var ftl;
    var r;
    r, next, issued, ftl := Translate(g, tables, l2v, cursor, buf, buf.n, target, l, s.ftl, s.contents[e]);
    if r.Failure? {
      halt, s' := Some(r.error), s;
      return;
    }
    issued := issued + [U.WritePage(r.value, e)];
    ApartIsClear(tables, l2v, cursor, buf);
    Clean(g, tables, l2v, buf, e, ftl);
    halt, s' := None, S.Evict(g, s, e).value;
    Assemble(g, tables, l2v, buf, s');
  }

  /** A dirty entry is written out. */
  method EvictDataBufEntry<D>(g: Geometry, tables: seq<DieTables>, l2v: array<Option<Vsa>>, cursor: DieCursor,
          buf: DB.DataBuffer, target: nat, e: nat, ghost s: Store<D>)
    returns (halt: Option<Halt>, next: nat, issued: seq<R.Req<D>>, ghost s': Store<D>)
    requires Is(g, tables, l2v, buf, s) && Apart(tables, l2v, cursor, buf) && FI.Inv(g, s.ftl)
    requires g.dies > 0 && CursorAt(g, cursor, target) && target == s.ftl.target && e < |s.buf.entries|
        && (s.buf.entries[e].dirty ==> s.buf.entries[e].lsa.Some?)
    modifies FT.Footprint(tables), l2v, cursor, buf.Repr()
    ensures match S.Evict(g, s, e)
            case Failure(stop) => halt.Some? && stop == S.Device(halt.value)
            case Success(after) =>
              && halt == None && s' == after && Is(g, tables, l2v, buf, after)
              && next == after.ftl.target && CursorAt(g, cursor, next)
    ensures issued == U.EvictRequests(g, s, e)
  {
    hide FI.Inv, DieTables.Valid, DB.DataBuffer.Valid, F.AddrTransWrite, S.Evict, Apart, Is, Sized, B.Shape, CursorAt,
        F.Countable, U.EvictRequests;
    halt, next, issued, s' := None, target, [], s;
    IsSized(g, tables, l2v, buf, s);
    var k := EntryOf(buf, e);
    EvictUnfold(g, s, e);
    EvictIssues(g, s, e);
    if k.dirty {
      halt, next, issued, s' := WriteOut(g, tables, l2v, cursor, buf, target, e, k.lsa.value, s);
    }
  }

  /** The fields of entry e. */
  method EntryOf(buf: DB.DataBuffer, e: nat) returns (k: B.Entry)
    requires buf.Valid() && e < |buf.abs.entries|
    ensures k == buf.abs.entries[e]
  {
    assert buf.Agrees(e, buf.abs.entries[e]);
    k := B.Entry(buf.lsa[e], buf.dirty[e], buf.pinned[e], buf.full[e]);
  }

  /** A hit in the buffer; the tables do not notice. */
  method Hit<D>(g: Geometry, tables: seq<DieTables>, l2v: array<Option<Vsa>>, buf: DB.DataBuffer, l: nat,
          ghost ftl: F.Ftl<D>) returns (e: nat)
    requires FT.AllStand(g, tables, l2v, ftl) && buf.Repr() !! FT.Footprint(tables) + {l2v} && buf.Valid()
        && B.Inv(buf.abs)
    modifies buf.Repr()
    ensures FT.AllStand(g, tables, l2v, ftl) && buf.Valid() && buf.abs == B.CheckDataBufHit(old(buf.abs), l).0
    ensures match B.CheckDataBufHit(old(buf.abs), l).1 case None => e == DB.DATA_BUF_FAIL case Some(f) => e == f
  {
    hide DieTables.Valid, DB.DataBuffer.Valid, FT.AllStand, FT.DieStands, B.Inv, B.InvBut, B.Shape, B.CheckDataBufHit,
        B.MovedUp, B.Caches, F.Shape, Clear, Apart, FT.Separate, FT.Footprint;
    FT.FootprintIsAllocated(tables);
    e := buf.CheckDataBufHit(l);
  }

  lemma HitFits<D>(g: Geometry, s: Store<D>, l: nat)
    requires Sized(g, s) && B.Inv(s.buf)
    ensures var (b, hit) := B.CheckDataBufHit(s.buf, l);
            && B.Inv(b) && Sized(g, s.(buf := b)) && |b.entries| == |s.buf.entries|
            && (match hit case None => b == s.buf case Some(e) => e < |b.entries|)
  {
    B.HitKeeps(s.buf, l);
  }

  /** An entry for a miss; the tables do not notice. */
  method Allocate<D>(g: Geometry, tables: seq<DieTables>, l2v: array<Option<Vsa>>, buf: DB.DataBuffer,
          ghost ftl: F.Ftl<D>) returns (e: nat)
    requires FT.AllStand(g, tables, l2v, ftl) && buf.Repr() !! FT.Footprint(tables) + {l2v} && buf.Valid()
        && B.Inv(buf.abs)
    modifies buf.Repr()
    ensures FT.AllStand(g, tables, l2v, ftl) && buf.Valid()
    ensures match B.AllocateDataBuf(old(buf.abs), false)
            case None => e == DB.DATA_BUF_NONE && buf.abs == old(buf.abs)
            case Some((b, f)) => e == f && buf.abs == b
  {
    hide DieTables.Valid, DB.DataBuffer.Valid, FT.AllStand, FT.DieStands, B.Inv, B.InvBut, B.Shape, B.AllocateDataBuf,
        B.MovedUp, B.Caches, F.Shape, Clear, Apart, FT.Separate, FT.Footprint;
    FT.FootprintIsAllocated(tables);
    e := buf.AllocateDataBuf(false);
  }

  /** The allocated entry is to cache slice l; the tables do not notice. */
  method Rehash<D>(g: Geometry, tables: seq<DieTables>, l2v: array<Option<Vsa>>, buf: DB.DataBuffer, e: nat, l: nat,
          ghost ftl: F.Ftl<D>)
    requires FT.AllStand(g, tables, l2v, ftl) && buf.Repr() !! FT.Footprint(tables) + {l2v} && buf.Valid() && e < buf.n
        && B.InvBut(buf.abs, Some(e))
    modifies buf.Repr()
    ensures FT.AllStand(g, tables, l2v, ftl) && buf.Valid() && buf.abs == B.Rehash(old(buf.abs), e, l)
  {
    hide DieTables.Valid, DB.DataBuffer.Valid, FT.AllStand, FT.DieStands, B.InvBut, B.Rehash, F.Shape, Clear, Apart,
        FT.Separate, FT.Footprint;
    FT.FootprintIsAllocated(tables);
    buf.Rehash(e, l);
  }

  lemma RehashFits<D>(g: Geometry, s: Store<D>, e: nat, l: nat)
    requires Sized(g, s) && e < |s.buf.entries| && B.InvBut(s.buf, Some(e)) && l < g.slices
    ensures Sized(g, s.(buf := B.Rehash(s.buf, e, l)))
  {
  }

  /** The entry is to receive count blocks; the tables do not notice. */
  method MarkWritten<D>(g: Geometry, tables: seq<DieTables>, l2v: array<Option<Vsa>>, buf: DB.DataBuffer, e: nat,
          count: nat, ghost ftl: F.Ftl<D>)
    requires FT.AllStand(g, tables, l2v, ftl) && buf.Repr() !! FT.Footprint(tables) + {l2v} && buf.Valid()
        && e < |buf.abs.entries|
    modifies buf.Repr()
    ensures FT.AllStand(g, tables, l2v, ftl) && buf.Valid()
    ensures buf.abs == B.MarkWritten(old(buf.abs), e, count)
  {
    hide B.MarkWritten, DieTables.Valid, DB.DataBuffer.Valid, FT.AllStand, FT.DieStands, F.Shape, Clear, Apart,
        FT.Separate, FT.Footprint;
    FT.FootprintIsAllocated(tables);
    buf.MarkWritten(e, count);
  }

  /** What the DMA of the request will do, as far as the buffer map is concerned. */
  method Mark<D>(g: Geometry, tables: seq<DieTables>, l2v: array<Option<Vsa>>, ghost cursor: DieCursor,
          buf: DB.DataBuffer, e: nat, write: bool, count: nat,
                 ghost s: Store<D>, ghost a: Access<D>)
    requires Is(g, tables, l2v, buf, s) && Apart(tables, l2v, cursor, buf) && e < |s.buf.entries| && ValidAccess(g, a)
        && write == a.Write?
    requires a.Write? ==> count == |a.data|
    modifies buf.Repr()
    ensures Is(g, tables, l2v, buf, S.Transfer(s, e, a).0) && S.Transfer(s, e, a).0.ftl == s.ftl
  {
    IsSized(g, tables, l2v, buf, s);
    assert Sized(g, S.Transfer(s, e, a).0);
    hide DieTables.Valid, DB.DataBuffer.Valid, FT.AllStand, FT.DieStands, FT.Separate, Sized, B.Shape, Is, Apart, Clear;
    if write {
      ApartIsClear(tables, l2v, cursor, buf);
      MarkWritten(g, tables, l2v, buf, e, count, s.ftl);
      Assemble(g, tables, l2v, buf, S.Transfer(s, e, a).0);
    }
  }

  /** DataReadFromNand: the address the NAND read of the slice goes to, none if it was never mapped. */
  method AddrTransRead<D>(g: Geometry, tables: seq<DieTables>, l2v: array<Option<Vsa>>, buf: DB.DataBuffer, l: nat,
          ghost s: Store<D>) returns (v: Option<Vsa>)
    requires Is(g, tables, l2v, buf, s) && l < g.slices
    ensures v == F.AddrTransRead(s.ftl, l) && Is(g, tables, l2v, buf, s)
  {
    v := l2v[l];
  }

  /**
   The loop body of ReqTransSliceToLowLevel for a request for count blocks of slice l: served is the
   entry it is served from, read the page a NAND read into that entry is issued for, issued all NAND
   requests in their order. The DMA request of the access follows them.
   */
  method ServeSlice<D>(g: Geometry, tables: seq<DieTables>, l2v: array<Option<Vsa>>, cursor: DieCursor,
          buf: DB.DataBuffer, target: nat, l: nat, write: bool, count: nat,
                       ghost s: Store<D>, ghost a: Access<D>)
    returns (stop: Option<Stop>, next: nat, served: nat, read: Option<Vsa>, issued: seq<R.Req<D>>, ghost s': Store<D>)
    requires Is(g, tables, l2v, buf, s) && Apart(tables, l2v, cursor, buf) && FI.Inv(g, s.ftl) && B.Inv(s.buf)
    requires g.dies > 0 && CursorAt(g, cursor, target) && target == s.ftl.target
    requires ValidAccess(g, a) && a.lsa == l && write == a.Write? && count == (if a.Write? then |a.data| else a.count)
    requires forall e :: 0 <= e < |s.buf.entries| && s.buf.entries[e].dirty ==> s.buf.entries[e].lsa.Some?
    modifies FT.Footprint(tables), l2v, cursor, buf.Repr()
    ensures match S.Serve(g, s, a)
            case Failure(e) => stop == Some(e)
            case Success((after, _)) =>
              && stop == None && s' == after && Is(g, tables, l2v, buf, after)
              && next == after.ftl.target && CursorAt(g, cursor, next)
    ensures U.ServeRequests(g, s, a) == issued + (if stop == None then [U.Dma(served, a)] else [])
    ensures stop == None ==> B.Caches(s'.buf, served, l) && l < |s'.ftl.l2v|
    ensures stop == None ==> forall v ::
        (read == Some(v) <==> !Cached(s, l) && !(write && count == BLOCKS) && s'.ftl.l2v[l] == Some(v))
        && (read == Some(v) <==> U.ReadPage(v, served) in U.ServeRequests(g, s, a))
  {
    hide FI.Inv, B.Inv, Is, Apart, FT.AllStand, FT.DieStands, CursorAt, Sized, S.Miss, DieTables.Valid,
        DB.DataBuffer.Valid, B.AllocateDataBuf, B.CheckDataBufHit, S.Transfer, S.Serve, U.ServeRequests, U.ServingEntry,
        ReadIs, Cached, B.Caches, U.ReadPage, FT.Separate;
    stop, next, read, issued, s' := None, target, None, [], s;
    IsSized(g, tables, l2v, buf, s);
    ServeUnfold(g, s, a);
    HitIssues(g, s, a);
    HitFits(g, s, l);
    ApartIsClear(tables, l2v, cursor, buf);
    served := Hit(g, tables, l2v, buf, l, s.ftl);
    s' := s.(buf := B.CheckDataBufHit(s.buf, l).0);
    Assemble(g, tables, l2v, buf, s');
    if served == DB.DATA_BUF_FAIL {
      stop, next, served, read, issued, s' := ServeMiss(g, tables, l2v, cursor, buf, target, l, write, count, s', a);
      if stop.Some? {
        return;
      }
    }
    Mark(g, tables, l2v, cursor, buf, served, write, count, s', a);
    s' := S.Transfer(s', served, a).0;
    ReadIsIssued(g, s, a, read);
  }

  ghost predicate Cached<D>(s: Store<D>, l: nat) {
    exists e: nat :: B.Caches(s.buf, e, l)
  }

  /** What read must be for the access to have been served. */
  ghost predicate ReadIs<D>(g: Geometry, s: Store<D>, a: Access<D>, read: Option<Vsa>)
    requires Sized(g, s) && B.Inv(s.buf) && ValidAccess(g, a)
  {
    match B.CheckDataBufHit(s.buf, a.lsa)
    case (_, Some(_)) => read == None
    case (_, None) =>
      match S.Miss(g, s, a)
      case Failure(_) => true
      case Success((after, _)) => read == if NeedsLoad(a) then F.AddrTransRead(after.ftl, a.lsa) else None
  }

  lemma ReadIsIssued<D>(g: Geometry, s: Store<D>, a: Access<D>, read: Option<Vsa>)
    requires Sized(g, s) && B.Inv(s.buf) && ValidAccess(g, a) && S.Serve(g, s, a).Success? && ReadIs(g, s, a, read)
    ensures var s' := S.Serve(g, s, a).value.0;
            B.Caches(s'.buf, U.ServingEntry(g, s, a), a.lsa) && a.lsa < |s'.ftl.l2v| && forall v ::
              (read == Some(v) <==> !Cached(s, a.lsa) && !(a.Write? && |a.data| == BLOCKS)
                                    && s'.ftl.l2v[a.lsa] == Some(v))
              && (read == Some(v) <==> U.ReadPage(v, U.ServingEntry(g, s, a)) in U.ServeRequests(g, s, a))
  {
    hide B.Inv, B.InvBut, Sized, B.CheckDataBufHit, S.Miss, S.Serve, U.ServeRequests, U.ServingEntry, ReadIs;
    ServedFrom(g, s, a, read);
    forall v
      ensures (read == Some(v) <==> !Cached(s, a.lsa) && !(a.Write? && |a.data| == BLOCKS)
                                    && S.Serve(g, s, a).value.0.ftl.l2v[a.lsa] == Some(v))
      ensures read == Some(v) <==> U.ReadPage(v, U.ServingEntry(g, s, a)) in U.ServeRequests(g, s, a)
    {
      U.ServeReads(g, s, a, v);
    }
  }

  lemma ServedFrom<D>(g: Geometry, s: Store<D>, a: Access<D>, read: Option<Vsa>)
    requires Sized(g, s) && B.Inv(s.buf) && ValidAccess(g, a) && S.Serve(g, s, a).Success? && ReadIs(g, s, a, read)
    ensures var s' := S.Serve(g, s, a).value.0;
            && a.lsa < |s'.ftl.l2v| && B.Caches(s'.buf, U.ServingEntry(g, s, a), a.lsa)
            && read == if !Cached(s, a.lsa) && NeedsLoad(a) then s'.ftl.l2v[a.lsa] else None
  {
    B.HitKeeps(s.buf, a.lsa);
    hide B.Inv, B.InvBut, B.CheckDataBufHit, S.Miss, S.Evict, U.ServeRequests, U.ServingEntry, B.MovedUp, F.Shape;
    ServeUnfold(g, s, a);
    U.ServeReads(g, s, a, Vsa(0, 0, 0));
  }

  lemma HitIssues<D>(g: Geometry, s: Store<D>, a: Access<D>)
    requires Sized(g, s) && B.Inv(s.buf) && ValidAccess(g, a)
    ensures match B.CheckDataBufHit(s.buf, a.lsa).1
            case Some(e) =>
              U.ServeRequests(g, s, a) == [U.Dma(e, a)] && U.ServingEntry(g, s, a) == e && ReadIs(g, s, a, None)
            case None => true
  {
    hide B.CheckDataBufHit, S.Miss;
  }

  lemma ServeUnfold<D>(g: Geometry, s: Store<D>, a: Access<D>)
    requires Sized(g, s) && B.Inv(s.buf) && ValidAccess(g, a)
    ensures match B.CheckDataBufHit(s.buf, a.lsa)
            case (buf, Some(e)) =>
              e < |buf.entries| == |s.contents| && S.Serve(g, s, a) == Success(S.Transfer(s.(buf := buf), e, a))
            case (buf, None) =>
              && buf == s.buf
              && match S.Miss(g, s, a)
                 case Failure(f) => S.Serve(g, s, a) == Failure(f)
                 case Success((s1, e)) => S.Serve(g, s, a) == Success(S.Transfer(s1, e, a))
  {
    hide S.Miss, S.Transfer;
  }

  method ServeMiss<D>(g: Geometry, tables: seq<DieTables>, l2v: array<Option<Vsa>>, cursor: DieCursor,
          buf: DB.DataBuffer, target: nat, l: nat, write: bool, count: nat,
                      ghost s: Store<D>, ghost a: Access<D>)
    returns (stop: Option<Stop>, next: nat, e: nat, read: Option<Vsa>, issued: seq<R.Req<D>>, ghost s': Store<D>)
    requires Is(g, tables, l2v, buf, s) && Apart(tables, l2v, cursor, buf) && FI.Inv(g, s.ftl) && B.Inv(s.buf)
    requires g.dies > 0 && CursorAt(g, cursor, target) && target == s.ftl.target
    requires ValidAccess(g, a) && a.lsa == l && write == a.Write? && count == (if a.Write? then |a.data| else a.count)
    requires forall e :: 0 <= e < |s.buf.entries| && s.buf.entries[e].dirty ==> s.buf.entries[e].lsa.Some?
    requires B.CheckDataBufHit(s.buf, l).1 == None
    modifies FT.Footprint(tables), l2v, cursor, buf.Repr()
    ensures match S.Miss(g, s, a)
            case Failure(f) => stop == Some(f)
            case Success((after, f)) =>
              && stop == None && s' == after && e == f < |after.buf.entries| && Is(g, tables, l2v, buf, after)
              && next == after.ftl.target && CursorAt(g, cursor, next) && e == U.ServingEntry(g, s, a)
    ensures U.ServeRequests(g, s, a) == issued + (if stop == None then [U.Dma(e, a)] else [])
    ensures ReadIs(g, s, a, read)
  {
    stop, next, read, issued, s' := None, target, None, [], s;
    IsSized(g, tables, l2v, buf, s);
    MissUnfold(g, s, a);
    hide FI.Inv, B.Inv, B.InvBut, Is, Apart, Clear, FT.Footprint, CursorAt, DieTables.Valid, DB.DataBuffer.Valid,
        B.AllocateDataBuf, B.CheckDataBufHit, S.Evict, B.Rehash, S.Miss, S.Fetch, U.EvictRequests, U.LoadRequests,
        ReadIs, U.ServeRequests, U.ServingEntry;
    MissIssues(g, s, a);
    AllocatedFits(g, s);
    ApartIsClear(tables, l2v, cursor, buf);
    e := Allocate(g, tables, l2v, buf, s.ftl);
    if e == DB.DATA_BUF_NONE {
      stop := Some(AllPinned);
      return;
    }
    ghost var s0 := s.(buf := B.AllocateDataBuf(s.buf, false).value.0);
    Assemble(g, tables, l2v, buf, s0);
    stop, next, read, issued, s' :=
        Renew(g, tables, l2v, cursor, buf, target, e, l, !write || count != BLOCKS, s0, a);
  }

  lemma MissIssues<D>(g: Geometry, s: Store<D>, a: Access<D>)
    requires Sized(g, s) && B.Inv(s.buf) && ValidAccess(g, a) && B.CheckDataBufHit(s.buf, a.lsa).1 == None
    ensures match B.AllocateDataBuf(s.buf, false)
            case None => U.ServeRequests(g, s, a) == [] && forall read :: ReadIs(g, s, a, read)
            case Some((buf, e)) =>
              && e == U.ServingEntry(g, s, a) < |buf.entries| && Sized(g, s.(buf := buf))
              && match S.Evict(g, s.(buf := buf), e)
                 case Failure(_) =>
                   && U.ServeRequests(g, s, a) == U.EvictRequests(g, s.(buf := buf), e)
                   && forall read :: ReadIs(g, s, a, read)
                 case Success(s1) =>
                   && a.lsa < |s1.ftl.l2v|
                   && U.ServeRequests(g, s, a) == U.EvictRequests(g, s.(buf := buf), e)
                        + (if NeedsLoad(a) then U.LoadRequests(s1, e, a.lsa) else []) + [U.Dma(e, a)]
                   && ReadIs(g, s, a, if NeedsLoad(a) then F.AddrTransRead(s1.ftl, a.lsa) else None)
  {
    hide B.Inv, B.InvBut, B.Shape, B.AllocateDataBuf, B.CheckDataBufHit, S.Evict, S.Miss, B.Rehash, U.EvictRequests,
        U.LoadRequests, U.Dma;
    AllocatedFits(g, s);
    MissUnfold(g, s, a);
  }

  /** Entry e is written out if dirty, and given to slice l, which is read from flash if load. */
  method Renew<D>(g: Geometry, tables: seq<DieTables>, l2v: array<Option<Vsa>>, cursor: DieCursor, buf: DB.DataBuffer,
          target: nat, e: nat, l: nat, load: bool,
                  ghost s: Store<D>, ghost a: Access<D>)
    returns (stop: Option<Stop>, next: nat, read: Option<Vsa>, issued: seq<R.Req<D>>, ghost s': Store<D>)
    requires Is(g, tables, l2v, buf, s) && Apart(tables, l2v, cursor, buf) && FI.Inv(g, s.ftl)
    requires g.dies > 0 && CursorAt(g, cursor, target) && target == s.ftl.target
    requires e < |s.buf.entries| && B.InvBut(s.buf, Some(e)) && (s.buf.entries[e].dirty ==> s.buf.entries[e].lsa.Some?)
    requires l == a.lsa < g.slices && load == NeedsLoad(a)
    modifies FT.Footprint(tables), l2v, cursor, buf.Repr()
    ensures match S.Evict(g, s, e)
            case Failure(f) => stop == Some(f) && issued == U.EvictRequests(g, s, e)
            case Success(s1) =>
              && stop == None && s' == S.Fetch(s1, e, a) && Is(g, tables, l2v, buf, s')
              && next == s'.ftl.target && CursorAt(g, cursor, next)
              && issued == U.EvictRequests(g, s, e) + (if NeedsLoad(a) then U.LoadRequests(s1, e, l) else [])
              && read == if NeedsLoad(a) then F.AddrTransRead(s1.ftl, l) else None
  {
    IsSized(g, tables, l2v, buf, s);
    hide FI.Inv, B.InvBut, Is, Apart, Clear, FT.Footprint, CursorAt, DieTables.Valid, DB.DataBuffer.Valid, S.Evict,
        B.Rehash, U.EvictRequests;
    stop, read, s' := None, None, s;
    var halt;
    halt, next, issued, s' := EvictDataBufEntry(g, tables, l2v, cursor, buf, target, e, s);
    if halt.Some? {
      stop := Some(S.Device(halt.value));
      return;
    }
    EvictKeepsHeld(g, s, e);
    read := Give(g, tables, l2v, cursor, buf, e, l, load, s', a);
    if read.Some? {
      issued := issued + [U.ReadPage(read.value, e)];
    }
    s' := S.Fetch(s', e, a);
  }

  /** Clean entry e is given to slice l. */
  method Give<D>(g: Geometry, tables: seq<DieTables>, l2v: array<Option<Vsa>>, ghost cursor: DieCursor,
          buf: DB.DataBuffer, e: nat, l: nat, load: bool,
                 ghost s: Store<D>, ghost a: Access<D>)
    returns (read: Option<Vsa>)
    requires Is(g, tables, l2v, buf, s) && Apart(tables, l2v, cursor, buf)
    requires e < |s.buf.entries| && B.InvBut(s.buf, Some(e)) && l == a.lsa < g.slices && load == NeedsLoad(a)
    modifies buf.Repr()
    ensures Is(g, tables, l2v, buf, S.Fetch(s, e, a))
    ensures read == if NeedsLoad(a) then F.AddrTransRead(s.ftl, l) else None
  {
    IsSized(g, tables, l2v, buf, s);
    hide B.InvBut, Is, Apart, Clear, FT.Footprint, DieTables.Valid, DB.DataBuffer.Valid, B.Rehash;
    read := None;
    RehashFits(g, s, e, l);
    ApartIsClear(tables, l2v, cursor, buf);
    Rehash(g, tables, l2v, buf, e, l, s.ftl);
    ghost var s2 := s.(buf := B.Rehash(s.buf, e, l));
    Assemble(g, tables, l2v, buf, s2);
    if load {
      read := AddrTransRead(g, tables, l2v, buf, l, s2);
      LoadIs(g, tables, l2v, buf, s2, e, l);
    }
  }

  lemma LoadIs<D>(g: Geometry, tables: seq<DieTables>, l2v: array<Option<Vsa>>, buf: DB.DataBuffer, s: Store<D>,
          e: nat, l: nat)
    requires Is(g, tables, l2v, buf, s) && e < |s.contents| && l < g.slices
    ensures Is(g, tables, l2v, buf, Load(s, e, l))
  {
  }

  // ---------- flush ----------

  /** The entry a walk from the tail is at with i entries to go. */
  ghost predicate WalkAt<D>(s: Store<D>, e: nat, i: nat) {
    i <= |s.buf.lru| && e == (if i > 0 then s.buf.lru[i - 1] else DB.DATA_BUF_NONE)
        && (i > 0 ==> e < |s.buf.entries| <= DB.DATA_BUF_NONE)
  }

  method Tail<D>(g: Geometry, tables: seq<DieTables>, l2v: array<Option<Vsa>>, buf: DB.DataBuffer, ghost s: Store<D>)
          returns (e: nat)
    requires Is(g, tables, l2v, buf, s)
    ensures Is(g, tables, l2v, buf, s) && WalkAt(s, e, |s.buf.lru|)
  {
    e := buf.Tail();
  }

  method Previous<D>(g: Geometry, tables: seq<DieTables>, l2v: array<Option<Vsa>>, buf: DB.DataBuffer, e: nat,
          ghost i: nat, ghost s: Store<D>) returns (f: nat)
    requires Is(g, tables, l2v, buf, s) && WalkAt(s, e, i) && i > 0
    ensures Is(g, tables, l2v, buf, s) && WalkAt(s, f, i - 1)
  {
    f := buf.Previous(e, i);
  }

  /** With i entries to go the flush is in state s and will end in result end. */
  ghost predicate Flushing<D>(g: Geometry, s: Store<D>, m: map<nat, D>, i: nat, end: Result<Store<D>, Stop>) {
    Refines(g, s, m) && FI.Inv(g, s.ftl) && i <= |s.buf.lru| && FlushCalm(g, s, i) && end == S.Flush(g, s, i)
  }

  lemma FlushingStep<D>(g: Geometry, s: Store<D>, m: map<nat, D>, e: nat, i: nat, end: Result<Store<D>, Stop>)
    requires Flushing(g, s, m, i, end) && WalkAt(s, e, i) && i > 0
    ensures e < |s.buf.entries| && i <= |s.buf.lru| && e == s.buf.lru[i - 1]
    ensures var k := s.buf.entries[e];
            && (k.dirty ==> k.lsa.Some?) && FI.Inv(g, s.ftl) && Sized(g, s)
            && if k.pinned || !k.dirty then Flushing(g, s, m, i - 1, end)
               else match S.Evict(g, s, e)
                    case Failure(f) => end == Failure(f)
                    case Success(s') => s'.buf.lru == s.buf.lru && |s'.buf.entries| == |s.buf.entries| && Flushing(g,
                        s', m, i - 1, end)
  {
    assert Sized(g, s);
    hide FI.Inv, HoldsBut, F.AddrTransWrite, CollectsCurrent, Stuck;
    DirtyCachesSlice(g, s, m, e);
    if !s.buf.entries[e].pinned && s.buf.entries[e].dirty {
      EvictSpec(g, s, m, e);
      EvictKeepsBuffer(s.buf, e);
      if S.Evict(g, s, e).Success? {
        assert B.Inv(S.Evict(g, s, e).value.buf) && S.Evict(g, s, e).value.buf.lru == s.buf.lru;
      }
    }
  }

  /** What the flush issues with i entries to go. */
  ghost function Rest<D>(g: Geometry, s: Store<D>, i: nat): seq<R.Req<D>> {
    if Sized(g, s) && i <= |s.buf.lru| then U.FlushRequests(g, s, i) else []
  }

  lemma FlushIssues<D>(g: Geometry, s: Store<D>, e: nat, i: nat)
    requires Sized(g, s) && 0 < i <= |s.buf.lru| && e == s.buf.lru[i - 1]
    ensures e < |s.buf.entries|
    ensures var k := s.buf.entries[e];
            if k.pinned || !k.dirty then Rest(g, s, i) == Rest(g, s, i - 1)
            else Rest(g, s, i) == U.EvictRequests(g, s, e) + match S.Evict(g, s, e)
                                                             case Failure(_) => []
                                                             case Success(s') => Rest(g, s', i - 1)
  {
    hide U.WriteRequests, F.AddrTransWrite, F.Countable;
  }

  lemma SameWalk<D>(s: Store<D>, s': Store<D>, e: nat, i: nat)
    requires WalkAt(s, e, i) && s'.buf.lru == s.buf.lru && |s'.buf.entries| == |s.buf.entries|
    ensures WalkAt(s', e, i)
  {
  }

  /** One turn of the flush. */
  method FlushEntry<D>(g: Geometry, tables: seq<DieTables>, l2v: array<Option<Vsa>>, cursor: DieCursor,
          buf: DB.DataBuffer, target: nat, e: nat,
                       ghost s: Store<D>, ghost m: map<nat, D>, ghost i: nat, ghost end: Result<Store<D>, Stop>)
    returns (halt: Option<Halt>, next: nat, f: nat, issued: seq<R.Req<D>>, ghost s': Store<D>)
    requires Is(g, tables, l2v, buf, s) && Apart(tables, l2v, cursor, buf) && Flushing(g, s, m, i, end)
        && WalkAt(s, e, i) && i > 0
    requires g.dies > 0 && CursorAt(g, cursor, target) && target == s.ftl.target
    modifies FT.Footprint(tables), l2v, cursor, buf.Repr()
    ensures match halt
            case Some(h) => end == Failure(S.Device(h)) && issued == Rest(g, s, i)
            case None =>
              && Rest(g, s, i) == issued + Rest(g, s', i - 1)
              && Is(g, tables, l2v, buf, s') && Flushing(g, s', m, i - 1, end) && WalkAt(s', f, i - 1)
              && next == s'.ftl.target && CursorAt(g, cursor, next)
  {
    hide Is, Apart, Clear, CursorAt, FI.Inv, Flushing, S.Evict, DB.DataBuffer.Valid, DieTables.Valid, Sized, B.Shape,
        FT.AllStand, FT.Separate, WalkAt, U.EvictRequests, Rest;
    FlushingStep(g, s, m, e, i, end);
    FlushIssues(g, s, e, i);
    IsSized(g, tables, l2v, buf, s);
    halt, next, issued, s', f := None, target, [], s, e;
    var k := EntryOf(buf, e);
    if !k.pinned && k.dirty {
      halt, next, issued, s' := EvictDataBufEntry(g, tables, l2v, cursor, buf, target, e, s);
      if halt.Some? {
        return;
      }
      IsSized(g, tables, l2v, buf, s');
      SameWalk(s, s', e, i);
    }
    f := Previous(g, tables, l2v, buf, e, i, s');
  }

  lemma FlushStarts<D>(g: Geometry, s: Store<D>, m: map<nat, D>)
    requires FI.Inv(g, s.ftl) && Refines(g, s, m) && Sized(g, s) && FlushCalm(g, s, |s.buf.lru|)
    ensures Flushing(g, s, m, |s.buf.lru|, S.Flush(g, s, |s.buf.lru|))
    ensures Rest(g, s, |s.buf.lru|) == U.FlushRequests(g, s, |s.buf.lru|)
  {
  }

  /** Writes out every dirty entry that is not pinned, the least recently used first, and issues what that takes. */
  method FlushAllDataBuf<D>(g: Geometry, tables: seq<DieTables>, l2v: array<Option<Vsa>>, cursor: DieCursor,
          buf: DB.DataBuffer, target: nat,
                            ghost s: Store<D>, ghost m: map<nat, D>)
    returns (halt: Option<Halt>, next: nat, issued: seq<R.Req<D>>, ghost s': Store<D>)
    requires Is(g, tables, l2v, buf, s) && Apart(tables, l2v, cursor, buf) && FI.Inv(g, s.ftl) && Refines(g, s, m)
        && FlushCalm(g, s, |s.buf.lru|)
    requires g.dies > 0 && CursorAt(g, cursor, target) && target == s.ftl.target
    modifies FT.Footprint(tables), l2v, cursor, buf.Repr()
    ensures match S.Flush(g, s, |s.buf.lru|)
            case Failure(stop) => halt.Some? && stop == S.Device(halt.value)
            case Success(after) =>
              && halt == None && s' == after && Is(g, tables, l2v, buf, after)
              && next == after.ftl.target && CursorAt(g, cursor, next)
    ensures issued == U.FlushRequests(g, s, |s.buf.lru|)
  {
    hide S.HoldsBut, Is, Apart, Clear, CursorAt, FI.Inv, Refines, Flushing, FlushCalm, S.Flush, S.Evict,
        DB.DataBuffer.Valid, DieTables.Valid, B.Shape, WalkAt, Sized, U.FlushRequests, Rest;
    RefinesSized(g, s, m);
    FlushStarts(g, s, m);
    ghost var i: nat, end := |s.buf.lru|, S.Flush(g, s, |s.buf.lru|);
    halt, next, issued, s' := None, target, [], s;
    var e := Tail(g, tables, l2v, buf, s);
    while e != DB.DATA_BUF_NONE
      invariant Is(g, tables, l2v, buf, s') && Flushing(g, s', m, i, end) && WalkAt(s', e, i) && halt == None
      invariant next == s'.ftl.target && CursorAt(g, cursor, next)
      invariant U.FlushRequests(g, s, |s.buf.lru|) == issued + Rest(g, s', i)
      decreases i
    {
      EndOfWalk(g, s', m, e, i, end);
      ghost var before := issued;
      var more;
      halt, next, e, more, s' := FlushEntry(g, tables, l2v, cursor, buf, next, e, s', m, i, end);
      issued := issued + more;
      FT.Regroup(before, more, Rest(g, s', i - 1));
      if halt.Some? {
        return;
      }
      i := i - 1;
    }
    EndOfWalk(g, s', m, e, i, end);
  }

  lemma EndOfWalk<D>(g: Geometry, s: Store<D>, m: map<nat, D>, e: nat, i: nat, end: Result<Store<D>, Stop>)
    requires Flushing(g, s, m, i, end) && WalkAt(s, e, i)
    ensures if e == DB.DATA_BUF_NONE then end == Success(s) && Rest(g, s, i) == [] else i > 0
  {
  }
}
