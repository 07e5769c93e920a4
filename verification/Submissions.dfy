/**
 The requests a step of the store submits, in the order it submits them, and that executing them one
 after the other does to buffer and flash what the step says: the flash discipline the request
 protocol relies on is what the translation layer provides.
 */
module Submissions {
  import opened Common
  import opened F = Ftl
  import opened FI = FtlInvariant
  import S = BlockStore
  import B = Buffer
  import opened R = Requests
  import RS = RequestSafety
  import Freshness

  type Flash<D> = F.Ftl<S.Page<D>>

  /** n data-buffer entries, and behind them one temporary entry for every die. */
  function SizesOf(g: Geometry, n: nat): R.Sizes {
    R.Sizes(g.dies, g.blocks, n + g.dies)
  }

  /** AllocateTempDataBuf. */
  function TempEntry(n: nat, d: nat): nat {
    n + d
  }

  function ReadPage<D>(v: Vsa, e: nat): Req<D> {
    Req(NandRead, v.die, v.block, v.page, e, 0, [])
  }

  function WritePage<D>(v: Vsa, e: nat): Req<D> {
    Req(NandWrite, v.die, v.block, v.page, e, 0, [])
  }

  function Erase<D>(d: nat, b: nat, programmed: nat): Req<D> {
    Req(NandErase, d, b, programmed, 0, 0, [])
  }

  // ---------- executing requests one after the other ----------

  predicate LawfulAll<D>(z: R.Sizes, m: RS.Mem<D>, qs: seq<Req<D>>)
    requires RS.MemShape(z, m)
    decreases |qs|
  {
    qs == [] || (R.InRange(z, qs[0]) && RS.Lawful(z, m, qs[0]) && LawfulAll(z, RS.Exec(z, m, qs[0]), qs[1..]))
  }

  function ExecAll<D>(z: R.Sizes, m: RS.Mem<D>, qs: seq<Req<D>>): (m': RS.Mem<D>)
    requires RS.MemShape(z, m) && LawfulAll(z, m, qs)
    ensures RS.MemShape(z, m')
    decreases |qs|
  {
    if qs == [] then m else ExecAll(z, RS.Exec(z, m, qs[0]), qs[1..])
  }

  lemma {:induction false} ExecAppend<D>(z: R.Sizes, m: RS.Mem<D>, a: seq<Req<D>>, b: seq<Req<D>>)
    requires RS.MemShape(z, m) && LawfulAll(z, m, a) && LawfulAll(z, ExecAll(z, m, a), b)
    ensures LawfulAll(z, m, a + b) && ExecAll(z, m, a + b) == ExecAll(z, ExecAll(z, m, a), b)
    decreases |a|
  {
    hide RS.Exec, RS.Lawful, R.InRange;
    if a == [] {
      assert a + b == b;
    } else {
      ExecAppend(z, RS.Exec(z, m, a[0]), a[1..], b);
      assert (a + b)[0] == a[0] && (a + b)[1..] == a[1..] + b;
    }
  }

  lemma ExecOne<D>(z: R.Sizes, m: RS.Mem<D>, q: Req<D>)
    requires RS.MemShape(z, m) && R.InRange(z, q) && RS.Lawful(z, m, q)
    ensures LawfulAll(z, m, [q]) && ExecAll(z, m, [q]) == RS.Exec(z, m, q)
  {
    hide RS.Exec, RS.Lawful, R.InRange;
    assert [q][1..] == [];
  }

  // ---------- flash, as the translation layer sees it ----------

  /** The cells of a block are its programmed pages, with the content the translation layer has for them. */
  ghost predicate CellsHold<D>(s: Flash<D>, d: nat, b: nat, cells: seq<S.Page<D>>)
    requires d < |s.dies| && b < |s.dies[d].blocks|
  {
    && |cells| == s.dies[d].blocks[b].currentPage
    && forall p: nat :: p < |cells| ==> Vsa(d, b, p) in s.media && s.media[Vsa(d, b, p)] == cells[p]
  }

  ghost predicate Stored<D>(g: Geometry, n: nat, s: Flash<D>, m: RS.Mem<D>) {
    && F.Shape(g, s) && RS.MemShape(SizesOf(g, n), m)
    && forall d, b :: 0 <= d < g.dies && 0 <= b < g.blocks ==> CellsHold(s, d, b, m.flash[d][b])
  }

  /** The data-buffer entries are untouched. */
  ghost predicate SameData<D>(n: nat, m: RS.Mem<D>, m': RS.Mem<D>) {
    |m'.buf| == |m.buf| >= n && forall e :: 0 <= e < n ==> m'.buf[e] == m.buf[e]
  }

  /**
   Executed one after the other from memory m, the requests are lawful and bring flash to state s;
   the data-buffer entries stay.
   */
  ghost predicate Does<D>(g: Geometry, n: nat, m: RS.Mem<D>, qs: seq<Req<D>>, s: Flash<D>) {
    var z := SizesOf(g, n);
    RS.MemShape(z, m) && LawfulAll(z, m, qs) && Stored(g, n, s, ExecAll(z, m, qs)) && SameData(n, m, ExecAll(z, m, qs))
  }

  /** The memory afterwards. */
  function Done<D>(g: Geometry, n: nat, m: RS.Mem<D>, qs: seq<Req<D>>): RS.Mem<D> {
    var z := SizesOf(g, n);
    if RS.MemShape(z, m) && LawfulAll(z, m, qs) then ExecAll(z, m, qs) else m
  }

  lemma DoesNothing<D>(g: Geometry, n: nat, m: RS.Mem<D>, s: Flash<D>)
    requires Stored(g, n, s, m)
    ensures Does(g, n, m, [], s) && Done(g, n, m, []) == m
  {
  }

  lemma DoesOne<D>(g: Geometry, n: nat, m: RS.Mem<D>, q: Req<D>, s: Flash<D>)
    requires RS.MemShape(SizesOf(g, n), m) && R.InRange(SizesOf(g, n), q) && RS.Lawful(SizesOf(g, n), m, q)
    requires Stored(g, n, s, RS.Exec(SizesOf(g, n), m, q)) && SameData(n, m, RS.Exec(SizesOf(g, n), m, q))
    ensures Does(g, n, m, [q], s) && Done(g, n, m, [q]) == RS.Exec(SizesOf(g, n), m, q)
  {
    ExecOne(SizesOf(g, n), m, q);
  }

  lemma DoesMore<D>(g: Geometry, n: nat, m: RS.Mem<D>, a: seq<Req<D>>, s: Flash<D>, b: seq<Req<D>>, s': Flash<D>)
    requires Does(g, n, m, a, s) && Does(g, n, Done(g, n, m, a), b, s')
    ensures Does(g, n, m, a + b, s') && Done(g, n, m, a + b) == Done(g, n, Done(g, n, m, a), b)
  {
    ExecAppend(SizesOf(g, n), m, a, b);
  }

  /** What programs nothing and erases nothing concerns no cell. */
  lemma StoredFrame<D>(g: Geometry, n: nat, s: Flash<D>, s': Flash<D>, m: RS.Mem<D>)
    requires Stored(g, n, s, m) && F.Shape(g, s') && s'.media == s.media
    requires forall d, b :: 0 <= d < g.dies && 0 <= b < g.blocks ==>
        s'.dies[d].blocks[b].currentPage == s.dies[d].blocks[b].currentPage
    ensures Stored(g, n, s', m)
  {
    forall d, b | 0 <= d < g.dies && 0 <= b < g.blocks
      ensures CellsHold(s', d, b, m.flash[d][b])
    {
      assert CellsHold(s, d, b, m.flash[d][b]);
    }
  }

  lemma ReadExec<D>(g: Geometry, n: nat, s: Flash<D>, v: Vsa, e: nat, m: RS.Mem<D>)
    requires Stored(g, n, s, m) && F.InRange(g, v) && v.page < s.dies[v.die].blocks[v.block].currentPage
        && e < n + g.dies
    ensures var z := SizesOf(g, n); var q := ReadPage(v, e);
            && R.InRange(z, q) && RS.Lawful(z, m, q) && v in s.media
            && RS.Exec(z, m, q) == m.(buf := m.buf[e := s.media[v]])
  {
    var q: Req<D> := ReadPage(v, e);
    assert CellsHold(s, v.die, v.block, m.flash[v.die][v.block]);
    assert m.flash[v.die][v.block := m.flash[v.die][v.block]] == m.flash[v.die];
    assert m.flash[v.die := m.flash[v.die]] == m.flash;
  }

  /** Programming the next page of die d with what entry e holds. */
  lemma WriteExec<D>(g: Geometry, n: nat, s: Flash<D>, d: nat, l: nat, e: nat, m: RS.Mem<D>)
    requires Stored(g, n, s, m) && d < g.dies && l < g.slices && NextVsa(s, d).page < g.pages && e < n + g.dies
    ensures var z := SizesOf(g, n); var q := WritePage(NextVsa(s, d), e);
            && R.InRange(z, q) && RS.Lawful(z, m, q)
            && Stored(g, n, ProgramNext(g, s, d, l, m.buf[e]), RS.Exec(z, m, q)) && RS.Exec(z, m, q).buf == m.buf
  {
    var z, v := SizesOf(g, n), NextVsa(s, d);
    var q := WritePage(v, e);
    ProgramFrame(g, s, d, l, m.buf[e]);
    var s' := ProgramNext(g, s, d, l, m.buf[e]);
    assert CellsHold(s, d, v.block, m.flash[d][v.block]);
    var m' := RS.Exec(z, m, q);
    assert m'.buf == m.buf;
    hide ProgramNext;
    forall d', b' | 0 <= d' < g.dies && 0 <= b' < g.blocks
      ensures CellsHold(s', d', b', m'.flash[d'][b'])
    {
      assert CellsHold(s, d', b', m.flash[d'][b']);
    }
  }

  lemma EraseExec<D>(g: Geometry, n: nat, s: Flash<D>, d: nat, b: nat, m: RS.Mem<D>)
    requires Stored(g, n, s, m) && d < g.dies && b < g.blocks
    ensures var z := SizesOf(g, n); var q := Erase(d, b, s.dies[d].blocks[b].currentPage);
            && R.InRange(z, q) && RS.Lawful(z, m, q)
            && Stored(g, n, EraseBlock(g, s, d, b), RS.Exec(z, m, q)) && RS.Exec(z, m, q).buf == m.buf
  {
    var z, q := SizesOf(g, n), Erase(d, b, s.dies[d].blocks[b].currentPage);
    EraseFrame(g, s, d, b);
    var s' := EraseBlock(g, s, d, b);
    assert CellsHold(s, d, b, m.flash[d][b]);
    var m' := RS.Exec(z, m, q);
    hide EraseBlock;
    forall d', b' | 0 <= d' < g.dies && 0 <= b' < g.blocks
      ensures CellsHold(s', d', b', m'.flash[d'][b'])
    {
      assert CellsHold(s, d', b', m.flash[d'][b']);
    }
  }

  // ---------- garbage collection ----------

  /** The reads and writes of the copy loop, from the given page on. */
  function CopyRequests<D>(g: Geometry, n: nat, s: Flash<D>, d: nat, victim: nat, page: nat): seq<Req<D>>
    requires F.Shape(g, s) && d < g.dies && victim < g.blocks && page <= g.pages
    decreases g.pages - page
  {
    var v := Vsa(d, victim, page);
    if page == g.pages then []
    else if LiveAt(s, v) then
      match OpenForGc(g, s.dies[d], victim)
      case Failure(_) => [ReadPage(v, TempEntry(n, d))]
      case Success(die) =>
        var s1 := SetDie(s, d, die);
        var s2 := MapNextPage(g, s1, d, s.dies[d].blocks[victim].v2l[page].value).(media :=
            CopyContent(s.media, v, NextVsa(s1, d)));
        [ReadPage(v, TempEntry(n, d)), WritePage(NextVsa(s1, d), TempEntry(n, d))] + CopyRequests(g, n, s2, d, victim,
            page + 1)
    else CopyRequests(g, n, s, d, victim, page + 1)
  }

  function GcRequests<D>(g: Geometry, n: nat, s: Flash<D>, d: nat): seq<Req<D>>
    requires F.Shape(g, s) && d < g.dies
  {
    match GetFromGcVictimList(g, s.dies[d])
    case Failure(_) => []
    case Success((die, victim)) =>
      var s1 := SetDie(s, d, die);
      if die.blocks[victim].invalidSliceCnt == g.pages then [Erase(d, victim, die.blocks[victim].currentPage)]
      else
        CopyRequests(g, n, s1, d, victim, 0)
        + match CopyLive(g, s1, d, victim, 0)
          case Failure(_) => []
          case Success(s2) => [Erase(d, victim, s2.dies[d].blocks[victim].currentPage)]
  }

  /** The read and the write that copy one page, given the state in which it is copied. */
  function PairFor<D>(g: Geometry, n: nat, s: Flash<D>, d: nat, victim: nat, page: nat): seq<Req<D>>
    requires F.Shape(g, s) && d < g.dies
  {
    match OpenForGc(g, s.dies[d], victim)
    case Failure(_) => []
    case Success(die) => [ReadPage(Vsa(d, victim, page), TempEntry(n, d)),
        WritePage(NextVsa(SetDie(s, d, die), d), TempEntry(n, d))]
  }

  lemma CopyRequestsUnfold<D>(g: Geometry, n: nat, s: Flash<D>, d: nat, victim: nat, page: nat, l: nat, s': Flash<D>)
    requires F.Shape(g, s) && d < g.dies && victim < g.blocks && page < g.pages && LiveAt(s, Vsa(d, victim, page))
    requires s.dies[d].blocks[victim].v2l[page] == Some(l) && CopiedTo(g, s, d, victim, l, page, s')
    ensures F.Shape(g, s')
    ensures CopyRequests(g, n, s, d, victim, page) == PairFor(g, n, s, d, victim, page) + CopyRequests(g, n, s', d,
        victim, page + 1)
  {
    hide OpenForGc, MapNextPage, LiveAt, CopyContent;
  }

  /** Taking a free block changes no page counter. */
  lemma OpenedPages(g: Geometry, die: Die, victim: nat)
    requires DieShape(g, die) && OpenForGc(g, die, victim).Success?
    ensures forall b :: 0 <= b < g.blocks ==>
        OpenForGc(g, die, victim).value.blocks[b].currentPage == die.blocks[b].currentPage
  {
  }

  /** Reading a live page into the temporary entry and writing it from there copies it. */
  lemma CopyPair<D>(g: Geometry, n: nat, s: Flash<D>, d: nat, victim: nat, page: nat, l: nat, s': Flash<D>,
          m: RS.Mem<D>)
    requires VictimInv(g, s, d, victim) && page < g.pages && Stored(g, n, s, m)
    requires Vsa(d, victim, page) in s.media && CopiedTo(g, s, d, victim, l, page, s')
    ensures Does(g, n, m, PairFor(g, n, s, d, victim, page), s')
  {
    hide InvBut, OpenForGc;
    var z, t, v := SizesOf(g, n), TempEntry(n, d), Vsa(d, victim, page);
    var die := OpenForGc(g, s.dies[d], victim).value;
    var s1 := SetDie(s, d, die);
    OpenedPages(g, s.dies[d], victim);
    ReadExec(g, n, s, v, t, m);
    var m1 := RS.Exec(z, m, ReadPage(v, t));
    assert m1.buf[t] == s.media[v];
    StoredFrame(g, n, s, s1, m);
    assert Stored(g, n, s1, m1) by {
      forall d', b' | 0 <= d' < g.dies && 0 <= b' < g.blocks
        ensures CellsHold(s1, d', b', m1.flash[d'][b'])
      {
        assert CellsHold(s1, d', b', m.flash[d'][b']);
      }
    }
    WriteExec(g, n, s1, d, l, t, m1);
    assert s' == ProgramNext(g, s1, d, l, m1.buf[t]);
    hide RS.Exec, RS.Lawful, Stored;
    var r, w := ReadPage(v, t), WritePage(NextVsa(s1, d), t);
    DoesOne(g, n, m, r, s1);
    DoesOne(g, n, m1, w, s');
    DoesMore(g, n, m, [r], s1, [w], s');
    assert [r] + [w] == [r, w];
  }

  lemma {:induction false} CopySubmits<D>(g: Geometry, n: nat, s: Flash<D>, d: nat, victim: nat, page: nat,
          m: RS.Mem<D>)
    requires VictimInv(g, s, d, victim) && page <= g.pages && Stored(g, n, s, m)
    requires forall p: nat :: p < page ==> !LiveAt(s, Vsa(d, victim, p))
    requires CopyRoom(g, s.dies[d], |LivePages(g, s, d, victim, page)|)
    ensures CopyLive(g, s, d, victim, page).Success?
    ensures Does(g, n, m, CopyRequests(g, n, s, d, victim, page), CopyLive(g, s, d, victim, page).value)
    decreases g.pages - page
  {
    hide BlocksInv, ListsInv, MapInv, MediaInv, LiveAt, FI.SameData, CopiedTo, CopyLive, CopyRequests, PairFor,
        LivePages, CopyRoom, CopyResult, Stored, Does, Done;
    CopyLiveSkip(g, s, d, victim, page);
    CopyRequestsSkip(g, n, s, d, victim, page);
    DoesNothing(g, n, m, s);
    if page < g.pages && LiveAt(s, Vsa(d, victim, page)) {
      CopyRoomLater(g, s, d, victim, page);
      var s' := CopyStep(g, s, d, victim, page);
      CopyRoomNext(g, s, s', d, victim, page);
      LiveHasContent(g, s, Some((d, victim)), Vsa(d, victim, page));
      CopyRequestsUnfold(g, n, s, d, victim, page, s.dies[d].blocks[victim].v2l[page].value, s');
      var pair := PairFor(g, n, s, d, victim, page);
      CopyPair(g, n, s, d, victim, page, s.dies[d].blocks[victim].v2l[page].value, s', m);
      DoesStored(g, n, m, pair, s');
      CopySubmits(g, n, s', d, victim, page + 1, Done(g, n, m, pair));
      DoesMore(g, n, m, pair, s', CopyRequests(g, n, s', d, victim, page + 1),
          CopyLive(g, s', d, victim, page + 1).value);
    } else if page < g.pages {
      CopySubmits(g, n, s, d, victim, page + 1, m);
    }
  }

  lemma DoesStored<D>(g: Geometry, n: nat, m: RS.Mem<D>, qs: seq<Req<D>>, s: Flash<D>)
    requires Does(g, n, m, qs, s)
    ensures Stored(g, n, s, Done(g, n, m, qs)) && SameData(n, m, Done(g, n, m, qs))
  {
  }

  lemma CopyRequestsSkip<D>(g: Geometry, n: nat, s: Flash<D>, d: nat, victim: nat, page: nat)
    requires F.Shape(g, s) && d < g.dies && victim < g.blocks && page <= g.pages
    ensures page == g.pages ==> CopyRequests(g, n, s, d, victim, page) == []
    ensures page < g.pages && !LiveAt(s, Vsa(d, victim, page)) ==>
        CopyRequests(g, n, s, d, victim, page) == CopyRequests(g, n, s, d, victim, page + 1)
  {
  }

  /** Collecting a die is its copies, pair by pair, and then the erase, each lawful when its turn comes. */
  lemma GcSubmits<D>(g: Geometry, n: nat, s: Flash<D>, d: nat, m: RS.Mem<D>)
    requires Inv(g, s) && d < g.dies && Full(g, s.dies[d]) && PickVictim(s.dies[d], g.pages).Some? && Stored(g, n, s, m)
    ensures GarbageCollection(g, s, d).Success?
        && Does(g, n, m, GcRequests(g, n, s, d), GarbageCollection(g, s, d).value)
  {
    hide BlocksInv, ListsInv, MapInv, MediaInv, CopyLive, CopyRequests, PickVictim, FI.SameData, LivePages, LiveAt;
    var s1, victim := Popped(g, s, d);
    StoredFrame(g, n, s, s1, m);
    var c := s.dies[d].blocks[victim].invalidSliceCnt;
    var copies, s2 := [], s1;
    DoesNothing(g, n, m, s1);
    if c != g.pages {
      CopySubmits(g, n, s1, d, victim, 0, m);
      copies, s2 := CopyRequests(g, n, s1, d, victim, 0), CopyLive(g, s1, d, victim, 0).value;
    }
    var q := Erase(d, victim, s2.dies[d].blocks[victim].currentPage);
    DoesStored(g, n, m, copies, s2);
    EraseExec(g, n, s2, d, victim, Done(g, n, m, copies));
    hide Stored, RS.Exec, RS.Lawful, Does, Done;
    DoesOne(g, n, Done(g, n, m, copies), q, EraseBlock(g, s2, d, victim));
    DoesMore(g, n, m, copies, s2, [q], EraseBlock(g, s2, d, victim));
    assert GcRequests(g, n, s, d) == copies + [q];
  }

  // ---------- a write ----------

  /** What opening a block for a write submits: nothing, unless the die must be collected. */
  function OpenRequests<D>(g: Geometry, n: nat, s: Flash<D>): seq<Req<D>>
    requires F.Shape(g, s)
  {
    if !Full(g, s.dies[s.target]) || GetFromFbList(g, s.dies[s.target], false).Some? then []
        else GcRequests(g, n, s, s.target)
  }

  /** Everything AddrTransWrite submits for slice l, and then the write of entry e to the page it gave. */
  function WriteRequests<D>(g: Geometry, n: nat, s: Flash<D>, l: nat, e: nat): seq<Req<D>>
    requires F.Shape(g, s) && l < g.slices && Countable(g, s, l)
  {
    var s0 := InvalidateOldVsa(g, s, l);
    OpenRequests(g, n, s0)
    + match OpenForWrite(g, s0)
      case Failure(_) => []
      case Success(s1) => [WritePage(NextVsa(s1, s1.target), e)]
  }

  lemma TakenPages(g: Geometry, die: Die)
    requires DieShape(g, die) && TakeFreeBlock(g, die).Success?
    ensures forall b :: 0 <= b < g.blocks ==>
        TakeFreeBlock(g, die).value.blocks[b].currentPage == die.blocks[b].currentPage
  {
  }

  lemma OpenSubmits<D>(g: Geometry, n: nat, s: Flash<D>, m: RS.Mem<D>)
    requires Inv(g, s) && OpenForWrite(g, s).Success? && Stored(g, n, s, m)
    ensures Does(g, n, m, OpenRequests(g, n, s), OpenForWrite(g, s).value)
  {
    hide Inv, PickVictim, GetFromFbList, GarbageCollection, GcRequests, Does, Done, TakeFreeBlock;
    var d := s.target;
    var qs, s1 := [], s;
    DoesNothing(g, n, m, s);
    if Full(g, s.dies[d]) && GetFromFbList(g, s.dies[d], false).None? {
      GarbageCollectionSpec(g, s, d);
      GcSubmits(g, n, s, d, m);
      qs, s1 := GcRequests(g, n, s, d), GarbageCollection(g, s, d).value;
    }
    DoesStored(g, n, m, qs, s1);
    var s2 := OpenForWrite(g, s).value;
    if Full(g, s1.dies[d]) {
      TakenPages(g, s1.dies[d]);
    }
    hide Full;
    StoredFrame(g, n, s1, s2, Done(g, n, m, qs));
    DoesNothing(g, n, Done(g, n, m, qs), s2);
    DoesMore(g, n, m, qs, s1, [], s2);
    assert qs + [] == qs;
  }

  /** The translation of a write, and the write, do to flash what AddrTransWrite says. */
  lemma WriteSubmits<D>(g: Geometry, n: nat, s: Flash<D>, l: nat, e: nat, m: RS.Mem<D>)
    requires Inv(g, s) && l < g.slices && Stored(g, n, s, m) && e < n
    ensures Countable(g, s, l)
    ensures match AddrTransWrite(g, s, l, m.buf[e])
            case Failure(_) => true
            case Success((s', _)) => Does(g, n, m, WriteRequests(g, n, s, l, e), s')
  {
    InvalidateKeeps(g, s, l);
    var s0 := InvalidateOldVsa(g, s, l);
    OpenForWriteSpec(g, s0);
    if AddrTransWrite(g, s, l, m.buf[e]).Success? {
      InvalidatedPages(g, s, l);
      StoredFrame(g, n, s, s0, m);
      OpenSubmits(g, n, s0, m);
      var s1, qs := OpenForWrite(g, s0).value, OpenRequests(g, n, s0);
      DoesStored(g, n, m, qs, s1);
      var m1 := Done(g, n, m, qs);
      WriteExec(g, n, s1, s1.target, l, e, m1);
      var q := WritePage(NextVsa(s1, s1.target), e);
      var s' := AddrTransWrite(g, s, l, m.buf[e]).value.0;
      assert s' == ProgramNext(g, s1, s1.target, l, m1.buf[e]).(target := s'.target);
      hide InvBut, OpenForWrite, InvalidateOldVsa, Does, Done, RS.Exec, RS.Lawful, OpenRequests, AddrTransWrite,
          ProgramNext;
      StoredFrame(g, n, ProgramNext(g, s1, s1.target, l, m1.buf[e]), s', RS.Exec(SizesOf(g, n), m1, q));
      DoesOne(g, n, m1, q, s');
      DoesMore(g, n, m, qs, s1, [q], s');
    }
  }

  lemma InvalidatedPages<D>(g: Geometry, s: Flash<D>, l: nat)
    requires F.Shape(g, s) && l < g.slices && Countable(g, s, l)
    ensures var s0 := InvalidateOldVsa(g, s, l);
            s0.media == s.media && forall d, b :: 0 <= d < g.dies && 0 <= b < g.blocks ==>
                s0.dies[d].blocks[b].currentPage == s.dies[d].blocks[b].currentPage
  {
  }

  // ---------- the steps of the store ----------

  /** Buffer and flash of memory m are those of the store. */
  ghost predicate Corresponds<D>(g: Geometry, s: S.Store<D>, m: RS.Mem<D>) {
    var n := |s.buf.entries|;
    && S.Sized(g, s) && Stored(g, n, s.ftl, m)
    && forall e :: 0 <= e < n ==> m.buf[e] == s.contents[e]
  }

  /** The requests are lawful from memory m on and lead to the memory of store s, which has n entries. */
  ghost predicate LeadTo<D>(g: Geometry, n: nat, m: RS.Mem<D>, qs: seq<Req<D>>, s: S.Store<D>) {
    RS.MemShape(SizesOf(g, n), m) && LawfulAll(SizesOf(g, n), m, qs) && |s.buf.entries| == n
        && Corresponds(g, s, ExecAll(SizesOf(g, n), m, qs))
  }

  lemma LeadNowhere<D>(g: Geometry, m: RS.Mem<D>, s: S.Store<D>)
    requires Corresponds(g, s, m)
    ensures LeadTo(g, |s.buf.entries|, m, [], s) && Done(g, |s.buf.entries|, m, []) == m
  {
  }

  lemma LeadOn<D>(g: Geometry, n: nat, m: RS.Mem<D>, a: seq<Req<D>>, s: S.Store<D>, b: seq<Req<D>>, s': S.Store<D>)
    requires LeadTo(g, n, m, a, s) && LeadTo(g, n, Done(g, n, m, a), b, s')
    ensures LeadTo(g, n, m, a + b, s') && Done(g, n, m, a + b) == Done(g, n, Done(g, n, m, a), b)
  {
    ExecAppend(SizesOf(g, n), m, a, b);
  }

  lemma LeadsThere<D>(g: Geometry, n: nat, m: RS.Mem<D>, qs: seq<Req<D>>, s: S.Store<D>)
    requires LeadTo(g, n, m, qs, s)
    ensures Corresponds(g, s, Done(g, n, m, qs)) && S.Sized(g, s) && |s.buf.entries| == n
  {
  }

  lemma LeadOne<D>(g: Geometry, n: nat, m: RS.Mem<D>, q: Req<D>, s: S.Store<D>)
    requires RS.MemShape(SizesOf(g, n), m) && R.InRange(SizesOf(g, n), q) && RS.Lawful(SizesOf(g, n), m, q)
    requires |s.buf.entries| == n && Corresponds(g, s, RS.Exec(SizesOf(g, n), m, q))
    ensures LeadTo(g, n, m, [q], s) && Done(g, n, m, [q]) == RS.Exec(SizesOf(g, n), m, q)
  {
    ExecOne(SizesOf(g, n), m, q);
  }

  function EvictRequests<D>(g: Geometry, s: S.Store<D>, e: nat): seq<Req<D>>
    requires S.Sized(g, s) && e < |s.buf.entries|
  {
    var k := s.buf.entries[e];
    if k.dirty && k.lsa.Some? && Countable(g, s.ftl, k.lsa.value)
        then WriteRequests(g, |s.buf.entries|, s.ftl, k.lsa.value, e) else []
  }

  lemma EvictSubmits<D>(g: Geometry, s: S.Store<D>, e: nat, m: RS.Mem<D>)
    requires Corresponds(g, s, m) && Inv(g, s.ftl) && e < |s.buf.entries| && S.Evict(g, s, e).Success?
    ensures LeadTo(g, |s.buf.entries|, m, EvictRequests(g, s, e), S.Evict(g, s, e).value)
  {
    var n, k := |s.buf.entries|, s.buf.entries[e];
    hide Inv, AddrTransWrite, WriteRequests, Countable, Stored;
    if k.dirty && k.lsa.Some? {
      WriteSubmits(g, n, s.ftl, k.lsa.value, e, m);
    }
  }

  /** DataReadFromNand: nothing for a slice that was never mapped. */
  function LoadRequests<D>(s: S.Store<D>, e: nat, l: nat): seq<Req<D>>
    requires l < |s.ftl.l2v|
  {
    match AddrTransRead(s.ftl, l)
    case None => []
    case Some(v) => [ReadPage(v, e)]
  }

  lemma LoadSubmits<D>(g: Geometry, s: S.Store<D>, e: nat, l: nat, m: RS.Mem<D>)
    requires Corresponds(g, s, m) && Inv(g, s.ftl) && e < |s.buf.entries| && l < g.slices
    ensures LeadTo(g, |s.buf.entries|, m, LoadRequests(s, e, l), S.Load(s, e, l))
  {
    var n := |s.buf.entries|;
    match s.ftl.l2v[l]
    case None => LeadNowhere(g, m, s);
    case Some(v) =>
      MappedIsBacked(g, s.ftl, None);
      assert MediaInv(g, s.ftl) && v in s.ftl.media;
      assert v.page < s.ftl.dies[v.die].blocks[v.block].currentPage;
      hide InvBut, Reserve;
      ReadExec(g, n, s.ftl, v, e, m);
      var m' := m.(buf := m.buf[e := s.ftl.media[v]]);
      assert Stored(g, n, s.ftl, m') by {
        forall d, b | 0 <= d < g.dies && 0 <= b < g.blocks
          ensures CellsHold(s.ftl, d, b, m'.flash[d][b])
        {
          assert CellsHold(s.ftl, d, b, m.flash[d][b]);
        }
      }
      LeadOne(g, n, m, ReadPage(v, e), S.Load(s, e, l));
  }

  /** The DMA request of a slice request. */
  function Dma<D>(e: nat, a: S.Access<D>): Req<D> {
    match a
    case Read(_, offset, _) => Req(TxDma, 0, 0, 0, e, offset, [])
    case Write(_, offset, data) => Req(RxDma, 0, 0, 0, e, offset, data)
  }

  lemma TransferSubmits<D>(g: Geometry, s: S.Store<D>, e: nat, a: S.Access<D>, m: RS.Mem<D>)
    requires Corresponds(g, s, m) && e < |s.buf.entries| && S.ValidAccess(g, a)
    ensures LeadTo(g, |s.buf.entries|, m, [Dma(e, a)], S.Transfer(s, e, a).0)
  {
    var n, q := |s.buf.entries|, Dma(e, a);
    var z := SizesOf(g, n);
    assert R.InRange(z, q) && RS.Lawful(z, m, q);
    var m', s' := RS.Exec(z, m, q), S.Transfer(s, e, a).0;
    assert S.Sized(g, s');
    assert m'.flash == m.flash && s'.ftl == s.ftl && forall f :: 0 <= f < n ==> m'.buf[f] == s'.contents[f];
    hide RS.Exec, S.Transfer;
    forall d, b | 0 <= d < g.dies && 0 <= b < g.blocks
      ensures CellsHold(s'.ftl, d, b, m'.flash[d][b])
    {
      assert CellsHold(s.ftl, d, b, m.flash[d][b]);
    }
    LeadOne(g, n, m, q, s');
  }

  /** Once entry e of the allocated buffer was written out. */
  function RenewRequests<D>(s: S.Store<D>, e: nat, a: S.Access<D>): seq<Req<D>>
    requires a.lsa < |s.ftl.l2v|
  {
    (if S.NeedsLoad(a) then LoadRequests(s, e, a.lsa) else []) + [Dma(e, a)]
  }

  /**
   A hit costs a DMA request; a miss what it takes to write out the old slice and read in the new
   one, and then the DMA.
   */
  function ServeRequests<D>(g: Geometry, s: S.Store<D>, a: S.Access<D>): seq<Req<D>>
    requires S.Sized(g, s) && B.Inv(s.buf) && S.ValidAccess(g, a)
  {
    match B.CheckDataBufHit(s.buf, a.lsa)
    case (_, Some(e)) => [Dma(e, a)]
    case (_, None) =>
      match B.AllocateDataBuf(s.buf, false)
      case None => []
      case Some((buf, e)) =>
        B.AllocationKeeps(s.buf, false);
        var s0 := s.(buf := buf);
        EvictRequests(g, s0, e)
        + match S.Evict(g, s0, e)
          case Failure(_) => []
          case Success(s1) => RenewRequests(s1, e, a)
  }

  /** The entry the request is served from. */
  function ServingEntry<D>(g: Geometry, s: S.Store<D>, a: S.Access<D>): nat
    requires S.Sized(g, s) && B.Inv(s.buf) && S.ValidAccess(g, a)
  {
    match B.CheckDataBufHit(s.buf, a.lsa)
    case (_, Some(e)) => e
    case (_, None) =>
      match B.AllocateDataBuf(s.buf, false)
      case None => 0
      case Some((_, e)) => e
  }

  lemma RenewSubmits<D>(g: Geometry, s: S.Store<D>, e: nat, a: S.Access<D>, m: RS.Mem<D>)
    requires Corresponds(g, s, m) && Inv(g, s.ftl) && e < |s.buf.entries| && B.InvBut(s.buf, Some(e))
        && S.ValidAccess(g, a)
    ensures LeadTo(g, |s.buf.entries|, m, RenewRequests(s, e, a), S.Transfer(S.Fetch(s, e, a), e, a).0)
  {
    var n, s2 := |s.buf.entries|, s.(buf := B.Rehash(s.buf, e, a.lsa));
    assert S.Sized(g, s2) && Corresponds(g, s2, m);
    hide B.InvBut, B.Rehash, Corresponds, Inv, LeadTo, S.Transfer, Done, AddrTransRead;
    var s3, qs := s2, [];
    if S.NeedsLoad(a) {
      LoadSubmits(g, s2, e, a.lsa, m);
      s3, qs := S.Load(s2, e, a.lsa), LoadRequests(s, e, a.lsa);
    } else {
      LeadNowhere(g, m, s2);
    }
    LeadsThere(g, n, m, qs, s3);
    TransferSubmits(g, s3, e, a, Done(g, n, m, qs));
    LeadOn(g, n, m, qs, s3, [Dma(e, a)], S.Transfer(s3, e, a).0);
  }

  /**
   A slice request submits requests that are lawful one after the other and do what serving it says;
   the DMA comes last.
   */
  lemma ServeSubmits<D>(g: Geometry, s: S.Store<D>, a: S.Access<D>, m: RS.Mem<D>)
    requires Corresponds(g, s, m) && Inv(g, s.ftl) && B.Inv(s.buf) && S.ValidAccess(g, a)
    requires S.Serve(g, s, a).Success? && Inv(g, S.Serve(g, s, a).value.0.ftl)
    ensures LeadTo(g, |s.buf.entries|, m, ServeRequests(g, s, a), S.Serve(g, s, a).value.0)
    ensures var s' := S.Serve(g, s, a).value.0; var e := ServingEntry(g, s, a);
            e < |s'.contents| == |s'.buf.entries| && S.Serve(g, s, a).value.1 == S.Transfer(s', e, a).1
  {
    var n := |s.buf.entries|;
    match B.CheckDataBufHit(s.buf, a.lsa)
    case (buf, Some(e)) =>
      B.HitKeeps(s.buf, a.lsa);
      assert Corresponds(g, s.(buf := buf), m);
      hide Corresponds, Inv, B.Inv, LeadTo;
      TransferSubmits(g, s.(buf := buf), e, a, m);
    case (_, None) =>
      hide Corresponds, Inv, B.Inv, LeadTo, B.AllocateDataBuf, S.Evict, RenewRequests, S.Transfer;
      MissSubmits(g, s, a, m);
  }

  lemma MissSubmits<D>(g: Geometry, s: S.Store<D>, a: S.Access<D>, m: RS.Mem<D>)
    requires Corresponds(g, s, m) && Inv(g, s.ftl) && B.Inv(s.buf) && S.ValidAccess(g, a)
        && B.CheckDataBufHit(s.buf, a.lsa).1 == None
    requires S.Miss(g, s, a).Success? && Inv(g, S.Miss(g, s, a).value.0.ftl)
    ensures var (s1, e) := S.Miss(g, s, a).value;
            ServingEntry(g, s, a) == e && LeadTo(g, |s.buf.entries|, m, ServeRequests(g, s, a), S.Transfer(s1, e, a).0)
  {
    var n := |s.buf.entries|;
    B.AllocationKeeps(s.buf, false);
    var (buf, e) := B.AllocateDataBuf(s.buf, false).value;
    var s0 := s.(buf := buf);
    assert Corresponds(g, s0, m);
    var s1 := S.Evict(g, s0, e).value;
    S.EvictKeepsHeld(g, s0, e);
    assert Inv(g, s1.ftl);
    hide Corresponds, Inv, B.Inv, B.InvBut, B.AllocateDataBuf, LeadTo, S.Evict, EvictRequests, RenewRequests, B.Rehash,
        Done, S.Transfer;
    EvictSubmits(g, s0, e, m);
    LeadsThere(g, n, m, EvictRequests(g, s0, e), s1);
    RenewSubmits(g, s1, e, a, Done(g, n, m, EvictRequests(g, s0, e)));
    LeadOn(g, n, m, EvictRequests(g, s0, e), s1, RenewRequests(s1, e, a), S.Transfer(S.Miss(g, s, a).value.0, e, a).0);
  }

  // ---------- which reads ----------

  /** No read among them goes into a data-buffer entry. */
  ghost predicate ReadsTemps<D>(n: nat, qs: seq<Req<D>>) {
    forall q :: q in qs && q.kind.NandRead? ==> q.buf >= n
  }

  lemma {:induction false} CopyReadsTemps<D>(g: Geometry, n: nat, s: Flash<D>, d: nat, victim: nat, page: nat)
    requires F.Shape(g, s) && d < g.dies && victim < g.blocks && page <= g.pages
    ensures ReadsTemps(n, CopyRequests(g, n, s, d, victim, page))
    decreases g.pages - page
  {
    hide OpenForGc, MapNextPage, CopyContent;
    var v := Vsa(d, victim, page);
    if page < g.pages && LiveAt(s, v) {
      match OpenForGc(g, s.dies[d], victim)
      case Failure(_) =>
      case Success(die) =>
        var s1 := SetDie(s, d, die);
        CopyReadsTemps(g, n, MapNextPage(g, s1, d, s.dies[d].blocks[victim].v2l[page].value).(media :=
            CopyContent(s.media, v, NextVsa(s1, d))), d, victim, page + 1);
    } else if page < g.pages {
      CopyReadsTemps(g, n, s, d, victim, page + 1);
    }
  }

  lemma EvictReadsTemps<D>(g: Geometry, s: S.Store<D>, e: nat)
    requires S.Sized(g, s) && e < |s.buf.entries|
    ensures ReadsTemps(|s.buf.entries|, EvictRequests(g, s, e))
  {
    hide CopyRequests, CopyLive, OpenForWrite, GetFromFbList, InvalidateOldVsa;
    var n, k := |s.buf.entries|, s.buf.entries[e];
    if k.dirty && k.lsa.Some? && Countable(g, s.ftl, k.lsa.value) {
      var s0 := InvalidateOldVsa(g, s.ftl, k.lsa.value);
      GcReadsTemps(g, n, s0, s0.target);
    }
  }

  lemma GcReadsTemps<D>(g: Geometry, n: nat, s: Flash<D>, d: nat)
    requires F.Shape(g, s) && d < g.dies
    ensures ReadsTemps(n, GcRequests(g, n, s, d))
  {
    hide CopyRequests, CopyLive;
    match GetFromGcVictimList(g, s.dies[d])
    case Failure(_) =>
    case Success((die, victim)) => CopyReadsTemps(g, n, SetDie(s, d, die), d, victim, 0);
  }

  /**
   The serving entry holds the slice afterwards, and a page is read into it exactly if no entry held
   the slice, not all of it is overwritten, and the page is where the slice then is.
   */
  lemma ServeReads<D>(g: Geometry, s: S.Store<D>, a: S.Access<D>, v: Vsa)
    requires S.Sized(g, s) && B.Inv(s.buf) && S.ValidAccess(g, a) && S.Serve(g, s, a).Success?
    ensures var s' := S.Serve(g, s, a).value.0;
            && B.Caches(s'.buf, ServingEntry(g, s, a), a.lsa) && a.lsa < |s'.ftl.l2v|
            && (ReadPage(v, ServingEntry(g, s, a)) in ServeRequests(g, s, a) <==>
                  (forall e: nat :: !B.Caches(s.buf, e, a.lsa)) && (a.Write? ==> |a.data| != S.BLOCKS)
                  && s'.ftl.l2v[a.lsa] == Some(v))
  {
    B.HitKeeps(s.buf, a.lsa);
    match B.CheckDataBufHit(s.buf, a.lsa)
    case (_, Some(e)) =>
      hide B.Inv, F.Shape;
      assert B.Caches(s.buf, e, a.lsa);
    case (_, None) =>
      hide B.Inv, F.Shape, B.AllocateDataBuf, S.Evict, EvictRequests, B.CheckDataBufHit, S.Miss;
      MissReads(g, s, a, v);
  }

  lemma MissReads<D>(g: Geometry, s: S.Store<D>, a: S.Access<D>, v: Vsa)
    requires S.Sized(g, s) && B.Inv(s.buf) && S.ValidAccess(g, a) && S.Miss(g, s, a).Success?
        && B.CheckDataBufHit(s.buf, a.lsa).1 == None
    ensures var (s', e) := S.Miss(g, s, a).value;
            && e == ServingEntry(g, s, a) && B.Caches(s'.buf, e, a.lsa) && a.lsa < |s'.ftl.l2v|
            && (ReadPage(v, e) in ServeRequests(g, s, a) <==> S.NeedsLoad(a) && s'.ftl.l2v[a.lsa] == Some(v))
  {
    hide B.Inv, B.InvBut, B.Shape, B.AllocateDataBuf, S.Evict, EvictRequests, B.CheckDataBufHit;
    S.AllocatedFits(g, s);
    S.MissUnfold(g, s, a);
    var (buf, e) := B.AllocateDataBuf(s.buf, false).value;
    var s0 := s.(buf := buf);
    EvictReadsTemps(g, s0, e);
    var s1 := S.Evict(g, s0, e).value;
    assert ServeRequests(g, s, a) == EvictRequests(g, s0, e) + RenewRequests(s1, e, a);
    assert ReadPage<D>(v, e) !in EvictRequests(g, s0, e);
  }

  // ---------- flush, and any step ----------

  function FlushRequests<D>(g: Geometry, s: S.Store<D>, i: nat): seq<Req<D>>
    requires S.Sized(g, s) && i <= |s.buf.lru|
    decreases i
  {
    if i == 0 then []
    else
      var e := s.buf.lru[i - 1];
      if s.buf.entries[e].pinned then FlushRequests(g, s, i - 1)
      else
        EvictRequests(g, s, e)
        + match S.Evict(g, s, e)
          case Failure(_) => []
          case Success(s') => FlushRequests(g, s', i - 1)
  }

  lemma {:induction false} FlushSubmits<D>(g: Geometry, s: S.Store<D>, h: map<nat, D>, i: nat, m: RS.Mem<D>)
    requires S.Refines(g, s, h) && Inv(g, s.ftl) && i <= |s.buf.lru| && S.FlushCalm(g, s, i)
        && S.Flush(g, s, i).Success?
    requires Corresponds(g, s, m)
    ensures LeadTo(g, |s.buf.entries|, m, FlushRequests(g, s, i), S.Flush(g, s, i).value)
    decreases i
  {
    hide Inv, S.Stuck, S.CollectsCurrent, S.Refines, S.Evict, Corresponds, LeadTo, Done, EvictRequests;
    S.RefinesSized(g, s, h);
    if i == 0 {
      LeadNowhere(g, m, s);
    } else {
      var n, e := |s.buf.entries|, s.buf.lru[i - 1];
      if s.buf.entries[e].pinned {
        FlushSubmits(g, s, h, i - 1, m);
      } else {
        S.EvictRefines(g, s, h, e);
        var s', qs := S.Evict(g, s, e).value, EvictRequests(g, s, e);
        EvictSubmits(g, s, e, m);
        LeadsThere(g, n, m, qs, s');
        FlushSubmits(g, s', h, i - 1, Done(g, n, m, qs));
        LeadOn(g, n, m, qs, s', FlushRequests(g, s', i - 1), S.Flush(g, s', i - 1).value);
      }
    }
  }

  function StepRequests<D>(g: Geometry, s: S.Store<D>, v: S.Event<D>): seq<Req<D>>
    requires S.Sized(g, s) && B.Inv(s.buf) && (v.Slice? ==> S.ValidAccess(g, v.access))
  {
    match v
    case Slice(a) => ServeRequests(g, s, a)
    case FlushAll => FlushRequests(g, s, |s.buf.lru|)
    case Pin(_, _) => []
  }

  /**
   Whatever a step of the store submits is lawful, request after request, and brings buffer and
   flash to where the step says they are.
   */
  lemma StepSubmits<D>(g: Geometry, s: S.Store<D>, h: map<nat, D>, v: S.Event<D>, s': S.Store<D>, out: seq<D>,
          m: RS.Mem<D>)
    requires S.Refines(g, s, h) && Inv(g, s.ftl) && S.Step(g, s, v, s', out) && S.Calm(g, s, v) && Corresponds(g, s, m)
    ensures LeadTo(g, |s.buf.entries|, m, StepRequests(g, s, v), s')
  {
    S.StepRefines(g, s, h, v, s', out);
    match v
    case Slice(a) =>
      hide Inv, Corresponds, LeadTo, S.Serve, ServeRequests, S.HoldsBut, B.InvBut;
      ServeSubmits(g, s, a, m);
    case FlushAll =>
      hide Inv, Corresponds, LeadTo, S.HoldsBut, B.InvBut;
      FlushSubmits(g, s, h, |s.buf.lru|, m);
    case Pin(e, on) =>
      assert Corresponds(g, s', m);
      LeadNowhere(g, m, s');
  }

  // ---------- which of the requests are transfers to the host ----------

  predicate NoTx<D>(qs: seq<Req<D>>) {
    forall i :: 0 <= i < |qs| ==> !qs[i].kind.TxDma?
  }

  predicate ReadsAndWrites<D>(qs: seq<Req<D>>) {
    forall i :: 0 <= i < |qs| ==> qs[i].kind.NandRead? || qs[i].kind.NandWrite?
  }

  /** Copying submits NAND reads and writes only. */
  lemma {:induction false} CopiesReadAndWrite<D>(g: Geometry, n: nat, s: Flash<D>, d: nat, victim: nat, page: nat)
    requires F.Shape(g, s) && d < g.dies && victim < g.blocks && page <= g.pages
    ensures ReadsAndWrites(CopyRequests(g, n, s, d, victim, page))
    decreases g.pages - page
  {
    var v := Vsa(d, victim, page);
    if page < g.pages && LiveAt(s, v) {
      if OpenForGc(g, s.dies[d], victim).Success? {
        var s1 := SetDie(s, d, OpenForGc(g, s.dies[d], victim).value);
        var s2 := MapNextPage(g, s1, d, s.dies[d].blocks[victim].v2l[page].value).(media :=
            CopyContent(s.media, v, NextVsa(s1, d)));
        CopiesReadAndWrite(g, n, s2, d, victim, page + 1);
      }
    } else if page < g.pages {
      CopiesReadAndWrite(g, n, s, d, victim, page + 1);
    }
  }

  lemma EvictionHasNoTx<D>(g: Geometry, s: S.Store<D>, e: nat)
    requires S.Sized(g, s) && e < |s.buf.entries|
    ensures NoTx(EvictRequests(g, s, e))
  {
    var k, n := s.buf.entries[e], |s.buf.entries|;
    if k.dirty && k.lsa.Some? && Countable(g, s.ftl, k.lsa.value) {
      var s0 := InvalidateOldVsa(g, s.ftl, k.lsa.value);
      GcHasNoTx(g, n, s0, s0.target);
    }
  }

  lemma GcHasNoTx<D>(g: Geometry, n: nat, s: Flash<D>, d: nat)
    requires F.Shape(g, s) && d < g.dies
    ensures NoTx(GcRequests(g, n, s, d))
  {
    match GetFromGcVictimList(g, s.dies[d])
    case Failure(_) =>
    case Success((die, victim)) =>
      CopiesReadAndWrite(g, n, SetDie(s, d, die), d, victim, 0);
      hide CopyRequests, CopyLive;
  }

  lemma {:induction false} FlushHasNoTx<D>(g: Geometry, s: S.Store<D>, i: nat)
    requires S.Sized(g, s) && i <= |s.buf.lru|
    ensures NoTx(FlushRequests(g, s, i))
    decreases i
  {
    hide EvictRequests, S.Evict;
    if i > 0 {
      var e := s.buf.lru[i - 1];
      EvictionHasNoTx(g, s, e);
      if s.buf.entries[e].pinned {
        FlushHasNoTx(g, s, i - 1);
      } else if S.Evict(g, s, e).Success? {
        FlushHasNoTx(g, S.Evict(g, s, e).value, i - 1);
      }
    }
  }

  /** The only transfer to the host is the last request of a read, from the entry the read is served from. */
  ghost predicate TxOnlyLast<D>(g: Geometry, s: S.Store<D>, v: S.Event<D>, qs: seq<Req<D>>)
    requires S.Sized(g, s) && B.Inv(s.buf) && (v.Slice? ==> S.ValidAccess(g, v.access))
  {
    forall i :: 0 <= i < |qs| && qs[i].kind.TxDma? ==>
      i == |qs| - 1 && v.Slice? && v.access.Read? && qs[i] == Dma(ServingEntry(g, s, v.access), v.access)
  }

  lemma RenewTx<D>(s: S.Store<D>, e: nat, a: S.Access<D>)
    requires a.lsa < |s.ftl.l2v|
    ensures var qs := RenewRequests(s, e, a); forall i :: 0 <= i < |qs| && qs[i].kind.TxDma? ==>
        i == |qs| - 1 && a.Read? && qs[i] == Dma(e, a)
  {
  }

  lemma ServeTx<D>(g: Geometry, s: S.Store<D>, a: S.Access<D>)
    requires S.Sized(g, s) && B.Inv(s.buf) && S.ValidAccess(g, a)
    ensures var qs := ServeRequests(g, s, a);
            forall i :: 0 <= i < |qs| && qs[i].kind.TxDma? ==>
                i == |qs| - 1 && a.Read? && qs[i] == Dma(ServingEntry(g, s, a), a)
  {
    if B.CheckDataBufHit(s.buf, a.lsa).1.None? && B.AllocateDataBuf(s.buf, false).Some? {
      B.AllocationKeeps(s.buf, false);
      var (buf, e) := B.AllocateDataBuf(s.buf, false).value;
      var s0 := s.(buf := buf);
      EvictionHasNoTx(g, s0, e);
      if S.Evict(g, s0, e).Success? {
        RenewTx(S.Evict(g, s0, e).value, e, a);
      }
      hide EvictRequests, RenewRequests, B.AllocateDataBuf, S.Evict, B.CheckDataBufHit, B.InvBut, B.Inv, Dma, S.Sized,
          B.Shape;
    }
  }

  lemma StepTx<D>(g: Geometry, s: S.Store<D>, v: S.Event<D>)
    requires S.Sized(g, s) && B.Inv(s.buf) && (v.Slice? ==> S.ValidAccess(g, v.access))
    ensures TxOnlyLast(g, s, v, StepRequests(g, s, v))
  {
    hide ServeRequests, FlushRequests, ServingEntry, Dma, B.Inv, S.Sized;
    match v
    case Slice(a) => ServeTx(g, s, a);
    case FlushAll => FlushHasNoTx(g, s, |s.buf.lru|);
    case Pin(_, _) =>
  }

  // ---------- which blocks are erased ----------

  /** Every erase is of a block with all its pages programmed. */
  ghost predicate ErasesAreFull<D>(pages: nat, qs: seq<Req<D>>) {
    forall i :: 0 <= i < |qs| ==> Freshness.FullErase(pages, qs[i])
  }

  lemma FullTogether<D>(pages: nat, a: seq<Req<D>>, b: seq<Req<D>>)
    requires ErasesAreFull(pages, a) && ErasesAreFull(pages, b)
    ensures ErasesAreFull(pages, a + b)
  {
  }

  /** A die is collected when its current block is full, and the other blocks in use are full anyway. */
  lemma GcErasesFull<D>(g: Geometry, n: nat, s: Flash<D>, d: nat)
    requires Inv(g, s) && d < g.dies && Full(g, s.dies[d])
    ensures ErasesAreFull(g.pages, GcRequests(g, n, s, d))
  {
    hide BlocksInv, ListsInv, MapInv, MediaInv, CopyLive, CopyRequests, FI.SameData, LivePages, LiveAt, PickVictim,
        CopyResult;
    if PickVictim(s.dies[d], g.pages).Some? {
      var s1, victim := Popped(g, s, d);
      var copies, s2 := [], s1;
      if s.dies[d].blocks[victim].invalidSliceCnt != g.pages {
        CopyLiveKeeps(g, s1, d, victim, 0);
        CopiesReadAndWrite(g, n, s1, d, victim, 0);
        copies, s2 := CopyRequests(g, n, s1, d, victim, 0), CopyLive(g, s1, d, victim, 0).value;
      }
      assert GcRequests(g, n, s, d) == copies + [Erase(d, victim, s2.dies[d].blocks[victim].currentPage)];
      FullTogether(g.pages, copies, [Erase<D>(d, victim, g.pages)]);
    }
  }

  lemma EvictErasesFull<D>(g: Geometry, s: S.Store<D>, e: nat)
    requires S.Sized(g, s) && Inv(g, s.ftl) && e < |s.buf.entries|
    ensures ErasesAreFull(g.pages, EvictRequests(g, s, e))
  {
    var k, n := s.buf.entries[e], |s.buf.entries|;
    if k.dirty && k.lsa.Some? && Countable(g, s.ftl, k.lsa.value) {
      var s0 := InvalidateOldVsa(g, s.ftl, k.lsa.value);
      InvalidateKeeps(g, s.ftl, k.lsa.value);
      hide Inv, InvalidateOldVsa, GcRequests, OpenForWrite;
      if Full(g, s0.dies[s0.target]) {
        GcErasesFull(g, n, s0, s0.target);
      }
    }
  }

  lemma {:induction false} FlushErasesFull<D>(g: Geometry, s: S.Store<D>, h: map<nat, D>, i: nat)
    requires S.Refines(g, s, h) && Inv(g, s.ftl) && S.Sized(g, s) && i <= |s.buf.lru| && S.FlushCalm(g, s, i)
    ensures ErasesAreFull(g.pages, FlushRequests(g, s, i))
    decreases i
  {
    hide Inv, S.Stuck, S.CollectsCurrent, S.Refines, S.Evict, EvictRequests, ErasesAreFull, S.Sized;
    if i == 0 {
      NothingIsFull<D>(g.pages);
    } else {
      var e := s.buf.lru[i - 1];
      S.RefinesSized(g, s, h);
      S.EvictRefines(g, s, h, e);
      if s.buf.entries[e].pinned {
        FlushErasesFull(g, s, h, i - 1);
      } else {
        EvictErasesFull(g, s, e);
        NothingIsFull<D>(g.pages);
        var rest := match S.Evict(g, s, e)
          case Failure(_) => []
          case Success(s') => FlushRequests(g, s', i - 1);
        if S.Evict(g, s, e).Success? {
          FlushErasesFull(g, S.Evict(g, s, e).value, h, i - 1);
        }
        FullTogether(g.pages, EvictRequests(g, s, e), rest);
      }
    }
  }

  lemma NothingIsFull<D>(pages: nat)
    ensures ErasesAreFull<D>(pages, [])
  {
  }

  lemma RenewErasesNothing<D>(s: S.Store<D>, e: nat, a: S.Access<D>)
    requires a.lsa < |s.ftl.l2v|
    ensures forall pages: nat :: ErasesAreFull(pages, RenewRequests(s, e, a))
  {
  }

  lemma ServeErasesFull<D>(g: Geometry, s: S.Store<D>, a: S.Access<D>)
    requires S.Sized(g, s) && B.Inv(s.buf) && Inv(g, s.ftl) && S.ValidAccess(g, a)
    ensures ErasesAreFull(g.pages, ServeRequests(g, s, a))
  {
    hide EvictRequests, RenewRequests, B.AllocateDataBuf, S.Evict, B.CheckDataBufHit, B.InvBut, B.Inv, B.Shape, Inv,
        ErasesAreFull;
    NothingIsFull<D>(g.pages);
    DmaIsFull(g.pages, ServingEntry(g, s, a), a);
    if B.CheckDataBufHit(s.buf, a.lsa).1.None? && B.AllocateDataBuf(s.buf, false).Some? {
      S.AllocatedFits(g, s);
      var (buf, e) := B.AllocateDataBuf(s.buf, false).value;
      var s0 := s.(buf := buf);
      EvictErasesFull(g, s0, e);
      var rest := [];
      if S.Evict(g, s0, e).Success? {
        rest := RenewRequests(S.Evict(g, s0, e).value, e, a);
        RenewErasesNothing(S.Evict(g, s0, e).value, e, a);
      }
      FullTogether(g.pages, EvictRequests(g, s0, e), rest);
    }
  }

  lemma DmaIsFull<D>(pages: nat, e: nat, a: S.Access<D>)
    ensures ErasesAreFull(pages, [Dma(e, a)])
  {
  }

  /** Whatever a step of the store erases is a block with all its pages programmed. */
  lemma StepErasesFull<D>(g: Geometry, s: S.Store<D>, h: map<nat, D>, v: S.Event<D>)
    requires S.Refines(g, s, h) && Inv(g, s.ftl) && S.Sized(g, s) && B.Inv(s.buf)
        && (v.Slice? ==> S.ValidAccess(g, v.access)) && S.Calm(g, s, v)
    ensures ErasesAreFull(g.pages, StepRequests(g, s, v))
  {
    hide ServeRequests, FlushRequests, B.Inv, S.Sized, Inv, S.Refines;
    match v
    case Slice(a) => ServeErasesFull(g, s, a);
    case FlushAll => FlushErasesFull(g, s, h, |s.buf.lru|);
    case Pin(_, _) =>
  }
}
