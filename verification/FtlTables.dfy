/**
 The operations that reach across the tables of a die and the logical map, in place. The tables
 stand for the dies of a state s of module Ftl; each operation leaves them standing for the state
 the function of the same name leads to, and stops where that function stops.
 */
module FtlTables {
  import opened Common
  import opened F = Ftl
  import opened FtlInvariant
  import opened IndexLists
  import opened DieTables
  import opened Addressing
  import R = Requests
  import S = BlockStore
  import U = Submissions

  /** The tables of die d and the logical map are those of state s. */
  ghost predicate Stands<D>(t: DieTables, l2v: array<Option<Vsa>>, d: nat, s: F.Ftl<D>)
    reads t.Repr(), l2v
  {
    && t.Valid() && l2v !in t.Repr()
    && Shape(t.g, s) && d < t.g.dies && t.abs == s.dies[d] && l2v[..] == s.l2v
  }

  /** logicalSliceMap at l and virtualSliceMap at (b, p). */
  method MapSlice<D>(t: DieTables, l2v: array<Option<Vsa>>, d: nat, b: nat, p: nat, l: nat, ghost s: F.Ftl<D>)
    requires Stands(t, l2v, d, s) && InRange(t.g, Vsa(d, b, p)) && l < t.g.slices
    modifies t.Repr(), l2v
    ensures Stands(t, l2v, d, F.MapSlice(t.g, s, Vsa(d, b, p), l))
  {
    l2v[l] := Some(Vsa(d, b, p));
    t.SetReverse(b, p, Some(l));
    assert l2v[..] == s.l2v[l := Some(Vsa(d, b, p))];
  }

  /** Does page p of block b hold the current content of a slice, and of which? */
  method LiveSlice<D>(t: DieTables, l2v: array<Option<Vsa>>, d: nat, b: nat, p: nat, ghost s: F.Ftl<D>)
          returns (l: Option<nat>)
    requires Stands(t, l2v, d, s) && b < t.g.blocks && p < t.g.pages
        && BlockInv(t.g, s.l2v, d, b, s.dies[d].blocks[b], b == s.dies[d].current, true)
    ensures l.Some? <==> LiveAt(s, Vsa(d, b, p))
    ensures l.Some? ==> s.dies[d].blocks[b].v2l[p] == l
  {
    assert t.Agrees(b, t.abs.blocks[b]);
    l := t.v2l[b, p];
    if l.Some? {
      if l2v[l.value] != Some(Vsa(d, b, p)) {
        l := None;
      }
    }
  }

  /**
   One turn of the copy loop of GarbageCollection, for a live page, with the two requests it issues;
   the data-buffer entries number n.
   */
  method CopyPage<D>(t: DieTables, l2v: array<Option<Vsa>>, n: nat, d: nat, victim: nat, page: nat, l: nat,
                     ghost s: U.Flash<D>)
    returns (issued: seq<R.Req<D>>, ghost s': U.Flash<D>)
    requires Stands(t, l2v, d, s) && VictimInv(t.g, s, d, victim) && CopyRoom(t.g, s.dies[d], 1)
    requires page < t.g.pages && LiveAt(s, Vsa(d, victim, page)) && s.dies[d].blocks[victim].v2l[page] == Some(l)
    modifies t.Repr(), l2v
    ensures Stands(t, l2v, d, s') && VictimInv(t.g, s', d, victim)
    ensures CopyLive(t.g, s, d, victim, page) == CopyLive(t.g, s', d, victim, page + 1)
    ensures U.CopyRequests(t.g, n, s, d, victim, page)
         == issued + U.CopyRequests(t.g, n, s', d, victim, page + 1)
    ensures LivePages(t.g, s', d, victim, page + 1) == LivePages(t.g, s, d, victim, page) - {page}
    ensures forall p: nat :: p < t.g.pages ==>
        (LiveAt(s', Vsa(d, victim, p)) <==> LiveAt(s, Vsa(d, victim, p)) && p != page)
    ensures CopyResult(t.g, s, s', d, 1)
  {
    s' := CopyStep(t.g, s, d, victim, page);
    FreeBlocksEmpty(t.g, s, d, Some((d, victim)));
    U.CopyRequestsUnfold(t.g, n, s, d, victim, page, l, s');
    hide BlocksInv, ListsInv, MapInv, MediaInv, CopyLive, LiveAt, LivePages, CopyResult, OpenForGc, U.CopyRequests;
    ghost var s1 := SetDie(s, d, OpenForGc(t.g, s.dies[d], victim).value);
    MapNextPageInTwoSteps(t.g, s1, d, l);
    var r := t.FindFreeVirtualSliceForGc(victim);
    assert r.Success?;
    issued := [U.ReadPage(Vsa(d, victim, page), U.TempEntry(n, d)),
        U.WritePage(Vsa(d, r.value.0, r.value.1), U.TempEntry(n, d))];
    MapSlice(t, l2v, d, r.value.0, r.value.1, l, SetDie(s1, d, PageTaken(s1.dies[d])));
  }

  lemma FreeBlocksEmpty<D>(g: Geometry, s: F.Ftl<D>, d: nat, hole: Hole)
    requires InvBut(g, s, hole) && d < g.dies
    ensures forall b :: b in s.dies[d].freeList && b < |s.dies[d].blocks| ==> s.dies[d].blocks[b].currentPage == 0
  {
    assert ListInv(g, d, s.dies[d], hole);
    forall b | b in s.dies[d].freeList && b < |s.dies[d].blocks|
      ensures s.dies[d].blocks[b].currentPage == 0
    {
      assert BlockInv(g, s.l2v, d, b, s.dies[d].blocks[b], b == s.dies[d].current, hole == Some((d, b)));
    }
  }

  /** The victim stands in no list. */
  lemma VictimIsLoose<D>(t: DieTables, l2v: array<Option<Vsa>>, d: nat, victim: nat, s: F.Ftl<D>)
    requires Stands(t, l2v, d, s) && VictimInv(t.g, s, d, victim)
    ensures Loose(t.links.lists, victim)
  {
    assert ListInv(t.g, d, s.dies[d], Some((d, victim)));
    forall q | 0 <= q < |t.links.lists|
      ensures victim !in t.links.lists[q]
    {
      assert q <= t.g.pages ==> t.links.lists[q] == s.dies[d].victims[q];
    }
  }

  lemma VictimBlockInv<D>(g: Geometry, s: F.Ftl<D>, d: nat, victim: nat)
    requires VictimInv(g, s, d, victim)
    ensures BlockInv(g, s.l2v, d, victim, s.dies[d].blocks[victim], victim == s.dies[d].current, true)
  {
  }

  /** The copy loop of GarbageCollection. */
  method CopyAll<D>(t: DieTables, l2v: array<Option<Vsa>>, n: nat, d: nat, victim: nat, ghost s: U.Flash<D>)
    returns (issued: seq<R.Req<D>>, ghost s': U.Flash<D>)
    requires Stands(t, l2v, d, s) && VictimInv(t.g, s, d, victim)
    requires CopyRoom(t.g, s.dies[d], |LivePages(t.g, s, d, victim, 0)|)
    modifies t.Repr(), l2v
    ensures Stands(t, l2v, d, s') && VictimInv(t.g, s', d, victim)
    ensures CopyLive(t.g, s, d, victim, 0) == Success(s') && issued == U.CopyRequests(t.g, n, s, d, victim, 0)
  {
    hide BlocksInv, BlockInv, ListsInv, MapInv, MediaInv, LiveAt, LivePages, CopyLive, CopyRoom, CopyResult,
        U.CopyRequests;
    issued, s' := [], s;
    var page := 0;
    while page < t.g.pages
      invariant 0 <= page <= t.g.pages
      invariant Stands(t, l2v, d, s') && VictimInv(t.g, s', d, victim)
      invariant CopyRoom(t.g, s'.dies[d], |LivePages(t.g, s', d, victim, page)|)
      invariant CopyLive(t.g, s, d, victim, 0) == CopyLive(t.g, s', d, victim, page)
      invariant U.CopyRequests(t.g, n, s, d, victim, 0) == issued + U.CopyRequests(t.g, n, s', d, victim, page)
    {
      VictimBlockInv(t.g, s', d, victim);
      var l := LiveSlice(t, l2v, d, victim, page, s');
      CopyLiveSkip(t.g, s', d, victim, page);
      U.CopyRequestsSkip(t.g, n, s', d, victim, page);
      if l.Some? {
        CopyRoomLater(t.g, s', d, victim, page);
        ghost var was, before := s', issued;
        var pair;
        pair, s' := CopyPage(t, l2v, n, d, victim, page, l.value, s');
        CopyRoomNext(t.g, was, s', d, victim, page);
        issued := issued + pair;
        Regroup(before, pair, U.CopyRequests(t.g, n, s', d, victim, page + 1));
      }
      page := page + 1;
    }
    CopyLiveSkip(t.g, s', d, victim, page);
    U.CopyRequestsSkip(t.g, n, s', d, victim, page);
  }

  lemma Regroup<T>(a: seq<T>, b: seq<T>, c: seq<T>)
    ensures a + (b + c) == (a + b) + c
  {
  }

  /** The victim, of which nothing is live any more, is erased and free again. */
  method EraseVictim<D>(t: DieTables, l2v: array<Option<Vsa>>, d: nat, victim: nat, ghost s: U.Flash<D>)
          returns (erase: R.Req<D>)
    requires Stands(t, l2v, d, s) && VictimInv(t.g, s, d, victim)
    modifies t.Repr()
    ensures erase == U.Erase(d, victim, s.dies[d].blocks[victim].currentPage)
    ensures Stands(t, l2v, d, F.EraseBlock(t.g, s, d, victim))
  {
    hide BlocksInv, ListsInv, MapInv, MediaInv;
    VictimIsLoose(t, l2v, d, victim, s);
    assert t.Agrees(victim, t.abs.blocks[victim]);
    erase := U.Erase(d, victim, t.currentPage[victim]);
    t.EraseBlock(victim);
  }

  /** Collects die d, whose current block is full: the copies, and then the erase. */
  method GarbageCollection<D>(t: DieTables, l2v: array<Option<Vsa>>, n: nat, d: nat, ghost s: U.Flash<D>)
    returns (halt: Option<Halt>, issued: seq<R.Req<D>>, ghost s': U.Flash<D>)
    requires Stands(t, l2v, d, s) && Inv(t.g, s) && Full(t.g, s.dies[d])
    modifies t.Repr(), l2v
    ensures match F.GarbageCollection(t.g, s, d)
            case Failure(e) => halt == Some(e) && Stands(t, l2v, d, s)
            case Success(after) => halt == None && s' == after && Stands(t, l2v, d, s')
    ensures issued == U.GcRequests(t.g, n, s, d)
  {
    hide BlocksInv, ListsInv, MapInv, MediaInv, CopyLive, LivePages, PickVictim, U.CopyRequests, Collected,
        FullyInvalidCurrent, FtlInvariant.SameData, Backed, F.EraseBlock;
    GarbageCollectionSpec(t.g, s, d);
    var victim := t.GetFromGcVictimList();
    if victim == BLOCK_FAIL {
      return Some(NoVictim), [], s;
    }
    ghost var s1, v := Popped(t.g, s, d);
    assert s1.dies[d] == t.abs;
    assert t.Agrees(victim, t.abs.blocks[victim]);
    issued, s' := [], s1;
    if t.invalidSliceCnt[victim] != t.g.pages {
      ReserveOf(t.g, s, d);
      issued, s' := CopyAll(t, l2v, n, d, victim, s1);
    }
    var erase := EraseVictim(t, l2v, d, victim, s');
    issued := issued + [erase];
    s' := F.EraseBlock(t.g, s', d, victim);
    halt := None;
  }

  lemma ReserveOf<D>(g: Geometry, s: F.Ftl<D>, d: nat)
    requires Inv(g, s) && d < g.dies
    ensures s.dies[d].freeList != []
  {
  }

  /** The first part of FindFreeVirtualSlice: gives the target die a current block with room, collecting if need be. */
  method OpenBlock<D>(t: DieTables, l2v: array<Option<Vsa>>, n: nat, d: nat, ghost s: U.Flash<D>)
    returns (halt: Option<Halt>, issued: seq<R.Req<D>>, ghost s1: U.Flash<D>)
    requires Stands(t, l2v, d, s) && Inv(t.g, s) && d == s.target
    modifies t.Repr(), l2v
    ensures match OpenForWrite(t.g, s)
            case Failure(e) => halt == Some(e)
            case Success(after) => halt == None && s1 == after && Stands(t, l2v, d, s1)
    ensures issued == U.OpenRequests(t.g, n, s)
  {
    hide BlocksInv, ListsInv, MapInv, MediaInv, PickVictim, F.GarbageCollection, F.TakeFreeBlock, U.GcRequests;
    BeforeOpening(t.g, s);
    halt, issued, s1 := None, [], s;
    var p := t.CurrentPage();
    if p == t.g.pages {
      halt := t.TakeFreeBlock();
      if halt == None {
        s1 := SetDie(s, d, t.abs);
      } else {
        halt, issued, s1 := GarbageCollection(t, l2v, n, d, s);
        if halt.Some? {
          return;
        }
        p := t.CurrentPage();
        if p == t.g.pages {
          halt := t.TakeFreeBlock();
          s1 := SetDie(s1, d, t.abs);
        } else if p > t.g.pages {
          halt := Some(PageManagementFail);
        }
      }
    } else if p > t.g.pages {
      halt := Some(PageManagementFail);
    }
  }

  /** Hands out the next page of the target die; s1 is s with the page's block open. */
  method FindFreeVirtualSlice<D>(t: DieTables, l2v: array<Option<Vsa>>, n: nat, d: nat, ghost s: U.Flash<D>)
    returns (r: Result<(nat, nat), Halt>, issued: seq<R.Req<D>>, ghost s1: U.Flash<D>)
    requires Stands(t, l2v, d, s) && Inv(t.g, s) && d == s.target
    modifies t.Repr(), l2v
    ensures match OpenForWrite(t.g, s)
            case Failure(e) => r == Failure(e)
            case Success(after) =>
              && s1 == after && r == Success((NextVsa(s1, d).block, NextVsa(s1, d).page))
              && Stands(t, l2v, d, SetDie(s1, d, PageTaken(s1.dies[d])))
    ensures issued == U.OpenRequests(t.g, n, s)
  {
    hide Inv, OpenForWrite, U.OpenRequests;
    var halt;
    halt, issued, s1 := OpenBlock(t, l2v, n, d, s);
    if halt.Some? {
      return Failure(halt.value), issued, s1;
    }
    var p := t.TakePage();
    r := Success((t.currentBlock, p));
  }

  /** What OpenBlock may rely on. */
  lemma BeforeOpening<D>(g: Geometry, s: F.Ftl<D>)
    requires Inv(g, s)
    ensures var d := s.target;
            && (forall b :: b in s.dies[d].freeList && b < |s.dies[d].blocks| ==> s.dies[d].blocks[b].currentPage == 0)
            && (F.TakeFreeBlock(g, s.dies[d]).Success? <==> F.GetFromFbList(g, s.dies[d], false).Some?)
            && (Full(g, s.dies[d]) && F.GarbageCollection(g, s, d).Success? ==>
                  var s1 := F.GarbageCollection(g, s, d).value;
                  Full(g, s1.dies[d]) ==> forall b :: b in s1.dies[d].freeList && b < |s1.dies[d].blocks| ==>
                      s1.dies[d].blocks[b].currentPage == 0)
  {
    hide BlocksInv, ListsInv, MapInv, MediaInv, PickVictim;
    var d := s.target;
    FreeBlocksEmpty(g, s, d, None);
    if Full(g, s.dies[d]) {
      GarbageCollectionSpec(g, s, d);
      if F.GarbageCollection(g, s, d).Success? && Full(g, F.GarbageCollection(g, s, d).value.dies[d]) {
        FreeBlocksEmpty(g, F.GarbageCollection(g, s, d).value, d, None);
      }
    }
  }

  // ---------- all dies ----------

  ghost function Footprint(tables: seq<DieTables>): set<object> {
    set d: nat, o: object | d < |tables| && o in tables[d].Repr() :: o
  }

  lemma FootprintIsAllocated(tables: seq<DieTables>)
    ensures forall o :: o in Footprint(tables) ==> allocated(o)
  {
  }

  ghost predicate Separate(tables: seq<DieTables>, l2v: array<Option<Vsa>>, cursor: DieCursor) {
    && (forall d :: 0 <= d < |tables| ==> {l2v, cursor} !! tables[d].Repr())
    && (forall d, e :: 0 <= d < |tables| && 0 <= e < |tables| && d != e ==> tables[d].Repr() !! tables[e].Repr())
  }

  /** The tables of die d are those of state s. */
  ghost predicate DieStands<D>(g: Geometry, t: DieTables, d: nat, s: F.Ftl<D>)
    reads t.Repr()
  {
    t.g == g && t.Valid() && d < |s.dies| && t.abs == s.dies[d]
  }

  /** All tables are those of state s. */
  ghost predicate AllStand<D>(g: Geometry, tables: seq<DieTables>, l2v: array<Option<Vsa>>, s: F.Ftl<D>)
    reads Footprint(tables), l2v
  {
    && Shape(g, s) && |tables| == g.dies && l2v[..] == s.l2v
    && forall d :: 0 <= d < g.dies ==> DieStands(g, tables[d], d, s)
  }

  /** Unmaps slice l; its old page becomes stale. */
  method InvalidateOldVsa<D>(g: Geometry, tables: seq<DieTables>, l2v: array<Option<Vsa>>, ghost cursor: DieCursor,
          l: nat, ghost s: F.Ftl<D>)
    requires AllStand(g, tables, l2v, s) && Separate(tables, l2v, cursor) && Inv(g, s) && l < g.slices
    modifies Footprint(tables), l2v
    ensures Countable(g, s, l) && unchanged(cursor)
    ensures AllStand(g, tables, l2v, F.InvalidateOldVsa(g, s, l))
  {
    hide Inv, DieTables.Valid, F.InvalidateOldVsa;
    StillInvariant(g, s, l);
    InvalidatedElsewhere(g, s, l);
    if l2v[l].Some? {
      var v := l2v[l].value;
      assert DieStands(g, tables[v.die], v.die, s);
      InvalidateOnDie(tables[v.die], l2v, v, l, s);
      assert forall d :: 0 <= d < g.dies && d != v.die ==> DieStands(g, tables[d], d, s);
    }
  }

  /** Only the die of the old page is touched. */
  lemma InvalidatedElsewhere<D>(g: Geometry, s: F.Ftl<D>, l: nat)
    requires Shape(g, s) && l < g.slices && Countable(g, s, l)
    ensures var s' := F.InvalidateOldVsa(g, s, l);
            if s.l2v[l].None? then s' == s else forall d :: 0 <= d < g.dies && d != s.l2v[l].value.die ==>
                s'.dies[d] == s.dies[d]
  {
  }

  method InvalidateOnDie<D>(t: DieTables, l2v: array<Option<Vsa>>, v: Vsa, l: nat, ghost s: F.Ftl<D>)
    requires Stands(t, l2v, v.die, s) && Inv(t.g, s) && l < t.g.slices && s.l2v[l] == Some(v)
    modifies t.Repr(), l2v
    ensures Countable(t.g, s, l)
    ensures Stands(t, l2v, v.die, F.InvalidateOldVsa(t.g, s, l))
  {
    hide Inv, DieTables.UncountedAreClean;
    RecountReady(t.g, s, l);
    assert t.Agrees(v.block, t.abs.blocks[v.block]);
    if t.v2l[v.block, v.page] != Some(l) {
      return;
    }
    hide DieTables.Valid, SelectiveGetFromGcVictimList, F.PutToGcVictimList;
    t.Recount(v.block);
    l2v[l] := None;
    assert F.InvalidateOldVsa(t.g, s, l) == SetDie(s, v.die, t.abs).(l2v := s.l2v[l := None]);
  }

  /** The block that is to be recounted stands in its bucket. */
  lemma RecountReady<D>(g: Geometry, s: F.Ftl<D>, l: nat)
    requires Inv(g, s) && l < g.slices && s.l2v[l].Some?
    ensures Countable(g, s, l)
    ensures var v := s.l2v[l].value; var die := s.dies[v.die]; var k := die.blocks[v.block];
            (k.v2l[v.page] == Some(l) && !k.free && k.invalidSliceCnt < g.pages
             && if k.invalidSliceCnt == 0 then die.victims[0] == [] else v.block in die.victims[k.invalidSliceCnt])
  {
    InvalidateCountable(g, s, l);
    var v := s.l2v[l].value;
    var die := s.dies[v.die];
    assert die.blocks[v.block].v2l[v.page] == Some(l);
    assert BlockInv(g, s.l2v, v.die, v.block, die.blocks[v.block], v.block == die.current, false);
    assert ListInv(g, v.die, die, None);
  }

  /** Maps slice l to a fresh page of the target die, on which the caller is going to program data. */
  method MapToTarget<D>(t: DieTables, l2v: array<Option<Vsa>>, n: nat, target: nat, l: nat, ghost s0: U.Flash<D>)
    returns (r: Result<Vsa, Halt>, issued: seq<R.Req<D>>, ghost s2: U.Flash<D>)
    requires Stands(t, l2v, target, s0) && Inv(t.g, s0) && target == s0.target && l < t.g.slices
    modifies t.Repr(), l2v
    ensures match OpenForWrite(t.g, s0)
            case Failure(e) => r == Failure(e)
            case Success(s1) =>
              && r == Success(NextVsa(s1, target)) && s2 == MapNextPage(t.g, s1, target, l)
              && Stands(t, l2v, target, s2)
    ensures issued == U.OpenRequests(t.g, n, s0)
  {
    hide Inv, OpenForWrite, DieTables.Valid, U.OpenRequests;
    var a;
    ghost var s1;
    a, issued, s1 := FindFreeVirtualSlice(t, l2v, n, target, s0);
    s2 := s1;
    if a.Failure? {
      return Failure(a.error), issued, s2;
    }
    MapNextPageInTwoSteps(t.g, s1, target, l);
    s2 := MapNextPage(t.g, s1, target, l);
    MapSlice(t, l2v, target, a.value.0, a.value.1, l, SetDie(s1, target, PageTaken(s1.dies[target])));
    r := Success(Vsa(target, a.value.0, a.value.1));
  }

  /** MapToTarget among all dies. */
  method MapAmongAll<D>(g: Geometry, tables: seq<DieTables>, l2v: array<Option<Vsa>>, ghost cursor: DieCursor,
          n: nat, target: nat, l: nat, ghost s0: U.Flash<D>)
    returns (r: Result<Vsa, Halt>, issued: seq<R.Req<D>>, ghost s2: U.Flash<D>)
    requires AllStand(g, tables, l2v, s0) && Separate(tables, l2v, cursor) && Inv(g, s0) && l < g.slices
        && target == s0.target
    modifies Footprint(tables), l2v
    ensures unchanged(cursor)
    ensures match OpenForWrite(g, s0)
            case Failure(e) => r == Failure(e)
            case Success(s1) =>
              r == Success(NextVsa(s1, target)) && s2 == MapNextPage(g, s1, target, l) && AllStand(g, tables, l2v, s2)
    ensures issued == U.OpenRequests(g, n, s0)
  {
    hide Inv, DieTables.Valid, OpenForWrite, MapNextPage, U.OpenRequests;
    OthersUntouched(g, s0, l);
    assert DieStands(g, tables[target], target, s0);
    r, issued, s2 := MapToTarget(tables[target], l2v, n, target, l, s0);
    if r.Success? {
      assert forall d :: 0 <= d < g.dies && d != target ==> DieStands(g, tables[d], d, s0);
    }
  }

  /** The maps do not know the target die or the media. */
  lemma StandsWithout<D>(g: Geometry, tables: seq<DieTables>, l2v: array<Option<Vsa>>, s: F.Ftl<D>, s': F.Ftl<D>)
    requires AllStand(g, tables, l2v, s) && Shape(g, s') && s'.dies == s.dies && s'.l2v == s.l2v
    ensures AllStand(g, tables, l2v, s')
  {
    forall d | 0 <= d < g.dies
      ensures DieStands(g, tables[d], d, s')
    {
      assert DieStands(g, tables[d], d, s);
    }
  }

  /**
   Gives slice l a new page; next is the die the write after this one goes to. What is issued is
   what the target die needed to have room.
   */
  method AddrTransWrite<D>(g: Geometry, tables: seq<DieTables>, l2v: array<Option<Vsa>>, cursor: DieCursor,
          n: nat, target: nat, l: nat, ghost s: U.Flash<D>, ghost data: S.Page<D>)
    returns (r: Result<Vsa, Halt>, next: nat, issued: seq<R.Req<D>>, ghost s': U.Flash<D>)
    requires AllStand(g, tables, l2v, s) && Separate(tables, l2v, cursor) && Inv(g, s) && l < g.slices
        && target == s.target
    requires cursor.Valid() && cursor.channels * cursor.ways == g.dies && cursor.Next() == (target + 1) % g.dies
    modifies Footprint(tables), l2v, cursor
    ensures Countable(g, s, l) && issued == U.OpenRequests(g, n, F.InvalidateOldVsa(g, s, l))
    ensures match F.AddrTransWrite(g, s, l, data)
            case Failure(e) => r == Failure(e)
            case Success((after, v)) =>
              && r == Success(v) && s' == after && next == after.target
              && AllStand(g, tables, l2v, after)
              && cursor.Valid() && cursor.Next() == (next + 1) % g.dies
  {
    hide Inv, InvBut, DieTables.Valid, OpenForWrite, MapNextPage, DieStands, Footprint, Separate, F.AddrTransWrite,
        U.OpenRequests;
    StillInvariant(g, s, l);
    InvalidateOldVsa(g, tables, l2v, cursor, l, s);
    ghost var s0 := F.InvalidateOldVsa(g, s, l);
    ghost var s2;
    next := target;
    r, issued, s2 := MapAmongAll(g, tables, l2v, cursor, n, target, l, s0);
    s' := s2;
    AddrTransWriteUnfold(g, s, l, data);
    if r.Success? {
      next := Advance(g, tables, l2v, cursor, s2);
      s' := F.AddrTransWrite(g, s, l, data).value.0;
      StandsWithout(g, tables, l2v, s2, s');
    }
  }

  /** The next die in turn; the tables do not notice. */
  method Advance<D>(g: Geometry, tables: seq<DieTables>, l2v: array<Option<Vsa>>, cursor: DieCursor, ghost s: F.Ftl<D>)
          returns (die: nat)
    requires AllStand(g, tables, l2v, s) && Separate(tables, l2v, cursor) && cursor.Valid()
    modifies cursor
    ensures AllStand(g, tables, l2v, s)
    ensures cursor.Valid() && die == old(cursor.Next()) && cursor.Next() == (die + 1) % (cursor.channels * cursor.ways)
  {
    die := cursor.FindDieForFreeSliceAllocation();
  }

  lemma AddrTransWriteUnfold<D>(g: Geometry, s: F.Ftl<D>, l: nat, data: D)
    requires Shape(g, s) && l < g.slices && Countable(g, s, l)
    ensures match OpenForWrite(g, F.InvalidateOldVsa(g, s, l))
            case Failure(e) => F.AddrTransWrite(g, s, l, data) == Failure(e)
            case Success(s1) =>
              var s2 := MapNextPage(g, s1, s.target, l);
              F.AddrTransWrite(g, s, l, data).Success?
              && var (s', v) := F.AddrTransWrite(g, s, l, data).value;
              Shape(g, s') && s'.dies == s2.dies && s'.l2v == s2.l2v && s'.target == (s.target + 1) % g.dies
                  && v == NextVsa(s1, s.target)
  {
    hide OpenForWrite, F.InvalidateOldVsa;
  }

  lemma StillInvariant<D>(g: Geometry, s: F.Ftl<D>, l: nat)
    requires Inv(g, s) && l < g.slices
    ensures Countable(g, s, l) && Inv(g, F.InvalidateOldVsa(g, s, l))
  {
    hide BlocksInv, ListsInv, MapInv, MediaInv, F.InvalidateOldVsa;
    InvalidateKeeps(g, s, l);
  }

  /** Opening a block and mapping a page there leaves the tables of the other dies alone. */
  lemma OthersUntouched<D>(g: Geometry, s0: F.Ftl<D>, l: nat)
    requires Inv(g, s0) && l < g.slices
    ensures OpenForWrite(g, s0).Success? ==>
              var s2 := MapNextPage(g, OpenForWrite(g, s0).value, s0.target, l);
              forall d :: 0 <= d < g.dies && d != s0.target ==> s2.dies[d] == s0.dies[d]
  {
    hide BlocksInv, ListsInv, MapInv, MediaInv, PickVictim;
    if MustCollect(g, s0.dies[s0.target]) {
      GarbageCollectionSpec(g, s0, s0.target);
    }
  }
}
