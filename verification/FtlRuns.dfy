/** Where the translation layer starts, and a run on which it leaves its invariant. */
module FtlRuns {
  import opened Common
  import opened Ftl
  import opened FtlInvariant

  ghost predicate BadTable(g: Geometry, bad: seq<seq<bool>>) {
    g.Valid() && |bad| == g.dies && forall d :: 0 <= d < g.dies ==> |bad[d]| == g.blocks
  }

  /** The invariant of the first d dies; the others are as InitBlockMap left them. */
  ghost predicate StartedUpTo<D>(g: Geometry, bad: seq<seq<bool>>, s: Ftl<D>, d: nat) {
    && BadTable(g, bad) && Shape(g, s) && s.media == map[] && (forall l :: 0 <= l < g.slices ==> s.l2v[l] == None)
    && (forall e :: 0 <= e < g.dies && e >= d ==> s.dies[e] == InitDie(g, bad[e], g.blocks))
    && (forall e :: 0 <= e < d && e < g.dies ==> Started(g, e, s.l2v, s.dies[e]))
  }

  ghost predicate Started(g: Geometry, d: nat, l2v: seq<Option<Vsa>>, die: Die) {
    && DieShape(g, die) && ListInv(g, d, die, None)
    && |die.freeList| >= RESERVED_FREE_BLOCK_COUNT
    && (forall b :: 0 <= b < g.blocks ==>
        BlockInv(g, l2v, d, b, die.blocks[b], b == die.current, false) && die.blocks[b].currentPage == 0)
  }

  /** A die starts, with a reserve, exactly if it has two good blocks. */
  lemma DieStarts(g: Geometry, d: nat, l2v: seq<Option<Vsa>>, bad: seq<bool>)
    requires g.Valid() && |bad| == g.blocks
    ensures var r := GetFromFbList(g, InitDie(g, bad, g.blocks), false);
            && (r.Some? <==> |GoodBlocks(bad, g.blocks)| >= 2)
            && (r.Some? ==> Started(g, d, l2v, r.value.0.(current := r.value.1)))
  {
    var die := InitDie(g, bad, g.blocks);
    var good := GoodBlocks(bad, g.blocks);
    if |good| >= 2 {
      var b := good[0];
      assert b in good;
      var die' := GetFromFbList(g, die, false).value.0.(current := b);
      forall x: nat
        ensures x in die'.freeList <==> x in good && x != b
      {
        if x in good && x != b {
          var i :| 0 <= i < |good| && good[i] == x;
          assert die'.freeList[i - 1] == x;
        }
      }
      forall x | 0 <= x < g.blocks
        ensures BlockInv(g, l2v, d, x, die'.blocks[x], x == b, false)
      {
        assert StalePages(l2v, d, x, die'.blocks[x].v2l) == {};
      }
    }
  }

  lemma StartedStep<D>(g: Geometry, bad: seq<seq<bool>>, s: Ftl<D>, d: nat, die: Die)
    requires StartedUpTo(g, bad, s, d) && d < g.dies && Started(g, d, s.l2v, die)
    ensures StartedUpTo(g, bad, SetDie(s, d, die), d + 1)
  {
    hide ListInv, BlockInv, InitDie;
  }

  lemma {:induction false} BlocksStart<D>(g: Geometry, bad: seq<seq<bool>>, s: Ftl<D>, d: nat)
    requires StartedUpTo(g, bad, s, d) && d <= g.dies
    ensures var r := InitCurrentBlocks(g, s, d);
            && (r.Success? <==> forall e :: d <= e < g.dies ==> |GoodBlocks(bad[e], g.blocks)| >= 2)
            && (r.Success? ==> StartedUpTo(g, bad, r.value, g.dies))
    decreases g.dies - d
  {
    hide Started, ListInv, BlockInv, InitDie, DieShape, GetFromFbList;
    if d < g.dies {
      DieStarts(g, d, s.l2v, bad[d]);
      match GetFromFbList(g, s.dies[d], false)
      case None =>
      case Some((die, b)) =>
        StartedStep(g, bad, s, d, die.(current := b));
        BlocksStart(g, bad, SetDie(s, d, die.(current := b)), d + 1);
    }
  }

  /** The device starts exactly if every die has two good blocks, and then its invariant holds. */
  lemma InitEstablishesInv<D>(g: Geometry, bad: seq<seq<bool>>)
    requires BadTable(g, bad)
    ensures var r := InitCurrentBlocks<D>(g, InitTables(g, bad), 0);
            && (r.Success? <==> forall d :: 0 <= d < g.dies ==> |GoodBlocks(bad[d], g.blocks)| >= 2)
            && (r.Success? ==> Inv(g, r.value) && forall l :: 0 <= l < g.slices ==> Lookup(r.value, l) == None)
  {
    BlocksStart<D>(g, bad, InitTables(g, bad), 0);
  }

  // ---------- one slice written twice on the smallest device ----------

  /** One die, two blocks of one page, one slice. */
  const Tiny: Geometry := Geometry(1, 2, 1, 1)

  function TinyState<D>(first: Block, freeList: seq<nat>, l2v: Option<Vsa>, media: map<Vsa, D>): Ftl<D> {
    Ftl([Die([first, Block(false, true, 0, 0, [None])], 0, freeList, [[], []])], [l2v], 0, media)
  }

  function TinyFresh<D>(): Ftl<D> {
    TinyState(Block(false, false, 0, 0, [None]), [1], None, map[])
  }

  function TinyWritten<D>(a: D): Ftl<D> {
    TinyState(Block(false, false, 0, 1, [Some(0)]), [1], Some(Vsa(0, 0, 0)), map[Vsa(0, 0, 0) := a])
  }

  /** Block 0 is current, holds the slice, and is free. */
  function TinyRewritten<D>(b: D): Ftl<D> {
    TinyState(Block(false, true, 0, 1, [Some(0)]), [1, 0], Some(Vsa(0, 0, 0)), map[Vsa(0, 0, 0) := b])
  }

  lemma PairUpdate<T>(x: T, y: T, z: T)
    ensures [x, y][0 := z] == [z, y] && [x, y][1 := z] == [x, z] && [x][0 := z] == [z] && [x][1..] == []
        && [x, y][1..] == [y]
  {
  }

  lemma TinyStarts<D>()
    ensures InitCurrentBlocks<D>(Tiny, InitTables(Tiny, [[false, false]]), 0) == Success(TinyFresh())
    ensures Inv<D>(Tiny, TinyFresh())
  {
    var bad := [[false, false]];
    assert GoodBlocks(bad[0], 1) == [0] && GoodBlocks(bad[0], 2) == [0, 1];
    InitEstablishesInv<D>(Tiny, bad);
    hide Inv;
    var t := InitTables<D>(Tiny, bad);
    assert Unwritten(1) == [None];
    assert t.dies[0].blocks == [Block(false, true, 0, 0, [None]), Block(false, true, 0, 0, [None])];
    assert t.dies[0].victims == [[], []] && t.dies == [t.dies[0]] && t.l2v == [None];
    var (die, b) := GetFromFbList(Tiny, t.dies[0], false).value;
    assert die.freeList == [1] && b == 0;
    PairUpdate(t.dies[0].blocks[0], t.dies[0].blocks[1], t.dies[0].blocks[0].(free := false));
    assert die.(current := b) == TinyFresh<D>().dies[0];
    PairUpdate(t.dies[0], t.dies[0], die.(current := b));
    assert SetDie(t, 0, die.(current := b)) == TinyFresh<D>();
    assert InitCurrentBlocks(Tiny, TinyFresh<D>(), 1) == Success(TinyFresh<D>());
  }

  lemma TinyFirstWrite<D>(a: D)
    ensures Shape(Tiny, TinyFresh<D>()) && Countable(Tiny, TinyFresh<D>(), 0)
    ensures AddrTransWrite(Tiny, TinyFresh<D>(), 0, a) == Success((TinyWritten(a), Vsa(0, 0, 0)))
  {
    var s := TinyFresh<D>();
    var s2 := MapNextPage(Tiny, s, 0, 0);
    PairUpdate(s.dies[0].blocks[0], s.dies[0].blocks[1], TinyWritten(a).dies[0].blocks[0]);
    PairUpdate<Option<nat>>(None, None, Some(0));
    assert s2.dies[0].blocks[0].v2l == [Some(0)];
    assert s2.dies[0].blocks == TinyWritten(a).dies[0].blocks;
    assert s2.dies == TinyWritten(a).dies && s2.l2v == TinyWritten(a).l2v;
  }

  lemma TinyCollection<D>(a: D, s0: Ftl<D>)
    requires Shape(Tiny, s0)
    requires s0 == TinyState(Block(false, false, 1, 1, [Some(0)]), [1], None, map[Vsa(0, 0, 0) := a]).(dies := s0.dies)
    requires s0.dies == [Die([Block(false, false, 1, 1, [Some(0)]), Block(false, true, 0, 0, [None])], 0, [1],
        [[], [0]])]
    ensures GarbageCollection(Tiny, s0, 0) == Success(TinyState(Block(false, true, 0, 0, [None]), [1, 0], None, map[]))
  {
    var die := s0.dies[0];
    assert PickVictim(die, 1) == Some(0) && VictimBucket(die, 1) == 1;
    PairUpdate<nat>(0, 0, 0);
    PairUpdate<seq<nat>>([], [0], []);
    assert die.victims[1 := die.victims[1][1..]] == [[], []];
    PairUpdate(die.blocks[0], die.blocks[1], Block(false, true, 0, 0, [None]));
    assert Unwritten(1) == [None];
    var popped := die.(victims := [[], []]);
    PairUpdate(s0.dies[0], s0.dies[0], popped);
    assert GetFromGcVictimList(Tiny, die) == Success((popped, 0));
    var s1 := SetDie(s0, 0, popped);
    var s2 := EraseBlock(Tiny, s1, 0, 0);
    assert s2.dies[0].blocks == [Block(false, true, 0, 0, [None]), Block(false, true, 0, 0, [None])];
    assert s2.dies[0].freeList == [1, 0] && s2.media == map[] && s2.l2v == s0.l2v;
    assert s2.dies == [s2.dies[0]];
    assert GarbageCollection(Tiny, s0, 0) == Success(s2);
  }

  /** The slice unmapped, its page counted stale. */
  lemma TinyInvalidated<D>(a: D)
    ensures Shape(Tiny, TinyWritten(a)) && Countable(Tiny, TinyWritten(a), 0)
    ensures var s0 := InvalidateOldVsa(Tiny, TinyWritten(a), 0);
            && s0 == TinyState(Block(false, false, 1, 1, [Some(0)]), [1], None, map[Vsa(0, 0, 0) := a]).(dies :=
                s0.dies)
            && s0.dies == [Die([Block(false, false, 1, 1, [Some(0)]), Block(false, true, 0, 0, [None])], 0, [1],
                [[], [0]])]
  {
    var s := TinyWritten(a);
    var s0 := InvalidateOldVsa(Tiny, s, 0);
    var die := s.dies[0];
    PairUpdate<seq<nat>>([], [], []);
    assert SelectiveGetFromGcVictimList(Tiny, die, 0) == die;
    PairUpdate(die.blocks[0], die.blocks[1], Block(false, false, 1, 1, [Some(0)]));
    PairUpdate<seq<nat>>([], [], [0]);
    assert [] + [0] == [0];
    assert s0.dies[0].victims == [[], [0]]
        && s0.dies[0].blocks == [Block(false, false, 1, 1, [Some(0)]), Block(false, true, 0, 0, [None])];
  }

  lemma TinySecondWrite<D>(a: D, b: D)
    ensures Shape(Tiny, TinyWritten(a)) && Countable(Tiny, TinyWritten(a), 0)
    ensures AddrTransWrite(Tiny, TinyWritten(a), 0, b) == Success((TinyRewritten(b), Vsa(0, 0, 0)))
  {
    hide InvalidateOldVsa, GarbageCollection;
    TinyInvalidated(a);
    var s0 := InvalidateOldVsa(Tiny, TinyWritten(a), 0);
    TinyCollection(a, s0);
    var s1 := GarbageCollection(Tiny, s0, 0).value;
    assert OpenForWrite(Tiny, s0) == Success(s1);
    var s2 := MapNextPage(Tiny, s1, 0, 0);
    PairUpdate(s1.dies[0].blocks[0], s1.dies[0].blocks[1], TinyRewritten(b).dies[0].blocks[0]);
    PairUpdate<Option<nat>>(None, None, Some(0));
    assert s2.dies[0].blocks[0].v2l == [Some(0)];
    assert s2.dies[0].blocks == TinyRewritten(b).dies[0].blocks;
    assert s2.dies == TinyRewritten(b).dies && s2.l2v == TinyRewritten(b).l2v;
  }

  /**
   Two writes of the same slice on a fresh device: the second collects the current block, which is
   fully invalid by then, and leaves it current, programmed and on the free list.
   */
  lemma RewritingBreaksTheInvariant<D>(a: D, b: D)
    ensures Inv<D>(Tiny, TinyFresh())
    ensures AddrTransWrite(Tiny, TinyFresh<D>(), 0, a) == Success((TinyWritten(a), Vsa(0, 0, 0)))
        && Inv(Tiny, TinyWritten(a))
    ensures AddrTransWrite(Tiny, TinyWritten(a), 0, b) == Success((TinyRewritten(b), Vsa(0, 0, 0)))
        && !Inv(Tiny, TinyRewritten(b))
  {
    TinyStarts<D>();
    TinyFirstWrite(a);
    TinySecondWrite(a, b);
    AddrTransWriteSpec(Tiny, TinyFresh<D>(), 0, a);
    assert 0 in TinyRewritten(b).dies[0].freeList;
    CurrentOnFreeListBreaks(Tiny, TinyRewritten(b), 0);
  }
}
