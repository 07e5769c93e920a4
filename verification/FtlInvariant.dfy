/**
 What the flash translation layer keeps: the maps are inverse to each other on mapped slices,
 invalid counts are exact, the lists hold what they should, and garbage collection moves data
 without anyone noticing.
 */
module FtlInvariant {
  import opened Common
  import opened Ftl

  // ---------- the invariant ----------

  /** The page at v was programmed with a slice that lives elsewhere by now. */
  ghost predicate Stale(l2v: seq<Option<Vsa>>, v: Vsa, e: Option<nat>) {
    e.Some? && (e.value >= |l2v| || l2v[e.value] != Some(v))
  }

  ghost function StalePages(l2v: seq<Option<Vsa>>, d: nat, b: nat, v2l: seq<Option<nat>>): (r: set<nat>)
  {
    set p: nat | p < |v2l| && Stale(l2v, Vsa(d, b, p), v2l[p])
  }

  /** A block that garbage collection is emptying: it is in no list and its count stands still. */
  type Hole = Option<(nat, nat)>

  ghost predicate BlockInv(g: Geometry, l2v: seq<Option<Vsa>>, d: nat, b: nat, k: Block, current: bool, hole: bool) {
    && |k.v2l| == g.pages && k.currentPage <= g.pages
    && (forall p :: 0 <= p < g.pages ==> (k.v2l[p].Some? <==> p < k.currentPage))
    && (forall p :: 0 <= p < g.pages && k.v2l[p].Some? ==> k.v2l[p].value < g.slices)
    && (k.free ==> k.currentPage == 0 && k.invalidSliceCnt == 0)
    && (k.bad ==> k.free)
    && (!k.free && !hole ==> k.invalidSliceCnt == |StalePages(l2v, d, b, k.v2l)|)
    && (!k.free && !current ==> k.currentPage == g.pages)
  }

  ghost predicate ListInv(g: Geometry, d: nat, die: Die, hole: Hole)
    requires DieShape(g, die)
  {
    && Distinct(die.freeList)
    && (forall b :: b in die.freeList <==> 0 <= b < g.blocks && die.blocks[b].free && !die.blocks[b].bad)
    && !die.blocks[die.current].free
    && die.victims[0] == []
    && (forall c :: 1 <= c <= g.pages ==> Distinct(die.victims[c]))
    && (forall c, b :: 1 <= c <= g.pages ==>
          (b in die.victims[c] <==>
             && 0 <= b < g.blocks && !die.blocks[b].free
             && die.blocks[b].invalidSliceCnt == c && hole != Some((d, b))))
  }

  ghost predicate MapInv<D>(g: Geometry, s: Ftl<D>)
    requires Shape(g, s)
  {
    forall l :: 0 <= l < g.slices && s.l2v[l].Some? ==>
      var v := s.l2v[l].value;
      s.dies[v.die].blocks[v.block].v2l[v.page] == Some(l)
  }

  /** Exactly the pages programmed since their block's last erase have content. */
  ghost predicate MediaInv<D>(g: Geometry, s: Ftl<D>)
    requires Shape(g, s)
  {
    forall v: Vsa :: v in s.media <==> InRange(g, v) && v.page < s.dies[v.die].blocks[v.block].currentPage
  }

  ghost predicate BlocksInv<D>(g: Geometry, s: Ftl<D>, hole: Hole)
    requires Shape(g, s)
  {
    forall d, b :: 0 <= d < g.dies && 0 <= b < g.blocks ==>
      BlockInv(g, s.l2v, d, b, s.dies[d].blocks[b], b == s.dies[d].current, hole == Some((d, b)))
  }

  ghost predicate ListsInv<D>(g: Geometry, s: Ftl<D>, hole: Hole)
    requires Shape(g, s)
  {
    forall d :: 0 <= d < g.dies ==> ListInv(g, d, s.dies[d], hole)
  }

  ghost predicate InvBut<D>(g: Geometry, s: Ftl<D>, hole: Hole) {
    Shape(g, s) && BlocksInv(g, s, hole) && ListsInv(g, s, hole) && MapInv(g, s) && MediaInv(g, s)
  }

  ghost predicate Reserve<D>(g: Geometry, s: Ftl<D>)
    requires |s.dies| == g.dies
  {
    forall d :: 0 <= d < g.dies ==> |s.dies[d].freeList| >= RESERVED_FREE_BLOCK_COUNT
  }

  ghost predicate Inv<D>(g: Geometry, s: Ftl<D>) {
    InvBut(g, s, None) && Reserve(g, s)
  }

  // ---------- counting pages ----------

  /** A block with a live page has fewer stale pages than pages. */
  lemma LivePageNotStale(l2v: seq<Option<Vsa>>, d: nat, b: nat, v2l: seq<Option<nat>>, p: nat)
    requires p < |v2l| && !Stale(l2v, Vsa(d, b, p), v2l[p])
    ensures |StalePages(l2v, d, b, v2l)| < |v2l|
  {
    SubsetSize(StalePages(l2v, d, b, v2l), Below(|v2l|) - {p});
  }

  // ---------- invalidating the old page of a slice ----------

  lemma InvalidateCountable<D>(g: Geometry, s: Ftl<D>, l: nat)
    requires InvBut(g, s, None) && l < g.slices
    ensures Countable(g, s, l)
  {
    if s.l2v[l].Some? {
      var v := s.l2v[l].value;
      var k := s.dies[v.die].blocks[v.block];
      assert k.v2l[v.page] == Some(l);
      LivePageNotStale(s.l2v, v.die, v.block, k.v2l, v.page);
    }
  }

  /** Remapping or unmapping slice l adds its old page to the stale pages of that page's block. */
  lemma StaleAfterLeaving(l2v: seq<Option<Vsa>>, l: nat, w: Option<Vsa>, d: nat, b: nat, v2l: seq<Option<nat>>)
    requires l < |l2v| && l2v[l].Some?
    requires w.Some? && w.value.die == d && w.value.block == b ==> w.value.page >= |v2l| || v2l[w.value.page] != Some(l)
    ensures var v := l2v[l].value;
            StalePages(l2v[l := w], d, b, v2l) ==
            StalePages(l2v, d, b, v2l) + (if v.die == d && v.block == b && v.page < |v2l|
                && v2l[v.page] == Some(l) then {v.page} else {})
  {
    var v := l2v[l].value;
    forall p: nat | p < |v2l|
      ensures Stale(l2v[l := w], Vsa(d, b, p), v2l[p]) <==>
          Stale(l2v, Vsa(d, b, p), v2l[p]) || (v == Vsa(d, b, p) && v2l[p] == Some(l))
    {
    }
  }

  function Recounted(g: Geometry, die: Die, b: nat): (r: Die)
    requires DieShape(g, die) && b < g.blocks && die.blocks[b].invalidSliceCnt < g.pages
    ensures DieShape(g, r) && r.freeList == die.freeList && r.current == die.current
    ensures r.blocks == die.blocks[b := die.blocks[b].(invalidSliceCnt := die.blocks[b].invalidSliceCnt + 1)]
  {
    var die1 := SelectiveGetFromGcVictimList(g, die, b);
    var k := die1.blocks[b];
    var c := k.invalidSliceCnt + 1;
    PutToGcVictimList(g, die1.(blocks := die1.blocks[b := k.(invalidSliceCnt := c)]), b, c)
  }

  /** Moving a block up one bucket keeps the lists. */
  lemma RecountedKeepsLists(g: Geometry, d: nat, die: Die, b: nat)
    requires DieShape(g, die) && b < g.blocks && ListInv(g, d, die, None)
    requires die.blocks[b].invalidSliceCnt < g.pages && !die.blocks[b].free
    ensures ListInv(g, d, Recounted(g, die, b), None)
  {
    var c := die.blocks[b].invalidSliceCnt;
    WithoutMembers(die.victims[c], b);
    var die' := Recounted(g, die, b);
    assert die'.victims[c + 1] == die.victims[c + 1] + [b];
    assert forall j :: 0 <= j <= g.pages && j != c && j != c + 1 ==> die'.victims[j] == die.victims[j];
    assert die'.victims[c] == Without(die.victims[c], b);
    assert b !in die.victims[c + 1];
  }

  lemma BlockAfterLeaving(g: Geometry, l2v: seq<Option<Vsa>>, l: nat, w: Option<Vsa>, d: nat, b: nat, k: Block,
          current: bool)
    requires l < |l2v| && l2v[l].Some? && BlockInv(g, l2v, d, b, k, current, false)
    requires w.Some? && w.value.die == d && w.value.block == b ==>
        w.value.page >= |k.v2l| || k.v2l[w.value.page] != Some(l)
    ensures var v := l2v[l].value;
            if v.die == d && v.block == b && v.page < g.pages && k.v2l[v.page] == Some(l)
            then BlockInv(g, l2v[l := w], d, b, k.(invalidSliceCnt := k.invalidSliceCnt + 1), current, false)
            else BlockInv(g, l2v[l := w], d, b, k, current, false)
  {
    StaleAfterLeaving(l2v, l, w, d, b, k.v2l);
    assert l2v[l] == Some(Vsa(d, b, l2v[l].value.page)) && l2v[l].value.page < g.pages
        && k.v2l[l2v[l].value.page] == Some(l)
      ==> l2v[l].value.page !in StalePages(l2v, d, b, k.v2l);
  }

  lemma InvalidateKeepsBlocks<D>(g: Geometry, s: Ftl<D>, l: nat)
    requires Shape(g, s) && BlocksInv(g, s, None) && MapInv(g, s)
    requires l < g.slices && Countable(g, s, l) && s.l2v[l].Some?
    ensures BlocksInv(g, InvalidateOldVsa(g, s, l), None)
  {
    var v := s.l2v[l].value;
    assert s.dies[v.die].blocks[v.block].v2l[v.page] == Some(l);
    var s' := InvalidateOldVsa(g, s, l);
    forall d, b | 0 <= d < g.dies && 0 <= b < g.blocks
      ensures BlockInv(g, s'.l2v, d, b, s'.dies[d].blocks[b], b == s'.dies[d].current, false)
    {
      BlockAfterLeaving(g, s.l2v, l, None, d, b, s.dies[d].blocks[b], b == s.dies[d].current);
    }
  }

  /** The two states have the same pages, programmed alike. */
  ghost predicate SamePages<D>(g: Geometry, s: Ftl<D>, s': Ftl<D>)
    requires Shape(g, s) && Shape(g, s')
  {
    forall d, b :: 0 <= d < g.dies && 0 <= b < g.blocks ==>
      && s'.dies[d].blocks[b].v2l == s.dies[d].blocks[b].v2l
      && s'.dies[d].blocks[b].currentPage == s.dies[d].blocks[b].currentPage
  }

  lemma UnmappingKeepsMaps<D>(g: Geometry, s: Ftl<D>, s': Ftl<D>, l: nat)
    requires Shape(g, s) && Shape(g, s') && SamePages(g, s, s') && MapInv(g, s) && MediaInv(g, s)
    requires l < g.slices && s'.l2v == s.l2v[l := None] && s'.media == s.media
    ensures MapInv(g, s') && MediaInv(g, s')
  {
  }

  /** What invalidating touches: one count and two buckets of one die, and the map entry of l. */
  lemma InvalidateFrame<D>(g: Geometry, s: Ftl<D>, l: nat)
    requires Shape(g, s) && l < g.slices && Countable(g, s, l) && s.l2v[l].Some?
    requires var v := s.l2v[l].value; s.dies[v.die].blocks[v.block].v2l[v.page] == Some(l)
    ensures var v := s.l2v[l].value;
            InvalidateOldVsa(g, s, l) == SetDie(s, v.die, Recounted(g, s.dies[v.die], v.block)).(l2v :=
                s.l2v[l := None])
    ensures SamePages(g, s, InvalidateOldVsa(g, s, l))
    ensures var s' := InvalidateOldVsa(g, s, l);
            forall d :: 0 <= d < g.dies ==>
                s'.dies[d].freeList == s.dies[d].freeList && s'.dies[d].current == s.dies[d].current
    ensures var v := s.l2v[l].value;
            var c := s.dies[v.die].blocks[v.block].invalidSliceCnt + 1;
            var die' := InvalidateOldVsa(g, s, l).dies[v.die];
            c <= g.pages && die'.blocks[v.block].invalidSliceCnt == c
                && die'.victims[c] == s.dies[v.die].victims[c] + [v.block]
  {
  }

  /** The block a slice is mapped to is in use, and its page names the slice. */
  lemma MappedBlock<D>(g: Geometry, s: Ftl<D>, l: nat)
    requires InvBut(g, s, None) && l < g.slices && s.l2v[l].Some?
    ensures var v := s.l2v[l].value; var k := s.dies[v.die].blocks[v.block];
            k.v2l[v.page] == Some(l) && !k.free && ListInv(g, v.die, s.dies[v.die], None)
  {
    var v := s.l2v[l].value;
    assert s.dies[v.die].blocks[v.block].v2l[v.page] == Some(l);
    assert BlockInv(g, s.l2v, v.die, v.block, s.dies[v.die].blocks[v.block], v.block == s.dies[v.die].current, false);
  }

  lemma NothingToInvalidate<D>(g: Geometry, s: Ftl<D>, l: nat)
    requires Shape(g, s) && l < g.slices && s.l2v[l].None?
    ensures Countable(g, s, l) && InvalidateOldVsa(g, s, l) == s && s.l2v[l := None] == s.l2v
  {
  }

  lemma InvalidateKeeps<D>(g: Geometry, s: Ftl<D>, l: nat)
    requires InvBut(g, s, None) && l < g.slices
    ensures Countable(g, s, l)
    ensures var s' := InvalidateOldVsa(g, s, l);
            && InvBut(g, s', None)
            && s'.l2v == s.l2v[l := None] && s'.media == s.media
            && forall d :: 0 <= d < g.dies ==>
                s'.dies[d].freeList == s.dies[d].freeList && s'.dies[d].current == s.dies[d].current
  {
    hide BlocksInv, MapInv, MediaInv, ListInv, InvalidateOldVsa, SamePages, Recounted;
    InvalidateCountable(g, s, l);
    if s.l2v[l].Some? {
      MappedBlock(g, s, l);
      var v := s.l2v[l].value;
      InvalidateFrame(g, s, l);
      RecountedKeepsLists(g, v.die, s.dies[v.die], v.block);
      InvalidateKeepsBlocks(g, s, l);
      UnmappingKeepsMaps(g, s, InvalidateOldVsa(g, s, l), l);
    } else {
      NothingToInvalidate(g, s, l);
    }
  }

  // ---------- programming the next page ----------

  /** Maps slice l to the next page of die d and programs it with data. */
  function ProgramNext<D>(g: Geometry, s: Ftl<D>, d: nat, l: nat, data: D): (r: Ftl<D>)
    requires Shape(g, s) && d < g.dies && l < g.slices && NextVsa(s, d).page < g.pages
    ensures Shape(g, r) && r.target == s.target
  {
    MapNextPage(g, s, d, l).(media := s.media[NextVsa(s, d) := data])
  }

  function Programmed(k: Block, l: nat): Block
    requires k.currentPage < |k.v2l|
  {
    k.(currentPage := k.currentPage + 1, v2l := k.v2l[k.currentPage := Some(l)])
  }

  lemma ProgramFrame<D>(g: Geometry, s: Ftl<D>, d: nat, l: nat, data: D)
    requires Shape(g, s) && d < g.dies && l < g.slices && NextVsa(s, d).page < g.pages
    ensures var s' := ProgramNext(g, s, d, l, data);
            && s'.l2v == s.l2v[l := Some(NextVsa(s, d))] && s'.media == s.media[NextVsa(s, d) := data]
            && (forall d' :: 0 <= d' < g.dies ==>
                s'.dies[d'].freeList == s.dies[d'].freeList && s'.dies[d'].current == s.dies[d'].current)
            && (forall d' :: 0 <= d' < g.dies && d' != d ==> s'.dies[d'] == s.dies[d'])
            && s'.dies[d].victims == s.dies[d].victims
            && var b := s.dies[d].current;
            && s'.dies[d].blocks == s.dies[d].blocks[b := Programmed(s.dies[d].blocks[b], l)]
  {
  }

  /** Wherever l lived, if anywhere, is in the hole. */
  ghost predicate LeavesHole(l2v: seq<Option<Vsa>>, l: nat, hole: Hole)
    requires l < |l2v|
  {
    l2v[l].Some? ==> hole == Some((l2v[l].value.die, l2v[l].value.block))
  }

  /** Giving slice l the page w, fresh or elsewhere, makes no other page stale outside the hole. */
  lemma BlockElsewhere(g: Geometry, l2v: seq<Option<Vsa>>, l: nat, w: Vsa, d: nat, b: nat, k: Block, current: bool,
          hole: Hole)
    requires l < |l2v| && LeavesHole(l2v, l, hole) && !(w.die == d && w.block == b)
    requires BlockInv(g, l2v, d, b, k, current, hole == Some((d, b)))
    ensures BlockInv(g, l2v[l := Some(w)], d, b, k, current, hole == Some((d, b)))
  {
    if hole != Some((d, b)) {
      assert StalePages(l2v[l := Some(w)], d, b, k.v2l) == StalePages(l2v, d, b, k.v2l);
    }
  }

  lemma BlockProgrammed(g: Geometry, l2v: seq<Option<Vsa>>, l: nat, d: nat, b: nat, k: Block, hole: Hole)
    requires l < |l2v| == g.slices && LeavesHole(l2v, l, hole) && hole != Some((d, b))
    requires BlockInv(g, l2v, d, b, k, true, false) && k.currentPage < g.pages && !k.free
    ensures BlockInv(g, l2v[l := Some(Vsa(d, b, k.currentPage))], d, b, Programmed(k, l), true, false)
  {
    var k' := Programmed(k, l);
    var w := Vsa(d, b, k.currentPage);
    forall p: nat | p < g.pages
      ensures Stale(l2v[l := Some(w)], Vsa(d, b, p), k'.v2l[p]) <==> Stale(l2v, Vsa(d, b, p), k.v2l[p])
    {
    }
    assert StalePages(l2v[l := Some(w)], d, b, k'.v2l) == StalePages(l2v, d, b, k.v2l);
  }

  lemma ProgramKeepsBlocks<D>(g: Geometry, s: Ftl<D>, d: nat, l: nat, data: D, hole: Hole)
    requires Shape(g, s) && BlocksInv(g, s, hole)
    requires d < g.dies && l < g.slices && NextVsa(s, d).page < g.pages
    requires LeavesHole(s.l2v, l, hole) && hole != Some((d, s.dies[d].current))
    requires !s.dies[d].blocks[s.dies[d].current].free
    ensures BlocksInv(g, ProgramNext(g, s, d, l, data), hole)
  {
    ProgramFrame(g, s, d, l, data);
    var s' := ProgramNext(g, s, d, l, data);
    forall d', b' | 0 <= d' < g.dies && 0 <= b' < g.blocks
      ensures BlockInv(g, s'.l2v, d', b', s'.dies[d'].blocks[b'], b' == s'.dies[d'].current, hole == Some((d', b')))
    {
      assert BlockInv(g, s.l2v, d', b', s.dies[d'].blocks[b'], b' == s.dies[d'].current, hole == Some((d', b')));
      if d' == d && b' == s.dies[d].current {
        BlockProgrammed(g, s.l2v, l, d, b', s.dies[d].blocks[b'], hole);
      } else {
        BlockElsewhere(g, s.l2v, l, NextVsa(s, d), d', b', s.dies[d'].blocks[b'], b' == s.dies[d'].current, hole);
      }
    }
  }

  lemma ProgramKeepsLists(g: Geometry, d: nat, die: Die, l: nat, hole: Hole)
    requires DieShape(g, die) && ListInv(g, d, die, hole) && die.blocks[die.current].currentPage < g.pages
    ensures var die' := die.(blocks := die.blocks[die.current := Programmed(die.blocks[die.current], l)]);
            DieShape(g, die') && ListInv(g, d, die', hole)
  {
  }

  lemma ProgramKeepsMaps<D>(g: Geometry, s: Ftl<D>, d: nat, l: nat, data: D)
    requires Shape(g, s) && MapInv(g, s) && MediaInv(g, s) && d < g.dies && l < g.slices
    requires NextVsa(s, d).page < g.pages && s.dies[d].blocks[s.dies[d].current].v2l[NextVsa(s, d).page] == None
    ensures MapInv(g, ProgramNext(g, s, d, l, data)) && MediaInv(g, ProgramNext(g, s, d, l, data))
    ensures NextVsa(s, d) !in s.media
  {
    ProgramFrame(g, s, d, l, data);
  }

  lemma ProgramKeeps<D>(g: Geometry, s: Ftl<D>, d: nat, l: nat, data: D, hole: Hole)
    requires InvBut(g, s, hole) && d < g.dies && l < g.slices && NextVsa(s, d).page < g.pages
    requires LeavesHole(s.l2v, l, hole) && hole != Some((d, s.dies[d].current))
    ensures InvBut(g, ProgramNext(g, s, d, l, data), hole)
    ensures NextVsa(s, d) !in s.media
  {
    var die := s.dies[d];
    var s' := ProgramNext(g, s, d, l, data);
    assert ListInv(g, d, die, hole);
    assert BlockInv(g, s.l2v, d, die.current, die.blocks[die.current], true, false);
    ProgramFrame(g, s, d, l, data);
    ProgramKeepsBlocks(g, s, d, l, data, hole);
    ProgramKeepsLists(g, d, die, l, hole);
    ProgramKeepsMaps(g, s, d, l, data);
  }

  // ---------- taking a block from the free list ----------

  /** The die after its first free block became the current one. */
  function Taken(g: Geometry, die: Die): (r: Die)
    requires DieShape(g, die) && die.freeList != []
    ensures DieShape(g, r)
  {
    var (die', b) := GetFromFbList(g, die, true).value;
    die'.(current := b)
  }

  lemma TakenFrame(g: Geometry, die: Die)
    requires DieShape(g, die) && die.freeList != []
    ensures var b := die.freeList[0]; var die' := Taken(g, die);
            && b < g.blocks && die'.current == b && die'.freeList == die.freeList[1..] && die'.victims == die.victims
            && die'.blocks == die.blocks[b := die.blocks[b].(free := false)]
    ensures |die.freeList| > RESERVED_FREE_BLOCK_COUNT ==> GetFromFbList(g, die, false) == GetFromFbList(g, die, true)
  {
    assert die.freeList[0] in die.freeList;
  }

  lemma TakenKeepsLists(g: Geometry, d: nat, die: Die, hole: Hole)
    requires DieShape(g, die) && die.freeList != [] && ListInv(g, d, die, hole)
    requires die.freeList[0] in die.freeList && die.blocks[die.freeList[0]].invalidSliceCnt == 0
    ensures ListInv(g, d, Taken(g, die), hole)
  {
    TakenFrame(g, die);
    var b := die.freeList[0];
    var die' := Taken(g, die);
    forall x
      ensures x in die'.freeList <==> x in die.freeList && x != b
    {
      if x in die.freeList && x != b {
        var i :| 0 <= i < |die.freeList| && die.freeList[i] == x;
        assert die'.freeList[i - 1] == x;
      }
    }
    forall c, x | 1 <= c <= g.pages
      ensures x in die'.victims[c] <==>
          0 <= x < g.blocks && !die'.blocks[x].free && die'.blocks[x].invalidSliceCnt == c && hole != Some((d, x))
    {
      assert x in die.victims[c] <==>
          0 <= x < g.blocks && !die.blocks[x].free && die.blocks[x].invalidSliceCnt == c && hole != Some((d, x));
    }
  }

  lemma EmptyBlockNotStale(g: Geometry, l2v: seq<Option<Vsa>>, d: nat, b: nat, k: Block)
    requires BlockInv(g, l2v, d, b, k, false, false) && k.free && !k.bad
    ensures BlockInv(g, l2v, d, b, k.(free := false), true, false)
    ensures k.currentPage == 0 && k.invalidSliceCnt == 0
  {
    assert StalePages(l2v, d, b, k.v2l) == {};
  }

  lemma TakenKeepsBlocks<D>(g: Geometry, s: Ftl<D>, d: nat, hole: Hole)
    requires Shape(g, s) && BlocksInv(g, s, hole) && d < g.dies && s.dies[d].freeList != []
    requires Full(g, s.dies[d])
    requires var b := s.dies[d].freeList[0];
             (b != s.dies[d].current && hole != Some((d, b)) && b < g.blocks && s.dies[d].blocks[b].free
                 && !s.dies[d].blocks[b].bad)
    ensures BlocksInv(g, SetDie(s, d, Taken(g, s.dies[d])), hole)
  {
    TakenFrame(g, s.dies[d]);
    var s' := SetDie(s, d, Taken(g, s.dies[d]));
    forall d', b' | 0 <= d' < g.dies && 0 <= b' < g.blocks
      ensures BlockInv(g, s'.l2v, d', b', s'.dies[d'].blocks[b'], b' == s'.dies[d'].current, hole == Some((d', b')))
    {
      assert BlockInv(g, s.l2v, d', b', s.dies[d'].blocks[b'], b' == s.dies[d'].current, hole == Some((d', b')));
      if d' == d && b' == s.dies[d].freeList[0] {
        EmptyBlockNotStale(g, s.l2v, d, b', s.dies[d].blocks[b']);
      }
    }
  }

  lemma TakenKeeps<D>(g: Geometry, s: Ftl<D>, d: nat, hole: Hole)
    requires InvBut(g, s, hole) && d < g.dies && s.dies[d].freeList != [] && Full(g, s.dies[d])
    requires hole.Some? && hole.value.0 == d && hole.value.1 < g.blocks ==> !s.dies[d].blocks[hole.value.1].free
    ensures InvBut(g, SetDie(s, d, Taken(g, s.dies[d])), hole)
    ensures NextVsa(SetDie(s, d, Taken(g, s.dies[d])), d).page == 0
  {
    var die := s.dies[d];
    var b := die.freeList[0];
    assert ListInv(g, d, die, hole);
    assert b in die.freeList;
    assert BlockInv(g, s.l2v, d, b, die.blocks[b], b == die.current, hole == Some((d, b)));
    TakenFrame(g, die);
    TakenKeepsLists(g, d, die, hole);
    TakenKeepsBlocks(g, s, d, hole);
    var s' := SetDie(s, d, Taken(g, die));
    assert SamePages(g, s, s');
  }

  // ---------- moving the live pages of a victim ----------

  ghost function LivePages<D>(g: Geometry, s: Ftl<D>, d: nat, b: nat, from: nat): set<nat>
    requires Shape(g, s) && d < g.dies && b < g.blocks
  {
    set p: nat | from <= p < g.pages && LiveAt(s, Vsa(d, b, p))
  }

  /** The victim of die d: in use, completely programmed, out of the buckets. */
  ghost predicate VictimInv<D>(g: Geometry, s: Ftl<D>, d: nat, victim: nat) {
    && InvBut(g, s, Some((d, victim))) && d < g.dies && victim < g.blocks
    && !s.dies[d].blocks[victim].free && s.dies[d].blocks[victim].currentPage == g.pages
  }

  /** Room for n more copied pages: in the open block, or in a free one if the current block is full. */
  ghost predicate CopyRoom(g: Geometry, die: Die, n: nat)
    requires DieShape(g, die)
  {
    n > 0 ==> if Full(g, die) then die.freeList != [] else die.blocks[die.current].currentPage + n <= g.pages
  }

  /** The state in which the next live page is copied: the die's current block has room. */
  ghost function Opened<D>(g: Geometry, s: Ftl<D>, d: nat): Ftl<D>
    requires Shape(g, s) && d < g.dies && CopyRoom(g, s.dies[d], 1)
  {
    if Full(g, s.dies[d]) then SetDie(s, d, Taken(g, s.dies[d])) else s
  }

  lemma OpenedKeeps<D>(g: Geometry, s: Ftl<D>, d: nat, victim: nat)
    requires VictimInv(g, s, d, victim) && CopyRoom(g, s.dies[d], 1)
    ensures var s1 := Opened(g, s, d);
            && VictimInv(g, s1, d, victim)
            && OpenForGc(g, s.dies[d], victim) == Success(s1.dies[d])
            && NextVsa(s1, d).page < g.pages && s1.dies[d].current != victim
            && s1.dies[d].blocks[victim] == s.dies[d].blocks[victim]
            && s1 == SetDie(s, d, s1.dies[d])
            && if Full(g, s.dies[d]) then
                 && s1.dies[d].current == s.dies[d].freeList[0] && s1.dies[d].freeList == s.dies[d].freeList[1..]
                 && NextVsa(s1, d).page == 0
               else s1 == s
  {
    hide InvBut;
    VictimsDie(g, s, d, victim);
    var die := s.dies[d];
    if Full(g, die) {
      TakenFrame(g, die);
      TakenKeeps(g, s, d, Some((d, victim)));
      assert die.freeList[0] in die.freeList;
    } else {
      assert s == SetDie(s, d, die);
    }
  }

  lemma VictimsDie<D>(g: Geometry, s: Ftl<D>, d: nat, victim: nat)
    requires VictimInv(g, s, d, victim)
    ensures Shape(g, s) && d < g.dies
    ensures var die := s.dies[d];
            && die.blocks[die.current].currentPage <= g.pages && !die.blocks[die.current].free
            && forall b :: b in die.freeList ==> b < g.blocks && die.blocks[b].free && die.blocks[b].currentPage == 0
  {
    var die := s.dies[d];
    assert BlockInv(g, s.l2v, d, die.current, die.blocks[die.current], true, victim == die.current);
    assert ListInv(g, d, die, Some((d, victim)));
    forall b | b in die.freeList
      ensures b < g.blocks && die.blocks[b].free && die.blocks[b].currentPage == 0
    {
      assert BlockInv(g, s.l2v, d, b, die.blocks[b], b == die.current, victim == b);
    }
  }

  /** Reading any slice gives the same answer in both states. */
  ghost predicate SameData<D>(s: Ftl<D>, s': Ftl<D>)
  {
    && |s'.l2v| == |s.l2v|
    && forall l :: 0 <= l < |s.l2v| ==> Lookup(s', l) == Lookup(s, l) && (s'.l2v[l].Some? <==> s.l2v[l].Some?)
  }

  lemma SameDataReflexive<D>(s: Ftl<D>)
    ensures SameData(s, s)
  {
  }

  lemma SameDataTransitive<D>(a: Ftl<D>, b: Ftl<D>, c: Ftl<D>)
    requires SameData(a, b) && SameData(b, c)
    ensures SameData(a, c)
  {
  }

  /** Every mapped slice has content. */
  ghost predicate Backed<D>(s: Ftl<D>) {
    forall l :: 0 <= l < |s.l2v| && s.l2v[l].Some? ==> s.l2v[l].value in s.media
  }

  lemma MappedIsBacked<D>(g: Geometry, s: Ftl<D>, hole: Hole)
    requires InvBut(g, s, hole)
    ensures Backed(s)
  {
    forall l | 0 <= l < |s.l2v| && s.l2v[l].Some?
      ensures s.l2v[l].value in s.media
    {
      var v := s.l2v[l].value;
      assert s.dies[v.die].blocks[v.block].v2l[v.page] == Some(l);
      assert BlockInv(g, s.l2v, v.die, v.block, s.dies[v.die].blocks[v.block], v.block == s.dies[v.die].current,
          hole == Some((v.die, v.block)));
    }
  }

  lemma CopySameData<D>(s: Ftl<D>, s': Ftl<D>, l: nat, v: Vsa, w: Vsa)
    requires l < |s.l2v| && s.l2v[l] == Some(v) && v in s.media && w !in s.media
    requires s'.l2v == s.l2v[l := Some(w)] && s'.media == s.media[w := s.media[v]]
    requires Backed(s)
    ensures SameData(s, s')
  {
    forall j | 0 <= j < |s.l2v|
      ensures Lookup(s', j) == Lookup(s, j) && (s'.l2v[j].Some? <==> s.l2v[j].Some?)
    {
      if j != l {
        assert s'.l2v[j] == s.l2v[j];
      }
    }
  }

  lemma CopyLivePages<D>(g: Geometry, s: Ftl<D>, s': Ftl<D>, d: nat, victim: nat, page: nat, w: Vsa)
    requires Shape(g, s) && Shape(g, s') && d < g.dies && victim < g.blocks && page < g.pages
    requires LiveAt(s, Vsa(d, victim, page)) && !(w.die == d && w.block == victim)
    requires s'.dies[d].blocks[victim] == s.dies[d].blocks[victim]
    requires s'.l2v == s.l2v[s.dies[d].blocks[victim].v2l[page].value := Some(w)]
    ensures LivePages(g, s', d, victim, page + 1) == LivePages(g, s, d, victim, page) - {page}
    ensures forall p: nat :: p < g.pages ==>
        (LiveAt(s', Vsa(d, victim, p)) <==> LiveAt(s, Vsa(d, victim, p)) && p != page)
  {
    forall p: nat | p < g.pages
      ensures LiveAt(s', Vsa(d, victim, p)) <==> LiveAt(s, Vsa(d, victim, p)) && p != page
    {
    }
  }

  /** How the die that is collected looks after n copies. */
  ghost predicate CopyResult<D>(g: Geometry, s: Ftl<D>, s': Ftl<D>, d: nat, n: nat)
    requires Shape(g, s) && Shape(g, s') && d < g.dies
  {
    var die, die' := s.dies[d], s'.dies[d];
    && (forall e :: 0 <= e < g.dies && e != d ==> s'.dies[e] == s.dies[e])
    && if n == 0 then s' == s
       else if Full(g, die) then
         && die.freeList != [] && die'.freeList == die.freeList[1..] && die'.current == die.freeList[0]
         && NextVsa(s', d).page == n
       else
         && die'.freeList == die.freeList && die'.current == die.current
         && NextVsa(s', d).page == NextVsa(s, d).page + n
  }

  lemma LiveHasContent<D>(g: Geometry, s: Ftl<D>, hole: Hole, v: Vsa)
    requires InvBut(g, s, hole) && InRange(g, v) && LiveAt(s, v)
    ensures v in s.media
  {
    assert BlockInv(g, s.l2v, v.die, v.block, s.dies[v.die].blocks[v.block], v.block == s.dies[v.die].current,
        hole == Some((v.die, v.block)));
  }

  lemma CopyUnfold<D>(g: Geometry, s: Ftl<D>, s1: Ftl<D>, d: nat, victim: nat, page: nat)
    requires Shape(g, s) && Shape(g, s1) && d < g.dies && victim < g.blocks
    requires page < g.pages && LiveAt(s, Vsa(d, victim, page)) && Vsa(d, victim, page) in s.media
    requires OpenForGc(g, s.dies[d], victim) == Success(s1.dies[d]) && s1 == SetDie(s, d, s1.dies[d])
    ensures NextVsa(s1, d).page < g.pages
    ensures var l := s.dies[d].blocks[victim].v2l[page].value;
            CopyLive(g, s, d, victim, page) == CopyLive(g, ProgramNext(g, s1, d, l, s.media[Vsa(d, victim, page)]), d,
                victim, page + 1)
  {
  }

  /** s' is s after page of the victim, holding slice l, was copied to the block opened for it. */
  ghost predicate CopiedTo<D>(g: Geometry, s: Ftl<D>, d: nat, victim: nat, l: nat, page: nat, s': Ftl<D>)
    requires Shape(g, s) && d < g.dies
  {
    && l < g.slices
    && OpenForGc(g, s.dies[d], victim).Success?
    && var s1 := SetDie(s, d, OpenForGc(g, s.dies[d], victim).value);
    && Shape(g, s1)
    && s' == MapNextPage(g, s1, d, l).(media := CopyContent(s.media, Vsa(d, victim, page), NextVsa(s1, d)))
  }

  /** Copies one live page: the maps, the media and the lists of the state s' this leads to. */
  lemma CopyProgram<D>(g: Geometry, s: Ftl<D>, d: nat, victim: nat, page: nat) returns (s': Ftl<D>, l: nat, w: Vsa)
    requires VictimInv(g, s, d, victim) && CopyRoom(g, s.dies[d], 1)
    requires page < g.pages && LiveAt(s, Vsa(d, victim, page))
    ensures VictimInv(g, s', d, victim)
    ensures s.dies[d].blocks[victim].v2l[page] == Some(l) && l < g.slices
    ensures Vsa(d, victim, page) in s.media && w !in s.media && !(w.die == d && w.block == victim)
    ensures s'.l2v == s.l2v[l := Some(w)] && s'.media == s.media[w := s.media[Vsa(d, victim, page)]]
    ensures CopyLive(g, s, d, victim, page) == CopyLive(g, s', d, victim, page + 1)
    ensures CopyResult(g, s, s', d, 1)
    ensures s'.dies[d].blocks[victim] == s.dies[d].blocks[victim] && s'.target == s.target
    ensures CopiedTo(g, s, d, victim, l, page, s')
  {
    hide BlocksInv, ListsInv, MapInv, MediaInv, CopyLive, OpenForGc, Opened;
    OpenedKeeps(g, s, d, victim);
    var s1 := Opened(g, s, d);
    var v := Vsa(d, victim, page);
    w := NextVsa(s1, d);
    LiveHasContent(g, s, Some((d, victim)), v);
    CopyUnfold(g, s, s1, d, victim, page);
    l := s.dies[d].blocks[victim].v2l[page].value;
    s' := ProgramNext(g, s1, d, l, s.media[v]);
    ProgramKeeps(g, s1, d, l, s.media[v], Some((d, victim)));
    ProgramFrame(g, s1, d, l, s.media[v]);
  }

  /** Copying one live page: one live page less, the same data. */
  lemma CopyStep<D>(g: Geometry, s: Ftl<D>, d: nat, victim: nat, page: nat) returns (s': Ftl<D>)
    requires VictimInv(g, s, d, victim) && CopyRoom(g, s.dies[d], 1)
    requires page < g.pages && LiveAt(s, Vsa(d, victim, page))
    ensures VictimInv(g, s', d, victim)
    ensures CopyLive(g, s, d, victim, page) == CopyLive(g, s', d, victim, page + 1)
    ensures SameData(s, s')
    ensures LivePages(g, s', d, victim, page + 1) == LivePages(g, s, d, victim, page) - {page}
    ensures forall p: nat :: p < g.pages ==>
        (LiveAt(s', Vsa(d, victim, p)) <==> LiveAt(s, Vsa(d, victim, p)) && p != page)
    ensures CopyResult(g, s, s', d, 1)
    ensures s'.dies[d].blocks[victim] == s.dies[d].blocks[victim] && s'.target == s.target
    ensures s.dies[d].blocks[victim].v2l[page].Some?
        && CopiedTo(g, s, d, victim, s.dies[d].blocks[victim].v2l[page].value, page, s')
  {
    hide BlocksInv, ListsInv, MapInv, MediaInv, CopyLive, SameData, CopyResult, CopiedTo;
    var l, w;
    s', l, w := CopyProgram(g, s, d, victim, page);
    MappedIsBacked(g, s, Some((d, victim)));
    CopySameData(s, s', l, Vsa(d, victim, page), w);
    CopyLivePages(g, s, s', d, victim, page, w);
  }

  lemma CopyLiveSkip<D>(g: Geometry, s: Ftl<D>, d: nat, victim: nat, page: nat)
    requires Shape(g, s) && d < g.dies && victim < g.blocks && page <= g.pages
    ensures page == g.pages ==> CopyLive(g, s, d, victim, page) == Success(s)
    ensures page < g.pages && !LiveAt(s, Vsa(d, victim, page)) ==>
              && CopyLive(g, s, d, victim, page) == CopyLive(g, s, d, victim, page + 1)
              && LivePages(g, s, d, victim, page) == LivePages(g, s, d, victim, page + 1)
  {
  }

  lemma CopyRoomLater<D>(g: Geometry, s: Ftl<D>, d: nat, victim: nat, page: nat)
    requires Shape(g, s) && d < g.dies && victim < g.blocks && page < g.pages && LiveAt(s, Vsa(d, victim, page))
    requires CopyRoom(g, s.dies[d], |LivePages(g, s, d, victim, page)|)
    ensures CopyRoom(g, s.dies[d], 1)
  {
    assert page in LivePages(g, s, d, victim, page);
  }

  lemma CopyRoomNext<D>(g: Geometry, s: Ftl<D>, s': Ftl<D>, d: nat, victim: nat, page: nat)
    requires Shape(g, s) && Shape(g, s') && d < g.dies && victim < g.blocks && page < g.pages
        && LiveAt(s, Vsa(d, victim, page))
    requires CopyRoom(g, s.dies[d], |LivePages(g, s, d, victim, page)|) && CopyResult(g, s, s', d, 1)
    requires LivePages(g, s', d, victim, page + 1) == LivePages(g, s, d, victim, page) - {page}
    ensures CopyRoom(g, s'.dies[d], |LivePages(g, s', d, victim, page + 1)|)
  {
    assert page in LivePages(g, s, d, victim, page);
    SubsetSize(LivePages(g, s, d, victim, page), Below(g.pages));
  }

  lemma CopyNothing<D>(g: Geometry, s: Ftl<D>, d: nat, victim: nat)
    requires Shape(g, s) && d < g.dies && victim < g.blocks
    ensures LivePages(g, s, d, victim, g.pages) == {} && CopyResult(g, s, s, d, 0)
  {
  }

  lemma CopyResultCompose<D>(g: Geometry, s: Ftl<D>, s': Ftl<D>, s'': Ftl<D>, d: nat, victim: nat, page: nat)
    requires Shape(g, s) && Shape(g, s') && Shape(g, s'') && d < g.dies && victim < g.blocks && page < g.pages
    requires LiveAt(s, Vsa(d, victim, page))
        && LivePages(g, s', d, victim, page + 1) == LivePages(g, s, d, victim, page) - {page}
    requires CopyRoom(g, s.dies[d], |LivePages(g, s, d, victim, page)|)
    requires CopyResult(g, s, s', d, 1) && CopyResult(g, s', s'', d, |LivePages(g, s', d, victim, page + 1)|)
    ensures CopyResult(g, s, s'', d, |LivePages(g, s, d, victim, page)|)
  {
    assert page in LivePages(g, s, d, victim, page);
    SubsetSize(LivePages(g, s, d, victim, page), Below(g.pages));
  }

  lemma {:induction false} CopyLiveKeeps<D>(g: Geometry, s: Ftl<D>, d: nat, victim: nat, page: nat)
    requires VictimInv(g, s, d, victim) && page <= g.pages
    requires forall p: nat :: p < page ==> !LiveAt(s, Vsa(d, victim, p))
    requires CopyRoom(g, s.dies[d], |LivePages(g, s, d, victim, page)|)
    ensures var r := CopyLive(g, s, d, victim, page);
            && r.Success?
            && VictimInv(g, r.value, d, victim)
            && (forall p: nat :: p < g.pages ==> !LiveAt(r.value, Vsa(d, victim, p)))
            && SameData(s, r.value)
            && CopyResult(g, s, r.value, d, |LivePages(g, s, d, victim, page)|)
            && r.value.dies[d].blocks[victim] == s.dies[d].blocks[victim]
    decreases g.pages - page
  {
    hide BlocksInv, ListsInv, MapInv, MediaInv, LiveAt, SameData, CopiedTo, CopyLive, LivePages, CopyRoom, CopyResult;
    CopyLiveSkip(g, s, d, victim, page);
    SameDataReflexive(s);
    CopyNothing(g, s, d, victim);
    if page < g.pages && LiveAt(s, Vsa(d, victim, page)) {
      CopyRoomLater(g, s, d, victim, page);
      var s' := CopyStep(g, s, d, victim, page);
      CopyRoomNext(g, s, s', d, victim, page);
      CopyLiveKeeps(g, s', d, victim, page + 1);
      var s'' := CopyLive(g, s', d, victim, page + 1).value;
      SameDataTransitive(s, s', s'');
      CopyResultCompose(g, s, s', s'', d, victim, page);
    } else if page < g.pages {
      CopyLiveKeeps(g, s, d, victim, page + 1);
    }
  }

  // ---------- erasing ----------

  function Erased(g: Geometry, k: Block): Block {
    k.(free := true, invalidSliceCnt := 0, currentPage := 0, v2l := Unwritten(g.pages))
  }

  lemma EraseFrame<D>(g: Geometry, s: Ftl<D>, d: nat, b: nat)
    requires Shape(g, s) && d < g.dies && b < g.blocks
    ensures var s' := EraseBlock(g, s, d, b);
            && s'.l2v == s.l2v && s'.target == s.target
            && (forall e :: 0 <= e < g.dies && e != d ==> s'.dies[e] == s.dies[e])
            && s'.dies[d].blocks == s.dies[d].blocks[b := Erased(g, s.dies[d].blocks[b])]
            && s'.dies[d].freeList == s.dies[d].freeList + [b]
            && s'.dies[d].current == s.dies[d].current && s'.dies[d].victims == s.dies[d].victims
            && (forall v :: v in s'.media <==> v in s.media && !(v.die == d && v.block == b))
            && (forall v :: v in s'.media ==> s'.media[v] == s.media[v])
  {
  }

  /** No slice is mapped into block b of die d. */
  ghost predicate Unmapped<D>(s: Ftl<D>, d: nat, b: nat) {
    forall l :: 0 <= l < |s.l2v| && s.l2v[l].Some? ==> !(s.l2v[l].value.die == d && s.l2v[l].value.block == b)
  }

  lemma NoLivePagesUnmapped<D>(g: Geometry, s: Ftl<D>, d: nat, b: nat)
    requires Shape(g, s) && MapInv(g, s) && d < g.dies && b < g.blocks
    requires forall p: nat :: p < g.pages ==> !LiveAt(s, Vsa(d, b, p))
    ensures Unmapped(s, d, b)
  {
    forall l | 0 <= l < |s.l2v| && s.l2v[l].Some?
      ensures !(s.l2v[l].value.die == d && s.l2v[l].value.block == b)
    {
      var v := s.l2v[l].value;
      assert LiveAt(s, Vsa(v.die, v.block, v.page));
    }
  }

  lemma EraseKeepsBlocks<D>(g: Geometry, s: Ftl<D>, d: nat, b: nat)
    requires Shape(g, s) && BlocksInv(g, s, Some((d, b))) && d < g.dies && b < g.blocks
    requires b != s.dies[d].current && !s.dies[d].blocks[b].bad
    ensures BlocksInv(g, EraseBlock(g, s, d, b), None)
  {
    EraseFrame(g, s, d, b);
    var s' := EraseBlock(g, s, d, b);
    forall d', b' | 0 <= d' < g.dies && 0 <= b' < g.blocks
      ensures BlockInv(g, s'.l2v, d', b', s'.dies[d'].blocks[b'], b' == s'.dies[d'].current, false)
    {
      assert BlockInv(g, s.l2v, d', b', s.dies[d'].blocks[b'], b' == s.dies[d'].current, (d, b) == (d', b'));
    }
  }

  lemma EraseKeepsLists<D>(g: Geometry, s: Ftl<D>, d: nat, b: nat)
    requires Shape(g, s) && ListsInv(g, s, Some((d, b))) && d < g.dies && b < g.blocks
    requires b != s.dies[d].current && !s.dies[d].blocks[b].bad && !s.dies[d].blocks[b].free
    ensures ListsInv(g, EraseBlock(g, s, d, b), None)
  {
    EraseFrame(g, s, d, b);
    var s' := EraseBlock(g, s, d, b);
    forall e | 0 <= e < g.dies
      ensures ListInv(g, e, s'.dies[e], None)
    {
      assert ListInv(g, e, s.dies[e], Some((d, b)));
      if e == d {
        assert b !in s.dies[d].freeList;
      }
    }
  }

  lemma EraseKeepsMaps<D>(g: Geometry, s: Ftl<D>, d: nat, b: nat)
    requires Shape(g, s) && MapInv(g, s) && MediaInv(g, s) && Unmapped(s, d, b) && d < g.dies && b < g.blocks
    ensures MapInv(g, EraseBlock(g, s, d, b)) && MediaInv(g, EraseBlock(g, s, d, b))
    ensures SameData(s, EraseBlock(g, s, d, b))
  {
    EraseFrame(g, s, d, b);
  }

  lemma EraseKeeps<D>(g: Geometry, s: Ftl<D>, d: nat, b: nat)
    requires VictimInv(g, s, d, b) && b != s.dies[d].current
    requires forall p: nat :: p < g.pages ==> !LiveAt(s, Vsa(d, b, p))
    ensures InvBut(g, EraseBlock(g, s, d, b), None)
    ensures SameData(s, EraseBlock(g, s, d, b))
  {
    assert BlockInv(g, s.l2v, d, b, s.dies[d].blocks[b], b == s.dies[d].current, true);
    NoLivePagesUnmapped(g, s, d, b);
    EraseKeepsBlocks(g, s, d, b);
    EraseKeepsLists(g, s, d, b);
    EraseKeepsMaps(g, s, d, b);
  }

  // ---------- garbage collection ----------

  /** The first element of a duplicate-free list leaves it. */
  lemma TailMembers(s: seq<nat>)
    requires s != [] && Distinct(s)
    ensures Distinct(s[1..]) && forall x :: x in s[1..] <==> x in s && x != s[0]
  {
    forall x | x in s && x != s[0]
      ensures x in s[1..]
    {
      var i :| 0 <= i < |s| && s[i] == x;
      assert s[1..][i - 1] == x;
    }
  }

  /** The victim is in use and has as many stale slices as its bucket says. */
  lemma VictimOfBucket(g: Geometry, d: nat, die: Die, victim: nat) returns (k: nat)
    requires DieShape(g, die) && ListInv(g, d, die, None) && PickVictim(die, g.pages) == Some(victim)
    ensures 1 <= k <= g.pages && die.victims[k] != [] && die.victims[k][0] == victim && Distinct(die.victims[k])
        && forall j :: k < j <= g.pages ==> die.victims[j] == []
    ensures victim < g.blocks && !die.blocks[victim].free && die.blocks[victim].invalidSliceCnt == k
    ensures GetFromGcVictimList(g, die) == Success((die.(victims := die.victims[k := die.victims[k][1..]]), victim))
  {
    k := VictimBucket(die, g.pages);
    assert die.victims[k][0] in die.victims[k];
    hide PickVictim, Distinct;
  }

  /** Block b of die d was taken off the head of the bucket it belongs to. */
  lemma PoppedKeepsLists(g: Geometry, d: nat, die: Die, victim: nat)
    requires DieShape(g, die) && ListInv(g, d, die, None) && PickVictim(die, g.pages) == Some(victim)
    ensures victim < g.blocks && !die.blocks[victim].free && die.blocks[victim].invalidSliceCnt >= 1
    ensures var r := GetFromGcVictimList(g, die);
            && r.Success? && r.value.1 == victim
            && r.value.0 == die.(victims := r.value.0.victims)
            && ListInv(g, d, r.value.0, Some((d, victim)))
  {
    var k := VictimOfBucket(g, d, die, victim);
    TailMembers(die.victims[k]);
    hide GetFromGcVictimList, PickVictim, Distinct;
    var die' := die.(victims := die.victims[k := die.victims[k][1..]]);
    assert ListInv(g, d, die', Some((d, victim)));
  }

  /** The victim has the most stale slices of its die, and has had them for longest. */
  lemma VictimIsMaximal(g: Geometry, d: nat, die: Die, victim: nat)
    requires DieShape(g, die) && ListInv(g, d, die, None) && PickVictim(die, g.pages) == Some(victim)
    ensures victim < g.blocks && !die.blocks[victim].free
    ensures forall b :: 0 <= b < g.blocks && !die.blocks[b].free ==>
        die.blocks[b].invalidSliceCnt <= die.blocks[victim].invalidSliceCnt
    ensures var c := die.blocks[victim].invalidSliceCnt;
            1 <= c <= g.pages && die.victims[c] != [] && die.victims[c][0] == victim
  {
    hide PickVictim, GetFromGcVictimList, Distinct;
    var k := VictimOfBucket(g, d, die, victim);
    forall b | 0 <= b < g.blocks && !die.blocks[b].free
      ensures die.blocks[b].invalidSliceCnt <= die.blocks[victim].invalidSliceCnt
    {
      var c := die.blocks[b].invalidSliceCnt;
      assert c >= 1 ==> b in die.victims[c];
    }
  }

  /** Of a completely programmed block every page is either live or stale. */
  lemma LiveCount<D>(g: Geometry, s: Ftl<D>, d: nat, b: nat)
    requires Shape(g, s) && d < g.dies && b < g.blocks
    requires BlockInv(g, s.l2v, d, b, s.dies[d].blocks[b], b == s.dies[d].current, false)
    requires s.dies[d].blocks[b].currentPage == g.pages && !s.dies[d].blocks[b].free
    ensures |LivePages(g, s, d, b, 0)| == g.pages - s.dies[d].blocks[b].invalidSliceCnt
  {
    var stale := StalePages(s.l2v, d, b, s.dies[d].blocks[b].v2l);
    var live := LivePages(g, s, d, b, 0);
    assert live + stale == Below(g.pages) && live !! stale;
    assert |live + stale| == |live| + |stale|;
  }

  /** The guard under which collecting goes wrong: the victim is the current block and nothing in it is live. */
  predicate FullyInvalidCurrent(g: Geometry, die: Die)
    requires DieShape(g, die)
  {
    die.victims[g.pages] != [] && die.victims[g.pages][0] == die.current
  }

  /** The lists of the collected die afterwards: the victim is the youngest free block. */
  ghost predicate Collected(g: Geometry, die: Die, die': Die, victim: nat)
    requires DieShape(g, die) && DieShape(g, die') && victim < g.blocks
  {
    var c := die.blocks[victim].invalidSliceCnt;
    if c == g.pages then
      && die'.freeList == die.freeList + [victim] && die'.current == die.current
      && die'.blocks == die.blocks[victim := Erased(g, die.blocks[victim])]
    else
      && die.freeList != [] && die'.freeList == die.freeList[1..] + [victim] && die'.current == die.freeList[0]
      && die'.blocks[die'.current].currentPage == g.pages - c
  }

  /** Right after the victim left its bucket. */
  lemma Popped<D>(g: Geometry, s: Ftl<D>, d: nat) returns (s1: Ftl<D>, victim: nat)
    requires InvBut(g, s, None) && d < g.dies && Full(g, s.dies[d]) && PickVictim(s.dies[d], g.pages).Some?
    ensures |s1.dies| == g.dies && s1 == SetDie(s, d, s1.dies[d])
    ensures GetFromGcVictimList(g, s.dies[d]) == Success((s1.dies[d], victim))
    ensures PickVictim(s.dies[d], g.pages) == Some(victim)
    ensures VictimInv(g, s1, d, victim) && SameData(s, s1)
    ensures s1.dies[d] == s.dies[d].(victims := s1.dies[d].victims)
    ensures |LivePages(g, s1, d, victim, 0)| == g.pages - s.dies[d].blocks[victim].invalidSliceCnt
    ensures s.dies[d].blocks[victim].invalidSliceCnt >= 1
  {
    hide MapInv, MediaInv;
    var die := s.dies[d];
    assert ListInv(g, d, die, None);
    victim := PickVictim(die, g.pages).value;
    PoppedKeepsLists(g, d, die, victim);
    s1 := SetDie(s, d, GetFromGcVictimList(g, die).value.0);
    assert BlockInv(g, s.l2v, d, victim, die.blocks[victim], victim == die.current, false);
    LiveCount(g, s, d, victim);
    assert LivePages(g, s1, d, victim, 0) == LivePages(g, s, d, victim, 0);
    PoppedKeepsMaps(g, s, s1);
    hide LivePages, PickVictim, GetFromGcVictimList, BlockInv;
    assert ListsInv(g, s1, Some((d, victim))) by {
      hide ListInv;
    }
    PoppedKeepsBlocks(g, s, s1, d, victim);
  }

  /** Out of its bucket the victim's count need not be exact. */
  lemma PoppedKeepsBlocks<D>(g: Geometry, s: Ftl<D>, s1: Ftl<D>, d: nat, victim: nat)
    requires Shape(g, s) && Shape(g, s1) && d < g.dies && victim < g.blocks && BlocksInv(g, s, None) && s1.l2v == s.l2v
    requires forall e :: 0 <= e < g.dies ==>
        s1.dies[e].blocks == s.dies[e].blocks && s1.dies[e].current == s.dies[e].current
    ensures BlocksInv(g, s1, Some((d, victim)))
  {
    forall e, b | 0 <= e < g.dies && 0 <= b < g.blocks
      ensures BlockInv(g, s1.l2v, e, b, s1.dies[e].blocks[b], b == s1.dies[e].current,
          Some((d, victim)) == Some((e, b)))
    {
      assert BlockInv(g, s.l2v, e, b, s.dies[e].blocks[b], b == s.dies[e].current, false);
    }
  }

  lemma PoppedKeepsMaps<D>(g: Geometry, s: Ftl<D>, s': Ftl<D>)
    requires Shape(g, s) && Shape(g, s') && SamePages(g, s, s') && MapInv(g, s) && MediaInv(g, s)
    requires s'.l2v == s.l2v && s'.media == s.media
    ensures MapInv(g, s') && MediaInv(g, s')
  {
  }

  /** The state in which the victim is about to be erased. */
  lemma Emptied<D>(g: Geometry, s: Ftl<D>, d: nat) returns (s2: Ftl<D>, victim: nat)
    requires Inv(g, s) && d < g.dies && Full(g, s.dies[d]) && PickVictim(s.dies[d], g.pages).Some?
    ensures PickVictim(s.dies[d], g.pages) == Some(victim)
    ensures VictimInv(g, s2, d, victim) && SameData(s, s2)
    ensures GarbageCollection(g, s, d) == Success(EraseBlock(g, s2, d, victim))
    ensures forall p: nat :: p < g.pages ==> !LiveAt(s2, Vsa(d, victim, p))
    ensures forall e :: 0 <= e < g.dies && e != d ==> s2.dies[e] == s.dies[e]
    ensures 1 <= s.dies[d].blocks[victim].invalidSliceCnt
    ensures var die, die2 := s.dies[d], s2.dies[d];
            var c := die.blocks[victim].invalidSliceCnt;
            && die2.blocks[victim] == die.blocks[victim]
            && if c == g.pages then
                 die2.freeList == die.freeList && die2.current == die.current && die2.blocks == die.blocks
               else
                 && die.freeList != [] && die2.freeList == die.freeList[1..] && die2.current == die.freeList[0]
                 && NextVsa(s2, d).page == g.pages - c
  {
    hide BlocksInv, ListsInv, MapInv, MediaInv, CopyLive;
    var s1;
    s1, victim := Popped(g, s, d);
    var c := s.dies[d].blocks[victim].invalidSliceCnt;
    if c == g.pages {
      s2 := s1;
      forall p: nat | p < g.pages
        ensures !LiveAt(s2, Vsa(d, victim, p))
      {
        assert p !in LivePages(g, s1, d, victim, 0);
      }
    } else {
      CopyLiveKeeps(g, s1, d, victim, 0);
      s2 := CopyLive(g, s1, d, victim, 0).value;
      SameDataTransitive(s, s1, s2);
    }
  }

  lemma FullyInvalidIff(g: Geometry, d: nat, die: Die)
    requires DieShape(g, die) && ListInv(g, d, die, None) && PickVictim(die, g.pages).Some?
    ensures var victim := PickVictim(die, g.pages).value;
            && victim < g.blocks
            && (FullyInvalidCurrent(g, die) <==> victim == die.current && die.blocks[victim].invalidSliceCnt == g.pages)
  {
    var victim := PickVictim(die, g.pages).value;
    PoppedKeepsLists(g, d, die, victim);
    assert die.blocks[victim].invalidSliceCnt == g.pages ==> victim in die.victims[g.pages];
    if die.victims[g.pages] != [] {
      assert die.victims[g.pages][0] in die.victims[g.pages];
    }
  }

  lemma CurrentOnFreeListBreaks<D>(g: Geometry, s: Ftl<D>, d: nat)
    requires Shape(g, s) && d < g.dies && s.dies[d].current in s.dies[d].freeList
    ensures !Inv(g, s)
  {
    assert ListsInv(g, s, None) ==> ListInv(g, d, s.dies[d], None);
  }

  /**
   Collecting a die whose current block is full stops the device exactly when no block of the die
   has a stale slice; otherwise no slice changes its content, and the invariant survives exactly
   when the victim is not a fully invalid current block.
   */
  lemma GarbageCollectionSpec<D>(g: Geometry, s: Ftl<D>, d: nat)
    requires Inv(g, s) && d < g.dies && Full(g, s.dies[d])
    ensures GarbageCollection(g, s, d).Failure? <==> PickVictim(s.dies[d], g.pages) == None
    ensures GarbageCollection(g, s, d).Failure? ==> GarbageCollection(g, s, d).error == NoVictim
    ensures GarbageCollection(g, s, d).Success? ==>
      var s' := GarbageCollection(g, s, d).value;
      var victim := PickVictim(s.dies[d], g.pages).value;
      && SameData(s, s')
      && (forall e :: 0 <= e < g.dies && e != d ==> s'.dies[e] == s.dies[e])
      && victim < g.blocks && s.dies[d].blocks[victim].invalidSliceCnt >= 1
          && Collected(g, s.dies[d], s'.dies[d], victim)
      && (Inv(g, s') <==> !FullyInvalidCurrent(g, s.dies[d]))
      && (FullyInvalidCurrent(g, s.dies[d]) ==> s'.dies[d].current in s'.dies[d].freeList && NextVsa(s', d).page == 0)
      && Backed(s') && MediaInv(g, s')
  {
    hide BlocksInv, MapInv, MediaInv, Lookup, LiveAt, PickVictim, FullyInvalidCurrent;
    var die := s.dies[d];
    assert ListInv(g, d, die, None);
    if PickVictim(die, g.pages).Some? {
      var s2, victim := Emptied(g, s, d);
      FullyInvalidIff(g, d, die);
      hide ListsInv, ListInv;
      var s' := EraseBlock(g, s2, d, victim);
      EraseFrame(g, s2, d, victim);
      NoLivePagesUnmapped(g, s2, d, victim);
      EraseKeepsMaps(g, s2, d, victim);
      SameDataTransitive(s, s2, s');
      MappedIsBacked(g, s2, Some((d, victim)));
      if FullyInvalidCurrent(g, die) {
        assert s'.dies[d].current in s'.dies[d].freeList;
        CurrentOnFreeListBreaks(g, s', d);
      } else {
        if die.freeList != [] {
          InUseNotFirstFree(g, s, d, victim);
        }
        EraseKeeps(g, s2, d, victim);
      }
    }
  }

  /** A block in use is not the next free one. */
  lemma InUseNotFirstFree<D>(g: Geometry, s: Ftl<D>, d: nat, b: nat)
    requires InvBut(g, s, None) && d < g.dies && b < g.blocks && !s.dies[d].blocks[b].free && s.dies[d].freeList != []
    ensures s.dies[d].freeList[0] != b
  {
    assert ListInv(g, d, s.dies[d], None);
    assert s.dies[d].freeList[0] in s.dies[d].freeList;
  }

  // ---------- writing a slice ----------

  /** Allocation has to collect: the current block is full and only the reserve is free. */
  predicate MustCollect(g: Geometry, die: Die)
    requires DieShape(g, die)
  {
    Full(g, die) && |die.freeList| <= RESERVED_FREE_BLOCK_COUNT
  }

  lemma CurrentHasCounter<D>(g: Geometry, s: Ftl<D>, d: nat)
    requires InvBut(g, s, None) && d < g.dies
    ensures s.dies[d].blocks[s.dies[d].current].currentPage <= g.pages
    ensures NextVsa(s, d) !in s.media
  {
    assert BlockInv(g, s.l2v, d, s.dies[d].current, s.dies[d].blocks[s.dies[d].current], true, false);
  }

  lemma TakeFreeBlockKeeps<D>(g: Geometry, s: Ftl<D>, d: nat)
    requires Inv(g, s) && d < g.dies && Full(g, s.dies[d]) && |s.dies[d].freeList| > RESERVED_FREE_BLOCK_COUNT
    ensures TakeFreeBlock(g, s.dies[d]) == Success(Taken(g, s.dies[d]))
    ensures var s1 := SetDie(s, d, Taken(g, s.dies[d])); Inv(g, s1) && SameData(s, s1) && NextVsa(s1, d).page == 0
  {
    TakenFrame(g, s.dies[d]);
    TakenKeeps(g, s, d, None);
  }

  /** The state in which slice l gets its page, before the page is taken. */
  ghost predicate OpenSpec<D>(g: Geometry, s: Ftl<D>, s1: Ftl<D>) {
    && Shape(g, s) && Shape(g, s1) && s1.target == s.target
    && SameData(s, s1) && Backed(s1)
    && NextVsa(s1, s.target).page < g.pages && NextVsa(s1, s.target) !in s1.media
    && var bad := MustCollect(g, s.dies[s.target]) && FullyInvalidCurrent(g, s.dies[s.target]);
    if bad then s1.dies[s.target].current in s1.dies[s.target].freeList else Inv(g, s1)
  }

  lemma CollectForWrite<D>(g: Geometry, s: Ftl<D>)
    requires Inv(g, s) && MustCollect(g, s.dies[s.target]) && PickVictim(s.dies[s.target], g.pages).Some?
    ensures OpenForWrite(g, s).Success? && OpenSpec(g, s, OpenForWrite(g, s).value)
  {
    hide BlocksInv, ListsInv, MapInv, Lookup, PickVictim;
    var d := s.target;
    GarbageCollectionSpec(g, s, d);
    var s1 := GarbageCollection(g, s, d).value;
    if !FullyInvalidCurrent(g, s.dies[d]) && Full(g, s1.dies[d]) {
      TakeFreeBlockKeeps(g, s1, d);
      var s2 := SetDie(s1, d, Taken(g, s1.dies[d]));
      SameDataTransitive(s, s1, s2);
      MappedIsBacked(g, s2, None);
      CurrentHasCounter(g, s2, d);
    } else if !FullyInvalidCurrent(g, s.dies[d]) {
      CurrentHasCounter(g, s1, d);
    }
  }

  lemma OpenForWriteSpec<D>(g: Geometry, s: Ftl<D>)
    requires Inv(g, s)
    ensures OpenForWrite(g, s).Failure? <==>
        MustCollect(g, s.dies[s.target]) && PickVictim(s.dies[s.target], g.pages) == None
    ensures OpenForWrite(g, s).Failure? ==> OpenForWrite(g, s).error == NoVictim
    ensures OpenForWrite(g, s).Success? ==> OpenSpec(g, s, OpenForWrite(g, s).value)
  {
    hide BlocksInv, ListsInv, MapInv, Lookup, PickVictim;
    var d := s.target;
    MappedIsBacked(g, s, None);
    CurrentHasCounter(g, s, d);
    if MustCollect(g, s.dies[d]) {
      GarbageCollectionSpec(g, s, d);
      if PickVictim(s.dies[d], g.pages).Some? {
        CollectForWrite(g, s);
      }
    } else if Full(g, s.dies[d]) {
      TakenFrame(g, s.dies[d]);
      TakeFreeBlockKeeps(g, s, d);
      var s1 := SetDie(s, d, Taken(g, s.dies[d]));
      MappedIsBacked(g, s1, None);
      CurrentHasCounter(g, s1, d);
    }
  }

  /**
   Writing slice l. With s0 the state after its old page was invalidated:
   the only assertion that can stop the device is the one for a die without stale slices;
   the page given is on the die whose turn it is and one nothing was programmed to since its block's
   last erase, and the next die takes its turn;
   slice l reads back as data and every other slice as before; and the invariant survives
   exactly when collection did not meet a fully invalid current block.
   */
  lemma AddrTransWriteSpec<D>(g: Geometry, s: Ftl<D>, l: nat, data: D)
    requires Inv(g, s) && l < g.slices
    ensures Countable(g, s, l)
    ensures var die0 := InvalidateOldVsa(g, s, l).dies[s.target];
            var r := AddrTransWrite(g, s, l, data);
            && (r.Failure? <==> MustCollect(g, die0) && PickVictim(die0, g.pages) == None)
            && (r.Failure? ==> r.error == NoVictim)
            && (r.Success? ==>
                  var (s', v) := r.value;
                  && s'.l2v[l] == Some(v) && Lookup(s', l) == Some(data)
                  && (forall j :: 0 <= j < g.slices && j != l ==>
                      Lookup(s', j) == Lookup(s, j) && (s'.l2v[j].Some? <==> s.l2v[j].Some?))
                  && v !in OpenForWrite(g, InvalidateOldVsa(g, s, l)).value.media
                  && v.die == s.target && s'.target == (s.target + 1) % g.dies
                  && (Inv(g, s') <==> !(MustCollect(g, die0) && FullyInvalidCurrent(g, die0))))
  {
    hide BlocksInv, ListsInv, MapInv, MediaInv, InvalidateOldVsa, OpenForWrite, PickVictim, Lookup, MustCollect,
        FullyInvalidCurrent;
    InvalidateKeeps(g, s, l);
    var s0 := InvalidateOldVsa(g, s, l);
    OpenForWriteSpec(g, s0);
    if OpenForWrite(g, s0).Success? {
      AfterOpening(g, s, s0, l, data);
    }
  }

  lemma WriteSameElsewhere<D>(s: Ftl<D>, s0: Ftl<D>, s1: Ftl<D>, s': Ftl<D>, l: nat, w: Vsa, data: D)
    requires l < |s.l2v| && s0.l2v == s.l2v[l := None] && s0.media == s.media
    requires SameData(s0, s1) && Backed(s1) && w !in s1.media
    requires s'.l2v == s1.l2v[l := Some(w)] && s'.media == s1.media[w := data]
    ensures Lookup(s', l) == Some(data)
    ensures forall j :: 0 <= j < |s.l2v| && j != l ==>
        Lookup(s', j) == Lookup(s, j) && (s'.l2v[j].Some? <==> s.l2v[j].Some?)
  {
    forall j | 0 <= j < |s.l2v| && j != l
      ensures Lookup(s', j) == Lookup(s, j) && (s'.l2v[j].Some? <==> s.l2v[j].Some?)
    {
      assert s0.l2v[j] == s.l2v[j] && s'.l2v[j] == s1.l2v[j];
      assert Lookup(s1, j) == Lookup(s0, j);
    }
  }

  lemma TargetDoesNotMatter<D>(g: Geometry, s: Ftl<D>, target: nat)
    requires Shape(g, s) && target < g.dies
    ensures Inv(g, s.(target := target)) <==> Inv(g, s)
  {
    var s' := s.(target := target);
    assert s'.dies == s.dies && s'.l2v == s.l2v && s'.media == s.media;
    assert BlocksInv(g, s', None) <==> BlocksInv(g, s, None);
    assert ListsInv(g, s', None) <==> ListsInv(g, s, None);
    assert MapInv(g, s') <==> MapInv(g, s);
    assert MediaInv(g, s') <==> MediaInv(g, s);
  }

  lemma AfterOpening<D>(g: Geometry, s: Ftl<D>, s0: Ftl<D>, l: nat, data: D)
    requires Inv(g, s) && l < g.slices && Countable(g, s, l) && s0 == InvalidateOldVsa(g, s, l)
    requires s0.l2v == s.l2v[l := None] && s0.media == s.media && Inv(g, s0)
    requires OpenForWrite(g, s0).Success? && OpenSpec(g, s0, OpenForWrite(g, s0).value)
    ensures var die0 := s0.dies[s.target];
            var (s', v) := AddrTransWrite(g, s, l, data).value;
            && v == NextVsa(OpenForWrite(g, s0).value, s.target) && s'.target == (s.target + 1) % g.dies
            && s'.l2v[l] == Some(v) && Lookup(s', l) == Some(data)
            && (forall j :: 0 <= j < g.slices && j != l ==>
                Lookup(s', j) == Lookup(s, j) && (s'.l2v[j].Some? <==> s.l2v[j].Some?))
            && (Inv(g, s') <==> !(MustCollect(g, die0) && FullyInvalidCurrent(g, die0)))
  {
    hide BlocksInv, ListsInv, MapInv, MediaInv, Lookup, OpenForWrite, FullyInvalidCurrent, InvalidateOldVsa;
    var d := s.target;
    var s1 := OpenForWrite(g, s0).value;
    var s' := ProgramNext(g, s1, d, l, data);
    ProgramFrame(g, s1, d, l, data);
    WriteSameElsewhere(s, s0, s1, s', l, NextVsa(s1, d), data);
    TargetDoesNotMatter(g, s', (d + 1) % g.dies);
    if MustCollect(g, s0.dies[d]) && FullyInvalidCurrent(g, s0.dies[d]) {
      CurrentOnFreeListBreaks(g, s', d);
    } else {
      ProgramKeeps(g, s1, d, l, data, None);
    }
    WriteSameElsewhere(s, s0, s1, s'.(target := (d + 1) % g.dies), l, NextVsa(s1, d), data);
  }
}
