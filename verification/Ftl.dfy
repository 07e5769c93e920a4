/**
 The page-mapped flash translation layer as operations on values: logical-to-virtual map,
 per-die block tables with their reverse map, free-block list and garbage-collection buckets,
 together with the content each page holds once the requests submitted so far have run.
 A virtual slice address is kept unpacked; module Addressing shows that packing loses nothing.
 */
module Ftl {
  import opened Common

  const RESERVED_FREE_BLOCK_COUNT: nat := 1

  datatype Geometry = Geometry(dies: nat, blocks: nat, pages: nat, slices: nat) {
    predicate Valid() { dies > 0 && blocks > 0 && pages > 0 }
  }

  datatype Vsa = Vsa(die: nat, block: nat, page: nat)

  datatype Block = Block(bad: bool, free: bool, invalidSliceCnt: nat, currentPage: nat, v2l: seq<Option<nat>>)

  /** victims[c] is the bucket of in-use blocks holding c stale slices, oldest first. */
  datatype Die = Die(blocks: seq<Block>, current: nat, freeList: seq<nat>, victims: seq<seq<nat>>)

  datatype Ftl<D> = Ftl(dies: seq<Die>, l2v: seq<Option<Vsa>>, target: nat, media: map<Vsa, D>)

  /** The assertions that stop the device. */
  datatype Halt = NoVictim | NoAvailableBlock | PageManagementFail

  // ---------- sizes ----------

  predicate DieShape(g: Geometry, die: Die) {
    && |die.blocks| == g.blocks
    && |die.victims| == g.pages + 1
    && die.current < g.blocks
    && (forall b :: b in die.freeList ==> b < g.blocks)
    && (forall c, b :: 0 <= c < |die.victims| && b in die.victims[c] ==> b < g.blocks)
    && (forall b :: 0 <= b < |die.blocks| ==>
          |die.blocks[b].v2l| == g.pages && die.blocks[b].invalidSliceCnt <= g.pages)
  }

  predicate InRange(g: Geometry, v: Vsa) {
    v.die < g.dies && v.block < g.blocks && v.page < g.pages
  }

  predicate Shape<D>(g: Geometry, s: Ftl<D>) {
    && g.Valid()
    && |s.dies| == g.dies && s.target < g.dies
    && |s.l2v| == g.slices
    && (forall d :: 0 <= d < |s.dies| ==> DieShape(g, s.dies[d]))
    && (forall l :: 0 <= l < |s.l2v| && s.l2v[l].Some? ==> InRange(g, s.l2v[l].value))
  }

  // ---------- initialisation ----------

  /** The reverse map of a block in which nothing is programmed. */
  function Unwritten(n: nat): (r: seq<Option<nat>>)
    ensures |r| == n && forall p :: 0 <= p < n ==> r[p] == None
  {
    seq(n, _ => None)
  }

  function EmptyBlock(g: Geometry, bad: bool): Block {
    Block(bad, true, 0, 0, Unwritten(g.pages))
  }

  /** The good blocks below n, in ascending order. */
  function GoodBlocks(bad: seq<bool>, n: nat): (r: seq<nat>)
    requires n <= |bad|
    ensures forall b: nat :: b in r <==> b < n && !bad[b]
    ensures Distinct(r)
  {
    if n == 0 then []
    else if bad[n - 1] then GoodBlocks(bad, n - 1)
    else GoodBlocks(bad, n - 1) + [n - 1]
  }

  /** InitDieMap and the first n rounds of InitBlockMap. */
  function InitDie(g: Geometry, bad: seq<bool>, n: nat): (r: Die)
    requires g.Valid() && |bad| == g.blocks && n <= g.blocks
    ensures DieShape(g, r)
    ensures forall b :: 0 <= b < g.blocks ==> r.blocks[b] == EmptyBlock(g, bad[b])
    ensures forall c :: 0 <= c <= g.pages ==> r.victims[c] == []
    ensures r.current == 0 && r.freeList == GoodBlocks(bad, n)
  {
    Die(seq(g.blocks, b requires 0 <= b < g.blocks => EmptyBlock(g, bad[b])), 0, GoodBlocks(bad, n),
        seq(g.pages + 1, _ => []))
  }

  /** The tables before the dies got their current blocks. */
  function InitTables<D>(g: Geometry, bad: seq<seq<bool>>): (r: Ftl<D>)
    requires g.Valid() && |bad| == g.dies && (forall d :: 0 <= d < g.dies ==> |bad[d]| == g.blocks)
    ensures Shape(g, r)
  {
    Ftl(seq(g.dies, d requires 0 <= d < g.dies => InitDie(g, bad[d], g.blocks)), seq(g.slices, _ => None), 0, map[])
  }

  // ---------- free-block list ----------

  function PutToFbList(die: Die, b: nat): Die {
    die.(freeList := die.freeList + [b])
  }

  /** gc selects GET_FREE_BLOCK_GC, which may take the reserved block too. */
  function GetFromFbList(g: Geometry, die: Die, gc: bool): (r: Option<(Die, nat)>)
    requires DieShape(g, die)
    ensures r.Some? ==> DieShape(g, r.value.0) && r.value.1 < g.blocks
  {
    if (if gc then die.freeList == [] else |die.freeList| <= RESERVED_FREE_BLOCK_COUNT) then None
    else
      var b := die.freeList[0];
      assert b in die.freeList && forall x :: x in die.freeList[1..] ==> x in die.freeList;
      Some((die.(freeList := die.freeList[1..], blocks := die.blocks[b := die.blocks[b].(free := false)]), b))
  }

  // ---------- garbage-collection buckets ----------

  function PutToGcVictimList(g: Geometry, die: Die, b: nat, c: nat): (r: Die)
    requires DieShape(g, die) && b < g.blocks && c <= g.pages
    ensures DieShape(g, r)
  {
    die.(victims := die.victims[c := die.victims[c] + [b]])
  }

  function SelectiveGetFromGcVictimList(g: Geometry, die: Die, b: nat): (r: Die)
    requires DieShape(g, die) && b < g.blocks
    ensures DieShape(g, r)
  {
    var c := die.blocks[b].invalidSliceCnt;
    WithoutSubset(die.victims[c], b);
    die.(victims := die.victims[c := Without(die.victims[c], b)])
  }

  /** The first block of the fullest non-empty bucket among buckets c, c-1, ..., 1. */
  function PickVictim(die: Die, c: nat): (r: Option<nat>)
    requires c < |die.victims|
    ensures r.Some? <==> exists k :: 1 <= k <= c && die.victims[k] != []
    ensures r.Some? ==> exists k :: 1 <= k <= c && die.victims[k] != [] && r.value == die.victims[k][0]
                                 && forall j :: k < j <= c ==> die.victims[j] == []
    decreases c
  {
    if c == 0 then None
    else if die.victims[c] != [] then Some(die.victims[c][0])
    else PickVictim(die, c - 1)
  }

  function VictimBucket(die: Die, c: nat): (k: nat)
    requires c < |die.victims| && PickVictim(die, c).Some?
    ensures 1 <= k <= c && die.victims[k] != [] && die.victims[k][0] == PickVictim(die, c).value
    ensures forall j :: k < j <= c ==> die.victims[j] == []
    decreases c
  {
    if die.victims[c] != [] then c else VictimBucket(die, c - 1)
  }

  /** Unlinks the victim from the head of its bucket. */
  function GetFromGcVictimList(g: Geometry, die: Die): (r: Result<(Die, nat), Halt>)
    requires DieShape(g, die)
    ensures r.Success? ==> DieShape(g, r.value.0) && r.value.1 < g.blocks
  {
    match PickVictim(die, g.pages)
    case None => Failure(NoVictim)
    case Some(b) =>
      var k := VictimBucket(die, g.pages);
      assert b in die.victims[k] && forall x :: x in die.victims[k][1..] ==> x in die.victims[k];
      Success((die.(victims := die.victims[k := die.victims[k][1..]]), b))
  }

  // ---------- allocation of pages ----------

  function SetDie<D>(s: Ftl<D>, d: nat, die: Die): Ftl<D>
    requires d < |s.dies|
  {
    s.(dies := s.dies[d := die])
  }

  predicate Full(g: Geometry, die: Die)
    requires DieShape(g, die)
  {
    die.blocks[die.current].currentPage == g.pages
  }

  /** The address the next program on die d takes. */
  function NextVsa<D>(s: Ftl<D>, d: nat): Vsa
    requires d < |s.dies| && s.dies[d].current < |s.dies[d].blocks|
  {
    Vsa(d, s.dies[d].current, s.dies[d].blocks[s.dies[d].current].currentPage)
  }

  /** Takes the next page of the die's current block and maps slice l to it, in both directions. */
  function MapNextPage<D>(g: Geometry, s: Ftl<D>, d: nat, l: nat): (r: Ftl<D>)
    requires Shape(g, s) && d < g.dies && l < g.slices
    requires s.dies[d].blocks[s.dies[d].current].currentPage < g.pages
    ensures Shape(g, r) && r.target == s.target
  {
    var die := s.dies[d];
    var b := die.current;
    var k := die.blocks[b];
    var k' := k.(currentPage := k.currentPage + 1, v2l := k.v2l[k.currentPage := Some(l)]);
    SetDie(s, d, die.(blocks := die.blocks[b := k'])).(l2v := s.l2v[l := Some(NextVsa(s, d))])
  }

  /** The die after the next page of its current block was handed out, not yet mapped. */
  function PageTaken(die: Die): (r: Die)
    requires die.current < |die.blocks|
  {
    var k := die.blocks[die.current];
    die.(blocks := die.blocks[die.current := k.(currentPage := k.currentPage + 1)])
  }

  /** Enters slice l at page v, in both directions. */
  function MapSlice<D>(g: Geometry, s: Ftl<D>, v: Vsa, l: nat): (r: Ftl<D>)
    requires Shape(g, s) && InRange(g, v) && l < g.slices
    ensures Shape(g, r)
  {
    var die := s.dies[v.die];
    var k := die.blocks[v.block];
    SetDie(s, v.die, die.(blocks := die.blocks[v.block := k.(v2l := k.v2l[v.page := Some(l)])])).(l2v :=
        s.l2v[l := Some(v)])
  }

  lemma MapNextPageInTwoSteps<D>(g: Geometry, s: Ftl<D>, d: nat, l: nat)
    requires Shape(g, s) && d < g.dies && l < g.slices
    requires s.dies[d].blocks[s.dies[d].current].currentPage < g.pages
    ensures Shape(g, SetDie(s, d, PageTaken(s.dies[d])))
    ensures MapNextPage(g, s, d, l) == MapSlice(g, SetDie(s, d, PageTaken(s.dies[d])), NextVsa(s, d), l)
  {
    var s1 := SetDie(s, d, PageTaken(s.dies[d]));
    assert MapNextPage(g, s, d, l).dies[d].blocks == MapSlice(g, s1, NextVsa(s, d), l).dies[d].blocks;
    assert MapNextPage(g, s, d, l).dies == MapSlice(g, s1, NextVsa(s, d), l).dies;
  }

  /** The victim cannot take its own copies: a victim that is the current block is replaced first. */
  function LeaveVictim(g: Geometry, die: Die, victim: nat): (r: Result<Die, Halt>)
    requires DieShape(g, die)
    ensures r.Success? ==> DieShape(g, r.value)
  {
    if victim == die.current then
      match GetFromFbList(g, die, true)
      case None => Failure(NoAvailableBlock)
      case Some((die', b)) => Success(die'.(current := b))
    else Success(die)
  }

  /**
   The source does not look at the page counter of a block it has just taken from the free list.
   In the states the invariant allows it is zero; in others this model stops.
   */
  function WithRoom(g: Geometry, die: Die): (r: Result<Die, Halt>)
    requires DieShape(g, die)
    ensures r.Success? ==> r.value == die && die.blocks[die.current].currentPage < g.pages
  {
    if die.blocks[die.current].currentPage < g.pages then Success(die) else Failure(PageManagementFail)
  }

  /** Makes sure the current block of the die can take a copied page. */
  function OpenForGc(g: Geometry, die: Die, victim: nat): (r: Result<Die, Halt>)
    requires DieShape(g, die)
    ensures r.Success? ==> DieShape(g, r.value) && r.value.blocks[r.value.current].currentPage < g.pages
  {
    var die1 :- LeaveVictim(g, die, victim);
    if Full(g, die1) then
      match GetFromFbList(g, die1, true)
      case None => Failure(NoAvailableBlock)
      case Some((die2, b)) => WithRoom(g, die2.(current := b))
    else WithRoom(g, die1)
  }

  predicate LiveAt<D>(s: Ftl<D>, v: Vsa)
    requires v.die < |s.dies| && v.block < |s.dies[v.die].blocks| && v.page < |s.dies[v.die].blocks[v.block].v2l|
  {
    var e := s.dies[v.die].blocks[v.block].v2l[v.page];
    e.Some? && e.value < |s.l2v| && s.l2v[e.value] == Some(v)
  }

  function CopyContent<D>(media: map<Vsa, D>, from: Vsa, to: Vsa): map<Vsa, D> {
    if from in media then media[to := media[from]] else media - {to}
  }

  /** Moves the live slices of the victim's pages page, page+1, ... to the open block. */
  function CopyLive<D>(g: Geometry, s: Ftl<D>, d: nat, victim: nat, page: nat): (r: Result<Ftl<D>, Halt>)
    requires Shape(g, s) && d < g.dies && victim < g.blocks && page <= g.pages
    ensures r.Success? ==> Shape(g, r.value) && r.value.target == s.target
    decreases g.pages - page
  {
    var v := Vsa(d, victim, page);
    if page == g.pages then Success(s)
    else if LiveAt(s, v) then
      var l := s.dies[d].blocks[victim].v2l[page].value;
      var die :- OpenForGc(g, s.dies[d], victim);
      var s1 := SetDie(s, d, die);
      var s2 := MapNextPage(g, s1, d, l).(media := CopyContent(s.media, v, NextVsa(s1, d)));
      CopyLive(g, s2, d, victim, page + 1)
    else CopyLive(g, s, d, victim, page + 1)
  }

  function EraseBlock<D>(g: Geometry, s: Ftl<D>, d: nat, b: nat): (r: Ftl<D>)
    requires Shape(g, s) && d < g.dies && b < g.blocks
    ensures Shape(g, r) && r.target == s.target
  {
    var die := s.dies[d];
    var k := die.blocks[b].(free := true, invalidSliceCnt := 0, currentPage := 0, v2l := Unwritten(g.pages));
    SetDie(s, d, PutToFbList(die.(blocks := die.blocks[b := k]), b))
      .(media := map v | v in s.media && !(v.die == d && v.block == b) :: s.media[v])
  }

  function GarbageCollection<D>(g: Geometry, s: Ftl<D>, d: nat): (r: Result<Ftl<D>, Halt>)
    requires Shape(g, s) && d < g.dies
    ensures r.Success? ==> Shape(g, r.value) && r.value.target == s.target
  {
    var (die, victim) :- GetFromGcVictimList(g, s.dies[d]);
    var s1 := SetDie(s, d, die);
    var s2 :- if die.blocks[victim].invalidSliceCnt != g.pages then CopyLive(g, s1, d, victim, 0) else Success(s1);
    Success(EraseBlock(g, s2, d, victim))
  }

  /** Replaces a full current block by a free one, if there is one above the reserve. */
  function TakeFreeBlock(g: Geometry, die: Die): (r: Result<Die, Halt>)
    requires DieShape(g, die)
    ensures r.Success? ==> DieShape(g, r.value) && r.value.blocks[r.value.current].currentPage < g.pages
  {
    match GetFromFbList(g, die, false)
    case None => Failure(NoAvailableBlock)
    case Some((die', b)) => WithRoom(g, die'.(current := b))
  }

  /** The block part of FindFreeVirtualSlice: leaves the target die with room in its current block. */
  function OpenForWrite<D>(g: Geometry, s: Ftl<D>): (r: Result<Ftl<D>, Halt>)
    requires Shape(g, s)
    ensures r.Success? ==> Shape(g, r.value) && r.value.target == s.target
    ensures r.Success? ==> NextVsa(r.value, s.target).page < g.pages
  {
    var d := s.target;
    if !Full(g, s.dies[d]) then
      var die :- WithRoom(g, s.dies[d]);
      Success(s)
    else if GetFromFbList(g, s.dies[d], false).Some? then
      var die :- TakeFreeBlock(g, s.dies[d]);
      Success(SetDie(s, d, die))
    else
      var s1 :- GarbageCollection(g, s, d);
      if Full(g, s1.dies[d]) then
        var die :- TakeFreeBlock(g, s1.dies[d]);
        Success(SetDie(s1, d, die))
      else
        var die :- WithRoom(g, s1.dies[d]);
        Success(s1)
  }

  /** InitCurrentBlockOfDieMap for dies d, d + 1, ... */
  function InitCurrentBlocks<D>(g: Geometry, s: Ftl<D>, d: nat): (r: Result<Ftl<D>, Halt>)
    requires Shape(g, s) && d <= g.dies
    ensures r.Success? ==> Shape(g, r.value)
    decreases g.dies - d
  {
    if d == g.dies then Success(s)
    else
      match GetFromFbList(g, s.dies[d], false)
      case None => Failure(NoAvailableBlock)
      case Some((die, b)) => InitCurrentBlocks(g, SetDie(s, d, die.(current := b)), d + 1)
  }

  /** Counting one more stale slice in the block of l's page must not leave the bucket array. */
  predicate Countable<D>(g: Geometry, s: Ftl<D>, l: nat)
    requires Shape(g, s) && l < g.slices
  {
    s.l2v[l].Some? ==>
      var v := s.l2v[l].value;
      s.dies[v.die].blocks[v.block].invalidSliceCnt < g.pages
  }

  function InvalidateOldVsa<D>(g: Geometry, s: Ftl<D>, l: nat): (r: Ftl<D>)
    requires Shape(g, s) && l < g.slices && Countable(g, s, l)
    ensures Shape(g, r) && r.target == s.target
  {
    match s.l2v[l]
    case None => s
    case Some(v) =>
      if s.dies[v.die].blocks[v.block].v2l[v.page] != Some(l) then s
      else
        var die := SelectiveGetFromGcVictimList(g, s.dies[v.die], v.block);
        var k := die.blocks[v.block];
        var c := k.invalidSliceCnt + 1;
        var die' := die.(blocks := die.blocks[v.block := k.(invalidSliceCnt := c)]);
        SetDie(s, v.die, PutToGcVictimList(g, die', v.block, c)).(l2v := s.l2v[l := None])
  }

  /** The page given to slice l; data is what the caller programs there. */
  function AddrTransWrite<D>(g: Geometry, s: Ftl<D>, l: nat, data: D): (r: Result<(Ftl<D>, Vsa), Halt>)
    requires Shape(g, s) && l < g.slices && Countable(g, s, l)
    ensures r.Success? ==> Shape(g, r.value.0) && InRange(g, r.value.1)
  {
    var s1 :- OpenForWrite(g, InvalidateOldVsa(g, s, l));
    var v := NextVsa(s1, s1.target);
    var s2 := MapNextPage(g, s1, s1.target, l);
    Success((s2.(target := (s.target + 1) % g.dies, media := s2.media[v := data]), v))
  }

  function AddrTransRead<D>(s: Ftl<D>, l: nat): Option<Vsa>
    requires l < |s.l2v|
  {
    s.l2v[l]
  }

  /** What a NAND read of slice l brings in: nothing if l was never mapped. */
  function Lookup<D>(s: Ftl<D>, l: nat): Option<D>
    requires l < |s.l2v|
  {
    if s.l2v[l].Some? && s.l2v[l].value in s.media then Some(s.media[s.l2v[l].value]) else None
  }
}
