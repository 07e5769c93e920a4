/**
 The tables of one die as the firmware keeps them: block entries, their two-way links with the ends
 of the free list and of the garbage-collection buckets, and the reverse map. Every operation is
 proved to do to the die it stands for what the function of the same name in module Ftl does.
 */
module DieTables {
  import opened Common
  import opened F = Ftl
  import opened IndexLists
  import opened FtlInvariant

  const BLOCK_NONE: nat := 0xffff
  const BLOCK_FAIL: nat := 0xffff

  class DieTables {
    const g: Geometry
    const bad: array<bool>
    const free: array<bool>
    const invalidSliceCnt: array<nat>
    const currentPage: array<nat>
    /** prevBlock and nextBlock with their list ends: buckets 0 to g.pages, then the free list. */
    const links: IndexLists
    const v2l: array2<Option<nat>>
    var currentBlock: nat
    var freeBlockCnt: nat
    /** The die the tables stand for. */
    ghost var abs: Die

    ghost function Repr(): set<object> {
      {this, bad, free, invalidSliceCnt, currentPage, v2l} + links.Repr()
    }

    ghost predicate Dimensions() {
      && bad != free && invalidSliceCnt != currentPage
      && links.Repr() !! {this, bad, free, invalidSliceCnt, currentPage, v2l}
      && g.Valid() && g.blocks <= BLOCK_NONE && links.none == BLOCK_NONE
      && bad.Length == free.Length == invalidSliceCnt.Length == currentPage.Length == g.blocks
      && links.prev.Length == links.next.Length == g.blocks
      && v2l.Length0 == g.blocks && v2l.Length1 == g.pages
    }

    /** Block b of the tables is block k. */
    ghost predicate Agrees(b: nat, k: Block)
      requires Dimensions() && b < g.blocks
      reads bad, free, invalidSliceCnt, currentPage, v2l
    {
      && k.bad == bad[b] && k.free == free[b]
      && k.invalidSliceCnt == invalidSliceCnt[b] && k.currentPage == currentPage[b]
      && |k.v2l| == g.pages && forall p :: 0 <= p < g.pages ==> k.v2l[p] == v2l[b, p]
    }

    ghost predicate ListsAgree()
      reads this, links
    {
      && |links.lists| == g.pages + 2
      && abs.victims == links.lists[..g.pages + 1]
      && abs.freeList == links.lists[g.pages + 1] && |abs.freeList| == freeBlockCnt
    }

    /** Blocks in use without stale slices are in no list; their links are clear. */
    ghost predicate UncountedAreClean()
      requires Dimensions()
      reads free, invalidSliceCnt, links, links.prev, links.next
    {
      forall b :: 0 <= b < g.blocks && !free[b] && invalidSliceCnt[b] == 0 ==> Loose(links.lists, b) && links.Clean(b)
    }

    ghost predicate Valid()
      reads Repr()
    {
      && Dimensions() && links.Valid() && DieShape(g, abs)
      && abs.current == currentBlock && ListsAgree() && UncountedAreClean()
      && forall b :: 0 <= b < g.blocks ==> Agrees(b, abs.blocks[b])
    }

    /** InitDieMap, and the fields InitBlockMap sets; no block is in a list yet. */
    constructor (g: Geometry, isBad: seq<bool>)
      requires g.Valid() && |isBad| == g.blocks <= BLOCK_NONE
      ensures Valid() && fresh(Repr()) && this.g == g
      ensures abs == InitDie(g, isBad, 0)
    {
      hide InitDie, IndexLists.Valid, DieTables.Valid;
      this.g := g;
      bad := new bool[g.blocks](b requires 0 <= b < g.blocks => isBad[b]);
      free := new bool[g.blocks](_ => true);
      invalidSliceCnt := new nat[g.blocks](_ => 0);
      currentPage := new nat[g.blocks](_ => 0);
      links := new IndexLists(g.blocks, g.pages + 2, BLOCK_NONE);
      v2l := new Option<nat>[g.blocks, g.pages]((_, _) => None);
      currentBlock := 0;
      freeBlockCnt := 0;
      abs := InitDie(g, isBad, 0);
      new;
      StartsValid(isBad);
    }

    /** No block is in a list, and nothing is counted or programmed. */
    lemma StartsValid(isBad: seq<bool>)
      requires Dimensions() && links.Valid() && links.lists == seq(g.pages + 2, _ => []) && |isBad| == g.blocks
      requires forall b :: 0 <= b < g.blocks ==>
          bad[b] == isBad[b] && free[b] && invalidSliceCnt[b] == 0 && currentPage[b] == 0
      requires forall b, p :: 0 <= b < g.blocks && 0 <= p < g.pages ==> v2l[b, p] == None
      requires abs == InitDie(g, isBad, 0) && currentBlock == 0 && freeBlockCnt == 0
      ensures Valid()
    {
      hide IndexLists.Valid, InitDie;
      assert abs.victims == links.lists[..g.pages + 1];
    }

    method PutToFbList(b: nat)
      requires Valid() && b < g.blocks && Loose(links.lists, b) && free[b]
      modifies Repr()
      ensures Valid() && abs == F.PutToFbList(old(abs), b)
    {
      links.PutTail(g.pages + 1, b);
      freeBlockCnt := freeBlockCnt + 1;
      abs := F.PutToFbList(abs, b);
    }

    /** The good blocks enter the free list in ascending order. */
    method InitBlockMap(ghost isBad: seq<bool>)
      requires Valid() && |isBad| == g.blocks && abs == InitDie(g, isBad, 0)
      modifies Repr()
      ensures Valid() && abs == InitDie(g, isBad, g.blocks)
    {
      var b := 0;
      while b < g.blocks
        invariant 0 <= b <= g.blocks && Valid()
        invariant abs == InitDie(g, isBad, b)
      {
        assert Agrees(b, abs.blocks[b]);
        if !bad[b] {
          assert Loose(links.lists, b) by {
            forall q | 0 <= q < |links.lists|
              ensures b !in links.lists[q]
            {
              assert q <= g.pages ==> links.lists[q] == abs.victims[q];
            }
          }
          PutToFbList(b);
        }
        b := b + 1;
        assert abs == InitDie(g, isBad, b);
      }
    }

    /** The head of the free list: BLOCK_FAIL if there is none, or if it is the reserve and gc is not set. */
    method GetFromFbList(gc: bool) returns (b: nat)
      requires Valid()
      modifies Repr()
      ensures Valid()
      ensures match F.GetFromFbList(g, old(abs), gc)
              case None => b == BLOCK_FAIL && abs == old(abs)
              case Some((die, x)) => b == x && abs == die
    {
      hide Chains, Apart, EndsAt;
      links.Ends(g.pages + 1);
      b := links.head[g.pages + 1];
      if !gc {
        if freeBlockCnt <= RESERVED_FREE_BLOCK_COUNT {
          return BLOCK_FAIL;
        }
      } else if b == BLOCK_NONE {
        return BLOCK_FAIL;
      }
      ghost var r := F.GetFromFbList(g, abs, gc).value;
      b := links.PopHead(g.pages + 1);
      free[b] := false;
      freeBlockCnt := freeBlockCnt - 1;
      links.Reset(b);
      abs := r.0;
    }

    method PutToGcVictimList(b: nat, c: nat)
      requires Valid() && b < g.blocks && c <= g.pages && Loose(links.lists, b)
      requires free[b] || invalidSliceCnt[b] > 0
      modifies Repr()
      ensures Valid() && abs == F.PutToGcVictimList(g, old(abs), b, c)
    {
      links.PutTail(c, b);
      abs := F.PutToGcVictimList(g, abs, b, c);
    }

    method SelectiveGetFromGcVictimList(b: nat)
      requires Valid() && b < g.blocks && !abs.blocks[b].free
      requires var c := abs.blocks[b].invalidSliceCnt; if c == 0 then abs.victims[0] == [] else b in abs.victims[c]
      modifies Repr()
      ensures Valid() && abs == F.SelectiveGetFromGcVictimList(g, old(abs), b)
      ensures Loose(links.lists, b)
    {
      assert Agrees(b, abs.blocks[b]);
      links.Unlink(invalidSliceCnt[b], b);
      abs := F.SelectiveGetFromGcVictimList(g, abs, b);
    }

    method TakeVictim(c: nat) returns (b: nat)
      requires Valid() && 1 <= c <= g.pages && abs.victims[c] != []
      requires forall j :: c < j <= g.pages ==> abs.victims[j] == []
      modifies Repr()
      ensures Valid() && F.GetFromGcVictimList(g, old(abs)) == Success((abs, b)) && Loose(links.lists, b)
    {
      assert PickVictim(abs, g.pages).Some? && VictimBucket(abs, g.pages) == c;
      ghost var r := F.GetFromGcVictimList(g, abs).value;
      b := links.PopHead(c);
      abs := r.0;
    }

    /** Takes the head of the fullest bucket; BLOCK_FAIL stands for the assertion that stops the device. */
    method GetFromGcVictimList() returns (b: nat)
      requires Valid()
      modifies Repr()
      ensures Valid()
      ensures match F.GetFromGcVictimList(g, old(abs))
              case Failure(_) => b == BLOCK_FAIL && abs == old(abs)
              case Success((die, x)) => b == x && abs == die && Loose(links.lists, b)
    {
      var c := g.pages;
      while c > 0
        invariant 0 <= c <= g.pages && Valid() && abs == old(abs)
        invariant forall j :: c < j <= g.pages ==> abs.victims[j] == []
      {
        links.Ends(c);
        if links.head[c] != BLOCK_NONE {
          b := TakeVictim(c);
          return;
        }
        c := c - 1;
      }
      b := BLOCK_FAIL;
    }

    /** invalidSliceCnt of a block in no list. */
    method SetCount(b: nat, c: nat)
      requires Valid() && b < g.blocks && Loose(links.lists, b) && !abs.blocks[b].free && 0 < c <= g.pages
      modifies invalidSliceCnt, this`abs
      ensures Valid() && abs == old(abs).(blocks := old(abs).blocks[b := old(abs).blocks[b].(invalidSliceCnt := c)])
    {
      hide IndexLists.Valid;
      assert Agrees(b, abs.blocks[b]);
      invalidSliceCnt[b] := c;
      abs := abs.(blocks := abs.blocks[b := abs.blocks[b].(invalidSliceCnt := c)]);
    }

    /** One more stale slice in block b: out of its bucket, into the next one. */
    method Recount(b: nat)
      requires Valid() && b < g.blocks && !abs.blocks[b].free && abs.blocks[b].invalidSliceCnt < g.pages
      requires var c := abs.blocks[b].invalidSliceCnt; if c == 0 then abs.victims[0] == [] else b in abs.victims[c]
      modifies Repr()
      ensures Valid() && abs == Recounted(g, old(abs), b)
    {
      hide IndexLists.Valid, UncountedAreClean, ListsAgree;
      SelectiveGetFromGcVictimList(b);
      assert Agrees(b, abs.blocks[b]);
      SetCount(b, invalidSliceCnt[b] + 1);
      assert Agrees(b, abs.blocks[b]);
      PutToGcVictimList(b, invalidSliceCnt[b]);
    }

    /** The table part of EraseBlock. */
    method EraseBlock(b: nat)
      requires Valid() && b < g.blocks && Loose(links.lists, b)
      modifies Repr()
      ensures Valid() && abs == F.PutToFbList(old(abs).(blocks := old(abs).blocks[b := Erased(g, old(abs).blocks[b])]),
          b)
    {
      MarkFree(b);
      PutToFbList(b);
      ClearReverse(b);
      assert abs.blocks == old(abs).blocks[b := Erased(g, old(abs).blocks[b])];
    }

    method MarkFree(b: nat)
      requires Valid() && b < g.blocks
      modifies free, invalidSliceCnt, currentPage, this`abs
      ensures Valid() && free[b]
      ensures abs == old(abs).(blocks :=
          old(abs).blocks[b := old(abs).blocks[b].(free := true, invalidSliceCnt := 0, currentPage := 0)])
    {
      assert Agrees(b, abs.blocks[b]);
      free[b] := true;
      invalidSliceCnt[b] := 0;
      currentPage[b] := 0;
      abs := abs.(blocks := abs.blocks[b := abs.blocks[b].(free := true, invalidSliceCnt := 0, currentPage := 0)]);
    }

    /** virtualSliceMap of a whole block. */
    method ClearReverse(b: nat)
      requires Valid() && b < g.blocks
      modifies Repr()
      ensures Valid() && abs == old(abs).(blocks :=
          old(abs).blocks[b := old(abs).blocks[b].(v2l := Unwritten(g.pages))])
    {
      ghost var k, was := abs.blocks[b], abs;
      var page := 0;
      while page < g.pages
        invariant 0 <= page <= g.pages && Valid()
        invariant |abs.blocks[b].v2l| == g.pages
        invariant abs == was.(blocks := was.blocks[b := k.(v2l := abs.blocks[b].v2l)])
        invariant forall p :: 0 <= p < page ==> abs.blocks[b].v2l[p] == None
      {
        SetReverse(b, page, None);
        page := page + 1;
      }
      assert abs.blocks[b].v2l == Unwritten(g.pages);
      assert abs.blocks[b] == k.(v2l := Unwritten(g.pages));
    }

    /** virtualSliceMap at (b, p). */
    method SetReverse(b: nat, p: nat, l: Option<nat>)
      requires Valid() && b < g.blocks && p < g.pages
      modifies Repr()
      ensures Valid() && |old(abs).blocks[b].v2l| == g.pages
      ensures abs == old(abs).(blocks :=
          old(abs).blocks[b := old(abs).blocks[b].(v2l := old(abs).blocks[b].v2l[p := l])])
    {
      assert Agrees(b, abs.blocks[b]);
      v2l[b, p] := l;
      abs := abs.(blocks := abs.blocks[b := abs.blocks[b].(v2l := abs.blocks[b].v2l[p := l])]);
    }

    /** Hands out the next page of the current block. */
    method TakePage() returns (p: nat)
      requires Valid()
      modifies currentPage, this`abs
      ensures Valid() && p == old(abs).blocks[old(abs).current].currentPage
      ensures abs == old(abs).(blocks :=
          old(abs).blocks[old(abs).current := old(abs).blocks[old(abs).current].(currentPage := p + 1)])
    {
      assert Agrees(currentBlock, abs.blocks[currentBlock]);
      p := currentPage[currentBlock];
      currentPage[currentBlock] := p + 1;
      abs := abs.(blocks := abs.blocks[currentBlock := abs.blocks[currentBlock].(currentPage := p + 1)]);
    }

    method SetCurrent(b: nat)
      requires Valid() && b < g.blocks
      modifies this`currentBlock, this`abs
      ensures Valid() && abs == old(abs).(current := b)
    {
      currentBlock := b;
      abs := abs.(current := b);
    }

    /** The page counter of the current block. */
    method CurrentPage() returns (p: nat)
      requires Valid()
      ensures p == abs.blocks[abs.current].currentPage
    {
      assert Agrees(currentBlock, abs.blocks[currentBlock]);
      p := currentPage[currentBlock];
    }

    /** Nothing is programmed in the free blocks. */
    ghost predicate FreeAreEmpty()
      reads this
    {
      forall b :: b in abs.freeList && b < |abs.blocks| ==> abs.blocks[b].currentPage == 0
    }

    /** A free block, the reserve included, becomes the current one. */
    method TakeForGc() returns (halt: Option<Halt>)
      requires Valid()
      modifies Repr()
      ensures Valid()
      ensures match F.GetFromFbList(g, old(abs), true)
              case None => halt == Some(NoAvailableBlock) && abs == old(abs)
              case Some((die, b)) => halt == None && abs == die.(current := b)
    {
      var b := GetFromFbList(true);
      if b == BLOCK_FAIL {
        return Some(NoAvailableBlock);
      }
      SetCurrent(b);
      halt := None;
    }

    lemma FreeHeadIsEmpty()
      requires Valid() && FreeAreEmpty()
      ensures var r := F.GetFromFbList(g, abs, true);
              r.Some? ==> r.value.0.blocks[r.value.1].currentPage == 0
                          && forall b :: b in r.value.0.freeList && b < g.blocks ==>
                              r.value.0.blocks[b].currentPage == 0
    {
    }

    /** The next page for a copy out of the victim. */
    method FindFreeVirtualSliceForGc(victim: nat) returns (r: Result<(nat, nat), Halt>)
      requires Valid() && FreeAreEmpty()
      modifies Repr()
      ensures Valid()
      ensures match F.OpenForGc(g, old(abs), victim)
              case Failure(e) => r == Failure(e)
              case Success(die) => r == Success((die.current,
                  die.blocks[die.current].currentPage)) && abs == PageTaken(die)
    {
      hide F.GetFromFbList, ListsAgree, UncountedAreClean, Agrees, IndexLists.Valid;
      FreeHeadIsEmpty();
      if victim == currentBlock {
        var halt := TakeForGc();
        if halt.Some? {
          return Failure(halt.value);
        }
      }
      FreeHeadIsEmpty();
      var p := CurrentPage();
      if p == g.pages {
        var halt := TakeForGc();
        if halt.Some? {
          return Failure(halt.value);
        }
      } else if p > g.pages {
        return Failure(PageManagementFail);
      }
      p := TakePage();
      r := Success((currentBlock, p));
    }

    /** GetFromFbList for a write: a free block beyond the reserve becomes the current one. */
    method TakeFreeBlock() returns (halt: Option<Halt>)
      requires Valid() && FreeAreEmpty()
      modifies Repr()
      ensures Valid()
      ensures match F.TakeFreeBlock(g, old(abs))
              case Failure(e) => halt == Some(e) && abs == old(abs)
              case Success(die) => halt == None && abs == die
    {
      var b := GetFromFbList(false);
      if b == BLOCK_FAIL {
        return Some(NoAvailableBlock);
      }
      SetCurrent(b);
      halt := None;
    }
  }
}
