/**
 The request protocol in place: slots in an array, their queues and blocking links, and the table of
 row-address dependencies. Each method is proved to do what the function of the same name in module
 Requests does to the pool as a value.
 */
module RequestPool {
  import opened Common
  import opened IndexLists
  import opened BlockingLinks
  import opened R = Requests
  import opened RequestQueues
  import RS = RequestSafety
  import DP = Dependencies

  class RequestPool<D> {
    const g: Sizes
    const reqs: array<Req<D>>
    const queues: RequestQueues
    const blocking: BlockingLinks
    const table: array2<Row>
    ghost var rows: seq<seq<Row>>

    ghost function Repr(): set<object> {
      {this, reqs, table} + queues.Repr() + blocking.Repr()
    }

    ghost predicate Dimensions() {
      && {this, reqs, table} !! queues.Repr() && {this, reqs, table} !! blocking.Repr()
          && queues.Repr() !! blocking.Repr()
      && queues.g == g && reqs.Length == blocking.prevBlockingReq.Length == queues.n
      && table.Length0 == g.dies && table.Length1 == g.blocks
    }

    ghost predicate TableOk()
      requires Dimensions()
      reads this, table
    {
      && |rows| == g.dies && (forall d :: 0 <= d < |rows| ==> |rows[d]| == g.blocks)
      && forall d, b :: 0 <= d < g.dies && 0 <= b < g.blocks ==> rows[d][b] == table[d, b]
    }

    /** The pool as a value. */
    ghost function Abs(): Pool<D>
      reads Repr()
    {
      Pool(reqs[..], queues.place, queues.links.lists, blocking.chains, rows)
    }

    ghost predicate Valid()
      reads Repr()
    {
      Dimensions() && queues.Valid() && blocking.Valid() && TableOk() && Shape(g, Abs())
    }

    constructor (g: Sizes, reqs: array<Req<D>>, queues: RequestQueues, blocking: BlockingLinks)
      requires queues.Valid() && blocking.Valid() && queues.g == g
          && queues.n == reqs.Length == blocking.prevBlockingReq.Length
      requires reqs !in queues.Repr() && reqs !in blocking.Repr() && queues.Repr() !! blocking.Repr()
      requires Shape(g, Pool(reqs[..], queues.place, queues.links.lists, blocking.chains, NoRows(g)))
      ensures Valid() && this.g == g && this.reqs == reqs && this.queues == queues && this.blocking == blocking
      ensures Abs() == Pool(reqs[..], queues.place, queues.links.lists, blocking.chains, NoRows(g))
    {
      this.g := g;
      this.reqs := reqs;
      this.queues := queues;
      this.blocking := blocking;
      table := new Row[g.dies, g.blocks]((_, _) => Row(0, 0, false));
      rows := NoRows(g);
      new;
      hide RequestQueues.Valid, BlockingLinks.Valid, Shape;
    }

    method PutTo(q: nat, r: nat)
      requires Valid() && q < QueueCount(g) && r < reqs.Length && queues.place[r] == None
      modifies Repr()
      ensures Valid() && Abs() == Put(g, old(Abs()), q, r)
    {
      ghost var p := Put(g, Abs(), q, r);
      hide RequestQueues.Valid, BlockingLinks.Valid, Shape;
      queues.PutTo(q, r);
      assert Abs() == p;
    }

    method SelectiveGetFrom(q: nat, r: nat)
      requires Valid() && q < QueueCount(g) && r < reqs.Length && queues.place[r] == Some(q)
      modifies Repr()
      ensures Valid() && Abs() == Take(g, old(Abs()), r)
    {
      ghost var p := Take(g, Abs(), r);
      hide RequestQueues.Valid, BlockingLinks.Valid, Shape;
      queues.SelectiveGetFrom(q, r);
      assert Abs() == p;
    }

    /** UpdateDataBufEntryInfoBlockingReq and its counterpart for temporary entries. */
    method UpdateBufEntryInfoBlockingReq(r: nat)
      requires Valid() && r < reqs.Length && Loose(blocking.chains, r) && reqs[r].Buffered()
      modifies Repr()
      ensures Valid() && Abs() == Link(g, old(Abs()), r)
    {
      ghost var p := Link(g, Abs(), r);
      assert InRange(g, reqs[r]) && |blocking.chains| == g.bufs;
      hide RequestQueues.Valid, BlockingLinks.Valid, Shape, Loose;
      blocking.Append(reqs[r].buf, r);
      assert Abs() == p;
    }

    /** Slot r is in the chain of its buffer entry, or in none if it has no entry. */
    ghost predicate Linked(r: nat)
      requires r < reqs.Length
      reads Repr()
    {
      if reqs[r].Buffered() then reqs[r].buf < |blocking.chains| && r in blocking.chains[reqs[r].buf]
          else Loose(blocking.chains, r)
    }

    method CheckBufDep(r: nat) returns (pass: bool)
      requires Valid() && r < reqs.Length && Linked(r)
      ensures pass == BufPass(g, Abs(), r)
    {
      pass := blocking.CheckBufDep(r, reqs[r].buf);
    }

    method SetTable(r: nat, row: Row)
      requires Valid() && r < reqs.Length
      modifies Repr()
      ensures Valid() && Abs() == SetRow(g, old(Abs()), r, row)
      ensures blocking.chains == old(blocking.chains) && queues.place == old(queues.place) && reqs[..] == old(reqs[..])
    {
      ghost var p := SetRow(g, Abs(), r, row);
      assert InRange(g, reqs[r]);
      hide RequestQueues.Valid, BlockingLinks.Valid, Shape;
      var q := reqs[r];
      table[q.die, q.block] := row;
      rows := rows[q.die := rows[q.die][q.block := row]];
      assert Abs() == p;
    }

    lemma SetSame(r: nat)
      requires Valid() && r < reqs.Length
      ensures SetRow(g, Abs(), r, RowOf(g, Abs(), r)) == Abs()
    {
      var q := reqs[r];
      assert InRange(g, q) && rows[q.die][q.block := rows[q.die][q.block]] == rows[q.die];
      assert rows[q.die := rows[q.die]] == rows;
    }

    /** CheckRowAddrDep; for a read on selection, after the wait for a pending erase. */
    method CheckRowAddrDep(r: nat, select: bool) returns (pass: bool)
      requires Valid() && r < reqs.Length && !reqs[r].Dma()
      modifies Repr()
      ensures var (row, ok) := RowCheck(old(reqs[r]), RowOf(g, old(Abs()), r), select);
              pass == ok && Valid() && Abs() == SetRow(g, old(Abs()), r, row)
    {
      var q := reqs[r];
      assert InRange(g, q);
      var row := table[q.die, q.block];
      SetSame(r);
      hide RequestQueues.Valid, BlockingLinks.Valid, Shape, SetRow;
      match q.kind {
        case NandRead =>
          if select {
            if q.page < row.permitted {
              return true;
            }
            SetTable(r, row.(readers := row.readers + 1));
          } else if q.page < row.permitted {
            SetTable(r, row.(readers := row.readers - 1));
            return true;
          }
        case NandWrite =>
          if q.page == row.permitted {
            SetTable(r, row.(permitted := row.permitted + 1));
            return true;
          }
        case NandErase =>
          if row.permitted == q.page {
            if row.readers == 0 {
              SetTable(r, row.(permitted := 0, erasing := false));
              return true;
            }
          }
          if select {
            SetTable(r, row.(erasing := true));
          }
        case _ =>
      }
      return false;
    }

    /** The part of SelectLowLevelReqQ and ReleaseBlockedByBufDepReq for a request nothing precedes. */
    method Admit(r: nat, select: bool)
      requires Valid() && r < reqs.Length && queues.place[r] == None
      modifies Repr()
      ensures Valid() && Abs() == R.Admit(g, old(Abs()), r, select)
    {
      var q := reqs[r];
      assert InRange(g, q);
      hide Shape, RowCheck, RequestQueues.Valid, BlockingLinks.Valid;
      if q.Dma() {
        PutTo(DMA, r);
      } else {
        var pass := CheckRowAddrDep(r, select);
        if pass {
          PutTo(NandQ(g, q.die), r);
        } else {
          PutTo(RowQ(q.die), r);
        }
      }
    }

    /** A buffer-blocked read leaves its mark in the table; it gets here only while no erase waits. */
    method UpdateRowAddrDepTableForBufBlockedReq(r: nat)
      requires Valid() && r < reqs.Length && !reqs[r].Dma() && reqs[r].Buffered()
      modifies Repr()
      ensures var row := RowOf(g, old(Abs()), r);
              Valid() && Abs() == if reqs[r].kind.NandRead?
                  then SetRow(g, old(Abs()), r, row.(readers := row.readers + 1)) else old(Abs())
    {
      var q := reqs[r];
      assert InRange(g, q);
      if q.kind.NandRead? {
        SetTable(r, table[q.die, q.block].(readers := table[q.die, q.block].readers + 1));
      }
    }

    method SelectLowLevelReqQ(r: nat)
      requires Valid() && r < reqs.Length && queues.place[r] == None && Linked(r)
      modifies Repr()
      ensures Valid() && Abs() == Select(g, old(Abs()), r)
    {
      hide RequestQueues.Valid, BlockingLinks.Valid, R.Admit;
      assert InRange(g, reqs[r]);
      var pass := CheckBufDep(r);
      if pass {
        Admit(r, true);
      } else {
        if !reqs[r].Dma() {
          UpdateRowAddrDepTableForBufBlockedReq(r);
        }
        PutTo(BUF, r);
      }
    }

    /** Slot r is first in the chain of its buffer entry, or in none if it has no entry. */
    ghost predicate First(r: nat)
      requires r < reqs.Length
      reads Repr()
    {
      if reqs[r].Buffered() then
        && reqs[r].buf < |blocking.chains| && blocking.chains[reqs[r].buf] != []
        && blocking.chains[reqs[r].buf][0] == r
      else Loose(blocking.chains, r)
    }

    /** The first part of ReleaseBlockedByBufDepReq: the completed slot leaves its chain. */
    method PopChain(r: nat) returns (target: nat)
      requires Valid() && r < reqs.Length && First(r)
      modifies Repr()
      ensures Valid() && Abs() == Unlink(g, old(Abs()), r)
      ensures match Successor(g, old(Abs()), r)
              case None => target == REQ_SLOT_TAG_NONE
              case Some(t) => target == t < reqs.Length
    {
      ghost var p := Unlink(g, Abs(), r);
      target := REQ_SLOT_TAG_NONE;
      if reqs[r].Buffered() {
        ghost var c := blocking.chains[reqs[r].buf];
        assert Without(c, r) == c[1..];
        assert |c| > 1 ==> c[1] in c;
        hide RequestQueues.Valid, BlockingLinks.Valid, Shape, Without;
        target := blocking.Pop(reqs[r].buf, r);
        assert Abs() == p;
      }
    }

    method ReleaseBlockedByBufDepReq(r: nat)
      requires Valid() && r < reqs.Length && First(r)
      modifies Repr()
      ensures Valid() && Abs() == Release(g, old(Abs()), r)
    {
      var target := PopChain(r);
      SlotsBelowNone();
      if target != REQ_SLOT_TAG_NONE {
        TypeIsPlace(target);
        hide RequestQueues.Valid, BlockingLinks.Valid, Shape, Unlink, Take, R.Admit, RequestPool.First;
        if queues.reqQueueType[target] == QueueType(g, Some(BUF)) {
          SelectiveGetFrom(BUF, target);
          Admit(target, false);
        }
      }
    }

    lemma SlotsBelowNone()
      requires Valid()
      ensures reqs.Length <= REQ_SLOT_TAG_NONE
    {
    }

    /** A slot's queue type says that it is blocked by its buffer entry exactly if it is. */
    lemma TypeIsPlace(t: nat)
      requires Valid() && t < reqs.Length
      ensures t < queues.reqQueueType.Length
          && (queues.reqQueueType[t] == QueueType(g, Some(BUF)) <==> queues.place[t] == Some(BUF))
    {
    }

    method SelectiveGetFromNvmeDmaReqQ(r: nat)
      requires Valid() && r < reqs.Length && queues.place[r] == Some(DMA) && First(r)
      modifies Repr()
      ensures Valid() && Abs() == Complete(g, old(Abs()), r)
    {
      ghost var p := Abs();
      assert r < |p.place| && p.place[r] == Some(DMA);
      hide RequestQueues.Valid, BlockingLinks.Valid, Shape, Release;
      SelectiveGetFrom(DMA, r);
      assert Abs().place == p.place[r := None];
      PutTo(FREE, r);
      assert reqs[r] == p.reqs[r] && blocking.chains == p.chains;
      ReleaseBlockedByBufDepReq(r);
    }

    /** The die's first NAND request completes. */
    method GetFromNandReqQ(d: nat) returns (r: nat)
      requires Valid() && d < g.dies && queues.links.lists[NandQ(g, d)] != []
      requires queues.links.lists[NandQ(g, d)][0] < reqs.Length && First(queues.links.lists[NandQ(g, d)][0])
      modifies Repr()
      ensures r == old(queues.links.lists[NandQ(g, d)])[0] && Valid() && Abs() == Complete(g, old(Abs()), r)
    {
      ghost var p := Abs();
      r := GetHead(NandQ(g, d));
      hide RequestQueues.Valid, BlockingLinks.Valid, Shape, Release;
      PutTo(FREE, r);
      assert reqs[r] == p.reqs[r] && blocking.chains == p.chains;
      ReleaseBlockedByBufDepReq(r);
    }

    method GetHead(q: nat) returns (r: nat)
      requires Valid() && q < QueueCount(g) && queues.links.lists[q] != []
      modifies Repr()
      ensures r == old(queues.links.lists[q])[0] && r < reqs.Length && old(queues.place[r]) == Some(q)
      ensures Valid() && Abs() == Take(g, old(Abs()), r)
    {
      assert queues.links.lists[q][0] in queues.links.lists[q];
      ghost var p := Take(g, Abs(), queues.links.lists[q][0]);
      hide RequestQueues.Valid, BlockingLinks.Valid, Shape;
      r := queues.GetHead(q);
      assert Abs() == p;
    }

    /** One round of ReleaseBlockedByRowAddrDepReq. */
    method ReleaseRow(d: nat, r: nat) returns (pass: bool)
      requires Valid() && d < g.dies && r < reqs.Length && queues.place[r] == Some(RowQ(d)) && !reqs[r].Dma()
          && reqs[r].die == d
      modifies Repr()
      ensures var (row, ok) := RowCheck(old(reqs[r]), RowOf(g, old(Abs()), r), false);
              && pass == ok && Valid()
              && Abs() == if ok then Put(g, Take(g, SetRow(g, old(Abs()), r, row), r), NandQ(g, d), r) else old(Abs())
    {
      ghost var p := Abs();
      SetSame(r);
      RefusedIsUnchanged(reqs[r], RowOf(g, p, r));
      assert r < |p.place| && p.place[r] == Some(RowQ(d));
      hide RequestQueues.Valid, BlockingLinks.Valid, Shape, RowCheck;
      pass := CheckRowAddrDep(r, false);
      if pass {
        SelectiveGetFrom(RowQ(d), r);
        assert Abs().place == p.place[r := None];
        PutTo(NandQ(g, d), r);
      }
    }

    /** The slots of rest still wait in the die's row-blocked queue. */
    ghost predicate StillWaiting(d: nat, rest: seq<nat>)
      requires Valid() && d < g.dies
      reads Repr()
    {
      Distinct(rest) && forall x :: x in rest ==>
          x < |queues.place| == reqs.Length && queues.place[x] == Some(RowQ(d)) && !reqs[x].Dma() && reqs[x].die == d
    }

    /**
     Of the slots of all, those of rest are still to be met; what was done so far to p and what is
     to be done make the whole release.
     */
    ghost predicate Released(d: nat, p: Pool<D>, all: seq<nat>, kept: seq<nat>, rest: seq<nat>)
      reads Repr()
    {
      && Valid() && d < g.dies && Shape(g, p) && (forall x :: x in all ==> x < |p.reqs|)
      && queues.links.lists[RowQ(d)] == kept + rest && StillWaiting(d, rest) && (forall x :: x in rest ==> x !in kept)
      && ReleaseRows(g, p, all) == ReleaseRows(g, Abs(), rest)
    }

    /** One round, at the position after kept, and the slot of the next round, which is looked up first. */
    method ReleaseNext(d: nat, r: nat, ghost p: Pool<D>, ghost all: seq<nat>, ghost kept: seq<nat>,
            ghost rest: seq<nat>) returns (nextReq: nat, ghost kept': seq<nat>)
      requires Released(d, p, all, kept, rest) && rest != [] && rest[0] == r
      modifies Repr()
      ensures Released(d, p, all, kept', rest[1..])
      ensures nextReq == if |rest| == 1 then REQ_SLOT_TAG_NONE else rest[1]
    {
      hide RequestQueues.Valid, BlockingLinks.Valid, Shape, RowCheck, SetRow, Put, Take, ReleaseRows;
      Dimensioned();
      assert r in rest;
      NextInRowQueue(d, |kept|);
      nextReq := queues.links.next[r];
      ghost var before := Abs();
      var pass := ReleaseRow(d, r);
      kept' := if pass then kept else kept + [r];
      ReleasedMore(d, p, all, kept, rest, before);
    }

    lemma Dimensioned()
      requires Valid()
      ensures |Abs().reqs| == |Abs().place| == reqs.Length && |Abs().queues| == QueueCount(g)
          && |Abs().chains| == g.bufs
    {
    }

    lemma ReleasedMore(d: nat, p: Pool<D>, all: seq<nat>, kept: seq<nat>, rest: seq<nat>, before: Pool<D>)
      requires Valid() && d < g.dies && Shape(g, p) && (forall x :: x in all ==> x < |p.reqs|) && Shape(g, before)
          && reqs[..] == before.reqs
      requires Distinct(rest) && rest != [] && forall x :: x in rest ==> x < |before.reqs| && x !in kept
      requires |before.place| == |before.reqs| && |before.queues| == QueueCount(g) && rest[0] in rest
      requires forall x :: x in rest ==>
          before.place[x] == Some(RowQ(d)) && !before.reqs[x].Dma() && before.reqs[x].die == d
      requires before.queues[RowQ(d)] == kept + rest && ReleaseRows(g, p, all) == ReleaseRows(g, before, rest)
      requires var r := rest[0]; var (row, ok) := RowCheck(before.reqs[r], RowOf(g, before, r), false);
               Abs() == if ok then Put(g, Take(g, SetRow(g, before, r, row), r), NandQ(g, d), r) else before
      ensures Released(d, p, all, if RowCheck(before.reqs[rest[0]], RowOf(g, before, rest[0]), false).1 then kept
          else kept + [rest[0]], rest[1..])
    {
      hide RequestQueues.Valid, BlockingLinks.Valid, RequestPool.Valid, RowCheck, RowOf, Put, Take, SetRow, Shape,
          ReleaseRows;
      ReleasedOnce(g, before, Abs(), d, kept, rest);
      assert Distinct(rest[1..]) && forall x :: x in rest[1..] ==> x in rest && x != rest[0];
      hide Distinct;
    }

    /** What waits in a die's row-blocked queue are NAND requests for the die. */
    ghost predicate RowQueueSuits(d: nat)
      requires Valid() && d < g.dies
      reads Repr()
    {
      forall r :: r in queues.links.lists[RowQ(d)] ==> r < reqs.Length && !reqs[r].Dma() && reqs[r].die == d
    }

    method ReleaseBlockedByRowAddrDepReq(d: nat)
      requires Valid() && d < g.dies && RowQueueSuits(d)
      modifies Repr()
      ensures Valid() && Abs() == ReleaseRows(g, old(Abs()), old(Abs().queues[RowQ(d)]))
    {
      RowQueue(d);
      ReleaseStarts(d);
      var reqSlotTag := queues.links.head[RowQ(d)];
      ReleaseFrom(d, reqSlotTag, Abs(), Abs().queues[RowQ(d)]);
    }

    /** The walk over the queue, from its head. */
    method ReleaseFrom(d: nat, head: nat, ghost p: Pool<D>, ghost all: seq<nat>)
      requires Released(d, p, all, [], all) && head == if all == [] then REQ_SLOT_TAG_NONE else all[0]
      modifies Repr()
      ensures Valid() && Shape(g, p) && (forall x :: x in all ==> x < |p.reqs|) && Abs() == ReleaseRows(g, p, all)
    {
      hide RequestPool.Valid, Released, ReleaseRows;
      ghost var kept: seq<nat>, rest: seq<nat> := [], all;
      var reqSlotTag := head;
      while reqSlotTag != REQ_SLOT_TAG_NONE
        invariant Released(d, p, all, kept, rest)
        invariant reqSlotTag == if rest == [] then REQ_SLOT_TAG_NONE else rest[0]
        decreases |rest|
      {
        reqSlotTag, kept := ReleaseNext(d, reqSlotTag, p, all, kept, rest);
        rest := rest[1..];
      }
      BelowNone(d, p, all, kept, rest);
    }

    /** Of the DMA requests the walk starts with, those of todo are still to be met, last first. */
    ghost predicate DmaWalk(p: Pool<D>, all: seq<nat>, done: seq<bool>, todo: seq<nat>, rxDone: bool, txDone: bool)
      reads Repr()
    {
      && Valid() && Shape(g, p) && |done| == |p.reqs| == reqs.Length && (forall x :: x in all ==> x < |p.reqs|)
      && |todo| <= |Abs().queues[DMA]| && todo == Abs().queues[DMA][..|todo|] && DmaHeads(g, Abs(), todo)
      && DmaDone(g, p, Backward(all), done, false, false) == DmaDone(g, Abs(), Backward(todo), done, rxDone, txDone)
    }

    /** One round, and the slot of the next round, which is looked up first. */
    method CheckDoneNext(r: nat, done: seq<bool>, rx: bool, tx: bool, ghost p: Pool<D>, ghost all: seq<nat>,
            ghost todo: seq<nat>)
      returns (prevReq: nat, rxDone: bool, txDone: bool)
      requires DmaWalk(p, all, done, todo, rx, tx) && todo != [] && todo[|todo| - 1] == r
      modifies Repr()
      ensures DmaWalk(p, all, done, todo[..|todo| - 1], rxDone, txDone)
      ensures prevReq == if |todo| == 1 then REQ_SLOT_TAG_NONE else todo[|todo| - 2]
    {
      hide RequestQueues.Valid, BlockingLinks.Valid, Shape, Complete, DmaHeads, Backward;
      rxDone, txDone := rx, tx;
      ghost var before := Abs();
      DmaHead(todo, |todo| - 1);
      Dimensioned();
      prevReq := queues.links.prev[r];
      if reqs[r].kind.RxDma? {
        if !rxDone {
          rxDone := done[r];
        }
        if rxDone {
          SelectiveGetFromNvmeDmaReqQ(r);
        }
      } else {
        if !txDone {
          txDone := done[r];
        }
        if txDone {
          SelectiveGetFromNvmeDmaReqQ(r);
        }
      }
      DmaMet(g, before, todo, done, rx, tx);
    }

    /** A DMA request still to be met is first in its chain, and its neighbour in the queue is the next to be met. */
    lemma DmaHead(todo: seq<nat>, i: nat)
      requires Valid() && i < |todo| && |todo| <= |Abs().queues[DMA]| && todo == Abs().queues[DMA][..|todo|]
          && DmaHeads(g, Abs(), todo)
      ensures todo[i] < queues.links.prev.Length == reqs.Length
          && queues.links.prev[todo[i]] == if i == 0 then REQ_SLOT_TAG_NONE else todo[i - 1]
      ensures queues.place[todo[i]] == Some(DMA) && First(todo[i]) && todo[i] < REQ_SLOT_TAG_NONE
    {
      assert DmaHeadAt(g, Abs(), todo[i]) && todo[i] in todo;
      queues.links.At(DMA, i);
    }

    /**
     CheckDoneNvmeDmaReq: from the last DMA request to the first. A transfer completes exactly if it or
     a later one of its direction is done.
     */
    method CheckDoneNvmeDmaReq(done: seq<bool>)
      requires Valid() && |done| == reqs.Length && DmaHeads(g, Abs(), Abs().queues[DMA])
      modifies Repr()
      ensures Valid() && Abs() == DmaDone(g, old(Abs()), Backward(old(Abs()).queues[DMA]), done, false, false)
      ensures DmaDoneRight(old(Abs()).reqs, old(Abs()).queues[DMA], done, Abs().place)
    {
      ghost var before := Abs();
      ghost var all := Abs().queues[DMA];
      assert all == all[..|all|] && forall x :: x in all ==> x < reqs.Length;
      queues.links.Ends(DMA);
      if all != [] {
        DmaHead(all, |all| - 1);
      }
      LastOfQueue(DMA);
      var reqSlotTag := queues.links.tail[DMA];
      CheckDoneFrom(reqSlotTag, done, Abs(), all);
      hide RequestPool.Valid, Shape, DmaDone, Backward, Ready, DmaHeads;
      AllReadyComplete(g, before, all, done);
    }

    lemma LastOfQueue(q: nat)
      requires Valid() && q < QueueCount(g)
      ensures q < queues.links.tail.Length && q < |queues.links.lists|
      ensures queues.links.lists[q] != [] ==> queues.links.tail[q] == queues.links.lists[q][|queues.links.lists[q]| - 1]
      ensures queues.links.lists[q] == [] ==> queues.links.tail[q] == REQ_SLOT_TAG_NONE
    {
      assert EndsAt(queues.links.lists[q], queues.links.head[q], queues.links.tail[q], REQ_SLOT_TAG_NONE);
    }

    /** The walk over the queue, from its tail. */
    method CheckDoneFrom(tail: nat, done: seq<bool>, ghost p: Pool<D>, ghost all: seq<nat>)
      requires DmaWalk(p, all, done, all, false, false)
          && tail == if all == [] then REQ_SLOT_TAG_NONE else all[|all| - 1]
      modifies Repr()
      ensures Valid() && Shape(g, p) && |done| == |p.reqs| && (forall x :: x in all ==> x < |p.reqs|)
      ensures Abs() == DmaDone(g, p, Backward(all), done, false, false)
    {
      hide RequestPool.Valid, DmaWalk, DmaDone;
      ghost var todo: seq<nat> := all;
      var reqSlotTag, rxDone, txDone := tail, false, false;
      while reqSlotTag != REQ_SLOT_TAG_NONE
        invariant DmaWalk(p, all, done, todo, rxDone, txDone)
        invariant reqSlotTag == if todo == [] then REQ_SLOT_TAG_NONE else todo[|todo| - 1]
        decreases |todo|
      {
        reqSlotTag, rxDone, txDone := CheckDoneNext(reqSlotTag, done, rxDone, txDone, p, all, todo);
        todo := todo[..|todo| - 1];
      }
      DmaWalkEnds(p, all, done, todo, rxDone, txDone);
    }

    lemma DmaWalkEnds(p: Pool<D>, all: seq<nat>, done: seq<bool>, todo: seq<nat>, rxDone: bool, txDone: bool)
      requires DmaWalk(p, all, done, todo, rxDone, txDone)
      ensures todo != [] ==> todo[|todo| - 1] < REQ_SLOT_TAG_NONE
      ensures Valid() && Shape(g, p) && |done| == |p.reqs| && (forall x :: x in all ==> x < |p.reqs|)
      ensures todo == [] ==> Abs() == DmaDone(g, p, Backward(all), done, false, false)
    {
      if todo != [] {
        DmaHead(todo, |todo| - 1);
      }
    }

    lemma ReleaseStarts(d: nat)
      requires Valid() && d < g.dies && RowQueueSuits(d)
      ensures Released(d, Abs(), queues.links.lists[RowQ(d)], [], queues.links.lists[RowQ(d)])
    {
      RowQueue(d);
      assert |queues.place| == reqs.Length && Shape(g, Abs());
      hide RequestQueues.Valid, BlockingLinks.Valid, RequestPool.Valid, Shape, ReleaseRows;
    }

    lemma BelowNone(d: nat, p: Pool<D>, all: seq<nat>, kept: seq<nat>, rest: seq<nat>)
      requires Released(d, p, all, kept, rest)
      ensures Valid() && Shape(g, p) && (forall x :: x in all ==> x < |p.reqs|)
          && (rest != [] ==> rest[0] < REQ_SLOT_TAG_NONE)
      ensures rest == [] ==> Abs() == ReleaseRows(g, p, all)
    {
      assert rest != [] ==> rest[0] in rest;
    }

    lemma RowQueue(d: nat)
      requires Valid() && d < g.dies
      ensures RowQ(d) < queues.links.head.Length && RowQ(d) < |queues.links.lists|
      ensures var s := queues.links.lists[RowQ(d)];
              && queues.links.head[RowQ(d)] == (if s == [] then REQ_SLOT_TAG_NONE else s[0])
              && Distinct(s) && forall x :: x in s ==> x < reqs.Length && queues.place[x] == Some(RowQ(d))
    {
      assert EndsAt(queues.links.lists[RowQ(d)], queues.links.head[RowQ(d)], queues.links.tail[RowQ(d)],
          REQ_SLOT_TAG_NONE);
      forall x | x in queues.links.lists[RowQ(d)]
        ensures x < reqs.Length && queues.place[x] == Some(RowQ(d))
      {
        assert InQueue(queues.links.lists, queues.place, RowQ(d), x);
      }
    }

    lemma NextInRowQueue(d: nat, i: nat)
      requires Valid() && d < g.dies && RowQ(d) < |queues.links.lists| && i < |queues.links.lists[RowQ(d)]|
      ensures var s := queues.links.lists[RowQ(d)];
              s[i] < queues.links.next.Length && queues.links.next[s[i]] == if i + 1 == |s| then REQ_SLOT_TAG_NONE
                  else s[i + 1]
    {
      queues.links.At(RowQ(d), i);
    }
  }

  /** Slot x is in the DMA queue and first in its chain. */
  ghost predicate DmaHeadAt<D>(g: Sizes, p: Pool<D>, x: nat)
    requires Shape(g, p)
  {
    x < |p.reqs| && p.place[x] == Some(DMA) && p.reqs[x].Buffered() && p.chains[p.reqs[x].buf] != []
        && p.chains[p.reqs[x].buf][0] == x
  }

  ghost predicate DmaHeads<D>(g: Sizes, p: Pool<D>, s: seq<nat>)
    requires Shape(g, p)
  {
    Distinct(s) && forall x :: x in s ==> DmaHeadAt(g, p, x)
  }

  /** A completion leaves the requests before it in the DMA queue, and what it releases goes behind them. */
  lemma CompleteDma<D>(g: Sizes, p: Pool<D>, todo: seq<nat>)
    requires Shape(g, p) && |todo| <= |p.queues[DMA]| && todo == p.queues[DMA][..|todo|] && DmaHeads(g, p, todo)
        && todo != [] && todo[|todo| - 1] < |p.reqs|
    ensures var p' := Complete(g, p, todo[|todo| - 1]); var todo' := todo[..|todo| - 1];
            |todo'| <= |p'.queues[DMA]| && todo' == p'.queues[DMA][..|todo'|] && DmaHeads(g, p', todo')
  {
    var r := todo[|todo| - 1];
    var todo' := todo[..|todo| - 1];
    assert r in todo && DmaHeadAt(g, p, r);
    WithoutMiddle(todo', p.queues[DMA][|todo'|..]);
    assert p.queues[DMA] == todo' + p.queues[DMA][|todo'|..];
    var p1 := Put(g, Take(g, p, r), FREE, r);
    assert p1.queues[DMA] == todo' + p.queues[DMA][|todo'|..][1..];
    forall x | x in todo'
      ensures x in todo && x != r && DmaHeadAt(g, p1, x)
    {
      assert DmaHeadAt(g, p, x);
    }
    hide Shape, Take;
    DmaReleased(g, p1, r, todo');
  }

  lemma DmaReleased<D>(g: Sizes, p: Pool<D>, r: nat, todo: seq<nat>)
    requires Shape(g, p) && r < |p.reqs| && Distinct(todo) && r !in todo && forall x :: x in todo ==> DmaHeadAt(g, p, x)
    requires p.reqs[r].Buffered() && p.chains[p.reqs[r].buf] != [] && p.chains[p.reqs[r].buf][0] == r
    requires |todo| <= |p.queues[DMA]| && todo == p.queues[DMA][..|todo|]
    ensures var p' := Release(g, p, r);
        |todo| <= |p'.queues[DMA]| && todo == p'.queues[DMA][..|todo|] && DmaHeads(g, p', todo)
  {
    var p1 := Unlink(g, p, r);
    var p' := Release(g, p, r);
    ReleasedPlaces(g, p, r);
    forall x | x in todo
      ensures DmaHeadAt(g, p', x)
    {
      assert DmaHeadAt(g, p, x);
      assert p.reqs[x].buf != p.reqs[r].buf;
    }
  }

  /** What a release does to places, chains and the DMA queue. */
  lemma ReleasedPlaces<D>(g: Sizes, p: Pool<D>, r: nat)
    requires Shape(g, p) && r < |p.reqs| && p.reqs[r].Buffered()
    ensures var p' := Release(g, p, r);
            && (forall x :: 0 <= x < |p.place| && p.place[x] != Some(BUF) ==> p'.place[x] == p.place[x])
            && (forall e :: 0 <= e < |p.chains| && e != p.reqs[r].buf ==> p'.chains[e] == p.chains[e])
            && |p.queues[DMA]| <= |p'.queues[DMA]| && p'.queues[DMA][..|p.queues[DMA]|] == p.queues[DMA]
  {
  }

  /** One round of CheckDoneNvmeDmaReq, seen on values. */
  lemma DmaMet<D>(g: Sizes, p: Pool<D>, todo: seq<nat>, done: seq<bool>, rx: bool, tx: bool)
    requires Shape(g, p) && |todo| <= |p.queues[DMA]| && todo == p.queues[DMA][..|todo|] && DmaHeads(g, p, todo)
        && todo != [] && |done| == |p.reqs|
    requires todo[|todo| - 1] < |p.reqs|
    ensures var r := todo[|todo| - 1];
            var rx' := rx || (p.reqs[r].kind.RxDma? && done[r]); var tx' := tx || (!p.reqs[r].kind.RxDma? && done[r]);
            var p' := if (if p.reqs[r].kind.RxDma? then rx' else tx') then Complete(g, p, r) else p;
            var todo' := todo[..|todo| - 1];
            && |todo'| <= |p'.queues[DMA]| && todo' == p'.queues[DMA][..|todo'|] && DmaHeads(g, p', todo')
            && DmaDone(g, p, Backward(todo), done, rx, tx) == DmaDone(g, p', Backward(todo'), done, rx', tx')
  {
    assert todo[|todo| - 1] in todo && DmaHeadAt(g, p, todo[|todo| - 1]);
    CompleteDma(g, p, todo);
    assert forall x :: x in todo[..|todo| - 1] ==> x in todo;
    hide Shape, Complete, DmaHeadAt;
    assert Backward(todo)[1..] == Backward(todo[..|todo| - 1]);
  }

  // ---------- which transfers complete ----------

  ghost predicate AreSlots<D>(reqs: seq<Req<D>>, todo: seq<nat>) {
    forall i :: 0 <= i < |todo| ==> todo[i] < |reqs|
  }

  /** The transfer at position i is done, or one of its direction further back in the queue is. */
  ghost predicate Ready<D>(reqs: seq<Req<D>>, todo: seq<nat>, done: seq<bool>, rx: bool, tx: bool, i: nat)
    requires i < |todo| && |done| == |reqs| && AreSlots(reqs, todo)
  {
    || (if reqs[todo[i]].kind.RxDma? then rx else tx)
    || exists j :: i <= j < |todo| && DoneLike(reqs, todo, done, i, j)
  }

  predicate DoneLike<D>(reqs: seq<Req<D>>, todo: seq<nat>, done: seq<bool>, i: nat, j: nat)
    requires i < |todo| && j < |todo| && |done| == |reqs| && todo[i] < |reqs| && todo[j] < |reqs|
  {
    done[todo[j]] && (reqs[todo[j]].kind.RxDma? <==> reqs[todo[i]].kind.RxDma?)
  }

  /** A completion moves the completed slot and one that was buffer-blocked, and nothing else. */
  lemma CompleteMoves<D>(g: Sizes, p: Pool<D>, r: nat, x: nat)
    requires Shape(g, p) && r < |p.reqs| && x < |p.place| && x != r && p.place[x].Some? && p.place[x] != Some(BUF)
    ensures x < |Complete(g, p, r).place| && Complete(g, p, r).place[x] == p.place[x]
  {
  }

  lemma CompleteFrees<D>(g: Sizes, p: Pool<D>, r: nat)
    requires Shape(g, p) && r < |p.reqs|
    ensures r < |Complete(g, p, r).place| && Complete(g, p, r).place[r] == Some(FREE)
  {
  }

  lemma {:induction false} DmaLeavesOthers<D>(g: Sizes, p: Pool<D>, met: seq<nat>, done: seq<bool>, rx: bool, tx: bool,
          x: nat)
    requires Shape(g, p) && |done| == |p.reqs| && (forall r :: r in met ==> r < |p.reqs|)
    requires x !in met && x < |p.place| && p.place[x].Some? && p.place[x] != Some(BUF)
    ensures x < |DmaDone(g, p, met, done, rx, tx).place| && DmaDone(g, p, met, done, rx, tx).place[x] == p.place[x]
    decreases |met|
  {
    if met != [] {
      var r := met[0];
      assert r in met && forall y :: y in met[1..] ==> y in met;
      var rx' := rx || (p.reqs[r].kind.RxDma? && done[r]);
      var tx' := tx || (!p.reqs[r].kind.RxDma? && done[r]);
      CompleteMoves(g, p, r, x);
      hide Complete;
      DmaLeavesOthers(g, if if p.reqs[r].kind.RxDma? then rx' else tx' then Complete(g, p, r) else p, met[1..], done,
          rx', tx', x);
    }
  }

  lemma ReadyBefore<D>(reqs: seq<Req<D>>, todo: seq<nat>, done: seq<bool>, rx: bool, tx: bool, i: nat)
    requires i < |todo| && |done| == |reqs| && AreSlots(reqs, todo)
    ensures AreSlots(reqs, todo[..|todo| - 1]) && todo[|todo| - 1] < |reqs|
    ensures var r := todo[|todo| - 1];
            var rx' := rx || (reqs[r].kind.RxDma? && done[r]); var tx' := tx || (!reqs[r].kind.RxDma? && done[r]);
            Ready(reqs, todo, done, rx, tx, i) <==>
            if i < |todo| - 1 then Ready(reqs, todo[..|todo| - 1], done, rx', tx', i)
            else if reqs[r].kind.RxDma? then rx' else tx'
  {
    var n := |todo| - 1;
    var r := todo[n];
    assert forall j :: i <= j < n ==>
        (DoneLike(reqs, todo[..n], done, i, j) <==> DoneLike(reqs, todo, done, i, j));
    assert DoneLike(reqs, todo, done, i, n) <==> done[r] && (reqs[r].kind.RxDma? <==> reqs[todo[i]].kind.RxDma?);
  }

  lemma HeadsAreSlots<D>(g: Sizes, p: Pool<D>, todo: seq<nat>)
    requires Shape(g, p) && DmaHeads(g, p, todo)
    ensures AreSlots(p.reqs, todo) && |p.place| == |p.reqs|
    ensures forall i :: 0 <= i < |todo| ==> p.place[todo[i]] == Some(DMA)
  {
    forall i | 0 <= i < |todo|
      ensures todo[i] < |p.reqs| && p.place[todo[i]] == Some(DMA)
    {
      assert todo[i] in todo && DmaHeadAt(g, p, todo[i]);
    }
  }

  /** Exactly the ready transfers complete; the others stay in the DMA queue. */
  lemma {:induction false} ReadyComplete<D>(g: Sizes, p: Pool<D>, todo: seq<nat>, done: seq<bool>, rx: bool, tx: bool,
          i: nat)
    requires Shape(g, p) && |todo| <= |p.queues[DMA]| && todo == p.queues[DMA][..|todo|] && DmaHeads(g, p, todo)
        && |done| == |p.reqs| && i < |todo|
    ensures AreSlots(p.reqs, todo) && (forall x :: x in Backward(todo) ==> x < |p.reqs|)
    ensures var p' := DmaDone(g, p, Backward(todo), done, rx, tx);
            && todo[i] < |p'.place|
            && p'.place[todo[i]] == if Ready(p.reqs, todo, done, rx, tx, i) then Some(FREE) else Some(DMA)
    decreases |todo|
  {
    hide Shape, Complete, DmaHeadAt, DmaDone, Backward, Ready;
    HeadsAreSlots(g, p, todo);
    var n := |todo| - 1;
    var r, todo' := todo[n], todo[..n];
    var rx' := rx || (p.reqs[r].kind.RxDma? && done[r]);
    var tx' := tx || (!p.reqs[r].kind.RxDma? && done[r]);
    var p' := if if p.reqs[r].kind.RxDma? then rx' else tx' then Complete(g, p, r) else p;
    DmaMet(g, p, todo, done, rx, tx);
    ReadyBefore(p.reqs, todo, done, rx, tx, i);
    if i < n {
      ReadyComplete(g, p', todo', done, rx', tx', i);
    } else {
      CompleteFrees(g, p, r);
      LastLeft(todo);
      DmaLeavesOthers(g, p', Backward(todo'), done, rx', tx', r);
    }
  }

  ghost predicate DmaDoneRight<D>(reqs: seq<Req<D>>, queue: seq<nat>, done: seq<bool>, place: seq<Option<nat>>) {
    && |done| == |reqs| == |place| && AreSlots(reqs, queue)
    && forall i :: 0 <= i < |queue| ==>
      place[queue[i]] == if Ready(reqs, queue, done, false, false, i) then Some(FREE) else Some(DMA)
  }

  lemma AllReadyComplete<D>(g: Sizes, p: Pool<D>, all: seq<nat>, done: seq<bool>)
    requires Shape(g, p) && all == p.queues[DMA] && DmaHeads(g, p, all) && |done| == |p.reqs|
    ensures (forall x :: x in Backward(all) ==> x < |p.reqs|)
    ensures DmaDoneRight(p.reqs, all, done, DmaDone(g, p, Backward(all), done, false, false).place)
  {
    HeadsAreSlots(g, p, all);
    assert all == p.queues[DMA][..|all|];
    assert forall x :: x in all ==> DmaHeadAt(g, p, x);
    hide DmaDone, DmaHeads, Ready, Backward;
    forall i | 0 <= i < |all|
      ensures all[i] < |p.reqs|
          && DmaDone(g, p, Backward(all), done, false, false).place[all[i]]
             == if Ready(p.reqs, all, done, false, false, i) then Some(FREE) else Some(DMA)
    {
      ReadyComplete(g, p, all, done, false, false, i);
    }
  }

  lemma LastLeft(todo: seq<nat>)
    requires todo != [] && Distinct(todo)
    ensures todo[|todo| - 1] !in todo[..|todo| - 1]
  {
  }

  lemma RefusedIsUnchanged<D>(q: Req<D>, row: Row)
    ensures !RowCheck(q, row, false).1 ==> RowCheck(q, row, false).0 == row
  {
  }

  /** One round, seen on values. */
  lemma ReleasedOnce<D>(g: Sizes, before: Pool<D>, after: Pool<D>, d: nat, kept: seq<nat>, rest: seq<nat>)
    requires Shape(g, before) && d < g.dies && Distinct(rest) && rest != []
        && (forall x :: x in rest ==> x < |before.reqs| && x !in kept)
    requires rest[0] in rest && before.place[rest[0]] == Some(RowQ(d)) && before.reqs[rest[0]].die == d
        && before.queues[RowQ(d)] == kept + rest
    requires var (row, ok) := RowCheck(before.reqs[rest[0]], RowOf(g, before, rest[0]), false);
             after == if ok then Put(g, Take(g, SetRow(g, before, rest[0], row), rest[0]), NandQ(g, d), rest[0])
                 else before
    ensures Shape(g, after) && after.reqs == before.reqs && |after.place| == |before.place|
    ensures after.queues[RowQ(d)] == (if RowCheck(before.reqs[rest[0]], RowOf(g, before, rest[0]), false).1 then kept
        else kept + [rest[0]]) + rest[1..]
    ensures forall x :: x in rest[1..] ==> x in rest && after.place[x] == before.place[x]
    ensures ReleaseRows(g, before, rest) == ReleaseRows(g, after, rest[1..])
  {
    var r := rest[0];
    assert r in rest && forall x :: x in rest[1..] ==> x in rest && x != r;
    var (row, ok) := RowCheck(before.reqs[r], RowOf(g, before, r), false);
    hide RowCheck, Shape;
    if ok {
      WithoutMiddle(kept, rest);
      SetRowQueues(g, before, r, row);
    } else {
      assert (kept + [r]) + rest[1..] == kept + rest;
    }
  }

  lemma SetRowQueues<D>(g: Sizes, p: Pool<D>, r: nat, row: Row)
    requires Shape(g, p) && r < |p.reqs|
    ensures SetRow(g, p, r, row) == p.(rows := SetRow(g, p, r, row).rows)
  {
  }

  lemma WithoutMiddle(kept: seq<nat>, rest: seq<nat>)
    requires rest != [] && rest[0] !in kept
    ensures Without(kept + rest, rest[0]) == kept + rest[1..]
  {
    if kept == [] {
      assert kept + rest == rest && kept + rest[1..] == rest[1..];
    } else {
      WithoutMiddle(kept[1..], rest);
      assert (kept + rest)[1..] == kept[1..] + rest && [kept[0]] + (kept[1..] + rest[1..]) == kept + rest[1..];
    }
  }

  function NoRows(g: Sizes): (r: seq<seq<Row>>)
    ensures |r| == g.dies && forall d :: 0 <= d < g.dies ==> |r[d]| == g.blocks && forall b :: 0 <= b < g.blocks ==>
        r[d][b] == Row(0, 0, false)
  {
    seq(g.dies, _ => seq(g.blocks, _ => Row(0, 0, false)))
  }

  lemma InitialShape<D>(g: Sizes, reqs: seq<Req<D>>, place: seq<Option<nat>>, queues: seq<seq<nat>>,
          chains: seq<seq<nat>>)
    requires forall r :: 0 <= r < |reqs| ==> InRange(g, reqs[r])
    requires place == seq(|reqs|, _ => Some(FREE)) && queues == seq(QueueCount(g), _ => [])[FREE := Ascending(|reqs|)]
        && chains == seq(g.bufs, _ => [])
    ensures Shape(g, Pool(reqs, place, queues, chains, NoRows(g)))
    ensures Pool(reqs, place, queues, chains, NoRows(g)) == InitPool(g, reqs, Ascending(|reqs|))
  {
    assert InitPool(g, reqs, Ascending(|reqs|)).queues == queues;
    assert InitPool(g, reqs, Ascending(|reqs|)).rows == NoRows(g);
  }

  /** InitReqPool and InitDependencyTable. */
  method InitRequestPool<D>(g: Sizes, reqs: array<Req<D>>) returns (p: RequestPool<D>)
    requires 0 < reqs.Length <= REQ_SLOT_TAG_NONE && forall r :: 0 <= r < reqs.Length ==> InRange(g, reqs[r])
    ensures p.Valid() && p.g == g && p.reqs == reqs && fresh(p) && fresh(p.queues) && fresh(p.blocking)
    ensures p.Abs() == InitPool(g, reqs[..], Ascending(reqs.Length))
  {
    var queues := InitReqPool(g, reqs.Length);
    var blocking := new BlockingLinks(reqs.Length, g.bufs);
    hide RequestQueues.Valid, BlockingLinks.Valid, RequestPool.Valid, Ascending, Shape, NoRows, InitPool;
    InitialShape(g, reqs[..], queues.place, queues.links.lists, blocking.chains);
    p := new RequestPool(g, reqs, queues, blocking);
  }

  /** What holds in every run, whatever is submitted, gives the methods what they require of their callers. */
  lemma InvariantSuffices<D>(g: Sizes, p: Pool<D>, held: Option<nat>)
    requires DP.Ok(g, p, held)
    ensures DmaHeads(g, p, p.queues[DMA])
    ensures forall d, r :: 0 <= d < g.dies && r in p.queues[RowQ(d)] ==>
        r < |p.reqs| && !p.reqs[r].Dma() && p.reqs[r].die == d
    ensures forall r :: 0 <= r < |p.reqs| && RS.MayComplete(g, p, r) ==>
              if p.reqs[r].Buffered() then p.chains[p.reqs[r].buf] != [] && p.chains[p.reqs[r].buf][0] == r
              else forall e :: 0 <= e < g.bufs ==> r !in p.chains[e]
    ensures held.Some? ==> held.value < |p.reqs| && p.place[held.value] == None
    ensures held.Some? ==>
              if p.reqs[held.value].Buffered() then held.value in p.chains[p.reqs[held.value].buf]
              else forall e :: 0 <= e < g.bufs ==> held.value !in p.chains[e]
    ensures forall r, e :: 0 <= r < |p.reqs| && p.place[r] == None && held != Some(r) && 0 <= e < g.bufs ==>
              r !in p.chains[e]
  {
    hide DP.CountsOk;
    forall r, e | 0 <= r < |p.reqs| && 0 <= e < g.bufs
      ensures r in p.chains[e] <==> RS.LinkedTo(p, held, r, e)
    {
      assert DP.ChainInOrder(g, p, held, None, e);
    }
    forall r | 0 <= r < |p.reqs| && p.place[r].Some? && p.place[r].value > BUF && p.reqs[r].Buffered()
      ensures p.chains[p.reqs[r].buf] != [] && p.chains[p.reqs[r].buf][0] == r
    {
      DP.HeadIsOut(g, p, held, r);
    }
    forall d, r | 0 <= d < g.dies && r in p.queues[RowQ(d)]
      ensures r < |p.reqs| && !p.reqs[r].Dma() && p.reqs[r].die == d
    {
      assert RS.Suits(g, p.reqs[r], p.place[r].value);
    }
    forall x | x in p.queues[DMA]
      ensures DmaHeadAt(g, p, x)
    {
      assert RS.Suits(g, p.reqs[x], p.place[x].value);
    }
  }
}
