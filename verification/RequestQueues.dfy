/** The request queues in place: links threaded through the slot table, a queue type per slot, and the counters. */
module RequestQueues {
  import opened Common
  import opened IndexLists
  import opened BlockingLinks
  import opened R = Requests

  const REQ_SLOT_TAG_FAIL: nat := 0xffff

  /** reqQueueType: what a slot says about the queue it is in. */
  function QueueType(g: Sizes, place: Option<nat>): nat {
    match place
    case None => 0
    case Some(q) =>
      if q == FREE then 1 else if q == SLICE then 2 else if q == BUF then 3 else if q == DMA then 5
      else if q < 4 + g.dies then 4 else 6
  }

  /** How many slots are in queues from, ..., from + n - 1. */
  ghost function Total(queues: seq<seq<nat>>, from: nat, n: nat): nat
    requires from + n <= |queues|
  {
    if n == 0 then 0 else Total(queues, from, n - 1) + |queues[from + n - 1]|
  }

  lemma {:induction false} TotalAfter(queues: seq<seq<nat>>, q: nat, s: seq<nat>, from: nat, n: nat)
    requires from + n <= |queues| && q < |queues|
    ensures Total(queues[q := s], from, n) == Total(queues, from, n) + if from <= q < from + n then |s| - |queues[q]|
        else 0
  {
    if n > 0 {
      TotalAfter(queues, q, s, from, n - 1);
    }
  }

  lemma {:induction false} TotalOfEmpty(queues: seq<seq<nat>>, from: nat, n: nat)
    requires from + n <= |queues| && forall q :: from <= q < from + n ==> queues[q] == []
    ensures Total(queues, from, n) == 0
  {
    if n > 0 {
      TotalOfEmpty(queues, from, n - 1);
    }
  }

  ghost predicate InQueue(queues: seq<seq<nat>>, place: seq<Option<nat>>, q: nat, r: nat)
    requires q < |queues|
  {
    r in queues[q] <==> r < |place| && place[r] == Some(q)
  }

  /** Every slot is in the queue its place names and in no other. */
  ghost predicate Filed(queues: seq<seq<nat>>, place: seq<Option<nat>>) {
    && (forall q: nat, r: nat :: q < |queues| ==> InQueue(queues, place, q, r))
    && (forall r :: 0 <= r < |place| && place[r].Some? ==> place[r].value < |queues|)
  }

  lemma FiledPut(queues: seq<seq<nat>>, place: seq<Option<nat>>, q: nat, r: nat)
    requires Filed(queues, place) && q < |queues| && r < |place| && place[r] == None
    ensures Filed(queues[q := queues[q] + [r]], place[r := Some(q)]) && Loose(queues, r)
  {
    var queues', place' := queues[q := queues[q] + [r]], place[r := Some(q)];
    forall p: nat, t: nat | p < |queues|
      ensures InQueue(queues', place', p, t)
    {
      assert InQueue(queues, place, p, t);
    }
    forall p | 0 <= p < |queues|
      ensures r !in queues[p]
    {
      assert InQueue(queues, place, p, r);
    }
  }

  lemma FiledTake(queues: seq<seq<nat>>, place: seq<Option<nat>>, q: nat, r: nat)
    requires Filed(queues, place) && q < |queues| && r < |place| && place[r] == Some(q) && Distinct(queues[q])
    ensures r in queues[q] && Filed(queues[q := Without(queues[q], r)], place[r := None])
    ensures |Without(queues[q], r)| == |queues[q]| - 1
  {
    assert InQueue(queues, place, q, r);
    WithoutMembers(queues[q], r);
    var i :| 0 <= i < |queues[q]| && queues[q][i] == r;
    WithoutAt(queues[q], i);
    var queues', place' := queues[q := Without(queues[q], r)], place[r := None];
    forall p: nat, t: nat | p < |queues|
      ensures InQueue(queues', place', p, t)
    {
      assert InQueue(queues, place, p, t);
    }
  }

  class RequestQueues {
    const g: Sizes
    const n: nat
    const reqQueueType: array<nat>
    const reqCnt: array<int>
    const links: IndexLists
    var notCompletedNandReqCnt: int
    var blockedReqCnt: int
    ghost var place: seq<Option<nat>>

    ghost function Repr(): set<object> {
      {this, reqQueueType, reqCnt} + links.Repr()
    }

    ghost predicate Dimensions()
      reads this, links
    {
      && n <= REQ_SLOT_TAG_NONE == links.none && reqQueueType.Length == links.prev.Length == |place| == n
      && reqCnt.Length == QueueCount(g) == |links.lists|
      && {this, reqQueueType, reqCnt} !! links.Repr()
    }

    ghost predicate Counted()
      requires Dimensions()
      reads this, reqCnt, links
    {
      && (forall q :: 0 <= q < QueueCount(g) ==> reqCnt[q] == |links.lists[q]|)
      && blockedReqCnt == |links.lists[BUF]| + Total(links.lists, 4, g.dies)
      && notCompletedNandReqCnt == Total(links.lists, 4 + g.dies, g.dies)
    }

    ghost predicate Valid()
      reads Repr()
    {
      && Dimensions() && links.Valid() && Filed(links.lists, place) && Counted()
      && forall r :: 0 <= r < n ==> reqQueueType[r] == QueueType(g, place[r])
    }

    /** InitReqPool, around links that have every slot in the free queue. */
    constructor (g: Sizes, n: nat, links: IndexLists)
      requires 0 < n <= REQ_SLOT_TAG_NONE == links.none && links.Valid() && links.prev.Length == n
      requires links.lists == seq(QueueCount(g), _ => [])[FREE := Ascending(n)]
      ensures Valid() && fresh(Repr() - links.Repr()) && this.g == g && this.n == n && this.links == links
      ensures place == seq(n, _ => Some(FREE))
    {
      hide IndexLists.Valid, Filed, RequestQueues.Counted;
      this.g := g;
      this.n := n;
      this.links := links;
      reqQueueType := new nat[n](_ => 1);
      reqCnt := new int[QueueCount(g)](q => if q == FREE then n else 0);
      notCompletedNandReqCnt := 0;
      blockedReqCnt := 0;
      place := seq(n, _ => Some(FREE));
      new;
      StartsFiled();
    }

    /** Every slot is in the free queue, and nothing is counted elsewhere. */
    lemma StartsFiled()
      requires Dimensions() && links.lists == seq(QueueCount(g), _ => [])[FREE := Ascending(n)]
          && place == seq(n, _ => Some(FREE))
      requires (forall q :: 0 <= q < QueueCount(g) ==> reqCnt[q] == if q == FREE then n else 0)
          && notCompletedNandReqCnt == blockedReqCnt == 0
      ensures Filed(links.lists, place) && Counted()
    {
      TotalOfEmpty(links.lists, 4, g.dies);
      TotalOfEmpty(links.lists, 4 + g.dies, g.dies);
      forall r: nat
        ensures r in Ascending(n) <==> r < n
      {
        assert r < n ==> Ascending(n)[r] == r;
      }
      forall q: nat, r: nat | q < |links.lists|
        ensures InQueue(links.lists, place, q, r)
      {
      }
    }

    lemma CountedAfter(queues: seq<seq<nat>>, q: nat, s: seq<nat>)
      requires |queues| == QueueCount(g) && q < |queues|
      ensures Total(queues[q := s], 4, g.dies) == Total(queues, 4, g.dies) + if 4 <= q < 4 + g.dies
          then |s| - |queues[q]| else 0
      ensures Total(queues[q := s], 4 + g.dies, g.dies) == Total(queues, 4 + g.dies, g.dies) + if 4 + g.dies <= q
          then |s| - |queues[q]| else 0
    {
      TotalAfter(queues, q, s, 4, g.dies);
      TotalAfter(queues, q, s, 4 + g.dies, g.dies);
    }

    /** reqCnt of queue q, and the sum it is part of, if any. */
    method Count(q: nat, delta: int)
      requires reqCnt.Length == QueueCount(g) && q < QueueCount(g)
      modifies reqCnt, this`blockedReqCnt, this`notCompletedNandReqCnt
      ensures reqCnt[q] == old(reqCnt[q]) + delta && forall p :: 0 <= p < reqCnt.Length && p != q ==>
          reqCnt[p] == old(reqCnt[p])
      ensures blockedReqCnt == old(blockedReqCnt) + if q == BUF || 4 <= q < 4 + g.dies then delta else 0
      ensures notCompletedNandReqCnt == old(notCompletedNandReqCnt) + if q >= 4 + g.dies then delta else 0
    {
      reqCnt[q] := reqCnt[q] + delta;
      if q == BUF || 4 <= q < 4 + g.dies {
        blockedReqCnt := blockedReqCnt + delta;
      } else if q >= 4 + g.dies {
        notCompletedNandReqCnt := notCompletedNandReqCnt + delta;
      }
    }

    /** What the sums come to when queue q becomes s. */
    ghost predicate WouldCount(q: nat, s: seq<nat>)
      requires |links.lists| == QueueCount(g) && q < |links.lists|
      reads this, links
    {
      var blocked := blockedReqCnt + if q == BUF || 4 <= q < 4 + g.dies then |s| - |links.lists[q]| else 0;
      && blocked == |links.lists[q := s][BUF]| + Total(links.lists[q := s], 4, g.dies)
      && notCompletedNandReqCnt + (if q >= 4 + g.dies then |s| - |links.lists[q]| else 0) == Total(links.lists[q := s],
          4 + g.dies, g.dies)
    }

    lemma BeforePut(q: nat, r: nat)
      requires Valid() && q < QueueCount(g) && r < n && place[r] == None
      ensures Loose(links.lists, r) && Filed(links.lists[q := links.lists[q] + [r]], place[r := Some(q)])
          && WouldCount(q, links.lists[q] + [r])
    {
      FiledPut(links.lists, place, q, r);
      CountedAfter(links.lists, q, links.lists[q] + [r]);
    }

    lemma BeforeTake(q: nat, r: nat)
      requires Valid() && q < QueueCount(g) && r < n && place[r] == Some(q)
      ensures r in links.lists[q] && |Without(links.lists[q], r)| == |links.lists[q]| - 1
      ensures Filed(links.lists[q := Without(links.lists[q], r)], place[r := None])
          && WouldCount(q, Without(links.lists[q], r))
    {
      assert Distinct(links.lists[q]);
      FiledTake(links.lists, place, q, r);
      CountedAfter(links.lists, q, Without(links.lists[q], r));
    }

    lemma HeadIsFiled(q: nat)
      requires Valid() && q < QueueCount(g) && links.lists[q] != []
      ensures var s: seq<nat> := links.lists[q]; s[0] < n && place[s[0]] == Some(q) && Without(s, s[0]) == s[1..]
    {
      assert InQueue(links.lists, place, q, links.lists[q][0]) && links.lists[q][0] in links.lists[q];
    }

    /**
     PutToFreeReqQ, PutToSliceReqQ, PutToBlockedByBufDepReqQ, PutToNvmeDmaReqQ,
     PutToBlockedByRowAddrDepReqQ, PutToNandReqQ.
     */
    method PutTo(q: nat, r: nat)
      requires Valid() && q < QueueCount(g) && r < n && place[r] == None
      modifies Repr()
      ensures Valid() && place == old(place)[r := Some(q)]
          && links.lists == old(links.lists)[q := old(links.lists[q]) + [r]]
    {
      hide Filed, Total, IndexLists.Valid, Loose, IndexLists.LooseKept;
      BeforePut(q, r);
      links.PutTail(q, r);
      reqQueueType[r] := QueueType(g, Some(q));
      Count(q, 1);
      place := place[r := Some(q)];
    }

    /** The SelectiveGetFrom operations, up to the point where the slot is in no queue. */
    method SelectiveGetFrom(q: nat, r: nat)
      requires Valid() && q < QueueCount(g) && r < n && place[r] == Some(q)
      modifies Repr()
      ensures Valid() && place == old(place)[r := None]
          && links.lists == old(links.lists)[q := Without(old(links.lists[q]), r)]
    {
      hide Filed, Total, IndexLists.Valid, Without, Distinct, InQueue, IndexLists.LooseKept, IndexLists.Clean, Loose;
      BeforeTake(q, r);
      links.Unlink(q, r);
      reqQueueType[r] := QueueType(g, None);
      Count(q, -1);
      place := place[r := None];
    }

    /** Removal of the head of a non-empty queue. */
    method GetHead(q: nat) returns (r: nat)
      requires Valid() && q < QueueCount(g) && links.lists[q] != []
      modifies Repr()
      ensures r < n && old(place[r]) == Some(q) && r == old(links.lists[q])[0]
      ensures Valid() && place == old(place)[r := None]
          && links.lists == old(links.lists)[q := Without(old(links.lists[q]), r)]
    {
      hide Filed, Total, IndexLists.Valid, Without, Distinct, InQueue, IndexLists.LooseKept, IndexLists.Clean, Loose;
      HeadIsFiled(q);
      ghost var s: seq<nat> := links.lists[q];
      BeforeTake(q, s[0]);
      r := links.PopHead(q);
      assert links.lists == old(links.lists)[q := Without(s, r)];
      reqQueueType[r] := QueueType(g, None);
      Count(q, -1);
      place := place[r := None];
    }

    /** GetFromSliceReqQ. */
    method GetFromSliceReqQ() returns (r: nat)
      requires Valid()
      modifies Repr()
      ensures Valid()
      ensures if old(links.lists[SLICE]) == []
          then r == REQ_SLOT_TAG_FAIL && place == old(place) && links.lists == old(links.lists)
              else r == old(links.lists[SLICE])[0] && r < n && place == old(place)[r := None]
                   && links.lists == old(links.lists)[SLICE := Without(old(links.lists[SLICE]), r)]
    {
      links.Ends(SLICE);
      if links.head[SLICE] == REQ_SLOT_TAG_NONE {
        return REQ_SLOT_TAG_FAIL;
      }
      r := GetHead(SLICE);
    }
  }

  /** InitReqPool. */
  method InitReqPool(g: Sizes, n: nat) returns (p: RequestQueues)
    requires 0 < n <= REQ_SLOT_TAG_NONE
    ensures p.Valid() && fresh(p.Repr()) && p.g == g && p.n == n && p.place == seq(n, _ => Some(FREE))
    ensures p.links.lists == seq(QueueCount(g), _ => [])[FREE := Ascending(n)]
  {
    var links := new IndexLists.Filled(n, QueueCount(g), REQ_SLOT_TAG_NONE);
    hide IndexLists.Valid, Ascending, RequestQueues.Valid;
    p := new RequestQueues(g, n, links);
  }

  /** Slots are neither lost nor duplicated: those in queues and those in somebody's hand make up the pool. */
  lemma SlotsConserved(queues: seq<seq<nat>>, place: seq<Option<nat>>)
    requires Filed(queues, place) && forall q :: 0 <= q < |queues| ==> Distinct(queues[q])
    ensures Total(queues, 0, |queues|) + |set r: nat | r < |place| && place[r].None?| == |place|
  {
    TotalIsFiled(queues, place, |queues|);
    assert forall r :: 0 <= r < |place| && place[r].Some? ==> place[r].value < |queues|;
    var out := set r: nat | r < |place| && place[r].None?;
    var filed := set r: nat | r < |place| && place[r].Some? && place[r].value < |queues|;
    hide Filed, Total;
    assert filed !! out;
    assert Below(|place|) == filed + out by {
      forall r: nat
        ensures r in filed + out <==> r < |place|
      {
      }
    }
  }

  lemma {:induction false} TotalIsFiled(queues: seq<seq<nat>>, place: seq<Option<nat>>, n: nat)
    requires Filed(queues, place) && n <= |queues| && forall q :: 0 <= q < |queues| ==> Distinct(queues[q])
    ensures Total(queues, 0, n) == |set r: nat | r < |place| && place[r].Some? && place[r].value < n|
  {
    var filed := set r: nat | r < |place| && place[r].Some? && place[r].value < n;
    if n == 0 {
      assert filed == {};
    } else {
      TotalIsFiled(queues, place, n - 1);
      var before := set r: nat | r < |place| && place[r].Some? && place[r].value < n - 1;
      var queue := queues[n - 1];
      var last := set r | r in queue;
      DistinctSize(queue);
      forall r: nat
        ensures r in filed <==> r in before || r in last
      {
        assert InQueue(queues, place, n - 1, r);
      }
      assert filed == before + last;
      forall r: nat | r in last
        ensures r !in before
      {
        assert InQueue(queues, place, n - 1, r);
      }
    }
  }
}
