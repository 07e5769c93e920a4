/**
 The dependency mechanisms for whatever is submitted. As in module FlashDiscipline nothing is asked of
 the requests: in every run each buffer entry has one chain, first in, first out, of which only the
 first request can be out of the buffer-blocked queue, and the counters of the dependency table count
 the reads that wait.
 */
module Dependencies {
  import opened Common
  import opened Requests
  import RS = RequestSafety
  import FD = FlashDiscipline

  // ---------- chains ----------

  /** Of the requests of a chain exactly those behind the first are blocked by it; held and free are exempt. */
  ghost predicate BlockedAt<D>(p: Pool<D>, held: Option<nat>, free: Option<nat>, c: seq<nat>, i: nat)
    requires i < |c|
  {
    && c[i] < |p.place|
    && (held != Some(c[i]) && free != Some(c[i]) ==> (p.place[c[i]] == Some(BUF) <==> i > 0))
    && (free == Some(c[i]) ==> i == 0)
  }

  /** The chain of entry e is of the requests that were linked to it and have not completed. */
  ghost predicate ChainInOrder<D>(g: Sizes, p: Pool<D>, held: Option<nat>, free: Option<nat>, e: nat)
    requires Shape(g, p) && e < g.bufs
  {
    && Distinct(p.chains[e])
    && (forall r: nat :: r in p.chains[e] <==> RS.LinkedTo(p, held, r, e))
    && (forall i: nat :: i < |p.chains[e]| ==> BlockedAt(p, held, free, p.chains[e], i))
  }

  ghost predicate ChainsInOrder<D>(g: Sizes, p: Pool<D>, held: Option<nat>, free: Option<nat>)
    requires Shape(g, p)
  {
    forall e :: 0 <= e < g.bufs ==> ChainInOrder(g, p, held, free, e)
  }

  // ---------- counters ----------

  /** Slot r counts as a waiting read of the block; out is a slot just taken out of its queue. */
  predicate Counted<D>(g: Sizes, p: Pool<D>, held: Option<nat>, out: Option<nat>, d: nat, b: nat, r: nat): (c: bool)
    ensures c ==> r < |p.reqs|
  {
    r < |p.reqs| && p.reqs[r].On(d, b) && p.reqs[r].kind.NandRead?
    && (out == Some(r) || RS.StageOf(g, p, held, r).Waiting?)
  }

  ghost function WaitingReads<D>(g: Sizes, p: Pool<D>, held: Option<nat>, out: Option<nat>, d: nat, b: nat): set<nat> {
    set r: nat | r < |p.reqs| && Counted(g, p, held, out, d, b, r)
  }

  ghost predicate CountOk<D>(g: Sizes, p: Pool<D>, held: Option<nat>, out: Option<nat>, d: nat, b: nat)
    requires Shape(g, p) && d < g.dies && b < g.blocks
  {
    p.rows[d][b].readers == |WaitingReads(g, p, held, out, d, b)|
  }

  ghost predicate CountsOk<D>(g: Sizes, p: Pool<D>, held: Option<nat>, out: Option<nat>)
    requires Shape(g, p)
  {
    forall d, b :: 0 <= d < g.dies && 0 <= b < g.blocks ==> CountOk(g, p, held, out, d, b)
  }

  /** The slots of the queues, the chains and the counters are in order. */
  ghost predicate Ok<D>(g: Sizes, p: Pool<D>, held: Option<nat>) {
    && Shape(g, p) && RS.QueuesOk(g, p) && RS.HeldOk(p, held)
    && ChainsInOrder(g, p, held, None) && CountsOk(g, p, held, None)
  }

  // ---------- counting, one move at a time ----------

  /** Only slot r may count differently, and the block's counter changes with it. */
  ghost predicate Recounts<D>(g: Sizes, p: Pool<D>, held: Option<nat>, out: Option<nat>, p': Pool<D>,
          held': Option<nat>, out': Option<nat>, r: nat, d: nat, b: nat)
    requires Shape(g, p) && Shape(g, p') && d < g.dies && b < g.blocks
  {
    && (forall t: nat :: t != r ==> (Counted(g, p', held', out', d, b, t) <==> Counted(g, p, held, out, d, b, t)))
    && p'.rows[d][b].readers + (if Counted(g, p, held, out, d, b, r) then 1 else 0)
       == p.rows[d][b].readers + (if Counted(g, p', held', out', d, b, r) then 1 else 0)
  }

  lemma OneChanges(w: set<nat>, w': set<nat>, r: nat)
    requires forall t: nat :: t != r ==> (t in w' <==> t in w)
    ensures |w'| + (if r in w then 1 else 0) == |w| + (if r in w' then 1 else 0)
  {
    assert w - {r} == w' - {r};
    assert w == if r in w then (w - {r}) + {r} else w - {r};
    assert w' == if r in w' then (w' - {r}) + {r} else w' - {r};
  }

  lemma CountMoves<D>(g: Sizes, p: Pool<D>, held: Option<nat>, out: Option<nat>, p': Pool<D>, held': Option<nat>,
          out': Option<nat>, r: nat)
    requires Shape(g, p) && Shape(g, p') && CountsOk(g, p, held, out)
    requires forall d, b :: 0 <= d < g.dies && 0 <= b < g.blocks ==>
        Recounts(g, p, held, out, p', held', out', r, d, b)
    ensures CountsOk(g, p', held', out')
  {
    hide Shape, Counted;
    forall d, b | 0 <= d < g.dies && 0 <= b < g.blocks
      ensures CountOk(g, p', held', out', d, b)
    {
      assert CountOk(g, p, held, out, d, b) && Recounts(g, p, held, out, p', held', out', r, d, b);
      OneChanges(WaitingReads(g, p, held, out, d, b), WaitingReads(g, p', held', out', d, b), r);
    }
  }

  // ---------- what the operations do ----------

  /** Slot r, in no queue, goes where the checks send it. */
  lemma AdmitEffect<D>(g: Sizes, p: Pool<D>, r: nat, select: bool)
    requires Shape(g, p) && r < |p.reqs|
    ensures var p' := Admit(g, p, r, select); var q := RS.Target(g, p, r, select);
            && p'.place == p.place[r := Some(q)] && BUF < q < QueueCount(g) && p'.chains == p.chains
                && p'.reqs == p.reqs
            && (forall d, b :: 0 <= d < g.dies && 0 <= b < g.blocks ==>
                  p'.rows[d][b].readers == p.rows[d][b].readers
                  + if p.reqs[r].On(d, b) && p.reqs[r].kind.NandRead?
                    then (if q == RowQ(d) then (if select then 1 else 0) else if select then 0 else -1) else 0)
  {
  }

  /** Out of the caller's hand, or out of a queue it was counted in, slot r is counted where it waits. */
  lemma AdmitCounts<D>(g: Sizes, p: Pool<D>, held: Option<nat>, out: Option<nat>, r: nat, select: bool)
    requires Shape(g, p) && r < |p.reqs| && p.place[r] == None && CountsOk(g, p, held, out)
    requires if select then held == Some(r) && out == None else held != Some(r) && out == Some(r)
    ensures CountsOk(g, Admit(g, p, r, select), if select then None else held, None)
  {
    var p' := Admit(g, p, r, select);
    AdmitEffect(g, p, r, select);
    var held' := if select then None else held;
    hide Admit;
    forall d, b | 0 <= d < g.dies && 0 <= b < g.blocks
      ensures Recounts(g, p, held, out, p', held', None, r, d, b)
    {
    }
    CountMoves(g, p, held, out, p', held', None, r);
  }

  /** Slot r moves between the hand, the free queue, the slice queue, the DMA queue and a NAND queue. */
  lemma UncountedMove<D>(g: Sizes, p: Pool<D>, held: Option<nat>, p': Pool<D>, r: nat)
    requires Shape(g, p) && Shape(g, p') && r < |p.reqs| && held != Some(r) && CountsOk(g, p, held, None)
    requires p'.reqs == p.reqs && p'.rows == p.rows && |p'.place| == |p.place|
    requires forall t :: 0 <= t < |p.place| && t != r ==> p'.place[t] == p.place[t]
    requires !RS.StageOf(g, p, held, r).Waiting? && !RS.StageOf(g, p', held, r).Waiting?
    ensures CountsOk(g, p', held, None)
  {
    forall d, b | 0 <= d < g.dies && 0 <= b < g.blocks
      ensures Recounts(g, p, held, None, p', held, None, r, d, b)
    {
    }
    CountMoves(g, p, held, None, p', held, None, r);
  }

  /** A slot that waits in the buffer-blocked queue is taken out of it. */
  lemma TakeCounts<D>(g: Sizes, p: Pool<D>, held: Option<nat>, r: nat)
    requires Shape(g, p) && r < |p.reqs| && p.place[r] == Some(BUF) && held != Some(r) && CountsOk(g, p, held, None)
    ensures CountsOk(g, Take(g, p, r), held, Some(r))
  {
    var p' := Take(g, p, r);
    forall d, b | 0 <= d < g.dies && 0 <= b < g.blocks
      ensures Recounts(g, p, held, None, p', held, Some(r), r, d, b)
    {
    }
    CountMoves(g, p, held, None, p', held, Some(r), r);
  }

  /** A blocked read is counted at once. */
  lemma BlockedCounts<D>(g: Sizes, p: Pool<D>, r: nat)
    requires Shape(g, p) && r < |p.reqs| && p.place[r] == None && !BufPass(g, p, r) && CountsOk(g, p, Some(r), None)
    ensures CountsOk(g, Select(g, p, r), None, None)
  {
    var p' := Select(g, p, r);
    forall d, b | 0 <= d < g.dies && 0 <= b < g.blocks
      ensures Recounts(g, p, Some(r), None, p', None, None, r, d, b)
    {
    }
    CountMoves(g, p, Some(r), None, p', None, None, r);
  }

  /** A slot of the row-blocked queue passes. */
  function RowMoved<D>(g: Sizes, p: Pool<D>, r: nat): (p': Pool<D>)
    requires Shape(g, p) && r < |p.reqs|
    ensures Shape(g, p')
  {
    Put(g, Take(g, SetRow(g, p, r, RowCheck(p.reqs[r], RowOf(g, p, r), false).0), r), NandQ(g, p.reqs[r].die), r)
  }

  lemma RowMovedEffect<D>(g: Sizes, p: Pool<D>, r: nat)
    requires Shape(g, p) && r < |p.reqs| && RowCheck(p.reqs[r], RowOf(g, p, r), false).1
    ensures var p' := RowMoved(g, p, r);
            && p'.place == p.place[r := Some(NandQ(g, p.reqs[r].die))] && p'.chains == p.chains && p'.reqs == p.reqs
            && (forall d, b :: 0 <= d < g.dies && 0 <= b < g.blocks ==>
                  p'.rows[d][b].readers
                  == p.rows[d][b].readers - if p.reqs[r].On(d, b) && p.reqs[r].kind.NandRead? then 1 else 0)
  {
  }

  lemma RowMovedCounts<D>(g: Sizes, p: Pool<D>, held: Option<nat>, r: nat)
    requires Shape(g, p) && r < |p.reqs| && p.place[r] == Some(RowQ(p.reqs[r].die)) && held != Some(r)
    requires RowCheck(p.reqs[r], RowOf(g, p, r), false).1 && CountsOk(g, p, held, None)
    ensures CountsOk(g, RowMoved(g, p, r), held, None)
  {
    var p' := RowMoved(g, p, r);
    RowMovedEffect(g, p, r);
    hide RowMoved, RowCheck;
    forall d, b | 0 <= d < g.dies && 0 <= b < g.blocks
      ensures Recounts(g, p, held, None, p', held, None, r, d, b)
    {
    }
    CountMoves(g, p, held, None, p', held, None, r);
  }

  // ---------- chains, one move at a time ----------

  /** Slot r, linked before, is put into queue q, the buffer-blocked one unless it is first in its chain. */
  ghost predicate Settles<D>(g: Sizes, p: Pool<D>, held: Option<nat>, free: Option<nat>, p': Pool<D>,
          held': Option<nat>, r: nat, q: nat)
    requires Shape(g, p) && Shape(g, p')
  {
    && r < |p.reqs| && p'.reqs == p.reqs && p'.chains == p.chains && p'.place == p.place[r := Some(q)] && q >= BUF
    && (held == Some(r) || (p.place[r].Some? && p.place[r].value >= BUF))
    && held' == (if held == Some(r) then None else held)
    && (free == None || free == Some(r))
    && (p.reqs[r].Buffered() ==> (q == BUF <==> !BufPass(g, p, r)))
  }

  lemma ChainsSettle<D>(g: Sizes, p: Pool<D>, held: Option<nat>, free: Option<nat>, p': Pool<D>, held': Option<nat>,
          r: nat, q: nat)
    requires Shape(g, p) && Shape(g, p') && Settles(g, p, held, free, p', held', r, q)
        && ChainsInOrder(g, p, held, free)
    ensures ChainsInOrder(g, p', held', None)
  {
    forall e | 0 <= e < g.bufs
      ensures ChainInOrder(g, p', held', None, e)
    {
      assert ChainInOrder(g, p, held, free, e);
      ChainSettles(g, p, held, free, p', held', r, q, e);
    }
  }

  lemma ChainSettles<D>(g: Sizes, p: Pool<D>, held: Option<nat>, free: Option<nat>, p': Pool<D>, held': Option<nat>,
          r: nat, q: nat, e: nat)
    requires Shape(g, p) && Shape(g, p') && Settles(g, p, held, free, p', held', r, q) && e < g.bufs
    requires ChainInOrder(g, p, held, free, e)
    ensures ChainInOrder(g, p', held', None, e)
  {
    var c := p.chains[e];
    assert forall t: nat :: RS.LinkedTo(p', held', t, e) <==> RS.LinkedTo(p, held, t, e);
    forall i: nat | i < |c|
      ensures BlockedAt(p', held', None, c, i)
    {
      assert BlockedAt(p, held, free, c, i) && c[i] in c && c[0] in c;
      assert RS.LinkedTo(p, held, c[i], e);
    }
  }

  /** A slot that is linked nowhere moves, or gets another request. */
  lemma ChainsStay<D>(g: Sizes, p: Pool<D>, held: Option<nat>, free: Option<nat>, p': Pool<D>, r: nat)
    requires Shape(g, p) && Shape(g, p') && r < |p.reqs| == |p'.reqs| && held != Some(r)
        && ChainsInOrder(g, p, held, free)
    requires forall t :: 0 <= t < |p.reqs| && t != r ==> p'.reqs[t] == p.reqs[t] && p'.place[t] == p.place[t]
    requires p'.chains == p.chains && (p.place[r].None? || p.place[r].value < BUF)
        && (p'.place[r].None? || p'.place[r].value < BUF)
    ensures ChainsInOrder(g, p', held, free)
  {
    forall e | 0 <= e < g.bufs
      ensures ChainInOrder(g, p', held, free, e)
    {
      var c := p.chains[e];
      assert ChainInOrder(g, p, held, free, e);
      assert r !in c by {
        assert !RS.LinkedTo(p, held, r, e);
      }
      assert forall t: nat :: RS.LinkedTo(p', held, t, e) <==> RS.LinkedTo(p, held, t, e);
      forall i: nat | i < |c|
        ensures BlockedAt(p', held, free, c, i)
      {
        assert BlockedAt(p, held, free, c, i) && c[i] in c;
      }
    }
  }

  /** A free slot gets a request, which is held, and is linked behind those of its buffer entry. */
  lemma ChainsLink<D>(g: Sizes, p: Pool<D>, r: nat, q: Req<D>)
    requires Shape(g, p) && r < |p.reqs| && p.place[r] == None && InRange(g, q) && ChainsInOrder(g, p, None, None)
    ensures var p' := Link(g, p.(reqs := p.reqs[r := q]), r); ChainsInOrder(g, p', Some(r), None)
  {
    var p' := Link(g, p.(reqs := p.reqs[r := q]), r);
    forall e | 0 <= e < g.bufs
      ensures ChainInOrder(g, p', Some(r), None, e)
    {
      assert ChainInOrder(g, p, None, None, e);
      ChainLinks(g, p, r, q, e);
    }
  }

  lemma ChainLinks<D>(g: Sizes, p: Pool<D>, r: nat, q: Req<D>, e: nat)
    requires Shape(g, p) && r < |p.reqs| && p.place[r] == None && InRange(g, q) && e < g.bufs
        && ChainInOrder(g, p, None, None, e)
    ensures ChainInOrder(g, Link(g, p.(reqs := p.reqs[r := q]), r), Some(r), None, e)
  {
    var p' := Link(g, p.(reqs := p.reqs[r := q]), r);
    var c, c' := p.chains[e], p'.chains[e];
    assert r !in c by {
      assert !RS.LinkedTo(p, None, r, e);
    }
    assert c' == if q.Buffered() && q.buf == e then c + [r] else c;
    hide Shape;
    assert forall t: nat :: t != r ==> (RS.LinkedTo(p', Some(r), t, e) <==> RS.LinkedTo(p, None, t, e));
    forall i: nat | i < |c'|
      ensures BlockedAt(p', Some(r), None, c', i)
    {
      if i < |c| {
        assert BlockedAt(p, None, None, c, i) && c[i] in c;
      }
    }
  }

  /** The first request of its chain, back in the free queue, leaves the chain; the next one is about to be released. */
  lemma ChainsRetire<D>(g: Sizes, p: Pool<D>, held: Option<nat>, r: nat, p': Pool<D>)
    requires Shape(g, p) && Shape(g, p') && r < |p.reqs| && held != Some(r) && ChainsInOrder(g, p, held, None)
    requires p.place[r].Some? && p.place[r].value > BUF
    requires p'.reqs == p.reqs && p'.place == p.place[r := Some(FREE)] && p'.chains == Unlink(g, p, r).chains
    ensures ChainsInOrder(g, p', held, Successor(g, p, r))
    ensures p.reqs[r].Buffered() ==>
        p.chains[p.reqs[r].buf] != [] && p'.chains == p.chains[p.reqs[r].buf := p.chains[p.reqs[r].buf][1..]]
            && p.chains[p.reqs[r].buf][0] == r
  {
    var free := Successor(g, p, r);
    if p.reqs[r].Buffered() {
      HeadIsOut(g, p, held, r);
      assert ChainInOrder(g, p, held, None, p.reqs[r].buf);
      assert free.Some? ==> free.value in p.chains[p.reqs[r].buf];
    }
    forall e | 0 <= e < g.bufs
      ensures ChainInOrder(g, p', held, free, e)
    {
      assert ChainInOrder(g, p, held, None, e);
      ChainRetires(g, p, held, r, p', e);
    }
  }

  lemma HeadIsOut<D>(g: Sizes, p: Pool<D>, held: Option<nat>, r: nat)
    requires Shape(g, p) && r < |p.reqs| && held != Some(r) && ChainsInOrder(g, p, held, None)
    requires p.place[r].Some? && p.place[r].value > BUF && p.reqs[r].Buffered()
    ensures p.chains[p.reqs[r].buf] != [] && p.chains[p.reqs[r].buf][0] == r
  {
    var e := p.reqs[r].buf;
    assert ChainInOrder(g, p, held, None, e);
    var c := p.chains[e];
    assert RS.LinkedTo(p, held, r, e) && r in c;
    var i: nat :| i < |c| && c[i] == r;
    assert BlockedAt(p, held, None, c, i);
  }

  lemma ChainRetires<D>(g: Sizes, p: Pool<D>, held: Option<nat>, r: nat, p': Pool<D>, e: nat)
    requires Shape(g, p) && Shape(g, p') && r < |p.reqs| && held != Some(r) && e < g.bufs
        && ChainInOrder(g, p, held, None, e)
    requires p.place[r].Some? && p.place[r].value > BUF
    requires p.reqs[r].Buffered() ==> p.chains[p.reqs[r].buf] != [] && p.chains[p.reqs[r].buf][0] == r
    requires Successor(g, p, r).Some? ==> RS.LinkedTo(p, held, Successor(g, p, r).value, p.reqs[r].buf)
    requires p'.reqs == p.reqs && p'.place == p.place[r := Some(FREE)] && p'.chains == Unlink(g, p, r).chains
    ensures ChainInOrder(g, p', held, Successor(g, p, r), e)
  {
    var c, c' := p.chains[e], p'.chains[e];
    var own := p.reqs[r].Buffered() && p.reqs[r].buf == e;
    assert c' == if own then c[1..] else c;
    assert own <==> RS.LinkedTo(p, held, r, e);
    assert forall t: nat :: RS.LinkedTo(p', held, t, e) <==> RS.LinkedTo(p, held, t, e) && t != r;
    hide Shape;
    forall i: nat | i < |c'|
      ensures BlockedAt(p', held, Successor(g, p, r), c', i)
    {
      var j := if own then i + 1 else i;
      assert c'[i] == c[j] && BlockedAt(p, held, None, c, j) && c[j] in c;
    }
  }

  // ---------- steps ----------

  /** The slots in the queues, what the caller holds, the chains and the counters. */
  ghost predicate OkBut<D>(g: Sizes, p: Pool<D>, held: Option<nat>, free: Option<nat>) {
    Shape(g, p) && RS.QueuesOk(g, p) && ChainsInOrder(g, p, held, free) && CountsOk(g, p, held, None)
  }

  lemma DecideKeeps<D>(g: Sizes, p: Pool<D>, r: nat)
    requires OkBut(g, p, Some(r), None) && r < |p.reqs| && p.place[r] == None
    ensures OkBut(g, Select(g, p, r), None, None)
  {
    hide RS.QueuesOk, ChainInOrder, CountOk, Shape;
    FD.SelectPreserves(g, p, r);
    var p' := Select(g, p, r);
    if BufPass(g, p, r) {
      AdmitCounts(g, p, Some(r), None, r, true);
      AdmitEffect(g, p, r, true);
      ChainsSettle(g, p, Some(r), None, p', None, r, RS.Target(g, p, r, true));
    } else {
      BlockedCounts(g, p, r);
      ChainsSettle(g, p, Some(r), None, p', None, r, BUF);
    }
  }

  /** The successor of a completed request, if its buffer entry still blocks it, goes where the checks send it. */
  lemma SuccessorMoves<D>(g: Sizes, p: Pool<D>, held: Option<nat>, t: nat)
    requires OkBut(g, p, held, Some(t)) && t < |p.reqs| && held != Some(t) && p.place[t] == Some(BUF)
    requires p.reqs[t].Buffered() && BufPass(g, p, t)
    ensures OkBut(g, Admit(g, Take(g, p, t), t, false), held, None)
  {
    hide RS.QueuesOk, ChainInOrder, CountOk;
    var p1 := Take(g, p, t);
    var p' := Admit(g, p1, t, false);
    FD.LeavePreserves(g, p, t);
    FD.AdmitPreserves(g, p1, t, false);
    TakeCounts(g, p, held, t);
    AdmitCounts(g, p1, held, Some(t), t, false);
    AdmitEffect(g, p1, t, false);
    hide Admit, Shape;
    assert p'.place == p.place[t := Some(RS.Target(g, p1, t, false))];
    ChainsSettle(g, p, held, Some(t), p', held, t, RS.Target(g, p1, t, false));
  }

  /** The completed slot, back in the free queue and out of its chain. */
  function Retired<D>(g: Sizes, p: Pool<D>, r: nat): (p': Pool<D>)
    requires Shape(g, p) && r < |p.reqs|
    ensures Shape(g, p') && p'.reqs == p.reqs
  {
    Unlink(g, Put(g, Take(g, p, r), FREE, r), r)
  }

  lemma RetiredEffect<D>(g: Sizes, p: Pool<D>, r: nat)
    requires Shape(g, p) && r < |p.reqs| && RS.QueuesOk(g, p) && p.place[r].Some?
    ensures var p' := Retired(g, p, r);
            && r < |p.place| == |p'.place| && p'.place == p.place[r := Some(FREE)] && p'.rows == p.rows
            && p'.chains == Unlink(g, p, r).chains && RS.QueuesOk(g, p')
            && Complete(g, p, r) == match Successor(g, p, r)
                                    case Some(t) => if t < |p.reqs| && p'.place[t] == Some(BUF)
                                        then Admit(g, Take(g, p', t), t, false) else p'
                                    case None => p'
  {
    var p1 := Put(g, Take(g, p, r), FREE, r);
    assert Successor(g, p, r).Some? ==> Successor(g, p, r).value in p.chains[p.reqs[r].buf];
    hide RS.QueuesOk, Take, Admit;
    RS.TakeQueues(g, p, r);
    RS.PutQueues(g, Take(g, p, r), FREE, r);
    SameQueues(g, p1, Unlink(g, p1, r));
  }

  lemma CompleteKeeps<D>(g: Sizes, p: Pool<D>, held: Option<nat>, r: nat)
    requires OkBut(g, p, held, None) && RS.MayComplete(g, p, r) && RS.HeldOk(p, held)
    ensures OkBut(g, Complete(g, p, r), held, None)
  {
    hide RS.QueuesOk, ChainInOrder, CountOk, Retired, Complete, Admit, Take, Shape, Unlink, Successor;
    RetiredEffect(g, p, r);
    var p', free := Retired(g, p, r), Successor(g, p, r);
    UncountedMove(g, p, held, p', r);
    ChainsRetire(g, p, held, r, p');
    if free.Some? {
      SuccessorIsHead(g, p, held, r, p');
      if held == free {
        HeldIsExempt(g, p', held);
      } else {
        SuccessorMoves(g, p', held, free.value);
      }
    }
  }

  /** The successor is now the first of its chain, and still blocked unless somebody is about to decide on it. */
  lemma SuccessorIsHead<D>(g: Sizes, p: Pool<D>, held: Option<nat>, r: nat, p': Pool<D>)
    requires Shape(g, p) && Shape(g, p') && r < |p.reqs| && ChainsInOrder(g, p, held, None)
    requires p'.reqs == p.reqs && p'.place == p.place[r := Some(FREE)] && p'.chains == Unlink(g, p, r).chains
    requires Successor(g, p, r).Some?
    ensures var t := Successor(g, p, r).value;
            && t < |p.reqs| && t != r && p.reqs[t].Buffered() && BufPass(g, p', t)
            && (held != Some(t) ==> p'.place[t] == Some(BUF))
  {
    var e := p.reqs[r].buf;
    var c := p.chains[e];
    assert ChainInOrder(g, p, held, None, e);
    assert c[1] in c && c[0] != c[1] && BlockedAt(p, held, None, c, 1) && RS.LinkedTo(p, held, c[1], e);
    assert p'.chains[e] == c[1..];
  }

  /** What is held is exempt anyway. */
  lemma HeldIsExempt<D>(g: Sizes, p: Pool<D>, held: Option<nat>)
    requires Shape(g, p) && ChainsInOrder(g, p, held, held)
    ensures ChainsInOrder(g, p, held, None)
  {
    forall e | 0 <= e < g.bufs
      ensures ChainInOrder(g, p, held, None, e)
    {
      assert ChainInOrder(g, p, held, held, e);
      forall i: nat | i < |p.chains[e]|
        ensures BlockedAt(p, held, None, p.chains[e], i)
      {
        assert BlockedAt(p, held, held, p.chains[e], i);
      }
    }
  }

  lemma SameQueues<D>(g: Sizes, p: Pool<D>, p': Pool<D>)
    requires Shape(g, p) && Shape(g, p') && RS.QueuesOk(g, p)
    requires p'.reqs == p.reqs && p'.queues == p.queues && p'.place == p.place
    ensures RS.QueuesOk(g, p')
  {
  }

  lemma RowMoveKeeps<D>(g: Sizes, p: Pool<D>, held: Option<nat>, r: nat)
    requires OkBut(g, p, held, None) && r < |p.reqs| && p.place[r] == Some(RowQ(p.reqs[r].die)) && held != Some(r)
    requires !p.reqs[r].Dma() && RowCheck(p.reqs[r], RowOf(g, p, r), false).1
    ensures OkBut(g, RowMoved(g, p, r), held, None)
  {
    hide RS.QueuesOk, ChainInOrder, CountOk, RowCheck;
    FD.RowPreserves(g, p, r);
    RowMovedCounts(g, p, held, r);
    RowMovedEffect(g, p, r);
    hide Shape, RowMoved;
    if p.reqs[r].Buffered() {
      HeadIsOut(g, p, held, r);
    }
    ChainsSettle(g, p, held, None, RowMoved(g, p, r), held, r, NandQ(g, p.reqs[r].die));
  }

  /** The walk over a row-blocked queue. */
  lemma {:induction false} ReleaseRowsKeeps<D>(g: Sizes, p: Pool<D>, held: Option<nat>, d: nat, waiting: seq<nat>)
    requires OkBut(g, p, held, None) && RS.HeldOk(p, held) && d < g.dies && Distinct(waiting)
    requires forall r :: r in waiting ==> r < |p.reqs| && p.place[r] == Some(RowQ(d))
    ensures OkBut(g, ReleaseRows(g, p, waiting), held, None)
    decreases |waiting|
  {
    if waiting != [] {
      var r := waiting[0];
      assert r in waiting && forall x :: x in waiting[1..] ==> x in waiting && x != r;
      assert RS.Suits(g, p.reqs[r], RowQ(d));
      hide RS.QueuesOk, ChainInOrder, CountOk, RowCheck;
      if RowCheck(p.reqs[r], RowOf(g, p, r), false).1 {
        RowMoveKeeps(g, p, held, r);
        RowMovedEffect(g, p, r);
        ReleaseRowsKeeps(g, RowMoved(g, p, r), held, d, waiting[1..]);
      } else {
        ReleaseRowsKeeps(g, p, held, d, waiting[1..]);
      }
    }
  }

  /** Slot r, which nobody counts or links, moves between the free queue, the slice queue and the hand. */
  lemma IdleKeeps<D>(g: Sizes, p: Pool<D>, held: Option<nat>, p': Pool<D>, r: nat)
    requires OkBut(g, p, held, None) && Shape(g, p') && RS.QueuesOk(g, p') && r < |p.reqs| && held != Some(r)
    requires p' == p.(place := p'.place, queues := p'.queues) && |p'.place| == |p.place|
    requires forall t :: 0 <= t < |p.place| && t != r ==> p'.place[t] == p.place[t]
    requires (p.place[r].None? || p.place[r].value < BUF) && (p'.place[r].None? || p'.place[r].value < BUF)
    ensures OkBut(g, p', held, None)
  {
    hide RS.QueuesOk, ChainInOrder, CountOk;
    UncountedMove(g, p, held, p', r);
    ChainsStay(g, p, held, None, p', r);
  }

  lemma HeadTakenKeeps<D>(g: Sizes, p: Pool<D>, held: Option<nat>, q: nat)
    requires OkBut(g, p, held, None) && RS.HeldOk(p, held) && q < BUF && p.queues[q] != []
    ensures OkBut(g, Take(g, p, RS.First(g, p, q)), held, None) && RS.HeldOk(Take(g, p, RS.First(g, p, q)), held)
  {
    var r := RS.First(g, p, q);
    assert r in p.queues[q];
    RS.TakeQueues(g, p, r);
    hide RS.QueuesOk, ChainInOrder, CountOk;
    IdleKeeps(g, p, held, Take(g, p, r), r);
  }

  lemma SubmitKeeps<D>(g: Sizes, p: Pool<D>, r: nat, q: Req<D>)
    requires OkBut(g, p, None, None) && r < |p.reqs| && p.place[r] == None && InRange(g, q)
    ensures OkBut(g, Link(g, p.(reqs := p.reqs[r := q]), r), Some(r), None)
  {
    var p' := Link(g, p.(reqs := p.reqs[r := q]), r);
    assert RS.QueuesOk(g, p');
    hide RS.QueuesOk, ChainInOrder;
    ChainsLink(g, p, r, q);
    forall d, b | 0 <= d < g.dies && 0 <= b < g.blocks
      ensures Recounts(g, p, None, None, p', Some(r), None, r, d, b)
    {
    }
    CountMoves(g, p, None, None, p', Some(r), None, r);
  }

  /** Every step of every run keeps chains and counters in order. */
  lemma StepKeeps<D>(g: Sizes, s: FD.State<D>, held: Option<nat>, v: RS.Event<D>, s': FD.State<D>,
          held': Option<nat>)
    requires Ok(g, s.pool, held) && FD.Step(g, s, held, v, s', held')
    ensures Ok(g, s'.pool, held')
  {
    hide RS.QueuesOk, ChainsInOrder, CountsOk;
    match v
    case Allocate => HeadTakenKeeps(g, s.pool, held, FREE);
    case FromSlice => HeadTakenKeeps(g, s.pool, held, SLICE);
    case ToSlice(r) =>
      RS.PutQueues(g, s.pool, SLICE, r);
      IdleKeeps(g, s.pool, held, s'.pool, r);
    case Submitted(r, q) => SubmitKeeps(g, s.pool, r, q);
    case Decided => DecideKeeps(g, s.pool, held.value);
    case Completed(r) =>
      FD.HeldStays(g, s, held, v, s', held');
      CompleteKeeps(g, s.pool, held, r);
    case Released(d) =>
      FD.HeldStays(g, s, held, v, s', held');
      RS.RowQueueDistinct(g, s.pool, d);
      ReleaseRowsKeeps(g, s.pool, held, d, s.pool.queues[RowQ(d)]);
  }

  // ---------- what this says ----------

  /** At most one request per buffer entry is with the DMA engine, a NAND queue or a row-blocked queue: the oldest. */
  lemma OldestOnly<D>(g: Sizes, p: Pool<D>, held: Option<nat>, r: nat, t: nat)
    requires Ok(g, p, held) && r < |p.reqs| && t < |p.reqs| && r != t
    requires p.reqs[r].Buffered() && p.reqs[t].Buffered() && p.reqs[r].buf == p.reqs[t].buf
    requires p.place[r].Some? && p.place[r].value > BUF
    ensures p.chains[p.reqs[r].buf] != [] && p.chains[p.reqs[r].buf][0] == r
    ensures p.place[t].Some? ==> p.place[t].value <= BUF
  {
    hide RS.QueuesOk, ChainsInOrder, CountsOk;
    HeadIsOut(g, p, held, r);
    if p.place[t].Some? && p.place[t].value > BUF {
      HeadIsOut(g, p, held, t);
    }
  }

  /** The counters of the dependency table count what waits in the queues. */
  lemma ReadersAreCounted<D>(g: Sizes, p: Pool<D>, held: Option<nat>, d: nat, b: nat)
    requires Ok(g, p, held) && d < g.dies && b < g.blocks
    ensures p.rows[d][b].readers ==
            |set r: nat | r < |p.reqs| && p.reqs[r].On(d, b) && p.reqs[r].kind.NandRead?
                && (r in p.queues[BUF] || r in p.queues[RowQ(d)])|
  {
    assert CountOk(g, p, held, None, d, b);
    hide ChainsInOrder, CountsOk;
    forall r: nat | r < |p.reqs| && p.reqs[r].On(d, b)
      ensures RS.StageOf(g, p, held, r).Waiting? <==> r in p.queues[BUF] || r in p.queues[RowQ(d)]
    {
      assert p.place[r].Some? ==> RS.Suits(g, p.reqs[r], p.place[r].value);
    }
    assert WaitingReads(g, p, held, None, d, b) ==
           set r: nat | r < |p.reqs| && p.reqs[r].On(d, b) && p.reqs[r].kind.NandRead?
               && (r in p.queues[BUF] || r in p.queues[RowQ(d)]);
  }

  /** The invariant under which data are faithful includes this one. */
  lemma FaithfulIsOk<D>(g: Sizes, s: RS.Sys<D>, held: Option<nat>)
    requires RS.Inv(g, s, held)
    ensures Ok(g, s.pool, held)
  {
    RS.RevealInv(g, s, held);
    hide RS.Inv, RS.QueuesOk, RS.BlocksOk, RS.ChainsOk;
    assert RS.BlocksOk(g, s, held) && RS.ChainsOk(g, s, held, None);
    forall e | 0 <= e < g.bufs
      ensures ChainInOrder(g, s.pool, held, None, e)
    {
      FaithfulChain(g, s, held, e);
    }
    forall d, b | 0 <= d < g.dies && 0 <= b < g.blocks
      ensures CountOk(g, s.pool, held, None, d, b)
    {
      FaithfulCount(g, s, held, d, b);
    }
  }

  lemma FaithfulChain<D>(g: Sizes, s: RS.Sys<D>, held: Option<nat>, e: nat)
    requires RS.SysShape(g, s) && RS.ChainsOk(g, s, held, None) && e < g.bufs
    ensures ChainInOrder(g, s.pool, held, None, e)
  {
    assert RS.ChainOk(g, s, held, None, e);
    var c := s.pool.chains[e];
    forall i: nat | i < |c|
      ensures BlockedAt(s.pool, held, None, c, i)
    {
      assert RS.ChainAt(s, held, None, s.act.buf[e], c, i);
    }
  }

  lemma FaithfulCount<D>(g: Sizes, s: RS.Sys<D>, held: Option<nat>, d: nat, b: nat)
    requires RS.SysShape(g, s) && RS.BlocksOk(g, s, held) && d < g.dies && b < g.blocks
    ensures CountOk(g, s.pool, held, None, d, b)
  {
    assert RS.BlockOk(g, s, held, d, b);
    hide RS.Runs, RS.SlotsOk, RS.NothingLost, RS.RowOk, RS.StageOf;
    assert WaitingReads(g, s.pool, held, None, d, b) == RS.Readers(g, s.pool, held, d, b);
  }

  // ---------- runs ----------

  /** A chain only grows at its end, by what is submitted, and shrinks at its front, by what completes. */
  ghost predicate FirstInFirstOut<D>(p: Pool<D>, v: RS.Event<D>, p': Pool<D>) {
    |p'.chains| == |p.chains| && forall e :: 0 <= e < |p.chains| ==> FifoAt(p.chains[e], v, p'.chains[e])
  }

  ghost predicate FifoAt<D>(c: seq<nat>, v: RS.Event<D>, c': seq<nat>) {
    || c' == c
    || (v.Submitted? && c' == c + [v.r])
    || (v.Completed? && c != [] && c[0] == v.r && c' == c[1..])
  }

  /** Slot r is an erase that entered its die's NAND queue. */
  ghost predicate EraseEnters<D>(g: Sizes, p: Pool<D>, p': Pool<D>, r: nat) {
    && r < |p'.reqs| == |p'.place| == |p.place| && p'.reqs[r].kind.NandErase?
    && p'.place[r] == Some(NandQ(g, p'.reqs[r].die)) && p.place[r] != p'.place[r]
  }

  /** When an erase enters its NAND queue, no read of its block is left waiting. */
  ghost predicate ErasesOvertakeNoRead<D>(g: Sizes, p: Pool<D>, p': Pool<D>, held': Option<nat>) {
    forall r: nat :: EraseEnters(g, p, p', r) ==>
      WaitingReads(g, p', held', None, p'.reqs[r].die, p'.reqs[r].block) == {}
  }

  lemma StepIsFifo<D>(g: Sizes, s: FD.State<D>, held: Option<nat>, v: RS.Event<D>, s': FD.State<D>,
          held': Option<nat>)
    requires Ok(g, s.pool, held) && FD.Step(g, s, held, v, s', held')
    ensures FirstInFirstOut(s.pool, v, s'.pool)
  {
    hide ChainsInOrder, CountsOk, RS.QueuesOk, ReleaseRows, Complete, Retired, RowCheck;
    match v
    case Allocate =>
    case FromSlice =>
    case ToSlice(r) =>
    case Submitted(r, q) =>
    case Decided =>
    case Completed(r) =>
      RetiredEffect(g, s.pool, r);
      ChainsRetire(g, s.pool, held, r, Retired(g, s.pool, r));
      CompleteChains(g, s.pool, r);
    case Released(d) => RowsKeepChains(g, s.pool, s.pool.queues[RowQ(d)]);
  }

  lemma CompleteChains<D>(g: Sizes, p: Pool<D>, r: nat)
    requires Shape(g, p) && r < |p.reqs|
    ensures Complete(g, p, r).chains == Retired(g, p, r).chains
  {
  }

  lemma {:induction false} RowsKeepChains<D>(g: Sizes, p: Pool<D>, waiting: seq<nat>)
    requires Shape(g, p) && forall r :: r in waiting ==> r < |p.reqs|
    ensures ReleaseRows(g, p, waiting).chains == p.chains
    decreases |waiting|
  {
    if waiting != [] {
      var r := waiting[0];
      assert r in waiting && forall x :: x in waiting[1..] ==> x in waiting;
      hide RowCheck;
      RowsKeepChains(g, if RowCheck(p.reqs[r], RowOf(g, p, r), false).1 then RowMoved(g, p, r) else p, waiting[1..]);
    }
  }

  /** An erase that is admitted to its NAND queue found its block's counter at zero. */
  lemma AdmittedErase<D>(g: Sizes, p: Pool<D>, r: nat, select: bool)
    requires Shape(g, p) && r < |p.reqs| && p.reqs[r].kind.NandErase?
        && Admit(g, p, r, select).place[r] == Some(NandQ(g, p.reqs[r].die))
    ensures RowOf(g, Admit(g, p, r, select), r).readers == 0
  {
  }

  /** A walk over a row-blocked queue only counts down, and to zero at least where an erase leaves. */
  lemma {:induction false} RowsCountDown<D>(g: Sizes, p: Pool<D>, waiting: seq<nat>)
    requires Shape(g, p) && forall r :: r in waiting ==> r < |p.reqs|
    ensures forall d, b :: 0 <= d < g.dies && 0 <= b < g.blocks ==>
        ReleaseRows(g, p, waiting).rows[d][b].readers <= p.rows[d][b].readers
    decreases |waiting|
  {
    if waiting != [] {
      var r := waiting[0];
      assert r in waiting && forall x :: x in waiting[1..] ==> x in waiting;
      if RowCheck(p.reqs[r], RowOf(g, p, r), false).1 {
        RowMovedEffect(g, p, r);
        hide RowCheck;
        RowsCountDown(g, RowMoved(g, p, r), waiting[1..]);
      } else {
        RowsCountDown(g, p, waiting[1..]);
      }
    }
  }

  lemma {:induction false} ReleasedErase<D>(g: Sizes, p: Pool<D>, waiting: seq<nat>, e: nat)
    requires Shape(g, p) && (forall r :: r in waiting ==> r < |p.reqs|) && e < |p.reqs| && p.reqs[e].kind.NandErase?
    requires p.place[e] != Some(NandQ(g, p.reqs[e].die))
        && ReleaseRows(g, p, waiting).place[e] == Some(NandQ(g, p.reqs[e].die))
    ensures RowOf(g, ReleaseRows(g, p, waiting), e).readers <= 0
    decreases |waiting|
  {
    if waiting != [] {
      var r := waiting[0];
      assert r in waiting && forall x :: x in waiting[1..] ==> x in waiting;
      if RowCheck(p.reqs[r], RowOf(g, p, r), false).1 {
        var p1 := RowMoved(g, p, r);
        RowMovedEffect(g, p, r);
        if r == e {
          assert RowOf(g, p1, e).readers == 0;
          RowsCountDown(g, p1, waiting[1..]);
        } else {
          hide RowCheck, RowMoved;
          ReleasedErase(g, p1, waiting[1..], e);
        }
      } else {
        ReleasedErase(g, p, waiting[1..], e);
      }
    }
  }

  lemma NoneWaiting<D>(g: Sizes, p: Pool<D>, held: Option<nat>, r: nat)
    requires Shape(g, p) && CountsOk(g, p, held, None) && r < |p.reqs| && RowOf(g, p, r).readers <= 0
    ensures WaitingReads(g, p, held, None, p.reqs[r].die, p.reqs[r].block) == {}
  {
    assert CountOk(g, p, held, None, p.reqs[r].die, p.reqs[r].block);
    hide Counted;
  }

  lemma StepOvertakesNoRead<D>(g: Sizes, s: FD.State<D>, held: Option<nat>, v: RS.Event<D>, s': FD.State<D>,
          held': Option<nat>)
    requires Ok(g, s.pool, held) && Ok(g, s'.pool, held') && FD.Step(g, s, held, v, s', held')
    ensures ErasesOvertakeNoRead(g, s.pool, s'.pool, held')
  {
    hide ChainsInOrder, CountsOk, RS.QueuesOk, WaitingReads;
    forall r: nat | EraseEnters(g, s.pool, s'.pool, r)
      ensures WaitingReads(g, s'.pool, held', None, s'.pool.reqs[r].die, s'.pool.reqs[r].block) == {}
    {
      EnteringErase(g, s, held, v, s', held', r);
      NoneWaiting(g, s'.pool, held', r);
    }
  }

  lemma EnteringErase<D>(g: Sizes, s: FD.State<D>, held: Option<nat>, v: RS.Event<D>, s': FD.State<D>,
          held': Option<nat>, r: nat)
    requires Ok(g, s.pool, held) && FD.Step(g, s, held, v, s', held') && EraseEnters(g, s.pool, s'.pool, r)
    ensures RowOf(g, s'.pool, r).readers <= 0
  {
    hide ChainsInOrder, CountsOk, RowCheck, RS.QueuesOk, ReleaseRows, Complete;
    match v
    case Allocate =>
    case FromSlice =>
    case ToSlice(x) =>
    case Submitted(x, q) =>
    case Decided => AdmittedErase(g, s.pool, r, true);
    case Completed(x) => CompletedErase(g, s.pool, held, x, r);
    case Released(d) => ReleasedErase(g, s.pool, s.pool.queues[RowQ(d)], r);
  }

  /** Completions set buffered requests free only, and no erase. */
  lemma CompletedErase<D>(g: Sizes, p: Pool<D>, held: Option<nat>, x: nat, r: nat)
    requires Ok(g, p, held) && RS.MayComplete(g, p, x)
    ensures !EraseEnters(g, p, Complete(g, p, x), r)
  {
    hide RS.QueuesOk, ChainInOrder, CountOk, Retired, Take, Unlink, Successor, Complete, Admit, RS.Target;
    RetiredEffect(g, p, x);
    var p', free := Retired(g, p, x), Successor(g, p, x);
    if free.Some? {
      SuccessorIsHead(g, p, held, x, p');
      if p'.place[free.value] == Some(BUF) {
        TakeEffect(g, p', free.value);
        AdmitEffect(g, Take(g, p', free.value), free.value, false);
      }
    }
  }

  lemma TakeEffect<D>(g: Sizes, p: Pool<D>, r: nat)
    requires Shape(g, p) && r < |p.reqs|
    ensures Take(g, p, r).place == p.place[r := None] && Take(g, p, r).rows == p.rows
  {
  }

  /**
   In every run, whatever is submitted and whenever: chains and counters are in order, each chain is
   first in, first out, and no erase overtakes a read of its block.
   */
  lemma {:induction false} RunsKeepDependencies<D>(g: Sizes, states: seq<FD.State<D>>, held: seq<Option<nat>>,
          events: seq<RS.Event<D>>, i: nat)
    requires FD.Trace(g, states, held, events) && Ok(g, states[0].pool, held[0]) && i <= |events|
    ensures Ok(g, states[i].pool, held[i])
    ensures i < |events| ==>
        && FirstInFirstOut(states[i].pool, events[i], states[i + 1].pool)
        && ErasesOvertakeNoRead(g, states[i].pool, states[i + 1].pool, held[i + 1])
  {
    hide Ok, FD.Step, FirstInFirstOut, ErasesOvertakeNoRead;
    if i > 0 {
      RunsKeepDependencies(g, states, held, events, i - 1);
      assert FD.Step(g, states[i - 1], held[i - 1], events[i - 1], states[i], held[i]);
      StepKeeps(g, states[i - 1], held[i - 1], events[i - 1], states[i], held[i]);
    }
    if i < |events| {
      assert FD.Step(g, states[i], held[i], events[i], states[i + 1], held[i + 1]);
      StepKeeps(g, states[i], held[i], events[i], states[i + 1], held[i + 1]);
      StepIsFifo(g, states[i], held[i], events[i], states[i + 1], held[i + 1]);
      StepOvertakesNoRead(g, states[i], held[i], events[i], states[i + 1], held[i + 1]);
    }
  }

  /** At the start every slot is free and nothing is counted. */
  lemma InitIsOk<D>(g: Sizes, reqs: seq<Req<D>>, free: seq<nat>)
    requires |reqs| == |free| && forall r :: 0 <= r < |reqs| ==> free[r] == r && InRange(g, reqs[r])
    ensures Ok(g, InitPool(g, reqs, free), None)
  {
    var p := InitPool(g, reqs, free);
    FD.InitIsOk(g, reqs, free);
    hide RS.QueuesOk;
    forall d, b | 0 <= d < g.dies && 0 <= b < g.blocks
      ensures CountOk(g, p, None, None, d, b)
    {
      assert WaitingReads(g, p, None, None, d, b) == {};
    }
  }
}
