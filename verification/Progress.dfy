/**
 When a waiting request is let go. Whatever is submitted: a request that is first in its chain, and a
 row-blocked request when the release walk meets it, enters its die's NAND queue exactly if it suits
 the pages its block has once that queue has run and, for an erase, no read of the block waits.
 */
module Progress {
  import opened Common
  import opened Requests
  import RS = RequestSafety
  import FD = FlashDiscipline
  import DP = Dependencies

  /** The programmed pages of the block once the queue has run. */
  function PagesAtEnd<D>(n: nat, queue: seq<nat>, reqs: seq<Req<D>>, d: nat, b: nat): nat
    requires forall r :: r in queue ==> r < |reqs|
    decreases |queue|
  {
    if queue == [] then n
    else
      var r := queue[0];
      assert r in queue && forall x :: x in queue[1..] ==> x in queue;
      PagesAtEnd(if reqs[r].On(d, b) then FD.PagesAfter(n, reqs[r]) else n, queue[1..], reqs, d, b)
  }

  lemma {:induction false} CounterIsEnd<D>(n: nat, queue: seq<nat>, reqs: seq<Req<D>>, d: nat, b: nat, end: nat)
    requires FD.InOrder(n, queue, reqs, d, b, end) && forall r :: r in queue ==> r < |reqs|
    ensures end == PagesAtEnd(n, queue, reqs, d, b)
    decreases |queue|
  {
    if queue != [] {
      var r := queue[0];
      assert r in queue && forall x :: x in queue[1..] ==> x in queue;
      CounterIsEnd(if reqs[r].On(d, b) then FD.PagesAfter(n, reqs[r]) else n, queue[1..], reqs, d, b, end);
    }
  }

  /** The programmed pages of a block of pool p once its die's NAND queue has run. */
  ghost function EndPages<D>(g: Sizes, s: FD.State<D>, d: nat, b: nat): nat
    requires FD.StateShape(g, s) && d < g.dies && b < g.blocks
  {
    PagesAtEnd(s.pages[d][b], s.pool.queues[NandQ(g, d)], s.pool.reqs, d, b)
  }

  /** Nothing but its turn in the NAND queue keeps the NAND request of slot r. */
  ghost predicate MayGo<D>(g: Sizes, s: FD.State<D>, held: Option<nat>, r: nat)
    requires FD.StateShape(g, s) && r < |s.pool.reqs|
  {
    var q := s.pool.reqs[r];
    && FD.Disciplined(EndPages(g, s, q.die, q.block), q)
    && (q.kind.NandErase? ==> DP.WaitingReads(g, s.pool, held, None, q.die, q.block) == {})
  }

  /** Page counters, queues, chains and read counters are in order. */
  ghost predicate Ok<D>(g: Sizes, s: FD.State<D>, held: Option<nat>) {
    FD.Ok(g, s, held) && DP.Ok(g, s.pool, held)
  }

  /** The row-address check lets a request go exactly if it may. */
  lemma CheckIsExact<D>(g: Sizes, s: FD.State<D>, held: Option<nat>, r: nat, select: bool)
    requires FD.StateShape(g, s) && r < |s.pool.reqs| && !s.pool.reqs[r].Dma()
    requires var q := s.pool.reqs[r];
        FD.BlockOk(g, s.pool, q.die, q.block, s.pages[q.die][q.block]) && DP.CountOk(g, s.pool, held, None, q.die,
            q.block)
    ensures RowCheck(s.pool.reqs[r], RowOf(g, s.pool, r), select).1 <==> MayGo(g, s, held, r)
  {
    var q := s.pool.reqs[r];
    FD.PassIsDisciplined(q, RowOf(g, s.pool, r), select);
    CounterIsEnd(s.pages[q.die][q.block], s.pool.queues[NandQ(g, q.die)], s.pool.reqs, q.die, q.block,
        RowOf(g, s.pool, r).permitted);
    hide RowCheck, FD.Disciplined;
  }

  // ---------- a request is decided on ----------

  /** Where a request that no other precedes in its chain goes. */
  ghost function GoesTo<D>(g: Sizes, s: FD.State<D>, held: Option<nat>, r: nat): nat
    requires FD.StateShape(g, s) && r < |s.pool.reqs|
  {
    var q := s.pool.reqs[r];
    if q.Dma() then DMA else if MayGo(g, s, held, r) then NandQ(g, q.die) else RowQ(q.die)
  }

  /** A submitted request waits behind the others of its chain, if there are any, and otherwise goes where it may. */
  lemma DecidedGoes<D>(g: Sizes, s: FD.State<D>, held: Option<nat>, s': FD.State<D>, held': Option<nat>)
    requires Ok(g, s, held) && FD.Step(g, s, held, RS.Decided, s', held')
    ensures var r := held.value; var q := s.pool.reqs[r];
            && (q.Buffered() ==> s.pool.chains[q.buf] != [])
            && s'.pool.place[r] == Some(
                 if q.Buffered() && s.pool.chains[q.buf][0] != r then BUF else GoesTo(g, s, held, r))
  {
    var r := held.value;
    var q := s.pool.reqs[r];
    HeldIsLinked(g, s.pool, held);
    hide RS.QueuesOk, DP.ChainsInOrder, MayGo;
    assert FD.BlockOk(g, s.pool, q.die, q.block, s.pages[q.die][q.block]) && DP.CountOk(g, s.pool, held, None, q.die,
        q.block);
    if !q.Dma() {
      CheckIsExact(g, s, held, r, true);
    }
    hide RowCheck;
  }

  lemma HeldIsLinked<D>(g: Sizes, p: Pool<D>, held: Option<nat>)
    requires DP.Ok(g, p, held) && held.Some?
    ensures held.value < |p.reqs| && (p.reqs[held.value].Buffered() ==> held.value in p.chains[p.reqs[held.value].buf])
  {
    var q := p.reqs[held.value];
    assert q.Buffered() ==> DP.ChainInOrder(g, p, held, None, q.buf);
    assert q.Buffered() ==> RS.LinkedTo(p, held, held.value, q.buf);
  }

  // ---------- a request is released by its chain ----------

  /** The completion of the first request of a chain sends the second, unless somebody is about to decide on it. */
  lemma CompletedReleases<D>(g: Sizes, s: FD.State<D>, held: Option<nat>, r: nat, s': FD.State<D>, t: nat)
    requires Ok(g, s, held) && FD.Step(g, s, held, RS.Completed(r), s', held) && held != Some(t)
    requires Successor(g, s.pool, r) == Some(t)
    ensures t < |s.pool.reqs| && s'.pool.place[t] == Some(GoesTo(g, s, held, t))
  {
    var p := s.pool;
    hide RS.QueuesOk, DP.ChainInOrder, DP.CountOk, FD.BlockOk, MayGo, DP.Retired, Complete, Take, Unlink, Successor,
        Admit, RowCheck;
    DP.RetiredEffect(g, p, r);
    var p' := DP.Retired(g, p, r);
    DP.SuccessorIsHead(g, p, held, r, p');
    var q := p.reqs[t];
    DP.TakeEffect(g, p', t);
    DP.AdmitEffect(g, Take(g, p', t), t, false);
    assert RowOf(g, Take(g, p', t), t) == RowOf(g, p, t);
    assert FD.BlockOk(g, p, q.die, q.block, s.pages[q.die][q.block]) && DP.CountOk(g, p, held, None, q.die, q.block);
    if !q.Dma() {
      CheckIsExact(g, s, held, t, false);
    }
  }

  // ---------- a request is met by the release walk ----------

  lemma {:induction false} WalkSplits<D>(g: Sizes, p: Pool<D>, a: seq<nat>, b: seq<nat>)
    requires Shape(g, p) && forall r :: r in a + b ==> r < |p.reqs|
    ensures (forall r :: r in a ==> r in a + b) && (forall r :: r in b ==> r in a + b)
    ensures ReleaseRows(g, p, a + b) == ReleaseRows(g, ReleaseRows(g, p, a), b)
    decreases |a|
  {
    assert (forall r :: r in a ==> r in a + b) && (forall r :: r in b ==> r in a + b);
    if a == [] {
      assert a + b == b;
    } else {
      var r := a[0];
      assert (a + b)[0] == r && (a + b)[1..] == a[1..] + b && r in a + b;
      assert forall x :: x in a[1..] + b ==> x in a + b;
      hide RowCheck, Put, Take, SetRow;
      var (row, pass) := RowCheck(p.reqs[r], RowOf(g, p, r), false);
      WalkSplits(g, if pass then DP.RowMoved(g, p, r) else p, a[1..], b);
    }
  }

  /** The walk's first steps leave a state in order, and the slots further on where they are. */
  lemma WalkedIsOk<D>(g: Sizes, s: FD.State<D>, held: Option<nat>, d: nat, i: nat)
    requires Ok(g, s, held) && d < g.dies && i <= |s.pool.queues[RowQ(d)]|
    ensures var waiting := s.pool.queues[RowQ(d)];
            && (forall r :: r in waiting ==> r < |s.pool.reqs|) && (forall r :: r in waiting[..i] ==> r in waiting)
            && var p := ReleaseRows(g, s.pool, waiting[..i]);
               && FD.Preserves(g, s.pool, p) && DP.OkBut(g, p, held, None) && |p.place| == |s.pool.place|
               && forall j :: i <= j < |waiting| ==> waiting[j] < |p.place| && p.place[waiting[j]] == Some(RowQ(d))
  {
    var waiting: seq<nat> := s.pool.queues[RowQ(d)];
    RS.RowQueueDistinct(g, s.pool, d);
    assert forall r :: r in waiting[..i] ==> r in waiting;
    hide RS.QueuesOk, DP.ChainsInOrder, DP.CountsOk, FD.BlockOk, ReleaseRows;
    FD.ReleaseRowsPreserves(g, s.pool, d, waiting[..i]);
    DP.ReleaseRowsKeeps(g, s.pool, held, d, waiting[..i]);
    forall j | i <= j < |waiting|
      ensures waiting[j] < |s.pool.place|
          && ReleaseRows(g, s.pool, waiting[..i]).place[waiting[j]] == Some(RowQ(d))
    {
      assert waiting[j] in waiting && waiting[j] !in waiting[..i];
      FD.RowsLeaveOthers(g, s.pool, waiting[..i], waiting[j]);
    }
  }

  /** A row-blocked request goes if it may when the walk meets it, and otherwise stays. */
  lemma MetGoes<D>(g: Sizes, s: FD.State<D>, held: Option<nat>, d: nat, s': FD.State<D>, i: nat)
    requires Ok(g, s, held) && FD.Step(g, s, held, RS.Released(d), s', held) && i < |s.pool.queues[RowQ(d)]|
    ensures var waiting := s.pool.queues[RowQ(d)]; var r := waiting[i];
            && r < |s.pool.reqs| && (forall x :: x in waiting[..i] ==> x < |s.pool.reqs|)
            && var met := s.(pool := ReleaseRows(g, s.pool, waiting[..i]));
               && FD.StateShape(g, met)
               && s'.pool.place[r] == Some(if MayGo(g, met, held, r) then NandQ(g, d) else RowQ(d))
  {
    hide RS.QueuesOk, DP.ChainsInOrder, DP.CountsOk, DP.CountOk, DP.OkBut, FD.BlockOk, MayGo, RowCheck, FD.Preserves,
        ReleaseRows, FD.Disciplined;
    var waiting: seq<nat> := s.pool.queues[RowQ(d)];
    var r := waiting[i];
    Waits(g, s, held, d, i);
    WalkedIsOk(g, s, held, d, i);
    var met := s.(pool := ReleaseRows(g, s.pool, waiting[..i]));
    WalkSplits(g, s.pool, waiting[..i], waiting[i..]);
    MetOkBlock(g, s, held, met, r);
    CheckIsExact(g, met, held, r, false);
    RestOfWalk(g, met.pool, waiting[i..]);
  }

  /** The slot at position i of a die's row-blocked queue. */
  lemma Waits<D>(g: Sizes, s: FD.State<D>, held: Option<nat>, d: nat, i: nat)
    requires Ok(g, s, held) && d < g.dies && i < |s.pool.queues[RowQ(d)]|
    ensures var waiting := s.pool.queues[RowQ(d)]; var r := waiting[i];
            && r < |s.pool.reqs| && !s.pool.reqs[r].Dma() && s.pool.reqs[r].die == d
            && waiting == waiting[..i] + waiting[i..] && waiting[i..][0] == r && Distinct(waiting[i..])
            && (forall x :: x in waiting ==> x < |s.pool.reqs|) && (forall x :: x in waiting[i..] ==> x in waiting)
  {
    var waiting: seq<nat> := s.pool.queues[RowQ(d)];
    RS.RowQueueDistinct(g, s.pool, d);
    assert waiting[i] in waiting && RS.Suits(g, s.pool.reqs[waiting[i]], RowQ(d));
  }

  lemma MetOkBlock<D>(g: Sizes, s: FD.State<D>, held: Option<nat>, met: FD.State<D>, r: nat)
    requires Ok(g, s, held) && FD.Preserves(g, s.pool, met.pool) && DP.OkBut(g, met.pool, held, None)
    requires met.pages == s.pages && r < |s.pool.reqs| && met.pool.reqs == s.pool.reqs
    ensures FD.StateShape(g, met)
    ensures var q := s.pool.reqs[r];
        FD.BlockOk(g, met.pool, q.die, q.block, s.pages[q.die][q.block]) && DP.CountOk(g, met.pool, held, None, q.die,
            q.block)
  {
    var q := s.pool.reqs[r];
    assert FD.BlockOk(g, s.pool, q.die, q.block, s.pages[q.die][q.block]);
    hide RS.QueuesOk, DP.ChainsInOrder, FD.BlockOk, DP.CountOk;
  }

  /** What the walk does to the slot it meets next stays. */
  lemma RestOfWalk<D>(g: Sizes, p: Pool<D>, waiting: seq<nat>)
    requires Shape(g, p) && waiting != [] && Distinct(waiting) && (forall r :: r in waiting ==> r < |p.reqs|)
    requires waiting[0] < |p.reqs| && !p.reqs[waiting[0]].Dma()
    ensures var r := waiting[0];
            ReleaseRows(g, p, waiting).place[r] == if RowCheck(p.reqs[r], RowOf(g, p, r), false).1
                then Some(NandQ(g, p.reqs[r].die)) else p.place[r]
  {
    var r := waiting[0];
    assert r in waiting && forall x :: x in waiting[1..] ==> x in waiting && x != r;
    hide RowCheck, Put, Take, SetRow;
    if RowCheck(p.reqs[r], RowOf(g, p, r), false).1 {
      DP.RowMovedEffect(g, p, r);
      FD.RowsLeaveOthers(g, DP.RowMoved(g, p, r), waiting[1..], r);
    } else {
      FD.RowsLeaveOthers(g, p, waiting[1..], r);
    }
  }
}
