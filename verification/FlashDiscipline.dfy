/**
 Flash discipline for whatever is submitted. Nothing is asked of the requests here, neither that they
 suit what was submitted before nor that they come at the right time: the row-address checks alone see
 to it that in the order of a die's NAND queue each block is programmed page by page from an erase on,
 reads only hit programmed pages, and an erase finds as many programmed pages as it was told.
 */
module FlashDiscipline {
  import opened Common
  import opened R = Requests
  import RS = RequestSafety

  /** pages[d][b] counts the programs of the block that completed since its last erase. */
  datatype State<D> = State(pool: Pool<D>, pages: seq<seq<nat>>)

  ghost predicate StateShape<D>(g: Sizes, s: State<D>) {
    Shape(g, s.pool) && |s.pages| == g.dies && forall d :: 0 <= d < |s.pages| ==> |s.pages[d]| == g.blocks
  }

  /** The request suits a block with n programmed pages. */
  predicate Disciplined<D>(n: nat, q: Req<D>) {
    match q.kind
    case NandWrite => q.page == n
    case NandRead => q.page < n
    case NandErase => q.page == n
    case _ => true
  }

  function PagesAfter<D>(n: nat, q: Req<D>): nat {
    if q.kind.NandWrite? then n + 1 else if q.kind.NandErase? then 0 else n
  }

  /**
   From n programmed pages on, the queued requests on the block are disciplined, one after the
   other, and leave end pages.
   */
  ghost predicate InOrder<D>(n: nat, queue: seq<nat>, reqs: seq<Req<D>>, d: nat, b: nat, end: nat)
    decreases |queue|
  {
    if queue == [] then n == end
    else
      var r := queue[0];
      && r < |reqs|
      && if reqs[r].On(d, b) then Disciplined(n, reqs[r]) && InOrder(PagesAfter(n, reqs[r]), queue[1..], reqs, d, b,
          end)
         else InOrder(n, queue[1..], reqs, d, b, end)
  }

  lemma {:induction false} InOrderAppend<D>(n: nat, queue: seq<nat>, reqs: seq<Req<D>>, d: nat, b: nat, end: nat,
          r: nat)
    requires InOrder(n, queue, reqs, d, b, end) && r < |reqs| && (reqs[r].On(d, b) ==> Disciplined(end, reqs[r]))
    ensures InOrder(n, queue + [r], reqs, d, b, if reqs[r].On(d, b) then PagesAfter(end, reqs[r]) else end)
    decreases |queue|
  {
    if queue == [] {
      assert (queue + [r])[1..] == [];
    } else {
      var x := queue[0];
      assert (queue + [r])[0] == x && (queue + [r])[1..] == queue[1..] + [r];
      InOrderAppend(if reqs[x].On(d, b) then PagesAfter(n, reqs[x]) else n, queue[1..], reqs, d, b, end, r);
    }
  }

  /** The requests of slots outside the queue do not matter. */
  lemma {:induction false} InOrderFrame<D>(n: nat, queue: seq<nat>, reqs: seq<Req<D>>, reqs': seq<Req<D>>, d: nat,
          b: nat, end: nat)
    requires InOrder(n, queue, reqs, d, b, end) && |reqs'| == |reqs| && forall r :: r in queue ==>
        r < |reqs| && reqs'[r] == reqs[r]
    ensures InOrder(n, queue, reqs', d, b, end)
    decreases |queue|
  {
    if queue != [] {
      var x := queue[0];
      assert x in queue && forall r :: r in queue[1..] ==> r in queue;
      InOrderFrame(if reqs[x].On(d, b) then PagesAfter(n, reqs[x]) else n, queue[1..], reqs, reqs', d, b, end);
    }
  }

  /** The dependency table knows how many pages the block will have when its die's queue has run. */
  ghost predicate BlockOk<D>(g: Sizes, p: Pool<D>, d: nat, b: nat, n: nat)
    requires Shape(g, p) && d < g.dies && b < g.blocks
  {
    InOrder(n, p.queues[NandQ(g, d)], p.reqs, d, b, p.rows[d][b].permitted)
  }

  ghost predicate Ok<D>(g: Sizes, s: State<D>, held: Option<nat>) {
    && StateShape(g, s) && RS.QueuesOk(g, s.pool) && RS.HeldOk(s.pool, held)
    && forall d, b :: 0 <= d < g.dies && 0 <= b < g.blocks ==> BlockOk(g, s.pool, d, b, s.pages[d][b])
  }

  // ---------- a pool that keeps what the table knows ----------

  /** Whatever pages the blocks have now, the table of p' is as right about its queues as that of p. */
  ghost predicate Preserves<D>(g: Sizes, p: Pool<D>, p': Pool<D>) {
    && Shape(g, p) && Shape(g, p') && RS.QueuesOk(g, p')
    && forall d: nat, b: nat, n: nat :: d < g.dies && b < g.blocks && BlockOk(g, p, d, b, n) ==> BlockOk(g, p', d, b, n)
  }

  lemma PreservesTransitive<D>(g: Sizes, p: Pool<D>, p': Pool<D>, p'': Pool<D>)
    requires Preserves(g, p, p') && Preserves(g, p', p'')
    ensures Preserves(g, p, p'')
  {
    hide BlockOk;
  }

  /** Neither a NAND queue nor a page counter changes. */
  ghost predicate SameNand<D>(g: Sizes, p: Pool<D>, p': Pool<D>)
    requires Shape(g, p) && Shape(g, p')
  {
    && p'.reqs == p.reqs
    && (forall d :: 0 <= d < g.dies ==> p'.queues[NandQ(g, d)] == p.queues[NandQ(g, d)])
    && (forall d, b :: 0 <= d < g.dies && 0 <= b < g.blocks ==> p'.rows[d][b].permitted == p.rows[d][b].permitted)
  }

  lemma SamePreserves<D>(g: Sizes, p: Pool<D>, p': Pool<D>)
    requires Shape(g, p) && Shape(g, p') && SameNand(g, p, p') && RS.QueuesOk(g, p')
    ensures Preserves(g, p, p')
  {
    hide RS.QueuesOk, InOrder;
  }

  /**
   The check lets a request pass exactly when it suits the page counter and, for an erase, no read
   waits; the page counter then counts the request in. A read that must wait is counted on selection,
   and counted out when it passes later; an erase leaves its mark while it waits.
   */
  lemma PassIsDisciplined<D>(q: Req<D>, row: Row, select: bool)
    requires !q.Dma()
    ensures var (row', pass) := RowCheck(q, row, select);
            && (pass <==> Disciplined(row.permitted, q) && (q.kind.NandErase? ==> row.readers == 0))
            && row'.permitted == (if pass then PagesAfter(row.permitted, q) else row.permitted)
            && row'.readers == row.readers
                + (if q.kind.NandRead? && select && !pass then 1
                   else if q.kind.NandRead? && !select && pass then -1 else 0)
            && row'.erasing == if q.kind.NandErase? && (pass || select) then !pass else row.erasing
  {
  }

  /** Slot r, in no queue, enters its die's NAND queue. */
  lemma EnterPreserves<D>(g: Sizes, p: Pool<D>, r: nat, select: bool)
    requires Shape(g, p) && RS.QueuesOk(g, p) && r < |p.reqs| && p.place[r] == None && !p.reqs[r].Dma()
    requires RowCheck(p.reqs[r], RowOf(g, p, r), select).1
    ensures var row' := RowCheck(p.reqs[r], RowOf(g, p, r), select).0;
            Preserves(g, p, Put(g, SetRow(g, p, r, row'), NandQ(g, p.reqs[r].die), r))
  {
    var q := p.reqs[r];
    var row' := RowCheck(q, RowOf(g, p, r), select).0;
    var p1 := SetRow(g, p, r, row');
    var p' := Put(g, p1, NandQ(g, q.die), r);
    PassIsDisciplined(q, RowOf(g, p, r), select);
    RS.PutQueues(g, p1, NandQ(g, q.die), r);
    hide RS.QueuesOk, InOrder, Disciplined, PagesAfter, RowCheck;
    forall d: nat, b: nat, n: nat | d < g.dies && b < g.blocks && BlockOk(g, p, d, b, n)
      ensures BlockOk(g, p', d, b, n)
    {
      assert p'.rows[d][b].permitted == if q.On(d, b) then row'.permitted else p.rows[d][b].permitted;
      if d == q.die {
        InOrderAppend(n, p.queues[NandQ(g, d)], p.reqs, d, b, p.rows[d][b].permitted, r);
      }
    }
  }

  /** Slot r leaves a queue that is not a NAND queue. */
  lemma LeavePreserves<D>(g: Sizes, p: Pool<D>, r: nat)
    requires Shape(g, p) && RS.QueuesOk(g, p) && r < |p.reqs| && (p.place[r].Some? ==> p.place[r].value < 4 + g.dies)
    ensures Preserves(g, p, Take(g, p, r)) && Take(g, p, r).place == p.place[r := None]
  {
    RS.TakeQueues(g, p, r);
    SamePreserves(g, p, Take(g, p, r));
  }

  /**
   Slot r, in no queue, enters one that is not a NAND queue, while its block's counters other than
   the page counter change.
   */
  lemma WaitPreserves<D>(g: Sizes, p: Pool<D>, r: nat, q: nat, row: Row)
    requires Shape(g, p) && RS.QueuesOk(g, p) && r < |p.reqs| && p.place[r] == None && q < 4 + g.dies
        && RS.Suits(g, p.reqs[r], q)
    requires row.permitted == RowOf(g, p, r).permitted
    ensures Preserves(g, p, Put(g, SetRow(g, p, r, row), q, r))
  {
    var p1 := SetRow(g, p, r, row);
    RS.PutQueues(g, p1, q, r);
    hide RS.QueuesOk;
    SamePreserves(g, p, Put(g, p1, q, r));
  }

  lemma AdmitPreserves<D>(g: Sizes, p: Pool<D>, r: nat, select: bool)
    requires Shape(g, p) && RS.QueuesOk(g, p) && r < |p.reqs| && p.place[r] == None
    ensures Preserves(g, p, Admit(g, p, r, select))
  {
    hide RS.QueuesOk, Preserves;
    var q := p.reqs[r];
    if q.Dma() {
      RS.SetSameRow(g, p, r);
      WaitPreserves(g, p, r, DMA, RowOf(g, p, r));
    } else if RowCheck(q, RowOf(g, p, r), select).1 {
      EnterPreserves(g, p, r, select);
    } else {
      PassIsDisciplined(q, RowOf(g, p, r), select);
      WaitPreserves(g, p, r, RowQ(q.die), RowCheck(q, RowOf(g, p, r), select).0);
    }
  }

  lemma SelectPreserves<D>(g: Sizes, p: Pool<D>, r: nat)
    requires Shape(g, p) && RS.QueuesOk(g, p) && r < |p.reqs| && p.place[r] == None
    ensures Preserves(g, p, Select(g, p, r))
  {
    hide RS.QueuesOk, Preserves, Admit;
    if BufPass(g, p, r) {
      AdmitPreserves(g, p, r, true);
    } else {
      var row := RowOf(g, p, r);
      RS.SetSameRow(g, p, r);
      WaitPreserves(g, p, r, BUF, if p.reqs[r].kind.NandRead? then row.(readers := row.readers + 1) else row);
    }
  }

  lemma ReleasePreserves<D>(g: Sizes, p: Pool<D>, r: nat)
    requires Shape(g, p) && RS.QueuesOk(g, p) && r < |p.reqs|
    ensures Preserves(g, p, Release(g, p, r))
  {
    var p1 := Unlink(g, p, r);
    assert RS.QueuesOk(g, p1);
    SamePreserves(g, p, p1);
    if Successor(g, p, r).Some? {
      var t := Successor(g, p, r).value;
      assert t in p.chains[p.reqs[r].buf];
      if p1.place[t] == Some(BUF) {
        hide RS.QueuesOk, BlockOk, Admit, Take;
        LeavePreserves(g, p1, t);
        AdmitPreserves(g, Take(g, p1, t), t, false);
        PreservesTransitive(g, p, p1, Take(g, p1, t));
        PreservesTransitive(g, p, Take(g, p1, t), Admit(g, Take(g, p1, t), t, false));
      }
    }
  }

  /** A slot of the row-blocked queue passes. */
  lemma RowPreserves<D>(g: Sizes, p: Pool<D>, r: nat)
    requires Shape(g, p) && RS.QueuesOk(g, p) && r < |p.reqs| && p.place[r] == Some(RowQ(p.reqs[r].die))
        && !p.reqs[r].Dma()
    requires RowCheck(p.reqs[r], RowOf(g, p, r), false).1
    ensures var row := RowCheck(p.reqs[r], RowOf(g, p, r), false).0;
            var p' := Put(g, Take(g, SetRow(g, p, r, row), r), NandQ(g, p.reqs[r].die), r);
            Preserves(g, p, p') && p'.place == p.place[r := Some(NandQ(g, p.reqs[r].die))]
  {
    var row := RowCheck(p.reqs[r], RowOf(g, p, r), false).0;
    hide RowCheck, BlockOk;
    LeavePreserves(g, p, r);
    var p1 := Take(g, p, r);
    assert p1.place[r] == None && RowOf(g, p1, r) == RowOf(g, p, r);
    EnterPreserves(g, p1, r, false);
    assert Take(g, SetRow(g, p, r, row), r) == SetRow(g, p1, r, row);
    PreservesTransitive(g, p, p1, Put(g, SetRow(g, p1, r, row), NandQ(g, p.reqs[r].die), r));
  }

  lemma {:induction false} ReleaseRowsPreserves<D>(g: Sizes, p: Pool<D>, d: nat, waiting: seq<nat>)
    requires Shape(g, p) && RS.QueuesOk(g, p) && d < g.dies && Distinct(waiting)
    requires forall r :: r in waiting ==> r < |p.reqs| && p.place[r] == Some(RowQ(d))
    ensures Preserves(g, p, ReleaseRows(g, p, waiting))
    decreases |waiting|
  {
    if waiting == [] {
      SamePreserves(g, p, p);
    } else {
      var r := waiting[0];
      assert r in waiting && forall x :: x in waiting[1..] ==> x in waiting && x != r;
      assert RS.Suits(g, p.reqs[r], RowQ(d));
      hide RS.QueuesOk, BlockOk, RowCheck, Put, Take, SetRow;
      var (row, pass) := RowCheck(p.reqs[r], RowOf(g, p, r), false);
      if pass {
        RowPreserves(g, p, r);
        var p1 := Put(g, Take(g, SetRow(g, p, r, row), r), NandQ(g, p.reqs[r].die), r);
        ReleaseRowsPreserves(g, p1, d, waiting[1..]);
        PreservesTransitive(g, p, p1, ReleaseRows(g, p1, waiting[1..]));
      } else {
        ReleaseRowsPreserves(g, p, d, waiting[1..]);
      }
    }
  }

  // ---------- completions ----------

  /** The request's effect on the page counts. */
  function Acted<D>(g: Sizes, s: State<D>, r: nat): seq<seq<nat>>
    requires Shape(g, s.pool) && |s.pages| == g.dies && (forall d :: 0 <= d < |s.pages| ==> |s.pages[d]| == g.blocks)
        && r < |s.pool.reqs|
  {
    var q := s.pool.reqs[r];
    if q.Dma() then s.pages
    else
      var blocks: seq<nat> := s.pages[q.die][q.block := PagesAfter(s.pages[q.die][q.block], q)];
      s.pages[q.die := blocks]
  }

  /** A request that completes is disciplined. */
  lemma CompletionIsDisciplined<D>(g: Sizes, s: State<D>, held: Option<nat>, r: nat)
    requires Ok(g, s, held) && RS.MayComplete(g, s.pool, r) && !s.pool.reqs[r].Dma()
    ensures var q := s.pool.reqs[r]; Disciplined(s.pages[q.die][q.block], q)
  {
    var q := s.pool.reqs[r];
    assert RS.Suits(g, q, s.pool.place[r].value);
    assert BlockOk(g, s.pool, q.die, q.block, s.pages[q.die][q.block]);
    hide Disciplined;
  }

  /** The slot goes to the free queue; its request was the next of its die's queue. */
  lemma FreedIsOk<D>(g: Sizes, s: State<D>, held: Option<nat>, r: nat)
    requires Ok(g, s, held) && RS.MayComplete(g, s.pool, r)
    ensures var p1 := Put(g, Take(g, s.pool, r), FREE, r);
            RS.QueuesOk(g, p1) && forall d, b :: 0 <= d < g.dies && 0 <= b < g.blocks ==>
                BlockOk(g, p1, d, b, Acted(g, s, r)[d][b])
  {
    var q := s.pool.reqs[r];
    var p1 := Put(g, Take(g, s.pool, r), FREE, r);
    assert RS.Suits(g, q, s.pool.place[r].value);
    RS.TakeQueues(g, s.pool, r);
    RS.PutQueues(g, Take(g, s.pool, r), FREE, r);
    forall d, b | 0 <= d < g.dies && 0 <= b < g.blocks
      ensures BlockOk(g, p1, d, b, Acted(g, s, r)[d][b])
    {
      assert BlockOk(g, s.pool, d, b, s.pages[d][b]);
      var queue := s.pool.queues[NandQ(g, d)];
      if s.pool.place[r] == Some(NandQ(g, d)) {
        RS.WithoutHead(queue);
      }
      hide RS.QueuesOk, PagesAfter, Disciplined;
    }
  }

  // ---------- runs ----------

  /**
   Like the steps of the protocol, but with no condition on what is submitted, nor a wait before a
   read is decided on.
   */
  ghost predicate Step<D>(g: Sizes, s: State<D>, held: Option<nat>, v: RS.Event<D>, s': State<D>, held': Option<nat>) {
    && StateShape(g, s) && StateShape(g, s')
    && match v
       case Allocate => s.pool.queues[FREE] != [] && s' == s.(pool :=
           Take(g, s.pool, RS.First(g, s.pool, FREE))) && held' == held
       case ToSlice(r) =>
         r < |s.pool.reqs| && s.pool.place[r] == None && held != Some(r) && s' == s.(pool := Put(g, s.pool, SLICE, r))
             && held' == held
       case FromSlice => s.pool.queues[SLICE] != [] && s' == s.(pool :=
           Take(g, s.pool, RS.First(g, s.pool, SLICE))) && held' == held
       case Submitted(r, q) =>
         && r < |s.pool.reqs| && s.pool.place[r] == None && held == None && InRange(g, q)
         && s' == s.(pool := Link(g, s.pool.(reqs := s.pool.reqs[r := q]), r)) && held' == Some(r)
       case Decided => held.Some? && held.value < |s.pool.reqs| && s' == s.(pool :=
           Select(g, s.pool, held.value)) && held' == None
       case Completed(r) => RS.MayComplete(g, s.pool, r) && s' == State(Complete(g, s.pool, r),
           Acted(g, s, r)) && held' == held
       case Released(d) =>
         && d < g.dies && (forall r :: r in s.pool.queues[RowQ(d)] ==> r < |s.pool.reqs|)
         && s' == s.(pool := ReleaseRows(g, s.pool, s.pool.queues[RowQ(d)])) && held' == held
  }

  lemma PreservedIsOk<D>(g: Sizes, s: State<D>, held: Option<nat>, p: Pool<D>, held': Option<nat>)
    requires Ok(g, s, held) && Preserves(g, s.pool, p) && RS.HeldOk(p, held')
    ensures Ok(g, s.(pool := p), held')
  {
    hide RS.QueuesOk, BlockOk;
  }

  lemma SubmittedIsOk<D>(g: Sizes, s: State<D>, r: nat, q: Req<D>)
    requires Ok(g, s, None) && r < |s.pool.reqs| && s.pool.place[r] == None && InRange(g, q)
    ensures Ok(g, s.(pool := Link(g, s.pool.(reqs := s.pool.reqs[r := q]), r)), Some(r))
  {
    var p := Link(g, s.pool.(reqs := s.pool.reqs[r := q]), r);
    assert RS.QueuesOk(g, p);
    forall d, b | 0 <= d < g.dies && 0 <= b < g.blocks
      ensures BlockOk(g, p, d, b, s.pages[d][b])
    {
      assert BlockOk(g, s.pool, d, b, s.pages[d][b]) && r !in s.pool.queues[NandQ(g, d)];
      InOrderFrame(s.pages[d][b], s.pool.queues[NandQ(g, d)], s.pool.reqs, p.reqs, d, b, s.pool.rows[d][b].permitted);
    }
  }

  /** What is held stays out of the queues, whatever else moves: it is in no queue and in nobody's way. */
  lemma HeldStays<D>(g: Sizes, s: State<D>, held: Option<nat>, v: RS.Event<D>, s': State<D>, held': Option<nat>)
    requires Step(g, s, held, v, s', held') && (v.Completed? || v.Released?)
    requires RS.QueuesOk(g, s.pool) && RS.HeldOk(s.pool, held)
    ensures RS.HeldOk(s'.pool, held)
  {
    if held.Some? {
      match v
      case Completed(r) => CompleteLeavesOthers(g, s.pool, r, held.value);
      case Released(d) => RowsLeaveOthers(g, s.pool, s.pool.queues[RowQ(d)], held.value);
    }
  }

  lemma CompleteLeavesOthers<D>(g: Sizes, p: Pool<D>, r: nat, x: nat)
    requires Shape(g, p) && r < |p.reqs| && x < |p.place| && p.place[x] == None && x != r
    ensures |Complete(g, p, r).place| == |p.place| && Complete(g, p, r).place[x] == None
  {
  }

  lemma {:induction false} RowsLeaveOthers<D>(g: Sizes, p: Pool<D>, waiting: seq<nat>, x: nat)
    requires Shape(g, p) && (forall r :: r in waiting ==> r < |p.reqs|) && x !in waiting && x < |p.place|
    ensures ReleaseRows(g, p, waiting).place[x] == p.place[x] && |ReleaseRows(g, p, waiting).place| == |p.place|
    decreases |waiting|
  {
    if waiting != [] {
      var r := waiting[0];
      assert r in waiting && forall y :: y in waiting[1..] ==> y in waiting;
      var (row, pass) := RowCheck(p.reqs[r], RowOf(g, p, r), false);
      RowsLeaveOthers(g, if pass then Put(g, Take(g, SetRow(g, p, r, row), r), NandQ(g, p.reqs[r].die), r) else p,
          waiting[1..], x);
    }
  }

  lemma CompletedIsOk<D>(g: Sizes, s: State<D>, held: Option<nat>, r: nat)
    requires Ok(g, s, held) && RS.MayComplete(g, s.pool, r) && RS.HeldOk(Complete(g, s.pool, r), held)
    ensures Ok(g, State(Complete(g, s.pool, r), Acted(g, s, r)), held)
  {
    var p1 := Put(g, Take(g, s.pool, r), FREE, r);
    FreedIsOk(g, s, held, r);
    ReleasePreserves(g, p1, r);
    hide RS.QueuesOk, BlockOk, RS.MayComplete;
  }

  lemma StepKeeps<D>(g: Sizes, s: State<D>, held: Option<nat>, v: RS.Event<D>, s': State<D>, held': Option<nat>)
    requires Ok(g, s, held) && Step(g, s, held, v, s', held')
    ensures Ok(g, s', held')
  {
    match v
    case Allocate => HeadTakenIsOk(g, s, held, FREE);
    case ToSlice(r) => SlicedIsOk(g, s, held, r);
    case FromSlice => HeadTakenIsOk(g, s, held, SLICE);
    case Submitted(r, q) => SubmittedIsOk(g, s, r, q);
    case Decided =>
      hide RS.QueuesOk, BlockOk;
      SelectPreserves(g, s.pool, held.value);
      PreservedIsOk(g, s, held, s'.pool, held');
    case Completed(r) =>
      HeldStays(g, s, held, v, s', held');
      CompletedIsOk(g, s, held, r);
    case Released(d) =>
      hide RS.QueuesOk, BlockOk;
      HeldStays(g, s, held, v, s', held');
      RS.RowQueueDistinct(g, s.pool, d);
      ReleaseRowsPreserves(g, s.pool, d, s.pool.queues[RowQ(d)]);
      PreservedIsOk(g, s, held, s'.pool, held');
  }

  lemma HeadTakenIsOk<D>(g: Sizes, s: State<D>, held: Option<nat>, q: nat)
    requires Ok(g, s, held) && q < BUF && s.pool.queues[q] != []
    ensures Ok(g, s.(pool := Take(g, s.pool, RS.First(g, s.pool, q))), held)
  {
    hide BlockOk;
    var r := RS.First(g, s.pool, q);
    assert r in s.pool.queues[q];
    LeavePreserves(g, s.pool, r);
    PreservedIsOk(g, s, held, Take(g, s.pool, r), held);
  }

  lemma SlicedIsOk<D>(g: Sizes, s: State<D>, held: Option<nat>, r: nat)
    requires Ok(g, s, held) && r < |s.pool.reqs| && s.pool.place[r] == None && held != Some(r)
    ensures Ok(g, s.(pool := Put(g, s.pool, SLICE, r)), held)
  {
    hide RS.QueuesOk, BlockOk;
    RS.SetSameRow(g, s.pool, r);
    WaitPreserves(g, s.pool, r, SLICE, RowOf(g, s.pool, r));
    PreservedIsOk(g, s, held, Put(g, s.pool, SLICE, r), held);
  }

  ghost predicate Trace<D>(g: Sizes, states: seq<State<D>>, held: seq<Option<nat>>, events: seq<RS.Event<D>>) {
    && |states| == |held| == |events| + 1
    && forall i :: 0 <= i < |events| ==> Step(g, states[i], held[i], events[i], states[i + 1], held[i + 1])
  }

  /** If the event is the completion of a NAND request, the request suits what its block holds by then. */
  ghost predicate KeepsDiscipline<D>(g: Sizes, s: State<D>, v: RS.Event<D>) {
    v.Completed? ==>
      && StateShape(g, s) && v.r < |s.pool.reqs|
      && var q := s.pool.reqs[v.r]; Disciplined(s.pages[q.die][q.block], q)
  }

  lemma StepDisciplined<D>(g: Sizes, s: State<D>, held: Option<nat>, v: RS.Event<D>, s': State<D>, held': Option<nat>)
    requires Ok(g, s, held) && Step(g, s, held, v, s', held')
    ensures KeepsDiscipline(g, s, v)
  {
    if v.Completed? && !s.pool.reqs[v.r].Dma() {
      CompletionIsDisciplined(g, s, held, v.r);
    }
  }

  /**
   In every run, whatever is submitted and whenever: from an erase on a block is programmed at its
   pages 0, 1, 2, ..., every read hits a page programmed since the last erase, and every erase comes
   when exactly as many pages are programmed as it was told.
   */
  lemma {:induction false} RunsKeepDiscipline<D>(g: Sizes, states: seq<State<D>>, held: seq<Option<nat>>,
          events: seq<RS.Event<D>>, i: nat)
    requires Trace(g, states, held, events) && Ok(g, states[0], held[0]) && i <= |events|
    ensures Ok(g, states[i], held[i])
    ensures i < |events| ==> KeepsDiscipline(g, states[i], events[i])
  {
    hide Ok, Step, KeepsDiscipline;
    if i > 0 {
      RunsKeepDiscipline(g, states, held, events, i - 1);
      assert Step(g, states[i - 1], held[i - 1], events[i - 1], states[i], held[i]);
      StepKeeps(g, states[i - 1], held[i - 1], events[i - 1], states[i], held[i]);
    }
    if i < |events| {
      assert Step(g, states[i], held[i], events[i], states[i + 1], held[i + 1]);
      StepDisciplined(g, states[i], held[i], events[i], states[i + 1], held[i + 1]);
    }
  }

  /** Nothing is programmed and nothing queued at the start. */
  lemma InitIsOk<D>(g: Sizes, reqs: seq<Req<D>>, free: seq<nat>)
    requires |reqs| == |free| && forall r :: 0 <= r < |reqs| ==> free[r] == r && InRange(g, reqs[r])
    ensures Ok(g, State(InitPool(g, reqs, free), seq(g.dies, _ => seq(g.blocks, _ => 0))), None)
  {
    var p := InitPool(g, reqs, free);
    assert forall r: nat :: r in free <==> r < |reqs|  by {
      forall r: nat | r < |reqs|
        ensures r in free
      {
        assert free[r] == r;
      }
    }
    assert RS.QueuesOk(g, p);
  }
}
