/**
 When what is submitted is fresh. The firmware does not check it: a stale request takes a block whose
 erase waits and whose every page has a write waiting, so that a request pool with no more slots than
 a block has pages, and one, rules it out.
 */
module Freshness {
  import opened Common
  import opened Requests
  import opened RequestSafety

  // ---------- what is outstanding ----------

  /** Slot r holds a request that was linked and has not completed. */
  predicate Outstanding<D>(p: Pool<D>, held: Option<nat>, r: nat) {
    r < |p.reqs| == |p.place| && (held == Some(r) || (p.place[r].Some? && p.place[r].value >= BUF))
  }

  /** Requests, values and the memory of what was submitted stay, and nothing becomes outstanding. */
  ghost predicate Quietly<D>(s: Sys<D>, held: Option<nat>, s': Sys<D>, held': Option<nat>) {
    && s'.sub == s.sub && s'.val == s.val && s'.pool.reqs == s.pool.reqs
    && forall x: nat :: Outstanding(s'.pool, held', x) ==> Outstanding(s.pool, held, x)
  }

  lemma {:induction false} ReleaseIsQuiet<D>(g: Sizes, s: Sys<D>, held: Option<nat>, waiting: seq<nat>)
    requires SysShape(g, s) && forall r :: r in waiting ==> r < |s.pool.reqs| && Outstanding(s.pool, held, r)
    ensures Quietly(s, held, ReleaseStep(g, s, waiting), held)
    decreases |waiting|
  {
    if waiting != [] {
      var r := waiting[0];
      assert r in waiting && forall x :: x in waiting[1..] ==> x in waiting;
      var s1 := if RowCheck(s.pool.reqs[r], RowOf(g, s.pool, r), false).1 then Moved(g, s, r) else s;
      assert Quietly(s, held, s1, held);
      assert forall x :: x in waiting[1..] ==> Outstanding(s1.pool, held, x);
      ReleaseIsQuiet(g, s1, held, waiting[1..]);
    }
  }

  lemma CompleteIsQuiet<D>(g: Sizes, p: Pool<D>, held: Option<nat>, r: nat)
    requires Shape(g, p) && r < |p.reqs|
    ensures forall x: nat :: Outstanding(Complete(g, p, r), held, x) ==> Outstanding(p, held, x)
  {
  }

  /** Nothing but a submission makes a request outstanding. */
  lemma StepIsQuiet<D>(g: Sizes, s: Sys<D>, held: Option<nat>, v: Event<D>, s': Sys<D>, held': Option<nat>)
    requires Inv(g, s, held) && Step(g, s, held, v, s', held') && !v.Submitted?
    ensures Quietly(s, held, s', held')
  {
    hide Inv, InvBut, BlocksOk, ChainsOk, ReleaseStep, Complete, Lawful, Exec;
    RevealInv(g, s, held);
    match v
    case Allocate =>
    case ToSlice(r) =>
    case FromSlice =>
    case Decided =>
    case Completed(r) => CompleteIsQuiet(g, s.pool, held, r);
    case Released(d) =>
      RowQueueDistinct(g, s.pool, d);
      ReleaseIsQuiet(g, s, held, s.pool.queues[RowQ(d)]);
  }

  // ---------- erases of full blocks ----------

  /** The request is no erase, or one of a block with all its pages programmed. */
  predicate FullErase<D>(pages: nat, q: Req<D>) {
    q.kind.NandErase? ==> q.page == pages
  }

  ghost predicate FullErases<D>(pages: nat, p: Pool<D>, held: Option<nat>) {
    forall r: nat :: Outstanding(p, held, r) ==> FullErase(pages, p.reqs[r])
  }

  lemma StepKeepsFullErases<D>(g: Sizes, pages: nat, s: Sys<D>, held: Option<nat>, v: Event<D>, s': Sys<D>,
          held': Option<nat>)
    requires Inv(g, s, held) && Step(g, s, held, v, s', held') && FullErases(pages, s.pool, held)
    requires v.Submitted? ==> FullErase(pages, v.q)
    ensures FullErases(pages, s'.pool, held')
  {
    if v.Submitted? {
      forall x: nat | Outstanding(s'.pool, held', x)
        ensures FullErase(pages, s'.pool.reqs[x])
      {
        assert x != v.r ==> Outstanding(s.pool, held, x);
      }
    } else {
      StepIsQuiet(g, s, held, v, s', held');
      hide Inv, Step;
    }
  }

  // ---------- a stale request ----------

  /** The pending writes of the block's pages below k. */
  ghost function Writers<D>(g: Sizes, p: Pool<D>, held: Option<nat>, d: nat, b: nat, k: nat): set<nat> {
    set r: nat | r < |p.reqs| && Pending(g, p, held, r, d, b) && p.reqs[r].kind.NandWrite? && p.reqs[r].page < k
  }

  lemma WriterOf<D>(g: Sizes, p: Pool<D>, held: Option<nat>, d: nat, b: nat, k: nat) returns (r: nat)
    requires HasWriter(g, p, held, d, b, k)
    ensures Writers(g, p, held, d, b, k) + {r} <= Writers(g, p, held, d, b, k + 1)
    ensures r !in Writers(g, p, held, d, b, k)
  {
    r :| Pending(g, p, held, r, d, b) && p.reqs[r].kind.NandWrite? && p.reqs[r].page == k;
  }

  lemma {:induction false} WritersDiffer<D>(g: Sizes, p: Pool<D>, held: Option<nat>, d: nat, b: nat, k: nat)
    requires forall i: nat :: i < k ==> HasWriter(g, p, held, d, b, i)
    ensures |Writers(g, p, held, d, b, k)| >= k
  {
    hide HasWriter, Writers;
    if k > 0 {
      WritersDiffer(g, p, held, d, b, k - 1);
      var r := WriterOf(g, p, held, d, b, k - 1);
      SubsetSize(Writers(g, p, held, d, b, k - 1) + {r}, Writers(g, p, held, d, b, k));
    }
  }

  lemma PendingIsSlot<D>(g: Sizes, p: Pool<D>, held: Option<nat>, r: nat, d: nat, b: nat)
    requires Pending(g, p, held, r, d, b)
    ensures r < |p.reqs| && p.reqs[r].On(d, b) && (held == Some(r) || (r < |p.place| && p.place[r].Some?
        && p.place[r].value >= BUF))
  {
  }

  /** While a stale request is submitted, the erase of its block and the writes of all its pages are pending. */
  lemma StaleNeedsWholeBlock<D>(g: Sizes, s: Sys<D>, q: Req<D>, pages: nat)
    requires Inv(g, s, None) && InRange(g, q) && Lawful(g, s.sub, q) && !Fresh(s.pool.rows[q.die][q.block], q)
    requires FullErases(pages, s.pool, None) && FullErase(pages, q)
    ensures forall i: nat :: i < pages ==> HasWriter(g, s.pool, None, q.die, q.block, i)
    ensures exists t: nat :: Pending(g, s.pool, None, t, q.die, q.block) && s.pool.reqs[t].kind.NandErase?
  {
    var (d, b) := (q.die, q.block);
    assert BlockOk(g, s, None, d, b);
    var row, now, sub := s.pool.rows[d][b], s.now[d][b], s.sub.flash[d][b];
    hide BlocksOk, ChainsOk, QueuesOk, Runs, Readers, Pending, HasWriter, Inv;
    assert RowOk(s.pool, None, d, b, row, now, sub) && NothingLost(g, s.pool, None, d, b, row, |now|, |sub|);
    var t: nat :| Pending(g, s.pool, None, t, d, b) && s.pool.reqs[t].kind.NandErase?;
    PendingIsSlot(g, s.pool, None, t, d, b);
    assert Outstanding(s.pool, None, t);
    assert SlotOk(s.pool.reqs[t], s.val[t], StageOf(g, s.pool, None, t), row, Erasing(s.pool, None, d, b, row), now,
        sub);
    assert q.kind.NandWrite? ==> |sub| == row.permitted && |now| == pages;
    assert q.kind.NandErase? ==> |sub| == pages;
  }

  /**
   With at most one slot more than a block has pages, and erases of full blocks only, every lawful
   request is fresh.
   */
  lemma FewSlotsAreFresh<D>(g: Sizes, s: Sys<D>, r: nat, q: Req<D>, pages: nat)
    requires Inv(g, s, None) && r < |s.pool.reqs| <= pages + 1 && s.pool.place[r] == None && InRange(g, q)
    requires Lawful(g, s.sub, q) && FullErases(pages, s.pool, None) && FullErase(pages, q)
    ensures Fresh(s.pool.rows[q.die][q.block], q)
  {
    if !Fresh(s.pool.rows[q.die][q.block], q) {
      StaleNeedsWholeBlock(g, s, q, pages);
      WritersDiffer(g, s.pool, None, q.die, q.block, pages);
      var t: nat :| Pending(g, s.pool, None, t, q.die, q.block) && s.pool.reqs[t].kind.NandErase?;
      TooMany(g, s.pool, q.die, q.block, pages, t, r);
    }
  }

  /** The writes of all pages, the erase and a free slot do not fit into so few slots. */
  lemma TooMany<D>(g: Sizes, p: Pool<D>, d: nat, b: nat, pages: nat, t: nat, r: nat)
    requires r < |p.reqs| == |p.place| && p.place[r] == None && Pending(g, p, None, t, d, b)
        && p.reqs[t].kind.NandErase? && |Writers(g, p, None, d, b, pages)| >= pages
    ensures |p.reqs| > pages + 1
  {
    var w := Writers(g, p, None, d, b, pages);
    assert t !in w && r !in w && t != r;
    SubsetSize(w + {t, r}, Below(|p.reqs|));
    assert |w + {t, r}| == |w| + 2;
  }

  /** With so few slots, every request acts as it did when submitted, whatever is submitted when. */
  lemma {:induction false} FewSlotsRunFaithfully<D>(g: Sizes, states: seq<Sys<D>>, held: seq<Option<nat>>,
          events: seq<Event<D>>, pages: nat, n: nat)
    requires Trace(g, states, held, events) && n <= |events| && Inv(g, states[0], held[0])
    requires |states[0].pool.reqs| <= pages + 1 && FullErases(pages, states[0].pool, held[0])
    requires forall i :: 0 <= i < |events| && events[i].Submitted? ==> FullErase(pages, events[i].q)
    ensures Inv(g, states[n], held[n]) && FullErases(pages, states[n].pool, held[n])
        && |states[n].pool.reqs| == |states[0].pool.reqs|
    ensures n < |events| && events[n].Completed? ==>
        MayComplete(g, states[n].pool, events[n].r) && Faithful(g, states[n], events[n].r)
  {
    hide Inv, Step, FullErases, Faithful, MayComplete;
    if n > 0 {
      FewSlotsRunFaithfully(g, states, held, events, pages, n - 1);
      assert Step(g, states[n - 1], held[n - 1], events[n - 1], states[n], held[n]);
      FewSlotsStep(g, pages, states[n - 1], held[n - 1], events[n - 1], states[n], held[n]);
    }
    if n < |events| && events[n].Completed? {
      assert Step(g, states[n], held[n], events[n], states[n + 1], held[n + 1]);
      StepIsFaithful(g, states[n], held[n], events[n], states[n + 1], held[n + 1]);
    }
  }

  lemma FewSlotsStep<D>(g: Sizes, pages: nat, s: Sys<D>, held: Option<nat>, v: Event<D>, s': Sys<D>,
          held': Option<nat>)
    requires Inv(g, s, held) && Step(g, s, held, v, s', held') && FullErases(pages, s.pool, held)
    requires |s.pool.reqs| <= pages + 1 && (v.Submitted? ==> FullErase(pages, v.q))
    ensures Inv(g, s', held') && FullErases(pages, s'.pool, held') && |s'.pool.reqs| == |s.pool.reqs|
  {
    StepKeepsFullErases(g, pages, s, held, v, s', held');
    StepKeeps(g, s, held, v, s', held');
    if v.Submitted? {
      hide Inv, Submit, Lawful, FullErases, Fresh;
      FewSlotsAreFresh(g, s, v.r, v.q, pages);
    } else {
      StepIsQuiet(g, s, held, v, s', held');
      hide Inv, Step, FullErases;
    }
  }

  lemma StepIsFaithful<D>(g: Sizes, s: Sys<D>, held: Option<nat>, v: Event<D>, s': Sys<D>, held': Option<nat>)
    requires Inv(g, s, held) && Step(g, s, held, v, s', held') && v.Completed?
    ensures MayComplete(g, s.pool, v.r) && Faithful(g, s, v.r)
  {
    hide Inv;
    CompletionIsFaithful(g, s, held, v.r);
  }
}
