/**
 That the loops which wait for the low-level requests end. In every run whose submissions are fresh,
 as long as anything is outstanding some request can complete or some release lets one go, and no run
 without new submissions has more of such steps than twice the slots. What keeps a cycle of waiting
 requests away is the order of submission: whoever a request waits for was submitted before it.
 */
module Liveness {
  import opened Common
  import opened Requests
  import opened RequestSafety
  import Freshness

  /** Slot t holds a request that was decided on and has not completed. */
  predicate InFlight<D>(p: Pool<D>, t: nat) {
    t < |p.place| && p.place[t].Some? && p.place[t].value >= BUF
  }

  /**
   Of two pending requests on a block with the given number of permitted pages, q has to enter the
   NAND queue before t does. Writes at and above that number belong before a waiting erase, those
   below it behind; a read not yet decided on has waited for no erase.
   */
  predicate Before<D>(q: Req<D>, asking: bool, t: Req<D>, permitted: nat) {
    match q.kind
    case NandWrite =>
      || (t.kind.NandWrite? && q.page < t.page && (q.page < permitted <==> t.page < permitted))
      || (t.kind.NandRead? && q.page == t.page && q.page >= permitted)
      || (t.kind.NandErase? && q.page >= permitted)
    case NandRead => t.kind.NandErase? && !asking
    case NandErase => t.kind.NandWrite? && t.page < permitted
    case _ => false
  }

  // ---------- the order of submission ----------

  /** born[r] is when the request of slot r was submitted. */
  ghost predicate BornBefore(born: seq<nat>, r: nat, t: nat) {
    r < |born| && t < |born| && born[r] < born[t]
  }

  ghost predicate BlockOrdered<D>(g: Sizes, p: Pool<D>, held: Option<nat>, born: seq<nat>, d: nat, b: nat)
    requires Shape(g, p) && d < g.dies && b < g.blocks
  {
    forall r: nat, t: nat ::
      (r != t && Pending(g, p, held, r, d, b) && Pending(g, p, held, t, d, b)
       && Before(p.reqs[r], held == Some(r), p.reqs[t], p.rows[d][b].permitted)) ==> BornBefore(born, r, t)
  }

  ghost predicate ChainOrdered(c: seq<nat>, born: seq<nat>) {
    forall i, j :: 0 <= i < j < |c| ==> BornBefore(born, c[i], c[j])
  }

  /** The held request is the latest. */
  ghost predicate HeldIsLatest<D>(p: Pool<D>, held: Option<nat>, born: seq<nat>) {
    held.Some? ==> forall t: nat :: InFlight(p, t) && t != held.value ==> BornBefore(born, t, held.value)
  }

  /** Whatever waits for something else is younger than that. */
  ghost predicate Ordered<D>(g: Sizes, s: Sys<D>, held: Option<nat>, born: seq<nat>)
    requires SysShape(g, s)
  {
    && |born| == |s.pool.reqs| && HeldIsLatest(s.pool, held, born)
    && (forall d, b :: 0 <= d < g.dies && 0 <= b < g.blocks ==> BlockOrdered(g, s.pool, held, born, d, b))
    && (forall e :: 0 <= e < g.bufs ==> ChainOrdered(s.pool.chains[e], born))
  }

  // ---------- every step keeps it ----------

  lemma OrderedIf<D>(g: Sizes, p: Pool<D>, held: Option<nat>, born: seq<nat>, d: nat, b: nat)
    requires Shape(g, p) && d < g.dies && b < g.blocks
    requires forall r: nat, t: nat ::
      (r != t && Pending(g, p, held, r, d, b) && Pending(g, p, held, t, d, b)
       && Before(p.reqs[r], held == Some(r), p.reqs[t], p.rows[d][b].permitted)) ==> BornBefore(born, r, t)
    ensures BlockOrdered(g, p, held, born, d, b)
  {
  }

  /** Fewer pending requests, the same permitted pages. */
  lemma FewerPending<D>(g: Sizes, p: Pool<D>, p': Pool<D>, held: Option<nat>, born: seq<nat>, d: nat, b: nat)
    requires Shape(g, p) && Shape(g, p') && d < g.dies && b < g.blocks && BlockOrdered(g, p, held, born, d, b)
    requires p'.rows[d][b].permitted == p.rows[d][b].permitted && p'.reqs == p.reqs
    requires forall t: nat :: Pending(g, p', held, t, d, b) ==> Pending(g, p, held, t, d, b)
    ensures BlockOrdered(g, p', held, born, d, b)
  {
    hide Pending;
  }

  /** A block the request that moves is not on. */
  lemma PlacedAside<D>(g: Sizes, s: Sys<D>, s': Sys<D>, held: Option<nat>, held': Option<nat>, r: nat, q: nat,
          born: seq<nat>, d: nat, b: nat)
    requires SysShape(g, s) && SysShape(g, s') && Placed(g, s, s', held, held', r, q)
    requires d < g.dies && b < g.blocks && !s.pool.reqs[r].On(d, b) && BlockOrdered(g, s.pool, held, born, d, b)
    ensures BlockOrdered(g, s'.pool, held', born, d, b)
  {
    PlacedOthers(g, s, s', held, held', r, q, d, b);
    assert !Pending(g, s.pool, held, r, d, b);
    hide Placed, Pending;
    assert forall t: nat :: SameSlot(g, s, s', held, held', t, d, b);
  }

  /** The request that moves does not enter its NAND queue: it waits, as before or from now on. */
  lemma PlacedWaits<D>(g: Sizes, s: Sys<D>, s': Sys<D>, held: Option<nat>, held': Option<nat>, r: nat, q: nat,
          born: seq<nat>)
    requires SysShape(g, s) && SysShape(g, s') && Placed(g, s, s', held, held', r, q) && MayEnter(g, s, held, r)
    requires var k := s.pool.reqs[r];
        && !k.Dma() && RowChanged(g, s, s', held, r, q) && q != NandQ(g, k.die)
        && BlockOk(g, s, held, k.die, k.block) && BlockOrdered(g, s.pool, held, born, k.die, k.block)
    ensures BlockOrdered(g, s'.pool, held', born, s.pool.reqs[r].die, s.pool.reqs[r].block)
  {
  }

  /** Two other requests on the block of a request that the check lets pass. */
  lemma PassedPair<D>(g: Sizes, s: Sys<D>, held: Option<nat>, born: seq<nat>, r: nat, x: nat, t: nat, row': Row)
    requires SysShape(g, s) && HeldIsLatest(s.pool, held, born) && r < |s.pool.reqs| && x != t && r != x && r != t
    requires var (d, b) := (s.pool.reqs[r].die, s.pool.reqs[r].block);
        && BlockOk(g, s, held, d, b) && BlockOrdered(g, s.pool, held, born, d, b) && Pending(g, s.pool, held, r, d, b)
        && Pending(g, s.pool, held, x, d, b) && Pending(g, s.pool, held, t, d, b)
    requires RowCheck(s.pool.reqs[r], RowOf(g, s.pool, r), held == Some(r)) == (row', true)
    requires Before(s.pool.reqs[x], held == Some(x), s.pool.reqs[t], row'.permitted)
    ensures BornBefore(born, x, t)
  {
    hide Runs, NothingLost, RowOk;
    var k := s.pool.reqs[r];
    var (d, b) := (k.die, k.block);
    var row, now, sub := s.pool.rows[d][b], s.now[d][b], s.sub.flash[d][b];
    var erasing := Erasing(s.pool, held, d, b, row);
    assert Compatible(s.pool.reqs[r], s.pool.reqs[x]) && Compatible(s.pool.reqs[r], s.pool.reqs[t]);
    assert SlotOk(k, s.val[r], StageOf(g, s.pool, held, r), row, erasing, now, sub);
    assert SlotOk(s.pool.reqs[x], s.val[x], StageOf(g, s.pool, held, x), row, erasing, now, sub);
    assert SlotOk(s.pool.reqs[t], s.val[t], StageOf(g, s.pool, held, t), row, erasing, now, sub);
    if k.kind.NandErase? && s.pool.reqs[t].kind.NandRead? {
      assert t !in Readers(g, s.pool, held, d, b);
      assert held == Some(t) && InFlight(s.pool, x);
    }
  }

  /** The request that moves enters its NAND queue. */
  lemma PlacedPasses<D>(g: Sizes, s: Sys<D>, s': Sys<D>, held: Option<nat>, held': Option<nat>, r: nat, q: nat,
          born: seq<nat>)
    requires SysShape(g, s) && SysShape(g, s') && Placed(g, s, s', held, held', r, q) && MayEnter(g, s, held, r)
    requires HeldIsLatest(s.pool, held, born)
    requires var k := s.pool.reqs[r];
        && !k.Dma() && RowChanged(g, s, s', held, r, q) && q == NandQ(g, k.die)
        && BlockOk(g, s, held, k.die, k.block) && BlockOrdered(g, s.pool, held, born, k.die, k.block)
    ensures BlockOrdered(g, s'.pool, held', born, s.pool.reqs[r].die, s.pool.reqs[r].block)
  {
    hide BlockOk, BlockOrdered, RowCheck, Before, HeldIsLatest, BornBefore;
    var (d, b) := (s.pool.reqs[r].die, s.pool.reqs[r].block);
    var row' := s'.pool.rows[d][b];
    PlacedOthers(g, s, s', held, held', r, q, d, b);
    assert Pending(g, s.pool, held, r, d, b) && !Pending(g, s'.pool, held', r, d, b);
    assert s'.pool.reqs == s.pool.reqs;
    forall x: nat, t: nat | x != t && Pending(g, s'.pool, held', x, d, b) && Pending(g, s'.pool, held', t, d, b)
        && Before(s'.pool.reqs[x], held' == Some(x), s'.pool.reqs[t], row'.permitted)
      ensures BornBefore(born, x, t)
    {
      assert SameSlot(g, s, s', held, held', x, d, b) && SameSlot(g, s, s', held, held', t, d, b);
      PassedPair(g, s, held, born, r, x, t, row');
    }
    OrderedIf(g, s'.pool, held', born, d, b);
  }

  lemma PlacedOrdered<D>(g: Sizes, s: Sys<D>, s': Sys<D>, held: Option<nat>, held': Option<nat>, r: nat, q: nat,
          born: seq<nat>)
    requires SysShape(g, s) && SysShape(g, s') && BlocksOk(g, s, held) && Ordered(g, s, held, born)
    requires Placed(g, s, s', held, held', r, q) && MayEnter(g, s, held, r)
    requires !s.pool.reqs[r].Dma() ==> RowChanged(g, s, s', held, r, q)
    ensures Ordered(g, s', held', born)
  {
    var k := s.pool.reqs[r];
    assert InRange(g, k) && (held != Some(r) ==> InFlight(s.pool, r));
    hide BlockOk, BlockOrdered, RowChanged, MayEnter, ChainOrdered, InRange;
    forall d, b | 0 <= d < g.dies && 0 <= b < g.blocks
      ensures BlockOrdered(g, s'.pool, held', born, d, b)
    {
      if !k.On(d, b) {
        PlacedAside(g, s, s', held, held', r, q, born, d, b);
      } else if q == NandQ(g, k.die) {
        PlacedPasses(g, s, s', held, held', r, q, born);
      } else {
        PlacedWaits(g, s, s', held, held', r, q, born);
      }
    }
  }

  lemma DecideOrdered<D>(g: Sizes, s: Sys<D>, r: nat, born: seq<nat>)
    requires Inv(g, s, Some(r)) && Ordered(g, s, Some(r), born)
        && (s.pool.reqs[r].kind.NandRead? ==> !RowOf(g, s.pool, r).erasing)
    ensures Ordered(g, Decide(g, s, r), None, born)
  {
    assert BlocksOk(g, s, Some(r)) && MayEnter(g, s, Some(r), r);
    hide BlocksOk, ChainsOk, QueuesOk, Ordered, RowChanged, MayEnter, Decide, Decision, Placed;
    DecidePlaces(g, s, r);
    PlacedOrdered(g, s, Decide(g, s, r), Some(r), None, r, Decision(g, s.pool, r), born);
  }

  lemma MovedOrdered<D>(g: Sizes, s: Sys<D>, held: Option<nat>, free: Option<nat>, t: nat, born: seq<nat>)
    requires InvBut(g, s, held, free) && Ordered(g, s, held, born) && t < |s.pool.reqs| && held != Some(t)
    requires StageOf(g, s.pool, held, t).Waiting?
        && (s.pool.place[t] == Some(BUF) || RowCheck(s.pool.reqs[t], RowOf(g, s.pool, t), false).1)
    ensures Ordered(g, Moved(g, s, t), held, born)
  {
    hide BlocksOk, ChainsOk, QueuesOk, Ordered, RowChanged, MayEnter, Moved, Target, Placed, StageOf, RowCheck;
    MovedPlaces(g, s, held, t);
    PlacedOrdered(g, s, Moved(g, s, t), held, held, t, Target(g, s.pool, t, false), born);
  }

  /** The completing request is the first of its chain. */
  lemma FinishedChain<D>(g: Sizes, s: Sys<D>, held: Option<nat>, r: nat, e: nat)
    requires Inv(g, s, held) && MayComplete(g, s.pool, r) && Lawful(g, s.act, s.pool.reqs[r]) && e < g.bufs
    ensures var c, c' := s.pool.chains[e], Finish(g, s, r).pool.chains[e];
            c' == c || (c != [] && c' == c[1..])
  {
    var k := s.pool.reqs[r];
    assert HeldOk(s.pool, held);
    assert k.Buffered() ==> ChainOk(g, s, held, None, k.buf);
    hide BlocksOk, ChainsOk, QueuesOk, ChainOk;
    if k.Buffered() {
      OnlyHeadIsOut(g, s, held, r);
      WithoutHead(s.pool.chains[k.buf]);
    }
  }

  lemma FinishOrdered<D>(g: Sizes, s: Sys<D>, held: Option<nat>, r: nat, born: seq<nat>)
    requires Inv(g, s, held) && MayComplete(g, s.pool, r) && Ordered(g, s, held, born)
    ensures Lawful(g, s.act, s.pool.reqs[r]) && Ordered(g, Finish(g, s, r), held, born)
  {
    hide BlocksOk, ChainsOk, QueuesOk, BlockOrdered, Lawful, Exec, Pending, MayComplete, Finish, ChainOrdered;
    HeldIsNot(g, s, held, r);
    CompletionIsFaithful(g, s, held, r);
    FinishQueues(g, s, r);
    var s' := Finish(g, s, r);
    assert s'.pool.reqs == s.pool.reqs && s'.val == s.val && s'.pool.rows == s.pool.rows by {
      FinishedReqs(g, s, r);
    }
    forall d, b | 0 <= d < g.dies && 0 <= b < g.blocks
      ensures BlockOrdered(g, s'.pool, held, born, d, b)
    {
      FinishSlots(g, s, s', held, r, d, b);
      forall x: nat | Pending(g, s'.pool, held, x, d, b)
        ensures Pending(g, s.pool, held, x, d, b)
      {
        assert SameSlot(g, s, s', held, held, x, d, b);
      }
      FewerPending(g, s.pool, s'.pool, held, born, d, b);
    }
    forall e | 0 <= e < g.bufs
      ensures ChainOrdered(s'.pool.chains[e], born)
    {
      FinishedChain(g, s, held, r, e);
      ChainTail(s.pool.chains[e], born);
    }
  }

  lemma HeldIsNot<D>(g: Sizes, s: Sys<D>, held: Option<nat>, r: nat)
    requires Inv(g, s, held) && MayComplete(g, s.pool, r)
    ensures held != Some(r) && r < |s.pool.reqs|
  {
  }

  lemma FinishedReqs<D>(g: Sizes, s: Sys<D>, r: nat)
    requires SysShape(g, s) && r < |s.pool.reqs| && Lawful(g, s.act, s.pool.reqs[r])
    ensures Finish(g, s, r).pool.reqs == s.pool.reqs && Finish(g, s, r).val == s.val
        && Finish(g, s, r).pool.rows == s.pool.rows
  {
  }

  lemma ChainTail(c: seq<nat>, born: seq<nat>)
    requires ChainOrdered(c, born)
    ensures c != [] ==> ChainOrdered(c[1..], born)
  {
  }

  /** A completion is the end of one request and the move of at most one other. */
  lemma CompleteInTwo<D>(g: Sizes, s: Sys<D>, held: Option<nat>, r: nat)
    requires Inv(g, s, held) && MayComplete(g, s.pool, r)
    ensures Lawful(g, s.act, s.pool.reqs[r]) && InvBut(g, Finish(g, s, r), held, Successor(g, s.pool, r))
    ensures var free := Successor(g, s.pool, r); var s1 := Finish(g, s, r);
            if free.Some? && free.value < |s1.pool.place| && s1.pool.place[free.value] == Some(BUF) then
              held != free && free.value < |s1.pool.reqs| && CompleteStep(g, s, r) == Moved(g, s1, free.value)
            else CompleteStep(g, s, r) == s1
  {
    hide BlocksOk, ChainsOk, Lawful, Admit, Unlink;
    FinishKeeps(g, s, held, r);
    var free := Successor(g, s.pool, r);
    assert free.Some? ==> free.value in s.pool.chains[s.pool.reqs[r].buf];
  }

  lemma CompleteOrdered<D>(g: Sizes, s: Sys<D>, held: Option<nat>, r: nat, born: seq<nat>)
    requires Inv(g, s, held) && MayComplete(g, s.pool, r) && Ordered(g, s, held, born)
    ensures Lawful(g, s.act, s.pool.reqs[r]) && Ordered(g, CompleteStep(g, s, r), held, born)
  {
    hide Inv, BlocksOk, ChainsOk, QueuesOk, Lawful, Ordered, Moved, Finish, CompleteStep, MayComplete, Successor;
    RevealInv(g, s, held);
    HeldIsNot(g, s, held, r);
    CompleteInTwo(g, s, held, r);
    FinishOrdered(g, s, held, r, born);
    var free, s1 := Successor(g, s.pool, r), Finish(g, s, r);
    if free.Some? && free.value < |s1.pool.place| && s1.pool.place[free.value] == Some(BUF) {
      MovedOrdered(g, s1, held, free, free.value, born);
    }
  }

  lemma {:induction false} ReleaseOrdered<D>(g: Sizes, s: Sys<D>, held: Option<nat>, d: nat, waiting: seq<nat>,
          born: seq<nat>)
    requires Inv(g, s, held) && Ordered(g, s, held, born) && d < g.dies && Distinct(waiting)
    requires forall r :: r in waiting ==> r < |s.pool.reqs| && s.pool.place[r] == Some(RowQ(d))
    ensures Ordered(g, ReleaseStep(g, s, waiting), held, born)
    decreases |waiting|
  {
    hide Inv, QueuesOk, BlocksOk, ChainsOk, Ordered;
    if waiting != [] {
      var r := waiting[0];
      assert r in waiting && forall x :: x in waiting[1..] ==> x in waiting && x != r;
      assert Inv(g, s, held) ==> InvBut(g, s, held, None) && HeldOk(s.pool, held) by {
        RevealInv(g, s, held);
      }
      if RowCheck(s.pool.reqs[r], RowOf(g, s.pool, r), false).1 {
        MovedKeeps(g, s, held, None, r);
        MovedOrdered(g, s, held, None, r, born);
        assert Moved(g, s, r).pool.place == s.pool.place[r := Some(Target(g, s.pool, r, false))];
        ReleaseOrdered(g, Moved(g, s, r), held, d, waiting[1..], born);
      } else {
        ReleaseOrdered(g, s, held, d, waiting[1..], born);
      }
    }
  }

  /** Moving a slot that holds no outstanding request. */
  lemma IdleOrdered<D>(g: Sizes, s: Sys<D>, held: Option<nat>, p: Pool<D>, r: nat, born: seq<nat>)
    requires SysShape(g, s) && Ordered(g, s, held, born) && Shape(g, p)
        && p == s.pool.(place := p.place, queues := p.queues)
    requires r < |s.pool.reqs| && held != Some(r) && (s.pool.place[r].None? || s.pool.place[r].value < BUF)
    requires exists q: Option<nat> :: (q.None? || q.value < BUF) && p.place == s.pool.place[r := q]
    ensures Ordered(g, s.(pool := p), held, born)
  {
    hide BlockOrdered, ChainOrdered;
    forall d, b | 0 <= d < g.dies && 0 <= b < g.blocks
      ensures BlockOrdered(g, p, held, born, d, b)
    {
      FewerPending(g, s.pool, p, held, born, d, b);
    }
  }

  // ---------- a submission is the youngest ----------

  /** A fresh lawful request need not enter before any that is pending. */
  lemma SubmittedIsLast<D>(g: Sizes, s: Sys<D>, q: Req<D>, t: nat)
    requires SysShape(g, s) && InRange(g, q) && Admissible(g, s, q) && BlockOk(g, s, None, q.die, q.block)
    requires Pending(g, s.pool, None, t, q.die, q.block)
    ensures !Before(q, true, s.pool.reqs[t], s.pool.rows[q.die][q.block].permitted)
  {
    hide Runs, NothingLost;
    var row, now, sub := s.pool.rows[q.die][q.block], s.now[q.die][q.block], s.sub.flash[q.die][q.block];
    assert SlotOk(s.pool.reqs[t], s.val[t], StageOf(g, s.pool, None, t), row,
        Erasing(s.pool, None, q.die, q.block, row), now, sub);
  }

  ghost predicate Newest(born: seq<nat>, now: nat) {
    forall r :: 0 <= r < |born| ==> born[r] < now
  }

  lemma SubmitOrdered<D>(g: Sizes, s: Sys<D>, r: nat, q: Req<D>, born: seq<nat>, now: nat)
    requires Inv(g, s, None) && Ordered(g, s, None, born) && r < |s.pool.reqs| && s.pool.place[r] == None
        && InRange(g, q) && Admissible(g, s, q) && Newest(born, now)
    ensures Ordered(g, Submit(g, s, r, q), Some(r), born[r := now])
  {
    var s', born' := Submit(g, s, r, q), born[r := now];
    hide BlocksOk, ChainsOk, QueuesOk, Admissible, Pending, Before;
    forall d, b | 0 <= d < g.dies && 0 <= b < g.blocks
      ensures BlockOrdered(g, s'.pool, Some(r), born', d, b)
    {
      SubmitBlock(g, s, r, q, born, now, d, b);
    }
    forall e | 0 <= e < g.bufs
      ensures ChainOrdered(s'.pool.chains[e], born')
    {
      SubmitOwnChain(g, s, r, q, born, now, e);
    }
  }

  lemma SubmitBlock<D>(g: Sizes, s: Sys<D>, r: nat, q: Req<D>, born: seq<nat>, now: nat, d: nat, b: nat)
    requires Inv(g, s, None) && Ordered(g, s, None, born) && r < |s.pool.reqs| && s.pool.place[r] == None
        && InRange(g, q) && Admissible(g, s, q) && Newest(born, now) && d < g.dies && b < g.blocks
    ensures BlockOrdered(g, Submit(g, s, r, q).pool, Some(r), born[r := now], d, b)
  {
    var s', born' := Submit(g, s, r, q), born[r := now];
    assert BlockOrdered(g, s.pool, None, born, d, b) && BlockOk(g, s, None, d, b);
    SubmittedSlots(g, s, s', r, q, d, b);
    hide Inv, Ordered, BlockOk, Admissible, Pending, Before, Submit, Lawful;
    assert s'.pool.reqs == s.pool.reqs[r := q] && s'.pool.rows == s.pool.rows by {
      SubmittedReqs(g, s, r, q);
    }
    forall x: nat, t: nat | x != t && Pending(g, s'.pool, Some(r), x, d, b) && Pending(g, s'.pool, Some(r), t, d, b)
        && Before(s'.pool.reqs[x], Some(r) == Some(x), s'.pool.reqs[t], s'.pool.rows[d][b].permitted)
      ensures BornBefore(born', x, t)
    {
      assert SameSlot(g, s, s', None, Some(r), x, d, b) || x == r;
      assert SameSlot(g, s, s', None, Some(r), t, d, b) || t == r;
      if x == r {
        SubmittedIsLast(g, s, q, t);
      }
    }
    OrderedIf(g, s'.pool, Some(r), born', d, b);
  }

  lemma SubmittedReqs<D>(g: Sizes, s: Sys<D>, r: nat, q: Req<D>)
    requires SysShape(g, s) && r < |s.pool.reqs| && InRange(g, q) && Lawful(g, s.sub, q)
    ensures Submit(g, s, r, q).pool.reqs == s.pool.reqs[r := q] && Submit(g, s, r, q).pool.rows == s.pool.rows
  {
  }

  lemma SubmitOwnChain<D>(g: Sizes, s: Sys<D>, r: nat, q: Req<D>, born: seq<nat>, now: nat, e: nat)
    requires Inv(g, s, None) && Ordered(g, s, None, born) && r < |s.pool.reqs| && s.pool.place[r] == None
        && InRange(g, q) && Admissible(g, s, q) && Newest(born, now) && e < g.bufs
    ensures ChainOrdered(Submit(g, s, r, q).pool.chains[e], born[r := now])
  {
    var c := s.pool.chains[e];
    assert ChainOk(g, s, None, None, e);
    assert r !in c by {
      assert !LinkedTo(s.pool, None, r, e);
    }
    assert ChainOrdered(c, born);
    assert forall i :: 0 <= i < |c| ==> c[i] in c && c[i] < |s.pool.reqs|;
  }

  lemma TakenIdle<D>(g: Sizes, s: Sys<D>, held: Option<nat>, q: nat, born: seq<nat>)
    requires Inv(g, s, held) && Ordered(g, s, held, born) && q < BUF && s.pool.queues[q] != []
    ensures Ordered(g, s.(pool := Take(g, s.pool, First(g, s.pool, q))), held, born)
  {
    var r := First(g, s.pool, q);
    assert r in s.pool.queues[q];
    assert QueuesOk(g, s.pool) && HeldOk(s.pool, held);
    TakeQueues(g, s.pool, r);
    hide Inv, QueuesOk, Ordered;
    IdleOrdered(g, s, held, Take(g, s.pool, r), r, born);
  }

  function Maximum(born: seq<nat>): (m: nat)
    ensures forall r :: 0 <= r < |born| ==> born[r] <= m
  {
    if born == [] then 0
    else
      var m := Maximum(born[..|born| - 1]);
      if m < born[|born| - 1] then born[|born| - 1] else m
  }

  /** When what is outstanding after the step was submitted. */
  function BornAfter<D>(born: seq<nat>, v: Event<D>): seq<nat> {
    if v.Submitted? && v.r < |born| then born[v.r := Maximum(born) + 1] else born
  }

  /** A step keeps the order, with what it submits as the youngest. */
  lemma StepOrdered<D>(g: Sizes, s: Sys<D>, held: Option<nat>, v: Event<D>, s': Sys<D>, held': Option<nat>,
          born: seq<nat>)
    requires Inv(g, s, held) && Step(g, s, held, v, s', held') && FreshEvent(g, s, v) && Ordered(g, s, held, born)
    ensures Ordered(g, s', held', BornAfter(born, v))
  {
    RevealInv(g, s, held);
    hide Inv, BlocksOk, ChainsOk, QueuesOk, Submit, Decide, Lawful;
    match v
    case Allocate => TakenIdle(g, s, held, FREE, born);
    case FromSlice => TakenIdle(g, s, held, SLICE, born);
    case ToSlice(r) => IdleOrdered(g, s, held, Put(g, s.pool, SLICE, r), r, born);
    case Submitted(r, q) =>
      assert |born| == |s.pool.reqs|;
      SubmitOrdered(g, s, r, q, born, Maximum(born) + 1);
    case Decided => DecideOrdered(g, s, held.value, born);
    case Completed(r) =>
      CompleteOrdered(g, s, held, r, born);
      assert s' == CompleteStep(g, s, r);
    case Released(d) =>
      RowQueueDistinct(g, s.pool, d);
      ReleaseOrdered(g, s, held, d, s.pool.queues[RowQ(d)], born);
  }

  lemma QuietIsOrdered<D>(g: Sizes, s: Sys<D>)
    requires Inv(g, s, None) && Quiet(s.pool, None)
    ensures Ordered(g, s, None, seq(|s.pool.reqs|, _ => 0))
  {
    hide QueuesOk, BlocksOk;
    forall e | 0 <= e < g.bufs
      ensures s.pool.chains[e] == []
    {
      assert ChainOk(g, s, None, None, e);
      var c := s.pool.chains[e];
      assert c != [] ==> c[0] in c && LinkedTo(s.pool, None, c[0], e);
    }
  }

  /** In every run from rest whose submissions are fresh there is an order of submission behind what waits. */
  lemma {:induction false} RunIsOrdered<D>(g: Sizes, states: seq<Sys<D>>, held: seq<Option<nat>>, events: seq<Event<D>>,
          n: nat) returns (born: seq<nat>)
    requires Trace(g, states, held, events) && n <= |events| && Inv(g, states[0], held[0])
        && Quiet(states[0].pool, held[0])
    requires forall i :: 0 <= i < n ==> FreshEvent(g, states[i], events[i])
    ensures Inv(g, states[n], held[n]) && Ordered(g, states[n], held[n], born)
  {
    hide Inv, Ordered, Step;
    if n == 0 {
      QuietIsOrdered(g, states[0]);
      born := seq(|states[0].pool.reqs|, _ => 0);
    } else {
      born := RunIsOrdered(g, states, held, events, n - 1);
      StepKeeps(g, states[n - 1], held[n - 1], events[n - 1], states[n], held[n]);
      StepOrdered(g, states[n - 1], held[n - 1], events[n - 1], states[n], held[n], born);
      born := BornAfter(born, events[n - 1]);
    }
  }

  // ---------- the oldest request can go on ----------

  /** The oldest outstanding request among the first n slots. */
  lemma {:induction false} Oldest<D>(p: Pool<D>, born: seq<nat>, n: nat, t: nat) returns (r: nat)
    requires t < n <= |born| == |p.place| && InFlight(p, t)
    ensures r < n && InFlight(p, r) && forall x: nat :: x < n && InFlight(p, x) ==> born[r] <= born[x]
  {
    if t == n - 1 {
      r := t;
      if x: nat :| x < n - 1 && InFlight(p, x) {
        r := Oldest(p, born, n - 1, x);
        if born[n - 1] < born[r] {
          r := n - 1;
        }
      }
    } else {
      r := Oldest(p, born, n - 1, t);
      if InFlight(p, n - 1) && born[n - 1] < born[r] {
        r := n - 1;
      }
    }
  }

  /** The row-address check lets the row-blocked request of slot r go. */
  predicate Passes<D>(g: Sizes, p: Pool<D>, r: nat)
    requires Shape(g, p) && r < |p.reqs|
  {
    RowCheck(p.reqs[r], RowOf(g, p, r), false).1
  }

  ghost predicate IsOldest<D>(p: Pool<D>, born: seq<nat>, r: nat) {
    r < |born| == |p.place| && InFlight(p, r) && forall x: nat :: InFlight(p, x) ==> born[r] <= born[x]
  }

  /** A request that is not first in its chain is younger than the first. */
  lemma FirstIsOlder<D>(g: Sizes, s: Sys<D>, held: Option<nat>, born: seq<nat>, r: nat) returns (x: nat)
    requires Inv(g, s, held) && Ordered(g, s, held, born) && r < |s.pool.place| && s.pool.place[r] == Some(BUF)
    ensures BornBefore(born, x, r) && (held == Some(x) || InFlight(s.pool, x))
  {
    var e := s.pool.reqs[r].buf;
    assert Suits(g, s.pool.reqs[r], BUF) && HeldOk(s.pool, held);
    assert ChainOk(g, s, held, None, e) && ChainOrdered(s.pool.chains[e], born);
    hide BlocksOk, ChainsOk, QueuesOk, Ordered;
    var c := s.pool.chains[e];
    assert LinkedTo(s.pool, held, r, e) && r in c;
    var i: nat :| i < |c| && c[i] == r;
    assert ChainAt(s, held, None, s.act.buf[e], c, i);
    x := c[0];
    assert x in c && LinkedTo(s.pool, held, x, e) && BornBefore(born, x, c[i]);
  }

  /** It is not blocked by a buffer dependency. */
  lemma OldestIsFirst<D>(g: Sizes, s: Sys<D>, held: Option<nat>, born: seq<nat>, r: nat)
    requires Inv(g, s, held) && Ordered(g, s, held, born) && IsOldest(s.pool, born, r) && held != Some(r)
    ensures s.pool.place[r] != Some(BUF)
  {
    hide Inv, Ordered;
    if s.pool.place[r] == Some(BUF) {
      var x := FirstIsOlder(g, s, held, born, r);
      if held == Some(x) {
        RevealInv(g, s, held);
        HeldLater(g, s, held, born, r);
      }
    }
  }

  lemma HeldLater<D>(g: Sizes, s: Sys<D>, held: Option<nat>, born: seq<nat>, r: nat)
    requires SysShape(g, s) && Ordered(g, s, held, born) && InFlight(s.pool, r) && held.Some? && held != Some(r)
    ensures BornBefore(born, r, held.value)
  {
  }

  /** Nor by its row: whom it would wait for is older. */
  lemma OldestPasses<D>(g: Sizes, s: Sys<D>, held: Option<nat>, born: seq<nat>, r: nat)
    requires Inv(g, s, held) && Ordered(g, s, held, born) && IsOldest(s.pool, born, r) && held != Some(r)
    requires !s.pool.reqs[r].Dma() && s.pool.place[r] == Some(RowQ(s.pool.reqs[r].die))
    ensures Passes(g, s.pool, r)
  {
    var q := s.pool.reqs[r];
    var (d, b) := (q.die, q.block);
    assert BlockOk(g, s, held, d, b) && BlockOrdered(g, s.pool, held, born, d, b);
    var row, now, sub := s.pool.rows[d][b], s.now[d][b], s.sub.flash[d][b];
    assert Pending(g, s.pool, held, r, d, b);
    assert SlotOk(q, s.val[r], StageOf(g, s.pool, held, r), row, Erasing(s.pool, held, d, b, row), now, sub);
    hide BlocksOk, ChainsOk, QueuesOk, Runs;
    forall x: nat | x != r && Pending(g, s.pool, held, x, d, b)
      ensures !BornBefore(born, x, r)
    {
      NoneOlder(g, s, held, born, r, x, d, b);
    }
    var missing := if q.kind.NandRead? then q.page else row.permitted;
    if row.permitted <= missing < |now| {
      assert HasWriter(g, s.pool, held, d, b, missing);
    }
  }

  lemma NoneOlder<D>(g: Sizes, s: Sys<D>, held: Option<nat>, born: seq<nat>, r: nat, x: nat, d: nat, b: nat)
    requires SysShape(g, s) && Ordered(g, s, held, born) && IsOldest(s.pool, born, r) && held != Some(r)
    requires x != r && Pending(g, s.pool, held, x, d, b)
    ensures !BornBefore(born, x, r)
  {
    if held == Some(x) {
      HeldLater(g, s, held, born, r);
    } else {
      assert InFlight(s.pool, x);
    }
  }

  // ---------- waiting ends ----------

  /** A completion, or a release that lets at least one request go. */
  ghost predicate Productive<D>(g: Sizes, s: Sys<D>, v: Event<D>)
    requires SysShape(g, s)
  {
    match v
    case Completed(r) => MayComplete(g, s.pool, r)
    case Released(d) => d < g.dies && exists r :: r in s.pool.queues[RowQ(d)] && Passes(g, s.pool, r)
    case _ => false
  }

  /** Such a step that the source takes: it looks at a die's row-blocked requests once its NAND queue is empty. */
  ghost predicate Due<D>(g: Sizes, s: Sys<D>, v: Event<D>)
    requires SysShape(g, s)
  {
    Productive(g, s, v) && (v.Released? ==> s.pool.queues[NandQ(g, v.d)] == [])
  }

  lemma Enabled<D>(g: Sizes, s: Sys<D>, held: Option<nat>, v: Event<D>) returns (s': Sys<D>)
    requires Inv(g, s, held) && Productive(g, s, v)
    ensures Step(g, s, held, v, s', held)
  {
    RevealInv(g, s, held);
    hide Inv, QueuesOk, BlocksOk, ChainsOk, MayComplete;
    match v
    case Completed(r) =>
      CompletionIsFaithful(g, s, held, r);
      HeldIsNot(g, s, held, r);
      s' := CompleteStep(g, s, r);
    case Released(d) =>
      RowQueueDistinct(g, s.pool, d);
      s' := ReleaseStep(g, s, s.pool.queues[RowQ(d)]);
  }

  /** As long as anything is outstanding, something can be done about it. */
  lemma NeverStuck<D>(g: Sizes, s: Sys<D>, held: Option<nat>, born: seq<nat>, t: nat) returns (v: Event<D>)
    requires Inv(g, s, held) && Ordered(g, s, held, born) && InFlight(s.pool, t)
    ensures Due(g, s, v)
  {
    var r := Oldest(s.pool, born, |s.pool.place|, t);
    assert IsOldest(s.pool, born, r) && held != Some(r) && Suits(g, s.pool.reqs[r], s.pool.place[r].value);
    hide BlocksOk, ChainsOk, QueuesOk, Ordered, Passes;
    var (d, p) := (s.pool.reqs[r].die, s.pool.place[r].value);
    OldestIsFirst(g, s, held, born, r);
    if p == DMA {
      v := Completed(r);
    } else if s.pool.queues[NandQ(g, d)] != [] {
      HeadMayComplete(g, s, d);
      v := Completed(s.pool.queues[NandQ(g, d)][0]);
    } else {
      InItsQueue(g, s.pool, r);
      OldestPasses(g, s, held, born, r);
      v := Released(d);
    }
  }

  lemma InItsQueue<D>(g: Sizes, p: Pool<D>, r: nat)
    requires Shape(g, p) && QueuesOk(g, p) && r < |p.place| && p.place[r].Some?
    ensures r in p.queues[p.place[r].value]
  {
  }

  lemma HeadMayComplete<D>(g: Sizes, s: Sys<D>, d: nat)
    requires SysShape(g, s) && QueuesOk(g, s.pool) && d < g.dies && s.pool.queues[NandQ(g, d)] != []
    ensures MayComplete(g, s.pool, s.pool.queues[NandQ(g, d)][0])
  {
    var h := s.pool.queues[NandQ(g, d)][0];
    assert h in s.pool.queues[NandQ(g, d)] && Suits(g, s.pool.reqs[h], NandQ(g, d));
  }

  /** What is left to do: two steps for a blocked request, one for a request with the hardware. */
  function Left(place: Option<nat>, dies: nat): nat {
    if place.None? || place.value < BUF then 0
    else if place.value == DMA || place.value >= 4 + dies then 1 else 2
  }

  function LeftOver(places: seq<Option<nat>>, dies: nat): (n: nat)
    ensures n <= 2 * |places|
  {
    if places == [] then 0 else LeftOver(places[..|places| - 1], dies) + Left(places[|places| - 1], dies)
  }

  lemma {:induction false} LeftOverAt(places: seq<Option<nat>>, dies: nat, r: nat, q: Option<nat>)
    requires r < |places|
    ensures LeftOver(places[r := q], dies) == LeftOver(places, dies) - Left(places[r], dies) + Left(q, dies)
  {
    var n := |places| - 1;
    if r == n {
      assert places[r := q][..n] == places[..n];
    } else {
      assert places[r := q][..n] == places[..n][r := q];
      LeftOverAt(places[..n], dies, r, q);
    }
  }

  lemma MovedLeaves<D>(g: Sizes, s: Sys<D>, held: Option<nat>, t: nat)
    requires SysShape(g, s) && QueuesOk(g, s.pool) && t < |s.pool.reqs| && held != Some(t)
        && StageOf(g, s.pool, held, t).Waiting?
        && (s.pool.place[t] == Some(BUF) || Passes(g, s.pool, t))
    ensures LeftOver(Moved(g, s, t).pool.place, g.dies) <= LeftOver(s.pool.place, g.dies)
    ensures Passes(g, s.pool, t) ==> LeftOver(Moved(g, s, t).pool.place, g.dies) < LeftOver(s.pool.place, g.dies)
  {
    hide QueuesOk, Moved, RowCheck, LeftOver, RowChanged, MayEnter;
    MovedPlaces(g, s, held, t);
    LeftOverAt(s.pool.place, g.dies, t, Some(Target(g, s.pool, t, false)));
  }

  lemma CompleteLeaves<D>(g: Sizes, s: Sys<D>, held: Option<nat>, r: nat)
    requires Inv(g, s, held) && MayComplete(g, s.pool, r)
    ensures LeftOver(Complete(g, s.pool, r).place, g.dies) < LeftOver(s.pool.place, g.dies)
  {
    hide Inv, BlocksOk, ChainsOk, QueuesOk, Lawful, LeftOver, Moved, Finish, Complete, Successor;
    CompleteInTwo(g, s, held, r);
    RevealInv(g, s, held);
    FinishQueues(g, s, r);
    LeftOverAt(s.pool.place, g.dies, r, Some(FREE));
    var free, s1 := Successor(g, s.pool, r), Finish(g, s, r);
    if free.Some? && free.value < |s1.pool.place| && s1.pool.place[free.value] == Some(BUF) {
      MovedLeaves(g, s1, held, free.value);
    }
  }

  lemma {:induction false} ReleaseLeaves<D>(g: Sizes, s: Sys<D>, held: Option<nat>, d: nat, waiting: seq<nat>)
    requires Inv(g, s, held) && d < g.dies && Distinct(waiting)
    requires forall r :: r in waiting ==> r < |s.pool.reqs| && s.pool.place[r] == Some(RowQ(d))
    ensures LeftOver(ReleaseStep(g, s, waiting).pool.place, g.dies) <= LeftOver(s.pool.place, g.dies)
    ensures (exists r :: r in waiting && Passes(g, s.pool, r)) ==>
        LeftOver(ReleaseStep(g, s, waiting).pool.place, g.dies) < LeftOver(s.pool.place, g.dies)
    decreases |waiting|
  {
    hide Inv, QueuesOk, BlocksOk, ChainsOk, LeftOver;
    if waiting != [] {
      var r := waiting[0];
      assert r in waiting && forall x :: x in waiting[1..] ==> x in waiting && x != r;
      assert forall x :: x in waiting ==> x == r || x in waiting[1..];
      assert Inv(g, s, held) ==> InvBut(g, s, held, None) && HeldOk(s.pool, held) by {
        RevealInv(g, s, held);
      }
      if Passes(g, s.pool, r) {
        MovedKeeps(g, s, held, None, r);
        MovedLeaves(g, s, held, r);
        assert Moved(g, s, r).pool.place == s.pool.place[r := Some(Target(g, s.pool, r, false))];
        ReleaseLeaves(g, Moved(g, s, r), held, d, waiting[1..]);
      } else {
        ReleaseLeaves(g, s, held, d, waiting[1..]);
      }
    }
  }

  lemma ProductiveLeaves<D>(g: Sizes, s: Sys<D>, held: Option<nat>, v: Event<D>, s': Sys<D>, held': Option<nat>)
    requires Inv(g, s, held) && Step(g, s, held, v, s', held') && Productive(g, s, v)
    ensures held' == held && LeftOver(s'.pool.place, g.dies) < LeftOver(s.pool.place, g.dies)
  {
    RevealInv(g, s, held);
    hide Inv, BlocksOk, ChainsOk, QueuesOk, LeftOver, MayComplete;
    match v
    case Completed(r) => CompleteLeaves(g, s, held, r);
    case Released(d) =>
      RowQueueDistinct(g, s.pool, d);
      ReleaseLeaves(g, s, held, d, s.pool.queues[RowQ(d)]);
  }

  /** Nothing is outstanding. */
  ghost predicate Drained<D>(p: Pool<D>) {
    forall t: nat :: !InFlight(p, t)
  }

  /**
   From step m of a run on let nothing happen but completions and releases that let something go, as
   in the loops that wait for the low-level requests. There are at most twice as many of them as slots,
   and as long as something is outstanding there is another one.
   */
  lemma {:induction false} WaitingEnds<D>(g: Sizes, states: seq<Sys<D>>, held: seq<Option<nat>>, events: seq<Event<D>>,
          m: nat, n: nat)
    requires Trace(g, states, held, events) && m <= n <= |events| && Inv(g, states[0], held[0])
        && Quiet(states[0].pool, held[0])
    requires forall i :: 0 <= i < m ==> FreshEvent(g, states[i], events[i])
    requires forall i :: m <= i < n ==> SysShape(g, states[i]) && Productive(g, states[i], events[i])
    ensures n - m <= 2 * |states[m].pool.place| && held[n] == held[m]
    ensures SysShape(g, states[n])
    ensures Drained(states[n].pool)
         || exists v, s' :: Due(g, states[n], v) && Step(g, states[n], held[n], v, s', held[n])
  {
    hide Inv, Ordered, Step, Productive, LeftOver;
    assert forall i :: m <= i < n ==> FreshEvent(g, states[i], events[i]) by {
      NothingSubmitted(g, states, events, m, n);
    }
    var born := RunIsOrdered(g, states, held, events, n);
    RevealInv(g, states[n], held[n]);
    LeftToDo(g, states, held, events, m, n);
    if t: nat :| InFlight(states[n].pool, t) {
      var v := NeverStuck(g, states[n], held[n], born, t);
      var s' := Enabled(g, states[n], held[n], v);
    }
  }

  lemma NothingSubmitted<D>(g: Sizes, states: seq<Sys<D>>, events: seq<Event<D>>, m: nat, n: nat)
    requires m <= n <= |events| < |states|
    requires forall i :: m <= i < n ==> SysShape(g, states[i]) && Productive(g, states[i], events[i])
    ensures forall i :: m <= i < n ==> FreshEvent(g, states[i], events[i])
  {
  }

  lemma {:induction false} LeftToDo<D>(g: Sizes, states: seq<Sys<D>>, held: seq<Option<nat>>, events: seq<Event<D>>,
          m: nat, n: nat)
    requires Trace(g, states, held, events) && m <= n <= |events| && Inv(g, states[0], held[0])
    requires forall i :: 0 <= i < n ==> FreshEvent(g, states[i], events[i])
    requires forall i :: m <= i < n ==> SysShape(g, states[i]) && Productive(g, states[i], events[i])
    ensures LeftOver(states[n].pool.place, g.dies) + (n - m) <= LeftOver(states[m].pool.place, g.dies)
        && held[n] == held[m]
    decreases n
  {
    hide Inv, Step, Productive, LeftOver;
    if m < n {
      LeftToDo(g, states, held, events, m, n - 1);
      RunsAreFaithful(g, states, held, events, n - 1);
      ProductiveLeaves(g, states[n - 1], held[n - 1], events[n - 1], states[n], held[n]);
    }
  }

  /** With few slots nothing is asked of the submissions but that erases are of full blocks. */
  lemma FewSlotsWaitingEnds<D>(g: Sizes, states: seq<Sys<D>>, held: seq<Option<nat>>, events: seq<Event<D>>,
          pages: nat, m: nat, n: nat)
    requires Trace(g, states, held, events) && m <= n <= |events| && Inv(g, states[0], held[0])
        && Quiet(states[0].pool, held[0])
    requires |states[0].pool.reqs| <= pages + 1 && Freshness.FullErases(pages, states[0].pool, held[0])
    requires forall i :: 0 <= i < |events| && events[i].Submitted? ==> Freshness.FullErase(pages, events[i].q)
    requires forall i :: m <= i < n ==> SysShape(g, states[i]) && Productive(g, states[i], events[i])
    ensures n - m <= 2 * |states[m].pool.place| && held[n] == held[m]
    ensures SysShape(g, states[n])
    ensures Drained(states[n].pool)
         || exists v, s' :: Due(g, states[n], v) && Step(g, states[n], held[n], v, s', held[n])
  {
    hide Inv, Step, Productive, FreshEvent, Freshness.FullErases, Freshness.FullErase;
    forall i | 0 <= i < m
      ensures FreshEvent(g, states[i], events[i])
    {
      Freshness.FewSlotsRunFaithfully(g, states, held, events, pages, i);
      Freshness.FewSlotsRunFaithfully(g, states, held, events, pages, i + 1);
      StepKeeps(g, states[i], held[i], events[i], states[i + 1], held[i + 1]);
    }
    WaitingEnds(g, states, held, events, m, n);
  }

  /** Once nothing is outstanding, no erase is waited for: a held read may be decided on. */
  lemma DrainedErasesNothing<D>(g: Sizes, s: Sys<D>, held: Option<nat>, d: nat, b: nat)
    requires Inv(g, s, held) && Drained(s.pool) && d < g.dies && b < g.blocks
    requires held.Some? ==> held.value < |s.pool.reqs| && !s.pool.reqs[held.value].kind.NandErase?
    ensures !s.pool.rows[d][b].erasing
  {
    assert BlockOk(g, s, held, d, b);
    hide BlocksOk, ChainsOk, QueuesOk, Runs, SlotsOk, RowOk;
    assert forall r: nat :: Pending(g, s.pool, held, r, d, b) && s.pool.reqs[r].kind.NandErase? ==>
        InFlight(s.pool, r);
  }
}
