/**
 What goes wrong when a write is submitted to a block whose erase still waits, with a page the checks
 let pass: the new page is programmed before the erase and the old one after it, and a read that was
 promised the new page gets the old one. Module Freshness says what it takes to get there: all pages of
 the block waiting to be written when its erase waits; here the block has one page.
 */
module StaleWrite {
  import opened Common
  import S = BlockStore
  import opened Requests
  import opened RequestSafety

  /** One die, one block, two buffer entries. */
  const Z: Sizes := Sizes(1, 1, 2)

  /**
   The host reads entry 0, the block's page 0 is written from it, the block is erased, written from
   entry 1, and read.
   */
  function Script<D>(): (q: seq<Req<D>>)
    ensures |q| == 5
  {
    [Req(TxDma, 0, 0, 0, 0, 0, []), Req(NandWrite, 0, 0, 0, 0, 0, []), Req(NandErase, 0, 0, 1, 0, 0, []),
     Req(NandWrite, 0, 0, 0, 1, 0, []), Req(NandRead, 0, 0, 0, 1, 0, [])]
  }

  /** Queues of waiting and queued slots, blocking chains, and the one table entry. */
  datatype Queued = Queued(place: seq<Option<nat>>, buf: seq<nat>, dma: seq<nat>, row: seq<nat>, nand: seq<nat>,
          free: seq<nat>,
                           chain0: seq<nat>, chain1: seq<nat>, entry: Row)

  function PoolOf<D>(k: Queued): Pool<D> {
    Pool(Script(), k.place, [k.free, [], k.buf, k.dma, k.row, k.nand], [k.chain0, k.chain1], [[k.entry]])
  }

  /** x and y are what the entries hold, act and sub the pages of the block. */
  function State<D>(k: Queued, x: S.Page<D>, y: S.Page<D>, act: seq<S.Page<D>>, sub: seq<S.Page<D>>,
          now: seq<S.Page<D>>, val: seq<S.Page<D>>): Sys<D> {
    Sys(PoolOf(k), Mem([x, y], [[act]]), Mem([x, y], [[sub]]), val, [[now]])
  }

  const HAND: Option<nat> := None
  const NAND: nat := 5
  const ROW: nat := 4

  const Q0: Queued := Queued([HAND, HAND, HAND, HAND, HAND], [], [], [], [], [], [], [], Row(0, 0, false))
  const Q1: Queued := Q0.(chain0 := [0])
  const Q2: Queued := Q1.(place := [Some(DMA), HAND, HAND, HAND, HAND], dma := [0])
  const Q3: Queued := Q2.(chain0 := [0, 1])
  const Q4: Queued := Q3.(place := [Some(DMA), Some(BUF), HAND, HAND, HAND], buf := [1])
  const Q5: Queued := Q4.(place := [Some(DMA), Some(BUF), Some(ROW), HAND, HAND], row := [2], entry := Row(0, 0, true))
  const Q6: Queued := Q5.(chain1 := [3])
  const Q7: Queued := Q6.(place := [Some(DMA), Some(BUF), Some(ROW), Some(NAND), HAND], nand := [3], entry :=
          Row(1, 0, true))
  const Q8: Queued := Q7.(place := [Some(DMA), Some(BUF), Some(ROW), Some(FREE), HAND], nand := [], free := [3],
          chain1 := [])
  const Q9: Queued := Q8.(place := [Some(FREE), Some(ROW), Some(ROW), Some(FREE), HAND], buf := [], dma := [], row :=
          [2, 1], free := [3, 0], chain0 := [1])
  const Q10: Queued := Q9.(place := [Some(FREE), Some(NAND), Some(NAND), Some(FREE), HAND], row := [], nand := [2, 1],
          entry := Row(1, 0, false))
  const Q11: Queued := Q10.(place := [Some(FREE), Some(NAND), Some(FREE), Some(FREE), HAND], nand := [1], free :=
          [3, 0, 2])
  const Q12: Queued := Q11.(place := [Some(FREE), Some(FREE), Some(FREE), Some(FREE), HAND], nand := [], free :=
          [3, 0, 2, 1], chain0 := [])
  const Q13: Queued := Q12.(chain1 := [4])
  const Q14: Queued := Q13.(place := [Some(FREE), Some(FREE), Some(FREE), Some(FREE), Some(NAND)], nand := [4])

  /** A pool with the parts of k. */
  ghost predicate Is<D>(p: Pool<D>, k: Queued) {
    && p.reqs == Script<D>() && p.place == k.place && |p.queues| == 6 && |p.chains| == 2 && |p.rows| == 1
        && p.rows[0] == [k.entry]
    && p.queues[0] == k.free && p.queues[1] == [] && p.queues[2] == k.buf && p.queues[3] == k.dma
        && p.queues[4] == k.row && p.queues[5] == k.nand
    && p.chains[0] == k.chain0 && p.chains[1] == k.chain1
  }

  lemma IsPool<D>(p: Pool<D>, k: Queued)
    requires Is(p, k)
    ensures p == PoolOf(k)
  {
    assert p.queues == PoolOf<D>(k).queues && p.chains == PoolOf<D>(k).chains && p.rows == PoolOf<D>(k).rows;
  }

  predicate InFive(s: seq<nat>) {
    forall r :: r in s ==> r < 5
  }

  predicate ValidQueued(k: Queued) {
    && |k.place| == 5 && (forall r :: 0 <= r < 5 && k.place[r].Some? ==> k.place[r].value < 6)
    && InFive(k.buf) && InFive(k.dma) && InFive(k.row) && InFive(k.nand) && InFive(k.free) && InFive(k.chain0)
        && InFive(k.chain1)
  }

  lemma PoolShape<D>(k: Queued)
    requires ValidQueued(k)
    ensures Shape(Z, PoolOf<D>(k))
  {
  }

  lemma Select0<D>()
    ensures Shape(Z, PoolOf<D>(Q1)) && Select(Z, PoolOf<D>(Q1), 0) == PoolOf(Q2)
  {
    PoolShape<D>(Q1);
    assert Is(Select(Z, PoolOf<D>(Q1), 0), Q2);
    IsPool(Select(Z, PoolOf<D>(Q1), 0), Q2);
  }

  lemma Select1<D>()
    ensures Shape(Z, PoolOf<D>(Q3)) && Select(Z, PoolOf<D>(Q3), 1) == PoolOf(Q4)
  {
    PoolShape<D>(Q3);
    assert Is(Select(Z, PoolOf<D>(Q3), 1), Q4);
    IsPool(Select(Z, PoolOf<D>(Q3), 1), Q4);
  }

  lemma Select2<D>()
    ensures Shape(Z, PoolOf<D>(Q4)) && Select(Z, PoolOf<D>(Q4), 2) == PoolOf(Q5)
  {
    PoolShape<D>(Q4);
    assert Is(Select(Z, PoolOf<D>(Q4), 2), Q5);
    IsPool(Select(Z, PoolOf<D>(Q4), 2), Q5);
  }

  lemma Select3<D>()
    ensures Shape(Z, PoolOf<D>(Q6)) && Select(Z, PoolOf<D>(Q6), 3) == PoolOf(Q7)
  {
    PoolShape<D>(Q6);
    assert Is(Select(Z, PoolOf<D>(Q6), 3), Q7);
    IsPool(Select(Z, PoolOf<D>(Q6), 3), Q7);
  }

  lemma Select4<D>()
    ensures Shape(Z, PoolOf<D>(Q13)) && Select(Z, PoolOf<D>(Q13), 4) == PoolOf(Q14)
  {
    PoolShape<D>(Q13);
    assert Is(Select(Z, PoolOf<D>(Q13), 4), Q14);
    IsPool(Select(Z, PoolOf<D>(Q13), 4), Q14);
  }

  lemma Complete3<D>()
    ensures Shape(Z, PoolOf<D>(Q7)) && Complete(Z, PoolOf<D>(Q7), 3) == PoolOf(Q8)
  {
    PoolShape<D>(Q7);
    assert Is(Complete(Z, PoolOf<D>(Q7), 3), Q8);
    IsPool(Complete(Z, PoolOf<D>(Q7), 3), Q8);
  }

  /** The transfer's slot is free, and the write behind it is not released yet. */
  const Q8F: Queued := Q8.(place := [Some(FREE), Some(BUF), Some(ROW), Some(FREE), HAND], dma := [], free := [3, 0])

  lemma Free0<D>()
    ensures Shape(Z, PoolOf<D>(Q8)) && Put(Z, Take(Z, PoolOf<D>(Q8), 0), FREE, 0) == PoolOf(Q8F)
  {
    PoolShape<D>(Q8);
    assert Is(Put(Z, Take(Z, PoolOf<D>(Q8), 0), FREE, 0), Q8F);
    IsPool(Put(Z, Take(Z, PoolOf<D>(Q8), 0), FREE, 0), Q8F);
  }

  /** The transfer is out of its chain, too. */
  const Q8U: Queued := Q8F.(chain0 := [1])

  lemma Unlink0<D>()
    ensures Shape(Z, PoolOf<D>(Q8F)) && Unlink(Z, PoolOf<D>(Q8F), 0) == PoolOf(Q8U)
    ensures Successor(Z, PoolOf<D>(Q8F), 0) == Some(1)
  {
    PoolShape<D>(Q8F);
    assert Is(Unlink(Z, PoolOf<D>(Q8F), 0), Q8U);
    IsPool(Unlink(Z, PoolOf<D>(Q8F), 0), Q8U);
  }

  lemma Admit1<D>()
    ensures Shape(Z, PoolOf<D>(Q8U)) && Admit(Z, Take(Z, PoolOf<D>(Q8U), 1), 1, false) == PoolOf(Q9)
  {
    PoolShape<D>(Q8U);
    assert Is(Admit(Z, Take(Z, PoolOf<D>(Q8U), 1), 1, false), Q9);
    IsPool(Admit(Z, Take(Z, PoolOf<D>(Q8U), 1), 1, false), Q9);
  }

  lemma Release0<D>()
    ensures Shape(Z, PoolOf<D>(Q8F)) && Release(Z, PoolOf<D>(Q8F), 0) == PoolOf(Q9)
  {
    hide Unlink, Successor, Admit, Take, Shape;
    Unlink0<D>();
    Admit1<D>();
  }

  lemma Complete0<D>()
    ensures Shape(Z, PoolOf<D>(Q8)) && Complete(Z, PoolOf<D>(Q8), 0) == PoolOf(Q9)
  {
    hide Release, Put, Take, Shape;
    Free0<D>();
    Release0<D>();
  }

  lemma Complete2<D>()
    ensures Shape(Z, PoolOf<D>(Q10)) && Complete(Z, PoolOf<D>(Q10), 2) == PoolOf(Q11)
  {
    PoolShape<D>(Q10);
    assert Is(Complete(Z, PoolOf<D>(Q10), 2), Q11);
    IsPool(Complete(Z, PoolOf<D>(Q10), 2), Q11);
  }

  lemma Complete1<D>()
    ensures Shape(Z, PoolOf<D>(Q11)) && Complete(Z, PoolOf<D>(Q11), 1) == PoolOf(Q12)
  {
    PoolShape<D>(Q11);
    assert Is(Complete(Z, PoolOf<D>(Q11), 1), Q12);
    IsPool(Complete(Z, PoolOf<D>(Q11), 1), Q12);
  }

  /** Between the two requests the release lets pass. */
  const Q9E: Queued := Q9.(place := [Some(FREE), Some(ROW), Some(NAND), Some(FREE), HAND], row := [1], nand := [2],
          entry := Row(0, 0, false))

  lemma ReleaseErase<D>()
    ensures Shape(Z, PoolOf<D>(Q9)) && Admit(Z, Take(Z, PoolOf<D>(Q9), 2), 2, false) == PoolOf(Q9E)
  {
    PoolShape<D>(Q9);
    assert Is(Admit(Z, Take(Z, PoolOf<D>(Q9), 2), 2, false), Q9E);
    IsPool(Admit(Z, Take(Z, PoolOf<D>(Q9), 2), 2, false), Q9E);
  }

  lemma ReleaseWrite<D>()
    ensures Shape(Z, PoolOf<D>(Q9E)) && Admit(Z, Take(Z, PoolOf<D>(Q9E), 1), 1, false) == PoolOf(Q10)
  {
    PoolShape<D>(Q9E);
    assert Is(Admit(Z, Take(Z, PoolOf<D>(Q9E), 1), 1, false), Q10);
    IsPool(Admit(Z, Take(Z, PoolOf<D>(Q9E), 1), 1, false), Q10);
  }

  /** The slot at the end of its chain. */
  function LinkedIn(k: Queued, r: nat): Queued
    requires r < 5
  {
    if r < 2 then k.(chain0 := k.chain0 + [r]) else if r > 2 then k.(chain1 := k.chain1 + [r]) else k
  }

  lemma LinkedNext()
    ensures LinkedIn(Q0, 0) == Q1 && LinkedIn(Q2, 1) == Q3 && LinkedIn(Q4, 2) == Q4 && LinkedIn(Q5, 3) == Q6
        && LinkedIn(Q12, 4) == Q13
  {
    assert forall r: nat :: [] + [r] == [r];
    assert [0] + [1] == [0, 1];
  }

  lemma Linking<D>(k: Queued, r: nat)
    requires ValidQueued(k) && r < 5
    ensures Shape(Z, PoolOf<D>(k)) && Link(Z, PoolOf<D>(k), r) == PoolOf(LinkedIn(k, r))
  {
    PoolShape<D>(k);
    assert Is(Link(Z, PoolOf<D>(k), r), LinkedIn(k, r));
    IsPool(Link(Z, PoolOf<D>(k), r), LinkedIn(k, r));
  }

  // ---------- the run ----------

  function Vals<D>(x: S.Page<D>, v3: S.Page<D>, v4: S.Page<D>): seq<S.Page<D>> {
    [x, x, x, v3, v4]
  }

  /** The states of the run: i steps are done. */
  function At<D>(i: nat, x: S.Page<D>, y: S.Page<D>): Sys<D> {
    match i
    case 0 => State(Q0, x, y, [], [], [], Vals(x, x, x))
    case 1 => State(Q1, x, y, [], [], [], Vals(x, x, x))
    case 2 => State(Q2, x, y, [], [], [], Vals(x, x, x))
    case 3 => State(Q3, x, y, [], [x], [x], Vals(x, x, x))
    case 4 => State(Q4, x, y, [], [x], [x], Vals(x, x, x))
    case 5 => State(Q4, x, y, [], [], [x], Vals(x, x, x))
    case 6 => State(Q5, x, y, [], [], [x], Vals(x, x, x))
    case 7 => State(Q6, x, y, [], [y], [x], Vals(x, y, x))
    case 8 => State(Q7, x, y, [], [y], [x], Vals(x, y, x))
    case 9 => State(Q8, x, y, [y], [y], [x], Vals(x, y, x))
    case 10 => State(Q9, x, y, [y], [y], [x], Vals(x, y, x))
    case 11 => State(Q10, x, y, [y], [y], [y], Vals(x, y, x))
    case 12 => State(Q11, x, y, [], [y], [y], Vals(x, y, x))
    case 13 => State(Q12, x, y, [x], [y], [y], Vals(x, y, x))
    case 14 => State(Q13, x, y, [x], [y], [y], Vals(x, y, y))
    case _ => State(Q14, x, y, [x], [y], [y], Vals(x, y, y))
  }

  function HeldAt(i: nat): Option<nat> {
    match i
    case 1 => Some(0)
    case 3 => Some(1)
    case 5 => Some(2)
    case 7 => Some(3)
    case 14 => Some(4)
    case _ => None
  }

  function EventAt<D>(i: nat): Event<D> {
    match i
    case 0 => Submitted(0, Script()[0])
    case 2 => Submitted(1, Script()[1])
    case 4 => Submitted(2, Script()[2])
    case 6 => Submitted(3, Script()[3])
    case 8 => Completed(3)
    case 9 => Completed(0)
    case 10 => Released(0)
    case 11 => Completed(2)
    case 12 => Completed(1)
    case 13 => Submitted(4, Script()[4])
    case _ => Decided
  }

  lemma StateShape<D>(k: Queued, x: S.Page<D>, y: S.Page<D>, act: seq<S.Page<D>>, sub: seq<S.Page<D>>,
          now: seq<S.Page<D>>, val: seq<S.Page<D>>)
    requires |val| == 5 && ValidQueued(k)
    ensures SysShape(Z, State(k, x, y, act, sub, now, val))
  {
    PoolShape<D>(k);
    hide Shape;
  }

  lemma StartIsOk<D>(x: S.Page<D>, y: S.Page<D>)
    ensures Inv(Z, At(0, x, y), None)
  {
    hide BlockOk, ChainOk, QueuesOk;
    PoolShape<D>(Q0);
    StateShape(Q0, x, y, [], [], [], Vals(x, x, x));
    StartQueues<D>();
    StartBlock(x, y);
    StartChain(x, y, 0);
    StartChain(x, y, 1);
  }

  lemma StartQueues<D>()
    ensures Shape(Z, PoolOf<D>(Q0)) && QueuesOk(Z, PoolOf<D>(Q0))
  {
    PoolShape<D>(Q0);
  }

  lemma StartBlock<D>(x: S.Page<D>, y: S.Page<D>)
    ensures SysShape(Z, At(0, x, y)) && BlockOk(Z, At(0, x, y), None, 0, 0)
  {
    hide Script;
    var s := At(0, x, y);
    StateShape(Q0, x, y, [], [], [], Vals(x, x, x));
    assert forall r: nat :: !Pending(Z, s.pool, None, r, 0, 0);
    assert Readers(Z, s.pool, None, 0, 0) == {};
  }

  lemma StartChain<D>(x: S.Page<D>, y: S.Page<D>, e: nat)
    requires e < 2
    ensures SysShape(Z, At(0, x, y)) && ChainOk(Z, At(0, x, y), None, None, e)
  {
    hide Script;
    StateShape(Q0, x, y, [], [], [], Vals(x, x, x));
  }

  /** What entry e holds all along. */
  function Held<D>(e: nat, x: S.Page<D>, y: S.Page<D>): S.Page<D> {
    if e == 0 then x else y
  }

  lemma Submitting<D>(k: Queued, k': Queued, r: nat, x: S.Page<D>, y: S.Page<D>, act: seq<S.Page<D>>,
          sub: seq<S.Page<D>>, now: seq<S.Page<D>>, val: seq<S.Page<D>>)
    requires ValidQueued(k) && Shape(Z, PoolOf<D>(k)) && Shape(Z, PoolOf<D>(k')) && r < 5 && |val| == 5
        && Link(Z, PoolOf<D>(k), r) == PoolOf(k')
    requires var q := Script<D>()[r]; LawfulAt(sub, q) && (q.kind.NandRead? ==> sub[q.page] == Held(q.buf, x, y))
    ensures var q := Script<D>()[r]; var page := Held(q.buf, x, y);
            && SysShape(Z, State(k, x, y, act, sub, now, val)) && InRange(Z, q)
                && Lawful(Z, State(k, x, y, act, sub, now, val).sub, q)
            && Submit(Z, State(k, x, y, act, sub, now, val), r, q)
               == State(k', x, y, act, CellsAfter(sub, q, page), if q.kind.NandWrite?
                   && !k.entry.erasing then now + [page] else now, if q.Buffered() then val[r := page] else val)
  {
    var q := Script<D>()[r];
    var page := Held(q.buf, x, y);
    var s := State(k, x, y, act, sub, now, val);
    StateShape(k, x, y, act, sub, now, val);
    assert PoolOf<D>(k).reqs[r := q] == PoolOf<D>(k).reqs;
    assert [x, y][q.buf := page] == [x, y];
    OnlyCell(sub, CellsAfter(sub, q, page));
    OnlyCell(now, now + [page]);
    assert Exec(Z, s.sub, q) == Mem([x, y], [[CellsAfter(sub, q, page)]]);
    assert val[r := val[r]] == val;
  }

  lemma OnlyCell<T>(a: T, b: T)
    ensures [[a]][0 := [[a]][0][0 := b]] == [[b]] && [[a]][0 := [[a]][0][0 := a]] == [[a]]
  {
    assert [a][0 := b] == [b] && [a][0 := a] == [a];
  }

  /** A lawful submission is a step. */
  lemma SubmitIsStep<D>(k: Queued, k': Queued, r: nat, x: S.Page<D>, y: S.Page<D>, act: seq<S.Page<D>>,
          sub: seq<S.Page<D>>, now: seq<S.Page<D>>, val: seq<S.Page<D>>)
    requires ValidQueued(k) && ValidQueued(k') && r < 5 && |val| == 5 && k.place[r] == None && Shape(Z, PoolOf<D>(k))
        && Link(Z, PoolOf<D>(k), r) == PoolOf(k')
    requires var q := Script<D>()[r];
        LawfulAt(sub, q) && (q.kind.NandRead? ==> sub[q.page] == Held(q.buf, x, y))
    ensures var q := Script<D>()[r]; var page := Held(q.buf, x, y);
            Step(Z, State(k, x, y, act, sub, now, val), None, Submitted(r, q),
                 State(k', x, y, act, CellsAfter(sub, q, page), if q.kind.NandWrite?
                     && !k.entry.erasing then now + [page] else now, if q.Buffered() then val[r := page] else val),
                 Some(r))
  {
    hide Link, Submit, Lawful, Shape, ValidQueued, LawfulAt, CellsAfter, Script;
    var q := Script<D>()[r];
    var page := Held(q.buf, x, y);
    PoolShape<D>(k');
    Submitting(k, k', r, x, y, act, sub, now, val);
    StateShape(k', x, y, act, CellsAfter(sub, q, page), if q.kind.NandWrite?
        && !k.entry.erasing then now + [page] else now, if q.Buffered() then val[r := page] else val);
  }

  lemma DecideIsStep<D>(k: Queued, k': Queued, r: nat, x: S.Page<D>, y: S.Page<D>, act: seq<S.Page<D>>,
          sub: seq<S.Page<D>>, now: seq<S.Page<D>>, val: seq<S.Page<D>>)
    requires ValidQueued(k) && ValidQueued(k') && r < 5 && |val| == 5 && Shape(Z, PoolOf<D>(k))
        && Select(Z, PoolOf<D>(k), r) == PoolOf(k')
    requires var q := Script<D>()[r];
        (q.kind.NandRead? ==> !k.entry.erasing) && !(q.kind.NandErase? && RowCheck(q, k.entry, true).1)
        && q.die == q.block == 0
    ensures Step(Z, State(k, x, y, act, sub, now, val), Some(r), Decided, State(k', x, y, act, sub, now, val), None)
  {
    hide Select, Shape, ValidQueued, RowCheck, Script;
    StateShape(k, x, y, act, sub, now, val);
    StateShape(k', x, y, act, sub, now, val);
  }

  lemma CompleteIsStep<D>(k: Queued, k': Queued, r: nat, x: S.Page<D>, y: S.Page<D>, act: seq<S.Page<D>>,
          sub: seq<S.Page<D>>, now: seq<S.Page<D>>, val: seq<S.Page<D>>)
    requires ValidQueued(k) && ValidQueued(k') && r < 5 && |val| == 5 && Shape(Z, PoolOf<D>(k))
        && Complete(Z, PoolOf<D>(k), r) == PoolOf(k')
    requires MayComplete(Z, PoolOf<D>(k), r)
    requires var q := Script<D>()[r]; LawfulAt(act, q) && !q.kind.NandRead?
    ensures Step(Z, State(k, x, y, act, sub, now, val), None, Completed(r),
        State(k', x, y, CellsAfter(act, Script<D>()[r], Held(Script<D>()[r].buf, x, y)), sub, now, val), None)
  {
    hide Complete, Shape, ValidQueued, MayComplete, Lawful, LawfulAt, CellsAfter, Exec, Script;
    var q := Script<D>()[r];
    StateShape(k, x, y, act, sub, now, val);
    StateShape(k', x, y, CellsAfter(act, q, Held(q.buf, x, y)), sub, now, val);
    Acting(k, r, x, y, act, sub, now, val);
  }

  /** What a request that completes does to the hardware. */
  lemma Acting<D>(k: Queued, r: nat, x: S.Page<D>, y: S.Page<D>, act: seq<S.Page<D>>, sub: seq<S.Page<D>>,
          now: seq<S.Page<D>>, val: seq<S.Page<D>>)
    requires Shape(Z, PoolOf<D>(k)) && r < 5 && |val| == 5
    requires var q := Script<D>()[r]; LawfulAt(act, q) && !q.kind.NandRead?
    ensures var q := Script<D>()[r]; var s := State(k, x, y, act, sub, now, val);
            InRange(Z, q) && Lawful(Z, s.act, q)
                && Exec(Z, s.act, q) == Mem([x, y], [[CellsAfter(act, q, Held(q.buf, x, y))]])
  {
    var q := Script<D>()[r];
    assert [x, y][q.buf := Held(q.buf, x, y)] == [x, y];
    OnlyCell(act, CellsAfter(act, q, Held(q.buf, x, y)));
  }

  /** A slot of the row-blocked queue passes. */
  lemma Moving<D>(k: Queued, k': Queued, r: nat, x: S.Page<D>, y: S.Page<D>, act: seq<S.Page<D>>, sub: seq<S.Page<D>>,
          now: seq<S.Page<D>>, val: seq<S.Page<D>>)
    requires ValidQueued(k) && r < 5 && |val| == 5 && Shape(Z, PoolOf<D>(k))
        && Admit(Z, Take(Z, PoolOf<D>(k), r), r, false) == PoolOf(k')
    requires var q := Script<D>()[r]; q.die == q.block == 0 && RowCheck(q, k.entry, false).1
    ensures SysShape(Z, State(k, x, y, act, sub, now, val))
    ensures RowCheck(Script<D>()[r], RowOf(Z, PoolOf<D>(k), r), false).1
    ensures Moved(Z, State(k, x, y, act, sub, now, val), r) == State(k', x, y, act, sub,
        if Script<D>()[r].kind.NandErase? then sub else now, val)
  {
    hide Admit, Take, Shape, ValidQueued, RowCheck, Script;
    StateShape(k, x, y, act, sub, now, val);
    OnlyCell(now, sub);
  }

  /** The erase passes first, and after it the old write, whose page is the first one again. */
  lemma Releasing<D>(x: S.Page<D>, y: S.Page<D>)
    ensures SysShape(Z, At(10, x, y)) && ReleaseStep(Z, At(10, x, y), [2, 1]) == At(11, x, y)
  {
    hide Admit, Take, Shape, ValidQueued, RowCheck, Moved;
    ReleaseIsReady<D>();
    Moving(Q9, Q9E, 2, x, y, [y], [y], [x], Vals(x, y, x));
    Moving(Q9E, Q10, 1, x, y, [y], [y], [y], Vals(x, y, x));
    assert [2, 1][1..] == [1] && [1][1..] == [];
  }

  lemma ReleaseIsReady<D>()
    ensures ValidQueued(Q9) && ValidQueued(Q9E) && ValidQueued(Q10)
    ensures Shape(Z, PoolOf<D>(Q9)) && Admit(Z, Take(Z, PoolOf<D>(Q9), 2), 2, false) == PoolOf(Q9E)
    ensures Shape(Z, PoolOf<D>(Q9E)) && Admit(Z, Take(Z, PoolOf<D>(Q9E), 1), 1, false) == PoolOf(Q10)
    ensures RowCheck(Script<D>()[2], Q9.entry, false).1 && RowCheck(Script<D>()[1], Q9E.entry, false).1
  {
    hide Admit, Take, Shape;
    ReleaseErase<D>();
    ReleaseWrite<D>();
  }

  lemma Step0<D>(x: S.Page<D>, y: S.Page<D>)
    ensures Step(Z, At(0, x, y), HeldAt(0), EventAt(0), At(1, x, y), HeldAt(1))
  {
    hide Step, Shape, Link, Select, Complete;
    LinkedNext();
    Linking<D>(Q0, 0);
    SubmitIsStep(Q0, Q1, 0, x, y, [], [], [], Vals(x, x, x));
    assert Vals(x, x, x)[0 := x] == Vals(x, x, x);
  }

  lemma Step1<D>(x: S.Page<D>, y: S.Page<D>)
    ensures Step(Z, At(1, x, y), HeldAt(1), EventAt(1), At(2, x, y), HeldAt(2))
  {
    hide Step, Shape, Link, Select, Complete;
    Select0<D>();
    DecideIsStep(Q1, Q2, 0, x, y, [], [], [], Vals(x, x, x));
  }

  lemma Step2<D>(x: S.Page<D>, y: S.Page<D>)
    ensures Step(Z, At(2, x, y), HeldAt(2), EventAt(2), At(3, x, y), HeldAt(3))
  {
    hide Step, Shape, Link, Select, Complete;
    LinkedNext();
    Linking<D>(Q2, 1);
    SubmitIsStep(Q2, Q3, 1, x, y, [], [], [], Vals(x, x, x));
    assert Vals(x, x, x)[1 := x] == Vals(x, x, x);
    assert [] + [x] == [x];
  }

  lemma Step3<D>(x: S.Page<D>, y: S.Page<D>)
    ensures Step(Z, At(3, x, y), HeldAt(3), EventAt(3), At(4, x, y), HeldAt(4))
  {
    hide Step, Shape, Link, Select, Complete;
    Select1<D>();
    DecideIsStep(Q3, Q4, 1, x, y, [], [x], [x], Vals(x, x, x));
  }

  lemma Step4<D>(x: S.Page<D>, y: S.Page<D>)
    ensures Step(Z, At(4, x, y), HeldAt(4), EventAt(4), At(5, x, y), HeldAt(5))
  {
    hide Step, Shape, Link, Select, Complete;
    LinkedNext();
    Linking<D>(Q4, 2);
    SubmitIsStep(Q4, Q4, 2, x, y, [], [x], [x], Vals(x, x, x));
  }

  lemma Step5<D>(x: S.Page<D>, y: S.Page<D>)
    ensures Step(Z, At(5, x, y), HeldAt(5), EventAt(5), At(6, x, y), HeldAt(6))
  {
    hide Step, Shape, Link, Select, Complete;
    Select2<D>();
    DecideIsStep(Q4, Q5, 2, x, y, [], [], [x], Vals(x, x, x));
  }

  lemma Step6<D>(x: S.Page<D>, y: S.Page<D>)
    ensures Step(Z, At(6, x, y), HeldAt(6), EventAt(6), At(7, x, y), HeldAt(7))
  {
    hide Step, Shape, Link, Select, Complete;
    LinkedNext();
    Linking<D>(Q5, 3);
    SubmitIsStep(Q5, Q6, 3, x, y, [], [], [x], Vals(x, x, x));
    assert Vals(x, x, x)[3 := y] == Vals(x, y, x);
    assert [] + [y] == [y];
  }

  /** The write of the new page is not fresh: its page is the next one the checks let pass. */
  lemma SubmissionIsStale<D>(x: S.Page<D>, y: S.Page<D>)
    ensures !FreshEvent(Z, At(6, x, y), EventAt(6))
  {
  }

  lemma Step7<D>(x: S.Page<D>, y: S.Page<D>)
    ensures Step(Z, At(7, x, y), HeldAt(7), EventAt(7), At(8, x, y), HeldAt(8))
  {
    hide Step, Shape, Link, Select, Complete;
    Select3<D>();
    DecideIsStep(Q6, Q7, 3, x, y, [], [y], [x], Vals(x, y, x));
  }

  lemma Step8<D>(x: S.Page<D>, y: S.Page<D>)
    ensures Step(Z, At(8, x, y), HeldAt(8), EventAt(8), At(9, x, y), HeldAt(9))
  {
    hide Step, Shape, Link, Select, Complete;
    Complete3<D>();
    CompleteIsStep(Q7, Q8, 3, x, y, [], [y], [x], Vals(x, y, x));
    assert [] + [y] == [y];
  }

  lemma Step9<D>(x: S.Page<D>, y: S.Page<D>)
    ensures Step(Z, At(9, x, y), HeldAt(9), EventAt(9), At(10, x, y), HeldAt(10))
  {
    hide Step, Shape, Link, Select, Complete;
    Complete0<D>();
    CompleteIsStep(Q8, Q9, 0, x, y, [y], [y], [x], Vals(x, y, x));
  }

  lemma Step10<D>(x: S.Page<D>, y: S.Page<D>)
    ensures Step(Z, At(10, x, y), HeldAt(10), EventAt(10), At(11, x, y), HeldAt(11))
  {
    hide ReleaseStep, Shape;
    StateShape(Q9, x, y, [y], [y], [x], Vals(x, y, x));
    StateShape(Q10, x, y, [y], [y], [y], Vals(x, y, x));
    Releasing(x, y);
  }

  lemma Step11<D>(x: S.Page<D>, y: S.Page<D>)
    ensures Step(Z, At(11, x, y), HeldAt(11), EventAt(11), At(12, x, y), HeldAt(12))
  {
    hide Step, Shape, Link, Select, Complete;
    Complete2<D>();
    CompleteIsStep(Q10, Q11, 2, x, y, [y], [y], [y], Vals(x, y, x));
  }

  lemma Step12<D>(x: S.Page<D>, y: S.Page<D>)
    ensures Step(Z, At(12, x, y), HeldAt(12), EventAt(12), At(13, x, y), HeldAt(13))
  {
    hide Step, Shape, Link, Select, Complete;
    Complete1<D>();
    CompleteIsStep(Q11, Q12, 1, x, y, [], [y], [y], Vals(x, y, x));
    assert [] + [x] == [x];
  }

  lemma Step13<D>(x: S.Page<D>, y: S.Page<D>)
    ensures Step(Z, At(13, x, y), HeldAt(13), EventAt(13), At(14, x, y), HeldAt(14))
  {
    hide Step, Shape, Link, Select, Complete;
    LinkedNext();
    Linking<D>(Q12, 4);
    SubmitIsStep(Q12, Q13, 4, x, y, [x], [y], [y], Vals(x, y, x));
    assert Vals(x, y, x)[4 := y] == Vals(x, y, y);
  }

  lemma Step14<D>(x: S.Page<D>, y: S.Page<D>)
    ensures Step(Z, At(14, x, y), HeldAt(14), EventAt(14), At(15, x, y), HeldAt(15))
  {
    hide Step, Shape, Link, Select, Complete;
    Select4<D>();
    DecideIsStep(Q13, Q14, 4, x, y, [x], [y], [y], Vals(x, y, y));
  }

  /**
   Whatever two pages x and y the entries hold: from a state in order there is a run, one step of
   which submits a write that is not fresh, after which the read of the page just written is about to
   bring back the page from before the erase.
   */
  lemma StaleWriteIsRead<D>(x: S.Page<D>, y: S.Page<D>)
    requires x != y
    ensures Inv(Z, At(0, x, y), HeldAt(0))
    ensures forall i :: 0 <= i < 15 ==> Step(Z, At(i, x, y), HeldAt(i), EventAt(i), At(i + 1, x, y), HeldAt(i + 1))
    ensures !FreshEvent(Z, At(6, x, y), EventAt(6))
    ensures SysShape(Z, At(15, x, y)) && MayComplete(Z, At(15, x, y).pool, 4) && !Faithful(Z, At(15, x, y), 4)
  {
    hide Inv, FreshEvent;
    StartIsOk(x, y);
    SubmissionIsStale(x, y);
    forall i | 0 <= i < 15
      ensures Step(Z, At(i, x, y), HeldAt(i), EventAt(i), At(i + 1, x, y), HeldAt(i + 1))
    {
      hide At, Step;
      StepAt(i, x, y);
    }
    EndIsUnfaithful(x, y);
  }

  lemma StepAt<D>(i: nat, x: S.Page<D>, y: S.Page<D>)
    requires i < 15
    ensures Step(Z, At(i, x, y), HeldAt(i), EventAt(i), At(i + 1, x, y), HeldAt(i + 1))
  {
    hide Step, At, HeldAt, EventAt;
    match i
    case 0 => Step0(x, y);
    case 1 => Step1(x, y);
    case 2 => Step2(x, y);
    case 3 => Step3(x, y);
    case 4 => Step4(x, y);
    case 5 => Step5(x, y);
    case 6 => Step6(x, y);
    case 7 => Step7(x, y);
    case 8 => Step8(x, y);
    case 9 => Step9(x, y);
    case 10 => Step10(x, y);
    case 11 => Step11(x, y);
    case 12 => Step12(x, y);
    case 13 => Step13(x, y);
    case 14 => Step14(x, y);
  }

  lemma EndIsUnfaithful<D>(x: S.Page<D>, y: S.Page<D>)
    requires x != y
    ensures SysShape(Z, At(15, x, y)) && MayComplete(Z, At(15, x, y).pool, 4) && !Faithful(Z, At(15, x, y), 4)
  {
    PoolShape<D>(Q14);
    StateShape(Q14, x, y, [x], [y], [y], Vals(x, y, y));
  }
}
