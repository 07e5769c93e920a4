/**
 Safety of the request protocol over all interleavings of submissions, DMA completions, NAND
 completions and releases. Two memories are compared: sub, in which every request acts when it is
 submitted, and act, in which it acts when it completes. The dependency mechanisms make them agree
 exactly as long as what is submitted is fresh.
 */
module RequestSafety {
  import opened Common
  import S = BlockStore
  import opened Requests

  /** Buffer entries, and per die and block the pages programmed since the last erase. */
  datatype Mem<D> = Mem(buf: seq<S.Page<D>>, flash: seq<seq<seq<S.Page<D>>>>)

  predicate MemShape<D>(g: Sizes, m: Mem<D>) {
    && |m.buf| == g.bufs && |m.flash| == g.dies && forall d :: 0 <= d < |m.flash| ==> |m.flash[d]| == g.blocks
  }

  function Cells<D>(g: Sizes, m: Mem<D>, q: Req<D>): seq<S.Page<D>>
    requires MemShape(g, m) && InRange(g, q)
  {
    m.flash[q.die][q.block]
  }

  /**
   Flash discipline: pages are programmed in order, only programmed pages are read, an erase finds
   what it counted.
   */
  predicate LawfulAt<D>(cells: seq<S.Page<D>>, q: Req<D>) {
    match q.kind
    case NandWrite => q.page == |cells|
    case NandRead => q.page < |cells|
    case NandErase => q.page == |cells|
    case _ => true
  }

  predicate Lawful<D>(g: Sizes, m: Mem<D>, q: Req<D>)
    requires MemShape(g, m) && InRange(g, q)
  {
    LawfulAt(Cells(g, m, q), q)
  }

  /** What the block holds after the request. */
  function CellsAfter<D>(cells: seq<S.Page<D>>, q: Req<D>, page: S.Page<D>): seq<S.Page<D>> {
    if q.kind.NandWrite? then cells + [page] else if q.kind.NandErase? then [] else cells
  }

  /** What the buffer entry holds after the request. */
  function BufAfter<D>(buf: S.Page<D>, cells: seq<S.Page<D>>, q: Req<D>): S.Page<D>
    requires q.offset + |q.data| <= S.BLOCKS && LawfulAt(cells, q)
  {
    match q.kind
    case RxDma => S.Overlay(buf, q.offset, q.data)
    case NandRead => cells[q.page]
    case _ => buf
  }

  function Exec<D>(g: Sizes, m: Mem<D>, q: Req<D>): (m': Mem<D>)
    requires MemShape(g, m) && InRange(g, q) && Lawful(g, m, q)
    ensures MemShape(g, m')
  {
    var cells := Cells(g, m, q);
    var m1 := if q.Buffered() then m.(buf := m.buf[q.buf := BufAfter(m.buf[q.buf], cells, q)]) else m;
    if q.Dma() then m1
    else m1.(flash := m.flash[q.die := m.flash[q.die][q.block := CellsAfter(cells, q, m.buf[q.buf])]])
  }

  /**
   val[r] is what slot r's buffer entry holds after its request, in submission order.
   now[d][b] lists the pages submitted to the block up to its waiting erase, or to its end if none waits.
   */
  datatype Sys<D> = Sys(pool: Pool<D>, act: Mem<D>, sub: Mem<D>, val: seq<S.Page<D>>, now: seq<seq<seq<S.Page<D>>>>)

  predicate SysShape<D>(g: Sizes, s: Sys<D>) {
    && Shape(g, s.pool) && MemShape(g, s.act) && MemShape(g, s.sub) && MemShape(g, Mem(s.sub.buf, s.now))
    && |s.val| == |s.pool.reqs|
  }

  // ---------- the invariant ----------

  /** held is the slot whose request is linked but not yet decided on. */
  datatype Stage = Off | Asking | Waiting | Entered

  function StageOf<D>(g: Sizes, p: Pool<D>, held: Option<nat>, r: nat): Stage {
    if held == Some(r) then Asking
    else if r >= |p.place| || p.place[r].None? then Off
    else
      var q := p.place[r].value;
      if q == BUF || 4 <= q < 4 + g.dies then Waiting else if q >= 4 + g.dies then Entered else Off
  }

  /** Slot r holds a request on the block that has not entered the NAND queue. */
  predicate Pending<D>(g: Sizes, p: Pool<D>, held: Option<nat>, r: nat, d: nat, b: nat) {
    r < |p.reqs| && p.reqs[r].On(d, b) && var t := StageOf(g, p, held, r); t.Asking? || t.Waiting?
  }

  ghost function Readers<D>(g: Sizes, p: Pool<D>, held: Option<nat>, d: nat, b: nat): set<nat> {
    set r: nat | r < |p.reqs| && p.reqs[r].On(d, b) && p.reqs[r].kind.NandRead? && StageOf(g, p, held, r).Waiting?
  }

  /** An erase of the block waits or is about to be decided on. */
  predicate Erasing<D>(p: Pool<D>, held: Option<nat>, d: nat, b: nat, row: Row) {
    row.erasing || (held.Some? && held.value < |p.reqs| && p.reqs[held.value].On(d, b)
        && p.reqs[held.value].kind.NandErase?)
  }

  /** A pending request and the pages of its block: now up to a waiting erase, sub behind it. */
  ghost predicate SlotOk<D>(q: Req<D>, val: S.Page<D>, t: Stage, row: Row, erasing: bool, now: seq<S.Page<D>>,
          sub: seq<S.Page<D>>) {
    match q.kind
    case NandWrite =>
      if q.page < row.permitted then erasing && q.page < |sub| && val == sub[q.page]
      else q.page < |now| && val == now[q.page]
    case NandRead =>
      if t.Asking? then q.page < |sub| && val == sub[q.page]
      else q.page < |now| && val == now[q.page]
    case NandErase => q.page == |now| && (t.Waiting? ==> row.erasing)
    case _ => true
  }

  /** Two pending requests on one block: no page is written twice, nothing is erased twice. */
  predicate Compatible<D>(q: Req<D>, r: Req<D>) {
    && (q.kind.NandWrite? && r.kind.NandWrite? ==> q.page != r.page)
    && !(q.kind.NandErase? && r.kind.NandErase?)
  }

  ghost predicate SlotsOk<D>(g: Sizes, s: Sys<D>, held: Option<nat>, d: nat, b: nat, row: Row, now: seq<S.Page<D>>,
          sub: seq<S.Page<D>>) {
    && |s.val| == |s.pool.reqs|
    && (forall r: nat :: Pending(g, s.pool, held, r, d, b) ==>
          SlotOk(s.pool.reqs[r], s.val[r], StageOf(g, s.pool, held, r), row, Erasing(s.pool, held, d, b, row), now,
              sub))
    && (forall r: nat, t: nat :: Pending(g, s.pool, held, r, d, b) && Pending(g, s.pool, held, t, d, b) && r != t ==>
          Compatible(s.pool.reqs[r], s.pool.reqs[t]))
  }

  /** The write of page i of the block is pending. */
  ghost predicate HasWriter<D>(g: Sizes, p: Pool<D>, held: Option<nat>, d: nat, b: nat, i: nat) {
    exists r: nat :: Pending(g, p, held, r, d, b) && p.reqs[r].kind.NandWrite? && p.reqs[r].page == i
  }

  /** No submitted write and no waiting erase got lost. */
  ghost predicate NothingLost<D>(g: Sizes, p: Pool<D>, held: Option<nat>, d: nat, b: nat, row: Row, now: nat,
          sub: nat) {
    && (forall i: nat :: row.permitted <= i < now ==> HasWriter(g, p, held, d, b, i))
    && (Erasing(p, held, d, b, row) ==>
          && (forall i: nat :: i < sub ==> HasWriter(g, p, held, d, b, i))
          && exists r: nat :: Pending(g, p, held, r, d, b) && p.reqs[r].kind.NandErase?)
  }

  /**
   Executed in queue order, the queued requests are lawful, read and write what they did when
   submitted, and end in end.
   */
  ghost predicate Runs<D>(cells: seq<S.Page<D>>, queue: seq<nat>, reqs: seq<Req<D>>, val: seq<S.Page<D>>, d: nat,
          b: nat, end: seq<S.Page<D>>)
    decreases |queue|
  {
    if queue == [] then cells == end
    else
      var r := queue[0];
      && r < |reqs| == |val|
      && if reqs[r].On(d, b) then
           && LawfulAt(cells, reqs[r])
           && (reqs[r].kind.NandRead? ==> val[r] == cells[reqs[r].page])
           && Runs(CellsAfter(cells, reqs[r], val[r]), queue[1..], reqs, val, d, b, end)
         else Runs(cells, queue[1..], reqs, val, d, b, end)
  }

  ghost predicate RowOk<D>(p: Pool<D>, held: Option<nat>, d: nat, b: nat, row: Row, now: seq<S.Page<D>>,
          sub: seq<S.Page<D>>) {
    row.permitted <= |now| && if Erasing(p, held, d, b, row) then |sub| <= row.permitted else sub == now
  }

  ghost predicate BlockOk<D>(g: Sizes, s: Sys<D>, held: Option<nat>, d: nat, b: nat)
    requires SysShape(g, s) && d < g.dies && b < g.blocks
  {
    var row := s.pool.rows[d][b];
    var now := s.now[d][b];
    var sub := s.sub.flash[d][b];
    && RowOk(s.pool, held, d, b, row, now, sub)
    && SlotsOk(g, s, held, d, b, row, now, sub)
    && NothingLost(g, s.pool, held, d, b, row, |now|, |sub|)
    && row.readers == |Readers(g, s.pool, held, d, b)|
    && row.permitted <= |now|
    && Runs(s.act.flash[d][b], s.pool.queues[NandQ(g, d)], s.pool.reqs, s.val, d, b, now[..row.permitted])
  }

  ghost predicate LinkedTo<D>(p: Pool<D>, held: Option<nat>, r: nat, e: nat) {
    && r < |p.reqs| == |p.place| && p.reqs[r].Buffered() && p.reqs[r].buf == e
    && (held == Some(r) || (p.place[r].Some? && p.place[r].value >= BUF))
  }

  /** What the request does to its buffer entry, given what it finds there; a read's value is settled elsewhere. */
  ghost predicate Fits<D>(q: Req<D>, before: S.Page<D>, after: S.Page<D>) {
    match q.kind
    case RxDma => q.offset + |q.data| <= S.BLOCKS && after == S.Overlay(before, q.offset, q.data)
    case NandRead => true
    case _ => after == before
  }

  /** The i-th request of the chain: only the first is not blocked by a buffer dependency; free is exempt. */
  ghost predicate ChainAt<D>(s: Sys<D>, held: Option<nat>, free: Option<nat>, buf: S.Page<D>, c: seq<nat>, i: nat)
    requires i < |c|
  {
    && |s.val| == |s.pool.reqs| == |s.pool.place| && c[i] < |s.val| && (i > 0 ==> c[i - 1] < |s.val|)
    && (held != Some(c[i]) && free != Some(c[i]) ==> (s.pool.place[c[i]] == Some(BUF) <==> i > 0))
    && (free == Some(c[i]) ==> i == 0)
    && Fits(s.pool.reqs[c[i]], if i == 0 then buf else s.val[c[i - 1]], s.val[c[i]])
  }

  ghost predicate ChainOk<D>(g: Sizes, s: Sys<D>, held: Option<nat>, free: Option<nat>, e: nat)
    requires SysShape(g, s) && e < g.bufs
  {
    var c := s.pool.chains[e];
    && Distinct(c)
    && (forall r: nat :: r in c <==> LinkedTo(s.pool, held, r, e))
    && (forall i: nat :: i < |c| ==> ChainAt(s, held, free, s.act.buf[e], c, i))
    && (if c == [] then s.sub.buf[e] == s.act.buf[e] else c[|c| - 1] < |s.val| && s.sub.buf[e] == s.val[c[|c| - 1]])
  }

  /** Every slot is in the queue its place names, and in no other; the queue suits the request. */
  ghost predicate QueuesOk<D>(g: Sizes, p: Pool<D>)
    requires Shape(g, p)
  {
    && (forall q :: 0 <= q < |p.queues| ==> Distinct(p.queues[q]))
    && (forall q, r: nat :: 0 <= q < |p.queues| ==> (r in p.queues[q] <==> r < |p.place| && p.place[r] == Some(q)))
    && (forall r :: 0 <= r < |p.place| && p.place[r].Some? ==> Suits(g, p.reqs[r], p.place[r].value))
  }

  predicate Suits<D>(g: Sizes, q: Req<D>, place: nat) {
    if place == BUF then q.Buffered()
    else if place == DMA then q.Dma()
    else if place >= 4 then !q.Dma() && (place == RowQ(q.die) || place == NandQ(g, q.die))
    else true
  }

  /** held is in no queue. */
  ghost predicate HeldOk<D>(p: Pool<D>, held: Option<nat>) {
    held.Some? ==> held.value < |p.place| && p.place[held.value] == None
  }

  ghost predicate BlocksOk<D>(g: Sizes, s: Sys<D>, held: Option<nat>)
    requires SysShape(g, s)
  {
    forall d, b :: 0 <= d < g.dies && 0 <= b < g.blocks ==> BlockOk(g, s, held, d, b)
  }

  ghost predicate ChainsOk<D>(g: Sizes, s: Sys<D>, held: Option<nat>, free: Option<nat>)
    requires SysShape(g, s)
  {
    forall e :: 0 <= e < g.bufs ==> ChainOk(g, s, held, free, e)
  }

  ghost predicate InvBut<D>(g: Sizes, s: Sys<D>, held: Option<nat>, free: Option<nat>) {
    SysShape(g, s) && QueuesOk(g, s.pool) && HeldOk(s.pool, held) && BlocksOk(g, s, held) && ChainsOk(g, s, held, free)
  }

  ghost predicate Inv<D>(g: Sizes, s: Sys<D>, held: Option<nat>) {
    InvBut(g, s, held, None)
  }

  // ---------- runs of a NAND queue ----------

  lemma {:induction false} RunsAppend<D>(cells: seq<S.Page<D>>, queue: seq<nat>, reqs: seq<Req<D>>,
          val: seq<S.Page<D>>, d: nat, b: nat, end: seq<S.Page<D>>, r: nat)
    requires Runs(cells, queue, reqs, val, d, b, end) && r < |reqs| == |val|
    requires reqs[r].On(d, b) ==> LawfulAt(end, reqs[r]) && (reqs[r].kind.NandRead? ==> val[r] == end[reqs[r].page])
    ensures Runs(cells, queue + [r], reqs, val, d, b, if reqs[r].On(d, b) then CellsAfter(end, reqs[r], val[r])
        else end)
    decreases |queue|
  {
    var end' := if reqs[r].On(d, b) then CellsAfter(end, reqs[r], val[r]) else end;
    if queue == [] {
      assert Runs(end', [], reqs, val, d, b, end');
      assert (queue + [r])[1..] == [];
    } else {
      assert (queue + [r])[1..] == queue[1..] + [r];
      RunsAppend(if reqs[queue[0]].On(d, b) then CellsAfter(cells, reqs[queue[0]], val[queue[0]]) else cells,
          queue[1..], reqs, val, d, b, end, r);
    }
  }

  lemma {:induction false} RunsFrame<D>(cells: seq<S.Page<D>>, queue: seq<nat>, reqs: seq<Req<D>>, val: seq<S.Page<D>>,
          reqs': seq<Req<D>>, val': seq<S.Page<D>>, d: nat, b: nat, end: seq<S.Page<D>>)
    requires Runs(cells, queue, reqs, val, d, b, end) && |reqs'| == |val'| == |reqs| == |val|
    requires forall r :: r in queue ==> r < |reqs| && reqs'[r] == reqs[r] && val'[r] == val[r]
    ensures Runs(cells, queue, reqs', val', d, b, end)
    decreases |queue|
  {
    if queue != [] {
      assert queue[0] in queue && forall r :: r in queue[1..] ==> r in queue;
      RunsFrame(if reqs[queue[0]].On(d, b) then CellsAfter(cells, reqs[queue[0]], val[queue[0]]) else cells,
          queue[1..], reqs, val, reqs', val', d, b, end);
    }
  }

  // ---------- one block ----------

  /** Slot r is as much, or as little, pending on the block as before. */
  ghost predicate SameSlot<D>(g: Sizes, s: Sys<D>, s': Sys<D>, held: Option<nat>, held': Option<nat>, r: nat, d: nat,
          b: nat)
    requires |s.val| == |s.pool.reqs| && |s'.val| == |s'.pool.reqs|
  {
    && (Pending(g, s.pool, held, r, d, b) <==> Pending(g, s'.pool, held', r, d, b))
    && (Pending(g, s.pool, held, r, d, b) ==>
          r < |s.val| && r < |s'.val| && s'.pool.reqs[r] == s.pool.reqs[r] && s'.val[r] == s.val[r]
              && StageOf(g, s'.pool, held', r) == StageOf(g, s.pool, held, r))
  }

  lemma SameSlotsErasing<D>(g: Sizes, s: Sys<D>, s': Sys<D>, held: Option<nat>, held': Option<nat>, d: nat, b: nat,
          row: Row)
    requires |s.val| == |s.pool.reqs| && |s'.val| == |s'.pool.reqs|
    requires forall r: nat :: SameSlot(g, s, s', held, held', r, d, b)
    ensures Erasing(s'.pool, held', d, b, row) <==> Erasing(s.pool, held, d, b, row)
  {
    if held.Some? {
      assert SameSlot(g, s, s', held, held', held.value, d, b);
    }
    if held'.Some? {
      assert SameSlot(g, s, s', held, held', held'.value, d, b);
    }
  }

  lemma SameSlotsPending<D>(g: Sizes, s: Sys<D>, s': Sys<D>, held: Option<nat>, held': Option<nat>, d: nat, b: nat,
          row: Row, now: seq<S.Page<D>>, sub: seq<S.Page<D>>)
    requires |s.val| == |s.pool.reqs| && |s'.val| == |s'.pool.reqs|
    requires forall r: nat :: SameSlot(g, s, s', held, held', r, d, b)
    requires SlotsOk(g, s, held, d, b, row, now, sub)
    ensures SlotsOk(g, s', held', d, b, row, now, sub)
  {
    SameSlotsErasing(g, s, s', held, held', d, b, row);
    hide SlotOk, Erasing, Compatible, Pending, StageOf;
    forall r: nat | Pending(g, s'.pool, held', r, d, b)
      ensures Pending(g, s.pool, held, r, d, b) && r < |s'.val|
      ensures SlotOk(s'.pool.reqs[r], s'.val[r], StageOf(g, s'.pool, held', r), row,
          Erasing(s'.pool, held', d, b, row), now, sub)
    {
      assert SameSlot(g, s, s', held, held', r, d, b);
    }
    forall r: nat, t: nat | Pending(g, s'.pool, held', r, d, b) && Pending(g, s'.pool, held', t, d, b) && r != t
      ensures Compatible(s'.pool.reqs[r], s'.pool.reqs[t])
    {
      assert SameSlot(g, s, s', held, held', r, d, b) && SameSlot(g, s, s', held, held', t, d, b);
    }
  }

  lemma SameSlotsReaders<D>(g: Sizes, s: Sys<D>, s': Sys<D>, held: Option<nat>, held': Option<nat>, d: nat, b: nat)
    requires |s.val| == |s.pool.reqs| && |s'.val| == |s'.pool.reqs|
    requires forall r: nat :: SameSlot(g, s, s', held, held', r, d, b)
    ensures Readers(g, s'.pool, held', d, b) == Readers(g, s.pool, held, d, b)
  {
    forall r: nat
      ensures r in Readers(g, s'.pool, held', d, b) <==> r in Readers(g, s.pool, held, d, b)
    {
      assert SameSlot(g, s, s', held, held', r, d, b);
    }
  }

  lemma SameSlotsNothingLost<D>(g: Sizes, s: Sys<D>, s': Sys<D>, held: Option<nat>, held': Option<nat>, d: nat, b: nat,
          row: Row, now: nat, sub: nat)
    requires |s.val| == |s.pool.reqs| && |s'.val| == |s'.pool.reqs|
    requires forall r: nat :: SameSlot(g, s, s', held, held', r, d, b)
    requires NothingLost(g, s.pool, held, d, b, row, now, sub)
    ensures NothingLost(g, s'.pool, held', d, b, row, now, sub)
  {
    SameSlotsErasing(g, s, s', held, held', d, b, row);
    hide Erasing, Pending, StageOf;
    forall i: nat | HasWriter(g, s.pool, held, d, b, i)
      ensures HasWriter(g, s'.pool, held', d, b, i)
    {
      var r: nat :| Pending(g, s.pool, held, r, d, b) && s.pool.reqs[r].kind.NandWrite? && s.pool.reqs[r].page == i;
      assert SameSlot(g, s, s', held, held', r, d, b);
    }
    if Erasing(s.pool, held, d, b, row) {
      var r: nat :| Pending(g, s.pool, held, r, d, b) && s.pool.reqs[r].kind.NandErase?;
      assert SameSlot(g, s, s', held, held', r, d, b);
    }
  }

  /** What happened did not concern the block, except perhaps its die's NAND queue. */
  lemma BlockFrame<D>(g: Sizes, s: Sys<D>, s': Sys<D>, held: Option<nat>, held': Option<nat>, d: nat, b: nat)
    requires SysShape(g, s) && SysShape(g, s') && d < g.dies && b < g.blocks && BlockOk(g, s, held, d, b)
    requires s'.pool.rows[d][b] == s.pool.rows[d][b] && s'.now[d][b] == s.now[d][b]
        && s'.sub.flash[d][b] == s.sub.flash[d][b]
    requires forall r: nat :: SameSlot(g, s, s', held, held', r, d, b)
    requires var p := s.pool.rows[d][b].permitted;
             p <= |s.now[d][b]| ==> Runs(s'.act.flash[d][b], s'.pool.queues[NandQ(g, d)], s'.pool.reqs, s'.val, d, b,
                 s.now[d][b][..p])
    ensures BlockOk(g, s', held', d, b)
  {
    hide SlotsOk, NothingLost, Readers, Runs, Erasing, SameSlot;
    var row := s.pool.rows[d][b];
    SameSlotsErasing(g, s, s', held, held', d, b, row);
    SameSlotsPending(g, s, s', held, held', d, b, row, s.now[d][b], s.sub.flash[d][b]);
    SameSlotsReaders(g, s, s', held, held', d, b);
    SameSlotsNothingLost(g, s, s', held, held', d, b, row, |s.now[d][b]|, |s.sub.flash[d][b]|);
  }

  /** Slot r, pending on the block in s, is no longer; the other slots are as they were. */
  ghost predicate Left<D>(g: Sizes, s: Sys<D>, s': Sys<D>, held: Option<nat>, held': Option<nat>, r: nat, d: nat,
          b: nat) {
    && |s.val| == |s.pool.reqs| && s'.val == s.val && s'.pool.reqs == s.pool.reqs
    && Pending(g, s.pool, held, r, d, b) && !Pending(g, s'.pool, held', r, d, b)
    && (forall t: nat :: t != r ==> SameSlot(g, s, s', held, held', t, d, b))
  }

  /** Unless r is the erase in question. */
  lemma LeftErasing<D>(g: Sizes, s: Sys<D>, s': Sys<D>, held: Option<nat>, held': Option<nat>, r: nat, d: nat, b: nat,
          row: Row)
    requires Left(g, s, s', held, held', r, d, b)
    ensures !s.pool.reqs[r].kind.NandErase? ==>
        (Erasing(s'.pool, held', d, b, row) <==> Erasing(s.pool, held, d, b, row))
    ensures Erasing(s'.pool, held', d, b, row) ==> Erasing(s.pool, held, d, b, row)
  {
    if held.Some? && held.value != r {
      assert SameSlot(g, s, s', held, held', held.value, d, b);
    }
    if held'.Some? && held'.value != r {
      assert SameSlot(g, s, s', held, held', held'.value, d, b);
    }
  }

  lemma LeftWriter<D>(g: Sizes, s: Sys<D>, s': Sys<D>, held: Option<nat>, held': Option<nat>, r: nat, d: nat, b: nat,
          i: nat)
    requires Left(g, s, s', held, held', r, d, b) && HasWriter(g, s.pool, held, d, b, i)
    requires s.pool.reqs[r].kind.NandWrite? ==> s.pool.reqs[r].page != i
    ensures HasWriter(g, s'.pool, held', d, b, i)
  {
    hide StageOf;
    var t: nat :| Pending(g, s.pool, held, t, d, b) && s.pool.reqs[t].kind.NandWrite? && s.pool.reqs[t].page == i;
    assert t != r && SameSlot(g, s, s', held, held', t, d, b);
  }

  lemma LeftErase<D>(g: Sizes, s: Sys<D>, s': Sys<D>, held: Option<nat>, held': Option<nat>, r: nat, d: nat, b: nat)
    requires Left(g, s, s', held, held', r, d, b) && !s.pool.reqs[r].kind.NandErase?
    requires exists t: nat :: Pending(g, s.pool, held, t, d, b) && s.pool.reqs[t].kind.NandErase?
    ensures exists t: nat :: Pending(g, s'.pool, held', t, d, b) && s'.pool.reqs[t].kind.NandErase?
  {
    hide StageOf;
    var t: nat :| Pending(g, s.pool, held, t, d, b) && s.pool.reqs[t].kind.NandErase?;
    assert t != r && SameSlot(g, s, s', held, held', t, d, b);
  }

  lemma LeftReaders<D>(g: Sizes, s: Sys<D>, s': Sys<D>, held: Option<nat>, held': Option<nat>, r: nat, d: nat, b: nat)
    requires Left(g, s, s', held, held', r, d, b)
    ensures Readers(g, s'.pool, held', d, b) == Readers(g, s.pool, held, d, b) - {r}
    ensures r in Readers(g, s.pool, held, d, b) <==>
        s.pool.reqs[r].kind.NandRead? && StageOf(g, s.pool, held, r).Waiting?
  {
    forall t: nat
      ensures t in Readers(g, s'.pool, held', d, b) <==> t in Readers(g, s.pool, held, d, b) && t != r
    {
      assert t != r ==> SameSlot(g, s, s', held, held', t, d, b);
    }
  }

  /** The pending requests that stay behind, under a new table entry and new page lists. */
  lemma LeftSlots<D>(g: Sizes, s: Sys<D>, s': Sys<D>, held: Option<nat>, held': Option<nat>, r: nat, d: nat, b: nat,
                     row: Row, now: seq<S.Page<D>>, sub: seq<S.Page<D>>, row': Row, now': seq<S.Page<D>>)
    requires Left(g, s, s', held, held', r, d, b) && SlotsOk(g, s, held, d, b, row, now, sub)
    requires forall t: nat :: t != r && Pending(g, s.pool, held, t, d, b) ==>
               SlotOk(s.pool.reqs[t], s.val[t], StageOf(g, s.pool, held, t), row', Erasing(s'.pool, held', d, b, row'),
                   now', sub)
    ensures SlotsOk(g, s', held', d, b, row', now', sub)
  {
    hide SlotOk, Erasing, Compatible, Pending, StageOf;
    forall t: nat | Pending(g, s'.pool, held', t, d, b)
      ensures t != r && Pending(g, s.pool, held, t, d, b) && t < |s'.val|
      ensures SlotOk(s'.pool.reqs[t], s'.val[t], StageOf(g, s'.pool, held', t), row',
          Erasing(s'.pool, held', d, b, row'), now', sub)
    {
      assert t != r ==> SameSlot(g, s, s', held, held', t, d, b);
    }
  }

  /** Slot r passed the check of CheckRowAddrDep and entered the NAND queue. */
  ghost predicate PassedTo<D>(g: Sizes, s: Sys<D>, s': Sys<D>, held: Option<nat>, held': Option<nat>, r: nat)
    requires SysShape(g, s) && SysShape(g, s') && r < |s.pool.reqs|
  {
    var q := s.pool.reqs[r];
    var (d, b) := (q.die, q.block);
    var row := s.pool.rows[d][b];
    && !q.Dma() && Left(g, s, s', held, held', r, d, b)
    && RowCheck(q, row, StageOf(g, s.pool, held, r).Asking?) == (s'.pool.rows[d][b], true)
    && (StageOf(g, s.pool, held, r).Asking? && q.kind.NandRead? ==> !row.erasing)
    && s'.now[d][b] == (if q.kind.NandErase? then s.sub.flash[d][b] else s.now[d][b])
    && s'.sub.flash[d][b] == s.sub.flash[d][b] && s'.act.flash[d][b] == s.act.flash[d][b]
    && s'.pool.queues[NandQ(g, d)] == s.pool.queues[NandQ(g, d)] + [r]
  }

  lemma LeftNothingLost<D>(g: Sizes, s: Sys<D>, s': Sys<D>, held: Option<nat>, held': Option<nat>, r: nat, d: nat,
          b: nat, row: Row, row': Row, now: nat, sub: nat)
    requires Left(g, s, s', held, held', r, d, b) && !s.pool.reqs[r].kind.NandErase?
    requires NothingLost(g, s.pool, held, d, b, row, now, sub)
    requires row'.permitted >= row.permitted
        && (Erasing(s'.pool, held', d, b, row') ==> Erasing(s.pool, held, d, b, row))
    requires s.pool.reqs[r].kind.NandWrite? ==> row.permitted == s.pool.reqs[r].page < row'.permitted
    requires s.pool.reqs[r].kind.NandWrite? && Erasing(s.pool, held, d, b, row) ==> sub <= s.pool.reqs[r].page
    ensures NothingLost(g, s'.pool, held', d, b, row', now, sub)
  {
    assert r < |s.pool.reqs|;
    hide Erasing, Pending, SameSlot, HasWriter, Left;
    forall i: nat | HasWriter(g, s.pool, held, d, b, i) && (s.pool.reqs[r].kind.NandWrite? ==> s.pool.reqs[r].page != i)
      ensures HasWriter(g, s'.pool, held', d, b, i)
    {
      LeftWriter(g, s, s', held, held', r, d, b, i);
    }
    if Erasing(s.pool, held, d, b, row) {
      LeftErase(g, s, s', held, held', r, d, b);
    }
  }

  /** The page counter moved past page: nothing else pending has that page. */
  lemma LeftSlotsOk<D>(g: Sizes, s: Sys<D>, s': Sys<D>, held: Option<nat>, held': Option<nat>, r: nat, d: nat, b: nat,
                       row: Row, now: seq<S.Page<D>>, sub: seq<S.Page<D>>, row': Row)
    requires Left(g, s, s', held, held', r, d, b) && SlotsOk(g, s, held, d, b, row, now, sub)
        && !s.pool.reqs[r].kind.NandErase?
    requires row'.erasing == row.erasing
    requires row'.permitted == (if s.pool.reqs[r].kind.NandWrite? then row.permitted + 1 else row.permitted)
    requires s.pool.reqs[r].kind.NandWrite? ==> s.pool.reqs[r].page == row.permitted
    ensures SlotsOk(g, s', held', d, b, row', now, sub)
  {
    LeftErasing(g, s, s', held, held', r, d, b, row);
    assert Erasing(s'.pool, held', d, b, row') == Erasing(s'.pool, held', d, b, row);
    hide Erasing, SameSlot, StageOf;
    forall t: nat | t != r && Pending(g, s.pool, held, t, d, b)
      ensures SlotOk(s.pool.reqs[t], s.val[t], StageOf(g, s.pool, held, t), row', Erasing(s'.pool, held', d, b, row'),
          now, sub)
    {
      assert Compatible(s.pool.reqs[r], s.pool.reqs[t]);
    }
    hide SlotOk;
    LeftSlots(g, s, s', held, held', r, d, b, row, now, sub, row', now);
  }

  /**
   A read or write that may go, seen from its block: what it finds at the end of the NAND queue is
   what it is to find.
   */
  lemma PassingSlot<D>(g: Sizes, s: Sys<D>, s': Sys<D>, held: Option<nat>, held': Option<nat>, r: nat, d: nat, b: nat)
    requires SysShape(g, s) && SysShape(g, s') && r < |s.pool.reqs| && PassedTo(g, s, s', held, held', r)
        && !s.pool.reqs[r].kind.NandErase?
    requires s.pool.reqs[r].On(d, b) && BlockOk(g, s, held, d, b)
    ensures var q := s.pool.reqs[r]; var row := s.pool.rows[d][b]; var now := s.now[d][b];
            && row.permitted <= |now| && LawfulAt(now[..row.permitted], q)
            && (q.kind.NandRead? ==> s.val[r] == now[..row.permitted][q.page])
            && (q.kind.NandWrite? ==> q.page < |now| && s.val[r] == now[q.page])
            && (q.kind.NandWrite? && Erasing(s.pool, held, d, b, row) ==> |s.sub.flash[d][b]| <= q.page)
  {
    var row := s.pool.rows[d][b];
    assert SlotOk(s.pool.reqs[r], s.val[r], StageOf(g, s.pool, held, r), row, Erasing(s.pool, held, d, b, row),
        s.now[d][b], s.sub.flash[d][b]);
  }

  /** The table entry after a read or write passed. */
  lemma PassedRow<D>(g: Sizes, s: Sys<D>, s': Sys<D>, held: Option<nat>, held': Option<nat>, r: nat, d: nat, b: nat)
    requires SysShape(g, s) && SysShape(g, s') && r < |s.pool.reqs| && PassedTo(g, s, s', held, held', r)
        && !s.pool.reqs[r].kind.NandErase?
    requires s.pool.reqs[r].On(d, b) && BlockOk(g, s, held, d, b)
    ensures var q := s.pool.reqs[r]; var row := s.pool.rows[d][b]; var row' := s'.pool.rows[d][b];
        var now := s.now[d][b]; var sub := s.sub.flash[d][b];
            && s'.val == s.val && s'.pool.reqs == s.pool.reqs && Left(g, s, s', held, held', r, d, b)
            && s'.now[d][b] == now && s'.sub.flash[d][b] == sub && s'.act.flash[d][b] == s.act.flash[d][b]
            && s'.pool.queues[NandQ(g, d)] == s.pool.queues[NandQ(g, d)] + [r]
            && row' == row.(permitted := row'.permitted, readers := row'.readers)
            && row'.permitted == (if q.kind.NandWrite? then row.permitted + 1 else row.permitted)
            && (q.kind.NandWrite? ==> q.page == row.permitted)
            && (Erasing(s'.pool, held', d, b, row') <==> Erasing(s.pool, held, d, b, row))
            && RowOk(s'.pool, held', d, b, row', now, sub)
            && row'.readers == |Readers(g, s'.pool, held', d, b)|
  {
    var row, row' := s.pool.rows[d][b], s'.pool.rows[d][b];
    PassingSlot(g, s, s', held, held', r, d, b);
    LeftErasing(g, s, s', held, held', r, d, b, row);
    assert Erasing(s'.pool, held', d, b, row') == Erasing(s'.pool, held', d, b, row);
    LeftReaders(g, s, s', held, held', r, d, b);
    hide SameSlot, HasWriter, Runs, SlotsOk, NothingLost;
  }

  lemma NonErasePasses<D>(g: Sizes, s: Sys<D>, s': Sys<D>, held: Option<nat>, held': Option<nat>, r: nat)
    requires SysShape(g, s) && SysShape(g, s') && r < |s.pool.reqs| && PassedTo(g, s, s', held, held', r)
        && !s.pool.reqs[r].kind.NandErase?
    requires BlockOk(g, s, held, s.pool.reqs[r].die, s.pool.reqs[r].block)
    ensures BlockOk(g, s', held', s.pool.reqs[r].die, s.pool.reqs[r].block)
  {
    hide Erasing, RowOk, Runs, Pending, SameSlot, HasWriter, Readers, SlotsOk, NothingLost, StageOf, Left, LawfulAt;
    var q := s.pool.reqs[r];
    var d, b := q.die, q.block;
    assert q.On(d, b);
    var row, row', now, sub := s.pool.rows[d][b], s'.pool.rows[d][b], s.now[d][b], s.sub.flash[d][b];
    PassingSlot(g, s, s', held, held', r, d, b);
    PassedRow(g, s, s', held, held', r, d, b);
    hide PassedTo, Shape, RowCheck;
    LeftSlotsOk(g, s, s', held, held', r, d, b, row, now, sub, row');
    LeftNothingLost(g, s, s', held, held', r, d, b, row, row', |now|, |sub|);
    RunsAppend(s.act.flash[d][b], s.pool.queues[NandQ(g, d)], s.pool.reqs, s.val, d, b, now[..row.permitted], r);
    assert q.kind.NandWrite? ==> now[..row.permitted] + [s.val[r]] == now[..row'.permitted];
  }

  /** All submitted pages are programmed and all waiting reads are gone: the lists behind the erase take over. */
  lemma ErasePasses<D>(g: Sizes, s: Sys<D>, s': Sys<D>, held: Option<nat>, held': Option<nat>, r: nat)
    requires SysShape(g, s) && SysShape(g, s') && r < |s.pool.reqs| && PassedTo(g, s, s', held, held', r)
        && s.pool.reqs[r].kind.NandErase?
    requires BlockOk(g, s, held, s.pool.reqs[r].die, s.pool.reqs[r].block)
    ensures BlockOk(g, s', held', s.pool.reqs[r].die, s.pool.reqs[r].block)
  {
    var q := s.pool.reqs[r];
    var d, b := q.die, q.block;
    var row, row', now, sub := s.pool.rows[d][b], s'.pool.rows[d][b], s.now[d][b], s.sub.flash[d][b];
    assert SlotOk(q, s.val[r], StageOf(g, s.pool, held, r), row, Erasing(s.pool, held, d, b, row), now, sub);
    assert Erasing(s.pool, held, d, b, row);
    NoOtherErase(g, s, s', held, held', r, d, b, row');
    LeftReaders(g, s, s', held, held', r, d, b);
    assert Readers(g, s.pool, held, d, b) == {};
    assert SlotsOk(g, s', held', d, b, row', sub, sub) by {
      hide Erasing, Runs, SameSlot, HasWriter;
      forall t: nat | t != r && Pending(g, s.pool, held, t, d, b)
        ensures SlotOk(s.pool.reqs[t], s.val[t], StageOf(g, s.pool, held, t), row', false, sub, sub)
      {
        assert Compatible(q, s.pool.reqs[t]) && t !in Readers(g, s.pool, held, d, b);
        assert SlotOk(s.pool.reqs[t], s.val[t], StageOf(g, s.pool, held, t), row, Erasing(s.pool, held, d, b, row),
            now, sub);
      }
      LeftSlots(g, s, s', held, held', r, d, b, row, now, sub, row', sub);
    }
    assert NothingLost(g, s'.pool, held', d, b, row', |sub|, |sub|) by {
      hide Erasing, Runs, SameSlot, HasWriter;
      forall i: nat | HasWriter(g, s.pool, held, d, b, i)
        ensures HasWriter(g, s'.pool, held', d, b, i)
      {
        LeftWriter(g, s, s', held, held', r, d, b, i);
      }
    }
    RunsAppend(s.act.flash[d][b], s.pool.queues[NandQ(g, d)], s.pool.reqs, s.val, d, b, now[..row.permitted], r);
    assert sub[..row'.permitted] == [];
  }

  lemma NoOtherErase<D>(g: Sizes, s: Sys<D>, s': Sys<D>, held: Option<nat>, held': Option<nat>, r: nat, d: nat, b: nat,
          row: Row)
    requires Left(g, s, s', held, held', r, d, b) && s.pool.reqs[r].kind.NandErase? && !row.erasing
    requires forall t: nat :: Pending(g, s.pool, held, t, d, b) && t != r ==> Compatible(s.pool.reqs[r], s.pool.reqs[t])
    ensures !Erasing(s'.pool, held', d, b, row)
  {
    if held'.Some? && held'.value != r {
      assert SameSlot(g, s, s', held, held', held'.value, d, b);
    }
  }

  /** Slot r, held until now, waits: as a read it is counted, as an erase it is flagged. */
  ghost predicate WaitsIn<D>(g: Sizes, s: Sys<D>, s': Sys<D>, r: nat)
    requires SysShape(g, s) && SysShape(g, s') && r < |s.pool.reqs|
  {
    var q := s.pool.reqs[r];
    var (d, b) := (q.die, q.block);
    var row := s.pool.rows[d][b];
    && !q.Dma() && s'.val == s.val && s'.pool.reqs == s.pool.reqs
    && StageOf(g, s.pool, Some(r), r).Asking? && StageOf(g, s'.pool, None, r).Waiting?
    && (forall t: nat :: t != r ==> SameSlot(g, s, s', Some(r), None, t, d, b))
    && s'.pool.rows[d][b] == row.(readers := if q.kind.NandRead? then row.readers + 1 else row.readers, erasing :=
        row.erasing || q.kind.NandErase?)
    && (q.kind.NandRead? ==> !row.erasing)
    && s'.now[d][b] == s.now[d][b] && s'.sub.flash[d][b] == s.sub.flash[d][b] && s'.act.flash[d][b] == s.act.flash[d][b]
    && s'.pool.queues[NandQ(g, d)] == s.pool.queues[NandQ(g, d)]
  }

  lemma WaitsSlots<D>(g: Sizes, s: Sys<D>, s': Sys<D>, r: nat, d: nat, b: nat)
    requires SysShape(g, s) && SysShape(g, s') && r < |s.pool.reqs| && WaitsIn(g, s, s', r)
    requires s.pool.reqs[r].On(d, b) && BlockOk(g, s, Some(r), d, b)
    ensures SlotsOk(g, s', None, d, b, s'.pool.rows[d][b], s'.now[d][b], s'.sub.flash[d][b])
    ensures Erasing(s'.pool, None, d, b, s'.pool.rows[d][b]) == Erasing(s.pool, Some(r), d, b, s.pool.rows[d][b])
  {
    var row, now, sub := s.pool.rows[d][b], s.now[d][b], s.sub.flash[d][b];
    assert Pending(g, s.pool, Some(r), r, d, b);
    hide Runs, NothingLost, Readers;
    forall t: nat | Pending(g, s'.pool, None, t, d, b)
      ensures Pending(g, s.pool, Some(r), t, d, b)
      ensures SlotOk(s'.pool.reqs[t], s'.val[t], StageOf(g, s'.pool, None, t), s'.pool.rows[d][b],
          Erasing(s'.pool, None, d, b, s'.pool.rows[d][b]), now, sub)
    {
      assert t != r ==> SameSlot(g, s, s', Some(r), None, t, d, b);
      assert SlotOk(s.pool.reqs[t], s.val[t], StageOf(g, s.pool, Some(r), t), row, Erasing(s.pool, Some(r), d, b, row),
          now, sub);
    }
  }

  lemma WaitsNothingLost<D>(g: Sizes, s: Sys<D>, s': Sys<D>, r: nat, d: nat, b: nat, row: Row, row': Row, now: nat,
          sub: nat)
    requires SysShape(g, s) && SysShape(g, s') && r < |s.pool.reqs| && WaitsIn(g, s, s', r) && s.pool.reqs[r].On(d, b)
    requires NothingLost(g, s.pool, Some(r), d, b, row, now, sub) && row'.permitted == row.permitted
    requires Erasing(s'.pool, None, d, b, row') ==> Erasing(s.pool, Some(r), d, b, row)
    ensures NothingLost(g, s'.pool, None, d, b, row', now, sub)
  {
    assert Pending(g, s'.pool, None, r, d, b);
    forall t: nat | Pending(g, s.pool, Some(r), t, d, b)
      ensures Pending(g, s'.pool, None, t, d, b)
    {
      assert t != r ==> SameSlot(g, s, s', Some(r), None, t, d, b);
    }
    hide Pending, SameSlot, Erasing;
    forall i: nat | HasWriter(g, s.pool, Some(r), d, b, i)
      ensures HasWriter(g, s'.pool, None, d, b, i)
    {
      var t: nat :| Pending(g, s.pool, Some(r), t, d, b) && s.pool.reqs[t].kind.NandWrite? && s.pool.reqs[t].page == i;
      assert Pending(g, s'.pool, None, t, d, b);
    }
  }

  lemma WaitsReaders<D>(g: Sizes, s: Sys<D>, s': Sys<D>, r: nat, d: nat, b: nat)
    requires SysShape(g, s) && SysShape(g, s') && r < |s.pool.reqs| && WaitsIn(g, s, s', r) && s.pool.reqs[r].On(d, b)
    ensures r !in Readers(g, s.pool, Some(r), d, b)
    ensures Readers(g, s'.pool, None, d, b) == Readers(g, s.pool, Some(r), d, b) + if s.pool.reqs[r].kind.NandRead?
        then {r} else {}
  {
    forall t: nat
      ensures t in Readers(g, s'.pool, None, d, b) <==>
          t in Readers(g, s.pool, Some(r), d, b) || (t == r && s.pool.reqs[r].kind.NandRead?)
    {
      assert t != r ==> SameSlot(g, s, s', Some(r), None, t, d, b);
    }
  }

  lemma RequestWaits<D>(g: Sizes, s: Sys<D>, s': Sys<D>, r: nat)
    requires SysShape(g, s) && SysShape(g, s') && r < |s.pool.reqs| && WaitsIn(g, s, s', r)
    requires BlockOk(g, s, Some(r), s.pool.reqs[r].die, s.pool.reqs[r].block)
    ensures BlockOk(g, s', None, s.pool.reqs[r].die, s.pool.reqs[r].block)
  {
    hide Runs, Pending, SameSlot, HasWriter, Readers, SlotsOk, NothingLost, StageOf, Erasing;
    var q := s.pool.reqs[r];
    var d, b := q.die, q.block;
    assert q.On(d, b);
    WaitsSlots(g, s, s', r, d, b);
    WaitsNothingLost(g, s, s', r, d, b, s.pool.rows[d][b], s'.pool.rows[d][b], |s.now[d][b]|, |s.sub.flash[d][b]|);
    WaitsReaders(g, s, s', r, d, b);
  }

  /** A request on the block is submitted into slot r: sub has executed it, and now has unless it is behind an erase. */
  ghost predicate SubmittedTo<D>(g: Sizes, s: Sys<D>, s': Sys<D>, r: nat, q: Req<D>)
    requires SysShape(g, s) && SysShape(g, s') && r < |s.pool.reqs| == |s'.pool.reqs| && InRange(g, q)
  {
    var (d, b) := (q.die, q.block);
    var row, now, sub, v := s.pool.rows[d][b], s.now[d][b], s.sub.flash[d][b], s'.val[r];
    && !q.Dma() && s'.pool.reqs == s.pool.reqs[r := q] && s'.val == s.val[r := v] && s.pool.place[r] == None
        && s'.pool.place == s.pool.place
    && LawfulAt(sub, q) && (q.kind.NandRead? ==> v == sub[q.page])
    && Fresh(row, q)
    && s'.pool.rows[d][b] == row && s'.sub.flash[d][b] == CellsAfter(sub, q, v)
    && s'.now[d][b] == (if q.kind.NandWrite? && !row.erasing then now + [v] else now)
    && s'.act.flash[d][b] == s.act.flash[d][b] && s'.pool.queues[NandQ(g, d)] == s.pool.queues[NandQ(g, d)]
  }

  /** A slot outside all queues is not pending, whatever request it held. */
  lemma SubmittedSlots<D>(g: Sizes, s: Sys<D>, s': Sys<D>, r: nat, q: Req<D>, d: nat, b: nat)
    requires |s'.pool.reqs| == |s.pool.reqs| == |s.val| == |s'.val| == |s.pool.place| && r < |s.pool.reqs|
    requires s'.pool.reqs == s.pool.reqs[r := q] && s'.val == s.val[r := s'.val[r]] && s.pool.place[r] == None
        && s'.pool.place == s.pool.place
    ensures forall t: nat :: t != r ==> SameSlot(g, s, s', None, Some(r), t, d, b)
    ensures !Pending(g, s.pool, None, r, d, b) && (Pending(g, s'.pool, Some(r), r, d, b) <==> q.On(d, b))
  {
  }

  lemma SubmittedSlotsOk<D>(g: Sizes, s: Sys<D>, s': Sys<D>, r: nat, q: Req<D>)
    requires SysShape(g, s) && SysShape(g, s') && r < |s.pool.reqs| == |s'.pool.reqs| && InRange(g, q)
        && SubmittedTo(g, s, s', r, q)
    requires BlockOk(g, s, None, q.die, q.block)
    ensures SlotsOk(g, s', Some(r), q.die, q.block, s'.pool.rows[q.die][q.block], s'.now[q.die][q.block],
        s'.sub.flash[q.die][q.block])
  {
    var d, b := q.die, q.block;
    var row, now, sub := s.pool.rows[d][b], s.now[d][b], s.sub.flash[d][b];
    SubmittedSlots(g, s, s', r, q, d, b);
    hide Runs, NothingLost, Readers;
    forall t: nat | Pending(g, s'.pool, Some(r), t, d, b)
      ensures t < |s'.val| && SlotOk(s'.pool.reqs[t], s'.val[t], StageOf(g, s'.pool, Some(r), t), row,
          Erasing(s'.pool, Some(r), d, b, row), s'.now[d][b], s'.sub.flash[d][b])
    {
      if t != r {
        assert SameSlot(g, s, s', None, Some(r), t, d, b);
        assert SlotOk(s.pool.reqs[t], s.val[t], StageOf(g, s.pool, None, t), row, Erasing(s.pool, None, d, b, row),
            now, sub);
      }
    }
    forall t: nat | Pending(g, s'.pool, Some(r), t, d, b) && t != r
      ensures Compatible(s'.pool.reqs[t], q) && Compatible(q, s'.pool.reqs[t])
    {
      assert SameSlot(g, s, s', None, Some(r), t, d, b);
      assert SlotOk(s.pool.reqs[t], s.val[t], StageOf(g, s.pool, None, t), row, Erasing(s.pool, None, d, b, row), now,
          sub);
    }
    forall t: nat, u: nat | Pending(g, s'.pool, Some(r), t, d, b) && Pending(g, s'.pool, Some(r), u, d, b) && t != u
      ensures Compatible(s'.pool.reqs[t], s'.pool.reqs[u])
    {
      assert t != r ==> SameSlot(g, s, s', None, Some(r), t, d, b);
      assert u != r ==> SameSlot(g, s, s', None, Some(r), u, d, b);
    }
  }

  lemma SubmittedNothingLost<D>(g: Sizes, s: Sys<D>, s': Sys<D>, r: nat, q: Req<D>)
    requires SysShape(g, s) && SysShape(g, s') && r < |s.pool.reqs| == |s'.pool.reqs| && InRange(g, q)
        && SubmittedTo(g, s, s', r, q)
    requires BlockOk(g, s, None, q.die, q.block)
    ensures NothingLost(g, s'.pool, Some(r), q.die, q.block, s'.pool.rows[q.die][q.block], |s'.now[q.die][q.block]|,
        |s'.sub.flash[q.die][q.block]|)
  {
    var d, b := q.die, q.block;
    var row, now, sub := s.pool.rows[d][b], s.now[d][b], s.sub.flash[d][b];
    SubmittedSlots(g, s, s', r, q, d, b);
    hide Runs, SlotsOk, Readers, StageOf, Pending;
    assert Pending(g, s'.pool, Some(r), r, d, b);
    assert q.kind.NandWrite? ==> HasWriter(g, s'.pool, Some(r), d, b, q.page);
    forall i: nat | HasWriter(g, s.pool, None, d, b, i)
      ensures HasWriter(g, s'.pool, Some(r), d, b, i)
    {
      var t: nat :| Pending(g, s.pool, None, t, d, b) && s.pool.reqs[t].kind.NandWrite? && s.pool.reqs[t].page == i;
      assert SameSlot(g, s, s', None, Some(r), t, d, b);
    }
    if row.erasing {
      var t: nat :| Pending(g, s.pool, None, t, d, b) && s.pool.reqs[t].kind.NandErase?;
      assert SameSlot(g, s, s', None, Some(r), t, d, b);
    }
  }

  lemma SubmittedReaders<D>(g: Sizes, s: Sys<D>, s': Sys<D>, r: nat, q: Req<D>, d: nat, b: nat)
    requires |s'.pool.reqs| == |s.pool.reqs| == |s.val| == |s'.val| == |s.pool.place| && r < |s.pool.reqs|
    requires s'.pool.reqs == s.pool.reqs[r := q] && s'.val == s.val[r := s'.val[r]] && s.pool.place[r] == None
        && s'.pool.place == s.pool.place
    ensures Readers(g, s'.pool, Some(r), d, b) == Readers(g, s.pool, None, d, b)
  {
    assert forall t: nat :: t in Readers(g, s'.pool, Some(r), d, b) <==> t in Readers(g, s.pool, None, d, b);
  }

  lemma RequestSubmitted<D>(g: Sizes, s: Sys<D>, s': Sys<D>, r: nat, q: Req<D>)
    requires SysShape(g, s) && SysShape(g, s') && r < |s.pool.reqs| == |s'.pool.reqs| && InRange(g, q)
        && SubmittedTo(g, s, s', r, q)
    requires BlockOk(g, s, None, q.die, q.block) && r !in s.pool.queues[NandQ(g, q.die)]
    ensures BlockOk(g, s', Some(r), q.die, q.block)
  {
    var d, b := q.die, q.block;
    var row, now := s.pool.rows[d][b], s.now[d][b];
    SubmittedSlotsOk(g, s, s', r, q);
    SubmittedNothingLost(g, s, s', r, q);
    SubmittedReaders(g, s, s', r, q, d, b);
    hide SlotsOk, NothingLost, Readers, StageOf;
    RunsFrame(s.act.flash[d][b], s.pool.queues[NandQ(g, d)], s.pool.reqs, s.val, s'.pool.reqs, s'.val, d, b,
        now[..row.permitted]);
    assert now[..row.permitted] == s'.now[d][b][..row.permitted];
  }

  // ---------- one buffer entry ----------

  /** What chain e sees is unchanged, up to the place of slot r. */
  ghost predicate SameChain<D>(g: Sizes, s: Sys<D>, s': Sys<D>, e: nat)
    requires SysShape(g, s) && SysShape(g, s') && e < g.bufs
  {
    && s'.pool.reqs == s.pool.reqs && s'.val == s.val && s'.pool.chains[e] == s.pool.chains[e]
    && s'.act.buf[e] == s.act.buf[e] && s'.sub.buf[e] == s.sub.buf[e]
  }

  /** The held request is put into queue q, which is the buffer-blocked one unless it is first in its chain. */
  lemma ChainDecided<D>(g: Sizes, s: Sys<D>, s': Sys<D>, r: nat, q: nat, e: nat)
    requires SysShape(g, s) && SysShape(g, s') && e < g.bufs && r < |s.pool.reqs| && BUF <= q && SameChain(g, s, s', e)
    requires s'.pool.place == s.pool.place[r := Some(q)] && ChainOk(g, s, Some(r), None, e)
    requires s.pool.reqs[r].Buffered() && s.pool.reqs[r].buf == e ==> (q != BUF <==> BufPass(g, s.pool, r))
    ensures ChainOk(g, s', None, None, e)
  {
    var c := s.pool.chains[e];
    assert forall t: nat :: LinkedTo(s'.pool, None, t, e) <==> LinkedTo(s.pool, Some(r), t, e);
    hide Fits;
    forall i: nat | i < |c|
      ensures ChainAt(s', None, None, s'.act.buf[e], c, i)
    {
      assert ChainAt(s, Some(r), None, s.act.buf[e], c, i);
      assert c[i] in c && c[0] in c;
      if c[i] == r {
        assert LinkedTo(s.pool, Some(r), r, e) && (i == 0 <==> c[0] == r);
      }
    }
  }

  /** A request that is not, or need not be, blocked by its buffer entry moves to queue q. */
  lemma ChainMoved<D>(g: Sizes, s: Sys<D>, s': Sys<D>, held: Option<nat>, free: Option<nat>, r: nat, q: nat, e: nat)
    requires SysShape(g, s) && SysShape(g, s') && e < g.bufs && r < |s.pool.reqs| && BUF < q && SameChain(g, s, s', e)
    requires s.pool.place[r].Some? && s.pool.place[r].value >= BUF && held != Some(r)
    requires s.pool.place[r] == Some(BUF) ==> free == Some(r)
    requires s'.pool.place == s.pool.place[r := Some(q)] && ChainOk(g, s, held, free, e)
    requires free.Some? ==> free == Some(r)
    ensures ChainOk(g, s', held, None, e)
  {
    var c := s.pool.chains[e];
    assert forall t: nat :: LinkedTo(s'.pool, held, t, e) <==> LinkedTo(s.pool, held, t, e);
    hide Fits;
    forall i: nat | i < |c|
      ensures ChainAt(s', held, None, s'.act.buf[e], c, i)
    {
      assert ChainAt(s, held, free, s.act.buf[e], c, i);
    }
  }

  /** A new request joins the end of its chain. */
  lemma ChainSubmitted<D>(g: Sizes, s: Sys<D>, s': Sys<D>, r: nat, q: Req<D>, e: nat)
    requires SysShape(g, s) && SysShape(g, s') && e < g.bufs && r < |s.pool.reqs| && InRange(g, q)
    requires s'.pool.reqs == s.pool.reqs[r := q] && s.pool.place[r] == None && s'.pool.place == s.pool.place
    requires s'.val == s.val[r := s'.val[r]] && s'.act.buf[e] == s.act.buf[e]
    requires ChainOk(g, s, None, None, e)
    requires s'.pool.chains[e] == s.pool.chains[e] + if q.Buffered() && q.buf == e then [r] else []
    requires if q.Buffered() && q.buf == e then s'.sub.buf[e] == s'.val[r] && Fits(q, s.sub.buf[e], s'.val[r])
        else s'.sub.buf[e] == s.sub.buf[e]
    ensures ChainOk(g, s', Some(r), None, e)
  {
    var c, c' := s.pool.chains[e], s'.pool.chains[e];
    assert r !in c by {
      assert !LinkedTo(s.pool, None, r, e);
    }
    forall t: nat
      ensures t in c' <==> LinkedTo(s'.pool, Some(r), t, e)
    {
      assert t in c <==> LinkedTo(s.pool, None, t, e);
    }
    hide Fits, LinkedTo;
    forall i: nat | i < |c'|
      ensures ChainAt(s', Some(r), None, s'.act.buf[e], c', i)
    {
      if i < |c| {
        assert ChainAt(s, None, None, s.act.buf[e], c, i) && c[i] in c && (i > 0 ==> c[i - 1] in c);
      } else if i > 0 {
        assert ChainAt(s, None, None, s.act.buf[e], c, i - 1) && c[i - 1] in c;
      }
    }
    if c' == c && c != [] {
      assert c[|c| - 1] in c;
    }
  }

  /** Only the first request of a chain can be in the DMA, the row-blocked or a NAND queue. */
  lemma OnlyHeadIsOut<D>(g: Sizes, s: Sys<D>, held: Option<nat>, r: nat)
    requires SysShape(g, s) && r < |s.pool.reqs| && s.pool.reqs[r].Buffered()
        && ChainOk(g, s, held, None, s.pool.reqs[r].buf)
    requires s.pool.place[r].Some? && s.pool.place[r].value > BUF && held != Some(r)
    ensures s.pool.chains[s.pool.reqs[r].buf] != [] && s.pool.chains[s.pool.reqs[r].buf][0] == r
    ensures Fits(s.pool.reqs[r], s.act.buf[s.pool.reqs[r].buf], s.val[r])
  {
    var e := s.pool.reqs[r].buf;
    var c := s.pool.chains[e];
    assert LinkedTo(s.pool, held, r, e) && r in c;
    var i: nat :| i < |c| && c[i] == r;
    assert ChainAt(s, held, None, s.act.buf[e], c, i);
  }

  /** Slot r leaves its queue for the free queue, in a state where its chains and values stay. */
  ghost predicate Freed<D>(g: Sizes, s: Sys<D>, s': Sys<D>, held: Option<nat>, r: nat)
    requires SysShape(g, s) && SysShape(g, s')
  {
    && r < |s.pool.reqs| && held != Some(r) && s.pool.place[r].Some? && s.pool.place[r].value > BUF
    && s'.pool.place == s.pool.place[r := Some(FREE)] && s'.pool.reqs == s.pool.reqs && s'.val == s.val
        && s'.sub == s.sub
  }

  /** The first request of its chain completes: the entry now holds what the request left there. */
  lemma OwnChainRetired<D>(g: Sizes, s: Sys<D>, s': Sys<D>, held: Option<nat>, r: nat, e: nat)
    requires SysShape(g, s) && SysShape(g, s') && e < g.bufs && Freed(g, s, s', held, r) && ChainOk(g, s, held, None, e)
    requires s.pool.reqs[r].Buffered() && s.pool.reqs[r].buf == e
    requires s'.act.buf[e] == s.val[r] && s'.pool.chains[e] == Without(s.pool.chains[e], r)
    ensures ChainOk(g, s', held, Successor(g, s.pool, r), e)
  {
    var c, c' := s.pool.chains[e], s'.pool.chains[e];
    var free := Successor(g, s.pool, r);
    OnlyHeadIsOut(g, s, held, r);
    assert c' == c[1..];
    forall t: nat
      ensures t in c' <==> LinkedTo(s'.pool, held, t, e)
    {
      assert t in c <==> LinkedTo(s.pool, held, t, e);
      assert c == [r] + c';
    }
    hide Fits, LinkedTo;
    forall i: nat | i < |c'|
      ensures ChainAt(s', held, free, s'.act.buf[e], c', i)
    {
      assert ChainAt(s, held, None, s.act.buf[e], c, i + 1) && c'[i] == c[i + 1] && (i > 0 ==> c'[i - 1] == c[i]);
    }
  }

  lemma OtherChainRetired<D>(g: Sizes, s: Sys<D>, s': Sys<D>, held: Option<nat>, r: nat, e: nat)
    requires SysShape(g, s) && SysShape(g, s') && e < g.bufs && Freed(g, s, s', held, r) && ChainOk(g, s, held, None, e)
    requires s.pool.reqs[r].Buffered() ==> s.pool.reqs[r].buf != e && ChainOk(g, s, held, None, s.pool.reqs[r].buf)
    requires s'.act.buf[e] == s.act.buf[e] && s'.pool.chains[e] == s.pool.chains[e]
    ensures ChainOk(g, s', held, Successor(g, s.pool, r), e)
  {
    var c := s.pool.chains[e];
    var free := Successor(g, s.pool, r);
    assert r !in c by {
      assert !LinkedTo(s.pool, held, r, e);
    }
    assert free.Some? ==> free.value !in c by {
      if free.Some? {
        assert free.value in s.pool.chains[s.pool.reqs[r].buf]
            && LinkedTo(s.pool, held, free.value, s.pool.reqs[r].buf);
        assert !LinkedTo(s.pool, held, free.value, e);
      }
    }
    assert forall t: nat :: t in c <==> LinkedTo(s'.pool, held, t, e) by {
      assert forall t: nat :: LinkedTo(s.pool, held, t, e) <==> LinkedTo(s'.pool, held, t, e);
    }
    hide Fits, LinkedTo, Successor;
    forall i: nat | i < |c|
      ensures ChainAt(s', held, free, s'.act.buf[e], c, i)
    {
      assert ChainAt(s, held, None, s.act.buf[e], c, i) && c[i] in c;
    }
  }

  // ---------- queues ----------

  lemma PutQueues<D>(g: Sizes, p: Pool<D>, q: nat, r: nat)
    requires Shape(g, p) && QueuesOk(g, p) && q < QueueCount(g) && r < |p.reqs| && p.place[r] == None
        && Suits(g, p.reqs[r], q)
    ensures QueuesOk(g, Put(g, p, q, r))
  {
  }

  lemma TakeQueues<D>(g: Sizes, p: Pool<D>, r: nat)
    requires Shape(g, p) && QueuesOk(g, p) && r < |p.reqs|
    ensures QueuesOk(g, Take(g, p, r)) && Take(g, p, r).place == p.place[r := None]
    ensures forall q :: 0 <= q < |p.queues| && p.place[r] != Some(q) ==> Take(g, p, r).queues[q] == p.queues[q]
  {
    if p.place[r].Some? {
      WithoutMembers(p.queues[p.place[r].value], r);
    }
  }

  // ---------- a slot finds its place ----------

  /**
   Slot r went to queue q, out of the caller's hand if it was the held one; nothing changed but its
   block's entries.
   */
  ghost predicate Placed<D>(g: Sizes, s: Sys<D>, s': Sys<D>, held: Option<nat>, held': Option<nat>, r: nat, q: nat)
    requires SysShape(g, s) && SysShape(g, s')
  {
    && r < |s.pool.reqs| && q < QueueCount(g) && Suits(g, s.pool.reqs[r], q)
    && s'.pool.reqs == s.pool.reqs && s'.val == s.val && s'.act == s.act && s'.sub == s.sub
        && s'.pool.chains == s.pool.chains
    && s'.pool.place == s.pool.place[r := Some(q)]
    && (if held == Some(r) then held' == None else held' == held)
    && (forall d, b :: 0 <= d < g.dies && 0 <= b < g.blocks && !s.pool.reqs[r].On(d, b) ==>
          s'.pool.rows[d][b] == s.pool.rows[d][b] && s'.now[d][b] == s.now[d][b])
    && (forall d :: 0 <= d < g.dies ==> s'.pool.queues[NandQ(g, d)] == if q == NandQ(g, d)
        then s.pool.queues[NandQ(g, d)] + [r] else s.pool.queues[NandQ(g, d)])
  }

  lemma PlacedOthers<D>(g: Sizes, s: Sys<D>, s': Sys<D>, held: Option<nat>, held': Option<nat>, r: nat, q: nat, d: nat,
          b: nat)
    requires SysShape(g, s) && SysShape(g, s') && Placed(g, s, s', held, held', r, q)
    ensures forall t: nat :: t != r || !s.pool.reqs[r].On(d, b) ==> SameSlot(g, s, s', held, held', t, d, b)
  {
  }

  lemma PlacedElsewhere<D>(g: Sizes, s: Sys<D>, s': Sys<D>, held: Option<nat>, held': Option<nat>, r: nat, q: nat,
          d: nat, b: nat)
    requires SysShape(g, s) && SysShape(g, s') && Placed(g, s, s', held, held', r, q)
    requires d < g.dies && b < g.blocks && !s.pool.reqs[r].On(d, b) && BlockOk(g, s, held, d, b)
    ensures BlockOk(g, s', held', d, b)
  {
    PlacedOthers(g, s, s', held, held', r, q, d, b);
    var row, now := s.pool.rows[d][b], s.now[d][b];
    assert row.permitted <= |now| && Runs(s.act.flash[d][b], s.pool.queues[NandQ(g, d)], s.pool.reqs, s.val, d, b,
        now[..row.permitted]);
    hide BlockOk, SameSlot;
    if q == NandQ(g, d) {
      RunsAppend(s.act.flash[d][b], s.pool.queues[NandQ(g, d)], s.pool.reqs, s.val, d, b, now[..row.permitted], r);
    }
    BlockFrame(g, s, s', held, held', d, b);
  }

  /** What happened to the table entry and the page lists of a NAND request's own block. */
  ghost predicate RowChanged<D>(g: Sizes, s: Sys<D>, s': Sys<D>, held: Option<nat>, r: nat, q: nat)
    requires SysShape(g, s) && SysShape(g, s') && r < |s.pool.reqs|
  {
    var k := s.pool.reqs[r];
    var row, row' := s.pool.rows[k.die][k.block], s'.pool.rows[k.die][k.block];
    var now, now' := s.now[k.die][k.block], s'.now[k.die][k.block];
    if q == NandQ(g, k.die) then
      && RowCheck(k, row, held == Some(r)) == (row', true)
          && now' == if k.kind.NandErase? then s.sub.flash[k.die][k.block] else now
    else if held == Some(r) then
      && row' == row.(readers := if k.kind.NandRead? then row.readers + 1 else row.readers, erasing :=
          row.erasing || k.kind.NandErase?) && now' == now
    else row' == row && now' == now
  }

  /** Slot r is held, or waits in a queue. */
  ghost predicate MayEnter<D>(g: Sizes, s: Sys<D>, held: Option<nat>, r: nat)
    requires SysShape(g, s) && r < |s.pool.reqs|
  {
    var k := s.pool.reqs[r];
    if held == Some(r) then k.kind.NandRead? ==> !s.pool.rows[k.die][k.block].erasing
    else StageOf(g, s.pool, held, r).Waiting?
  }

  lemma PlacedOwnBlock<D>(g: Sizes, s: Sys<D>, s': Sys<D>, held: Option<nat>, held': Option<nat>, r: nat, q: nat)
    requires SysShape(g, s) && SysShape(g, s') && Placed(g, s, s', held, held', r, q) && MayEnter(g, s, held, r)
    requires !s.pool.reqs[r].Dma() && RowChanged(g, s, s', held, r, q) && (q == BUF || q >= 4)
    requires BlockOk(g, s, held, s.pool.reqs[r].die, s.pool.reqs[r].block)
    ensures BlockOk(g, s', held', s.pool.reqs[r].die, s.pool.reqs[r].block)
  {
    hide BlockOk, SameSlot, RowCheck;
    var k := s.pool.reqs[r];
    PlacedOthers(g, s, s', held, held', r, q, k.die, k.block);
    if q == NandQ(g, k.die) {
      assert PassedTo(g, s, s', held, held', r);
      if k.kind.NandErase? {
        ErasePasses(g, s, s', held, held', r);
      } else {
        NonErasePasses(g, s, s', held, held', r);
      }
    } else if held == Some(r) {
      assert WaitsIn(g, s, s', r);
      RequestWaits(g, s, s', r);
    } else {
      PlacedStillWaits(g, s, s', held, r, q);
    }
  }

  lemma PlacedStillWaits<D>(g: Sizes, s: Sys<D>, s': Sys<D>, held: Option<nat>, r: nat, q: nat)
    requires SysShape(g, s) && SysShape(g, s') && Placed(g, s, s', held, held, r, q) && held != Some(r)
        && MayEnter(g, s, held, r)
    requires !s.pool.reqs[r].Dma() && RowChanged(g, s, s', held, r, q) && (q == BUF || q == RowQ(s.pool.reqs[r].die))
    requires BlockOk(g, s, held, s.pool.reqs[r].die, s.pool.reqs[r].block)
    ensures BlockOk(g, s', held, s.pool.reqs[r].die, s.pool.reqs[r].block)
  {
    var k := s.pool.reqs[r];
    PlacedOthers(g, s, s', held, held, r, q, k.die, k.block);
    assert SameSlot(g, s, s', held, held, r, k.die, k.block);
    hide SameSlot, SlotsOk, NothingLost, Readers, RowCheck;
    BlockFrame(g, s, s', held, held, k.die, k.block);
  }

  /** Entering a queue keeps every block. */
  lemma PlacedBlocks<D>(g: Sizes, s: Sys<D>, s': Sys<D>, held: Option<nat>, held': Option<nat>, r: nat, q: nat)
    requires SysShape(g, s) && SysShape(g, s') && r < |s.pool.reqs| && Placed(g, s, s', held, held', r, q)
        && BlocksOk(g, s, held)
    requires !s.pool.reqs[r].Dma() ==>
        MayEnter(g, s, held, r) && RowChanged(g, s, s', held, r, q) && (q == BUF || q >= 4)
    ensures BlocksOk(g, s', held')
  {
    var k := s.pool.reqs[r];
    hide BlockOk, RowChanged, MayEnter, Placed;
    forall d, b | 0 <= d < g.dies && 0 <= b < g.blocks
      ensures BlockOk(g, s', held', d, b)
    {
      if k.On(d, b) {
        PlacedOwnBlock(g, s, s', held, held', r, q);
      } else {
        PlacedElsewhere(g, s, s', held, held', r, q, d, b);
      }
    }
  }

  // ---------- submission ----------

  /** Behind an erase that still waits comes no second one, and no write that the checks would let pass before it. */
  predicate Fresh<D>(row: Row, q: Req<D>) {
    row.erasing ==> !q.kind.NandErase? && (q.kind.NandWrite? ==> q.page < row.permitted)
  }

  /** In submission order the request keeps to the flash discipline, and it is fresh. */
  predicate Admissible<D>(g: Sizes, s: Sys<D>, q: Req<D>)
    requires SysShape(g, s) && InRange(g, q)
  {
    Lawful(g, s.sub, q) && Fresh(s.pool.rows[q.die][q.block], q)
  }

  /** A request is put into the held slot r and linked into its chain. */
  function Submit<D>(g: Sizes, s: Sys<D>, r: nat, q: Req<D>): (s': Sys<D>)
    requires SysShape(g, s) && r < |s.pool.reqs| && InRange(g, q) && Lawful(g, s.sub, q)
    ensures SysShape(g, s')
  {
    var (d, b) := (q.die, q.block);
    var sub := Exec(g, s.sub, q);
    var v := if q.Buffered() then sub.buf[q.buf] else s.val[r];
    var now := if q.kind.NandWrite? && !s.pool.rows[d][b].erasing then s.now[d := s.now[d][b := s.now[d][b] + [v]]]
        else s.now;
    Sys(Link(g, s.pool.(reqs := s.pool.reqs[r := q]), r), s.act, sub, s.val[r := v], now)
  }

  lemma SubmitElsewhere<D>(g: Sizes, s: Sys<D>, r: nat, q: Req<D>, d: nat, b: nat)
    requires SysShape(g, s) && r < |s.pool.reqs| && InRange(g, q) && Admissible(g, s, q)
    requires QueuesOk(g, s.pool) && s.pool.place[r] == None
    requires d < g.dies && b < g.blocks && !q.On(d, b) && BlockOk(g, s, None, d, b)
    ensures BlockOk(g, Submit(g, s, r, q), Some(r), d, b)
  {
    var s' := Submit(g, s, r, q);
    SubmittedSlots(g, s, s', r, q, d, b);
    assert SameSlot(g, s, s', None, Some(r), r, d, b);
    var row, now := s.pool.rows[d][b], s.now[d][b];
    assert row.permitted <= |now| && Runs(s.act.flash[d][b], s.pool.queues[NandQ(g, d)], s.pool.reqs, s.val, d, b,
        now[..row.permitted]);
    assert r !in s.pool.queues[NandQ(g, d)];
    hide BlockOk, SameSlot, QueuesOk;
    RunsFrame(s.act.flash[d][b], s.pool.queues[NandQ(g, d)], s.pool.reqs, s.val, s'.pool.reqs, s'.val, d, b,
        now[..row.permitted]);
    BlockFrame(g, s, s', None, Some(r), d, b);
  }

  lemma SubmitChain<D>(g: Sizes, s: Sys<D>, r: nat, q: Req<D>, e: nat)
    requires SysShape(g, s) && r < |s.pool.reqs| && InRange(g, q) && Admissible(g, s, q) && e < g.bufs
    requires s.pool.place[r] == None && ChainOk(g, s, None, None, e)
    ensures ChainOk(g, Submit(g, s, r, q), Some(r), None, e)
  {
    hide ChainOk;
    var s' := Submit(g, s, r, q);
    assert !(q.Buffered() && q.buf == e) ==> s.pool.chains[e] + [] == s.pool.chains[e];
    ChainSubmitted(g, s, s', r, q, e);
  }

  lemma SubmitKeeps<D>(g: Sizes, s: Sys<D>, r: nat, q: Req<D>)
    requires Inv(g, s, None) && r < |s.pool.reqs| && s.pool.place[r] == None && InRange(g, q) && Admissible(g, s, q)
    ensures Inv(g, Submit(g, s, r, q), Some(r))
  {
    var s' := Submit(g, s, r, q);
    assert QueuesOk(g, s'.pool) && r !in s.pool.queues[NandQ(g, q.die)];
    assert !q.Dma() ==> SubmittedTo(g, s, s', r, q);
    hide BlockOk, ChainOk, SubmittedTo, Submit, QueuesOk, Admissible;
    forall d, b | 0 <= d < g.dies && 0 <= b < g.blocks
      ensures BlockOk(g, s', Some(r), d, b)
    {
      if q.On(d, b) {
        RequestSubmitted(g, s, s', r, q);
      } else {
        SubmitElsewhere(g, s, r, q, d, b);
      }
    }
    forall e | 0 <= e < g.bufs
      ensures ChainOk(g, s', Some(r), None, e)
    {
      SubmitChain(g, s, r, q, e);
    }
  }

  /**
   A stale request collides in its block: with the erase that waits, with a pending write of its
   page, or it is the write of a page beyond those the waiting erase takes away.
   */
  lemma StaleCollides<D>(g: Sizes, s: Sys<D>, q: Req<D>)
    requires SysShape(g, s) && InRange(g, q) && Lawful(g, s.sub, q) && !Fresh(s.pool.rows[q.die][q.block], q)
    requires BlockOk(g, s, None, q.die, q.block)
    ensures s.pool.rows[q.die][q.block].erasing && !q.Dma()
    ensures (exists t: nat :: Pending(g, s.pool, None, t, q.die, q.block) && !Compatible(s.pool.reqs[t], q))
            || (q.kind.NandWrite? && q.page == s.pool.rows[q.die][q.block].permitted == |s.now[q.die][q.block]|)
  {
    var (d, b) := (q.die, q.block);
    var row, now, sub := s.pool.rows[d][b], s.now[d][b], s.sub.flash[d][b];
    hide Runs, Readers, SlotsOk, Pending;
    assert RowOk(s.pool, None, d, b, row, now, sub) && NothingLost(g, s.pool, None, d, b, row, |now|, |sub|);
    if q.kind.NandErase? {
      var t: nat :| Pending(g, s.pool, None, t, d, b) && s.pool.reqs[t].kind.NandErase?;
      assert !Compatible(s.pool.reqs[t], q);
    } else if row.permitted < |now| {
      assert HasWriter(g, s.pool, None, d, b, row.permitted);
      var t: nat :| Pending(g, s.pool, None, t, d, b) && s.pool.reqs[t].kind.NandWrite?
          && s.pool.reqs[t].page == row.permitted;
      assert !Compatible(s.pool.reqs[t], q);
    }
  }

  lemma CollisionBreaks<D>(g: Sizes, s: Sys<D>, held: Option<nat>, t: nat, r: nat, d: nat, b: nat)
    requires SysShape(g, s) && d < g.dies && b < g.blocks && Pending(g, s.pool, held, t, d, b)
        && Pending(g, s.pool, held, r, d, b) && t != r
    requires !Compatible(s.pool.reqs[t], s.pool.reqs[r])
    ensures !BlockOk(g, s, held, d, b)
  {
    hide Runs, Readers, NothingLost, Pending, Compatible;
  }

  lemma WriteBeyondBreaks<D>(g: Sizes, s: Sys<D>, held: Option<nat>, r: nat, d: nat, b: nat)
    requires SysShape(g, s) && d < g.dies && b < g.blocks && Pending(g, s.pool, held, r, d, b)
        && s.pool.reqs[r].kind.NandWrite?
    requires s.pool.reqs[r].page == s.pool.rows[d][b].permitted == |s.now[d][b]|
    ensures !BlockOk(g, s, held, d, b)
  {
    hide Runs, Readers, NothingLost, Pending;
  }

  /** A lawful request may not be submitted without breaking the invariant unless it is fresh. */
  lemma StaleSubmitBreaks<D>(g: Sizes, s: Sys<D>, r: nat, q: Req<D>)
    requires Inv(g, s, None) && r < |s.pool.reqs| && s.pool.place[r] == None && InRange(g, q) && Lawful(g, s.sub, q)
    requires !Fresh(s.pool.rows[q.die][q.block], q)
    ensures !Inv(g, Submit(g, s, r, q), Some(r))
  {
    var s' := Submit(g, s, r, q);
    var (d, b) := (q.die, q.block);
    hide BlockOk, ChainOk, QueuesOk, Lawful, Fresh, Compatible;
    assert BlockOk(g, s, None, d, b);
    StaleCollides(g, s, q);
    assert Pending(g, s'.pool, Some(r), r, d, b) && s'.now == s.now && s'.pool.rows == s.pool.rows;
    if t: nat :| Pending(g, s.pool, None, t, d, b) && !Compatible(s.pool.reqs[t], q) {
      assert t != r && Pending(g, s'.pool, Some(r), t, d, b);
      CollisionBreaks(g, s', Some(r), t, r, d, b);
    } else {
      WriteBeyondBreaks(g, s', Some(r), r, d, b);
    }
  }

  /** Of the lawful requests, exactly the fresh ones may be submitted without breaking the invariant. */
  lemma SubmitIsExact<D>(g: Sizes, s: Sys<D>, r: nat, q: Req<D>)
    requires Inv(g, s, None) && r < |s.pool.reqs| && s.pool.place[r] == None && InRange(g, q) && Lawful(g, s.sub, q)
    ensures Inv(g, Submit(g, s, r, q), Some(r)) <==> Fresh(s.pool.rows[q.die][q.block], q)
  {
    RevealInv(g, s, None);
    hide Inv, Submit, Lawful, Fresh;
    if Fresh(s.pool.rows[q.die][q.block], q) {
      SubmitKeeps(g, s, r, q);
    } else {
      StaleSubmitBreaks(g, s, r, q);
    }
  }

  // ---------- decision ----------

  function SetNow<D>(g: Sizes, s: Sys<D>, q: Req<D>): seq<seq<seq<S.Page<D>>>>
    requires SysShape(g, s) && InRange(g, q)
  {
    s.now[q.die := s.now[q.die][q.block := s.sub.flash[q.die][q.block]]]
  }

  /** SelectLowLevelReqQ for the held slot. */
  function Decide<D>(g: Sizes, s: Sys<D>, r: nat): (s': Sys<D>)
    requires SysShape(g, s) && r < |s.pool.reqs|
    ensures SysShape(g, s')
  {
    var q := s.pool.reqs[r];
    var erased := q.kind.NandErase? && RowCheck(q, RowOf(g, s.pool, r), true).1;
    s.(pool := Select(g, s.pool, r), now := if erased then SetNow(g, s, q) else s.now)
  }

  /** The queue it decides on. */
  function Target<D>(g: Sizes, p: Pool<D>, r: nat, select: bool): nat
    requires Shape(g, p) && r < |p.reqs|
  {
    var q := p.reqs[r];
    if q.Dma() then DMA else if RowCheck(q, RowOf(g, p, r), select).1 then NandQ(g, q.die) else RowQ(q.die)
  }

  function Decision<D>(g: Sizes, p: Pool<D>, r: nat): nat
    requires Shape(g, p) && r < |p.reqs|
  {
    if BufPass(g, p, r) then Target(g, p, r, true) else BUF
  }

  lemma SetSameRow<D>(g: Sizes, p: Pool<D>, r: nat)
    requires Shape(g, p) && r < |p.reqs|
    ensures SetRow(g, p, r, RowOf(g, p, r)) == p
  {
    var q := p.reqs[r];
    assert p.rows[q.die][q.block := p.rows[q.die][q.block]] == p.rows[q.die];
    assert p.rows[q.die := p.rows[q.die]] == p.rows;
  }

  /** Slot r, in no queue of pool p, is put into queue q while its block gets a new table entry and page list. */
  lemma PutPlaces<D>(g: Sizes, s: Sys<D>, p: Pool<D>, held: Option<nat>, held': Option<nat>, r: nat, q: nat, row': Row,
          erased: bool)
    requires SysShape(g, s) && Shape(g, p) && QueuesOk(g, p) && r < |s.pool.reqs| && q < QueueCount(g)
        && Suits(g, s.pool.reqs[r], q)
    requires p == s.pool.(place := p.place, queues := p.queues) && p.place == s.pool.place[r := None]
    requires forall d :: 0 <= d < g.dies ==> p.queues[NandQ(g, d)] == s.pool.queues[NandQ(g, d)]
    requires if held == Some(r) then held' == None else held' == held
    requires s.pool.reqs[r].Dma() ==> row' == RowOf(g, s.pool, r) && !erased
    ensures var s' := s.(pool := Put(g, SetRow(g, p, r, row'), q, r), now := if erased
        then SetNow(g, s, s.pool.reqs[r]) else s.now);
            && SysShape(g, s') && Placed(g, s, s', held, held', r, q) && QueuesOk(g, s'.pool)
  {
    var p1 := SetRow(g, p, r, row');
    assert QueuesOk(g, p1);
    PutQueues(g, p1, q, r);
    if s.pool.reqs[r].Dma() {
      SetSameRow(g, p, r);
    }
    hide QueuesOk, Shape;
    assert p1.place[r := Some(q)] == s.pool.place[r := Some(q)];
  }

  lemma DecideIsPut<D>(g: Sizes, s: Sys<D>, r: nat) returns (row': Row)
    requires SysShape(g, s) && r < |s.pool.reqs|
    ensures var k := s.pool.reqs[r]; var row := RowOf(g, s.pool, r); var q := Decision(g, s.pool, r);
            && Decide(g, s, r).pool == Put(g, SetRow(g, s.pool, r, row'), q, r)
            && (if k.Dma() then row' == row
                else if q == BUF then row' == row.(readers := if k.kind.NandRead? then row.readers + 1 else row.readers)
                else row' == RowCheck(k, row, true).0)
  {
    var k := s.pool.reqs[r];
    var row := RowOf(g, s.pool, r);
    row' := if k.Dma() then row
            else if BufPass(g, s.pool, r) then RowCheck(k, row, true).0
            else row.(readers := if k.kind.NandRead? then row.readers + 1 else row.readers);
    SetSameRow(g, s.pool, r);
  }

  lemma DecidePlaces<D>(g: Sizes, s: Sys<D>, r: nat)
    requires SysShape(g, s) && QueuesOk(g, s.pool) && r < |s.pool.reqs| && s.pool.place[r] == None
    ensures var s' := Decide(g, s, r); var q := Decision(g, s.pool, r);
            && Placed(g, s, s', Some(r), None, r, q) && QueuesOk(g, s'.pool) && BUF <= q
                && (q != BUF <==> BufPass(g, s.pool, r))
            && (!s.pool.reqs[r].Dma() ==> RowChanged(g, s, s', Some(r), r, q))
  {
    var k := s.pool.reqs[r];
    assert InRange(g, k) && |s.pool.rows[k.die]| == g.blocks && s.pool.place == s.pool.place[r := None];
    hide QueuesOk, Shape, Select, Placed;
    var q := Decision(g, s.pool, r);
    var row' := DecideIsPut(g, s, r);
    var erased := k.kind.NandErase? && RowCheck(k, RowOf(g, s.pool, r), true).1;
    PutPlaces(g, s, s.pool, Some(r), None, r, q, row', erased);
  }

  /** The held request is decided on; a read only when no erase of its block waits. */
  lemma DecideKeeps<D>(g: Sizes, s: Sys<D>, r: nat)
    requires Inv(g, s, Some(r)) && (s.pool.reqs[r].kind.NandRead? ==> !RowOf(g, s.pool, r).erasing)
    ensures Inv(g, Decide(g, s, r), None)
  {
    var s' := Decide(g, s, r);
    var q := Decision(g, s.pool, r);
    DecidePlaces(g, s, r);
    assert MayEnter(g, s, Some(r), r);
    hide BlockOk, ChainOk, Decide, QueuesOk, RowChanged, MayEnter;
    PlacedBlocks(g, s, s', Some(r), None, r, q);
    forall e | 0 <= e < g.bufs
      ensures ChainOk(g, s', None, None, e)
    {
      ChainDecided(g, s, s', r, q, e);
    }
  }

  // ---------- completion ----------

  /** DMA requests complete in any order, a die's NAND requests in queue order. */
  predicate MayComplete<D>(g: Sizes, p: Pool<D>, r: nat)
    requires Shape(g, p)
  {
    && r < |p.reqs|
    && (p.place[r] == Some(DMA)
        || (p.place[r] == Some(NandQ(g, p.reqs[r].die)) && p.queues[NandQ(g, p.reqs[r].die)] != []
            && p.queues[NandQ(g, p.reqs[r].die)][0] == r))
  }

  /**
   When a request completes, the flash discipline holds for it, it finds in its buffer entry and in
   flash what it would have found had every request acted when it was submitted, and it leaves the same.
   */
  lemma CompletionIsFaithful<D>(g: Sizes, s: Sys<D>, held: Option<nat>, r: nat)
    requires Inv(g, s, held) && MayComplete(g, s.pool, r)
    ensures var q := s.pool.reqs[r];
            && Lawful(g, s.act, q)
            && (q.Buffered() ==> Exec(g, s.act, q).buf[q.buf] == s.val[r])
            && (q.kind.NandWrite? || q.kind.TxDma? ==> s.act.buf[q.buf] == s.val[r])
            && (q.kind.NandRead? ==> Cells(g, s.act, q)[q.page] == s.val[r])
  {
    var q := s.pool.reqs[r];
    assert Suits(g, q, s.pool.place[r].value);
    if q.Buffered() {
      OnlyHeadIsOut(g, s, held, r);
    }
    if !q.Dma() {
      assert BlockOk(g, s, held, q.die, q.block);
    }
    hide BlocksOk, ChainsOk, QueuesOk, SlotsOk, NothingLost, Readers;
  }

  /** The request acts and its slot is freed. */
  function Finish<D>(g: Sizes, s: Sys<D>, r: nat): (s': Sys<D>)
    requires SysShape(g, s) && r < |s.pool.reqs| && Lawful(g, s.act, s.pool.reqs[r])
    ensures SysShape(g, s')
  {
    s.(pool := Unlink(g, Put(g, Take(g, s.pool, r), FREE, r), r), act := Exec(g, s.act, s.pool.reqs[r]))
  }

  lemma WithoutHead(s: seq<nat>)
    requires s != []
    ensures Without(s, s[0]) == s[1..]
  {
  }

  lemma FinishQueues<D>(g: Sizes, s: Sys<D>, r: nat)
    requires SysShape(g, s) && QueuesOk(g, s.pool) && MayComplete(g, s.pool, r) && Lawful(g, s.act, s.pool.reqs[r])
    ensures var s' := Finish(g, s, r);
            && QueuesOk(g, s'.pool) && s'.pool.place == s.pool.place[r := Some(FREE)] && s'.pool.rows == s.pool.rows
            && forall d :: 0 <= d < g.dies ==>
                 s'.pool.queues[NandQ(g, d)] == if s.pool.place[r] == Some(NandQ(g, d))
                     then s.pool.queues[NandQ(g, d)][1..] else s.pool.queues[NandQ(g, d)]
  {
    TakeQueues(g, s.pool, r);
    var p1 := Take(g, s.pool, r);
    PutQueues(g, p1, FREE, r);
    assert p1.place[r := Some(FREE)] == s.pool.place[r := Some(FREE)];
    if s.pool.place[r] != Some(DMA) {
      assert Suits(g, s.pool.reqs[r], s.pool.place[r].value);
      WithoutHead(s.pool.queues[NandQ(g, s.pool.reqs[r].die)]);
    }
    hide QueuesOk;
  }

  /** A head of a NAND queue that is not on the block does not matter to the block. */
  lemma FinishRuns<D>(g: Sizes, s: Sys<D>, r: nat, d: nat, b: nat, end: seq<S.Page<D>>)
    requires SysShape(g, s) && MayComplete(g, s.pool, r) && Lawful(g, s.act, s.pool.reqs[r]) && d < g.dies
        && b < g.blocks
    requires Suits(g, s.pool.reqs[r], s.pool.place[r].value)
    requires s.pool.reqs[r].kind.NandWrite? ==> s.act.buf[s.pool.reqs[r].buf] == s.val[r]
    requires Runs(s.act.flash[d][b], s.pool.queues[NandQ(g, d)], s.pool.reqs, s.val, d, b, end)
    ensures Runs(Finish(g, s, r).act.flash[d][b],
                 if s.pool.place[r] == Some(NandQ(g, d)) then s.pool.queues[NandQ(g, d)][1..]
                     else s.pool.queues[NandQ(g, d)],
                 s.pool.reqs, s.val, d, b, end)
  {
  }

  lemma FinishSlots<D>(g: Sizes, s: Sys<D>, s': Sys<D>, held: Option<nat>, r: nat, d: nat, b: nat)
    requires SysShape(g, s) && SysShape(g, s') && MayComplete(g, s.pool, r) && held != Some(r)
    requires s'.pool.place == s.pool.place[r := Some(FREE)] && s'.pool.reqs == s.pool.reqs && s'.val == s.val
    ensures forall t: nat :: SameSlot(g, s, s', held, held, t, d, b)
  {
    forall t: nat
      ensures SameSlot(g, s, s', held, held, t, d, b)
    {
      assert t != r ==> StageOf(g, s'.pool, held, t) == StageOf(g, s.pool, held, t);
    }
  }

  lemma FinishBlock<D>(g: Sizes, s: Sys<D>, held: Option<nat>, r: nat, d: nat, b: nat)
    requires Inv(g, s, held) && MayComplete(g, s.pool, r) && Lawful(g, s.act, s.pool.reqs[r]) && d < g.dies
        && b < g.blocks
    ensures BlockOk(g, Finish(g, s, r), held, d, b)
  {
    var s' := Finish(g, s, r);
    assert BlockOk(g, s, held, d, b) && Suits(g, s.pool.reqs[r], s.pool.place[r].value) && HeldOk(s.pool, held);
    CompletionIsFaithful(g, s, held, r);
    FinishQueues(g, s, r);
    FinishSlots(g, s, s', held, r, d, b);
    hide BlocksOk, ChainsOk, QueuesOk, SlotsOk, NothingLost, Readers, Runs, SameSlot, MayComplete, Suits, RowOk;
    var row, now := s.pool.rows[d][b], s.now[d][b];
    FinishRuns(g, s, r, d, b, now[..row.permitted]);
    hide BlockOk;
    BlockFrame(g, s, s', held, held, d, b);
  }

  lemma FinishChain<D>(g: Sizes, s: Sys<D>, held: Option<nat>, r: nat, e: nat)
    requires Inv(g, s, held) && MayComplete(g, s.pool, r) && Lawful(g, s.act, s.pool.reqs[r]) && e < g.bufs
    ensures ChainOk(g, Finish(g, s, r), held, Successor(g, s.pool, r), e)
  {
    var s' := Finish(g, s, r);
    var q := s.pool.reqs[r];
    assert ChainOk(g, s, held, None, e) && (q.Buffered() ==> ChainOk(g, s, held, None, q.buf)) && HeldOk(s.pool, held);
    CompletionIsFaithful(g, s, held, r);
    FinishQueues(g, s, r);
    hide BlocksOk, ChainsOk, QueuesOk, ChainOk, Successor;
    assert Freed(g, s, s', held, r);
    if q.Buffered() && q.buf == e {
      OwnChainRetired(g, s, s', held, r, e);
    } else {
      OtherChainRetired(g, s, s', held, r, e);
    }
  }

  lemma FinishKeeps<D>(g: Sizes, s: Sys<D>, held: Option<nat>, r: nat)
    requires Inv(g, s, held) && MayComplete(g, s.pool, r)
    ensures Lawful(g, s.act, s.pool.reqs[r]) && InvBut(g, Finish(g, s, r), held, Successor(g, s.pool, r))
  {
    CompletionIsFaithful(g, s, held, r);
    FinishQueues(g, s, r);
    hide BlockOk, ChainOk, QueuesOk, Finish, Successor;
    forall d, b | 0 <= d < g.dies && 0 <= b < g.blocks
      ensures BlockOk(g, Finish(g, s, r), held, d, b)
    {
      FinishBlock(g, s, held, r, d, b);
    }
    forall e | 0 <= e < g.bufs
      ensures ChainOk(g, Finish(g, s, r), held, Successor(g, s.pool, r), e)
    {
      FinishChain(g, s, held, r, e);
    }
    assert HeldOk(Finish(g, s, r).pool, held);
  }

  /** The pool after slot t, waiting in some queue, was put where the checks send it. */
  function Moved<D>(g: Sizes, s: Sys<D>, t: nat): (s': Sys<D>)
    requires SysShape(g, s) && t < |s.pool.reqs|
    ensures SysShape(g, s')
  {
    var q := s.pool.reqs[t];
    var erased := q.kind.NandErase? && RowCheck(q, RowOf(g, s.pool, t), false).1;
    s.(pool := Admit(g, Take(g, s.pool, t), t, false), now := if erased then SetNow(g, s, q) else s.now)
  }

  lemma MovedPlaces<D>(g: Sizes, s: Sys<D>, held: Option<nat>, t: nat)
    requires SysShape(g, s) && QueuesOk(g, s.pool) && t < |s.pool.reqs| && held != Some(t)
    requires StageOf(g, s.pool, held, t).Waiting?
        && (s.pool.place[t] == Some(BUF) || RowCheck(s.pool.reqs[t], RowOf(g, s.pool, t), false).1)
    ensures var s' := Moved(g, s, t); var q := Target(g, s.pool, t, false);
            && Placed(g, s, s', held, held, t, q) && QueuesOk(g, s'.pool) && q > BUF && MayEnter(g, s, held, t)
            && (!s.pool.reqs[t].Dma() ==> RowChanged(g, s, s', held, t, q) && q >= 4)
  {
    var k := s.pool.reqs[t];
    var q := Target(g, s.pool, t, false);
    var row := RowOf(g, s.pool, t);
    var p := Take(g, s.pool, t);
    assert InRange(g, k) && |s.pool.rows[k.die]| == g.blocks;
    TakeQueues(g, s.pool, t);
    SetSameRow(g, p, t);
    hide QueuesOk, Shape, Placed, Take;
    PutPlaces(g, s, p, held, held, t, q, if k.Dma() then row else RowCheck(k, row, false).0,
        k.kind.NandErase? && RowCheck(k, row, false).1);
  }

  /** Invariants survive the move, if the slot was first in its chain. */
  lemma MovedKeeps<D>(g: Sizes, s: Sys<D>, held: Option<nat>, free: Option<nat>, t: nat)
    requires InvBut(g, s, held, free) && t < |s.pool.reqs| && held != Some(t) && (free.Some? ==> free == Some(t))
    requires StageOf(g, s.pool, held, t).Waiting?
    requires if s.pool.place[t] == Some(BUF) then free == Some(t)
        else RowCheck(s.pool.reqs[t], RowOf(g, s.pool, t), false).1
    ensures Inv(g, Moved(g, s, t), held)
  {
    hide BlockOk, ChainOk, Moved, Target, QueuesOk, RowChanged, MayEnter, RowCheck;
    var s' := Moved(g, s, t);
    var q := Target(g, s.pool, t, false);
    MovedPlaces(g, s, held, t);
    PlacedBlocks(g, s, s', held, held, t, q);
    forall e | 0 <= e < g.bufs
      ensures ChainOk(g, s', held, None, e)
    {
      ChainMoved(g, s, s', held, free, t, q, e);
    }
  }

  /** A freed request that is not blocked by its buffer entry needs nothing. */
  lemma NotBlocked<D>(g: Sizes, s: Sys<D>, held: Option<nat>, free: Option<nat>)
    requires InvBut(g, s, held, free)
        && (free.Some? ==> free.value < |s.pool.place| && s.pool.place[free.value] != Some(BUF))
    ensures Inv(g, s, held)
  {
    hide BlockOk, LinkedTo, Fits, QueuesOk;
    forall e | 0 <= e < g.bufs
      ensures ChainOk(g, s, held, None, e)
    {
      assert ChainOk(g, s, held, free, e);
      forall i: nat | i < |s.pool.chains[e]|
        ensures ChainAt(s, held, None, s.act.buf[e], s.pool.chains[e], i)
      {
        assert ChainAt(s, held, free, s.act.buf[e], s.pool.chains[e], i);
      }
    }
  }

  /** SelectiveGetFromNvmeDmaReqQ and GetFromNandReqQ: the request has acted. */
  function CompleteStep<D>(g: Sizes, s: Sys<D>, r: nat): (s': Sys<D>)
    requires SysShape(g, s) && r < |s.pool.reqs| && Lawful(g, s.act, s.pool.reqs[r])
    ensures SysShape(g, s')
  {
    s.(pool := Complete(g, s.pool, r), act := Exec(g, s.act, s.pool.reqs[r]))
  }

  lemma CompleteKeeps<D>(g: Sizes, s: Sys<D>, held: Option<nat>, r: nat)
    requires Inv(g, s, held) && MayComplete(g, s.pool, r)
    ensures Lawful(g, s.act, s.pool.reqs[r]) && Inv(g, CompleteStep(g, s, r), held)
  {
    hide BlocksOk, ChainsOk, Lawful, Admit, Unlink;
    FinishKeeps(g, s, held, r);
    var s1 := Finish(g, s, r);
    var free := Successor(g, s.pool, r);
    assert free.Some? ==> free.value in s.pool.chains[s.pool.reqs[r].buf];
    if free.Some? && s1.pool.place[free.value] == Some(BUF) {
      var t := free.value;
      assert Suits(g, s1.pool.reqs[t], BUF) && held != Some(t);
      assert Moved(g, s1, t) == CompleteStep(g, s, r);
      MovedKeeps(g, s1, held, free, t);
    } else {
      assert s1 == CompleteStep(g, s, r);
      NotBlocked(g, s1, held, free);
    }
  }

  // ---------- release ----------

  /** ReleaseBlockedByRowAddrDepReq over the slots met, with what it does to the page lists. */
  function ReleaseStep<D>(g: Sizes, s: Sys<D>, waiting: seq<nat>): (s': Sys<D>)
    requires SysShape(g, s) && forall r :: r in waiting ==> r < |s.pool.reqs|
    ensures SysShape(g, s') && s'.pool.reqs == s.pool.reqs
    decreases |waiting|
  {
    if waiting == [] then s
    else
      var r := waiting[0];
      assert r in waiting && forall x :: x in waiting[1..] ==> x in waiting;
      ReleaseStep(g, if RowCheck(s.pool.reqs[r], RowOf(g, s.pool, r), false).1 then Moved(g, s, r) else s, waiting[1..])
  }

  /** It is the release of the request pool. */
  lemma {:induction false} ReleaseStepIsRelease<D>(g: Sizes, s: Sys<D>, waiting: seq<nat>)
    requires SysShape(g, s) && forall r :: r in waiting ==> r < |s.pool.reqs|
    ensures ReleaseStep(g, s, waiting).pool == ReleaseRows(g, s.pool, waiting)
    decreases |waiting|
  {
    if waiting != [] {
      var r := waiting[0];
      assert r in waiting && forall x :: x in waiting[1..] ==> x in waiting;
      var (row, pass) := RowCheck(s.pool.reqs[r], RowOf(g, s.pool, r), false);
      if pass {
        PassIsMoved(g, s, r);
        ReleaseStepIsRelease(g, Moved(g, s, r), waiting[1..]);
      } else {
        ReleaseStepIsRelease(g, s, waiting[1..]);
      }
    }
  }

  lemma PassIsMoved<D>(g: Sizes, s: Sys<D>, r: nat)
    requires SysShape(g, s) && r < |s.pool.reqs| && RowCheck(s.pool.reqs[r], RowOf(g, s.pool, r), false).1
    ensures var (row, _) := RowCheck(s.pool.reqs[r], RowOf(g, s.pool, r), false);
            Moved(g, s, r).pool == Put(g, Take(g, SetRow(g, s.pool, r, row), r), NandQ(g, s.pool.reqs[r].die), r)
  {
  }

  /** The slots met are in the die's row-blocked queue, each once: a release moves only slots already met. */
  lemma {:induction false} ReleaseKeeps<D>(g: Sizes, s: Sys<D>, held: Option<nat>, d: nat, waiting: seq<nat>)
    requires Inv(g, s, held) && d < g.dies && Distinct(waiting)
    requires forall r :: r in waiting ==> r < |s.pool.reqs| && s.pool.place[r] == Some(RowQ(d))
    ensures Inv(g, ReleaseStep(g, s, waiting), held)
    decreases |waiting|
  {
    hide Inv, QueuesOk, BlocksOk, ChainsOk;
    if waiting != [] {
      var r := waiting[0];
      assert r in waiting && forall x :: x in waiting[1..] ==> x in waiting && x != r;
      assert Inv(g, s, held) ==> InvBut(g, s, held, None) && HeldOk(s.pool, held) by {
        RevealInv(g, s, held);
      }
      if RowCheck(s.pool.reqs[r], RowOf(g, s.pool, r), false).1 {
        MovedKeeps(g, s, held, None, r);
        assert Moved(g, s, r).pool.place == s.pool.place[r := Some(Target(g, s.pool, r, false))];
        ReleaseKeeps(g, Moved(g, s, r), held, d, waiting[1..]);
      } else {
        ReleaseKeeps(g, s, held, d, waiting[1..]);
      }
    }
  }

  lemma RevealInv<D>(g: Sizes, s: Sys<D>, held: Option<nat>)
    requires Inv(g, s, held)
    ensures InvBut(g, s, held, None) && SysShape(g, s) && HeldOk(s.pool, held) && QueuesOk(g, s.pool)
        && BlocksOk(g, s, held) && ChainsOk(g, s, held, None)
  {
  }

  // ---------- what the invariant says ----------

  /**
   No erase overtakes a waiting read: one that may go finds every submitted page programmed and no
   read of its block waiting anywhere.
   */
  lemma EraseOvertakesNothing<D>(g: Sizes, s: Sys<D>, held: Option<nat>, r: nat, select: bool, t: nat)
    requires Inv(g, s, held) && r < |s.pool.reqs| && s.pool.reqs[r].kind.NandErase?
        && RowCheck(s.pool.reqs[r], RowOf(g, s.pool, r), select).1
    requires Pending(g, s.pool, held, r, s.pool.reqs[r].die, s.pool.reqs[r].block)
    requires t < |s.pool.reqs| && s.pool.reqs[t].On(s.pool.reqs[r].die, s.pool.reqs[r].block)
        && StageOf(g, s.pool, held, t).Waiting?
    ensures !s.pool.reqs[t].kind.NandRead?
    ensures s.pool.reqs[t].kind.NandWrite? ==>
        s.pool.reqs[t].page < RowOf(g, s.pool, r).permitted == |s.now[s.pool.reqs[r].die][s.pool.reqs[r].block]|
  {
    var q := s.pool.reqs[r];
    assert BlockOk(g, s, held, q.die, q.block);
    var row := s.pool.rows[q.die][q.block];
    hide BlocksOk, ChainsOk, QueuesOk, Runs, NothingLost;
    assert t !in Readers(g, s.pool, held, q.die, q.block);
    assert Pending(g, s.pool, held, t, q.die, q.block);
    assert SlotOk(q, s.val[r], StageOf(g, s.pool, held, r), row, Erasing(s.pool, held, q.die, q.block, row),
        s.now[q.die][q.block], s.sub.flash[q.die][q.block]);
  }

  // ---------- runs ----------

  /** The slot GetFromFreeReqQ and GetFromSliceReqQ take. */
  function First<D>(g: Sizes, p: Pool<D>, q: nat): (r: nat)
    requires Shape(g, p) && q < QueueCount(g) && p.queues[q] != []
    ensures r < |p.reqs|
  {
    assert p.queues[q][0] in p.queues[q];
    p.queues[q][0]
  }

  datatype Event<D> = Allocate | ToSlice(r: nat) | FromSlice | Submitted(r: nat,
          q: Req<D>) | Decided | Completed(r: nat) | Released(d: nat)

  /**
   One step, from s with slot held in the caller's hand to s' with slot held'. What is submitted is
   lawful in submission order, fresh or not. A request that completes unlawfully leaves anything.
   */
  ghost predicate Step<D>(g: Sizes, s: Sys<D>, held: Option<nat>, v: Event<D>, s': Sys<D>, held': Option<nat>) {
    && SysShape(g, s) && SysShape(g, s')
    && match v
       case Allocate => s.pool.queues[FREE] != [] && s' == s.(pool :=
           Take(g, s.pool, First(g, s.pool, FREE))) && held' == held
       case ToSlice(r) => r < |s.pool.reqs| && s.pool.place[r] == None && held != Some(r) && s' == s.(pool :=
           Put(g, s.pool, SLICE, r)) && held' == held
       case FromSlice => s.pool.queues[SLICE] != [] && s' == s.(pool :=
           Take(g, s.pool, First(g, s.pool, SLICE))) && held' == held
       case Submitted(r, q) =>
         && r < |s.pool.reqs| && s.pool.place[r] == None && held == None && InRange(g, q) && Lawful(g, s.sub, q)
         && s' == Submit(g, s, r, q) && held' == Some(r)
       case Decided =>
         && held.Some? && held.value < |s.pool.reqs|
             && (s.pool.reqs[held.value].kind.NandRead? ==> !RowOf(g, s.pool, held.value).erasing)
         && s' == Decide(g, s, held.value) && held' == None
       case Completed(r) =>
         && MayComplete(g, s.pool, r) && s'.pool == Complete(g, s.pool, r) && s' == s.(pool := s'.pool, act := s'.act)
             && held' == held
         && (Lawful(g, s.act, s.pool.reqs[r]) ==> s'.act == Exec(g, s.act, s.pool.reqs[r]))
       case Released(d) => d < g.dies && s' == ReleaseStep(g, s, s.pool.queues[RowQ(d)]) && held' == held
  }

  /** What the event submits, if it submits anything, is fresh. */
  ghost predicate FreshEvent<D>(g: Sizes, s: Sys<D>, v: Event<D>) {
    v.Submitted? ==> SysShape(g, s) && InRange(g, v.q) && Fresh(s.pool.rows[v.q.die][v.q.block], v.q)
  }

  /** Moving a slot between the free queue, the slice queue and the caller's hand concerns no dependency. */
  lemma IdleMoveKeeps<D>(g: Sizes, s: Sys<D>, held: Option<nat>, p: Pool<D>, r: nat)
    requires Inv(g, s, held) && r < |s.pool.reqs| && held != Some(r)
        && (s.pool.place[r].None? || s.pool.place[r].value < BUF)
    requires Shape(g, p) && QueuesOk(g, p) && p == s.pool.(place := p.place, queues := p.queues)
    requires exists q: Option<nat> :: (q.None? || q.value < BUF) && p.place == s.pool.place[r := q]
    requires forall d :: 0 <= d < g.dies ==> p.queues[NandQ(g, d)] == s.pool.queues[NandQ(g, d)]
    ensures Inv(g, s.(pool := p), held)
  {
    var s' := s.(pool := p);
    hide QueuesOk, BlockOk, ChainOk;
    forall d, b | 0 <= d < g.dies && 0 <= b < g.blocks
      ensures BlockOk(g, s', held, d, b)
    {
      assert BlockOk(g, s, held, d, b);
      IdleMoveBlock(g, s, s', held, r, d, b);
    }
    forall e | 0 <= e < g.bufs
      ensures ChainOk(g, s', held, None, e)
    {
      assert ChainOk(g, s, held, None, e);
      IdleMoveChain(g, s, s', held, r, e);
    }
  }

  lemma IdleMoveBlock<D>(g: Sizes, s: Sys<D>, s': Sys<D>, held: Option<nat>, r: nat, d: nat, b: nat)
    requires SysShape(g, s) && SysShape(g, s') && d < g.dies && b < g.blocks && BlockOk(g, s, held, d, b)
    requires r < |s.pool.reqs| && held != Some(r) && (s.pool.place[r].None? || s.pool.place[r].value < BUF)
    requires s' == s.(pool := s.pool.(place := s'.pool.place, queues := s'.pool.queues))
    requires s'.pool.place == s.pool.place[r := s'.pool.place[r]]
        && (s'.pool.place[r].None? || s'.pool.place[r].value < BUF)
    requires s'.pool.queues[NandQ(g, d)] == s.pool.queues[NandQ(g, d)]
    ensures BlockOk(g, s', held, d, b)
  {
    hide SlotsOk, NothingLost, Readers, Runs, RowOk;
    forall t: nat
      ensures SameSlot(g, s, s', held, held, t, d, b)
    {
      assert t != r ==> StageOf(g, s'.pool, held, t) == StageOf(g, s.pool, held, t);
    }
    hide SameSlot;
    BlockFrame(g, s, s', held, held, d, b);
  }

  lemma IdleMoveChain<D>(g: Sizes, s: Sys<D>, s': Sys<D>, held: Option<nat>, r: nat, e: nat)
    requires SysShape(g, s) && SysShape(g, s') && e < g.bufs && ChainOk(g, s, held, None, e)
    requires r < |s.pool.reqs| && held != Some(r) && (s.pool.place[r].None? || s.pool.place[r].value < BUF)
    requires s' == s.(pool := s.pool.(place := s'.pool.place, queues := s'.pool.queues))
    requires s'.pool.place == s.pool.place[r := s'.pool.place[r]]
        && (s'.pool.place[r].None? || s'.pool.place[r].value < BUF)
    ensures ChainOk(g, s', held, None, e)
  {
    var c := s.pool.chains[e];
    assert r !in c by {
      assert !LinkedTo(s.pool, held, r, e);
    }
    assert forall t: nat :: LinkedTo(s'.pool, held, t, e) <==> LinkedTo(s.pool, held, t, e);
    hide LinkedTo, Fits;
    forall i: nat | i < |c|
      ensures ChainAt(s', held, None, s'.act.buf[e], c, i)
    {
      assert ChainAt(s, held, None, s.act.buf[e], c, i) && c[i] in c;
    }
  }

  lemma TakenHead<D>(g: Sizes, s: Sys<D>, held: Option<nat>, q: nat)
    requires Inv(g, s, held) && q < BUF && s.pool.queues[q] != []
    ensures Inv(g, s.(pool := Take(g, s.pool, First(g, s.pool, q))), held)
  {
    var r := First(g, s.pool, q);
    assert r in s.pool.queues[q];
    assert QueuesOk(g, s.pool) && HeldOk(s.pool, held);
    TakeQueues(g, s.pool, r);
    hide Inv, QueuesOk;
    IdleMoveKeeps(g, s, held, Take(g, s.pool, r), r);
  }

  /** A step keeps the invariant exactly if what it submits is fresh. */
  lemma StepKeeps<D>(g: Sizes, s: Sys<D>, held: Option<nat>, v: Event<D>, s': Sys<D>, held': Option<nat>)
    requires Inv(g, s, held) && Step(g, s, held, v, s', held')
    ensures Inv(g, s', held') <==> FreshEvent(g, s, v)
  {
    hide Inv, Step, FreshEvent;
    if FreshEvent(g, s, v) {
      FreshStepKeeps(g, s, held, v, s', held');
    } else {
      StaleStepBreaks(g, s, held, v, s', held');
    }
  }

  lemma StaleStepBreaks<D>(g: Sizes, s: Sys<D>, held: Option<nat>, v: Event<D>, s': Sys<D>, held': Option<nat>)
    requires Inv(g, s, held) && Step(g, s, held, v, s', held') && !FreshEvent(g, s, v)
    ensures !Inv(g, s', held')
  {
    RevealInv(g, s, held);
    hide Inv, BlocksOk, ChainsOk, QueuesOk, Submit, Lawful, Fresh;
    SubmitIsExact(g, s, v.r, v.q);
  }

  lemma FreshStepKeeps<D>(g: Sizes, s: Sys<D>, held: Option<nat>, v: Event<D>, s': Sys<D>, held': Option<nat>)
    requires Inv(g, s, held) && Step(g, s, held, v, s', held') && FreshEvent(g, s, v)
    ensures Inv(g, s', held')
  {
    RevealInv(g, s, held);
    hide Inv, BlocksOk, ChainsOk, QueuesOk, Submit, Decide;
    match v
    case Allocate => TakenHead(g, s, held, FREE);
    case FromSlice => TakenHead(g, s, held, SLICE);
    case ToSlice(r) =>
      PutQueues(g, s.pool, SLICE, r);
      IdleMoveKeeps(g, s, held, Put(g, s.pool, SLICE, r), r);
    case Submitted(r, q) => SubmitIsExact(g, s, r, q);
    case Decided => DecideKeeps(g, s, held.value);
    case Completed(r) =>
      CompleteKeeps(g, s, held, r);
      assert s' == CompleteStep(g, s, r);
    case Released(d) =>
      RowQueueDistinct(g, s.pool, d);
      ReleaseKeeps(g, s, held, d, s.pool.queues[RowQ(d)]);
  }

  lemma RowQueueDistinct<D>(g: Sizes, p: Pool<D>, d: nat)
    requires Shape(g, p) && QueuesOk(g, p) && d < g.dies
    ensures Distinct(p.queues[RowQ(d)])
    ensures forall r :: r in p.queues[RowQ(d)] ==> r < |p.reqs| && p.place[r] == Some(RowQ(d))
  {
  }

  ghost predicate Trace<D>(g: Sizes, states: seq<Sys<D>>, held: seq<Option<nat>>, events: seq<Event<D>>) {
    && |states| == |held| == |events| + 1
    && forall i :: 0 <= i < |events| ==> Step(g, states[i], held[i], events[i], states[i + 1], held[i + 1])
  }

  /** What a completing request does is what it did when it was submitted, and it keeps to the flash discipline. */
  ghost predicate Faithful<D>(g: Sizes, s: Sys<D>, r: nat)
    requires SysShape(g, s) && r < |s.pool.reqs|
  {
    var q := s.pool.reqs[r];
    && Lawful(g, s.act, q)
    && (q.Buffered() ==> Exec(g, s.act, q).buf[q.buf] == s.val[r])
    && (q.kind.NandWrite? || q.kind.TxDma? ==> s.act.buf[q.buf] == s.val[r])
    && (q.kind.NandRead? ==> Cells(g, s.act, q)[q.page] == s.val[r])
  }

  /**
   In every run, whatever the order of completions and releases, as long as what is submitted is
   fresh, every request acts as it did when submitted.
   */
  lemma {:induction false} RunsAreFaithful<D>(g: Sizes, states: seq<Sys<D>>, held: seq<Option<nat>>,
          events: seq<Event<D>>, n: nat)
    requires Trace(g, states, held, events) && n <= |events| && Inv(g, states[0], held[0])
    requires forall i :: 0 <= i < n ==> FreshEvent(g, states[i], events[i])
    ensures Inv(g, states[n], held[n])
    ensures n < |events| && events[n].Completed? ==>
        MayComplete(g, states[n].pool, events[n].r) && Faithful(g, states[n], events[n].r)
  {
    hide Inv;
    if n > 0 {
      RunsAreFaithful(g, states, held, events, n - 1);
      StepKeeps(g, states[n - 1], held[n - 1], events[n - 1], states[n], held[n]);
    }
    if n < |events| && events[n].Completed? {
      assert Step(g, states[n], held[n], events[n], states[n + 1], held[n + 1]);
      CompletionIsFaithful(g, states[n], held[n], events[n].r);
    }
  }

  /** Nothing is blocked, queued or in somebody's hand with a link. */
  ghost predicate Quiet<D>(p: Pool<D>, held: Option<nat>) {
    held == None && forall r :: 0 <= r < |p.place| && p.place[r].Some? ==> p.place[r].value < BUF
  }

  /** When nothing is outstanding, buffer and flash are as if every request had acted when it was submitted. */
  lemma QuietStateIsSubmitted<D>(g: Sizes, s: Sys<D>, held: Option<nat>)
    requires Inv(g, s, held) && Quiet(s.pool, held)
    ensures s.act == s.sub
    ensures forall d, b :: 0 <= d < g.dies && 0 <= b < g.blocks ==>
        s.pool.rows[d][b] == Row(|s.sub.flash[d][b]|, 0, false)
  {
    hide BlocksOk, ChainsOk;
    assert BlocksOk(g, s, held) && ChainsOk(g, s, held, None) by {
      RevealInv(g, s, held);
    }
    forall d, b | 0 <= d < g.dies && 0 <= b < g.blocks
      ensures s.act.flash[d][b] == s.sub.flash[d][b] && s.pool.rows[d][b] == Row(|s.sub.flash[d][b]|, 0, false)
    {
      QuietBlock(g, s, held, d, b);
    }
    forall e | 0 <= e < g.bufs
      ensures s.act.buf[e] == s.sub.buf[e]
    {
      QuietChain(g, s, held, e);
    }
    forall d | 0 <= d < g.dies
      ensures s.act.flash[d] == s.sub.flash[d]
    {
    }
    assert s.act.flash == s.sub.flash && s.act.buf == s.sub.buf;
  }

  lemma SomethingIn(q: seq<nat>)
    ensures q != [] ==> exists r: nat :: r in q
  {
    if q != [] {
      assert q[0] in q;
    }
  }

  lemma QuietBlock<D>(g: Sizes, s: Sys<D>, held: Option<nat>, d: nat, b: nat)
    requires Inv(g, s, held) && Quiet(s.pool, held) && d < g.dies && b < g.blocks
    ensures s.act.flash[d][b] == s.sub.flash[d][b] && s.pool.rows[d][b] == Row(|s.sub.flash[d][b]|, 0, false)
  {
    assert BlockOk(g, s, held, d, b);
    SomethingIn(s.pool.queues[NandQ(g, d)]);
    assert s.pool.queues[NandQ(g, d)] == [];
    hide BlocksOk, ChainsOk, QueuesOk, SlotsOk;
    forall r: nat
      ensures !Pending(g, s.pool, held, r, d, b) && r !in Readers(g, s.pool, held, d, b)
    {
    }
    assert Readers(g, s.pool, held, d, b) == {};
    var row, now := s.pool.rows[d][b], s.now[d][b];
    assert !Erasing(s.pool, held, d, b, row);
    assert row.permitted < |now| ==> HasWriter(g, s.pool, held, d, b, row.permitted);
    assert now[..row.permitted] == now;
  }

  lemma QuietChain<D>(g: Sizes, s: Sys<D>, held: Option<nat>, e: nat)
    requires Inv(g, s, held) && Quiet(s.pool, held) && e < g.bufs
    ensures s.act.buf[e] == s.sub.buf[e]
  {
    assert ChainOk(g, s, held, None, e);
    var c := s.pool.chains[e];
    hide BlocksOk, ChainsOk, QueuesOk;
    assert c != [] ==> c[0] in c && LinkedTo(s.pool, held, c[0], e);
  }

  // ---------- the start ----------

  /** InitReqPool, InitDependencyTable and the buffer maps: every slot free, every block empty. */
  function Init<D>(g: Sizes, reqs: seq<Req<D>>, free: seq<nat>, val: seq<S.Page<D>>, buf: seq<S.Page<D>>): Sys<D> {
    var m := Mem(buf, seq(g.dies, _ => seq(g.blocks, _ => [])));
    Sys(InitPool(g, reqs, free), m, m, val, m.flash)
  }

  lemma InitEstablishesInv<D>(g: Sizes, reqs: seq<Req<D>>, free: seq<nat>, val: seq<S.Page<D>>, buf: seq<S.Page<D>>)
    requires |val| == |reqs| == |free| && |buf| == g.bufs
        && (forall r :: 0 <= r < |reqs| ==> free[r] == r && InRange(g, reqs[r]))
    ensures Inv(g, Init(g, reqs, free, val, buf), None)
  {
    var s := Init(g, reqs, free, val, buf);
    forall r: nat | r < |reqs|
      ensures r in free
    {
      assert free[r] == r;
    }
    forall d, b | 0 <= d < g.dies && 0 <= b < g.blocks
      ensures BlockOk(g, s, None, d, b)
    {
      assert forall r: nat :: !Pending(g, s.pool, None, r, d, b);
      assert Readers(g, s.pool, None, d, b) == {};
    }
  }
}
