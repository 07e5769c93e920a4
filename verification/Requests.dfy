/**
 The request pool as operations on values: queues, blocking chains per buffer entry and the table
 of row-address dependencies per block. A buffer entry here is a data-buffer entry or one of the
 temporary entries, which follow them in numbering.
 */
module Requests {
  import opened Common
  import S = BlockStore

  datatype Kind = RxDma | TxDma | NandRead | NandWrite | NandErase

  /**
   die, block and page unpack the virtual slice address; page is programmedPageCnt for an erase,
   which has no buffer entry; offset and data are what a receiving DMA brings.
   */
  datatype Req<D> = Req(kind: Kind, die: nat, block: nat, page: nat, buf: nat, offset: nat, data: seq<D>) {
    predicate Dma() { kind.RxDma? || kind.TxDma? }

    predicate Buffered() { !kind.NandErase? }

    predicate On(d: nat, b: nat) { !Dma() && die == d && block == b }
  }

  /** permittedProgPage, blockedReadReqCnt (readers), blockedEraseReqFlag (erasing) */
  datatype Row = Row(permitted: nat, readers: int, erasing: bool)

  datatype Sizes = Sizes(dies: nat, blocks: nat, bufs: nat)

  // Queues are numbered: free, slice, blocked by buffer dependency, DMA, then per die blocked by row address,
  // then per die NAND.
  const FREE: nat := 0
  const SLICE: nat := 1
  const BUF: nat := 2
  const DMA: nat := 3

  function RowQ(d: nat): nat { 4 + d }

  function NandQ(g: Sizes, d: nat): nat { 4 + g.dies + d }

  function QueueCount(g: Sizes): nat { 4 + 2 * g.dies }

  /** place[r] is the queue slot r is in, None while it is held; chains[e] is the blocking chain of buffer entry e. */
  datatype Pool<D> = Pool(reqs: seq<Req<D>>, place: seq<Option<nat>>, queues: seq<seq<nat>>, chains: seq<seq<nat>>,
          rows: seq<seq<Row>>)

  predicate InRange<D>(g: Sizes, q: Req<D>) {
    q.die < g.dies && q.block < g.blocks && q.buf < g.bufs && q.offset + |q.data| <= S.BLOCKS
  }

  predicate Shape<D>(g: Sizes, p: Pool<D>) {
    && |p.place| == |p.reqs| && |p.queues| == QueueCount(g) && |p.chains| == g.bufs && |p.rows| == g.dies
    && (forall d :: 0 <= d < |p.rows| ==> |p.rows[d]| == g.blocks)
    && (forall r :: 0 <= r < |p.reqs| ==> InRange(g, p.reqs[r]))
    && (forall r :: 0 <= r < |p.place| && p.place[r].Some? ==> p.place[r].value < |p.queues|)
    && (forall q, r :: 0 <= q < |p.queues| && r in p.queues[q] ==> r < |p.reqs|)
    && (forall e, r :: 0 <= e < |p.chains| && r in p.chains[e] ==> r < |p.reqs|)
  }

  /** InitReqPool and InitDependencyTable, with the free queue as given. */
  function InitPool<D>(g: Sizes, reqs: seq<Req<D>>, free: seq<nat>): Pool<D> {
    Pool(reqs, seq(|reqs|, _ => Some(FREE)), seq(QueueCount(g), q => if q == FREE then free else []),
         seq(g.bufs, _ => []), seq(g.dies, _ => seq(g.blocks, _ => Row(0, 0, false))))
  }

  // ---------- queues ----------

  /** The PutTo operations. */
  function Put<D>(g: Sizes, p: Pool<D>, q: nat, r: nat): (p': Pool<D>)
    requires Shape(g, p) && q < QueueCount(g) && r < |p.reqs|
    ensures Shape(g, p') && p'.reqs == p.reqs
  {
    p.(queues := p.queues[q := p.queues[q] + [r]], place := p.place[r := Some(q)])
  }

  /** The GetFrom and SelectiveGetFrom operations: slot r is held afterwards. */
  function Take<D>(g: Sizes, p: Pool<D>, r: nat): (p': Pool<D>)
    requires Shape(g, p) && r < |p.reqs|
    ensures Shape(g, p') && p'.reqs == p.reqs
  {
    match p.place[r]
    case None => p
    case Some(q) =>
      WithoutSubset(p.queues[q], r);
      p.(queues := p.queues[q := Without(p.queues[q], r)], place := p.place[r := None])
  }

  // ---------- dependencies ----------

  /** UpdateDataBufEntryInfoBlockingReq and its counterpart for temporary entries. */
  function Link<D>(g: Sizes, p: Pool<D>, r: nat): (p': Pool<D>)
    requires Shape(g, p) && r < |p.reqs|
    ensures Shape(g, p') && p'.reqs == p.reqs
  {
    if p.reqs[r].Buffered() then
      var e := p.reqs[r].buf;
      p.(chains := p.chains[e := p.chains[e] + [r]])
    else p
  }

  /** CheckBufDep: nothing precedes slot r in a blocking chain. */
  predicate BufPass<D>(g: Sizes, p: Pool<D>, r: nat)
    requires Shape(g, p) && r < |p.reqs|
  {
    p.reqs[r].Buffered() ==> p.chains[p.reqs[r].buf] != [] && p.chains[p.reqs[r].buf][0] == r
  }

  function SetRow<D>(g: Sizes, p: Pool<D>, r: nat, row: Row): (p': Pool<D>)
    requires Shape(g, p) && r < |p.reqs|
    ensures Shape(g, p') && p'.reqs == p.reqs
  {
    var q := p.reqs[r];
    p.(rows := p.rows[q.die := p.rows[q.die][q.block := row]])
  }

  function RowOf<D>(g: Sizes, p: Pool<D>, r: nat): Row
    requires Shape(g, p) && r < |p.reqs|
  {
    p.rows[p.reqs[r].die][p.reqs[r].block]
  }

  /**
   CheckRowAddrDep, without the wait that precedes it for a read: the new table entry, and whether
   the request may go.
   */
  function RowCheck<D>(q: Req<D>, row: Row, select: bool): (Row, bool) {
    match q.kind
    case NandRead =>
      if q.page < row.permitted then (if select then row else row.(readers := row.readers - 1), true)
      else (if select then row.(readers := row.readers + 1) else row, false)
    case NandWrite =>
      if q.page == row.permitted then (row.(permitted := row.permitted + 1), true) else (row, false)
    case NandErase =>
      if row.permitted == q.page && row.readers == 0 then (row.(permitted := 0, erasing := false), true)
      else (if select then row.(erasing := true) else row, false)
    case _ => (row, false)
  }

  /** Where a request goes that waits for no other on its buffer entry. */
  function Admit<D>(g: Sizes, p: Pool<D>, r: nat, select: bool): (p': Pool<D>)
    requires Shape(g, p) && r < |p.reqs|
    ensures Shape(g, p') && p'.reqs == p.reqs
  {
    var q := p.reqs[r];
    if q.Dma() then Put(g, p, DMA, r)
    else
      var (row, pass) := RowCheck(q, RowOf(g, p, r), select);
      Put(g, SetRow(g, p, r, row), if pass then NandQ(g, q.die) else RowQ(q.die), r)
  }

  /** SelectLowLevelReqQ, for a read once no erase of its block is waiting. */
  function Select<D>(g: Sizes, p: Pool<D>, r: nat): (p': Pool<D>)
    requires Shape(g, p) && r < |p.reqs|
    ensures Shape(g, p') && p'.reqs == p.reqs
  {
    if BufPass(g, p, r) then Admit(g, p, r, true)
    else
      var row := RowOf(g, p, r);
      var p1 := if p.reqs[r].kind.NandRead? then SetRow(g, p, r, row.(readers := row.readers + 1)) else p;
      Put(g, p1, BUF, r)
  }

  /** The request after slot r in its chain, which r's completion sets free. */
  function Successor<D>(g: Sizes, p: Pool<D>, r: nat): Option<nat>
    requires Shape(g, p) && r < |p.reqs|
  {
    var q := p.reqs[r];
    if q.Buffered() && |p.chains[q.buf]| > 1 && p.chains[q.buf][0] == r then Some(p.chains[q.buf][1]) else None
  }

  function Unlink<D>(g: Sizes, p: Pool<D>, r: nat): (p': Pool<D>)
    requires Shape(g, p) && r < |p.reqs|
    ensures Shape(g, p') && p'.reqs == p.reqs
  {
    var q := p.reqs[r];
    if q.Buffered() then
      WithoutSubset(p.chains[q.buf], r);
      p.(chains := p.chains[q.buf := Without(p.chains[q.buf], r)])
    else p
  }

  /** ReleaseBlockedByBufDepReq: the completed slot leaves its chain, and the next one goes where the checks send it. */
  function Release<D>(g: Sizes, p: Pool<D>, r: nat): (p': Pool<D>)
    requires Shape(g, p) && r < |p.reqs|
    ensures Shape(g, p') && p'.reqs == p.reqs
  {
    var p1 := Unlink(g, p, r);
    match Successor(g, p, r)
    case Some(t) =>
      assert t in p.chains[p.reqs[r].buf];
      if p1.place[t] == Some(BUF) then Admit(g, Take(g, p1, t), t, false) else p1
    case None => p1
  }

  /** SelectiveGetFromNvmeDmaReqQ and GetFromNandReqQ: first the slot goes back to the free queue. */
  function Complete<D>(g: Sizes, p: Pool<D>, r: nat): (p': Pool<D>)
    requires Shape(g, p) && r < |p.reqs|
    ensures Shape(g, p') && p'.reqs == p.reqs
  {
    Release(g, Put(g, Take(g, p, r), FREE, r), r)
  }

  /** ReleaseBlockedByRowAddrDepReq, for the slots of a die's queue in the order they were met. */
  function ReleaseRows<D>(g: Sizes, p: Pool<D>, waiting: seq<nat>): (p': Pool<D>)
    requires Shape(g, p) && forall r :: r in waiting ==> r < |p.reqs|
    ensures Shape(g, p') && p'.reqs == p.reqs
    decreases |waiting|
  {
    if waiting == [] then p
    else
      var r := waiting[0];
      assert r in waiting && forall x :: x in waiting[1..] ==> x in waiting;
      var (row, pass) := RowCheck(p.reqs[r], RowOf(g, p, r), false);
      var p1 := if pass then Put(g, Take(g, SetRow(g, p, r, row), r), NandQ(g, p.reqs[r].die), r) else p;
      ReleaseRows(g, p1, waiting[1..])
  }

  /**
   CheckDoneNvmeDmaReq, for the slots in the order they are met, from the last DMA request to the first.
   done answers for each slot whether its transfer is done; once one of a direction is, so are the earlier ones.
   */
  function DmaDone<D>(g: Sizes, p: Pool<D>, met: seq<nat>, done: seq<bool>, rxDone: bool, txDone: bool): (p': Pool<D>)
    requires Shape(g, p) && |done| == |p.reqs| && forall r :: r in met ==> r < |p.reqs|
    ensures Shape(g, p') && p'.reqs == p.reqs
    decreases |met|
  {
    if met == [] then p
    else
      var r := met[0];
      assert r in met && forall x :: x in met[1..] ==> x in met;
      var rx := rxDone || (p.reqs[r].kind.RxDma? && done[r]);
      var tx := txDone || (!p.reqs[r].kind.RxDma? && done[r]);
      var ready := if p.reqs[r].kind.RxDma? then rx else tx;
      DmaDone(g, if ready then Complete(g, p, r) else p, met[1..], done, rx, tx)
  }

  /** s from its last element to its first. */
  function Backward(s: seq<nat>): (r: seq<nat>)
    ensures |r| == |s| && forall x :: x in r <==> x in s
  {
    if s == [] then [] else [s[|s| - 1]] + Backward(s[..|s| - 1])
  }
}
