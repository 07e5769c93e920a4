/** Cutting an NVMe read or write into slice requests, and what the slice requests of a command do together. */
module Commands {
  import opened Common
  import opened S = BlockStore
  import F = Ftl
  import FI = FtlInvariant

  datatype SliceRequest = SliceRequest(lsa: nat, startIndex: nat, offset: nat, count: nat)

  /** Slice request i of a command of n blocks: not empty, inside one slice, where the one before ends. */
  ghost predicate TileAt(slices: seq<SliceRequest>, i: nat, startLba: nat)
    requires i < |slices|
  {
    var s := slices[i];
    && 1 <= s.count && s.offset + s.count <= BLOCKS && Lba(s.lsa, s.offset) == startLba + s.startIndex
    && s.startIndex == (if i == 0 then 0 else slices[i - 1].startIndex + slices[i - 1].count)
    && s.lsa == startLba / BLOCKS + i
  }

  /** The requests cover blocks startLba, ..., startLba + n - 1 once each and in order. */
  ghost predicate Tiles(slices: seq<SliceRequest>, startLba: nat, n: nat) {
    && slices != [] && (forall i :: 0 <= i < |slices| ==> TileAt(slices, i, startLba))
    && slices[|slices| - 1].startIndex + slices[|slices| - 1].count == n
  }

  lemma TileMore(slices: seq<SliceRequest>, startLba: nat, s: SliceRequest)
    requires forall i :: 0 <= i < |slices| ==> TileAt(slices, i, startLba)
    requires TileAt(slices + [s], |slices|, startLba)
    ensures forall i :: 0 <= i < |slices + [s]| ==> TileAt(slices + [s], i, startLba)
  {
    forall i | 0 <= i < |slices|
      ensures TileAt(slices + [s], i, startLba)
    {
      assert TileAt(slices, i, startLba);
    }
  }

  /**
   ReqTransNvmeToSlice; nlb counts from zero, so nlb + 1 blocks are asked for. The result is what
   enters the slice queue.
   */
  method ReqTransNvmeToSlice(startLba: nat, nlb: nat) returns (slices: seq<SliceRequest>)
    ensures Tiles(slices, startLba, nlb + 1)
  {
    var requestedNvmeBlock := nlb + 1;
    var transCounter := 0;
    var nvmeDmaStartIndex := 0;
    var tempLsa := startLba / BLOCKS;
    var loop := (startLba % BLOCKS + requestedNvmeBlock) / BLOCKS;
    var nvmeBlockOffset := startLba % BLOCKS;
    var tempNumOfNvmeBlock := if loop != 0 then BLOCKS - nvmeBlockOffset else requestedNvmeBlock;
    slices := [SliceRequest(tempLsa, nvmeDmaStartIndex, nvmeBlockOffset, tempNumOfNvmeBlock)];
    assert TileAt(slices, 0, startLba);
    tempLsa := tempLsa + 1;
    transCounter := transCounter + 1;
    nvmeDmaStartIndex := nvmeDmaStartIndex + tempNumOfNvmeBlock;
    while transCounter < loop
      invariant 1 <= transCounter == |slices| && (loop != 0 ==> transCounter <= loop)
          && (loop == 0 ==> transCounter == 1)
      invariant forall i :: 0 <= i < |slices| ==> TileAt(slices, i, startLba)
      invariant tempLsa == startLba / BLOCKS + transCounter
      invariant nvmeDmaStartIndex == slices[|slices| - 1].startIndex + slices[|slices| - 1].count
      invariant nvmeDmaStartIndex == if loop != 0 then BLOCKS * transCounter - startLba % BLOCKS else requestedNvmeBlock
    {
      var s := SliceRequest(tempLsa, nvmeDmaStartIndex, 0, BLOCKS);
      assert TileAt(slices + [s], |slices|, startLba);
      TileMore(slices, startLba, s);
      slices := slices + [s];
      tempLsa := tempLsa + 1;
      transCounter := transCounter + 1;
      nvmeDmaStartIndex := nvmeDmaStartIndex + BLOCKS;
    }
    tempNumOfNvmeBlock := (startLba + requestedNvmeBlock) % BLOCKS;
    if tempNumOfNvmeBlock == 0 || loop == 0 {
      return;
    }
    var s := SliceRequest(tempLsa, nvmeDmaStartIndex, 0, tempNumOfNvmeBlock);
    assert TileAt(slices + [s], |slices|, startLba);
    TileMore(slices, startLba, s);
    slices := slices + [s];
  }

  // ---------- what a command does ----------

  /** How many blocks the first j requests cover. */
  function End(slices: seq<SliceRequest>, j: nat): nat
    requires j <= |slices|
  {
    if j == 0 then 0 else slices[j - 1].startIndex + slices[j - 1].count
  }

  lemma {:induction false} EndGrows(slices: seq<SliceRequest>, startLba: nat, n: nat, j: nat)
    requires Tiles(slices, startLba, n) && j <= |slices|
    ensures End(slices, j) <= n && End(slices, |slices|) == n
    ensures j < |slices| ==>
              slices[j].startIndex == End(slices, j) && End(slices, j + 1) == End(slices, j) + slices[j].count <= n
    decreases |slices| - j
  {
    if j < |slices| {
      assert TileAt(slices, j, startLba);
      EndGrows(slices, startLba, n, j + 1);
    }
  }

  /** The events of a write command, given the tiling of its blocks. */
  function WriteEvents<D>(slices: seq<SliceRequest>, startLba: nat, data: seq<D>): (r: seq<Event<D>>)
    requires Tiles(slices, startLba, |data|)
    ensures |r| == |slices|
  {
    seq(|slices|, i requires 0 <= i < |slices| =>
      EndGrows(slices, startLba, |data|, i);
      Slice(Write(slices[i].lsa, slices[i].offset, data[slices[i].startIndex..slices[i].startIndex + slices[i].count])))
  }

  function ReadEvents<D>(slices: seq<SliceRequest>): (r: seq<Event<D>>)
    ensures |r| == |slices|
  {
    seq(|slices|, i requires 0 <= i < |slices| => Slice(Read(slices[i].lsa, slices[i].offset, slices[i].count)))
  }

  lemma OverwriteAppend<D>(m: map<nat, D>, lba: nat, a: seq<D>, b: seq<D>)
    ensures Overwrite(Overwrite(m, lba, a), lba + |a|, b) == Overwrite(m, lba, a + b)
  {
  }

  /** One slice request of a write command. */
  lemma OneWrite<D>(m: map<nat, D>, slices: seq<SliceRequest>, startLba: nat, data: seq<D>, j: nat)
    requires Tiles(slices, startLba, |data|) && j < |slices| && End(slices, j) <= End(slices, j + 1) <= |data|
    ensures After(Overwrite(m, startLba, data[..End(slices, j)]),
        WriteEvents(slices, startLba, data)[j]) == Overwrite(m, startLba, data[..End(slices, j + 1)])
  {
    hide Overwrite, Tiles, TileAt, End, Lba;
    SliceIs(slices, startLba, |data|, j);
    var from, to := End(slices, j), End(slices, j + 1);
    OverwriteAppend(m, startLba, data[..from], data[from..to]);
    assert data[..from] + data[from..to] == data[..to];
    assert WriteEvents(slices, startLba, data)[j] == Slice(Write(slices[j].lsa, slices[j].offset, data[from..to]));
  }

  /** Where slice request j starts and ends among the blocks of the command. */
  lemma SliceIs(slices: seq<SliceRequest>, startLba: nat, length: nat, j: nat)
    requires Tiles(slices, startLba, length) && j < |slices|
    ensures slices[j].startIndex == End(slices, j) && slices[j].startIndex + slices[j].count == End(slices, j + 1)
    ensures Lba(slices[j].lsa, slices[j].offset) == startLba + End(slices, j)
  {
    EndGrows(slices, startLba, length, j);
    assert TileAt(slices, j, startLba);
  }

  lemma {:induction false} WritesSoFar<D>(m: map<nat, D>, slices: seq<SliceRequest>, startLba: nat, data: seq<D>,
          j: nat)
    requires Tiles(slices, startLba, |data|) && j <= |slices|
    ensures End(slices, j) <= |data|
        && AfterAll(m, WriteEvents(slices, startLba, data)[..j]) == Overwrite(m, startLba, data[..End(slices, j)])
  {
    EndGrows(slices, startLba, |data|, j);
    var events := WriteEvents(slices, startLba, data);
    if j > 0 {
      WritesSoFar(m, slices, startLba, data, j - 1);
      EndGrows(slices, startLba, |data|, j - 1);
      OneWrite(m, slices, startLba, data, j - 1);
      hide Overwrite, Tiles, WriteEvents, End, After;
      assert events[..j][..j - 1] == events[..j - 1];
    }
  }

  /** A write command overwrites exactly its blocks, with its data. */
  lemma WriteCommand<D>(m: map<nat, D>, slices: seq<SliceRequest>, startLba: nat, data: seq<D>)
    requires Tiles(slices, startLba, |data|)
    ensures AfterAll(m, WriteEvents(slices, startLba, data)) == Overwrite(m, startLba, data)
  {
    WritesSoFar(m, slices, startLba, data, |slices|);
    EndGrows(slices, startLba, |data|, 0);
    var events := WriteEvents(slices, startLba, data);
    assert events[..|slices|] == events && data[..|data|] == data;
  }

  function Joined<D>(outs: seq<seq<D>>): seq<D> {
    if outs == [] then [] else Joined(outs[..|outs| - 1]) + outs[|outs| - 1]
  }

  lemma {:induction false} ReadsChangeNothing<D>(m: map<nat, D>, slices: seq<SliceRequest>, j: nat)
    requires j <= |slices|
    ensures AfterAll(m, ReadEvents<D>(slices)[..j]) == m
  {
    if j > 0 {
      ReadsChangeNothing(m, slices, j - 1);
      assert ReadEvents<D>(slices)[..j][..j - 1] == ReadEvents<D>(slices)[..j - 1];
    }
  }

  /** What out is, as far as blocks were written from lba on. */
  ghost predicate HasData<D>(m: map<nat, D>, lba: nat, out: seq<D>, n: nat) {
    |out| == n && forall k :: 0 <= k < n && lba + k in m ==> out[k] == m[lba + k]
  }

  lemma HasMore<D>(m: map<nat, D>, lba: nat, out: seq<D>, n: nat, more: seq<D>, count: nat)
    requires HasData(m, lba, out, n) && HasData(m, lba + n, more, count)
    ensures HasData(m, lba, out + more, n + count)
  {
    forall k | 0 <= k < n + count && lba + k in m
      ensures (out + more)[k] == m[lba + k]
    {
      assert k >= n ==> lba + k == (lba + n) + (k - n);
    }
  }

  lemma {:induction false} ReadsSoFar<D>(g: F.Geometry, m: map<nat, D>, states: seq<Store<D>>,
          slices: seq<SliceRequest>, outs: seq<seq<D>>, startLba: nat, n: nat, j: nat)
    requires Tiles(slices, startLba, n) && Trace(g, states, ReadEvents(slices), outs) && Refines(g, states[0], m)
        && FI.Inv(g, states[0].ftl) && j <= |slices|
    ensures HasData(m, startLba, Joined(outs[..j]), End(slices, j))
  {
    hide Refines, FI.Inv, Trace, HasData;
    if j > 0 {
      ReadsSoFar(g, m, states, slices, outs, startLba, n, j - 1);
      EndGrows(slices, startLba, n, j - 1);
      RunRefines(g, m, states, ReadEvents(slices), outs, j - 1);
      ReadsChangeNothing(m, slices, j - 1);
      assert |outs| == |slices| by {
        TraceLength(g, states, ReadEvents(slices), outs);
      }
      OneRead(m, slices, outs[j - 1], startLba, j - 1);
      HasMore(m, startLba, Joined(outs[..j - 1]), End(slices, j - 1), outs[j - 1], slices[j - 1].count);
      assert outs[..j][..j - 1] == outs[..j - 1];
    } else {
      NoData(m, startLba, Joined(outs[..0]));
    }
  }

  lemma TraceLength<D>(g: F.Geometry, states: seq<Store<D>>, events: seq<Event<D>>, outs: seq<seq<D>>)
    requires Trace(g, states, events, outs)
    ensures |outs| == |events|
  {
  }

  lemma NoData<D>(m: map<nat, D>, lba: nat, out: seq<D>)
    requires out == []
    ensures HasData(m, lba, out, 0)
  {
  }

  lemma OneRead<D>(m: map<nat, D>, slices: seq<SliceRequest>, out: seq<D>, startLba: nat, j: nat)
    requires j < |slices| && TileAt(slices, j, startLba) && slices[j].startIndex == End(slices, j)
    requires ReadsBack(m, Read(slices[j].lsa, slices[j].offset, slices[j].count), out)
    ensures HasData(m, startLba + End(slices, j), out, slices[j].count)
  {
    forall k | 0 <= k < slices[j].count && startLba + End(slices, j) + k in m
      ensures out[k] == m[startLba + End(slices, j) + k]
    {
      assert Lba(slices[j].lsa, slices[j].offset + k) == startLba + End(slices, j) + k;
    }
  }

  /** A read command returns, for every one of its blocks that was ever written, the value last written. */
  lemma ReadCommand<D>(g: F.Geometry, m: map<nat, D>, states: seq<Store<D>>, slices: seq<SliceRequest>,
          outs: seq<seq<D>>, startLba: nat, n: nat)
    requires Tiles(slices, startLba, n) && Trace(g, states, ReadEvents(slices), outs) && Refines(g, states[0], m)
        && FI.Inv(g, states[0].ftl)
    ensures HasData(m, startLba, Joined(outs), n)
  {
    ReadsSoFar(g, m, states, slices, outs, startLba, n, |slices|);
    EndGrows(slices, startLba, n, 0);
    TraceLength(g, states, ReadEvents(slices), outs);
    assert outs[..|slices|] == outs;
  }

  /** What was written is read back, block for block, whatever the requests of the two commands evict and collect. */
  lemma WriteThenRead<D>(g: F.Geometry, m: map<nat, D>, states: seq<Store<D>>, states': seq<Store<D>>,
          slices: seq<SliceRequest>, outs: seq<seq<D>>, outs': seq<seq<D>>,
                         startLba: nat, data: seq<D>)
    requires Tiles(slices, startLba, |data|) && Trace(g, states, WriteEvents(slices, startLba, data), outs)
    requires Refines(g, states[0], m) && FI.Inv(g, states[0].ftl)
    requires Trace(g, states', ReadEvents(slices), outs') && states'[0] == states[|slices|]
    ensures Joined(outs') == data
  {
    hide Refines, FI.Inv, Trace, Tiles, HasData, Overwrite;
    var events := WriteEvents(slices, startLba, data);
    RunRefines(g, m, states, events, outs, |slices|);
    assert events[..|slices|] == events;
    WriteCommand(m, slices, startLba, data);
    ReadCommand(g, Overwrite(m, startLba, data), states', slices, outs', startLba, |data|);
    OverwrittenData(m, startLba, data, Joined(outs'));
  }

  lemma OverwrittenData<D>(m: map<nat, D>, lba: nat, data: seq<D>, out: seq<D>)
    requires HasData(Overwrite(m, lba, data), lba, out, |data|)
    ensures out == data
  {
    forall k | 0 <= k < |data|
      ensures out[k] == data[k]
    {
      assert lba + k in Overwrite(m, lba, data);
    }
  }
}
