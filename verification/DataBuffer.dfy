/**
 The data buffer map in place: entry fields in arrays, the recency list and the hash chains threaded
 through them. Walking a chain finds what a scan finds, and the walk of AllocateDataBuf from the
 tail finds the least recently used entry that suits.
 */
module DataBuffer {
  import opened Common
  import opened B = Buffer
  import opened IndexLists

  const DATA_BUF_NONE: nat := 0xffff
  const DATA_BUF_FAIL: nat := 0xffff

  class DataBuffer {
    const n: nat
    const lsa: array<Option<nat>>
    const dirty: array<bool>
    const pinned: array<bool>
    const full: array<nat>
    /** prevEntry, nextEntry, dataBufLruList */
    const lru: IndexLists
    /** hashPrevEntry, hashNextEntry, dataBufHash */
    const hash: IndexLists
    ghost var abs: B.Buffer

    ghost function Repr(): set<object> {
      {this, lsa, dirty, pinned, full} + lru.Repr() + hash.Repr()
    }

    ghost predicate Dimensions() {
      && 0 < n <= DATA_BUF_NONE && dirty != pinned
      && lsa.Length == dirty.Length == pinned.Length == full.Length == n
      && lru.prev.Length == hash.prev.Length == n && lru.none == hash.none == DATA_BUF_NONE
      && lru.Repr() !! hash.Repr()
      && {this, lsa, dirty, pinned, full} !! lru.Repr() && {this, lsa, dirty, pinned, full} !! hash.Repr()
    }

    ghost predicate Agrees(e: nat, k: Entry)
      requires Dimensions() && e < n
      reads lsa, dirty, pinned, full
    {
      k == Entry(lsa[e], dirty[e], pinned[e], full[e])
    }

    ghost predicate Valid()
      reads Repr()
    {
      && Dimensions() && lru.Valid() && hash.Valid()
      && |abs.entries| == n && (forall e :: 0 <= e < n ==> Agrees(e, abs.entries[e]))
      && lru.lists == [abs.lru] && hash.lists == abs.chains && |abs.chains| == n
    }

    /** Everything clean and unpinned, around given links: a full recency list and empty chains. */
    constructor (n: nat, lru: IndexLists, hash: IndexLists)
      requires 0 < n <= DATA_BUF_NONE && lru.Valid() && hash.Valid() && lru.Repr() !! hash.Repr()
      requires lru.prev.Length == hash.prev.Length == n && lru.none == hash.none == DATA_BUF_NONE
      requires lru.lists == [Ascending(n)] && hash.lists == seq(n, _ => [])
      ensures Valid() && fresh(Repr() - lru.Repr() - hash.Repr()) && this.n == n && this.lru == lru && this.hash == hash
      ensures abs == B.Init(n, Ascending(n)) && B.Inv(abs)
    {
      this.n := n;
      lsa := new Option<nat>[n](_ => None);
      dirty := new bool[n](_ => false);
      pinned := new bool[n](_ => false);
      full := new nat[n](_ => 0);
      this.lru := lru;
      this.hash := hash;
      abs := B.Init(n, Ascending(n));
      new;
      InitEstablishesInv(n, Ascending(n));
      hide B.Inv, IndexLists.Valid, Ascending;
    }

    /** Moves entry e to the front of the recency list. */
    method ToFront(e: nat)
      requires Valid() && B.Shape(abs) && Distinct(abs.lru) && e < n
      modifies Repr()
      ensures Valid() && abs == old(abs).(lru := B.ToFront(old(abs).lru, e)) && MovedUp(old(abs).lru, abs.lru, e)
    {
      assert e in lru.lists[0];
      B.MovesUp(abs.lru, e);
      lru.Unlink(0, e);
      lru.PutHead(0, e);
      abs := abs.(lru := B.ToFront(abs.lru, e));
    }

    /** Walks the chain of the slice's hash. */
    method Find(l: nat) returns (e: nat)
      requires Valid() && B.Inv(abs)
      ensures match Scan(abs.entries, l, 0)
              case None => e == DATA_BUF_NONE
              case Some(f) => e == f
    {
      var h := B.Hash(l, n);
      e := hash.head[h];
      ghost var chain: seq<nat> := abs.chains[h];
      ghost var i := 0;
      var steps := 0;
      hash.Ends(h);
      DistinctBounded(chain, n);
      hide B.Inv, IndexLists.Valid, Scan;
      if i < |chain| {
        hash.At(h, i);
      }
      while e != DATA_BUF_NONE
        invariant 0 <= steps == i <= |chain|
        invariant e == if i < |chain| then chain[i] else DATA_BUF_NONE
        invariant forall j :: 0 <= j < i ==> !Caches(abs, chain[j], l)
        decreases |chain| - i
      {
        steps := steps + 1;
        hash.At(h, i);
        assert e in chain && Agrees(e, abs.entries[e]);
        if lsa[e] == Some(l) {
          ChainAgreesWithScan(abs, l, e);
          return;
        }
        e := hash.next[e];
        i := i + 1;
        assert steps < 100000;
      }
      if i < |chain| {
        hash.At(h, i);
      }
      forall f | f in chain
        ensures !Caches(abs, f, l)
      {
        var j :| 0 <= j < |chain| && chain[j] == f;
        assert !Caches(abs, chain[j], l);
      }
      ChainAgreesWithScan(abs, l, 0);
    }

    /** CheckDataBufHit and CheckDataBufHitWithLSA: a hit becomes the most recently used entry. */
    method CheckDataBufHit(l: nat) returns (e: nat)
      requires Valid() && B.Inv(abs)
      modifies Repr()
      ensures Valid() && abs == B.CheckDataBufHit(old(abs), l).0
      ensures match B.CheckDataBufHit(old(abs), l).1
              case None => e == DATA_BUF_FAIL
              case Some(f) => e == f
      ensures e != DATA_BUF_FAIL ==> Caches(abs, e, l) && MovedUp(old(abs).lru, abs.lru, e)
    {
      e := Find(l);
      if e != DATA_BUF_NONE {
        ToFront(e);
      }
    }

    /** The least recently used entry. */
    method Tail() returns (e: nat)
      requires Valid()
      ensures e == if abs.lru == [] then DATA_BUF_NONE else abs.lru[|abs.lru| - 1]
    {
      lru.Ends(0);
      e := lru.tail[0];
      if abs.lru != [] {
        lru.At(0, |abs.lru| - 1);
      }
    }

    /** The entry used next after the one at position i - 1 of the recency list. */
    method Previous(e: nat, ghost i: nat) returns (f: nat)
      requires Valid() && 0 < i <= |abs.lru| && e == abs.lru[i - 1]
      ensures f == if i == 1 then DATA_BUF_NONE else abs.lru[i - 2]
    {
      lru.At(0, i - 1);
      f := lru.prev[e];
    }

    /** One pass of AllocateDataBuf: from the tail towards the head, to the first entry that suits. */
    method Search(w: Wanted) returns (e: nat)
      requires Valid() && B.Shape(abs)
      ensures match LeastRecent(abs, w, |abs.lru|)
              case None => e == DATA_BUF_NONE
              case Some(f) => e == f
    {
      hide IndexLists.Valid, LeastRecent, B.Suits, B.Shape;
      e := Tail();
      ghost var i := |abs.lru|;
      while e != DATA_BUF_NONE
        invariant 0 <= i <= |abs.lru|
        invariant e == if i > 0 then abs.lru[i - 1] else DATA_BUF_NONE
        invariant LeastRecent(abs, w, |abs.lru|) == LeastRecent(abs, w, i)
        decreases i
      {
        LeastRecentFrom(abs, w, i);
        assert Agrees(e, abs.entries[e]);
        if Suits(Entry(lsa[e], dirty[e], pinned[e], full[e]), w) {
          return;
        }
        e := Previous(e, i);
        i := i - 1;
      }
      LeastRecentFrom(abs, w, i);
    }

    /** Takes entry e out of the chain of the slice it caches. */
    method SelectiveGetFromDataBufHashList(e: nat)
      requires Valid() && e < n
      requires abs.entries[e].lsa.Some? ==> e in abs.chains[B.Hash(abs.entries[e].lsa.value, n)]
      modifies Repr()
      ensures Valid() && abs == B.SelectiveGetFromDataBufHashList(old(abs), e)
    {
      assert Agrees(e, abs.entries[e]);
      if lsa[e].Some? {
        hash.Unlink(B.Hash(lsa[e].value, n), e);
        abs := B.SelectiveGetFromDataBufHashList(abs, e);
      }
    }

    method PutToDataBufHashList(e: nat)
      requires Valid() && e < n && abs.entries[e].lsa.Some? && Loose(abs.chains, e)
      modifies Repr()
      ensures Valid() && abs == B.PutToDataBufHashList(old(abs), e)
    {
      assert Agrees(e, abs.entries[e]);
      hash.PutTail(B.Hash(lsa[e].value, n), e);
      abs := B.PutToDataBufHashList(abs, e);
    }

    /** Three passes, then the picked entry moves to the front and out of its chain. */
    method AllocateDataBuf(clean: bool) returns (e: nat)
      requires Valid() && B.Inv(abs)
      modifies Repr()
      ensures Valid()
      ensures match B.AllocateDataBuf(old(abs), clean)
              case None => e == DATA_BUF_NONE && abs == old(abs)
              case Some(r) => e == r.1 && abs == r.0 && MovedUp(old(abs).lru, abs.lru, e)
    {
      hide IndexLists.Valid, LeastRecent, MovedUp, B.Shape;
      e := DATA_BUF_NONE;
      if !clean {
        e := Search(Filled);
      }
      if e == DATA_BUF_NONE {
        e := Search(Clean);
        if e == DATA_BUF_NONE && !clean {
          e := Search(Any);
        }
      }
      if e == DATA_BUF_NONE {
        return;
      }
      ToFront(e);
      SelectiveGetFromDataBufHashList(e);
    }

    /** The entry was written out. */
    method MarkClean(e: nat)
      requires Valid() && e < |abs.entries|
      modifies Repr()
      ensures Valid() && abs == B.MarkClean(old(abs), e)
    {
      assert Agrees(e, abs.entries[e]);
      dirty[e] := false;
      full[e] := 0;
      abs := B.MarkClean(abs, e);
    }

    /** Blocks are going to be received into the entry; the block count has one bit. */
    method MarkWritten(e: nat, count: nat)
      requires Valid() && e < |abs.entries|
      modifies Repr()
      ensures Valid() && abs == B.MarkWritten(old(abs), e, count)
    {
      assert Agrees(e, abs.entries[e]);
      dirty[e] := true;
      full[e] := (full[e] + count) % 2;
      abs := B.MarkWritten(abs, e, count);
    }

    /** The miss path of ReqTransSliceToLowLevel: the allocated entry is made to cache slice l. */
    method Rehash(e: nat, l: nat)
      requires Valid() && e < n && InvBut(abs, Some(e))
      modifies Repr()
      ensures Valid() && abs == B.Rehash(old(abs), e, l)
    {
      lsa[e] := Some(l);
      abs := abs.(entries := abs.entries[e := abs.entries[e].(lsa := Some(l))]);
      PutToDataBufHashList(e);
    }
  }

  /** InitDataBuf: entry 0 is the most recently used. */
  method InitDataBuf(n: nat) returns (d: DataBuffer)
    requires 0 < n <= DATA_BUF_NONE
    ensures d.Valid() && fresh(d.Repr()) && d.n == n
    ensures d.abs == B.Init(n, Ascending(n)) && B.Inv(d.abs)
  {
    var lru := new IndexLists.Filled(n, 1, DATA_BUF_NONE);
    var hash := new IndexLists(n, n, DATA_BUF_NONE);
    hide IndexLists.Valid, Ascending, DataBuffer.Valid, B.Init, B.Inv;
    assert lru.lists == [Ascending(n)];
    d := new DataBuffer(n, lru, hash);
  }
}
