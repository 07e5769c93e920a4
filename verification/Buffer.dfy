/** The write-back data buffer as operations on values: entries, recency list, hash chains. */
module Buffer {
  import opened Common

  const NVME_BLOCKS_PER_SLICE: nat := 4

  /** full is the one-bit field the firmware adds block counts to. */
  datatype Entry = Entry(lsa: Option<nat>, dirty: bool, pinned: bool, full: nat)

  /** lru runs from the most to the least recently used entry; chains[h] holds the entries whose slice hashes to h. */
  datatype Buffer = Buffer(entries: seq<Entry>, lru: seq<nat>, chains: seq<seq<nat>>)

  function Hash(l: nat, n: nat): nat
    requires n > 0
  {
    l % n
  }

  /** Entry e caches slice l. */
  predicate Caches(b: Buffer, e: nat, l: nat) {
    e < |b.entries| && b.entries[e].lsa == Some(l)
  }

  ghost predicate Shape(b: Buffer) {
    && |b.entries| > 0 && |b.chains| == |b.entries|
    && (forall i :: 0 <= i < |b.lru| ==> b.lru[i] < |b.entries|)
    && (forall e :: 0 <= e < |b.entries| ==> e in b.lru)
    && (forall h, e :: 0 <= h < |b.chains| && e in b.chains[h] ==> e < |b.entries|)
  }

  /** held is an entry that was allocated and is not yet rehashed. */
  ghost predicate InvBut(b: Buffer, held: Option<nat>) {
    && Shape(b) && Distinct(b.lru)
    && (forall h :: 0 <= h < |b.chains| ==> Distinct(b.chains[h]))
    && (forall h, e :: 0 <= h < |b.chains| ==>
          (e in b.chains[h] <==>
             && 0 <= e < |b.entries| && held != Some(e) && b.entries[e].lsa.Some?
             && Hash(b.entries[e].lsa.value, |b.entries|) == h))
    && (forall e, f ::
          && 0 <= e < |b.entries| && 0 <= f < |b.entries| && e != f
          && held != Some(e) && held != Some(f) && b.entries[e].lsa.Some? ==>
            b.entries[e].lsa != b.entries[f].lsa)
    && (forall e :: 0 <= e < |b.entries| ==> b.entries[e].full <= 1)
  }

  ghost predicate Inv(b: Buffer) {
    InvBut(b, None)
  }

  /** InitDataBuf. */
  function Init(n: nat, lru: seq<nat>): Buffer {
    Buffer(seq(n, _ => Entry(None, false, false, 0)), lru, seq(n, _ => []))
  }

  lemma InitEstablishesInv(n: nat, lru: seq<nat>)
    requires n > 0 && |lru| == n && forall i :: 0 <= i < n ==> lru[i] == i
    ensures Inv(Init(n, lru))
  {
    forall e | 0 <= e < n
      ensures e in lru
    {
      assert lru[e] == e;
    }
  }

  // ---------- lookup ----------

  /** The first entry from e on that caches slice l: a scan of the whole buffer. */
  function Scan(entries: seq<Entry>, l: nat, e: nat): (r: Option<nat>)
    requires e <= |entries|
    ensures r.Some? ==> e <= r.value < |entries| && entries[r.value].lsa == Some(l)
    ensures r.None? ==> forall f :: e <= f < |entries| ==> entries[f].lsa != Some(l)
    decreases |entries| - e
  {
    if e == |entries| then None
    else if entries[e].lsa == Some(l) then Some(e)
    else Scan(entries, l, e + 1)
  }

  function ToFront(s: seq<nat>, e: nat): seq<nat> {
    [e] + Without(s, e)
  }

  /** The entry that caches slice l, moved to the front of the recency list. */
  function CheckDataBufHit(b: Buffer, l: nat): (Buffer, Option<nat>) {
    match Scan(b.entries, l, 0)
    case None => (b, None)
    case Some(e) => (b.(lru := ToFront(b.lru, e)), Some(e))
  }

  // ---------- allocation ----------

  datatype Wanted = Filled | Clean | Any

  /** What the three passes of AllocateDataBuf look for; none of them takes a pinned entry. */
  predicate Suits(k: Entry, w: Wanted) {
    !k.pinned &&
    match w
    case Filled => k.full >= NVME_BLOCKS_PER_SLICE
    case Clean => !k.dirty
    case Any => true
  }

  /** The entry at position i of the recency list suits. */
  predicate SuitsAt(b: Buffer, w: Wanted, i: nat) {
    i < |b.lru| && b.lru[i] < |b.entries| && Suits(b.entries[b.lru[i]], w)
  }

  /** The last, that is least recently used, of the first n entries of the list that suits. */
  function LeastRecent(b: Buffer, w: Wanted, n: nat): (r: Option<nat>)
    requires Shape(b) && n <= |b.lru|
    ensures r.None? <==> forall i :: 0 <= i < n ==> !SuitsAt(b, w, i)
    ensures r.Some? ==> exists i :: 0 <= i < n && SuitsAt(b, w, i) && r.value == b.lru[i] && forall j :: i < j < n ==>
        !SuitsAt(b, w, j)
    decreases n
  {
    if n == 0 then None
    else if SuitsAt(b, w, n - 1) then Some(b.lru[n - 1])
    else LeastRecent(b, w, n - 1)
  }

  lemma LeastRecentFrom(b: Buffer, w: Wanted, n: nat)
    requires Shape(b) && n <= |b.lru|
    ensures n == 0 ==> LeastRecent(b, w, n) == None
    ensures n > 0 ==> b.lru[n - 1] < |b.entries|
    ensures n > 0 ==> LeastRecent(b, w, n) == if Suits(b.entries[b.lru[n - 1]], w) then Some(b.lru[n - 1])
                                              else LeastRecent(b, w, n - 1)
  {
  }

  function Pick(b: Buffer, clean: bool): (r: Option<nat>)
    requires Shape(b)
    ensures r.Some? ==> r.value < |b.entries|
  {
    var n := |b.lru|;
    if !clean && LeastRecent(b, Filled, n).Some? then LeastRecent(b, Filled, n)
    else if LeastRecent(b, Clean, n).Some? then LeastRecent(b, Clean, n)
    else if !clean then LeastRecent(b, Any, n)
    else None
  }

  /** The picked entry goes to the front of the recency list and leaves its hash chain. */
  function AllocateDataBuf(b: Buffer, clean: bool): (r: Option<(Buffer, nat)>)
    requires Shape(b)
  {
    match Pick(b, clean)
    case None => None
    case Some(e) => Some((SelectiveGetFromDataBufHashList(b.(lru := ToFront(b.lru, e)), e), e))
  }

  function SelectiveGetFromDataBufHashList(b: Buffer, e: nat): Buffer
    requires e < |b.entries| && |b.chains| == |b.entries|
  {
    match b.entries[e].lsa
    case None => b
    case Some(l) => var h := Hash(l, |b.entries|); b.(chains := b.chains[h := Without(b.chains[h], e)])
  }

  function PutToDataBufHashList(b: Buffer, e: nat): Buffer
    requires e < |b.entries| && |b.chains| == |b.entries| && b.entries[e].lsa.Some?
  {
    var h := Hash(b.entries[e].lsa.value, |b.entries|);
    b.(chains := b.chains[h := b.chains[h] + [e]])
  }

  /** The allocated entry is made to cache slice l. */
  function Rehash(b: Buffer, e: nat, l: nat): Buffer
    requires e < |b.entries| && |b.chains| == |b.entries|
  {
    PutToDataBufHashList(b.(entries := b.entries[e := b.entries[e].(lsa := Some(l))]), e)
  }

  /** The entry was written out. */
  function MarkClean(b: Buffer, e: nat): Buffer
    requires e < |b.entries|
  {
    b.(entries := b.entries[e := b.entries[e].(dirty := false, full := 0)])
  }

  /** Blocks are going to be received into the entry; the block count has one bit. */
  function MarkWritten(b: Buffer, e: nat, count: nat): Buffer
    requires e < |b.entries|
  {
    b.(entries := b.entries[e := b.entries[e].(dirty := true, full := (b.entries[e].full + count) % 2)])
  }

  // ---------- what they keep and find ----------

  /** With unique slices the scan and the chain of the slice's hash find the same entry. */
  lemma ChainAgreesWithScan(b: Buffer, l: nat, e: nat)
    requires Inv(b) && e < |b.entries|
    ensures Scan(b.entries, l, 0) == Some(e) <==> e in b.chains[Hash(l, |b.entries|)] && b.entries[e].lsa == Some(l)
    ensures Scan(b.entries, l, 0) == None <==> forall f :: f in b.chains[Hash(l, |b.entries|)] ==> !Caches(b, f, l)
  {
    var r := Scan(b.entries, l, 0);
    assert r.Some? ==> Caches(b, r.value, l) && r.value in b.chains[Hash(l, |b.entries|)];
  }

  /** e stands first now, and the others behind it in the order they had. */
  ghost predicate MovedUp(lru: seq<nat>, lru': seq<nat>, e: nat) {
    exists i :: 0 <= i < |lru| && MovedUpFrom(lru, lru', e, i)
  }

  predicate MovedUpFrom(lru: seq<nat>, lru': seq<nat>, e: nat, i: nat)
    requires i < |lru|
  {
    lru[i] == e && lru' == [e] + lru[..i] + lru[i + 1..]
  }

  lemma MovesUp(lru: seq<nat>, e: nat)
    requires Distinct(lru) && e in lru
    ensures MovedUp(lru, ToFront(lru, e), e)
  {
    var i :| 0 <= i < |lru| && lru[i] == e;
    WithoutAt(lru, i);
    hide Distinct, Without;
    assert MovedUpFrom(lru, ToFront(lru, e), e, i);
  }

  lemma ToFrontMembers(b: Buffer, e: nat)
    requires Shape(b) && Distinct(b.lru) && e < |b.entries|
    ensures Shape(b.(lru := ToFront(b.lru, e))) && Distinct(ToFront(b.lru, e))
  {
    WithoutMembers(b.lru, e);
    DistinctCons(e, Without(b.lru, e));
    forall i | 0 <= i < |ToFront(b.lru, e)|
      ensures ToFront(b.lru, e)[i] < |b.entries|
    {
      assert i > 0 ==> ToFront(b.lru, e)[i] in Without(b.lru, e);
    }
    forall f | 0 <= f < |b.entries|
      ensures f in ToFront(b.lru, e)
    {
      assert f in b.lru;
    }
  }

  /** A slice is found exactly if an entry caches it; that entry becomes the most recently used one. */
  lemma HitKeeps(b: Buffer, l: nat)
    requires Inv(b)
    ensures Inv(CheckDataBufHit(b, l).0)
    ensures match CheckDataBufHit(b, l)
            case (b', None) => b' == b && forall e :: 0 <= e < |b.entries| ==> !Caches(b, e, l)
            case (b', Some(e)) => Caches(b, e, l) && b' == b.(lru := b'.lru) && MovedUp(b.lru, b'.lru, e)
  {
    var r := Scan(b.entries, l, 0);
    if r.Some? {
      assert r.value in b.lru;
      ToFrontMembers(b, r.value);
      MovesUp(b.lru, r.value);
      hide ToFront, MovedUp;
    }
  }

  /** The one-bit block count never reaches a slice: the first pass finds nothing. */
  lemma FirstPassFindsNothing(b: Buffer, clean: bool)
    requires Inv(b)
    ensures LeastRecent(b, Filled, |b.lru|) == None
    ensures Pick(b, clean) == (if LeastRecent(b, Clean, |b.lru|).Some? then LeastRecent(b, Clean, |b.lru|)
                               else if clean then None else LeastRecent(b, Any, |b.lru|))
  {
    assert forall i :: 0 <= i < |b.lru| ==> !SuitsAt(b, Filled, i);
  }

  /** No entry of the list suits exactly if no entry does. */
  lemma NothingSuits(b: Buffer, w: Wanted)
    requires Shape(b)
    ensures LeastRecent(b, w, |b.lru|).None? <==> forall e :: 0 <= e < |b.entries| ==> !Suits(b.entries[e], w)
  {
    if LeastRecent(b, w, |b.lru|).None? {
      forall e | 0 <= e < |b.entries|
        ensures !Suits(b.entries[e], w)
      {
        assert e in b.lru;
        var i :| 0 <= i < |b.lru| && b.lru[i] == e;
        assert !SuitsAt(b, w, i);
      }
    }
  }

  /** Allocation fails exactly if everything is pinned, or, when asked for a clean entry, pinned or dirty. */
  lemma AllocationFails(b: Buffer, clean: bool)
    requires Inv(b)
    ensures AllocateDataBuf(b, clean).None? <==> forall e :: 0 <= e < |b.entries| ==>
        b.entries[e].pinned || (clean && b.entries[e].dirty)
  {
    FirstPassFindsNothing(b, clean);
    NothingSuits(b, if clean then Clean else Any);
    NothingSuits(b, Clean);
  }

  /** Entry f, behind position i in the list, is pinned, or dirty while the entry at position i is clean. */
  ghost predicate PassedOver(b: Buffer, e: nat, f: nat)
    requires e < |b.entries|
  {
    f < |b.entries| && (b.entries[f].pinned || (b.entries[f].dirty && !b.entries[e].dirty))
  }

  /**
   Position i of the recency list has the last unpinned clean entry, or, if there is none and a
   clean one was not asked for, the last unpinned one.
   */
  ghost predicate PickedAt(b: Buffer, clean: bool, i: nat) {
    && i < |b.lru| && b.lru[i] < |b.entries| && !b.entries[b.lru[i]].pinned
    && (forall j :: i < j < |b.lru| ==> PassedOver(b, b.lru[i], b.lru[j]))
    && (b.entries[b.lru[i]].dirty ==> !clean && forall f :: 0 <= f < |b.entries| && !b.entries[f].pinned ==>
        b.entries[f].dirty)
  }

  /**
   The picked entry is the least recently used unpinned clean one; only if there is none, and a
   clean one was not asked for, the least recently used unpinned one.
   */
  lemma PickIsLeastRecent(b: Buffer, clean: bool)
    requires Inv(b) && Pick(b, clean).Some?
    ensures exists i :: 0 <= i < |b.lru| && PickedAt(b, clean, i) && Pick(b, clean).value == b.lru[i]
  {
    FirstPassFindsNothing(b, clean);
    NothingSuits(b, Clean);
    hide Inv, Pick;
    var w := if LeastRecent(b, Clean, |b.lru|).Some? then Clean else Any;
    var i :| 0 <= i < |b.lru| && SuitsAt(b, w, i) && Pick(b, clean).value == b.lru[i] && forall j ::
        i < j < |b.lru| ==> !SuitsAt(b, w, j);
    forall j | i < j < |b.lru|
      ensures PassedOver(b, b.lru[i], b.lru[j])
    {
      assert !SuitsAt(b, w, j);
    }
    assert PickedAt(b, clean, i);
  }

  /** The allocated entry, and only it, leaves its chain; it stands first in the recency list. */
  lemma AllocationKeeps(b: Buffer, clean: bool)
    requires Inv(b) && AllocateDataBuf(b, clean).Some?
    ensures var (b', e) := AllocateDataBuf(b, clean).value;
            && InvBut(b', Some(e)) && e < |b.entries| && b'.entries == b.entries && MovedUp(b.lru, b'.lru, e)
            && forall h, f :: 0 <= h < |b.chains| ==> (f in b'.chains[h] <==> f in b.chains[h] && f != e)
  {
    var e := Pick(b, clean).value;
    assert e in b.lru;
    MovesUp(b.lru, e);
    ToFrontMembers(b, e);
    hide Pick, ToFront, MovedUp;
    LeaveChain(b.(lru := ToFront(b.lru, e)), e);
  }

  lemma LeaveChain(b: Buffer, e: nat)
    requires Inv(b) && e < |b.entries|
    ensures var b' := SelectiveGetFromDataBufHashList(b, e);
            && InvBut(b', Some(e)) && b'.entries == b.entries && b'.lru == b.lru && |b'.chains| == |b.chains|
            && forall h, f :: 0 <= h < |b.chains| ==> (f in b'.chains[h] <==> f in b.chains[h] && f != e)
  {
    if b.entries[e].lsa.Some? {
      WithoutMembers(b.chains[Hash(b.entries[e].lsa.value, |b.entries|)], e);
    }
  }

  lemma RehashKeeps(b: Buffer, e: nat, l: nat)
    requires InvBut(b, Some(e)) && e < |b.entries|
    requires forall f :: 0 <= f < |b.entries| && f != e ==> b.entries[f].lsa != Some(l)
    ensures Inv(Rehash(b, e, l))
  {
    assert e !in b.chains[Hash(l, |b.entries|)];
  }
}
