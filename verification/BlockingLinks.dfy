/** The blocking links: per buffer entry, the chain of requests that wait for each other, threaded through the slots. */
module BlockingLinks {
  import opened Common
  import opened IndexLists

  const REQ_SLOT_TAG_NONE: nat := 0xffff

  ghost predicate TailOk(c: seq<nat>, tail: nat) {
    if c == [] then tail == REQ_SLOT_TAG_NONE else tail == c[|c| - 1]
  }

  /** prevBlockingReq, nextBlockingReq and blockingReqTail spell out the chains; slots outside have clear links. */
  ghost predicate LinksOk(chains: seq<seq<nat>>, prev: seq<nat>, next: seq<nat>, tails: seq<nat>) {
    && |prev| == |next| <= REQ_SLOT_TAG_NONE && |tails| == |chains|
    && Chains(chains, prev, next, REQ_SLOT_TAG_NONE) && Apart(chains)
    && (forall e :: 0 <= e < |chains| ==> TailOk(chains[e], tails[e]))
    && (forall r: nat :: r < |prev| && Loose(chains, r) ==> prev[r] == next[r] == REQ_SLOT_TAG_NONE)
  }

  lemma LooseUpdated(chains: seq<seq<nat>>, e: nat, c: seq<nat>, t: nat)
    requires e < |chains|
    ensures Loose(chains[e := c], t) <==> t !in c && forall f :: 0 <= f < |chains| && f != e ==> t !in chains[f]
    ensures Loose(chains, t) <==> t !in chains[e] && forall f :: 0 <= f < |chains| && f != e ==> t !in chains[f]
  {
    var chains' := chains[e := c];
    assert Loose(chains', t) ==> chains'[e] == c && t !in chains'[e] && forall f :: 0 <= f < |chains| && f != e ==>
        chains'[f] == chains[f];
  }

  lemma LinksAppend(chains: seq<seq<nat>>, prev: seq<nat>, next: seq<nat>, tails: seq<nat>, e: nat, r: nat)
    requires LinksOk(chains, prev, next, tails) && e < |chains| && r < |prev| && Loose(chains, r)
    ensures var c := chains[e];
            && (c != [] ==> tails[e] < |prev|)
            && LinksOk(chains[e := c + [r]],
                       if c == [] then prev else prev[r := tails[e]],
                       if c == [] then next else next[tails[e] := r],
                       tails[e := r])
  {
    var c := chains[e];
    ChainBounds(c, prev, next, REQ_SLOT_TAG_NONE);
    assert c != [] ==> tails[e] in c;
    var prev', next' := if c == [] then prev else prev[r := tails[e]], if c == [] then next else next[tails[e] := r];
    ChainPutTail(c, r, prev, next, REQ_SLOT_TAG_NONE);
    assert next'[r := REQ_SLOT_TAG_NONE] == next' && (c == [] ==> prev[r := REQ_SLOT_TAG_NONE] == prev);
    forall f | 0 <= f < |chains| && f != e
      ensures Chain(chains[f], prev', next', REQ_SLOT_TAG_NONE)
    {
      ChainBounds(chains[f], prev, next, REQ_SLOT_TAG_NONE);
      ChainFrame(chains[f], prev, next, prev', next', REQ_SLOT_TAG_NONE);
    }
    forall t: nat | t < |prev| && Loose(chains[e := c + [r]], t)
      ensures Loose(chains, t) && t != r
    {
      LooseUpdated(chains, e, c + [r], t);
    }
  }

  /** The backward links after the first request of chain c left it. */
  function PoppedPrev(c: seq<nat>, prev: seq<nat>): (r: seq<nat>)
    requires |c| > 1 ==> c[1] < |prev|
    ensures |r| == |prev| && forall y :: 0 <= y < |r| && y !in c ==> r[y] == prev[y]
  {
    if |c| <= 1 then prev else prev[c[1] := REQ_SLOT_TAG_NONE]
  }

  function PoppedNext(c: seq<nat>, next: seq<nat>): (r: seq<nat>)
    requires c != [] && c[0] < |next|
    ensures |r| == |next| && forall y :: 0 <= y < |r| && y !in c ==> r[y] == next[y]
  {
    next[c[0] := REQ_SLOT_TAG_NONE]
  }

  /** The chain the first request leaves. */
  lemma ChainPopped(c: seq<nat>, prev: seq<nat>, next: seq<nat>)
    requires Chain(c, prev, next, REQ_SLOT_TAG_NONE) && Distinct(c) && c != []
    ensures c[0] < |prev| == |next| && (|c| > 1 ==> c[1] < |prev|)
    ensures next[c[0]] == (if |c| == 1 then REQ_SLOT_TAG_NONE else c[1]) && prev[c[0]] == REQ_SLOT_TAG_NONE
    ensures Chain(c[1..], PoppedPrev(c, prev), PoppedNext(c, next), REQ_SLOT_TAG_NONE)
    ensures PoppedPrev(c, prev)[c[0]] == PoppedNext(c, next)[c[0]] == REQ_SLOT_TAG_NONE
  {
    assert LinkedAt(c, 0, prev, next, REQ_SLOT_TAG_NONE);
    assert |c| > 1 ==> LinkedAt(c, 1, prev, next, REQ_SLOT_TAG_NONE);
    forall i | 0 <= i < |c[1..]|
      ensures LinkedAt(c[1..], i, PoppedPrev(c, prev), PoppedNext(c, next), REQ_SLOT_TAG_NONE)
    {
      assert LinkedAt(c, i + 1, prev, next, REQ_SLOT_TAG_NONE);
    }
  }

  lemma ApartPopped(chains: seq<seq<nat>>, e: nat)
    requires Apart(chains) && e < |chains| && chains[e] != []
    ensures Apart(chains[e := chains[e][1..]])
  {
  }

  /** The first request of chain e leaves it. */
  lemma LinksPop(chains: seq<seq<nat>>, prev: seq<nat>, next: seq<nat>, tails: seq<nat>, e: nat)
    requires LinksOk(chains, prev, next, tails) && e < |chains| && chains[e] != []
    ensures var c := chains[e];
            && c[0] < |prev| && next[c[0]] == (if |c| == 1 then REQ_SLOT_TAG_NONE else c[1])
                && (|c| > 1 ==> c[1] < |prev|)
            && prev[c[0]] == REQ_SLOT_TAG_NONE
            && LinksOk(chains[e := c[1..]],
                       if |c| == 1 then prev else prev[c[1] := REQ_SLOT_TAG_NONE],
                       next[c[0] := REQ_SLOT_TAG_NONE],
                       if |c| == 1 then tails[e := REQ_SLOT_TAG_NONE] else tails)
  {
    hide Chain, Loose;
    var c := chains[e];
    ChainPopped(c, prev, next);
    ApartPopped(chains, e);
    var prev', next', chains' := PoppedPrev(c, prev), PoppedNext(c, next), chains[e := c[1..]];
    forall f | 0 <= f < |chains| && f != e
      ensures Chain(chains[f], prev', next', REQ_SLOT_TAG_NONE)
    {
      ChainBounds(chains[f], prev, next, REQ_SLOT_TAG_NONE);
      ChainFrame(chains[f], prev, next, prev', next', REQ_SLOT_TAG_NONE);
    }
    forall t: nat | t < |prev| && Loose(chains', t)
      ensures prev'[t] == next'[t] == REQ_SLOT_TAG_NONE
    {
      LooseUpdated(chains, e, c[1..], t);
      assert c == [c[0]] + c[1..];
    }
  }

  // ---------- links in place ----------

  lemma EmptyLinks(chains: seq<seq<nat>>, prev: seq<nat>, next: seq<nat>, tails: seq<nat>)
    requires |prev| == |next| <= REQ_SLOT_TAG_NONE && |tails| == |chains|
    requires (forall e :: 0 <= e < |chains| ==> chains[e] == [] && tails[e] == REQ_SLOT_TAG_NONE)
    requires forall r :: 0 <= r < |prev| ==> prev[r] == next[r] == REQ_SLOT_TAG_NONE
    ensures LinksOk(chains, prev, next, tails)
  {
  }

  lemma TailNone(chains: seq<seq<nat>>, prev: seq<nat>, next: seq<nat>, tails: seq<nat>, e: nat)
    requires LinksOk(chains, prev, next, tails) && e < |chains|
    ensures tails[e] == REQ_SLOT_TAG_NONE <==> chains[e] == []
  {
    ChainBounds(chains[e], prev, next, REQ_SLOT_TAG_NONE);
  }

  /** Only the first request of a chain has no predecessor. */
  lemma HeadHasNoPrev(chains: seq<seq<nat>>, prev: seq<nat>, next: seq<nat>, tails: seq<nat>, r: nat, e: nat)
    requires LinksOk(chains, prev, next, tails) && r < |prev| && e < |chains|
    ensures r in chains[e] ==> (prev[r] == REQ_SLOT_TAG_NONE <==> chains[e][0] == r)
    ensures Loose(chains, r) ==> prev[r] == REQ_SLOT_TAG_NONE
  {
    if r in chains[e] {
      var i :| 0 <= i < |chains[e]| && chains[e][i] == r;
      assert LinkedAt(chains[e], i, prev, next, REQ_SLOT_TAG_NONE);
      ChainBounds(chains[e], prev, next, REQ_SLOT_TAG_NONE);
    }
  }

  /** The blocking links of all slots, and the last request of every buffer entry. */
  class BlockingLinks {
    const prevBlockingReq: array<nat>
    const nextBlockingReq: array<nat>
    const blockingReqTail: array<nat>
    ghost var chains: seq<seq<nat>>

    ghost function Repr(): set<object> {
      {this, prevBlockingReq, nextBlockingReq, blockingReqTail}
    }

    ghost predicate Valid()
      reads Repr()
    {
      && prevBlockingReq != nextBlockingReq && prevBlockingReq != blockingReqTail && nextBlockingReq != blockingReqTail
      && LinksOk(chains, prevBlockingReq[..], nextBlockingReq[..], blockingReqTail[..])
    }

    constructor (n: nat, m: nat)
      requires n <= REQ_SLOT_TAG_NONE
      ensures Valid() && fresh(Repr()) && chains == seq(m, _ => []) && prevBlockingReq.Length == n
    {
      prevBlockingReq := new nat[n](_ => REQ_SLOT_TAG_NONE);
      nextBlockingReq := new nat[n](_ => REQ_SLOT_TAG_NONE);
      blockingReqTail := new nat[m](_ => REQ_SLOT_TAG_NONE);
      chains := seq(m, _ => []);
      new;
      EmptyLinks(chains, prevBlockingReq[..], nextBlockingReq[..], blockingReqTail[..]);
    }

    /** UpdateDataBufEntryInfoBlockingReq and UpdateTempDataBufEntryInfoBlockingReq. */
    method Append(e: nat, r: nat)
      requires Valid() && e < |chains| && r < prevBlockingReq.Length && Loose(chains, r)
      modifies Repr()
      ensures Valid() && chains == old(chains)[e := old(chains[e]) + [r]]
    {
      ghost var prev: seq<nat>, next: seq<nat>, tails: seq<nat>, c: seq<nat> := prevBlockingReq[..],
          nextBlockingReq[..], blockingReqTail[..], chains[e];
      LinksAppend(chains, prev, next, tails, e, r);
      TailNone(chains, prev, next, tails, e);
      hide LinksOk, Loose;
      var tail := blockingReqTail[e];
      if tail != REQ_SLOT_TAG_NONE {
        prevBlockingReq[r] := tail;
        nextBlockingReq[tail] := r;
      }
      blockingReqTail[e] := r;
      assert prevBlockingReq[..] == (if c == [] then prev else prev[r := tail])
          && nextBlockingReq[..] == (if c == [] then next else next[tail := r]);
      assert blockingReqTail[..] == tails[e := r];
      chains := chains[e := c + [r]];
    }

    /** CheckBufDep. */
    method CheckBufDep(r: nat, ghost e: nat) returns (pass: bool)
      requires Valid() && r < prevBlockingReq.Length && (Loose(chains, r) || (e < |chains| && r in chains[e]))
      ensures pass <==> Loose(chains, r) || (e < |chains| && chains[e] != [] && chains[e][0] == r)
    {
      pass := prevBlockingReq[r] == REQ_SLOT_TAG_NONE;
      if e < |chains| {
        HeadHasNoPrev(chains, prevBlockingReq[..], nextBlockingReq[..], blockingReqTail[..], r, e);
      }
      assert Loose(chains, r) ==> pass;
      assert Loose(chains, r) && e < |chains| ==> r !in chains[e];
    }

    /**
     The first part of ReleaseBlockedByBufDepReq: the first request of chain e leaves it; its
     successor, if any, is returned.
     */
    method Pop(e: nat, r: nat) returns (target: nat)
      requires Valid() && e < |chains| && chains[e] != [] && chains[e][0] == r < prevBlockingReq.Length
      modifies Repr()
      ensures Valid() && chains == old(chains)[e := old(chains[e])[1..]]
      ensures target == if |old(chains[e])| > 1 then old(chains[e])[1] else REQ_SLOT_TAG_NONE
      ensures |old(chains[e])| > 1 ==> target < prevBlockingReq.Length
    {
      ghost var prev: seq<nat>, next: seq<nat>, tails: seq<nat>, c: seq<nat> := prevBlockingReq[..],
          nextBlockingReq[..], blockingReqTail[..], chains[e];
      LinksPop(chains, prev, next, tails, e);
      TailIsHead(chains, prev, next, tails, e);
      hide LinksOk;
      target := REQ_SLOT_TAG_NONE;
      if nextBlockingReq[r] != REQ_SLOT_TAG_NONE {
        target := nextBlockingReq[r];
        prevBlockingReq[target] := REQ_SLOT_TAG_NONE;
        nextBlockingReq[r] := REQ_SLOT_TAG_NONE;
      }
      if blockingReqTail[e] == r {
        blockingReqTail[e] := REQ_SLOT_TAG_NONE;
      }
      assert prevBlockingReq[..] == if |c| == 1 then prev else prev[c[1] := REQ_SLOT_TAG_NONE];
      assert nextBlockingReq[..] == next[r := REQ_SLOT_TAG_NONE];
      assert blockingReqTail[..] == if |c| == 1 then tails[e := REQ_SLOT_TAG_NONE] else tails;
      chains := chains[e := c[1..]];
    }
  }

  /** The entry's last request is the completing one exactly if it is alone. */
  lemma TailIsHead(chains: seq<seq<nat>>, prev: seq<nat>, next: seq<nat>, tails: seq<nat>, e: nat)
    requires LinksOk(chains, prev, next, tails) && e < |chains| && chains[e] != []
    ensures tails[e] == chains[e][0] <==> |chains[e]| == 1
    ensures forall i :: 0 <= i < |chains[e]| ==> chains[e][i] < REQ_SLOT_TAG_NONE
  {
    ChainBounds(chains[e], prev, next, REQ_SLOT_TAG_NONE);
  }

}
