/**
 Doubly linked lists threaded through a table: entry x keeps its neighbours in prev[x] and next[x],
 list q keeps its ends in head[q] and tail[q]. The firmware writes this out separately for request
 queues, free blocks, garbage-collection buckets, buffer entries, hash chains and ways.
 */
module IndexLists {
  import opened Common

  /** The links of the entry at position i of s lead to its neighbours in s. */
  ghost predicate LinkedAt(s: seq<nat>, i: nat, prev: seq<nat>, next: seq<nat>, none: nat)
    requires i < |s| && |prev| == |next|
  {
    && s[i] < |prev|
    && prev[s[i]] == (if i == 0 then none else s[i - 1])
    && next[s[i]] == (if i + 1 == |s| then none else s[i + 1])
  }

  /** s is spelled out by the links, in both directions. */
  ghost predicate Chain(s: seq<nat>, prev: seq<nat>, next: seq<nat>, none: nat) {
    |prev| == |next| && forall i :: 0 <= i < |s| ==> LinkedAt(s, i, prev, next, none)
  }

  ghost predicate EndsAt(s: seq<nat>, h: nat, t: nat, none: nat) {
    if s == [] then h == none && t == none else h == s[0] && t == s[|s| - 1]
  }

  /** No entry is in two lists or twice in one. */
  ghost predicate Apart(lists: seq<seq<nat>>) {
    && (forall q :: 0 <= q < |lists| ==> Distinct(lists[q]))
    && (forall q, r, y :: 0 <= q < |lists| && 0 <= r < |lists| && y in lists[q] && y in lists[r] ==> q == r)
  }

  /** x is in no list. */
  ghost predicate Loose(lists: seq<seq<nat>>, x: nat) {
    forall q :: 0 <= q < |lists| ==> x !in lists[q]
  }

  lemma ChainBounds(s: seq<nat>, prev: seq<nat>, next: seq<nat>, none: nat)
    requires Chain(s, prev, next, none)
    ensures forall i :: 0 <= i < |s| ==> s[i] < |prev|
    ensures forall y :: y in s ==> y < |prev|
  {
    forall i | 0 <= i < |s|
      ensures s[i] < |prev|
    {
      assert LinkedAt(s, i, prev, next, none);
    }
  }

  lemma ChainFrame(s: seq<nat>, prev: seq<nat>, next: seq<nat>, prev': seq<nat>, next': seq<nat>, none: nat)
    requires Chain(s, prev, next, none) && |prev'| == |next'| == |prev|
    requires forall y :: y in s ==> y < |prev| && prev'[y] == prev[y] && next'[y] == next[y]
    ensures Chain(s, prev', next', none)
  {
    forall i | 0 <= i < |s|
      ensures LinkedAt(s, i, prev', next', none)
    {
      assert LinkedAt(s, i, prev, next, none) && s[i] in s;
    }
  }

  lemma ChainPutTail(s: seq<nat>, x: nat, prev: seq<nat>, next: seq<nat>, none: nat)
    requires Chain(s, prev, next, none) && x < |prev| && x !in s && Distinct(s)
    requires s != [] ==> s[|s| - 1] < |prev|
    ensures var next' := if s == [] then next else next[s[|s| - 1] := x];
            Chain(s + [x], prev[x := if s == [] then none else s[|s| - 1]], next'[x := none], none)
  {
    var next' := (if s == [] then next else next[s[|s| - 1] := x])[x := none];
    var prev' := prev[x := if s == [] then none else s[|s| - 1]];
    forall i | 0 <= i < |s + [x]|
      ensures LinkedAt(s + [x], i, prev', next', none)
    {
      assert i < |s| ==> LinkedAt(s, i, prev, next, none) && s[i] in s;
    }
  }

  lemma ChainPutHead(s: seq<nat>, x: nat, prev: seq<nat>, next: seq<nat>, none: nat)
    requires Chain(s, prev, next, none) && x < |prev| && x !in s && Distinct(s)
    requires s != [] ==> s[0] < |prev|
    ensures var prev' := if s == [] then prev else prev[s[0] := x];
            Chain([x] + s, prev'[x := none], next[x := if s == [] then none else s[0]], none)
  {
    var prev' := (if s == [] then prev else prev[s[0] := x])[x := none];
    var next' := next[x := if s == [] then none else s[0]];
    forall i | 0 <= i < |[x] + s|
      ensures LinkedAt([x] + s, i, prev', next', none)
    {
      assert i > 0 ==> LinkedAt(s, i - 1, prev, next, none) && s[i - 1] in s;
    }
  }

  lemma ChainUnlink(s: seq<nat>, i: nat, prev: seq<nat>, next: seq<nat>, none: nat)
    requires Chain(s, prev, next, none) && i < |s| && Distinct(s)
    requires forall j :: 0 <= j < |s| ==> s[j] < |prev|
    ensures var next' := if i == 0 then next else next[s[i - 1] := if i + 1 == |s| then none else s[i + 1]];
            var prev' := if i + 1 == |s| then prev else prev[s[i + 1] := if i == 0 then none else s[i - 1]];
            Chain(RemoveAt(s, i), prev', next', none)
  {
    var next' := if i == 0 then next else next[s[i - 1] := if i + 1 == |s| then none else s[i + 1]];
    var prev' := if i + 1 == |s| then prev else prev[s[i + 1] := if i == 0 then none else s[i - 1]];
    var r := RemoveAt(s, i);
    forall j | 0 <= j < |r|
      ensures LinkedAt(r, j, prev', next', none)
    {
      var k := if j < i then j else j + 1;
      assert LinkedAt(s, k, prev, next, none) && r[j] == s[k];
    }
  }

  /** The backward links after the entry at position i of s was bypassed. */
  ghost function BypassPrev(s: seq<nat>, i: nat, prev: seq<nat>, none: nat): (r: seq<nat>)
    requires i < |s| && (forall j :: 0 <= j < |s| ==> s[j] < |prev|)
    ensures |r| == |prev| && forall y :: 0 <= y < |r| && y !in s ==> r[y] == prev[y]
  {
    if i + 1 == |s| then prev else prev[s[i + 1] := if i == 0 then none else s[i - 1]]
  }

  ghost function BypassNext(s: seq<nat>, i: nat, next: seq<nat>, none: nat): (r: seq<nat>)
    requires i < |s| && (forall j :: 0 <= j < |s| ==> s[j] < |next|)
    ensures |r| == |next| && forall y :: 0 <= y < |r| && y !in s ==> r[y] == next[y]
  {
    if i == 0 then next else next[s[i - 1] := if i + 1 == |s| then none else s[i + 1]]
  }

  ghost predicate Chains(lists: seq<seq<nat>>, prev: seq<nat>, next: seq<nat>, none: nat) {
    forall q :: 0 <= q < |lists| ==> Chain(lists[q], prev, next, none)
  }

  lemma BypassKeeps(lists: seq<seq<nat>>, q: nat, i: nat, prev: seq<nat>, next: seq<nat>, none: nat)
    requires Apart(lists) && Chains(lists, prev, next, none) && q < |lists| && i < |lists[q]|
    requires |prev| == |next|
    ensures forall j :: 0 <= j < |lists[q]| ==> lists[q][j] < |prev|
    ensures var s := lists[q];
            var lists' := lists[q := Without(s, s[i])];
            && Apart(lists') && Chains(lists', BypassPrev(s, i, prev, none), BypassNext(s, i, next, none), none)
            && Without(s, s[i]) == RemoveAt(s, i) && Loose(lists', s[i])
            && forall y :: Loose(lists, y) ==> Loose(lists', y)
  {
    var s := lists[q];
    ChainBounds(s, prev, next, none);
    ChainUnlink(s, i, prev, next, none);
    WithoutAt(s, i);
    WithoutMembers(s, s[i]);
    forall r | 0 <= r < |lists| && r != q
      ensures Chain(lists[r], BypassPrev(s, i, prev, none), BypassNext(s, i, next, none), none)
    {
      ChainBounds(lists[r], prev, next, none);
      forall y | y in lists[r]
        ensures y !in s
      {
      }
      ChainFrame(lists[r], prev, next, BypassPrev(s, i, prev, none), BypassNext(s, i, next, none), none);
    }
    assert s[i] in s;
  }

  /** 0, 1, ..., n - 1 */
  function Ascending(n: nat): (r: seq<nat>)
    ensures |r| == n && forall i :: 0 <= i < n ==> r[i] == i
  {
    seq(n, i requires 0 <= i < n => i)
  }

  class IndexLists {
    const none: nat
    const prev: array<nat>
    const next: array<nat>
    const head: array<nat>
    const tail: array<nat>
    /** What the links spell out, list by list. */
    ghost var lists: seq<seq<nat>>

    ghost function Repr(): set<object> {
      {this, prev, next, head, tail}
    }

    ghost predicate Valid()
      reads Repr()
    {
      && prev != next && prev != head && prev != tail && next != head && next != tail && head != tail
      && prev.Length == next.Length <= none && head.Length == tail.Length == |lists|
      && Apart(lists)
      && (forall q :: 0 <= q < |lists| ==> EndsAt(lists[q], head[q], tail[q], none))
      && Chains(lists, prev[..], next[..], none)
    }

    /** The links of x lead nowhere. */
    ghost predicate Clean(x: nat)
      requires x < prev.Length && x < next.Length
      reads prev, next
    {
      prev[x] == none && next[x] == none
    }

    /** Entries outside all lists keep their links, except those in s. */
    twostate predicate LooseKept(s: set<nat>)
      requires next.Length == prev.Length
      reads this, prev, next
    {
      forall y :: 0 <= y < prev.Length && Loose(old(lists), y) && y !in s ==>
          prev[y] == old(prev[y]) && next[y] == old(next[y])
    }

    /** A list without head, or without tail, is empty, and the other way round. */
    lemma Ends(q: nat)
      requires Valid() && q < |lists|
      ensures head[q] == none <==> lists[q] == []
      ensures tail[q] == none <==> lists[q] == []
      ensures forall x :: x in lists[q] ==> x < prev.Length
    {
      ChainBounds(lists[q], prev[..], next[..], none);
    }

    /** The links of the entry at position i of list q. */
    lemma At(q: nat, i: nat)
      requires Valid() && q < |lists| && i < |lists[q]|
      ensures lists[q][i] < prev.Length
      ensures prev[lists[q][i]] == if i == 0 then none else lists[q][i - 1]
      ensures next[lists[q][i]] == if i + 1 == |lists[q]| then none else lists[q][i + 1]
    {
      assert LinkedAt(lists[q], i, prev[..], next[..], none);
    }

    /** n entries, all loose, and m empty lists. */
    constructor (n: nat, m: nat, none: nat)
      requires n <= none
      ensures Valid() && fresh(Repr()) && this.none == none
      ensures prev.Length == n && lists == seq(m, _ => [])
      ensures forall x :: 0 <= x < n ==> Clean(x)
    {
      this.none := none;
      prev := new nat[n](_ => none);
      next := new nat[n](_ => none);
      head := new nat[m](_ => none);
      tail := new nat[m](_ => none);
      lists := seq(m, _ => []);
    }

    /** The links of the lists other than q survive what happened to the entries of touched. */
    lemma OthersKept(ls: seq<seq<nat>>, q: nat, touched: set<nat>, p: seq<nat>, n: seq<nat>, p': seq<nat>, n': seq<nat>)
      requires |p| == |n| == |p'| == |n'|
      requires forall r :: 0 <= r < |ls| ==> Chain(ls[r], p, n, none)
      requires forall r, y :: 0 <= r < |ls| && r != q && y in ls[r] ==> y !in touched
      requires forall y :: 0 <= y < |p| && y !in touched ==> p'[y] == p[y] && n'[y] == n[y]
      ensures forall r :: 0 <= r < |ls| && r != q ==> Chain(ls[r], p', n', none)
    {
      forall r | 0 <= r < |ls| && r != q
        ensures Chain(ls[r], p', n', none)
      {
        ChainBounds(ls[r], p, n, none);
        ChainFrame(ls[r], p, n, p', n', none);
      }
    }

    /** n entries, all in list 0 in ascending order, as the Init functions link them; the other lists are empty. */
    constructor Filled(n: nat, m: nat, none: nat)
      requires 0 < n <= none && m > 0
      ensures Valid() && fresh(Repr()) && this.none == none
      ensures prev.Length == n && lists == seq(m, _ => [])[0 := Ascending(n)]
    {
      this.none := none;
      prev := new nat[n](x requires 0 <= x < n => if x == 0 then none else x - 1);
      next := new nat[n](x requires 0 <= x < n => if x == n - 1 then none else x + 1);
      head := new nat[m](q => if q == 0 then 0 else none);
      tail := new nat[m](q => if q == 0 then n - 1 else none);
      lists := seq(m, _ => [])[0 := Ascending(n)];
      new;
      forall r | 0 <= r < |lists|
        ensures Chain(lists[r], prev[..], next[..], none)
      {
        forall i | 0 <= i < |lists[r]|
          ensures LinkedAt(lists[r], i, prev[..], next[..], none)
        {
        }
      }
    }

    /** A loose entry at either end of list q keeps the lists apart. */
    lemma ApartWith(q: nat, x: nat, s: seq<nat>)
      requires Apart(lists) && q < |lists| && Loose(lists, x) && Distinct(s) && forall y :: y in s ==>
          y == x || y in lists[q]
      ensures Apart(lists[q := s])
    {
    }

    /** The links with entry x behind the last of list q. */
    lemma TailPut(q: nat, x: nat) returns (p': seq<nat>, n': seq<nat>)
      requires Valid() && q < |lists| && x < prev.Length && Loose(lists, x)
      ensures lists[q] != [] ==> lists[q][|lists[q]| - 1] < next.Length
      ensures var s := lists[q]; var old' := if s == [] then next[..] else next[..][s[|s| - 1] := x];
              p' == prev[..][x := if s == [] then none else s[|s| - 1]] && n' == old'[x := none]
      ensures Chains(lists[q := lists[q] + [x]], p', n', none) && Apart(lists[q := lists[q] + [x]])
      ensures |p'| == |n'| == prev.Length == next.Length
      ensures forall y :: 0 <= y < prev.Length && Loose(lists, y) && y != x ==> p'[y] == prev[y] && n'[y] == next[y]
    {
      var p: seq<nat>, n: seq<nat>, s: seq<nat> := prev[..], next[..], lists[q];
      ChainBounds(s, p, n, none);
      ChainPutTail(s, x, p, n, none);
      p', n' := p[x := if s == [] then none else s[|s| - 1]], (if s == [] then n else n[s[|s| - 1] := x])[x := none];
      ApartWith(q, x, s + [x]);
      hide Chain;
      OthersKept(lists, q, {x} + (set y | y in s), p, n, p', n');
    }

    /** The links with entry x before the first of list q. */
    lemma HeadPut(q: nat, x: nat) returns (p': seq<nat>, n': seq<nat>)
      requires Valid() && q < |lists| && x < prev.Length && Loose(lists, x)
      ensures lists[q] != [] ==> lists[q][0] < next.Length == prev.Length
      ensures var s := lists[q]; var old' := if s == [] then prev[..] else prev[..][s[0] := x];
              p' == old'[x := none] && n' == next[..][x := if s == [] then none else s[0]]
      ensures Chains(lists[q := [x] + lists[q]], p', n', none) && Apart(lists[q := [x] + lists[q]])
      ensures |p'| == |n'| == prev.Length == next.Length
      ensures forall y :: 0 <= y < prev.Length && Loose(lists, y) && y != x ==> p'[y] == prev[y] && n'[y] == next[y]
    {
      var p: seq<nat>, n: seq<nat>, s: seq<nat> := prev[..], next[..], lists[q];
      ChainBounds(s, p, n, none);
      ChainPutHead(s, x, p, n, none);
      p', n' := (if s == [] then p else p[s[0] := x])[x := none], n[x := if s == [] then none else s[0]];
      ApartWith(q, x, [x] + s);
      hide Chain;
      OthersKept(lists, q, {x} + (set y | y in s), p, n, p', n');
    }

    /** PutToFbList, PutToGcVictimList, PutToXxxReqQ, PutToDataBufHashList, PutToNandXxxList. */
    method PutTail(q: nat, x: nat)
      requires Valid() && q < |lists| && x < prev.Length && Loose(lists, x)
      modifies Repr()
      ensures Valid() && lists == old(lists)[q := old(lists[q]) + [x]]
      ensures LooseKept({x})
    {
      Ends(q);
      ghost var s: seq<nat> := lists[q];
      ghost var p', n' := TailPut(q, x);
      hide Chain, Chains, Apart, Loose;
      if tail[q] != none {
        prev[x] := tail[q];
        next[x] := none;
        next[tail[q]] := x;
        tail[q] := x;
      } else {
        prev[x] := none;
        next[x] := none;
        head[q] := x;
        tail[q] := x;
      }
      assert prev[..] == p' && next[..] == n';
      lists := lists[q := s + [x]];
    }

    /** Insertion before the head, as the buffer's recency list does it. */
    method PutHead(q: nat, x: nat)
      requires Valid() && q < |lists| && x < prev.Length && Loose(lists, x)
      modifies Repr()
      ensures Valid() && lists == old(lists)[q := [x] + old(lists[q])]
      ensures LooseKept({x})
    {
      Ends(q);
      ghost var s: seq<nat> := lists[q];
      ghost var p', n' := HeadPut(q, x);
      hide Chain, Chains, Apart, Loose;
      if head[q] != none {
        prev[x] := none;
        next[x] := head[q];
        prev[head[q]] := x;
        head[q] := x;
      } else {
        prev[x] := none;
        next[x] := none;
        head[q] := x;
        tail[q] := x;
      }
      assert prev[..] == p' && next[..] == n';
      lists := lists[q := [x] + s];
    }

    /** The links of list q once entry x, at position i if it is there, is bypassed. */
    ghost predicate Bypassed(q: nat, x: nat, i: nat, s: seq<nat>, p: seq<nat>, n: seq<nat>, s': seq<nat>, p': seq<nat>,
            n': seq<nat>)
      requires |p| == |n|
    {
      && (forall j :: 0 <= j < |s| ==> s[j] < |p|)
      && if s == [] then s' == [] && p' == p && n' == n
         else i < |s| && s[i] == x && s' == RemoveAt(s, i) && p' == BypassPrev(s, i, p, none) && n' == BypassNext(s, i,
             n, none)
    }

    lemma Bypassing(q: nat, x: nat) returns (i: nat, s': seq<nat>, p': seq<nat>, n': seq<nat>)
      requires Valid() && q < |lists| && x < prev.Length
      requires x in lists[q] || (lists[q] == [] && Clean(x))
      ensures s' == Without(lists[q], x) && Bypassed(q, x, i, lists[q], prev[..], next[..], s', p', n')
      ensures Chains(lists[q := s'], p', n', none) && Apart(lists[q := s'])
      ensures |p'| == |n'| == prev.Length && forall y :: 0 <= y < |p'| && Loose(lists, y) ==>
          p'[y] == prev[y] && n'[y] == next[y]
      ensures p'[x] == prev[x] && n'[x] == next[x] && (x in lists[q] ==> Loose(lists[q := s'], x))
      ensures forall y :: Loose(lists, y) ==> Loose(lists[q := s'], y)
      ensures x in lists[q] ==> LinkedAt(lists[q], i, prev[..], next[..], none)
    {
      var p: seq<nat>, n: seq<nat>, s: seq<nat> := prev[..], next[..], lists[q];
      i, s', p', n' := 0, [], p, n;
      if x in s {
        i :| 0 <= i < |s| && s[i] == x;
        BypassKeeps(lists, q, i, p, n, none);
        assert LinkedAt(s, i, p, n, none);
        s', p', n' := RemoveAt(s, i), BypassPrev(s, i, p, none), BypassNext(s, i, n, none);
      } else {
        assert lists[q := []] == lists;
      }
    }

    /** Links the neighbours of entry x to each other, or the list's ends to the neighbour there is. */
    method Bypass(q: nat, x: nat, ghost i: nat, ghost s: seq<nat>, ghost s': seq<nat>, ghost p': seq<nat>,
            ghost n': seq<nat>)
      requires prev != next && prev != head && prev != tail && next != head && next != tail && head != tail
      requires prev.Length == next.Length <= none && head.Length == tail.Length && q < head.Length && x < prev.Length
      requires Bypassed(q, x, i, s, prev[..], next[..], s', p', n') && EndsAt(s, head[q], tail[q], none)
      requires if s == [] then Clean(x) else i < |s| && LinkedAt(s, i, prev[..], next[..], none)
      modifies prev, next, head, tail
      ensures prev[..] == p' && next[..] == n' && EndsAt(s', head[q], tail[q], none)
      ensures forall r :: 0 <= r < head.Length && r != q ==> head[r] == old(head[r]) && tail[r] == old(tail[r])
    {
      var nextX, prevX := next[x], prev[x];
      if nextX != none && prevX != none {
        next[prevX] := nextX;
        prev[nextX] := prevX;
      } else if nextX == none && prevX != none {
        next[prevX] := none;
        tail[q] := prevX;
      } else if nextX != none && prevX == none {
        prev[nextX] := none;
        head[q] := nextX;
      } else {
        head[q] := none;
        tail[q] := none;
      }
    }

    /** Removal of entry x wherever it stands in list q, as the SelectiveGetFrom operations do it. */
    method Unlink(q: nat, x: nat)
      requires Valid() && q < |lists| && x < prev.Length
      requires x in lists[q] || (lists[q] == [] && Clean(x))
      modifies Repr()
      ensures Valid() && lists == old(lists)[q := Without(old(lists[q]), x)]
      ensures LooseKept({}) && prev[x] == old(prev[x]) && next[x] == old(next[x])
      ensures x in old(lists[q]) ==> Loose(lists, x)
      ensures forall y :: Loose(old(lists), y) ==> Loose(lists, y)
    {
      ghost var i, s', p', n' := Bypassing(q, x);
      hide Chain, Chains, Apart, Without, Loose, LinkedAt, EndsAt, Bypassed;
      Bypass(q, x, i, lists[q], s', p', n');
      lists := lists[q := s'];
    }

    /** Removal of the head of a non-empty list; the entry's own links are left as they are. */
    method PopHead(q: nat) returns (x: nat)
      requires Valid() && q < |lists| && lists[q] != []
      modifies Repr()
      ensures x == old(lists[q][0]) && x < prev.Length
      ensures Valid() && lists == old(lists)[q := old(lists[q])[1..]]
      ensures LooseKept({}) && Loose(lists, x)
      ensures forall y :: Loose(old(lists), y) ==> Loose(lists, y)
    {
      ghost var p: seq<nat>, n: seq<nat>, s: seq<nat> := prev[..], next[..], lists[q];
      BypassKeeps(lists, q, 0, p, n, none);
      assert LinkedAt(s, 0, p, n, none);
      ghost var p', n' := BypassPrev(s, 0, p, none), BypassNext(s, 0, n, none);
      assert Without(s, s[0]) == s[1..];
      assert Chains(lists[q := s[1..]], p', n', none) && Apart(lists[q := s[1..]]);
      hide Chain, Chains, Apart, Without;
      x := head[q];
      if next[x] != none {
        head[q] := next[x];
        prev[next[x]] := none;
      } else {
        head[q] := none;
        tail[q] := none;
      }
      assert prev[..] == p' && next[..] == n';
      lists := lists[q := s[1..]];
    }

    /** Clears the links of a loose entry. */
    method Reset(x: nat)
      requires Valid() && x < prev.Length && Loose(lists, x)
      modifies prev, next
      ensures Valid() && lists == old(lists) && Clean(x) && LooseKept({x})
    {
      ghost var p: seq<nat>, n: seq<nat> := prev[..], next[..];
      next[x] := none;
      prev[x] := none;
      OthersKept(lists, |lists|, {x}, p, n, prev[..], next[..]);
    }
  }
}
