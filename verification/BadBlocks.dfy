/**
 Bad blocks: every bad user block is remapped to a good reserved block of its logical unit as long as
 there are any, and a request's row address leads to the remapped block and back.
 */
module BadBlocks {
  import opened IndexLists

  // ---------- one logical unit ----------

  /** The first good block from r on, or the end of the unit. */
  function NextGood(bad: seq<bool>, r: nat): (k: nat)
    requires r <= |bad|
    ensures r <= k <= |bad| && (k < |bad| ==> !bad[k]) && forall i :: r <= i < k ==> bad[i]
    decreases |bad| - r
  {
    if r == |bad| || !bad[r] then r else NextGood(bad, r + 1)
  }

  /** The remap table of the unit, the next reserved block to try, and how many bad blocks found no replacement. */
  datatype Lun = Lun(remap: seq<nat>, reserved: nat, failed: nat)

  /** What RemapBadBlock does about block b of the unit. */
  function RemapOne(bad: seq<bool>, l: Lun, b: nat): Lun
    requires b < |bad| == |l.remap| && l.reserved <= |bad|
  {
    if !bad[b] then l
    else if l.reserved < |bad| then
      var r := NextGood(bad, l.reserved);
      if r < |bad| then Lun(l.remap[b := r], r + 1, l.failed) else l.(reserved := r, failed := l.failed + 1)
    else l.(failed := l.failed + 1)
  }

  /** The unit after its first b user blocks were looked at; reserved blocks begin at user. */
  function RemapLun(bad: seq<bool>, user: nat, b: nat): (l: Lun)
    requires b <= user <= |bad|
    ensures |l.remap| == |bad| && user <= l.reserved <= |bad|
  {
    if b == 0 then Lun(Ascending(|bad|), user, 0) else RemapOne(bad, RemapLun(bad, user, b - 1), b - 1)
  }

  /** How many of blocks from, ..., to - 1 are bad (or good). */
  function Count(bad: seq<bool>, from: nat, to: nat, what: bool): nat
    requires from <= to <= |bad|
  {
    if from == to then 0 else Count(bad, from, to - 1, what) + if bad[to - 1] == what then 1 else 0
  }

  lemma {:induction false} CountSplit(bad: seq<bool>, from: nat, mid: nat, to: nat, what: bool)
    requires from <= mid <= to <= |bad|
    ensures Count(bad, from, to, what) == Count(bad, from, mid, what) + Count(bad, mid, to, what)
  {
    if mid < to {
      CountSplit(bad, from, mid, to - 1, what);
    }
  }

  lemma {:induction false} CountNone(bad: seq<bool>, from: nat, to: nat, what: bool)
    requires from <= to <= |bad| && forall i :: from <= i < to ==> bad[i] != what
    ensures Count(bad, from, to, what) == 0
  {
    if from < to {
      CountNone(bad, from, to - 1, what);
    }
  }

  /** Where block i was led: to itself, or, if it is bad, to a good reserved block. */
  ghost predicate Led(bad: seq<bool>, user: nat, l: Lun, i: nat)
    requires i < |bad| == |l.remap|
  {
    l.remap[i] == i || (bad[i] && user <= l.remap[i] < l.reserved <= |bad| && !bad[l.remap[i]])
  }

  ghost predicate Remapped(l: Lun, i: nat)
    requires i < |l.remap|
  {
    l.remap[i] != i
  }

  /** How many of the first n blocks the table leads to a bad block. */
  function BadTargets(bad: seq<bool>, remap: seq<nat>, n: nat): nat
    requires n <= |remap|
  {
    if n == 0 then 0
    else BadTargets(bad, remap, n - 1) + if remap[n - 1] < |bad| && bad[remap[n - 1]] then 1 else 0
  }

  lemma {:induction false} BadTargetsFrame(bad: seq<bool>, remap: seq<nat>, remap': seq<nat>, n: nat)
    requires n <= |remap| == |remap'| && forall i :: 0 <= i < n ==> remap'[i] == remap[i]
    ensures BadTargets(bad, remap', n) == BadTargets(bad, remap, n)
  {
    if n > 0 {
      BadTargetsFrame(bad, remap, remap', n - 1);
    }
  }

  lemma {:induction false} NoBadTargets(bad: seq<bool>, remap: seq<nat>, n: nat)
    requires n <= |remap| && BadTargets(bad, remap, n) == 0
    ensures forall i :: 0 <= i < n && remap[i] < |bad| ==> !bad[remap[i]]
  {
    if n > 0 {
      NoBadTargets(bad, remap, n - 1);
    }
  }

  ghost predicate LunOk(bad: seq<bool>, user: nat, b: nat, l: Lun) {
    && b <= user <= l.reserved <= |bad| == |l.remap|
    && (forall i :: 0 <= i < |bad| ==> Led(bad, user, l, i) && (i >= b ==> !Remapped(l, i)))
    && (forall i, j :: 0 <= i < j < b && Remapped(l, i) && Remapped(l, j) ==> l.remap[i] < l.remap[j])
    && Count(bad, 0, b, true) == l.failed + Count(bad, user, l.reserved, false)
    && (l.failed > 0 ==> Count(bad, l.reserved, |bad|, false) == 0)
    && BadTargets(bad, l.remap, b) == l.failed
  }

  lemma RemapOneKeeps(bad: seq<bool>, user: nat, b: nat, l: Lun)
    requires LunOk(bad, user, b, l) && b < user
    ensures LunOk(bad, user, b + 1, RemapOne(bad, l, b))
  {
    var l' := RemapOne(bad, l, b);
    if bad[b] {
      var r := NextGood(bad, l.reserved);
      CountSplit(bad, user, l.reserved, r, false);
      CountNone(bad, l.reserved, r, false);
      CountSplit(bad, l.reserved, r, |bad|, false);
      if r < |bad| {
        CountSplit(bad, r, r + 1, |bad|, false);
      }
    }
    assert Led(bad, user, l, b) && !Remapped(l, b);
    BadTargetsFrame(bad, l.remap, l'.remap, b);
    forall i | 0 <= i < |bad|
      ensures Led(bad, user, l', i) && (i >= b + 1 ==> !Remapped(l', i))
    {
      assert Led(bad, user, l, i) && (i >= b ==> !Remapped(l, i));
    }
    forall i, j | 0 <= i < j < b + 1 && Remapped(l', i) && Remapped(l', j)
      ensures l'.remap[i] < l'.remap[j]
    {
      assert Led(bad, user, l, i) && l'.remap[i] == l.remap[i] && Remapped(l, i);
      assert j < b ==> l'.remap[j] == l.remap[j] && Remapped(l, j);
      assert !Remapped(l, b);
    }
  }

  lemma {:induction false} RemapLunOk(bad: seq<bool>, user: nat, b: nat)
    requires b <= user <= |bad|
    ensures LunOk(bad, user, b, RemapLun(bad, user, b))
  {
    if b == 0 {
      var l := RemapLun(bad, user, 0);
      assert forall i :: 0 <= i < |bad| ==> Led(bad, user, l, i) && !Remapped(l, i);
    } else {
      RemapLunOk(bad, user, b - 1);
      RemapOneKeeps(bad, user, b - 1, RemapLun(bad, user, b - 1));
    }
  }

  /** How many of the unit's bad user blocks its good reserved blocks cannot cover. */
  function Shortage(bad: seq<bool>, user: nat): nat
    requires user <= |bad|
  {
    var need, have := Count(bad, 0, user, true), Count(bad, user, |bad|, false);
    if need > have then need - have else 0
  }

  /**
   Remapping is optimal: the user blocks that the table leads to a bad block are as many as the good
   reserved blocks cannot cover, which is what is counted as failed; good user blocks lead to themselves.
   */
  lemma RemapIsOptimal(bad: seq<bool>, user: nat)
    requires user <= |bad|
    ensures var l := RemapLun(bad, user, user);
            && BadTargets(bad, l.remap, user) == Shortage(bad, user) == l.failed
            && forall i :: 0 <= i < user && !bad[i] ==> l.remap[i] == i
  {
    RemapLunOk(bad, user, user);
    var l := RemapLun(bad, user, user);
    CountSplit(bad, user, l.reserved, |bad|, false);
    forall i | 0 <= i < user && !bad[i]
      ensures l.remap[i] == i
    {
      assert Led(bad, user, l, i);
    }
  }

  /** Two user blocks that lead to good blocks lead to different ones, inside the unit, and never to a bad one. */
  lemma RemapIsInjective(bad: seq<bool>, user: nat, i: nat, j: nat)
    requires i < user <= |bad| && j < user
    ensures var remap := RemapLun(bad, user, user).remap;
            && remap[i] < |bad| && remap[j] < |bad|
            && (bad[remap[i]] ==> remap[i] == i)
            && (i != j && !bad[remap[i]] && !bad[remap[j]] ==> remap[i] != remap[j])
  {
    RemapLunOk(bad, user, user);
    var l := RemapLun(bad, user, user);
    assert Led(bad, user, l, i) && Led(bad, user, l, j);
    assert i != j && Remapped(l, i) && Remapped(l, j) ==> l.remap[i] != l.remap[j];
  }

  // ---------- in place ----------

  /** The bad flags of the unit that begins at physical block base of die d. */
  function BadOf(bad: array2<bool>, d: nat, base: nat, total: nat): (s: seq<bool>)
    requires d < bad.Length0 && base + total <= bad.Length1
    reads bad
    ensures |s| == total && forall i :: 0 <= i < total ==> s[i] == bad[d, base + i]
  {
    seq(total, i requires 0 <= i < total reads bad => bad[d, base + i])
  }

  /** The unit's part of the remap table is as after b blocks. */
  ghost predicate TableAt(bad: array2<bool>, remapped: array2<nat>, d: nat, base: nat, total: nat, l: Lun)
    requires d < remapped.Length0 && base + total <= remapped.Length1 && |l.remap| == total
    reads bad, remapped
  {
    forall i :: 0 <= i < total ==> remapped[d, base + i] == base + l.remap[i]
  }

  /** The remapping of one bad block: reserved is an index into the die, end the end of the unit. */
  method RemapBlock(bad: array2<bool>, remapped: array2<nat>, d: nat, base: nat, ghost total: nat, ghost user: nat,
          b: nat, reserved: nat, end: nat, ghost l: Lun)
    returns (reserved': nat, failed: nat)
    requires d < bad.Length0 == remapped.Length0 && end == base + total <= bad.Length1 == remapped.Length1
    requires b < user <= l.reserved <= total == |l.remap| && reserved == base + l.reserved
        && TableAt(bad, remapped, d, base, total, l)
    modifies remapped
    ensures var l' := RemapOne(BadOf(bad, d, base, total), l, b);
            TableAt(bad, remapped, d, base, total, l') && reserved' == base + l'.reserved
                && failed == l'.failed - l.failed
    ensures forall e, i :: 0 <= e < remapped.Length0 && 0 <= i < remapped.Length1 && !(e == d && base <= i < end) ==>
        remapped[e, i] == old(remapped[e, i])
  {
    reserved', failed := reserved, 0;
    ghost var flags: seq<bool> := BadOf(bad, d, base, total);
    if bad[d, base + b] {
      if reserved' < end {
        var remapFlag := true;
        while bad[d, reserved']
          invariant reserved <= reserved' < end && NextGood(flags, l.reserved) == NextGood(flags, reserved' - base)
          decreases end - reserved'
        {
          reserved' := reserved' + 1;
          if reserved' >= end {
            remapFlag := false;
            break;
          }
        }
        if remapFlag {
          remapped[d, base + b] := reserved';
          reserved' := reserved' + 1;
        } else {
          failed := 1;
        }
      } else {
        failed := 1;
      }
    }
  }

  ghost predicate DieLuns(bad: array2<bool>, remapped: array2<nat>, d: nat, total: nat, l0: Lun, l1: Lun, r0: nat,
          r1: nat, count: nat)
    requires d < remapped.Length0 && remapped.Length1 == 2 * total && |l0.remap| == |l1.remap| == total
    reads bad, remapped
  {
    && TableAt(bad, remapped, d, 0, total, l0) && TableAt(bad, remapped, d, total, total, l1)
    && r0 == l0.reserved && r1 == total + l1.reserved && count == l0.failed + l1.failed
  }

  /** Die d after the first n blocks of both its units were looked at. */
  ghost predicate DieAt(bad: array2<bool>, remapped: array2<nat>, d: nat, total: nat, user: nat, n: nat, r0: nat,
          r1: nat, count: nat)
    requires d < bad.Length0 == remapped.Length0 && bad.Length1 == remapped.Length1 == 2 * total && n <= user <= total
    reads bad, remapped
  {
    DieLuns(bad, remapped, d, total, RemapLun(BadOf(bad, d, 0, total), user, n),
        RemapLun(BadOf(bad, d, total, total), user, n), r0, r1, count)
  }

  /** One block number on one die: first the unit 0 block, then the unit 1 block. */
  method RemapBothUnits(bad: array2<bool>, remapped: array2<nat>, d: nat, total: nat, user: nat, b: nat, r0: nat,
          r1: nat, count: nat)
    returns (r0': nat, r1': nat, count': nat)
    requires d < bad.Length0 == remapped.Length0 && bad.Length1 == remapped.Length1 == 2 * total && b < user <= total
    requires DieAt(bad, remapped, d, total, user, b, r0, r1, count)
    modifies remapped
    ensures DieAt(bad, remapped, d, total, user, b + 1, r0', r1', count')
    ensures forall e, i :: 0 <= e < remapped.Length0 && 0 <= i < remapped.Length1 && e != d ==>
        remapped[e, i] == old(remapped[e, i])
  {
    ghost var l0, l1 := RemapLun(BadOf(bad, d, 0, total), user, b), RemapLun(BadOf(bad, d, total, total), user, b);
    hide RemapLun, RemapOne;
    var f0, f1;
    r0', f0 := RemapBlock(bad, remapped, d, 0, total, user, b, r0, total, l0);
    r1', f1 := RemapBlock(bad, remapped, d, total, total, user, b, r1, 2 * total, l1);
    count' := count + f0 + f1;
    RemapLunStep(BadOf(bad, d, 0, total), user, b);
    RemapLunStep(BadOf(bad, d, total, total), user, b);
  }

  lemma RemapLunStep(bad: seq<bool>, user: nat, b: nat)
    requires b < user <= |bad|
    ensures RemapLun(bad, user, b + 1) == RemapOne(bad, RemapLun(bad, user, b), b)
  {
  }

  /** Both units of die d are remapped; count of its bad user blocks found no replacement. */
  ghost predicate DieDone(bad: array2<bool>, remapped: array2<nat>, d: nat, total: nat, user: nat, count: nat)
    requires d < bad.Length0 == remapped.Length0 && bad.Length1 == remapped.Length1 == 2 * total && user <= total
    reads bad, remapped
  {
    var l0, l1 := RemapLun(BadOf(bad, d, 0, total), user, user), RemapLun(BadOf(bad, d, total, total), user, user);
    TableAt(bad, remapped, d, 0, total, l0) && TableAt(bad, remapped, d, total, total, l1)
        && count == l0.failed + l1.failed
  }

  /** Dies below done are one block number further than the others. */
  ghost predicate DiesAt(bad: array2<bool>, remapped: array2<nat>, total: nat, user: nat, b: nat, done: nat,
          reserved0: seq<nat>, reserved1: seq<nat>, count: seq<nat>)
    requires bad.Length0 == remapped.Length0 && bad.Length1 == remapped.Length1 == 2 * total && b <= user <= total
        && (b < user || done == 0)
    reads bad, remapped
  {
    && |reserved0| == |reserved1| == |count| == bad.Length0
    && (forall d :: 0 <= d < bad.Length0 && d < done ==>
        DieAt(bad, remapped, d, total, user, b + 1, reserved0[d], reserved1[d], count[d]))
    && (forall d :: done <= d < bad.Length0 ==>
        DieAt(bad, remapped, d, total, user, b, reserved0[d], reserved1[d], count[d]))
  }

  /** One block number on the next die. */
  method RemapDie(bad: array2<bool>, remapped: array2<nat>, total: nat, user: nat, b: nat, dieNo: nat, r0: seq<nat>,
          r1: seq<nat>, count: seq<nat>)
    returns (reserved0: seq<nat>, reserved1: seq<nat>, badBlockCount: seq<nat>)
    requires bad.Length0 == remapped.Length0 && bad.Length1 == remapped.Length1 == 2 * total && b < user <= total
        && dieNo < bad.Length0
    requires DiesAt(bad, remapped, total, user, b, dieNo, r0, r1, count)
    modifies remapped
    ensures DiesAt(bad, remapped, total, user, b, dieNo + 1, reserved0, reserved1, badBlockCount)
  {
    hide RemapLun, RemapOne;
    var n0, n1, c := RemapBothUnits(bad, remapped, dieNo, total, user, b, r0[dieNo], r1[dieNo], count[dieNo]);
    reserved0, reserved1, badBlockCount := r0[dieNo := n0], r1[dieNo := n1], count[dieNo := c];
  }

  /** One block number on every die. */
  method RemapBlockNo(bad: array2<bool>, remapped: array2<nat>, total: nat, user: nat, b: nat, r0: seq<nat>,
          r1: seq<nat>, count: seq<nat>)
    returns (reserved0: seq<nat>, reserved1: seq<nat>, badBlockCount: seq<nat>)
    requires bad.Length0 == remapped.Length0 && bad.Length1 == remapped.Length1 == 2 * total && b < user <= total
    requires DiesAt(bad, remapped, total, user, b, 0, r0, r1, count)
    modifies remapped
    ensures DiesAt(bad, remapped, total, user, b + 1, 0, reserved0, reserved1, badBlockCount)
  {
    reserved0, reserved1, badBlockCount := r0, r1, count;
    var dieNo := 0;
    while dieNo < bad.Length0
      invariant 0 <= dieNo <= bad.Length0
          && DiesAt(bad, remapped, total, user, b, dieNo, reserved0, reserved1, badBlockCount)
    {
      reserved0, reserved1, badBlockCount :=
          RemapDie(bad, remapped, total, user, b, dieNo, reserved0, reserved1, badBlockCount);
      dieNo := dieNo + 1;
    }
  }

  /** The largest number of blocks a die is short of. */
  method Largest(count: seq<nat>) returns (max: nat)
    ensures (forall d :: 0 <= d < |count| ==> count[d] <= max)
        && (max == 0 || exists d :: 0 <= d < |count| && count[d] == max)
  {
    max := 0;
    for dieNo := 0 to |count|
      invariant forall d :: 0 <= d < dieNo ==> count[d] <= max
      invariant max == 0 || exists d :: 0 <= d < dieNo && count[d] == max
    {
      if max < count[dieNo] {
        max := count[dieNo];
      }
    }
  }

  /** How many of blocks base, ..., base + n - 1 of die d the table leads to a bad block. */
  ghost function LedToBad(bad: array2<bool>, remapped: array2<nat>, d: nat, base: nat, n: nat): nat
    requires d < bad.Length0 == remapped.Length0 && base + n <= remapped.Length1
    reads bad, remapped
  {
    if n == 0 then 0
    else
      var t := remapped[d, base + n - 1];
      LedToBad(bad, remapped, d, base, n - 1) + if t < bad.Length1 && bad[d, t] then 1 else 0
  }

  lemma {:induction false} LedToBadIs(bad: array2<bool>, remapped: array2<nat>, d: nat, base: nat, total: nat, l: Lun,
          n: nat)
    requires d < bad.Length0 == remapped.Length0 && base + total <= bad.Length1 == remapped.Length1
    requires |l.remap| == total && TableAt(bad, remapped, d, base, total, l) && n <= total
    requires forall i :: 0 <= i < total ==> l.remap[i] < total
    ensures LedToBad(bad, remapped, d, base, n) == BadTargets(BadOf(bad, d, base, total), l.remap, n)
  {
    if n > 0 {
      LedToBadIs(bad, remapped, d, base, total, l, n - 1);
      assert remapped[d, base + (n - 1)] == base + l.remap[n - 1];
    }
  }

  /** Block k of a finished unit leads into the unit, to itself if it is good, and to a good block if none is short. */
  ghost predicate LedWell(bad: array2<bool>, remapped: array2<nat>, d: nat, base: nat, total: nat, k: nat, short: nat)
    requires d < bad.Length0 == remapped.Length0 && base + total <= bad.Length1 == remapped.Length1
        && k < remapped.Length1
    reads bad, remapped
  {
    && base <= remapped[d, k] < base + total && (!bad[d, k] ==> remapped[d, k] == k)
    && (short == 0 ==> !bad[d, remapped[d, k]])
  }

  /** A unit of the finished table: what leads to bad blocks is what could not be helped, and good blocks stay. */
  ghost predicate UnitDone(bad: array2<bool>, remapped: array2<nat>, d: nat, base: nat, total: nat, user: nat)
    requires d < bad.Length0 == remapped.Length0 && base + total <= bad.Length1 == remapped.Length1 && user <= total
    reads bad, remapped
  {
    var short := LedToBad(bad, remapped, d, base, user);
    && short == Shortage(BadOf(bad, d, base, total), user)
    && forall k :: base <= k < base + user ==> LedWell(bad, remapped, d, base, total, k, short)
  }

  lemma UnitIsDone(bad: array2<bool>, remapped: array2<nat>, d: nat, base: nat, total: nat, user: nat)
    requires d < bad.Length0 == remapped.Length0 && base + total <= bad.Length1 == remapped.Length1 && user <= total
    requires TableAt(bad, remapped, d, base, total, RemapLun(BadOf(bad, d, base, total), user, user))
    ensures UnitDone(bad, remapped, d, base, total, user)
    ensures LedToBad(bad, remapped, d, base, user) == RemapLun(BadOf(bad, d, base, total), user, user).failed
  {
    hide RemapLun, BadTargets, LedToBad, Count;
    var flags := BadOf(bad, d, base, total);
    var l := RemapLun(flags, user, user);
    RemapLunOk(flags, user, user);
    RemapIsOptimal(flags, user);
    forall i | 0 <= i < total
      ensures l.remap[i] < total
    {
      assert Led(flags, user, l, i);
    }
    LedToBadIs(bad, remapped, d, base, total, l, user);
    if BadTargets(flags, l.remap, user) == 0 {
      NoBadTargets(flags, l.remap, user);
    }
    forall k | base <= k < base + user
      ensures LedWell(bad, remapped, d, base, total, k, l.failed)
    {
      assert remapped[d, base + (k - base)] == base + l.remap[k - base];
    }
  }

  /** The tables of all dies are finished, and the counts are right. */
  ghost predicate AllDone(bad: array2<bool>, remapped: array2<nat>, total: nat, user: nat, count: seq<nat>)
    requires bad.Length0 == remapped.Length0 == |count| && bad.Length1 == remapped.Length1 == 2 * total
        && user <= total
    reads bad, remapped
  {
    forall d :: 0 <= d < bad.Length0 ==>
      && UnitDone(bad, remapped, d, 0, total, user) && UnitDone(bad, remapped, d, total, total, user)
      && count[d] == LedToBad(bad, remapped, d, 0, user) + LedToBad(bad, remapped, d, total, user)
  }

  lemma DiesAreDone(bad: array2<bool>, remapped: array2<nat>, total: nat, user: nat, count: seq<nat>)
    requires bad.Length0 == remapped.Length0 == |count| && bad.Length1 == remapped.Length1 == 2 * total
        && user <= total
    requires forall d :: 0 <= d < bad.Length0 ==> DieDone(bad, remapped, d, total, user, count[d])
    ensures AllDone(bad, remapped, total, user, count)
  {
    hide RemapLun, UnitDone, TableAt;
    forall d | 0 <= d < bad.Length0
      ensures UnitDone(bad, remapped, d, 0, total, user) && UnitDone(bad, remapped, d, total, total, user)
      ensures count[d] == LedToBad(bad, remapped, d, 0, user) + LedToBad(bad, remapped, d, total, user)
    {
      assert DieDone(bad, remapped, d, total, user, count[d]);
      UnitIsDone(bad, remapped, d, 0, total, user);
      UnitIsDone(bad, remapped, d, total, total, user);
    }
  }

  /**
   RemapBadBlock, from the identity table of InitAddressMap. What is counted for a die are its user
   blocks that the table leads to a bad block, no more than the good reserved blocks fail to cover.
   */
  method RemapBadBlock(bad: array2<bool>, remapped: array2<nat>, total: nat, user: nat)
          returns (badBlockCount: seq<nat>, maxBadBlockCount: nat)
    requires bad.Length0 == remapped.Length0 && bad.Length1 == remapped.Length1 == 2 * total && user <= total
    requires forall d, i :: 0 <= d < remapped.Length0 && 0 <= i < remapped.Length1 ==> remapped[d, i] == i
    modifies remapped
    ensures |badBlockCount| == bad.Length0
    ensures forall d :: 0 <= d < bad.Length0 ==>
        DieDone(bad, remapped, d, total, user, badBlockCount[d]) && badBlockCount[d] <= maxBadBlockCount
    ensures AllDone(bad, remapped, total, user, badBlockCount)
    ensures maxBadBlockCount == 0 || exists d :: 0 <= d < |badBlockCount| && badBlockCount[d] == maxBadBlockCount
  {
    var reserved0: seq<nat>, reserved1: seq<nat> := seq(bad.Length0, _ => user), seq(bad.Length0, _ => total + user);
    badBlockCount := seq(bad.Length0, _ => 0);
    var blockNo := 0;
    while blockNo < user
      invariant 0 <= blockNo <= user
          && DiesAt(bad, remapped, total, user, blockNo, 0, reserved0, reserved1, badBlockCount)
    {
      reserved0, reserved1, badBlockCount :=
          RemapBlockNo(bad, remapped, total, user, blockNo, reserved0, reserved1, badBlockCount);
      blockNo := blockNo + 1;
    }
    assert forall d :: 0 <= d < bad.Length0 ==>
        DieAt(bad, remapped, d, total, user, user, reserved0[d], reserved1[d], badBlockCount[d]);
    maxBadBlockCount := Largest(badBlockCount);
    DiesAreDone(bad, remapped, total, user, badBlockCount);
  }
}
