/**
 The in-storage skip list: sorted levels threaded through a fixed pool of nodes. It is a finite map,
 whatever levels the coin tosses choose, with one exception: searching reads the key of NIL.
 */
module SkipList {
  import opened Common

  const MAX_SKIPLIST_LEVEL: nat := 10

  /** A node's forward pointers; row n belongs to the head, and n is NIL as a pointer. */
  function Row(s: seq<nat>, n: nat, i: nat): nat
    requires i <= |s|
  {
    if i == 0 then n else s[i - 1]
  }

  /** Following the column of forward pointers from the i-th row of the level leads to its i-th node. */
  ghost predicate StepAt(s: seq<nat>, col: seq<nat>, n: nat, i: nat) {
    i <= |s| && Row(s, n, i) < |col| && col[Row(s, n, i)] == if i == |s| then n else s[i]
  }

  ghost predicate LevelOk(s: seq<nat>, col: seq<nat>, n: nat) {
    && |col| == n + 1 && (forall x :: x in s ==> x < n)
    && forall i: nat :: i <= |s| ==> StepAt(s, col, n, i)
  }

  ghost predicate Sorted(s: seq<nat>, key: seq<nat>) {
    && (forall i :: 0 <= i < |s| ==> s[i] < |key|)
    && forall i, j :: 0 <= i < j < |s| ==> key[s[i]] < key[s[j]]
  }

  function Inserted(s: seq<nat>, i: nat, x: nat): (r: seq<nat>)
    requires i <= |s|
    ensures |r| == |s| + 1
    ensures forall y :: y in r <==> y in s || y == x
  {
    assert s == s[..i] + s[i..];
    s[..i] + [x] + s[i..]
  }

  lemma SortedDistinct(s: seq<nat>, key: seq<nat>)
    requires Sorted(s, key)
    ensures Distinct(s)
  {
  }

  lemma RowsDiffer(s: seq<nat>, n: nat, i: nat, j: nat)
    requires Distinct(s) && (forall x :: x in s ==> x < n) && i <= |s| && j <= |s| && i != j
    ensures Row(s, n, i) != Row(s, n, j)
  {
    assert (i > 0 ==> s[i - 1] in s) && (j > 0 ==> s[j - 1] in s);
  }

  lemma LevelInserted(s: seq<nat>, col: seq<nat>, n: nat, i: nat, x: nat)
    requires LevelOk(s, col, n) && Distinct(s) && i <= |s| && x < n && x !in s
    ensures Row(s, n, i) <= n && col[Row(s, n, i)] == (if i == |s| then n else s[i])
    ensures LevelOk(Inserted(s, i, x), col[x := col[Row(s, n, i)]][Row(s, n, i) := x], n)
  {
    var r := Inserted(s, i, x);
    assert StepAt(s, col, n, i);
    assert i > 0 ==> s[i - 1] in s;
    var col' := col[x := col[Row(s, n, i)]][Row(s, n, i) := x];
    forall j: nat | j <= |r|
      ensures StepAt(r, col', n, j)
    {
      if j != i && j != i + 1 {
        var k := if j < i then j else j - 1;
        assert StepAt(s, col, n, k) && Row(r, n, j) == Row(s, n, k) && (k > 0 ==> s[k - 1] in s);
        RowsDiffer(s, n, i, k);
      }
    }
  }

  lemma SortedInserted(s: seq<nat>, key: seq<nat>, i: nat, x: nat)
    requires Sorted(s, key) && i <= |s| && x < |key|
    requires (i > 0 ==> key[s[i - 1]] < key[x]) && (i < |s| ==> key[x] < key[s[i]])
    ensures Sorted(Inserted(s, i, x), key)
  {
    var r := Inserted(s, i, x);
    forall j, k | 0 <= j < k < |r|
      ensures key[r[j]] < key[r[k]]
    {
      assert i > 0 && j < i - 1 ==> key[s[j]] < key[s[i - 1]];
      assert i < |s| && k > i + 1 ==> key[s[i]] < key[s[k - 1]];
    }
  }

  lemma LevelRemoved(s: seq<nat>, col: seq<nat>, n: nat, i: nat)
    requires LevelOk(s, col, n) && Distinct(s) && i < |s|
    ensures Row(s, n, i) <= n && s[i] < n && col[Row(s, n, i)] == s[i]
    ensures LevelOk(RemoveAt(s, i), col[Row(s, n, i) := col[s[i]]], n)
    ensures forall y :: y in RemoveAt(s, i) <==> y in s && y != s[i]
  {
    var r := RemoveAt(s, i);
    assert StepAt(s, col, n, i) && StepAt(s, col, n, i + 1) && s[i] in s;
    var col' := col[Row(s, n, i) := col[s[i]]];
    assert s == s[..i] + [s[i]] + s[i + 1..];
    assert forall y :: y in r ==> y in s;
    assert Row(r, n, i) == Row(s, n, i) && Row(s, n, i + 1) == s[i];
    forall j: nat | j <= |r|
      ensures StepAt(r, col', n, j)
    {
      if j != i {
        var k := if j < i then j else j + 1;
        assert StepAt(s, col, n, k) && Row(r, n, j) == Row(s, n, k);
        RowsDiffer(s, n, i, k);
      }
    }
  }

  lemma SortedRemoved(s: seq<nat>, key: seq<nat>, i: nat)
    requires Sorted(s, key) && i < |s|
    ensures Sorted(RemoveAt(s, i), key)
  {
  }

  /** A level the node is not in is not touched by changes of its row. */
  lemma LevelFrame(s: seq<nat>, col: seq<nat>, n: nat, x: nat, y: nat)
    requires LevelOk(s, col, n) && x < n && x !in s
    ensures LevelOk(s, col[x := y], n)
  {
    var col' := col[x := y];
    forall i: nat | i <= |s|
      ensures StepAt(s, col', n, i)
    {
      assert StepAt(s, col, n, i) && (i > 0 ==> Row(s, n, i) in s);
    }
  }

  lemma SortedFrame(s: seq<nat>, key: seq<nat>, x: nat, k: nat)
    requires Sorted(s, key) && x < |key| && x !in s
    ensures Sorted(s, key[x := k])
  {
    forall i, j | 0 <= i < j < |s|
      ensures key[x := k][s[i]] < key[x := k][s[j]]
    {
      assert s[i] in s && s[j] in s;
    }
  }

  /** i is where key k belongs in the level. */
  ghost predicate Between(s: seq<nat>, key: seq<nat>, k: nat, i: nat)
    requires forall j :: 0 <= j < |s| ==> s[j] < |key|
  {
    && i <= |s| && (forall j :: 0 <= j < i ==> key[s[j]] < k) && (forall j :: i <= j < |s| ==> k <= key[s[j]])
  }

  /** In a sorted level it is enough to look at the neighbours. */
  lemma NeighboursDecide(s: seq<nat>, key: seq<nat>, k: nat, i: nat)
    requires Sorted(s, key) && i <= |s| && (i > 0 ==> key[s[i - 1]] < k) && (i < |s| ==> k <= key[s[i]])
    ensures Between(s, key, k, i)
    ensures i < |s| && key[s[i]] == k <==> exists j :: 0 <= j < |s| && key[s[j]] == k
  {
    forall j | 0 <= j < |s|
      ensures if j < i then key[s[j]] < k else k <= key[s[j]]
    {
      assert j < i - 1 ==> key[s[j]] < key[s[i - 1]];
      assert i < j ==> key[s[i]] < key[s[j]];
    }
    assert i < |s| ==> s[i] in s;
  }

  // ---------- all levels ----------

  ghost predicate LevelsOk(levels: seq<seq<nat>>, cols: seq<seq<nat>>, n: nat, key: seq<nat>) {
    && |levels| == |cols| == MAX_SKIPLIST_LEVEL && |key| == n
    && forall lev :: 0 <= lev < MAX_SKIPLIST_LEVEL ==> LevelOk(levels[lev], cols[lev], n) && Sorted(levels[lev], key)
  }

  /** A node of a level is in every level below. */
  ghost predicate Nested(levels: seq<seq<nat>>) {
    forall lev :: 0 < lev < |levels| ==> Within(levels, lev)
  }

  ghost predicate Within(levels: seq<seq<nat>>, lev: nat)
    requires 0 < lev < |levels|
  {
    forall x :: x in levels[lev] ==> x in levels[lev - 1]
  }

  function SetAt(cols: seq<seq<nat>>, lev: nat, p: nat, x: nat): (r: seq<seq<nat>>)
    requires lev < |cols| && p < |cols[lev]|
    ensures |r| == |cols| && r[lev] == cols[lev][p := x] && forall l :: 0 <= l < |cols| && l != lev ==> r[l] == cols[l]
  {
    var col: seq<nat> := cols[lev][p := x];
    cols[lev := col]
  }

  datatype Entry = Entry(lba: nat, length: nat)

  /** Level 0 lists the entries of the map, in the order of their keys. */
  ghost predicate Lists(s: seq<nat>, contents: map<nat, Entry>, key: seq<nat>, lba: seq<nat>, length: seq<nat>)
    requires |key| == |lba| == |length|
  {
    && (forall i :: 0 <= i < |s| ==> s[i] < |key|) && |s| == |contents|
    && (forall i :: 0 <= i < |s| ==> key[s[i]] in contents && contents[key[s[i]]] == Entry(lba[s[i]], length[s[i]]))
    && (forall k :: k in contents ==> exists i :: 0 <= i < |s| && key[s[i]] == k)
  }

  lemma ListsInserted(s: seq<nat>, contents: map<nat, Entry>, key: seq<nat>, lba: seq<nat>, length: seq<nat>, i: nat,
          x: nat)
    requires |key| == |lba| == |length| && Lists(s, contents, key, lba, length) && i <= |s| && x < |key|
        && key[x] !in contents
    ensures Lists(Inserted(s, i, x), contents[key[x] := Entry(lba[x], length[x])], key, lba, length)
  {
    var r := Inserted(s, i, x);
    var m := contents[key[x] := Entry(lba[x], length[x])];
    forall j | 0 <= j < |r|
      ensures r[j] < |key| && key[r[j]] in m && m[key[r[j]]] == Entry(lba[r[j]], length[r[j]])
    {
      assert j < i ==> r[j] == s[j];
      assert j > i ==> r[j] == s[j - 1];
    }
    forall k | k in m
      ensures exists j :: 0 <= j < |r| && key[r[j]] == k
    {
      if k == key[x] {
        assert r[i] == x;
      } else {
        var j :| 0 <= j < |s| && key[s[j]] == k;
        assert r[if j < i then j else j + 1] == s[j];
      }
    }
  }

  lemma ListsRemoved(s: seq<nat>, contents: map<nat, Entry>, key: seq<nat>, lba: seq<nat>, length: seq<nat>, i: nat)
    requires |key| == |lba| == |length| && Lists(s, contents, key, lba, length) && Sorted(s, key) && i < |s|
    ensures Lists(RemoveAt(s, i), contents - {key[s[i]]}, key, lba, length)
  {
    var r := RemoveAt(s, i);
    var m := contents - {key[s[i]]};
    assert contents == m[key[s[i]] := contents[key[s[i]]]];
    assert |m| == |r|;
    forall j | 0 <= j < |r|
      ensures r[j] < |key| && key[r[j]] in m && m[key[r[j]]] == Entry(lba[r[j]], length[r[j]])
    {
      var h := if j < i then j else j + 1;
      assert r[j] == s[h];
      assert if h < i then key[s[h]] < key[s[i]] else key[s[i]] < key[s[h]];
    }
    hide Sorted;
    forall k | k in m
      ensures exists j :: 0 <= j < |r| && key[r[j]] == k
    {
      RemovedStillThere(s, contents, key, lba, length, i, k, r);
    }
  }

  lemma RemovedStillThere(s: seq<nat>, contents: map<nat, Entry>, key: seq<nat>, lba: seq<nat>, length: seq<nat>,
          i: nat, k: nat, r: seq<nat>)
    requires |key| == |lba| == |length| && Lists(s, contents, key, lba, length) && i < |s| && k in contents
        && k != key[s[i]]
    requires r == RemoveAt(s, i)
    ensures exists j :: 0 <= j < |r| && r[j] < |key| && key[r[j]] == k
  {
    var j :| 0 <= j < |s| && key[s[j]] == k;
    var h := if j < i then j else j - 1;
    assert r[h] == s[j];
  }

  lemma ListsFrame(s: seq<nat>, contents: map<nat, Entry>, key: seq<nat>, lba: seq<nat>, length: seq<nat>,
          key': seq<nat>, lba': seq<nat>, length': seq<nat>)
    requires |key| == |lba| == |length| == |key'| == |lba'| == |length'| && Lists(s, contents, key, lba, length)
    requires forall i :: 0 <= i < |s| ==>
        key'[s[i]] == key[s[i]] && lba'[s[i]] == lba[s[i]] && length'[s[i]] == length[s[i]]
    ensures Lists(s, contents, key', lba', length')
  {
    forall k | k in contents
      ensures exists i :: 0 <= i < |s| && key'[s[i]] == k
    {
      var i :| 0 <= i < |s| && key[s[i]] == k;
      assert key'[s[i]] == k;
    }
  }

  lemma {:induction false} NestedDown(levels: seq<seq<nat>>, a: nat, b: nat, x: nat)
    requires Nested(levels) && b <= a < |levels| && x in levels[a]
    ensures x in levels[b]
  {
    if b < a {
      assert Within(levels, a);
      NestedDown(levels, a - 1, b, x);
    }
  }

  /** Row cur is the last of the level before key k, and position i is the first at or behind it. */
  ghost predicate PlaceAt(s: seq<nat>, n: nat, key: seq<nat>, k: nat, cur: nat, i: nat) {
    i <= |s| && cur == Row(s, n, i) && (forall j :: 0 <= j < |s| ==> s[j] < |key|) && Between(s, key, k, i)
  }

  /** The places of key k on all levels. */
  ghost predicate PlacesOk(levels: seq<seq<nat>>, n: nat, key: seq<nat>, k: nat, update: seq<nat>, pos: seq<nat>) {
    && |levels| == |update| == |pos| == MAX_SKIPLIST_LEVEL
    && forall lev :: 0 <= lev < MAX_SKIPLIST_LEVEL ==> PlaceAt(levels[lev], n, key, k, update[lev], pos[lev])
  }

  ghost predicate OnNoLevel(levels: seq<seq<nat>>, x: nat) {
    forall lev :: 0 <= lev < |levels| ==> x !in levels[lev]
  }

  /** x, with a key nobody has, between its neighbours on level lev. */
  lemma InsertedAt(s: seq<nat>, col: seq<nat>, n: nat, key: seq<nat>, k: nat, cur: nat, i: nat, x: nat)
    requires LevelOk(s, col, n) && Sorted(s, key) && PlaceAt(s, n, key, k, cur, i) && x < n == |key| && x !in s
        && key[x] == k
    requires NoKey(s, key, k)
    ensures cur <= n && LevelOk(Inserted(s, i, x), col[x := col[cur]][cur := x], n) && Sorted(Inserted(s, i, x), key)
  {
    SortedDistinct(s, key);
    LevelInserted(s, col, n, i, x);
    SortedInserted(s, key, i, x);
  }

  /** What follows row cur is the node with key k, if the level has it. */
  lemma RemovedAt(s: seq<nat>, col: seq<nat>, n: nat, key: seq<nat>, k: nat, cur: nat, i: nat, x: nat)
    requires LevelOk(s, col, n) && Sorted(s, key) && PlaceAt(s, n, key, k, cur, i) && x < n == |key| && key[x] == k
    ensures cur <= n && (col[cur] == x <==> x in s)
    ensures x in s ==> i < |s| && s[i] == x && LevelOk(RemoveAt(s, i), col[cur := col[x]], n) && Sorted(RemoveAt(s, i),
        key)
                       && Lacks(s, RemoveAt(s, i), x)
    ensures x !in s ==> Lacks(s, s, x)
  {
    assert StepAt(s, col, n, i) && (i > 0 ==> s[i - 1] in s);
    if x in s {
      var j :| 0 <= j < |s| && s[j] == x;
      assert i == j;
      SortedDistinct(s, key);
      LevelRemoved(s, col, n, i);
      SortedRemoved(s, key, i);
    }
    assert i < |s| ==> s[i] in s;
  }

  lemma RemovedNested(levels: seq<seq<nat>>, levels': seq<seq<nat>>, x: nat)
    requires Nested(levels) && UnlinkedFrom(levels, levels', x, -1)
    ensures Nested(levels') && Lacks(levels[0], levels'[0], x)
  {
    forall lev | 0 < lev < |levels|
      ensures Within(levels', lev)
    {
      assert Within(levels, lev) && Lacks(levels[lev], levels'[lev], x) && Lacks(levels[lev - 1], levels'[lev - 1], x);
    }
  }

  /** Node x was linked into the levels above below, up to level top. */
  ghost predicate LinkedInto(levels: seq<seq<nat>>, levels': seq<seq<nat>>, pos: seq<nat>, x: nat, below: int,
          top: nat) {
    && |levels| == |levels'| == |pos| == MAX_SKIPLIST_LEVEL
    && forall lev :: 0 <= lev < MAX_SKIPLIST_LEVEL ==>
         pos[lev] <= |levels[lev]| && levels'[lev] == if below < lev <= top then Inserted(levels[lev], pos[lev], x)
             else levels[lev]
  }

  /** Exactly node x was added to the level, or nothing if it is not to be there. */
  ghost predicate Gains(s: seq<nat>, s': seq<nat>, x: nat, on: bool) {
    forall y :: y in s' <==> y in s || (on && y == x)
  }

  /** Node x is new on levels 0 to top; otherwise every level has the nodes it had. */
  ghost predicate Tower(levels: seq<seq<nat>>, levels': seq<seq<nat>>, x: nat, top: nat) {
    && |levels'| == |levels| && OnNoLevel(levels, x)
    && forall lev :: 0 <= lev < |levels| ==> Gains(levels[lev], levels'[lev], x, lev <= top)
  }

  lemma LinkedIsTower(levels: seq<seq<nat>>, levels': seq<seq<nat>>, pos: seq<nat>, x: nat, top: nat)
    requires LinkedInto(levels, levels', pos, x, -1, top) && OnNoLevel(levels, x)
    ensures Tower(levels, levels', x, top)
  {
  }

  /** Node x is gone from every level that had it; otherwise every level has the nodes it had. */
  ghost predicate Razed(levels: seq<seq<nat>>, levels': seq<seq<nat>>, x: nat) {
    |levels'| == |levels| && forall lev :: 0 <= lev < |levels| ==> Lacks(levels[lev], levels'[lev], x)
  }

  lemma UnlinkedIsRazed(levels: seq<seq<nat>>, levels': seq<seq<nat>>, x: nat)
    requires UnlinkedFrom(levels, levels', x, -1)
    ensures Razed(levels, levels', x)
  {
  }

  lemma LinkedMore(levels: seq<seq<nat>>, levels': seq<seq<nat>>, pos: seq<nat>, x: nat, lev: nat, top: nat)
    requires LinkedInto(levels, levels', pos, x, lev, top) && lev <= top < MAX_SKIPLIST_LEVEL
    ensures levels'[lev] == levels[lev] && pos[lev] <= |levels[lev]|
    ensures LinkedInto(levels, levels'[lev := Inserted(levels[lev], pos[lev], x)], pos, x, lev - 1, top)
  {
  }

  lemma EveryPlace(levels: seq<seq<nat>>, n: nat, key: seq<nat>, k: nat, update: seq<nat>, pos: seq<nat>, x: nat,
          top: nat)
    requires PlacesOk(levels, n, key, k, update, pos) && OnNoLevel(levels, x)
    ensures |levels| == |update| == |pos| == MAX_SKIPLIST_LEVEL && LinkedInto(levels, levels, pos, x, top, top)
    ensures forall lev :: 0 <= lev < MAX_SKIPLIST_LEVEL ==>
        PlaceAt(levels[lev], n, key, k, update[lev], pos[lev]) && x !in levels[lev]
  {
    hide Between;
    assert forall lev :: 0 <= lev < MAX_SKIPLIST_LEVEL ==> PlaceAt(levels[lev], n, key, k, update[lev], pos[lev]);
  }

  /** Node x is gone from the levels above below. */
  ghost predicate UnlinkedFrom(levels: seq<seq<nat>>, levels': seq<seq<nat>>, x: nat, below: int) {
    && |levels| == |levels'| == MAX_SKIPLIST_LEVEL
    && (forall lev :: 0 <= lev < MAX_SKIPLIST_LEVEL && lev <= below ==> levels'[lev] == levels[lev])
    && (forall lev :: 0 <= lev < MAX_SKIPLIST_LEVEL && lev > below ==> Lacks(levels[lev], levels'[lev], x))
  }

  ghost predicate Lacks(s: seq<nat>, s': seq<nat>, x: nat) {
    forall y :: y in s' <==> y in s && y != x
  }

  lemma UnlinkedBelow(levels: seq<seq<nat>>, levels': seq<seq<nat>>, x: nat, lev: nat)
    requires UnlinkedFrom(levels, levels', x, lev) && lev < MAX_SKIPLIST_LEVEL
    ensures levels'[lev] == levels[lev] && levels'[0] == levels[0]
  {
  }

  lemma UnlinkedMore(levels: seq<seq<nat>>, levels': seq<seq<nat>>, x: nat, lev: nat, s: seq<nat>)
    requires UnlinkedFrom(levels, levels', x, lev) && lev < MAX_SKIPLIST_LEVEL && Lacks(levels[lev], s, x)
    ensures UnlinkedFrom(levels, levels'[lev := s], x, lev - 1)
  {
  }

  lemma InsertedNested(levels: seq<seq<nat>>, levels': seq<seq<nat>>, pos: seq<nat>, x: nat, top: nat)
    requires Nested(levels) && LinkedInto(levels, levels', pos, x, -1, top)
    ensures Nested(levels') && levels'[0] == Inserted(levels[0], pos[0], x)
  {
    forall lev | 0 < lev < |levels|
      ensures Within(levels', lev)
    {
      assert Within(levels, lev);
    }
  }

  /** Writing the fields of a node on no level. */
  lemma FieldsWritten(levels: seq<seq<nat>>, cols: seq<seq<nat>>, n: nat, key: seq<nat>, x: nat, k: nat,
          update: seq<nat>, pos: seq<nat>)
    requires LevelsOk(levels, cols, n, key) && OnNoLevel(levels, x) && x < n && PlacesOk(levels, n, key, k, update, pos)
    ensures LevelsOk(levels, cols, n, key[x := k]) && PlacesOk(levels, n, key[x := k], k, update, pos)
  {
    forall lev | 0 <= lev < MAX_SKIPLIST_LEVEL
      ensures Sorted(levels[lev], key[x := k]) && PlaceAt(levels[lev], n, key[x := k], k, update[lev], pos[lev])
    {
      SortedFrame(levels[lev], key, x, k);
      assert PlaceAt(levels[lev], n, key, k, update[lev], pos[lev]);
      assert forall j :: 0 <= j < |levels[lev]| ==> levels[lev][j] in levels[lev];
    }
  }

  lemma EmptyLevels(levels: seq<seq<nat>>, cols: seq<seq<nat>>, n: nat, key: seq<nat>)
    requires |levels| == |cols| == MAX_SKIPLIST_LEVEL && |key| == n
    requires forall lev :: 0 <= lev < MAX_SKIPLIST_LEVEL ==>
        levels[lev] == [] && |cols[lev]| == n + 1 && cols[lev][n] == n
    ensures LevelsOk(levels, cols, n, key) && Nested(levels)
  {
    forall lev | 0 <= lev < MAX_SKIPLIST_LEVEL
      ensures LevelOk(levels[lev], cols[lev], n) && Sorted(levels[lev], key)
    {
      assert StepAt(levels[lev], cols[lev], n, 0);
    }
  }

  ghost predicate NoKey(s: seq<nat>, key: seq<nat>, k: nat) {
    forall j :: 0 <= j < |s| && s[j] < |key| ==> key[s[j]] != k
  }

  ghost predicate NoKeys(levels: seq<seq<nat>>, key: seq<nat>, k: nat) {
    forall lev :: 0 <= lev < |levels| ==> NoKey(levels[lev], key, k)
  }

  ghost predicate AllBelow(s: seq<nat>, key: seq<nat>, k: nat) {
    forall j :: 0 <= j < |s| && s[j] < |key| ==> key[s[j]] < k
  }

  /** The nodes in use are those listed. */
  ghost predicate InUse(s: seq<nat>, used: seq<bool>) {
    forall x :: 0 <= x < |used| ==> (used[x] <==> x in s)
  }

  /** The pool as a whole: sorted, nested levels whose lowest lists the map and the nodes in use. */
  ghost predicate Consistent(levels: seq<seq<nat>>, cols: seq<seq<nat>>, contents: map<nat, Entry>, key: seq<nat>,
          lba: seq<nat>, length: seq<nat>, used: seq<bool>, n: nat) {
    && LevelsOk(levels, cols, n, key) && Nested(levels) && |key| == |lba| == |length| == |used| == n
    && InUse(levels[0], used) && Lists(levels[0], contents, key, lba, length)
  }

  class SkipList {
    /** GROWING_SEGMENT_NODE_ADDR up to GROWING_SEGMENT_NODE_END_ADDR, in nodes. */
    const n: nat
    const key: array<nat>
    const lba: array<nat>
    const length: array<nat>
    const inUse: array<bool> // the allocated flags
    const forward: array2<nat>
    var count: nat
    var allocatePtr: nat
    ghost var levels: seq<seq<nat>>
    ghost var cols: seq<seq<nat>>
    ghost var contents: map<nat, Entry>

    ghost function Repr(): set<object> {
      {this, key, lba, length, inUse, forward}
    }

    ghost predicate Dimensions() {
      && n > 0 && key.Length == lba.Length == length.Length == inUse.Length == n
      && forward.Length0 == n + 1 && forward.Length1 == MAX_SKIPLIST_LEVEL
      && key != lba && key != length && lba != length
    }

    /** cols[lev] lists the pointers of level lev. */
    ghost predicate Mirrored()
      requires Dimensions()
      reads this`cols, forward
    {
      && |cols| == MAX_SKIPLIST_LEVEL && (forall lev :: 0 <= lev < |cols| ==> |cols[lev]| == n + 1)
      && forall p, lev :: 0 <= p <= n && 0 <= lev < MAX_SKIPLIST_LEVEL ==> cols[lev][p] == forward[p, lev]
    }

    ghost predicate Valid()
      reads Repr()
    {
      && Dimensions() && Mirrored() && allocatePtr < n && |levels| == MAX_SKIPLIST_LEVEL && count == |levels[0]|
      && Consistent(levels, cols, contents, key[..], lba[..], length[..], inUse[..], n)
    }

    method SetForward(p: nat, lev: nat, x: nat)
      requires Dimensions() && Mirrored() && p <= n && lev < MAX_SKIPLIST_LEVEL
      modifies this`cols, forward
      ensures Mirrored() && cols == SetAt(old(cols), lev, p, x)
    {
      forward[p, lev] := x;
      cols := SetAt(cols, lev, p, x);
    }

    /** initSkipList. */
    constructor (n: nat)
      requires n > 0
      ensures Valid() && fresh(Repr()) && this.n == n && contents == map[] && count == 0
          && levels[MAX_SKIPLIST_LEVEL - 1] == []
    {
      this.n := n;
      key := new nat[n](_ => 0);
      lba := new nat[n](_ => 0);
      length := new nat[n](_ => 0);
      inUse := new bool[n](_ => false);
      forward := new nat[n + 1, MAX_SKIPLIST_LEVEL]((_, _) => n);
      count := 0;
      allocatePtr := 0;
      levels := seq(MAX_SKIPLIST_LEVEL, _ => []);
      cols := seq(MAX_SKIPLIST_LEVEL, _ => seq(n + 1, _ => n));
      contents := map[];
      new;
      EmptyLevels(levels, cols, n, key[..]);
      hide LevelsOk, Nested;
    }

    /** From the top level down, the row after which key k belongs; the walk of insertion, search and removal. */
    method Walk(k: nat, lev: nat, from: nat) returns (cur: nat, ghost i: nat)
      requires Valid() && lev < MAX_SKIPLIST_LEVEL
      requires from == n || (from in levels[lev] && from < n && key[from] < k)
      ensures Valid() && cur <= n && i <= |levels[lev]| && cur == Row(levels[lev], n, i)
      ensures Between(levels[lev], key[..], k, i) && forward[cur, lev] == if i == |levels[lev]| then n
          else levels[lev][i]
      ensures cur == n || (cur in levels[lev] && cur < n && key[cur] < k)
      ensures i < |levels[lev]| && key[levels[lev][i]] == k <==>
          exists j :: 0 <= j < |levels[lev]| && key[levels[lev][j]] == k
      ensures i == |levels[lev]| <==> AllBelow(levels[lev], key[..], k)
      ensures i < |levels[lev]| ==> forward[cur, lev] < n && forward[cur, lev] in levels[lev]
    {
      ghost var s: seq<nat> := levels[lev];
      ghost var col: seq<nat> := cols[lev];
      assert LevelOk(s, col, n) && Sorted(s, key[..]) && forall p :: 0 <= p <= n ==> col[p] == forward[p, lev];
      hide LevelsOk, Nested, Lists, SkipList.Mirrored, SkipList.Valid;
      cur := from;
      i := 0;
      if from != n {
        ghost var j :| 0 <= j < |s| && s[j] == from;
        i := j + 1;
      }
      assert StepAt(s, col, n, i);
      while forward[cur, lev] != n && key[forward[cur, lev]] < k
        invariant i <= |s| && cur == Row(s, n, i) && cur <= n && (i > 0 ==> s[i - 1] < n && key[s[i - 1]] < k)
        invariant forward[cur, lev] == (if i == |s| then n else s[i]) && (i < |s| ==> s[i] < n)
        decreases |s| - i
      {
        cur := forward[cur, lev];
        i := i + 1;
        assert StepAt(s, col, n, i) && (i < |s| ==> s[i] in s);
      }
      assert i > 0 ==> s[i - 1] in s;
      NeighboursDecide(s, key[..], k, i);
    }

    /** Search reads a key through NIL and takes it for a hit: no node of the top level is at or behind k. */
    ghost predicate Missed(k: nat, nilKey: nat)
      requires Valid()
      reads Repr()
    {
      k in contents && nilKey == k && AllBelow(levels[MAX_SKIPLIST_LEVEL - 1], key[..], k)
    }

    /** A key is in the map exactly if level 0 has a node for it. */
    lemma InContents(k: nat)
      requires Valid()
      ensures k in contents <==> exists j :: 0 <= j < |levels[0]| && key[levels[0][j]] == k
    {
    }

    lemma FoundBelow(x: nat, lev: nat)
      requires Valid() && lev < MAX_SKIPLIST_LEVEL && x in levels[lev]
      ensures x in levels[0] && x < n && key[x] in contents && contents[key[x]] == Entry(lba[x], length[x])
    {
      NestedDown(levels, lev, 0, x);
      var j :| 0 <= j < |levels[0]| && levels[0][j] == x;
      assert LevelOk(levels[0], cols[0], n);
    }

    /** Every node at or behind k on the top level is on level lev too. */
    lemma TopIsBelow(k: nat, lev: nat)
      requires Valid() && lev < MAX_SKIPLIST_LEVEL && AllBelow(levels[lev], key[..], k)
      ensures AllBelow(levels[MAX_SKIPLIST_LEVEL - 1], key[..], k)
    {
      var top := levels[MAX_SKIPLIST_LEVEL - 1];
      forall j | 0 <= j < |top| && top[j] < n
        ensures key[top[j]] < k
      {
        NestedDown(levels, MAX_SKIPLIST_LEVEL - 1, lev, top[j]);
        var i :| 0 <= i < |levels[lev]| && levels[lev][i] == top[j];
      }
    }

    /** skiplist_search; nilKey is the word it reads as the key of NIL. */
    method Search(k: nat, nilKey: nat) returns (r: nat)
      requires Valid()
      ensures if k in contents && !Missed(k, nilKey)
          then r < n && r in levels[0] && key[r] == k && contents[k] == Entry(lba[r], length[r]) else r == n
    {
      var cur := n;
      var lev: int := MAX_SKIPLIST_LEVEL - 1;
      InContents(k);
      assert Dimensions() && |levels| == MAX_SKIPLIST_LEVEL && Nested(levels);
      hide SkipList.Valid, LevelsOk, Nested, Lists, SkipList.Mirrored, Between;
      while lev >= 0
        invariant -1 <= lev < MAX_SKIPLIST_LEVEL && Valid()
        invariant cur == n || (lev + 1 < MAX_SKIPLIST_LEVEL && cur in levels[lev + 1] && cur < n && key[cur] < k)
        invariant lev == -1 ==> k !in contents
        invariant lev < MAX_SKIPLIST_LEVEL - 1 ==> !Missed(k, nilKey)
      {
        if cur != n {
          NestedDown(levels, lev + 1, lev, cur);
        }
        ghost var i: nat;
        cur, i := Walk(k, lev, cur);
        var next := forward[cur, lev];
        if next == n {
          if nilKey == k {
            TopIsBelow(k, lev);
            return n;
          }
        } else if key[next] == k {
          FoundBelow(next, lev);
          return next;
        }
        lev := lev - 1;
      }
      return n;
    }

    /** Where key k belongs on the levels from from up: after row update[lev], at position pos[lev]. */
    ghost predicate Places(k: nat, update: seq<nat>, pos: seq<nat>, from: nat)
      requires Valid() && from <= MAX_SKIPLIST_LEVEL
      reads Repr()
    {
      && |update| == |pos| == MAX_SKIPLIST_LEVEL
      && forall lev :: from <= lev < MAX_SKIPLIST_LEVEL ==> PlaceAt(levels[lev], n, key[..], k, update[lev], pos[lev])
    }

    /** The walk of insertion and removal. */
    method FindPlaces(k: nat) returns (update: seq<nat>, ghost pos: seq<nat>)
      requires Valid()
      ensures Valid() && Places(k, update, pos, 0)
    {
      var cur := n;
      var lev: int := MAX_SKIPLIST_LEVEL - 1;
      update := seq(MAX_SKIPLIST_LEVEL, _ => 0);
      pos := seq(MAX_SKIPLIST_LEVEL, _ => 0);
      assert Dimensions() && |levels| == MAX_SKIPLIST_LEVEL && Nested(levels);
      while lev >= 0
        invariant -1 <= lev < MAX_SKIPLIST_LEVEL && Valid() && Places(k, update, pos, lev + 1)
        invariant cur == n || (lev + 1 < MAX_SKIPLIST_LEVEL && cur in levels[lev + 1] && cur < n && key[cur] < k)
      {
        hide SkipList.Valid, LevelsOk, Nested, Lists;
        if cur != n {
          NestedDown(levels, lev + 1, lev, cur);
        }
        ghost var i: nat;
        cur, i := Walk(k, lev, cur);
        PlaceFound(k, lev, cur, i);
        update := update[lev := cur];
        pos := pos[lev := i];
        lev := lev - 1;
      }
    }

    lemma PlaceFound(k: nat, lev: nat, cur: nat, i: nat)
      requires Valid() && lev < MAX_SKIPLIST_LEVEL && i <= |levels[lev]| && cur == Row(levels[lev], n, i) <= n
      requires Between(levels[lev], key[..], k, i) && forward[cur, lev] == if i == |levels[lev]| then n
          else levels[lev][i]
      ensures PlaceAt(levels[lev], n, key[..], k, cur, i)
    {
    }

    /** The search for a free node, from the last one given out on and round. */
    method Advance()
      requires Valid() && count < n
      modifies this`allocatePtr
      ensures Valid() && !inUse[allocatePtr]
    {
      ghost var free := FreeNode();
      while inUse[allocatePtr]
        invariant allocatePtr < n
        decreases if allocatePtr <= free then free - allocatePtr else free + n - allocatePtr
      {
        allocatePtr := allocatePtr + 1;
        if n <= allocatePtr {
          allocatePtr := 0;
        }
      }
    }

    /** allocateSkiplistNode: the next node not in use, going round, with its forward pointers cleared. */
    method Allocate() returns (x: nat)
      requires Valid() && count < n
      modifies Repr()
      ensures x < n && !old(inUse[x]) && OnNoLevel(levels, x)
      ensures Dimensions() && Mirrored() && allocatePtr < n && inUse[..] == old(inUse[..])[x := true]
      ensures levels == old(levels) && contents == old(contents) && count == old(count)
      ensures key[..] == old(key[..]) && lba[..] == old(lba[..]) && length[..] == old(length[..])
      ensures LevelsOk(levels, cols, n, key[..])
    {
      hide Lists, Nested, LevelsOk, OnNoLevel, InUse, SkipList.Mirrored;
      Advance();
      x := allocatePtr;
      NotListed(x);
      ClearRow(x);
      inUse[x] := true;
    }

    /** A node on no level gets NIL pointers. */
    method ClearRow(x: nat)
      requires Dimensions() && Mirrored() && LevelsOk(levels, cols, n, key[..]) && x < n
      requires OnNoLevel(levels, x)
      modifies this`cols, forward
      ensures Mirrored() && LevelsOk(levels, cols, n, key[..])
    {
      var lev := 0;
      while lev < MAX_SKIPLIST_LEVEL
        invariant 0 <= lev <= MAX_SKIPLIST_LEVEL && Mirrored() && LevelsOk(levels, cols, n, key[..])
      {
        LevelFrame(levels[lev], cols[lev], n, x, n);
        SetForward(x, lev, n);
        lev := lev + 1;
      }
    }

    /** Fewer entries than nodes: some node is free. */
    lemma FreeNode() returns (free: nat)
      requires Valid() && count < n
      ensures free < n && !inUse[free]
    {
      var s := levels[0];
      if forall x :: 0 <= x < n ==> inUse[x] {
        assert forall x: nat :: x < n ==> inUse[x] && x in s;
        SortedDistinct(s, key[..]);
        DistinctSize(s);
        SubsetSize(Below(n), (set x | x in s));
        assert false;
      } else {
        free :| 0 <= free < n && !inUse[free];
      }
    }

    /** A node not in use is on no level. */
    lemma NotListed(x: nat)
      requires Valid() && x < n && !inUse[x]
      ensures OnNoLevel(levels, x)
    {
      forall lev | 0 <= lev < MAX_SKIPLIST_LEVEL
        ensures x !in levels[lev]
      {
        if x in levels[lev] {
          NestedDown(levels, lev, 0, x);
        }
      }
    }

    /** The linking loop of skiplist_insert, from level top down. */
    method LinkNode(x: nat, k: nat, top: nat, update: seq<nat>, ghost pos: seq<nat>)
      requires Dimensions() && Mirrored() && LevelsOk(levels, cols, n, key[..])
          && PlacesOk(levels, n, key[..], k, update, pos)
      requires x < n && key[x] == k && OnNoLevel(levels, x) && top < MAX_SKIPLIST_LEVEL
      requires NoKeys(levels, key[..], k)
      modifies this`cols, this`levels, forward
      ensures Mirrored() && LevelsOk(levels, cols, n, key[..]) && LinkedInto(old(levels), levels, pos, x, -1, top)
    {
      ghost var before: seq<seq<nat>> := levels;
      hide LinkedInto, LevelsOk, PlaceAt, NoKey, SkipList.Mirrored, PlacesOk, OnNoLevel;
      EveryPlace(levels, n, key[..], k, update, pos, x, top);
      var newLevel: int := top;
      while newLevel >= 0
        invariant -1 <= newLevel <= top && Mirrored() && LevelsOk(levels, cols, n, key[..])
            && LinkedInto(before, levels, pos, x, newLevel, top)
        invariant |levels| == MAX_SKIPLIST_LEVEL
      {
        LinkedMore(before, levels, pos, x, newLevel, top);
        LinkLevel(x, k, newLevel, update[newLevel], pos[newLevel]);
        newLevel := newLevel - 1;
      }
    }

    /** One level of it: the node goes between row p and what followed it. */
    method LinkLevel(x: nat, k: nat, lev: nat, p: nat, ghost i: nat)
      requires Dimensions() && Mirrored() && LevelsOk(levels, cols, n, key[..]) && lev < MAX_SKIPLIST_LEVEL
          && |levels| == MAX_SKIPLIST_LEVEL
      requires PlaceAt(levels[lev], n, key[..], k, p, i) && x < n && key[x] == k && x !in levels[lev]
          && NoKey(levels[lev], key[..], k) && i <= |levels[lev]|
      modifies this`cols, this`levels, forward
      ensures Mirrored() && LevelsOk(levels, cols, n, key[..]) && |levels| == MAX_SKIPLIST_LEVEL
      ensures levels == old(levels)[lev := Inserted(old(levels)[lev], i, x)]
    {
      InsertedAt(levels[lev], cols[lev], n, key[..], k, p, i, x);
      hide LevelOk, Sorted, PlaceAt, NoKey, Between;
      SetForward(x, lev, forward[p, lev]);
      SetForward(p, lev, x);
      levels := levels[lev := Inserted(levels[lev], i, x)];
    }

    /**
     skiplist_insert, for any level the coin tosses give: a key that is there is found, another is added.
     The pool must not be full: the search for a free node would not end.
     */
    method Insert(k: nat, newLba: nat, newLength: nat, top: nat) returns (r: nat, ghost x: nat)
      requires Valid() && top < MAX_SKIPLIST_LEVEL && (count < n || k in contents)
      modifies Repr()
      ensures Valid()
      ensures if k in old(contents) then
                contents == old(contents) && levels == old(levels) && r == x < n && r in levels[0] && key[r] == k
              else
                r == n && contents == old(contents)[k := Entry(newLba, newLength)] && count == old(count) + 1
                && x < n && !old(inUse[x]) && key[x] == k && Tower(old(levels), levels, x, top)
    {
      InContents(k);
      var update: seq<nat>;
      ghost var pos: seq<nat>;
      update, pos := FindPlaces(k);
      var first := FirstAt(k, update, pos);
      if first == n || key[first] != k {
        x := Add(k, newLba, newLength, top, update, pos);
        r := n;
      } else {
        r, x := first, first;
      }
    }

    /** The node at which the walk ended on level 0; key k is in the map exactly if it is that node's. */
    method FirstAt(k: nat, update: seq<nat>, ghost pos: seq<nat>) returns (first: nat)
      requires Valid() && Places(k, update, pos, 0)
      ensures first <= n && (first < n ==> first in levels[0] && pos[0] < |levels[0]| && first == levels[0][pos[0]])
      ensures k in contents <==> first < n && key[first] == k
    {
      InContents(k);
      assert PlaceAt(levels[0], n, key[..], k, update[0], pos[0]) && LevelOk(levels[0], cols[0], n);
      assert StepAt(levels[0], cols[0], n, pos[0]);
      first := forward[update[0], 0];
      assert first < n ==> first in levels[0];
    }

    /** A key not in the map is on no level. */
    lemma NoKeyAnywhere(k: nat)
      requires Valid() && k !in contents
      ensures NoKeys(levels, key[..], k)
    {
      forall lev, j | 0 <= lev < MAX_SKIPLIST_LEVEL && 0 <= j < |levels[lev]| && levels[lev][j] < n
        ensures key[levels[lev][j]] != k
      {
        FoundBelow(levels[lev][j], lev);
      }
    }

    /** A node of the pool with its fields written, not yet on any level. */
    method NewNode(k: nat, newLba: nat, newLength: nat, ghost update: seq<nat>, ghost pos: seq<nat>) returns (x: nat)
      requires Valid() && count < n && k !in contents && Places(k, update, pos, 0)
      modifies Repr()
      ensures x < n && !old(inUse[x]) && OnNoLevel(levels, x) && Dimensions() && Mirrored() && allocatePtr < n
      ensures levels == old(levels) && contents == old(contents) && count == old(count)
          && inUse[..] == old(inUse[..])[x := true]
      ensures key[..] == old(key[..])[x := k] && lba[..] == old(lba[..])[x := newLba]
          && length[..] == old(length[..])[x := newLength]
      ensures LevelsOk(levels, cols, n, key[..]) && PlacesOk(levels, n, key[..], k, update, pos)
      ensures NoKeys(levels, key[..], k)
    {
      ghost var keys: seq<nat> := key[..];
      NoKeyAnywhere(k);
      assert PlacesOk(levels, n, keys, k, update, pos);
      x := Allocate();
      hide LevelsOk, Nested, Lists, PlacesOk, OnNoLevel, NoKey, SkipList.Mirrored;
      FieldsWritten(levels, cols, n, keys, x, k, update, pos);
      NoKeyWritten(levels, keys, x, k);
      key[x] := k;
      lba[x] := newLba;
      length[x] := newLength;
      assert key[..] == keys[x := k];
    }

    lemma Parts(k: nat, update: seq<nat>, pos: seq<nat>)
      requires Valid() && Places(k, update, pos, 0)
      ensures Consistent(levels, cols, contents, key[..], lba[..], length[..], inUse[..], n)
          && LevelsOk(levels, cols, n, key[..])
      ensures PlacesOk(levels, n, key[..], k, update, pos) && |pos| == MAX_SKIPLIST_LEVEL
      ensures Dimensions() && Mirrored() && |levels| == MAX_SKIPLIST_LEVEL && count == |levels[0]|
          && |key[..]| == |lba[..]| == |length[..]| == |inUse[..]| == n
    {
    }

    method Add(k: nat, newLba: nat, newLength: nat, top: nat, update: seq<nat>, ghost pos: seq<nat>)
            returns (x: nat)
      requires Valid() && top < MAX_SKIPLIST_LEVEL && count < n && k !in contents && Places(k, update, pos, 0)
      modifies Repr()
      ensures Valid() && contents == old(contents)[k := Entry(newLba, newLength)] && count == old(count) + 1
      ensures x < n && !old(inUse[x]) && key[x] == k && Tower(old(levels), levels, x, top)
    {
      ghost var ls: seq<seq<nat>>, cs: seq<seq<nat>>, keys: seq<nat>, lbas: seq<nat>, lengths: seq<nat>,
          used: seq<bool> := levels, cols, key[..], lba[..], length[..], inUse[..];
      hide LevelsOk, PlacesOk, OnNoLevel, NoKey, NoKeys, LinkedInto, Tower, Consistent, SkipList.Mirrored,
          SkipList.Places, SkipList.Valid;
      Parts(k, update, pos);
      x := NewNode(k, newLba, newLength, update, pos);
      LinkNode(x, k, top, update, pos);
      LinkedIsTower(ls, levels, pos, x, top);
      Enter(x, k, newLba, newLength, top, ls, cs, keys, lbas, lengths, used, pos);
    }

    /** A linked node becomes part of the map. */
    method Enter(x: nat, k: nat, newLba: nat, newLength: nat, top: nat, ghost ls: seq<seq<nat>>,
            ghost cs: seq<seq<nat>>, ghost keys: seq<nat>, ghost lbas: seq<nat>, ghost lengths: seq<nat>,
                 ghost used: seq<bool>, ghost pos: seq<nat>)
      requires Dimensions() && Mirrored() && allocatePtr < n && LevelsOk(levels, cols, n, key[..]) && x < n
      requires Consistent(ls, cs, contents, keys, lbas, lengths, used, n) && OnNoLevel(ls, x) && k !in contents
      requires LinkedInto(ls, levels, pos, x, -1, top) && |ls| > 0 && count == |ls[0]|
      requires |keys| == |lbas| == |lengths| == |used| == n
      requires key[..] == keys[x := k] && lba[..] == lbas[x := newLba] && length[..] == lengths[x := newLength]
          && inUse[..] == used[x := true]
      modifies this`count, this`contents
      ensures Valid() && contents == old(contents)[k := Entry(newLba, newLength)] && count == old(count) + 1
    {
      hide LevelsOk, OnNoLevel, LinkedInto, Consistent, SkipList.Mirrored;
      Added(ls, levels, cs, cols, contents, keys, lbas, lengths, used, n, pos, x, k, top, newLba, newLength);
      count := count + 1;
      contents := contents[k := Entry(newLba, newLength)];
    }

    /** One level of the unlinking loop: the node after row p goes if it is the one to be removed. */
    method UnlinkLevel(x: nat, k: nat, lev: nat, p: nat, ghost i: nat)
      requires Dimensions() && Mirrored() && LevelsOk(levels, cols, n, key[..]) && lev < MAX_SKIPLIST_LEVEL
          && |levels| == MAX_SKIPLIST_LEVEL
      requires PlaceAt(levels[lev], n, key[..], k, p, i) && x < n && key[x] == k
      modifies this`cols, this`levels, forward
      ensures Mirrored() && LevelsOk(levels, cols, n, key[..]) && |levels| == MAX_SKIPLIST_LEVEL
      ensures x in old(levels)[lev] ==>
          i < |old(levels)[lev]| && old(levels)[lev][i] == x
          && levels == old(levels)[lev := RemoveAt(old(levels)[lev], i)]
      ensures x !in old(levels)[lev] ==> levels == old(levels)
      ensures Lacks(old(levels)[lev], levels[lev], x)
    {
      RemovedAt(levels[lev], cols[lev], n, key[..], k, p, i, x);
      hide LevelOk, Sorted, PlaceAt, Between;
      if forward[p, lev] == x {
        SetForward(p, lev, forward[x, lev]);
        levels := levels[lev := RemoveAt(levels[lev], i)];
      }
    }

    /**
     The unlinking loop of skiplist_remove, from the top level down; the node is still first behind
     update[0] until level 0 is done.
     */
    method UnlinkNode(x: nat, k: nat, update: seq<nat>, ghost pos: seq<nat>)
      requires Dimensions() && Mirrored() && LevelsOk(levels, cols, n, key[..])
          && PlacesOk(levels, n, key[..], k, update, pos)
      requires x < n && key[x] == k && x in levels[0]
      modifies this`cols, this`levels, forward
      ensures Mirrored() && LevelsOk(levels, cols, n, key[..]) && |levels| == MAX_SKIPLIST_LEVEL
      ensures UnlinkedFrom(old(levels), levels, x, -1)
      ensures pos[0] < |old(levels)[0]| && old(levels)[0][pos[0]] == x && levels[0] == RemoveAt(old(levels)[0], pos[0])
    {
      ghost var before: seq<seq<nat>> := levels;
      assert forall lev :: 0 <= lev < MAX_SKIPLIST_LEVEL ==> PlaceAt(before[lev], n, key[..], k, update[lev], pos[lev]);
      assert UnlinkedFrom(before, levels, x, MAX_SKIPLIST_LEVEL - 1);
      FirstIsTarget(x, k, update, pos);
      hide LevelsOk, PlaceAt, SkipList.Mirrored, UnlinkedFrom, Lacks, PlacesOk;
      var lev: int := MAX_SKIPLIST_LEVEL - 1;
      while lev >= 0
        invariant -1 <= lev < MAX_SKIPLIST_LEVEL && Mirrored() && LevelsOk(levels, cols, n, key[..])
            && |levels| == MAX_SKIPLIST_LEVEL
        invariant UnlinkedFrom(before, levels, x, lev)
        invariant lev == -1 ==> pos[0] < |before[0]| && before[0][pos[0]] == x && levels[0] == RemoveAt(before[0],
            pos[0])
      {
        UnlinkedBelow(before, levels, x, lev);
        FirstIsTarget(x, k, update, pos);
        ghost var ls: seq<seq<nat>> := levels;
        UnlinkLevel(forward[update[0], 0], k, lev, update[lev], pos[lev]);
        UnlinkedMore(before, ls, x, lev, levels[lev]);
        assert levels == ls[lev := levels[lev]];
        lev := lev - 1;
      }
    }

    lemma FirstIsTarget(x: nat, k: nat, update: seq<nat>, pos: seq<nat>)
      requires Dimensions() && Mirrored() && LevelsOk(levels, cols, n, key[..])
          && |update| == |pos| == MAX_SKIPLIST_LEVEL
      requires PlaceAt(levels[0], n, key[..], k, update[0], pos[0]) && x < n && key[x] == k && x in levels[0]
      ensures update[0] <= n && forward[update[0], 0] == x
    {
      RemovedAt(levels[0], cols[0], n, key[..], k, update[0], pos[0], x);
    }

    /** skiplist_remove. */
    method Remove(k: nat) returns (r: nat)
      requires Valid()
      modifies Repr()
      ensures Valid() && contents == old(contents) - {k}
      ensures if k in old(contents) then r < n && !inUse[r] && key[r] == k && old(contents)[k] == Entry(lba[r],
          length[r]) && count == old(count) - 1
              else r == n && count == old(count)
      ensures if k in old(contents) then Razed(old(levels), levels, r) else levels == old(levels)
    {
      var update: seq<nat>;
      ghost var pos: seq<nat>;
      update, pos := FindPlaces(k);
      r := FirstAt(k, update, pos);
      if r == n || key[r] != k {
        assert contents - {k} == contents;
        return n;
      }
      FoundBelow(r, 0);
      Drop(r, k, update, pos);
    }

    method Drop(x: nat, k: nat, update: seq<nat>, ghost pos: seq<nat>)
      requires Valid() && Places(k, update, pos, 0) && x < n && x in levels[0] && key[x] == k
      modifies this, forward, inUse
      ensures Valid() && contents == old(contents) - {k} && !inUse[x] && count == old(count) - 1
      ensures Razed(old(levels), levels, x)
      ensures key[..] == old(key[..]) && lba[..] == old(lba[..]) && length[..] == old(length[..])
    {
      ghost var ls: seq<seq<nat>>, cs: seq<seq<nat>> := levels, cols;
      hide LevelsOk, PlacesOk, UnlinkedFrom, Razed, Consistent, SkipList.Mirrored, SkipList.Places;
      Parts(k, update, pos);
      UnlinkNode(x, k, update, pos);
      UnlinkedIsRazed(ls, levels, x);
      Free(x, k, ls, cs, pos);
    }

    /** An unlinked node goes back to the pool. */
    method Free(x: nat, k: nat, ghost ls: seq<seq<nat>>, ghost cs: seq<seq<nat>>, ghost pos: seq<nat>)
      requires Dimensions() && Mirrored() && allocatePtr < n && LevelsOk(levels, cols, n, key[..]) && x < n
          && key[x] == k
      requires Consistent(ls, cs, contents, key[..], lba[..], length[..], inUse[..], n)
          && UnlinkedFrom(ls, levels, x, -1)
      requires |pos| > 0 && |levels| == |ls| == MAX_SKIPLIST_LEVEL && pos[0] < |ls[0]| && ls[0][pos[0]] == x
          && levels[0] == RemoveAt(ls[0], pos[0]) && count == |ls[0]|
      modifies this`count, this`contents, inUse
      ensures Valid() && contents == old(contents) - {k} && !inUse[x] && count == old(count) - 1
    {
      hide LevelsOk, UnlinkedFrom, Consistent, SkipList.Mirrored;
      ghost var used: seq<bool> := inUse[..];
      Dropped(ls, levels, cs, cols, contents, key[..], lba[..], length[..], used, n, pos, x, k);
      inUse[x] := false;
      count := count - 1;
      contents := contents - {k};
      assert inUse[..] == used[x := false];
    }
  }

  /** A node linked into the lower levels, with a key that was not in the map. */
  lemma Added(levels: seq<seq<nat>>, levels': seq<seq<nat>>, cols: seq<seq<nat>>, cols': seq<seq<nat>>,
          contents: map<nat, Entry>, key: seq<nat>, lba: seq<nat>,
              length: seq<nat>, used: seq<bool>, n: nat, pos: seq<nat>, x: nat, k: nat, top: nat, newLba: nat,
                  newLength: nat)
    requires Consistent(levels, cols, contents, key, lba, length, used, n) && OnNoLevel(levels, x) && x < n
        && k !in contents
    requires LinkedInto(levels, levels', pos, x, -1, top) && LevelsOk(levels', cols', n, key[x := k])
    ensures |levels'| == MAX_SKIPLIST_LEVEL && |levels'[0]| == |levels[0]| + 1
    ensures Consistent(levels', cols', contents[k := Entry(newLba, newLength)], key[x := k], lba[x := newLba],
        length[x := newLength], used[x := true], n)
  {
    hide LevelsOk, Nested, Lists;
    InsertedNested(levels, levels', pos, x, top);
    AddedLists(levels[0], contents, key, lba, length, pos[0], x, k, newLba, newLength, levels);
  }

  /** A node taken from every level that had it. */
  lemma Dropped(levels: seq<seq<nat>>, levels': seq<seq<nat>>, cols: seq<seq<nat>>, cols': seq<seq<nat>>,
          contents: map<nat, Entry>, key: seq<nat>, lba: seq<nat>,
                length: seq<nat>, used: seq<bool>, n: nat, pos: seq<nat>, x: nat, k: nat)
    requires Consistent(levels, cols, contents, key, lba, length, used, n) && x < n && key[x] == k
    requires UnlinkedFrom(levels, levels', x, -1) && LevelsOk(levels', cols', n, key)
    requires |pos| > 0 && pos[0] < |levels[0]| && levels[0][pos[0]] == x && levels'[0] == RemoveAt(levels[0], pos[0])
    ensures |levels'| == MAX_SKIPLIST_LEVEL && |levels'[0]| == |levels[0]| - 1
    ensures Consistent(levels', cols', contents - {k}, key, lba, length, used[x := false], n)
  {
    assert Sorted(levels[0], key);
    hide LevelsOk, Nested, Lists;
    RemovedNested(levels, levels', x);
    ListsRemoved(levels[0], contents, key, lba, length, pos[0]);
  }

  lemma NoKeyWritten(levels: seq<seq<nat>>, key: seq<nat>, x: nat, k: nat)
    requires OnNoLevel(levels, x) && x < |key| && NoKeys(levels, key, k)
    ensures NoKeys(levels, key[x := k], k)
  {
    forall lev, j | 0 <= lev < |levels| && 0 <= j < |levels[lev]| && levels[lev][j] < |key|
      ensures key[x := k][levels[lev][j]] != k
    {
      assert NoKey(levels[lev], key, k) && levels[lev][j] in levels[lev];
    }
  }

  lemma AddedLists(s: seq<nat>, contents: map<nat, Entry>, key: seq<nat>, lba: seq<nat>, length: seq<nat>, i: nat,
          x: nat, k: nat, newLba: nat, newLength: nat,
                   levels: seq<seq<nat>>)
    requires |key| == |lba| == |length| && Lists(s, contents, key, lba, length) && i <= |s| && x < |key|
        && k !in contents
    requires |levels| > 0 && levels[0] == s && OnNoLevel(levels, x)
    ensures Lists(Inserted(s, i, x), contents[k := Entry(newLba, newLength)], key[x := k], lba[x := newLba],
        length[x := newLength])
  {
    assert forall j :: 0 <= j < |s| ==> s[j] in s;
    ListsFrame(s, contents, key, lba, length, key[x := k], lba[x := newLba], length[x := newLength]);
    ListsInserted(s, contents, key[x := k], lba[x := newLba], length[x := newLength], i, x);
  }

  /** One key, linked on level 0 only, and a NIL word that happens to be the key: the search does not find it. */
  method SearchMisses() returns (list: SkipList, r: nat)
    ensures list.Valid() && list.contents == map[5 := Entry(1, 2)] && r == list.n
  {
    list := new SkipList(4);
    var there;
    ghost var x, before := 0, list.levels;
    there, x := list.Insert(5, 1, 2, 0);
    ghost var s := list.levels[MAX_SKIPLIST_LEVEL - 1];
    assert Gains(before[MAX_SKIPLIST_LEVEL - 1], s, x, false);
    assert forall i :: 0 <= i < |s| ==> s[i] in s;
    assert AllBelow(list.levels[MAX_SKIPLIST_LEVEL - 1], list.key[..], 5);
    assert list.Missed(5, 5);
    r := list.Search(5, 5);
  }
}
