/**
 The SLO-P policy of the benchmark scheduler: while an index is built, searches are admitted only as
 long as the build still meets its deadline. Times are reals.
 */
module Scheduler {
  import opened Common

  datatype OpType =
    | VectorInsert | VectorSearch | IndexBuild | IndexBuildAsync | IndexBuildWait | PauseBuild | ResumeBuild

  datatype Op = Op(opType: OpType, arrival: real, deadline: Option<real>)

  /** tSearch is what one search costs, given the segments at the build. */
  datatype Costs = Costs(buildTime: real, buildDeadline: real, tSearch: real, tInsert: real, tCheckpoint: real,
          tResume: real)

  datatype Fate = Admitted | Rejected | Dropped

  datatype Failure = IndexError

  // ---------- one search ----------

  /** Python's int() of a quotient, and then max with zero. */
  function Whole(x: real): nat {
    if x < 0.0 then 0 else x.Floor
  }

  /** The time left for searches after inserts inserts. */
  function Remaining(c: Costs, inserts: nat): real {
    c.buildDeadline - c.buildTime - c.tCheckpoint - c.tResume - inserts as real * c.tInsert
    - (c.tResume + c.tCheckpoint)
  }

  /** How many searches fit into it. */
  function MaxSearches(c: Costs, inserts: nat): nat {
    if c.tSearch > 0.0 then Whole(Remaining(c, inserts) / c.tSearch) else 0
  }

  predicate MeetsOwnDeadline(c: Costs, op: Op) {
    op.deadline.Some? && c.tCheckpoint + c.tSearch + c.tResume <= op.deadline.value
  }

  /** The build, two interruptions, the inserts and the searches together are done by the deadline of the build. */
  ghost predicate InBudget(c: Costs, inserts: nat, searches: nat) {
    c.buildTime + 2.0 * (c.tCheckpoint + c.tResume) + inserts as real * c.tInsert + searches as real * c.tSearch
    <= c.buildDeadline
  }

  lemma QuotientFits(n: nat, x: real, t: real)
    requires t > 0.0
    ensures n > 0 ==> (n <= Whole(x / t) <==> n as real * t <= x)
  {
    var q := x / t;
    assert q * t == x;
    if n as real <= q {
      assert n as real * t <= q * t;
    } else {
      assert n as real * t > q * t;
    }
  }

  /** The comparison of the loop says exactly that one more search keeps the build within its deadline. */
  lemma RoomIsBudget(c: Costs, inserts: nat, searches: nat)
    ensures searches < MaxSearches(c, inserts) <==> c.tSearch > 0.0 && InBudget(c, inserts, searches + 1)
  {
    var remaining := Remaining(c, inserts);
    var a, b := inserts as real * c.tInsert, (searches + 1) as real * c.tSearch;
    assert remaining == c.buildDeadline - c.buildTime - 2.0 * (c.tCheckpoint + c.tResume) - a;
    assert InBudget(c, inserts, searches + 1) <==> b <= remaining;
    if c.tSearch > 0.0 {
      QuotientFits(searches + 1, remaining, c.tSearch);
      hide Remaining, Whole;
      assert searches + 1 <= MaxSearches(c, inserts) <==> b <= remaining;
    }
  }

  // ---------- the admission loop ----------

  function CountType(ops: seq<Op>, fates: seq<Fate>, t: OpType, f: Fate): nat
    requires |ops| == |fates|
  {
    if ops == [] then 0
    else
      var n := |ops| - 1;
      CountType(ops[..n], fates[..n], t, f) + if ops[n].opType == t && fates[n] == f then 1 else 0
  }

  /** The operations with the given fate, in order. */
  function Chosen(ops: seq<Op>, fates: seq<Fate>, f: Fate): seq<Op>
    requires |ops| == |fates|
  {
    if ops == [] then []
    else
      var n := |ops| - 1;
      Chosen(ops[..n], fates[..n], f) + if fates[n] == f then [ops[n]] else []
  }

  /**
   What becomes of operation i: an insert is admitted; a search exactly if it meets its own deadline
   and the build still meets its.
   */
  ghost predicate FateAt(c: Costs, ops: seq<Op>, fates: seq<Fate>, i: nat)
    requires i < |ops| == |fates|
  {
    match ops[i].opType
    case VectorInsert => fates[i] == Admitted
    case VectorSearch =>
      var inserts := CountType(ops[..i], fates[..i], VectorInsert, Admitted);
      var searches := CountType(ops[..i], fates[..i], VectorSearch, Admitted);
      fates[i] == if MeetsOwnDeadline(c, ops[i]) && c.tSearch > 0.0 && InBudget(c, inserts, searches + 1) then Admitted
          else Rejected
    case _ => fates[i] == Dropped
  }

  ghost predicate FatesOk(c: Costs, ops: seq<Op>, fates: seq<Fate>) {
    |ops| == |fates| && forall i :: 0 <= i < |ops| ==> FateAt(c, ops, fates, i)
  }

  lemma FatesMore(c: Costs, ops: seq<Op>, fates: seq<Fate>, op: Op, f: Fate)
    requires FatesOk(c, ops, fates) && FateAt(c, ops + [op], fates + [f], |ops|)
    ensures FatesOk(c, ops + [op], fates + [f])
  {
    forall i | 0 <= i < |ops|
      ensures FateAt(c, ops + [op], fates + [f], i)
    {
      assert FateAt(c, ops, fates, i) && (ops + [op])[..i] == ops[..i] && (fates + [f])[..i] == fates[..i];
    }
  }

  lemma ChosenMore(ops: seq<Op>, fates: seq<Fate>, op: Op, f: Fate)
    requires |ops| == |fates|
    ensures forall g :: Chosen(ops + [op], fates + [f], g) == Chosen(ops, fates, g) + if f == g then [op] else []
    ensures forall t, g ::
              CountType(ops + [op], fates + [f], t, g) ==
              CountType(ops, fates, t, g) + if op.opType == t && f == g then 1 else 0
  {
    assert (ops + [op])[..|ops|] == ops && (fates + [f])[..|ops|] == fates;
  }

  /** The decision of the loop for operation i is its fate. */
  lemma Decided(c: Costs, ops: seq<Op>, fates: seq<Fate>, i: nat, f: Fate, inserts: nat, searches: nat)
    requires i < |ops| && |fates| == i && FatesOk(c, ops[..i], fates)
    requires inserts == CountType(ops[..i], fates, VectorInsert, Admitted)
        && searches == CountType(ops[..i], fates, VectorSearch, Admitted)
    requires f == match ops[i].opType
                  case VectorInsert => Admitted
                  case VectorSearch => if MeetsOwnDeadline(c, ops[i]) && searches < MaxSearches(c, inserts)
                      then Admitted else Rejected
                  case _ => Dropped
    ensures ops[..i + 1] == ops[..i] + [ops[i]] && FatesOk(c, ops[..i + 1], fates + [f])
  {
    RoomIsBudget(c, inserts, searches);
    assert ops[..i + 1] == ops[..i] + [ops[i]];
    assert (ops[..i] + [ops[i]])[..i] == ops[..i] && (fates + [f])[..i] == fates;
    FatesMore(c, ops[..i], fates, ops[i], f);
  }

  lemma FatesPrefix(c: Costs, ops: seq<Op>, fates: seq<Fate>, n: nat)
    requires FatesOk(c, ops, fates) && n <= |ops|
    ensures FatesOk(c, ops[..n], fates[..n])
  {
    forall i | 0 <= i < n
      ensures FateAt(c, ops[..n], fates[..n], i)
    {
      assert FateAt(c, ops, fates, i) && ops[..n][..i] == ops[..i] && fates[..n][..i] == fates[..i];
    }
  }

  /** An admitted search, with the checkpoint before it and the resumption after it, ends by its own deadline. */
  lemma {:induction false} AdmittedInTime(c: Costs, ops: seq<Op>, fates: seq<Fate>)
    requires FatesOk(c, ops, fates)
    ensures forall op :: op in Chosen(ops, fates, Admitted) && op.opType == VectorSearch ==>
        op.deadline.Some? && c.tCheckpoint + c.tSearch + c.tResume <= op.deadline.value
  {
    if ops != [] {
      var n := |ops| - 1;
      assert FateAt(c, ops, fates, n);
      FatesPrefix(c, ops, fates, n);
      AdmittedInTime(c, ops[..n], fates[..n]);
    }
  }

  /**
   A search is turned away only if it could not end by its own deadline, costs nothing, or would
   make the build late.
   */
  lemma RejectedForCause(c: Costs, ops: seq<Op>, fates: seq<Fate>, i: nat)
    requires FatesOk(c, ops, fates) && i < |ops| && fates[i] == Rejected
    ensures ops[i].opType == VectorSearch
    ensures var inserts := Inserts(ops[..i]); var searches := AdmittedSearches(ops, fates, i);
            || ops[i].deadline.None? || c.tCheckpoint + c.tSearch + c.tResume > ops[i].deadline.value
            || c.tSearch <= 0.0
            || c.buildTime + 2.0 * (c.tCheckpoint + c.tResume) + inserts as real * c.tInsert
               + (searches + 1) as real * c.tSearch > c.buildDeadline
  {
    assert FateAt(c, ops, fates, i);
    InsertsAreAdmitted(c, ops, fates, i);
  }

  /** The loop of _schedule_slo_p over the operations after the build. */
  method AdmitLoop(c: Costs, postOps: seq<Op>)
          returns (admitted: seq<Op>, rejectedSearches: seq<Op>, ghost fates: seq<Fate>)
    ensures FatesOk(c, postOps, fates) && admitted == Chosen(postOps, fates, Admitted)
        && rejectedSearches == Chosen(postOps, fates, Rejected)
    ensures forall op :: op in admitted && op.opType == VectorSearch ==>
        op.deadline.Some? && c.tCheckpoint + c.tSearch + c.tResume <= op.deadline.value
  {
    admitted, rejectedSearches, fates := [], [], [];
    var nAdmittedSearch, nProceedingInsert := 0, 0;
    for i := 0 to |postOps|
      invariant FatesOk(c, postOps[..i], fates)
      invariant admitted == Chosen(postOps[..i], fates, Admitted)
          && rejectedSearches == Chosen(postOps[..i], fates, Rejected)
      invariant nProceedingInsert == CountType(postOps[..i], fates, VectorInsert, Admitted)
      invariant nAdmittedSearch == CountType(postOps[..i], fates, VectorSearch, Admitted)
    {
      var op := postOps[i];
      ghost var inserts, searches := nProceedingInsert, nAdmittedSearch;
      ghost var f := Dropped;
      if op.opType == VectorInsert {
        f := Admitted;
        admitted := admitted + [op];
        nProceedingInsert := nProceedingInsert + 1;
      } else if op.opType == VectorSearch {
        if MeetsOwnDeadline(c, op) && nAdmittedSearch < MaxSearches(c, nProceedingInsert) {
          f := Admitted;
          admitted := admitted + [op];
          nAdmittedSearch := nAdmittedSearch + 1;
        } else {
          f := Rejected;
          rejectedSearches := rejectedSearches + [op];
        }
      }
      Decided(c, postOps, fates, i, f, inserts, searches);
      ChosenMore(postOps[..i], fates, op, f);
      fates := fates + [f];
    }
    assert postOps[..|postOps|] == postOps;
    AdmittedInTime(c, postOps, fates);
  }

  // ---------- what the loop guarantees ----------

  lemma LastPlaced(ops: seq<Op>, op: Op, f: Fate, a: seq<Op>, r: seq<Op>, d: seq<Op>)
    requires multiset(a) + multiset(r) + multiset(d) == multiset(ops)
    ensures multiset(a + if f == Admitted then [op] else []) + multiset(r + if f == Rejected then [op]
        else []) + multiset(d + if f == Dropped then [op] else [])
            == multiset(ops + [op])
  {
  }

  /** Every insert and search after the build is in exactly one of the two lists, as often as it was asked for. */
  lemma {:induction false} NothingLost(c: Costs, ops: seq<Op>, fates: seq<Fate>)
    requires FatesOk(c, ops, fates)
    ensures multiset(Chosen(ops, fates, Admitted)) + multiset(Chosen(ops, fates, Rejected)) + multiset(Chosen(ops,
        fates, Dropped)) == multiset(ops)
    ensures forall op :: op in Chosen(ops, fates, Dropped) ==> op.opType != VectorInsert && op.opType != VectorSearch
    ensures forall op :: op in Chosen(ops, fates, Rejected) ==> op.opType == VectorSearch
  {
    if ops != [] {
      var n := |ops| - 1;
      assert ops == ops[..n] + [ops[n]] && fates == fates[..n] + [fates[n]];
      assert FateAt(c, ops, fates, n);
      FatesPrefix(c, ops, fates, n);
      NothingLost(c, ops[..n], fates[..n]);
      hide FateAt, FatesOk, CountType, Chosen;
      ChosenMore(ops[..n], fates[..n], ops[n], fates[n]);
      LastPlaced(ops[..n], ops[n], fates[n], Chosen(ops[..n], fates[..n], Admitted),
          Chosen(ops[..n], fates[..n], Rejected), Chosen(ops[..n], fates[..n], Dropped));
    }
  }

  /**
   At the last admitted search the build still meets its deadline, with everything admitted up to
   then; no search is admitted later.
   */
  lemma {:induction false} BudgetAtLastAdmission(c: Costs, ops: seq<Op>, fates: seq<Fate>, i: nat)
    requires FatesOk(c, ops, fates) && i < |ops| && ops[i].opType == VectorSearch && fates[i] == Admitted
    requires forall j :: i < j < |ops| ==> !(ops[j].opType == VectorSearch && fates[j] == Admitted)
    ensures c.buildTime + 2.0 * (c.tCheckpoint + c.tResume)
            + CountType(ops[..i], fates[..i], VectorInsert, Admitted) as real * c.tInsert
            + CountType(ops, fates, VectorSearch, Admitted) as real * c.tSearch
            <= c.buildDeadline
  {
    assert FateAt(c, ops, fates, i);
    NoneLater(ops, fates, i + 1, |ops|);
    assert ops[..|ops|] == ops && fates[..|fates|] == fates;
    assert ops[..i + 1][..i] == ops[..i] && fates[..i + 1][..i] == fates[..i];
  }

  lemma {:induction false} NoneLater(ops: seq<Op>, fates: seq<Fate>, i: nat, j: nat)
    requires i <= j <= |ops| == |fates| && forall k :: i <= k < j ==>
        !(ops[k].opType == VectorSearch && fates[k] == Admitted)
    ensures CountType(ops[..i], fates[..i], VectorSearch, Admitted) == CountType(ops[..j], fates[..j], VectorSearch,
        Admitted)
    decreases j - i
  {
    if i < j {
      NoneLater(ops, fates, i, j - 1);
      assert ops[..j][..j - 1] == ops[..j - 1] && fates[..j][..j - 1] == fates[..j - 1];
    }
  }

  // ---------- does the whole plan meet the deadline? ----------

  /** The whole plan, with the inserts after the last admitted search, meets the deadline of the build. */
  ghost predicate PlanInBudget(c: Costs, ops: seq<Op>, fates: seq<Fate>)
    requires |ops| == |fates|
  {
    InBudget(c, CountType(ops, fates, VectorInsert, Admitted), CountType(ops, fates, VectorSearch, Admitted))
  }

  /** One search that just fits and an insert after it: the loop admits both, and the build is late. */
  lemma LaterInsertsBreakTheBudget()
    ensures var c := Costs(1.0, 5.0, 2.0, 1.0, 0.5, 0.5);
            var search := Op(VectorSearch, 0.0, Some(10.0));
            var insert := Op(VectorInsert, 0.0, None);
            FatesOk(c, [search, insert], [Admitted, Admitted])
                && !PlanInBudget(c, [search, insert], [Admitted, Admitted])
  {
    var c := Costs(1.0, 5.0, 2.0, 1.0, 0.5, 0.5);
    var search := Op(VectorSearch, 0.0, Some(10.0));
    var insert := Op(VectorInsert, 0.0, None);
    var ops, fates := [search, insert], [Admitted, Admitted];
    assert ops[..0] == [] && ops[..1] == [search] && fates[..1] == [Admitted];
    assert [search][..0] == [] && [Admitted][..0] == [];
  }

  /** How many inserts there are. */
  function Inserts(ops: seq<Op>): nat {
    if ops == [] then 0 else Inserts(ops[..|ops| - 1]) + if ops[|ops| - 1].opType == VectorInsert then 1 else 0
  }

  predicate Timely(c: Costs, op: Op) {
    op.opType == VectorSearch && MeetsOwnDeadline(c, op)
  }

  /** How many searches could meet their own deadlines. */
  function TimelySearches(c: Costs, ops: seq<Op>): nat {
    if ops == [] then 0 else TimelySearches(c, ops[..|ops| - 1]) + if Timely(c, ops[|ops| - 1]) then 1 else 0
  }

  lemma {:induction false} InsertsAreAdmitted(c: Costs, ops: seq<Op>, fates: seq<Fate>, n: nat)
    requires FatesOk(c, ops, fates) && n <= |ops|
    ensures CountType(ops[..n], fates[..n], VectorInsert, Admitted) == Inserts(ops[..n])
  {
    if n > 0 {
      InsertsAreAdmitted(c, ops, fates, n - 1);
      assert FateAt(c, ops, fates, n - 1);
      assert ops[..n][..n - 1] == ops[..n - 1] && fates[..n][..n - 1] == fates[..n - 1];
    }
  }

  /** How many searches are admitted among the first n operations. */
  function AdmittedSearches(ops: seq<Op>, fates: seq<Fate>, n: nat): nat
    requires n <= |ops| == |fates|
  {
    CountType(ops[..n], fates[..n], VectorSearch, Admitted)
  }

  lemma AdmittedNext(c: Costs, ops: seq<Op>, fates: seq<Fate>, n: nat)
    requires FatesOk(c, ops, fates) && n < |ops|
    ensures var admits := Timely(c, ops[n]) && c.tSearch > 0.0 && InBudget(c, Inserts(ops[..n]),
        AdmittedSearches(ops, fates, n) + 1);
            && (admits <==> ops[n].opType == VectorSearch && fates[n] == Admitted)
            && AdmittedSearches(ops, fates, n + 1) == AdmittedSearches(ops, fates, n) + if admits then 1 else 0
    ensures Inserts(ops[..n + 1]) == Inserts(ops[..n]) + if ops[n].opType == VectorInsert then 1 else 0
    ensures TimelySearches(c, ops[..n + 1]) == TimelySearches(c, ops[..n]) + if Timely(c, ops[n]) then 1 else 0
  {
    InsertsAreAdmitted(c, ops, fates, n);
    assert FateAt(c, ops, fates, n);
    assert ops[..n + 1][..n] == ops[..n] && fates[..n + 1][..n] == fates[..n];
    hide InBudget, MeetsOwnDeadline;
  }

  /** More of anything makes the build later. */
  lemma BudgetShrinks(c: Costs, inserts: nat, searches: nat, inserts': nat, searches': nat)
    requires c.tSearch >= 0.0 && c.tInsert >= 0.0 && inserts <= inserts' && searches <= searches'
    ensures InBudget(c, inserts', searches') ==> InBudget(c, inserts, searches)
  {
    TimesMonotone(inserts, inserts', c.tInsert);
    TimesMonotone(searches, searches', c.tSearch);
  }

  lemma TimesMonotone(a: nat, b: nat, t: real)
    requires a <= b && t >= 0.0
    ensures a as real * t <= b as real * t
  {
    assert (b as real - a as real) * t >= 0.0;
  }

  /** The timely searches are admitted up to the first the build has no room for, and none after it. */
  lemma {:induction false} AdmittedFirst(c: Costs, ops: seq<Op>, fates: seq<Fate>, n: nat)
    requires FatesOk(c, ops, fates) && n <= |ops| && c.tSearch > 0.0 && c.tInsert >= 0.0
    ensures var k, s := Inserts(ops[..n]), AdmittedSearches(ops, fates, n);
            s <= TimelySearches(c, ops[..n]) && (s < TimelySearches(c, ops[..n]) ==> !InBudget(c, k, s + 1))
  {
    if n > 0 {
      AdmittedFirst(c, ops, fates, n - 1);
      AdmittedNext(c, ops, fates, n - 1);
      var k, s, k', s' := Inserts(ops[..n - 1]), AdmittedSearches(ops, fates, n - 1), Inserts(ops[..n]),
          AdmittedSearches(ops, fates, n);
      BudgetShrinks(c, k, s + 1, k', s' + 1);
      hide InBudget, MeetsOwnDeadline;
    }
  }

  lemma {:induction false} AdmittedGrow(ops: seq<Op>, fates: seq<Fate>, n: nat, n': nat)
    requires n <= n' <= |ops| == |fates|
    ensures AdmittedSearches(ops, fates, n) <= AdmittedSearches(ops, fates, n')
    decreases n' - n
  {
    if n < n' {
      AdmittedGrow(ops, fates, n, n' - 1);
      assert ops[..n'][..n' - 1] == ops[..n' - 1] && fates[..n'][..n' - 1] == fates[..n' - 1];
    }
  }

  /**
   If timely search i comes while the build has room for it, then the build has room for it even
   with all the inserts there are.
   */
  ghost predicate HasRoomLater(c: Costs, ops: seq<Op>, i: nat)
    requires i < |ops|
  {
    var t := TimelySearches(c, ops[..i]) + 1;
    Timely(c, ops[i]) && InBudget(c, Inserts(ops[..i]), t) ==> InBudget(c, Inserts(ops), t)
  }

  /** What can be checked on the operations alone, before the loop. */
  ghost predicate FitsWithAllInserts(c: Costs, ops: seq<Op>) {
    InBudget(c, Inserts(ops), 0) && forall i :: 0 <= i < |ops| ==> HasRoomLater(c, ops, i)
  }

  /** The position of the last admitted search. */
  lemma {:induction false} LastAdmitted(c: Costs, ops: seq<Op>, fates: seq<Fate>, n: nat) returns (i: nat)
    requires FatesOk(c, ops, fates) && n <= |ops| && AdmittedSearches(ops, fates, n) > 0
    ensures i < n && ops[i].opType == VectorSearch && fates[i] == Admitted
    ensures AdmittedSearches(ops, fates, i) + 1 == AdmittedSearches(ops, fates, n)
  {
    AdmittedNext(c, ops, fates, n - 1);
    hide InBudget, MeetsOwnDeadline, CountType;
    if ops[n - 1].opType == VectorSearch && fates[n - 1] == Admitted {
      i := n - 1;
    } else {
      i := LastAdmitted(c, ops, fates, n - 1);
    }
  }

  /** The plan meets the deadline exactly if every search that fits when it comes also fits with all the inserts. */
  lemma {:induction false} PlanMeetsDeadlineIff(c: Costs, ops: seq<Op>, fates: seq<Fate>)
    requires FatesOk(c, ops, fates) && c.tSearch > 0.0 && c.tInsert >= 0.0
    ensures PlanInBudget(c, ops, fates) <==> FitsWithAllInserts(c, ops)
  {
    var n := |ops|;
    assert ops[..n] == ops && fates[..n] == fates;
    InsertsAreAdmitted(c, ops, fates, n);
    var k, s := Inserts(ops), AdmittedSearches(ops, fates, n);
    BudgetShrinks(c, k, 0, k, s);
    if PlanInBudget(c, ops, fates) {
      forall i | 0 <= i < n
        ensures HasRoomLater(c, ops, i)
      {
        RoomIsKept(c, ops, fates, i);
      }
    } else if s > 0 {
      var i := LastAdmitted(c, ops, fates, n);
      AdmittedNext(c, ops, fates, i);
      AdmittedFirst(c, ops, fates, i);
      hide InBudget, MeetsOwnDeadline, FatesOk;
      assert !HasRoomLater(c, ops, i);
    }
  }

  lemma {:induction false} RoomIsKept(c: Costs, ops: seq<Op>, fates: seq<Fate>, i: nat)
    requires FatesOk(c, ops, fates) && c.tSearch > 0.0 && c.tInsert >= 0.0 && i < |ops|
    requires InBudget(c, Inserts(ops), AdmittedSearches(ops, fates, |ops|))
    ensures HasRoomLater(c, ops, i)
  {
    var s, si, t := AdmittedSearches(ops, fates, |ops|), AdmittedSearches(ops, fates, i),
        TimelySearches(c, ops[..i]) + 1;
    AdmittedNext(c, ops, fates, i);
    AdmittedFirst(c, ops, fates, i);
    AdmittedGrow(ops, fates, i + 1, |ops|);
    if t <= s {
      BudgetShrinks(c, Inserts(ops), t, Inserts(ops), s);
    } else {
      BudgetShrinks(c, Inserts(ops[..i]), si + 1, Inserts(ops[..i]), t);
      hide InBudget, MeetsOwnDeadline, FatesOk;
      assert !InBudget(c, Inserts(ops[..i]), t) || !Timely(c, ops[i]);
    }
  }

  /** Where searches cost nothing, or there is none to admit, only the inserts count. */
  lemma {:induction false} NothingAdmittedIff(c: Costs, ops: seq<Op>, fates: seq<Fate>)
    requires FatesOk(c, ops, fates) && (c.tSearch <= 0.0 || forall i :: 0 <= i < |ops| ==> !Timely(c, ops[i]))
    ensures AdmittedSearches(ops, fates, |ops|) == 0 && (PlanInBudget(c, ops, fates) <==> InBudget(c, Inserts(ops), 0))
  {
    var n := |ops|;
    assert ops[..n] == ops && fates[..n] == fates;
    InsertsAreAdmitted(c, ops, fates, n);
    if AdmittedSearches(ops, fates, n) > 0 {
      var i := LastAdmitted(c, ops, fates, n);
      AdmittedNext(c, ops, fates, i);
    }
  }

  /** The time the build has left at the last admitted search. */
  function Slack(c: Costs, inserts: nat, searches: nat): real {
    c.buildDeadline
    - (c.buildTime + 2.0 * (c.tCheckpoint + c.tResume) + inserts as real * c.tInsert + searches as real * c.tSearch)
  }

  /**
   With i the last admitted search, the plan meets the deadline exactly if the inserts after i fit
   into the slack left at i, which is not negative.
   */
  lemma {:induction false} InsertsFitTheSlackIff(c: Costs, ops: seq<Op>, fates: seq<Fate>, i: nat)
    requires FatesOk(c, ops, fates) && i < |ops| && ops[i].opType == VectorSearch && fates[i] == Admitted
    requires AdmittedSearches(ops, fates, i + 1) == AdmittedSearches(ops, fates, |ops|)
    ensures var before := Inserts(ops[..i]); var slack := Slack(c, before, AdmittedSearches(ops, fates, i) + 1);
            && slack >= 0.0
            && (PlanInBudget(c, ops, fates) <==> (Inserts(ops) - before) as real * c.tInsert <= slack)
  {
    hide FateAt, CountType, MeetsOwnDeadline, Slack, InBudget;
    var n, before := |ops|, Inserts(ops[..i]);
    assert ops[..n] == ops && fates[..n] == fates;
    InsertsAreAdmitted(c, ops, fates, n);
    AdmittedNext(c, ops, fates, i);
    MoreInserts(c, before, Inserts(ops), AdmittedSearches(ops, fates, i) + 1);
  }

  /** The budget with some inserts more, in terms of the slack without them. */
  lemma MoreInserts(c: Costs, before: nat, inserts: nat, searches: nat)
    ensures InBudget(c, inserts, searches)
       <==> (inserts - before) as real * c.tInsert <= Slack(c, before, searches)
    ensures InBudget(c, before, searches) <==> Slack(c, before, searches) >= 0.0
  {
    TimesDifference(inserts, before, c.tInsert);
  }

  lemma TimesDifference(a: nat, b: nat, t: real)
    ensures (a - b) as real * t == a as real * t - b as real * t
  {
    assert (a - b) as real == a as real - b as real;
  }

  /** The position of the first build, if there is one. */
  function FirstBuild(ops: seq<Op>, i: nat): (r: Option<nat>)
    requires i <= |ops|
    ensures r.None? ==> forall k :: i <= k < |ops| ==> ops[k].opType != IndexBuild
    ensures r.Some? ==> i <= r.value < |ops| && ops[r.value].opType == IndexBuild && forall k :: i <= k < r.value ==>
        ops[k].opType != IndexBuild
    decreases |ops| - i
  {
    if i == |ops| then None else if ops[i].opType == IndexBuild then Some(i) else FirstBuild(ops, i + 1)
  }

  /**
   _schedule_slo_p: what comes before the build stays, the admitted operations run while the build is
   paused, the rejected searches before the wait for the build. With nothing admitted the wait has no
   time to refer to.
   */
  method ScheduleSloP(c: Costs, ops: seq<Op>) returns (r: Result<seq<Op>, Failure>, ghost fates: seq<Fate>)
    ensures match FirstBuild(ops, 0)
            case None => r == Success(ops)
            case Some(b) =>
              var post := ops[b + 1..];
              && FatesOk(c, post, fates)
              && var admitted, rejected := Chosen(post, fates, Admitted), Chosen(post, fates, Rejected);
              if admitted == [] then r == Failure(IndexError)
              else
                var last := admitted[|admitted| - 1].arrival;
                r == Success(ops[..b] + [Op(IndexBuildAsync, ops[b].arrival, None),
                    Op(PauseBuild, ops[b].arrival, None)] + admitted
                             + [Op(ResumeBuild, last, None)] + rejected + [Op(IndexBuildWait, last + 0.000001, None)])
  {
    fates := [];
    var buildIdx := 0;
    while buildIdx < |ops| && ops[buildIdx].opType != IndexBuild
      invariant 0 <= buildIdx <= |ops| && FirstBuild(ops, 0) == FirstBuild(ops, buildIdx)
    {
      buildIdx := buildIdx + 1;
    }
    if buildIdx == |ops| {
      return Success(ops), fates;
    }
    var result := ops[..buildIdx];
    var admitted, rejectedSearches;
    admitted, rejectedSearches, fates := AdmitLoop(c, ops[buildIdx + 1..]);
    result := result + [Op(IndexBuildAsync, ops[buildIdx].arrival, None)];
    if admitted == [] {
      return Failure(IndexError), fates;
    }
    var last := admitted[|admitted| - 1].arrival;
    result := result + [Op(PauseBuild, ops[buildIdx].arrival, None)] + admitted + [Op(ResumeBuild, last, None)];
    result := result + rejectedSearches + [Op(IndexBuildWait, last + 0.000001, None)];
    assert result == ops[..buildIdx] + [Op(IndexBuildAsync, ops[buildIdx].arrival, None),
        Op(PauseBuild, ops[buildIdx].arrival, None)] + admitted
                     + [Op(ResumeBuild, last, None)] + rejectedSearches + [Op(IndexBuildWait, last + 0.000001, None)];
    return Success(result), fates;
  }
}
