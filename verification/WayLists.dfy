/**
 The scheduler of one channel: every way is in one of seven lists, according to what its die is doing
 and what the first request of its NAND queue asks for. The controller's answers are inputs, and which
 requests reach the queues meanwhile is left open.
 */
module WayLists {
  import opened Common
  import opened IndexLists

  const WAY_NONE: nat := 0xf
  const RETRY_LIMIT: nat := 5

  const IDLE: nat := 0
  const REPORT: nat := 1
  const ERASE: nat := 2
  const TRIGGER: nat := 3
  const WRITE: nat := 4
  const TRANSFER: nat := 5
  const CHECK: nat := 6
  const LISTS: nat := 7

  /** reqCode; a read becomes a read transfer while it is first in its queue. */
  datatype Code = Read | ReadTransfer | Write | Erase | Reset | SetFeature

  /** reqStatusCheckOpt */
  datatype CheckOpt = NoCheck | CheckFirst | Report | CompletionFlag

  datatype Status = Running | Done | Fail | Warning

  /** PutToNandWayPriorityTable: the list for a first request. */
  function ListFor(c: Code): nat {
    match c
    case Read => TRIGGER
    case ReadTransfer => TRANSFER
    case Erase => ERASE
    case _ => WRITE
  }

  predicate IsRead(c: Code) {
    c == Read || c == ReadTransfer
  }

  /** A way's list, the state of its die and its queue agree. */
  predicate Agrees(list: nat, exe: bool, queue: seq<Code>) {
    && list < LISTS
    && (exe <==> list == REPORT || list == CHECK)
    && (list != IDLE ==> queue != [])
    && (!exe && list != IDLE ==> ListFor(queue[0]) == list)
  }

  /** The list has exactly the ways that are said to be in it. */
  ghost predicate ListedIn(list: seq<nat>, at: seq<nat>, q: nat) {
    forall w: nat :: w in list <==> w < |at| && at[w] == q
  }

  /**
   What the controller answers about a way: whether it is ready; whether its transfer is complete, its
   status reported or itself ready again, whichever is asked for; and how its request went.
   */
  datatype Answer = Answer(ready: bool, done: bool, complete: bool, fail: bool, warning: bool)

  /** CheckReqStatus, from what is to be checked and the answers. */
  ghost predicate Judged(opt: CheckOpt, a: Answer, opt': CheckOpt, status: Status) {
    match opt
    case CompletionFlag =>
      opt' == opt && status == if !a.done then Running else if a.warning then Warning else if a.fail then Fail else Done
    case CheckFirst => opt' == Report && status == Running
    case Report =>
      if !a.done then opt' == opt && status == Running
      else if !a.complete then opt' == CheckFirst && status == Running
      else if a.fail then opt' == opt && status == Fail
      else opt' == NoCheck && status == Done
    case NoCheck => opt' == opt && status == if a.done then Done else Running
  }

  /** IssueNandReq: what the request is to be checked by. */
  ghost predicate IssuedAs(c: Code, opt: CheckOpt) {
    match c
    case ReadTransfer => opt == CompletionFlag
    case Reset => opt == NoCheck
    case SetFeature => opt == NoCheck
    case _ => opt == CheckFirst
  }

  /** A busy way's queue once its first request got the status: a read goes on, starts over, or is over. */
  function Left(q: seq<Code>, status: Status, retry: nat): seq<Code>
    requires q != []
  {
    if status == Running then q
    else if status == Done && q[0] == Read then [ReadTransfer] + q[1..]
    else if status == Fail && IsRead(q[0]) && retry > 0 then [Read] + q[1..]
    else q[1..]
  }

  function RetriesLeft(q: seq<Code>, status: Status, retry: nat): nat
    requires q != []
  {
    if status == Running || (status == Done && q[0] == Read) then retry
    else if status == Fail && IsRead(q[0]) && retry > 0 then retry - 1
    else RETRY_LIMIT
  }

  // ---------- the state of a channel, and what a round does to it ----------

  /** The lists, and per way its list, whether its die is busy, what is to be checked, its retries and its queue. */
  datatype Ways = Ways(lists: seq<seq<nat>>, at: seq<nat>, exe: seq<bool>, opt: seq<CheckOpt>, retry: seq<nat>,
          queue: seq<seq<Code>>)

  ghost predicate Sized(s: Ways, n: nat) {
    |s.lists| == LISTS && |s.at| == |s.exe| == |s.opt| == |s.retry| == |s.queue| == n
  }

  /** A way is in the list it is said to be in, and in no other. */
  ghost predicate InLists(s: Ways) {
    |s.lists| == LISTS && forall q: nat :: q < LISTS ==> ListedIn(s.lists[q], s.at, q)
  }

  /** Nothing about way w changed, except that requests may have reached its queue. */
  ghost predicate SameWay(s: Ways, s': Ways, w: nat)
    requires Sized(s, |s.at|) && Sized(s', |s.at|) && w < |s.at|
  {
    && s'.at[w] == s.at[w] && s'.exe[w] == s.exe[w] && s'.opt[w] == s.opt[w] && s'.retry[w] == s.retry[w]
    && s.queue[w] <= s'.queue[w]
  }

  /** An idle way with something to do, perhaps released just now, is listed by its first request; no other moves. */
  ghost predicate IdleServed(s: Ways, s': Ways, w: nat)
    requires Sized(s, |s.at|) && Sized(s', |s.at|) && w < |s.at|
  {
    && s'.exe[w] == s.exe[w] && s'.opt[w] == s.opt[w] && s'.retry[w] == s.retry[w]
    && (s.at[w] != IDLE || s.queue[w] != [] ==> s'.queue[w] == s.queue[w])
    && s'.at[w] == if s.at[w] != IDLE then s.at[w] else if s'.queue[w] == [] then IDLE else ListFor(s'.queue[w][0])
  }

  /**
   A way of the report list: not asked unless it is ready. While its request runs it stays, or goes to
   be checked again. Otherwise its die is idle, and the way is listed by what is left of its queue.
   */
  ghost predicate Reported(s: Ways, s': Ways, w: nat, a: Answer, status: Status)
    requires Sized(s, |s.at|) && Sized(s', |s.at|) && w < |s.at|
  {
    if !a.ready then status == Running && SameWay(s, s', w)
    else
      && s.queue[w] != [] && Judged(s.opt[w], a, s'.opt[w], status)
      && Left(s.queue[w], status, s.retry[w]) <= s'.queue[w]
      && s'.retry[w] == RetriesLeft(s.queue[w], status, s.retry[w])
      && (s'.exe[w] <==> status == Running)
      && if status == Running then s'.at[w] == if s'.opt[w] == CheckFirst then CHECK else REPORT
         else
           || (s'.at[w] == IDLE && Left(s.queue[w], status, s.retry[w]) == [])
           || (s'.queue[w] != [] && s'.at[w] == ListFor(s'.queue[w][0]))
  }

  /** Way w, which is ready, has its status asked for and goes from the check list, of which rest stays, to report. */
  ghost predicate CheckedWay(s: Ways, s': Ways, a: Answer, w: nat, rest: seq<nat>)
    requires Sized(s, |s.at|)
  {
    && a.ready && w < |s.at| && |s'.opt| == |s.opt|
    && (exists status :: Judged(s.opt[w], a, s'.opt[w], status))
    && s' == s.(lists := s.lists[CHECK := rest][REPORT := s.lists[REPORT] + [w]], at := s.at[w := REPORT],
                opt := s.opt[w := s'.opt[w]])
  }

  /** It is the first ready way of the list, at position i. */
  ghost predicate Checked(s: Ways, s': Ways, answers: seq<Answer>, i: nat)
    requires Sized(s, |s.at|) && |answers| == |s.at|
  {
    && i < |s.lists[CHECK]| && NoneReady(s.lists[CHECK][..i], answers) && s.lists[CHECK][i] < |answers|
    && CheckedWay(s, s', answers[s.lists[CHECK][i]], s.lists[CHECK][i], RemoveAt(s.lists[CHECK], i))
  }

  ghost predicate NoneReady(list: seq<nat>, answers: seq<Answer>) {
    forall w :: w in list && w < |answers| ==> !answers[w].ready
  }

  lemma IsChecked(s: Ways, s': Ways, answers: seq<Answer>, kept: seq<nat>, rest: seq<nat>)
    requires Sized(s, |s.at|) && |answers| == |s.at| && rest != [] && s.lists[CHECK] == kept + rest
    requires NoneReady(kept, answers) && rest[0] < |answers|
    requires CheckedWay(s, s', answers[rest[0]], rest[0], kept + rest[1..])
    ensures Checked(s, s', answers, |kept|)
  {
    hide CheckedWay;
    assert (kept + rest)[..|kept|] == kept && RemoveAt(kept + rest, |kept|) == kept + rest[1..];
  }

  /** The request of the first way of the list is started, and the way goes where its status is looked after. */
  ghost predicate StartedFirst(s: Ways, s': Ways, list: nat, to: nat)
    requires Sized(s, |s.at|) && list < LISTS && to < LISTS && list != to
  {
    if s.lists[list] == [] then s' == s
    else
      var w := s.lists[list][0];
      && w < |s.at| && s.queue[w] != [] && |s'.opt| == |s.opt| && IssuedAs(s.queue[w][0], s'.opt[w])
      && s' == s.(lists := s.lists[list := s.lists[list][1..]][to := s.lists[to] + [w]],
                  at := s.at[w := to], exe := s.exe[w := true], opt := s.opt[w := s'.opt[w]])
  }

  // ---------- the passes, on states ----------

  /** Only way w changed, in its list and its queue. */
  ghost predicate OnlyMoves(s: Ways, s': Ways, w: nat)
    requires Sized(s, |s.at|) && Sized(s', |s.at|) && w < |s.at|
  {
    && s'.exe == s.exe && s'.opt == s.opt && s'.retry == s.retry
    && s'.at == s.at[w := s'.at[w]] && s'.queue == s.queue[w := s'.queue[w]]
  }

  /** What stood in a list other than but still stands first in it. */
  ghost predicate Grown(s: Ways, s': Ways, but: nat) {
    |s.lists| == |s'.lists| && forall q :: 0 <= q < |s.lists| && q != but ==> s.lists[q] <= s'.lists[q]
  }

  /** The idle ways of rest are as in s; the others were served. */
  ghost predicate IdleSoFar(s: Ways, s': Ways, rest: seq<nat>)
    requires Sized(s, |s.at|)
  {
    && Sized(s', |s.at|) && Grown(s, s', IDLE)
    && forall w :: 0 <= w < |s.at| ==>
      if w in rest then SameWay(s, s', w) && s'.queue[w] == s.queue[w] else IdleServed(s, s', w)
  }

  lemma IdleStarts(s: Ways)
    requires Sized(s, |s.at|) && InLists(s)
    ensures IdleSoFar(s, s, s.lists[IDLE])
  {
    assert ListedIn(s.lists[IDLE], s.at, IDLE);
  }

  lemma RestMember(rest: seq<nat>, w: nat)
    requires rest != []
    ensures w in rest <==> w == rest[0] || w in rest[1..]
  {
    assert rest == [rest[0]] + rest[1..];
  }

  lemma OthersStay(s: Ways, s': Ways, v: nat, w: nat)
    requires Sized(s, |s.at|) && Sized(s', |s.at|) && v < |s.at| && w < |s.at| && v != w && OnlyMoves(s, s', v)
    ensures s'.at[w] == s.at[w] && s'.exe[w] == s.exe[w] && s'.opt[w] == s.opt[w] && s'.retry[w] == s.retry[w]
        && s'.queue[w] == s.queue[w]
  {
  }

  lemma IdleOnce(s: Ways, s': Ways, s'': Ways, rest: seq<nat>)
    requires Sized(s, |s.at|) && IdleSoFar(s, s', rest) && Sized(s'', |s.at|)
    requires rest != [] && rest[0] !in rest[1..] && rest[0] < |s.at|
    requires OnlyMoves(s', s'', rest[0]) && IdleServed(s', s'', rest[0]) && Grown(s', s'', IDLE)
    ensures IdleSoFar(s, s'', rest[1..])
  {
    forall w | 0 <= w < |s.at|
      ensures if w in rest[1..] then SameWay(s, s'', w) && s''.queue[w] == s.queue[w] else IdleServed(s, s'', w)
    {
      RestMember(rest, w);
      if w == rest[0] {
        assert SameWay(s, s', w);
      } else {
        OthersStay(s', s'', rest[0], w);
        assert if w in rest then SameWay(s, s', w) && s'.queue[w] == s.queue[w] else IdleServed(s, s', w);
      }
    }
  }

  /** The report ways of rest are as in s, but for arrivals; the others reported. */
  ghost predicate ReportSoFar(s: Ways, s': Ways, rest: seq<nat>, answers: seq<Answer>, status: seq<Status>)
    requires Sized(s, |s.at|)
  {
    && Sized(s', |s.at|) && Grown(s, s', REPORT) && |answers| == |status| == |s.at|
    && forall w :: 0 <= w < |s.at| ==>
      if s.at[w] == REPORT && w !in rest then Reported(s, s', w, answers[w], status[w]) else SameWay(s, s', w)
  }

  lemma ReportStarts(s: Ways, answers: seq<Answer>, status: seq<Status>)
    requires Sized(s, |s.at|) && InLists(s) && |answers| == |status| == |s.at|
    ensures ReportSoFar(s, s, s.lists[REPORT], answers, status)
  {
    assert ListedIn(s.lists[REPORT], s.at, REPORT);
  }

  lemma ReportNothing(s: Ways, w: nat, a: Answer)
    requires Sized(s, |s.at|) && w < |s.at| && !a.ready
    ensures Reported(s, s, w, a, Running)
  {
  }

  lemma ReportRuns(s: Ways, s': Ways, w: nat, a: Answer)
    requires Sized(s, |s.at|) && Sized(s', |s.at|) && w < |s.at| && a.ready && s.queue[w] != []
    requires Judged(s.opt[w], a, s'.opt[w], Running) && s'.queue[w] == s.queue[w] && s'.retry[w] == s.retry[w]
        && s'.exe[w]
    requires s'.at[w] == if s'.opt[w] == CheckFirst then CHECK else REPORT
    ensures Reported(s, s', w, a, Running)
  {
    hide Judged;
  }

  lemma ReportOver(s: Ways, s': Ways, w: nat, a: Answer, status: Status)
    requires Sized(s, |s.at|) && Sized(s', |s.at|) && w < |s.at| && a.ready && s.queue[w] != [] && status != Running
    requires Judged(s.opt[w], a, s'.opt[w], status) && !s'.exe[w]
    requires Left(s.queue[w], status, s.retry[w]) <= s'.queue[w]
        && s'.retry[w] == RetriesLeft(s.queue[w], status, s.retry[w])
    requires s'.at[w] == if s'.queue[w] == [] then IDLE else ListFor(s'.queue[w][0])
    ensures Reported(s, s', w, a, status)
  {
    hide Judged, RetriesLeft;
  }

  /** More arrivals, before or after, make no difference to a report. */
  lemma ReportedStays(s: Ways, s': Ways, s'': Ways, w: nat, a: Answer, status: Status)
    requires Sized(s, |s.at|) && Sized(s', |s.at|) && Sized(s'', |s.at|) && w < |s.at|
    requires (Reported(s, s', w, a, status) && SameWay(s', s'', w))
        || (SameWay(s, s', w) && s.queue[w] != [] && Reported(s', s'', w, a, status))
    ensures Reported(s, s'', w, a, status)
  {
  }

  lemma ReportOnce(s: Ways, s': Ways, s'': Ways, rest: seq<nat>, answers: seq<Answer>, status: seq<Status>, st: Status)
    requires Sized(s, |s.at|) && ReportSoFar(s, s', rest, answers, status) && Sized(s'', |s.at|)
    requires rest != [] && rest[0] !in rest[1..] && rest[0] < |s.at| && s.at[rest[0]] == REPORT
        && s.queue[rest[0]] != []
    requires Reported(s', s'', rest[0], answers[rest[0]], st) && Grown(s', s'', REPORT)
    requires forall w :: 0 <= w < |s.at| && w != rest[0] ==> SameWay(s', s'', w)
    ensures ReportSoFar(s, s'', rest[1..], answers, status[rest[0] := st])
  {
    assert rest == [rest[0]] + rest[1..];
    hide Reported;
    forall w | 0 <= w < |s.at|
      ensures if s.at[w] == REPORT && w !in rest[1..]
          then Reported(s, s'', w, answers[w], status[rest[0] := st][w]) else SameWay(s, s'', w)
    {
      if w == rest[0] {
        ReportedStays(s, s', s'', w, answers[w], st);
      } else if s.at[w] == REPORT && w !in rest {
        ReportedStays(s, s', s'', w, answers[w], status[w]);
      } else {
        assert w in rest <==> w in rest[1..];
        SameStays(s, s', s'', w);
      }
    }
  }

  lemma SameStays(s: Ways, s': Ways, s'': Ways, w: nat)
    requires Sized(s, |s.at|) && Sized(s', |s.at|) && Sized(s'', |s.at|) && w < |s.at|
    requires SameWay(s, s', w) && SameWay(s', s'', w)
    ensures SameWay(s, s'', w)
  {
  }

  // ---------- the passes that start requests ----------

  /** The lists whose first way gets its request started in every round, and the number of their pass. */
  predicate Starts(list: nat) {
    list in {TRIGGER, ERASE, WRITE, TRANSFER}
  }

  function PassNo(list: nat): nat {
    match list
    case TRIGGER => 2
    case ERASE => 3
    case WRITE => 4
    case _ => 5
  }

  /** Where a way goes whose request was started. */
  function Watched(list: nat): nat {
    if list == TRANSFER then REPORT else CHECK
  }

  /** Since s, the request of the first way of the list was started, and the way is where its status is looked after. */
  ghost predicate Begun(s: Ways, s': Ways, list: nat)
    requires Sized(s, |s.at|) && Sized(s', |s.at|) && Starts(list)
  {
    if s.lists[list] == [] then s'.lists[list] == []
    else
      var w := s.lists[list][0];
      && s'.lists[list] == s.lists[list][1..] && w < |s.at| && s.queue[w] != []
      && s'.exe[w] && IssuedAs(s.queue[w][0], s'.opt[w]) && s'.at[w] == Watched(list) && s'.queue[w] == s.queue[w]
  }

  /** Of the check list of s, the first ready way, at position i, went to report; there is none if i is its length. */
  ghost predicate Asked(s: Ways, s': Ways, answers: seq<Answer>, i: nat)
    requires Sized(s, |s.at|) && Sized(s', |s.at|) && |answers| == |s.at|
  {
    && i <= |s.lists[CHECK]| && NoneReady(s.lists[CHECK][..i], answers)
    && (i < |s.lists[CHECK]| ==>
          s.lists[CHECK][i] < |answers| && answers[s.lists[CHECK][i]].ready && s'.at[s.lists[CHECK][i]] == REPORT)
  }

  /** Since s, the check pass and the passes up to number k were gone through. */
  ghost predicate Through(s: Ways, s': Ways, answers: seq<Answer>, i: nat, k: nat)
    requires Sized(s, |s.at|) && |answers| == |s.at|
  {
    && Sized(s', |s.at|) && s'.queue == s.queue && Asked(s, s', answers, i)
    && (forall w :: 0 <= w < |s.at| ==> (s'.at[w] == IDLE <==> s.at[w] == IDLE))
    && forall list: nat :: Starts(list) ==>
      if PassNo(list) <= k then Begun(s, s', list) else s'.lists[list] == s.lists[list]
  }

  lemma ThroughCheck(s: Ways, s': Ways, answers: seq<Answer>, i: nat)
    requires Sized(s, |s.at|) && |answers| == |s.at| && InLists(s)
    requires if i < |s.lists[CHECK]| then Checked(s, s', answers, i)
             else i == |s.lists[CHECK]| && s' == s && NoneReady(s.lists[CHECK], answers)
    ensures Through(s, s', answers, i, 1)
  {
    hide Judged;
    assert ListedIn(s.lists[CHECK], s.at, CHECK);
    assert i == |s.lists[CHECK]| ==> s.lists[CHECK][..i] == s.lists[CHECK];
    assert i < |s.lists[CHECK]| ==> s.lists[CHECK][i] in s.lists[CHECK];
  }

  /** One more pass: the ways started before are in other lists than the one whose request is started now. */
  lemma ThroughNext(s: Ways, s': Ways, s'': Ways, answers: seq<Answer>, i: nat, list: nat)
    requires Sized(s, |s.at|) && |answers| == |s.at| && Starts(list) && Through(s, s', answers, i, PassNo(list) - 1)
    requires InLists(s') && Sized(s'', |s.at|) && StartedFirst(s', s'', list, Watched(list))
    ensures Through(s, s'', answers, i, PassNo(list))
  {
    hide IssuedAs, NoneReady;
    assert s'.lists[list] == s.lists[list];
    assert ListedIn(s'.lists[list], s'.at, list);
    assert s.lists[list] != [] ==> s.lists[list][0] in s'.lists[list];
    forall other: nat | Starts(other)
      ensures if PassNo(other) <= PassNo(list) then Begun(s, s'', other) else s''.lists[other] == s.lists[other]
    {
      if PassNo(other) < PassNo(list) {
        assert Begun(s, s', other);
      }
    }
  }

  /** How a round ends: nobody has anything to do; the controller was busy when asked the k-th time; or at its end. */
  datatype Exit = AllWait | Busy(k: nat) | Whole

  /** What became of state s, after the reports, by the way the round ended. */
  ghost predicate EndsAs(s: Ways, s': Ways, answers: seq<Answer>, i: nat, busy: seq<bool>, exit: Exit)
    requires Sized(s, |s.at|) && |answers| == |s.at|
  {
    match exit
    case AllWait => s' == s
    case Busy(k) => k < |busy| && busy[k] && if k == 0 then s' == s else Through(s, s', answers, i, k)
    case Whole => Through(s, s', answers, i, 5)
  }

  lemma ServedLeaves(s: Ways, idle: Ways, mid: Ways, s': Ways, report: seq<Answer>, status: seq<Status>,
          check: seq<Answer>, i: nat, busy: seq<bool>, exit: Exit)
    requires Sized(s, |s.at|) && Sized(idle, |s.at|) && Sized(mid, |s.at|) && Sized(s', |s.at|) && |check| == |s.at|
    requires (forall w :: 0 <= w < |s.at| ==> IdleServed(s, idle, w)) && ReportSoFar(idle, mid, [], report, status)
    requires EndsAs(mid, s', check, i, busy, exit) || (exit == AllWait && s' == mid)
    ensures EndsAs(mid, s', check, i, busy, exit)
    ensures forall w :: 0 <= w < |s.at| && s.at[w] == IDLE && s.queue[w] != [] ==> s'.at[w] != IDLE
  {
    hide Reported, Begun, Asked;
    forall w | 0 <= w < |s.at| && s.at[w] == IDLE && s.queue[w] != []
      ensures s'.at[w] != IDLE
    {
      assert IdleServed(s, idle, w) && SameWay(idle, mid, w);
    }
  }

  class Channel {
    const n: nat
    const links: IndexLists
    const exe: array<bool>
    const checkOpt: array<CheckOpt>
    const retry: array<nat>
    /** The codes of the requests in each way's NAND queue. */
    const queue: array<seq<Code>>
    /** The list every way is in. */
    ghost var at: seq<nat>

    ghost function Repr(): set<object> {
      {this, exe, checkOpt, retry, queue} + links.Repr()
    }

    ghost predicate Dimensions()
      reads this`at, links
    {
      && 0 < n <= WAY_NONE == links.none
          && links.prev.Length == exe.Length == checkOpt.Length == retry.Length == queue.Length == n
      && |links.lists| == LISTS && |at| == n && {this, exe, checkOpt, retry, queue} !! links.Repr()
    }

    /** The lists are spelled out by their links, and every way is in exactly one. */
    ghost predicate Listed()
      requires Dimensions()
      reads this`at, links.Repr()
    {
      links.Valid() && forall q: nat :: q < LISTS ==> ListedIn(links.lists[q], at, q)
    }

    /** Holds at every exit of the scheduler. */
    ghost predicate Valid()
      reads Repr()
    {
      && Dimensions() && Listed()
      && forall w :: 0 <= w < n ==> Agrees(at[w], exe[w], queue[w])
    }

    ghost function View(): Ways
      reads Repr()
    {
      Ways(links.lists, at, exe[..], checkOpt[..], retry[..], queue[..])
    }

    lemma ViewFits()
      requires Valid()
      ensures Sized(View(), n) && InLists(View())
      ensures forall w :: 0 <= w < n ==> Agrees(View().at[w], View().exe[w], View().queue[w])
    {
    }

    /** InitReqScheduler, around links that have every way in the idle list. */
    constructor (n: nat, links: IndexLists)
      requires 0 < n <= WAY_NONE == links.none && links.Valid() && links.prev.Length == n
      requires links.lists == seq(LISTS, _ => [])[IDLE := Ascending(n)]
      ensures Valid() && this.n == n && this.links == links
    {
      this.n := n;
      this.links := links;
      exe := new bool[n](_ => false);
      checkOpt := new CheckOpt[n](_ => NoCheck);
      retry := new nat[n](_ => RETRY_LIMIT);
      queue := new seq<Code>[n](_ => []);
      at := seq(n, _ => IDLE);
      new;
      hide IndexLists.Valid;
      forall w: nat
        ensures w in Ascending(n) <==> w < n
      {
        assert w < n ==> Ascending(n)[w] == w;
      }
      assert forall q: nat :: q < LISTS ==> ListedIn(links.lists[q], at, q);
    }

    /** One of the removals followed by one of the insertions: a way goes from its list to the end of another. */
    method Move(w: nat, from: nat, to: nat)
      requires Dimensions() && Listed() && w < n && to < LISTS && at[w] == from < LISTS && to != from
      modifies this`at, links.Repr()
      ensures Dimensions() && Listed() && at == old(at)[w := to]
      ensures links.lists == old(links.lists)[from := Without(old(links.lists[from]), w)][to :=
          old(links.lists[to]) + [w]]
      ensures links.next[w] == WAY_NONE
    {
      ghost var ls: seq<seq<nat>>, was: seq<nat> := links.lists, at;
      assert ListedIn(ls[from], was, from) && w in ls[from] && Distinct(ls[from]);
      WithoutMembers(ls[from], w);
      links.Unlink(from, w);
      links.PutTail(to, w);
      at := at[w := to];
      hide IndexLists.Valid;
      forall q: nat | q < LISTS
        ensures ListedIn(links.lists[q], at, q)
      {
        assert ListedIn(ls[q], was, q);
      }
      links.At(to, |links.lists[to]| - 1);
    }

    // ---------- the other queues and the controller ----------

    /** Requests enter the way's NAND queue. */
    method Arrive(w: nat)
      requires w < queue.Length
      modifies queue
      ensures old(queue[w]) <= queue[w] && forall v :: 0 <= v < queue.Length && v != w ==> queue[v] == old(queue[v])
    {
      var more: seq<Code> := *;
      queue[w] := queue[w] + more;
    }

    /** A completion releases requests, on any way. */
    method ArriveAnywhere()
      modifies queue
      ensures forall v :: 0 <= v < queue.Length ==> old(queue[v]) <= queue[v]
    {
      for w := 0 to queue.Length
        invariant forall v :: 0 <= v < queue.Length ==> old(queue[v]) <= queue[v]
      {
        Arrive(w);
      }
    }

    /** GetFromNandReqQ; that there is a request to take is what the firmware asserts. */
    method Complete(w: nat)
      requires w < queue.Length && queue[w] != []
      modifies queue
      ensures old(queue[w])[1..] <= queue[w]
      ensures forall v :: 0 <= v < queue.Length && v != w ==> old(queue[v]) <= queue[v]
    {
      queue[w] := queue[w][1..];
      ArriveAnywhere();
    }

    method Issue(w: nat)
      requires w < queue.Length == checkOpt.Length && queue[w] != []
      modifies checkOpt
      ensures IssuedAs(queue[w][0], checkOpt[w]) && checkOpt[..] == old(checkOpt[..])[w := checkOpt[w]]
    {
      match queue[w][0]
      case Read => checkOpt[w] := CheckFirst;
      case ReadTransfer => checkOpt[w] := CompletionFlag;
      case Write => checkOpt[w] := CheckFirst;
      case Erase => checkOpt[w] := CheckFirst;
      case Reset => checkOpt[w] := NoCheck;
      case SetFeature => checkOpt[w] := NoCheck;
    }

    method CheckReqStatus(w: nat, a: Answer) returns (status: Status)
      requires w < checkOpt.Length
      modifies checkOpt
      ensures Judged(old(checkOpt[w]), a, checkOpt[w], status) && checkOpt[..] == old(checkOpt[..])[w := checkOpt[w]]
    {
      status := Running;
      match checkOpt[w] {
        case CompletionFlag =>
          if a.done {
            status := if a.warning then Warning else if a.fail then Fail else Done;
          }
        case CheckFirst => checkOpt[w] := Report;
        case Report =>
          if a.done {
            if a.complete {
              if a.fail {
                status := Fail;
              } else {
                checkOpt[w] := NoCheck;
                status := Done;
              }
            } else {
              checkOpt[w] := CheckFirst;
            }
          }
        case NoCheck =>
          if a.done {
            status := Done;
          }
      }
    }

    /**
     ExecuteNandReq: an idle die starts on its first request; a busy one reacts to the status. A read
     goes on as a transfer, a failed read starts over while retries are left, everything else is over.
     */
    method ExecuteNandReq(w: nat, status: Status)
      requires Dimensions() && w < n && queue[w] != []
      modifies exe, checkOpt, retry, queue
      ensures forall v :: 0 <= v < n && v != w ==> exe[v] == old(exe[v]) && old(queue[v]) <= queue[v]
      ensures forall v :: 0 <= v < n && v != w ==> retry[v] == old(retry[v]) && checkOpt[v] == old(checkOpt[v])
      ensures !old(exe[w]) ==>
          exe[w] && queue[..] == old(queue[..]) && retry[w] == old(retry[w]) && IssuedAs(queue[w][0], checkOpt[w])
      ensures old(exe[w]) ==>
          checkOpt[w] == old(checkOpt[w]) && Left(old(queue[w]), status, old(retry[w])) <= queue[w]
              && retry[w] == RetriesLeft(old(queue[w]), status, old(retry[w]))
      ensures old(exe[w]) && status == Running ==> exe[w] && queue[w] == old(queue[w])
      ensures old(exe[w]) && status != Running ==> !exe[w]
      ensures old(exe[w]) && status == Done && old(queue[w])[0] == Read ==>
          queue[w] == [ReadTransfer] + old(queue[w])[1..]
      ensures old(exe[w]) && status == Fail && IsRead(old(queue[w])[0]) && old(retry[w]) > 0 ==>
                queue[w] == [Read] + old(queue[w])[1..] && retry[w] == old(retry[w]) - 1
      ensures old(exe[w]) && ((status == Done && old(queue[w])[0] != Read) || status == Warning) ==>
          old(queue[w])[1..] <= queue[w] && retry[w] == RETRY_LIMIT
      ensures old(exe[w]) && status == Fail && (!IsRead(old(queue[w])[0]) || old(retry[w]) == 0) ==>
                old(queue[w])[1..] <= queue[w] && retry[w] == RETRY_LIMIT
    {
      if !exe[w] {
        Issue(w);
        exe[w] := true;
        return;
      }
      var code := queue[w][0];
      match status {
        case Done =>
          if code == Read {
            queue[w] := [ReadTransfer] + queue[w][1..];
          } else {
            retry[w] := RETRY_LIMIT;
            Complete(w);
          }
          exe[w] := false;
        case Fail =>
          if IsRead(code) {
            if retry[w] > 0 {
              retry[w] := retry[w] - 1;
              queue[w] := [Read] + queue[w][1..];
              exe[w] := false;
              return;
            }
          }
          retry[w] := RETRY_LIMIT;
          Complete(w);
          exe[w] := false;
        case Warning =>
          retry[w] := RETRY_LIMIT;
          Complete(w);
          exe[w] := false;
        case Running =>
      }
    }

    // ---------- the passes ----------

    /** The walk over a list is at way w: the ways of rest are still to be met. */
    ghost predicate Walking(list: nat, kept: seq<nat>, rest: seq<nat>, w: nat)
      reads Repr()
    {
      Valid() && list < LISTS && links.lists[list] == kept + rest && w == if rest == [] then WAY_NONE else rest[0]
    }

    lemma Walk(list: nat, kept: seq<nat>, rest: seq<nat>, w: nat)
      requires Walking(list, kept, rest, w)
      ensures w == WAY_NONE <==> rest == []
      ensures rest != [] ==> w < n && w < links.next.Length && at[w] == list && w !in kept
      ensures rest != [] ==> links.next[w] == if |rest| == 1 then WAY_NONE else rest[1]
      ensures rest != [] ==> Without(kept + rest, w) == kept + rest[1..] && rest[0] == w && w !in rest[1..]
    {
      if rest != [] {
        assert (kept + rest)[|kept|] == w && w in kept + rest && ListedIn(links.lists[list], at, list);
        links.At(list, |kept|);
        assert Distinct(kept + rest);
        WithoutAt(kept + rest, |kept|);
        assert RemoveAt(kept + rest, |kept|) == kept + rest[1..];
      }
    }

    lemma Regroup(kept: seq<nat>, rest: seq<nat>)
      requires rest != []
      ensures kept + rest == (kept + [rest[0]]) + rest[1..]
    {
    }

    /** The head of a list starts a walk. */
    lemma Start(list: nat)
      requires Valid() && list < LISTS
      ensures list < links.head.Length && Walking(list, [], links.lists[list], links.head[list])
    {
      assert EndsAt(links.lists[list], links.head[list], links.tail[list], WAY_NONE);
    }

    /** An idle way with something to do, perhaps released just now, is listed by its first request. */
    method Serve(w: nat) returns (moved: bool)
      requires Valid() && w < n && at[w] == IDLE
      modifies Repr()
      ensures Valid() && Sized(old(View()), n) && Sized(View(), n)
      ensures OnlyMoves(old(View()), View(), w) && IdleServed(old(View()), View(), w)
      ensures Grown(old(View()), View(), IDLE) && (moved <==> at[w] != IDLE)
      ensures links.lists[IDLE] == if moved then Without(old(links.lists[IDLE]), w)
          else old(links.lists[IDLE])
    {
      hide Channel.Listed;
      if queue[w] == [] {
        Arrive(w);
      }
      moved := queue[w] != [];
      if moved {
        Move(w, IDLE, ListFor(queue[w][0]));
      }
    }

    /** At an idle way; the next one is looked up before the way moves. */
    method IdleVisit(w: nat, ghost kept: seq<nat>, ghost rest: seq<nat>) returns (nextWay: nat, moved: bool)
      requires Walking(IDLE, kept, rest, w) && rest != []
      modifies Repr()
      ensures Walking(IDLE, if moved then kept else kept + [w], rest[1..], nextWay)
      ensures w < n && Sized(old(View()), n) && Sized(View(), n)
      ensures OnlyMoves(old(View()), View(), w) && IdleServed(old(View()), View(), w)
      ensures Grown(old(View()), View(), IDLE)
    {
      hide Channel.Listed, Agrees, Without, OnlyMoves, IdleServed, Grown;
      Walk(IDLE, kept, rest, w);
      Regroup(kept, rest);
      nextWay := links.next[w];
      moved := Serve(w);
    }

    /** Every idle way with something to do leaves the idle list; the others are counted. */
    method IdlePass() returns (waitWayCnt: nat)
      requires Valid()
      modifies Repr()
      ensures Valid() && Sized(old(View()), n) && Sized(View(), n)
      ensures forall w :: 0 <= w < n ==> IdleServed(old(View()), View(), w)
      ensures Grown(old(View()), View(), IDLE) && waitWayCnt == |links.lists[IDLE]|
    {
      hide OnlyMoves, IdleServed, Grown, SameWay;
      waitWayCnt := 0;
      ViewFits();
      Start(IDLE);
      ghost var was := View();
      IdleStarts(was);
      ghost var kept: seq<nat>, rest: seq<nat> := [], links.lists[IDLE];
      var wayNo := links.head[IDLE];
      while wayNo != WAY_NONE
        invariant Walking(IDLE, kept, rest, wayNo)
        invariant IdleSoFar(was, View(), rest) && waitWayCnt == |kept|
        decreases |rest|
      {
        hide Channel.Walking, Channel.Valid, IdleSoFar;
        Walk(IDLE, kept, rest, wayNo);
        var moved;
        ghost var w, before := wayNo, View();
        wayNo, moved := IdleVisit(wayNo, kept, rest);
        IdleOnce(was, before, View(), rest);
        kept, rest := if moved then kept else kept + [w], rest[1..];
        if !moved {
          waitWayCnt := waitWayCnt + 1;
        }
      }
      Walk(IDLE, kept, rest, wayNo);
      assert kept + rest == kept;
    }

    /** The way's first request is over, or goes on as a transfer, or starts over. */
    method ReportDone(w: nat, reqStatus: Status) returns (waits: bool)
      requires Valid() && w < n && at[w] == REPORT && reqStatus != Running
      modifies Repr()
      ensures Valid() && Sized(old(View()), n) && Sized(View(), n)
      ensures forall v :: 0 <= v < n && v != w ==> SameWay(old(View()), View(), v)
      ensures !exe[w] && checkOpt[w] == old(checkOpt[w]) && old(queue[w]) != []
      ensures Left(old(queue[w]), reqStatus, old(retry[w])) <= queue[w]
          && retry[w] == RetriesLeft(old(queue[w]), reqStatus, old(retry[w]))
      ensures if waits then at[w] == IDLE && queue[w] == [] else queue[w] != [] && at[w] == ListFor(queue[w][0])
      ensures links.lists == old(links.lists)[REPORT := Without(old(links.lists[REPORT]), w)][at[w] :=
          old(links.lists)[at[w]] + [w]]
    {
      hide Channel.Listed, Left, RetriesLeft, Without;
      ExecuteNandReq(w, reqStatus);
      if queue[w] == [] {
        Arrive(w);
      }
      waits := queue[w] == [];
      Move(w, REPORT, if waits then IDLE else ListFor(queue[w][0]));
    }

    /** A ready way is asked for its status: if its request is over or goes on as a transfer, it is listed anew. */
    method ReportReady(w: nat, a: Answer) returns (moved: bool, waits: bool, ghost status: Status)
      requires Valid() && w < n && at[w] == REPORT && a.ready
      modifies Repr()
      ensures Valid() && Sized(old(View()), n) && Sized(View(), n)
      ensures forall v :: 0 <= v < n && v != w ==> SameWay(old(View()), View(), v)
      ensures Reported(old(View()), View(), w, a, status) && (moved <==> at[w] != REPORT)
      ensures waits <==> at[w] == IDLE || at[w] == REPORT
      ensures links.lists == if moved then old(links.lists)[REPORT := Without(old(links.lists[REPORT]), w)][at[w] :=
          old(links.lists)[at[w]] + [w]] else old(links.lists)
    {
      hide Channel.Listed, Without, Judged, Reported, Left, RetriesLeft;
      moved, waits := false, true;
      ghost var before := View();
      var reqStatus := CheckReqStatus(w, a);
      status := reqStatus;
      ghost var mid := View();
      assert forall v :: 0 <= v < n && v != w ==> SameWay(before, mid, v);
      if reqStatus != Running {
        waits := ReportDone(w, reqStatus);
        moved := true;
        forall v | 0 <= v < n && v != w
          ensures SameWay(before, View(), v)
        {
          SameStays(before, mid, View(), v);
        }
        ReportOver(before, View(), w, a, status);
      } else {
        if checkOpt[w] == CheckFirst {
          Move(w, REPORT, CHECK);
          moved, waits := true, false;
        }
        ReportRuns(before, View(), w, a);
      }
    }

    /** At a way whose die reports; the next one is looked up before it may move. */
    method ReportVisit(w: nat, a: Answer, ghost kept: seq<nat>, ghost rest: seq<nat>)
            returns (nextWay: nat, moved: bool, waits: bool, ghost status: Status)
      requires Walking(REPORT, kept, rest, w) && rest != []
      modifies Repr()
      ensures Walking(REPORT, if moved then kept else kept + [w], rest[1..], nextWay)
      ensures w < n && Sized(old(View()), n) && Sized(View(), n)
      ensures forall v :: 0 <= v < n && v != w ==> SameWay(old(View()), View(), v)
      ensures Reported(old(View()), View(), w, a, status) && Grown(old(View()), View(), REPORT)
      ensures waits <==> at[w] == IDLE || at[w] == REPORT
      ensures |links.lists[IDLE]| == |old(links.lists[IDLE])| + if at[w] == IDLE then 1 else 0
      ensures moved <==> at[w] != REPORT
    {
      hide Channel.Listed, Without, Reported, SameWay, Agrees;
      Walk(REPORT, kept, rest, w);
      Regroup(kept, rest);
      status := Running;
      moved, waits := false, true;
      nextWay := links.next[w];
      if a.ready {
        moved, waits, status := ReportReady(w, a);
      } else {
        ReportNothing(View(), w, a);
        NothingChanged(View());
      }
    }

    lemma NothingChanged(s: Ways)
      requires Sized(s, |s.at|)
      ensures forall v :: 0 <= v < |s.at| ==> SameWay(s, s, v)
    {
    }

    /** Every way of the report list is looked at; those still there and those that became idle are counted. */
    method ReportPass(answers: seq<Answer>) returns (waitWayCnt: nat, ghost status: seq<Status>)
      requires Valid() && |answers| == n
      modifies Repr()
      ensures Valid() && Sized(old(View()), n) && Sized(View(), n)
      ensures ReportSoFar(old(View()), View(), [], answers, status)
      ensures waitWayCnt + |old(links.lists[IDLE])| == |links.lists[REPORT]| + |links.lists[IDLE]|
    {
      hide Reported, Grown, SameWay;
      waitWayCnt := 0;
      status := seq(n, _ => Running);
      ViewFits();
      Start(REPORT);
      ghost var was := View();
      ReportStarts(was, answers, status);
      ghost var kept: seq<nat>, rest: seq<nat> := [], links.lists[REPORT];
      var wayNo := links.head[REPORT];
      while wayNo != WAY_NONE
        invariant Walking(REPORT, kept, rest, wayNo)
        invariant ReportSoFar(was, View(), rest, answers, status)
        invariant forall w :: w in rest ==> w < n && was.at[w] == REPORT && was.queue[w] != []
        invariant waitWayCnt + |was.lists[IDLE]| == |kept| + |links.lists[IDLE]|
        decreases |rest|
      {
        hide Channel.Walking, Channel.Valid, ReportSoFar;
        Walk(REPORT, kept, rest, wayNo);
        var moved, waits;
        ghost var w, before, st := wayNo, View(), Running;
        assert w in rest && forall v :: v in rest[1..] ==> v in rest;
        wayNo, moved, waits, st := ReportVisit(wayNo, answers[wayNo], kept, rest);
        ReportOnce(was, before, View(), rest, answers, status, st);
        status := status[w := st];
        kept, rest := if moved then kept else kept + [w], rest[1..];
        if waits {
          waitWayCnt := waitWayCnt + 1;
        }
      }
      Walk(REPORT, kept, rest, wayNo);
      assert kept + rest == kept;
    }

    /**
     At a way to be checked. The link to the next way is read after the way moved to the end of the
     report list, where there is none: the first ready way ends the pass.
     */
    method CheckVisit(w: nat, a: Answer, ghost kept: seq<nat>, ghost rest: seq<nat>) returns (nextWay: nat)
      requires Walking(CHECK, kept, rest, w) && rest != []
      modifies Repr()
      ensures w < n && Sized(old(View()), n) && Sized(View(), n)
      ensures if a.ready then
                Valid() && nextWay == WAY_NONE && CheckedWay(old(View()), View(), a, w, kept + rest[1..])
              else Walking(CHECK, kept + [w], rest[1..], nextWay) && View() == old(View())
    {
      hide Channel.Listed, Without, Judged;
      Walk(CHECK, kept, rest, w);
      Regroup(kept, rest);
      if a.ready {
        var reqStatus := CheckReqStatus(w, a);
        Move(w, CHECK, REPORT);
      }
      nextWay := links.next[w];
    }

    /** At most one way leaves the list: the first ready one, at position k, if there is one. */
    method CheckPass(answers: seq<Answer>, busyAfter: bool) returns (busy: bool, ghost k: nat)
      requires Valid() && |answers| == n
      modifies Repr()
      ensures Valid() && Sized(old(View()), n) && Sized(View(), n)
      ensures k < |old(links.lists[CHECK])| ==> Checked(old(View()), View(), answers, k) && busy == busyAfter
      ensures k >= |old(links.lists[CHECK])| ==>
          k == |old(links.lists[CHECK])| && !busy && View() == old(View())
              && NoneReady(old(links.lists[CHECK]), answers)
    {
      busy := false;
      ViewFits();
      Start(CHECK);
      ghost var was := View();
      ghost var all: seq<nat> := links.lists[CHECK];
      ghost var kept: seq<nat>, rest: seq<nat> := [], all;
      var wayNo := links.head[CHECK];
      while wayNo != WAY_NONE
        invariant Walking(CHECK, kept, rest, wayNo) && kept + rest == all && View() == was
        invariant NoneReady(kept, answers)
        decreases |rest|
      {
        hide Channel.Walking, Channel.Valid, Checked, CheckedWay;
        Walk(CHECK, kept, rest, wayNo);
        Regroup(kept, rest);
        ghost var w := wayNo;
        var a := answers[wayNo];
        wayNo := CheckVisit(wayNo, a, kept, rest);
        if a.ready {
          k := |kept|;
          IsChecked(was, View(), answers, kept, rest);
          busy := busyAfter;
          return;
        }
        kept, rest := kept + [w], rest[1..];
      }
      Walk(CHECK, kept, rest, wayNo);
      k := |all|;
      assert all == kept;
    }

    /** Starting the request, or the transfer, of one way. */
    method StartVisit(w: nat, list: nat, ghost all: seq<nat>) returns (nextWay: nat)
      requires Walking(list, [], all, w) && all != [] && Starts(list)
      modifies Repr()
      ensures Valid() && nextWay == WAY_NONE && Sized(old(View()), n) && Sized(View(), n)
      ensures StartedFirst(old(View()), View(), list, Watched(list))
    {
      hide Channel.Listed, IssuedAs;
      Walk(list, [], all, w);
      assert [] + all == all && [] + all[1..] == all[1..];
      ghost var was := View();
      ExecuteNandReq(w, Running);
      assert exe[..] == was.exe[w := true] && checkOpt[..] == was.opt[w := checkOpt[w]] && retry[..] == was.retry;
      Move(w, list, Watched(list));
      nextWay := links.next[w];
    }

    /** The passes that start requests, or transfers: only the first way of the list, for the same reason. */
    method StartPass(list: nat, busyAfter: bool) returns (busy: bool)
      requires Valid() && Starts(list)
      modifies Repr()
      ensures Valid() && Sized(old(View()), n) && Sized(View(), n)
      ensures StartedFirst(old(View()), View(), list, Watched(list))
      ensures busy ==> busyAfter
      ensures busyAfter && old(links.lists[list]) != [] ==> busy
    {
      busy := false;
      ViewFits();
      Start(list);
      ghost var all: seq<nat> := links.lists[list];
      Walk(list, [], all, links.head[list]);
      ghost var was := View();
      var wayNo := links.head[list];
      while wayNo != WAY_NONE
        invariant Sized(View(), n)
        invariant wayNo != WAY_NONE ==> all != [] && Walking(list, [], all, wayNo) && View() == was
        invariant wayNo == WAY_NONE ==> Valid() && StartedFirst(was, View(), list, Watched(list))
        invariant !busy && (wayNo == WAY_NONE && busyAfter ==> all == [])
        decreases wayNo != WAY_NONE
      {
        hide Channel.Walking, Channel.Valid, StartedFirst;
        wayNo := StartVisit(wayNo, list, all);
        busy := busyAfter;
        if busy {
          return;
        }
      }
    }

    /** The passes after the reports. */
    method StartRequests(check: seq<Answer>, busy: seq<bool>) returns (ghost i: nat, ghost exit: Exit)
      requires Valid() && |check| == n && |busy| == 6
      modifies Repr()
      ensures Valid() && Sized(old(View()), n) && Sized(View(), n)
      ensures EndsAs(old(View()), View(), check, i, busy, exit) && !exit.AllWait?
      ensures !busy[0] && !busy[1] && !busy[2] && !busy[3] && !busy[4] ==> exit.Whole?
    {
      hide Channel.Valid, Through, StartedFirst, Checked;
      i, exit := 0, Busy(0);
      ViewFits();
      ghost var was := View();
      if busy[0] {
        return;
      }
      var stop;
      stop, i := CheckPass(check, busy[1]);
      ThroughCheck(was, View(), check, i);
      if stop {
        exit := Busy(1);
        return;
      }
      stop := StartNext(TRIGGER, busy[2], was, check, i);
      if stop {
        exit := Busy(2);
        return;
      }
      stop := StartNext(ERASE, busy[3], was, check, i);
      if stop {
        exit := Busy(3);
        return;
      }
      stop := StartNext(WRITE, busy[4], was, check, i);
      if stop {
        exit := Busy(4);
        return;
      }
      stop := StartNext(TRANSFER, busy[5], was, check, i);
      exit := Whole;
    }

    method StartNext(list: nat, busyAfter: bool, ghost was: Ways, ghost check: seq<Answer>, ghost i: nat)
            returns (busy: bool)
      requires Valid() && Starts(list) && |was.at| == n && Sized(was, n) && |check| == n
      requires Through(was, View(), check, i, PassNo(list) - 1)
      modifies Repr()
      ensures Valid() && Sized(View(), n) && Through(was, View(), check, i, PassNo(list)) && (busy ==> busyAfter)
    {
      hide Channel.Valid, Through, StartedFirst;
      ViewFits();
      ghost var before := View();
      busy := StartPass(list, busyAfter);
      ThroughNext(was, before, View(), check, i, list);
    }

    /**
     SchedulingNandReqPerCh, with the controller's answers to the report and the check pass and to the
     questions whether it is busy. idle and mid are the states after the idle ways and after the reports;
     waits is the number of ways that then have nothing to do. Unless the round ends early, for want of
     anything to do or because the controller is busy, the first way of every other list has its request
     started, the first ready one of the check list its status asked for.
     */
    method SchedulingNandReqPerCh(report: seq<Answer>, check: seq<Answer>, busy: seq<bool>)
      returns (ghost idle: Ways, ghost mid: Ways, ghost status: seq<Status>, ghost waits: nat, ghost i: nat,
              ghost exit: Exit)
      requires Valid() && |report| == |check| == n && |busy| == 6
      modifies Repr()
      ensures Valid() && Sized(old(View()), n) && Sized(idle, n) && Sized(mid, n) && Sized(View(), n)
      ensures forall w :: 0 <= w < n ==> IdleServed(old(View()), idle, w)
      ensures ReportSoFar(idle, mid, [], report, status)
      ensures waits == |mid.lists[IDLE]| + |mid.lists[REPORT]| && (waits == n <==> exit.AllWait?)
      ensures EndsAs(mid, View(), check, i, busy, exit)
      ensures waits != n && !busy[0] && !busy[1] && !busy[2] && !busy[3] && !busy[4] ==> exit.Whole?
      ensures forall w :: 0 <= w < n && old(at)[w] == IDLE && old(queue[..])[w] != [] ==> at[w] != IDLE
    {
      hide Channel.Valid, IdleServed, ReportSoFar, EndsAs;
      ghost var was := View();
      i, exit := 0, AllWait;
      var waiting := IdlePass();
      idle := View();
      var more;
      more, status := ReportPass(report);
      mid := View();
      waits := waiting + more;
      if waiting + more != n {
        i, exit := StartRequests(check, busy);
      }
      ServedLeaves(was, idle, mid, View(), report, status, check, i, busy, exit);
    }
  }

  /** InitReqScheduler, for one channel. */
  method InitReqScheduler(n: nat) returns (c: Channel)
    requires 0 < n <= WAY_NONE
    ensures c.Valid() && c.n == n && c.links.lists == seq(LISTS, _ => [])[IDLE := Ascending(n)]
  {
    var links := new IndexLists.Filled(n, LISTS, WAY_NONE);
    hide IndexLists.Valid, Ascending, Channel.Valid;
    c := new Channel(n, links);
  }
}
