/**
 The device as a whole: the store's steps decide what to submit, and the request protocol carries it
 out while it accepts, completes and releases requests in whatever order the hardware answers. What
 the host gets is nevertheless what a plain block store would have given it, as long as no step of the
 store collects a current block without live slices and what is submitted is fresh, as it always is
 with few request slots.
 */
module EndToEnd {
  import opened Common
  import F = Ftl
  import FI = FtlInvariant
  import FR = FtlRuns
  import S = BlockStore
  import B = Buffer
  import opened R = Requests
  import RS = RequestSafety
  import opened Freshness
  import U = Submissions

  /** What a transfer to the host owes it: the blocks of the access, as they were in host when the read was served. */
  datatype Owed<D> = Owed(host: map<nat, D>, access: S.Access<D>)

  /**
   store is what the maps and the buffer say, host the plain block store it stands for, sys the
   request protocol with slot held being submitted, and todo what the step of the store under way is
   still to submit; reading is that step's access, if it is a read.
   */
  datatype Machine<D> = Machine(store: S.Store<D>, host: map<nat, D>, sys: RS.Sys<D>, held: Option<nat>,
          todo: seq<Req<D>>,
                                reading: Option<S.Access<D>>, owed: map<nat, Owed<D>>)

  datatype Action<D> = Host(v: S.Event<D>, out: seq<D>) | Submit(r: nat) | Protocol(w: RS.Event<D>)

  /** Slot r is free for the request; one that breaks the flash discipline may lead anywhere. */
  ghost predicate MaySubmit<D>(z: R.Sizes, s: RS.Sys<D>, held: Option<nat>, r: nat, q: Req<D>, s': RS.Sys<D>,
          held': Option<nat>) {
    && RS.SysShape(z, s) && RS.SysShape(z, s') && r < |s.pool.reqs| && s.pool.place[r] == None && held == None
        && held' == Some(r)
    && (R.InRange(z, q) && RS.Lawful(z, s.sub, q) ==> s' == RS.Submit(z, s, r, q))
  }

  /** A step of the store begins when the one before has submitted everything; the protocol may act at any time. */
  ghost predicate Step<D>(g: F.Geometry, n: nat, c: Machine<D>, x: Action<D>, c': Machine<D>) {
    match x
    case Host(v, out) =>
      && c.todo == [] && S.Step(g, c.store, v, c'.store, out)
      && c' == Machine(c'.store, S.After(c.host, v), c.sys, c.held, U.StepRequests(g, c.store, v),
                       if v.Slice? && v.access.Read? then Some(v.access) else None, c.owed)
    case Submit(r) =>
      && c.todo != [] && MaySubmit(U.SizesOf(g, n), c.sys, c.held, r, c.todo[0], c'.sys, c'.held)
      && c' == c.(sys := c'.sys, held := c'.held, todo := c.todo[1..],
                  owed := if c.todo[0].kind.TxDma? && c.reading.Some? then c.owed[r := Owed(c.host, c.reading.value)]
                      else c.owed)
    case Protocol(w) =>
      && !w.Submitted? && RS.Step(U.SizesOf(g, n), c.sys, c.held, w, c'.sys, c'.held)
      && c' == c.(sys := c'.sys, held := c'.held)
  }

  /**
   What a caller can check before the step: a step of the store collects no current block without
   live slices, and what is submitted is fresh.
   */
  ghost predicate Orderly<D>(g: F.Geometry, n: nat, c: Machine<D>, x: Action<D>) {
    match x
    case Host(v, _) => S.Sized(g, c.store) && B.Inv(c.store.buf) && S.Calm(g, c.store, v)
    case Submit(r) => c.todo != [] && RS.FreshEvent(U.SizesOf(g, n), c.sys, RS.Submitted(r, c.todo[0]))
    case Protocol(_) => true
  }

  /** Block i of the page has the value host has there, if it has one. */
  ghost predicate AnswersAt<D>(host: map<nat, D>, l: nat, page: S.Page<D>, i: nat) {
    i < S.BLOCKS && S.Lba(l, i) in host ==> page.At(i) == host[S.Lba(l, i)]
  }

  /** The page has, where the access reads, the values host has there. */
  ghost predicate Answers<D>(host: map<nat, D>, a: S.Access<D>, q: Req<D>, page: S.Page<D>) {
    a.Read? && q.offset == a.offset && a.offset + a.count <= S.BLOCKS
    && forall i :: a.offset <= i < a.offset + a.count ==> AnswersAt(host, a.lsa, page, i)
  }

  ghost predicate TodoOk<D>(n: nat, c: Machine<D>) {
    forall i :: 0 <= i < |c.todo| && c.todo[i].kind.TxDma? ==>
      && i == |c.todo| - 1 && c.reading.Some? && c.todo[i].buf < n <= |c.store.contents|
      && Answers(c.host, c.reading.value, c.todo[i], c.store.contents[c.todo[i].buf])
  }

  /** What slot r is going to transfer is what it owes. */
  ghost predicate OwedAt<D>(c: Machine<D>, r: nat) {
    r < |c.sys.val| && r < |c.sys.pool.reqs| && r in c.owed
        && Answers(c.owed[r].host, c.owed[r].access, c.sys.pool.reqs[r], c.sys.val[r])
  }

  ghost predicate OwedOk<D>(c: Machine<D>) {
    forall r: nat :: Outstanding(c.sys.pool, c.held, r) && c.sys.pool.reqs[r].kind.TxDma? ==> OwedAt(c, r)
  }

  ghost predicate Ok<D>(g: F.Geometry, n: nat, c: Machine<D>) {
    && RS.Inv(U.SizesOf(g, n), c.sys, c.held) && S.Refines(g, c.store, c.host) && FI.Inv(g, c.store.ftl)
    && |c.store.buf.entries| == n && U.LeadTo(g, n, c.sys.sub, c.todo, c.store) && TodoOk(n, c) && OwedOk(c)
  }

  // ---------- steps of the store ----------

  /** What a read returns is in the entry it is served from. */
  lemma ReadIsServed<D>(g: F.Geometry, s: S.Store<D>, h: map<nat, D>, a: S.Access<D>, s': S.Store<D>, out: seq<D>,
          m: RS.Mem<D>)
    requires S.Refines(g, s, h) && FI.Inv(g, s.ftl) && S.Step(g, s, S.Slice(a), s', out) && S.Calm(g, s, S.Slice(a))
        && U.Corresponds(g, s, m) && a.Read?
    ensures var e := U.ServingEntry(g, s, a);
        e < |s'.contents| == |s.buf.entries| && Answers(h, a, U.Dma(e, a), s'.contents[e])
  {
    S.StepRefines(g, s, h, S.Slice(a), s', out);
    U.ServeSubmits(g, s, a, m);
    U.LeadsThere(g, |s.buf.entries|, m, U.ServeRequests(g, s, a), s');
    hide S.Serve, S.Transfer, U.ServingEntry, U.ServeRequests, U.Corresponds, U.LeadTo, FI.Inv, S.HoldsBut, B.Inv,
        S.ReadsBack;
    ReadIsInPage(h, a, s', U.ServingEntry(g, s, a), out);
  }

  lemma ReadIsInPage<D>(h: map<nat, D>, a: S.Access<D>, s: S.Store<D>, e: nat, out: seq<D>)
    requires a.Read? && a.offset + a.count <= S.BLOCKS && e < |s.buf.entries| == |s.contents|
    requires out == S.Transfer(s, e, a).1 && S.ReadsBack(h, a, out)
    ensures Answers(h, a, U.Dma(e, a), s.contents[e])
  {
    forall i | a.offset <= i < a.offset + a.count
      ensures AnswersAt(h, a.lsa, s.contents[e], i)
    {
      assert out[i - a.offset] == s.contents[e].At(a.offset + (i - a.offset));
    }
  }

  lemma LeadNothing<D>(g: F.Geometry, n: nat, m: RS.Mem<D>, s: S.Store<D>)
    requires U.LeadTo(g, n, m, [], s)
    ensures U.Corresponds(g, s, m)
  {
  }

  lemma HostKeeps<D>(g: F.Geometry, n: nat, c: Machine<D>, v: S.Event<D>, out: seq<D>, c': Machine<D>)
    requires Ok(g, n, c) && Step(g, n, c, Host(v, out), c') && S.Calm(g, c.store, v)
    ensures Ok(g, n, c')
    ensures v.Slice? ==> S.ReadsBack(c.host, v.access, out)
  {
    var m := c.sys.sub;
    LeadNothing(g, n, m, c.store);
    hide RS.Inv, S.Refines, FI.Inv, U.LeadTo, U.Corresponds, S.Step, S.Calm, OwedAt, U.StepRequests, U.ServingEntry,
        U.Dma, Answers;
    S.StepRefines(g, c.store, c.host, v, c'.store, out);
    U.StepSubmits(g, c.store, c.host, v, c'.store, out, m);
    U.LeadsThere(g, n, m, c'.todo, c'.store);
    HostTodo(g, n, c, v, out, c');
    assert OwedOk(c') by {
      forall r: nat | Outstanding(c'.sys.pool, c'.held, r) && c'.sys.pool.reqs[r].kind.TxDma?
        ensures OwedAt(c', r)
      {
        assert OwedAt(c, r);
        OwedSame(c, c', r);
      }
    }
  }

  lemma OwedSame<D>(c: Machine<D>, c': Machine<D>, r: nat)
    requires OwedAt(c, r) && c'.owed == c.owed && c'.sys.val == c.sys.val && c'.sys.pool.reqs == c.sys.pool.reqs
    ensures OwedAt(c', r)
  {
  }

  lemma HostTodo<D>(g: F.Geometry, n: nat, c: Machine<D>, v: S.Event<D>, out: seq<D>, c': Machine<D>)
    requires S.Refines(g, c.store, c.host) && FI.Inv(g, c.store.ftl) && |c.store.buf.entries| == n
        && U.Corresponds(g, c.store, c.sys.sub)
    requires Step(g, n, c, Host(v, out), c') && S.Calm(g, c.store, v)
    ensures TodoOk(n, c')
  {
    U.StepTx(g, c.store, v);
    if v.Slice? && v.access.Read? {
      ReadIsServed(g, c.store, c.host, v.access, c'.store, out, c.sys.sub);
    }
    hide S.Refines, FI.Inv, U.Corresponds, S.Step, S.Calm, U.StepRequests, U.ServingEntry, U.Dma, Answers;
  }

  // ---------- submissions ----------

  /** The next request is lawful, so that nothing but its freshness is left to ask for. */
  lemma NextIsLawful<D>(g: F.Geometry, n: nat, c: Machine<D>, r: nat, c': Machine<D>)
    requires Ok(g, n, c) && Step(g, n, c, Submit(r), c')
    ensures RS.Step(U.SizesOf(g, n), c.sys, c.held, RS.Submitted(r, c.todo[0]), c'.sys, c'.held)
  {
    hide RS.Inv, S.Refines, FI.Inv, U.LeadTo, OwedOk, TodoOk, RS.Submit, RS.Lawful;
    LeadNext(g, n, c.sys.sub, c.todo, c.store);
  }

  lemma LeadNext<D>(g: F.Geometry, n: nat, m: RS.Mem<D>, qs: seq<Req<D>>, s: S.Store<D>)
    requires U.LeadTo(g, n, m, qs, s) && qs != []
    ensures R.InRange(U.SizesOf(g, n), qs[0]) && RS.MemShape(U.SizesOf(g, n), m) && RS.Lawful(U.SizesOf(g, n), m, qs[0])
    ensures U.LeadTo(g, n, RS.Exec(U.SizesOf(g, n), m, qs[0]), qs[1..], s)
  {
  }

  /** What a submission changes. */
  lemma Submission<D>(z: R.Sizes, s: RS.Sys<D>, held: Option<nat>, r: nat, q: Req<D>, s': RS.Sys<D>, held': Option<nat>)
    requires RS.Step(z, s, held, RS.Submitted(r, q), s', held')
    ensures R.InRange(z, q) && RS.MemShape(z, s.sub) && RS.Lawful(z, s.sub, q) && s'.sub == RS.Exec(z, s.sub, q)
    ensures r < |s.pool.reqs| == |s.val| && s'.pool.reqs == s.pool.reqs[r := q] && s'.pool.place == s.pool.place
        && held == None && held' == Some(r)
    ensures |s'.val| == |s.val| && forall x :: 0 <= x < |s.val| && x != r ==> s'.val[x] == s.val[x]
    ensures q.Buffered() ==> q.buf < |s'.sub.buf| && s'.val[r] == s'.sub.buf[q.buf]
  {
  }

  lemma SubmitKeeps<D>(g: F.Geometry, n: nat, c: Machine<D>, r: nat, c': Machine<D>)
    requires Ok(g, n, c) && Step(g, n, c, Submit(r), c') && Orderly(g, n, c, Submit(r))
    ensures Ok(g, n, c')
  {
    hide RS.Inv, S.Refines, FI.Inv, U.LeadTo, U.Corresponds, RS.Step, RS.Exec, RS.Lawful, OwedAt, Answers, MaySubmit,
        RS.FreshEvent;
    var z, q := U.SizesOf(g, n), c.todo[0];
    NextIsLawful(g, n, c, r, c');
    RS.StepKeeps(z, c.sys, c.held, RS.Submitted(r, q), c'.sys, c'.held);
    Submission(z, c.sys, c.held, r, q, c'.sys, c'.held);
    LeadNext(g, n, c.sys.sub, c.todo, c.store);
    assert TodoOk(n, c') by {
      forall i | 0 <= i < |c'.todo| && c'.todo[i].kind.TxDma?
        ensures i == |c'.todo| - 1 && c'.reading.Some? && c'.todo[i].buf < n <= |c'.store.contents|
                && Answers(c'.host, c'.reading.value, c'.todo[i], c'.store.contents[c'.todo[i].buf])
      {
        assert c'.todo[i] == c.todo[i + 1];
      }
    }
    forall x: nat | Outstanding(c'.sys.pool, c'.held, x) && c'.sys.pool.reqs[x].kind.TxDma?
      ensures OwedAt(c', x)
    {
      if x == r {
        SubmittedOwes(g, n, c, r, c');
      } else {
        assert Outstanding(c.sys.pool, c.held, x) && OwedAt(c, x);
        StillOwes(c, c', r, x);
      }
    }
  }

  lemma StillOwes<D>(c: Machine<D>, c': Machine<D>, r: nat, x: nat)
    requires OwedAt(c, x) && x != r && |c'.sys.val| == |c.sys.val| && |c'.sys.pool.reqs| == |c.sys.pool.reqs|
    requires x < |c.sys.val| ==> c'.sys.val[x] == c.sys.val[x]
    requires x < |c.sys.pool.reqs| ==> c'.sys.pool.reqs[x] == c.sys.pool.reqs[x]
    requires x in c.owed ==> x in c'.owed && c'.owed[x] == c.owed[x]
    ensures OwedAt(c', x)
  {
  }

  /** A transfer to the host is the last request of its step: when it is submitted, memory is where the step leads. */
  lemma SubmittedOwes<D>(g: F.Geometry, n: nat, c: Machine<D>, r: nat, c': Machine<D>)
    requires Step(g, n, c, Submit(r), c')
        && RS.Step(U.SizesOf(g, n), c.sys, c.held, RS.Submitted(r, c.todo[0]), c'.sys, c'.held)
    requires TodoOk(n, c) && c.todo[0].kind.TxDma? && |c.store.buf.entries| == n
    requires U.LeadTo(g, n, c'.sys.sub, c.todo[1..], c.store)
    ensures OwedAt(c', r)
  {
    var q := c.todo[0];
    Submission(U.SizesOf(g, n), c.sys, c.held, r, q, c'.sys, c'.held);
    assert |c.todo| == 1 && c.todo[1..] == [];
    LeadNothing(g, n, c'.sys.sub, c.store);
    assert c'.sys.val[r] == c.store.contents[q.buf];
    hide RS.Step, U.LeadTo, U.Corresponds, Answers;
  }

  // ---------- the other steps of the protocol ----------

  lemma ProtocolKeeps<D>(g: F.Geometry, n: nat, c: Machine<D>, w: RS.Event<D>, c': Machine<D>)
    requires Ok(g, n, c) && Step(g, n, c, Protocol(w), c')
    ensures Ok(g, n, c')
  {
    hide RS.Inv, S.Refines, FI.Inv, U.LeadTo, RS.Step, OwedAt, Answers;
    RS.StepKeeps(U.SizesOf(g, n), c.sys, c.held, w, c'.sys, c'.held);
    StepIsQuiet(U.SizesOf(g, n), c.sys, c.held, w, c'.sys, c'.held);
    forall x: nat | Outstanding(c'.sys.pool, c'.held, x) && c'.sys.pool.reqs[x].kind.TxDma?
      ensures OwedAt(c', x)
    {
      assert Outstanding(c.sys.pool, c.held, x) && OwedAt(c, x);
      OwedSame(c, c', x);
    }
  }

  // ---------- runs ----------

  ghost predicate Trace<D>(g: F.Geometry, n: nat, states: seq<Machine<D>>, actions: seq<Action<D>>) {
    |states| == |actions| + 1 && forall i :: 0 <= i < |actions| ==> Step(g, n, states[i], actions[i], states[i + 1])
  }

  /** A transfer to the host that may complete delivers what it owes. */
  lemma CompletionDelivers<D>(g: F.Geometry, n: nat, c: Machine<D>, r: nat)
    requires Ok(g, n, c) && RS.SysShape(U.SizesOf(g, n), c.sys) && RS.MayComplete(U.SizesOf(g, n), c.sys.pool, r)
        && c.sys.pool.reqs[r].kind.TxDma?
    ensures var q := c.sys.pool.reqs[r];
            r in c.owed && Answers(c.owed[r].host, c.owed[r].access, q, c.sys.act.buf[q.buf])
  {
    hide RS.Inv, S.Refines, FI.Inv, U.LeadTo, TodoOk, Answers;
    RS.CompletionIsFaithful(U.SizesOf(g, n), c.sys, c.held, r);
    assert Outstanding(c.sys.pool, c.held, r) && OwedAt(c, r);
  }

  /**
   An orderly step keeps everything in order. A slice request, a pin change or a submission that is
   not orderly does not.
   */
  lemma StepKeeps<D>(g: F.Geometry, n: nat, c: Machine<D>, x: Action<D>, c': Machine<D>)
    requires Ok(g, n, c) && Step(g, n, c, x, c')
    ensures Orderly(g, n, c, x) ==> Ok(g, n, c')
    ensures Ok(g, n, c') && !(x.Host? && x.v.FlushAll?) ==> Orderly(g, n, c, x)
  {
    hide Ok, Step, Orderly;
    if Orderly(g, n, c, x) {
      OrderlyKeeps(g, n, c, x, c');
    } else if !(x.Host? && x.v.FlushAll?) {
      DisorderBreaks(g, n, c, x, c');
    }
  }

  lemma OrderlyKeeps<D>(g: F.Geometry, n: nat, c: Machine<D>, x: Action<D>, c': Machine<D>)
    requires Ok(g, n, c) && Step(g, n, c, x, c') && Orderly(g, n, c, x)
    ensures Ok(g, n, c')
  {
    hide Ok, Step;
    match x
    case Host(v, out) =>
      hide S.Calm, B.Inv, S.Sized;
      HostKeeps(g, n, c, v, out, c');
    case Submit(r) => SubmitKeeps(g, n, c, r, c');
    case Protocol(w) => ProtocolKeeps(g, n, c, w, c');
  }

  lemma DisorderBreaks<D>(g: F.Geometry, n: nat, c: Machine<D>, x: Action<D>, c': Machine<D>)
    requires Ok(g, n, c) && Step(g, n, c, x, c') && !Orderly(g, n, c, x) && !(x.Host? && x.v.FlushAll?)
    ensures !Ok(g, n, c')
  {
    match x
    case Host(v, out) =>
      hide RS.Inv, FI.Inv, S.HoldsBut, U.LeadTo, OwedOk, TodoOk, S.Serve, B.Inv, S.Sized, U.StepRequests,
          S.MissCollectsCurrent;
      if v.Slice? {
        S.ServeSpec(g, c.store, c.host, v.access);
      }
    case Submit(r) =>
      hide RS.Inv, S.Refines, FI.Inv, U.LeadTo, OwedOk, TodoOk, RS.FreshEvent, RS.Step;
      NextIsLawful(g, n, c, r, c');
      RS.StepKeeps(U.SizesOf(g, n), c.sys, c.held, RS.Submitted(r, c.todo[0]), c'.sys, c'.held);
    case Protocol(w) =>
  }

  /** The action delivers to the host, if it delivers anything, the values last written when its read was served. */
  ghost predicate Delivers<D>(g: F.Geometry, n: nat, c: Machine<D>, x: Action<D>) {
    x.Protocol? && x.w.Completed? && x.w.r < |c.sys.pool.reqs| && c.sys.pool.reqs[x.w.r].kind.TxDma? ==>
      var q := c.sys.pool.reqs[x.w.r];
      && x.w.r in c.owed && q.buf < |c.sys.act.buf|
      && Answers(c.owed[x.w.r].host, c.owed[x.w.r].access, q, c.sys.act.buf[q.buf])
  }

  /**
   In every run of orderly steps, in whatever order requests are completed and released, every
   transfer to the host brings, for each block of its read that was ever written, the value the last
   write before the read gave it; buffering, eviction and garbage collection do not show.
   */
  lemma {:induction false} RunsDeliver<D>(g: F.Geometry, n: nat, states: seq<Machine<D>>, actions: seq<Action<D>>,
          i: nat)
    requires Trace(g, n, states, actions) && Ok(g, n, states[0]) && i <= |actions|
    requires forall j :: 0 <= j < i ==> Orderly(g, n, states[j], actions[j])
    ensures Ok(g, n, states[i])
    ensures i < |actions| ==> Delivers(g, n, states[i], actions[i])
  {
    hide Ok, Step, Delivers, Orderly;
    if i > 0 {
      RunsDeliver(g, n, states, actions, i - 1);
      assert Step(g, n, states[i - 1], actions[i - 1], states[i]);
      StepKeeps(g, n, states[i - 1], actions[i - 1], states[i]);
    }
    if i < |actions| {
      assert Step(g, n, states[i], actions[i], states[i + 1]);
      StepDelivers(g, n, states[i], actions[i], states[i + 1]);
    }
  }

  lemma StepDelivers<D>(g: F.Geometry, n: nat, c: Machine<D>, x: Action<D>, c': Machine<D>)
    requires Ok(g, n, c) && Step(g, n, c, x, c')
    ensures Delivers(g, n, c, x)
  {
    hide Ok, Answers;
    if x.Protocol? && x.w.Completed? && c.sys.pool.reqs[x.w.r].kind.TxDma? {
      CompletionDelivers(g, n, c, x.w.r);
    }
  }

  // ---------- few slots ----------

  /** Only blocks with all their pages programmed are being erased, or will be by the step under way. */
  ghost predicate ErasesFull<D>(g: F.Geometry, c: Machine<D>) {
    FullErases(g.pages, c.sys.pool, c.held) && U.ErasesAreFull(g.pages, c.todo)
  }

  lemma StepErasesFull<D>(g: F.Geometry, n: nat, c: Machine<D>, x: Action<D>, c': Machine<D>)
    requires Ok(g, n, c) && ErasesFull(g, c) && Step(g, n, c, x, c') && (x.Host? ==> Orderly(g, n, c, x))
    ensures ErasesFull(g, c') && |c'.sys.pool.reqs| == |c.sys.pool.reqs|
  {
    hide RS.Inv, FI.Inv, S.HoldsBut, U.LeadTo, OwedOk, TodoOk, S.Calm, B.Inv, S.Sized, U.StepRequests, FullErases,
        RS.Step;
    match x
    case Host(v, out) => U.StepErasesFull(g, c.store, c.host, v);
    case Submit(r) =>
      NextIsLawful(g, n, c, r, c');
      Submission(U.SizesOf(g, n), c.sys, c.held, r, c.todo[0], c'.sys, c'.held);
      StepKeepsFullErases(U.SizesOf(g, n), g.pages, c.sys, c.held, RS.Submitted(r, c.todo[0]), c'.sys, c'.held);
    case Protocol(w) =>
      StepIsQuiet(U.SizesOf(g, n), c.sys, c.held, w, c'.sys, c'.held);
      StepKeepsFullErases(U.SizesOf(g, n), g.pages, c.sys, c.held, w, c'.sys, c'.held);
  }

  /** With at most one slot more than a block has pages, the store never wants a stale submission. */
  lemma FewSlotsSubmitFresh<D>(g: F.Geometry, n: nat, c: Machine<D>, r: nat, c': Machine<D>)
    requires Ok(g, n, c) && ErasesFull(g, c) && Step(g, n, c, Submit(r), c') && |c.sys.pool.reqs| <= g.pages + 1
    ensures Orderly(g, n, c, Submit(r))
  {
    hide RS.Inv, S.Refines, FI.Inv, U.LeadTo, OwedOk, TodoOk, FullErases, RS.Lawful, RS.Exec, RS.Submit, RS.Fresh;
    NextIsLawful(g, n, c, r, c');
    FewSlotsAreFresh(U.SizesOf(g, n), c.sys, r, c.todo[0], g.pages);
  }

  /**
   With so few slots nothing is asked of what is submitted when: the transfers of every run whose
   store steps are calm bring the values last written.
   */
  lemma {:induction false} FewSlotsDeliver<D>(g: F.Geometry, n: nat, states: seq<Machine<D>>,
          actions: seq<Action<D>>, i: nat)
    requires Trace(g, n, states, actions) && Ok(g, n, states[0]) && ErasesFull(g, states[0]) && i <= |actions|
    requires |states[0].sys.pool.reqs| <= g.pages + 1
    requires forall j :: 0 <= j < i && actions[j].Host? ==> Orderly(g, n, states[j], actions[j])
    ensures Ok(g, n, states[i]) && ErasesFull(g, states[i])
        && |states[i].sys.pool.reqs| == |states[0].sys.pool.reqs|
    ensures i < |actions| ==> Delivers(g, n, states[i], actions[i])
  {
    hide Ok, Step, Delivers, Orderly, ErasesFull;
    if i > 0 {
      FewSlotsDeliver(g, n, states, actions, i - 1);
      var c, x, c' := states[i - 1], actions[i - 1], states[i];
      assert Step(g, n, c, x, c');
      FewSlotsKeep(g, n, c, x, c');
    }
    if i < |actions| {
      assert Step(g, n, states[i], actions[i], states[i + 1]);
      StepDelivers(g, n, states[i], actions[i], states[i + 1]);
    }
  }

  lemma FewSlotsKeep<D>(g: F.Geometry, n: nat, c: Machine<D>, x: Action<D>, c': Machine<D>)
    requires Ok(g, n, c) && ErasesFull(g, c) && Step(g, n, c, x, c') && (x.Host? ==> Orderly(g, n, c, x))
    requires |c.sys.pool.reqs| <= g.pages + 1
    ensures Ok(g, n, c') && ErasesFull(g, c') && |c'.sys.pool.reqs| == |c.sys.pool.reqs|
  {
    hide Ok, Step, ErasesFull;
    StepErasesFull(g, n, c, x, c');
    if x.Submit? {
      FewSlotsSubmitFresh(g, n, c, x.r, c');
    }
    ProtocolIsOrderly(g, n, c, x);
    hide Orderly;
    OrderlyKeeps(g, n, c, x, c');
  }

  lemma ProtocolIsOrderly<D>(g: F.Geometry, n: nat, c: Machine<D>, x: Action<D>)
    ensures x.Protocol? ==> Orderly(g, n, c, x)
  {
  }

  // ---------- rest ----------

  /** When nothing is outstanding, the buffer and flash of the hardware are those of the store. */
  lemma QuietDevice<D>(g: F.Geometry, n: nat, c: Machine<D>)
    requires Ok(g, n, c) && c.todo == [] && RS.Quiet(c.sys.pool, c.held)
    ensures U.Corresponds(g, c.store, c.sys.act)
  {
    hide RS.Inv, S.Refines, FI.Inv, OwedOk, U.LeadTo;
    LeadNothing(g, n, c.sys.sub, c.store);
    RS.QuietStateIsSubmitted(U.SizesOf(g, n), c.sys, c.held);
  }

  /**
   Then every slice that no dirty entry caches, after a flush for instance, stands in flash with the
   values last written.
   */
  lemma QuietFlashHolds<D>(g: F.Geometry, n: nat, c: Machine<D>, l: nat, i: nat)
    requires Ok(g, n, c) && c.todo == [] && RS.Quiet(c.sys.pool, c.held)
    requires l < g.slices && !S.Dirty(c.store, l) && i < S.BLOCKS && S.Lba(l, i) in c.host
    ensures l < |c.store.ftl.l2v| && c.store.ftl.l2v[l].Some?
    ensures var v := c.store.ftl.l2v[l].value;
            && v.die < |c.sys.act.flash| && v.block < |c.sys.act.flash[v.die]|
                && v.page < |c.sys.act.flash[v.die][v.block]|
            && c.sys.act.flash[v.die][v.block][v.page].At(i) == c.host[S.Lba(l, i)]
  {
    QuietDevice(g, n, c);
    var s := c.store;
    assert S.FlashHolds(s, c.host, l);
    var v := s.ftl.l2v[l].value;
    assert FI.MediaInv(g, s.ftl);
    hide FI.Inv, RS.Inv, OwedOk, U.LeadTo, S.Dirty;
    assert U.CellsHold(s.ftl, v.die, v.block, c.sys.act.flash[v.die][v.block]);
  }

  // ---------- the start ----------

  /** Nothing is programmed yet. */
  lemma StartedIsStored<D>(g: F.Geometry, bad: seq<seq<bool>>, s: U.Flash<D>, n: nat, m: RS.Mem<D>)
    requires FR.StartedUpTo(g, bad, s, g.dies) && RS.MemShape(U.SizesOf(g, n), m)
    requires forall d, b :: 0 <= d < g.dies && 0 <= b < g.blocks ==> m.flash[d][b] == []
    ensures U.Stored(g, n, s, m)
  {
    forall d, b | 0 <= d < g.dies && 0 <= b < g.blocks
      ensures U.CellsHold(s, d, b, m.flash[d][b])
    {
      assert FR.Started(g, d, s.l2v, s.dies[d]);
    }
  }

  /** The device after initialisation, with whatever the memory of the buffer happens to hold. */
  function Initial<D>(g: F.Geometry, n: nat, ftl: U.Flash<D>, lru: seq<nat>, reqs: seq<Req<D>>, free: seq<nat>,
          val: seq<S.Page<D>>, buf: seq<S.Page<D>>): Machine<D>
    requires n <= |buf|
  {
    Machine(S.Store(B.Init(n, lru), buf[..n], ftl), map[], RS.Init(U.SizesOf(g, n), reqs, free, val, buf), None, [],
        None, map[])
  }

  /** It starts in order, as an empty block store. */
  lemma InitIsOk<D>(g: F.Geometry, bad: seq<seq<bool>>, n: nat, lru: seq<nat>, reqs: seq<Req<D>>, free: seq<nat>,
          val: seq<S.Page<D>>, buf: seq<S.Page<D>>)
    requires FR.BadTable(g, bad) && forall d :: 0 <= d < g.dies ==> |F.GoodBlocks(bad[d], g.blocks)| >= 2
    requires n > 0 && |lru| == n && (forall i :: 0 <= i < n ==> lru[i] == i)
    requires |val| == |reqs| == |free| && |buf| == n + g.dies && forall r :: 0 <= r < |reqs| ==>
        free[r] == r && R.InRange(U.SizesOf(g, n), reqs[r])
    ensures F.InitCurrentBlocks<S.Page<D>>(g, F.InitTables(g, bad), 0).Success?
    ensures var c := Initial(g, n, F.InitCurrentBlocks(g, F.InitTables(g, bad), 0).value, lru, reqs, free, val, buf);
            Ok(g, n, c) && ErasesFull(g, c)
  {
    hide RS.Inv, FI.Inv, S.HoldsBut, FR.Started, U.Stored, U.LeadTo;
    FR.InitEstablishesInv<S.Page<D>>(g, bad);
    FR.BlocksStart<S.Page<D>>(g, bad, F.InitTables(g, bad), 0);
    var ftl := F.InitCurrentBlocks<S.Page<D>>(g, F.InitTables(g, bad), 0).value;
    var c := Initial(g, n, ftl, lru, reqs, free, val, buf);
    RS.InitEstablishesInv(U.SizesOf(g, n), reqs, free, val, buf);
    S.InitRefines(g, n, lru, buf[..n], ftl);
    StartedIsStored(g, bad, ftl, n, c.sys.sub);
    assert S.Sized(g, c.store) && U.Corresponds(g, c.store, c.sys.sub);
    U.LeadNowhere(g, c.sys.sub, c.store);
    assert forall r: nat :: !Outstanding(c.sys.pool, c.held, r);
    assert OwedOk(c);
  }
}
