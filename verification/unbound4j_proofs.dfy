/** What the broker guarantees its callers, and where it does not.

    Every accepted query gets exactly one Delivered event (the invariant
    Valid, kept by every transition and so by every run); context ids are
    never reused while the generator does not wrap; a sweep over a table
    ordered by expiry removes every expired query. As written, a context's
    thread cleans up queries of other contexts and cancels them on its own
    engine, so the owning engine may later call back into a freed query and
    run the caller's callback again (a Stale event, which Valid does not
    count); with each thread confined to its own queries that cannot happen
    (the invariant Coherent), and from load no run logs a Stale event. */
module Unbound4jProofs {
  import opened Base
  import opened Writer
  import opened Unbound4j
  import DnsUtils
  import DnsUtilsProofs

  // ---------------------------------------------------------------------
  // Counting answers

  /** How many answers the log delivers for a query. */
  ghost function Deliveries(log: seq<Event>, h: nat): nat {
    if |log| == 0 then 0
    else (if log[0].Delivered? && log[0].handle == h then 1 else 0) + Deliveries(log[1..], h)
  }

  lemma {:induction false} DeliveriesAppend(a: seq<Event>, b: seq<Event>, h: nat)
    ensures Deliveries(a + b, h) == Deliveries(a, h) + Deliveries(b, h)
    decreases |a|
  {
    if |a| > 0 {
      assert (a + b)[1..] == a[1..] + b;
      DeliveriesAppend(a[1..], b, h);
    } else {
      assert a + b == b;
    }
  }

  lemma DeliveriesOne(e: Event, h: nat)
    ensures Deliveries([e], h) == if e.Delivered? && e.handle == h then 1 else 0
  {
    assert [e][1..] == [];
  }

  /** Expiring a run of distinct queries answers each of them once and no
      other query. */
  lemma {:induction false} DeliveriesTimeOut(engine: int, rs: seq<Query>, h: nat)
    requires Distinct(rs)
    ensures Deliveries(TimeOut(engine, rs), h) == if h in Handles(rs) then 1 else 0
    decreases |rs|
  {
    if |rs| > 0 {
      var d := Delivered(rs[0].handle, rs[0].userdata, CallbackOutcome(true, 1, None));
      var head := [Cancel(engine, rs[0].id), d];
      assert TimeOut(engine, rs) == head + TimeOut(engine, rs[1..]);
      DeliveriesAppend(head, TimeOut(engine, rs[1..]), h);
      DeliveriesTimeOut(engine, rs[1..], h);
      assert head == [Cancel(engine, rs[0].id)] + [d];
      DeliveriesAppend([Cancel(engine, rs[0].id)], [d], h);
      DeliveriesOne(Cancel(engine, rs[0].id), h);
      DeliveriesOne(d, h);
    }
  }

  /** Every removed query is cancelled and answered as timed out. */
  lemma {:induction false} TimeOutAnswers(engine: int, rs: seq<Query>, q: Query)
    requires q in rs
    ensures Cancel(engine, q.id) in TimeOut(engine, rs)
    ensures Delivered(q.handle, q.userdata, Outcome(Some(TimedOut), None)) in TimeOut(engine, rs)
    decreases |rs|
  {
    var o := CallbackOutcome(true, 1, None);
    assert o == Outcome(Some(TimedOut), None);
    var head := [Cancel(engine, rs[0].id), Delivered(rs[0].handle, rs[0].userdata, o)];
    assert TimeOut(engine, rs) == head + TimeOut(engine, rs[1..]);
    if q != rs[0] {
      assert q in rs[1..];
      TimeOutAnswers(engine, rs[1..], q);
    } else {
      assert head[0] == Cancel(engine, q.id) && head[1] == Delivered(q.handle, q.userdata, o);
    }
  }

  // ---------------------------------------------------------------------
  // The query table

  lemma {:induction false} HandlesAppend(qs: seq<Query>, q: Query)
    ensures Handles(qs + [q]) == Handles(qs) + {q.handle}
    decreases |qs|
  {
    if |qs| == 0 {
      assert qs + [q] == [q];
      assert [q][1..] == [];
    } else {
      assert (qs + [q])[1..] == qs[1..] + [q];
      HandlesAppend(qs[1..], q);
    }
  }

  lemma {:induction false} DistinctAppend(qs: seq<Query>, q: Query)
    requires Distinct(qs) && q.handle !in Handles(qs)
    ensures Distinct(qs + [q])
    decreases |qs|
  {
    if |qs| == 0 {
      assert qs + [q] == [q];
      assert [q][1..] == [];
    } else {
      assert (qs + [q])[1..] == qs[1..] + [q];
      HandlesAppend(qs[1..], q);
      DistinctAppend(qs[1..], q);
    }
  }

  lemma {:induction false} HandlesMember(qs: seq<Query>, q: Query)
    requires q in qs
    ensures q.handle in Handles(qs)
    decreases |qs|
  {
    if q != qs[0] {
      assert q in qs[1..];
      HandlesMember(qs[1..], q);
    }
  }

  /** In a table of distinct queries, a query is found by its handle. */
  lemma {:induction false} FindDistinct(qs: seq<Query>, q: Query)
    requires Distinct(qs) && q in qs
    ensures Find(qs, q.handle) == Some(q)
    decreases |qs|
  {
    if q != qs[0] {
      assert q in qs[1..];
      HandlesMember(qs[1..], q);
      FindDistinct(qs[1..], q);
    }
  }

  lemma {:induction false} FindAppend(qs: seq<Query>, q: Query, h: nat)
    requires h in Handles(qs)
    ensures Find(qs + [q], h) == Find(qs, h)
    decreases |qs|
  {
    assert (qs + [q])[0] == qs[0];
    if qs[0].handle != h {
      assert (qs + [q])[1..] == qs[1..] + [q];
      FindAppend(qs[1..], q, h);
    }
  }

  lemma {:induction false} FindWithout(qs: seq<Query>, h: nat, h': nat)
    requires h != h'
    ensures Find(Without(qs, h), h') == Find(qs, h')
    decreases |qs|
  {
    if |qs| > 0 {
      FindWithout(qs[1..], h, h');
      var rest := Without(qs[1..], h);
      if qs[0].handle != h {
        assert ([qs[0]] + rest)[1..] == rest;
      }
    }
  }

  /** A pass over a table of distinct queries keeps and removes distinct
      queries, and no query is both kept and removed. */
  lemma {:induction false} ScanDistinct(qs: seq<Query>, engine: int, scope: Scope, deadline: Option<int>)
    requires Distinct(qs)
    ensures var r := Scan(qs, engine, scope, deadline);
            Distinct(r.kept) && Distinct(r.removed) && Handles(r.kept) !! Handles(r.removed)
    decreases |qs|
  {
    if |qs| > 0 {
      var q := qs[0];
      if (scope == OwnQueries && q.engine != engine) || deadline.None? || q.expiresAt <= deadline.value {
        ScanDistinct(qs[1..], engine, scope, deadline);
        var r := Scan(qs[1..], engine, scope, deadline);
        assert ([q] + r.kept)[1..] == r.kept;
        assert ([q] + r.removed)[1..] == r.removed;
      }
    }
  }

  // ---------------------------------------------------------------------
  // Exactly one answer per query

  predicate ContextsKeyed(b: Broker) {
    && b.nextCtxId >= 1
    && forall k :: k in b.contexts ==> b.contexts[k].id == k && 1 <= k < b.nextCtxId
  }

  predicate HandlesIssued(b: Broker) {
    forall h :: h in Handles(b.queries) ==> h < b.nextHandle
  }

  /** A query gets exactly one Delivered event: none while it is in the
      table, one after it has left, and handles not issued yet have none.
      Stale events are not counted. */
  ghost predicate ExactlyOnce(b: Broker) {
    forall h: nat :: Deliveries(b.log, h) == if h < b.nextHandle && h !in Handles(b.queries) then 1 else 0
  }

  ghost predicate Valid(b: Broker) {
    ContextsKeyed(b) && Distinct(b.queries) && HandlesIssued(b) && ExactlyOnce(b)
  }

  lemma InitValid()
    ensures Valid(Init())
  {
    forall h: nat
      ensures Deliveries(Init().log, h) == if h < Init().nextHandle && h !in Handles(Init().queries) then 1 else 0
    {
    }
  }

  /** A pass that removes queries answers each removed query once. */
  lemma ExpireValid(b: Broker, engine: int, scope: Scope, deadline: Option<int>)
    requires Valid(b)
    ensures Valid(Expire(b, engine, Scan(b.queries, engine, scope, deadline)))
  {
    var sp := Scan(b.queries, engine, scope, deadline);
    var r := Expire(b, engine, sp);
    ScanDistinct(b.queries, engine, scope, deadline);
    forall h: nat
      ensures Deliveries(r.log, h) == if h < r.nextHandle && h !in Handles(r.queries) then 1 else 0
    {
      DeliveriesAppend(b.log, TimeOut(engine, sp.removed), h);
      DeliveriesTimeOut(engine, sp.removed, h);
    }
  }

  lemma SweepValid(b: Broker, engine: int, now: int, scope: Scope)
    requires Valid(b)
    ensures Valid(Sweep(b, engine, now, scope))
  {
    if !(scope == AllQueries && !(|b.queries| > 0 && b.queries[0].expiresAt <= now)) {
      ExpireValid(b, engine, scope, Some(now));
    }
  }

  lemma DrainValid(b: Broker, engine: int, scope: Scope)
    requires Valid(b)
    ensures Valid(Drain(b, engine, scope))
  {
    ExpireValid(b, engine, scope, None);
  }

  lemma CreateValid(b: Broker, cfg: Config, s: Setup, scope: Scope)
    requires Valid(b)
    ensures Valid(CreateContext(b, cfg, s, scope).0)
  {
    var b1 := b.(nextCtxId := b.nextCtxId + 1);
    assert Valid(b1);
    if s.engine && s.thread && !s.writeLock {
      DrainValid(b1, b.nextCtxId, scope);
    }
  }

  lemma DeleteValid(b: Broker, id: int, scope: Scope)
    requires Valid(b)
    ensures Valid(DeleteContext(b, id, scope))
  {
    if id in b.contexts {
      DrainValid(b.(contexts := b.contexts - {id}), id, scope);
    }
  }

  lemma {:induction false} DestroyValid(b: Broker, order: seq<int>, scope: Scope)
    requires Valid(b)
    ensures Valid(Destroy(b, order, scope))
    decreases |order|
  {
    if |order| > 0 {
      DeleteValid(b, order[0], scope);
      DestroyValid(DeleteContext(b, order[0], scope), order[1..], scope);
    }
  }

  lemma LookupValid(b: Broker, ctxId: int, addr: seq<byte>, userdata: int, now: int, res: Resolve)
    requires Valid(b)
    ensures Valid(ReverseLookup(b, ctxId, addr, userdata, now, res).broker)
  {
    var r := ReverseLookup(b, ctxId, addr, userdata, now, res);
    if r.error.None? {
      var q := Query(b.nextHandle, res.id, userdata, now + b.contexts[ctxId].requestTimeoutSecs, ctxId);
      HandlesAppend(b.queries, q);
      DistinctAppend(b.queries, q);
    }
  }

  lemma CallbackValid(b: Broker, s: Submission, err: int, result: Option<Answer>)
    requires Valid(b) && s in b.pending
    ensures Valid(EngineCallback(b, s, err, result))
  {
    var r := EngineCallback(b, s, err, result);
    forall h: nat
      ensures Deliveries(r.log, h) == if h < r.nextHandle && h !in Handles(r.queries) then 1 else 0
    {
      DeliveriesAppend(b.log, [r.log[|b.log|]], h);
      assert r.log == b.log + [r.log[|b.log|]];
      DeliveriesOne(r.log[|b.log|], h);
    }
  }

  // ---------------------------------------------------------------------
  // Runs

  /** One transition: a library call, one pass of a context's thread, or an
      engine calling back. An engine calls back only queries it holds; any
      other callback does not happen. */
  datatype Action =
    | CreateCall(cfg: Config, setup: Setup)
    | DeleteCall(id: int)
    | DestroyCall(order: seq<int>)
    | LookupCall(ctxId: int, addr: seq<byte>, userdata: int, now: int, res: Resolve)
    | SweepPass(engine: int, now: int)
    | Answered(s: Submission, err: int, result: Option<Answer>)

  function Apply(b: Broker, a: Action, scope: Scope): Broker {
    match a
    case CreateCall(cfg, setup) => CreateContext(b, cfg, setup, scope).0
    case DeleteCall(id) => DeleteContext(b, id, scope)
    case DestroyCall(order) => Destroy(b, order, scope)
    case LookupCall(ctxId, addr, userdata, now, res) => ReverseLookup(b, ctxId, addr, userdata, now, res).broker
    case SweepPass(engine, now) => Sweep(b, engine, now, scope)
    case Answered(s, err, result) => if s in b.pending then EngineCallback(b, s, err, result) else b
  }

  function Run(b: Broker, actions: seq<Action>, scope: Scope): Broker
    decreases |actions|
  {
    if |actions| == 0 then b else Run(Apply(b, actions[0], scope), actions[1..], scope)
  }

  /** Whatever happens, in whatever order, every accepted query gets exactly
      one Delivered event and the id generator never goes back. */
  lemma {:induction false} RunValid(b: Broker, actions: seq<Action>, scope: Scope)
    requires Valid(b)
    ensures Valid(Run(b, actions, scope))
    ensures Run(b, actions, scope).nextCtxId >= b.nextCtxId
    decreases |actions|
  {
    if |actions| > 0 {
      var a := actions[0];
      match a {
      case CreateCall(cfg, setup) => CreateValid(b, cfg, setup, scope);
      case DeleteCall(id) => DeleteValid(b, id, scope);
      case DestroyCall(order) => DestroyValid(b, order, scope);
      case LookupCall(ctxId, addr, userdata, now, res) => LookupValid(b, ctxId, addr, userdata, now, res);
      case SweepPass(engine, now) => SweepValid(b, engine, now, scope);
      case Answered(s, err, result) =>
        if s in b.pending {
          CallbackValid(b, s, err, result);
        }
      }
      RunValid(Apply(b, a, scope), actions[1..], scope);
    }
  }

  /** Context ids are never reused: a context created after another, with
      anything in between, gets a larger id (the generator is unbounded
      here; the C atomic_int wraps after 2^31 - 1 creations). */
  lemma IdsNeverReused(b: Broker, cfg1: Config, s1: Setup, actions: seq<Action>,
                       cfg2: Config, s2: Setup, scope: Scope)
    requires Valid(b)
    ensures var (b1, o1) := CreateContext(b, cfg1, s1, scope);
            var (_, o2) := CreateContext(Run(b1, actions, scope), cfg2, s2, scope);
            o1.NewContext? && o2.NewContext? ==> o1.id !in b.contexts && o1.id < o2.id
  {
    var (b1, o1) := CreateContext(b, cfg1, s1, scope);
    CreateValid(b, cfg1, s1, scope);
    RunValid(b1, actions, scope);
  }

  /** Deleting a context just created gives back the context table it was
      created in. */
  lemma DeleteUndoesCreate(b: Broker, cfg: Config, s: Setup, scope: Scope)
    requires Valid(b)
    ensures var (b1, o) := CreateContext(b, cfg, s, scope);
            o.NewContext? ==> DeleteContext(b1, o.id, scope).contexts == b.contexts
  {
    var (b1, o) := CreateContext(b, cfg, s, scope);
    if o.NewContext? {
      assert o.id !in b.contexts;
      assert b.contexts[o.id := Context(o.id, cfg.requestTimeoutSecs)] - {o.id} == b.contexts;
    }
  }

  /** A context created from the default configuration gives its queries
      five seconds. */
  lemma DefaultTimeout(b: Broker, s: Setup, scope: Scope, addr: seq<byte>, userdata: int, now: int, res: Resolve)
    ensures var (b1, o) := CreateContext(b, ConfigInit(), s, scope);
            var r := ReverseLookup(b1, if o.NewContext? then o.id else 0, addr, userdata, now, res);
            o.NewContext? && r.error.None? ==> r.broker.queries[|r.broker.queries| - 1].expiresAt == now + 5
  {
  }

  /** The name submitted for a lookup reads back as the address looked up. */
  lemma LookupNameReadsBack(b: Broker, ctxId: int, addr: seq<byte>, userdata: int, now: int, res: Resolve)
    ensures var r := ReverseLookup(b, ctxId, addr, userdata, now, res);
            r.error.None? ==>
              exists s :: s in r.broker.pending && s.handle == b.nextHandle && s.engine == ctxId && s.id == res.id
                          && (|addr| == 4 ==> DnsUtils.ParseReverseV4(s.name) == Some(addr))
                          && (|addr| == 16 ==> DnsUtils.ParseReverseV6(s.name) == Some(addr))
  {
    var r := ReverseLookup(b, ctxId, addr, userdata, now, res);
    if r.error.None? {
      var s := Submission(b.nextHandle, ctxId, res.id, ReverseName(addr).value);
      assert s in r.broker.pending;
      if |addr| == 4 {
        DnsUtilsProofs.ReverseV4Exact(addr, s.name);
      } else {
        DnsUtilsProofs.ReverseV6Exact(addr, s.name);
      }
    }
  }

  // ---------------------------------------------------------------------
  // Expiry order

  predicate Sorted(qs: seq<Query>) {
    forall i, j :: 0 <= i < j < |qs| ==> qs[i].expiresAt <= qs[j].expiresAt
  }

  /** The early exit of the sweep is sound when the table is ordered by
      expiry: exactly the expired queries leave it. */
  lemma SweepRemovesExpired(b: Broker, engine: int, now: int)
    requires Sorted(b.queries)
    ensures var r := Sweep(b, engine, now, AllQueries);
            forall q :: q in b.queries ==> (q in r.queries <==> q.expiresAt > now)
  {
    var r := Sweep(b, engine, now, AllQueries);
    SuffixSplitsAtNow(b.queries, r.queries, now);
  }

  /** A suffix of an ordered table that starts after `now` and leaves out only
      queries expired by `now` holds exactly the queries not yet expired. */
  lemma SuffixSplitsAtNow(qs: seq<Query>, rs: seq<Query>, now: int)
    requires Sorted(qs) && |rs| <= |qs| && rs == qs[|qs| - |rs|..]
    requires |rs| > 0 ==> rs[0].expiresAt > now
    requires forall q :: q in qs && q !in rs ==> q.expiresAt <= now
    ensures forall q :: q in qs ==> (q in rs <==> q.expiresAt > now)
  {
    var k := |qs| - |rs|;
    forall q | q in rs
      ensures q.expiresAt > now
    {
      var j :| 0 <= j < |rs| && rs[j] == q;
      assert rs[0] == qs[k] && q == qs[k + j];
    }
  }

  /** A lookup keeps the table ordered when its expiry is not before any
      other, as happens when all contexts share one timeout and the clock
      does not go back. */
  lemma LookupKeepsOrder(b: Broker, ctxId: int, addr: seq<byte>, userdata: int, now: int, res: Resolve)
    requires Sorted(b.queries)
    requires ctxId in b.contexts
    requires forall q :: q in b.queries ==> q.expiresAt <= now + b.contexts[ctxId].requestTimeoutSecs
    ensures Sorted(ReverseLookup(b, ctxId, addr, userdata, now, res).broker.queries)
  {
    var r := ReverseLookup(b, ctxId, addr, userdata, now, res);
    if r.error.None? {
      var qs := r.broker.queries;
      forall i, j | 0 <= i < j < |qs|
        ensures qs[i].expiresAt <= qs[j].expiresAt
      {
        if j == |qs| - 1 {
          assert qs[i] == b.queries[i];
          assert qs[i] in b.queries;
        }
      }
    }
  }

  lemma {:induction false} WithoutKeepsOrder(qs: seq<Query>, h: nat)
    requires Sorted(qs)
    ensures Sorted(Without(qs, h))
    decreases |qs|
  {
    if |qs| > 0 {
      WithoutKeepsOrder(qs[1..], h);
      var rest := Without(qs[1..], h);
      if qs[0].handle != h {
        HeadIsEarliest(qs);
        ConsKeepsOrder(qs[0], rest);
      }
    }
  }

  /** The head of an ordered table expires no later than anything after it. */
  lemma HeadIsEarliest(qs: seq<Query>)
    requires Sorted(qs) && |qs| > 0
    ensures forall q :: q in qs[1..] ==> qs[0].expiresAt <= q.expiresAt
  {
    forall q | q in qs[1..]
      ensures qs[0].expiresAt <= q.expiresAt
    {
      var k :| 0 <= k < |qs[1..]| && qs[1..][k] == q;
      assert qs[k + 1] == q;
    }
  }

  /** A query in front of an ordered table that expires no later than any
      of its members. */
  lemma ConsKeepsOrder(q: Query, rest: seq<Query>)
    requires Sorted(rest)
    requires forall r :: r in rest ==> q.expiresAt <= r.expiresAt
    ensures Sorted([q] + rest)
  {
    var w := [q] + rest;
    forall i, j | 0 <= i < j < |w|
      ensures w[i].expiresAt <= w[j].expiresAt
    {
      assert w[j] == rest[j - 1];
      if i > 0 {
        assert w[i] == rest[i - 1];
      }
    }
  }

  /** An answer keeps the table ordered. */
  lemma AnswerKeepsOrder(b: Broker, s: Submission, err: int, result: Option<Answer>)
    requires Sorted(b.queries) && s in b.pending
    ensures Sorted(EngineCallback(b, s, err, result).queries)
  {
    WithoutKeepsOrder(b.queries, s.handle);
  }

  /** A sweep keeps the table ordered: what it keeps is a suffix. */
  lemma SweepKeepsOrder(b: Broker, engine: int, now: int)
    requires Sorted(b.queries)
    ensures Sorted(Sweep(b, engine, now, AllQueries).queries)
  {
    var qs := Sweep(b, engine, now, AllQueries).queries;
    SuffixKeepsOrder(b.queries, |b.queries| - |qs|);
  }

  lemma SuffixKeepsOrder(qs: seq<Query>, k: nat)
    requires Sorted(qs) && k <= |qs|
    ensures Sorted(qs[k..])
  {
    forall i, j | 0 <= i < j < |qs| - k
      ensures qs[k..][i].expiresAt <= qs[k..][j].expiresAt
    {
      assert qs[k..][i] == qs[k + i] && qs[k..][j] == qs[k + j];
    }
  }

  /** Contexts with different timeouts break the order: a query with a long
      timeout at the head of the table keeps a later, already expired query
      of another context from being swept. */
  lemma MixedTimeoutsDelayExpiry(b: Broker, c1: int, c2: int, addr: seq<byte>, now: int, res1: Resolve, res2: Resolve,
                                 engine: int)
    requires b.queries == [] && c1 in b.contexts && c2 in b.contexts
    requires b.contexts[c1].requestTimeoutSecs > b.contexts[c2].requestTimeoutSecs >= 0
    requires |addr| == 4 && res1.ret == 0 && res2.ret == 0
    ensures var b1 := ReverseLookup(b, c1, addr, 0, now, res1).broker;
            var b2 := ReverseLookup(b1, c2, addr, 0, now, res2).broker;
            var late := now + b.contexts[c2].requestTimeoutSecs;
            var q := b2.queries[1];
            && q.engine == c2 && q.expiresAt <= late
            && q in Sweep(b2, engine, late, AllQueries).queries
  {
  }

  // ---------------------------------------------------------------------
  // Cleanup across contexts

  /** As written: a query of one context, after another context is deleted,
      has been answered as timed out and freed, its cancellation went to the
      deleted context's engine, and its own engine still holds it, so the
      engine's answer arrives for a freed query. */
  lemma StaleCallbackAsWritten(b: Broker, c1: int, c2: int, addr: seq<byte>, userdata: int, now: int, res: Resolve,
                               err: int, result: Option<Answer>)
    requires Valid(b) && c1 in b.contexts && c2 in b.contexts && c1 != c2
    requires |addr| == 4 && res.ret == 0
    ensures var b1 := ReverseLookup(b, c1, addr, userdata, now, res).broker;
            var b2 := DeleteContext(b1, c2, AllQueries);
            var s := Submission(b.nextHandle, c1, res.id, DnsUtils.ReverseV4(addr));
            && b.nextHandle !in Handles(b2.queries)
            && Delivered(b.nextHandle, userdata, Outcome(Some(TimedOut), None)) in b2.log
            && Cancel(c2, res.id) in b2.log
            && s in b2.pending
            && EngineCallback(b2, s, err, result).log[|b2.log|] == Stale(b.nextHandle)
  {
    var b1 := ReverseLookup(b, c1, addr, userdata, now, res).broker;
    var q := Query(b.nextHandle, res.id, userdata, now + b.contexts[c1].requestTimeoutSecs, c1);
    assert b1.queries == b.queries + [q];
    assert q in b1.queries;
    var b0 := b1.(contexts := b1.contexts - {c2});
    var sp := Scan(b0.queries, c2, AllQueries, None);
    assert sp.removed == b1.queries;
    TimeOutAnswers(c2, sp.removed, q);
    DeliveriesAppend(b1.log, TimeOut(c2, sp.removed), b.nextHandle);
  }

  /** A table query is owned by the engine that holds its submission. */
  predicate Owned(qs: seq<Query>, s: Submission) {
    var f := Find(qs, s.handle);
    f.Some? && f.value.engine == s.engine && f.value.id == s.id
  }

  /** Every query an engine holds is in the table, under the same engine and
      id, and an engine holds each query once. */
  predicate Coherent(b: Broker) {
    && (forall s :: s in b.pending ==> Owned(b.queries, s))
    && (forall s1, s2 :: s1 in b.pending && s2 in b.pending && s1.handle == s2.handle ==> s1 == s2)
  }

  lemma ExpireCoherent(b: Broker, engine: int, deadline: Option<int>)
    requires Valid(b) && Coherent(b)
    ensures Coherent(Expire(b, engine, Scan(b.queries, engine, OwnQueries, deadline)))
  {
    var sp := Scan(b.queries, engine, OwnQueries, deadline);
    ScanMembers(b.queries, engine, OwnQueries, deadline);
    ScanDistinct(b.queries, engine, OwnQueries, deadline);
    var r := Expire(b, engine, sp);
    forall s | s in r.pending
      ensures Owned(r.queries, s)
    {
      var q := Find(b.queries, s.handle).value;
      assert q in sp.removed ==> q.id in Ids(sp.removed);
      assert q in sp.kept;
      FindDistinct(sp.kept, q);
    }
  }

  lemma CreateCoherent(b: Broker, cfg: Config, s: Setup)
    requires Valid(b) && Coherent(b)
    ensures Coherent(CreateContext(b, cfg, s, OwnQueries).0)
  {
    if s.engine && s.thread && !s.writeLock {
      var b1 := b.(nextCtxId := b.nextCtxId + 1);
      ExpireCoherent(b1, b.nextCtxId, None);
    }
  }

  lemma DeleteCoherent(b: Broker, id: int)
    requires Valid(b) && Coherent(b)
    ensures Coherent(DeleteContext(b, id, OwnQueries))
  {
    if id in b.contexts {
      ExpireCoherent(b.(contexts := b.contexts - {id}), id, None);
    }
  }

  lemma {:induction false} DestroyCoherent(b: Broker, order: seq<int>)
    requires Valid(b) && Coherent(b)
    ensures Coherent(Destroy(b, order, OwnQueries))
    decreases |order|
  {
    if |order| > 0 {
      DeleteCoherent(b, order[0]);
      DeleteValid(b, order[0], OwnQueries);
      DestroyCoherent(DeleteContext(b, order[0], OwnQueries), order[1..]);
    }
  }

  lemma LookupCoherent(b: Broker, ctxId: int, addr: seq<byte>, userdata: int, now: int, res: Resolve)
    requires Valid(b) && Coherent(b)
    ensures Coherent(ReverseLookup(b, ctxId, addr, userdata, now, res).broker)
  {
    var r := ReverseLookup(b, ctxId, addr, userdata, now, res);
    if r.error.None? {
      var q := Query(b.nextHandle, res.id, userdata, now + b.contexts[ctxId].requestTimeoutSecs, ctxId);
      HandlesAppend(b.queries, q);
      DistinctAppend(b.queries, q);
      FindDistinct(b.queries + [q], q);
      forall s | s in b.pending
        ensures Owned(r.broker.queries, s)
      {
        FindAppend(b.queries, q, s.handle);
      }
    }
  }

  lemma CallbackCoherent(b: Broker, s: Submission, err: int, result: Option<Answer>)
    requires Valid(b) && Coherent(b) && s in b.pending
    ensures Coherent(EngineCallback(b, s, err, result))
  {
    var r := EngineCallback(b, s, err, result);
    forall s' | s' in r.pending
      ensures Owned(r.queries, s')
    {
      FindWithout(b.queries, s.handle, s'.handle);
    }
  }

  lemma SweepCoherent(b: Broker, engine: int, now: int)
    requires Valid(b) && Coherent(b)
    ensures Coherent(Sweep(b, engine, now, OwnQueries))
  {
    ExpireCoherent(b, engine, Some(now));
  }

  /** With each thread confined to its own queries, every run keeps the
      engines and the table in step. */
  lemma {:induction false} RunCoherent(b: Broker, actions: seq<Action>)
    requires Valid(b) && Coherent(b)
    ensures Coherent(Run(b, actions, OwnQueries))
    decreases |actions|
  {
    if |actions| > 0 {
      var a := actions[0];
      match a {
      case CreateCall(cfg, setup) => CreateCoherent(b, cfg, setup); CreateValid(b, cfg, setup, OwnQueries);
      case DeleteCall(id) => DeleteCoherent(b, id); DeleteValid(b, id, OwnQueries);
      case DestroyCall(order) => DestroyCoherent(b, order); DestroyValid(b, order, OwnQueries);
      case LookupCall(ctxId, addr, userdata, now, res) =>
        LookupCoherent(b, ctxId, addr, userdata, now, res); LookupValid(b, ctxId, addr, userdata, now, res);
      case SweepPass(engine, now) => SweepCoherent(b, engine, now); SweepValid(b, engine, now, OwnQueries);
      case Answered(s, err, result) =>
        if s in b.pending {
          CallbackCoherent(b, s, err, result);
          CallbackValid(b, s, err, result);
        }
      }
      RunCoherent(Apply(b, a, OwnQueries), actions[1..]);
    }
  }

  /** Corrected: from the initial state, whatever happens, an engine's
      callback always finds its query in the table and answers it. */
  lemma NoStaleCallback(actions: seq<Action>, s: Submission, err: int, result: Option<Answer>)
    ensures var b := Run(Init(), actions, OwnQueries);
            s in b.pending ==> EngineCallback(b, s, err, result).log[|b.log|].Delivered?
  {
    InitValid();
    assert Coherent(Init());
    RunCoherent(Init(), actions);
  }

  /** Corrected: deleting one context leaves another context's query in the
      table, held by its engine, and the engine's answer reaches the caller. */
  lemma OtherContextSurvivesDelete(b: Broker, c1: int, c2: int, addr: seq<byte>, userdata: int, now: int, res: Resolve,
                                   err: int, result: Option<Answer>)
    requires Valid(b) && c1 in b.contexts && c2 in b.contexts && c1 != c2
    requires |addr| == 4 && res.ret == 0
    ensures var b1 := ReverseLookup(b, c1, addr, userdata, now, res).broker;
            var b2 := DeleteContext(b1, c2, OwnQueries);
            var s := Submission(b.nextHandle, c1, res.id, DnsUtils.ReverseV4(addr));
            && b.nextHandle in Handles(b2.queries)
            && s in b2.pending
            && EngineCallback(b2, s, err, result).log[|b2.log|]
               == Delivered(b.nextHandle, userdata, CallbackOutcome(false, err, result))
  {
    var b1 := ReverseLookup(b, c1, addr, userdata, now, res).broker;
    LookupValid(b, c1, addr, userdata, now, res);
    var q := Query(b.nextHandle, res.id, userdata, now + b.contexts[c1].requestTimeoutSecs, c1);
    assert b1.queries == b.queries + [q];
    assert q in b1.queries;
    var b0 := b1.(contexts := b1.contexts - {c2});
    var sp := Scan(b0.queries, c2, OwnQueries, None);
    ScanMembers(b0.queries, c2, OwnQueries, None);
    ScanDistinct(b0.queries, c2, OwnQueries, None);
    assert q in sp.kept;
    HandlesMember(sp.kept, q);
    FindDistinct(sp.kept, q);
  }

  // ---------------------------------------------------------------------
  // No callback from freed memory

  /** No engine called back into a query the broker had already freed. */
  predicate StaleFree(log: seq<Event>) {
    forall e :: e in log ==> !e.Stale?
  }

  lemma {:induction false} TimeOutStaleFree(engine: int, qs: seq<Query>)
    ensures StaleFree(TimeOut(engine, qs))
    decreases |qs|
  {
    if |qs| > 0 {
      TimeOutStaleFree(engine, qs[1..]);
    }
  }

  /** Only an engine's callback can log a stale event: every other
      transition, in either scope, adds cancellations and timeouts only. */
  lemma DrainStaleFree(b: Broker, engine: int, scope: Scope)
    requires StaleFree(b.log)
    ensures StaleFree(Drain(b, engine, scope).log)
  {
    TimeOutStaleFree(engine, Scan(b.queries, engine, scope, None).removed);
  }

  lemma {:induction false} DestroyStaleFree(b: Broker, order: seq<int>, scope: Scope)
    requires StaleFree(b.log)
    ensures StaleFree(Destroy(b, order, scope).log)
    decreases |order|
  {
    if |order| > 0 {
      if order[0] in b.contexts {
        DrainStaleFree(b.(contexts := b.contexts - {order[0]}), order[0], scope);
      }
      DestroyStaleFree(DeleteContext(b, order[0], scope), order[1..], scope);
    }
  }

  lemma ApplyStaleFree(b: Broker, a: Action, scope: Scope)
    requires StaleFree(b.log) && !a.Answered?
    ensures StaleFree(Apply(b, a, scope).log)
  {
    match a {
    case CreateCall(cfg, setup) =>
      DrainStaleFree(b.(nextCtxId := b.nextCtxId + 1), b.nextCtxId, scope);
    case DeleteCall(id) =>
      DrainStaleFree(b.(contexts := b.contexts - {id}), id, scope);
    case DestroyCall(order) => DestroyStaleFree(b, order, scope);
    case LookupCall(ctxId, addr, userdata, now, res) =>
    case SweepPass(engine, now) =>
      TimeOutStaleFree(engine, Scan(b.queries, engine, scope, Some(now)).removed);
    }
  }

  /** Corrected: with every engine holding only queries that are in the
      table, an engine's callback delivers an answer and logs nothing
      stale. */
  lemma CallbackStaleFree(b: Broker, s: Submission, err: int, result: Option<Answer>)
    requires Coherent(b) && StaleFree(b.log) && s in b.pending
    ensures StaleFree(EngineCallback(b, s, err, result).log)
  {
    var r := EngineCallback(b, s, err, result);
    assert r.log == b.log + [r.log[|b.log|]];
  }

  /** Corrected: whatever happens, in whatever order, after load, every
      accepted query is answered exactly once and no engine ever calls back
      into a freed query, so a caller's callback runs once per query and
      never again. */
  lemma {:induction false} RunStaleFree(b: Broker, actions: seq<Action>)
    requires Valid(b) && Coherent(b) && StaleFree(b.log)
    ensures var r := Run(b, actions, OwnQueries); Valid(r) && StaleFree(r.log)
    decreases |actions|
  {
    if |actions| > 0 {
      var a := actions[0];
      if a.Answered? {
        if a.s in b.pending {
          CallbackStaleFree(b, a.s, a.err, a.result);
        }
      } else {
        ApplyStaleFree(b, a, OwnQueries);
      }
      RunValid(b, [a], OwnQueries);
      RunCoherent(b, [a]);
      assert Run(b, [a], OwnQueries) == Apply(b, a, OwnQueries);
      RunStaleFree(Apply(b, a, OwnQueries), actions[1..]);
    }
  }

  lemma AnsweredOnceFromLoad(actions: seq<Action>)
    ensures var r := Run(Init(), actions, OwnQueries);
            ExactlyOnce(r) && StaleFree(r.log)
  {
    InitValid();
    assert Coherent(Init());
    RunStaleFree(Init(), actions);
  }
}
