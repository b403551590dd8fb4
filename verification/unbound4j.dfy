/** The query broker of unbound4j.c as a sequential state machine.

    The broker keeps a table of contexts (one libunbound engine and one
    processing thread each) and one global table of outstanding reverse
    lookups shared by all contexts. Each operation of the library, and each
    thing a context's thread or engine does on its own, is one transition:

      - CreateContext, DeleteContext, Destroy and ReverseLookup are the
        library's entry points;
      - Sweep is one pass of a processing thread's loop (cancel what has
        expired), Drain is what the thread does when told to stop;
      - EngineCallback is libunbound answering a query it still holds.

    Engines are named by the id of the context that owns them. The events a
    caller and the engines observe are appended to a log: the cancellations
    sent to engines, the answers delivered to callers, and engine callbacks
    for queries the broker has already freed. A query's `handle` stands for
    the address of its `struct ub4j_query`, and its `engine` records which
    context submitted it (the C struct does not keep that). */
module Unbound4j {
  import opened Base
  import opened Writer
  import Sldns
  import DnsUtils

  // ---------------------------------------------------------------------
  // Configuration and contexts

  /** struct ub4j_config. */
  datatype Config = Config(requestTimeoutSecs: int, useSystemResolver: bool, unboundConfig: Option<string>)

  /** ub4j_config_init: a five-second timeout, the system's resolver
      settings, no Unbound configuration file. */
  function ConfigInit(): Config {
    Config(5, true, None)
  }

  /** What a context keeps of its configuration. */
  datatype Context = Context(id: int, requestTimeoutSecs: int)

  /** What the calls made while creating a context return: whether
      ub_ctx_create gave an engine, the codes of ub_ctx_resolvconf, ub_ctx_hosts,
      ub_ctx_config and ub_ctx_async, the descriptor of ub_fd, and whether
      pthread_create and the write lock on the context table succeeded. */
  datatype Setup = Setup(engine: bool, resolvConf: int, hosts: int, unboundConfig: int,
                         async: int, fd: int, thread: bool, writeLock: bool)

  datatype CreateError =
    | NoEngine
    | ResolvConfError(code: int)
    | HostsError(code: int)
    | UnboundConfigError(path: string, code: int)
    | NoAsync
    | NoDescriptor
    | NoThread
    | NoWriteLock

  datatype CreateOutcome = NewContext(id: int) | CreateFailed(reason: CreateError)

  // ---------------------------------------------------------------------
  // Queries, engines and events

  /** struct ub4j_query while it is in the global table. Its `expired` flag
      is 0 for every query in the table (it is set only after removal), so
      it is not stored here; the callback receives it as a parameter. */
  datatype Query = Query(handle: nat, id: int, userdata: int, expiresAt: int, engine: int)

  /** A query libunbound holds: which engine has it, the id it assigned, the
      handle passed as `mydata`, and the name being resolved. */
  datatype Submission = Submission(handle: nat, engine: int, id: int, name: string)

  /** The `struct ub_result` fields the callback reads. */
  datatype Answer = Answer(haveData: bool, data: seq<byte>, qtype: int)

  datatype Failure = TimedOut | EngineError(code: int)

  /** The two strings handed to the caller's callback: the error text (as
      the reason it stands for) and the hostname. */
  datatype Outcome = Outcome(error: Option<Failure>, hostname: Option<string>)

  datatype Event =
    | Cancel(engine: int, queryId: int)
    | Delivered(handle: nat, userdata: int, outcome: Outcome)
    | Stale(handle: nat)

  /** Which queries a processing thread cleans up: as written, every query in
      the global table; as evidently intended, only those its own engine
      holds. */
  datatype Scope = AllQueries | OwnQueries

  datatype Broker = Broker(
    contexts: map<int, Context>,
    nextCtxId: int,
    queries: seq<Query>,
    pending: set<Submission>,
    nextHandle: nat,
    log: seq<Event>)

  /** The state after load: no contexts, the id generator at 1. */
  function Init(): Broker {
    Broker(map[], 1, [], {}, 0, [])
  }

  // ---------------------------------------------------------------------
  // The query table

  function Handles(qs: seq<Query>): set<nat> {
    if |qs| == 0 then {} else {qs[0].handle} + Handles(qs[1..])
  }

  /** No two queries in the table are the same struct. */
  predicate Distinct(qs: seq<Query>) {
    |qs| == 0 || (qs[0].handle !in Handles(qs[1..]) && Distinct(qs[1..]))
  }

  function Ids(qs: seq<Query>): set<int> {
    set q | q in qs :: q.id
  }

  /** The first query with the given handle. */
  function Find(qs: seq<Query>, h: nat): (r: Option<Query>)
    ensures r.Some? <==> h in Handles(qs)
    ensures r.Some? ==> r.value in qs && r.value.handle == h
  {
    if |qs| == 0 then None
    else if qs[0].handle == h then Some(qs[0])
    else Find(qs[1..], h)
  }

  /** Where the first query with the given handle sits in the table. */
  function IndexOf(qs: seq<Query>, h: nat): (i: nat)
    requires h in Handles(qs)
    ensures i < |qs| && qs[i].handle == h
    ensures forall j :: 0 <= j < i ==> qs[j].handle != h
  {
    if qs[0].handle == h then 0 else 1 + IndexOf(qs[1..], h)
  }

  /** HASH_DEL of a query: the table without it, in the same order. A handle
      not in the table leaves it as it is (WithoutCutsOne says which entry
      goes otherwise). */
  function Without(qs: seq<Query>, h: nat): (r: seq<Query>)
    ensures Handles(r) == Handles(qs) - {h}
    ensures forall q :: q in r ==> q in qs && q.handle != h
    ensures Distinct(qs) ==> Distinct(r)
    ensures h !in Handles(qs) ==> r == qs
  {
    if |qs| == 0 then []
    else
      var rest := Without(qs[1..], h);
      assert qs == [qs[0]] + qs[1..];
      if qs[0].handle == h then rest
      else
        assert ([qs[0]] + rest)[1..] == rest;
        [qs[0]] + rest
  }

  /** In a table of distinct queries, HASH_DEL cuts out exactly the one entry
      with the handle and keeps the others in their order. */
  lemma {:induction false} WithoutCutsOne(qs: seq<Query>, h: nat)
    requires Distinct(qs) && h in Handles(qs)
    ensures var i := IndexOf(qs, h); Without(qs, h) == qs[..i] + qs[i + 1..]
    decreases |qs|
  {
    var t := qs[1..];
    if qs[0].handle == h {
      assert Without(qs, h) == Without(t, h) == t;
      assert qs[..0] + qs[1..] == t;
    } else {
      WithoutCutsOne(t, h);
      var j := IndexOf(t, h);
      assert IndexOf(qs, h) == j + 1;
      assert Without(qs, h) == [qs[0]] + (t[..j] + t[j + 1..]);
      ConsCut(qs, j);
    }
  }

  lemma ConsCut(qs: seq<Query>, j: nat)
    requires j + 1 < |qs|
    ensures [qs[0]] + (qs[1..][..j] + qs[1..][j + 1..]) == qs[..j + 1] + qs[j + 2..]
  {
    assert qs[..j + 1] == [qs[0]] + qs[1..][..j];
    assert qs[j + 2..] == qs[1..][j + 1..];
  }

  /** A table cut into the queries a pass keeps and those it removes. */
  datatype Split = Split(kept: seq<Query>, removed: seq<Query>)

  /** The HASH_ITER loops of the processing thread. With a deadline (the
      sweep) the loop removes queries whose expiry is at or before it and
      stops at the first one that is not; without one (the drain) it removes
      every query. With OwnQueries the loop passes over queries of other
      engines. Removal keeps the table's order, and under AllQueries what
      is removed is a prefix of the table. */
  function Scan(qs: seq<Query>, engine: int, scope: Scope, deadline: Option<int>): (r: Split)
    ensures Handles(r.kept) + Handles(r.removed) == Handles(qs)
    ensures forall q :: q in r.removed && deadline.Some? ==> q.expiresAt <= deadline.value
    ensures forall q :: q in r.removed && scope == OwnQueries ==> q.engine == engine
    ensures scope == AllQueries ==> qs == r.removed + r.kept
    ensures scope == AllQueries && deadline.Some? && |r.kept| > 0 ==> r.kept[0].expiresAt > deadline.value
    ensures forall q :: q in r.kept && deadline.None? ==> scope == OwnQueries && q.engine != engine
    decreases |qs|
  {
    if |qs| == 0 then Split([], [])
    else
      var q := qs[0];
      assert qs == [q] + qs[1..];
      if scope == OwnQueries && q.engine != engine then
        var r := Scan(qs[1..], engine, scope, deadline);
        assert ([q] + r.kept)[1..] == r.kept;
        Split([q] + r.kept, r.removed)
      else if deadline.None? || q.expiresAt <= deadline.value then
        var r := Scan(qs[1..], engine, scope, deadline);
        assert ([q] + r.removed)[1..] == r.removed;
        Split(r.kept, [q] + r.removed)
      else
        Split(qs, [])
  }

  /** A pass neither loses nor invents queries. */
  lemma {:induction false} ScanMembers(qs: seq<Query>, engine: int, scope: Scope, deadline: Option<int>)
    ensures var r := Scan(qs, engine, scope, deadline);
            forall q :: q in qs <==> q in r.kept || q in r.removed
    decreases |qs|
  {
    if |qs| > 0 {
      assert qs == [qs[0]] + qs[1..];
      ScanMembers(qs[1..], engine, scope, deadline);
    }
  }

  // ---------------------------------------------------------------------
  // The callback

  /** The hostname buffer as the callback fills it: 256 bytes from malloc,
      never cleared, all of them handed to sldns_wire2str_rdata_buf. The
      second component says whether a NUL follows the stored text. When none
      does, the string the caller is given runs on into uninitialised memory.
      That happens when the last character stored went in directly rather
      than through vsnprintf: when it took the buffer's last byte, or when
      the rdata ended inside a label. */
  function HostnameAsWritten(data: seq<byte>, qtype: int): (r: (string, bool))
    ensures r.0 <= Render(Sldns.DnameSpool(data, None).pieces)
    ensures r.1 ==> |r.0| < 256 && r.0 == Hostname(data, qtype)
  {
    var pieces := Sldns.DnameSpool(data, None).pieces;
    Writer.TerminatedBound(Window([], 256), pieces, false, 256);
    (Sldns.RdataBuf(data, 256, qtype).window.written, Terminated(Window([], 256), pieces, false))
  }

  /** The hostname from a cleared buffer whose last byte is kept for the NUL
      (calloc, and hostname[255] = 0 after the call; both are needed, the
      first for rdata that ends inside a label, the second for text that
      fills the buffer): the caller always gets a string of at most 255
      characters that begins the decoded name, and the whole name whenever
      it is shorter than the buffer. */
  function Hostname(data: seq<byte>, qtype: int): (h: string)
    ensures h <= Render(Sldns.DnameSpool(data, None).pieces)
    ensures |h| < 256
    ensures |Render(Sldns.DnameSpool(data, None).pieces)| < 256 ==> h == Render(Sldns.DnameSpool(data, None).pieces)
  {
    var r := Sldns.RdataBuf(data, 256, qtype);
    assert Stores(Window([], 256), r.window, Render(Sldns.DnameSpool(data, None).pieces));
    if |r.window.written| < 256 then r.window.written else r.window.written[..255]
  }

  /** ub_reverse_lookup_callback, what the caller receives: a hostname only
      when the engine reported no error and the answer has data (the first
      record's rdata decoded into a 256-character buffer), and an error only
      when the engine reported one, "Query timed out." for a query the
      broker expired itself. */
  function CallbackOutcome(expired: bool, err: int, result: Option<Answer>): (o: Outcome)
    ensures o.error.Some? <==> err != 0
    ensures o.error == Some(TimedOut) <==> err != 0 && expired
    ensures err != 0 && !expired ==> o.error == Some(EngineError(err))
    ensures o.hostname.Some? <==> err == 0 && result.Some? && result.value.haveData
    ensures o.hostname.Some? ==>
              var text := Render(Sldns.DnameSpool(result.value.data, None).pieces);
              && o.hostname.value <= text
              && |o.hostname.value| < 256
              && (|text| < 256 ==> o.hostname.value == text)
  {
    var hostname :=
      if err == 0 && result.Some? && result.value.haveData
      then Some(Hostname(result.value.data, result.value.qtype))
      else None;
    var error :=
      if err == 0 then None
      else if expired then Some(TimedOut)
      else Some(EngineError(err));
    Outcome(error, hostname)
  }

  // ---------------------------------------------------------------------
  // Transitions of the processing threads

  /** For each removed query, in order: ub_cancel on the thread's engine,
      then the callback with the expired flag set. */
  function TimeOut(engine: int, qs: seq<Query>): (es: seq<Event>)
    ensures |es| == 2 * |qs|
  {
    if |qs| == 0 then []
    else [Cancel(engine, qs[0].id), Delivered(qs[0].handle, qs[0].userdata, CallbackOutcome(true, 1, None))]
         + TimeOut(engine, qs[1..])
  }

  /** ub_cancel on `engine` for each id: that engine drops any query it holds
      under one of those ids; other engines are not affected. */
  function Withdraw(pending: set<Submission>, engine: int, ids: set<int>): (r: set<Submission>)
    ensures r <= pending
    ensures forall s :: s in pending && s.engine != engine ==> s in r
  {
    set s | s in pending && !(s.engine == engine && s.id in ids)
  }

  /** Removes the queries of a split from the table, cancelling each on the
      running thread's engine and delivering its timeout. */
  function Expire(b: Broker, engine: int, sp: Split): Broker {
    b.(queries := sp.kept,
       pending := Withdraw(b.pending, engine, Ids(sp.removed)),
       log := b.log + TimeOut(engine, sp.removed))
  }

  /** One pass of the loop in context_processing_thread after select: peek at
      the head of the table and, if it has expired, remove queries from the
      front for as long as they have expired. The engine is the one of the
      context whose thread runs the pass. */
  function Sweep(b: Broker, engine: int, now: int, scope: Scope): (r: Broker)
    ensures r.contexts == b.contexts && r.nextCtxId == b.nextCtxId && r.nextHandle == b.nextHandle
    ensures forall q :: q in r.queries ==> q in b.queries
    ensures forall q :: q in b.queries && q !in r.queries ==> q.expiresAt <= now
    ensures scope == AllQueries ==> |r.queries| <= |b.queries| && r.queries == b.queries[|b.queries| - |r.queries|..]
    ensures scope == AllQueries && |r.queries| > 0 ==> r.queries[0].expiresAt > now
    ensures scope == AllQueries && !(|b.queries| > 0 && b.queries[0].expiresAt <= now) ==> r == b
    ensures b.log <= r.log && r.pending <= b.pending
  {
    if scope == AllQueries && !(|b.queries| > 0 && b.queries[0].expiresAt <= now) then
      assert b.queries[|b.queries|..] == [];
      b
    else
      var sp := Scan(b.queries, engine, scope, Some(now));
      ScanMembers(b.queries, engine, scope, Some(now));
      assert scope == AllQueries ==> b.queries[|sp.removed|..] == sp.kept;
      Expire(b, engine, sp)
  }

  /** The end of context_processing_thread once `stopping` is set: every
      query in the table is removed, cancelled on the thread's engine and
      delivered as timed out. */
  function Drain(b: Broker, engine: int, scope: Scope): (r: Broker)
    ensures r.contexts == b.contexts && r.nextCtxId == b.nextCtxId && r.nextHandle == b.nextHandle
    ensures scope == AllQueries ==> r.queries == []
    ensures forall q :: q in r.queries ==> q in b.queries && q.engine != engine
  {
    var sp := Scan(b.queries, engine, scope, None);
    ScanMembers(b.queries, engine, scope, None);
    assert |sp.kept| > 0 ==> sp.kept[0] in sp.kept;
    Expire(b, engine, sp)
  }

  /** A libunbound callback for a query the engine still holds. If the query
      is in the table, the caller gets the answer and the query leaves the
      table; if the broker already removed and freed it, the callback runs
      on freed memory. */
  function EngineCallback(b: Broker, s: Submission, err: int, result: Option<Answer>): (r: Broker)
    requires s in b.pending
    ensures r.pending == b.pending - {s}
    ensures r.contexts == b.contexts && r.nextCtxId == b.nextCtxId && r.nextHandle == b.nextHandle
    ensures Handles(r.queries) == Handles(b.queries) - {s.handle}
    ensures |r.log| == |b.log| + 1 && r.log[..|b.log|] == b.log
    ensures s.handle in Handles(b.queries) <==> r.log[|b.log|].Delivered?
    ensures s.handle !in Handles(b.queries) ==> r.log[|b.log|] == Stale(s.handle) && r.queries == b.queries
  {
    var b1 := b.(pending := b.pending - {s});
    match Find(b.queries, s.handle)
    case Some(q) =>
      b1.(queries := Without(b.queries, s.handle),
          log := b.log + [Delivered(q.handle, q.userdata, CallbackOutcome(false, err, result))])
    case None =>
      b1.(log := b.log + [Stale(s.handle)])
  }

  // ---------------------------------------------------------------------
  // Entry points

  /** An engine was made and configured as the configuration asks. */
  predicate ResolverReady(cfg: Config, s: Setup) {
    && s.engine
    && (cfg.useSystemResolver ==> s.resolvConf == 0 && s.hosts == 0)
    && (!cfg.useSystemResolver && cfg.unboundConfig.Some? ==> s.unboundConfig == 0)
  }

  /** Every step of creating a context up to starting its thread succeeded. */
  predicate SetupOk(cfg: Config, s: Setup) {
    ResolverReady(cfg, s) && s.async == 0 && s.fd >= 0 && s.thread
  }

  /** ub4j_create_context, in the order of its checks. The resolver settings
      are read only when the system resolver is used, the Unbound file only
      otherwise and only when one is named. The id is taken from the
      generator only once the thread runs; if the context table cannot then
      be locked, the id is spent, the thread is told to stop and drains the
      query table, and no context is added. */
  function CreateContext(b: Broker, cfg: Config, s: Setup, scope: Scope): (r: (Broker, CreateOutcome))
    ensures r.0.nextCtxId == if SetupOk(cfg, s) then b.nextCtxId + 1 else b.nextCtxId
    ensures r.1.NewContext? ==> r.1.id == b.nextCtxId
                                && r.0 == b.(contexts := b.contexts[r.1.id := Context(r.1.id, cfg.requestTimeoutSecs)],
                                             nextCtxId := b.nextCtxId + 1)
    ensures r.1.CreateFailed? ==> r.0.contexts == b.contexts
    ensures r.1.CreateFailed? && r.1.reason != NoWriteLock ==> r.0 == b
    ensures r.1.NewContext? <==> SetupOk(cfg, s) && s.writeLock
    // which check fails first decides the reason
    ensures !s.engine ==> r.1 == CreateFailed(NoEngine)
    ensures s.engine && cfg.useSystemResolver && s.resolvConf != 0 ==> r.1 == CreateFailed(ResolvConfError(s.resolvConf))
    ensures s.engine && cfg.useSystemResolver && s.resolvConf == 0 && s.hosts != 0 ==> r.1 == CreateFailed(HostsError(s.hosts))
    ensures s.engine && !cfg.useSystemResolver && cfg.unboundConfig.Some? && s.unboundConfig != 0 ==>
              r.1 == CreateFailed(UnboundConfigError(cfg.unboundConfig.value, s.unboundConfig))
    ensures ResolverReady(cfg, s) && s.async != 0 ==> r.1 == CreateFailed(NoAsync)
    ensures ResolverReady(cfg, s) && s.async == 0 && s.fd < 0 ==> r.1 == CreateFailed(NoDescriptor)
    ensures ResolverReady(cfg, s) && s.async == 0 && s.fd >= 0 && !s.thread ==> r.1 == CreateFailed(NoThread)
    ensures SetupOk(cfg, s) && !s.writeLock ==> r.1 == CreateFailed(NoWriteLock)
    // the stopped thread still drains the query table
    ensures SetupOk(cfg, s) && !s.writeLock && scope == AllQueries ==> r.0.queries == []
  {
    if !s.engine then (b, CreateFailed(NoEngine))
    else if cfg.useSystemResolver && s.resolvConf != 0 then (b, CreateFailed(ResolvConfError(s.resolvConf)))
    else if cfg.useSystemResolver && s.hosts != 0 then (b, CreateFailed(HostsError(s.hosts)))
    else if !cfg.useSystemResolver && cfg.unboundConfig.Some? && s.unboundConfig != 0 then
      (b, CreateFailed(UnboundConfigError(cfg.unboundConfig.value, s.unboundConfig)))
    else if s.async != 0 then (b, CreateFailed(NoAsync))
    else if s.fd < 0 then (b, CreateFailed(NoDescriptor))
    else if !s.thread then (b, CreateFailed(NoThread))
    else
      var id := b.nextCtxId;
      var b1 := b.(nextCtxId := id + 1);
      if !s.writeLock then (Drain(b1, id, scope), CreateFailed(NoWriteLock))
      else (b1.(contexts := b1.contexts[id := Context(id, cfg.requestTimeoutSecs)]), NewContext(id))
  }

  /** ub4j_delete_context: an unknown id changes nothing; a known one leaves
      the table, its thread is stopped (it drains the query table) and
      joined, and ub_ctx_delete discards whatever its engine still holds. */
  function DeleteContext(b: Broker, id: int, scope: Scope): (r: Broker)
    ensures r.contexts == b.contexts - {id}
    ensures r.nextCtxId == b.nextCtxId && r.nextHandle == b.nextHandle
    ensures id !in b.contexts ==> r == b
    ensures id in b.contexts ==> forall s :: s in r.pending <==> s in b.pending && s.engine != id
  {
    if id !in b.contexts then b
    else
      var r := Drain(b.(contexts := b.contexts - {id}), id, scope);
      r.(pending := set s | s in r.pending && s.engine != id)
  }

  /** ub4j_destroy: every context is deleted, in the table's iteration order
      (given as `order`; ids not in the table are passed over). */
  function Destroy(b: Broker, order: seq<int>, scope: Scope): (r: Broker)
    ensures r.contexts.Keys == b.contexts.Keys - set k | k in order
    ensures r.nextCtxId == b.nextCtxId && r.nextHandle == b.nextHandle
    decreases |order|
  {
    if |order| == 0 then b
    else
      var r := Destroy(DeleteContext(b, order[0], scope), order[1..], scope);
      assert forall k :: k in order <==> k == order[0] || k in order[1..];
      r
  }

  /** The name build_reverse_lookup_domain_v4 or _v6 produces, for addresses
      of four or sixteen octets. */
  function ReverseName(addr: seq<byte>): (r: Option<string>)
    ensures r.Some? <==> |addr| == 4 || |addr| == 16
  {
    if |addr| == 4 then Some(DnsUtils.ReverseV4(addr))
    else if |addr| == 16 then Some(DnsUtils.ReverseV6(addr))
    else None
  }

  /** What ub_resolve_async returns: its result code, and the id it assigns
      to the query. */
  datatype Resolve = Resolve(ret: int, id: int)

  datatype LookupError = InvalidContextId | InvalidAddressLength(len: nat) | ResolveError(code: int)

  /** The broker after the call, the value returned, and the error text (as
      the reason it stands for) when there is one. */
  datatype Lookup = Lookup(broker: Broker, ret: int, error: Option<LookupError>)

  /** ub4j_reverse_lookup: find the context, build the reverse name, submit
      it as a PTR query in class IN, and track the query when libunbound
      accepted it, with an expiry `now` plus the context's timeout. */
  function ReverseLookup(b: Broker, ctxId: int, addr: seq<byte>, userdata: int, now: int, res: Resolve): (r: Lookup)
    ensures r.ret == 0 <==> r.error.None?
    ensures r.error.Some? ==> r.broker == b
    ensures ctxId !in b.contexts ==> r.ret == -1 && r.error == Some(InvalidContextId)
    ensures ctxId in b.contexts && ReverseName(addr).None? ==> r.ret == -1 && r.error == Some(InvalidAddressLength(|addr|))
    ensures ctxId in b.contexts && ReverseName(addr).Some? ==> r.ret == res.ret
    ensures r.error.None? ==>
              && ctxId in b.contexts && ReverseName(addr).Some?
              && r.broker == b.(queries := b.queries + [Query(b.nextHandle, res.id, userdata,
                                                             now + b.contexts[ctxId].requestTimeoutSecs, ctxId)],
                                pending := b.pending + {Submission(b.nextHandle, ctxId, res.id, ReverseName(addr).value)},
                                nextHandle := b.nextHandle + 1)
  {
    if ctxId !in b.contexts then Lookup(b, -1, Some(InvalidContextId))
    else match ReverseName(addr)
      case None => Lookup(b, -1, Some(InvalidAddressLength(|addr|)))
      case Some(name) =>
        if res.ret != 0 then Lookup(b, res.ret, Some(ResolveError(res.ret)))
        else
          var ctx := b.contexts[ctxId];
          var q := Query(b.nextHandle, res.id, userdata, now + ctx.requestTimeoutSecs, ctxId);
          Lookup(b.(queries := b.queries + [q],
                    pending := b.pending + {Submission(b.nextHandle, ctxId, res.id, name)},
                    nextHandle := b.nextHandle + 1),
                 0, None)
  }
}
