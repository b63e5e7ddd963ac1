/** The request handler: the failover loop as the code runs it, on a pool loader, a router, a store
    client, the metrics counters and a response writer. */
module Handler {
  import opened Wrappers
  import opened Pools
  import opened Store
  import opened Detector
  import opened Routing
  import opened Usage
  import opened Forwarder
  import opened Stream
  import opened Machine
  import opened Accounting
  import opened Calls
  import Requests

  // ----- Counters ------------------------------------------------------------------------------

  function CounterValue<L>(counter: map<L, int>, labels: L): int {
    if labels in counter then counter[labels] else 0
  }

  /** The counter vectors; log is the history they summarise. */
  class Metrics {
    var requests: map<(string, string, string), int>
    var failovers: map<(string, string, string), int>
    var tokens: map<(string, string, Kind), int>
    ghost var log: seq<Metric>

    /** Each counter holds what its events in the history add up to. */
    ghost predicate Valid()
      reads this
    {
      && (forall c, m, code :: CounterValue(requests, (c, m, code)) == Sum(log, Occurrences(Request(c, m, code))))
      && (forall c, m, why :: CounterValue(failovers, (c, m, why)) == Sum(log, Occurrences(Failover(c, m, why))))
      && (forall c, m, kind :: CounterValue(tokens, (c, m, kind)) == Sum(log, TokenCounter(c, m, kind)))
    }

    constructor ()
      ensures Valid() && log == []
    {
      requests, failovers, tokens, log := map[], map[], map[], [];
    }

    method IncRequest(client: string, member: string, code: string)
      requires Valid()
      modifies this
      ensures Valid() && log == old(log) + [Request(client, member, code)]
    {
      var labels := (client, member, code);
      requests := requests[labels := CounterValue(requests, labels) + 1];
      log := log + [Request(client, member, code)];
      assert log[..|log| - 1] == old(log);
    }

    method IncFailover(client: string, member: string, reason: string)
      requires Valid()
      modifies this
      ensures Valid() && log == old(log) + [Failover(client, member, reason)]
    {
      var labels := (client, member, reason);
      failovers := failovers[labels := CounterValue(failovers, labels) + 1];
      log := log + [Failover(client, member, reason)];
      assert log[..|log| - 1] == old(log);
    }

    method AddTokens(client: string, member: string, kind: Kind, n: int)
      requires Valid()
      modifies this
      ensures Valid() && log == old(log) + Positive(client, member, kind, n)
    {
      if 0 < n {
        var labels := (client, member, kind);
        tokens := tokens[labels := CounterValue(tokens, labels) + n];
        log := log + [Tokens(client, member, kind, n)];
        assert log[..|log| - 1] == old(log);
      } else {
        assert log + [] == log;
      }
    }

    /** Something the history keeps but no counter shows. */
    ghost method Note(e: Metric)
      requires Valid() && (e.Sent? || e.Observed?)
      modifies this`log
      ensures Valid() && log == old(log) + [e]
    {
      log := log + [e];
      assert log[..|log| - 1] == old(log);
    }

    /** recordUsage: nothing for an empty record, and only positive counts otherwise. */
    method RecordUsage(client: string, member: string, u: TokenUsage)
      requires Valid()
      modifies this
      ensures Valid() && log == old(log) + TokenEvents(client, member, u)
    {
      if u == ZERO {
        assert log + [] == log;
        return;
      }
      ghost var before := log;
      AddTokens(client, member, Input, u.input);
      ghost var some := Positive(client, member, Input, u.input);
      Assoc(before, some, Positive(client, member, Output, u.output));
      AddTokens(client, member, Output, u.output);
      some := some + Positive(client, member, Output, u.output);
      Assoc(before, some, Positive(client, member, CacheRead, u.cacheRead));
      AddTokens(client, member, CacheRead, u.cacheRead);
      some := some + Positive(client, member, CacheRead, u.cacheRead);
      Assoc(before, some, Positive(client, member, CacheCreation, u.cacheCreation));
      AddTokens(client, member, CacheCreation, u.cacheCreation);
      some := some + Positive(client, member, CacheCreation, u.cacheCreation);
      Assoc(before, some, Positive(client, member, Kind.Thinking, u.thinking));
      AddTokens(client, member, Kind.Thinking, u.thinking);
    }

    /** What finish counts for a response that went out. */
    method CountServed(client: string, member: string, u: TokenUsage, status: Int64)
      requires Valid()
      modifies this
      ensures Valid()
      ensures log == old(log) + [Observed(client, member, u)] + TokenEvents(client, member, u)
                     + [Request(client, member, Itoa(status))]
    {
      Note(Observed(client, member, u));
      RecordUsage(client, member, u);
      var code := FormatInt(status);
      IncRequest(client, member, code);
    }
  }

  /** The labels list, without repetition, those that pass the test and that the counter holds for
      this client and member. */
  ghost predicate Lists(labels: seq<string>, counter: map<(string, string, string), int>,
                        client: string, member: string, test: string -> bool) {
    && (forall i, j | 0 <= i < j < |labels| :: labels[i] != labels[j])
    && (forall i | 0 <= i < |labels| :: test(labels[i]))
    && forall n | (client, member, n) in counter && test(n) :: n in labels
  }

  /** The values a counter holds for this client and member. */
  ghost function Stored(counter: map<(string, string, string), int>, client: string, member: string): string -> int {
    n => CounterValue(counter, (client, member, n))
  }

  ghost function RequestOf(client: string, member: string): string -> Metric {
    code => Request(client, member, code)
  }

  ghost function FailoverOf(client: string, member: string): string -> Metric {
    reason => Failover(client, member, reason)
  }

  /** The stored counter, summed over the labels that pass the test, counts the events with them. */
  lemma StoredIsSum(log: seq<Metric>, counter: map<(string, string, string), int>, client: string, member: string,
                    test: string -> bool, labels: seq<string>, event: string -> Metric, f: Metric -> int)
    requires forall n :: Stored(counter, client, member)(n) == Sum(log, Occurrences(event(n)))
    requires forall n, n' | event(n) == event(n') :: n == n'
    requires Lists(labels, counter, client, member, test)
    requires forall e :: f(e) == Bit(exists n :: e == event(n) && test(n))
    ensures Column(Stored(counter, client, member), labels) == Sum(log, f)
  {
    ColumnIsSum(log, Stored(counter, client, member), event, labels);
    forall i | 0 <= i < |log| ensures OneOf(labels, event)(log[i]) == f(log[i]) {
      if n :| log[i] == event(n) && test(n) {
        WhatOccursCounts(log, i);
        assert 0 < Stored(counter, client, member)(n);
        assert n in labels;
      }
    }
    SumAgrees(log, OneOf(labels, event), f);
  }

  /** The stored request counter, summed over all codes but "error". */
  lemma StoredRequests(metrics: Metrics, client: string, member: string, codes: seq<string>)
    requires metrics.Valid() && Lists(codes, metrics.requests, client, member, code => code != ERROR)
    ensures Column(Stored(metrics.requests, client, member), codes) ==
            Sum(metrics.log, ServedRequests(client, member))
  {
    forall e: Metric ensures ServedRequests(client, member)(e) ==
                             Bit(exists n :: e == RequestOf(client, member)(n) && n != ERROR)
    {
      if e.Request? && Of(e, client, member) {
        assert e == RequestOf(client, member)(e.code);
      }
    }
    StoredIsSum(metrics.log, metrics.requests, client, member, code => code != ERROR, codes,
                RequestOf(client, member), ServedRequests(client, member));
  }

  /** The stored failover counter, summed over all reasons. */
  lemma StoredFailovers(metrics: Metrics, client: string, member: string, reasons: seq<string>)
    requires metrics.Valid() && Lists(reasons, metrics.failovers, client, member, _ => true)
    ensures Column(Stored(metrics.failovers, client, member), reasons) ==
            Sum(metrics.log, Failovers(client, member))
  {
    forall e: Metric ensures Failovers(client, member)(e) == Bit(exists n :: e == FailoverOf(client, member)(n)) {
      if e.Failover? && Of(e, client, member) {
        assert e == FailoverOf(client, member)(e.reason);
      }
    }
    StoredIsSum(metrics.log, metrics.failovers, client, member, _ => true, reasons,
                FailoverOf(client, member), Failovers(client, member));
  }

  lemma StoredErrors(metrics: Metrics, client: string, member: string)
    requires metrics.Valid()
    ensures CounterValue(metrics.requests, (client, member, "error")) == Sum(metrics.log, ErrorRequests(client, member))
    ensures CounterValue(metrics.failovers, (client, member, "transport")) ==
            Sum(metrics.log, TransportFailovers(client, member))
  {
    SumAgrees(metrics.log, Occurrences(Request(client, member, ERROR)), ErrorRequests(client, member));
    SumAgrees(metrics.log, Occurrences(Failover(client, member, TRANSPORT)), TransportFailovers(client, member));
  }

  /** What the counter vectors hold after any run: sends equal the failovers over all reasons plus
      the requests over all codes but "error", up to the sends still being dealt with; request errors
      equal transport failovers, up to those still being cooled; each token counter is the positive
      usage observed. */
  lemma StoredCountersBalance(metrics: Metrics, cfg: Config, s: System, steps: seq<Step>, client: string,
                              member: string, codes: seq<string>, reasons: seq<string>)
    requires Initial(s) && Run(cfg, s, steps).Some?
    requires metrics.Valid() && metrics.log == Run(cfg, s, steps).value.shared.log
    requires Lists(codes, metrics.requests, client, member, code => code != ERROR)
    requires Lists(reasons, metrics.failovers, client, member, _ => true)
    ensures var t := Run(cfg, s, steps).value;
            && Sum(metrics.log, Sends(client, member)) ==
               Column(Stored(metrics.failovers, client, member), reasons)
               + Column(Stored(metrics.requests, client, member), codes)
               + |OpenSends(t, client, member)|
            && CounterValue(metrics.requests, (client, member, "error")) ==
               CounterValue(metrics.failovers, (client, member, "transport")) + |OpenTransports(t, client, member)|
            && forall kind :: CounterValue(metrics.tokens, (client, member, kind)) ==
                              Sum(metrics.log, PositiveUsage(client, member, kind))
  {
    StoredRequests(metrics, client, member, codes);
    StoredFailovers(metrics, client, member, reasons);
    StoredErrors(metrics, client, member);
    forall kind ensures CounterValue(metrics.tokens, (client, member, kind)) ==
                        Sum(metrics.log, PositiveUsage(client, member, kind))
    {
      StoredTokens(metrics, cfg, s, steps, client, member, kind);
    }
    CountersBalance(cfg, s, steps, client, member, Input);
  }

  lemma StoredTokens(metrics: Metrics, cfg: Config, s: System, steps: seq<Step>, client: string, member: string, kind: Kind)
    requires Initial(s) && Run(cfg, s, steps).Some?
    requires metrics.Valid() && metrics.log == Run(cfg, s, steps).value.shared.log
    ensures CounterValue(metrics.tokens, (client, member, kind)) == Sum(metrics.log, PositiveUsage(client, member, kind))
  {
    CountersBalance(cfg, s, steps, client, member, kind);
  }

  // ----- One request in the system -------------------------------------------------------------

  /** A request handled after any run from the beginning, other requests still under way in it:
      its reply is justified as every reply of such a run is. */
  lemma HandledReplyIsJustified(cfg: Config, start: System, before: seq<Step>, s: System, call: Call,
                                steps: seq<Step>, l: Local, sh: Shared)
    requires Initial(start) && Run(cfg, start, before) == Some(s)
    requires Reached(cfg, s, call, steps, l, sh) && l.phase.Done?
    ensures Requests.Justified(cfg, l, l.phase.reply)
  {
    Requests.RunConcat(cfg, start, before, steps);
    Requests.ReplyIsJustified(cfg, start, before + steps, call.r);
  }

  /** What Pick decides is what the cooldown read and the choice decide one after the other; keys
      and now are the store's when there is one. */
  lemma PickIsTwoSteps(cfg: Config, l: Local, sh: Shared, keys: Keys, now: int, upRead: bool, upSticky: bool, roll: nat)
    requires l.phase.Top? && l.attempt < |l.members|
    requires Keep(l.members, NotTried(l.tried)) != []
    requires cfg.hasStore ==> keys == sh.keys && now == sh.now
    ensures var healthy := Healthy(Keep(l.members, NotTried(l.tried)), keys, now, cfg.hasStore && upRead);
            var pinned := if TrySticky(cfg, l) && cfg.hasStore && upSticky then Pinned(keys, l.session, now) else None;
            var l1 := AtTop(cfg, l, sh, upRead);
            && l1 == l.(phase := l1.phase, excluded := l1.excluded)
            && (healthy == [] ==> l1.phase == Done(Exhausted(l.last)))
            && (healthy != [] ==>
                  && l1.phase == Filtered(healthy)
                  && LocalStep(cfg, l1, sh, Action.Choose(upSticky, roll)) ==
                     Some((Chosen(l1, Routing.Choose(healthy, pinned, DrawOf(cfg, l, roll))), sh)))
  {
    if !cfg.hasStore {
      UnreadableHealthy(Keep(l.members, NotTried(l.tried)), keys, now, sh.keys, sh.now);
    }
  }

  /** The two steps of a commit, written out. */
  lemma CommitSteps(cfg: Config, l: Local, sh: Shared, m: Member, resp: Response, streamed: bool, up: bool, end: CopyEnd)
    requires l.phase == Finishing(m, resp, streamed) && EndFits(end, resp.Body())
    ensures var l' := l.(phase := Copying(m, resp, streamed));
            var sh' := sh.(keys := if cfg.stickyMode == REDIS_MODE && l.session != "" && cfg.hasStore && up
                                   then Put(sh.keys, StickyKey(l.session), m.id, HOUR, sh.now) else sh.keys,
                           commits := sh.commits + [Machine.Commit(l.session, m.id, sh.now)]);
            var u := OneShot(cfg.lib.codec, Get(resp.header, CONTENT_TYPE), SeenPart(end, resp.Body()));
            && LocalStep(cfg, l, sh, Action.Finish(up)) == Some((l', sh'))
            && LocalStep(cfg, l', sh', Copy(end)) ==
               Some((l.(phase := Done(Served(m.id, resp.status, resp.header, KeptPart(end, resp.Body())))),
                     sh'.(log := sh.log + [Observed(l.client, m.id, u)] + TokenEvents(l.client, m.id, u)
                                 + [Request(l.client, m.id, Itoa(resp.status))])))
  {
  }

  // ----- The handler ---------------------------------------------------------------------------

  const SESSION_HEADER := "X-Claude-Code-Session-Id"
  const SESSION_FALLBACK := "X-Session-Id"

  function SessionOf(request: Header): string {
    if Get(request, SESSION_HEADER) != "" then Get(request, SESSION_HEADER) else Get(request, SESSION_FALLBACK)
  }

  ghost function FirstValue(header: Header, name: string): string {
    if name in header && header[name] != [] then header[name][0] else ""
  }

  /** The session id: the first value of one header, or of another when that is missing or blank. */
  lemma SessionHeaders(request: Header)
    ensures SessionOf(request) ==
            if FirstValue(request, "X-Claude-Code-Session-Id") != "" then FirstValue(request, "X-Claude-Code-Session-Id")
            else FirstValue(request, "X-Session-Id")
  {
  }

  /** The client connection carries this reply, and nothing else. A reply from memory is one write: it
      goes out whole if the write succeeds, and otherwise up to where the write gets. */
  ghost predicate Shows(w: ResponseWriter, reply: Reply, fate: Option<nat>)
    reads w
  {
    match reply
    case NoPool => w.status == Some(503) && w.body == "no pool members\n" && w.header == PLAIN
    case Aborted => w.Untouched()
    case AllFailed => w.status == Some(502) && w.body == "all upstreams failed\n" && w.header == PLAIN
    case Served(_, status, header, body) => ShowsResponse(w, status, header) && w.body == body
    case Relayed(status, header, body) =>
      && ShowsResponse(w, status, header)
      && (fate.None? ==> w.body == body)
      && (fate.Some? ==> w.body == if fate.value < |body| then body[..fate.value] else body)
  }

  ghost predicate ShowsResponse(w: ResponseWriter, status: int, header: Header)
    reads w
  {
    w.status == Some(status) && forall n :: Values(w.header, n) == Values(header, n)
  }

  /** A reply that does not come from memory. */
  predicate Fresh(reply: Reply) {
    reply.Served? || reply.Aborted?
  }

  /** What the loop does with an outcome. */
  datatype Decision = Retry(ttl: int, reason: string) | Commit(streamed: bool)

  /** How a turn of the loop ends: with the request over, by a reply or a panic, with no member to
      try, or with an attempt that failed. */
  datatype Progress = Replied | NobodyLeft | Failed(id: string, held: Buffered)

  class ProxyHandler {
    const cfg: Config
    const loader: Loader
    const router: Router
    const store: RedisStore?
    const metrics: Metrics

    constructor (cfg: Config, loader: Loader, router: Router, store: RedisStore?, metrics: Metrics)
      requires cfg.hasStore == (store != null) && router.store == store
      ensures Wired() && this.cfg == cfg && this.loader == loader && this.store == store && this.metrics == metrics
    {
      this.cfg, this.loader, this.router, this.store, this.metrics := cfg, loader, router, store, metrics;
    }

    ghost predicate Wired() {
      cfg.hasStore == (store != null) && router.store == store
    }

    ghost function StoreFrame(): set<object> {
      if store == null then {} else {store}
    }

    /** The objects hold the shared state sh. */
    ghost predicate Matches(sh: Shared)
      reads StoreFrame(), metrics
    {
      && (store != null ==> store.keys == sh.keys && store.now == sh.now)
      && metrics.Valid() && metrics.log == sh.log
    }

    method Cooldown(m: Member, ttl: int, up: bool)
      modifies StoreFrame()
      ensures store != null ==> store.now == old(store.now)
      ensures store != null ==>
                store.keys == if up then Put(old(store.keys), CoolKey(m.id), "1", Duration(CooldownSeconds(m, ttl)), store.now)
                              else old(store.keys)
    {
      if store == null {
        return;
      }
      var seconds := ttl;
      if seconds <= 0 {
        seconds := m.cooldownSec;
      }
      if seconds <= 0 {
        seconds := 60;
      }
      var _ := store.SetCooldown(m.id, Duration(seconds), up);
    }

    /** finish: the affinity pin first, then the response as it comes, then the counters. */
    method Finish(w: ResponseWriter, session: string, client: string, member: string, status: Int64,
                  header: Header, script: seq<Read>, up: bool, fates: nat -> Option<nat>)
      returns (ghost end: CopyEnd)
      requires w.Untouched() && metrics.Valid()
      modifies w, metrics, StoreFrame()
      ensures EndFits(end, Delivered(script))
      ensures end == EndOf(script, fates, 0, 0)
      ensures Shows(w, Served(member, status, header, KeptPart(end, Delivered(script))), None)
      ensures metrics.Valid()
      ensures var u := OneShot(cfg.lib.codec, Get(header, CONTENT_TYPE), SeenPart(end, Delivered(script)));
              metrics.log == old(metrics.log) + [Observed(client, member, u)] + TokenEvents(client, member, u)
                             + [Request(client, member, Itoa(status))]
      ensures store != null ==> store.now == old(store.now)
      ensures store != null ==>
                store.keys == if cfg.stickyMode == REDIS_MODE && session != "" && up
                              then Put(old(store.keys), StickyKey(session), member, HOUR, store.now)
                              else old(store.keys)
    {
      if cfg.stickyMode == REDIS_MODE && session != "" && store != null {
        var _ := store.SetSticky(session, member, HOUR, up);
      }
      var u;
      u, end := Deliver(w, cfg.lib.codec, status, header, script, fates);
      metrics.CountServed(client, member, u, status);
    }

    /** send: the body is rewritten for the member; the upstream is an arbitrary function. */
    method Send(attempt: nat, m: Member, body: string, upstream: (nat, Member, string) -> Outcome, ghost call: Call)
      returns (outcome: Outcome)
      requires call.body == body && call.upstream == upstream
      ensures FromMember(call, attempt, m, outcome)
    {
      var rewritten := RewriteBody(body, m.modelMap);
      outcome := upstream(attempt, m, rewritten);
    }

    /** An attempt that failed: the counters, and the cooldown between them, in code order. */
    method CoolDown(client: string, m: Member, ttl: int, reason: string, held: Buffered, up: bool,
                    ghost l: Local, ghost sh: Shared)
      returns (ghost l': Local, ghost sh': Shared)
      requires Wired() && Matches(sh)
      requires l.client == client && l.phase == Cooling(m, CooldownSeconds(m, ttl), reason, held)
      modifies metrics, StoreFrame()
      ensures LocalStep(cfg, l, sh, Cool(up)) == Some((l', sh'))
      ensures Matches(sh')
    {
      Cooldown(m, ttl, up);
      metrics.IncFailover(client, m.id, reason);
      l', sh' := LocalStep(cfg, l, sh, Cool(up)).value.0, LocalStep(cfg, l, sh, Cool(up)).value.1;
    }

    /** An attempt that is committed. */
    method Commit(w: ResponseWriter, session: string, client: string, m: Member, resp: Response, streamed: bool,
                  turn: Turn, ghost l: Local, ghost sh: Shared)
      returns (ghost l': Local, ghost sh': Shared, ghost l'': Local, ghost sh'': Shared, ghost end: CopyEnd)
      requires Wired() && Matches(sh) && w.Untouched()
      requires l.session == session && l.client == client && l.phase == Finishing(m, resp, streamed)
      modifies w, metrics, StoreFrame()
      ensures LocalStep(cfg, l, sh, Action.Finish(turn.upPin)) == Some((l', sh'))
      ensures LocalStep(cfg, l', sh', Copy(end)) == Some((l'', sh''))
      ensures l' == l.(phase := Copying(m, resp, streamed))
      ensures end == EndOf(ScriptOf(resp, streamed), turn.fates, 0, 0)
      ensures Matches(sh'') && l''.phase.Done? && l''.phase.reply.Served? && Shows(w, l''.phase.reply, None)
    {
      var script := ScriptOf(resp, streamed);
      ChunksDeliverBody(resp.Body());
      assert Delivered(script) == resp.Body();
      end := Finish(w, session, client, m.id, resp.status, resp.header, script, turn.upPin, turn.fates);
      l' := l.(phase := Copying(m, resp, streamed));
      sh' := sh.(keys := if cfg.stickyMode == REDIS_MODE && session != "" && store != null && turn.upPin
                         then Put(sh.keys, StickyKey(session), m.id, HOUR, sh.now) else sh.keys,
                 commits := sh.commits + [Machine.Commit(session, m.id, sh.now)]);
      l'' := l.(phase := Done(Served(m.id, resp.status, resp.header, KeptPart(end, resp.Body()))));
      sh'' := sh'.(log := metrics.log);
      CommitSteps(cfg, l, sh, m, resp, streamed, turn.upPin, end);
    }

    /** The answer to a client nobody could serve. */
    method Relay(w: ResponseWriter, last: Option<Buffered>, fate: Option<nat>)
      requires w.Untouched()
      modifies w
      ensures Shows(w, Exhausted(last), fate)
    {
      if last.Some? && last.value.body.Some? {
        WriteHeaders(w, last.value.header);
        w.WriteHeader(last.value.status);
        var _ := w.Write(last.value.body.value, fate);
        return;
      }
      w.Error("all upstreams failed", 502);
    }

    /** Time passes while the upstream works. */
    method Wait(d: nat, ghost sh: Shared)
      requires Matches(sh)
      modifies StoreFrame()
      ensures Matches(sh.(now := sh.now + d))
    {
      if store != null {
        store.Elapse(d);
      }
    }

    /** The send returned: the request machine's step, and what is counted for it. */
    method Returned(client: string, m: Member, outcome: Outcome, ghost l: Local, ghost sh: Shared)
      returns (ghost l': Local, ghost sh': Shared)
      requires Matches(sh) && l.client == client && l.phase == Sending(m)
      modifies metrics
      ensures LocalStep(cfg, l, sh, Upstream(outcome)) == Some((l', sh'))
      ensures l' == l.(tries := l.tries + [Try(m, outcome)], phase := AfterSend(cfg, l, m, outcome))
      ensures Matches(sh')
    {
      metrics.Note(Sent(client, m.id));
      if outcome.TransportError? {
        metrics.IncRequest(client, m.id, ERROR);
      } else {
        assert metrics.log + [] == metrics.log;
      }
      var next := LocalStep(cfg, l, sh, Upstream(outcome)).value;
      l', sh' := next.0, next.1;
    }

    /** The body of the loop once a member is picked: send, classify, then commit or cool down. */
    method Attempt(w: ResponseWriter, session: string, client: string, m: Member, attempt: nat, body: string,
                   turn: Turn, upstream: (nat, Member, string) -> Outcome,
                   ghost s: System, ghost call: Call, ghost steps: seq<Step>, ghost l: Local, ghost sh: Shared)
      returns (committed: bool, held: Buffered, ghost steps': seq<Step>, ghost l': Local, ghost sh': Shared)
      requires Wired() && Matches(sh) && w.Untouched()
      requires l.session == session && l.client == client && l.attempt == attempt && l.phase == Sending(m)
      requires call.body == body && call.upstream == upstream && call.turns(attempt) == turn
      requires Reached(cfg, s, call, steps, l, sh) && !Last(steps).Tick?
      modifies w, metrics, StoreFrame()
      ensures Reached(cfg, s, call, steps', l', sh')
      ensures Matches(sh')
      ensures committed ==> l'.phase.Done? && Fresh(l'.phase.reply) && Shows(w, l'.phase.reply, None)
      ensures !committed ==> w.Untouched()
      ensures l' == if committed then l.(phase := l'.phase, tries := l'.tries)
                    else l.(attempt := l.attempt + 1, last := Some(held), phase := Top, tries := l'.tries)
    {
      var outcome;
      outcome, steps', l', sh' := Ask(client, m, attempt, body, turn.wait, upstream, s, call, steps, l, sh);
      committed, held, steps', l', sh' := Settle(w, session, client, m, outcome, turn, s, call, steps', l, l', sh');
    }

    /** Commit or cool down, as the outcome demands. */
    method Settle(w: ResponseWriter, session: string, client: string, m: Member, outcome: Outcome, turn: Turn,
                  ghost s: System, ghost call: Call, ghost steps: seq<Step>, ghost l0: Local, ghost l: Local,
                  ghost sh: Shared)
      returns (committed: bool, held: Buffered, ghost steps': seq<Step>, ghost l': Local, ghost sh': Shared)
      requires Wired() && Matches(sh) && w.Untouched()
      requires l.session == session && l.client == client && l.phase == AfterSend(cfg, l0, m, outcome)
      requires call.turns(l.attempt) == turn && Reached(cfg, s, call, steps, l, sh)
      modifies w, metrics, StoreFrame()
      ensures Reached(cfg, s, call, steps', l', sh')
      ensures Matches(sh')
      ensures committed ==> l'.phase.Done? && Fresh(l'.phase.reply) && Shows(w, l'.phase.reply, None)
      ensures !committed ==> w.Untouched()
      ensures l' == if committed then l.(phase := l'.phase)
                    else l.(attempt := l.attempt + 1, last := Some(held), phase := Top)
    {
      var decision := Classify(m, outcome, l0);
      held := Held(outcome);
      match decision {
        case Retry(ttl, reason) =>
          committed := false;
          steps', l', sh' := Fail(client, m, ttl, reason, held, turn.upCool, s, call, steps, l, sh);
        case Commit(streamed) =>
          committed := true;
          steps', l', sh' := Succeed(w, session, client, m, outcome.response, streamed, turn, s, call, steps, l, sh);
      }
    }

    /** The exchange, as steps of the run. */
    method Ask(client: string, m: Member, attempt: nat, body: string, wait: nat,
               upstream: (nat, Member, string) -> Outcome,
               ghost s: System, ghost call: Call, ghost steps: seq<Step>, ghost l: Local, ghost sh: Shared)
      returns (outcome: Outcome, ghost steps': seq<Step>, ghost l': Local, ghost sh': Shared)
      requires Wired() && Matches(sh)
      requires l.client == client && l.attempt == attempt && l.phase == Sending(m)
      requires call.body == body && call.upstream == upstream && call.turns(attempt).wait == wait
      requires Reached(cfg, s, call, steps, l, sh) && !Last(steps).Tick?
      modifies metrics, StoreFrame()
      ensures Reached(cfg, s, call, steps', l', sh')
      ensures l' == l.(tries := l'.tries, phase := AfterSend(cfg, l, m, outcome))
      ensures Matches(sh')
    {
      outcome, l', sh' := Exchange(client, m, attempt, body, wait, upstream, call, l, sh);
      steps' := steps + [Tick(wait)] + [Act(call.r, Upstream(outcome))];
      Answers(cfg, s, call, steps, l, sh, m, wait, outcome, l', sh');
    }

    /** The send and its return, with the time it took. */
    method Exchange(client: string, m: Member, attempt: nat, body: string, wait: nat,
                    upstream: (nat, Member, string) -> Outcome, ghost call: Call, ghost l: Local, ghost sh: Shared)
      returns (outcome: Outcome, ghost l': Local, ghost sh': Shared)
      requires Wired() && Matches(sh)
      requires l.client == client && l.attempt == attempt && l.phase == Sending(m)
      requires call.body == body && call.upstream == upstream
      modifies metrics, StoreFrame()
      ensures FromMember(call, l.attempt, m, outcome)
      ensures LocalStep(cfg, l, sh.(now := sh.now + wait), Upstream(outcome)) == Some((l', sh'))
      ensures l' == l.(tries := l.tries + [Try(m, outcome)], phase := AfterSend(cfg, l, m, outcome))
      ensures Matches(sh')
    {
      outcome := Send(attempt, m, body, upstream, call);
      Wait(wait, sh);
      l', sh' := Returned(client, m, outcome, l, sh.(now := sh.now + wait));
    }

    /** Status and headers first; the body is read before the decision only if they leave it open. */
    method Classify(m: Member, outcome: Outcome, ghost l: Local) returns (decision: Decision)
      ensures decision.Commit? ==> outcome.Answer?
      ensures AfterSend(cfg, l, m, outcome) ==
              match decision
              case Retry(ttl, reason) => Cooling(m, CooldownSeconds(m, ttl), reason, Held(outcome))
              case Commit(streamed) => Finishing(m, outcome.response, streamed)
    {
      if outcome.TransportError? {
        return Retry(0, TRANSPORT);
      }
      var resp := outcome.response;
      if MayFailover(resp.status, resp.header) {
        var verdict := ShouldFailover(cfg.lib.text, resp.status, resp.Body(), resp.header);
        if verdict.failover {
          var ttl := CooldownTTL(verdict.ttl, m.cooldownSec, m.IsAnthropic());
          return Retry(ttl, verdict.reason);
        }
        return Decision.Commit(false);
      }
      return Decision.Commit(true);
    }

    method Fail(client: string, m: Member, ttl: int, reason: string, held: Buffered, up: bool,
                ghost s: System, ghost call: Call, ghost steps: seq<Step>, ghost l: Local, ghost sh: Shared)
      returns (ghost steps': seq<Step>, ghost l': Local, ghost sh': Shared)
      requires Wired() && Matches(sh)
      requires l.client == client && l.phase == Cooling(m, CooldownSeconds(m, ttl), reason, held)
      requires call.turns(l.attempt).upCool == up && Reached(cfg, s, call, steps, l, sh)
      modifies metrics, StoreFrame()
      ensures Reached(cfg, s, call, steps', l', sh')
      ensures Matches(sh')
      ensures l' == l.(attempt := l.attempt + 1, last := Some(held), phase := Top)
    {
      l', sh' := CoolDown(client, m, ttl, reason, held, up, l, sh);
      Advance(cfg, s, call, steps, l, sh, Cool(up));
      steps' := steps + [Act(call.r, Cool(up))];
    }

    method Succeed(w: ResponseWriter, session: string, client: string, m: Member, resp: Response, streamed: bool,
                   turn: Turn, ghost s: System, ghost call: Call, ghost steps: seq<Step>, ghost l: Local, ghost sh: Shared)
      returns (ghost steps': seq<Step>, ghost l': Local, ghost sh': Shared)
      requires Wired() && Matches(sh) && w.Untouched()
      requires l.session == session && l.client == client && l.phase == Finishing(m, resp, streamed)
      requires call.turns(l.attempt) == turn && Reached(cfg, s, call, steps, l, sh)
      modifies w, metrics, StoreFrame()
      ensures Reached(cfg, s, call, steps', l', sh')
      ensures Matches(sh')
      ensures l' == l.(phase := l'.phase) && l'.phase.Done?
      ensures Fresh(l'.phase.reply) && Shows(w, l'.phase.reply, None)
    {
      ghost var mid, midSh, end;
      mid, midSh, l', sh', end := Commit(w, session, client, m, resp, streamed, turn, l, sh);
      Advance(cfg, s, call, steps, l, sh, Action.Finish(turn.upPin));
      steps' := steps + [Act(call.r, Action.Finish(turn.upPin))];
      Advance(cfg, s, call, steps', mid, midSh, Copy(end));
      steps' := steps' + [Act(call.r, Copy(end))];
    }

    /** The head of the loop: the members not tried yet, and the router's pick among them. */
    method NextMember(members: seq<Member>, tried: set<string>, session: string, attempt: nat, turn: Turn,
                      ghost s: System, ghost call: Call, ghost steps: seq<Step>, ghost l: Local, ghost sh: Shared)
      returns (choice: PickResult, ghost steps': seq<Step>, ghost l': Local)
      requires Wired() && Matches(sh) && attempt < |members|
      requires l == Local(members, session, l.client, attempt, tried, l.last, Top, l.tries, l.excluded)
      requires call.turns(attempt) == turn && Reached(cfg, s, call, steps, l, sh)
      ensures Reached(cfg, s, call, steps', l', sh) && !Last(steps').Tick?
      ensures l' == match choice
                    case Picked(m) => l.(tried := tried + {m.id}, phase := Sending(m), excluded := l'.excluded)
                    case Panicked => l.(phase := Done(Aborted), excluded := l'.excluded)
                    case _ => l.(phase := Done(Exhausted(l.last)), excluded := l'.excluded)
    {
      Advance(cfg, s, call, steps, l, sh, Action.Read(turn.upRead));
      steps', l' := steps + [Act(call.r, Action.Read(turn.upRead))], AtTop(cfg, l, sh, turn.upRead);
      var candidates := Filter(members, NotTried(tried));
      if |candidates| == 0 {
        return NoMember, steps', l';
      }
      ghost var keys, now := if store != null then store.keys else map[], if store != null then store.now else 0;
      PickIsTwoSteps(cfg, l, sh, keys, now, turn.upRead, turn.upSticky, turn.roll);
      var trySticky := cfg.stickyMode == REDIS_MODE && attempt == 0;
      choice := router.Pick(candidates, session, trySticky, cfg.lib.crc32, turn.roll, turn.upRead, turn.upSticky);
      if choice.NoHealthy? {
        return choice, steps', l';
      }
      Advance(cfg, s, call, steps', l', sh, Action.Choose(turn.upSticky, turn.roll));
      steps' := steps' + [Act(call.r, Action.Choose(turn.upSticky, turn.roll))];
      l' := Chosen(l', if choice.Picked? then Some(choice.member) else None);
    }

    ghost function PoolNow(): seq<Member>
      reads loader, loader.active
    {
      if loader.active == null then [] else loader.active[..]
    }

    /** The failover loop. It leaves the objects, the reply and the counters exactly as the run of the
        request machine does in which this request takes its steps one after the other, each with the
        label that the turns and the upstream of this call give it: steps is that run, l the request
        at its end, sh the shared state. */
    method ServeHTTP(w: ResponseWriter, request: Header, client: string, body: string,
                     turns: nat -> Turn, upstream: (nat, Member, string) -> Outcome, lastFate: Option<nat>,
                     ghost s: System, ghost r: nat)
      returns (ghost steps: seq<Step>, ghost l: Local, ghost sh: Shared)
      requires Wired() && w.Untouched()
      requires Matches(s.shared) && s.active == PoolNow() && r !in s.reqs
      modifies w, metrics, StoreFrame()
      ensures Reached(cfg, s, Call(r, SessionOf(request), client, body, turns, upstream), steps, l, sh)
      ensures l.phase.Done? && l.members == s.active && l.session == SessionOf(request) && l.client == client
      ensures FromUpstream(Call(r, SessionOf(request), client, body, turns, upstream), l.tries)
      ensures Matches(sh)
      ensures Shows(w, l.phase.reply, lastFate)
    {
      var session := Get(request, SESSION_HEADER);
      if session == "" {
        session := Get(request, SESSION_FALLBACK);
      }
      var members := if loader.active == null then [] else loader.active[..];
      ghost var call := Call(r, session, client, body, turns, upstream);
      steps := [Arrive(r, session, client)];
      l, sh := Begin(members, session, client), s.shared;
      Arrives(cfg, s, call);
      if |members| == 0 {
        w.Error("no pool members", 503);
        return;
      }
      steps, l, sh := TryMembers(w, members, session, client, body, turns, upstream, lastFate, s, call, steps, l, sh);
      TriesAreAnswers(cfg, s, call, steps, l, sh);
    }

    /** The loop over the attempts, and what follows it when none was committed. */
    method TryMembers(w: ResponseWriter, members: seq<Member>, session: string, client: string, body: string,
                      turns: nat -> Turn, upstream: (nat, Member, string) -> Outcome, lastFate: Option<nat>,
                      ghost s: System, ghost call: Call, ghost steps0: seq<Step>, ghost l0: Local, ghost sh0: Shared)
      returns (ghost steps: seq<Step>, ghost l: Local, ghost sh: Shared)
      requires Wired() && Matches(sh0) && w.Untouched()
      requires members != [] && l0 == Begin(members, session, client)
      requires call.body == body && call.turns == turns && call.upstream == upstream
      requires Reached(cfg, s, call, steps0, l0, sh0)
      modifies w, metrics, StoreFrame()
      ensures Reached(cfg, s, call, steps, l, sh)
      ensures l.phase.Done? && l.members == members && l.session == session && l.client == client
      ensures Matches(sh)
      ensures Shows(w, l.phase.reply, lastFate)
    {
      steps, l, sh := steps0, l0, sh0;
      var tried: set<string> := {};
      var last: Option<Buffered> := None;
      var attempt := 0;
      while attempt < |members|
        invariant attempt <= |members|
        invariant l == Local(members, session, client, attempt, tried, last, Top, l.tries, l.excluded)
        invariant Reached(cfg, s, call, steps, l, sh)
        invariant Matches(sh)
        invariant w.Untouched()
      {
        var progress;
        progress, steps, l, sh :=
          Round(w, members, tried, last, session, client, attempt, body, turns(attempt), upstream, s, call, steps, l, sh);
        match progress {
          case Replied => return;
          case NobodyLeft => break;
          case Failed(id, held) =>
            tried := tried + {id};
            last := Some(held);
            attempt := attempt + 1;
        }
      }
      steps, l := GiveUp(w, last, lastFate, s, call, steps, l, sh);
    }

    /** One turn of the loop. */
    method Round(w: ResponseWriter, members: seq<Member>, tried: set<string>, last: Option<Buffered>, session: string,
                 client: string, attempt: nat, body: string, turn: Turn, upstream: (nat, Member, string) -> Outcome,
                 ghost s: System, ghost call: Call, ghost steps: seq<Step>, ghost l: Local, ghost sh: Shared)
      returns (progress: Progress, ghost steps': seq<Step>, ghost l': Local, ghost sh': Shared)
      requires Wired() && Matches(sh) && w.Untouched() && attempt < |members|
      requires l == Local(members, session, client, attempt, tried, last, Top, l.tries, l.excluded)
      requires call.body == body && call.upstream == upstream && call.turns(attempt) == turn
      requires Reached(cfg, s, call, steps, l, sh)
      modifies w, metrics, StoreFrame()
      ensures Reached(cfg, s, call, steps', l', sh')
      ensures Matches(sh')
      ensures l'.members == members && l'.session == session && l'.client == client
      ensures match progress
              case Replied => l'.phase.Done? && Fresh(l'.phase.reply) && Shows(w, l'.phase.reply, None)
              case NobodyLeft => w.Untouched() && l'.last == last && l'.phase == Done(Exhausted(last))
              case Failed(id, held) =>
                w.Untouched() && l' == Local(members, session, client, attempt + 1, tried + {id}, Some(held), Top,
                                             l'.tries, l'.excluded)
    {
      var choice;
      choice, steps', l' := NextMember(members, tried, session, attempt, turn, s, call, steps, l, sh);
      sh' := sh;
      if choice.Panicked? {
        return Replied, steps', l', sh';
      }
      if !choice.Picked? {
        return NobodyLeft, steps', l', sh';
      }
      var committed, held;
      committed, held, steps', l', sh' :=
        Attempt(w, session, client, choice.member, attempt, body, turn, upstream, s, call, steps', l', sh');
      progress := if committed then Replied else Failed(choice.member.id, held);
    }

    /** The loop ended without a commit: with no member picked, or with every attempt used up. */
    method GiveUp(w: ResponseWriter, last: Option<Buffered>, fate: Option<nat>,
                  ghost s: System, ghost call: Call, ghost steps: seq<Step>, ghost l: Local, ghost sh: Shared)
      returns (ghost steps': seq<Step>, ghost l': Local)
      requires w.Untouched() && l.last == last
      requires l.phase == Done(Exhausted(last)) || (l.phase.Top? && |l.members| <= l.attempt)
      requires Reached(cfg, s, call, steps, l, sh)
      modifies w
      ensures Reached(cfg, s, call, steps', l', sh)
      ensures l' == l.(phase := Done(Exhausted(last)))
      ensures Shows(w, l'.phase.reply, fate)
    {
      Relay(w, last, fate);
      steps', l' := steps, l;
      if l.phase.Top? {
        var up := call.turns(l.attempt).upRead;
        Advance(cfg, s, call, steps, l, sh, Action.Read(up));
        steps', l' := steps + [Act(call.r, Action.Read(up))], AtTop(cfg, l, sh, up);
      }
    }
  }

  /** The response goes out as it comes, and what it carried comes back: the same usage as reading
      the delivered bytes in one piece, whatever the chunks were. */
  method Deliver(w: ResponseWriter, codec: Codec, status: Int64, header: Header, script: seq<Read>,
                 fates: nat -> Option<nat>)
    returns (u: TokenUsage, ghost end: CopyEnd)
    requires w.Untouched()
    modifies w
    ensures EndFits(end, Delivered(script))
    ensures end == EndOf(script, fates, 0, 0)
    ensures w.status == Some(status) && w.body == KeptPart(end, Delivered(script))
    ensures forall n :: Values(w.header, n) == Values(header, n)
    ensures u == OneShot(codec, Get(header, CONTENT_TYPE), SeenPart(end, Delivered(script)))
  {
    WriteHeaders(w, header);
    w.WriteHeader(status);
    var observer := new UsageObserver(codec, Get(header, CONTENT_TYPE));
    end := CopyStream(w, script, observer, fates);
    assert w.body == KeptPart(end, Delivered(script));
    assert observer.seen == SeenPart(end, Delivered(script));
    u := observer.Result();
  }
}
