/** The failover request machine: requests of any number of proxy instances, interleaved over one
    shared store, one atomic action at a time. A step label carries everything the code does not
    decide itself: whether the store answers, random draws, upstream outcomes, time and reloads. */
module Machine {
  import opened Wrappers
  import opened Pools
  import opened Store
  import opened Detector
  import opened Routing
  import opened Usage
  import opened Forwarder
  import opened Stream

  const REDIS_MODE := "redis"
  const TRANSPORT := "transport"
  const ERROR := "error"
  const CONTENT_TYPE := "Content-Type"

  datatype Library = Library(text: Text, crc32: string -> nat, codec: Codec)
  datatype Config = Config(lib: Library, stickyMode: string, hasStore: bool)

  // ----- Upstream responses --------------------------------------------------------------------

  datatype Response = Response(status: Int64, header: Header, script: seq<Read>)
  {
    function Body(): Bytes {
      Delivered(script)
    }
  }

  datatype Outcome = TransportError | Answer(response: Response)

  ghost predicate FailsOver(lib: Library, outcome: Outcome) {
    match outcome
    case TransportError => true
    case Answer(resp) => ShouldFailover(lib.text, resp.status, resp.Body(), resp.header).failover
  }

  /** A response held in memory; the one standing for a transport error has no body. */
  datatype Buffered = Buffered(status: int, header: Header, body: Option<Bytes>)

  function Held(outcome: Outcome): Buffered {
    match outcome
    case TransportError => Buffered(502, map[], None)
    case Answer(resp) => Buffered(resp.status, resp.header, Some(resp.Body()))
  }

  // ----- One request ---------------------------------------------------------------------------

  datatype Reply =
    | NoPool                                                       // 503
    | Served(member: string, status: int, header: Header, body: Bytes)
    | Relayed(status: int, header: Header, body: Bytes)            // the last detected failover
    | AllFailed                                                    // 502
    | Aborted                                                      // the handler panicked: no response

  datatype Phase =
    | Top                                                          // head of the loop
    | Filtered(healthy: seq<Member>)
    | Sending(member: Member)
    | Cooling(member: Member, seconds: int, reason: string, held: Buffered)
    | Finishing(member: Member, response: Response, streamed: bool)
    | Copying(member: Member, response: Response, streamed: bool)
    | Done(reply: Reply)

  datatype Try = Try(member: Member, outcome: Outcome)

  datatype Local = Local(
    members: seq<Member>,      // the request's own pool snapshot
    session: string,
    client: string,
    attempt: nat,
    tried: set<string>,
    last: Option<Buffered>,
    phase: Phase,
    tries: seq<Try>,           // history: the sends that returned, in order
    excluded: set<string>      // history: ids the latest cooldown read ruled out
  )

  datatype Action =
    | Read(up: bool)
    | Choose(up: bool, roll: nat)
    | Upstream(outcome: Outcome)
    | Cool(up: bool)
    | Finish(up: bool)
    | Copy(end: CopyEnd)

  /** What the metrics counters are fed, and the facts they are meant to reflect. */
  datatype Metric =
    | Sent(client: string, member: string)
    | Request(client: string, member: string, code: string)
    | Failover(client: string, member: string, reason: string)
    | Observed(client: string, member: string, usage: TokenUsage)
    | Tokens(client: string, member: string, kind: Kind, n: int)

  datatype Commit = Commit(session: string, member: string, at: int)

  datatype Shared = Shared(now: int, keys: Keys, log: seq<Metric>, commits: seq<Commit>)

  function Begin(members: seq<Member>, session: string, client: string): Local {
    Local(members, session, client, 0, {}, None, if members == [] then Done(NoPool) else Top, [], {})
  }

  function Exhausted(last: Option<Buffered>): Reply {
    if last.Some? && last.value.body.Some? then Relayed(last.value.status, last.value.header, last.value.body.value)
    else AllFailed
  }

  /** The seconds a cooldown is written for, after both layers of defaults. */
  function CooldownSeconds(m: Member, ttl: int): int {
    if 0 < ttl then ttl else if 0 < m.cooldownSec then m.cooldownSec else 60
  }

  /** The counters a usage record feeds: only positive counts are added. */
  function TokenEvents(client: string, member: string, u: TokenUsage): seq<Metric> {
    Positive(client, member, Input, u.input) + Positive(client, member, Output, u.output) +
    Positive(client, member, CacheRead, u.cacheRead) + Positive(client, member, CacheCreation, u.cacheCreation) +
    Positive(client, member, Kind.Thinking, u.thinking)
  }

  function Positive(client: string, member: string, kind: Kind, n: int): seq<Metric> {
    if 0 < n then [Tokens(client, member, kind, n)] else []
  }

  predicate TrySticky(cfg: Config, l: Local) {
    cfg.stickyMode == REDIS_MODE && l.attempt == 0
  }

  /** The affinity pin as this request sees it. */
  function PinSeen(cfg: Config, l: Local, sh: Shared, up: bool): Option<string> {
    if TrySticky(cfg, l) && cfg.hasStore && up then Pinned(sh.keys, l.session, sh.now) else None
  }

  function DrawOf(cfg: Config, l: Local, roll: nat): Draw {
    DrawFor(cfg.lib.crc32, l.session, roll)
  }

  /** Ids of enabled candidates that the cooldown read rules out. */
  function RuledOut(candidates: seq<Member>, keys: Keys, now: int, readable: bool): set<string> {
    set m | m in candidates && m.IsEnabled() && !IsHealthy(m, keys, now, readable) :: m.id
  }

  /** The head of the loop, up to and including the cooldown read of Pick. */
  function AtTop(cfg: Config, l: Local, sh: Shared, up: bool): Local {
    var stop := l.(phase := Done(Exhausted(l.last)));
    var candidates := Keep(l.members, NotTried(l.tried));
    if |l.members| <= l.attempt || candidates == [] then stop
    else
      var readable := cfg.hasStore && up;
      var healthy := Healthy(candidates, sh.keys, sh.now, readable);
      var excluded := RuledOut(candidates, sh.keys, sh.now, readable);
      if healthy == [] then stop.(excluded := excluded)
      else l.(phase := Filtered(healthy), excluded := excluded)
  }

  /** The choice among the healthy members; without one the handler has panicked. */
  function Chosen(l: Local, m: Option<Member>): Local {
    match m
    case None => l.(phase := Done(Aborted))
    case Some(m) => l.(tried := l.tried + {m.id}, phase := Sending(m))
  }

  /** The answer of a send: classified from status and headers, and from the body only when the
      headers leave the question open. */
  function AfterSend(cfg: Config, l: Local, m: Member, outcome: Outcome): Phase {
    match outcome
    case TransportError => Cooling(m, CooldownSeconds(m, 0), TRANSPORT, Held(outcome))
    case Answer(resp) =>
      if MayFailover(resp.status, resp.header) then
        var verdict := ShouldFailover(cfg.lib.text, resp.status, resp.Body(), resp.header);
        if verdict.failover then
          var ttl := CooldownTTL(verdict.ttl, m.cooldownSec, m.IsAnthropic());
          Cooling(m, CooldownSeconds(m, ttl), verdict.reason, Held(outcome))
        else Finishing(m, resp, false)
      else Finishing(m, resp, true)
  }

  /** One atomic action of one request; None when the request is not at that point. */
  ghost function LocalStep(cfg: Config, l: Local, sh: Shared, a: Action): Option<(Local, Shared)> {
    match l.phase
    case Top =>
      if a.Read? then Some((AtTop(cfg, l, sh, a.up), sh)) else None
    case Filtered(healthy) =>
      if a.Choose? && healthy != [] then
        Some((Chosen(l, Routing.Choose(healthy, PinSeen(cfg, l, sh, a.up), DrawOf(cfg, l, a.roll))), sh))
      else None
    case Sending(m) =>
      if a.Upstream? then
        var errors := if a.outcome.TransportError? then [Request(l.client, m.id, ERROR)] else [];
        Some((l.(tries := l.tries + [Try(m, a.outcome)], phase := AfterSend(cfg, l, m, a.outcome)),
              sh.(log := sh.log + [Sent(l.client, m.id)] + errors)))
      else None
    case Cooling(m, seconds, reason, held) =>
      if a.Cool? then
        Some((l.(attempt := l.attempt + 1, last := Some(held), phase := Top),
              sh.(keys := if cfg.hasStore && a.up
                          then Put(sh.keys, CoolKey(m.id), "1", Duration(seconds), sh.now) else sh.keys,
                  log := sh.log + [Failover(l.client, m.id, reason)])))
      else None
    case Finishing(m, resp, streamed) =>
      if a.Finish? then
        Some((l.(phase := Copying(m, resp, streamed)),
              sh.(keys := if cfg.stickyMode == REDIS_MODE && l.session != "" && cfg.hasStore && a.up
                          then Put(sh.keys, StickyKey(l.session), m.id, HOUR, sh.now) else sh.keys,
                  commits := sh.commits + [Commit(l.session, m.id, sh.now)])))
      else None
    case Copying(m, resp, streamed) =>
      if a.Copy? && EndFits(a.end, resp.Body()) then
        var usage := OneShot(cfg.lib.codec, Get(resp.header, CONTENT_TYPE), SeenPart(a.end, resp.Body()));
        Some((l.(phase := Done(Served(m.id, resp.status, resp.header, KeptPart(a.end, resp.Body())))),
              sh.(log := sh.log + [Observed(l.client, m.id, usage)] + TokenEvents(l.client, m.id, usage)
                         + [Request(l.client, m.id, Itoa(resp.status))])))
      else None
    case Done(_) => None
  }

  // ----- The whole system ----------------------------------------------------------------------

  datatype System = System(active: seq<Member>, reqs: map<nat, Local>, shared: Shared)

  datatype Step =
    | Tick(d: nat)
    | Reload(members: seq<Member>)
    | Arrive(r: nat, session: string, client: string)
    | Act(r: nat, action: Action)

  ghost function Apply(cfg: Config, s: System, step: Step): Option<System> {
    match step
    case Tick(d) => Some(s.(shared := s.shared.(now := s.shared.now + d)))
    case Reload(members) => Some(s.(active := members))
    case Arrive(r, session, client) =>
      if r in s.reqs then None else Some(s.(reqs := s.reqs[r := Begin(s.active, session, client)]))
    case Act(r, action) =>
      if r !in s.reqs then None
      else
        match LocalStep(cfg, s.reqs[r], s.shared, action)
        case None => None
        case Some((l, sh)) => Some(s.(reqs := s.reqs[r := l], shared := sh))
  }

  /** The state after a run of steps, or None if some step was not possible. */
  ghost function Run(cfg: Config, s: System, steps: seq<Step>): Option<System> {
    if steps == [] then Some(s)
    else
      match Run(cfg, s, steps[..|steps| - 1])
      case None => None
      case Some(t) => Apply(cfg, t, steps[|steps| - 1])
  }

  /** Before the first request: nothing has been counted or committed. Any pool may be active, and
      the store may hold anything, keys from before a restart included. */
  ghost predicate Initial(s: System) {
    s.reqs == map[] && s.shared.log == [] && s.shared.commits == []
  }
}
