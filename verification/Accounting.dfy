/** Conservation of the counters over any history of requests. */
module Accounting {
  import opened Wrappers
  import opened Usage
  import opened Forwarder
  import opened Routing
  import Detector
  import opened Stream
  import opened Machine

  // ----- Reading the counters off the log ------------------------------------------------------

  ghost function Sum(log: seq<Metric>, f: Metric -> int): int {
    if log == [] then 0 else Sum(log[..|log| - 1], f) + f(log[|log| - 1])
  }

  lemma {:induction false} SumConcat(a: seq<Metric>, b: seq<Metric>, f: Metric -> int)
    ensures Sum(a + b, f) == Sum(a, f) + Sum(b, f)
  {
    if b == [] {
      assert a + b == a;
    } else {
      SumConcat(a, b[..|b| - 1], f);
      assert (a + b)[..|a + b| - 1] == a + b[..|b| - 1];
    }
  }

  ghost function Bit(b: bool): int {
    if b then 1 else 0
  }

  predicate Of(e: Metric, client: string, member: string) {
    e.client == client && e.member == member
  }

  /** Sends that returned. */
  ghost function Sends(client: string, member: string): Metric -> int {
    (e: Metric) => Bit(e.Sent? && Of(e, client, member))
  }

  /** The failover counter over all reasons, and for transport failures only. */
  ghost function Failovers(client: string, member: string): Metric -> int {
    (e: Metric) => Bit(e.Failover? && Of(e, client, member))
  }

  ghost function TransportFailovers(client: string, member: string): Metric -> int {
    (e: Metric) => Bit(e.Failover? && Of(e, client, member) && e.reason == TRANSPORT)
  }

  /** The request counter over all codes but "error", and for that code only. */
  ghost function ServedRequests(client: string, member: string): Metric -> int {
    (e: Metric) => Bit(e.Request? && Of(e, client, member) && e.code != ERROR)
  }

  ghost function ErrorRequests(client: string, member: string): Metric -> int {
    (e: Metric) => Bit(e.Request? && Of(e, client, member) && e.code == ERROR)
  }

  /** One per response whose copying ended. */
  ghost function Observations(client: string, member: string): Metric -> int {
    (e: Metric) => Bit(e.Observed? && Of(e, client, member))
  }

  /** A token counter, and the positive usage it should reflect. */
  ghost function TokenCounter(client: string, member: string, kind: Kind): Metric -> int {
    (e: Metric) => if e.Tokens? && Of(e, client, member) && e.kind == kind then e.n else 0
  }

  ghost function PositiveUsage(client: string, member: string, kind: Kind): Metric -> int {
    (e: Metric) => if e.Observed? && Of(e, client, member) && 0 < Count(e.usage, kind)
                   then Count(e.usage, kind) else 0
  }

  // ----- What one action adds ------------------------------------------------------------------

  ghost function PartGain(client: string, member: string, u: TokenUsage, kind: Kind, f: Metric -> int): int {
    if 0 < Count(u, kind) then f(Tokens(client, member, kind, Count(u, kind))) else 0
  }

  ghost function RecordGain(client: string, member: string, u: TokenUsage, f: Metric -> int): int {
    PartGain(client, member, u, Input, f) + PartGain(client, member, u, Output, f) +
    PartGain(client, member, u, CacheRead, f) + PartGain(client, member, u, CacheCreation, f) +
    PartGain(client, member, u, Kind.Thinking, f)
  }

  ghost function ServedGain(client: string, member: string, u: TokenUsage, code: string, f: Metric -> int): int {
    f(Observed(client, member, u)) + RecordGain(client, member, u, f) + f(Request(client, member, code))
  }

  /** The usage counted for the response being copied. */
  ghost function CopiedUsage(cfg: Config, resp: Response, end: CopyEnd): TokenUsage
    requires EndFits(end, resp.Body())
  {
    OneShot(cfg.lib.codec, Detector.Get(resp.header, CONTENT_TYPE), SeenPart(end, resp.Body()))
  }

  ghost function Gain(cfg: Config, l: Local, a: Action, f: Metric -> int): int {
    match (l.phase, a)
    case (Sending(m), Upstream(outcome)) =>
      f(Sent(l.client, m.id)) + if outcome.TransportError? then f(Request(l.client, m.id, ERROR)) else 0
    case (Cooling(m, _, reason, _), Cool(_)) => f(Failover(l.client, m.id, reason))
    case (Copying(m, resp, _), Copy(end)) =>
      if !EndFits(end, resp.Body()) then 0
      else
        ServedGain(l.client, m.id, CopiedUsage(cfg, resp, end), Itoa(resp.status), f)
    case _ => 0
  }

  lemma SumSingle(e: Metric, f: Metric -> int)
    ensures Sum([e], f) == f(e)
  {
  }

  lemma SumSnoc(log: seq<Metric>, e: Metric, f: Metric -> int)
    ensures Sum(log + [e], f) == Sum(log, f) + f(e)
  {
  }

  lemma PositiveSum(client: string, member: string, u: TokenUsage, kind: Kind, f: Metric -> int)
    ensures Sum(Positive(client, member, kind, Count(u, kind)), f) == PartGain(client, member, u, kind, f)
  {
  }

  lemma RecordSum(client: string, member: string, u: TokenUsage, f: Metric -> int)
    ensures Sum(TokenEvents(client, member, u), f) == RecordGain(client, member, u, f)
  {
    var a := Positive(client, member, Input, u.input);
    var b := Positive(client, member, Output, u.output);
    var c := Positive(client, member, CacheRead, u.cacheRead);
    var d := Positive(client, member, CacheCreation, u.cacheCreation);
    var e := Positive(client, member, Kind.Thinking, u.thinking);
    PositiveSum(client, member, u, Input, f);
    PositiveSum(client, member, u, Output, f);
    PositiveSum(client, member, u, CacheRead, f);
    PositiveSum(client, member, u, CacheCreation, f);
    PositiveSum(client, member, u, Kind.Thinking, f);
    SumConcat(a, b, f);
    SumConcat(a + b, c, f);
    SumConcat(a + b + c, d, f);
    SumConcat(a + b + c + d, e, f);
  }

  lemma StepSum(cfg: Config, l: Local, sh: Shared, a: Action, f: Metric -> int)
    requires LocalStep(cfg, l, sh, a).Some?
    ensures Sum(LocalStep(cfg, l, sh, a).value.1.log, f) == Sum(sh.log, f) + Gain(cfg, l, a, f)
  {
    match l.phase
    case Sending(m) => SendSum(sh.log, l.client, m.id, a.outcome, f);
    case Cooling(m, _, reason, _) => SumSnoc(sh.log, Failover(l.client, m.id, reason), f);
    case Copying(m, resp, _) =>
      CopySum(sh.log, l.client, m.id, CopiedUsage(cfg, resp, a.end), Itoa(resp.status), f);
    case _ =>
  }

  lemma SendSum(log: seq<Metric>, client: string, member: string, outcome: Outcome, f: Metric -> int)
    ensures var errors := if outcome.TransportError? then [Request(client, member, ERROR)] else [];
            Sum(log + [Sent(client, member)] + errors, f)
            == Sum(log, f) + f(Sent(client, member))
               + if outcome.TransportError? then f(Request(client, member, ERROR)) else 0
  {
    var sent := log + [Sent(client, member)];
    SumSnoc(log, Sent(client, member), f);
    SumSnoc(sent, Request(client, member, ERROR), f);
    assert sent + [] == sent;
  }

  lemma CopySum(log: seq<Metric>, client: string, member: string, u: TokenUsage, code: string, f: Metric -> int)
    ensures Sum(log + [Observed(client, member, u)] + TokenEvents(client, member, u) + [Request(client, member, code)], f)
            == Sum(log, f) + ServedGain(client, member, u, code, f)
  {
    var first, middle, last := [Observed(client, member, u)], TokenEvents(client, member, u), [Request(client, member, code)];
    SumSingle(first[0], f);
    SumSingle(last[0], f);
    RecordSum(client, member, u, f);
    SumConcat(log, first, f);
    SumConcat(log + first, middle, f);
    SumConcat(log + first + middle, last, f);
  }

  // ----- Requests between two counters ---------------------------------------------------------

  predicate SendOpen(l: Local, client: string, member: string) {
    l.client == client && (
      match l.phase
      case Cooling(m, _, _, _) => m.id == member
      case Finishing(m, _, _) => m.id == member
      case Copying(m, _, _) => m.id == member
      case _ => false)
  }

  predicate TransportOpen(l: Local, client: string, member: string) {
    SendOpen(l, client, member) && l.phase.Cooling? && l.phase.reason == TRANSPORT
  }

  /** Requests whose send has returned but is not yet counted as a failover or as served. */
  ghost function OpenSends(s: System, client: string, member: string): set<nat> {
    set r | r in s.reqs && SendOpen(s.reqs[r], client, member)
  }

  ghost function OpenTransports(s: System, client: string, member: string): set<nat> {
    set r | r in s.reqs && TransportOpen(s.reqs[r], client, member)
  }

  ghost predicate SendsBalance(s: System, client: string, member: string) {
    Sum(s.shared.log, Sends(client, member)) ==
    Sum(s.shared.log, Failovers(client, member)) + Sum(s.shared.log, ServedRequests(client, member))
    + |OpenSends(s, client, member)|
  }

  ghost predicate ErrorsBalance(s: System, client: string, member: string) {
    Sum(s.shared.log, ErrorRequests(client, member)) ==
    Sum(s.shared.log, TransportFailovers(client, member)) + |OpenTransports(s, client, member)|
  }

  ghost predicate TokensBalance(s: System, client: string, member: string, kind: Kind) {
    && Sum(s.shared.log, TokenCounter(client, member, kind)) == Sum(s.shared.log, PositiveUsage(client, member, kind))
    && Sum(s.shared.log, Observations(client, member)) == Sum(s.shared.log, ServedRequests(client, member))
  }

  /** The code of a served response is never the label of a transport error. */
  lemma StatusIsNotError(status: int)
    ensures Itoa(status) != ERROR
  {
    assert ERROR[0] == 'e';
  }

  /** What a served response adds to each sum: one request and its tokens, nothing else. */
  lemma ServedGains(c: string, m: string, u: TokenUsage, code: string, client: string, member: string)
    requires code != ERROR
    ensures ServedGain(c, m, u, code, Sends(client, member)) == 0
    ensures ServedGain(c, m, u, code, Failovers(client, member)) == 0
    ensures ServedGain(c, m, u, code, TransportFailovers(client, member)) == 0
    ensures ServedGain(c, m, u, code, ErrorRequests(client, member)) == 0
    ensures ServedGain(c, m, u, code, ServedRequests(client, member)) == Bit(c == client && m == member)
    ensures ServedGain(c, m, u, code, Observations(client, member)) == Bit(c == client && m == member)
  {
  }

  lemma ServedTokens(c: string, m: string, u: TokenUsage, code: string, client: string, member: string, kind: Kind)
    ensures ServedGain(c, m, u, code, TokenCounter(client, member, kind)) ==
            ServedGain(c, m, u, code, PositiveUsage(client, member, kind))
  {
  }

  /** How an action changes the number of open sends of the client to the member. */
  ghost function Opened(l: Local, client: string, member: string): int {
    match l.phase
    case Sending(m) => Bit(l.client == client && m.id == member)
    case Cooling(m, _, _, _) => -Bit(l.client == client && m.id == member)
    case Copying(m, _, _) => -Bit(l.client == client && m.id == member)
    case _ => 0
  }

  lemma SendsOpened(cfg: Config, l: Local, sh: Shared, a: Action, client: string, member: string)
    requires LocalStep(cfg, l, sh, a).Some?
    ensures Bit(SendOpen(LocalStep(cfg, l, sh, a).value.0, client, member)) ==
            Bit(SendOpen(l, client, member)) + Opened(l, client, member)
  {
  }

  lemma SendsGain(cfg: Config, l: Local, sh: Shared, a: Action, client: string, member: string)
    requires LocalStep(cfg, l, sh, a).Some?
    ensures Gain(cfg, l, a, Sends(client, member)) ==
            Gain(cfg, l, a, Failovers(client, member)) + Gain(cfg, l, a, ServedRequests(client, member))
            + Opened(l, client, member)
  {
    match l.phase
    case Copying(m, resp, _) =>
      StatusIsNotError(resp.status);
      ServedGains(l.client, m.id, CopiedUsage(cfg, resp, a.end), Itoa(resp.status), client, member);
    case _ =>
  }

  lemma ErrorsGain(cfg: Config, l: Local, sh: Shared, a: Action, client: string, member: string)
    requires LocalStep(cfg, l, sh, a).Some?
    ensures Gain(cfg, l, a, ErrorRequests(client, member)) + Bit(TransportOpen(l, client, member)) ==
            Gain(cfg, l, a, TransportFailovers(client, member))
            + Bit(TransportOpen(LocalStep(cfg, l, sh, a).value.0, client, member))
  {
    match l.phase
    case Copying(m, resp, _) =>
      StatusIsNotError(resp.status);
      ServedGains(l.client, m.id, CopiedUsage(cfg, resp, a.end), Itoa(resp.status), client, member);
    case Sending(_) =>
      if a.outcome.Answer? {
        var resp := a.outcome.response;
        if Detector.ShouldFailover(cfg.lib.text, resp.status, resp.Body(), resp.header).failover {
          Detector.ReasonIsNotTransport(cfg.lib.text, resp.status, resp.Body(), resp.header);
        }
      }
    case _ =>
  }

  lemma TokensGain(cfg: Config, l: Local, sh: Shared, a: Action, client: string, member: string, kind: Kind)
    requires LocalStep(cfg, l, sh, a).Some?
    ensures Gain(cfg, l, a, TokenCounter(client, member, kind)) == Gain(cfg, l, a, PositiveUsage(client, member, kind))
    ensures Gain(cfg, l, a, Observations(client, member)) == Gain(cfg, l, a, ServedRequests(client, member))
  {
    match l.phase
    case Copying(m, resp, _) =>
      StatusIsNotError(resp.status);
      ServedGains(l.client, m.id, CopiedUsage(cfg, resp, a.end), Itoa(resp.status), client, member);
      ServedTokens(l.client, m.id, CopiedUsage(cfg, resp, a.end), Itoa(resp.status), client, member, kind);
    case _ =>
  }

  lemma Toggle(before: set<nat>, after: set<nat>, r: nat)
    requires before - {r} == after - {r}
    ensures |after| - |before| == Bit(r in after) - Bit(r in before)
  {
    assert |before| == |before - {r}| + Bit(r in before) by {
      assert r in before ==> before == (before - {r}) + {r};
      assert r !in before ==> before == before - {r};
    }
    assert |after| == |after - {r}| + Bit(r in after) by {
      assert r in after ==> after == (after - {r}) + {r};
      assert r !in after ==> after == after - {r};
    }
  }

  lemma ApplyKeepsSends(cfg: Config, s: System, step: Step, client: string, member: string)
    requires SendsBalance(s, client, member) && Apply(cfg, s, step).Some?
    ensures SendsBalance(Apply(cfg, s, step).value, client, member)
  {
    var t := Apply(cfg, s, step).value;
    if step.Act? {
      SendsStep(cfg, s.reqs[step.r], s.shared, step.action, client, member);
      Toggle(OpenSends(s, client, member), OpenSends(t, client, member), step.r);
    } else {
      assert OpenSends(t, client, member) == OpenSends(s, client, member);
    }
  }

  /** Sends beyond those counted as failovers or as served. */
  ghost function Outstanding(log: seq<Metric>, client: string, member: string): int {
    Sum(log, Sends(client, member)) - Sum(log, Failovers(client, member)) - Sum(log, ServedRequests(client, member))
  }

  lemma SendsStep(cfg: Config, l: Local, sh: Shared, a: Action, client: string, member: string)
    requires LocalStep(cfg, l, sh, a).Some?
    ensures var (l', sh') := LocalStep(cfg, l, sh, a).value;
            Outstanding(sh'.log, client, member) - Outstanding(sh.log, client, member) ==
            Bit(SendOpen(l', client, member)) - Bit(SendOpen(l, client, member))
  {
    StepSum(cfg, l, sh, a, Sends(client, member));
    StepSum(cfg, l, sh, a, Failovers(client, member));
    StepSum(cfg, l, sh, a, ServedRequests(client, member));
    SendsGain(cfg, l, sh, a, client, member);
    SendsOpened(cfg, l, sh, a, client, member);
  }

  lemma ApplyKeepsErrors(cfg: Config, s: System, step: Step, client: string, member: string)
    requires ErrorsBalance(s, client, member) && Apply(cfg, s, step).Some?
    ensures ErrorsBalance(Apply(cfg, s, step).value, client, member)
  {
    var t := Apply(cfg, s, step).value;
    if step.Act? {
      var r, a := step.r, step.action;
      StepSum(cfg, s.reqs[r], s.shared, a, ErrorRequests(client, member));
      StepSum(cfg, s.reqs[r], s.shared, a, TransportFailovers(client, member));
      ErrorsGain(cfg, s.reqs[r], s.shared, a, client, member);
      Toggle(OpenTransports(s, client, member), OpenTransports(t, client, member), r);
    } else {
      assert OpenTransports(t, client, member) == OpenTransports(s, client, member);
    }
  }

  lemma ApplyKeepsTokens(cfg: Config, s: System, step: Step, client: string, member: string, kind: Kind)
    requires TokensBalance(s, client, member, kind) && Apply(cfg, s, step).Some?
    ensures TokensBalance(Apply(cfg, s, step).value, client, member, kind)
  {
    if step.Act? {
      var l, a := s.reqs[step.r], step.action;
      StepSum(cfg, l, s.shared, a, TokenCounter(client, member, kind));
      StepSum(cfg, l, s.shared, a, PositiveUsage(client, member, kind));
      StepSum(cfg, l, s.shared, a, Observations(client, member));
      StepSum(cfg, l, s.shared, a, ServedRequests(client, member));
      TokensGain(cfg, l, s.shared, a, client, member, kind);
    }
  }

  // ----- Every history -------------------------------------------------------------------------

  /** For each client and member, after any interleaving: sends equal failover increments plus
      served requests plus the sends still being dealt with; request errors equal transport
      failovers plus those still being cooled; and each token counter equals the sum of the
      positive counts observed on the responses served, one observation per served request. */
  lemma {:induction false} CountersBalance(cfg: Config, s: System, steps: seq<Step>,
                                           client: string, member: string, kind: Kind)
    requires Initial(s) && Run(cfg, s, steps).Some?
    ensures SendsBalance(Run(cfg, s, steps).value, client, member)
    ensures ErrorsBalance(Run(cfg, s, steps).value, client, member)
    ensures TokensBalance(Run(cfg, s, steps).value, client, member, kind)
  {
    if steps == [] {
      assert OpenSends(s, client, member) == {} && OpenTransports(s, client, member) == {};
    } else {
      var front, last := steps[..|steps| - 1], steps[|steps| - 1];
      CountersBalance(cfg, s, front, client, member, kind);
      ApplyKeepsSends(cfg, Run(cfg, s, front).value, last, client, member);
      ApplyKeepsErrors(cfg, Run(cfg, s, front).value, last, client, member);
      ApplyKeepsTokens(cfg, Run(cfg, s, front).value, last, client, member, kind);
    }
  }

  /** When every request has been answered the books close exactly. */
  lemma QuietCountersBalance(cfg: Config, s: System, steps: seq<Step>, client: string, member: string)
    requires Initial(s) && Run(cfg, s, steps).Some?
    requires forall r | r in Run(cfg, s, steps).value.reqs :: Run(cfg, s, steps).value.reqs[r].phase.Done?
    ensures var log := Run(cfg, s, steps).value.shared.log;
            && Sum(log, Sends(client, member)) ==
               Sum(log, Failovers(client, member)) + Sum(log, ServedRequests(client, member))
            && Sum(log, ErrorRequests(client, member)) == Sum(log, TransportFailovers(client, member))
  {
    CountersBalance(cfg, s, steps, client, member, Input);
    var t := Run(cfg, s, steps).value;
    assert OpenSends(t, client, member) == {} && OpenTransports(t, client, member) == {};
  }

  // ----- Counters kept per label ---------------------------------------------------------------

  ghost function Occurrences(e: Metric): Metric -> int {
    (x: Metric) => Bit(x == e)
  }

  /** The events that carry one of the labels. */
  ghost function OneOf(labels: seq<string>, event: string -> Metric): Metric -> int {
    (e: Metric) => Bit(exists i :: 0 <= i < |labels| && e == event(labels[i]))
  }

  /** A counter summed over some of its labels. */
  ghost function Column(value: string -> int, labels: seq<string>): int {
    if labels == [] then 0 else Column(value, labels[..|labels| - 1]) + value(labels[|labels| - 1])
  }

  lemma {:induction false} SumAdds(log: seq<Metric>, f: Metric -> int, g: Metric -> int, h: Metric -> int)
    requires forall e :: f(e) == g(e) + h(e)
    ensures Sum(log, f) == Sum(log, g) + Sum(log, h)
  {
    if log != [] {
      SumAdds(log[..|log| - 1], f, g, h);
    }
  }

  lemma {:induction false} SumAgrees(log: seq<Metric>, f: Metric -> int, g: Metric -> int)
    requires forall i | 0 <= i < |log| :: f(log[i]) == g(log[i])
    ensures Sum(log, f) == Sum(log, g)
  {
    if log != [] {
      SumAgrees(log[..|log| - 1], f, g);
    }
  }

  lemma {:induction false} NothingAddsUp(log: seq<Metric>, f: Metric -> int)
    requires forall e :: f(e) == 0
    ensures Sum(log, f) == 0
  {
    if log != [] {
      NothingAddsUp(log[..|log| - 1], f);
    }
  }

  lemma {:induction false} WhatOccursCounts(log: seq<Metric>, i: nat)
    requires i < |log|
    ensures 1 <= Sum(log, Occurrences(log[i]))
  {
    var front := log[..|log| - 1];
    CountIsNat(front, log[i]);
    if i < |log| - 1 {
      WhatOccursCounts(front, i);
    }
  }

  lemma {:induction false} CountIsNat(log: seq<Metric>, e: Metric)
    ensures 0 <= Sum(log, Occurrences(e))
  {
    if log != [] {
      CountIsNat(log[..|log| - 1], e);
    }
  }

  lemma NoLabel(labels: seq<string>, event: string -> Metric, e: Metric)
    requires labels == []
    ensures OneOf(labels, event)(e) == 0
  {
  }

  lemma OneLabelMore(labels: seq<string>, last: string, event: string -> Metric, e: Metric)
    requires forall n, n' | event(n) == event(n') :: n == n'
    requires last !in labels
    ensures OneOf(labels + [last], event)(e) == OneOf(labels, event)(e) + Occurrences(event(last))(e)
  {
    var more := labels + [last];
    if i :| 0 <= i < |labels| && e == event(labels[i]) {
      assert e == event(more[i]);
    }
    if e == event(last) {
      assert e == event(more[|labels|]);
    }
  }

  /** Counters that count single events, summed over distinct labels, count the events with these
      labels. */
  lemma {:induction false} ColumnIsSum(log: seq<Metric>, value: string -> int, event: string -> Metric, labels: seq<string>)
    requires forall n :: value(n) == Sum(log, Occurrences(event(n)))
    requires forall n, n' | event(n) == event(n') :: n == n'
    requires forall i, j | 0 <= i < j < |labels| :: labels[i] != labels[j]
    ensures Column(value, labels) == Sum(log, OneOf(labels, event))
  {
    if labels == [] {
      forall e ensures OneOf(labels, event)(e) == 0 {
        NoLabel(labels, event, e);
      }
      NothingAddsUp(log, OneOf(labels, event));
    } else {
      var front, last := labels[..|labels| - 1], labels[|labels| - 1];
      ColumnIsSum(log, value, event, front);
      assert labels == front + [last];
      forall e ensures OneOf(labels, event)(e) == OneOf(front, event)(e) + Occurrences(event(last))(e) {
        OneLabelMore(front, last, event, e);
      }
      SumAdds(log, OneOf(labels, event), OneOf(front, event), Occurrences(event(last)));
    }
  }

  // ----- What a response served adds -----------------------------------------------------------

  ghost predicate IsDecimal(code: string, n: int) {
    && code != "" && (forall i | 0 <= i < |code| :: '0' <= code[i] <= '9')
    && Numeral(code) == n
  }

  /** A served response is counted once, for its client and member, with its status in decimal; its
      token counts are those of the bytes the observer saw, as their content type says. */
  lemma ServedIsCounted(cfg: Config, l: Local, sh: Shared, end: CopyEnd) returns (u: TokenUsage, code: string)
    requires l.phase.Copying? && EndFits(end, l.phase.response.Body())
    ensures var m, step := l.phase.member, LocalStep(cfg, l, sh, Copy(end));
            step.Some? && step.value.1.log == sh.log + [Observed(l.client, m.id, u)] + TokenEvents(l.client, m.id, u)
                                             + [Request(l.client, m.id, code)]
    ensures var status := l.phase.response.status;
            (0 <= status ==> IsDecimal(code, status)) && (status < 0 ==> code == "")
    ensures var resp := l.phase.response;
            UsageMeans(cfg.lib.codec,
                       Detector.OccursIn(cfg.lib.codec.lower(Detector.Get(resp.header, "Content-Type")), "text/event-stream"),
                       SeenPart(end, resp.Body()), u)
  {
    var resp := l.phase.response;
    u, code := CopiedUsage(cfg, resp, end), Itoa(resp.status);
    OneShotMeans(cfg.lib.codec, Detector.Get(resp.header, CONTENT_TYPE), SeenPart(end, resp.Body()));
    if 0 <= resp.status {
      DigitsRoundTrip(resp.status);
    }
  }
}
