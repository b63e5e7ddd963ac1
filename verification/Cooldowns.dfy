/** Safety of the shared cooldown keys over all interleavings. */
module Cooldowns {
  import opened Wrappers
  import opened Pools
  import opened Selection
  import opened Store
  import opened Detector
  import opened Routing
  import opened Machine
  import opened Requests
  import opened Traces
  import opened Calls

  // ----- Cooldown keys -------------------------------------------------------------------------

  /** The step writes the cooldown key of id. */
  ghost predicate WritesCooldown(cfg: Config, s: System, step: Step, id: string) {
    && cfg.hasStore
    && step.Act? && step.action.Cool? && step.action.up
    && step.r in s.reqs && s.reqs[step.r].phase.Cooling? && s.reqs[step.r].phase.member.id == id
  }

  ghost function EntryOf(keys: Keys, key: string): Option<Entry> {
    if key in keys then Some(keys[key]) else None
  }

  lemma OtherStepsKeepKey(cfg: Config, s: System, step: Step, id: string)
    requires Apply(cfg, s, step).Some?
    requires !WritesCooldown(cfg, s, step, id)
    ensures EntryOf(Apply(cfg, s, step).value.shared.keys, CoolKey(id)) == EntryOf(s.shared.keys, CoolKey(id))
  {
    if step.Act? {
      var l := s.reqs[step.r];
      KeysApart(id, l.session);
      if l.phase.Cooling? {
        KeysApart(l.phase.member.id, l.session);
      }
    }
  }

  lemma {:induction false} CooldownKept(cfg: Config, states: seq<System>, steps: seq<Step>, i: nat, j: nat, id: string)
    requires Trace(cfg, states, steps) && i <= j <= |steps|
    requires forall x | i <= x < j :: !WritesCooldown(cfg, states[x], steps[x], id)
    ensures EntryOf(states[j].shared.keys, CoolKey(id)) ==
            EntryOf(states[i].shared.keys, CoolKey(id))
    decreases j
  {
    if i < j {
      CooldownKept(cfg, states, steps, i, j - 1, id);
      Successor(cfg, states, steps, j - 1);
      OtherStepsKeepKey(cfg, states[j - 1], steps[j - 1], id);
    }
  }

  /** What a cooldown write leaves behind: with a number of seconds whose nanoseconds fit 64 bits,
      a key that is live for exactly that long. */
  lemma CooldownWritten(cfg: Config, s: System, step: Step, id: string)
    requires Inv(cfg, s)
    requires WritesCooldown(cfg, s, step, id) && Apply(cfg, s, step).Some?
    ensures var seconds := s.reqs[step.r].phase.seconds;
            var keys := Apply(cfg, s, step).value.shared.keys;
            && 0 < seconds
            && (seconds <= MAX_SECONDS ==>
                  forall now :: Live(keys, CoolKey(id), now) <==> now < s.shared.now + seconds * SECOND)
  {
    var seconds := s.reqs[step.r].phase.seconds;
    CooldownLastsExactly(s.shared.keys, id, seconds, s.shared.now);
  }

  /** The seconds a failed attempt costs a member: what the answer asks for, else what the pool file
      sets, else five hours for an Anthropic account whose answer was a detected failover, else a
      minute. */
  ghost function SecondsDue(lib: Library, m: Member, outcome: Outcome): int {
    var asked := if outcome.Answer? && AsksToWait(outcome.response.header)
                 then lib.text.seconds(outcome.response.header["Retry-After"][0]) else None;
    if asked.Some? && 0 < asked.value then asked.value
    else if 0 < m.cooldownSec then m.cooldownSec
    else if outcome.Answer? && (m.kind == "anthropic_oauth" || m.kind == "anthropic_api") then 18000
    else 60
  }

  lemma FailureIsDue(cfg: Config, l: Local, sh: Shared, m: Member, outcome: Outcome)
    requires l.phase == Sending(m) && FailsOver(cfg.lib, outcome)
    ensures var phase := AfterSend(cfg, l, m, outcome);
            && phase.Cooling? && phase.member == m && phase.seconds == SecondsDue(cfg.lib, m, outcome)
            && phase.reason == match outcome
                               case TransportError => "transport"
                               case Answer(resp) => ShouldFailover(cfg.lib.text, resp.status, resp.Body(), resp.header).reason
  {
    if outcome.Answer? {
      var resp := outcome.response;
      StreamedNeverFailsOver(cfg.lib.text, resp.status, resp.Body(), resp.header);
      AskedSeconds(cfg.lib.text, resp.status, resp.Body(), resp.header);
    }
  }

  lemma KeyLastsFor(keys: Keys, id: string, seconds: int, now: int)
    requires 0 < seconds <= 9_223_372_036
    ensures var keys' := Put(keys, CoolKey(id), "1", Duration(seconds), now);
            forall t :: Live(keys', "cooldown:" + id, t) <==> t < now + seconds * 1_000_000_000
  {
    CooldownLastsExactly(keys, id, seconds, now);
  }

  /** The cooldown key a failed attempt leaves, detected failover or transport error: with a store that
      answers it is live exactly for the seconds due, from the moment it is written; and the failure
      is counted once, for this member, with its reason. Between the answer and the write other
      requests may have moved: sh is the shared state at the answer, sh1 at the write. */
  lemma FailedAttemptCools(cfg: Config, l: Local, sh: Shared, m: Member, outcome: Outcome, sh1: Shared)
    requires cfg.hasStore && l.phase == Sending(m) && FailsOver(cfg.lib, outcome)
    ensures var n := SecondsDue(cfg.lib, m, outcome);
            var l1 := LocalStep(cfg, l, sh, Upstream(outcome)).value.0;
            var end := LocalStep(cfg, l1, sh1, Cool(true));
            && end.Some?
            && (n <= 9_223_372_036 ==>
                  forall t :: Live(end.value.1.keys, "cooldown:" + m.id, t) <==> t < sh1.now + n * 1_000_000_000)
            && end.value.1.log == sh1.log + [Failover(l.client, m.id, l1.phase.reason)]
            && l1.phase.reason == match outcome
                                  case TransportError => "transport"
                                  case Answer(resp) =>
                                    ShouldFailover(cfg.lib.text, resp.status, resp.Body(), resp.header).reason
  {
    FailureIsDue(cfg, l, sh, m, outcome);
    var n := SecondsDue(cfg.lib, m, outcome);
    if n <= 9_223_372_036 {
      KeyLastsFor(sh1.keys, m.id, n, sh1.now);
    }
  }

  /** Step j reads the cooldown keys for request r and gets an answer; step k is the choice that
      read leads to. */
  ghost predicate ReadThenChoose(steps: seq<Step>, j: nat, k: nat, r: nat) {
    && j < k < |steps|
    && steps[j] == Act(r, Action.Read(true))
    && steps[k].Act? && steps[k].r == r && steps[k].action.Choose?
    && forall x | j < x < k :: !MovedBy(steps[x], r)
  }

  lemma ReadExcludesCooled(cfg: Config, s: System, r: nat, id: string)
    requires Inv(cfg, s) && cfg.hasStore
    requires r in s.reqs && s.reqs[r].phase.Top?
    requires Live(s.shared.keys, CoolKey(id), s.shared.now)
    ensures var phase := AtTop(cfg, s.reqs[r], s.shared, true).phase;
            phase.Filtered? ==> forall m | m in phase.healthy :: m.id != id
  {
    HealthyAtTop(s.reqs[r], s.shared, true);
  }

  lemma ReadStep(cfg: Config, s: System, r: nat)
    requires Apply(cfg, s, Act(r, Action.Read(true))).Some?
    ensures r in s.reqs && s.reqs[r].phase.Top?
    ensures Apply(cfg, s, Act(r, Action.Read(true))).value.reqs[r] == AtTop(cfg, s.reqs[r], s.shared, true)
  {
  }

  lemma ChooseStep(cfg: Config, s: System, r: nat, a: Action)
    requires a.Choose? && Apply(cfg, s, Act(r, a)).Some?
    ensures r in s.reqs && s.reqs[r].phase.Filtered?
    ensures var phase := Apply(cfg, s, Act(r, a)).value.reqs[r].phase;
            phase == Done(Aborted) || (phase.Sending? && phase.member in s.reqs[r].phase.healthy)
  {
    var l := s.reqs[r];
    ChosenIsHealthy(l.phase.healthy, PinSeen(cfg, l, s.shared, a.up), DrawOf(cfg, l, a.roll));
  }

  /** The member picked is among those the read left. */
  lemma PickedFromRead(cfg: Config, states: seq<System>, steps: seq<Step>, j: nat, k: nat, r: nat)
    requires Trace(cfg, states, steps) && ReadThenChoose(steps, j, k, r)
    ensures var sj := states[j];
            && r in sj.reqs && sj.reqs[r].phase.Top?
            && r in states[k + 1].reqs
            && AtTop(cfg, sj.reqs[r], sj.shared, true).phase.Filtered?
            && var phase := states[k + 1].reqs[r].phase;
               phase == Done(Aborted)
               || (phase.Sending? && phase.member in AtTop(cfg, sj.reqs[r], sj.shared, true).phase.healthy)
  {
    Successor(cfg, states, steps, j);
    ReadStep(cfg, states[j], r);
    LocalKept(cfg, states, steps, j + 1, k, r);
    Successor(cfg, states, steps, k);
    ChooseStep(cfg, states[k], r, steps[k].action);
  }

  /** A read that gets an answer leads only to members without a live cooldown key at that read. */
  lemma PickedWasUncooled(cfg: Config, states: seq<System>, steps: seq<Step>, j: nat, k: nat, r: nat)
    requires Trace(cfg, states, steps) && Initial(states[0]) && cfg.hasStore
    requires ReadThenChoose(steps, j, k, r)
    ensures r in states[k + 1].reqs
    ensures var phase := states[k + 1].reqs[r].phase;
            phase == Done(Aborted)
            || (phase.Sending? && !Live(states[j].shared.keys, CoolKey(phase.member.id), states[j].shared.now))
  {
    InitialInv(cfg, states[0]);
    TraceKeepsInv(cfg, states, steps, j);
    PickedFromRead(cfg, states, steps, j, k, r);
    var sj := states[j];
    if states[k + 1].reqs[r].phase.Sending? {
      var id := states[k + 1].reqs[r].phase.member.id;
      if Live(sj.shared.keys, CoolKey(id), sj.shared.now) {
        ReadExcludesCooled(cfg, sj, r, id);
      }
    }
  }

  /** After a cooldown write for a member at step i, no request of any instance that can read the
      store picks that member while the key lives, not even for a session pinned to it, unless a
      later write has replaced the key. */
  lemma CooledMemberIsNotPicked(cfg: Config, states: seq<System>, steps: seq<Step>,
                                i: nat, j: nat, k: nat, r: nat, id: string)
    requires Trace(cfg, states, steps) && Initial(states[0])
    requires i < j && ReadThenChoose(steps, j, k, r)
    requires WritesCooldown(cfg, states[i], steps[i], id)
    requires forall x | i < x < j :: !WritesCooldown(cfg, states[x], steps[x], id)
    requires Live(states[i + 1].shared.keys, CoolKey(id), states[j].shared.now)
    ensures r in states[k + 1].reqs
    ensures var phase := states[k + 1].reqs[r].phase;
            phase == Done(Aborted) || (phase.Sending? && phase.member.id != id)
  {
    CooldownKept(cfg, states, steps, i + 1, j, id);
    PickedWasUncooled(cfg, states, steps, j, k, r);
  }

  // ----- One call ------------------------------------------------------------------------------

  /** The request has nothing to do with the member. */
  ghost predicate Aside(l: Local, id: string) {
    && (forall i | 0 <= i < |l.tries| :: l.tries[i].member.id != id)
    && match l.phase
       case Filtered(healthy) => forall m | m in healthy :: m.id != id
       case Sending(m) => m.id != id
       case Cooling(m, _, _, _) => m.id != id
       case _ => true
  }

  lemma StepStaysAside(cfg: Config, l: Local, sh: Shared, a: Action, id: string)
    requires cfg.hasStore && (a.Read? ==> a.up) && LocalStep(cfg, l, sh, a).Some?
    requires Live(sh.keys, CoolKey(id), sh.now) && Aside(l, id)
    ensures var (l', sh') := LocalStep(cfg, l, sh, a).value;
            && Aside(l', id) && sh'.now == sh.now
            && EntryOf(sh'.keys, CoolKey(id)) == EntryOf(sh.keys, CoolKey(id))
  {
    KeysApart(id, l.session);
    match l.phase
    case Top => HealthyAtTop(l, sh, true);
    case Filtered(healthy) => ChosenIsHealthy(healthy, PinSeen(cfg, l, sh, a.up), DrawOf(cfg, l, a.roll));
    case Cooling(m, _, _, _) => KeysApart(m.id, l.session);
    case _ =>
  }

  lemma StaysAside(cfg: Config, t: System, call: Call, last: Step, step: Step, id: string)
    requires cfg.hasStore && call.r in t.reqs && forall n :: call.turns(n).upRead
    requires Apply(cfg, t, step).Some? && Obeys(call, t.reqs[call.r], last, step)
    requires Live(t.shared.keys, CoolKey(id), t.shared.now) && Aside(t.reqs[call.r], id)
    ensures var t' := Apply(cfg, t, step).value;
            && EntryOf(t'.shared.keys, CoolKey(id)) == EntryOf(t.shared.keys, CoolKey(id))
            && call.r in t'.reqs && Aside(t'.reqs[call.r], id)
  {
    if step.Act? {
      StepStaysAside(cfg, t.reqs[call.r], t.shared, step.action, id);
    }
  }

  lemma TimeGoesOn(cfg: Config, t: System, step: Step)
    requires Apply(cfg, t, step).Some?
    ensures t.shared.now <= Apply(cfg, t, step).value.shared.now
  {
  }

  lemma {:induction false} CallStaysAside(cfg: Config, s: System, call: Call, steps: seq<Step>, id: string)
    requires cfg.hasStore && call.r !in s.reqs && forall n :: call.turns(n).upRead
    requires Follows(cfg, s, call, steps) && Run(cfg, s, steps).Some?
    requires Live(s.shared.keys, CoolKey(id), Run(cfg, s, steps).value.shared.now)
    ensures var t := Run(cfg, s, steps).value;
            && s.shared.now <= t.shared.now
            && EntryOf(t.shared.keys, CoolKey(id)) == EntryOf(s.shared.keys, CoolKey(id))
            && call.r in t.reqs && Aside(t.reqs[call.r], id)
  {
    if |steps| == 1 {
      assert Front(steps) == [];
    } else {
      LastObeys(cfg, s, call, steps);
      TimeGoesOn(cfg, Run(cfg, s, Front(steps)).value, Last(steps));
      CallStaysAside(cfg, s, call, Front(steps), id);
      StaysAside(cfg, Run(cfg, s, Front(steps)).value, call, Last(Front(steps)), Last(steps), id);
    }
  }

  /** A call that can read the store does not try a member whose cooldown key, written before it
      by whomever, is live until its end. */
  lemma CooledMemberIsNotTried(cfg: Config, s: System, call: Call, steps: seq<Step>, l: Local, sh: Shared, id: string)
    requires cfg.hasStore && call.r !in s.reqs && forall n :: call.turns(n).upRead
    requires Reached(cfg, s, call, steps, l, sh)
    requires Live(s.shared.keys, CoolKey(id), sh.now)
    ensures forall i | 0 <= i < |l.tries| :: l.tries[i].member.id != id
    ensures l.phase.Done? && l.phase.reply.Served? && Inv(cfg, s) ==> l.phase.reply.member != id
  {
    CallStaysAside(cfg, s, call, steps, id);
    assert With(s, call.r, l, sh).reqs[call.r] == l;
    if Inv(cfg, s) {
      RunKeepsInv(cfg, s, steps);
    }
  }

  // ----- Every cooldown ends -------------------------------------------------------------------

  /** A Retry-After value received in this step, if it is a number, does not exceed what 64 bits of
      nanoseconds hold; nor does a cooldown configured by a pool that this step installs. */
  ghost predicate BoundedStep(lib: Library, step: Step) {
    && (step.Act? && step.action.Upstream? && step.action.outcome.Answer? ==>
          var seconds := lib.text.seconds(Get(step.action.outcome.response.header, RETRY_AFTER));
          seconds.Some? ==> seconds.value <= MAX_SECONDS)
    && (step.Reload? ==> BoundedPool(step.members))
  }

  ghost predicate BoundedPool(members: seq<Member>) {
    forall m | m in members :: m.cooldownSec <= MAX_SECONDS
  }

  ghost predicate KeysEnd(keys: Keys) {
    forall id :: EntryOf(keys, CoolKey(id)).Some? ==> EntryOf(keys, CoolKey(id)).value.expiry.Some?
  }

  ghost predicate BoundedLocal(l: Local) {
    BoundedPool(l.members) && (l.phase.Cooling? ==> l.phase.seconds <= MAX_SECONDS)
  }

  ghost predicate CooldownsEnd(s: System) {
    && KeysEnd(s.shared.keys)
    && BoundedPool(s.active)
    && forall r | r in s.reqs :: BoundedLocal(s.reqs[r])
  }

  lemma StepKeepsKeysEnding(cfg: Config, s: System, step: Step)
    requires Inv(cfg, s) && CooldownsEnd(s)
    requires Apply(cfg, s, step).Some?
    ensures KeysEnd(Apply(cfg, s, step).value.shared.keys)
  {
    var keys := Apply(cfg, s, step).value.shared.keys;
    forall id | EntryOf(keys, CoolKey(id)).Some? ensures EntryOf(keys, CoolKey(id)).value.expiry.Some? {
      if WritesCooldown(cfg, s, step, id) {
        CooldownLastsExactly(s.shared.keys, id, s.reqs[step.r].phase.seconds, s.shared.now);
      } else {
        OtherStepsKeepKey(cfg, s, step, id);
      }
    }
  }

  lemma StepKeepsLocalBounded(cfg: Config, l: Local, sh: Shared, r: nat, a: Action)
    requires LocalInv(cfg, l) && BoundedLocal(l) && BoundedStep(cfg.lib, Act(r, a))
    requires LocalStep(cfg, l, sh, a).Some?
    ensures BoundedLocal(LocalStep(cfg, l, sh, a).value.0)
  {
  }

  lemma StepKeepsCooldownsEnding(cfg: Config, s: System, step: Step)
    requires Inv(cfg, s) && CooldownsEnd(s) && BoundedStep(cfg.lib, step)
    requires Apply(cfg, s, step).Some?
    ensures CooldownsEnd(Apply(cfg, s, step).value)
  {
    StepKeepsKeysEnding(cfg, s, step);
    if step.Act? {
      StepKeepsLocalBounded(cfg, s.reqs[step.r], s.shared, step.r, step.action);
    }
  }

  /** As long as the values received and configured keep to that bound, no run ever leaves a cooldown
      key without an expiry. */
  lemma {:induction false} EveryCooldownEnds(cfg: Config, s: System, steps: seq<Step>)
    requires Initial(s) && CooldownsEnd(s)
    requires forall i | 0 <= i < |steps| :: BoundedStep(cfg.lib, steps[i])
    requires Run(cfg, s, steps).Some?
    ensures CooldownsEnd(Run(cfg, s, steps).value)
  {
    if steps != [] {
      var front := steps[..|steps| - 1];
      EveryCooldownEnds(cfg, s, front);
      InitialInv(cfg, s);
      RunKeepsInv(cfg, s, front);
      StepKeepsCooldownsEnding(cfg, Run(cfg, s, front).value, steps[|steps| - 1]);
    }
  }

  // ----- And one that does not -----------------------------------------------------------------

  /** A request that is answered with these headers by the only member. */
  ghost function LimitedRun(r: nat, session: string, client: string, roll: nat, resp: Response): seq<Step> {
    [] + [Arrive(r, session, client)] + [Act(r, Action.Read(true))] + [Act(r, Action.Choose(true, roll))]
    + [Act(r, Upstream(Answer(resp)))] + [Act(r, Cool(true))]
  }

  /** The state of a system with a single request. */
  ghost function Alone(members: seq<Member>, r: nat, l: Local, sh: Shared): System {
    System(members, map[r := l], sh)
  }

  lemma ActAlone(cfg: Config, s: System, steps: seq<Step>, members: seq<Member>, r: nat, l: Local, sh: Shared, a: Action)
    requires Run(cfg, s, steps) == Some(Alone(members, r, l, sh))
    requires LocalStep(cfg, l, sh, a).Some?
    ensures var (l', sh') := LocalStep(cfg, l, sh, a).value;
            Run(cfg, s, steps + [Act(r, a)]) == Some(Alone(members, r, l', sh'))
  {
    assert (steps + [Act(r, a)])[..|steps|] == steps;
    var (l', sh') := LocalStep(cfg, l, sh, a).value;
    assert map[r := l][r := l'] == map[r := l'];
  }

  lemma LimitedArrival(cfg: Config, s: System, m: Member, r: nat, session: string, client: string)
    requires Initial(s) && s.active == [m]
    ensures Run(cfg, s, [] + [Arrive(r, session, client)]) ==
            Some(Alone([m], r, Begin([m], session, client), s.shared))
  {
    var steps := [] + [Arrive(r, session, client)];
    assert steps[..0] == [] && s.reqs[r := Begin([m], session, client)] == map[r := Begin([m], session, client)];
  }

  lemma LimitedPick(cfg: Config, s: System, steps: seq<Step>, m: Member, r: nat, l: Local, sh: Shared, roll: nat)
    returns (l': Local)
    requires Run(cfg, s, steps) == Some(Alone([m], r, l, sh))
    requires l.phase.Top? && l.members == [m] && l.tried == {} && l.attempt == 0
    requires m.IsEnabled() && 0 < m.weight && !Live(sh.keys, CoolKey(m.id), sh.now)
    ensures l'.phase == Sending(m)
    ensures Run(cfg, s, steps + [Act(r, Action.Read(true))] + [Act(r, Action.Choose(true, roll))]) ==
            Some(Alone([m], r, l', sh))
  {
    ActAlone(cfg, s, steps, [m], r, l, sh, Action.Read(true));
    OneMemberIsHealthy(cfg, l, sh, m);
    var l1 := AtTop(cfg, l, sh, true);
    OneMemberIsChosen(m, PinSeen(cfg, l1, sh, true), DrawOf(cfg, l1, roll));
    ActAlone(cfg, s, steps + [Act(r, Action.Read(true))], [m], r, l1, sh, Action.Choose(true, roll));
    l' := Chosen(l1, Some(m));
  }

  lemma LimitedRunCools(cfg: Config, s: System, m: Member, r: nat, session: string, client: string,
                        roll: nat, resp: Response)
    requires cfg.hasStore && Initial(s)
    requires s.active == [m] && m.IsEnabled() && 0 < m.weight
    requires !Live(s.shared.keys, CoolKey(m.id), s.shared.now)
    requires Get(resp.header, RETRY_AFTER) != ""
    requires cfg.lib.text.seconds(Get(resp.header, RETRY_AFTER)) == Some(MAX_SECONDS + 1)
    ensures var end := Run(cfg, s, LimitedRun(r, session, client, roll, resp));
            end.Some? &&
            end.value.shared.keys == Put(s.shared.keys, CoolKey(m.id), "1", Duration(MAX_SECONDS + 1), s.shared.now)
  {
    LimitedArrival(cfg, s, m, r, session, client);
    var a := [] + [Arrive(r, session, client)];
    var l := LimitedPick(cfg, s, a, m, r, Begin([m], session, client), s.shared, roll);
    var b := a + [Act(r, Action.Read(true))] + [Act(r, Action.Choose(true, roll))];
    LimitedAnswer(cfg, s, b, m, r, l, s.shared, resp);
  }

  /** The bound is needed: a Retry-After one second above it, received in the first request there
      is, leaves the member in cooldown for ever. */
  lemma PermanentCooldownIsReached(cfg: Config, s: System, m: Member, r: nat, session: string, client: string,
                                   roll: nat, resp: Response, later: int)
    requires cfg.hasStore && Initial(s)
    requires s.active == [m] && m.IsEnabled() && 0 < m.weight
    requires !Live(s.shared.keys, CoolKey(m.id), s.shared.now)
    requires Get(resp.header, RETRY_AFTER) != ""
    requires cfg.lib.text.seconds(Get(resp.header, RETRY_AFTER)) == Some(MAX_SECONDS + 1)
    ensures var end := Run(cfg, s, LimitedRun(r, session, client, roll, resp));
            end.Some? && Live(end.value.shared.keys, CoolKey(m.id), later)
  {
    LimitedRunCools(cfg, s, m, r, session, client, roll, resp);
    CooldownCanBecomePermanent(s.shared.keys, m.id, s.shared.now, later);
  }

  lemma LimitedAnswer(cfg: Config, s: System, steps: seq<Step>, m: Member, r: nat, l: Local, sh: Shared, resp: Response)
    requires cfg.hasStore && l.phase == Sending(m) && Run(cfg, s, steps) == Some(Alone([m], r, l, sh))
    requires Get(resp.header, RETRY_AFTER) != ""
    requires cfg.lib.text.seconds(Get(resp.header, RETRY_AFTER)) == Some(MAX_SECONDS + 1)
    ensures var end := Run(cfg, s, steps + [Act(r, Upstream(Answer(resp)))] + [Act(r, Cool(true))]);
            end.Some? &&
            end.value.shared.keys == Put(sh.keys, CoolKey(m.id), "1", Duration(MAX_SECONDS + 1), sh.now)
  {
    var outcome := Answer(resp);
    ActAlone(cfg, s, steps, [m], r, l, sh, Upstream(outcome));
    var (l', sh') := LocalStep(cfg, l, sh, Upstream(outcome)).value;
    assert l'.phase == Cooling(m, MAX_SECONDS + 1, "retry-after", Held(outcome));
    ActAlone(cfg, s, steps + [Act(r, Upstream(outcome))], [m], r, l', sh', Cool(true));
  }

  lemma OneMemberIsHealthy(cfg: Config, l: Local, sh: Shared, m: Member)
    requires l.members == [m] && l.tried == {} && l.attempt == 0 && m.IsEnabled()
    requires !Live(sh.keys, CoolKey(m.id), sh.now)
    ensures AtTop(cfg, l, sh, true).phase == Filtered([m])
  {
    var readable := cfg.hasStore;
    KeepSnoc([], m, NotTried(l.tried));
    KeepSnoc([], m, (x: Member) => IsHealthy(x, sh.keys, sh.now, readable));
    assert [] + [m] == [m];
    assert Keep([m], NotTried(l.tried)) == [m];
  }

  lemma OneMemberIsChosen(m: Member, pinned: Option<string>, draw: Draw)
    requires 0 < m.weight
    ensures Routing.Choose([m], pinned, draw) == Some(m)
  {
    var ws := WeightsOf([m]);
    assert ws[..0] == [] && Sum(ws) == m.weight;
    if pinned.Some? {
      FirstWithIdFound([m], pinned.value);
    }
  }
}
