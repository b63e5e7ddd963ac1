/** Session affinity through the store, when it is switched on and answers. */
module Affinity {
  import opened Wrappers
  import opened Pools
  import opened Store
  import opened Routing
  import opened Machine
  import opened Requests
  import opened Traces
  import opened Cooldowns
  import opened Calls

  ghost predicate On(cfg: Config) {
    cfg.stickyMode == REDIS_MODE && cfg.hasStore
  }

  /** Every affinity write of the run reached the store. */
  ghost predicate PinsReachStore(steps: seq<Step>) {
    forall i | 0 <= i < |steps| :: steps[i].Act? && steps[i].action.Finish? ==> steps[i].action.up
  }

  ghost function LastCommit(commits: seq<Commit>, session: string): Option<Commit> {
    if commits == [] then None
    else if commits[|commits| - 1].session == session then Some(commits[|commits| - 1])
    else LastCommit(commits[..|commits| - 1], session)
  }

  // ----- The pin is the latest commit ----------------------------------------------------------

  /** What a commit leaves in the store. */
  ghost function PinOf(commit: Option<Commit>): Option<Entry> {
    if commit.None? then None else Some(Entry(commit.value.member, Some(commit.value.at + HOUR)))
  }

  ghost predicate PinsMatch(s: System) {
    forall session | session != "" ::
      EntryOf(s.shared.keys, StickyKey(session)) == PinOf(LastCommit(s.shared.commits, session))
  }

  /** The store holds no affinity key from before the run. */
  ghost predicate Unpinned(s: System) {
    forall session :: StickyKey(session) !in s.shared.keys
  }

  lemma StepKeepsPins(cfg: Config, s: System, step: Step)
    requires On(cfg) && PinsMatch(s) && PinsReachStore([step])
    requires Apply(cfg, s, step).Some?
    ensures PinsMatch(Apply(cfg, s, step).value)
  {
    var t := Apply(cfg, s, step).value;
    assert [step][0] == step;
    forall session | session != ""
      ensures EntryOf(t.shared.keys, StickyKey(session)) == PinOf(LastCommit(t.shared.commits, session))
    {
      if step.Act? {
        var l := s.reqs[step.r];
        KeysApart("", session);
        KeysApart("", l.session);
        if l.phase.Cooling? {
          KeysApart(l.phase.member.id, session);
        }
        if l.phase.Finishing? {
          assert t.shared.commits[..|s.shared.commits|] == s.shared.commits;
        }
      }
    }
  }

  /** A session's affinity key, live or run out, is always the one the latest commit for the
      session wrote: it names the member that answered then and ends an hour after. */
  lemma {:induction false} PinIsLatestCommit(cfg: Config, s: System, steps: seq<Step>)
    requires On(cfg) && Initial(s) && Unpinned(s) && PinsReachStore(steps)
    requires Run(cfg, s, steps).Some?
    ensures PinsMatch(Run(cfg, s, steps).value)
  {
    if steps != [] {
      var front, last := steps[..|steps| - 1], steps[|steps| - 1];
      PinIsLatestCommit(cfg, s, front);
      StepKeepsPins(cfg, Run(cfg, s, front).value, last);
    }
  }

  /** So a live pin is the member of the session's latest commit, less than an hour ago. */
  lemma LivePinIsLatestCommit(cfg: Config, s: System, steps: seq<Step>, session: string)
    requires On(cfg) && Initial(s) && Unpinned(s) && PinsReachStore(steps)
    requires Run(cfg, s, steps).Some? && session != ""
    ensures var sh := Run(cfg, s, steps).value.shared;
            var commit := LastCommit(sh.commits, session);
            Pinned(sh.keys, session, sh.now) ==
            if commit.Some? && sh.now < commit.value.at + 3_600_000_000_000 then Some(commit.value.member) else None
  {
    PinIsLatestCommit(cfg, s, steps);
    var sh := Run(cfg, s, steps).value.shared;
    assert EntryOf(sh.keys, StickyKey(session)) == PinOf(LastCommit(sh.commits, session));
  }

  /** Outside redis mode no step touches an affinity key. */
  lemma OtherModesLeavePins(cfg: Config, s: System, step: Step, session: string)
    requires cfg.stickyMode != "redis" && Apply(cfg, s, step).Some?
    ensures EntryOf(Apply(cfg, s, step).value.shared.keys, "sticky:" + session) ==
            EntryOf(s.shared.keys, "sticky:" + session)
  {
    assert StickyKey(session) == "sticky:" + session;
    if step.Act? && s.reqs[step.r].phase.Cooling? {
      KeysApart(s.reqs[step.r].phase.member.id, session);
    }
  }

  /** A pin is looked at in redis mode only, and for the first attempt only. */
  lemma PinsCountOnce(cfg: Config, l: Local, sh: Shared, keys: Keys, up: bool, up': bool, roll: nat)
    requires l.phase.Filtered? && (cfg.stickyMode != "redis" || l.attempt > 0)
    ensures var a, b := LocalStep(cfg, l, sh, Action.Choose(up, roll)),
                        LocalStep(cfg, l, sh.(keys := keys), Action.Choose(up', roll));
            (a.Some? <==> b.Some?) && (a.Some? ==> a.value.0 == b.value.0)
  {
  }

  // ----- A session stays where it is -----------------------------------------------------------

  /** The step writes the affinity key of the session. */
  ghost predicate WritesPin(s: System, step: Step, session: string) {
    && step.Act? && step.action.Finish?
    && step.r in s.reqs && s.reqs[step.r].session == session
  }

  lemma OtherStepsKeepPin(cfg: Config, s: System, step: Step, session: string)
    requires Apply(cfg, s, step).Some?
    requires !WritesPin(s, step, session)
    ensures EntryOf(Apply(cfg, s, step).value.shared.keys, StickyKey(session)) ==
            EntryOf(s.shared.keys, StickyKey(session))
  {
    if step.Act? {
      var l := s.reqs[step.r];
      KeysApart("", session);
      KeysApart("", l.session);
      if l.phase.Cooling? {
        KeysApart(l.phase.member.id, session);
      }
    }
  }

  lemma {:induction false} PinKept(cfg: Config, states: seq<System>, steps: seq<Step>, i: nat, j: nat, session: string)
    requires Trace(cfg, states, steps) && i <= j <= |steps|
    requires forall x | i <= x < j :: !WritesPin(states[x], steps[x], session)
    ensures EntryOf(states[j].shared.keys, StickyKey(session)) ==
            EntryOf(states[i].shared.keys, StickyKey(session))
    decreases j
  {
    if i < j {
      PinKept(cfg, states, steps, i, j - 1, session);
      Successor(cfg, states, steps, j - 1);
      OtherStepsKeepPin(cfg, states[j - 1], steps[j - 1], session);
    }
  }

  /** One request of the session inside a stretch of a run, which may hold any steps of other
      sessions, reloads and ticks: its arrival, cooldown read, choice, answer and commit. */
  datatype Visit = Visit(
    states: seq<System>, steps: seq<Step>, r: nat, client: string,
    arrive: nat, read: nat, choose: nat, answer: nat, commit: nat,
    upRead: bool, roll: nat, outcome: Outcome
  )

  ghost predicate VisitShape(cfg: Config, v: Visit, session: string) {
    && Trace(cfg, v.states, v.steps)
    && v.arrive < v.read < v.choose < v.answer < v.commit < |v.steps|
    && v.steps[v.arrive] == Arrive(v.r, session, v.client)
    && v.steps[v.read] == Act(v.r, Action.Read(v.upRead))
    && v.steps[v.choose] == Act(v.r, Action.Choose(true, v.roll))
    && v.steps[v.answer] == Act(v.r, Upstream(v.outcome))
    && v.steps[v.commit] == Act(v.r, Finish(true))
    && Idle(v, v.arrive, v.read) && Idle(v, v.read, v.choose)
    && Idle(v, v.choose, v.answer) && Idle(v, v.answer, v.commit)
  }

  /** The request takes no step strictly between i and j. */
  ghost predicate Idle(v: Visit, i: nat, j: nat)
    requires j <= |v.steps|
  {
    forall x | i < x < j :: !MovedBy(v.steps[x], v.r)
  }

  /** No other request of the session commits during the stretch. */
  ghost predicate AloneInSession(v: Visit, session: string)
    requires |v.states| == |v.steps| + 1
  {
    forall x | 0 <= x < |v.steps| && x != v.commit :: !WritesPin(v.states[x], v.steps[x], session)
  }

  /** When the request reads the cooldown keys, its snapshot lists the member as enabled and the
      read does not rule it out. */
  ghost predicate Available(cfg: Config, v: Visit, id: string)
    requires v.arrive < |v.states| && v.read < |v.states|
  {
    var t := v.states[v.read];
    && (exists m :: m in v.states[v.arrive].active && m.id == id && m.IsEnabled())
    && !(cfg.hasStore && v.upRead && Live(t.shared.keys, CoolKey(id), t.shared.now))
  }

  /** The circumstances under which the member is expected to keep the session: nobody else
      commits for it, the member is available, the choice comes within an hour of the commit at
      since, and the answer is none to fail over. */
  ghost predicate Undisturbed(cfg: Config, v: Visit, session: string, id: string, since: int) {
    && VisitShape(cfg, v, session)
    && AloneInSession(v, session)
    && Available(cfg, v, id)
    && v.states[v.choose].shared.now < since + HOUR
    && !FailsOver(cfg.lib, v.outcome)
  }

  /** The request is served by the member with this id. */
  ghost predicate ServedBy(t: System, r: nat, id: string) {
    r in t.reqs && (
      match t.reqs[r].phase
      case Copying(m, _, _) => m.id == id
      case Done(Served(m, _, _, _)) => m == id
      case _ => false)
  }

  ghost predicate PinnedTo(s: System, session: string, id: string, since: int) {
    EntryOf(s.shared.keys, StickyKey(session)) == Some(Entry(id, Some(since + HOUR)))
  }

  // The single steps of the visit.

  lemma ReadLeavesMember(cfg: Config, t: System, r: nat, up: bool, id: string)
    requires r in t.reqs && t.reqs[r].phase.Top?
    requires t.reqs[r].attempt == 0 && t.reqs[r].tried == {}
    requires exists m :: m in t.reqs[r].members && m.id == id && m.IsEnabled()
    requires !(cfg.hasStore && up && Live(t.shared.keys, CoolKey(id), t.shared.now))
    requires Apply(cfg, t, Act(r, Action.Read(up))).Some?
    ensures var l := Apply(cfg, t, Act(r, Action.Read(up))).value.reqs[r];
            && l.attempt == 0 && l.session == t.reqs[r].session
            && l.phase.Filtered? && exists m :: m in l.phase.healthy && m.id == id
  {
    MemberIsHealthy(t.reqs[r], t.shared, cfg.hasStore && up, id);
  }

  lemma MemberIsHealthy(l: Local, sh: Shared, readable: bool, id: string)
    requires l.tried == {} && exists m :: m in l.members && m.id == id && m.IsEnabled()
    requires !(readable && Live(sh.keys, CoolKey(id), sh.now))
    ensures var candidates := Keep(l.members, NotTried(l.tried));
            && candidates != [] && l.members != []
            && exists m :: m in Healthy(candidates, sh.keys, sh.now, readable) && m.id == id
  {
    HealthyAtTop(l, sh, readable);
    var m :| m in l.members && m.id == id && m.IsEnabled();
    var candidates := Keep(l.members, NotTried(l.tried));
    assert m in candidates && m in Healthy(candidates, sh.keys, sh.now, readable);
  }

  lemma ChooseTakesPin(cfg: Config, t: System, r: nat, roll: nat, id: string)
    requires On(cfg) && r in t.reqs && t.reqs[r].phase.Filtered? && t.reqs[r].attempt == 0
    requires Pinned(t.shared.keys, t.reqs[r].session, t.shared.now) == Some(id)
    requires exists m :: m in t.reqs[r].phase.healthy && m.id == id
    requires Apply(cfg, t, Act(r, Action.Choose(true, roll))).Some?
    ensures var l := Apply(cfg, t, Act(r, Action.Choose(true, roll))).value.reqs[r];
            l.phase.Sending? && l.phase.member.id == id && l.session == t.reqs[r].session
  {
    var l := t.reqs[r];
    ChosenIsHealthy(l.phase.healthy, Some(id), DrawOf(cfg, l, roll));
  }

  lemma AnswerStep(cfg: Config, t: System, r: nat, outcome: Outcome)
    requires r in t.reqs && t.reqs[r].phase.Sending?
    requires !FailsOver(cfg.lib, outcome)
    requires Apply(cfg, t, Act(r, Upstream(outcome))).Some?
    ensures var l := Apply(cfg, t, Act(r, Upstream(outcome))).value.reqs[r];
            l.phase.Finishing? && l.phase.member == t.reqs[r].phase.member && l.session == t.reqs[r].session
  {
  }

  lemma CommitStep(cfg: Config, t: System, r: nat)
    requires On(cfg) && r in t.reqs && t.reqs[r].phase.Finishing? && t.reqs[r].session != ""
    requires Apply(cfg, t, Act(r, Finish(true))).Some?
    ensures var t' := Apply(cfg, t, Act(r, Finish(true))).value;
            var id := t.reqs[r].phase.member.id;
            ServedBy(t', r, id) && PinnedTo(t', t.reqs[r].session, id, t.shared.now)
  {
  }

  lemma ServedStep(cfg: Config, t: System, step: Step, r: nat, id: string)
    requires ServedBy(t, r, id) && Apply(cfg, t, step).Some?
    ensures ServedBy(Apply(cfg, t, step).value, r, id)
  {
  }

  // The visit as a whole, from one of its steps to the next.

  lemma BeforeRead(cfg: Config, v: Visit, session: string)
    requires VisitShape(cfg, v, session) && Inv(cfg, v.states[0])
    ensures var t := v.states[v.read];
            v.r in t.reqs && t.reqs[v.r] == Begin(v.states[v.arrive].active, session, v.client)
  {
    TraceKeepsInv(cfg, v.states, v.steps, v.arrive);
    Successor(cfg, v.states, v.steps, v.arrive);
    LocalKept(cfg, v.states, v.steps, v.arrive + 1, v.read, v.r);
  }

  ghost predicate ReadyToChoose(t: System, r: nat, session: string, id: string) {
    && r in t.reqs && t.reqs[r].attempt == 0 && t.reqs[r].session == session
    && t.reqs[r].phase.Filtered? && exists m :: m in t.reqs[r].phase.healthy && m.id == id
  }

  lemma AfterRead(cfg: Config, v: Visit, session: string, id: string)
    requires VisitShape(cfg, v, session) && Inv(cfg, v.states[0]) && Available(cfg, v, id)
    ensures ReadyToChoose(v.states[v.read + 1], v.r, session, id)
  {
    BeforeRead(cfg, v, session);
    Successor(cfg, v.states, v.steps, v.read);
    ReadLeavesMember(cfg, v.states[v.read], v.r, v.upRead, id);
  }

  lemma BeforeChoose(cfg: Config, v: Visit, session: string, id: string)
    requires VisitShape(cfg, v, session) && Inv(cfg, v.states[0]) && Available(cfg, v, id)
    ensures ReadyToChoose(v.states[v.choose], v.r, session, id)
  {
    AfterRead(cfg, v, session, id);
    LocalKept(cfg, v.states, v.steps, v.read + 1, v.choose, v.r);
  }

  lemma BeforeAnswer(cfg: Config, v: Visit, session: string, id: string, since: int)
    requires On(cfg) && |v.states| > 0 && Inv(cfg, v.states[0]) && session != ""
    requires PinnedTo(v.states[0], session, id, since)
    requires Undisturbed(cfg, v, session, id, since)
    ensures var t := v.states[v.answer];
            v.r in t.reqs && t.reqs[v.r].session == session
            && t.reqs[v.r].phase.Sending? && t.reqs[v.r].phase.member.id == id
  {
    BeforeChoose(cfg, v, session, id);
    PinKept(cfg, v.states, v.steps, 0, v.choose, session);
    Successor(cfg, v.states, v.steps, v.choose);
    ChooseTakesPin(cfg, v.states[v.choose], v.r, v.roll, id);
    LocalKept(cfg, v.states, v.steps, v.choose + 1, v.answer, v.r);
  }

  lemma BeforeCommit(cfg: Config, v: Visit, session: string, id: string)
    requires VisitShape(cfg, v, session) && !FailsOver(cfg.lib, v.outcome)
    requires var t := v.states[v.answer];
             v.r in t.reqs && t.reqs[v.r].session == session
             && t.reqs[v.r].phase.Sending? && t.reqs[v.r].phase.member.id == id
    ensures var t := v.states[v.commit];
            v.r in t.reqs && t.reqs[v.r].session == session
            && t.reqs[v.r].phase.Finishing? && t.reqs[v.r].phase.member.id == id
  {
    Successor(cfg, v.states, v.steps, v.answer);
    AnswerStep(cfg, v.states[v.answer], v.r, v.outcome);
    LocalKept(cfg, v.states, v.steps, v.answer + 1, v.commit, v.r);
  }

  lemma {:induction false} ServedStays(cfg: Config, states: seq<System>, steps: seq<Step>,
                                       i: nat, j: nat, r: nat, id: string)
    requires Trace(cfg, states, steps) && i <= j <= |steps|
    requires ServedBy(states[i], r, id)
    ensures ServedBy(states[j], r, id)
    decreases j
  {
    if i < j {
      ServedStays(cfg, states, steps, i, j - 1, r, id);
      Successor(cfg, states, steps, j - 1);
      ServedStep(cfg, states[j - 1], steps[j - 1], r, id);
    }
  }

  /** A pinned session's next request is served by the pinned member, and renews the pin. */
  lemma VisitKeepsMember(cfg: Config, v: Visit, session: string, id: string, since: int)
    requires On(cfg) && |v.states| > 0 && Inv(cfg, v.states[0]) && session != ""
    requires PinnedTo(v.states[0], session, id, since)
    requires Undisturbed(cfg, v, session, id, since)
    ensures ServedBy(v.states[|v.steps|], v.r, id)
    ensures PinnedTo(v.states[|v.steps|], session, id, v.states[v.commit].shared.now)
  {
    BeforeAnswer(cfg, v, session, id, since);
    BeforeCommit(cfg, v, session, id);
    Successor(cfg, v.states, v.steps, v.commit);
    CommitStep(cfg, v.states[v.commit], v.r);
    ServedStays(cfg, v.states, v.steps, v.commit + 1, |v.steps|, v.r, id);
    PinKept(cfg, v.states, v.steps, v.commit + 1, |v.steps|, session);
  }

  /** A sequence of requests of one session, one after the other, each in undisturbed
      circumstances and each within an hour of the commit before it. */
  ghost predicate Sequential(cfg: Config, s: System, visits: seq<Visit>, session: string, id: string, since: int)
    decreases |visits|
  {
    visits != [] ==>
      var v := visits[0];
      && Undisturbed(cfg, v, session, id, since) && v.states[0] == s
      && Sequential(cfg, v.states[|v.steps|], visits[1..], session, id, v.states[v.commit].shared.now)
  }

  ghost predicate KeptBy(v: Visit, id: string) {
    |v.states| == |v.steps| + 1 && ServedBy(v.states[|v.steps|], v.r, id)
  }

  /** The first of the requests, and the state and commit it leaves to the others. */
  lemma FirstVisit(cfg: Config, s: System, visits: seq<Visit>, session: string, id: string, since: int)
    returns (s': System, since': int)
    requires On(cfg) && Inv(cfg, s) && session != "" && visits != []
    requires PinnedTo(s, session, id, since)
    requires Sequential(cfg, s, visits, session, id, since)
    ensures KeptBy(visits[0], id)
    ensures Inv(cfg, s') && PinnedTo(s', session, id, since')
    ensures Sequential(cfg, s', visits[1..], session, id, since')
  {
    var v := visits[0];
    VisitKeepsMember(cfg, v, session, id, since);
    TraceKeepsInv(cfg, v.states, v.steps, |v.steps|);
    s', since' := v.states[|v.steps|], v.states[v.commit].shared.now;
  }

  /** Such a session keeps its member throughout, across reloads and other traffic: each of its
      requests is served by it. */
  lemma {:induction false} SessionKeepsMember(cfg: Config, s: System, visits: seq<Visit>, i: nat,
                                              session: string, id: string, since: int)
    requires On(cfg) && Inv(cfg, s) && session != "" && i < |visits|
    requires PinnedTo(s, session, id, since)
    requires Sequential(cfg, s, visits, session, id, since)
    ensures KeptBy(visits[i], id)
    decreases i
  {
    var s', since' := FirstVisit(cfg, s, visits, session, id, since);
    if 0 < i {
      SessionKeepsMember(cfg, s', visits[1..], i - 1, session, id, since');
    }
  }

  /** Whatever failed before, a commit pins the session to the member that answered last. */
  lemma CommitPinsAnswerer(cfg: Config, s: System, r: nat)
    requires On(cfg) && Inv(cfg, s)
    requires Apply(cfg, s, Act(r, Finish(true))).Some? && s.reqs[r].session != ""
    ensures var tries := s.reqs[r].tries;
            && tries != [] && !FailsOver(cfg.lib, tries[|tries| - 1].outcome)
            && PinnedTo(Apply(cfg, s, Act(r, Finish(true))).value, s.reqs[r].session,
                        tries[|tries| - 1].member.id, s.shared.now)
  {
  }

  // ----- One call ------------------------------------------------------------------------------

  /** The circumstances of a call in which the pinned member is expected to serve it: the pin is
      live and can be read and renewed, the pool lists the member as enabled, the cooldown read does
      not rule it out, and what the pool's member answers to the first attempt is none to fail over. */
  ghost predicate Favourable(cfg: Config, s: System, call: Call, id: string, since: int) {
    && On(cfg) && call.session != "" && call.r !in s.reqs
    && PinnedTo(s, call.session, id, since) && s.shared.now < since + HOUR
    && call.turns(0).upSticky && call.turns(0).upPin
    && (exists m :: m in s.active && m.id == id && m.IsEnabled())
    && !(call.turns(0).upRead && Live(s.shared.keys, CoolKey(id), s.shared.now))
    && forall m, outcome | m in s.active && m.id == id && FromMember(call, 0, m, outcome) ::
         !FailsOver(cfg.lib, outcome)
  }

  /** The request is on its way to the member, in its first attempt, or has been served by it. */
  ghost predicate OnItsWay(l: Local, members: seq<Member>, session: string, id: string) {
    && l.members == members && l.session == session && l.attempt == 0
    && match l.phase
       case Top => l.tried == {} && l.tries == [] && exists m :: m in members && m.id == id && m.IsEnabled()
       case Filtered(healthy) =>
         l.tries == [] && (forall m | m in healthy :: m in members) && exists m :: m in healthy && m.id == id
       case Sending(m) => l.tries == [] && m in members && m.id == id
       case Finishing(m, _, _) => |l.tries| == 1 && l.tries[0].member.id == id && m.id == id
       case Copying(m, _, _) => |l.tries| == 1 && l.tries[0].member.id == id && m.id == id
       case Done(Served(m, _, _, _)) => |l.tries| == 1 && l.tries[0].member.id == id && m == id
       case _ => false
  }

  /** Until the commit the store is as it was; from then on it holds the renewed pin. */
  ghost predicate PinState(s: System, call: Call, l: Local, sh: Shared, waited: bool, id: string) {
    var wait := if waited then call.turns(0).wait else 0;
    && sh.now == s.shared.now + wait
    && (if l.phase.Copying? || l.phase.Done?
        then EntryOf(sh.keys, StickyKey(call.session)) == Some(Entry(id, Some(sh.now + HOUR)))
        else sh.keys == s.shared.keys)
  }

  predicate Waited(l: Local, last: Step) {
    !(l.phase.Top? || l.phase.Filtered?) && (l.phase.Sending? ==> last.Tick?)
  }

  lemma FirstSteps(cfg: Config, s: System, call: Call, l: Local, sh: Shared, a: Action, id: string, since: int)
    requires Favourable(cfg, s, call, id, since) && LocalStep(cfg, l, sh, a).Some?
    requires OnItsWay(l, s.active, call.session, id) && (l.phase.Top? || l.phase.Filtered?)
    requires PinState(s, call, l, sh, false, id)
    requires a.Read? ==> a.up == call.turns(0).upRead
    requires a.Choose? ==> a.up == call.turns(0).upSticky
    ensures var (l', sh') := LocalStep(cfg, l, sh, a).value;
            OnItsWay(l', s.active, call.session, id) && sh' == sh && (l'.phase.Filtered? || l'.phase.Sending?)
  {
    match l.phase
    case Top =>
      HealthyAtTop(l, sh, cfg.hasStore && a.up);
      MemberIsHealthy(l, sh, cfg.hasStore && a.up, id);
    case Filtered(healthy) =>
      ChosenIsHealthy(healthy, Some(id), DrawOf(cfg, l, a.roll));
  }

  lemma LastSteps(cfg: Config, s: System, call: Call, l: Local, sh: Shared, a: Action, id: string, since: int)
    requires Favourable(cfg, s, call, id, since) && LocalStep(cfg, l, sh, a).Some?
    requires OnItsWay(l, s.active, call.session, id) && !l.phase.Top? && !l.phase.Filtered?
    requires PinState(s, call, l, sh, true, id)
    requires l.phase.Sending? ==> a.Upstream? && FromMember(call, 0, l.phase.member, a.outcome)
    requires a.Finish? ==> a.up == call.turns(0).upPin
    ensures var (l', sh') := LocalStep(cfg, l, sh, a).value;
            OnItsWay(l', s.active, call.session, id) && PinState(s, call, l', sh', true, id) && !l'.phase.Sending?
            && !l'.phase.Top? && !l'.phase.Filtered?
  {
  }

  lemma {:induction false} CallOnItsWay(cfg: Config, s: System, call: Call, steps: seq<Step>, id: string, since: int)
    requires Favourable(cfg, s, call, id, since)
    requires Follows(cfg, s, call, steps) && Run(cfg, s, steps).Some?
    ensures var t := Run(cfg, s, steps).value;
            && call.r in t.reqs && OnItsWay(t.reqs[call.r], s.active, call.session, id)
            && PinState(s, call, t.reqs[call.r], t.shared, Waited(t.reqs[call.r], Last(steps)), id)
  {
    if |steps| == 1 {
      assert Front(steps) == [];
    } else {
      CallOnItsWay(cfg, s, call, Front(steps), id, since);
      LastObeys(cfg, s, call, steps);
      var t, step := Run(cfg, s, Front(steps)).value, Last(steps);
      if step.Act? {
        var l := t.reqs[call.r];
        if l.phase.Top? || l.phase.Filtered? {
          FirstSteps(cfg, s, call, l, t.shared, step.action, id, since);
        } else {
          LastSteps(cfg, s, call, l, t.shared, step.action, id, since);
        }
      }
    }
  }

  /** In favourable circumstances a call is served by the pinned member, at the first attempt, and
      leaves the pin renewed, so that the next call can find the same circumstances. */
  lemma PinnedCallKeepsMember(cfg: Config, s: System, call: Call, steps: seq<Step>, l: Local, sh: Shared,
                              id: string, since: int)
    requires Favourable(cfg, s, call, id, since)
    requires Reached(cfg, s, call, steps, l, sh) && l.phase.Done?
    ensures |l.tries| == 1 && l.tries[0].member.id == id && l.phase.reply.Served? && l.phase.reply.member == id
    ensures sh.now == s.shared.now + call.turns(0).wait
    ensures PinnedTo(With(s, call.r, l, sh), call.session, id, sh.now)
    ensures forall t :: Pinned(sh.keys, call.session, t) ==
                        if t < sh.now + 3_600_000_000_000 then Some(id) else None
  {
    CallOnItsWay(cfg, s, call, steps, id, since);
    assert With(s, call.r, l, sh).reqs[call.r] == l;
  }
}
