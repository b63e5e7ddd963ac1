/** One call of the handler as a run of the request machine in which a single request takes all the
    steps: what the call meets decides every label of the run. */
module Calls {
  import opened Wrappers
  import opened Pools
  import opened Store
  import opened Forwarder
  import opened Stream
  import opened Machine
  import opened Requests

  /** What one attempt meets: whether each store operation gets an answer, the random draw, how
      long the upstream takes, and how the writes to the client go. */
  datatype Turn = Turn(upRead: bool, upSticky: bool, roll: nat, wait: nat, upCool: bool, upPin: bool,
                       fates: nat -> Option<nat>)

  /** A call: who makes it, its body, what each attempt meets, and the upstream, which answers an
      attempt on a member with a rewritten body. */
  datatype Call = Call(r: nat, session: string, client: string, body: string,
                       turns: nat -> Turn, upstream: (nat, Member, string) -> Outcome)

  /** The outcome of an attempt is what the upstream answers to the body rewritten for its member,
      in some order of the member's model map. */
  ghost predicate FromMember(call: Call, attempt: nat, m: Member, outcome: Outcome) {
    exists order :: IsOrder(order, m.modelMap.Keys)
                    && outcome == call.upstream(attempt, m, RewriteInOrder(call.body, m.modelMap, order))
  }

  ghost predicate FromUpstream(call: Call, tries: seq<Try>) {
    forall i | 0 <= i < |tries| :: FromMember(call, i, tries[i].member, tries[i].outcome)
  }

  /** The reads a committed body comes in: as the upstream sends it, or from memory. */
  function ScriptOf(resp: Response, streamed: bool): seq<Read> {
    if streamed then resp.script else Chunks(resp.Body())
  }

  /** The step the call takes next, from where its request is and the step before: the label is the
      one that this attempt's turn and the upstream give it. */
  ghost predicate Obeys(call: Call, l: Local, last: Step, step: Step) {
    var turn := call.turns(l.attempt);
    match l.phase
    case Top => step == Act(call.r, Action.Read(turn.upRead))
    case Filtered(_) => step == Act(call.r, Action.Choose(turn.upSticky, turn.roll))
    case Sending(m) =>
      if last.Tick? then
        && step.Act? && step.r == call.r && step.action.Upstream?
        && FromMember(call, l.attempt, m, step.action.outcome)
      else step == Tick(turn.wait)
    case Cooling(_, _, _, _) => step == Act(call.r, Cool(turn.upCool))
    case Finishing(_, _, _) => step == Act(call.r, Action.Finish(turn.upPin))
    case Copying(_, resp, streamed) =>
      step == Act(call.r, Copy(EndOf(ScriptOf(resp, streamed), turn.fates, 0, 0)))
    case Done(_) => false
  }

  function Last(steps: seq<Step>): Step
    requires steps != []
  {
    steps[|steps| - 1]
  }

  function Front(steps: seq<Step>): seq<Step>
    requires steps != []
  {
    steps[..|steps| - 1]
  }

  /** The steps are those of the call, from its arrival on. */
  ghost predicate Follows(cfg: Config, s: System, call: Call, steps: seq<Step>) {
    && steps != []
    && if |steps| == 1 then steps[0] == Arrive(call.r, call.session, call.client)
       else
         var t := Run(cfg, s, Front(steps));
         && Follows(cfg, s, call, Front(steps))
         && t.Some? && call.r in t.value.reqs
         && Obeys(call, t.value.reqs[call.r], Last(Front(steps)), Last(steps))
  }

  /** The system s with request r and the shared state replaced. */
  ghost function With(s: System, r: nat, l: Local, sh: Shared): System {
    System(s.active, s.reqs[r := l], sh)
  }

  /** After these steps of the call its request is l and the shared state sh; nothing else in the
      system has changed. */
  ghost predicate Reached(cfg: Config, s: System, call: Call, steps: seq<Step>, l: Local, sh: Shared) {
    Run(cfg, s, steps) == Some(With(s, call.r, l, sh)) && Follows(cfg, s, call, steps)
  }

  // ----- The steps of a call -------------------------------------------------------------------

  lemma Arrives(cfg: Config, s: System, call: Call)
    requires call.r !in s.reqs
    ensures Reached(cfg, s, call, [Arrive(call.r, call.session, call.client)],
                    Begin(s.active, call.session, call.client), s.shared)
  {
    var steps := [Arrive(call.r, call.session, call.client)];
    assert Front(steps) == [];
  }

  lemma Advance(cfg: Config, s: System, call: Call, steps: seq<Step>, l: Local, sh: Shared, a: Action)
    requires Reached(cfg, s, call, steps, l, sh)
    requires LocalStep(cfg, l, sh, a).Some? && Obeys(call, l, Last(steps), Act(call.r, a))
    ensures var (l', sh') := LocalStep(cfg, l, sh, a).value;
            Reached(cfg, s, call, steps + [Act(call.r, a)], l', sh')
  {
    assert Front(steps + [Act(call.r, a)]) == steps;
    var (l', sh') := LocalStep(cfg, l, sh, a).value;
    assert s.reqs[call.r := l][call.r := l'] == s.reqs[call.r := l'];
  }

  lemma Waits(cfg: Config, s: System, call: Call, steps: seq<Step>, l: Local, sh: Shared)
    requires Reached(cfg, s, call, steps, l, sh)
    requires l.phase.Sending? && !Last(steps).Tick?
    ensures var d := call.turns(l.attempt).wait;
            Reached(cfg, s, call, steps + [Tick(d)], l, sh.(now := sh.now + d))
  {
    assert Front(steps + [Tick(call.turns(l.attempt).wait)]) == steps;
  }

  /** The send: time passes, then the upstream's answer is there. */
  lemma Answers(cfg: Config, s: System, call: Call, steps: seq<Step>, l: Local, sh: Shared,
                m: Member, wait: nat, outcome: Outcome, l': Local, sh': Shared)
    requires Reached(cfg, s, call, steps, l, sh)
    requires l.phase == Sending(m) && !Last(steps).Tick?
    requires wait == call.turns(l.attempt).wait && FromMember(call, l.attempt, m, outcome)
    requires LocalStep(cfg, l, sh.(now := sh.now + wait), Upstream(outcome)) == Some((l', sh'))
    ensures Reached(cfg, s, call, steps + [Tick(wait)] + [Act(call.r, Upstream(outcome))], l', sh')
  {
    Waits(cfg, s, call, steps, l, sh);
    Advance(cfg, s, call, steps + [Tick(wait)], l, sh.(now := sh.now + wait), Upstream(outcome));
  }

  // ----- What a call does ----------------------------------------------------------------------

  /** Every prefix of a call is a run, and a call so far. */
  lemma {:induction false} PrefixOfCall(cfg: Config, s: System, call: Call, steps: seq<Step>, k: nat)
    requires Follows(cfg, s, call, steps) && Run(cfg, s, steps).Some? && 1 <= k <= |steps|
    ensures Follows(cfg, s, call, steps[..k]) && Run(cfg, s, steps[..k]).Some?
    decreases |steps|
  {
    if k == |steps| {
      assert steps[..k] == steps;
    } else {
      PrefixOfCall(cfg, s, call, Front(steps), k);
      assert Front(steps)[..k] == steps[..k];
    }
  }

  /** How many sends have returned: one for each attempt counted, and the one being dealt with. */
  ghost predicate Counted(l: Local) {
    |l.tries| == l.attempt + if Uncounted(l.phase) && !l.phase.Sending? then 1 else 0
  }

  lemma StepKeepsAnswers(cfg: Config, call: Call, l: Local, sh: Shared, a: Action)
    requires LocalStep(cfg, l, sh, a).Some? && FromUpstream(call, l.tries) && Counted(l)
    requires a.Upstream? && l.phase.Sending? ==> FromMember(call, l.attempt, l.phase.member, a.outcome)
    ensures var l' := LocalStep(cfg, l, sh, a).value.0; FromUpstream(call, l'.tries) && Counted(l')
  {
  }

  lemma LastObeys(cfg: Config, s: System, call: Call, steps: seq<Step>)
    requires |steps| > 1 && Follows(cfg, s, call, steps)
    ensures var t := Run(cfg, s, Front(steps));
            && Follows(cfg, s, call, Front(steps)) && t.Some? && call.r in t.value.reqs
            && Obeys(call, t.value.reqs[call.r], Last(Front(steps)), Last(steps))
  {
  }

  lemma ActOfCall(cfg: Config, t: System, r: nat, a: Action)
    requires r in t.reqs && Apply(cfg, t, Act(r, a)).Some?
    ensures LocalStep(cfg, t.reqs[r], t.shared, a).Some?
    ensures var t' := Apply(cfg, t, Act(r, a)).value;
            r in t'.reqs && t'.reqs[r] == LocalStep(cfg, t.reqs[r], t.shared, a).value.0
  {
  }

  lemma StepKeepsOrigin(cfg: Config, l: Local, sh: Shared, a: Action)
    requires LocalStep(cfg, l, sh, a).Some?
    ensures var l' := LocalStep(cfg, l, sh, a).value.0; l'.members == l.members && l'.session == l.session
  {
  }

  /** The request of a call keeps what it arrived with, and every outcome it records is the
      upstream's answer to that attempt on that member. */
  lemma {:induction false} OutcomesAreAnswers(cfg: Config, s: System, call: Call, steps: seq<Step>)
    requires call.r !in s.reqs
    requires Follows(cfg, s, call, steps) && Run(cfg, s, steps).Some?
    ensures var t := Run(cfg, s, steps).value;
            && call.r in t.reqs && Counted(t.reqs[call.r]) && FromUpstream(call, t.reqs[call.r].tries)
            && t.reqs[call.r].members == s.active && t.reqs[call.r].session == call.session
  {
    if |steps| == 1 {
      assert Front(steps) == [];
    } else {
      OutcomesAreAnswers(cfg, s, call, Front(steps));
      LastObeys(cfg, s, call, steps);
      var t, step := Run(cfg, s, Front(steps)).value, Last(steps);
      if step.Act? {
        ActOfCall(cfg, t, call.r, step.action);
        StepKeepsAnswers(cfg, call, t.reqs[call.r], t.shared, step.action);
        StepKeepsOrigin(cfg, t.reqs[call.r], t.shared, step.action);
      }
    }
  }

  lemma TriesAreAnswers(cfg: Config, s: System, call: Call, steps: seq<Step>, l: Local, sh: Shared)
    requires call.r !in s.reqs && Reached(cfg, s, call, steps, l, sh)
    ensures FromUpstream(call, l.tries)
  {
    OutcomesAreAnswers(cfg, s, call, steps);
    assert With(s, call.r, l, sh).reqs[call.r] == l;
  }

  /** The label of a step of the call is the one that this turn gives it. */
  ghost predicate OfTurn(call: Call, turn: Turn, step: Step) {
    match step
    case Tick(d) => d == turn.wait
    case Act(r, action) =>
      r == call.r && (
        match action
        case Read(up) => up == turn.upRead
        case Choose(up, roll) => up == turn.upSticky && roll == turn.roll
        case Cool(up) => up == turn.upCool
        case Finish(up) => up == turn.upPin
        case _ => true)
    case _ => false
  }

  lemma {:induction false} LabelsAreOfTurns(cfg: Config, s: System, call: Call, steps: seq<Step>, i: nat)
    requires Follows(cfg, s, call, steps) && 0 < i < |steps|
    ensures exists n: nat :: OfTurn(call, call.turns(n), steps[i])
  {
    if i == |steps| - 1 {
      var t := Run(cfg, s, Front(steps)).value;
      assert OfTurn(call, call.turns(t.reqs[call.r].attempt), Last(steps));
    } else {
      LabelsAreOfTurns(cfg, s, call, Front(steps), i);
    }
  }

  // ----- A call is determined by what it meets -------------------------------------------------

  /** The upstream has one answer to each attempt on each of the members, whatever the order in which
      the body was rewritten. */
  ghost predicate OneAnswerEach(call: Call, members: seq<Member>) {
    forall m, attempt: nat, o1, o2
      | m in members && FromMember(call, attempt, m, o1) && FromMember(call, attempt, m, o2) :: o1 == o2
  }

  /** It has if the model maps are order-free, and also if its answers do not depend on the body. */
  lemma OneAnswerSuffices(call: Call, members: seq<Member>)
    ensures (forall m | m in members :: OrderFree(m.modelMap)) ==> OneAnswerEach(call, members)
    ensures (forall attempt, m, b, b' :: call.upstream(attempt, m, b) == call.upstream(attempt, m, b')) ==>
              OneAnswerEach(call, members)
  {
  }

  lemma OneNextStep(call: Call, l: Local, last: Step, a: Step, b: Step)
    requires Obeys(call, l, last, a) && Obeys(call, l, last, b)
    requires l.phase.Sending? ==> OneAnswerEach(call, [l.phase.member])
    ensures a == b
  {
    if l.phase.Sending? && last.Tick? {
      assert l.phase.member in [l.phase.member];
    }
  }

  lemma {:induction false} CallsAgree(cfg: Config, s: System, call: Call, steps1: seq<Step>, steps2: seq<Step>, k: nat)
    requires Inv(cfg, s) && call.r !in s.reqs && OneAnswerEach(call, s.active)
    requires Follows(cfg, s, call, steps1) && Run(cfg, s, steps1).Some?
    requires Follows(cfg, s, call, steps2) && Run(cfg, s, steps2).Some?
    requires 1 <= k <= |steps1| && k <= |steps2|
    ensures steps1[..k] == steps2[..k]
  {
    PrefixOfCall(cfg, s, call, steps1, k);
    PrefixOfCall(cfg, s, call, steps2, k);
    if k != 1 {
      CallsAgree(cfg, s, call, steps1, steps2, k - 1);
      assert Front(steps1[..k]) == steps1[..k - 1] && Front(steps2[..k]) == steps2[..k - 1];
      LastStepsAgree(cfg, s, call, steps1[..k], steps2[..k]);
    }
  }

  lemma LastStepsAgree(cfg: Config, s: System, call: Call, steps1: seq<Step>, steps2: seq<Step>)
    requires Inv(cfg, s) && call.r !in s.reqs && OneAnswerEach(call, s.active)
    requires |steps1| > 1 && |steps2| > 1 && Front(steps1) == Front(steps2)
    requires Follows(cfg, s, call, steps1) && Follows(cfg, s, call, steps2)
    ensures steps1 == steps2
  {
    LastObeys(cfg, s, call, steps1);
    LastObeys(cfg, s, call, steps2);
    var front := Front(steps1);
    SentForOneAnswer(cfg, s, call, front);
    OneNextStep(call, Run(cfg, s, front).value.reqs[call.r], Last(front), Last(steps1), Last(steps2));
    FrontAndLast(steps1);
    FrontAndLast(steps2);
  }

  lemma FrontAndLast(steps: seq<Step>)
    requires steps != []
    ensures steps == Front(steps) + [Last(steps)]
  {
  }

  lemma SentForOneAnswer(cfg: Config, s: System, call: Call, steps: seq<Step>)
    requires Inv(cfg, s) && call.r !in s.reqs && OneAnswerEach(call, s.active)
    requires Follows(cfg, s, call, steps) && Run(cfg, s, steps).Some?
    ensures call.r in Run(cfg, s, steps).value.reqs
    ensures var phase := Run(cfg, s, steps).value.reqs[call.r].phase;
            phase.Sending? ==> OneAnswerEach(call, [phase.member])
  {
    OutcomesAreAnswers(cfg, s, call, steps);
    RunKeepsInv(cfg, s, steps);
  }

  /** A call takes no step after its reply. */
  lemma NothingAfterDone(cfg: Config, s: System, call: Call, steps: seq<Step>, n: nat)
    requires Follows(cfg, s, call, steps) && Run(cfg, s, steps).Some? && 1 <= n < |steps|
    ensures var t := Run(cfg, s, steps[..n]);
            t.Some? && call.r in t.value.reqs && !t.value.reqs[call.r].phase.Done?
  {
    PrefixOfCall(cfg, s, call, steps, n + 1);
    assert Front(steps[..n + 1]) == steps[..n];
    LastObeys(cfg, s, call, steps[..n + 1]);
  }

  /** Two finished calls of the same kind that meet the same are the same run: same picks, same
      attempts, same reply, same counters, same keys. */
  lemma CallIsDetermined(cfg: Config, s: System, call: Call, steps1: seq<Step>, l1: Local, sh1: Shared,
                         steps2: seq<Step>, l2: Local, sh2: Shared)
    requires Inv(cfg, s) && call.r !in s.reqs && OneAnswerEach(call, s.active)
    requires Reached(cfg, s, call, steps1, l1, sh1) && l1.phase.Done?
    requires Reached(cfg, s, call, steps2, l2, sh2) && l2.phase.Done?
    ensures steps1 == steps2 && l1 == l2 && sh1 == sh2
  {
    if |steps1| <= |steps2| {
      DoneCallsAgree(cfg, s, call, steps1, l1, sh1, steps2, l2, sh2);
    } else {
      DoneCallsAgree(cfg, s, call, steps2, l2, sh2, steps1, l1, sh1);
    }
  }

  lemma DoneCallsAgree(cfg: Config, s: System, call: Call, steps1: seq<Step>, l1: Local, sh1: Shared,
                       steps2: seq<Step>, l2: Local, sh2: Shared)
    requires Inv(cfg, s) && call.r !in s.reqs && OneAnswerEach(call, s.active)
    requires Reached(cfg, s, call, steps1, l1, sh1) && l1.phase.Done?
    requires Reached(cfg, s, call, steps2, l2, sh2)
    requires |steps1| <= |steps2|
    ensures steps1 == steps2 && l1 == l2 && sh1 == sh2
  {
    var n := |steps1|;
    CallsAgree(cfg, s, call, steps1, steps2, n);
    assert steps1[..n] == steps1;
    var t1, t2 := With(s, call.r, l1, sh1), With(s, call.r, l2, sh2);
    assert t1.reqs[call.r] == l1 && t2.reqs[call.r] == l2;
    if n < |steps2| {
      NothingAfterDone(cfg, s, call, steps2, n);
      assert false;
    }
    assert steps2[..n] == steps2;
  }

  // ----- Every call comes to an end ------------------------------------------------------------

  /** The answer to an attempt on a member when its model map is visited in this order. */
  function AnswerTo(call: Call, attempt: nat, m: Member, order: seq<string>): Outcome
    requires forall k | k in order :: k in m.modelMap
  {
    call.upstream(attempt, m, RewriteInOrder(call.body, m.modelMap, order))
  }

  /** The action an unfinished request takes next in the call, but for the wait before the answer. */
  ghost function NextAction(call: Call, l: Local): (a: Action)
    requires !l.phase.Done?
    ensures l.phase.Sending? ==> a.Upstream? && FromMember(call, l.attempt, l.phase.member, a.outcome)
  {
    var turn := call.turns(l.attempt);
    match l.phase
    case Top => Action.Read(turn.upRead)
    case Filtered(_) => Action.Choose(turn.upSticky, turn.roll)
    case Sending(m) => Upstream(AnswerTo(call, l.attempt, m, SomeOrder(m.modelMap.Keys)))
    case Cooling(_, _, _, _) => Cool(turn.upCool)
    case Finishing(_, _, _) => Action.Finish(turn.upPin)
    case Copying(_, resp, streamed) => Copy(EndOf(ScriptOf(resp, streamed), turn.fates, 0, 0))
  }

  lemma NextActionIsPossible(cfg: Config, call: Call, l: Local, sh: Shared)
    requires LocalInv(cfg, l) && !l.phase.Done?
    ensures LocalStep(cfg, l, sh, NextAction(call, l)).Some?
  {
    if l.phase.Copying? {
      var resp, streamed := l.phase.response, l.phase.streamed;
      EndOfFits(ScriptOf(resp, streamed), call.turns(l.attempt).fates);
      ChunksDeliverBody(resp.Body());
    }
  }

  /** The steps a call may still take: the wait before an answer counts as half a step. */
  ghost function StepsLeft(steps: seq<Step>, l: Local): int
    requires steps != []
  {
    2 * Rank(l) + if Last(steps).Tick? then 0 else 1
  }

  lemma CallPauses(cfg: Config, s: System, call: Call, steps: seq<Step>, l: Local, sh: Shared)
    returns (steps': seq<Step>, sh': Shared)
    requires Reached(cfg, s, call, steps, l, sh) && l.phase.Sending? && !Last(steps).Tick?
    ensures Reached(cfg, s, call, steps', l, sh')
    ensures StepsLeft(steps', l) < StepsLeft(steps, l)
  {
    Waits(cfg, s, call, steps, l, sh);
    var d := call.turns(l.attempt).wait;
    steps', sh' := steps + [Tick(d)], sh.(now := sh.now + d);
  }

  lemma CallActs(cfg: Config, s: System, call: Call, steps: seq<Step>, l: Local, sh: Shared)
    returns (steps': seq<Step>, l': Local, sh': Shared)
    requires Reached(cfg, s, call, steps, l, sh) && LocalInv(cfg, l) && !l.phase.Done?
    requires l.phase.Sending? ==> Last(steps).Tick?
    ensures Reached(cfg, s, call, steps', l', sh') && LocalInv(cfg, l') && 0 <= Rank(l')
    ensures StepsLeft(steps', l') < StepsLeft(steps, l)
  {
    var a := NextAction(call, l);
    NextActionIsPossible(cfg, call, l, sh);
    var (next, nextSh) := LocalStep(cfg, l, sh, a).value;
    Advance(cfg, s, call, steps, l, sh, a);
    StepLowersRank(cfg, l, sh, a);
    StepKeepsInv(cfg, l, sh, a);
    steps', l', sh' := steps + [Act(call.r, a)], next, nextSh;
  }

  /** From any point of a call its run can be completed. */
  lemma {:induction false} CallGoesOn(cfg: Config, s: System, call: Call, steps: seq<Step>, l: Local, sh: Shared)
    returns (steps': seq<Step>, l': Local, sh': Shared)
    requires Reached(cfg, s, call, steps, l, sh) && LocalInv(cfg, l) && 0 <= Rank(l)
    ensures Reached(cfg, s, call, steps', l', sh') && l'.phase.Done?
    decreases StepsLeft(steps, l)
  {
    steps', l', sh' := steps, l, sh;
    if l.phase.Sending? && !Last(steps).Tick? {
      steps', sh' := CallPauses(cfg, s, call, steps, l, sh);
      steps', l', sh' := CallGoesOn(cfg, s, call, steps', l, sh');
    } else if !l.phase.Done? {
      steps', l', sh' := CallActs(cfg, s, call, steps, l, sh);
      steps', l', sh' := CallGoesOn(cfg, s, call, steps', l', sh');
    }
  }

  /** For every state, every upstream, every pattern of store answers and every client there is a
      run in which the call gets its reply. */
  lemma CallFinishes(cfg: Config, s: System, call: Call) returns (steps: seq<Step>, l: Local, sh: Shared)
    requires call.r !in s.reqs
    ensures Reached(cfg, s, call, steps, l, sh) && l.phase.Done?
  {
    Arrives(cfg, s, call);
    var first := Begin(s.active, call.session, call.client);
    assert SentTo(first) == [];
    steps, l, sh := CallGoesOn(cfg, s, call, [Arrive(call.r, call.session, call.client)], first, s.shared);
  }
}
