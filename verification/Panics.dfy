/** Exactly when a request can end without any response: the random choice panics on weights whose
    sum does not fit 64 bits. */
module Panics {
  import opened Wrappers
  import opened Pools
  import opened Selection
  import opened Store
  import opened Detector
  import opened Routing
  import opened Machine
  import opened Requests
  import opened Calls

  // ----- The weight that is left ---------------------------------------------------------------

  ghost predicate Heavy(ms: seq<Member>) {
    LIMIT <= Sum(WeightsOf(ms))
  }

  /** The enabled members the request has not tried. */
  ghost function Untried(l: Local): seq<Member> {
    Keep(Keep(l.members, NotTried(l.tried)), Enabled())
  }

  function OtherThan(id: string): Member -> bool {
    (m: Member) => m.id != id
  }

  lemma UnreadableIsEnabled(ms: seq<Member>, keys: Keys, now: int)
    ensures Healthy(ms, keys, now, false) == Keep(ms, Enabled())
  {
    var p := (m: Member) => IsHealthy(m, keys, now, false);
    KeepTwice(ms, p, (m: Member) => true, Enabled());
    KeepTwice(ms, p, (m: Member) => true, p);
  }

  lemma {:induction false} KeepAll(ms: seq<Member>, p: Member -> bool)
    requires forall m | m in ms :: p(m)
    ensures Keep(ms, p) == ms
  {
    if ms != [] {
      var front, last := ms[..|ms| - 1], ms[|ms| - 1];
      assert ms == front + [last];
      KeepAll(front, p);
    }
  }

  lemma WeightWithoutLast(front: seq<Member>, last: Member)
    requires forall x | x in front :: x.id != last.id
    ensures Sum(WeightsOf(Keep(front + [last], OtherThan(last.id)))) == Sum(WeightsOf(front + [last])) - last.weight
  {
    SumSnoc(front, last);
    KeepSnoc(front, last, OtherThan(last.id));
    KeepAll(front, OtherThan(last.id));
    assert front + [] == front;
  }

  /** One member less leaves its weight less. */
  lemma {:induction false} WeightWithout(ms: seq<Member>, m: Member)
    requires DistinctIds(ms) && m in ms
    ensures Sum(WeightsOf(Keep(ms, OtherThan(m.id)))) == Sum(WeightsOf(ms)) - m.weight
  {
    var front, last := ms[..|ms| - 1], ms[|ms| - 1];
    assert ms == front + [last];
    if last == m {
      WeightWithoutLast(front, last);
    } else {
      WeightWithout(front, m);
      SumSnoc(front, last);
      assert last.id != m.id;
      KeepSnoc(front, last, OtherThan(m.id));
      SumSnoc(Keep(front, OtherThan(m.id)), last);
    }
  }

  lemma UntriedAfter(l: Local, l': Local, id: string)
    requires l'.members == l.members && l'.tried == l.tried + {id}
    ensures Untried(l') == Keep(Untried(l), OtherThan(id))
  {
    var left := (m: Member) => m.id !in l.tried && m.IsEnabled();
    var left' := (m: Member) => m.id !in l'.tried && m.IsEnabled();
    KeepTwice(l.members, NotTried(l.tried), Enabled(), left);
    KeepTwice(l.members, NotTried(l'.tried), Enabled(), left');
    KeepTwice(l.members, left, OtherThan(id), left');
  }

  lemma UntriedIsProportional(l: Local)
    requires Proportional(l.members)
    ensures Proportional(Untried(l))
  {
    KeepIsProportional(l.members, NotTried(l.tried));
    KeepIsProportional(Keep(l.members, NotTried(l.tried)), Enabled());
  }

  // ----- A request that keeps failing ----------------------------------------------------------

  /** The request still has too much weight before it, or has panicked over it. */
  ghost predicate Overweight(l: Local) {
    match l.phase
    case Filtered(healthy) => healthy == Untried(l) && Heavy(healthy)
    case Finishing(_, _, _) => false
    case Copying(_, _, _) => false
    case Done(reply) => reply == Aborted
    case _ => Heavy(Untried(l))
  }

  lemma TopStaysOverweight(cfg: Config, l: Local, sh: Shared, up: bool)
    requires LocalInv(cfg, l) && l.phase.Top? && Overweight(l) && !(cfg.hasStore && up)
    ensures Overweight(AtTop(cfg, l, sh, up))
  {
    var candidates := Keep(l.members, NotTried(l.tried));
    UnreadableIsEnabled(candidates, sh.keys, sh.now);
    SendsAreBounded(cfg, l);
    KeepMembership(l.members, NotTried(l.tried));
    KeepMembership(candidates, Enabled());
    assert Untried(l) != [];
    assert Untried(l)[0] in Untried(l);
  }

  /** A draw on a total that is positive, though the sum is too large, leaves too large a sum. */
  lemma PickLeavesOverweight(l: Local, l': Local, m: Member)
    requires Proportional(l.members) && Heavy(Untried(l)) && 0 < CodeTotal(WeightsOf(Untried(l)))
    requires m in Untried(l) && l'.members == l.members && l'.tried == l.tried + {m.id}
    ensures Heavy(Untried(l'))
  {
    UntriedIsProportional(l);
    UntriedAfter(l, l', m.id);
    WeightWithout(Untried(l), m);
  }

  lemma ChooseStaysOverweight(cfg: Config, l: Local, sh: Shared, a: Action)
    requires l.phase.Filtered? && LocalStep(cfg, l, sh, a).Some?
    requires Overweight(l) && l.session == "" && Proportional(l.members)
    ensures Overweight(LocalStep(cfg, l, sh, a).value.0)
  {
    var l' := LocalStep(cfg, l, sh, a).value.0;
    ChosenIsHealthy(l.phase.healthy, PinSeen(cfg, l, sh, a.up), DrawOf(cfg, l, a.roll));
    if l'.phase.Sending? {
      PickLeavesOverweight(l, l', l'.phase.member);
    }
  }

  lemma StepStaysOverweight(cfg: Config, l: Local, sh: Shared, a: Action)
    requires LocalInv(cfg, l) && LocalStep(cfg, l, sh, a).Some?
    requires Overweight(l) && l.session == "" && Proportional(l.members)
    requires a.Read? ==> !(cfg.hasStore && a.up)
    requires a.Upstream? ==> FailsOver(cfg.lib, a.outcome)
    ensures Overweight(LocalStep(cfg, l, sh, a).value.0)
  {
    match l.phase
    case Top => TopStaysOverweight(cfg, l, sh, a.up);
    case Filtered(_) => ChooseStaysOverweight(cfg, l, sh, a);
    case Sending(_) =>
      if a.outcome.Answer? {
        var resp := a.outcome.response;
        StreamedNeverFailsOver(cfg.lib.text, resp.status, resp.Body(), resp.header);
      }
    case _ =>
  }

  /** A call without a session on a pool whose enabled members weigh too much together, with no
      readable cooldown keys, and an upstream that fails every attempt on them. */
  ghost predicate Hopeless(cfg: Config, s: System, call: Call) {
    && call.r !in s.reqs && call.session == ""
    && Proportional(s.active) && Heavy(Keep(s.active, Enabled()))
    && (forall n :: !(cfg.hasStore && call.turns(n).upRead))
    && forall m, attempt: nat, outcome | m in s.active && FromMember(call, attempt, m, outcome) ::
         FailsOver(cfg.lib, outcome)
  }

  lemma HopelessArrival(cfg: Config, s: System, call: Call)
    requires Hopeless(cfg, s, call)
    ensures var l := Begin(s.active, call.session, call.client); LocalInv(cfg, l) && Overweight(l)
  {
    var l := Begin(s.active, call.session, call.client);
    KeepTwice(s.active, NotTried({}), Enabled(), Enabled());
    assert SentTo(l) == [];
  }

  lemma {:induction false} CallStaysOverweight(cfg: Config, s: System, call: Call, steps: seq<Step>)
    requires Hopeless(cfg, s, call)
    requires Follows(cfg, s, call, steps) && Run(cfg, s, steps).Some?
    ensures var t := Run(cfg, s, steps).value;
            && call.r in t.reqs && LocalInv(cfg, t.reqs[call.r]) && Overweight(t.reqs[call.r])
            && t.reqs[call.r].members == s.active && t.reqs[call.r].session == ""
  {
    if |steps| == 1 {
      assert Front(steps) == [];
      HopelessArrival(cfg, s, call);
    } else {
      LastObeys(cfg, s, call, steps);
      CallStaysOverweight(cfg, s, call, Front(steps));
      HopelessStep(cfg, s, call, Run(cfg, s, Front(steps)).value, Last(Front(steps)), Last(steps));
    }
  }

  lemma HopelessLabel(cfg: Config, s: System, call: Call, l: Local, last: Step, a: Action)
    requires Hopeless(cfg, s, call) && LocalInv(cfg, l) && l.members == s.active
    requires Obeys(call, l, last, Act(call.r, a))
    ensures a.Read? ==> !(cfg.hasStore && a.up)
    ensures a.Upstream? ==> FailsOver(cfg.lib, a.outcome)
  {
    if a.Upstream? {
      assert l.phase.member in s.active;
    }
  }

  lemma HopelessStep(cfg: Config, s: System, call: Call, t: System, last: Step, step: Step)
    requires Hopeless(cfg, s, call) && call.r in t.reqs && Obeys(call, t.reqs[call.r], last, step)
    requires t.reqs[call.r].members == s.active && t.reqs[call.r].session == ""
    requires LocalInv(cfg, t.reqs[call.r]) && Overweight(t.reqs[call.r]) && Apply(cfg, t, step).Some?
    ensures var t' := Apply(cfg, t, step).value;
            && call.r in t'.reqs && LocalInv(cfg, t'.reqs[call.r]) && Overweight(t'.reqs[call.r])
            && t'.reqs[call.r].members == s.active && t'.reqs[call.r].session == ""
  {
    if step.Act? {
      HopelessAct(cfg, s, call, t.reqs[call.r], t.shared, last, step.action);
      ActOfCall(cfg, t, call.r, step.action);
    } else {
      assert step.Tick?;
    }
  }

  lemma HopelessAct(cfg: Config, s: System, call: Call, l: Local, sh: Shared, last: Step, a: Action)
    requires Hopeless(cfg, s, call) && l.members == s.active && l.session == ""
    requires Obeys(call, l, last, Act(call.r, a))
    requires LocalInv(cfg, l) && Overweight(l) && LocalStep(cfg, l, sh, a).Some?
    ensures var l' := LocalStep(cfg, l, sh, a).value.0;
            LocalInv(cfg, l') && Overweight(l') && l'.members == s.active && l'.session == ""
  {
    HopelessLabel(cfg, s, call, l, last, a);
    StepKeepsInv(cfg, l, sh, a);
    StepStaysOverweight(cfg, l, sh, a);
    StepKeepsOrigin(cfg, l, sh, a);
  }

  /** Such a call ends in a panic, whatever its random draws are. */
  lemma HopelessCallPanics(cfg: Config, s: System, call: Call, steps: seq<Step>, l: Local, sh: Shared)
    requires Hopeless(cfg, s, call)
    requires Reached(cfg, s, call, steps, l, sh) && l.phase.Done?
    ensures l.phase.reply == Aborted
  {
    CallStaysOverweight(cfg, s, call, steps);
    assert With(s, call.r, l, sh).reqs[call.r] == l;
  }

  // ----- The exact condition -------------------------------------------------------------------

  /** Some run, from some start, ends a request on this pool in a panic. */
  ghost predicate CanPanic(cfg: Config, members: seq<Member>) {
    exists s, steps, r | Initial(s) && Run(cfg, s, steps).Some? && r in Run(cfg, s, steps).value.reqs ::
      && Run(cfg, s, steps).value.reqs[r].members == members
      && Run(cfg, s, steps).value.reqs[r].phase == Done(Aborted)
  }

  lemma OverflowIsHeavy(members: seq<Member>)
    requires Proportional(members) && Overflows(members)
    ensures Heavy(Keep(members, Enabled()))
  {
    var enabled := Keep(members, Enabled());
    var ms :| ms != [] && IsKept(ms, members) && CodeTotal(WeightsOf(ms)) < 0;
    var p :| ms == Keep(enabled, p);
    KeepIsProportional(members, Enabled());
    KeepWeighsLess(enabled, p);
  }

  lemma HeavyCanPanic(cfg: Config, members: seq<Member>)
    requires Proportional(members) && Heavy(Keep(members, Enabled()))
    ensures CanPanic(cfg, members)
  {
    var s := System(members, map[], Shared(0, map[], [], []));
    var turn := Turn(false, false, 0, 0, false, false, _ => None);
    var call := Call(0, "", "", "", _ => turn, (_, _, _) => TransportError);
    var steps, l, sh := CallFinishes(cfg, s, call);
    HopelessCallPanics(cfg, s, call, steps, l, sh);
    CallStaysOverweight(cfg, s, call, steps);
    assert With(s, call.r, l, sh).reqs[call.r] == l;
  }

  /** On a pool from the loader a request can panic, with a store or without, if and only if the
      weights of the enabled members add up to 2^63 or more; and exactly then some of them, filtered,
      wrap to a negative total. */
  lemma PanicExactly(cfg: Config, members: seq<Member>)
    requires Proportional(members)
    ensures CanPanic(cfg, members) <==> LIMIT <= Sum(WeightsOf(Keep(members, Enabled())))
    ensures Overflows(members) <==> LIMIT <= Sum(WeightsOf(Keep(members, Enabled())))
  {
    if CanPanic(cfg, members) {
      PanicNeedsOverflow(cfg, members);
    }
    if Overflows(members) {
      OverflowIsHeavy(members);
    }
    if Heavy(Keep(members, Enabled())) {
      HeavyCanPanic(cfg, members);
    }
  }

  /** On any pool at all a panic needs enabled members whose weights wrap to a negative total. */
  lemma PanicNeedsOverflow(cfg: Config, members: seq<Member>)
    requires CanPanic(cfg, members)
    ensures Overflows(members)
  {
    var s, steps, r :| Initial(s) && Run(cfg, s, steps).Some? && r in Run(cfg, s, steps).value.reqs
                       && Run(cfg, s, steps).value.reqs[r].members == members
                       && Run(cfg, s, steps).value.reqs[r].phase == Done(Aborted);
    ReplyIsJustified(cfg, s, steps, r);
  }
}
