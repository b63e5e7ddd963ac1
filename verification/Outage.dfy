/** A store that never answers is the same as no store at all, for every call of the handler. */
module Outage {
  import opened Wrappers
  import opened Store
  import opened Routing
  import opened Machine
  import opened Requests
  import opened Calls
  import opened Pools
  import opened Detector
  import opened Stream
  import opened Handler

  /** No store operation of the step gets an answer. */
  predicate Down(step: Step) {
    step.Act? ==>
      match step.action
      case Read(up) => !up
      case Choose(up, _) => !up
      case Cool(up) => !up
      case Finish(up) => !up
      case _ => true
  }

  ghost predicate AllDown(steps: seq<Step>) {
    forall i | 0 <= i < |steps| :: Down(steps[i])
  }

  lemma DownStepIsNoStore(cfg: Config, s: System, step: Step)
    requires Down(step)
    ensures Apply(cfg, s, step) == Apply(cfg.(hasStore := false), s, step)
  {
  }

  /** The same steps give the same requests, replies, counters and keys, in every affinity mode:
      each pick, attempt and response is what an instance without a store produces from the same
      upstream outcomes, hashes and random draws. */
  lemma {:induction false} DownStoreIsNoStore(cfg: Config, s: System, steps: seq<Step>)
    requires AllDown(steps)
    ensures Run(cfg, s, steps) == Run(cfg.(hasStore := false), s, steps)
  {
    if steps != [] {
      var front, last := steps[..|steps| - 1], steps[|steps| - 1];
      DownStoreIsNoStore(cfg, s, front);
      if Run(cfg, s, front).Some? {
        DownStepIsNoStore(cfg, Run(cfg, s, front).value, last);
      }
    }
  }

  ghost function WithKeys(s: System, keys: Keys): System {
    s.(shared := s.shared.(keys := keys))
  }

  lemma NoStoreStep(cfg: Config, s: System, step: Step, keys: Keys)
    requires !cfg.hasStore
    ensures Apply(cfg, WithKeys(s, keys), step) ==
            match Apply(cfg, s, step)
            case None => None
            case Some(t) => Some(WithKeys(t, keys))
  {
    if step.Act? && step.r in s.reqs && s.reqs[step.r].phase.Top? {
      var l := s.reqs[step.r];
      var candidates := Keep(l.members, NotTried(l.tried));
      UnreadableHealthy(candidates, s.shared.keys, s.shared.now, keys, s.shared.now);
      assert RuledOut(candidates, s.shared.keys, s.shared.now, false) == RuledOut(candidates, keys, s.shared.now, false);
    }
  }

  /** And such an instance does not depend on what is in the store. */
  lemma {:induction false} NoStoreIgnoresKeys(cfg: Config, s: System, steps: seq<Step>, keys: Keys)
    requires !cfg.hasStore
    ensures Run(cfg, WithKeys(s, keys), steps) ==
            match Run(cfg, s, steps)
            case None => None
            case Some(t) => Some(WithKeys(t, keys))
  {
    if steps != [] {
      var front, last := steps[..|steps| - 1], steps[|steps| - 1];
      NoStoreIgnoresKeys(cfg, s, front, keys);
      if Run(cfg, s, front).Some? {
        NoStoreStep(cfg, Run(cfg, s, front).value, last, keys);
      }
    }
  }

  // ----- Calls ---------------------------------------------------------------------------------

  /** No store operation of an attempt gets an answer. */
  predicate DownTurn(turn: Turn) {
    !turn.upRead && !turn.upSticky && !turn.upCool && !turn.upPin
  }

  lemma DownCall(cfg: Config, s: System, call: Call, steps: seq<Step>)
    requires Follows(cfg, s, call, steps) && forall n :: DownTurn(call.turns(n))
    ensures AllDown(steps)
  {
    forall i | 0 <= i < |steps| ensures Down(steps[i]) {
      if i == 0 {
        StartsWithArrival(cfg, s, call, steps);
      } else {
        LabelsAreOfTurns(cfg, s, call, steps, i);
        var n: nat :| OfTurn(call, call.turns(n), steps[i]);
        assert DownTurn(call.turns(n));
      }
    }
  }

  lemma {:induction false} StartsWithArrival(cfg: Config, s: System, call: Call, steps: seq<Step>)
    requires Follows(cfg, s, call, steps)
    ensures steps[0] == Arrive(call.r, call.session, call.client)
  {
    if |steps| > 1 {
      StartsWithArrival(cfg, s, call, Front(steps));
    }
  }

  lemma {:induction false} FollowsWithoutStore(cfg: Config, s: System, call: Call, steps: seq<Step>)
    requires Follows(cfg, s, call, steps) && AllDown(steps)
    ensures Follows(cfg.(hasStore := false), s, call, steps)
  {
    if |steps| > 1 {
      DownStoreIsNoStore(cfg, s, Front(steps));
      FollowsWithoutStore(cfg, s, call, Front(steps));
    }
  }

  /** A call whose store operations all go unanswered takes the steps of a call without a store. */
  lemma FailingStoreIsNoStore(cfg: Config, s: System, call: Call, steps: seq<Step>, l: Local, sh: Shared)
    requires Reached(cfg, s, call, steps, l, sh) && forall n :: DownTurn(call.turns(n))
    ensures Reached(cfg.(hasStore := false), s, call, steps, l, sh)
  {
    DownCall(cfg, s, call, steps);
    DownStoreIsNoStore(cfg, s, steps);
    FollowsWithoutStore(cfg, s, call, steps);
  }

  /** Two handlers, one with a failing store and one with none, that meet the same upstream, hashes,
      draws and client: picks, attempts, outcomes, reply and counters are the same. */
  lemma FailingStoreServesAlike(cfg: Config, s: System, call: Call, steps1: seq<Step>, l1: Local, sh1: Shared,
                                steps2: seq<Step>, l2: Local, sh2: Shared)
    requires Inv(cfg, s) && call.r !in s.reqs && OneAnswerEach(call, s.active)
    requires Reached(cfg, s, call, steps1, l1, sh1) && l1.phase.Done? && forall n :: DownTurn(call.turns(n))
    requires Reached(cfg.(hasStore := false), s, call, steps2, l2, sh2) && l2.phase.Done?
    ensures l1 == l2 && sh1 == sh2
  {
    var none := cfg.(hasStore := false);
    FailingStoreIsNoStore(cfg, s, call, steps1, l1, sh1);
    assert Inv(none, s);
    CallIsDetermined(none, s, call, steps1, l1, sh1, steps2, l2, sh2);
  }

  /** The same said of the objects: two handlers serve the same request, one through a store that
      never answers. Both clients see the same reply, and both sets of counters the same events. */
  method ServeWithAndWithoutStore(failing: ProxyHandler, none: ProxyHandler, w1: ResponseWriter, w2: ResponseWriter,
                                  request: Header, client: string, body: string, turns: nat -> Turn,
                                  upstream: (nat, Member, string) -> Outcome, lastFate: Option<nat>,
                                  ghost s: System, ghost r: nat)
    returns (ghost reply: Reply)
    requires failing.Wired() && none.Wired() && none.cfg == failing.cfg.(hasStore := false)
    requires failing.metrics != none.metrics && w1 != w2 && w1.Untouched() && w2.Untouched()
    requires failing.Matches(s.shared) && none.Matches(s.shared)
    requires s.active == failing.PoolNow() == none.PoolNow()
    requires Inv(failing.cfg, s) && r !in s.reqs
    requires OneAnswerEach(Call(r, SessionOf(request), client, body, turns, upstream), s.active)
    requires forall n :: DownTurn(turns(n))
    modifies w1, w2, failing.metrics, none.metrics, failing.StoreFrame()
    ensures Shows(w1, reply, lastFate) && Shows(w2, reply, lastFate)
    ensures failing.metrics.log == none.metrics.log
  {
    ghost var call := Call(r, SessionOf(request), client, body, turns, upstream);
    ghost var steps1, l1, sh1 := failing.ServeHTTP(w1, request, client, body, turns, upstream, lastFate, s, r);
    ghost var steps2, l2, sh2 := none.ServeHTTP(w2, request, client, body, turns, upstream, lastFate, s, r);
    FailingStoreServesAlike(failing.cfg, s, call, steps1, l1, sh1, steps2, l2, sh2);
    reply := l1.phase.reply;
  }
}
