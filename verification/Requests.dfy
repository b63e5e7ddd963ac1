/** What every request keeps, in every run: whom it may be sent to, why it goes on or stops, and
    which response the client gets. */
module Requests {
  import opened Wrappers
  import opened Pools
  import opened Selection
  import opened Store
  import opened Detector
  import opened Routing
  import opened Stream
  import opened Machine

  // ----- The invariant of one request ----------------------------------------------------------

  /** The ids this request has been sent to, in order, the send under way included. */
  ghost function SentTo(l: Local): seq<string> {
    TryIds(l.tries) + if l.phase.Sending? then [l.phase.member.id] else []
  }

  ghost function TryIds(tries: seq<Try>): seq<string> {
    seq(|tries|, i requires 0 <= i < |tries| => tries[i].member.id)
  }

  ghost predicate Distinct(ids: seq<string>) {
    forall i, j | 0 <= i < j < |ids| :: ids[i] != ids[j]
  }

  /** The attempt under way, or the one that succeeded, has not been counted yet. */
  predicate Uncounted(phase: Phase) {
    phase.Sending? || phase.Cooling? || phase.Finishing? || phase.Copying? || (phase.Done? && phase.reply.Served?)
  }

  ghost predicate EveryTryFailed(cfg: Config, tries: seq<Try>) {
    forall i | 0 <= i < |tries| :: FailsOver(cfg.lib, tries[i].outcome)
  }

  /** The last attempt's member answered, and the answer is not a failover. */
  ghost predicate Succeeded(cfg: Config, tries: seq<Try>, member: string, resp: Response) {
    && tries != []
    && tries[|tries| - 1].member.id == member
    && tries[|tries| - 1].outcome == Answer(resp)
    && !FailsOver(cfg.lib, Answer(resp))
    && EveryTryFailed(cfg, tries[..|tries| - 1])
  }

  ghost function LastHeld(tries: seq<Try>): Option<Buffered> {
    if tries == [] then None else Some(Held(tries[|tries| - 1].outcome))
  }

  /** The answer of a request that ran out of members, from its last attempt alone. */
  function FinalReply(tries: seq<Try>): Reply {
    if tries == [] then Reply.AllFailed
    else
      match tries[|tries| - 1].outcome
      case TransportError => Reply.AllFailed
      case Answer(resp) => Relayed(resp.status, resp.header, resp.Body())
  }

  /** Nobody is left: every enabled member was tried or ruled out by the latest cooldown read. */
  ghost predicate Covered(l: Local) {
    forall m | m in l.members && m.IsEnabled() :: m.id in l.tried || m.id in l.excluded
  }

  ghost predicate Eligible(l: Local, m: Member) {
    m in l.members && m.IsEnabled()
  }

  /** The members are what some filter leaves of the enabled ones of the snapshot. */
  ghost predicate IsKept(healthy: seq<Member>, members: seq<Member>) {
    exists p :: healthy == Keep(Keep(members, Enabled()), p)
  }

  /** Some filter leaves enabled members whose weights wrap to a negative total. */
  ghost predicate Overflows(members: seq<Member>) {
    exists ms :: ms != [] && IsKept(ms, members) && CodeTotal(WeightsOf(ms)) < 0
  }

  ghost predicate PhaseInv(cfg: Config, l: Local) {
    match l.phase
    case Top => EveryTryFailed(cfg, l.tries) && l.last == LastHeld(l.tries)
    case Filtered(healthy) =>
      && EveryTryFailed(cfg, l.tries) && l.last == LastHeld(l.tries)
      && healthy != [] && IsKept(healthy, l.members)
      && forall m | m in healthy :: Eligible(l, m) && m.id !in l.tried
    case Sending(m) => EveryTryFailed(cfg, l.tries) && l.last == LastHeld(l.tries) && Eligible(l, m)
    case Cooling(m, seconds, reason, held) =>
      && EveryTryFailed(cfg, l.tries) && l.tries != []
      && l.tries[|l.tries| - 1].member == m
      && held == Held(l.tries[|l.tries| - 1].outcome)
      && (reason == TRANSPORT <==> l.tries[|l.tries| - 1].outcome.TransportError?)
      && 0 < seconds
    case Finishing(m, resp, streamed) =>
      Succeeded(cfg, l.tries, m.id, resp) && (streamed <==> !MayFailover(resp.status, resp.header))
    case Copying(m, resp, streamed) =>
      Succeeded(cfg, l.tries, m.id, resp) && (streamed <==> !MayFailover(resp.status, resp.header))
    case Done(NoPool) => l.members == []
    case Done(Aborted) => EveryTryFailed(cfg, l.tries) && l.session == "" && Overflows(l.members)
    case Done(Served(m, status, header, body)) =>
      exists resp :: Succeeded(cfg, l.tries, m, resp)
                     && status == resp.status && header == resp.header && body <= resp.Body()
    case Done(_) => EveryTryFailed(cfg, l.tries) && l.phase.reply == FinalReply(l.tries) && Covered(l)
  }

  ghost predicate LocalInv(cfg: Config, l: Local) {
    && (forall i | 0 <= i < |l.tries| :: Eligible(l, l.tries[i].member))
    && Distinct(SentTo(l))
    && (forall id :: id in l.tried <==> id in SentTo(l))
    && |SentTo(l)| == l.attempt + (if Uncounted(l.phase) then 1 else 0)
    && PhaseInv(cfg, l)
  }

  // ----- Counting ids --------------------------------------------------------------------------

  ghost function IdSet(ms: seq<Member>): set<string> {
    set m | m in ms :: m.id
  }

  lemma {:induction false} IdSetSize(ms: seq<Member>)
    ensures |IdSet(ms)| <= |ms|
  {
    if ms != [] {
      var front, last := ms[..|ms| - 1], ms[|ms| - 1];
      IdSetSize(front);
      assert IdSet(ms) == IdSet(front) + {last.id} by {
        assert ms == front + [last];
      }
    }
  }

  lemma {:induction false} DistinctSize(ids: seq<string>)
    requires Distinct(ids)
    ensures |set id | id in ids| == |ids|
  {
    if ids != [] {
      var front, last := ids[..|ids| - 1], ids[|ids| - 1];
      DistinctSize(front);
      assert (set id | id in ids) == (set id | id in front) + {last} by {
        assert ids == front + [last];
      }
      assert last !in front;
    }
  }

  /** A proper subset is smaller; so two finite sets of one size, one inside the other, agree. */
  lemma SameSize(a: set<string>, b: set<string>)
    requires a <= b && |b| <= |a|
    ensures a == b
  {
    assert b == a + (b - a);
    assert |b| == |a| + |b - a|;
  }

  /** Distinct sends go to distinct snapshot ids: there are at most as many as members, and when
      there are that many, everybody was tried. */
  lemma SendsAreBounded(cfg: Config, l: Local)
    requires LocalInv(cfg, l)
    ensures |SentTo(l)| <= |l.members|
    ensures |SentTo(l)| == |l.members| ==> forall m | m in l.members :: m.id in l.tried
  {
    var sent := set id | id in SentTo(l);
    DistinctSize(SentTo(l));
    IdSetSize(l.members);
    assert sent <= IdSet(l.members) by {
      forall id | id in SentTo(l) ensures id in IdSet(l.members) {
        var i :| 0 <= i < |SentTo(l)| && SentTo(l)[i] == id;
        if i < |l.tries| {
          assert l.tries[i].member in l.members;
        } else {
          assert l.phase.member in l.members;
        }
      }
    }
    SubsetSize(sent, IdSet(l.members));
    if |SentTo(l)| == |l.members| {
      SameSize(sent, IdSet(l.members));
      forall m | m in l.members ensures m.id in l.tried {
        assert m.id in IdSet(l.members);
      }
    }
  }

  lemma SubsetSize(a: set<string>, b: set<string>)
    requires a <= b
    ensures |a| <= |b|
  {
    assert b == a + (b - a);
  }

  // ----- Every step keeps the invariant --------------------------------------------------------

  /** What the cooldown read leaves, and whom it rules out. */
  lemma HealthyAtTop(l: Local, sh: Shared, readable: bool)
    ensures var candidates := Keep(l.members, NotTried(l.tried));
            var healthy := Healthy(candidates, sh.keys, sh.now, readable);
            && IsKept(healthy, l.members)
            && (forall m :: m in candidates <==> m in l.members && m.id !in l.tried)
            && forall m :: m in healthy <==>
                 m in l.members && m.id !in l.tried && IsHealthy(m, sh.keys, sh.now, readable)
  {
    var candidates := Keep(l.members, NotTried(l.tried));
    var test := (m: Member) => IsHealthy(m, sh.keys, sh.now, readable);
    KeepMembership(l.members, NotTried(l.tried));
    KeepMembership(candidates, test);
    var both := (m: Member) => m.id !in l.tried && IsHealthy(m, sh.keys, sh.now, readable);
    KeepTwice(l.members, NotTried(l.tried), test, both);
    KeepTwice(l.members, Enabled(), both, both);
    assert Keep(candidates, test) == Keep(Keep(l.members, Enabled()), both);
  }

  lemma CoveredWhenNobodyLeft(cfg: Config, l: Local, sh: Shared, up: bool)
    requires LocalInv(cfg, l) && l.phase.Top?
    requires AtTop(cfg, l, sh, up).phase.Done?
    ensures Covered(AtTop(cfg, l, sh, up))
  {
    var l' := AtTop(cfg, l, sh, up);
    HealthyAtTop(l, sh, cfg.hasStore && up);
    if |l.members| <= l.attempt {
      SendsAreBounded(cfg, l);
    } else {
      var candidates := Keep(l.members, NotTried(l.tried));
      forall m | m in l.members && m.IsEnabled() ensures m.id in l'.tried || m.id in l'.excluded {
        if m.id !in l.tried {
          assert m in candidates;
          assert m !in Healthy(candidates, sh.keys, sh.now, cfg.hasStore && up);
        }
      }
    }
  }

  /** The head of the loop changes nothing but the phase and what the read ruled out. */
  lemma TopOnlyMovesOn(cfg: Config, l: Local, sh: Shared, up: bool)
    requires l.phase.Top?
    ensures var l' := AtTop(cfg, l, sh, up);
            && l' == l.(phase := l'.phase, excluded := l'.excluded)
            && SentTo(l') == SentTo(l)
            && (l'.phase == Done(Exhausted(l.last)) ||
                (l'.phase.Filtered? && l'.phase.healthy != [] &&
                 l'.phase.healthy == Healthy(Keep(l.members, NotTried(l.tried)), sh.keys, sh.now, cfg.hasStore && up)))
  {
  }

  lemma TopKeepsInv(cfg: Config, l: Local, sh: Shared, up: bool)
    requires LocalInv(cfg, l) && l.phase.Top?
    ensures LocalInv(cfg, AtTop(cfg, l, sh, up))
  {
    var l' := AtTop(cfg, l, sh, up);
    TopOnlyMovesOn(cfg, l, sh, up);
    if l'.phase.Done? {
      CoveredWhenNobodyLeft(cfg, l, sh, up);
      StopKeepsInv(cfg, l, l');
    } else {
      HealthyAtTop(l, sh, cfg.hasStore && up);
      FilterKeepsInv(cfg, l, l', l'.phase.healthy);
    }
  }

  lemma StopKeepsInv(cfg: Config, l: Local, l': Local)
    requires LocalInv(cfg, l) && l.phase.Top?
    requires l' == l.(phase := Done(Exhausted(l.last)), excluded := l'.excluded) && Covered(l')
    ensures LocalInv(cfg, l')
  {
  }

  lemma FilterKeepsInv(cfg: Config, l: Local, l': Local, healthy: seq<Member>)
    requires LocalInv(cfg, l) && l.phase.Top?
    requires l' == l.(phase := Filtered(healthy), excluded := l'.excluded)
    requires healthy != [] && IsKept(healthy, l.members)
    requires forall m | m in healthy :: Eligible(l, m) && m.id !in l.tried
    ensures LocalInv(cfg, l')
  {
  }

  lemma ChooseKeepsInv(cfg: Config, l: Local, sh: Shared, a: Action)
    requires LocalInv(cfg, l) && l.phase.Filtered?
    requires LocalStep(cfg, l, sh, a).Some?
    ensures LocalInv(cfg, LocalStep(cfg, l, sh, a).value.0)
  {
    var l' := LocalStep(cfg, l, sh, a).value.0;
    ChosenIsHealthy(l.phase.healthy, PinSeen(cfg, l, sh, a.up), DrawOf(cfg, l, a.roll));
    if l'.phase.Sending? {
      assert SentTo(l') == SentTo(l) + [l'.phase.member.id];
    } else {
      assert SentTo(l') == SentTo(l);
    }
  }

  lemma SendKeepsInv(cfg: Config, l: Local, sh: Shared, a: Action)
    requires LocalInv(cfg, l) && l.phase.Sending?
    requires LocalStep(cfg, l, sh, a).Some?
    ensures LocalInv(cfg, LocalStep(cfg, l, sh, a).value.0)
  {
    var m := l.phase.member;
    var l' := LocalStep(cfg, l, sh, a).value.0;
    assert l'.tries[..|l.tries|] == l.tries;
    assert SentTo(l') == SentTo(l);
    if a.outcome.Answer? {
      var resp := a.outcome.response;
      StreamedNeverFailsOver(cfg.lib.text, resp.status, resp.Body(), resp.header);
      if FailsOver(cfg.lib, a.outcome) {
        ReasonIsNotTransport(cfg.lib.text, resp.status, resp.Body(), resp.header);
      }
    }
  }

  lemma CoolKeepsInv(cfg: Config, l: Local, sh: Shared, a: Action)
    requires LocalInv(cfg, l) && l.phase.Cooling?
    requires LocalStep(cfg, l, sh, a).Some?
    ensures LocalInv(cfg, LocalStep(cfg, l, sh, a).value.0)
  {
    assert SentTo(LocalStep(cfg, l, sh, a).value.0) == SentTo(l);
  }

  lemma FinishKeepsInv(cfg: Config, l: Local, sh: Shared, a: Action)
    requires LocalInv(cfg, l) && l.phase.Finishing?
    requires LocalStep(cfg, l, sh, a).Some?
    ensures LocalInv(cfg, LocalStep(cfg, l, sh, a).value.0)
  {
    assert SentTo(LocalStep(cfg, l, sh, a).value.0) == SentTo(l);
  }

  lemma CopyKeepsInv(cfg: Config, l: Local, sh: Shared, a: Action)
    requires LocalInv(cfg, l) && l.phase.Copying?
    requires LocalStep(cfg, l, sh, a).Some?
    ensures LocalInv(cfg, LocalStep(cfg, l, sh, a).value.0)
  {
    var resp := l.phase.response;
    CopyServes(cfg, l, sh, a);
    ServedKeepsInv(cfg, l, LocalStep(cfg, l, sh, a).value.0, resp, KeptPart(a.end, resp.Body()));
  }

  lemma CopyServes(cfg: Config, l: Local, sh: Shared, a: Action)
    requires l.phase.Copying? && LocalStep(cfg, l, sh, a).Some?
    ensures var resp := l.phase.response;
            && a.Copy? && EndFits(a.end, resp.Body()) && KeptPart(a.end, resp.Body()) <= resp.Body()
            && LocalStep(cfg, l, sh, a).value.0 ==
               l.(phase := Done(Served(l.phase.member.id, resp.status, resp.header, KeptPart(a.end, resp.Body()))))
  {
  }

  lemma ServedKeepsInv(cfg: Config, l: Local, l': Local, resp: Response, body: string)
    requires LocalInv(cfg, l) && l.phase.Copying? && l.phase.response == resp && body <= resp.Body()
    requires l' == l.(phase := Done(Served(l.phase.member.id, resp.status, resp.header, body)))
    ensures LocalInv(cfg, l')
  {
    assert SentTo(l') == SentTo(l);
    assert Succeeded(cfg, l'.tries, l.phase.member.id, resp);
  }

  lemma StepKeepsInv(cfg: Config, l: Local, sh: Shared, a: Action)
    requires LocalInv(cfg, l)
    requires LocalStep(cfg, l, sh, a).Some?
    ensures LocalInv(cfg, LocalStep(cfg, l, sh, a).value.0)
  {
    match l.phase
    case Top => TopKeepsInv(cfg, l, sh, a.up);
    case Filtered(_) => ChooseKeepsInv(cfg, l, sh, a);
    case Sending(_) => SendKeepsInv(cfg, l, sh, a);
    case Cooling(_, _, _, _) => CoolKeepsInv(cfg, l, sh, a);
    case Finishing(_, _, _) => FinishKeepsInv(cfg, l, sh, a);
    case Copying(_, _, _) => CopyKeepsInv(cfg, l, sh, a);
  }

  ghost predicate Inv(cfg: Config, s: System) {
    forall r | r in s.reqs :: LocalInv(cfg, s.reqs[r])
  }

  lemma ApplyKeepsInv(cfg: Config, s: System, step: Step)
    requires Inv(cfg, s) && Apply(cfg, s, step).Some?
    ensures Inv(cfg, Apply(cfg, s, step).value)
  {
    match step
    case Act(r, action) => StepKeepsInv(cfg, s.reqs[r], s.shared, action);
    case Arrive(r, session, client) => assert SentTo(Begin(s.active, session, client)) == [];
    case _ =>
  }

  /** Every state of every interleaving satisfies the invariant of every request. */
  lemma {:induction false} RunKeepsInv(cfg: Config, s: System, steps: seq<Step>)
    requires Inv(cfg, s) && Run(cfg, s, steps).Some?
    ensures Inv(cfg, Run(cfg, s, steps).value)
  {
    if steps != [] {
      var front := steps[..|steps| - 1];
      RunKeepsInv(cfg, s, front);
      ApplyKeepsInv(cfg, Run(cfg, s, front).value, steps[|steps| - 1]);
    }
  }

  lemma InitialInv(cfg: Config, s: System)
    requires Initial(s)
    ensures Inv(cfg, s)
  {
  }

  // ----- What follows for every run ------------------------------------------------------------

  /** A member handed to send is enabled in the request's own snapshot and was not sent to by
      this request before; all sends of a request go to different ids, at most one per member. The
      choice fails to give a member only by a panic. */
  lemma SendsAreAllowed(cfg: Config, s: System, steps: seq<Step>, r: nat, a: Action)
    requires Initial(s) && Run(cfg, s, steps).Some? && r in Run(cfg, s, steps).value.reqs
    requires a.Choose? && Apply(cfg, Run(cfg, s, steps).value, Act(r, a)).Some?
    ensures var l := Run(cfg, s, steps).value.reqs[r];
            var l' := Apply(cfg, Run(cfg, s, steps).value, Act(r, a)).value.reqs[r];
            if l'.phase.Sending? then
              && Eligible(l, l'.phase.member) && l'.phase.member.id !in SentTo(l)
              && SentTo(l') == SentTo(l) + [l'.phase.member.id]
              && Distinct(SentTo(l')) && |SentTo(l')| <= |l.members|
            else l'.phase == Done(Aborted) && l.session == "" && Overflows(l.members)
  {
    InitialInv(cfg, s);
    RunKeepsInv(cfg, s, steps);
    var t := Run(cfg, s, steps).value;
    ChoiceIsAllowed(cfg, t.reqs[r], t.shared, a);
  }

  lemma ChoiceIsAllowed(cfg: Config, l: Local, sh: Shared, a: Action)
    requires LocalInv(cfg, l) && a.Choose? && LocalStep(cfg, l, sh, a).Some?
    ensures var l' := LocalStep(cfg, l, sh, a).value.0;
            if l'.phase.Sending? then
              && Eligible(l, l'.phase.member) && l'.phase.member.id !in SentTo(l)
              && SentTo(l') == SentTo(l) + [l'.phase.member.id]
              && Distinct(SentTo(l')) && |SentTo(l')| <= |l.members|
            else l'.phase == Done(Aborted) && l.session == "" && Overflows(l.members)
  {
    ChooseKeepsInv(cfg, l, sh, a);
    ChosenIsHealthy(l.phase.healthy, PinSeen(cfg, l, sh, a.up), DrawOf(cfg, l, a.roll));
    var l' := LocalStep(cfg, l, sh, a).value.0;
    if l'.phase.Sending? {
      assert SentTo(l') == SentTo(l) + [l'.phase.member.id];
      SendsAreBounded(cfg, l');
    }
  }

  /** A served response is the answer of the last attempt, is not a failover, and came after failed
      attempts only. A panic comes only without a session, on weights that overflow. Any other reply
      is determined by the last attempt alone, and is given only when no enabled member was left to
      try. */
  ghost predicate Justified(cfg: Config, l: Local, reply: Reply) {
    match reply
    case NoPool => l.members == []
    case Aborted => l.session == "" && EveryTryFailed(cfg, l.tries) && Overflows(l.members)
    case Served(m, status, header, body) =>
      exists resp :: Succeeded(cfg, l.tries, m, resp)
                     && status == resp.status && header == resp.header && body <= resp.Body()
    case Relayed(status, header, body) =>
      && FinalReply(l.tries) == reply && EveryTryFailed(cfg, l.tries) && Covered(l)
      && ShouldFailover(cfg.lib.text, status, body, header).failover
    case AllFailed =>
      && FinalReply(l.tries) == reply && EveryTryFailed(cfg, l.tries) && Covered(l)
      && (l.tries == [] || l.tries[|l.tries| - 1].outcome.TransportError?)
  }

  /** The one reply of a finished request, in every run. */
  lemma ReplyIsJustified(cfg: Config, s: System, steps: seq<Step>, r: nat)
    requires Initial(s) && Run(cfg, s, steps).Some?
    requires r in Run(cfg, s, steps).value.reqs && Run(cfg, s, steps).value.reqs[r].phase.Done?
    ensures var l := Run(cfg, s, steps).value.reqs[r];
            Justified(cfg, l, l.phase.reply)
  {
    InitialInv(cfg, s);
    RunKeepsInv(cfg, s, steps);
  }

  lemma {:induction false} RunConcat(cfg: Config, s: System, before: seq<Step>, after: seq<Step>)
    requires Run(cfg, s, before).Some?
    ensures Run(cfg, s, before + after) == Run(cfg, Run(cfg, s, before).value, after)
  {
    if after == [] {
      assert before + after == before;
    } else {
      RunConcat(cfg, s, before, after[..|after| - 1]);
      assert (before + after)[..|before + after| - 1] == before + after[..|after| - 1];
    }
  }

  /** A response is passed on without being read first exactly when it has no Retry-After and none of
      the three statuses: then it cannot fail over, whatever its body turns out to be. One that was
      read first does not fail over with the body it has. */
  lemma CommittedIsNoFailover(cfg: Config, s: System, steps: seq<Step>, r: nat)
    requires Initial(s) && Run(cfg, s, steps).Some? && r in Run(cfg, s, steps).value.reqs
    requires var phase := Run(cfg, s, steps).value.reqs[r].phase; phase.Finishing? || phase.Copying?
    ensures var phase := Run(cfg, s, steps).value.reqs[r].phase;
            var resp := phase.response;
            && !ShouldFailover(cfg.lib.text, resp.status, resp.Body(), resp.header).failover
            && (phase.streamed <==>
                  !AsksToWait(resp.header) && resp.status != 429 && resp.status != 401 && resp.status != 529)
            && (phase.streamed ==>
                  forall body :: !ShouldFailover(cfg.lib.text, resp.status, body, resp.header).failover)
  {
    InitialInv(cfg, s);
    RunKeepsInv(cfg, s, steps);
  }

  /** The ids a request counts as ruled out are those of members whose cooldown key was live at a read
      that got an answer. */
  lemma RuledOutIsCooled(cfg: Config, l: Local, sh: Shared, up: bool)
    requires l.phase.Top?
    ensures forall id | id in AtTop(cfg, l, sh, up).excluded ::
              id in l.excluded || (cfg.hasStore && up && Live(sh.keys, "cooldown:" + id, sh.now))
  {
    var candidates := Keep(l.members, NotTried(l.tried));
    forall id | id in RuledOut(candidates, sh.keys, sh.now, cfg.hasStore && up)
      ensures cfg.hasStore && up && Live(sh.keys, "cooldown:" + id, sh.now)
    {
      var m :| m in candidates && m.IsEnabled() && !IsHealthy(m, sh.keys, sh.now, cfg.hasStore && up) && m.id == id;
      assert CoolKey(id) == "cooldown:" + id;
    }
  }

  /** The member a request is sent to, when no live pin on a healthy member decides: by weight, from the
      checksum of its session id if it has one, whatever the random draw, and from the draw if not. */
  lemma SendIsByWeight(cfg: Config, l: Local, sh: Shared, up: bool, roll: nat)
    requires l.phase.Filtered? && Weighable(l.phase.healthy, PinSeen(cfg, l, sh, up))
    ensures var step := LocalStep(cfg, l, sh, Action.Choose(up, roll));
            && step.Some? && step.value.0.phase.Sending?
            && ByWeight(l.phase.healthy, if l.session != "" then cfg.lib.crc32(l.session) else roll,
                        step.value.0.phase.member)
  {
    ChoiceIsByWeight(l.phase.healthy, PinSeen(cfg, l, sh, up), cfg.lib.crc32, l.session, roll);
  }

  /** A session's choice does not depend on the random draw. */
  lemma SessionFixesChoice(cfg: Config, l: Local, sh: Shared, up: bool, roll: nat, roll': nat)
    requires l.phase.Filtered? && l.session != ""
    ensures LocalStep(cfg, l, sh, Action.Choose(up, roll)) == LocalStep(cfg, l, sh, Action.Choose(up, roll'))
  {
  }

  // ----- Progress and termination --------------------------------------------------------------

  /** A request that is not finished can always take its next step. */
  lemma NeverStuck(cfg: Config, l: Local, sh: Shared)
    requires LocalInv(cfg, l) && !l.phase.Done?
    ensures exists a :: LocalStep(cfg, l, sh, a).Some?
  {
    match l.phase
    case Top => assert LocalStep(cfg, l, sh, Action.Read(true)).Some?;
    case Filtered(_) => assert LocalStep(cfg, l, sh, Action.Choose(true, 0)).Some?;
    case Sending(_) => assert LocalStep(cfg, l, sh, Upstream(TransportError)).Some?;
    case Cooling(_, _, _, _) => assert LocalStep(cfg, l, sh, Cool(true)).Some?;
    case Finishing(_, _, _) => assert LocalStep(cfg, l, sh, Finish(true)).Some?;
    case Copying(_, _, _) => assert LocalStep(cfg, l, sh, Copy(Complete)).Some?;
  }

  /** The untried members, refined by how far the current attempt has come. */
  ghost function Rank(l: Local): int {
    5 * (|l.members| - |SentTo(l)|) + PhaseRank(l.phase)
  }

  function PhaseRank(phase: Phase): int {
    match phase
    case Top => 4
    case Filtered(_) => 3
    case Sending(_) => 7
    case Cooling(_, _, _, _) => 6
    case Finishing(_, _, _) => 2
    case Copying(_, _, _) => 1
    case Done(_) => 0
  }

  lemma StepLowersRank(cfg: Config, l: Local, sh: Shared, a: Action)
    requires LocalInv(cfg, l)
    requires LocalStep(cfg, l, sh, a).Some?
    ensures 0 <= Rank(LocalStep(cfg, l, sh, a).value.0) < Rank(l)
    ensures LocalStep(cfg, l, sh, a).value.0.members == l.members
  {
    StepKeepsInv(cfg, l, sh, a);
    SendsAreBounded(cfg, LocalStep(cfg, l, sh, a).value.0);
    SentGrows(cfg, l, sh, a);
    PhaseMovesOn(cfg, l, sh, a);
  }

  lemma SentGrows(cfg: Config, l: Local, sh: Shared, a: Action)
    requires LocalStep(cfg, l, sh, a).Some?
    ensures var l' := LocalStep(cfg, l, sh, a).value.0;
            |SentTo(l')| == |SentTo(l)| + if l.phase.Filtered? && l'.phase.Sending? then 1 else 0
  {
  }

  lemma PhaseMovesOn(cfg: Config, l: Local, sh: Shared, a: Action)
    requires LocalStep(cfg, l, sh, a).Some?
    ensures var l' := LocalStep(cfg, l, sh, a).value.0;
            && l'.members == l.members
            && PhaseRank(l'.phase) < PhaseRank(l.phase) + if l.phase.Filtered? && l'.phase.Sending? then 5 else 0
  {
  }

  ghost function Moves(steps: seq<Step>, r: nat): nat {
    if steps == [] then 0
    else
      var last := steps[|steps| - 1];
      Moves(steps[..|steps| - 1], r) + if last.Act? && last.r == r then 1 else 0
  }

  /** In no run does a request take more than 5n + 4 steps, n being the size of its snapshot;
      with NeverStuck, every request that keeps being scheduled finishes. */
  lemma {:induction false} RequestTerminates(cfg: Config, s: System, steps: seq<Step>, r: nat)
    requires Initial(s) && Run(cfg, s, steps).Some?
    ensures var t := Run(cfg, s, steps).value;
            if r in t.reqs then Moves(steps, r) + Rank(t.reqs[r]) <= 5 * |t.reqs[r].members| + 4 && 0 <= Rank(t.reqs[r])
            else Moves(steps, r) == 0
  {
    if steps != [] {
      var front, last := steps[..|steps| - 1], steps[|steps| - 1];
      RequestTerminates(cfg, s, front, r);
      InitialInv(cfg, s);
      RunKeepsInv(cfg, s, front);
      var t := Run(cfg, s, front).value;
      if last.Act? && last.r == r {
        StepLowersRank(cfg, t.reqs[r], t.shared, last.action);
      } else if last.Arrive? && last.r == r {
        assert SentTo(Begin(t.active, last.session, last.client)) == [];
      }
    }
  }
}
