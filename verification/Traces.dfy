/** Runs with all their states, and what every request keeps along them. */
module Traces {
  import opened Wrappers
  import opened Pools
  import opened Machine
  import opened Requests

  /** The states before, between and after the steps of a run. */
  ghost predicate Trace(cfg: Config, states: seq<System>, steps: seq<Step>) {
    && |states| == |steps| + 1
    && (steps != [] ==>
          && Trace(cfg, states[..|steps|], steps[..|steps| - 1])
          && Apply(cfg, states[|steps| - 1], steps[|steps| - 1]) == Some(states[|steps|]))
  }

  lemma {:induction false} Successor(cfg: Config, states: seq<System>, steps: seq<Step>, i: nat)
    requires Trace(cfg, states, steps) && i < |steps|
    ensures Apply(cfg, states[i], steps[i]) == Some(states[i + 1])
  {
    if i < |steps| - 1 {
      Successor(cfg, states[..|steps|], steps[..|steps| - 1], i);
    }
  }

  /** A trace is exactly a run with its states written down. */
  lemma {:induction false} TraceIsRun(cfg: Config, states: seq<System>, steps: seq<Step>)
    requires Trace(cfg, states, steps)
    ensures Run(cfg, states[0], steps) == Some(states[|steps|])
  {
    if steps != [] {
      TraceIsRun(cfg, states[..|steps|], steps[..|steps| - 1]);
    }
  }

  lemma {:induction false} RunHasTrace(cfg: Config, s: System, steps: seq<Step>) returns (states: seq<System>)
    requires Run(cfg, s, steps).Some?
    ensures Trace(cfg, states, steps) && states[0] == s && Run(cfg, s, steps) == Some(states[|steps|])
  {
    if steps == [] {
      states := [s];
    } else {
      var front := RunHasTrace(cfg, s, steps[..|steps| - 1]);
      states := front + [Run(cfg, s, steps).value];
      assert states[..|steps|] == front;
    }
  }

  lemma {:induction false} TraceKeepsInv(cfg: Config, states: seq<System>, steps: seq<Step>, i: nat)
    requires Trace(cfg, states, steps) && i <= |steps|
    requires Inv(cfg, states[0])
    ensures Inv(cfg, states[i])
  {
    if 0 < i {
      TraceKeepsInv(cfg, states, steps, i - 1);
      Successor(cfg, states, steps, i - 1);
      ApplyKeepsInv(cfg, states[i - 1], steps[i - 1]);
    }
  }

  predicate MovedBy(step: Step, r: nat) {
    step.Act? && step.r == r
  }

  lemma OthersStandStill(cfg: Config, s: System, step: Step, r: nat)
    requires r in s.reqs && !MovedBy(step, r)
    requires Apply(cfg, s, step).Some?
    ensures var t := Apply(cfg, s, step).value; r in t.reqs && t.reqs[r] == s.reqs[r]
  {
  }

  /** A request that takes no step in between is as it was. */
  lemma {:induction false} LocalKept(cfg: Config, states: seq<System>, steps: seq<Step>, i: nat, j: nat, r: nat)
    requires Trace(cfg, states, steps) && i <= j <= |steps|
    requires r in states[i].reqs
    requires forall x | i <= x < j :: !MovedBy(steps[x], r)
    ensures r in states[j].reqs && states[j].reqs[r] == states[i].reqs[r]
    decreases j
  {
    if i < j {
      LocalKept(cfg, states, steps, i, j - 1, r);
      Successor(cfg, states, steps, j - 1);
      OthersStandStill(cfg, states[j - 1], steps[j - 1], r);
    }
  }

  lemma StepKeepsSnapshot(cfg: Config, s: System, step: Step, r: nat)
    requires r in s.reqs && Apply(cfg, s, step).Some?
    ensures var t := Apply(cfg, s, step).value;
            && r in t.reqs && t.reqs[r].members == s.reqs[r].members
            && (s.reqs[r].phase.Done? ==> t.reqs[r] == s.reqs[r])
  {
  }

  /** A request keeps the pool it started with, whatever is reloaded meanwhile, and a finished
      request never changes again: there is exactly one reply. */
  lemma {:induction false} SnapshotAndReplyAreFinal(cfg: Config, states: seq<System>, steps: seq<Step>,
                                                    i: nat, j: nat, r: nat)
    requires Trace(cfg, states, steps) && i <= j <= |steps|
    requires r in states[i].reqs
    ensures r in states[j].reqs
    ensures states[j].reqs[r].members == states[i].reqs[r].members
    ensures states[i].reqs[r].phase.Done? ==> states[j].reqs[r] == states[i].reqs[r]
    decreases j
  {
    if i < j {
      SnapshotAndReplyAreFinal(cfg, states, steps, i, j - 1, r);
      Successor(cfg, states, steps, j - 1);
      StepKeepsSnapshot(cfg, states[j - 1], steps[j - 1], r);
    }
  }

  /** The same of runs: whatever a run that goes on brings, a request keeps its snapshot, and a reply
      once given is the one it ends with. */
  lemma ReplyOfRunIsFinal(cfg: Config, s: System, before: seq<Step>, after: seq<Step>, r: nat)
    requires Run(cfg, s, before).Some? && Run(cfg, s, before + after).Some?
    requires r in Run(cfg, s, before).value.reqs
    ensures var t, t' := Run(cfg, s, before).value, Run(cfg, s, before + after).value;
            && r in t'.reqs && t'.reqs[r].members == t.reqs[r].members
            && (t.reqs[r].phase.Done? ==> t'.reqs[r] == t.reqs[r])
  {
    RunConcat(cfg, s, before, after);
    var t := Run(cfg, s, before).value;
    var states := RunHasTrace(cfg, t, after);
    SnapshotAndReplyAreFinal(cfg, states, after, 0, |after|, r);
  }

  /** A request that arrives gets the pool installed last, however much time has passed since and
      whatever other requests have done. */
  lemma {:induction false} ArrivalTakesLatestPool(cfg: Config, s: System, members: seq<Member>, between: seq<Step>,
                                                  r: nat, session: string, client: string)
    requires forall i | 0 <= i < |between| :: !between[i].Reload?
    requires Run(cfg, s, [Reload(members)] + between).Some?
    ensures var t := Run(cfg, s, [Reload(members)] + between).value;
            && t.active == members
            && (r !in t.reqs ==>
                  var t' := Apply(cfg, t, Arrive(r, session, client));
                  t'.Some? && r in t'.value.reqs && t'.value.reqs[r] == Begin(members, session, client))
  {
    var steps := [Reload(members)] + between;
    if between == [] {
      assert steps[..0] == [];
    } else {
      var front := between[..|between| - 1];
      assert steps[..|steps| - 1] == [Reload(members)] + front;
      ArrivalTakesLatestPool(cfg, s, members, front, r, session, client);
    }
  }
}
