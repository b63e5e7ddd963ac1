/** Member selection for one attempt: enabled and uncooled members, the affinity override, and
    the weighted choice. */
module Routing {
  import opened Wrappers
  import opened Pools
  import opened Selection
  import opened Store

  // ----- Specification -------------------------------------------------------------------------

  /** The members that satisfy p, in pool order. */
  function Keep(ms: seq<Member>, p: Member -> bool): seq<Member> {
    if ms == [] then []
    else
      var last := ms[|ms| - 1];
      Keep(ms[..|ms| - 1], p) + if p(last) then [last] else []
  }

  function NotTried(tried: set<string>): Member -> bool {
    (m: Member) => m.id !in tried
  }

  /** readable says whether the cooldown keys could be read. */
  predicate IsHealthy(m: Member, keys: Keys, now: int, readable: bool) {
    m.IsEnabled() && !(readable && Live(keys, CoolKey(m.id), now))
  }

  function Healthy(ms: seq<Member>, keys: Keys, now: int, readable: bool): seq<Member> {
    Keep(ms, (m: Member) => IsHealthy(m, keys, now, readable))
  }

  function WeightsOf(ms: seq<Member>): seq<int> {
    seq(|ms|, i requires 0 <= i < |ms| => ms[i].weight)
  }

  function FirstWithId(ms: seq<Member>, id: string): Option<Member> {
    if ms == [] then None else if ms[0].id == id then Some(ms[0]) else FirstWithId(ms[1..], id)
  }

  /** What a choice is drawn from: the session's hash, or a random number. */
  datatype Draw = Hashed(h: nat) | Random(n: nat)

  function DrawFor(crc32: string -> nat, session: string, roll: nat): Draw {
    if session != "" then Hashed(crc32(session)) else Random(roll)
  }

  /** The weighted choice. A random number is taken below the total, and asking for one panics when
      the total is not positive: then there is no member. */
  function Weighted(ms: seq<Member>, draw: Draw): Option<Member>
    requires ms != []
  {
    var total := CodeTotal(WeightsOf(ms));
    match draw
    case Hashed(h) => Some(ms[HashPick(WeightsOf(ms), h)])
    case Random(n) => if total <= 0 then None else Some(ms[Scanned(WeightsOf(ms), n % total)])
  }

  function Choose(healthy: seq<Member>, pinned: Option<string>, draw: Draw): Option<Member>
    requires healthy != []
  {
    if pinned.Some? && FirstWithId(healthy, pinned.value).Some? then FirstWithId(healthy, pinned.value)
    else Weighted(healthy, draw)
  }

  datatype PickResult = NoMember | NoHealthy | Panicked | Picked(member: Member)

  // ----- Properties of the filters -------------------------------------------------------------

  lemma {:induction false} KeepMembership(ms: seq<Member>, p: Member -> bool)
    ensures forall m :: m in Keep(ms, p) <==> m in ms && p(m)
  {
    if ms != [] {
      var front, last := ms[..|ms| - 1], ms[|ms| - 1];
      KeepMembership(front, p);
      assert forall m :: m in ms <==> m in front || m == last;
    }
  }

  lemma KeepSnoc(ms: seq<Member>, m: Member, p: Member -> bool)
    ensures Keep(ms + [m], p) == Keep(ms, p) + if p(m) then [m] else []
  {
  }

  lemma {:induction false} KeepTwice(ms: seq<Member>, p: Member -> bool, q: Member -> bool, both: Member -> bool)
    requires forall m | m in ms :: both(m) <==> p(m) && q(m)
    ensures Keep(Keep(ms, p), q) == Keep(ms, both)
  {
    if ms != [] {
      var front, last := ms[..|ms| - 1], ms[|ms| - 1];
      assert forall m | m in front :: m in ms;
      KeepTwice(front, p, q, both);
      KeepSnoc(Keep(front, p), last, q);
      assert Keep(ms, p) == if p(last) then Keep(front, p) + [last] else Keep(front, p);
      assert both(last) <==> p(last) && q(last);
    }
  }

  function IdIn(ids: set<string>): Member -> bool {
    (m: Member) => m.id in ids
  }

  function Enabled(): Member -> bool {
    (m: Member) => m.IsEnabled()
  }

  /** Filtering in two rounds, by the ids the store let through, is filtering for health. */
  lemma TwoRounds(ms: seq<Member>, keys: Keys, now: int, readable: bool, ids: seq<string>, chosen: set<string>)
    requires forall id :: id in ids <==> exists m :: m in Keep(ms, Enabled()) && m.id == id
    requires forall id :: id in chosen <==> id in ids && !(readable && Live(keys, CoolKey(id), now))
    ensures Keep(Keep(ms, Enabled()), IdIn(chosen)) == Healthy(ms, keys, now, readable)
  {
    KeepMembership(ms, Enabled());
    KeepTwice(ms, Enabled(), IdIn(chosen), (m: Member) => IsHealthy(m, keys, now, readable));
  }

  /** Without a readable store the keys and the clock do not matter. */
  lemma UnreadableHealthy(ms: seq<Member>, keys: Keys, now: int, keys': Keys, now': int)
    ensures Healthy(ms, keys, now, false) == Healthy(ms, keys', now', false)
  {
    var p := (m: Member) => IsHealthy(m, keys, now, false);
    var q := (m: Member) => IsHealthy(m, keys', now', false);
    KeepTwice(ms, p, (m: Member) => true, q);
    KeepTwice(ms, p, (m: Member) => true, p);
  }

  lemma {:induction false} FirstWithIdFound(ms: seq<Member>, id: string)
    ensures var found := FirstWithId(ms, id);
            if found.Some? then found.value in ms && found.value.id == id
            else forall m | m in ms :: m.id != id
  {
    if ms != [] {
      FirstWithIdFound(ms[1..], id);
      assert forall m :: m in ms <==> m == ms[0] || m in ms[1..];
    }
  }

  /** Whatever is chosen is one of the healthy members, and a live pin on one of them wins. Nothing
      is chosen only for a random draw, without such a pin, when the weights wrap to a negative
      total. */
  lemma ChosenIsHealthy(healthy: seq<Member>, pinned: Option<string>, draw: Draw)
    requires healthy != []
    ensures var chosen := Choose(healthy, pinned, draw);
            && (chosen.Some? ==> chosen.value in healthy)
            && (pinned.Some? && (exists m :: m in healthy && m.id == pinned.value) ==>
                  chosen.Some? && chosen.value.id == pinned.value)
            && (chosen.None? ==> draw.Random? && CodeTotal(WeightsOf(healthy)) < 0)
  {
    if pinned.Some? {
      FirstWithIdFound(healthy, pinned.value);
    }
  }

  /** The member is the one in whose interval of the weights the draw falls. */
  ghost predicate ByWeight(ms: seq<Member>, draw: nat, m: Member) {
    && 0 < Sum(WeightsOf(ms))
    && forall i | 0 <= i < |ms| ::
         m == ms[i] <==> Start(WeightsOf(ms), i) <= draw % Sum(WeightsOf(ms)) < Start(WeightsOf(ms), i + 1)
  }

  /** Members with distinct ids and weights of at least 1 that add up within 64 bits, none of them pinned. */
  ghost predicate Weighable(healthy: seq<Member>, pinned: Option<string>) {
    && healthy != [] && Proportional(healthy) && Sum(WeightsOf(healthy)) < LIMIT
    && (pinned.Some? ==> forall m | m in healthy :: m.id != pinned.value)
  }

  /** Without a live pin on a healthy member the choice is by weight: by the checksum of the session id
      when there is one, whatever the random number, and by the random number when there is none. */
  lemma ChoiceIsByWeight(healthy: seq<Member>, pinned: Option<string>, crc32: string -> nat, session: string, roll: nat)
    requires Weighable(healthy, pinned)
    ensures var chosen := Choose(healthy, pinned, DrawFor(crc32, session, roll));
            chosen.Some? && ByWeight(healthy, if session != "" then crc32(session) else roll, chosen.value)
  {
    if pinned.Some? {
      FirstWithIdFound(healthy, pinned.value);
    }
    WeightedIsByWeight(healthy, DrawFor(crc32, session, roll), if session != "" then crc32(session) else roll);
  }

  lemma WeightedIsByWeight(ms: seq<Member>, draw: Draw, n: nat)
    requires ms != [] && Proportional(ms) && Sum(WeightsOf(ms)) < LIMIT
    requires draw == Hashed(n) || draw == Random(n)
    ensures Weighted(ms, draw).Some? && ByWeight(ms, n, Weighted(ms, draw).value)
  {
    ScannedIsByWeight(ms, n);
    assert HashPick(WeightsOf(ms), n) == Scanned(WeightsOf(ms), n % Sum(WeightsOf(ms)));
  }

  lemma ScannedIsByWeight(ms: seq<Member>, draw: nat)
    requires ms != [] && Proportional(ms) && Sum(WeightsOf(ms)) < LIMIT
    ensures 0 < Sum(WeightsOf(ms)) == CodeTotal(WeightsOf(ms))
    ensures ByWeight(ms, draw, ms[Scanned(WeightsOf(ms), draw % Sum(WeightsOf(ms)))])
  {
    var ws := WeightsOf(ms);
    SumWithinShares(ws);
    Division(draw, Sum(ws));
    var d := draw % Sum(ws);
    ScanIsSlot(ws, d);
    forall i | 0 <= i < |ms|
      ensures ms[Scanned(ws, d)] == ms[i] <==> Start(ws, i) <= d < Start(ws, i + 1)
    {
      SlotIsInterval(ws, d, i);
      assert ms[Scanned(ws, d)] == ms[i] <==> Scanned(ws, d) == i;
    }
  }

  // ----- Shares of the members -----------------------------------------------------------------

  /** What the loader guarantees of an active pool, and every filter keeps. */
  ghost predicate Proportional(ms: seq<Member>) {
    DistinctIds(ms) && forall i | 0 <= i < |ms| :: 1 <= ms[i].weight
  }

  lemma {:induction false} KeepIsProportional(ms: seq<Member>, p: Member -> bool)
    requires Proportional(ms)
    ensures Proportional(Keep(ms, p))
  {
    if ms != [] {
      var front, last := ms[..|ms| - 1], ms[|ms| - 1];
      KeepIsProportional(front, p);
      KeepMembership(front, p);
      forall i | 0 <= i < |Keep(front, p)| ensures Keep(front, p)[i].id != last.id {
        assert Keep(front, p)[i] in front;
      }
    }
  }

  /** Filtering only takes weight away. */
  lemma {:induction false} KeepWeighsLess(ms: seq<Member>, p: Member -> bool)
    requires Proportional(ms)
    ensures 0 <= Sum(WeightsOf(Keep(ms, p))) <= Sum(WeightsOf(ms))
  {
    if ms != [] {
      var front, last := ms[..|ms| - 1], ms[|ms| - 1];
      KeepWeighsLess(front, p);
      SumSnoc(front, last);
      SumSnoc(Keep(front, p), last);
      assert ms == front + [last];
      assert Keep(front, p) + [] == Keep(front, p);
    }
  }

  lemma SumSnoc(ms: seq<Member>, m: Member)
    ensures Sum(WeightsOf(ms + [m])) == Sum(WeightsOf(ms)) + m.weight
  {
    assert WeightsOf(ms + [m])[..|ms|] == WeightsOf(ms);
  }

  /** The session hashes, out of all 2^32, that the weighted choice sends to the member. */
  ghost function HashesOf(ms: seq<Member>, m: Member): set<int>
    requires ms != []
  {
    set h: nat | h < HASHES && Weighted(ms, Hashed(h)) == Some(m)
  }

  /** Whichever members of a ready pool are left after filtering, each of them receives its exact
      share of the session hashes, as long as their weights add up within 64 bits. */
  lemma MemberShare(pool: seq<Member>, p: Member -> bool, i: nat)
    requires Ready(pool) && i < |Keep(pool, p)|
    requires Sum(WeightsOf(Keep(pool, p))) < LIMIT
    ensures var ms := Keep(pool, p);
            var total := Sum(WeightsOf(ms));
            && 0 < total
            && |HashesOf(ms, ms[i])| == (HASHES / total) * ms[i].weight
                 + Overlap(HASHES % total, Start(WeightsOf(ms), i), Start(WeightsOf(ms), i + 1))
  {
    KeepIsProportional(pool, p);
    ShareAmong(Keep(pool, p), i);
  }

  lemma ShareAmong(ms: seq<Member>, i: nat)
    requires Proportional(ms) && i < |ms| && Sum(WeightsOf(ms)) < LIMIT
    ensures var total := Sum(WeightsOf(ms));
            && 0 < total
            && |HashesOf(ms, ms[i])| == (HASHES / total) * ms[i].weight
                 + Overlap(HASHES % total, Start(WeightsOf(ms), i), Start(WeightsOf(ms), i + 1))
  {
    HashesOfEntry(ms, i);
    HashShare(WeightsOf(ms), i);
  }

  /** That share lies between weight times floor and weight times ceiling of 2^32 over the total. */
  lemma MemberShareIsProportional(pool: seq<Member>, p: Member -> bool, i: nat)
    requires Ready(pool) && i < |Keep(pool, p)|
    requires Sum(WeightsOf(Keep(pool, p))) < LIMIT
    ensures var ms := Keep(pool, p);
            var total := Sum(WeightsOf(ms));
            && 0 < total
            && (HASHES / total) * ms[i].weight <= |HashesOf(ms, ms[i])|
                                               <= ((HASHES + total - 1) / total) * ms[i].weight
  {
    KeepIsProportional(pool, p);
    ShareAmongIsProportional(Keep(pool, p), i);
  }

  lemma ShareAmongIsProportional(ms: seq<Member>, i: nat)
    requires Proportional(ms) && i < |ms| && Sum(WeightsOf(ms)) < LIMIT
    ensures var total := Sum(WeightsOf(ms));
            && 0 < total
            && (HASHES / total) * ms[i].weight <= |HashesOf(ms, ms[i])|
                                               <= ((HASHES + total - 1) / total) * ms[i].weight
  {
    HashesOfEntry(ms, i);
    HashShareIsProportional(WeightsOf(ms), i);
  }

  lemma HashesOfEntry(ms: seq<Member>, i: nat)
    requires Proportional(ms) && i < |ms|
    ensures HashesOf(ms, ms[i]) == HashesFor(WeightsOf(ms), i)
  {
  }

  /** Two members whose weights the validator accepts: a request without a session makes Pick panic,
      and one with a session gets the first member for every hash but 0, though the second has all
      but one part of the weight. */
  lemma HeavyPoolGoesWrong(a: Member, b: Member, h: nat, n: nat)
    requires a.weight == 1 && b.weight == LIMIT - 1
    requires 1 <= h < HASHES
    ensures Weighted([a, b], Random(n)) == None
    ensures Weighted([a, b], Hashed(h)) == Some(a)
  {
    var ws := [1, LIMIT - 1];
    assert WeightsOf([a, b]) == ws;
    OverflowFallsThrough(h);
    assert HashPick(ws, h) == Scanned(ws, h) == 0;
  }

  // ----- The router ----------------------------------------------------------------------------

  class Router {
    const store: RedisStore?

    constructor (store: RedisStore?)
      ensures this.store == store
    {
      this.store := store;
    }

    /** The affinity pin as Pick sees it. */
    ghost function PinFor(session: string, trySticky: bool, upSticky: bool): Option<string>
      reads store
    {
      if trySticky && store != null && upSticky then Pinned(store.keys, session, store.now) else None
    }

    /** The members Pick chooses among. */
    ghost function HealthyNow(members: seq<Member>, upRead: bool): seq<Member>
      reads store
    {
      Healthy(members, if store != null then store.keys else map[], if store != null then store.now else 0,
              store != null && upRead)
    }

    method Pick(members: seq<Member>, session: string, trySticky: bool, crc32: string -> nat, roll: nat,
                upRead: bool, upSticky: bool)
      returns (r: PickResult)
      ensures var healthy := HealthyNow(members, upRead);
              r == if members == [] then NoMember
                   else if healthy == [] then NoHealthy
                   else
                     var chosen := Choose(healthy, PinFor(session, trySticky, upSticky), DrawFor(crc32, session, roll));
                     if chosen.Some? then Picked(chosen.value) else Panicked
      ensures Weighable(HealthyNow(members, upRead), PinFor(session, trySticky, upSticky)) ==>
                r.Picked? && ByWeight(HealthyNow(members, upRead), if session != "" then crc32(session) else roll, r.member)
    {
      if |members| == 0 {
        return NoMember;
      }
      var healthy := HealthyMembers(members, upRead);
      if |healthy| == 0 {
        return NoHealthy;
      }
      r := PickAmong(healthy, session, trySticky, crc32, roll, upSticky);
    }

    /** The choice among the healthy members: the pinned one, or by weight. */
    method PickAmong(healthy: seq<Member>, session: string, trySticky: bool, crc32: string -> nat, roll: nat, upSticky: bool)
      returns (r: PickResult)
      requires healthy != []
      ensures var chosen := Choose(healthy, PinFor(session, trySticky, upSticky), DrawFor(crc32, session, roll));
              r == if chosen.Some? then Picked(chosen.value) else Panicked
      ensures Weighable(healthy, PinFor(session, trySticky, upSticky)) ==>
                r.Picked? && ByWeight(healthy, if session != "" then crc32(session) else roll, r.member)
    {
      if Weighable(healthy, PinFor(session, trySticky, upSticky)) {
        ChoiceIsByWeight(healthy, PinFor(session, trySticky, upSticky), crc32, session, roll);
      }
      if trySticky && session != "" && store != null {
        var pinned := store.GetSticky(session, upSticky);
        if pinned.Some? {
          for i := 0 to |healthy|
            invariant FirstWithId(healthy, pinned.value) == FirstWithId(healthy[i..], pinned.value)
          {
            if healthy[i].id == pinned.value {
              return Picked(healthy[i]);
            }
            assert healthy[i..][1..] == healthy[i + 1..];
          }
        }
      }
      var m := PickWeighted(healthy, DrawFor(crc32, session, roll));
      return if m.Some? then Picked(m.value) else Panicked;
    }

    /** The weighted choice, the same scan for hashed and random draws. */
    method PickWeighted(healthy: seq<Member>, draw: Draw) returns (m: Option<Member>)
      requires healthy != []
      ensures m == Weighted(healthy, draw)
    {
      var ws := WeightsOf(healthy);
      var total := WeightTotal(ws);
      var i;
      match draw {
        case Hashed(h) =>
          i := Scan(ws, h % total);
        case Random(n) =>
          if total <= 0 {
            return None;
          }
          i := Scan(ws, n % total);
      }
      return Some(healthy[i]);
    }

    /** The two filters of Pick: disabled members first, then those in cooldown. */
    method HealthyMembers(members: seq<Member>, upRead: bool) returns (healthy: seq<Member>)
      ensures healthy == Healthy(members, if store != null then store.keys else map[],
                                 if store != null then store.now else 0, store != null && upRead)
    {
      var enabled := Filter(members, Enabled());
      var ids := seq(|enabled|, i requires 0 <= i < |enabled| => enabled[i].id);
      var healthyIds := ids;
      ghost var keys, now := if store != null then store.keys else map[], if store != null then store.now else 0;
      ghost var readable := store != null && upRead;
      if store != null {
        healthyIds := store.FilterHealthy(ids, upRead);
      }
      forall id ensures id in healthyIds <==> id in ids && !(readable && Live(keys, CoolKey(id), now)) {
        UncooledMembership(keys, ids, now, id);
      }
      var chosen: set<string> := {};
      for i := 0 to |healthyIds|
        invariant forall id :: id in chosen <==> id in healthyIds[..i]
      {
        chosen := chosen + {healthyIds[i]};
        assert healthyIds[..i + 1] == healthyIds[..i] + [healthyIds[i]];
      }
      assert healthyIds[..|healthyIds|] == healthyIds;
      healthy := Filter(enabled, IdIn(chosen));
      IdsOf(enabled, ids);
      TwoRounds(members, keys, now, readable, ids, chosen);
    }
  }

  lemma IdsOf(ms: seq<Member>, ids: seq<string>)
    requires |ids| == |ms| && forall i | 0 <= i < |ms| :: ids[i] == ms[i].id
    ensures forall id :: id in ids <==> exists m :: m in ms && m.id == id
  {
  }

  /** The filter loop that Pick and the handler run with different tests. */
  method Filter(ms: seq<Member>, p: Member -> bool) returns (kept: seq<Member>)
    ensures kept == Keep(ms, p)
  {
    kept := [];
    for i := 0 to |ms|
      invariant kept == Keep(ms[..i], p)
    {
      assert ms[..i + 1][..i] == ms[..i];
      if p(ms[i]) {
        kept := kept + [ms[i]];
      }
    }
    assert ms[..|ms|] == ms;
  }
}
