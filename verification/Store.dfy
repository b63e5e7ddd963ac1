/** The shared Redis keyspace: cooldown and affinity keys with expiry, read and written by every
    proxy instance. Instants and durations are in nanoseconds. */
module Store {
  import opened Wrappers

  const COOLDOWN := "cooldown:"
  const STICKY := "sticky:"

  const SECOND: int := 1_000_000_000
  const HOUR: int := 3600 * SECOND

  /** The largest number of seconds whose nanoseconds fit a signed 64-bit integer. */
  const MAX_SECONDS: int := 9_223_372_036

  function CoolKey(id: string): string {
    COOLDOWN + id
  }

  function StickyKey(session: string): string {
    STICKY + session
  }

  datatype Entry = Entry(value: string, expiry: Option<int>)

  type Keys = map<string, Entry>

  predicate Live(keys: Keys, key: string, now: int) {
    key in keys && (keys[key].expiry.None? || now < keys[key].expiry.value)
  }

  /** SET with a time to live; a duration that is not positive sets no expiry. */
  function Put(keys: Keys, key: string, value: string, ttl: int, now: int): Keys {
    keys[key := Entry(value, if 0 < ttl then Some(now + ttl) else None)]
  }

  /** time.Duration(seconds) * time.Second, which wraps around in 64 bits. */
  function Duration(seconds: int): int {
    Wrap64(seconds * SECOND)
  }

  /** The ids without a live cooldown key, in order. */
  function Uncooled(keys: Keys, ids: seq<string>, now: int): seq<string> {
    if ids == [] then []
    else
      var last := ids[|ids| - 1];
      Uncooled(keys, ids[..|ids| - 1], now) + if Live(keys, CoolKey(last), now) then [] else [last]
  }

  function Pinned(keys: Keys, session: string, now: int): Option<string> {
    if session != "" && Live(keys, StickyKey(session), now) then Some(keys[StickyKey(session)].value) else None
  }

  // ----- The two kinds of key ------------------------------------------------------------------

  /** The prefixes keep the two kinds of key, and the keys within a kind, apart. */
  lemma KeysApart(id: string, session: string)
    ensures CoolKey(id) != StickyKey(session)
    ensures forall id' | CoolKey(id) == CoolKey(id') :: id == id'
    ensures forall session' | StickyKey(session) == StickyKey(session') :: session == session'
  {
    assert CoolKey(id)[0] == 'c' && StickyKey(session)[0] == 's';
    forall id' | CoolKey(id) == CoolKey(id') ensures id == id' {
      assert CoolKey(id)[|COOLDOWN|..] == id && CoolKey(id')[|COOLDOWN|..] == id';
    }
    forall session' | StickyKey(session) == StickyKey(session') ensures session == session' {
      assert StickyKey(session)[|STICKY|..] == session && StickyKey(session')[|STICKY|..] == session';
    }
  }

  lemma {:induction false} UncooledMembership(keys: Keys, ids: seq<string>, now: int, id: string)
    ensures id in Uncooled(keys, ids, now) <==> id in ids && !Live(keys, CoolKey(id), now)
  {
    if ids != [] {
      UncooledMembership(keys, ids[..|ids| - 1], now, id);
      assert ids == ids[..|ids| - 1] + [ids[|ids| - 1]];
    }
  }

  // ----- How long a cooldown lasts -------------------------------------------------------------

  /** A cooldown of a positive number of seconds lasts exactly that long if and only if the
      number is at most 9,223,372,036. */
  lemma CooldownLastsExactly(keys: Keys, id: string, seconds: int, now: int)
    requires 0 < seconds
    ensures Put(keys, CoolKey(id), "1", Duration(seconds), now)[CoolKey(id)].expiry == Some(now + seconds * SECOND)
            <==> seconds <= MAX_SECONDS
  {
  }

  /** One second more and the product wraps to a negative duration: the key never expires. */
  lemma CooldownCanBecomePermanent(keys: Keys, id: string, now: int, later: int)
    ensures Live(Put(keys, CoolKey(id), "1", Duration(MAX_SECONDS + 1), now), CoolKey(id), later)
  {
  }

  // ----- The client ----------------------------------------------------------------------------

  /** The store as the handler uses it. Each operation is told whether the server answers. */
  class RedisStore {
    var keys: Keys
    var now: int

    constructor (now: int)
      ensures keys == map[] && this.now == now
    {
      keys, this.now := map[], now;
    }

    method SetCooldown(id: string, ttl: int, up: bool) returns (ok: bool)
      modifies this`keys
      ensures ok == up
      ensures keys == if up then Put(old(keys), CoolKey(id), "1", ttl, now) else old(keys)
    {
      if !up {
        return false;
      }
      keys := Put(keys, CoolKey(id), "1", ttl, now);
      return true;
    }

    /** Fails open: without an answer every id is healthy. */
    method FilterHealthy(ids: seq<string>, up: bool) returns (healthy: seq<string>)
      ensures healthy == if up then Uncooled(keys, ids, now) else ids
    {
      if |ids| == 0 || !up {
        return ids;
      }
      var vals: seq<Option<string>> := [];
      for i := 0 to |ids|
        invariant |vals| == i
        invariant forall k | 0 <= k < i :: vals[k].Some? <==> Live(keys, CoolKey(ids[k]), now)
      {
        var key := COOLDOWN + ids[i];
        vals := vals + [if Live(keys, key, now) then Some(keys[key].value) else None];
      }
      healthy := [];
      for i := 0 to |vals|
        invariant healthy == Uncooled(keys, ids[..i], now)
      {
        assert ids[..i + 1][..i] == ids[..i];
        if vals[i].None? {
          healthy := healthy + [ids[i]];
        }
      }
      assert ids[..|ids|] == ids;
    }

    method GetSticky(session: string, up: bool) returns (pinned: Option<string>)
      ensures pinned == if up then Pinned(keys, session, now) else None
    {
      if session == "" || !up {
        return None;
      }
      var key := STICKY + session;
      return if Live(keys, key, now) then Some(keys[key].value) else None;
    }

    method SetSticky(session: string, id: string, ttl: int, up: bool) returns (ok: bool)
      modifies this`keys
      ensures ok == (up || session == "")
      ensures keys == if up && session != "" then Put(old(keys), StickyKey(session), id, ttl, now) else old(keys)
    {
      if session == "" {
        return true;
      }
      if !up {
        return false;
      }
      keys := Put(keys, STICKY + session, id, ttl, now);
      return true;
    }

    /** Time passes. */
    method Elapse(d: nat)
      modifies this`now
      ensures now == old(now) + d
    {
      now := now + d;
    }
  }
}
