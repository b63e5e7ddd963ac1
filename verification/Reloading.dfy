/** Hot reload of a configuration file, for any kind of content: what is active after a history
    of file versions, some of which fail to load. */
module Reloading {
  import opened Wrappers

  /** The active value after the versions were read one after the other; a version that does
      not load is None and leaves the active value alone. */
  function Replay<V>(active: Option<V>, versions: seq<Option<V>>): Option<V>
    decreases versions
  {
    if versions == [] then active
    else Replay(if versions[0].Some? then versions[0] else active, versions[1..])
  }

  /** How many of the versions did not load. */
  function Failures<V>(versions: seq<Option<V>>): nat {
    if versions == [] then 0 else (if versions[0].Some? then 0 else 1) + Failures(versions[1..])
  }

  /** Version i is the latest one that loads. */
  ghost predicate IsLatest<V>(versions: seq<Option<V>>, i: nat) {
    && i < |versions| && versions[i].Some?
    && forall j | i < j < |versions| :: versions[j].None?
  }

  lemma LatestInRest<V>(versions: seq<Option<V>>, i: nat)
    requires versions != []
    ensures IsLatest(versions[1..], i) <==> IsLatest(versions, i + 1)
  {
  }

  /** The active value is the latest version that loads, or the first value when none does. */
  lemma {:induction false} ReplayIsLatest<V>(active: Option<V>, versions: seq<Option<V>>)
    ensures forall i: nat | IsLatest(versions, i) :: Replay(active, versions) == versions[i]
    ensures (forall i: nat :: !IsLatest(versions, i)) ==>
              Replay(active, versions) == active && forall i | 0 <= i < |versions| :: versions[i].None?
    decreases versions
  {
    if versions != [] {
      var rest := versions[1..];
      var next := if versions[0].Some? then versions[0] else active;
      ReplayIsLatest(next, rest);
      forall i: nat | IsLatest(versions, i) ensures Replay(active, versions) == versions[i] {
        if i == 0 {
          forall j: nat ensures !IsLatest(rest, j) {
            if j < |rest| {
              assert rest[j] == versions[j + 1];
            }
          }
        } else {
          assert IsLatest(rest, i - 1);
        }
      }
      if forall i: nat :: !IsLatest(versions, i) {
        forall i: nat ensures !IsLatest(rest, i) {
          LatestInRest(versions, i);
        }
        assert !IsLatest(versions, 0);
      }
    }
  }

  lemma {:induction false} ReplaySnoc<V>(active: Option<V>, versions: seq<Option<V>>, last: Option<V>)
    ensures Replay(active, versions + [last]) ==
            if last.Some? then last else Replay(active, versions)
    ensures Failures(versions + [last]) == Failures(versions) + if last.Some? then 0 else 1
    decreases versions
  {
    if versions == [] {
      assert versions + [last] == [last];
    } else {
      ReplaySnoc(if versions[0].Some? then versions[0] else active, versions[1..], last);
      assert (versions + [last])[1..] == versions[1..] + [last];
    }
  }

  // ----- The watch loop ------------------------------------------------------------------------

  /** What the file watcher reports: a change of the content, with what a read of the file gives at
      that moment, some other event, or an error of its own. */
  datatype Notice<F> = Changed(file: F) | Unrelated | WatchError

  /** The versions a run of notices reads. */
  ghost function Versions<F, V>(notices: seq<Notice<F>>, load: F -> Option<V>): seq<Option<V>> {
    if notices == [] then []
    else
      var last := notices[|notices| - 1];
      Versions(notices[..|notices| - 1], load) + if last.Changed? then [load(last.file)] else []
  }

  /** How many errors of the watcher itself a run of notices brings. */
  function WatchErrors<F>(notices: seq<Notice<F>>): nat {
    if notices == [] then 0
    else WatchErrors(notices[..|notices| - 1]) + if notices[|notices| - 1].WatchError? then 1 else 0
  }

  /** What one more notice adds. */
  lemma OneMoreNotice<F, V>(active: Option<V>, notices: seq<Notice<F>>, i: nat, load: F -> Option<V>)
    requires i < |notices|
    ensures var before, after := Versions(notices[..i], load), Versions(notices[..i + 1], load);
            match notices[i]
            case Changed(file) =>
              && Replay(active, after) == (if load(file).Some? then load(file) else Replay(active, before))
              && Failures(after) == Failures(before) + if load(file).Some? then 0 else 1
            case _ => after == before
    ensures WatchErrors(notices[..i + 1]) == WatchErrors(notices[..i]) + if notices[i].WatchError? then 1 else 0
  {
    assert notices[..i + 1][..i] == notices[..i];
    if notices[i].Changed? {
      ReplaySnoc(active, Versions(notices[..i], load), load(notices[i].file));
    }
  }
}
