/** Pool files: validation, defaulting and hot reload of the member list. */
module Pools {
  import opened Wrappers
  import opened Reloading

  const ANTHROPIC_OAUTH := "anthropic_oauth"
  const ANTHROPIC_API := "anthropic_api"
  const OPENROUTER := "openrouter"
  const DEEPSEEK := "deepseek"
  const GENERIC := "generic"
  const VALID_TYPES := {ANTHROPIC_OAUTH, ANTHROPIC_API, OPENROUTER, DEEPSEEK, GENERIC}

  datatype Member = Member(
    id: string,
    kind: string,
    credEnv: string,
    credFile: string,
    baseUrl: string,
    modelMap: map<string, string>,
    weight: Int64,
    enabled: Option<bool>,
    cooldownSec: Int64
  ) {
    predicate IsEnabled() {
      enabled.None? || enabled.value
    }

    predicate IsAnthropic() {
      kind == ANTHROPIC_OAUTH || kind == ANTHROPIC_API
    }
  }

  // ----- Validation ----------------------------------------------------------------------------

  datatype Fault = MissingId | DuplicateId | InvalidType | MissingCred | MissingBaseUrl | NotHttps | NegativeWeight
  datatype PoolError = NoMembers | BadMember(index: nat, fault: Fault)

  /** What one member must satisfy on its own; https says whether a URL parses with that scheme. */
  predicate Acceptable(m: Member, https: string -> bool) {
    && m.id != ""
    && m.kind in VALID_TYPES
    && (m.credEnv != "" || m.credFile != "")
    && m.baseUrl != "" && https(m.baseUrl)
    && 0 <= m.weight
  }

  /** The conditions, spelled out. */
  lemma AcceptableMeans(m: Member, https: string -> bool)
    ensures Acceptable(m, https) <==>
            && |m.id| > 0
            && (m.kind == "anthropic_oauth" || m.kind == "anthropic_api" || m.kind == "openrouter"
                || m.kind == "deepseek" || m.kind == "generic")
            && !(m.credEnv == "" && m.credFile == "")
            && |m.baseUrl| > 0 && https(m.baseUrl) && !(m.weight < 0)
  {
  }

  /** A member is disabled only by saying so. */
  lemma EnabledUnlessSaid(m: Member)
    ensures !m.IsEnabled() <==> m.enabled == Some(false)
  {
  }

  ghost predicate DistinctIds(members: seq<Member>) {
    forall i, j | 0 <= i < j < |members| :: members[i].id != members[j].id
  }

  /** What a valid pool file declares. */
  ghost predicate WellFormed(members: seq<Member>, https: string -> bool) {
    && members != []
    && (forall i | 0 <= i < |members| :: Acceptable(members[i], https))
    && DistinctIds(members)
  }

  /** The fault holds of member i. */
  ghost predicate Has(members: seq<Member>, i: nat, fault: Fault, https: string -> bool)
    requires i < |members|
  {
    var m := members[i];
    match fault
    case MissingId => m.id == ""
    case DuplicateId => exists j :: 0 <= j < i && members[j].id == m.id
    case InvalidType => m.kind !in VALID_TYPES
    case MissingCred => m.credEnv == "" && m.credFile == ""
    case MissingBaseUrl => m.baseUrl == ""
    case NotHttps => !https(m.baseUrl)
    case NegativeWeight => m.weight < 0
  }

  /** The order in which the faults of a member are looked for. */
  function Order(fault: Fault): nat {
    match fault
    case MissingId => 1
    case DuplicateId => 2
    case InvalidType => 3
    case MissingCred => 4
    case MissingBaseUrl => 5
    case NotHttps => 6
    case NegativeWeight => 7
  }

  /** Accepts exactly the well-formed pools; on a rejection it names the first bad member, and the
      first of the faults that member has. */
  method Validate(members: seq<Member>, https: string -> bool) returns (err: Option<PoolError>)
    ensures err.None? <==> WellFormed(members, https)
    ensures err == Some(NoMembers) <==> members == []
    ensures err.Some? && err.value.BadMember? ==>
              && err.value.index < |members|
              && Has(members, err.value.index, err.value.fault, https)
              && (forall f | Order(f) < Order(err.value.fault) :: !Has(members, err.value.index, f, https))
              && (err.value.index == 0 || WellFormed(members[..err.value.index], https))
  {
    if |members| == 0 {
      return Some(NoMembers);
    }
    var seen: set<string> := {};
    for i := 0 to |members|
      invariant forall id :: id in seen <==> exists j :: 0 <= j < i && members[j].id == id
      invariant forall j | 0 <= j < i :: Acceptable(members[j], https)
      invariant DistinctIds(members[..i])
    {
      var m := members[i];
      if m.id == "" {
        return Some(BadMember(i, MissingId));
      }
      if m.id in seen {
        return Some(BadMember(i, DuplicateId));
      }
      seen := seen + {m.id};
      if m.kind !in VALID_TYPES {
        return Some(BadMember(i, InvalidType));
      }
      if m.credEnv == "" && m.credFile == "" {
        return Some(BadMember(i, MissingCred));
      }
      if m.baseUrl == "" {
        return Some(BadMember(i, MissingBaseUrl));
      }
      if !https(m.baseUrl) {
        return Some(BadMember(i, NotHttps));
      }
      if m.weight < 0 {
        return Some(BadMember(i, NegativeWeight));
      }
    }
    assert members[..|members|] == members;
    return None;
  }

  // ----- Defaults ------------------------------------------------------------------------------

  function DefaultCooldown(m: Member): Int64 {
    if m.IsAnthropic() then 18000 else 60
  }

  function Defaulted(m: Member): Member {
    m.(weight := if m.weight == 0 then 1 else m.weight,
       cooldownSec := if m.cooldownSec == 0 then DefaultCooldown(m) else m.cooldownSec)
  }

  function DefaultedPool(members: seq<Member>): seq<Member> {
    seq(|members|, i requires 0 <= i < |members| => Defaulted(members[i]))
  }

  /** What the rest of the proxy relies on in an active pool. */
  ghost predicate Ready(members: seq<Member>) {
    && members != []
    && DistinctIds(members)
    && forall i | 0 <= i < |members| ::
         members[i].id != "" && 1 <= members[i].weight && members[i].cooldownSec != 0
  }

  // ----- Loading -------------------------------------------------------------------------------

  /** One attempt to read the file: the read fails, the parse fails, or members come out. */
  datatype FileRead = Unreadable | Unparsable | Parsed(members: seq<Member>)

  ghost function Loaded(file: FileRead, https: string -> bool): Option<seq<Member>> {
    if file.Parsed? && WellFormed(file.members, https) then Some(DefaultedPool(file.members)) else None
  }

  lemma LoadedIsReady(file: FileRead, https: string -> bool)
    requires Loaded(file, https).Some?
    ensures Ready(Loaded(file, https).value)
  {
  }

  /** A loaded pool is the file's, member by member, but for a weight of 0, which becomes 1, and a
      cooldown of 0, which becomes five hours for the Anthropic types and a minute for the others. */
  lemma LoadedIsTheFile(file: FileRead, https: string -> bool)
    requires Loaded(file, https).Some?
    ensures var pool := Loaded(file, https).value;
            && |pool| == |file.members|
            && forall i | 0 <= i < |pool| ::
                 var m := file.members[i];
                 pool[i] == m.(weight := if m.weight == 0 then 1 else m.weight,
                               cooldownSec := if m.cooldownSec != 0 then m.cooldownSec
                                              else if m.kind == "anthropic_oauth" || m.kind == "anthropic_api" then 18000
                                              else 60)
  {
  }

  /** Fills in the defaults of a decoded pool, in place. */
  method ApplyDefaults(p: array<Member>)
    modifies p
    ensures p[..] == DefaultedPool(old(p[..]))
  {
    for i := 0 to p.Length
      invariant forall k | 0 <= k < i :: p[k] == Defaulted(old(p[k]))
      invariant forall k | i <= k < p.Length :: p[k] == old(p[k])
    {
      if p[i].weight == 0 {
        p[i] := p[i].(weight := 1);
      }
      if p[i].cooldownSec == 0 {
        if p[i].kind == ANTHROPIC_OAUTH || p[i].kind == ANTHROPIC_API {
          p[i] := p[i].(cooldownSec := 18000);
        } else {
          p[i] := p[i].(cooldownSec := 60);
        }
      }
    }
  }

  method LoadFile(file: FileRead, https: string -> bool) returns (p: array?<Member>)
    ensures p != null <==> Loaded(file, https).Some?
    ensures p != null ==> fresh(p) && Some(p[..]) == Loaded(file, https)
  {
    if !file.Parsed? {
      return null;
    }
    var members := file.members;
    var err := Validate(members, https);
    if err.Some? {
      return null;
    }
    p := new Member[|members|](i requires 0 <= i < |members| => members[i]);
    assert p[..] == members;
    ApplyDefaults(p);
  }

  ghost function Load(https: string -> bool): FileRead -> Option<seq<Member>> {
    (file: FileRead) => Loaded(file, https)
  }

  class Loader {
    const https: string -> bool
    var active: array?<Member>

    ghost function Contents(): Option<seq<Member>>
      reads this, active
    {
      if active == null then None else Some(active[..])
    }

    constructor (https: string -> bool)
      ensures this.https == https && active == null
    {
      this.https := https;
      active := null;
    }

    /** The constructor function of the source: no loader without a first valid version. */
    static method NewLoader(file: FileRead, https: string -> bool) returns (l: Loader?)
      ensures l != null <==> Loaded(file, https).Some?
      ensures l != null ==> fresh(l) && l.https == https && l.Contents() == Loaded(file, https)
    {
      l := new Loader(https);
      var ok := l.Reload(file);
      if !ok {
        l := null;
      }
    }

    /** A reload installs a new pool object or nothing; the object it replaces, which running
        requests still hold, is not touched. */
    method Reload(file: FileRead) returns (ok: bool)
      modifies this`active
      ensures ok <==> Loaded(file, https).Some?
      ensures ok ==> fresh(active) && Contents() == Loaded(file, https)
      ensures !ok ==> active == old(active) && Contents() == old(Contents())
    {
      if !file.Parsed? {
        return false;
      }
      var members := file.members;
      var err := Validate(members, https);
      if err.Some? {
        return false;
      }
      var p := new Member[|members|](i requires 0 <= i < |members| => members[i]);
      assert p[..] == members;
      ApplyDefaults(p);
      active := p;
      return true;
    }

    /** The watch loop: after any run of notices the active pool is what replaying the versions they
        read gives; each version that did not load and each error of the watcher was reported, if
        there is somebody to report to. */
    method Watch(notices: seq<Notice<FileRead>>, onError: bool) returns (reports: nat)
      modifies this`active
      ensures Contents() == Replay(old(Contents()), Versions(notices, Load(https)))
      ensures reports == if onError then Failures(Versions(notices, Load(https))) + WatchErrors(notices) else 0
    {
      reports := 0;
      for i := 0 to |notices|
        invariant reports == if onError then Failures(Versions(notices[..i], Load(https))) + WatchErrors(notices[..i])
                             else 0
        invariant Contents() == Replay(old(Contents()), Versions(notices[..i], Load(https)))
      {
        OneMoreNotice(old(Contents()), notices, i, Load(https));
        match notices[i] {
          case Changed(file) =>
            var ok := Reload(file);
            if !ok && onError {
              reports := reports + 1;
            }
          case Unrelated =>
          case WatchError =>
            if onError {
              reports := reports + 1;
            }
        }
      }
      assert notices[..|notices|] == notices;
    }
  }

  /** Once a loader exists, the pool it hands out is ready whatever the file goes through. */
  lemma {:induction false} ReplayIsReady(active: Option<seq<Member>>, notices: seq<Notice<FileRead>>, https: string -> bool)
    requires active.Some? && Ready(active.value)
    ensures Replay(active, Versions(notices, Load(https))).Some?
    ensures Ready(Replay(active, Versions(notices, Load(https))).value)
    decreases notices
  {
    if notices != [] {
      var n := |notices| - 1;
      ReplayIsReady(active, notices[..n], https);
      OneMoreNotice(active, notices, n, Load(https));
      assert notices[..n + 1] == notices;
      if notices[n].Changed? && Loaded(notices[n].file, https).Some? {
        LoadedIsReady(notices[n].file, https);
      }
    }
  }
}
