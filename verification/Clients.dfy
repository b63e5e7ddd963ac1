/** Client registry: validation, the digest index built by it, token lookup and hot reload. */
module Clients {
  import opened Wrappers
  import opened Reloading

  datatype Client = Client(name: string, tokenSHA256: string, enabled: Option<bool>)

  /** Library calls: strings.ToLower, and the lowercase hex SHA-256 digest of a token. */
  datatype Digests = Digests(lower: string -> string, hashToken: string -> string)

  predicate IsAlnum(c: char) {
    'a' <= c <= 'z' || 'A' <= c <= 'Z' || '0' <= c <= '9'
  }

  /** A name is a letter or digit followed by at most 63 letters, digits, dots, underscores or dashes. */
  predicate NameOk(name: string) {
    && 1 <= |name| <= 64
    && IsAlnum(name[0])
    && forall i | 1 <= i < |name| :: IsAlnum(name[i]) || name[i] in "._-"
  }

  /** Exactly 64 lowercase hexadecimal digits. */
  predicate HashOk(digest: string) {
    && |digest| == 64
    && forall i | 0 <= i < |digest| :: '0' <= digest[i] <= '9' || 'a' <= digest[i] <= 'f'
  }

  /** The two patterns by character codes: a letter or digit with up to 63 letters, digits, dots, dashes
      and underscores behind it; and 64 of the hexadecimal digits. */
  lemma NamePattern(first: char, rest: string)
    ensures NameOk([first] + rest) <==>
            && |rest| <= 63 && AlnumCode(first as int)
            && forall i | 0 <= i < |rest| ::
                 AlnumCode(rest[i] as int) || rest[i] as int == 45 || rest[i] as int == 46 || rest[i] as int == 95
    ensures !NameOk("")
  {
    var name := [first] + rest;
    assert forall i | 1 <= i < |name| :: name[i] == rest[i - 1];
    assert forall i | 0 <= i < |rest| :: rest[i] == name[i + 1];
  }

  predicate AlnumCode(n: int) {
    48 <= n <= 57 || 65 <= n <= 90 || 97 <= n <= 122
  }

  lemma HashPattern(digest: string)
    ensures HashOk(digest) <==>
            |digest| == 64 && forall i | 0 <= i < 64 :: 48 <= digest[i] as int <= 57 || 97 <= digest[i] as int <= 102
  {
  }

  // ----- What a valid registry is --------------------------------------------------------------

  function Digest(lib: Digests, c: Client): string {
    lib.lower(c.tokenSHA256)
  }

  ghost predicate Valid(lib: Digests, clients: seq<Client>) {
    && clients != []
    && (forall i | 0 <= i < |clients| :: NameOk(clients[i].name) && HashOk(Digest(lib, clients[i])))
    && (forall i, j | 0 <= i < j < |clients| :: clients[i].name != clients[j].name)
    && (forall i, j | 0 <= i < j < |clients| :: Digest(lib, clients[i]) != Digest(lib, clients[j]))
  }

  /** The client a digest belongs to, found by looking through the list. */
  ghost function Find(lib: Digests, clients: seq<Client>, digest: string): Option<Client> {
    if clients == [] then None
    else if Digest(lib, clients[0]) == digest then Some(clients[0].(tokenSHA256 := digest))
    else Find(lib, clients[1..], digest)
  }

  /** In a valid registry the search answers exactly when some client has the digest, and that
      client is the only one. */
  lemma {:induction false} FindIsUnique(lib: Digests, clients: seq<Client>, digest: string)
    ensures Find(lib, clients, digest).None? <==>
            forall i | 0 <= i < |clients| :: Digest(lib, clients[i]) != digest
    ensures forall i | 0 <= i < |clients| && Digest(lib, clients[i]) == digest
                       && (forall j | 0 <= j < |clients| && j != i :: Digest(lib, clients[j]) != digest) ::
              Find(lib, clients, digest) == Some(clients[i].(tokenSHA256 := digest))
  {
    if clients != [] {
      var rest := clients[1..];
      FindIsUnique(lib, rest, digest);
      assert forall i | 1 <= i < |clients| :: clients[i] == rest[i - 1];
    }
  }

  /** The index maps each digest to the client the search finds for it. */
  ghost predicate Indexes(lib: Digests, clients: seq<Client>, byHash: map<string, Client>) {
    && (forall i | 0 <= i < |clients| ::
          Digest(lib, clients[i]) in byHash
          && byHash[Digest(lib, clients[i])] == clients[i].(tokenSHA256 := Digest(lib, clients[i])))
    && forall digest | digest in byHash :: exists i :: 0 <= i < |clients| && Digest(lib, clients[i]) == digest
  }

  lemma IndexIsSearch(lib: Digests, clients: seq<Client>, byHash: map<string, Client>, digest: string)
    requires Valid(lib, clients) && Indexes(lib, clients, byHash)
    ensures Find(lib, clients, digest) == if digest in byHash then Some(byHash[digest]) else None
  {
    FindIsUnique(lib, clients, digest);
    if digest in byHash {
      var i :| 0 <= i < |clients| && Digest(lib, clients[i]) == digest;
      assert forall j | 0 <= j < |clients| && j != i :: Digest(lib, clients[j]) != digest;
    }
  }

  lemma ValidExtends(lib: Digests, clients: seq<Client>, c: Client)
    requires clients == [] || Valid(lib, clients)
    requires NameOk(c.name) && HashOk(Digest(lib, c))
    requires forall i | 0 <= i < |clients| ::
               clients[i].name != c.name && Digest(lib, clients[i]) != Digest(lib, c)
    ensures Valid(lib, clients + [c])
  {
  }

  lemma IndexExtends(lib: Digests, clients: seq<Client>, c: Client, byHash: map<string, Client>)
    requires Indexes(lib, clients, byHash) && Digest(lib, c) !in byHash
    ensures Indexes(lib, clients + [c], byHash[Digest(lib, c) := c.(tokenSHA256 := Digest(lib, c))])
  {
    var longer := clients + [c];
    forall digest | digest in byHash || digest == Digest(lib, c)
      ensures exists i :: 0 <= i < |longer| && Digest(lib, longer[i]) == digest
    {
      if digest == Digest(lib, c) {
        assert longer[|clients|] == c;
      } else {
        var i :| 0 <= i < |clients| && Digest(lib, clients[i]) == digest;
        assert longer[i] == clients[i];
      }
    }
  }

  lemma ClientTaken(lib: Digests, clients: seq<Client>, i: nat, byHash: map<string, Client>)
    requires i < |clients| && Indexes(lib, clients[..i], byHash) && (i == 0 || Valid(lib, clients[..i]))
    requires NameOk(clients[i].name) && HashOk(Digest(lib, clients[i])) && Digest(lib, clients[i]) !in byHash
    requires forall j | 0 <= j < i :: clients[j].name != clients[i].name
    ensures Valid(lib, clients[..i + 1])
    ensures var digest := Digest(lib, clients[i]);
            Indexes(lib, clients[..i + 1], byHash[digest := clients[i].(tokenSHA256 := digest)])
  {
    assert clients[..i + 1] == clients[..i] + [clients[i]];
    ValidExtends(lib, clients[..i], clients[i]);
    IndexExtends(lib, clients[..i], clients[i], byHash);
  }

  /** Reasons a list is not valid, seen at one client. */
  lemma NotValid(lib: Digests, clients: seq<Client>, i: nat, byHash: map<string, Client>)
    requires i < |clients| && Indexes(lib, clients[..i], byHash)
    requires || !NameOk(clients[i].name) || !HashOk(Digest(lib, clients[i])) || Digest(lib, clients[i]) in byHash
             || exists j :: 0 <= j < i && clients[j].name == clients[i].name
    ensures !Valid(lib, clients)
  {
  }

  datatype Fault = NoClients | MissingName | BadName | DuplicateName | MissingDigest | BadDigest | SharedToken

  /** The checks on one client, in order, against the names and digests already taken. */
  function FaultOf(c: Client, digest: string, names: set<string>, index: map<string, Client>): (f: Option<Fault>)
    ensures f.None? <==> NameOk(c.name) && c.name !in names && HashOk(digest) && digest !in index
  {
    if c.name == "" then Some(MissingName)
    else if !NameOk(c.name) then Some(BadName)
    else if c.name in names then Some(DuplicateName)
    else if digest == "" then Some(MissingDigest)
    else if !HashOk(digest) then Some(BadDigest)
    else if digest in index then Some(SharedToken)
    else None
  }

  /** Which fault is named: the first, in this order, that the client has. */
  lemma FaultIsFirst(c: Client, digest: string, names: set<string>, index: map<string, Client>)
    ensures var f := FaultOf(c, digest, names, index);
            && (f == Some(MissingName) <==> c.name == "")
            && (f == Some(BadName) <==> c.name != "" && !NameOk(c.name))
            && (f == Some(DuplicateName) <==> NameOk(c.name) && c.name in names)
            && (f == Some(MissingDigest) <==> NameOk(c.name) && c.name !in names && digest == "")
            && (f == Some(BadDigest) <==> NameOk(c.name) && c.name !in names && digest != "" && !HashOk(digest))
            && (f == Some(SharedToken) <==> NameOk(c.name) && c.name !in names && HashOk(digest) && digest in index)
  {
  }

  /** In a valid registry a token finds the client whose lowercased digest is the token's hash, under
      that digest; and nobody when there is none. */
  lemma TokenFindsItsClient(lib: Digests, clients: seq<Client>, token: string)
    requires Valid(lib, clients)
    ensures forall i | 0 <= i < |clients| && lib.lower(clients[i].tokenSHA256) == lib.hashToken(token) ::
              Find(lib, clients, lib.hashToken(token)) ==
              Some(Client(clients[i].name, lib.hashToken(token), clients[i].enabled))
    ensures (forall i | 0 <= i < |clients| :: lib.lower(clients[i].tokenSHA256) != lib.hashToken(token)) ==>
              Find(lib, clients, lib.hashToken(token)) == None
  {
    var digest := lib.hashToken(token);
    FindIsUnique(lib, clients, digest);
    forall i | 0 <= i < |clients| && lib.lower(clients[i].tokenSHA256) == digest
      ensures Find(lib, clients, digest) == Some(Client(clients[i].name, digest, clients[i].enabled))
    {
      assert Digest(lib, clients[i]) == digest;
      assert forall j | 0 <= j < |clients| && j != i :: Digest(lib, clients[j]) != digest;
    }
    assert forall i | 0 <= i < |clients| :: Digest(lib, clients[i]) == lib.lower(clients[i].tokenSHA256);
  }

  class Registry {
    const lib: Digests
    const clients: seq<Client>
    var byHash: Option<map<string, Client>>  // None until Validate has succeeded

    constructor (lib: Digests, clients: seq<Client>)
      ensures this.lib == lib && this.clients == clients && byHash.None?
    {
      this.lib := lib;
      this.clients := clients;
      byHash := None;
    }

    /** Accepts exactly the valid registries, and installs the index only then. */
    method Validate() returns (err: Option<Fault>)
      modifies this`byHash
      ensures err.None? <==> Valid(lib, clients)
      ensures err.None? ==> byHash.Some? && Indexes(lib, clients, byHash.value)
      ensures err.Some? ==> byHash == old(byHash)
    {
      if |clients| == 0 {
        return Some(NoClients);
      }
      var names: set<string> := {};
      var index: map<string, Client> := map[];
      for i := 0 to |clients|
        invariant byHash == old(byHash)
        invariant forall n :: n in names <==> exists j :: 0 <= j < i && clients[j].name == n
        invariant Indexes(lib, clients[..i], index)
        invariant i == 0 || Valid(lib, clients[..i])
      {
        var c := clients[i];
        var digest := lib.lower(c.tokenSHA256);
        var fault := FaultOf(c, digest, names, index);
        if fault.Some? {
          NotValid(lib, clients, i, index);
          return fault;
        }
        names := names + {c.name};
        ClientTaken(lib, clients, i, index);
        index := index[digest := c.(tokenSHA256 := digest)];
      }
      assert clients[..|clients|] == clients;
      byHash := Some(index);
      return None;
    }

    /** After a successful Validate a non-empty token resolves to the one client whose
        lowercased digest is the token's hash, or to nobody. */
    method Lookup(token: string) returns (c: Option<Client>)
      ensures token == "" || byHash.None? ==> c.None?
      ensures token != "" && byHash.Some? && Valid(lib, clients) && Indexes(lib, clients, byHash.value) ==>
                c == Find(lib, clients, lib.hashToken(token))
    {
      if token == "" || byHash.None? {
        return None;
      }
      var hash := lib.hashToken(token);
      if Valid(lib, clients) && Indexes(lib, clients, byHash.value) {
        IndexIsSearch(lib, clients, byHash.value, hash);
      }
      return if hash in byHash.value then Some(byHash.value[hash]) else None;
    }
  }

  // ----- Loading -------------------------------------------------------------------------------

  datatype FileRead = Unreadable | Unparsable | Parsed(clients: seq<Client>)

  ghost function Loaded(file: FileRead, lib: Digests): Option<seq<Client>> {
    if file.Parsed? && Valid(lib, file.clients) then Some(file.clients) else None
  }

  ghost function Load(lib: Digests): FileRead -> Option<seq<Client>> {
    (file: FileRead) => Loaded(file, lib)
  }

  method LoadFile(file: FileRead, lib: Digests) returns (r: Registry?)
    ensures r != null <==> Loaded(file, lib).Some?
    ensures r != null ==> fresh(r) && r.lib == lib && Some(r.clients) == Loaded(file, lib)
    ensures r != null ==> r.byHash.Some? && Indexes(lib, r.clients, r.byHash.value)
  {
    if !file.Parsed? {
      return null;
    }
    var registry := new Registry(lib, file.clients);
    var err := registry.Validate();
    if err.Some? {
      return null;
    }
    return registry;
  }

  class Loader {
    const lib: Digests
    var registry: Registry?

    /** The active registry is always one that validated, with its index in place. */
    ghost predicate Ready()
      reads this, registry
    {
      registry != null ==>
        && registry.lib == lib && Valid(lib, registry.clients)
        && registry.byHash.Some? && Indexes(lib, registry.clients, registry.byHash.value)
    }

    ghost function Contents(): Option<seq<Client>>
      reads this, registry
    {
      if registry == null then None else Some(registry.clients)
    }

    constructor (lib: Digests)
      ensures this.lib == lib && registry == null
    {
      this.lib := lib;
      registry := null;
    }

    /** An invalid edit keeps the previous registry object, index included. */
    method Reload(file: FileRead) returns (ok: bool)
      requires Ready()
      modifies this`registry
      ensures Ready()
      ensures ok <==> Loaded(file, lib).Some?
      ensures ok ==> fresh(registry) && Contents() == Loaded(file, lib)
      ensures !ok ==> registry == old(registry)
    {
      var r := LoadFile(file, lib);
      if r == null {
        return false;
      }
      registry := r;
      return true;
    }

    /** The watch loop: after any run of notices the active registry is what replaying the versions
        they read gives, and what went wrong was reported. */
    method Watch(notices: seq<Notice<FileRead>>, onError: bool) returns (reports: nat)
      requires Ready()
      modifies this`registry
      ensures Ready()
      ensures Contents() == Replay(old(Contents()), Versions(notices, Load(lib)))
      ensures reports == if onError then Failures(Versions(notices, Load(lib))) + WatchErrors(notices) else 0
    {
      reports := 0;
      for i := 0 to |notices|
        invariant Ready()
        invariant reports == if onError then Failures(Versions(notices[..i], Load(lib))) + WatchErrors(notices[..i])
                             else 0
        invariant Contents() == Replay(old(Contents()), Versions(notices[..i], Load(lib)))
      {
        OneMoreNotice(old(Contents()), notices, i, Load(lib));
        match notices[i] {
          case Changed(file) =>
            var ok := Reload(file);
            if !ok && onError {
              reports := reports + 1;
            }
          case Unrelated =>
          case WatchError =>
            if onError {
              reports := reports + 1;
            }
        }
      }
      assert notices[..|notices|] == notices;
    }
  }
}
