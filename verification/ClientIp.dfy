/** The caller's address behind trusted proxies: a right-to-left walk over the forwarding hops. */
module ClientIp {
  import opened Wrappers

  /** Library calls on addresses: strings.TrimSpace, net.SplitHostPort (None on error),
      strings.Trim of brackets, and whether an address parses and lies in a trusted block. */
  datatype Addresses = Addresses(
    trim: string -> string,
    splitHostPort: string -> Option<string>,
    unbracket: string -> string,
    trusted: string -> bool
  )

  function HostOnly(lib: Addresses, addr: string): string {
    var a := lib.trim(addr);
    if a == "" then ""
    else if lib.splitHostPort(a).Some? then lib.splitHostPort(a).value
    else lib.unbracket(a)
  }

  // ----- Specification -------------------------------------------------------------------------

  /** strings.Split at commas: always at least one part. */
  function Split(s: string): (parts: seq<string>)
    ensures parts != []
  {
    if s == [] then [[]]
    else
      var rest := Split(s[1..]);
      if s[0] == ',' then [[]] + rest else [[s[0]] + rest[0]] + rest[1..]
  }

  function HopOf(lib: Addresses, part: string): seq<string> {
    var hop := HostOnly(lib, lib.trim(part));
    if hop != "" then [hop] else []
  }

  function PartHops(lib: Addresses, parts: seq<string>): seq<string> {
    if parts == [] then []
    else PartHops(lib, parts[..|parts| - 1]) + HopOf(lib, parts[|parts| - 1])
  }

  /** All hops of the header lines, left to right. */
  function Hops(lib: Addresses, lines: seq<string>): seq<string> {
    if lines == [] then []
    else Hops(lib, lines[..|lines| - 1]) + PartHops(lib, Split(lines[|lines| - 1]))
  }

  /** The rightmost hop that is not a trusted proxy, or the peer when all are. */
  function Rightmost(lib: Addresses, hops: seq<string>, peer: string): string {
    if hops == [] then peer
    else if !lib.trusted(hops[|hops| - 1]) then hops[|hops| - 1]
    else Rightmost(lib, hops[..|hops| - 1], peer)
  }

  /** The caller's address; configured says whether any trusted block was given at all. */
  function Address(lib: Addresses, configured: bool, remoteAddr: string, lines: seq<string>): string {
    var peer := HostOnly(lib, remoteAddr);
    if configured && lib.trusted(peer) then Rightmost(lib, Hops(lib, lines), peer) else peer
  }

  function Reversed(hops: seq<string>): seq<string> {
    seq(|hops|, i requires 0 <= i < |hops| => hops[|hops| - 1 - i])
  }

  // ----- The resolver --------------------------------------------------------------------------

  method ForwardedFor(lib: Addresses, lines: seq<string>) returns (hops: seq<string>)
    ensures hops == Hops(lib, lines)
  {
    hops := [];
    for i := 0 to |lines|
      invariant hops == Hops(lib, lines[..i])
    {
      hops := AppendHops(lib, hops, Split(lines[i]));
      assert lines[..i + 1][..i] == lines[..i];
    }
    assert lines[..|lines|] == lines;
  }

  /** The inner loop: the hops of one line. */
  method AppendHops(lib: Addresses, before: seq<string>, parts: seq<string>) returns (hops: seq<string>)
    ensures hops == before + PartHops(lib, parts)
  {
    hops := before;
    for j := 0 to |parts|
      invariant hops == before + PartHops(lib, parts[..j])
    {
      assert parts[..j + 1][..j] == parts[..j];
      var hop := HostOnly(lib, lib.trim(parts[j]));
      Assoc(before, PartHops(lib, parts[..j]), HopOf(lib, parts[j]));
      if hop != "" {
        hops := hops + [hop];
      }
    }
    assert parts[..|parts|] == parts;
  }

  method Reverse(hops: seq<string>) returns (out: array<string>)
    ensures fresh(out) && out[..] == Reversed(hops)
  {
    out := new string[|hops|](_ => "");
    for i := 0 to |hops|
      invariant forall k | |hops| - i <= k < |hops| :: out[k] == hops[|hops| - 1 - k]
    {
      out[|hops| - 1 - i] := hops[i];
    }
  }

  method FirstUntrusted(lib: Addresses, walk: array<string>, ghost hops: seq<string>, peer: string) returns (ip: string)
    requires walk[..] == Reversed(hops)
    ensures ip == Rightmost(lib, hops, peer)
  {
    assert hops[..|hops|] == hops;
    for i := 0 to walk.Length
      invariant Rightmost(lib, hops, peer) == Rightmost(lib, hops[..|hops| - i], peer)
    {
      ghost var front := hops[..|hops| - i];
      assert walk[i] == walk[..][i] == front[|front| - 1];
      if !lib.trusted(walk[i]) {
        return walk[i];
      }
      assert front[..|front| - 1] == hops[..|hops| - (i + 1)];
    }
    return peer;
  }

  method FromRequest(lib: Addresses, configured: bool, remoteAddr: string, lines: seq<string>)
    returns (ip: string)
    ensures ip == Address(lib, configured, remoteAddr, lines)
  {
    var peer := HostOnly(lib, remoteAddr);
    if !configured || !lib.trusted(peer) {
      return peer;
    }
    var hops := ForwardedFor(lib, lines);
    var walk := Reverse(hops);
    ip := FirstUntrusted(lib, walk, hops, peer);
  }

  // ----- Properties ----------------------------------------------------------------------------

  /** What the walk finds, without the walk. */
  lemma {:induction false} RightmostIsUntrusted(lib: Addresses, hops: seq<string>, peer: string)
    ensures (forall i | 0 <= i < |hops| :: lib.trusted(hops[i])) ==> Rightmost(lib, hops, peer) == peer
    ensures forall i | 0 <= i < |hops| && !lib.trusted(hops[i])
                       && (forall j | i < j < |hops| :: lib.trusted(hops[j])) ::
              Rightmost(lib, hops, peer) == hops[i]
  {
    if hops != [] && lib.trusted(hops[|hops| - 1]) {
      RightmostIsUntrusted(lib, hops[..|hops| - 1], peer);
    }
  }

  /** Whatever a caller puts to the left of the first untrusted hop has no effect. */
  lemma {:induction false} LeftHopsIgnored(lib: Addresses, left: seq<string>, left': seq<string>,
                                           right: seq<string>, peer: string)
    requires exists i :: 0 <= i < |right| && !lib.trusted(right[i])
    ensures Rightmost(lib, left + right, peer) == Rightmost(lib, left' + right, peer)
  {
    var last := right[|right| - 1];
    if lib.trusted(last) {
      var front := right[..|right| - 1];
      assert (left + right)[..|left + right| - 1] == left + front;
      assert (left' + right)[..|left' + right| - 1] == left' + front;
      var i :| 0 <= i < |right| && !lib.trusted(right[i]);
      assert front[i] == right[i];
      LeftHopsIgnored(lib, left, left', front, peer);
    }
  }

  function SplitStep(c: char, parts: seq<string>): seq<string>
    requires parts != []
  {
    if c == ',' then [[]] + parts else [[c] + parts[0]] + parts[1..]
  }

  lemma SplitCons(c: char, s: string)
    ensures Split([c] + s) == SplitStep(c, Split(s))
  {
  }

  lemma SplitStepConcat(c: char, p: seq<string>, q: seq<string>)
    requires p != []
    ensures SplitStep(c, p + q) == SplitStep(c, p) + q
  {
  }

  lemma {:induction false} SplitConcat(a: string, b: string)
    ensures Split(a + ([','] + b)) == Split(a) + Split(b)
  {
    if a == [] {
      assert a + ([','] + b) == [','] + b;
      SplitCons(',', b);
    } else {
      SplitConcat(a[1..], b);
      assert a + ([','] + b) == [a[0]] + (a[1..] + ([','] + b));
      SplitCons(a[0], a[1..] + ([','] + b));
      assert Split(a) == SplitStep(a[0], Split(a[1..]));
      SplitStepConcat(a[0], Split(a[1..]), Split(b));
    }
  }

  lemma PartHopsSnoc(lib: Addresses, parts: seq<string>, last: string)
    ensures PartHops(lib, parts + [last]) == PartHops(lib, parts) + HopOf(lib, last)
  {
  }

  lemma {:induction false} PartHopsConcat(lib: Addresses, a: seq<string>, b: seq<string>)
    ensures PartHops(lib, a + b) == PartHops(lib, a) + PartHops(lib, b)
  {
    if b == [] {
      assert a + b == a;
    } else {
      var front, last := b[..|b| - 1], b[|b| - 1];
      assert a + b == (a + front) + [last];
      PartHopsSnoc(lib, a + front, last);
      PartHopsConcat(lib, a, front);
      var x, y, z := PartHops(lib, a), PartHops(lib, front), HopOf(lib, last);
      assert PartHops(lib, b) == y + z;
      Assoc(x, y, z);
    }
  }

  function JoinLines(lines: seq<string>): string
    requires lines != []
  {
    if |lines| == 1 then lines[0]
    else JoinLines(lines[..|lines| - 1]) + ([','] + lines[|lines| - 1])
  }

  lemma OneLine(lib: Addresses, line: string)
    ensures Hops(lib, [line]) == PartHops(lib, Split(line))
  {
  }

  /** Several header lines mean the same as one line that lists them all. */
  lemma {:induction false} JoinedLinesSameHops(lib: Addresses, lines: seq<string>)
    requires lines != []
    ensures Hops(lib, [JoinLines(lines)]) == Hops(lib, lines)
  {
    OneLine(lib, JoinLines(lines));
    if |lines| == 1 {
      assert lines == [lines[0]];
    } else {
      var front, last := lines[..|lines| - 1], lines[|lines| - 1];
      JoinedLinesSameHops(lib, front);
      OneLine(lib, JoinLines(front));
      SplitConcat(JoinLines(front), last);
      PartHopsConcat(lib, Split(JoinLines(front)), Split(last));
    }
  }

  lemma HopsSnoc(lib: Addresses, lines: seq<string>, last: string)
    ensures Hops(lib, lines + [last]) == Hops(lib, lines) + PartHops(lib, Split(last))
  {
    assert (lines + [last])[..|lines|] == lines;
  }

  lemma {:induction false} HopsConcat(lib: Addresses, a: seq<string>, b: seq<string>)
    ensures Hops(lib, a + b) == Hops(lib, a) + Hops(lib, b)
  {
    if b == [] {
      assert a + b == a;
    } else {
      var front, last := b[..|b| - 1], b[|b| - 1];
      assert a + b == (a + front) + [last] && b == front + [last];
      HopsSnoc(lib, a + front, last);
      HopsSnoc(lib, front, last);
      HopsConcat(lib, a, front);
      Assoc(Hops(lib, a), Hops(lib, front), PartHops(lib, Split(last)));
    }
  }

  /** Header lines to the left of one with an untrusted hop have no effect on the address. */
  lemma LeftLinesSameAddress(lib: Addresses, configured: bool, remoteAddr: string,
                             left: seq<string>, left': seq<string>, right: seq<string>)
    requires exists i :: 0 <= i < |Hops(lib, right)| && !lib.trusted(Hops(lib, right)[i])
    ensures Address(lib, configured, remoteAddr, left + right) == Address(lib, configured, remoteAddr, left' + right)
  {
    HopsConcat(lib, left, right);
    HopsConcat(lib, left', right);
    LeftHopsIgnored(lib, Hops(lib, left), Hops(lib, left'), Hops(lib, right), HostOnly(lib, remoteAddr));
  }

  /** Nor has, within a line, what stands to the left of a part with an untrusted hop. */
  lemma LeftPartSameAddress(lib: Addresses, configured: bool, remoteAddr: string,
                            left: string, left': string, right: string)
    requires exists i :: 0 <= i < |Hops(lib, [right])| && !lib.trusted(Hops(lib, [right])[i])
    ensures Address(lib, configured, remoteAddr, [left + ([','] + right)]) ==
            Address(lib, configured, remoteAddr, [left' + ([','] + right)])
  {
    TwoLines(lib, left, right);
    TwoLines(lib, left', right);
    LeftLinesSameAddress(lib, configured, remoteAddr, [left], [left'], [right]);
  }

  lemma TwoLines(lib: Addresses, left: string, right: string)
    ensures Hops(lib, [left + ([','] + right)]) == Hops(lib, [left] + [right])
  {
    var lines := [left] + [right];
    assert lines[..1] == [left];
    JoinedLinesSameHops(lib, lines);
    assert JoinLines(lines) == left + ([','] + right);
  }

  /** Joining header lines with commas does not change the address. */
  lemma JoinedLinesSameAddress(lib: Addresses, configured: bool, remoteAddr: string, lines: seq<string>)
    requires lines != []
    ensures Address(lib, configured, remoteAddr, [JoinLines(lines)]) == Address(lib, configured, remoteAddr, lines)
  {
    JoinedLinesSameHops(lib, lines);
  }

  /** A host with a port loses the port, one without loses its brackets, blank text has no host. */
  lemma HostIsBare(lib: Addresses, addr: string)
    ensures lib.trim(addr) == "" ==> HostOnly(lib, addr) == ""
    ensures forall host | lib.trim(addr) != "" && lib.splitHostPort(lib.trim(addr)) == Some(host) ::
              HostOnly(lib, addr) == host
    ensures lib.trim(addr) != "" && lib.splitHostPort(lib.trim(addr)).None? ==>
              HostOnly(lib, addr) == lib.unbracket(lib.trim(addr))
  {
  }

  lemma {:induction false} SplitPlain(s: string)
    requires ',' !in s
    ensures Split(s) == [s]
  {
    if s != [] {
      assert s[0] in s;
      SplitPlain(s[1..]);
      assert s == [s[0]] + s[1..];
    }
  }

  /** Splitting at commas undoes joining with commas. */
  lemma {:induction false} SplitOfJoin(parts: seq<string>)
    requires parts != [] && forall i | 0 <= i < |parts| :: ',' !in parts[i]
    ensures Split(JoinLines(parts)) == parts
  {
    if |parts| == 1 {
      SplitPlain(parts[0]);
    } else {
      var front, last := parts[..|parts| - 1], parts[|parts| - 1];
      SplitOfJoin(front);
      SplitConcat(JoinLines(front), last);
      SplitPlain(last);
      assert parts == front + [last];
    }
  }

  /** The hosts of the parts of a line. */
  function Hosts(lib: Addresses, parts: seq<string>): seq<string> {
    seq(|parts|, i requires 0 <= i < |parts| => HostOnly(lib, lib.trim(parts[i])))
  }

  lemma {:induction false} PartsGiveHosts(lib: Addresses, parts: seq<string>)
    requires forall i | 0 <= i < |parts| :: HostOnly(lib, lib.trim(parts[i])) != ""
    ensures PartHops(lib, parts) == Hosts(lib, parts)
  {
    if parts != [] {
      PartsGiveHosts(lib, parts[..|parts| - 1]);
    }
  }

  /** A request from a trusted peer whose header lists these parts: the address is the host of the
      part with only trusted hosts to its right, and the peer when all of them are trusted. */
  lemma AddressIsRightmostUntrusted(lib: Addresses, remoteAddr: string, parts: seq<string>)
    requires lib.trusted(HostOnly(lib, remoteAddr)) && parts != []
    requires forall i | 0 <= i < |parts| :: ',' !in parts[i] && HostOnly(lib, lib.trim(parts[i])) != ""
    ensures var address := Address(lib, true, remoteAddr, [JoinLines(parts)]);
            var hosts := Hosts(lib, parts);
            && (forall i | 0 <= i < |hosts| && !lib.trusted(hosts[i])
                           && (forall j | i < j < |hosts| :: lib.trusted(hosts[j])) :: address == hosts[i])
            && ((forall i | 0 <= i < |hosts| :: lib.trusted(hosts[i])) ==> address == HostOnly(lib, remoteAddr))
  {
    LineGivesHosts(lib, parts);
    RightmostIsUntrusted(lib, Hosts(lib, parts), HostOnly(lib, remoteAddr));
    assert Address(lib, true, remoteAddr, [JoinLines(parts)]) ==
           Rightmost(lib, Hosts(lib, parts), HostOnly(lib, remoteAddr));
  }

  lemma LineGivesHosts(lib: Addresses, parts: seq<string>)
    requires parts != []
    requires forall i | 0 <= i < |parts| :: ',' !in parts[i] && HostOnly(lib, lib.trim(parts[i])) != ""
    ensures Hops(lib, [JoinLines(parts)]) == Hosts(lib, parts)
  {
    OneLine(lib, JoinLines(parts));
    SplitOfJoin(parts);
    PartsGiveHosts(lib, parts);
  }

  /** Without a trusted peer, or without any trusted block, the header is ignored. */
  lemma UntrustedPeerIsTheAddress(lib: Addresses, configured: bool, remoteAddr: string, lines: seq<string>)
    requires !configured || !lib.trusted(HostOnly(lib, remoteAddr))
    ensures Address(lib, configured, remoteAddr, lines) == HostOnly(lib, remoteAddr)
  {
  }
}
