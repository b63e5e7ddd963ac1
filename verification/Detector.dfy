/** Failover detection: whether a response makes the proxy try another member, and for how long
    the member that sent it is then skipped. */
module Detector {
  import opened Wrappers

  /** Header lines by canonical name. */
  type Header = map<string, seq<string>>

  function Values(header: Header, name: string): seq<string> {
    if name in header then header[name] else []
  }

  /** The first value, or the empty string. */
  function Get(header: Header, name: string): string {
    if Values(header, name) == [] then "" else Values(header, name)[0]
  }

  /** Library calls: strings.ToLower, and strconv.Atoi of the trimmed text. */
  datatype Text = Text(lower: string -> string, seconds: string -> Option<int>)

  const RETRY_AFTER := "Retry-After"
  const KEYWORDS: seq<string> :=
    ["rate_limit", "overload", "oauth", "quota", "credit", "rate limit", "insufficient"]

  function Contains(s: string, part: string): bool {
    part <= s || (s != [] && Contains(s[1..], part))
  }

  function FirstKeyword(s: string, keywords: seq<string>): Option<string> {
    if keywords == [] then None
    else if Contains(s, keywords[0]) then Some(keywords[0])
    else FirstKeyword(s, keywords[1..])
  }

  predicate LimitStatus(status: int) {
    status == 429 || status == 401 || status == 529
  }

  function MayFailover(status: int, header: Header): bool {
    Get(header, RETRY_AFTER) != "" || LimitStatus(status)
  }

  datatype Verdict = Verdict(failover: bool, ttl: int, reason: string)

  function ShouldFailover(lib: Text, status: int, body: string, header: Header): Verdict {
    var retryAfter := Get(header, RETRY_AFTER);
    if retryAfter != "" then
      var seconds := lib.seconds(retryAfter);
      Verdict(true, if seconds.Some? && 0 < seconds.value then seconds.value else 0, "retry-after")
    else if !LimitStatus(status) then Verdict(false, 0, "")
    else
      var keyword := FirstKeyword(lib.lower(body), KEYWORDS);
      if keyword.Some? then Verdict(true, 0, keyword.value) else Verdict(false, 0, "")
  }

  function CooldownTTL(detected: int, memberCooldown: int, anthropic: bool): int {
    if 0 < detected then detected
    else if 0 < memberCooldown then memberCooldown
    else if anthropic then 18000
    else 60
  }

  // ----- Properties ----------------------------------------------------------------------------

  lemma {:induction false} KeywordFound(s: string, keywords: seq<string>)
    ensures var found := FirstKeyword(s, keywords);
            if found.Some? then found.value in keywords && Contains(s, found.value)
            else forall k | k in keywords :: !Contains(s, k)
  {
    if keywords != [] {
      var rest := keywords[1..];
      KeywordFound(s, rest);
      assert forall k :: k in keywords <==> k == keywords[0] || k in rest;
    }
  }

  /** The header test is the exact over-approximation of the decision: it is false precisely
      when no body at all could trigger failover. The only fact used about lower-casing is that
      it leaves the word "quota" alone. */
  lemma MayIsSomeBody(lib: Text, status: int, header: Header)
    requires lib.lower("quota") == "quota"
    ensures MayFailover(status, header) <==>
            exists body :: ShouldFailover(lib, status, body, header).failover
  {
    assert Contains("quota", "quota");
    assert KEYWORDS[3] == "quota";
    KeywordFound("quota", KEYWORDS);
    if MayFailover(status, header) {
      assert ShouldFailover(lib, status, "quota", header).failover;
    }
  }

  /** The half every response relies on, with no premise: streamed means no failover. */
  lemma StreamedNeverFailsOver(lib: Text, status: int, body: string, header: Header)
    ensures !MayFailover(status, header) ==> !ShouldFailover(lib, status, body, header).failover
  {
  }

  /** The part stands somewhere in the text. */
  ghost predicate OccursIn(s: string, part: string) {
    exists i :: 0 <= i <= |s| && OccursAt(s, part, i)
  }

  ghost predicate OccursAt(s: string, part: string, i: nat) {
    i + |part| <= |s| && s[i..i + |part|] == part
  }

  lemma OccursOneOn(s: string, part: string, i: nat)
    requires s != []
    ensures OccursAt(s[1..], part, i) <==> OccursAt(s, part, i + 1)
  {
    if i + 1 + |part| <= |s| {
      assert s[i + 1..i + 1 + |part|] == s[1..][i..i + |part|];
    }
  }

  lemma OccursFirst(s: string, part: string)
    ensures OccursAt(s, part, 0) <==> part <= s
  {
  }

  lemma OccursInRest(s: string, part: string)
    requires s != []
    ensures OccursIn(s, part) <==> part <= s || OccursIn(s[1..], part)
  {
    OccursFirst(s, part);
    if i :| 0 <= i <= |s| && OccursAt(s, part, i) {
      if i != 0 {
        OccursOneOn(s, part, i - 1);
      }
    }
    if i :| 0 <= i <= |s[1..]| && OccursAt(s[1..], part, i) {
      OccursOneOn(s, part, i);
    }
  }

  lemma {:induction false} ContainsIsOccurrence(s: string, part: string)
    ensures Contains(s, part) <==> OccursIn(s, part)
  {
    if s == [] {
      OccursFirst(s, part);
    } else {
      OccursInRest(s, part);
      ContainsIsOccurrence(s[1..], part);
    }
  }

  /** A Retry-After line that is not empty. */
  ghost predicate AsksToWait(header: Header) {
    "Retry-After" in header && header["Retry-After"] != [] && header["Retry-After"][0] != ""
  }

  ghost predicate IsKeyword(k: string) {
    || k == "rate_limit" || k == "overload" || k == "oauth" || k == "quota"
    || k == "credit" || k == "rate limit" || k == "insufficient"
  }

  lemma KeywordsAreTheSeven(k: string)
    ensures k in KEYWORDS <==> IsKeyword(k)
  {
    assert KEYWORDS[0] == "rate_limit" && KEYWORDS[1] == "overload" && KEYWORDS[2] == "oauth" && KEYWORDS[3] == "quota";
    assert KEYWORDS[4] == "credit" && KEYWORDS[5] == "rate limit" && KEYWORDS[6] == "insufficient";
  }

  /** The decision in declarative form: a Retry-After line, or one of three statuses together with a
      keyword anywhere in the lowercased body. */
  lemma FailoverExactlyWhen(lib: Text, status: int, body: string, header: Header)
    ensures ShouldFailover(lib, status, body, header).failover <==>
            || AsksToWait(header)
            || ((status == 429 || status == 401 || status == 529)
                && exists k :: IsKeyword(k) && OccursIn(lib.lower(body), k))
  {
    KeywordFound(lib.lower(body), KEYWORDS);
    forall k ensures k in KEYWORDS && Contains(lib.lower(body), k) <==> IsKeyword(k) && OccursIn(lib.lower(body), k) {
      KeywordsAreTheSeven(k);
      ContainsIsOccurrence(lib.lower(body), k);
    }
  }

  lemma {:induction false} FirstKeywordIsFirst(s: string, keywords: seq<string>, n: nat)
    requires n < |keywords| && OccursIn(s, keywords[n])
    requires forall i | 0 <= i < n :: !OccursIn(s, keywords[i])
    ensures FirstKeyword(s, keywords) == Some(keywords[n])
  {
    ContainsIsOccurrence(s, keywords[0]);
    if n != 0 {
      FirstKeywordIsFirst(s, keywords[1..], n - 1);
    }
  }

  /** The reason given: "retry-after" for such a line, and otherwise the first of the keywords, in
      the order of the list, that occurs in the lowercased body. */
  lemma ReasonIsFirstKeyword(lib: Text, status: int, body: string, header: Header, n: nat)
    ensures AsksToWait(header) ==> ShouldFailover(lib, status, body, header).reason == "retry-after"
    ensures var list := ["rate_limit", "overload", "oauth", "quota", "credit", "rate limit", "insufficient"];
            !AsksToWait(header) && (status == 429 || status == 401 || status == 529)
            && n < |list| && OccursIn(lib.lower(body), list[n])
            && (forall i | 0 <= i < n :: !OccursIn(lib.lower(body), list[i])) ==>
              ShouldFailover(lib, status, body, header).reason == list[n]
  {
    if n < |KEYWORDS| && OccursIn(lib.lower(body), KEYWORDS[n])
       && forall i | 0 <= i < n :: !OccursIn(lib.lower(body), KEYWORDS[i])
    {
      FirstKeywordIsFirst(lib.lower(body), KEYWORDS, n);
    }
  }

  /** The seconds a response asks for: the number in its Retry-After line if it is positive, and
      otherwise none. */
  lemma AskedSeconds(lib: Text, status: int, body: string, header: Header)
    ensures var asked := if AsksToWait(header) then lib.seconds(header["Retry-After"][0]) else None;
            ShouldFailover(lib, status, body, header).ttl ==
            if asked.Some? && 0 < asked.value then asked.value else 0
  {
  }

  /** Failover reasons are never the label of a transport failure. */
  lemma ReasonIsNotTransport(lib: Text, status: int, body: string, header: Header)
    requires ShouldFailover(lib, status, body, header).failover
    ensures ShouldFailover(lib, status, body, header).reason != "transport"
  {
    KeywordFound(lib.lower(body), KEYWORDS);
    assert "transport" !in KEYWORDS;
  }
}
