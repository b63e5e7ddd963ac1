/** The usage observer of the proxy: a line scanner that reads token counts out of a response
    body while the body is copied to the client, in whatever chunks it arrives. A string
    stands for a byte sequence, one char a byte. */
module Usage {
  import opened Wrappers
  import Detector

  type Bytes = string

  /** How much of a non-streaming body is held for parsing: 1 MiB. */
  const MAX_BUFFER: nat := 0x10_0000

  datatype TokenUsage = TokenUsage(input: int, output: int, cacheRead: int, cacheCreation: int, thinking: int)

  const ZERO := TokenUsage(0, 0, 0, 0, 0)

  datatype Kind = Input | Output | CacheRead | CacheCreation | Thinking

  function Count(u: TokenUsage, kind: Kind): int {
    match kind
    case Input => u.input
    case Output => u.output
    case CacheRead => u.cacheRead
    case CacheCreation => u.cacheCreation
    case Thinking => u.thinking
  }

  datatype Envelope = Envelope(input: int, output: int, cacheRead: int, cacheCreation: int, details: Option<int>)
  {
    function ThinkingTokens(): int {
      if details.None? then 0 else details.value
    }

    function Counts(): TokenUsage {
      TokenUsage(input, output, cacheRead, cacheCreation, ThinkingTokens())
    }
  }

  datatype Message = Message(usage: Option<Envelope>)
  datatype Event = Event(message: Option<Message>, usage: Option<Envelope>)

  /** The library calls the observer makes: strings.ToLower, bytes.TrimSpace, and json.Unmarshal
      into the shape of an event and into that of a whole response. The outer Option of whole is
      the parse error, the inner one an absent usage object. */
  datatype Codec = Codec(
    lower: string -> string,
    trim: Bytes -> Bytes,
    event: Bytes -> Option<Event>,
    whole: Bytes -> Option<Option<Envelope>>
  )

  const EVENT_STREAM := "text/event-stream"

  predicate IsEventStream(codec: Codec, contentType: string) {
    Detector.Contains(codec.lower(contentType), EVENT_STREAM)
  }

  // ----- What one body contains ------------------------------------------------------------

  /** Index of the first line feed, or the length when there is none. */
  function FirstLF(b: Bytes): (i: nat)
    ensures i <= |b|
    ensures i < |b| ==> b[i] == '\n'
    ensures forall k | 0 <= k < i :: b[k] != '\n'
  {
    if b == [] || b[0] == '\n' then 0 else 1 + FirstLF(b[1..])
  }

  /** The LF-terminated lines of a body, without their terminators. */
  function Lines(b: Bytes): seq<Bytes> {
    var i := FirstLF(b);
    if i == |b| then [] else [b[..i]] + Lines(b[i + 1..])
  }

  /** The bytes after the last line feed. */
  function Tail(b: Bytes): Bytes
  {
    var i := FirstLF(b);
    if i == |b| then b else Tail(b[i + 1..])
  }

  function DropCR(line: Bytes): Bytes {
    if line != [] && line[|line| - 1] == '\r' then line[..|line| - 1] else line
  }

  const PREFIX: Bytes := "data:"
  const DONE: Bytes := "[DONE]"

  /** The usage envelopes a line supplies, in the order they are merged. */
  function LineEnvelopes(codec: Codec, line: Bytes): seq<Envelope> {
    if !(PREFIX <= line) then []
    else
      var payload := codec.trim(line[|PREFIX|..]);
      if payload == [] || payload == DONE then []
      else
        match codec.event(payload)
        case None => []
        case Some(event) =>
          (if event.message.Some? && event.message.value.usage.Some?
           then [event.message.value.usage.value] else []) +
          (if event.usage.Some? then [event.usage.value] else [])
  }

  /** Every envelope of a body, in order of appearance. */
  function Envelopes(codec: Codec, lines: seq<Bytes>): seq<Envelope> {
    if lines == [] then []
    else LineEnvelopes(codec, DropCR(lines[0])) + Envelopes(codec, lines[1..])
  }

  function Max(a: int, b: int): int {
    if a < b then b else a
  }

  function Merge(u: TokenUsage, v: TokenUsage): TokenUsage {
    TokenUsage(Max(u.input, v.input), Max(u.output, v.output), Max(u.cacheRead, v.cacheRead),
               Max(u.cacheCreation, v.cacheCreation), Max(u.thinking, v.thinking))
  }

  /** Pointwise maximum of a start value with some envelopes. */
  function Gather(u: TokenUsage, es: seq<Envelope>): TokenUsage {
    if es == [] then u else Merge(Gather(u, es[..|es| - 1]), es[|es| - 1].Counts())
  }

  function StreamUsage(codec: Codec, body: Bytes): TokenUsage {
    Gather(ZERO, Envelopes(codec, Lines(body)))
  }

  function WholeUsage(codec: Codec, body: Bytes): TokenUsage {
    match codec.whole(body)
    case Some(Some(envelope)) => envelope.Counts()
    case _ => ZERO
  }

  /** What a body is worth, read in one piece. */
  function OneShot(codec: Codec, contentType: string, body: Bytes): TokenUsage {
    UsageOf(codec, IsEventStream(codec, contentType), body)
  }

  function UsageOf(codec: Codec, sse: bool, body: Bytes): TokenUsage {
    if sse then StreamUsage(codec, body)
    else if |body| <= MAX_BUFFER then WholeUsage(codec, body)
    else ZERO
  }

  // ----- Properties of the one-pass reading -------------------------------------------------

  function Unlines(lines: seq<Bytes>): Bytes {
    if lines == [] then [] else lines[0] + ['\n'] + Unlines(lines[1..])
  }

  lemma FirstLFUnique(b: Bytes, i: nat)
    requires i < |b| && b[i] == '\n' && '\n' !in b[..i]
    ensures FirstLF(b) == i
  {
  }

  /** A body that starts with a complete line. */
  lemma FirstLine(line: Bytes, rest: Bytes)
    requires '\n' !in line
    ensures FirstLF(line + ['\n'] + rest) == |line|
    ensures Lines(line + ['\n'] + rest) == [line] + Lines(rest)
    ensures Tail(line + ['\n'] + rest) == Tail(rest)
  {
    var b := line + ['\n'] + rest;
    FirstLFUnique(b, |line|);
    assert b[..|line|] == line && b[|line| + 1..] == rest;
  }

  /** Every body is empty-lined (just a tail) or starts with a complete line. */
  lemma Split(b: Bytes) returns (more: bool, line: Bytes, rest: Bytes)
    ensures !more ==> Lines(b) == [] && Tail(b) == b
    ensures more ==> '\n' !in line && b == line + ['\n'] + rest && |rest| < |b|
  {
    var i := FirstLF(b);
    more := i < |b|;
    if more {
      line, rest := b[..i], b[i + 1..];
    } else {
      line, rest := [], [];
    }
  }

  /** Cutting into lines loses nothing: the terminated lines and the tail give the body back. */
  lemma {:induction false} LinesRoundTrip(b: Bytes)
    ensures Unlines(Lines(b)) + Tail(b) == b
    decreases |b|
  {
    var more, line, rest := Split(b);
    if more {
      FirstLine(line, rest);
      LinesRoundTrip(rest);
      UnlinesCons(line, Lines(rest));
      Assoc(line + ['\n'], Unlines(Lines(rest)), Tail(rest));
    }
  }

  lemma UnlinesCons(line: Bytes, lines: seq<Bytes>)
    ensures Unlines([line] + lines) == line + ['\n'] + Unlines(lines)
  {
  }

  /** t is the end of b, and starts b or follows a line feed. */
  ghost predicate Ends(b: Bytes, t: Bytes) {
    && |t| <= |b| && t == b[|b| - |t|..]
    && (|t| < |b| ==> b[|b| - |t| - 1] == '\n')
  }

  lemma EndsBehindLine(line: Bytes, rest: Bytes, t: Bytes)
    requires Ends(rest, t)
    ensures Ends(line + ['\n'] + rest, t)
  {
  }

  /** The tail is the end of the body, after its last line feed, and holds no line feed. */
  lemma {:induction false} TailIsAfterLastLF(b: Bytes)
    ensures Ends(b, Tail(b)) && '\n' !in Tail(b)
    decreases |b|
  {
    var more, line, rest := Split(b);
    if more {
      FirstLine(line, rest);
      TailIsAfterLastLF(rest);
      EndsBehindLine(line, rest, Tail(rest));
    } else {
      assert FirstLF(b) == |b|;
    }
  }

  /** What a further chunk adds to a body: the lines of the old tail followed by the chunk. */
  lemma {:induction false} LinesExtend(b: Bytes, p: Bytes)
    ensures Lines(b + p) == Lines(b) + Lines(Tail(b) + p)
    ensures Tail(b + p) == Tail(Tail(b) + p)
    decreases |b|
  {
    var more, line, rest := Split(b);
    if more {
      LinesExtend(rest, p);
      Assoc(line + ['\n'], rest, p);
      FirstLine(line, rest);
      FirstLine(line, rest + p);
      Assoc([line], Lines(rest), Lines(Tail(rest) + p));
    } else {
      assert [] + Lines(b + p) == Lines(b + p);
    }
  }

  lemma EnvelopesCons(codec: Codec, line: Bytes, lines: seq<Bytes>)
    ensures Envelopes(codec, [line] + lines) == LineEnvelopes(codec, DropCR(line)) + Envelopes(codec, lines)
  {
  }

  lemma {:induction false} EnvelopesConcat(codec: Codec, a: seq<Bytes>, b: seq<Bytes>)
    ensures Envelopes(codec, a + b) == Envelopes(codec, a) + Envelopes(codec, b)
  {
    if a == [] {
      assert a + b == b;
    } else {
      var first, rest := a[0], a[1..];
      EnvelopesConcat(codec, rest, b);
      assert a == [first] + rest;
      Assoc([first], rest, b);
      EnvelopesCons(codec, first, rest);
      EnvelopesCons(codec, first, rest + b);
      Assoc(LineEnvelopes(codec, DropCR(first)), Envelopes(codec, rest), Envelopes(codec, b));
    }
  }

  lemma ChunkAdded(codec: Codec, b: Bytes, p: Bytes)
    ensures Envelopes(codec, Lines(b)) + Envelopes(codec, Lines(Tail(b) + p)) == Envelopes(codec, Lines(b + p))
    ensures Tail(Tail(b) + p) == Tail(b + p)
  {
    LinesExtend(b, p);
    EnvelopesConcat(codec, Lines(b), Lines(Tail(b) + p));
  }

  /** Taking the first line off a body, as the scanner does. */
  lemma LineTaken(codec: Codec, b: Bytes, line: Bytes, rest: Bytes)
    requires FirstLF(b) < |b| && line == b[..FirstLF(b)] && rest == b[FirstLF(b) + 1..]
    ensures Envelopes(codec, Lines(b)) == LineEnvelopes(codec, DropCR(line)) + Envelopes(codec, Lines(rest))
    ensures Tail(b) == Tail(rest)
  {
  }

  lemma {:induction false} GatherConcat(u: TokenUsage, a: seq<Envelope>, b: seq<Envelope>)
    ensures Gather(u, a + b) == Gather(Gather(u, a), b)
  {
    if b == [] {
      assert a + b == a;
    } else {
      GatherConcat(u, a, b[..|b| - 1]);
      assert (a + b)[..|a + b| - 1] == a + b[..|b| - 1];
    }
  }

  /** What one line off the pending bytes b leaves to do and adds to what is done. */
  lemma LineGathered(codec: Codec, b: Bytes, line: Bytes, rest: Bytes,
                     u: TokenUsage, done: seq<Envelope>, all: seq<Envelope>)
    returns (done': seq<Envelope>)
    requires FirstLF(b) < |b| && line == b[..FirstLF(b)] && rest == b[FirstLF(b) + 1..]
    requires u == Gather(ZERO, done) && done + Envelopes(codec, Lines(b)) == all
    ensures Gather(u, LineEnvelopes(codec, DropCR(line))) == Gather(ZERO, done')
    ensures done' + Envelopes(codec, Lines(rest)) == all
    ensures Tail(b) == Tail(rest)
  {
    var next := LineEnvelopes(codec, DropCR(line));
    LineTaken(codec, b, line, rest);
    GatherConcat(ZERO, done, next);
    Assoc(done, next, Envelopes(codec, Lines(rest)));
    done' := done + next;
  }

  /** m is the largest of zero and the counts of one kind on the envelopes. */
  ghost predicate Highest(m: int, es: seq<Envelope>, kind: Kind) {
    && 0 <= m
    && (forall e | e in es :: Count(e.Counts(), kind) <= m)
    && (m == 0 || exists e :: e in es && Count(e.Counts(), kind) == m)
  }

  /** Each counter of the result is the highest value any envelope reports for it: a later
      zero never overwrites a count, and the order of the events does not matter. */
  lemma {:induction false} GatherIsHighest(es: seq<Envelope>, kind: Kind)
    ensures Highest(Count(Gather(ZERO, es), kind), es, kind)
  {
    if es != [] {
      var front, last := es[..|es| - 1], es[|es| - 1];
      GatherIsHighest(front, kind);
      var m, m' := Count(Gather(ZERO, front), kind), Count(Gather(ZERO, es), kind);
      assert m' == Max(m, Count(last.Counts(), kind));
      assert es == front + [last];
      if m' != 0 && m' == m {
        var e :| e in front && Count(e.Counts(), kind) == m;
        assert e in es;
      }
    }
  }

  // ----- What the usage of a body means, told by positions -----------------------------------

  /** The bytes from i up to j are a line ended by the line feed at j. */
  ghost predicate IsLine(body: Bytes, i: nat, j: nat) {
    && i <= j < |body| && body[j] == '\n'
    && (i == 0 || body[i - 1] == '\n')
    && forall k | i <= k < j :: body[k] != '\n'
  }

  ghost predicate HasLine(body: Bytes, line: Bytes) {
    exists i: nat, j: nat :: IsLine(body, i, j) && line == body[i..j]
  }

  /** The line, less one trailing carriage return, is a data line whose payload decodes to the event. */
  ghost predicate Carries(codec: Codec, line: Bytes, event: Event) {
    var text := if line != [] && line[|line| - 1] == '\r' then line[..|line| - 1] else line;
    && 5 <= |text| && text[..5] == "data:"
    && var payload := codec.trim(text[5..]);
       payload != "" && payload != "[DONE]" && codec.event(payload) == Some(event)
  }

  /** The usage object stands in the event, under its message or at its top level. */
  ghost predicate InEvent(event: Event, e: Envelope) {
    (event.message.Some? && event.message.value.usage == Some(e)) || event.usage == Some(e)
  }

  ghost predicate InLine(codec: Codec, line: Bytes, e: Envelope) {
    exists event :: Carries(codec, line, event) && InEvent(event, e)
  }

  /** Some line of the stream reports the usage object. */
  ghost predicate Reported(codec: Codec, body: Bytes, e: Envelope) {
    exists line :: HasLine(body, line) && InLine(codec, line, e)
  }

  /** n is the largest of zero and what the reported usage objects count. */
  ghost predicate HighestOf(codec: Codec, body: Bytes, count: Envelope -> int, n: int) {
    && 0 <= n
    && (forall e | Reported(codec, body, e) :: count(e) <= n)
    && (n == 0 || exists e :: Reported(codec, body, e) && count(e) == n)
  }

  ghost function Thinking(e: Envelope): int {
    if e.details.Some? then e.details.value else 0
  }

  ghost function InputOf(): Envelope -> int { (e: Envelope) => e.input }

  ghost function OutputOf(): Envelope -> int { (e: Envelope) => e.output }

  ghost function CacheReadOf(): Envelope -> int { (e: Envelope) => e.cacheRead }

  ghost function CacheCreationOf(): Envelope -> int { (e: Envelope) => e.cacheCreation }

  ghost function ThinkingOf(): Envelope -> int { (e: Envelope) => Thinking(e) }

  /** What a stream is worth: each counter is the highest value reported for it. */
  ghost predicate StreamMeans(codec: Codec, body: Bytes, u: TokenUsage) {
    && HighestOf(codec, body, InputOf(), u.input)
    && HighestOf(codec, body, OutputOf(), u.output)
    && HighestOf(codec, body, CacheReadOf(), u.cacheRead)
    && HighestOf(codec, body, CacheCreationOf(), u.cacheCreation)
    && HighestOf(codec, body, ThinkingOf(), u.thinking)
  }

  /** What a body that is no stream is worth: the five fields of its usage object if it decodes to one
      and is at most 1 MiB long, and nothing otherwise. */
  ghost predicate WholeMeans(codec: Codec, body: Bytes, u: TokenUsage) {
    if |body| <= 1_048_576 && codec.whole(body).Some? && codec.whole(body).value.Some? then
      var e := codec.whole(body).value.value;
      && u.input == e.input && u.output == e.output
      && u.cacheRead == e.cacheRead && u.cacheCreation == e.cacheCreation
      && u.thinking == Thinking(e)
    else u == TokenUsage(0, 0, 0, 0, 0)
  }

  ghost predicate UsageMeans(codec: Codec, sse: bool, body: Bytes, u: TokenUsage) {
    if sse then StreamMeans(codec, body, u) else WholeMeans(codec, body, u)
  }

  lemma Behind(line: Bytes, rest: Bytes, b: Bytes)
    requires b == line + ['\n'] + rest
    ensures |b| == |line| + 1 + |rest| && b[|line|] == '\n' && b[|line| + 1..] == rest
    ensures forall k | |line| < k < |b| :: b[k] == rest[k - |line| - 1]
  {
  }

  lemma LineMovesBack(line: Bytes, rest: Bytes, b: Bytes, i: nat, j: nat)
    requires b == line + ['\n'] + rest && IsLine(rest, i, j)
    ensures IsLine(b, i + |line| + 1, j + |line| + 1) && b[i + |line| + 1..j + |line| + 1] == rest[i..j]
  {
    Behind(line, rest, b);
    assert b[i + |line| + 1..j + |line| + 1] == b[|line| + 1..][i..j];
  }

  lemma LineMovesForth(line: Bytes, rest: Bytes, b: Bytes, i: nat, j: nat)
    requires b == line + ['\n'] + rest && IsLine(b, i, j) && |line| < i
    ensures IsLine(rest, i - |line| - 1, j - |line| - 1) && rest[i - |line| - 1..j - |line| - 1] == b[i..j]
  {
    Behind(line, rest, b);
    var n := |line| + 1;
    assert forall k | i - n <= k < j - n :: rest[k] == b[k + n];
    assert rest[i - n..j - n] == b[i..j];
  }

  lemma FrontLine(line: Bytes, rest: Bytes, i: nat, j: nat)
    requires '\n' !in line
    requires IsLine(line + ['\n'] + rest, i, j) && i <= |line|
    ensures (line + ['\n'] + rest)[i..j] == line
  {
    var b := line + ['\n'] + rest;
    forall k | 0 <= k < |line| ensures b[k] != '\n' {
      assert b[k] == line[k] && line[k] in line;
    }
    assert b[|line|] == '\n' && b[..|line|] == line;
  }

  lemma FrontIsLine(line: Bytes, rest: Bytes)
    requires '\n' !in line
    ensures IsLine(line + ['\n'] + rest, 0, |line|) && (line + ['\n'] + rest)[0..|line|] == line
  {
    var b := line + ['\n'] + rest;
    assert forall k | 0 <= k < |line| :: b[k] == line[k] && line[k] in line;
  }

  lemma LineTakenHas(line: Bytes, rest: Bytes, x: Bytes)
    requires '\n' !in line
    ensures HasLine(line + ['\n'] + rest, x) <==> x == line || HasLine(rest, x)
  {
    var b := line + ['\n'] + rest;
    FrontIsLine(line, rest);
    if i: nat, j: nat :| IsLine(b, i, j) && x == b[i..j] {
      if i <= |line| {
        FrontLine(line, rest, i, j);
      } else {
        LineMovesForth(line, rest, b, i, j);
      }
    }
    if i: nat, j: nat :| IsLine(rest, i, j) && x == rest[i..j] {
      LineMovesBack(line, rest, b, i, j);
    }
  }

  /** The lines the scan cuts are the lines there are. */
  lemma {:induction false} LinesAreLines(body: Bytes, x: Bytes)
    ensures x in Lines(body) <==> HasLine(body, x)
    decreases |body|
  {
    var more, line, rest := Split(body);
    if more {
      FirstLine(line, rest);
      LinesAreLines(rest, x);
      LineTakenHas(line, rest, x);
    } else {
      assert FirstLF(body) == |body|;
    }
  }

  lemma LineSupplies(codec: Codec, line: Bytes, e: Envelope)
    ensures e in LineEnvelopes(codec, DropCR(line)) <==> InLine(codec, line, e)
  {
    var text := DropCR(line);
    assert PREFIX <= text <==> 5 <= |text| && text[..5] == "data:";
    if PREFIX <= text && codec.event(codec.trim(text[5..])).Some? {
      var event := codec.event(codec.trim(text[5..])).value;
      assert Carries(codec, line, event) <==> codec.trim(text[5..]) != "" && codec.trim(text[5..]) != "[DONE]";
    }
  }

  lemma {:induction false} EnvelopesAreSupplied(codec: Codec, lines: seq<Bytes>, e: Envelope)
    ensures e in Envelopes(codec, lines) <==> exists line :: line in lines && InLine(codec, line, e)
  {
    if lines != [] {
      EnvelopesAreSupplied(codec, lines[1..], e);
      LineSupplies(codec, lines[0], e);
      assert forall line :: line in lines <==> line == lines[0] || line in lines[1..];
    }
  }

  lemma EnvelopesAreReported(codec: Codec, body: Bytes, e: Envelope)
    ensures e in Envelopes(codec, Lines(body)) <==> Reported(codec, body, e)
  {
    EnvelopesAreSupplied(codec, Lines(body), e);
    forall line ensures line in Lines(body) <==> HasLine(body, line) {
      LinesAreLines(body, line);
    }
  }

  lemma CountIsHighest(codec: Codec, body: Bytes, kind: Kind, count: Envelope -> int)
    requires forall e: Envelope :: count(e) == Count(e.Counts(), kind)
    ensures HighestOf(codec, body, count, Count(StreamUsage(codec, body), kind))
  {
    var es := Envelopes(codec, Lines(body));
    GatherIsHighest(es, kind);
    forall e ensures e in es <==> Reported(codec, body, e) {
      EnvelopesAreReported(codec, body, e);
    }
    var n := Count(Gather(ZERO, es), kind);
    if n != 0 {
      var e :| e in es && Count(e.Counts(), kind) == n;
      assert Reported(codec, body, e) && count(e) == n;
    }
  }

  lemma InputIsHighest(codec: Codec, body: Bytes)
    ensures HighestOf(codec, body, InputOf(), StreamUsage(codec, body).input)
  {
    CountIsHighest(codec, body, Input, InputOf());
  }

  lemma OutputIsHighest(codec: Codec, body: Bytes)
    ensures HighestOf(codec, body, OutputOf(), StreamUsage(codec, body).output)
  {
    CountIsHighest(codec, body, Output, OutputOf());
  }

  lemma CacheReadIsHighest(codec: Codec, body: Bytes)
    ensures HighestOf(codec, body, CacheReadOf(), StreamUsage(codec, body).cacheRead)
  {
    CountIsHighest(codec, body, CacheRead, CacheReadOf());
  }

  lemma CacheCreationIsHighest(codec: Codec, body: Bytes)
    ensures HighestOf(codec, body, CacheCreationOf(), StreamUsage(codec, body).cacheCreation)
  {
    CountIsHighest(codec, body, CacheCreation, CacheCreationOf());
  }

  lemma ThinkingIsHighest(codec: Codec, body: Bytes)
    ensures HighestOf(codec, body, ThinkingOf(), StreamUsage(codec, body).thinking)
  {
    CountIsHighest(codec, body, Kind.Thinking, ThinkingOf());
  }

  /** The one-pass reading of a body gives what the body means. */
  lemma ReadingIsMeaning(codec: Codec, sse: bool, body: Bytes)
    ensures UsageMeans(codec, sse, body, UsageOf(codec, sse, body))
  {
    if sse {
      InputIsHighest(codec, body);
      OutputIsHighest(codec, body);
      CacheReadIsHighest(codec, body);
      CacheCreationIsHighest(codec, body);
      ThinkingIsHighest(codec, body);
    }
  }

  /** A body is read as a stream exactly when its lowercased content type mentions one. */
  lemma StreamsByContentType(codec: Codec, contentType: string)
    ensures IsEventStream(codec, contentType) <==>
            Detector.OccursIn(codec.lower(contentType), "text/event-stream")
  {
    Detector.ContainsIsOccurrence(codec.lower(contentType), EVENT_STREAM);
  }

  lemma OneShotMeans(codec: Codec, contentType: string, body: Bytes)
    ensures UsageMeans(codec, Detector.OccursIn(codec.lower(contentType), "text/event-stream"), body,
                       OneShot(codec, contentType, body))
  {
    StreamsByContentType(codec, contentType);
    ReadingIsMeaning(codec, IsEventStream(codec, contentType), body);
  }

  // ----- The observer ----------------------------------------------------------------------

  class UsageObserver {
    const codec: Codec
    const sse: bool
    var buf: Bytes
    var overflow: bool
    var pending: Bytes
    var usage: TokenUsage
    ghost var seen: Bytes  // everything written so far

    /** What holds whatever the chunks were, empty ones included. */
    ghost predicate Valid()
      reads this
    {
      && (sse ==> pending == Tail(seen) && usage == StreamUsage(codec, seen))
      && (!sse ==> buf == if |seen| <= MAX_BUFFER then seen else seen[..MAX_BUFFER])
      && (!sse && MAX_BUFFER < |seen| ==> overflow)
    }

    /** The overflow mark says exactly that the body was too long. */
    ghost predicate Exact()
      reads this
    {
      !sse ==> (overflow <==> MAX_BUFFER < |seen|)
    }

    constructor (codec: Codec, contentType: string)
      ensures Valid() && Exact()
      ensures seen == [] && this.codec == codec && sse == IsEventStream(codec, contentType)
    {
      this.codec := codec;
      sse := IsEventStream(codec, contentType);
      buf, overflow, pending, usage, seen := [], false, [], ZERO, [];
    }

    /** One chunk. Non-empty chunks keep the overflow mark exact; an empty one spoils it in
        exactly one situation, a body that fills the buffer to the last byte. */
    method Write(p: Bytes) returns (n: nat)
      requires Valid()
      modifies this
      ensures Valid()
      ensures n == |p|
      ensures seen == old(seen) + p
      ensures old(Exact()) ==> (Exact() <==> sse || p != [] || |seen| != MAX_BUFFER)
    {
      n := |p|;
      seen := seen + p;
      if sse {
        ConsumeStream(p, old(seen));
        return;
      }
      var remaining := MAX_BUFFER - |buf|;
      if 0 < remaining {
        if remaining < |p| {
          buf := buf + p[..remaining];
          overflow := true;
        } else {
          buf := buf + p;
        }
      } else {
        overflow := true;
      }
    }

    /** Takes every complete line off the pending bytes; b is what came before the chunk. */
    method ConsumeStream(p: Bytes, ghost b: Bytes)
      requires pending == Tail(b) && usage == StreamUsage(codec, b)
      modifies this`pending, this`usage
      ensures pending == Tail(b + p) && usage == StreamUsage(codec, b + p)
    {
      ChunkAdded(codec, b, p);
      pending := pending + p;
      ghost var done, all := Envelopes(codec, Lines(b)), Envelopes(codec, Lines(b + p));
      var more := true;
      while more
        invariant Tail(pending) == Tail(b + p)
        invariant usage == Gather(ZERO, done)
        invariant if more then done + Envelopes(codec, Lines(pending)) == all
                  else done == all && Tail(pending) == pending
        decreases |pending|, more
      {
        more, done := TakeLine(done, all);
      }
    }

    /** One turn of the scan: the first complete line off the pending bytes, if there is one; done is
        what has been merged so far, of all there is to merge. */
    method TakeLine(ghost done: seq<Envelope>, ghost all: seq<Envelope>) returns (more: bool, ghost done': seq<Envelope>)
      requires usage == Gather(ZERO, done) && done + Envelopes(codec, Lines(pending)) == all
      modifies this`pending, this`usage
      ensures Tail(pending) == Tail(old(pending)) && usage == Gather(ZERO, done')
      ensures if more then done' + Envelopes(codec, Lines(pending)) == all && |pending| < |old(pending)|
              else done' == all && pending == old(pending) && Tail(pending) == pending
    {
      ghost var before, u := pending, usage;
      var idx := FirstLF(pending);
      if idx == |pending| {
        assert done + [] == done;
        return false, done;
      }
      var line := pending[..idx];
      pending := pending[idx + 1..];
      ConsumeLine(DropCR(line));
      done' := LineGathered(codec, before, line, pending, u, done, all);
      more := true;
    }

    method ConsumeLine(line: Bytes)
      modifies this`usage
      ensures usage == Gather(old(usage), LineEnvelopes(codec, line))
    {
      if !(PREFIX <= line) {
        return;
      }
      var payload := codec.trim(line[|PREFIX|..]);
      if payload == [] || payload == DONE {
        return;
      }
      var parsed := codec.event(payload);
      if parsed.None? {
        return;
      }
      var event := parsed.value;
      ghost var u := usage;
      ghost var first := if event.message.Some? && event.message.value.usage.Some?
                         then [event.message.value.usage.value] else [];
      if event.message.Some? && event.message.value.usage.Some? {
        MergeUsage(event.message.value.usage.value);
      }
      assert usage == Gather(u, first);
      if event.usage.Some? {
        GatherConcat(u, first, [event.usage.value]);
        MergeUsage(event.usage.value);
      }
    }

    method MergeUsage(u: Envelope)
      modifies this`usage
      ensures usage == Merge(old(usage), u.Counts())
    {
      if usage.input < u.input { usage := usage.(input := u.input); }
      if usage.output < u.output { usage := usage.(output := u.output); }
      if usage.cacheRead < u.cacheRead { usage := usage.(cacheRead := u.cacheRead); }
      if usage.cacheCreation < u.cacheCreation { usage := usage.(cacheCreation := u.cacheCreation); }
      if usage.thinking < u.ThinkingTokens() { usage := usage.(thinking := u.ThinkingTokens()); }
    }

    method Result() returns (r: TokenUsage)
      requires Valid()
      ensures Exact() ==> r == UsageOf(codec, sse, seen) && UsageMeans(codec, sse, seen, r)
      ensures !sse && overflow ==> r == ZERO
    {
      ReadingIsMeaning(codec, sse, seen);
      if sse {
        return usage;
      }
      if overflow {
        return ZERO;
      }
      var envelope := codec.whole(buf);
      if envelope.None? || envelope.value.None? {
        return ZERO;
      }
      return envelope.value.value.Counts();
    }
  }
}
