/** Response bodies as they are read, and the copy loop that forwards them. */
module Stream {
  import opened Wrappers
  import opened Detector
  import opened Usage

  /** Size of the buffer the copy loop reads into. */
  const CHUNK_SIZE: nat := 32 * 1024

  type Chunk = d: Bytes | |d| <= CHUNK_SIZE witness []

  /** The outcome of one Read: some bytes, perhaps none, perhaps together with an error or the
      end of the body. */
  datatype Read = Read(data: Chunk, err: bool)

  /** Everything a script of reads yields: the data up to and including the first error. A
      script that runs out is at its end. */
  function Delivered(script: seq<Read>): Bytes {
    if script == [] then []
    else if script[0].err then script[0].data
    else script[0].data + Delivered(script[1..])
  }

  // ----- How copying ends ----------------------------------------------------------------------

  /** Copying reaches the end of the body, or the client hangs up: then it holds the first kept
      bytes while the observer has already seen the first seen bytes. */
  datatype CopyEnd = Complete | HungUp(kept: nat, seen: nat)

  /** The client is behind the observer by at most one chunk. */
  predicate EndFits(end: CopyEnd, body: Bytes) {
    end.Complete? || (end.kept <= end.seen <= |body| && end.seen - end.kept <= CHUNK_SIZE)
  }

  function SeenPart(end: CopyEnd, body: Bytes): Bytes
    requires EndFits(end, body)
  {
    if end.Complete? then body else body[..end.seen]
  }

  function KeptPart(end: CopyEnd, body: Bytes): Bytes
    requires EndFits(end, body)
  {
    if end.Complete? then body else body[..end.kept]
  }

  /** The part of a write that goes out; fate is None when the write succeeds, and otherwise how
      many bytes still make it. */
  function Accepted(p: Bytes, fate: Option<nat>): Bytes {
    if fate.Some? && fate.value < |p| then p[..fate.value] else p
  }

  /** Where the copy loop ends, from read k on with that many bytes done: at the end of the body, or
      at the first write that fails. */
  function EndOf(script: seq<Read>, fates: nat -> Option<nat>, k: nat, done: nat): CopyEnd
    decreases script
  {
    if script == [] then Complete
    else
      var read := script[0];
      if read.data != [] && fates(k).Some? then
        HungUp(done + |Accepted(read.data, fates(k))|, done + |read.data|)
      else if read.err then Complete
      else EndOf(script[1..], fates, k + 1, done + |read.data|)
  }

  /** Whatever becomes of the writes, the copy ends at most one chunk behind the observer. */
  lemma {:induction false} EndOfIsNear(script: seq<Read>, fates: nat -> Option<nat>, k: nat, done: nat)
    ensures var end := EndOf(script, fates, k, done);
            end.HungUp? ==> done <= end.kept <= end.seen <= done + |Delivered(script)| && end.seen - end.kept <= CHUNK_SIZE
    decreases script
  {
    if script != [] && !script[0].err {
      EndOfIsNear(script[1..], fates, k + 1, done + |script[0].data|);
    }
  }

  lemma EndOfFits(script: seq<Read>, fates: nat -> Option<nat>)
    ensures EndFits(EndOf(script, fates, 0, 0), Delivered(script))
  {
    EndOfIsNear(script, fates, 0, 0);
  }

  // ----- The client connection -----------------------------------------------------------------

  /** The headers of an error text. */
  const PLAIN: Header := map["Content-Type" := ["text/plain; charset=utf-8"], "X-Content-Type-Options" := ["nosniff"]]

  /** The response writer: only the first status counts, and a write can fail after part of its
      bytes went out. */
  class ResponseWriter {
    var header: Header
    var status: Option<int>
    var body: Bytes

    constructor ()
      ensures Untouched()
    {
      header, status, body := map[], None, [];
    }

    /** Nothing has been sent, nor prepared to be sent. */
    predicate Untouched()
      reads this
    {
      header == map[] && status == None && body == []
    }

    method Add(name: string, value: string)
      modifies this`header
      ensures Values(header, name) == Values(old(header), name) + [value]
      ensures forall n | n != name :: Values(header, n) == Values(old(header), n)
    {
      header := header[name := Values(header, name) + [value]];
    }

    method WriteHeader(code: int)
      modifies this`status
      ensures status == if old(status).None? then Some(code) else old(status)
    {
      if status.None? {
        status := Some(code);
      }
    }

    method Write(p: Bytes, fate: Option<nat>) returns (ok: bool)
      modifies this`body
      ensures ok <==> fate.None?
      ensures body == old(body) + Accepted(p, fate)
    {
      body := body + Accepted(p, fate);
      return fate.None?;
    }

    /** http.Error. */
    method Error(text: string, code: int)
      requires Untouched()
      modifies this
      ensures status == Some(code) && body == text + "\n" && header == PLAIN
    {
      header := PLAIN;
      status := Some(code);
      body := text + "\n";
    }
  }

  /** Copies every header line; the names come in no fixed order. */
  method WriteHeaders(w: ResponseWriter, header: Header)
    requires w.header == map[]
    modifies w`header
    ensures forall n :: Values(w.header, n) == Values(header, n)
  {
    var names := header.Keys;
    while names != {}
      invariant names <= header.Keys
      invariant forall n | n !in names :: Values(w.header, n) == Values(header, n)
      invariant forall n | n in names :: Values(w.header, n) == []
    {
      var name :| name in names;
      var vals := header[name];
      for i := 0 to |vals|
        invariant forall n | n !in names :: Values(w.header, n) == Values(header, n)
        invariant forall n | n in names && n != name :: Values(w.header, n) == []
        invariant Values(w.header, name) == vals[..i]
      {
        w.Add(name, vals[i]);
        assert vals[..i + 1] == vals[..i] + [vals[i]];
      }
      assert vals[..|vals|] == vals;
      names := names - {name};
    }
  }

  // ----- The copy loop -------------------------------------------------------------------------

  /** One read of the copy loop, through the reused buffer: to the observer first, then to the
      client; a read without bytes goes nowhere. */
  method CopyRead(w: ResponseWriter, buf: array<char>, data: Chunk, observer: UsageObserver, fate: Option<nat>)
    returns (ok: bool)
    requires buf.Length == CHUNK_SIZE && observer.Valid() && observer.Exact()
    modifies w`body, observer, buf
    ensures ok <==> data == [] || fate.None?
    ensures w.body == old(w.body) + Accepted(data, fate)
    ensures observer.seen == old(observer.seen) + data
    ensures observer.Valid() && observer.Exact()
  {
    var n := |data|;
    FillBuffer(buf, data);
    if 0 < n {
      var chunk := buf[..n];
      var _ := observer.Write(chunk);
      ok := w.Write(chunk, fate);
    } else {
      ok := true;
    }
  }

  /** copyStream: every read that carries bytes is shown to the observer and written to the client,
      also when the read reports the end at the same time. fates says how the writes go. */
  method CopyStream(w: ResponseWriter, script: seq<Read>, observer: UsageObserver, fates: nat -> Option<nat>)
    returns (ghost end: CopyEnd)
    requires observer.Valid() && observer.Exact()
    modifies w`body, observer
    ensures EndFits(end, Delivered(script)) && (end.HungUp? ==> end.seen - end.kept <= 32_768)
    ensures w.body == old(w.body) + KeptPart(end, Delivered(script))
    ensures observer.seen == old(observer.seen) + SeenPart(end, Delivered(script))
    ensures observer.Valid() && observer.Exact()
    ensures end == EndOf(script, fates, 0, 0)
    ensures (forall i :: fates(i).None?) ==> end.Complete?
  {
    var buf := new char[CHUNK_SIZE];
    var rest := script;
    var k := 0;
    ghost var body, goal := Delivered(script), EndOf(script, fates, 0, 0);
    ghost var done: Bytes := [];
    while true
      invariant fresh(buf) && buf.Length == CHUNK_SIZE
      invariant done + Delivered(rest) == body
      invariant goal == EndOf(rest, fates, k, |done|)
      invariant w.body == old(w.body) + done
      invariant observer.seen == old(observer.seen) + done
      invariant observer.Valid() && observer.Exact()
      decreases |rest|
    {
      var read := if rest == [] then Read([], true) else rest[0];
      ghost var tail := if read.err then [] else Delivered(rest[1..]);
      ReadTaken(done, rest, read, tail, body);
      EndAfterRead(rest, fates, k, |done|, read);
      Assoc(old(observer.seen), done, read.data);
      var ok := CopyRead(w, buf, read.data, observer, fates(k));
      if !ok {
        end := CutShort(done, read.data, fates(k), body);
        Assoc(old(w.body), done, Accepted(read.data, fates(k)));
        return;
      }
      Assoc(old(w.body), done, read.data);
      done := done + read.data;
      k := k + 1;
      if read.err {
        return Complete;
      }
      rest := rest[1..];
    }
  }

  lemma ReadTaken(done: Bytes, rest: seq<Read>, read: Read, tail: Bytes, body: Bytes)
    requires done + Delivered(rest) == body
    requires read == (if rest == [] then Read([], true) else rest[0])
    requires tail == if read.err then [] else Delivered(rest[1..])
    ensures (done + read.data) + tail == body
  {
  }

  lemma EndAfterRead(rest: seq<Read>, fates: nat -> Option<nat>, k: nat, done: nat, read: Read)
    requires read == (if rest == [] then Read([], true) else rest[0])
    ensures EndOf(rest, fates, k, done) ==
            if read.data != [] && fates(k).Some? then HungUp(done + |Accepted(read.data, fates(k))|, done + |read.data|)
            else if read.err then Complete
            else EndOf(rest[1..], fates, k + 1, done + |read.data|)
  {
  }

  lemma CutShort(done: Bytes, chunk: Chunk, fate: Option<nat>, body: Bytes) returns (end: CopyEnd)
    requires done + chunk <= body
    ensures EndFits(end, body)
    ensures SeenPart(end, body) == done + chunk
    ensures KeptPart(end, body) == done + Accepted(chunk, fate)
    ensures end == HungUp(|done| + |Accepted(chunk, fate)|, |done| + |chunk|)
  {
    var kept := |Accepted(chunk, fate)|;
    assert body == done + chunk + body[|done| + |chunk|..];
    end := HungUp(|done| + kept, |done| + |chunk|);
  }

  method FillBuffer(buf: array<char>, data: Chunk)
    requires buf.Length == CHUNK_SIZE
    modifies buf
    ensures buf[..|data|] == data
  {
    forall i | 0 <= i < |data| {
      buf[i] := data[i];
    }
  }

  /** The reads a body held in memory is delivered in: full buffers, then the end. */
  function Chunks(body: Bytes): seq<Read> {
    if |body| <= CHUNK_SIZE then [Read(body, false), Read([], true)]
    else [Read(body[..CHUNK_SIZE], false)] + Chunks(body[CHUNK_SIZE..])
  }

  lemma {:induction false} ChunksDeliverBody(body: Bytes)
    ensures Delivered(Chunks(body)) == body
  {
    if |body| <= CHUNK_SIZE {
      assert Chunks(body)[1..] == [Read([], true)];
      assert body + [] == body;
    } else {
      ChunksDeliverBody(body[CHUNK_SIZE..]);
      assert Chunks(body)[1..] == Chunks(body[CHUNK_SIZE..]);
      assert body == body[..CHUNK_SIZE] + body[CHUNK_SIZE..];
    }
  }
}
