/**
 Zone transfer: a zone is sent as SOA, records, SOA, cut into messages, and read
 back by a loop that stops at the second SOA.  The loop is specified by the
 recursive functions here, and those are shown to undo the sending.
 */
module Transfer {
  import opened Text
  import opened Types
  import opened Store
  import opened Names
  import opened Database
  import opened Wire

  const MAX_AXFR_RECORDS := 100_000
  const MAX_AXFR_BYTES := 100 * 1024 * 1024

  // --- Sending ---

  /** The records the library lets out, as answers. */
  function Sendable(lib: Library, records: seq<Record>, zone: string): seq<Answer> {
    if records == [] then []
    else
      var rest, last := Sendable(lib, records[..|records| - 1], zone), ToAnswer(lib, records[|records| - 1], zone);
      if last.Some? then rest + [last.value] else rest
  }

  /** The loop over the zone's records; what does not parse is skipped. */
  method SendRecords(lib: Library, records: seq<Record>, zone: string) returns (result: seq<Answer>)
    ensures result == Sendable(lib, records, zone)
    ensures forall a :: a in result <==> exists r :: r in records && Told(lib, zone, r, a)
  {
    result := [];
    for i := 0 to |records|
      invariant result == Sendable(lib, records[..i], zone)
    {
      var a := ToAnswer(lib, records[i], zone);
      if a.Some? {
        result := result + [a.value];
      }
      assert records[..i + 1][..i] == records[..i];
    }
    assert records[..|records|] == records;
    SentMembers(lib, records, zone);
  }

  /** The answers sent are those of the records whose names parse, and no others. */
  lemma SentMembers(lib: Library, records: seq<Record>, zone: string)
    ensures forall a :: a in Sendable(lib, records, zone) <==> exists r :: r in records && Told(lib, zone, r, a)
  {
    forall a
      ensures a in Sendable(lib, records, zone) <==> exists r :: r in records && Told(lib, zone, r, a)
    {
      SendableMembers(lib, records, zone, a);
    }
  }

  lemma {:induction false} SendableMembers(lib: Library, records: seq<Record>, zone: string, a: Answer)
    ensures a in Sendable(lib, records, zone) <==> exists r :: r in records && Told(lib, zone, r, a)
    decreases |records|
  {
    if records != [] {
      var init, last := records[..|records| - 1], records[|records| - 1];
      SendableMembers(lib, init, zone, a);
      ToldIs(lib, zone, last, a);
      assert forall r :: r in records <==> r in init || r == last;
    }
  }

  lemma ToldIs(lib: Library, zone: string, r: Record, a: Answer)
    ensures ToAnswer(lib, r, zone) == Some(a) <==> Told(lib, zone, r, a)
  {
    if NamesParse(lib, r.data) {
      EncodingIsExact(lib, r.data, a.rdata);
    }
  }

  /** SOA, records, SOA. */
  function Stream(lib: Library, soa: Answer, records: seq<Record>, zone: string): seq<Answer> {
    [soa] + Sendable(lib, records, zone) + [soa]
  }

  datatype ResponseCode = NoError | Refused | NxDomain

  datatype Content = Garbled | Message(code: ResponseCode, answers: seq<Answer>)

  /** A message behind its two-byte length. */
  datatype Frame = Frame(size: u16, content: Content)

  /** Consecutive pieces of `n`, the last one perhaps shorter. */
  function Chunks<T>(s: seq<T>, n: nat): seq<seq<T>>
    requires n >= 1
  {
    if |s| == 0 then [] else if |s| <= n then [s] else [s[..n]] + Chunks(s[n..], n)
  }

  /** The length of an encoded message: its twelve-byte header and the rest. */
  function MessageSize(body: seq<Answer> -> nat, chunk: seq<Answer>): nat {
    12 + body(chunk)
  }

  predicate Fits(body: seq<Answer> -> nat, chunk: seq<Answer>) {
    MessageSize(body, chunk) <= 0xFFFF
  }

  function FrameOf(body: seq<Answer> -> nat, chunk: seq<Answer>): Frame
    requires Fits(body, chunk)
  {
    Frame(MessageSize(body, chunk), Message(NoError, chunk))
  }

  function Framed(body: seq<Answer> -> nat, chunks: seq<seq<Answer>>): (frames: seq<Frame>)
    requires forall c :: c in chunks ==> Fits(body, c)
    ensures |frames| == |chunks|
  {
    seq(|chunks|, k requires 0 <= k < |chunks| => assert chunks[k] in chunks; FrameOf(body, chunks[k]))
  }

  /** Everything before the first message that does not fit was sent, and nothing after. */
  ghost predicate UpToMisfit(body: seq<Answer> -> nat, chunks: seq<seq<Answer>>, frames: seq<Frame>) {
    && |frames| < |chunks| && !Fits(body, chunks[|frames|])
    && forall k :: 0 <= k < |frames| ==> Fits(body, chunks[k]) && frames[k] == FrameOf(body, chunks[k])
  }

  /** The sending loop; it gives up at the first message that would not fit its length. */
  method Send(answers: seq<Answer>, n: nat, body: seq<Answer> -> nat) returns (frames: seq<Frame>, complete: bool)
    requires n >= 1
    ensures complete <==> forall c :: c in Chunks(answers, n) ==> Fits(body, c)
    ensures complete ==> frames == Framed(body, Chunks(answers, n))
    ensures !complete ==> UpToMisfit(body, Chunks(answers, n), frames)
  {
    frames := [];
    var rest := answers;
    ghost var done: seq<seq<Answer>> := [];
    while rest != []
      invariant Chunks(answers, n) == done + Chunks(rest, n)
      invariant forall c :: c in done ==> Fits(body, c)
      invariant frames == Framed(body, done)
      decreases |rest|
    {
      var k := if |rest| <= n then |rest| else n;
      var chunk := rest[..k];
      assert |rest| <= n ==> chunk == rest && rest[k..] == [];
      assert Chunks(rest, n) == [chunk] + Chunks(rest[k..], n);
      if !Fits(body, chunk) {
        assert chunk == Chunks(answers, n)[|done|];
        return frames, false;
      }
      frames := frames + [FrameOf(body, chunk)];
      done := done + [chunk];
      rest := rest[k..];
    }
    complete := true;
  }

  // --- Receiving ---

  datatype Progress = Progress(soas: nat, parsed: seq<Entry>, soa: Option<SoaData>, ttl: u32)

  const START := Progress(0, [], None, 300)

  datatype PullError = BadName | ReadError | TooManyBytes | BadMessage | BadCode | TooManyRecords | NoSoa

  datatype Reading = Going(p: Progress) | Stopped(error: PullError)

  function Take(lib: Library, zone: string, p: Progress, a: Answer): Reading {
    if a.rdata.RdMissing? then Going(p)
    else if a.rdata.RdSoa? then
      Going(if p.soa.None? then p.(soas := p.soas + 1, soa := Some(ReadSoa(a.rdata)), ttl := a.ttl)
            else p.(soas := p.soas + 1))
    else if |p.parsed| >= MAX_AXFR_RECORDS then Stopped(TooManyRecords)
    else
      var e := FromAnswer(lib, a, zone);
      Going(if e.Some? then p.(parsed := p.parsed + [e.value]) else p)
  }

  /** The answers of one message, up to the second SOA. */
  function TakeAll(lib: Library, zone: string, p: Progress, answers: seq<Answer>): Reading
    decreases |answers|
  {
    if answers == [] || p.soas >= 2 then Going(p)
    else
      var next := Take(lib, zone, p, answers[0]);
      if next.Stopped? then next else TakeAll(lib, zone, next.p, answers[1..])
  }

  function TakeMessage(lib: Library, zone: string, p: Progress, content: Content): Reading {
    if content.Garbled? then Stopped(BadMessage)
    else if content.code != NoError then Stopped(BadCode)
    else TakeAll(lib, zone, p, content.answers)
  }

  /** Message after message, until the second SOA, an empty message or an error. */
  function TakeFrames(lib: Library, zone: string, p: Progress, bytes: nat, frames: seq<Frame>): Reading
    decreases |frames|
  {
    if frames == [] then (if p.soas >= 2 then Going(p) else Stopped(ReadError))
    else if frames[0].size == 0 then Going(p)
    else if bytes + frames[0].size > MAX_AXFR_BYTES then Stopped(TooManyBytes)
    else
      var next := TakeMessage(lib, zone, p, frames[0].content);
      if next.Stopped? || next.p.soas >= 2 then next
      else TakeFrames(lib, zone, next.p, bytes + frames[0].size, frames[1..])
  }

  datatype Pulled = Pulled(soa: SoaData, ttl: u32, parsed: seq<Entry>) | PullFailed(error: PullError)

  function Finish(r: Reading): Pulled {
    match r
    case Stopped(e) => PullFailed(e)
    case Going(p) => if p.soa.None? then PullFailed(NoSoa) else Pulled(p.soa.value, p.ttl, p.parsed)
  }

  method PullMessage(lib: Library, zone: string, p: Progress, answers: seq<Answer>) returns (r: Reading)
    requires p.soas < 2
    ensures r == TakeAll(lib, zone, p, answers)
  {
    var soas, parsed, soa, ttl := p.soas, p.parsed, p.soa, p.ttl;
    for i := 0 to |answers|
      invariant soas < 2
      invariant TakeAll(lib, zone, Progress(soas, parsed, soa, ttl), answers[i..]) == TakeAll(lib, zone, p, answers)
    {
      var a := answers[i];
      assert answers[i..][1..] == answers[i + 1..];
      if a.rdata.RdMissing? {
        continue;
      }
      if a.rdata.RdSoa? {
        soas := soas + 1;
        if soa.None? {
          ttl := a.ttl;
          soa := Some(ReadSoa(a.rdata));
        }
        if soas >= 2 {
          return Going(Progress(soas, parsed, soa, ttl));
        }
      } else {
        if |parsed| >= MAX_AXFR_RECORDS {
          return Stopped(TooManyRecords);
        }
        var e := FromAnswer(lib, a, zone);
        if e.Some? {
          parsed := parsed + [e.value];
        }
      }
    }
    assert answers[|answers|..] == [];
    r := Going(Progress(soas, parsed, soa, ttl));
  }

  /** The reading loop, over all that arrives before the connection ends. */
  method Pull(lib: Library, zone: string, frames: seq<Frame>) returns (res: Pulled)
    ensures res == Finish(TakeFrames(lib, zone, START, 0, frames))
  {
    var p, bytes: nat, i := START, 0, 0;
    while i < |frames|
      invariant 0 <= i <= |frames| && p.soas < 2
      invariant TakeFrames(lib, zone, p, bytes, frames[i..]) == TakeFrames(lib, zone, START, 0, frames)
    {
      var frame := frames[i];
      assert frames[i..][1..] == frames[i + 1..];
      if frame.size == 0 {
        return Finish(Going(p));
      }
      bytes := bytes + frame.size;
      if bytes > MAX_AXFR_BYTES {
        return PullFailed(TooManyBytes);
      }
      if frame.content.Garbled? {
        return PullFailed(BadMessage);
      }
      if frame.content.code != NoError {
        return PullFailed(BadCode);
      }
      var r := PullMessage(lib, zone, p, frame.content.answers);
      if r.Stopped? || r.p.soas >= 2 {
        return Finish(r);
      }
      p := r.p;
      i := i + 1;
    }
    assert frames[|frames|..] == [];
    res := PullFailed(ReadError);
  }

  // --- How a zone is cut makes no difference ---

  function Flatten<T>(parts: seq<seq<T>>): seq<T> {
    if parts == [] then [] else parts[0] + Flatten(parts[1..])
  }

  lemma {:induction false} ChunksFlatten<T>(s: seq<T>, n: nat)
    requires n >= 1
    ensures Flatten(Chunks(s, n)) == s
  {
    if 0 < |s| <= n {
      assert Flatten([s]) == s + Flatten([]);
    } else if |s| > n {
      ChunksFlatten(s[n..], n);
      assert ([s[..n]] + Chunks(s[n..], n))[1..] == Chunks(s[n..], n);
    }
  }

  ghost predicate Clean(frames: seq<Frame>) {
    forall k :: 0 <= k < |frames| ==>
        frames[k].size > 0 && frames[k].content.Message? && frames[k].content.code == NoError
  }

  function AnswersOf(frames: seq<Frame>): seq<Answer>
    requires Clean(frames)
  {
    if frames == [] then [] else frames[0].content.answers + AnswersOf(frames[1..])
  }

  function BytesOf(frames: seq<Frame>): nat {
    if frames == [] then 0 else frames[0].size + BytesOf(frames[1..])
  }

  lemma {:induction false} FramedAnswers(body: seq<Answer> -> nat, chunks: seq<seq<Answer>>)
    requires forall c :: c in chunks ==> Fits(body, c)
    ensures Clean(Framed(body, chunks)) && AnswersOf(Framed(body, chunks)) == Flatten(chunks)
    decreases |chunks|
  {
    if chunks != [] {
      FramedAnswers(body, chunks[1..]);
      assert Framed(body, chunks)[1..] == Framed(body, chunks[1..]);
    }
  }

  function Then(lib: Library, zone: string, r: Reading, answers: seq<Answer>): Reading {
    if r.Stopped? then r else TakeAll(lib, zone, r.p, answers)
  }

  lemma {:induction false} TakeAllConcat(lib: Library, zone: string, p: Progress, a: seq<Answer>, b: seq<Answer>)
    ensures TakeAll(lib, zone, p, a + b) == Then(lib, zone, TakeAll(lib, zone, p, a), b)
    decreases |a|
  {
    if a == [] {
      assert a + b == b;
    } else if p.soas < 2 {
      assert (a + b)[0] == a[0] && (a + b)[1..] == a[1..] + b;
      var next := Take(lib, zone, p, a[0]);
      if next.Going? {
        TakeAllConcat(lib, zone, next.p, a[1..], b);
      }
    }
  }

  /** Good messages that do not end the transfer only hand their answers on to the messages behind them. */
  lemma {:induction false} FramesConcat(lib: Library, zone: string, p: Progress, bytes: nat,
                                        frames: seq<Frame>, more: seq<Frame>)
    requires Clean(frames) && p.soas < 2 && bytes + BytesOf(frames) <= MAX_AXFR_BYTES
    ensures var whole := TakeAll(lib, zone, p, AnswersOf(frames));
            TakeFrames(lib, zone, p, bytes, frames + more) ==
            if whole.Going? && whole.p.soas < 2 then TakeFrames(lib, zone, whole.p, bytes + BytesOf(frames), more)
            else whole
    decreases |frames|
  {
    if frames == [] {
      assert frames + more == more;
    } else {
      var answers, rest := frames[0].content.answers, AnswersOf(frames[1..]);
      var next := TakeAll(lib, zone, p, answers);
      TakeAllConcat(lib, zone, p, answers, rest);
      assert TakeMessage(lib, zone, p, frames[0].content) == next;
      var all := frames + more;
      assert all != [] && all[0] == frames[0] && all[1..] == frames[1..] + more;
      if next.Going? && next.p.soas < 2 {
        FramesConcat(lib, zone, next.p, bytes + frames[0].size, frames[1..], more);
      }
    }
  }

  /** Reading a zone in any messages is reading it in one, if the second SOA arrives. */
  lemma AnyCutReadsTheSame(lib: Library, zone: string, p: Progress, bytes: nat, frames: seq<Frame>)
    requires Clean(frames) && p.soas < 2 && bytes + BytesOf(frames) <= MAX_AXFR_BYTES
    ensures var whole := TakeAll(lib, zone, p, AnswersOf(frames));
            TakeFrames(lib, zone, p, bytes, frames) ==
            if whole.Going? && whole.p.soas < 2 then Stopped(ReadError) else whole
  {
    FramesConcat(lib, zone, p, bytes, frames, []);
    assert frames + [] == frames;
  }

  /**
   The first message that is not good ends the transfer, whatever follows it: an
   empty one as if the zone were complete, any other with its error.
   */
  lemma FirstBadFrameEnds(lib: Library, zone: string, frames: seq<Frame>, bad: Frame, more: seq<Frame>)
    requires Clean(frames) && BytesOf(frames) <= MAX_AXFR_BYTES && !Clean([bad])
    requires var whole := TakeAll(lib, zone, START, AnswersOf(frames)); whole.Going? && whole.p.soas < 2
    ensures var p := TakeAll(lib, zone, START, AnswersOf(frames)).p;
            Finish(TakeFrames(lib, zone, START, 0, frames + [bad] + more)) ==
            if bad.size == 0 then
              if p.soa.None? then PullFailed(NoSoa) else Pulled(p.soa.value, p.ttl, p.parsed)
            else if BytesOf(frames) + bad.size > MAX_AXFR_BYTES then PullFailed(TooManyBytes)
            else PullFailed(if bad.content.Garbled? then BadMessage else BadCode)
  {
    FramesConcat(lib, zone, START, 0, frames, [bad] + more);
    assert frames + [bad] + more == frames + ([bad] + more);
    assert bad == [bad][0];
  }

  // --- What arrives ---

  /** The entry a record should arrive as. */
  function EntryOf(lib: Library, r: Record): Entry {
    Entry(r.name, Carried(lib, r.data), r.ttl)
  }

  /** Every name of the record parses, its own in full. */
  predicate CanSend(lib: Library, r: Record, zone: string) {
    lib.parses(OwnerName(r.name, zone)) && NamesParse(lib, r.data)
  }

  /** A stored SOA record that is sent: the reader takes it for the end. */
  predicate EndsEarly(lib: Library, records: seq<Record>, zone: string) {
    exists r :: r in records && r.data.Soa? && CanSend(lib, r, zone)
  }

  /** The entries of what can be sent, up to the first stored SOA. */
  function Imported(lib: Library, records: seq<Record>, zone: string): seq<Entry> {
    if records == [] then []
    else
      var init, last := records[..|records| - 1], records[|records| - 1];
      if EndsEarly(lib, init, zone) || last.data.Soa? || !CanSend(lib, last, zone) then Imported(lib, init, zone)
      else Imported(lib, init, zone) + [EntryOf(lib, last)]
  }

  /** What the loop has after the records that follow the opening SOA. */
  function AfterBody(lib: Library, p: Progress, records: seq<Record>, zone: string): Reading {
    var entries := Imported(lib, records, zone);
    if |entries| > MAX_AXFR_RECORDS then Stopped(TooManyRecords)
    else Going(p.(soas := if EndsEarly(lib, records, zone) then 2 else 1, parsed := entries))
  }

  lemma EndsEarlySnoc(lib: Library, records: seq<Record>, zone: string)
    requires records != []
    ensures var init, last := records[..|records| - 1], records[|records| - 1];
            EndsEarly(lib, records, zone) <==>
                EndsEarly(lib, init, zone) || (last.data.Soa? && CanSend(lib, last, zone))
  {
  }

  lemma TakeOne(lib: Library, zone: string, q: Progress, r: Record)
    requires NormalZone(zone) && CanSend(lib, r, zone) && q.soas == 1 && q.soa.Some?
    ensures TakeAll(lib, zone, q, [ToAnswer(lib, r, zone).value]) ==
            if r.data.Soa? then Going(q.(soas := 2))
            else if |q.parsed| >= MAX_AXFR_RECORDS then Stopped(TooManyRecords)
            else Going(q.(parsed := q.parsed + [EntryOf(lib, r)]))
  {
    RecordRoundTrip(lib, r, zone);
    var a := ToAnswer(lib, r, zone).value;
    assert [a][1..] == [];
  }

  lemma {:induction false} BodyArrives(lib: Library, zone: string, p: Progress, records: seq<Record>)
    requires NormalZone(zone) && p.soas == 1 && p.soa.Some? && p.parsed == []
    ensures TakeAll(lib, zone, p, Sendable(lib, records, zone)) == AfterBody(lib, p, records, zone)
    decreases |records|
  {
    if records != [] {
      var init, last := records[..|records| - 1], records[|records| - 1];
      BodyArrives(lib, zone, p, init);
      EndsEarlySnoc(lib, records, zone);
      if CanSend(lib, last, zone) {
        var a := ToAnswer(lib, last, zone).value;
        TakeAllConcat(lib, zone, p, Sendable(lib, init, zone), [a]);
        var so := AfterBody(lib, p, init, zone);
        if so.Going? && so.p.soas == 1 {
          TakeOne(lib, zone, so.p, last);
        }
      }
    }
  }

  /** The opening SOA gives the zone's SOA and default TTL. */
  lemma SoaStarts(lib: Library, zone: Zone) returns (p: Progress)
    requires lib.parses(EnsureFqdn(zone.name)) && NamesParse(lib, Soa(zone.soa))
    ensures SoaAnswer(lib, zone).value.rdata.RdSoa?
    ensures TakeAll(lib, zone.name, START, [SoaAnswer(lib, zone).value]) == Going(p)
    ensures p.soas == 1 && p.parsed == [] && p.ttl == zone.defaultTtl
    ensures p.soa == Some(zone.soa.(mname := TrimDots(zone.soa.mname), rname := TrimDots(zone.soa.rname)))
  {
    SoaRoundTrip(lib, zone);
    var soa := SoaAnswer(lib, zone).value;
    p := Progress(1, [], Some(ReadSoa(soa.rdata)), zone.defaultTtl);
    assert [soa][1..] == [];
  }

  /**
   A zone sent in any way and read back: the same SOA and default TTL, and the
   records that can be sent, in order, up to the first stored SOA.
   */
  lemma TransferArrives(lib: Library, zone: Zone, records: seq<Record>, frames: seq<Frame>)
    requires NormalZone(zone.name) && lib.parses(zone.name + ".") && NamesParse(lib, Soa(zone.soa))
    requires Clean(frames) && BytesOf(frames) <= MAX_AXFR_BYTES
    requires AnswersOf(frames) == Stream(lib, SoaAnswer(lib, zone).value, records, zone.name)
    ensures var entries := Imported(lib, records, zone.name);
            Finish(TakeFrames(lib, zone.name, START, 0, frames)) ==
            if |entries| > MAX_AXFR_RECORDS then PullFailed(TooManyRecords)
            else Pulled(zone.soa.(mname := TrimDots(zone.soa.mname), rname := TrimDots(zone.soa.rname)),
                        zone.defaultTtl, entries)
  {
    var soa, name := SoaAnswer(lib, zone).value, zone.name;
    var body := Sendable(lib, records, name);
    AnyCutReadsTheSame(lib, name, START, 0, frames);
    var p := SoaStarts(lib, zone);
    TakeAllConcat(lib, name, START, [soa], body);
    BodyArrives(lib, name, p, records);
    TakeAllConcat(lib, name, START, [soa] + body, [soa]);
    var so := AfterBody(lib, p, records, name);
    if so.Going? && so.p.soas == 1 {
      assert TakeAll(lib, name, so.p, [soa]) == Going(so.p.(soas := 2)) by {
        assert [soa][1..] == [];
      }
    }
  }

  // --- Whatever a peer sends ---

  /** The entry is read from one of the answers. */
  ghost predicate From(lib: Library, zone: string, e: Entry, answers: seq<Answer>) {
    exists a :: a in answers && FromAnswer(lib, a, zone) == Some(e)
  }

  lemma {:induction false} TakenIsFrom(lib: Library, zone: string, p: Progress, answers: seq<Answer>, e: Entry)
    requires |p.parsed| <= MAX_AXFR_RECORDS && TakeAll(lib, zone, p, answers).Going?
    ensures |TakeAll(lib, zone, p, answers).p.parsed| <= MAX_AXFR_RECORDS
    ensures e in TakeAll(lib, zone, p, answers).p.parsed ==> e in p.parsed || From(lib, zone, e, answers)
    decreases |answers|
  {
    if answers != [] && p.soas < 2 {
      var next, rest := Take(lib, zone, p, answers[0]).p, answers[1..];
      TakenIsFrom(lib, zone, next, rest, e);
      assert forall a :: a in rest ==> a in answers;
      assert answers[0] in answers;
    }
  }

  ghost predicate SentIn(lib: Library, zone: string, e: Entry, frames: seq<Frame>) {
    exists k :: 0 <= k < |frames| && frames[k].content.Message? && From(lib, zone, e, frames[k].content.answers)
  }

  lemma SentInTail(lib: Library, zone: string, e: Entry, frames: seq<Frame>)
    requires frames != [] && SentIn(lib, zone, e, frames[1..])
    ensures SentIn(lib, zone, e, frames)
  {
    var rest := frames[1..];
    var k :| 0 <= k < |rest| && rest[k].content.Message? && From(lib, zone, e, rest[k].content.answers);
    assert frames[k + 1] == rest[k];
  }

  /** Between two points of the reading nothing was taken but what was sent, and no more than the limit. */
  ghost predicate ReadOk(lib: Library, zone: string, p: Progress, q: Progress, e: Entry, frames: seq<Frame>) {
    |q.parsed| <= MAX_AXFR_RECORDS && (e in q.parsed ==> e in p.parsed || SentIn(lib, zone, e, frames))
  }

  lemma ReadStep(lib: Library, zone: string, p: Progress, bytes: nat, frames: seq<Frame>)
    requires frames != [] && frames[0].size != 0 && TakeFrames(lib, zone, p, bytes, frames).Going?
    ensures frames[0].content.Message?
    ensures var next := TakeAll(lib, zone, p, frames[0].content.answers);
            && next.Going?
            && TakeFrames(lib, zone, p, bytes, frames) ==
               if next.p.soas >= 2 then next
               else TakeFrames(lib, zone, next.p, bytes + frames[0].size, frames[1..])
  {
  }

  lemma ReadFirst(lib: Library, zone: string, p: Progress, frames: seq<Frame>, e: Entry)
    requires |p.parsed| <= MAX_AXFR_RECORDS && frames != [] && frames[0].content.Message?
    requires TakeAll(lib, zone, p, frames[0].content.answers).Going?
    ensures ReadOk(lib, zone, p, TakeAll(lib, zone, p, frames[0].content.answers).p, e, frames)
  {
    TakenIsFrom(lib, zone, p, frames[0].content.answers, e);
    if From(lib, zone, e, frames[0].content.answers) {
      SentInHead(lib, zone, e, frames);
    }
  }

  lemma {:induction false} ReadIsFrom(lib: Library, zone: string, p: Progress, bytes: nat, frames: seq<Frame>, e: Entry)
    requires |p.parsed| <= MAX_AXFR_RECORDS && TakeFrames(lib, zone, p, bytes, frames).Going?
    ensures ReadOk(lib, zone, p, TakeFrames(lib, zone, p, bytes, frames).p, e, frames)
    decreases |frames|
  {
    if frames != [] && frames[0].size != 0 {
      ReadStep(lib, zone, p, bytes, frames);
      ReadFirst(lib, zone, p, frames, e);
      var next := TakeAll(lib, zone, p, frames[0].content.answers).p;
      if next.soas < 2 {
        ReadIsFrom(lib, zone, next, bytes + frames[0].size, frames[1..], e);
        if SentIn(lib, zone, e, frames[1..]) {
          SentInTail(lib, zone, e, frames);
        }
      }
    }
  }

  lemma SentInHead(lib: Library, zone: string, e: Entry, frames: seq<Frame>)
    requires frames != [] && frames[0].content.Message? && From(lib, zone, e, frames[0].content.answers)
    ensures SentIn(lib, zone, e, frames)
  {
  }

  /** Whatever a peer sends, what is imported was sent, lies in the zone, and is no more than the limit. */
  lemma PulledWasSent(lib: Library, zone: string, frames: seq<Frame>, e: Entry)
    requires NormalZone(zone) && Finish(TakeFrames(lib, zone, START, 0, frames)).Pulled?
    ensures var entries := Finish(TakeFrames(lib, zone, START, 0, frames)).parsed;
            && |entries| <= MAX_AXFR_RECORDS
            && (e in entries ==> exists k, a :: 0 <= k < |frames| && Brings(frames[k], a) && IsEntryOf(lib, zone, a, e))
  {
    ReadIsFrom(lib, zone, START, 0, frames, e);
    if e in Finish(TakeFrames(lib, zone, START, 0, frames)).parsed {
      var k :| 0 <= k < |frames| && frames[k].content.Message? && From(lib, zone, e, frames[k].content.answers);
      var a :| a in frames[k].content.answers && FromAnswer(lib, a, zone) == Some(e);
      RelativeExactly(a.name, zone, e.name);
      assert Brings(frames[k], a) && IsEntryOf(lib, zone, a, e);
    }
  }

  predicate Brings(f: Frame, a: Answer) {
    f.content.Message? && a in f.content.answers
  }

  /** The entry has the answer's TTL, what its data stands for, and its name within the zone. */
  predicate IsEntryOf(lib: Library, zone: string, a: Answer, e: Entry) {
    && e.ttl == a.ttl && FromRdata(lib, a.rdata) == Some(e.data)
    && if TrimDots(a.name) == zone then e.name == "@" else a.name == e.name + "." + zone + "."
  }

  // --- When nothing is lost ---

  /** The entries of everything that can be sent. */
  function Wanted(lib: Library, records: seq<Record>, zone: string): seq<Entry> {
    if records == [] then []
    else
      var rest, last := Wanted(lib, records[..|records| - 1], zone), records[|records| - 1];
      if CanSend(lib, last, zone) then rest + [EntryOf(lib, last)] else rest
  }

  lemma {:induction false} ImportedIsNoLonger(lib: Library, records: seq<Record>, zone: string)
    ensures |Imported(lib, records, zone)| <= |Wanted(lib, records, zone)|
    ensures EndsEarly(lib, records, zone) ==> |Imported(lib, records, zone)| < |Wanted(lib, records, zone)|
    decreases |records|
  {
    if records != [] {
      ImportedIsNoLonger(lib, records[..|records| - 1], zone);
      EndsEarlySnoc(lib, records, zone);
    }
  }

  lemma {:induction false} ImportedWithoutSoa(lib: Library, records: seq<Record>, zone: string)
    requires !EndsEarly(lib, records, zone)
    ensures Imported(lib, records, zone) == Wanted(lib, records, zone)
    decreases |records|
  {
    if records != [] {
      EndsEarlySnoc(lib, records, zone);
      ImportedWithoutSoa(lib, records[..|records| - 1], zone);
    }
  }

  /** What arrives is what would have arrived of the records before the first stored SOA that is sent. */
  lemma {:induction false} ImportedUpToSoa(lib: Library, records: seq<Record>, zone: string, k: nat)
    requires k < |records| && records[k].data.Soa? && CanSend(lib, records[k], zone)
    requires !EndsEarly(lib, records[..k], zone)
    ensures Imported(lib, records, zone) == Wanted(lib, records[..k], zone)
    decreases |records|
  {
    var init := records[..|records| - 1];
    if k < |init| {
      assert init[..k] == records[..k];
      ImportedUpToSoa(lib, init, zone, k);
      assert EndsEarly(lib, init, zone) by {
        assert init[k] in init;
      }
    } else {
      assert init == records[..k];
      ImportedWithoutSoa(lib, init, zone);
    }
  }

  lemma {:induction false} WantedMembers(lib: Library, records: seq<Record>, zone: string, e: Entry)
    ensures e in Wanted(lib, records, zone) <==>
            exists r :: && r in records && lib.parses(OwnerName(r.name, zone)) && NamesParse(lib, r.data)
                        && e.name == r.name && e.ttl == r.ttl && e.data == Carried(lib, r.data)
    decreases |records|
  {
    if records != [] {
      var init, last := records[..|records| - 1], records[|records| - 1];
      WantedMembers(lib, init, zone, e);
      assert forall r :: r in records <==> r in init || r == last;
    }
  }

  /** Everything that can be sent arrives if and only if no stored SOA is among it. */
  lemma ImportedIsComplete(lib: Library, records: seq<Record>, zone: string)
    ensures Imported(lib, records, zone) == Wanted(lib, records, zone) <==> !EndsEarly(lib, records, zone)
  {
    ImportedIsNoLonger(lib, records, zone);
    if !EndsEarly(lib, records, zone) {
      ImportedWithoutSoa(lib, records, zone);
    }
  }

  /** A stored SOA before an address record: the address record is sent and never arrives. */
  lemma StoredSoaCutsShort(lib: Library, zone: Zone, soa: Record, r: Record)
    requires NormalZone(zone.name) && lib.parses(zone.name + ".") && NamesParse(lib, Soa(zone.soa))
    requires soa.data.Soa? && CanSend(lib, soa, zone.name) && r.data.Addr4? && CanSend(lib, r, zone.name)
    ensures var stream := Stream(lib, SoaAnswer(lib, zone).value, [soa, r], zone.name);
            var pulled := Finish(TakeFrames(lib, zone.name, START, 0, [Frame(100, Message(NoError, stream))]));
            && ToAnswer(lib, r, zone.name).value in stream
            && pulled.Pulled? && pulled.parsed == []
  {
    var records := [soa, r];
    var stream := Stream(lib, SoaAnswer(lib, zone).value, records, zone.name);
    var frames := [Frame(100, Message(NoError, stream))];
    assert records[..1] == [soa] && [soa][..0] == [];
    assert Sendable(lib, records, zone.name) == Sendable(lib, [soa], zone.name) + [ToAnswer(lib, r, zone.name).value];
    assert frames[1..] == [];
    assert AnswersOf(frames) == stream + AnswersOf([]);
    assert BytesOf(frames) == 100 + BytesOf([]);
    TransferArrives(lib, zone, records, frames);
    assert soa in [soa];
    assert Imported(lib, records, zone.name) == Imported(lib, [soa], zone.name) == [];
  }

  function Entries(lib: Library, records: seq<Record>): (es: seq<Entry>)
    ensures |es| == |records|
  {
    seq(|records|, i requires 0 <= i < |records| => EntryOf(lib, records[i]))
  }

  lemma {:induction false} AllSendable(lib: Library, records: seq<Record>, zone: string)
    requires forall r :: r in records ==> CanSend(lib, r, zone)
    ensures Wanted(lib, records, zone) == Entries(lib, records)
    decreases |records|
  {
    if records != [] {
      var init, last := records[..|records| - 1], records[|records| - 1];
      assert forall r :: r in init ==> r in records;
      AllSendable(lib, init, zone);
      assert Entries(lib, records) == Entries(lib, init) + [EntryOf(lib, last)];
    }
  }

  /** The round trip over the server's own cutting, for chunks of any size. */
  lemma AxfrRoundTrip(lib: Library, zone: Zone, records: seq<Record>, n: nat, body: seq<Answer> -> nat)
    requires n >= 1 && NormalZone(zone.name) && lib.parses(zone.name + ".") && NamesParse(lib, Soa(zone.soa))
    requires forall r :: r in records ==>
                 lib.parses(OwnerName(r.name, zone.name)) && NamesParse(lib, r.data) && !r.data.Soa?
    requires |records| <= MAX_AXFR_RECORDS
    requires var stream := Stream(lib, SoaAnswer(lib, zone).value, records, zone.name);
             && (forall c :: c in Chunks(stream, n) ==> Fits(body, c))
             && BytesOf(Framed(body, Chunks(stream, n))) <= MAX_AXFR_BYTES
    ensures var stream := Stream(lib, SoaAnswer(lib, zone).value, records, zone.name);
            Finish(TakeFrames(lib, zone.name, START, 0, Framed(body, Chunks(stream, n)))) ==
            Pulled(zone.soa.(mname := TrimDots(zone.soa.mname), rname := TrimDots(zone.soa.rname)),
                   zone.defaultTtl, Entries(lib, records))
  {
    var stream := Stream(lib, SoaAnswer(lib, zone).value, records, zone.name);
    ChunksFlatten(stream, n);
    FramedAnswers(body, Chunks(stream, n));
    TransferArrives(lib, zone, records, Framed(body, Chunks(stream, n)));
    ImportedWithoutSoa(lib, records, zone.name);
    AllSendable(lib, records, zone.name);
  }

  // --- Between two databases ---

  /** An enabled record of the zone with the entry's name, TTL and data, and nothing else of its own. */
  predicate Holds(r: Record, e: Entry, zoneId: Uuid) {
    && r.zoneId == zoneId && r.name == e.name && r.ttl == e.ttl && r.data == e.data
    && r.enabled && r.healthCheck.None? && r.source == Manual && r.origin.None?
  }

  /** New records for the entries, one each and in order. */
  ghost predicate RecordsOf(rs: seq<Record>, entries: seq<Entry>, zoneId: Uuid) {
    |rs| == |entries| && forall i :: 0 <= i < |rs| ==> Holds(rs[i], entries[i], zoneId)
  }

  method NewRecords(entries: seq<Entry>, zoneId: Uuid, records: map<string, Record>) returns (rs: seq<Record>)
    ensures RecordsOf(rs, entries, zoneId) && FreshIds(records, rs)
  {
    rs := [];
    var used := records.Keys;
    for i := 0 to |entries|
      invariant RecordsOf(rs, entries[..i], zoneId) && FreshIds(records, rs)
      invariant records.Keys <= used && forall k :: 0 <= k < |rs| ==> rs[k].id in used
    {
      var id := NewUuid(used);
      var e := entries[i];
      rs := rs + [Record(id, zoneId, e.name, e.ttl, e.data, true, None, Manual, None)];
      used := used + {id};
    }
    assert entries[..|entries|] == entries;
  }

  /** A zone's stored records are exactly `rs`. */
  ghost predicate ZoneHolds(records: map<string, Record>, zoneId: Uuid, rs: seq<Record>) {
    && (forall i :: 0 <= i < |rs| ==> rs[i].id in records && records[rs[i].id] == rs[i])
    && (forall id :: id in records && records[id].zoneId == zoneId ==> exists i :: 0 <= i < |rs| && rs[i].id == id)
    && (forall i, j :: 0 <= i < j < |rs| ==> rs[i].id != rs[j].id)
  }

  class ZoneTransfer {
    const db: Db
    const lib: Library

    constructor (db: Db, lib: Library)
      ensures this.db == db && this.lib == lib
    {
      this.db, this.lib := db, lib;
    }

    method BuildAxfrRecords(zoneName: string) returns (res: Option<seq<Answer>>)
      requires db.Valid()
      ensures var best := Best(db.ZoneList(), TrimDots(zoneName));
              res == if best.None? || TrimDots(best.value.name) != TrimDots(zoneName)
                        || SoaAnswer(lib, best.value).None? then None
                     else Some(Stream(lib, SoaAnswer(lib, best.value).value, ListZone(db.View(), best.value.id),
                                      best.value.name))
    {
      var name := TrimDots(zoneName);
      var zone := db.FindZoneForFqdn(name);
      if zone.None? || TrimDots(zone.value.name) != name {
        return None;
      }
      var soa := SoaAnswer(lib, zone.value);
      if soa.None? {
        return None;
      }
      var records := db.ListRecords(zone.value.id);
      var sent := SendRecords(lib, records, zone.value.name);
      res := Some([soa.value] + sent + [soa.value]);
    }

    /** Stores what was pulled: the zone keeps its id, its records are swapped. */
    method Import(zoneName: string, soa: SoaData, ttl: u32, entries: seq<Entry>)
      returns (id: Uuid, ghost rs: seq<Record>)
      requires db.Valid() && db.ZonesKeyed()
      modifies db
      ensures db.Valid() && db.health == old(db.health)
      ensures zoneName in db.nameIndex && db.nameIndex[zoneName] == id
      ensures db.zones == old(db.zones)[id := Zone(id, zoneName, soa, ttl)]
      ensures id in old(db.zones) ==> zoneName in old(db.nameIndex) && old(db.nameIndex)[zoneName] == id
      ensures RecordsOf(rs, entries, id) && ZoneHolds(db.records, id, rs)
      ensures OutsideZone(db.records, id) == OutsideZone(old(db.records), id)
    {
      var existing := db.GetZoneByName(zoneName);
      if existing.Some? {
        id := existing.value.id;
      } else {
        id := NewUuid(db.zones.Keys);
      }
      db.UpsertZone(Zone(id, zoneName, soa, ttl));
      rs := ReplaceWith(id, entries);
    }

    /** Pulls a zone: a failed pull changes nothing, a good one is stored whole. */
    method AxfrPull(zoneName: string, frames: seq<Frame>) returns (res: Pulled, id: Option<Uuid>, ghost rs: seq<Record>)
      requires db.Valid() && db.ZonesKeyed()
      modifies db
      ensures var zone := TrimDots(zoneName);
              res == if lib.parses(zone + ".") then Finish(TakeFrames(lib, zone, START, 0,
                                                                      frames)) else PullFailed(BadName)
      ensures res.PullFailed? ==> id.None? && unchanged(db)
      ensures res.Pulled? ==>
                && id.Some? && db.Valid()
                && db.zones == old(db.zones)[id.value := Zone(id.value, TrimDots(zoneName), res.soa, res.ttl)]
                && RecordsOf(rs, res.parsed, id.value) && ZoneHolds(db.records, id.value, rs)
                && OutsideZone(db.records, id.value) == OutsideZone(old(db.records), id.value)
    {
      id, rs := None, [];
      var zone := TrimDots(zoneName);
      if !lib.parses(zone + ".") {
        return PullFailed(BadName), None, [];
      }
      res := Pull(lib, zone, frames);
      if res.Pulled? {
        var x;
        x, rs := Import(zone, res.soa, res.ttl, res.parsed);
        id := Some(x);
      }
    }

    method ReplaceWith(id: Uuid, entries: seq<Entry>) returns (rs: seq<Record>)
      requires db.Valid()
      modifies db`records, db`byZone
      ensures db.Valid()
      ensures RecordsOf(rs, entries, id) && ZoneHolds(db.records, id, rs)
      ensures OutsideZone(db.records, id) == OutsideZone(old(db.records), id)
    {
      rs := NewRecords(entries, id, db.records);
      ghost var outside := OutsideZone(db.records, id);
      db.ReplaceZoneRecords(id, rs);
      ReplacedHolds(outside, id, rs);
    }
  }

  lemma ReplacedHolds(outside: map<string, Record>, id: Uuid, rs: seq<Record>)
    requires FreshIds(outside, rs) && forall i :: 0 <= i < |rs| ==> rs[i].zoneId == id
    requires forall x :: x in outside ==> outside[x].zoneId != id
    ensures ZoneHolds(Stores(outside, rs), id, rs) && OutsideZone(Stores(outside, rs), id) == outside
  {
    StoresContents(outside, rs);
  }

  lemma {:induction false} NoDupCounts<T>(s: seq<T>, x: T)
    requires NoDup(s)
    ensures multiset(s)[x] == if x in s then 1 else 0
    decreases |s|
  {
    if s != [] {
      var init, last := s[..|s| - 1], s[|s| - 1];
      NoDupCounts(init, x);
      assert s == init + [last];
      assert last !in init;
    }
  }

  /** Listing a zone shows exactly the records it holds, each once, in some order. */
  lemma HeldIsListed(t: Tables, zoneId: Uuid, rs: seq<Record>)
    requires Indexed(t) && ZoneHolds(t.records, zoneId, rs)
    requires forall i :: 0 <= i < |rs| ==> rs[i].zoneId == zoneId
    ensures multiset(ListZone(t, zoneId)) == multiset(rs)
  {
    ListIsFilter(t, zoneId);
    forall r
      ensures multiset(ListZone(t, zoneId))[r] == multiset(rs)[r]
    {
      NoDupCounts(ListZone(t, zoneId), r);
      NoDupCounts(rs, r);
      if Stored(t, r) && r.zoneId == zoneId {
        var i :| 0 <= i < |rs| && rs[i].id == r.id;
        assert rs[i] == r;
      }
    }
  }
}
