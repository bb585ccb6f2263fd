/** The Mercury request multiplexer (mercury/client.go).

  One loop owns the sequence counter and the map of outstanding requests.  `Client` is that loop,
  one select branch a method; `Step` is what each branch does, and the protocol properties are
  about every run of `Step`.  Header marshalling is a parameter.  A request is named by its
  arrival number, which stands for its reply channel.
 */
module Mercury {
  import opened Options
  import opened Positional

  // ----- Frames -----

  const MAX16: nat := 65535

  /** `n` big-endian bytes; wider numbers are truncated. */
  function Write(v: nat, n: nat): (b: Bytes)
    ensures |b| == n
  {
    Numeral(256, v, n)
  }

  /** `binary.Read` of an `n`-byte number: zero when the input runs out, which also uses it up. */
  function Read(b: Bytes, n: nat): (r: (nat, Bytes))
    ensures |r.1| <= |b|
    ensures |r.1| == if |b| < n then 0 else |b| - n
    ensures |b| < n ==> r.0 == 0
  {
    if |b| < n then (0, [])
    else
      ValueBounds(256, b[..n]);
      (Value(256, b[..n]), b[n..])
  }

  function WriteParts(parts: seq<Bytes>): Bytes {
    if parts == [] then [] else Write(|parts[0]|, 2) + parts[0] + WriteParts(parts[1..])
  }

  /** A part of announced length `n`; what the input lacks stays zero. */
  function ReadPart(b: Bytes, n: nat): (r: (Bytes, Bytes))
    ensures |r.0| == n && forall k :: 0 <= k < n ==> r.0[k] == if k < |b| then b[k] else 0
    ensures |r.1| == if n <= |b| then |b| - n else 0
  {
    if n <= |b| then (b[..n], b[n..]) else (b + seq(n - |b|, _ => 0), [])
  }

  function ReadParts(b: Bytes, count: nat): (parts: seq<Bytes>)
    ensures |parts| == count
    decreases count
  {
    if count == 0 then []
    else
      var (n, rest) := Read(b, 2);
      var (part, later) := ReadPart(rest, n);
      [part] + ReadParts(later, count - 1)
  }

  datatype Decoded = Frame(number: nat, parts: seq<Bytes>) | BadSequenceLength | Partial

  function Encode(number: nat, parts: seq<Bytes>): Bytes {
    Write(8, 2) + Write(number, 8) + Write(1, 1) + Write(|parts|, 2) + WriteParts(parts)
  }

  function Decode(b: Bytes): Decoded {
    var (width, b1) := Read(b, 2);
    if width != 8 && width != 4 && width != 2 then BadSequenceLength
    else
      var (number, b2) := Read(b1, width);
      var (flags, b3) := Read(b2, 1);
      if flags != 1 then Partial
      else
        var (count, b4) := Read(b3, 2);
        Frame(number, ReadParts(b4, count))
  }

  lemma ReadWrite(v: nat, n: nat, rest: Bytes)
    ensures Read(Write(v, n) + rest, n) == (Remainder(v, Pow(256, n)), rest)
  {
    var b := Write(v, n) + rest;
    assert b[..n] == Write(v, n) && b[n..] == rest;
    ValueOfNumeral(256, v, n);
  }

  lemma ReadWrite16(v: nat, rest: Bytes)
    ensures Read(Write(v, 2) + rest, 2) == (Remainder(v, MAX16 + 1), rest)
    ensures v <= MAX16 ==> Read(Write(v, 2) + rest, 2) == (v, rest)
  {
    ReadWrite(v, 2, rest);
    assert Pow(256, 2) == MAX16 + 1;
  }

  predicate Fits(parts: seq<Bytes>) { forall k :: 0 <= k < |parts| ==> |parts[k]| <= MAX16 }

  lemma {:induction false} ReadWriteParts(parts: seq<Bytes>, written: Bytes, count: nat)
    requires Fits(parts) && written == WriteParts(parts) && count == |parts|
    ensures ReadParts(written, count) == parts
    decreases count
  {
    if parts != [] {
      var first, rest := parts[0], parts[1..];
      var later := WriteParts(rest);
      ReadWriteParts(rest, later, count - 1);
      WriteFirst(parts, later);
      ReadFirst(first, later, count);
      assert ReadParts(written, count) == [first] + rest;
    }
  }

  lemma WriteFirst(parts: seq<Bytes>, later: Bytes)
    requires parts != [] && later == WriteParts(parts[1..])
    ensures WriteParts(parts) == Write(|parts[0]|, 2) + (parts[0] + later)
  {
  }

  lemma ReadFirst(part: Bytes, later: Bytes, count: nat)
    requires |part| <= MAX16 && count > 0
    ensures ReadParts(Write(|part|, 2) + (part + later), count) == [part] + ReadParts(later, count - 1)
  {
    var b := part + later;
    ReadWrite16(|part|, b);
    assert b[..|part|] == part && b[|part|..] == later;
  }

  lemma ReadBounded(b: Bytes)
    ensures Read(b, 2).0 <= MAX16
  {
    if |b| >= 2 {
      ValueBounds(256, b[..2]);
      assert Pow(256, 2) == MAX16 + 1;
    }
  }

  lemma {:induction false} ReadPartsBounded(b: Bytes, count: nat)
    ensures Fits(ReadParts(b, count))
    decreases count
  {
    if count > 0 {
      ReadBounded(b);
      var (n, rest) := Read(b, 2);
      ReadPartsBounded(ReadPart(rest, n).1, count - 1);
    }
  }

  const NUMBERS: nat := 0x1_0000_0000_0000_0000

  lemma DecodeEncoded(number: nat, parts: seq<Bytes>)
    requires number < NUMBERS
    ensures Decode(Encode(number, parts)) == Frame(number, ReadParts(WriteParts(parts), Remainder(|parts|, MAX16 + 1)))
  {
    var b4 := WriteParts(parts);
    var b3 := Write(|parts|, 2) + b4;
    var b2 := Write(1, 1) + b3;
    var b1 := Write(number, 8) + b2;
    EncodeNests(number, parts, b4, b3, b2, b1);
    ReadWrite16(8, b1);
    ReadNumber(number, b2);
    ReadFlag(b3);
    ReadWrite16(|parts|, b4);
  }

  lemma EncodeNests(number: nat, parts: seq<Bytes>, b4: Bytes, b3: Bytes, b2: Bytes, b1: Bytes)
    requires b4 == WriteParts(parts) && b3 == Write(|parts|, 2) + b4
    requires b2 == Write(1, 1) + b3 && b1 == Write(number, 8) + b2
    ensures Encode(number, parts) == Write(8, 2) + b1
  {
    var w8, wn, w1, wp := Write(8, 2), Write(number, 8), Write(1, 1), Write(|parts|, 2);
    Regroup4(w8, wn, w1, wp, b4);
    assert Encode(number, parts) == w8 + wn + w1 + wp + b4;
  }

  lemma Regroup3(a: Bytes, b: Bytes, c: Bytes)
    ensures a + b + c == a + (b + c)
  {
  }

  lemma Regroup4(a: Bytes, b: Bytes, c: Bytes, d: Bytes, e: Bytes)
    ensures a + b + c + d + e == a + (b + (c + (d + e)))
  {
    Regroup3(a + b + c, d, e);
    Regroup3(a + b, c, d + e);
    Regroup3(a, b, c + (d + e));
  }

  lemma ReadNumber(number: nat, rest: Bytes)
    requires number < NUMBERS
    ensures Read(Write(number, 8) + rest, 8) == (number, rest)
  {
    assert Pow(256, 8) == NUMBERS;
    ReadWrite(number, 8, rest);
  }

  lemma ReadFlag(rest: Bytes)
    ensures Read(Write(1, 1) + rest, 1) == (1, rest)
  {
    assert Pow(256, 1) == 256;
    ReadWrite(1, 1, rest);
  }

  /** A frame decodes to what was encoded exactly when all sizes fit 16 bits. */
  lemma FrameRoundTrip(number: nat, parts: seq<Bytes>)
    requires number < NUMBERS
    ensures Decode(Encode(number, parts)) == Frame(number, parts) <==> |parts| <= MAX16 && Fits(parts)
  {
    DecodeEncoded(number, parts);
    ReadPartsBounded(WriteParts(parts), Remainder(|parts|, MAX16 + 1));
    if |parts| <= MAX16 && Fits(parts) {
      ReadWriteParts(parts, WriteParts(parts), |parts|);
    }
  }

  /** A frame with any sequence width and flags. */
  function RawFrame(width: nat, number: nat, flags: nat, parts: seq<Bytes>): Bytes {
    Write(width, 2) + Write(number, width) + Write(flags, 1) + Write(|parts|, 2) + WriteParts(parts)
  }

  /** Sequence numbers of two, four and eight bytes are understood, and only whole frames. */
  lemma DecodeRaw(width: nat, number: nat, flags: nat, parts: seq<Bytes>)
    requires width <= MAX16 && number < Pow(256, width) && flags < 256 && |parts| <= MAX16 && Fits(parts)
    ensures Decode(RawFrame(width, number, flags, parts)) ==
            if width != 2 && width != 4 && width != 8 then BadSequenceLength
            else if flags != 1 then Partial else Frame(number, parts)
  {
    var b4 := WriteParts(parts);
    var b3 := Write(|parts|, 2) + b4;
    var b2 := Write(flags, 1) + b3;
    var b1 := Write(number, width) + b2;
    Regroup4(Write(width, 2), Write(number, width), Write(flags, 1), Write(|parts|, 2), b4);
    ReadWrite16(width, b1);
    ReadWrite(number, width, b2);
    assert Pow(256, 1) == 256;
    ReadWrite(flags, 1, b3);
    ReadWrite16(|parts|, b4);
    ReadWriteParts(parts, b4, |parts|);
  }

  // ----- Payload chunks -----

  function Chunks(payload: Bytes): seq<Bytes> {
    if payload == [] then []
    else if |payload| <= MAX16 then [payload]
    else [payload[..MAX16]] + Chunks(payload[MAX16..])
  }

  function Join(parts: seq<Bytes>): Bytes {
    if parts == [] then [] else parts[0] + Join(parts[1..])
  }

  method ChunkPayload(payload: Bytes) returns (parts: seq<Bytes>)
    ensures parts == Chunks(payload)
  {
    parts := [];
    var i := 0;
    assert payload[0..] == payload;
    while i < |payload|
      invariant 0 <= i
      invariant i <= |payload| ==> Chunks(payload) == parts + Chunks(payload[i..])
      invariant i > |payload| ==> Chunks(payload) == parts
    {
      var end := if |payload| < i + MAX16 then |payload| else i + MAX16;
      if i + MAX16 < |payload| {
        assert payload[i..][..MAX16] == payload[i..end] && payload[i..][MAX16..] == payload[end..];
        assert parts + ([payload[i..end]] + Chunks(payload[end..])) == parts + [payload[i..end]] + Chunks(payload[end..]);
      } else {
        assert payload[i..end] == payload[i..];
      }
      parts := parts + [payload[i..end]];
      i := i + MAX16;
    }
  }

  method JoinParts(parts: seq<Bytes>) returns (payload: Bytes)
    ensures payload == Join(parts)
  {
    payload := [];
    for i := 0 to |parts|
      invariant Join(parts) == payload + Join(parts[i..])
    {
      assert payload + (parts[i] + Join(parts[i..][1..])) == payload + parts[i] + Join(parts[i + 1..]);
      payload := payload + parts[i];
    }
  }

  /** Re-joining the chunks gives back the payload; they all fit, and there are as few as possible. */
  lemma {:induction false} ChunksJoin(payload: Bytes)
    ensures Join(Chunks(payload)) == payload && Fits(Chunks(payload))
    ensures payload != [] ==> (|Chunks(payload)| - 1) * MAX16 < |payload| <= |Chunks(payload)| * MAX16
    decreases |payload|
  {
    if payload != [] {
      if |payload| <= MAX16 {
        assert [payload][1..] == [];
      } else {
        ChunksJoin(payload[MAX16..]);
        assert Chunks(payload)[1..] == Chunks(payload[MAX16..]);
      }
    }
  }

  /** What the access point decodes from a request is its number, its header and its payload. */
  lemma RequestArrives(number: nat, header: Bytes, payload: Bytes)
    requires number < NUMBERS && |header| <= MAX16 && |payload| <= MAX16 * (MAX16 - 1)
    ensures
      var frame := Decode(Encode(number, [header] + Chunks(payload)));
      && frame.Frame? && frame.number == number && frame.parts != []
      && frame.parts[0] == header && Join(frame.parts[1..]) == payload
  {
    var parts := [header] + Chunks(payload);
    RequestFits(header, payload, parts);
    FrameRoundTrip(number, parts);
    assert Decode(Encode(number, parts)) == Frame(number, parts);
  }

  lemma RequestFits(header: Bytes, payload: Bytes, parts: seq<Bytes>)
    requires |header| <= MAX16 && |payload| <= MAX16 * (MAX16 - 1) && parts == [header] + Chunks(payload)
    ensures |parts| <= MAX16 && Fits(parts) && parts[0] == header && Join(parts[1..]) == payload
  {
    FewChunks(payload);
    assert parts[1..] == Chunks(payload);
  }

  lemma FewChunks(payload: Bytes)
    requires |payload| <= MAX16 * (MAX16 - 1)
    ensures Join(Chunks(payload)) == payload && Fits(Chunks(payload)) && |Chunks(payload)| < MAX16
  {
    ChunksJoin(payload);
  }

  // ----- The loop -----

  /** `header` is the marshalled header, if marshalling succeeds. */
  datatype Request = Request(header: Option<Bytes>, parts: seq<Bytes>)

  datatype Response = MarshalFailed | SendFailed | Empty | BadHeader | Answer(header: Bytes, parts: seq<Bytes>)

  datatype Reply = Reply(to: nat, response: Response)

  /** A frame handed to the access point, and the request it was built for. */
  datatype Sent = Sent(of: nat, frame: Bytes)

  /** `accepted` counts the requests taken so far. */
  datatype State = State(next: nat, outstanding: map<nat, nat>, accepted: nat, replies: seq<Reply>, sent: seq<Sent>)

  const INITIAL := State(0, map[], 0, [], [])

  datatype Event =
    | Accept(req: Request, sendOk: bool)
    | Packet(isRequest: bool, payload: Bytes)

  function Interpret(parses: Bytes -> bool, parts: seq<Bytes>): Response {
    if parts == [] then Empty else if !parses(parts[0]) then BadHeader else Answer(parts[0], parts[1..])
  }

  function StepAccept(st: State, req: Request, sendOk: bool): State {
    var id := st.accepted;
    var st1 := st.(next := if st.next + 1 == NUMBERS then 0 else st.next + 1, accepted := id + 1);
    if req.header.None? then st1.(replies := st.replies + [Reply(id, MarshalFailed)])
    else if sendOk then
      st1.(outstanding := st.outstanding[st.next := id],
           sent := st.sent + [Sent(id, Encode(st.next, [req.header.value] + req.parts))])
    else st1.(outstanding := st.outstanding - {st.next}, replies := st.replies + [Reply(id, SendFailed)])
  }

  function StepPacket(parses: Bytes -> bool, st: State, isRequest: bool, payload: Bytes): State {
    if !isRequest then st
    else
      match Decode(payload)
      case BadSequenceLength => st
      case Partial => st
      case Frame(number, parts) =>
        if number !in st.outstanding then st
        else st.(outstanding := st.outstanding - {number},
                 replies := st.replies + [Reply(st.outstanding[number], Interpret(parses, parts))])
  }

  function Step(parses: Bytes -> bool, st: State, e: Event): State {
    match e
    case Accept(req, sendOk) => StepAccept(st, req, sendOk)
    case Packet(isRequest, payload) => StepPacket(parses, st, isRequest, payload)
  }

  method BuildFrame(number: nat, header: Bytes, parts: seq<Bytes>) returns (buf: Bytes)
    ensures buf == Encode(number, [header] + parts)
  {
    var head := Write(8, 2) + Write(number, 8) + Write(1, 1) + Write(1 + |parts|, 2);
    buf := Write(|header|, 2) + header;
    for i := 0 to |parts|
      invariant buf + WriteParts(parts[i..]) == Write(|header|, 2) + header + WriteParts(parts)
    {
      AppendPart(buf, parts[i..]);
      assert parts[i..][1..] == parts[i + 1..];
      buf := buf + Write(|parts[i]|, 2) + parts[i];
    }
    assert ([header] + parts)[1..] == parts;
    assert buf == WriteParts([header] + parts);
    buf := head + buf;
  }

  lemma AppendPart(buf: Bytes, parts: seq<Bytes>)
    requires parts != []
    ensures buf + WriteParts(parts) == buf + Write(|parts[0]|, 2) + parts[0] + WriteParts(parts[1..])
  {
  }

  method CollectParts(input: Bytes, count: nat) returns (parts: seq<Bytes>)
    ensures parts == ReadParts(input, count)
  {
    parts := [];
    var b := input;
    for i := 0 to count
      invariant parts + ReadParts(b, count - i) == ReadParts(input, count)
    {
      var (n, rest) := Read(b, 2);
      var (part, later) := ReadPart(rest, n);
      Regroup(parts, part, ReadParts(later, count - i - 1));
      parts := parts + [part];
      b := later;
    }
  }

  lemma Regroup<T>(xs: seq<T>, y: T, zs: seq<T>)
    ensures xs + ([y] + zs) == xs + [y] + zs
  {
  }

  class Client {
    const parses: Bytes -> bool
    var next: nat
    var outstanding: map<nat, nat>
    var accepted: nat
    var replies: seq<Reply>
    var sent: seq<Sent>

    function Now(): State
      reads this
    {
      State(next, outstanding, accepted, replies, sent)
    }

    constructor (parses: Bytes -> bool)
      ensures Now() == INITIAL && this.parses == parses
    {
      this.parses := parses;
      next, outstanding, accepted, replies, sent := 0, map[], 0, [], [];
    }

    /** `sendOk` is the outcome of handing the frame to the access point. */
    method AcceptRequest(req: Request, sendOk: bool)
      modifies this
      ensures Now() == StepAccept(old(Now()), req, sendOk)
    {
      var id := accepted;
      accepted := accepted + 1;
      var number := next;
      next := if next + 1 == NUMBERS then 0 else next + 1;
      if req.header.None? {
        replies := replies + [Reply(id, MarshalFailed)];
        return;
      }
      var buf := BuildFrame(number, req.header.value, req.parts);
      outstanding := outstanding[number := id];
      if !sendOk {
        outstanding := outstanding - {number};
        replies := replies + [Reply(id, SendFailed)];
        assert outstanding == old(outstanding) - {number};
        return;
      }
      sent := sent + [Sent(id, buf)];
    }

    method HandlePacket(isRequest: bool, payload: Bytes)
      modifies this
      ensures Now() == StepPacket(parses, old(Now()), isRequest, payload)
    {
      if !isRequest {
        return;
      }
      var (width, b1) := Read(payload, 2);
      if width != 8 && width != 4 && width != 2 {
        return;
      }
      var (number, b2) := Read(b1, width);
      var (flags, b3) := Read(b2, 1);
      if flags != 1 {
        return;
      }
      var (count, b4) := Read(b3, 2);
      if number !in outstanding {
        return;
      }
      var id := outstanding[number];
      outstanding := outstanding - {number};
      var parts := CollectParts(b4, count);
      if |parts| == 0 {
        replies := replies + [Reply(id, Empty)];
        return;
      }
      if !parses(parts[0]) {
        replies := replies + [Reply(id, BadHeader)];
        return;
      }
      replies := replies + [Reply(id, Answer(parts[0], parts[1..]))];
    }
  }

  // ----- Every run -----

  function Run(parses: Bytes -> bool, events: seq<Event>): State {
    if events == [] then INITIAL
    else Step(parses, Run(parses, events[..|events| - 1]), events[|events| - 1])
  }

  /** The sequence number of the `id`-th request. */
  function NumberOf(id: nat): nat { Remainder(id, NUMBERS) }

  ghost predicate Replied(st: State, id: nat) { exists k :: 0 <= k < |st.replies| && st.replies[k].to == id }

  ghost predicate Outstanding(st: State, id: nat) { NumberOf(id) in st.outstanding && st.outstanding[NumberOf(id)] == id }

  ghost predicate Consistent(st: State) {
    && st.next == NumberOf(st.accepted)
    && (forall n :: n in st.outstanding ==> st.outstanding[n] < st.accepted && NumberOf(st.outstanding[n]) == n)
    && (forall k :: 0 <= k < |st.replies| ==> st.replies[k].to < st.accepted && !Outstanding(st, st.replies[k].to))
    && (forall j, k :: 0 <= j < k < |st.replies| ==> st.replies[j].to != st.replies[k].to)
  }

  /** While the numbers have not wrapped, nothing accepted is lost. */
  ghost predicate NothingLost(st: State) {
    st.accepted <= NUMBERS ==> forall id: nat :: id < st.accepted ==> Outstanding(st, id) || Replied(st, id)
  }

  lemma NextNumber(id: nat)
    ensures NumberOf(id + 1) == if NumberOf(id) + 1 == NUMBERS then 0 else NumberOf(id) + 1
  {
    RemainderStep(id, 1, NUMBERS);
  }

  lemma AcceptConsistent(st: State, req: Request, sendOk: bool)
    requires Consistent(st)
    ensures Consistent(StepAccept(st, req, sendOk))
  {
    NextNumber(st.accepted);
  }

  lemma PacketConsistent(parses: Bytes -> bool, st: State, isRequest: bool, payload: Bytes)
    requires Consistent(st)
    ensures Consistent(StepPacket(parses, st, isRequest, payload))
  {
  }

  lemma StepConsistent(parses: Bytes -> bool, st: State, e: Event)
    requires Consistent(st)
    ensures Consistent(Step(parses, st, e))
  {
    match e
    case Accept(req, sendOk) => AcceptConsistent(st, req, sendOk);
    case Packet(isRequest, payload) => PacketConsistent(parses, st, isRequest, payload);
  }

  lemma StillReplied(st: State, st': State, id: nat)
    requires Replied(st, id) && st.replies <= st'.replies
    ensures Replied(st', id)
  {
    var k :| 0 <= k < |st.replies| && st.replies[k].to == id;
    assert st'.replies[k].to == id;
  }

  lemma LastReplied(st: State, id: nat)
    requires st.replies != [] && st.replies[|st.replies| - 1].to == id
    ensures Replied(st, id)
  {
  }

  lemma StepLosesNothing(parses: Bytes -> bool, st: State, e: Event)
    requires Consistent(st) && NothingLost(st)
    ensures NothingLost(Step(parses, st, e))
  {
    var st' := Step(parses, st, e);
    if st'.accepted <= NUMBERS {
      forall id: nat | id < st'.accepted
        ensures Outstanding(st', id) || Replied(st', id)
      {
        if id < st.accepted && Replied(st, id) {
          StillReplied(st, st', id);
        } else if !Outstanding(st', id) {
          assert NumberOf(id) == id;
          LastReplied(st', id);
        }
      }
    }
  }

  /** In every run: numbers go up by one modulo 2^64, an outstanding request is filed under its
    own number, a request gets at most one reply, never one while it is outstanding, and until the
    numbers wrap every request is outstanding or has been answered. */
  lemma {:induction false} RunConsistent(parses: Bytes -> bool, events: seq<Event>)
    ensures Consistent(Run(parses, events)) && NothingLost(Run(parses, events))
  {
    if events != [] {
      var front := events[..|events| - 1];
      RunConsistent(parses, front);
      StepConsistent(parses, Run(parses, front), events[|events| - 1]);
      StepLosesNothing(parses, Run(parses, front), events[|events| - 1]);
    }
  }

  /** The requests of a run, in order of arrival. */
  function Requests(events: seq<Event>): seq<Request> {
    if events == [] then []
    else
      var e := events[|events| - 1];
      Requests(events[..|events| - 1]) + if e.Accept? then [e.req] else []
  }

  /** Every frame was built from its request and that request's number, and they went out in order. */
  ghost predicate SentInOrder(st: State, reqs: seq<Request>) {
    && st.accepted == |reqs| && st.next == NumberOf(|reqs|)
    && (forall k :: 0 <= k < |st.sent| ==> BuiltFor(st.sent[k], reqs))
    && (forall j, k :: 0 <= j < k < |st.sent| ==> st.sent[j].of < st.sent[k].of)
  }

  ghost predicate BuiltFor(m: Sent, reqs: seq<Request>) {
    && m.of < |reqs| && reqs[m.of].header.Some?
    && m.frame == Encode(NumberOf(m.of), [reqs[m.of].header.value] + reqs[m.of].parts)
  }

  lemma AcceptSends(st: State, reqs: seq<Request>, req: Request, sendOk: bool)
    requires SentInOrder(st, reqs)
    ensures SentInOrder(StepAccept(st, req, sendOk), reqs + [req])
  {
    var st', longer := StepAccept(st, req, sendOk), reqs + [req];
    NextNumber(st.accepted);
    assert longer[st.accepted] == req;
    forall k | 0 <= k < |st'.sent|
      ensures BuiltFor(st'.sent[k], longer)
    {
      if k < |st.sent| {
        assert st'.sent[k] == st.sent[k] && BuiltFor(st.sent[k], reqs);
      }
    }
    assert forall k :: 0 <= k < |st.sent| ==> BuiltFor(st.sent[k], reqs) && st.sent[k].of < st.accepted;
  }

  lemma {:induction false} RunSends(parses: Bytes -> bool, events: seq<Event>)
    ensures SentInOrder(Run(parses, events), Requests(events))
  {
    if events != [] {
      var front, e := events[..|events| - 1], events[|events| - 1];
      RunSends(parses, front);
      if e.Accept? {
        AcceptSends(Run(parses, front), Requests(front), e.req, e.sendOk);
      }
    }
  }

  /** In every run a frame that went out for a request decodes to that request's number, and to its
    header and parts exactly when they fit 16 bits. */
  lemma SentFrame(parses: Bytes -> bool, events: seq<Event>, k: nat)
    requires k < |Run(parses, events).sent|
    ensures
      var m, reqs := Run(parses, events).sent[k], Requests(events);
      && m.of < |reqs| && reqs[m.of].header.Some?
      && Decode(m.frame).Frame? && Decode(m.frame).number == NumberOf(m.of)
      && var parts := [reqs[m.of].header.value] + reqs[m.of].parts;
      Decode(m.frame).parts == parts <==> |parts| <= MAX16 && Fits(parts)
  {
    RunSends(parses, events);
    var m, reqs := Run(parses, events).sent[k], Requests(events);
    assert BuiltFor(m, reqs);
    var parts := [reqs[m.of].header.value] + reqs[m.of].parts;
    DecodeEncoded(NumberOf(m.of), parts);
    FrameRoundTrip(NumberOf(m.of), parts);
  }

  /** No two frames sent for the first 2^64 requests carry the same number. */
  lemma FreshNumbers(parses: Bytes -> bool, events: seq<Event>, j: nat, k: nat)
    requires j < k < |Run(parses, events).sent| && Run(parses, events).accepted <= NUMBERS
    ensures
      var sent := Run(parses, events).sent;
      Decode(sent[j].frame).Frame? && Decode(sent[k].frame).Frame? &&
      Decode(sent[j].frame).number != Decode(sent[k].frame).number
  {
    RunSends(parses, events);
    SentFrame(parses, events, j);
    SentFrame(parses, events, k);
  }

  /** What becomes of a request at once: it is answered when it cannot be marshalled or sent, and is
    outstanding, with one more frame sent, otherwise. */
  lemma AcceptOutcome(st: State, req: Request, sendOk: bool)
    requires Consistent(st)
    ensures
      var id, st' := st.accepted, StepAccept(st, req, sendOk);
      && st'.accepted == id + 1 && (Outstanding(st', id) <==> req.header.Some? && sendOk)
      && st'.replies == st.replies + (if req.header.None? then [Reply(id, MarshalFailed)]
                                      else if !sendOk then [Reply(id, SendFailed)] else [])
      && |st'.sent| == |st.sent| + (if Outstanding(st', id) then 1 else 0) && st.sent <= st'.sent
  {
    AcceptConsistent(st, req, sendOk);
  }

  /** A whole frame that echoes an outstanding number, in any of the widths it fits, answers that
    request with the header and the parts behind it, if the header parses; and with an error if it
    does not, or there is none. */
  lemma ResponseArrives(parses: Bytes -> bool, st: State, id: nat, width: nat, parts: seq<Bytes>)
    requires Outstanding(st, id) && width in {2, 4, 8} && NumberOf(id) < Pow(256, width)
    requires |parts| <= MAX16 && Fits(parts)
    ensures
      StepPacket(parses, st, true, RawFrame(width, NumberOf(id), 1, parts)) ==
        st.(outstanding := st.outstanding - {NumberOf(id)},
            replies := st.replies + [Reply(id, if parts == [] then Empty
                                               else if parses(parts[0]) then Answer(parts[0], parts[1..]) else BadHeader)])
  {
    DecodeRaw(width, NumberOf(id), 1, parts);
  }

  /** No reply channel, which holds one message, is ever sent a second. */
  lemma OneReplyEach(parses: Bytes -> bool, events: seq<Event>, j: nat, k: nat)
    requires j < k < |Run(parses, events).replies|
    ensures Run(parses, events).replies[j].to != Run(parses, events).replies[k].to
  {
    RunConsistent(parses, events);
  }

  /** A packet produces at most one reply, and only for the request whose number it echoes. */
  lemma ReplyEchoesNumber(parses: Bytes -> bool, events: seq<Event>, isRequest: bool, payload: Bytes)
    ensures
      var st, st' := Run(parses, events), Step(parses, Run(parses, events), Packet(isRequest, payload));
      && (isRequest && Decode(payload).Frame? && Decode(payload).number in st.outstanding <==> st' != st)
      && (st' != st ==>
            var id := st.outstanding[Decode(payload).number];
            && NumberOf(id) == Decode(payload).number
            && Outstanding(st, id) && !Outstanding(st', id)
            && st'.replies == st.replies + [Reply(id, Interpret(parses, Decode(payload).parts))]
            && (forall other: nat :: other != id && Outstanding(st, other) ==> Outstanding(st', other)))
  {
    RunConsistent(parses, events);
    var st, st' := Run(parses, events), Step(parses, Run(parses, events), Packet(isRequest, payload));
    assert isRequest && Decode(payload).Frame? && Decode(payload).number in st.outstanding ==>
             |st'.replies| == |st.replies| + 1;
  }
}
