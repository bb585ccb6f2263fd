/** The framed, encrypted stream to the access point (ap/shannon.go).

  The cipher is a parameter: a state made from a nonce, which seals one byte at a time, takes in
  the plain byte, and ends in a 4-byte authentication code.  Each packet uses the next 32-bit
  nonce.  The receiver can push bytes back after peeking at them; `Unconsumed` is what is still to
  be read, from the push-back buffer first.
 */
module ShannonStream {
  import opened Options
  import opened Positional

  // ----- The cipher -----

  datatype Cipher<!S> = Cipher(
    start: nat -> S,
    seal: (S, Byte) -> Byte,
    open: (S, Byte) -> Byte,
    absorb: (S, Byte) -> S,
    mac: S -> Bytes)

  const MAC_LENGTH := 4

  /** Opening undoes sealing, and the code has four bytes. */
  ghost predicate Lawful<S(!new)>(c: Cipher<S>) {
    (forall s: S, p: Byte :: c.open(s, c.seal(s, p)) == p) && (forall s: S :: |c.mac(s)| == MAC_LENGTH)
  }

  function Absorb<S>(c: Cipher<S>, s: S, plain: Bytes): S {
    if plain == [] then s else Absorb(c, c.absorb(s, plain[0]), plain[1..])
  }

  function Seal<S>(c: Cipher<S>, s: S, plain: Bytes): (r: Bytes)
    ensures |r| == |plain|
  {
    if plain == [] then [] else [c.seal(s, plain[0])] + Seal(c, c.absorb(s, plain[0]), plain[1..])
  }

  function Open<S>(c: Cipher<S>, s: S, sealed: Bytes): (r: Bytes)
    ensures |r| == |sealed|
  {
    if sealed == [] then []
    else
      var p := c.open(s, sealed[0]);
      [p] + Open(c, c.absorb(s, p), sealed[1..])
  }

  lemma {:induction false} OpenSeal<S(!new)>(c: Cipher<S>, s: S, plain: Bytes)
    requires Lawful(c)
    ensures Open(c, s, Seal(c, s, plain)) == plain
  {
    if plain != [] {
      OpenSeal(c, c.absorb(s, plain[0]), plain[1..]);
    }
  }

  /** Sealing in one call is sealing piece by piece. */
  lemma {:induction false} SealConcat<S>(c: Cipher<S>, s: S, a: Bytes, b: Bytes)
    ensures Seal(c, s, a + b) == Seal(c, s, a) + Seal(c, Absorb(c, s, a), b)
    ensures Absorb(c, s, a + b) == Absorb(c, Absorb(c, s, a), b)
  {
    if a == [] {
      assert a + b == b;
    } else {
      assert (a + b)[1..] == a[1..] + b;
      SealConcat(c, c.absorb(s, a[0]), a[1..], b);
    }
  }

  lemma {:induction false} OpenConcat<S>(c: Cipher<S>, s: S, a: Bytes, b: Bytes)
    ensures Open(c, s, a + b) == Open(c, s, a) + Open(c, Absorb(c, s, Open(c, s, a)), b)
  {
    if a == [] {
      assert a + b == b;
    } else {
      var p := c.open(s, a[0]);
      var rest := Open(c, c.absorb(s, p), a[1..]);
      assert (a + b)[1..] == a[1..] + b;
      assert ([p] + rest)[1..] == rest;
      OpenConcat(c, c.absorb(s, p), a[1..], b);
    }
  }

  method EncryptInPlace<S>(c: Cipher<S>, s0: S, buf: array<Byte>) returns (s: S)
    modifies buf
    ensures buf[..] == Seal(c, s0, old(buf[..])) && s == Absorb(c, s0, old(buf[..]))
  {
    s := s0;
    ghost var was := buf[..];
    for i := 0 to buf.Length
      invariant buf[i..] == was[i..]
      invariant buf[..i] == Seal(c, s0, was[..i]) && s == Absorb(c, s0, was[..i])
    {
      var p := buf[i];
      SealConcat(c, s0, was[..i], [p]);
      assert was[..i + 1] == was[..i] + [p];
      buf[i] := c.seal(s, p);
      s := c.absorb(s, p);
    }
    assert buf[..buf.Length] == buf[..] && was[..buf.Length] == was;
  }

  method DecryptInPlace<S>(c: Cipher<S>, s0: S, buf: array<Byte>) returns (s: S)
    modifies buf
    ensures buf[..] == Open(c, s0, old(buf[..])) && s == Absorb(c, s0, buf[..])
  {
    s := s0;
    ghost var was := buf[..];
    for i := 0 to buf.Length
      invariant buf[i..] == was[i..]
      invariant buf[..i] == Open(c, s0, was[..i]) && s == Absorb(c, s0, buf[..i])
    {
      ghost var done := buf[..i];
      OpenConcat(c, s0, was[..i], [buf[i]]);
      assert was[..i + 1] == was[..i] + [buf[i]];
      var p := c.open(s, buf[i]);
      SealConcat(c, s0, done, [p]);
      buf[i] := p;
      s := c.absorb(s, p);
      assert buf[..i + 1] == done + [p];
    }
    assert buf[..buf.Length] == buf[..] && was[..buf.Length] == was;
  }

  // ----- Frames -----

  const NONCES: nat := 0x1_0000_0000
  const MAX_PAYLOAD := 65535

  function NextNonce(n: nat): nat { if n + 1 == NONCES then 0 else n + 1 }

  datatype Packet = Packet(typ: Byte, payload: Bytes)

  function Length16(n: nat): Bytes
    requires n <= MAX_PAYLOAD
  {
    [n / 256, n % 256]
  }

  function Uint16(b: Bytes): nat
    requires |b| == 2
  {
    b[0] as int * 256 + b[1] as int
  }

  function Plain(p: Packet): Bytes
    requires |p.payload| <= MAX_PAYLOAD
  {
    [p.typ] + Length16(|p.payload|) + p.payload
  }

  function Frame<S>(c: Cipher<S>, nonce: nat, p: Packet): Bytes
    requires |p.payload| <= MAX_PAYLOAD
  {
    Seal(c, c.start(nonce), Plain(p)) + c.mac(Absorb(c, c.start(nonce), Plain(p)))
  }

  predicate Sendable(ps: seq<Packet>) { forall p :: p in ps ==> |p.payload| <= MAX_PAYLOAD }

  /** The bytes of a list of packets, from a given nonce on. */
  function Stream<S>(c: Cipher<S>, nonce: nat, ps: seq<Packet>): Bytes
    requires Sendable(ps)
    decreases |ps|
  {
    if ps == [] then [] else Frame(c, nonce, ps[0]) + Stream(c, NextNonce(nonce), ps[1..])
  }

  datatype Received = Got(p: Packet) | Short | BadMac

  /** What one receive makes of the bytes still to be read, and how many of them it uses. */
  function Take<S>(c: Cipher<S>, nonce: nat, stream: Bytes): (r: (Received, nat))
    ensures r.1 <= |stream|
  {
    var s := c.start(nonce);
    if |stream| < 3 then (Short, |stream|)
    else
      var header := Open(c, s, stream[..3]);
      var body := TakeBody(c, Absorb(c, s, header), header, stream[3..]);
      (body.0, 3 + body.1)
  }

  /** The same behind the header; `s` is the cipher state there. */
  function TakeBody<S>(c: Cipher<S>, s: S, header: Bytes, stream: Bytes): (r: (Received, nat))
    requires |header| == 3
    ensures r.1 <= |stream|
  {
    var n := Uint16(header[1..3]);
    if |stream| < n + MAC_LENGTH then (Short, |stream|)
    else
      var payload := Open(c, s, stream[..n]);
      if stream[n..n + MAC_LENGTH] == c.mac(Absorb(c, s, payload))
      then (Got(Packet(header[0], payload)), n + MAC_LENGTH)
      else (BadMac, n + MAC_LENGTH)
  }

  // ----- The connection -----

  datatype PeekResult = Peeked(bytes: Bytes) | PeekShort | PeekPanics

  /** What is left of the push-back buffer when `n` bytes have been read. */
  function Drop(unread: Bytes, n: nat): Bytes { if n <= |unread| then unread[n..] else [] }

  datatype Receiver = Receiver(nonce: nat, unread: Bytes, incoming: Bytes)

  datatype Op = Peek(count: nat) | Receive

  /** A peek is legal when nothing is pushed back and enough bytes are there. */
  predicate Legal(rx: Receiver, op: Op) {
    op.Peek? ==> rx.unread == [] && op.count <= |rx.incoming|
  }

  /** The receiving side after one call. */
  function Step<S>(c: Cipher<S>, rx: Receiver, op: Op): Receiver
    requires Legal(rx, op)
  {
    match op
    case Peek(count) => rx.(unread := rx.incoming[..count], incoming := rx.incoming[count..])
    case Receive =>
      var used := Take(c, rx.nonce, rx.unread + rx.incoming).1;
      var left := Drop(rx.unread, used);
      Receiver(NextNonce(rx.nonce), left, (rx.unread + rx.incoming)[used + |left|..])
  }

  class Conn<S> {
    const sendCipher: Cipher<S>
    const recvCipher: Cipher<S>
    var sendNonce: nat
    var recvNonce: nat
    var unread: Bytes     // pushed back
    var incoming: Bytes   // not yet read from the socket
    var outgoing: Bytes   // written to the socket

    function Unconsumed(): Bytes
      reads this
    {
      unread + incoming
    }

    function Receiving(): Receiver
      reads this
    {
      Receiver(recvNonce, unread, incoming)
    }

    constructor (sendCipher: Cipher<S>, recvCipher: Cipher<S>, incoming: Bytes)
      ensures this.sendCipher == sendCipher && this.recvCipher == recvCipher
      ensures sendNonce == recvNonce == 0 && outgoing == [] && unread == [] && Unconsumed() == incoming
    {
      this.sendCipher, this.recvCipher := sendCipher, recvCipher;
      sendNonce, recvNonce := 0, 0;
      unread, this.incoming, outgoing := [], incoming, [];
    }

    method SendPacket(typ: Byte, payload: Bytes) returns (ok: bool)
      modifies this`sendNonce, this`outgoing
      ensures ok <==> |payload| <= MAX_PAYLOAD
      ensures ok ==> outgoing == old(outgoing) + Frame(sendCipher, old(sendNonce), Packet(typ, payload))
      ensures ok ==> sendNonce == NextNonce(old(sendNonce))
      ensures !ok ==> outgoing == old(outgoing) && sendNonce == old(sendNonce)
    {
      if |payload| > MAX_PAYLOAD {
        return false;
      }
      var p := Packet(typ, payload);
      var packet := new Byte[3 + |payload|](i requires 0 <= i < 3 + |payload| =>
        if i == 0 then typ else if i == 1 then |payload| / 256 else if i == 2 then |payload| % 256 else payload[i - 3]);
      assert packet[..] == Plain(p);
      var s := sendCipher.start(sendNonce);
      sendNonce := if sendNonce + 1 == NONCES then 0 else sendNonce + 1;
      s := EncryptInPlace(sendCipher, s, packet);
      var mac := sendCipher.mac(s);
      outgoing := outgoing + packet[..];
      outgoing := outgoing + mac;
      return true;
    }

    method PeekUnencrypted(count: nat) returns (r: PeekResult)
      modifies this`unread, this`incoming
      ensures r.PeekPanics? <==> old(unread) != []
      ensures r.Peeked? <==> old(unread) == [] && count <= |old(incoming)|
      ensures r.Peeked? ==> Receiving() == Step(recvCipher, old(Receiving()), Peek(count))
      ensures r.Peeked? ==> r.bytes == unread
      ensures r.PeekPanics? ==> Receiving() == old(Receiving())
      ensures r.PeekShort? ==> Unconsumed() == []
    {
      if |unread| > 0 {
        return PeekPanics;
      }
      if |incoming| < count {
        incoming := [];
        return PeekShort;
      }
      unread, incoming := incoming[..count], incoming[count..];
      return Peeked(unread);
    }

    /** `io.ReadFull` on the push-back buffer followed by the socket; `None` when they run dry. */
    method ReadFull(n: nat) returns (r: Option<array<Byte>>)
      modifies this`unread, this`incoming
      ensures r.Some? <==> n <= |old(Unconsumed())|
      ensures r.Some? ==> fresh(r.value) && r.value[..] == old(Unconsumed())[..n] && Unconsumed() == old(Unconsumed())[n..]
      ensures r.None? ==> Unconsumed() == []
      ensures unread == Drop(old(unread), if r.Some? then n else |old(Unconsumed())|)
    {
      if |unread| + |incoming| < n {
        unread, incoming := [], [];
        return None;
      }
      var buf := new Byte[n](i => 0);
      var m := if n <= |unread| then n else |unread|;
      forall i | 0 <= i < n {
        buf[i] := if i < m then unread[i] else incoming[i - m];
      }
      unread, incoming := unread[m..], incoming[n - m..];
      return Some(buf);
    }

    /** Reads and opens `n` bytes. */
    method ReadOpen(n: nat, s: S) returns (r: Option<Bytes>, s': S)
      modifies this`unread, this`incoming
      ensures r.Some? <==> n <= |old(Unconsumed())|
      ensures r.Some? ==> r.value == Open(recvCipher, s, old(Unconsumed())[..n]) && s' == Absorb(recvCipher, s, r.value)
      ensures Unconsumed() == if r.Some? then old(Unconsumed())[n..] else []
      ensures unread == Drop(old(unread), if r.Some? then n else |old(Unconsumed())|)
    {
      s' := s;
      var buf := ReadFull(n);
      if buf.None? {
        return None, s';
      }
      s' := DecryptInPlace(recvCipher, s, buf.value);
      return Some(buf.value[..]), s';
    }

    method ReceiveBody(header: Bytes, s: S) returns (r: Received)
      requires |header| == 3
      modifies this`unread, this`incoming
      ensures
        var t := TakeBody(recvCipher, s, header, old(Unconsumed()));
        r == t.0 && Unconsumed() == old(Unconsumed())[t.1..] && unread == Drop(old(unread), t.1)
    {
      ghost var was := Unconsumed();
      var n := Uint16(header[1..3]);
      var payload, s' := ReadOpen(n, s);
      if payload.None? {
        return Short;
      }
      assert Unconsumed() == was[n..];
      var mac := ReadFull(MAC_LENGTH);
      if mac.None? {
        return Short;
      }
      assert was[n..][..MAC_LENGTH] == was[n..n + MAC_LENGTH];
      assert was[n..][MAC_LENGTH..] == was[n + MAC_LENGTH..];
      if recvCipher.mac(s') != mac.value[..] {
        return BadMac;
      }
      return Got(Packet(header[0], payload.value));
    }

    method ReadPacket(nonce: nat) returns (r: Received)
      modifies this`unread, this`incoming
      ensures
        var t := Take(recvCipher, nonce, old(Unconsumed()));
        r == t.0 && Unconsumed() == old(Unconsumed())[t.1..] && unread == Drop(old(unread), t.1)
    {
      ghost var was := Unconsumed();
      var header, s := ReadOpen(3, recvCipher.start(nonce));
      if header.None? {
        return Short;
      }
      r := ReceiveBody(header.value, s);
      ghost var used := TakeBody(recvCipher, s, header.value, was[3..]).1;
      assert was[3..][used..] == was[3 + used..];
    }

    method ReceivePacket() returns (r: Received)
      modifies this`recvNonce, this`unread, this`incoming
      ensures r == Take(recvCipher, old(recvNonce), old(Unconsumed())).0
      ensures Receiving() == Step(recvCipher, old(Receiving()), Receive)
    {
      var nonce := recvNonce;
      recvNonce := if recvNonce + 1 == NONCES then 0 else recvNonce + 1;
      r := ReadPacket(nonce);
      assert incoming == Unconsumed()[|unread|..];
      assert old(Unconsumed()) == old(unread) + old(incoming);
    }
  }

  // ----- What arrives is what was sent -----

  lemma LengthRoundTrip(n: nat)
    requires n <= MAX_PAYLOAD
    ensures |Length16(n)| == 2 && Uint16(Length16(n)) == n
  {
  }

  /** A frame at the head of the stream is received whole, whatever follows it. */
  lemma TakeFrame<S(!new)>(c: Cipher<S>, nonce: nat, p: Packet, rest: Bytes)
    requires Lawful(c) && |p.payload| <= MAX_PAYLOAD
    ensures Take(c, nonce, Frame(c, nonce, p) + rest) == (Got(p), |Frame(c, nonce, p)|)
    ensures (Frame(c, nonce, p) + rest)[|Frame(c, nonce, p)|..] == rest
  {
    var s := c.start(nonce);
    var n := |p.payload|;
    var head := [p.typ] + Length16(n);
    var s' := Absorb(c, s, head);
    var stream := Frame(c, nonce, p) + rest;
    SealConcat(c, s, head, p.payload);
    OpenSeal(c, s, head);
    OpenSeal(c, s', p.payload);
    LengthRoundTrip(n);
    assert head[1..3] == Length16(n);
    var mac := c.mac(Absorb(c, s', p.payload));
    SplitFrame(Seal(c, s, head), Seal(c, s', p.payload), mac, rest, stream);
  }

  lemma SplitFrame(h: Bytes, b: Bytes, mac: Bytes, rest: Bytes, stream: Bytes)
    requires |h| == 3 && |mac| == MAC_LENGTH && stream == h + b + mac + rest
    ensures stream[..3] == h
    ensures stream[3..][..|b|] == b && stream[3..][|b|..|b| + MAC_LENGTH] == mac
    ensures stream[3 + |b| + MAC_LENGTH..] == rest
  {
    assert stream[3..] == b + mac + rest;
  }

  lemma {:induction false} StreamAppend<S>(c: Cipher<S>, nonce: nat, ps: seq<Packet>, p: Packet)
    requires Sendable(ps + [p]) && Sendable(ps)
    ensures Stream(c, nonce, ps + [p]) == Stream(c, nonce, ps) + Frame(c, NonceAfter(nonce, |ps|), p)
    decreases |ps|
  {
    if ps == [] {
      assert (ps + [p])[1..] == [];
    } else {
      assert (ps + [p])[1..] == ps[1..] + [p];
      StreamAppend(c, NextNonce(nonce), ps[1..], p);
    }
  }

  /** The nonce after `k` packets. */
  function NonceAfter(nonce: nat, k: nat): nat
    decreases k
  {
    if k == 0 then nonce else NonceAfter(NextNonce(nonce), k - 1)
  }

  lemma {:induction false} NonceAfterStep(nonce: nat, k: nat)
    ensures NonceAfter(nonce, k + 1) == NextNonce(NonceAfter(nonce, k))
    decreases k
  {
    if k > 0 {
      NonceAfterStep(NextNonce(nonce), k - 1);
    }
  }

  /** The first 2^32 packets of a connection have the nonces 0, 1, 2, ..., and then they start again. */
  lemma {:induction false} NonceCounts(k: nat)
    requires k <= 0x1_0000_0000
    ensures NonceAfter(0, k) == if k < 0x1_0000_0000 then k else 0
  {
    if k > 0 {
      NonceCounts(k - 1);
      NonceAfterStep(0, k - 1);
    }
  }

  // ----- Whole runs of the receiver -----

  ghost predicate LegalRun<S>(c: Cipher<S>, rx: Receiver, ops: seq<Op>)
    decreases |ops|
  {
    ops == [] || (Legal(rx, ops[0]) && LegalRun(c, Step(c, rx, ops[0]), ops[1..]))
  }

  ghost function Final<S>(c: Cipher<S>, rx: Receiver, ops: seq<Op>): Receiver
    requires LegalRun(c, rx, ops)
    decreases |ops|
  {
    if ops == [] then rx else Final(c, Step(c, rx, ops[0]), ops[1..])
  }

  /** What the receives of a run return, in order. */
  ghost function Results<S>(c: Cipher<S>, rx: Receiver, ops: seq<Op>): seq<Received>
    requires LegalRun(c, rx, ops)
    decreases |ops|
  {
    if ops == [] then []
    else
      (if ops[0].Receive? then [Take(c, rx.nonce, rx.unread + rx.incoming).0] else []) +
      Results(c, Step(c, rx, ops[0]), ops[1..])
  }

  function Receives(ops: seq<Op>): nat {
    if ops == [] then 0 else (if ops[0].Receive? then 1 else 0) + Receives(ops[1..])
  }

  /** The receiver has yet to read the packets `ps`, and then `tail`. */
  ghost predicate Expects<S>(c: Cipher<S>, rx: Receiver, nonce: nat, ps: seq<Packet>, tail: Bytes)
    requires Sendable(ps)
  {
    rx.nonce == nonce && rx.unread + rx.incoming == Stream(c, nonce, ps) + tail
  }

  lemma StepKeepsStream<S>(c: Cipher<S>, rx: Receiver, op: Op)
    requires Legal(rx, op)
    ensures
      var rx' := Step(c, rx, op);
      rx'.unread + rx'.incoming ==
        (rx.unread + rx.incoming)[if op.Receive? then Take(c, rx.nonce, rx.unread + rx.incoming).1 else 0..]
  {
    var all := rx.unread + rx.incoming;
    if op.Receive? {
      var used := Take(c, rx.nonce, all).1;
      if used <= |rx.unread| {
        assert all[used..] == rx.unread[used..] + rx.incoming;
        assert all[|rx.unread|..] == rx.incoming;
      }
    }
  }

  lemma StepReceives<S(!new)>(c: Cipher<S>, rx: Receiver, nonce: nat, ps: seq<Packet>, tail: Bytes)
    requires Lawful(c) && Sendable(ps) && ps != [] && Expects(c, rx, nonce, ps, tail)
    ensures Take(c, rx.nonce, rx.unread + rx.incoming).0 == Got(ps[0])
    ensures Expects(c, Step(c, rx, Receive), NextNonce(nonce), ps[1..], tail)
  {
    var rest := Stream(c, NextNonce(nonce), ps[1..]) + tail;
    assert ps[0] in ps;
    assert rx.unread + rx.incoming == Frame(c, nonce, ps[0]) + rest;
    TakeFrame(c, nonce, ps[0], rest);
    StepKeepsStream(c, rx, Receive);
  }

  /** The receives of the run return the first packets of `ps`, and leave the rest. */
  ghost predicate Delivers<S>(
    c: Cipher<S>, rx: Receiver, ops: seq<Op>, nonce: nat, ps: seq<Packet>, tail: Bytes)
    requires LegalRun(c, rx, ops) && Receives(ops) <= |ps|
  {
    var k := Receives(ops);
    && |Results(c, rx, ops)| == k
    && (forall i :: 0 <= i < k ==> Results(c, rx, ops)[i] == Got(ps[i]))
    && Sendable(ps[k..])
    && Expects(c, Final(c, rx, ops), NonceAfter(nonce, k), ps[k..], tail)
  }

  lemma DeliversAfterReceive<S(!new)>(
    c: Cipher<S>, rx: Receiver, ops: seq<Op>, nonce: nat, ps: seq<Packet>, tail: Bytes)
    requires ops != [] && ops[0].Receive? && LegalRun(c, rx, ops) && Receives(ops) <= |ps|
    requires Take(c, rx.nonce, rx.unread + rx.incoming).0 == Got(ps[0])
    requires Delivers(c, Step(c, rx, Receive), ops[1..], NextNonce(nonce), ps[1..], tail)
    ensures Delivers(c, rx, ops, nonce, ps, tail)
  {
    var k := Receives(ops[1..]);
    assert ps[1..][k..] == ps[k + 1..];
    var later := Results(c, Step(c, rx, Receive), ops[1..]);
    assert Results(c, rx, ops) == [Got(ps[0])] + later;
    forall i | 0 <= i < k + 1
      ensures Results(c, rx, ops)[i] == Got(ps[i])
    {
      if i > 0 {
        assert later[i - 1] == Got(ps[1..][i - 1]);
      }
    }
  }

  /** However peeks are mixed in, the receives return the packets that were sent, in order, the
    nonces stay in step, and what is pushed back or unread is the rest of the stream. */
  lemma {:induction false} Delivered<S(!new)>(
    c: Cipher<S>, rx: Receiver, ops: seq<Op>, nonce: nat, ps: seq<Packet>, tail: Bytes)
    requires Lawful(c) && Sendable(ps) && LegalRun(c, rx, ops)
    requires Expects(c, rx, nonce, ps, tail) && Receives(ops) <= |ps|
    ensures Delivers(c, rx, ops, nonce, ps, tail)
    decreases |ops|
  {
    if ops != [] {
      var rx', later := Step(c, rx, ops[0]), ops[1..];
      if ops[0].Receive? {
        StepReceives(c, rx, nonce, ps, tail);
        Delivered(c, rx', later, NextNonce(nonce), ps[1..], tail);
        DeliversAfterReceive(c, rx, ops, nonce, ps, tail);
      } else {
        StepKeepsStream(c, rx, ops[0]);
        Delivered(c, rx', later, nonce, ps, tail);
        assert Results(c, rx, ops) == [] + Results(c, rx', later) == Results(c, rx', later);
      }
    }
  }

  /** A peek of 9 bytes over the 7 bytes of an empty packet leaves the other 2 pushed back. */
  lemma PeekOverrun<S(!new)>(c: Cipher<S>, nonce: nat, typ: Byte, next: Bytes)
    requires Lawful(c) && 2 <= |next|
    ensures
      var rx := Receiver(nonce, [], Frame(c, nonce, Packet(typ, [])) + next);
      && Legal(rx, Peek(9))
      && var peeked := Step(c, rx, Peek(9));
      && Take(c, peeked.nonce, peeked.unread + peeked.incoming).0 == Got(Packet(typ, []))
      && Step(c, peeked, Receive) == Receiver(NextNonce(nonce), next[..2], next[2..])
  {
    var frame := Frame(c, nonce, Packet(typ, []));
    var rx := Receiver(nonce, [], frame + next);
    TakeFrame(c, nonce, Packet(typ, []), next);
    assert |frame| == 7;
    var peeked := Step(c, rx, Peek(9));
    assert peeked.unread + peeked.incoming == frame + next;
    assert peeked.unread[7..] == next[..2];
    assert (frame + next)[9..] == next[2..];
  }

  // ----- The layout of a frame, and frames that are refused -----

  /** Before it is sealed, a packet is its type, its length in two bytes with the high one first, and
    its payload; four bytes of code follow. */
  lemma FrameLayout<S(!new)>(c: Cipher<S>, nonce: nat, p: Packet)
    requires Lawful(c) && |p.payload| <= MAX_PAYLOAD
    ensures
      var plain, n := Plain(p), |p.payload|;
      && |plain| == 3 + n && plain[0] == p.typ && plain[3..] == p.payload
      && plain[1] as int * 256 + plain[2] as int == n
      && |Frame(c, nonce, p)| == n + 7
      && Open(c, c.start(nonce), Frame(c, nonce, p)[..3 + n]) == plain
      && Frame(c, nonce, p)[3 + n..] == c.mac(Absorb(c, c.start(nonce), plain))
  {
    OpenSeal(c, c.start(nonce), Plain(p));
    var sealed, mac := Seal(c, c.start(nonce), Plain(p)), c.mac(Absorb(c, c.start(nonce), Plain(p)));
    assert Frame(c, nonce, p) == sealed + mac;
    assert (sealed + mac)[..|sealed|] == sealed && (sealed + mac)[|sealed|..] == mac;
  }

  /** A frame with another code is used up like the right one, and refused. */
  lemma WrongCodeRefused<S(!new)>(c: Cipher<S>, nonce: nat, p: Packet, code: Bytes, rest: Bytes)
    requires Lawful(c) && |p.payload| <= MAX_PAYLOAD
    requires |code| == 4 && code != c.mac(Absorb(c, c.start(nonce), Plain(p)))
    ensures Take(c, nonce, Seal(c, c.start(nonce), Plain(p)) + code + rest) == (BadMac, |p.payload| + 7)
  {
    var s := c.start(nonce);
    var head := [p.typ] + Length16(|p.payload|);
    var s' := Absorb(c, s, head);
    SealConcat(c, s, head, p.payload);
    OpenSeal(c, s, head);
    OpenSeal(c, s', p.payload);
    LengthRoundTrip(|p.payload|);
    assert head[1..3] == Length16(|p.payload|);
    SplitFrame(Seal(c, s, head), Seal(c, s', p.payload), code, rest,
               Seal(c, s, Plain(p)) + code + rest);
  }

  /** A stream that ends within a frame is used up without a packet. */
  lemma CutFrameShort<S(!new)>(c: Cipher<S>, nonce: nat, p: Packet, k: nat)
    requires Lawful(c) && |p.payload| <= MAX_PAYLOAD && k < |Frame(c, nonce, p)|
    ensures Take(c, nonce, Frame(c, nonce, p)[..k]) == (Short, k)
  {
    if k >= 3 {
      var s, frame := c.start(nonce), Frame(c, nonce, p);
      var head := [p.typ] + Length16(|p.payload|);
      SealConcat(c, s, head, p.payload);
      OpenSeal(c, s, head);
      LengthRoundTrip(|p.payload|);
      assert head[1..3] == Length16(|p.payload|);
      assert frame[..3] == Seal(c, s, head);
      assert frame[..k][..3] == frame[..3];
      FrameLayout(c, nonce, p);
    }
  }
}
