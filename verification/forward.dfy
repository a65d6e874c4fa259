// Splicing an admitted connection: header, replayed buffer, then both copies.
module Forward {
  import opened ClientHello
  import opened Stream

  // The writing half of a connection. A write may fail after an arbitrary part of
  // it has been delivered; `broken` remembers that one has.
  class Sink {
    var received: bytes
    ghost var broken: bool

    constructor ()
      ensures received == [] && !broken
    {
      received, broken := [], false;
    }

    method Write(b: bytes) returns (ok: bool)
      modifies this
      ensures old(received) <= received <= old(received) + b
      ensures ok ==> received == old(received) + b
      ensures broken == (old(broken) || !ok)
    {
      var k: nat :| k <= |b|;
      received := received + b[..k];
      ok := *;
      if k < |b| {
        ok := false;
      } else {
        assert b[..k] == b;
      }
      broken := broken || !ok;
    }
  }

  const CONNECT := Ascii("CONNECT ")

  const ESTABLISHED := Ascii("HTTP/1.1 200 Connection Established\r\n\r\n")

  predicate IsConnect(header: bytes) {
    CONNECT <= header
  }

  // What the destination is meant to see of a client stream whose header was
  // consumed: a CONNECT header is for the proxy (section 9.3.6 of RFC 9110),
  // everything else is the destination's.
  function Payload(stream: bytes, header: bytes): bytes
    requires header <= stream
  {
    if IsConnect(header) then stream[|header|..] else stream
  }

  function Greeting(header: bytes): bytes {
    if IsConnect(header) then ESTABLISHED else []
  }

  // Both spelled out: what makes a header a CONNECT, and the answer to one.
  lemma ConnectAnswered(stream: bytes, header: bytes)
    requires header <= stream
    ensures Begins(header, "CONNECT ") ==>
      && Payload(stream, header) == stream[|header|..] && Relayed(header) == []
      && |Greeting(header)| == 39 && Begins(Greeting(header), "HTTP/1.1 200 Connection Established\r\n\r\n")
    ensures !Begins(header, "CONNECT ") ==>
      Payload(stream, header) == stream && Relayed(header) == header && Greeting(header) == []
  {
    hide Begins, Ascii;
    ConnectSpelled(header);
    AsciiBegins("HTTP/1.1 200 Connection Established\r\n\r\n");
  }

  lemma ConnectSpelled(header: bytes)
    ensures IsConnect(header) <==> Begins(header, "CONNECT ")
  {
    assert CONNECT <= header <==> |CONNECT| <= |header| && forall i :: 0 <= i < |CONNECT| ==> CONNECT[i] == header[i];
  }

  // Where one copy stands.
  datatype Copying = Going | Clean | Broken

  // One round of io.Copy: a piece is read and written on.
  method CopyStep(from: BufReader, to: Sink) returns (state: Copying)
    requires from.Valid()
    modifies from`buffered, from`pending, to
    ensures from.Valid()
    ensures old(to.received) <= to.received <= old(to.received) + old(from.Unread())
    ensures state != Broken || !to.broken ==>
      to.received + from.Unread() == old(to.received) + old(from.Unread())
    ensures state == Going ==> |from.Unread()| < |old(from.Unread())|
    ensures state == Clean ==> from.Unread() == [] && from.ending == EOF
    ensures state == Broken && !to.broken ==> from.Unread() == [] && from.ending != EOF
    ensures old(to.broken) ==> to.broken
  {
    if from.Unread() == [] {
      return if from.ending == EOF then Clean else Broken;
    }
    ghost var before, unread := to.received, from.Unread();
    var chunk := from.ReadChunk();
    assert before + unread == before + chunk + from.Unread();
    var ok := to.Write(chunk);
    return if ok then Going else Broken;
  }

  // What a copy has done with `unread`, having started with `before` delivered.
  ghost predicate Copied(from: BufReader, to: Sink, state: Copying, before: bytes, unread: bytes)
    reads from, to
  {
    && from.Valid() && before <= to.received <= before + unread
    && (state != Broken || !to.broken ==> to.received + from.Unread() == before + unread)
    && (state == Clean ==> from.Unread() == [] && from.ending == EOF)
    && (state == Broken && !to.broken ==> from.Unread() == [] && from.ending != EOF)
  }

  lemma CopiedOn(from: BufReader, to: Sink, state: Copying, before: bytes, unread: bytes, sent: bytes, rest: bytes)
    requires from.Valid() && before <= sent && sent + rest == before + unread
    requires sent <= to.received <= sent + rest
    requires state != Broken || !to.broken ==> to.received + from.Unread() == sent + rest
    requires state == Clean ==> from.Unread() == [] && from.ending == EOF
    requires state == Broken && !to.broken ==> from.Unread() == [] && from.ending != EOF
    ensures Copied(from, to, state, before, unread)
  {
  }

  // The two copies at once, their rounds in any interleaving; each goes on until
  // its own end, whatever becomes of the other.
  method CopyBoth(client: BufReader, toClient: Sink, upstream: BufReader, toUpstream: Sink)
    returns (sent: bool, answered: bool)
    requires client.Valid() && upstream.Valid() && client != upstream && toClient != toUpstream
    modifies client`buffered, client`pending, upstream`buffered, upstream`pending, toClient, toUpstream
    ensures old(toUpstream.received) <= toUpstream.received <= old(toUpstream.received) + old(client.Unread())
    ensures sent ==> client.ending == EOF && toUpstream.received == old(toUpstream.received) + old(client.Unread())
    ensures old(toClient.received) <= toClient.received <= old(toClient.received) + old(upstream.Unread())
    ensures answered ==>
      upstream.ending == EOF && toClient.received == old(toClient.received) + old(upstream.Unread())
    ensures !toUpstream.broken ==>
      && toUpstream.received == old(toUpstream.received) + old(client.Unread())
      && (sent <==> client.ending == EOF)
    ensures !toClient.broken ==>
      && toClient.received == old(toClient.received) + old(upstream.Unread())
      && (answered <==> upstream.ending == EOF)
    ensures (old(toUpstream.broken) ==> toUpstream.broken) && (old(toClient.broken) ==> toClient.broken)
  {
    ghost var up0, rest := toUpstream.received, client.Unread();
    ghost var down0, answer := toClient.received, upstream.Unread();
    var forth, back := Going, Going;
    while forth == Going || back == Going
      invariant Copied(client, toUpstream, forth, up0, rest)
      invariant Copied(upstream, toClient, back, down0, answer)
      invariant (old(toUpstream.broken) ==> toUpstream.broken) && (old(toClient.broken) ==> toClient.broken)
      decreases if forth == Going then 1 + |client.Unread()| else 0,
                if back == Going then 1 + |upstream.Unread()| else 0
    {
      var turn := *;
      if forth == Going && (turn || back != Going) {
        ghost var up1, rest1 := toUpstream.received, client.Unread();
        forth := CopyStep(client, toUpstream);
        CopiedOn(client, toUpstream, forth, up0, rest, up1, rest1);
      } else {
        ghost var down1, answer1 := toClient.received, upstream.Unread();
        back := CopyStep(upstream, toClient);
        CopiedOn(upstream, toClient, back, down0, answer, down1, answer1);
      }
    }
    return forth == Clean, back == Clean;
  }

  // The part of a consumed header that the destination sees.
  function Relayed(header: bytes): bytes {
    if IsConnect(header) then [] else header
  }

  // CONNECT is answered by the proxy itself; any other header goes upstream.
  method SendHeader(header: bytes, toClient: Sink, toUpstream: Sink) returns (ok: bool)
    requires toClient != toUpstream
    modifies toClient, toUpstream
    ensures old(toClient.received) <= toClient.received <= old(toClient.received) + Greeting(header)
    ensures old(toUpstream.received) <= toUpstream.received <= old(toUpstream.received) + Relayed(header)
    ensures ok ==>
      && toClient.received == old(toClient.received) + Greeting(header)
      && toUpstream.received == old(toUpstream.received) + Relayed(header)
      && toClient.broken == old(toClient.broken) && toUpstream.broken == old(toUpstream.broken)
    ensures !ok ==> if IsConnect(header) then toClient.broken else toUpstream.broken
  {
    ok := true;
    if IsConnect(header) {
      ok := toClient.Write(ESTABLISHED);
    } else if |header| > 0 {
      ok := toUpstream.Write(header);
    }
  }

  // What the reader has buffered beyond the peeked bytes goes first.
  method Replay(client: BufReader, toUpstream: Sink) returns (ok: bool)
    requires client.Valid()
    modifies client`buffered, toUpstream
    ensures client.Valid()
    ensures old(toUpstream.received) <= toUpstream.received <= old(toUpstream.received) + old(client.Unread())
    ensures ok ==> toUpstream.received + client.Unread() == old(toUpstream.received) + old(client.Unread())
    ensures toUpstream.broken == (old(toUpstream.broken) || !ok)
  {
    ok := true;
    var replay := client.buffered;
    if |replay| > 0 {
      ghost var before := toUpstream.received;
      ok := toUpstream.Write(replay);
      assert before + client.Unread() == before + replay + client.pending;
      if ok {
        client.buffered := [];
      }
    }
  }

  // The header, the replayed buffer, and then both copies at once.
  method Splice(client: BufReader, toClient: Sink, upstream: BufReader, toUpstream: Sink, header: bytes)
    returns (sent: bool, answered: bool)
    requires client.Valid() && upstream.Valid() && client != upstream && toClient != toUpstream
    modifies client`buffered, client`pending, upstream`buffered, upstream`pending, toClient, toUpstream
    ensures
      var payload := Payload(header + old(client.Unread()), header);
      && old(toUpstream.received) <= toUpstream.received <= old(toUpstream.received) + payload
      && (sent ==> client.ending == EOF && toUpstream.received == old(toUpstream.received) + payload)
    ensures
      var answer := Greeting(header) + old(upstream.Unread());
      && old(toClient.received) <= toClient.received <= old(toClient.received) + answer
      && (answered ==> upstream.ending == EOF && toClient.received == old(toClient.received) + answer)
    ensures
      var payload := Payload(header + old(client.Unread()), header);
      !toUpstream.broken && (IsConnect(header) ==> !toClient.broken) ==>
        && toUpstream.received == old(toUpstream.received) + payload
        && (sent <==> client.ending == EOF)
    ensures
      !toUpstream.broken && !toClient.broken ==>
        && toClient.received == old(toClient.received) + (Greeting(header) + old(upstream.Unread()))
        && (answered <==> upstream.ending == EOF)
  {
    hide IsConnect, Payload, Greeting, Relayed;
    ghost var rest, answer := client.Unread(), upstream.Unread();
    ghost var up0, down0 := toUpstream.received, toClient.received;
    PayloadParts(header, rest);
    assert up0 + (Relayed(header) + rest) == up0 + Relayed(header) + rest;
    assert down0 + (Greeting(header) + answer) == down0 + Greeting(header) + answer;
    var ok := SendHeader(header, toClient, toUpstream);
    if !ok {
      return false, false;
    }
    ok := Replay(client, toUpstream);
    if !ok {
      return false, false;
    }
    sent, answered := CopyBoth(client, toClient, upstream, toUpstream);
  }

  lemma PayloadParts(header: bytes, rest: bytes)
    ensures Payload(header + rest, header) == Relayed(header) + rest
  {
    assert (header + rest)[|header|..] == rest && [] + rest == rest;
  }

  // From the first byte on: whatever the chunking, the destination has received a
  // prefix of the payload of the client's stream, and on clean completion all of
  // it. Nothing is lost, repeated or reordered between header, buffer and copy.
  method PeekAndSplice(client: BufReader, toClient: Sink, upstream: BufReader, toUpstream: Sink, parsers: Parsers)
    returns (p: Peeked, sent: bool)
    requires client.Valid() && upstream.Valid() && client != upstream && toClient != toUpstream
    requires toUpstream.received == []
    modifies client, upstream, toClient, toUpstream
    ensures
      var s := old(client.Unread());
      && p == PeekResult(s, client.ending, parsers)
      && (p.Refused? ==> toUpstream.received == [])
      && (p.Host? ==>
            && p.header <= s
            && toUpstream.received <= Payload(s, p.header)
            && (sent ==> client.ending == EOF && toUpstream.received == Payload(s, p.header))
            && (!toUpstream.broken && !toClient.broken ==>
                  toUpstream.received == Payload(s, p.header) && (sent <==> client.ending == EOF)))
  {
    hide PeekResult, IsConnect, Payload;
    p := PeekHostname(client, parsers);
    sent := false;
    if p.Host? {
      var answered;
      sent, answered := Splice(client, toClient, upstream, toUpstream, p.header);
    }
  }
}
