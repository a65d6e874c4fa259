// The client's byte stream: buffered reading in arbitrary chunks, and peeking at
// the first packet.
module Stream {
  import opened Text
  import opened ClientHello

  const BUFFER_SIZE := 32768
  const MAX_RECORD := 16384
  const MAX_HEADER := 16384

  // How the stream ends once all its bytes have arrived.
  datatype Ending = EOF | Failed

  datatype ReadError = Ended(ending: Ending) | BufferFull

  // A buffered reader over a connection. `pending` is what the peer has still to
  // deliver; every Fill moves an arbitrary non-empty piece of it into `buffered`.
  class BufReader {
    var buffered: bytes
    var pending: bytes
    const ending: Ending
    ghost var furthestPeek: nat

    constructor (stream: bytes, ending: Ending)
      ensures Valid() && Unread() == stream && this.ending == ending && furthestPeek == 0
    {
      buffered, pending, furthestPeek := [], stream, 0;
      this.ending := ending;
    }

    predicate Valid()
      reads this
    {
      |buffered| <= BUFFER_SIZE
    }

    function Unread(): bytes
      reads this
    {
      buffered + pending
    }

    method Fill()
      requires Valid() && |buffered| < BUFFER_SIZE && pending != []
      modifies this`buffered, this`pending
      ensures Valid() && Unread() == old(Unread())
      ensures |pending| < old(|pending|) && buffered != []
    {
      var k: nat :| 1 <= k <= |pending| && |buffered| + k <= BUFFER_SIZE;
      buffered, pending := buffered + pending[..k], pending[k..];
    }

    // The next n bytes without consuming them. The outcome depends on the stream
    // alone, never on how it was cut into reads.
    method Peek(n: nat) returns (b: bytes, err: Option<ReadError>)
      requires Valid()
      modifies this
      ensures Valid() && Unread() == old(Unread())
      ensures furthestPeek == if n > old(furthestPeek) then n else old(furthestPeek)
      ensures n > BUFFER_SIZE ==> err.Some?
      ensures n <= BUFFER_SIZE ==>
        if n <= |Unread()| then err == None && b == Unread()[..n]
        else err == Some(Ended(ending)) && b == Unread()
    {
      furthestPeek := if n > furthestPeek then n else furthestPeek;
      while |buffered| < n && |buffered| < BUFFER_SIZE && pending != []
        invariant Valid() && Unread() == old(Unread())
        invariant furthestPeek == if n > old(furthestPeek) then n else old(furthestPeek)
        decreases |pending|
      {
        Fill();
      }
      if n > BUFFER_SIZE {
        return buffered, Some(BufferFull);
      }
      if |buffered| < n {
        return buffered, Some(Ended(ending));
      }
      assert buffered[..n] == Unread()[..n];
      return buffered[..n], None;
    }

    method ReadByte() returns (b: byte, err: Option<ReadError>)
      requires Valid()
      modifies this`buffered, this`pending
      ensures Valid()
      ensures if old(Unread()) == [] then err == Some(Ended(ending)) && Unread() == []
              else err == None && b == old(Unread())[0] && Unread() == old(Unread())[1..]
    {
      if buffered == [] {
        if pending == [] {
          return 0, Some(Ended(ending));
        }
        Fill();
      }
      b, err := buffered[0], None;
      assert Unread()[1..] == buffered[1..] + pending;
      buffered := buffered[1..];
    }

    // A non-empty piece of what is buffered, reading more if nothing is.
    method ReadChunk() returns (b: bytes)
      requires Valid() && Unread() != []
      modifies this`buffered, this`pending
      ensures Valid() && b != [] && old(Unread()) == b + Unread()
    {
      if buffered == [] {
        Fill();
      }
      var k: nat :| 1 <= k <= |buffered|;
      b := buffered[..k];
      assert Unread() == b + (buffered[k..] + pending);
      buffered := buffered[k..];
    }
  }

  // --- Spelled bytes ----------------------------------------------------------------

  // The bytes of an ASCII text.
  function Ascii(text: string): (b: bytes)
    requires forall i :: 0 <= i < |text| ==> text[i] < '\U{0080}'
    ensures |b| == |text|
  {
    seq(|text|, i requires 0 <= i < |text| => text[i] as int)
  }

  // b begins with the characters of an ASCII text.
  predicate Begins(b: bytes, text: string) {
    |text| <= |b| && forall i :: 0 <= i < |text| ==> b[i] == text[i] as int
  }

  lemma AsciiBegins(text: string)
    requires forall i :: 0 <= i < |text| ==> text[i] < '\U{0080}'
    ensures Begins(Ascii(text), text)
  {
  }

  // --- peekHostname -----------------------------------------------------------------

  // Calls into libraries: text is Go's conversion of bytes to a string, httpHost
  // is http.ReadRequest followed by taking the host ("" if the header is refused).
  datatype Parsers = Parsers(text: bytes -> string, httpHost: bytes -> string)

  datatype PeekError = StreamError(error: ReadError) | RecordTooLarge | NoServerName
                     | HeaderTooLarge | NoHostHeader | UnknownProtocol

  datatype Peeked = Refused(error: PeekError) | Host(host: string, header: bytes)

  const METHODS: seq<bytes> := [
    [0x47, 0x45, 0x54, 0x20],  // GET
    [0x50, 0x4f, 0x53, 0x54],  // POST
    [0x48, 0x45, 0x41, 0x44],  // HEAD
    [0x50, 0x55, 0x54, 0x20],  // PUT
    [0x44, 0x45, 0x4c, 0x45],  // DELETE
    [0x43, 0x4f, 0x4e, 0x4e],  // CONNECT
    [0x50, 0x41, 0x54, 0x43],  // PATCH
    [0x4f, 0x50, 0x54, 0x49]]  // OPTIONS

  predicate LooksLikeHTTP(b: bytes) {
    |b| >= 4 && b[..4] in METHODS
  }

  const HEADER_END: bytes := [0x0d, 0x0a, 0x0d, 0x0a]

  predicate EndsHeader(b: bytes) {
    |b| >= 4 && b[|b| - 4..] == HEADER_END
  }

  // The length of the shortest non-empty prefix, of at least n bytes and at most
  // MAX_HEADER, that ends in a blank line.
  function HeaderLength(s: bytes, n: nat): (r: Option<nat>)
    requires 1 <= n
    ensures r.Some? ==> n <= r.value <= |s| && r.value <= MAX_HEADER && EndsHeader(s[..r.value])
    ensures r.Some? ==> forall m :: n <= m < r.value ==> !EndsHeader(s[..m])
    ensures r.None? ==> forall m :: n <= m <= |s| && m <= MAX_HEADER ==> !EndsHeader(s[..m])
    decreases |s| - n
  {
    if n > |s| || n > MAX_HEADER then None
    else if EndsHeader(s[..n]) then Some(n)
    else HeaderLength(s, n + 1)
  }

  function PeekResult(s: bytes, ending: Ending, parsers: Parsers): Peeked {
    var head := if |s| < 5 then s else s[..5];
    if |s| < 5 && ending != EOF then Refused(StreamError(Ended(ending)))
    else if |s| >= 5 && s[0] == 0x16 && s[1] == 0x03 then
      var n := U16(s[3], s[4]);
      if n > MAX_RECORD then Refused(RecordTooLarge)
      else if |s| < 5 + n then Refused(StreamError(Ended(ending)))
      else
        var name := ServerName(s[..5 + n]);
        if name == [] then Refused(NoServerName) else Host(parsers.text(name), [])
    else if LooksLikeHTTP(head) then
      match HeaderLength(s, 1)
      case None =>
        if |s| >= MAX_HEADER then Refused(HeaderTooLarge) else Refused(StreamError(Ended(ending)))
      case Some(n) =>
        var host := parsers.httpHost(s[..n]);
        if host == "" then Refused(NoHostHeader) else Host(host, s[..n])
    else Refused(UnknownProtocol)
  }

  // HeaderLength one byte further on, or past the end of the scan.
  lemma HeaderStep(s: bytes, n: nat)
    requires n >= 1
    ensures HeaderLength(s, n) ==
      if n > |s| || n > MAX_HEADER then None
      else if EndsHeader(s[..n]) then Some(n)
      else HeaderLength(s, n + 1)
  {
    hide EndsHeader;
  }

  lemma ByteTaken(s: bytes, header: bytes, b: byte, rest: bytes)
    requires s == header + rest && rest != [] && b == rest[0]
    ensures
      var n := |header| + 1;
      s == header + [b] + rest[1..] && s[..n] == header + [b] && s[n..] == rest[1..]
  {
    assert rest == [b] + rest[1..];
  }

  // The header loop of peekHostname: one byte at a time up to the blank line, so
  // that nothing after it is consumed.
  method ReadHeader(r: BufReader) returns (header: bytes, err: Option<PeekError>)
    requires r.Valid()
    modifies r`buffered, r`pending
    ensures r.Valid()
    ensures
      var s := old(r.Unread());
      match HeaderLength(s, 1)
      case Some(n) => err == None && header == s[..n] && r.Unread() == s[n..]
      case None => err == Some(if |s| >= MAX_HEADER then HeaderTooLarge else StreamError(Ended(r.ending)))
  {
    hide HeaderLength, EndsHeader;
    ghost var s := r.Unread();
    header := [];
    while |header| < MAX_HEADER
      invariant r.Valid()
      invariant |header| <= MAX_HEADER && s == header + r.Unread()
      invariant HeaderLength(s, 1) == HeaderLength(s, |header| + 1)
      decreases MAX_HEADER - |header|
    {
      ghost var rest := r.Unread();
      HeaderStep(s, |header| + 1);
      var b, readErr := r.ReadByte();
      if readErr.Some? {
        return header, Some(StreamError(readErr.value));
      }
      ByteTaken(s, header, b, rest);
      header := header + [b];
      if EndsHeader(header) {
        return header, None;
      }
    }
    HeaderStep(s, |header| + 1);
    return header, Some(HeaderTooLarge);
  }

  method PeekHostname(r: BufReader, parsers: Parsers) returns (p: Peeked)
    requires r.Valid()
    modifies r
    ensures r.Valid()
    ensures p == PeekResult(old(r.Unread()), r.ending, parsers)
    ensures p.Host? ==> old(r.Unread()) == p.header + r.Unread()
    ensures r.furthestPeek <= if old(r.furthestPeek) > 16389 then old(r.furthestPeek) else 16389
    ensures p != Refused(StreamError(BufferFull))
  {
    hide ServerName, LooksLikeHTTP, EndsHeader, HeaderLength;
    ghost var s := r.Unread();
    var peek, err := r.Peek(5);
    if err.Some? && err.value != Ended(EOF) {
      return Refused(StreamError(err.value));
    }
    if |peek| >= 5 && peek[0] == 0x16 && peek[1] == 0x03 {
      var recordLen := U16(peek[3], peek[4]);
      if recordLen > MAX_RECORD {
        return Refused(RecordTooLarge);
      }
      var full;
      full, err := r.Peek(5 + recordLen);
      if err.Some? {
        return Refused(StreamError(err.value));
      }
      var name := ParseSNI(full);
      if name == [] {
        return Refused(NoServerName);
      }
      assert s == [] + r.Unread();
      return Host(parsers.text(name), []);
    }
    if LooksLikeHTTP(peek) {
      var header, headerErr := ReadHeader(r);
      if headerErr.Some? {
        return Refused(headerErr.value);
      }
      var host := parsers.httpHost(header);
      if host == "" {
        return Refused(NoHostHeader);
      }
      return Host(host, header);
    }
    return Refused(UnknownProtocol);
  }

  // What is consumed: nothing on TLS, exactly the shortest prefix ending in a
  // blank line on HTTP.
  lemma PeekConsumes(s: bytes, ending: Ending, parsers: Parsers)
    requires PeekResult(s, ending, parsers).Host?
    ensures
      var header := PeekResult(s, ending, parsers).header;
      && header <= s && |header| <= MAX_HEADER
      && (header == [] <==> |s| >= 5 && s[0] == 0x16 && s[1] == 0x03)
      && (header != [] ==> EndsHeader(header) && forall m :: 0 <= m < |header| ==> !EndsHeader(s[..m]))
  {
    hide ServerName, LooksLikeHTTP, HeaderLength, EndsHeader;
    assert !EndsHeader(s[..0]) by { ShortHeader([]); }
    if |s| >= 5 {
      NotBoth(s[..5]);
    }
  }

  lemma ShortHeader(b: bytes)
    requires |b| < 4
    ensures !EndsHeader(b)
  {
  }

  lemma NotBoth(b: bytes)
    requires |b| >= 4
    ensures !(b[0] == 0x16 && LooksLikeHTTP(b))
  {
  }

  // --- Exactly which streams give a host -------------------------------------------------

  predicate BlankLineEnds(b: bytes) {
    |b| >= 4 && Begins(b[|b| - 4..], "\r\n\r\n")
  }

  predicate BeginsWithMethod(b: bytes) {
    || Begins(b, "GET ") || Begins(b, "POST") || Begins(b, "HEAD") || Begins(b, "PUT ")
    || Begins(b, "DELE") || Begins(b, "CONN") || Begins(b, "PATC") || Begins(b, "OPTI")
  }

  // A header up to its first blank line.
  ghost predicate IsHttpHeader(header: bytes) {
    && BeginsWithMethod(header) && |header| <= 16384 && BlankLineEnds(header)
    && forall n :: 0 <= n < |header| ==> !BlankLineEnds(header[..n])
  }

  // One handshake record of TLS 1.x: type 22, version 3.x, and the length of the rest
  // in two bytes, the high one first (section 5.1 of RFC 8446).
  predicate IsRecord(e: bytes) {
    5 <= |e| <= 16389 && e[0] == 22 && e[1] == 3 && e[3] as int * 256 + e[4] as int == |e| - 5
  }

  lemma MethodsSpelled(b: bytes)
    ensures BeginsWithMethod(b) <==> LooksLikeHTTP(b)
  {
    if |b| >= 4 {
      FourBytes(b);
      FourSpelled(b, "GET ");
      FourSpelled(b, "POST");
      FourSpelled(b, "HEAD");
      FourSpelled(b, "PUT ");
      FourSpelled(b, "DELE");
      FourSpelled(b, "CONN");
      FourSpelled(b, "PATC");
      FourSpelled(b, "OPTI");
    }
  }

  lemma FourBytes(b: bytes)
    requires |b| >= 4
    ensures b[..4] == [b[0], b[1], b[2], b[3]]
  {
  }

  lemma FourSpelled(b: bytes, text: string)
    requires |b| >= 4 && |text| == 4
    ensures Begins(b, text) <==>
      b[0] == text[0] as int && b[1] == text[1] as int && b[2] == text[2] as int && b[3] == text[3] as int
  {
  }

  lemma BlankLineSpelled(b: bytes)
    ensures BlankLineEnds(b) <==> EndsHeader(b)
  {
    if |b| >= 4 {
      FourSpelled(b[|b| - 4..], "\r\n\r\n");
    }
  }

  // A header begins with a letter, so it is no record, and is longer than a peek.
  lemma HeaderBegins(header: bytes)
    requires IsHttpHeader(header)
    ensures |header| >= 5 && header[0] != 22
  {
    hide BeginsWithMethod;
    MethodBegins(header);
  }

  lemma MethodBegins(b: bytes)
    requires BeginsWithMethod(b)
    ensures |b| >= 4 && 'A' as int <= b[0] <= 'Z' as int
  {
  }

  lemma HeaderIs(s: bytes, header: bytes)
    ensures header <= s && IsHttpHeader(header) <==>
      BeginsWithMethod(s) && HeaderLength(s, 1) == Some(|header|) && header == s[..|header|]
  {
    hide HeaderLength, BlankLineEnds, EndsHeader, BeginsWithMethod;
    if header <= s && IsHttpHeader(header) {
      HeaderFound(s, header);
    }
    if HeaderLength(s, 1) == Some(|header|) && header == s[..|header|] && BeginsWithMethod(s) {
      FoundHeader(s, header);
    }
  }

  lemma HeaderFound(s: bytes, header: bytes)
    requires header <= s && IsHttpHeader(header)
    ensures BeginsWithMethod(s) && HeaderLength(s, 1) == Some(|header|) && header == s[..|header|]
  {
    hide HeaderLength, BlankLineEnds, EndsHeader, BeginsWithMethod;
    var k := |header|;
    assert s[..k] == header;
    BlankLineSpelled(header);
    LongHeader(header);
    MethodOfPrefix(s, header);
    var n := HeaderLength(s, 1);
    if n.Some? && n.value < k {
      assert s[..n.value] == header[..n.value];
      BlankLineSpelled(header[..n.value]);
    }
  }

  lemma FoundHeader(s: bytes, header: bytes)
    requires BeginsWithMethod(s) && HeaderLength(s, 1) == Some(|header|) && header == s[..|header|]
    ensures IsHttpHeader(header)
  {
    hide HeaderLength, BlankLineEnds, EndsHeader, BeginsWithMethod;
    BlankLineSpelled(header);
    LongHeader(header);
    MethodOfPrefix(s, header);
    forall n | 0 <= n < |header| ensures !BlankLineEnds(header[..n]) {
      assert header[..n] == s[..n];
      BlankLineSpelled(header[..n]);
      if n == 0 {
        ShortHeader(header[..n]);
      }
    }
  }

  lemma LongHeader(header: bytes)
    ensures EndsHeader(header) ==> |header| >= 4
  {
  }

  lemma MethodOfPrefix(s: bytes, header: bytes)
    requires header <= s && |header| >= 4
    ensures BeginsWithMethod(header) <==> BeginsWithMethod(s)
  {
    MethodsSpelled(header);
    MethodsSpelled(s);
    assert header[..4] == s[..4];
  }

  // The stream begins with a record holding a hello that announces `name`.
  ghost predicate AnnouncesFirst(s: bytes, name: bytes) {
    name != [] && exists h: Hello :: Announces(h, name) && IsRecord(h.Encode()) && h.Encode() <= s
  }

  // The record at the start of the stream, whatever follows it.
  lemma RecordPeeked(s: bytes, ending: Ending, parsers: Parsers)
    requires |s| >= 5 && s[0] == 22 && s[1] == 3
    ensures
      var n := s[3] as int * 256 + s[4] as int;
      PeekResult(s, ending, parsers) ==
        if n > 16384 then Refused(RecordTooLarge)
        else if |s| < 5 + n then Refused(StreamError(Ended(ending)))
        else if ServerName(s[..5 + n]) == [] then Refused(NoServerName)
        else Host(parsers.text(ServerName(s[..5 + n])), [])
  {
    hide ServerName, LooksLikeHTTP, HeaderLength;
  }

  lemma AnnouncedExactly(s: bytes, name: bytes)
    requires name != []
    ensures AnnouncesFirst(s, name) <==>
      && |s| >= 5 && s[0] == 22 && s[1] == 3
      && var n := s[3] as int * 256 + s[4] as int;
         n <= 16384 && 5 + n <= |s| && ServerName(s[..5 + n]) == name
  {
    hide ServerName, EndsInName, Hello.Encode, Hello.Valid;
    if h: Hello :| Announces(h, name) && IsRecord(h.Encode()) && h.Encode() <= s {
      var e := h.Encode();
      ServerNameExactly(e, name);
      assert e == s[..|e|] && e[3] == s[3] && e[4] == s[4];
    }
    if |s| >= 5 {
      var n := s[3] as int * 256 + s[4] as int;
      if s[0] == 22 && s[1] == 3 && n <= 16384 && 5 + n <= |s| && ServerName(s[..5 + n]) == name {
        var e := s[..5 + n];
        ServerNameExactly(e, name);
        var h: Hello :| Announces(h, name) && h.Encode() == e;
        assert IsRecord(h.Encode()) && h.Encode() <= s;
      }
    }
  }

  lemma HttpPeeked(s: bytes, ending: Ending, parsers: Parsers)
    requires !(|s| >= 5 && s[0] == 22 && s[1] == 3)
    ensures PeekResult(s, ending, parsers).Host? ==> BeginsWithMethod(s) && HeaderLength(s, 1).Some?
    ensures BeginsWithMethod(s) && HeaderLength(s, 1).Some? && HeaderLength(s, 1).value >= 5 ==>
      var header := s[..HeaderLength(s, 1).value];
      PeekResult(s, ending, parsers) ==
        if parsers.httpHost(header) == "" then Refused(NoHostHeader) else Host(parsers.httpHost(header), header)
  {
    hide ServerName, LooksLikeHTTP, HeaderLength, BeginsWithMethod, EndsHeader;
    MethodsSpelled(if |s| < 5 then s else s[..5]);
    if |s| >= 5 {
      MethodOfPrefix(s, s[..5]);
    }
  }

  lemma TlsExactly(s: bytes, ending: Ending, parsers: Parsers, host: string, header: bytes)
    requires |s| >= 5 && s[0] == 22 && s[1] == 3
    ensures PeekResult(s, ending, parsers) == Host(host, header) <==>
      header == [] && exists name :: AnnouncesFirst(s, name) && host == parsers.text(name)
  {
    hide ServerName, PeekResult, AnnouncesFirst;
    RecordPeeked(s, ending, parsers);
    if PeekResult(s, ending, parsers).Host? {
      AnnouncedExactly(s, ServerName(s[..5 + (s[3] as int * 256 + s[4] as int)]));
    }
    if name :| AnnouncesFirst(s, name) && host == parsers.text(name) {
      NamedOnly(s, name);
      AnnouncedExactly(s, name);
    }
  }

  lemma NamedOnly(s: bytes, name: bytes)
    requires AnnouncesFirst(s, name)
    ensures name != [] && |s| >= 5 && s[0] == 22 && s[1] == 3
  {
    hide Announces, Hello.Encode;
    assert name != [];
    AnnouncedExactly(s, name);
  }

  lemma HttpExactly(s: bytes, ending: Ending, parsers: Parsers, host: string, header: bytes)
    requires !(|s| >= 5 && s[0] == 22 && s[1] == 3)
    ensures PeekResult(s, ending, parsers) == Host(host, header) <==>
      header <= s && IsHttpHeader(header) && host == parsers.httpHost(header) && host != ""
  {
    hide PeekResult, HeaderLength, IsHttpHeader, BeginsWithMethod;
    HttpPeeked(s, ending, parsers);
    HeaderIs(s, header);
    if header <= s && IsHttpHeader(header) {
      HeaderBegins(header);
    }
    if PeekResult(s, ending, parsers).Host? {
      var found := s[..HeaderLength(s, 1).value];
      HeaderIs(s, found);
      HeaderBegins(found);
    }
  }

  // peekHostname, exactly: which streams give which host, and what is consumed for
  // it. On TLS nothing is; on HTTP the header up to its blank line.
  lemma PeekedExactly(s: bytes, ending: Ending, parsers: Parsers, host: string, header: bytes)
    ensures PeekResult(s, ending, parsers) == Host(host, header) <==>
      || (header == [] && exists name :: AnnouncesFirst(s, name) && host == parsers.text(name))
      || (header <= s && IsHttpHeader(header) && host == parsers.httpHost(header) && host != "")
  {
    hide PeekResult, IsHttpHeader, AnnouncesFirst;
    if header <= s && IsHttpHeader(header) {
      HeaderBegins(header);
    }
    if name :| AnnouncesFirst(s, name) {
      NamedOnly(s, name);
    }
    if |s| >= 5 && s[0] == 22 && s[1] == 3 {
      TlsExactly(s, ending, parsers, host, header);
    } else {
      HttpExactly(s, ending, parsers, host, header);
    }
  }
}
