// The running sidecar: any number of connections interleaved with each other
// and with policy reloads. Each event is one atomic access to shared state (the
// policy pointer or a counter) together with the local work before it.
module Machine {
  import opened Text
  import opened Authority
  import opened Destinations
  import opened Policies
  import opened Decisions
  import opened Authorization
  import opened ClientHello
  import opened Stream
  import opened Forward
  import opened Dial

  // The counter a connection ends up in.
  datatype Outcome = Denied | Allowed | UpstreamError

  // Where handleConn stands.
  datatype Pc =
    | Reading            // accepted; nothing decided
    | Deciding           // destination known, policy snapshot loaded
    | Refusing           // refused; not yet counted
    | Resolving          // allowed; about to resolve
    | Dialling           // answers vetted
    | Opened             // upstream open; nothing counted
    | Audited            // audit counter incremented, allowed counter not yet
    | Splicing           // allowed counter incremented; forwarding
    | Closed(outcome: Outcome)

  // One direction of a splice: bytes not yet read from one side, bytes read but
  // not yet written, and bytes written to the other side.
  datatype Pipe = Pipe(unread: bytes, outbox: bytes, sent: bytes)

  datatype Conn = Conn(
    stream: bytes,                // all the client will ever send
    ending: Ending,
    remote: string,               // the client's address and port
    pc: Pc,
    header: bytes,                // consumed by peekHostname
    host: string,
    port: string,
    snapshot: nat,                // which installed policy was loaded
    reply: Option<Reply>,         // what the resolver answered, if it was asked
    decision: Option<Decision>,
    lookups: seq<string>,         // the names the resolver was asked for
    lookup: Option<Lookup>,       // what it answered
    attempts: seq<Attempt>,
    upstream: bytes,              // all the destination will ever send
    forth: Pipe,
    back: Pipe)

  datatype Counters = Counters(allowed: nat, denied: nat, auditOnly: nat, upstreamError: nat, reloads: nat)

  // history lists the installed policies; the pointer holds the last one.
  datatype State = State(conns: seq<Conn>, history: seq<PolicyValue>, reloading: bool, counters: Counters)

  datatype Event =
    | Accept(stream: bytes, ending: Ending, remote: string)
    | Reject(id: nat)
    | Load(id: nat)
    | Decide(id: nat, reply: Option<Reply>)
    | Refuse(id: nat)
    | Resolve(id: nat, found: Lookup)
    | TryDial(id: nat, error: Option<int>, upstream: bytes)
    | CountAudit(id: nat)
    | CountAllowed(id: nat)
    | Take(id: nat, answering: bool, n: nat)
    | Write(id: nat, answering: bool, n: nat)
    | Close(id: nat)
    | Reload(decoded: Option<PolicyValue>)
    | CountReload

  const IDLE := Pipe([], [], [])

  function NewConn(stream: bytes, ending: Ending, remote: string): Conn {
    Conn(stream, ending, remote, Reading, [], "", "", 0, None, None, [], None, [], [], IDLE, IDLE)
  }

  // The destination of a connection: its peeked host, made canonical with the
  // default port of its protocol.
  function DefaultPort(header: bytes): string {
    if header != [] && !IsConnect(header) then "80" else "443"
  }

  function Located(stream: bytes, ending: Ending, parsers: Parsers): Target {
    match PeekResult(stream, ending, parsers)
    case Refused(_) => Bad(InvalidHostname)
    case Host(host, header) => Destination(host, DefaultPort(header))
  }

  // The authority a stream asks for, and the port if it gives none: the name of a
  // hello and 443; the host of a header, and 443 for CONNECT, 80 otherwise.
  ghost predicate Asks(stream: bytes, parsers: Parsers, authority: string, defaultPort: string) {
    || (defaultPort == "443" && exists name :: AnnouncesFirst(stream, name) && authority == parsers.text(name))
    || (exists header ::
          && header <= stream && IsHttpHeader(header) && authority == parsers.httpHost(header) && authority != ""
          && defaultPort == if Begins(header, "CONNECT ") then "443" else "80")
  }

  // The stream asks for an authority that is a way, w, to write host and port.
  ghost predicate AsksFor(stream: bytes, parsers: Parsers, w: Written, host: string, port: string) {
    exists authority, defaultPort ::
      && Asks(stream, parsers, authority, defaultPort)
      && w.Text() == ToLower(authority) && Names(w, defaultPort, host, port)
  }

  // From the first byte to host and port, exactly: a stream has a destination if and
  // only if it asks for it.
  lemma LocatedExactly(stream: bytes, ending: Ending, parsers: Parsers, host: string, port: string)
    ensures Located(stream, ending, parsers) == Target(host, port) <==>
      exists w: Written :: AsksFor(stream, parsers, w, host, port)
  {
    hide Destination, PeekResult, Asks, Names, ToLower, Written.Text;
    if Located(stream, ending, parsers) == Target(host, port) {
      var p := PeekResult(stream, ending, parsers);
      AsksPeeked(stream, ending, parsers, p.host, p.header);
      DestinationExactly(p.host, DefaultPort(p.header), host, port);
      var w: Written :| w.Text() == ToLower(p.host) && Names(w, DefaultPort(p.header), host, port);
      assert AsksFor(stream, parsers, w, host, port);
    }
    if w: Written :| AsksFor(stream, parsers, w, host, port) {
      var authority, defaultPort :| Asks(stream, parsers, authority, defaultPort)
        && w.Text() == ToLower(authority) && Names(w, defaultPort, host, port);
      var header := PeekedAsks(stream, ending, parsers, authority, defaultPort);
      DestinationExactly(authority, defaultPort, host, port);
    }
  }

  lemma AsksPeeked(stream: bytes, ending: Ending, parsers: Parsers, host: string, header: bytes)
    requires PeekResult(stream, ending, parsers) == Host(host, header)
    ensures Asks(stream, parsers, host, DefaultPort(header))
  {
    hide PeekResult, AnnouncesFirst, IsHttpHeader, IsConnect, Begins;
    PeekedExactly(stream, ending, parsers, host, header);
    ConnectSpelled(header);
    if IsHttpHeader(header) {
      HeaderBegins(header);
    }
  }

  lemma PeekedAsks(stream: bytes, ending: Ending, parsers: Parsers, authority: string, defaultPort: string)
    returns (header: bytes)
    requires Asks(stream, parsers, authority, defaultPort)
    ensures PeekResult(stream, ending, parsers) == Host(authority, header) && DefaultPort(header) == defaultPort
  {
    hide PeekResult, AnnouncesFirst, IsHttpHeader, IsConnect, Begins;
    if defaultPort == "443" && exists name :: AnnouncesFirst(stream, name) && authority == parsers.text(name) {
      header := [];
    } else {
      header :| header <= stream && IsHttpHeader(header) && authority == parsers.httpHost(header) && authority != ""
        && defaultPort == if Begins(header, "CONNECT ") then "443" else "80";
      HeaderBegins(header);
      ConnectSpelled(header);
    }
    PeekedExactly(stream, ending, parsers, authority, header);
  }

  // Another acceptable answer is left to try.
  predicate CanTry(c: Conn) {
    && c.lookup.Some? && c.lookup.value.Answers?
    && |c.attempts| < |c.lookup.value.list|
    && c.lookup.value.list[|c.attempts|].ip.Some?
  }

  function PipeOf(c: Conn, answering: bool): Pipe {
    if answering then c.back else c.forth
  }

  function WithPipe(c: Conn, answering: bool, p: Pipe): Conn {
    if answering then c.(back := p) else c.(forth := p)
  }

  ghost predicate Enabled(parsers: Parsers, s: State, e: Event) {
    match e
    case Accept(_, _, _) => true
    case Reject(id) =>
      && id < |s.conns| && s.conns[id].pc == Reading
      && Located(s.conns[id].stream, s.conns[id].ending, parsers).Bad?
    case Load(id) =>
      && id < |s.conns| && s.conns[id].pc == Reading && s.history != []
      && Located(s.conns[id].stream, s.conns[id].ending, parsers).Target?
    case Decide(id, _) => id < |s.conns| && s.conns[id].pc == Deciding && s.conns[id].snapshot < |s.history|
    case Refuse(id) => id < |s.conns| && s.conns[id].pc == Refusing
    case Resolve(id, _) => id < |s.conns| && s.conns[id].pc == Resolving
    case TryDial(id, _, _) => id < |s.conns| && s.conns[id].pc == Dialling && CanTry(s.conns[id])
    case CountAudit(id) => id < |s.conns| && s.conns[id].pc == Opened && WillAudit(s.conns[id])
    case CountAllowed(id) =>
      && id < |s.conns|
      && (s.conns[id].pc == Audited || (s.conns[id].pc == Opened && !WillAudit(s.conns[id])))
      && |s.conns[id].header| <= |s.conns[id].stream|
    case Take(id, answering, n) =>
      && id < |s.conns| && s.conns[id].pc == Splicing
      && PipeOf(s.conns[id], answering).outbox == [] && n <= |PipeOf(s.conns[id], answering).unread|
    case Write(id, answering, n) =>
      id < |s.conns| && s.conns[id].pc == Splicing && n <= |PipeOf(s.conns[id], answering).outbox|
    case Close(id) => id < |s.conns| && s.conns[id].pc == Splicing
    case Reload(_) => !s.reloading
    case CountReload => s.reloading
  }

  predicate WillAudit(c: Conn) {
    c.decision.Some? && c.decision.value.audit
  }

  function Put(s: State, id: nat, c: Conn): State
    requires id < |s.conns|
  {
    s.(conns := s.conns[id := c])
  }

  function Finish(s: State, id: nat, c: Conn, outcome: Outcome): State
    requires id < |s.conns|
  {
    var n := s.counters;
    var n' := match outcome
      case Denied => n.(denied := n.denied + 1)
      case Allowed => n.(allowed := n.allowed + 1)
      case UpstreamError => n.(upstreamError := n.upstreamError + 1);
    Put(s, id, c).(counters := n')
  }

  function LoadConn(c: Conn, parsers: Parsers, snapshot: nat): Conn
    requires Located(c.stream, c.ending, parsers).Target?
  {
    var t := Located(c.stream, c.ending, parsers);
    c.(pc := Deciding, header := PeekResult(c.stream, c.ending, parsers).header,
       host := t.host, port := t.port, snapshot := snapshot)
  }

  ghost function DecideConn(c: Conn, p: PolicyValue, reply: Option<Reply>): Conn {
    var d := Verdict(p, PeerOf(c.remote), reply, c.host);
    c.(reply := reply, decision := Some(d), pc := if d.allowed then Resolving else Refusing)
  }

  // The name looked up is the host that was decided.
  function Looked(c: Conn, found: Lookup): Conn {
    c.(lookups := c.lookups + [c.host], lookup := Some(found))
  }

  function ResolveConn(s: State, id: nat, c: Conn, found: Lookup): State
    requires id < |s.conns|
  {
    var c' := Looked(c, found);
    if found.LookupFailed? || found.list == [] then Finish(s, id, c'.(pc := Closed(UpstreamError)), UpstreamError)
    else if !AllAcceptable(found.list) then Finish(s, id, c'.(pc := Closed(Denied)), Denied)
    else Put(s, id, c'.(pc := Dialling))
  }

  function Tried(c: Conn, error: Option<int>): Conn
    requires CanTry(c)
  {
    c.(attempts := c.attempts + [Attempt(TargetOf(c.lookup.value.list[|c.attempts|], c.port), error)])
  }

  function TryDialConn(s: State, id: nat, c: Conn, error: Option<int>, upstream: bytes): State
    requires id < |s.conns| && CanTry(c)
  {
    var c' := Tried(c, error);
    if error.None? then Put(s, id, c'.(pc := Opened, upstream := upstream))
    else if |c'.attempts| < |c.lookup.value.list| then Put(s, id, c')
    else Finish(s, id, c'.(pc := Closed(UpstreamError)), UpstreamError)
  }

  // For CONNECT the header is answered instead of forwarded.
  function StartSplice(c: Conn): Conn
    requires |c.header| <= |c.stream|
  {
    c.(pc := Splicing,
       forth := Pipe(c.stream[|c.header|..], Relayed(c.header), []),
       back := Pipe(c.upstream, Greeting(c.header), []))
  }

  function TakeFrom(p: Pipe, n: nat): Pipe
    requires n <= |p.unread|
  {
    p.(outbox := p.unread[..n], unread := p.unread[n..])
  }

  function WriteTo(p: Pipe, n: nat): Pipe
    requires n <= |p.outbox|
  {
    p.(sent := p.sent + p.outbox[..n], outbox := p.outbox[n..])
  }

  function ReloadPolicy(s: State, decoded: Option<PolicyValue>): State {
    match Loaded(decoded)
    case None => s
    case Some(p) => s.(history := s.history + [p], reloading := true)
  }

  ghost function Apply(parsers: Parsers, s: State, e: Event): State
    requires Enabled(parsers, s, e)
  {
    match e
    case Accept(stream, ending, remote) => s.(conns := s.conns + [NewConn(stream, ending, remote)])
    case Reject(id) => Finish(s, id, s.conns[id].(pc := Closed(Denied)), Denied)
    case Load(id) => Put(s, id, LoadConn(s.conns[id], parsers, |s.history| - 1))
    case Decide(id, reply) => Put(s, id, DecideConn(s.conns[id], s.history[s.conns[id].snapshot], reply))
    case Refuse(id) => Finish(s, id, s.conns[id].(pc := Closed(Denied)), Denied)
    case Resolve(id, found) => ResolveConn(s, id, s.conns[id], found)
    case TryDial(id, error, upstream) => TryDialConn(s, id, s.conns[id], error, upstream)
    case CountAudit(id) =>
      Put(s, id, s.conns[id].(pc := Audited)).(counters := s.counters.(auditOnly := s.counters.auditOnly + 1))
    case CountAllowed(id) => Finish(s, id, StartSplice(s.conns[id]), Allowed)
    case Take(id, answering, n) =>
      var c := s.conns[id];
      Put(s, id, WithPipe(c, answering, TakeFrom(PipeOf(c, answering), n)))
    case Write(id, answering, n) =>
      var c := s.conns[id];
      Put(s, id, WithPipe(c, answering, WriteTo(PipeOf(c, answering), n)))
    case Close(id) => Put(s, id, s.conns[id].(pc := Closed(Allowed)))
    case Reload(decoded) => ReloadPolicy(s, decoded)
    case CountReload => s.(reloading := false, counters := s.counters.(reloads := s.counters.reloads + 1))
  }

  ghost predicate Init(s: State) {
    && (exists decoded :: Loaded(decoded).Some? && s.history == [Loaded(decoded).value])
    && s.conns == [] && !s.reloading && s.counters == Counters(0, 0, 0, 0, 0)
  }

  ghost predicate Step(parsers: Parsers, s: State, s': State) {
    exists e :: Enabled(parsers, s, e) && s' == Apply(parsers, s, e)
  }

  // A run of the sidecar from start-up.
  ghost predicate IsRun(parsers: Parsers, run: seq<State>) {
    && run != [] && Init(run[0])
    && forall i :: 0 <= i < |run| - 1 ==> Step(parsers, run[i], run[i + 1])
  }

  // --- Counting connections ----------------------------------------------------------

  function Counted(c: Conn): Option<Outcome> {
    match c.pc
    case Closed(outcome) => Some(outcome)
    case Splicing => Some(Allowed)
    case _ => None
  }

  datatype Tag = InCounter(outcome: Outcome) | Undecided | BetweenCounters | AllowedWithAudit

  predicate Has(c: Conn, tag: Tag) {
    match tag
    case InCounter(outcome) => Counted(c) == Some(outcome)
    case Undecided => Counted(c) == None
    case BetweenCounters => c.pc == Audited
    case AllowedWithAudit => Counted(c) == Some(Allowed) && WillAudit(c)
  }

  function Count(conns: seq<Conn>, tag: Tag): nat {
    if conns == [] then 0 else Count(conns[..|conns| - 1], tag) + Bit(Has(conns[|conns| - 1], tag))
  }

  lemma {:induction false} CountPut(conns: seq<Conn>, id: nat, c: Conn, tag: Tag)
    requires id < |conns|
    ensures Count(conns[id := c], tag) == Count(conns, tag) - Bit(Has(conns[id], tag)) + Bit(Has(c, tag))
    ensures Has(conns[id], tag) ==> Count(conns, tag) >= 1
  {
    hide Has;
    var n := |conns| - 1;
    if id < n {
      CountPut(conns[..n], id, c, tag);
      assert conns[id := c][..n] == conns[..n][id := c];
    } else {
      assert conns[id := c][..n] == conns[..n];
    }
  }

  lemma CountAppend(conns: seq<Conn>, c: Conn, tag: Tag)
    ensures Count(conns + [c], tag) == Count(conns, tag) + Bit(Has(c, tag))
  {
    assert (conns + [c])[..|conns|] == conns;
  }

  lemma OneTag(c: Conn)
    ensures Bit(Has(c, InCounter(Denied))) + Bit(Has(c, InCounter(Allowed))) + Bit(Has(c, InCounter(UpstreamError)))
          + Bit(Has(c, Undecided)) == 1
    ensures Has(c, AllowedWithAudit) ==> Has(c, InCounter(Allowed))
  {
    match Counted(c)
    case None =>
    case Some(Denied) =>
    case Some(Allowed) =>
    case Some(UpstreamError) =>
  }

  lemma {:induction false} CountTotals(conns: seq<Conn>)
    ensures |conns| == Count(conns, InCounter(Denied)) + Count(conns, InCounter(Allowed))
                     + Count(conns, InCounter(UpstreamError)) + Count(conns, Undecided)
    ensures Count(conns, AllowedWithAudit) <= Count(conns, InCounter(Allowed))
  {
    if conns != [] {
      hide Has, WillAudit;
      OneTag(conns[|conns| - 1]);
      CountTotals(conns[..|conns| - 1]);
    }
  }

  // --- Invariants ----------------------------------------------------------------------

  // The connection knows its destination and the policy it loaded.
  ghost predicate HasTarget(c: Conn, parsers: Parsers, history: seq<PolicyValue>) {
    && Located(c.stream, c.ending, parsers) == Target(c.host, c.port)
    && PeekResult(c.stream, c.ending, parsers).header == c.header
    && c.snapshot < |history|
  }

  // The decision is the verdict of the loaded snapshot on the canonical host, for
  // the address that connected.
  ghost predicate Decided(c: Conn, parsers: Parsers, history: seq<PolicyValue>) {
    && HasTarget(c, parsers, history)
    && c.decision == Some(Verdict(history[c.snapshot], PeerOf(c.remote), c.reply, c.host))
  }

  ghost predicate Granted(c: Conn, parsers: Parsers, history: seq<PolicyValue>) {
    Decided(c, parsers, history) && c.decision.value.allowed
  }

  predicate PastDecision(pc: Pc) {
    pc in {Resolving, Dialling, Opened, Audited, Splicing, Closed(Allowed), Closed(UpstreamError)}
  }

  predicate Forwarding(pc: Pc) {
    pc in {Splicing, Closed(Allowed)}
  }

  // Where dialling stands: before the lookup nothing was tried; while dialling
  // every attempt has failed; afterwards the outcome is the one DialResolved is
  // specified to have.
  ghost predicate DialOk(c: Conn) {
    match c.lookup
    case None =>
      c.lookups == [] && c.attempts == [] && c.pc in {Reading, Deciding, Refusing, Resolving, Closed(Denied)}
    case Some(found) =>
      c.lookups == [c.host] &&
      match c.pc
      case Dialling =>
        && found.Answers? && AllAcceptable(found.list)
        && |c.attempts| < |found.list|
        && InOrder(c.attempts, found.list, c.port) && AllFailed(c.attempts)
      case Closed(Denied) => DialOutcome(found, c.port, c.attempts, NotConnected(MetadataAddress))
      case Closed(UpstreamError) =>
        exists e :: e != MetadataAddress && DialOutcome(found, c.port, c.attempts, NotConnected(e))
      case _ =>
        && c.pc in {Opened, Audited, Splicing, Closed(Allowed)}
        && exists target :: DialOutcome(found, c.port, c.attempts, Connected(target))
  }

  ghost predicate ConnOk(c: Conn, parsers: Parsers, history: seq<PolicyValue>) {
    && (c.pc == Deciding ==> HasTarget(c, parsers, history))
    && (c.decision.Some? || c.pc == Refusing ==> Decided(c, parsers, history))
    && (PastDecision(c.pc) || c.lookup.Some? ==> Granted(c, parsers, history))
    && (c.pc in {Reading, Deciding} ==> c.decision == None)
    && (c.pc == Audited ==> WillAudit(c))
    && DialOk(c)
    && (if Forwarding(c.pc) then FlowsOk(c) else c.forth == IDLE && c.back == IDLE)
  }

  // Nothing lost, repeated or reordered.
  predicate Flows(p: Pipe, whole: bytes) {
    p.sent + p.outbox + p.unread == whole
  }

  ghost predicate FlowsOk(c: Conn) {
    && c.header <= c.stream
    && Flows(c.forth, Payload(c.stream, c.header))
    && Flows(c.back, Greeting(c.header) + c.upstream)
  }

  ghost predicate HistoryOk(history: seq<PolicyValue>) {
    && history != []
    && forall p :: p in history ==> IsNormalPolicy(p) && 0 <= p.schema <= 2
  }

  ghost predicate CountersOk(s: State) {
    && s.counters.denied == Count(s.conns, InCounter(Denied))
    && s.counters.allowed == Count(s.conns, InCounter(Allowed))
    && s.counters.upstreamError == Count(s.conns, InCounter(UpstreamError))
    && s.counters.auditOnly == Count(s.conns, AllowedWithAudit) + Count(s.conns, BetweenCounters)
    && s.counters.reloads + Bit(s.reloading) == |s.history| - 1
  }

  ghost predicate Inv(parsers: Parsers, s: State) {
    && HistoryOk(s.history)
    && CountersOk(s)
    && forall i :: 0 <= i < |s.conns| ==> ConnOk(s.conns[i], parsers, s.history)
  }

  // --- Every step keeps the invariants --------------------------------------------------

  // The dialling loop: one more attempt, whatever its result.
  lemma TriedOk(c: Conn, error: Option<int>, upstream: bytes)
    requires DialOk(c) && c.pc == Dialling
    ensures CanTry(c)
    ensures
      var c', list := Tried(c, error), c.lookup.value.list;
      && (error.None? ==> DialOk(c'.(pc := Opened, upstream := upstream)))
      && (error.Some? && |c'.attempts| < |list| ==> DialOk(c'))
      && (error.Some? && |c'.attempts| >= |list| ==> DialOk(c'.(pc := Closed(UpstreamError))))
  {
    hide AllAcceptable, TargetOf, InOrder, AllFailed, DialOutcome;
    NextAcceptable(c);
    var list := c.lookup.value.list;
    var last := Attempt(TargetOf(list[|c.attempts|], c.port), error);
    var c' := Tried(c, error);
    assert c'.attempts == c.attempts + [last] && c'.lookup == c.lookup && c'.port == c.port && c'.pc == Dialling;
    hide Tried, CanTry;
    AttemptMade(list, c.port, c.attempts, last);
    if error.None? {
      assert DialOk(c'.(pc := Opened, upstream := upstream));
    } else if |c'.attempts| >= |list| {
      assert DialOk(c'.(pc := Closed(UpstreamError)));
    }
  }

  lemma NextAcceptable(c: Conn)
    requires DialOk(c) && c.pc == Dialling
    ensures CanTry(c) && c.lookup.value.list[|c.attempts|].ip.Some?
  {
  }

  lemma ResolvedOk(c: Conn, found: Lookup)
    requires DialOk(c) && c.pc == Resolving
    ensures
      var c' := Looked(c, found);
      if found.LookupFailed? || found.list == [] then DialOk(c'.(pc := Closed(UpstreamError)))
      else if !AllAcceptable(found.list) then DialOk(c'.(pc := Closed(Denied)))
      else DialOk(c'.(pc := Dialling))
  {
    hide AllAcceptable, TargetOf;
    assert [] + [c.host] == [c.host];
    if found.LookupFailed? {
      assert DialOutcome(found, c.port, [], NotConnected(LookupError));
    } else if found.list == [] {
      assert DialOutcome(found, c.port, [], NotConnected(NoAddresses));
    }
  }

  // The header of a connection with a destination is where its stream begins.
  lemma HeaderLeads(c: Conn, parsers: Parsers, history: seq<PolicyValue>)
    requires HasTarget(c, parsers, history)
    ensures c.header <= c.stream
  {
    hide IsConnect, PeekResult, Destination, EndsHeader;
    PeekConsumes(c.stream, c.ending, parsers);
  }

  lemma StartFlows(c: Conn)
    requires c.header <= c.stream
    ensures FlowsOk(StartSplice(c))
  {
    hide Greeting, Relayed, Payload;
    var rest := c.stream[|c.header|..];
    assert c.stream == c.header + rest;
    PayloadParts(c.header, rest);
    assert [] + Relayed(c.header) + rest == Relayed(c.header) + rest;
    assert [] + Greeting(c.header) + c.upstream == Greeting(c.header) + c.upstream;
  }

  lemma MovedFlows(p: Pipe, whole: bytes, n: nat)
    requires Flows(p, whole)
    ensures p.outbox == [] && n <= |p.unread| ==> Flows(TakeFrom(p, n), whole)
    ensures n <= |p.outbox| ==> Flows(WriteTo(p, n), whole)
  {
    if p.outbox == [] && n <= |p.unread| {
      assert p.sent + [] + p.unread == p.sent + p.unread[..n] + p.unread[n..];
    }
    if n <= |p.outbox| {
      assert p.sent + p.outbox[..n] + p.outbox[n..] == p.sent + p.outbox;
    }
  }

  lemma HistoryGrows(c: Conn, parsers: Parsers, history: seq<PolicyValue>, p: PolicyValue)
    requires ConnOk(c, parsers, history)
    ensures ConnOk(c, parsers, history + [p])
  {
    hide Verdict, FlowsOk, Located, PeekResult, DialOk, PeerOf;
  }

  lemma LoadKeeps(c: Conn, parsers: Parsers, history: seq<PolicyValue>, snapshot: nat)
    requires ConnOk(c, parsers, history) && c.pc == Reading && snapshot < |history|
    requires Located(c.stream, c.ending, parsers).Target?
    ensures ConnOk(LoadConn(c, parsers, snapshot), parsers, history)
  {
    hide Verdict, FlowsOk, PeekResult, Destination, DialOutcome, PeerOf;
  }

  lemma DecideKeeps(c: Conn, parsers: Parsers, history: seq<PolicyValue>, reply: Option<Reply>)
    requires ConnOk(c, parsers, history) && c.pc == Deciding && c.snapshot < |history|
    ensures ConnOk(DecideConn(c, history[c.snapshot], reply), parsers, history)
  {
    hide Verdict, FlowsOk, PeekResult, Destination, DialOutcome, PeerOf;
  }

  // The moves that change little more than the program counter.
  lemma MoveKeeps(c: Conn, parsers: Parsers, history: seq<PolicyValue>)
    requires ConnOk(c, parsers, history)
    ensures c.pc in {Reading, Refusing} ==> ConnOk(c.(pc := Closed(Denied)), parsers, history)
    ensures c.pc == Opened && WillAudit(c) ==> ConnOk(c.(pc := Audited), parsers, history)
    ensures c.pc == Splicing ==> ConnOk(c.(pc := Closed(Allowed)), parsers, history)
  {
    hide Located, PeekResult, Verdict, Payload, DialOutcome, PeerOf;
  }

  lemma ResolveKeeps(c: Conn, parsers: Parsers, history: seq<PolicyValue>, found: Lookup)
    requires ConnOk(c, parsers, history) && c.pc == Resolving
    ensures
      var c' := Looked(c, found);
      if found.LookupFailed? || found.list == [] then ConnOk(c'.(pc := Closed(UpstreamError)), parsers, history)
      else if !AllAcceptable(found.list) then ConnOk(c'.(pc := Closed(Denied)), parsers, history)
      else ConnOk(c'.(pc := Dialling), parsers, history)
  {
    hide Located, PeekResult, Verdict, Payload, DialOk, PeerOf, AllAcceptable;
    ResolvedOk(c, found);
  }

  lemma TryDialKeeps(c: Conn, parsers: Parsers, history: seq<PolicyValue>, error: Option<int>, upstream: bytes)
    requires ConnOk(c, parsers, history) && c.pc == Dialling
    ensures CanTry(c)
    ensures
      var c', list := Tried(c, error), c.lookup.value.list;
      && (error.None? ==> ConnOk(c'.(pc := Opened, upstream := upstream), parsers, history))
      && (error.Some? && |c'.attempts| < |list| ==> ConnOk(c', parsers, history))
      && (error.Some? && |c'.attempts| >= |list| ==> ConnOk(c'.(pc := Closed(UpstreamError)), parsers, history))
  {
    hide Located, PeekResult, Verdict, Payload, DialOk, PeerOf, TargetOf;
    TriedOk(c, error, upstream);
  }

  lemma SpliceKeeps(c: Conn, parsers: Parsers, history: seq<PolicyValue>)
    requires ConnOk(c, parsers, history) && c.pc in {Opened, Audited}
    ensures c.header <= c.stream && ConnOk(StartSplice(c), parsers, history)
  {
    hide Relayed, Greeting, Located, PeekResult, Verdict, FlowsOk, PeerOf, DialOutcome;
    HeaderLeads(c, parsers, history);
    StartFlows(c);
  }

  lemma PassKeeps(c: Conn, parsers: Parsers, history: seq<PolicyValue>, answering: bool, n: nat)
    requires ConnOk(c, parsers, history) && c.pc == Splicing
    ensures
      var p := PipeOf(c, answering);
      && (p.outbox == [] && n <= |p.unread| ==> ConnOk(WithPipe(c, answering, TakeFrom(p, n)), parsers, history))
      && (n <= |p.outbox| ==> ConnOk(WithPipe(c, answering, WriteTo(p, n)), parsers, history))
  {
    hide Located, PeekResult, Verdict, Flows, Payload, Greeting, DialOutcome, PeerOf, TakeFrom, WriteTo;
    MovedFlows(c.forth, Payload(c.stream, c.header), n);
    MovedFlows(c.back, Greeting(c.header) + c.upstream, n);
  }

  ghost predicate ConnsOk(parsers: Parsers, s: State) {
    forall i :: 0 <= i < |s.conns| ==> ConnOk(s.conns[i], parsers, s.history)
  }

  lemma NewConnOk(stream: bytes, ending: Ending, remote: string, parsers: Parsers, history: seq<PolicyValue>)
    ensures ConnOk(NewConn(stream, ending, remote), parsers, history)
  {
  }

  lemma EarlyConns(parsers: Parsers, s: State, e: Event)
    requires Enabled(parsers, s, e) && ConnsOk(parsers, s)
    requires e.Accept? || e.Reject? || e.Load? || e.Decide? || e.Refuse?
    ensures ConnsOk(parsers, Apply(parsers, s, e))
  {
    hide ConnOk, Located, LoadConn, DecideConn, NewConn;
    match e
    case Accept(stream, ending, remote) => NewConnOk(stream, ending, remote, parsers, s.history);
    case Reject(id) => MoveKeeps(s.conns[id], parsers, s.history);
    case Load(id) => LoadKeeps(s.conns[id], parsers, s.history, |s.history| - 1);
    case Decide(id, reply) => DecideKeeps(s.conns[id], parsers, s.history, reply);
    case Refuse(id) => MoveKeeps(s.conns[id], parsers, s.history);
  }

  lemma DialConns(parsers: Parsers, s: State, e: Event)
    requires Enabled(parsers, s, e) && ConnsOk(parsers, s)
    requires e.Resolve? || e.TryDial?
    ensures ConnsOk(parsers, Apply(parsers, s, e))
  {
    hide ConnOk, AllAcceptable, Tried, CanTry;
    match e
    case Resolve(id, found) => ResolveKeeps(s.conns[id], parsers, s.history, found);
    case TryDial(id, error, upstream) => TryDialKeeps(s.conns[id], parsers, s.history, error, upstream);
  }

  lemma LateConns(parsers: Parsers, s: State, e: Event)
    requires Enabled(parsers, s, e) && ConnsOk(parsers, s)
    requires e.CountAudit? || e.CountAllowed? || e.Take? || e.Write? || e.Close?
    ensures ConnsOk(parsers, Apply(parsers, s, e))
  {
    hide ConnOk, StartSplice, WillAudit, PipeOf, WithPipe, TakeFrom, WriteTo;
    match e
    case CountAudit(id) => MoveKeeps(s.conns[id], parsers, s.history);
    case CountAllowed(id) => SpliceKeeps(s.conns[id], parsers, s.history);
    case Take(id, answering, n) => PassKeeps(s.conns[id], parsers, s.history, answering, n);
    case Write(id, answering, n) => PassKeeps(s.conns[id], parsers, s.history, answering, n);
    case Close(id) => MoveKeeps(s.conns[id], parsers, s.history);
  }

  lemma ReloadConns(parsers: Parsers, s: State, decoded: Option<PolicyValue>)
    requires ConnsOk(parsers, s)
    ensures ConnsOk(parsers, ReloadPolicy(s, decoded))
  {
    hide ConnOk, Loaded;
    if Loaded(decoded).Some? {
      forall i | 0 <= i < |s.conns| ensures ConnOk(s.conns[i], parsers, s.history + [Loaded(decoded).value]) {
        HistoryGrows(s.conns[i], parsers, s.history, Loaded(decoded).value);
      }
    }
  }

  lemma StepKeepsConns(parsers: Parsers, s: State, e: Event)
    requires Enabled(parsers, s, e) && ConnsOk(parsers, s)
    ensures ConnsOk(parsers, Apply(parsers, s, e))
  {
    hide ConnOk, Located, LoadConn, DecideConn, NewConn, ReloadPolicy, ResolveConn, TryDialConn, StartSplice, CanTry,
      WillAudit, PipeOf, WithPipe, TakeFrom, WriteTo, Finish, Put;
    match e
    case Resolve(_, _) => DialConns(parsers, s, e);
    case TryDial(_, _, _) => DialConns(parsers, s, e);
    case CountAudit(_) => LateConns(parsers, s, e);
    case CountAllowed(_) => LateConns(parsers, s, e);
    case Take(_, _, _) => LateConns(parsers, s, e);
    case Write(_, _, _) => LateConns(parsers, s, e);
    case Close(_) => LateConns(parsers, s, e);
    case Reload(decoded) => ReloadConns(parsers, s, decoded);
    case CountReload =>
    case _ => EarlyConns(parsers, s, e);
  }

  lemma StepKeepsHistory(parsers: Parsers, s: State, e: Event)
    requires Enabled(parsers, s, e) && HistoryOk(s.history)
    ensures HistoryOk(Apply(parsers, s, e).history)
    ensures s.history <= Apply(parsers, s, e).history
  {
    hide IsNormalPolicy, Loaded, Located, LoadConn, DecideConn, StartSplice, AllAcceptable, WillAudit, Tried, CanTry,
      PipeOf, WithPipe, TakeFrom, WriteTo, NewConn;
    if e.Reload? && Loaded(e.decoded).Some? {
      LoadedIsNormal(e.decoded);
    }
  }

  // The tallies after one connection is replaced.
  lemma TalliesPut(conns: seq<Conn>, id: nat, c: Conn)
    requires id < |conns|
    ensures forall tag :: Count(conns[id := c], tag) == Count(conns, tag) - Bit(Has(conns[id], tag)) + Bit(Has(c, tag))
  {
    forall tag ensures Count(conns[id := c], tag) == Count(conns, tag) - Bit(Has(conns[id], tag)) + Bit(Has(c, tag)) {
      CountPut(conns, id, c, tag);
    }
  }

  // Replacing a connection and counting it once, as Finish does.
  lemma FinishCounts(s: State, id: nat, c: Conn, outcome: Outcome)
    requires CountersOk(s) && id < |s.conns|
    requires Counted(s.conns[id]) == None && Counted(c) == Some(outcome)
    requires outcome == Allowed ==> (Has(s.conns[id], BetweenCounters) <==> WillAudit(c))
    requires outcome != Allowed ==> !Has(s.conns[id], BetweenCounters)
    ensures CountersOk(Finish(s, id, c, outcome))
  {
    hide Count;
    TalliesPut(s.conns, id, c);
  }

  // Replacing a connection without counting it.
  lemma PutCounts(s: State, id: nat, c: Conn)
    requires CountersOk(s) && id < |s.conns|
    requires Counted(s.conns[id]) == Counted(c)
    requires Counted(c).Some? ==> WillAudit(s.conns[id]) == WillAudit(c)
    requires Has(s.conns[id], BetweenCounters) == Has(c, BetweenCounters)
    ensures CountersOk(Put(s, id, c))
  {
    hide Count;
    TalliesPut(s.conns, id, c);
  }

  lemma AuditCounts(s: State, id: nat)
    requires CountersOk(s) && id < |s.conns| && s.conns[id].pc == Opened
    ensures CountersOk(
      Put(s, id, s.conns[id].(pc := Audited)).(counters := s.counters.(auditOnly := s.counters.auditOnly + 1)))
  {
    hide Count;
    TalliesPut(s.conns, id, s.conns[id].(pc := Audited));
  }

  lemma AcceptCounts(s: State, c: Conn)
    requires CountersOk(s) && c.pc == Reading
    ensures CountersOk(s.(conns := s.conns + [c]))
  {
    CountAppend(s.conns, c, InCounter(Denied));
    CountAppend(s.conns, c, InCounter(Allowed));
    CountAppend(s.conns, c, InCounter(UpstreamError));
    CountAppend(s.conns, c, AllowedWithAudit);
    CountAppend(s.conns, c, BetweenCounters);
  }

  lemma EarlyCounts(parsers: Parsers, s: State, e: Event)
    requires Enabled(parsers, s, e) && CountersOk(s) && s.history != []
    requires e.Accept? || e.Reject? || e.Load? || e.Decide? || e.Refuse?
    ensures CountersOk(Apply(parsers, s, e))
  {
    hide CountersOk, Located, Loaded, Count, Verdict, PeekResult, PeerOf;
    match e
    case Accept(stream, ending, remote) => AcceptCounts(s, NewConn(stream, ending, remote));
    case Reject(id) => FinishCounts(s, id, s.conns[id].(pc := Closed(Denied)), Denied);
    case Load(id) => PutCounts(s, id, LoadConn(s.conns[id], parsers, |s.history| - 1));
    case Decide(id, reply) => PutCounts(s, id, DecideConn(s.conns[id], s.history[s.conns[id].snapshot], reply));
    case Refuse(id) => FinishCounts(s, id, s.conns[id].(pc := Closed(Denied)), Denied);
  }

  lemma ResolveCounts(s: State, id: nat, found: Lookup)
    requires CountersOk(s) && id < |s.conns| && s.conns[id].pc == Resolving
    ensures CountersOk(ResolveConn(s, id, s.conns[id], found))
  {
    hide CountersOk, Count, AllAcceptable;
    var c := Looked(s.conns[id], found);
    if found.LookupFailed? || found.list == [] {
      FinishCounts(s, id, c.(pc := Closed(UpstreamError)), UpstreamError);
    } else if !AllAcceptable(found.list) {
      FinishCounts(s, id, c.(pc := Closed(Denied)), Denied);
    } else {
      PutCounts(s, id, c.(pc := Dialling));
    }
  }

  lemma DialCounts(s: State, id: nat, error: Option<int>, upstream: bytes)
    requires CountersOk(s) && id < |s.conns| && s.conns[id].pc == Dialling && CanTry(s.conns[id])
    ensures CountersOk(TryDialConn(s, id, s.conns[id], error, upstream))
  {
    hide CountersOk, Count, TargetOf;
    var c := Tried(s.conns[id], error);
    if error.None? {
      PutCounts(s, id, c.(pc := Opened, upstream := upstream));
    } else if |c.attempts| < |c.lookup.value.list| {
      PutCounts(s, id, c);
    } else {
      FinishCounts(s, id, c.(pc := Closed(UpstreamError)), UpstreamError);
    }
  }

  lemma LateCounts(parsers: Parsers, s: State, e: Event)
    requires Enabled(parsers, s, e) && CountersOk(s)
    requires e.CountAllowed? ==> s.conns[e.id].pc == Audited ==> WillAudit(s.conns[e.id])
    requires e.CountAudit? || e.CountAllowed? || e.Take? || e.Write? || e.Close?
    ensures CountersOk(Apply(parsers, s, e))
  {
    hide CountersOk, Count, IsConnect, TakeFrom, WriteTo;
    match e
    case CountAudit(id) => AuditCounts(s, id);
    case CountAllowed(id) => FinishCounts(s, id, StartSplice(s.conns[id]), Allowed);
    case Take(id, answering, n) =>
      var c := s.conns[id];
      PutCounts(s, id, WithPipe(c, answering, TakeFrom(PipeOf(c, answering), n)));
    case Write(id, answering, n) =>
      var c := s.conns[id];
      PutCounts(s, id, WithPipe(c, answering, WriteTo(PipeOf(c, answering), n)));
    case Close(id) => PutCounts(s, id, s.conns[id].(pc := Closed(Allowed)));
  }

  lemma AuditedWillAudit(c: Conn, parsers: Parsers, history: seq<PolicyValue>)
    requires ConnOk(c, parsers, history) && c.pc == Audited
    ensures WillAudit(c)
  {
  }

  lemma StepKeepsCounters(parsers: Parsers, s: State, e: Event)
    requires Enabled(parsers, s, e) && CountersOk(s) && ConnsOk(parsers, s) && s.history != []
    ensures CountersOk(Apply(parsers, s, e))
  {
    hide CountersOk, ConnOk, Count, AllAcceptable, Located, Loaded, WillAudit, StartSplice, Tried, TakeFrom, WriteTo;
    match e
    case Resolve(id, found) => ResolveCounts(s, id, found);
    case TryDial(id, error, upstream) => DialCounts(s, id, error, upstream);
    case Reload(_) => ReloadCounts(parsers, s, e);
    case CountReload => ReloadCounts(parsers, s, e);
    case CountAllowed(id) =>
      if s.conns[id].pc == Audited {
        AuditedWillAudit(s.conns[id], parsers, s.history);
      }
      LateCounts(parsers, s, e);
    case CountAudit(_) => LateCounts(parsers, s, e);
    case Take(_, _, _) => LateCounts(parsers, s, e);
    case Write(_, _, _) => LateCounts(parsers, s, e);
    case Close(_) => LateCounts(parsers, s, e);
    case _ => EarlyCounts(parsers, s, e);
  }

  lemma ReloadCounts(parsers: Parsers, s: State, e: Event)
    requires Enabled(parsers, s, e) && CountersOk(s) && (e.Reload? || e.CountReload?)
    ensures CountersOk(Apply(parsers, s, e))
  {
    hide Count, Loaded;
  }
}
