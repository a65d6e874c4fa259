// What the running sidecar can do next: from every reachable state a reload takes
// effect, a client is accepted, a permitted connection is dialled and served, and
// any other is refused. Every statement extends an arbitrary run.
module Reachable {
  import opened Text
  import opened IPText
  import opened Authority
  import opened Policies
  import opened Decisions
  import opened Authorization
  import opened ClientHello
  import opened Stream
  import opened Forward
  import opened Dial
  import opened Machine
  import opened Runs

  lemma ExtendRun(parsers: Parsers, run: seq<State>, e: Event) returns (longer: seq<State>)
    requires run != [] && IsRun(parsers, run) && Enabled(parsers, run[|run| - 1], e)
    ensures run < longer && |longer| == |run| + 1
    ensures IsRun(parsers, longer) && longer[|longer| - 1] == Apply(parsers, run[|run| - 1], e)
  {
    hide Enabled, Apply, Init;
    longer := run + [Apply(parsers, run[|run| - 1], e)];
    assert Step(parsers, run[|run| - 1], Apply(parsers, run[|run| - 1], e));
    forall i | 0 <= i < |longer| - 1 ensures Step(parsers, longer[i], longer[i + 1]) {
      assert i < |run| - 1 ==> longer[i] == run[i] && longer[i + 1] == run[i + 1];
    }
  }

  // How the run stands for one connection.
  ghost predicate Ends(run: seq<State>, id: nat, c: Conn) {
    run != [] && id < |run[|run| - 1].conns| && run[|run| - 1].conns[id] == c
  }

  // Nothing but one connection and the counters has changed.
  ghost predicate OthersAsBefore(run: seq<State>, longer: seq<State>, id: nat)
    requires run != [] && longer != []
  {
    var s, s' := run[|run| - 1], longer[|longer| - 1];
    && run <= longer
    && s'.history == s.history && s'.reloading == s.reloading && |s'.conns| == |s.conns|
    && forall i :: 0 <= i < |s.conns| && i != id ==> s'.conns[i] == s.conns[i]
  }

  // A reading connection loads the current policy and is decided.
  lemma DecidedRun(parsers: Parsers, run: seq<State>, id: nat, c: Conn, reply: Option<Reply>)
    returns (longer: seq<State>)
    requires IsRun(parsers, run) && Ends(run, id, c) && c.pc == Reading && run[|run| - 1].history != []
    requires Located(c.stream, c.ending, parsers).Target?
    ensures IsRun(parsers, longer) && longer != [] && OthersAsBefore(run, longer, id)
    ensures
      var history := run[|run| - 1].history;
      Ends(longer, id, DecideConn(LoadConn(c, parsers, |history| - 1), history[|history| - 1], reply))
    ensures longer[|longer| - 1].counters == run[|run| - 1].counters
  {
    hide Located, Verdict, PeekResult, PeerOf, IsRun, Finish, ResolveConn, TryDialConn;
    var loaded := ExtendRun(parsers, run, Load(id));
    longer := ExtendRun(parsers, loaded, Decide(id, reply));
  }

  // --- Dialling -----------------------------------------------------------------------

  // Answers none of which names a metadata endpoint.
  predicate Harmless(list: seq<Answer>) {
    forall i :: 0 <= i < |list| ==> list[i].zone == "" && list[i].ip.Some? && !IsMetadataAddress(list[i].ip.value)
  }

  lemma HarmlessAcceptable(list: seq<Answer>)
    ensures Harmless(list) <==> AllAcceptable(list)
  {
    hide IsMetadataAddress, Acceptable;
    forall a: Answer ensures Acceptable(a) <==> a.zone == "" && a.ip.Some? && !IsMetadataAddress(a.ip.value) {
      AcceptableByValue(a);
    }
  }

  function TryOf(a: Answer, port: string, error: Option<int>): Attempt
    requires a.ip.Some?
  {
    Attempt(JoinHostPort(PrintIP(a.ip.value), port), error)
  }

  // The first answers dialled in order, each with the error it gave.
  function Tries(list: seq<Answer>, port: string, errors: seq<int>): (t: seq<Attempt>)
    requires Harmless(list) && |errors| <= |list|
    ensures |t| == |errors|
  {
    seq(|errors|, i requires 0 <= i < |errors| => TryOf(list[i], port, Some(errors[i])))
  }

  function TriedConn(c: Conn, list: seq<Answer>, errors: seq<int>): Conn
    requires Harmless(list) && |errors| <= |list|
  {
    c.(pc := Dialling, lookups := [c.host], lookup := Some(Answers(list)), attempts := Tries(list, c.port, errors))
  }

  function OpenedConn(c: Conn, list: seq<Answer>, errors: seq<int>, upstream: bytes): Conn
    requires Harmless(list) && |errors| < |list|
  {
    c.(pc := Opened, lookups := [c.host], lookup := Some(Answers(list)), upstream := upstream,
       attempts := Tries(list, c.port, errors) + [TryOf(list[|errors|], c.port, None)])
  }

  // One more failed attempt.
  lemma TriesMore(list: seq<Answer>, port: string, errors: seq<int>)
    requires Harmless(list) && 0 < |errors| <= |list|
    ensures
      var n := |errors| - 1;
      Tries(list, port, errors) == Tries(list, port, errors[..n]) + [TryOf(list[n], port, Some(errors[n]))]
  {
    hide TryOf;
  }

  lemma LookedRun(parsers: Parsers, run: seq<State>, id: nat, c: Conn, list: seq<Answer>)
    returns (longer: seq<State>)
    requires IsRun(parsers, run) && Ends(run, id, c)
    requires c.pc == Resolving && c.lookups == [] && c.attempts == [] && Harmless(list) && list != []
    ensures IsRun(parsers, longer) && longer != [] && OthersAsBefore(run, longer, id)
    ensures Ends(longer, id, TriedConn(c, list, [])) && longer[|longer| - 1].counters == run[|run| - 1].counters
  {
    hide Harmless, AllAcceptable, IsRun, Finish, TryOf;
    HarmlessAcceptable(list);
    assert [] + [c.host] == [c.host];
    longer := ExtendRun(parsers, run, Resolve(id, Answers(list)));
  }

  lemma FailedOnce(parsers: Parsers, run: seq<State>, id: nat, c: Conn, list: seq<Answer>, errors: seq<int>)
    returns (longer: seq<State>)
    requires Harmless(list) && 0 < |errors| < |list|
    requires IsRun(parsers, run) && Ends(run, id, TriedConn(c, list, errors[..|errors| - 1]))
    ensures IsRun(parsers, longer) && longer != [] && OthersAsBefore(run, longer, id)
    ensures Ends(longer, id, TriedConn(c, list, errors)) && longer[|longer| - 1].counters == run[|run| - 1].counters
  {
    hide Harmless, IsRun, Finish, TryOf, Tries, CanTry, Tried;
    var n := |errors| - 1;
    TriesMore(list, c.port, errors);
    TryNext(c, list, errors[..n], Some(errors[n]));
    longer := ExtendRun(parsers, run, TryDial(id, Some(errors[n]), []));
  }

  lemma {:induction false} TriedRun(parsers: Parsers, run: seq<State>, id: nat, c: Conn, list: seq<Answer>,
                                    errors: seq<int>)
    returns (longer: seq<State>)
    requires IsRun(parsers, run) && Ends(run, id, c)
    requires c.pc == Resolving && c.lookups == [] && c.attempts == [] && Harmless(list) && |errors| < |list|
    ensures IsRun(parsers, longer) && longer != [] && OthersAsBefore(run, longer, id)
    ensures Ends(longer, id, TriedConn(c, list, errors)) && longer[|longer| - 1].counters == run[|run| - 1].counters
    decreases |errors|
  {
    hide Harmless, IsRun, OthersAsBefore, TriedConn;
    if errors == [] {
      longer := LookedRun(parsers, run, id, c, list);
    } else {
      var before := TriedRun(parsers, run, id, c, list, errors[..|errors| - 1]);
      longer := FailedOnce(parsers, before, id, c, list, errors);
      BeforeThat(run, before, longer, id);
    }
  }

  lemma HarmlessIP(list: seq<Answer>, i: nat)
    requires Harmless(list) && i < |list|
    ensures list[i].ip.Some?
  {
  }

  lemma TryNext(c: Conn, list: seq<Answer>, errors: seq<int>, error: Option<int>)
    requires Harmless(list) && |errors| < |list|
    ensures
      var c' := TriedConn(c, list, errors);
      CanTry(c') && Tried(c', error) == c'.(attempts := c'.attempts + [TryOf(list[|errors|], c.port, error)])
  {
    hide JoinHostPort, PrintIP;
  }

  lemma OpenedRun(parsers: Parsers, run: seq<State>, id: nat, c: Conn, list: seq<Answer>, errors: seq<int>,
                  upstream: bytes)
    returns (longer: seq<State>)
    requires IsRun(parsers, run) && Ends(run, id, c)
    requires c.pc == Resolving && c.lookups == [] && c.attempts == [] && Harmless(list) && |errors| < |list|
    ensures IsRun(parsers, longer) && longer != [] && OthersAsBefore(run, longer, id)
    ensures Ends(longer, id, OpenedConn(c, list, errors, upstream))
    ensures longer[|longer| - 1].counters == run[|run| - 1].counters
  {
    hide Harmless, IsRun, Finish, TryOf, Tries, CanTry, Tried;
    var before := TriedRun(parsers, run, id, c, list, errors);
    TryNext(c, list, errors, None);
    longer := ExtendRun(parsers, before, TryDial(id, None, upstream));
  }

  // If every answer fails, the connection ends as an upstream error.
  lemma AllAnswersFail(parsers: Parsers, run: seq<State>, id: nat, c: Conn, list: seq<Answer>, errors: seq<int>)
    returns (longer: seq<State>)
    requires IsRun(parsers, run) && Ends(run, id, c) && c.pc == Resolving
    requires list != [] && Harmless(list) && |errors| == |list|
    ensures IsRun(parsers, longer) && longer != [] && OthersAsBefore(run, longer, id)
    ensures Ends(longer, id, TriedConn(c, list, errors).(pc := Closed(UpstreamError)))
    ensures
      var n, n' := run[|run| - 1].counters, longer[|longer| - 1].counters;
      n' == n.(upstreamError := n.upstreamError + 1)
  {
    hide Harmless, IsRun, TryOf, Tries, CanTry, Tried, Inv;
    RunInv(parsers, run, |run| - 1);
    NotYetDialled(parsers, run[|run| - 1], id);
    var n := |errors| - 1;
    var before := TriedRun(parsers, run, id, c, list, errors[..n]);
    TriesMore(list, c.port, errors);
    TryNext(c, list, errors[..n], Some(errors[n]));
    longer := ExtendRun(parsers, before, TryDial(id, Some(errors[n]), []));
  }

  // If any answer is no plain address or names a metadata endpoint, it is refused
  // and nothing is dialled.
  lemma HarmfulAnswerRefused(parsers: Parsers, run: seq<State>, id: nat, c: Conn, list: seq<Answer>)
    returns (longer: seq<State>)
    requires IsRun(parsers, run) && Ends(run, id, c) && c.pc == Resolving && !Harmless(list)
    ensures IsRun(parsers, longer) && longer != [] && OthersAsBefore(run, longer, id)
    ensures Ends(longer, id, c.(pc := Closed(Denied), lookups := [c.host], lookup := Some(Answers(list))))
    ensures
      var n, n' := run[|run| - 1].counters, longer[|longer| - 1].counters;
      n' == n.(denied := n.denied + 1)
  {
    hide IsRun, Inv, AllAcceptable, IsMetadataAddress;
    RunInv(parsers, run, |run| - 1);
    NotYetDialled(parsers, run[|run| - 1], id);
    HarmlessAcceptable(list);
    assert [] + [c.host] == [c.host];
    longer := ExtendRun(parsers, run, Resolve(id, Answers(list)));
  }
  // And from there the counters lead to the splice.
  lemma SplicedRun(parsers: Parsers, run: seq<State>, id: nat, c: Conn) returns (longer: seq<State>)
    requires IsRun(parsers, run) && Ends(run, id, c) && c.pc == Opened
    ensures IsRun(parsers, longer) && longer != [] && OthersAsBefore(run, longer, id)
    ensures |c.header| <= |c.stream| && Ends(longer, id, StartSplice(c))
  {
    hide ConnOk, CountersOk, HistoryOk, Relayed, Greeting, IsRun;
    longer := run;
    if WillAudit(c) {
      longer := ExtendRun(parsers, run, CountAudit(id));
    }
    var last := longer[|longer| - 1];
    RunInv(parsers, longer, |longer| - 1);
    NextGuards(last.conns[id], parsers, last.history);
    longer := ExtendRun(parsers, longer, CountAllowed(id));
  }

  // From every reachable state, whatever the other connections are doing: a granted
  // connection dials harmless answers in order until one succeeds, and is spliced.
  lemma ResolvingCanDial(parsers: Parsers, run: seq<State>, id: nat, c: Conn, list: seq<Answer>, errors: seq<int>,
                         upstream: bytes)
    returns (longer: seq<State>)
    requires IsRun(parsers, run) && Ends(run, id, c) && c.pc == Resolving && Harmless(list) && |errors| < |list|
    ensures IsRun(parsers, longer) && longer != [] && OthersAsBefore(run, longer, id)
    ensures |c.header| <= |c.stream| && Ends(longer, id, StartSplice(OpenedConn(c, list, errors, upstream)))
  {
    hide IsRun, Harmless, StartSplice, Inv, Tries, TryOf;
    RunInv(parsers, run, |run| - 1);
    NotYetDialled(parsers, run[|run| - 1], id);
    var opened' := OpenedRun(parsers, run, id, c, list, errors, upstream);
    longer := SplicedRun(parsers, opened', id, OpenedConn(c, list, errors, upstream));
    BeforeThat(run, opened', longer, id);
  }

  lemma BeforeThat(a: seq<State>, b: seq<State>, c: seq<State>, id: nat)
    requires a != [] && b != [] && c != [] && OthersAsBefore(a, b, id) && OthersAsBefore(b, c, id)
    ensures OthersAsBefore(a, c, id)
  {
  }

  lemma NotYetDialled(parsers: Parsers, s: State, id: nat)
    requires Inv(parsers, s) && id < |s.conns| && s.conns[id].pc == Resolving
    ensures s.conns[id].lookups == [] && s.conns[id].attempts == []
  {
    hide CountersOk, IsNormalPolicy, Granted, FlowsOk, DialOutcome;
    assert ConnOk(s.conns[id], parsers, s.history);
  }

  // The converse of DialOnlyWhenPermitted, from every reachable state: a connection
  // that is still reading, and that the current policy permits, dials whatever
  // harmless answers the resolver gives until one succeeds, and is spliced.
  lemma PermittedCanDial(parsers: Parsers, run: seq<State>, id: nat, c: Conn, reply: Option<Reply>,
                         list: seq<Answer>, errors: seq<int>, upstream: bytes)
    returns (longer: seq<State>)
    requires IsRun(parsers, run) && Ends(run, id, c) && c.pc == Reading && run[|run| - 1].history != []
    requires Located(c.stream, c.ending, parsers).Target?
    requires Permitted(Current(run[|run| - 1]), PeerOf(c.remote), reply, Located(c.stream, c.ending, parsers).host)
    requires Harmless(list) && |errors| < |list|
    ensures IsRun(parsers, longer) && longer != [] && OthersAsBefore(run, longer, id)
    ensures
      var s, port := longer[|longer| - 1], Located(c.stream, c.ending, parsers).port;
      && id < |s.conns| && s.conns[id].pc == Splicing
      && s.conns[id].stream == c.stream && s.conns[id].remote == c.remote && s.conns[id].upstream == upstream
      && s.conns[id].attempts == Tries(list, port, errors) + [TryOf(list[|errors|], port, None)]
  {
    hide Located, Permitted, Harmless, Verdict, IsCanonicalHost, IsNormalPolicy, IsRun, PeerOf, Tries, TryOf,
      Relayed, Greeting, PeekResult;
    var s := run[|run| - 1];
    LocatedCanonical(c.stream, c.ending, parsers);
    PolicyAlwaysValid(parsers, run, |run| - 1);
    VerdictIffPermitted(Current(s), PeerOf(c.remote), reply, Located(c.stream, c.ending, parsers).host);
    var loaded := LoadConn(c, parsers, |s.history| - 1);
    var decided := DecideConn(loaded, Current(s), reply);
    var granted := DecidedRun(parsers, run, id, c, reply);
    longer := ResolvingCanDial(parsers, granted, id, decided, list, errors, upstream);
    BeforeThat(run, granted, longer, id);
  }

  // --- Refusing -----------------------------------------------------------------------

  // What any other connection comes to: it is counted as denied, with nothing looked
  // up and nothing dialled.
  lemma UnpermittedIsDenied(parsers: Parsers, run: seq<State>, id: nat, c: Conn, reply: Option<Reply>)
    returns (longer: seq<State>)
    requires IsRun(parsers, run) && Ends(run, id, c) && c.pc == Reading && run[|run| - 1].history != []
    requires
      var t := Located(c.stream, c.ending, parsers);
      t.Target? ==> !Permitted(Current(run[|run| - 1]), PeerOf(c.remote), reply, t.host)
    ensures IsRun(parsers, longer) && longer != [] && OthersAsBefore(run, longer, id)
    ensures
      var s, s' := run[|run| - 1], longer[|longer| - 1];
      && id < |s'.conns| && s'.conns[id].pc == Closed(Denied)
      && s'.conns[id].lookups == [] && s'.conns[id].attempts == []
      && s'.counters == s.counters.(denied := s.counters.denied + 1)
  {
    hide IsRun, Located, Permitted, Verdict, PeerOf, PeekResult, Inv, IsCanonicalHost, IsNormalPolicy, Apply;
    var s := run[|run| - 1];
    RunInv(parsers, run, |run| - 1);
    NotYetLooked(parsers, s, id);
    if Located(c.stream, c.ending, parsers).Bad? {
      longer := RejectedRun(parsers, run, id);
    } else {
      LocatedCanonical(c.stream, c.ending, parsers);
      PolicyAlwaysValid(parsers, run, |run| - 1);
      VerdictIffPermitted(Current(s), PeerOf(c.remote), reply, Located(c.stream, c.ending, parsers).host);
      var decided := DecidedRun(parsers, run, id, c, reply);
      longer := RefusedRun(parsers, decided, id);
      BeforeThat(run, decided, longer, id);
    }
  }

  lemma RejectedRun(parsers: Parsers, run: seq<State>, id: nat) returns (longer: seq<State>)
    requires IsRun(parsers, run) && run != [] && Enabled(parsers, run[|run| - 1], Reject(id))
    ensures IsRun(parsers, longer) && longer != [] && OthersAsBefore(run, longer, id)
    ensures Ends(longer, id, run[|run| - 1].conns[id].(pc := Closed(Denied)))
    ensures
      var s, s' := run[|run| - 1], longer[|longer| - 1];
      s'.counters == s.counters.(denied := s.counters.denied + 1)
  {
    hide IsRun, Located;
    longer := ExtendRun(parsers, run, Reject(id));
  }

  lemma RefusedRun(parsers: Parsers, run: seq<State>, id: nat) returns (longer: seq<State>)
    requires IsRun(parsers, run) && run != [] && id < |run[|run| - 1].conns|
    requires run[|run| - 1].conns[id].pc == Refusing
    ensures IsRun(parsers, longer) && longer != [] && OthersAsBefore(run, longer, id)
    ensures Ends(longer, id, run[|run| - 1].conns[id].(pc := Closed(Denied)))
    ensures
      var s, s' := run[|run| - 1], longer[|longer| - 1];
      s'.counters == s.counters.(denied := s.counters.denied + 1)
  {
    hide IsRun;
    longer := ExtendRun(parsers, run, Refuse(id));
  }

  lemma NotYetLooked(parsers: Parsers, s: State, id: nat)
    requires Inv(parsers, s) && id < |s.conns| && s.conns[id].pc == Reading
    ensures s.conns[id].lookups == [] && s.conns[id].attempts == []
  {
    hide CountersOk, IsNormalPolicy, Granted, FlowsOk, DialOutcome;
    assert ConnOk(s.conns[id], parsers, s.history);
  }

  // --- Serving ------------------------------------------------------------------------

  // One direction, emptied: what is read already is written, then the rest is read
  // and written.
  lemma DeliveredRun(parsers: Parsers, run: seq<State>, id: nat, c: Conn, answering: bool)
    returns (longer: seq<State>)
    requires IsRun(parsers, run) && Ends(run, id, c) && c.pc == Splicing
    ensures IsRun(parsers, longer) && longer != [] && OthersAsBefore(run, longer, id)
    ensures
      var p := PipeOf(c, answering);
      Ends(longer, id, WithPipe(c, answering, Pipe([], [], p.sent + p.outbox + p.unread)))
    ensures longer[|longer| - 1].counters == run[|run| - 1].counters
  {
    hide IsRun;
    var p := PipeOf(c, answering);
    var written := ExtendRun(parsers, run, Write(id, answering, |p.outbox|));
    assert p.outbox[..|p.outbox|] == p.outbox && p.outbox[|p.outbox|..] == [];
    var taken := ExtendRun(parsers, written, Take(id, answering, |p.unread|));
    assert p.unread[..|p.unread|] == p.unread && p.unread[|p.unread|..] == [];
    longer := ExtendRun(parsers, taken, Write(id, answering, |p.unread|));
  }

  // From every reachable state a spliced connection can be served: the destination
  // gets the whole payload of the client's stream, the client the whole answer.
  lemma SplicedCanDeliver(parsers: Parsers, run: seq<State>, id: nat, c: Conn) returns (longer: seq<State>)
    requires IsRun(parsers, run) && Ends(run, id, c) && c.pc == Splicing
    ensures IsRun(parsers, longer) && longer != [] && OthersAsBefore(run, longer, id)
    ensures
      && c.header <= c.stream
      && Ends(longer, id, c.(forth := Pipe([], [], Payload(c.stream, c.header)),
                             back := Pipe([], [], Greeting(c.header) + c.upstream)))
    ensures longer[|longer| - 1].counters == run[|run| - 1].counters
  {
    hide IsRun, Inv, Payload, Greeting;
    RunInv(parsers, run, |run| - 1);
    SplicedFlows(parsers, run[|run| - 1], id);
    var sent := DeliveredRun(parsers, run, id, c, false);
    var c' := c.(forth := Pipe([], [], Payload(c.stream, c.header)));
    longer := DeliveredRun(parsers, sent, id, c', true);
    BeforeThat(run, sent, longer, id);
  }

  lemma SplicedFlows(parsers: Parsers, s: State, id: nat)
    requires Inv(parsers, s) && id < |s.conns| && s.conns[id].pc == Splicing
    ensures FlowsOk(s.conns[id])
  {
    hide CountersOk, IsNormalPolicy, Granted, DialOk, Flows;
    assert ConnOk(s.conns[id], parsers, s.history);
  }

  // --- Accepting ----------------------------------------------------------------------

  // From every reachable state any client can connect, and is then reading.
  lemma ClientAccepted(parsers: Parsers, run: seq<State>, stream: bytes, ending: Ending, remote: string)
    returns (longer: seq<State>)
    requires IsRun(parsers, run) && run != []
    ensures IsRun(parsers, longer) && |longer| == |run| + 1 && run <= longer
    ensures
      var s, s' := run[|run| - 1], longer[|run|];
      && |s'.conns| == |s.conns| + 1 && s'.conns[..|s.conns|] == s.conns
      && s'.history == s.history && s'.reloading == s.reloading && s'.counters == s.counters
      && var c := s'.conns[|s.conns|];
         c.pc == Reading && c.stream == stream && c.ending == ending && c.remote == remote
  {
    hide IsRun;
    longer := ExtendRun(parsers, run, Accept(stream, ending, remote));
  }

  // And for every policy that loads there is a run that starts with it.
  lemma StartedRun(parsers: Parsers, decoded: Option<PolicyValue>) returns (run: seq<State>)
    requires Loaded(decoded).Some?
    ensures IsRun(parsers, run) && run == [State([], [Loaded(decoded).value], false, Counters(0, 0, 0, 0, 0))]
  {
    hide Loaded;
    run := [State([], [Loaded(decoded).value], false, Counters(0, 0, 0, 0, 0))];
  }

  // --- Reloading ----------------------------------------------------------------------

  // A load that succeeds is the policy from then on.
  lemma ReloadTakesEffect(parsers: Parsers, s: State, decoded: Option<PolicyValue>)
    requires Enabled(parsers, s, Reload(decoded)) && Loaded(decoded).Some?
    ensures
      var s' := Apply(parsers, s, Reload(decoded));
      && s'.history == s.history + [Loaded(decoded).value] && Current(s') == Loaded(decoded).value
      && s'.reloading && s'.conns == s.conns && s'.counters == s.counters
  {
    hide Loaded;
  }

  // From every reachable state where none is under way, any reload that loads goes
  // through in two steps: its policy is the current one, it is counted once, and the
  // connections are as they were.
  lemma ReloadCompletes(parsers: Parsers, run: seq<State>, decoded: Option<PolicyValue>) returns (longer: seq<State>)
    requires IsRun(parsers, run) && run != [] && !run[|run| - 1].reloading && Loaded(decoded).Some?
    ensures IsRun(parsers, longer) && |longer| == |run| + 2 && run <= longer
    ensures
      var s, s' := run[|run| - 1], longer[|run| + 1];
      && s'.history == s.history + [Loaded(decoded).value] && Current(s') == Loaded(decoded).value
      && !s'.reloading && s'.conns == s.conns
      && s'.counters == s.counters.(reloads := s.counters.reloads + 1)
  {
    hide IsRun, Loaded;
    var loaded := ExtendRun(parsers, run, Reload(decoded));
    longer := ExtendRun(parsers, loaded, CountReload);
  }

  // A load that fails leaves everything as it was.
  lemma FailedReloadKeeps(parsers: Parsers, s: State, decoded: Option<PolicyValue>)
    requires Enabled(parsers, s, Reload(decoded)) && Loaded(decoded).None?
    ensures Apply(parsers, s, Reload(decoded)) == s
  {
    hide Loaded;
  }

  // --- Finishing ----------------------------------------------------------------------

  function Rank(pc: Pc): nat {
    match pc
    case Reading => 8
    case Deciding => 7
    case Resolving => 6
    case Dialling => 5
    case Opened => 4
    case Audited => 3
    case Splicing => 2
    case Refusing => 1
    case Closed(_) => 0
  }

  // No connection is ever beyond finishing.
  lemma {:induction false} CanFinish(parsers: Parsers, run: seq<State>, id: nat) returns (longer: seq<State>)
    requires IsRun(parsers, run) && run != [] && id < |run[|run| - 1].conns|
    ensures IsRun(parsers, longer) && longer != [] && OthersAsBefore(run, longer, id)
    ensures longer[|longer| - 1].conns[id].pc.Closed?
    decreases Rank(run[|run| - 1].conns[id].pc)
  {
    hide IsRun, OthersAsBefore, Inv;
    if run[|run| - 1].conns[id].pc.Closed? {
      longer := run;
      UnchangedRun(run, id);
    } else {
      RunInv(parsers, run, |run| - 1);
      var next := CloserRun(parsers, run, id);
      longer := CanFinish(parsers, next, id);
      BeforeThat(run, next, longer, id);
    }
  }

  lemma UnchangedRun(run: seq<State>, id: nat)
    requires run != []
    ensures OthersAsBefore(run, run, id)
  {
  }

  lemma CloserRun(parsers: Parsers, run: seq<State>, id: nat) returns (longer: seq<State>)
    requires IsRun(parsers, run) && run != [] && Inv(parsers, run[|run| - 1]) && id < |run[|run| - 1].conns|
    requires !run[|run| - 1].conns[id].pc.Closed?
    ensures IsRun(parsers, longer) && longer != [] && OthersAsBefore(run, longer, id)
    ensures id < |longer[|longer| - 1].conns|
    ensures Rank(longer[|longer| - 1].conns[id].pc) < Rank(run[|run| - 1].conns[id].pc)
  {
    hide IsRun, Enabled, Apply, Inv, Rank;
    var s := run[|run| - 1];
    var e := CloserEvent(parsers, s, id);
    longer := ExtendRun(parsers, run, e);
  }

  lemma CloserEvent(parsers: Parsers, s: State, id: nat) returns (e: Event)
    requires Inv(parsers, s) && id < |s.conns| && !s.conns[id].pc.Closed?
    ensures Enabled(parsers, s, e)
    ensures
      var s' := Apply(parsers, s, e);
      && s'.history == s.history && s'.reloading == s.reloading && |s'.conns| == |s.conns|
      && (forall i :: 0 <= i < |s.conns| && i != id ==> s'.conns[i] == s.conns[i])
      && Rank(s'.conns[id].pc) < Rank(s.conns[id].pc)
  {
    hide IsNormalPolicy, CountersOk, ConnOk, Enabled, Apply, Rank;
    var c := s.conns[id];
    NextGuards(c, parsers, s.history);
    if c.pc in {Reading, Deciding, Refusing} {
      e := CloserEarly(parsers, s, id);
    } else {
      e := CloserLate(parsers, s, id);
    }
  }

  lemma CloserEarly(parsers: Parsers, s: State, id: nat) returns (e: Event)
    requires id < |s.conns| && s.conns[id].pc in {Reading, Deciding, Refusing} && s.history != []
    requires s.conns[id].pc == Deciding ==> s.conns[id].snapshot < |s.history|
    ensures Enabled(parsers, s, e)
    ensures
      var s' := Apply(parsers, s, e);
      && s'.history == s.history && s'.reloading == s.reloading && |s'.conns| == |s.conns|
      && (forall i :: 0 <= i < |s.conns| && i != id ==> s'.conns[i] == s.conns[i])
      && Rank(s'.conns[id].pc) < Rank(s.conns[id].pc)
  {
    hide Located, Verdict, PeekResult, PeerOf, ResolveConn, TryDialConn;
    var c := s.conns[id];
    e := match c.pc
      case Reading => if Located(c.stream, c.ending, parsers).Bad? then Reject(id) else Load(id)
      case Deciding => Decide(id, None)
      case _ => Refuse(id);
  }

  lemma CloserLate(parsers: Parsers, s: State, id: nat) returns (e: Event)
    requires id < |s.conns| && s.conns[id].pc in {Resolving, Dialling, Opened, Audited, Splicing}
    requires s.conns[id].pc == Dialling ==> CanTry(s.conns[id])
    requires s.conns[id].pc in {Opened, Audited} ==> |s.conns[id].header| <= |s.conns[id].stream|
    ensures Enabled(parsers, s, e)
    ensures
      var s' := Apply(parsers, s, e);
      && s'.history == s.history && s'.reloading == s.reloading && |s'.conns| == |s.conns|
      && (forall i :: 0 <= i < |s.conns| && i != id ==> s'.conns[i] == s.conns[i])
      && Rank(s'.conns[id].pc) < Rank(s.conns[id].pc)
  {
    hide Located, CanTry, Tried, WillAudit, Relayed, Greeting, AllAcceptable;
    var c := s.conns[id];
    e := match c.pc
      case Resolving => Resolve(id, LookupFailed)
      case Dialling => TryDial(id, None, [])
      case Opened => if WillAudit(c) then CountAudit(id) else CountAllowed(id)
      case Audited => CountAllowed(id)
      case _ => Close(id);
  }
}
