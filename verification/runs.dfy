// What holds over every run of the sidecar: any number of connections, any
// interleaving, any number of reloads.
module Runs {
  import opened Text
  import opened IPText
  import opened Authority
  import opened Policies
  import opened Decisions
  import opened Authorization
  import opened ClientHello
  import opened Stream
  import opened Forward
  import opened Dial
  import opened Machine

  // --- Every reachable state satisfies the invariant -------------------------------

  lemma InitInv(parsers: Parsers, s: State)
    requires Init(s)
    ensures Inv(parsers, s)
  {
    hide Loaded, IsNormalPolicy, ConnOk;
    var decoded :| Loaded(decoded).Some? && s.history == [Loaded(decoded).value];
    LoadedIsNormal(decoded);
  }

  lemma StepInv(parsers: Parsers, s: State, s': State)
    requires Inv(parsers, s) && Step(parsers, s, s')
    ensures Inv(parsers, s')
  {
    hide Enabled, Apply, ConnOk, CountersOk;
    var e :| Enabled(parsers, s, e) && s' == Apply(parsers, s, e);
    StepKeepsHistory(parsers, s, e);
    StepKeepsConns(parsers, s, e);
    StepKeepsCounters(parsers, s, e);
  }

  lemma {:induction false} RunInv(parsers: Parsers, run: seq<State>, i: nat)
    requires IsRun(parsers, run) && i < |run|
    ensures Inv(parsers, run[i])
  {
    hide Inv, Step, Init;
    if i == 0 {
      InitInv(parsers, run[0]);
    } else {
      RunInv(parsers, run, i - 1);
      StepInv(parsers, run[i - 1], run[i]);
    }
  }

  // --- How one connection changes -----------------------------------------------------

  // Its policy snapshot is loaded.
  predicate Bound(c: Conn) {
    c.pc == Deciding || c.decision.Some?
  }

  predicate UpstreamOpen(pc: Pc) {
    pc in {Opened, Audited, Splicing, Closed(Allowed)}
  }

  ghost predicate Evolves(c: Conn, c': Conn) {
    && c'.stream == c.stream && c'.ending == c.ending && c'.remote == c.remote
    && (Bound(c) ==>
          Bound(c') && c'.host == c.host && c'.port == c.port && c'.header == c.header && c'.snapshot == c.snapshot)
    && (c.decision.Some? ==> c'.decision == c.decision && c'.reply == c.reply)
    && (c.lookup.Some? ==> c'.lookup == c.lookup)
    && c.lookups <= c'.lookups
    && (UpstreamOpen(c.pc) ==> UpstreamOpen(c'.pc) && c'.upstream == c.upstream)
    && (Counted(c).Some? ==> Counted(c') == Counted(c))
    && c.attempts <= c'.attempts
    && c.forth.sent <= c'.forth.sent && c.back.sent <= c'.back.sent
  }

  ghost predicate StateEvolves(s: State, s': State) {
    && s.history <= s'.history
    && |s.conns| <= |s'.conns|
    && forall i :: 0 <= i < |s.conns| ==> Evolves(s.conns[i], s'.conns[i])
  }

  lemma EarlyEvolves(c: Conn, parsers: Parsers, history: seq<PolicyValue>)
    requires ConnOk(c, parsers, history)
    ensures c.pc == Reading ==> Evolves(c, c.(pc := Closed(Denied)))
    ensures c.pc == Refusing ==> Evolves(c, c.(pc := Closed(Denied)))
    ensures forall snapshot: nat :: c.pc == Reading && Located(c.stream, c.ending, parsers).Target? ==>
      Evolves(c, LoadConn(c, parsers, snapshot))
    ensures forall p, reply :: c.pc == Deciding ==> Evolves(c, DecideConn(c, p, reply))
  {
    hide Located, PeekResult, Verdict, FlowsOk, DialOk, PeerOf;
  }

  lemma ResolveEvolves(c: Conn, found: Lookup)
    requires c.pc == Resolving && c.decision.Some? && c.lookup.None?
    ensures
      var c' := Looked(c, found);
      && Evolves(c, c'.(pc := Closed(UpstreamError)))
      && Evolves(c, c'.(pc := Closed(Denied)))
      && Evolves(c, c'.(pc := Dialling))
  {
  }

  lemma DialEvolves(c: Conn, error: Option<int>, upstream: bytes)
    requires c.pc == Dialling && c.decision.Some? && CanTry(c)
    ensures
      var c' := Tried(c, error);
      && Evolves(c, c') && Evolves(c, c'.(pc := Opened, upstream := upstream))
      && Evolves(c, c'.(pc := Closed(UpstreamError)))
  {
    hide TargetOf;
  }

  lemma LateEvolves(c: Conn)
    requires c.decision.Some? && c.header <= c.stream
    ensures c.pc == Opened ==> Evolves(c, c.(pc := Audited))
    ensures c.pc in {Opened, Audited} && c.forth == IDLE && c.back == IDLE ==> Evolves(c, StartSplice(c))
    ensures c.pc == Splicing ==> Evolves(c, c.(pc := Closed(Allowed)))
  {
    hide Relayed, Greeting;
  }

  lemma PassEvolves(c: Conn, answering: bool, n: nat)
    requires c.decision.Some?
    ensures
      var p := PipeOf(c, answering);
      && (n <= |p.unread| ==> Evolves(c, WithPipe(c, answering, TakeFrom(p, n))))
      && (n <= |p.outbox| ==> Evolves(c, WithPipe(c, answering, WriteTo(p, n))))
  {
  }

  lemma LateDecided(c: Conn, parsers: Parsers, history: seq<PolicyValue>)
    requires ConnOk(c, parsers, history) && PastEarly(c.pc)
    ensures c.decision.Some? && c.header <= c.stream
    ensures c.pc == Resolving ==> c.lookup.None?
    ensures c.pc in {Opened, Audited} ==> c.forth == IDLE && c.back == IDLE
  {
    hide Located, PeekResult, Verdict, FlowsOk, PeerOf, DialOutcome;
    HeaderLeads(c, parsers, history);
  }

  predicate PastEarly(pc: Pc) {
    pc in {Resolving, Dialling, Opened, Audited, Splicing}
  }

  // The one connection an event touches.
  function Touched(e: Event): Option<nat> {
    match e
    case Accept(_, _, _) => None
    case Reload(_) => None
    case CountReload => None
    case _ => Some(e.id)
  }

  lemma TouchedEvolves(parsers: Parsers, s: State, e: Event, id: nat)
    requires Enabled(parsers, s, e) && Touched(e) == Some(id)
    requires id < |s.conns| && ConnOk(s.conns[id], parsers, s.history)
    ensures
      var conns := Apply(parsers, s, e).conns;
      |conns| == |s.conns| && Evolves(s.conns[id], conns[id])
  {
    hide Located, AllAcceptable, ConnOk, Evolves, LoadConn, DecideConn, StartSplice, WillAudit, Tried, CanTry,
      PipeOf, WithPipe, TakeFrom, WriteTo;
    var c := s.conns[id];
    if PastEarly(c.pc) {
      LateDecided(c, parsers, s.history);
    }
    match e
    case Resolve(_, found) => ResolveEvolves(c, found);
    case TryDial(_, error, upstream) => DialEvolves(c, error, upstream);
    case CountAudit(_) => LateEvolves(c);
    case CountAllowed(_) => LateEvolves(c);
    case Take(_, answering, n) => PassEvolves(c, answering, n);
    case Write(_, answering, n) => PassEvolves(c, answering, n);
    case Close(_) => LateEvolves(c);
    case _ => EarlyEvolves(c, parsers, s.history);
  }

  lemma OthersKept(parsers: Parsers, s: State, e: Event)
    requires Enabled(parsers, s, e)
    ensures
      var s' := Apply(parsers, s, e);
      && s.history <= s'.history && |s.conns| <= |s'.conns|
      && (Touched(e).Some? ==> Touched(e).value < |s.conns|)
      && (forall i :: 0 <= i < |s.conns| && Touched(e) != Some(i) ==> s'.conns[i] == s.conns[i])
      && (forall i :: |s.conns| <= i < |s'.conns| ==> !Bound(s'.conns[i]))
  {
    hide Located, AllAcceptable, LoadConn, DecideConn, StartSplice, WillAudit, Loaded, Tried, CanTry,
      PipeOf, WithPipe, TakeFrom, WriteTo;
  }

  lemma StepEvolves(parsers: Parsers, s: State, s': State)
    requires Inv(parsers, s) && Step(parsers, s, s')
    ensures StateEvolves(s, s')
  {
    hide ConnOk, Evolves, Apply, CountersOk, HistoryOk;
    var e :| Enabled(parsers, s, e) && s' == Apply(parsers, s, e);
    OthersKept(parsers, s, e);
    if Touched(e).Some? {
      TouchedEvolves(parsers, s, e, Touched(e).value);
    }
    forall i | 0 <= i < |s.conns| ensures Evolves(s.conns[i], s'.conns[i]) {
      EvolvesReflexive(s.conns[i]);
    }
  }

  lemma EvolvesTransitive(a: Conn, b: Conn, c: Conn)
    requires Evolves(a, b) && Evolves(b, c)
    ensures Evolves(a, c)
  {
  }

  lemma {:induction false} RunEvolves(parsers: Parsers, run: seq<State>, i: nat, j: nat)
    requires IsRun(parsers, run) && i <= j < |run|
    ensures StateEvolves(run[i], run[j])
    decreases j - i
  {
    hide Step, Init, Evolves, Inv;
    if i < j {
      RunEvolves(parsers, run, i, j - 1);
      RunInv(parsers, run, j - 1);
      StepEvolves(parsers, run[j - 1], run[j]);
      forall k | 0 <= k < |run[i].conns| ensures Evolves(run[i].conns[k], run[j].conns[k]) {
        EvolvesTransitive(run[i].conns[k], run[j - 1].conns[k], run[j].conns[k]);
      }
    } else {
      forall k | 0 <= k < |run[i].conns| ensures Evolves(run[i].conns[k], run[j].conns[k]) {
        EvolvesReflexive(run[i].conns[k]);
      }
    }
  }

  lemma EvolvesReflexive(c: Conn)
    ensures Evolves(c, c)
  {
  }

  // --- Counters ---------------------------------------------------------------------------

  // Accepted connections are the sum of the three outcome counters and of the
  // connections still undecided; the audit counter exceeds the audited part of
  // the allowed counter by exactly the connections between the two increments.
  lemma CountersConserved(parsers: Parsers, run: seq<State>, i: nat)
    requires IsRun(parsers, run) && i < |run|
    ensures
      var s, n := run[i], run[i].counters;
      && |s.conns| == n.denied + n.allowed + n.upstreamError + Count(s.conns, Undecided)
      && n.auditOnly == Count(s.conns, AllowedWithAudit) + Count(s.conns, BetweenCounters)
      && n.auditOnly <= n.allowed + Count(s.conns, BetweenCounters)
  {
    hide Step, Init, ConnOk, Count, HistoryOk;
    RunInv(parsers, run, i);
    CountTotals(run[i].conns);
  }

  // A connection adds to one counter only, and stays counted there.
  lemma OutcomeForever(parsers: Parsers, run: seq<State>, i: nat, j: nat, id: nat)
    requires IsRun(parsers, run) && i <= j < |run| && id < |run[i].conns|
    requires Counted(run[i].conns[id]).Some?
    ensures id < |run[j].conns| && Counted(run[j].conns[id]) == Counted(run[i].conns[id])
  {
    hide Step, Init, Counted;
    RunEvolves(parsers, run, i, j);
    assert Evolves(run[i].conns[id], run[j].conns[id]);
  }

  // A decided connection keeps its authorization across every later reload.
  lemma DecisionForever(parsers: Parsers, run: seq<State>, i: nat, j: nat, id: nat)
    requires IsRun(parsers, run) && i <= j < |run| && id < |run[i].conns|
    requires run[i].conns[id].decision.Some?
    ensures
      && id < |run[j].conns| && run[i].history <= run[j].history
      && var (c, c') := (run[i].conns[id], run[j].conns[id]);
         && c'.decision == c.decision && c'.reply == c.reply && c'.remote == c.remote
         && c'.snapshot == c.snapshot && c'.host == c.host && c'.port == c.port
  {
    hide Step, Init;
    RunEvolves(parsers, run, i, j);
    assert Evolves(run[i].conns[id], run[j].conns[id]);
  }

  // --- Policies ------------------------------------------------------------------------------

  // What /health reports as loaded: the policy pointer.
  function Current(s: State): PolicyValue
    requires s.history != []
  {
    s.history[|s.history| - 1]
  }

  lemma PolicyAlwaysValid(parsers: Parsers, run: seq<State>, i: nat)
    requires IsRun(parsers, run) && i < |run|
    ensures
      var s := run[i];
      && s.history != [] && IsNormalPolicy(Current(s)) && 0 <= Current(s).schema <= 2
      && s.counters.reloads + Bit(s.reloading) == |s.history| - 1
  {
    hide Step, Init, ConnOk, Count, IsNormalPolicy;
    RunInv(parsers, run, i);
  }

  // What one event does to the pointer and to the reload counter.
  lemma ReloadIsAtomic(parsers: Parsers, s: State, e: Event)
    requires Enabled(parsers, s, e)
    ensures
      var s' := Apply(parsers, s, e);
      && (s'.history != s.history ==>
            && e.Reload? && Loaded(e.decoded).Some? && s'.history == s.history + [Loaded(e.decoded).value]
            && s' == s.(history := s'.history, reloading := true) && !s.reloading)
      && (e.Reload? && Loaded(e.decoded).None? ==> s' == s)
      && (s'.counters.reloads != s.counters.reloads ==>
            e.CountReload? && s.reloading
            && s' == s.(reloading := false, counters := s.counters.(reloads := s.counters.reloads + 1)))
  {
    hide Located, AllAcceptable, LoadConn, DecideConn, StartSplice, WillAudit, Loaded, Tried, CanTry,
      PipeOf, WithPipe, TakeFrom, WriteTo;
  }

  // In every run: the pointer moves only to the value of a successful load, and
  // nothing else changes with it; the reload counter moves only to count such a
  // swap, and nothing else changes with it.
  lemma PointerMovesByLoad(parsers: Parsers, run: seq<State>, i: nat)
    requires IsRun(parsers, run) && i + 1 < |run|
    ensures
      var s, s' := run[i], run[i + 1];
      && (s'.history != s.history ==>
            exists d :: Loaded(d).Some? && s' == s.(history := s.history + [Loaded(d).value], reloading := true))
      && (s'.counters.reloads != s.counters.reloads ==>
            && s.reloading
            && s' == s.(reloading := false, counters := s.counters.(reloads := s.counters.reloads + 1)))
  {
    hide Enabled, Apply, Init, Loaded;
    assert Step(parsers, run[i], run[i + 1]);
    var e :| Enabled(parsers, run[i], e) && run[i + 1] == Apply(parsers, run[i], e);
    ReloadIsAtomic(parsers, run[i], e);
  }

  ghost predicate AllLoaded(history: seq<PolicyValue>) {
    forall p :: p in history ==> exists d :: Loaded(d) == Some(p)
  }

  // Every policy ever installed is what loading some decoded file gave.
  lemma {:induction false} InstalledWasLoaded(parsers: Parsers, run: seq<State>, i: nat)
    requires IsRun(parsers, run) && i < |run|
    ensures AllLoaded(run[i].history)
  {
    hide Step, Loaded, IsRun;
    if i == 0 {
      FirstLoaded(parsers, run);
    } else {
      InstalledWasLoaded(parsers, run, i - 1);
      PointerMovesByLoad(parsers, run, i - 1);
    }
  }

  lemma FirstLoaded(parsers: Parsers, run: seq<State>)
    requires IsRun(parsers, run)
    ensures AllLoaded(run[0].history)
  {
    hide Step, Loaded;
    var d :| Loaded(d).Some? && run[0].history == [Loaded(d).value];
    assert Loaded(d) == Some(Loaded(d).value);
  }

  // --- Dialling ---------------------------------------------------------------------------------

  // What a permission means, in terms of labels and of the answer for the source as
  // it was given.
  ghost predicate Permitted(p: PolicyValue, peer: string, reply: Option<Reply>, host: string) {
    && host !in {"169.254.169.254", "metadata.google.internal", "169.254.170.2", "fd00:ec2::254"}
    && if p.schema == 2 then
         && reply.Some? && AcceptableAnswer(peer, reply.value)
         && forall i :: 0 <= i < |reply.value.policies| && reply.value.policies[i].mode == "enforce" ==>
              ListCovers(reply.value.policies[i].allowlist, host)
       else p.mode == "audit-only" || ListCovers(p.allowlist, host)
  }

  // Both directions: a valid policy allows a canonical host to a peer exactly when
  // it is permitted, whatever the resolver answered.
  lemma VerdictIffPermitted(p: PolicyValue, peer: string, reply: Option<Reply>, host: string)
    requires IsNormalPolicy(p) && IsCanonicalHost(host)
    ensures Verdict(p, peer, reply, host).allowed <==> Permitted(p, peer, reply, host)
    ensures Verdict(p, peer, reply, host).reason !in {"no-policy", "invalid-policy-mode", "no-source-policy"}
  {
    hide IsCanonicalHost, Verdict, AcceptableAnswer, ListCovers, IsNormalList;
    VerdictExactly(p, peer, reply, host);
    var one := ScopedPolicy(1, p.mode, p.allowlist);
    assert [one][0] == one;
  }

  // --- Which policy decided ------------------------------------------------------------------------

  lemma BoundSources(c: Conn, parsers: Parsers, history: seq<PolicyValue>)
    requires ConnOk(c, parsers, history)
    ensures PastEarly(c.pc) || c.pc in {Deciding, Refusing} ==> Bound(c)
    ensures c.pc == Reading ==> !Bound(c)
  {
  }

  lemma TouchedBinds(parsers: Parsers, s: State, e: Event, id: nat)
    requires Enabled(parsers, s, e) && Touched(e) == Some(id)
    requires id < |s.conns| && ConnOk(s.conns[id], parsers, s.history) && !Bound(s.conns[id])
    ensures s.conns[id].pc == Reading
    ensures
      var conns := Apply(parsers, s, e).conns;
      |conns| == |s.conns| && (Bound(conns[id]) ==> s.history != [] && conns[id].snapshot == |s.history| - 1)
  {
    hide Located, AllAcceptable, ConnOk, DecideConn, StartSplice, WillAudit, Finish, ResolveConn, TryDialConn, CanTry,
      PipeOf, WithPipe, TakeFrom, WriteTo;
    BoundSources(s.conns[id], parsers, s.history);
    if e.Reject? {
      assert Apply(parsers, s, e) == Finish(s, id, s.conns[id].(pc := Closed(Denied)), Denied);
      FinishPuts(s, id, s.conns[id].(pc := Closed(Denied)), Denied);
    }
  }

  lemma FinishPuts(s: State, id: nat, c: Conn, outcome: Outcome)
    requires id < |s.conns|
    ensures Finish(s, id, c, outcome).conns == s.conns[id := c]
  {
  }

  // A connection becomes bound only by loading the policy pointer.
  lemma StepBinds(parsers: Parsers, s: State, s': State, id: nat)
    requires Inv(parsers, s) && Step(parsers, s, s')
    requires id < |s'.conns| && Bound(s'.conns[id])
    ensures id < |s.conns|
    ensures Bound(s.conns[id]) ||
      (s.conns[id].pc == Reading && s.history != [] && s'.conns[id].snapshot == |s.history| - 1)
  {
    hide ConnOk, Bound, Apply, CountersOk, HistoryOk;
    var e :| Enabled(parsers, s, e) && s' == Apply(parsers, s, e);
    OthersKept(parsers, s, e);
    if Touched(e) == Some(id) && !Bound(s.conns[id]) {
      TouchedBinds(parsers, s, e, id);
    }
  }

  // The snapshot a connection decides by was the policy pointer's value at a
  // moment when that connection was still reading.
  lemma {:induction false} SnapshotWasCurrent(parsers: Parsers, run: seq<State>, i: nat, id: nat) returns (j: nat)
    requires IsRun(parsers, run) && i < |run|
    requires id < |run[i].conns| && Bound(run[i].conns[id])
    ensures j < i && id < |run[j].conns| && run[j].conns[id].pc == Reading
    ensures run[i].conns[id].snapshot < |run[i].history| && run[j].history != []
    ensures Current(run[j]) == run[i].history[run[i].conns[id].snapshot]
  {
    hide Inv, Step, Evolves, Bound, Init;
    assert i > 0 by {
      NoneAtStart(run[0]);
    }
    RunInv(parsers, run, i - 1);
    StepBinds(parsers, run[i - 1], run[i], id);
    StepEvolves(parsers, run[i - 1], run[i]);
    if Bound(run[i - 1].conns[id]) {
      BoundKept(run[i - 1].conns[id], run[i].conns[id]);
      j := SnapshotWasCurrent(parsers, run, i - 1, id);
    } else {
      j := i - 1;
    }
  }

  lemma NoneAtStart(s: State)
    ensures Init(s) ==> s.conns == []
  {
  }

  lemma BoundKept(c: Conn, c': Conn)
    requires Evolves(c, c') && Bound(c)
    ensures c'.snapshot == c.snapshot
  {
  }

  // --- The safety theorems ---------------------------------------------------------------------------

  // The target of an attempt denotes a vetted address at the requested port.
  ghost predicate Vetted(target: string, a: Answer, port: string) {
    && a.ip.Some? && !IsMetadataAddress(a.ip.value)
    && Destination(target, "") == Target(PrintIP(a.ip.value), port)
  }

  // The answer names the address that connected, and was accepted.
  ghost predicate AnsweredFor(peer: string, reply: Option<Reply>) {
    && reply.Some? && ParseIP(peer).Some? && reply.value.source == PrintIP(ParseIP(peer).value)
    && Authorized(peer, reply).Some? && Validated(Authorized(peer, reply).value)
  }

  // In every run, a connection that has dialled anything was permitted by the one
  // policy it loaded while it was reading, for the canonical host of its own first
  // packet. If that policy has schema 2, the permission is the intersection of the
  // policies the resolver gave for the very address that connected. And every
  // target it dialled denotes the next vetted answer, no metadata address.
  lemma DialOnlyWhenPermitted(parsers: Parsers, run: seq<State>, i: nat, id: nat) returns (j: nat)
    requires IsRun(parsers, run) && i < |run|
    requires id < |run[i].conns| && run[i].conns[id].attempts != []
    ensures j < i && id < |run[j].conns| && run[j].conns[id].pc == Reading && run[j].history != []
    ensures
      var c, peer := run[i].conns[id], PeerOf(run[i].conns[id].remote);
      && Located(c.stream, c.ending, parsers) == Target(c.host, c.port)
      && IsCanonicalHost(c.host)
      && Permitted(Current(run[j]), peer, c.reply, c.host)
      && (Current(run[j]).schema == 2 ==> AnsweredFor(peer, c.reply))
    ensures
      var c := run[i].conns[id];
      && c.lookup.Some? && c.lookup.value.Answers? && |c.attempts| <= |c.lookup.value.list|
      && forall k :: 0 <= k < |c.attempts| ==> Vetted(c.attempts[k].target, c.lookup.value.list[k], c.port)
  {
    hide Step, Init, Inv, IsMetadataAddress, Permitted, Located, IsCanonicalHost, Verdict, PeerOf, PrintIP, Vetted,
      AnsweredFor;
    var c, peer := run[i].conns[id], PeerOf(run[i].conns[id].remote);
    RunInv(parsers, run, i);
    DialledGranted(parsers, run[i], id);
    j := SnapshotWasCurrent(parsers, run, i, id);
    LocatedCanonical(c.stream, c.ending, parsers);
    PolicyAlwaysValid(parsers, run, j);
    VerdictIffPermitted(Current(run[j]), peer, c.reply, c.host);
    if Current(run[j]).schema == 2 {
      PermittedSource(Current(run[j]), peer, c.reply, c.host);
    }
    DialledVetted(parsers, run[i], id);
  }

  lemma PermittedSource(p: PolicyValue, peer: string, reply: Option<Reply>, host: string)
    requires Permitted(p, peer, reply, host) && p.schema == 2
    ensures AnsweredFor(peer, reply)
  {
    hide Authorized, Validated, ParseIP, PrintIP, AcceptableAnswer, ListCovers;
    if Authorized(peer, reply).None? {
      NotAcceptable(peer, reply.value);
    }
    AuthorizedIsValidated(peer, reply);
  }

  lemma DialledVetted(parsers: Parsers, s: State, id: nat)
    requires Inv(parsers, s) && id < |s.conns| && s.conns[id].attempts != []
    ensures
      var c := s.conns[id];
      && c.lookup.Some? && c.lookup.value.Answers? && |c.attempts| <= |c.lookup.value.list|
      && forall k :: 0 <= k < |c.attempts| ==> Vetted(c.attempts[k].target, c.lookup.value.list[k], c.port)
  {
    hide IsNormalPolicy, CountersOk, IsMetadataAddress, FlowsOk, Verdict, Acceptable, TargetOf, Vetted, Located,
      IsCanonicalPort, PrintIP, Destination;
    var c := s.conns[id];
    var list := c.lookup.value.list;
    assert HasTarget(c, parsers, s.history);
    LocatedCanonical(c.stream, c.ending, parsers);
    forall k | 0 <= k < |c.attempts| ensures Vetted(c.attempts[k].target, list[k], c.port) {
      TargetVetted(list[k], c.port);
    }
  }

  lemma TargetVetted(a: Answer, port: string)
    requires Acceptable(a) && IsCanonicalPort(port) && port != ""
    ensures a.ip.Some? && Vetted(TargetOf(a, port), a, port)
  {
    hide IsMetadataAddress, TargetOf, Destination, IsCanonicalPort, PrintIP;
    AcceptableByValue(a);
    TargetNamesAddress(a, port);
  }

  // How dialling stands in every run: one name is looked up, the host that was
  // decided; all attempts but the last have failed; and once it is over, lookup,
  // attempts and outcome are as DialResolved is specified.
  lemma DialAsSpecified(parsers: Parsers, run: seq<State>, i: nat, id: nat)
    requires IsRun(parsers, run) && i < |run| && id < |run[i].conns|
    ensures
      var c := run[i].conns[id];
      && (c.attempts != [] ==> AllFailed(c.attempts[..|c.attempts| - 1]))
      && (c.pc == Dialling ==> AllFailed(c.attempts))
      && c.lookups == (if c.lookup.Some? then [c.host] else [])
      && (c.lookup.Some? && c.pc != Dialling ==>
            exists r :: DialOutcome(c.lookup.value, c.port, c.attempts, r)
              && (UpstreamOpen(c.pc) <==> r.Connected?)
              && (c.pc == Closed(Denied) <==> r == NotConnected(MetadataAddress)))
  {
    hide Step, Init, Inv;
    RunInv(parsers, run, i);
    DialStands(parsers, run[i], id);
  }

  lemma DialStands(parsers: Parsers, s: State, id: nat)
    requires Inv(parsers, s) && id < |s.conns|
    ensures
      var c := s.conns[id];
      && (c.attempts != [] ==> AllFailed(c.attempts[..|c.attempts| - 1]))
      && (c.pc == Dialling ==> AllFailed(c.attempts))
      && c.lookups == (if c.lookup.Some? then [c.host] else [])
      && (c.lookup.Some? && c.pc != Dialling ==>
            exists r :: DialOutcome(c.lookup.value, c.port, c.attempts, r)
              && (UpstreamOpen(c.pc) <==> r.Connected?)
              && (c.pc == Closed(Denied) <==> r == NotConnected(MetadataAddress)))
  {
    hide IsNormalPolicy, CountersOk, FlowsOk, Verdict, Located, AllAcceptable, TargetOf, PeerOf, PeekResult;
    assert ConnOk(s.conns[id], parsers, s.history);
  }

  lemma LocatedCanonical(stream: bytes, ending: Ending, parsers: Parsers)
    requires Located(stream, ending, parsers).Target?
    ensures IsCanonicalHost(Located(stream, ending, parsers).host)
    ensures IsCanonicalPort(Located(stream, ending, parsers).port) && Located(stream, ending, parsers).port != ""
  {
    hide PeekResult, Destination, IsCanonicalHost, IsCanonicalPort;
    var p := PeekResult(stream, ending, parsers);
    DestinationCanonical(p.host, DefaultPort(p.header));
    PortGiven(p.host, DefaultPort(p.header));
  }

  lemma PortGiven(authority: string, defaultPort: string)
    requires Destination(authority, defaultPort).Target? && defaultPort != ""
    ensures Destination(authority, defaultPort).port != ""
  {
    hide ToLower, SplitHostPort, ParseIP, PrintIP, FirstLabelError, TrimSuffix, Unbracket, Split;
  }

  lemma DialledGranted(parsers: Parsers, s: State, id: nat)
    requires Inv(parsers, s) && id < |s.conns| && s.conns[id].attempts != []
    ensures Granted(s.conns[id], parsers, s.history)
  {
    hide IsNormalPolicy, CountersOk, Decided, FlowsOk, DialOutcome;
  }

  // In every run, what a destination has received is a prefix of the payload of
  // its client's stream, and what the client has received a prefix of the answer,
  // in each direction all of it once nothing is left in flight; and bytes flow only
  // on a connection whose last dial attempt succeeded.
  lemma ForwardedIsPrefix(parsers: Parsers, run: seq<State>, i: nat, id: nat)
    requires IsRun(parsers, run) && i < |run| && id < |run[i].conns|
    ensures
      var c := run[i].conns[id];
      && (c.forth.sent != [] || c.back.sent != [] || c.pc == Splicing ==>
            && c.attempts != [] && c.attempts[|c.attempts| - 1].error.None?
            && c.header <= c.stream
            && Passed(c.forth, Payload(c.stream, c.header))
            && Passed(c.back, Greeting(c.header) + c.upstream))
  {
    hide Step, Init, Inv;
    RunInv(parsers, run, i);
    FlowPrefix(parsers, run[i], id);
  }

  predicate Passed(p: Pipe, whole: bytes) {
    p.sent <= whole && (p.outbox == [] && p.unread == [] ==> p.sent == whole)
  }

  lemma FlowPrefix(parsers: Parsers, s: State, id: nat)
    requires Inv(parsers, s) && id < |s.conns|
    ensures
      var c := s.conns[id];
      && (c.forth.sent != [] || c.back.sent != [] || c.pc == Splicing ==>
            && c.attempts != [] && c.attempts[|c.attempts| - 1].error.None?
            && c.header <= c.stream
            && Passed(c.forth, Payload(c.stream, c.header))
            && Passed(c.back, Greeting(c.header) + c.upstream))
  {
    hide IsNormalPolicy, CountersOk, Decided, Payload, Greeting, AllAcceptable, InOrder, AllFailed, Passed;
    var c := s.conns[id];
    if Forwarding(c.pc) {
      FlowPassed(c.forth, Payload(c.stream, c.header));
      FlowPassed(c.back, Greeting(c.header) + c.upstream);
    }
  }

  lemma FlowPassed(p: Pipe, whole: bytes)
    requires Flows(p, whole)
    ensures Passed(p, whole)
  {
    assert p.outbox == [] && p.unread == [] ==> p.sent + p.outbox + p.unread == p.sent;
  }

  // The fail-safe reasons of the decision code are never the reason of a refusal
  // in the running system.
  lemma ReasonsReachable(parsers: Parsers, run: seq<State>, i: nat, id: nat)
    requires IsRun(parsers, run) && i < |run|
    requires id < |run[i].conns| && run[i].conns[id].decision.Some?
    ensures run[i].conns[id].decision.value.reason !in {"no-policy", "invalid-policy-mode", "no-source-policy"}
  {
    hide Step, Init, Inv, Located, IsCanonicalHost, Verdict, PeerOf;
    var c := run[i].conns[id];
    RunInv(parsers, run, i);
    DecidedOk(parsers, run[i], id);
    LocatedCanonical(c.stream, c.ending, parsers);
    VerdictIffPermitted(run[i].history[c.snapshot], PeerOf(c.remote), c.reply, c.host);
  }

  lemma DecidedOk(parsers: Parsers, s: State, id: nat)
    requires Inv(parsers, s) && id < |s.conns| && s.conns[id].decision.Some?
    ensures Decided(s.conns[id], parsers, s.history)
    ensures IsNormalPolicy(s.history[s.conns[id].snapshot])
  {
    hide IsNormalPolicy, CountersOk, FlowsOk, Located, Verdict, DialOk, PeerOf;
  }

  // No connection is ever stuck: until it is closed, some event moves it on. And
  // the guards never choose what the resolvers and the network answer: every
  // result they can give is enabled.
  lemma Progress(parsers: Parsers, run: seq<State>, i: nat, id: nat)
    requires IsRun(parsers, run) && i < |run| && id < |run[i].conns|
    requires !run[i].conns[id].pc.Closed?
    ensures exists e :: Touched(e) == Some(id) && Enabled(parsers, run[i], e)
    ensures run[i].conns[id].pc == Deciding ==> forall reply :: Enabled(parsers, run[i], Decide(id, reply))
    ensures run[i].conns[id].pc == Resolving ==> forall found :: Enabled(parsers, run[i], Resolve(id, found))
    ensures run[i].conns[id].pc == Dialling ==>
      forall error, upstream :: Enabled(parsers, run[i], TryDial(id, error, upstream))
  {
    hide Step, Init, Inv, IsRun;
    RunInv(parsers, run, i);
    var e := NextEvent(parsers, run[i], id);
  }

  lemma NextEvent(parsers: Parsers, s: State, id: nat) returns (e: Event)
    requires Inv(parsers, s) && id < |s.conns| && !s.conns[id].pc.Closed?
    ensures Touched(e) == Some(id) && Enabled(parsers, s, e)
    ensures s.conns[id].pc == Deciding ==> forall reply :: Enabled(parsers, s, Decide(id, reply))
    ensures s.conns[id].pc == Resolving ==> forall found :: Enabled(parsers, s, Resolve(id, found))
    ensures s.conns[id].pc == Dialling ==>
      forall error, upstream :: Enabled(parsers, s, TryDial(id, error, upstream))
  {
    hide IsNormalPolicy, CountersOk, Located, ConnOk, Apply, CanTry, WillAudit;
    var c := s.conns[id];
    NextGuards(c, parsers, s.history);
    e := match c.pc
      case Reading => if Located(c.stream, c.ending, parsers).Bad? then Reject(id) else Load(id)
      case Deciding => Decide(id, None)
      case Refusing => Refuse(id)
      case Resolving => Resolve(id, LookupFailed)
      case Dialling => TryDial(id, None, [])
      case Opened => if WillAudit(c) then CountAudit(id) else CountAllowed(id)
      case Audited => CountAllowed(id)
      case _ => Close(id);
  }

  lemma NextGuards(c: Conn, parsers: Parsers, history: seq<PolicyValue>)
    requires ConnOk(c, parsers, history)
    ensures c.pc == Deciding ==> c.snapshot < |history|
    ensures c.pc == Dialling ==> CanTry(c)
    ensures c.pc in {Opened, Audited} ==> |c.header| <= |c.stream|
  {
    hide FlowsOk, Located, Verdict, PeekResult, PeerOf, DialOk, CanTry;
    if c.pc == Dialling {
      NextAcceptable(c);
    }
    if c.pc in {Opened, Audited} {
      HeaderLeads(c, parsers, history);
    }
  }
}
