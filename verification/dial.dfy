// Resolving once, vetting every answer, then dialling only vetted addresses.
module Dial {
  import opened Text
  import opened IPText
  import opened CanonicalTexts
  import opened Authority
  import opened Decisions

  // One resolver answer. ip is None for a nil or malformed address.
  datatype Answer = Answer(ip: Option<Addr>, zone: string)

  datatype Lookup = Answers(list: seq<Answer>) | LookupFailed

  // A dialled target and the error it gave, if any.
  datatype Attempt = Attempt(target: string, error: Option<int>)

  datatype DialError = LookupError | NoAddresses | MetadataAddress | DialFailed(error: int)

  datatype Dialled = Connected(target: string) | NotConnected(error: DialError)

  // The resolver and the network, with a record of what was asked of them.
  class Network {
    var nextLookup: Lookup
    var lookups: seq<string>
    var attempts: seq<Attempt>

    constructor (nextLookup: Lookup)
      ensures this.nextLookup == nextLookup && lookups == [] && attempts == []
    {
      this.nextLookup, lookups, attempts := nextLookup, [], [];
    }

    method Resolve(host: string) returns (r: Lookup)
      modifies this`lookups
      ensures r == nextLookup && lookups == old(lookups) + [host]
    {
      lookups := lookups + [host];
      return nextLookup;
    }

    // Any attempt may succeed or fail.
    method Connect(target: string) returns (error: Option<int>)
      modifies this`attempts
      ensures attempts == old(attempts) + [Attempt(target, error)]
    {
      error := *;
      attempts := attempts + [Attempt(target, error)];
    }
  }

  predicate Acceptable(a: Answer) {
    a.zone == "" && a.ip.Some? && !IsIMDS(PrintIP(a.ip.value))
  }

  predicate AllAcceptable(list: seq<Answer>) {
    forall i :: 0 <= i < |list| ==> Acceptable(list[i])
  }

  function TargetOf(a: Answer, port: string): string
    requires a.ip.Some?
  {
    JoinHostPort(PrintIP(a.ip.value), port)
  }

  // The attempts so far go through the answers in order.
  ghost predicate InOrder(tried: seq<Attempt>, list: seq<Answer>, port: string)
    requires AllAcceptable(list)
  {
    && |tried| <= |list|
    && forall i :: 0 <= i < |tried| ==> tried[i].target == TargetOf(list[i], port)
  }

  predicate AllFailed(tried: seq<Attempt>) {
    forall i :: 0 <= i < |tried| ==> tried[i].error.Some?
  }

  // Nothing is dialled unless every answer is acceptable. Then the attempts are a
  // non-empty prefix of the answers in order, all but the last failed, and the
  // last one's outcome is returned, a failure only after all were tried.
  ghost predicate DialOutcome(found: Lookup, port: string, tried: seq<Attempt>, r: Dialled) {
    match found
    case LookupFailed => tried == [] && r == NotConnected(LookupError)
    case Answers(list) =>
      if list == [] then tried == [] && r == NotConnected(NoAddresses)
      else if !AllAcceptable(list) then tried == [] && r == NotConnected(MetadataAddress)
      else
        && tried != [] && InOrder(tried, list, port) && AllFailed(tried[..|tried| - 1])
        && var last := tried[|tried| - 1];
           if last.error.None? then r == Connected(last.target)
           else |tried| == |list| && r == NotConnected(DialFailed(last.error.value))
  }

  // One more attempt of the dialling loop.
  lemma AttemptMade(list: seq<Answer>, port: string, tried: seq<Attempt>, last: Attempt)
    requires AllAcceptable(list) && InOrder(tried, list, port) && AllFailed(tried) && |tried| < |list|
    requires last.target == TargetOf(list[|tried|], port)
    ensures
      var tried' := tried + [last];
      && InOrder(tried', list, port)
      && (last.error.None? ==> DialOutcome(Answers(list), port, tried', Connected(last.target)))
      && (last.error.Some? ==> AllFailed(tried'))
      && (last.error.Some? && |tried'| == |list| ==>
            DialOutcome(Answers(list), port, tried', NotConnected(DialFailed(last.error.value))))
  {
    hide Acceptable, TargetOf;
    assert (tried + [last])[..|tried|] == tried;
  }

  method DialResolved(net: Network, host: string, port: string) returns (r: Dialled)
    modifies net`lookups, net`attempts
    ensures net.lookups == old(net.lookups) + [host]
    ensures old(net.attempts) <= net.attempts
    ensures DialOutcome(net.nextLookup, port, net.attempts[|old(net.attempts)|..], r)
  {
    hide IsIMDS, PrintIP, JoinHostPort;
    ghost var base := |net.attempts|;
    var found := net.Resolve(host);
    assert net.attempts[base..] == [];
    if found.LookupFailed? {
      return NotConnected(LookupError);
    }
    var list := found.list;
    if |list| == 0 {
      return NotConnected(NoAddresses);
    }
    var i := 0;
    while i < |list|
      invariant 0 <= i <= |list| && AllAcceptable(list[..i])
      invariant net.attempts == old(net.attempts) && net.lookups == old(net.lookups) + [host]
    {
      if list[i].zone != "" || list[i].ip.None? || IsIMDS(PrintIP(list[i].ip.value)) {
        assert !Acceptable(list[i]);
        return NotConnected(MetadataAddress);
      }
      i := i + 1;
    }
    assert list[..i] == list;
    r := DialVetted(net, list, port);
  }

  // The dialling loop, over vetted answers.
  method DialVetted(net: Network, list: seq<Answer>, port: string) returns (r: Dialled)
    requires list != [] && AllAcceptable(list)
    modifies net`attempts
    ensures old(net.attempts) <= net.attempts
    ensures DialOutcome(Answers(list), port, net.attempts[|old(net.attempts)|..], r)
  {
    hide Acceptable, PrintIP, JoinHostPort, DialOutcome, InOrder, AllFailed;
    ghost var before := net.attempts;
    var error: Option<int> := None;
    ghost var tried: seq<Attempt> := [];
    assert InOrder([], list, port) && AllFailed([]) by { NothingTried(list, port); }
    var i := 0;
    while i < |list|
      invariant 0 <= i <= |list| && |tried| == i && net.attempts == before + tried
      invariant InOrder(tried, list, port) && AllFailed(tried)
      invariant i > 0 ==> error.Some?
      invariant i == |list| ==> DialOutcome(Answers(list), port, tried, NotConnected(DialFailed(error.value)))
    {
      assert list[i].ip.Some? by { VettedHasAddress(list, i); }
      var target := JoinHostPort(PrintIP(list[i].ip.value), port);
      error := net.Connect(target);
      AttemptMade(list, port, tried, Attempt(target, error));
      tried := tried + [Attempt(target, error)];
      assert net.attempts == before + tried && net.attempts[|before|..] == tried;
      if error.None? {
        return Connected(target);
      }
      i := i + 1;
    }
    assert net.attempts[|before|..] == tried;
    return NotConnected(DialFailed(error.value));
  }

  lemma NothingTried(list: seq<Answer>, port: string)
    requires AllAcceptable(list)
    ensures InOrder([], list, port) && AllFailed([])
  {
  }

  lemma VettedHasAddress(list: seq<Answer>, i: nat)
    requires AllAcceptable(list) && i < |list|
    ensures list[i].ip.Some?
  {
  }

  // Vetting is by value: what is acceptable is exactly an address without a zone
  // that is no metadata address.
  lemma AcceptableByValue(a: Answer)
    ensures Acceptable(a) <==> a.zone == "" && a.ip.Some? && !IsMetadataAddress(a.ip.value)
  {
    hide IsIMDS, PrintIP, IsMetadataAddress;
    if a.ip.Some? {
      PinnedByValue(a.ip.value);
    }
  }

  // A dialled target names exactly the vetted address, at the requested port.
  lemma TargetNamesAddress(a: Answer, port: string)
    requires Acceptable(a) && IsCanonicalPort(port) && port != ""
    ensures Destination(TargetOf(a, port), "") == Target(PrintIP(a.ip.value), port)
    ensures ParseIP(Destination(TargetOf(a, port), "").host) == a.ip
    ensures !IsIMDS(TargetOf(a, port))
  {
    hide IsMetadataAddress, PrintIP, Destination, METADATA_HOSTS, JoinHostPort, ParseIP;
    var h := PrintIP(a.ip.value);
    assert IsCanonicalHost(h);
    JoinedLower(h, port);
    DestinationRejoined(JoinHostPort(h, port), h, port, "");
    DestinationIdempotent(h, "");
    PrintRoundTrip(a.ip.value);
  }
}
