// The policy part of one connection: which policies apply to its source, and
// their verdict. The resolver's answer is rewritten in place while it is checked,
// one scoped policy at a time.
module Authorization {
  import opened Text
  import opened IPText
  import opened Spellings
  import opened CanonicalTexts
  import opened Authority
  import opened Policies
  import opened Decisions

  // The decoded answer of the resolver, as a value. A transport failure, a status
  // other than 200, an oversized body and malformed JSON all arrive as None.
  datatype Reply = Reply(source: string, containerId: string, policies: seq<ScopedPolicy>)

  class SourceAuthorization {
    var source: string
    var containerId: string
    var policies: seq<ScopedPolicy>

    function Value(): Reply
      reads this
    {
      Reply(source, containerId, policies)
    }
  }

  function Decoded(auth: SourceAuthorization?): Option<Reply>
    reads auth
  {
    if auth == null then None else Some(auth.Value())
  }

  predicate HexLower(c: char) {
    '0' <= c <= '9' || 'a' <= c <= 'f'
  }

  predicate IsContainerId(s: string) {
    |s| == 64 && forall i :: 0 <= i < |s| ==> HexLower(s[i])
  }

  // The answer names the very address that connected.
  predicate IdentityOk(reply: Reply, peer: string) {
    && ParseIP(peer).Some?
    && reply.source == PrintIP(ParseIP(peer).value)
    && IsContainerId(reply.containerId)
    && 1 <= |reply.policies| <= 100
  }

  ghost predicate DistinctIds(policies: seq<ScopedPolicy>) {
    forall i, j :: 0 <= i < j < |policies| ==> policies[i].id != policies[j].id
  }

  // One scoped policy on its own, before normalisation.
  predicate PolicyOk(p: ScopedPolicy) {
    p.id >= 1 && ValidMode(p.mode) && |p.allowlist| <= 1000 && NormalEntries(p.allowlist).Some?
  }

  ghost predicate PoliciesOk(policies: seq<ScopedPolicy>) {
    DistinctIds(policies) && forall p :: p in policies ==> PolicyOk(p)
  }

  function WithNormalList(p: ScopedPolicy): ScopedPolicy
    requires PolicyOk(p)
  {
    p.(allowlist := NormalEntries(p.allowlist).value)
  }

  // What every accepted answer satisfies afterwards.
  ghost predicate Validated(policies: seq<ScopedPolicy>) {
    && 1 <= |policies| <= 100
    && DistinctIds(policies)
    && forall p :: p in policies ==>
         p.id >= 1 && ValidMode(p.mode) && |p.allowlist| <= 1000 && IsNormalList(p.allowlist)
  }

  function NormalLists(policies: seq<ScopedPolicy>): (r: seq<ScopedPolicy>)
    requires forall p :: p in policies ==> PolicyOk(p)
    ensures |r| == |policies|
  {
    seq(|policies|, i requires 0 <= i < |policies| => assert policies[i] in policies; WithNormalList(policies[i]))
  }

  // The policies that apply to a peer, given the resolver's answer: none unless
  // the answer is for that peer and acceptable throughout.
  ghost function Authorized(peer: string, reply: Option<Reply>): Option<seq<ScopedPolicy>> {
    if reply.Some? && IdentityOk(reply.value, peer) && PoliciesOk(reply.value.policies)
    then Some(NormalLists(reply.value.policies)) else None
  }

  // Nothing but the allowlists changes in an accepted answer.
  method ResolveAuthorization(peer: string, auth: SourceAuthorization?) returns (ok: bool)
    modifies auth
    ensures ok <==> Authorized(peer, old(Decoded(auth))).Some?
    ensures ok ==>
      && auth != null
      && Some(auth.policies) == Authorized(peer, old(Decoded(auth)))
      && auth.source == old(auth.source) && auth.containerId == old(auth.containerId)
  {
    hide PrintIP, ParseIP, NormalEntries, IsNormalList, IsContainerId, PoliciesOk, NormalLists;
    if ParseIP(peer).None? || auth == null {
      return false;
    }
    if auth.source != PrintIP(ParseIP(peer).value) || !IsContainerId(auth.containerId)
       || |auth.policies| == 0 || |auth.policies| > 100 {
      return false;
    }
    ghost var raw := auth.policies;
    var seen: map<int, bool> := map[];
    var index := 0;
    while index < |auth.policies|
      invariant 0 <= index <= |auth.policies| == |raw|
      invariant auth.source == old(auth.source) && auth.containerId == old(auth.containerId)
      invariant auth.policies[index..] == raw[index..]
      invariant forall i :: 0 <= i < index ==> PolicyOk(raw[i]) && auth.policies[i] == WithNormalList(raw[i])
      invariant forall id :: id in seen <==> exists i :: 0 <= i < index && raw[i].id == id
      invariant forall i, j :: 0 <= i < j < index ==> raw[i].id != raw[j].id
    {
      var p := auth.policies[index];
      assert p == auth.policies[index..][0] == raw[index..][0] == raw[index];
      if p.id < 1 || p.id in seen || (p.mode != "enforce" && p.mode != "audit-only") || |p.allowlist| > 1000 {
        PolicyRefused(raw, index);
        return false;
      }
      seen := seen[p.id := true];
      var validated := new Policy(PolicyValue(0, p.mode, p.allowlist));
      var err := validated.Normalize();
      if err.Some? {
        PolicyRefused(raw, index);
        return false;
      }
      auth.policies := auth.policies[index := p.(allowlist := validated.allowlist)];
      index := index + 1;
    }
    PoliciesAccepted(raw, auth.policies);
    return true;
  }

  lemma PolicyRefused(raw: seq<ScopedPolicy>, index: nat)
    requires index < |raw|
    requires !PolicyOk(raw[index]) || exists i :: 0 <= i < index && raw[i].id == raw[index].id
    ensures !PoliciesOk(raw)
  {
    hide PolicyOk;
    assert raw[index] in raw;
  }

  lemma PoliciesAccepted(raw: seq<ScopedPolicy>, done: seq<ScopedPolicy>)
    requires |done| == |raw| && DistinctIds(raw)
    requires forall i :: 0 <= i < |raw| ==> PolicyOk(raw[i]) && done[i] == WithNormalList(raw[i])
    ensures PoliciesOk(raw) && done == NormalLists(raw)
  {
    hide PolicyOk;
    assert forall p :: p in raw ==> exists i :: 0 <= i < |raw| && raw[i] == p;
  }

  // An authorization has passed every check, and comes from the answer for this
  // very peer.
  lemma AuthorizedIsValidated(peer: string, reply: Option<Reply>)
    requires Authorized(peer, reply).Some?
    ensures Validated(Authorized(peer, reply).value)
    ensures reply.Some? && ParseIP(peer).Some? && reply.value.source == PrintIP(ParseIP(peer).value)
  {
    hide NormalEntries, IsNormalList, ParseIP, PrintIP, IsContainerId;
    var raw := reply.value.policies;
    var done := NormalLists(raw);
    forall i | 0 <= i < |raw|
      ensures PolicyOk(raw[i]) && done[i] == WithNormalList(raw[i])
      ensures IsNormalList(done[i].allowlist) && |done[i].allowlist| <= 1000
    {
      assert raw[i] in raw;
      NormalEntriesShape(raw[i].allowlist);
    }
  }

  // What an acceptable answer for a peer is, with each limit as a number.
  ghost predicate AcceptableAnswer(peer: string, reply: Reply) {
    && (exists a :: Spells(peer, a) && reply.source == PrintIP(a))
    && |reply.containerId| == 64
    && (forall i :: 0 <= i < 64 ==> reply.containerId[i] in "0123456789abcdef")
    && 1 <= |reply.policies| <= 100
    && (forall i, j :: 0 <= i < j < |reply.policies| ==> reply.policies[i].id != reply.policies[j].id)
    && forall i :: 0 <= i < |reply.policies| ==> AcceptablePolicy(reply.policies[i])
  }

  predicate AcceptablePolicy(p: ScopedPolicy) {
    && p.id >= 1 && p.mode in {"enforce", "audit-only"} && |p.allowlist| <= 1000
    && forall k :: 0 <= k < |p.allowlist| ==> NormalEntry(p.allowlist[k]).Some?
  }

  // The policy kept for a policy of the answer: its id and mode, and each entry in
  // its normal form.
  predicate Kept(raw: ScopedPolicy, p: ScopedPolicy) {
    && p.id == raw.id && p.mode == raw.mode && |p.allowlist| == |raw.allowlist|
    && forall k :: 0 <= k < |raw.allowlist| ==> NormalEntry(raw.allowlist[k]) == Some(p.allowlist[k])
  }

  ghost predicate AllKept(raw: seq<ScopedPolicy>, policies: seq<ScopedPolicy>) {
    |policies| == |raw| && forall i :: 0 <= i < |raw| ==> Kept(raw[i], policies[i])
  }

  // Which answers are accepted, and as what: all of them that keep the limits, each
  // policy at its place with its id and mode.
  lemma AcceptedExactly(peer: string, reply: Reply, policies: seq<ScopedPolicy>)
    ensures Authorized(peer, Some(reply)) == Some(policies) <==>
      AcceptableAnswer(peer, reply) && AllKept(reply.policies, policies)
  {
    hide IdentityOk, PoliciesOk, NormalLists, AllKept, Spells, AcceptablePolicy;
    IdentityExactly(peer, reply);
    PoliciesExactly(reply.policies);
    if PoliciesOk(reply.policies) {
      KeptExactly(reply.policies, policies);
    }
  }

  lemma PoliciesExactly(raw: seq<ScopedPolicy>)
    ensures PoliciesOk(raw) <==>
      && (forall i, j :: 0 <= i < j < |raw| ==> raw[i].id != raw[j].id)
      && forall i :: 0 <= i < |raw| ==> AcceptablePolicy(raw[i])
    ensures PoliciesOk(raw) ==> forall p :: p in raw ==> PolicyOk(p)
  {
    hide PolicyOk, AcceptablePolicy;
    forall p: ScopedPolicy ensures PolicyOk(p) <==> AcceptablePolicy(p) {
      PolicyExactly(p);
    }
    assert forall p :: p in raw <==> exists i :: 0 <= i < |raw| && raw[i] == p;
  }

  lemma IdentityExactly(peer: string, reply: Reply)
    ensures IdentityOk(reply, peer) <==>
      && (exists a :: Spells(peer, a) && reply.source == PrintIP(a))
      && |reply.containerId| == 64
      && (forall i :: 0 <= i < 64 ==> reply.containerId[i] in "0123456789abcdef")
      && 1 <= |reply.policies| <= 100
  {
    hide ParseIP, Spells, PrintIP, HexLower;
    forall a ensures ParseIP(peer) == Some(a) <==> Spells(peer, a) {
      ParseIPExactly(peer, a);
    }
    forall c: char ensures HexLower(c) <==> c in "0123456789abcdef" {
      HexLowerTable(c);
    }
  }

  lemma HexLowerTable(c: char)
    ensures HexLower(c) <==> c in "0123456789abcdef"
  {
    if HexLower(c) {
      DigitCharAt(if c <= '9' then (c - '0') as nat else (c - 'a') as nat + 10);
    }
  }

  lemma PolicyExactly(p: ScopedPolicy)
    ensures PolicyOk(p) <==> AcceptablePolicy(p)
  {
    hide NormalEntry, NormalEntries;
    if NormalEntries(p.allowlist).Some? {
      NormalEntriesExactly(p.allowlist, NormalEntries(p.allowlist).value);
    }
    if AcceptablePolicy(p) {
      var list := seq(|p.allowlist|, k requires 0 <= k < |p.allowlist| => NormalEntry(p.allowlist[k]).value);
      NormalEntriesExactly(p.allowlist, list);
    }
  }

  lemma KeptExactly(raw: seq<ScopedPolicy>, policies: seq<ScopedPolicy>)
    requires forall p :: p in raw ==> PolicyOk(p)
    ensures policies == NormalLists(raw) <==> AllKept(raw, policies)
  {
    hide PolicyOk, NormalEntry, Kept, NormalEntries;
    if |policies| == |raw| {
      forall i | 0 <= i < |raw| ensures policies[i] == NormalLists(raw)[i] <==> Kept(raw[i], policies[i]) {
        assert raw[i] in raw;
        OneKept(raw[i], policies[i]);
      }
    }
  }

  lemma OneKept(raw: ScopedPolicy, p: ScopedPolicy)
    requires PolicyOk(raw)
    ensures p == WithNormalList(raw) <==> Kept(raw, p)
  {
    hide NormalEntry, NormalEntries;
    NormalEntriesExactly(raw.allowlist, p.allowlist);
  }

  // One answer never authorises two addresses, however they are written.
  lemma AnswerForOneAddress(peer: string, other: string, reply: Option<Reply>)
    requires Authorized(peer, reply).Some? && Authorized(other, reply).Some?
    ensures ParseIP(peer).Some? && ParseIP(peer) == ParseIP(other)
  {
    hide ParseIP, PrintIP, PoliciesOk, IsContainerId;
    PrintInjective(ParseIP(peer).value, ParseIP(other).value);
  }

  // A validated answer is what the intersection law needs, so an authorised
  // connection gets the order-free verdict.
  lemma ValidatedIntersects(policies: seq<ScopedPolicy>, host: string)
    requires Validated(policies)
    ensures Scoped(policies, host) == Intersection(policies, host)
  {
    hide IsIMDS, MatchAllowlist, IsNormalList;
    ScopedIsIntersection(policies, host);
  }

  // --- The verdict on a connection --------------------------------------------------

  // The address part of a connection's remote address.
  function PeerOf(remote: string): string {
    match SplitHostPort(remote)
    case None => ""
    case Some((peer, _)) => peer
  }

  // For a host written with its port as the sidecar's listener writes it, that is
  // the host.
  lemma PeerOfJoined(host: string, n: nat)
    requires host != "" && '[' !in host && ']' !in host
    ensures PeerOf(JoinHostPort(host, Itoa(n))) == host
  {
    hide SplitHostPort, Numeral;
    var p := Itoa(n);
    assert forall c :: c in p ==> DigitOf(c, 10).Some?;
    if ':' in host {
      BracketedSplits(host, p);
    } else {
      PlainSplits(host, p);
    }
  }

  lemma PeerIsAddress(a: Addr, n: nat)
    ensures PeerOf(JoinHostPort(PrintIP(a), Itoa(n))) == PrintIP(a)
  {
    hide PrintIP, PeerOf, Numeral, AddressChar, ColonsPaired;
    PrintShape(a);
    assert !AddressChar('[') && !AddressChar(']') by { BracketsNoAddress(); }
    PeerOfJoined(PrintIP(a), n);
  }

  lemma BracketsNoAddress()
    ensures !AddressChar('[') && !AddressChar(']')
  {
  }

  // A schema-2 policy delegates to the source's own policies alone.
  ghost function Verdict(p: PolicyValue, peer: string, reply: Option<Reply>, host: string): Decision {
    if p.schema == 2 then
      match Authorized(peer, reply)
      case None => Deny("source-authorization-unavailable")
      case Some(policies) => Scoped(policies, host)
    else PolicyDecision(Some(p), host)
  }

  // --- The verdict, exactly -------------------------------------------------------------

  // Some entry of a normalised list covers the host by labels.
  ghost predicate Covered(allowlist: seq<string>, host: string) {
    exists e :: e in allowlist && LabelMatch(e, host)
  }

  // The same of a list as it was given: some entry, in its normal form, does.
  ghost predicate ListCovers(raw: seq<string>, host: string) {
    exists k, e :: 0 <= k < |raw| && NormalEntry(raw[k]) == Some(e) && LabelMatch(e, host)
  }

  ghost predicate Misses(p: ScopedPolicy, mode: string, host: string) {
    p.mode == mode && !ListCovers(p.allowlist, host)
  }

  // Pinned hosts are refused; so is what some enforce policy does not list; what
  // some audit-only policy does not list is allowed and logged.
  ghost function SpecifiedDecision(policies: seq<ScopedPolicy>, host: string): Decision {
    if host in {"169.254.169.254", "metadata.google.internal", "169.254.170.2", "fd00:ec2::254"} then
      Decision(false, false, "imds-pin")
    else if exists i :: 0 <= i < |policies| && Misses(policies[i], "enforce", host) then
      Decision(false, false, "not-in-allowlist")
    else if exists i :: 0 <= i < |policies| && Misses(policies[i], "audit-only", host) then
      Decision(true, true, "not-in-allowlist")
    else Decision(true, false, "")
  }

  lemma MatchIsCovered(allowlist: seq<string>, host: string)
    requires IsCanonicalHost(host)
    ensures MatchAllowlist(allowlist, host) <==> Covered(allowlist, host)
  {
    hide Destination, LabelMatch, IsCanonicalHost, AnyMatches;
    CanonicalIffFixed(host);
    MatchByLabels(allowlist, host);
  }

  lemma PinnedIsMetadata(host: string)
    requires IsCanonicalHost(host)
    ensures IsIMDS(host) <==> host in {"169.254.169.254", "metadata.google.internal", "169.254.170.2", "fd00:ec2::254"}
  {
    hide Destination, IsCanonicalHost;
    CanonicalIffFixed(host);
  }

  lemma KeptCovers(raw: ScopedPolicy, p: ScopedPolicy, host: string)
    requires Kept(raw, p)
    ensures Covered(p.allowlist, host) <==> ListCovers(raw.allowlist, host)
  {
    hide NormalEntry, LabelMatch;
    if k, e :| 0 <= k < |raw.allowlist| && NormalEntry(raw.allowlist[k]) == Some(e) && LabelMatch(e, host) {
      assert p.allowlist[k] == e;
    }
    if Covered(p.allowlist, host) {
      var k :| 0 <= k < |p.allowlist| && LabelMatch(p.allowlist[k], host);
      assert NormalEntry(raw.allowlist[k]) == Some(p.allowlist[k]);
    }
  }

  // A normalised list is its own normal form.
  lemma NormalCovers(list: seq<string>, host: string)
    requires IsNormalList(list)
    ensures Covered(list, host) <==> ListCovers(list, host)
  {
    hide NormalEntry, LabelMatch, IsNormalEntry;
    forall e | e in list ensures NormalEntry(e) == Some(e) {
      NormalEntryFixed(e);
    }
    if Covered(list, host) {
      var k :| 0 <= k < |list| && LabelMatch(list[k], host);
      assert NormalEntry(list[k]) == Some(list[k]);
    }
  }

  lemma KeptIntersects(raw: seq<ScopedPolicy>, policies: seq<ScopedPolicy>, host: string)
    requires AllKept(raw, policies) && Validated(policies) && IsCanonicalHost(host)
    ensures Scoped(policies, host) == SpecifiedDecision(raw, host)
  {
    hide Kept, IsCanonicalHost, IsIMDS, MatchAllowlist, ListCovers, Covered, Scoped, IsNormalList;
    ValidatedIntersects(policies, host);
    PinnedIsMetadata(host);
    forall i | 0 <= i < |raw|
      ensures raw[i].mode == policies[i].mode
      ensures ListCovers(raw[i].allowlist, host) <==> MatchAllowlist(policies[i].allowlist, host)
    {
      MatchIsCovered(policies[i].allowlist, host);
      KeptCovers(raw[i], policies[i], host);
      KeptFields(raw[i], policies[i]);
    }
    MissesAlike(raw, policies, host);
  }

  lemma KeptFields(raw: ScopedPolicy, p: ScopedPolicy)
    requires Kept(raw, p)
    ensures raw.mode == p.mode && raw.id == p.id
  {
  }

  lemma MissesAlike(raw: seq<ScopedPolicy>, policies: seq<ScopedPolicy>, host: string)
    requires |raw| == |policies|
    requires forall i :: 0 <= i < |raw| ==>
      && raw[i].mode == policies[i].mode
      && (ListCovers(raw[i].allowlist, host) <==> MatchAllowlist(policies[i].allowlist, host))
    ensures EnforceAllMatch(policies, host) <==> !exists i :: 0 <= i < |raw| && Misses(raw[i], "enforce", host)
    ensures SomeAuditMisses(policies, host) <==> exists i :: 0 <= i < |raw| && Misses(raw[i], "audit-only", host)
  {
    hide MatchAllowlist, ListCovers;
    if p :| p in policies && p.mode == "enforce" && !MatchAllowlist(p.allowlist, host) {
      var i :| 0 <= i < |policies| && policies[i] == p;
      assert Misses(raw[i], "enforce", host);
    }
    if p :| p in policies && p.mode == "audit-only" && !MatchAllowlist(p.allowlist, host) {
      var i :| 0 <= i < |policies| && policies[i] == p;
      assert Misses(raw[i], "audit-only", host);
    }
    forall i | 0 <= i < |raw| ensures policies[i] in policies {
    }
  }

  // The whole decision, for every valid policy, every canonical host and every
  // answer, in terms of the answer as it was given.
  lemma VerdictExactly(p: PolicyValue, peer: string, reply: Option<Reply>, host: string)
    requires IsNormalPolicy(p) && IsCanonicalHost(host)
    ensures Verdict(p, peer, reply, host) ==
      if p.schema != 2 then SpecifiedDecision([ScopedPolicy(1, p.mode, p.allowlist)], host)
      else if reply.None? || !AcceptableAnswer(peer, reply.value) then
        Decision(false, false, "source-authorization-unavailable")
      else SpecifiedDecision(reply.value.policies, host)
  {
    hide IsCanonicalHost, IsNormalPolicy, AcceptableAnswer, AllKept, Authorized, PolicyDecision, Scoped,
      SpecifiedDecision, Validated;
    if p.schema != 2 {
      OneSpecified(p, host);
    } else if reply.Some? {
      if Authorized(peer, reply).Some? {
        var policies := Authorized(peer, reply).value;
        AcceptedExactly(peer, reply.value, policies);
        AuthorizedIsValidated(peer, reply);
        KeptIntersects(reply.value.policies, policies, host);
      } else {
        NotAcceptable(peer, reply.value);
      }
    } else {
      assert Authorized(peer, None) == None by { NoAnswer(peer); }
    }
  }

  lemma NoAnswer(peer: string)
    ensures Authorized(peer, None) == None
  {
  }

  lemma NotAcceptable(peer: string, reply: Reply)
    requires Authorized(peer, Some(reply)).None?
    ensures !AcceptableAnswer(peer, reply)
  {
    hide Authorized, NormalEntry, Spells;
    if AcceptableAnswer(peer, reply) {
      var policies := seq(|reply.policies|, i requires 0 <= i < |reply.policies| => EntryForms(reply.policies[i]));
      AcceptedExactly(peer, reply, policies);
    }
  }

  function EntryForms(p: ScopedPolicy): (r: ScopedPolicy)
    requires AcceptablePolicy(p)
    ensures Kept(p, r)
  {
    p.(allowlist := seq(|p.allowlist|, k requires 0 <= k < |p.allowlist| => NormalEntry(p.allowlist[k]).value))
  }

  lemma OneSpecified(p: PolicyValue, host: string)
    requires IsNormalPolicy(p) && IsCanonicalHost(host)
    ensures PolicyDecision(Some(p), host) == SpecifiedDecision([ScopedPolicy(1, p.mode, p.allowlist)], host)
  {
    hide IsCanonicalHost, IsIMDS, MatchAllowlist, ListCovers, Covered, IsNormalList;
    PinnedIsMetadata(host);
    MatchIsCovered(p.allowlist, host);
    NormalCovers(p.allowlist, host);
    var one := ScopedPolicy(1, p.mode, p.allowlist);
    assert [one][0] == one;
  }

  // The decision part of handleConn.
  method Decide(p: Policy?, remote: string, auth: SourceAuthorization?, host: string) returns (d: Decision)
    modifies auth
    ensures p == null ==> d == PolicyDecision(None, host)
    ensures p != null ==> d == Verdict(old(p.Value()), PeerOf(remote), old(Decoded(auth)), host)
  {
    hide PolicyDecision, Scoped, Authorized, SplitHostPort;
    d := PolicyDecision(if p == null then None else Some(p.Value()), host);
    if p != null && p.schema == 2 {
      var split := SplitHostPort(remote);
      var source := if split.Some? then split.value.0 else "";
      var ok := ResolveAuthorization(source, auth);
      if !ok {
        d := Deny("source-authorization-unavailable");
      } else {
        d := ScopedDecision(auth.policies, host);
      }
    }
  }
}
