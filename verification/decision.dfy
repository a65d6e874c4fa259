// The verdict on a host: metadata pinning, one policy, and the intersection of
// the policies that apply to one source.
module Decisions {
  import opened Text
  import opened IPText
  import opened Spellings
  import opened CanonicalTexts
  import opened Authority
  import opened Destinations
  import opened Policies

  // --- Metadata endpoints -------------------------------------------------------

  const METADATA_NAME := "metadata.google.internal"
  const IMDS_V4 := "169.254.169.254"
  const ECS_V4 := "169.254.170.2"
  const IMDS_V6 := "fd00:ec2::254"

  const METADATA_HOSTS := {IMDS_V4, METADATA_NAME, ECS_V4, IMDS_V6}

  predicate IsIMDS(host: string) {
    match Destination(host, "")
    case Bad(_) => true
    case Target(h, _) => h in METADATA_HOSTS
  }

  // The same endpoints as addresses rather than texts.
  predicate IsMetadataAddress(a: Addr) {
    || a == Mapped(169, 254, 169, 254)
    || a == Mapped(169, 254, 170, 2)
    || a == METADATA_V6
  }

  lemma Numerals()
    ensures Itoa(2) == "2" && Itoa(169) == "169" && Itoa(170) == "170" && Itoa(254) == "254"
  {
    assert Numeral(1, 10) == "1";
    assert Numeral(2, 10) == "2";
    assert Numeral(16, 10) == "16";
    assert Numeral(17, 10) == "17";
    assert Numeral(25, 10) == "25";
  }

  lemma MetadataV4Texts()
    ensures PrintIP(Mapped(169, 254, 169, 254)) == IMDS_V4
    ensures PrintIP(Mapped(169, 254, 170, 2)) == ECS_V4
  {
    hide Itoa, Numeral, PrintIP, Mapped;
    Numerals();
    PrintMapped(169, 254, 169, 254);
    PrintMapped(169, 254, 170, 2);
    assert "169" + "." + "254" == "169.254";
    assert "169.254" + "." + "169" == "169.254.169";
    assert "169.254" + "." + "170" == "169.254.170";
    assert "169.254.169" + "." + "254" == "169.254.169.254";
    assert "169.254.170" + "." + "2" == "169.254.170.2";
  }

  lemma HexNumerals()
    ensures Numeral(0xfd00, 16) == "fd00" && Numeral(0xec2, 16) == "ec2" && Numeral(0x254, 16) == "254"
  {
    assert Numeral(0xf, 16) == "f";
    assert Numeral(0xfd, 16) == "fd";
    assert Numeral(0xfd0, 16) == "fd0";
    assert Numeral(0xe, 16) == "e";
    assert Numeral(0xec, 16) == "ec";
    assert Numeral(0x2, 16) == "2";
    assert Numeral(0x25, 16) == "25";
  }

  const METADATA_V6: Addr := [0xfd00, 0xec2, 0, 0, 0, 0, 0, 0x254]

  lemma MetadataV6Zeros()
    ensures var a := METADATA_V6;
      && ZeroRun(a, 0) == 0 && ZeroRun(a, 1) == 1 && ZeroRun(a, 2) == 7 && ZeroRun(a, 3) == 7
      && ZeroRun(a, 4) == 7 && ZeroRun(a, 5) == 7 && ZeroRun(a, 6) == 7 && ZeroRun(a, 7) == 7
  {
  }

  // Once the run from 2 to 7 is found, no later start beats it.
  lemma MetadataV6Rest(i: nat)
    requires 3 <= i <= 8
    ensures LongestRun(METADATA_V6, i, (2, 7)) == (2, 7)
    decreases 8 - i
  {
    hide ZeroRun;
    if i < 8 {
      MetadataV6Zeros();
      MetadataV6Rest(i + 1);
    }
  }

  lemma MetadataV6Run()
    ensures LongestRun(METADATA_V6, 0, (8, 8)) == (2, 7)
  {
    hide ZeroRun;
    MetadataV6Zeros();
    MetadataV6Rest(3);
    assert LongestRun(METADATA_V6, 2, (8, 8)) == (2, 7);
    assert LongestRun(METADATA_V6, 1, (8, 8)) == (2, 7);
  }

  lemma MetadataV6Text()
    ensures PrintIP(METADATA_V6) == IMDS_V6
  {
    hide Numeral, LongestRun, ZeroRun;
    var a := METADATA_V6;
    assert !IsMapped(a) by {
      assert a[..6][0] != 0;
    }
    HexNumerals();
    MetadataV6Run();
    assert a[..2] == [0xfd00, 0xec2] && a[7..] == [0x254];
    assert HexGroups([0x254]) == "254";
    assert [0xfd00, 0xec2][1..] == [0xec2];
    assert HexGroups([0xfd00, 0xec2]) == "fd00" + ":" + "ec2" == "fd00:ec2";
  }

  lemma MetadataNameIsNoAddress(a: Addr)
    ensures PrintIP(a) != METADATA_NAME
  {
    hide PrintIP;
    PrintShape(a);
    assert METADATA_NAME[0] == 'm' && !AddressChar('m');
  }

  // Metadata pinning is by value: the text of an address is pinned exactly when
  // the address is a metadata address.
  lemma PinnedByValue(a: Addr)
    ensures IsIMDS(PrintIP(a)) <==> IsMetadataAddress(a)
  {
    hide PrintIP, Destination, Mapped;
    assert IsCanonicalHost(PrintIP(a));
    DestinationIdempotent(PrintIP(a), "");
    MetadataV4Texts();
    MetadataV6Text();
    MetadataNameIsNoAddress(a);
    if PrintIP(a) == IMDS_V4 {
      PrintInjective(a, Mapped(169, 254, 169, 254));
    } else if PrintIP(a) == ECS_V4 {
      PrintInjective(a, Mapped(169, 254, 170, 2));
    } else if PrintIP(a) == IMDS_V6 {
      PrintInjective(a, METADATA_V6);
    }
  }

  // No spelling of a metadata endpoint escapes: an accepted authority is pinned
  // exactly when its host is the metadata name or denotes a metadata address.
  lemma NoSpellingEscapes(authority: string, defaultPort: string)
    requires Destination(authority, defaultPort).Target?
    ensures
      var h := Destination(authority, defaultPort).host;
      IsIMDS(authority) <==>
        h == METADATA_NAME || (ParseIP(h).Some? && IsMetadataAddress(ParseIP(h).value))
  {
    hide PrintIP, ParseIP, Destination, Mapped, ValidName;
    var h := Destination(authority, defaultPort).host;
    DefaultPortIrrelevant(authority, defaultPort);
    DestinationCanonical(authority, defaultPort);
    DestinationIdempotent(h, "");
    if a :| h == PrintIP(a) {
      PrintRoundTrip(a);
      PinnedByValue(a);
      MetadataNameIsNoAddress(a);
    } else {
      MetadataTextsParse();
    }
  }

  lemma MetadataTextsParse()
    ensures ParseIP(IMDS_V4).Some? && ParseIP(ECS_V4).Some? && ParseIP(IMDS_V6).Some?
  {
    hide *;
    PrintRoundTrip(Mapped(169, 254, 169, 254));
    PrintRoundTrip(Mapped(169, 254, 170, 2));
    PrintRoundTrip(METADATA_V6);
    MetadataV4Texts();
    MetadataV6Text();
  }

  // --- However it is written -----------------------------------------------------------

  lemma MetadataByText(a: Addr)
    ensures IsMetadataAddress(a) <==>
      Spells("169.254.169.254", a) || Spells("169.254.170.2", a) || Spells("fd00:ec2::254", a)
  {
    hide Spells, Mapped, PrintIP, ParseIP, METADATA_V6;
    MetadataV4Texts();
    MetadataV6Text();
    PrintRoundTrip(Mapped(169, 254, 169, 254));
    PrintRoundTrip(Mapped(169, 254, 170, 2));
    PrintRoundTrip(METADATA_V6);
    ParseIPExactly(IMDS_V4, a);
    ParseIPExactly(ECS_V4, a);
    ParseIPExactly(IMDS_V6, a);
  }

  // An accepted authority is pinned exactly when the host that is written there is
  // the metadata name or a spelling of a metadata address.
  lemma PinnedAsWritten(authority: string, w: Written, host: string, port: string)
    requires w.Text() == ToLower(authority) && Names(w, "", host, port)
    ensures IsIMDS(authority) <==>
      w.name == "metadata.google.internal" || exists a :: Spells(w.name, a) && IsMetadataAddress(a)
  {
    hide Spells, PrintIP, ParseIP, ToLower, Destination, PortIs, Written.Text, IsName, IsMetadataAddress;
    DestinationExactly(authority, "", host, port);
    NoSpellingEscapes(authority, "");
    if a :| Spells(w.name, a) && host == PrintIP(a) {
      PrintRoundTrip(a);
      MetadataNameIsNoAddress(a);
      NameNotSpelled();
      ParseIPExactly(w.name, a);
      forall b | Spells(w.name, b) ensures b == a {
        ParseIPExactly(w.name, b);
      }
    } else if ParseIP(host).Some? {
      ParseIPExactly(w.name, ParseIP(host).value);
    }
  }

  lemma NameNotSpelled()
    ensures ParseIP(METADATA_NAME).None?
  {
    hide ParseIP, MadeOf;
    if ParseIP(METADATA_NAME).Some? {
      SpelledShape(METADATA_NAME, ParseIP(METADATA_NAME).value);
      assert MadeOf(METADATA_NAME, true, true) ==> SpellingChar('m') by { FirstMade(METADATA_NAME); }
    }
  }

  lemma FirstMade(s: string)
    requires MadeOf(s, true, true)
    ensures SpellingChar(s[0])
  {
    hide SpellingChar;
  }

  // For every address, every spelling of it, in letters of either case, and every
  // way to write an authority around it.
  lemma SpelledAddressPinned(w: Written, a: Addr, port: string)
    requires w.Valid() && Spells(w.name, a) && PortIs(w.PortOr(""), port)
    ensures Destination(w.Text(), "") == Target(PrintIP(a), port)
    ensures IsIMDS(w.Text()) <==> IsMetadataAddress(a)
  {
    hide Spells, PrintIP, ParseIP, Destination, PortIs, Written.Text, IsMetadataAddress;
    AddressDestination(w, a, "", port);
    NoSpellingEscapes(w.Text(), "");
    PrintRoundTrip(a);
    MetadataNameIsNoAddress(a);
  }

  // The same for the metadata name.
  lemma MetadataNamePinned(w: Written, port: string)
    requires w.Valid() && ToLower(w.name) == "metadata.google.internal" && PortIs(w.PortOr(""), port)
    ensures Destination(w.Text(), "") == Target("metadata.google.internal", port) && IsIMDS(w.Text())
  {
    hide Spells, ParseIP, Destination, PortIs, Written.Text, ToLower, IsName;
    LowerWritten(w);
    ColonLowered(w.name);
    MetadataNameIsName();
    NameNotSpelled();
    forall a ensures !Spells(METADATA_NAME, a) {
      ParseIPExactly(METADATA_NAME, a);
    }
    var w' := w.(name := METADATA_NAME);
    assert Names(w', "", METADATA_NAME, port);
    DestinationExactly(w.Text(), "", METADATA_NAME, port);
    NoSpellingEscapes(w.Text(), "");
  }

  lemma MetadataNameIsName()
    ensures IsName(METADATA_NAME)
  {
    hide IsNameChar;
    var labels := ["metadata", "google", "internal"];
    assert labels[1..] == ["google", "internal"] && labels[1..][1..] == ["internal"];
    assert "metadata" + "." + ("google" + "." + "internal") == METADATA_NAME;
    LettersOnly("metadata");
    LettersOnly("google");
    LettersOnly("internal");
    assert AllLabels(labels);
  }

  lemma LettersOnly(part: string)
    requires 1 <= |part| <= 63 && forall i :: 0 <= i < |part| ==> 'a' <= part[i] <= 'z'
    ensures IsLabel(part)
  {
    forall i | 0 <= i < |part| ensures IsNameChar(part[i]) && part[i] != '-' {
      LetterTable(part[i]);
    }
  }

  lemma PortEighty()
    ensures PortIs("80", "80")
  {
    assert Numeral(8, 10) == "8" && Itoa(80) == "80";
    assert AllZeros("") && "" + Itoa(80) == "80";
    assert NumberSpelled("80", 80);
  }

  lemma PinnedOnEighty(name: string, brackets: bool, a: Addr)
    requires Spells(name, a) && IsMetadataAddress(a) && (brackets || ':' !in name)
    ensures IsIMDS(if brackets then "[" + name + "]:80" else name + ":80")
  {
    hide *;
    PortEighty();
    WrittenEighty(name, brackets);
    SpelledAddressPinned(Written(name, false, brackets, Some("80")), a, "80");
  }

  // The spellings the program's own tests try.
  lemma TriedSpellings()
    ensures IsIMDS("169.254.170.2:80") && IsIMDS("METADATA.GOOGLE.INTERNAL.")
    ensures IsIMDS("[::ffff:169.254.169.254]:80") && IsIMDS("[fd00:ec2::254]:80")
  {
    hide *;
    NoPort();
    TriedTexts();
    MetadataSpelled();
    MetadataThemselves();
    PinnedOnEighty(ECS_V4, false, Mapped(169, 254, 170, 2));
    PinnedOnEighty("::ffff:169.254.169.254", true, Mapped(169, 254, 169, 254));
    PinnedOnEighty(IMDS_V6, true, METADATA_V6);
    UpperName();
    WrittenBare("METADATA.GOOGLE.INTERNAL", true);
    MetadataNamePinned(Written("METADATA.GOOGLE.INTERNAL", true, false, None), "");
  }

  lemma TriedTexts()
    ensures ECS_V4 + ":80" == "169.254.170.2:80" && ':' !in ECS_V4
    ensures "[" + IMDS_V6 + "]:80" == "[fd00:ec2::254]:80"
    ensures "[" + "::ffff:169.254.169.254" + "]:80" == "[::ffff:169.254.169.254]:80"
    ensures "METADATA.GOOGLE.INTERNAL" + "." == "METADATA.GOOGLE.INTERNAL."
  {
    assert "[" + "fd00:ec2::254" == "[fd00:ec2::254";
    assert "[" + "::ffff:169.254.169.254" == "[::ffff:169.254.169.254";
  }

  lemma WrittenBare(name: string, dot: bool)
    ensures
      var w := Written(name, dot, false, None);
      w.Valid() && w.Text() == (if dot then name + "." else name) && w.PortOr("") == ""
  {
  }

  lemma WrittenEighty(name: string, brackets: bool)
    requires brackets || ':' !in name
    ensures
      var w := Written(name, false, brackets, Some("80"));
      && w.Valid() && w.PortOr("") == "80"
      && w.Text() == if brackets then "[" + name + "]:80" else name + ":80"
  {
    BracketedText(name, "80");
  }

  lemma MetadataThemselves()
    ensures IsMetadataAddress(Mapped(169, 254, 169, 254)) && IsMetadataAddress(Mapped(169, 254, 170, 2))
    ensures IsMetadataAddress(METADATA_V6)
  {
  }

  lemma NoPort()
    ensures PortIs("", "")
  {
  }

  lemma UpperName()
    ensures ToLower("METADATA.GOOGLE.INTERNAL") == "metadata.google.internal"
  {
  }

  lemma MetadataSpelled()
    ensures Spells(IMDS_V4, Mapped(169, 254, 169, 254)) && Spells(ECS_V4, Mapped(169, 254, 170, 2))
    ensures Spells("::ffff:169.254.169.254", Mapped(169, 254, 169, 254)) && Spells(IMDS_V6, METADATA_V6)
  {
    hide Spells, ParseIP, PrintIP, METADATA_V6, Itoa;
    MetadataV4Texts();
    MetadataV6Text();
    PrintRoundTrip(Mapped(169, 254, 169, 254));
    PrintRoundTrip(Mapped(169, 254, 170, 2));
    PrintRoundTrip(METADATA_V6);
    ParseIPExactly(IMDS_V4, Mapped(169, 254, 169, 254));
    ParseIPExactly(ECS_V4, Mapped(169, 254, 170, 2));
    ParseIPExactly(IMDS_V6, METADATA_V6);
    var q := Quad(169, 254, 169, 254);
    PrintMapped(169, 254, 169, 254);
    MappedSpelled(q);
    assert q.Text() == IMDS_V4 && q.Address() == Mapped(169, 254, 169, 254);
    assert "::ffff:" + IMDS_V4 == "::ffff:169.254.169.254";
  }

  // --- One policy ------------------------------------------------------------------

  datatype Decision = Decision(allowed: bool, audit: bool, reason: string)

  function Deny(reason: string): Decision {
    Decision(false, false, reason)
  }

  function PolicyDecision(p: Option<PolicyValue>, host: string): Decision {
    if IsIMDS(host) then Deny("imds-pin")
    else if p.None? then Deny("no-policy")
    else if p.value.mode != "enforce" && p.value.mode != "audit-only" then Deny("invalid-policy-mode")
    else if MatchAllowlist(p.value.allowlist, host) then Decision(true, false, "")
    else if p.value.mode == "audit-only" then Decision(true, true, "not-in-allowlist")
    else Deny("not-in-allowlist")
  }

  // The decision sees the authority only through its canonical host.
  lemma DecisionByCanonicalHost(p: Option<PolicyValue>, authority: string, defaultPort: string)
    requires Destination(authority, defaultPort).Target?
    ensures PolicyDecision(p, authority) == PolicyDecision(p, Destination(authority, defaultPort).host)
  {
    hide Destination, AnyMatches, METADATA_HOSTS;
    DefaultPortIrrelevant(authority, defaultPort);
    DestinationRoundTrip(authority, defaultPort, "");
  }

  // Fail closed: what an allowed connection has passed, and when it is logged.
  lemma DecisionFailsClosed(p: Option<PolicyValue>, host: string)
    ensures
      var d := PolicyDecision(p, host);
      var t := Destination(host, "");
      var covered := p.Some? && t.Target? && exists e :: e in p.value.allowlist && LabelMatch(e, t.host);
      && (d.allowed <==>
            && t.Target? && t.host !in METADATA_HOSTS
            && p.Some? && ValidMode(p.value.mode)
            && (covered || p.value.mode == "audit-only"))
      && (d.audit <==> d.allowed && !covered)
      && (d.reason == "" <==> d.allowed && !d.audit)
  {
    hide Destination, AnyMatches, LabelMatch, METADATA_HOSTS;
    if p.Some? {
      MatchByLabels(p.value.allowlist, host);
    }
  }

  // --- The policies of one source ------------------------------------------------

  datatype ScopedPolicy = ScopedPolicy(id: int, mode: string, allowlist: seq<string>)

  function DecideScoped(p: ScopedPolicy, host: string): Decision {
    PolicyDecision(Some(PolicyValue(0, p.mode, p.allowlist)), host)
  }

  function ScopedFrom(policies: seq<ScopedPolicy>, host: string, audited: bool): Decision {
    if policies == [] then
      if audited then Decision(true, true, "not-in-allowlist") else Decision(true, false, "")
    else
      var d := DecideScoped(policies[0], host);
      if !d.allowed then Deny(d.reason)
      else ScopedFrom(policies[1..], host, audited || d.audit)
  }

  function Scoped(policies: seq<ScopedPolicy>, host: string): Decision {
    if policies == [] then Deny("no-source-policy") else ScopedFrom(policies, host, false)
  }

  // A missing authorization and one without policies are the same thing here.
  method ScopedDecision(policies: seq<ScopedPolicy>, host: string) returns (d: Decision)
    ensures d == Scoped(policies, host)
  {
    hide PolicyDecision;
    if |policies| == 0 {
      return Deny("no-source-policy");
    }
    var audited := false;
    var i := 0;
    assert policies[0..] == policies;
    while i < |policies|
      invariant 0 <= i <= |policies|
      invariant Scoped(policies, host) == ScopedFrom(policies[i..], host, audited)
    {
      var one := DecideScoped(policies[i], host);
      if !one.allowed {
        return Deny(one.reason);
      }
      audited := audited || one.audit;
      i := i + 1;
    }
    return if audited then Decision(true, true, "not-in-allowlist") else Decision(true, false, "");
  }

  predicate ValidModes(policies: seq<ScopedPolicy>) {
    forall p :: p in policies ==> ValidMode(p.mode)
  }

  ghost predicate EnforceAllMatch(policies: seq<ScopedPolicy>, host: string) {
    forall p :: p in policies && p.mode == "enforce" ==> MatchAllowlist(p.allowlist, host)
  }

  ghost predicate SomeAuditMisses(policies: seq<ScopedPolicy>, host: string) {
    exists p :: p in policies && p.mode == "audit-only" && !MatchAllowlist(p.allowlist, host)
  }

  // The intersection, without order: pinned hosts are refused, every enforce
  // policy must match, audit-only misses are logged.
  ghost function Intersection(policies: seq<ScopedPolicy>, host: string): Decision {
    if IsIMDS(host) then Deny("imds-pin")
    else if !EnforceAllMatch(policies, host) then Deny("not-in-allowlist")
    else if SomeAuditMisses(policies, host) then Decision(true, true, "not-in-allowlist")
    else Decision(true, false, "")
  }

  lemma {:induction false} ScopedFromIntersects(policies: seq<ScopedPolicy>, host: string, audited: bool)
    requires ValidModes(policies) && !IsIMDS(host)
    ensures ScopedFrom(policies, host, audited) ==
      if !EnforceAllMatch(policies, host) then Deny("not-in-allowlist")
      else if audited || SomeAuditMisses(policies, host) then Decision(true, true, "not-in-allowlist")
      else Decision(true, false, "")
  {
    hide IsIMDS, MatchAllowlist;
    if policies != [] {
      var p, rest := policies[0], policies[1..];
      assert p in policies && forall q :: q in policies <==> q == p || q in rest;
      ScopedFromIntersects(rest, host, audited || DecideScoped(p, host).audit);
    }
  }

  lemma ScopedIsIntersection(policies: seq<ScopedPolicy>, host: string)
    requires policies != [] && ValidModes(policies)
    ensures Scoped(policies, host) == Intersection(policies, host)
  {
    hide IsIMDS, MatchAllowlist;
    assert policies[0] in policies;
    if !IsIMDS(host) {
      ScopedFromIntersects(policies, host, false);
    }
  }

  lemma ScopedPermutes(policies: seq<ScopedPolicy>, others: seq<ScopedPolicy>, host: string)
    requires policies != [] && ValidModes(policies)
    requires multiset(policies) == multiset(others)
    ensures Scoped(others, host) == Scoped(policies, host)
  {
    hide IsIMDS, MatchAllowlist;
    assert forall p :: p in policies <==> p in multiset(policies);
    assert forall p :: p in others <==> p in multiset(others);
    ScopedIsIntersection(policies, host);
    ScopedIsIntersection(others, host);
  }

  function Insert(policies: seq<ScopedPolicy>, k: nat, p: ScopedPolicy): (r: seq<ScopedPolicy>)
    requires k <= |policies|
    ensures forall q :: q in r <==> q == p || q in policies
  {
    var r := policies[..k] + [p] + policies[k..];
    assert policies == policies[..k] + policies[k..];
    r
  }

  // An audit-only policy never changes whether a connection is allowed; an
  // enforce policy never turns a refusal into a permission.
  lemma InsertedPolicy(policies: seq<ScopedPolicy>, k: nat, p: ScopedPolicy, host: string)
    requires policies != [] && ValidModes(policies) && ValidMode(p.mode) && k <= |policies|
    ensures
      var before, after := Scoped(policies, host), Scoped(Insert(policies, k, p), host);
      && (p.mode == "audit-only" ==> after.allowed == before.allowed)
      && (p.mode == "audit-only" ==>
            (after.audit <==> before.audit || (before.allowed && !MatchAllowlist(p.allowlist, host))))
      && (p.mode == "enforce" ==>
            (after.allowed <==> before.allowed && MatchAllowlist(p.allowlist, host)))
      && (p.mode == "enforce" ==> (after.audit <==> before.audit && after.allowed))
  {
    hide IsIMDS, MatchAllowlist, Insert;
    var more := Insert(policies, k, p);
    assert p in more;
    ScopedIsIntersection(policies, host);
    ScopedIsIntersection(more, host);
  }

  // Widening one allowlist never turns a permission into a refusal.
  lemma WidenedPolicy(policies: seq<ScopedPolicy>, k: nat, wider: seq<string>, host: string)
    requires k < |policies| && ValidModes(policies)
    requires forall e :: e in policies[k].allowlist ==> e in wider
    ensures
      var before := Scoped(policies, host);
      var after := Scoped(policies[k := policies[k].(allowlist := wider)], host);
      && (before.allowed ==> after.allowed)
      && (before.allowed && after.audit ==> before.audit)
  {
    hide IsIMDS, MatchAllowlist, LabelMatch, Destination;
    var narrow, wide := policies[k], policies[k].(allowlist := wider);
    var after := policies[k := wide];
    assert after[k] == wide && forall j :: 0 <= j < |policies| && j != k ==> after[j] == policies[j];
    assert forall q :: q in after ==> q == wide || q in policies;
    assert forall q :: q in policies ==> q == narrow || q in after;
    assert narrow in policies && wide in after;
    MatchByLabels(narrow.allowlist, host);
    MatchByLabels(wider, host);
    ScopedIsIntersection(policies, host);
    ScopedIsIntersection(after, host);
  }
}
