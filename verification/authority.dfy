// Canonicalisation of an authority ("host", "host:port", "[ipv6]:port"): the
// one place where every policy check and every dial gets its host text from.
module Authority {
  import opened Text
  import opened IPText
  import opened CanonicalTexts

  datatype HostError = EmptyPort | InvalidPort | InvalidHostname | InvalidLabel | InvalidCharacter

  datatype Target = Target(host: string, port: string) | Bad(error: HostError)

  // --- net.SplitHostPort and net.JoinHostPort --------------------------------

  function SplitHostPort(s: string): Option<(string, string)> {
    var i := LastIndexOf(s, ':');
    if i < 0 then None
    else if s[0] == '[' then
      var end := IndexOf(s, ']');
      if end < 0 || end + 1 != i || '[' in s[1..] || ']' in s[end + 1..] then None
      else Some((s[1..end], s[i + 1..]))
    else if ':' in s[..i] || '[' in s || ']' in s then None
    else Some((s[..i], s[i + 1..]))
  }

  function JoinHostPort(host: string, port: string): string {
    if ':' in host then "[" + host + "]:" + port else host + ":" + port
  }

  // --- Host names ---------------------------------------------------------------

  predicate NameChar(c: char) {
    'a' <= c <= 'z' || '0' <= c <= '9' || c == '-'
  }

  predicate AllNameChars(s: string) {
    forall i :: 0 <= i < |s| ==> NameChar(s[i])
  }

  function LabelError(part: string): Option<HostError> {
    if |part| == 0 || |part| > 63 || part[0] == '-' || part[|part| - 1] == '-' then Some(InvalidLabel)
    else if !AllNameChars(part) then Some(InvalidCharacter)
    else None
  }

  function FirstLabelError(labels: seq<string>): Option<HostError> {
    if labels == [] then None
    else
      match LabelError(labels[0])
      case Some(e) => Some(e)
      case None => FirstLabelError(labels[1..])
  }

  // Section 2.3.4 of RFC 1035: labels of 1 to 63 characters, 253 in all.
  predicate ValidLabel(part: string) {
    1 <= |part| <= 63 && part[0] != '-' && part[|part| - 1] != '-' && AllNameChars(part)
  }

  predicate ValidName(h: string) {
    1 <= |h| <= 253 && forall part :: part in Split(h, '.') ==> ValidLabel(part)
  }

  // --- destination -----------------------------------------------------------------

  function Unbracket(h: string): string {
    if |h| >= 2 && h[0] == '[' && h[|h| - 1] == ']' then h[1..|h| - 1] else h
  }

  function CanonicalPort(port: string): Option<string> {
    if port == "" then Some("")
    else
      match Atoi(port)
      case Some(n) => if 1 <= n <= 65535 then Some(Itoa(n)) else None
      case None => None
  }

  function CanonicalHost(h: string, port: string): Target {
    match ParseIP(h)
    case Some(a) => Target(PrintIP(a), port)
    case None =>
      if |h| == 0 || |h| > 253 then Bad(InvalidHostname)
      else
        match FirstLabelError(Split(h, '.'))
        case Some(e) => Bad(e)
        case None => Target(h, port)
  }

  function HostAndPort(h: string, port: string): Target {
    match CanonicalPort(port)
    case None => Bad(InvalidPort)
    case Some(p) => CanonicalHost(TrimSuffix(h, "."), p)
  }

  function Destination(authority: string, defaultPort: string): Target {
    var h := ToLower(authority);
    match SplitHostPort(h)
    case Some((host, port)) => if port == "" then Bad(EmptyPort) else HostAndPort(host, port)
    case None => HostAndPort(Unbracket(h), defaultPort)
  }

  // --- What destination returns ----------------------------------------------------

  ghost predicate IsCanonicalHost(h: string) {
    (exists a :: h == PrintIP(a)) || (ValidName(h) && ParseIP(h).None?)
  }

  ghost predicate IsCanonicalPort(p: string) {
    p == "" || exists n :: 1 <= n <= 65535 && p == Itoa(n)
  }

  lemma {:induction false} LabelsChecked(labels: seq<string>)
    ensures FirstLabelError(labels).None? <==> forall part :: part in labels ==> ValidLabel(part)
  {
    if labels != [] {
      LabelsChecked(labels[1..]);
      assert labels[0] in labels && forall part :: part in labels[1..] ==> part in labels;
      assert LabelError(labels[0]).None? <==> ValidLabel(labels[0]);
    }
  }

  lemma PortShape(port: string)
    requires CanonicalPort(port).Some?
    ensures IsCanonicalPort(CanonicalPort(port).value)
  {
  }

  lemma PortFixed(p: string)
    requires IsCanonicalPort(p)
    ensures CanonicalPort(p) == Some(p)
    ensures IsLower(p) && ':' !in p && '[' !in p && ']' !in p
  {
    if p != "" {
      var n :| 1 <= n <= 65535 && p == Itoa(n);
      AtoiItoa(n);
      assert forall c :: c in p ==> DigitOf(c, 10).Some?;
    }
  }

  lemma HostShape(h: string, p: string)
    requires CanonicalHost(h, p).Target?
    ensures IsCanonicalHost(CanonicalHost(h, p).host) && CanonicalHost(h, p).port == p
  {
    hide ParseIP, PrintIP, ValidLabel, FirstLabelError, Split;
    if ParseIP(h).None? {
      LabelsChecked(Split(h, '.'));
    }
  }

  lemma HostFixed(h: string, p: string)
    requires IsCanonicalHost(h)
    ensures CanonicalHost(h, p) == Target(h, p)
  {
    hide ParseIP, PrintIP, ValidLabel, FirstLabelError, Split;
    if a :| h == PrintIP(a) {
      PrintRoundTrip(a);
    } else {
      LabelsChecked(Split(h, '.'));
    }
  }

  // A canonical host is lower case, carries no bracket and no trailing dot, and
  // cannot be mistaken for host:port.
  lemma NameText(h: string)
    requires ValidName(h)
    ensures forall c :: c in h ==> NameChar(c) || c == '.'
    ensures h != "" && h[0] != '.' && h[|h| - 1] != '.'
  {
    hide ValidLabel;
    JoinSplit(h, '.');
    JoinChars(Split(h, '.'));
  }

  lemma {:induction false} JoinChars(parts: seq<string>)
    requires |parts| >= 1 && forall part :: part in parts ==> ValidLabel(part)
    ensures Join(parts, '.') != "" && Join(parts, '.')[0] != '.'
    ensures forall c :: c in Join(parts, '.') ==> NameChar(c) || c == '.'
    ensures Join(parts, '.')[|Join(parts, '.')| - 1] != '.'
  {
    assert parts[0] in parts;
    if |parts| > 1 {
      assert forall part :: part in parts[1..] ==> part in parts;
      JoinChars(parts[1..]);
    }
  }

  lemma HostText(h: string)
    requires IsCanonicalHost(h)
    ensures h != "" && h[0] != '.' && h[|h| - 1] != '.' && IsLower(h) && '[' !in h && ']' !in h
    ensures forall c :: c in h ==> NameChar(c) || c == ':' || c == '.'
    ensures ColonsPaired(h)
  {
    hide ParseIP, PrintIP, ValidName;
    if a :| h == PrintIP(a) {
      PrintShape(a);
      assert forall c :: c in h ==> AddressChar(c);
    } else {
      assert h != "" by { NonEmptyName(h); }
      NameText(h);
      assert forall i :: 0 <= i < |h| ==> h[i] in h;
    }
  }

  lemma NonEmptyName(h: string)
    requires ValidName(h)
    ensures h != ""
  {
  }

  // Soundness: whatever the spelling, an accepted authority yields a canonical
  // host and a canonical port.
  lemma DestinationCanonical(authority: string, defaultPort: string)
    requires Destination(authority, defaultPort).Target?
    ensures IsCanonicalHost(Destination(authority, defaultPort).host)
    ensures IsCanonicalPort(Destination(authority, defaultPort).port)
  {
    hide CanonicalHost, CanonicalPort, SplitHostPort, ToLower, TrimSuffix;
    var h := ToLower(authority);
    var (host, port) := match SplitHostPort(h) case Some(hp) => hp case None => (Unbracket(h), defaultPort);
    PortShape(port);
    HostShape(TrimSuffix(host, "."), CanonicalPort(port).value);
  }

  // --- Round trips -------------------------------------------------------------------

  lemma BareHostNotSplit(h: string)
    requires ColonsPaired(h) && '[' !in h
    ensures SplitHostPort(h) == None
  {
    var i := LastIndexOf(h, ':');
    if i >= 0 {
      assert h[0] in h;
      var j, k :| 0 <= j < k < |h| && h[j] == ':' && h[k] == ':';
      assert forall x :: i < x < |h| ==> h[x] == h[i + 1..][x - i - 1];
      assert h[..i][j] == ':';
    }
  }

  // A canonical host is its own canonical form.
  lemma DestinationIdempotent(h: string, p: string)
    requires IsCanonicalHost(h) && IsCanonicalPort(p)
    ensures Destination(h, p) == Target(h, p)
  {
    hide IsCanonicalHost, IsCanonicalPort, CanonicalHost, CanonicalPort, SplitHostPort, ColonsPaired;
    HostText(h);
    LowerFixes(h);
    BareHostNotSplit(h);
    assert h[0] in h;
    PortFixed(p);
    HostFixed(h, p);
  }

  lemma BracketedParts(h: string, p: string)
    requires '[' !in h && ']' !in h
    requires ':' !in p && '[' !in p && ']' !in p
    ensures
      var s, e := "[" + h + "]:" + p, |h| + 1;
      && |s| == e + 2 + |p| && s[0] == '[' && s[e] == ']' && s[e + 1] == ':'
      && s[1..e] == h && s[e + 2..] == p
      && ']' !in s[..e] && '[' !in s[1..] && ']' !in s[e + 1..]
  {
    var s, e := "[" + h + "]:" + p, |h| + 1;
    assert s[..e] == "[" + h;
    assert s[1..] == h + ("]:" + p);
    assert s[e + 1..] == ":" + p;
  }

  lemma BracketedSplits(h: string, p: string)
    requires '[' !in h && ']' !in h
    requires ':' !in p && '[' !in p && ']' !in p
    ensures SplitHostPort("[" + h + "]:" + p) == Some((h, p))
  {
    hide LastIndexOf, IndexOf;
    BracketedParts(h, p);
    LastIndexUnique("[" + h + "]:" + p, ':', |h| + 2);
    IndexUnique("[" + h + "]:" + p, ']', |h| + 1);
  }

  lemma PlainSplits(h: string, p: string)
    requires h != "" && ':' !in h && '[' !in h && ']' !in h
    requires ':' !in p && '[' !in p && ']' !in p
    ensures SplitHostPort(h + ":" + p) == Some((h, p))
  {
    hide LastIndexOf, IndexOf;
    var s, i := h + ":" + p, |h|;
    assert s[i + 1..] == p && s[i] == ':' && s[..i] == h;
    LastIndexUnique(s, ':', i);
    assert s[0] == h[0] && h[0] in h;
  }

  lemma LowerAppend(a: string, b: string)
    requires IsLower(a) && IsLower(b)
    ensures IsLower(a + b)
  {
  }

  lemma JoinedLower(h: string, p: string)
    requires IsCanonicalHost(h) && IsCanonicalPort(p)
    ensures ToLower(JoinHostPort(h, p)) == JoinHostPort(h, p)
  {
    hide IsCanonicalHost, IsCanonicalPort, IsLower, ColonsPaired;
    HostText(h);
    PortFixed(p);
    assert IsLower("[") && IsLower("]:") && IsLower(":") by { PunctuationLower(); }
    LowerAppend("[", h);
    LowerAppend("[" + h, "]:");
    LowerAppend("[" + h + "]:", p);
    LowerAppend(h, ":");
    LowerAppend(h + ":", p);
    LowerFixes(JoinHostPort(h, p));
  }

  lemma PunctuationLower()
    ensures IsLower("[") && IsLower("]:") && IsLower(":")
  {
  }

  // Re-joining host and port, with brackets if the host has colons, in any letter
  // case, and canonicalising again changes nothing, whatever the default port.
  lemma DestinationRejoined(s: string, h: string, p: string, defaultPort: string)
    requires IsCanonicalHost(h) && IsCanonicalPort(p) && p != ""
    requires ToLower(s) == JoinHostPort(h, p)
    ensures Destination(s, defaultPort) == Target(h, p)
  {
    hide IsCanonicalHost, IsCanonicalPort, CanonicalHost, CanonicalPort, SplitHostPort, ColonsPaired;
    HostText(h);
    PortFixed(p);
    if ':' in h {
      BracketedSplits(h, p);
    } else {
      PlainSplits(h, p);
    }
    HostFixed(h, p);
  }

  // The fixed points of canonicalisation are exactly the canonical hosts.
  lemma CanonicalIffFixed(h: string)
    ensures IsCanonicalHost(h) <==> Destination(h, "") == Target(h, "")
  {
    hide Destination, IsCanonicalHost;
    if IsCanonicalHost(h) {
      DestinationIdempotent(h, "");
    } else if Destination(h, "").Target? {
      DestinationCanonical(h, "");
    }
  }

  // The main round trip, for every authority the filter accepts.
  lemma DestinationRoundTrip(authority: string, defaultPort: string, otherDefault: string)
    requires Destination(authority, defaultPort).Target?
    ensures
      var t := Destination(authority, defaultPort);
      && Destination(t.host, "") == Target(t.host, "")
      && (t.port != "" ==> Destination(JoinHostPort(t.host, t.port), otherDefault) == t)
  {
    hide Destination, IsCanonicalHost;
    var t := Destination(authority, defaultPort);
    DestinationCanonical(authority, defaultPort);
    DestinationIdempotent(t.host, "");
    if t.port != "" {
      JoinedLower(t.host, t.port);
      DestinationRejoined(JoinHostPort(t.host, t.port), t.host, t.port, otherDefault);
    }
  }

  lemma DottedNotSplit(h: string)
    requires ColonsPaired(h) && '[' !in h
    ensures SplitHostPort(h + ".") == None
  {
    assert ColonsPaired(h + ".") by {
      if ':' in h {
        var i, j :| 0 <= i < j < |h| && h[i] == ':' && h[j] == ':';
        assert (h + ".")[i] == ':' && (h + ".")[j] == ':';
      }
    }
    BareHostNotSplit(h + ".");
  }

  lemma BracketedNotSplit(h: string)
    requires '[' !in h && ']' !in h
    ensures SplitHostPort("[" + h + "]") == None
    ensures Unbracket("[" + h + "]") == h
  {
    hide LastIndexOf, IndexOf;
    var s := "[" + h + "]";
    assert s[..|h| + 1] == "[" + h;
    IndexUnique(s, ']', |h| + 1);
    assert s[1..|s| - 1] == h;
  }

  // Letter case, one trailing dot and brackets around a bare host are spelling:
  // they never change the host an authority names.
  lemma DestinationSpellings(s: string, h: string, p: string)
    requires IsCanonicalHost(h) && IsCanonicalPort(p)
    requires ToLower(s) in {h, h + ".", "[" + h + "]"}
    ensures Destination(s, p) == Target(h, p)
  {
    hide IsCanonicalHost, IsCanonicalPort, CanonicalHost, CanonicalPort, SplitHostPort, ColonsPaired, ToLower;
    HostText(h);
    PortFixed(p);
    HostFixed(h, p);
    assert h[0] in h && (h + ".")[0] == h[0];
    if ToLower(s) == h {
      BareHostNotSplit(h);
    } else if ToLower(s) == h + "." {
      DottedNotSplit(h);
      assert (h + ".")[..|h|] == h;
    } else {
      BracketedNotSplit(h);
    }
  }

  // The default port never influences the host.
  lemma DefaultPortIrrelevant(authority: string, defaultPort: string)
    requires Destination(authority, defaultPort).Target?
    ensures Destination(authority, "").Target?
    ensures Destination(authority, "").host == Destination(authority, defaultPort).host
  {
    hide ParseIP, PrintIP, FirstLabelError, SplitHostPort, ToLower, TrimSuffix, Split;
  }
}
