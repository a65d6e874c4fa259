// Policies: loading, normalisation and allowlist matching.
module Policies {
  import opened Text
  import opened IPText
  import opened Spellings
  import opened CanonicalTexts
  import opened Authority
  import opened Destinations

  datatype PolicyValue = PolicyValue(schema: int, mode: string, allowlist: seq<string>)

  datatype PolicyError = UnsupportedSchema | UnsupportedMode | InvalidEntry

  predicate ValidMode(mode: string) {
    mode == "enforce" || mode == "audit-only"
  }

  function DefaultMode(mode: string): string {
    if mode == "" then "enforce" else mode
  }

  function NormalEntry(entry: string): Option<string> {
    var h := ToLower(Trim(entry, IsSpace));
    var wild := "*." <= h;
    match Destination(if wild then h[2..] else h, "")
    case Bad(_) => None
    case Target(name, port) =>
      if port != "" || (wild && ParseIP(name).Some?) then None
      else Some(if wild then "*." + name else name)
  }

  function NormalEntries(entries: seq<string>): Option<seq<string>> {
    if entries == [] then Some([])
    else
      match (NormalEntry(entries[0]), NormalEntries(entries[1..]))
      case (Some(e), Some(rest)) => Some([e] + rest)
      case _ => None
  }

  function Prepended(done: seq<string>, rest: Option<seq<string>>): Option<seq<string>> {
    match rest
    case None => None
    case Some(list) => Some(done + list)
  }

  function Normalized(p: PolicyValue): Option<PolicyValue> {
    var mode := DefaultMode(p.mode);
    if !ValidMode(mode) then None
    else
      match NormalEntries(p.allowlist)
      case None => None
      case Some(list) => Some(p.(mode := mode, allowlist := list))
  }

  function Loaded(decoded: Option<PolicyValue>): Option<PolicyValue> {
    match decoded
    case None => None
    case Some(p) => if p.schema < 0 || p.schema > 2 then None else Normalized(p)
  }

  // A canonical host, or "*." before a canonical name that is not an address.
  ghost predicate IsNormalEntry(e: string) {
    IsCanonicalHost(e) || ("*." <= e && ValidName(e[2..]) && ParseIP(e[2..]).None?)
  }

  ghost predicate IsNormalList(list: seq<string>) {
    forall e :: e in list ==> IsNormalEntry(e)
  }

  ghost predicate IsNormalPolicy(p: PolicyValue) {
    ValidMode(p.mode) && IsNormalList(p.allowlist)
  }

  // --- Normalisation ---------------------------------------------------------

  lemma TrimFixed(s: string)
    requires s != "" && !IsSpace(s[0]) && !IsSpace(s[|s| - 1])
    ensures Trim(s, IsSpace) == s
  {
  }

  lemma NormalEntryShape(entry: string)
    requires NormalEntry(entry).Some?
    ensures IsNormalEntry(NormalEntry(entry).value)
  {
    hide Destination, ParseIP, PrintIP, ValidName, Trim;
    var h := ToLower(Trim(entry, IsSpace));
    var body := if "*." <= h then h[2..] else h;
    DestinationCanonical(body, "");
    var name := Destination(body, "").host;
    assert ("*." + name)[2..] == name;
    if a :| name == PrintIP(a) {
      PrintRoundTrip(a);
    }
  }

  lemma NormalEntryFixed(e: string)
    requires IsNormalEntry(e)
    ensures NormalEntry(e) == Some(e)
  {
    hide Destination, ParseIP, PrintIP, ValidName, Trim, IsCanonicalHost;
    if IsCanonicalHost(e) {
      HostText(e);
      assert e[0] in e && e[|e| - 1] in e;
      TrimFixed(e);
      LowerFixes(e);
      DestinationIdempotent(e, "");
    } else {
      var name := e[2..];
      assert IsCanonicalHost(name) by { NamesAreCanonical(name); }
      HostText(name);
      assert e == "*." + name;
      assert name[|name| - 1] in name && e[|e| - 1] == name[|name| - 1];
      TrimFixed(e);
      LowerFixes(e);
      DestinationIdempotent(name, "");
    }
  }

  lemma NamesAreCanonical(name: string)
    requires ValidName(name) && ParseIP(name).None?
    ensures IsCanonicalHost(name)
  {
  }

  // White space around it, letter case and one trailing dot do not change the
  // normal form of an entry.
  lemma NormalEntrySpellings(s: string, e: string)
    requires IsNormalEntry(e)
    requires ToLower(Trim(s, IsSpace)) in {e, e + "."}
    ensures NormalEntry(s) == Some(e)
  {
    hide Destination, ParseIP, PrintIP, ValidName, Trim, IsCanonicalHost, ToLower;
    var h := ToLower(Trim(s, IsSpace));
    if IsCanonicalHost(e) {
      HostText(e);
      assert e[0] in e && h[0] == e[0];
      LowerTwice(Trim(s, IsSpace));
      DestinationSpellings(h, e, "");
    } else {
      WildSpelling(h, e);
      NamesAreCanonical(e[2..]);
      LowerTail(Trim(s, IsSpace), 2);
      DestinationSpellings(h[2..], e[2..], "");
    }
  }

  lemma WildSpelling(h: string, e: string)
    requires "*." <= e && h in {e, e + "."}
    ensures "*." <= h && h[2..] in {e[2..], e[2..] + "."} && "*." + e[2..] == e
  {
    if h == e + "." {
      assert h[2..] == e[2..] + ".";
    }
  }

  lemma LowerTwice(s: string)
    ensures ToLower(ToLower(s)) == ToLower(s)
  {
    LowerIdempotent(s);
  }

  lemma LowerTail(s: string, k: nat)
    requires k <= |s|
    ensures ToLower(ToLower(s)[k..]) == ToLower(s)[k..]
  {
    LowerIdempotent(s);
    LowerFixes(ToLower(s)[k..]);
  }

  // How an entry of a policy is written, white space and letter case aside: a host
  // without a port, or "*." before a name without one.
  ghost predicate EntryWritten(t: string, w: Written, e: string) {
    exists h :: Names(w, "", h, "") &&
      ((t == w.Text() && e == h) || (t == "*." + w.Text() && e == "*." + h && forall a :: !Spells(h, a)))
  }

  // Which entries are accepted, and as what.
  lemma NormalEntryExactly(entry: string, e: string)
    ensures NormalEntry(entry) == Some(e) <==> exists w :: EntryWritten(ToLower(Trim(entry, IsSpace)), w, e)
  {
    hide Destination, ParseIP, Trim, ToLower, Names, Spells, Written.Text, EntryWritten;
    var t := ToLower(Trim(entry, IsSpace));
    LowerTwice(Trim(entry, IsSpace));
    if NormalEntry(entry) == Some(e) {
      var w := WrittenEntry(entry, e);
    }
    if w :| EntryWritten(t, w, e) {
      EntryRead(entry, w, e);
    }
  }

  lemma WrittenEntry(entry: string, e: string) returns (w: Written)
    requires NormalEntry(entry) == Some(e)
    ensures EntryWritten(ToLower(Trim(entry, IsSpace)), w, e)
  {
    hide Destination, ParseIP, Trim, ToLower, Names, Spells, Written.Text;
    var t := ToLower(Trim(entry, IsSpace));
    var body := if "*." <= t then t[2..] else t;
    LowerTail(Trim(entry, IsSpace), if "*." <= t then 2 else 0);
    assert t[0..] == t;
    var h := Destination(body, "").host;
    DestinationExactly(body, "", h, "");
    w :| w.Text() == ToLower(body) && Names(w, "", h, "");
    if "*." <= t {
      assert t == "*." + body;
      forall a ensures !Spells(h, a) {
        ParseIPExactly(h, a);
      }
    }
  }

  lemma EntryRead(entry: string, w: Written, e: string)
    requires EntryWritten(ToLower(Trim(entry, IsSpace)), w, e)
    ensures NormalEntry(entry) == Some(e)
  {
    hide Destination, ParseIP, Trim, ToLower, Names, Spells, Written.Text;
    var t := ToLower(Trim(entry, IsSpace));
    var h :| Names(w, "", h, "") &&
      ((t == w.Text() && e == h) || (t == "*." + w.Text() && e == "*." + h && forall a :: !Spells(h, a)));
    NoAsterisk(w, "", h, "");
    LowerTail(Trim(entry, IsSpace), if "*." <= t then 2 else 0);
    assert t[0..] == t;
    DestinationExactly(w.Text(), "", h, "");
    if "*." <= t {
      assert t[2..] == w.Text();
      if ParseIP(h).Some? {
        ParseIPExactly(h, ParseIP(h).value);
      }
    }
  }

  // An entry with a port is refused, however the host and the port are written.
  lemma PortRefused(s: string, w: Written, h: string, p: string)
    requires Names(w, "", h, p) && w.port.Some?
    requires ToLower(Trim(s, IsSpace)) in {w.Text(), "*." + w.Text()}
    ensures NormalEntry(s) == None
  {
    hide Destination, ParseIP, Trim, ToLower, Names, Written.Text;
    var t := ToLower(Trim(s, IsSpace));
    NoAsterisk(w, "", h, p);
    PortNotEmpty(w, h, p);
    LowerTail(Trim(s, IsSpace), if "*." <= t then 2 else 0);
    assert t[0..] == t;
    DestinationExactly(w.Text(), "", h, p);
    assert "*." <= t ==> t[2..] == w.Text();
  }

  lemma PortNotEmpty(w: Written, h: string, p: string)
    requires Names(w, "", h, p) && w.port.Some?
    ensures p != ""
  {
    hide Denotes, Numeral;
  }

  // The same for the joined form that the sidecar itself writes.
  lemma JoinedPortRefused(h: string, p: string)
    requires IsCanonicalHost(h) && IsCanonicalPort(p) && p != ""
    ensures NormalEntry(JoinHostPort(h, p)) == None && NormalEntry("*." + JoinHostPort(h, p)) == None
  {
    hide Destination, ParseIP, Trim, ToLower, Names, IsCanonicalHost, IsCanonicalPort, Written.Text;
    var s := JoinHostPort(h, p);
    JoinedLower(h, p);
    DestinationRejoined(s, h, p, "");
    DestinationExactly(s, "", h, p);
    var w: Written :| w.Text() == ToLower(s) && Names(w, "", h, p);
    JoinedText(h, p);
    JoinedPort(h, p, w);
    TrimFixed(s);
    TrimFixed("*." + s);
    StarLower(s);
    PortRefused(s, w, h, p);
    PortRefused("*." + s, w, h, p);
  }

  lemma JoinedPort(h: string, p: string, w: Written)
    requires p != "" && Names(w, "", h, p)
    ensures w.port.Some?
  {
    hide Denotes, Numeral;
  }

  lemma StarLower(s: string)
    requires ToLower(s) == s
    ensures ToLower("*." + s) == "*." + s
  {
    LowerConcat("*.", s);
    LowerFixes("*.");
  }

  lemma JoinedText(h: string, p: string)
    requires IsCanonicalHost(h) && IsCanonicalPort(p) && p != ""
    ensures var s := JoinHostPort(h, p); s != "" && !IsSpace(s[0]) && !IsSpace(s[|s| - 1])
    ensures !IsSpace('*')
  {
    hide IsCanonicalHost, ColonsPaired, Numeral;
    HostText(h);
    assert h[0] in h;
    var n :| 1 <= n <= 65535 && p == Itoa(n);
    assert DigitOf(p[|p| - 1], 10).Some?;
  }

  lemma {:induction false} NormalEntriesShape(entries: seq<string>)
    requires NormalEntries(entries).Some?
    ensures IsNormalList(NormalEntries(entries).value)
    ensures |NormalEntries(entries).value| == |entries|
  {
    hide NormalEntry, IsNormalEntry;
    if entries != [] {
      NormalEntryShape(entries[0]);
      NormalEntriesShape(entries[1..]);
    }
  }

  lemma {:induction false} NormalEntriesFixed(list: seq<string>)
    requires IsNormalList(list)
    ensures NormalEntries(list) == Some(list)
  {
    hide NormalEntry, IsNormalEntry;
    if list != [] {
      assert list[0] in list && forall e :: e in list[1..] ==> e in list;
      NormalEntryFixed(list[0]);
      NormalEntriesFixed(list[1..]);
      assert [list[0]] + list[1..] == list;
    }
  }

  // Normalising is idempotent, and it always reaches the normal form.
  lemma NormalizeIdempotent(p: PolicyValue)
    requires Normalized(p).Some?
    ensures IsNormalPolicy(Normalized(p).value)
    ensures Normalized(Normalized(p).value) == Normalized(p)
  {
    hide NormalEntries, IsNormalList;
    NormalEntriesShape(p.allowlist);
    NormalEntriesFixed(NormalEntries(p.allowlist).value);
  }

  lemma {:induction false} NormalEntriesExactly(entries: seq<string>, list: seq<string>)
    ensures NormalEntries(entries) == Some(list) <==>
      |list| == |entries| && forall i :: 0 <= i < |entries| ==> NormalEntry(entries[i]) == Some(list[i])
  {
    hide NormalEntry;
    if entries != [] {
      var more := entries[1..];
      if list != [] {
        NormalEntriesExactly(more, list[1..]);
        assert list == [list[0]] + list[1..];
        if |list| == |entries| {
          assert forall i :: 0 <= i < |more| ==> more[i] == entries[i + 1] && list[1..][i] == list[i + 1];
        }
      }
    }
  }

  // loadPolicy, exactly: which decoded files load, and as what. A file without a
  // mode is enforced.
  lemma LoadedExactly(decoded: Option<PolicyValue>, p: PolicyValue)
    ensures Loaded(decoded) == Some(p) <==>
      && decoded.Some? && decoded.value.schema in {0, 1, 2} && p.schema == decoded.value.schema
      && decoded.value.mode in {"", "enforce", "audit-only"}
      && p.mode == (if decoded.value.mode == "audit-only" then "audit-only" else "enforce")
      && |p.allowlist| == |decoded.value.allowlist|
      && forall i :: 0 <= i < |p.allowlist| ==> NormalEntry(decoded.value.allowlist[i]) == Some(p.allowlist[i])
  {
    hide NormalEntries, NormalEntry;
    if decoded.Some? {
      NormalEntriesExactly(decoded.value.allowlist, p.allowlist);
    }
  }

  lemma LoadedIsNormal(decoded: Option<PolicyValue>)
    requires Loaded(decoded).Some?
    ensures IsNormalPolicy(Loaded(decoded).value) && 0 <= Loaded(decoded).value.schema <= 2
  {
    hide NormalEntries, IsNormalPolicy;
    NormalizeIdempotent(decoded.value);
  }

  // The policy object that normalizePolicy rewrites in place, entry by entry.
  class Policy {
    var schema: int
    var mode: string
    var allowlist: seq<string>

    constructor (decoded: PolicyValue)
      ensures Value() == decoded
    {
      schema, mode, allowlist := decoded.schema, decoded.mode, decoded.allowlist;
    }

    function Value(): PolicyValue
      reads this
    {
      PolicyValue(schema, mode, allowlist)
    }

    // On an invalid entry the entries before it have already been rewritten and
    // the rest are untouched; the caller drops the object.
    method Normalize() returns (err: Option<PolicyError>)
      modifies this
      ensures err.None? <==> Normalized(old(Value())).Some?
      ensures err.None? ==> Value() == Normalized(old(Value())).value
      ensures schema == old(schema) && mode == DefaultMode(old(mode)) && |allowlist| == |old(allowlist)|
      ensures err == Some(UnsupportedMode) <==> !ValidMode(mode)
      ensures err == Some(UnsupportedMode) ==> allowlist == old(allowlist)
      ensures err.Some? && ValidMode(mode) ==>
        && err == Some(InvalidEntry)
        && (exists k :: 0 <= k < |allowlist| && NormalEntry(old(allowlist)[k]).None?
              && allowlist[k..] == old(allowlist)[k..]
              && forall j :: 0 <= j < k ==> NormalEntry(old(allowlist)[j]) == Some(allowlist[j]))
    {
      hide NormalEntry, NormalEntries, Prepended;
      ghost var raw := allowlist;
      if mode == "" {
        mode := "enforce";
      }
      if mode != "enforce" && mode != "audit-only" {
        return Some(UnsupportedMode);
      }
      var i := 0;
      NothingDone(raw);
      while i < |allowlist|
        invariant 0 <= i <= |allowlist| == |raw|
        invariant schema == old(schema) && mode == DefaultMode(old(mode)) && ValidMode(mode)
        invariant allowlist[i..] == raw[i..]
        invariant forall j :: 0 <= j < i ==> NormalEntry(raw[j]) == Some(allowlist[j])
        invariant NormalEntries(raw) == Prepended(allowlist[..i], NormalEntries(raw[i..]))
      {
        ghost var done := allowlist[..i];
        assert allowlist[i] == allowlist[i..][0] == raw[i];
        EntryDone(raw, done, i);
        match NormalEntry(allowlist[i]) {
          case None => return Some(InvalidEntry);
          case Some(e) =>
            allowlist := allowlist[i := e];
            assert allowlist[..i + 1] == done + [e];
        }
        i := i + 1;
      }
      AllDone(raw, allowlist);
      return None;
    }
  }

  // The normalisation loop: at the start, one entry on, and at the end.
  lemma NothingDone(raw: seq<string>)
    ensures raw[0..] == raw && NormalEntries(raw) == Prepended(raw[..0], NormalEntries(raw[0..]))
  {
    hide NormalEntries;
    assert raw[0..] == raw && forall rest: seq<string> :: raw[..0] + rest == rest;
  }

  lemma EntryDone(raw: seq<string>, done: seq<string>, i: nat)
    requires i < |raw| && NormalEntries(raw) == Prepended(done, NormalEntries(raw[i..]))
    ensures
      match NormalEntry(raw[i])
      case None => NormalEntries(raw) == None
      case Some(e) => NormalEntries(raw) == Prepended(done + [e], NormalEntries(raw[i + 1..]))
  {
    hide NormalEntry, NormalEntries;
    EntriesStep(raw[i], raw[i + 1..]);
    assert raw[i..] == [raw[i]] + raw[i + 1..];
    match (NormalEntry(raw[i]), NormalEntries(raw[i + 1..])) {
      case (Some(e), Some(rest)) => Grouped(done, [e], rest);
      case _ =>
    }
  }

  lemma EntriesStep(entry: string, more: seq<string>)
    ensures NormalEntries([entry] + more) ==
      match (NormalEntry(entry), NormalEntries(more))
      case (Some(e), Some(rest)) => Some([e] + rest)
      case _ => None
  {
    hide NormalEntry;
    assert ([entry] + more)[1..] == more;
  }

  lemma AllDone(raw: seq<string>, done: seq<string>)
    requires |done| == |raw| && NormalEntries(raw) == Prepended(done[..|raw|], NormalEntries(raw[|raw|..]))
    ensures NormalEntries(raw) == Some(done)
  {
    hide NormalEntry;
    assert raw[|raw|..] == [] && done[..|raw|] + [] == done;
  }

  // loadPolicy, from the decoded file on: an unreadable, oversized or malformed
  // file arrives as None.
  method LoadPolicy(decoded: Option<PolicyValue>) returns (p: Policy?)
    ensures p == null <==> Loaded(decoded).None?
    ensures p != null ==> fresh(p) && Some(p.Value()) == Loaded(decoded)
  {
    hide Normalized;
    if decoded.None? || decoded.value.schema < 0 || decoded.value.schema > 2 {
      return null;
    }
    p := new Policy(decoded.value);
    var err := p.Normalize();
    if err.Some? {
      return null;
    }
  }

  // --- Matching ----------------------------------------------------------------

  predicate EntryMatches(entry: string, h: string) {
    || entry == h
    || ("*." <= entry
        && ((HasSuffix(h, entry[1..]) && |h| > |entry| - 1) || h == entry[2..]))
  }

  predicate AnyMatches(allowlist: seq<string>, h: string) {
    allowlist != [] && (EntryMatches(allowlist[0], h) || AnyMatches(allowlist[1..], h))
  }

  predicate MatchAllowlist(allowlist: seq<string>, hostname: string) {
    match Destination(hostname, "")
    case Bad(_) => false
    case Target(h, _) => AnyMatches(allowlist, h)
  }

  // The same question asked of dot-separated labels.
  predicate IsSuffix(a: seq<string>, b: seq<string>) {
    |a| <= |b| && b[|b| - |a|..] == a
  }

  predicate LabelMatch(entry: string, h: string) {
    || entry == h
    || ("*." <= entry && IsSuffix(Split(entry[2..], '.'), Split(h, '.')))
  }

  lemma SuffixToLabels(base: string, h: string)
    requires HasSuffix(h, "." + base)
    ensures IsSuffix(Split(base, '.'), Split(h, '.'))
  {
    hide Split;
    var front := h[..|h| - |base| - 1];
    assert h == front + h[|front|..] == front + ("." + base) == front + "." + base;
    SplitAppend(front, base, '.');
  }

  lemma SuffixFromParts(front: string, base: string, h: string)
    requires h == front + ['.'] + base && h[0] != '.'
    ensures HasSuffix(h, "." + base) && |h| > |base| + 1
  {
    assert h[|front|..] == "." + base;
  }

  lemma SuffixCut(tail: seq<string>, all: seq<string>)
    requires IsSuffix(tail, all)
    ensures |tail| <= |all| && all == all[..|all| - |tail|] + tail
    ensures |tail| == |all| ==> tail == all
  {
  }

  lemma PartsToSuffix(tail: seq<string>, all: seq<string>, base: string, h: string)
    requires |tail| >= 1 && IsSuffix(tail, all)
    requires h == Join(all, '.') && base == Join(tail, '.')
    requires h != "" && h[0] != '.'
    ensures h == base || (HasSuffix(h, "." + base) && |h| > |base| + 1)
  {
    hide *;
    SuffixCut(tail, all);
    if |tail| < |all| {
      var front := all[..|all| - |tail|];
      JoinAppend(front, tail, '.');
      SuffixFromParts(Join(front, '.'), base, h);
    }
  }

  lemma LabelsToSuffix(base: string, h: string)
    requires IsSuffix(Split(base, '.'), Split(h, '.'))
    requires h != "" && h[0] != '.'
    ensures h == base || (HasSuffix(h, "." + base) && |h| > |base| + 1)
  {
    hide *;
    JoinSplit(h, '.');
    JoinSplit(base, '.');
    PartsToSuffix(Split(base, '.'), Split(h, '.'), base, h);
  }

  // On canonical hosts the textual test is exactly the label test.
  lemma EntryMatchesByLabels(entry: string, h: string)
    requires IsCanonicalHost(h)
    ensures EntryMatches(entry, h) <==> LabelMatch(entry, h)
  {
    hide Split, IsCanonicalHost;
    HostText(h);
    if "*." <= entry {
      var base := entry[2..];
      assert entry[1..] == "." + base;
      if IsSuffix(Split(base, '.'), Split(h, '.')) {
        LabelsToSuffix(base, h);
      }
      if HasSuffix(h, "." + base) {
        SuffixToLabels(base, h);
      }
    }
  }

  lemma {:induction false} AnyMatchesExists(allowlist: seq<string>, h: string)
    ensures AnyMatches(allowlist, h) <==> exists e :: e in allowlist && EntryMatches(e, h)
  {
    hide EntryMatches;
    if allowlist != [] {
      AnyMatchesExists(allowlist[1..], h);
      assert allowlist == [allowlist[0]] + allowlist[1..];
    }
  }

  // matchAllowlist, on every host text: some entry covers the canonical host by
  // labels.
  lemma MatchByLabels(allowlist: seq<string>, hostname: string)
    ensures MatchAllowlist(allowlist, hostname) <==>
      && Destination(hostname, "").Target?
      && exists e :: e in allowlist && LabelMatch(e, Destination(hostname, "").host)
  {
    hide EntryMatches, LabelMatch, AnyMatches, Destination, IsCanonicalHost;
    if Destination(hostname, "").Target? {
      var h := Destination(hostname, "").host;
      DestinationCanonical(hostname, "");
      AnyMatchesExists(allowlist, h);
      forall e ensures EntryMatches(e, h) <==> LabelMatch(e, h) {
        EntryMatchesByLabels(e, h);
      }
    }
  }
}
