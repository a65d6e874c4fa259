// Wildcard entries and addresses. The matching test is textual, and a name may
// have numeric labels, so an entry written for names can cover an IPv4 address.
// This module says exactly which entries do, and which addresses they cover.
module Wildcards {
  import opened Text
  import opened IPText
  import opened Spellings
  import opened CanonicalTexts
  import opened Authority
  import opened Policies

  // The four labels of an IPv4 address.
  function QuadLabels(a: Addr): seq<string> {
    [Itoa(a[6] / 256), Itoa(a[6] % 256), Itoa(a[7] / 256), Itoa(a[7] % 256)]
  }

  // At most three labels, each of them a number from 0 to 255 without leading
  // zeros.
  predicate OctetBase(base: string) {
    var parts := Split(base, '.');
    |parts| <= 3 && forall part :: part in parts ==> ParseOctet(part).Some?
  }

  lemma QuadSplits(a: Addr)
    requires IsMapped(a)
    ensures Split(PrintIP(a), '.') == QuadLabels(a)
    ensures forall part :: part in QuadLabels(a) ==> ParseOctet(part).Some?
  {
    hide Split, ParseOctet, Itoa, PrintV6;
    OctetRoundTrip(a[6] / 256);
    OctetRoundTrip(a[6] % 256);
    OctetRoundTrip(a[7] / 256);
    OctetRoundTrip(a[7] % 256);
    QuadSplit(Itoa(a[6] / 256), Itoa(a[6] % 256), Itoa(a[7] / 256), Itoa(a[7] % 256));
  }

  // A name that is no address never equals the whole of an address text, so only
  // a proper part of an IPv4 address can be covered.
  lemma WildcardOnAddress(base: string, a: Addr)
    requires ValidName(base) && ParseIP(base).None?
    ensures LabelMatch("*." + base, PrintIP(a)) <==>
      IsMapped(a) && OctetBase(base) && IsSuffix(Split(base, '.'), QuadLabels(a))
  {
    hide Split, PrintIP, ParseIP, ValidName, ParseOctet, QuadLabels, Itoa;
    var h := PrintIP(a);
    PrintShape(a);
    PrintRoundTrip(a);
    assert ("*." + base)[2..] == base && ("*." + base)[0] == '*';
    assert h[0] in h && !AddressChar('*');
    JoinSplit(base, '.');
    JoinSplit(h, '.');
    if IsMapped(a) {
      QuadSplits(a);
      assert |QuadLabels(a)| == 4 by { hide *; QuadCount(a); }
    } else {
      AddressUndivided(a);
    }
    if IsSuffix(Split(base, '.'), Split(h, '.')) {
      SuffixCut(Split(base, '.'), Split(h, '.'));
    }
  }

  lemma QuadCount(a: Addr)
    ensures |QuadLabels(a)| == 4
  {
  }

  // Other addresses are written without dots.
  lemma AddressUndivided(a: Addr)
    requires !IsMapped(a)
    ensures |Split(PrintIP(a), '.')| == 1
  {
    hide PrintIP, AddressChar, ColonsPaired;
    PrintShape(a);
    SplitPiece(PrintIP(a), '.');
  }

  // Any four octet labels are those of an address.
  lemma AddressOfLabels(labels: seq<string>) returns (a: Addr)
    requires |labels| == 4 && forall part :: part in labels ==> ParseOctet(part).Some?
    ensures IsMapped(a) && QuadLabels(a) == labels
  {
    hide ParseOctet, Itoa;
    OctetText(labels[0]);
    OctetText(labels[1]);
    OctetText(labels[2]);
    OctetText(labels[3]);
    a := Mapped(ParseOctet(labels[0]).value, ParseOctet(labels[1]).value,
                ParseOctet(labels[2]).value, ParseOctet(labels[3]).value);
    assert a[..6] == [0, 0, 0, 0, 0, 0xffff];
  }

  lemma AddressEnding(parts: seq<string>) returns (a: Addr)
    requires 1 <= |parts| <= 3 && forall part :: part in parts ==> ParseOctet(part).Some?
    ensures IsMapped(a) && IsSuffix(parts, QuadLabels(a))
  {
    hide ParseOctet, IsMapped, QuadLabels;
    OctetRoundTrip(0);
    var zeros := seq(4 - |parts|, _ => Itoa(0));
    var labels := zeros + parts;
    a := AddressOfLabels(labels);
    assert labels[4 - |parts|..] == parts;
  }

  // A normalised wildcard covers some address exactly when its base has at most
  // three labels, all of them octets.
  lemma WildcardCoversAddress(base: string)
    requires ValidName(base) && ParseIP(base).None?
    ensures (exists a :: LabelMatch("*." + base, PrintIP(a))) <==> OctetBase(base)
  {
    hide LabelMatch, PrintIP, ParseIP, ValidName, ParseOctet, QuadLabels, Split, IsMapped;
    if OctetBase(base) {
      var a := AddressEnding(Split(base, '.'));
      WildcardOnAddress(base, a);
    }
    if a :| LabelMatch("*." + base, PrintIP(a)) {
      WildcardOnAddress(base, a);
    }
  }

  ghost predicate CoversByOctets(e: string, a: Addr) {
    "*." <= e && IsMapped(a) && OctetBase(e[2..]) && IsSuffix(Split(e[2..], '.'), QuadLabels(a))
  }

  // Which addresses a normalised allowlist admits: those it lists, and those
  // ending in the octets of one of its wildcards.
  lemma AddressesAdmitted(allowlist: seq<string>, a: Addr)
    requires IsNormalList(allowlist)
    ensures MatchAllowlist(allowlist, PrintIP(a)) <==>
      PrintIP(a) in allowlist || exists e :: e in allowlist && CoversByOctets(e, a)
  {
    hide LabelMatch, PrintIP, CoversByOctets, Destination, AnyMatches, IsNormalEntry;
    DestinationIdempotent(PrintIP(a), "");
    MatchByLabels(allowlist, PrintIP(a));
    forall e | e in allowlist ensures LabelMatch(e, PrintIP(a)) <==> e == PrintIP(a) || CoversByOctets(e, a) {
      EntryOnAddress(e, a);
    }
  }

  lemma EntryOnAddress(e: string, a: Addr)
    requires IsNormalEntry(e)
    ensures LabelMatch(e, PrintIP(a)) <==> e == PrintIP(a) || CoversByOctets(e, a)
  {
    hide Split, PrintIP, ParseIP, ValidName, QuadLabels, OctetBase, IsSuffix, IsMapped, IsCanonicalHost, ColonsPaired;
    if IsCanonicalHost(e) {
      NoWildcard(e);
    }
    if "*." <= e {
      assert e == "*." + e[2..];
      WildcardOnAddress(e[2..], a);
    }
  }

  lemma NoWildcard(h: string)
    requires IsCanonicalHost(h)
    ensures !("*." <= h)
  {
    hide IsCanonicalHost, ColonsPaired;
    HostText(h);
    assert h[0] in h && !NameChar('*');
  }

  // The concrete case: *.2.3.4 is accepted as a wildcard over names, and admits
  // the address 1.2.3.4.
  lemma WildcardAdmitsAddress()
    ensures NormalEntry("*.2.3.4") == Some("*.2.3.4")
    ensures MatchAllowlist(["*.2.3.4"], "1.2.3.4") && ParseIP("1.2.3.4") == Some(Mapped(1, 2, 3, 4))
  {
    hide PrintIP, ParseIP, NormalEntry, OctetBase, Split, QuadLabels, Mapped, ValidName, MatchAllowlist, IsMapped;
    var a := Mapped(1, 2, 3, 4);
    SmallTexts();
    SmallBase();
    PrintRoundTrip(a);
    assert "*.2.3.4"[2..] == "2.3.4";
    NormalEntryFixed("*.2.3.4");
    assert CoversByOctets("*.2.3.4", a);
    AddressesAdmitted(["*.2.3.4"], a);
  }

  lemma SmallTexts()
    ensures PrintIP(Mapped(1, 2, 3, 4)) == "1.2.3.4" && IsMapped(Mapped(1, 2, 3, 4))
    ensures QuadLabels(Mapped(1, 2, 3, 4)) == ["1", "2", "3", "4"]
  {
    hide PrintIP, Numeral;
    SmallNumerals();
    PrintMapped(1, 2, 3, 4);
    assert Mapped(1, 2, 3, 4)[..6] == [0, 0, 0, 0, 0, 0xffff];
    assert "1" + "." + "2" == "1.2";
    assert "1.2" + "." + "3" == "1.2.3";
    assert "1.2.3" + "." + "4" == "1.2.3.4";
  }

  lemma SmallNumerals()
    ensures Itoa(1) == "1" && Itoa(2) == "2" && Itoa(3) == "3" && Itoa(4) == "4"
  {
  }

  lemma SmallBase()
    ensures Split("2.3.4", '.') == ["2", "3", "4"]
    ensures ValidName("2.3.4") && ParseIP("2.3.4").None? && OctetBase("2.3.4")
  {
    hide ParseOctet, ParseV6, Split, Itoa;
    SplitPiece("2", '.');
    SplitPiece("3", '.');
    SplitPiece("4", '.');
    SplitAppend("2", "3", '.');
    SplitAppend("2.3", "4", '.');
    assert "2" + ['.'] + "3" == "2.3" && "2.3" + ['.'] + "4" == "2.3.4";
    SmallNumerals();
    OctetRoundTrip(2);
    OctetRoundTrip(3);
    OctetRoundTrip(4);
  }
}
