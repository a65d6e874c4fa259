// The canonical text of an address, which is one of its spellings, and what the
// spellings of addresses look like.
module CanonicalTexts {
  import opened Text
  import opened IPText
  import opened Spellings

  // --- The canonical text is a spelling ------------------------------------------------

  function Numerals(g: seq<U16>): (t: seq<string>)
    ensures |t| == |g|
  {
    seq(|g|, i requires 0 <= i < |g| => Numeral(g[i], 16))
  }

  lemma NumeralsSpell(g: seq<U16>)
    ensures AllGroups(Numerals(g)) && Values(Numerals(g)) == g
  {
    hide Numeral, HexText, HexValue;
    forall i | 0 <= i < |g| ensures IsGroup(Numerals(g)[i]) && GroupValue(Numerals(g)[i]) == g[i] {
      NumeralWidth(g[i], 16);
      HexAgrees(Numeral(g[i], 16));
    }
  }

  lemma {:induction false} HexGroupsListed(g: seq<U16>)
    ensures HexGroupsOrEmpty(g) == Listed(Pieces(Numerals(g), None))
    ensures HexGroupsOrEmpty(g) == Listed(Numerals(g))
  {
    hide Numeral;
    assert Pieces(Numerals(g), None) == Numerals(g);
    if g != [] {
      HexGroupsListed(g[1..]);
      assert Numerals(g) == [Numeral(g[0], 16)] + Numerals(g[1..]);
    }
  }

  function QuadOf(a: Addr): Quad {
    Quad(a[6] / 256, a[6] % 256, a[7] / 256, a[7] % 256)
  }

  function CanonicalV6(a: Addr): Spelling {
    var (z, e) := LongestRun(a, 0, (8, 8));
    if z == 8 then Colons(Numerals(a), None) else Shortened(Numerals(a[..z]), Numerals(a[e..]), None)
  }

  lemma CanonicalV6Spells(a: Addr)
    ensures
      var w := CanonicalV6(a);
      w.Valid() && w.Text() == PrintV6(a) && w.Value() == a && ParseV6(PrintV6(a)) == Some(a)
  {
    hide LongestRun, Numeral, Numerals, IsGroup, GroupValue, HexGroups, Listed, ParseV6;
    var (z, e) := LongestRun(a, 0, (8, 8));
    if z == 8 {
      NumeralsSpell(a);
      HexGroupsListed(a);
      ColonsRead(Numerals(a), None);
    } else {
      NumeralsSpell(a[..z]);
      HexGroupsListed(a[..z]);
      NumeralsSpell(a[e..]);
      HexGroupsListed(a[e..]);
      assert a == a[..z] + Zeros(e - z) + a[e..];
      ShortenedRead(Numerals(a[..z]), Numerals(a[e..]), None);
    }
  }

  lemma CanonicalV4Spells(a: Addr)
    requires IsMapped(a)
    ensures QuadOf(a).Text() == PrintV4(a) && QuadOf(a).Address() == a
  {
    assert a == a[..6] + [a[6], a[7]];
  }

  function Canonical(a: Addr): Spelling {
    if IsMapped(a) then Dotted(QuadOf(a)) else CanonicalV6(a)
  }

  lemma CanonicalSpells(a: Addr)
    ensures Canonical(a).Valid() && Canonical(a).Text() == PrintIP(a) && Canonical(a).Value() == a
  {
    hide CanonicalV6, PrintV6, PrintV4, QuadOf, Quad.Text, Quad.Address;
    if IsMapped(a) {
      CanonicalV4Spells(a);
    } else {
      CanonicalV6Spells(a);
    }
  }

  // Parsing undoes printing, so distinct addresses have distinct texts.
  lemma PrintRoundTrip(a: Addr)
    ensures ParseIP(PrintIP(a)) == Some(a)
  {
    hide PrintIP, ParseIP, Spelling.Text, Spelling.Value, Spelling.Valid, Canonical;
    CanonicalSpells(a);
    SpellingRead(Canonical(a));
  }

  lemma PrintInjective(a: Addr, b: Addr)
    requires PrintIP(a) == PrintIP(b)
    ensures a == b
  {
    hide PrintIP, ParseIP;
    PrintRoundTrip(a);
    PrintRoundTrip(b);
  }

  lemma V4RoundTrip(a: Addr)
    requires IsMapped(a)
    ensures ParseV4(PrintV4(a)) == Some(a)
    ensures ':' !in PrintV4(a)
  {
    hide ParseV4, QuadOf, PrintV4, Quad.Text, Quad.Address;
    CanonicalV4Spells(a);
    QuadParsed(QuadOf(a));
    QuadHasNoColon(QuadOf(a));
  }

  lemma V6RoundTrip(a: Addr)
    ensures ParseV6(PrintV6(a)) == Some(a)
  {
    hide *;
    CanonicalV6Spells(a);
  }

  // An IPv4 address may be written in the mapped form as well.
  lemma MappedSpelled(q: Quad)
    ensures Spells("::ffff:" + q.Text(), q.Address())
    ensures Spells(q.Text(), q.Address())
  {
    hide Quad.Text;
    var w := Shortened([], ["ffff"], Some(q));
    MappedGroup();
    assert IsGroup("ffff") && AllGroups(["ffff"]);
    assert Values(["ffff"]) == [0xffff];
    assert Pieces(["ffff"], Some(q)) == ["ffff"] + [q.Text()];
    ListedStep("ffff", [q.Text()]);
    ListedOne(q.Text());
    ListedNothing();
    assert w.Text() == "::" + ("ffff" + (":" + q.Text())) == "::ffff:" + q.Text();
    assert w.Value() == [] + Zeros(5) + ([0xffff] + q.Groups()) == q.Address();
    assert w.Valid() && Dotted(q).Valid();
  }

  lemma MappedGroup()
    ensures HexText("ffff") && HexValue("ffff") == 0xffff
  {
    hide HexText, HexValue;
    HexAgrees("ffff");
    assert "ffff"[..3] == "fff" && "fff"[..2] == "ff" && "ff"[..1] == "f" && "f"[..0] == "";
    assert NumeralValue("f", 16) == 15;
    assert NumeralValue("ff", 16) == 255;
    assert NumeralValue("fff", 16) == 4095;
  }

  lemma PrintMapped(a: Octet, b: Octet, c: Octet, d: Octet)
    ensures PrintIP(Mapped(a, b, c, d)) == Itoa(a) + "." + Itoa(b) + "." + Itoa(c) + "." + Itoa(d)
  {
    hide Itoa, PrintV6;
    assert Mapped(a, b, c, d)[..6] == [0, 0, 0, 0, 0, 0xffff];
  }

  // --- What an address text looks like ------------------------------------------------

  predicate SpellingChar(c: char) {
    c in LOWER_HEX || c in UPPER_HEX || c == ':' || c == '.'
  }

  // The digits, colons and dots a piece of a text is made of.
  predicate MadeOf(t: string, dots: bool, upper: bool) {
    && t != "" && t[0] != '.' && t[|t| - 1] != '.'
    && forall i :: 0 <= i < |t| ==>
         SpellingChar(t[i]) && (t[i] == '.' ==> dots) && (LowerChar(t[i]) != t[i] ==> upper)
  }

  lemma MadeTogether(t: string, sep: string, u: string, dots: bool, upper: bool)
    requires (t == "" && sep != "") || MadeOf(t, dots, upper)
    requires (u == "" && sep != "") || MadeOf(u, dots, upper)
    requires forall i :: 0 <= i < |sep| ==> sep[i] == ':'
    ensures MadeOf(t + sep + u, dots, upper)
  {
    hide SpellingChar;
    assert SpellingChar(':') by { ColonAllowed(); }
    var s := t + sep + u;
    assert s[|s| - 1] == if u != "" then u[|u| - 1] else sep[|sep| - 1];
  }

  lemma ColonAllowed()
    ensures SpellingChar(':')
  {
  }

  lemma GroupMade(t: string, dots: bool)
    requires IsGroup(t)
    ensures MadeOf(t, dots, true)
  {
  }

  lemma {:induction false} ListedMade(pieces: seq<string>, dots: bool, upper: bool)
    requires forall i :: 0 <= i < |pieces| ==> MadeOf(pieces[i], dots, upper)
    ensures Listed(pieces) == "" || MadeOf(Listed(pieces), dots, upper)
    decreases |pieces|
  {
    hide MadeOf, Join;
    if |pieces| == 1 {
      ListedOne(pieces[0]);
      assert pieces == [pieces[0]];
    } else if pieces != [] {
      ListedMade(pieces[1..], dots, upper);
      ListedStep(pieces[0], pieces[1..]);
      assert pieces == [pieces[0]] + pieces[1..];
      MadeTogether(pieces[0], ":", Listed(pieces[1..]), dots, upper);
      Grouped(pieces[0], ":", Listed(pieces[1..]));
    }
  }

  lemma QuadMade(q: Quad, upper: bool)
    ensures MadeOf(q.Text(), true, upper)
  {
    hide Numeral;
    OctetMade(Itoa(q.a));
    OctetMade(Itoa(q.b));
    OctetMade(Itoa(q.c));
    OctetMade(Itoa(q.d));
    QuadTextMade(Itoa(q.a), Itoa(q.b), Itoa(q.c), Itoa(q.d), upper);
  }

  lemma OctetMade(s: string)
    requires AllDigits(s, 10) && s != ""
    ensures MadeOf(s, false, false)
  {
  }

  lemma QuadTextMade(s0: string, s1: string, s2: string, s3: string, upper: bool)
    requires MadeOf(s0, false, false) && MadeOf(s1, false, false)
    requires MadeOf(s2, false, false) && MadeOf(s3, false, false)
    ensures MadeOf(s0 + "." + s1 + "." + s2 + "." + s3, true, upper)
  {
    hide SpellingChar;
    assert SpellingChar('.') by { DotAllowed(); }
    var s := s0 + "." + s1 + "." + s2 + "." + s3;
    assert s[0] == s0[0] && s[|s| - 1] == s3[|s3| - 1];
  }

  lemma DotAllowed()
    ensures SpellingChar('.')
  {
  }

  predicate HasQuad(w: Spelling) {
    w.Dotted? || w.quad.Some?
  }

  predicate GroupsMade(groups: seq<string>, dots: bool, upper: bool) {
    forall i :: 0 <= i < |groups| ==> MadeOf(groups[i], dots, upper)
  }

  lemma PiecesMade(groups: seq<string>, quad: Option<Quad>, upper: bool)
    requires GroupsMade(groups, quad.Some?, upper)
    ensures Listed(Pieces(groups, quad)) == "" || MadeOf(Listed(Pieces(groups, quad)), quad.Some?, upper)
  {
    hide MadeOf, Listed, Quad.Text;
    if quad.Some? {
      QuadMade(quad.value, upper);
    }
    ListedMade(Pieces(groups, quad), quad.Some?, upper);
  }

  lemma TextMade(w: Spelling, upper: bool)
    requires w.Valid()
    requires w.Colons? ==> GroupsMade(w.groups, HasQuad(w), upper)
    requires w.Shortened? ==> GroupsMade(w.front, HasQuad(w), upper) && GroupsMade(w.back, HasQuad(w), upper)
    ensures MadeOf(w.Text(), HasQuad(w), upper)
  {
    hide MadeOf, Listed, Quad.Text, Quad.Groups, IsGroup, GroupValue;
    match w {
      case Dotted(q) => QuadMade(q, upper);
      case Colons(groups, quad) =>
        PiecesMade(groups, quad, upper);
        ListedBegins(groups, quad);
      case Shortened(front, back, quad) =>
        ListedMade(front, quad.Some?, upper);
        PiecesMade(back, quad, upper);
        MadeTogether(Listed(front), "::", Listed(Pieces(back, quad)), quad.Some?, upper);
    }
  }

  // No colon, or at least two of them.
  predicate ColonsPaired(s: string) {
    ':' in s ==> exists i, j :: 0 <= i < j < |s| && s[i] == ':' && s[j] == ':'
  }

  lemma TextPaired(w: Spelling)
    requires w.Valid()
    ensures ColonsPaired(w.Text())
  {
    hide Quad.Text, Quad.Groups, IsGroup, GroupValue, Listed;
    match w {
      case Dotted(q) => QuadHasNoColon(q);
      case Colons(groups, quad) =>
        var pieces := Pieces(groups, quad);
        var first, second := pieces[0], pieces[1];
        var rest := Listed(pieces[2..]);
        assert pieces == [first] + pieces[1..] && pieces[1..] == [second] + pieces[2..];
        ListedStep(first, pieces[1..]);
        ListedStep(second, pieces[2..]);
        assert w.Text() == first + (":" + (second + (":" + rest)));
        assert w.Text()[|first|] == ':' && w.Text()[|first| + 1 + |second|] == ':';
      case Shortened(front, back, quad) =>
        assert w.Text()[|Listed(front)|] == ':' && w.Text()[|Listed(front)| + 1] == ':';
    }
  }

  // No spelling holds a bracket, begins or ends in a dot, or has a single colon.
  lemma SpelledShape(s: string, a: Addr)
    requires ParseIP(s) == Some(a)
    ensures MadeOf(s, true, true) && ColonsPaired(s)
  {
    hide ParseIP, Spelling.Text, Spelling.Value, ColonsPaired, MadeOf, IsGroup;
    var w := AddressSpelled(s, a);
    forall t | IsGroup(t) ensures MadeOf(t, HasQuad(w), true) {
      GroupMade(t, HasQuad(w));
    }
    TextMade(w, true);
    TextPaired(w);
    assert MadeOf(s, HasQuad(w), true) ==> MadeOf(s, true, true) by { DotsToo(s, HasQuad(w)); }
  }

  lemma DotsToo(s: string, dots: bool)
    ensures MadeOf(s, dots, true) ==> MadeOf(s, true, true)
  {
    hide SpellingChar;
  }

  lemma NumeralsMade(g: seq<U16>)
    ensures GroupsMade(Numerals(g), false, false)
  {
    hide Numeral;
    forall i | 0 <= i < |g| ensures MadeOf(Numeral(g[i], 16), false, false) {
      LowerGroupMade(Numeral(g[i], 16));
    }
  }

  lemma LowerGroupMade(t: string)
    requires t != "" && AllDigits(t, 16) && IsLower(t)
    ensures MadeOf(t, false, false)
  {
    HexAgrees(t);
  }

  lemma CanonicalMade(a: Addr)
    ensures MadeOf(PrintIP(a), IsMapped(a), false) && ColonsPaired(PrintIP(a))
    ensures !IsMapped(a) ==> ':' in PrintIP(a)
  {
    hide PrintIP, Spelling.Text, Spelling.Value, ColonsPaired, MadeOf, Numerals, GroupsMade, LongestRun;
    CanonicalSpells(a);
    var (z, e) := LongestRun(a, 0, (8, 8));
    NumeralsMade(a);
    NumeralsMade(a[..z]);
    NumeralsMade(a[e..]);
    TextMade(Canonical(a), false);
    TextPaired(Canonical(a));
    if !IsMapped(a) {
      ColonsHaveColon(Canonical(a));
    }
  }

  lemma PrintShape(a: Addr)
    ensures
      var s := PrintIP(a);
      && s != "" && IsLower(s) && s[0] != '.' && s[|s| - 1] != '.'
      && (forall c :: c in s ==> AddressChar(c))
      && (IsMapped(a) <==> ':' !in s) && (!IsMapped(a) ==> '.' !in s)
      && ColonsPaired(s)
  {
    hide PrintIP, ColonsPaired, AddressChar;
    CanonicalMade(a);
    var s := PrintIP(a);
    forall i | 0 <= i < |s| ensures AddressChar(s[i]) {
      MadeAddressChar(s, IsMapped(a), i);
    }
    if IsMapped(a) {
      V4RoundTrip(a);
      assert s == PrintV4(a) by { MappedText(a); }
    }
  }

  lemma MappedText(a: Addr)
    requires IsMapped(a)
    ensures PrintIP(a) == PrintV4(a)
  {
  }

  // The characters of a canonical text.
  predicate AddressChar(c: char) {
    c in LOWER_HEX || c == ':' || c == '.'
  }

  lemma MadeAddressChar(s: string, dots: bool, i: nat)
    requires MadeOf(s, dots, false) && i < |s|
    ensures AddressChar(s[i])
  {
    if s[i] in UPPER_HEX {
      DigitChars(s[i]);
      LowerDigit(s[i]);
    }
  }
}
