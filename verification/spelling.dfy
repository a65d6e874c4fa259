// Every text of an address: section 2.2 of RFC 4291 as a grammar, the proof that
// net.ParseIP accepts exactly its texts with their values, and the round trip
// with the canonical text.
module Spellings {
  import opened Text
  import opened IPText

  // --- The grammar -------------------------------------------------------------

  const LOWER_HEX := "0123456789abcdef"
  const UPPER_HEX := "0123456789ABCDEF"

  predicate HexText(t: string) {
    forall i :: 0 <= i < |t| ==> t[i] in LOWER_HEX || t[i] in UPPER_HEX
  }

  function HexDigit(c: char): (d: nat)
    requires c in LOWER_HEX || c in UPPER_HEX
    ensures d < 16
  {
    if c in LOWER_HEX then IndexOf(LOWER_HEX, c) else IndexOf(UPPER_HEX, c)
  }

  function HexValue(t: string): nat
    requires HexText(t)
  {
    if t == "" then 0 else HexValue(t[..|t| - 1]) * 16 + HexDigit(t[|t| - 1])
  }

  // One to four hexadecimal digits in either case, leading zeros allowed.
  predicate IsGroup(t: string) {
    1 <= |t| <= 4 && HexText(t)
  }

  function GroupValue(t: string): U16
    requires IsGroup(t)
  {
    GroupWidth(t);
    HexValue(t)
  }

  predicate AllGroups(groups: seq<string>) {
    forall i :: 0 <= i < |groups| ==> IsGroup(groups[i])
  }

  lemma GroupWidth(t: string)
    requires IsGroup(t)
    ensures HexValue(t) < 0x10000
  {
    HexAgrees(t);
    HexWidth(t);
  }

  function Values(groups: seq<string>): (v: seq<U16>)
    requires AllGroups(groups)
    ensures |v| == |groups|
  {
    seq(|groups|, i requires 0 <= i < |groups| => GroupValue(groups[i]))
  }

  // Four octets without leading zeros.
  datatype Quad = Quad(a: Octet, b: Octet, c: Octet, d: Octet) {
    function Text(): string {
      Itoa(a) + "." + Itoa(b) + "." + Itoa(c) + "." + Itoa(d)
    }

    function Groups(): (g: seq<U16>)
      ensures |g| == 2
    {
      [a * 256 + b, c * 256 + d]
    }

    function Address(): Addr {
      [0, 0, 0, 0, 0, 0xffff] + Groups()
    }
  }

  // A list of groups, the last two of which may be written as a dotted quad.
  function Pieces(groups: seq<string>, quad: Option<Quad>): seq<string> {
    groups + if quad.Some? then [quad.value.Text()] else []
  }

  function Numbers(groups: seq<string>, quad: Option<Quad>): seq<U16>
    requires AllGroups(groups)
  {
    Values(groups) + if quad.Some? then quad.value.Groups() else []
  }

  function Listed(pieces: seq<string>): string {
    if pieces == [] then "" else Join(pieces, ':')
  }

  // Colons: all eight groups. Shortened: "::" for at least one zero group.
  datatype Spelling =
    | Dotted(q: Quad)
    | Colons(groups: seq<string>, quad: Option<Quad>)
    | Shortened(front: seq<string>, back: seq<string>, quad: Option<Quad>)
  {
    predicate GroupsOk() {
      match this
      case Dotted(_) => true
      case Colons(groups, _) => AllGroups(groups)
      case Shortened(front, back, _) => AllGroups(front) && AllGroups(back)
    }

    predicate Valid() {
      && GroupsOk()
      && match this
         case Dotted(_) => true
         case Colons(groups, quad) => |Numbers(groups, quad)| == 8
         case Shortened(front, back, quad) => |Values(front)| + |Numbers(back, quad)| <= 7
    }

    function Text(): string {
      match this
      case Dotted(q) => q.Text()
      case Colons(groups, quad) => Listed(Pieces(groups, quad))
      case Shortened(front, back, quad) => Listed(front) + "::" + Listed(Pieces(back, quad))
    }

    function Value(): Addr
      requires Valid()
    {
      match this
      case Dotted(q) => q.Address()
      case Colons(groups, quad) => Numbers(groups, quad)
      case Shortened(front, back, quad) =>
        var rest := Numbers(back, quad);
        Values(front) + Zeros(8 - |front| - |rest|) + rest
    }
  }

  ghost predicate Spells(s: string, a: Addr) {
    exists w: Spelling :: w.Valid() && w.Text() == s && w.Value() == a
  }

  // --- Groups ------------------------------------------------------------------

  lemma HexAgrees(t: string)
    ensures HexText(t) <==> AllDigits(t, 16)
    ensures HexText(t) ==> HexValue(t) == NumeralValue(t, 16)
  {
    forall i | 0 <= i < |t| ensures DigitOf(t[i], 16).Some? <==> t[i] in LOWER_HEX || t[i] in UPPER_HEX {
      DigitChars(t[i]);
    }
    if HexText(t) && t != "" {
      HexAgrees(t[..|t| - 1]);
      DigitAgrees(t[|t| - 1]);
    }
  }

  lemma DigitAgrees(c: char)
    requires c in LOWER_HEX || c in UPPER_HEX
    ensures DigitOf(c, 16) == Some(HexDigit(c))
  {
    DigitTable(HexDigit(c));
  }

  lemma {:induction false} HexLenPrefix(s: string, rest: string)
    requires AllDigits(s, 16)
    requires rest == "" || DigitOf(rest[0], 16).None?
    ensures HexLen(s + rest) == |s|
  {
    if s == "" {
      assert s + rest == rest;
    } else {
      assert (s + rest)[1..] == s[1..] + rest;
      HexLenPrefix(s[1..], rest);
    }
  }

  // One step of the group loop, standing before the group t.
  lemma GroupStep(t: string, rest: string, acc: Groups)
    requires IsGroup(t) && |acc.read| < 8
    requires rest == "" || rest[0] == ':'
    ensures ParseGroups(t + rest, acc) == AfterGroup(rest, acc.(read := acc.read + [GroupValue(t)]))
  {
    hide HexValue;
    HexAgrees(t);
    HexLenPrefix(t, rest);
    assert (t + rest)[..|t|] == t && (t + rest)[|t|..] == rest;
  }

  lemma GroupBegins(t: string)
    requires IsGroup(t)
    ensures t != "" && t[0] != ':'
  {
  }

  lemma NextGroup(s: string, acc: Groups)
    requires s != "" && s[0] != ':'
    ensures AfterGroup(":" + s, acc) == ParseGroups(s, acc)
  {
    hide ParseGroups, ParseV4;
    assert (":" + s)[1..] == s;
  }

  // A group, a colon, and the next group.
  lemma GroupAndColon(t: string, more: string, acc: Groups)
    requires IsGroup(t) && |acc.read| < 8 && more != "" && more[0] != ':'
    ensures ParseGroups(t + (":" + more), acc) == ParseGroups(more, acc.(read := acc.read + [GroupValue(t)]))
  {
    hide ParseGroups, ParseV4, AfterGroup, GroupValue, HexText;
    GroupStep(t, ":" + more, acc);
    NextGroup(more, acc.(read := acc.read + [GroupValue(t)]));
  }

  // --- Dotted quads --------------------------------------------------------------

  lemma OctetRoundTrip(n: Octet)
    ensures ParseOctet(Itoa(n)) == Some(n)
    ensures '.' !in Itoa(n) && ':' !in Itoa(n)
  {
    var s := Itoa(n);
    assert forall c :: c in s ==> DigitOf(c, 10).Some?;
  }

  lemma OctetText(s: string)
    requires ParseOctet(s).Some?
    ensures s == Itoa(ParseOctet(s).value)
  {
    NumeralOfText(s);
  }

  lemma QuadSplit(s0: string, s1: string, s2: string, s3: string)
    requires '.' !in s0 && '.' !in s1 && '.' !in s2 && '.' !in s3
    ensures Split(s0 + "." + s1 + "." + s2 + "." + s3, '.') == [s0, s1, s2, s3]
  {
    SplitPiece(s0, '.');
    SplitPiece(s1, '.');
    SplitPiece(s2, '.');
    SplitPiece(s3, '.');
    SplitAppend(s0, s1, '.');
    SplitAppend(s0 + "." + s1, s2, '.');
    SplitAppend(s0 + "." + s1 + "." + s2, s3, '.');
  }

  lemma QuadParsed(q: Quad)
    ensures ParseV4(q.Text()) == Some(q.Address())
  {
    hide Split, Itoa, ParseOctet;
    OctetRoundTrip(q.a);
    OctetRoundTrip(q.b);
    OctetRoundTrip(q.c);
    OctetRoundTrip(q.d);
    QuadSplit(Itoa(q.a), Itoa(q.b), Itoa(q.c), Itoa(q.d));
    assert Mapped(q.a, q.b, q.c, q.d) == q.Address();
  }

  lemma JoinFour(parts: seq<string>)
    requires |parts| == 4
    ensures Join(parts, '.') == parts[0] + "." + parts[1] + "." + parts[2] + "." + parts[3]
  {
    assert parts[1..][1..] == parts[2..] && parts[2..][1..] == parts[3..];
    assert parts[2] + "." + parts[3] == Join(parts[2..], '.');
    Grouped(parts[1] + ".", parts[2] + ".", parts[3]);
    Grouped(parts[0] + ".", parts[1] + "." + (parts[2] + "."), parts[3]);
  }

  // ParseV4 accepts exactly four octets between three dots.
  lemma V4Exactly(s: string, a: Addr)
    ensures ParseV4(s) == Some(a) <==> exists q: Quad :: q.Text() == s && q.Address() == a
  {
    hide Split, Itoa, ParseOctet, Join;
    if ParseV4(s) == Some(a) {
      var parts := Split(s, '.');
      JoinSplit(s, '.');
      JoinFour(parts);
      OctetText(parts[0]);
      OctetText(parts[1]);
      OctetText(parts[2]);
      OctetText(parts[3]);
      var q := Quad(ParseOctet(parts[0]).value, ParseOctet(parts[1]).value,
                    ParseOctet(parts[2]).value, ParseOctet(parts[3]).value);
      assert q.Text() == s && q.Address() == a;
    }
    if q: Quad :| q.Text() == s && q.Address() == a {
      QuadParsed(q);
    }
  }

  // --- Every spelling is read with its value ----------------------------------------

  // The group loop after the text of w, which may bring the ellipsis.
  function After(w: Spelling, acc: Groups): Groups
    requires w.GroupsOk() && !w.Dotted?
  {
    match w
    case Colons(groups, quad) => acc.(read := acc.read + Numbers(groups, quad))
    case Shortened(front, back, quad) =>
      Groups(acc.read + Values(front) + Numbers(back, quad), |acc.read| + |front|)
  }

  // What the group loop can be standing before.
  predicate Readable(w: Spelling, acc: Groups)
    requires w.GroupsOk() && !w.Dotted?
  {
    match w
    case Colons(groups, quad) =>
      && Pieces(groups, quad) != [] && |acc.read| + |Numbers(groups, quad)| <= 8
      && (quad.Some? && acc.ellipsis < 0 ==> |acc.read| + |groups| == 6)
    case Shortened(front, back, quad) =>
      front != [] && acc.ellipsis < 0 && |acc.read| + |front| + |Numbers(back, quad)| <= 8
  }

  lemma ListedStep(first: string, rest: seq<string>)
    requires rest != []
    ensures Listed([first] + rest) == first + (":" + Listed(rest))
  {
    hide Join;
    JoinStep(first, rest, ':');
    Grouped(first, ":", Join(rest, ':'));
  }

  lemma ListedOne(first: string)
    ensures Listed([first]) == first
  {
  }

  lemma QuadBegins(q: Quad)
    ensures
      var s, n := q.Text(), |Itoa(q.a)|;
      1 <= n <= 3 && n < |s| && s[0] != ':' && s[n] == '.' && HexLen(s) == n
  {
    var s := Itoa(q.a);
    OctetRoundTrip(q.a);
    NumeralWidth(q.a, 10);
    Hexadecimal(s);
    DotAfter(s, Itoa(q.b), Itoa(q.c), Itoa(q.d));
    assert s[0] in s;
  }

  lemma DotAfter(s0: string, s1: string, s2: string, s3: string)
    requires AllDigits(s0, 16)
    ensures HexLen(s0 + "." + s1 + "." + s2 + "." + s3) == |s0|
  {
    hide HexLen;
    var rest := "." + (s1 + "." + s2 + "." + s3);
    HexLenPrefix(s0, rest);
    Grouped(s0, ".", s1 + "." + s2 + "." + s3);
    Grouped(s0 + ".", s1 + "." + s2 + ".", s3);
    Grouped(s0 + ".", s1 + "." + s2, ".");
    Grouped(s0 + ".", s1 + ".", s2);
    Grouped(s0 + ".", s1, ".");
  }

  lemma Hexadecimal(s: string)
    requires AllDigits(s, 10)
    ensures AllDigits(s, 16)
  {
  }

  lemma ListedBegins(groups: seq<string>, quad: Option<Quad>)
    requires AllGroups(groups) && Pieces(groups, quad) != []
    ensures Listed(Pieces(groups, quad)) != "" && Listed(Pieces(groups, quad))[0] != ':'
  {
    hide Quad.Text, HexText;
    var pieces := Pieces(groups, quad);
    if groups == [] {
      QuadBegins(quad.value);
    } else {
      GroupBegins(groups[0]);
    }
    assert pieces[0] != "" && pieces[0][0] != ':';
    if |pieces| > 1 {
      ListedStep(pieces[0], pieces[1..]);
      assert pieces == [pieces[0]] + pieces[1..];
    }
  }

  lemma QuadRead(q: Quad, acc: Groups)
    requires |acc.read| + 2 <= 8 && (acc.ellipsis < 0 ==> |acc.read| == 6)
    ensures ParseGroups(q.Text(), acc) == Some(acc.(read := acc.read + q.Groups()))
  {
    hide ParseV4, HexLen, AfterGroup, Itoa, Quad.Text;
    QuadBegins(q);
    QuadParsed(q);
    assert q.Address()[6..] == q.Groups();
  }

  lemma NumbersCons(groups: seq<string>, quad: Option<Quad>)
    requires AllGroups(groups) && groups != []
    ensures AllGroups(groups[1..])
    ensures Values(groups) == [GroupValue(groups[0])] + Values(groups[1..])
    ensures Numbers(groups, quad) == [GroupValue(groups[0])] + Numbers(groups[1..], quad)
    ensures Pieces(groups, quad) == [groups[0]] + Pieces(groups[1..], quad)
  {
    hide IsGroup, GroupValue, Quad.Text, Quad.Groups;
    assert groups == [groups[0]] + groups[1..];
  }

  lemma {:induction false} ListRead(groups: seq<string>, quad: Option<Quad>, acc: Groups)
    requires AllGroups(groups) && Readable(Colons(groups, quad), acc)
    ensures ParseGroups(Listed(Pieces(groups, quad)), acc) == Some(After(Colons(groups, quad), acc))
    decreases |groups|
  {
    hide ParseGroups, ParseV4, AfterGroup, IsGroup, GroupValue, Quad.Text, Quad.Groups, Listed;
    if groups == [] {
      QuadRead(quad.value, acc);
      ListedOne(quad.value.Text());
      assert Pieces(groups, quad) == [quad.value.Text()];
      assert Numbers(groups, quad) == quad.value.Groups();
    } else {
      var t, rest := groups[0], Pieces(groups[1..], quad);
      var acc' := acc.(read := acc.read + [GroupValue(t)]);
      NumbersCons(groups, quad);
      Grouped(acc.read, [GroupValue(t)], Numbers(groups[1..], quad));
      if rest == [] {
        LastGroupRead(t, acc);
        assert Pieces(groups, quad) == [t] && Numbers(groups, quad) == [GroupValue(t)];
      } else {
        ListedBegins(groups[1..], quad);
        ListedStep(t, rest);
        GroupAndColon(t, Listed(rest), acc);
        ListRead(groups[1..], quad, acc');
      }
    }
  }

  lemma LastGroupRead(t: string, acc: Groups)
    requires IsGroup(t) && |acc.read| < 8
    ensures ParseGroups(Listed([t]), acc) == Some(acc.(read := acc.read + [GroupValue(t)]))
  {
    hide ParseGroups, HexText, GroupValue;
    ListedOne(t);
    GroupStep(t, "", acc);
    assert t + "" == t;
  }

  lemma EllipsisRead(back: seq<string>, quad: Option<Quad>, acc: Groups)
    requires AllGroups(back) && acc.ellipsis < 0 && |acc.read| + |Numbers(back, quad)| <= 8
    ensures AfterGroup("::" + Listed(Pieces(back, quad)), acc)
         == Some(Groups(acc.read + Numbers(back, quad), |acc.read|))
  {
    hide ParseGroups, ParseV4, Listed, IsGroup, GroupValue, Quad.Text, Quad.Groups;
    var rest := Listed(Pieces(back, quad));
    assert ("::" + rest)[2..] == rest;
    if Pieces(back, quad) == [] {
      ListedNothing();
      assert Numbers(back, quad) == [] && acc.read + [] == acc.read;
    } else {
      ListedBegins(back, quad);
      ListRead(back, quad, acc.(ellipsis := |acc.read|));
    }
  }

  lemma ListedNothing()
    ensures Listed([]) == ""
  {
  }

  lemma ColonBetween(first: string, rest: string, tail: string)
    ensures first + (":" + rest) + tail == first + (":" + (rest + tail))
  {
  }

  lemma ShortStep(acc: Groups, front: seq<string>, back: seq<string>, quad: Option<Quad>)
    requires AllGroups(front) && AllGroups(back) && front != []
    ensures
      var acc' := acc.(read := acc.read + [GroupValue(front[0])]);
      && After(Shortened(front, back, quad), acc) == After(Shortened(front[1..], back, quad), acc')
      && (|front| == 1 ==>
            After(Shortened(front, back, quad), acc) == Groups(acc'.read + Numbers(back, quad), |acc'.read|))
  {
    hide IsGroup, GroupValue, Numbers;
    NumbersCons(front, None);
    Grouped(acc.read, [GroupValue(front[0])], Values(front[1..]));
    if |front| == 1 {
      assert Values(front[1..]) == [];
      assert acc.read + [GroupValue(front[0])] + [] == acc.read + [GroupValue(front[0])];
    }
  }

  lemma {:induction false} ShortRead(front: seq<string>, back: seq<string>, quad: Option<Quad>, acc: Groups)
    requires AllGroups(front) && AllGroups(back) && Readable(Shortened(front, back, quad), acc)
    ensures ParseGroups(Shortened(front, back, quad).Text(), acc) == Some(After(Shortened(front, back, quad), acc))
    decreases |front|
  {
    hide ParseGroups, ParseV4, AfterGroup, IsGroup, GroupValue, Quad.Text, Quad.Groups, Listed, After, Numbers, Values;
    var t, tail := front[0], "::" + Listed(Pieces(back, quad));
    var acc' := acc.(read := acc.read + [GroupValue(t)]);
    ShortStep(acc, front, back, quad);
    assert Listed(front) + "::" + Listed(Pieces(back, quad)) == Listed(front) + tail;
    if |front| == 1 {
      assert front == [t];
      ListedOne(t);
      GroupStep(t, tail, acc);
      EllipsisRead(back, quad, acc');
    } else {
      var more := Listed(front[1..]);
      assert front == [t] + front[1..];
      ListedStep(t, front[1..]);
      ListedBegins(front[1..], None);
      assert Pieces(front[1..], None) == front[1..];
      ColonBetween(t, more, tail);
      GroupAndColon(t, more + tail, acc);
      assert Listed(front[1..]) + "::" + Listed(Pieces(back, quad)) == more + tail;
      ShortRead(front[1..], back, quad, acc');
    }
  }

  lemma ExpandFull(read: seq<U16>)
    requires |read| == 8
    ensures Expand(Groups(read, -1)) == Some(read)
  {
  }

  lemma ExpandShort(front: seq<U16>, back: seq<U16>)
    requires |front| + |back| <= 7
    ensures Expand(Groups(front + back, |front|)) == Some(front + Zeros(8 - |front| - |back|) + back)
  {
    assert (front + back)[..|front|] == front && (front + back)[|front|..] == back;
  }

  lemma ColonsRead(groups: seq<string>, quad: Option<Quad>)
    requires Colons(groups, quad).Valid()
    ensures ParseV6(Colons(groups, quad).Text()) == Some(Colons(groups, quad).Value())
  {
    hide ParseGroups, Expand, IsGroup, GroupValue, Quad.Text, Quad.Groups, Listed;
    ListedBegins(groups, quad);
    ListRead(groups, quad, Groups([], -1));
    assert [] + Numbers(groups, quad) == Numbers(groups, quad);
    ExpandFull(Numbers(groups, quad));
  }

  lemma ShortenedRead(front: seq<string>, back: seq<string>, quad: Option<Quad>)
    requires Shortened(front, back, quad).Valid()
    ensures ParseV6(Shortened(front, back, quad).Text()) == Some(Shortened(front, back, quad).Value())
  {
    hide ParseGroups, Expand, IsGroup, GroupValue, Quad.Text, Quad.Groups, Listed, Values;
    var rest := Listed(Pieces(back, quad));
    var s := Listed(front) + "::" + rest;
    ExpandShort(Values(front), Numbers(back, quad));
    if front != [] {
      ListedBegins(front, None);
      assert Pieces(front, None) == front;
      ShortRead(front, back, quad, Groups([], -1));
      assert [] + Values(front) == Values(front);
      assert s[0] != ':';
    } else {
      ListedNothing();
      assert s == "::" + rest;
      assert Values([]) == [];
      NothingBefore(back, quad);
    }
  }

  lemma NothingBefore(back: seq<string>, quad: Option<Quad>)
    requires AllGroups(back) && |Numbers(back, quad)| <= 7
    ensures ParseV6("::" + Listed(Pieces(back, quad))) == Expand(Groups([] + Numbers(back, quad), 0))
  {
    hide ParseGroups, IsGroup, GroupValue, Quad.Text, Quad.Groups, Listed;
    var rest := Listed(Pieces(back, quad));
    assert ("::" + rest)[2..] == rest;
    if Pieces(back, quad) == [] {
      ListedNothing();
      assert Numbers(back, quad) == [];
      assert [] + Zeros(8) + [] == Zeros(8);
    } else {
      ListedBegins(back, quad);
      ListRead(back, quad, Groups([], 0));
    }
  }

  lemma QuadHasNoColon(q: Quad)
    ensures ':' !in q.Text()
  {
    hide Itoa;
    OctetRoundTrip(q.a);
    OctetRoundTrip(q.b);
    OctetRoundTrip(q.c);
    OctetRoundTrip(q.d);
  }

  lemma ColonsHaveColon(w: Spelling)
    requires w.Valid() && !w.Dotted?
    ensures ':' in w.Text()
  {
    hide IsGroup, Quad.Text, GroupValue, Join;
    match w {
      case Colons(groups, quad) =>
        var pieces := Pieces(groups, quad);
        assert pieces == [pieces[0]] + pieces[1..];
        ListedStep(pieces[0], pieces[1..]);
        assert w.Text()[|pieces[0]|] == ':';
      case Shortened(front, _, _) =>
        assert w.Text()[|Listed(front)|] == ':';
    }
  }

  lemma SpellingRead(w: Spelling)
    requires w.Valid()
    ensures ParseIP(w.Text()) == Some(w.Value())
  {
    hide ParseV4, ParseV6, IsGroup, Quad.Text, Quad.Address, GroupValue, Listed;
    match w {
      case Dotted(q) => QuadParsed(q);
      case Colons(groups, quad) => ColonsRead(groups, quad);
      case Shortened(front, back, quad) => ShortenedRead(front, back, quad);
    }
    if !w.Dotted? {
      ColonsHaveColon(w);
      DottedHasNoColon(w.Text());
    }
  }

  lemma DottedHasNoColon(s: string)
    requires ':' in s
    ensures ParseV4(s) == None
  {
    hide ParseV4, Quad.Text, Quad.Address;
    if ParseV4(s).Some? {
      V4Exactly(s, ParseV4(s).value);
      var q: Quad :| q.Text() == s && q.Address() == ParseV4(s).value;
      QuadHasNoColon(q);
    }
  }

  // --- Nothing else is read ---------------------------------------------------------

  // What w stands for before the ellipsis or the end.
  predicate Begun(w: Spelling, acc: Groups) {
    && !w.Dotted? && w.GroupsOk()
    && (w.Colons? ==> Pieces(w.groups, w.quad) != [])
    && (w.Shortened? ==> w.front != [] && acc.ellipsis < 0)
  }

  function Led(t: string, w: Spelling): Spelling
    requires !w.Dotted?
  {
    match w
    case Colons(groups, quad) => Colons([t] + groups, quad)
    case Shortened(front, back, quad) => Shortened([t] + front, back, quad)
  }

  lemma LedRead(t: string, w: Spelling, acc: Groups)
    requires IsGroup(t) && Begun(w, acc)
    ensures
      var acc' := acc.(read := acc.read + [GroupValue(t)]);
      Begun(Led(t, w), acc) && Led(t, w).Text() == t + (":" + w.Text()) && After(Led(t, w), acc) == After(w, acc')
  {
    hide IsGroup, GroupValue, Quad.Text, Quad.Groups, Listed, Values;
    match w {
      case Colons(groups, quad) =>
        assert ([t] + groups)[1..] == groups && AllGroups([t] + groups);
        NumbersCons([t] + groups, quad);
        ListedStep(t, Pieces(groups, quad));
        Grouped(acc.read, [GroupValue(t)], Numbers(groups, quad));
      case Shortened(front, back, quad) =>
        assert ([t] + front)[1..] == front && AllGroups([t] + front);
        ShortStep(acc, [t] + front, back, quad);
        ListedStep(t, front);
        var tail := "::" + Listed(Pieces(back, quad));
        ColonBetween(t, Listed(front), tail);
        assert Listed([t] + front) + "::" + Listed(Pieces(back, quad)) == Listed([t] + front) + tail;
        assert Listed(front) + "::" + Listed(Pieces(back, quad)) == Listed(front) + tail;
    }
  }

  lemma QuadSpelled(s: string, acc: Groups, a: Addr) returns (w: Spelling)
    requires ParseV4(s) == Some(a)
    ensures Begun(w, acc) && w.Text() == s && After(w, acc) == acc.(read := acc.read + a[6..])
  {
    hide ParseV4, Quad.Text;
    V4Exactly(s, a);
    var q: Quad :| q.Text() == s && q.Address() == a;
    w := Colons([], Some(q));
    ListedOne(s);
    assert Pieces([], Some(q)) == [s] && Numbers([], Some(q)) == q.Groups() == a[6..];
  }

  lemma OneSpelled(t: string, acc: Groups) returns (w: Spelling)
    requires IsGroup(t)
    ensures Begun(w, acc) && w.Text() == t && After(w, acc) == acc.(read := acc.read + [GroupValue(t)])
  {
    hide IsGroup, GroupValue;
    w := Colons([t], None);
    ListedOne(t);
    assert Pieces([t], None) == [t] && Numbers([t], None) == [GroupValue(t)];
  }

  // The groups of w behind a group and the ellipsis.
  lemma CutSpelled(t: string, groups: seq<string>, quad: Option<Quad>, acc: Groups) returns (w: Spelling)
    requires IsGroup(t) && AllGroups(groups) && acc.ellipsis < 0
    ensures Begun(w, acc) && w.Text() == t + ("::" + Listed(Pieces(groups, quad)))
    ensures
      var read := acc.read + [GroupValue(t)];
      After(w, acc) == Groups(read + Numbers(groups, quad), |read|)
  {
    hide IsGroup, GroupValue, Quad.Text, Quad.Groups;
    w := Shortened([t], groups, quad);
    ListedOne(t);
    assert Values([t]) == [GroupValue(t)];
    Grouped(t, "::", Listed(Pieces(groups, quad)));
  }

  // The group at the start of s.
  lemma FirstGroup(s: string, acc: Groups)
    requires ParseGroups(s, acc).Some?
    ensures
      var n := HexLen(s);
      && n <= |s| && IsGroup(s[..n]) && |acc.read| < 8
      && if n < |s| && s[n] == '.' then
           ParseV4(s).Some? && ParseGroups(s, acc) == Some(acc.(read := acc.read + ParseV4(s).value[6..]))
         else ParseGroups(s, acc) == AfterGroup(s[n..], acc.(read := acc.read + [GroupValue(s[..n])]))
  {
    hide HexLen, ParseV4, HexText;
    HexAgrees(s[..HexLen(s)]);
  }

  lemma {:induction false} GroupsSpelled(s: string, acc: Groups) returns (w: Spelling)
    requires ParseGroups(s, acc).Some?
    ensures Begun(w, acc) && w.Text() == s && ParseGroups(s, acc) == Some(After(w, acc))
    decreases |s|, 0
  {
    hide ParseGroups, ParseV4, HexLen, IsGroup, GroupValue, Spelling.Text, Begun, After, Led, Listed;
    var n := HexLen(s);
    var t, rest := s[..n], s[n..];
    FirstGroup(s, acc);
    GroupBegins(t);
    assert s == t + rest;
    if n < |s| && s[n] == '.' {
      w := QuadSpelled(s, acc, ParseV4(s).value);
    } else {
      w := RestSpelled(t, rest, acc);
    }
  }

  lemma {:induction false} RestSpelled(t: string, rest: string, acc: Groups) returns (w: Spelling)
    requires IsGroup(t) && AfterGroup(rest, acc.(read := acc.read + [GroupValue(t)])).Some?
    ensures Begun(w, acc) && w.Text() == t + rest
    ensures AfterGroup(rest, acc.(read := acc.read + [GroupValue(t)])) == Some(After(w, acc))
    decreases |rest|, 2
  {
    hide ParseGroups, IsGroup, GroupValue, Spelling.Text, After, Led, Listed;
    var acc' := acc.(read := acc.read + [GroupValue(t)]);
    if rest == "" {
      w := OneSpelled(t, acc);
      assert t + "" == t;
    } else if rest[1] != ':' {
      var w' := GroupsSpelled(rest[1..], acc');
      LedRead(t, w', acc);
      w := Led(t, w');
      assert rest == ":" + rest[1..];
    } else {
      w := EllipsisSpelled(t, rest[2..], acc);
      assert rest == "::" + rest[2..];
    }
  }

  lemma {:induction false} EllipsisSpelled(t: string, more: string, acc: Groups) returns (w: Spelling)
    requires IsGroup(t) && acc.ellipsis < 0
    requires AfterGroup("::" + more, acc.(read := acc.read + [GroupValue(t)])).Some?
    ensures Begun(w, acc) && w.Text() == t + ("::" + more)
    ensures AfterGroup("::" + more, acc.(read := acc.read + [GroupValue(t)])) == Some(After(w, acc))
    decreases |more|, 1
  {
    hide ParseGroups, IsGroup, GroupValue, Listed, Quad.Text, Values;
    var acc' := acc.(read := acc.read + [GroupValue(t)]);
    assert ("::" + more)[2..] == more;
    if more == "" {
      w := CutSpelled(t, [], None, acc);
      ListedNothing();
      assert Pieces([], None) == [];
      NoNumbers();
      assert acc'.read + [] == acc'.read;
    } else {
      var w' := GroupsSpelled(more, acc'.(ellipsis := |acc'.read|));
      w := CutSpelled(t, w'.groups, w'.quad, acc);
    }
  }

  lemma NoNumbers()
    ensures Numbers([], None) == []
  {
  }

  lemma V6Spelled(s: string, a: Addr) returns (w: Spelling)
    requires ParseV6(s) == Some(a)
    ensures w.Valid() && w.Text() == s && w.Value() == a
  {
    hide ParseGroups, Expand, Spelling.Text, Spelling.Value, Spelling.Valid;
    if s == "::" {
      w := NothingSpelled();
    } else if "::" <= s {
      w := BackSpelled(s[2..], a);
      assert s == "::" + s[2..];
    } else {
      w := FrontSpelled(s, a);
    }
  }

  lemma NothingSpelled() returns (w: Spelling)
    ensures w.Valid() && w.Text() == "::" && w.Value() == Zeros(8)
  {
    hide Listed;
    w := Shortened([], [], None);
    ListedNothing();
    NoNumbers();
    assert Pieces([], None) == [];
    assert [] + Zeros(8) + [] == Zeros(8);
  }

  lemma BackSpelled(rest: string, a: Addr) returns (w: Spelling)
    requires ParseGroups(rest, Groups([], 0)).Some? && Expand(ParseGroups(rest, Groups([], 0)).value) == Some(a)
    ensures w.Valid() && w.Text() == "::" + rest && w.Value() == a
  {
    hide ParseGroups, IsGroup, GroupValue, Quad.Text, Quad.Groups, Listed;
    var w' := GroupsSpelled(rest, Groups([], 0));
    w := Shortened([], w'.groups, w'.quad);
    var read := Numbers(w'.groups, w'.quad);
    ListedNothing();
    assert [] + read == read && read[..0] == [] && read[0..] == read;
    assert "" + "::" + rest == "::" + rest;
  }

  lemma FrontSpelled(s: string, a: Addr) returns (w: Spelling)
    requires ParseGroups(s, Groups([], -1)).Some? && Expand(ParseGroups(s, Groups([], -1)).value) == Some(a)
    ensures w.Valid() && w.Text() == s && w.Value() == a
  {
    hide ParseGroups, IsGroup, GroupValue, Quad.Text, Quad.Groups, Listed, Values, Numbers;
    w := GroupsSpelled(s, Groups([], -1));
    var g := ParseGroups(s, Groups([], -1)).value;
    match w {
      case Colons(groups, quad) => assert g.read == Numbers(groups, quad);
      case Shortened(front, back, quad) =>
        assert g.read == Values(front) + Numbers(back, quad);
        ExpandShort(Values(front), Numbers(back, quad));
    }
  }

  // net.ParseIP, exactly: a text is read as an address if and only if it is one of
  // the address's spellings.
  lemma ParseIPExactly(s: string, a: Addr)
    ensures ParseIP(s) == Some(a) <==> Spells(s, a)
  {
    hide ParseV4, ParseV6, Quad.Text, Quad.Address, Spelling.Text, Spelling.Value, Spelling.Valid;
    if ParseIP(s) == Some(a) {
      var w := AddressSpelled(s, a);
    }
    if w: Spelling :| w.Valid() && w.Text() == s && w.Value() == a {
      SpellingRead(w);
    }
  }

  lemma AddressSpelled(s: string, a: Addr) returns (w: Spelling)
    requires ParseIP(s) == Some(a)
    ensures w.Valid() && w.Text() == s && w.Value() == a
  {
    hide ParseV4, ParseV6, Quad.Text, Quad.Address;
    if ParseV4(s).Some? {
      V4Exactly(s, a);
      var q: Quad :| q.Text() == s && q.Address() == a;
      w := Dotted(q);
    } else {
      w := V6Spelled(s, a);
    }
  }

  // Letter case does not matter.
  lemma {:induction false} HexLower(t: string)
    requires HexText(t)
    ensures HexText(ToLower(t)) && HexValue(ToLower(t)) == HexValue(t)
  {
    forall i | 0 <= i < |t| ensures LowerChar(t[i]) in LOWER_HEX {
      DigitLower(t[i]);
    }
    if t != "" {
      var front := t[..|t| - 1];
      HexLower(front);
      assert ToLower(t)[..|t| - 1] == ToLower(front);
      DigitLower(t[|t| - 1]);
    }
  }

  lemma DigitLower(c: char)
    requires c in LOWER_HEX || c in UPPER_HEX
    ensures LowerChar(c) in LOWER_HEX && HexDigit(LowerChar(c)) == HexDigit(c)
  {
    DigitChars(c);
    assert DigitOf(LowerChar(c), 16) == DigitOf(c, 16) && LowerChar(LowerChar(c)) == LowerChar(c);
    hide DigitOf, LowerChar, HexDigit;
    LowerDigit(LowerChar(c));
    DigitAgrees(c);
    DigitAgrees(LowerChar(c));
  }

  lemma LowerDigit(c: char)
    requires DigitOf(c, 16).Some? && LowerChar(c) == c
    ensures c in LOWER_HEX
  {
    var d := DigitOf(c, 16).value;
    assert c == DigitChar(d);
    DigitCharAt(d);
    assert LOWER_HEX[d] in LOWER_HEX;
  }

  lemma DigitCharAt(d: nat)
    requires d < 16
    ensures DigitChar(d) == LOWER_HEX[d]
  {
  }

  function Lowered(pieces: seq<string>): (r: seq<string>)
    ensures |r| == |pieces|
  {
    seq(|pieces|, i requires 0 <= i < |pieces| => ToLower(pieces[i]))
  }

  lemma LowerConcat(a: string, b: string)
    ensures ToLower(a + b) == ToLower(a) + ToLower(b)
  {
  }

  lemma {:induction false} ListedLower(pieces: seq<string>)
    ensures ToLower(Listed(pieces)) == Listed(Lowered(pieces))
  {
    hide ToLower, Listed;
    if pieces == [] {
      ListedNothing();
      NothingLower();
    } else if |pieces| == 1 {
      ListedOne(pieces[0]);
      ListedOne(ToLower(pieces[0]));
      assert pieces == [pieces[0]] && Lowered(pieces) == [ToLower(pieces[0])];
    } else {
      var first, rest := pieces[0], pieces[1..];
      ListedLower(rest);
      ListedStep(first, rest);
      ListedStep(ToLower(first), Lowered(rest));
      assert pieces == [first] + rest && Lowered(pieces) == [ToLower(first)] + Lowered(rest);
      LowerConcat(first, ":" + Listed(rest));
      LowerConcat(":", Listed(rest));
      assert ToLower(":") == ":" by { ColonLower(); }
    }
  }

  lemma NothingLower()
    ensures ToLower("") == ""
  {
  }

  lemma ColonLower()
    ensures ToLower(":") == ":" && ToLower("::") == "::"
  {
  }

  lemma GroupsLower(groups: seq<string>)
    requires AllGroups(groups)
    ensures AllGroups(Lowered(groups)) && Values(Lowered(groups)) == Values(groups)
  {
    hide HexText, HexValue;
    forall i | 0 <= i < |groups|
      ensures IsGroup(ToLower(groups[i])) && GroupValue(ToLower(groups[i])) == GroupValue(groups[i])
    {
      HexLower(groups[i]);
    }
  }

  lemma QuadLower(q: Quad)
    ensures ToLower(q.Text()) == q.Text()
  {
    hide ToLower, Numeral;
    LowerFour(Itoa(q.a), Itoa(q.b), Itoa(q.c), Itoa(q.d));
    LowerFixes(q.Text());
  }

  lemma LowerFour(s0: string, s1: string, s2: string, s3: string)
    requires IsLower(s0) && IsLower(s1) && IsLower(s2) && IsLower(s3)
    ensures IsLower(s0 + "." + s1 + "." + s2 + "." + s3)
  {
  }

  lemma PiecesLower(groups: seq<string>, quad: Option<Quad>)
    requires AllGroups(groups)
    ensures AllGroups(Lowered(groups)) && Numbers(Lowered(groups), quad) == Numbers(groups, quad)
    ensures ToLower(Listed(Pieces(groups, quad))) == Listed(Pieces(Lowered(groups), quad))
  {
    hide IsGroup, GroupValue, Quad.Text, Listed, ToLower;
    GroupsLower(groups);
    ListedLower(Pieces(groups, quad));
    if quad.Some? {
      QuadLower(quad.value);
    }
    assert Lowered(Pieces(groups, quad)) == Pieces(Lowered(groups), quad);
  }

  lemma SpellsLower(s: string, a: Addr)
    requires Spells(s, a)
    ensures Spells(ToLower(s), a)
  {
    hide Quad.Text, Listed, Pieces, Numbers, Values, ToLower, AllGroups;
    var w: Spelling :| w.Valid() && w.Text() == s && w.Value() == a;
    match w {
      case Dotted(q) => QuadLower(q);
      case Colons(groups, quad) =>
        PiecesLower(groups, quad);
        var w' := Colons(Lowered(groups), quad);
        assert w'.Valid() && w'.Text() == ToLower(s) && w'.Value() == a;
      case Shortened(front, back, quad) =>
        GroupsLower(front);
        ListedLower(front);
        PiecesLower(back, quad);
        LowerConcat(Listed(front) + "::", Listed(Pieces(back, quad)));
        LowerConcat(Listed(front), "::");
        ColonLower();
        var w' := Shortened(Lowered(front), Lowered(back), quad);
        assert w'.Valid() && w'.Text() == ToLower(s) && w'.Value() == a;
    }
  }
}
