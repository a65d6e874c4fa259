// Exactly which authorities name which host and port. An authority is described
// by how it is written, not by how it is read.
module Destinations {
  import opened Text
  import opened IPText
  import opened Spellings
  import opened CanonicalTexts
  import opened Authority

  // --- What an authority may be made of --------------------------------------------

  const DIGITS := "0123456789"

  predicate IsNameChar(c: char) {
    c in LOWER || c in DIGITS || c == '-'
  }

  predicate IsLabel(part: string) {
    && 1 <= |part| <= 63 && part[0] != '-' && part[|part| - 1] != '-'
    && forall i :: 0 <= i < |part| ==> IsNameChar(part[i])
  }

  predicate AllLabels(labels: seq<string>) {
    forall i :: 0 <= i < |labels| ==> IsLabel(labels[i])
  }

  ghost predicate IsName(h: string) {
    1 <= |h| <= 253 && exists labels: seq<string> :: labels != [] && AllLabels(labels) && h == Join(labels, '.')
  }

  // A host is written as any spelling of its address, or as its name.
  ghost predicate Denotes(y: string, host: string) {
    || (exists a :: Spells(y, a) && host == PrintIP(a))
    || (IsName(y) && host == y && forall a :: !Spells(y, a))
  }

  predicate AllZeros(s: string) {
    forall i :: 0 <= i < |s| ==> s[i] == '0'
  }

  // A positive number, with leading zeros and a plus sign if one likes.
  ghost predicate NumberSpelled(q: string, n: nat) {
    exists zeros: string :: AllZeros(zeros) && q in {zeros + Itoa(n), "+" + (zeros + Itoa(n))}
  }

  ghost predicate PortIs(q: string, port: string) {
    (q == "" && port == "") || exists n: nat :: 1 <= n <= 65535 && NumberSpelled(q, n) && port == Itoa(n)
  }

  // name, a trailing dot, brackets around both, and a colon and a port.
  datatype Written = Written(name: string, dot: bool, brackets: bool, port: Option<string>) {
    function Host(): string {
      if dot then name + "." else name
    }

    function Text(): string {
      var host := if brackets then "[" + Host() + "]" else Host();
      if port.Some? then host + ":" + port.value else host
    }

    // An empty port is an error, and colons need brackets before a port.
    predicate Valid() {
      port.Some? ==> port.value != "" && (brackets || ':' !in name)
    }

    function PortOr(defaultPort: string): string {
      if port.Some? then port.value else defaultPort
    }
  }

  ghost predicate Names(w: Written, defaultPort: string, host: string, port: string) {
    w.Valid() && Denotes(w.name, host) && PortIs(w.PortOr(defaultPort), port)
  }

  // --- Names ------------------------------------------------------------------------

  lemma NameCharTable(c: char)
    ensures NameChar(c) <==> IsNameChar(c)
  {
    hide *;
    LetterTable(c);
    DigitRange(c);
    NameChars(c);
  }

  lemma NameChars(c: char)
    ensures NameChar(c) <==> 'a' <= c <= 'z' || '0' <= c <= '9' || c == '-'
    ensures IsNameChar(c) <==> c in LOWER || c in DIGITS || c == '-'
  {
  }

  lemma LetterTable(c: char)
    ensures 'a' <= c <= 'z' <==> c in LOWER
  {
    hide LOWER;
    if 'a' <= c <= 'z' {
      LetterAt((c - 'a') as nat);
    }
    if c in LOWER {
      var i :| 0 <= i < |LOWER| && LOWER[i] == c;
      assert |LOWER| == 26 by { LetterAt(0); }
      LetterAt(i);
    }
  }

  lemma DigitRange(c: char)
    ensures '0' <= c <= '9' <==> c in DIGITS
  {
    if '0' <= c <= '9' {
      assert c == DIGITS[(c - '0') as int];
    }
  }

  lemma LabelIs(part: string)
    ensures ValidLabel(part) <==> IsLabel(part)
  {
    hide NameChar, IsNameChar;
    forall c ensures NameChar(c) <==> IsNameChar(c) {
      NameCharTable(c);
    }
  }

  lemma NameIs(h: string)
    ensures ValidName(h) <==> IsName(h)
  {
    hide ValidLabel, IsLabel, Split, Join;
    forall part ensures ValidLabel(part) <==> IsLabel(part) {
      LabelIs(part);
    }
    if ValidName(h) {
      JoinSplit(h, '.');
      assert AllLabels(Split(h, '.'));
    }
    if IsName(h) {
      var labels: seq<string> :| labels != [] && AllLabels(labels) && h == Join(labels, '.');
      forall i | 0 <= i < |labels| ensures '.' !in labels[i] {
        LabelHasNoDot(labels[i]);
      }
      SplitJoin(labels, '.');
    }
  }

  lemma LabelHasNoDot(part: string)
    requires IsLabel(part)
    ensures '.' !in part
  {
    hide NameChar, IsNameChar;
    NameCharTable('.');
    assert !NameChar('.') by { PunctuationNoName(); }
  }

  // --- Ports --------------------------------------------------------------------------

  lemma {:induction false} LeadingZeros(zeros: string, s: string)
    requires AllZeros(zeros) && AllDigits(s, 10)
    ensures AllDigits(zeros + s, 10) && NumeralValue(zeros + s, 10) == NumeralValue(s, 10)
    decreases |s|
  {
    var all := zeros + s;
    if s != "" {
      assert all[..|all| - 1] == zeros + s[..|s| - 1];
      LeadingZeros(zeros, s[..|s| - 1]);
    } else {
      assert all == zeros;
      ZerosAreZero(zeros);
    }
  }

  lemma {:induction false} ZerosAreZero(zeros: string)
    requires AllZeros(zeros)
    ensures AllDigits(zeros, 10) && NumeralValue(zeros, 10) == 0
  {
    if zeros != "" {
      ZerosAreZero(zeros[..|zeros| - 1]);
    }
  }

  lemma {:induction false} ZerosStripped(s: string) returns (zeros: string)
    requires AllDigits(s, 10) && NumeralValue(s, 10) > 0
    ensures AllZeros(zeros) && s == zeros + Itoa(NumeralValue(s, 10))
  {
    if s[0] != '0' {
      zeros := "";
      NumeralOfText(s);
    } else {
      assert s == "0" + s[1..];
      LeadingZeros("0", s[1..]);
      zeros := ZerosStripped(s[1..]);
      zeros := "0" + zeros;
    }
  }

  // strconv.Atoi on positive numbers.
  lemma AtoiExactly(q: string, n: nat)
    requires n > 0
    ensures Atoi(q) == Some(n) <==> NumberSpelled(q, n)
  {
    hide Atoi, Numeral;
    if Atoi(q) == Some(n) {
      AtoiSpelled(q, n);
    }
    if zeros: string :| AllZeros(zeros) && q in {zeros + Itoa(n), "+" + (zeros + Itoa(n))} {
      SpelledAtoi(zeros, n, q);
    }
  }

  lemma AtoiSpelled(q: string, n: nat)
    requires n > 0 && Atoi(q) == Some(n)
    ensures NumberSpelled(q, n)
  {
    hide NumeralValue, Numeral, AllDigits;
    var digits := if q[0] == '+' || q[0] == '-' then q[1..] else q;
    var zeros := ZerosStripped(digits);
    assert q == digits || q == "+" + digits;
  }

  lemma SpelledAtoi(zeros: string, n: nat, q: string)
    requires AllZeros(zeros) && q in {zeros + Itoa(n), "+" + (zeros + Itoa(n))}
    ensures Atoi(q) == Some(n)
  {
    hide NumeralValue, Numeral, AllDigits;
    var digits := zeros + Itoa(n);
    LeadingZeros(zeros, Itoa(n));
    assert DigitOf(digits[0], 10).Some? by { FirstDigit(digits); }
    assert q == "+" + digits ==> q[1..] == digits;
  }

  lemma FirstDigit(s: string)
    requires s != "" && AllDigits(s, 10)
    ensures DigitOf(s[0], 10).Some?
  {
  }

  lemma PortExactly(q: string, port: string)
    ensures CanonicalPort(q) == Some(port) <==> PortIs(q, port)
  {
    hide Atoi, Numeral;
    forall n: nat | n > 0 ensures Atoi(q) == Some(n) <==> NumberSpelled(q, n) {
      AtoiExactly(q, n);
    }
  }

  lemma PortText(q: string, port: string)
    requires PortIs(q, port)
    ensures ':' !in q && '[' !in q && ']' !in q && IsLower(q)
  {
    hide Numeral;
    if q != "" {
      var n: nat :| NumberSpelled(q, n) && port == Itoa(n);
      var zeros: string :| AllZeros(zeros) && q in {zeros + Itoa(n), "+" + (zeros + Itoa(n))};
      forall i | 0 <= i < |q| ensures '0' <= q[i] <= '9' || q[i] == '+' {
        ZerosBefore(zeros, Itoa(n));
      }
    }
  }

  lemma ZerosBefore(zeros: string, s: string)
    requires AllZeros(zeros) && AllDigits(s, 10)
    ensures forall i :: 0 <= i < |zeros + s| ==> '0' <= (zeros + s)[i] <= '9'
  {
    forall i | 0 <= i < |s| ensures '0' <= s[i] <= '9' {
      assert DigitOf(s[i], 10).Some?;
    }
  }

  // --- Hosts --------------------------------------------------------------------------

  lemma HostExactly(y: string, p: string, host: string)
    ensures CanonicalHost(y, p) == Target(host, p) <==> Denotes(y, host)
  {
    hide ParseIP, PrintIP, ValidLabel, FirstLabelError, Split, Spells, IsName;
    forall a ensures ParseIP(y) == Some(a) <==> Spells(y, a) {
      ParseIPExactly(y, a);
    }
    LabelsChecked(Split(y, '.'));
    NameIs(y);
  }

  // What a written host never holds.
  lemma DenotingText(y: string, host: string)
    requires Denotes(y, host)
    ensures y != "" && y[|y| - 1] != '.' && '[' !in y && ']' !in y && '*' !in y && ColonsPaired(y)
  {
    hide Spells, IsName, ColonsPaired, PrintIP, NameChar;
    if a :| Spells(y, a) && host == PrintIP(a) {
      ParseIPExactly(y, a);
      SpelledShape(y, a);
      NoBrackets(y);
    } else {
      NameIs(y);
      NameText(y);
      assert !NameChar('[') && !NameChar(']') && !NameChar(':') && !NameChar('*') by { PunctuationNoName(); }
      assert ColonsPaired(y) by { NoColons(y); }
    }
  }

  lemma NoColons(y: string)
    requires ':' !in y
    ensures ColonsPaired(y)
  {
  }

  lemma PunctuationNoName()
    ensures !NameChar('[') && !NameChar(']') && !NameChar(':') && !NameChar('.') && !NameChar('*')
  {
  }

  lemma NoBrackets(y: string)
    requires MadeOf(y, true, true)
    ensures y != "" && y[|y| - 1] != '.' && '[' !in y && ']' !in y && '*' !in y
  {
  }

  lemma DotTrimmed(x: string)
    ensures x in {TrimSuffix(x, "."), TrimSuffix(x, ".") + "."}
  {
    if HasSuffix(x, ".") {
      assert x == x[..|x| - 1] + x[|x| - 1..];
    }
  }

  lemma TrimmedHost(y: string, dot: bool)
    requires y != "" && y[|y| - 1] != '.'
    ensures TrimSuffix(if dot then y + "." else y, ".") == y
  {
    if dot {
      assert (y + ".")[..|y|] == y && (y + ".")[|y|..] == ".";
    }
  }

  // --- Host and port --------------------------------------------------------------------

  lemma SplitForm(s: string)
    requires SplitHostPort(s).Some?
    ensures
      var (x, q) := SplitHostPort(s).value;
      s == "[" + x + "]:" + q || (':' !in x && s == x + ":" + q)
  {
    hide LastIndexOf, IndexOf;
    var i := LastIndexOf(s, ':');
    if s[0] == '[' {
      BracketForm(s, IndexOf(s, ']'), i);
    } else {
      assert s == s[..i] + s[i..i + 1] + s[i + 1..] && s[i..i + 1] == ":";
    }
  }

  lemma BracketForm(s: string, end: nat, i: nat)
    requires 0 < end && end + 1 == i < |s| && s[0] == '[' && s[end] == ']' && s[i] == ':'
    ensures s == "[" + s[1..end] + "]:" + s[i + 1..]
  {
    assert s == s[..1] + s[1..end] + s[end..i + 1] + s[i + 1..];
    assert s[..1] == "[" && s[end..i + 1] == "]:";
  }

  // However w is written, its host part and its port are found.
  lemma WrittenParts(w: Written, host: string)
    requires w.Valid() && Denotes(w.name, host)
    requires w.port.Some? ==> exists p :: PortIs(w.port.value, p)
    ensures
      var s := w.Text();
      match w.port
      case Some(q) => SplitHostPort(s) == Some((w.Host(), q))
      case None => SplitHostPort(s) == None && Unbracket(s) == w.Host()
  {
    hide SplitHostPort, Denotes, ColonsPaired, PortIs;
    DenotingText(w.name, host);
    var x := w.Host();
    if w.port.Some? {
      var p :| PortIs(w.port.value, p);
      PortText(w.port.value, p);
      if w.brackets {
        BracketedSplits(x, w.port.value);
        BracketedText(x, w.port.value);
      } else {
        PlainSplits(x, w.port.value);
      }
    } else if w.brackets {
      BracketedNotSplit(x);
    } else if w.dot {
      DottedNotSplit(w.name);
    } else {
      BareHostNotSplit(x);
    }
  }

  // destination, exactly: host and port come back if and only if the authority is
  // one of the ways to write them.
  lemma DestinationExactly(authority: string, defaultPort: string, host: string, port: string)
    ensures Destination(authority, defaultPort) == Target(host, port) <==>
      exists w: Written :: w.Text() == ToLower(authority) && Names(w, defaultPort, host, port)
  {
    hide CanonicalHost, CanonicalPort, SplitHostPort, ToLower, TrimSuffix, Denotes, PortIs, Written.Text;
    if Destination(authority, defaultPort) == Target(host, port) {
      var w := DestinationWritten(authority, defaultPort, host, port);
    }
    if w: Written :| w.Text() == ToLower(authority) && Names(w, defaultPort, host, port) {
      WrittenNames(w, authority, defaultPort, host, port);
    }
  }

  lemma WrittenNames(w: Written, authority: string, defaultPort: string, host: string, port: string)
    requires w.Text() == ToLower(authority) && Names(w, defaultPort, host, port)
    ensures Destination(authority, defaultPort) == Target(host, port)
  {
    hide CanonicalHost, CanonicalPort, SplitHostPort, ToLower, TrimSuffix, Denotes, PortIs, Written.Text, ColonsPaired;
    WrittenParts(w, host);
    DenotingText(w.name, host);
    TrimmedHost(w.name, w.dot);
    PortExactly(w.PortOr(defaultPort), port);
    HostExactly(w.name, port, host);
  }

  lemma DestinationWritten(authority: string, defaultPort: string, host: string, port: string) returns (w: Written)
    requires Destination(authority, defaultPort) == Target(host, port)
    ensures w.Text() == ToLower(authority) && Names(w, defaultPort, host, port)
  {
    hide CanonicalHost, CanonicalPort, SplitHostPort, ToLower, TrimSuffix, Denotes, PortIs, Written.Text, Written.Host;
    var s := ToLower(authority);
    w := TextWritten(s);
    var q := w.PortOr(defaultPort);
    PortExactly(q, CanonicalPort(q).value);
    HostShape(w.name, CanonicalPort(q).value);
    HostExactly(w.name, port, host);
  }

  // Any text is written in one of these ways, around some host part.
  lemma TextWritten(s: string) returns (w: Written)
    ensures w.Text() == s
    ensures
      match SplitHostPort(s)
      case Some((x, q)) => w.port == Some(q) && w.name == TrimSuffix(x, ".") && (q != "" ==> w.Valid())
      case None => w.port == None && w.name == TrimSuffix(Unbracket(s), ".")
  {
    hide SplitHostPort, TrimSuffix;
    match SplitHostPort(s) {
      case Some((x, q)) =>
        var y := TrimSuffix(x, ".");
        DotTrimmed(x);
        SplitForm(s);
        w := Written(y, x != y, s == "[" + x + "]:" + q, Some(q));
        BracketedText(x, q);
      case None =>
        var x := Unbracket(s);
        var y := TrimSuffix(x, ".");
        DotTrimmed(x);
        w := Written(y, x != y, s != x, None);
        assert s != x ==> s == "[" + x + "]";
    }
  }

  lemma BracketedText(x: string, q: string)
    ensures "[" + x + "]" + ":" + q == "[" + x + "]:" + q
  {
    assert "[" + x + "]" + ":" == "[" + x + "]:";
  }

  // Letter case is no part of it: whatever the case of the letters of w, what is
  // read is what w says in lower case.
  lemma LowerWritten(w: Written)
    requires w.port.Some? ==> exists p :: PortIs(w.port.value, p)
    ensures ToLower(w.Text()) == w.(name := ToLower(w.name)).Text()
  {
    hide ToLower, PortIs;
    PunctuationLowered();
    LowerConcat(w.name, ".");
    LowerConcat("[" + w.Host(), "]");
    LowerConcat("[", w.Host());
    if w.port.Some? {
      var q := w.port.value;
      var p :| PortIs(q, p);
      PortText(q, p);
      LowerFixes(q);
      var host := if w.brackets then "[" + w.Host() + "]" else w.Host();
      LowerConcat(host + ":", q);
      LowerConcat(host, ":");
    }
  }

  lemma PunctuationLowered()
    ensures ToLower(".") == "." && ToLower(":") == ":" && ToLower("[") == "[" && ToLower("]") == "]"
  {
  }

  // Any spelling of an address, in any of the ways to write an authority.
  lemma AddressDestination(w: Written, a: Addr, defaultPort: string, port: string)
    requires w.Valid() && Spells(w.name, a) && PortIs(w.PortOr(defaultPort), port)
    ensures Destination(w.Text(), defaultPort) == Target(PrintIP(a), port)
  {
    hide Spells, PortIs, PrintIP, Written.Text, ToLower;
    SpellsLower(w.name, a);
    LowerWritten(w);
    ColonLowered(w.name);
    var w' := w.(name := ToLower(w.name));
    assert Denotes(w'.name, PrintIP(a));
    DestinationExactly(w.Text(), defaultPort, PrintIP(a), port);
  }

  lemma ColonLowered(s: string)
    ensures ':' in ToLower(s) <==> ':' in s
  {
    if ':' in s {
      var i :| 0 <= i < |s| && s[i] == ':';
      assert ToLower(s)[i] == ':';
    }
  }

  // Without a colon only four labels can be an address; `10.0.0.1.nip.io` is a
  // name, and stays one.
  lemma LabelsAreName(labels: seq<string>, defaultPort: string, port: string)
    requires labels != [] && |labels| != 4 && AllLabels(labels) && |Join(labels, '.')| <= 253
    requires PortIs(defaultPort, port)
    ensures Destination(Join(labels, '.'), defaultPort) == Target(Join(labels, '.'), port)
  {
    hide Join, AllLabels, PortIs, Spells, IsName, ToLower;
    var h := Join(labels, '.');
    LabelsNoAddress(labels);
    LowerFixes(h);
    var w := Written(h, false, false, None);
    assert w.Text() == ToLower(h) && Names(w, defaultPort, h, port);
    DestinationExactly(h, defaultPort, h, port);
  }

  lemma LabelsNoAddress(labels: seq<string>)
    requires labels != [] && |labels| != 4 && AllLabels(labels) && |Join(labels, '.')| <= 253
    ensures IsName(Join(labels, '.')) && IsLower(Join(labels, '.'))
    ensures forall a :: !Spells(Join(labels, '.'), a)
  {
    hide Join, IsLabel, ParseV6, Spells;
    var h := Join(labels, '.');
    forall i | 0 <= i < |labels| ensures '.' !in labels[i] {
      LabelHasNoDot(labels[i]);
    }
    SplitJoin(labels, '.');
    NotNothing(labels);
    NameIs(h);
    NameText(h);
    assert forall i :: 0 <= i < |h| ==> h[i] in h;
    assert !NameChar(':');
    forall a ensures !Spells(h, a) {
      ParseIPExactly(h, a);
    }
  }

  lemma NotNothing(labels: seq<string>)
    requires labels != [] && AllLabels(labels)
    ensures Join(labels, '.') != ""
  {
  }

  lemma NoAsterisk(w: Written, defaultPort: string, host: string, port: string)
    requires Names(w, defaultPort, host, port)
    ensures w.Text() != "" && w.Text()[0] != '*'
  {
    hide Denotes, PortIs, ColonsPaired;
    DenotingText(w.name, host);
    assert w.Host()[0] in w.name && w.Text()[0] in {'[', w.Host()[0]};
  }
}
