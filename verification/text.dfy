// Text helpers: the parts of Go's strings and strconv packages that the
// sidecar's authority handling relies on.
module Text {

  datatype Option<+T> = None | Some(value: T)

  function Bit(b: bool): nat {
    if b then 1 else 0
  }

  lemma Grouped<T>(a: seq<T>, b: seq<T>, c: seq<T>)
    ensures a + (b + c) == a + b + c
  {
  }

  // --- Case and trimming -------------------------------------------------

  // Unicode lower-casing, restricted to the code points whose image is ASCII.
  // U+212A (Kelvin sign) and U+0130 (dotted capital I) are the only two
  // non-ASCII ones. Every other non-ASCII character stays non-ASCII when it is
  // lower-cased, and no authority containing one is ever accepted.
  function LowerChar(c: char): char {
    if 'A' <= c <= 'Z' then c - 'A' + 'a'
    else if c == '\U{212A}' then 'k'
    else if c == '\U{0130}' then 'i'
    else c
  }

  const UPPER := "ABCDEFGHIJKLMNOPQRSTUVWXYZ"
  const LOWER := "abcdefghijklmnopqrstuvwxyz"

  lemma LetterAt(i: nat)
    requires i < 26
    ensures |LOWER| == 26 && LOWER[i] == 'a' + i as char
    ensures |UPPER| == 26 && UPPER[i] == 'A' + i as char
  {
  }

  // Of the ASCII characters the 26 capitals change, each to its small letter.
  lemma LowerTable(c: char)
    requires c < '\U{0080}'
    ensures c !in UPPER ==> LowerChar(c) == c
    ensures forall i :: 0 <= i < |UPPER| && UPPER[i] == c ==> i < |LOWER| && LowerChar(c) == LOWER[i]
  {
    hide UPPER, LOWER;
    LetterAt(0);
    forall i | 0 <= i < |UPPER| ensures LOWER[i] == 'a' + i as char && UPPER[i] == 'A' + i as char {
      LetterAt(i);
    }
    if 'A' <= c <= 'Z' {
      assert UPPER[(c - 'A') as int] == c;
    }
  }

  function ToLower(s: string): (r: string)
    ensures |r| == |s|
    ensures forall i :: 0 <= i < |s| ==> r[i] == LowerChar(s[i])
  {
    seq(|s|, i requires 0 <= i < |s| => LowerChar(s[i]))
  }

  predicate IsLower(s: string) {
    forall i :: 0 <= i < |s| ==> LowerChar(s[i]) == s[i]
  }

  lemma LowerFixes(s: string)
    requires IsLower(s)
    ensures ToLower(s) == s
  {
  }

  lemma LowerIdempotent(s: string)
    ensures IsLower(ToLower(s))
    ensures ToLower(ToLower(s)) == ToLower(s)
  {
  }

  // The code points with the Unicode White_Space property.
  predicate IsSpace(c: char) {
    || '\U{0009}' <= c <= '\U{000D}'
    || c == ' ' || c == '\U{0085}' || c == '\U{00A0}' || c == '\U{1680}'
    || '\U{2000}' <= c <= '\U{200A}'
    || c == '\U{2028}' || c == '\U{2029}' || c == '\U{202F}' || c == '\U{205F}' || c == '\U{3000}'
  }

  const WHITE := "\t\n\U{000B}\U{000C}\r \U{0085}\U{00A0}\U{1680}"
  const WIDE_WHITE := "\U{2000}\U{2001}\U{2002}\U{2003}\U{2004}\U{2005}\U{2006}\U{2007}\U{2008}\U{2009}\U{200A}"
                    + "\U{2028}\U{2029}\U{202F}\U{205F}\U{3000}"

  // All 25 of them.
  lemma SpaceTable(c: char)
    ensures IsSpace(c) <==> c in WHITE || c in WIDE_WHITE
  {
    hide WHITE, WIDE_WHITE;
    NarrowSpaces(c);
    WideSpaces(c);
  }

  lemma NarrowSpaces(c: char)
    ensures c in WHITE <==>
      '\U{0009}' <= c <= '\U{000D}' || c == ' ' || c == '\U{0085}' || c == '\U{00A0}' || c == '\U{1680}'
  {
    if '\U{0009}' <= c <= '\U{000D}' {
      assert WHITE[(c - '\U{0009}') as int] == c;
    } else if c == ' ' {
      assert WHITE[5] == c;
    } else if c == '\U{0085}' {
      assert WHITE[6] == c;
    } else if c == '\U{00A0}' {
      assert WHITE[7] == c;
    } else if c == '\U{1680}' {
      assert WHITE[8] == c;
    }
  }

  lemma WideSpaces(c: char)
    ensures c in WIDE_WHITE <==>
      || '\U{2000}' <= c <= '\U{200A}'
      || c == '\U{2028}' || c == '\U{2029}' || c == '\U{202F}' || c == '\U{205F}' || c == '\U{3000}'
  {
    var s := WIDE_WHITE;
    if '\U{2000}' <= c <= '\U{200A}' {
      assert s[(c - '\U{2000}') as int] == c;
    } else if c == '\U{2028}' {
      assert s[11] == c;
    } else if c == '\U{2029}' {
      assert s[12] == c;
    } else if c == '\U{202F}' {
      assert s[13] == c;
    } else if c == '\U{205F}' {
      assert s[14] == c;
    } else if c == '\U{3000}' {
      assert s[15] == c;
    }
  }

  // JavaScript white space and line terminators.
  predicate IsJsSpace(c: char) {
    || '\U{0009}' <= c <= '\U{000D}'
    || c == ' ' || c == '\U{00A0}' || c == '\U{1680}'
    || '\U{2000}' <= c <= '\U{200A}'
    || c == '\U{2028}' || c == '\U{2029}' || c == '\U{202F}' || c == '\U{205F}' || c == '\U{3000}'
    || c == '\U{FEFF}'
  }

  function TrimLeft<T>(s: seq<T>, space: T -> bool): seq<T> {
    if s != [] && space(s[0]) then TrimLeft(s[1..], space) else s
  }

  function TrimRight<T>(s: seq<T>, space: T -> bool): seq<T> {
    if s != [] && space(s[|s| - 1]) then TrimRight(s[..|s| - 1], space) else s
  }

  function Trim<T>(s: seq<T>, space: T -> bool): seq<T> {
    TrimRight(TrimLeft(s, space), space)
  }

  predicate Every<T>(s: seq<T>, p: T -> bool) {
    forall i :: 0 <= i < |s| ==> p(s[i])
  }

  lemma {:induction false} TrimLeftOf<T>(front: seq<T>, s: seq<T>, space: T -> bool)
    requires Every(front, space) && (s != [] ==> !space(s[0]))
    ensures TrimLeft(front + s, space) == s
  {
    if front == [] {
      assert front + s == s;
    } else {
      assert (front + s)[1..] == front[1..] + s;
      TrimLeftOf(front[1..], s, space);
    }
  }

  lemma {:induction false} TrimRightOf<T>(s: seq<T>, back: seq<T>, space: T -> bool)
    requires Every(back, space) && (s != [] ==> !space(s[|s| - 1]))
    ensures TrimRight(s + back, space) == s
  {
    if back == [] {
      assert s + back == s;
    } else {
      var n := |back| - 1;
      assert (s + back)[..|s| + n] == s + back[..n];
      TrimRightOf(s, back[..n], space);
    }
  }

  lemma {:induction false} TrimLeftRead<T>(s: seq<T>, space: T -> bool) returns (front: seq<T>)
    ensures Every(front, space) && s == front + TrimLeft(s, space)
    ensures TrimLeft(s, space) != [] ==> !space(TrimLeft(s, space)[0])
  {
    if s != [] && space(s[0]) {
      var more := TrimLeftRead(s[1..], space);
      front := [s[0]] + more;
    } else {
      front := [];
    }
  }

  lemma {:induction false} TrimRightRead<T>(s: seq<T>, space: T -> bool) returns (back: seq<T>)
    ensures Every(back, space) && s == TrimRight(s, space) + back && TrimRight(s, space) <= s
    ensures TrimRight(s, space) != [] ==> !space(TrimRight(s, space)[|TrimRight(s, space)| - 1])
  {
    if s != [] && space(s[|s| - 1]) {
      var n := |s| - 1;
      var more := TrimRightRead(s[..n], space);
      back := more + [s[n]];
    } else {
      back := [];
    }
  }

  ghost predicate Surrounded<T(!new)>(s: seq<T>, core: seq<T>, space: T -> bool) {
    && (core != [] ==> !space(core[0]) && !space(core[|core| - 1]))
    && exists front: seq<T>, back: seq<T> ::
         Every(front, space) && Every(back, space) && front + core + back == s
  }

  // Trimming takes all white space off both ends and nothing else.
  lemma TrimExactly<T(!new)>(s: seq<T>, core: seq<T>, space: T -> bool)
    ensures Trim(s, space) == core <==> Surrounded(s, core, space)
  {
    hide Every, TrimLeft, TrimRight;
    if Trim(s, space) == core {
      var front := TrimLeftRead(s, space);
      var back := TrimRightRead(TrimLeft(s, space), space);
      Grouped(front, core, back);
    }
    if Surrounded(s, core, space) {
      var front: seq<T>, back: seq<T> :| Every(front, space) && Every(back, space) && front + core + back == s;
      CoreTrimmed(front, core, back, space);
    }
  }

  lemma CoreTrimmed<T(!new)>(front: seq<T>, core: seq<T>, back: seq<T>, space: T -> bool)
    requires core != [] ==> !space(core[0]) && !space(core[|core| - 1])
    requires Every(front, space) && Every(back, space)
    ensures Trim(front + core + back, space) == core
  {
    hide TrimLeft, TrimRight;
    if core == [] {
      var s := front + core + back;
      assert s == s + [];
      TrimLeftOf(s, [], space);
      TrimRightOf([], [], space);
      assert [] + [] == core;
    } else {
      Grouped(front, core, back);
      TrimLeftOf(front, core + back, space);
      TrimRightOf(core, back, space);
    }
  }

  predicate HasSuffix(s: string, t: string) {
    |t| <= |s| && s[|s| - |t|..] == t
  }

  function TrimSuffix(s: string, t: string): string {
    if HasSuffix(s, t) then s[..|s| - |t|] else s
  }

  // --- Searching -----------------------------------------------------------

  function IndexOf(s: string, c: char): (i: int)
    ensures -1 <= i < |s|
    ensures i >= 0 ==> s[i] == c && c !in s[..i]
    ensures i < 0 <==> c !in s
  {
    if s == "" then -1
    else if s[0] == c then 0
    else
      var i := IndexOf(s[1..], c);
      assert i >= 0 ==> s[..i + 1] == [s[0]] + s[1..][..i];
      assert s == [s[0]] + s[1..];
      if i < 0 then -1 else i + 1
  }

  function LastIndexOf(s: string, c: char): (i: int)
    ensures -1 <= i < |s|
    ensures i >= 0 ==> s[i] == c && c !in s[i + 1..]
    ensures i < 0 <==> c !in s
  {
    if s == "" then -1
    else if s[|s| - 1] == c then |s| - 1
    else
      var i := LastIndexOf(s[..|s| - 1], c);
      assert i >= 0 ==> s[i + 1..] == s[..|s| - 1][i + 1..] + [s[|s| - 1]];
      assert s == s[..|s| - 1] + [s[|s| - 1]];
      i
  }

  lemma LastIndexUnique(s: string, c: char, i: nat)
    requires i < |s| && s[i] == c && c !in s[i + 1..]
    ensures LastIndexOf(s, c) == i
  {
    var k := LastIndexOf(s, c);
    assert forall j :: i < j < |s| ==> s[j] == s[i + 1..][j - i - 1];
    assert forall j :: k < j < |s| ==> s[j] == s[k + 1..][j - k - 1];
  }

  lemma IndexUnique(s: string, c: char, i: nat)
    requires i < |s| && s[i] == c && c !in s[..i]
    ensures IndexOf(s, c) == i
  {
    var k := IndexOf(s, c);
    assert forall j :: 0 <= j < i ==> s[j] == s[..i][j];
    assert k >= 0 ==> s[k] == c;
  }

  // --- Splitting and joining -------------------------------------------------

  function Split(s: string, sep: char): (parts: seq<string>)
    ensures |parts| >= 1
  {
    if s == "" then [""]
    else if s[0] == sep then [""] + Split(s[1..], sep)
    else
      var rest := Split(s[1..], sep);
      [[s[0]] + rest[0]] + rest[1..]
  }

  function Join(parts: seq<string>, sep: char): string
    requires |parts| >= 1
  {
    if |parts| == 1 then parts[0] else parts[0] + [sep] + Join(parts[1..], sep)
  }

  lemma SplitStep(s: string, sep: char)
    requires s != ""
    ensures
      var rest := Split(s[1..], sep);
      Split(s, sep) == if s[0] == sep then [""] + rest else [[s[0]] + rest[0]] + rest[1..]
  {
  }

  lemma JoinEmpty(rest: seq<string>, sep: char)
    requires |rest| >= 1
    ensures Join([""] + rest, sep) == [sep] + Join(rest, sep)
  {
    hide Join;
    JoinStep("", rest, sep);
    assert "" + [sep] + Join(rest, sep) == [sep] + Join(rest, sep);
  }

  lemma JoinStep(first: string, rest: seq<string>, sep: char)
    requires |rest| >= 1
    ensures Join([first] + rest, sep) == first + [sep] + Join(rest, sep)
  {
    assert ([first] + rest)[1..] == rest;
  }

  lemma JoinPut(c: char, rest: seq<string>, sep: char)
    requires |rest| >= 1
    ensures Join([[c] + rest[0]] + rest[1..], sep) == [c] + Join(rest, sep)
  {
    if |rest| > 1 {
      hide Join;
      assert rest == [rest[0]] + rest[1..];
      JoinStep([c] + rest[0], rest[1..], sep);
      JoinStep(rest[0], rest[1..], sep);
      assert [c] + rest[0] + [sep] + Join(rest[1..], sep) == [c] + (rest[0] + [sep] + Join(rest[1..], sep));
    }
  }

  lemma {:induction false} JoinSplit(s: string, sep: char)
    ensures Join(Split(s, sep), sep) == s
  {
    if s != "" {
      hide Join, Split;
      JoinSplit(s[1..], sep);
      var rest := Split(s[1..], sep);
      SplitStep(s, sep);
      assert s == [s[0]] + s[1..];
      if s[0] == sep {
        JoinEmpty(rest, sep);
      } else {
        JoinPut(s[0], rest, sep);
      }
    }
  }

  lemma {:induction false} SplitPiece(s: string, sep: char)
    requires sep !in s
    ensures Split(s, sep) == [s]
  {
    if s != "" {
      SplitPiece(s[1..], sep);
      assert [s[0]] + s[1..] == s;
    }
  }

  lemma {:induction false} SplitAppend(a: string, b: string, sep: char)
    ensures Split(a + [sep] + b, sep) == Split(a, sep) + Split(b, sep)
  {
    var whole := a + [sep] + b;
    if a == "" {
      assert whole[1..] == b;
    } else {
      assert whole[1..] == a[1..] + [sep] + b;
      SplitAppend(a[1..], b, sep);
    }
  }

  lemma {:induction false} SplitPieces(s: string, sep: char)
    ensures forall part :: part in Split(s, sep) ==> sep !in part
    ensures forall part, c :: part in Split(s, sep) && c in part ==> c in s
    ensures |Split(s, sep)| == 1 <==> sep !in s
  {
    if s != "" {
      SplitPieces(s[1..], sep);
      assert s == [s[0]] + s[1..];
      var rest := Split(s[1..], sep);
      assert rest[0] in rest;
      assert forall part :: part in rest[1..] ==> part in rest;
    }
  }

  lemma {:induction false} JoinAppend(a: seq<string>, b: seq<string>, sep: char)
    requires |a| >= 1 && |b| >= 1
    ensures Join(a + b, sep) == Join(a, sep) + [sep] + Join(b, sep)
  {
    assert (a + b)[1..] == a[1..] + b;
    if |a| > 1 {
      JoinAppend(a[1..], b, sep);
    }
  }

  lemma {:induction false} SplitJoin(parts: seq<string>, sep: char)
    requires parts != [] && forall i :: 0 <= i < |parts| ==> sep !in parts[i]
    ensures Split(Join(parts, sep), sep) == parts
  {
    hide Split;
    SplitPiece(parts[0], sep);
    if |parts| == 1 {
      assert parts == [parts[0]];
    } else {
      SplitJoin(parts[1..], sep);
      SplitAppend(parts[0], Join(parts[1..], sep), sep);
      assert parts == [parts[0]] + parts[1..];
    }
  }

  // --- Numerals --------------------------------------------------------------

  type Base = b: int | b == 10 || b == 16 witness 10

  function DigitChar(d: nat): (c: char)
    requires d < 16
    ensures DigitOf(c, 16) == Some(d)
    ensures d < 10 ==> DigitOf(c, 10) == Some(d)
  {
    if d < 10 then '0' + d as char else 'a' + (d - 10) as char
  }

  // The value of one digit; hexadecimal accepts both cases.
  function DigitOf(c: char, base: Base): (r: Option<nat>)
    ensures r.Some? ==> r.value < base
  {
    if '0' <= c <= '9' then Some((c - '0') as nat)
    else if base == 16 && 'a' <= c <= 'f' then Some((c - 'a') as nat + 10)
    else if base == 16 && 'A' <= c <= 'F' then Some((c - 'A') as nat + 10)
    else None
  }

  predicate AllDigits(s: string, base: Base) {
    forall i :: 0 <= i < |s| ==> DigitOf(s[i], base).Some?
  }

  function NumeralValue(s: string, base: Base): nat
    requires AllDigits(s, base)
  {
    if s == "" then 0
    else NumeralValue(s[..|s| - 1], base) * base + DigitOf(s[|s| - 1], base).value
  }

  // The canonical numeral: no sign, no leading zero, lower case.
  function Numeral(n: nat, base: Base): (s: string)
    ensures |s| >= 1
    ensures AllDigits(s, base) && IsLower(s)
    ensures NumeralValue(s, base) == n
    ensures n > 0 ==> s[0] != '0'
    ensures n == 0 ==> s == "0"
    decreases n
  {
    if n < base then
      var s := [DigitChar(n)];
      assert s[..0] == "";
      s
    else
      var front := Numeral(n / base, base);
      NumeralStep(n, base, front);
      front + [DigitChar(n % base)]
  }

  lemma NumeralStep(n: nat, base: Base, front: string)
    requires n >= base && |front| >= 1
    requires AllDigits(front, base) && IsLower(front) && NumeralValue(front, base) == n / base
    ensures
      var s := front + [DigitChar(n % base)];
      AllDigits(s, base) && IsLower(s) && NumeralValue(s, base) == n
  {
    var s := front + [DigitChar(n % base)];
    assert s[..|s| - 1] == front;
    assert (n / base) * base + n % base == n by { if base == 10 { } else { } }
  }

  // A numeral of k digits is below base^k; stated for the widths that occur.
  lemma NumeralWidth(n: nat, base: Base)
    ensures n < base ==> |Numeral(n, base)| == 1
    ensures n < base * base ==> |Numeral(n, base)| <= 2
    ensures base == 10 && n < 1000 ==> |Numeral(n, base)| <= 3
    ensures base == 16 && n < 0x10000 ==> |Numeral(n, base)| <= 4
  {
    if n >= base {
      NumeralWidth(n / base, base);
    }
  }

  // The digits of both bases, in order of their value, and no other character.
  lemma DigitTable(d: nat)
    requires d < 16
    ensures DigitOf("0123456789abcdef"[d], 16) == Some(d) && DigitOf("0123456789ABCDEF"[d], 16) == Some(d)
    ensures d < 10 ==> DigitOf("0123456789"[d], 10) == Some(d)
  {
  }

  lemma DigitChars(c: char)
    ensures DigitOf(c, 16).Some? <==> c in "0123456789abcdef" || c in "0123456789ABCDEF"
    ensures DigitOf(c, 10).Some? <==> c in "0123456789"
  {
    if DigitOf(c, 16).Some? {
      DigitAt(c, DigitOf(c, 16).value);
    }
  }

  lemma DigitAt(c: char, d: nat)
    requires DigitOf(c, 16) == Some(d)
    ensures d < 16 && c in {"0123456789abcdef"[d], "0123456789ABCDEF"[d]}
    ensures DigitOf(c, 10).Some? ==> d < 10 && c == "0123456789"[d]
  {
  }

  // A decimal text without leading zeros is the numeral of its value.
  lemma {:induction false} NumeralOfText(s: string)
    requires s != "" && AllDigits(s, 10) && (|s| > 1 ==> s[0] != '0')
    ensures Itoa(NumeralValue(s, 10)) == s
    ensures s[0] != '0' ==> NumeralValue(s, 10) > 0
  {
    var front, last := s[..|s| - 1], DigitOf(s[|s| - 1], 10).value;
    assert s == front + [s[|s| - 1]] && DigitChar(last) == s[|s| - 1];
    if front == "" {
      assert NumeralValue(s, 10) == last;
    } else {
      NumeralOfText(front);
      var n := NumeralValue(front, 10);
      assert (n * 10 + last) / 10 == n && (n * 10 + last) % 10 == last;
    }
  }

  // strconv.Atoi: an optional sign, then at least one decimal digit.
  function Atoi(s: string): Option<int> {
    var signed := s != "" && (s[0] == '+' || s[0] == '-');
    var digits := if signed then s[1..] else s;
    if digits == "" || !AllDigits(digits, 10) then None
    else
      var n: int := NumeralValue(digits, 10);
      Some(if signed && s[0] == '-' then -n else n)
  }

  function Itoa(n: nat): string {
    Numeral(n, 10)
  }

  lemma AtoiItoa(n: nat)
    ensures Atoi(Itoa(n)) == Some(n)
  {
    var s := Itoa(n);
    assert DigitOf(s[0], 10).Some?;
  }
}
