// The textual form of IP addresses, as net.ParseIP reads it and IP.String
// writes it. An address is eight 16-bit groups; an IPv4 address is held in its
// IPv4-mapped form (section 2.5.5.2 of RFC 4291), so the two spellings of one
// IPv4 address are one value.
module IPText {
  import opened Text

  type U16 = x: int | 0 <= x < 0x10000
  type Octet = x: int | 0 <= x < 256
  type Addr = g: seq<U16> | |g| == 8 witness [0, 0, 0, 0, 0, 0, 0, 0]

  function Zeros(n: nat): (z: seq<U16>)
    ensures |z| == n
    ensures forall i :: 0 <= i < n ==> z[i] == 0
  {
    seq(n, _ => 0)
  }

  // --- IPv4 ------------------------------------------------------------------

  function Mapped(a: Octet, b: Octet, c: Octet, d: Octet): Addr {
    [0, 0, 0, 0, 0, 0xffff, a * 256 + b, c * 256 + d]
  }

  predicate IsMapped(a: Addr) {
    a[..6] == [0, 0, 0, 0, 0, 0xffff]
  }

  // An octet is written without leading zeros.
  function ParseOctet(s: string): Option<Octet> {
    if s == "" || !AllDigits(s, 10) || (|s| > 1 && s[0] == '0') then None
    else
      var n := NumeralValue(s, 10);
      if n < 256 then Some(n) else None
  }

  function ParseV4(s: string): Option<Addr> {
    var parts := Split(s, '.');
    if |parts| != 4 then None
    else
      match (ParseOctet(parts[0]), ParseOctet(parts[1]), ParseOctet(parts[2]), ParseOctet(parts[3]))
      case (Some(a), Some(b), Some(c), Some(d)) => Some(Mapped(a, b, c, d))
      case _ => None
  }

  function PrintV4(a: Addr): string {
    Itoa(a[6] / 256) + "." + Itoa(a[6] % 256) + "." + Itoa(a[7] / 256) + "." + Itoa(a[7] % 256)
  }

  // --- IPv6 ------------------------------------------------------------------

  function HexLen(s: string): (n: nat)
    ensures n <= |s|
    ensures AllDigits(s[..n], 16)
    ensures n < |s| ==> DigitOf(s[n], 16).None?
  {
    if s == "" || DigitOf(s[0], 16).None? then 0
    else
      var n := 1 + HexLen(s[1..]);
      assert s[..n] == [s[0]] + s[1..][..n - 1];
      n
  }

  // The groups read so far and the position of "::" among them, -1 if unseen.
  datatype Groups = Groups(read: seq<U16>, ellipsis: int)

  // One pass of the group loop per call; s starts at the next group.
  function ParseGroups(s: string, acc: Groups): Option<Groups>
    decreases |s|
  {
    var n := HexLen(s);
    if |acc.read| >= 8 || n == 0 || n > 4 then None
    else if n < |s| && s[n] == '.' then
      // a trailing dotted quad stands for the last two groups
      if |acc.read| > 6 || (acc.ellipsis < 0 && |acc.read| != 6) then None
      else
        match ParseV4(s)
        case None => None
        case Some(a) => Some(acc.(read := acc.read + a[6..]))
    else
      HexWidth(s[..n]);
      AfterGroup(s[n..], acc.(read := acc.read + [NumeralValue(s[..n], 16)]))
  }

  // What may follow a group: the end, a colon and a group, or the ellipsis.
  function AfterGroup(rest: string, acc: Groups): Option<Groups>
    decreases |rest|
  {
    if rest == "" then Some(acc)
    else if rest[0] != ':' || |rest| == 1 then None
    else if rest[1] != ':' then ParseGroups(rest[1..], acc)
    else if acc.ellipsis >= 0 then None
    else if |rest| == 2 then Some(acc.(ellipsis := |acc.read|))
    else ParseGroups(rest[2..], acc.(ellipsis := |acc.read|))
  }

  lemma HexWidth(s: string)
    requires |s| <= 4 && AllDigits(s, 16)
    ensures NumeralValue(s, 16) < 0x10000
    ensures |s| <= 3 ==> NumeralValue(s, 16) < 0x1000
    ensures |s| <= 2 ==> NumeralValue(s, 16) < 0x100
    ensures |s| <= 1 ==> NumeralValue(s, 16) < 0x10
    decreases |s|
  {
    if s != "" {
      HexWidth(s[..|s| - 1]);
    }
  }

  // The ellipsis must stand for at least one group.
  function Expand(g: Groups): Option<Addr> {
    if |g.read| == 8 then (if g.ellipsis < 0 then Some(g.read) else None)
    else if |g.read| < 8 && 0 <= g.ellipsis <= |g.read| then
      Some(g.read[..g.ellipsis] + Zeros(8 - |g.read|) + g.read[g.ellipsis..])
    else None
  }

  function ParseV6(s: string): Option<Addr> {
    if s == "::" then Some(Zeros(8))
    else
      var start := if "::" <= s then Groups([], 0) else Groups([], -1);
      match ParseGroups(if "::" <= s then s[2..] else s, start)
      case None => None
      case Some(g) => Expand(g)
  }

  // net.ParseIP. The first of '.' and ':' selects the notation; a string in
  // dotted notation has no colon, so trying IPv4 first is the same thing. A
  // zone ("%eth0") is never accepted.
  function ParseIP(s: string): Option<Addr> {
    match ParseV4(s)
    case Some(a) => Some(a)
    case None => if ':' in s then ParseV6(s) else None
  }

  function ZeroRun(a: Addr, i: nat): (j: nat)
    requires i <= 8
    ensures i <= j <= 8
    ensures forall k :: i <= k < j ==> a[k] == 0
    ensures j < 8 ==> a[j] != 0
    decreases 8 - i
  {
    if i < 8 && a[i] == 0 then ZeroRun(a, i + 1) else i
  }

  predicate IsZeroRun(a: Addr, z: nat, e: nat) {
    z <= e <= 8 && forall k :: z <= k < e ==> a[k] == 0
  }

  predicate IsBest(a: Addr, best: (nat, nat)) {
    IsZeroRun(a, best.0, best.1) && (best == (8, 8) || best.1 - best.0 >= 2)
  }

  // The run that starts at i, if it has two groups and beats the best so far.
  function Better(a: Addr, i: nat, best: (nat, nat)): (r: (nat, nat))
    requires i <= 8 && IsBest(a, best)
    ensures IsBest(a, r)
  {
    var j := ZeroRun(a, i);
    if j - i >= 2 && j - i > best.1 - best.0 then (i, j) else best
  }

  // The first longest run of at least two zero groups from i on, or (8, 8) if
  // there is none better than the run already found.
  function LongestRun(a: Addr, i: nat, best: (nat, nat)): (r: (nat, nat))
    requires i <= 8 && IsBest(a, best)
    ensures IsBest(a, r)
    decreases 8 - i
  {
    if i == 8 then best else LongestRun(a, i + 1, Better(a, i, best))
  }

  function Length(run: (nat, nat)): int {
    run.1 - run.0
  }

  // No run that starts at i or later is longer than r, and none as long starts
  // before it.
  ghost predicate FirstLongest(a: Addr, r: (nat, nat), i: nat) {
    forall z: nat, e: nat :: i <= z && IsZeroRun(a, z, e) && e - z >= 2 ==>
      Length(r) >= e - z && (Length(r) == e - z ==> r.0 <= z)
  }

  lemma RunEnds(a: Addr, z: nat, e: nat)
    requires IsZeroRun(a, z, e)
    ensures e <= ZeroRun(a, z)
  {
    hide ZeroRun;
    var j := ZeroRun(a, z);
  }

  // A run found earlier gives way to longer ones only.
  lemma {:induction false} LongestFrom(a: Addr, i: nat, best: (nat, nat))
    requires i <= 8 && IsBest(a, best) && (best == (8, 8) || best.0 <= i)
    ensures
      var r := LongestRun(a, i, best);
      && Length(r) >= Length(best) && (Length(r) == Length(best) ==> r == best)
      && FirstLongest(a, r, i)
    decreases 8 - i
  {
    hide IsBest, Better, FirstLongest;
    if i == 8 {
      PastTheEnd(a, best);
    } else {
      OneMore(a, i, best, LongestRun(a, i + 1, Better(a, i, best)));
      LongestFrom(a, i + 1, Better(a, i, best));
    }
  }

  lemma PastTheEnd(a: Addr, r: (nat, nat))
    ensures FirstLongest(a, r, 8)
  {
  }

  lemma OneMore(a: Addr, i: nat, best: (nat, nat), r: (nat, nat))
    requires i < 8 && IsBest(a, best) && (best == (8, 8) || best.0 <= i)
    ensures
      var best' := Better(a, i, best);
      && (best' == (8, 8) || best'.0 <= i + 1) && Length(best') >= Length(best)
      && (Length(best') == Length(best) ==> best' == best)
      && (FirstLongest(a, r, i + 1) && Length(r) >= Length(best') && (Length(r) == Length(best') ==> r == best') ==>
            FirstLongest(a, r, i))
  {
    hide ZeroRun, IsZeroRun;
    var best' := Better(a, i, best);
    if FirstLongest(a, r, i + 1) && Length(r) >= Length(best') && (Length(r) == Length(best') ==> r == best') {
      forall z: nat, e: nat | i <= z && IsZeroRun(a, z, e) && e - z >= 2
        ensures Length(r) >= e - z && (Length(r) == e - z ==> r.0 <= z)
      {
        if z == i {
          RunEnds(a, i, e);
        }
      }
    }
  }

  // What the ellipsis of a canonical text stands for: the first longest run of at
  // least two zero groups, if there is one (section 4.2 of RFC 5952).
  lemma EllipsisIsFirstLongest(a: Addr)
    ensures
      var r := LongestRun(a, 0, (8, 8));
      && (r.0 == 8 ==> PrintV6(a) == HexGroups(a))
      && (r.0 == 8 ==> forall z: nat, e: nat :: IsZeroRun(a, z, e) ==> e - z < 2)
      && (r.0 < 8 ==> PrintV6(a) == HexGroupsOrEmpty(a[..r.0]) + "::" + HexGroupsOrEmpty(a[r.1..]))
      && (r.0 < 8 ==> IsZeroRun(a, r.0, r.1) && Length(r) >= 2 && FirstLongest(a, r, 0))
  {
    hide LongestRun, HexGroups, HexGroupsOrEmpty;
    LongestFrom(a, 0, (8, 8));
  }

  function HexGroups(g: seq<U16>): (s: string)
    requires |g| >= 1
  {
    if |g| == 1 then Numeral(g[0], 16) else Numeral(g[0], 16) + ":" + HexGroups(g[1..])
  }

  function HexGroupsOrEmpty(g: seq<U16>): string {
    if g == [] then "" else HexGroups(g)
  }

  function PrintV6(a: Addr): string {
    var (z, e) := LongestRun(a, 0, (8, 8));
    if z == 8 then HexGroups(a)
    else HexGroupsOrEmpty(a[..z]) + "::" + HexGroupsOrEmpty(a[e..])
  }

  // IP.String
  function PrintIP(a: Addr): string {
    if IsMapped(a) then PrintV4(a) else PrintV6(a)
  }
}
