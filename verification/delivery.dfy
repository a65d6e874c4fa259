// What the compose progress reader delivers, for every chunking of every text:
// carriage returns in payloads aside, exactly what the normalised text would give
// if every empty line cut between its CR and its LF were a comment line.
module Delivery {
  import opened Text
  import opened ComposeProgress
  import opened ChunkBoundaries

  // --- The reader on lines --------------------------------------------------------

  // The first empty line from i on with a line on either side of it, |lines| if
  // there is none.
  function Separator(lines: seq<string>, i: nat): (k: nat)
    requires i <= |lines|
    ensures i <= k <= |lines|
    ensures k == |lines| || (k + 1 < |lines| && lines[k] == "")
    ensures forall j :: i <= j < k && j + 1 < |lines| ==> lines[j] != ""
    decreases |lines| - i
  {
    if i + 1 >= |lines| then |lines|
    else if lines[i] == "" then i
    else Separator(lines, i + 1)
  }

  // The reader from state p on: each run of lines up to a separator is a block.
  function Seen(p: Progress, lines: seq<string>): Progress
    requires lines != []
    decreases |lines|
  {
    var k := Separator(lines, 1);
    if p.failed.Some? then p
    else if k == |lines| then Handled(p, lines)
    else Seen(Handled(p, lines[..k]), lines[k + 1..])
  }

  // Joined lines hold no blank line if no line between the first and the last is
  // empty, and end in a line feed only if the last one is.
  lemma {:induction false} JoinUnbroken(lines: seq<string>)
    requires AreLines(lines) && forall i :: 1 <= i < |lines| - 1 ==> lines[i] != ""
    ensures
      var s := Join(lines, '\n');
      && !HasBlankLine(s) && (s == "" ==> |lines| == 1)
      && (s != "" && s[0] == '\n' ==> |lines| > 1 && lines[0] == "")
      && (s != "" && s[|s| - 1] == '\n' ==> |lines| > 1 && lines[|lines| - 1] == "")
  {
    hide HasBlankLine, Join;
    var l, rest := lines[0], lines[1..];
    assert l in lines;
    if rest == [] {
      JoinOne(l);
      assert lines == [l];
      LineAlone(l);
    } else {
      assert forall x :: x in rest ==> x in lines;
      assert forall i :: 1 <= i < |rest| - 1 ==> rest[i] == lines[i + 1];
      assert lines == [l] + rest && rest[0] == lines[1] && rest[|rest| - 1] == lines[|lines| - 1];
      JoinUnbroken(rest);
      JoinCons(l, rest);
      LineUnbroken(l, Join(rest, '\n'));
      if |rest| == 1 {
        JoinOne(rest[0]);
        assert rest == [rest[0]];
      }
    }
  }

  lemma LineAlone(l: string)
    requires '\n' !in l
    ensures !HasBlankLine(l)
    ensures l != "" ==> l[0] != '\n' && l[|l| - 1] != '\n'
  {
    assert l != "" ==> l[0] in l && l[|l| - 1] in l;
  }

  lemma LineUnbroken(l: string, rest: string)
    requires '\n' !in l && !HasBlankLine(rest) && (rest != "" ==> rest[0] != '\n')
    ensures
      var s := l + ("\n" + rest);
      && !HasBlankLine(s) && s != ""
      && (s[0] == '\n' ==> l == "")
      && (rest != "" ==> s[|s| - 1] == rest[|rest| - 1])
  {
    var s := l + ("\n" + rest);
    forall i | 0 <= i < |s| - 1 ensures !(s[i] == '\n' && s[i + 1] == '\n') {
      if i < |l| {
        assert s[i] == l[i];
      } else if i == |l| {
        assert s[i + 1] == rest[0];
      } else {
        assert s[i] == rest[i - |l| - 1] && s[i + 1] == rest[i - |l|];
      }
    }
    assert l != "" ==> s[0] == l[0] && l[0] in l;
  }

  lemma PieceCut(piece: string, rest: string)
    requires !HasBlankLine(piece) && (piece != "" ==> piece[|piece| - 1] != '\n')
    ensures Cut(piece + ("\n\n" + rest)) == ([piece] + Cut(rest).0, Cut(rest).1)
  {
    hide Cut, HasBlankLine;
    var s := piece + ("\n\n" + rest);
    PieceFirst(piece, rest);
    BlankLineFirst(s, |piece|);
    CutStep(s);
    PieceParts(piece, rest);
  }

  lemma PieceFirst(piece: string, rest: string)
    requires !HasBlankLine(piece) && (piece != "" ==> piece[|piece| - 1] != '\n')
    ensures
      var s := piece + ("\n\n" + rest);
      && s[|piece|] == '\n' && s[|piece| + 1] == '\n'
      && forall j :: 0 <= j < |piece| ==> !(s[j] == '\n' && s[j + 1] == '\n')
  {
    var s := piece + ("\n\n" + rest);
    forall j | 0 <= j < |piece| ensures !(s[j] == '\n' && s[j + 1] == '\n') {
      assert s[j] == piece[j];
      if j + 1 < |piece| {
        assert s[j + 1] == piece[j + 1];
      }
    }
  }

  lemma PieceParts(piece: string, rest: string)
    ensures (piece + ("\n\n" + rest))[..|piece|] == piece
    ensures (piece + ("\n\n" + rest))[|piece| + 2..] == rest
  {
  }

  // Cutting joined lines is cutting between lines.
  lemma CutJoined(lines: seq<string>)
    requires AreLines(lines)
    ensures
      var k := Separator(lines, 1);
      var s := Join(lines, '\n');
      if k == |lines| then Cut(s) == ([], s)
      else
        var rest := Join(lines[k + 1..], '\n');
        Cut(s) == ([Join(lines[..k], '\n')] + Cut(rest).0, Cut(rest).1)
  {
    hide Cut, HasBlankLine, Join, Separator;
    var k := Separator(lines, 1);
    if k == |lines| {
      JoinUnbroken(lines);
      CutNothing(Join(lines, '\n'));
    } else {
      var front, rest := lines[..k], lines[k + 1..];
      assert (forall l :: l in front ==> l in lines) && forall i :: 0 <= i < k ==> front[i] == lines[i];
      LinesAround(lines, k);
      CutAround(front, rest);
    }
  }

  lemma LinesAround(lines: seq<string>, k: nat)
    requires k < |lines| && lines[k] == ""
    ensures lines == lines[..k] + ([""] + lines[k + 1..])
  {
  }

  lemma CutAround(front: seq<string>, rest: seq<string>)
    requires AreLines(front) && (forall i :: 1 <= i < |front| ==> front[i] != "") && rest != []
    ensures
      var r := Join(rest, '\n');
      Cut(Join(front + ([""] + rest), '\n')) == ([Join(front, '\n')] + Cut(r).0, Cut(r).1)
  {
    hide Cut, HasBlankLine, Join;
    JoinUnbroken(front);
    JoinAround(front, rest);
    PieceCut(Join(front, '\n'), Join(rest, '\n'));
  }

  lemma JoinAround(front: seq<string>, rest: seq<string>)
    requires front != [] && rest != []
    ensures Join(front + ([""] + rest), '\n') == Join(front, '\n') + ("\n\n" + Join(rest, '\n'))
  {
    hide Join;
    JoinAppend(front, [""] + rest, '\n');
    JoinCons("", rest);
    assert Join(front, '\n') + ['\n'] + ("" + ("\n" + Join(rest, '\n'))) ==
      Join(front, '\n') + ("\n\n" + Join(rest, '\n'));
  }

  // --- Blank pieces ------------------------------------------------------------------

  lemma {:induction false} LeftKeeps(s: string, c: char, space: char -> bool)
    requires c in s && !space(c)
    ensures c in TrimLeft(s, space)
  {
    if space(s[0]) {
      LeftKeeps(s[1..], c, space);
    }
  }

  lemma {:induction false} RightKeeps(s: string, c: char, space: char -> bool)
    requires c in s && !space(c)
    ensures c in TrimRight(s, space)
    decreases |s|
  {
    if space(s[|s| - 1]) {
      RightKeeps(s[..|s| - 1], c, space);
    }
  }

  lemma {:induction false} DataShows(lines: seq<string>)
    requires Data(lines) != []
    ensures 'd' in Join(lines, '\n')
  {
    hide TrimLeft;
    if "data:" <= lines[0] {
      assert lines[0][0] == 'd';
      assert |lines| > 1 ==> Join(lines, '\n')[0] == 'd';
    } else {
      DataShows(lines[1..]);
    }
  }

  // A blank piece is not dispatched, and would deliver nothing.
  lemma BlankHasNoData(lines: seq<string>)
    requires lines != [] && Trim(Join(lines, '\n'), IsJsSpace) == ""
    ensures Data(lines) == []
  {
    hide Data, Join, TrimLeft, TrimRight;
    if Data(lines) != [] {
      DataShows(lines);
      LeftKeeps(Join(lines, '\n'), 'd', IsJsSpace);
      RightKeeps(TrimLeft(Join(lines, '\n'), IsJsSpace), 'd', IsJsSpace);
    }
  }

  // --- Observed on lines ----------------------------------------------------------------

  // The reader from state p on, at the end of a text.
  function Ended(p: Progress, s: string): Progress {
    var q := DispatchedAll(p, Cut(s).0);
    if q.failed.None? && Trim(Cut(s).1, IsJsSpace) != "" then Dispatched(q, Cut(s).1) else q
  }

  lemma DispatchedLines(p: Progress, lines: seq<string>)
    requires AreLines(lines)
    ensures Dispatched(p, Join(lines, '\n')) == Handled(p, lines)
  {
    hide Handled, Join, Split;
    SplitJoin(lines, '\n');
  }

  lemma HandledNothing(p: Progress, lines: seq<string>)
    requires Data(lines) == []
    ensures Handled(p, lines) == p
  {
    hide Data;
  }

  lemma LastBlock(p: Progress, lines: seq<string>)
    requires AreLines(lines)
    ensures
      var s := Join(lines, '\n');
      (if Trim(s, IsJsSpace) != "" then Dispatched(p, s) else p) == Handled(p, lines)
  {
    hide Join, Split, Trim, Handled, Dispatched, Data;
    DispatchedLines(p, lines);
    if Trim(Join(lines, '\n'), IsJsSpace) == "" {
      BlankHasNoData(lines);
      HandledNothing(p, lines);
    }
  }

  lemma NextBlock(p: Progress, piece: string, rest: string, s: string)
    requires p.failed.None? && Cut(s) == ([piece] + Cut(rest).0, Cut(rest).1)
    ensures
      var p' := Dispatched(p, piece);
      Ended(p, s) == if p'.failed.Some? then p' else Ended(p', rest)
  {
    hide Dispatched, Trim, Cut;
    var events := [piece] + Cut(rest).0;
    assert events[0] == piece && events[1..] == Cut(rest).0;
    var p' := Dispatched(p, piece);
    assert DispatchedAll(p, events) == DispatchedAll(p', Cut(rest).0);
    assert p'.failed.Some? ==> DispatchedAll(p', Cut(rest).0) == p';
  }

  lemma {:induction false} SeenJoined(p: Progress, lines: seq<string>)
    requires AreLines(lines) && p.failed.None?
    ensures Ended(p, Join(lines, '\n')) == Seen(p, lines)
    decreases |lines|
  {
    hide Join, Separator, Handled, Dispatched, Cut, Trim, Ended;
    var k := Separator(lines, 1);
    CutJoined(lines);
    if k == |lines| {
      EndedUncut(p, Join(lines, '\n'));
      LastBlock(p, lines);
    } else {
      var front, rest := lines[..k], lines[k + 1..];
      assert (forall l :: l in front ==> l in lines) && forall l :: l in rest ==> l in lines;
      NextBlock(p, Join(front, '\n'), Join(rest, '\n'), Join(lines, '\n'));
      DispatchedLines(p, front);
      if Handled(p, front).failed.None? {
        SeenJoined(Handled(p, front), rest);
      }
    }
  }

  lemma EndedUncut(p: Progress, s: string)
    requires Cut(s) == ([], s) && p.failed.None?
    ensures Ended(p, s) == if Trim(s, IsJsSpace) != "" then Dispatched(p, s) else p
  {
    hide Dispatched, Trim, Cut;
  }

  lemma ObservedLines(lines: seq<string>)
    requires AreLines(lines)
    ensures Observed(Join(lines, '\n'), "") == Seen(START, lines)
  {
    hide Join, Seen, Dispatched, Cut, Trim;
    SeenJoined(START, lines);
    var rest := Cut(Join(lines, '\n')).1;
    assert rest + "" == rest;
  }

  // --- Carriage returns aside --------------------------------------------------------------

  function Bare(s: string): string {
    if s == "" then "" else (if s[0] == '\r' then "" else [s[0]]) + Bare(s[1..])
  }

  function BareAll(texts: seq<string>): seq<string> {
    if texts == [] then [] else [Bare(texts[0])] + BareAll(texts[1..])
  }

  function BareEvent(e: Event): Event {
    e.(data := Bare(e.data))
  }

  function BareOption(o: Option<string>): Option<string> {
    if o.None? then None else Some(Bare(o.value))
  }

  function Bared(p: Progress): Progress {
    Progress(seq(|p.log|, i requires 0 <= i < |p.log| => BareEvent(p.log[i])),
             BareOption(p.completed), BareOption(p.failed))
  }

  lemma {:induction false} BareFixed(s: string)
    requires '\r' !in s
    ensures Bare(s) == s
  {
    if s != "" {
      assert s == [s[0]] + s[1..] && s[0] in s;
      BareFixed(s[1..]);
    }
  }

  lemma {:induction false} BareAppend(a: string, b: string)
    ensures Bare(a + b) == Bare(a) + Bare(b)
  {
    if a == "" {
      assert a + b == b;
    } else {
      assert (a + b)[1..] == a[1..] + b;
      BareAppend(a[1..], b);
    }
  }

  lemma {:induction false} BareJoin(texts: seq<string>)
    requires texts != []
    ensures BareAll(texts) != [] && Bare(Join(texts, '\n')) == Join(BareAll(texts), '\n')
  {
    hide Join, Bare;
    var t, rest := texts[0], texts[1..];
    if rest == [] {
      assert texts == [t] && BareAll(texts) == [Bare(t)];
      JoinOne(t);
      JoinOne(Bare(t));
    } else {
      assert texts == [t] + rest;
      BareJoin(rest);
      JoinCons(t, rest);
      JoinCons(Bare(t), BareAll(rest));
      BareAppend(t, "\n" + Join(rest, '\n'));
      BareAppend("\n", Join(rest, '\n'));
      BareFixed("\n");
    }
  }

  // --- Lines as fed and lines as meant -----------------------------------------------------

  // A line that is fed, and the line it stands for: a CR left at the end of a line
  // is of no account, and an empty line with one reads as a comment.
  predicate Same(fed: string, meant: string) {
    fed == meant || (meant != "" && fed == meant + "\r") || (fed == "\r" && meant == ":")
  }

  predicate SameLines(fed: seq<string>, meant: seq<string>) {
    |fed| == |meant| && forall i :: 0 <= i < |fed| ==> Same(fed[i], meant[i])
  }

  lemma {:induction false} LeftAppend(v: string)
    ensures TrimLeft(v + "\r", IsJsSpace) ==
      if TrimLeft(v, IsJsSpace) == "" then "" else TrimLeft(v, IsJsSpace) + "\r"
  {
    if v == "" {
      assert v + "\r" == "\r" && "\r"[1..] == "";
    } else {
      assert (v + "\r")[1..] == v[1..] + "\r";
      LeftAppend(v[1..]);
    }
  }

  lemma RightAppend(w: string)
    ensures TrimRight(w + "\r", IsJsSpace) == TrimRight(w, IsJsSpace)
  {
    assert (w + "\r")[..|w|] == w;
  }

  // A trailing CR changes a trimmed value not at all, and a value trimmed on the
  // left only by that CR.
  lemma ValueSame(v: string)
    ensures Trim(v + "\r", IsJsSpace) == Trim(v, IsJsSpace)
    ensures Bare(TrimLeft(v + "\r", IsJsSpace)) == Bare(TrimLeft(v, IsJsSpace))
  {
    hide TrimLeft, TrimRight, Bare;
    LeftAppend(v);
    var left := TrimLeft(v, IsJsSpace);
    RightAppend(left);
    BareAppend(left, "\r");
    BareReturn();
    assert Bare(left) + "" == Bare(left);
  }

  lemma BareReturn()
    ensures Bare("\r") == ""
  {
  }

  lemma FieldSame(fed: string, meant: string)
    requires Same(fed, meant)
    ensures "event:" <= fed <==> "event:" <= meant
    ensures "event:" <= meant ==> Trim(fed[6..], IsJsSpace) == Trim(meant[6..], IsJsSpace)
    ensures "data:" <= fed <==> "data:" <= meant
    ensures "data:" <= meant ==> Bare(TrimLeft(fed[5..], IsJsSpace)) == Bare(TrimLeft(meant[5..], IsJsSpace))
  {
    hide Trim, TrimLeft, Bare;
    if fed == meant + "\r" {
      PrefixKept("event:", meant);
      PrefixKept("data:", meant);
    }
    if "event:" <= meant {
      ValueSame(meant[6..]);
      assert fed == meant + "\r" ==> fed[6..] == meant[6..] + "\r";
    }
    if "data:" <= meant {
      ValueSame(meant[5..]);
      assert fed == meant + "\r" ==> fed[5..] == meant[5..] + "\r";
    }
  }

  lemma PrefixKept(field: string, l: string)
    requires field != "" && '\r' !in field
    ensures field <= l + "\r" <==> field <= l
  {
    assert field[|field| - 1] in field;
    assert |field| <= |l| ==> (l + "\r")[..|field|] == l[..|field|];
  }

  lemma {:induction false} KindSame(fed: seq<string>, meant: seq<string>, kind: string)
    requires SameLines(fed, meant)
    ensures Kind(fed, kind) == Kind(meant, kind)
    decreases |fed|
  {
    hide Same, Trim;
    if fed != [] {
      FieldSame(fed[0], meant[0]);
      KindSame(fed[1..], meant[1..], if "event:" <= meant[0] then Trim(meant[0][6..], IsJsSpace) else kind);
    }
  }

  lemma {:induction false} DataSame(fed: seq<string>, meant: seq<string>)
    requires SameLines(fed, meant)
    ensures BareAll(Data(fed)) == BareAll(Data(meant))
    ensures Data(fed) == [] <==> Data(meant) == []
    decreases |fed|
  {
    hide Same, TrimLeft, Bare;
    if fed != [] {
      FieldSame(fed[0], meant[0]);
      DataSame(fed[1..], meant[1..]);
      if "data:" <= meant[0] {
        var f, m := TrimLeft(fed[0][5..], IsJsSpace), TrimLeft(meant[0][5..], IsJsSpace);
        assert ([f] + Data(fed[1..]))[1..] == Data(fed[1..]) && ([m] + Data(meant[1..]))[1..] == Data(meant[1..]);
      }
    }
  }

  lemma HandledSame(p: Progress, q: Progress, fed: seq<string>, meant: seq<string>)
    requires SameLines(fed, meant) && Bared(p) == Bared(q)
    ensures Bared(Handled(p, fed)) == Bared(Handled(q, meant))
  {
    hide Kind, Data, Bare, BareAll, Join, SameLines, Bared;
    KindSame(fed, meant, "message");
    DataSame(fed, meant);
    if Data(fed) != [] {
      BareJoin(Data(fed));
      BareJoin(Data(meant));
      HandledBare(p, fed);
      HandledBare(q, meant);
    }
  }

  lemma HandledBare(p: Progress, lines: seq<string>)
    requires Data(lines) != []
    ensures Bared(Handled(p, lines)) ==
      Received(Bared(p), Event(Kind(lines, "message"), Bare(Join(Data(lines), '\n'))))
  {
    hide Kind, Data, Bare, BareAll, Join;
    BareLogged(p, Event(Kind(lines, "message"), Join(Data(lines), '\n')));
  }

  // One more event.
  function Received(p: Progress, e: Event): Progress {
    var p' := p.(log := p.log + [e]);
    if e.kind == "done" then p'.(completed := Some(e.data))
    else if e.kind == "error" then p'.(failed := Some(e.data))
    else p'
  }

  lemma BareLogged(p: Progress, e: Event)
    ensures Bared(p.(log := p.log + [e])) == Bared(p).(log := Bared(p).log + [BareEvent(e)])
  {
    hide BareEvent, BareOption;
  }

  lemma {:induction false} SeparatorSame(fed: seq<string>, meant: seq<string>, i: nat)
    requires SameLines(fed, meant) && i <= |fed|
    ensures Separator(fed, i) == Separator(meant, i)
    decreases |fed| - i
  {
    if i < |fed| {
      assert Same(fed[i], meant[i]);
      assert fed[i] == "" <==> meant[i] == "";
      SeparatorSame(fed, meant, i + 1);
    }
  }

  lemma {:induction false} SeenSame(p: Progress, q: Progress, fed: seq<string>, meant: seq<string>)
    requires SameLines(fed, meant) && fed != [] && Bared(p) == Bared(q)
    ensures Bared(Seen(p, fed)) == Bared(Seen(q, meant))
    decreases |fed|
  {
    hide SameLines, Separator, Handled, Bared;
    SeparatorSame(fed, meant, 1);
    SameSize(fed, meant);
    var k := Separator(fed, 1);
    FailedBare(p);
    FailedBare(q);
    if p.failed.None? {
      if k == |fed| {
        HandledSame(p, q, fed, meant);
      } else {
        SlicesSame(fed, meant, k);
        HandledSame(p, q, fed[..k], meant[..k]);
        SeenSame(Handled(p, fed[..k]), Handled(q, meant[..k]), fed[k + 1..], meant[k + 1..]);
      }
    }
  }

  lemma FailedBare(p: Progress)
    ensures Bared(p).failed.Some? <==> p.failed.Some?
  {
  }

  lemma SameSize(fed: seq<string>, meant: seq<string>)
    requires SameLines(fed, meant)
    ensures |fed| == |meant|
  {
  }

  lemma SlicesSame(fed: seq<string>, meant: seq<string>, k: nat)
    requires SameLines(fed, meant) && k < |fed|
    ensures SameLines(fed[..k], meant[..k]) && SameLines(fed[k + 1..], meant[k + 1..])
  {
    hide Same;
  }

  // --- What is delivered --------------------------------------------------------------------

  // The lines with their line ends normalised, and every cut empty line turned
  // into a comment.
  function MaskedLine(l: string, cut: bool): string {
    if l == "\r" && cut then ":" else Stripped(l)
  }

  function Masked(lines: seq<string>, cuts: set<nat>, at: nat): (m: seq<string>)
    requires lines != []
    ensures |m| == |lines|
    decreases |lines|
  {
    if |lines| == 1 then lines
    else
      var end := at + |lines[0]|;
      [MaskedLine(lines[0], end in cuts)] + Masked(lines[1..], cuts, end + 1)
  }

  lemma {:induction false} MaskedSame(lines: seq<string>, cuts: set<nat>, at: nat)
    requires AreLines(lines)
    ensures SameLines(FedLines(lines, cuts, at), Masked(lines, cuts, at))
    ensures AreLines(Masked(lines, cuts, at)) && AreLines(FedLines(lines, cuts, at))
    decreases |lines|
  {
    hide FedLines, Masked, Same, SameLines, AreLines, FedLine, MaskedLine;
    FirstLine(lines);
    if |lines| == 1 {
      MaskedLast(lines, cuts, at);
      FedLast(lines, cuts, at);
      SameSelf(lines);
    } else {
      var l, rest, end := lines[0], lines[1..], at + |lines[0]|;
      MaskedSame(rest, cuts, end + 1);
      FedCons(lines, cuts, at);
      MaskedCons(lines, cuts, at);
      MaskedHead(l, end in cuts);
      SameCons(FedLine(l, end in cuts), MaskedLine(l, end in cuts), FedLines(rest, cuts, end + 1),
               Masked(rest, cuts, end + 1));
    }
  }

  lemma FirstLine(lines: seq<string>)
    requires AreLines(lines)
    ensures lines != [] && '\n' !in lines[0] && (|lines| > 1 ==> AreLines(lines[1..]))
  {
    assert lines[0] in lines && forall l :: l in lines[1..] ==> l in lines;
  }

  lemma SameSelf(lines: seq<string>)
    ensures SameLines(lines, lines)
  {
  }

  lemma SameCons(f: string, m: string, fed: seq<string>, meant: seq<string>)
    requires Same(f, m) && SameLines(fed, meant) && '\n' !in m && '\n' !in f
    ensures SameLines([f] + fed, [m] + meant)
    ensures AreLines(meant) ==> AreLines([m] + meant)
    ensures AreLines(fed) ==> AreLines([f] + fed)
  {
    hide Same;
  }

  lemma MaskedLast(lines: seq<string>, cuts: set<nat>, at: nat)
    requires |lines| == 1
    ensures Masked(lines, cuts, at) == lines
  {
  }

  lemma MaskedCons(lines: seq<string>, cuts: set<nat>, at: nat)
    requires |lines| > 1
    ensures
      var end := at + |lines[0]|;
      Masked(lines, cuts, at) == [MaskedLine(lines[0], end in cuts)] + Masked(lines[1..], cuts, end + 1)
  {
  }

  lemma MaskedHead(l: string, cut: bool)
    requires '\n' !in l
    ensures Same(FedLine(l, cut), MaskedLine(l, cut))
    ensures '\n' !in FedLine(l, cut) && '\n' !in MaskedLine(l, cut)
  {
    if EndsInReturn(l) {
      assert l == l[..|l| - 1] + "\r";
    }
  }

  // The lines of a text.
  function LinesOf(text: string): (lines: seq<string>)
    ensures AreLines(lines) && Join(lines, '\n') == text
  {
    SplitPieces(text, '\n');
    JoinSplit(text, '\n');
    Split(text, '\n')
  }

  function MaskedText(chunks: seq<string>): seq<string> {
    Masked(LinesOf(Concat(chunks)), Offsets(chunks), 0)
  }

  // For every chunking of every text: what is observed is what the uncut text
  // would give if each empty line cut between its CR and its LF were a comment,
  // up to carriage returns in the payloads.
  lemma DeliveredAsMasked(chunks: seq<string>)
    ensures Bared(Observed(Fed(chunks), "")) == Bared(Observed(Join(MaskedText(chunks), '\n'), ""))
    ensures Observed(Join(MaskedText(chunks), '\n'), "") == Seen(START, MaskedText(chunks))
  {
    hide Observed, Join, Seen, FedLines, Masked, Kept, Offsets, SameLines, Fed, LinesOf;
    var lines, cuts := LinesOf(Concat(chunks)), Offsets(chunks);
    FedIsKept(chunks);
    KeptLines(lines, cuts, 0);
    MaskedSame(lines, cuts, 0);
    ObservedLines(FedLines(lines, cuts, 0));
    ObservedLines(Masked(lines, cuts, 0));
    SeenSame(START, START, FedLines(lines, cuts, 0), Masked(lines, cuts, 0));
  }

  // The normalised text, on lines.
  lemma ObservedUncut(text: string)
    ensures Observed(Newlines(text), "") == Seen(START, Masked(LinesOf(text), {}, 0))
  {
    hide Observed, Join, Seen, FedLines, Masked, Kept, Newlines, LinesOf;
    var lines := LinesOf(text);
    KeptUncut(text, {}, 0);
    KeptLines(lines, {}, 0);
    MaskedSame(lines, {}, 0);
    FedUncut(lines, 0);
    ObservedLines(Masked(lines, {}, 0));
  }

  lemma {:induction false} FedUncut(lines: seq<string>, at: nat)
    requires lines != []
    ensures FedLines(lines, {}, at) == Masked(lines, {}, at)
    decreases |lines|
  {
    if |lines| > 1 {
      FedUncut(lines[1..], at + |lines[0]| + 1);
    }
  }

  // The text the decoder flushes at the end never holds a line feed; then it is
  // as good as one more chunk.
  lemma FlushIsChunk(chunks: seq<string>, flush: string)
    requires '\n' !in flush
    ensures Observed(Fed(chunks), Newlines(flush)) == Observed(Fed(chunks + [flush]), "")
  {
    hide Newlines, Cut, Dispatched, Trim, Fed;
    NoLineEnds(flush);
    FedSnoc(chunks, flush);
    FlushCut(Fed(chunks), flush);
    var rest := Cut(Fed(chunks)).1 + flush;
    assert rest + "" == rest;
  }

  lemma FedSnoc(chunks: seq<string>, flush: string)
    ensures Fed(chunks + [flush]) == Fed(chunks) + Newlines(flush)
  {
    hide Newlines;
    assert (chunks + [flush])[..|chunks|] == chunks;
  }

  lemma NoLineEnds(s: string)
    requires '\n' !in s
    ensures Newlines(s) == s
  {
    hide Newlines, Kept;
    KeptUncut(s, {}, 0);
    KeptPlain(s, {}, 0);
  }

  lemma FlushCut(s: string, flush: string)
    requires '\n' !in flush
    ensures Cut(s + flush) == (Cut(s).0, Cut(s).1 + flush)
  {
    hide Cut;
    CutAppend(s, flush);
    CutRest(s);
    var rest := Cut(s).1;
    StillUnbroken(rest, flush);
    CutNothing(rest + flush);
    assert Cut(s).0 + [] == Cut(s).0;
  }

  lemma StillUnbroken(rest: string, flush: string)
    requires !HasBlankLine(rest) && '\n' !in flush
    ensures !HasBlankLine(rest + flush)
  {
    var s := rest + flush;
    forall i | 0 <= i < |s| - 1 ensures !(s[i] == '\n' && s[i + 1] == '\n') {
      if i + 1 < |rest| {
        assert s[i] == rest[i] && s[i + 1] == rest[i + 1];
      } else {
        assert s[i + 1] == flush[i + 1 - |rest|] && flush[i + 1 - |rest|] in flush;
      }
    }
  }
}
