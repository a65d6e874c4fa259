// The compose progress reader: server-sent events taken from a stream of decoded
// text pieces (section 9.2.6 of the WHATWG HTML standard for the format).
module ComposeProgress {
  import opened Text

  // s.replace(/\r\n/g, '\n')
  function Newlines(s: string): string {
    if s == "" then ""
    else if |s| >= 2 && s[0] == '\r' && s[1] == '\n' then "\n" + Newlines(s[2..])
    else [s[0]] + Newlines(s[1..])
  }

  predicate HasBlankLine(s: string) {
    exists i :: 0 <= i < |s| - 1 && s[i] == '\n' && s[i + 1] == '\n'
  }

  // The index of the first blank-line separator, |s| if there is none.
  function BlankLine(s: string): (i: nat)
    ensures i <= |s|
    ensures i < |s| ==> i + 1 < |s| && s[i] == '\n' && s[i + 1] == '\n'
    ensures forall j :: 0 <= j < i && j + 1 < |s| ==> !(s[j] == '\n' && s[j + 1] == '\n')
  {
    if |s| < 2 then |s|
    else if s[0] == '\n' && s[1] == '\n' then 0
    else 1 + BlankLine(s[1..])
  }

  // s.split('\n\n'), as the complete events and the unfinished rest.
  function Cut(s: string): (seq<string>, string) {
    var i := BlankLine(s);
    if i == |s| then ([], s)
    else
      var (events, rest) := Cut(s[i + 2..]);
      ([s[..i]] + events, rest)
  }

  datatype Event = Event(kind: string, data: string)

  // completed is the payload of the last done event, failed that of the first
  // error event, which ends the stream. Payloads are kept as text: the JSON value
  // is a function of it.
  datatype Progress = Progress(log: seq<Event>, completed: Option<string>, failed: Option<string>)

  datatype Outcome = Completed(data: string) | Failed(data: string) | Incomplete

  function Kind(lines: seq<string>, kind: string): string {
    if lines == [] then kind
    else Kind(lines[1..], if "event:" <= lines[0] then Trim(lines[0][6..], IsJsSpace) else kind)
  }

  function Data(lines: seq<string>): seq<string> {
    if lines == [] then []
    else if "data:" <= lines[0] then [TrimLeft(lines[0][5..], IsJsSpace)] + Data(lines[1..])
    else Data(lines[1..])
  }

  // One block of lines becomes at most one event.
  function Handled(p: Progress, lines: seq<string>): Progress {
    var data := Data(lines);
    if data == [] then p
    else
      var event := Event(Kind(lines, "message"), Join(data, '\n'));
      var p' := p.(log := p.log + [event]);
      if event.kind == "done" then p'.(completed := Some(event.data))
      else if event.kind == "error" then p'.(failed := Some(event.data))
      else p'
  }

  function Dispatched(p: Progress, raw: string): Progress {
    Handled(p, Split(raw, '\n'))
  }

  function DispatchedAll(p: Progress, events: seq<string>): Progress
    decreases |events|
  {
    if events == [] || p.failed.Some? then p
    else DispatchedAll(Dispatched(p, events[0]), events[1..])
  }

  const START := Progress([], None, None)

  // The whole reader as a function of the text it was fed and of what the text
  // decoder flushes at the end.
  function Observed(text: string, flush: string): Progress {
    var (events, rest) := Cut(text);
    var p := DispatchedAll(START, events);
    if p.failed.None? && Trim(rest + flush, IsJsSpace) != "" then Dispatched(p, rest + flush) else p
  }

  function Result(p: Progress, truthy: string -> bool): Outcome {
    if p.failed.Some? then Failed(p.failed.value)
    else if p.completed.Some? && truthy(p.completed.value) then Completed(p.completed.value)
    else Incomplete
  }

  // The text the reader sees: each piece is normalised on its own.
  function Fed(chunks: seq<string>): string {
    if chunks == [] then "" else Fed(chunks[..|chunks| - 1]) + Newlines(chunks[|chunks| - 1])
  }

  function Concat(chunks: seq<string>): string {
    if chunks == [] then "" else Concat(chunks[..|chunks| - 1]) + chunks[|chunks| - 1]
  }

  // --- The reader ------------------------------------------------------------------

  lemma NoLines(kind: string)
    ensures Kind([], kind) == kind && Data([]) == []
  {
  }

  lemma FieldStep(lines: seq<string>, i: nat, kind: string)
    requires i < |lines|
    ensures Kind(lines[i..], kind) ==
      Kind(lines[i + 1..], if "event:" <= lines[i] then Trim(lines[i][6..], IsJsSpace) else kind)
    ensures Data(lines[i..]) ==
      (if "data:" <= lines[i] then [TrimLeft(lines[i][5..], IsJsSpace)] else []) + Data(lines[i + 1..])
    ensures !("event:" <= lines[i] && "data:" <= lines[i])
  {
    hide Trim, TrimLeft;
    assert lines[i..][0] == lines[i] && lines[i..][1..] == lines[i + 1..];
    assert [] + Data(lines[i + 1..]) == Data(lines[i + 1..]);
    if "event:" <= lines[i] {
      assert lines[i][0] == 'e';
    }
  }

  method Dispatch(p: Progress, raw: string) returns (r: Progress)
    ensures r == Dispatched(p, raw)
  {
    hide Trim, TrimLeft, Kind, Data, Split, Join;
    var kind := "message";
    var dataLines: seq<string> := [];
    var lines := Split(raw, '\n');
    var i := 0;
    assert lines[0..] == lines;
    while i < |lines|
      invariant 0 <= i <= |lines|
      invariant Kind(lines, "message") == Kind(lines[i..], kind)
      invariant Data(lines) == dataLines + Data(lines[i..])
    {
      FieldStep(lines, i, kind);
      if "event:" <= lines[i] {
        kind := Trim(lines[i][6..], IsJsSpace);
      } else if "data:" <= lines[i] {
        dataLines := dataLines + [TrimLeft(lines[i][5..], IsJsSpace)];
      }
      i := i + 1;
    }
    assert lines[i..] == [] && dataLines + [] == dataLines;
    NoLines(kind);
    if |dataLines| == 0 {
      return p;
    }
    var data := Join(dataLines, '\n');
    r := p.(log := p.log + [Event(kind, data)]);
    if kind == "done" {
      r := r.(completed := Some(data));
    }
    if kind == "error" {
      r := r.(failed := Some(data));
    }
  }

  // Every piece is normalised, appended to the buffer, and the complete events
  // are cut off and dispatched; an error event ends the loop.
  method StreamComposeAction(chunks: seq<string>, flush: string, truthy: string -> bool)
    returns (p: Progress, outcome: Outcome)
    ensures p == Observed(Fed(chunks), Newlines(flush))
    ensures outcome == Result(p, truthy)
  {
    hide Newlines, Cut, Dispatched, Trim, Result;
    p := START;
    var buffer := "";
    var k := 0;
    assert chunks[..0] == [];
    assert Cut("") == ([], "") by { CutNothing(""); }
    while k < |chunks|
      invariant 0 <= k <= |chunks|
      invariant p.failed.None? && !HasBlankLine(buffer)
      invariant p == DispatchedAll(START, Cut(Fed(chunks[..k])).0) && buffer == Cut(Fed(chunks[..k])).1
    {
      ghost var before := Fed(chunks[..k]);
      var piece := Newlines(chunks[k]);
      assert chunks[..k + 1][..k] == chunks[..k];
      assert Fed(chunks[..k + 1]) == before + piece;
      CutAppend(before, piece);
      var (events, rest) := Cut(buffer + piece);
      CutRest(buffer + piece);
      DispatchedAppend(START, Cut(before).0, events);
      buffer := rest;
      ghost var p0 := p;
      var j := 0;
      assert events[0..] == events;
      while j < |events|
        invariant 0 <= j <= |events|
        invariant p.failed.None?
        invariant DispatchedAll(p0, events) == DispatchedAll(p, events[j..])
      {
        p := Dispatch(p, events[j]);
        j := j + 1;
        if p.failed.Some? {
          assert DispatchedAll(p0, events) == p;
          FedFails(chunks, k + 1, p);
          outcome := Result(p, truthy);
          return;
        }
      }
      assert events[j..] == [];
      k := k + 1;
    }
    assert chunks[..k] == chunks;
    buffer := buffer + Newlines(flush);
    if Trim(buffer, IsJsSpace) != "" {
      p := Dispatch(p, buffer);
    }
    outcome := Result(p, truthy);
  }

  lemma CutNothing(s: string)
    requires !HasBlankLine(s)
    ensures Cut(s) == ([], s)
  {
  }

  lemma {:induction false} CutRest(s: string)
    ensures !HasBlankLine(Cut(s).1)
    decreases |s|
  {
    var i := BlankLine(s);
    if i < |s| {
      CutRest(s[i + 2..]);
    }
  }

  lemma BlankLineFirst(s: string, i: nat)
    requires i + 1 < |s| && s[i] == '\n' && s[i + 1] == '\n'
    requires forall j :: 0 <= j < i ==> !(s[j] == '\n' && s[j + 1] == '\n')
    ensures BlankLine(s) == i
  {
  }

  // Cutting is incremental: what was cut stays cut, and only the rest meets the
  // new text.
  lemma {:induction false} CutAppend(s: string, t: string)
    ensures Cut(s + t) == (Cut(s).0 + Cut(Cut(s).1 + t).0, Cut(Cut(s).1 + t).1)
    decreases |s|
  {
    hide Cut, BlankLine;
    var i := BlankLine(s);
    CutStep(s);
    if i < |s| {
      BlankLineFirst(s + t, i);
      CutStep(s + t);
      var tail := s[i + 2..];
      assert (s + t)[i + 2..] == tail + t;
      assert (s + t)[..i] == s[..i];
      CutAppend(tail, t);
      ConsAppend(s[..i], Cut(tail).0, Cut(Cut(tail).1 + t).0);
    } else {
      assert [] + Cut(s + t).0 == Cut(s + t).0;
    }
  }

  lemma CutStep(s: string)
    ensures
      var i := BlankLine(s);
      Cut(s) == if i == |s| then ([], s) else ([s[..i]] + Cut(s[i + 2..]).0, Cut(s[i + 2..]).1)
  {
    hide BlankLine;
  }

  lemma ConsAppend(x: string, a: seq<string>, b: seq<string>)
    ensures [x] + (a + b) == [x] + a + b
  {
  }

  lemma {:induction false} DispatchedAppend(p: Progress, a: seq<string>, b: seq<string>)
    ensures DispatchedAll(p, a + b) == DispatchedAll(DispatchedAll(p, a), b)
    decreases |a|
  {
    hide Dispatched;
    if a == [] {
      assert a + b == b;
    } else if p.failed.None? {
      assert (a + b)[1..] == a[1..] + b;
      DispatchedAppend(Dispatched(p, a[0]), a[1..], b);
    }
  }

  // Once an error event has been dispatched, later text changes nothing.
  lemma {:induction false} FedFails(chunks: seq<string>, k: nat, p: Progress)
    requires k <= |chunks| && p.failed.Some?
    requires p == DispatchedAll(START, Cut(Fed(chunks[..k])).0)
    ensures p == DispatchedAll(START, Cut(Fed(chunks)).0)
    decreases |chunks| - k
  {
    hide Newlines, Cut, Dispatched;
    if k == |chunks| {
      assert chunks[..k] == chunks;
    } else {
      assert chunks[..k + 1][..k] == chunks[..k];
      var before, piece := Fed(chunks[..k]), Newlines(chunks[k]);
      CutAppend(before, piece);
      DispatchedAppend(START, Cut(before).0, Cut(Cut(before).1 + piece).0);
      FedFails(chunks, k + 1, p);
    }
  }

  // --- Chunk boundaries ------------------------------------------------------------

  // The boundary between a and b separates a carriage return from its line feed.
  predicate Separates(a: string, b: string) {
    a != "" && a[|a| - 1] == '\r' && b != "" && b[0] == '\n'
  }

  lemma NewlinesKeep(c: char, rest: string)
    requires !(c == '\r' && rest != "" && rest[0] == '\n')
    ensures Newlines([c] + rest) == [c] + Newlines(rest)
  {
    assert ([c] + rest)[1..] == rest;
  }

  lemma NewlinesJoin(rest: string)
    ensures Newlines(['\r', '\n'] + rest) == "\n" + Newlines(rest)
  {
    assert (['\r', '\n'] + rest)[2..] == rest;
  }

  lemma {:induction false} NewlinesAppend(a: string, b: string)
    ensures |Newlines(a + b)| + Bit(Separates(a, b)) == |Newlines(a)| + |Newlines(b)|
    ensures !Separates(a, b) ==> Newlines(a + b) == Newlines(a) + Newlines(b)
    decreases |a|
  {
    hide Newlines;
    if a == "" {
      EmptyNewlines();
      assert a + b == b;
    } else if |a| == 1 {
      LastCharacter(a[0], b);
      assert a == [a[0]];
    } else if a[0] == '\r' && a[1] == '\n' {
      var tail := a[2..];
      NewlinesAppend(tail, b);
      NewlinesJoin(tail);
      NewlinesJoin(tail + b);
      assert a == ['\r', '\n'] + tail && a + b == ['\r', '\n'] + (tail + b);
      SeparatesTail(a, 2, b);
    } else {
      var tail := a[1..];
      NewlinesAppend(tail, b);
      NewlinesKeep(a[0], tail);
      NewlinesKeep(a[0], tail + b);
      assert a == [a[0]] + tail && a + b == [a[0]] + (tail + b);
      SeparatesTail(a, 1, b);
    }
  }

  lemma SeparatesTail(a: string, k: nat, b: string)
    requires k <= |a|
    ensures k < |a| ==> (Separates(a[k..], b) <==> Separates(a, b))
    ensures 0 < k == |a| && a[k - 1] != '\r' ==> !Separates(a, b) && !Separates(a[k..], b)
  {
  }

  lemma LastCharacter(c: char, b: string)
    ensures |Newlines([c] + b)| + Bit(Separates([c], b)) == 1 + |Newlines(b)|
    ensures !Separates([c], b) ==> Newlines([c] + b) == [c] + Newlines(b)
    ensures Newlines([c]) == [c]
  {
    hide Newlines;
    NewlinesKeep(c, "");
    assert [c] + "" == [c] && Newlines("") == "" by { EmptyNewlines(); }
    if Separates([c], b) {
      NewlinesJoin(b[1..]);
      assert [c] + b == ['\r', '\n'] + b[1..];
      NewlinesKeep('\n', b[1..]);
      assert b == ['\n'] + b[1..];
    } else {
      NewlinesKeep(c, b);
    }
  }

  lemma EmptyNewlines()
    ensures Newlines("") == ""
  {
  }

  predicate BoundaryFree(chunks: seq<string>) {
    forall k :: 0 <= k < |chunks| ==> !Separates(Concat(chunks[..k]), chunks[k])
  }

  lemma BoundaryFreeFront(chunks: seq<string>)
    requires chunks != []
    ensures
      var k := |chunks| - 1;
      BoundaryFree(chunks) <==> BoundaryFree(chunks[..k]) && !Separates(Concat(chunks[..k]), chunks[k])
  {
    hide Separates, Concat;
    var k := |chunks| - 1;
    var front := chunks[..k];
    assert forall j :: 0 <= j < k ==> front[..j] == chunks[..j] && front[j] == chunks[j];
    if BoundaryFree(front) && !Separates(Concat(chunks[..k]), chunks[k]) {
      forall j | 0 <= j < |chunks| ensures !Separates(Concat(chunks[..j]), chunks[j]) {
        assert j < k ==> !Separates(Concat(front[..j]), front[j]);
      }
    }
  }

  // How many boundaries separate a CR from its LF.
  function Separations(chunks: seq<string>): nat {
    if chunks == [] then 0
    else
      var k := |chunks| - 1;
      Separations(chunks[..k]) + Bit(Separates(Concat(chunks[..k]), chunks[k]))
  }

  lemma {:induction false} FedLength(chunks: seq<string>)
    ensures |Fed(chunks)| == |Newlines(Concat(chunks))| + Separations(chunks)
    ensures Separations(chunks) == 0 ==> Fed(chunks) == Newlines(Concat(chunks))
    ensures Separations(chunks) == 0 <==> BoundaryFree(chunks)
  {
    hide Newlines, Separates;
    if chunks == [] {
      EmptyNewlines();
    } else {
      var k := |chunks| - 1;
      FedLength(chunks[..k]);
      NewlinesAppend(Concat(chunks[..k]), chunks[k]);
      BoundaryFreeFront(chunks);
    }
  }

  // The reader sees the normalised stream exactly when no chunk boundary
  // separates a CR from its LF.
  lemma FedIffBoundaryFree(chunks: seq<string>)
    ensures Fed(chunks) == Newlines(Concat(chunks)) <==> BoundaryFree(chunks)
  {
    hide *;
    FedLength(chunks);
  }

  // Then everything observable is a function of the concatenated text.
  lemma ObservedByText(chunks: seq<string>, flush: string)
    requires BoundaryFree(chunks)
    ensures Observed(Fed(chunks), flush) == Observed(Newlines(Concat(chunks)), flush)
  {
    hide *;
    FedIffBoundaryFree(chunks);
  }

  lemma ChunkingIrrelevant(chunks: seq<string>, others: seq<string>, flush: string)
    requires Concat(chunks) == Concat(others) && BoundaryFree(chunks) && BoundaryFree(others)
    ensures Observed(Fed(chunks), flush) == Observed(Fed(others), flush)
  {
    hide *;
    ObservedByText(chunks, flush);
    ObservedByText(others, flush);
  }

  // The pieces cut off, joined by blank lines, rebuild the text; none of them nor
  // the rest holds a separator.
  function Rebuilt(events: seq<string>, rest: string): string {
    if events == [] then rest else events[0] + ("\n\n" + Rebuilt(events[1..], rest))
  }

  lemma {:induction false} CutRebuilds(s: string)
    ensures Rebuilt(Cut(s).0, Cut(s).1) == s
    ensures forall e :: e in Cut(s).0 ==> !HasBlankLine(e)
    ensures !HasBlankLine(Cut(s).1)
    decreases |s|
  {
    hide Cut, BlankLine, HasBlankLine, Rebuilt;
    var i := BlankLine(s);
    CutStep(s);
    if i == |s| {
      Unbroken(s);
      RebuiltLast(s);
    } else {
      var tail := s[i + 2..];
      CutRebuilds(tail);
      PieceUnbroken(s, i);
      SplitAround(s, i);
      RebuiltStep(s[..i], Cut(tail).0, Cut(tail).1);
    }
  }

  lemma Unbroken(s: string)
    requires BlankLine(s) == |s|
    ensures !HasBlankLine(s)
  {
    hide BlankLine;
  }

  lemma PieceUnbroken(s: string, i: nat)
    requires i <= |s| && forall j :: 0 <= j < i && j + 1 < |s| ==> !(s[j] == '\n' && s[j + 1] == '\n')
    ensures !HasBlankLine(s[..i])
  {
    var t := s[..i];
    forall j | 0 <= j < |t| - 1 ensures !(t[j] == '\n' && t[j + 1] == '\n') {
      assert t[j] == s[j] && t[j + 1] == s[j + 1];
    }
  }

  lemma SplitAround(s: string, i: nat)
    requires i + 1 < |s| && s[i] == '\n' && s[i + 1] == '\n'
    ensures s == s[..i] + ("\n\n" + s[i + 2..])
  {
    assert s[i..i + 2] == "\n\n";
  }

  lemma RebuiltLast(rest: string)
    ensures Rebuilt([], rest) == rest
  {
  }

  lemma RebuiltStep(piece: string, events: seq<string>, rest: string)
    ensures Rebuilt([piece] + events, rest) == piece + ("\n\n" + Rebuilt(events, rest))
  {
    assert ([piece] + events)[1..] == events;
  }
}
