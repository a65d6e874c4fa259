// What the server sends on a compose action, and what the reader makes of it: the
// two ends of the progress stream together.
module SentEvents {
  import opened Text
  import opened ComposeProgress

  // One write of the server: an event, or a comment that keeps the stream alive.
  datatype Frame = Sent(event: Event) | Keepalive

  // Event names have no white space around them, and lines of data begin with none.
  // The server's data are JSON texts of one line; several lines are sent as several
  // data fields.
  predicate Sendable(e: Event) {
    && '\n' !in e.kind && '\r' !in e.kind && '\r' !in e.data
    && (e.kind != "" ==> !IsJsSpace(e.kind[0]) && !IsJsSpace(e.kind[|e.kind| - 1]))
    && forall i :: 0 <= i < |DataLines(e)| ==> DataLines(e)[i] != "" ==> !IsJsSpace(DataLines(e)[i][0])
  }

  function DataLines(e: Event): seq<string> {
    Split(e.data, '\n')
  }

  function DataFields(lines: seq<string>): (f: seq<string>)
    ensures |f| == |lines|
  {
    seq(|lines|, i requires 0 <= i < |lines| => "data: " + lines[i])
  }

  function FrameLines(e: Event): seq<string> {
    ["event: " + e.kind] + DataFields(DataLines(e))
  }

  predicate AllSendable(frames: seq<Frame>) {
    forall i :: 0 <= i < |frames| ==> (frames[i].Sent? ==> Sendable(frames[i].event))
  }

  function FrameText(f: Frame): string {
    match f
    case Sent(e) => Join(FrameLines(e), '\n')
    case Keepalive => ": keepalive"
  }

  function StreamText(frames: seq<Frame>): string {
    if frames == [] then "" else FrameText(frames[0]) + ("\n\n" + StreamText(frames[1..]))
  }

  function Events(frames: seq<Frame>): seq<Event> {
    if frames == [] then []
    else (if frames[0].Sent? then [frames[0].event] else []) + Events(frames[1..])
  }

  function Texts(frames: seq<Frame>): (t: seq<string>)
    ensures |t| == |frames|
  {
    seq(|frames|, i requires 0 <= i < |frames| => FrameText(frames[i]))
  }

  // --- What should come of the events ----------------------------------------------

  function UpToError(events: seq<Event>): seq<Event> {
    if events == [] then []
    else if events[0].kind == "error" then [events[0]]
    else [events[0]] + UpToError(events[1..])
  }

  function FirstError(events: seq<Event>): Option<string> {
    if events == [] then None
    else if events[0].kind == "error" then Some(events[0].data)
    else FirstError(events[1..])
  }

  function LastDone(events: seq<Event>): Option<string> {
    if events == [] then None
    else if LastDone(events[1..]).Some? then LastDone(events[1..])
    else if events[0].kind == "done" then Some(events[0].data)
    else None
  }

  // --- One frame --------------------------------------------------------------------

  lemma FieldTrimmed(value: string)
    requires value != "" ==> !IsJsSpace(value[0])
    ensures TrimLeft(" " + value, IsJsSpace) == value
    ensures (value != "" ==> !IsJsSpace(value[|value| - 1])) ==> Trim(" " + value, IsJsSpace) == value
  {
    TrimLeftOf(" ", value, IsJsSpace);
    if value != "" ==> !IsJsSpace(value[|value| - 1]) {
      CoreTrimmed(" ", value, "", IsJsSpace);
      assert " " + value + "" == " " + value;
    }
  }

  lemma FieldLines(kind: string, data: string)
    ensures
      var event, payload := "event: " + kind, "data: " + data;
      && "event:" <= event && event[6..] == " " + kind && !("data:" <= event)
      && "data:" <= payload && payload[5..] == " " + data && !("event:" <= payload)
  {
    var event, payload := "event: " + kind, "data: " + data;
    assert event[0] == 'e' && payload[0] == 'd';
  }

  lemma {:induction false} FieldsRead(lines: seq<string>, kind: string)
    requires forall i :: 0 <= i < |lines| ==> lines[i] != "" ==> !IsJsSpace(lines[i][0])
    ensures Kind(DataFields(lines), kind) == kind && Data(DataFields(lines)) == lines
    decreases |lines|
  {
    hide Trim, TrimLeft, Kind, Data, IsJsSpace;
    var fields := DataFields(lines);
    if lines == [] {
      NoLines(kind);
      assert fields == [];
    } else {
      FieldLines("", lines[0]);
      FieldTrimmed(lines[0]);
      FieldStep(fields, 0, kind);
      FieldsRead(lines[1..], kind);
      assert fields[0..] == fields && fields[1..] == DataFields(lines[1..]);
      assert lines == [lines[0]] + lines[1..];
    }
  }

  lemma FrameRead(e: Event, kind: string)
    requires Sendable(e)
    ensures Kind(FrameLines(e), kind) == e.kind && Data(FrameLines(e)) == DataLines(e)
  {
    hide Trim, TrimLeft, Kind, Data, IsJsSpace, Split;
    var lines := FrameLines(e);
    FieldLines(e.kind, "");
    FieldTrimmed(e.kind);
    FieldStep(lines, 0, kind);
    FieldsRead(DataLines(e), e.kind);
    assert lines[0..] == lines && lines[1..] == DataFields(DataLines(e));
    assert [] + DataLines(e) == DataLines(e);
  }

  // The lines of a frame are whole, and none of them is empty.
  lemma FrameWhole(e: Event)
    requires Sendable(e)
    ensures Whole(FrameLines(e)) && forall i :: 0 <= i < |FrameLines(e)| ==> '\r' !in FrameLines(e)[i]
  {
    hide IsJsSpace, Split;
    SplitPieces(e.data, '\n');
    var lines := DataLines(e);
    forall i | 0 <= i < |FrameLines(e)|
      ensures var l := FrameLines(e)[i]; l != "" && '\n' !in l && '\r' !in l
    {
      if i == 0 {
        FieldName("event: ");
      } else {
        assert FrameLines(e)[i] == "data: " + lines[i - 1] && lines[i - 1] in lines;
        FieldName("data: ");
      }
    }
  }

  lemma FieldName(name: string)
    requires name in {"event: ", "data: "}
    ensures '\n' !in name && '\r' !in name && name != ""
  {
  }

  lemma SentDispatched(p: Progress, e: Event)
    requires Sendable(e)
    ensures
      var r := Dispatched(p, FrameText(Sent(e)));
      && r.log == p.log + [e]
      && r.completed == (if e.kind == "done" then Some(e.data) else p.completed)
      && r.failed == (if e.kind == "error" then Some(e.data) else p.failed)
  {
    hide Split, Join, Kind, Data, Sendable, FrameLines;
    FrameWhole(e);
    SplitJoin(FrameLines(e), '\n');
    FrameRead(e, "message");
    JoinSplit(e.data, '\n');
  }

  lemma KeepaliveDispatched(p: Progress)
    ensures Dispatched(p, FrameText(Keepalive)) == p
  {
    hide Trim, TrimLeft;
    var l := ": keepalive";
    SplitPiece(l, '\n');
    assert l[0] == ':';
    NoLines("message");
    var none: seq<string> := [];
    assert [l][1..] == none;
  }

  // --- The whole stream -------------------------------------------------------------

  predicate Whole(lines: seq<string>) {
    lines != [] && forall i :: 0 <= i < |lines| ==> lines[i] != "" && '\n' !in lines[i]
  }

  predicate Solid(text: string) {
    && text != "" && text[|text| - 1] != '\n'
    && forall j :: 0 <= j < |text| - 1 ==> !(text[j] == '\n' && text[j + 1] == '\n')
  }

  lemma {:induction false} JoinWhole(lines: seq<string>)
    requires Whole(lines)
    ensures Solid(Join(lines, '\n')) && Join(lines, '\n')[0] != '\n'
    decreases |lines|
  {
    hide Join;
    if |lines| == 1 {
      assert Join(lines, '\n') == lines[0] by { JoinSingle(lines); }
    } else {
      JoinWhole(lines[1..]);
      assert lines == [lines[0]] + lines[1..];
      JoinStep(lines[0], lines[1..], '\n');
      LineBefore(lines[0], Join(lines[1..], '\n'));
    }
  }

  lemma JoinSingle(lines: seq<string>)
    requires |lines| == 1
    ensures Join(lines, '\n') == lines[0]
  {
  }

  lemma LineBefore(line: string, text: string)
    requires line != "" && '\n' !in line && Solid(text) && text[0] != '\n'
    ensures Solid(line + ['\n'] + text) && (line + ['\n'] + text)[0] != '\n'
  {
    var all := line + ['\n'] + text;
    forall j | 0 <= j < |all| - 1 ensures !(all[j] == '\n' && all[j + 1] == '\n') {
      if j > |line| {
        assert all[j] == text[j - |line| - 1] && all[j + 1] == text[j - |line|];
      }
    }
  }

  lemma {:induction false} JoinWithout(lines: seq<string>, c: char)
    requires lines != [] && c != '\n' && forall i :: 0 <= i < |lines| ==> c !in lines[i]
    ensures c !in Join(lines, '\n')
    decreases |lines|
  {
    if |lines| > 1 {
      JoinWithout(lines[1..], c);
    }
  }

  lemma FrameUnbroken(f: Frame)
    requires f.Sent? ==> Sendable(f.event)
    ensures FrameText(f) != "" && '\r' !in FrameText(f) && Solid(FrameText(f))
  {
    hide Join, FrameLines, Sendable;
    if f.Sent? {
      FrameWhole(f.event);
      JoinWhole(FrameLines(f.event));
      JoinWithout(FrameLines(f.event), '\r');
    }
  }

  lemma FrameCut(f: Frame, rest: string)
    requires f.Sent? ==> Sendable(f.event)
    ensures Cut(FrameText(f) + ("\n\n" + rest)) == ([FrameText(f)] + Cut(rest).0, Cut(rest).1)
  {
    hide FrameText, Cut, BlankLine, Sendable;
    FrameUnbroken(f);
    TextCut(FrameText(f), rest);
  }

  lemma TextCut(text: string, rest: string)
    requires Solid(text)
    ensures Cut(text + ("\n\n" + rest)) == ([text] + Cut(rest).0, Cut(rest).1)
  {
    hide Cut, BlankLine;
    var s := text + ("\n\n" + rest);
    BlankLineFirst(s, |text|);
    CutStep(s);
    assert s[..|text|] == text && s[|text| + 2..] == rest;
  }

  lemma {:induction false} FramesCut(frames: seq<Frame>)
    requires AllSendable(frames)
    ensures Cut(StreamText(frames)) == (Texts(frames), "")
  {
    hide FrameText, Sendable, Cut;
    if frames == [] {
      CutNothing("");
    } else {
      FrameCut(frames[0], StreamText(frames[1..]));
      FramesCut(frames[1..]);
      assert Texts(frames) == [FrameText(frames[0])] + Texts(frames[1..]);
    }
  }

  lemma {:induction false} FramesDispatched(p: Progress, frames: seq<Frame>)
    requires AllSendable(frames) && p.failed.None?
    ensures
      var r, events := DispatchedAll(p, Texts(frames)), Events(frames);
      && r.log == p.log + UpToError(events)
      && r.failed == FirstError(events)
      && r.completed == (if LastDone(UpToError(events)).Some? then LastDone(UpToError(events)) else p.completed)
    decreases |frames|
  {
    hide FrameText, Sendable, Dispatched;
    if frames == [] {
      assert p.log + [] == p.log;
    } else {
      var f, rest := frames[0], frames[1..];
      assert Texts(frames)[0] == FrameText(f) && Texts(frames)[1..] == Texts(rest);
      if f == Keepalive {
        KeepaliveDispatched(p);
        FramesDispatched(p, rest);
        assert [] + Events(rest) == Events(rest);
      } else {
        SentDispatched(p, f.event);
        EventFirst(f.event, Events(rest));
        var p' := Dispatched(p, FrameText(f));
        if f.event.kind == "error" {
          FailedStays(p', Texts(rest));
        } else {
          FramesDispatched(p', rest);
          Grouped(p.log, [f.event], UpToError(Events(rest)));
        }
      }
    }
  }

  lemma FailedStays(p: Progress, events: seq<string>)
    requires p.failed.Some?
    ensures DispatchedAll(p, events) == p
  {
  }

  lemma EventFirst(e: Event, events: seq<Event>)
    ensures
      var all := [e] + events;
      && UpToError(all) == (if e.kind == "error" then [e] else [e] + UpToError(events))
      && FirstError(all) == (if e.kind == "error" then Some(e.data) else FirstError(events))
      && LastDone(UpToError(all)) ==
           if e.kind == "error" then None
           else if LastDone(UpToError(events)).Some? then LastDone(UpToError(events))
           else if e.kind == "done" then Some(e.data) else None
  {
    assert ([e] + events)[1..] == events;
    assert ([e] + UpToError(events))[1..] == UpToError(events);
    assert [e][1..] == [];
  }

  lemma {:induction false} StreamHasNoReturn(frames: seq<Frame>)
    requires AllSendable(frames)
    ensures '\r' !in StreamText(frames)
  {
    hide FrameText, Sendable;
    if frames != [] {
      FrameUnbroken(frames[0]);
      StreamHasNoReturn(frames[1..]);
    }
  }

  lemma {:induction false} NothingNormalised(s: string)
    requires '\r' !in s
    ensures Newlines(s) == s
  {
    if s != "" {
      NothingNormalised(s[1..]);
      assert s == [s[0]] + s[1..];
    }
  }

  lemma {:induction false} PieceOf(chunks: seq<string>, k: nat, c: char)
    requires k <= |chunks| && c in Concat(chunks[..k])
    ensures c in Concat(chunks)
    decreases |chunks|
  {
    if k == |chunks| {
      assert chunks[..k] == chunks;
    } else {
      var n := |chunks| - 1;
      assert chunks[..n][..k] == chunks[..k];
      PieceOf(chunks[..n], k, c);
    }
  }

  lemma WithoutReturns(chunks: seq<string>)
    requires '\r' !in Concat(chunks)
    ensures Fed(chunks) == Concat(chunks)
  {
    hide Newlines, Concat, Fed;
    forall k | 0 <= k < |chunks| ensures !Separates(Concat(chunks[..k]), chunks[k]) {
      var before := Concat(chunks[..k]);
      if before != "" && before[|before| - 1] == '\r' {
        PieceOf(chunks, k, '\r');
        assert false;
      }
    }
    FedIffBoundaryFree(chunks);
    NothingNormalised(Concat(chunks));
  }

  // For every sequence of frames and every chunking of their text: the observer is
  // told exactly the events sent, up to the first error; the action fails with that
  // error, or else ends with the last done.
  lemma SentIsObserved(frames: seq<Frame>, chunks: seq<string>)
    requires AllSendable(frames) && Concat(chunks) == StreamText(frames)
    ensures
      var p, events := Observed(Fed(chunks), ""), Events(frames);
      && p.log == UpToError(events)
      && p.failed == FirstError(events)
      && p.completed == LastDone(UpToError(events))
  {
    hide Cut, DispatchedAll, Sendable, Fed, Concat, StreamText, Texts;
    StreamHasNoReturn(frames);
    WithoutReturns(chunks);
    FramesCut(frames);
    FramesDispatched(START, frames);
    assert [] + UpToError(Events(frames)) == UpToError(Events(frames));
    assert "" + "" == "";
  }

  // The last frame counts even if the stream ends before its blank line.
  lemma UnfinishedIsObserved(frames: seq<Frame>, last: Event, chunks: seq<string>)
    requires AllSendable(frames) && Sendable(last)
    requires Concat(chunks) == StreamText(frames) + FrameText(Sent(last))
    ensures
      var p, events := Observed(Fed(chunks), ""), Events(frames + [Sent(last)]);
      && p.log == UpToError(events)
      && p.failed == FirstError(events)
      && p.completed == LastDone(UpToError(events))
  {
    hide Cut, DispatchedAll, Dispatched, Sendable, Fed, Concat, StreamText, Texts, FrameText, UpToError, FirstError,
      LastDone, Events, Trim;
    var text := FrameText(Sent(last));
    StreamHasNoReturn(frames);
    FrameUnbroken(Sent(last));
    WithoutReturns(chunks);
    FramesCut(frames);
    CutAppend(StreamText(frames), text);
    SolidCut(text);
    assert "" + text == text && text + "" == text && Texts(frames) + [] == Texts(frames);
    var p := DispatchedAll(START, Texts(frames));
    TextNotBlank(last);
    var all := frames + [Sent(last)];
    FramesDispatched(START, all);
    TextsSnoc(frames, Sent(last));
    DispatchedAppend(START, Texts(frames), [text]);
    OneDispatched(p, text);
    assert [] + UpToError(Events(all)) == UpToError(Events(all));
  }

  lemma TextsSnoc(frames: seq<Frame>, f: Frame)
    ensures Texts(frames + [f]) == Texts(frames) + [FrameText(f)]
  {
    hide FrameText;
  }

  lemma SolidCut(text: string)
    requires Solid(text)
    ensures Cut(text) == ([], text)
  {
    hide Cut;
    CutNothing(text);
  }

  lemma OneDispatched(p: Progress, text: string)
    ensures DispatchedAll(p, [text]) == if p.failed.Some? then p else Dispatched(p, text)
  {
    hide Dispatched;
    assert [text][1..] == [];
  }

  lemma TextNotBlank(e: Event)
    ensures Trim(FrameText(Sent(e)), IsJsSpace) != ""
  {
    hide Join, Split, TrimLeft, TrimRight;
    var text := FrameText(Sent(e));
    var lines := FrameLines(e);
    assert lines == [lines[0]] + lines[1..];
    JoinBegins(lines);
    assert text[0] == 'e' && !IsJsSpace('e');
    assert TrimLeft(text, IsJsSpace) == text by { NothingToTrim(text); }
    FirstKept(text);
  }

  lemma NothingToTrim(s: string)
    requires s != "" && !IsJsSpace(s[0])
    ensures TrimLeft(s, IsJsSpace) == s
  {
  }

  lemma {:induction false} FirstKept(s: string)
    requires s != "" && !IsJsSpace(s[0])
    ensures TrimRight(s, IsJsSpace) != ""
  {
    hide IsJsSpace;
    if IsJsSpace(s[|s| - 1]) {
      FirstKept(s[..|s| - 1]);
    }
  }

  lemma JoinBegins(lines: seq<string>)
    requires lines != [] && lines[0] != ""
    ensures Join(lines, '\n') != "" && Join(lines, '\n')[0] == lines[0][0]
  {
  }

  // So the last frame decides: an action ends with the payload of its done event, or
  // fails with that of its error event, whatever was sent before.
  lemma LastFrameDecides(frames: seq<Frame>, last: Event, chunks: seq<string>, truthy: string -> bool)
    requires AllSendable(frames) && Sendable(last)
    requires Concat(chunks) == StreamText(frames + [Sent(last)])
    requires forall i :: 0 <= i < |frames| ==> frames[i].Sent? ==> frames[i].event.kind !in {"done", "error"}
    ensures
      var p := Observed(Fed(chunks), "");
      && p.log == Events(frames) + [last]
      && (last.kind == "done" ==>
            Result(p, truthy) == if truthy(last.data) then Completed(last.data) else Incomplete)
      && (last.kind == "error" ==> Result(p, truthy) == Failed(last.data))
      && (last.kind !in {"done", "error"} ==> Result(p, truthy) == Incomplete)
  {
    hide Sendable, Observed, Fed, Concat, StreamText;
    SentIsObserved(frames + [Sent(last)], chunks);
    LastEvent(frames, last);
  }

  lemma {:induction false} LastEvent(frames: seq<Frame>, last: Event)
    requires forall i :: 0 <= i < |frames| ==> frames[i].Sent? ==> frames[i].event.kind !in {"done", "error"}
    ensures
      var events := Events(frames + [Sent(last)]);
      && events == UpToError(events) == Events(frames) + [last]
      && FirstError(events) == (if last.kind == "error" then Some(last.data) else None)
      && LastDone(events) == (if last.kind == "done" then Some(last.data) else None)
  {
    var all := frames + [Sent(last)];
    if frames == [] {
      assert all[1..] == [] && [last] + [] == [last] && [last][1..] == [];
    } else {
      var f, rest := frames[0], frames[1..];
      LastEvent(rest, last);
      assert all[1..] == rest + [Sent(last)];
      var events := Events(rest + [Sent(last)]);
      if f.Sent? {
        assert ([f.event] + events)[1..] == events;
        Grouped([f.event], Events(rest), [last]);
      } else {
        assert [] + events == events && [] + Events(rest) == Events(rest);
      }
    }
  }
}
