// Which chunkings the compose progress reader gets right, for every text: those
// that join no two blocks with data and retype no event, up to the first error.
module ExactDelivery {
  import opened Text
  import opened ComposeProgress
  import opened ChunkBoundaries
  import opened Delivery
  import opened EventBlocks

  // --- Exactly when nothing is lost --------------------------------------------------

  // The first block with data, |group| if there is none.
  function FirstTold(group: seq<Block>): (i: nat)
    ensures i <= |group| && (i < |group| ==> Data(group[i]) != [])
    ensures forall j :: 0 <= j < i ==> Data(group[j]) == []
  {
    if group == [] then 0
    else if Data(group[0]) != [] then 0
    else 1 + FirstTold(group[1..])
  }

  // Joining the blocks of the group leaves the data and the type of the one event
  // they hold: at most one of them has data, and the others do not retype it.
  predicate Harmless(group: seq<Block>)
    requires group != []
  {
    var i := FirstTold(group);
    i == |group|
    || (Data(Glued(group)) == Data(group[i]) && Kind(Glued(group), "message") == Kind(group[i], "message"))
  }

  predicate Fails(block: Block) {
    Data(block) != [] && Kind(block, "message") == "error"
  }

  // All groups are harmless up to the first that reports an error, which ends the
  // reader's work.
  predicate Intact(groups: seq<seq<Block>>)
    requires AllFull(groups)
  {
    groups == []
    || (Harmless(groups[0]) && (Fails(Glued(groups[0])) || Intact(groups[1..])))
  }

  lemma {:induction false} QuietAll(p: Progress, blocks: seq<Block>)
    requires forall j :: 0 <= j < |blocks| ==> Data(blocks[j]) == []
    ensures HandledAll(p, blocks) == p
    decreases |blocks|
  {
    hide Data;
    if blocks != [] {
      assert Data(blocks[0]) == [];
      HandledNothing(p, blocks[0]);
      assert forall j :: 0 <= j < |blocks[1..]| ==> blocks[1..][j] == blocks[j + 1];
      QuietAll(p, blocks[1..]);
    }
  }

  lemma {:induction false} AllAppend(p: Progress, a: seq<Block>, b: seq<Block>)
    ensures HandledAll(p, a + b) == HandledAll(HandledAll(p, a), b)
    decreases |a|
  {
    hide Handled;
    if a == [] {
      assert a + b == b;
    } else if p.failed.None? {
      assert (a + b)[1..] == a[1..] + b;
      AllAppend(Handled(p, a[0]), a[1..], b);
    }
  }

  lemma LogKept(p: Progress, lines: Block)
    ensures p.log <= Handled(p, lines).log
  {
    hide Kind, Data;
  }

  lemma {:induction false} LogGrows(p: Progress, blocks: seq<Block>)
    ensures p.log <= HandledAll(p, blocks).log
    decreases |blocks|
  {
    hide Handled;
    if blocks != [] && p.failed.None? {
      LogKept(p, blocks[0]);
      LogGrows(Handled(p, blocks[0]), blocks[1..]);
    }
  }

  // The data of a group is the data of its blocks.
  function AllData(blocks: seq<Block>): seq<string> {
    if blocks == [] then [] else Data(blocks[0]) + AllData(blocks[1..])
  }

  lemma {:induction false} GluedData(group: seq<Block>)
    requires group != []
    ensures Data(Glued(group)) == AllData(group)
    decreases |group|
  {
    hide Data;
    if |group| == 1 {
      assert group[1..] == [] && Data(group[0]) + [] == Data(group[0]);
    } else {
      GluedData(group[1..]);
      NoField(":", Glued(group[1..]));
      DataAppend(group[0], [":"] + Glued(group[1..]));
    }
  }

  lemma {:induction false} DataFrom(blocks: seq<Block>, i: nat)
    requires i <= |blocks| && forall j :: 0 <= j < i ==> Data(blocks[j]) == []
    ensures AllData(blocks) == AllData(blocks[i..])
    decreases i
  {
    hide Data;
    if i == 0 {
      assert blocks[0..] == blocks;
    } else {
      assert Data(blocks[0]) == [] && [] + AllData(blocks[1..]) == AllData(blocks[1..]);
      assert forall j :: 0 <= j < i - 1 ==> blocks[1..][j] == blocks[j + 1];
      assert blocks[1..][i - 1..] == blocks[i..];
      DataFrom(blocks[1..], i - 1);
    }
  }

  lemma {:induction false} NoData(blocks: seq<Block>)
    ensures AllData(blocks) == [] <==> forall j :: 0 <= j < |blocks| ==> Data(blocks[j]) == []
  {
    hide Data;
    if blocks != [] {
      NoData(blocks[1..]);
      assert forall j :: 0 <= j < |blocks[1..]| ==> blocks[1..][j] == blocks[j + 1];
    }
  }

  // The data of a group begins with that of its first block that has any.
  lemma GroupData(group: seq<Block>)
    requires group != []
    ensures
      var i := FirstTold(group);
      if i == |group| then Data(Glued(group)) == []
      else
        && Data(Glued(group)) == Data(group[i]) + AllData(group[i + 1..])
        && (AllData(group[i + 1..]) == [] <==> forall j :: i < j < |group| ==> Data(group[j]) == [])
  {
    hide Data, Glued, FirstTold;
    var i := FirstTold(group);
    GluedData(group);
    DataFrom(group, i);
    if i < |group| {
      var later := group[i + 1..];
      assert group[i..][0] == group[i] && group[i..][1..] == later;
      NoData(later);
      assert forall j :: 0 <= j < |later| ==> later[j] == group[i + 1 + j];
      assert forall j :: i < j < |group| ==> group[j] == later[j - i - 1];
    } else {
      assert group[i..] == [];
    }
  }

  lemma UpToFirstTold(p: Progress, group: seq<Block>)
    requires p.failed.None?
    ensures
      var i := FirstTold(group);
      HandledAll(p, group) ==
        if i == |group| then p else HandledAll(Handled(p, group[i]), group[i + 1..])
  {
    hide Handled, HandledAll, Data, FirstTold;
    var i := FirstTold(group);
    CutAt(group, i);
    QuietAll(p, group[..i]);
    AllAppend(p, group[..i], group[i..]);
    if i < |group| {
      HandledCons(p, group[i], group[i + 1..]);
    } else {
      NoneHandled(p);
    }
  }

  lemma CutAt(group: seq<Block>, i: nat)
    requires i <= |group|
    ensures group == group[..i] + group[i..]
    ensures group[i..] == if i == |group| then [] else [group[i]] + group[i + 1..]
    ensures forall j :: 0 <= j < i ==> group[..i][j] == group[j]
  {
  }

  lemma HarmlessGroup(p: Progress, group: seq<Block>)
    requires group != [] && Harmless(group) && p.failed.None?
    ensures HandledAll(p, group) == Handled(p, Glued(group))
  {
    hide Handled, HandledAll, Data, Kind, FirstTold, Glued;
    var i := FirstTold(group);
    UpToFirstTold(p, group);
    GroupData(group);
    if i == |group| {
      HandledNothing(p, Glued(group));
    } else {
      var later := group[i + 1..];
      assert Data(group[i]) + AllData(later) == Data(group[i]) ==> AllData(later) == [] by {
        assert |Data(group[i]) + AllData(later)| == |Data(group[i])| + |AllData(later)|;
      }
      NoData(later);
      QuietAll(Handled(p, group[i]), later);
      SameFields(p, Glued(group), group[i]);
    }
  }

  lemma {:induction false} BareLonger(a: seq<string>, b: seq<string>)
    requires a != [] && b != []
    ensures |Bare(Join(a + b, '\n'))| > |Bare(Join(a, '\n'))|
  {
    hide Join, Bare;
    JoinAppend(a, b, '\n');
    BareAppend(Join(a, '\n') + ['\n'], Join(b, '\n'));
    BareAppend(Join(a, '\n'), ['\n']);
    BareFixed(['\n']);
  }

  lemma BaredEvent(p: Progress, i: nat)
    requires i < |p.log|
    ensures i < |Bared(p).log| && Bared(p).log[i] == BareEvent(p.log[i])
  {
    hide BareEvent;
  }

  // The event of a block with data stays in the log.
  lemma EventStays(p: Progress, block: Block, later: seq<Block>)
    requires Data(block) != []
    ensures
      var log := HandledAll(Handled(p, block), later).log;
      |log| > |p.log| && log[|p.log|] == Event(Kind(block, "message"), Join(Data(block), '\n'))
  {
    hide Handled, HandledAll, Data, Kind, Join;
    HandledData(p, block);
    LogGrows(Handled(p, block), later);
  }

  // A group that is not harmless shows: its event differs in data or type from
  // the first one sent.
  lemma HarmShows(p: Progress, group: seq<Block>, later: seq<Block>, others: seq<Block>)
    requires group != [] && !Harmless(group) && p.failed.None?
    ensures Bared(HandledAll(p, group + later)) != Bared(HandledAll(p, [Glued(group)] + others))
  {
    hide Handled, HandledAll, Data, Kind, FirstTold, Glued, Join, Bare, Bared;
    var i := FirstTold(group);
    var block, glued := group[i], Glued(group);
    GroupData(group);
    UpToFirstTold(p, group);
    AllAppend(p, group, later);
    AllAppend(Handled(p, block), group[i + 1..], later);
    EventStays(p, block, group[i + 1..] + later);
    HandledCons(p, glued, others);
    EventStays(p, glued, others);
    BaredEvent(HandledAll(p, group + later), |p.log|);
    BaredEvent(HandledAll(p, [glued] + others), |p.log|);
    if Data(glued) != Data(block) {
      assert AllData(group[i + 1..]) != [] by {
        assert Data(block) + [] == Data(block);
      }
      BareLonger(Data(block), AllData(group[i + 1..]));
    }
  }

  lemma GroupFails(p: Progress, block: Block)
    requires p.failed.None?
    ensures Handled(p, block).failed.Some? <==> Fails(block)
  {
    hide Data, Kind;
    if Data(block) == [] {
      HandledNothing(p, block);
    } else {
      HandledData(p, block);
    }
  }

  lemma {:induction false} SameIffIntact(p: Progress, groups: seq<seq<Block>>)
    requires AllFull(groups) && p.failed.None?
    ensures Bared(HandledAll(p, Flat(groups))) == Bared(HandledAll(p, GluedAll(groups))) <==> Intact(groups)
    decreases |groups|
  {
    hide Handled, HandledAll, Data, Kind, Harmless, Glued, GluedAll, Fails, Bared, Flat;
    if groups == [] {
      FlatNone();
    } else {
      var g, rest := groups[0], groups[1..];
      assert groups == [g] + rest;
      FlatCons(g, rest);
      GluedCons(g, rest);
      if Harmless(g) {
        HarmlessGroup(p, g);
        AllAppend(p, g, Flat(rest));
        HandledCons(p, Glued(g), GluedAll(rest));
        GroupFails(p, Glued(g));
        if Fails(Glued(g)) {
          FailedAll(Handled(p, Glued(g)), Flat(rest));
          FailedAll(Handled(p, Glued(g)), GluedAll(rest));
        } else {
          SameIffIntact(Handled(p, Glued(g)), rest);
        }
      } else {
        HarmShows(p, g, Flat(rest), GluedAll(rest));
      }
    }
  }

  lemma FlatNone()
    ensures Flat([]) == [] && GluedAll([]) == []
  {
  }

  // The reader of the chunks handles the groups, that of the normalised text the
  // blocks.
  lemma SeenInGroups(chunks: seq<string>)
    ensures Bared(Observed(Fed(chunks), "")) == Bared(HandledAll(START, GluedAll(GroupsOf(chunks))))
    ensures Observed(Newlines(Concat(chunks)), "") == HandledAll(START, Flat(GroupsOf(chunks)))
  {
    hide Observed, Masked, Seen, Run, Offsets, Fed, Newlines, LinesOf, HandledAll, GluedAll, Flat, Groups, Bared,
      Fronted, Join;
    var lines, cuts := LinesOf(Concat(chunks)), Offsets(chunks);
    DeliveredAsMasked(chunks);
    SeenIsRun(START, Masked(lines, cuts, 0));
    RunGroups(START, [], lines, cuts, 0);
    ObservedUncut(Concat(chunks));
    SeenIsRun(START, Masked(lines, {}, 0));
    RunBlocks(START, [], lines, cuts, 0);
    FrontedTwice([], [], Flat(Groups(lines, cuts, 0)));
    FrontedTwice([], [], GluedAll(Groups(lines, cuts, 0)));
  }

  // For every chunking of every text: the reader observes what the normalised text
  // gives, carriage returns in payloads aside, exactly when no group up to the
  // first error joins two blocks with data or retypes an event.
  lemma ObservedIffIntact(chunks: seq<string>)
    ensures Bared(Observed(Fed(chunks), "")) == Bared(Observed(Newlines(Concat(chunks)), "")) <==>
      Intact(GroupsOf(chunks))
  {
    hide Observed, Fed, Newlines, HandledAll, GluedAll, Flat, GroupsOf, Bared, Intact, Concat;
    SeenInGroups(chunks);
    SameIffIntact(START, GroupsOf(chunks));
  }

  // --- Streams of plain events ---------------------------------------------------------

  // Only blocks with data name a type, as in every stream of events and comments.
  predicate Plain(group: seq<Block>) {
    forall i, l :: 0 <= i < |group| && Data(group[i]) == [] && l in group[i] ==> !("event:" <= l)
  }

  lemma {:induction false} Untyped(lines: Block, kind: string)
    requires forall l :: l in lines ==> !("event:" <= l)
    ensures Kind(lines, kind) == kind
  {
    if lines != [] {
      assert lines[0] in lines && forall l :: l in lines[1..] ==> l in lines;
      Untyped(lines[1..], kind);
    }
  }

  lemma {:induction false} PlainKind(group: seq<Block>, i: nat, kind: string)
    requires group != [] && Plain(group) && i <= |group|
    requires forall j :: 0 <= j < |group| && j != i ==> Data(group[j]) == []
    ensures Kind(Glued(group), kind) == if i < |group| then Kind(group[i], kind) else kind
    decreases |group|
  {
    hide Kind, Data;
    var first, rest := group[0], group[1..];
    if i != 0 {
      Untyped(first, kind);
    }
    if rest != [] {
      assert forall j :: 0 <= j < |rest| ==> rest[j] == group[j + 1];
      KindAppend(first, [":"] + Glued(rest), kind);
      NoField(":", Glued(rest));
      if i == 0 {
        PlainKind(rest, |rest|, Kind(first, kind));
      } else {
        PlainKind(rest, i - 1, kind);
      }
    }
  }

  // In such a stream a group is harmless exactly when at most one of its blocks
  // holds data.
  lemma PlainHarmless(group: seq<Block>)
    requires group != [] && Plain(group)
    ensures Harmless(group) <==>
      forall i, j :: 0 <= i < j < |group| ==> Data(group[i]) == [] || Data(group[j]) == []
  {
    hide Kind, Data, Glued, FirstTold, Plain;
    var i := FirstTold(group);
    GroupData(group);
    if i < |group| {
      assert Data(group[i]) + [] == Data(group[i]);
      if AllData(group[i + 1..]) == [] {
        PlainKind(group, i, "message");
      } else {
        assert |Data(group[i]) + AllData(group[i + 1..])| > |Data(group[i])|;
      }
    }
  }

  // --- The result -------------------------------------------------------------------

  function BareOutcome(o: Outcome): Outcome {
    match o
    case Completed(data) => Completed(Bare(data))
    case Failed(data) => Failed(Bare(data))
    case Incomplete => Incomplete
  }

  lemma ResultBared(p: Progress, truthy: string -> bool)
    requires forall s :: truthy(s) == truthy(Bare(s))
    ensures Result(Bared(p), truthy) == BareOutcome(Result(p, truthy))
  {
    hide Bare;
  }

  // Then the action's result, too, is the one the server sent.
  lemma ResultIfIntact(chunks: seq<string>, truthy: string -> bool)
    requires Intact(GroupsOf(chunks))
    requires forall s :: truthy(s) == truthy(Bare(s))
    ensures BareOutcome(Result(Observed(Fed(chunks), ""), truthy)) ==
      BareOutcome(Result(Observed(Newlines(Concat(chunks)), ""), truthy))
  {
    hide Observed, Intact, Fed, Newlines, GroupsOf, Concat, Bared, Result, BareOutcome, Bare;
    ObservedIffIntact(chunks);
    ResultBared(Observed(Fed(chunks), ""), truthy);
    ResultBared(Observed(Newlines(Concat(chunks)), ""), truthy);
  }

  // --- How many events arrive -----------------------------------------------------------

  // The blocks with data.
  function Told(blocks: seq<Block>): nat {
    if blocks == [] then 0 else Bit(Data(blocks[0]) != []) + Told(blocks[1..])
  }

  // The groups with data, up to the first that reports an error.
  function Arriving(groups: seq<seq<Block>>): nat
    requires AllFull(groups)
  {
    if groups == [] then 0
    else
      var glued := Glued(groups[0]);
      Bit(Data(glued) != []) + if Fails(glued) then 0 else Arriving(groups[1..])
  }

  // The blocks with data that are joined to an earlier one.
  function Lost(groups: seq<seq<Block>>): nat {
    if groups == [] then 0
    else
      var told := Told(groups[0]);
      (if told == 0 then 0 else told - 1) + Lost(groups[1..])
  }

  // Nothing is told after an error.
  predicate ErrorsLast(groups: seq<seq<Block>>)
    requires AllFull(groups)
  {
    groups == [] || ((Fails(Glued(groups[0])) ==> Told(Flat(groups[1..])) == 0) && ErrorsLast(groups[1..]))
  }

  lemma {:induction false} ArrivingLogged(p: Progress, groups: seq<seq<Block>>)
    requires AllFull(groups) && p.failed.None?
    ensures |HandledAll(p, GluedAll(groups)).log| == |p.log| + Arriving(groups)
    decreases |groups|
  {
    hide Handled, HandledAll, Data, Kind, Glued, GluedAll, Fails;
    if groups == [] {
      FlatNone();
      NoneHandled(p);
    } else {
      var g, rest := groups[0], groups[1..];
      var block := Glued(g);
      assert groups == [g] + rest;
      GluedCons(g, rest);
      HandledCons(p, block, GluedAll(rest));
      GroupFails(p, block);
      if Data(block) == [] {
        HandledNothing(p, block);
      } else {
        HandledData(p, block);
      }
      if Fails(block) {
        FailedAll(Handled(p, block), GluedAll(rest));
      } else {
        ArrivingLogged(Handled(p, block), rest);
      }
    }
  }

  lemma {:induction false} ToldAppend(a: seq<Block>, b: seq<Block>)
    ensures Told(a + b) == Told(a) + Told(b)
  {
    hide Data;
    if a == [] {
      assert a + b == b;
    } else {
      assert (a + b)[1..] == a[1..] + b;
      ToldAppend(a[1..], b);
    }
  }

  lemma {:induction false} ToldNone(blocks: seq<Block>)
    ensures Told(blocks) == 0 <==> AllData(blocks) == []
  {
    hide Data;
    if blocks != [] {
      ToldNone(blocks[1..]);
    }
  }

  lemma {:induction false} ArrivingAndLost(groups: seq<seq<Block>>)
    requires AllFull(groups) && ErrorsLast(groups)
    ensures Arriving(groups) + Lost(groups) == Told(Flat(groups))
    decreases |groups|
  {
    hide Data, Glued, Fails, Flat, Told;
    if groups == [] {
      FlatNone();
      NothingTold();
    } else {
      var g, rest := groups[0], groups[1..];
      assert groups == [g] + rest;
      FlatCons(g, rest);
      ToldAppend(g, Flat(rest));
      GluedData(g);
      ToldNone(g);
      ArrivingAndLost(rest);
    }
  }

  lemma NothingTold()
    ensures Told([]) == 0
  {
  }

  // One event is delivered for each group with data; so unless something is told
  // after an error, one for each block with data, less those joined to an earlier
  // one by cut blank lines.
  lemma EventsDelivered(chunks: seq<string>)
    ensures |Observed(Fed(chunks), "").log| == Arriving(GroupsOf(chunks))
    ensures ErrorsLast(GroupsOf(chunks)) ==>
      |Observed(Fed(chunks), "").log| == Told(Flat(GroupsOf(chunks))) - Lost(GroupsOf(chunks))
  {
    hide Observed, Fed, Newlines, HandledAll, GluedAll, Flat, GroupsOf, Arriving, ErrorsLast, Lost, Told, Concat;
    var groups := GroupsOf(chunks);
    SeenInGroups(chunks);
    ArrivingLogged(START, groups);
    SameLogSize(Observed(Fed(chunks), ""), HandledAll(START, GluedAll(groups)));
    if ErrorsLast(groups) {
      ArrivingAndLost(groups);
    }
  }

  lemma SameLogSize(p: Progress, q: Progress)
    requires Bared(p) == Bared(q)
    ensures |p.log| == |q.log|
  {
    assert |Bared(p).log| == |p.log| && |Bared(q).log| == |q.log|;
  }

  // --- The smallest case ------------------------------------------------------------------

  // A one-line block holding data, and its payload.
  predicate DataLine(x: string) {
    '\r' !in x && '\n' !in x && "data:" <= x
  }

  function Payload(x: string): string
    requires "data:" <= x
  {
    TrimLeft(x[5..], IsJsSpace)
  }

  lemma {:induction false} LeftPart(v: string)
    ensures forall c :: c in TrimLeft(v, IsJsSpace) ==> c in v
  {
    if v != "" && IsJsSpace(v[0]) {
      LeftPart(v[1..]);
    }
  }

  lemma DataBlock(x: string)
    requires DataLine(x)
    ensures Data([x]) == [Payload(x)] && Kind([x], "message") == "message"
    ensures x != "" && Bare(Payload(x)) == Payload(x)
  {
    hide TrimLeft, Trim, Bare;
    assert x[0] != 'e' && [x][1..] == [];
    LeftPart(x[5..]);
    BareFixed(Payload(x));
  }

  // Two blocks arrive as sent when the text is whole; with the blank line between
  // them cut, they arrive as one event with the two payloads on two lines.
  lemma BoundaryMatters(x: string, y: string)
    requires DataLine(x) && DataLine(y)
    ensures
      var whole, cut := [x + "\r\n\r\n" + y], [x + "\r\n\r", "\n" + y];
      && Concat(whole) == Concat(cut)
      && Bared(Observed(Fed(whole), "")).log == [Event("message", Payload(x)), Event("message", Payload(y))]
      && Bared(Observed(Fed(cut), "")).log == [Event("message", Payload(x) + "\n" + Payload(y))]
  {
    hide Fed, Observed, Masked, Seen, Bared, Payload, LinesOf, Offsets, Join, Concat, MaskedLine;
    var whole, cut := [x + "\r\n\r\n" + y], [x + "\r\n\r", "\n" + y];
    ThreeLines(x, y);
    CutOffsets(x, y);
    DeliveredAsMasked(whole);
    DeliveredAsMasked(cut);
    MaskedThree(x, y, Offsets(whole));
    MaskedThree(x, y, Offsets(cut));
    SeenWhole(x, y);
    SeenCut(x, y);
  }

  lemma ThreeLines(x: string, y: string)
    requires DataLine(x) && DataLine(y)
    ensures LinesOf(x + "\r\n\r\n" + y) == [x + "\r", "\r", y]
  {
    hide Join, Split;
    var lines := [x + "\r", "\r", y];
    assert "\r\n" + y == "\r" + ("\n" + y);
    JoinCons("\r", [y]);
    JoinOne(y);
    JoinCons(x + "\r", ["\r", y]);
    assert lines == [x + "\r"] + ["\r", y] && ["\r", y] == ["\r"] + [y];
    assert x + "\r" + ("\n" + ("\r" + ("\n" + y))) == x + "\r\n\r\n" + y;
    SplitJoin(lines, '\n');
  }

  lemma CutOffsets(x: string, y: string)
    ensures
      var whole, cut := [x + "\r\n\r\n" + y], [x + "\r\n\r", "\n" + y];
      && Concat(whole) == Concat(cut) == x + "\r\n\r\n" + y
      && |x| + 3 in Offsets(cut) && |x| + 3 !in Offsets(whole)
  {
    var text := x + "\r\n\r\n" + y;
    var whole, cut := [text], [x + "\r\n\r", "\n" + y];
    assert whole[..1] == whole && whole[..0] == [] && cut[..1] == [cut[0]] && cut[..1][..0] == [] && cut[..2] == cut;
    assert "" + whole[0] == whole[0] && "" + cut[0] == cut[0] && cut[0] + cut[1] == text;
    assert |Concat(cut[..1])| == |x| + 3;
  }

  lemma MaskedThree(x: string, y: string, cuts: set<nat>)
    ensures Masked([x + "\r", "\r", y], cuts, 0) ==
      [MaskedLine(x + "\r", |x| + 1 in cuts), if |x| + 3 in cuts then ":" else "", y]
    ensures x != "" ==> MaskedLine(x + "\r", |x| + 1 in cuts) == x
  {
    var lines := [x + "\r", "\r", y];
    assert lines[1..] == ["\r", y] && ["\r", y][1..] == [y];
    assert Masked(["\r", y], cuts, |x| + 2) == [MaskedLine("\r", |x| + 3 in cuts)] + Masked([y], cuts, |x| + 4);
    assert (x + "\r")[..|x|] == x;
  }

  lemma SeenWhole(x: string, y: string)
    requires DataLine(x) && DataLine(y)
    ensures Bared(Seen(START, [x, "", y])).log == [Event("message", Payload(x)), Event("message", Payload(y))]
  {
    hide Seen, Handled, Payload, Data, Kind, Run, Bare;
    DataBlock(x);
    DataBlock(y);
    SeenIsRun(START, [x, "", y]);
    assert [x, "", y] == [x] + ([""] + [y]) && [y] == [] + [y];
    FullBlockRun(START, [x], [y]);
    HandledData(START, [x]);
    FullLinesSeen(Handled(START, [x]), [y]);
    HandledData(Handled(START, [x]), [y]);
    JoinOne(Payload(x));
    JoinOne(Payload(y));
  }

  lemma SeenCut(x: string, y: string)
    requires DataLine(x) && DataLine(y)
    ensures Bared(Seen(START, [x, ":", y])).log == [Event("message", Payload(x) + "\n" + Payload(y))]
  {
    hide Seen, Handled, Payload, Data, Kind, Join, Run, Bare;
    DataBlock(x);
    DataBlock(y);
    var lines := [x] + ([":"] + [y]);
    assert [x, ":", y] == lines;
    NoField(":", [y]);
    DataAppend([x], [":"] + [y]);
    KindAppend([x], [":"] + [y], "message");
    SeenIsRun(START, lines);
    FullLinesSeen(START, lines);
    HandledData(START, lines);
    assert Data(lines) == [Payload(x)] + [Payload(y)];
    JoinCons(Payload(x), [Payload(y)]);
    JoinOne(Payload(y));
    BareAppend(Payload(x), "\n" + Payload(y));
    BareAppend("\n", Payload(y));
    BareFixed("\n");
    assert Payload(x) + ("\n" + Payload(y)) == Payload(x) + "\n" + Payload(y);
  }
}
