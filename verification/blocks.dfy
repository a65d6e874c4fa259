// The blocks of a text and how the compose progress reader groups them: a cut
// between the CR and the LF of a blank line joins the blocks on either side of it.
module EventBlocks {
  import opened Text
  import opened ComposeProgress
  import opened ChunkBoundaries
  import opened Delivery

  // The lines between two blank lines; none of them is empty.
  type Block = seq<string>

  // --- Blocks and groups ----------------------------------------------------------

  // The first of some blocks begins with these lines.
  function Fronted(front: Block, blocks: seq<Block>): (r: seq<Block>)
    requires blocks != []
    ensures r != []
  {
    [front + blocks[0]] + blocks[1..]
  }

  predicate AllFull(groups: seq<seq<Block>>) {
    forall i :: 0 <= i < |groups| ==> groups[i] != []
  }

  // The blocks of a text, in groups: a blank line ends its block, and unless it
  // is cut between its CR and its LF also its group.
  function Groups(lines: seq<string>, cuts: set<nat>, at: nat): (groups: seq<seq<Block>>)
    requires lines != []
    ensures groups != [] && AllFull(groups)
    decreases |lines|
  {
    if |lines| == 1 then [[if lines[0] == "" then [] else lines]]
    else
      var l, end := Stripped(lines[0]), at + |lines[0]|;
      var rest := Groups(lines[1..], cuts, end + 1);
      if l != "" then [Fronted([l], rest[0])] + rest[1..]
      else if lines[0] == "\r" && end in cuts then [[[]] + rest[0]] + rest[1..]
      else [[[]]] + rest
  }

  function GroupsOf(chunks: seq<string>): (groups: seq<seq<Block>>)
    ensures groups != [] && AllFull(groups)
  {
    Groups(LinesOf(Concat(chunks)), Offsets(chunks), 0)
  }

  function Flat(groups: seq<seq<Block>>): seq<Block> {
    if groups == [] then [] else groups[0] + Flat(groups[1..])
  }

  // The lines of a group as the reader sees them, a comment for every blank line
  // it misses.
  function Glued(group: seq<Block>): Block
    requires group != []
  {
    if |group| == 1 then group[0] else group[0] + ([":"] + Glued(group[1..]))
  }

  function GluedAll(groups: seq<seq<Block>>): (r: seq<Block>)
    requires AllFull(groups)
    ensures |r| == |groups|
  {
    seq(|groups|, i requires 0 <= i < |groups| => Glued(groups[i]))
  }

  // The reader, block by block; an error event ends its work.
  function HandledAll(p: Progress, blocks: seq<Block>): Progress
    decreases |blocks|
  {
    if blocks == [] || p.failed.Some? then p else HandledAll(Handled(p, blocks[0]), blocks[1..])
  }

  // The reader, line by line; `front` holds the lines of the current block.
  function Run(p: Progress, front: Block, lines: seq<string>): Progress
    decreases |lines|
  {
    if p.failed.Some? then p
    else if lines == [] then Handled(p, front)
    else if lines[0] == "" then Run(Handled(p, front), [], lines[1..])
    else Run(p, front + [lines[0]], lines[1..])
  }

  // --- Fields of joined lines -------------------------------------------------------

  lemma {:induction false} DataAppend(a: seq<string>, b: seq<string>)
    ensures Data(a + b) == Data(a) + Data(b)
  {
    hide TrimLeft;
    if a == [] {
      assert a + b == b;
    } else {
      assert (a + b)[1..] == a[1..] + b;
      DataAppend(a[1..], b);
      Grouped(if "data:" <= a[0] then [TrimLeft(a[0][5..], IsJsSpace)] else [], Data(a[1..]), Data(b));
    }
  }

  lemma {:induction false} KindAppend(a: seq<string>, b: seq<string>, kind: string)
    ensures Kind(a + b, kind) == Kind(b, Kind(a, kind))
  {
    hide Trim;
    if a == [] {
      assert a + b == b;
    } else {
      assert (a + b)[1..] == a[1..] + b;
      KindAppend(a[1..], b, if "event:" <= a[0] then Trim(a[0][6..], IsJsSpace) else kind);
    }
  }

  // A line without a field, in front of or behind others.
  lemma NoField(l: string, lines: seq<string>)
    requires l == "" || l == ":"
    ensures Data([l] + lines) == Data(lines) && Data(lines + [l]) == Data(lines)
    ensures forall kind :: Kind([l] + lines, kind) == Kind(lines, kind)
    ensures forall kind :: Kind(lines + [l], kind) == Kind(lines, kind)
  {
    DataAppend([l], lines);
    DataAppend(lines, [l]);
    assert Data([l]) == [] && [] + Data(lines) == Data(lines) && Data(lines) + [] == Data(lines);
    forall kind
      ensures Kind([l] + lines, kind) == Kind(lines, kind) && Kind(lines + [l], kind) == Kind(lines, kind)
    {
      KindAppend([l], lines, kind);
      KindAppend(lines, [l], kind);
    }
  }

  lemma SameFields(p: Progress, a: Block, b: Block)
    requires Data(a) == Data(b) && Kind(a, "message") == Kind(b, "message")
    ensures Handled(p, a) == Handled(p, b)
  {
    hide Data, Kind, Join;
  }

  lemma HandledData(p: Progress, lines: seq<string>)
    requires Data(lines) != []
    ensures Handled(p, lines).log == p.log + [Event(Kind(lines, "message"), Join(Data(lines), '\n'))]
    ensures Handled(p, lines).failed.Some? <==> Kind(lines, "message") == "error" || p.failed.Some?
  {
    hide Kind, Data;
  }

  // --- From lines to blocks -----------------------------------------------------------

  lemma {:induction false} RunAppend(p: Progress, front: Block, a: seq<string>, b: seq<string>)
    requires forall j :: 0 <= j < |a| ==> a[j] != ""
    ensures Run(p, front, a + b) == Run(p, front + a, b)
    decreases |a|
  {
    hide Handled;
    if a == [] {
      assert a + b == b && front + a == front;
    } else {
      assert (a + b)[0] == a[0] && (a + b)[1..] == a[1..] + b;
      RunAppend(p, front + [a[0]], a[1..], b);
      assert front + [a[0]] + a[1..] == front + a;
      if p.failed.None? {
        RunLine(p, front, a[0], a[1..] + b);
        assert a + b == [a[0]] + (a[1..] + b);
      }
    }
  }

  lemma RunLine(p: Progress, front: Block, l: string, rest: seq<string>)
    ensures Run(p, front, [l] + rest) ==
      if p.failed.Some? then p
      else if l == "" then Run(Handled(p, front), [], rest) else Run(p, front + [l], rest)
  {
    hide Handled;
    assert ([l] + rest)[1..] == rest;
  }

  lemma RunEnd(p: Progress, front: Block)
    ensures Run(p, front, []) == if p.failed.Some? then p else Handled(p, front)
  {
    hide Handled;
  }

  lemma FirstEmpty(p: Progress, rest: seq<string>)
    ensures Run(p, [], [""] + rest) == Run(p, [], rest)
  {
    hide Handled;
    RunLine(p, [], "", rest);
    HandledEmpty(p);
  }

  lemma HandledEmpty(p: Progress)
    ensures Handled(p, []) == p
  {
  }

  // What the reader makes of a run of lines none of which is a separator.
  lemma UnbrokenSeen(p: Progress, lines: seq<string>)
    requires p.failed.None? && lines != [] && forall j :: 1 <= j && j + 1 < |lines| ==> lines[j] != ""
    ensures Run(p, [], lines) == Handled(p, lines)
  {
    hide Run, Handled, Data, Kind;
    if lines[0] == "" {
      assert lines == [""] + lines[1..];
      FirstEmpty(p, lines[1..]);
      NoField("", lines[1..]);
      SameFields(p, lines, lines[1..]);
      assert forall j :: 0 <= j && j + 1 < |lines[1..]| ==> lines[1..][j] == lines[j + 1];
      FullLinesSeen(p, lines[1..]);
    } else {
      FullLinesSeen(p, lines);
    }
  }

  // The same if only the last line may be empty.
  lemma FullLinesSeen(p: Progress, lines: seq<string>)
    requires p.failed.None? && forall j :: 0 <= j && j + 1 < |lines| ==> lines[j] != ""
    ensures Run(p, [], lines) == Handled(p, lines)
  {
    hide Run, Handled, Data, Kind;
    if lines != [] && lines[|lines| - 1] == "" {
      var full := lines[..|lines| - 1];
      assert lines == full + [""] && [] + full == full && [""] + [] == [""];
      assert forall j :: 0 <= j < |full| ==> full[j] == lines[j];
      RunAppend(p, [], full, [""]);
      RunLine(p, full, "", []);
      RunEnd(Handled(p, full), []);
      HandledEmpty(Handled(p, full));
      NoField("", full);
      SameFields(p, lines, full);
    } else {
      assert lines + [] == lines && [] + lines == lines;
      RunAppend(p, [], lines, []);
      RunEnd(p, lines);
    }
  }

  lemma {:induction false} SeenIsRun(p: Progress, lines: seq<string>)
    requires lines != []
    ensures Seen(p, lines) == Run(p, [], lines)
    decreases |lines|
  {
    hide Run, Handled, Separator;
    var k := Separator(lines, 1);
    if p.failed.Some? {
      FailedRun(p, [], lines);
    } else if k == |lines| {
      UnbrokenSeen(p, lines);
    } else {
      SeenIsRun(Handled(p, lines[..k]), lines[k + 1..]);
      BlockRun(p, lines, k);
    }
  }

  lemma FailedRun(p: Progress, front: Block, lines: seq<string>)
    requires p.failed.Some?
    ensures Run(p, front, lines) == p
  {
  }

  lemma FullBlockRun(p: Progress, full: Block, rest: seq<string>)
    requires p.failed.None? && forall j :: 0 <= j < |full| ==> full[j] != ""
    ensures Run(p, [], full + ([""] + rest)) == Run(Handled(p, full), [], rest)
  {
    hide Run, Handled;
    assert [] + full == full;
    RunAppend(p, [], full, [""] + rest);
    RunLine(p, full, "", rest);
  }

  lemma BlockRun(p: Progress, lines: seq<string>, k: nat)
    requires p.failed.None? && 1 <= k < |lines| && lines[k] == "" && forall j :: 1 <= j < k ==> lines[j] != ""
    ensures Run(p, [], lines) == Run(Handled(p, lines[..k]), [], lines[k + 1..])
  {
    hide Run, Handled, Data, Kind;
    var front, rest := lines[..k], lines[k + 1..];
    LinesAround(lines, k);
    if front[0] == "" {
      var full := front[1..];
      assert front == [""] + full;
      Grouped([""], full, [""] + rest);
      FirstEmpty(p, full + ([""] + rest));
      FullBlockRun(p, full, rest);
      NoField("", full);
      SameFields(p, front, full);
    } else {
      FullBlockRun(p, front, rest);
    }
  }

  // --- From blocks to groups ------------------------------------------------------------

  lemma GroupsLast(lines: seq<string>, cuts: set<nat>, at: nat)
    requires |lines| == 1
    ensures Groups(lines, cuts, at) == [[if lines[0] == "" then [] else lines]]
  {
  }

  lemma GroupsStep(lines: seq<string>, cuts: set<nat>, at: nat)
    requires |lines| > 1
    ensures
      var l, end := Stripped(lines[0]), at + |lines[0]|;
      var rest := Groups(lines[1..], cuts, end + 1);
      && rest != [] && rest[0] != [] && AllFull(rest)
      && Groups(lines, cuts, at) ==
           if l != "" then [Fronted([l], rest[0])] + rest[1..]
           else if lines[0] == "\r" && end in cuts then [[[]] + rest[0]] + rest[1..]
           else [[[]]] + rest
  {
  }

  lemma FlatCons(g: seq<Block>, rest: seq<seq<Block>>)
    ensures Flat([g] + rest) == g + Flat(rest)
  {
    assert ([g] + rest)[1..] == rest;
  }

  lemma FlatFronted(front: Block, groups: seq<seq<Block>>)
    requires groups != [] && groups[0] != []
    ensures Flat(groups) != []
    ensures Flat([Fronted(front, groups[0])] + groups[1..]) == Fronted(front, Flat(groups))
    ensures Flat([[[]] + groups[0]] + groups[1..]) == [[]] + Flat(groups)
  {
    hide Flat;
    var g, rest := groups[0], groups[1..];
    assert groups == [g] + rest;
    FlatCons(g, rest);
    FlatCons(Fronted(front, g), rest);
    FlatCons([[]] + g, rest);
    assert (g + Flat(rest))[0] == g[0] && (g + Flat(rest))[1..] == g[1..] + Flat(rest);
    Grouped([front + g[0]], g[1..], Flat(rest));
    Grouped<Block>([[]], g, Flat(rest));
  }

  lemma FrontedTwice(front: Block, l: Block, blocks: seq<Block>)
    requires blocks != []
    ensures Fronted(front, Fronted(l, blocks)) == Fronted(front + l, blocks)
    ensures Fronted([], blocks) == blocks
    ensures Fronted(front, [[]] + blocks) == [front] + blocks
  {
    Grouped(front, l, blocks[0]);
    assert [] + blocks[0] == blocks[0] && front + [] == front;
    assert blocks == [blocks[0]] + blocks[1..];
  }

  lemma HandledCons(p: Progress, front: Block, blocks: seq<Block>)
    ensures HandledAll(p, [front] + blocks) == if p.failed.Some? then p else HandledAll(Handled(p, front), blocks)
  {
    hide Handled;
    assert ([front] + blocks)[1..] == blocks;
  }

  // Line by line is block by block, wherever the text is cut.
  lemma {:induction false} RunBlocks(p: Progress, front: Block, lines: seq<string>, cuts: set<nat>, at: nat)
    requires lines != []
    ensures Flat(Groups(lines, cuts, at)) != []
    ensures Run(p, front, Masked(lines, {}, at)) == HandledAll(p, Fronted(front, Flat(Groups(lines, cuts, at))))
    decreases |lines|
  {
    hide Run, Handled, HandledAll, Flat, Groups, Masked, Fronted, Stripped;
    if |lines| == 1 {
      GroupsLast(lines, cuts, at);
      MaskedLast(lines, {}, at);
      LastLine(p, front, lines[0]);
      assert lines == [lines[0]];
    } else {
      var l, end := Stripped(lines[0]), at + |lines[0]|;
      var rest := Groups(lines[1..], cuts, end + 1);
      GroupsStep(lines, cuts, at);
      MaskedCons(lines, {}, at);
      FlatFronted([l], rest);
      FrontedTwice(front, [l], Flat(rest));
      RunLine(p, front, l, Masked(lines[1..], {}, end + 1));
      if l != "" {
        RunBlocks(p, front + [l], lines[1..], cuts, end + 1);
        FailedAll(p, Fronted(front, Flat(Groups(lines, cuts, at))));
      } else {
        RunBlocks(Handled(p, front), [], lines[1..], cuts, end + 1);
        FlatCons([[]], rest);
        HandledCons(p, front, Flat(rest));
        FrontedTwice([], [], Flat(rest));
      }
    }
  }

  lemma FailedAll(p: Progress, blocks: seq<Block>)
    ensures p.failed.Some? ==> HandledAll(p, blocks) == p
  {
  }

  lemma LastLine(p: Progress, front: Block, l: string)
    ensures
      var blocks := [if l == "" then [] else [l]];
      && Flat([blocks]) == blocks
      && GluedAll([blocks]) == blocks
      && Run(p, front, [l]) == HandledAll(p, Fronted(front, blocks))
  {
    hide Run, Handled, HandledAll;
    var block: Block := if l == "" then [] else [l];
    assert [block] + [] == [block] && [l] + [] == [l] && front + [] == front;
    FlatCons([block], []);
    RunLine(p, front, l, []);
    RunEnd(p, front + [l]);
    RunEnd(Handled(p, front), []);
    HandledEmpty(Handled(p, front));
    assert Fronted(front, [block]) == [front + block] + [];
    HandledCons(p, front + block, []);
    NoneHandled(Handled(p, front + block));
  }

  lemma NoneHandled(p: Progress)
    ensures HandledAll(p, []) == p
  {
  }

  lemma GluedCons(g: seq<Block>, rest: seq<seq<Block>>)
    requires g != [] && AllFull(rest)
    ensures AllFull([g] + rest)
    ensures GluedAll([g] + rest) == [Glued(g)] + GluedAll(rest)
  {
    hide Glued;
  }

  lemma GluedFronted(front: Block, g: seq<Block>)
    requires g != []
    ensures Glued(Fronted(front, g)) == front + Glued(g)
    ensures Glued([[]] + g) == [":"] + Glued(g)
    ensures Glued([[]]) == []
  {
    assert ([[]] + g)[1..] == g;
    if |g| > 1 {
      Grouped(front, g[0], [":"] + Glued(g[1..]));
    }
  }

  // And the reader of the cut text goes group by group.
  lemma {:induction false} RunGroups(p: Progress, front: Block, lines: seq<string>, cuts: set<nat>, at: nat)
    requires lines != []
    ensures
      var groups := Groups(lines, cuts, at);
      Run(p, front, Masked(lines, cuts, at)) == HandledAll(p, Fronted(front, GluedAll(groups)))
    decreases |lines|
  {
    hide Run, Handled, HandledAll, Groups, Masked, Fronted, Stripped, Glued, GluedAll;
    if |lines| == 1 {
      GroupsLast(lines, cuts, at);
      MaskedLast(lines, cuts, at);
      LastLine(p, front, lines[0]);
      assert lines == [lines[0]];
    } else {
      var l, end := MaskedLine(lines[0], at + |lines[0]| in cuts), at + |lines[0]|;
      var rest := Groups(lines[1..], cuts, end + 1);
      GroupsStep(lines, cuts, at);
      MaskedCons(lines, cuts, at);
      RunLine(p, front, l, Masked(lines[1..], cuts, end + 1));
      StrippedReturn();
      GluedStep(front, l, rest);
      if l != "" {
        RunGroups(p, front + [l], lines[1..], cuts, end + 1);
      } else {
        RunGroups(Handled(p, front), [], lines[1..], cuts, end + 1);
        HandledCons(p, front, GluedAll(rest));
      }
      FailedAll(p, Fronted(front, GluedAll(Groups(lines, cuts, at))));
    }
  }

  lemma StrippedReturn()
    ensures Stripped("\r") == ""
  {
  }

  lemma GluedStep(front: Block, l: string, rest: seq<seq<Block>>)
    requires rest != [] && AllFull(rest)
    ensures GluedAll(rest) != []
    ensures Fronted(front, GluedAll([Fronted([l], rest[0])] + rest[1..])) == Fronted(front + [l], GluedAll(rest))
    ensures Fronted(front, GluedAll([[[]] + rest[0]] + rest[1..])) == Fronted(front + [":"], GluedAll(rest))
    ensures Fronted(front, GluedAll([[[]]] + rest)) == [front] + GluedAll(rest)
    ensures Fronted([], GluedAll(rest)) == GluedAll(rest)
  {
    hide Glued, GluedAll;
    var g, more := rest[0], rest[1..];
    assert rest == [g] + more;
    GluedCons(g, more);
    GluedCons(Fronted([l], g), more);
    GluedCons([[]] + g, more);
    GluedCons([[]], rest);
    GluedFronted([l], g);
    Grouped(front, [l], Glued(g));
    Grouped(front, [":"], Glued(g));
    assert front + [] == front && [] + Glued(g) == Glued(g);
  }
}
