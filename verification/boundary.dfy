// What the compose progress reader is fed when chunk boundaries cut line ends:
// first on characters, then on lines.
module ChunkBoundaries {
  import opened Text
  import opened ComposeProgress

  // --- On characters ----------------------------------------------------------------

  // The offsets at which a chunk ends.
  function Offsets(chunks: seq<string>): set<nat> {
    set k | 0 <= k <= |chunks| :: |Concat(chunks[..k])|
  }

  // What becomes of the first character: a CR is dropped before an LF, unless a
  // cut falls between the two.
  function KeptHead(s: string, cuts: set<nat>, at: nat): string
    requires s != ""
  {
    if |s| >= 2 && s[0] == '\r' && s[1] == '\n' && at + 1 !in cuts then "" else [s[0]]
  }

  // The text that starts at offset `at`, with its uncut line ends normalised.
  function Kept(s: string, cuts: set<nat>, at: nat): string
    decreases |s|
  {
    if s == "" then "" else KeptHead(s, cuts, at) + Kept(s[1..], cuts, at + 1)
  }

  lemma KeptStep(c: char, s: string, cuts: set<nat>, at: nat)
    ensures Kept([c] + s, cuts, at) == KeptHead([c] + s, cuts, at) + Kept(s, cuts, at + 1)
  {
    hide KeptHead;
    assert ([c] + s)[1..] == s;
  }

  lemma {:induction false} KeptUncut(s: string, cuts: set<nat>, at: nat)
    requires forall n :: at < n < at + |s| ==> n !in cuts
    ensures Kept(s, cuts, at) == Newlines(s)
    decreases |s|
  {
    hide Kept, Newlines;
    if s == "" {
      KeptNothing(cuts, at);
      EmptyNewlines();
    } else if |s| >= 2 && s[0] == '\r' && s[1] == '\n' {
      var rest := s[2..];
      assert s == ['\r'] + (['\n'] + rest) && s == ['\r', '\n'] + rest;
      KeptUncut(rest, cuts, at + 2);
      KeptStep('\r', ['\n'] + rest, cuts, at);
      KeptStep('\n', rest, cuts, at + 1);
      NewlinesJoin(rest);
      assert "" + (['\n'] + Newlines(rest)) == "\n" + Newlines(rest);
    } else {
      assert s == [s[0]] + s[1..];
      KeptUncut(s[1..], cuts, at + 1);
      KeptStep(s[0], s[1..], cuts, at);
      NewlinesKeep(s[0], s[1..]);
    }
  }

  lemma {:induction false} KeptAgree(s: string, cuts: set<nat>, others: set<nat>, at: nat)
    requires forall n :: at < n < at + |s| ==> (n in cuts <==> n in others)
    ensures Kept(s, cuts, at) == Kept(s, others, at)
    decreases |s|
  {
    if s != "" {
      KeptAgree(s[1..], cuts, others, at + 1);
    }
  }

  lemma HeadsAgree(c: char, s: string, b: string, cuts: set<nat>, at: nat)
    requires at + 1 + |s| in cuts
    ensures KeptHead([c] + (s + b), cuts, at) == KeptHead([c] + s, cuts, at)
  {
  }

  lemma {:induction false} KeptAppend(a: string, b: string, cuts: set<nat>, at: nat)
    requires at + |a| in cuts && forall n :: at + |a| < n < at + |a| + |b| ==> n !in cuts
    ensures Kept(a + b, cuts, at) == Kept(a, cuts, at) + Newlines(b)
    decreases |a|
  {
    hide Newlines, Kept, KeptHead;
    if a == "" {
      assert a + b == b;
      KeptNothing(cuts, at);
      KeptUncut(b, cuts, at);
      assert "" + Newlines(b) == Newlines(b);
    } else {
      var c, s := a[0], a[1..];
      assert a == [c] + s && a + b == [c] + (s + b);
      KeptAppend(s, b, cuts, at + 1);
      KeptStep(c, s, cuts, at);
      KeptStep(c, s + b, cuts, at);
      HeadsAgree(c, s, b, cuts, at);
      Grouped(KeptHead([c] + s, cuts, at), Kept(s, cuts, at + 1), Newlines(b));
    }
  }

  lemma {:induction false} OffsetsEnd(chunks: seq<string>)
    ensures forall n :: n in Offsets(chunks) ==> n <= |Concat(chunks)|
    ensures chunks != [] ==> Offsets(chunks) == Offsets(chunks[..|chunks| - 1]) + {|Concat(chunks)|}
    ensures |Concat(chunks)| in Offsets(chunks)
  {
    hide Concat;
    assert chunks[..|chunks|] == chunks;
    if chunks != [] {
      var front := chunks[..|chunks| - 1];
      OffsetsEnd(front);
      forall n ensures n in Offsets(chunks) <==> n in Offsets(front) || n == |Concat(chunks)| {
        OffsetCases(chunks, n);
      }
      ConcatGrows(chunks);
    }
  }

  lemma ConcatGrows(chunks: seq<string>)
    requires chunks != []
    ensures |Concat(chunks[..|chunks| - 1])| <= |Concat(chunks)|
  {
  }

  lemma OffsetCases(chunks: seq<string>, n: nat)
    requires chunks != []
    ensures n in Offsets(chunks) <==> n in Offsets(chunks[..|chunks| - 1]) || n == |Concat(chunks)|
  {
    hide Concat;
    var front := chunks[..|chunks| - 1];
    assert chunks[..|chunks|] == chunks;
    assert forall k :: 0 <= k < |chunks| ==> front[..k] == chunks[..k];
    if k :| 0 <= k <= |chunks| && n == |Concat(chunks[..k])| {
      assert k < |chunks| ==> n == |Concat(front[..k])|;
    }
    if k :| 0 <= k <= |front| && n == |Concat(front[..k])| {
      assert n == |Concat(chunks[..k])|;
    }
  }

  // The reader is fed the text with exactly the uncut line ends normalised.
  lemma {:induction false} FedIsKept(chunks: seq<string>)
    ensures Fed(chunks) == Kept(Concat(chunks), Offsets(chunks), 0)
  {
    hide Offsets, Kept, Newlines;
    if chunks == [] {
      KeptNothing(Offsets(chunks), 0);
    } else {
      var front, last := chunks[..|chunks| - 1], chunks[|chunks| - 1];
      FedIsKept(front);
      OffsetsEnd(front);
      OffsetsEnd(chunks);
      KeptAgree(Concat(front), Offsets(front), Offsets(chunks), 0);
      KeptAppend(Concat(front), last, Offsets(chunks), 0);
    }
  }

  lemma KeptNothing(cuts: set<nat>, at: nat)
    ensures Kept("", cuts, at) == ""
  {
  }

  // --- On lines -----------------------------------------------------------------------

  // The lines of a text, as they stand between its line feeds.
  predicate AreLines(lines: seq<string>) {
    lines != [] && forall l :: l in lines ==> '\n' !in l
  }

  predicate EndsInReturn(l: string) {
    l != "" && l[|l| - 1] == '\r'
  }

  // A line without the CR of its line end.
  function Stripped(l: string): string {
    if EndsInReturn(l) then l[..|l| - 1] else l
  }

  // A line as it is fed: it keeps that CR where a cut separates it from the LF.
  function FedLine(l: string, cut: bool): string {
    if cut then l else Stripped(l)
  }

  function FedLines(lines: seq<string>, cuts: set<nat>, at: nat): (fed: seq<string>)
    requires lines != []
    ensures |fed| == |lines|
    decreases |lines|
  {
    if |lines| == 1 then lines
    else
      var end := at + |lines[0]|;
      [FedLine(lines[0], end in cuts)] + FedLines(lines[1..], cuts, end + 1)
  }

  lemma {:induction false} KeptPlain(l: string, cuts: set<nat>, at: nat)
    requires '\n' !in l
    ensures Kept(l, cuts, at) == l
    decreases |l|
  {
    hide Kept;
    if l == "" {
      KeptNothing(cuts, at);
    } else {
      var c, s := l[0], l[1..];
      assert l == [c] + s && (s != "" ==> s[0] in l);
      KeptPlain(s, cuts, at + 1);
      KeptStep(c, s, cuts, at);
    }
  }

  lemma FedLineStep(c: char, s: string, cut: bool)
    requires s != ""
    ensures FedLine([c] + s, cut) == [c] + FedLine(s, cut)
  {
    assert ([c] + s)[..|s|] == [c] + s[..|s| - 1];
  }

  // A line and its line feed.
  lemma {:induction false} KeptLine(l: string, rest: string, cuts: set<nat>, at: nat)
    requires '\n' !in l
    ensures Kept(l + ("\n" + rest), cuts, at) ==
      FedLine(l, at + |l| in cuts) + ("\n" + Kept(rest, cuts, at + |l| + 1))
    decreases |l|
  {
    hide Kept, FedLine;
    if l == "" {
      assert l + ("\n" + rest) == ['\n'] + rest;
      KeptStep('\n', rest, cuts, at);
      FedLineShort("", at in cuts);
      assert "" + ("\n" + Kept(rest, cuts, at + 1)) == ['\n'] + Kept(rest, cuts, at + 1);
    } else if |l| == 1 {
      assert l == [l[0]];
      KeptShortLine(l[0], rest, cuts, at);
    } else {
      var c, s := l[0], l[1..];
      assert l == [c] + s;
      Grouped([c], s, "\n" + rest);
      KeptLine(s, rest, cuts, at + 1);
      KeptStep(c, s + ("\n" + rest), cuts, at);
      assert s[0] in l && (s + ("\n" + rest))[0] == s[0];
      FedLineStep(c, s, at + |l| in cuts);
      Grouped([c], FedLine(s, at + |l| in cuts), "\n" + Kept(rest, cuts, at + |l| + 1));
    }
  }

  lemma KeptShortLine(c: char, rest: string, cuts: set<nat>, at: nat)
    ensures Kept([c] + ("\n" + rest), cuts, at) ==
      FedLine([c], at + 1 in cuts) + ("\n" + Kept(rest, cuts, at + 2))
  {
    hide Kept, FedLine;
    KeptStep(c, "\n" + rest, cuts, at);
    KeptStep('\n', rest, cuts, at + 1);
    FedLineShort([c], at + 1 in cuts);
    assert ([c] + ("\n" + rest))[1] == '\n' && ([c] == "\r" <==> c == '\r');
  }

  lemma FedLineShort(l: string, cut: bool)
    requires |l| <= 1
    ensures FedLine(l, cut) == if l == "\r" && !cut then "" else l
  {
  }

  lemma FedCons(lines: seq<string>, cuts: set<nat>, at: nat)
    requires |lines| > 1
    ensures
      var end := at + |lines[0]|;
      FedLines(lines, cuts, at) == [FedLine(lines[0], end in cuts)] + FedLines(lines[1..], cuts, end + 1)
  {
  }

  lemma JoinCons(l: string, rest: seq<string>)
    requires rest != []
    ensures Join([l] + rest, '\n') == l + ("\n" + Join(rest, '\n'))
  {
    assert ([l] + rest)[1..] == rest;
  }

  lemma JoinOne(l: string)
    ensures Join([l], '\n') == l
  {
  }

  lemma {:induction false} KeptLines(lines: seq<string>, cuts: set<nat>, at: nat)
    requires AreLines(lines)
    ensures Kept(Join(lines, '\n'), cuts, at) == Join(FedLines(lines, cuts, at), '\n')
    decreases |lines|
  {
    hide Kept, Join, FedLines, FedLine;
    var l, rest := lines[0], lines[1..];
    assert l in lines;
    if rest == [] {
      assert lines == [l];
      FedLast(lines, cuts, at);
      JoinOne(l);
      KeptPlain(l, cuts, at);
    } else {
      assert lines == [l] + rest && forall x :: x in rest ==> x in lines;
      var end := at + |l|;
      KeptLines(rest, cuts, end + 1);
      JoinCons(l, rest);
      KeptLine(l, Join(rest, '\n'), cuts, at);
      FedCons(lines, cuts, at);
      JoinCons(FedLine(l, end in cuts), FedLines(rest, cuts, end + 1));
    }
  }

  lemma FedLast(lines: seq<string>, cuts: set<nat>, at: nat)
    requires |lines| == 1
    ensures FedLines(lines, cuts, at) == lines
  {
  }
}
