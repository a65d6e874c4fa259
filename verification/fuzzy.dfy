// The command palette's scorer: a contiguous hit scores its position, otherwise
// a greedy left-to-right scan scores the characters it skips.
module Fuzzy {
  import opened Text

  datatype Score = Finite(value: real) | Infinite

  // --- Text as JavaScript holds it ---------------------------------------------------

  type Unit = u: int | 0 <= u < 0x10000

  type Units = seq<Unit>

  predicate High(u: Unit) {
    0xd800 <= u <= 0xdbff
  }

  predicate Low(u: Unit) {
    0xdc00 <= u <= 0xdfff
  }

  predicate IsSpaceUnit(u: Unit) {
    (u < 0xd800 || u > 0xdfff) && IsJsSpace(u as char)
  }

  // The characters a loop over a string visits: surrogate pairs, and every other
  // unit alone.
  function Points(q: Units): (points: seq<Units>)
    ensures q != [] ==> points != []
    ensures forall p :: p in points ==> |p| == 1 || (|p| == 2 && Low(p[1]))
  {
    if q == [] then []
    else if |q| >= 2 && High(q[0]) && Low(q[1]) then [q[..2]] + Points(q[2..])
    else [q[..1]] + Points(q[1..])
  }

  function Together(pieces: seq<Units>): Units {
    if pieces == [] then [] else pieces[0] + Together(pieces[1..])
  }

  predicate IsPoint(p: Units) {
    |p| == 1 || (|p| == 2 && 0xd800 <= p[0] <= 0xdbff && 0xdc00 <= p[1] <= 0xdfff)
  }

  // No pair is taken apart.
  predicate PairsWhole(pieces: seq<Units>) {
    forall i :: 0 <= i < |pieces| - 1 && |pieces[i]| == 1 && 0xd800 <= pieces[i][0] <= 0xdbff && pieces[i + 1] != [] ==>
      !(0xdc00 <= pieces[i + 1][0] <= 0xdfff)
  }

  predicate AllPoints(pieces: seq<Units>) {
    forall i :: 0 <= i < |pieces| ==> IsPoint(pieces[i])
  }

  // The only way to cut a string into single units and whole pairs.
  lemma {:induction false} PointsExactly(q: Units, pieces: seq<Units>)
    ensures Points(q) == pieces <==> Together(pieces) == q && AllPoints(pieces) && PairsWhole(pieces)
    decreases |q|
  {
    if q != [] {
      var n := if |q| >= 2 && High(q[0]) && Low(q[1]) then 2 else 1;
      var first, rest := q[..n], q[n..];
      assert Points(q) == [first] + Points(rest);
      PointsExactly(rest, Points(rest));
      FirstWhole(q, first, Points(rest));
      if pieces != [] {
        PointsExactly(rest, pieces[1..]);
        if Together(pieces) == q && AllPoints(pieces) && PairsWhole(pieces) {
          FirstOnly(q, n, pieces);
        }
        assert pieces == [pieces[0]] + pieces[1..];
      }
    } else if pieces != [] {
      assert AllPoints(pieces) ==> IsPoint(pieces[0]);
    }
  }

  lemma FirstWhole(q: Units, first: Units, more: seq<Units>)
    requires q != [] && AllPoints(more) && PairsWhole(more) && q == first + Together(more)
    requires first == if |q| >= 2 && High(q[0]) && Low(q[1]) then q[..2] else q[..1]
    ensures Together([first] + more) == q && AllPoints([first] + more) && PairsWhole([first] + more)
  {
    var all := [first] + more;
    assert all[1..] == more;
    if more != [] {
      assert IsPoint(more[0]) && all[1] == more[0] && Together(more)[0] == more[0][0];
    }
    forall i | 0 <= i < |all| - 1 && |all[i]| == 1 && 0xd800 <= all[i][0] <= 0xdbff && all[i + 1] != []
      ensures !(0xdc00 <= all[i + 1][0] <= 0xdfff)
    {
      if i > 0 {
        assert all[i] == more[i - 1] && all[i + 1] == more[i];
      } else {
        assert q[1] == Together(more)[0];
      }
    }
  }

  lemma FirstOnly(q: Units, n: nat, pieces: seq<Units>)
    requires pieces != [] && q == Together(pieces) && AllPoints(pieces) && PairsWhole(pieces)
    requires q != [] && n == if |q| >= 2 && High(q[0]) && Low(q[1]) then 2 else 1
    ensures pieces[0] == q[..n] && Together(pieces[1..]) == q[n..]
    ensures AllPoints(pieces[1..]) && PairsWhole(pieces[1..])
  {
    var p, more := pieces[0], pieces[1..];
    assert IsPoint(p) && q == p + Together(more);
    assert forall i :: 0 <= i < |more| ==> more[i] == pieces[i + 1];
    if more != [] {
      assert IsPoint(more[0]) && Together(more)[0] == more[0][0] && more[0] == pieces[1];
    }
    assert |p| == n;
  }

  // --- Reference notions ---------------------------------------------------------

  predicate OccursAt(text: Units, q: Units, i: nat) {
    i + |q| <= |text| && text[i..i + |q|] == q
  }

  // Positions in the text, strictly increasing, at which the query's characters
  // begin.
  predicate IsEmbedding(text: Units, q: seq<Units>, e: seq<nat>) {
    && |e| == |q|
    && (forall i :: 0 <= i < |e| ==> OccursAt(text, q[i], e[i]))
    && forall i, j :: 0 <= i < j < |e| ==> e[i] < e[j]
  }

  // The units skipped before each position, added up.
  function Gaps(e: seq<nat>): int {
    if e == [] then 0
    else
      var n := |e| - 1;
      Gaps(e[..n]) + e[n] - (if n == 0 then 0 else e[n - 1] + 1)
  }

  // --- The scorer ------------------------------------------------------------------

  // text.indexOf(q, from), -1 for none
  function IndexOfText(text: Units, q: Units, from: nat): (i: int)
    requires from <= |text|
    ensures i >= 0 ==> from <= i && OccursAt(text, q, i) && forall j :: from <= j < i ==> !OccursAt(text, q, j)
    ensures i < 0 ==> i == -1 && forall j :: from <= j <= |text| ==> !OccursAt(text, q, j)
    decreases |text| - from
  {
    if OccursAt(text, q, from) then from
    else if from == |text| then -1
    else IndexOfText(text, q, from + 1)
  }

  ghost predicate HasEmbedding(text: Units, q: seq<Units>) {
    exists e :: IsEmbedding(text, q, e)
  }

  // g is the gap penalty of some embedding, and no embedding has a smaller one.
  ghost predicate IsLeastGap(text: Units, q: seq<Units>, g: int) {
    && (exists e :: IsEmbedding(text, q, e) && Gaps(e) == g)
    && forall e :: IsEmbedding(text, q, e) ==> g <= Gaps(e)
  }

  // The scan: every character is matched at its first occurrence after the one
  // before it.
  method GreedyScan(text: Units, q: seq<Units>) returns (gap: Option<int>)
    requires q != [] && forall p :: p in q ==> p != []
    ensures gap.None? <==> !HasEmbedding(text, q)
    ensures gap.Some? ==> IsLeastGap(text, q, gap.value)
  {
    hide IsEmbedding, Gaps, Earliest, IsLeastGap;
    var cursor: nat := 0;
    var gapPenalty := 0;
    ghost var e: seq<nat> := [];
    var k := 0;
    NothingMatched(text, q);
    while k < |q|
      invariant 0 <= k <= |q| && cursor <= |text|
      invariant |e| == k && IsEmbedding(text, q[..k], e)
      invariant cursor == (if k == 0 then 0 else e[k - 1] + 1) && gapPenalty == Gaps(e)
      invariant Earliest(text, q[..k], cursor)
    {
      var found := IndexOfText(text, q[k], cursor);
      assert q[k] in q;
      EarliestNext(text, q, k, cursor, found);
      if found < 0 {
        return None;
      }
      gapPenalty := gapPenalty + found - cursor;
      EmbeddingNext(text, q, k, e, cursor, found);
      e := e + [found];
      cursor := found + 1;
      k := k + 1;
    }
    assert q[..k] == q;
    EarliestIsCheapest(text, q, e);
    return Some(gapPenalty);
  }

  lemma NothingMatched(text: Units, q: seq<Units>)
    ensures IsEmbedding(text, q[..0], []) && Gaps([]) == 0 && Earliest(text, q[..0], 0)
  {
  }

  // Matching one more character lengthens the embedding, at the cost of the gap.
  lemma EmbeddingNext(text: Units, q: seq<Units>, k: nat, e: seq<nat>, cursor: nat, found: nat)
    requires k < |q| && |e| == k && IsEmbedding(text, q[..k], e)
    requires cursor == (if k == 0 then 0 else e[k - 1] + 1) && cursor <= found && OccursAt(text, q[k], found)
    ensures IsEmbedding(text, q[..k + 1], e + [found])
    ensures Gaps(e + [found]) == Gaps(e) + found - cursor
  {
    GapNext(e, cursor, found);
    EmbeddingBound(text, q[..k], e, cursor);
    hide Gaps, OccursAt, IsEmbedding;
    assert q[..k + 1] == q[..k] + [q[k]];
    EmbeddingSnoc(text, q[..k], q[k], e, found);
  }

  lemma EmbeddingBound(text: Units, q: seq<Units>, e: seq<nat>, cursor: nat)
    requires IsEmbedding(text, q, e) && cursor == (if e == [] then 0 else e[|e| - 1] + 1)
    ensures forall i :: 0 <= i < |e| ==> e[i] < cursor
  {
    hide OccursAt;
  }

  lemma EmbeddingSnoc(text: Units, q: seq<Units>, p: Units, e: seq<nat>, found: nat)
    requires IsEmbedding(text, q, e) && OccursAt(text, p, found) && forall i :: 0 <= i < |e| ==> e[i] < found
    ensures IsEmbedding(text, q + [p], e + [found])
  {
    hide OccursAt;
    var e', q' := e + [found], q + [p];
    forall i | 0 <= i < |e'| ensures OccursAt(text, q'[i], e'[i]) {
      assert i < |e| ==> q'[i] == q[i] && e'[i] == e[i];
    }
  }

  lemma GapNext(e: seq<nat>, cursor: nat, found: nat)
    requires cursor == (if e == [] then 0 else e[|e| - 1] + 1)
    ensures Gaps(e + [found]) == Gaps(e) + found - cursor
  {
    var n, e' := |e|, e + [found];
    assert e'[..n] == e && e'[n] == found && (n > 0 ==> e'[n - 1] == e[n - 1]);
  }

  // A query that occurs scores its first occurrence, any other its least gap
  // penalty; the score is infinite exactly when the query's characters do not
  // begin one after the other in the text.
  method FuzzyScore(value: Units, query: Units, lower: Units -> Units) returns (score: Score)
    ensures
      var text, q := lower(value), Trim(lower(query), IsSpaceUnit);
      var direct := IndexOfText(text, q, 0);
      if q == [] then score == Finite(0.0)
      else if direct >= 0 then score == Finite(direct as real)
      else
        && (score != Infinite ==> exists g ::
              IsLeastGap(text, Points(q), g) && score == Finite(100.0 + g as real + (|text| - |q|) as real / 100.0))
    ensures
      var text, q := lower(value), Trim(lower(query), IsSpaceUnit);
      q != [] ==> (score == Infinite <==> !HasEmbedding(text, Points(q)))
  {
    hide Trim, IsLeastGap, HasEmbedding, OccursAt, Points;
    var text := lower(value);
    var q := Trim(lower(query), IsSpaceUnit);
    if q == [] {
      return Finite(0.0);
    }
    var direct := IndexOfText(text, q, 0);
    if direct >= 0 {
      var e := OccurrenceEmbeds(text, q, direct);
      EmbeddingFound(text, Points(q), e);
      return Finite(direct as real);
    }
    var gap := GreedyScan(text, Points(q));
    if gap.None? {
      return Infinite;
    }
    return Finite(100.0 + gap.value as real + (|text| - |q|) as real / 100.0);
  }

  lemma EmbeddingFound(text: Units, q: seq<Units>, e: seq<nat>)
    requires IsEmbedding(text, q, e)
    ensures HasEmbedding(text, q)
  {
  }

  // A contiguous occurrence is an embedding.
  lemma {:induction false} OccurrenceEmbeds(text: Units, q: Units, i: nat) returns (e: seq<nat>)
    requires OccursAt(text, q, i)
    ensures IsEmbedding(text, Points(q), e) && forall k :: 0 <= k < |e| ==> e[k] >= i
    decreases |q|
  {
    hide OccursAt, Points, IsEmbedding;
    if q == [] {
      e := [];
      NothingEmbedded(text);
    } else {
      var n := PointsStep(q);
      OccurrenceSplit(text, q, i, n);
      var rest := OccurrenceEmbeds(text, q[n..], i + n);
      EmbeddingCons(text, q[..n], Points(q[n..]), i, rest);
      e := [i] + rest;
    }
  }

  lemma PointsStep(q: Units) returns (n: nat)
    requires q != []
    ensures 1 <= n <= |q| && Points(q) == [q[..n]] + Points(q[n..])
  {
    n := if |q| >= 2 && High(q[0]) && Low(q[1]) then 2 else 1;
  }

  lemma NothingEmbedded(text: Units)
    ensures IsEmbedding(text, Points([]), [])
  {
  }

  lemma OccurrenceSplit(text: Units, q: Units, i: nat, n: nat)
    requires OccursAt(text, q, i) && n <= |q|
    ensures OccursAt(text, q[..n], i) && OccursAt(text, q[n..], i + n)
  {
    var whole := text[i..i + |q|];
    assert text[i..i + n] == whole[..n] && text[i + n..i + |q|] == whole[n..];
  }

  lemma EmbeddingCons(text: Units, p: Units, points: seq<Units>, i: nat, e: seq<nat>)
    requires OccursAt(text, p, i) && IsEmbedding(text, points, e) && forall k :: 0 <= k < |e| ==> e[k] > i
    ensures IsEmbedding(text, [p] + points, [i] + e)
  {
    hide OccursAt;
  }

  // --- Subsequences ---------------------------------------------------------------

  // The query's characters stand in the text in order, none overlapping the next.
  predicate IsSpelled(text: Units, q: seq<Units>, e: seq<nat>) {
    && |e| == |q|
    && (forall i :: 0 <= i < |e| ==> OccursAt(text, q[i], e[i]))
    && forall i :: 0 <= i < |e| - 1 ==> e[i] + |q[i]| <= e[i + 1]
  }

  // No low surrogate without its high one.
  predicate WellFormed(q: Units) {
    forall p :: p in Points(q) ==> !Low(p[0])
  }

  lemma NoOverlap(text: Units, p: Units, r: Units, i: nat, j: nat)
    requires OccursAt(text, p, i) && OccursAt(text, r, j) && i < j
    requires r != [] && !Low(r[0]) && (|p| == 1 || (|p| == 2 && Low(p[1])))
    ensures i + |p| <= j
  {
    assert text[j..j + |r|][0] == text[j];
    assert |p| == 2 ==> text[i..i + |p|][1] == text[i + 1];
  }

  lemma {:induction false} Increasing(q: seq<Units>, e: seq<nat>, i: nat, j: nat)
    requires |e| == |q| && (forall k :: 0 <= k < |e| ==> q[k] != [])
    requires forall k :: 0 <= k < |e| - 1 ==> e[k] + |q[k]| <= e[k + 1]
    requires i < j < |e|
    ensures e[i] < e[j]
  {
    if i + 1 < j {
      Increasing(q, e, i, j - 1);
    }
    assert q[j - 1] != [] && e[j - 1] + |q[j - 1]| <= e[j - 1 + 1];
  }

  // For a well-formed query, an embedding is a subsequence of the text's
  // characters: so the score is finite exactly for subsequences.
  lemma EmbeddingIsSubsequence(text: Units, q: Units, e: seq<nat>)
    requires WellFormed(q)
    ensures IsEmbedding(text, Points(q), e) <==> IsSpelled(text, Points(q), e)
  {
    hide OccursAt, Points, Low;
    var points := Points(q);
    assert forall i :: 0 <= i < |points| ==> points[i] in points;
    if IsEmbedding(text, points, e) {
      forall i | 0 <= i < |e| - 1 ensures e[i] + |points[i]| <= e[i + 1] {
        assert OccursAt(text, points[i + 1], e[i + 1]);
        NoOverlap(text, points[i], points[i + 1], e[i], e[i + 1]);
      }
    }
    if IsSpelled(text, points, e) {
      forall i, j | 0 <= i < j < |e| ensures e[i] < e[j] {
        Increasing(points, e, i, j);
      }
    }
  }

  // --- Greedy is optimal --------------------------------------------------------------

  // Every embedding of q ends at or after the cursor's predecessor.
  ghost predicate Earliest(text: Units, q: seq<Units>, cursor: nat) {
    forall e :: IsEmbedding(text, q, e) && |e| > 0 ==> e[|e| - 1] + 1 >= cursor
  }

  lemma EmbeddingPrefix(text: Units, q: seq<Units>, e: seq<nat>, k: nat)
    requires IsEmbedding(text, q, e) && k <= |q|
    ensures |e| == |q| && IsEmbedding(text, q[..k], e[..k])
  {
    hide OccursAt;
  }

  // Taking the first match at or after the cursor keeps every embedding behind;
  // if there is none, there is no embedding at all.
  lemma EarliestNext(text: Units, q: seq<Units>, k: nat, cursor: nat, found: int)
    requires k < |q| && cursor <= |text| && Earliest(text, q[..k], cursor) && (k == 0 ==> cursor == 0)
    requires found == IndexOfText(text, q[k], cursor)
    ensures found >= 0 ==> Earliest(text, q[..k + 1], found + 1)
    ensures found < 0 ==> !exists e :: IsEmbedding(text, q, e)
  {
    hide IsEmbedding, OccursAt, IndexOfText;
    forall e | IsEmbedding(text, q[..k + 1], e) ensures found >= 0 && |e| == k + 1 && e[k] >= found {
      NextAtOrAfter(text, q, k, cursor, found, e);
    }
    forall e | IsEmbedding(text, q, e) ensures found >= 0 {
      EmbeddingPrefix(text, q, e, k + 1);
      NextAtOrAfter(text, q, k, cursor, found, e[..k + 1]);
    }
  }

  lemma NextAtOrAfter(text: Units, q: seq<Units>, k: nat, cursor: nat, found: int, e: seq<nat>)
    requires k < |q| && cursor <= |text| && Earliest(text, q[..k], cursor) && (k == 0 ==> cursor == 0)
    requires found == IndexOfText(text, q[k], cursor) && IsEmbedding(text, q[..k + 1], e)
    ensures found >= 0 && |e| == k + 1 && e[k] >= found
  {
    hide IsEmbedding, OccursAt, IndexOfText;
    EmbeddingLast(text, q, k, e);
    assert |e[..k]| == k && (k > 0 ==> e[..k][|e[..k]| - 1] + 1 >= cursor);
    assert e[k] >= cursor && OccursAt(text, q[k], e[k]);
  }

  lemma EmbeddingLast(text: Units, q: seq<Units>, k: nat, e: seq<nat>)
    requires k < |q| && IsEmbedding(text, q[..k + 1], e)
    ensures |e| == k + 1 && IsEmbedding(text, q[..k], e[..k]) && OccursAt(text, q[k], e[k]) && e[k] <= |text|
    ensures k > 0 ==> e[..k][k - 1] < e[k]
  {
    EmbeddingPrefix(text, q[..k + 1], e, k);
    assert q[..k + 1][..k] == q[..k] && q[..k + 1][k] == q[k];
  }

  // The gaps of an embedding telescope: they depend on its last position only.
  lemma {:induction false} GapsTelescope(e: seq<nat>)
    ensures Gaps(e) == if e == [] then 0 else e[|e| - 1] + 1 - |e|
  {
    if e != [] {
      GapsTelescope(e[..|e| - 1]);
    }
  }

  // So the least penalty is the end of the earliest embedding less the length of
  // the query.
  lemma LeastGapIsEarliestEnd(text: Units, q: seq<Units>, e: seq<nat>)
    requires q != [] && IsEmbedding(text, q, e)
    ensures IsLeastGap(text, q, Gaps(e)) <==>
      forall e' :: IsEmbedding(text, q, e') ==> e[|q| - 1] <= e'[|q| - 1]
    ensures Gaps(e) == e[|q| - 1] + 1 - |q|
  {
    GapsTelescope(e);
    forall e' | IsEmbedding(text, q, e') ensures Gaps(e') == e'[|q| - 1] + 1 - |q| {
      GapsTelescope(e');
    }
  }

  lemma EarliestIsCheapest(text: Units, q: seq<Units>, e: seq<nat>)
    requires q != [] && IsEmbedding(text, q, e) && Earliest(text, q, e[|e| - 1] + 1)
    ensures IsLeastGap(text, q, Gaps(e)) && HasEmbedding(text, q)
  {
    forall e' | IsEmbedding(text, q, e') ensures Gaps(e) <= Gaps(e') {
      GapsTelescope(e);
      GapsTelescope(e');
    }
  }
}
