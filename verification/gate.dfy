// The image vulnerability gate: every finding needs exactly one reviewed rule,
// and every rule must be what some finding needs.
module Gate {
  import opened Text

  // A rule and a finding name some of these properties; an absent one is
  // undefined in JavaScript.
  const KEYS: set<string> := {"scanner", "id", "severity", "target", "targetType", "packageName",
                              "packageVersion", "packageType", "purl"}

  datatype Rule = Rule(fields: map<string, string>, location: Option<string>)

  datatype Finding = Finding(fields: map<string, string>, locations: Option<seq<string>>)

  // --- Matching ------------------------------------------------------------------

  function Slashes(s: string): (r: string)
    ensures |r| == |s|
  {
    seq(|s|, i requires 0 <= i < |s| => if s[i] == '\\' then '/' else s[i])
  }

  predicate IsSlash(c: char) {
    c == '/'
  }

  function CleanPath(s: string): string {
    TrimLeft(Slashes(s), IsSlash)
  }

  predicate FieldsMatch(rule: Rule, finding: Finding) {
    forall key :: key in KEYS && key in rule.fields ==>
      key in finding.fields && finding.fields[key] == rule.fields[key]
  }

  predicate Matches(rule: Rule, finding: Finding) {
    && FieldsMatch(rule, finding)
    && (rule.location.None?
        || (finding.locations.Some? && "/" + CleanPath(rule.location.value) in finding.locations.value))
  }

  predicate Agree(rule: Rule, finding: Finding, key: string) {
    key in rule.fields ==> key in finding.fields && finding.fields[key] == rule.fields[key]
  }

  // A path with slashes for backslashes, and none in front.
  ghost predicate CleanForm(s: string, r: string) {
    && (r != "" ==> r[0] != '/')
    && exists front: string :: Slashes(s) == front + r && forall i :: 0 <= i < |front| ==> front[i] == '/'
  }

  lemma CleanExactly(s: string, r: string)
    ensures CleanPath(s) == r <==> CleanForm(s, r)
  {
    hide TrimLeft, Slashes;
    if CleanPath(s) == r {
      var front := TrimLeftRead(Slashes(s), IsSlash);
    }
    if CleanForm(s, r) {
      var front: string :| Slashes(s) == front + r && forall i :: 0 <= i < |front| ==> front[i] == '/';
      TrimLeftOf(front, r, IsSlash);
    }
  }

  // A rule matches a finding exactly when the finding has each property that the
  // rule names, and one of its locations is the rule's cleaned path behind a slash.
  lemma MatchesExactly(rule: Rule, finding: Finding)
    ensures Matches(rule, finding) <==>
      && Agree(rule, finding, "scanner") && Agree(rule, finding, "id") && Agree(rule, finding, "severity")
      && Agree(rule, finding, "target") && Agree(rule, finding, "targetType")
      && Agree(rule, finding, "packageName") && Agree(rule, finding, "packageVersion")
      && Agree(rule, finding, "packageType") && Agree(rule, finding, "purl")
      && (rule.location.Some? ==>
            finding.locations.Some? && exists i, path ::
              0 <= i < |finding.locations.value| && CleanForm(rule.location.value, path)
              && finding.locations.value[i] == "/" + path)
  {
    hide CleanPath, CleanForm, KEYS;
    KeysSpelled(rule, finding);
    if rule.location.Some? {
      forall path ensures CleanPath(rule.location.value) == path <==> CleanForm(rule.location.value, path) {
        CleanExactly(rule.location.value, path);
      }
    }
  }

  lemma KeysSpelled(rule: Rule, finding: Finding)
    ensures FieldsMatch(rule, finding) <==>
      && Agree(rule, finding, "scanner") && Agree(rule, finding, "id") && Agree(rule, finding, "severity")
      && Agree(rule, finding, "target") && Agree(rule, finding, "targetType")
      && Agree(rule, finding, "packageName") && Agree(rule, finding, "packageVersion")
      && Agree(rule, finding, "packageType") && Agree(rule, finding, "purl")
  {
    assert FieldsMatch(rule, finding) <==> forall key :: key in KEYS ==> Agree(rule, finding, key);
  }

  // The indices of the rules from `from` on that match, in order.
  function Candidates(rules: seq<Rule>, finding: Finding, from: nat): (c: seq<nat>)
    requires from <= |rules|
    ensures forall i :: i in c <==> from <= i < |rules| && Matches(rules[i], finding)
    decreases |rules| - from
  {
    if from == |rules| then []
    else if Matches(rules[from], finding) then [from] + Candidates(rules, finding, from + 1)
    else Candidates(rules, finding, from + 1)
  }

  predicate OnlyMatch(rules: seq<Rule>, finding: Finding, i: nat) {
    i < |rules| && forall j :: 0 <= j < |rules| ==> (Matches(rules[j], finding) <==> j == i)
  }

  ghost predicate HasOnlyMatch(rules: seq<Rule>, finding: Finding) {
    exists i: nat :: OnlyMatch(rules, finding, i)
  }

  lemma {:induction false} CandidatesOnly(rules: seq<Rule>, finding: Finding, from: nat)
    requires from <= |rules|
    ensures forall i :: Candidates(rules, finding, from) == [i] <==>
      from <= i < |rules| && forall j :: from <= j < |rules| ==> (Matches(rules[j], finding) <==> j == i)
    decreases |rules| - from
  {
    hide Matches;
    if from < |rules| {
      CandidatesOnly(rules, finding, from + 1);
      var rest := Candidates(rules, finding, from + 1);
      if Matches(rules[from], finding) && rest != [] {
        assert rest[0] in rest;
      }
    }
  }

  // --- Evaluating --------------------------------------------------------------------

  predicate Reviewed(rules: seq<Rule>, finding: Finding) {
    |Candidates(rules, finding, 0)| == 1
  }

  function Blocked(findings: seq<Finding>, rules: seq<Rule>): seq<Finding> {
    if findings == [] then []
    else
      var n := |findings| - 1;
      Blocked(findings[..n], rules) + if Reviewed(rules, findings[n]) then [] else [findings[n]]
  }

  function Allowed(findings: seq<Finding>, rules: seq<Rule>): seq<(Finding, Rule)> {
    if findings == [] then []
    else
      var n := |findings| - 1;
      var c := Candidates(rules, findings[n], 0);
      assert |c| == 1 ==> c[0] in c;
      Allowed(findings[..n], rules) + if |c| == 1 then [(findings[n], rules[c[0]])] else []
  }

  ghost predicate IsUsed(findings: seq<Finding>, rules: seq<Rule>, i: nat) {
    exists f :: f in findings && OnlyMatch(rules, f, i)
  }

  function Used(findings: seq<Finding>, rules: seq<Rule>): set<nat> {
    if findings == [] then {}
    else
      var n := |findings| - 1;
      var c := Candidates(rules, findings[n], 0);
      assert |c| == 1 ==> c[0] in c;
      Used(findings[..n], rules) + if |c| == 1 then {c[0]} else {}
  }

  // The rules whose index is not used, in order, from index k on.
  function Unused(rules: seq<Rule>, used: set<nat>, k: nat): (r: seq<Rule>)
    requires k <= |rules|
    ensures r == [] <==> forall i :: k <= i < |rules| ==> i in used
    decreases |rules| - k
  {
    if k == |rules| then []
    else (if k in used then [] else [rules[k]]) + Unused(rules, used, k + 1)
  }

  method EvaluateReports(findings: seq<Finding>, rules: seq<Rule>)
    returns (allowed: seq<(Finding, Rule)>, blocked: seq<Finding>, unused: seq<Rule>)
    ensures allowed == Allowed(findings, rules)
    ensures blocked == Blocked(findings, rules)
    ensures unused == Unused(rules, Used(findings, rules), 0)
  {
    hide Matches;
    var used: set<nat> := {};
    allowed, blocked := [], [];
    var n := 0;
    while n < |findings|
      invariant 0 <= n <= |findings|
      invariant allowed == Allowed(findings[..n], rules)
      invariant blocked == Blocked(findings[..n], rules)
      invariant used == Used(findings[..n], rules)
    {
      var finding := findings[n];
      var candidates := Candidates(rules, finding, 0);
      assert findings[..n + 1][..n] == findings[..n];
      if |candidates| != 1 {
        blocked := blocked + [finding];
      } else {
        assert candidates[0] in candidates;
        used := used + {candidates[0]};
        allowed := allowed + [(finding, rules[candidates[0]])];
      }
      n := n + 1;
    }
    assert findings[..n] == findings;
    unused := Unused(rules, used, 0);
  }

  // A rule is used exactly when it is some finding's only match.
  lemma {:induction false} UsedExactly(findings: seq<Finding>, rules: seq<Rule>, i: nat)
    ensures i in Used(findings, rules) <==> IsUsed(findings, rules, i)
  {
    hide OnlyMatch, Candidates;
    if findings != [] {
      var n := |findings| - 1;
      UsedExactly(findings[..n], rules, i);
      ReviewedOnce(rules, findings[n]);
      assert findings == findings[..n] + [findings[n]];
      assert forall f :: f in findings <==> f in findings[..n] || f == findings[n];
    }
  }

  lemma ReviewedOnce(rules: seq<Rule>, finding: Finding)
    ensures Reviewed(rules, finding) <==> HasOnlyMatch(rules, finding)
    ensures !Reviewed(rules, finding) ==> forall i: nat :: !OnlyMatch(rules, finding, i)
    ensures Reviewed(rules, finding) ==>
      forall i: nat :: OnlyMatch(rules, finding, i) <==> i == Candidates(rules, finding, 0)[0]
  {
    hide Matches;
    CandidatesOnly(rules, finding, 0);
    var c := Candidates(rules, finding, 0);
    if |c| == 1 {
      assert c == [c[0]];
      assert OnlyMatch(rules, finding, c[0]);
    }
    forall i: nat | OnlyMatch(rules, finding, i) ensures c == [i] {
    }
  }

  // Some of the findings of `whole`, in their order.
  ghost predicate InOrder(part: seq<Finding>, whole: seq<Finding>) {
    exists at: seq<nat> :: Picks(part, whole, at)
  }

  predicate Picks(part: seq<Finding>, whole: seq<Finding>, at: seq<nat>) {
    && |at| == |part|
    && (forall i :: 0 <= i < |at| ==> at[i] < |whole| && part[i] == whole[at[i]])
    && forall i, j :: 0 <= i < j < |at| ==> at[i] < at[j]
  }

  lemma PickedNext(part: seq<Finding>, whole: seq<Finding>, next: Finding)
    requires InOrder(part, whole)
    ensures InOrder(part, whole + [next]) && InOrder(part + [next], whole + [next])
  {
    var at: seq<nat> :| Picks(part, whole, at);
    var next': nat := |whole|;
    assert Picks(part, whole + [next], at);
    assert Picks(part + [next], whole + [next], at + [next']);
  }

  // The findings of the allowed list.
  function Admitted(findings: seq<Finding>, rules: seq<Rule>): seq<Finding> {
    var allowed := Allowed(findings, rules);
    seq(|allowed|, i requires 0 <= i < |allowed| => allowed[i].0)
  }

  lemma AdmittedNext(findings: seq<Finding>, next: Finding, rules: seq<Rule>)
    ensures Admitted(findings + [next], rules) ==
      Admitted(findings, rules) + if Reviewed(rules, next) then [next] else []
    ensures Blocked(findings + [next], rules) ==
      Blocked(findings, rules) + if Reviewed(rules, next) then [] else [next]
  {
    hide Candidates;
    assert (findings + [next])[..|findings|] == findings;
  }

  // Allowed and blocked findings together are the findings, each as often as it
  // was found, and both lists keep their order.
  lemma {:induction false} PartitionInOrder(findings: seq<Finding>, rules: seq<Rule>)
    ensures multiset(Admitted(findings, rules)) + multiset(Blocked(findings, rules)) == multiset(findings)
    ensures InOrder(Admitted(findings, rules), findings) && InOrder(Blocked(findings, rules), findings)
  {
    hide Admitted, Blocked, Reviewed, InOrder;
    if findings == [] {
      NothingFound(rules);
    } else {
      var front, last := findings[..|findings| - 1], findings[|findings| - 1];
      assert findings == front + [last];
      PartitionInOrder(front, rules);
      AdmittedNext(front, last, rules);
      PickedNext(Admitted(front, rules), front, last);
      PickedNext(Blocked(front, rules), front, last);
      assert Admitted(front, rules) + [] == Admitted(front, rules);
      assert Blocked(front, rules) + [] == Blocked(front, rules);
    }
  }

  lemma NothingFound(rules: seq<Rule>)
    ensures Admitted([], rules) == [] && Blocked([], rules) == [] && InOrder([], [])
  {
    assert Picks([], [], []);
  }

  // Every finding is allowed or blocked, once, under its own rule.
  lemma {:induction false} Partition(findings: seq<Finding>, rules: seq<Rule>)
    ensures |Allowed(findings, rules)| + |Blocked(findings, rules)| == |findings|
    ensures forall f :: f in findings <==>
      f in Blocked(findings, rules) || exists r :: (f, r) in Allowed(findings, rules)
    ensures forall f, r :: (f, r) in Allowed(findings, rules) ==>
      exists i: nat :: OnlyMatch(rules, f, i) && r == rules[i]
    ensures forall f :: f in Blocked(findings, rules) ==> !HasOnlyMatch(rules, f)
  {
    hide Matches, OnlyMatch;
    if findings != [] {
      var n := |findings| - 1;
      Partition(findings[..n], rules);
      ReviewedOnce(rules, findings[n]);
      assert findings == findings[..n] + [findings[n]];
    }
  }

  // --- Passing --------------------------------------------------------------------------

  // Every finding has exactly one matching rule and every rule is some finding's
  // only match.
  ghost predicate ExactCover(findings: seq<Finding>, rules: seq<Rule>) {
    && (forall f :: f in findings ==> HasOnlyMatch(rules, f))
    && (forall i :: 0 <= i < |rules| ==> IsUsed(findings, rules, i))
  }

  method PassesGate(findings: seq<Finding>, rules: seq<Rule>) returns (pass: bool)
    ensures pass <==> ExactCover(findings, rules)
  {
    hide OnlyMatch, Unused, Allowed, Blocked, Used, IsUsed;
    var allowed, blocked, unused := EvaluateReports(findings, rules);
    NothingBlocked(findings, rules);
    forall i | 0 <= i < |rules| ensures i in Used(findings, rules) <==> IsUsed(findings, rules, i) {
      UsedExactly(findings, rules, i);
    }
    pass := |blocked| == 0 && |unused| == 0;
  }

  lemma {:induction false} NothingBlocked(findings: seq<Finding>, rules: seq<Rule>)
    ensures Blocked(findings, rules) == [] <==> forall f :: f in findings ==> HasOnlyMatch(rules, f)
  {
    hide Reviewed, HasOnlyMatch;
    if findings != [] {
      var n := |findings| - 1;
      NothingBlocked(findings[..n], rules);
      ReviewedOnce(rules, findings[n]);
      assert findings == findings[..n] + [findings[n]];
      assert forall f :: f in findings <==> f in findings[..n] || f == findings[n];
    }
  }

  // --- Rigidity ---------------------------------------------------------------------------

  function MatchCount(rules: seq<Rule>, finding: Finding): nat {
    if rules == [] then 0
    else (if Matches(rules[0], finding) then 1 else 0) + MatchCount(rules[1..], finding)
  }

  lemma {:induction false} CountSplit(a: seq<Rule>, b: seq<Rule>, finding: Finding)
    ensures MatchCount(a + b, finding) == MatchCount(a, finding) + MatchCount(b, finding)
  {
    hide Matches;
    if a == [] {
      assert a + b == b;
    } else {
      assert (a + b)[1..] == a[1..] + b;
      CountSplit(a[1..], b, finding);
    }
  }

  function Without(rules: seq<Rule>, k: nat): seq<Rule>
    requires k < |rules|
  {
    rules[..k] + rules[k + 1..]
  }

  lemma CountWithout(rules: seq<Rule>, k: nat, finding: Finding)
    requires k < |rules|
    ensures MatchCount(rules, finding) ==
      MatchCount(Without(rules, k), finding) + if Matches(rules[k], finding) then 1 else 0
    ensures multiset(rules) == multiset(Without(rules, k)) + multiset{rules[k]}
  {
    hide Matches;
    assert rules == rules[..k] + ([rules[k]] + rules[k + 1..]);
    assert ([rules[k]] + rules[k + 1..])[1..] == rules[k + 1..];
    CountSplit(rules[..k], [rules[k]] + rules[k + 1..], finding);
    CountSplit(rules[..k], rules[k + 1..], finding);
  }

  lemma {:induction false} CountMonotone(fewer: seq<Rule>, more: seq<Rule>, finding: Finding)
    requires multiset(fewer) <= multiset(more)
    ensures MatchCount(fewer, finding) <= MatchCount(more, finding)
  {
    hide Matches;
    if fewer != [] {
      var r := fewer[0];
      assert fewer == [r] + fewer[1..];
      assert r in multiset(more);
      var k :| 0 <= k < |more| && more[k] == r;
      CountWithout(more, k, finding);
      assert multiset(fewer[1..]) == multiset(fewer) - multiset{r};
      assert multiset(Without(more, k)) == multiset(more) - multiset{r};
      CountMonotone(fewer[1..], Without(more, k), finding);
    }
  }

  lemma {:induction false} OnlyMatchCounts(rules: seq<Rule>, finding: Finding)
    ensures HasOnlyMatch(rules, finding) ==> MatchCount(rules, finding) == 1
  {
    hide Matches;
    if i: nat :| OnlyMatch(rules, finding, i) {
      CountWithout(rules, i, finding);
      NoMatchCounts(Without(rules, i), finding);
    }
  }

  lemma {:induction false} NoMatchCounts(rules: seq<Rule>, finding: Finding)
    requires forall r :: r in rules ==> !Matches(r, finding)
    ensures MatchCount(rules, finding) == 0
  {
    hide Matches;
    if rules != [] {
      assert rules[0] in rules;
      NoMatchCounts(rules[1..], finding);
    }
  }

  // A passing policy is rigid: with the same findings, no policy that has some
  // of its rules removed passes, and none that has rules added; the order of the
  // rules is irrelevant.
  lemma PassingIsRigid(findings: seq<Finding>, fewer: seq<Rule>, more: seq<Rule>)
    requires multiset(fewer) < multiset(more)
    ensures !(ExactCover(findings, fewer) && ExactCover(findings, more))
  {
    hide Matches, MatchCount;
    if ExactCover(findings, more) {
      var k := ExtraRule(fewer, more);
      assert IsUsed(findings, more, k);
      var f :| f in findings && OnlyMatch(more, f, k);
      OnlyMatchCounts(more, f);
      CountWithout(more, k, f);
      CountMonotone(fewer, Without(more, k), f);
      OnlyMatchCounts(fewer, f);
      assert !HasOnlyMatch(fewer, f);
    }
  }

  lemma ExtraRule(fewer: seq<Rule>, more: seq<Rule>) returns (k: nat)
    requires multiset(fewer) < multiset(more)
    ensures k < |more| && multiset(fewer) <= multiset(Without(more, k))
  {
    var r :| multiset(fewer)[r] < multiset(more)[r];
    assert r in multiset(more);
    k :| 0 <= k < |more| && more[k] == r;
    assert more == more[..k] + [more[k]] + more[k + 1..];
  }

  function Inserted(rules: seq<Rule>, k: nat, added: Rule): seq<Rule>
    requires k <= |rules|
  {
    rules[..k] + [added] + rules[k..]
  }

  // In particular for one rule taken out or put in anywhere.
  lemma OneRuleRigid(findings: seq<Finding>, rules: seq<Rule>, k: nat, added: Rule)
    requires k <= |rules| && ExactCover(findings, rules)
    ensures k < |rules| ==> !ExactCover(findings, Without(rules, k))
    ensures !ExactCover(findings, Inserted(rules, k, added))
  {
    hide *;
    if k < |rules| {
      WithoutIsLess(rules, k);
      PassingIsRigid(findings, Without(rules, k), rules);
    }
    InsertedIsMore(rules, k, added);
    PassingIsRigid(findings, rules, Inserted(rules, k, added));
  }

  lemma InsertedIsMore(rules: seq<Rule>, k: nat, added: Rule)
    requires k <= |rules|
    ensures multiset(rules) < multiset(Inserted(rules, k, added))
  {
    assert rules == rules[..k] + rules[k..];
    assert multiset(Inserted(rules, k, added)) == multiset(rules) + multiset{added};
    assert multiset(Inserted(rules, k, added))[added] == multiset(rules)[added] + 1;
  }

  lemma WithoutIsLess(rules: seq<Rule>, k: nat)
    requires k < |rules|
    ensures multiset(Without(rules, k)) < multiset(rules)
  {
    var less := Without(rules, k);
    assert rules == rules[..k] + [rules[k]] + rules[k + 1..];
    assert multiset(rules)[rules[k]] == multiset(less)[rules[k]] + 1;
  }
}
