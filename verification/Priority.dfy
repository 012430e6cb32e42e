/** The order of findings in terms of their fields (crates/findings/src/model.rs:24-148,
    crates/findings/src/analyzer.rs:131-156). */
module Priority {
  import opened Common
  import opened Findings
  import opened Sorting
  import opened Text

  /** `a` is as serious as `b` or more so. */
  ghost predicate NoMilder(a: Severity, b: Severity) {
    match a
    case SeverityHigh => true
    case SeverityMedium => b == SeverityMedium || b == SeverityLow || b == SeverityInfo
    case SeverityLow => b == SeverityLow || b == SeverityInfo
    case SeverityInfo => b == SeverityInfo
  }

  ghost predicate NoLessSure(a: Confidence, b: Confidence) {
    match a
    case ConfidenceHigh => true
    case ConfidenceMedium => b == ConfidenceMedium || b == ConfidenceLow
    case ConfidenceLow => b == ConfidenceLow
  }

  /** Findings that are measured come first, then the more serious, the surer, those with more impact,
      and last the order of ids decides. */
  ghost predicate GoesBefore(f: Finding, g: Finding) {
    && (f.kind == Candidate ==> g.kind == Candidate)
    && (f.kind == g.kind ==> NoMilder(f.severity, g.severity))
    && (f.kind == g.kind && f.severity == g.severity ==> NoLessSure(f.confidence, g.confidence))
    && (f.kind == g.kind && f.severity == g.severity && f.confidence == g.confidence ==> f.impact >= g.impact)
    && (f.kind == g.kind && f.severity == g.severity && f.confidence == g.confidence && f.impact == g.impact ==>
          NotAfter(f.id.text, g.id.text))
  }

  /** The same without the kind, and with the key for the id. */
  ghost predicate DraftGoesBefore(a: Draft, b: Draft) {
    && NoMilder(a.severity, b.severity)
    && (a.severity == b.severity ==> NoLessSure(a.confidence, b.confidence))
    && (a.severity == b.severity && a.confidence == b.confidence ==> a.impact >= b.impact)
    && (a.severity == b.severity && a.confidence == b.confidence && a.impact == b.impact ==> NotAfter(a.key, b.key))
  }

  ghost predicate InPriorityOrder(findings: seq<Finding>) {
    forall i, j :: 0 <= i < j < |findings| ==> GoesBefore(findings[i], findings[j])
  }

  lemma FindingLeMeans(f: Finding, g: Finding)
    ensures FindingLe(f, g) <==> GoesBefore(f, g)
  {
    LexMeans(f.id.text, g.id.text);
  }

  lemma DraftLeMeans(a: Draft, b: Draft)
    ensures DraftLe(a, b) <==> DraftGoesBefore(a, b)
  {
    LexMeans(a.key, b.key);
  }

  /** Whatever is sorted by priority is in the order of the fields. */
  lemma SortedMeans(findings: seq<Finding>)
    requires Sorted(FindingLe, findings)
    ensures InPriorityOrder(findings)
  {
    forall i, j | 0 <= i < j < |findings|
      ensures GoesBefore(findings[i], findings[j])
    {
      FindingLeMeans(findings[i], findings[j]);
    }
  }

  lemma DraftOrder()
    ensures TotalPreorder(DraftLe)
  {
    forall a: Draft, b: Draft
      ensures DraftLe(a, b) || DraftLe(b, a)
    {
      LexTotal(a.key, b.key);
    }
    forall a: Draft, b: Draft, c: Draft | DraftLe(a, b) && DraftLe(b, c)
      ensures DraftLe(a, c)
    {
      if LexLe(a.key, b.key) && LexLe(b.key, c.key) {
        LexTransitive(a.key, b.key, c.key);
      }
    }
  }

  // ----- what a rule contributes

  /** The finding of a draft has its fields, and the rule's, and an id made of both. */
  ghost predicate Reports(rule: Rule, d: Draft, f: Finding) {
    && f.rule == rule.id && f.kind == rule.kind && f.id.text == rule.id.text + ":" + d.key
    && f.severity == d.severity && f.confidence == d.confidence && f.impact == d.impact
    && f.subjects == d.subjects && f.packages == d.packages && f.content == d.content
  }

  lemma {:induction false} FindingsReport(rule: Rule, drafts: seq<Draft>)
    ensures |FindingsOf(rule, drafts)| == |drafts|
    ensures forall i :: 0 <= i < |drafts| ==> Reports(rule, drafts[i], FindingsOf(rule, drafts)[i])
  {
    if drafts != [] {
      FindingsReport(rule, drafts[1..]);
    }
  }

  /** A rule that runs contributes the findings of `kept`: as many of its drafts as it may, none of
      which is milder than one it cut. A rule with a missing input contributes nothing. */
  ghost predicate Contributes(rule: Rule, k: nat, kept: seq<Draft>, cut: seq<Draft>, findings: seq<Finding>) {
    && |findings| == |kept| && (forall i :: 0 <= i < |kept| ==> Reports(rule, kept[i], findings[i]))
    && if rule.unmet then kept == [] else
      && multiset(kept) + multiset(cut) == multiset(rule.drafts)
      && |kept| <= k && (cut != [] ==> |kept| == k)
      && forall a <- kept, b <- cut :: DraftGoesBefore(a, b)
  }

  lemma ContributionIsBest(rule: Rule, k: nat) returns (kept: seq<Draft>, cut: seq<Draft>)
    ensures Contributes(rule, k, kept, cut, Contribution(rule, k))
  {
    kept, cut := [], [];
    if !rule.unmet {
      kept, cut := Parted(k, StableSort(DraftLe, rule.drafts));
      DraftOrder();
      SortIsSorted(DraftLe, rule.drafts);
      SortIsPermutation(DraftLe, rule.drafts);
      CutAfterKept(kept, cut);
    }
    FindingsReport(rule, kept);
  }

  lemma Parted(k: nat, sorted: seq<Draft>) returns (kept: seq<Draft>, cut: seq<Draft>)
    ensures kept == Take(k, sorted) && sorted == kept + cut
    ensures multiset(kept) + multiset(cut) == multiset(sorted)
    ensures |kept| <= k && (cut != [] ==> |kept| == k)
  {
    kept := Take(k, sorted);
    cut := sorted[|kept|..];
    assert sorted == kept + cut;
  }

  lemma CutAfterKept(kept: seq<Draft>, cut: seq<Draft>)
    requires Sorted(DraftLe, kept + cut)
    ensures forall a <- kept, b <- cut :: DraftGoesBefore(a, b)
  {
    forall a <- kept, b <- cut
      ensures DraftGoesBefore(a, b)
    {
      var i :| 0 <= i < |kept| && kept[i] == a;
      var j :| 0 <= j < |cut| && cut[j] == b;
      assert (kept + cut)[i] == a && (kept + cut)[|kept| + j] == b;
      DraftLeMeans(a, b);
    }
  }

  /** Everything kept comes from some rule's contribution. */
  lemma {:induction false} KeptAreReports(rules: seq<Rule>, k: nat)
    ensures forall f <- Kept(rules, k) ::
              exists rule, d :: rule in rules && !rule.unmet && d in rule.drafts && Reports(rule, d, f)
  {
    if rules != [] {
      var init, last := rules[..|rules| - 1], rules[|rules| - 1];
      KeptAreReports(init, k);
      assert rules == init + [last];
      var kept, cut := ContributionIsBest(last, k);
      forall f <- Contribution(last, k)
        ensures exists rule, d :: rule in rules && !rule.unmet && d in rule.drafts && Reports(rule, d, f)
      {
        var i :| 0 <= i < |kept| && Contribution(last, k)[i] == f;
        assert kept[i] in multiset(kept) + multiset(cut);
        assert kept[i] in rules[|rules| - 1].drafts;
      }
    }
  }

  // ----- suppressions

  /** A suppression names the rule, and the key or, with a star at its end, how the key starts. */
  ghost predicate Covers(s: Suppression, rule: RuleId, key: string) {
    && s.rule == rule
    && (if exists p :: s.key == p + "*" then exists p :: s.key == p + "*" && p <= key else s.key == key)
  }

  lemma MatchesMeans(s: Suppression, rule: RuleId, key: string)
    ensures Matches(s, rule, key) <==> Covers(s, rule, key)
  {
    if s.key != [] && s.key[|s.key| - 1] == '*' {
      var p := s.key[..|s.key| - 1];
      assert s.key == p + "*";
      forall q | s.key == q + "*"
        ensures q == p
      {
      }
    }
  }

  /** A finding is hidden by the first suppression that covers the key of its draft. */
  lemma {:induction false} CoveringMeans(suppressions: seq<Suppression>, rule: Rule, d: Draft, f: Finding)
    requires Reports(rule, d, f)
    ensures Covering(suppressions, f).None? <==> forall s <- suppressions :: !Covers(s, rule.id, d.key)
    ensures Covering(suppressions, f).Some? ==>
              exists i :: 0 <= i < |suppressions| && Covers(suppressions[i], rule.id, d.key)
                          && Covering(suppressions, f) == Some(suppressions[i])
                          && forall j :: 0 <= j < i ==> !Covers(suppressions[j], rule.id, d.key)
  {
    if suppressions != [] {
      assert f == FindingOf(rule, d);
      KeyRoundTrip(rule, d);
      MatchesMeans(suppressions[0], rule.id, d.key);
      if !Covers(suppressions[0], rule.id, d.key) {
        CoveringMeans(suppressions[1..], rule, d, f);
        CoveringLater(suppressions, rule, d, f);
      }
    }
  }

  lemma CoveringLater(suppressions: seq<Suppression>, rule: Rule, d: Draft, f: Finding)
    requires suppressions != [] && !Covers(suppressions[0], rule.id, d.key)
    requires Covering(suppressions, f) == Covering(suppressions[1..], f)
    requires Covering(suppressions[1..], f).Some? ==>
               exists i :: 0 <= i < |suppressions[1..]| && Covers(suppressions[1..][i], rule.id, d.key)
                           && Covering(suppressions[1..], f) == Some(suppressions[1..][i])
                           && forall j :: 0 <= j < i ==> !Covers(suppressions[1..][j], rule.id, d.key)
    ensures Covering(suppressions, f).Some? ==>
              exists i :: 0 <= i < |suppressions| && Covers(suppressions[i], rule.id, d.key)
                          && Covering(suppressions, f) == Some(suppressions[i])
                          && forall j :: 0 <= j < i ==> !Covers(suppressions[j], rule.id, d.key)
  {
    if Covering(suppressions, f).Some? {
      var i :| 0 <= i < |suppressions[1..]| && Covers(suppressions[1..][i], rule.id, d.key)
               && Covering(suppressions[1..], f) == Some(suppressions[1..][i])
               && forall j :: 0 <= j < i ==> !Covers(suppressions[1..][j], rule.id, d.key);
      assert suppressions[i + 1] == suppressions[1..][i];
      forall j | 0 <= j < i + 1
        ensures !Covers(suppressions[j], rule.id, d.key)
      {
        assert j == 0 || suppressions[j] == suppressions[1..][j - 1];
      }
    }
  }
}
