/** Analysis findings: ranking, bounds, suppression and paging (crates/findings/src/analyzer.rs,
    crates/findings/src/model.rs, crates/findings/src/set.rs). */
module Findings {
  import opened Common
  import opened Paging
  import opened Sorting
  import opened Text

  datatype RuleId = RuleId(text: string)
  datatype FindingId = FindingId(text: string)

  datatype Kind = Measurable | Candidate
  datatype Severity = SeverityHigh | SeverityMedium | SeverityLow | SeverityInfo
  datatype Confidence = ConfidenceHigh | ConfidenceMedium | ConfidenceLow

  function KindRank(kind: Kind): nat {
    if kind.Measurable? then 0 else 1
  }

  function SeverityRank(severity: Severity): nat {
    match severity
    case SeverityHigh => 0
    case SeverityMedium => 1
    case SeverityLow => 2
    case SeverityInfo => 3
  }

  function ConfidenceRank(confidence: Confidence): nat {
    match confidence
    case ConfidenceHigh => 0
    case ConfidenceMedium => 1
    case ConfidenceLow => 2
  }

  /** A rule's output; `content` stands for the texts, evidence and spans. */
  datatype Draft = Draft(
    key: string, severity: Severity, confidence: Confidence, impact: nat,
    subjects: seq<string>, packages: seq<string>, content: nat)

  datatype Finding = Finding(
    id: FindingId, rule: RuleId, kind: Kind, severity: Severity, confidence: Confidence, impact: nat,
    subjects: seq<string>, packages: seq<string>, content: nat)

  /** A registered rule, what it found, and whether an input it needs is missing. */
  datatype Rule = Rule(id: RuleId, kind: Kind, drafts: seq<Draft>, unmet: bool)

  // ----- the orders

  /** The part of both orders after the kind and before the name: -1, 0 or 1 as of a comparison. */
  function CompareWeight(
    s: Severity, c: Confidence, i: nat, s': Severity, c': Confidence, i': nat): int
  {
    if SeverityRank(s) != SeverityRank(s') then (if SeverityRank(s) < SeverityRank(s') then -1 else 1)
    else if ConfidenceRank(c) != ConfidenceRank(c') then (if ConfidenceRank(c) < ConfidenceRank(c') then -1 else 1)
    else if i != i' then (if i > i' then -1 else 1)
    else 0
  }

  predicate DraftLe(a: Draft, b: Draft) {
    var w := CompareWeight(a.severity, a.confidence, a.impact, b.severity, b.confidence, b.impact);
    w < 0 || (w == 0 && LexLe(a.key, b.key))
  }

  /** The order of `priority_key`. */
  predicate FindingLe(a: Finding, b: Finding) {
    var w := CompareWeight(a.severity, a.confidence, a.impact, b.severity, b.confidence, b.impact);
    KindRank(a.kind) < KindRank(b.kind)
    || (a.kind == b.kind && (w < 0 || (w == 0 && LexLe(a.id.text, b.id.text))))
  }

  // ----- running the rules

  function FindingOf(rule: Rule, d: Draft): Finding {
    Finding(FindingId(rule.id.text + ":" + d.key), rule.id, rule.kind,
            d.severity, d.confidence, d.impact, d.subjects, d.packages, d.content)
  }

  function FindingsOf(rule: Rule, drafts: seq<Draft>): seq<Finding> {
    if drafts == [] then [] else [FindingOf(rule, drafts[0])] + FindingsOf(rule, drafts[1..])
  }

  function Take<T>(k: nat, s: seq<T>): seq<T> {
    if |s| > k then s[..k] else s
  }

  /** What a rule contributes: nothing when it is skipped, else its best `k` drafts. */
  function Contribution(rule: Rule, k: nat): seq<Finding> {
    if rule.unmet then [] else FindingsOf(rule, Take(k, StableSort(DraftLe, rule.drafts)))
  }

  function Kept(rules: seq<Rule>, k: nat): seq<Finding> {
    if rules == [] then [] else Kept(rules[..|rules| - 1], k) + Contribution(rules[|rules| - 1], k)
  }

  function Ids(p: Rule -> bool, rules: seq<Rule>): seq<RuleId> {
    if rules == [] then []
    else
      var last := rules[|rules| - 1];
      Ids(p, rules[..|rules| - 1]) + if p(last) then [last.id] else []
  }

  function Unmet(): Rule -> bool {
    (rule: Rule) => rule.unmet
  }

  function Overflows(k: nat): Rule -> bool {
    (rule: Rule) => !rule.unmet && |rule.drafts| > k
  }

  datatype Run = Cancelled | Ran(findings: seq<Finding>, skipped: seq<RuleId>, truncated: seq<RuleId>)

  method RunRule(rule: Rule, k: nat) returns (findings: seq<Finding>, truncated: bool)
    requires !rule.unmet
    ensures findings == Contribution(rule, k) && truncated == (|rule.drafts| > k)
  {
    var drafts := StableSort(DraftLe, rule.drafts);
    SortIsPermutation(DraftLe, rule.drafts);
    assert |drafts| == |multiset(drafts)| == |multiset(rule.drafts)| == |rule.drafts|;
    truncated := |drafts| > k;
    if truncated {
      drafts := drafts[..k];
    }
    findings := FindingsOf(rule, drafts);
  }

  /** Runs the rules in order, keeping the best `k` drafts of each; `cancelled` is asked before each. */
  method RunRules(rules: seq<Rule>, k: nat, cancelled: nat -> bool) returns (run: Run)
    ensures run.Cancelled? <==> exists i: nat :: i < |rules| && cancelled(i)
    ensures run.Ran? ==> run == Ran(Kept(rules, k), Ids(Unmet(), rules), Ids(Overflows(k), rules))
  {
    var findings, skipped, truncated := [], [], [];
    for i := 0 to |rules|
      invariant forall j: nat :: j < i ==> !cancelled(j)
      invariant findings == Kept(rules[..i], k)
      invariant skipped == Ids(Unmet(), rules[..i])
      invariant truncated == Ids(Overflows(k), rules[..i])
    {
      if cancelled(i) {
        return Cancelled;
      }
      assert rules[..i + 1][..i] == rules[..i];
      if rules[i].unmet {
        skipped := skipped + [rules[i].id];
      } else {
        var more, overflow := RunRule(rules[i], k);
        if overflow {
          truncated := truncated + [rules[i].id];
        }
        findings := findings + more;
      }
    }
    assert rules[..|rules|] == rules;
    run := Ran(findings, skipped, truncated);
  }

  // ----- suppressions

  datatype Suppression = Suppression(rule: RuleId, key: string, reason: string)

  predicate Matches(s: Suppression, rule: RuleId, key: string) {
    s.rule == rule
    && if s.key != [] && s.key[|s.key| - 1] == '*' then StartsWith(key, s.key[..|s.key| - 1]) else s.key == key
  }

  /** The rule-local part of a finding's id. */
  function KeyOf(f: Finding): string {
    var prefix := f.rule.text + ":";
    if StartsWith(f.id.text, prefix) then f.id.text[|prefix|..] else f.id.text
  }

  /** A finding's key is the key of the draft it was made from, whatever colons either part has. */
  lemma KeyRoundTrip(rule: Rule, d: Draft)
    ensures KeyOf(FindingOf(rule, d)) == d.key
  {
    assert (rule.id.text + ":" + d.key)[|rule.id.text + ":"|..] == d.key;
  }

  /** The first suppression that covers a finding. */
  function Covering(suppressions: seq<Suppression>, f: Finding): Option<Suppression> {
    if suppressions == [] then None
    else if Matches(suppressions[0], f.rule, KeyOf(f)) then Some(suppressions[0])
    else Covering(suppressions[1..], f)
  }

  function Shown(suppressions: seq<Suppression>): Finding -> bool {
    (f: Finding) => Covering(suppressions, f).None?
  }

  function Hidden(suppressions: seq<Suppression>): Finding -> bool {
    (f: Finding) => Covering(suppressions, f).Some?
  }

  datatype Suppressed = Suppressed(finding: Finding, reason: string)

  predicate SuppressedLe(a: Suppressed, b: Suppressed) {
    FindingLe(a.finding, b.finding)
  }

  function FindingsIn(suppressed: seq<Suppressed>): seq<Finding> {
    if suppressed == [] then [] else [suppressed[0].finding] + FindingsIn(suppressed[1..])
  }

  // ----- the summary

  function Tally<K>(counts: map<K, nat>, key: K): map<K, nat> {
    counts[key := (if key in counts then counts[key] else 0) + 1]
  }

  /** The number of findings with each value of an attribute. */
  function CountBy<K>(attribute: Finding -> K, findings: seq<Finding>): map<K, nat> {
    if findings == [] then map[]
    else Tally(CountBy(attribute, findings[..|findings| - 1]), attribute(findings[|findings| - 1]))
  }

  datatype Summary = Summary(
    total: nat, suppressed: nat,
    byRule: map<RuleId, nat>, byKind: map<Kind, nat>, bySeverity: map<Severity, nat>,
    skippedRules: seq<RuleId>, truncatedRules: seq<RuleId>)

  datatype FindingSet = FindingSet(
    id: string, findings: seq<Finding>, suppressed: seq<Suppressed>, summary: Summary, maxPageLimit: nat)

  function RuleOf(): Finding -> RuleId {
    (f: Finding) => f.rule
  }

  function KindOf(): Finding -> Kind {
    (f: Finding) => f.kind
  }

  function SeverityOf(): Finding -> Severity {
    (f: Finding) => f.severity
  }

  method Split(findings: seq<Finding>, suppressions: seq<Suppression>)
    returns (ranked: seq<Finding>, suppressed: seq<Suppressed>)
    ensures ranked == Filter(Shown(suppressions), findings)
    ensures FindingsIn(suppressed) == Filter(Hidden(suppressions), findings)
    ensures forall s <- suppressed ::
              Covering(suppressions, s.finding).Some? && s.reason == Covering(suppressions, s.finding).value.reason
  {
    ranked, suppressed := [], [];
    for i := 0 to |findings|
      invariant ranked == Filter(Shown(suppressions), findings[..i])
      invariant FindingsIn(suppressed) == Filter(Hidden(suppressions), findings[..i])
      invariant forall s <- suppressed ::
          Covering(suppressions, s.finding).Some? && s.reason == Covering(suppressions, s.finding).value.reason
    {
      var f := findings[i];
      assert findings[..i + 1] == findings[..i] + [f];
      FilterConcat(Shown(suppressions), findings[..i], [f]);
      FilterConcat(Hidden(suppressions), findings[..i], [f]);
      FilterOne(Shown(suppressions), f);
      FilterOne(Hidden(suppressions), f);
      var covering := Covering(suppressions, f);
      if covering.Some? {
        var s := Suppressed(f, covering.value.reason);
        FindingsInConcat(suppressed, [s]);
        suppressed := suppressed + [s];
      } else {
        ranked := ranked + [f];
      }
    }
    assert findings[..|findings|] == findings;
  }

  lemma {:induction false} FindingsInConcat(a: seq<Suppressed>, b: seq<Suppressed>)
    ensures FindingsIn(a + b) == FindingsIn(a) + FindingsIn(b)
  {
    if a == [] {
      assert a + b == b;
    } else {
      FindingsInConcat(a[1..], b);
      assert (a + b)[0] == a[0] && (a + b)[1..] == a[1..] + b;
      Associative([a[0].finding], FindingsIn(a[1..]), FindingsIn(b));
    }
  }

  method Summarize(ranked: seq<Finding>, suppressed: nat, skipped: seq<RuleId>, truncated: seq<RuleId>)
    returns (summary: Summary)
    ensures summary == Summary(
      |ranked|, suppressed, CountBy(RuleOf(), ranked), CountBy(KindOf(), ranked), CountBy(SeverityOf(), ranked),
      skipped, truncated)
  {
    var byRule: map<RuleId, nat>, byKind: map<Kind, nat>, bySeverity: map<Severity, nat> := map[], map[], map[];
    for i := 0 to |ranked|
      invariant byRule == CountBy(RuleOf(), ranked[..i])
      invariant byKind == CountBy(KindOf(), ranked[..i])
      invariant bySeverity == CountBy(SeverityOf(), ranked[..i])
    {
      assert ranked[..i + 1][..i] == ranked[..i];
      byRule := Tally(byRule, ranked[i].rule);
      byKind := Tally(byKind, ranked[i].kind);
      bySeverity := Tally(bySeverity, ranked[i].severity);
    }
    assert ranked[..|ranked|] == ranked;
    summary := Summary(|ranked|, suppressed, byRule, byKind, bySeverity, skipped, truncated);
  }

  /** Partition, two sorts and a count. Both result lists are sorts of filters of the input. */
  method Assemble(
    id: string, findings: seq<Finding>, suppressions: seq<Suppression>,
    skipped: seq<RuleId>, truncated: seq<RuleId>, maxPageLimit: nat)
    returns (r: FindingSet)
    ensures r.id == id && r.maxPageLimit == maxPageLimit
    ensures r.findings == StableSort(FindingLe, Filter(Shown(suppressions), findings))
    ensures FindingsIn(r.suppressed) == StableSort(FindingLe, Filter(Hidden(suppressions), findings))
    ensures r.summary == Summary(
      |r.findings|, |r.suppressed|,
      CountBy(RuleOf(), r.findings), CountBy(KindOf(), r.findings), CountBy(SeverityOf(), r.findings),
      skipped, truncated)
    ensures forall s <- r.suppressed ::
              Covering(suppressions, s.finding).Some? && s.reason == Covering(suppressions, s.finding).value.reason
  {
    var ranked, suppressed := Split(findings, suppressions);
    SortSuppressed(suppressed);
    SortIsPermutation(SuppressedLe, suppressed);
    ghost var before := suppressed;
    ranked := StableSort(FindingLe, ranked);
    suppressed := StableSort(SuppressedLe, suppressed);
    forall s <- suppressed
      ensures s in before
    {
      assert s in multiset(suppressed) && s in multiset(before);
    }
    var summary := Summarize(ranked, |suppressed|, skipped, truncated);
    r := FindingSet(id, ranked, suppressed, summary, maxPageLimit);
  }

  lemma {:induction false} InsertSuppressed(x: Suppressed, s: seq<Suppressed>)
    ensures FindingsIn(Insert(SuppressedLe, x, s)) == Insert(FindingLe, x.finding, FindingsIn(s))
  {
    if s == [] || SuppressedLe(x, s[0]) {
      assert ([x] + s)[1..] == s;
    } else {
      InsertSuppressed(x, s[1..]);
      var rest := Insert(SuppressedLe, x, s[1..]);
      assert ([s[0]] + rest)[1..] == rest;
      assert FindingsIn(s)[1..] == FindingsIn(s[1..]);
    }
  }

  lemma {:induction false} SortSuppressed(s: seq<Suppressed>)
    ensures FindingsIn(StableSort(SuppressedLe, s)) == StableSort(FindingLe, FindingsIn(s))
  {
    if s != [] {
      SortSuppressed(s[1..]);
      InsertSuppressed(s[0], StableSort(SuppressedLe, s[1..]));
      assert FindingsIn(s)[1..] == FindingsIn(s[1..]);
    }
  }
}
