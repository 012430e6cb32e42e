/** Bounding each rule before ranking gives the list that ranking everything first would give
    (crates/findings/src/analyzer.rs:131-156, crates/findings/src/set.rs:37-38). */
module Ranking {
  import opened Common
  import opened Findings
  import opened Priority
  import opened Sorting
  import opened Text

  // ----- the reference: rank everything, then keep the first k of each rule

  /** A finding, and the position of its rule in the order of registration. */
  datatype Ranked = Ranked(rule: nat, finding: Finding)

  predicate RankedLe(a: Ranked, b: Ranked) {
    FindingLe(a.finding, b.finding)
  }

  function Plain(s: seq<Ranked>): seq<Finding> {
    if s == [] then [] else [s[0].finding] + Plain(s[1..])
  }

  function FindingsAt(rule: nat, s: seq<Finding>): seq<Ranked> {
    if s == [] then [] else [Ranked(rule, s[0])] + FindingsAt(rule, s[1..])
  }

  function Unbounded(rule: Rule): seq<Finding> {
    if rule.unmet then [] else FindingsOf(rule, rule.drafts)
  }

  function Chunks(rules: seq<Rule>): seq<seq<Ranked>> {
    seq(|rules|, j requires 0 <= j < |rules| => FindingsAt(j, Unbounded(rules[j])))
  }

  /** Every finding of every rule that ran. */
  function All(rules: seq<Rule>): seq<Ranked> {
    Flat(Chunks(rules))
  }

  function OfRule(rule: nat): Ranked -> bool {
    (x: Ranked) => x.rule == rule
  }

  /** The first `k` of each rule. */
  function KeepFirst(k: nat, s: seq<Ranked>): seq<Ranked> {
    if s == [] then []
    else
      var init, last := s[..|s| - 1], s[|s| - 1];
      KeepFirst(k, init) + if |Filter(OfRule(last.rule), init)| < k then [last] else []
  }

  // ----- the orders

  lemma FindingOrder()
    ensures TotalPreorder(FindingLe)
  {
    forall a: Finding, b: Finding
      ensures FindingLe(a, b) || FindingLe(b, a)
    {
      LexTotal(a.id.text, b.id.text);
    }
    forall a: Finding, b: Finding, c: Finding | FindingLe(a, b) && FindingLe(b, c)
      ensures FindingLe(a, c)
    {
      if LexLe(a.id.text, b.id.text) && LexLe(b.id.text, c.id.text) {
        LexTransitive(a.id.text, b.id.text, c.id.text);
      }
    }
  }

  /** Within a rule, findings compare as their drafts do: the id order is the key order. */
  lemma IdOrderIsKeyOrder(rule: Rule, a: Draft, b: Draft)
    ensures FindingLe(FindingOf(rule, a), FindingOf(rule, b)) <==> DraftLe(a, b)
  {
    LexCommonPrefix(rule.id.text + ":", a.key, b.key);
  }

  lemma {:induction false} InsertDraft(rule: Rule, d: Draft, drafts: seq<Draft>)
    ensures FindingsOf(rule, Insert(DraftLe, d, drafts)) == Insert(FindingLe, FindingOf(rule, d), FindingsOf(rule, drafts))
  {
    if drafts != [] {
      IdOrderIsKeyOrder(rule, d, drafts[0]);
    }
    if drafts == [] || DraftLe(d, drafts[0]) {
      assert ([d] + drafts)[1..] == drafts;
    } else {
      InsertDraft(rule, d, drafts[1..]);
      var rest := Insert(DraftLe, d, drafts[1..]);
      assert ([drafts[0]] + rest)[1..] == rest;
      assert FindingsOf(rule, drafts)[1..] == FindingsOf(rule, drafts[1..]);
    }
  }

  lemma {:induction false} SortDrafts(rule: Rule, drafts: seq<Draft>)
    ensures FindingsOf(rule, StableSort(DraftLe, drafts)) == StableSort(FindingLe, FindingsOf(rule, drafts))
  {
    if drafts != [] {
      SortDrafts(rule, drafts[1..]);
      InsertDraft(rule, drafts[0], StableSort(DraftLe, drafts[1..]));
      assert FindingsOf(rule, drafts)[1..] == FindingsOf(rule, drafts[1..]);
    }
  }

  lemma {:induction false} TakeDrafts(rule: Rule, drafts: seq<Draft>, k: nat)
    ensures |FindingsOf(rule, drafts)| == |drafts|
    ensures FindingsOf(rule, Take(k, drafts)) == Take(k, FindingsOf(rule, drafts))
  {
    if drafts != [] {
      TakeDrafts(rule, drafts[1..], if k > 0 then k - 1 else 0);
      if 0 < k < |drafts| {
        assert drafts[..k][1..] == drafts[1..][..k - 1];
        assert Take(k, drafts)[0] == drafts[0];
      }
    }
  }

  /** What a rule contributes is the best k of its findings in the final order. */
  lemma ContributionIsTop(rule: Rule, k: nat)
    ensures Contribution(rule, k) == Take(k, StableSort(FindingLe, Unbounded(rule)))
  {
    if !rule.unmet {
      TakeDrafts(rule, StableSort(DraftLe, rule.drafts), k);
      SortDrafts(rule, rule.drafts);
    }
  }

  // ----- findings with and without their rule

  lemma {:induction false} PlainConcat(a: seq<Ranked>, b: seq<Ranked>)
    ensures Plain(a + b) == Plain(a) + Plain(b)
  {
    if a == [] {
      assert a + b == b;
    } else {
      PlainConcat(a[1..], b);
      assert (a + b)[0] == a[0] && (a + b)[1..] == a[1..] + b;
      Associative([a[0].finding], Plain(a[1..]), Plain(b));
    }
  }

  lemma {:induction false} InsertPlain(x: Ranked, s: seq<Ranked>)
    ensures Plain(Insert(RankedLe, x, s)) == Insert(FindingLe, x.finding, Plain(s))
  {
    if s == [] || RankedLe(x, s[0]) {
      assert ([x] + s)[1..] == s;
    } else {
      InsertPlain(x, s[1..]);
      var rest := Insert(RankedLe, x, s[1..]);
      assert ([s[0]] + rest)[1..] == rest;
      assert Plain(s)[1..] == Plain(s[1..]);
    }
  }

  /** Ranking findings with their rules ranks the findings. */
  lemma {:induction false} SortPlain(s: seq<Ranked>)
    ensures Plain(StableSort(RankedLe, s)) == StableSort(FindingLe, Plain(s))
  {
    if s != [] {
      SortPlain(s[1..]);
      InsertPlain(s[0], StableSort(RankedLe, s[1..]));
      assert Plain(s)[1..] == Plain(s[1..]);
    }
  }

  lemma {:induction false} PlainAt(rule: nat, s: seq<Finding>)
    ensures Plain(FindingsAt(rule, s)) == s && |FindingsAt(rule, s)| == |s| && OnlyOf(rule, FindingsAt(rule, s))
  {
    if s != [] {
      PlainAt(rule, s[1..]);
      assert FindingsAt(rule, s)[1..] == FindingsAt(rule, s[1..]);
    }
  }

  lemma {:induction false} InsertAt(rule: nat, f: Finding, s: seq<Finding>)
    ensures FindingsAt(rule, Insert(FindingLe, f, s)) == Insert(RankedLe, Ranked(rule, f), FindingsAt(rule, s))
  {
    if s == [] || FindingLe(f, s[0]) {
      assert ([f] + s)[1..] == s;
    } else {
      InsertAt(rule, f, s[1..]);
      var rest := Insert(FindingLe, f, s[1..]);
      assert ([s[0]] + rest)[1..] == rest;
      assert FindingsAt(rule, s)[1..] == FindingsAt(rule, s[1..]);
    }
  }

  lemma {:induction false} SortAt(rule: nat, s: seq<Finding>)
    ensures FindingsAt(rule, StableSort(FindingLe, s)) == StableSort(RankedLe, FindingsAt(rule, s))
  {
    if s != [] {
      SortAt(rule, s[1..]);
      InsertAt(rule, s[0], StableSort(FindingLe, s[1..]));
      assert FindingsAt(rule, s)[1..] == FindingsAt(rule, s[1..]);
    }
  }

  lemma {:induction false} TakeAt(rule: nat, s: seq<Finding>, k: nat)
    ensures FindingsAt(rule, Take(k, s)) == Take(k, FindingsAt(rule, s))
  {
    PlainAt(rule, s);
    if s != [] && 0 < k < |s| {
      TakeAt(rule, s[1..], k - 1);
      PlainAt(rule, s[1..]);
      assert s[..k][0] == s[0] && s[..k][1..] == s[1..][..k - 1];
    }
  }

  // ----- one rule at a time

  /** Chunk j holds findings of rule j only. */
  ghost predicate ByRule(chunks: seq<seq<Ranked>>) {
    forall j :: 0 <= j < |chunks| ==> OnlyOf(j, chunks[j])
  }

  ghost predicate OnlyOf(rule: nat, s: seq<Ranked>) {
    forall x <- s :: x.rule == rule
  }

  /** The findings of one rule among the chunks are its chunk. */
  lemma ChunkOfRule(chunks: seq<seq<Ranked>>, rule: nat)
    requires ByRule(chunks)
    ensures Filter(OfRule(rule), Flat(chunks)) == if rule < |chunks| then chunks[rule] else []
  {
    forall j | 0 <= j < |chunks| && j != rule
      ensures Filter(OfRule(rule), chunks[j]) == []
    {
      assert OnlyOf(j, chunks[j]);
      FilterNone(OfRule(rule), chunks[j]);
    }
    FilterFlat(OfRule(rule), chunks, rule);
    if rule < |chunks| {
      assert OnlyOf(rule, chunks[rule]);
      FilterAll(OfRule(rule), chunks[rule]);
    }
  }

  function KeptChunks(rules: seq<Rule>, k: nat): seq<seq<Ranked>> {
    seq(|rules|, j requires 0 <= j < |rules| => FindingsAt(j, Contribution(rules[j], k)))
  }

  lemma {:induction false} KeptIsFlat(rules: seq<Rule>, k: nat)
    ensures Kept(rules, k) == Plain(Flat(KeptChunks(rules, k)))
  {
    if rules != [] {
      var init, last := rules[..|rules| - 1], |rules| - 1;
      KeptIsFlat(init, k);
      assert KeptChunks(rules, k)[..last] == KeptChunks(init, k);
      PlainConcat(Flat(KeptChunks(init, k)), KeptChunks(rules, k)[last]);
      PlainAt(last, Contribution(rules[last], k));
    }
  }

  lemma ChunksAreByRule(rules: seq<Rule>, k: nat)
    ensures ByRule(Chunks(rules)) && ByRule(KeptChunks(rules, k))
  {
    forall j: nat | j < |rules|
      ensures OnlyOf(j, Chunks(rules)[j]) && OnlyOf(j, KeptChunks(rules, k)[j])
    {
      PlainAt(j, Unbounded(rules[j]));
      PlainAt(j, Contribution(rules[j], k));
    }
  }

  /** The kept chunk of a rule is the best k of its chunk. */
  lemma KeptChunkIsTop(rules: seq<Rule>, k: nat, j: nat)
    requires j < |rules|
    ensures KeptChunks(rules, k)[j] == Take(k, StableSort(RankedLe, Chunks(rules)[j]))
  {
    ContributionIsTop(rules[j], k);
    TakeAt(j, StableSort(FindingLe, Unbounded(rules[j])), k);
    SortAt(j, Unbounded(rules[j]));
  }

  // ----- keeping the first k

  lemma {:induction false} KeepFirstOfRule(k: nat, s: seq<Ranked>, rule: nat)
    ensures Filter(OfRule(rule), KeepFirst(k, s)) == Take(k, Filter(OfRule(rule), s))
  {
    if s != [] {
      var init, last := s[..|s| - 1], s[|s| - 1];
      KeepFirstOfRule(k, init, rule);
      assert s == init + [last];
      FilterConcat(OfRule(rule), init, [last]);
      FilterOne(OfRule(rule), last);
      FilterConcat(OfRule(rule), KeepFirst(k, init), if |Filter(OfRule(last.rule), init)| < k then [last] else []);
    }
  }

  lemma {:induction false} KeepFirstMembers(k: nat, s: seq<Ranked>)
    ensures forall x <- KeepFirst(k, s) :: x in s
  {
    if s != [] {
      KeepFirstMembers(k, s[..|s| - 1]);
    }
  }

  lemma {:induction false} KeepFirstSorted(le: (Ranked, Ranked) -> bool, k: nat, s: seq<Ranked>)
    requires Sorted(le, s)
    ensures Sorted(le, KeepFirst(k, s))
  {
    if s != [] {
      var init, last := s[..|s| - 1], s[|s| - 1];
      KeepFirstSorted(le, k, init);
      KeepFirstMembers(k, init);
      var kept := KeepFirst(k, init);
      forall i | 0 <= i < |kept|
        ensures le(kept[i], last)
      {
        assert kept[i] in init;
      }
    }
  }

  // ----- ties between rules

  lemma RankedOrder()
    ensures TotalPreorder(RankedLe)
  {
    FindingOrder();
    forall a: Ranked, b: Ranked
      ensures RankedLe(a, b) || RankedLe(b, a)
    {
      assert FindingLe(a.finding, b.finding) || FindingLe(b.finding, a.finding);
    }
    forall a: Ranked, b: Ranked, c: Ranked | RankedLe(a, b) && RankedLe(b, c)
      ensures RankedLe(a, c)
    {
      assert FindingLe(a.finding, b.finding) && FindingLe(b.finding, c.finding);
    }
  }

  /** Priority, and the registration order of the rules where priorities are equal. */
  predicate RefinedLe(a: Ranked, b: Ranked) {
    RankedLe(a, b) && (RankedLe(b, a) ==> a.rule <= b.rule)
  }

  lemma RefinedOrder()
    ensures TotalPreorder(RefinedLe)
  {
    RankedOrder();
    forall a, b
      ensures RefinedLe(a, b) || RefinedLe(b, a)
    {
      assert RankedLe(a, b) || RankedLe(b, a);
    }
    forall a, b, c | RefinedLe(a, b) && RefinedLe(b, c)
      ensures RefinedLe(a, c)
    {
      assert RankedLe(a, c);
      if RankedLe(c, a) {
        assert RankedLe(b, a) && RankedLe(c, b);
      }
    }
  }

  predicate RuleOrder(a: Ranked, b: Ranked) {
    a.rule <= b.rule
  }

  lemma {:induction false} FlatInRuleOrder(chunks: seq<seq<Ranked>>)
    requires ByRule(chunks)
    ensures Sorted(RuleOrder, Flat(chunks))
    ensures forall x <- Flat(chunks) :: x.rule < |chunks|
  {
    if chunks != [] {
      var last := |chunks| - 1;
      FlatInRuleOrder(chunks[..last]);
      assert OnlyOf(last, chunks[last]);
      var before: seq<Ranked>, added: seq<Ranked> := Flat(chunks[..last]), chunks[last];
      forall i | 0 <= i < |before + added|
        ensures i < |before| ==> (before + added)[i].rule < last
        ensures i >= |before| ==> (before + added)[i].rule == last
      {
        if i < |before| {
          assert (before + added)[i] == before[i] && before[i] in before;
        } else {
          assert (before + added)[i] == added[i - |before|] && added[i - |before|] in added;
        }
      }
    }
  }

  /** For a list in rule order, breaking ties by rule changes nothing: the sort is stable. */
  lemma SortRefined(s: seq<Ranked>)
    requires Sorted(RuleOrder, s)
    ensures StableSort(RankedLe, s) == StableSort(RefinedLe, s)
  {
    RankedOrder();
    RefinedOrder();
    var a, b := StableSort(RankedLe, s), StableSort(RefinedLe, s);
    SortIsSorted(RankedLe, s);
    SortIsSorted(RefinedLe, s);
    assert Sorted(RankedLe, b) by {
      assert forall i, j :: 0 <= i < j < |b| ==> RefinedLe(b[i], b[j]);
    }
    forall x
      ensures Class(RankedLe, a, x) == Class(RankedLe, b, x)
    {
      SortIsStable(RankedLe, s, x);
      RefinedClass(s, x);
    }
    SortedUnique(RankedLe, a, b);
  }

  lemma RefinedClass(s: seq<Ranked>, x: Ranked)
    requires Sorted(RuleOrder, s)
    ensures Class(RankedLe, StableSort(RefinedLe, s), x) == Class(RankedLe, s, x)
  {
    RefinedOrder();
    var same := SameAs(RankedLe, x);
    var ties := Filter(same, s);
    SortFilter(RefinedLe, same, s);
    FilterSorted(RuleOrder, same, s);
    FilterMembers(same, s);
    forall i, j | 0 <= i < j < |ties|
      ensures RefinedLe(ties[i], ties[j])
    {
      assert ties[i] in ties && ties[j] in ties;
      TiesCompare(x, ties[i], ties[j]);
      assert RuleOrder(ties[i], ties[j]);
    }
    SortOfSorted(RefinedLe, ties);
  }

  lemma TiesCompare(x: Ranked, a: Ranked, b: Ranked)
    requires SameAs(RankedLe, x)(a) && SameAs(RankedLe, x)(b)
    ensures RankedLe(a, b)
  {
    RankedOrder();
    assert RankedLe(a, x) && RankedLe(x, b);
  }

  // ----- the theorem

  /** Both sides hold the same findings of each rule, in the same order. */
  lemma SameOfRule(rules: seq<Rule>, k: nat, rule: nat)
    ensures Filter(OfRule(rule), StableSort(RankedLe, Flat(KeptChunks(rules, k))))
         == Filter(OfRule(rule), KeepFirst(k, StableSort(RankedLe, All(rules))))
  {
    RankedOrder();
    ChunksAreByRule(rules, k);
    SortFilter(RankedLe, OfRule(rule), Flat(KeptChunks(rules, k)));
    SortFilter(RankedLe, OfRule(rule), All(rules));
    KeepFirstOfRule(k, StableSort(RankedLe, All(rules)), rule);
    ChunkOfRule(KeptChunks(rules, k), rule);
    ChunkOfRule(Chunks(rules), rule);
    if rule < |rules| {
      KeptChunkIsTop(rules, k, rule);
      TopIsSorted(Chunks(rules)[rule], k);
    }
  }

  lemma TopIsSorted(s: seq<Ranked>, k: nat)
    ensures var top := Take(k, StableSort(RankedLe, s)); StableSort(RankedLe, top) == top
  {
    RankedOrder();
    SortIsSorted(RankedLe, s);
    SortOfSorted(RankedLe, Take(k, StableSort(RankedLe, s)));
  }

  /** Ties under the refined order come from one rule. */
  lemma ClassWithinRule(s: seq<Ranked>, x: Ranked)
    ensures Class(RefinedLe, s, x) == Class(RefinedLe, Filter(OfRule(x.rule), s), x)
  {
    forall y <- s | SameAs(RefinedLe, x)(y)
      ensures OfRule(x.rule)(y)
    {
      assert RefinedLe(x, y) && RefinedLe(y, x);
    }
    FilterImplied(SameAs(RefinedLe, x), OfRule(x.rule), s);
  }

  lemma TruncateThenRankWithRules(rules: seq<Rule>, k: nat)
    ensures StableSort(RankedLe, Flat(KeptChunks(rules, k))) == KeepFirst(k, StableSort(RankedLe, All(rules)))
  {
    var kept, all := Flat(KeptChunks(rules, k)), All(rules);
    var a, b := StableSort(RankedLe, kept), KeepFirst(k, StableSort(RankedLe, all));
    ChunksAreByRule(rules, k);
    FlatInRuleOrder(KeptChunks(rules, k));
    FlatInRuleOrder(Chunks(rules));
    SortRefined(kept);
    SortRefined(all);
    RefinedOrder();
    SortIsSorted(RefinedLe, kept);
    SortIsSorted(RefinedLe, all);
    KeepFirstSorted(RefinedLe, k, StableSort(RankedLe, all));
    forall x
      ensures Class(RefinedLe, a, x) == Class(RefinedLe, b, x)
    {
      SameOfRule(rules, k, x.rule);
      ClassWithinRule(a, x);
      ClassWithinRule(b, x);
    }
    SortedUnique(RefinedLe, a, b);
  }

  /** Truncating each rule to its best k and then ranking is ranking everything and then keeping the
      first k of each rule. */
  lemma TruncateThenRank(rules: seq<Rule>, k: nat)
    ensures StableSort(FindingLe, Kept(rules, k)) == Plain(KeepFirst(k, StableSort(RankedLe, All(rules))))
  {
    KeptIsFlat(rules, k);
    SortPlain(Flat(KeptChunks(rules, k)));
    TruncateThenRankWithRules(rules, k);
  }

  /** The ranked and the suppressed findings are the two parts of that list, each in its order. */
  lemma PartsOfRanking(rules: seq<Rule>, k: nat, suppressions: seq<Suppression>)
    ensures
      var ranking := Plain(KeepFirst(k, StableSort(RankedLe, All(rules))));
      && StableSort(FindingLe, Filter(Shown(suppressions), Kept(rules, k))) == Filter(Shown(suppressions), ranking)
      && StableSort(FindingLe, Filter(Hidden(suppressions), Kept(rules, k))) == Filter(Hidden(suppressions), ranking)
  {
    FindingOrder();
    TruncateThenRank(rules, k);
    SortFilter(FindingLe, Shown(suppressions), Kept(rules, k));
    SortFilter(FindingLe, Hidden(suppressions), Kept(rules, k));
  }

  // ----- rules by name

  ghost predicate DistinctRules(rules: seq<Rule>) {
    forall i, j :: 0 <= i < j < |rules| ==> rules[i].id != rules[j].id
  }

  /** The first `k` of each rule id. */
  function KeepFirstById(k: nat, s: seq<Finding>): seq<Finding> {
    if s == [] then []
    else
      var init, last := s[..|s| - 1], s[|s| - 1];
      KeepFirstById(k, init) + if |Filter((f: Finding) => f.rule == last.rule, init)| < k then [last] else []
  }

  /** Each finding carries the id of its rule. */
  ghost predicate Named(rules: seq<Rule>, s: seq<Ranked>) {
    forall x <- s :: x.rule < |rules| && x.finding.rule == rules[x.rule].id
  }

  lemma {:induction false} CountById(rules: seq<Rule>, s: seq<Ranked>, rule: nat)
    requires DistinctRules(rules) && Named(rules, s) && rule < |rules|
    ensures |Filter(OfRule(rule), s)| == |Filter((f: Finding) => f.rule == rules[rule].id, Plain(s))|
  {
    if s != [] {
      CountById(rules, s[1..], rule);
      assert s[0] in s;
      assert Plain(s)[1..] == Plain(s[1..]);
    }
  }

  /** With distinct rule ids, keeping the first k of each rule is keeping the first k of each id. */
  lemma {:induction false} ByRuleIsById(rules: seq<Rule>, k: nat, s: seq<Ranked>)
    requires DistinctRules(rules) && Named(rules, s)
    ensures Plain(KeepFirst(k, s)) == KeepFirstById(k, Plain(s))
  {
    if s != [] {
      var init, last := s[..|s| - 1], s[|s| - 1];
      assert s == init + [last];
      assert last in s;
      ByRuleIsById(rules, k, init);
      CountById(rules, init, last.rule);
      PlainPush(init, last);
      PlainPush(KeepFirst(k, init), last);
      KeepByIdPush(k, Plain(init), last.finding);
    }
  }

  lemma PlainPush(s: seq<Ranked>, x: Ranked)
    ensures Plain(s + [x]) == Plain(s) + [x.finding] && Plain(s + []) == Plain(s)
  {
    PlainConcat(s, [x]);
    assert [x][1..] == [] && s + [] == s;
    assert Plain([x]) == [x.finding];
  }

  lemma KeepByIdPush(k: nat, s: seq<Finding>, f: Finding)
    ensures KeepFirstById(k, s + [f])
         == KeepFirstById(k, s) + if |Filter((g: Finding) => g.rule == f.rule, s)| < k then [f] else []
  {
    assert (s + [f])[..|s + [f]| - 1] == s;
  }

  lemma {:induction false} ChunksNamed(rules: seq<Rule>, j: nat, s: seq<Finding>)
    requires j < |rules| && forall f <- s :: f.rule == rules[j].id
    ensures Named(rules, FindingsAt(j, s))
  {
    if s != [] {
      ChunksNamed(rules, j, s[1..]);
    }
  }

  lemma {:induction false} FlatNamed(rules: seq<Rule>, chunks: seq<seq<Ranked>>)
    requires forall j :: 0 <= j < |chunks| ==> Named(rules, chunks[j])
    ensures Named(rules, Flat(chunks))
  {
    if chunks != [] {
      FlatNamed(rules, chunks[..|chunks| - 1]);
    }
  }

  lemma RankingNamed(rules: seq<Rule>)
    ensures Named(rules, StableSort(RankedLe, All(rules)))
  {
    forall j: nat | j < |rules|
      ensures Named(rules, Chunks(rules)[j])
    {
      RuleOfFindings(rules[j], rules[j].drafts);
      ChunksNamed(rules, j, Unbounded(rules[j]));
    }
    FlatNamed(rules, Chunks(rules));
    SortIsPermutation(RankedLe, All(rules));
    forall x <- StableSort(RankedLe, All(rules))
      ensures x in All(rules)
    {
      assert x in multiset(StableSort(RankedLe, All(rules))) && x in multiset(All(rules));
    }
  }

  lemma {:induction false} RuleOfFindings(rule: Rule, drafts: seq<Draft>)
    ensures forall f <- FindingsOf(rule, drafts) :: f.rule == rule.id
  {
    if drafts != [] {
      RuleOfFindings(rule, drafts[1..]);
    }
  }

  /** The same for the ranked findings alone, when rule ids are distinct. */
  lemma TruncateThenRankById(rules: seq<Rule>, k: nat)
    requires DistinctRules(rules)
    ensures StableSort(FindingLe, Kept(rules, k)) == KeepFirstById(k, StableSort(FindingLe, Plain(All(rules))))
  {
    TruncateThenRank(rules, k);
    RankingNamed(rules);
    ByRuleIsById(rules, k, StableSort(RankedLe, All(rules)));
    SortPlain(All(rules));
  }

  /** Ranked and suppressed together are exactly the kept findings. */
  lemma NothingLost(findings: seq<Finding>, suppressions: seq<Suppression>)
    ensures multiset(StableSort(FindingLe, Filter(Shown(suppressions), findings)))
            + multiset(StableSort(FindingLe, Filter(Hidden(suppressions), findings)))
         == multiset(findings)
  {
    SortIsPermutation(FindingLe, Filter(Shown(suppressions), findings));
    SortIsPermutation(FindingLe, Filter(Hidden(suppressions), findings));
    FilterPartition(Shown(suppressions), Hidden(suppressions), findings);
  }

  /** The whole analysis. `id` stands for the digest of the result. */
  method Analyze(
    id: string, rules: seq<Rule>, k: nat, suppressions: seq<Suppression>, maxPageLimit: nat, cancelled: nat -> bool)
    returns (r: Option<FindingSet>)
    ensures r.None? <==> exists i: nat :: i < |rules| && cancelled(i)
    ensures r.Some? ==> r.value.id == id && r.value.maxPageLimit == maxPageLimit
    ensures r.Some? ==>
              var ranking := Plain(KeepFirst(k, StableSort(RankedLe, All(rules))));
              && r.value.findings == Filter(Shown(suppressions), ranking)
              && FindingsIn(r.value.suppressed) == Filter(Hidden(suppressions), ranking)
    ensures r.Some? ==> multiset(r.value.findings) + multiset(FindingsIn(r.value.suppressed)) == multiset(Kept(rules, k))
    // the same read off the fields: the order, what is reported, and why what is hidden is
    ensures r.Some? ==> InPriorityOrder(r.value.findings) && InPriorityOrder(FindingsIn(r.value.suppressed))
    ensures r.Some? ==> forall f <- r.value.findings :: IsReport(rules, f) && Uncovered(rules, suppressions, f)
    ensures r.Some? ==> forall s <- r.value.suppressed :: IsReport(rules, s.finding) && Explained(rules, suppressions, s)
    ensures r.Some? ==> SummaryIsExact(r.value.summary, r.value.findings, |r.value.suppressed|)
    ensures r.Some? ==>
              && Total(r.value.summary.byRule) == |r.value.findings|
              && Total(r.value.summary.byKind) == |r.value.findings|
              && Total(r.value.summary.bySeverity) == |r.value.findings|
              && r.value.summary.truncatedRules == Ids(Overflows(k), rules)
              && r.value.summary.skippedRules == Ids(Unmet(), rules)
  {
    var run := RunRules(rules, k, cancelled);
    if run.Cancelled? {
      return None;
    }
    var found := Assemble(id, run.findings, suppressions, run.skipped, run.truncated, maxPageLimit);
    NothingLost(run.findings, suppressions);
    CountsAddUp(RuleOf(), found.findings);
    CountsAddUp(KindOf(), found.findings);
    CountsAddUp(SeverityOf(), found.findings);
    PartsOfRanking(rules, k, suppressions);
    PartsMean(rules, k, suppressions, found);
    SummaryMeans(found);
    r := Some(found);
  }

  /** A finding of some rule that ran. */
  ghost predicate IsReport(rules: seq<Rule>, f: Finding) {
    exists rule, d :: rule in rules && !rule.unmet && d in rule.drafts && Reports(rule, d, f)
  }

  /** No suppression covers the key of the draft that a finding was made from. */
  ghost predicate Uncovered(rules: seq<Rule>, suppressions: seq<Suppression>, f: Finding) {
    forall rule, d :: Reports(rule, d, f) ==> forall s <- suppressions :: !Covers(s, rule.id, d.key)
  }

  /** The first suppression that covers it gives the reason. */
  ghost predicate Explained(rules: seq<Rule>, suppressions: seq<Suppression>, hidden: Suppressed) {
    forall rule, d :: Reports(rule, d, hidden.finding) ==>
      exists i :: 0 <= i < |suppressions| && Covers(suppressions[i], rule.id, d.key) && hidden.reason == suppressions[i].reason
                  && forall j :: 0 <= j < i ==> !Covers(suppressions[j], rule.id, d.key)
  }

  lemma PartsMean(rules: seq<Rule>, k: nat, suppressions: seq<Suppression>, found: FindingSet)
    requires found.findings == StableSort(FindingLe, Filter(Shown(suppressions), Kept(rules, k)))
    requires FindingsIn(found.suppressed) == StableSort(FindingLe, Filter(Hidden(suppressions), Kept(rules, k)))
    requires forall s <- found.suppressed ::
               Covering(suppressions, s.finding).Some? && s.reason == Covering(suppressions, s.finding).value.reason
    ensures InPriorityOrder(found.findings) && InPriorityOrder(FindingsIn(found.suppressed))
    ensures forall f <- found.findings :: IsReport(rules, f) && Uncovered(rules, suppressions, f)
    ensures forall s <- found.suppressed :: IsReport(rules, s.finding) && Explained(rules, suppressions, s)
  {
    var kept := Kept(rules, k);
    FindingOrder();
    SortIsSorted(FindingLe, Filter(Shown(suppressions), kept));
    SortIsSorted(FindingLe, Filter(Hidden(suppressions), kept));
    SortedMeans(found.findings);
    SortedMeans(FindingsIn(found.suppressed));
    KeptAreReports(rules, k);
    SortedMembers(Shown(suppressions), kept);
    SortedMembers(Hidden(suppressions), kept);
    forall f <- found.findings
      ensures Uncovered(rules, suppressions, f)
    {
      forall rule, d | Reports(rule, d, f)
        ensures forall s <- suppressions :: !Covers(s, rule.id, d.key)
      {
        CoveringMeans(suppressions, rule, d, f);
      }
    }
    forall s <- found.suppressed
      ensures IsReport(rules, s.finding) && Explained(rules, suppressions, s)
    {
      SuppressedListed(found.suppressed, s);
      ExplainedByCovering(rules, suppressions, s);
    }
  }

  lemma ExplainedByCovering(rules: seq<Rule>, suppressions: seq<Suppression>, hidden: Suppressed)
    requires Covering(suppressions, hidden.finding).Some?
    requires hidden.reason == Covering(suppressions, hidden.finding).value.reason
    ensures Explained(rules, suppressions, hidden)
  {
    forall rule, d | Reports(rule, d, hidden.finding)
      ensures exists i :: 0 <= i < |suppressions| && Covers(suppressions[i], rule.id, d.key) && hidden.reason == suppressions[i].reason
                          && forall j :: 0 <= j < i ==> !Covers(suppressions[j], rule.id, d.key)
    {
      CoveringMeans(suppressions, rule, d, hidden.finding);
    }
  }

  lemma SortedMembers(p: Finding -> bool, s: seq<Finding>)
    ensures forall f <- StableSort(FindingLe, Filter(p, s)) :: f in s && p(f)
  {
    SortIsPermutation(FindingLe, Filter(p, s));
    FilterMembers(p, s);
    forall f <- StableSort(FindingLe, Filter(p, s))
      ensures f in Filter(p, s)
    {
      assert f in multiset(StableSort(FindingLe, Filter(p, s))) && f in multiset(Filter(p, s));
    }
  }

  lemma {:induction false} SuppressedListed(suppressed: seq<Suppressed>, s: Suppressed)
    requires s in suppressed
    ensures s.finding in FindingsIn(suppressed)
  {
    if s != suppressed[0] {
      SuppressedListed(suppressed[1..], s);
    }
  }

  /** The summary counts the findings by rule, kind and severity, and lists only values that occur. */
  ghost predicate SummaryIsExact(summary: Summary, findings: seq<Finding>, suppressed: nat) {
    && summary.total == |findings| && summary.suppressed == suppressed
    && (forall v :: Count(summary.byRule, v) == |Filter((f: Finding) => f.rule == v, findings)|)
    && (forall v :: Count(summary.byKind, v) == |Filter((f: Finding) => f.kind == v, findings)|)
    && (forall v :: Count(summary.bySeverity, v) == |Filter((f: Finding) => f.severity == v, findings)|)
    && (forall v <- summary.byRule :: summary.byRule[v] > 0)
    && (forall v <- summary.byKind :: summary.byKind[v] > 0)
    && (forall v <- summary.bySeverity :: summary.bySeverity[v] > 0)
  }

  function Count<K>(counts: map<K, nat>, value: K): nat {
    if value in counts then counts[value] else 0
  }

  lemma {:induction false} CountIs<K(!new)>(attribute: Finding -> K, findings: seq<Finding>, value: K, has: Finding -> bool)
    requires forall f :: has(f) <==> attribute(f) == value
    ensures Count(CountBy(attribute, findings), value) == |Filter(has, findings)|
    ensures value in CountBy(attribute, findings) ==> CountBy(attribute, findings)[value] > 0
  {
    if findings != [] {
      var init, last := findings[..|findings| - 1], findings[|findings| - 1];
      CountIs(attribute, init, value, has);
      assert findings == init + [last];
      FilterConcat(has, init, [last]);
      FilterOne(has, last);
    }
  }

  lemma SummaryMeans(found: FindingSet)
    requires found.summary.total == |found.findings| && found.summary.suppressed == |found.suppressed|
    requires found.summary.byRule == CountBy(RuleOf(), found.findings)
    requires found.summary.byKind == CountBy(KindOf(), found.findings)
    requires found.summary.bySeverity == CountBy(SeverityOf(), found.findings)
    ensures SummaryIsExact(found.summary, found.findings, |found.suppressed|)
  {
    forall v: RuleId
      ensures Count(found.summary.byRule, v) == |Filter((f: Finding) => f.rule == v, found.findings)|
      ensures v in found.summary.byRule ==> found.summary.byRule[v] > 0
    {
      CountIs(RuleOf(), found.findings, v, (f: Finding) => f.rule == v);
    }
    forall v: Kind
      ensures Count(found.summary.byKind, v) == |Filter((f: Finding) => f.kind == v, found.findings)|
      ensures v in found.summary.byKind ==> found.summary.byKind[v] > 0
    {
      CountIs(KindOf(), found.findings, v, (f: Finding) => f.kind == v);
    }
    forall v: Severity
      ensures Count(found.summary.bySeverity, v) == |Filter((f: Finding) => f.severity == v, found.findings)|
      ensures v in found.summary.bySeverity ==> found.summary.bySeverity[v] > 0
    {
      CountIs(SeverityOf(), found.findings, v, (f: Finding) => f.severity == v);
    }
  }

  // ----- the counts

  ghost function Total<K(!new)>(counts: map<K, nat>): nat
    decreases |counts|
  {
    if counts == map[] then 0 else var k :| k in counts; counts[k] + Total(counts - {k})
  }

  lemma {:induction false} TotalWithout<K(!new)>(counts: map<K, nat>, k: K)
    requires k in counts
    ensures Total(counts) == counts[k] + Total(counts - {k})
    decreases |counts|
  {
    var first :| first in counts && Total(counts) == counts[first] + Total(counts - {first});
    if first != k {
      TotalWithout(counts - {first}, k);
      TotalWithout(counts - {k}, first);
      assert counts - {first} - {k} == counts - {k} - {first};
    }
  }

  lemma TotalTally<K(!new)>(counts: map<K, nat>, key: K)
    ensures Total(Tally(counts, key)) == Total(counts) + 1
  {
    var next := Tally(counts, key);
    TotalWithout(next, key);
    if key in counts {
      TotalWithout(counts, key);
      assert next - {key} == counts - {key};
    } else {
      assert next - {key} == counts;
    }
  }

  /** The counts by any attribute add up to the number of findings. */
  lemma {:induction false} CountsAddUp<K(!new)>(attribute: Finding -> K, findings: seq<Finding>)
    ensures Total(CountBy(attribute, findings)) == |findings|
  {
    if findings != [] {
      var init := findings[..|findings| - 1];
      CountsAddUp(attribute, init);
      TotalTally(CountBy(attribute, init), attribute(findings[|findings| - 1]));
    }
  }

  /** Each count is the number of findings with that value; values that do not occur are not listed. */
  lemma {:induction false} CountsAreExact<K(!new)>(attribute: Finding -> K, findings: seq<Finding>, value: K)
    ensures
      var n := |Filter((f: Finding) => attribute(f) == value, findings)|;
      var counts := CountBy(attribute, findings);
      (value in counts <==> n > 0) && (value in counts ==> counts[value] == n)
  {
    if findings != [] {
      var init, last := findings[..|findings| - 1], findings[|findings| - 1];
      CountsAreExact(attribute, init, value);
      assert findings == init + [last];
      FilterConcat((f: Finding) => attribute(f) == value, init, [last]);
      FilterOne((f: Finding) => attribute(f) == value, last);
    }
  }
}
