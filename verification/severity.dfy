/** The severity resolver (`formatRules`): for every rule a category lists, the
    value the generated config gives that rule. */
module Severity {
  import opened Wrappers
  import opened Entries

  datatype Level = Error | Warn

  /** A rule's configured value: the bare level, or the array
      `[level, ...options]` once default options apply. Option values are
      opaque to the generator, hence the type parameter. */
  datatype Setting<O> = Bare(level: Level) | Tuple(level: Level, options: seq<O>)

  /** A rule as the category catalog hands it over. `defaultOptions` is
      `meta.docs.defaultOptions`, keyed `"vue2"` / `"vue3"`; a missing `meta`,
      `docs` or `defaultOptions` are all `None`. */
  datatype Rule<O> = Rule(ruleId: string, defaultOptions: Option<map<string, seq<O>>>)

  /** The error tier: categories whose rules are reported as errors. */
  const ErrorCategories: set<string> := {"base", "essential", "vue3-essential"}

  function BaseLevel(categoryId: string): Level
  {
    if categoryId in ErrorCategories then Error else Warn
  }

  /** `categoryId.startsWith('vue3')`. */
  predicate TargetsVue3(categoryId: string)
  {
    "vue3" <= categoryId
  }

  /** The option-set key a category selects: `vue${v}` with v = 3 or 2. */
  function OptionsKey(categoryId: string): string
  {
    if TargetsVue3(categoryId) then "vue3" else "vue2"
  }

  /** The value one rule gets in one category. */
  function ResolveSetting<O>(rule: Rule<O>, categoryId: string): (s: Setting<O>)
    ensures s.level == Error <==>
              categoryId == "base" || categoryId == "essential" || categoryId == "vue3-essential"
    ensures s.Tuple? <==>
              rule.defaultOptions.Some? && OptionsKey(categoryId) in rule.defaultOptions.value
    ensures s.Tuple? && |categoryId| >= 4 && categoryId[..4] == "vue3" ==>
              s.options == rule.defaultOptions.value["vue3"]
    ensures s.Tuple? && !(|categoryId| >= 4 && categoryId[..4] == "vue3") ==>
              s.options == rule.defaultOptions.value["vue2"]
  {
    var level := BaseLevel(categoryId);
    match rule.defaultOptions
    case None => Bare(level)
    case Some(byVersion) =>
      var key := OptionsKey(categoryId);
      if key in byVersion then Tuple(level, byVersion[key]) else Bare(level)
  }

  function RuleIds<O>(rules: seq<Rule<O>>): (ids: seq<string>)
    ensures |ids| == |rules| && forall i {:trigger ids[i]} :: 0 <= i < |rules| ==> ids[i] == rules[i].ruleId
  {
    seq(|rules|, i requires 0 <= i < |rules| => rules[i].ruleId)
  }

  predicate DistinctRuleIds<O>(rules: seq<Rule<O>>)
  {
    Distinct(RuleIds(rules))
  }

  /** `formatRules(rules, categoryId)` before JSON rendering: the ordered rule
      map of one category. It holds the category's own rules and no others;
      rules it inherits are not repeated. */
  function FormatRules<O>(rules: seq<Rule<O>>, categoryId: string): (r: Entries<Setting<O>>)
    ensures DistinctKeys(r)
    ensures Keys(r) == FirstOccurrences(RuleIds(rules))
    ensures forall k :: Get(r, k).Some? <==> k in RuleIds(rules)
    ensures forall k :: Get(r, k).Some? ==> (Get(r, k).value.level == Error <==> categoryId in ErrorCategories)
    ensures forall i {:trigger Get(r, rules[i].ruleId)} :: 0 <= i < |rules| && (forall j :: i < j < |rules| ==> rules[j].ruleId != rules[i].ruleId) ==>
              Get(r, rules[i].ruleId) == Some(ResolveSetting(rules[i], categoryId))
    ensures DistinctRuleIds(rules) ==>
              |r| == |rules| &&
              forall i :: 0 <= i < |rules| ==> r[i] == (rules[i].ruleId, ResolveSetting(rules[i], categoryId))
  {
    ResolvedKeys(rules, categoryId);
    ResolvedLastWins(rules, categoryId);
    ResolvedLevels(rules, categoryId);
    ResolvedInOrder(rules, categoryId);
    FromEntries(Resolved(rules, categoryId))
  }

  /** The `[ruleId, value]` pairs `formatRules` hands to `Object.fromEntries`. */
  function Resolved<O>(rules: seq<Rule<O>>, categoryId: string): Entries<Setting<O>>
  {
    seq(|rules|, i requires 0 <= i < |rules| => (rules[i].ruleId, ResolveSetting(rules[i], categoryId)))
  }

  lemma ResolvedKeys<O>(rules: seq<Rule<O>>, categoryId: string)
    ensures Keys(Resolved(rules, categoryId)) == RuleIds(rules)
  {
  }

  lemma ResolvedLastWins<O>(rules: seq<Rule<O>>, categoryId: string)
    ensures forall i {:trigger Get(FromEntries(Resolved(rules, categoryId)), rules[i].ruleId)} ::
              0 <= i < |rules| && (forall j :: i < j < |rules| ==> rules[j].ruleId != rules[i].ruleId) ==>
              Get(FromEntries(Resolved(rules, categoryId)), rules[i].ruleId) == Some(ResolveSetting(rules[i], categoryId))
  {
    var es := Resolved(rules, categoryId);
    forall i | 0 <= i < |rules| && (forall j :: i < j < |rules| ==> rules[j].ruleId != rules[i].ruleId)
      ensures Get(FromEntries(es), rules[i].ruleId) == Some(ResolveSetting(rules[i], categoryId))
    {
      LastValueAt(es, i);
    }
  }

  lemma ResolvedLevels<O>(rules: seq<Rule<O>>, categoryId: string)
    ensures forall k :: Get(FromEntries(Resolved(rules, categoryId)), k).Some? <==> k in RuleIds(rules)
    ensures forall k :: Get(FromEntries(Resolved(rules, categoryId)), k).Some? ==>
              (Get(FromEntries(Resolved(rules, categoryId)), k).value.level == Error <==> categoryId in ErrorCategories)
  {
    var es := Resolved(rules, categoryId);
    ResolvedKeys(rules, categoryId);
    forall k
      ensures Get(FromEntries(es), k).Some? <==> k in RuleIds(rules)
      ensures Get(FromEntries(es), k).Some? ==> (Get(FromEntries(es), k).value.level == Error <==> categoryId in ErrorCategories)
    {
      LastValueFound(es, k);
    }
  }

  lemma ResolvedInOrder<O>(rules: seq<Rule<O>>, categoryId: string)
    ensures DistinctRuleIds(rules) ==> FromEntries(Resolved(rules, categoryId)) == Resolved(rules, categoryId)
  {
    if DistinctRuleIds(rules) {
      ResolvedKeys(rules, categoryId);
      FromEntriesOfDistinct(Resolved(rules, categoryId));
    }
  }

  /** The level depends on the category alone: a category whose parent is in
      the error tier but which is not itself in it reports warnings. */
  lemma LevelIgnoresParentTier<O>(rule: Rule<O>)
    ensures ResolveSetting(rule, "vue3-strongly-recommended").level == Warn
    ensures ResolveSetting(rule, "vue3-essential").level == Error
    ensures ResolveSetting(rule, "strongly-recommended").level == Warn
    ensures ResolveSetting(rule, "essential").level == Error
  {
  }
}
