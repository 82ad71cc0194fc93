/** `recommend_products`: the products implied by the association rules whose antecedent
    names the queried product. */
module Recommender {
  import opened Tables
  import opened Text

  /** One row of the rules table. The confidence is kept only as the key the table is
      sorted by; support and lift play no part in a recommendation. */
  datatype Rule = Rule(antecedents: set<string>, consequents: set<string>, confidence: real)

  /** The default of `top_n`. */
  const DefaultTopN: int := 5

  /** `norm in [p.strip().lower() for p in antecedents]`. */
  predicate Mentions(rule: Rule, norm: string) {
    exists p :: p in rule.antecedents && Normalize(p) == norm
  }

  /** The mask over the rules table for one normalised query. */
  function MentionsMask(norm: string): Rule -> bool {
    (rule: Rule) => Mentions(rule, norm)
  }

  /** `rules_df[rules_df['antecedents'].apply(...)]`: the rules whose antecedent has a member
      equal to the query once both are stripped and lower-cased. */
  function SelectRules(product: string, rules: seq<Rule>): (r: seq<Rule>)
    ensures |r| <= |rules|
    ensures forall rule :: rule in r <==> rule in rules && Mentions(rule, Normalize(product))
  {
    Where(rules, MentionsMask(Normalize(product)))
  }

  /** Whitespace around the query does not change which rules are selected. */
  lemma SelectionIgnoresPadding(w1: string, product: string, w2: string, rules: seq<Rule>)
    requires AllSpace(w1) && AllSpace(w2)
    ensures SelectRules(w1 + product + w2, rules) == SelectRules(product, rules)
  {
    NormalizeIgnoresPadding(w1, product, w2);
  }

  /** The letter case of the query does not change which rules are selected. */
  lemma SelectionIgnoresCase(a: string, b: string, rules: seq<Rule>)
    requires Lower(a) == Lower(b)
    ensures SelectRules(a, rules) == SelectRules(b, rules)
  {
    NormalizeIgnoresCase(a, b);
  }

  /** When every antecedent is already in normal form, a rule mentions a query exactly when
      the query's normal form is one of its antecedents. */
  lemma MentionsNormalNames(rule: Rule, product: string)
    requires forall p :: p in rule.antecedents ==> Trimmed(p) && Lower(p) == p
    ensures Mentions(rule, Normalize(product)) <==> Normalize(product) in rule.antecedents
  {
    if Normalize(product) in rule.antecedents {
      NormalizeFixed(Normalize(product));
    }
    if Mentions(rule, Normalize(product)) {
      var p :| p in rule.antecedents && Normalize(p) == Normalize(product);
      NormalizeFixed(p);
    }
  }

  /** `[p.strip() for p in row['consequents']]` as a set. */
  function StrippedConsequents(rule: Rule): (r: set<string>)
    ensures forall x :: x in r ==> Trimmed(x)
    ensures forall p :: p in rule.consequents ==> Strip(p) in r
    ensures forall x :: x in r ==> exists p :: p in rule.consequents && Strip(p) == x
  {
    set p | p in rule.consequents :: Strip(p)
  }

  /** Every stripped consequent of every given rule. */
  function Collected(selected: seq<Rule>): (r: set<string>)
    ensures forall x :: x in r ==> Trimmed(x)
    ensures forall rule, p :: rule in selected && p in rule.consequents ==> Strip(p) in r
  {
    set rule, p | rule in selected && p in rule.consequents :: Strip(p)
  }

  /** Nothing else is collected: every name in the union comes from a consequent of one of
      the given rules. */
  lemma CollectedOrigin(selected: seq<Rule>, x: string)
    requires x in Collected(selected)
    ensures exists rule, p :: rule in selected && p in rule.consequents && Strip(p) == x
  {
  }

  /** What the recommender may return: the collected consequents less the query exactly as given. */
  function Candidates(product: string, rules: seq<Rule>): (r: set<string>)
    ensures product !in r
    ensures forall x :: x in Collected(SelectRules(product, rules)) && x != product ==> x in r
  {
    Collected(SelectRules(product, rules)) - {product}
  }

  lemma CollectedSnoc(selected: seq<Rule>, rule: Rule)
    ensures Collected(selected + [rule]) == Collected(selected) + StrippedConsequents(rule)
  {
    var all := selected + [rule];
    forall x | x in Collected(all)
      ensures x in Collected(selected) + StrippedConsequents(rule)
    {
      var r, p :| r in all && p in r.consequents && Strip(p) == x;
      if r != rule {
        assert r in selected;
      }
    }
    forall x | x in Collected(selected)
      ensures x in Collected(all)
    {
      var r, p :| r in selected && p in r.consequents && Strip(p) == x;
      assert r in all;
    }
    forall x | x in StrippedConsequents(rule)
      ensures x in Collected(all)
    {
      var p :| p in rule.consequents && Strip(p) == x;
      assert rule in all;
    }
  }

  /** Every candidate is the stripped form of a consequent of a selected rule, is itself
      stripped, and is not the query as given. */
  lemma CandidateOrigin(product: string, rules: seq<Rule>, x: string)
    requires x in Candidates(product, rules)
    ensures x != product && Strip(x) == x
    ensures exists rule, p :: rule in rules && Mentions(rule, Normalize(product))
                             && p in rule.consequents && Strip(p) == x
  {
    var rule, p :| rule in SelectRules(product, rules) && p in rule.consequents && Strip(p) == x;
    StripIdempotent(p);
  }

  /** A query with whitespace at either end is never among the collected products, so the
      removal of the query removes nothing. */
  lemma PaddedQueryNeverRemoved(product: string, rules: seq<Rule>)
    requires !Trimmed(product)
    ensures Candidates(product, rules) == Collected(SelectRules(product, rules))
  {
  }

  /** The stripped and normalised forms of the names used in the examples below. */
  lemma ExampleNames()
    ensures Strip(" mug") == "mug" && Strip("mug") == "mug"
    ensures Normalize("Mug") == "mug" && Normalize("mug") == "mug" && Normalize(" mug") == "mug"
  {
    assert SkipSpaceForward(" mug", 1) == 1;
    assert SkipSpaceBackward(" mug", 1, 4) == 4;
    assert " mug"[1..4] == "mug";
    StripTrimmed("mug");
    StripTrimmed("Mug");
    assert Lower("Mug") == "mug";
    assert Lower("mug") == "mug";
  }

  /** A one-rule table is selected by the queries its antecedent mentions. */
  lemma SingleRuleTable(rule: Rule, product: string)
    requires Mentions(rule, Normalize(product))
    ensures SelectRules(product, [rule]) == [rule]
  {
    assert [rule][1..] == [];
  }

  lemma CollectedOne(rule: Rule)
    ensures Collected([rule]) == StrippedConsequents(rule)
  {
    CollectedSnoc([], rule);
    assert [] + [rule] == [rule];
  }

  /** The one-rule table of the example below: both queries select its rule ... */
  lemma MugSelected(rules: seq<Rule>)
    requires rules == [Rule({"Mug"}, {"mug"}, 0.5)]
    ensures SelectRules("mug", rules) == rules && SelectRules(" mug", rules) == rules
  {
    ExampleNames();
    assert Mentions(rules[0], "mug");
    SingleRuleTable(rules[0], "mug");
    SingleRuleTable(rules[0], " mug");
  }

  /** ... which contributes the single product "mug". */
  lemma MugCollected(rules: seq<Rule>)
    requires rules == [Rule({"Mug"}, {"mug"}, 0.5)]
    ensures Collected(rules) == {"mug"}
  {
    var rule := rules[0];
    assert StrippedConsequents(rule) == {"mug"} by {
      StripTrimmed("mug");
    }
    CollectedOne(rule);
  }

  /** A concrete table on which a padded query and its trimmed form select the same rule but
      get different answers: only the exact query is removed, so " mug" is recommended "mug". */
  lemma QueryRemovalIsExact(rules: seq<Rule>)
    requires rules == [Rule({"Mug"}, {"mug"}, 0.5)]
    ensures SelectRules(" mug", rules) == SelectRules("mug", rules)
    ensures Candidates("mug", rules) == {}
    ensures Candidates(" mug", rules) == {"mug"}
  {
    MugSelected(rules);
    MugCollected(rules);
  }

  /** The rule table of the example below selects only A -> B for the query "A". */
  lemma SelectsOnlyAB(rules: seq<Rule>)
    requires rules == [Rule({"B"}, {"A"}, 1.0), Rule({"A"}, {"B"}, 2.0 / 3.0)]
    ensures SelectRules("A", rules) == [rules[1]]
  {
    var ba, ab := rules[0], rules[1];
    assert Normalize("A") == "a" && Normalize("B") == "b" by {
      StripTrimmed("A");
      StripTrimmed("B");
      assert Lower("A") == "a" && Lower("B") == "b";
    }
    assert !Mentions(ba, "a");
    assert Mentions(ab, "a");
    assert rules[1..][1..] == [];
  }

  /** ... and that rule contributes the single name "B". */
  lemma CollectsB(rule: Rule)
    requires rule == Rule({"A"}, {"B"}, 2.0 / 3.0)
    ensures Collected([rule]) == {"B"}
  {
    CollectedOne(rule);
    StripTrimmed("B");
    assert StrippedConsequents(rule) == {"B"};
  }

  /** Invoices {A, B}, {A, B}, {A} give the rules B -> A (confidence 1) and A -> B
      (confidence 2/3); recommending for "A" yields "B" alone. */
  lemma TwoProductScenario(rules: seq<Rule>)
    requires rules == [Rule({"B"}, {"A"}, 1.0), Rule({"A"}, {"B"}, 2.0 / 3.0)]
    ensures SelectRules("A", rules) == [rules[1]]
    ensures Candidates("A", rules) == {"B"}
  {
    SelectsOnlyAB(rules);
    CollectsB(rules[1]);
  }

  /** Python's `lst[:stop]`: how many elements are kept of a list of `n`. A negative stop
      counts from the end. */
  function SliceLength(n: nat, stop: int): (k: nat)
    ensures k <= n
    ensures 0 <= stop ==> k <= stop && (k == stop || k == n)
    ensures stop < 0 ==> k + -stop >= n && (k == 0 || k + -stop == n)
  {
    if stop >= 0 then (if stop < n then stop else n)
    else if n + stop > 0 then n + stop else 0
  }

  predicate NoDuplicates(s: seq<string>) {
    forall i, j :: 0 <= i < j < |s| ==> s[i] != s[j]
  }

  /** `list(s)`: the members of a set, each once, in an order the model leaves open. */
  method ListOf(s: set<string>) returns (r: seq<string>)
    ensures forall x :: x in r <==> x in s
    ensures NoDuplicates(r)
    ensures |r| == |s|
  {
    r := [];
    var rest := s;
    while rest != {}
      invariant rest <= s
      invariant forall x :: x in r <==> x in s && x !in rest
      invariant NoDuplicates(r)
      invariant |r| + |rest| == |s|
      decreases rest
    {
      var x :| x in rest;
      r := r + [x];
      rest := rest - {x};
    }
  }

  /** The loop over the selected rules: the union of their stripped consequents. */
  method CollectConsequents(selected: seq<Rule>) returns (recommendations: set<string>)
    ensures recommendations == Collected(selected)
  {
    recommendations := {};
    for i := 0 to |selected|
      invariant recommendations == Collected(selected[..i])
    {
      CollectedSnoc(selected[..i], selected[i]);
      assert selected[..i + 1] == selected[..i] + [selected[i]];
      recommendations := recommendations + StrippedConsequents(selected[i]);
    }
    assert selected[..|selected|] == selected;
  }

  /** `recommend_products(product, rules_df, top_n)`. */
  method Recommend(product: string, rules: seq<Rule>, topN: int) returns (result: seq<string>)
    ensures SelectRules(product, rules) == [] ==> result == []
    ensures forall x :: x in result ==> x in Candidates(product, rules)
    ensures product !in result
    ensures NoDuplicates(result)
    ensures |result| == SliceLength(|Candidates(product, rules)|, topN)
    ensures topN >= |Candidates(product, rules)| ==> forall x :: x in Candidates(product, rules) ==> x in result
  {
    var filtered := SelectRules(product, rules);
    if filtered == [] {
      return [];
    }
    var recommendations := CollectConsequents(filtered);
    recommendations := recommendations - {product};
    var listed := ListOf(recommendations);
    result := listed[..SliceLength(|listed|, topN)];
  }

  /** `recommend_products(product, rules_df)` with the default `top_n`. */
  method RecommendDefault(product: string, rules: seq<Rule>) returns (result: seq<string>)
    ensures forall x :: x in result ==> x in Candidates(product, rules)
    ensures product !in result
    ensures NoDuplicates(result)
    ensures |result| == SliceLength(|Candidates(product, rules)|, DefaultTopN)
    ensures |result| <= DefaultTopN
    ensures |Candidates(product, rules)| <= DefaultTopN ==> forall x :: x in Candidates(product, rules) ==> x in result
  {
    result := Recommend(product, rules, DefaultTopN);
  }
}
