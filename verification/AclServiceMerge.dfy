/**
  The merge of service rules works on shared objects: the first rule found for a
  name becomes the merged rule and is upgraded in place, so the inputs change.
 */
module AclServiceMerge {
  import opened Basics
  import opened AclPolicy
  import opened AclMergeLaws

  class ServiceRuleObject {
    const name: string
    var policy: Perm
    var intentions: Perm

    constructor (name: string, policy: Perm, intentions: Perm)
      ensures this.name == name && this.policy == policy && this.intentions == intentions
    {
      this.name := name;
      this.policy := policy;
      this.intentions := intentions;
    }
  }

  /** What the objects say at this moment. */
  function Values(rules: seq<ServiceRuleObject>): (vs: seq<ServiceRule>)
    reads rules
    ensures |vs| == |rules|
    ensures forall i :: 0 <= i < |rules| ==> vs[i] == ServiceRule(rules[i].name, rules[i].policy, rules[i].intentions)
  {
    seq(|rules|, i reads rules requires 0 <= i < |rules| =>
          ServiceRule(rules[i].name, rules[i].policy, rules[i].intentions))
  }

  /** No earlier rule has the name of rule `i`, so the merge uses it as its result. */
  predicate IsFirst(rules: seq<ServiceRuleObject>, i: nat)
    requires i < |rules|
  {
    forall j :: 0 <= j < i ==> rules[j].name != rules[i].name
  }

  /** The merge of what the first `n` rules said on entry about policies, or about intentions. */
  function PoliciesSoFar(before: seq<ServiceRule>, n: nat): map<string, Perm>
    requires n <= |before|
  {
    MergeInto(map[], PolicyRules(before[..n]))
  }

  function IntentionsSoFar(before: seq<ServiceRule>, n: nat): map<string, Perm>
    requires n <= |before|
  {
    MergeInto(map[], IntentionRules(before[..n]))
  }

  lemma OneMore(before: seq<ServiceRule>, n: nat)
    requires n < |before|
    ensures PoliciesSoFar(before, n + 1) == AddRule(PoliciesSoFar(before, n), Rule(before[n].name, before[n].policy))
    ensures IntentionsSoFar(before, n + 1)
         == AddRule(IntentionsSoFar(before, n), Rule(before[n].name, before[n].intentions))
  {
    var r := before[n];
    assert before[..n + 1] == before[..n] + [r];
    assert PolicyRules(before[..n + 1]) == PolicyRules(before[..n]) + [Rule(r.name, r.policy)];
    assert IntentionRules(before[..n + 1]) == IntentionRules(before[..n]) + [Rule(r.name, r.intentions)];
    MergeIntoAppend(map[], PolicyRules(before[..n]), [Rule(r.name, r.policy)]);
    MergeIntoAppend(map[], IntentionRules(before[..n]), [Rule(r.name, r.intentions)]);
  }

  /** A permission that is already listed adds nothing. */
  lemma RepeatAbsorbed(rules: seq<Rule>, i: nat)
    requires i < |rules|
    ensures AddRule(MergeInto(map[], rules), rules[i]) == MergeInto(map[], rules)
  {
    var x := rules[i].segment;
    MergeRulesIsCombined(rules, x);
    assert rules[i].perm in PermsAt(rules, x);
    HigherAbsorbs(PermsAt(rules, x), rules[i].perm);
    var m := MergeInto(map[], rules);
    assert m[x := m[x]] == m;
  }

  lemma HigherAbsorbs(ps: set<Perm>, p: Perm)
    requires p in ps
    ensures Higher(p, Strongest(ps)) == Strongest(ps)
  {
  }

  ghost predicate FirstOf(rules: seq<ServiceRuleObject>, n: nat, x: string, r: ServiceRuleObject)
    requires n <= |rules|
  {
    r.name == x && exists i :: 0 <= i < n && rules[i] == r && IsFirst(rules, i)
  }

  /** Each name met so far is represented by the first rule that has it. */
  ghost predicate Represents(rules: seq<ServiceRuleObject>, n: nat, m: map<string, ServiceRuleObject>)
    requires n <= |rules|
  {
    && (forall x :: x in m ==> FirstOf(rules, n, x, m[x]))
    && (forall i :: 0 <= i < n ==> rules[i].name in m)
  }

  lemma RepresentsMore(rules: seq<ServiceRuleObject>, n: nat, m: map<string, ServiceRuleObject>)
    requires n < |rules| && Represents(rules, n, m)
    ensures Represents(rules, n + 1, if rules[n].name in m then m else m[rules[n].name := rules[n]])
  {
  }

  /** The recorded values have the names of their objects, and an object listed twice has one value. */
  ghost predicate Coherent(rules: seq<ServiceRuleObject>, before: seq<ServiceRule>) {
    && |before| == |rules|
    && (forall i :: 0 <= i < |rules| ==> before[i].name == rules[i].name)
    && (forall i, j :: 0 <= i < j < |rules| && rules[i] == rules[j] ==> before[i] == before[j])
  }

  lemma SameObjectSeenAgain(rules: seq<ServiceRuleObject>, n: nat, m: map<string, ServiceRuleObject>,
                            before: seq<ServiceRule>)
    requires n < |rules| && Represents(rules, n, m) && IsRepresentative(m, rules[n])
    requires Coherent(rules, before)
    ensures PoliciesSoFar(before, n + 1) == PoliciesSoFar(before, n)
    ensures IntentionsSoFar(before, n + 1) == IntentionsSoFar(before, n)
  {
    assert FirstOf(rules, n, rules[n].name, rules[n]);
    var i :| 0 <= i < n && rules[i] == rules[n] && IsFirst(rules, i);
    assert before[..n][i] == before[n];
    OneMore(before, n);
    RepeatAbsorbed(PolicyRules(before[..n]), i);
    RepeatAbsorbed(IntentionRules(before[..n]), i);
  }

  predicate IsRepresentative(m: map<string, ServiceRuleObject>, r: ServiceRuleObject) {
    r.name in m && m[r.name] == r
  }

  /** The merged objects say what the two maps say. */
  ghost predicate Says(m: map<string, ServiceRuleObject>, policies: map<string, Perm>, intentions: map<string, Perm>)
    reads m.Values
  {
    && m.Keys == policies.Keys == intentions.Keys
    && forall x :: x in m ==> m[x].name == x && m[x].policy == policies[x] && m[x].intentions == intentions[x]
  }

  /** The rules that represent no name still say what they said on entry. */
  ghost predicate Untouched(rules: seq<ServiceRuleObject>, before: seq<ServiceRule>, m: map<string, ServiceRuleObject>)
    requires |before| == |rules|
    reads rules
  {
    forall i :: 0 <= i < |rules| && !IsRepresentative(m, rules[i]) ==>
      rules[i].policy == before[i].policy && rules[i].intentions == before[i].intentions
  }

  /** One turn of the merge loop, for a rule that said `was` on entry. */
  method AddObject(m: map<string, ServiceRuleObject>, sp: ServiceRuleObject, ghost was: ServiceRule,
                   ghost policies: map<string, Perm>, ghost intentions: map<string, Perm>,
                   ghost rules: seq<ServiceRuleObject>, ghost before: seq<ServiceRule>)
    returns (m': map<string, ServiceRuleObject>)
    requires Says(m, policies, intentions) && was.name == sp.name
    requires |before| == |rules| && Untouched(rules, before, m)
    requires IsRepresentative(m, sp) ==>
               AddRule(policies, Rule(was.name, was.policy)) == policies
               && AddRule(intentions, Rule(was.name, was.intentions)) == intentions
    requires !IsRepresentative(m, sp) ==> sp.policy == was.policy && sp.intentions == was.intentions
    modifies if sp.name in m then {m[sp.name]} else {}
    ensures m' == if sp.name in m then m else m[sp.name := sp]
    ensures Untouched(rules, before, m')
    ensures Says(m', AddRule(policies, Rule(was.name, was.policy)), AddRule(intentions, Rule(was.name, was.intentions)))
  {
    m' := m;
    if sp.name !in m {
      m' := m[sp.name := sp];
      return;
    }
    var existing := m[sp.name];
    if TakesPrecedenceOver(sp.policy, existing.policy) {
      existing.policy := sp.policy;
    }
    if TakesPrecedenceOver(sp.intentions, existing.intentions) {
      existing.intentions := sp.intentions;
    }
  }

  lemma TurnReady(rules: seq<ServiceRuleObject>, n: nat, m: map<string, ServiceRuleObject>, before: seq<ServiceRule>)
    requires n < |rules| && Represents(rules, n, m)
    requires Coherent(rules, before)
    ensures Represents(rules, n + 1, if rules[n].name in m then m else m[rules[n].name := rules[n]])
    ensures PoliciesSoFar(before, n + 1) == AddRule(PoliciesSoFar(before, n), Rule(before[n].name, before[n].policy))
    ensures IntentionsSoFar(before, n + 1)
         == AddRule(IntentionsSoFar(before, n), Rule(before[n].name, before[n].intentions))
    ensures before[n].name == rules[n].name && (rules[n].name in m ==> m[rules[n].name] in rules)
    ensures IsRepresentative(m, rules[n]) ==>
              && PoliciesSoFar(before, n + 1) == PoliciesSoFar(before, n)
              && IntentionsSoFar(before, n + 1) == IntentionsSoFar(before, n)
  {
    RepresentsMore(rules, n, m);
    OneMore(before, n);
    if rules[n].name in m {
      assert FirstOf(rules, n, rules[n].name, m[rules[n].name]);
    }
    if IsRepresentative(m, rules[n]) {
      SameObjectSeenAgain(rules, n, m, before);
    }
  }

  lemma ValuesCoherent(rules: seq<ServiceRuleObject>)
    ensures Coherent(rules, Values(rules)) && Untouched(rules, Values(rules), map[])
  {
  }

  method MergeTurn(rules: seq<ServiceRuleObject>, n: nat, m: map<string, ServiceRuleObject>,
                   ghost before: seq<ServiceRule>)
    returns (m': map<string, ServiceRuleObject>)
    requires n < |rules| && Coherent(rules, before) && Represents(rules, n, m)
    requires Says(m, PoliciesSoFar(before, n), IntentionsSoFar(before, n)) && Untouched(rules, before, m)
    modifies rules
    ensures Represents(rules, n + 1, m')
    ensures Says(m', PoliciesSoFar(before, n + 1), IntentionsSoFar(before, n + 1)) && Untouched(rules, before, m')
  {
    TurnReady(rules, n, m, before);
    m' := AddObject(m, rules[n], before[n], PoliciesSoFar(before, n), IntentionsSoFar(before, n), rules, before);
  }

  /** The merge loop; its result is what the fold of the entry values says. */
  method MergeLoop(rules: seq<ServiceRuleObject>, ghost before: seq<ServiceRule>)
    returns (m: map<string, ServiceRuleObject>)
    requires Coherent(rules, before) && Untouched(rules, before, map[])
    modifies rules
    ensures Represents(rules, |rules|, m)
    ensures Says(m, PoliciesSoFar(before, |rules|), IntentionsSoFar(before, |rules|)) && Untouched(rules, before, m)
  {
    m := map[];
    for n := 0 to |rules|
      invariant Represents(rules, n, m)
      invariant Says(m, PoliciesSoFar(before, n), IntentionsSoFar(before, n)) && Untouched(rules, before, m)
    {
      m := MergeTurn(rules, n, m, before);
    }
  }

  lemma FoldIsCombined(before: seq<ServiceRule>, x: string)
    ensures Get(PoliciesSoFar(before, |before|), x) == Combined(PolicyRules(before), x)
    ensures Get(IntentionsSoFar(before, |before|), x) == Combined(IntentionRules(before), x)
  {
    assert before[..|before|] == before;
    MergeRulesIsCombined(PolicyRules(before), x);
    MergeRulesIsCombined(IntentionRules(before), x);
  }

  /** The rule has the strongest policy and the strongest intentions that any had for its name. */
  ghost predicate IsStrongest(r: ServiceRule, before: seq<ServiceRule>) {
    && Some(r.policy) == Combined(PolicyRules(before), r.name)
    && Some(r.intentions) == Combined(IntentionRules(before), r.name)
  }

  /** The first rule of every name already is the strongest for it. */
  ghost predicate FirstIsStrongest(rules: seq<ServiceRuleObject>, before: seq<ServiceRule>)
    requires |before| == |rules|
  {
    forall i :: 0 <= i < |rules| && IsFirst(rules, i) ==> IsStrongest(before[i], before)
  }

  /** The first rule of a name represents it. */
  lemma FirstRepresents(rules: seq<ServiceRuleObject>, m: map<string, ServiceRuleObject>, i: nat)
    requires Represents(rules, |rules|, m) && i < |rules| && IsFirst(rules, i)
    ensures IsRepresentative(m, rules[i])
  {
    assert FirstOf(rules, |rules|, rules[i].name, m[rules[i].name]);
    var k :| 0 <= k < |rules| && rules[k] == m[rules[i].name] && IsFirst(rules, k);
    assert k == i;
  }

  /** A rule of the result says the strongest, and any other what it said on entry. */
  lemma AfterMerge(rules: seq<ServiceRuleObject>, before: seq<ServiceRule>, m: map<string, ServiceRuleObject>, i: nat)
    requires Coherent(rules, before) && Untouched(rules, before, m) && i < |rules|
    requires Says(m, PoliciesSoFar(before, |rules|), IntentionsSoFar(before, |rules|))
    ensures if IsRepresentative(m, rules[i]) then IsStrongest(Values(rules)[i], before)
            else Values(rules)[i] == before[i]
  {
    FoldIsCombined(before, before[i].name);
  }

  /** Two values that are both strongest for one name are equal. */
  lemma StrongestIsUnique(r: ServiceRule, q: ServiceRule, before: seq<ServiceRule>)
    requires IsStrongest(r, before) && IsStrongest(q, before) && r.name == q.name
    ensures r == q
  {
  }

  /** What the rules say after the merge: the strongest, or what they said on entry. */
  ghost predicate Outcome(rules: seq<ServiceRuleObject>, before: seq<ServiceRule>, m: map<string, ServiceRuleObject>,
                          after: seq<ServiceRule>)
    requires |before| == |rules|
  {
    && |after| == |rules|
    && forall i :: 0 <= i < |rules| ==>
         && after[i].name == before[i].name
         && if IsRepresentative(m, rules[i]) then IsStrongest(after[i], before) else after[i] == before[i]
  }

  lemma StrongestStays(rules: seq<ServiceRuleObject>, before: seq<ServiceRule>, m: map<string, ServiceRuleObject>,
                       after: seq<ServiceRule>, i: nat)
    requires Coherent(rules, before) && Represents(rules, |rules|, m) && Outcome(rules, before, m, after)
    requires FirstIsStrongest(rules, before) && i < |rules|
    ensures after[i] == before[i]
  {
    if IsRepresentative(m, rules[i]) {
      assert FirstOf(rules, |rules|, rules[i].name, rules[i]);
      var k :| 0 <= k < |rules| && rules[k] == rules[i] && IsFirst(rules, k);
      assert before[k] == before[i];
      StrongestIsUnique(after[i], before[i], before);
    }
  }

  /** The merge leaves its inputs alone if and only if the first rule of each name is already the result. */
  lemma UnchangedIff(rules: seq<ServiceRuleObject>, before: seq<ServiceRule>, m: map<string, ServiceRuleObject>,
                     after: seq<ServiceRule>)
    requires Coherent(rules, before) && Represents(rules, |rules|, m) && Outcome(rules, before, m, after)
    ensures after == before <==> FirstIsStrongest(rules, before)
  {
    if after == before {
      forall i | 0 <= i < |rules| && IsFirst(rules, i) ensures IsStrongest(before[i], before) {
        FirstRepresents(rules, m, i);
      }
    }
    if FirstIsStrongest(rules, before) {
      forall i | 0 <= i < |rules| ensures after[i] == before[i] {
        StrongestStays(rules, before, m, after, i);
      }
    }
  }

  /**
    The result holds, for every name, the strongest policy and, apart from it, the
    strongest intentions permission that the rules had on entry. The first rule of
    each name is that result, so it is overwritten; all others keep their values.
   */
  method MergeServiceObjects(rules: seq<ServiceRuleObject>) returns (m: map<string, ServiceRuleObject>)
    modifies rules
    ensures Represents(rules, |rules|, m)
    ensures forall x :: x in m ==>
              && Some(m[x].policy) == Combined(PolicyRules(old(Values(rules))), x)
              && Some(m[x].intentions) == Combined(IntentionRules(old(Values(rules))), x)
    ensures forall r :: r in rules && !IsRepresentative(m, r) ==>
              r.policy == old(r.policy) && r.intentions == old(r.intentions)
    ensures Values(rules) == old(Values(rules)) <==> FirstIsStrongest(rules, old(Values(rules)))
  {
    ghost var before := Values(rules);
    ValuesCoherent(rules);
    m := MergeLoop(rules, before);
    forall i | 0 <= i < |rules|
      ensures Values(rules)[i].name == before[i].name
      ensures if IsRepresentative(m, rules[i]) then IsStrongest(Values(rules)[i], before)
              else Values(rules)[i] == before[i]
    {
      AfterMerge(rules, before, m, i);
    }
    UnchangedIff(rules, before, m, Values(rules));
    forall x | x in m
      ensures Some(m[x].policy) == Combined(PolicyRules(before), x)
      ensures Some(m[x].intentions) == Combined(IntentionRules(before), x)
    {
      FoldIsCombined(before, x);
    }
  }

  // ---- the loop over all policies ----

  /** The service rules of all policies, in order; exact ones or prefixes. */
  function AllServices(ps: seq<Policy>, exact: bool): seq<ServiceRule> {
    if ps == [] then []
    else (if exact then ps[0].services else ps[0].servicePrefixes) + AllServices(ps[1..], exact)
  }

  lemma RulesAppend(a: seq<ServiceRule>, b: seq<ServiceRule>)
    ensures PolicyRules(a + b) == PolicyRules(a) + PolicyRules(b)
    ensures IntentionRules(a + b) == IntentionRules(a) + IntentionRules(b)
  {
  }

  lemma {:induction false} AllServicesRules(ps: seq<Policy>, exact: bool)
    ensures PolicyRules(AllServices(ps, exact)) == AllRules(ps, ServicePolicy(exact))
    ensures IntentionRules(AllServices(ps, exact)) == AllRules(ps, ServiceIntentions(exact))
    decreases |ps|
  {
    if ps != [] {
      AllServicesRules(ps[1..], exact);
      RulesAppend(if exact then ps[0].services else ps[0].servicePrefixes, AllServices(ps[1..], exact));
    }
  }

  lemma FoldIsMerge(ps: seq<Policy>, exact: bool)
    ensures var all := AllServices(ps, exact);
            && PoliciesSoFar(all, |all|) == MapOf(Merge(ps), ServicePolicy(exact))
            && IntentionsSoFar(all, |all|) == MapOf(Merge(ps), ServiceIntentions(exact))
  {
    var all := AllServices(ps, exact);
    assert all[..|all|] == all;
    AllServicesRules(ps, exact);
    MergeFromField(NOTHING, ps, ServicePolicy(exact));
    MergeFromField(NOTHING, ps, ServiceIntentions(exact));
    NothingIsEmpty(ServicePolicy(exact));
    NothingIsEmpty(ServiceIntentions(exact));
  }

  /** One pass over the shared rules of all policies leaves objects that say what the merge of the policies says. */
  method MergeServicesOf(ghost ps: seq<Policy>, ghost exact: bool, rules: seq<ServiceRuleObject>)
    returns (m: map<string, ServiceRuleObject>)
    requires Values(rules) == AllServices(ps, exact)
    modifies rules
    ensures Represents(rules, |rules|, m)
    ensures Says(m, MapOf(Merge(ps), ServicePolicy(exact)), MapOf(Merge(ps), ServiceIntentions(exact)))
  {
    ghost var before := Values(rules);
    ValuesCoherent(rules);
    m := MergeLoop(rules, before);
    FoldIsMerge(ps, exact);
  }

  lemma StrongerWins(w: ServiceRule, s: ServiceRule)
    requires w.name == s.name && w.policy == Read && s.policy == Write
    ensures Combined(PolicyRules([w, s]), w.name) == Some(Write)
  {
    var rules := PolicyRules([w, s]);
    assert rules[0] == Rule(w.name, Read) && rules[1] == Rule(w.name, Write);
    assert PermsAt(rules, w.name) == {Read, Write};
  }

  /** What a rule says after it was merged with a stronger one of the same name. */
  method MergeWithStronger(weak: ServiceRuleObject, strong: ServiceRuleObject)
    requires weak != strong && weak.name == strong.name && weak.policy == Read && strong.policy == Write
    modifies weak, strong
    ensures weak.policy == Write
  {
    ghost var w := ServiceRule(weak.name, Read, weak.intentions);
    ghost var s := ServiceRule(strong.name, Write, strong.intentions);
    StrongerWins(w, s);
    assert Values([weak, strong]) == [w, s];
    var m := MergeServiceObjects([weak, strong]);
    FirstRepresents([weak, strong], m, 0);
  }

  lemma CombinedOfOne(r: ServiceRule)
    ensures Combined(PolicyRules([r]), r.name) == Some(r.policy)
  {
    assert PolicyRules([r])[0] == Rule(r.name, r.policy);
    assert PermsAt(PolicyRules([r]), r.name) == {r.policy};
    LevelOfOne(Some(r.policy));
  }

  /** A rule merged by itself yields its own policy. */
  method MergeAlone(rule: ServiceRuleObject) returns (m: map<string, ServiceRuleObject>)
    modifies rule
    ensures rule.name in m && m[rule.name].policy == old(rule.policy)
  {
    CombinedOfOne(ServiceRule(rule.name, rule.policy, rule.intentions));
    assert Values([rule]) == [ServiceRule(rule.name, rule.policy, rule.intentions)];
    m := MergeServiceObjects([rule]);
    FirstRepresents([rule], m, 0);
  }

  /**
    Merging is not free of side effects: a rule that was merged with a stronger one
    keeps the stronger permission, and merged later by itself it grants it alone.
   */
  method MergedRuleKeepsGrant(weak: ServiceRuleObject, strong: ServiceRuleObject)
    returns (again: map<string, ServiceRuleObject>)
    requires weak != strong && weak.name == strong.name && weak.policy == Read && strong.policy == Write
    modifies weak, strong
    ensures weak.name in again && again[weak.name].policy == Write
    ensures Combined(PolicyRules(old(Values([weak]))), weak.name) == Some(Read)
  {
    CombinedOfOne(ServiceRule(weak.name, Read, weak.intentions));
    assert Values([weak]) == [ServiceRule(weak.name, Read, weak.intentions)];
    MergeWithStronger(weak, strong);
    again := MergeAlone(weak);
  }
}
