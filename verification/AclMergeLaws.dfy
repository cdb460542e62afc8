/**
  The merge computes, for every segment, the strongest of all input permissions;
  so it does not depend on order or repetition, and merging can be nested.
 */
module AclMergeLaws {
  import opened Basics
  import opened AclPolicy

  function AsSet(p: Option<Perm>): set<Perm> {
    match p case None => {} case Some(x) => {x}
  }

  /** The strongest of two groups can be found group by group. */
  lemma LevelJoin(a: set<Perm>, b: set<Perm>)
    ensures Level(a + b) == Level(AsSet(Level(a)) + b)
  {
  }

  lemma LevelOfOne(p: Option<Perm>)
    ensures Level(AsSet(p)) == p
  {
    match p
    case None =>
    case Some(x) => assert x == Deny || x == Write || x == List || x == Read || x == Unset;
  }

  lemma LevelJoinBoth(a: set<Perm>, b: set<Perm>)
    ensures Level(AsSet(Level(a)) + AsSet(Level(b))) == Level(a + b)
  {
  }

  lemma PermsAtAppend(a: seq<Rule>, b: seq<Rule>, segment: string)
    ensures PermsAt(a + b, segment) == PermsAt(a, segment) + PermsAt(b, segment)
  {
    forall p | p in PermsAt(b, segment) ensures p in PermsAt(a + b, segment) {
      var i :| 0 <= i < |b| && b[i].segment == segment && b[i].perm == p;
      assert (a + b)[|a| + i] == b[i];
    }
    forall p | p in PermsAt(a, segment) ensures p in PermsAt(a + b, segment) {
      var i :| 0 <= i < |a| && a[i].segment == segment && a[i].perm == p;
      assert (a + b)[i] == a[i];
    }
  }

  /** The map so far together with the rules still to come. */
  function Joined(m: map<string, Perm>, rules: seq<Rule>, segment: string): set<Perm> {
    AsSet(Get(m, segment)) + PermsAt(rules, segment)
  }

  lemma AddRuleJoins(m: map<string, Perm>, r: Rule, segment: string)
    ensures Get(AddRule(m, r), segment) == Level(Joined(m, [r], segment))
  {
    if segment == r.segment {
      assert [r][0] == r;
      assert PermsAt([r], segment) == {r.perm};
      LevelOfOne(Some(r.perm));
      if segment in m {
        HigherIsStrongest(r.perm, m[segment]);
        assert Joined(m, [r], segment) == {m[segment], r.perm};
      }
    } else {
      assert PermsAt([r], segment) == {};
      assert Joined(m, [r], segment) == AsSet(Get(m, segment));
      LevelOfOne(Get(m, segment));
    }
  }

  lemma {:induction false} MergeIntoIsStrongest(m: map<string, Perm>, rules: seq<Rule>, segment: string)
    ensures Get(MergeInto(m, rules), segment) == Level(Joined(m, rules, segment))
    decreases |rules|
  {
    if rules == [] {
      assert Joined(m, rules, segment) == AsSet(Get(m, segment));
      LevelOfOne(Get(m, segment));
    } else {
      var r, rest := rules[0], rules[1..];
      MergeIntoIsStrongest(AddRule(m, r), rest, segment);
      AddRuleJoins(m, r, segment);
      LevelJoin(Joined(m, [r], segment), PermsAt(rest, segment));
      PermsAtAppend([r], rest, segment);
      assert [r] + rest == rules;
      assert Joined(m, rules, segment) == Joined(m, [r], segment) + PermsAt(rest, segment);
    }
  }

  /** Merging a list of rules gives every segment the strongest permission listed for it. */
  lemma MergeRulesIsCombined(rules: seq<Rule>, segment: string)
    ensures Get(MergeInto(map[], rules), segment) == Combined(rules, segment)
  {
    MergeIntoIsStrongest(map[], rules, segment);
    assert Joined(map[], rules, segment) == PermsAt(rules, segment);
  }

  // ---- one view of all the rule lists of a policy ----

  datatype Field = Plain(exact: bool, kind: Kind) | ServicePolicy(exact: bool) | ServiceIntentions(exact: bool)

  datatype Global = Acl | Keyring | Operator

  function RulesOf(p: Policy, f: Field): seq<Rule> {
    match f
    case Plain(exact, k) => if exact then p.exact.Of(k) else p.prefix.Of(k)
    case ServicePolicy(exact) => PolicyRules(if exact then p.services else p.servicePrefixes)
    case ServiceIntentions(exact) => IntentionRules(if exact then p.services else p.servicePrefixes)
  }

  function MapOf(m: Merged, f: Field): map<string, Perm> {
    match f
    case Plain(exact, k) => if exact then m.exact.Of(k) else m.prefix.Of(k)
    case ServicePolicy(exact) => (if exact then m.services else m.servicePrefixes).policy
    case ServiceIntentions(exact) => (if exact then m.services else m.servicePrefixes).intentions
  }

  function GlobalOf(p: Policy, g: Global): Perm {
    match g case Acl => p.acl case Keyring => p.keyring case Operator => p.operator
  }

  function MergedGlobal(m: Merged, g: Global): Perm {
    match g case Acl => m.acl case Keyring => m.keyring case Operator => m.operator
  }

  /** Every rule of one kind in all the policies, unmerged, in order. */
  function AllRules(ps: seq<Policy>, f: Field): seq<Rule> {
    if ps == [] then [] else RulesOf(ps[0], f) + AllRules(ps[1..], f)
  }

  function AllGlobals(ps: seq<Policy>, g: Global): set<Perm> {
    set p | p in ps :: GlobalOf(p, g)
  }

  lemma MergedExtensional(a: Merged, b: Merged)
    requires forall f :: MapOf(a, f) == MapOf(b, f)
    requires forall g :: MergedGlobal(a, g) == MergedGlobal(b, g)
    ensures a == b
  {
    forall k: Kind ensures a.exact.Of(k) == b.exact.Of(k) && a.prefix.Of(k) == b.prefix.Of(k) {
      assert MapOf(a, Plain(true, k)) == MapOf(b, Plain(true, k));
      assert MapOf(a, Plain(false, k)) == MapOf(b, Plain(false, k));
    }
    SectionsExtensional(a.exact, b.exact);
    SectionsExtensional(a.prefix, b.prefix);
    assert MapOf(a, ServicePolicy(true)) == MapOf(b, ServicePolicy(true));
    assert MapOf(a, ServicePolicy(false)) == MapOf(b, ServicePolicy(false));
    assert MapOf(a, ServiceIntentions(true)) == MapOf(b, ServiceIntentions(true));
    assert MapOf(a, ServiceIntentions(false)) == MapOf(b, ServiceIntentions(false));
    assert MergedGlobal(a, Acl) == MergedGlobal(b, Acl);
    assert MergedGlobal(a, Keyring) == MergedGlobal(b, Keyring);
    assert MergedGlobal(a, Operator) == MergedGlobal(b, Operator);
  }

  lemma SectionsExtensional(a: Sections<map<string, Perm>>, b: Sections<map<string, Perm>>)
    requires forall k: Kind :: a.Of(k) == b.Of(k)
    ensures a == b
  {
    assert a.Of(Agent) == b.Of(Agent) && a.Of(Key) == b.Of(Key) && a.Of(Node) == b.Of(Node);
    assert a.Of(Session) == b.Of(Session) && a.Of(Event) == b.Of(Event) && a.Of(Query) == b.Of(Query);
  }

  // ---- what the merge of policies computes ----

  lemma {:induction false} MergeIntoAppend(m: map<string, Perm>, a: seq<Rule>, b: seq<Rule>)
    ensures MergeInto(m, a + b) == MergeInto(MergeInto(m, a), b)
    decreases |a|
  {
    if a == [] {
      assert a + b == b;
    } else {
      MergeIntoAppend(AddRule(m, a[0]), a[1..], b);
      assert (a + b)[0] == a[0] && (a + b)[1..] == a[1..] + b;
    }
  }

  lemma AddPolicyField(m: Merged, p: Policy, f: Field)
    ensures MapOf(AddPolicy(m, p), f) == MergeInto(MapOf(m, f), RulesOf(p, f))
  {
    match f
    case Plain(exact, k) => SectionField(if exact then m.exact else m.prefix, if exact then p.exact else p.prefix, k);
    case _ =>
  }

  lemma SectionField(m: Sections<map<string, Perm>>, p: Sections<seq<Rule>>, k: Kind)
    ensures MergeSections(m, p).Of(k) == MergeInto(m.Of(k), p.Of(k))
  {
  }

  lemma {:induction false} MergeFromField(m: Merged, ps: seq<Policy>, f: Field)
    ensures MapOf(MergeFrom(m, ps), f) == MergeInto(MapOf(m, f), AllRules(ps, f))
    decreases |ps|
  {
    if ps != [] {
      var m' := AddPolicy(m, ps[0]);
      MergeFromField(m', ps[1..], f);
      AddPolicyField(m, ps[0], f);
      MergeIntoAppend(MapOf(m, f), RulesOf(ps[0], f), AllRules(ps[1..], f));
    }
  }

  lemma AddPolicyGlobal(m: Merged, p: Policy, g: Global)
    ensures MergedGlobal(AddPolicy(m, p), g) == Strongest({MergedGlobal(m, g), GlobalOf(p, g)})
  {
  }

  lemma HigherIsStrongest(p: Perm, current: Perm)
    ensures Higher(p, current) == Strongest({current, p})
  {
  }

  lemma AllGlobalsSplit(ps: seq<Policy>, g: Global)
    requires ps != []
    ensures AllGlobals(ps, g) == {GlobalOf(ps[0], g)} + AllGlobals(ps[1..], g)
  {
  }

  lemma {:induction false} MergeFromGlobal(m: Merged, ps: seq<Policy>, g: Global)
    ensures MergedGlobal(MergeFrom(m, ps), g) == Strongest({MergedGlobal(m, g)} + AllGlobals(ps, g))
    decreases |ps|
  {
    if ps == [] {
      assert {MergedGlobal(m, g)} + AllGlobals(ps, g) == {MergedGlobal(m, g)};
    } else {
      var m' := AddPolicy(m, ps[0]);
      MergeFromGlobal(m', ps[1..], g);
      var both := {MergedGlobal(m, g), GlobalOf(ps[0], g)};
      AddPolicyGlobal(m, ps[0], g);
      LevelJoin(both, AllGlobals(ps[1..], g));
      AllGlobalsSplit(ps, g);
      assert {MergedGlobal(m, g)} + AllGlobals(ps, g) == both + AllGlobals(ps[1..], g);
    }
  }

  lemma NothingIsEmpty(f: Field)
    ensures MapOf(NOTHING, f) == map[]
  {
  }

  /**
    At every segment of every rule list the merge holds the strongest of all the
    input rules for it, service policies and intentions apart.
   */
  lemma MergeIsStrongest(ps: seq<Policy>, f: Field, segment: string)
    ensures Get(MapOf(Merge(ps), f), segment) == Combined(AllRules(ps, f), segment)
  {
    MergeFromField(NOTHING, ps, f);
    NothingIsEmpty(f);
    MergeRulesIsCombined(AllRules(ps, f), segment);
  }

  /** Every global permission of the merge is the strongest of the inputs. */
  lemma MergedGlobalIsStrongest(ps: seq<Policy>, g: Global)
    ensures MergedGlobal(Merge(ps), g) == Strongest(AllGlobals(ps, g))
  {
    MergeFromGlobal(NOTHING, ps, g);
    assert MergedGlobal(NOTHING, g) == Unset;
  }

  // ---- laws ----

  lemma {:induction false} PermsAtAllRules(ps: seq<Policy>, f: Field, segment: string, p: Perm)
    ensures p in PermsAt(AllRules(ps, f), segment) <==> exists q :: q in ps && p in PermsAt(RulesOf(q, f), segment)
    decreases |ps|
  {
    if ps != [] {
      PermsAtAllRules(ps[1..], f, segment, p);
      PermsAtAppend(RulesOf(ps[0], f), AllRules(ps[1..], f), segment);
      assert forall q :: q in ps <==> q == ps[0] || q in ps[1..];
    }
  }

  /** The merge depends only on which policies are given, not on their order or number. */
  lemma MergeIgnoresOrder(ps: seq<Policy>, qs: seq<Policy>)
    requires forall p :: p in ps <==> p in qs
    ensures Merge(ps) == Merge(qs)
  {
    forall f ensures MapOf(Merge(ps), f) == MapOf(Merge(qs), f) {
      forall segment ensures Get(MapOf(Merge(ps), f), segment) == Get(MapOf(Merge(qs), f), segment) {
        MergeIsStrongest(ps, f, segment);
        MergeIsStrongest(qs, f, segment);
        forall p ensures p in PermsAt(AllRules(ps, f), segment) <==> p in PermsAt(AllRules(qs, f), segment) {
          PermsAtAllRules(ps, f, segment, p);
          PermsAtAllRules(qs, f, segment, p);
        }
        assert PermsAt(AllRules(ps, f), segment) == PermsAt(AllRules(qs, f), segment);
      }
      MapExtensional(MapOf(Merge(ps), f), MapOf(Merge(qs), f));
    }
    forall g ensures MergedGlobal(Merge(ps), g) == MergedGlobal(Merge(qs), g) {
      MergedGlobalIsStrongest(ps, g);
      MergedGlobalIsStrongest(qs, g);
      assert AllGlobals(ps, g) == AllGlobals(qs, g);
    }
    MergedExtensional(Merge(ps), Merge(qs));
  }

  lemma MapExtensional(a: map<string, Perm>, b: map<string, Perm>)
    requires forall segment :: Get(a, segment) == Get(b, segment)
    ensures a == b
  {
    forall segment ensures segment in a <==> segment in b {
      assert Get(a, segment) == Get(b, segment);
    }
    forall segment | segment in a ensures a[segment] == b[segment] {
      assert Get(a, segment) == Get(b, segment);
    }
  }

  /** The rules spell out the map, in any order. */
  ghost predicate Lists(rules: seq<Rule>, m: map<string, Perm>) {
    && (forall i :: 0 <= i < |rules| ==> rules[i].segment in m && m[rules[i].segment] == rules[i].perm)
    && (forall segment :: segment in m ==> Rule(segment, m[segment]) in rules)
  }

  /** The merge result handed on as a policy, its rules listed in any order. */
  ghost predicate ListsPolicy(p: Policy, m: Merged) {
    && (forall f :: Lists(RulesOf(p, f), MapOf(m, f)))
    && (forall g :: GlobalOf(p, g) == MergedGlobal(m, g))
  }

  lemma ListedPerms(rules: seq<Rule>, m: map<string, Perm>, segment: string)
    requires Lists(rules, m)
    ensures PermsAt(rules, segment) == AsSet(Get(m, segment))
  {
  }

  lemma AllRulesOfTwo(p: Policy, q: Policy, f: Field)
    ensures AllRules([p, q], f) == RulesOf(p, f) + RulesOf(q, f)
  {
    assert [p, q][1..] == [q] && [q][1..] == [];
    assert AllRules([q], f) == RulesOf(q, f) + [];
  }

  lemma NestedField(p: Policy, q: Policy, ps: seq<Policy>, qs: seq<Policy>, f: Field, segment: string)
    requires ListsPolicy(p, Merge(ps)) && ListsPolicy(q, Merge(qs))
    ensures Combined(AllRules([p, q], f), segment) == Combined(AllRules(ps + qs, f), segment)
  {
    AllRulesOfTwo(p, q, f);
    PermsAtAppend(RulesOf(p, f), RulesOf(q, f), segment);
    assert PermsAt(RulesOf(p, f), segment) == AsSet(Combined(AllRules(ps, f), segment)) by {
      ListedPerms(RulesOf(p, f), MapOf(Merge(ps), f), segment);
      MergeIsStrongest(ps, f, segment);
    }
    assert PermsAt(RulesOf(q, f), segment) == AsSet(Combined(AllRules(qs, f), segment)) by {
      ListedPerms(RulesOf(q, f), MapOf(Merge(qs), f), segment);
      MergeIsStrongest(qs, f, segment);
    }
    LevelJoinBoth(PermsAt(AllRules(ps, f), segment), PermsAt(AllRules(qs, f), segment));
    AllRulesAppend(ps, qs, f);
    PermsAtAppend(AllRules(ps, f), AllRules(qs, f), segment);
  }

  lemma {:induction false} AllRulesAppend(ps: seq<Policy>, qs: seq<Policy>, f: Field)
    ensures AllRules(ps + qs, f) == AllRules(ps, f) + AllRules(qs, f)
    decreases |ps|
  {
    if ps == [] {
      assert ps + qs == qs;
    } else {
      assert (ps + qs)[0] == ps[0] && (ps + qs)[1..] == ps[1..] + qs;
      AllRulesAppend(ps[1..], qs, f);
      AppendAssociates(RulesOf(ps[0], f), AllRules(ps[1..], f), AllRules(qs, f));
    }
  }

  /** Merging two merged groups is merging everything at once. */
  lemma MergeNests(p: Policy, q: Policy, ps: seq<Policy>, qs: seq<Policy>)
    requires ListsPolicy(p, Merge(ps)) && ListsPolicy(q, Merge(qs))
    ensures Merge([p, q]) == Merge(ps + qs)
  {
    forall f ensures MapOf(Merge([p, q]), f) == MapOf(Merge(ps + qs), f) {
      forall segment ensures Get(MapOf(Merge([p, q]), f), segment) == Get(MapOf(Merge(ps + qs), f), segment) {
        MergeIsStrongest([p, q], f, segment);
        MergeIsStrongest(ps + qs, f, segment);
        NestedField(p, q, ps, qs, f, segment);
      }
      MapExtensional(MapOf(Merge([p, q]), f), MapOf(Merge(ps + qs), f));
    }
    forall g ensures MergedGlobal(Merge([p, q]), g) == MergedGlobal(Merge(ps + qs), g) {
      NestedGlobal(p, q, ps, qs, g);
    }
    MergedExtensional(Merge([p, q]), Merge(ps + qs));
  }

  lemma GlobalsOfTwo(p: Policy, q: Policy, g: Global)
    ensures AllGlobals([p, q], g) == {GlobalOf(p, g), GlobalOf(q, g)}
  {
  }

  lemma GlobalsAppend(ps: seq<Policy>, qs: seq<Policy>, g: Global)
    ensures AllGlobals(ps + qs, g) == AllGlobals(ps, g) + AllGlobals(qs, g)
  {
  }

  lemma NestedGlobal(p: Policy, q: Policy, ps: seq<Policy>, qs: seq<Policy>, g: Global)
    requires ListsPolicy(p, Merge(ps)) && ListsPolicy(q, Merge(qs))
    ensures MergedGlobal(Merge([p, q]), g) == MergedGlobal(Merge(ps + qs), g)
  {
    MergedGlobalIsStrongest([p, q], g);
    MergedGlobalIsStrongest(ps + qs, g);
    assert GlobalOf(p, g) == Strongest(AllGlobals(ps, g)) by { MergedGlobalIsStrongest(ps, g); }
    assert GlobalOf(q, g) == Strongest(AllGlobals(qs, g)) by { MergedGlobalIsStrongest(qs, g); }
    GlobalsOfTwo(p, q, g);
    GlobalsAppend(ps, qs, g);
    StrongestJoinBoth(AllGlobals(ps, g), AllGlobals(qs, g));
  }

  lemma StrongestJoinBoth(a: set<Perm>, b: set<Perm>)
    ensures Strongest({Strongest(a), Strongest(b)}) == Strongest(a + b)
  {
  }

  /** Merging a merged policy again changes nothing. */
  lemma MergeIsIdempotent(p: Policy, ps: seq<Policy>)
    requires ListsPolicy(p, Merge(ps))
    ensures Merge([p]) == Merge(ps)
  {
    MergeIgnoresOrder([p], [p, p]);
    MergeNests(p, p, ps, ps);
    MergeIgnoresOrder(ps + ps, ps);
  }

  // ---- what the parser admits, the merge keeps ----

  /** The permissions the parser admits in one kind of rule. */
  predicate Admitted(f: Field, p: Perm) {
    IsPolicyValid(p) || (f.Plain? && f.kind == Key && p == List) || (f.ServiceIntentions? && p == Unset)
  }

  ghost predicate AdmittedRules(rules: seq<Rule>, f: Field) {
    forall i :: 0 <= i < |rules| ==> Admitted(f, rules[i].perm)
  }

  lemma StrongestIsMember(ps: set<Perm>)
    requires ps != {}
    ensures Strongest(ps) in ps
  {
    var p :| p in ps;
    assert p == Deny || p == Write || p == List || p == Read || p == Unset;
  }

  /** The merge of admitted policies holds only admitted permissions: it makes none up. */
  lemma MergeKeepsAdmitted(ps: seq<Policy>, f: Field, segment: string)
    requires forall p :: p in ps ==> AdmittedRules(RulesOf(p, f), f)
    ensures segment in MapOf(Merge(ps), f) ==> Admitted(f, MapOf(Merge(ps), f)[segment])
  {
    MergeIsStrongest(ps, f, segment);
    var perms := PermsAt(AllRules(ps, f), segment);
    if perms != {} {
      StrongestIsMember(perms);
      PermsAtAllRules(ps, f, segment, Strongest(perms));
      var p :| p in ps && Strongest(perms) in PermsAt(RulesOf(p, f), segment);
      assert AdmittedRules(RulesOf(p, f), f);
    }
  }
}
