/**
  What the rules of a chain of authorizers come to: a request is granted exactly if nobody
  denies the name and somebody grants as much.
 */
module AclGrants {
  import opened Basics
  import opened AclPolicy
  import opened AclMergeLaws
  import opened AclTree
  import opened AclAuthorizer

  /** How far a permission reaches: write includes list, list includes read. */
  function Reach(p: Perm): nat {
    match p
    case Write => 3
    case List => 2
    case Read => 1
    case Deny => 0
    case Unset => 0
  }

  /** What can be asked for. */
  predicate IsRequest(p: Perm) {
    p == Read || p == List || p == Write
  }

  /** The permissions admitted in every rule are those that decide, and grant listing only with writing. */
  lemma ValidGrantsNoListing(p: Perm)
    ensures IsPolicyValid(p) <==> Enforce(p, List) == Enforce(p, Write) && Enforce(p, Write) != AskParent
  {
  }

  // ---- one level of a chain ----

  /** The level says something about the name. */
  predicate Speaks(rules: RuleSet, r: Resource, name: string) {
    Lookup(rules.Tree(r), name).Some? && Lookup(rules.Tree(r), name) != Some(Unset)
  }

  /** A level that speaks grants exactly what its rule reaches; one that does not leaves it to its parent. */
  lemma LevelDecides(parent: Authorizer, rules: RuleSet, r: Resource, name: string, required: Perm)
    requires IsRequest(required)
    ensures Decide(Policies(parent, rules), r, name, required)
            <==> if Speaks(rules, r, name) then Reach(Lookup(rules.Tree(r), name).value) >= Reach(required)
                 else Decide(parent, r, name, required)
  {
  }

  lemma GlobalDecides(parent: Authorizer, rules: RuleSet, g: Global, required: Perm)
    requires required == Read || required == Write
    ensures DecideGlobal(Policies(parent, rules), g, required)
            <==> if rules.Global(g) != Unset then Reach(rules.Global(g)) >= Reach(required)
                 else DecideGlobal(parent, g, required)
  {
  }

  // ---- the whole chain ----

  /** The rules of a chain, the first one asked first. */
  function Levels(a: Authorizer): seq<RuleSet> {
    match a
    case Static(_, _) => []
    case Policies(parent, rules) => [rules] + Levels(parent)
  }

  function Base(a: Authorizer): (b: Authorizer)
    ensures b.Static?
  {
    match a
    case Static(_, _) => a
    case Policies(parent, _) => Base(parent)
  }

  /** The first level that speaks decides. */
  lemma {:induction false} FirstSpeakerDecides(a: Authorizer, r: Resource, name: string, required: Perm, i: nat)
    requires IsRequest(required) && i < |Levels(a)| && Speaks(Levels(a)[i], r, name)
    requires forall j :: 0 <= j < i ==> !Speaks(Levels(a)[j], r, name)
    ensures Decide(a, r, name, required) <==> Reach(Lookup(Levels(a)[i].Tree(r), name).value) >= Reach(required)
    decreases a
  {
    match a
    case Policies(parent, rules) =>
      LevelDecides(parent, rules, r, name, required);
      if i > 0 {
        assert !Speaks(Levels(a)[0], r, name);
        forall j | 0 <= j < i - 1 ensures !Speaks(Levels(parent)[j], r, name) {
          assert Levels(a)[j + 1] == Levels(parent)[j];
        }
        FirstSpeakerDecides(parent, r, name, required, i - 1);
      }
  }

  /** If none speaks, the default at the end of the chain does. */
  lemma {:induction false} DefaultDecides(a: Authorizer, r: Resource, name: string, required: Perm)
    requires IsRequest(required) && forall j :: 0 <= j < |Levels(a)| ==> !Speaks(Levels(a)[j], r, name)
    ensures Decide(a, r, name, required) == Base(a).defaultAllow
    decreases a
  {
    match a
    case Static(_, _) =>
    case Policies(parent, rules) =>
      LevelDecides(parent, rules, r, name, required);
      assert Levels(a)[0] == rules && Levels(a)[1..] == Levels(parent);
      forall j | 0 <= j < |Levels(parent)| ensures !Speaks(Levels(parent)[j], r, name) {
        assert Levels(a)[j + 1] == Levels(parent)[j];
      }
      DefaultDecides(parent, r, name, required);
  }

  /** The same for global permissions; managing ACLs has a default of its own. */
  lemma {:induction false} GlobalDefaultDecides(a: Authorizer, g: Global, required: Perm)
    requires required == Read || required == Write
    requires forall j :: 0 <= j < |Levels(a)| ==> Levels(a)[j].Global(g) == Unset
    ensures DecideGlobal(a, g, required) == if g == Acl then Base(a).allowManage else Base(a).defaultAllow
    decreases a
  {
    match a
    case Static(_, _) =>
    case Policies(parent, rules) =>
      GlobalDecides(parent, rules, g, required);
      assert Levels(a)[0] == rules && Levels(a)[1..] == Levels(parent);
      forall j | 0 <= j < |Levels(parent)| ensures Levels(parent)[j].Global(g) == Unset {
        assert Levels(a)[j + 1] == Levels(parent)[j];
      }
      GlobalDefaultDecides(parent, g, required);
  }

  lemma {:induction false} FirstGlobalDecides(a: Authorizer, g: Global, required: Perm, i: nat)
    requires (required == Read || required == Write) && i < |Levels(a)| && Levels(a)[i].Global(g) != Unset
    requires forall j :: 0 <= j < i ==> Levels(a)[j].Global(g) == Unset
    ensures DecideGlobal(a, g, required) <==> Reach(Levels(a)[i].Global(g)) >= Reach(required)
    decreases a
  {
    match a
    case Policies(parent, rules) =>
      GlobalDecides(parent, rules, g, required);
      if i > 0 {
        assert Levels(a)[0].Global(g) == Unset;
        forall j | 0 <= j < i - 1 ensures Levels(parent)[j].Global(g) == Unset {
          assert Levels(a)[j + 1] == Levels(parent)[j];
        }
        FirstGlobalDecides(parent, g, required, i - 1);
      }
  }

  // ---- many policies at one level ----

  /** Nobody denies, and somebody grants as much. */
  ghost predicate Granted(perms: set<Perm>, required: Perm) {
    Deny !in perms && exists p :: p in perms && Reach(p) >= Reach(required)
  }

  /** One denial outweighs all grants, and otherwise grants add up. */
  lemma StrongestGrants(perms: set<Perm>, required: Perm)
    requires IsRequest(required)
    ensures Reach(Strongest(perms)) >= Reach(required) <==> Granted(perms, required)
    ensures Strongest(perms) == Unset <==> perms <= {Unset}
  {
    var s := Strongest(perms);
    if Reach(s) >= Reach(required) {
      assert s in perms;
    }
    if Deny !in perms {
      forall p | p in perms ensures Reach(p) <= Reach(s) {
      }
    }
    forall p | p in perms && s == Unset ensures p == Unset {
    }
  }

  /** The permissions that any rule of any policy sets on exactly one segment. */
  function PermsOf(ps: seq<Policy>, f: Field, segment: string): set<Perm> {
    set p, i | p in ps && 0 <= i < |RulesOf(p, f)| && RulesOf(p, f)[i].segment == segment :: RulesOf(p, f)[i].perm
  }

  lemma PermsOfAll(ps: seq<Policy>, f: Field, segment: string)
    ensures PermsAt(AllRules(ps, f), segment) == PermsOf(ps, f, segment)
  {
    forall perm ensures perm in PermsAt(AllRules(ps, f), segment) <==> perm in PermsOf(ps, f, segment) {
      PermsAtAllRules(ps, f, segment, perm);
    }
  }

  /** The rules that decide whether a level says something about a resource. */
  function FieldOf(r: Resource, exact: bool): Field {
    match r
    case Named(k) => Plain(exact, k)
    case Service => ServicePolicy(exact)
    case Intention => ServicePolicy(exact)
  }

  /** The rules for the name itself are the ones to apply, or else those for its first `n` characters. */
  ghost predicate RulesApply(ps: seq<Policy>, r: Resource, name: string, exact: bool, n: nat) {
    && n <= |name| && PermsOf(ps, FieldOf(r, exact), name[..n]) != {}
    && if exact then n == |name|
       else && PermsOf(ps, FieldOf(r, true), name) == {}
            && forall m :: n < m <= |name| ==> PermsOf(ps, FieldOf(r, false), name[..m]) == {}
  }

  lemma SaidIff(ps: seq<Policy>, r: Resource, exact: bool, segment: string)
    ensures Said(ps, r, exact, segment).Some? <==> PermsOf(ps, FieldOf(r, exact), segment) != {}
  {
    PermsOfAll(ps, FieldOf(r, exact), segment);
  }

  lemma {:induction false} FoundAtPrefix(ps: seq<Policy>, r: Resource, name: string, m: nat, n: nat)
    requires n <= m <= |name| && PermsOf(ps, FieldOf(r, false), name[..n]) != {}
    requires forall j :: n < j <= m ==> PermsOf(ps, FieldOf(r, false), name[..j]) == {}
    ensures SaidByPrefix(ps, r, name, m) == Said(ps, r, false, name[..n])
  {
    SaidIff(ps, r, false, name[..m]);
    if n < m {
      FoundAtPrefix(ps, r, name, m - 1, n);
    }
  }

  lemma FoundRules(ps: seq<Policy>, r: Resource, name: string, exact: bool, n: nat)
    requires RulesApply(ps, r, name, exact, n)
    ensures Effective(ps, r, name) == Said(ps, r, exact, name[..n]) && Said(ps, r, exact, name[..n]).Some?
  {
    SaidIff(ps, r, exact, name[..n]);
    if exact {
      assert name[..n] == name;
    } else {
      SaidIff(ps, r, true, name);
      FoundAtPrefix(ps, r, name, |name|, n);
    }
  }

  /**
    The rules that apply to a name grant a request exactly if none of them denies and one
    reaches as far, whatever policies they are spread over. If they all set nothing, or no
    rule applies, the parent decides.
   */
  lemma RulesGrant(parent: Authorizer, ps: seq<Policy>, r: Resource, name: string, required: Perm, exact: bool, n: nat)
    requires IsRequest(required) && !r.Intention? && RulesApply(ps, r, name, exact, n)
    ensures var perms := PermsOf(ps, FieldOf(r, exact), name[..n]);
            Decide(Policies(parent, Compile(Merge(ps))), r, name, required)
            <==> if perms <= {Unset} then Decide(parent, r, name, required) else Granted(perms, required)
  {
    AuthorizerRefinesRules(parent, ps, r, name, required);
    FoundRules(ps, r, name, exact, n);
    PermsOfAll(ps, FieldOf(r, exact), name[..n]);
    StrongestGrants(PermsOf(ps, FieldOf(r, exact), name[..n]), required);
  }

  lemma {:induction false} NothingByPrefix(ps: seq<Policy>, r: Resource, name: string, n: nat)
    requires n <= |name| && forall m :: 0 <= m <= n ==> PermsOf(ps, FieldOf(r, false), name[..m]) == {}
    ensures SaidByPrefix(ps, r, name, n).None?
  {
    SaidIff(ps, r, false, name[..n]);
    if n > 0 {
      NothingByPrefix(ps, r, name, n - 1);
    }
  }

  lemma NoRuleAsksParent(parent: Authorizer, ps: seq<Policy>, r: Resource, name: string, required: Perm)
    requires IsRequest(required) && PermsOf(ps, FieldOf(r, true), name) == {}
    requires forall m :: 0 <= m <= |name| ==> PermsOf(ps, FieldOf(r, false), name[..m]) == {}
    ensures Decide(Policies(parent, Compile(Merge(ps))), r, name, required) == Decide(parent, r, name, required)
  {
    AuthorizerRefinesRules(parent, ps, r, name, required);
    SaidIff(ps, r, true, name);
    NothingByPrefix(ps, r, name, |name|);
  }

  /** Policies that set a global permission. */
  lemma GlobalRulesGrant(parent: Authorizer, ps: seq<Policy>, g: Global, required: Perm)
    requires required == Read || required == Write
    ensures DecideGlobal(Policies(parent, Compile(Merge(ps))), g, required)
            <==> if AllGlobals(ps, g) <= {Unset} then DecideGlobal(parent, g, required)
                 else Granted(AllGlobals(ps, g), required)
  {
    GlobalRefinesRules(parent, ps, g, required);
    StrongestGrants(AllGlobals(ps, g), required);
  }

  // ---- intentions ----

  /** Intentions that no rule sets follow the service, for reading only. */
  ghost predicate IntentionGranted(service: set<Perm>, own: set<Perm>, required: Perm) {
    if !(own <= {Unset}) then Granted(own, required)
    else required == Read && Deny !in service && (Write in service || (List !in service && Read in service))
  }

  lemma IntentionReach(service: set<Perm>, own: set<Perm>, required: Perm)
    requires IsRequest(required)
    ensures var p := IntentionFor(Strongest(service), Strongest(own));
            p != Unset && (Reach(p) >= Reach(required) <==> IntentionGranted(service, own, required))
  {
    StrongestGrants(own, required);
  }

  lemma IntentionSaid(ps: seq<Policy>, exact: bool, segment: string)
    requires PermsOf(ps, ServicePolicy(exact), segment) != {}
    ensures Said(ps, Intention, exact, segment)
         == Some(IntentionFor(Strongest(PermsOf(ps, ServicePolicy(exact), segment)),
                              Strongest(PermsOf(ps, ServiceIntentions(exact), segment))))
  {
    PermsOfAll(ps, ServicePolicy(exact), segment);
    PermsOfAll(ps, ServiceIntentions(exact), segment);
  }

  lemma FoundDecides(parent: Authorizer, ps: seq<Policy>, r: Resource, name: string, required: Perm, p: Perm)
    requires IsRequest(required) && Effective(ps, r, name) == Some(p) && p != Unset
    ensures Decide(Policies(parent, Compile(Merge(ps))), r, name, required) <==> Reach(p) >= Reach(required)
  {
    AuthorizerRefinesRules(parent, ps, r, name, required);
  }

  /**
    The intentions of a service. If a service rule that applies sets them, they are granted
    as those rules say; if none does, they may never be written, and be read exactly if the
    strongest service rule is a read or a write. The parent is never asked.
   */
  lemma IntentionsGrant(parent: Authorizer, ps: seq<Policy>, name: string, required: Perm, exact: bool, n: nat)
    requires IsRequest(required) && RulesApply(ps, Intention, name, exact, n)
    ensures Decide(Policies(parent, Compile(Merge(ps))), Intention, name, required)
            <==> IntentionGranted(PermsOf(ps, ServicePolicy(exact), name[..n]),
                                  PermsOf(ps, ServiceIntentions(exact), name[..n]), required)
  {
    var service := PermsOf(ps, ServicePolicy(exact), name[..n]);
    var own := PermsOf(ps, ServiceIntentions(exact), name[..n]);
    FoundRules(ps, Intention, name, exact, n);
    IntentionSaid(ps, exact, name[..n]);
    IntentionReach(service, own, required);
    FoundDecides(parent, ps, Intention, name, required, IntentionFor(Strongest(service), Strongest(own)));
  }
}
