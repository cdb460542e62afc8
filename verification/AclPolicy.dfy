/**
  Access rules and how several policies merge into one. A permission that is not
  set is `Unset`; the parser admits no value beyond the five below.
 */
module AclPolicy {
  import opened Basics

  datatype Perm = Deny | Write | List | Read | Unset

  /** A permission for one name, or for every name that starts with a prefix. */
  datatype Rule = Rule(segment: string, perm: Perm)

  datatype ServiceRule = ServiceRule(name: string, policy: Perm, intentions: Perm)

  datatype Kind = Agent | Key | Node | Session | Event | Query

  /** One value for each kind of resource that has plain rules. */
  datatype Sections<T> = Sections(agent: T, key: T, node: T, session: T, event: T, query: T) {
    function Of(k: Kind): T {
      match k
      case Agent => agent
      case Key => key
      case Node => node
      case Session => session
      case Event => event
      case Query => query
    }
  }

  datatype Policy = Policy(acl: Perm, keyring: Perm, operator: Perm,
                           exact: Sections<seq<Rule>>, prefix: Sections<seq<Rule>>,
                           services: seq<ServiceRule>, servicePrefixes: seq<ServiceRule>)

  /** The two permissions of a service, merged apart from each other. */
  datatype ServicePerms = ServicePerms(policy: map<string, Perm>, intentions: map<string, Perm>)

  datatype Merged = Merged(acl: Perm, keyring: Perm, operator: Perm,
                           exact: Sections<map<string, Perm>>, prefix: Sections<map<string, Perm>>,
                           services: ServicePerms, servicePrefixes: ServicePerms)

  predicate TakesPrecedenceOver(a: Perm, b: Perm) {
    if a == Deny then true else if b == Deny then false
    else if a == Write then true else if b == Write then false
    else if a == List then true else if b == List then false
    else if a == Read then true else if b == Read then false
    else false
  }

  predicate IsPolicyValid(p: Perm) {
    p == Deny || p == Read || p == Write
  }

  // ---- the reference: the strongest permission of a set ----

  /** Deny beats write beats list beats read beats nothing. */
  function Strongest(ps: set<Perm>): Perm {
    if Deny in ps then Deny else if Write in ps then Write else if List in ps then List
    else if Read in ps then Read else Unset
  }

  /** The strongest permission of a set, if it has any. */
  function Level(ps: set<Perm>): Option<Perm> {
    if ps == {} then None else Some(Strongest(ps))
  }

  function PermsAt(rules: seq<Rule>, segment: string): set<Perm> {
    set i | 0 <= i < |rules| && rules[i].segment == segment :: rules[i].perm
  }

  /** What a list of rules says, taken together, about exactly one segment. */
  function Combined(rules: seq<Rule>, segment: string): Option<Perm> {
    Level(PermsAt(rules, segment))
  }

  function Get<T>(m: map<string, T>, key: string): Option<T> {
    if key in m then Some(m[key]) else None
  }

  // ---- the merge, as the code folds it ----

  function Higher(p: Perm, current: Perm): Perm {
    if TakesPrecedenceOver(p, current) then p else current
  }

  function AddRule(m: map<string, Perm>, r: Rule): map<string, Perm> {
    if r.segment in m && !TakesPrecedenceOver(r.perm, m[r.segment]) then m else m[r.segment := r.perm]
  }

  function MergeInto(m: map<string, Perm>, rules: seq<Rule>): map<string, Perm>
    decreases |rules|
  {
    if rules == [] then m else MergeInto(AddRule(m, rules[0]), rules[1..])
  }

  function PolicyRules(rs: seq<ServiceRule>): seq<Rule> {
    seq(|rs|, i requires 0 <= i < |rs| => Rule(rs[i].name, rs[i].policy))
  }

  function IntentionRules(rs: seq<ServiceRule>): seq<Rule> {
    seq(|rs|, i requires 0 <= i < |rs| => Rule(rs[i].name, rs[i].intentions))
  }

  function MergeServices(m: ServicePerms, rs: seq<ServiceRule>): ServicePerms {
    ServicePerms(MergeInto(m.policy, PolicyRules(rs)), MergeInto(m.intentions, IntentionRules(rs)))
  }

  function MergeSections(m: Sections<map<string, Perm>>, p: Sections<seq<Rule>>): Sections<map<string, Perm>> {
    Sections(MergeInto(m.agent, p.agent), MergeInto(m.key, p.key), MergeInto(m.node, p.node),
             MergeInto(m.session, p.session), MergeInto(m.event, p.event), MergeInto(m.query, p.query))
  }

  function AddPolicy(m: Merged, p: Policy): Merged {
    Merged(Higher(p.acl, m.acl), Higher(p.keyring, m.keyring), Higher(p.operator, m.operator),
           MergeSections(m.exact, p.exact), MergeSections(m.prefix, p.prefix),
           MergeServices(m.services, p.services), MergeServices(m.servicePrefixes, p.servicePrefixes))
  }

  const NO_SERVICES := ServicePerms(map[], map[])
  const NO_RULES: Sections<map<string, Perm>> := Sections(map[], map[], map[], map[], map[], map[])
  const NOTHING := Merged(Unset, Unset, Unset, NO_RULES, NO_RULES, NO_SERVICES, NO_SERVICES)

  function MergeFrom(m: Merged, ps: seq<Policy>): Merged
    decreases |ps|
  {
    if ps == [] then m else MergeFrom(AddPolicy(m, ps[0]), ps[1..])
  }

  function Merge(ps: seq<Policy>): Merged {
    MergeFrom(NOTHING, ps)
  }

  // ---- the loops ----

  method MergeRuleList(m: map<string, Perm>, rules: seq<Rule>) returns (r: map<string, Perm>)
    ensures r == MergeInto(m, rules)
  {
    r := m;
    for i := 0 to |rules|
      invariant MergeInto(r, rules[i..]) == MergeInto(m, rules)
    {
      var update := true;
      if rules[i].segment in r {
        update := TakesPrecedenceOver(rules[i].perm, r[rules[i].segment]);
      }
      assert rules[i..][1..] == rules[i + 1..];
      if update {
        r := r[rules[i].segment := rules[i].perm];
      }
    }
  }

  method MergeSectionLists(m: Sections<map<string, Perm>>, p: Sections<seq<Rule>>)
    returns (r: Sections<map<string, Perm>>)
    ensures r == MergeSections(m, p)
  {
    var agent := MergeRuleList(m.agent, p.agent);
    var key := MergeRuleList(m.key, p.key);
    var node := MergeRuleList(m.node, p.node);
    var session := MergeRuleList(m.session, p.session);
    var event := MergeRuleList(m.event, p.event);
    var query := MergeRuleList(m.query, p.query);
    r := Sections(agent, key, node, session, event, query);
  }

  method MergeServiceList(m: ServicePerms, rs: seq<ServiceRule>) returns (r: ServicePerms)
    ensures r == MergeServices(m, rs)
  {
    var policy := MergeRuleList(m.policy, PolicyRules(rs));
    var intentions := MergeRuleList(m.intentions, IntentionRules(rs));
    r := ServicePerms(policy, intentions);
  }

  method MergePolicies(ps: seq<Policy>) returns (m: Merged)
    ensures m == Merge(ps)
  {
    m := NOTHING;
    for i := 0 to |ps|
      invariant MergeFrom(m, ps[i..]) == Merge(ps)
    {
      var exact := MergeSectionLists(m.exact, ps[i].exact);
      var prefix := MergeSectionLists(m.prefix, ps[i].prefix);
      var services := MergeServiceList(m.services, ps[i].services);
      var servicePrefixes := MergeServiceList(m.servicePrefixes, ps[i].servicePrefixes);
      assert ps[i..][1..] == ps[i + 1..];
      m := Merged(Higher(ps[i].acl, m.acl), Higher(ps[i].keyring, m.keyring), Higher(ps[i].operator, m.operator),
                  exact, prefix, services, servicePrefixes);
    }
  }
}
