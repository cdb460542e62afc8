/** Chains of authorizers: compiled rules first, the parent where they are silent. */
module AclAuthorizer {
  import opened Basics
  import opened AclPolicy
  import opened AclMergeLaws
  import opened AclTree

  /** The resources decided by a rule tree. */
  datatype Resource = Named(kind: Kind) | Service | Intention

  datatype RuleSet = RuleSet(acl: Perm, keyring: Perm, operator: Perm,
                             trees: Sections<Leaves>, services: Leaves, intentions: Leaves) {
    function Tree(r: Resource): Leaves {
      match r
      case Named(k) => trees.Of(k)
      case Service => services
      case Intention => intentions
    }

    function Global(g: Global): Perm {
      match g case Acl => acl case Keyring => keyring case Operator => operator
    }
  }

  datatype Authorizer = Static(allowManage: bool, defaultAllow: bool) | Policies(parent: Authorizer, rules: RuleSet)

  datatype Verdict = Allow | Refuse | AskParent

  function Enforce(rule: Perm, required: Perm): Verdict {
    match rule
    case Write => Allow
    case List => if required == List || required == Read then Allow else Refuse
    case Read => if required == Read then Allow else Refuse
    case Deny => Refuse
    case Unset => AskParent
  }

  function EnforceFound(rule: Option<Perm>, required: Perm): Verdict {
    match rule case None => AskParent case Some(p) => Enforce(p, required)
  }

  /** The read, list and write decisions on named resources. */
  predicate Decide(a: Authorizer, r: Resource, name: string, required: Perm) {
    match a
    case Static(_, defaultAllow) => defaultAllow
    case Policies(parent, rules) =>
      match EnforceFound(Lookup(rules.Tree(r), name), required)
      case Allow => true
      case Refuse => false
      case AskParent => Decide(parent, r, name, required)
  }

  /** The read and write decisions on ACLs, the keyring and operator functions. */
  predicate DecideGlobal(a: Authorizer, g: Global, required: Perm) {
    match a
    case Static(allowManage, defaultAllow) => if g == Acl then allowManage else defaultAllow
    case Policies(parent, rules) =>
      match Enforce(rules.Global(g), required)
      case Allow => true
      case Refuse => false
      case AskParent => DecideGlobal(parent, g, required)
  }

  predicate Snapshot(a: Authorizer) {
    match a
    case Static(allowManage, _) => allowManage
    case Policies(parent, rules) =>
      match Enforce(rules.acl, Write)
      case Allow => true
      case Refuse => false
      case AskParent => Snapshot(parent)
  }

  // ---- compiling policies ----

  /** The intention permission of a service that sets none follows its policy. */
  function IntentionFor(policy: Perm, intentions: Perm): Perm {
    if intentions != Unset then intentions
    else if policy == Read || policy == Write then Read
    else Deny
  }

  function IntentionsOf(sp: ServicePerms): map<string, Perm> {
    map s | s in sp.policy :: IntentionFor(sp.policy[s], if s in sp.intentions then sp.intentions[s] else Unset)
  }

  function Compile(m: Merged): RuleSet {
    RuleSet(m.acl, m.keyring, m.operator,
            Sections(TreeOf(m.exact.agent, m.prefix.agent), TreeOf(m.exact.key, m.prefix.key),
                     TreeOf(m.exact.node, m.prefix.node), TreeOf(m.exact.session, m.prefix.session),
                     TreeOf(m.exact.event, m.prefix.event), TreeOf(m.exact.query, m.prefix.query)),
            TreeOf(m.services.policy, m.servicePrefixes.policy),
            TreeOf(IntentionsOf(m.services), IntentionsOf(m.servicePrefixes)))
  }

  method NewPolicyAuthorizer(parent: Authorizer, ps: seq<Policy>) returns (a: Authorizer)
    ensures a == Policies(parent, Compile(Merge(ps)))
  {
    var m := MergePolicies(ps);
    var agent := BuildTree(m.exact.agent, m.prefix.agent);
    var key := BuildTree(m.exact.key, m.prefix.key);
    var node := BuildTree(m.exact.node, m.prefix.node);
    var services := BuildTree(m.services.policy, m.servicePrefixes.policy);
    var intentions := BuildTree(IntentionsOf(m.services), IntentionsOf(m.servicePrefixes));
    var session := BuildTree(m.exact.session, m.prefix.session);
    var event := BuildTree(m.exact.event, m.prefix.event);
    var query := BuildTree(m.exact.query, m.prefix.query);
    a := Policies(parent, RuleSet(m.acl, m.keyring, m.operator,
                                  Sections(agent, key, node, session, event, query), services, intentions));
  }

  // ---- the specification on unmerged rules ----

  /** What the policies together say about exactly one segment of a resource. */
  function Said(ps: seq<Policy>, r: Resource, exact: bool, segment: string): Option<Perm> {
    match r
    case Named(k) => Combined(AllRules(ps, Plain(exact, k)), segment)
    case Service => Combined(AllRules(ps, ServicePolicy(exact)), segment)
    case Intention =>
      match Combined(AllRules(ps, ServicePolicy(exact)), segment)
      case None => None
      case Some(policy) =>
        Some(IntentionFor(policy, match Combined(AllRules(ps, ServiceIntentions(exact)), segment)
                                  case None => Unset
                                  case Some(i) => i))
  }

  /** The rules for the longest prefix of the name's first `n` characters that any policy mentions. */
  function SaidByPrefix(ps: seq<Policy>, r: Resource, name: string, n: nat): Option<Perm>
    requires n <= |name|
  {
    if Said(ps, r, false, name[..n]).Some? then Said(ps, r, false, name[..n])
    else if n == 0 then None
    else SaidByPrefix(ps, r, name, n - 1)
  }

  /** The rules for the name itself if there are any, else those of the longest matching prefix. */
  function Effective(ps: seq<Policy>, r: Resource, name: string): Option<Perm> {
    if Said(ps, r, true, name).Some? then Said(ps, r, true, name) else SaidByPrefix(ps, r, name, |name|)
  }

  predicate SpecDecide(parent: Authorizer, ps: seq<Policy>, r: Resource, name: string, required: Perm) {
    match EnforceFound(Effective(ps, r, name), required)
    case Allow => true
    case Refuse => false
    case AskParent => Decide(parent, r, name, required)
  }

  // ---- refinement ----

  lemma TreeSays(exact: map<string, Perm>, prefix: map<string, Perm>, segment: string)
    ensures var t := TreeOf(exact, prefix);
            && (if segment in t then t[segment].exact else None) == Get(exact, segment)
            && (if segment in t then t[segment].prefix else None) == Get(prefix, segment)
  {
  }

  lemma CompiledNamed(m: Merged, k: Kind)
    ensures Compile(m).Tree(Named(k)) == TreeOf(MapOf(m, Plain(true, k)), MapOf(m, Plain(false, k)))
  {
    match k { case _ => }
  }

  lemma IntentionsSaid(ps: seq<Policy>, exact: bool, segment: string)
    ensures var sp := if exact then Merge(ps).services else Merge(ps).servicePrefixes;
            Get(IntentionsOf(sp), segment) == Said(ps, Intention, exact, segment)
  {
    MergeIsStrongest(ps, ServicePolicy(exact), segment);
    MergeIsStrongest(ps, ServiceIntentions(exact), segment);
  }

  lemma CompiledSays(ps: seq<Policy>, r: Resource, segment: string)
    ensures var t := Compile(Merge(ps)).Tree(r);
            && (if segment in t then t[segment].exact else None) == Said(ps, r, true, segment)
            && (if segment in t then t[segment].prefix else None) == Said(ps, r, false, segment)
  {
    var m := Merge(ps);
    match r
    case Named(k) =>
      CompiledNamed(m, k);
      TreeSays(MapOf(m, Plain(true, k)), MapOf(m, Plain(false, k)), segment);
      MergeIsStrongest(ps, Plain(true, k), segment);
      MergeIsStrongest(ps, Plain(false, k), segment);
    case Service =>
      TreeSays(m.services.policy, m.servicePrefixes.policy, segment);
      MergeIsStrongest(ps, ServicePolicy(true), segment);
      MergeIsStrongest(ps, ServicePolicy(false), segment);
    case Intention =>
      TreeSays(IntentionsOf(m.services), IntentionsOf(m.servicePrefixes), segment);
      IntentionsSaid(ps, true, segment);
      IntentionsSaid(ps, false, segment);
  }

  lemma {:induction false} CompiledPrefix(ps: seq<Policy>, r: Resource, name: string, n: nat)
    requires n <= |name|
    ensures LongestPrefix(Compile(Merge(ps)).Tree(r), name, n) == SaidByPrefix(ps, r, name, n)
  {
    CompiledSays(ps, r, name[..n]);
    if n > 0 {
      CompiledPrefix(ps, r, name, n - 1);
    }
  }

  /** Every decision of the compiled policies is the one read off the unmerged rules. */
  lemma AuthorizerRefinesRules(parent: Authorizer, ps: seq<Policy>, r: Resource, name: string, required: Perm)
    ensures Decide(Policies(parent, Compile(Merge(ps))), r, name, required) == SpecDecide(parent, ps, r, name, required)
  {
    CompiledSays(ps, r, name);
    CompiledPrefix(ps, r, name, |name|);
  }

  /** Global decisions follow the strongest global permission of all policies, else the parent. */
  lemma GlobalRefinesRules(parent: Authorizer, ps: seq<Policy>, g: Global, required: Perm)
    ensures DecideGlobal(Policies(parent, Compile(Merge(ps))), g, required) ==
            match Enforce(Strongest(AllGlobals(ps, g)), required)
            case Allow => true
            case Refuse => false
            case AskParent => DecideGlobal(parent, g, required)
  {
    MergedGlobalIsStrongest(ps, g);
  }

  /** The order of the policies never changes a decision. */
  lemma DecisionsIgnoreOrder(parent: Authorizer, ps: seq<Policy>, qs: seq<Policy>,
                             r: Resource, name: string, required: Perm)
    requires forall p :: p in ps <==> p in qs
    ensures Decide(Policies(parent, Compile(Merge(ps))), r, name, required)
            == SpecDecide(parent, qs, r, name, required)
  {
    MergeIgnoresOrder(ps, qs);
    AuthorizerRefinesRules(parent, qs, r, name, required);
  }

  // ---- the permission hierarchy ----

  lemma {:induction false} WriteImpliesListImpliesRead(a: Authorizer, r: Resource, name: string)
    ensures Decide(a, r, name, Write) ==> Decide(a, r, name, List)
    ensures Decide(a, r, name, List) ==> Decide(a, r, name, Read)
  {
    match a
    case Static(_, _) =>
    case Policies(parent, _) => WriteImpliesListImpliesRead(parent, r, name);
  }

  lemma {:induction false} GlobalWriteImpliesRead(a: Authorizer, g: Global)
    ensures DecideGlobal(a, g, Write) ==> DecideGlobal(a, g, Read)
    ensures Snapshot(a) == DecideGlobal(a, Acl, Write)
  {
    match a
    case Static(_, _) =>
    case Policies(parent, rules) =>
      GlobalWriteImpliesRead(parent, g);
      assert rules.Global(Acl) == rules.acl;
  }
}
