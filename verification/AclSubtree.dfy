/** The "may the whole subtree be written" question and why its answer is safe. */
module AclSubtree {
  import opened Basics
  import opened AclPolicy
  import opened AclMergeLaws
  import opened AclTree
  import opened AclAuthorizer

  predicate KeyWrite(a: Authorizer, key: string) {
    Decide(a, Named(Key), key, Write)
  }

  predicate GrantsWrite(rule: Option<Perm>) {
    rule.Some? ==> rule.value == Write
  }

  /** Some rule at or below the prefix grants less than write. */
  predicate DeniedBelow(t: Leaves, prefix: string) {
    exists s :: s in t && prefix <= s && !(GrantsWrite(t[s].prefix) && GrantsWrite(t[s].exact))
  }

  predicate KeyWritePrefix(a: Authorizer, prefix: string) {
    match a
    case Static(_, defaultAllow) => defaultAllow
    case Policies(parent, rules) =>
      var t := rules.Tree(Named(Key));
      var above := LongestPrefix(t, prefix, |prefix|);
      var parentAllows := KeyWritePrefix(parent, prefix);
      if !(if above.Some? then above.value == Write else parentAllows) then false
      else if DeniedBelow(t, prefix) then false
      else above.Some? || parentAllows
  }

  /** The two walks: down the path to the prefix, then over everything below it. */
  method CheckKeyWritePrefix(a: Authorizer, prefix: string) returns (allowed: bool)
    ensures allowed == KeyWritePrefix(a, prefix)
    decreases a
  {
    if a.Static? {
      return a.defaultAllow;
    }
    var parentAllows := CheckKeyWritePrefix(a.parent, prefix);
    var prefixAllowed, found := parentAllows, false;
    var t := a.rules.Tree(Named(Key));
    for n := 0 to |prefix| + 1
      invariant n == 0 ==> !found && prefixAllowed == parentAllows
      invariant n > 0 ==> found == LongestPrefix(t, prefix, n - 1).Some?
      invariant n > 0 ==>
                  prefixAllowed == if found then LongestPrefix(t, prefix, n - 1).value == Write else parentAllows
    {
      if prefix[..n] in t && t[prefix[..n]].prefix.Some? {
        found := true;
        prefixAllowed := t[prefix[..n]].prefix.value == Write;
      }
    }
    if !prefixAllowed {
      return false;
    }
    var todo := t.Keys;
    while todo != {}
      invariant todo <= t.Keys
      invariant forall s :: s in t && s !in todo && prefix <= s ==>
                  GrantsWrite(t[s].prefix) && GrantsWrite(t[s].exact)
      decreases todo
    {
      var s :| s in todo;
      if prefix <= s {
        if t[s].prefix.Some? && t[s].prefix.value != Write {
          return false;
        }
        if t[s].exact.Some? && t[s].exact.value != Write {
          return false;
        }
      }
      todo := todo - {s};
    }
    return found || parentAllows;
  }

  // ---- longest prefixes of a name and of its extensions ----

  /** Where the longest prefix of an extension comes from: below the prefix, or the prefix's own. */
  lemma {:induction false} ExtensionPrefix(t: Leaves, prefix: string, name: string, n: nat)
    requires prefix <= name && |prefix| <= n <= |name|
    ensures var found := LongestPrefix(t, name, n);
            || found == LongestPrefix(t, prefix, |prefix|)
            || exists s :: s in t && prefix <= s && t[s].prefix == found && found.Some?
  {
    if name[..n] in t && t[name[..n]].prefix.Some? {
      assert prefix <= name[..n];
    } else if n > |prefix| {
      ExtensionPrefix(t, prefix, name, n - 1);
    } else if n > 0 {
      assert name[..n] == prefix[..n];
      SamePrefixes(t, prefix, name, n - 1);
    } else {
      assert name[..n] == prefix[..n];
    }
  }

  lemma {:induction false} SamePrefixes(t: Leaves, prefix: string, name: string, n: nat)
    requires prefix <= name && n <= |prefix|
    ensures LongestPrefix(t, name, n) == LongestPrefix(t, prefix, n)
  {
    assert name[..n] == prefix[..n];
    if n > 0 {
      SamePrefixes(t, prefix, name, n - 1);
    }
  }

  // ---- soundness ----

  /** If the subtree may be written, so may every key in it, whatever the chain of rules. */
  lemma {:induction false} SubtreeWriteIsSound(a: Authorizer, prefix: string, key: string)
    requires KeyWritePrefix(a, prefix) && prefix <= key
    ensures KeyWrite(a, key)
  {
    match a
    case Static(_, _) =>
    case Policies(parent, rules) =>
      var t := rules.Tree(Named(Key));
      ExtensionPrefix(t, prefix, key, |key|);
      if LongestPrefix(t, prefix, |prefix|).None? {
        SubtreeWriteIsSound(parent, prefix, key);
      }
  }

  /** If the subtree may be written, so may every smaller subtree inside it. */
  lemma {:induction false} SubtreeWriteDescends(a: Authorizer, prefix: string, longer: string)
    requires KeyWritePrefix(a, prefix) && prefix <= longer
    ensures KeyWritePrefix(a, longer)
  {
    match a
    case Static(_, _) =>
    case Policies(parent, rules) =>
      var t := rules.Tree(Named(Key));
      ExtensionPrefix(t, prefix, longer, |longer|);
      if LongestPrefix(t, prefix, |prefix|).None? {
        SubtreeWriteDescends(parent, prefix, longer);
      }
      assert DeniedBelow(t, longer) ==> DeniedBelow(t, prefix);
  }

  // ---- the answer is conservative ----

  function KeyRules(segment: string, perm: Perm): RuleSet {
    var none: Leaves := map[];
    RuleSet(Unset, Unset, Unset,
            Sections(none, map[segment := Leaf(None, Some(perm))], none, none, none, none), none, none)
  }

  /** A chain that lets every key under "a" be written, by overriding its parent under "ax". */
  const OVERRIDING := Policies(Policies(Static(false, true), KeyRules("ax", Read)), KeyRules("ax", Write))

  lemma {:induction false} OneRuleLookup(perm: Perm, name: string, n: nat)
    requires n <= |name|
    ensures var t := KeyRules("ax", perm).Tree(Named(Key));
            LongestPrefix(t, name, n) == if "ax" <= name[..n] then Some(perm) else None
  {
    if name[..n] != "ax" && n > 0 {
      OneRuleLookup(perm, name, n - 1);
      assert "ax" <= name[..n] <==> "ax" <= name[..n - 1];
    }
  }

  /** The subtree may be refused although every key in it may be written. */
  lemma SubtreeAnswerIsConservative()
    ensures !KeyWritePrefix(OVERRIDING, "a")
    ensures forall key :: "a" <= key ==> KeyWrite(OVERRIDING, key)
  {
    OneRuleLookup(Write, "a", 1);
    OneRuleLookup(Read, "a", 1);
    assert "a"[..1] == "a";
    var t := OVERRIDING.parent.rules.Tree(Named(Key));
    assert "ax" in t && "a" <= "ax" && !GrantsWrite(t["ax"].prefix);
    assert DeniedBelow(t, "a");
    forall key | "a" <= key ensures KeyWrite(OVERRIDING, key) {
      OneRuleLookup(Write, key, |key|);
      OneRuleLookup(Read, key, |key|);
      assert key[..|key|] == key;
      assert Decide(OVERRIDING.parent.parent, Named(Key), key, Write);
      assert !("ax" <= key) ==> KeyWrite(OVERRIDING.parent, key);
    }
  }

  // ---- when it is exact ----

  /** Every key that starts with the prefix may be written. */
  ghost predicate AllWritable(a: Authorizer, prefix: string) {
    forall key :: prefix <= key ==> KeyWrite(a, key)
  }

  /** The same in the chain, and in every parent it falls back to for the prefix itself. */
  ghost predicate EveryLevel(a: Authorizer, prefix: string) {
    && AllWritable(a, prefix)
    && (a.Policies? && LongestPrefix(a.rules.Tree(Named(Key)), prefix, |prefix|).None? ==>
          EveryLevel(a.parent, prefix))
  }

  /** The rules set no permission to `Unset`, and the character occurs in none of their segments. */
  ghost predicate PlainTree(t: Leaves, c: char) {
    forall s :: s in t ==> c !in s && t[s].exact != Some(Unset) && t[s].prefix != Some(Unset)
  }

  ghost predicate PlainChain(a: Authorizer, c: char) {
    a.Policies? ==> PlainTree(a.rules.Tree(Named(Key)), c) && PlainChain(a.parent, c)
  }

  /** A name that goes on with an unused character has the prefix rules of the name without it. */
  lemma FreshExtension(t: Leaves, c: char, s: string)
    requires PlainTree(t, c)
    ensures Lookup(t, s + [c]) == LongestPrefix(t, s, |s|)
  {
    var name := s + [c];
    assert name[|s|] == c && name[..|name|] == name;
    assert name !in t;
    assert name[..|s|] == s;
    SamePrefixes(t, s, name, |s|);
  }

  /** The rule found for an unused extension decides: write, or the parent where there is none. */
  lemma FreshExtensionDecides(a: Authorizer, c: char, s: string)
    requires a.Policies? && PlainTree(a.rules.Tree(Named(Key)), c) && KeyWrite(a, s + [c])
    ensures match LongestPrefix(a.rules.Tree(Named(Key)), s, |s|)
            case None => KeyWrite(a.parent, s + [c])
            case Some(p) => p == Write
  {
    var t := a.rules.Tree(Named(Key));
    FreshExtension(t, c, s);
    PrefixRuleIsSet(t, c, s, |s|);
  }

  lemma {:induction false} PrefixRuleIsSet(t: Leaves, c: char, name: string, n: nat)
    requires PlainTree(t, c) && n <= |name|
    ensures LongestPrefix(t, name, n) != Some(Unset)
  {
    if n > 0 {
      PrefixRuleIsSet(t, c, name, n - 1);
    }
  }

  /** If all keys below a prefix may be written, no rule there grants less. */
  lemma NothingDeniedBelow(a: Authorizer, c: char, prefix: string)
    requires a.Policies? && PlainTree(a.rules.Tree(Named(Key)), c) && AllWritable(a, prefix)
    ensures !DeniedBelow(a.rules.Tree(Named(Key)), prefix)
  {
    var t := a.rules.Tree(Named(Key));
    forall s | s in t && prefix <= s ensures GrantsWrite(t[s].prefix) && GrantsWrite(t[s].exact) {
      assert KeyWrite(a, s);
      assert prefix <= s + [c];
      FreshExtensionDecides(a, c, s);
      assert s[..|s|] == s;
    }
  }

  /**
    With some character that no key rule uses, the subtree answer is exact: it is yes if
    and only if every key below the prefix may be written, at every level of the chain
    that the prefix itself falls through to.
   */
  lemma {:induction false} SubtreeAnswerIsExact(a: Authorizer, c: char, prefix: string)
    requires PlainChain(a, c)
    ensures KeyWritePrefix(a, prefix) <==> EveryLevel(a, prefix)
  {
    if KeyWritePrefix(a, prefix) {
      forall key | prefix <= key ensures KeyWrite(a, key) {
        SubtreeWriteIsSound(a, prefix, key);
      }
    }
    match a
    case Static(_, _) =>
      assert EveryLevel(a, prefix) ==> KeyWrite(a, prefix);
    case Policies(parent, rules) =>
      SubtreeAnswerIsExact(parent, c, prefix);
      if EveryLevel(a, prefix) {
        NothingDeniedBelow(a, c, prefix);
        assert prefix <= prefix + [c];
        FreshExtensionDecides(a, c, prefix);
      }
  }

  /** For one set of rules over a default the answer is yes exactly when every key below may be written. */
  lemma SingleLevelIsExact(allowManage: bool, defaultAllow: bool, rules: RuleSet, c: char, prefix: string)
    requires PlainTree(rules.Tree(Named(Key)), c)
    ensures var a := Policies(Static(allowManage, defaultAllow), rules);
            KeyWritePrefix(a, prefix) <==> AllWritable(a, prefix)
  {
    var a := Policies(Static(allowManage, defaultAllow), rules);
    SubtreeAnswerIsExact(a, c, prefix);
    if AllWritable(a, prefix) {
      assert prefix <= prefix + [c];
      FreshExtensionDecides(a, c, prefix);
    }
  }

  /** Policies as the parser admits them compile to such rules, for a character in none of their key segments. */
  lemma CompiledTreeIsPlain(ps: seq<Policy>, c: char)
    requires forall p, exact :: p in ps ==> AdmittedRules(RulesOf(p, Plain(exact, Key)), Plain(exact, Key))
    requires forall exact, i :: 0 <= i < |AllRules(ps, Plain(exact, Key))| ==>
               c !in AllRules(ps, Plain(exact, Key))[i].segment
    ensures PlainTree(Compile(Merge(ps)).Tree(Named(Key)), c)
  {
    var t := Compile(Merge(ps)).Tree(Named(Key));
    forall s | s in t ensures c !in s && t[s].exact != Some(Unset) && t[s].prefix != Some(Unset) {
      CompiledNamed(Merge(ps), Key);
      SegmentIsPlain(ps, true, c, s);
      SegmentIsPlain(ps, false, c, s);
    }
  }

  lemma SegmentIsPlain(ps: seq<Policy>, exact: bool, c: char, s: string)
    requires forall p :: p in ps ==> AdmittedRules(RulesOf(p, Plain(exact, Key)), Plain(exact, Key))
    requires forall i :: 0 <= i < |AllRules(ps, Plain(exact, Key))| ==>
               c !in AllRules(ps, Plain(exact, Key))[i].segment
    ensures var m := MapOf(Merge(ps), Plain(exact, Key)); s in m ==> c !in s && m[s] != Unset
  {
    var f := Plain(exact, Key);
    MergeKeepsAdmitted(ps, f, s);
    MergeIsStrongest(ps, f, s);
    if s in MapOf(Merge(ps), f) {
      var p :| p in PermsAt(AllRules(ps, f), s);
    }
  }

  /** What one call of the constructor over a default builds answers exactly. */
  lemma CompiledSubtreeIsExact(allowManage: bool, defaultAllow: bool, ps: seq<Policy>, c: char, prefix: string)
    requires forall p, exact :: p in ps ==> AdmittedRules(RulesOf(p, Plain(exact, Key)), Plain(exact, Key))
    requires forall exact, i :: 0 <= i < |AllRules(ps, Plain(exact, Key))| ==>
               c !in AllRules(ps, Plain(exact, Key))[i].segment
    ensures var a := Policies(Static(allowManage, defaultAllow), Compile(Merge(ps)));
            KeyWritePrefix(a, prefix) <==> AllWritable(a, prefix)
  {
    CompiledTreeIsPlain(ps, c);
    SingleLevelIsExact(allowManage, defaultAllow, Compile(Merge(ps)), c, prefix);
  }
}
