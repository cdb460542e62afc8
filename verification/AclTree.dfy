/**
  The rule trees: a leaf per stored segment, an exact and a prefix permission on
  each. A walk down a path visits the stored prefixes of a name from the shortest
  to the longest.
 */
module AclTree {
  import opened Basics
  import opened AclPolicy
  import opened AclMergeLaws

  datatype Leaf = Leaf(exact: Option<Perm>, prefix: Option<Perm>)

  type Leaves = map<string, Leaf>

  function Inserted(t: Leaves, segment: string, exact: Option<Perm>, prefix: Option<Perm>): Leaves {
    if segment in t then
      t[segment := Leaf(if exact.Some? then exact else t[segment].exact,
                        if prefix.Some? then prefix else t[segment].prefix)]
    else t[segment := Leaf(exact, prefix)]
  }

  /** The tree that two rule maps describe. */
  function TreeOf(exact: map<string, Perm>, prefix: map<string, Perm>): Leaves {
    map s | s in exact.Keys + prefix.Keys :: Leaf(Get(exact, s), Get(prefix, s))
  }

  /** The prefix permission of the longest stored prefix among the first `n` characters of a name. */
  function LongestPrefix(t: Leaves, name: string, n: nat): Option<Perm>
    requires n <= |name|
  {
    if name[..n] in t && t[name[..n]].prefix.Some? then t[name[..n]].prefix
    else if n == 0 then None
    else LongestPrefix(t, name, n - 1)
  }

  /** The exact permission of a name if it has one, else that of its longest prefix. */
  function Lookup(t: Leaves, name: string): Option<Perm> {
    if name in t && t[name].exact.Some? then t[name].exact else LongestPrefix(t, name, |name|)
  }

  predicate HasPrefixRule(t: Leaves, s: string) {
    s in t && t[s].prefix.Some?
  }

  /** The search finds the longest matching prefix rule, and nothing only if none matches. */
  lemma {:induction false} LongestPrefixIsLongest(t: Leaves, name: string, n: nat)
    requires n <= |name|
    ensures LongestPrefix(t, name, n).None? <==> forall k :: 0 <= k <= n ==> !HasPrefixRule(t, name[..k])
    ensures LongestPrefix(t, name, n).Some? ==>
              exists k :: 0 <= k <= n && HasPrefixRule(t, name[..k]) && t[name[..k]].prefix == LongestPrefix(t, name, n)
                          && forall j :: k < j <= n ==> !HasPrefixRule(t, name[..j])
  {
    if !HasPrefixRule(t, name[..n]) && n > 0 {
      LongestPrefixIsLongest(t, name, n - 1);
      if LongestPrefix(t, name, n).Some? {
        var k :| 0 <= k <= n - 1 && HasPrefixRule(t, name[..k]) && t[name[..k]].prefix == LongestPrefix(t, name, n)
                 && forall j :: k < j <= n - 1 ==> !HasPrefixRule(t, name[..j]);
        assert forall j :: k < j <= n ==> !HasPrefixRule(t, name[..j]);
      }
    }
  }

  class RadixTree {
    var leaves: Leaves

    constructor ()
      ensures leaves == map[]
    {
      leaves := map[];
    }

    method InsertPolicy(segment: string, exact: Option<Perm>, prefix: Option<Perm>)
      modifies this
      ensures leaves == Inserted(old(leaves), segment, exact, prefix)
    {
      if segment in leaves {
        var leaf := leaves[segment];
        if exact.Some? {
          leaf := leaf.(exact := exact);
        }
        if prefix.Some? {
          leaf := leaf.(prefix := prefix);
        }
        leaves := leaves[segment := leaf];
      } else {
        leaves := leaves[segment := Leaf(exact, prefix)];
      }
    }

    /** Visits the stored prefixes of the name, shortest first; an exact match ends the walk. */
    method GetPolicy(name: string) returns (policy: Perm, found: bool)
      ensures (if found then Some(policy) else None) == Lookup(leaves, name)
    {
      found, policy := false, Unset;
      for n := 0 to |name| + 1
        invariant n == 0 ==> !found
        invariant n > 0 ==> (if found then Some(policy) else None) == LongestPrefix(leaves, name, n - 1)
        invariant n == |name| + 1 ==> !(name in leaves && leaves[name].exact.Some?)
      {
        var path := name[..n];
        assert n == |name| ==> path == name;
        if path in leaves {
          var leaf := leaves[path];
          if leaf.exact.Some? && path == name {
            return leaf.exact.value, true;
          }
          if leaf.prefix.Some? {
            found, policy := true, leaf.prefix.value;
          }
        }
      }
      assert name[..|name|] == name;
    }
  }

  // ---- loading the rules ----

  /** The entries of a map that the first `i` rules have spelled out. */
  ghost function Loaded(m: map<string, Perm>, rules: seq<Rule>, i: nat): map<string, Perm>
    requires i <= |rules|
  {
    map s | s in m && Rule(s, m[s]) in rules[..i] :: m[s]
  }

  lemma LoadedMore(m: map<string, Perm>, rules: seq<Rule>, i: nat)
    requires Lists(rules, m) && i < |rules|
    ensures Loaded(m, rules, i + 1) == Loaded(m, rules, i)[rules[i].segment := rules[i].perm]
  {
  }

  lemma LoadedAll(m: map<string, Perm>, rules: seq<Rule>)
    requires Lists(rules, m)
    ensures Loaded(m, rules, |rules|) == m
  {
  }

  lemma InsertExact(exact: map<string, Perm>, r: Rule)
    ensures Inserted(TreeOf(exact, map[]), r.segment, Some(r.perm), None) == TreeOf(exact[r.segment := r.perm], map[])
  {
  }

  lemma InsertPrefix(exact: map<string, Perm>, prefix: map<string, Perm>, r: Rule)
    ensures Inserted(TreeOf(exact, prefix), r.segment, None, Some(r.perm)) == TreeOf(exact, prefix[r.segment := r.perm])
  {
  }

  /** Whatever order the rules come in, the tree is the one their maps describe. */
  method Load(exactRules: seq<Rule>, prefixRules: seq<Rule>,
              ghost exact: map<string, Perm>, ghost prefix: map<string, Perm>)
    returns (t: RadixTree)
    requires Lists(exactRules, exact) && Lists(prefixRules, prefix)
    ensures fresh(t) && t.leaves == TreeOf(exact, prefix)
  {
    t := new RadixTree();
    for i := 0 to |exactRules|
      invariant fresh(t) && t.leaves == TreeOf(Loaded(exact, exactRules, i), map[])
    {
      LoadedMore(exact, exactRules, i);
      InsertExact(Loaded(exact, exactRules, i), exactRules[i]);
      t.InsertPolicy(exactRules[i].segment, Some(exactRules[i].perm), None);
    }
    LoadedAll(exact, exactRules);
    assert Loaded(prefix, prefixRules, 0) == map[];
    for i := 0 to |prefixRules|
      invariant fresh(t) && t.leaves == TreeOf(exact, Loaded(prefix, prefixRules, i))
    {
      LoadedMore(prefix, prefixRules, i);
      InsertPrefix(exact, Loaded(prefix, prefixRules, i), prefixRules[i]);
      t.InsertPolicy(prefixRules[i].segment, None, Some(prefixRules[i].perm));
    }
    LoadedAll(prefix, prefixRules);
  }

  /** Reads a map out as a list, in no particular order. */
  method ListRules(m: map<string, Perm>) returns (rules: seq<Rule>)
    ensures Lists(rules, m)
  {
    rules := [];
    var todo := m.Keys;
    while todo != {}
      invariant todo <= m.Keys
      invariant forall i :: 0 <= i < |rules| ==> rules[i].segment in m && m[rules[i].segment] == rules[i].perm
      invariant forall s :: s in m && s !in todo ==> Rule(s, m[s]) in rules
      decreases todo
    {
      var s :| s in todo;
      rules := rules + [Rule(s, m[s])];
      todo := todo - {s};
    }
  }

  method BuildTree(exact: map<string, Perm>, prefix: map<string, Perm>) returns (t: Leaves)
    ensures t == TreeOf(exact, prefix)
  {
    var exactRules := ListRules(exact);
    var prefixRules := ListRules(prefix);
    var tree := Load(exactRules, prefixRules, exact, prefix);
    t := tree.leaves;
  }
}
