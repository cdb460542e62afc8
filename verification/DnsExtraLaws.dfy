/**
  The additional section is exactly the indexed records reachable from the SRV
  targets, each name once, and it only grows when answers are added.
 */
module DnsExtraLaws {
  import opened Basics
  import opened DnsExtra

  /** The names that the answers ask for. */
  function Targets(answers: seq<Record>): set<string> {
    set i | 0 <= i < |answers| && answers[i].data.Srv? :: Lower(answers[i].data.target)
  }

  predicate Link(index: Index, from: string, to: string) {
    from in index && index[from].data.Cname? && Lower(index[from].data.target) == to
  }

  /** A chain of CNAME links from a requested name. */
  predicate IsChain(index: Index, roots: set<string>, path: seq<string>) {
    && path != [] && path[0] in roots
    && forall i :: 0 <= i < |path| - 1 ==> Link(index, path[i], path[i + 1])
  }

  ghost predicate Reachable(index: Index, roots: set<string>, name: string) {
    exists path :: IsChain(index, roots, path) && path[|path| - 1] == name
  }

  lemma ReachableLink(index: Index, roots: set<string>, from: string, to: string)
    requires Reachable(index, roots, from) && Link(index, from, to)
    ensures Reachable(index, roots, to)
  {
    var path :| IsChain(index, roots, path) && path[|path| - 1] == from;
    var longer := path + [to];
    assert IsChain(index, roots, longer) && longer[|longer| - 1] == to;
  }

  lemma ReachableMore(index: Index, roots: set<string>, more: set<string>, name: string)
    requires roots <= more && Reachable(index, roots, name)
    ensures Reachable(index, more, name)
  {
  }

  // ---- one walk ----

  /** What one walk adds: its new names, each once, are the indexed names it newly looked at. */
  lemma {:induction false} ChaseAdds(index: Index, target: string, seen: set<string>)
    ensures var (names, seen') := Chase(index, target, seen);
            && target in seen' && seen <= seen'
            && (forall x :: x in names ==> x in seen' && x !in seen)
            && (forall x :: x in seen' && x !in seen && x in index ==> x in names)
            && Distinct(names)
    decreases index.Keys - seen
  {
    if target !in seen && target in index && index[target].data.Cname? {
      assert index.Keys - (seen + {target}) < index.Keys - seen;
      ChaseAdds(index, Lower(index[target].data.target), seen + {target});
    }
  }

  /** The names of one walk come in the order of the links, from the target on. */
  lemma {:induction false} ChaseFollowsLinks(index: Index, target: string, seen: set<string>)
    ensures var names := Chase(index, target, seen).0;
            && (names != [] ==> names[0] == target)
            && forall i :: 0 <= i < |names| - 1 ==> Link(index, names[i], names[i + 1])
    decreases index.Keys - seen
  {
    if target !in seen && target in index && index[target].data.Cname? {
      assert index.Keys - (seen + {target}) < index.Keys - seen;
      ChaseFollowsLinks(index, Lower(index[target].data.target), seen + {target});
    }
  }

  lemma {:induction false} ChaseSound(index: Index, target: string, seen: set<string>, roots: set<string>)
    requires Reachable(index, roots, target) && forall x :: x in seen ==> Reachable(index, roots, x)
    ensures forall x :: x in Chase(index, target, seen).1 ==> Reachable(index, roots, x)
    decreases index.Keys - seen
  {
    if target !in seen && target in index && index[target].data.Cname? {
      assert index.Keys - (seen + {target}) < index.Keys - seen;
      ReachableLink(index, roots, target, Lower(index[target].data.target));
      ChaseSound(index, Lower(index[target].data.target), seen + {target}, roots);
    }
  }

  /** Every link out of a name that the walk newly looked at leads to a name it has looked at. */
  lemma {:induction false} ChaseCloses(index: Index, target: string, seen: set<string>)
    ensures var seen' := Chase(index, target, seen).1;
            forall x, y :: x in seen' && x !in seen && Link(index, x, y) ==> y in seen'
    decreases index.Keys - seen
  {
    if target !in seen && target in index && index[target].data.Cname? {
      assert index.Keys - (seen + {target}) < index.Keys - seen;
      var next := Lower(index[target].data.target);
      ChaseCloses(index, next, seen + {target});
      ChaseAdds(index, next, seen + {target});
    }
  }

  // ---- all answers ----

  ghost predicate Closed(index: Index, s: set<string>) {
    forall x, y :: x in s && Link(index, x, y) ==> y in s
  }

  lemma TargetsSnoc(answers: seq<Record>)
    requires answers != []
    ensures var last := answers[|answers| - 1];
            Targets(answers)
            == Targets(answers[..|answers| - 1]) + (if last.data.Srv? then {Lower(last.data.target)} else {})
  {
  }

  lemma DistinctAppend(a: seq<string>, b: seq<string>)
    requires Distinct(a) && Distinct(b) && forall x :: x in b ==> x !in a
    ensures Distinct(a + b)
  {
    forall i, j | 0 <= i < j < |a + b| ensures (a + b)[i] != (a + b)[j] {
      if i < |a| <= j {
        assert a[i] in a && b[j - |a|] in b;
      }
    }
  }

  lemma {:induction false} SyncShape(index: Index, answers: seq<Record>)
    ensures var (names, seen) := Sync(index, answers);
            && Targets(answers) <= seen && Closed(index, seen)
            && (forall x :: x in names <==> x in seen && x in index)
            && Distinct(names)
    decreases |answers|
  {
    if answers != [] {
      var init, last := answers[..|answers| - 1], answers[|answers| - 1];
      SyncShape(index, init);
      TargetsSnoc(answers);
      if last.data.Srv? {
        var seen := Sync(index, init).1;
        ChaseAdds(index, Lower(last.data.target), seen);
        ChaseCloses(index, Lower(last.data.target), seen);
        DistinctAppend(Sync(index, init).0, Chase(index, Lower(last.data.target), seen).0);
      }
    }
  }

  lemma {:induction false} SyncSound(index: Index, answers: seq<Record>, x: string)
    requires x in Sync(index, answers).1
    ensures Reachable(index, Targets(answers), x)
    decreases |answers|
  {
    var init, last := answers[..|answers| - 1], answers[|answers| - 1];
    TargetsSnoc(answers);
    var seen := Sync(index, init).1;
    forall y | y in seen ensures Reachable(index, Targets(answers), y) {
      SyncSound(index, init, y);
      ReachableMore(index, Targets(init), Targets(answers), y);
    }
    if last.data.Srv? {
      var root := Lower(last.data.target);
      assert IsChain(index, Targets(answers), [root]) && [root][0] == root;
      ChaseSound(index, root, seen, Targets(answers));
    }
  }

  lemma {:induction false} ChainStaysIn(index: Index, roots: set<string>, path: seq<string>, s: set<string>)
    requires IsChain(index, roots, path) && roots <= s && Closed(index, s)
    ensures path[|path| - 1] in s
    decreases |path|
  {
    if |path| > 1 {
      var shorter := path[..|path| - 1];
      assert IsChain(index, roots, shorter);
      ChainStaysIn(index, roots, shorter, s);
      assert Link(index, path[|path| - 2], path[|path| - 1]);
    }
  }

  /**
    For every index, also one with CNAME cycles, the resolved names are exactly the
    indexed names reachable from the SRV targets, and no name is listed twice.
   */
  lemma SyncIsReachability(index: Index, answers: seq<Record>, name: string)
    ensures name in Sync(index, answers).0 <==> name in index && Reachable(index, Targets(answers), name)
    ensures Distinct(Sync(index, answers).0)
  {
    SyncShape(index, answers);
    if name in Sync(index, answers).1 {
      SyncSound(index, answers, name);
    }
    if Reachable(index, Targets(answers), name) {
      var path :| IsChain(index, Targets(answers), path) && path[|path| - 1] == name;
      ChainStaysIn(index, Targets(answers), path, Sync(index, answers).1);
    }
  }

  /** The extras of the first answers are the first extras of all answers. */
  lemma {:induction false} ExtrasArePrefix(index: Index, answers: seq<Record>, m: nat, n: nat)
    requires m <= n <= |answers|
    ensures Extras(index, answers[..m]) <= Extras(index, answers[..n])
    decreases n - m
  {
    if m < n {
      ExtrasArePrefix(index, answers, m, n - 1);
      assert answers[..n][..n - 1] == answers[..n - 1];
    }
  }

  /** With nothing indexed there is nothing to add. */
  lemma {:induction false} NoIndexNoExtras(answers: seq<Record>)
    ensures Extras(map[], answers) == []
    decreases |answers|
  {
    if answers != [] {
      NoIndexNoExtras(answers[..|answers| - 1]);
    }
  }
}
