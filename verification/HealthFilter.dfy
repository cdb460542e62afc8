/**
  Dropping the service nodes that have a check that is not passing. The code works in
  place on a copy: a node that fails is overwritten by the last one still in play.
 */
module HealthFilter {

  datatype CheckServiceNode = CheckServiceNode(node: string, statuses: seq<string>)

  const HEALTH_PASSING := "passing"
  const EMPTY_NODE := CheckServiceNode("", [])

  predicate Healthy(n: CheckServiceNode) {
    forall i :: 0 <= i < |n.statuses| ==> n.statuses[i] == HEALTH_PASSING
  }

  /** The healthy nodes in their order. */
  function Passing(nodes: seq<CheckServiceNode>): seq<CheckServiceNode> {
    if nodes == [] then []
    else (if Healthy(nodes[0]) then [nodes[0]] else []) + Passing(nodes[1..])
  }

  /** Exactly the healthy nodes are kept, each as often as it occurs. */
  lemma {:induction false} PassingCounts(nodes: seq<CheckServiceNode>, n: CheckServiceNode)
    ensures multiset(Passing(nodes))[n] == if Healthy(n) then multiset(nodes)[n] else 0
  {
    if nodes != [] {
      PassingCounts(nodes[1..], n);
      assert nodes == [nodes[0]] + nodes[1..];
    }
  }

  /** What stays, when only failing nodes were set aside. */
  lemma KeptIsPassing(nodes: seq<CheckServiceNode>, kept: multiset<CheckServiceNode>, aside: multiset<CheckServiceNode>)
    requires multiset(nodes) == kept + aside
    requires forall n :: n in kept ==> Healthy(n)
    requires forall n :: n in aside ==> !Healthy(n)
    ensures kept == multiset(Passing(nodes))
  {
    forall n ensures kept[n] == multiset(Passing(nodes))[n] {
      PassingCounts(nodes, n);
      assert multiset(nodes)[n] == kept[n] + aside[n];
    }
  }

  /** The last element moved over element `i`. */
  function Dropped<T>(s: seq<T>, i: nat): seq<T>
    requires i < |s|
  {
    s[i := s[|s| - 1]][..|s| - 1]
  }

  /** Moving the last element over element `i` takes that one away. */
  lemma DroppedTakesOne<T>(s: seq<T>, i: nat)
    requires i < |s|
    ensures multiset(s) == multiset(Dropped(s, i)) + multiset{s[i]}
  {
    var last := |s| - 1;
    assert s == s[..last] + [s[last]];
    if i == last {
      assert Dropped(s, i) == s[..last];
    } else {
      assert Dropped(s, i) == s[..last][i := s[last]];
    }
  }

  /** The inner loop: looks for a check that is not passing. */
  method AllPassing(node: CheckServiceNode) returns (ok: bool)
    ensures ok == Healthy(node)
  {
    for i := 0 to |node.statuses|
      invariant forall k :: 0 <= k < i ==> node.statuses[k] == HEALTH_PASSING
    {
      if node.statuses[i] != HEALTH_PASSING {
        return false;
      }
    }
    return true;
  }

  /** Overwrites element `i` by the last of the first `n` and clears that one. */
  method Overwrite(out: array<CheckServiceNode>, i: nat, n: nat)
    requires i < n <= out.Length
    modifies out
    ensures out[..n - 1] == Dropped(old(out[..n]), i)
  {
    out[i] := out[n - 1];
    out[n - 1] := EMPTY_NODE;
  }

  /** The nodes before `i` are healthy, and all that was set aside is not. */
  ghost predicate Separated(nodes: seq<CheckServiceNode>, left: seq<CheckServiceNode>, i: int,
                            aside: multiset<CheckServiceNode>) {
    && 0 <= i <= |left|
    && (forall k :: 0 <= k < i ==> Healthy(left[k]))
    && (forall m :: m in aside ==> !Healthy(m))
    && multiset(nodes) == multiset(left) + aside
  }

  lemma DropKeepsSeparated(nodes: seq<CheckServiceNode>, left: seq<CheckServiceNode>, i: int,
                           aside: multiset<CheckServiceNode>)
    requires Separated(nodes, left, i, aside) && i < |left| && !Healthy(left[i])
    ensures Separated(nodes, Dropped(left, i), i, aside + multiset{left[i]})
  {
    DroppedTakesOne(left, i);
  }

  lemma SeparatedIsPassing(nodes: seq<CheckServiceNode>, left: seq<CheckServiceNode>, aside: multiset<CheckServiceNode>)
    requires Separated(nodes, left, |left|, aside)
    ensures multiset(left) == multiset(Passing(nodes))
  {
    KeptIsPassing(nodes, multiset(left), aside);
  }

  /** The healthy nodes, in some order; the input is left alone. */
  method FilterNonPassing(nodes: array<CheckServiceNode>) returns (r: seq<CheckServiceNode>)
    ensures multiset(r) == multiset(Passing(nodes[..]))
  {
    var n := nodes.Length;
    var out := new CheckServiceNode[n](k requires 0 <= k < nodes.Length reads nodes => nodes[k]);
    ghost var all := nodes[..];
    assert out[..n] == all;
    ghost var aside: multiset<CheckServiceNode> := multiset{};
    var i := 0;
    while i < n
      invariant n <= out.Length && Separated(all, out[..n], i, aside)
      decreases n - i
    {
      var ok := AllPassing(out[i]);
      if ok {
        i := i + 1;
      } else {
        DropKeepsSeparated(all, out[..n], i, aside);
        aside := aside + multiset{out[i]};
        Overwrite(out, i, n);
        n := n - 1;
      }
    }
    r := out[..n];
    SeparatedIsPassing(all, r, aside);
  }
}
