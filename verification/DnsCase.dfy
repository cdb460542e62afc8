/** Names are compared without regard to case: spelling one differently changes nothing. */
module DnsCase {
  import opened DnsExtra
  import opened DnsAddr
  import DnsExtraLaws

  /** The same letter, or one the capital of the other. */
  predicate SameLetter(c: char, d: char) {
    || c == d
    || ('A' <= c <= 'Z' && d as int == c as int + 32)
    || ('A' <= d <= 'Z' && c as int == d as int + 32)
  }

  predicate SameName(a: string, b: string) {
    |a| == |b| && forall i :: 0 <= i < |a| ==> SameLetter(a[i], b[i])
  }

  /** Two names have one lower-case form exactly if they differ in the case of letters only. */
  lemma LowerIgnoresCase(a: string, b: string)
    ensures Lower(a) == Lower(b) <==> SameName(a, b)
  {
    if Lower(a) == Lower(b) {
      forall i | 0 <= i < |a| ensures SameLetter(a[i], b[i]) {
        assert Lower(a)[i] == Lower(b)[i];
      }
    }
  }

  /** The lower-case form has no capitals, and a name without capitals is its own. */
  lemma LowerHasNoCapitals(s: string)
    ensures forall i :: 0 <= i < |s| ==> !('A' <= Lower(s)[i] <= 'Z')
    ensures Lower(s) == s <==> forall i :: 0 <= i < |s| ==> !('A' <= s[i] <= 'Z')
  {
    if Lower(s) == s {
      forall i | 0 <= i < |s| ensures !('A' <= s[i] <= 'Z') {
        assert Lower(s)[i] == s[i];
      }
    }
  }

  // ---- records ----

  predicate SameData(a: Data, b: Data) {
    match a
    case Srv(t) => b.Srv? && SameName(t, b.target)
    case Cname(t) => b.Cname? && SameName(t, b.target)
    case Address => b.Address?
  }

  /** The same records, with the names and targets in any case. */
  predicate Respelled(a: seq<Record>, b: seq<Record>) {
    |a| == |b| && forall i :: 0 <= i < |a| ==> SameName(a[i].name, b[i].name) && SameData(a[i].data, b[i].data)
  }

  ghost predicate SameIndex(a: Index, b: Index) {
    a.Keys == b.Keys && forall k :: k in a ==> SameData(a[k].data, b[k].data)
  }

  lemma {:induction false} IndexIgnoresCase(a: seq<Record>, b: seq<Record>)
    requires Respelled(a, b)
    ensures SameIndex(IndexOf(a), IndexOf(b))
    decreases |a|
  {
    if a != [] {
      var n := |a| - 1;
      assert b != [] && Respelled(a[..n], b[..n]);
      IndexIgnoresCase(a[..n], b[..n]);
      LowerIgnoresCase(a[n].name, b[n].name);
    }
  }

  lemma {:induction false} ChaseIgnoresCase(a: Index, b: Index, target: string, seen: set<string>)
    requires SameIndex(a, b)
    ensures Chase(a, target, seen) == Chase(b, target, seen)
    decreases a.Keys - seen
  {
    if target !in seen && target in a && a[target].data.Cname? {
      assert a.Keys - (seen + {target}) < a.Keys - seen;
      LowerIgnoresCase(a[target].data.target, b[target].data.target);
      ChaseIgnoresCase(a, b, Lower(a[target].data.target), seen + {target});
    }
  }

  /** Spelling targets, record names or links in another case resolves the same names. */
  lemma {:induction false} SyncIgnoresCase(a: Index, b: Index, answers: seq<Record>, others: seq<Record>)
    requires SameIndex(a, b) && Respelled(answers, others)
    ensures Sync(a, answers) == Sync(b, others)
    decreases |answers|
  {
    if answers != [] {
      var n := |answers| - 1;
      assert others != [] && Respelled(answers[..n], others[..n]);
      SyncIgnoresCase(a, b, answers[..n], others[..n]);
      if answers[n].data.Srv? {
        LowerIgnoresCase(answers[n].data.target, others[n].data.target);
        ChaseIgnoresCase(a, b, Lower(answers[n].data.target), Sync(a, answers[..n]).1);
      }
    }
  }

  /** The record a target names is kept, whatever the case of either. */
  lemma TargetKept(extra: seq<Record>, answers: seq<Record>, i: nat, j: nat)
    requires i < |answers| && answers[i].data.Srv? && j < |extra| && SameName(answers[i].data.target, extra[j].name)
    ensures Lower(extra[j].name) in Sync(IndexOf(extra), answers).0
  {
    LowerIgnoresCase(answers[i].data.target, extra[j].name);
    IndexKeepsFirst(extra, j);
    TargetResolved(IndexOf(extra), answers, i);
  }

  lemma {:induction false} TargetResolved(index: Index, answers: seq<Record>, i: nat)
    requires i < |answers| && answers[i].data.Srv? && Lower(answers[i].data.target) in index
    ensures Lower(answers[i].data.target) in Sync(index, answers).0
    decreases |answers|
  {
    DnsExtraLaws.SyncShape(index, answers);
    assert Lower(answers[i].data.target) in DnsExtraLaws.Targets(answers);
  }


  // ---- questions ----

  lemma {:induction false} EscapesIgnoreCase(a: string, b: string, i: nat)
    requires SameName(a, b) && i <= |a|
    ensures Escapes(a, i) == Escapes(b, i)
  {
    if i > 0 {
      EscapesIgnoreCase(a, b, i - 1);
    }
  }

  /** A question is answered the same in any case. */
  lemma DispatchIgnoresCase(d: Server, a: string, b: string, srv: bool)
    requires SameName(a, b)
    ensures Dispatch(d, a, srv) == Dispatch(d, b, srv)
  {
    if a != "" {
      EscapesIgnoreCase(a, b, |a| - 1);
    }
    assert IsFqdn(a) == IsFqdn(b);
    assert SameName(Fqdn(a), Fqdn(b));
    LowerIgnoresCase(Fqdn(a), Fqdn(b));
  }
}
