/**
  The additional section of a DNS response: an index of its records by lower-case
  name, and the walk from the SRV targets of the answers through CNAME links.
 */
module DnsExtra {

  datatype Data = Srv(target: string) | Cname(target: string) | Address

  datatype RR = RR(name: string, data: Data, size: nat)

  /** A record is never shorter than a root name, type, class, TTL and length: section 4.1.3 of RFC 1035. */
  type Record = r: RR | r.size >= 11 witness RR("", Address, 11)

  type Index = map<string, Record>

  function LowerChar(c: char): char {
    if 'A' <= c <= 'Z' then c - 'A' + 'a' else c
  }

  function Lower(s: string): (r: string)
    ensures |r| == |s|
  {
    seq(|s|, i requires 0 <= i < |s| => LowerChar(s[i]))
  }

  function IndexOf(rrs: seq<Record>): Index {
    if rrs == [] then map[]
    else
      var index, last := IndexOf(rrs[..|rrs| - 1]), rrs[|rrs| - 1];
      if Lower(last.name) in index then index else index[Lower(last.name) := last]
  }

  /** The index holds every name, with the first record that has it. */
  lemma {:induction false} IndexKeepsFirst(rrs: seq<Record>, i: nat)
    requires i < |rrs|
    ensures Lower(rrs[i].name) in IndexOf(rrs)
    ensures (forall j :: 0 <= j < i ==> Lower(rrs[j].name) != Lower(rrs[i].name)) ==>
              IndexOf(rrs)[Lower(rrs[i].name)] == rrs[i]
    decreases |rrs|
  {
    var init := rrs[..|rrs| - 1];
    if i < |init| {
      IndexKeepsFirst(init, i);
    } else if Lower(rrs[i].name) in IndexOf(init) {
      IndexHasSource(init, Lower(rrs[i].name));
    }
  }

  lemma {:induction false} IndexHasSource(rrs: seq<Record>, name: string)
    requires name in IndexOf(rrs)
    ensures exists i :: 0 <= i < |rrs| && Lower(rrs[i].name) == name
    decreases |rrs|
  {
    var init := rrs[..|rrs| - 1];
    if name in IndexOf(init) {
      IndexHasSource(init, name);
      var i :| 0 <= i < |init| && Lower(init[i].name) == name;
      assert rrs[i] == init[i];
    } else {
      assert Lower(rrs[|rrs| - 1].name) == name;
    }
  }

  /** Keeps the first record of each lower-case name. */
  method IndexRRs(rrs: seq<Record>) returns (index: Index)
    ensures index == IndexOf(rrs)
  {
    index := map[];
    for n := 0 to |rrs|
      invariant index == IndexOf(rrs[..n])
    {
      assert rrs[..n + 1][..n] == rrs[..n];
      var name := Lower(rrs[n].name);
      if name !in index {
        index := index[name := rrs[n]];
      }
    }
    assert rrs[..|rrs|] == rrs;
  }

  // ---- the walk ----

  /** The names resolved from one target, and all names looked at by then. */
  function Chase(index: Index, target: string, seen: set<string>): (r: (seq<string>, set<string>))
    ensures forall x :: x in r.0 ==> x in index
    decreases index.Keys - seen
  {
    if target in seen then ([], seen)
    else if target !in index then ([], seen + {target})
    else if index[target].data.Cname? then
      assert index.Keys - (seen + {target}) < index.Keys - seen;
      var (rest, seen') := Chase(index, Lower(index[target].data.target), seen + {target});
      ([target] + rest, seen')
    else ([target], seen + {target})
  }

  /** The names resolved for a list of answers, in order, and all names looked at. */
  function Sync(index: Index, answers: seq<Record>): (r: (seq<string>, set<string>))
    ensures forall x :: x in r.0 ==> x in index
  {
    if answers == [] then ([], {})
    else
      var last := answers[|answers| - 1];
      var (names, seen) := Sync(index, answers[..|answers| - 1]);
      if last.data.Srv? then
        var (more, seen') := Chase(index, Lower(last.data.target), seen);
        (names + more, seen')
      else (names, seen)
  }

  function Records(index: Index, names: seq<string>): (r: seq<Record>)
    requires forall x :: x in names ==> x in index
    ensures |r| == |names| && forall i :: 0 <= i < |r| ==> r[i] == index[names[i]]
  {
    seq(|names|, i requires 0 <= i < |names| => index[names[i]])
  }

  function Extras(index: Index, answers: seq<Record>): seq<Record> {
    Records(index, Sync(index, answers).0)
  }

  /** The resolve loop of one SRV record. */
  method Resolve(index: Index, target: string, seen: set<string>, extra: seq<Record>)
    returns (seen': set<string>, extra': seq<Record>)
    ensures var (names, s) := Chase(index, target, seen); seen' == s && extra' == extra + Records(index, names)
  {
    var at := target;
    seen', extra' := seen, extra;
    while at !in seen'
      invariant var (names, s) := Chase(index, at, seen');
                var (names0, s0) := Chase(index, target, seen);
                s == s0 && extra' + Records(index, names) == extra + Records(index, names0)
      decreases index.Keys - seen'
    {
      ghost var before := seen';
      seen' := seen' + {at};
      if at !in index {
        return;
      }
      ghost var done := extra';
      extra' := extra' + [index[at]];
      if !index[at].data.Cname? {
        assert Records(index, [at]) == [index[at]];
        return;
      }
      ghost var rest := Chase(index, Lower(index[at].data.target), seen').0;
      assert Records(index, [at] + rest) == [index[at]] + Records(index, rest);
      assert done + ([index[at]] + Records(index, rest)) == extra' + Records(index, rest);
      assert index.Keys - seen' < index.Keys - before;
      at := Lower(index[at].data.target);
    }
    assert Records(index, []) == [];
  }

  method SyncExtra(index: Index, answers: seq<Record>) returns (extra: seq<Record>)
    ensures extra == Extras(index, answers)
  {
    extra := [];
    var resolved := {};
    for n := 0 to |answers|
      invariant resolved == Sync(index, answers[..n]).1
      invariant extra == Extras(index, answers[..n])
    {
      assert answers[..n + 1][..n] == answers[..n];
      if answers[n].data.Srv? {
        ghost var names := Sync(index, answers[..n]).0;
        ghost var more := Chase(index, Lower(answers[n].data.target), resolved).0;
        resolved, extra := Resolve(index, Lower(answers[n].data.target), resolved, extra);
        assert Records(index, names + more) == Records(index, names) + Records(index, more);
      }
    }
    assert answers[..|answers|] == answers;
  }
}
