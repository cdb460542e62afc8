/** The agent's table of listener ports for exposed checks. */
module Ports {

  datatype Result<E> = Ok(port: int) | Err(error: E)

  /** Port `p` of the half-open range is not among the ports of the table. */
  ghost predicate Free(p: int, lo: int, hi: int, taken: set<int>) {
    lo <= p < hi && p !in taken
  }

  /** The least free port. */
  ghost predicate Lowest(p: int, lo: int, hi: int, taken: set<int>) {
    Free(p, lo, hi, taken) && forall q :: Free(q, lo, hi, taken) ==> p <= q
  }

  /** The key of a check's entry: the service and check IDs joined by a colon. */
  function Key(svcId: string, checkId: string): string {
    svcId + ":" + checkId
  }

  /** The other pair was cut from the same text at a later colon. */
  ghost predicate CutLater(s1: string, c1: string, s2: string, c2: string) {
    exists m: string :: s2 == s1 + ":" + m && c1 == m + ":" + c2
  }

  lemma CutAt(s1: string, c1: string, s2: string, c2: string)
    requires Key(s1, c1) == Key(s2, c2) && |s1| < |s2|
    ensures CutLater(s1, c1, s2, c2)
  {
    var key := Key(s1, c1);
    var m := s2[|s1| + 1..];
    assert s2 == key[..|s2|] && key[|s1|] == ':';
    assert s2 == s1 + ":" + m;
    assert key == s1 + ":" + (m + ":" + c2);
    assert c1 == key[|s1| + 1..] == m + ":" + c2;
  }

  lemma CutLaterCollides(s1: string, c1: string, s2: string, c2: string)
    requires CutLater(s1, c1, s2, c2)
    ensures Key(s1, c1) == Key(s2, c2) && s1 != s2
  {
  }

  /** Two checks share an entry exactly when one pair re-cuts the other at another colon. */
  lemma KeysCollide(s1: string, c1: string, s2: string, c2: string)
    ensures Key(s1, c1) == Key(s2, c2)
       <==> (s1 == s2 && c1 == c2) || CutLater(s1, c1, s2, c2) || CutLater(s2, c2, s1, c1)
  {
    if CutLater(s1, c1, s2, c2) {
      CutLaterCollides(s1, c1, s2, c2);
    } else if CutLater(s2, c2, s1, c1) {
      CutLaterCollides(s2, c2, s1, c1);
    } else if Key(s1, c1) == Key(s2, c2) {
      if |s1| < |s2| {
        CutAt(s1, c1, s2, c2);
      } else if |s2| < |s1| {
        CutAt(s2, c2, s1, c1);
      } else {
        assert s1 == Key(s1, c1)[..|s1|] == s2;
        assert c1 == Key(s1, c1)[|s1| + 1..] == c2;
      }
    }
  }

  /** Two different checks with one key. */
  lemma CollidingChecks()
    ensures Key("a:b", "c") == Key("a", "b:c")
  {
  }

  lemma CutLaterHasColon(s1: string, c1: string, s2: string, c2: string)
    ensures CutLater(s1, c1, s2, c2) ==> ':' in s2
  {
  }

  /** Service IDs without a colon never collide. */
  lemma PlainKeysDistinct(s1: string, c1: string, s2: string, c2: string)
    requires ':' !in s1 && ':' !in s2 && Key(s1, c1) == Key(s2, c2)
    ensures s1 == s2 && c1 == c2
  {
    KeysCollide(s1, c1, s2, c2);
    CutLaterHasColon(s1, c1, s2, c2);
    CutLaterHasColon(s2, c2, s1, c1);
  }

  /** No two entries share a port, and all ports are in the range. */
  ghost predicate Exclusive(ports: map<string, int>, lo: int, hi: int) {
    && (forall k :: k in ports ==> lo <= ports[k] < hi)
    && (forall k1, k2 :: k1 in ports && k2 in ports && ports[k1] == ports[k2] ==> k1 == k2)
  }

  /** The ports of a half-open range. */
  ghost function Range(lo: int, hi: int): (s: set<int>)
    ensures forall p :: p in s <==> lo <= p < hi
    ensures |s| == if lo < hi then hi - lo else 0
    decreases hi - lo
  {
    if lo < hi then {lo} + Range(lo + 1, hi) else {}
  }

  lemma {:induction false} ValuesCount(ports: map<string, int>)
    requires forall k1, k2 :: k1 in ports && k2 in ports && ports[k1] == ports[k2] ==> k1 == k2
    ensures |ports.Values| == |ports|
    decreases |ports|
  {
    if ports != map[] {
      var k :| k in ports;
      var rest := ports - {k};
      assert ports.Keys == rest.Keys + {k};
      assert ports.Values == rest.Values + {ports[k]};
      ValuesCount(rest);
    }
  }

  lemma SubsetCount(a: set<int>, b: set<int>)
    requires a <= b
    ensures |a| <= |b| && (|a| == |b| ==> a == b)
  {
    assert b == a + (b - a);
  }

  function Room(lo: int, hi: int): nat {
    if lo < hi then hi - lo else 0
  }

  /** A port is free exactly while the table has fewer entries than the range has ports. */
  lemma FreeIffRoom(ports: map<string, int>, lo: int, hi: int)
    requires Exclusive(ports, lo, hi)
    ensures (exists p :: Free(p, lo, hi, ports.Values)) <==> |ports| < Room(lo, hi)
  {
    ValuesCount(ports);
    var all := Range(lo, hi);
    SubsetCount(ports.Values, all);
    if ports.Values != all {
      var p :| p in all && p !in ports.Values;
      assert Free(p, lo, hi, ports.Values);
    }
  }

  /** The least free port of the range, or none. */
  method LowestFree(lo: int, hi: int, taken: set<int>) returns (found: bool, port: int)
    ensures found ==> Lowest(port, lo, hi, taken)
    ensures !found ==> forall q :: !Free(q, lo, hi, taken)
    ensures !found ==> port == if lo < hi then hi - 1 else 0
  {
    port := 0;
    var i := 0;
    while i < hi - lo
      invariant 0 <= i && (if lo < hi then i <= hi - lo else i == 0)
      invariant port == if i == 0 then 0 else lo + i - 1
      invariant forall q :: lo <= q < lo + i ==> !Free(q, lo, hi, taken)
    {
      port := lo + i;
      if port !in taken {
        return true, port;
      }
      i := i + 1;
    }
    return false, port;
  }

  /** The keys of a service's checks. */
  ghost function Keys(svcId: string, checkIds: seq<string>): set<string> {
    if checkIds == [] then {}
    else Keys(svcId, checkIds[..|checkIds| - 1]) + {Key(svcId, checkIds[|checkIds| - 1])}
  }

  lemma KeysStep(svcId: string, checkIds: seq<string>, n: nat)
    requires n < |checkIds|
    ensures Keys(svcId, checkIds[..n + 1]) == Keys(svcId, checkIds[..n]) + {Key(svcId, checkIds[n])}
  {
    assert checkIds[..n + 1][..n] == checkIds[..n];
  }

  lemma {:induction false} KeysHas(svcId: string, checkIds: seq<string>, n: nat, i: nat)
    requires i < n <= |checkIds|
    ensures Key(svcId, checkIds[i]) in Keys(svcId, checkIds[..n])
    decreases n
  {
    KeysStep(svcId, checkIds, n - 1);
    if i < n - 1 {
      KeysHas(svcId, checkIds, n - 1, i);
    }
  }

  /** The table after asking for the entry `key`. */
  ghost predicate Allocates(before: map<string, int>, key: string, lo: int, hi: int, after: map<string, int>) {
    if key in before || |before| >= Room(lo, hi) then after == before
    else key in after && after == before[key := after[key]] && Lowest(after[key], lo, hi, before.Values)
  }

  /** An entry that was added has a port of its own, and others keep theirs. */
  lemma AllocatesKeepsExclusive(before: map<string, int>, key: string, lo: int, hi: int, after: map<string, int>)
    requires Exclusive(before, lo, hi) && Allocates(before, key, lo, hi, after)
    ensures Exclusive(after, lo, hi)
    ensures before.Keys <= after.Keys <= before.Keys + {key}
    ensures forall k :: k in before ==> after[k] == before[k]
    ensures key !in after ==> |before| >= Room(lo, hi)
  {
  }

  /** The last port is somebody's once the range is full. */
  lemma LastPortTaken(ports: map<string, int>, lo: int, hi: int) returns (k: string)
    requires Exclusive(ports, lo, hi) && lo < hi && |ports| >= Room(lo, hi)
    ensures k in ports && ports[k] == hi - 1
  {
    FreeIffRoom(ports, lo, hi);
    assert !Free(hi - 1, lo, hi, ports.Values);
    k :| k in ports && ports[k] == hi - 1;
  }

  /** The first `n` checks of the service, when all entries together fit the range. */
  ghost predicate Exposed(svcId: string, checkIds: seq<string>, n: nat, ports: seq<int>, now: map<string, int>)
    requires n <= |checkIds|
  {
    && |ports| == n
    && forall i :: 0 <= i < n ==>
         Key(svcId, checkIds[i]) in now && now[Key(svcId, checkIds[i])] == ports[i]
  }

  /** How far the loop over a service's checks has come; `before` are the entries it started from. */
  ghost predicate Progress(svcId: string, checkIds: seq<string>, n: nat, before: set<string>,
                           ports: seq<int>, now: map<string, int>, room: nat)
    requires n <= |checkIds|
  {
    && |ports| == n
    && before <= now.Keys <= before + Keys(svcId, checkIds[..n])
    && (|before + Keys(svcId, checkIds)| <= room ==> Exposed(svcId, checkIds, n, ports, now))
  }

  /** If all entries fit, the next key is recorded, and what was recorded stays. */
  lemma ExposedStep(svcId: string, checkIds: seq<string>, n: nat, ports: seq<int>, now: map<string, int>,
                    after: map<string, int>, port: int)
    requires n < |checkIds| && Exposed(svcId, checkIds, n, ports, now)
    requires forall k :: k in now ==> k in after && after[k] == now[k]
    requires Key(svcId, checkIds[n]) in after && port == after[Key(svcId, checkIds[n])]
    ensures Exposed(svcId, checkIds, n + 1, ports + [port], after)
  {
  }

  /** While some key is still missing, all entries together being few enough leaves room for it. */
  lemma RoomForKey(svcId: string, checkIds: seq<string>, n: nat, before: set<string>, now: map<string, int>)
    requires n < |checkIds| && now.Keys <= before + Keys(svcId, checkIds[..n])
    requires Key(svcId, checkIds[n]) !in now
    ensures |now| < |before + Keys(svcId, checkIds)|
  {
    KeysGrow(svcId, checkIds, n);
    KeysHas(svcId, checkIds, |checkIds|, n);
    assert checkIds[..|checkIds|] == checkIds;
    RoomForOneMore(now.Keys, before + Keys(svcId, checkIds), Key(svcId, checkIds[n]));
    assert |now| == |now.Keys|;
  }

  lemma ProgressStep(svcId: string, checkIds: seq<string>, n: nat, before: set<string>, ports: seq<int>,
                     now: map<string, int>, lo: int, hi: int, after: map<string, int>, port: int)
    requires n < |checkIds| && Exclusive(now, lo, hi)
    requires Progress(svcId, checkIds, n, before, ports, now, Room(lo, hi))
    requires Allocates(now, Key(svcId, checkIds[n]), lo, hi, after)
    requires Key(svcId, checkIds[n]) in after ==> port == after[Key(svcId, checkIds[n])]
    ensures Progress(svcId, checkIds, n + 1, before, ports + [port], after, Room(lo, hi))
  {
    var key := Key(svcId, checkIds[n]);
    AllocatesKeepsExclusive(now, key, lo, hi, after);
    KeysStep(svcId, checkIds, n);
    if |before + Keys(svcId, checkIds)| <= Room(lo, hi) {
      if key !in now {
        RoomForKey(svcId, checkIds, n, before, now);
      }
      ExposedStep(svcId, checkIds, n, ports, now, after, port);
    }
  }

  lemma {:induction false} KeysGrow(svcId: string, checkIds: seq<string>, n: nat)
    requires n <= |checkIds|
    ensures Keys(svcId, checkIds[..n]) <= Keys(svcId, checkIds)
    decreases |checkIds| - n
  {
    if n == |checkIds| {
      assert checkIds[..n] == checkIds;
    } else {
      KeysStep(svcId, checkIds, n);
      KeysGrow(svcId, checkIds, n + 1);
    }
  }

  lemma {:induction false} ExposedHasKeys(svcId: string, checkIds: seq<string>, n: nat, ports: seq<int>,
                                          now: map<string, int>)
    requires n <= |checkIds| && Exposed(svcId, checkIds, n, ports, now)
    ensures Keys(svcId, checkIds[..n]) <= now.Keys
  {
    if n > 0 {
      ExposedHasKeys(svcId, checkIds, n - 1, ports[..n - 1], now);
      KeysStep(svcId, checkIds, n - 1);
    }
  }

  lemma TableFits(now: map<string, int>, lo: int, hi: int)
    requires Exclusive(now, lo, hi)
    ensures |now| <= Room(lo, hi)
  {
    ValuesCount(now);
    SubsetCount(now.Values, Range(lo, hi));
  }

  /** Every check ends up with a recorded port exactly when all entries fit the range. */
  lemma ExposedIffRoom(svcId: string, checkIds: seq<string>, before: set<string>, ports: seq<int>,
                       now: map<string, int>, lo: int, hi: int)
    requires Exclusive(now, lo, hi)
    requires Progress(svcId, checkIds, |checkIds|, before, ports, now, Room(lo, hi))
    ensures Exposed(svcId, checkIds, |checkIds|, ports, now)
       <==> |before + Keys(svcId, checkIds)| <= Room(lo, hi)
  {
    if Exposed(svcId, checkIds, |checkIds|, ports, now) {
      ExposedHasKeys(svcId, checkIds, |checkIds|, ports, now);
      assert checkIds[..|checkIds|] == checkIds;
      assert now.Keys == before + Keys(svcId, checkIds);
      TableFits(now, lo, hi);
      assert |now| == |now.Keys|;
    }
  }

  lemma SameServiceKeys(svcId: string, c1: string, c2: string)
    ensures Key(svcId, c1) == Key(svcId, c2) <==> c1 == c2
  {
    assert c1 == Key(svcId, c1)[|svcId| + 1..];
    assert c2 == Key(svcId, c2)[|svcId| + 1..];
  }

  lemma ExposedDistinct(svcId: string, checkIds: seq<string>, ports: seq<int>, now: map<string, int>,
                        lo: int, hi: int)
    requires Exclusive(now, lo, hi) && Exposed(svcId, checkIds, |checkIds|, ports, now)
    ensures forall i, j :: 0 <= i < |ports| && 0 <= j < |ports| ==>
              (ports[i] == ports[j] <==> checkIds[i] == checkIds[j])
  {
    forall i, j | 0 <= i < |ports| && 0 <= j < |ports|
      ensures ports[i] == ports[j] <==> checkIds[i] == checkIds[j]
    {
      SameServiceKeys(svcId, checkIds[i], checkIds[j]);
    }
  }

  /** With room for every entry, the one missing so far still fits. */
  lemma RoomForOneMore(now: set<string>, total: set<string>, key: string)
    requires now <= total && key in total && key !in now
    ensures |now| < |total|
  {
    assert total == now + (total - now);
  }

  datatype ExposeError = NoPortsAvailable

  /** The agent's table of listener ports for exposed checks. */
  class Listeners {
    const lo: int
    const hi: int
    var exposedPorts: map<string, int>

    ghost predicate Valid()
      reads this
    {
      Exclusive(exposedPorts, lo, hi)
    }

    constructor (lo: int, hi: int)
      ensures Valid() && exposedPorts == map[] && this.lo == lo && this.hi == hi
    {
      this.lo, this.hi := lo, hi;
      exposedPorts := map[];
    }

    /**
      A check keeps the port it has; otherwise it gets the least free one. With none
      left the last port of the range is reported although another check has it, and
      an answer of 0 is always an error.
     */
    method ListenerPort(svcId: string, checkId: string) returns (r: Result<ExposeError>)
      requires Valid()
      modifies this
      ensures Valid() && Allocates(old(exposedPorts), Key(svcId, checkId), lo, hi, exposedPorts)
      ensures var key := Key(svcId, checkId);
              r == if key in old(exposedPorts) then Ok(old(exposedPorts)[key])
                   else if key in exposedPorts && exposedPorts[key] != 0 then Ok(exposedPorts[key])
                   else if key !in exposedPorts && lo < hi && hi != 1 then Ok(hi - 1)
                   else Err(NoPortsAvailable)
      ensures var key := Key(svcId, checkId);
              r.Ok? ==> (key in exposedPorts <==>
                         forall k :: k in exposedPorts && k != key ==> exposedPorts[k] != r.port)
    {
      var key := Key(svcId, checkId);
      if key in exposedPorts {
        return Ok(exposedPorts[key]);
      }
      FreeIffRoom(exposedPorts, lo, hi);
      var taken := exposedPorts.Values;
      var found, port := LowestFree(lo, hi, taken);
      if found {
        exposedPorts := exposedPorts[key := port];
      } else if lo < hi {
        ghost var k := LastPortTaken(exposedPorts, lo, hi);
      }
      if port == 0 {
        return Err(NoPortsAvailable);
      }
      return Ok(port);
    }

    /**
      Exposing the checks of a service. Each check has a port of its own exactly when
      the range has room for all the entries, old and new.
     */
    method Expose(svcId: string, checkIds: seq<string>) returns (ok: bool, ports: seq<int>)
      requires Valid()
      modifies this
      ensures Valid() && (0 < lo < hi ==> ok)
      ensures forall k :: k in old(exposedPorts) ==> k in exposedPorts && exposedPorts[k] == old(exposedPorts)[k]
      ensures ok ==> (Exposed(svcId, checkIds, |checkIds|, ports, exposedPorts)
                 <==> |old(exposedPorts).Keys + Keys(svcId, checkIds)| <= Room(lo, hi))
    {
      ghost var before := exposedPorts.Keys;
      ports := [];
      for n := 0 to |checkIds|
        invariant Valid() && Progress(svcId, checkIds, n, before, ports, exposedPorts, Room(lo, hi))
        invariant forall k :: k in old(exposedPorts) ==> k in exposedPorts && exposedPorts[k] == old(exposedPorts)[k]
      {
        ghost var now := exposedPorts;
        var r := ListenerPort(svcId, checkIds[n]);
        if r.Err? {
          return false, [];
        }
        ProgressStep(svcId, checkIds, n, before, ports, now, lo, hi, exposedPorts, r.port);
        ports := ports + [r.port];
      }
      ok := true;
      ExposedIffRoom(svcId, checkIds, before, ports, exposedPorts, lo, hi);
    }

    /** Removing a check, found by its ID in any order of the walk, gives its port back and no other. */
    method RemoveCheck(checks: map<string, string>, checkId: string) returns (ok: bool)
      requires Valid()
      modifies this
      ensures Valid() && ok == (checkId != "")
      ensures exposedPorts == if !ok then old(exposedPorts) else
                old(exposedPorts) - {Key(if checkId in checks then checks[checkId] else "", checkId)}
    {
      if checkId == "" {
        return false;
      }
      var svcId := "";
      var todo := checks.Keys;
      while todo != {}
        invariant todo <= checks.Keys
        invariant svcId == if checkId in checks && checkId !in todo then checks[checkId] else ""
        decreases todo
      {
        var c :| c in todo;
        todo := todo - {c};
        if c == checkId {
          svcId := checks[c];
          break;
        }
      }
      exposedPorts := exposedPorts - {Key(svcId, checkId)};
      ok := true;
    }

    /** Resetting a service gives back the ports of all its checks and no others. */
    method Reset(svcId: string, checkIds: seq<string>)
      requires Valid()
      modifies this
      ensures Valid() && exposedPorts == old(exposedPorts) - Keys(svcId, checkIds)
    {
      for n := 0 to |checkIds|
        invariant Valid() && exposedPorts == old(exposedPorts) - Keys(svcId, checkIds[..n])
      {
        KeysStep(svcId, checkIds, n);
        exposedPorts := exposedPorts - {Key(svcId, checkIds[n])};
      }
      assert checkIds[..|checkIds|] == checkIds;
    }
  }

  /** Three checks and two ports: the third is given the port that the second has, and is not recorded. */
  method FullRangeShares() returns (l: Listeners, second: Result<ExposeError>, third: Result<ExposeError>)
    ensures second == third == Ok(21501)
    ensures Key("web", "2") in l.exposedPorts && l.exposedPorts[Key("web", "2")] == 21501
    ensures Key("web", "3") !in l.exposedPorts
  {
    DistinctChecks();
    l := new Listeners(21500, 21502);
    var first := l.ListenerPort("web", "1");
    assert l.exposedPorts == map[Key("web", "1") := 21500] by {
      assert Free(21500, 21500, 21502, {});
    }
    second := l.ListenerPort("web", "2");
    assert l.exposedPorts == map[Key("web", "1") := 21500, Key("web", "2") := 21501] by {
      assert Free(21501, 21500, 21502, {21500});
    }
    third := l.ListenerPort("web", "3");
  }

  lemma DistinctChecks()
    ensures Key("web", "1") != Key("web", "2") && Key("web", "1") != Key("web", "3")
    ensures Key("web", "2") != Key("web", "3")
  {
    SameServiceKeys("web", "1", "2");
    SameServiceKeys("web", "1", "3");
    SameServiceKeys("web", "2", "3");
  }
}
