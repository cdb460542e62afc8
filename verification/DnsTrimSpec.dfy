/**
  How many answers a trimmed DNS response keeps: what the trimming loops compute, the
  simple loop that drops one answer at a time, and when the two agree.
 */
module DnsTrimSpec {
  import opened Basics
  import opened DnsExtra
  import opened DnsExtraLaws

  const MAX_UDP_ANSWER_LIMIT := 8
  const DEFAULT_MAX_UDP_SIZE := 512
  const MAX_TCP_SIZE := 65523

  function Sum(rs: seq<Record>): (n: nat)
    ensures n >= 11 * |rs|
  {
    if rs == [] then 0 else Sum(rs[..|rs| - 1]) + rs[|rs| - 1].size
  }

  /** A response whose additional section follows its answers. */
  datatype Layout = Layout(overhead: nat, index: Index, backing: seq<Record>)

  /** The size of the response with its first `n` answers and the extras they need. */
  function Size(l: Layout, n: nat): nat
    requires n <= |l.backing|
  {
    l.overhead + Sum(l.backing[..n]) + Sum(Extras(l.index, l.backing[..n]))
  }

  /** The size with the first `n` answers and any extras. */
  function Length(l: Layout, n: nat, extra: seq<Record>): nat
    requires n <= |l.backing|
  {
    l.overhead + Sum(l.backing[..n]) + Sum(extra)
  }

  // ---- every answer adds at least one record ----

  lemma {:induction false} SumMonotone(a: seq<Record>, b: seq<Record>)
    requires a <= b
    ensures Sum(a) <= Sum(b)
    decreases |b|
  {
    if a != b {
      SumMonotone(a, b[..|b| - 1]);
    }
  }

  lemma {:induction false} SizeGrows(l: Layout, m: nat, n: nat)
    requires m < n <= |l.backing|
    ensures Size(l, m) + 11 <= Size(l, n)
    decreases n - m
  {
    assert l.backing[..n][..n - 1] == l.backing[..n - 1];
    ExtrasArePrefix(l.index, l.backing, n - 1, n);
    SumMonotone(Extras(l.index, l.backing[..n - 1]), Extras(l.index, l.backing[..n]));
    if m < n - 1 {
      SizeGrows(l, m, n - 1);
    }
  }

  // ---- the references ----

  /** The largest count of at most `n` answers that fits, or 0 if none does. */
  function BestFit(l: Layout, n: nat, maxSize: int): (r: nat)
    requires n <= |l.backing|
    ensures r <= n
  {
    if n == 0 || Size(l, n) <= maxSize then n else BestFit(l, n - 1, maxSize)
  }

  /** Dropping the last answer, one at a time, while more than one is left and they do not fit. */
  function DropOneByOne(l: Layout, n: nat, bound: int): (r: nat)
    requires n <= |l.backing|
    ensures r <= n && (r <= 1 || Size(l, r) <= bound) && (n >= 1 ==> r >= 1)
  {
    if n <= 1 || Size(l, n) <= bound then n else DropOneByOne(l, n - 1, bound)
  }

  /** Where the trim loop jumps to from `n` answers and a message of the given length. */
  function NextCount(l: Layout, n: nat, len: int, maxSize: int): (r: nat)
    requires 1 < n <= |l.backing|
    ensures r <= n
  {
    if len - maxSize > 100 then BestFit(l, n, maxSize) else n - 1
  }

  /** The count the loop ends with once the extras are in step with the answers. */
  function SyncedTrim(l: Layout, n: nat, maxSize: int, bound: int): (r: nat)
    requires n <= |l.backing|
    ensures r <= n
  {
    if n > 1 && Size(l, n) > bound && Size(l, n) - maxSize > 100
    then DropOneByOne(l, BestFit(l, n, maxSize), bound)
    else DropOneByOne(l, n, bound)
  }

  /** The count the loop ends with from any message of `n` answers and length `len`. */
  function Trimmed(l: Layout, n: nat, len: int, maxSize: int, bound: int): (r: nat)
    requires n <= |l.backing|
    ensures r <= n
  {
    if n <= 1 || len <= bound then n else SyncedTrim(l, NextCount(l, n, len, maxSize), maxSize, bound)
  }

  // ---- facts about them ----

  lemma {:induction false} BestFitIsLargest(l: Layout, n: nat, maxSize: int)
    requires n <= |l.backing|
    ensures var b := BestFit(l, n, maxSize);
            && (b > 0 ==> Size(l, b) <= maxSize)
            && (forall k :: b < k <= n ==> Size(l, k) > maxSize)
  {
    if n > 0 && Size(l, n) > maxSize {
      BestFitIsLargest(l, n - 1, maxSize);
    }
  }

  /** A count that fits, with every larger one too big, is the best fit. */
  lemma {:induction false} BestFitUnique(l: Layout, n: nat, maxSize: int, b: nat)
    requires b <= n <= |l.backing|
    requires b > 0 ==> Size(l, b) <= maxSize
    requires forall k :: b < k <= n ==> Size(l, k) > maxSize
    ensures BestFit(l, n, maxSize) == b
  {
    if b < n {
      BestFitUnique(l, n - 1, maxSize, b);
    }
  }

  /** One turn of the loop does not change where it ends. */
  lemma SyncedTrimStep(l: Layout, n: nat, maxSize: int, bound: int)
    requires 1 < n <= |l.backing| && bound <= maxSize && Size(l, n) > bound
    ensures SyncedTrim(l, NextCount(l, n, Size(l, n), maxSize), maxSize, bound) == SyncedTrim(l, n, maxSize, bound)
  {
    if Size(l, n) - maxSize > 100 {
      BestFitIsLargest(l, n, maxSize);
    } else {
      SizeGrows(l, n - 1, n);
    }
  }

  lemma {:induction false} DropsPastTooBig(l: Layout, n: nat, k: nat, bound: int)
    requires 1 <= k <= n <= |l.backing|
    requires forall j :: k < j <= n ==> Size(l, j) > bound
    ensures DropOneByOne(l, n, bound) == DropOneByOne(l, k, bound)
  {
    if k < n {
      DropsPastTooBig(l, n - 1, k, bound);
    }
  }

  lemma NothingFits(l: Layout, n: nat, maxSize: int)
    requires 1 < n <= |l.backing| && Size(l, 1) > maxSize
    ensures BestFit(l, n, maxSize) == 0
  {
    forall k | 1 < k <= n ensures Size(l, k) > maxSize {
      SizeGrows(l, 1, k);
    }
    BestFitUnique(l, n, maxSize, 0);
  }

  /** With the extras in step, the whole loop is the synced one. */
  lemma TrimmedWhenSynced(l: Layout, n: nat, maxSize: int, bound: int)
    requires n <= |l.backing| && bound <= maxSize
    ensures Trimmed(l, n, Size(l, n), maxSize, bound) == SyncedTrim(l, n, maxSize, bound)
  {
    if n > 1 && Size(l, n) > bound {
      SyncedTrimStep(l, n, maxSize, bound);
    }
  }

  lemma SyncedTrimEqualsNaive(l: Layout, n: nat, maxSize: int, bound: int)
    requires n <= |l.backing| && bound <= maxSize
    ensures SyncedTrim(l, n, maxSize, bound) == DropOneByOne(l, n, bound)
            <==> n <= 1 || Size(l, n) - maxSize <= 100 || Size(l, 1) <= maxSize
  {
    if n > 1 && Size(l, n) - maxSize > 100 {
      BestFitIsLargest(l, n, maxSize);
      if Size(l, 1) <= maxSize {
        var b := BestFit(l, n, maxSize);
        assert b >= 1;
        DropsPastTooBig(l, n, b, bound);
      } else {
        NothingFits(l, n, maxSize);
      }
    }
  }

  /**
    On a response whose extras are in step, the fast loop ends where dropping answers one
    at a time ends, if and only if it never searches (few answers, or at most 100 bytes
    too many) or the first answer fits alone.
   */
  lemma FastTrimEqualsNaive(l: Layout, n: nat, maxSize: int, bound: int)
    requires n <= |l.backing| && bound <= maxSize
    ensures Trimmed(l, n, Size(l, n), maxSize, bound) == DropOneByOne(l, n, bound)
            <==> n <= 1 || Size(l, n) - maxSize <= 100 || Size(l, 1) <= maxSize
  {
    TrimmedWhenSynced(l, n, maxSize, bound);
    SyncedTrimEqualsNaive(l, n, maxSize, bound);
  }

  /** Two answers that are each too large: the fast loop keeps none, the naive one keeps one. */
  lemma OversizedAnswersAreAllDropped()
    ensures var big: Record := RR("big", Address, 600);
            var l := Layout(12, map[], [big, big]);
            && Trimmed(l, 2, Size(l, 2), DEFAULT_MAX_UDP_SIZE, DEFAULT_MAX_UDP_SIZE - 7) == 0
            && DropOneByOne(l, 2, DEFAULT_MAX_UDP_SIZE - 7) == 1
  {
    var big: Record := RR("big", Address, 600);
    var l := Layout(12, map[], [big, big]);
    TrimmedWhenSynced(l, 2, DEFAULT_MAX_UDP_SIZE, DEFAULT_MAX_UDP_SIZE - 7);
  }

  // ---- responses whose extras need not be in step ----

  lemma {:induction false} SumInsert(a: seq<Record>, r: Record, b: seq<Record>)
    ensures Sum(a + [r] + b) == Sum(a + b) + r.size
    decreases |b|
  {
    if b == [] {
      assert a + [r] + b == a + [r] && a + b == a && (a + [r])[..|a|] == a;
    } else {
      var rest := b[..|b| - 1];
      SumInsert(a, r, rest);
      assert (a + [r] + b)[..|a| + |b|] == a + [r] + rest;
      assert (a + b)[..|a| + |b| - 1] == a + rest;
    }
  }

  lemma OthersIndexed(index: Index, r: Record, before: seq<string>, name: string, after: seq<string>)
    requires Distinct(before + [name] + after)
    requires forall x :: x in before + [name] + after ==> x in index[name := r]
    ensures Distinct(before + after) && forall x :: x in before + after ==> x in index
  {
    var names := before + [name] + after;
    forall i | 0 <= i < |before + after| ensures (before + after)[i] in index {
      var k := if i < |before| then i else i + 1;
      assert (before + after)[i] == names[k] && names[|before|] == name;
      assert names[k] in names;
    }
    forall i, j | 0 <= i < j < |before + after| ensures (before + after)[i] != (before + after)[j] {
      assert (before + after)[i] == names[if i < |before| then i else i + 1];
      assert (before + after)[j] == names[if j < |before| then j else j + 1];
    }
  }

  /** The record of one name, set apart from those of the others. */
  lemma RecordsWithout(index: Index, r: Record, before: seq<string>, name: string, after: seq<string>)
    requires name !in index && forall x :: x in before + after ==> x in index
    ensures Sum(Records(index[name := r], before + [name] + after)) == Sum(Records(index, before + after)) + r.size
  {
    assert forall x :: x in before ==> x in before + after;
    assert forall x :: x in after ==> x in before + after;
    var a, b := Records(index, before), Records(index, after);
    assert Records(index[name := r], before + [name] + after) == a + [r] + b;
    assert Records(index, before + after) == a + b;
    SumInsert(a, r, b);
  }

  /** Different indexed names stand for different records of the list. */
  lemma {:induction false} IndexedSum(rrs: seq<Record>, names: seq<string>)
    requires Distinct(names) && forall x :: x in names ==> x in IndexOf(rrs)
    ensures Sum(Records(IndexOf(rrs), names)) <= Sum(rrs)
    decreases |rrs|
  {
    if rrs == [] {
      assert forall i :: 0 <= i < |names| ==> names[i] in IndexOf(rrs);
    } else {
      var init, last := rrs[..|rrs| - 1], rrs[|rrs| - 1];
      var name := Lower(last.name);
      if name !in IndexOf(init) && name in names {
        var j :| 0 <= j < |names| && names[j] == name;
        var before, after := names[..j], names[j + 1..];
        assert names == before + [name] + after;
        OthersIndexed(IndexOf(init), last, before, name, after);
        RecordsWithout(IndexOf(init), last, before, name, after);
        IndexedSum(init, before + after);
      } else {
        assert forall x :: x in names ==> x in IndexOf(init);
        IndexedSum(init, names);
        assert Records(IndexOf(rrs), names) == Records(IndexOf(init), names);
      }
    }
  }

  /** Bringing the extras in step never makes a response longer. */
  lemma SyncNeverEnlarges(extra: seq<Record>, answers: seq<Record>)
    ensures Sum(Extras(IndexOf(extra), answers)) <= Sum(extra)
  {
    SyncIsReachability(IndexOf(extra), answers, "");
    IndexedSum(extra, Sync(IndexOf(extra), answers).0);
  }

  /** Dropping the last answer, one at a time, from a message of any length. */
  function NaiveTrim(l: Layout, n: nat, len: int, bound: int): (r: nat)
    requires n <= |l.backing|
    ensures r <= n && (n >= 1 ==> r >= 1)
  {
    if n <= 1 || len <= bound then n else DropOneByOne(l, n - 1, bound)
  }

  /** The fast loop needs no search, or the first answer fits alone and syncing is not enough by itself. */
  predicate Agrees(l: Layout, n: nat, len: int, maxSize: int, bound: int)
    requires n <= |l.backing|
  {
    n <= 1 || len <= bound || len - maxSize <= 100 || (Size(l, 1) <= maxSize && Size(l, n) > bound)
  }

  /**
    From any message at least as long as the synced one, the fast loop ends where the
    naive one does if and only if it needs no search, or the first answer fits alone and
    syncing the extras is not enough by itself.
   */
  lemma TrimmedEqualsNaive(l: Layout, n: nat, len: int, maxSize: int, bound: int)
    requires n <= |l.backing| && bound <= maxSize && Size(l, n) <= len
    ensures Trimmed(l, n, len, maxSize, bound) == NaiveTrim(l, n, len, bound)
            <==> Agrees(l, n, len, maxSize, bound)
  {
    if n > 1 && len > bound {
      SizeGrows(l, n - 1, n);
      if len - maxSize > 100 {
        SearchEqualsNaive(l, n, maxSize, bound);
      }
    }
  }

  /** Where the first answer fits, the loop goes on from the best fit one answer at a time. */
  lemma SearchGoesOn(l: Layout, n: nat, maxSize: int, bound: int)
    requires 1 < n <= |l.backing| && Size(l, 1) <= maxSize
    ensures var b := BestFit(l, n, maxSize);
            b >= 1 && SyncedTrim(l, b, maxSize, bound) == DropOneByOne(l, b, bound)
  {
    BestFitIsLargest(l, n, maxSize);
  }

  lemma SearchEqualsNaive(l: Layout, n: nat, maxSize: int, bound: int)
    requires 1 < n <= |l.backing| && bound <= maxSize
    ensures SyncedTrim(l, BestFit(l, n, maxSize), maxSize, bound) == DropOneByOne(l, n - 1, bound)
            <==> Size(l, 1) <= maxSize && Size(l, n) > bound
  {
    if Size(l, 1) > maxSize {
      NothingFits(l, n, maxSize);
    } else {
      SearchGoesOn(l, n, maxSize, bound);
      var b := BestFit(l, n, maxSize);
      if b < n {
        BestFitIsLargest(l, n, maxSize);
        DropsPastTooBig(l, n - 1, b, bound);
      }
    }
  }

  // ---- the limits ----

  datatype Edns = NoEdns | Edns(size: nat)

  /** The size a UDP client accepts: 512 bytes, or more if it says so (section 6.2.3 of RFC 6891). */
  function MaxUdpSize(edns: Edns): (m: nat)
    ensures m >= DEFAULT_MAX_UDP_SIZE
  {
    if edns.Edns? && edns.size > DEFAULT_MAX_UDP_SIZE then edns.size else DEFAULT_MAX_UDP_SIZE
  }

  function UdpCut(n: nat, maxSize: nat, udpAnswerLimit: int): (r: nat)
    ensures r <= n
  {
    if udpAnswerLimit > 0 && maxSize == DEFAULT_MAX_UDP_SIZE then
      var m := if MAX_UDP_ANSWER_LIMIT < udpAnswerLimit then MAX_UDP_ANSWER_LIMIT else udpAnswerLimit;
      if n > m then m else n
    else n
  }

  /** The count that trimming for UDP keeps of a message with `count` answers and length `len`. */
  function UdpCount(l: Layout, count: nat, len: nat, maxSize: nat, udpAnswerLimit: int): (r: nat)
    requires count <= |l.backing|
    ensures r <= count
  {
    var n := UdpCut(count, maxSize, udpAnswerLimit);
    Trimmed(l, n, if n < count then Size(l, n) else len, maxSize, maxSize - 7)
  }

  function TcpCut(n: nat, srvQuery: bool): (r: nat)
    ensures r <= n
  {
    var truncateAt := if srvQuery then 1024 else 4096;
    if n > truncateAt then truncateAt else n
  }

  /**
    Nothing needs to be cut: a client that asks for more than 512 bytes is owed all but 7 of
    what it asks for, and any number of answers; any other 505 bytes, and if a limit is
    configured that many answers, at most 8.
   */
  predicate FitsUdp(count: nat, len: nat, edns: Edns, udpAnswerLimit: int) {
    if edns.Edns? && edns.size > 512 then len <= edns.size - 7
    else len <= 505 && (udpAnswerLimit <= 0 || (count <= udpAnswerLimit && count <= 8))
  }

  /** Such a response is left alone. */
  lemma WhoFitsUdp(l: Layout, count: nat, len: nat, edns: Edns, udpAnswerLimit: int)
    requires count <= |l.backing|
    ensures var m := MaxUdpSize(edns);
            && m == (if edns.Edns? && edns.size > 512 then edns.size else 512)
            && (FitsUdp(count, len, edns, udpAnswerLimit) ==>
                  && UdpCut(count, m, udpAnswerLimit) == UdpCount(l, count, len, m, udpAnswerLimit) == count
                  && len <= m - 7)
  {
  }

  /** Any other loses answers, unless it has at most one, or is short enough once its extras are those it needs. */
  lemma WhoLosesAnswers(l: Layout, count: nat, len: nat, edns: Edns, udpAnswerLimit: int)
    requires count <= |l.backing| && !FitsUdp(count, len, edns, udpAnswerLimit)
    ensures var m := MaxUdpSize(edns);
            UdpCount(l, count, len, m, udpAnswerLimit) == count ==>
              count <= 1 || (len > m - 7 && Size(l, count) <= m - 7)
  {
    BestFitIsLargest(l, count, MaxUdpSize(edns));
  }

  lemma UdpTrimFrom(l: Layout, count: nat, len: nat, maxSize: nat, udpAnswerLimit: int)
    requires count <= |l.backing| && Size(l, count) <= len
    ensures var n := UdpCut(count, maxSize, udpAnswerLimit);
            var cut := if n < count then Size(l, n) else len;
            UdpCount(l, count, len, maxSize, udpAnswerLimit) == NaiveTrim(l, n, cut, maxSize - 7)
            <==> Agrees(l, n, cut, maxSize, maxSize - 7)
  {
    var n := UdpCut(count, maxSize, udpAnswerLimit);
    TrimmedEqualsNaive(l, n, if n < count then Size(l, n) else len, maxSize, maxSize - 7);
  }

  /**
    UDP trimming as a whole against the naive loop: for every response, whatever its
    additional section holds, and after the configured cap.
   */
  lemma UdpTrimEqualsNaive(l: Layout, extra: seq<Record>, count: nat, maxSize: nat, udpAnswerLimit: int)
    requires l.index == IndexOf(extra) && count <= |l.backing|
    ensures var n := UdpCut(count, maxSize, udpAnswerLimit);
            var cut := if n < count then Size(l, n) else Length(l, count, extra);
            UdpCount(l, count, Length(l, count, extra), maxSize, udpAnswerLimit) == NaiveTrim(l, n, cut, maxSize - 7)
            <==> Agrees(l, n, cut, maxSize, maxSize - 7)
  {
    assert Size(l, count) <= Length(l, count, extra) by {
      SyncNeverEnlarges(extra, l.backing[..count]);
    }
    UdpTrimFrom(l, count, Length(l, count, extra), maxSize, udpAnswerLimit);
  }

  /** The same for TCP: after the fixed cut the extras are still those of all answers. */
  lemma TcpTrimEqualsNaive(l: Layout, extra: seq<Record>, count: nat, srvQuery: bool)
    requires l.index == IndexOf(extra) && count <= |l.backing|
    ensures var n := TcpCut(count, srvQuery);
            var len := Length(l, n, extra);
            Trimmed(l, n, len, MAX_TCP_SIZE, MAX_TCP_SIZE) == NaiveTrim(l, n, len, MAX_TCP_SIZE)
            <==> Agrees(l, n, len, MAX_TCP_SIZE, MAX_TCP_SIZE)
  {
    var n := TcpCut(count, srvQuery);
    SyncNeverEnlarges(extra, l.backing[..n]);
    TrimmedEqualsNaive(l, n, Length(l, n, extra), MAX_TCP_SIZE, MAX_TCP_SIZE);
  }
}
