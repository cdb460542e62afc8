/**
  Trimming a DNS response to the size its transport allows. The answer section is a
  slice of a backing array: cutting it keeps the array, so the search for the best
  length can shorten and lengthen it again.
 */
module DnsTrim {
  import opened DnsExtra
  import opened DnsExtraLaws
  import opened DnsTrimSpec

  class Msg {
    const overhead: nat
    var backing: seq<Record>
    var count: nat
    var extra: seq<Record>
    var compress: bool

    ghost predicate Valid()
      reads this
    {
      count <= |backing|
    }

    function Answer(): seq<Record>
      requires Valid()
      reads this
    {
      backing[..count]
    }

    function Len(): nat
      requires Valid()
      reads this
    {
      overhead + Sum(Answer()) + Sum(extra)
    }

    ghost function LayoutWith(index: Index): Layout
      reads this
    {
      Layout(overhead, index, backing)
    }

    /** The extras are those that the answers need. */
    ghost predicate Synced(index: Index)
      requires Valid()
      reads this
    {
      extra == Extras(index, Answer())
    }

    /** Without an additional section there is no index and never any extra. */
    ghost predicate IndexOk(index: Index, hasExtra: bool)
      reads this
    {
      !hasExtra ==> index == map[] && extra == []
    }

    constructor (overhead: nat, answer: seq<Record>, extra: seq<Record>, compress: bool)
      ensures Valid() && Answer() == answer && backing == answer && this.extra == extra
      ensures this.overhead == overhead && this.compress == compress
    {
      this.overhead := overhead;
      this.backing := answer;
      this.count := |answer|;
      this.extra := extra;
      this.compress := compress;
    }

    /** Cut or restore the answers to the first `n` of the backing array and bring the extras in step. */
    method SetCount(n: nat, index: Index, hasExtra: bool)
      requires n <= |backing| && IndexOk(index, hasExtra)
      modifies this`count, this`extra
      ensures Valid() && count == n && Synced(index) && IndexOk(index, hasExtra)
      ensures Len() == Size(LayoutWith(index), n)
    {
      count := n;
      if hasExtra {
        extra := SyncExtra(index, backing[..n]);
      } else {
        NoIndexNoExtras(backing[..n]);
      }
    }

    /** Binary search for the most answers that fit; slack under 10 bytes ends it early. */
    method BinaryTruncate(maxSize: int, index: Index, hasExtra: bool) returns (best: nat)
      requires Valid() && IndexOk(index, hasExtra)
      modifies this`count, this`extra
      ensures Valid() && IndexOk(index, hasExtra)
      ensures best == BestFit(LayoutWith(index), old(count), maxSize)
    {
      ghost var l := LayoutWith(index);
      var start, end := 0, count + 1;
      while end - start > 1
        invariant Valid() && IndexOk(index, hasExtra)
        invariant 0 <= start < end <= old(count) + 1
        invariant start > 0 ==> Size(l, start) <= maxSize
        invariant forall k :: end <= k <= old(count) ==> Size(l, k) > maxSize
      {
        var median := start + (end - start) / 2;
        SetCount(median, index, hasExtra);
        var aLen := Len();
        forall k | median < k <= old(count) ensures Size(l, k) >= Size(l, median) + 11 {
          SizeGrows(l, median, k);
        }
        if aLen <= maxSize {
          if maxSize - aLen < 10 {
            BestFitUnique(l, old(count), maxSize, median);
            return median;
          }
          start := median;
        } else {
          end := median;
        }
      }
      BestFitUnique(l, old(count), maxSize, start);
      best := start;
    }

    /** The trim loop. An iteration drops no answer only while the extras are out of step. */
    method TrimLoop(maxSize: int, bound: int, index: Index, hasExtra: bool) returns (looped: bool)
      requires Valid() && IndexOk(index, hasExtra) && bound <= maxSize
      modifies this`count, this`extra
      ensures Valid() && IndexOk(index, hasExtra)
      ensures count == Trimmed(LayoutWith(index), old(count), old(Len()), maxSize, bound)
      ensures count <= 1 || Len() <= bound
      ensures looped <==> old(count) > 1 && old(Len()) > bound
      ensures if looped then Synced(index) else count == old(count) && extra == old(extra)
    {
      ghost var l := LayoutWith(index);
      looped := false;
      ghost var synced := false;
      while count > 1 && Len() > bound
        invariant Valid() && IndexOk(index, hasExtra)
        invariant synced == looped
        invariant !synced ==> count == old(count) && extra == old(extra)
        invariant synced ==> Synced(index) && Len() == Size(l, count)
        invariant synced ==> old(count) > 1 && old(Len()) > bound
        invariant synced ==> SyncedTrim(l, count, maxSize, bound) == Trimmed(l, old(count), old(Len()), maxSize, bound)
        decreases count + (if synced then 0 else 1)
      {
        ghost var n, len := count, Len();
        looped := true;
        var next := count - 1;
        if Len() - maxSize > 100 {
          next := BinaryTruncate(maxSize, index, hasExtra);
        }
        assert next == NextCount(l, n, len, maxSize);
        if synced {
          SyncedTrimStep(l, n, maxSize, bound);
          BestFitIsLargest(l, n, maxSize);
        }
        SetCount(next, index, hasExtra);
        synced := true;
      }
    }

    /** The index of the additional section, built only when there is one. */
    method MakeIndex() returns (index: Index, hasExtra: bool)
      ensures index == IndexOf(extra) && IndexOk(index, hasExtra)
    {
      hasExtra := |extra| > 0;
      index := map[];
      if hasExtra {
        index := IndexRRs(extra);
      }
    }

    /**
      Keeps a prefix of the answers; ends with at most one answer or 7 bytes below
      the limit, exactly where `Trimmed` says, and reports whether answers were lost.
     */
    method TrimUdp(edns: Edns, udpAnswerLimit: int) returns (trimmed: bool)
      requires Valid()
      modifies this`count, this`extra, this`compress
      ensures Valid() && compress == old(compress) && Answer() <= old(Answer())
      ensures count == UdpCount(LayoutWith(IndexOf(old(extra))), old(count), old(Len()),
                                MaxUdpSize(edns), udpAnswerLimit)
      ensures count <= 1 || Len() <= MaxUdpSize(edns) - 7
      ensures trimmed <==> count < old(count)
      ensures count <= 1 || Len() <= (if edns.Edns? && edns.size > 512 then edns.size - 7 else 505)
      ensures FitsUdp(old(count), old(Len()), edns, udpAnswerLimit) ==> !trimmed && extra == old(extra)
      ensures Synced(IndexOf(old(extra))) || (count == old(count) && extra == old(extra))
    {
      WhoFitsUdp(LayoutWith(IndexOf(extra)), count, Len(), edns, udpAnswerLimit);
      var maxSize := AcceptedSize(edns);
      trimmed := TrimTo(maxSize, udpAnswerLimit);
    }

    /** Trims for a client that accepts `maxSize` bytes. */
    method TrimTo(maxSize: nat, udpAnswerLimit: int) returns (trimmed: bool)
      requires Valid()
      modifies this`count, this`extra, this`compress
      ensures Valid() && compress == old(compress) && Answer() <= old(Answer())
      ensures count == UdpCount(LayoutWith(IndexOf(old(extra))), old(count), old(Len()), maxSize, udpAnswerLimit)
      ensures count <= 1 || Len() <= maxSize - 7
      ensures trimmed <==> count < old(count)
      ensures Synced(IndexOf(old(extra))) || (count == old(count) && extra == old(extra))
      ensures UdpCut(old(count), maxSize, udpAnswerLimit) == old(count) && old(Len()) <= maxSize - 7 ==>
                extra == old(extra)
    {
      var numAnswers := count;
      var index, hasExtra := MakeIndex();
      var saved := compress;
      CutAndTrim(maxSize, udpAnswerLimit, index, hasExtra);
      compress := saved;
      trimmed := count < numAnswers;
      assert backing[..count] == backing[..numAnswers][..count];
    }

    method AcceptedSize(edns: Edns) returns (maxSize: nat)
      ensures maxSize == MaxUdpSize(edns)
    {
      maxSize := DEFAULT_MAX_UDP_SIZE;
      if edns.Edns? && edns.size > maxSize {
        maxSize := edns.size;
      }
    }

    method CutAndTrim(maxSize: nat, udpAnswerLimit: int, index: Index, hasExtra: bool)
      requires Valid() && IndexOk(index, hasExtra)
      modifies this`count, this`extra, this`compress
      ensures Valid() && count == UdpCount(LayoutWith(index), old(count), old(Len()), maxSize, udpAnswerLimit)
      ensures count <= 1 || Len() <= maxSize - 7
      ensures Synced(index) || (count == old(count) && extra == old(extra))
      ensures UdpCut(old(count), maxSize, udpAnswerLimit) == old(count) && old(Len()) <= maxSize - 7 ==>
                extra == old(extra)
    {
      ghost var l, count0, len0 := LayoutWith(index), count, Len();
      LimitAnswers(maxSize, udpAnswerLimit, index, hasExtra);
      ghost var n, len := count, Len();
      assert n == UdpCut(count0, maxSize, udpAnswerLimit) && len == if n < count0 then Size(l, n) else len0;
      var _ := TrimLoop(maxSize, maxSize - 7, index, hasExtra);
      assert count == Trimmed(l, n, len, maxSize, maxSize - 7);
    }

    /** The configured cap on answers, for clients that did not ask for large messages. */
    method LimitAnswers(maxSize: nat, udpAnswerLimit: int, index: Index, hasExtra: bool)
      requires Valid() && IndexOk(index, hasExtra)
      modifies this`count, this`extra, this`compress
      ensures Valid() && IndexOk(index, hasExtra) && count == UdpCut(old(count), maxSize, udpAnswerLimit)
      ensures if count < old(count) then Synced(index) && Len() == Size(LayoutWith(index), count)
              else extra == old(extra) && Len() == old(Len())
    {
      if udpAnswerLimit > 0 {
        var maxAnswers := if MAX_UDP_ANSWER_LIMIT < udpAnswerLimit then MAX_UDP_ANSWER_LIMIT else udpAnswerLimit;
        if maxSize == DEFAULT_MAX_UDP_SIZE && count > maxAnswers {
          compress := false;
          SetCount(maxAnswers, index, hasExtra);
        }
      }
    }

    /** Cuts to a fixed count, with the extras left as they are, and runs the loop. */
    method CutAndTrimTcp(srvQuery: bool, index: Index, hasExtra: bool) returns (truncated: bool)
      requires Valid() && IndexOk(index, hasExtra)
      modifies this`count, this`extra
      ensures Valid() && (count <= 1 || Len() <= MAX_TCP_SIZE)
      ensures var n := TcpCut(old(count), srvQuery);
              var len := Length(LayoutWith(index), n, old(extra));
              && count == Trimmed(LayoutWith(index), n, len, MAX_TCP_SIZE, MAX_TCP_SIZE)
              && (truncated <==> n > 1 && len > MAX_TCP_SIZE)
      ensures if truncated then Synced(index) else count == TcpCut(old(count), srvQuery) && extra == old(extra)
    {
      var truncateAt := if srvQuery then 1024 else 4096;
      if count > truncateAt {
        count := truncateAt;
      }
      assert Len() == Length(LayoutWith(index), count, extra);
      truncated := TrimLoop(MAX_TCP_SIZE, MAX_TCP_SIZE, index, hasExtra);
    }

    /**
      The same for TCP. The flag tells whether the loop ran: answers are lost without it
      exactly when the fixed cut alone made the message small enough, and then the
      additional section still holds the records of the lost answers.
     */
    method TrimTcp(srvQuery: bool) returns (truncated: bool)
      requires Valid()
      modifies this`count, this`extra
      ensures Valid() && Answer() <= old(Answer()) && (count <= 1 || Len() <= MAX_TCP_SIZE)
      ensures var l := LayoutWith(IndexOf(old(extra)));
              var n := TcpCut(old(count), srvQuery);
              var len := Length(l, n, old(extra));
              && count == Trimmed(l, n, len, MAX_TCP_SIZE, MAX_TCP_SIZE)
              && (truncated <==> n > 1 && len > MAX_TCP_SIZE)
              && (!truncated && count < old(count) <==> n < old(count) && len <= MAX_TCP_SIZE)
      ensures if truncated then Synced(IndexOf(old(extra))) else extra == old(extra)
      ensures count <= (if srvQuery then 1024 else 4096) && (count <= 1 || Len() <= 65523)
      ensures old(count) <= (if srvQuery then 1024 else 4096) && old(Len()) <= 65523 ==>
                !truncated && count == old(count)
    {
      var index, hasExtra := MakeIndex();
      truncated := CutAndTrimTcp(srvQuery, index, hasExtra);
      assert backing[..count] == backing[..old(count)][..count];
    }
  }

  lemma {:induction false} SumOfEqual(r: Record, rs: seq<Record>)
    requires forall i :: 0 <= i < |rs| ==> rs[i] == r
    ensures Sum(rs) == |rs| * r.size
    decreases |rs|
  {
    if rs != [] {
      SumOfEqual(r, rs[..|rs| - 1]);
    }
  }

  /** One answer too many for an SRV query over TCP is dropped, and the flag does not tell. */
  method SilentTcpCut() returns (m: Msg, truncated: bool)
    ensures m.Valid() && |m.backing| == 1025 && m.count == 1024 && !truncated
  {
    var srv: Record := RR("a", Srv("b"), 38);
    m := new Msg(12, seq(1025, _ => srv), [], true);
    SumOfEqual(srv, m.backing[..1024]);
    truncated := m.TrimTcp(true);
  }
}
