/**
  The writer that collects the output of a remote command into chunks. A full or
  idle buffer is handed to the channel as it is and replaced by a new one, so a
  chunk and the buffer never share memory.
 */
module RexecWriter {
  import opened Basics

  /** What the channel receives: the first `len` bytes of a buffer. */
  datatype Chunk = Chunk(data: array<byte>, len: nat)

  function Flatten(parts: seq<seq<byte>>): seq<byte> {
    if parts == [] then [] else Flatten(parts[..|parts| - 1]) + parts[|parts| - 1]
  }

  lemma FlattenSnoc(parts: seq<seq<byte>>, part: seq<byte>)
    ensures Flatten(parts + [part]) == Flatten(parts) + part
  {
  }

  class Writer {
    const bufSize: nat
    var buf: array?<byte>
    var bufLen: nat
    var sent: seq<Chunk>
    var timerArmed: bool
    var cancelled: bool

    /** The contents each chunk had when it was sent. */
    ghost var log: seq<seq<byte>>

    ghost function Repr(): set<object>
      reads this
    {
      set c | c in sent :: c.data
    }

    /** Sent chunks are non-empty, fit the buffer size, still read as sent, and none is the buffer. */
    ghost predicate ChunksOk()
      reads this, Repr()
    {
      && |log| == |sent|
      && forall i :: 0 <= i < |sent| ==>
           && 0 < sent[i].len <= bufSize && sent[i].len <= sent[i].data.Length
           && sent[i].data[..sent[i].len] == log[i] && sent[i].data != buf
    }

    /** All chunks from the `n`-th on are full buffers. */
    ghost predicate FullFrom(n: nat)
      reads this
    {
      forall i :: n <= i < |sent| ==> sent[i].len == bufSize
    }

    ghost predicate Valid()
      reads this, Repr()
    {
      && bufLen < bufSize
      && (if buf == null then bufLen == 0 else buf.Length == bufSize)
      && ChunksOk()
    }

    /** Everything written so far: the chunks sent, then what the buffer holds. */
    ghost function Stream(): seq<byte>
      reads this, buf
      requires buf != null ==> bufLen <= buf.Length
    {
      Flatten(log) + (if buf == null then [] else buf[..bufLen])
    }

    constructor (bufSize: nat)
      requires bufSize > 0
      ensures Valid() && Stream() == [] && sent == [] && !cancelled && this.bufSize == bufSize
    {
      this.bufSize := bufSize;
      buf, bufLen, sent, timerArmed, cancelled, log := null, 0, [], false, false, [];
    }

    /** The channel takes the buffer, and a new one replaces it. */
    method Send()
      requires ChunksOk() && buf != null && 0 < bufLen <= bufSize == buf.Length
      modifies this`buf, this`bufLen, this`sent, this`log
      ensures Valid() && bufLen == 0 && buf != null && fresh(buf)
      ensures sent == old(sent) + [Chunk(old(buf), old(bufLen))] && old(log) <= log
      ensures Stream() == old(Stream())
    {
      FlattenSnoc(log, buf[..bufLen]);
      log := log + [buf[..bufLen]];
      sent := sent + [Chunk(buf, bufLen)];
      buf := new byte[bufSize];
      bufLen := 0;
      assert buf[..0] == [];
    }

    /**
      Hands the buffer to the channel; once the writer is cancelled the contents may
      be dropped instead.
     */
    method Flush()
      requires bufSize > 0 && ChunksOk()
      requires if buf == null then bufLen == 0 else buf.Length == bufSize && bufLen <= bufSize
      modifies this`buf, this`bufLen, this`sent, this`timerArmed, this`log
      ensures Valid() && bufLen == 0 && (buf == old(buf) || fresh(buf))
      ensures old(sent) <= sent && old(log) <= log && (buf == null <==> old(buf) == null)
      ensures !cancelled ==> Stream() == old(Stream())
      ensures |sent| <= |old(sent)| + 1 && (old(bufLen) == 0 ==> sent == old(sent))
      ensures |sent| > |old(sent)| ==> sent[|old(sent)|].len == old(bufLen)
    {
      timerArmed := false;
      if bufLen == 0 {
        return;
      }
      if cancelled {
        if * {
          bufLen := 0;
          return;
        }
      }
      Send();
    }

    /** Copies bytes behind those the buffer already holds. */
    method Fill(part: seq<byte>)
      requires Valid() && buf != null && bufLen + |part| <= bufSize
      modifies this`bufLen, buf
      ensures ChunksOk() && bufLen == old(bufLen) + |part|
      ensures Stream() == old(Stream()) + part
    {
      ghost var held := buf[..bufLen];
      forall i | 0 <= i < |part| {
        buf[bufLen + i] := part[i];
      }
      bufLen := bufLen + |part|;
      assert buf[..bufLen] == held + part;
    }

    /**
      One turn of the copy loop: fill the buffer up and hand it off. The lock is free in
      between, so an idle flush that was already due may get in first.
     */
    method FillAndFlush(part: seq<byte>)
      requires Valid() && buf != null && bufLen + |part| == bufSize
      modifies this`buf, this`bufLen, this`sent, this`timerArmed, this`log, buf
      ensures Valid() && buf != null && (buf == old(buf) || fresh(buf))
      ensures old(sent) <= sent && old(log) <= log
      ensures !cancelled ==> Stream() == old(Stream()) + part
      ensures FullFrom(|old(sent)|)
    {
      Fill(part);
      if * {
        Flush();
      }
      Flush();
    }

    /** The copy loop: hands off a full buffer for as long as the rest fills one. */
    method CopyFull(b: seq<byte>, ghost start: seq<byte>) returns (done: nat)
      requires Valid() && buf != null && Stream() == start
      modifies this`buf, this`bufLen, this`sent, this`timerArmed, this`log, buf
      ensures done <= |b| && |b| - done < bufSize - bufLen
      ensures Valid() && buf != null && (buf == old(buf) || fresh(buf))
      ensures old(sent) <= sent && old(log) <= log
      ensures !cancelled ==> Stream() == start + b[..done]
      ensures FullFrom(|old(sent)|)
    {
      done := 0;
      while bufSize - bufLen <= |b| - done
        invariant done <= |b|
        invariant Valid() && buf != null && (buf == old(buf) || fresh(buf))
        invariant old(sent) <= sent && old(log) <= log
        invariant !cancelled ==> Stream() == start + b[..done]
        invariant FullFrom(|old(sent)|)
        decreases |b| - done
      {
        var remain := bufSize - bufLen;
        FillAndFlush(b[done..done + remain]);
        Rejoin(start, b, done, done + remain);
        done := done + remain;
      }
    }

    /** Stops the idle timer; the first write allocates the buffer. */
    method Prepare()
      requires Valid()
      modifies this`buf, this`timerArmed
      ensures Valid() && buf != null && (buf == old(buf) || fresh(buf))
      ensures Stream() == old(Stream())
    {
      timerArmed := false;
      if buf == null {
        buf := new byte[bufSize];
        assert buf[..0] == [];
      }
    }

    /** Copies the end that leaves room in the buffer and starts the idle timer. */
    method CopyRest(rest: seq<byte>)
      requires Valid() && buf != null && bufLen + |rest| < bufSize
      modifies this`bufLen, this`timerArmed, buf
      ensures Valid() && timerArmed
      ensures Stream() == old(Stream()) + rest
    {
      timerArmed := true;
      Fill(rest);
    }

    /**
      Takes all of `b`: what does not fit is copied after the buffer is handed off, and that
      happens only when it is full.
     */
    method Write(b: seq<byte>) returns (n: nat)
      requires Valid()
      modifies this`buf, this`bufLen, this`sent, this`timerArmed, this`log, buf
      ensures Valid() && n == |b| && timerArmed
      ensures old(sent) <= sent && old(log) <= log
      ensures !cancelled ==> Stream() == old(Stream()) + b
      ensures FullFrom(|old(sent)|)
    {
      ghost var start := Stream();
      Prepare();
      var done := CopyFull(b, start);
      Whole(start, b, done);
      CopyRest(b[done..]);
      n := |b|;
    }
  }

  lemma Whole(start: seq<byte>, b: seq<byte>, i: nat)
    requires i <= |b|
    ensures start + b[..i] + b[i..] == start + b
  {
  }

  lemma Rejoin(start: seq<byte>, b: seq<byte>, i: nat, j: nat)
    requires i <= j <= |b|
    ensures start + b[..i] + b[i..j] == start + b[..j]
  {
  }
}
