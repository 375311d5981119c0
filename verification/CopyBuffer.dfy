/** The copy loop of a proxied connection (src/copy_bidirectional.rs, with LazyBuffer from
    src/util.rs): a ring buffer that grows for bulk transfers and gives its storage back
    between polls.  Streams are modelled by the outcome of each poll, in any order. */
module CopyBuffers {
  import opened Common

  // ----- the streams

  /** What the next poll of the reader does; at the end of the stream ReadUpTo reads nothing. */
  datatype ReadOutcome = ReadPending | ReadFailed | ReadUpTo(n: nat)

  /** What the next poll of the writer does, whichever of its operations is polled. */
  datatype WriteOutcome = WritePending | WriteFailed | WriteUpTo(n: nat)

  datatype Polled = NotReady | Failed | Count(n: nat)

  class Reader {
    var source: seq<byte>
    var script: seq<ReadOutcome>
    /** Everything read so far. */
    ghost var consumed: seq<byte>
    /** How often it was not ready, and how often it failed. */
    ghost var waits: nat
    ghost var faults: nat

    constructor (data: seq<byte>, outcomes: seq<ReadOutcome>)
      ensures source == data && script == outcomes && consumed == [] && waits == faults == 0
    {
      source, script, consumed, waits, faults := data, outcomes, [], 0, 0;
    }

    /** Reads into the non-empty window `buf[lo..hi]`; a script that has run out stays pending. */
    method PollRead(buf: array<byte>, lo: nat, hi: nat) returns (r: Polled)
      requires lo < hi <= buf.Length
      modifies this, buf
      ensures r.Count? ==>
        && r.n <= hi - lo && r.n <= |old(source)|
        && (r.n == 0 ==> source == [])
        && source == old(source)[r.n..]
        && consumed == old(consumed) + old(source)[..r.n]
        && (forall k :: 0 <= k < r.n ==> buf[lo + k] == old(source)[k])
        && |script| < |old(script)|
      ensures !r.Count? ==>
        source == old(source) && consumed == old(consumed) && |script| <= |old(script)|
      ensures forall j :: 0 <= j < buf.Length && !(r.Count? && lo <= j < lo + r.n) ==> buf[j] == old(buf[j])
      ensures waits == old(waits) + (if r.NotReady? then 1 else 0)
      ensures faults == old(faults) + (if r.Failed? then 1 else 0)
    {
      if script == [] {
        waits := waits + 1;
        return NotReady;
      }
      var outcome := script[0];
      script := script[1..];
      match outcome
      case ReadPending =>
        waits := waits + 1;
        return NotReady;
      case ReadFailed =>
        faults := faults + 1;
        return Failed;
      case ReadUpTo(k) =>
        var n := Min(Min(Max(k, 1), hi - lo), |source|);
        var i := 0;
        while i < n
          invariant 0 <= i <= n
          invariant source == old(source) && consumed == old(consumed) && |script| < |old(script)|
          invariant waits == old(waits) && faults == old(faults)
          invariant forall k :: 0 <= k < i ==> buf[lo + k] == source[k]
          invariant forall j :: 0 <= j < buf.Length && !(lo <= j < lo + i) ==> buf[j] == old(buf[j])
        {
          buf[lo + i] := source[i];
          i := i + 1;
        }
        consumed := consumed + source[..n];
        source := source[n..];
        return Count(n);
    }
  }

  class Writer {
    var script: seq<WriteOutcome>
    /** Everything accepted so far. */
    ghost var received: seq<byte>
    /** All that was accepted, and every ping, has been flushed. */
    ghost var flushed: bool
    /** Shutdown has been called. */
    ghost var shut: bool
    /** How often it was not ready; how often it failed, or accepted nothing of what was offered. */
    ghost var waits: nat
    ghost var faults: nat

    constructor (outcomes: seq<WriteOutcome>)
      ensures script == outcomes && received == [] && flushed && !shut && waits == faults == 0
    {
      script, received, flushed, shut, waits, faults := outcomes, [], true, false, 0, 0;
    }

    /** Pops the outcome of one poll. */
    method Next() returns (r: Polled)
      modifies this`script, this`waits, this`faults
      ensures r.Count? ==> |script| < |old(script)|
      ensures |script| <= |old(script)|
      ensures waits == old(waits) + (if r.NotReady? then 1 else 0)
      ensures faults == old(faults) + (if r.Failed? then 1 else 0)
    {
      if script == [] {
        waits := waits + 1;
        return NotReady;
      }
      var outcome := script[0];
      script := script[1..];
      match outcome
      case WritePending =>
        waits := waits + 1;
        return NotReady;
      case WriteFailed =>
        faults := faults + 1;
        return Failed;
      case WriteUpTo(n) => return Count(n);
    }

    /** Accepts a prefix of `buf[lo..hi]`, possibly empty. */
    method PollWrite(buf: array<byte>, lo: nat, hi: nat) returns (r: Polled)
      requires lo < hi <= buf.Length && !shut
      modifies this
      ensures r.Count? ==>
        && r.n <= hi - lo && received == old(received) + buf[lo..lo + r.n]
        && (r.n == 0 ==> flushed == old(flushed))
        && |script| < |old(script)|
      ensures !r.Count? ==> received == old(received) && flushed == old(flushed) && |script| <= |old(script)|
      ensures shut == old(shut)
      ensures waits == old(waits) + (if r.NotReady? then 1 else 0)
      ensures faults == old(faults) + (if r.Failed? || r == Count(0) then 1 else 0)
    {
      r := Next();
      if r.Count? {
        var n := Min(r.n, hi - lo);
        if n == 0 {
          faults := faults + 1;
        }
        received := received + buf[lo..lo + n];
        flushed := flushed && n == 0;
        r := Count(n);
      }
    }

    method PollPing() returns (r: Polled)
      requires !shut
      modifies this
      ensures received == old(received) && shut == old(shut) && |script| <= |old(script)|
      ensures r.Count? ==> |script| < |old(script)|
      ensures waits == old(waits) + (if r.NotReady? then 1 else 0)
      ensures faults == old(faults) + (if r.Failed? then 1 else 0)
      ensures r.Count? && r.n > 0 ==> !flushed
      ensures !(r.Count? && r.n > 0) ==> flushed == old(flushed)
    {
      r := Next();
      flushed := flushed && !(r.Count? && r.n > 0);
    }

    method PollFlush() returns (r: Polled)
      requires !shut
      modifies this
      ensures received == old(received) && shut == old(shut) && |script| <= |old(script)|
      ensures waits == old(waits) + (if r.NotReady? then 1 else 0)
      ensures faults == old(faults) + (if r.Failed? then 1 else 0)
      ensures flushed == (old(flushed) || r.Count?)
    {
      r := Next();
      flushed := flushed || r.Count?;
    }

    /** Only called when everything accepted has been flushed. */
    method PollShutdown() returns (r: Polled)
      requires flushed
      modifies this
      ensures received == old(received) && flushed && shut && |script| <= |old(script)|
      ensures waits == old(waits) + (if r.NotReady? then 1 else 0)
      ensures faults == old(faults) + (if r.Failed? then 1 else 0)
      ensures r.Count? ==> |script| < |old(script)|
    {
      r := Next();
      shut := true;
    }
  }

  // ----- the ring

  /** A position within two turns of the ring. */
  function Wrapped(x: nat, size: nat): nat {
    if x < size then x else x - size
  }

  lemma WrapsOnce(x: nat, size: nat)
    requires 0 < size && x < 2 * size
    ensures x % size == Wrapped(x, size)
  {
    if x >= size {
      assert x == size * 1 + (x - size);
    }
  }

  /** The `len` bytes of a ring from `start` on. */
  ghost function Ring(data: seq<byte>, start: nat, len: nat): (r: seq<byte>)
    requires len <= |data| && (len > 0 ==> start < |data|)
    ensures |r| == len
    ensures forall i :: 0 <= i < len ==> r[i] == data[Wrapped(start + i, |data|)]
  {
    seq(len, i requires 0 <= i < len => data[Wrapped(start + i, |data|)])
  }

  /** Bytes written into the free part of a ring, behind its contents, extend the contents. */
  lemma RingGrows(data: seq<byte>, after: seq<byte>, start: nat, len: nat, added: seq<byte>)
    requires |after| == |data| && start < |data| && len < |data|
    requires var lo := Wrapped(start + len, |data|);
             && lo + |added| <= (if lo < start then start else |data|)
             && (forall k :: 0 <= k < |added| ==> after[lo + k] == added[k])
             && (forall j :: 0 <= j < |data| && !(lo <= j < lo + |added|) ==> after[j] == data[j])
    ensures len + |added| <= |data|
    ensures Ring(after, start, len + |added|) == Ring(data, start, len) + added
  {
    hide Ring;
    var lo := Wrapped(start + len, |data|);
    var ring := Ring(after, start, len + |added|);
    forall i | 0 <= i < len + |added|
      ensures ring[i] == (Ring(data, start, len) + added)[i]
    {
      if i >= len {
        assert Wrapped(start + i, |data|) == lo + (i - len);
      }
    }
  }

  /** Taking bytes from the front of a ring. */
  lemma RingShrinks(data: seq<byte>, start: nat, len: nat, n: nat)
    requires start < |data| && 0 < len <= |data|
    requires n <= Min(start + len, |data|) - start
    ensures Ring(data, start, len) == data[start..start + n] + Ring(data, Wrapped(start + n, |data|), len - n)
  {
    hide Ring;
    var next := Wrapped(start + n, |data|);
    var rest := Ring(data, next, len - n);
    forall i | 0 <= i < len
      ensures Ring(data, start, len)[i] == (data[start..start + n] + rest)[i]
    {
      if i >= n {
        assert rest[i - n] == data[Wrapped(next + (i - n), |data|)];
      }
    }
  }

  // ----- the buffer

  datatype Failure = ReadError | WriteError | WriteZero | FlushError | PingError | ShutdownError

  datatype Poll = Pending | Done | Broken(failure: Failure)

  /** How one phase of a pass over the loop ended. */
  datatype Phase = Continue(blocked: bool) | Abort(failure: Failure)

  class CopyBuffer {
    var readDone: bool
    var needFlush: bool
    var needWritePing: bool
    var startIndex: nat
    var cacheLength: nat
    var size: nat
    const base: nat
    const max: nat
    var bulkReadSeen: bool
    /** Of length `size`, or empty while released. */
    var storage: array<byte>

    ghost predicate Valid()
      reads this
    {
      && 0 < base <= max && (size == base || size == max)
      && startIndex < size && cacheLength <= size
      && (storage.Length == 0 || storage.Length == size)
      && (cacheLength > 0 ==> storage.Length == size)
    }

    /** What has been read and not yet written. */
    ghost function Contents(): seq<byte>
      requires Valid()
      reads this, storage
    {
      Ring(storage[..], startIndex, cacheLength)
    }

    /** The pipe: every byte read is either written or buffered, in order; the end of the stream
        was only reported at its end; and what is not flushed is known to need a flush. */
    ghost predicate Piping(reader: Reader, writer: Writer)
      reads this, storage, reader, writer
    {
      && Valid()
      && reader.consumed == writer.received + Contents()
      && (readDone ==> reader.source == [])
      && (!needFlush ==> writer.flushed)
    }

    constructor (base: nat, max: nat, needInitialFlush: bool)
      requires 0 < base <= max
      ensures Valid() && Contents() == [] && !readDone && needFlush == needInitialFlush
      ensures storage.Length == 0 && fresh(storage)
    {
      this.base, this.max, size := base, max, base;
      readDone, needFlush, needWritePing, bulkReadSeen := false, needInitialFlush, false, false;
      startIndex, cacheLength := 0, 0;
      storage := new byte[0];
    }

    /** Only an empty buffer may change size; the next read allocates. */
    method ResizeEmpty(newSize: nat)
      requires Valid() && cacheLength == 0 && (newSize == base || newSize == max)
      modifies this`storage, this`size, this`startIndex
      ensures Valid() && Contents() == [] && size == newSize && startIndex == 0
      ensures storage == old(storage) || (fresh(storage) && storage.Length == 0)
    {
      if newSize != size {
        storage := new byte[0];
        size := newSize;
      }
      startIndex := 0;
    }

    /** Nothing buffered and nothing to do: give the storage back, and keep the larger size only
        if the last active period used it. */
    method ParkEmpty()
      requires Valid() && cacheLength == 0
      modifies this
      ensures Valid() && Contents() == []
      ensures storage.Length == 0 && fresh(storage)
      ensures size == if old(bulkReadSeen) then max else base
      ensures !bulkReadSeen && readDone == old(readDone) && needFlush == old(needFlush)
      ensures needWritePing == old(needWritePing) && cacheLength == 0
    {
      storage := new byte[0];
      ResizeEmpty(if bulkReadSeen then max else base);
      bulkReadSeen := false;
    }

    /** Allocates on the first read after a release. */
    method Ensure()
      requires Valid()
      modifies this`storage
      ensures Valid() && storage.Length == size && Contents() == old(Contents())
      ensures storage == old(storage) || fresh(storage)
    {
      if storage.Length == 0 {
        storage := new byte[size];
      }
    }

    /** Before a read: take the larger size if this is a bulk transfer and everything read so far
        has been written, and have storage. */
    method PrepareRead()
      requires Valid() && cacheLength < size
      modifies this`storage, this`size, this`startIndex
      ensures Valid() && cacheLength < size == storage.Length && Contents() == old(Contents())
      ensures storage == old(storage) || fresh(storage)
      ensures size == if old(bulkReadSeen) && cacheLength == 0 then max else old(size)
    {
      if bulkReadSeen && cacheLength == 0 && size < max {
        ResizeEmpty(max);
      }
      Ensure();
    }

    /** Polls the reader with the free part of the ring that is contiguous with its end.  The
        window is never empty. */
    method ReadWindow(reader: Reader) returns (r: Polled)
      requires Valid() && cacheLength < size == storage.Length
      modifies storage, reader
      ensures r.Count? ==>
        && |reader.script| < |old(reader.script)|
        && r.n <= |old(reader.source)|
        && (r.n == 0 ==> reader.source == [])
        && reader.source == old(reader.source)[r.n..]
        && reader.consumed == old(reader.consumed) + old(reader.source)[..r.n]
        && cacheLength + r.n <= size
        && Ring(storage[..], startIndex, cacheLength + r.n) == old(Contents()) + old(reader.source)[..r.n]
      ensures !r.Count? ==>
        && |reader.script| <= |old(reader.script)|
        && reader.source == old(reader.source) && reader.consumed == old(reader.consumed)
        && Contents() == old(Contents())
      ensures reader.waits == old(reader.waits) + (if r.NotReady? then 1 else 0)
      ensures reader.faults == old(reader.faults) + (if r.Failed? then 1 else 0)
    {
      hide Ring, Wrapped;
      WrapsOnce(startIndex + cacheLength, size);
      var lo := (startIndex + cacheLength) % size;
      var hi := if lo < startIndex then startIndex else size;
      ghost var data := storage[..];
      r := reader.PollRead(storage, lo, hi);
      if r.Count? {
        RingGrows(data, storage[..], startIndex, cacheLength, old(reader.source)[..r.n]);
      } else {
        assert storage[..] == data;
      }
    }

    /** One read; reading nothing means the end of the stream. */
    method ReadOnce(reader: Reader, ghost writer: Writer) returns (r: Polled)
      requires Piping(reader, writer) && cacheLength < size && !readDone
      modifies this, storage, reader
      ensures Piping(reader, writer)
      ensures storage == old(storage) || fresh(storage)
      ensures needFlush == old(needFlush) && needWritePing == old(needWritePing)
      ensures r.Count? ==> |reader.script| < |old(reader.script)|
      ensures |reader.script| <= |old(reader.script)|
      ensures reader.consumed + reader.source == old(reader.consumed + reader.source)
      ensures readDone <==> r == Count(0)
      ensures bulkReadSeen <==> old(bulkReadSeen) || (r.Count? && r.n >= base)
      ensures reader.waits == old(reader.waits) + (if r.NotReady? then 1 else 0)
      ensures reader.faults == old(reader.faults) + (if r.Failed? then 1 else 0)
    {
      hide Ring, Wrapped;
      PrepareRead();
      ghost var before := Contents();
      r := ReadWindow(reader);
      if r.Count? {
        ReadAssoc(writer.received, before, old(reader.source), r.n);
        if r.n == 0 {
          readDone := true;
        } else {
          cacheLength := cacheLength + r.n;
          if r.n >= base {
            bulkReadSeen := true;
          }
        }
      }
    }

    /** Reads until the buffer is full, the stream ends or blocks. */
    method ReadPhase(reader: Reader, ghost writer: Writer) returns (phase: Phase)
      requires Piping(reader, writer)
      modifies this, storage, reader
      ensures Piping(reader, writer)
      ensures storage == old(storage) || fresh(storage)
      ensures needFlush == old(needFlush) && needWritePing == old(needWritePing)
      ensures reader.consumed + reader.source == old(reader.consumed + reader.source)
      ensures phase == Continue(false) ==> readDone || cacheLength == size
      ensures |reader.script| <= |old(reader.script)|
      ensures phase == Continue(false) && !old(readDone) && old(cacheLength < size) ==>
        |reader.script| < |old(reader.script)|
      ensures reader.waits == old(reader.waits) + (if phase == Continue(true) then 1 else 0)
      ensures reader.faults == old(reader.faults) + (if phase.Abort? then 1 else 0)
    {
      hide Ring;
      while !readDone && cacheLength < size
        invariant Piping(reader, writer)
        invariant storage == old(storage) || fresh(storage)
        invariant needFlush == old(needFlush) && needWritePing == old(needWritePing)
        invariant reader.consumed + reader.source == old(reader.consumed + reader.source)
        invariant reader.waits == old(reader.waits) && reader.faults == old(reader.faults)
        invariant |reader.script| <= |old(reader.script)|
        invariant |reader.script| == |old(reader.script)| ==>
          readDone == old(readDone) && cacheLength == old(cacheLength) && size == old(size)
        decreases |reader.script|
      {
        var r := ReadOnce(reader, writer);
        match r
        case Failed => return Abort(ReadError);
        case NotReady => return Continue(true);
        case Count(_) =>
      }
      return Continue(false);
    }

    /** A ping, if one is due and there is no data to write instead. */
    method PingPhase(writer: Writer, ghost reader: Reader) returns (phase: Phase)
      requires Piping(reader, writer) && !writer.shut
      modifies this`needWritePing, this`needFlush, writer
      ensures Piping(reader, writer) && !writer.shut
      ensures writer.received == old(writer.received) && |writer.script| <= |old(writer.script)|
      ensures needWritePing <==> old(needWritePing) && cacheLength == 0 && phase != Continue(false)
      ensures old(needWritePing) && cacheLength == 0 && phase == Continue(false) ==>
        |writer.script| < |old(writer.script)|
      ensures writer.waits == old(writer.waits) + (if phase == Continue(true) then 1 else 0)
      ensures writer.faults == old(writer.faults) + (if phase.Abort? then 1 else 0)
    {
      if needWritePing {
        if cacheLength == 0 {
          var r := writer.PollPing();
          match r
          case Failed => return Abort(PingError);
          case NotReady => return Continue(true);
          case Count(n) =>
            needWritePing := false;
            if n > 0 {
              needFlush := true;
            }
        } else {
          needWritePing := false;
        }
      }
      return Continue(false);
    }

    /** One write of the part of the ring that is contiguous with its front. */
    method WriteOnce(writer: Writer, ghost reader: Reader) returns (r: Polled)
      requires Piping(reader, writer) && !writer.shut && cacheLength > 0
      modifies this`cacheLength, this`startIndex, this`needFlush, writer
      ensures Piping(reader, writer) && !writer.shut
      ensures |writer.script| <= |old(writer.script)|
      ensures r.Count? && r.n > 0 ==> |writer.script| < |old(writer.script)|
      ensures cacheLength == old(cacheLength) - (if r.Count? then r.n else 0)
      ensures writer.waits == old(writer.waits) + (if r.NotReady? then 1 else 0)
      ensures writer.faults == old(writer.faults) + (if r.Failed? || r == Count(0) then 1 else 0)
    {
      hide Ring, Wrapped;
      var end := Min(startIndex + cacheLength, size);
      ghost var before := Contents();
      r := writer.PollWrite(storage, startIndex, end);
      if r.Count? && r.n > 0 {
        RingShrinks(storage[..], startIndex, cacheLength, r.n);
        WrapsOnce(startIndex + r.n, size);
        assert storage[..][startIndex..startIndex + r.n] == storage[startIndex..startIndex + r.n];
        ghost var rest := Ring(storage[..], Wrapped(startIndex + r.n, size), cacheLength - r.n);
        AppendAssoc(old(writer.received), storage[startIndex..startIndex + r.n], rest);
        cacheLength := cacheLength - r.n;
        if cacheLength == 0 {
          startIndex := 0;
        } else {
          startIndex := (startIndex + r.n) % size;
        }
        needFlush := true;
      } else if r.Count? {
        assert storage[startIndex..startIndex + 0] == [];
      }
    }

    /** Writes until the buffer is empty or the writer blocks; a writer that accepts nothing is broken. */
    method WritePhase(writer: Writer, ghost reader: Reader) returns (phase: Phase)
      requires Piping(reader, writer) && !writer.shut
      modifies this`cacheLength, this`startIndex, this`needFlush, writer
      ensures Piping(reader, writer) && !writer.shut
      ensures |writer.script| <= |old(writer.script)|
      ensures phase == Continue(false) ==> cacheLength == 0
      ensures phase == Continue(false) && old(cacheLength) > 0 ==> |writer.script| < |old(writer.script)|
      ensures writer.waits == old(writer.waits) + (if phase == Continue(true) then 1 else 0)
      ensures writer.faults == old(writer.faults) + (if phase.Abort? then 1 else 0)
    {
      hide Ring;
      while cacheLength > 0
        invariant Piping(reader, writer) && !writer.shut
        invariant |writer.script| <= |old(writer.script)|
        invariant writer.waits == old(writer.waits) && writer.faults == old(writer.faults)
        invariant cacheLength == 0 && old(cacheLength) > 0 ==> |writer.script| < |old(writer.script)|
        decreases |writer.script|
      {
        var r := WriteOnce(writer, reader);
        match r
        case Failed => return Abort(WriteError);
        case NotReady => return Continue(true);
        case Count(n) =>
          if n == 0 {
            return Abort(WriteZero);
          }
      }
      return Continue(false);
    }

    /** The end of a pass: flush what was written, then finish, park or go round again. */
    method Settle(writer: Writer, ghost reader: Reader, blocked: bool) returns (r: Option<Poll>)
      requires Piping(reader, writer) && !writer.shut
      modifies this, writer
      ensures Piping(reader, writer) && !writer.shut
      ensures storage == old(storage) || fresh(storage)
      ensures writer.received == old(writer.received) && |writer.script| <= |old(writer.script)|
      ensures r == Some(Done) ==> readDone && cacheLength == 0 && writer.flushed && storage.Length == 0
      ensures r == Some(Pending) && cacheLength == 0 && !needFlush ==> storage.Length == 0
      ensures r.None? ==> !blocked && !(readDone && cacheLength == 0)
      ensures r.None? ==> readDone == old(readDone) && cacheLength == old(cacheLength)
      ensures writer.waits >= old(writer.waits) && writer.faults >= old(writer.faults)
      ensures needWritePing == old(needWritePing) && cacheLength == old(cacheLength)
      ensures r == Some(Pending) ==> blocked || writer.waits > old(writer.waits)
      ensures r == Some(Pending) ==> !needFlush || writer.waits > old(writer.waits)
      ensures r.Some? && r.value.Broken? <==> writer.faults > old(writer.faults)
    {
      hide Ring;
      if needFlush {
        var f := writer.PollFlush();
        match f
        case Failed => return Some(Broken(FlushError));
        case NotReady => return Some(Pending);
        case Count(_) => needFlush := false;
      }
      if readDone && cacheLength == 0 {
        storage := new byte[0];
        return Some(Done);
      }
      if blocked {
        if cacheLength == 0 {
          ParkEmpty();
        }
        return Some(Pending);
      }
      return None;
    }

    /** One pass of the loop; going round again uses up at least one outcome of the streams. */
    method Pass(reader: Reader, writer: Writer) returns (r: Option<Poll>)
      requires Piping(reader, writer) && !writer.shut
      modifies this, storage, reader, writer
      ensures Piping(reader, writer) && !writer.shut
      ensures storage == old(storage) || fresh(storage)
      ensures reader.consumed + reader.source == old(reader.consumed + reader.source)
      ensures r == Some(Done) ==> readDone && cacheLength == 0 && writer.flushed && storage.Length == 0
      ensures r == Some(Pending) && cacheLength == 0 && !needFlush ==> storage.Length == 0
      ensures r.None? ==> |reader.script| + |writer.script| < |old(reader.script)| + |old(writer.script)|
      ensures reader.waits >= old(reader.waits) && writer.waits >= old(writer.waits)
      ensures reader.faults >= old(reader.faults) && writer.faults >= old(writer.faults)
      ensures needWritePing ==>
        old(needWritePing) && reader.faults + writer.faults + writer.waits >
          old(reader.faults + writer.faults + writer.waits)
      ensures r == Some(Pending) ==> reader.waits + writer.waits > old(reader.waits + writer.waits)
      ensures r == Some(Pending) && (cacheLength > 0 || needFlush) ==> writer.waits > old(writer.waits)
      ensures r.Some? && r.value.Broken? <==> reader.faults + writer.faults > old(reader.faults + writer.faults)
    {
      hide Ring, Contents;
      var reading := ReadPhase(reader, writer);
      if reading.Abort? {
        return Some(Broken(reading.failure));
      }
      var pinging := PingPhase(writer, reader);
      if pinging.Abort? {
        return Some(Broken(pinging.failure));
      }
      var writing := WritePhase(writer, reader);
      if writing.Abort? {
        return Some(Broken(writing.failure));
      }
      r := Settle(writer, reader, reading.blocked || pinging.blocked || writing.blocked);
    }

    /** One poll.  `budget` is the runtime's cooperative budget.  With it, a poll ends only when the
        transfer is done or a stream was not ready or failed. */
    method PollCopy(budget: bool, reader: Reader, writer: Writer) returns (r: Poll)
      requires Piping(reader, writer) && !writer.shut
      modifies this, storage, reader, writer
      ensures Piping(reader, writer) && !writer.shut
      ensures storage == old(storage) || fresh(storage)
      ensures reader.consumed + reader.source == old(reader.consumed + reader.source)
      ensures r.Done? ==>
        reader.source == [] && writer.received == reader.consumed && writer.flushed && storage.Length == 0
      ensures r.Pending? && budget && cacheLength == 0 && !needFlush ==> storage.Length == 0
      ensures reader.waits >= old(reader.waits) && writer.waits >= old(writer.waits)
      ensures reader.faults >= old(reader.faults) && writer.faults >= old(writer.faults)
      ensures budget && r.Pending? ==> reader.waits + writer.waits > old(reader.waits + writer.waits)
      ensures r.Broken? <==> reader.faults + writer.faults > old(reader.faults + writer.faults)
      // Bytes stay behind, unwritten or not flushed, only if the writer was not ready.
      ensures budget && r.Pending? && (cacheLength > 0 || needFlush) ==> writer.waits > old(writer.waits)
      ensures !budget ==> r.Pending? && needWritePing == old(needWritePing)
      // A ping that was due is still due only if the writer was not ready or something failed.
      ensures needWritePing ==> old(needWritePing)
      ensures budget && needWritePing ==>
        reader.faults + writer.faults + writer.waits > old(reader.faults + writer.faults + writer.waits)
    {
      if !budget {
        return Pending;
      }
      while true
        invariant Piping(reader, writer) && !writer.shut
        invariant storage == old(storage) || fresh(storage)
        invariant reader.consumed + reader.source == old(reader.consumed + reader.source)
        invariant reader.waits >= old(reader.waits) && writer.waits >= old(writer.waits)
        invariant reader.faults == old(reader.faults) && writer.faults == old(writer.faults)
        invariant needWritePing ==> old(needWritePing)
        decreases |reader.script| + |writer.script|
      {
        var pass := Pass(reader, writer);
        if pass.Some? {
          return pass.value;
        }
      }
    }
  }

  /** Moving the first `n` bytes from the source to the ring. */
  lemma ReadAssoc(received: seq<byte>, ring: seq<byte>, source: seq<byte>, n: nat)
    requires n <= |source|
    ensures (received + ring) + source[..n] == received + (ring + source[..n])
    ensures ((received + ring) + source[..n]) + source[n..] == (received + ring) + source
    ensures n == 0 ==> ring + source[..n] == ring
  {
    assert source == source[..n] + source[n..];
  }

  lemma AppendAssoc(a: seq<byte>, b: seq<byte>, c: seq<byte>)
    ensures (a + b) + c == a + (b + c)
  {
  }
}
