/** StreamReader (src/stream_reader.rs): reads lines and slices from a byte stream through one fixed
    buffer.  What it returns is a function of the bytes alone, however the network cut them. */
module StreamReader {
  import opened Common

  const CR: byte := 13
  const LF: byte := 10

  /** What the next read of the stream does: deliver at most `limit` bytes (one at least), be
      interrupted, or fail. */
  datatype Event = Deliver(limit: nat) | Interrupted | Failed

  datatype StreamResult = Bytes(bytes: seq<byte>) | Interruption | Failure

  /** The peer: the bytes it still has to send and how the coming reads go. */
  class Stream {
    var data: seq<byte>
    var events: seq<Event>

    constructor (data: seq<byte>, events: seq<Event>)
      ensures this.data == data && this.events == events
    {
      this.data, this.events := data, events;
    }

    /** One read into a window of the given size; no bytes only at the end of the stream or if the
        window is empty. */
    method Read(window: nat) returns (r: StreamResult)
      modifies this
      ensures r.Bytes? ==> old(data) == r.bytes + data && |r.bytes| <= window
      ensures r == Bytes([]) <==> (window == 0 || old(data) == []) && (old(events) == [] || old(events)[0].Deliver?)
      ensures !r.Bytes? ==> data == old(data)
      ensures r.Failure? ==> Failed in old(events)
      ensures Failed in events ==> Failed in old(events)
      ensures r.Interruption? ==> |events| < |old(events)|
    {
      var limit := window;
      if events != [] {
        var event := events[0];
        events := events[1..];
        if event.Interrupted? { return Interruption; }
        if event.Failed? { return Failure; }
        limit := Min(Max(event.limit, 1), window);
      }
      limit := Min(limit, |data|);
      r := Bytes(data[..limit]);
      data := data[limit..];
    }
  }

  // ----- what a line read means

  /** The index of the first LF, or the length if there is none. */
  function FirstLf(s: seq<byte>): (k: nat)
    ensures k <= |s|
    ensures k < |s| ==> s[k] == LF
    ensures forall j :: 0 <= j < k ==> s[j] != LF
  {
    if s == [] || s[0] == LF then 0 else 1 + FirstLf(s[1..])
  }

  datatype LineResult = Line(line: seq<byte>) | BareLf | BufferFull | EndOfStream | StreamFailed

  /** The line that the LF at index `k` ends. */
  function LineAt(s: seq<byte>, k: nat, allowBareLf: bool): (r: LineResult)
    requires k < |s|
    ensures !r.StreamFailed?
  {
    if k > 0 && s[k - 1] == CR then Line(s[..k - 1])
    else if allowBareLf then Line(s[..k])
    else BareLf
  }

  /** The line at the front of the unread bytes, for a buffer of `size` bytes. */
  function NextLine(all: seq<byte>, size: nat, allowBareLf: bool): (r: LineResult)
    ensures !r.StreamFailed?
  {
    var k := FirstLf(all);
    if k < |all| && k < size then LineAt(all, k, allowBareLf)
    else if |all| >= size then BufferFull
    else EndOfStream
  }

  /** What is unread after it: only a successful read consumes. */
  function AfterLine(all: seq<byte>, r: LineResult): seq<byte> {
    if r.Line? && FirstLf(all) < |all| then all[FirstLf(all) + 1..] else all
  }

  /** The bytes looked at to find that line: each once, none beyond its LF. */
  function Looked(all: seq<byte>, size: nat): seq<byte> {
    all[..Min(FirstLf(all) + 1, Min(|all|, size))]
  }

  /** What waiting for `length` bytes ends in. */
  function FillResult(available: nat, size: nat, length: nat): LineResult {
    if length <= available && length <= size then Line([])
    else if size < length && size <= available then BufferFull
    else EndOfStream
  }

  lemma FirstLfIs(s: seq<byte>, k: nat)
    requires k <= |s| && (forall j :: 0 <= j < k ==> s[j] != LF) && (k < |s| ==> s[k] == LF)
    ensures FirstLf(s) == k
  {
    var f := FirstLf(s);
    assert f < |s| ==> s[f] == LF;
    assert k < |s| ==> s[k] == LF;
  }

  /** The bytes begin with this line and this ending, and both fit the buffer. */
  ghost predicate Begins(all: seq<byte>, line: seq<byte>, ending: seq<byte>, size: nat) {
    LF !in line && |line| + |ending| <= size && line + ending <= all
  }

  ghost predicate EndsInCr(line: seq<byte>) {
    line != [] && line[|line| - 1] == CR
  }

  /** Read: the line that CRLF ends, or, where it is allowed, a bare LF.  Refused: exactly a bare LF
      where it is not.  Full and ended: exactly if there is no LF in what the buffer can hold. */
  lemma NextLineMeans(all: seq<byte>, size: nat, allowBareLf: bool, line: seq<byte>)
    ensures NextLine(all, size, allowBareLf) == Line(line) <==>
              || Begins(all, line, [CR, LF], size)
              || (allowBareLf && Begins(all, line, [LF], size) && !EndsInCr(line))
    ensures NextLine(all, size, allowBareLf) == BareLf <==>
              !allowBareLf && exists l :: Begins(all, l, [LF], size) && !EndsInCr(l)
    ensures NextLine(all, size, allowBareLf) == BufferFull <==> size <= |all| && LF !in all[..size]
    ensures NextLine(all, size, allowBareLf) == EndOfStream <==> |all| < size && LF !in all
  {
    var k := FirstLf(all);
    if k < |all| && k < size {
      assert all[k] == LF;
      BeginsAt(all, size, k);
      forall l ensures Begins(all, l, [LF], size) <==> l == all[..k] {
        BeginsOnly(all, l, [LF], size, k);
      }
      BeginsOnly(all, line, [CR, LF], size, k);
      if k > 0 && all[k - 1] == CR {
        assert all[..k] == all[..k - 1] + [CR];
      }
    } else {
      forall l, ending | ending in [[LF], [CR, LF]] ensures !Begins(all, l, ending, size) {
        BeginsNever(all, l, ending, size);
      }
    }
  }

  lemma BeginsAt(all: seq<byte>, size: nat, k: nat)
    requires k == FirstLf(all) < |all| && k < size
    ensures Begins(all, all[..k], [LF], size)
    ensures k > 0 && all[k - 1] == CR ==> Begins(all, all[..k - 1], [CR, LF], size)
  {
    hide FirstLf;
    assert all[..k] + [LF] == all[..k + 1];
    if k > 0 && all[k - 1] == CR {
      assert all[..k - 1] + [CR, LF] == all[..k + 1];
    }
  }

  /** The LF of the ending is the first one. */
  lemma BeginsOnly(all: seq<byte>, line: seq<byte>, ending: seq<byte>, size: nat, k: nat)
    requires ending == [LF] || ending == [CR, LF]
    requires k == FirstLf(all) < |all| && k < size
    ensures Begins(all, line, ending, size) <==>
              |ending| <= k + 1 && line == all[..k + 1 - |ending|] && all[k + 1 - |ending|..k + 1] == ending
  {
    hide FirstLf;
    if Begins(all, line, ending, size) {
      EndingEnds(all, line, ending);
    }
    if |ending| <= k + 1 && line == all[..k + 1 - |ending|] && all[k + 1 - |ending|..k + 1] == ending {
      assert line + ending == all[..k + 1];
    }
  }

  lemma EndingEnds(all: seq<byte>, line: seq<byte>, ending: seq<byte>)
    requires ending == [LF] || ending == [CR, LF]
    requires LF !in line && line + ending <= all
    ensures var m := |line| + |ending| - 1;
            FirstLf(all) == m < |all| && line == all[..|line|] && all[|line|..m + 1] == ending
  {
    hide FirstLf;
    var m := |line| + |ending| - 1;
    assert forall j :: 0 <= j < |line| ==> all[j] == line[j];
    assert forall j :: |line| <= j <= m ==> all[j] == ending[j - |line|];
    FirstLfIs(all, m);
  }

  lemma BeginsNever(all: seq<byte>, line: seq<byte>, ending: seq<byte>, size: nat)
    requires ending == [LF] || ending == [CR, LF]
    requires FirstLf(all) >= size || FirstLf(all) == |all|
    ensures !Begins(all, line, ending, size)
  {
    hide FirstLf;
    if Begins(all, line, ending, size) {
      EndingEnds(all, line, ending);
    }
  }

  /** A LF found in the buffered part is the first one of all. */
  lemma FoundInBuffer(unread: seq<byte>, rest: seq<byte>, k: nat, size: nat, allowBareLf: bool)
    requires k < |unread| <= size && unread[k] == LF && LF !in unread[..k]
    ensures var all := unread + rest;
            var r := LineAt(unread, k, allowBareLf);
            && NextLine(all, size, allowBareLf) == r
            && AfterLine(all, r) == (if r.Line? then unread[k + 1..] + rest else all)
            && Looked(all, size) == unread[..k + 1]
  {
    var all := unread + rest;
    assert forall j :: 0 <= j < k ==> all[j] == unread[..k][j];
    FirstLfIs(all, k);
    assert all[..k] == unread[..k];
    if k > 0 {
      assert all[..k - 1] == unread[..k - 1];
    }
    assert all[k + 1..] == unread[k + 1..] + rest;
  }

  /** Without one, the buffer being full or the stream at its end decides. */
  lemma NotInBuffer(unread: seq<byte>, rest: seq<byte>, size: nat, allowBareLf: bool)
    requires |unread| <= size && forall j :: 0 <= j < |unread| ==> unread[j] != LF
    requires |unread| == size || rest == []
    ensures NextLine(unread + rest, size, allowBareLf) == (if |unread| == size then BufferFull else EndOfStream)
    ensures Looked(unread + rest, size) == unread
  {
    var all := unread + rest;
    assert forall j :: 0 <= j < |unread| ==> all[j] == unread[j];
    assert FirstLf(all) < |all| ==> all[FirstLf(all)] == LF;
  }

  /** The first `m` unread bytes were looked at, and hold no LF. */
  ghost predicate Searched(unread: seq<byte>, m: int, looked: seq<byte>) {
    0 <= m <= |unread| && looked == unread[..m] && LF !in looked
  }

  /** After looking on up to index `n`, where a LF or the end was found. */
  lemma SearchedMore(unread: seq<byte>, m: int, looked: seq<byte>, n: int, seen: seq<byte>)
    requires Searched(unread, m, looked) && m <= n <= |unread| && LF !in unread[m..n]
    requires seen == if n < |unread| then unread[m..n + 1] else unread[m..n]
    ensures LF !in unread[..n]
    ensures looked + seen == if n < |unread| then unread[..n + 1] else unread
  {
    assert unread[..n] == looked + unread[m..n];
  }

  /** A part of a part. */
  lemma SliceOfSlice(s: seq<byte>, from: nat, to: nat, i: nat, j: nat)
    requires from <= to <= |s| && i <= j <= to - from
    ensures s[from..to][i..j] == s[from + i..from + j]
  {
    var a, b := s[from..to][i..j], s[from + i..from + j];
    assert |a| == |b| && forall k :: 0 <= k < |a| ==> a[k] == b[k];
  }

  class Reader {
    const buf: array<byte>
    var startOffset: nat
    var endOffset: nat
    const allowBareLf: bool

    constructor (size: nat, allowBareLf: bool)
      ensures Valid() && fresh(buf) && buf.Length == size && this.allowBareLf == allowBareLf && Unread() == []
    {
      this.buf := new byte[size];
      this.startOffset, this.endOffset := 0, 0;
      this.allowBareLf := allowBareLf;
    }

    ghost predicate Valid()
      reads this
    {
      startOffset <= endOffset <= buf.Length
    }

    ghost function Unread(): (s: seq<byte>)
      requires Valid()
      reads this, buf
      ensures |s| == endOffset - startOffset
    {
      buf[startOffset..endOffset]
    }

    /** The unread bytes and those the stream will still send. */
    ghost function All(stream: Stream): seq<byte>
      requires Valid()
      reads this, buf, stream
    {
      Unread() + stream.data
    }

    /** Moves the unread bytes to the front of the buffer. */
    method ResetBufOffset()
      requires Valid()
      modifies this, buf
      ensures Valid() && startOffset == 0 && Unread() == old(Unread())
    {
      if startOffset == 0 { return; }
      var count := endOffset - startOffset;
      var i := 0;
      while i < count
        invariant 0 <= i <= count && startOffset == old(startOffset) && endOffset == old(endOffset)
        invariant forall j :: 0 <= j < i ==> buf[j] == old(buf[startOffset + j])
        invariant forall j :: i + startOffset <= j < endOffset ==> buf[j] == old(buf[j])
      {
        buf[i] := buf[startOffset + i];
        i := i + 1;
      }
      startOffset, endOffset := 0, count;
      assert Unread() == old(Unread());
    }

    predicate IsCacheFull()
      reads this
    {
      startOffset == 0 && endOffset == buf.Length
    }

    /** Appends what was read at the end of the unread bytes. */
    method Append(bytes: seq<byte>)
      requires Valid() && endOffset + |bytes| <= buf.Length
      modifies this`endOffset, buf
      ensures Valid() && Unread() == old(Unread()) + bytes
    {
      var i := 0;
      while i < |bytes|
        invariant 0 <= i <= |bytes| && endOffset == old(endOffset)
        invariant forall j :: 0 <= j < i ==> buf[endOffset + j] == bytes[j]
        invariant forall j :: 0 <= j < endOffset ==> buf[j] == old(buf[j])
      {
        buf[endOffset + i] := bytes[i];
        i := i + 1;
      }
      endOffset := endOffset + |bytes|;
      assert Unread() == old(Unread()) + bytes;
    }

    /** Takes in more of the stream: one read that delivers, however often it is interrupted.  The
        window offered is never empty, so no bytes always means the end. */
    method Read(stream: Stream) returns (r: LineResult)
      requires Valid() && stream as object != this && stream as object != buf
      modifies this, buf, stream
      ensures Valid() && All(stream) == old(All(stream))
      ensures Failed in stream.events ==> Failed in old(stream.events)
      ensures r == (if old(IsCacheFull()) then BufferFull
                    else if r.StreamFailed? then r
                    else if old(stream.data) == [] then EndOfStream
                    else Line([]))
      ensures r.StreamFailed? ==> Failed in old(stream.events)
      ensures old(Unread()) <= Unread() && (r.Line? ==> startOffset == 0 && |stream.data| < |old(stream.data)|)
      ensures !r.Line? ==> stream.data == old(stream.data) && Unread() == old(Unread())
    {
      if IsCacheFull() { return BufferFull; }
      ResetBufOffset();
      while true
        invariant Valid() && startOffset == 0 && endOffset < buf.Length
        invariant stream.data == old(stream.data) && Unread() == old(Unread())
        invariant Failed in stream.events ==> Failed in old(stream.events)
        decreases |stream.events|
      {
        var got := stream.Read(buf.Length - endOffset);
        match got {
          case Bytes(bytes) =>
            if bytes == [] { return EndOfStream; }
            Append(bytes);
            return Line([]);
          case Interruption =>
          case Failure => return StreamFailed;
        }
      }
    }

    /** The position of the first LF in a part of the buffer; `seen` are the bytes read to find it. */
    method FindLf(from: nat, to: nat) returns (pos: Option<nat>, ghost seen: seq<byte>)
      requires from <= to <= buf.Length
      ensures pos.None? ==> forall j :: from <= j < to ==> buf[j] != LF
      ensures pos.Some? ==>
        from <= pos.value < to && buf[pos.value] == LF && forall j :: from <= j < pos.value ==> buf[j] != LF
      ensures seen == if pos.Some? then buf[from..pos.value + 1] else buf[from..to]
    {
      var i := from;
      seen := [];
      while i < to
        invariant from <= i <= to && forall j :: from <= j < i ==> buf[j] != LF
        invariant seen == buf[from..i]
      {
        var next := buf[i];
        seen := seen + [next];
        if next == LF { return Some(i), seen; }
        i := i + 1;
      }
      pos := None;
    }

    /** Skips bytes that are buffered. */
    method Consume(length: nat)
      requires Valid() && length <= |Unread()|
      modifies this`startOffset, this`endOffset
      ensures Valid() && Unread() == old(Unread()[length..])
    {
      var next := startOffset + length;
      if next == endOffset {
        startOffset, endOffset := 0, 0;
      } else {
        startOffset := next;
      }
    }

    /** The line that the LF found ends, without its ending. */
    method LineBefore(newline: nat) returns (r: LineResult)
      requires Valid() && startOffset <= newline < endOffset
      ensures r == LineAt(Unread(), newline - startOffset, allowBareLf)
    {
      var carriageReturn := newline > startOffset && buf[newline - 1] == CR;
      if !carriageReturn && !allowBareLf { return BareLf; }
      var lineEnd := if carriageReturn then newline - 1 else newline;
      assert buf[startOffset..lineEnd] == Unread()[..lineEnd - startOffset];
      r := Line(buf[startOffset..lineEnd]);
    }

    /** Takes the line that ends at the LF found. */
    method TakeLine(newline: nat, stream: Stream) returns (r: LineResult)
      requires Valid() && startOffset <= newline < endOffset && buf[newline] == LF
      requires LF !in Unread()[..newline - startOffset]
      requires stream as object != this
      modifies this`startOffset, this`endOffset
      ensures Valid()
      ensures r == NextLine(old(All(stream)), buf.Length, allowBareLf)
      ensures All(stream) == AfterLine(old(All(stream)), r)
      ensures Looked(old(All(stream)), buf.Length) == old(Unread()[..newline + 1 - startOffset])
    {
      ghost var unread, k := Unread(), newline - startOffset;
      FoundInBuffer(unread, stream.data, k, buf.Length, allowBareLf);
      hide NextLine, AfterLine, Looked, FirstLf, LineAt;
      r := LineBefore(newline);
      if r.Line? {
        Consume(newline + 1 - startOffset);
      }
    }

    /** Looks for a LF in what was not looked at yet. */
    method Search(searchStart: nat, ghost looked: seq<byte>) returns (pos: Option<nat>, ghost lookedNow: seq<byte>)
      requires Valid() && startOffset <= searchStart && Searched(Unread(), searchStart - startOffset, looked)
      ensures pos.None? ==> Searched(Unread(), |Unread()|, lookedNow)
      ensures pos.Some? ==>
        && startOffset <= pos.value < endOffset && buf[pos.value] == LF
        && LF !in Unread()[..pos.value - startOffset]
        && lookedNow == Unread()[..pos.value + 1 - startOffset]
    {
      ghost var seen;
      pos, seen := FindLf(searchStart, endOffset);
      ghost var unread, m := Unread(), searchStart - startOffset;
      ghost var n := if pos.Some? then pos.value - startOffset else |unread|;
      SliceOfSlice(buf[..], startOffset, endOffset, m, n);
      SliceOfSlice(buf[..], startOffset, endOffset, m, if pos.Some? then n + 1 else n);
      assert buf[..][searchStart..startOffset + n] == buf[searchStart..startOffset + n];
      SearchedMore(unread, m, looked, n, seen);
      lookedNow := looked + seen;
      assert unread[..|unread|] == unread;
    }

    /** Reads on after a search that found nothing, and keeps the place where it stopped. */
    method ReadOn(stream: Stream, ghost looked: seq<byte>) returns (r: LineResult, searchStart: nat)
      requires Valid() && stream as object != this && stream as object != buf
      requires Searched(Unread(), |Unread()|, looked)
      modifies this, buf, stream
      ensures Valid() && All(stream) == old(All(stream)) && (Failed in stream.events ==> Failed in old(stream.events))
      ensures r.Line? ==>
        && |stream.data| < |old(stream.data)|
        && startOffset <= searchStart && Searched(Unread(), searchStart - startOffset, looked)
      ensures r.StreamFailed? ==> Failed in old(stream.events)
      ensures !r.Line? && !r.StreamFailed? ==>
        r == NextLine(All(stream), buf.Length, allowBareLf) && looked == Looked(All(stream), buf.Length)
    {
      ghost var before := Unread();
      var previousStart, searchEnd := startOffset, endOffset;
      if IsCacheFull() || stream.data == [] {
        NotInBuffer(before, stream.data, buf.Length, allowBareLf);
      }
      hide NextLine, Looked;
      r := Read(stream);
      if previousStart != startOffset {
        searchStart := searchEnd - previousStart;
      } else {
        searchStart := searchEnd;
      }
    }

    /** The next line: what it returns, what it leaves and which bytes it looked at are functions of
        the bytes alone, unless the stream itself fails. */
    method ReadLineBytes(stream: Stream) returns (r: LineResult, ghost looked: seq<byte>)
      requires Valid() && stream as object != this && stream as object != buf
      modifies this, buf, stream
      ensures Valid() && (Failed in stream.events ==> Failed in old(stream.events))
      ensures r.StreamFailed? ==> Failed in old(stream.events) && All(stream) == old(All(stream))
      ensures !r.StreamFailed? ==>
        && r == NextLine(old(All(stream)), buf.Length, allowBareLf)
        && All(stream) == AfterLine(old(All(stream)), r)
        && looked == Looked(old(All(stream)), buf.Length)
    {
      var searchStart := startOffset;
      looked := [];
      assert Searched(Unread(), 0, looked);
      hide NextLine, Looked, Searched, Unread, All;
      while true
        invariant Valid() && startOffset <= searchStart
        invariant Searched(Unread(), searchStart - startOffset, looked)
        invariant All(stream) == old(All(stream))
        invariant Failed in stream.events ==> Failed in old(stream.events)
        decreases |stream.data|
      {
        var pos;
        pos, looked := Search(searchStart, looked);
        if pos.Some? {
          r := TakeLine(pos.value, stream);
          return;
        }
        r, searchStart := ReadOn(stream, looked);
        if !r.Line? { return; }
      }
    }

    /** Reads until `length` bytes are buffered. */
    method Fill(stream: Stream, length: nat) returns (r: LineResult)
      requires Valid() && stream as object != this && stream as object != buf
      modifies this, buf, stream
      ensures Valid() && All(stream) == old(All(stream)) && (Failed in stream.events ==> Failed in old(stream.events))
      ensures r.StreamFailed? ==> Failed in old(stream.events)
      ensures !r.StreamFailed? ==> r == FillResult(|old(All(stream))|, buf.Length, length)
      ensures r.Line? ==> length <= |Unread()|
    {
      while endOffset - startOffset < length
        invariant Valid() && All(stream) == old(All(stream))
        invariant Failed in stream.events ==> Failed in old(stream.events)
        decreases |stream.data|
      {
        r := Read(stream);
        if !r.Line? { return; }
      }
      r := Line([]);
    }

    /** The next `length` bytes, left in place. */
    method PeekSlice(stream: Stream, length: nat) returns (r: Option<LineResult>)
      requires Valid() && stream as object != this && stream as object != buf
      modifies this, buf, stream
      ensures Valid() && All(stream) == old(All(stream))
      ensures r.None? <==> length > buf.Length
      ensures r.Some? && !r.value.StreamFailed? ==>
        r.value == (if length <= |old(All(stream))| then Line(old(All(stream))[..length]) else EndOfStream)
      ensures r.Some? && r.value.Line? ==> length <= |Unread()|
      ensures r == Some(StreamFailed) ==> Failed in old(stream.events)
    {
      if length > buf.Length { return None; }
      var filled := Fill(stream, length);
      if !filled.Line? { return Some(filled); }
      assert buf[startOffset..startOffset + length] == All(stream)[..length];
      return Some(Line(buf[startOffset..startOffset + length]));
    }

    /** The next `length` bytes, taken. */
    method ReadSlice(stream: Stream, length: nat) returns (r: Option<LineResult>)
      requires Valid() && stream as object != this && stream as object != buf
      modifies this, buf, stream
      ensures Valid()
      ensures r.None? <==> length > buf.Length
      ensures r.Some? && !r.value.StreamFailed? ==>
        r.value == (if length <= |old(All(stream))| then Line(old(All(stream))[..length]) else EndOfStream)
      ensures r == Some(StreamFailed) ==> Failed in old(stream.events)
      ensures All(stream) == if r.Some? && r.value.Line? then old(All(stream))[length..] else old(All(stream))
    {
      r := PeekSlice(stream, length);
      if r.Some? && r.value.Line? {
        Consume(length);
      }
    }

    /** A big-endian 16-bit number. */
    method ReadU16(stream: Stream) returns (r: LineResult, value: nat)
      requires Valid() && stream as object != this && stream as object != buf
      modifies this, buf, stream
      ensures Valid()
      ensures r.StreamFailed? ==> Failed in old(stream.events)
      ensures !r.StreamFailed? ==> r == FillResult(|old(All(stream))|, buf.Length, 2)
      ensures r.Line? ==>
        && |old(All(stream))| >= 2 && All(stream) == old(All(stream))[2..]
        && value == 256 * old(All(stream))[0] as nat + old(All(stream))[1] as nat
      ensures !r.Line? ==> All(stream) == old(All(stream))
    {
      value := 0;
      r := Fill(stream, 2);
      if r.Line? {
        value := 256 * buf[startOffset] as nat + buf[startOffset + 1] as nat;
        Consume(2);
      }
    }
  }

  // ----- many lines

  /** Reading lines until one fails or `count` are read. */
  function Lines(all: seq<byte>, size: nat, allowBareLf: bool, count: nat): seq<seq<byte>> {
    if count == 0 then []
    else
      var r := NextLine(all, size, allowBareLf);
      if r.Line? then [r.line] + Lines(AfterLine(all, r), size, allowBareLf, count - 1) else []
  }

  function Rendered(lines: seq<seq<byte>>): seq<byte> {
    if lines == [] then [] else lines[0] + [CR, LF] + Rendered(lines[1..])
  }

  ghost predicate IsLine(line: seq<byte>, size: nat) {
    LF !in line && |line| + 2 <= size
  }

  lemma LineAtFront(line: seq<byte>, rest: seq<byte>, size: nat, allowBareLf: bool)
    requires IsLine(line, size)
    ensures var all := line + [CR, LF] + rest;
            NextLine(all, size, allowBareLf) == Line(line) && AfterLine(all, Line(line)) == rest
  {
    var all := line + [CR, LF] + rest;
    assert forall j :: 0 <= j < |line| ==> all[j] == line[j];
    FirstLfIs(all, |line| + 1);
    assert all[..|line|] == line;
  }

  /** Lines written with CRLF are read back, whatever follows and whether or not a bare LF is
      allowed, if each fits the buffer with its ending. */
  lemma {:induction false} LinesRoundTrip(lines: seq<seq<byte>>, rest: seq<byte>, size: nat, allowBareLf: bool)
    requires forall i :: 0 <= i < |lines| ==> IsLine(lines[i], size)
    ensures Lines(Rendered(lines) + rest, size, allowBareLf, |lines|) == lines
  {
    hide NextLine, AfterLine;
    if lines != [] {
      var all := Rendered(lines) + rest;
      var tail := Rendered(lines[1..]) + rest;
      assert all == lines[0] + [CR, LF] + tail;
      LineAtFront(lines[0], tail, size, allowBareLf);
      LinesRoundTrip(lines[1..], rest, size, allowBareLf);
    }
  }

  /** Any number of line reads over any stream that does not fail give the lines of its bytes. */
  method ReadLines(reader: Reader, stream: Stream, count: nat) returns (lines: seq<seq<byte>>)
    requires reader.Valid() && stream as object != reader && stream as object != reader.buf
    requires Failed !in stream.events
    modifies reader, reader.buf, stream
    ensures lines == Lines(old(reader.All(stream)), reader.buf.Length, reader.allowBareLf, count)
  {
    lines := [];
    hide NextLine, AfterLine, reader.Unread, reader.All;
    var i := 0;
    while i < count
      invariant 0 <= i <= count && reader.Valid() && Failed !in stream.events
      invariant Lines(old(reader.All(stream)), reader.buf.Length, reader.allowBareLf, count)
             == lines + Lines(reader.All(stream), reader.buf.Length, reader.allowBareLf, count - i)
    {
      var r, looked := reader.ReadLineBytes(stream);
      if !r.Line? { return; }
      lines := lines + [r.line];
      i := i + 1;
    }
  }
}
