/** Batched receives (src/hysteria2_obfs.rs, decode_received_meta): one buffer holds several raw
    datagrams of `stride` bytes (the last may be shorter).  They are unmasked and moved
    together inside the buffer, and the metadata is rewritten to describe the result. */
module Gro {
  import opened Common
  import opened Salamander
  import opened Slots

  /** How the metadata (length, stride) cuts a buffer into datagrams. */
  function Segments(data: seq<byte>, stride: nat): seq<seq<byte>>
    requires stride > 0
  {
    if data == [] then []
    else if |data| <= stride then [data]
    else [data[..stride]] + Segments(data[stride..], stride)
  }

  /** The payloads of the datagrams that carry one, in order. */
  ghost function Payloads(ks: Keystream, password: seq<byte>, raw: seq<seq<byte>>): seq<seq<byte>> {
    if raw == [] then []
    else
      var rest := Payloads(ks, password, raw[1..]);
      match Unmasked(ks, password, raw[0])
      case None => rest
      case Some(p) => [p] + rest
  }

  /** All parts have length `size` except the last, which is shorter or equal; none is empty. */
  ghost predicate EvenlyCut(parts: seq<seq<byte>>, size: int) {
    && (forall i :: 0 <= i < |parts| ==> 0 < |parts[i]| <= size)
    && (forall i :: 0 <= i < |parts| - 1 ==> |parts[i]| == size)
  }

  lemma {:induction false} ResplitConcat(parts: seq<seq<byte>>, size: nat)
    requires size > 0 && EvenlyCut(parts, size)
    ensures Segments(Concat(parts), size) == parts
  {
    if parts == [] {
    } else if |parts| == 1 {
      assert Concat(parts[1..]) == [];
      assert Concat(parts) == parts[0];
    } else {
      var rest := parts[1..];
      ResplitConcat(rest, size);
      assert Concat(rest) == rest[0] + Concat(rest[1..]);
      var all := Concat(parts);
      assert |all| > size;
      assert all[..size] == parts[0] && all[size..] == Concat(rest);
    }
  }

  method CopyDown(buf: array<byte>, from: nat, count: nat, to: nat)
    requires to <= from && from + count <= buf.Length
    modifies buf
    ensures buf[to..to + count] == old(buf[from..from + count])
    ensures forall j :: 0 <= j < buf.Length && !(to <= j < to + count) ==> buf[j] == old(buf[j])
  {
    ghost var source := buf[from..from + count];
    var i := 0;
    while i < count
      invariant 0 <= i <= count
      invariant buf[to..to + i] == source[..i]
      invariant forall j :: 0 <= j < buf.Length && !(to <= j < to + i) ==> buf[j] == old(buf[j])
    {
      assert buf[from + i] == source[i];
      buf[to + i] := buf[from + i];
      i := i + 1;
      assert buf[to..to + i] == buf[to..to + i - 1] + [source[i - 1]];
    }
  }

  /** Reading the buffer again with the returned metadata gives exactly the payloads of the raw
      datagrams longer than a salt, in order.  Bytes beyond the received length are untouched. */
  method DecodeReceivedMeta(ks: Keystream, password: seq<byte>, buf: array<byte>, len: nat, stride: nat)
    returns (newLen: nat, newStride: nat)
    requires len <= buf.Length
    modifies buf
    ensures len == 0 ==> newLen == 0 && newStride == stride && buf[..] == old(buf[..])
    ensures len > 0 ==>
      var payloads := Payloads(ks, password, Segments(old(buf[..len]), if stride == 0 then len else stride));
      && newLen <= len
      && (newStride > 0 <==> payloads != [])
      && (newStride == 0 ==> newLen == 0)
      && (newStride > 0 ==> Segments(buf[..newLen], newStride) == payloads)
    ensures forall j :: len <= j < buf.Length ==> buf[j] == old(buf[j])
  {
    if len == 0 {
      return 0, stride;
    }
    var rawStride := if stride == 0 then len else stride;
    var writeOffset, firstPayloadLen := DecodeBatch(ks, password, buf, len, rawStride);
    ProgressEnd(ks, password, old(buf[..len]), rawStride, buf[..writeOffset], firstPayloadLen);
    match firstPayloadLen
    case Some(s) => return writeOffset, s;
    case None => return 0, 0;
  }

  /** The loop over the raw datagrams. */
  method DecodeBatch(ks: Keystream, password: seq<byte>, buf: array<byte>, len: nat, rawStride: nat)
    returns (writeOffset: nat, firstPayloadLen: Option<nat>)
    requires len <= buf.Length && 0 < rawStride
    modifies buf
    ensures writeOffset <= len
    ensures Progress(ks, password, old(buf[..len]), rawStride, buf[..writeOffset], len, firstPayloadLen)
    ensures forall j :: len <= j < buf.Length ==> buf[j] == old(buf[j])
  {
    hide Unmasked, Progress;
    ghost var raw := buf[..len];
    var readOffset := 0;
    writeOffset, firstPayloadLen := 0, None;
    ProgressStart(ks, password, raw, rawStride);
    assert buf[..0] == [];
    while readOffset < len
      invariant 0 <= writeOffset <= readOffset <= len
      invariant forall j :: readOffset <= j < buf.Length ==> buf[j] == old(buf[j])
      invariant buf[readOffset..len] == raw[readOffset..]
      invariant Progress(ks, password, raw, rawStride, buf[..writeOffset], readOffset, firstPayloadLen)
      decreases len - readOffset
    {
      var rawLen := Min(rawStride, len - readOffset);
      ghost var written := buf[..writeOffset];
      ghost var packet := raw[readOffset..readOffset + rawLen];
      assert buf[readOffset..readOffset + rawLen] == buf[readOffset..len][..rawLen] == packet;
      ProgressStep(ks, password, raw, rawStride, written, readOffset, firstPayloadLen);
      var decodedLen := DecodeSegment(ks, password, buf, readOffset, rawLen, writeOffset);
      if decodedLen.Some? {
        firstPayloadLen := if firstPayloadLen.None? then decodedLen else firstPayloadLen;
        writeOffset := writeOffset + decodedLen.value;
      }
      readOffset := readOffset + rawLen;
    }
  }

  /** Between datagrams: `written` holds the payloads of the first `read` raw bytes. */
  ghost predicate Progress(ks: Keystream, password: seq<byte>, raw: seq<byte>, stride: nat,
    written: seq<byte>, read: nat, first: Option<nat>)
  {
    && 0 < stride && read <= |raw|
    && exists done :: ProgressBy(ks, password, raw, stride, written, read, first, done)
  }

  ghost predicate ProgressBy(ks: Keystream, password: seq<byte>, raw: seq<byte>, stride: nat,
    written: seq<byte>, read: nat, first: Option<nat>, done: seq<seq<byte>>)
    requires 0 < stride && read <= |raw|
  {
    && CutSoFar(done, stride - SALT_LEN, first, read < |raw|)
    && written == Concat(done)
    && Payloads(ks, password, Segments(raw, stride))
       == done + Payloads(ks, password, Segments(raw[read..], stride))
  }

  lemma ProgressStart(ks: Keystream, password: seq<byte>, raw: seq<byte>, stride: nat)
    requires 0 < stride
    ensures Progress(ks, password, raw, stride, [], 0, None)
  {
    assert raw[0..] == raw;
    assert ProgressBy(ks, password, raw, stride, [], 0, None, []);
  }

  lemma ProgressStep(ks: Keystream, password: seq<byte>, raw: seq<byte>, stride: nat,
    written: seq<byte>, read: nat, first: Option<nat>)
    requires Progress(ks, password, raw, stride, written, read, first) && read < |raw|
    ensures var n := Min(stride, |raw| - read);
            match Unmasked(ks, password, raw[read..read + n])
            case None => Progress(ks, password, raw, stride, written, read + n, first)
            case Some(p) => Progress(ks, password, raw, stride, written + p, read + n,
                                     if first.None? then Some(|p|) else first)
  {
    hide Payloads, Segments, CutSoFar;
    var done :| ProgressBy(ks, password, raw, stride, written, read, first, done);
    var n := Min(stride, |raw| - read);
    var rest := raw[read..];
    NextSegment(ks, password, rest, stride);
    assert rest[..n] == raw[read..read + n] && rest[n..] == raw[read + n..];
    var later := Payloads(ks, password, Segments(rest[n..], stride));
    match Unmasked(ks, password, raw[read..read + n])
    case None =>
      CutNoMore(done, stride - SALT_LEN, first, read + n < |raw|);
      assert ProgressBy(ks, password, raw, stride, written, read + n, first, done);
    case Some(p) =>
      CutOneMore(done, p, stride - SALT_LEN, first, read + n < |raw|);
      ConcatAppend(done, p);
      assert done + ([p] + later) == (done + [p]) + later;
      assert ProgressBy(ks, password, raw, stride, written + p, read + n,
        if first.None? then Some(|p|) else first, done + [p]);
  }

  lemma ProgressEnd(ks: Keystream, password: seq<byte>, raw: seq<byte>, stride: nat, written: seq<byte>,
      first: Option<nat>)
    requires Progress(ks, password, raw, stride, written, |raw|, first)
    ensures var payloads := Payloads(ks, password, Segments(raw, stride));
            && (first.Some? <==> payloads != [])
            && (first.Some? ==> first.value > 0 && Segments(written, first.value) == payloads)
  {
    var done :| ProgressBy(ks, password, raw, stride, written, |raw|, first, done);
    assert raw[|raw|..] == [];
    assert Payloads(ks, password, Segments(raw, stride)) == done;
    if first.Some? {
      ResplitConcat(done, first.value);
    }
  }

  /** One raw datagram at `read`: its payload is appended at `write`; nothing else below `write`
      or beyond the datagram changes. */
  method DecodeSegment(ks: Keystream, password: seq<byte>, buf: array<byte>, read: nat, rawLen: nat, write: nat)
    returns (decoded: Option<nat>)
    requires write <= read && read + rawLen <= buf.Length
    modifies buf
    ensures match Unmasked(ks, password, old(buf[read..read + rawLen]))
            case None => decoded.None? && buf[..write] == old(buf[..write])
            case Some(p) => decoded == Some(|p|) && |p| <= rawLen && buf[..write + |p|] == old(buf[..write]) + p
    ensures forall j :: read + rawLen <= j < buf.Length ==> buf[j] == old(buf[j])
  {
    ghost var packet := buf[read..read + rawLen];
    decoded := DecodeInPlace(ks, password, buf, read, read + rawLen);
    if decoded.Some? && write != read {
      CopyDown(buf, read, decoded.value, write);
    }
    assert buf[..write] == old(buf[..write]);
    if decoded.Some? {
      assert buf[..write + decoded.value] == buf[..write] + buf[write..write + decoded.value];
    }
  }

  /** Between datagrams: the payloads so far are evenly cut, all of them full while there is
      more to read, and the first one's length is remembered. */
  ghost predicate CutSoFar(done: seq<seq<byte>>, size: int, first: Option<nat>, more: bool) {
    && (first.None? <==> done == [])
    && (done != [] ==> first == Some(|done[0]|) && EvenlyCut(done, size))
    && (done != [] && more ==> |done[|done| - 1]| == size)
  }

  lemma CutOneMore(done: seq<seq<byte>>, payload: seq<byte>, size: int, first: Option<nat>, more: bool)
    requires CutSoFar(done, size, first, true) && 0 < |payload| <= size && (more ==> |payload| == size)
    ensures CutSoFar(done + [payload], size, if first.None? then Some(|payload|) else first, more)
  {
  }

  lemma CutNoMore(done: seq<seq<byte>>, size: int, first: Option<nat>, more: bool)
    requires CutSoFar(done, size, first, true)
    ensures CutSoFar(done, size, first, more)
  {
  }

  lemma NextSegment(ks: Keystream, password: seq<byte>, data: seq<byte>, stride: nat)
    requires stride > 0 && data != []
    ensures var n := Min(stride, |data|);
            var rest := Payloads(ks, password, Segments(data[n..], stride));
            Payloads(ks, password, Segments(data, stride))
              == match Unmasked(ks, password, data[..n]) case None => rest case Some(p) => [p] + rest
  {
    var segs := Segments(data, stride);
    if |data| <= stride {
      assert data[..|data|] == data && data[|data|..] == [];
      assert segs == [data] && segs[1..] == [];
    } else {
      assert segs[1..] == Segments(data[stride..], stride);
    }
  }
}
