/** Partly filled sequences of byte strings, as both reassemblers keep them. */
module Slots {
  import opened Common

  function Concat(parts: seq<seq<byte>>): seq<byte> {
    if parts == [] then [] else parts[0] + Concat(parts[1..])
  }

  lemma {:induction false} ConcatAppend(parts: seq<seq<byte>>, last: seq<byte>)
    ensures Concat(parts + [last]) == Concat(parts) + last
  {
    if parts == [] {
      assert parts + [last] == [last];
    } else {
      assert (parts + [last])[1..] == parts[1..] + [last];
      ConcatAppend(parts[1..], last);
    }
  }

  predicate AllPresent(chunks: seq<Option<seq<byte>>>) {
    forall i :: 0 <= i < |chunks| ==> chunks[i].Some?
  }

  function Joined(chunks: seq<Option<seq<byte>>>): seq<byte>
    requires AllPresent(chunks)
  {
    Concat(seq(|chunks|, i requires 0 <= i < |chunks| => chunks[i].value))
  }

  function Filled(chunks: seq<Option<seq<byte>>>): nat {
    if chunks == [] then 0 else (if chunks[0].Some? then 1 else 0) + Filled(chunks[1..])
  }

  lemma {:induction false} FilledAt(chunks: seq<Option<seq<byte>>>, i: nat, v: seq<byte>)
    requires i < |chunks| && chunks[i].None?
    ensures Filled(chunks[i := Some(v)]) == Filled(chunks) + 1
  {
    var updated := chunks[i := Some(v)];
    if i == 0 {
      assert updated[1..] == chunks[1..];
    } else {
      assert updated[1..] == chunks[1..][i - 1 := Some(v)];
      FilledAt(chunks[1..], i - 1, v);
    }
  }

  lemma {:induction false} FilledNone(chunks: seq<Option<seq<byte>>>)
    requires forall i :: 0 <= i < |chunks| ==> chunks[i].None?
    ensures Filled(chunks) == 0
  {
    if chunks != [] {
      FilledNone(chunks[1..]);
    }
  }

  lemma {:induction false} FilledAll(chunks: seq<Option<seq<byte>>>)
    ensures Filled(chunks) <= |chunks|
    ensures Filled(chunks) == |chunks| <==> AllPresent(chunks)
  {
    if chunks != [] {
      FilledAll(chunks[1..]);
      assert chunks == [chunks[0]] + chunks[1..];
    }
  }

  /** Concatenates the slots; gives up on a missing one. */
  method JoinSlots(chunks: seq<Option<seq<byte>>>) returns (packet: Option<seq<byte>>)
    ensures packet.Some? <==> AllPresent(chunks)
    ensures packet.Some? ==> packet.value == Joined(chunks)
  {
    var out := [];
    var i := 0;
    while i < |chunks|
      invariant 0 <= i <= |chunks|
      invariant AllPresent(chunks[..i])
      invariant out == Joined(chunks[..i])
    {
      if chunks[i].None? {
        assert !AllPresent(chunks);
        return None;
      }
      var head, next := chunks[..i], chunks[..i + 1];
      assert next == head + [chunks[i]];
      ghost var values := seq(i, j requires 0 <= j < i => head[j].value);
      assert seq(i + 1, j requires 0 <= j < i + 1 => next[j].value) == values + [chunks[i].value];
      ConcatAppend(values, chunks[i].value);
      out := out + chunks[i].value;
      i := i + 1;
    }
    assert chunks[..i] == chunks;
    return Some(out);
  }
}
