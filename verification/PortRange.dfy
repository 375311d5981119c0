/** NetLocationPortRange (src/address.rs): an address with a list of ports, read from text such as
    "host:80,443,8000-8100" and printed with its runs compressed. */
module PortRange {
  import opened Common
  import opened PortText

  datatype PortError = MissingPorts | BadAddress | BadRange | BadNumber | Backwards | NoPorts

  datatype Location<A> = Location(address: A, ports: seq<nat>)

  /** How addresses are printed and read. */
  datatype AddressText<!A> = AddressText(show: A -> string, parse: string -> Option<A>)

  ghost predicate Increasing(ports: seq<nat>) {
    forall i, j :: 0 <= i < j < |ports| ==> ports[i] < ports[j]
  }

  /** What every list of ports satisfies. */
  ghost predicate PortsOk(ports: seq<nat>) {
    ports != [] && Increasing(ports) && forall i :: 0 <= i < |ports| ==> ports[i] <= MAX_PORT
  }

  /** The ports from `a` to `b`. */
  function Span(a: nat, b: nat): (s: seq<nat>)
    requires a <= b
    ensures |s| == b - a + 1 && forall i :: 0 <= i < |s| ==> s[i] == a + i
  {
    seq(b - a + 1, i requires 0 <= i => a + i)
  }

  /** One part between commas: a port, or two of them with a dash between. */
  function PartPorts(part: string): Result<seq<nat>, PortError> {
    if '-' in part then
      var bounds := Split(part, '-');
      if |bounds| != 2 then Err(BadRange)
      else
        var start, end := ParseU16(bounds[0]), ParseU16(bounds[1]);
        if start.None? || end.None? then Err(BadNumber)
        else if start.value > end.value then Err(Backwards)
        else Ok(Span(start.value, end.value))
    else
      var port := ParseU16(part);
      if port.None? then Err(BadNumber) else Ok([port.value])
  }

  /** All parts in order; the first one that is wrong decides. */
  function PartsPorts(parts: seq<string>): Result<seq<nat>, PortError> {
    if parts == [] then Ok([])
    else
      var head := PartsPorts(parts[..|parts| - 1]);
      if head.Err? then head
      else
        var last := PartPorts(parts[|parts| - 1]);
        if last.Err? then last else Ok(head.value + last.value)
  }

  // ----- sorting and removing duplicates

  lemma {:induction false} IncreasingUnique(a: seq<nat>, b: seq<nat>)
    requires Increasing(a) && Increasing(b) && Elems(a) == Elems(b)
    ensures a == b
  {
    if a == [] {
      assert forall i :: 0 <= i < |b| ==> b[i] in Elems(b);
    } else {
      assert a[0] in Elems(a);
      var j :| 0 <= j < |b| && b[j] == a[0];
      assert b[0] in Elems(b);
      var i :| 0 <= i < |a| && a[i] == b[0];
      assert a[0] == b[0];
      TailElems(a);
      TailElems(b);
      IncreasingUnique(a[1..], b[1..]);
    }
  }

  lemma TailElems(a: seq<nat>)
    requires Increasing(a) && a != []
    ensures Elems(a[1..]) == Elems(a) - {a[0]}
  {
    forall x ensures x in a[1..] <==> x in a && x != a[0] {
      if x in a && x != a[0] {
        var i :| 0 <= i < |a| && a[i] == x;
        assert a[1..][i - 1] == x;
      }
    }
  }

  ghost predicate NonDecreasing(ports: seq<nat>) {
    forall i, j :: 0 <= i < j < |ports| ==> ports[i] <= ports[j]
  }

  /** Where `x` goes in a sorted list. */
  method Place(sorted: seq<nat>, x: nat) returns (k: nat)
    requires NonDecreasing(sorted)
    ensures k <= |sorted|
    ensures forall i :: 0 <= i < k ==> sorted[i] <= x
    ensures forall i :: k <= i < |sorted| ==> x <= sorted[i]
  {
    k := 0;
    while k < |sorted| && sorted[k] < x
      invariant k <= |sorted| && forall i :: 0 <= i < k ==> sorted[i] <= x
    {
      k := k + 1;
    }
  }

  function Insert(s: seq<nat>, k: nat, x: nat): seq<nat>
    requires k <= |s|
  {
    s[..k] + [x] + s[k..]
  }

  lemma Inserted(s: seq<nat>, k: nat, x: nat)
    requires k <= |s|
    ensures Elems(Insert(s, k, x)) == Elems(s) + {x}
  {
    var t := Insert(s, k, x);
    assert t[k] == x;
    forall y ensures y in t <==> y in s || y == x {
      if y in s {
        var i :| 0 <= i < |s| && s[i] == y;
        assert t[if i < k then i else i + 1] == y;
      }
    }
  }

  lemma InsertedSorted(s: seq<nat>, k: nat, x: nat)
    requires NonDecreasing(s) && k <= |s|
    requires (forall i :: 0 <= i < k ==> s[i] <= x) && (forall i :: k <= i < |s| ==> x <= s[i])
    ensures NonDecreasing(Insert(s, k, x))
  {
    var t := Insert(s, k, x);
    assert forall i :: 0 <= i < |t| ==> t[i] == if i < k then s[i] else if i == k then x else s[i - 1];
  }

  lemma TakeNext(s: seq<nat>, i: nat)
    requires i < |s|
    ensures Elems(s[..i + 1]) == Elems(s[..i]) + {s[i]}
  {
    assert s[..i + 1] == s[..i] + [s[i]];
    ElemsAppend(s[..i], s[i]);
  }

  method Sort(ports: seq<nat>) returns (sorted: seq<nat>)
    ensures NonDecreasing(sorted) && Elems(sorted) == Elems(ports)
  {
    sorted := [];
    assert NonDecreasing(sorted);
    hide NonDecreasing, Insert;
    for i := 0 to |ports|
      invariant NonDecreasing(sorted) && Elems(sorted) == Elems(ports[..i])
    {
      hide Elems;
      var k := Place(sorted, ports[i]);
      Inserted(sorted, k, ports[i]);
      InsertedSorted(sorted, k, ports[i]);
      TakeNext(ports, i);
      sorted := Insert(sorted, k, ports[i]);
    }
    assert ports[..|ports|] == ports;
  }

  /** The distinct elements of the first `i` ports, the last of them being the last of these. */
  ghost predicate DedupTo(sorted: seq<nat>, i: nat, out: seq<nat>)
    requires i <= |sorted|
  {
    && Increasing(out) && Elems(out) == Elems(sorted[..i])
    && (out == [] <==> i == 0)
    && (i > 0 ==> out[|out| - 1] == sorted[i - 1])
  }

  lemma IncreasingAppend(s: seq<nat>, x: nat)
    requires Increasing(s) && (s != [] ==> s[|s| - 1] < x)
    ensures Increasing(s + [x])
  {
  }

  lemma DedupNext(sorted: seq<nat>, i: nat, out: seq<nat>)
    requires NonDecreasing(sorted) && i < |sorted| && DedupTo(sorted, i, out)
    ensures DedupTo(sorted, i + 1, if out == [] || out[|out| - 1] != sorted[i] then out + [sorted[i]] else out)
  {
    TakeNext(sorted, i);
    if i > 0 && out[|out| - 1] == sorted[i] {
      ElemsLast(out);
    } else {
      ElemsAppend(out, sorted[i]);
      hide Elems;
      if i > 0 {
        assert sorted[i - 1] <= sorted[i];
      }
      hide NonDecreasing;
      IncreasingAppend(out, sorted[i]);
    }
    hide Elems, Increasing, NonDecreasing;
  }

  lemma ElemsLast(s: seq<nat>)
    requires s != []
    ensures Elems(s) + {s[|s| - 1]} == Elems(s)
  {
    assert s[|s| - 1] in Elems(s);
  }

  /** Keeps the first of each group of equal neighbours. */
  method Dedup(sorted: seq<nat>) returns (out: seq<nat>)
    requires NonDecreasing(sorted)
    ensures Increasing(out) && Elems(out) == Elems(sorted)
  {
    out := [];
    assert DedupTo(sorted, 0, out);
    for i := 0 to |sorted|
      invariant DedupTo(sorted, i, out)
    {
      hide DedupTo, NonDecreasing;
      DedupNext(sorted, i, out);
      if out == [] || out[|out| - 1] != sorted[i] {
        out := out + [sorted[i]];
      }
    }
    assert sorted[..|sorted|] == sorted;
  }

  /** A list of ports becomes the increasing list of the same ports. */
  method New<A>(address: A, ports: seq<nat>) returns (r: Result<Location<A>, PortError>)
    ensures ports == [] <==> r == Err(NoPorts)
    ensures ports != [] ==> r.Ok? && r.value.address == address && r.value.ports != []
    ensures r.Ok? ==> Increasing(r.value.ports) && Elems(r.value.ports) == Elems(ports)
  {
    var sorted := Sort(ports);
    var distinct := Dedup(sorted);
    assert distinct == [] <==> ports == [] by {
      if ports != [] { assert ports[0] in Elems(distinct); }
      if distinct != [] { assert distinct[0] in Elems(ports); }
    }
    if distinct == [] { return Err(NoPorts); }
    return Ok(Location(address, distinct));
  }

  // ----- reading

  lemma PartPortsOk(part: string)
    ensures PartPorts(part).Ok? ==> PartPorts(part).value != []
    ensures PartPorts(part).Ok? ==>
      forall i :: 0 <= i < |PartPorts(part).value| ==> PartPorts(part).value[i] <= MAX_PORT
  {
    ParseU16InRange(part);
    if '-' in part && |Split(part, '-')| == 2 {
      ParseU16InRange(Split(part, '-')[0]);
      ParseU16InRange(Split(part, '-')[1]);
    }
  }

  lemma ParseU16InRange(s: string)
    ensures ParseU16(s).Some? ==> ParseU16(s).value <= MAX_PORT
  {
    ParseDigitsInRange(s);
    if s != [] {
      ParseDigitsInRange(s[1..]);
    }
  }

  /** Reads the parts one after the other. */
  method ReadParts(parts: seq<string>) returns (r: Result<seq<nat>, PortError>)
    ensures r == PartsPorts(parts)
    ensures r.Ok? ==> forall i :: 0 <= i < |r.value| ==> r.value[i] <= MAX_PORT
    ensures r.Ok? && parts != [] ==> r.value != []
  {
    var ports := [];
    for i := 0 to |parts|
      invariant PartsPorts(parts[..i]) == Ok(ports)
      invariant forall k :: 0 <= k < |ports| ==> ports[k] <= MAX_PORT
      invariant i > 0 ==> ports != []
    {
      assert parts[..i + 1][..i] == parts[..i];
      PartPortsOk(parts[i]);
      var part := PartPorts(parts[i]);
      if part.Err? {
        FirstError(parts, i);
        return part;
      }
      ports := ports + part.value;
    }
    assert parts[..|parts|] == parts;
    return Ok(ports);
  }

  lemma {:induction false} FirstError(parts: seq<string>, i: nat)
    requires i < |parts| && PartsPorts(parts[..i]).Ok? && PartPorts(parts[i]).Err?
    ensures PartsPorts(parts) == PartPorts(parts[i])
  {
    if i + 1 == |parts| {
      assert parts[..|parts| - 1] == parts[..i];
    } else {
      var front := parts[..|parts| - 1];
      assert front[..i] == parts[..i];
      FirstError(front, i);
    }
  }

  /** What a text means: the ports listed after the last colon. */
  ghost predicate Means<A>(s: string, text: AddressText<A>, r: Result<Location<A>, PortError>) {
    match FindLast(s, ':')
    case None => r == Err(MissingPorts)
    case Some(k) =>
      var address := text.parse(s[..k]);
      if address.None? then r == Err(BadAddress)
      else
        var listed := PartsPorts(Split(s[k + 1..], ','));
        match listed
        case Err(e) => r == Err(e)
        case Ok(ports) =>
          r.Ok? && r.value.address == address.value && PortsOk(r.value.ports) && Elems(r.value.ports) == Elems(ports)
  }

  /** Reading: an error, or the listed ports in increasing order without repetition.  "No ports" is
      never reported. */
  method FromStr<A>(s: string, text: AddressText<A>) returns (r: Result<Location<A>, PortError>)
    ensures Means(s, text, r)
    ensures r != Err(NoPorts)
  {
    var colon := FindLast(s, ':');
    if colon.None? { return Err(MissingPorts); }
    var address := text.parse(s[..colon.value]);
    if address.None? { return Err(BadAddress); }
    var ports := ReadParts(Split(s[colon.value + 1..], ','));
    if ports.Err? {
      NeverNoPorts(Split(s[colon.value + 1..], ','));
      return Err(ports.error);
    }
    r := New(address.value, ports.value);
    forall i | 0 <= i < |r.value.ports| ensures r.value.ports[i] <= MAX_PORT {
      assert r.value.ports[i] in Elems(ports.value);
    }
  }

  lemma {:induction false} NeverNoPorts(parts: seq<string>)
    ensures PartsPorts(parts) != Err(NoPorts)
  {
    if parts != [] {
      NeverNoPorts(parts[..|parts| - 1]);
    }
  }

  /** The meaning decides the result. */
  lemma MeansUnique<A>(s: string, text: AddressText<A>, r: Result<Location<A>, PortError>, q: Result<Location<A>,
      PortError>)
    requires Means(s, text, r) && Means(s, text, q)
    ensures r == q
  {
    if r.Ok? && q.Ok? {
      IncreasingUnique(r.value.ports, q.value.ports);
    }
  }

  // ----- printing

  /** The last index of the run of consecutive ports that holds index `i`. */
  function RunEnd(ports: seq<nat>, i: nat): (j: nat)
    requires i < |ports|
    ensures i <= j < |ports|
    decreases |ports| - i
  {
    if i + 1 < |ports| && ports[i] + 1 == ports[i + 1] then RunEnd(ports, i + 1) else i
  }

  /** A run is consecutive, and maximal. */
  lemma {:induction false} RunIsMaximal(ports: seq<nat>, i: nat)
    requires i < |ports|
    ensures var j := RunEnd(ports, i);
            && (forall k :: i <= k <= j ==> ports[k] == ports[i] + (k - i))
            && (j + 1 < |ports| ==> ports[j] + 1 != ports[j + 1])
    decreases |ports| - i
  {
    if i + 1 < |ports| && ports[i] + 1 == ports[i + 1] {
      RunIsMaximal(ports, i + 1);
    }
  }

  /** A run is written as one port, two, or a range. */
  function RunParts(a: nat, b: nat): (parts: seq<string>)
    ensures parts != []
  {
    if a == b then [Decimal(a)]
    else if b - a == 1 then [Decimal(a), Decimal(b)]
    else [Decimal(a) + "-" + Decimal(b)]
  }

  /** The parts written for the runs that end before index `i`. */
  ghost predicate PartsFor(ports: seq<nat>, i: nat, parts: seq<string>)
    requires i <= |ports|
  {
    && PartsPorts(parts) == Ok(ports[..i])
    && (parts == [] <==> i == 0)
    && AllPlain(parts)
  }

  ghost predicate AllPlain(parts: seq<string>) {
    forall k :: 0 <= k < |parts| ==> Plain(parts[k])
  }

  lemma AllPlainAppend(a: seq<string>, b: seq<string>)
    requires AllPlain(a) && AllPlain(b)
    ensures AllPlain(a + b)
  {
    hide Plain;
  }

  /** Neither a comma nor a colon. */
  ghost predicate Plain(part: string) {
    ',' !in part && ':' !in part
  }

  lemma {:induction false} PartsPortsConcat(a: seq<string>, b: seq<string>)
    requires PartsPorts(a).Ok? && PartsPorts(b).Ok?
    ensures PartsPorts(a + b) == Ok(PartsPorts(a).value + PartsPorts(b).value)
  {
    hide PartPorts;
    if b == [] {
      assert a + b == a && PartsPorts(b).value == [];
      assert PartsPorts(a).value + [] == PartsPorts(a).value;
    } else {
      var front := b[..|b| - 1];
      PartsPortsConcat(a, front);
      assert (a + b)[..|a + b| - 1] == a + front;
      assert (a + b)[|a + b| - 1] == b[|b| - 1];
      var x, y, z := PartsPorts(a).value, PartsPorts(front).value, PartPorts(b[|b| - 1]).value;
      assert x + (y + z) == (x + y) + z;
    }
  }

  lemma SinglePart(n: nat)
    requires n <= MAX_PORT
    ensures PartPorts(Decimal(n)) == Ok([n])
  {
    U16RoundTrip(n);
  }

  lemma RangePart(a: nat, b: nat)
    requires a <= b <= MAX_PORT
    ensures PartPorts(Decimal(a) + "-" + Decimal(b)) == Ok(Span(a, b))
  {
    var part := Decimal(a) + "-" + Decimal(b);
    var bounds := [Decimal(a), Decimal(b)];
    assert part[|Decimal(a)|] == '-';
    assert part == Join(bounds, '-') by { assert bounds[1..] == [Decimal(b)]; }
    SplitJoin(bounds, '-');
    U16RoundTrip(a);
    U16RoundTrip(b);
  }

  /** A run's parts read back as the run. */
  lemma RunPartsRead(a: nat, b: nat)
    requires a <= b <= MAX_PORT
    ensures PartsPorts(RunParts(a, b)) == Ok(Span(a, b))
    ensures AllPlain(RunParts(a, b))
  {
    hide PartPorts, PartsPorts;
    if a == b {
      SinglePart(a);
      OnePart(Decimal(a));
      assert [a] == Span(a, b);
    } else if b - a == 1 {
      SinglePart(a);
      SinglePart(b);
      OnePart(Decimal(a));
      OnePart(Decimal(b));
      PartsPortsConcat([Decimal(a)], [Decimal(b)]);
      assert [Decimal(a)] + [Decimal(b)] == RunParts(a, b);
      assert [a] + [b] == Span(a, b);
    } else {
      RangePart(a, b);
      OnePart(Decimal(a) + "-" + Decimal(b));
    }
  }

  lemma OnePart(part: string)
    ensures PartsPorts([part]) == PartPorts(part)
  {
    assert [part][..|[part]| - 1] == [];
    assert PartPorts(part).Ok? ==> [] + PartPorts(part).value == PartPorts(part).value;
  }

  lemma RunSlice(ports: seq<nat>, i: nat)
    requires PortsOk(ports) && i < |ports|
    ensures var j := RunEnd(ports, i);
            ports[i] <= ports[j] <= MAX_PORT && ports[..j + 1] == ports[..i] + Span(ports[i], ports[j])
  {
    hide RunEnd, Increasing, Span;
    RunIsMaximal(ports, i);
  }

  /** One more run. */
  lemma NextRun(ports: seq<nat>, i: nat, parts: seq<string>)
    requires PortsOk(ports) && i < |ports| && PartsFor(ports, i, parts)
    ensures var j := RunEnd(ports, i);
            ports[i] <= ports[j] && PartsFor(ports, j + 1, parts + RunParts(ports[i], ports[j]))
  {
    var j := RunEnd(ports, i);
    RunSlice(ports, i);
    var run := RunParts(ports[i], ports[j]);
    RunPartsRead(ports[i], ports[j]);
    hide PartsPorts, RunParts, RunEnd, PortsOk, Increasing, Span, AllPlain;
    PartsPortsConcat(parts, run);
    AllPlainAppend(parts, run);
  }

  /** The next port, as the 16-bit addition computes it. */
  function Successor(port: nat): nat
    requires port + 1 <= MAX_PORT
  {
    port + 1
  }

  /** The end of the run that starts at `i`.  Every successor that is computed on the way, also the
      last one, which differs from the next port, stays in 16 bits. */
  method FindRunEnd(ports: seq<nat>, i: nat) returns (idx: nat)
    requires PortsOk(ports) && i < |ports|
    ensures idx == RunEnd(ports, i)
    ensures SuccessorsFit(ports, i, idx)
  {
    idx := i;
    while idx + 1 < |ports| && Successor(ports[idx]) == ports[idx + 1]
      invariant i <= idx < |ports| && RunEnd(ports, idx) == RunEnd(ports, i)
      decreases |ports| - idx
    {
      idx := idx + 1;
    }
    NextFits(ports);
  }

  /** None of the successors computed from index `i` to `j` leaves 16 bits. */
  ghost predicate SuccessorsFit(ports: seq<nat>, i: nat, j: nat) {
    forall k :: i <= k <= j && k + 1 < |ports| ==> ports[k] + 1 <= MAX_PORT
  }

  /** A port that is not the last is below the largest port. */
  lemma NextFits(ports: seq<nat>)
    requires PortsOk(ports)
    ensures forall k :: 0 <= k && k + 1 < |ports| ==> ports[k] + 1 <= MAX_PORT
  {
    forall k | 0 <= k && k + 1 < |ports| ensures ports[k] + 1 <= MAX_PORT {
      assert ports[k] < ports[k + 1];
    }
  }

  /** What was printed when the runs before index `i` are done. */
  ghost predicate Printed(ports: seq<nat>, i: nat, parts: seq<string>, s: string)
    requires i <= |ports|
  {
    && PartsFor(ports, i, parts) && s == Join(parts, ',')
    && PrintedParts(ports, 0) == parts + PrintedParts(ports, i)
  }

  /** The text `s` with the parts of the run that starts at index `i`. */
  function Extended(s: string, i: nat, run: seq<string>): string {
    (if i > 0 then s + "," else s) + Join(run, ',')
  }

  lemma PrintedNext(ports: seq<nat>, i: nat, parts: seq<string>, s: string)
    requires PortsOk(ports) && i < |ports| && Printed(ports, i, parts, s)
    ensures var j := RunEnd(ports, i);
            var run := RunParts(ports[i], ports[j]);
            ports[i] <= ports[j] && Printed(ports, j + 1, parts + run, Extended(s, i, run))
  {
    hide PartsFor, RunParts, RunEnd, Increasing, Join;
    NextRun(ports, i, parts);
    PartsForEmpty(ports, i, parts);
    var j := RunEnd(ports, i);
    var run := RunParts(ports[i], ports[j]);
    var rest := PrintedParts(ports, j + 1);
    assert PrintedParts(ports, i) == run + rest;
    hide PrintedParts;
    assert parts + (run + rest) == (parts + run) + rest;
    if i > 0 {
      JoinAppend(parts, run, ',');
    } else {
      assert parts + run == run;
      assert Join(parts, ',') == "" by { EmptyJoin(); }
    }
  }

  lemma EmptyJoin()
    ensures Join([], ',') == ""
  {
  }

  lemma PartsForEmpty(ports: seq<nat>, i: nat, parts: seq<string>)
    requires i <= |ports| && PartsFor(ports, i, parts)
    ensures parts == [] <==> i == 0
  {
  }

  lemma RunAscends(ports: seq<nat>, i: nat)
    requires PortsOk(ports) && i < |ports|
    ensures ports[i] <= ports[RunEnd(ports, i)]
  {
    RunSlice(ports, i);
  }

  lemma PrintedStep(ports: seq<nat>, i: nat, parts: seq<string>, s: string, idx: nat, t: string)
    returns (partsNow: seq<string>)
    requires PortsOk(ports) && i < |ports| && Printed(ports, i, parts, s) && idx == RunEnd(ports, i)
    requires t == Extended(s, i, RunParts(ports[i], ports[idx]))
    ensures Printed(ports, idx + 1, partsNow, t)
  {
    hide *;
    PrintedNext(ports, i, parts, s);
    partsNow := parts + RunParts(ports[i], ports[idx]);
  }

  lemma PrintedNone(ports: seq<nat>)
    requires PortsOk(ports)
    ensures Printed(ports, 0, [], "")
  {
    assert ports[..0] == [];
    assert [] + PrintedParts(ports, 0) == PrintedParts(ports, 0);
  }

  lemma PrintedAll(ports: seq<nat>, parts: seq<string>, s: string)
    requires PortsOk(ports) && Printed(ports, |ports|, parts, s)
    ensures PartsPorts(Split(s, ',')) == Ok(ports) && ':' !in s
    ensures s == Join(PrintedParts(ports, 0), ',')
  {
    assert ports[..|ports|] == ports;
    assert parts + [] == parts;
    SplitJoin(parts, ',');
    JoinLacks(parts, ',', ':');
  }

  /** Prints the run that starts at `startIdx`. */
  method PrintNext(ports: seq<nat>, startIdx: nat, s: string, ghost parts: seq<string>)
    returns (next: nat, t: string, ghost partsNow: seq<string>)
    requires PortsOk(ports) && startIdx < |ports| && Printed(ports, startIdx, parts, s)
    ensures startIdx < next <= |ports| && Printed(ports, next, partsNow, t)
  {
    hide *;
    var idx := FindRunEnd(ports, startIdx);
    RunAscends(ports, startIdx);
    t := PrintRun(s, startIdx, ports[startIdx], ports[idx]);
    partsNow := PrintedStep(ports, startIdx, parts, s, idx, t);
    next := idx + 1;
  }

  /** Printing the list of ports.  The text is read back as exactly these ports, and none of its
      characters is a colon. */
  method PrintPorts(ports: seq<nat>) returns (s: string)
    requires PortsOk(ports)
    ensures PartsPorts(Split(s, ',')) == Ok(ports) && ':' !in s
    ensures s == Join(PrintedParts(ports, 0), ',')
  {
    s := "";
    ghost var parts: seq<string> := [];
    var startIdx := 0;
    PrintedNone(ports);
    hide Increasing, Printed, Join, PrintedParts, PartsPorts, Split;
    while startIdx < |ports|
      invariant startIdx <= |ports| && Printed(ports, startIdx, parts, s)
    {
      startIdx, s, parts := PrintNext(ports, startIdx, s, parts);
    }
    PrintedAll(ports, parts, s);
  }

  /** The parts of the whole text, run by maximal run. */
  function PrintedParts(ports: seq<nat>, i: nat): seq<string>
    requires i <= |ports|
    decreases |ports| - i
  {
    if i == |ports| then [] else
      var j := RunEnd(ports, i);
      RunParts(ports[i], ports[j]) + PrintedParts(ports, j + 1)
  }

  method PrintRun(s: string, i: nat, startPort: nat, endPort: nat) returns (t: string)
    requires startPort <= endPort
    ensures t == Extended(s, i, RunParts(startPort, endPort))
  {
    t := if i > 0 then s + "," else s;
    if startPort == endPort {
      t := t + Decimal(startPort);
    } else if endPort - startPort == 1 {
      ghost var parts := [Decimal(startPort), Decimal(endPort)];
      assert Join(parts[1..], ',') == Decimal(endPort);
      assert Join(parts, ',') == Decimal(startPort) + [','] + Decimal(endPort);
      t := t + (Decimal(startPort) + "," + Decimal(endPort));
    } else {
      t := t + (Decimal(startPort) + "-" + Decimal(endPort));
    }
  }

  /** Printing a location: reading the text gives the same location back, provided the address
      alone is read back. */
  method Print<A>(location: Location<A>, text: AddressText<A>) returns (s: string)
    requires PortsOk(location.ports)
    ensures text.parse(text.show(location.address)) == Some(location.address) ==> Means(s, text, Ok(location))
  {
    var ports := PrintPorts(location.ports);
    var address := text.show(location.address);
    s := address + ":" + ports;
    FindLastIs(address, ports, ':');
    assert s[..|address|] == address;
    assert s[|address| + 1..] == ports;
  }

  /** Reading what was printed. */
  method PrintAndRead<A>(location: Location<A>, text: AddressText<A>) returns (r: Result<Location<A>, PortError>)
    requires PortsOk(location.ports) && text.parse(text.show(location.address)) == Some(location.address)
    ensures r == Ok(location)
  {
    var s := Print(location, text);
    r := FromStr(s, text);
    MeansUnique(s, text, r, Ok(location));
  }
}
