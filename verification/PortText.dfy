/** Text of numbers and lists, as the standard library reads and writes it: decimal 16-bit numbers,
    splitting at a separator, and the last occurrence of a character. */
module PortText {
  import opened Common

  const MAX_PORT := 65535

  function Digit(d: nat): (c: char)
    requires d < 10
    ensures IsDigit(c)
  {
    ('0' as int + d) as char
  }

  predicate IsDigit(c: char) {
    '0' <= c <= '9'
  }

  function DigitValue(c: char): (d: nat)
    requires IsDigit(c)
    ensures d < 10 && Digit(d) == c
  {
    c as int - '0' as int
  }

  /** How a number is written. */
  function Decimal(n: nat): (s: string)
    ensures s != [] && forall i :: 0 <= i < |s| ==> IsDigit(s[i])
  {
    if n < 10 then [Digit(n)] else Decimal(n / 10) + [Digit(n % 10)]
  }

  /** Digits read from the left; a step that would leave 16 bits ends the reading. */
  function ParseDigits(s: string): Option<nat> {
    if s == [] then Some(0)
    else
      var head := ParseDigits(s[..|s| - 1]);
      var c := s[|s| - 1];
      if head.None? || !IsDigit(c) then None
      else
        var value := 10 * head.value + DigitValue(c);
        if value > MAX_PORT then None else Some(value)
  }

  /** A plus sign may come first; leading zeros are accepted. */
  function ParseU16(s: string): (r: Option<nat>)
  {
    if s == [] then None
    else if s[0] == '+' && |s| > 1 then ParseDigits(s[1..])
    else ParseDigits(s)
  }

  lemma {:induction false} ParseDigitsInRange(s: string)
    ensures ParseDigits(s).Some? ==> ParseDigits(s).value <= MAX_PORT
  {
  }

  lemma {:induction false} DecimalRoundTrip(n: nat)
    requires n <= MAX_PORT
    ensures ParseDigits(Decimal(n)) == Some(n)
  {
    if n < 10 {
      var s := Decimal(n);
      assert s[..|s| - 1] == [];
    } else {
      DecimalRoundTrip(n / 10);
      var s := Decimal(n);
      assert s[..|s| - 1] == Decimal(n / 10) && s[|s| - 1] == Digit(n % 10);
    }
  }

  lemma U16RoundTrip(n: nat)
    requires n <= MAX_PORT
    ensures ParseU16(Decimal(n)) == Some(n)
  {
    DecimalRoundTrip(n);
    assert IsDigit(Decimal(n)[0]);
  }

  // ----- splitting and joining

  function Find(s: string, c: char): (k: nat)
    ensures k <= |s| && (k < |s| ==> s[k] == c)
    ensures forall j :: 0 <= j < k ==> s[j] != c
  {
    if s == [] || s[0] == c then 0 else 1 + Find(s[1..], c)
  }

  /** The parts between the separators: one more than there are separators. */
  function Split(s: string, c: char): (parts: seq<string>)
    ensures parts != []
    decreases |s|
  {
    var k := Find(s, c);
    if k == |s| then [s] else [s[..k]] + Split(s[k + 1..], c)
  }

  function Join(parts: seq<string>, c: char): string {
    if parts == [] then ""
    else if |parts| == 1 then parts[0]
    else parts[0] + [c] + Join(parts[1..], c)
  }

  lemma FindIs(s: string, c: char, k: nat)
    requires k <= |s| && (k < |s| ==> s[k] == c) && forall j :: 0 <= j < k ==> s[j] != c
    ensures Find(s, c) == k
  {
    var f := Find(s, c);
    assert f < |s| ==> s[f] == c;
    assert k < |s| ==> s[k] == c;
  }

  lemma {:induction false} SplitJoin(parts: seq<string>, c: char)
    requires parts != [] && forall i :: 0 <= i < |parts| ==> c !in parts[i]
    ensures Split(Join(parts, c), c) == parts
  {
    var s := Join(parts, c);
    assert s[..|parts[0]|] == parts[0];
    FindIs(s, c, |parts[0]|);
    if |parts| > 1 {
      SplitJoin(parts[1..], c);
      assert s[|parts[0]| + 1..] == Join(parts[1..], c);
    }
  }

  /** Joining one list after another. */
  lemma {:induction false} JoinAppend(a: seq<string>, b: seq<string>, c: char)
    requires a != [] && b != []
    ensures Join(a + b, c) == Join(a, c) + [c] + Join(b, c)
  {
    if |a| > 1 {
      JoinAppend(a[1..], b, c);
      assert (a + b)[1..] == a[1..] + b;
    } else {
      assert (a + b)[1..] == b;
    }
  }

  lemma {:induction false} JoinLacks(parts: seq<string>, c: char, x: char)
    requires x != c && forall i :: 0 <= i < |parts| ==> x !in parts[i]
    ensures x !in Join(parts, c)
  {
    if |parts| > 1 {
      JoinLacks(parts[1..], c, x);
    }
  }

  /** The last occurrence of a character. */
  function FindLast(s: string, c: char): (k: Option<nat>)
    ensures k.None? ==> forall j :: 0 <= j < |s| ==> s[j] != c
    ensures k.Some? ==> k.value < |s| && s[k.value] == c && forall j :: k.value < j < |s| ==> s[j] != c
  {
    if s == [] then None
    else if s[|s| - 1] == c then Some(|s| - 1)
    else FindLast(s[..|s| - 1], c)
  }

  lemma {:induction false} FindLastIs(a: string, b: string, c: char)
    requires c !in b
    ensures FindLast(a + [c] + b, c) == Some(|a|)
  {
    var s := a + [c] + b;
    if b == [] {
      assert s[|s| - 1] == c;
    } else {
      FindLastIs(a, b[..|b| - 1], c);
      assert s[..|s| - 1] == a + [c] + b[..|b| - 1];
      assert s[|s| - 1] == b[|b| - 1];
    }
  }
}
