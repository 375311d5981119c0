/** Which texts are port lists, and which error the others get (src/address.rs). */
module PortMeaning {
  import opened Common
  import opened PortText
  import opened PortRange

  // ----- numbers

  function Zeros(z: nat): string {
    seq(z, _ => '0')
  }

  /** Text of a 16-bit number: perhaps a plus sign, any number of zeros, and the number. */
  ghost predicate Numeral(s: string, n: nat) {
    n <= MAX_PORT && exists z: nat :: s == Zeros(z) + Decimal(n) || s == "+" + Zeros(z) + Decimal(n)
  }

  lemma {:induction false} ZerosParse(z: nat)
    ensures ParseDigits(Zeros(z)) == Some(0)
  {
    if z > 0 {
      ZerosParse(z - 1);
      assert Zeros(z)[..z - 1] == Zeros(z - 1);
    }
  }

  lemma {:induction false} PaddedParse(z: nat, n: nat)
    requires n <= MAX_PORT
    ensures ParseDigits(Zeros(z) + Decimal(n)) == Some(n)
  {
    var s := Zeros(z) + Decimal(n);
    if n < 10 {
      ZerosParse(z);
      assert s[..|s| - 1] == Zeros(z);
    } else {
      PaddedParse(z, n / 10);
      assert s[..|s| - 1] == Zeros(z) + Decimal(n / 10);
      assert s[|s| - 1] == Digit(n % 10);
    }
  }

  lemma {:induction false} ParseIsPadded(s: string) returns (z: nat)
    requires s != [] && ParseDigits(s).Some?
    ensures ParseDigits(s).value <= MAX_PORT && s == Zeros(z) + Decimal(ParseDigits(s).value)
  {
    var head, c := s[..|s| - 1], s[|s| - 1];
    var n := ParseDigits(s).value;
    assert s == head + [c];
    if head == [] {
      z := 0;
      assert n < 10 && s == Decimal(n);
    } else {
      z := ParseIsPadded(head);
      var m := ParseDigits(head).value;
      assert n == 10 * m + DigitValue(c);
      if m == 0 {
        z := z + 1;
        assert head == Zeros(z);
      } else {
        assert Decimal(n) == Decimal(m) + [c];
      }
    }
  }

  lemma FirstDigit(z: nat, n: nat)
    ensures (Zeros(z) + Decimal(n))[0] != '+'
  {
    assert IsDigit(Decimal(n)[0]);
  }

  lemma NumeralParses(s: string, n: nat)
    requires Numeral(s, n)
    ensures ParseU16(s) == Some(n)
  {
    hide ParseDigits, Decimal;
    var z: nat :| s == Zeros(z) + Decimal(n) || s == "+" + Zeros(z) + Decimal(n);
    PaddedParse(z, n);
    if s == Zeros(z) + Decimal(n) {
      FirstDigit(z, n);
    } else {
      assert s[1..] == Zeros(z) + Decimal(n);
    }
  }

  lemma ParsedIsNumeral(s: string, n: nat)
    requires ParseU16(s) == Some(n)
    ensures Numeral(s, n)
  {
    hide ParseDigits, Decimal;
    if s[0] == '+' && |s| > 1 {
      var z := ParseIsPadded(s[1..]);
      assert s == "+" + Zeros(z) + Decimal(n);
    } else {
      var z := ParseIsPadded(s);
    }
  }

  /** The numbers read are exactly the numerals. */
  lemma ParseU16Means(s: string, n: nat)
    ensures ParseU16(s) == Some(n) <==> Numeral(s, n)
  {
    hide ParseU16, Numeral;
    if ParseU16(s) == Some(n) {
      ParsedIsNumeral(s, n);
    }
    if Numeral(s, n) {
      NumeralParses(s, n);
    }
  }

  lemma NumeralPlain(s: string, n: nat)
    requires Numeral(s, n)
    ensures '-' !in s
  {
    var z: nat :| s == Zeros(z) + Decimal(n) || s == "+" + Zeros(z) + Decimal(n);
    assert forall i :: 0 <= i < |Decimal(n)| ==> IsDigit(Decimal(n)[i]);
  }

  // ----- parts

  /** Two texts with a dash between. */
  ghost predicate Dashed(part: string, a: string, b: string) {
    part == a + "-" + b
  }

  /** The part names the ports from `x` to `y`. */
  ghost predicate Names(part: string, x: nat, y: nat) {
    || (Numeral(part, x) && x == y)
    || exists a, b :: Dashed(part, a, b) && Numeral(a, x) && Numeral(b, y)
  }

  ghost predicate TwoDashes(part: string) {
    exists a, b :: Dashed(part, a, b) && '-' in b
  }

  /** A part that is no number and no two numbers. */
  ghost predicate Unreadable(part: string) {
    !TwoDashes(part) && forall x, y :: !Names(part, x, y)
  }

  lemma SplitFirst(part: string) returns (first: string, rest: string)
    requires '-' in part
    ensures Dashed(part, first, rest) && '-' !in first && |rest| < |part|
    ensures Split(part, '-') == [first] + Split(rest, '-')
  {
    var k := Find(part, '-');
    first, rest := part[..k], part[k + 1..];
  }

  lemma SplitWhole(rest: string)
    ensures if '-' in rest then |Split(rest, '-')| > 1 else Split(rest, '-') == [rest]
  {
    if '-' in rest {
      var first, more := SplitFirst(rest);
    } else {
      FindIs(rest, '-', |rest|);
    }
  }

  /** A dash splits a part in two where the part has no other. */
  lemma SplitDash(part: string)
    requires '-' in part
    ensures |Split(part, '-')| >= 2
    ensures |Split(part, '-')| == 2 <==> !TwoDashes(part)
    ensures |Split(part, '-')| == 2 ==>
      forall a, b :: Dashed(part, a, b) <==> a == Split(part, '-')[0] && b == Split(part, '-')[1]
  {
    hide Split, Find;
    var first, rest := SplitFirst(part);
    SplitWhole(rest);
    if '-' !in rest {
      forall a, b | Dashed(part, a, b) ensures a == first && b == rest {
        DashOnce(a, b, first, rest);
      }
    }
  }

  lemma DashOnce(a: string, b: string, c: string, d: string)
    requires a + "-" + b == c + "-" + d && '-' !in c && '-' !in d
    ensures a == c && b == d
  {
    var s := c + "-" + d;
    assert s[|a|] == '-';
    assert a == s[..|a|] && c == s[..|c|] && b == s[|a| + 1..] && d == s[|c| + 1..];
  }

  lemma NamesBoth(part: string, x: nat, y: nat)
    requires '-' in part && !TwoDashes(part)
    ensures Names(part, x, y) <==>
              var bounds := Split(part, '-');
              |bounds| == 2 && ParseU16(bounds[0]) == Some(x) && ParseU16(bounds[1]) == Some(y)
  {
    SplitDash(part);
    var bounds := Split(part, '-');
    assert Dashed(part, bounds[0], bounds[1]);
    ParseU16Means(bounds[0], x);
    ParseU16Means(bounds[1], y);
    if Numeral(part, x) {
      NumeralPlain(part, x);
    }
  }

  lemma NamesOne(part: string, x: nat, y: nat)
    requires '-' !in part
    ensures Names(part, x, y) <==> ParseU16(part) == Some(x) && x == y
  {
    ParseU16Means(part, x);
    forall a, b ensures !Dashed(part, a, b) {
      assert (a + "-" + b)[|a|] == '-';
    }
  }

  lemma TwoDashesNameNothing(part: string, x: nat, y: nat)
    requires TwoDashes(part)
    ensures '-' in part && !Names(part, x, y)
  {
    var c, d :| Dashed(part, c, d) && '-' in d;
    assert part[|c|] == '-';
    if Numeral(part, x) {
      NumeralPlain(part, x);
    }
    forall a, b | Dashed(part, a, b) && Numeral(a, x) && Numeral(b, y) ensures false {
      NumeralPlain(a, x);
      NumeralPlain(b, y);
      DashOnce(c, d, a, b);
    }
  }

  /** A part is accepted exactly if it names ports in ascending order, and it then stands for them;
      it is refused for its dashes exactly if it has two, for its order exactly if it names ports
      backwards, and for its numbers exactly if it is neither of these and names nothing. */
  lemma PartMeans(part: string)
    ensures forall ports :: PartPorts(part) == Ok(ports) <==>
              exists x: nat, y: nat :: Names(part, x, y) && x <= y && ports == Span(x, y)
    ensures PartPorts(part) == Err(BadRange) <==> TwoDashes(part)
    ensures PartPorts(part) == Err(Backwards) <==> exists x: nat, y: nat :: Names(part, x, y) && x > y
    ensures PartPorts(part) == Err(BadNumber) <==> Unreadable(part)
  {
    hide Names, TwoDashes, Numeral, ParseU16, Split;
    if TwoDashes(part) {
      forall x: nat, y: nat ensures '-' in part && !Names(part, x, y) {
        TwoDashesNameNothing(part, x, y);
      }
      assert '-' in part by {
        TwoDashesNameNothing(part, 0, 0);
      }
      SplitDash(part);
    } else if '-' in part {
      SplitDash(part);
      forall x: nat, y: nat
        ensures Names(part, x, y) <==>
                  ParseU16(Split(part, '-')[0]) == Some(x) && ParseU16(Split(part, '-')[1]) == Some(y)
      {
        NamesBoth(part, x, y);
      }
    } else {
      forall x: nat, y: nat ensures Names(part, x, y) <==> ParseU16(part) == Some(x) && x == y {
        NamesOne(part, x, y);
      }
      if ParseU16(part).Some? {
        var n := ParseU16(part).value;
        assert Span(n, n) == [n] && Names(part, n, n);
      }
    }
  }

  // ----- lists

  ghost predicate Covers(part: string, port: nat) {
    exists x: nat, y: nat :: Names(part, x, y) && x <= port <= y
  }

  ghost predicate AllOk(parts: seq<string>) {
    forall j :: 0 <= j < |parts| ==> PartPorts(parts[j]).Ok?
  }

  ghost predicate FailsFirst(parts: seq<string>, i: nat, e: PortError) {
    i < |parts| && PartPorts(parts[i]) == Err(e) && AllOk(parts[..i])
  }

  lemma PartCovers(part: string, port: nat)
    requires PartPorts(part).Ok?
    ensures port in PartPorts(part).value <==> Covers(part, port)
  {
    hide Names;
    PartMeans(part);
    var x: nat, y: nat :| Names(part, x, y) && x <= y && PartPorts(part).value == Span(x, y);
    forall v: nat, w: nat | Names(part, v, w) ensures v == x && w == y {
      NamesUnique(part, v, w, x, y);
    }
    if x <= port <= y {
      assert Span(x, y)[port - x] == port;
    }
  }

  lemma NamesUnique(part: string, v: nat, w: nat, x: nat, y: nat)
    requires Names(part, v, w) && Names(part, x, y)
    ensures v == x && w == y
  {
    hide Names, ParseU16, Split, TwoDashes;
    if TwoDashes(part) {
      TwoDashesNameNothing(part, x, y);
    } else if '-' in part {
      NamesBoth(part, v, w);
      NamesBoth(part, x, y);
    } else {
      NamesOne(part, v, w);
      NamesOne(part, x, y);
    }
  }

  /** A list is refused with the error of its first bad part; a list without one stands for the ports
      that some part covers. */
  lemma {:induction false} ListMeans(parts: seq<string>)
    ensures PartsPorts(parts).Ok? <==> AllOk(parts)
    ensures forall e :: PartsPorts(parts) == Err(e) <==> exists i: nat :: FailsFirst(parts, i, e)
    ensures PartsPorts(parts).Ok? ==>
      forall port :: port in PartsPorts(parts).value <==> exists i :: 0 <= i < |parts| && Covers(parts[i], port)
  {
    hide PartPorts, Covers;
    if parts != [] {
      var n := |parts| - 1;
      var head, last := parts[..n], parts[n];
      ListMeans(head);
      assert forall i :: 0 <= i < n ==> head[i] == parts[i];
      assert parts == head + [last];
      forall e ensures PartsPorts(parts) == Err(e) <==> exists i: nat :: FailsFirst(parts, i, e) {
        FailsWhere(parts, head, last, e);
      }
      if PartsPorts(parts).Ok? {
        forall port
          ensures port in PartsPorts(parts).value <==> exists i :: 0 <= i < |parts| && Covers(parts[i], port)
        {
          PartCovers(last, port);
          assert port in PartsPorts(parts).value <==> port in PartsPorts(head).value || port in PartPorts(last).value;
          assert (exists i :: 0 <= i < n && Covers(head[i], port)) ==> exists i :: 0 <= i < n && Covers(parts[i], port);
        }
      }
    }
  }

  /** The first bad part is among the earlier ones or the last. */
  lemma FailsWhere(parts: seq<string>, head: seq<string>, last: string, e: PortError)
    requires parts == head + [last]
    requires PartsPorts(head) == Err(e) <==> exists i: nat :: FailsFirst(head, i, e)
    requires PartsPorts(head).Ok? <==> AllOk(head)
    ensures PartsPorts(parts) == Err(e) <==> exists i: nat :: FailsFirst(parts, i, e)
  {
    hide PartPorts, AllOk, FailsFirst;
    assert parts[..|parts| - 1] == head && parts[|head|] == last;
    if i: nat :| FailsFirst(head, i, e) {
      FailsShift(parts, head, last, i, e);
    }
    FailsShift(parts, head, last, |head|, e);
    if i: nat :| FailsFirst(parts, i, e) {
      FailsShift(parts, head, last, i, e);
    }
  }

  lemma FailsShift(parts: seq<string>, head: seq<string>, last: string, i: nat, e: PortError)
    requires parts == head + [last]
    ensures FailsFirst(parts, i, e) <==>
              FailsFirst(head, i, e) || (i == |head| && AllOk(head) && PartPorts(last) == Err(e))
    ensures FailsFirst(head, i, e) ==> i < |head|
  {
    hide PartPorts, AllOk;
    if i < |head| {
      assert parts[..i] == head[..i] && parts[i] == head[i];
    } else if i == |head| {
      assert parts[..i] == head && parts[i] == last;
    }
  }
}
