/** Vocabulary shared by the models: optional values, results, and a few facts
    about the elements of sequences. */
module Common {

  datatype Option<+T> = None | Some(value: T)

  datatype Result<+T, +E> = Ok(value: T) | Err(error: E)

  /** A byte on the wire.  Shifts and masks on bytes are written as the division, remainder and
      addition they are. */
  newtype byte = x: int | 0 <= x < 256

  function Min(a: int, b: int): int {
    if a <= b then a else b
  }

  function Max(a: int, b: int): int {
    if a >= b then a else b
  }

  /** The distinct elements of a sequence. */
  function Elems<T>(s: seq<T>): set<T> {
    set x | x in s
  }

  lemma ElemsAppend<T>(s: seq<T>, x: T)
    ensures Elems(s + [x]) == Elems(s) + {x}
    ensures x !in s ==> |Elems(s + [x])| == |Elems(s)| + 1
    ensures x in s ==> |Elems(s + [x])| == |Elems(s)|
  {
    assert Elems(s + [x]) == Elems(s) + {x};
    if x in s {
      assert Elems(s + [x]) == Elems(s);
    }
  }

  /** Dropping the first element removes at most that one distinct element. */
  lemma ElemsTail<T>(s: seq<T>)
    requires s != []
    ensures Elems(s[1..]) <= Elems(s) <= Elems(s[1..]) + {s[0]}
    ensures |Elems(s)| <= |Elems(s[1..])| + 1
  {
    assert s == [s[0]] + s[1..];
    SubsetCard(Elems(s), Elems(s[1..]) + {s[0]});
  }

  lemma {:induction false} SubsetCard<T>(a: set<T>, b: set<T>)
    requires a <= b
    ensures |a| <= |b|
    ensures |a| == |b| ==> a == b
    decreases |b|
  {
    if x :| x in b {
      SubsetCard(a - {x}, b - {x});
      if x in a {
        assert a == (a - {x}) + {x};
        assert b == (b - {x}) + {x};
      } else {
        assert a - {x} == a;
      }
    }
  }

  lemma {:induction false} MulMono(a: nat, b: nat, c: nat)
    requires a <= b
    ensures a * c <= b * c
  {
    if a < b {
      MulMono(a, b - 1, c);
      MulNext(b - 1, c);
    }
  }

  lemma MulNext(a: nat, c: nat)
    ensures (a + 1) * c == a * c + c
  {
  }
}
