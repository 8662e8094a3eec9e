/** The page size, optional values, and the lists without repetition the kernel keeps by links. */
module Basics {

  const PAGE := 4096

  datatype Option<+T> = None | Some(value: T)

  ghost predicate NoRepeats<T>(s: seq<T>) {
    forall i, j :: 0 <= i < j < |s| ==> s[i] != s[j]
  }

  ghost predicate In<T>(x: T, s: seq<T>) {
    x in s
  }

  /** The list with the first node that holds x unlinked. */
  function Without<T(==)>(s: seq<T>, x: T): seq<T> {
    if s == [] then [] else if s[0] == x then s[1..] else [s[0]] + Without(s[1..], x)
  }

  lemma {:induction false} WithoutOne<T>(s: seq<T>, x: T, y: T)
    requires NoRepeats(s)
    ensures NoRepeats(Without(s, x)) && (In(y, Without(s, x)) <==> In(y, s) && y != x)
    ensures |Without(s, x)| == |s| - if In(x, s) then 1 else 0
  {
    if s != [] {
      assert y in s <==> y == s[0] || y in s[1..];
      assert x in s <==> x == s[0] || x in s[1..];
      if s[0] != x {
        WithoutOne(s[1..], x, y);
        WithoutOne(s[1..], x, s[0]);
        assert s[0] !in Without(s[1..], x);
      }
    }
  }

  lemma WithoutFacts<T(!new)>(s: seq<T>, x: T)
    requires NoRepeats(s)
    ensures NoRepeats(Without(s, x)) && |Without(s, x)| == |s| - if In(x, s) then 1 else 0
    ensures forall y {:trigger In(y, Without(s, x))} :: In(y, Without(s, x)) <==> In(y, s) && y != x
  {
    WithoutOne(s, x, x);
    forall y ensures In(y, Without(s, x)) <==> In(y, s) && y != x {
      WithoutOne(s, x, y);
    }
  }

  lemma PushFacts<T(!new)>(s: seq<T>, x: T)
    requires NoRepeats(s) && !In(x, s)
    ensures NoRepeats([x] + s)
    ensures forall y {:trigger In(y, [x] + s)} :: In(y, [x] + s) <==> In(y, s) || y == x
  {
  }

  lemma AppendFacts<T(!new)>(s: seq<T>, x: T)
    requires NoRepeats(s) && !In(x, s)
    ensures NoRepeats(s + [x])
    ensures forall y {:trigger In(y, s + [x])} :: In(y, s + [x]) <==> In(y, s) || y == x
  {
  }

  lemma PopFacts<T(!new)>(s: seq<T>)
    requires NoRepeats(s) && s != []
    ensures NoRepeats(s[1..]) && In(s[0], s)
    ensures forall y {:trigger In(y, s[1..])} :: In(y, s[1..]) <==> In(y, s) && y != s[0]
  {
    assert s == [s[0]] + s[1..];
  }
}
