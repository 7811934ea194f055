/** Small things shared by all models. */
module Basics {

  datatype Option<+T> = None | Some(value: T)

  lemma {:induction false} AnyElement<T>(s: set<T>) returns (x: T)
    requires s != {}
    ensures x in s
  {
    x :| x in s;
  }

  lemma {:induction false} LeastElement(s: set<int>) returns (m: int)
    requires s != {}
    ensures m in s && forall x | x in s :: m <= x
    decreases s
  {
    var x := AnyElement(s);
    m := x;
    if s - {x} != {} {
      var y := LeastElement(s - {x});
      m := if y < x then y else x;
    }
    assert forall z | z in s :: z == x || z in s - {x};
  }

  method Least(s: set<int>) returns (m: int)
    requires s != {}
    ensures m in s && forall x | x in s :: m <= x
  {
    ghost var least := LeastElement(s);
    m :| m in s && forall x | x in s :: m <= x;
  }

  ghost predicate Ascending(xs: seq<int>) {
    forall i, j :: 0 <= i < j < |xs| ==> xs[i] < xs[j]
  }

  /** The elements of a set in ascending order, each once. */
  method SortedList(s: set<int>) returns (xs: seq<int>)
    ensures Ascending(xs)
    ensures forall x :: x in xs <==> x in s
  {
    xs := [];
    var rest := s;
    while rest != {}
      invariant Ascending(xs)
      invariant forall x :: x in s <==> x in xs || x in rest
      invariant forall x, y :: x in xs && y in rest ==> x < y
      decreases rest
    {
      var m := Least(rest);
      assert m !in xs;
      ghost var before := xs;
      xs, rest := xs + [m], rest - {m};
      assert forall i | 0 <= i < |before| :: xs[i] == before[i] && before[i] in before;
    }
  }

  lemma {:induction false} MinusNothing<K, V>(m: map<K, V>)
    ensures m - {} == m
  {
  }

  lemma {:induction false} ModOf(q: int, r: int, m: int)
    requires 0 <= r < m
    ensures (q * m + r) % m == r
  {
    var x := q * m + r;
    var q', r' := x / m, x % m;
    assert x == q' * m + r' && 0 <= r' < m;
    assert (q - q') * m == r' - r;
    AtLeast(q - q', m);
  }

  lemma {:induction false} AtLeast(d: int, m: int)
    requires m > 0
    ensures d >= 1 ==> d * m >= m
    ensures d <= -1 ==> d * m <= -m
  {
    if d >= 1 {
      assert (d - 1) * m >= 0;
    } else if d <= -1 {
      assert (-d - 1) * m >= 0;
    }
  }
}
