/** Facts about finite sets and sums over them. */
module Sets {
  function Min(a: int, b: int): int { if a < b then a else b }
  function Max(a: int, b: int): int { if a > b then a else b }

  lemma SubsetSize<T>(a: set<T>, b: set<T>)
    requires a <= b
    ensures |a| <= |b|
  {
    assert b == a + (b - a);
  }

  lemma Pick<T>(s: set<T>) returns (x: T)
    requires s != {}
    ensures x in s
  {
    x :| x in s;
  }

  lemma {:induction false} OccursOnce<T>(q: seq<T>, x: T)
    requires forall i, j | 0 <= i < j < |q| :: q[i] != q[j]
    ensures multiset(q)[x] == if x in q then 1 else 0
  {
    if q != [] {
      assert q == q[..|q| - 1] + [q[|q| - 1]];
      OccursOnce(q[..|q| - 1], x);
    }
  }

  ghost function Range(lo: int, n: nat): (r: set<int>)
    ensures |r| == n && forall x :: x in r <==> lo <= x < lo + n
  {
    if n == 0 then {} else Range(lo, n - 1) + {lo + n - 1}
  }

  lemma Least(s: set<int>) returns (m: int)
    requires s != {}
    ensures m in s && forall x | x in s :: m <= x
  {
    m := Pick(s);
    var rest := s - {m};
    while rest != {}
      invariant m in s && rest <= s && forall x | x in s && x !in rest :: m <= x
      decreases rest
    {
      var x := Pick(rest);
      rest := rest - {x};
      m := if x < m then x else m;
    }
  }

  /** There is always another number. */
  lemma Unused(s: set<nat>) returns (n: nat)
    ensures n !in s
  {
    n := 0;
    var above := s;
    while above != {}
      invariant forall x | x in s :: x < n || x in above
      decreases above
    {
      var x := Pick(above);
      above := above - {x};
      n := Max(n, x + 1);
    }
  }

  /** The sum of a measure over a set. */
  ghost function Sum<T(!new)>(s: set<T>, f: T -> int): int {
    if s == {} then 0
    else
      var x :| x in s;
      f(x) + Sum(s - {x}, f)
  }

  lemma {:induction false} SumWithout<T(!new)>(s: set<T>, f: T -> int, x: T)
    requires x in s
    ensures Sum(s, f) == f(x) + Sum(s - {x}, f)
  {
    var y :| y in s && Sum(s, f) == f(y) + Sum(s - {y}, f);
    if y != x {
      SumWithout(s - {y}, f, x);
      SumWithout(s - {x}, f, y);
      assert s - {y} - {x} == s - {x} - {y};
    }
  }

  lemma SumWith<T(!new)>(s: set<T>, f: T -> int, x: T)
    requires x !in s
    ensures Sum(s + {x}, f) == Sum(s, f) + f(x)
  {
    SumWithout(s + {x}, f, x);
    assert s + {x} - {x} == s;
  }

  lemma {:induction false} SumOfParts<T(!new)>(a: set<T>, b: set<T>, f: T -> int)
    requires a !! b
    ensures Sum(a + b, f) == Sum(a, f) + Sum(b, f)
    decreases b
  {
    if b == {} {
      assert a + b == a;
    } else {
      var x := Pick(b);
      SumOfParts(a, b - {x}, f);
      SumWith(a + (b - {x}), f, x);
      SumWithout(b, f, x);
      assert a + (b - {x}) + {x} == a + b;
    }
  }

  lemma SumOfOne<T(!new)>(x: T, f: T -> int)
    ensures Sum({x}, f) == f(x)
  {
    SumWith({}, f, x);
    assert {} + {x} == {x};
  }

  lemma {:induction false} SumGrows<T(!new)>(a: set<T>, b: set<T>, f: T -> int)
    requires a <= b && forall x | x in b :: f(x) >= 0
    ensures 0 <= Sum(a, f) <= Sum(b, f)
    decreases b
  {
    if a != {} {
      var x := Pick(a);
      SumWithout(a, f, x);
      SumWithout(b, f, x);
      SumGrows(a - {x}, b - {x}, f);
    } else if b != {} {
      var x := Pick(b);
      SumWithout(b, f, x);
      SumGrows(a, b - {x}, f);
    }
  }

  lemma {:induction false} SumAtMost<T(!new)>(s: set<T>, f: T -> int, g: T -> int)
    requires forall x | x in s :: f(x) <= g(x)
    ensures Sum(s, f) <= Sum(s, g)
  {
    if s != {} {
      var x := Pick(s);
      SumWithout(s, f, x);
      SumWithout(s, g, x);
      SumAtMost(s - {x}, f, g);
    }
  }
}
