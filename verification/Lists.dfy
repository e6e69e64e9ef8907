/** Lists of lists, one after the other. */
module Lists {
  function Flat<T>(lists: seq<seq<T>>): seq<T> {
    if lists == [] then [] else Flat(lists[..|lists| - 1]) + lists[|lists| - 1]
  }

  lemma {:induction false} FlatAppends<T>(a: seq<seq<T>>, b: seq<seq<T>>)
    ensures Flat(a + b) == Flat(a) + Flat(b)
  {
    if b == [] {
      assert a + b == a;
    } else {
      var front := b[..|b| - 1];
      FlatAppends(a, front);
      assert (a + b)[..|a + b| - 1] == a + front;
    }
  }

  lemma FlatOfOne<T>(a: seq<T>)
    ensures Flat([a]) == a
  {
    assert [a][..0] == [];
  }

  /** What the lists hold together does not depend on where they are cut. */
  lemma CutAnywhere<T>(a: seq<T>, b: seq<T>, before: seq<seq<T>>, after: seq<seq<T>>)
    ensures Flat(before + [a + b] + after) == Flat(before + [a, b] + after) == Flat(before) + a + b + Flat(after)
  {
    FlatOfOne(a);
    FlatOfOne(b);
    FlatOfOne(a + b);
    FlatAppends([a], [b]);
    assert [a] + [b] == [a, b];
    FlatAppends(before, [a + b]);
    FlatAppends(before, [a, b]);
    FlatAppends(before + [a + b], after);
    FlatAppends(before + [a, b], after);
  }

  lemma {:induction false} FlatGrows<T>(lists: seq<seq<T>>, n: nat)
    requires n <= |lists|
    ensures |Flat(lists[..n])| <= |Flat(lists)|
  {
    if n < |lists| {
      FlatGrows(lists[..|lists| - 1], n);
      assert lists[..|lists| - 1][..n] == lists[..n];
    } else {
      assert lists[..n] == lists;
    }
  }
}
