/** Sorting by a strict order, standing for the library's sort, and the order of strings. */
module Sorting {
  import opened Sets

  predicate Ascending<T>(s: seq<T>, less: (T, T) -> bool) {
    forall i, j | 0 <= i < j < |s| :: less(s[i], s[j])
  }

  predicate Distinct<T(==)>(s: seq<T>) {
    forall i, j | 0 <= i < j < |s| :: s[i] != s[j]
  }

  /** A strict order that compares any two different elements of `s`. */
  ghost predicate OrderOn<T(!new)>(less: (T, T) -> bool, s: set<T>) {
    && (forall x :: !less(x, x))
    && (forall x, y, z | less(x, y) && less(y, z) :: less(x, z))
    && (forall x, y | x in s && y in s && x != y :: less(x, y) || less(y, x))
  }

  function Insert<T>(x: T, s: seq<T>, less: (T, T) -> bool): seq<T> {
    if s == [] || less(x, s[0]) then [x] + s else [s[0]] + Insert(x, s[1..], less)
  }

  function SortBy<T>(s: seq<T>, less: (T, T) -> bool): seq<T> {
    if s == [] then [] else Insert(s[0], SortBy(s[1..], less), less)
  }

  function Elements<T>(s: seq<T>): set<T> {
    set x | x in s
  }

  lemma {:induction false} InsertContents<T(!new)>(x: T, s: seq<T>, less: (T, T) -> bool)
    ensures multiset(Insert(x, s, less)) == multiset(s) + multiset{x}
    ensures Elements(Insert(x, s, less)) == Elements(s) + {x}
  {
    if !(s == [] || less(x, s[0])) {
      assert s == [s[0]] + s[1..];
      InsertContents(x, s[1..], less);
    }
    forall y ensures y in Elements(Insert(x, s, less)) <==> y in Elements(s) + {x} {
      assert y in Elements(Insert(x, s, less)) <==> y in multiset(Insert(x, s, less));
      assert y in Elements(s) <==> y in multiset(s);
    }
  }

  lemma {:induction false} InsertKeeps<T(!new)>(x: T, s: seq<T>, less: (T, T) -> bool)
    requires OrderOn(less, Elements(s) + {x}) && Ascending(s, less) && x !in s
    ensures Ascending(Insert(x, s, less), less)
  {
    if !(s == [] || less(x, s[0])) {
      assert Elements(s[1..]) <= Elements(s) && s[0] in Elements(s);
      InsertKeeps(x, s[1..], less);
      InsertContents(x, s[1..], less);
      var r := Insert(x, s[1..], less);
      forall i | 0 <= i < |r| ensures less(s[0], r[i]) {
        assert r[i] in Elements(r);
      }
    }
  }

  lemma {:induction false} SortBySorts<T(!new)>(s: seq<T>, less: (T, T) -> bool)
    requires OrderOn(less, Elements(s)) && Distinct(s)
    ensures Ascending(SortBy(s, less), less)
    ensures multiset(SortBy(s, less)) == multiset(s)
    ensures Elements(SortBy(s, less)) == Elements(s)
    ensures |SortBy(s, less)| == |s|
  {
    if s != [] {
      assert s == [s[0]] + s[1..];
      assert Elements(s) == Elements(s[1..]) + {s[0]};
      SortBySorts(s[1..], less);
      assert s[0] !in Elements(s[1..]);
      InsertKeeps(s[0], SortBy(s[1..], less), less);
      InsertContents(s[0], SortBy(s[1..], less), less);
      assert |multiset(SortBy(s, less))| == |SortBy(s, less)|;
    }
  }

  lemma AppendedElements<T>(a: seq<T>, b: seq<T>)
    ensures Elements(a + b) == Elements(a) + Elements(b)
  {
  }

  lemma EmptyElements<T>(s: seq<T>)
    ensures Elements(s) == {} <==> s == []
  {
    if s != [] { assert s[0] in Elements(s); }
  }

  /** There is only one ascending arrangement of a set. */
  lemma {:induction false} AscendingIsUnique<T(!new)>(a: seq<T>, b: seq<T>, less: (T, T) -> bool)
    requires OrderOn(less, Elements(a)) && Ascending(a, less) && Ascending(b, less) && Elements(a) == Elements(b)
    ensures a == b
  {
    EmptyElements(a);
    EmptyElements(b);
    if a != [] {
      assert a[0] in Elements(a);
      assert b[0] in Elements(b);
      if a[0] != b[0] {
        var i :| 0 <= i < |b| && b[i] == a[0];
        var j :| 0 <= j < |a| && a[j] == b[0];
        assert less(b[0], a[0]) && less(a[0], b[0]);
      }
      RestOf(a, less);
      RestOf(b, less);
      AscendingIsUnique(a[1..], b[1..], less);
      assert a == [a[0]] + a[1..] && b == [b[0]] + b[1..];
    }
  }

  lemma InSomeOrder<T(!new)>(s: seq<T>, less: (T, T) -> bool, i: nat, j: nat)
    requires Ascending(s, less) && i < |s| && j < |s| && i != j
    ensures less(s[i], s[j]) || less(s[j], s[i])
  {
  }

  lemma RestOf<T(!new)>(a: seq<T>, less: (T, T) -> bool)
    requires a != [] && Ascending(a, less) && OrderOn(less, {})
    ensures Elements(a[1..]) == Elements(a) - {a[0]} && Ascending(a[1..], less)
  {
  }

  // ---------------------------------------------------------------------------------------

  /** The lexicographic order of strings. */
  predicate StringLess(a: string, b: string) {
    b != [] && (a == [] || a[0] < b[0] || (a[0] == b[0] && StringLess(a[1..], b[1..])))
  }

  /** Either a proper prefix, or smaller where the two first differ. */
  lemma {:induction false} StringLessExactly(a: string, b: string)
    ensures StringLess(a, b) <==>
      || (a <= b && a != b)
      || exists i :: 0 <= i < |a| && i < |b| && a[..i] == b[..i] && a[i] < b[i]
  {
    if a != [] && b != [] && a[0] == b[0] {
      StringLessExactly(a[1..], b[1..]);
      assert a == [a[0]] + a[1..] && b == [b[0]] + b[1..];
      if i :| 0 <= i < |a| && i < |b| && a[..i] == b[..i] && a[i] < b[i] {
        assert a[1..][..i - 1] == a[..i][1..] && b[1..][..i - 1] == b[..i][1..];
        assert a[1..][i - 1] < b[1..][i - 1];
      }
      if i :| 0 <= i < |a[1..]| && i < |b[1..]| && a[1..][..i] == b[1..][..i] && a[1..][i] < b[1..][i] {
        assert a[..i + 1] == [a[0]] + a[1..][..i] && b[..i + 1] == [b[0]] + b[1..][..i];
        assert a[i + 1] < b[i + 1];
      }
    } else if a != [] && b != [] && a[0] < b[0] {
      assert a[..0] == b[..0];
    }
  }

  lemma {:induction false} StringLessIrreflexive(a: string)
    ensures !StringLess(a, a)
  {
    if a != [] { StringLessIrreflexive(a[1..]); }
  }

  lemma {:induction false} StringLessTransitive(a: string, b: string, c: string)
    requires StringLess(a, b) && StringLess(b, c)
    ensures StringLess(a, c)
  {
    if a != [] && a[0] == b[0] && b[0] == c[0] {
      StringLessTransitive(a[1..], b[1..], c[1..]);
    }
  }

  lemma {:induction false} StringLessTotal(a: string, b: string)
    ensures a == b || StringLess(a, b) || StringLess(b, a)
  {
    if a != [] && b != [] && a[0] == b[0] {
      StringLessTotal(a[1..], b[1..]);
      assert a == [a[0]] + a[1..] && b == [b[0]] + b[1..];
    }
  }

  lemma StringOrder(s: set<string>)
    ensures OrderOn(StringLess, s)
  {
    forall x ensures !StringLess(x, x) { StringLessIrreflexive(x); }
    forall x, y, z | StringLess(x, y) && StringLess(y, z) ensures StringLess(x, z) { StringLessTransitive(x, y, z); }
    forall x, y | x in s && y in s && x != y ensures StringLess(x, y) || StringLess(y, x) { StringLessTotal(x, y); }
  }
}
