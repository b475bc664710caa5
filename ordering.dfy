/** Strict total orders, and the sorted duplicate-free sequence of the
    elements of a sequence. A pivot table lists its row keys and its column
    keys in this form: dates ascending, contributor identifiers in
    lexicographic order. */
module Ordering {

  /** `lt` is irreflexive, transitive and total: a strict total order. */
  ghost predicate StrictTotalOrder<T(!new)>(lt: (T, T) -> bool) {
    && (forall x :: !lt(x, x))
    && (forall x, y, z :: lt(x, y) && lt(y, z) ==> lt(x, z))
    && (forall x, y :: x == y || lt(x, y) || lt(y, x))
  }

  /** Every element is strictly below every later one. */
  predicate Sorted<T>(lt: (T, T) -> bool, s: seq<T>) {
    forall i, j :: 0 <= i < j < |s| ==> lt(s[i], s[j])
  }

  predicate Distinct<T(==)>(s: seq<T>) {
    forall i, j :: 0 <= i < j < |s| ==> s[i] != s[j]
  }

  function Elements<T(==)>(s: seq<T>): set<T> {
    set x | x in s
  }

  lemma SortedIsDistinct<T(!new)>(lt: (T, T) -> bool, s: seq<T>)
    requires StrictTotalOrder(lt) && Sorted(lt, s)
    ensures Distinct(s)
  {
    forall i, j | 0 <= i < j < |s| ensures s[i] != s[j] {
      assert lt(s[i], s[j]);
    }
  }

  /** A bound below `x` and below every element of `s` is below every
      element of a sequence holding `x` and the elements of `s`. */
  lemma AboveAll<T(!new)>(lt: (T, T) -> bool, y: T, r: seq<T>, s: seq<T>, x: T)
    requires lt(y, x)
    requires forall k :: 0 <= k < |s| ==> lt(y, s[k])
    requires Elements(r) == Elements(s) + {x}
    ensures forall k :: 0 <= k < |r| ==> lt(y, r[k])
  {
    forall k | 0 <= k < |r| ensures lt(y, r[k]) {
      assert r[k] in Elements(r);
      if r[k] != x {
        var m :| 0 <= m < |s| && s[m] == r[k];
      }
    }
  }

  /** Inserts `x` at its place in the sorted sequence `s`, unless it is
      already there. */
  function Insert<T(==,!new)>(lt: (T, T) -> bool, x: T, s: seq<T>): (r: seq<T>)
    requires StrictTotalOrder(lt) && Sorted(lt, s)
    ensures Sorted(lt, r)
    ensures Elements(r) == Elements(s) + {x}
  {
    if s == [] then [x]
    else if x == s[0] then s
    else if lt(x, s[0]) then
      assert forall k :: 0 < k < |s| ==> lt(s[0], s[k]);
      [x] + s
    else
      var rest := Insert(lt, x, s[1..]);
      assert lt(s[0], x);
      assert forall k :: 0 <= k < |s[1..]| ==> lt(s[0], s[1..][k]);
      AboveAll(lt, s[0], rest, s[1..], x);
      assert s == [s[0]] + s[1..];
      assert Elements(s) == {s[0]} + Elements(s[1..]);
      assert Elements([s[0]] + rest) == {s[0]} + Elements(rest);
      [s[0]] + rest
  }

  /** The elements of `s`, each once, in ascending `lt` order. */
  function SortedElements<T(==,!new)>(lt: (T, T) -> bool, s: seq<T>): (r: seq<T>)
    requires StrictTotalOrder(lt)
    ensures Sorted(lt, r)
    ensures Elements(r) == Elements(s)
  {
    if s == [] then []
    else
      assert s == s[..|s| - 1] + [s[|s| - 1]];
      Insert(lt, s[|s| - 1], SortedElements(lt, s[..|s| - 1]))
  }

  /** A sorted duplicate-free sequence is determined by its elements. */
  lemma {:induction false} SortedUnique<T(!new)>(lt: (T, T) -> bool, a: seq<T>, b: seq<T>)
    requires StrictTotalOrder(lt)
    requires Sorted(lt, a) && Sorted(lt, b)
    requires Elements(a) == Elements(b)
    ensures a == b
    decreases |a|
  {
    if b != [] {
      assert b[0] in Elements(b);
    }
    if a != [] {
      assert a[0] in Elements(b);
      assert b != [];
      assert b[0] in Elements(a);
      assert a[0] == b[0];
      assert a[0] !in a[1..] by {
        forall k | 0 <= k < |a[1..]| ensures a[1..][k] != a[0] {
          assert lt(a[0], a[k + 1]);
        }
      }
      assert b[0] !in b[1..] by {
        forall k | 0 <= k < |b[1..]| ensures b[1..][k] != b[0] {
          assert lt(b[0], b[k + 1]);
        }
      }
      assert a == [a[0]] + a[1..];
      assert b == [b[0]] + b[1..];
      assert Elements(a[1..]) == Elements(a) - {a[0]};
      assert Elements(b[1..]) == Elements(b) - {b[0]};
      SortedUnique(lt, a[1..], b[1..]);
    }
  }

  /** Sorting depends only on which elements occur, not on their order or
      their multiplicity. */
  lemma SortedElementsDependsOnElements<T(!new)>(lt: (T, T) -> bool, s: seq<T>, t: seq<T>)
    requires StrictTotalOrder(lt)
    requires Elements(s) == Elements(t)
    ensures SortedElements(lt, s) == SortedElements(lt, t)
  {
    SortedUnique(lt, SortedElements(lt, s), SortedElements(lt, t));
  }

  /** The chronological order of day numbers. */
  predicate DayLess(a: int, b: int) {
    a < b
  }

  lemma DayLessIsStrictTotal()
    ensures StrictTotalOrder(DayLess)
  {
  }

  /** Lexicographic order on strings, comparing characters by code point;
      a proper prefix comes first. This is how Python orders `str` values. */
  predicate StringLess(a: string, b: string)
    decreases |a|
  {
    if a == [] then b != []
    else if b == [] then false
    else if a[0] != b[0] then a[0] < b[0]
    else StringLess(a[1..], b[1..])
  }

  lemma {:induction false} StringLessIrreflexive(a: string)
    ensures !StringLess(a, a)
    decreases |a|
  {
    if a != [] {
      StringLessIrreflexive(a[1..]);
    }
  }

  lemma {:induction false} StringLessTransitive(a: string, b: string, c: string)
    requires StringLess(a, b) && StringLess(b, c)
    ensures StringLess(a, c)
    decreases |a|
  {
    if a != [] && a[0] == b[0] && b[0] == c[0] {
      StringLessTransitive(a[1..], b[1..], c[1..]);
    }
  }

  lemma {:induction false} StringLessTotal(a: string, b: string)
    ensures a == b || StringLess(a, b) || StringLess(b, a)
    decreases |a|
  {
    if a != [] && b != [] && a[0] == b[0] {
      StringLessTotal(a[1..], b[1..]);
      if a[1..] == b[1..] {
        assert a == [a[0]] + a[1..] && b == [b[0]] + b[1..];
      }
    }
  }

  lemma StringLessIsStrictTotal()
    ensures StrictTotalOrder(StringLess)
  {
    forall x: string ensures !StringLess(x, x) {
      StringLessIrreflexive(x);
    }
    forall x: string, y: string, z: string | StringLess(x, y) && StringLess(y, z)
      ensures StringLess(x, z)
    {
      StringLessTransitive(x, y, z);
    }
    forall x: string, y: string ensures x == y || StringLess(x, y) || StringLess(y, x) {
      StringLessTotal(x, y);
    }
  }
}
