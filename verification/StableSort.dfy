/** A stable sort by a comparison, and filtering, which commutes with it. */
module StableSort {

  lemma Assoc<T>(a: seq<T>, b: seq<T>, c: seq<T>)
    ensures (a + b) + c == a + (b + c)
  {
  }

  lemma HeadTail<T>(s: seq<T>)
    requires s != []
    ensures s == [s[0]] + s[1..]
  {
  }

  lemma FrontLast<T>(s: seq<T>)
    requires s != []
    ensures s == s[..|s| - 1] + [s[|s| - 1]]
  {
  }

  lemma HasMember<T>(s: seq<T>)
    ensures s == [] || s[0] in s
  {
  }

  /** What a comparison must satisfy: it is irreflexive on ties and "not before" is transitive. */
  ghost predicate IsComparison<T(!new)>(before: (T, T) -> bool) {
    && (forall a, b :: before(a, b) ==> !before(b, a))
    && (forall a, b, c :: !before(b, a) && !before(c, b) ==> !before(c, a))
  }

  ghost predicate OrderedBy<T(!new)>(before: (T, T) -> bool, s: seq<T>) {
    forall i, j :: 0 <= i < j < |s| ==> !before(s[j], s[i])
  }

  function InsertBy<T>(before: (T, T) -> bool, x: T, s: seq<T>): (r: seq<T>)
    ensures multiset(r) == multiset(s) + multiset{x}
  {
    if s == [] then [x]
    else if before(s[0], x) then
      assert s == [s[0]] + s[1..];
      [s[0]] + InsertBy(before, x, s[1..])
    else [x] + s
  }

  function SortBy<T>(before: (T, T) -> bool, s: seq<T>): (r: seq<T>)
    ensures multiset(r) == multiset(s)
  {
    if s == [] then []
    else
      assert s == [s[0]] + s[1..];
      InsertBy(before, s[0], SortBy(before, s[1..]))
  }

  lemma SameMembers<T>(a: seq<T>, b: seq<T>)
    requires multiset(a) == multiset(b)
    ensures |a| == |b| && forall x :: x in a <==> x in b
  {
    assert |multiset(a)| == |a| && |multiset(b)| == |b|;
    forall x ensures x in a <==> x in b {
      assert x in a <==> x in multiset(a);
      assert x in b <==> x in multiset(b);
    }
  }

  lemma {:induction false} InsertOrdered<T(!new)>(before: (T, T) -> bool, x: T, s: seq<T>)
    requires IsComparison(before) && OrderedBy(before, s)
    ensures OrderedBy(before, InsertBy(before, x, s))
  {
    if s != [] && before(s[0], x) {
      InsertOrdered(before, x, s[1..]);
      var rest := InsertBy(before, x, s[1..]);
      SameMembers(rest, s[1..] + [x]);
      forall y | y in rest ensures !before(y, s[0]) {
        assert y in s[1..] + [x];
      }
    }
  }

  lemma {:induction false} SortOrdered<T(!new)>(before: (T, T) -> bool, s: seq<T>)
    requires IsComparison(before)
    ensures OrderedBy(before, SortBy(before, s))
  {
    if s != [] {
      SortOrdered(before, s[1..]);
      InsertOrdered(before, s[0], SortBy(before, s[1..]));
    }
  }

  /** A list already in order is left as it is. */
  lemma {:induction false} SortOfOrdered<T(!new)>(before: (T, T) -> bool, s: seq<T>)
    requires OrderedBy(before, s)
    ensures SortBy(before, s) == s
  {
    if s != [] {
      SortOfOrdered(before, s[1..]);
      assert s == [s[0]] + s[1..];
    }
  }

  // ----- filtering -----

  /** The elements that pass, in order.  It recurses from the end, as loops that append do. */
  function Filter<T(!new)>(keep: T -> bool, s: seq<T>): (r: seq<T>)
    ensures forall x :: x in r <==> x in s && keep(x)
  {
    if s == [] then []
    else
      var last := s[|s| - 1];
      assert s == s[..|s| - 1] + [last];
      Filter(keep, s[..|s| - 1]) + (if keep(last) then [last] else [])
  }

  lemma FilterAppend<T(!new)>(keep: T -> bool, s: seq<T>, x: T)
    ensures Filter(keep, s + [x]) == Filter(keep, s) + (if keep(x) then [x] else [])
  {
    assert (s + [x])[..|s|] == s;
  }

  lemma {:induction false} FilterConcat<T(!new)>(keep: T -> bool, a: seq<T>, b: seq<T>)
    ensures Filter(keep, a + b) == Filter(keep, a) + Filter(keep, b)
  {
    if b == [] {
      assert a + b == a;
    } else {
      var rest, last := b[..|b| - 1], b[|b| - 1];
      FilterConcat(keep, a, rest);
      FilterAppend(keep, a + rest, last);
      FrontLast(b);
      Assoc(a, rest, [last]);
      Assoc(Filter(keep, a), Filter(keep, rest), if keep(last) then [last] else []);
    }
  }

  lemma FilterCons<T(!new)>(keep: T -> bool, x: T, s: seq<T>)
    ensures Filter(keep, [x] + s) == (if keep(x) then [x] + Filter(keep, s) else Filter(keep, s))
  {
    FilterConcat(keep, [x], s);
    FilterAppend(keep, [], x);
    assert [] + [x] == [x];
  }

  lemma {:induction false} FilterAll<T(!new)>(keep: T -> bool, s: seq<T>)
    requires forall x :: x in s ==> keep(x)
    ensures Filter(keep, s) == s
  {
    if s != [] {
      var rest, last := s[..|s| - 1], s[|s| - 1];
      forall x | x in rest ensures x in s {}
      FilterAll(keep, rest);
      assert last in s;
      FrontLast(s);
    }
  }

  lemma {:induction false} FilterCommutes<T(!new)>(f: T -> bool, g: T -> bool, s: seq<T>)
    ensures Filter(f, Filter(g, s)) == Filter(g, Filter(f, s))
  {
    if s != [] {
      var rest, last := s[..|s| - 1], s[|s| - 1];
      FilterCommutes(f, g, rest);
      FilterAppend(f, Filter(g, rest), last);
      FilterAppend(g, Filter(f, rest), last);
      assert Filter(g, rest) + [] == Filter(g, rest) && Filter(f, rest) + [] == Filter(f, rest);
    }
  }

  lemma InsertBeforeAll<T>(before: (T, T) -> bool, x: T, s: seq<T>)
    requires s != [] ==> !before(s[0], x)
    ensures InsertBy(before, x, s) == [x] + s
  {
  }

  lemma InsertCons<T>(before: (T, T) -> bool, x: T, y: T, s: seq<T>)
    ensures InsertBy(before, x, [y] + s) == if before(y, x) then [y] + InsertBy(before, x, s) else [x] + ([y] + s)
  {
    assert ([y] + s)[1..] == s;
  }

  lemma {:induction false} InsertThenFilter<T(!new)>(before: (T, T) -> bool, keep: T -> bool, x: T, s: seq<T>)
    requires IsComparison(before) && OrderedBy(before, s)
    ensures Filter(keep, InsertBy(before, x, s))
            == if keep(x) then InsertBy(before, x, Filter(keep, s)) else Filter(keep, s)
  {
    var left := Filter(keep, s);
    if s == [] {
      assert left == [];
      FilterCons(keep, x, []);
    } else if before(s[0], x) {
      var y, rest := s[0], s[1..];
      InsertThenFilter(before, keep, x, rest);
      HeadTail(s);
      FilterCons(keep, y, rest);
      FilterCons(keep, y, InsertBy(before, x, rest));
      InsertCons(before, x, y, Filter(keep, rest));
    } else {
      FilterCons(keep, x, s);
      NoneBefore(before, x, s);
      if left != [] { assert left[0] in left; }
      InsertBeforeAll(before, x, left);
    }
  }

  lemma NoneBefore<T(!new)>(before: (T, T) -> bool, x: T, s: seq<T>)
    requires IsComparison(before) && OrderedBy(before, s) && s != [] && !before(s[0], x)
    ensures forall y :: y in s ==> !before(y, x)
  {
    forall y | y in s ensures !before(y, x) {
      var i :| 0 <= i < |s| && s[i] == y;
    }
  }

  /** Sorting what passes is the same as taking what passes from the sorted list. */
  lemma {:induction false} SortThenFilter<T(!new)>(before: (T, T) -> bool, keep: T -> bool, s: seq<T>)
    requires IsComparison(before)
    ensures SortBy(before, Filter(keep, s)) == Filter(keep, SortBy(before, s))
  {
    if s == [] {
      assert Filter(keep, s) == [];
    } else {
      var left := Filter(keep, s[1..]);
      SortThenFilter(before, keep, s[1..]);
      SortOrdered(before, s[1..]);
      InsertThenFilter(before, keep, s[0], SortBy(before, s[1..]));
      HeadTail(s);
      FilterCons(keep, s[0], s[1..]);
      SortCons(before, s[0], left);
    }
  }

  lemma SortCons<T>(before: (T, T) -> bool, x: T, s: seq<T>)
    ensures SortBy(before, [x] + s) == InsertBy(before, x, SortBy(before, s))
  {
    assert ([x] + s)[1..] == s;
  }
}
