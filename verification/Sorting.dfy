/** Sorting by a comparison, and why the result does not depend on the order of the input. The program collects
    from hash maps, whose order of iteration is arbitrary, and then sorts; where the comparison is total on what was
    collected, that order cannot matter. The mempool and the wallet both rest on this. */
module Sorting {
  /** On the elements of `s`, `le` is a total order. */
  ghost predicate Orders<T(!new)>(le: (T, T) -> bool, s: seq<T>) {
    && (forall a, b :: a in s && b in s ==> le(a, b) || le(b, a))
    && (forall a, b :: a in s && b in s && le(a, b) && le(b, a) ==> a == b)
    && (forall a, b, c :: a in s && b in s && c in s && le(a, b) && le(b, c) ==> le(a, c))
  }

  ghost predicate Sorted<T>(le: (T, T) -> bool, s: seq<T>) {
    forall i, j :: 0 <= i < j < |s| ==> le(s[i], s[j])
  }

  function Insert<T>(le: (T, T) -> bool, x: T, s: seq<T>): seq<T> {
    if s == [] || le(x, s[0]) then [x] + s else [s[0]] + Insert(le, x, s[1..])
  }

  /** `sort_by` */
  function Sort<T>(le: (T, T) -> bool, s: seq<T>): seq<T> {
    if s == [] then [] else Insert(le, s[0], Sort(le, s[1..]))
  }

  lemma {:induction false} InsertKeeps<T>(le: (T, T) -> bool, x: T, s: seq<T>)
    ensures multiset(Insert(le, x, s)) == multiset(s) + multiset{x}
  {
    if s != [] && !le(x, s[0]) {
      InsertKeeps(le, x, s[1..]);
      assert s == [s[0]] + s[1..];
    }
  }

  lemma {:induction false} SortKeeps<T>(le: (T, T) -> bool, s: seq<T>)
    ensures multiset(Sort(le, s)) == multiset(s)
    ensures |Sort(le, s)| == |s|
    ensures forall x :: x in Sort(le, s) <==> x in s
  {
    if s != [] {
      SortKeeps(le, s[1..]);
      InsertKeeps(le, s[0], Sort(le, s[1..]));
      assert s == [s[0]] + s[1..];
    }
    SameElements(Sort(le, s), s);
  }

  lemma SameElements<T>(s: seq<T>, t: seq<T>)
    requires multiset(s) == multiset(t)
    ensures |s| == |t|
    ensures forall x :: x in s <==> x in t
  {
    assert |multiset(s)| == |s| && |multiset(t)| == |t|;
    assert forall x :: x in s <==> x in multiset(s);
    assert forall x :: x in t <==> x in multiset(t);
  }

  lemma SubOrder<T(!new)>(le: (T, T) -> bool, s: seq<T>, t: seq<T>)
    requires Orders(le, s) && forall y :: y in t ==> y in s
    ensures Orders(le, t)
  {
  }

  lemma {:induction false} InsertSorts<T(!new)>(le: (T, T) -> bool, x: T, s: seq<T>)
    requires Orders(le, [x] + s) && Sorted(le, s)
    ensures Sorted(le, Insert(le, x, s))
  {
    if s != [] {
      assert x in [x] + s && s[0] in [x] + s;
      if le(x, s[0]) {
        forall j | 0 <= j < |s|
          ensures le(x, s[j])
        {
          assert s[j] in [x] + s;
        }
      } else {
        SubOrder(le, [x] + s, [x] + s[1..]);
        InsertSorts(le, x, s[1..]);
        HeadStaysLeast(le, x, s);
      }
    }
  }

  lemma HeadStaysLeast<T(!new)>(le: (T, T) -> bool, x: T, s: seq<T>)
    requires s != [] && Sorted(le, s) && le(s[0], x)
    ensures forall y :: y in Insert(le, x, s[1..]) ==> le(s[0], y)
  {
    InsertKeeps(le, x, s[1..]);
    assert multiset(Insert(le, x, s[1..])) == multiset([x] + s[1..]);
    SameElements(Insert(le, x, s[1..]), [x] + s[1..]);
  }

  lemma {:induction false} SortSorts<T(!new)>(le: (T, T) -> bool, s: seq<T>)
    requires Orders(le, s)
    ensures Sorted(le, Sort(le, s))
  {
    if s != [] {
      SortSorts(le, s[1..]);
      SortKeeps(le, s[1..]);
      assert forall y :: y in [s[0]] + Sort(le, s[1..]) ==> y in s;
      InsertSorts(le, s[0], Sort(le, s[1..]));
    }
  }

  lemma FirstIsLeast<T(!new)>(le: (T, T) -> bool, s: seq<T>, t: seq<T>)
    requires s != [] && Orders(le, s) && multiset(s) == multiset(t) && Sorted(le, s) && Sorted(le, t)
    ensures t != [] && s[0] == t[0] && multiset(s[1..]) == multiset(t[1..])
  {
    SameElements(s, t);
    assert s[0] in t && t[0] in s && s[0] in s && t[0] in t;
    assert s == [s[0]] + s[1..] && t == [t[0]] + t[1..];
    assert multiset(s[1..]) == multiset(s) - multiset{s[0]};
  }

  /** There is only one way to sort. */
  lemma {:induction false} SortedUnique<T(!new)>(le: (T, T) -> bool, s: seq<T>, t: seq<T>)
    requires Orders(le, s) && multiset(s) == multiset(t) && Sorted(le, s) && Sorted(le, t)
    ensures s == t
  {
    if s != [] {
      FirstIsLeast(le, s, t);
      SubOrder(le, s, s[1..]);
      SortedUnique(le, s[1..], t[1..]);
      assert s == [s[0]] + s[1..] && t == [t[0]] + t[1..];
    } else {
      assert |multiset(t)| == 0;
    }
  }

  /** Inputs with the same elements sort to the same sequence. */
  lemma {:induction false} SortIgnoresOrder<T(!new)>(le: (T, T) -> bool, s: seq<T>, t: seq<T>)
    requires Orders(le, s) && multiset(s) == multiset(t)
    ensures Sort(le, s) == Sort(le, t)
  {
    SameElements(s, t);
    SortSorts(le, s);
    SortSorts(le, t);
    SortKeeps(le, s);
    SortKeeps(le, t);
    SortedUnique(le, Sort(le, s), Sort(le, t));
  }

  // ---------- Sets as lists ----------

  ghost predicate Distinct<T>(s: seq<T>) {
    forall i, j :: 0 <= i < j < |s| ==> s[i] != s[j]
  }

  /** The elements of a set in some order. */
  ghost function ListOf<T>(xs: set<T>): (list: seq<T>)
    ensures multiset(list) == multiset(xs)
  {
    if xs == {} then []
    else
      var x :| x in xs;
      assert xs == (xs - {x}) + {x};
      ListOf(xs - {x}) + [x]
  }

  lemma CountAt<T>(list: seq<T>, i: nat, j: nat)
    requires i < j < |list|
    ensures multiset(list)[list[i]] >= if list[i] == list[j] then 2 else 1
  {
    assert list == list[..i] + [list[i]] + list[i + 1..j] + [list[j]] + list[j + 1..];
  }

  /** A list of a set has its elements, each once. */
  lemma ListMembers<T(!new)>(list: seq<T>, xs: set<T>)
    requires multiset(list) == multiset(xs)
    ensures forall x :: x in list <==> x in xs
    ensures Distinct(list)
  {
    assert forall x :: x in list <==> x in multiset(list);
    forall i, j | 0 <= i < j < |list|
      ensures list[i] != list[j]
    {
      CountAt(list, i, j);
    }
  }
}
