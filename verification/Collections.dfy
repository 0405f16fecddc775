/** Stable sorting by a comparison, and the test for repeated elements that compares a set's size with a length. */
module Collections {

  ghost predicate TotalPreorder<T(!new)>(le: (T, T) -> bool) {
    && (forall x, y :: le(x, y) || le(y, x))
    && (forall x, y, z :: le(x, y) && le(y, z) ==> le(x, z))
  }

  ghost predicate Antisymmetric<T(!new)>(le: (T, T) -> bool) {
    forall x, y :: le(x, y) && le(y, x) ==> x == y
  }

  ghost predicate Sorted<T>(s: seq<T>, le: (T, T) -> bool) {
    forall i, j :: 0 <= i < j < |s| ==> le(s[i], s[j])
  }

  function Insert<T>(x: T, s: seq<T>, le: (T, T) -> bool): seq<T> {
    if s == [] || le(x, s[0]) then [x] + s else [s[0]] + Insert(x, s[1..], le)
  }

  /** `toSorted`: equal elements keep their order. */
  function Sort<T>(s: seq<T>, le: (T, T) -> bool): seq<T> {
    if s == [] then [] else Insert(s[0], Sort(s[1..], le), le)
  }

  lemma {:induction false} InsertPermutes<T>(x: T, s: seq<T>, le: (T, T) -> bool)
    ensures multiset(Insert(x, s, le)) == multiset(s) + multiset{x}
  {
    if s != [] && !le(x, s[0]) {
      InsertPermutes(x, s[1..], le);
      assert s == [s[0]] + s[1..];
    }
  }

  lemma {:induction false} SortPermutes<T>(s: seq<T>, le: (T, T) -> bool)
    ensures multiset(Sort(s, le)) == multiset(s)
    ensures |Sort(s, le)| == |s|
  {
    if s == [] {
    } else {
      SortPermutes(s[1..], le);
      InsertPermutes(s[0], Sort(s[1..], le), le);
      assert s == [s[0]] + s[1..];
    }
    assert |multiset(Sort(s, le))| == |Sort(s, le)|;
  }

  lemma SortMembers<T>(s: seq<T>, le: (T, T) -> bool)
    ensures forall x :: x in Sort(s, le) <==> x in s
  {
    SortPermutes(s, le);
    forall x
      ensures x in Sort(s, le) <==> x in s
    {
      assert x in multiset(Sort(s, le)) <==> x in multiset(s);
    }
  }

  lemma {:induction false} InsertSorts<T(!new)>(x: T, s: seq<T>, le: (T, T) -> bool)
    requires TotalPreorder(le) && Sorted(s, le)
    ensures Sorted(Insert(x, s, le), le)
  {
    if s != [] && !le(x, s[0]) {
      var rest := Insert(x, s[1..], le);
      InsertSorts(x, s[1..], le);
      InsertPermutes(x, s[1..], le);
      forall j | 0 <= j < |rest|
        ensures le(s[0], rest[j])
      {
        assert rest[j] in multiset(s[1..]) + multiset{x};
      }
    }
  }

  lemma {:induction false} SortSorts<T(!new)>(s: seq<T>, le: (T, T) -> bool)
    requires TotalPreorder(le)
    ensures Sorted(Sort(s, le), le)
  {
    if s == [] {
    } else {
      SortSorts(s[1..], le);
      InsertSorts(s[0], Sort(s[1..], le), le);
    }
  }

  /** Two ordered arrangements of the same elements are equal when no two of those elements tie. */
  lemma {:induction false} SortedUnique<T>(s: seq<T>, t: seq<T>, le: (T, T) -> bool)
    requires Sorted(s, le) && Sorted(t, le) && multiset(s) == multiset(t)
    requires forall x, y :: x in s && y in s && le(x, y) && le(y, x) ==> x == y
    ensures s == t
  {
    assert |s| == |multiset(s)| == |multiset(t)| == |t|;
    if s == [] {
    } else {
      assert s[0] in multiset(t) && t[0] in multiset(s);
      assert s[0] == t[0];
      TailMultiset(s);
      TailMultiset(t);
      SortedUnique(s[1..], t[1..], le);
      assert s == [s[0]] + s[1..] && t == [t[0]] + t[1..];
    }
  }

  lemma TailMultiset<T>(s: seq<T>)
    requires s != []
    ensures multiset(s[1..]) == multiset(s) - multiset{s[0]}
  {
    assert s == [s[0]] + s[1..];
  }

  // ----- repeated elements

  function Elements<T>(s: seq<T>): set<T> {
    set x | x in s
  }

  /** `new Set(s).size === s.length` */
  predicate AllDistinct<T(==)>(s: seq<T>) {
    |Elements(s)| == |s|
  }

  ghost predicate Distinct<T>(s: seq<T>) {
    forall i, j :: 0 <= i < j < |s| ==> s[i] != s[j]
  }

  lemma {:induction false} ElementsSize<T>(s: seq<T>)
    ensures |Elements(s)| <= |s|
    ensures |Elements(s)| == |s| <==> Distinct(s)
  {
    if s == [] {
    } else {
      var rest := s[1..];
      ElementsSize(rest);
      DistinctHead(s);
      assert s == [s[0]] + rest;
      assert Elements(s) == Elements(rest) + {s[0]};
      hide Distinct;
      assert s[0] in rest ==> Elements(s) == Elements(rest);
    }
  }

  lemma DistinctHead<T>(s: seq<T>)
    requires s != []
    ensures Distinct(s) <==> Distinct(s[1..]) && s[0] !in s[1..]
  {
    var rest := s[1..];
    assert forall j :: 0 < j < |s| ==> s[j] == rest[j - 1];
    if s[0] in rest {
      var j :| 0 <= j < |rest| && rest[j] == s[0];
      assert s[j + 1] == s[0];
    }
  }

  /** Distinct elements: a sequence is determined up to order by its set of elements. */
  lemma {:induction false} DistinctMultiset<T>(s: seq<T>)
    requires Distinct(s)
    ensures multiset(s) == multiset(Elements(s))
  {
    if s == [] {
    } else {
      var rest := s[1..];
      assert s == [s[0]] + rest;
      assert Distinct(rest) && s[0] !in rest;
      DistinctMultiset(rest);
      assert Elements(s) == Elements(rest) + {s[0]};
    }
  }

  lemma SplitAt<T>(s: seq<T>, k: nat)
    requires k < |s|
    ensures s == s[..k] + ([s[k]] + s[k + 1..])
  {
  }

  // ----- filtering and mapping

  function Filter<T>(s: seq<T>, p: T -> bool): seq<T> {
    if s == [] then [] else (if p(s[0]) then [s[0]] else []) + Filter(s[1..], p)
  }

  lemma {:induction false} FilterMembers<T>(s: seq<T>, p: T -> bool)
    ensures forall x :: x in Filter(s, p) <==> x in s && p(x)
    ensures |Filter(s, p)| <= |s|
  {
    if s == [] {
    } else {
      FilterMembers(s[1..], p);
      assert s == [s[0]] + s[1..];
    }
  }

  lemma {:induction false} FilterWeaker<T>(s: seq<T>, p: T -> bool, q: T -> bool)
    requires forall x :: x in s && p(x) ==> q(x)
    ensures |Filter(s, p)| <= |Filter(s, q)|
  {
    if s == [] {
    } else {
      FilterWeaker(s[1..], p, q);
    }
  }

  function Map<T, U>(s: seq<T>, f: T -> U): (r: seq<U>)
    ensures |r| == |s| && forall i :: 0 <= i < |s| ==> r[i] == f(s[i])
  {
    seq(|s|, i requires 0 <= i < |s| => f(s[i]))
  }

  /** Code-unit order, as `sort()` without a comparator uses it. */
  predicate StringLe(a: string, b: string) {
    a == "" || (b != "" && (a[0] < b[0] || (a[0] == b[0] && StringLe(a[1..], b[1..]))))
  }

  /** A `Set` built from a list, in order of insertion. */
  function Dedupe<T(==)>(s: seq<T>): seq<T> {
    if s == [] then []
    else
      var front := Dedupe(s[..|s| - 1]);
      if s[|s| - 1] in front then front else front + [s[|s| - 1]]
  }

  lemma {:induction false} DedupeMembers<T>(s: seq<T>)
    ensures Distinct(Dedupe(s))
    ensures forall x :: x in Dedupe(s) <==> x in s
  {
    if s == [] {
    } else {
      DedupeMembers(s[..|s| - 1]);
      assert s == s[..|s| - 1] + [s[|s| - 1]];
    }
  }

  /** A filter whose test holds at exactly one position keeps exactly that element. */
  lemma {:induction false} FilterOne<T>(s: seq<T>, p: T -> bool, w: nat)
    requires w < |s| && p(s[w])
    requires forall i :: 0 <= i < |s| && p(s[i]) ==> i == w
    ensures Filter(s, p) == [s[w]]
  {
    if w == 0 {
      FilterNone(s[1..], p);
    } else {
      assert forall i :: 0 <= i < |s[1..]| ==> s[1..][i] == s[i + 1];
      FilterOne(s[1..], p, w - 1);
    }
  }

  lemma {:induction false} FilterNone<T>(s: seq<T>, p: T -> bool)
    requires forall i :: 0 <= i < |s| ==> !p(s[i])
    ensures Filter(s, p) == []
  {
    if s == [] {
    } else {
      FilterNone(s[1..], p);
    }
  }

  // ----- counting what a filter keeps

  ghost function Holding<T>(s: seq<T>, p: T -> bool): set<int> {
    set i | 0 <= i < |s| && p(s[i])
  }

  lemma {:induction false} FilterLast<T>(s: seq<T>, p: T -> bool)
    requires s != []
    ensures Filter(s, p) == Filter(s[..|s| - 1], p) + if p(s[|s| - 1]) then [s[|s| - 1]] else []
  {
    var n := |s| - 1;
    if n == 0 {
      assert s[1..] == [] && s[..0] == [];
    } else {
      FilterLast(s[1..], p);
      assert s[1..][..n - 1] == s[..n][1..];
      assert s[..n][0] == s[0];
    }
  }

  /** A filter keeps one element for every position that passes its test. */
  lemma {:induction false} FilterCount<T>(s: seq<T>, p: T -> bool)
    ensures |Filter(s, p)| == |Holding(s, p)|
  {
    if s == [] {
      assert Holding(s, p) == {};
    } else {
      var n := |s| - 1;
      FilterLast(s, p);
      HoldingLast(s, p);
      FilterCount(s[..n], p);
      hide Filter, Holding;
    }
  }

  lemma HoldingLast<T>(s: seq<T>, p: T -> bool)
    requires s != []
    ensures var n := |s| - 1;
            n !in Holding(s[..n], p) && Holding(s, p) == Holding(s[..n], p) + if p(s[n]) then {n} else {}
  {
    var n := |s| - 1;
    assert forall i :: 0 <= i < n ==> s[..n][i] == s[i];
  }

  function Both<T>(p: T -> bool, q: T -> bool): T -> bool {
    (x: T) => p(x) && q(x)
  }

  lemma {:induction false} FilterTwice<T>(s: seq<T>, p: T -> bool, q: T -> bool)
    ensures Filter(Filter(s, p), q) == Filter(s, Both(p, q))
  {
    if s == [] {
    } else {
      FilterTwice(s[1..], p, q);
      var rest := Filter(s[1..], p);
      if p(s[0]) {
        assert ([s[0]] + rest)[1..] == rest;
      } else {
        assert [] + rest == rest;
      }
    }
  }

  /** A set of size one is a singleton. */
  lemma OneElement<T>(s: set<T>)
    ensures |s| == 1 <==> exists x :: s == {x}
  {
    if |s| == 1 {
      var x :| x in s;
      assert |s - {x}| == 0;
      assert s == {x};
    }
  }

  /** Increasing positions at which `s` holds the elements of `t`, all of which pass the test. */
  ghost predicate HeldAt<T>(s: seq<T>, p: T -> bool, t: seq<T>, at: seq<nat>) {
    && |at| == |t| && (forall i, j :: 0 <= i < j < |at| ==> at[i] < at[j])
    && forall i :: 0 <= i < |at| ==> at[i] < |s| && s[at[i]] == t[i] && p(t[i])
  }

  lemma HeldAtNext<T>(s: seq<T>, p: T -> bool, t: seq<T>, at: seq<nat>)
    requires s != [] && HeldAt(s[..|s| - 1], p, t, at)
    ensures HeldAt(s, p, t, at)
    ensures p(s[|s| - 1]) ==> HeldAt(s, p, t + [s[|s| - 1]], at + [|s| - 1])
  {
  }

  /** A filter keeps what passes in the order in which it was given. */
  lemma {:induction false} FilterAt<T>(s: seq<T>, p: T -> bool) returns (at: seq<nat>)
    ensures HeldAt(s, p, Filter(s, p), at)
  {
    if s == [] {
      at := [];
    } else {
      var n := |s| - 1;
      FilterLast(s, p);
      var kept := Filter(s[..n], p);
      hide Filter, HeldAt;
      at := FilterAt(s[..n], p);
      HeldAtNext(s, p, kept, at);
      if p(s[n]) {
        at := at + [n];
      } else {
        assert kept + [] == kept;
      }
    }
  }

  // ----- the order of texts

  lemma {:induction false} StringLeTotal(a: string, b: string)
    ensures StringLe(a, b) || StringLe(b, a)
    ensures StringLe(a, b) && StringLe(b, a) ==> a == b
  {
    if a == "" || b == "" {
    } else {
      StringLeTotal(a[1..], b[1..]);
      assert a == [a[0]] + a[1..] && b == [b[0]] + b[1..];
    }
  }

  lemma {:induction false} StringLeTransitive(a: string, b: string, c: string)
    requires StringLe(a, b) && StringLe(b, c)
    ensures StringLe(a, c)
  {
    if a == "" {
    } else if a[0] == b[0] == c[0] {
      StringLeTransitive(a[1..], b[1..], c[1..]);
    }
  }

  lemma StringLeOrders()
    ensures TotalPreorder(StringLe) && Antisymmetric(StringLe)
  {
    forall a, b
      ensures StringLe(a, b) || StringLe(b, a)
      ensures StringLe(a, b) && StringLe(b, a) ==> a == b
    {
      StringLeTotal(a, b);
    }
    forall a, b, c | StringLe(a, b) && StringLe(b, c)
      ensures StringLe(a, c)
    {
      StringLeTransitive(a, b, c);
    }
  }
}
