/** Generic operations on a table held as a sequence of rows in rowid order:
    the filtered query (`filter_by(...).all()`), the first match of a query
    (`filter_by(...).first()`) and the rowid sqlite gives a new row. */
module Rows {
  import opened Results

  /** The rows of `s` that satisfy `f`, in table order. */
  function Where<T(!new)>(s: seq<T>, f: T -> bool): (r: seq<T>)
    ensures forall x :: x in r <==> x in s && f(x)
    ensures |r| <= |s|
    decreases |s|
  {
    if s == [] then [] else (if f(s[0]) then [s[0]] else []) + Where(s[1..], f)
  }

  /** The index of the first row of `s` that satisfies `f`, or None. */
  function FirstWhere<T>(s: seq<T>, f: T -> bool): (r: Option<nat>)
    ensures r.Some? ==> r.value < |s| && f(s[r.value]) && forall j :: 0 <= j < r.value ==> !f(s[j])
    ensures r.None? ==> forall j :: 0 <= j < |s| ==> !f(s[j])
    decreases |s|
  {
    if s == [] then None
    else if f(s[0]) then Some(0)
    else
      match FirstWhere(s[1..], f)
      case None => None
      case Some(i) => Some(i + 1)
  }

  /** The rowid sqlite assigns to a row inserted into `s`: one more than the
      largest rowid present, or 1 in an empty table. */
  function FreshId<T(!new)>(s: seq<T>, id: T -> int): (r: int)
    ensures r >= 1
    ensures forall x :: x in s ==> id(x) < r
    decreases |s|
  {
    if s == [] then 1
    else
      var rest := FreshId(s[1..], id);
      if id(s[0]) + 1 > rest then id(s[0]) + 1 else rest
  }

  /** Removing the row at index `i`, as a delete does. */
  function RemoveAt<T>(s: seq<T>, i: nat): (r: seq<T>)
    requires i < |s|
    ensures |r| == |s| - 1
    ensures forall j :: 0 <= j < i ==> r[j] == s[j]
    ensures forall j :: i <= j < |r| ==> r[j] == s[j + 1]
  {
    s[..i] + s[i + 1..]
  }

  /** A query over two concatenated stretches of a table is the concatenation of the queries. */
  lemma {:induction false} WhereAppend<T(!new)>(a: seq<T>, b: seq<T>, f: T -> bool)
    ensures Where(a + b, f) == Where(a, f) + Where(b, f)
    decreases |a|
  {
    if a == [] {
      assert a + b == b;
    } else {
      assert (a + b)[1..] == a[1..] + b;
      WhereAppend(a[1..], b, f);
    }
  }

  /** Two disjoint filters whose union is `h` split the rows selected by `h` between them. */
  lemma {:induction false} WherePartition<T(!new)>(s: seq<T>, f: T -> bool, g: T -> bool, h: T -> bool)
    requires forall x :: h(x) == (f(x) || g(x))
    requires forall x :: !(f(x) && g(x))
    ensures multiset(Where(s, f)) + multiset(Where(s, g)) == multiset(Where(s, h))
    decreases |s|
  {
    if s != [] {
      WherePartition(s[1..], f, g, h);
    }
  }
}
