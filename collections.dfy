/**
  The two list operations the application applies to several kinds of records:
  `filter` with a test, and the first element passing a test (`find`, and
  `findUnique` over a unique column).
*/
module Collections {
  import opened Wrappers

  /** `s.filter(keep)`: the elements that pass, in their original order. */
  function Filter<T(==,!new)>(s: seq<T>, keep: T -> bool): (r: seq<T>)
    ensures forall x :: x in r <==> x in s && keep(x)
    ensures |r| <= |s|
    ensures forall x :: multiset(r)[x] == if keep(x) then multiset(s)[x] else 0
  {
    if s == [] then []
    else
      assert s == [s[0]] + s[1..];
      if keep(s[0]) then [s[0]] + Filter(s[1..], keep)
      else Filter(s[1..], keep)
  }

  /** Filtering distributes over concatenation, so the survivors keep their relative order. */
  lemma {:induction false} FilterAppend<T(!new)>(a: seq<T>, b: seq<T>, keep: T -> bool)
    ensures Filter(a + b, keep) == Filter(a, keep) + Filter(b, keep)
  {
    if a == [] {
      assert a + b == b;
    } else {
      assert (a + b)[0] == a[0] && (a + b)[1..] == a[1..] + b;
      FilterAppend(a[1..], b, keep);
    }
  }

  /** A list every element of which passes is left unchanged. */
  lemma {:induction false} FilterKeepsAll<T(!new)>(s: seq<T>, keep: T -> bool)
    requires forall i :: 0 <= i < |s| ==> keep(s[i])
    ensures Filter(s, keep) == s
  {
    if s != [] {
      FilterKeepsAll(s[1..], keep);
      assert s == [s[0]] + s[1..];
    }
  }

  /** A prefix holds no element more often than the whole list does. */
  lemma PrefixMultiset<T>(p: seq<T>, s: seq<T>)
    requires p <= s
    ensures multiset(p) <= multiset(s)
  {
    assert s == p + s[|p|..];
  }

  /** The first element that passes the test, if any does. */
  function Find<T(==,!new)>(s: seq<T>, matches: T -> bool): (r: Option<T>)
    ensures r.Some? ==> r.value in s && matches(r.value)
    ensures r.None? <==> forall x :: x in s ==> !matches(x)
    ensures r.Some? ==> exists i :: 0 <= i < |s| && s[i] == r.value && forall j :: 0 <= j < i ==> !matches(s[j])
  {
    if s == [] then None
    else if matches(s[0]) then Some(s[0])
    else
      var r := Find(s[1..], matches);
      assert r.Some? ==> exists i :: 1 <= i < |s| && s[i] == r.value && forall j :: 0 <= j < i ==> !matches(s[j]) by {
        if r.Some? {
          var i :| 0 <= i < |s[1..]| && s[1..][i] == r.value && forall j :: 0 <= j < i ==> !matches(s[1..][j]);
          assert s[i + 1] == r.value;
          assert forall j :: 1 <= j < i + 1 ==> s[j] == s[1..][j - 1];
        }
      }
      r
  }
}
