/**
 * The record-store queries the views use, over tables held as sequences in primary-key
 * order: `.first()` of a filtered query is the first match in that order (an unordered query
 * is ordered by primary key for `.first()`); `.all()` of a related set is given that order too,
 * where the record store itself promises none; `.count()` is the number of matches.
 */
module Query {
  import opened Records

  /** The position of the first element satisfying `p`, if any. */
  function FirstIndex<T>(s: seq<T>, p: T -> bool): (r: Option<nat>)
    ensures r.None? <==> forall i :: 0 <= i < |s| ==> !p(s[i])
    ensures r.Some? ==> r.value < |s| && p(s[r.value]) && forall j :: 0 <= j < r.value ==> !p(s[j])
  {
    if s == [] then None
    else if p(s[0]) then Some(0)
    else
      var r := FirstIndex(s[1..], p);
      if r.None? then None else Some(r.value + 1)
  }

  /** `.filter(...).first()`: the first element satisfying `p`, if any. */
  function First<T>(s: seq<T>, p: T -> bool): (r: Option<T>)
    ensures r.None? <==> forall i :: 0 <= i < |s| ==> !p(s[i])
    ensures r.Some? ==> exists k :: 0 <= k < |s| && s[k] == r.value && p(s[k]) &&
                                    forall j :: 0 <= j < k ==> !p(s[j])
  {
    var k := FirstIndex(s, p);
    if k.None? then None else Some(s[k.value])
  }

  /** `.filter(...).all()`: the elements satisfying `p`, in table order. */
  function Filter<T>(s: seq<T>, p: T -> bool): (r: seq<T>)
    ensures |r| <= |s|
    ensures forall i :: 0 <= i < |r| ==> p(r[i])
    ensures forall i :: 0 <= i < |r| ==> r[i] in s
    ensures forall i :: 0 <= i < |s| && p(s[i]) ==> s[i] in r
  {
    if s == [] then []
    else if p(s[0]) then [s[0]] + Filter(s[1..], p)
    else Filter(s[1..], p)
  }

  /** Keeping the first element of a filtered sequence is taking the first match. */
  lemma {:induction false} FilterHeadIsFirst<T>(s: seq<T>, p: T -> bool)
    ensures |Filter(s, p)| > 0 <==> FirstIndex(s, p).Some?
    ensures |Filter(s, p)| > 0 ==> Filter(s, p)[0] == s[FirstIndex(s, p).value]
  {
    if s != [] && !p(s[0]) {
      FilterHeadIsFirst(s[1..], p);
      var k := FirstIndex(s[1..], p);
      if k.Some? {
        assert s[1..][k.value] == s[k.value + 1];
      }
    }
  }

  /** Filtering a sequence whose keys ascend leaves a sequence whose keys ascend. */
  lemma {:induction false} FilterKeepsAscendingKeys<T>(s: seq<T>, p: T -> bool, key: T -> int)
    requires forall i, j :: 0 <= i < j < |s| ==> key(s[i]) < key(s[j])
    ensures forall i, j :: 0 <= i < j < |Filter(s, p)| ==> key(Filter(s, p)[i]) < key(Filter(s, p)[j])
  {
    if s != [] {
      var t := s[1..];
      FilterKeepsAscendingKeys(t, p, key);
      if p(s[0]) {
        var r := Filter(t, p);
        assert Filter(s, p) == [s[0]] + r;
        forall j | 0 <= j < |r| ensures key(s[0]) < key(r[j]) {
          assert r[j] in t;
          var m :| 0 <= m < |t| && t[m] == r[j];
          assert s[m + 1] == r[j];
        }
      }
    }
  }

  /** Overwriting one element keeps every element that differs from the one overwritten. */
  lemma UpdateKeepsOthers<T>(s: seq<T>, k: nat, x: T)
    requires k < |s|
    ensures x in s[k := x]
    ensures forall y :: y in s && y != s[k] ==> y in s[k := x]
  {
    assert s[k := x][k] == x;
    forall y | y in s && y != s[k] ensures y in s[k := x] {
      var i :| 0 <= i < |s| && s[i] == y;
      assert s[k := x][i] == y;
    }
  }

  /** Replacing the first match by another match keeps it the first match. */
  lemma FirstIndexUpdate<T>(s: seq<T>, p: T -> bool, k: nat, x: T)
    requires FirstIndex(s, p) == Some(k) && p(x)
    ensures FirstIndex(s[k := x], p) == Some(k) && First(s[k := x], p) == Some(x)
  {
    var r := FirstIndex(s[k := x], p);
    assert p(s[k := x][k]);
  }

  /** With no match yet, an appended match is the first. */
  lemma FirstIndexSnoc<T>(s: seq<T>, p: T -> bool, x: T)
    requires FirstIndex(s, p).None? && p(x)
    ensures FirstIndex(s + [x], p) == Some(|s|) && First(s + [x], p) == Some(x)
  {
    var r := FirstIndex(s + [x], p);
    assert p((s + [x])[|s|]);
  }

  /** Filtering distributes over concatenation. */
  lemma {:induction false} FilterAppend<T>(a: seq<T>, b: seq<T>, p: T -> bool)
    ensures Filter(a + b, p) == Filter(a, p) + Filter(b, p)
  {
    if a == [] {
      assert a + b == b;
    } else {
      var t := a[1..];
      assert (a + b)[0] == a[0] && (a + b)[1..] == t + b;
      FilterAppend(t, b, p);
      if p(a[0]) {
        calc {
          Filter(a + b, p);
          [a[0]] + Filter(t + b, p);
          [a[0]] + (Filter(t, p) + Filter(b, p));
          ([a[0]] + Filter(t, p)) + Filter(b, p);
        }
      }
    }
  }

  /** Keeping the elements that satisfy `p` keeps all of a sequence whose elements all do. */
  lemma {:induction false} FilterAll<T>(s: seq<T>, p: T -> bool)
    requires forall i :: 0 <= i < |s| ==> p(s[i])
    ensures Filter(s, p) == s
  {
    if s != [] {
      FilterAll(s[1..], p);
    }
  }

  /** Filtering by a condition that implies an earlier one: the earlier filter changes nothing. */
  lemma {:induction false} FilterFilter<T>(s: seq<T>, q: T -> bool, p: T -> bool)
    requires forall x :: p(x) ==> q(x)
    ensures Filter(Filter(s, q), p) == Filter(s, p)
  {
    if s != [] {
      FilterFilter(s[1..], q, p);
    }
  }

  /** Nothing is kept when no element satisfies `p`. */
  lemma FilterNone<T>(s: seq<T>, p: T -> bool)
    requires forall i :: 0 <= i < |s| ==> !p(s[i])
    ensures Filter(s, p) == []
  {
  }
}
