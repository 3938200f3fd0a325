/**
  The two array methods the renderer's reducers rely on:
  `Array.prototype.filter` and the index form of `Array.prototype.find`.
 */
module Seqs {
  import opened Optional

  /** `s.filter(keep)`: the elements `keep` accepts, in their order. */
  function Filter<T(!new)>(s: seq<T>, keep: T -> bool): (r: seq<T>)
    ensures |r| <= |s|
    decreases |s|
  {
    if s == [] then []
    else (if keep(s[0]) then [s[0]] else []) + Filter(s[1..], keep)
  }

  /** The elements kept are exactly those `keep` accepts. */
  lemma {:induction false} FilterMembers<T(!new)>(s: seq<T>, keep: T -> bool)
    ensures forall x :: x in Filter(s, keep) <==> x in s && keep(x)
    decreases |s|
  {
    if s != [] {
      FilterMembers(s[1..], keep);
      assert s == [s[0]] + s[1..];
    }
  }

  /** `FilterMembers` for every sequence at once. */
  lemma FilterMembersEverywhere<T(!new)>(keep: T -> bool)
    ensures forall s: seq<T>, x {:trigger x in Filter(s, keep)} :: x in Filter(s, keep) <==> x in s && keep(x)
  {
    forall s: seq<T> ensures forall x :: x in Filter(s, keep) <==> x in s && keep(x) {
      FilterMembers(s, keep);
    }
  }

  /** Filtering distributes over concatenation, which is what keeping the
      order of the surviving elements means. */
  lemma {:induction false} FilterAppend<T(!new)>(a: seq<T>, b: seq<T>, keep: T -> bool)
    ensures Filter(a + b, keep) == Filter(a, keep) + Filter(b, keep)
    decreases |a|
  {
    if a == [] {
      assert a + b == b;
    } else {
      var ab := a + b;
      var head := if keep(a[0]) then [a[0]] else [];
      assert ab[0] == a[0];
      assert ab[1..] == a[1..] + b;
      FilterAppend(a[1..], b, keep);
      calc {
        Filter(ab, keep);
        head + Filter(a[1..] + b, keep);
        head + (Filter(a[1..], keep) + Filter(b, keep));
        (head + Filter(a[1..], keep)) + Filter(b, keep);
      }
    }
  }

  /** A filter that rejects nothing changes nothing. */
  lemma {:induction false} FilterKeepsAll<T(!new)>(s: seq<T>, keep: T -> bool)
    requires forall i :: 0 <= i < |s| ==> keep(s[i])
    ensures Filter(s, keep) == s
    decreases |s|
  {
    if s != [] {
      FilterKeepsAll(s[1..], keep);
      assert s == [s[0]] + s[1..];
    }
  }

  /** A filter that rejects everything leaves nothing. */
  lemma {:induction false} FilterDropsAll<T(!new)>(s: seq<T>, keep: T -> bool)
    requires forall i :: 0 <= i < |s| ==> !keep(s[i])
    ensures Filter(s, keep) == []
    decreases |s|
  {
    if s != [] {
      FilterDropsAll(s[1..], keep);
    }
  }

  /** Filtering twice with the same test is filtering once. */
  lemma FilterIdempotent<T(!new)>(s: seq<T>, keep: T -> bool)
    ensures Filter(Filter(s, keep), keep) == Filter(s, keep)
  {
    var r := Filter(s, keep);
    FilterMembers(s, keep);
    forall i | 0 <= i < |r| ensures keep(r[i]) {
      assert r[i] in r;
    }
    FilterKeepsAll(r, keep);
  }

  /** `s.findIndex(f)` as an option: the first index whose element `f`
      accepts. */
  function FirstIndex<T>(s: seq<T>, f: T -> bool): (r: Option<nat>)
    ensures r.Some? ==> r.value < |s| && f(s[r.value])
    ensures r.Some? ==> forall j :: 0 <= j < r.value ==> !f(s[j])
    ensures r.None? <==> forall j :: 0 <= j < |s| ==> !f(s[j])
    decreases |s|
  {
    if s == [] then None
    else if f(s[0]) then Some(0)
    else
      match FirstIndex(s[1..], f)
      case None => None
      case Some(i) => Some(i + 1)
  }

  /** The first element a filter keeps is the one `findIndex` finds with
      the same test. */
  lemma {:induction false} FilterHeadIsFirst<T(!new)>(s: seq<T>, keep: T -> bool)
    ensures Filter(s, keep) != [] <==> FirstIndex(s, keep).Some?
    ensures Filter(s, keep) != [] ==> Filter(s, keep)[0] == s[FirstIndex(s, keep).value]
    decreases |s|
  {
    if s != [] && !keep(s[0]) {
      FilterHeadIsFirst(s[1..], keep);
    }
  }

  /** Searching a concatenation searches the first part, then the second. */
  lemma FirstIndexAppend<T>(a: seq<T>, b: seq<T>, f: T -> bool)
    ensures FirstIndex(a + b, f) ==
      match FirstIndex(a, f)
      case Some(i) => Some(i)
      case None =>
        match FirstIndex(b, f)
        case Some(j) => Some(|a| + j)
        case None => None
  {
    var ab := a + b;
    var r := FirstIndex(ab, f);
    if FirstIndex(a, f).None? && FirstIndex(b, f).Some? {
      var j := FirstIndex(b, f).value;
      assert ab[|a| + j] == b[j];
      forall k | 0 <= k < |a| + j ensures !f(ab[k]) {
        if k < |a| {
          assert ab[k] == a[k];
        } else {
          assert ab[k] == b[k - |a|];
        }
      }
    } else if FirstIndex(a, f).Some? {
      var i := FirstIndex(a, f).value;
      assert ab[i] == a[i];
      forall k | 0 <= k < i ensures !f(ab[k]) {
        assert ab[k] == a[k];
      }
    } else {
      forall k | 0 <= k < |ab| ensures !f(ab[k]) {
        if k < |a| {
          assert ab[k] == a[k];
        } else {
          assert ab[k] == b[k - |a|];
        }
      }
    }
  }
}
