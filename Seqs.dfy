/**
 * The array operations of JavaScript that the application relies on
 * (`filter`, `includes`, `find`/`indexOf`, `slice`, `map`) as functions over
 * sequences, with the facts about them that the rest of the model uses.
 */
module Seqs {
  import opened Wrappers

  // ---------------------------------------------------------------------
  // Subsequences
  // ---------------------------------------------------------------------

  /** `a` is obtained from `b` by deleting elements, without reordering. */
  predicate IsSubsequence<T(==)>(a: seq<T>, b: seq<T>)
    decreases |b|
  {
    if a == [] then true
    else if b == [] then false
    else (a[0] == b[0] && IsSubsequence(a[1..], b[1..])) || IsSubsequence(a, b[1..])
  }

  // ---------------------------------------------------------------------
  // Array.prototype.filter
  // ---------------------------------------------------------------------

  /** The elements of `s` that satisfy `keep`, in their original order. */
  function Filter<T>(keep: T -> bool, s: seq<T>): (r: seq<T>)
    ensures |r| <= |s|
    ensures forall x :: x in r ==> x in s && keep(x)
    decreases |s|
  {
    if s == [] then []
    else if keep(s[0]) then [s[0]] + Filter(keep, s[1..])
    else Filter(keep, s[1..])
  }

  /** An element survives exactly when it was there and passes the test. */
  lemma {:induction false} FilterMembership<T>(keep: T -> bool, s: seq<T>, x: T)
    ensures x in Filter(keep, s) <==> x in s && keep(x)
    decreases |s|
  {
    if s != [] {
      FilterMembership(keep, s[1..], x);
      assert s == [s[0]] + s[1..];
    }
  }

  /** Filtering only deletes: the result is an order-preserving subsequence. */
  lemma {:induction false} FilterIsSubsequence<T>(keep: T -> bool, s: seq<T>)
    ensures IsSubsequence(Filter(keep, s), s)
    decreases |s|
  {
    if s != [] {
      FilterIsSubsequence(keep, s[1..]);
      var r := Filter(keep, s);
      if keep(s[0]) {
        assert r[0] == s[0] && r[1..] == Filter(keep, s[1..]);
      } else if r != [] {
        assert r == Filter(keep, s[1..]);
      }
    }
  }

  /** When every element passes, filtering returns the input unchanged. */
  lemma {:induction false} FilterAllKept<T>(keep: T -> bool, s: seq<T>)
    requires forall i :: 0 <= i < |s| ==> keep(s[i])
    ensures Filter(keep, s) == s
    decreases |s|
  {
    if s != [] {
      FilterAllKept(keep, s[1..]);
      assert s == [s[0]] + s[1..];
    }
  }

  /** When no element passes, filtering returns the empty sequence. */
  lemma {:induction false} FilterNoneKept<T>(keep: T -> bool, s: seq<T>)
    requires forall i :: 0 <= i < |s| ==> !keep(s[i])
    ensures Filter(keep, s) == []
    decreases |s|
  {
    if s != [] {
      FilterNoneKept(keep, s[1..]);
    }
  }

  /** Filtering distributes over concatenation. */
  lemma {:induction false} FilterConcat<T>(keep: T -> bool, a: seq<T>, b: seq<T>)
    ensures Filter(keep, a + b) == Filter(keep, a) + Filter(keep, b)
    decreases |a|
  {
    if a == [] {
      assert a + b == b;
    } else {
      var ab := a + b;
      FilterConcat(keep, a[1..], b);
      assert ab != [] && ab[0] == a[0] && ab[1..] == a[1..] + b;
      if keep(a[0]) {
        assert Filter(keep, ab) == [a[0]] + Filter(keep, ab[1..]);
        assert Filter(keep, a) == [a[0]] + Filter(keep, a[1..]);
      } else {
        assert Filter(keep, ab) == Filter(keep, ab[1..]);
        assert Filter(keep, a) == Filter(keep, a[1..]);
      }
    }
  }

  /** Two filters in a row keep exactly what passes both tests. */
  lemma {:induction false} FilterFusion<T>(outer: T -> bool, inner: T -> bool, s: seq<T>)
    ensures Filter(outer, Filter(inner, s)) == Filter(x => inner(x) && outer(x), s)
    decreases |s|
  {
    if s != [] {
      FilterFusion(outer, inner, s[1..]);
    }
  }

  /** Two filters commute. */
  lemma {:induction false} FilterCommutes<T>(f: T -> bool, g: T -> bool, s: seq<T>)
    ensures Filter(f, Filter(g, s)) == Filter(g, Filter(f, s))
    decreases |s|
  {
    if s != [] {
      FilterCommutes(f, g, s[1..]);
    }
  }

  /** Filtering keeps every occurrence of a kept value and none of a dropped one. */
  lemma {:induction false} FilterMultiplicity<T>(keep: T -> bool, s: seq<T>, x: T)
    ensures multiset(Filter(keep, s))[x] == if keep(x) then multiset(s)[x] else 0
    decreases |s|
  {
    if s != [] {
      FilterMultiplicity(keep, s[1..], x);
      assert s == [s[0]] + s[1..];
    }
  }

  // ---------------------------------------------------------------------
  // Duplicate-free lists, removal and toggling
  // ---------------------------------------------------------------------

  /** No value occurs twice. */
  predicate NoDuplicates<T(==)>(s: seq<T>) {
    forall i, j :: 0 <= i < j < |s| ==> s[i] != s[j]
  }

  /** The test `y => y !== x`. */
  function Other<T(==)>(x: T): T -> bool {
    y => y != x
  }

  /** `s.filter(y => y !== x)`: every occurrence of `x` removed. */
  function RemoveAll<T(==)>(s: seq<T>, x: T): (r: seq<T>)
    ensures x !in r
  {
    Filter(Other(x), s)
  }

  /** Removal keeps every other value and takes every occurrence of `x`. */
  lemma RemoveAllMembership<T>(s: seq<T>, x: T, y: T)
    ensures y in RemoveAll(s, x) <==> y in s && y != x
  {
    FilterMembership(Other(x), s, y);
  }

  /** Removing an absent value changes nothing. */
  lemma RemoveAbsent<T>(s: seq<T>, x: T)
    requires x !in s
    ensures RemoveAll(s, x) == s
  {
    FilterAllKept(Other(x), s);
  }

  /** Removing a value just appended also removes its earlier occurrences. */
  lemma RemoveAfterAppend<T>(s: seq<T>, x: T)
    ensures RemoveAll(s + [x], x) == RemoveAll(s, x)
  {
    FilterConcat(Other(x), s, [x]);
  }

  /** A filter of a duplicate-free list is duplicate-free. */
  lemma {:induction false} FilterNoDuplicates<T>(keep: T -> bool, s: seq<T>)
    requires NoDuplicates(s)
    ensures NoDuplicates(Filter(keep, s))
    decreases |s|
  {
    if s != [] {
      FilterNoDuplicates(keep, s[1..]);
      if keep(s[0]) {
        var t := Filter(keep, s[1..]);
        assert s[0] !in s[1..] by {
          forall j | 0 <= j < |s[1..]| ensures s[1..][j] != s[0] {
            assert s[1..][j] == s[j + 1];
          }
        }
        assert s[0] !in t;
        var r := [s[0]] + t;
        forall i, j | 0 <= i < j < |r| ensures r[i] != r[j] {
          if i > 0 {
            assert r[i] == t[i - 1] && r[j] == t[j - 1];
          } else {
            assert r[j] in t;
          }
        }
      }
    }
  }

  /** Removing a value that occurs once shortens a duplicate-free list by one. */
  lemma {:induction false} RemoveAllLength<T>(s: seq<T>, x: T)
    requires NoDuplicates(s) && x in s
    ensures |RemoveAll(s, x)| == |s| - 1
    decreases |s|
  {
    assert s == [s[0]] + s[1..];
    assert NoDuplicates(s[1..]) by {
      forall i, j | 0 <= i < j < |s[1..]| ensures s[1..][i] != s[1..][j] {
        assert s[1..][i] == s[i + 1] && s[1..][j] == s[j + 1];
      }
    }
    if s[0] == x {
      assert x !in s[1..] by {
        forall j | 0 <= j < |s[1..]| ensures s[1..][j] != x {
          assert s[1..][j] == s[j + 1];
        }
      }
      RemoveAbsent(s[1..], x);
    } else {
      RemoveAllLength(s[1..], x);
    }
  }

  /**
   * The shared shape of every toggle in the application: an element that is
   * present is filtered out (every occurrence), an absent one is appended.
   */
  function Toggled<T(==)>(s: seq<T>, x: T): (r: seq<T>)
    ensures x in r <==> x !in s
  {
    if x in s then RemoveAll(s, x) else s + [x]
  }

  /** Toggling flips the toggled value and no other value's membership. */
  lemma ToggledMembership<T>(s: seq<T>, x: T, y: T)
    requires y != x
    ensures y in Toggled(s, x) <==> y in s
  {
    if x in s {
      RemoveAllMembership(s, x, y);
    }
  }

  /** Toggling keeps a duplicate-free list duplicate-free. */
  lemma ToggledNoDuplicates<T>(s: seq<T>, x: T)
    requires NoDuplicates(s)
    ensures NoDuplicates(Toggled(s, x))
  {
    if x in s {
      FilterNoDuplicates(Other(x), s);
    }
  }

  /** Toggling an absent value twice restores the list exactly. */
  lemma ToggleTwiceAbsent<T>(s: seq<T>, x: T)
    requires x !in s
    ensures Toggled(Toggled(s, x), x) == s
  {
    RemoveAfterAppend(s, x);
    RemoveAbsent(s, x);
  }

  /** Toggling a present value twice restores membership, but moves it last. */
  lemma ToggleTwicePresent<T>(s: seq<T>, x: T)
    requires x in s
    ensures Toggled(Toggled(s, x), x) == RemoveAll(s, x) + [x]
    ensures forall y :: y in Toggled(Toggled(s, x), x) <==> y in s
  {
    var r := RemoveAll(s, x) + [x];
    forall y ensures y in r <==> y in s {
      RemoveAllMembership(s, x, y);
    }
  }

  // ---------------------------------------------------------------------
  // Array.prototype.find / indexOf
  // ---------------------------------------------------------------------

  /** The index of the first element satisfying `p`, if there is one. */
  function FirstIndex<T>(s: seq<T>, p: T -> bool): (r: Option<nat>)
    ensures r.Some? ==> r.value < |s| && p(s[r.value])
    ensures r.Some? ==> forall j :: 0 <= j < r.value ==> !p(s[j])
    ensures r.None? <==> forall j :: 0 <= j < |s| ==> !p(s[j])
    decreases |s|
  {
    if s == [] then None
    else if p(s[0]) then Some(0)
    else match FirstIndex(s[1..], p)
      case None => None
      case Some(k) => Some(k + 1)
  }

  /** `Array.prototype.find`: the first element satisfying `p`. */
  function Find<T>(s: seq<T>, p: T -> bool): (r: Option<T>)
    ensures r.Some? ==> r.value in s && p(r.value)
    ensures r.None? <==> forall j :: 0 <= j < |s| ==> !p(s[j])
  {
    match FirstIndex(s, p)
    case None => None
    case Some(k) => Some(s[k])
  }

  // ---------------------------------------------------------------------
  // Array.prototype.slice and map
  // ---------------------------------------------------------------------

  /** How `slice` turns an argument into a position: negative counts from the end. */
  function SliceIndex(k: int, len: nat): (r: nat)
    ensures r <= len
    ensures 0 <= k ==> r == if k <= len then k else len
  {
    if k < 0 then (if len + k < 0 then 0 else len + k)
    else if k <= len then k else len
  }

  /** `s.slice(start, end)`, with JavaScript's clamping and negative indices. */
  function Slice<T>(s: seq<T>, start: int, end: int): (r: seq<T>)
    ensures |r| <= |s|
    ensures 0 <= start <= end ==>
      r == s[SliceIndex(start, |s|)..SliceIndex(end, |s|)]
  {
    var a, b := SliceIndex(start, |s|), SliceIndex(end, |s|);
    if a < b then s[a..b] else []
  }

  /** A slice holds only elements of the sliced sequence, whatever the arguments. */
  lemma SliceMembers<T>(s: seq<T>, start: int, end: int, x: T)
    requires x in Slice(s, start, end)
    ensures x in s
  {
    var a, b := SliceIndex(start, |s|), SliceIndex(end, |s|);
    var i :| 0 <= i < b - a && s[a..b][i] == x;
    assert s[a + i] == x;
  }

  /** `s.map(f)`. */
  function Map<A, B>(f: A -> B, s: seq<A>): (r: seq<B>)
    ensures |r| == |s|
    ensures forall i :: 0 <= i < |s| ==> r[i] == f(s[i])
  {
    seq(|s|, i requires 0 <= i < |s| => f(s[i]))
  }

  /** Filtering mapped values is mapping the values whose images pass. */
  lemma {:induction false} FilterMap<A, B>(f: A -> B, p: A -> bool, q: B -> bool, s: seq<A>)
    requires forall x :: q(f(x)) == p(x)
    ensures Filter(q, Map(f, s)) == Map(f, Filter(p, s))
    decreases |s|
  {
    if s != [] {
      FilterMap(f, p, q, s[1..]);
      var m := Map(f, s);
      assert m != [] && m[0] == f(s[0]) && m[1..] == Map(f, s[1..]);
      if p(s[0]) {
        assert Filter(q, m) == [m[0]] + Filter(q, m[1..]);
        MapConcat(f, [s[0]], Filter(p, s[1..]));
      } else {
        assert Filter(q, m) == Filter(q, m[1..]);
      }
    }
  }

  /** `Promise.all` over settled results: every value, in order, or `None` if any failed. */
  function Collect<T>(s: seq<Option<T>>): (r: Option<seq<T>>)
    ensures r.Some? ==> |r.value| == |s|
    decreases |s|
  {
    if s == [] then Some([])
    else
      var tail := Collect(s[1..]);
      if s[0].Some? && tail.Some? then Some([s[0].value] + tail.value) else None
  }

  /** Collecting succeeds exactly when every element is present, and keeps each in place. */
  lemma {:induction false} CollectElements<T>(s: seq<Option<T>>)
    ensures Collect(s).Some? <==> forall i :: 0 <= i < |s| ==> s[i].Some?
    ensures Collect(s).Some? ==> forall i :: 0 <= i < |s| ==> s[i] == Some(Collect(s).value[i])
    decreases |s|
  {
    if s != [] {
      CollectElements(s[1..]);
      assert forall i :: 1 <= i < |s| ==> s[i] == s[1..][i - 1];
    }
  }

  /** Both results, concatenated, when both are present. */
  function Both<T>(a: Option<seq<T>>, b: Option<seq<T>>): Option<seq<T>> {
    if a.Some? && b.Some? then Some(a.value + b.value) else None
  }

  /** Collecting distributes over concatenation. */
  lemma {:induction false} CollectConcat<T>(a: seq<Option<T>>, b: seq<Option<T>>)
    ensures Collect(a + b) == Both(Collect(a), Collect(b))
    decreases |a|
  {
    if a == [] {
      assert a + b == b;
      if Collect(b).Some? {
        assert [] + Collect(b).value == Collect(b).value;
      }
    } else {
      CollectConcat(a[1..], b);
      assert (a + b)[0] == a[0] && (a + b)[1..] == a[1..] + b;
      var ta, tb := Collect(a[1..]), Collect(b);
      if a[0].Some? && ta.Some? && tb.Some? {
        assert [a[0].value] + (ta.value + tb.value) == ([a[0].value] + ta.value) + tb.value;
      }
    }
  }

  /** Mapping distributes over concatenation. */
  lemma MapConcat<A, B>(f: A -> B, a: seq<A>, b: seq<A>)
    ensures Map(f, a + b) == Map(f, a) + Map(f, b)
  {
  }

  /** The concatenation of a sequence of sequences. */
  function Flatten<T>(ss: seq<seq<T>>): seq<T>
    decreases |ss|
  {
    if ss == [] then [] else ss[0] + Flatten(ss[1..])
  }

  /** Flattening distributes over concatenation. */
  lemma {:induction false} FlattenConcat<T>(a: seq<seq<T>>, b: seq<seq<T>>)
    ensures Flatten(a + b) == Flatten(a) + Flatten(b)
    decreases |a|
  {
    if a == [] {
      assert a + b == b;
    } else {
      FlattenConcat(a[1..], b);
      assert (a + b)[1..] == a[1..] + b;
    }
  }
}
