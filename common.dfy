/**
 * Small pieces shared by the alert pipeline and the alert store: an optional
 * value, and the keep-first duplicate removal that pandas' `drop_duplicates()`
 * performs on a table (applied in src/get_alerts.py to the province map, to the
 * record table and to the per-alert projection).
 */
module Common {

  /** A value that may be missing (pandas' NaN / Python's None). */
  datatype Option<+T> = None | Some(value: T)

  /** No element occurs twice. */
  predicate NoDuplicates<T(==)>(s: seq<T>)
  {
    forall i, j :: 0 <= i < j < |s| ==> s[i] != s[j]
  }

  /** Position of the first occurrence of `x` in `s`. */
  function FirstIndex<T(==)>(s: seq<T>, x: T): (k: nat)
    requires x in s
    ensures k < |s| && s[k] == x && x !in s[..k]
  {
    if s[0] == x then 0
    else
      var k := 1 + FirstIndex(s[1..], x);
      assert s[..k] == [s[0]] + s[1..][..k - 1];
      k
  }

  /**
   * `drop_duplicates()` with pandas' default keep='first': every row is kept
   * exactly once, at the place of its first occurrence.
   */
  function DropDuplicates<T(==)>(s: seq<T>): (r: seq<T>)
    ensures NoDuplicates(r)
    ensures forall i :: 0 <= i < |r| ==> r[i] in s
    ensures forall i :: 0 <= i < |s| ==> s[i] in r
    ensures |r| <= |s|
  {
    if |s| == 0 then []
    else
      var prev := DropDuplicates(s[..|s| - 1]);
      var x := s[|s| - 1];
      assert s == s[..|s| - 1] + [x];
      if x in prev then prev else prev + [x]
  }

  /** A table without duplicate rows is left as it is. */
  lemma {:induction false} DropDuplicatesOfDistinct<T>(s: seq<T>)
    requires NoDuplicates(s)
    ensures DropDuplicates(s) == s
  {
    if |s| > 0 {
      var init := s[..|s| - 1];
      assert NoDuplicates(init);
      DropDuplicatesOfDistinct(init);
      assert s[|s| - 1] !in init;
      assert init + [s[|s| - 1]] == s;
    }
  }

  /** Removing duplicates a second time removes nothing. */
  lemma DropDuplicatesIdempotent<T>(s: seq<T>)
    ensures DropDuplicates(DropDuplicates(s)) == DropDuplicates(s)
  {
    DropDuplicatesOfDistinct(DropDuplicates(s));
  }

  /**
   * The kept rows appear in the order of their first occurrences in the input:
   * drop_duplicates keeps insertion order.
   */
  lemma {:induction false} DropDuplicatesKeepsOrder<T>(s: seq<T>, i: nat, j: nat)
    requires i < j < |DropDuplicates(s)|
    ensures FirstIndex(s, DropDuplicates(s)[i]) < FirstIndex(s, DropDuplicates(s)[j])
  {
    var r := DropDuplicates(s);
    var init := s[..|s| - 1];
    var prev := DropDuplicates(init);
    var x := s[|s| - 1];
    assert s == init + [x];
    FirstIndexOfPrefix(init, x, r[i]);
    if j < |prev| {
      assert r[i] == prev[i] && r[j] == prev[j];
      DropDuplicatesKeepsOrder(init, i, j);
      FirstIndexOfPrefix(init, x, r[j]);
    } else {
      assert x !in prev && r == prev + [x] && r[j] == x;
      assert r[i] in init;
      assert x !in init;
      assert FirstIndex(s, x) == |init|;
    }
  }

  /** Appending an element does not move the first occurrence of an older one. */
  lemma {:induction false} FirstIndexOfPrefix<T>(s: seq<T>, x: T, y: T)
    requires y in s
    ensures FirstIndex(s + [x], y) == FirstIndex(s, y)
  {
    if s[0] != y {
      assert (s + [x])[1..] == s[1..] + [x];
      FirstIndexOfPrefix(s[1..], x, y);
    }
  }

  /** The elements that satisfy `p`, in their original order (a boolean-mask selection). */
  function Filter<T(==)>(s: seq<T>, p: T -> bool): (r: seq<T>)
    ensures |r| <= |s|
    ensures forall i :: 0 <= i < |r| ==> p(r[i]) && r[i] in s
    ensures forall i :: 0 <= i < |s| && p(s[i]) ==> s[i] in r
  {
    if |s| == 0 then []
    else
      assert s == [s[0]] + s[1..];
      (if p(s[0]) then [s[0]] else []) + Filter(s[1..], p)
  }

  /** Selecting from a concatenation selects from each part: the order is kept. */
  lemma {:induction false} FilterAppend<T>(a: seq<T>, b: seq<T>, p: T -> bool)
    ensures Filter(a + b, p) == Filter(a, p) + Filter(b, p)
  {
    if |a| == 0 {
      assert a + b == b;
    } else {
      assert (a + b)[1..] == a[1..] + b;
      FilterAppend(a[1..], b, p);
    }
  }

  /** When every element qualifies, nothing is dropped. */
  lemma {:induction false} FilterAll<T>(s: seq<T>, p: T -> bool)
    requires forall i :: 0 <= i < |s| ==> p(s[i])
    ensures Filter(s, p) == s
  {
    if |s| > 0 {
      FilterAll(s[1..], p);
      assert s == [s[0]] + s[1..];
    }
  }

  /** When no element qualifies, nothing is kept. */
  lemma {:induction false} FilterNone<T>(s: seq<T>, p: T -> bool)
    requires forall i :: 0 <= i < |s| ==> !p(s[i])
    ensures Filter(s, p) == []
  {
    if |s| > 0 {
      FilterNone(s[1..], p);
    }
  }

  /** The lists f(x) of the elements x of xs, one after the other (a loop extending one list per element). */
  function ConcatMap<A, B>(xs: seq<A>, f: A -> seq<B>): seq<B>
  {
    if |xs| == 0 then [] else ConcatMap(xs[..|xs| - 1], f) + f(xs[|xs| - 1])
  }

  /** A single element contributes its own list. */
  lemma ConcatMapSingle<A, B>(x: A, f: A -> seq<B>)
    ensures ConcatMap([x], f) == f(x)
  {
    assert [x][..0] == [];
  }

  /** One more element appends its own list. */
  lemma ConcatMapStep<A, B>(xs: seq<A>, i: nat, f: A -> seq<B>)
    requires i < |xs|
    ensures ConcatMap(xs[..i + 1], f) == ConcatMap(xs[..i], f) + f(xs[i])
  {
    assert xs[..i + 1][..i] == xs[..i];
  }

  /** The lists of a concatenation are those of each part, in order. */
  lemma {:induction false} ConcatMapAppend<A, B>(a: seq<A>, b: seq<A>, f: A -> seq<B>)
    ensures ConcatMap(a + b, f) == ConcatMap(a, f) + ConcatMap(b, f)
  {
    if |b| == 0 {
      assert a + b == a;
    } else {
      var b' := b[..|b| - 1];
      assert (a + b)[..|a + b| - 1] == a + b';
      ConcatMapAppend(a, b', f);
    }
  }

  /** Every element of the result comes from the list of one element. */
  lemma {:induction false} ConcatMapFrom<A, B>(xs: seq<A>, f: A -> seq<B>, y: B) returns (i: nat)
    requires y in ConcatMap(xs, f)
    ensures i < |xs| && y in f(xs[i])
  {
    var n := |xs|;
    if y in f(xs[n - 1]) {
      i := n - 1;
    } else {
      var init := xs[..n - 1];
      i := ConcatMapFrom(init, f, y);
      assert init[i] == xs[i];
    }
  }

  /** Every element of every list is in the result. */
  lemma ConcatMapHas<A, B>(xs: seq<A>, f: A -> seq<B>, i: nat, y: B)
    requires i < |xs| && y in f(xs[i])
    ensures y in ConcatMap(xs, f)
  {
    var front, back := xs[..i + 1], xs[i + 1..];
    assert xs == front + back;
    ConcatMapAppend(front, back, f);
    ConcatMapStep(xs, i, f);
  }
}
