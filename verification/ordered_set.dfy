/** Duplicate removal with the semantics of a JavaScript `Set` filled by
    repeated `add` and spread back into an array: each value is kept once, at
    the place where it was first added. */
module OrderedSet {

  predicate NoDuplicates<T(==)>(s: seq<T>) {
    forall i, j :: 0 <= i < j < |s| ==> s[i] != s[j]
  }

  /** The index of the first occurrence of `x` in `xs`, or `|xs|` when absent. */
  function FirstIndex<T(==)>(xs: seq<T>, x: T): (k: nat)
    ensures k <= |xs|
    ensures k < |xs| <==> x in xs
    ensures k < |xs| ==> xs[k] == x
    ensures x !in xs[..k]
    decreases |xs|
  {
    if xs == [] then 0
    else if xs[0] == x then 0
    else
      assert xs[1..][..FirstIndex(xs[1..], x)] == xs[..FirstIndex(xs[1..], x) + 1][1..];
      1 + FirstIndex(xs[1..], x)
  }

  /** `set.add(x)` on an insertion-ordered set held as a sequence. */
  function SetAdd<T(==,!new)>(s: seq<T>, x: T): (r: seq<T>)
    requires NoDuplicates(s)
    ensures NoDuplicates(r)
    ensures forall y :: y in r <==> y in s || y == x
    ensures s <= r
  {
    if x in s then s else s + [x]
  }

  /** `[...new Set(xs)]`: the values of `xs` in order of first occurrence. */
  function Distinct<T(==,!new)>(xs: seq<T>): (r: seq<T>)
    ensures NoDuplicates(r)
    ensures forall y :: y in r <==> y in xs
    ensures |r| <= |xs|
    decreases |xs|
  {
    if xs == [] then [] else SetAdd(Distinct(xs[..|xs| - 1]), xs[|xs| - 1])
  }

  /** `s` lists its elements in the order in which they first occur in `xs`. */
  predicate InFirstOccurrenceOrder<T(==)>(xs: seq<T>, s: seq<T>) {
    forall i, j :: 0 <= i < j < |s| ==> FirstIndex(xs, s[i]) < FirstIndex(xs, s[j])
  }

  /** A value's first occurrence does not move when the sequence is extended
      after it. */
  lemma {:induction false} FirstIndexOfPrefix<T>(xs: seq<T>, n: nat, x: T)
    requires n <= |xs|
    requires x in xs[..n]
    ensures FirstIndex(xs, x) == FirstIndex(xs[..n], x)
  {
    var k := FirstIndex(xs[..n], x);
    var m := FirstIndex(xs, x);
    assert xs[..n][k] == x && xs[k] == x;
    assert xs[..n][..k] == xs[..k];
  }

  /** `Distinct` keeps first-occurrence order, as JavaScript's `Set` iteration
      order (insertion order) does. */
  lemma {:induction false} DistinctInFirstOccurrenceOrder<T(!new)>(xs: seq<T>)
    ensures InFirstOccurrenceOrder(xs, Distinct(xs))
    decreases |xs|
  {
    if xs != [] {
      var init := xs[..|xs| - 1];
      var last := xs[|xs| - 1];
      var d := Distinct(init);
      DistinctInFirstOccurrenceOrder(init);
      assert xs[..|xs| - 1] == init;
      forall y | y in d
        ensures FirstIndex(xs, y) == FirstIndex(init, y) < |init|
      {
        FirstIndexOfPrefix(xs, |xs| - 1, y);
      }
      if last !in init {
        assert FirstIndex(xs, last) == |init|;
      }
      var r := Distinct(xs);
      forall i, j | 0 <= i < j < |r|
        ensures FirstIndex(xs, r[i]) < FirstIndex(xs, r[j])
      {
        assert r[i] == d[i] && r[i] in d;
        if j < |d| {
          assert r[j] == d[j] && r[j] in d;
        }
      }
    }
  }

  /** In a first-occurrence-ordered sequence the head does not recur, so the
      tail holds exactly the other values. */
  lemma TailMembers<T>(xs: seq<T>, s: seq<T>, y: T)
    requires |s| > 0 && InFirstOccurrenceOrder(xs, s)
    ensures y in s[1..] <==> y in s && y != s[0]
  {
    if y in s[1..] {
      var k :| 0 <= k < |s[1..]| && s[1..][k] == y;
      assert FirstIndex(xs, s[0]) < FirstIndex(xs, s[k + 1]);
    }
    if y in s && y != s[0] {
      var m :| 0 <= m < |s| && s[m] == y;
      assert s[1..][m - 1] == y;
    }
  }

  /** The head of a first-occurrence-ordered sequence has the smallest first
      index, strictly smaller than that of any later element. */
  lemma HeadFirst<T>(xs: seq<T>, s: seq<T>, k: nat)
    requires k < |s| && InFirstOccurrenceOrder(xs, s)
    ensures FirstIndex(xs, s[0]) <= FirstIndex(xs, s[k])
    ensures k > 0 ==> FirstIndex(xs, s[0]) < FirstIndex(xs, s[k])
  {
    if k > 0 {
      assert FirstIndex(xs, s[0]) < FirstIndex(xs, s[k]);
    }
  }

  /** Two non-empty first-occurrence-ordered enumerations of the same values
      start with the same value. */
  lemma HeadsAgree<T(!new)>(xs: seq<T>, a: seq<T>, b: seq<T>)
    requires |a| > 0 && |b| > 0
    requires forall y :: y in a <==> y in b
    requires InFirstOccurrenceOrder(xs, a) && InFirstOccurrenceOrder(xs, b)
    ensures a[0] == b[0]
  {
    assert a[0] in a && b[0] in b;
    var j :| 0 <= j < |b| && b[j] == a[0];
    var i :| 0 <= i < |a| && a[i] == b[0];
    HeadFirst(xs, a, i);
    HeadFirst(xs, b, j);
    assert j == 0;
  }

  /** Two enumerations of the same values, both in first-occurrence order of
      `xs`, are the same sequence. */
  lemma {:induction false} FirstOccurrenceEnumerationUnique<T(!new)>(xs: seq<T>, a: seq<T>, b: seq<T>)
    requires forall y :: y in a <==> y in b
    requires InFirstOccurrenceOrder(xs, a) && InFirstOccurrenceOrder(xs, b)
    ensures a == b
    decreases |a|
  {
    if a != [] {
      assert a[0] in b;
    }
    if b != [] {
      assert b[0] in a;
    }
    if a != [] {
      HeadsAgree(xs, a, b);
      forall y
        ensures y in a[1..] <==> y in b[1..]
      {
        TailMembers(xs, a, y);
        TailMembers(xs, b, y);
      }
      assert InFirstOccurrenceOrder(xs, a[1..]) && InFirstOccurrenceOrder(xs, b[1..]);
      FirstOccurrenceEnumerationUnique(xs, a[1..], b[1..]);
      assert a == [a[0]] + a[1..] && b == [b[0]] + b[1..];
    }
  }

  /** `Distinct(xs)` is exactly the duplicate-free enumeration of the values of
      `xs` in first-occurrence order: it has that shape, and it is the only
      sequence that does. */
  lemma DistinctCharacterization<T(!new)>(xs: seq<T>, s: seq<T>)
    ensures s == Distinct(xs) <==>
              (forall y :: y in s <==> y in xs) && InFirstOccurrenceOrder(xs, s)
  {
    DistinctInFirstOccurrenceOrder(xs);
    if (forall y :: y in s <==> y in xs) && InFirstOccurrenceOrder(xs, s) {
      FirstOccurrenceEnumerationUnique(xs, s, Distinct(xs));
    }
  }

  /** A sequence without duplicates is its own `Distinct`; in particular
      `Distinct` is idempotent. */
  lemma DistinctOfDistinctFree<T(!new)>(s: seq<T>)
    requires NoDuplicates(s)
    ensures Distinct(s) == s
  {
    forall i | 0 <= i < |s|
      ensures FirstIndex(s, s[i]) == i
    {
      var k := FirstIndex(s, s[i]);
      assert s[k] == s[i];
    }
    DistinctCharacterization(s, s);
  }
}
