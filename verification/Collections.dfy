/** Small facts about sets, maps and lists that several components share. */
module Collections {
  import opened Options

  function Lookup<K, V>(m: map<K, V>, k: K): Option<V> {
    if k in m then Some(m[k]) else None
  }

  lemma SameMap<K, V>(a: map<K, V>, b: map<K, V>)
    requires (forall k :: k in a <==> k in b) && (forall k :: k in a ==> a[k] == b[k])
    ensures a == b
  {
  }

  lemma {:induction false} FewerElements<T>(a: set<T>, b: set<T>)
    requires a <= b
    ensures |a| <= |b|
    decreases a
  {
    if x :| x in a {
      FewerElements(a - {x}, b - {x});
    }
  }

  /** The elements of `a`, and then those of `b` that are new, each once. */
  function Merged<T(==,!new)>(a: seq<T>, b: seq<T>): (r: seq<T>)
    ensures forall x :: x in r <==> x in a || x in b
  {
    if b == [] then a
    else
      var before, last := Merged(a, b[..|b| - 1]), b[|b| - 1];
      if last in before then before else before + [last]
  }

  predicate Distinct<T(==)>(s: seq<T>) {
    forall i, j :: 0 <= i < j < |s| ==> s[i] != s[j]
  }

  lemma MergedStep<T(!new)>(a: seq<T>, b: seq<T>, x: T)
    ensures Merged(a, b + [x]) == if x in Merged(a, b) then Merged(a, b) else Merged(a, b) + [x]
  {
    assert (b + [x])[..|b|] == b;
  }

  lemma {:induction false} MergedDistinct<T(!new)>(a: seq<T>, b: seq<T>)
    requires Distinct(a)
    ensures Distinct(Merged(a, b))
    decreases |b|
  {
    if b != [] { MergedDistinct(a, b[..|b| - 1]); }
  }

  lemma {:induction false} MergedInTwo<T(!new)>(a: seq<T>, b: seq<T>, c: seq<T>)
    ensures Merged(a, b + c) == Merged(Merged(a, b), c)
    decreases |c|
  {
    if c == [] {
      assert b + c == b;
    } else {
      assert (b + c)[..|b + c| - 1] == b + c[..|c| - 1];
      MergedInTwo(a, b, c[..|c| - 1]);
    }
  }

  /** What is new in a list is what is new in its distinct elements. */
  lemma {:induction false} MergedOnce<T(!new)>(a: seq<T>, b: seq<T>)
    ensures Merged(a, Merged([], b)) == Merged(a, b)
    decreases |b|
  {
    if b != [] {
      var before, last := b[..|b| - 1], b[|b| - 1];
      MergedOnce(a, before);
      MergedStep(a, Merged([], before), last);
    }
  }
}
