/** What the order of texts is, and that a list has only one arrangement in an order that tells all elements apart.
    Texts here are sequences of anything that has a strict order of its own, since names are compared by their bytes
    in one program and by their characters in another. */
module TextOrder {
  import opened Sorting

  /** Up to position i the two are the same; there a ends, or has the smaller element. */
  predicate SplitsAt<T(==)>(a: seq<T>, b: seq<T>, i: nat, before: (T, T) -> bool) {
    i <= |a| && i <= |b| && a[..i] == b[..i] && (i == |a| || (i < |b| && before(a[i], b[i])))
  }

  lemma {:induction false} LexicographicSplits<T(!new)>(a: seq<T>, b: seq<T>, before: (T, T) -> bool) returns (i: nat)
    requires Lexicographic(a, b, before)
    ensures SplitsAt(a, b, i, before)
  {
    i := 0;
    if a != [] && !before(a[0], b[0]) {
      var j := LexicographicSplits(a[1..], b[1..], before);
      i := j + 1;
      assert a[..i] == [a[0]] + a[1..][..j] && b[..i] == [b[0]] + b[1..][..j];
    }
  }

  lemma {:induction false} SplitsLexicographic<T(!new)>(a: seq<T>, b: seq<T>, i: nat, before: (T, T) -> bool)
    requires SplitsAt(a, b, i, before)
    ensures Lexicographic(a, b, before)
    decreases i
  {
    if i > 0 {
      assert a[0] == a[..i][0] == b[..i][0] == b[0];
      assert a[1..][..i - 1] == a[..i][1..] && b[1..][..i - 1] == b[..i][1..];
      SplitsLexicographic(a[1..], b[1..], i - 1, before);
    }
  }

  /** One text comes before another, or is the same, exactly where it is the beginning of the other or has the smaller
      element at the first place where they differ. */
  lemma {:induction false} LexicographicExactly<T(!new)>(a: seq<T>, b: seq<T>, before: (T, T) -> bool)
    ensures Lexicographic(a, b, before) <==> exists i: nat :: SplitsAt(a, b, i, before)
  {
    hide Lexicographic, SplitsAt;
    if Lexicographic(a, b, before) {
      var i := LexicographicSplits(a, b, before);
    }
    if i: nat :| SplitsAt(a, b, i, before) {
      SplitsLexicographic(a, b, i, before);
    }
  }

  ghost predicate Strict<T(!new)>(before: (T, T) -> bool) {
    && (forall x, y :: before(x, y) || before(y, x) || x == y)
    && (forall x, y :: before(x, y) ==> !before(y, x))
    && (forall x, y, z :: before(x, y) && before(y, z) ==> before(x, z))
  }

  lemma {:induction false} LexicographicTwice<T(!new)>(a: seq<T>, b: seq<T>, c: seq<T>, before: (T, T) -> bool)
    requires Strict(before) && Lexicographic(a, b, before) && Lexicographic(b, c, before)
    ensures Lexicographic(a, c, before)
    ensures c == a ==> b == a
    decreases |a|
  {
    if a != [] {
      if a[0] == b[0] == c[0] {
        LexicographicTwice(a[1..], b[1..], c[1..], before);
        assert a == [a[0]] + a[1..] && b == [b[0]] + b[1..] && c == [c[0]] + c[1..];
      }
    }
  }

  // ---- Only one arrangement ----

  ghost predicate TellsApart<T(!new)>(le: (T, T) -> bool) {
    forall a, b :: le(a, b) && le(b, a) ==> a == b
  }

  lemma {:induction false} FirstIsLeast<T(!new)>(s: seq<T>, le: (T, T) -> bool, x: T)
    requires s != [] && Sorted(s, le) && Total(le) && Transitive(le) && x in s
    ensures le(s[0], x)
    decreases |s|
  {
    hide Sorted;
    if x != s[0] {
      TailSorted(s, le);
      assert x in s[1..] by { assert s == [s[0]] + s[1..]; }
      FirstIsLeast(s[1..], le, x);
    } else {
      assert le(x, x) || le(x, x);
    }
  }

  lemma {:induction false} OneArrangement<T(!new)>(s: seq<T>, t: seq<T>, le: (T, T) -> bool)
    requires Sorted(s, le) && Sorted(t, le) && multiset(s) == multiset(t)
    requires Total(le) && Transitive(le) && TellsApart(le)
    ensures s == t
    decreases |s|
  {
    hide Sorted, Transitive, Total;
    assert |s| == |multiset(s)| == |multiset(t)| == |t|;
    if s != [] {
      assert s[0] in multiset(t) && t[0] in multiset(s);
      FirstIsLeast(s, le, t[0]);
      FirstIsLeast(t, le, s[0]);
      assert s == [s[0]] + s[1..] && t == [t[0]] + t[1..];
      assert multiset(s[1..]) == multiset(s) - multiset{s[0]} == multiset(t) - multiset{t[0]} == multiset(t[1..]);
      TailSorted(s, le);
      TailSorted(t, le);
      OneArrangement(s[1..], t[1..], le);
    }
  }

  /** However the elements are arranged in order, that is how they are sorted. */
  lemma {:induction false} SortedAs<T(!new)>(s: seq<T>, t: seq<T>, le: (T, T) -> bool)
    requires Sorted(t, le) && multiset(s) == multiset(t)
    requires Total(le) && Transitive(le) && TellsApart(le)
    ensures Sort(s, le) == t
  {
    hide Sorted, Transitive, Total, TellsApart;
    SortSorts(s, le);
    OneArrangement(Sort(s, le), t, le);
  }
}
