/** sorted() by an order, keeping equal elements as they come. Insertion is not how the interpreter sorts, but a
    stable sort has only one result. For any comparison the result holds the same elements as often; for a
    total one it is in order. Names are sorted by text order, byte names by the order of their bytes, and ids
    by the numbers they spell. */
module Sorting {

  ghost predicate Total<T(!new)>(le: (T, T) -> bool) {
    forall a, b :: le(a, b) || le(b, a)
  }

  predicate Sorted<T>(s: seq<T>, le: (T, T) -> bool) {
    forall i :: 0 < i < |s| ==> le(s[i - 1], s[i])
  }

  function Insert<T(==)>(x: T, s: seq<T>, le: (T, T) -> bool): (r: seq<T>)
    ensures multiset(r) == multiset(s) + multiset{x} && |r| == |s| + 1
    ensures r[0] == x || (s != [] && r[0] == s[0])
  {
    if s == [] || !le(s[0], x) then [x] + s
    else
      assert s == [s[0]] + s[1..];
      [s[0]] + Insert(x, s[1..], le)
  }

  function Sort<T(==)>(s: seq<T>, le: (T, T) -> bool): (r: seq<T>)
    ensures multiset(r) == multiset(s) && |r| == |s|
  {
    if s == [] then []
    else
      assert s == s[..|s| - 1] + [s[|s| - 1]];
      Insert(s[|s| - 1], Sort(s[..|s| - 1], le), le)
  }

  lemma {:induction false} ConsSorted<T>(a: T, s: seq<T>, le: (T, T) -> bool)
    requires Sorted(s, le) && (s == [] || le(a, s[0]))
    ensures Sorted([a] + s, le)
  {
    forall i | 0 < i < |[a] + s| ensures le(([a] + s)[i - 1], ([a] + s)[i]) {
      if i > 1 {
        assert le(s[i - 1 - 1], s[i - 1]);
      }
    }
  }

  lemma {:induction false} TailSorted<T>(s: seq<T>, le: (T, T) -> bool)
    requires s != [] && Sorted(s, le)
    ensures Sorted(s[1..], le) && (|s| > 1 ==> le(s[0], s[1]))
  {
    assert |s| > 1 ==> le(s[1 - 1], s[1]);
    forall i | 0 < i < |s| - 1 ensures le(s[1..][i - 1], s[1..][i]) {
      assert le(s[i + 1 - 1], s[i + 1]);
    }
  }

  lemma {:induction false} InsertSorted<T(!new)>(x: T, s: seq<T>, le: (T, T) -> bool)
    requires Total(le) && Sorted(s, le)
    ensures Sorted(Insert(x, s, le), le)
    decreases |s|
  {
    hide Sorted;
    if s == [] || !le(s[0], x) {
      ConsSorted(x, s, le);
    } else {
      TailSorted(s, le);
      InsertSorted(x, s[1..], le);
      ConsSorted(s[0], Insert(x, s[1..], le), le);
    }
  }

  lemma {:induction false} SortSorts<T(!new)>(s: seq<T>, le: (T, T) -> bool)
    requires Total(le)
    ensures Sorted(Sort(s, le), le)
    decreases |s|
  {
    if s != [] {
      SortSorts(s[..|s| - 1], le);
      InsertSorted(s[|s| - 1], Sort(s[..|s| - 1], le), le);
    }
  }

  /** Nothing is lost and nothing is new. */
  lemma {:induction false} SortMembers<T>(s: seq<T>, le: (T, T) -> bool)
    ensures forall x :: x in Sort(s, le) <==> x in s
  {
    hide Sort;
    forall x ensures x in Sort(s, le) <==> x in s {
      assert x in multiset(Sort(s, le)) <==> x in multiset(s);
    }
  }

  // ---- Text ----

  /** One text, or one string of bytes, before another. */
  predicate Lexicographic<T(==)>(a: seq<T>, b: seq<T>, before: (T, T) -> bool) {
    a == [] || (b != [] && (before(a[0], b[0]) || (a[0] == b[0] && Lexicographic(a[1..], b[1..], before))))
  }

  lemma {:induction false} LexicographicTotal<T(!new)>(a: seq<T>, b: seq<T>, before: (T, T) -> bool)
    requires forall x, y :: before(x, y) || before(y, x) || x == y
    ensures Lexicographic(a, b, before) || Lexicographic(b, a, before)
    decreases |a|
  {
    if a != [] && b != [] {
      LexicographicTotal(a[1..], b[1..], before);
    }
  }

  predicate NoDup<T(==)>(s: seq<T>) {
    forall i, j :: 0 <= i < j < |s| ==> s[i] != s[j]
  }

  // ---- Equal elements stay in the order they came ----

  ghost predicate Transitive<T(!new)>(le: (T, T) -> bool) {
    forall a, b, c :: le(a, b) && le(b, c) ==> le(a, c)
  }

  /** The elements that compare equal to x, in the order they stand. */
  function Peers<T>(s: seq<T>, x: T, le: (T, T) -> bool): seq<T> {
    if s == [] then []
    else (if le(x, s[0]) && le(s[0], x) then [s[0]] else []) + Peers(s[1..], x, le)
  }

  lemma {:induction false} AllAbove<T(!new)>(s: seq<T>, x: T, le: (T, T) -> bool)
    requires Sorted(s, le) && Total(le) && Transitive(le) && (s == [] || !le(s[0], x))
    ensures Peers(s, x, le) == []
  {
    if |s| > 1 {
      TailSorted(s, le);
      AllAbove(s[1..], x, le);
    }
  }

  lemma {:induction false} PeersOfPeer<T(!new)>(s: seq<T>, x: T, z: T, le: (T, T) -> bool)
    requires Transitive(le) && le(x, z) && le(z, x)
    ensures Peers(s, x, le) == Peers(s, z, le)
  {
    if s != [] {
      PeersOfPeer(s[1..], x, z, le);
    }
  }

  lemma {:induction false} PeersCons<T>(a: T, s: seq<T>, z: T, le: (T, T) -> bool)
    ensures Peers([a] + s, z, le) == (if le(z, a) && le(a, z) then [a] else []) + Peers(s, z, le)
  {
    assert ([a] + s)[1..] == s;
  }

  lemma {:induction false} InsertAfterPeers<T(!new)>(x: T, s: seq<T>, z: T, le: (T, T) -> bool)
    requires Sorted(s, le) && Total(le) && Transitive(le)
    ensures Peers(Insert(x, s, le), z, le) == Peers(s, z, le) + if le(z, x) && le(x, z) then [x] else []
    decreases |s|
  {
    hide Sorted, Transitive, Total, Peers;
    if s == [] || !le(s[0], x) {
      PeersCons(x, s, z, le);
      if le(z, x) && le(x, z) {
        AllAbove(s, x, le);
        PeersOfPeer(s, x, z, le);
      }
    } else {
      TailSorted(s, le);
      InsertAfterPeers(x, s[1..], z, le);
      assert s == [s[0]] + s[1..];
      PeersCons(s[0], s[1..], z, le);
      PeersCons(s[0], Insert(x, s[1..], le), z, le);
    }
  }

  lemma {:induction false} PeersSnoc<T>(s: seq<T>, x: T, z: T, le: (T, T) -> bool)
    ensures Peers(s + [x], z, le) == Peers(s, z, le) + if le(z, x) && le(x, z) then [x] else []
  {
    if s != [] {
      assert (s + [x])[1..] == s[1..] + [x];
      PeersSnoc(s[1..], x, z, le);
    }
  }

  /** Sorting is stable: what compares equal comes out in the order it went in. */
  lemma {:induction false} SortIsStable<T(!new)>(s: seq<T>, z: T, le: (T, T) -> bool)
    requires Total(le) && Transitive(le)
    ensures Peers(Sort(s, le), z, le) == Peers(s, z, le)
    decreases |s|
  {
    hide Transitive, Peers, Insert;
    if s != [] {
      var front, x := s[..|s| - 1], s[|s| - 1];
      SortIsStable(front, z, le);
      SortSorts(front, le);
      InsertAfterPeers(x, Sort(front, le), z, le);
      PeersSnoc(front, x, z, le);
      assert front + [x] == s;
    }
  }
}
