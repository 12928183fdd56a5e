/** The immutable index: hash buckets of prepended nodes, keyed by case-folded path, filled by one
    walk over the game tree. */
module CaseIndex {
  import opened Options

  const NBUCKETS := 524288

  /** An index node. `path` is the on-disk spelling, `cf` its fold, and `ents` a
      directory's listing in readdir order (without "." and ".."). */
  datatype Node =
    | DirNode(cf: string, path: string, ents: seq<string>)
    | FileNode(cf: string, path: string)

  // ---- Hashing: 32-bit FNV-1a, wrapping ----

  function Mixed(h: bv32, c: char): bv32 {
    (h ^ ((c as int % 256) as bv32)) * 16777619
  }

  function Fnv(h: bv32, s: string): bv32
    decreases |s|
  {
    if s == "" then h else Fnv(Mixed(h, s[0]), s[1..])
  }

  function HashCf(s: string): (b: nat)
    ensures b < NBUCKETS
  {
    Fnv(2166136261, s) as nat % NBUCKETS
  }

  // ---- Bucket chains ----

  datatype Chain = Nil | Cons(node: Node, next: Chain)

  function ChainFind(c: Chain, cf: string): Option<Node> {
    match c
    case Nil => None
    case Cons(n, next) => if n.cf == cf then Some(n) else ChainFind(next, cf)
  }

  /** What the index means: the node put last under a key is the one found. */
  function Lookup(puts: seq<Node>, cf: string): Option<Node> {
    if puts == [] then None
    else if puts[|puts| - 1].cf == cf then Some(puts[|puts| - 1])
    else Lookup(puts[..|puts| - 1], cf)
  }

  lemma {:induction false} LookupSnoc(puts: seq<Node>, n: Node, cf: string)
    ensures Lookup(puts + [n], cf) == if n.cf == cf then Some(n) else Lookup(puts, cf)
  {
  }

  /** A lookup finds something exactly when the key was put, and what it finds was put under it. */
  lemma {:induction false} LookupFinds(puts: seq<Node>, cf: string)
    ensures Lookup(puts, cf).Some? <==> exists n :: n in puts && n.cf == cf
    ensures Lookup(puts, cf).Some? ==> Lookup(puts, cf).value in puts && Lookup(puts, cf).value.cf == cf
  {
    if puts != [] {
      var front, last := puts[..|puts| - 1], puts[|puts| - 1];
      assert puts == front + [last];
      LookupFinds(front, cf);
      if n :| n in puts && n.cf == cf && last.cf != cf {
        assert n in front;
      }
    }
  }

  class Index {
    const buckets: array<Chain>
    var nodes: nat
    /** Every node put so far, oldest first. */
    ghost var puts: seq<Node>

    ghost predicate Valid()
      reads this, buckets
    {
      && buckets.Length == NBUCKETS
      && nodes == |puts|
      && forall cf: string :: ChainFind(buckets[HashCf(cf)], cf) == Lookup(puts, cf)
    }

    constructor ()
      ensures Valid() && fresh(buckets)
      ensures puts == []
    {
      buckets := new Chain[NBUCKETS](_ => Nil);
      nodes := 0;
      puts := [];
    }

    method Find(cf: string) returns (r: Option<Node>)
      requires Valid()
      ensures r == Lookup(puts, cf)
    {
      var n := buckets[HashCf(cf)];
      while n.Cons?
        invariant ChainFind(n, cf) == Lookup(puts, cf)
        decreases n
      {
        if n.node.cf == cf {
          return Some(n.node);
        }
        n := n.next;
      }
      r := None;
    }

    method Put(nd: Node)
      requires Valid()
      modifies this, buckets
      ensures Valid()
      ensures puts == old(puts) + [nd]
    {
      var b := HashCf(nd.cf);
      buckets[b] := Cons(nd, buckets[b]);
      nodes := nodes + 1;
      puts := puts + [nd];
      forall cf: string ensures ChainFind(buckets[HashCf(cf)], cf) == Lookup(puts, cf) {
        LookupSnoc(old(puts), nd, cf);
      }
    }
  }
}
