/** The set of files created at run time: 4096 bucket chains of folded paths, and a gate flag that
    stays down until the first one is added. */
module DirtySet {
  import opened CaseIndex

  const DIRTY_BUCKETS := 4096

  function DirtyBucket(cf: string): (b: nat)
    ensures b < DIRTY_BUCKETS
  {
    HashCf(cf) % DIRTY_BUCKETS
  }

  datatype Keys = Empty | Key(cf: string, next: Keys)

  predicate HasKey(c: Keys, cf: string) {
    c.Key? && (c.cf == cf || HasKey(c.next, cf))
  }

  /** No key occurs twice in the chain. */
  predicate Distinct(c: Keys) {
    c.Key? ==> !HasKey(c.next, c.cf) && Distinct(c.next)
  }

  class Dirty {
    const buckets: array<Keys>
    var nonempty: bool
    ghost var keys: set<string>

    ghost predicate Valid()
      reads this, buckets
    {
      && buckets.Length == DIRTY_BUCKETS
      && (nonempty <==> keys != {})
      && (forall cf: string :: HasKey(buckets[DirtyBucket(cf)], cf) <==> cf in keys)
      && (forall b :: 0 <= b < DIRTY_BUCKETS ==> Distinct(buckets[b]))
    }

    constructor ()
      ensures Valid() && fresh(buckets) && keys == {}
    {
      buckets := new Keys[DIRTY_BUCKETS](_ => Empty);
      nonempty := false;
      keys := {};
    }

    method Has(cf: string) returns (r: bool)
      requires Valid()
      ensures r <==> cf in keys
    {
      var p := buckets[DirtyBucket(cf)];
      while p.Key?
        invariant HasKey(p, cf) <==> cf in keys
        decreases p
      {
        if p.cf == cf {
          return true;
        }
        p := p.next;
      }
      r := false;
    }

    method Insert(cf: string)
      requires Valid()
      modifies this, buckets
      ensures Valid() && keys == old(keys) + {cf}
    {
      hide DirtyBucket;
      var b := DirtyBucket(cf);
      var p := buckets[b];
      while p.Key?
        invariant HasKey(p, cf) <==> cf in keys
        decreases p
      {
        if p.cf == cf {
          return;
        }
        p := p.next;
      }
      buckets[b] := Key(cf, buckets[b]);
      nonempty := true;
      keys := keys + {cf};
    }
  }
}
