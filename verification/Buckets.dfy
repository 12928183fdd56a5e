/** What the hash chains are in plain terms: the hash character by character from its offset basis, the bucket as a
    remainder, and each chain as the list of its keys, with no key in it twice. The index and the set of files
    created at run time share the hash and differ in the number of their buckets. */
module Buckets {
  import opened CaseIndex
  import opened DirtySet

  /** The 32-bit FNV-1a hash. */
  function Hash(s: string): bv32 {
    Fnv(2166136261, s)
  }

  lemma {:induction false} HashOneMore(h: bv32, s: string, c: char)
    ensures Fnv(h, s + [c]) == Mixed(Fnv(h, s), c)
    decreases |s|
  {
    hide Mixed;
    if s == [] {
      assert ([c])[1..] == [];
      assert Fnv(Mixed(h, c), []) == Mixed(h, c);
    } else {
      assert (s + [c])[1..] == s[1..] + [c];
      HashOneMore(Mixed(h, s[0]), s[1..], c);
    }
  }

  /** It starts from the offset basis; each character is mixed in by exclusive or and then multiplied by the prime,
      modulo 2 to the 32nd. */
  lemma {:induction false} HashByCharacter(s: string, c: char)
    ensures Hash("") == 0x811C_9DC5
    ensures Hash(s + [c]) == (Hash(s) ^ ((c as int % 256) as bv32)) * 0x0100_0193
  {
    hide Fnv;
    Start();
    HashOneMore(2166136261, s, c);
    MixedIn(Hash(s), c);
  }

  lemma {:induction false} MixedIn(h: bv32, c: char)
    ensures Mixed(h, c) == (h ^ ((c as int % 256) as bv32)) * 0x0100_0193
  {
  }

  lemma {:induction false} Start()
    ensures Hash("") == 0x811C_9DC5
  {
  }

  /** The bucket is the hash modulo 524288 in the index, and modulo 4096 in the set. */
  lemma {:induction false} BucketByHash(s: string)
    ensures HashCf(s) == Hash(s) as nat % 524288 && DirtyBucket(s) == Hash(s) as nat % 4096
  {
    hide Fnv, Mixed;
    Modulo(Hash(s) as nat);
  }

  lemma {:induction false} Modulo(n: nat)
    ensures n % 524288 % 4096 == n % 4096
  {
    var q, r := n / 524288, n % 524288;
    assert n == 4096 * (128 * q + r / 4096) + r % 4096;
  }

  function KeysOf(c: Keys): seq<string> {
    if c.Empty? then [] else [c.cf] + KeysOf(c.next)
  }

  lemma {:induction false} HasKeyExactly(c: Keys, cf: string)
    ensures HasKey(c, cf) <==> cf in KeysOf(c)
  {
    if c.Key? {
      HasKeyExactly(c.next, cf);
    }
  }

  predicate NoRepeat(s: seq<string>) {
    forall i, j :: 0 <= i < j < |s| ==> s[i] != s[j]
  }

  lemma {:induction false} RepeatsCons(x: string, rest: seq<string>)
    ensures NoRepeat([x] + rest) <==> x !in rest && NoRepeat(rest)
  {
    var s := [x] + rest;
    if NoRepeat(s) {
      forall i, j | 0 <= i < j < |rest| ensures rest[i] != rest[j] {
        assert s[i + 1] != s[j + 1];
      }
      forall j | 0 <= j < |rest| ensures rest[j] != x {
        assert s[0] != s[j + 1];
      }
    }
  }

  lemma {:induction false} DistinctExactly(c: Keys)
    ensures Distinct(c) <==> NoRepeat(KeysOf(c))
  {
    if c.Key? {
      var rest := KeysOf(c.next);
      DistinctExactly(c.next);
      HasKeyExactly(c.next, c.cf);
      RepeatsCons(c.cf, rest);
    }
  }

  /** The set has 4096 chains. None holds a key twice, and a key was added exactly where its chain holds it. */
  lemma {:induction false} ChainsOf(d: Dirty, cf: string)
    requires d.Valid()
    ensures d.buckets.Length == 4096 && forall b :: 0 <= b < 4096 ==> NoRepeat(KeysOf(d.buckets[b]))
    ensures cf in d.keys <==> cf in KeysOf(d.buckets[DirtyBucket(cf)])
    ensures d.nonempty <==> d.keys != {}
  {
    hide Distinct, HasKey, NoRepeat, DirtyBucket;
    HasKeyExactly(d.buckets[DirtyBucket(cf)], cf);
    forall b | 0 <= b < 4096 ensures NoRepeat(KeysOf(d.buckets[b])) {
      DistinctExactly(d.buckets[b]);
    }
  }

  /** The index counts every node that was put into it, and answers as if it looked for the last one put. */
  lemma {:induction false} CountsNodes(x: Index, cf: string)
    requires x.Valid()
    ensures x.nodes == |x.puts| && x.buckets.Length == 524288
    ensures ChainFind(x.buckets[HashCf(cf)], cf) == Lookup(x.puts, cf)
  {
  }
}
