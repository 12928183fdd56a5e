/** The workshop lock: which items go into which bucket, which buckets a server copies, and which items its
    manifest lists. Dictionaries are lists of pairs in insertion order, as the program iterates over them. The
    buckets of a partition are described by two filters, first by the group's name, then by the bucket's key,
    and the methods that fill them with setdefault and append are proved against that description. Text order
    sorts names and keys; ids are sorted as numbers. */
module WorkshopLock {
  import opened Options
  import opened Sorting

  datatype Item = Item(id: string, size: nat, servers: seq<string>)
  datatype Lock = Lock(solo: nat, buckets: map<string, nat>, items: seq<Item>)

  datatype Bucket = Bucket(key: string, ids: seq<string>)
  datatype Group = Group(name: string, buckets: seq<Bucket>)

  /** The first digits of an id's digest, as a number. */
  type Hash = string -> nat

  const HYPHEN := '-'

  // ---- Names ----

  /** Text order. */
  predicate LeText(a: string, b: string) {
    Lexicographic(a, b, (x: char, y: char) => x < y)
  }

  function Number(s: string): nat {
    if s == [] then 0 else 10 * Number(s[..|s| - 1]) + if '0' <= s[|s| - 1] <= '9' then (s[|s| - 1] - '0') as int else 0
  }

  /** key=int */
  predicate LeNumber(a: string, b: string) {
    Number(a) <= Number(b)
  }

  function Join(names: seq<string>): string {
    if names == [] then [] else if |names| == 1 then names[0] else names[0] + [HYPHEN] + Join(names[1..])
  }

  function HyphenAt(s: string): (i: nat)
    ensures i <= |s|
    ensures i < |s| ==> s[i] == HYPHEN
    ensures forall j :: 0 <= j < i ==> s[j] != HYPHEN
  {
    if s == [] || s[0] == HYPHEN then 0 else 1 + HyphenAt(s[1..])
  }

  /** split("-") */
  function Split(s: string): (r: seq<string>)
    ensures r != []
    ensures forall i :: 0 <= i < |r| ==> HYPHEN !in r[i]
  {
    var i := HyphenAt(s);
    if i == |s| then [s] else [s[..i]] + Split(s[i + 1..])
  }

  function GroupOf(servers: seq<string>): string {
    Join(Sort(servers, LeText))
  }

  function GroupName(item: Item): string {
    GroupOf(item.servers)
  }

  function Digit(n: nat): char
    requires n < 10
  {
    "0123456789"[n]
  }

  function Decimal(n: nat): string {
    if n < 10 then [Digit(n)] else Decimal(n / 10) + [Digit(n % 10)]
  }

  /** "%02d" */
  function TwoDigits(n: nat): string {
    if n < 10 then "0" + Decimal(n) else Decimal(n)
  }

  // ---- Buckets ----

  predicate Solo(lock: Lock, item: Item) {
    lock.solo > 0 && item.size >= lock.solo
  }

  /** How many buckets an item's group has; 0 also where the lock does not say. */
  function BucketCount(lock: Lock, item: Item): nat {
    if GroupName(item) in lock.buckets then lock.buckets[GroupName(item)] else 0
  }

  function KeyOf(lock: Lock, hash: Hash, item: Item): string {
    if Solo(lock, item) || BucketCount(lock, item) == 0 then item.id
    else TwoDigits(hash(item.id) % BucketCount(lock, item))
  }

  function Keyer(lock: Lock, hash: Hash): Item -> string {
    item => KeyOf(lock, hash, item)
  }

  /** It raises where the lock has no count for a group, or the count 0 for a group with an item to hash. */
  predicate CanPartition(lock: Lock) {
    forall i :: 0 <= i < |lock.items| ==>
      GroupName(lock.items[i]) in lock.buckets && (Solo(lock, lock.items[i]) || BucketCount(lock, lock.items[i]) > 0)
  }

  /** The items of one name, in order. */
  function Those(items: seq<Item>, name: Item -> string, n: string): (r: seq<Item>)
    ensures forall x :: x in r <==> x in items && name(x) == n
  {
    if items == [] then []
    else
      var r, last := Those(items[..|items| - 1], name, n), items[|items| - 1];
      assert items == items[..|items| - 1] + [last];
      if name(last) == n then r + [last] else r
  }

  /** The names, in the order they are first met. */
  function Firsts(items: seq<Item>, name: Item -> string): (r: seq<string>)
    ensures NoDup(r) && forall n :: n in r <==> exists x :: x in items && name(x) == n
  {
    if items == [] then []
    else
      var r, last := Firsts(items[..|items| - 1], name), items[|items| - 1];
      assert items == items[..|items| - 1] + [last];
      if name(last) in r then r else r + [name(last)]
  }

  function Ids(items: seq<Item>): (r: seq<string>)
    ensures |r| == |items| && forall i :: 0 <= i < |items| ==> r[i] == items[i].id
  {
    seq(|items|, i requires 0 <= i < |items| => items[i].id)
  }

  function SortedIds(items: seq<Item>): seq<string> {
    Sort(Ids(items), LeNumber)
  }

  function MakeBuckets(items: seq<Item>, key: Item -> string, keys: seq<string>): (r: seq<Bucket>)
    ensures |r| == |keys| && forall i :: 0 <= i < |keys| ==>
            r[i] == Bucket(keys[i], SortedIds(Those(items, key, keys[i])))
  {
    seq(|keys|, i requires 0 <= i < |keys| => Bucket(keys[i], SortedIds(Those(items, key, keys[i]))))
  }

  function BucketsOf(items: seq<Item>, key: Item -> string): seq<Bucket> {
    MakeBuckets(items, key, Sort(Firsts(items, key), LeText))
  }

  function GroupsOf(lock: Lock, hash: Hash, names: seq<string>): (r: seq<Group>)
    ensures |r| == |names|
    ensures forall i :: 0 <= i < |names| ==>
              r[i] == Group(names[i], BucketsOf(Those(lock.items, GroupName, names[i]), Keyer(lock, hash)))
  {
    seq(|names|, i requires 0 <= i < |names| =>
      Group(names[i], BucketsOf(Those(lock.items, GroupName, names[i]), Keyer(lock, hash))))
  }

  function Partitioned(lock: Lock, hash: Hash): seq<Group> {
    GroupsOf(lock, hash, Firsts(lock.items, GroupName))
  }

  /** setdefault(name, []).append(item), for every item */
  method GroupBy(items: seq<Item>, name: Item -> string) returns (m: map<string, seq<Item>>, order: seq<string>)
    ensures order == Firsts(items, name)
    ensures forall n :: n in m <==> n in order
    ensures forall n :: n in m ==> m[n] == Those(items, name, n)
  {
    hide Those, Firsts;
    m, order := map[], [];
    NoneGrouped(name);
    for i := 0 to |items|
      invariant order == Firsts(items[..i], name)
      invariant forall n :: n in m <==> n in order
      invariant forall n :: n in m ==> m[n] == Those(items[..i], name, n)
    {
      var item := items[i];
      var n := name(item);
      OneMoreItem(items, name, i);
      if n !in m {
        NoneYet(items[..i], name, n);
        m := m[n := []];
        order := order + [n];
      }
      m := m[n := m[n] + [item]];
    }
    assert items[..|items|] == items;
  }

  lemma {:induction false} NoneGrouped(name: Item -> string)
    ensures Firsts([], name) == [] && forall n :: Those([], name, n) == []
  {
  }

  lemma {:induction false} OneMoreItem(items: seq<Item>, name: Item -> string, i: nat)
    requires i < |items|
    ensures var r, n := Firsts(items[..i], name), name(items[i]);
            Firsts(items[..i + 1], name) == if n in r then r else r + [n]
    ensures forall n :: Those(items[..i + 1], name, n) ==
                        Those(items[..i], name, n) + if name(items[i]) == n then [items[i]] else []
  {
    assert items[..i + 1][..i] == items[..i];
  }

  lemma {:induction false} NoneYet(items: seq<Item>, name: Item -> string, n: string)
    requires n !in Firsts(items, name)
    ensures Those(items, name, n) == []
  {
    if items != [] {
      NoneYet(items[..|items| - 1], name, n);
    }
  }

  method FillBuckets(items: seq<Item>, key: Item -> string) returns (r: seq<Bucket>)
    ensures r == BucketsOf(items, key)
  {
    hide Those, Firsts, Sort;
    var byKey, order := GroupBy(items, key);
    var keys := Sort(order, LeText);
    SortMembers(order, LeText);
    r := [];
    for i := 0 to |keys|
      invariant r == BucketsOf(items, key)[..i]
    {
      assert keys[i] in keys;
      r := r + [Bucket(keys[i], Sort(Ids(byKey[keys[i]]), LeNumber))];
    }
  }

  lemma {:induction false} GroupHasItem(lock: Lock, name: string)
    requires name in Firsts(lock.items, GroupName) && name !in lock.buckets
    ensures !CanPartition(lock)
  {
    hide Firsts, GroupName;
    var x :| x in lock.items && GroupName(x) == name;
    var i :| 0 <= i < |lock.items| && lock.items[i] == x;
  }

  lemma {:induction false} NoCount(lock: Lock, item: Item)
    requires item in lock.items && !Solo(lock, item) && BucketCount(lock, item) == 0
    ensures !CanPartition(lock)
  {
    hide GroupName;
    var i :| 0 <= i < |lock.items| && lock.items[i] == item;
  }

  /** Every item has a count that works. */
  predicate Countable(lock: Lock, item: Item) {
    GroupName(item) in lock.buckets && (Solo(lock, item) || BucketCount(lock, item) > 0)
  }

  method Partition(lock: Lock, hash: Hash) returns (r: Option<seq<Group>>)
    ensures r == if CanPartition(lock) then Some(Partitioned(lock, hash)) else None
  {
    hide Those, Firsts, Sort, GroupName, BucketsOf, Solo, BucketCount, KeyOf, CanPartition;
    var byGroup, order := GroupBy(lock.items, GroupName);
    var out := [];
    for g := 0 to |order|
      invariant out == Partitioned(lock, hash)[..g]
      invariant forall x :: x in lock.items && GroupName(x) in order[..g] ==> Countable(lock, x)
    {
      var name := order[g];
      assert name in order;
      var items := byGroup[name];
      if name !in lock.buckets {
        GroupHasItem(lock, name);
        return None;
      }
      for i := 0 to |items|
        invariant forall j :: 0 <= j < i ==> Solo(lock, items[j]) || BucketCount(lock, items[j]) > 0
      {
        if !Solo(lock, items[i]) && BucketCount(lock, items[i]) == 0 {
          assert items[i] in items;
          NoCount(lock, items[i]);
          return None;
        }
      }
      forall x | x in lock.items && GroupName(x) == name ensures Countable(lock, x) {
        assert x in items;
      }
      var buckets := FillBuckets(items, Keyer(lock, hash));
      out := out + [Group(name, buckets)];
    }
    assert order[..|order|] == order && Partitioned(lock, hash)[..|order|] == Partitioned(lock, hash);
    AllCountable(lock);
    r := Some(out);
  }

  lemma {:induction false} AllCountable(lock: Lock)
    requires forall x :: x in lock.items && GroupName(x) in Firsts(lock.items, GroupName) ==> Countable(lock, x)
    ensures CanPartition(lock)
  {
    hide Firsts, GroupName;
    forall i | 0 <= i < |lock.items| ensures Countable(lock, lock.items[i]) {
      assert lock.items[i] in lock.items;
    }
  }

  // ---- What a server copies and what its manifest lists ----

  function StageName(group: string, key: string): string {
    "ws-" + group + [HYPHEN] + key
  }

  /** The stages of some groups' buckets that a server copies. */
  function Layers(server: string, groups: seq<Group>): (r: seq<string>)
  {
    if groups == [] then []
    else
      var g := groups[|groups| - 1];
      Layers(server, groups[..|groups| - 1]) + if server in Split(g.name) then Stages(g.name, g.buckets) else []
  }

  function Stages(group: string, buckets: seq<Bucket>): (r: seq<string>)
    ensures |r| == |buckets| && forall i :: 0 <= i < |buckets| ==> r[i] == StageName(group, buckets[i].key)
  {
    seq(|buckets|, i requires 0 <= i < |buckets| => StageName(group, buckets[i].key))
  }

  predicate LeGroup(a: Group, b: Group) {
    LeText(a.name, b.name)
  }

  predicate LeBucket(a: Bucket, b: Bucket) {
    LeText(a.key, b.key)
  }

  /** sorted(buckets), and the keys sorted in each */
  function InOrder(groups: seq<Group>): (r: seq<Group>)
    ensures |r| == |groups|
    ensures forall i :: 0 <= i < |groups| ==>
              r[i] == Sort(groups, LeGroup)[i].(buckets := Sort(Sort(groups, LeGroup)[i].buckets, LeBucket))
  {
    var s := Sort(groups, LeGroup);
    seq(|s|, i requires 0 <= i < |s| => s[i].(buckets := Sort(s[i].buckets, LeBucket)))
  }

  /** The stages named in a server's COPY lines. */
  method DockerfileLayers(server: string, groups: seq<Group>) returns (stages: seq<string>)
    ensures stages == Layers(server, InOrder(groups))
  {
    hide Split, Sort, StageName;
    var sorted := InOrder(groups);
    stages := [];
    for g := 0 to |sorted|
      invariant stages == Layers(server, sorted[..g])
    {
      assert sorted[..g + 1][..g] == sorted[..g];
      var group := sorted[g];
      if server !in Split(group.name) {
        continue;
      }
      ghost var before := stages;
      for k := 0 to |group.buckets|
        invariant stages == before + Stages(group.name, group.buckets)[..k]
      {
        stages := stages + [StageName(group.name, group.buckets[k].key)];
      }
    }
    assert sorted[..|sorted|] == sorted;
  }

  function Subscribed(items: seq<Item>, server: string): (r: seq<Item>)
    ensures forall x :: x in r <==> x in items && server in x.servers
  {
    if items == [] then []
    else
      var r, last := Subscribed(items[..|items| - 1], server), items[|items| - 1];
      assert items == items[..|items| - 1] + [last];
      if server in last.servers then r + [last] else r
  }

  /** The ids a server's manifest lists. */
  function Manifest(lock: Lock, server: string): seq<string> {
    SortedIds(Subscribed(lock.items, server))
  }
}
