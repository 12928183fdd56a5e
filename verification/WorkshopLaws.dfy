/** What the lock's users rely on: every item in one bucket, layers that agree with the manifest, and buckets
    that stay as they are when an item is added. */
module WorkshopLaws {
  import opened Sorting
  import opened WorkshopLock

  /** Item ids are the keys of a dictionary. */
  predicate DistinctIds(items: seq<Item>) {
    forall i, j :: 0 <= i < j < |items| ==> items[i].id != items[j].id
  }

  // ---- Splitting undoes joining ----

  predicate HyphenFree(names: seq<string>) {
    forall i :: 0 <= i < |names| ==> HYPHEN !in names[i]
  }

  lemma {:induction false} HyphenFound(a: string, b: string)
    requires HYPHEN !in a
    ensures HyphenAt(a + [HYPHEN] + b) == |a| && HyphenAt(a) == |a|
  {
    hide HyphenAt;
    var s := a + [HYPHEN] + b;
    assert s[|a|] == HYPHEN && forall j :: 0 <= j < |a| ==> s[j] == a[j];
  }

  lemma {:induction false} SplitUndoesJoin(names: seq<string>)
    requires names != [] && HyphenFree(names)
    ensures Split(Join(names)) == names
    decreases |names|
  {
    hide HyphenAt;
    assert HYPHEN !in names[0];
    if |names| == 1 {
      HyphenFound(names[0], []);
    } else {
      var more := Join(names[1..]);
      assert forall i :: 0 <= i < |names| - 1 ==> names[1..][i] == names[i + 1];
      SplitUndoesJoin(names[1..]);
      HyphenFound(names[0], more);
      var s := names[0] + [HYPHEN] + more;
      assert s[..|names[0]|] == names[0] && s[|names[0]| + 1..] == more;
      assert names == [names[0]] + names[1..];
    }
  }

  // ---- Bucket contents ----

  predicate Holds(groups: seq<Group>, g: string, k: string, id: string) {
    exists i, j :: 0 <= i < |groups| && 0 <= j < |groups[i].buckets| && InBucket(groups, i, j, g, k, id)
  }

  predicate InBucket(groups: seq<Group>, i: nat, j: nat, g: string, k: string, id: string)
    requires i < |groups| && j < |groups[i].buckets|
  {
    groups[i].name == g && groups[i].buckets[j].key == k && id in groups[i].buckets[j].ids
  }

  /** The items of one group and key. */
  function Cell(lock: Lock, hash: Hash, g: string, k: string): seq<Item> {
    Those(Those(lock.items, GroupName, g), Keyer(lock, hash), k)
  }

  lemma {:induction false} IdsMember(items: seq<Item>, id: string)
    ensures id in SortedIds(items) <==> exists x :: x in items && x.id == id
  {
    hide Sort;
    SortMembers(Ids(items), LeNumber);
    if id in Ids(items) {
      var i :| 0 <= i < |items| && Ids(items)[i] == id;
      assert items[i] in items;
    }
    if x :| x in items && x.id == id {
      var i :| 0 <= i < |items| && items[i] == x;
      assert Ids(items)[i] == id;
    }
  }

  lemma {:induction false} HeldIsItem(lock: Lock, hash: Hash, g: string, k: string, id: string)
    requires Holds(Partitioned(lock, hash), g, k, id)
    ensures exists x :: x in lock.items && x.id == id && GroupName(x) == g && KeyOf(lock, hash, x) == k
  {
    hide Sort, GroupName, KeyOf, Firsts, Those, SortedIds;
    var groups := Partitioned(lock, hash);
    var i, j :| 0 <= i < |groups| && 0 <= j < |groups[i].buckets| && InBucket(groups, i, j, g, k, id);
    IdsMember(Cell(lock, hash, g, k), id);
  }

  lemma {:induction false} ItemIsHeld(lock: Lock, hash: Hash, x: Item)
    requires x in lock.items
    ensures Holds(Partitioned(lock, hash), GroupName(x), KeyOf(lock, hash, x), x.id)
  {
    hide Sort, GroupName, KeyOf, Firsts, Those, SortedIds;
    var groups, g, k := Partitioned(lock, hash), GroupName(x), KeyOf(lock, hash, x);
    var names := Firsts(lock.items, GroupName);
    assert g in names;
    var i :| 0 <= i < |names| && names[i] == g;
    var items := Those(lock.items, GroupName, g);
    assert x in items && Keyer(lock, hash)(x) == k;
    var keys := Firsts(items, Keyer(lock, hash));
    assert k in keys;
    SortMembers(keys, LeText);
    var sorted := Sort(keys, LeText);
    var j :| 0 <= j < |sorted| && sorted[j] == k;
    IdsMember(Cell(lock, hash, g, k), x.id);
    assert InBucket(groups, i, j, g, k, x.id);
  }

  /** A bucket holds an id exactly where an item of that id has the bucket's group and key. */
  lemma {:induction false} HoldsExactly(lock: Lock, hash: Hash, g: string, k: string, id: string)
    ensures Holds(Partitioned(lock, hash), g, k, id) <==>
            exists x :: x in lock.items && x.id == id && GroupName(x) == g && KeyOf(lock, hash, x) == k
  {
    hide Holds, GroupName, KeyOf, Partitioned;
    if Holds(Partitioned(lock, hash), g, k, id) {
      HeldIsItem(lock, hash, g, k, id);
    }
    if x :| x in lock.items && x.id == id && GroupName(x) == g && KeyOf(lock, hash, x) == k {
      ItemIsHeld(lock, hash, x);
    }
  }

  /** Every item is in one bucket and in no other. */
  lemma {:induction false} ExactlyOneBucket(lock: Lock, hash: Hash, x: Item)
    requires DistinctIds(lock.items) && x in lock.items
    ensures forall g, k ::
              Holds(Partitioned(lock, hash), g, k, x.id) <==> g == GroupName(x) && k == KeyOf(lock, hash, x)
  {
    hide Holds, GroupName, KeyOf, Partitioned;
    forall g, k ensures Holds(Partitioned(lock, hash), g, k, x.id) <==> g == GroupName(x) && k == KeyOf(lock, hash, x) {
      HoldsExactly(lock, hash, g, k, x.id);
      if y :| y in lock.items && y.id == x.id && GroupName(y) == g && KeyOf(lock, hash, y) == k {
        SameId(lock.items, x, y);
      }
    }
  }

  lemma {:induction false} SameId(items: seq<Item>, x: Item, y: Item)
    requires DistinctIds(items) && x in items && y in items && x.id == y.id
    ensures x == y
  {
    var i :| 0 <= i < |items| && items[i] == x;
    var j :| 0 <= j < |items| && items[j] == y;
  }

  // ---- Layers and manifest ----

  lemma {:induction false} DecimalDigits(n: nat)
    ensures HYPHEN !in Decimal(n)
  {
    if n >= 10 {
      DecimalDigits(n / 10);
      DigitChar(n % 10);
    } else {
      DigitChar(n);
    }
  }

  lemma {:induction false} DigitChar(n: nat)
    requires n < 10
    ensures Digit(n) != HYPHEN
  {
    assert forall i :: 0 <= i < 10 ==> "0123456789"[i] != HYPHEN;
  }

  /** Ids are digits, so without a hyphen: int() raises on anything else, and subscriptions are filtered for them. */
  predicate PlainIds(items: seq<Item>) {
    forall x :: x in items ==> HYPHEN !in x.id
  }

  lemma {:induction false} KeysHyphenFree(lock: Lock, hash: Hash, x: Item)
    requires HYPHEN !in x.id
    ensures HYPHEN !in KeyOf(lock, hash, x)
  {
    hide Decimal, Solo, BucketCount;
    if !Solo(lock, x) && BucketCount(lock, x) != 0 {
      DecimalDigits(hash(x.id) % BucketCount(lock, x));
    }
  }

  /** No two buckets have one stage name, as no key has a hyphen. */
  lemma {:induction false} StagesDiffer(g: string, k: string, g': string, k': string)
    requires HYPHEN !in k && HYPHEN !in k' && StageName(g, k) == StageName(g', k')
    ensures g == g' && k == k'
  {
    var s := StageName(g, k);
    assert s[3..] == g + [HYPHEN] + k && s[3..] == g' + [HYPHEN] + k';
    LastHyphen(g, k, g', k');
  }

  lemma {:induction false} LastHyphen(g: string, k: string, g': string, k': string)
    requires HYPHEN !in k && HYPHEN !in k' && g + [HYPHEN] + k == g' + [HYPHEN] + k'
    ensures g == g' && k == k'
  {
    var s, t := g + [HYPHEN] + k, g' + [HYPHEN] + k';
    AtMost(g, k, g', k');
    AtMost(g', k', g, k);
    assert s[..|g|] == g && t[..|g|] == g' && s[|g| + 1..] == k && t[|g| + 1..] == k';
  }

  lemma {:induction false} AtMost(g: string, k: string, g': string, k': string)
    requires HYPHEN !in k && g + [HYPHEN] + k == g' + [HYPHEN] + k'
    ensures |g'| <= |g|
  {
    var s := g + [HYPHEN] + k;
    assert s[|g'|] == (g' + [HYPHEN] + k')[|g'|] == HYPHEN;
    forall i | |g| < i < |s| ensures s[i] != HYPHEN {
      assert s[i] == k[i - |g| - 1];
    }
  }

  /** A stage some group's bucket gives. */
  predicate Copied(server: string, groups: seq<Group>, stage: string) {
    exists i, j :: 0 <= i < |groups| && 0 <= j < |groups[i].buckets| && server in Split(groups[i].name)
                   && StageName(groups[i].name, groups[i].buckets[j].key) == stage
  }

  lemma {:induction false} LayersExactly(server: string, groups: seq<Group>, stage: string)
    ensures stage in Layers(server, groups) <==> Copied(server, groups, stage)
  {
    hide Split, StageName;
    if groups != [] {
      var n := |groups| - 1;
      var g := groups[n];
      LayersExactly(server, groups[..n], stage);
      if Copied(server, groups[..n], stage) {
        var i, j :| 0 <= i < n && 0 <= j < |groups[..n][i].buckets| && server in Split(groups[..n][i].name)
                    && StageName(groups[..n][i].name, groups[..n][i].buckets[j].key) == stage;
        assert groups[i] == groups[..n][i];
      }
      if server in Split(g.name) && stage in Stages(g.name, g.buckets) {
        var j :| 0 <= j < |g.buckets| && Stages(g.name, g.buckets)[j] == stage;
        assert StageName(groups[n].name, groups[n].buckets[j].key) == stage;
      }
      if Copied(server, groups, stage) {
        var i, j :| 0 <= i < |groups| && 0 <= j < |groups[i].buckets| && server in Split(groups[i].name)
                    && StageName(groups[i].name, groups[i].buckets[j].key) == stage;
        if i < n {
          assert groups[..n][i] == groups[i];
        } else {
          assert Stages(g.name, g.buckets)[j] == stage;
        }
      }
    }
  }

  /** Sorting the groups and their buckets changes nothing about what is copied. */
  lemma {:induction false} OrderCopies(server: string, groups: seq<Group>, stage: string)
    ensures Copied(server, InOrder(groups), stage) <==> Copied(server, groups, stage)
  {
    hide Split, StageName, Sort, LeGroup, LeBucket;
    var o, s := InOrder(groups), Sort(groups, LeGroup);
    SortMembers(groups, LeGroup);
    if Copied(server, o, stage) {
      var i, j :| 0 <= i < |o| && 0 <= j < |o[i].buckets| && server in Split(o[i].name)
                  && StageName(o[i].name, o[i].buckets[j].key) == stage;
      assert s[i] in groups;
      var i' :| 0 <= i' < |groups| && groups[i'] == s[i];
      SortMembers(s[i].buckets, LeBucket);
      assert o[i].buckets[j] in s[i].buckets;
      var j' :| 0 <= j' < |s[i].buckets| && s[i].buckets[j'] == o[i].buckets[j];
      assert StageName(groups[i'].name, groups[i'].buckets[j'].key) == stage;
    }
    if Copied(server, groups, stage) {
      var i, j :| 0 <= i < |groups| && 0 <= j < |groups[i].buckets| && server in Split(groups[i].name)
                  && StageName(groups[i].name, groups[i].buckets[j].key) == stage;
      assert groups[i] in s;
      var i' :| 0 <= i' < |s| && s[i'] == groups[i];
      SortMembers(s[i'].buckets, LeBucket);
      assert s[i'].buckets[j] in Sort(s[i'].buckets, LeBucket);
      var j' :| 0 <= j' < |o[i'].buckets| && o[i'].buckets[j'] == s[i'].buckets[j];
      assert StageName(o[i'].name, o[i'].buckets[j'].key) == stage;
    }
  }

  /** An id is in a stage that the server's layers name. */
  ghost predicate Reached(lock: Lock, hash: Hash, server: string, id: string) {
    exists g, k :: StageName(g, k) in Layers(server, InOrder(Partitioned(lock, hash)))
        && Holds(Partitioned(lock, hash), g, k, id)
  }

  /** An id is reached exactly where the server is one of the parts of its group's name. */
  lemma {:induction false} ReachedExactly(lock: Lock, hash: Hash, server: string, x: Item)
    requires DistinctIds(lock.items) && PlainIds(lock.items) && x in lock.items
    ensures Reached(lock, hash, server, x.id) <==> server in Split(GroupName(x))
  {
    hide Split, StageName, Sort, GroupName, KeyOf, Partitioned, InOrder, Layers, Holds, Copied;
    var groups := Partitioned(lock, hash);
    var g, k := GroupName(x), KeyOf(lock, hash, x);
    ExactlyOneBucket(lock, hash, x);
    LayersExactly(server, InOrder(groups), StageName(g, k));
    OrderCopies(server, groups, StageName(g, k));
    OwnStageCopied(lock, hash, server, x);
  }

  lemma {:induction false} OwnStageCopied(lock: Lock, hash: Hash, server: string, x: Item)
    requires PlainIds(lock.items) && x in lock.items
    ensures Copied(server, Partitioned(lock, hash), StageName(GroupName(x), KeyOf(lock, hash, x)))
            <==> server in Split(GroupName(x))
  {
    hide Split, StageName, GroupName, KeyOf, Partitioned;
    var groups := Partitioned(lock, hash);
    var g, k := GroupName(x), KeyOf(lock, hash, x);
    KeysHyphenFree(lock, hash, x);
    HoldsExactly(lock, hash, g, k, x.id);
    var a, b :| 0 <= a < |groups| && 0 <= b < |groups[a].buckets| && InBucket(groups, a, b, g, k, x.id);
    assert StageName(groups[a].name, groups[a].buckets[b].key) == StageName(g, k);
    if Copied(server, groups, StageName(g, k)) {
      var i, j :| 0 <= i < |groups| && 0 <= j < |groups[i].buckets| && server in Split(groups[i].name)
                  && StageName(groups[i].name, groups[i].buckets[j].key) == StageName(g, k);
      BucketKey(lock, hash, i, j);
      StagesDiffer(groups[i].name, groups[i].buckets[j].key, g, k);
    }
  }

  /** No bucket is empty, so no key but an item's own. */
  lemma {:induction false} BucketKey(lock: Lock, hash: Hash, i: nat, j: nat)
    requires PlainIds(lock.items) && i < |Partitioned(lock, hash)| && j < |Partitioned(lock, hash)[i].buckets|
    ensures HYPHEN !in Partitioned(lock, hash)[i].buckets[j].key
  {
    hide Sort, GroupName, KeyOf, Firsts, Those, SortedIds;
    var g := Partitioned(lock, hash)[i].name;
    var items := Those(lock.items, GroupName, g);
    var keys := Firsts(items, Keyer(lock, hash));
    SortMembers(keys, LeText);
    assert Sort(keys, LeText)[j] in keys;
    var x :| x in items && Keyer(lock, hash)(x) == Sort(keys, LeText)[j];
    KeysHyphenFree(lock, hash, x);
  }

  function Servers(items: seq<Item>): (r: set<string>)
    ensures forall s :: s in r <==> exists x :: x in items && s in x.servers
  {
    set x, s | x in items && s in x.servers :: s
  }

  /** The ids behind every server's COPY lines are the ids its manifest lists. */
  ghost predicate LayersAgree(lock: Lock, hash: Hash) {
    forall s, x :: s in Servers(lock.items) && x in lock.items ==>
      (Reached(lock, hash, s, x.id) <==> x.id in Manifest(lock, s))
  }

  lemma {:induction false} ManifestExactly(lock: Lock, server: string, x: Item)
    requires DistinctIds(lock.items) && x in lock.items
    ensures x.id in Manifest(lock, server) <==> server in x.servers
  {
    hide SortedIds, Subscribed;
    IdsMember(Subscribed(lock.items, server), x.id);
    if y :| y in Subscribed(lock.items, server) && y.id == x.id {
      SameId(lock.items, x, y);
    }
  }

  lemma {:induction false} SubscriberFound(x: Item, s: string)
    requires x.servers != [] && HyphenFree(x.servers)
    ensures s in Split(GroupName(x)) <==> s in x.servers
  {
    hide Sort, Split, Join;
    var names := Sort(x.servers, LeText);
    SortMembers(x.servers, LeText);
    assert names != [];
    forall i | 0 <= i < |names| ensures HYPHEN !in names[i] {
      assert names[i] in x.servers;
    }
    SplitUndoesJoin(names);
  }

  /** Layers and manifests agree if and only if no subscriber's name has a hyphen: a name with one is never a
      part of a group's name, so its server copies nothing of what its manifest lists. */
  lemma {:induction false} LayersAgreeExactly(lock: Lock, hash: Hash)
    requires DistinctIds(lock.items) && PlainIds(lock.items) && forall x :: x in lock.items ==> x.servers != []
    ensures LayersAgree(lock, hash) <==> forall s :: s in Servers(lock.items) ==> HYPHEN !in s
  {
    hide Reached, Manifest, Split, GroupName, Servers;
    forall s, x | s in Servers(lock.items) && x in lock.items
      ensures Reached(lock, hash, s, x.id) <==> s in Split(GroupName(x))
      ensures x.id in Manifest(lock, s) <==> s in x.servers
    {
      ReachedExactly(lock, hash, s, x);
      ManifestExactly(lock, s, x);
    }
    if forall s :: s in Servers(lock.items) ==> HYPHEN !in s {
      forall s, x | s in Servers(lock.items) && x in lock.items ensures s in Split(GroupName(x)) <==> s in x.servers {
        assert forall t :: t in x.servers ==> t in Servers(lock.items);
        SubscriberFound(x, s);
      }
    }
    if LayersAgree(lock, hash) {
      forall s | s in Servers(lock.items) ensures HYPHEN !in s {
        var x :| x in lock.items && s in x.servers;
        assert s in Split(GroupName(x));
      }
    }
  }

  // ---- Adding an item ----

  lemma {:induction false} ThoseConcat(a: seq<Item>, b: seq<Item>, name: Item -> string, n: string)
    ensures Those(a + b, name, n) == Those(a, name, n) + Those(b, name, n)
    decreases |b|
  {
    if b == [] {
      assert a + b == a;
    } else {
      var m := |b| - 1;
      assert (a + b)[..|a + b| - 1] == a + b[..m];
      ThoseConcat(a, b[..m], name, n);
    }
  }

  lemma {:induction false} ThoseOne(x: Item, name: Item -> string, n: string)
    ensures Those([x], name, n) == if name(x) == n then [x] else []
  {
    assert [x][..0] == [];
  }

  /** The same items go by the same keys when only the items of the lock change. */
  lemma {:induction false} ThoseSame(items: seq<Item>, f: Item -> string, g: Item -> string, n: string)
    requires forall x :: f(x) == g(x)
    ensures Those(items, f, n) == Those(items, g, n)
  {
    if items != [] {
      ThoseSame(items[..|items| - 1], f, g, n);
    }
  }

  /** Wherever an item is added, every bucket but its own holds what it held, in the order it had, and its own
      gains the item and loses none. */
  lemma {:induction false} AddingTouchesOneBucket(lock: Lock, hash: Hash, p: nat, x: Item, g: string, k: string)
    requires p <= |lock.items|
    ensures var bigger := lock.(items := lock.items[..p] + [x] + lock.items[p..]);
            var before, after := SortedIds(Cell(lock, hash, g, k)), SortedIds(Cell(bigger, hash, g, k));
            && (g != GroupName(x) || k != KeyOf(lock, hash, x) ==> after == before)
            && (g == GroupName(x) && k == KeyOf(lock, hash, x) ==> multiset(after) == multiset(before) + multiset{x.id})
  {
    hide Sort, GroupName, KeyOf, Those;
    var bigger := lock.(items := lock.items[..p] + [x] + lock.items[p..]);
    var a, b, key := lock.items[..p], lock.items[p..], Keyer(lock, hash);
    assert a + b == lock.items;
    SameKeys(lock, bigger, hash);
    ThoseConcat(a, b, GroupName, g);
    ThoseConcat(a + [x], b, GroupName, g);
    ThoseConcat(a, [x], GroupName, g);
    ThoseOne(x, GroupName, g);
    var ga, gb := Those(a, GroupName, g), Those(b, GroupName, g);
    var group := Those(bigger.items, GroupName, g);
    ThoseSame(group, Keyer(bigger, hash), key, k);
    ThoseConcat(ga, gb, key, k);
    if g == GroupName(x) {
      assert group == ga + [x] + gb;
      ThoseConcat(ga + [x], gb, key, k);
      ThoseConcat(ga, [x], key, k);
      ThoseOne(x, key, k);
      if k == KeyOf(lock, hash, x) {
        var ca, cb := Those(ga, key, k), Those(gb, key, k);
        OneMoreId(ca, x, cb);
      } else {
        assert Those(ga, key, k) + [] == Those(ga, key, k);
      }
    } else {
      assert ga + [] == ga;
    }
  }

  lemma {:induction false} OneMoreId(a: seq<Item>, x: Item, b: seq<Item>)
    ensures multiset(SortedIds(a + [x] + b)) == multiset(SortedIds(a + b)) + multiset{x.id}
  {
    hide Sort;
    assert Ids(a + [x] + b) == Ids(a) + [x.id] + Ids(b);
    assert Ids(a + b) == Ids(a) + Ids(b);
  }

  lemma {:induction false} SameKeys(lock: Lock, bigger: Lock, hash: Hash)
    requires bigger == lock.(items := bigger.items)
    ensures forall x :: Keyer(lock, hash)(x) == Keyer(bigger, hash)(x)
  {
    hide GroupName, TwoDigits;
  }

  /** A bucket's list is its cell, sorted. */
  lemma {:induction false} BucketIsCell(lock: Lock, hash: Hash, i: nat, j: nat)
    requires i < |Partitioned(lock, hash)| && j < |Partitioned(lock, hash)[i].buckets|
    ensures var g, b := Partitioned(lock, hash)[i], Partitioned(lock, hash)[i].buckets[j];
            b.ids == SortedIds(Cell(lock, hash, g.name, b.key)) && Sorted(b.ids, LeNumber) && b.ids != []
  {
    hide Sort, GroupName, KeyOf, Firsts, Those, LeNumber, Sorted;
    var g := Partitioned(lock, hash)[i];
    var b := g.buckets[j];
    var items := Those(lock.items, GroupName, g.name);
    var keys := Firsts(items, Keyer(lock, hash));
    NumbersAreTotal();
    SortSorts(Ids(Cell(lock, hash, g.name, b.key)), LeNumber);
    SortMembers(keys, LeText);
    assert Sort(keys, LeText)[j] in keys;
    var x :| x in items && Keyer(lock, hash)(x) == b.key;
    assert x in Cell(lock, hash, g.name, b.key);
    IdsMember(Cell(lock, hash, g.name, b.key), x.id);
  }

  lemma {:induction false} NumbersAreTotal()
    ensures Total(LeNumber)
  {
  }

  /** The manifest lists its ids in ascending order. */
  lemma {:induction false} ManifestAscends(lock: Lock, server: string)
    ensures Sorted(Manifest(lock, server), LeNumber)
  {
    NumbersAreTotal();
    SortSorts(Ids(Subscribed(lock.items, server)), LeNumber);
  }
}
