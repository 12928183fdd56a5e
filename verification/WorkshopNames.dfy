/** Groups, buckets, stages and their order, spelled out. */
module WorkshopNames {
  import opened Sorting
  import opened TextOrder
  import opened WorkshopLock
  import opened WorkshopLaws

  // ---- Text order ----

  /** a is the beginning of b, or has the smaller character at the first place where they differ. */
  ghost predicate NotAfter(a: string, b: string) {
    exists i: nat :: DiffersAt(a, b, i)
  }

  predicate DiffersAt(a: string, b: string, i: nat) {
    i <= |a| && i <= |b| && a[..i] == b[..i] && (i == |a| || (i < |b| && a[i] < b[i]))
  }

  lemma {:induction false} TextExactly(a: string, b: string)
    ensures LeText(a, b) <==> NotAfter(a, b)
  {
    var before := (x: char, y: char) => x < y;
    LexicographicExactly(a, b, before);
    if LeText(a, b) {
      var i: nat :| SplitsAt(a, b, i, before);
      assert DiffersAt(a, b, i);
    }
    if NotAfter(a, b) {
      var i: nat :| DiffersAt(a, b, i);
      assert SplitsAt(a, b, i, before);
    }
  }

  lemma {:induction false} TextIsOrder()
    ensures Total(LeText) && Transitive(LeText) && TellsApart(LeText)
  {
    hide Lexicographic;
    var before := (x: char, y: char) => x < y;
    assert Strict(before);
    forall a, b ensures LeText(a, b) || LeText(b, a) {
      LexicographicTotal(a, b, before);
    }
    forall a, b, c | LeText(a, b) && LeText(b, c) ensures LeText(a, c) {
      LexicographicTwice(a, b, c, before);
    }
    forall a, b | LeText(a, b) && LeText(b, a) ensures a == b {
      LexicographicTwice(a, b, a, before);
    }
  }

  // ---- Groups ----

  /** The names in text order, each of them as often as given. */
  ghost predicate InTextOrder(names: seq<string>, servers: seq<string>) {
    multiset(names) == multiset(servers) && forall i :: 0 < i < |names| ==> NotAfter(names[i - 1], names[i])
  }

  /** The names, with a hyphen between each two. */
  function Hyphenated(names: seq<string>): string {
    if |names| == 0 then "" else if |names| == 1 then names[0]
    else Hyphenated(names[..|names| - 1]) + "-" + names[|names| - 1]
  }

  lemma {:induction false} JoinIsHyphenated(names: seq<string>)
    ensures Join(names) == Hyphenated(names)
    decreases |names|
  {
    if |names| > 1 {
      var n := |names| - 1;
      JoinLast(names[..n], names[n]);
      assert names[..n] + [names[n]] == names;
      JoinIsHyphenated(names[..n]);
    }
  }

  lemma {:induction false} JoinLast(names: seq<string>, last: string)
    requires names != []
    ensures Join(names + [last]) == Join(names) + "-" + last
    decreases |names|
  {
    if |names| == 1 {
      assert (names + [last])[1..] == [last];
    } else {
      assert (names + [last])[1..] == names[1..] + [last];
      JoinLast(names[1..], last);
    }
  }

  /** An item's group is named after its subscribers in text order. */
  lemma {:induction false} GroupInWords(x: Item, names: seq<string>)
    requires InTextOrder(names, x.servers)
    ensures GroupName(x) == Hyphenated(names)
  {
    hide Lexicographic, NotAfter, Sort, Hyphenated, Join;
    forall i | 0 < i < |names| ensures LeText(names[i - 1], names[i]) {
      TextExactly(names[i - 1], names[i]);
    }
    TextIsOrder();
    SortedAs(x.servers, names, LeText);
    JoinIsHyphenated(names);
  }

  // ---- Numbers ----

  predicate IsDigit(c: char) {
    '0' <= c <= '9'
  }

  predicate Digits(s: string) {
    s != "" && forall i :: 0 <= i < |s| ==> IsDigit(s[i])
  }

  /** The number that digits spell. */
  function Value(s: string): int {
    if s == "" then 0 else 10 * Value(s[..|s| - 1]) + (s[|s| - 1] as int - 48)
  }

  lemma {:induction false} ValueIsNumber(s: string)
    requires s == "" || Digits(s)
    ensures Number(s) == Value(s)
  {
    if s != "" {
      assert IsDigit(s[|s| - 1]);
      assert forall i :: 0 <= i < |s| - 1 ==> s[..|s| - 1][i] == s[i];
      ValueIsNumber(s[..|s| - 1]);
    }
  }

  /** n in digits, without zeros in front except for one where there would be fewer than two digits. */
  predicate Spells(s: string, n: nat) {
    Digits(s) && Value(s) == n && |s| >= 2 && (|s| > 2 ==> s[0] != '0')
  }

  lemma {:induction false} DecimalSpells(n: nat)
    ensures Digits(Decimal(n)) && Value(Decimal(n)) == n
    ensures n < 10 <==> |Decimal(n)| == 1
    ensures n >= 10 ==> Decimal(n)[0] != '0'
    ensures n > 0 ==> Decimal(n)[0] != '0'
  {
    DigitIs(n % 10);
    if n < 10 {
      assert Decimal(n)[..0] == "" && Value("") == 0;
    } else {
      DecimalSpells(n / 10);
      assert Decimal(n)[..|Decimal(n)| - 1] == Decimal(n / 10);
    }
  }

  lemma {:induction false} DigitIs(n: nat)
    requires n < 10
    ensures IsDigit(Digit(n)) && Digit(n) as int - 48 == n
  {
    assert forall i :: 0 <= i < 10 ==> "0123456789"[i] as int == 48 + i;
  }

  lemma {:induction false} TwoDigitsSpell(n: nat)
    ensures Spells(TwoDigits(n), n)
  {
    hide Decimal;
    DecimalSpells(n);
    if n < 10 {
      var s := Decimal(n);
      var t := "0" + s;
      assert t[1] == s[0] && t[0] == '0';
      assert t[..1] == "0" && t[..1][..0] == "" && s[..0] == "";
      assert Value("") == 0;
      assert Value(t[..1]) == 0;
      assert Value(s) == s[0] as int - 48;
    }
  }

  // ---- Buckets ----

  /** Every item lies in the group of its subscribers: alone under its own id where it has at least as many bytes as
      the lock's limit and that is not 0, and else under the hash of its id modulo the group's count of buckets. */
  lemma {:induction false} BucketInWords(lock: Lock, hash: Hash, x: Item, names: seq<string>, key: string)
    requires CanPartition(lock) && x in lock.items && InTextOrder(names, x.servers)
    requires Hyphenated(names) in lock.buckets
             && (if lock.solo > 0 && x.size >= lock.solo then key == x.id
                 else lock.buckets[Hyphenated(names)] > 0
                      && key == TwoDigits(hash(x.id) % lock.buckets[Hyphenated(names)]))
    ensures Holds(Partitioned(lock, hash), Hyphenated(names), key, x.id)
    ensures !(lock.solo > 0 && x.size >= lock.solo) ==>
              Spells(key, hash(x.id) % lock.buckets[Hyphenated(names)])
  {
    hide GroupName, Partitioned, Holds, InTextOrder, Hyphenated, TwoDigits, Spells, CanPartition;
    GroupInWords(x, names);
    ItemIsHeld(lock, hash, x);
    if !(lock.solo > 0 && x.size >= lock.solo) {
      TwoDigitsSpell(hash(x.id) % lock.buckets[Hyphenated(names)]);
    }
  }

  /** It raises exactly where a group has no count, or the count 0 and an item below the limit. */
  lemma {:induction false} RaisesExactly(lock: Lock)
    ensures !CanPartition(lock) <==>
            exists x :: x in lock.items && (GroupName(x) !in lock.buckets
                          || (lock.buckets[GroupName(x)] == 0 && (lock.solo == 0 || x.size < lock.solo)))
  {
    hide GroupName;
    if !CanPartition(lock) {
      var i :| 0 <= i < |lock.items| && !Countable(lock, lock.items[i]);
      assert lock.items[i] in lock.items;
    }
    if x :| x in lock.items && (GroupName(x) !in lock.buckets
              || (lock.buckets[GroupName(x)] == 0 && (lock.solo == 0 || x.size < lock.solo))) {
      var i :| 0 <= i < |lock.items| && lock.items[i] == x;
      assert !Countable(lock, lock.items[i]);
    }
  }

  /** What a stage is called. */
  lemma {:induction false} StageInWords(group: string, key: string)
    ensures StageName(group, key) == "ws-" + group + "-" + key
  {
  }

  // ---- Order ----

  lemma {:induction false} InOrderAt(s: seq<string>, i: nat)
    requires Sorted(s, LeNumber) && i < |s| && forall j :: 0 <= j < |s| ==> Digits(s[j])
    ensures i > 0 ==> Value(s[i - 1]) <= Value(s[i])
  {
    hide Digits, Number, Value;
    if i > 0 {
      ValueIsNumber(s[i - 1]);
      ValueIsNumber(s[i]);
    }
  }

  /** The ids of the manifest go up as numbers, not as texts. */
  lemma {:induction false} ManifestGoesUp(lock: Lock, server: string, i: nat)
    requires forall x :: x in lock.items ==> Digits(x.id)
    requires 0 < i < |Manifest(lock, server)|
    ensures var m := Manifest(lock, server);
            Digits(m[i - 1]) && Digits(m[i]) && Value(m[i - 1]) <= Value(m[i])
  {
    hide Digits, SortedIds, Value, Number, LeNumber, Sorted, Subscribed;
    var m := Manifest(lock, server);
    forall j | 0 <= j < |m| ensures Digits(m[j]) {
      IdsMember(Subscribed(lock.items, server), m[j]);
    }
    ManifestAscends(lock, server);
    InOrderAt(m, i);
  }

  /** So do the ids of every bucket. */
  lemma {:induction false} BucketGoesUp(lock: Lock, hash: Hash, g: nat, b: nat, i: nat)
    requires forall x :: x in lock.items ==> Digits(x.id)
    requires g < |Partitioned(lock, hash)| && b < |Partitioned(lock, hash)[g].buckets|
    requires 0 < i < |Partitioned(lock, hash)[g].buckets[b].ids|
    ensures var m := Partitioned(lock, hash)[g].buckets[b].ids;
            Digits(m[i - 1]) && Digits(m[i]) && Value(m[i - 1]) <= Value(m[i])
  {
    hide Digits, SortedIds, Value, Number, LeNumber, Sorted, Those, Partitioned, GroupName, KeyOf;
    BucketIsCell(lock, hash, g, b);
    var group := Partitioned(lock, hash)[g];
    var m := group.buckets[b].ids;
    forall j | 0 <= j < |m| ensures Digits(m[j]) {
      IdsMember(Cell(lock, hash, group.name, group.buckets[b].key), m[j]);
    }
    InOrderAt(m, i);
  }

  lemma {:induction false} GroupsAreTotal()
    ensures Total(LeGroup) && Total(LeBucket)
  {
    hide Lexicographic;
    TextIsOrder();
    forall a, b ensures LeGroup(a, b) || LeGroup(b, a) {
      assert LeText(a.name, b.name) || LeText(b.name, a.name);
    }
    forall a, b ensures LeBucket(a, b) || LeBucket(b, a) {
      assert LeText(a.key, b.key) || LeText(b.key, a.key);
    }
  }

  /** A server's COPY lines go through the groups in the order of their names and through each group's buckets in the
      order of their keys. */
  lemma {:induction false} LayersInTextOrder(groups: seq<Group>, i: nat, j: nat)
    ensures 0 < i < |InOrder(groups)| ==> NotAfter(InOrder(groups)[i - 1].name, InOrder(groups)[i].name)
    ensures i < |InOrder(groups)| && 0 < j < |InOrder(groups)[i].buckets| ==>
              NotAfter(InOrder(groups)[i].buckets[j - 1].key, InOrder(groups)[i].buckets[j].key)
  {
    hide NotAfter, Sort, LeText, Total;
    var o, s := InOrder(groups), Sort(groups, LeGroup);
    GroupsAreTotal();
    SortSorts(groups, LeGroup);
    if 0 < i < |o| {
      assert LeGroup(s[i - 1], s[i]);
      TextExactly(o[i - 1].name, o[i].name);
    }
    if i < |o| && 0 < j < |o[i].buckets| {
      SortSorts(s[i].buckets, LeBucket);
      assert LeBucket(o[i].buckets[j - 1], o[i].buckets[j]);
      TextExactly(o[i].buckets[j - 1].key, o[i].buckets[j].key);
    }
  }
}
