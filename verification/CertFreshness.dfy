/** When a cached certificate is the one on disk: exactly when no file time ever comes back around other bytes. */
module CertFreshness {
  import opened Options
  import opened CertReload

  /** No time comes back around different bytes: whatever lay between two versions of one time, or was one of
      them, held the same bytes. */
  predicate NoReturn(h: seq<Version>) {
    forall i, j, k :: 0 <= i <= j <= k < |h| ==> SameBetween(h, i, j, k)
  }

  predicate SameBetween(h: seq<Version>, i: nat, j: nat, k: nat)
    requires i <= j <= k < |h|
  {
    h[i].Version? && h[j].Version? && h[k].Version? && h[i].mtime == h[k].mtime ==> h[j].data == h[k].data
  }

  /** Every replacement has a time not seen before. */
  predicate FreshTimes(h: seq<Version>) {
    forall i, j :: 0 <= i < j < |h| ==> (h[i].Version? && h[j].Version? ==> h[i].mtime != h[j].mtime)
  }

  /** One more version keeps the times fresh exactly where no version before it has its time. */
  lemma {:induction false} FreshGrows(h: seq<Version>, v: Version)
    ensures FreshTimes([])
    ensures FreshTimes(h + [v]) <==>
            FreshTimes(h) && (v.Version? ==> forall i :: 0 <= i < |h| && h[i].Version? ==> h[i].mtime != v.mtime)
  {
    var g := h + [v];
    assert forall i :: 0 <= i < |h| ==> g[i] == h[i];
    assert g[|h|] == v;
  }

  lemma {:induction false} FreshTimesNeverReturn(h: seq<Version>)
    requires FreshTimes(h)
    ensures NoReturn(h)
  {
  }

  /** A cached answer is right: its certificate and its key are the versions its call looked at. */
  predicate CachedRight(s: State, a: Answer) {
    a.fromCache ==> At(s.certs, a.certAt) == Version(Mtime(s.certs, a.certAt), a.cert)
                    && At(s.keys, a.keyAt) == Version(Mtime(s.keys, a.keyAt), a.key)
  }

  lemma {:induction false} SourcedRight(h: seq<Version>, at: nat, load: nat, from: nat, data: Data)
    requires NoReturn(h) && Sourced(h, true, at, load, from, data)
    ensures h[at].data == data
  {
    assert SameBetween(h, load, from, at);
  }

  /** Where times do not come back, every cached answer of every run is right. */
  lemma {:induction false} CachedIsWhatWasSeen(cert: Version, key: Version, schedule: seq<Action>, ok: Matches,
         a: Answer)
    requires var s := Execute(Init(cert, key), schedule, ok); NoReturn(s.certs) && NoReturn(s.keys) && a in s.log
    ensures CachedRight(Execute(Init(cert, key), schedule, ok), a)
  {
    hide Execute, NoReturn;
    InitOk(cert, key, ok);
    RunsKeep(Init(cert, key), schedule, ok);
    var s := Execute(Init(cert, key), schedule, ok);
    assert AnswerOk(s, a, ok);
    if a.fromCache {
      SourcedRight(s.certs, a.certAt, a.origin.certAt, a.origin.certFrom, a.cert);
      SourcedRight(s.keys, a.keyAt, a.origin.keyAt, a.origin.keyFrom, a.key);
    }
  }

  // ---- Once rotations stop ----

  predicate Calm(schedule: seq<Action>) {
    forall i :: 0 <= i < |schedule| ==> schedule[i].Run?
  }

  predicate Current(s: State, a: Answer) {
    s.certs != [] && s.keys != [] && At(s.certs, |s.certs| - 1) == Version(Mtime(s.certs, |s.certs| - 1), a.cert)
    && At(s.keys, |s.keys| - 1) == Version(Mtime(s.keys, |s.keys| - 1), a.key)
  }

  predicate AllThere(h: seq<Version>, i: nat, j: nat, k: nat) {
    i <= j <= k < |h| && h[i].Version? && h[j].Version? && h[k].Version?
  }

  /** A certificate and a key that match, read between two looks that see the same pair of times, are what is on
      disk at the second look. */
  predicate TimesTellAt(hc: seq<Version>, hk: seq<Version>, ok: Matches,
         i: nat, j: nat, k: nat, x: nat, y: nat, z: nat)
  {
    AllThere(hc, i, j, k) && AllThere(hk, x, y, z) &&
    hc[i].mtime == hc[k].mtime && hk[x].mtime == hk[z].mtime && ok(hc[j].data, hk[y].data) ==>
      hc[j].data == hc[k].data && hk[y].data == hk[z].data
  }

  /** Times tell about the last versions: no other matching pair was ever readable since a look that saw their
      times. */
  ghost predicate LastTells(hc: seq<Version>, hk: seq<Version>, ok: Matches)
    requires hc != [] && hk != []
  {
    forall i: nat, j: nat, x: nat, y: nat :: LastTellsAt(hc, hk, ok, i, j, x, y)
  }

  predicate LastTellsAt(hc: seq<Version>, hk: seq<Version>, ok: Matches, i: nat, j: nat, x: nat, y: nat)
    requires hc != [] && hk != []
  {
    TimesTellAt(hc, hk, ok, i, j, |hc| - 1, x, y, |hk| - 1)
  }

  /** A call that looked after the last change returns what is on disk, cached or loaded. */
  lemma {:induction false} LookedLast(s: State, a: Answer, ok: Matches)
    requires Inv(s, ok) && a in s.log && LastTells(s.certs, s.keys, ok)
    requires a.certAt == |s.certs| - 1 && a.keyAt == |s.keys| - 1
    ensures Current(s, a)
  {
    hide LastTells, Inv;
    Holder(s, 0, ok);
    AnswerIsOk(s, a, ok);
    if a.fromCache {
      var o := a.origin;
      TellsLast(s.certs, s.keys, ok, o.certAt, o.certFrom, o.keyAt, o.keyFrom);
    }
  }

  lemma {:induction false} AnswerIsOk(s: State, a: Answer, ok: Matches)
    requires Inv(s, ok) && a in s.log
    ensures AnswerOk(s, a, ok)
  {
    hide AnswerOk;
  }

  lemma {:induction false} TellsLast(hc: seq<Version>, hk: seq<Version>, ok: Matches, i: nat, j: nat, x: nat, y: nat)
    requires hc != [] && hk != [] && LastTells(hc, hk, ok)
    ensures TimesTellAt(hc, hk, ok, i, j, |hc| - 1, x, y, |hk| - 1)
  {
    hide TimesTellAt;
    assert LastTellsAt(hc, hk, ok, i, j, x, y);
  }

  /** Calls under way have looked at the last versions only. */
  predicate Looking(s: State, pc: Pc) {
    match pc
    case Idle => true
    case StatCert => true
    case StatKey(c) => c == |s.certs| - 1
    case Compare(c, k) => c == |s.certs| - 1 && k == |s.keys| - 1
    case ReadCert(c, k) => c == |s.certs| - 1 && k == |s.keys| - 1
    case ReadKey(c, k, _) => c == |s.certs| - 1 && k == |s.keys| - 1
  }

  predicate AllLooking(s: State) {
    forall t :: t in s.pcs ==> Looking(s, s.pcs[t])
  }

  /** What the calls of a calm run have looked at. */
  lemma {:induction false} CalmRun(s: State, calm: seq<Action>, ok: Matches)
    requires s.certs != [] && s.keys != [] && AllLooking(s) && Calm(calm)
    ensures var r := Execute(s, calm, ok);
            && r.certs == s.certs && r.keys == s.keys && AllLooking(r) && s.log <= r.log
            && forall i :: |s.log| <= i < |r.log| ==> r.log[i].certAt == |s.certs| - 1 && r.log[i].keyAt == |s.keys| - 1
  {
    if calm != [] {
      var n := |calm| - 1;
      assert forall i :: 0 <= i < n ==> calm[..n][i] == calm[i];
      CalmRun(s, calm[..n], ok);
      CalmStep(Execute(s, calm[..n], ok), calm[n].t, ok);
    }
  }

  lemma {:induction false} CalmStep(s: State, t: Tid, ok: Matches)
    requires s.certs != [] && s.keys != [] && AllLooking(s)
    ensures var r := RunStep(s, t, ok);
            && r.certs == s.certs && r.keys == s.keys && AllLooking(r) && s.log <= r.log
            && forall i :: |s.log| <= i < |r.log| ==> r.log[i].certAt == |s.certs| - 1 && r.log[i].keyAt == |s.keys| - 1
  {
  }

  /** Once rotations stop, every call that begins and succeeds returns the current pair, whatever went before. */
  lemma {:induction false} QuietIsCurrent(cert: Version, key: Version, before: seq<Action>, calm: seq<Action>,
         ok: Matches)
    requires Calm(calm)
    requires var s := Execute(Init(cert, key), before, ok);
             s.lock == None && s.certs != [] && s.keys != [] && LastTells(s.certs, s.keys, ok)
    ensures var s := Execute(Init(cert, key), before, ok);
            var r := Execute(s, calm, ok);
            s.log <= r.log && forall i :: |s.log| <= i < |r.log| ==> Current(r, r.log[i])
  {
    hide Execute, LastTells, Current;
    InitOk(cert, key, ok);
    RunsKeep(Init(cert, key), before, ok);
    var s := Execute(Init(cert, key), before, ok);
    RunsKeep(s, calm, ok);
    var r := Execute(s, calm, ok);
    CalmRun(s, calm, ok);
    forall i | |s.log| <= i < |r.log| ensures Current(r, r.log[i]) {
      LookedLast(r, r.log[i], ok);
    }
  }

  // ---- When times do come back ----

  lemma {:induction false} OneMore(s: State, schedule: seq<Action>, a: Action, ok: Matches)
    requires s.certs != [] && s.keys != []
    ensures Execute(s, schedule + [a], ok) == Next(Execute(s, schedule, ok), a, ok)
  {
  }

  /** A schedule that goes on to replace the certificate by these versions, one after the other. */
  lemma {:induction false} ReplacingCerts(s: State, schedule: seq<Action>, vs: seq<Version>,
         ok: Matches) returns (longer: seq<Action>)
    requires s.certs != [] && s.keys != []
    ensures var u := Execute(s, schedule, ok); Execute(s, longer, ok) == u.(certs := u.certs + vs)
  {
    hide Execute;
    var u := Execute(s, schedule, ok);
    if vs == [] {
      longer := schedule;
      assert u.certs + vs == u.certs;
    } else {
      var n := |vs| - 1;
      var most := ReplacingCerts(s, schedule, vs[..n], ok);
      longer := most + [RotateCert(vs[n])];
      OneMore(s, most, RotateCert(vs[n]), ok);
      assert u.certs + vs[..n] + [vs[n]] == u.certs + vs;
    }
  }

  lemma {:induction false} ReplacingKeys(s: State, schedule: seq<Action>, vs: seq<Version>,
         ok: Matches) returns (longer: seq<Action>)
    requires s.certs != [] && s.keys != []
    ensures var u := Execute(s, schedule, ok); Execute(s, longer, ok) == u.(keys := u.keys + vs)
  {
    hide Execute;
    var u := Execute(s, schedule, ok);
    if vs == [] {
      longer := schedule;
      assert u.keys + vs == u.keys;
    } else {
      var n := |vs| - 1;
      var most := ReplacingKeys(s, schedule, vs[..n], ok);
      longer := most + [RotateKey(vs[n])];
      OneMore(s, most, RotateKey(vs[n]), ok);
      assert u.keys + vs[..n] + [vs[n]] == u.keys + vs;
    }
  }

  /** Both files go on along their histories, up to these versions. */
  lemma {:induction false} Replacing(s: State, schedule: seq<Action>, hc: seq<Version>, hk: seq<Version>,
         j: nat, y: nat, ok: Matches) returns (longer: seq<Action>)
    requires s.certs != [] && s.keys != [] && j < |hc| && y < |hk|
    requires var u := Execute(s, schedule, ok); u.certs <= hc[..j + 1] && u.keys <= hk[..y + 1]
    ensures Execute(s, longer, ok) == Execute(s, schedule, ok).(certs := hc[..j + 1], keys := hk[..y + 1])
  {
    hide Execute;
    var u := Execute(s, schedule, ok);
    var i, x := |u.certs|, |u.keys|;
    longer := ReplacingCerts(s, schedule, hc[i..j + 1], ok);
    longer := ReplacingKeys(s, longer, hk[x..y + 1], ok);
    assert u.certs + hc[i..j + 1] == hc[..j + 1] && u.keys + hk[x..y + 1] == hk[..y + 1];
  }

  lemma {:induction false} Running(s: State, schedule: seq<Action>, n: nat, ok: Matches) returns (longer: seq<Action>)
    requires s.certs != [] && s.keys != []
    ensures Execute(s, longer, ok) == Steps(Execute(s, schedule, ok), n, ok)
    ensures Calm(schedule) ==> Calm(longer)
  {
    hide Execute;
    if n == 0 {
      longer := schedule;
    } else {
      var most := Running(s, schedule, n - 1, ok);
      longer := most + [Run(0)];
      OneMore(s, most, Run(0), ok);
    }
  }

  function Steps(s: State, n: nat, ok: Matches): (r: State)
    requires s.certs != [] && s.keys != []
    ensures r.certs == s.certs && r.keys == s.keys
  {
    if n == 0 then s else RunStep(Steps(s, n - 1, ok), 0, ok)
  }

  lemma {:induction false} FourSteps(s: State, ok: Matches)
    requires s.certs != [] && s.keys != [] && PcOf(s, 0).Idle? && s.lock == None && Last(s.certs).Version?
             && Last(s.keys).Version?
    ensures var c, k := |s.certs| - 1, |s.keys| - 1;
            var u := Goto(s, 0, Compare(c, k)).(lock := Some(0));
            Steps(s, 4, ok) == RunStep(u, 0, ok)
  {
    var a, b, d := Steps(s, 1, ok), Steps(s, 2, ok), Steps(s, 3, ok);
    assert Steps(s, 0, ok) == s;
    assert a == Goto(s, 0, StatCert).(lock := Some(0));
    assert b == Goto(s, 0, StatKey(|s.certs| - 1)).(lock := Some(0));
    assert d == Goto(s, 0, Compare(|s.certs| - 1, |s.keys| - 1)).(lock := Some(0));
  }

  /** The first call looks at version i and finds nothing cached. */
  lemma {:induction false} FirstLook(s: State, ok: Matches)
    requires s.certs != [] && s.keys != [] && s.pcs == map[] && s.lock == None && s.cache.cached == None
    requires Last(s.certs).Version? && Last(s.keys).Version?
    ensures Steps(s, 4, ok) == s.(lock := Some(0), pcs := map[0 := ReadCert(|s.certs| - 1, |s.keys| - 1)])
  {
    hide Steps;
    FourSteps(s, ok);
    var u := Goto(s, 0, Compare(|s.certs| - 1, |s.keys| - 1)).(lock := Some(0));
    assert PcOf(u, 0) == Compare(|s.certs| - 1, |s.keys| - 1);
    assert Goto(u, 0, ReadCert(|s.certs| - 1, |s.keys| - 1)).pcs == map[0 := ReadCert(|s.certs| - 1, |s.keys| - 1)];
  }

  /** It reads the certificate after further changes, and stores it under the time it saw before them. */
  lemma {:induction false} LateRead(s: State, c: nat, k: nat, ok: Matches)
    requires s.certs != [] && s.keys != [] && s.pcs == map[0 := ReadCert(c, k)] && s.lock == Some(0)
    requires Last(s.certs).Version? && Last(s.keys).Version? && ok(Last(s.certs).data, Last(s.keys).data)
    ensures var r := Steps(s, 2, ok);
            && r.pcs == map[0 := Idle] && r.lock == None
            && r.cache == Cache(Some((Last(s.certs).data, Last(s.keys).data)), Mtime(s.certs, c), Mtime(s.keys, k))
  {
    assert Steps(s, 0, ok) == s;
    var b := Steps(s, 1, ok);
    assert b == Goto(s, 0, ReadKey(c, k, |s.certs| - 1));
    assert Steps(s, 2, ok) == RunStep(b, 0, ok);
  }

  /** A later call that sees the stored times gets the stored pair. */
  lemma {:induction false} LaterHit(s: State, ok: Matches)
    requires s.certs != [] && s.keys != [] && PcOf(s, 0).Idle? && s.lock == None
    requires Last(s.certs).Version? && Last(s.keys).Version? && Hit(s.cache, Last(s.certs).mtime, Last(s.keys).mtime)
    ensures var r := Steps(s, 4, ok);
            var (cert, key) := s.cache.cached.value;
            var a := Answer(cert, key, true, |s.certs| - 1, |s.keys| - 1, s.origin);
            r.log == s.log + [a] && a in r.log
  {
    hide Steps;
    FourSteps(s, ok);
    var u := Goto(s, 0, Compare(|s.certs| - 1, |s.keys| - 1)).(lock := Some(0));
    assert PcOf(u, 0) == Compare(|s.certs| - 1, |s.keys| - 1);
    var a := Answer(s.cache.cached.value.0, s.cache.cached.value.1, true, |s.certs| - 1, |s.keys| - 1, s.origin);
    assert RunStep(u, 0, ok).log == s.log + [a];
  }

  /** A call that nothing disturbs takes the steps of the method: the same cache afterwards, the same result. */
  lemma {:induction false} UndisturbedCall(s: State, ok: Matches) returns (n: nat)
    requires s.certs != [] && s.keys != [] && PcOf(s, 0).Idle? && s.lock == None
    ensures var (cache, result) := Call(s.cache, Last(s.certs), Last(s.keys), Last(s.certs), Last(s.keys), ok);
            var r := Steps(s, n, ok);
            && r.cache == cache && r.lock == None && PcOf(r, 0).Idle?
            && match result
               case None => r.log == s.log
               case Some((cert, key)) =>
                 && |r.log| == |s.log| + 1 && s.log <= r.log
                 && r.log[|s.log|].cert == cert && r.log[|s.log|].key == key
  {
    hide Steps;
    StepsUnfold(s, ok);
    if Last(s.certs).Gone? {
      n := 2;
    } else if Last(s.keys).Gone? {
      n := 3;
    } else {
      FourSteps(s, ok);
      n := if Hit(s.cache, Last(s.certs).mtime, Last(s.keys).mtime) then 4 else 6;
    }
  }

  lemma {:induction false} StepsUnfold(s: State, ok: Matches)
    requires s.certs != [] && s.keys != []
    ensures Steps(s, 0, ok) == s && Steps(s, 1, ok) == RunStep(s, 0, ok)
    ensures Steps(s, 2, ok) == RunStep(Steps(s, 1, ok), 0, ok) && Steps(s, 3, ok) == RunStep(Steps(s, 2, ok), 0, ok)
    ensures Steps(s, 5, ok) == RunStep(Steps(s, 4, ok), 0, ok) && Steps(s, 6, ok) == RunStep(Steps(s, 5, ok), 0, ok)
  {
  }

  lemma {:induction false} Nothing(s: State, ok: Matches)
    requires s.certs != [] && s.keys != []
    ensures Execute(s, [], ok) == s
  {
  }

  // ---- Exactly when cached answers are right ----

  ghost predicate TimesTell(hc: seq<Version>, hk: seq<Version>, ok: Matches) {
    forall i: nat, j: nat, k: nat, x: nat, y: nat, z: nat :: TimesTellAt(hc, hk, ok, i, j, k, x, y, z)
  }

  /** Times that do not tell: a call looks at versions i and x, reads j and y, and stores them under the times it
      saw; then the files go on to versions k and z, which have those times again. */
  lemma {:induction false} StoredUnder(hc: seq<Version>, hk: seq<Version>, ok: Matches,
         i: nat, j: nat, k: nat, x: nat, y: nat, z: nat) returns (schedule: seq<Action>)
    requires !TimesTellAt(hc, hk, ok, i, j, k, x, y, z)
    ensures var s := Execute(Init(hc[0], hk[0]), schedule, ok);
            && s.certs == hc[..k + 1] && s.keys == hk[..z + 1] && s.lock == None && PcOf(s, 0).Idle?
            && s.cache == Cache(Some((hc[j].data, hk[y].data)), hc[k].mtime, hk[z].mtime)
  {
    hide Execute, Steps;
    var s0 := Init(hc[0], hk[0]);
    Nothing(s0, ok);
    schedule := Replacing(s0, [], hc, hk, i, x, ok);
    FirstLook(Execute(s0, schedule, ok), ok);
    schedule := Running(s0, schedule, 4, ok);
    schedule := Replacing(s0, schedule, hc, hk, j, y, ok);
    LateRead(Execute(s0, schedule, ok), i, x, ok);
    schedule := Running(s0, schedule, 2, ok);
    schedule := Replacing(s0, schedule, hc, hk, k, z, ok);
  }

  /** The next call gets what was stored, from a look at versions k and z that hold something else. */
  lemma {:induction false} StaleCall(s: State, hc: seq<Version>, hk: seq<Version>, ok: Matches,
         i: nat, j: nat, k: nat, x: nat, y: nat, z: nat) returns (calm: seq<Action>, a: Answer)
    requires !TimesTellAt(hc, hk, ok, i, j, k, x, y, z)
    requires s.certs == hc[..k + 1] && s.keys == hk[..z + 1] && s.lock == None && PcOf(s, 0).Idle?
    requires s.cache == Cache(Some((hc[j].data, hk[y].data)), hc[k].mtime, hk[z].mtime)
    ensures Calm(calm)
    ensures var r := Execute(s, calm, ok);
            && r.certs == s.certs && r.keys == s.keys && r.log == s.log + [a] && a in r.log
            && a.certAt == k && a.keyAt == z && !CachedRight(r, a) && !Current(r, a)
  {
    hide Execute, Steps;
    Nothing(s, ok);
    calm := Running(s, [], 4, ok);
    LaterHit(s, ok);
    a := Answer(hc[j].data, hk[y].data, true, k, z, s.origin);
  }

  /** A run whose cached answer is not what its call looked at. */
  lemma {:induction false} StaleRun(hc: seq<Version>, hk: seq<Version>, ok: Matches,
         i: nat, j: nat, k: nat, x: nat, y: nat, z: nat) returns (schedule: seq<Action>, a: Answer)
    requires !TimesTellAt(hc, hk, ok, i, j, k, x, y, z)
    ensures var s := Execute(Init(hc[0], hk[0]), schedule, ok);
            s.certs == hc[..k + 1] && s.keys == hk[..z + 1] && a in s.log && !CachedRight(s, a)
  {
    hide Execute, CachedRight, Current;
    schedule := StoredUnder(hc, hk, ok, i, j, k, x, y, z);
    var s := Execute(Init(hc[0], hk[0]), schedule, ok);
    var calm;
    calm, a := StaleCall(s, hc, hk, ok, i, j, k, x, y, z);
    ExecuteOn(Init(hc[0], hk[0]), schedule, calm, ok);
    schedule := schedule + calm;
  }

  lemma {:induction false} ExecuteOn(s: State, first: seq<Action>, more: seq<Action>, ok: Matches)
    requires s.certs != [] && s.keys != []
    ensures Execute(s, first + more, ok) == Execute(Execute(s, first, ok), more, ok)
    decreases |more|
  {
    if more == [] {
      assert first + more == first;
    } else {
      var n := |more| - 1;
      assert (first + more)[..|first + more| - 1] == first + more[..n];
      ExecuteOn(s, first, more[..n], ok);
    }
  }

  /** In every run in which the two files go through (part of) these histories, every cached answer is right. */
  ghost predicate AlwaysRight(hc: seq<Version>, hk: seq<Version>, ok: Matches)
    requires hc != [] && hk != []
  {
    forall schedule: seq<Action> ::
      var s := Execute(Init(hc[0], hk[0]), schedule, ok);
      s.certs <= hc && s.keys <= hk ==> forall a :: a in s.log ==> CachedRight(s, a)
  }

  lemma {:induction false} TellingAnswer(s: State, a: Answer, hc: seq<Version>, hk: seq<Version>, ok: Matches)
    requires TimesTell(hc, hk, ok) && s.certs <= hc && s.keys <= hk && AnswerOk(s, a, ok)
    ensures CachedRight(s, a)
  {
    hide TimesTell;
    if a.fromCache {
      var o := a.origin;
      TellingTimes(hc, hk, ok, o.certAt, o.certFrom, a.certAt, o.keyAt, o.keyFrom, a.keyAt);
    }
  }

  lemma {:induction false} TellingTimes(hc: seq<Version>, hk: seq<Version>, ok: Matches,
         i: nat, j: nat, k: nat, x: nat, y: nat, z: nat)
    requires TimesTell(hc, hk, ok)
    ensures TimesTellAt(hc, hk, ok, i, j, k, x, y, z)
  {
    hide TimesTellAt;
  }

  /** For any two histories of the two files, matching or not at any moment: every interleaving of calls and
      replacements gives right cached answers if and only if no matching pair was readable between two moments
      with the same pair of times, other than the pair at the second one. A time that comes back does no harm
      where what lay between matched nothing. */
  lemma {:induction false} CachedRightExactly(hc: seq<Version>, hk: seq<Version>, ok: Matches)
    requires hc != [] && hk != []
    ensures AlwaysRight(hc, hk, ok) <==> TimesTell(hc, hk, ok)
  {
    hide Execute, CachedRight, TimesTellAt;
    if TimesTell(hc, hk, ok) {
      forall schedule: seq<Action>, a |
        var s := Execute(Init(hc[0], hk[0]), schedule, ok); s.certs <= hc && s.keys <= hk && a in s.log
        ensures CachedRight(Execute(Init(hc[0], hk[0]), schedule, ok), a)
      {
        InitOk(hc[0], hk[0], ok);
        RunsKeep(Init(hc[0], hk[0]), schedule, ok);
        TellingAnswer(Execute(Init(hc[0], hk[0]), schedule, ok), a, hc, hk, ok);
      }
    } else {
      var i: nat, j: nat, k: nat, x: nat, y: nat, z: nat :| !TimesTellAt(hc, hk, ok, i, j, k, x, y, z);
      var schedule, a := StaleRun(hc, hk, ok, i, j, k, x, y, z);
      StaleIsPrefix(hc, hk, ok, i, j, k, x, y, z);
    }
  }

  lemma {:induction false} StaleIsPrefix(hc: seq<Version>, hk: seq<Version>, ok: Matches,
         i: nat, j: nat, k: nat, x: nat, y: nat, z: nat)
    requires !TimesTellAt(hc, hk, ok, i, j, k, x, y, z)
    ensures k < |hc| && z < |hk| && hc[..k + 1] <= hc && hk[..z + 1] <= hk
  {
  }

  /** With one key that matches every certificate: exactly where no time comes back around different bytes. */
  lemma {:induction false} OneKeyTells(h: seq<Version>, key: Version, ok: Matches)
    requires h != [] && key.Version? && forall i :: 0 <= i < |h| && h[i].Version? ==> ok(h[i].data, key.data)
    ensures TimesTell(h, [key], ok) <==> NoReturn(h)
  {
    if NoReturn(h) {
      forall i: nat, j: nat, k: nat, x: nat, y: nat, z: nat ensures TimesTellAt(h, [key], ok, i, j, k, x, y, z) {
        if AllThere(h, i, j, k) {
          assert SameBetween(h, i, j, k);
        }
      }
    }
    if TimesTell(h, [key], ok) {
      forall i, j, k | 0 <= i <= j <= k < |h| ensures SameBetween(h, i, j, k) {
        assert TimesTellAt(h, [key], ok, i, j, k, 0, 0, 0);
      }
    }
  }

  /** Where neither file's times come back, times tell whatever matches. */
  lemma {:induction false} NoReturnTells(hc: seq<Version>, hk: seq<Version>, ok: Matches)
    requires NoReturn(hc) && NoReturn(hk)
    ensures TimesTell(hc, hk, ok)
  {
    forall i: nat, j: nat, k: nat, x: nat, y: nat, z: nat ensures TimesTellAt(hc, hk, ok, i, j, k, x, y, z) {
      if AllThere(hc, i, j, k) && AllThere(hk, x, y, z) {
        assert SameBetween(hc, i, j, k) && SameBetween(hk, x, y, z);
      }
    }
  }

  // ---- Exactly when calls are right once rotations stop ----

  /** Whatever went before, once the two files have gone through these histories, every call that begins and
      succeeds returns the current pair. */
  ghost predicate QuietAlwaysCurrent(hc: seq<Version>, hk: seq<Version>, ok: Matches)
    requires hc != [] && hk != []
  {
    forall before: seq<Action>, calm: seq<Action> | Calm(calm) && Arrives(hc, hk, ok, before) ::
      AllCurrent(Execute(Init(hc[0], hk[0]), before, ok), calm, ok)
  }

  predicate Arrives(hc: seq<Version>, hk: seq<Version>, ok: Matches, before: seq<Action>)
    requires hc != [] && hk != []
  {
    var s := Execute(Init(hc[0], hk[0]), before, ok);
    s.lock == None && s.certs == hc && s.keys == hk
  }

  predicate AllCurrent(s: State, calm: seq<Action>, ok: Matches)
    requires s.certs != [] && s.keys != []
  {
    var r := Execute(s, calm, ok);
    s.log <= r.log && forall i :: |s.log| <= i < |r.log| ==> Current(r, r.log[i])
  }

  /** For any two histories: after the last rotation every call returns the current pair, in all interleavings, if
      and only if times tell about the last versions. */
  lemma {:induction false} QuietIsCurrentExactly(hc: seq<Version>, hk: seq<Version>, ok: Matches)
    requires hc != [] && hk != []
    ensures QuietAlwaysCurrent(hc, hk, ok) <==> LastTells(hc, hk, ok)
  {
    hide Execute, Current, TimesTellAt, Calm;
    if LastTells(hc, hk, ok) {
      forall before: seq<Action>, calm: seq<Action> | Calm(calm) && Arrives(hc, hk, ok, before)
        ensures AllCurrent(Execute(Init(hc[0], hk[0]), before, ok), calm, ok)
      {
        QuietIsCurrent(hc[0], hk[0], before, calm, ok);
      }
    } else {
      var i: nat, j: nat, x: nat, y: nat :| !LastTellsAt(hc, hk, ok, i, j, x, y);
      var before := StoredUnder(hc, hk, ok, i, j, |hc| - 1, x, y, |hk| - 1);
      assert hc[..|hc|] == hc && hk[..|hk|] == hk;
      var s := Execute(Init(hc[0], hk[0]), before, ok);
      var calm, a := StaleCall(s, hc, hk, ok, i, j, |hc| - 1, x, y, |hk| - 1);
      assert Arrives(hc, hk, ok, before);
      assert Execute(s, calm, ok).log[|s.log|] == a;
      assert !AllCurrent(s, calm, ok);
    }
  }

  /** In every run that has taken the files through these histories, calls under way at the last rotation or not:
      every call that looked at both files after it returned the current pair. */
  ghost predicate LateLooksCurrent(hc: seq<Version>, hk: seq<Version>, ok: Matches)
    requires hc != [] && hk != []
  {
    forall schedule: seq<Action>, a: Answer ::
      var s := Execute(Init(hc[0], hk[0]), schedule, ok);
      s.certs == hc && s.keys == hk && a in s.log && a.certAt == |hc| - 1 && a.keyAt == |hk| - 1 ==> Current(s, a)
  }

  lemma {:induction false} LateLooksExactly(hc: seq<Version>, hk: seq<Version>, ok: Matches)
    requires hc != [] && hk != []
    ensures LateLooksCurrent(hc, hk, ok) <==> LastTells(hc, hk, ok)
  {
    hide Execute, Current, LastTells, Inv, Calm;
    if LastTells(hc, hk, ok) {
      forall schedule: seq<Action>, a: Answer |
        var s := Execute(Init(hc[0], hk[0]), schedule, ok);
        s.certs == hc && s.keys == hk && a in s.log && a.certAt == |hc| - 1 && a.keyAt == |hk| - 1
        ensures Current(Execute(Init(hc[0], hk[0]), schedule, ok), a)
      {
        InitOk(hc[0], hk[0], ok);
        RunsKeep(Init(hc[0], hk[0]), schedule, ok);
        LookedLast(Execute(Init(hc[0], hk[0]), schedule, ok), a, ok);
      }
    } else {
      var schedule, a := StaleLook(hc, hk, ok);
    }
  }

  lemma {:induction false} StaleLook(hc: seq<Version>, hk: seq<Version>, ok: Matches)
    returns (schedule: seq<Action>, a: Answer)
    requires hc != [] && hk != [] && !LastTells(hc, hk, ok)
    ensures var s := Execute(Init(hc[0], hk[0]), schedule, ok);
            && s.certs == hc && s.keys == hk && a in s.log && a.certAt == |hc| - 1 && a.keyAt == |hk| - 1
            && !Current(s, a)
  {
    hide Execute, Current;
    var i: nat, j: nat, x: nat, y: nat :| !LastTellsAt(hc, hk, ok, i, j, x, y);
    schedule := StoredUnder(hc, hk, ok, i, j, |hc| - 1, x, y, |hk| - 1);
    assert hc[..|hc|] == hc && hk[..|hk|] == hk;
    var calm;
    calm, a := StaleCall(Execute(Init(hc[0], hk[0]), schedule, ok), hc, hk, ok, i, j, |hc| - 1, x, y, |hk| - 1);
    ExecuteOn(Init(hc[0], hk[0]), schedule, calm, ok);
    schedule := schedule + calm;
  }
}
