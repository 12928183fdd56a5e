/** Any number of calls for the CA pool, while its file changes. Every such run is a run of calls for a pair
    whose key stays the same, so what every run for pairs keeps, every run for the pool keeps; when cached
    pools are right is settled here for the pool itself. */
module PoolRuns {
  import opened Options
  import opened CertReload
  import opened CertFreshness

  datatype PoolPc = Resting | Stat | Compares(at: nat) | Reads(at: nat)

  /** A call that succeeded: what it returned, the version it had looked at, the version under whose time the
      pool was stored, and the one it was read from. */
  datatype PoolAnswer = PoolAnswer(pool: Data, fromCache: bool, at: nat, load: nat, from: nat)

  datatype PoolState = PoolState(
    file: seq<Version>,
    lock: Option<Tid>,
    pcs: map<Tid, PoolPc>,
    cache: PoolCache,
    load: nat,
    from: nat,
    log: seq<PoolAnswer>)

  datatype PoolAction = Replace(v: Version) | Step(t: Tid)

  function PoolInit(v: Version): PoolState {
    PoolState([v], None, map[], PoolCache(None, 0), 0, 0, [])
  }

  function PoolPcOf(s: PoolState, t: Tid): PoolPc {
    if t in s.pcs then s.pcs[t] else Resting
  }

  function Move(s: PoolState, t: Tid, pc: PoolPc): PoolState {
    s.(pcs := s.pcs[t := pc])
  }

  function Release(s: PoolState, t: Tid): PoolState {
    Move(s, t, Resting).(lock := None)
  }

  function Tell(s: PoolState, t: Tid, a: PoolAnswer): PoolState {
    Release(s, t).(log := s.log + [a])
  }

  predicate PoolHit(c: PoolCache, mod: int) {
    c.cached.Some? && mod == c.mod
  }

  function PoolStep(s: PoolState, t: Tid, parses: Data -> bool): PoolState
    requires s.file != []
  {
    match PoolPcOf(s, t)
    case Resting => if s.lock.Some? then s else Move(s, t, Stat).(lock := Some(t))
    case Stat => if Last(s.file).Gone? then Release(s, t) else Move(s, t, Compares(|s.file| - 1))
    case Compares(c) =>
      if PoolHit(s.cache, Mtime(s.file, c))
      then Tell(s, t, PoolAnswer(s.cache.cached.value, true, c, s.load, s.from))
      else Move(s, t, Reads(c))
    case Reads(c) =>
      if Last(s.file).Gone? || !parses(Last(s.file).data) then Release(s, t)
      else
        var pool, from := Last(s.file).data, |s.file| - 1;
        Tell(s, t, PoolAnswer(pool, false, c, c, from)).(
          cache := PoolCache(Some(pool), Mtime(s.file, c)), load := c, from := from)
  }

  function PoolNext(s: PoolState, a: PoolAction, parses: Data -> bool): PoolState
    requires s.file != []
  {
    match a
    case Replace(v) => s.(file := s.file + [v])
    case Step(t) => PoolStep(s, t, parses)
  }

  function PoolExecute(s: PoolState, schedule: seq<PoolAction>, parses: Data -> bool): (r: PoolState)
    requires s.file != []
    ensures r.file != []
  {
    if schedule == [] then s
    else PoolNext(PoolExecute(s, schedule[..|schedule| - 1], parses), schedule[|schedule| - 1], parses)
  }

  // ---- Every run for the pool is a run for a pair whose key never changes ----

  function AsPc(pc: PoolPc): Pc {
    match pc
    case Resting => Idle
    case Stat => StatCert
    case Compares(c) => Compare(c, 0)
    case Reads(c) => ReadCert(c, 0)
  }

  function AsAnswer(a: PoolAnswer, key: Data): Answer {
    Answer(a.pool, key, a.fromCache, a.at, 0, Origin(a.load, 0, a.from, 0))
  }

  function AsLog(log: seq<PoolAnswer>, key: Data): (r: seq<Answer>)
    ensures |r| == |log| && forall i :: 0 <= i < |log| ==> r[i] == AsAnswer(log[i], key)
  {
    seq(|log|, i requires 0 <= i < |log| => AsAnswer(log[i], key))
  }

  function AsPcs(pcs: map<Tid, PoolPc>): map<Tid, Pc> {
    map t | t in pcs :: AsPc(pcs[t])
  }

  function AsPair(s: PoolState, key: Data): State {
    State(s.file, [Version(0, key)], s.lock, AsPcs(s.pcs), WithKey(s.cache, key), Origin(s.load, 0, s.from, 0),
          AsLog(s.log, key))
  }

  lemma {:induction false} MovePairs(s: PoolState, t: Tid, pc: PoolPc, key: Data)
    ensures AsPair(Move(s, t, pc), key) == Goto(AsPair(s, key), t, AsPc(pc))
  {
    assert AsPcs(s.pcs[t := pc]) == AsPcs(s.pcs)[t := AsPc(pc)];
  }

  lemma {:induction false} ReleasePairs(s: PoolState, t: Tid, key: Data)
    ensures AsPair(Release(s, t), key) == Unlock(AsPair(s, key), t)
  {
    MovePairs(s, t, Resting, key);
  }

  lemma {:induction false} TellPairs(s: PoolState, t: Tid, a: PoolAnswer, key: Data)
    ensures AsPair(Tell(s, t, a), key) == Report(AsPair(s, key), t, AsAnswer(a, key))
  {
    ReleasePairs(s, t, key);
    assert AsLog(s.log + [a], key) == AsLog(s.log, key) + [AsAnswer(a, key)];
  }

  lemma {:induction false} StorePairs(s: PoolState, cache: PoolCache, load: nat, from: nat, key: Data)
    ensures AsPair(s.(cache := cache, load := load, from := from), key) ==
            AsPair(s, key).(cache := WithKey(cache, key), origin := Origin(load, 0, from, 0))
  {
  }

  lemma {:induction false} ViewPairs(s: PoolState, t: Tid, key: Data)
    ensures var p := AsPair(s, key);
            && p.certs == s.file && p.keys == [Version(0, key)] && p.lock == s.lock
            && p.cache == WithKey(s.cache, key) && p.origin == Origin(s.load, 0, s.from, 0)
            && PcOf(p, t) == AsPc(PoolPcOf(s, t))
  {
  }

  lemma {:induction false} LockPairs(s: PoolState, t: Tid, key: Data)
    ensures AsPair(s.(lock := Some(t)), key) == AsPair(s, key).(lock := Some(t))
  {
  }

  lemma {:induction false} ComparePairs(s: PoolState, t: Tid, c: nat, parses: Data -> bool, key: Data)
    requires s.file != [] && PoolPcOf(s, t) == Compares(c)
    ensures AsPair(PoolStep(s, t, parses), key) == RunStep(AsPair(s, key), t, Pairing(parses))
  {
    hide AsPair;
    ViewPairs(s, t, key);
    MovePairs(s, t, Reads(c), key);
    if PoolHit(s.cache, Mtime(s.file, c)) {
      TellPairs(s, t, PoolAnswer(s.cache.cached.value, true, c, s.load, s.from), key);
    }
  }

  lemma {:induction false} ReadPairs(s: PoolState, t: Tid, c: nat, parses: Data -> bool, key: Data)
    requires s.file != [] && PoolPcOf(s, t) == Reads(c)
    ensures var p, ok := AsPair(s, key), Pairing(parses);
            AsPair(PoolStep(s, t, parses), key) ==
            if Last(s.file).Gone? then RunStep(p, t, ok) else RunStep(RunStep(p, t, ok), t, ok)
  {
    hide AsPair;
    var p := AsPair(s, key);
    ViewPairs(s, t, key);
    ReleasePairs(s, t, key);
    if Last(s.file).Version? {
      var from, pool := |s.file| - 1, Last(s.file).data;
      var mid, a := Goto(p, t, ReadKey(c, 0, from)), PoolAnswer(pool, false, c, c, from);
      assert RunStep(p, t, Pairing(parses)) == mid && mid.pcs[t := Idle] == p.pcs[t := Idle];
      TellPairs(s, t, a, key);
      StorePairs(Tell(s, t, a), PoolCache(Some(pool), Mtime(s.file, c)), c, from, key);
    }
  }

  lemma {:induction false} StatPairs(s: PoolState, t: Tid, parses: Data -> bool, key: Data)
    requires s.file != [] && PoolPcOf(s, t) == Stat
    ensures var p, ok := AsPair(s, key), Pairing(parses);
            AsPair(PoolStep(s, t, parses), key) ==
            if Last(s.file).Gone? then RunStep(p, t, ok) else RunStep(RunStep(p, t, ok), t, ok)
  {
    hide AsPair;
    var p, c := AsPair(s, key), |s.file| - 1;
    ViewPairs(s, t, key);
    ReleasePairs(s, t, key);
    MovePairs(s, t, Compares(c), key);
    assert p.pcs[t := StatKey(c)][t := Compare(c, 0)] == p.pcs[t := Compare(c, 0)];
  }

  /** One step for the pool is one step or two for the pair. */
  lemma {:induction false} StepPairs(s: PoolState, t: Tid, parses: Data -> bool, key: Data)
    requires s.file != []
    ensures var p, ok := AsPair(s, key), Pairing(parses);
            var q := AsPair(PoolStep(s, t, parses), key);
            q == RunStep(p, t, ok) || q == RunStep(RunStep(p, t, ok), t, ok)
  {
    hide AsPair;
    match PoolPcOf(s, t)
    case Resting =>
      ViewPairs(s, t, key);
      MovePairs(s, t, Stat, key);
      LockPairs(Move(s, t, Stat), t, key);
    case Stat => StatPairs(s, t, parses, key);
    case Compares(c) => ComparePairs(s, t, c, parses, key);
    case Reads(c) => ReadPairs(s, t, c, parses, key);
  }

  predicate PoolCalm(schedule: seq<PoolAction>) {
    forall i :: 0 <= i < |schedule| ==> schedule[i].Step?
  }

  /** A schedule for the pool as a schedule for the pair. */
  lemma {:induction false} PoolRunIsPairRun(s: PoolState, schedule: seq<PoolAction>, parses: Data -> bool, key: Data)
    returns (pairs: seq<Action>)
    requires s.file != []
    ensures Execute(AsPair(s, key), pairs, Pairing(parses)) == AsPair(PoolExecute(s, schedule, parses), key)
    ensures PoolCalm(schedule) ==> Calm(pairs)
  {
    hide PoolStep, RunStep, AsPair;
    assert AsPair(s, key).certs != [] && AsPair(s, key).keys != [] by { PairFiles(s, key); }
    var p, ok := AsPair(s, key), Pairing(parses);
    pairs := [];
    if schedule != [] {
      var n := |schedule| - 1;
      pairs := PoolRunIsPairRun(s, schedule[..n], parses, key);
      var u := PoolExecute(s, schedule[..n], parses);
      PairFiles(u, key);
      match schedule[n]
      case Replace(v) =>
        OneMore(p, pairs, RotateCert(v), ok);
        ReplacePairs(u, v, key);
        pairs := pairs + [RotateCert(v)];
      case Step(t) =>
        StepPairs(u, t, parses, key);
        OneMore(p, pairs, Run(t), ok);
        pairs := pairs + [Run(t)];
        if Execute(p, pairs, ok) != AsPair(PoolStep(u, t, parses), key) {
          OneMore(p, pairs, Run(t), ok);
          pairs := pairs + [Run(t)];
        }
    }
  }

  lemma {:induction false} PairFiles(s: PoolState, key: Data)
    ensures AsPair(s, key).certs == s.file && AsPair(s, key).keys == [Version(0, key)]
  {
  }

  lemma {:induction false} ReplacePairs(s: PoolState, v: Version, key: Data)
    ensures AsPair(s.(file := s.file + [v]), key) == AsPair(s, key).(certs := s.file + [v])
  {
  }

  lemma {:induction false} InitPairs(v: Version, key: Data)
    ensures AsPair(PoolInit(v), key) == Init(v, Version(0, key))
  {
    assert AsPcs(map[]) == map[];
    assert AsLog([], key) == [];
  }

  // ---- What holds for pairs, for the pool ----

  lemma {:induction false} LogPairs(s: PoolState, a: PoolAnswer, key: Data)
    requires a in s.log
    ensures AsAnswer(a, key) in AsPair(s, key).log && AsPair(s, key).certs == s.file
  {
    var i :| 0 <= i < |s.log| && s.log[i] == a;
    assert AsLog(s.log, key)[i] == AsAnswer(a, key);
  }

  /** Every pool returned in any run parses; a loaded one was on disk after its call's own look at the time, and
      a cached one was loaded on a look that saw the same time. */
  lemma {:induction false} PoolAnswers(v: Version, schedule: seq<PoolAction>, parses: Data -> bool, a: PoolAnswer)
    requires a in PoolExecute(PoolInit(v), schedule, parses).log
    ensures var s := PoolExecute(PoolInit(v), schedule, parses);
            Sourced(s.file, a.fromCache, a.at, a.load, a.from, a.pool) && parses(a.pool)
  {
    hide PoolExecute, Execute, AsPair, Sourced;
    var s, key := PoolExecute(PoolInit(v), schedule, parses), "";
    InitPairs(v, key);
    var pairs := PoolRunIsPairRun(PoolInit(v), schedule, parses, key);
    InitOk(v, Version(0, key), Pairing(parses));
    RunsKeep(Init(v, Version(0, key)), pairs, Pairing(parses));
    LogPairs(s, a, key);
    assert AnswerOk(AsPair(s, key), AsAnswer(a, key), Pairing(parses));
  }

  predicate PoolRight(s: PoolState, a: PoolAnswer) {
    a.fromCache ==> At(s.file, a.at) == Version(Mtime(s.file, a.at), a.pool)
  }

  /** Where no time comes back around other bytes, every cached pool is the version its call looked at. */
  lemma {:induction false} PoolIsWhatWasSeen(v: Version, schedule: seq<PoolAction>, parses: Data -> bool, a: PoolAnswer)
    requires var s := PoolExecute(PoolInit(v), schedule, parses); NoReturn(s.file) && a in s.log
    ensures PoolRight(PoolExecute(PoolInit(v), schedule, parses), a)
  {
    hide PoolExecute, NoReturn;
    PoolAnswers(v, schedule, parses, a);
    if a.fromCache {
      SourcedRight(PoolExecute(PoolInit(v), schedule, parses).file, a.at, a.load, a.from, a.pool);
    }
  }

  predicate CurrentPool(s: PoolState, a: PoolAnswer) {
    s.file != [] && At(s.file, |s.file| - 1) == Version(Mtime(s.file, |s.file| - 1), a.pool)
  }

  /** A bundle that parses, read between two looks that see the same time, is what is on disk at the second. */
  predicate TimeTellsAt(h: seq<Version>, parses: Data -> bool, i: nat, j: nat, k: nat) {
    AllThere(h, i, j, k) && h[i].mtime == h[k].mtime && parses(h[j].data) ==> h[j].data == h[k].data
  }

  ghost predicate LastTimeTells(h: seq<Version>, parses: Data -> bool)
    requires h != []
  {
    forall i: nat, j: nat :: LastTimeTellsAt(h, parses, i, j)
  }

  predicate LastTimeTellsAt(h: seq<Version>, parses: Data -> bool, i: nat, j: nat)
    requires h != []
  {
    TimeTellsAt(h, parses, i, j, |h| - 1)
  }

  lemma {:induction false} LastTellsForPairs(h: seq<Version>, parses: Data -> bool, key: Data)
    requires h != [] && LastTimeTells(h, parses)
    ensures LastTells(h, [Version(0, key)], Pairing(parses))
  {
    forall i: nat, j: nat, x: nat, y: nat
      ensures LastTellsAt(h, [Version(0, key)], Pairing(parses), i, j, x, y)
    {
      assert LastTimeTellsAt(h, parses, i, j);
    }
  }

  /** Once the file stops changing, every call that begins and succeeds returns the current pool. */
  lemma {:induction false} PoolQuietIsCurrent(v: Version, before: seq<PoolAction>, calm: seq<PoolAction>,
         parses: Data -> bool)
    requires PoolCalm(calm)
    requires var s := PoolExecute(PoolInit(v), before, parses);
             s.lock == None && s.file != [] && LastTimeTells(s.file, parses)
    ensures var s := PoolExecute(PoolInit(v), before, parses);
            var r := PoolExecute(s, calm, parses);
            && |s.log| <= |r.log|
            && forall i :: |s.log| <= i < |r.log| ==> CurrentPool(r, r.log[i])
  {
    hide PoolExecute, Execute, LastTimeTells, LastTells, PoolCalm, Calm;
    var key := "";
    var ok, s := Pairing(parses), PoolExecute(PoolInit(v), before, parses);
    var r := PoolExecute(s, calm, parses);
    InitPairs(v, key);
    var pairsBefore := PoolRunIsPairRun(PoolInit(v), before, parses, key);
    var pairsCalm := PoolRunIsPairRun(s, calm, parses, key);
    LastTellsForPairs(s.file, parses, key);
    QuietIsCurrent(v, Version(0, key), pairsBefore, pairsCalm, ok);
    forall i | |s.log| <= i < |r.log| ensures CurrentPool(r, r.log[i]) {
      assert Current(AsPair(r, key), AsLog(r.log, key)[i]);
    }
  }

  // ---- Exactly when cached pools are right ----

  ghost predicate TimeTells(h: seq<Version>, parses: Data -> bool) {
    forall i: nat, j: nat, k: nat :: TimeTellsAt(h, parses, i, j, k)
  }

  ghost predicate PoolAlwaysRight(h: seq<Version>, parses: Data -> bool)
    requires h != []
  {
    forall schedule: seq<PoolAction> ::
      var s := PoolExecute(PoolInit(h[0]), schedule, parses);
      s.file <= h ==> forall a :: a in s.log ==> PoolRight(s, a)
  }

  lemma {:induction false} OneMoreStep(s: PoolState, schedule: seq<PoolAction>, a: PoolAction, parses: Data -> bool)
    requires s.file != []
    ensures PoolExecute(s, schedule + [a], parses) == PoolNext(PoolExecute(s, schedule, parses), a, parses)
  {
  }

  lemma {:induction false} Upto(s: PoolState, schedule: seq<PoolAction>, h: seq<Version>, j: nat, parses: Data -> bool)
    returns (longer: seq<PoolAction>)
    requires s.file != [] && j < |h| && PoolExecute(s, schedule, parses).file <= h[..j + 1]
    ensures PoolExecute(s, longer, parses) == PoolExecute(s, schedule, parses).(file := h[..j + 1])
    decreases j
  {
    hide PoolExecute;
    var u := PoolExecute(s, schedule, parses);
    longer := schedule;
    if |u.file| < j + 1 {
      assert u.file <= h[..j];
      longer := Upto(s, schedule, h, j - 1, parses);
      OneMoreStep(s, longer, Replace(h[j]), parses);
      longer := longer + [Replace(h[j])];
      assert h[..j] + [h[j]] == h[..j + 1];
    } else {
      assert u.file == h[..j + 1];
    }
  }

  lemma {:induction false} Stepping(s: PoolState, schedule: seq<PoolAction>, n: nat, parses: Data -> bool)
    returns (longer: seq<PoolAction>)
    requires s.file != []
    ensures PoolExecute(s, longer, parses) == PoolSteps(PoolExecute(s, schedule, parses), n, parses)
    ensures PoolCalm(schedule) ==> PoolCalm(longer)
  {
    hide PoolExecute;
    longer := schedule;
    if n > 0 {
      longer := Stepping(s, schedule, n - 1, parses);
      OneMoreStep(s, longer, Step(0), parses);
      longer := longer + [Step(0)];
    }
  }

  function PoolSteps(s: PoolState, n: nat, parses: Data -> bool): (r: PoolState)
    requires s.file != []
    ensures r.file == s.file
  {
    if n == 0 then s else PoolStep(PoolSteps(s, n - 1, parses), 0, parses)
  }

  lemma {:induction false} PoolStepsUnfold(s: PoolState, parses: Data -> bool)
    requires s.file != []
    ensures PoolSteps(s, 1, parses) == PoolStep(s, 0, parses)
    ensures PoolSteps(s, 2, parses) == PoolStep(PoolSteps(s, 1, parses), 0, parses)
    ensures PoolSteps(s, 3, parses) == PoolStep(PoolSteps(s, 2, parses), 0, parses)
    ensures PoolSteps(s, 4, parses) == PoolStep(PoolSteps(s, 3, parses), 0, parses)
  {
  }

  /** Three steps into a call, as far as the comparison: a hit is told, a miss goes on to read. */
  lemma {:induction false} ThreeSteps(s: PoolState, parses: Data -> bool)
    requires s.file != [] && PoolPcOf(s, 0).Resting? && s.lock == None && Last(s.file).Version?
    ensures var c := |s.file| - 1;
            PoolSteps(s, 3, parses) ==
            if PoolHit(s.cache, Last(s.file).mtime)
            then
              var a := PoolAnswer(s.cache.cached.value, true, c, s.load, s.from);
              s.(pcs := s.pcs[0 := Resting], log := s.log + [a])
            else s.(pcs := s.pcs[0 := Reads(c)], lock := Some(0))
  {
    hide PoolSteps;
    PoolStepsUnfold(s, parses);
    var c := |s.file| - 1;
    assert PoolSteps(s, 2, parses) == Move(s, 0, Compares(c)).(lock := Some(0)) by {
      assert s.pcs[0 := Stat][0 := Compares(c)] == s.pcs[0 := Compares(c)];
    }
    assert s.pcs[0 := Compares(c)][0 := Resting] == s.pcs[0 := Resting];
    assert s.pcs[0 := Compares(c)][0 := Reads(c)] == s.pcs[0 := Reads(c)];
  }

  lemma {:induction false} ReadIn(s: PoolState, c: nat, parses: Data -> bool)
    requires s.file != [] && PoolPcOf(s, 0) == Reads(c) && Last(s.file).Version? && parses(Last(s.file).data)
    ensures var r := PoolSteps(s, 1, parses);
            && r.lock == None && PoolPcOf(r, 0).Resting?
            && r.cache == PoolCache(Some(Last(s.file).data), Mtime(s.file, c))
  {
    PoolStepsUnfold(s, parses);
  }

  /** A call looks at version i, reads version j and stores the pool under the time it saw; then the file goes on
      to version k, which has that time again. */
  lemma {:induction false} PoolStoredUnder(h: seq<Version>, parses: Data -> bool, i: nat, j: nat, k: nat)
    returns (schedule: seq<PoolAction>)
    requires !TimeTellsAt(h, parses, i, j, k)
    ensures var s := PoolExecute(PoolInit(h[0]), schedule, parses);
            && s.file == h[..k + 1] && s.lock == None && PoolPcOf(s, 0).Resting?
            && s.cache == PoolCache(Some(h[j].data), h[k].mtime)
  {
    hide PoolExecute, PoolSteps, PoolStep;
    var s0 := PoolInit(h[0]);
    NoSteps(s0, parses);
    schedule := Upto(s0, [], h, i, parses);
    ThreeSteps(PoolExecute(s0, schedule, parses), parses);
    schedule := Stepping(s0, schedule, 3, parses);
    schedule := Upto(s0, schedule, h, j, parses);
    ReadIn(PoolExecute(s0, schedule, parses), i, parses);
    schedule := Stepping(s0, schedule, 1, parses);
    schedule := Upto(s0, schedule, h, k, parses);
  }

  /** The next call gets what was stored, from a look at a version that holds something else. */
  lemma {:induction false} PoolStaleCall(s: PoolState, h: seq<Version>, parses: Data -> bool, i: nat, j: nat, k: nat)
    returns (calm: seq<PoolAction>, a: PoolAnswer)
    requires !TimeTellsAt(h, parses, i, j, k)
    requires s.file == h[..k + 1] && s.lock == None && PoolPcOf(s, 0).Resting?
    requires s.cache == PoolCache(Some(h[j].data), h[k].mtime)
    ensures PoolCalm(calm)
    ensures var r := PoolExecute(s, calm, parses);
            && r.file == s.file && r.log == s.log + [a] && a in r.log && !PoolRight(r, a) && !CurrentPool(r, a)
  {
    hide PoolExecute, PoolSteps;
    NoSteps(s, parses);
    calm := Stepping(s, [], 3, parses);
    ThreeSteps(s, parses);
    a := PoolAnswer(h[j].data, true, k, s.load, s.from);
    assert (s.log + [a])[|s.log|] == a;
  }

  lemma {:induction false} PoolExecuteOn(s: PoolState, first: seq<PoolAction>, more: seq<PoolAction>,
         parses: Data -> bool)
    requires s.file != []
    ensures PoolExecute(s, first + more, parses) == PoolExecute(PoolExecute(s, first, parses), more, parses)
    decreases |more|
  {
    if more == [] {
      assert first + more == first;
    } else {
      var n := |more| - 1;
      assert (first + more)[..|first + more| - 1] == first + more[..n];
      PoolExecuteOn(s, first, more[..n], parses);
    }
  }

  lemma {:induction false} StalePool(h: seq<Version>, parses: Data -> bool, i: nat, j: nat, k: nat)
    returns (schedule: seq<PoolAction>, a: PoolAnswer)
    requires !TimeTellsAt(h, parses, i, j, k)
    ensures var s := PoolExecute(PoolInit(h[0]), schedule, parses);
            s.file == h[..k + 1] && s.file <= h && a in s.log && !PoolRight(s, a)
  {
    hide PoolExecute, PoolRight, CurrentPool;
    schedule := PoolStoredUnder(h, parses, i, j, k);
    var calm;
    calm, a := PoolStaleCall(PoolExecute(PoolInit(h[0]), schedule, parses), h, parses, i, j, k);
    PoolExecuteOn(PoolInit(h[0]), schedule, calm, parses);
    schedule := schedule + calm;
  }

  lemma {:induction false} NoSteps(s: PoolState, parses: Data -> bool)
    requires s.file != []
    ensures PoolExecute(s, [], parses) == s
  {
  }

  /** For any history of the bundle, and whatever parses: every interleaving gives right cached pools if and only
      if no bundle that parses was readable between two moments with the same time, other than the one at the
      second. */
  lemma {:induction false} PoolRightExactly(h: seq<Version>, parses: Data -> bool)
    requires h != []
    ensures PoolAlwaysRight(h, parses) <==> TimeTells(h, parses)
  {
    hide PoolExecute, TimeTellsAt, PoolRight;
    if TimeTells(h, parses) {
      forall schedule: seq<PoolAction>, a |
        var s := PoolExecute(PoolInit(h[0]), schedule, parses); s.file <= h && a in s.log
        ensures PoolRight(PoolExecute(PoolInit(h[0]), schedule, parses), a)
      {
        PoolAnswers(h[0], schedule, parses, a);
        SourcedTells(PoolExecute(PoolInit(h[0]), schedule, parses), h, a, parses);
      }
    } else {
      var i: nat, j: nat, k: nat :| !TimeTellsAt(h, parses, i, j, k);
      var schedule, a := StalePool(h, parses, i, j, k);
    }
  }

  lemma {:induction false} SourcedTells(s: PoolState, h: seq<Version>, a: PoolAnswer, parses: Data -> bool)
    requires TimeTells(h, parses) && s.file <= h && parses(a.pool)
    requires Sourced(s.file, a.fromCache, a.at, a.load, a.from, a.pool)
    ensures PoolRight(s, a)
  {
    assert TimeTellsAt(h, parses, a.load, a.from, a.at);
  }

  /** Whatever went before, once the file has gone through this history, every call that begins and succeeds
      returns the current pool. */
  ghost predicate PoolQuietAlwaysCurrent(h: seq<Version>, parses: Data -> bool)
    requires h != []
  {
    forall before: seq<PoolAction>, calm: seq<PoolAction> | PoolCalm(calm) && PoolArrives(h, parses, before) ::
      AllPoolsCurrent(PoolExecute(PoolInit(h[0]), before, parses), calm, parses)
  }

  predicate PoolArrives(h: seq<Version>, parses: Data -> bool, before: seq<PoolAction>)
    requires h != []
  {
    var s := PoolExecute(PoolInit(h[0]), before, parses);
    s.lock == None && s.file == h
  }

  predicate AllPoolsCurrent(s: PoolState, calm: seq<PoolAction>, parses: Data -> bool)
    requires s.file != []
  {
    var r := PoolExecute(s, calm, parses);
    |s.log| <= |r.log| && forall i :: |s.log| <= i < |r.log| ==> CurrentPool(r, r.log[i])
  }

  /** For any history: after the last change every call returns the current pool, in all interleavings, if and
      only if the time tells about the last version. */
  lemma {:induction false} PoolQuietExactly(h: seq<Version>, parses: Data -> bool)
    requires h != []
    ensures PoolQuietAlwaysCurrent(h, parses) <==> LastTimeTells(h, parses)
  {
    hide PoolExecute, CurrentPool, TimeTellsAt, PoolCalm;
    if LastTimeTells(h, parses) {
      forall before: seq<PoolAction>, calm: seq<PoolAction> | PoolCalm(calm) && PoolArrives(h, parses, before)
        ensures AllPoolsCurrent(PoolExecute(PoolInit(h[0]), before, parses), calm, parses)
      {
        PoolQuietIsCurrent(h[0], before, calm, parses);
      }
    } else {
      var i: nat, j: nat :| !LastTimeTellsAt(h, parses, i, j);
      var before := PoolStoredUnder(h, parses, i, j, |h| - 1);
      assert h[..|h|] == h;
      var s := PoolExecute(PoolInit(h[0]), before, parses);
      var calm, a := PoolStaleCall(s, h, parses, i, j, |h| - 1);
      assert PoolArrives(h, parses, before);
      assert PoolExecute(s, calm, parses).log[|s.log|] == a;
      assert !AllPoolsCurrent(s, calm, parses);
    }
  }

  /** A call that nothing disturbs takes the steps of the method: the same cache afterwards, the same result. */
  lemma {:induction false} UndisturbedPool(s: PoolState, parses: Data -> bool) returns (n: nat)
    requires s.file != [] && PoolPcOf(s, 0).Resting? && s.lock == None
    ensures var (cache, result) := PoolCall(s.cache, Last(s.file), Last(s.file), parses);
            var r := PoolSteps(s, n, parses);
            && r.cache == cache && r.lock == None && PoolPcOf(r, 0).Resting?
            && match result
               case None => r.log == s.log
               case Some(pool) => |r.log| == |s.log| + 1 && s.log <= r.log && r.log[|s.log|].pool == pool
  {
    hide PoolSteps;
    PoolStepsUnfold(s, parses);
    if Last(s.file).Gone? {
      n := 2;
    } else {
      ThreeSteps(s, parses);
      n := if PoolHit(s.cache, Last(s.file).mtime) then 3 else 4;
    }
  }
}
