/** The client certificate reloader: a pair cached by file times, under one mutex, while the files rotate. */
module CertReload {
  import opened Options

  type Data = string
  type Tid = nat

  /** What a path holds at some time. */
  datatype Version = Gone | Version(mtime: int, data: Data)

  /** Whether a certificate and a key load as a pair. */
  type Matches = (Data, Data) -> bool

  datatype Cache = Cache(cached: Option<(Data, Data)>, certMod: int, keyMod: int)

  predicate Hit(c: Cache, certMod: int, keyMod: int) {
    c.cached.Some? && certMod == c.certMod && keyMod == c.keyMod
  }

  /** What is cached was stored under the times these two looks saw. */
  predicate IsFor(c: Cache, certStat: Version, keyStat: Version) {
    certStat.Version? && keyStat.Version? && Hit(c, certStat.mtime, keyStat.mtime)
  }

  predicate Loads(cert: Version, key: Version, ok: Matches) {
    cert.Version? && key.Version? && ok(cert.data, key.data)
  }

  /** A call that sees these versions, one at each of its four looks at the disk. */
  function Call(c: Cache, certStat: Version, keyStat: Version, cert: Version, key: Version, ok: Matches)
    : (Cache, Option<(Data, Data)>)
  {
    if certStat.Gone? || keyStat.Gone? then (c, None)
    else if Hit(c, certStat.mtime, keyStat.mtime) then (c, c.cached)
    else if cert.Gone? || key.Gone? || !ok(cert.data, key.data) then (c, None)
    else (Cache(Some((cert.data, key.data)), certStat.mtime, keyStat.mtime), Some((cert.data, key.data)))
  }

  class ClientCertReloader {
    var cached: Option<(Data, Data)>
    var certMod: int
    var keyMod: int

    constructor ()
      ensures cached == None
    {
      cached, certMod, keyMod := None, 0, 0;
    }

    function State(): Cache
      reads this
    {
      Cache(cached, certMod, keyMod)
    }

    predicate Matched(ok: Matches)
      reads this
    {
      cached.Some? ==> ok(cached.value.0, cached.value.1)
    }

    method GetClientCertificate(certStat: Version, keyStat: Version, cert: Version, key: Version, ok: Matches)
      returns (r: Option<(Data, Data)>)
      modifies this
      // It succeeds exactly where both files are there and the cached pair is for their times, or what is read loads.
      ensures r.Some? <==> certStat.Version? && keyStat.Version? &&
                           (old(IsFor(State(), certStat, keyStat)) || Loads(cert, key, ok))
      // A failure leaves everything as it was; success leaves what it returned, under the times just seen.
      ensures r.None? ==> State() == old(State())
      ensures r.Some? ==> State() == Cache(r, certStat.mtime, keyStat.mtime)
      // While both times stay so does the pair, whatever the files hold by now; otherwise it is what was read.
      ensures r.Some? && old(IsFor(State(), certStat, keyStat)) ==> r == old(cached)
      ensures r.Some? && !old(IsFor(State(), certStat, keyStat)) ==> r == Some((cert.data, key.data))
      // Only matching pairs come in, so only matching pairs are ever returned.
      ensures old(Matched(ok)) ==> Matched(ok)
      ensures (State(), r) == Call(old(State()), certStat, keyStat, cert, key, ok)
    {
      if certStat.Gone? {
        return None;
      }
      if keyStat.Gone? {
        return None;
      }
      if cached.Some? && certStat.mtime == certMod && keyStat.mtime == keyMod {
        return cached;
      }
      if cert.Gone? || key.Gone? || !ok(cert.data, key.data) {
        return None;
      }
      cached := Some((cert.data, key.data));
      certMod := certStat.mtime;
      keyMod := keyStat.mtime;
      r := cached;
    }
  }

  // ---- The CA pool: the same cache with one file ----

  datatype PoolCache = PoolCache(cached: Option<Data>, mod: int)

  predicate PoolIsFor(c: PoolCache, stat: Version) {
    stat.Version? && c.cached.Some? && stat.mtime == c.mod
  }

  predicate PoolLoads(read: Version, parses: Data -> bool) {
    read.Version? && parses(read.data)
  }

  function PoolCall(c: PoolCache, stat: Version, read: Version, parses: Data -> bool): (PoolCache, Option<Data>) {
    if stat.Gone? then (c, None)
    else if c.cached.Some? && stat.mtime == c.mod then (c, c.cached)
    else if read.Gone? || !parses(read.data) then (c, None)
    else (PoolCache(Some(read.data), stat.mtime), Some(read.data))
  }

  class CaCertReloader {
    var cached: Option<Data>
    var mod: int

    constructor ()
      ensures cached == None
    {
      cached, mod := None, 0;
    }

    predicate Parsed(parses: Data -> bool)
      reads this
    {
      cached.Some? ==> parses(cached.value)
    }

    method Pool(stat: Version, read: Version, parses: Data -> bool) returns (r: Option<Data>)
      modifies this
      ensures r.Some? <==> stat.Version? && (old(PoolIsFor(PoolCache(cached, mod), stat)) || PoolLoads(read, parses))
      ensures r.None? ==> cached == old(cached) && mod == old(mod)
      ensures r.Some? ==> cached == r && mod == stat.mtime
      ensures r.Some? && old(PoolIsFor(PoolCache(cached, mod), stat)) ==> r == old(cached)
      ensures r.Some? && !old(PoolIsFor(PoolCache(cached, mod), stat)) ==> r == Some(read.data)
      ensures old(Parsed(parses)) ==> Parsed(parses)
      ensures (PoolCache(cached, mod), r) == PoolCall(old(PoolCache(cached, mod)), stat, read, parses)
    {
      if stat.Gone? {
        return None;
      }
      if cached.Some? && stat.mtime == mod {
        return cached;
      }
      if read.Gone? || !parses(read.data) {
        return None;
      }
      cached := Some(read.data);
      mod := stat.mtime;
      r := cached;
    }
  }

  function Pairing(parses: Data -> bool): Matches {
    (cert, key) => parses(cert)
  }

  function WithKey(c: PoolCache, key: Data): Cache {
    Cache(if c.cached.Some? then Some((c.cached.value, key)) else None, c.mod, 0)
  }

  /** A call for the pool is a call for a pair whose key never changes and matches whatever parses. */
  lemma {:induction false} PoolIsPairCall(c: PoolCache, stat: Version, read: Version, parses: Data -> bool, key: Data)
    ensures var (after, pool) := PoolCall(c, stat, read, parses);
            var k := Version(0, key);
            Call(WithKey(c, key), stat, k, read, k, Pairing(parses)) ==
            (WithKey(after, key), if pool.Some? then Some((pool.value, key)) else None)
  {
  }

  // ---- Any number of calls, while the files change ----

  /** Where a call is. Numbers are positions in the files' histories. */
  datatype Pc =
    | Idle
    | StatCert
    | StatKey(certAt: nat)
    | Compare(certAt: nat, keyAt: nat)
    | ReadCert(certAt: nat, keyAt: nat)
    | ReadKey(certAt: nat, keyAt: nat, certFrom: nat)

  /** For the statements only: the version whose time was stored, and the version whose bytes were. */
  datatype Origin = Origin(certAt: nat, keyAt: nat, certFrom: nat, keyFrom: nat)

  /** A call that succeeded: what it returned, which versions it had looked at, and where the pair came from. */
  datatype Answer = Answer(cert: Data, key: Data, fromCache: bool, certAt: nat, keyAt: nat, origin: Origin)

  datatype State = State(
    certs: seq<Version>,
    keys: seq<Version>,
    lock: Option<Tid>,
    pcs: map<Tid, Pc>,
    cache: Cache,
    origin: Origin,
    log: seq<Answer>)

  datatype Action = RotateCert(cert: Version) | RotateKey(key: Version) | Run(t: Tid)

  function Init(cert: Version, key: Version): State {
    State([cert], [key], None, map[], Cache(None, 0, 0), Origin(0, 0, 0, 0), [])
  }

  function PcOf(s: State, t: Tid): Pc {
    if t in s.pcs then s.pcs[t] else Idle
  }

  function Goto(s: State, t: Tid, pc: Pc): State {
    s.(pcs := s.pcs[t := pc])
  }

  function Unlock(s: State, t: Tid): State {
    Goto(s, t, Idle).(lock := None)
  }

  function Report(s: State, t: Tid, a: Answer): State {
    Unlock(s, t).(log := s.log + [a])
  }

  function Last(h: seq<Version>): Version
    requires h != []
  {
    h[|h| - 1]
  }

  function At(h: seq<Version>, i: nat): Version {
    if i < |h| then h[i] else Gone
  }

  function Mtime(h: seq<Version>, i: nat): int {
    if At(h, i).Version? then At(h, i).mtime else 0
  }

  /** One step: a file is replaced, or thread t takes its next step. A thread that cannot take the mutex stays
      where it is. */
  function Next(s: State, a: Action, ok: Matches): State
    requires s.certs != [] && s.keys != []
  {
    match a
    case RotateCert(v) => s.(certs := s.certs + [v])
    case RotateKey(v) => s.(keys := s.keys + [v])
    case Run(t) => RunStep(s, t, ok)
  }

  function RunStep(s: State, t: Tid, ok: Matches): State
    requires s.certs != [] && s.keys != []
  {
    match PcOf(s, t)
    case Idle => if s.lock.Some? then s else Goto(s, t, StatCert).(lock := Some(t))
    case StatCert => if Last(s.certs).Gone? then Unlock(s, t) else Goto(s, t, StatKey(|s.certs| - 1))
    case StatKey(c) => if Last(s.keys).Gone? then Unlock(s, t) else Goto(s, t, Compare(c, |s.keys| - 1))
    case Compare(c, k) =>
      if Hit(s.cache, Mtime(s.certs, c), Mtime(s.keys, k))
      then Report(s, t, Answer(s.cache.cached.value.0, s.cache.cached.value.1, true, c, k, s.origin))
      else Goto(s, t, ReadCert(c, k))
    case ReadCert(c, k) => if Last(s.certs).Gone? then Unlock(s, t) else Goto(s, t, ReadKey(c, k, |s.certs| - 1))
    case ReadKey(c, k, from) =>
      if At(s.certs, from).Gone? || Last(s.keys).Gone? || !ok(At(s.certs, from).data, Last(s.keys).data)
      then Unlock(s, t)
      else
        var cert, key, o := At(s.certs, from).data, Last(s.keys).data, Origin(c, k, from, |s.keys| - 1);
        Report(s, t, Answer(cert, key, false, c, k, o)).(
          cache := Cache(Some((cert, key)), Mtime(s.certs, c), Mtime(s.keys, k)), origin := o)
  }

  /** Any run. */
  function Execute(s: State, schedule: seq<Action>, ok: Matches): (r: State)
    requires s.certs != [] && s.keys != []
    ensures r.certs != [] && r.keys != []
  {
    if schedule == [] then s
    else Next(Execute(s, schedule[..|schedule| - 1], ok), schedule[|schedule| - 1], ok)
  }

  // ---- What every run keeps ----

  /** A pair's two versions: time taken at one, bytes at that one or a later one. */
  predicate Came(h: seq<Version>, at: nat, from: nat, data: Data) {
    at <= from < |h| && h[at].Version? && h[from].Version? && h[from].data == data
  }

  predicate CacheOk(s: State, ok: Matches) {
    s.cache.cached.Some? ==>
      var (cert, key) := s.cache.cached.value;
      && Came(s.certs, s.origin.certAt, s.origin.certFrom, cert) && s.certs[s.origin.certAt].mtime == s.cache.certMod
      && Came(s.keys, s.origin.keyAt, s.origin.keyFrom, key) && s.keys[s.origin.keyAt].mtime == s.cache.keyMod
      && ok(cert, key)
  }

  /** What a returned pair has to do with the versions its call looked at. */
  predicate Sourced(h: seq<Version>, fromCache: bool, at: nat, load: nat, from: nat, data: Data) {
    && at < |h| && h[at].Version? && Came(h, load, from, data)
    && (if fromCache then from <= at && h[load].mtime == h[at].mtime else load == at)
  }

  predicate AnswerOk(s: State, a: Answer, ok: Matches) {
    && Sourced(s.certs, a.fromCache, a.certAt, a.origin.certAt, a.origin.certFrom, a.cert)
    && Sourced(s.keys, a.fromCache, a.keyAt, a.origin.keyAt, a.origin.keyFrom, a.key)
    && ok(a.cert, a.key)
  }

  predicate Seen(h: seq<Version>, i: nat) {
    i < |h| && h[i].Version?
  }

  predicate PcOk(s: State, pc: Pc) {
    match pc
    case Idle => true
    case StatCert => true
    case StatKey(c) => Seen(s.certs, c) && FromBefore(s, s.origin.certFrom, c)
    case Compare(c, k) => Seen(s.certs, c) && Seen(s.keys, k) && FromBefore(s, s.origin.certFrom, c)
        && FromBefore(s, s.origin.keyFrom, k)
    case ReadCert(c, k) => Seen(s.certs, c) && Seen(s.keys, k)
    case ReadKey(c, k, from) => Seen(s.certs, c) && Seen(s.keys, k) && Seen(s.certs, from) && c <= from
  }

  /** A cached pair was read before the present call looked. */
  predicate FromBefore(s: State, from: nat, at: nat) {
    s.cache.cached.Some? ==> from <= at
  }

  predicate Inv(s: State, ok: Matches) {
    && s.certs != [] && s.keys != []
    && (forall t :: t in s.pcs ==> s.pcs[t].Idle? || s.lock == Some(t))
    && (forall t :: t in s.pcs ==> PcOk(s, s.pcs[t]))
    && CacheOk(s, ok)
    && forall a :: a in s.log ==> AnswerOk(s, a, ok)
  }

  /** Files that change take nothing away from what holds. */
  lemma {:induction false} RotationKeeps(s: State, s': State, ok: Matches)
    requires Inv(s, ok) && s.certs <= s'.certs && s.keys <= s'.keys
    requires s' == s.(certs := s'.certs, keys := s'.keys)
    ensures Inv(s', ok)
  {
  }

  lemma {:induction false} MoveKeeps(s: State, t: Tid, pc: Pc, ok: Matches)
    requires Inv(s, ok) && (s.lock == Some(t) || pc.Idle?) && PcOk(s, pc)
    ensures Inv(Goto(s, t, pc), ok)
  {
  }

  /** The holder of the mutex lets go: everyone else was idle already. */
  lemma {:induction false} UnlockKeeps(s: State, t: Tid, ok: Matches)
    requires Inv(s, ok) && s.lock == Some(t)
    ensures Inv(Unlock(s, t), ok)
  {
  }

  lemma {:induction false} ReportKeeps(s: State, t: Tid, a: Answer, ok: Matches)
    requires Inv(s, ok) && s.lock == Some(t) && AnswerOk(s, a, ok)
    ensures Inv(Report(s, t, a), ok)
  {
  }

  /** With everyone idle, a new pair may be stored. */
  lemma {:induction false} StoreKeeps(s: State, cache: Cache, o: Origin, ok: Matches)
    requires Inv(s, ok) && s.lock == None && CacheOk(s.(cache := cache, origin := o), ok)
    ensures Inv(s.(cache := cache, origin := o), ok)
  {
  }

  lemma {:induction false} LockKeeps(s: State, t: Tid, ok: Matches)
    requires Inv(s, ok) && s.lock == None
    ensures Inv(s.(lock := Some(t)), ok)
  {
  }

  lemma {:induction false} RunKeeps(s: State, t: Tid, ok: Matches)
    requires Inv(s, ok)
    ensures Inv(RunStep(s, t, ok), ok)
  {
    hide Inv, AnswerOk, CacheOk;
    var pc := PcOf(s, t);
    Holder(s, t, ok);
    match pc
    case Idle =>
      if s.lock == None {
        LockKeeps(s, t, ok);
        MoveKeeps(s.(lock := Some(t)), t, StatCert, ok);
      }
    case StatCert =>
      if Last(s.certs).Gone? {
        UnlockKeeps(s, t, ok);
      } else {
        MoveKeeps(s, t, StatKey(|s.certs| - 1), ok);
      }
    case StatKey(c) =>
      if Last(s.keys).Gone? {
        UnlockKeeps(s, t, ok);
      } else {
        MoveKeeps(s, t, Compare(c, |s.keys| - 1), ok);
      }
    case Compare(c, k) =>
      if Hit(s.cache, Mtime(s.certs, c), Mtime(s.keys, k)) {
        HitOk(s, c, k, ok);
        ReportKeeps(s, t, Answer(s.cache.cached.value.0, s.cache.cached.value.1, true, c, k, s.origin), ok);
      } else {
        MoveKeeps(s, t, ReadCert(c, k), ok);
      }
    case ReadCert(c, k) =>
      if Last(s.certs).Gone? {
        UnlockKeeps(s, t, ok);
      } else {
        MoveKeeps(s, t, ReadKey(c, k, |s.certs| - 1), ok);
      }
    case ReadKey(c, k, from) =>
      if At(s.certs, from).Gone? || Last(s.keys).Gone? || !ok(At(s.certs, from).data, Last(s.keys).data) {
        UnlockKeeps(s, t, ok);
      } else {
        var cert, key, o := At(s.certs, from).data, Last(s.keys).data, Origin(c, k, from, |s.keys| - 1);
        var a := Answer(cert, key, false, c, k, o);
        LoadOk(s, c, k, from, ok);
        ReportKeeps(s, t, a, ok);
        var cache := Cache(Some((cert, key)), Mtime(s.certs, c), Mtime(s.keys, k));
        StoreKeeps(Report(s, t, a), cache, o, ok);
      }
  }

  lemma {:induction false} Holder(s: State, t: Tid, ok: Matches)
    requires Inv(s, ok)
    ensures s.certs != [] && s.keys != []
    ensures !PcOf(s, t).Idle? ==> s.lock == Some(t)
    ensures PcOk(s, PcOf(s, t))
    ensures FromBefore(s, s.origin.certFrom, |s.certs| - 1) && FromBefore(s, s.origin.keyFrom, |s.keys| - 1)
  {
  }

  lemma {:induction false} HitOk(s: State, c: nat, k: nat, ok: Matches)
    requires Inv(s, ok) && PcOk(s, Compare(c, k)) && Hit(s.cache, Mtime(s.certs, c), Mtime(s.keys, k))
    ensures AnswerOk(s, Answer(s.cache.cached.value.0, s.cache.cached.value.1, true, c, k, s.origin), ok)
  {
  }

  lemma {:induction false} LoadOk(s: State, c: nat, k: nat, from: nat, ok: Matches)
    requires s.certs != [] && s.keys != [] && PcOk(s, ReadKey(c, k, from)) && Last(s.keys).Version?
    requires ok(At(s.certs, from).data, Last(s.keys).data)
    ensures var cert, key, o := At(s.certs, from).data, Last(s.keys).data, Origin(c, k, from, |s.keys| - 1);
            var cache := Cache(Some((cert, key)), Mtime(s.certs, c), Mtime(s.keys, k));
            && AnswerOk(s, Answer(cert, key, false, c, k, o), ok)
            && forall t, a :: CacheOk(Report(s, t, a).(cache := cache, origin := o), ok)
  {
  }

  /** Every run, of any number of calls and with files that change at any moment, keeps the invariant: every
      returned pair matches; a loaded one was on disk after its call's own look at the times; a cached one was
      loaded on a look that saw the same times. */
  lemma {:induction false} RunsKeep(s: State, schedule: seq<Action>, ok: Matches)
    requires Inv(s, ok)
    ensures Inv(Execute(s, schedule, ok), ok)
  {
    hide Inv, RunStep;
    Holder(s, 0, ok);
    if schedule != [] {
      var n := |schedule| - 1;
      RunsKeep(s, schedule[..n], ok);
      var u := Execute(s, schedule[..n], ok);
      match schedule[n]
      case RotateCert(v) => RotationKeeps(u, u.(certs := u.certs + [v]), ok);
      case RotateKey(v) => RotationKeeps(u, u.(keys := u.keys + [v]), ok);
      case Run(t) => RunKeeps(u, t, ok);
    }
  }

  lemma {:induction false} InitOk(cert: Version, key: Version, ok: Matches)
    ensures Inv(Init(cert, key), ok)
  {
  }
}
