/** dirty_add and resolve as interleaved steps of any number of threads. */
module DirtyProtocol {
  import opened Options
  import opened Paths
  import opened CaseIndex
  import opened DirtySet
  import opened Resolve

  type Tid = nat

  /** Where a thread is. The Add states belong to dirty_add, the Look states to resolve after its index
      miss; `p` is the rest of the chain still to be compared. A resolve remembers, for the statement
      only, whether an add of its key had returned when it was called. */
  datatype Pc =
    | Idle
    | AddLock(cf: string)
    | AddScan(cf: string, p: Keys)
    | AddLink(cf: string)
    | AddGate(cf: string)
    | AddUnlock(cf: string)
    | LookGate(path: string, before: bool)
    | LookLock(path: string, before: bool)
    | LookScan(path: string, before: bool, p: Keys)
    | LookUnlock(path: string, before: bool, found: bool)

  /** A resolve that returned: whether an add of its key had returned before it was called, whether one had been
      called by the time it returned, and whether it found its key in the set. */
  datatype Event = Event(path: string, before: bool, after: bool, dirty: bool, answer: Answer)

  datatype State = State(
    buckets: seq<Keys>,
    gate: bool,
    lock: Option<Tid>,
    pcs: map<Tid, Pc>,
    called: set<string>,
    returned: set<string>,
    log: seq<Event>)

  datatype Action = CallAdd(path: string) | CallResolve(path: string) | Run

  /** The shared index and the exclusions: written before the first call, never after. */
  datatype Frozen = Frozen(puts: seq<Node>, extra: seq<string>)

  function PcOf(s: State, t: Tid): Pc {
    if t in s.pcs then s.pcs[t] else Idle
  }

  function Goto(s: State, t: Tid, pc: Pc): State {
    s.(pcs := s.pcs[t := pc])
  }

  function Report(f: Frozen, s: State, t: Tid, path: string, before: bool, dirty: bool): State {
    var e := Event(path, before, Fold(path) in s.called, dirty, AnswerFor(f.puts, dirty, f.extra, path));
    Goto(s, t, Idle).(log := s.log + [e])
  }

  function Init(): State {
    State(seq(DIRTY_BUCKETS, _ => Empty), false, None, map[], {}, {}, [])
  }

  /** One step of thread t. A thread that cannot take the mutex stays where it is; a call by a thread
      that is already inside one is no step. */
  function Next(f: Frozen, s: State, t: Tid, a: Action): (r: State)
    requires |s.buckets| == DIRTY_BUCKETS
    ensures |r.buckets| == DIRTY_BUCKETS
  {
    match a
    case CallAdd(path) =>
      if !PcOf(s, t).Idle? || !Tracked(path, f.extra) then s
      else Goto(s, t, AddLock(Fold(path))).(called := s.called + {Fold(path)})
    case CallResolve(path) =>
      if !PcOf(s, t).Idle? then s
      else if !Tracked(path, f.extra) || Lookup(f.puts, Fold(path)).Some?
      then Report(f, s, t, path, Fold(path) in s.returned, false)
      else Goto(s, t, LookGate(path, Fold(path) in s.returned))
    case Run => RunStep(f, s, t)
  }

  function RunStep(f: Frozen, s: State, t: Tid): (r: State)
    requires |s.buckets| == DIRTY_BUCKETS
    ensures |r.buckets| == DIRTY_BUCKETS
  {
    match PcOf(s, t)
    case Idle => s
    case AddLock(cf) =>
      if s.lock.Some? then s else Goto(s, t, AddScan(cf, s.buckets[DirtyBucket(cf)])).(lock := Some(t))
    case AddScan(cf, p) =>
      if p.Empty? then Goto(s, t, AddLink(cf))
      else if p.cf == cf then Goto(s, t, AddUnlock(cf))
      else Goto(s, t, AddScan(cf, p.next))
    case AddLink(cf) =>
      var b := DirtyBucket(cf);
      Goto(s, t, AddGate(cf)).(buckets := s.buckets[b := Key(cf, s.buckets[b])])
    case AddGate(cf) => Goto(s, t, AddUnlock(cf)).(gate := true)
    case AddUnlock(cf) => Goto(s, t, Idle).(lock := None, returned := s.returned + {cf})
    case LookGate(path, before) =>
      if s.gate then Goto(s, t, LookLock(path, before)) else Report(f, s, t, path, before, false)
    case LookLock(path, before) =>
      if s.lock.Some? then s
      else Goto(s, t, LookScan(path, before, s.buckets[DirtyBucket(Fold(path))])).(lock := Some(t))
    case LookScan(path, before, p) =>
      if p.Empty? then Goto(s, t, LookUnlock(path, before, false))
      else if p.cf == Fold(path) then Goto(s, t, LookUnlock(path, before, true))
      else Goto(s, t, LookScan(path, before, p.next))
    case LookUnlock(path, before, found) => Report(f, s, t, path, before, found).(lock := None)
  }

  /** Any run: a schedule of which thread does what next. */
  function Execute(f: Frozen, schedule: seq<(Tid, Action)>): (s: State)
    ensures |s.buckets| == DIRTY_BUCKETS
  {
    if schedule == [] then Init()
    else
      var last := schedule[|schedule| - 1];
      Next(f, Execute(f, schedule[..|schedule| - 1]), last.0, last.1)
  }

  // ---- The invariant ----

  predicate InSet(s: State, cf: string)
    requires |s.buckets| == DIRTY_BUCKETS
  {
    HasKey(s.buckets[DirtyBucket(cf)], cf)
  }

  predicate Critical(pc: Pc) {
    pc.AddScan? || pc.AddLink? || pc.AddGate? || pc.AddUnlock? || pc.LookScan? || pc.LookUnlock?
  }

  predicate PcOk(s: State, pc: Pc)
    requires |s.buckets| == DIRTY_BUCKETS
  {
    match pc
    case Idle => true
    case AddLock(cf) => cf in s.called
    case AddScan(cf, p) => cf in s.called && (InSet(s, cf) <==> HasKey(p, cf))
    case AddLink(cf) => cf in s.called && !InSet(s, cf)
    case AddGate(cf) => cf in s.called && InSet(s, cf)
    case AddUnlock(cf) => cf in s.called && InSet(s, cf) && s.gate
    case LookGate(path, before) => before ==> Fold(path) in s.returned
    case LookLock(path, before) => before ==> Fold(path) in s.returned
    case LookScan(path, before, p) =>
      (before ==> Fold(path) in s.returned) && (InSet(s, Fold(path)) <==> HasKey(p, Fold(path)))
    case LookUnlock(path, before, found) =>
      (before ==> Fold(path) in s.returned) && (InSet(s, Fold(path)) <==> found)
  }

  /** The answer is the one `AnswerFor` gives for some state of the dirty set between call and return. */
  predicate EventOk(f: Frozen, e: Event) {
    exists dirty: bool ::
      (e.before ==> dirty) && (dirty ==> e.after) && e.answer == AnswerFor(f.puts, dirty, f.extra, e.path)
  }

  ghost predicate Inv(f: Frozen, s: State) {
    && |s.buckets| == DIRTY_BUCKETS
    && (forall b :: 0 <= b < DIRTY_BUCKETS ==> Distinct(s.buckets[b]))
    && (forall cf :: cf in s.returned ==> InSet(s, cf))
    && (forall cf :: InSet(s, cf) ==> cf in s.called)
    && (forall cf :: InSet(s, cf) ==> s.gate || (s.lock.Some? && PcOf(s, s.lock.value).AddGate?))
    && (s.returned != {} ==> s.gate)
    && (forall t :: t in s.pcs && Critical(s.pcs[t]) ==> s.lock == Some(t))
    && (forall t :: t in s.pcs ==> PcOk(s, s.pcs[t]))
    && (forall i :: 0 <= i < |s.log| ==> EventOk(f, s.log[i]))
  }

  lemma {:induction false} InitOk(f: Frozen)
    ensures Inv(f, Init())
  {
  }

  /** A thread moving on without touching the chains. */
  lemma {:induction false} MoveKeeps(f: Frozen, s: State, t: Tid, s': State)
    requires Inv(f, s)
    requires s'.pcs == s.pcs[t := PcOf(s', t)]
    requires s'.buckets == s.buckets && s'.log == s.log
    requires s.gate ==> s'.gate
    requires s.called <= s'.called && s.returned <= s'.returned
    requires forall cf :: cf in s'.returned ==> InSet(s, cf)
    requires s'.returned != {} ==> s'.gate
    requires PcOk(s', PcOf(s', t))
    requires s'.lock == s.lock || (s.lock.None? && s'.lock == Some(t)) || (s.lock == Some(t) && s'.lock.None?)
    requires Critical(PcOf(s', t)) ==> s'.lock == Some(t)
    requires PcOf(s, t).AddGate? ==> s'.gate
    ensures Inv(f, s')
  {
    forall u | u in s'.pcs && Critical(s'.pcs[u]) ensures s'.lock == Some(u) {
      if u != t {
        assert u in s.pcs && Critical(s.pcs[u]);
      }
    }
    forall u | u in s'.pcs ensures PcOk(s', s'.pcs[u]) {
      if u != t {
        assert PcOk(s, s.pcs[u]);
      }
    }
    forall cf | InSet(s', cf)
      ensures s'.gate || (s'.lock.Some? && PcOf(s', s'.lock.value).AddGate?)
    {
      assert InSet(s, cf);
    }
  }

  lemma {:induction false} ReportKeeps(f: Frozen, s: State, s': State, e: Event)
    requires Inv(f, s) && EventOk(f, e) && s' == s.(log := s.log + [e])
    ensures Inv(f, s')
  {
    forall t | t in s'.pcs ensures PcOk(s', s'.pcs[t]) {
      assert PcOk(s, s.pcs[t]);
    }
    forall cf | InSet(s', cf)
      ensures cf in s'.called && (s'.gate || (s'.lock.Some? && PcOf(s', s'.lock.value).AddGate?))
    {
      assert InSet(s, cf);
    }
    forall cf | cf in s'.returned ensures InSet(s', cf) {
      assert InSet(s, cf);
    }
  }

  lemma {:induction false} LinkedChains(s: State, s': State, cf: string)
    requires |s.buckets| == DIRTY_BUCKETS && !InSet(s, cf)
    requires s'.buckets == s.buckets[DirtyBucket(cf) := Key(cf, s.buckets[DirtyBucket(cf)])]
    ensures forall k :: InSet(s', k) <==> InSet(s, k) || k == cf
    ensures forall b :: 0 <= b < DIRTY_BUCKETS && Distinct(s.buckets[b]) ==> Distinct(s'.buckets[b])
  {
    hide HashCf;
  }

  /** Linking a new key: the one step that changes a chain. */
  lemma {:induction false} LinkKeeps(f: Frozen, s: State, t: Tid)
    requires Inv(f, s) && PcOf(s, t).AddLink?
    ensures Inv(f, RunStep(f, s, t))
  {
    hide DirtyBucket, Distinct, HasKey, AnswerFor, EventOk;
    var cf, s' := PcOf(s, t).cf, RunStep(f, s, t);
    assert PcOk(s, s.pcs[t]) && Critical(s.pcs[t]);
    LinkedChains(s, s', cf);
    forall u | u in s'.pcs ensures (Critical(s'.pcs[u]) ==> s'.lock == Some(u)) && PcOk(s', s'.pcs[u]) {
      if u != t {
        assert PcOk(s, s.pcs[u]) && !Critical(s.pcs[u]);
      }
    }
    forall b | 0 <= b < DIRTY_BUCKETS ensures Distinct(s'.buckets[b]) {
      assert Distinct(s.buckets[b]);
    }
    forall k | InSet(s', k) ensures k in s'.called {
      assert InSet(s, k) || k == cf;
    }
  }

  predicate Answering(s: State, pc: Pc) {
    (pc.LookGate? && !s.gate) || pc.LookUnlock?
  }

  lemma {:induction false} LookMoves(f: Frozen, s: State, t: Tid)
    requires Inv(f, s)
    requires PcOf(s, t).LookGate? || PcOf(s, t).LookLock? || PcOf(s, t).LookScan?
    requires !Answering(s, PcOf(s, t))
    ensures Inv(f, RunStep(f, s, t))
  {
    hide AnswerFor, Fold, Tracked, Distinct, DirtyBucket;
    var s' := RunStep(f, s, t);
    assert PcOk(s, s.pcs[t]);
    if s' != s {
      MoveKeeps(f, s, t, s');
    }
  }

  lemma {:induction false} LookAnswers(f: Frozen, s: State, t: Tid)
    requires Inv(f, s) && Answering(s, PcOf(s, t))
    ensures Inv(f, RunStep(f, s, t))
  {
    hide AnswerFor, Fold, Tracked, Distinct, DirtyBucket;
    var s', pc := RunStep(f, s, t), s.pcs[t];
    assert PcOk(s, pc);
    var mid := s'.(log := s.log);
    MoveKeeps(f, s, t, mid);
    var e, dirty := s'.log[|s.log|], pc.LookUnlock? && pc.found;
    assert (e.before ==> dirty) && (dirty ==> e.after) && e.answer == AnswerFor(f.puts, dirty, f.extra, e.path);
    ReportKeeps(f, mid, s', e);
  }

  lemma {:induction false} AddKeeps(f: Frozen, s: State, t: Tid)
    requires Inv(f, s)
    requires PcOf(s, t).AddLock? || PcOf(s, t).AddScan? || PcOf(s, t).AddGate? || PcOf(s, t).AddUnlock?
    ensures Inv(f, RunStep(f, s, t))
  {
    hide AnswerFor, Fold, Tracked, Distinct;
    var s' := RunStep(f, s, t);
    assert PcOk(s, s.pcs[t]);
    if s' != s {
      MoveKeeps(f, s, t, s');
    }
  }

  lemma {:induction false} CallKeeps(f: Frozen, s: State, t: Tid, a: Action)
    requires Inv(f, s) && !a.Run?
    ensures Inv(f, Next(f, s, t, a))
  {
    hide Fold, Tracked, Distinct, RunStep;
    var s' := Next(f, s, t, a);
    if s' == s {
    } else if |s'.log| == |s.log| {
      MoveKeeps(f, s, t, s');
    } else {
      var mid := Goto(s, t, Idle);
      MoveKeeps(f, s, t, mid);
      var e := s'.log[|s.log|];
      assert e.answer == AnswerFor(f.puts, e.before, f.extra, e.path);
      assert e.before ==> InSet(s, Fold(e.path));
      ReportKeeps(f, mid, s', e);
    }
  }

  /** Every step of every thread keeps the invariant. */
  lemma {:induction false} NextKeeps(f: Frozen, s: State, t: Tid, a: Action)
    requires Inv(f, s)
    ensures Inv(f, Next(f, s, t, a))
  {
    if !a.Run? {
      CallKeeps(f, s, t, a);
    } else {
      match PcOf(s, t)
      case Idle =>
      case AddLink(_) => LinkKeeps(f, s, t);
      case AddLock(_) => AddKeeps(f, s, t);
      case AddScan(_, _) => AddKeeps(f, s, t);
      case AddGate(_) => AddKeeps(f, s, t);
      case AddUnlock(_) => AddKeeps(f, s, t);
      case _ =>
        if Answering(s, PcOf(s, t)) {
          LookAnswers(f, s, t);
        } else {
          LookMoves(f, s, t);
        }
    }
  }

  lemma {:induction false} RunsKeep(f: Frozen, schedule: seq<(Tid, Action)>)
    ensures Inv(f, Execute(f, schedule))
  {
    if schedule == [] {
      InitOk(f);
    } else {
      var k := |schedule| - 1;
      RunsKeep(f, schedule[..k]);
      NextKeeps(f, Execute(f, schedule[..k]), schedule[k].0, schedule[k].1);
    }
  }

  // ---- What every run guarantees ----

  /** A resolve called after some add of a path with the same fold had returned never reports ENOENT. */
  lemma {:induction false} NoEnoentAfterAdd(f: Frozen, schedule: seq<(Tid, Action)>, i: nat)
    requires i < |Execute(f, schedule).log|
    ensures var e := Execute(f, schedule).log[i]; e.before ==> e.answer != Enoent
  {
    RunsKeep(f, schedule);
    assert EventOk(f, Execute(f, schedule).log[i]);
  }

  /** Every resolve answers as if it had run at one moment between its call and its return: by the
      index alone, or with its key in the dirty set - which takes an add called before the return. */
  lemma {:induction false} ResolvesAreAtomic(f: Frozen, schedule: seq<(Tid, Action)>, i: nat) returns (dirty: bool)
    requires i < |Execute(f, schedule).log|
    ensures var e := Execute(f, schedule).log[i];
            && (e.before ==> dirty) && (dirty ==> e.after)
            && e.answer == AnswerFor(f.puts, dirty, f.extra, e.path)
  {
    RunsKeep(f, schedule);
    var e := Execute(f, schedule).log[i];
    assert EventOk(f, e);
    dirty :| (e.before ==> dirty) && (dirty ==> e.after) && e.answer == AnswerFor(f.puts, dirty, f.extra, e.path);
  }

  // ---- No resolve un-sees a key ----

  /** A resolve that had to ask the set: the index holds nothing for its path. */
  predicate Asks(f: Frozen, e: Event) {
    Tracked(e.path, f.extra) && Lookup(f.puts, Fold(e.path)).None?
  }

  /** What the set must have been for the last answer: with the key found, it is there and the gate is up;
      without, it is not there or the gate is down. */
  predicate LastSaw(f: Frozen, s: State, e: Event)
    requires |s.buckets| == DIRTY_BUCKETS
  {
    && (e.dirty ==> s.gate && InSet(s, Fold(e.path)))
    && (Asks(f, e) && !e.dirty ==> !s.gate || !InSet(s, Fold(e.path)))
    && Answered(f, e)
  }

  /** The answer is the one for what the resolve found in the set. */
  predicate Answered(f: Frozen, e: Event) {
    e.answer == AnswerFor(f.puts, e.dirty, f.extra, e.path)
  }

  /** A step lowers no gate, drops no key and answers at most one resolve, as the set is at that moment. */
  lemma {:induction false} SetGrows(f: Frozen, s: State, t: Tid, a: Action)
    requires Inv(f, s)
    ensures var s' := Next(f, s, t, a);
            && (s.gate ==> s'.gate) && (forall cf :: InSet(s, cf) ==> InSet(s', cf))
            && (s'.log == s.log ||
                (|s'.log| == |s.log| + 1 && s'.log[..|s.log|] == s.log && LastSaw(f, s, s'.log[|s.log|])))
  {
    hide AnswerFor, Fold, Tracked, Distinct, DirtyBucket, Lookup;
    var pc := PcOf(s, t);
    assert t in s.pcs ==> PcOk(s, pc);
    if a.Run? && pc.AddLink? {
      LinkedChains(s, Next(f, s, t, a), pc.cf);
    }
  }

  /** Whatever some resolve found in the set is there to stay, and so every later answer found it too. */
  ghost predicate SeenStays(f: Frozen, s: State)
    requires |s.buckets| == DIRTY_BUCKETS
  {
    && (forall i :: 0 <= i < |s.log| && s.log[i].dirty ==> s.gate && InSet(s, Fold(s.log[i].path)))
    && (forall i, j :: 0 <= i < j < |s.log| ==> SeesToo(f, s.log[i], s.log[j]))
    && (forall i :: 0 <= i < |s.log| ==> Answered(f, s.log[i]))
  }

  predicate SeesToo(f: Frozen, d: Event, e: Event) {
    d.dirty && Fold(d.path) == Fold(e.path) && Asks(f, e) ==> e.dirty
  }

  lemma {:induction false} SeenKeeps(f: Frozen, s: State, t: Tid, a: Action)
    requires |s.buckets| == DIRTY_BUCKETS && Inv(f, s) && SeenStays(f, s)
    ensures SeenStays(f, Next(f, s, t, a))
  {
    hide Inv, Next, InSet, Asks, Fold, AnswerFor;
    SetGrows(f, s, t, a);
    var s' := Next(f, s, t, a);
    forall i | 0 <= i < |s'.log| && s'.log[i].dirty ensures s'.gate && InSet(s', Fold(s'.log[i].path)) {
      assert i < |s.log| ==> s'.log[i] == s.log[i];
    }
    forall i, j | 0 <= i < j < |s'.log| ensures SeesToo(f, s'.log[i], s'.log[j]) {
      assert s'.log[i] == s.log[i];
      assert j < |s.log| ==> s'.log[j] == s.log[j];
    }
    forall i | 0 <= i < |s'.log| ensures Answered(f, s'.log[i]) {
      assert i < |s.log| ==> s'.log[i] == s.log[i];
    }
  }

  lemma {:induction false} RunsSeen(f: Frozen, schedule: seq<(Tid, Action)>)
    ensures SeenStays(f, Execute(f, schedule))
  {
    hide Inv, Next, SeenStays;
    if schedule == [] {
      NothingSeen(f);
    } else {
      var k := |schedule| - 1;
      RunsKeep(f, schedule[..k]);
      RunsSeen(f, schedule[..k]);
      SeenKeeps(f, Execute(f, schedule[..k]), schedule[k].0, schedule[k].1);
    }
  }

  lemma {:induction false} NothingSeen(f: Frozen)
    ensures SeenStays(f, Init())
  {
  }

  /** No inversion: once a resolve has answered with its key in the set, every resolve of that fold that asks the
      set and answers after it - whenever it was called - finds the key as well, so none of them says ENOENT. */
  lemma {:induction false} NoInversion(f: Frozen, schedule: seq<(Tid, Action)>, i: nat, j: nat)
    requires i < j < |Execute(f, schedule).log|
    ensures var d, e := Execute(f, schedule).log[i], Execute(f, schedule).log[j];
            d.dirty && Fold(d.path) == Fold(e.path) && Asks(f, e) ==> e.dirty && e.answer != Enoent
  {
    hide Execute, Inv, Fold, Tracked, Lookup, MissAnswer;
    RunsSeen(f, schedule);
    var s := Execute(f, schedule);
    assert SeesToo(f, s.log[i], s.log[j]);
    assert Answered(f, s.log[j]);
  }

  /** No chain ever holds a key twice, and the chains hold every key whose add returned and no key that
      was never added. */
  lemma {:induction false} ChainsHoldTheAdded(f: Frozen, schedule: seq<(Tid, Action)>, b: nat, cf: string)
    requires b < DIRTY_BUCKETS
    ensures var s := Execute(f, schedule);
            && Distinct(s.buckets[b])
            && (cf in s.returned ==> InSet(s, cf))
            && (InSet(s, cf) ==> cf in s.called)
  {
    RunsKeep(f, schedule);
  }

  /** While no tracked path has been passed to dirty_add, the gate is down and no thread is on its way
      to the mutex: reads stay lock-free. */
  lemma {:induction false} ReadsAreLockFree(f: Frozen, schedule: seq<(Tid, Action)>, t: Tid)
    requires forall i :: 0 <= i < |schedule| && schedule[i].1.CallAdd? ==> !Tracked(schedule[i].1.path, f.extra)
    ensures var s := Execute(f, schedule);
            !s.gate && s.lock.None? && (PcOf(s, t).Idle? || PcOf(s, t).LookGate?)
  {
    LockFreeRun(f, schedule);
  }

  lemma {:induction false} LockFreeRun(f: Frozen, schedule: seq<(Tid, Action)>)
    requires forall i :: 0 <= i < |schedule| && schedule[i].1.CallAdd? ==> !Tracked(schedule[i].1.path, f.extra)
    ensures var s := Execute(f, schedule);
            !s.gate && s.lock.None? && forall t :: t in s.pcs ==> s.pcs[t].Idle? || s.pcs[t].LookGate?
  {
    if schedule != [] {
      LockFreeRun(f, schedule[..|schedule| - 1]);
    }
  }

  // ---- Which resolves ask the set ----

  /** The path of a resolve that asks the set, from reading the gate to letting go of the mutex. */
  function Asking(pc: Pc): Option<string> {
    match pc
    case LookGate(path, _) => Some(path)
    case LookLock(path, _) => Some(path)
    case LookScan(path, _, _) => Some(path)
    case LookUnlock(path, _, _) => Some(path)
    case _ => None
  }

  predicate AsksMissing(f: Frozen, pc: Pc) {
    Asking(pc).Some? ==> Tracked(Asking(pc).value, f.extra) && Lookup(f.puts, Fold(Asking(pc).value)).None?
  }

  ghost predicate AllAskMissing(f: Frozen, s: State) {
    forall t :: AsksMissing(f, PcOf(s, t))
  }

  lemma {:induction false} OthersStand(f: Frozen, s: State, t: Tid, a: Action, u: Tid)
    requires |s.buckets| == DIRTY_BUCKETS && u != t
    ensures PcOf(Next(f, s, t, a), u) == PcOf(s, u)
  {
    hide Fold, Tracked, Lookup, AnswerFor, DirtyBucket, RunStep;
    if a.Run? {
      OthersWait(f, s, t, u);
    }
  }

  lemma {:induction false} OthersWait(f: Frozen, s: State, t: Tid, u: Tid)
    requires |s.buckets| == DIRTY_BUCKETS && u != t
    ensures PcOf(RunStep(f, s, t), u) == PcOf(s, u)
  {
    hide Fold, DirtyBucket, Goto, Report;
    GotoOne(f, s, t);
  }

  lemma {:induction false} GotoOne(f: Frozen, s: State, t: Tid)
    ensures forall pc :: Goto(s, t, pc).pcs == s.pcs[t := pc]
    ensures forall path, before, dirty :: Report(f, s, t, path, before, dirty).pcs == s.pcs[t := Idle]
  {
    hide Fold, AnswerFor;
  }

  lemma {:induction false} NextAsksMissing(f: Frozen, s: State, t: Tid, a: Action)
    requires |s.buckets| == DIRTY_BUCKETS && AllAskMissing(f, s)
    ensures AllAskMissing(f, Next(f, s, t, a))
  {
    hide Next, AsksMissing, PcOf;
    var s' := Next(f, s, t, a);
    forall u ensures AsksMissing(f, PcOf(s', u)) {
      if u == t {
        OwnAsksMissing(f, s, t, a);
      } else {
        OthersStand(f, s, t, a, u);
      }
    }
  }

  lemma {:induction false} OwnAsksMissing(f: Frozen, s: State, t: Tid, a: Action)
    requires |s.buckets| == DIRTY_BUCKETS && AsksMissing(f, PcOf(s, t))
    ensures AsksMissing(f, PcOf(Next(f, s, t, a), t))
  {
    hide Fold, Tracked, Lookup, AnswerFor, DirtyBucket;
  }

  /** In every run a resolve asks the set only for a path that the cache answers for and the index does not hold. */
  lemma {:induction false} OnlyMissesAsk(f: Frozen, schedule: seq<(Tid, Action)>)
    ensures AllAskMissing(f, Execute(f, schedule))
  {
    hide Next, AllAskMissing;
    if schedule == [] {
      NoneAsks(f);
    } else {
      var n := |schedule| - 1;
      OnlyMissesAsk(f, schedule[..n]);
      NextAsksMissing(f, Execute(f, schedule[..n]), schedule[n].0, schedule[n].1);
    }
  }

  lemma {:induction false} NoneAsks(f: Frozen)
    ensures AllAskMissing(f, Init())
  {
  }
}
