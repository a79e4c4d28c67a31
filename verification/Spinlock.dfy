/** The two-core recursive spinlock, one shared-memory access per step.

    A core runs one call at a time (interrupts are masked inside a call), memory is sequentially
    consistent and compare-and-set is atomic. Between calls a client may acquire again while it
    nests fewer than `maxNest` times, and may release only what it holds. */
module Spinlock {
  import opened Bytes

  const FREE: nat := 0xB33FFFFF
  const OWNER_ID_0: nat := 0xCDCD
  const OWNER_ID_1: nat := 0xABAB

  /** `doubleLoad`: the timed-out assertion reads `owner` once per comparison. This is certain when
      `owner` is volatile, which a build option decides, and up to the compiler when it is not. */
  datatype Config = Config(doubleLoad: bool, maxNest: nat)

  datatype Timeout = NoWait | Forever | Cycles

  /** The next shared access of a core; `Idle` is outside any call. */
  datatype Pc =
    | Idle
    | AcqOwner(t: Timeout)
    | NestLow | NestHigh | NestLoad | NestStore(tmp: nat)
    | FirstCas(t: Timeout) | RetryCas(t: Timeout)
    | TakenOwner | TakenCount | TakenLoad | TakenStore(tmp: nat)
    | MissFirst | MissSecond | MissCount
    | RelOwner | RelLoad | RelStore(tmp: nat) | RelTest | RelFree | RelBound
    | Failed

  /** `held`: successful acquires that returned, minus releases that were called. */
  datatype Core = Core(pc: Pc, held: nat)

  datatype Word = Word(owner: nat, count: nat)

  datatype State = State(lock: Word, core0: Core, core1: Core)

  datatype Action =
    | CallAcquire(second: bool, t: Timeout)
    | CallRelease(second: bool)
    | Access(second: bool, expired: bool)   // `expired`: the cycle counter passed the timeout

  const INIT := State(Word(FREE, 0), Core(Idle, 0), Core(Idle, 0))

  function Id(second: bool): nat { if second then OWNER_ID_1 else OWNER_ID_0 }

  function At(s: State, second: bool): Core { if second then s.core1 else s.core0 }

  function Put(s: State, second: bool, lock: Word, me: Core): State {
    if second then State(lock, s.core0, me) else State(lock, me, s.core1)
  }

  /** An assertion: the core stops in `Failed` unless `ok`. */
  function Check(ok: bool, pc: Pc): Pc { if ok then pc else Failed }

  /** One shared access of the core with owner value `id`. */
  function AccessStep(cfg: Config, lock: Word, me: Core, id: nat, other: nat, expired: bool): (r: (Word, Core))
    requires me.pc != Idle && me.pc != Failed
  {
    match me.pc
    // The caller already owns the lock: check and raise the nesting count.
    case AcqOwner(t) => (lock, me.(pc := if lock.owner == id then NestLow else FirstCas(t)))
    case NestLow => (lock, me.(pc := Check(lock.count > 0, NestHigh)))
    case NestHigh => (lock, me.(pc := Check(lock.count < 0xFF, NestLoad)))
    case NestLoad => (lock, me.(pc := NestStore(lock.count)))
    case NestStore(tmp) => (lock.(count := tmp + 1), Core(Idle, me.held + 1))
    // Compare and set, once or in the retry loop.
    case FirstCas(t) =>
      if lock.owner == FREE then (lock.(owner := id), me.(pc := TakenOwner))
      else (lock, me.(pc := if t == NoWait then MissFirst else RetryCas(t)))
    case RetryCas(t) =>
      if lock.owner == FREE then (lock.(owner := id), me.(pc := TakenOwner))
      else (lock, me.(pc := if t != Forever && expired then MissFirst else RetryCas(t)))
    case TakenOwner => (lock, me.(pc := Check(lock.owner == id, TakenCount)))
    case TakenCount => (lock, me.(pc := Check(lock.count == 0, TakenLoad)))
    case TakenLoad => (lock, me.(pc := TakenStore(lock.count)))
    case TakenStore(tmp) => (lock.(count := tmp + 1), Core(Idle, me.held + 1))
    // Timed out: the owner must be free or the other core.
    case MissFirst =>
      (lock, me.(pc := if lock.owner == FREE then MissCount
                       else if cfg.doubleLoad then MissSecond
                       else Check(lock.owner == other, MissCount)))
    case MissSecond => (lock, me.(pc := Check(lock.owner == other, MissCount)))
    case MissCount => (lock, me.(pc := Check(lock.count < 0xFF, Idle)))
    // Release.
    case RelOwner => (lock, me.(pc := Check(lock.owner == id, RelLoad)))
    case RelLoad => (lock, me.(pc := RelStore(lock.count)))
    case RelStore(tmp) => (lock.(count := (tmp - 1) % 0x1_0000_0000), me.(pc := RelTest))
    case RelTest => (lock, me.(pc := if lock.count == 0 then RelFree else RelBound))
    case RelFree => (lock.(owner := FREE), me.(pc := Idle))
    case RelBound => (lock, me.(pc := Check(lock.count < 0x100, Idle)))
  }

  predicate Enabled(cfg: Config, s: State, a: Action) {
    var me := At(s, a.second);
    match a
    case CallAcquire(_, _) => me.pc == Idle && me.held < cfg.maxNest
    case CallRelease(_) => me.pc == Idle && me.held > 0
    case Access(_, _) => me.pc != Idle && me.pc != Failed
  }

  function Step(cfg: Config, s: State, a: Action): State
    requires Enabled(cfg, s, a)
  {
    var me := At(s, a.second);
    match a
    case CallAcquire(_, t) => Put(s, a.second, s.lock, me.(pc := AcqOwner(t)))
    case CallRelease(_) => Put(s, a.second, s.lock, Core(RelOwner, me.held - 1))
    case Access(_, expired) =>
      var (lock, me') := AccessStep(cfg, s.lock, me, Id(a.second), Id(!a.second), expired);
      Put(s, a.second, lock, me')
  }

  /** An interleaving of both cores' calls and accesses, from the initial state. */
  datatype Run = Start | Then(before: Run, a: Action)

  /** The state a run ends in; None when one of its actions was not enabled. */
  function After(cfg: Config, run: Run): Option<State> {
    match run
    case Start => Some(INIT)
    case Then(before, a) =>
      match After(cfg, before)
      case Some(s) => if Enabled(cfg, s, a) then Some(Step(cfg, s, a)) else None
      case None => None
  }

  predicate NoAssertFailed(s: State) { s.core0.pc != Failed && s.core1.pc != Failed }

  // ---------------------------------------------------------------------------------------------
  // The inductive invariant

  /** The configurations in which every assertion holds (see `AssertsHoldExactlyWhenSound`). */
  predicate Sound(cfg: Config) { !cfg.doubleLoad && cfg.maxNest <= 0xFE }

  /** The owner word names this core. A core that failed an assertion keeps what it held. */
  predicate Owns(me: Core) {
    match me.pc
    case Idle | AcqOwner(_) | Failed => me.held > 0
    case FirstCas(_) | RetryCas(_) | MissFirst | MissSecond | MissCount => false
    case _ => true
  }

  /** What an owner knows about `count`, and what its program point says about its nesting. */
  predicate CountMatches(cfg: Config, me: Core, count: nat) {
    match me.pc
    case Idle => me.held > 0 ==> count == me.held
    case AcqOwner(_) => me.held < cfg.maxNest && (me.held > 0 ==> count == me.held)
    case NestLow | NestHigh => 0 < me.held < cfg.maxNest && count == me.held
    case NestLoad => 0 < me.held < cfg.maxNest && count == me.held < 0xFF
    case NestStore(tmp) => 0 < me.held < cfg.maxNest && count == me.held == tmp < 0xFF
    case FirstCas(_) | RetryCas(_) => me.held == 0 && 0 < cfg.maxNest
    case MissFirst | MissCount => me.held == 0
    case MissSecond => me.held == 0 && cfg.doubleLoad
    case TakenOwner | TakenCount | TakenLoad => me.held == 0 && count == 0 && 0 < cfg.maxNest
    case TakenStore(tmp) => me.held == 0 && count == 0 && tmp == 0 && 0 < cfg.maxNest
    case RelOwner | RelLoad => me.held < cfg.maxNest && count == me.held + 1
    case RelStore(tmp) => me.held < cfg.maxNest && count == me.held + 1 == tmp
    case RelTest => me.held < cfg.maxNest && count == me.held
    case RelFree => me.held == 0 && count == 0
    case RelBound => 0 < me.held < cfg.maxNest && count == me.held
    case Failed => !Sound(cfg) && (me.held > 0 ==> count == me.held)
  }

  predicate CoreInv(cfg: Config, lock: Word, me: Core, id: nat) {
    && me.held <= cfg.maxNest
    && (Owns(me) <==> lock.owner == id)
    && CountMatches(cfg, me, lock.count)
  }

  predicate LockInv(cfg: Config, lock: Word, id: nat, other: nat) {
    && (lock.owner == FREE || lock.owner == id || lock.owner == other)
    && (lock.owner == FREE ==> lock.count == 0)
    && lock.count <= cfg.maxNest && lock.count <= 0xFF
  }

  predicate Inv(cfg: Config, s: State) {
    && LockInv(cfg, s.lock, OWNER_ID_0, OWNER_ID_1)
    && CoreInv(cfg, s.lock, s.core0, OWNER_ID_0)
    && CoreInv(cfg, s.lock, s.core1, OWNER_ID_1)
  }

  lemma {:induction false} AccessKeepsOwn(cfg: Config, lock: Word, me: Core, id: nat, other: nat, expired: bool)
    requires id != other && id != FREE && other != FREE && me.pc != Idle && me.pc != Failed
    requires LockInv(cfg, lock, id, other) && CoreInv(cfg, lock, me, id)
    ensures var (lock', me') := AccessStep(cfg, lock, me, id, other, expired);
            && LockInv(cfg, lock', id, other) && CoreInv(cfg, lock', me', id)
            && (lock' == lock || (lock'.owner != other && lock.owner != other))
  {
  }

  /** One access keeps the invariant of the core that makes it and of the one that does not. */
  lemma {:induction false} AccessKeepsInv(cfg: Config, lock: Word, me: Core, you: Core, id: nat, other: nat,
                                          expired: bool)
    requires id != other && id != FREE && other != FREE && me.pc != Idle && me.pc != Failed
    requires LockInv(cfg, lock, id, other)
    requires CoreInv(cfg, lock, me, id) && CoreInv(cfg, lock, you, other)
    ensures var (lock', me') := AccessStep(cfg, lock, me, id, other, expired);
            && LockInv(cfg, lock', id, other)
            && CoreInv(cfg, lock', me', id)
            && CoreInv(cfg, lock', you, other)
  {
    AccessKeepsOwn(cfg, lock, me, id, other, expired);
    OtherKept(cfg, lock, AccessStep(cfg, lock, me, id, other, expired).0, you, other);
  }

  /** A core that does not own the lock does not care about its words. */
  lemma OtherKept(cfg: Config, lock: Word, lock': Word, you: Core, other: nat)
    requires CoreInv(cfg, lock, you, other) && (lock' == lock || (lock'.owner != other && lock.owner != other))
    ensures CoreInv(cfg, lock', you, other)
  {
  }

  lemma {:induction false} InvPreserved(cfg: Config, s: State, a: Action)
    requires Inv(cfg, s) && Enabled(cfg, s, a)
    ensures Inv(cfg, Step(cfg, s, a))
  {
    if a.Access? {
      AccessKeepsInv(cfg, s.lock, At(s, a.second), At(s, !a.second), Id(a.second), Id(!a.second), a.expired);
    }
  }

  lemma {:induction false} InvReachable(cfg: Config, run: Run)
    requires After(cfg, run).Some?
    ensures Inv(cfg, After(cfg, run).value)
  {
    if run.Then? {
      InvReachable(cfg, run.before);
      InvPreserved(cfg, After(cfg, run.before).value, run.a);
    }
  }

  /** Safety over every interleaving of every configuration: the cores never hold the lock
      together, a free owner word implies count 0 and no holder, and a holder between calls sees its
      own nesting count. In the sound configurations no assertion fails. */
  lemma MutualExclusion(cfg: Config, run: Run)
    requires After(cfg, run).Some?
    ensures var s := After(cfg, run).value;
            && (Sound(cfg) ==> NoAssertFailed(s))
            && (s.core0.held == 0 || s.core1.held == 0)
            && (s.lock.owner == FREE ==> s.lock.count == 0 && s.core0.held == s.core1.held == 0)
            && (forall second :: At(s, second).pc == Idle && At(s, second).held > 0
                  ==> s.lock == Word(Id(second), At(s, second).held))
            && (s.core0.pc == s.core1.pc == Idle ==>
                  (s.lock.owner == FREE <==> s.core0.held == s.core1.held == 0))
  {
    InvReachable(cfg, run);
  }

  // ---------------------------------------------------------------------------------------------
  // The other configurations

  /** Core 0 holds the lock `n` times, core 1 is elsewhere. */
  function Nested(n: nat, core1: Core): State
    requires n > 0
  {
    State(Word(OWNER_ID_0, n), Core(Idle, n), core1)
  }

  function Accesses(run: Run, second: bool, n: nat): Run {
    if n == 0 then run else Then(Accesses(run, second, n - 1), Access(second, false))
  }

  /** Core 0 acquires a free lock: up to the compare-and-set, then up to the store of the count. */
  lemma TakesOwner(cfg: Config)
    requires cfg.maxNest > 0
    ensures After(cfg, Accesses(Then(Start, CallAcquire(false, Forever)), false, 2))
         == Some(State(Word(OWNER_ID_0, 0), Core(TakenOwner, 0), Core(Idle, 0)))
  {
    var r := Then(Start, CallAcquire(false, Forever));
    assert After(cfg, r) == Some(INIT.(core0 := Core(AcqOwner(Forever), 0))) by {
      assert After(cfg, Start) == Some(INIT);
    }
    assert After(cfg, Accesses(r, false, 1)) == Some(INIT.(core0 := Core(FirstCas(Forever), 0)));
  }

  lemma LoadsTaken(cfg: Config, r: Run)
    requires cfg.maxNest > 0
    requires After(cfg, Accesses(r, false, 2)) == Some(State(Word(OWNER_ID_0, 0), Core(TakenOwner, 0), Core(Idle, 0)))
    ensures After(cfg, Accesses(r, false, 4)) == Some(State(Word(OWNER_ID_0, 0), Core(TakenLoad, 0), Core(Idle, 0)))
  {
    assert After(cfg, Accesses(r, false, 3)) == Some(State(Word(OWNER_ID_0, 0), Core(TakenCount, 0), Core(Idle, 0)));
  }

  lemma StoresTaken(cfg: Config, r: Run)
    requires cfg.maxNest > 0
    requires After(cfg, Accesses(r, false, 4)) == Some(State(Word(OWNER_ID_0, 0), Core(TakenLoad, 0), Core(Idle, 0)))
    ensures After(cfg, Accesses(r, false, 6)) == Some(Nested(1, Core(Idle, 0)))
  {
    assert After(cfg, Accesses(r, false, 5)) == Some(State(Word(OWNER_ID_0, 0), Core(TakenStore(0), 0), Core(Idle, 0)));
  }

  lemma FirstAcquire(cfg: Config)
    requires cfg.maxNest > 0
    ensures After(cfg, Accesses(Then(Start, CallAcquire(false, Forever)), false, 6)) == Some(Nested(1, Core(Idle, 0)))
  {
    TakesOwner(cfg);
    LoadsTaken(cfg, Then(Start, CallAcquire(false, Forever)));
    StoresTaken(cfg, Then(Start, CallAcquire(false, Forever)));
  }

  lemma NestedChecks(cfg: Config, run: Run, n: nat)
    requires 0 < n < cfg.maxNest && n < 0xFF
    requires After(cfg, run) == Some(Nested(n, Core(Idle, 0)))
    ensures After(cfg, Accesses(Then(run, CallAcquire(false, Forever)), false, 3))
         == Some(Nested(n, Core(Idle, 0)).(core0 := Core(NestLoad, n)))
  {
    var s := Nested(n, Core(Idle, 0));
    var r := Then(run, CallAcquire(false, Forever));
    assert After(cfg, r) == Some(s.(core0 := Core(AcqOwner(Forever), n)));
    assert After(cfg, Accesses(r, false, 1)) == Some(s.(core0 := Core(NestLow, n)));
    assert After(cfg, Accesses(r, false, 2)) == Some(s.(core0 := Core(NestHigh, n)));
  }

  lemma NestedStores(cfg: Config, r: Run, n: nat)
    requires 0 < n < cfg.maxNest && n < 0xFF
    requires After(cfg, Accesses(r, false, 4)) == Some(Nested(n, Core(Idle, 0)).(core0 := Core(NestStore(n), n)))
    ensures After(cfg, Accesses(r, false, 5)) == Some(Nested(n + 1, Core(Idle, 0)))
  {
  }

  lemma NestedLoads(cfg: Config, r: Run, n: nat)
    requires 0 < n < cfg.maxNest && n < 0xFF
    requires After(cfg, Accesses(r, false, 3)) == Some(Nested(n, Core(Idle, 0)).(core0 := Core(NestLoad, n)))
    ensures After(cfg, Accesses(r, false, 4)) == Some(Nested(n, Core(Idle, 0)).(core0 := Core(NestStore(n), n)))
  {
  }

  lemma NextAcquire(cfg: Config, run: Run, n: nat)
    requires 0 < n < cfg.maxNest && n < 0xFF
    requires After(cfg, run) == Some(Nested(n, Core(Idle, 0)))
    ensures After(cfg, Accesses(Then(run, CallAcquire(false, Forever)), false, 5)) == Some(Nested(n + 1, Core(Idle, 0)))
  {
    var r := Then(run, CallAcquire(false, Forever));
    NestedChecks(cfg, run, n);
    NestedLoads(cfg, r, n);
    NestedStores(cfg, r, n);
  }

  lemma {:induction false} NestedAcquires(cfg: Config, n: nat) returns (run: Run)
    requires 0 < n <= cfg.maxNest && n <= 0xFF
    ensures After(cfg, run) == Some(Nested(n, Core(Idle, 0)))
  {
    if n == 1 {
      FirstAcquire(cfg);
      run := Accesses(Then(Start, CallAcquire(false, Forever)), false, 6);
    } else {
      run := NestedAcquires(cfg, n - 1);
      NextAcquire(cfg, run, n - 1);
      run := Accesses(Then(run, CallAcquire(false, Forever)), false, 5);
    }
  }

  /** Core 1 tries without waiting and goes as far as its first look at the foreign owner. */
  lemma OtherMisses(cfg: Config, run: Run, n: nat)
    requires 0 < n && cfg.maxNest > 0 && After(cfg, run) == Some(Nested(n, Core(Idle, 0)))
    ensures After(cfg, Accesses(Then(run, CallAcquire(true, NoWait)), true, 3))
         == Some(Nested(n, Core(if cfg.doubleLoad then MissSecond else MissCount, 0)))
  {
    var r := Then(run, CallAcquire(true, NoWait));
    assert After(cfg, r) == Some(Nested(n, Core(AcqOwner(NoWait), 0)));
    assert After(cfg, Accesses(r, true, 1)) == Some(Nested(n, Core(FirstCas(NoWait), 0)));
    assert After(cfg, Accesses(r, true, 2)) == Some(Nested(n, Core(MissFirst, 0)));
  }

  /** The second look at an owner that has not changed. */
  lemma SecondLookPasses(cfg: Config, run: Run, n: nat)
    requires 0 < n && After(cfg, run) == Some(Nested(n, Core(MissSecond, 0)))
    ensures After(cfg, Then(run, Access(true, false))) == Some(Nested(n, Core(MissCount, 0)))
  {
  }

  /** At depth 0xFF the look at the count fails. */
  lemma CountLookFails(cfg: Config, run: Run)
    requires After(cfg, run) == Some(Nested(0xFF, Core(MissCount, 0)))
    ensures After(cfg, Then(run, Access(true, false))).Some?
    ensures !NoAssertFailed(After(cfg, Then(run, Access(true, false))).value)
  {
  }

  /** Nesting to 0xFF: the other core's timed-out acquire fails its count assertion. */
  lemma DeepNestingFails(cfg: Config) returns (run: Run)
    requires cfg.maxNest >= 0xFF
    ensures After(cfg, run).Some? && !NoAssertFailed(After(cfg, run).value)
  {
    run := NestedAcquires(cfg, 0xFF);
    OtherMisses(cfg, run, 0xFF);
    run := Accesses(Then(run, CallAcquire(true, NoWait)), true, 3);
    if cfg.doubleLoad {
      SecondLookPasses(cfg, run, 0xFF);
      run := Then(run, Access(true, false));
    }
    CountLookFails(cfg, run);
    run := Then(run, Access(true, false));
  }

  lemma ReleaseStarts(cfg: Config, run: Run, core1: Core)
    requires After(cfg, run) == Some(Nested(1, core1))
    ensures After(cfg, Accesses(Then(run, CallRelease(false)), false, 1))
         == Some(State(Word(OWNER_ID_0, 1), Core(RelLoad, 0), core1))
  {
    assert After(cfg, Then(run, CallRelease(false))) == Some(State(Word(OWNER_ID_0, 1), Core(RelOwner, 0), core1));
  }

  lemma ReleaseCounts(cfg: Config, r: Run, core1: Core)
    requires After(cfg, Accesses(r, false, 1)) == Some(State(Word(OWNER_ID_0, 1), Core(RelLoad, 0), core1))
    ensures After(cfg, Accesses(r, false, 3)) == Some(State(Word(OWNER_ID_0, 0), Core(RelTest, 0), core1))
  {
    assert After(cfg, Accesses(r, false, 2)) == Some(State(Word(OWNER_ID_0, 1), Core(RelStore(1), 0), core1));
  }

  lemma ReleaseFrees(cfg: Config, r: Run, core1: Core)
    requires After(cfg, Accesses(r, false, 3)) == Some(State(Word(OWNER_ID_0, 0), Core(RelTest, 0), core1))
    ensures After(cfg, Accesses(r, false, 5)) == Some(State(Word(FREE, 0), Core(Idle, 0), core1))
  {
    assert After(cfg, Accesses(r, false, 4)) == Some(State(Word(OWNER_ID_0, 0), Core(RelFree, 0), core1));
  }

  lemma LastRelease(cfg: Config, run: Run, core1: Core)
    requires After(cfg, run) == Some(Nested(1, core1))
    ensures After(cfg, Accesses(Then(run, CallRelease(false)), false, 5))
         == Some(State(Word(FREE, 0), Core(Idle, 0), core1))
  {
    var r := Then(run, CallRelease(false));
    ReleaseStarts(cfg, run, core1);
    ReleaseCounts(cfg, r, core1);
    ReleaseFrees(cfg, r, core1);
  }

  lemma SecondLookFails(cfg: Config, run: Run)
    requires After(cfg, run) == Some(State(Word(FREE, 0), Core(Idle, 0), Core(MissSecond, 0)))
    ensures After(cfg, Then(run, Access(true, false))).Some?
    ensures !NoAssertFailed(After(cfg, Then(run, Access(true, false))).value)
  {
  }

  /** Two loads of `owner`: the holder frees the lock between the two comparisons. */
  lemma DoubleLoadFails(cfg: Config) returns (run: Run)
    requires cfg.doubleLoad && cfg.maxNest > 0
    ensures After(cfg, run).Some? && !NoAssertFailed(After(cfg, run).value)
  {
    run := NestedAcquires(cfg, 1);
    OtherMisses(cfg, run, 1);
    run := Accesses(Then(run, CallAcquire(true, NoWait)), true, 3);
    LastRelease(cfg, run, Core(MissSecond, 0));
    run := Accesses(Then(run, CallRelease(false)), false, 5);
    SecondLookFails(cfg, run);
    run := Then(run, Access(true, false));
  }

  /** Exactly the sound configurations keep every assertion in every run. */
  lemma AssertsHoldExactlyWhenSound(cfg: Config)
    requires cfg.maxNest > 0
    ensures (forall run :: After(cfg, run).Some? ==> NoAssertFailed(After(cfg, run).value)) <==> Sound(cfg)
  {
    if Sound(cfg) {
      forall run | After(cfg, run).Some?
        ensures NoAssertFailed(After(cfg, run).value)
      {
        MutualExclusion(cfg, run);
      }
    } else if cfg.doubleLoad {
      var run := DoubleLoadFails(cfg);
    } else {
      var run := DeepNestingFails(cfg);
    }
  }
}
