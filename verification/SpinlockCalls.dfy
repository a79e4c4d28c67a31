/** What a call of the spinlock does: its result in every interleaving, and its whole effect when the
    other core does not touch the lock meanwhile. */
module SpinlockCalls {
  import opened Bytes
  import opened Spinlock

  // ---------------------------------------------------------------------------------------------
  // Results in every run

  /** The last call of a core: what it asked for, how often it held the lock then, and whether one of
      its accesses since found the timeout passed. */
  datatype Call = NoCall | Acquire(t: Timeout, held: nat, expired: bool) | Release(held: nat)

  function LastCall(cfg: Config, run: Run, second: bool): Call
    requires After(cfg, run).Some?
  {
    match run
    case Start => NoCall
    case Then(before, a) =>
      var last := LastCall(cfg, before, second);
      if a.second != second then last
      else
        match a
        case CallAcquire(_, t) => Acquire(t, At(After(cfg, before).value, second).held, false)
        case CallRelease(_) => Release(At(After(cfg, before).value, second).held)
        case Access(_, expired) => if last.Acquire? then last.(expired := last.expired || expired) else last
  }

  /** What an acquire may leave: one more hold, or the same number when it may give up. */
  predicate Returned(held: nat, call: Call) {
    match call
    case NoCall => held == 0
    case Acquire(t, h, expired) =>
      held == h + 1 || (held == h && (t == NoWait || (t == Cycles && expired)))
    case Release(h) => held + 1 == h
  }

  /** What the program point says about the call in progress. */
  predicate InCall(me: Core, call: Call) {
    match me.pc
    case Idle => Returned(me.held, call)
    case AcqOwner(t) => call.Acquire? && call.t == t && call.held == me.held
    case FirstCas(t) => call.Acquire? && call.t == t && call.held == me.held
    case RetryCas(t) => call.Acquire? && call.t == t && t != NoWait && call.held == me.held
    case NestLow | NestHigh | NestLoad | NestStore(_) | TakenOwner | TakenCount | TakenLoad | TakenStore(_) =>
      call.Acquire? && call.held == me.held
    case MissFirst | MissSecond | MissCount =>
      call.Acquire? && call.held == me.held && (call.t == NoWait || (call.t == Cycles && call.expired))
    case RelOwner | RelLoad | RelStore(_) | RelTest | RelFree | RelBound =>
      call.Release? && me.held + 1 == call.held
    case Failed => true
  }

  lemma AccessInCall(cfg: Config, lock: Word, me: Core, id: nat, other: nat, expired: bool, call: Call)
    requires me.pc != Idle && me.pc != Failed && InCall(me, call)
    ensures var now := if call.Acquire? then call.(expired := call.expired || expired) else call;
            InCall(AccessStep(cfg, lock, me, id, other, expired).1, now)
  {
  }

  lemma {:induction false} CallInProgress(cfg: Config, run: Run, second: bool)
    requires After(cfg, run).Some?
    ensures InCall(At(After(cfg, run).value, second), LastCall(cfg, run, second))
  {
    if run.Then? {
      var s := After(cfg, run.before).value;
      CallInProgress(cfg, run.before, second);
      if run.a.second == second && run.a.Access? {
        AccessInCall(cfg, s.lock, At(s, second), Id(second), Id(!second), run.a.expired,
                     LastCall(cfg, run.before, second));
      }
    }
  }

  /** In every run of every configuration: an acquire that waits forever returns with the lock held
      once more. One that does not wait, or waits for some cycles, returns with it held once more or
      as often as before, and the latter after some cycles only if an access found them passed. A
      release returns with the lock held once less. */
  lemma {:induction false} CallReturns(cfg: Config, run: Run, second: bool)
    requires After(cfg, run).Some? && At(After(cfg, run).value, second).pc == Idle
    ensures var held, call := At(After(cfg, run).value, second).held, LastCall(cfg, run, second);
            && (call.Acquire? && call.t == Forever ==> held == call.held + 1)
            && (call.Acquire? ==> held == call.held + 1 || held == call.held)
            && (call.Acquire? && call.t == Cycles && held == call.held ==> call.expired)
            && (call.Release? ==> held + 1 == call.held)
  {
    CallInProgress(cfg, run, second);
  }

  // ---------------------------------------------------------------------------------------------
  // Calls that the other core does not disturb

  /** The core makes one access; the other one stays where it is. */
  lemma Own(cfg: Config, run: Run, s: State, second: bool, lock: Word, me: Core, expired: bool) returns (next: Run)
    requires After(cfg, run) == Some(Put(s, second, lock, me)) && me.pc != Idle && me.pc != Failed
    ensures var (lock', me') := AccessStep(cfg, lock, me, Id(second), Id(!second), expired);
            next == Then(run, Access(second, expired)) && After(cfg, next) == Some(Put(s, second, lock', me'))
  {
    next := Then(run, Access(second, expired));
  }

  /** The call, and accesses of its core one after the other; `xs` says which find the timeout passed. */
  function Calling(run: Run, a: Action, xs: seq<bool>): Run {
    if xs == [] then Then(run, a) else Then(Calling(run, a, xs[..|xs| - 1]), Access(a.second, xs[|xs| - 1]))
  }

  /** Where the calling core stands after these accesses. */
  predicate Reaches(cfg: Config, run: Run, a: Action, xs: seq<bool>, lock: Word, me: Core)
    requires After(cfg, run).Some?
  {
    After(cfg, Calling(run, a, xs)) == Some(Put(After(cfg, run).value, a.second, lock, me))
  }

  lemma Begins(cfg: Config, run: Run, a: Action)
    requires After(cfg, run).Some? && Enabled(cfg, After(cfg, run).value, a) && !a.Access?
    ensures var s := After(cfg, run).value; var me := At(s, a.second);
            Reaches(cfg, run, a, [], s.lock,
                    if a.CallAcquire? then me.(pc := AcqOwner(a.t)) else Core(RelOwner, me.held - 1))
  {
  }

  /** One access on: from where the core stood to where it stands. */
  lemma Goes(cfg: Config, run: Run, a: Action, xs: seq<bool>, lock: Word, me: Core, expired: bool, lock': Word,
             me': Core)
    returns (ys: seq<bool>)
    requires After(cfg, run).Some? && Reaches(cfg, run, a, xs, lock, me) && me.pc != Idle && me.pc != Failed
    requires AccessStep(cfg, lock, me, Id(a.second), Id(!a.second), expired) == (lock', me')
    ensures ys == xs + [expired] && Reaches(cfg, run, a, ys, lock', me')
  {
    ys := xs + [expired];
    assert ys[..|xs|] == xs;
    var next := Own(cfg, Calling(run, a, xs), After(cfg, run).value, a.second, lock, me, expired);
  }

  /** Two accesses on, neither of which finds the timeout passed. */
  lemma GoesTwice(cfg: Config, run: Run, a: Action, xs: seq<bool>, lock: Word, me: Core, lock1: Word, me1: Core,
                  lock2: Word, me2: Core)
    returns (ys: seq<bool>)
    requires After(cfg, run).Some? && Reaches(cfg, run, a, xs, lock, me)
    requires me.pc != Idle && me.pc != Failed && me1.pc != Idle && me1.pc != Failed
    requires AccessStep(cfg, lock, me, Id(a.second), Id(!a.second), false) == (lock1, me1)
    requires AccessStep(cfg, lock1, me1, Id(a.second), Id(!a.second), false) == (lock2, me2)
    ensures Reaches(cfg, run, a, ys, lock2, me2)
  {
    ys := Goes(cfg, run, a, xs, lock, me, false, lock1, me1);
    ys := Goes(cfg, run, a, ys, lock1, me1, false, lock2, me2);
  }

  /** What a core that is in no call knows of the lock. */
  lemma LockSeen(cfg: Config, run: Run, second: bool)
    requires After(cfg, run).Some? && At(After(cfg, run).value, second).pc == Idle
    ensures var s := After(cfg, run).value; var me, you := At(s, second), At(s, !second);
            && (me.held > 0 ==> s.lock == Word(Id(second), me.held))
            && (s.lock.owner == FREE ==> s.lock.count == 0 && me.held == 0)
            && (you.pc == Idle && you.held > 0 ==> s.lock == Word(Id(!second), you.held) && me.held == 0)
  {
    MutualExclusion(cfg, run);
    assert At(After(cfg, run).value, !second).held >= 0;
  }

  /** A free lock is taken, whatever the timeout. */
  lemma AcquireTakes(cfg: Config, run: Run, second: bool, t: Timeout) returns (xs: seq<bool>)
    requires After(cfg, run).Some? && At(After(cfg, run).value, second).pc == Idle && cfg.maxNest > 0
    requires After(cfg, run).value.lock.owner == FREE
    ensures Reaches(cfg, run, CallAcquire(second, t), xs, Word(if second then 0xABAB else 0xCDCD, 1), Core(Idle, 1))
  {
    LockSeen(cfg, run, second);
    var a, free := CallAcquire(second, t), Word(FREE, 0);
    Begins(cfg, run, a);
    xs := GoesTwice(cfg, run, a, [], free, Core(AcqOwner(t), 0), free, Core(FirstCas(t), 0),
                    Word(Id(second), 0), Core(TakenOwner, 0));
    xs := Counts(cfg, run, second, t, xs);
  }

  /** The rest of an acquire that has taken a free lock. */
  lemma Counts(cfg: Config, run: Run, second: bool, t: Timeout, before: seq<bool>) returns (xs: seq<bool>)
    requires After(cfg, run).Some?
    requires Reaches(cfg, run, CallAcquire(second, t), before, Word(Id(second), 0), Core(TakenOwner, 0))
    ensures Reaches(cfg, run, CallAcquire(second, t), xs, Word(Id(second), 1), Core(Idle, 1))
  {
    var a, mine := CallAcquire(second, t), Word(Id(second), 0);
    xs := GoesTwice(cfg, run, a, before, mine, Core(TakenOwner, 0), mine, Core(TakenCount, 0), mine,
                    Core(TakenLoad, 0));
    xs := GoesTwice(cfg, run, a, xs, mine, Core(TakenLoad, 0), mine, Core(TakenStore(0), 0),
                    Word(Id(second), 1), Core(Idle, 1));
  }

  /** A lock the core holds is held once more, whatever the timeout. */
  lemma AcquireNests(cfg: Config, run: Run, second: bool, t: Timeout) returns (xs: seq<bool>)
    requires After(cfg, run).Some? && At(After(cfg, run).value, second).pc == Idle
    requires 0 < At(After(cfg, run).value, second).held < cfg.maxNest && At(After(cfg, run).value, second).held < 0xFF
    ensures var n := At(After(cfg, run).value, second).held + 1;
            Reaches(cfg, run, CallAcquire(second, t), xs, Word(Id(second), n), Core(Idle, n))
  {
    LockSeen(cfg, run, second);
    var a, n := CallAcquire(second, t), At(After(cfg, run).value, second).held;
    var mine := Word(Id(second), n);
    Begins(cfg, run, a);
    xs := Goes(cfg, run, a, [], mine, Core(AcqOwner(t), n), false, mine, Core(NestLow, n));
    xs := NestCounts(cfg, run, second, t, n, xs);
  }

  lemma NestCounts(cfg: Config, run: Run, second: bool, t: Timeout, n: nat, before: seq<bool>) returns (xs: seq<bool>)
    requires After(cfg, run).Some? && 0 < n < 0xFF
    requires Reaches(cfg, run, CallAcquire(second, t), before, Word(Id(second), n), Core(NestLow, n))
    ensures Reaches(cfg, run, CallAcquire(second, t), xs, Word(Id(second), n + 1), Core(Idle, n + 1))
  {
    var a, mine := CallAcquire(second, t), Word(Id(second), n);
    xs := GoesTwice(cfg, run, a, before, mine, Core(NestLow, n), mine, Core(NestHigh, n), mine, Core(NestLoad, n));
    xs := GoesTwice(cfg, run, a, xs, mine, Core(NestLoad, n), mine, Core(NestStore(n), n),
                    Word(Id(second), n + 1), Core(Idle, n + 1));
  }

  /** A lock the other core holds is not taken: an acquire that does not wait, or whose cycles have
      passed, comes back without it. */
  lemma AcquireMisses(cfg: Config, run: Run, second: bool, t: Timeout) returns (xs: seq<bool>)
    requires After(cfg, run).Some? && At(After(cfg, run).value, second).pc == Idle && cfg.maxNest > 0 && t != Forever
    requires At(After(cfg, run).value, !second).pc == Idle && 0 < At(After(cfg, run).value, !second).held < 0xFF
    ensures Reaches(cfg, run, CallAcquire(second, t), xs, After(cfg, run).value.lock, Core(Idle, 0))
  {
    LockSeen(cfg, run, second);
    var a, theirs := CallAcquire(second, t), After(cfg, run).value.lock;
    Begins(cfg, run, a);
    if t == Cycles {
      xs := GoesTwice(cfg, run, a, [], theirs, Core(AcqOwner(t), 0), theirs, Core(FirstCas(t), 0),
                      theirs, Core(RetryCas(t), 0));
      xs := Goes(cfg, run, a, xs, theirs, Core(RetryCas(t), 0), true, theirs, Core(MissFirst, 0));
    } else {
      xs := GoesTwice(cfg, run, a, [], theirs, Core(AcqOwner(t), 0), theirs, Core(FirstCas(t), 0),
                      theirs, Core(MissFirst, 0));
    }
    xs := ComesBack(cfg, run, second, t, theirs, xs);
  }

  /** The assertions of an acquire that gives up. */
  lemma ComesBack(cfg: Config, run: Run, second: bool, t: Timeout, theirs: Word, before: seq<bool>)
    returns (xs: seq<bool>)
    requires After(cfg, run).Some? && theirs.owner == Id(!second) && theirs.count < 0xFF
    requires Reaches(cfg, run, CallAcquire(second, t), before, theirs, Core(MissFirst, 0))
    ensures Reaches(cfg, run, CallAcquire(second, t), xs, theirs, Core(Idle, 0))
  {
    var a := CallAcquire(second, t);
    if cfg.doubleLoad {
      xs := GoesTwice(cfg, run, a, before, theirs, Core(MissFirst, 0), theirs, Core(MissSecond, 0), theirs,
                      Core(MissCount, 0));
    } else {
      xs := Goes(cfg, run, a, before, theirs, Core(MissFirst, 0), false, theirs, Core(MissCount, 0));
    }
    xs := Goes(cfg, run, a, xs, theirs, Core(MissCount, 0), false, theirs, Core(Idle, 0));
  }

  /** An acquire that keeps waiting for a lock the other core holds does not come back. */
  lemma {:induction false} AcquireWaits(cfg: Config, run: Run, second: bool, t: Timeout, n: nat) returns (xs: seq<bool>)
    requires After(cfg, run).Some? && At(After(cfg, run).value, second).pc == Idle && cfg.maxNest > 0 && t != NoWait
    requires At(After(cfg, run).value, !second).pc == Idle && At(After(cfg, run).value, !second).held > 0
    ensures |xs| == n + 2 && forall i :: 0 <= i < |xs| ==> xs[i] == (t == Forever)
    ensures Reaches(cfg, run, CallAcquire(second, t), xs, After(cfg, run).value.lock, Core(RetryCas(t), 0))
  {
    LockSeen(cfg, run, second);
    var a, theirs := CallAcquire(second, t), After(cfg, run).value.lock;
    if n == 0 {
      Begins(cfg, run, a);
      xs := Goes(cfg, run, a, [], theirs, Core(AcqOwner(t), 0), t == Forever, theirs, Core(FirstCas(t), 0));
      xs := Goes(cfg, run, a, xs, theirs, Core(FirstCas(t), 0), t == Forever, theirs, Core(RetryCas(t), 0));
    } else {
      xs := AcquireWaits(cfg, run, second, t, n - 1);
      xs := Goes(cfg, run, a, xs, theirs, Core(RetryCas(t), 0), t == Forever, theirs, Core(RetryCas(t), 0));
    }
  }

  /** A release lowers the count, and frees the lock when it was held once. */
  lemma ReleaseLowers(cfg: Config, run: Run, second: bool) returns (xs: seq<bool>)
    requires After(cfg, run).Some? && At(After(cfg, run).value, second).pc == Idle
    requires At(After(cfg, run).value, second).held > 0
    ensures var n := At(After(cfg, run).value, second).held - 1;
            Reaches(cfg, run, CallRelease(second), xs, if n == 0 then Word(0xB33F_FFFF, 0) else Word(Id(second), n),
                    Core(Idle, n))
  {
    LockSeen(cfg, run, second);
    CountInByte(cfg, run);
    var n := At(After(cfg, run).value, second).held - 1;
    xs := Lowers(cfg, run, second, n);
    xs := Frees(cfg, run, second, n, xs);
  }

  lemma ReleaseBegins(cfg: Config, run: Run, second: bool, n: nat)
    requires After(cfg, run).Some? && At(After(cfg, run).value, second) == Core(Idle, n + 1)
    ensures Reaches(cfg, run, CallRelease(second), [], After(cfg, run).value.lock, Core(RelOwner, n))
  {
    Begins(cfg, run, CallRelease(second));
  }

  lemma ReleaseLoads(cfg: Config, run: Run, second: bool, n: nat) returns (xs: seq<bool>)
    requires After(cfg, run).Some? && At(After(cfg, run).value, second) == Core(Idle, n + 1)
    requires After(cfg, run).value.lock == Word(Id(second), n + 1)
    ensures Reaches(cfg, run, CallRelease(second), xs, Word(Id(second), n + 1), Core(RelStore(n + 1), n))
  {
    var a, mine := CallRelease(second), Word(Id(second), n + 1);
    ReleaseBegins(cfg, run, second, n);
    xs := GoesTwice(cfg, run, a, [], mine, Core(RelOwner, n), mine, Core(RelLoad, n), mine, Core(RelStore(n + 1), n));
  }

  lemma Lowers(cfg: Config, run: Run, second: bool, n: nat) returns (xs: seq<bool>)
    requires After(cfg, run).Some? && At(After(cfg, run).value, second) == Core(Idle, n + 1)
    requires n < 0xFF && After(cfg, run).value.lock == Word(Id(second), n + 1)
    ensures Reaches(cfg, run, CallRelease(second), xs, Word(Id(second), n), Core(RelTest, n))
  {
    var a, mine := CallRelease(second), Word(Id(second), n + 1);
    xs := ReleaseLoads(cfg, run, second, n);
    LowerStep(cfg, Id(second), Id(!second), n);
    xs := Goes(cfg, run, a, xs, mine, Core(RelStore(n + 1), n), false, Word(Id(second), n), Core(RelTest, n));
  }

  lemma LowerStep(cfg: Config, id: nat, other: nat, n: nat)
    requires n < 0xFF
    ensures AccessStep(cfg, Word(id, n + 1), Core(RelStore(n + 1), n), id, other, false)
            == (Word(id, n), Core(RelTest, n))
  {
  }

  lemma Frees(cfg: Config, run: Run, second: bool, n: nat, before: seq<bool>) returns (xs: seq<bool>)
    requires After(cfg, run).Some? && n < 0xFF
    requires Reaches(cfg, run, CallRelease(second), before, Word(Id(second), n), Core(RelTest, n))
    ensures Reaches(cfg, run, CallRelease(second), xs, if n == 0 then Word(FREE, 0) else Word(Id(second), n),
                    Core(Idle, n))
  {
    var a, mine := CallRelease(second), Word(Id(second), n);
    if n == 0 {
      xs := GoesTwice(cfg, run, a, before, mine, Core(RelTest, n), mine, Core(RelFree, n), Word(FREE, 0),
                      Core(Idle, n));
    } else {
      xs := GoesTwice(cfg, run, a, before, mine, Core(RelTest, n), mine, Core(RelBound, n), mine, Core(Idle, n));
    }
  }

  lemma CountInByte(cfg: Config, run: Run)
    requires After(cfg, run).Some?
    ensures After(cfg, run).value.lock.count <= 0xFF
  {
    InvReachable(cfg, run);
  }
}
