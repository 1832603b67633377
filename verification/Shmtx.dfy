/** The process-shared mutex of `ngx_shmtx.c`, atomic-operations branch.

    Shared memory holds a lock word, a waiter counter and a semaphore.  Every process runs the
    lock functions one atomic access at a time, in any interleaving with the others.  The state
    machine has one step per access; the theorems speak of every state a run can reach. */
module Shmtx {

  import opened Options

  /** `ngx_pid`; zero is the value of a free lock word. */
  type Pid = p: nat | 0 < p witness 1

  /** Words of `ngx_atomic_t` wrap around here. */
  const WORD := 0x1_0000_0000_0000_0000

  /** `sem_post` fails on a semaphore that has reached this value. */
  const SEM_VALUE_MAX := 0x7fff_ffff

  /** What a process does next.  `spin` is the loop variable of the spinning part of
      `ngx_shmtx_lock`, 0 for the attempt before it. */
  datatype Pc =
    | Idle                    // outside the lock functions and not holding
    | TryRead                 // ngx_shmtx_trylock: read the lock word ...
    | TryCas                  // ... and swap in the own pid if it was free
    | LockRead(spin: nat)     // ngx_shmtx_lock: the same, ...
    | LockCas(spin: nat)
    | Announce                // ... count the process as a waiter ...
    | LastRead                // ... try once more ...
    | LastCas
    | Parked                  // ... and sleep in sem_wait
    | WokenRead               // the first attempt after sem_wait took a token
    | WokenCas
    | Holding                 // the lock word is ours
    | Unlock                  // ngx_shmtx_unlock: compare and clear
    | ForceUnlock(of: Pid)    // ngx_shmtx_force_unlock
    | WakeRead                // ngx_shmtx_wakeup: read the waiter counter ...
    | WakeCas(seen: nat)      // ... take one waiter off it ...
    | Post                    // ... and post the semaphore
    | Crashed

  datatype State = State(lock: nat, wait: nat, sem: nat, pc: map<Pid, Pc>)

  /** `ngx_ncpu` and the fields of `ngx_shmtx_t` that stay as they were created. */
  datatype Config = Config(ncpu: nat, spin: nat, semaphore: bool)

  ghost predicate Init(s: State) {
    && s.lock == 0 && s.wait == 0 && s.sem == 0
    && |s.pc| <= SEM_VALUE_MAX
    && forall p :: p in s.pc ==> s.pc[p].Idle?
  }

  // ----- the steps of one process

  /** Where a failed attempt leads: on to the next round of spinning, then to the semaphore,
      or around again after yielding where there is no semaphore.  `WORD` stands for a loop
      variable that has been shifted out of its word, to zero, and stays there. */
  function NextAttempt(c: Config, spin: nat): Pc {
    var next := if spin == 0 then 1 else if 2 * spin < WORD then 2 * spin else WORD;
    if c.ncpu > 1 && next % WORD < c.spin then LockRead(next)
    else if c.semaphore then Announce
    else LockRead(0)
  }

  /** The lock function an outside process may enter.  The lock is only forced for a process
      that is gone. */
  predicate MayEnter(s: State, from: Pc, to: Pc) {
    match from
    case Idle =>
      || to == TryRead || to == LockRead(0) || to == Unlock
      || (to.ForceUnlock? && to.of in s.pc && s.pc[to.of].Crashed?)
    case Holding => to == Unlock
    case _ => false
  }

  function Goto(s: State, p: Pid, to: Pc): State {
    s.(pc := s.pc[p := to])
  }

  /** Compare and set of a lock word that must be free. */
  function Acquire(s: State, p: Pid, otherwise: Pc): State {
    if s.lock == 0 then Goto(s, p, Holding).(lock := p) else Goto(s, p, otherwise)
  }

  /** Compare and clear of a lock word that must hold `owner`. */
  function Release(c: Config, s: State, p: Pid, owner: Pid): State {
    if s.lock != owner then Goto(s, p, Idle)
    else Goto(s, p, if c.semaphore then WakeRead else Idle).(lock := 0)
  }

  /** The pending access of process `p`; None while it has to wait, or has none. */
  function Access(c: Config, s: State, p: Pid): Option<State>
    requires p in s.pc
  {
    match s.pc[p]
    case Idle | Holding | Crashed => None
    case TryRead => Some(Goto(s, p, if s.lock == 0 then TryCas else Idle))
    case TryCas => Some(Acquire(s, p, Idle))
    case LockRead(n) => Some(Goto(s, p, if s.lock == 0 then LockCas(n) else NextAttempt(c, n)))
    case LockCas(n) => Some(Acquire(s, p, NextAttempt(c, n)))
    case Announce => Some(Goto(s, p, LastRead).(wait := (s.wait + 1) % WORD))
    case LastRead => Some(Goto(s, p, if s.lock == 0 then LastCas else Parked))
    case LastCas => Some(Acquire(s, p, Parked))
    case Parked => if s.sem > 0 then Some(Goto(s, p, WokenRead).(sem := s.sem - 1)) else None
    case WokenRead => Some(Goto(s, p, if s.lock == 0 then WokenCas else NextAttempt(c, 0)))
    case WokenCas => Some(Acquire(s, p, NextAttempt(c, 0)))
    case Unlock => Some(Release(c, s, p, p))
    case ForceUnlock(q) => Some(Release(c, s, p, q))
    case WakeRead => Some(Goto(s, p, if s.wait == 0 then Idle else WakeCas(s.wait)))
    case WakeCas(w) =>
      Some(if s.wait == w && w > 0 then Goto(s, p, Post).(wait := w - 1) else Goto(s, p, WakeRead))
    case Post => Some(Goto(s, p, Idle).(sem := if s.sem < SEM_VALUE_MAX then s.sem + 1 else s.sem))
  }

  datatype Action =
    | Enter(to: Pc)    // call one of the lock functions
    | Advance          // the next atomic access
    | Fail             // sem_wait gives up with an error other than EINTR
    | Crash

  datatype Event = Event(p: Pid, a: Action)

  function Step(c: Config, s: State, e: Event): Option<State> {
    if e.p !in s.pc then None
    else
      match e.a
      case Enter(to) => if MayEnter(s, s.pc[e.p], to) then Some(Goto(s, e.p, to)) else None
      case Advance => Access(c, s, e.p)
      case Fail => if s.pc[e.p].Parked? then Some(Goto(s, e.p, LockRead(0))) else None
      case Crash => if s.pc[e.p].Crashed? then None else Some(Goto(s, e.p, Crashed))
  }

  /** A run: each event must be possible in the state the earlier ones lead to. */
  function Exec(c: Config, s: State, run: seq<Event>): Option<State>
    decreases |run|
  {
    if run == [] then Some(s)
    else
      match Exec(c, s, run[..|run| - 1])
      case None => None
      case Some(t) => Step(c, t, run[|run| - 1])
  }

  /** Others count on these processes: they have taken a token and not yet seen the lock, or
      they have freed the lock and not yet posted. */
  predicate Aiding(pc: Pc) {
    match pc
    case WokenRead | WokenCas => true
    case WakeRead | WakeCas(_) | Post => true
    case _ => false
  }

  /** The event is no crash of a process while others count on it. */
  predicate Spares(s: State, e: Event) {
    e.p in s.pc && e.a.Crash? ==> !Aiding(s.pc[e.p])
  }

  /** The event neither wraps the waiter counter nor kills a process that owes a token. */
  predicate Counts(s: State, e: Event) {
    e.p in s.pc ==>
      match e.a
      case Crash => !s.pc[e.p].Post?
      case Advance => !(s.pc[e.p].Announce? && s.wait == WORD - 1)
      case _ => true
  }

  predicate Clean(s: State, e: Event) {
    Spares(s, e) && Counts(s, e)
  }

  predicate CleanRun(c: Config, s: State, run: seq<Event>)
    decreases |run|
  {
    run != [] ==>
      var before := run[..|run| - 1];
      && CleanRun(c, s, before)
      && (Exec(c, s, before).Some? ==> Clean(Exec(c, s, before).value, run[|run| - 1]))
  }

  // ----- mutual exclusion

  /** The lock word names the process that holds the lock, whatever crashes. */
  ghost predicate Exclusive(s: State) {
    && (forall p :: p in s.pc && s.pc[p].Holding? ==> s.lock == p)
    && (s.lock != 0 ==> s.lock in s.pc && Owning(s.pc[s.lock]))
    && (forall p :: p in s.pc && s.pc[p].ForceUnlock? ==> s.pc[p].of in s.pc && s.pc[s.pc[p].of].Crashed?)
  }

  predicate Owning(pc: Pc) {
    pc.Holding? || pc.Unlock? || pc.Crashed?
  }

  lemma GotoKeepsExclusive(s: State, p: Pid, to: Pc)
    requires Exclusive(s) && p in s.pc && !s.pc[p].Crashed? && !to.Holding?
    requires s.lock == p ==> Owning(to)
    requires to.ForceUnlock? ==> to.of in s.pc && s.pc[to.of].Crashed?
    ensures Exclusive(Goto(s, p, to))
  {
  }

  lemma AcquireKeepsExclusive(s: State, p: Pid, otherwise: Pc)
    requires Exclusive(s) && p in s.pc && !Owning(s.pc[p])
    requires !Owning(otherwise) && !otherwise.ForceUnlock?
    ensures Exclusive(Acquire(s, p, otherwise))
  {
    if s.lock != 0 { GotoKeepsExclusive(s, p, otherwise); }
  }

  lemma ReleaseKeepsExclusive(c: Config, s: State, p: Pid, owner: Pid)
    requires Exclusive(s) && p in s.pc
    requires (s.pc[p].Unlock? && owner == p) || s.pc[p] == ForceUnlock(owner)
    ensures Exclusive(Release(c, s, p, owner))
  {
    if s.lock != owner { GotoKeepsExclusive(s, p, Idle); }
  }

  /** The compare-and-swap steps of the lock word. */
  lemma SwapKeepsExclusive(c: Config, s: State, p: Pid)
    requires Exclusive(s) && p in s.pc
    requires match s.pc[p]
             case TryCas | LockCas(_) | WokenCas | LastCas | Unlock | ForceUnlock(_) => true
             case _ => false
    ensures Exclusive(Access(c, s, p).value)
  {
    match s.pc[p]
    case TryCas => AcquireKeepsExclusive(s, p, Idle);
    case LockCas(n) => AcquireKeepsExclusive(s, p, NextAttempt(c, n));
    case WokenCas => AcquireKeepsExclusive(s, p, NextAttempt(c, 0));
    case LastCas => AcquireKeepsExclusive(s, p, Parked);
    case Unlock => ReleaseKeepsExclusive(c, s, p, p);
    case ForceUnlock(q) => ReleaseKeepsExclusive(c, s, p, q);
  }

  lemma StepKeepsExclusive(c: Config, s: State, e: Event, t: State)
    requires Exclusive(s) && Step(c, s, e) == Some(t)
    ensures Exclusive(t) && t.pc.Keys == s.pc.Keys
  {
    var p := e.p;
    if e.a.Advance? {
      match s.pc[p]
      case Idle | Holding | Crashed =>
      case TryCas | LockCas(_) | WokenCas | LastCas | Unlock | ForceUnlock(_) => SwapKeepsExclusive(c, s, p);
      case _ => GotoKeepsExclusive(s, p, t.pc[p]);
    } else {
      GotoKeepsExclusive(s, p, t.pc[p]);
    }
  }

  lemma {:induction false} AlwaysExclusive(c: Config, s: State, run: seq<Event>, t: State)
    requires Init(s) && Exec(c, s, run) == Some(t)
    ensures Exclusive(t) && t.pc.Keys == s.pc.Keys
    decreases |run|
  {
    if run != [] {
      var before := Exec(c, s, run[..|run| - 1]).value;
      AlwaysExclusive(c, s, run[..|run| - 1], before);
      StepKeepsExclusive(c, before, run[|run| - 1], t);
    }
  }

  /** At most one process is past its lock or trylock call and not yet in its unlock call, in
      every interleaving, whoever crashes and wherever. */
  lemma MutualExclusion(c: Config, s: State, run: seq<Event>, t: State, p: Pid, q: Pid)
    requires Init(s) && Exec(c, s, run) == Some(t)
    requires p in t.pc && q in t.pc && t.pc[p].Holding? && t.pc[q].Holding?
    ensures p == q
  {
    AlwaysExclusive(c, s, run, t);
  }

  // ----- waiters and tokens

  /** Counted as a waiter and on the way into sem_wait. */
  predicate Committed(pc: Pc) {
    pc.LastRead? || pc.LastCas? || pc.Parked?
  }

  ghost function Committers(s: State): set<Pid> {
    set p | p in s.pc && Committed(s.pc[p])
  }

  ghost function Posters(s: State): set<Pid> {
    set p | p in s.pc && s.pc[p].Post?
  }

  /** No waiter goes uncounted: whoever is committed to sem_wait is matched by a count, by a
      post under way, or by a token. */
  ghost predicate Covered(s: State) {
    s.wait < WORD && |Committers(s)| <= s.wait + |Posters(s)| + s.sem
  }

  function One(b: bool): nat {
    if b then 1 else 0
  }

  lemma SetMove(a: set<Pid>, b: set<Pid>, p: Pid)
    requires forall q :: q != p ==> (q in a <==> q in b)
    ensures |b| == |a| - One(p in a) + One(p in b)
  {
    assert a - {p} == b - {p};
    assert |a - {p}| == |a| - One(p in a);
    assert |b - {p}| == |b| - One(p in b);
  }

  lemma MoveCounts(s: State, t: State, p: Pid)
    requires p in s.pc && p in t.pc && t.pc == s.pc[p := t.pc[p]]
    ensures |Committers(t)| == |Committers(s)| - One(Committed(s.pc[p])) + One(Committed(t.pc[p]))
    ensures |Posters(t)| == |Posters(s)| - One(s.pc[p].Post?) + One(t.pc[p].Post?)
  {
    SetMove(Committers(s), Committers(t), p);
    SetMove(Posters(s), Posters(t), p);
  }

  lemma FewCommitters(s: State)
    ensures |Committers(s)| <= |s.pc|
  {
    CardinalityOfSubset(Committers(s), s.pc.Keys);
  }

  lemma {:induction false} CardinalityOfSubset(a: set<Pid>, b: set<Pid>)
    requires a <= b
    ensures |a| <= |b|
  {
    if x :| x in a {
      CardinalityOfSubset(a - {x}, b - {x});
    }
  }

  /** One step of process `p` changes the counts by what that process does. */
  lemma StepBalance(c: Config, s: State, e: Event, t: State)
    requires Step(c, s, e) == Some(t) && Counts(s, e) && s.wait < WORD
    ensures e.p in s.pc && t.pc == s.pc[e.p := t.pc[e.p]]
    ensures t.wait < WORD
    ensures var from, to := s.pc[e.p], t.pc[e.p];
      || (from.Post? && s.sem == t.sem == SEM_VALUE_MAX)
      || (from.Post? && s.sem > SEM_VALUE_MAX)
      || One(Committed(to)) - One(Committed(from))
           <= (t.wait - s.wait) + (One(to.Post?) - One(from.Post?)) + (t.sem - s.sem)
  {
    var from := s.pc[e.p];
    if e.a.Advance? {
      match from
      case Parked =>
      case Post =>
      case _ =>
    }
  }

  lemma StepKeepsCovered(c: Config, s: State, e: Event, t: State)
    requires Covered(s) && Step(c, s, e) == Some(t) && Counts(s, e)
    requires |s.pc| <= SEM_VALUE_MAX
    ensures Covered(t) && |t.pc| == |s.pc|
  {
    StepBalance(c, s, e, t);
    MoveCounts(s, t, e.p);
    FewCommitters(t);
    assert t.pc.Keys == s.pc.Keys;
  }

  // ----- no lost wakeup

  ghost predicate SomeoneParked(s: State) {
    exists p :: p in s.pc && s.pc[p].Parked?
  }

  ghost predicate SomeoneAiding(s: State) {
    exists p :: p in s.pc && Aiding(s.pc[p])
  }

  /** While the lock is free nobody sleeps unless there is a token to take, a process that has
      just taken one, or a process on its way to post. */
  ghost predicate Awake(s: State) {
    s.lock == 0 && SomeoneParked(s) ==> s.sem > 0 || SomeoneAiding(s)
  }

  /** Without a semaphore nobody waits for one. */
  ghost predicate Spinning(c: Config, s: State) {
    !c.semaphore ==> forall p :: p in s.pc ==> !Committed(s.pc[p]) && !s.pc[p].Announce?
  }

  lemma StepKeepsSpinning(c: Config, s: State, e: Event, t: State)
    requires Spinning(c, s) && Step(c, s, e) == Some(t)
    ensures Spinning(c, t)
  {
  }

  /** What a step can do that matters to sleepers on a free lock. */
  lemma StepTowardsFree(c: Config, s: State, e: Event, t: State)
    requires Spinning(c, s) && Step(c, s, e) == Some(t) && Spares(s, e)
    requires t.lock == 0 && !Aiding(t.pc[e.p])
    requires SomeoneParked(t)
    ensures e.p in s.pc && t.pc == s.pc[e.p := t.pc[e.p]] && !t.pc[e.p].Parked?
    ensures var from := s.pc[e.p];
      || (from.WakeRead? && s.wait == 0 && t.sem == s.sem)
      || (from.Post? && t.sem > 0)
      || (!Aiding(from) && s.lock == 0 && t.sem == s.sem)
  {
    var q :| q in t.pc && t.pc[q].Parked?;
    if e.a.Advance? {
      match s.pc[e.p]
      case Unlock | ForceUnlock(_) => assert c.semaphore || !Committed(s.pc[q]);
      case _ =>
    }
  }

  lemma StepKeepsAwake(c: Config, s: State, e: Event, t: State)
    requires Covered(s) && Awake(s) && Spinning(c, s)
    requires Step(c, s, e) == Some(t) && Spares(s, e)
    ensures Awake(t)
  {
    if t.lock == 0 && SomeoneParked(t) && !Aiding(t.pc[e.p]) {
      StepTowardsFree(c, s, e, t);
      var p :| p in t.pc && t.pc[p].Parked?;
      assert p in s.pc && s.pc[p].Parked?;
      if s.pc[e.p].WakeRead? {
        var q := SomebodyPosts(s, p);
        assert t.sem > 0 || (q in t.pc && Aiding(t.pc[q]));
      } else if !s.pc[e.p].Post? && SomeoneAiding(s) {
        var q :| q in s.pc && Aiding(s.pc[q]);
        assert q in t.pc && Aiding(t.pc[q]);
      }
    }
  }

  /** With no waiter counted, a parked process is owed a token already posted or being posted. */
  lemma SomebodyPosts(s: State, p: Pid) returns (q: Pid)
    requires Covered(s) && s.wait == 0 && p in s.pc && s.pc[p].Parked?
    ensures s.sem > 0 || (q in s.pc && s.pc[q].Post?)
  {
    q := p;
    assert p in Committers(s);
    if s.sem == 0 {
      assert Posters(s) != {};
      q :| q in Posters(s);
    }
  }

  lemma {:induction false} AlwaysAwake(c: Config, s: State, run: seq<Event>, t: State)
    requires Init(s) && Exec(c, s, run) == Some(t) && CleanRun(c, s, run)
    ensures Covered(t) && Awake(t) && Spinning(c, t) && |t.pc| <= SEM_VALUE_MAX
    decreases |run|
  {
    if run == [] {
      assert Committers(s) == {};
    } else {
      var before := Exec(c, s, run[..|run| - 1]).value;
      AlwaysAwake(c, s, run[..|run| - 1], before);
      StepKeepsCovered(c, before, run[|run| - 1], t);
      StepKeepsSpinning(c, before, run[|run| - 1], t);
      StepKeepsAwake(c, before, run[|run| - 1], t);
    }
  }

  /** After any clean run a process that sleeps on a free lock has a token to take or somebody
      at work on its behalf. */
  lemma NoLostWakeup(c: Config, s: State, run: seq<Event>, t: State)
    requires Init(s) && Exec(c, s, run) == Some(t) && CleanRun(c, s, run)
    requires t.lock == 0 && SomeoneParked(t)
    ensures |Committers(t)| <= t.wait + |Posters(t)| + t.sem
    ensures t.sem > 0 || exists q :: q in t.pc && Aiding(t.pc[q]) && Access(c, t, q).Some?
  {
    AlwaysAwake(c, s, run, t);
    if t.sem == 0 {
      var q :| q in t.pc && Aiding(t.pc[q]);
      assert Access(c, t, q).Some?;
    }
  }

  // ----- every condition of a clean run is needed

  /** A sleeper on a free lock, no token, and everybody else asleep, crashed or elsewhere. */
  ghost predicate Lost(s: State) {
    && s.lock == 0 && s.sem == 0 && SomeoneParked(s)
    && forall p :: p in s.pc ==> s.pc[p].Idle? || s.pc[p].Crashed? || s.pc[p].Parked?
  }

  ghost predicate NoCrash(run: seq<Event>) {
    forall i :: 0 <= i < |run| ==> !run[i].a.Crash?
  }

  /** At each of the five places where somebody is aiding, one crash is enough: the run is
      clean and without crashes up to it, and right behind it a sleeper is lost. */
  lemma CrashLosesWakeup(at: Pc) returns (s: State, run: seq<Event>, t: State, p: Pid, u: State)
    requires Aiding(at) && (at.WakeCas? ==> at.seen == 1)
    ensures Init(s) && Exec(SMALL, s, run) == Some(t) && CleanRun(SMALL, s, run) && NoCrash(run)
    ensures p in t.pc && t.pc[p] == at
    ensures Step(SMALL, t, Event(p, Crash)) == Some(u) && Lost(u)
  {
    s := AllIdle();
    run := FirstLocks(s);
    run := SecondTries(s, run);
    run := SecondSleeps(s, run);
    if at.WokenRead? || at.WokenCas? {
      run := SecondWoken(s, run, at);
      p, t := 2, Three(0, 1, 0, Idle, at, Parked);
      assert t.pc[3].Parked?;
    } else {
      var wait := if at.Post? then 0 else 1;
      run := FirstWaking(s, run, at, wait);
      p, t := 1, Three(0, wait, 0, at, Parked, Idle);
      assert t.pc[2].Parked?;
    }
    u := SleeperLost(t, p);
  }

  /** The first process wakes the second one, which goes on to `at`. */
  lemma SecondWoken(s: State, run0: seq<Event>, at: Pc) returns (run: seq<Event>)
    requires Reaches(s, run0, Three(1, 1, 0, Holding, Parked, Idle), true)
    requires at == WokenRead || at == WokenCas
    ensures Reaches(s, run, Three(0, 1, 0, Idle, at, Parked), true)
  {
    run := ThirdTries(s, run0);
    run := ThirdSleeps(s, run);
    run := Unlocks(s, run, 2, Parked);
    run := SeesWaiters(s, run, 2, Parked);
    run := TakesWaiter(s, run, 2, Parked);
    run := SecondWakes(s, run);
    if at.WokenCas? {
      run := SecondLooks(s, run);
    }
  }

  /** The first process frees the lock and goes on to `at`. */
  lemma FirstWaking(s: State, run0: seq<Event>, at: Pc, wait: nat) returns (run: seq<Event>)
    requires Reaches(s, run0, Three(1, 1, 0, Holding, Parked, Idle), true)
    requires (wait == 1 && (at == WakeRead || at == WakeCas(1))) || (wait == 0 && at == Post)
    ensures Reaches(s, run, Three(0, wait, 0, at, Parked, Idle), true)
  {
    run := Unlocks(s, run0, 1, Idle);
    if !at.WakeRead? {
      run := SeesWaiters(s, run, 1, Idle);
      if at.Post? {
        run := TakesWaiter(s, run, 1, Idle);
      }
    }
  }

  lemma SleeperLost(t: State, p: Pid) returns (u: State)
    requires t.lock == 0 && t.sem == 0 && p in t.pc && !t.pc[p].Crashed?
    requires forall q :: q in t.pc && q != p ==> t.pc[q].Idle? || t.pc[q].Parked?
    requires exists q :: q in t.pc && q != p && t.pc[q].Parked?
    ensures Step(SMALL, t, Event(p, Crash)) == Some(u) && Lost(u)
  {
    u := Goto(t, p, Crashed);
    var q :| q in t.pc && q != p && t.pc[q].Parked?;
    assert u.pc[q].Parked?;
  }

  /** Nor may the counter wrap: there is a run without any crash that loses a sleeper. */
  lemma WrapLosesWakeup() returns (s: State, run: seq<Event>, t: State)
    ensures Init(s) && Exec(SMALL, s, run) == Some(t) && NoCrash(run) && Lost(t)
  {
    s := AllIdle();
    run := FirstLocks(s);
    run := SecondTries(s, run);
    run := SecondSleeps(s, run);
    run := CountsUp(s, run, 1, WORD - 1);
    run := SleepsAgain(s, run, WORD - 1);
    run := UnlocksUnseen(s, run);
    t := Three(0, 0, 0, Idle, Parked, Idle);
    assert t.pc[2].Parked?;
  }

  const SMALL := Config(1, 2048, true)

  /** Three processes, with pids 1, 2 and 3. */
  function Three(lock: nat, wait: nat, sem: nat, x: Pc, y: Pc, z: Pc): State {
    State(lock, wait, sem, map[1 := x, 2 := y, 3 := z])
  }

  lemma AllIdle() returns (s: State)
    ensures Init(s) && s == Three(0, 0, 0, Idle, Idle, Idle)
  {
    s := Three(0, 0, 0, Idle, Idle, Idle);
    assert s.pc.Keys == {1, 2, 3};
  }

  /** What a run without crashes reaches, and whether it is clean. */
  ghost predicate Reaches(s: State, run: seq<Event>, t: State, clean: bool) {
    var reached := Exec(SMALL, s, run) == Some(t) && NoCrash(run);
    reached && (clean ==> CleanRun(SMALL, s, run))
  }

  /** One more event, which is not a crash. */
  lemma Next(s: State, run: seq<Event>, t: State, clean: bool, e: Event) returns (run': seq<Event>, u: State)
    requires Reaches(s, run, t, clean) && Step(SMALL, t, e).Some? && !e.a.Crash?
    requires clean ==> Clean(t, e)
    ensures Step(SMALL, t, e) == Some(u) && Reaches(s, run', u, clean)
  {
    run' := run + [e];
    u := Step(SMALL, t, e).value;
    assert run'[..|run'| - 1] == run;
  }

  lemma FirstLocks(s: State) returns (run: seq<Event>)
    requires s == Three(0, 0, 0, Idle, Idle, Idle)
    ensures Reaches(s, run, Three(1, 0, 0, Holding, Idle, Idle), true)
  {
    var t;
    run, t := Next(s, [], s, true, Event(1, Enter(LockRead(0))));
    run, t := Next(s, run, t, true, Event(1, Advance));
    run, t := Next(s, run, t, true, Event(1, Advance));
    assert t.pc == map[1 := Holding, 2 := Idle, 3 := Idle];
  }

  /** The second process finds the lock taken ... */
  lemma SecondTries(s: State, run0: seq<Event>) returns (run: seq<Event>)
    requires Reaches(s, run0, Three(1, 0, 0, Holding, Idle, Idle), true)
    ensures Reaches(s, run, Three(1, 0, 0, Holding, Announce, Idle), true)
  {
    var t := Three(1, 0, 0, Holding, Idle, Idle);
    run, t := Next(s, run0, t, true, Event(2, Enter(LockRead(0))));
    run, t := Next(s, run, t, true, Event(2, Advance));
    assert t.pc == map[1 := Holding, 2 := Announce, 3 := Idle];
  }

  /** ... and goes to sleep. */
  lemma SecondSleeps(s: State, run0: seq<Event>) returns (run: seq<Event>)
    requires Reaches(s, run0, Three(1, 0, 0, Holding, Announce, Idle), true)
    ensures Reaches(s, run, Three(1, 1, 0, Holding, Parked, Idle), true)
  {
    var t := Three(1, 0, 0, Holding, Announce, Idle);
    run, t := Next(s, run0, t, true, Event(2, Advance));
    run, t := Next(s, run, t, true, Event(2, Advance));
    assert t.pc == map[1 := Holding, 2 := Parked, 3 := Idle];
  }

  lemma ThirdTries(s: State, run0: seq<Event>) returns (run: seq<Event>)
    requires Reaches(s, run0, Three(1, 1, 0, Holding, Parked, Idle), true)
    ensures Reaches(s, run, Three(1, 1, 0, Holding, Parked, Announce), true)
  {
    var t := Three(1, 1, 0, Holding, Parked, Idle);
    run, t := Next(s, run0, t, true, Event(3, Enter(LockRead(0))));
    run, t := Next(s, run, t, true, Event(3, Advance));
    assert t.pc == map[1 := Holding, 2 := Parked, 3 := Announce];
  }

  lemma ThirdSleeps(s: State, run0: seq<Event>) returns (run: seq<Event>)
    requires Reaches(s, run0, Three(1, 1, 0, Holding, Parked, Announce), true)
    ensures Reaches(s, run, Three(1, 2, 0, Holding, Parked, Parked), true)
  {
    var t := Three(1, 1, 0, Holding, Parked, Announce);
    run, t := Next(s, run0, t, true, Event(3, Advance));
    run, t := Next(s, run, t, true, Event(3, Advance));
    assert t.pc == map[1 := Holding, 2 := Parked, 3 := Parked];
  }

  /** The first process frees the lock ... */
  lemma Unlocks(s: State, run0: seq<Event>, wait: nat, z: Pc) returns (run: seq<Event>)
    requires Reaches(s, run0, Three(1, wait, 0, Holding, Parked, z), true)
    ensures Reaches(s, run, Three(0, wait, 0, WakeRead, Parked, z), true)
  {
    var t := Three(1, wait, 0, Holding, Parked, z);
    run, t := Next(s, run0, t, true, Event(1, Enter(Unlock)));
    run, t := Next(s, run, t, true, Event(1, Advance));
    assert t.pc == map[1 := WakeRead, 2 := Parked, 3 := z];
  }

  /** ... sees the waiters ... */
  lemma SeesWaiters(s: State, run0: seq<Event>, wait: nat, z: Pc) returns (run: seq<Event>)
    requires Reaches(s, run0, Three(0, wait, 0, WakeRead, Parked, z), true) && wait > 0
    ensures Reaches(s, run, Three(0, wait, 0, WakeCas(wait), Parked, z), true)
  {
    var t := Three(0, wait, 0, WakeRead, Parked, z);
    run, t := Next(s, run0, t, true, Event(1, Advance));
    assert t.pc == map[1 := WakeCas(wait), 2 := Parked, 3 := z];
  }

  /** ... and takes it off the counter. */
  lemma TakesWaiter(s: State, run0: seq<Event>, wait: nat, z: Pc) returns (run: seq<Event>)
    requires Reaches(s, run0, Three(0, wait, 0, WakeCas(wait), Parked, z), true) && wait > 0
    ensures Reaches(s, run, Three(0, wait - 1, 0, Post, Parked, z), true)
  {
    var t := Three(0, wait, 0, WakeCas(wait), Parked, z);
    run, t := Next(s, run0, t, true, Event(1, Advance));
    assert t.pc == map[1 := Post, 2 := Parked, 3 := z];
  }

  /** The first process posts and the second one takes the token. */
  lemma SecondWakes(s: State, run0: seq<Event>) returns (run: seq<Event>)
    requires Reaches(s, run0, Three(0, 1, 0, Post, Parked, Parked), true)
    ensures Reaches(s, run, Three(0, 1, 0, Idle, WokenRead, Parked), true)
  {
    var t := Three(0, 1, 0, Post, Parked, Parked);
    run, t := Next(s, run0, t, true, Event(1, Advance));
    run, t := Next(s, run, t, true, Event(2, Advance));
    assert t.pc == map[1 := Idle, 2 := WokenRead, 3 := Parked];
  }

  lemma SecondLooks(s: State, run0: seq<Event>) returns (run: seq<Event>)
    requires Reaches(s, run0, Three(0, 1, 0, Idle, WokenRead, Parked), true)
    ensures Reaches(s, run, Three(0, 1, 0, Idle, WokenCas, Parked), true)
  {
    var t := Three(0, 1, 0, Idle, WokenRead, Parked);
    run, t := Next(s, run0, t, true, Event(2, Advance));
    assert t.pc == map[1 := Idle, 2 := WokenCas, 3 := Parked];
  }

  /** A failing sem_wait leaves the count behind ... */
  lemma SecondFails(s: State, run0: seq<Event>, wait: nat) returns (run: seq<Event>)
    requires Reaches(s, run0, Three(1, wait, 0, Holding, Parked, Idle), false)
    ensures Reaches(s, run, Three(1, wait, 0, Holding, Announce, Idle), false)
  {
    var t := Three(1, wait, 0, Holding, Parked, Idle);
    run, t := Next(s, run0, t, false, Event(2, Fail));
    run, t := Next(s, run, t, false, Event(2, Advance));
    assert t.pc == map[1 := Holding, 2 := Announce, 3 := Idle];
  }

  /** ... and the next call adds to it. */
  lemma SleepsAgain(s: State, run0: seq<Event>, wait: nat) returns (run: seq<Event>)
    requires Reaches(s, run0, Three(1, wait, 0, Holding, Parked, Idle), false)
    ensures Reaches(s, run, Three(1, (wait + 1) % WORD, 0, Holding, Parked, Idle), false)
  {
    run := SecondFails(s, run0, wait);
    var t := Three(1, wait, 0, Holding, Announce, Idle);
    run, t := Next(s, run, t, false, Event(2, Advance));
    run, t := Next(s, run, t, false, Event(2, Advance));
    assert t.pc == map[1 := Holding, 2 := Parked, 3 := Idle];
  }

  lemma {:induction false} CountsUp(s: State, run0: seq<Event>, wait: nat, n: nat) returns (run: seq<Event>)
    requires Reaches(s, run0, Three(1, wait, 0, Holding, Parked, Idle), false) && wait <= n < WORD
    ensures Reaches(s, run, Three(1, n, 0, Holding, Parked, Idle), false)
    decreases n - wait
  {
    run := run0;
    if wait < n {
      run := SleepsAgain(s, run, wait);
      run := CountsUp(s, run, wait + 1, n);
    }
  }

  lemma UnlocksUnseen(s: State, run0: seq<Event>) returns (run: seq<Event>)
    requires Reaches(s, run0, Three(1, 0, 0, Holding, Parked, Idle), false)
    ensures Reaches(s, run, Three(0, 0, 0, Idle, Parked, Idle), false)
  {
    var t := Three(1, 0, 0, Holding, Parked, Idle);
    run, t := Next(s, run0, t, false, Event(1, Enter(Unlock)));
    run, t := Next(s, run, t, false, Event(1, Advance));
    run, t := Next(s, run, t, false, Event(1, Advance));
    assert t.pc == map[1 := Idle, 2 := Parked, 3 := Idle];
  }

  // ----- and so nobody is stuck

  lemma {:induction false} ExecCons(c: Config, s: State, e: Event, t: State, run: seq<Event>)
    requires Step(c, s, e) == Some(t)
    ensures Exec(c, s, [e] + run) == Exec(c, t, run)
    decreases |run|
  {
    var all := [e] + run;
    if run == [] {
      assert all[..|all| - 1] == [];
    } else {
      assert all[..|all| - 1] == [e] + run[..|run| - 1];
      ExecCons(c, s, e, t, run[..|run| - 1]);
    }
  }

  /** How far process `q` is from handing a token to the sleepers. */
  function Distance(s: State, q: Pid): nat
    requires q in s.pc
  {
    match s.pc[q]
    case WokenRead => 8
    case WokenCas => 7
    case Holding => 6
    case Unlock => 5
    case WakeCas(w) => if s.wait == w && w > 0 then 2 else 4
    case WakeRead => 3
    case Post => 1
    case _ => 10
  }

  /** `q` has the lock or will meet it free, and ends up waking a sleeper. */
  ghost predicate Helping(c: Config, s: State, p: Pid, q: Pid) {
    && c.semaphore && Covered(s) && |s.pc| <= SEM_VALUE_MAX
    && p in s.pc && s.pc[p].Parked? && q in s.pc && q != p
    && if s.lock == 0 then Aiding(s.pc[q]) else s.lock == q && (s.pc[q].Holding? || s.pc[q].Unlock?)
  }

  lemma TakeToken(c: Config, s: State, p: Pid) returns (run: seq<Event>, t: State)
    requires p in s.pc && s.pc[p].Parked? && s.lock == 0 && s.sem > 0
    ensures Exec(c, s, run) == Some(t) && p in t.pc && t.pc[p].Holding?
  {
    var e := Event(p, Advance);
    var s1 := Step(c, s, e).value;
    var s2 := Step(c, s1, e).value;
    t := Step(c, s2, e).value;
    run := [e] + ([e] + ([e] + []));
    ExecCons(c, s2, e, t, []);
    ExecCons(c, s1, e, s2, [e] + []);
    ExecCons(c, s, e, s1, [e] + ([e] + []));
  }

  lemma HelpingStep(c: Config, s: State, p: Pid, q: Pid) returns (e: Event, t: State)
    requires Helping(c, s, p, q) && !s.pc[q].Post? && (s.pc[q].WakeRead? ==> s.wait > 0)
    ensures Step(c, s, e) == Some(t)
    ensures Helping(c, t, p, q) && Distance(t, q) < Distance(s, q)
  {
    e := Event(q, if s.pc[q].Holding? then Enter(Unlock) else Advance);
    t := Step(c, s, e).value;
    StepKeepsCovered(c, s, e, t);
  }

  lemma {:induction false} HelpedToLock(c: Config, s: State, p: Pid, q: Pid)
    returns (run: seq<Event>, t: State)
    requires Helping(c, s, p, q)
    ensures Exec(c, s, run) == Some(t) && p in t.pc && t.pc[p].Holding?
    decreases Distance(s, q)
  {
    var e, next, rest;
    if s.pc[q].Post? {
      e := Event(q, Advance);
      next := Step(c, s, e).value;
      rest, t := TakeToken(c, next, p);
    } else if s.pc[q].WakeRead? && s.wait == 0 {
      if s.sem > 0 {
        run, t := TakeToken(c, s, p);
      } else {
        var r := SomebodyPosts(s, p);
        run, t := HelpedToLock(c, s, p, r);
      }
      return;
    } else {
      e, next := HelpingStep(c, s, p, q);
      rest, t := HelpedToLock(c, next, p, q);
    }
    ExecCons(c, s, e, next, rest);
    run := [e] + rest;
  }

  /** From every state of a clean run a sleeping process can still come to hold the lock,
      unless the lock is in the hands of a process that crashed.  In that case some process
      `m` has to be free to force the lock first. */
  lemma SleeperCanAcquire(c: Config, s: State, run: seq<Event>, t: State, p: Pid, m: Pid)
    returns (more: seq<Event>, u: State)
    requires Init(s) && Exec(c, s, run) == Some(t) && CleanRun(c, s, run)
    requires p in t.pc && t.pc[p].Parked?
    requires t.lock in t.pc && t.pc[t.lock].Crashed? ==> m in t.pc && t.pc[m].Idle?
    ensures Exec(c, t, more) == Some(u) && p in u.pc && u.pc[p].Holding?
  {
    AlwaysExclusive(c, s, run, t);
    AlwaysAwake(c, s, run, t);
    if t.lock == 0 {
      if t.sem > 0 {
        more, u := TakeToken(c, t, p);
      } else {
        var q :| q in t.pc && Aiding(t.pc[q]);
        more, u := HelpedToLock(c, t, p, q);
      }
    } else if t.pc[t.lock].Crashed? {
      more, u := ForcedToLock(c, t, p, m);
    } else {
      more, u := HelpedToLock(c, t, p, t.lock);
    }
  }

  lemma ForcedToLock(c: Config, t: State, p: Pid, m: Pid) returns (more: seq<Event>, u: State)
    requires c.semaphore && Covered(t) && |t.pc| <= SEM_VALUE_MAX
    requires p in t.pc && t.pc[p].Parked? && m in t.pc && t.pc[m].Idle?
    requires t.lock != 0 && t.lock in t.pc && t.pc[t.lock].Crashed?
    ensures Exec(c, t, more) == Some(u) && p in u.pc && u.pc[p].Holding?
  {
    var e1, e2 := Event(m, Enter(ForceUnlock(t.lock))), Event(m, Advance);
    var t1 := Step(c, t, e1).value;
    StepKeepsCovered(c, t, e1, t1);
    var t2 := Step(c, t1, e2).value;
    StepKeepsCovered(c, t1, e2, t2);
    var rest;
    rest, u := HelpedToLock(c, t2, p, m);
    ExecCons(c, t1, e2, t2, rest);
    ExecCons(c, t, e1, t1, [e2] + rest);
    more := [e1] + ([e2] + rest);
  }
}
