/** What a call of one of the lock functions does, step by step. */
module ShmtxCalls {

  import opened Options
  import opened Bits
  import opened Shmtx

  /** None of the events is one of process `p`. */
  ghost predicate Others(run: seq<Event>, p: Pid) {
    forall i :: 0 <= i < |run| ==> run[i].p != p
  }

  lemma OtherStep(c: Config, s: State, e: Event, t: State, p: Pid)
    requires p in s.pc && Step(c, s, e) == Some(t) && e.p != p
    ensures p in t.pc && t.pc[p] == s.pc[p]
  {
  }

  lemma {:induction false} Undisturbed(c: Config, s: State, run: seq<Event>, t: State, p: Pid)
    requires p in s.pc && Exec(c, s, run) == Some(t) && Others(run, p)
    ensures p in t.pc && t.pc[p] == s.pc[p]
    decreases |run|
  {
    if run != [] {
      var before := run[..|run| - 1];
      var m := Exec(c, s, before).value;
      Undisturbed(c, s, before, m, p);
      OtherStep(c, m, run[|run| - 1], t, p);
    }
  }

  function Moved(s: State, p: Pid, to: Pc): State {
    s.(pc := s.pc[p := to])
  }

  // ----- ngx_shmtx_trylock

  /** Whatever others do in between: `x` is the state at the first look at the lock word, `y` the one at
      the swap.  The call takes the lock iff the word is free both times, and never waits. */
  lemma TrylockAnswers(c: Config, s: State, p: Pid, a: seq<Event>, x: State, b: seq<Event>, y: State)
    requires p in s.pc && s.pc[p].Idle? && Others(a, p) && Others(b, p)
    requires Exec(c, Moved(s, p, TryRead), a) == Some(x)
    requires x.lock == 0 ==> Exec(c, Moved(x, p, TryCas), b) == Some(y)
    ensures Step(c, s, Event(p, Enter(TryRead))) == Some(Moved(s, p, TryRead))
    ensures Step(c, x, Event(p, Advance)) == Some(Moved(x, p, if x.lock == 0 then TryCas else Idle))
    ensures x.lock == 0 ==>
      Step(c, y, Event(p, Advance)) == Some(if y.lock == 0 then Moved(y, p, Holding).(lock := p) else Moved(y, p, Idle))
  {
    Undisturbed(c, Moved(s, p, TryRead), a, x, p);
    if x.lock == 0 { Undisturbed(c, Moved(x, p, TryCas), b, y, p); }
  }

  // ----- runs of one process

  /** The next `k` accesses of process `p`. */
  ghost function Advances(p: Pid, k: nat): seq<Event> {
    seq(k, _ => Event(p, Advance))
  }

  lemma StepOn(c: Config, s: State, p: Pid, k: nat, t: State, u: State)
    requires Exec(c, s, Advances(p, k)) == Some(t) && Step(c, t, Event(p, Advance)) == Some(u)
    ensures Exec(c, s, Advances(p, k + 1)) == Some(u)
  {
    assert Advances(p, k + 1)[..k] == Advances(p, k);
  }

  lemma FirstStep(c: Config, s: State, p: Pid, u: State)
    requires Step(c, s, Event(p, Advance)) == Some(u)
    ensures Exec(c, s, Advances(p, 0)) == Some(s) && Exec(c, s, Advances(p, 1)) == Some(u)
  {
    assert Advances(p, 0) == [];
    StepOn(c, s, p, 0, s, u);
  }

  lemma MovedAgain(s: State, p: Pid, x: Pc, y: Pc)
    ensures Moved(Moved(s, p, x), p, y) == Moved(s, p, y)
    ensures p in s.pc && s.pc[p] == y ==> Moved(s, p, y) == s
  {
    assert s.pc[p := x][p := y] == s.pc[p := y];
    assert p in s.pc && s.pc[p] == y ==> s.pc[p := y] == s.pc;
  }

  /** A free lock is taken in two accesses, by either function. */
  lemma FreeLockTaken(c: Config, s: State, p: Pid, to: Pc)
    requires p in s.pc && s.pc[p].Idle? && s.lock == 0 && (to == TryRead || to == LockRead(0))
    ensures Step(c, s, Event(p, Enter(to))) == Some(Moved(s, p, to))
    ensures Exec(c, Moved(s, p, to), Advances(p, 2)) == Some(Moved(s, p, Holding).(lock := p))
  {
    var s' := Moved(s, p, to);
    var cas := if to == TryRead then TryCas else LockCas(0);
    MovedAgain(s, p, to, cas);
    MovedAgain(s, p, cas, Holding);
    FirstStep(c, s', p, Moved(s, p, cas));
    StepOn(c, s', p, 1, Moved(s, p, cas), Moved(s, p, Holding).(lock := p));
  }

  // ----- ngx_shmtx_lock

  predicate InLock(pc: Pc) {
    match pc
    case LockRead(_) | LockCas(_) | Announce | LastRead | LastCas | Parked | WokenRead | WokenCas => true
    case _ => false
  }

  /** The call does not return before the process has swapped its pid into a free lock word. */
  lemma LockReturnsHolding(c: Config, s: State, e: Event, t: State)
    requires Step(c, s, e) == Some(t) && e.p in s.pc && InLock(s.pc[e.p]) && !e.a.Crash?
    ensures e.p in t.pc && (InLock(t.pc[e.p]) || t.pc[e.p].Holding?)
    ensures t.lock == if t.pc[e.p].Holding? then e.p else s.lock
    ensures t.pc[e.p].Holding? ==> s.lock == 0
  {
  }

  /** A look at a taken lock and a swap that fails lead to the same place. */
  lemma SwapFailsAlike(c: Config, s: State, p: Pid, look: Pc, swap: Pc)
    requires p in s.pc && s.pc[p] == look && (look.LockRead? || look.LastRead? || look.WokenRead?)
    requires swap == match look case LockRead(n) => LockCas(n) case LastRead => LastCas case _ => WokenCas
    ensures Step(c, s, Event(p, Advance)).Some?
    ensures s.lock == 0 ==> Step(c, s, Event(p, Advance)) == Some(Moved(s, p, swap))
    ensures s.lock != 0 ==> Step(c, Moved(s, p, swap), Event(p, Advance)) == Step(c, s, Event(p, Advance))
  {
    if s.lock != 0 {
      var t := Step(c, s, Event(p, Advance)).value;
      MovedAgain(s, p, swap, t.pc[p]);
    }
  }

  /** A process that has been woken and finds the lock taken goes on like one that enters, and so
      does one whose sem_wait fails. */
  lemma WokenLikeEntered(c: Config, s: State, p: Pid)
    requires p in s.pc && s.lock != 0
    ensures s.pc[p].WokenRead? ==>
      Step(c, s, Event(p, Advance)) == Step(c, Moved(s, p, LockRead(0)), Event(p, Advance))
    ensures s.pc[p].Parked? ==> Step(c, s, Event(p, Fail)) == Some(Moved(s, p, LockRead(0)))
  {
    if s.pc[p].WokenRead? { MovedAgain(s, p, LockRead(0), Step(c, s, Event(p, Advance)).value.pc[p]); }
  }

  /** The number of rounds of spinning: the loop variable takes the values 1, 2, 4, ... below `spin`. */
  ghost predicate Rounds(c: Config, r: nat) {
    if c.ncpu > 1 then Pow2(r) >= c.spin && forall i: nat :: i < r ==> Pow2(i) < c.spin else r == 0
  }

  /** The loop variable at attempt `i`. */
  ghost function SpinVar(i: nat): nat {
    if i == 0 then 0 else if i <= 64 then Pow2(i - 1) else WORD
  }

  /** The largest loop variable that is a power of two. */
  const TOP := 0x8000_0000_0000_0000

  ghost predicate Continues(c: Config, i: nat) {
    c.ncpu > 1 && SpinVar(i) % WORD < c.spin
  }

  /** At all attempts up to `i`. */
  ghost predicate Turns(c: Config, i: nat) {
    i > 0 ==> Turns(c, i - 1) && Continues(c, i)
  }

  lemma {:induction false} AllTurns(c: Config, i: nat)
    requires forall j: nat :: 0 < j <= i ==> Continues(c, j)
    ensures Turns(c, i)
  {
    if i > 0 { AllTurns(c, i - 1); }
  }

  lemma SpinStep(c: Config, s: State, p: Pid, i: nat)
    requires p in s.pc && s.lock != 0 && i > 0 && Continues(c, i)
    ensures Step(c, Moved(s, p, LockRead(SpinVar(i - 1))), Event(p, Advance)) == Some(Moved(s, p, LockRead(SpinVar(i))))
  {
    NextSpinVar(i);
    MovedAgain(s, p, LockRead(SpinVar(i - 1)), LockRead(SpinVar(i)));
  }

  /** While the lock is taken a process goes from round to round. */
  lemma {:induction false} Spins(c: Config, s: State, p: Pid, i: nat)
    requires p in s.pc && s.pc[p] == LockRead(0) && s.lock != 0
    requires Turns(c, i)
    ensures Exec(c, s, Advances(p, i)) == Some(Moved(s, p, LockRead(SpinVar(i))))
  {
    if i == 0 {
      assert Advances(p, 0) == [];
      MovedAgain(s, p, Idle, LockRead(0));
    } else {
      Spins(c, s, p, i - 1);
      SpinStep(c, s, p, i);
      StepOn(c, s, p, i - 1, Moved(s, p, LockRead(SpinVar(i - 1))), Moved(s, p, LockRead(SpinVar(i))));
    }
  }

  /** Then it counts itself as a waiter and sleeps, or starts again where there is no semaphore. */
  lemma SpinsThenSleeps(c: Config, s: State, p: Pid, r: nat)
    requires p in s.pc && s.pc[p] == LockRead(0) && s.lock != 0 && Rounds(c, r) && r <= 63
    ensures !c.semaphore ==> Exec(c, s, Advances(p, r + 1)) == Some(s)
    ensures c.semaphore ==>
      Exec(c, s, Advances(p, r + 3)) == Some(Moved(s, p, Parked).(wait := (s.wait + 1) % WORD))
  {
    SpinningEnds(c, s, p, r);
    if c.semaphore { SleepsNext(c, s, p, r + 1, (s.wait + 1) % WORD); }
  }

  lemma SleepsNext(c: Config, s: State, p: Pid, k: nat, w: nat)
    requires p in s.pc && s.lock != 0 && Exec(c, s, Advances(p, k)) == Some(Moved(s, p, Announce))
    requires w == (s.wait + 1) % WORD
    ensures Exec(c, s, Advances(p, k + 2)) == Some(Moved(s, p, Parked).(wait := w))
  {
    AnnounceStep(c, s, p);
    StepOn(c, s, p, k, Moved(s, p, Announce), Moved(s, p, LastRead).(wait := w));
    SleepStep(c, s, p, w);
    StepOn(c, s, p, k + 1, Moved(s, p, LastRead).(wait := w), Moved(s, p, Parked).(wait := w));
  }

  lemma AnnounceStep(c: Config, s: State, p: Pid)
    requires p in s.pc
    ensures Step(c, Moved(s, p, Announce), Event(p, Advance)) ==
      Some(Moved(s, p, LastRead).(wait := (s.wait + 1) % WORD))
  {
    MovedAgain(s, p, Announce, LastRead);
  }

  lemma SleepStep(c: Config, s: State, p: Pid, w: nat)
    requires p in s.pc && s.lock != 0
    ensures Step(c, Moved(s, p, LastRead).(wait := w), Event(p, Advance)) == Some(Moved(s, p, Parked).(wait := w))
  {
    MovedAgain(s, p, LastRead, Parked);
  }

  lemma SpinningEnds(c: Config, s: State, p: Pid, r: nat)
    requires p in s.pc && s.pc[p] == LockRead(0) && s.lock != 0 && Rounds(c, r) && r <= 63
    ensures Exec(c, s, Advances(p, r + 1)) == Some(if c.semaphore then Moved(s, p, Announce) else s)
  {
    RoundsSpin(c, r);
    Spins(c, s, p, r);
    NextSpinVar(r + 1);
    var to := if c.semaphore then Announce else LockRead(0);
    MovedAgain(s, p, LockRead(SpinVar(r)), to);
    StepOn(c, s, p, r, Moved(s, p, LockRead(SpinVar(r))), Moved(s, p, to));
  }

  lemma RoundsSpin(c: Config, r: nat)
    requires Rounds(c, r) && r <= 63
    ensures Turns(c, r) && !Continues(c, r + 1)
  {
    WordPowers();
    Pow2Grows(r, 63);
    forall j: nat | 0 < j <= r ensures Continues(c, j) {
      Pow2Grows(j - 1, 63);
      assert Pow2(j - 1) < c.spin;
    }
    AllTurns(c, r);
  }

  /** With more than one processor and `spin` above every power of two that a word holds, the loop
      variable is shifted to zero and the process never sleeps. */
  lemma SpinsForever(c: Config, s: State, p: Pid, k: nat)
    requires p in s.pc && s.pc[p] == LockRead(0) && s.lock != 0 && c.ncpu > 1 && c.spin > TOP
    ensures Exec(c, s, Advances(p, k)) == Some(Moved(s, p, LockRead(SpinVar(k))))
  {
    WordPowers();
    forall j: nat | 0 < j <= k ensures Continues(c, j) {
      if j <= 64 { Pow2Grows(j - 1, 63); }
    }
    AllTurns(c, k);
    Spins(c, s, p, k);
  }

  lemma SomeRounds(c: Config) returns (r: nat)
    requires c.ncpu <= 1 || c.spin <= TOP
    ensures Rounds(c, r) && r <= 63
  {
    r := 0;
    WordPowers();
    while c.ncpu > 1 && Pow2(r) < c.spin
      invariant r <= 63 && (c.ncpu <= 1 ==> r == 0)
      invariant forall i: nat :: i < r ==> c.ncpu > 1 && Pow2(i) < c.spin
      decreases 63 - r
    {
      r := r + 1;
    }
  }

  /** A process that keeps finding the lock taken goes to sleep iff its spinning ends. */
  lemma SleepsIff(c: Config, s: State, p: Pid)
    requires p in s.pc && s.pc[p] == LockRead(0) && s.lock != 0 && c.semaphore
    ensures (exists k: nat :: Sleeps(c, s, p, k)) <==> c.ncpu <= 1 || c.spin <= TOP
  {
    if c.ncpu <= 1 || c.spin <= TOP {
      var r := SomeRounds(c);
      SpinsThenSleeps(c, s, p, r);
      assert Sleeps(c, s, p, r + 3);
    } else {
      forall k: nat ensures !Sleeps(c, s, p, k) { SpinsForever(c, s, p, k); }
    }
  }

  ghost predicate Sleeps(c: Config, s: State, p: Pid, k: nat) {
    var t := Exec(c, s, Advances(p, k));
    t.Some? && p in t.value.pc && t.value.pc[p].Parked?
  }

  lemma NextSpinVar(i: nat)
    requires i > 0
    ensures SpinVar(i) == var n := SpinVar(i - 1); if n == 0 then 1 else if 2 * n < WORD then 2 * n else WORD
  {
    WordPowers();
    if 1 < i <= 64 {
      assert SpinVar(i) == 2 * SpinVar(i - 1);
      Pow2Grows(i - 1, 63);
    }
  }

  // ----- ngx_shmtx_unlock, ngx_shmtx_force_unlock and ngx_shmtx_wakeup

  /** The lock word is cleared iff it names the process that unlocks, or the one for which the lock
      is forced; only then, and only where there is a semaphore, sleepers are looked for. */
  lemma UnlockFrees(c: Config, s: State, p: Pid)
    requires p in s.pc && (s.pc[p].Unlock? || s.pc[p].ForceUnlock?)
    ensures var owner := if s.pc[p].Unlock? then p else s.pc[p].of;
      Step(c, s, Event(p, Advance)) ==
        Some(Moved(s, p, if s.lock == owner && c.semaphore then WakeRead else Idle)
          .(lock := if s.lock == owner then 0 else s.lock))
  {
  }

  /** Left alone, the process then takes one waiter off the counter, if there is one, and posts
      once for it; a semaphore at its maximum stays there. */
  lemma WakeupPosts(c: Config, s: State, p: Pid)
    requires p in s.pc && s.pc[p].WakeRead?
    ensures s.wait == 0 ==> Step(c, s, Event(p, Advance)) == Some(Moved(s, p, Idle))
    ensures s.wait > 0 ==>
      var sem := if s.sem < SEM_VALUE_MAX then s.sem + 1 else s.sem;
      Exec(c, s, Advances(p, 3)) == Some(Moved(s, p, Idle).(wait := s.wait - 1, sem := sem))
  {
    if s.wait > 0 {
      var w, taken := s.wait, Moved(s, p, Post).(wait := s.wait - 1);
      FirstStep(c, s, p, Moved(s, p, WakeCas(w)));
      MovedAgain(s, p, WakeCas(w), Post);
      StepOn(c, s, p, 1, Moved(s, p, WakeCas(w)), taken);
      MovedAgain(s, p, Post, Idle);
      var sem := if s.sem < SEM_VALUE_MAX then s.sem + 1 else s.sem;
      StepOn(c, s, p, 2, taken, Moved(s, p, Idle).(wait := w - 1, sem := sem));
    }
  }

  /** In a crowd it tries again until it has taken a waiter off the counter or found none. */
  lemma WakeupReturns(c: Config, s: State, e: Event, t: State)
    requires Step(c, s, e) == Some(t) && e.p in s.pc && InWakeup(s.pc[e.p]) && !e.a.Crash?
    ensures e.p in t.pc && (InWakeup(t.pc[e.p]) || t.pc[e.p].Idle?)
    ensures t.lock == s.lock
    ensures t.wait == if t.pc[e.p].Post? then s.wait - 1 else s.wait
    ensures t.pc[e.p].Idle? ==> if s.pc[e.p].Post? then t.sem >= s.sem else s.wait == 0
  {
  }

  predicate InWakeup(pc: Pc) {
    pc.WakeRead? || pc.WakeCas? || pc.Post?
  }
}
