/** The lock of `kumiko check` and the runs that follow its holder (bin/_lib/check-lock.ts and the
    `check` command of bin/kumiko-legacy.ts), for any number of processes on one lock path.
    `acquireCheckLock` is one step, liveness probes are accurate, process ids are not reused. */
module CheckLock {
  import opened Wrappers

  type Pid = nat

  datatype Phase =
    | Leading(gen: nat)              // holds the lock, no result written
    | Wrote(gen: nat, ok: bool)      // holds the lock, result written
    | Signalled(code: int)           // the signal handler has released; process.exit is ahead
    | Following(gen: nat)            // polls for the end of the run of that generation
    | Reading(gen: nat)              // saw the lock gone, has not read the result yet
    | Exited(code: int, read: Option<Written>)  // `read`: the result a follower adopted
    | Crashed

  /** The content of the result file ("0" or "1"), with the leader that wrote it. */
  datatype Written = Written(ok: bool, writer: Pid, gen: nat)

  datatype State = State(
    lockDir: Option<Pid>,       // the pid file of the lock directory
    result: Option<Written>,
    procs: map<Pid, Phase>,
    generation: nat,            // history: how often the lock was taken
    wroteZero: set<Pid>)        // history: leaders that wrote "0"

  const Initial := State(None, None, map[], 0, {})

  datatype Event =
    | Start(p: Pid)               // acquireCheckLock
    | Writes(p: Pid, ok: bool)    // writeFileSync(resultPath, ...)
    | Exits(p: Pid)               // a leader ends; its "exit" handler releases
    | Signals(p: Pid, code: int)  // SIGINT or SIGTERM: the handler's release()
    | ExitsAfterSignal(p: Pid)    // the handler's process.exit, whose "exit" handler releases again
    | Crashes(p: Pid)             // SIGKILL, or a follower killed by a signal
    | SeesUnlocked(p: Pid)
    | Reads(p: Pid)

  predicate Alive(s: State, p: Pid) {
    p in s.procs && !s.procs[p].Exited? && !s.procs[p].Crashed?
  }

  /** Between taking the lock and releasing it. */
  predicate Holds(s: State, p: Pid) {
    p in s.procs && (s.procs[p].Leading? || s.procs[p].Wrote?)
  }

  predicate Enabled(s: State, e: Event) {
    match e
    case Start(p) => p !in s.procs
    case Writes(p, _) => p in s.procs && s.procs[p].Leading?
    case Exits(p) => Holds(s, p)
    case Signals(p, _) => Holds(s, p)
    case ExitsAfterSignal(p) => p in s.procs && s.procs[p].Signalled?
    case Crashes(p) => Alive(s, p)
    case SeesUnlocked(p) => p in s.procs && s.procs[p].Following? && s.lockDir.None?
    case Reads(p) => p in s.procs && s.procs[p].Reading?
  }

  /** Whether a start takes the lock: it is free, or its holder is dead. */
  predicate Takes(s: State) {
    s.lockDir.None? || !Alive(s, s.lockDir.value)
  }

  function Apply(s: State, e: Event): State
    requires Enabled(s, e)
  {
    match e
    case Start(p) =>
      if Takes(s) then
        s.(lockDir := Some(p), result := None, generation := s.generation + 1,
           procs := s.procs[p := Leading(s.generation + 1)])
      else s.(procs := s.procs[p := Following(s.generation)])
    case Writes(p, ok) =>
      var gen := s.procs[p].gen;
      s.(result := Some(Written(ok, p, gen)), procs := s.procs[p := Wrote(gen, ok)],
         wroteZero := if ok then s.wroteZero + {p} else s.wroteZero)
    case Exits(p) =>
      s.(lockDir := None, procs := s.procs[p := Exited(if s.procs[p] == Wrote(s.procs[p].gen, true) then 0 else 1, None)])
    case Signals(p, code) => s.(lockDir := None, procs := s.procs[p := Signalled(code)])
    case ExitsAfterSignal(p) => s.(lockDir := None, procs := s.procs[p := Exited(s.procs[p].code, None)])
    case Crashes(p) => s.(procs := s.procs[p := Crashed])
    case SeesUnlocked(p) => s.(procs := s.procs[p := Reading(s.procs[p].gen)])
    case Reads(p) => s.(procs := s.procs[p := Exited(FollowerCode(s.result), s.result)])
  }

  /** What `followCheck` returns for the result file it finds. */
  function FollowerCode(result: Option<Written>): int {
    if result.Some? && result.value.ok then 0 else 1
  }

  /** Consecutive steps from some state. */
  ghost predicate IsPath(states: seq<State>, events: seq<Event>) {
    && |states| == |events| + 1
    && (forall i :: 0 <= i < |events| ==> IsStep(states[i], events[i], states[i + 1]))
  }

  ghost predicate IsRun(states: seq<State>, events: seq<Event>) {
    IsPath(states, events) && states[0] == Initial
  }

  ghost predicate IsStep(s: State, e: Event, t: State) {
    Enabled(s, e) && t == Apply(s, e)
  }

  // ---------------------------------------------------------------- a follower's success, in every run

  ghost predicate ResultsAreWritten(s: State) {
    && (s.result.Some? && s.result.value.ok ==> s.result.value.writer in s.wroteZero)
    && (forall p :: p in s.procs && s.procs[p].Exited? && s.procs[p].read.Some? ==> Adopted(s, s.procs[p]))
  }

  ghost predicate Adopted(s: State, e: Phase)
    requires e.Exited? && e.read.Some?
  {
    e.code == FollowerCode(e.read) && (e.code == 0 ==> e.read.value.writer in s.wroteZero)
  }

  lemma {:induction false} RunsKeepResults(states: seq<State>, events: seq<Event>, i: nat)
    requires IsRun(states, events) && i < |states|
    ensures ResultsAreWritten(states[i])
  {
    if i > 0 {
      RunsKeepResults(states, events, i - 1);
      assert IsStep(states[i - 1], events[i - 1], states[i]);
    }
  }

  /** In every interleaving a follower that returns 0 has read a "0" some leader on that path wrote. */
  lemma FollowerSuccessIsALeaders(states: seq<State>, events: seq<Event>, i: nat)
    requires IsRun(states, events) && i < |events| && events[i].Reads?
    ensures var code := states[i + 1].procs[events[i].p].code;
      code == 0 ==>
        && states[i].result.Some? && states[i].result.value.ok
        && states[i].result.value.writer in states[i].wroteZero
  {
    RunsKeepResults(states, events, i);
    assert IsStep(states[i], events[i], states[i + 1]);
  }

  /** What step `j` did to the result file: a "0" or "1" written, or removed by a leader that starts. */
  predicate TouchesResult(states: seq<State>, events: seq<Event>, j: nat)
    requires |states| == |events| + 1 && j < |events|
  {
    || events[j].Writes?
    || (events[j].Start? && events[j].p in states[j + 1].procs && states[j + 1].procs[events[j].p].Leading?)
  }

  ghost predicate LastTouch(states: seq<State>, events: seq<Event>, k: nat, j: nat)
    requires |states| == |events| + 1 && k <= |events|
  {
    j < k && TouchesResult(states, events, j) && forall i :: j < i < k ==> !TouchesResult(states, events, i)
  }

  /** The last event before `k` that touched the result file wrote a "0". */
  ghost predicate ZeroStands(states: seq<State>, events: seq<Event>, k: nat)
    requires |states| == |events| + 1 && k <= |events|
  {
    exists j :: 0 <= j < k && LastTouch(states, events, k, j) && events[j].Writes? && events[j].ok
  }

  lemma {:induction false} ResultIsLastTouch(states: seq<State>, events: seq<Event>, k: nat)
    requires IsRun(states, events) && k < |states|
    ensures states[k].result.Some? && states[k].result.value.ok <==> ZeroStands(states, events, k)
  {
    if k > 0 {
      var e := events[k - 1];
      assert IsStep(states[k - 1], e, states[k]);
      ResultIsLastTouch(states, events, k - 1);
      if TouchesResult(states, events, k - 1) {
        assert LastTouch(states, events, k, k - 1);
        assert forall j :: 0 <= j < k && LastTouch(states, events, k, j) ==> j == k - 1;
      } else {
        assert forall j :: 0 <= j < k - 1 ==> (LastTouch(states, events, k, j) <==> LastTouch(states, events, k - 1, j));
        assert !LastTouch(states, events, k, k - 1);
      }
    }
  }

  /** A follower returns 0 exactly when what was last written, and not removed since, is a "0"; else 1. */
  lemma FollowerReturns(states: seq<State>, events: seq<Event>, k: nat)
    requires IsRun(states, events) && k < |events| && events[k].Reads?
    ensures var phase := states[k + 1].procs[events[k].p];
      phase.Exited? && phase.code == if ZeroStands(states, events, k) then 0 else 1
  {
    ResultIsLastTouch(states, events, k);
    assert IsStep(states[k], events[k], states[k + 1]);
  }

  /** A follower that has seen the lock gone reads the result next. */
  lemma FollowerGoesOn(states: seq<State>, events: seq<Event>, k: nat)
    requires IsRun(states, events) && k < |events| && events[k].SeesUnlocked?
    ensures states[k].lockDir.None? && Enabled(states[k + 1], Reads(events[k].p))
  {
    assert IsStep(states[k], events[k], states[k + 1]);
  }

  /** A leader that ends by itself returns 0 exactly when it has written a "0", and else 1; a signalled one
      returns the code of its signal. */
  lemma LeaderReturns(states: seq<State>, events: seq<Event>, k: nat)
    requires IsRun(states, events) && k < |events|
    ensures events[k].Exits? ==>
      && events[k].p in states[k + 1].procs
      && states[k + 1].procs[events[k].p] ==
           Exited(if exists j :: 0 <= j < k && events[j] == Writes(events[k].p, true) then 0 else 1, None)
    ensures events[k].ExitsAfterSignal? ==>
      && events[k].p in states[k + 1].procs && states[k + 1].procs[events[k].p].Exited?
      && exists j :: 0 <= j < k && events[j] == Signals(events[k].p, states[k + 1].procs[events[k].p].code)
  {
    assert IsStep(states[k], events[k], states[k + 1]);
    if events[k].Exits? {
      WroteMeans(states, events, k, events[k].p);
    }
    if events[k].ExitsAfterSignal? {
      var j := WasSignalled(states, events, k, events[k].p);
    }
  }

  lemma {:induction false} WroteMeans(states: seq<State>, events: seq<Event>, k: nat, p: Pid)
    requires IsRun(states, events) && k < |states|
    ensures Holds(states[k], p) ==>
      (states[k].procs[p].Wrote? && states[k].procs[p].ok <==> exists j :: 0 <= j < k && events[j] == Writes(p, true))
    ensures p !in states[k].procs || states[k].procs[p].Leading? ==>
      !exists j, ok :: 0 <= j < k && events[j] == Writes(p, ok)
  {
    if k > 0 {
      WroteMeans(states, events, k - 1, p);
      assert IsStep(states[k - 1], events[k - 1], states[k]);
    }
  }

  lemma {:induction false} WasSignalled(states: seq<State>, events: seq<Event>, k: nat, p: Pid) returns (j: nat)
    requires IsRun(states, events) && k < |states| && p in states[k].procs && states[k].procs[p].Signalled?
    ensures j < k && events[j] == Signals(p, states[k].procs[p].code)
  {
    assert IsStep(states[k - 1], events[k - 1], states[k]);
    if events[k - 1] == Signals(p, states[k].procs[p].code) {
      j := k - 1;
    } else {
      j := WasSignalled(states, events, k - 1, p);
    }
  }

  // ---------------------------------------------------------------- mutual exclusion

  ghost predicate Exclusive(s: State) {
    forall p, q :: Holds(s, p) && Holds(s, q) ==> p == q
  }

  /** A signal handler has released once and will release again. */
  ghost predicate Pending(s: State) {
    exists q :: q in s.procs && s.procs[q].Signalled?
  }

  /** No process takes the lock while another stands between its two releases. */
  ghost predicate Calm(states: seq<State>, events: seq<Event>)
    requires |states| == |events| + 1
  {
    forall i :: 0 <= i < |events| && events[i].Start? && Takes(states[i]) ==> !Pending(states[i])
  }

  ghost predicate Inv(s: State) {
    && (forall p :: Holds(s, p) ==> s.lockDir == Some(p) && s.procs[p].gen == s.generation)
    && (s.lockDir.Some? ==>
          && s.lockDir.value in s.procs && !Pending(s)
          && (Holds(s, s.lockDir.value) || s.procs[s.lockDir.value].Crashed?))
    && (s.lockDir.Some? && s.result.Some? ==> s.result.value.gen == s.generation)
    && (s.result.Some? ==> s.result.value.gen <= s.generation)
    && (forall p :: p in s.procs ==> Fresh(s, s.procs[p]))
  }

  /** What a follower of generation `gen` may still read is of that generation or later. */
  ghost predicate Fresh(s: State, phase: Phase) {
    phase.Following? || phase.Reading? ==>
      phase.gen <= s.generation && (s.result.Some? ==> phase.gen <= s.result.value.gen)
  }

  lemma InvKept(s: State, e: Event, t: State)
    requires Inv(s) && IsStep(s, e, t)
    requires e.Start? && Takes(s) ==> !Pending(s)
    ensures Inv(t)
  {
  }

  lemma {:induction false} CalmPathsKeepInv(states: seq<State>, events: seq<Event>, i: nat)
    requires IsPath(states, events) && Inv(states[0]) && Calm(states, events) && i < |states|
    ensures Inv(states[i])
  {
    hide Inv, IsStep;
    if i > 0 {
      CalmPathsKeepInv(states, events, i - 1);
      InvKept(states[i - 1], events[i - 1], states[i]);
    }
  }

  /** On a calm run at most one process holds the lock, stale takeovers included, and a follower that
      returns 0 adopts the run it followed or a later one, never an earlier result. */
  lemma CalmRunsAreExclusive(states: seq<State>, events: seq<Event>, i: nat)
    requires IsRun(states, events) && Calm(states, events) && i < |states|
    ensures Exclusive(states[i])
    ensures i < |events| && events[i].Reads? ==>
      && Enabled(states[i], events[i])
      && (states[i].result.Some? ==> states[i].result.value.gen >= states[i].procs[events[i].p].gen)
  {
    CalmPathsKeepInv(states, events, i);
    if i < |events| && events[i].Reads? {
      assert IsStep(states[i], events[i], states[i + 1]);
      assert Fresh(states[i], states[i].procs[events[i].p]);
    }
  }

  // ---------------------------------------------------------------- and where it is lost

  predicate Quiet(events: seq<Event>) {
    forall i :: 0 <= i < |events| ==> !events[i].Signals?
  }

  lemma {:induction false} QuietStaysCalm(states: seq<State>, events: seq<Event>, i: nat)
    requires IsPath(states, events) && Quiet(events) && !Pending(states[0]) && i < |states|
    ensures !Pending(states[i])
  {
    if i > 0 {
      QuietStaysCalm(states, events, i - 1);
      assert IsStep(states[i - 1], events[i - 1], states[i]);
    }
  }

  lemma {:induction false} FreshPid(taken: set<Pid>) returns (p: Pid)
    ensures forall q :: q in taken ==> q < p
  {
    if taken == {} {
      p := 0;
    } else {
      var q :| q in taken;
      var r := FreshPid(taken - {q});
      p := if q < r then r else q + 1;
      assert forall x :: x in taken ==> x == q || x in taken - {q};
    }
  }

  /** Between the two releases of a signalled leader: another process takes the lock, the second
      release removes it, and a third takes it again. */
  lemma SecondReleaseLosesLock(s: State) returns (states: seq<State>, events: seq<Event>)
    requires Pending(s) && s.lockDir.None?
    ensures IsPath(states, events) && states[0] == s && Quiet(events)
    ensures !Exclusive(states[|states| - 1])
  {
    var q :| q in s.procs && s.procs[q].Signalled?;
    var a := FreshPid(s.procs.Keys);
    var b := a + 1;
    var s1 := Apply(s, Start(a));
    assert s1.procs.Keys == s.procs.Keys + {a};
    var s2 := Apply(s1, ExitsAfterSignal(q));
    assert s2.procs.Keys == s1.procs.Keys;
    var s3 := Apply(s2, Start(b));
    assert Holds(s3, a) && Holds(s3, b);
    states, events := [s, s1, s2, s3], [Start(a), ExitsAfterSignal(q), Start(b)];
    assert IsStep(s, Start(a), s1) && IsStep(s1, ExitsAfterSignal(q), s2) && IsStep(s2, Start(b), s3);
  }

  ghost predicate StaysExclusive(s: State) {
    forall states, events, i ::
      IsPath(states, events) && states[0] == s && Quiet(events) && 0 <= i < |states| ==> Exclusive(states[i])
  }

  /** In a state a calm run can reach, the lock is safe against everything but further signals exactly
      when no signalled process still has its second release ahead. */
  lemma ExclusionIffNoPendingRelease(s: State)
    requires Inv(s)
    ensures StaysExclusive(s) <==> !Pending(s)
  {
    if Pending(s) {
      var states, events := SecondReleaseLosesLock(s);
      assert !Exclusive(states[|states| - 1]);
    } else {
      forall states, events, i | IsPath(states, events) && states[0] == s && Quiet(events) && 0 <= i < |states|
        ensures Exclusive(states[i])
      {
        forall k | 0 <= k < |events| ensures !Pending(states[k]) {
          QuietStaysCalm(states, events, k);
        }
        CalmPathsKeepInv(states, events, i);
      }
    }
  }

  /** So the lock is not exclusive over all interleavings: one signal at the right time breaks it. */
  lemma MutualExclusionFails() returns (all: seq<State>, steps: seq<Event>)
    ensures IsRun(all, steps) && !Exclusive(all[|all| - 1])
  {
    var s1 := Apply(Initial, Start(0));
    var s2 := Apply(s1, Signals(0, 130));
    assert s2.procs[0].Signalled?;
    var states, events := SecondReleaseLosesLock(s2);
    all, steps := [Initial, s1] + states, [Start(0), Signals(0, 130)] + events;
    forall i | 0 <= i < |steps| ensures IsStep(all[i], steps[i], all[i + 1]) {
      if i == 0 {
        assert IsStep(Initial, Start(0), s1);
      } else if i == 1 {
        assert IsStep(s1, Signals(0, 130), s2);
      } else {
        assert IsStep(states[i - 2], events[i - 2], states[i - 1]);
      }
    }
  }

  predicate HolderIsDead(s: State) {
    s.lockDir.Some? && s.lockDir.value in s.procs && s.procs[s.lockDir.value].Crashed?
  }

  predicate NobodyStarts(events: seq<Event>) {
    forall k :: 0 <= k < |events| ==> !events[k].Start?
  }

  /** A process that starts leads exactly when the lock is free or its holder was killed, and else follows
      the run in progress. */
  lemma StartLeadsIff(s: State, p: Pid)
    requires Inv(s) && Enabled(s, Start(p))
    ensures var t := Apply(s, Start(p));
      && p in t.procs && (t.procs[p].Leading? || t.procs[p].Following?)
      && (t.procs[p].Leading? <==> s.lockDir.None? || HolderIsDead(s))
      && (t.procs[p].Leading? ==> t.lockDir == Some(p) && t.result.None?)
      && (t.procs[p].Following? ==> t.lockDir == s.lockDir && t.result == s.result && t.procs[p].gen == s.generation)
  {
  }

  /** A leader that dies without releasing strands its followers: until some process starts, none of
      them sees the lock gone. */
  lemma {:induction false} CrashStrandsFollowers(states: seq<State>, events: seq<Event>, i: nat)
    requires IsPath(states, events) && i < |states|
    requires Inv(states[0]) && HolderIsDead(states[0]) && NobodyStarts(events)
    ensures Inv(states[i]) && HolderIsDead(states[i]) && states[i].lockDir == states[0].lockDir
    ensures i < |events| ==> !events[i].SeesUnlocked?
  {
    if i > 0 {
      CrashStrandsFollowers(states, events, i - 1);
      InvKept(states[i - 1], events[i - 1], states[i]);
      assert IsStep(states[i - 1], events[i - 1], states[i]);
    }
    if i < |events| {
      assert IsStep(states[i], events[i], states[i + 1]);
    }
  }

  /** Some way on, without a new start, lets the follower see the lock gone. */
  ghost predicate CanGetFree(s: State, f: Pid) {
    exists states, events :: FreesFollower(states, events, s, f)
  }

  ghost predicate FreesFollower(states: seq<State>, events: seq<Event>, s: State, f: Pid) {
    && IsPath(states, events) && states[0] == s && NobodyStarts(events)
    && events != [] && events[|events| - 1] == SeesUnlocked(f)
  }

  /** A follower can get free without the help of a new start exactly when the holder of the lock is not
      dead. */
  lemma FreeIffHolderLives(s: State, f: Pid)
    requires Inv(s) && f in s.procs && s.procs[f].Following?
    ensures CanGetFree(s, f) <==> !HolderIsDead(s)
  {
    if HolderIsDead(s) {
      forall states, events ensures !FreesFollower(states, events, s, f) {
        if IsPath(states, events) && states[0] == s && NobodyStarts(events) && events != [] {
          CrashStrandsFollowers(states, events, |events| - 1);
        }
      }
    } else if s.lockDir.None? {
      var t := Apply(s, SeesUnlocked(f));
      assert IsStep(s, SeesUnlocked(f), t);
      assert FreesFollower([s, t], [SeesUnlocked(f)], s, f);
    } else {
      var exits, sees := Exits(s.lockDir.value), SeesUnlocked(f);
      var t := Apply(s, exits);
      assert t.lockDir.None? && t.procs[f] == s.procs[f];
      var u := Apply(t, sees);
      assert IsStep(s, exits, t) && IsStep(t, sees, u);
      assert FreesFollower([s, t, u], [exits, sees], s, f);
    }
  }

  /** Such a state is reached: one process leads, a second follows, and the first is killed. */
  lemma FollowerIsStranded() returns (states: seq<State>, events: seq<Event>)
    ensures IsRun(states, events) && Calm(states, events)
    ensures var s := states[|states| - 1];
      HolderIsDead(s) && s.procs.Keys == {0, 1} && s.procs[1].Following? && !CanGetFree(s, 1)
  {
    var s1 := Apply(Initial, Start(0));
    var s2 := Apply(s1, Start(1));
    var s3 := Apply(s2, Crashes(0));
    states, events := [Initial, s1, s2, s3], [Start(0), Start(1), Crashes(0)];
    assert IsStep(Initial, Start(0), s1) && IsStep(s1, Start(1), s2) && IsStep(s2, Crashes(0), s3);
    CalmPathsKeepInv(states, events, 3);
    FreeIffHolderLives(s3, 1);
  }

  // ---------------------------------------------------------------- the code

  /** The files of one lock path and the processes that use them. */
  class LockPath {
    var lockDir: Option<Pid>
    var result: Option<Written>
    var procs: map<Pid, Phase>
    var generation: nat
    var wroteZero: set<Pid>

    ghost function View(): State
      reads this
    {
      State(lockDir, result, procs, generation, wroteZero)
    }

    constructor ()
      ensures View() == Initial
    {
      lockDir, result, procs, generation, wroteZero := None, None, map[], 0, {};
    }

    /** `isLockHolderAlive` */
    predicate IsLockHolderAlive()
      reads this
      requires lockDir.Some?
    {
      lockDir.value in procs && !procs[lockDir.value].Exited? && !procs[lockDir.value].Crashed?
    }

    /** At most two attempts: a stale lock is removed once, and the next attempt finds the path free. */
    method AcquireCheckLock(p: Pid) returns (leader: bool)
      modifies this`lockDir, this`result
      ensures leader == Takes(old(View()))
      ensures View() == if leader then old(View()).(lockDir := Some(p), result := None) else old(View())
    {
      for attempt := 0 to 2
        invariant procs == old(procs) && result == old(result)
        invariant attempt == 0 ==> lockDir == old(lockDir)
        invariant attempt > 0 ==> lockDir == None && attempt < 2 && Takes(old(View()))
      {
        if lockDir.None? {
          lockDir := Some(p);
          result := None;
          return true;
        }
        if IsLockHolderAlive() { return false; }
        lockDir := None;
      }
      return false;
    }

    /** The check command up to its first await: the leader goes on, anyone else follows. */
    method StartCheck(p: Pid) returns (leader: bool)
      requires Enabled(View(), Start(p))
      modifies this
      ensures View() == Apply(old(View()), Start(p))
    {
      leader := AcquireCheckLock(p);
      if leader {
        generation := generation + 1;
        procs := procs[p := Leading(generation)];
      } else {
        procs := procs[p := Following(generation)];
      }
    }

    method WriteResult(p: Pid, allGood: bool)
      requires Enabled(View(), Writes(p, allGood))
      modifies this`result, this`procs, this`wroteZero
      ensures View() == Apply(old(View()), Writes(p, allGood))
    {
      var gen := procs[p].gen;
      result := Some(Written(allGood, p, gen));
      procs := procs[p := Wrote(gen, allGood)];
      if allGood {
        wroteZero := wroteZero + {p};
      }
    }

    /** `rmSync(lockDir, { recursive: true, force: true })`, whoever took the lock. */
    method Release()
      modifies this`lockDir
      ensures lockDir == None
    {
      lockDir := None;
    }

    method OnExit(p: Pid)
      requires Enabled(View(), Exits(p))
      modifies this`lockDir, this`procs
      ensures View() == Apply(old(View()), Exits(p))
    {
      Release();
      var allGood := procs[p].Wrote? && procs[p].ok;
      procs := procs[p := Exited(if allGood then 0 else 1, None)];
    }

    method OnSignal(p: Pid, code: int)
      requires Enabled(View(), Signals(p, code))
      modifies this`lockDir, this`procs
      ensures View() == Apply(old(View()), Signals(p, code))
    {
      Release();
      procs := procs[p := Signalled(code)];
    }

    method OnExitAfterSignal(p: Pid)
      requires Enabled(View(), ExitsAfterSignal(p))
      modifies this`lockDir, this`procs
      ensures View() == Apply(old(View()), ExitsAfterSignal(p))
    {
      Release();
      procs := procs[p := Exited(procs[p].code, None)];
    }

    /** One turn of the polling loop of `followCheck`. */
    method Poll(p: Pid) returns (unlocked: bool)
      requires p in procs && procs[p].Following?
      modifies this`procs
      ensures unlocked == Enabled(old(View()), SeesUnlocked(p))
      ensures View() == if unlocked then Apply(old(View()), SeesUnlocked(p)) else old(View())
    {
      unlocked := lockDir.None?;
      if unlocked {
        procs := procs[p := Reading(procs[p].gen)];
      }
    }

    method ReadResult(p: Pid) returns (code: int)
      requires Enabled(View(), Reads(p))
      modifies this`procs
      ensures View() == Apply(old(View()), Reads(p)) && code == procs[p].code
    {
      code := if result.Some? && result.value.ok then 0 else 1;
      procs := procs[p := Exited(code, result)];
    }
  }
}
