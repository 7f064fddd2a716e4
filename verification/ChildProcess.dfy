/** Settling of a spawned child: `run` of bin/commands/_spawn.ts against every order of the events
    Node and the operating system can deliver. */
module ChildProcess {
  import opened Strings
  import opened Utf8
  import opened Wrappers

  type Bytes = seq<Byte>

  /** How a child ended: `child.exitCode` and `child.signalCode`. A child that could not be spawned
      has a negative exit code. */
  datatype Exit = Code(code: int) | Signal(number: nat)

  /** `exitStatusFromChild` on the two fields of a child. */
  function ExitStatus(exit: Option<Exit>): int {
    match exit
    case Some(Code(c)) => c
    case Some(Signal(n)) => 128 + n
    case None => 1
  }

  datatype Timer = Unset | Armed | Over  // Over: fired or cleared

  datatype Cause = ByError | ByClose | ByDrain | ByTimeout

  datatype Outcome = Outcome(status: int, stdout: string, stderr: string, timedOut: bool)

  /** One stdio pipe: all bytes written to it, the chunks delivered so far, and the bytes not yet delivered. */
  datatype Pipe = Pipe(written: Bytes, delivered: seq<Bytes>, pending: Bytes)

  const EMPTY := Pipe([], [], [])

  datatype State = State(
    // the variables of `run`
    stdout: string, stderr: string,
    settled: bool, timedOut: bool,
    timer: Timer, killTimer: Timer, drainTimer: Timer,
    // the child
    exit: Option<Exit>, out: Pipe, err: Pipe,
    destroyed: bool,  // stdout.destroy() and stderr.destroy()
    closed: bool,     // "close" was emitted
    sigterms: nat, sigkills: nat,  // signals sent
    // what the caller saw
    resolved: seq<(Cause, Outcome)>)

  function Initial(withTimeout: bool): State {
    State("", "", false, false, if withTimeout then Armed else Unset, Unset, Unset,
          None, EMPTY, EMPTY, false, false, 0, 0, [])
  }

  datatype Event =
    | Writes(toErr: bool, bytes: Bytes)  // the child, or whoever inherited its pipes
    | Data(fromErr: bool, size: nat)     // a chunk of any size
    | SpawnFails(code: int)
    | Exits(exit: Exit)
    | Closes
    | Timeout(killFails: bool)         // a kill that fails emits "error" before it returns
    | KillTimeout
    | DrainTimeout

  predicate Enabled(s: State, e: Event) {
    match e
    case Writes(_, _) => !s.closed
    case Data(fromErr, size) => !s.destroyed && 0 < size <= |(if fromErr then s.err else s.out).pending|
    case SpawnFails(code) => s.exit.None? && code < 0 && s.out.written == [] && s.err.written == [] && s.sigterms == 0
    case Exits(exit) => s.exit.None? && (exit.Code? ==> exit.code >= 0)
    case Closes => s.exit.Some? && !s.closed && (s.destroyed || (s.out.pending == [] && s.err.pending == []))
    case Timeout(_) => s.timer == Armed
    case KillTimeout => s.killTimer == Armed
    case DrainTimeout => s.drainTimer == Armed
  }

  /** `clearTimeout` on a timer that may not be set. */
  function Clear(t: Timer): Timer {
    if t == Armed then Over else t
  }

  function Settle(s: State, status: int, cause: Cause): State {
    if s.settled then s
    else s.(settled := true, timer := Clear(s.timer), drainTimer := Clear(s.drainTimer),
            resolved := s.resolved + [(cause, Outcome(status, s.stdout, s.stderr, s.timedOut))])
  }

  /** `child.kill("SIGTERM")`, with the "error" event of a kill that fails. */
  function Terminate(s: State, killFails: bool): State {
    var t := s.(sigterms := s.sigterms + 1);
    if killFails then Settle(t, -1, ByError) else t
  }

  /** The timeout callback. */
  function Expire(s: State, killFails: bool): State {
    if s.exit.Some? then s
    else Settle(Terminate(s, killFails).(destroyed := true, killTimer := Armed, timedOut := true), -1, ByTimeout)
  }

  function Written(pipe: Pipe, bytes: Bytes): Pipe {
    pipe.(written := pipe.written + bytes, pending := pipe.pending + bytes)
  }

  function Delivered(pipe: Pipe, size: nat): Pipe
    requires size <= |pipe.pending|
  {
    pipe.(delivered := pipe.delivered + [pipe.pending[..size]], pending := pipe.pending[size..])
  }

  function Apply(s: State, e: Event): State
    requires Enabled(s, e)
  {
    match e
    case Writes(toErr, bytes) =>
      if toErr then s.(err := Written(s.err, bytes)) else s.(out := Written(s.out, bytes))
    case Data(fromErr, size) =>
      if fromErr then s.(stderr := s.stderr + Decode(s.err.pending[..size]), err := Delivered(s.err, size))
      else s.(stdout := s.stdout + Decode(s.out.pending[..size]), out := Delivered(s.out, size))
    case SpawnFails(code) => Settle(s.(exit := Some(Code(code))), -1, ByError)
    case Exits(exit) => s.(exit := Some(exit), killTimer := Clear(s.killTimer), drainTimer := Armed)
    case Closes => Settle(s.(closed := true), ExitStatus(s.exit), ByClose)
    case Timeout(killFails) => Expire(s.(timer := Over), killFails)
    case KillTimeout =>
      var t := s.(killTimer := Over);
      if s.exit.None? then t.(sigkills := s.sigkills + 1) else t
    case DrainTimeout =>
      Settle(s.(drainTimer := Over, destroyed := true), ExitStatus(s.exit), ByDrain)
  }

  // ---------------------------------------------------------------- what every state keeps

  ghost predicate Inv(s: State, withTimeout: bool) {
    Settling(s) && Timers(s, withTimeout) && Streams(s)
  }

  /** The promise is resolved once, by one cause, and each cause fixes what the status says. */
  ghost predicate Settling(s: State) {
    && |s.resolved| == (if s.settled then 1 else 0)
    && (s.timedOut || s.destroyed ==> s.settled)
    && (s.settled ==> Faithful(s, s.resolved[0].0, s.resolved[0].1))
  }

  ghost predicate Faithful(s: State, cause: Cause, outcome: Outcome) {
    && (outcome.timedOut <==> cause == ByTimeout)
    && (cause == ByTimeout || cause == ByError ==> outcome.status == -1)
    && (cause == ByClose || cause == ByDrain ==> s.exit.Some? && outcome.status == ExitStatus(s.exit))
    && (cause == ByClose ==> s.closed)
  }

  /** No run is stuck, SIGKILL is the follow-up of one SIGTERM, and its timer is off once the child is gone. */
  ghost predicate Timers(s: State, withTimeout: bool) {
    && (!s.settled && s.exit.Some? ==> s.drainTimer == Armed)
    && (!s.settled && s.exit.None? && withTimeout ==> s.timer == Armed)
    && (!withTimeout ==> s.timer == Unset)
    && s.sigkills <= s.sigterms <= 1
    && (s.sigterms == 0 ==> s.killTimer == Unset)
    && (s.sigkills == 1 ==> s.killTimer == Over)
    && (s.sigterms == 1 && s.exit.None? ==> s.killTimer == Armed || s.sigkills == 1)
    && (s.sigterms == 1 ==> s.timer != Armed)
    && (s.killTimer == Armed ==> s.exit.None?)
    && (s.drainTimer == Armed ==> s.exit.Some?)
    && (s.closed ==> s.settled && s.exit.Some?)
  }

  /** What was delivered and what is pending is what was written, and each chunk was decoded by itself. */
  ghost predicate Streams(s: State) {
    Flows(s.stdout, s.out) && Flows(s.stderr, s.err)
  }

  predicate Flows(received: string, pipe: Pipe) {
    && Concat(pipe.delivered) + pipe.pending == pipe.written
    && (forall k :: 0 <= k < |pipe.delivered| ==> pipe.delivered[k] != [])
    && received == DecodeChunks(pipe.delivered)
  }

  lemma InitialInv(withTimeout: bool)
    ensures Inv(Initial(withTimeout), withTimeout)
  {
  }

  lemma WriteKept(received: string, pipe: Pipe, bytes: Bytes)
    requires Flows(received, pipe)
    ensures Flows(received, Written(pipe, bytes))
  {
    AppendAssociates(Concat(pipe.delivered), pipe.pending, bytes);
    hide Concat, DecodeChunks;
  }

  lemma ReadKept(received: string, pipe: Pipe, size: nat)
    requires Flows(received, pipe) && 0 < size <= |pipe.pending|
    ensures Flows(received + Decode(pipe.pending[..size]), Delivered(pipe, size))
  {
    var chunk, rest := pipe.pending[..size], pipe.pending[size..];
    var chunks := pipe.delivered + [chunk];
    assert chunks[..|chunks| - 1] == pipe.delivered;
    assert Concat(chunks) == Concat(pipe.delivered) + chunk;
    assert DecodeChunks(chunks) == received + Decode(chunk);
    AppendAssociates(Concat(pipe.delivered), chunk, rest);
    hide Concat, DecodeChunks, Decode;
    assert chunk + rest == pipe.pending;
  }

  lemma StreamsKept(s: State, e: Event)
    requires Streams(s) && Enabled(s, e)
    ensures Streams(Apply(s, e))
  {
    hide Flows, Written, Delivered, Decode, ExitStatus;
    match e {
      case Writes(_, bytes) =>
        WriteKept(s.stdout, s.out, bytes);
        WriteKept(s.stderr, s.err, bytes);
      case Data(false, size) => ReadKept(s.stdout, s.out, size);
      case Data(true, size) => ReadKept(s.stderr, s.err, size);
      case _ =>
    }
  }

  lemma TimersKept(s: State, e: Event, withTimeout: bool)
    requires Inv(s, withTimeout) && Enabled(s, e)
    ensures Timers(Apply(s, e), withTimeout)
  {
    hide Streams, Written, Delivered, Decode, Faithful, Settling, ExitStatus;
    match e {
      case Writes(_, _) => assert Timers(Apply(s, e), withTimeout);
      case Data(_, _) => assert Timers(Apply(s, e), withTimeout);
      case SpawnFails(_) => assert Timers(Apply(s, e), withTimeout);
      case Exits(_) => assert Timers(Apply(s, e), withTimeout);
      case Closes => assert Timers(Apply(s, e), withTimeout);
      case Timeout(_) => assert Timers(Apply(s, e), withTimeout);
      case KillTimeout => assert Timers(Apply(s, e), withTimeout);
      case DrainTimeout => assert Timers(Apply(s, e), withTimeout);
    }
  }

  /** Settling with a faithful outcome, and nothing else, resolves. */
  lemma SettleIsFaithful(s: State, status: int, cause: Cause)
    requires Settling(s)
    requires !s.settled ==> Faithful(s, cause, Outcome(status, s.stdout, s.stderr, s.timedOut))
    ensures Settling(Settle(s, status, cause))
  {
  }

  lemma SettledKept(s: State, e: Event)
    requires Settling(s) && s.settled && Enabled(s, e)
    ensures Settling(Apply(s, e))
  {
    var (cause, outcome) := s.resolved[0];
    assert Faithful(s, cause, outcome);
    hide ExitStatus;
    match e {
      case Writes(_, _) => assert Faithful(Apply(s, e), cause, outcome);
      case Data(_, _) => assert Faithful(Apply(s, e), cause, outcome);
      case SpawnFails(_) => assert Faithful(Apply(s, e), cause, outcome);
      case Exits(_) => assert Faithful(Apply(s, e), cause, outcome);
      case Closes => assert Faithful(Apply(s, e), cause, outcome);
      case Timeout(_) => assert Faithful(Apply(s, e), cause, outcome);
      case KillTimeout => assert Faithful(Apply(s, e), cause, outcome);
      case DrainTimeout => assert Faithful(Apply(s, e), cause, outcome);
    }
  }

  lemma SettlingKept(s: State, e: Event, withTimeout: bool)
    requires Inv(s, withTimeout) && Enabled(s, e)
    ensures Settling(Apply(s, e))
  {
    if s.settled {
      SettledKept(s, e);
      return;
    }
    assert !s.closed;
    assert s.drainTimer == Armed ==> s.exit.Some?;
    hide Inv, Timers, Streams, Written, Delivered, Decode;
    match e {
      case Writes(_, _) => assert Settling(Apply(s, e));
      case Data(_, _) => assert Settling(Apply(s, e));
      case SpawnFails(code) => SettleIsFaithful(s.(exit := Some(Code(code))), -1, ByError);
      case Exits(_) => assert Settling(Apply(s, e));
      case Closes => SettleIsFaithful(s.(closed := true), ExitStatus(s.exit), ByClose);
      case Timeout(killFails) => TimeoutSettles(s, killFails);
      case KillTimeout => assert Settling(Apply(s, e));
      case DrainTimeout => DrainSettles(s);
    }
  }

  lemma TimeoutSettles(s: State, killFails: bool)
    requires Settling(s) && s.timer == Armed
    ensures Settling(Apply(s, Timeout(killFails)))
  {
  }

  lemma DrainSettles(s: State)
    requires Settling(s) && s.drainTimer == Armed && s.exit.Some?
    ensures Settling(Apply(s, DrainTimeout))
  {
  }

  lemma InvKept(s: State, e: Event, withTimeout: bool)
    requires Inv(s, withTimeout) && Enabled(s, e)
    ensures Inv(Apply(s, e), withTimeout)
  {
    StreamsKept(s, e);
    TimersKept(s, e, withTimeout);
    SettlingKept(s, e, withTimeout);
    hide Apply, Streams, Settling, Timers;
  }

  // ---------------------------------------------------------------- whole runs

  ghost predicate IsRun(withTimeout: bool, states: seq<State>, events: seq<Event>) {
    && |states| == |events| + 1 && states[0] == Initial(withTimeout)
    && (forall i :: 0 <= i < |events| ==>
          IsStep(states[i], events[i], states[i + 1]))
  }

  ghost predicate IsStep(s: State, e: Event, t: State) {
    Enabled(s, e) && t == Apply(s, e)
  }

  lemma {:induction false} RunsKeepInv(withTimeout: bool, states: seq<State>, events: seq<Event>, i: nat)
    requires IsRun(withTimeout, states, events) && i < |states|
    ensures Inv(states[i], withTimeout)
  {
    hide Inv, Apply, Enabled;
    if i == 0 {
      InitialInv(withTimeout);
    } else {
      RunsKeepInv(withTimeout, states, events, i - 1);
      assert IsStep(states[i - 1], events[i - 1], states[i]);
      InvKept(states[i - 1], events[i - 1], withTimeout);
    }
  }

  lemma {:induction false} ResolutionIsFinal(withTimeout: bool, states: seq<State>, events: seq<Event>, i: nat, k: nat)
    requires IsRun(withTimeout, states, events) && i <= k < |states| && states[i].settled
    ensures states[k].settled && states[k].resolved == states[i].resolved
  {
    hide Apply;
    if i < k {
      ResolutionIsFinal(withTimeout, states, events, i, k - 1);
      StaysResolved(states[k - 1], events[k - 1]);
    }
  }

  lemma StaysResolved(s: State, e: Event)
    requires Enabled(s, e) && s.settled
    ensures Apply(s, e).settled && Apply(s, e).resolved == s.resolved
  {
    hide ExitStatus;
  }

  /** A settled run was settled by one of its steps. */
  lemma {:induction false} SettlingStep(withTimeout: bool, states: seq<State>, events: seq<Event>, k: nat)
      returns (i: nat)
    requires IsRun(withTimeout, states, events) && k < |states| && states[k].settled
    ensures i < k && !states[i].settled && states[i + 1].settled
  {
    if states[k - 1].settled {
      i := SettlingStep(withTimeout, states, events, k - 1);
    } else {
      i := k - 1;
    }
  }

  /** Over every order of events, the step that settles a run resolves it once and for good. The result
      is marked as timed out exactly when that step is a timeout whose kill succeeds, and then, as after
      a failed kill or spawn, the status is -1. Otherwise the child has exited before, and the status is its
      exit code, or 128 and the number of the signal that killed it. */
  lemma RunsResolveFaithfully(withTimeout: bool, states: seq<State>, events: seq<Event>, i: nat, k: nat)
    requires IsRun(withTimeout, states, events) && i < k < |states| && !states[i].settled && states[i + 1].settled
    ensures |states[i + 1].resolved| == 1 && states[k].resolved == states[i + 1].resolved
    ensures var (e, s, outcome) := (events[i], states[i + 1], states[i + 1].resolved[0].1);
      && (e.SpawnFails? || e.Closes? || e.Timeout? || e.DrainTimeout?)
      && (outcome.timedOut <==> e == Timeout(false))
      && (e.Timeout? ==> states[i].exit.None?)
      && (e.SpawnFails? || e.Timeout? ==> outcome.status == -1)
      && (outcome.status == 0 <==> s.exit == Some(Code(0)) && (e.Closes? || e.DrainTimeout?))
    ensures events[i].Closes? || events[i].DrainTimeout? ==>
      exists h :: 0 <= h < i && events[h].Exits? && states[i + 1].resolved[0].1.status ==
        (match events[h].exit case Code(c) => c case Signal(n) => 128 + n)
  {
    RunsKeepInv(withTimeout, states, events, i);
    RunsKeepInv(withTimeout, states, events, i + 1);
    if events[i].Closes? || events[i].DrainTimeout? {
      var h := HasExited(withTimeout, states, events, i);
    }
    ResolutionIsFinal(withTimeout, states, events, i + 1, k);
    assert IsStep(states[i], events[i], states[i + 1]);
    hide Timers, Streams;
    SettlesBy(states[i], events[i]);
  }

  /** The text of a result for a pipe: the chunks delivered, one after the other; their bytes are a prefix
      of what was written, after "close" all of it. It is the text of these bytes exactly when each chunk
      ends between two characters, and of UTF-8 exactly when no chunk begins with a continuation byte. */
  ghost predicate IsReceived(text: string, pipe: Pipe, all: bool) {
    && var bytes := Concat(pipe.delivered);
    && bytes <= pipe.written && (all ==> bytes == pipe.written)
    && text == DecodeChunks(pipe.delivered)
    && (text == Decode(bytes) <==> AreCuts(pipe.delivered))
    && forall sent :: bytes == Encode(sent) ==> (text == sent <==> NoneContinues(pipe.delivered))
  }

  lemma FlowsIsReceived(text: string, pipe: Pipe)
    requires Flows(text, pipe)
    ensures IsReceived(text, pipe, pipe.pending == [])
  {
    hide Concat, Decode, DecodeChunks, Encode, AreCuts, NoneContinues;
    ChunksDecodeIff(pipe.delivered);
    forall sent | Concat(pipe.delivered) == Encode(sent)
      ensures text == sent <==> NoneContinues(pipe.delivered)
    {
      EncodedChunksIff(pipe.delivered, sent);
    }
  }

  lemma RunsReceive(withTimeout: bool, states: seq<State>, events: seq<Event>, i: nat)
    requires IsRun(withTimeout, states, events) && i < |events| && !states[i].settled && states[i + 1].settled
    ensures states[i + 1].resolved != []
    ensures var (s, outcome) := (states[i + 1], states[i + 1].resolved[0].1);
      && IsReceived(outcome.stdout, s.out, events[i].Closes?)
      && IsReceived(outcome.stderr, s.err, events[i].Closes?)
  {
    RunsKeepInv(withTimeout, states, events, i);
    RunsKeepInv(withTimeout, states, events, i + 1);
    assert IsStep(states[i], events[i], states[i + 1]);
    var s := states[i + 1];
    FlowsIsReceived(s.stdout, s.out);
    FlowsIsReceived(s.stderr, s.err);
    hide Flows, IsReceived, Timers;
    SettlesWithText(states[i], events[i]);
  }

  lemma SettlesWithText(s: State, e: Event)
    requires Enabled(s, e) && Settling(s) && !s.settled && Apply(s, e).settled
    ensures var t := Apply(s, e);
      && t.resolved[0].1.stdout == t.stdout && t.resolved[0].1.stderr == t.stderr
      && (e.Closes? ==> t.out.pending == [] && t.err.pending == [])
  {
  }

  /** An open run whose child is gone has seen its exit: a failed spawn would have settled it. */
  lemma {:induction false} HasExited(withTimeout: bool, states: seq<State>, events: seq<Event>, i: nat) returns (h: nat)
    requires IsRun(withTimeout, states, events) && i < |states| && !states[i].settled && states[i].exit.Some?
    ensures h < i && events[h] == Exits(states[i].exit.value)
  {
    var s, e := states[i - 1], events[i - 1];
    assert IsStep(s, e, states[i]);
    if s.exit.Some? {
      StaysGone(s, e);
      if s.settled {
        StaysResolved(s, e);
      }
      h := HasExited(withTimeout, states, events, i - 1);
    } else {
      h := i - 1;
    }
  }

  lemma StaysGone(s: State, e: Event)
    requires Enabled(s, e) && s.exit.Some?
    ensures Apply(s, e).exit == s.exit
  {
    hide ExitStatus;
  }

  /** Settling clears the timers it no longer needs; a drain grace that expires destroys the streams, and a
      failed spawn leaves its code. */
  lemma SettlingClears(s: State, e: Event)
    requires Enabled(s, e)
    ensures var t := Apply(s, e);
      && (!s.settled && t.settled ==> t.timer != Armed && t.drainTimer != Armed)
      && (e.DrainTimeout? ==> t.destroyed && t.drainTimer == Over)
      && (e.SpawnFails? ==> t.exit == Some(Code(e.code)) && t.settled)
  {
    hide ExitStatus, Decode, Written, Delivered;
    match e {
      case Timeout(_) => assert !s.settled && Apply(s, e).settled ==> Apply(s, e).timer != Armed;
      case _ =>
    }
  }

  /** The bytes the child wrote to one of its pipes. */
  function Sent(events: seq<Event>, toErr: bool): Bytes {
    if events == [] then []
    else
      var e := events[|events| - 1];
      Sent(events[..|events| - 1], toErr) + if e.Writes? && e.toErr == toErr then e.bytes else []
  }

  lemma {:induction false} WrittenIsSent(withTimeout: bool, states: seq<State>, events: seq<Event>, i: nat)
    requires IsRun(withTimeout, states, events) && i < |states|
    ensures states[i].out.written == Sent(events[..i], false) && states[i].err.written == Sent(events[..i], true)
  {
    if i > 0 {
      WrittenIsSent(withTimeout, states, events, i - 1);
      var s, e := states[i - 1], events[i - 1];
      assert IsStep(s, e, states[i]);
      assert events[..i][..i - 1] == events[..i - 1];
      WritesOnly(s, e);
    }
  }

  lemma WritesOnly(s: State, e: Event)
    requires Enabled(s, e)
    ensures Apply(s, e).out.written == s.out.written + if e.Writes? && !e.toErr then e.bytes else []
    ensures Apply(s, e).err.written == s.err.written + if e.Writes? && e.toErr then e.bytes else []
  {
    hide ExitStatus, Decode, Settle, Expire;
    assert s.out.written + [] == s.out.written && s.err.written + [] == s.err.written;
    if e.SpawnFails? || e.Closes? || e.Timeout? || e.DrainTimeout? {
      SettlingWritesNothing(s, e);
    }
  }

  lemma SettlingWritesNothing(s: State, e: Event)
    requires Enabled(s, e) && (e.SpawnFails? || e.Closes? || e.Timeout? || e.DrainTimeout?)
    ensures Apply(s, e).out == s.out && Apply(s, e).err == s.err
  {
    hide ExitStatus;
  }

  /** What the settling event has to do with the cause that is recorded. */
  lemma SettlesBy(s: State, e: Event)
    requires Enabled(s, e) && Settling(s) && !s.settled && Apply(s, e).settled
    ensures var cause := Apply(s, e).resolved[0].0;
      match e
      case SpawnFails(_) => cause == ByError
      case Closes => cause == ByClose
      case DrainTimeout => cause == ByDrain
      case Timeout(killFails) => cause == if killFails then ByError else ByTimeout
      case _ => false
  {
  }

  /** A SIGTERM that fails settles the run before the timeout does: timed out, but not marked so. */
  lemma FailedKillHidesTimeout()
    ensures var s := Initial(true);
      && Enabled(s, Timeout(true))
      && IsRun(true, [s, Apply(s, Timeout(true))], [Timeout(true)])
      && Apply(s, Timeout(true)).resolved == [(ByError, Outcome(-1, "", "", false))]
  {
    var s := Initial(true);
    assert IsStep(s, Timeout(true), Apply(s, Timeout(true)));
  }

  /** The two bytes of U+00E9, delivered one by one, come out as two replacement characters. */
  lemma SplitCharacterIsGarbled() returns (states: seq<State>, events: seq<Event>)
    ensures IsRun(false, states, events) && |events| == 5
    ensures var s := states[5];
      && s.out.written == Encode("\U{E9}") && s.err == EMPTY
      && s.resolved == [(ByClose, Outcome(0, [REPLACEMENT, REPLACEMENT], "", false))]
  {
    hide Decode, Encode;
    var bytes: Bytes := [0xC3, 0xA9];
    EncodedText();
    OneByte(0xC3);
    OneByte(0xA9);
    var write, read, exit := Writes(false, bytes), Data(false, 1), Exits(Code(0));
    var s0 := Initial(false);
    var s1 := s0.(out := Pipe(bytes, [], bytes));
    assert IsStep(s0, write, s1);
    var s2 := s1.(stdout := [REPLACEMENT], out := Pipe(bytes, [[0xC3]], [0xA9]));
    assert bytes[..1] == [0xC3] && bytes[1..] == [0xA9];
    assert IsStep(s1, read, s2);
    var s3 := s2.(stdout := [REPLACEMENT, REPLACEMENT], out := Pipe(bytes, [[0xC3], [0xA9]], []));
    assert s2.out.pending[..1] == [0xA9] && s2.out.pending[1..] == [];
    assert IsStep(s2, read, s3);
    var s4 := Apply(s3, exit);
    assert IsStep(s3, exit, s4);
    var s5 := Apply(s4, Closes);
    assert IsStep(s4, Closes, s5);
    states, events := [s0, s1, s2, s3, s4, s5], [write, read, read, exit, Closes];
  }

  lemma OneByte(b: Byte)
    requires b == 0xC3 || b == 0xA9
    ensures Decode([b]) == [REPLACEMENT]
  {
    var bs: Bytes := [b];
    assert bs[1..] == [];
  }

  lemma EncodedText()
    ensures Encode("\U{E9}") == [0xC3, 0xA9]
  {
    assert "\U{E9}"[1..] == "" && EncodeChar('\U{E9}') == [0xC3, 0xA9];
  }

  /** While a run is open something is still due that settles it: the drain grace once the child has
      exited, the timeout before that; only a run without timeout waits for its child. */
  lemma OpenRunsAreNotStuck(withTimeout: bool, states: seq<State>, events: seq<Event>, i: nat)
    requires IsRun(withTimeout, states, events) && i < |states| && !states[i].settled
    ensures states[i].exit.Some? ==>
      Enabled(states[i], DrainTimeout) && Apply(states[i], DrainTimeout).settled
    ensures states[i].exit.None? && withTimeout ==>
      Enabled(states[i], Timeout(false)) && Apply(states[i], Timeout(false)).settled
  {
    RunsKeepInv(withTimeout, states, events, i);
  }

  lemma KillStep(s: State, e: Event, t: State, withTimeout: bool)
    requires IsStep(s, e, t) && Timers(s, withTimeout)
    ensures t.sigterms > s.sigterms ==> s.exit.None? && e.Timeout?
    ensures t.sigkills > s.sigkills ==> s.exit.None? && s.sigterms == 1 && s.sigkills == 0
  {
    match e {
      case KillTimeout => assert t == Apply(s, e);
      case Timeout(_) => assert t.sigkills == s.sigkills;
      case _ => assert t.sigterms == s.sigterms && t.sigkills == s.sigkills;
    }
  }

  /** SIGKILL is sent at most once, after SIGTERM, and only to a child that has not exited; once the
      child has exited no kill is due any more. */
  lemma KillsAreEscalated(withTimeout: bool, states: seq<State>, events: seq<Event>, i: nat)
    requires IsRun(withTimeout, states, events) && i < |events|
    ensures states[i].sigkills <= states[i].sigterms <= 1
    ensures states[i + 1].sigterms > states[i].sigterms ==> states[i].exit.None? && events[i].Timeout?
    ensures states[i + 1].sigkills > states[i].sigkills ==>
      states[i].exit.None? && states[i].sigterms == 1 && states[i].sigkills == 0
    ensures states[i + 1].exit.Some? ==> states[i + 1].killTimer != Armed
  {
    RunsKeepInv(withTimeout, states, events, i);
    RunsKeepInv(withTimeout, states, events, i + 1);
    hide IsStep, Settling, Streams;
    KillStep(states[i], events[i], states[i + 1], withTimeout);
  }

  /** A timeout sends SIGTERM to a child that is still there. */
  lemma TimeoutTerminates(withTimeout: bool, states: seq<State>, events: seq<Event>, i: nat)
    requires IsRun(withTimeout, states, events) && i < |events| && events[i].Timeout? && states[i].exit.None?
    ensures states[i].sigterms == 0 && states[i + 1].sigterms == 1 && states[i + 1].destroyed
  {
    RunsKeepInv(withTimeout, states, events, i);
    RunsKeepInv(withTimeout, states, events, i + 1);
    assert IsStep(states[i], events[i], states[i + 1]);
  }

  /** A child that ignores SIGTERM does not live on: as long as it is there, SIGKILL was sent or is due. */
  lemma KillIsDue(withTimeout: bool, states: seq<State>, events: seq<Event>, i: nat)
    requires IsRun(withTimeout, states, events) && i < |states| && states[i].sigterms == 1 && states[i].exit.None?
    ensures states[i].sigkills == 1 || (Enabled(states[i], KillTimeout) && Apply(states[i], KillTimeout).sigkills == 1)
  {
    RunsKeepInv(withTimeout, states, events, i);
  }

  // ---------------------------------------------------------------- the code

  /** The variables of `run`, its event handlers, and the child they observe. */
  class ChildRun {
    var stdout: string
    var stderr: string
    var settled: bool
    var timedOut: bool
    var timer: Timer
    var killTimer: Timer
    var drainTimer: Timer
    var exit: Option<Exit>
    var out: Pipe
    var err: Pipe
    var destroyed: bool
    var closed: bool
    var sigterms: nat
    var sigkills: nat
    var resolved: seq<(Cause, Outcome)>

    ghost function View(): State
      reads this
    {
      State(stdout, stderr, settled, timedOut, timer, killTimer, drainTimer,
            exit, out, err, destroyed, closed, sigterms, sigkills, resolved)
    }

    constructor (withTimeout: bool)
      ensures View() == Initial(withTimeout)
    {
      stdout, stderr, settled, timedOut := "", "", false, false;
      timer := if withTimeout then Armed else Unset;
      killTimer, drainTimer, exit := Unset, Unset, None;
      out, err, destroyed, closed := EMPTY, EMPTY, false, false;
      sigterms, sigkills, resolved := 0, 0, [];
    }

    /** `settle`: the first call resolves, later ones do nothing. */
    method SettleWith(status: int, cause: Cause)
      modifies this`settled, this`timer, this`drainTimer, this`resolved
      ensures View() == Settle(old(View()), status, cause)
    {
      if settled { return; }
      settled := true;
      if timer == Armed { timer := Over; }
      if drainTimer == Armed { drainTimer := Over; }
      resolved := resolved + [(cause, Outcome(status, stdout, stderr, timedOut))];
    }

    method OnData(fromErr: bool, size: nat)
      requires Enabled(View(), Data(fromErr, size))
      modifies this`stdout, this`stderr, this`out, this`err
      ensures View() == Apply(old(View()), Data(fromErr, size))
    {
      var chunk := if fromErr then err.pending[..size] else out.pending[..size];
      if fromErr {
        stderr := stderr + Decode(chunk);
        err := Delivered(err, size);
      } else {
        stdout := stdout + Decode(chunk);
        out := Delivered(out, size);
      }
    }

    method OnError(code: int)
      requires Enabled(View(), SpawnFails(code))
      modifies this
      ensures View() == Apply(old(View()), SpawnFails(code))
    {
      exit := Some(Code(code));
      SettleWith(-1, ByError);
    }

    method OnExit(e: Exit)
      requires Enabled(View(), Exits(e))
      modifies this`exit, this`killTimer, this`drainTimer
      ensures View() == Apply(old(View()), Exits(e))
    {
      exit := Some(e);
      if killTimer == Armed { killTimer := Over; }
      drainTimer := Armed;
    }

    method OnClose()
      requires Enabled(View(), Closes)
      modifies this
      ensures View() == Apply(old(View()), Closes)
    {
      closed := true;
      SettleWith(ExitStatus(exit), ByClose);
    }

    method OnTimeout(killFails: bool)
      requires Enabled(View(), Timeout(killFails))
      modifies this
      ensures View() == Apply(old(View()), Timeout(killFails))
    {
      timer := Over;
      hide Settle, Terminate, Enabled;
      if exit.None? {
        Expired(killFails);
      }
    }

    method Expired(killFails: bool)
      requires exit.None?
      modifies this
      ensures View() == Expire(old(View()), killFails)
    {
      hide Settle, Terminate;
      KillGently(killFails);
      ghost var terminated := View();
      destroyed := true;
      killTimer := Armed;
      timedOut := true;
      assert View() == terminated.(destroyed := true, killTimer := Armed, timedOut := true);
      SettleWith(-1, ByTimeout);
    }

    method KillGently(killFails: bool)
      modifies this`settled, this`timer, this`drainTimer, this`resolved, this`sigterms
      ensures View() == Terminate(old(View()), killFails)
    {
      sigterms := sigterms + 1;
      if killFails {
        SettleWith(-1, ByError);
      }
    }

    method OnKillTimeout()
      requires Enabled(View(), KillTimeout)
      modifies this`killTimer, this`sigkills
      ensures View() == Apply(old(View()), KillTimeout)
    {
      killTimer := Over;
      if exit.None? {
        sigkills := sigkills + 1;
      }
    }

    /** The drain grace expires: `settleAfterExit`. */
    method OnDrainTimeout()
      requires Enabled(View(), DrainTimeout)
      modifies this
      ensures View() == Apply(old(View()), DrainTimeout)
    {
      drainTimer := Over;
      destroyed := true;
      SettleWith(ExitStatus(exit), ByDrain);
    }
  }
}
