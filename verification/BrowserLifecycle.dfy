/** The shared browser of the render service as a step machine, one step per synchronous segment
    between two awaits (apps/puppeteer-service/src/render.ts and idle-closer.ts). */
module BrowserLifecycle {
  import opened Wrappers

  /** A launched Chromium; handles are numbered in launch order. */
  type Handle = nat
  type RenderId = nat

  /** The promise of one `puppeteer.launch` call. */
  datatype Promise = Pending | Resolved(handle: Handle) | Rejected

  /** Where a call of `render` stands. */
  datatype Phase =
    | Launching(promise: nat)  // getBrowser called puppeteer.launch and awaits it
    | Waiting(promise: nat)    // getBrowser returned the launch of another render
    | Using(handle: Handle)    // has its browser: newPage, the page work and page.close are ahead
    | Unwinding                // the launch failed: only the outer finally is ahead

  datatype State = State(
    browser: Option<Handle>,        // module variable of render.ts
    launchingPromise: Option<nat>,  // module variable of render.ts
    running: int,                   // closure variable of idle-closer.ts
    timer: bool,                    // idle-closer.ts: cancelTimer !== null
    renders: map<RenderId, Phase>,
    promises: seq<Promise>,
    launched: nat,
    connected: set<Handle>,         // handles whose `connected` is true
    closed: set<Handle>)            // handles close() was called on

  const Initial := State(None, None, 0, false, map[], [], 0, {}, {})

  datatype Event =
    | Begin(r: RenderId)          // render() up to its first await
    | LaunchSettles(ok: bool)     // puppeteer.launch finishes
    | LauncherResumes(r: RenderId)
    | WaiterResumes(r: RenderId)
    | Disconnects(h: Handle)      // a crash, or a close() taking effect
    | End(r: RenderId)            // the outer finally of render()
    | TimerFires

  predicate Enabled(s: State, e: Event) {
    match e
    case Begin(r) => r !in s.renders
    case LaunchSettles(_) => s.launchingPromise.Some? && InLaunch(s, s.launchingPromise.value)
    case LauncherResumes(r) => r in s.renders && s.renders[r].Launching? && Settled(s, s.renders[r].promise)
    case WaiterResumes(r) => r in s.renders && s.renders[r].Waiting? && Settled(s, s.renders[r].promise)
    case Disconnects(h) => h in s.connected
    case End(r) => r in s.renders && (s.renders[r].Using? || s.renders[r].Unwinding?)
    case TimerFires => s.timer
  }

  predicate Settled(s: State, p: nat) {
    p < |s.promises| && s.promises[p] != Pending
  }

  function Close(closed: set<Handle>, h: Option<Handle>): set<Handle> {
    if h.Some? then closed + {h.value} else closed
  }

  /** The state after `idleCloser.begin()` and the synchronous part of `getBrowser()`. */
  function Begun(s: State, r: RenderId): State {
    var s1 := s.(timer := false, running := s.running + 1);
    if s.browser.Some? && s.browser.value in s.connected then
      s1.(renders := s.renders[r := Using(s.browser.value)])
    else if s.launchingPromise.Some? then
      s1.(renders := s.renders[r := Waiting(s.launchingPromise.value)])
    else
      s1.(browser := None, closed := Close(s.closed, s.browser),
          promises := s.promises + [Pending], launchingPromise := Some(|s.promises|),
          renders := s.renders[r := Launching(|s.promises|)])
  }

  /** The phase of a render whose awaited launch has settled. */
  function After(p: Promise): Phase {
    if p.Resolved? then Using(p.handle) else Unwinding
  }

  function Apply(s: State, e: Event): State
    requires Enabled(s, e)
  {
    match e
    case Begin(r) => Begun(s, r)
    case LaunchSettles(ok) =>
      var p := s.launchingPromise.value;
      if ok then s.(promises := s.promises[p := Resolved(s.launched)],
                    launched := s.launched + 1, connected := s.connected + {s.launched})
      else s.(promises := s.promises[p := Rejected])
    case LauncherResumes(r) =>
      var outcome := s.promises[s.renders[r].promise];
      s.(browser := if outcome.Resolved? then Some(outcome.handle) else s.browser,
         launchingPromise := None,
         renders := s.renders[r := After(outcome)])
    case WaiterResumes(r) =>
      s.(renders := s.renders[r := After(s.promises[s.renders[r].promise])])
    case Disconnects(h) => s.(connected := s.connected - {h})
    case End(r) =>
      s.(running := s.running - 1, renders := s.renders - {r},
         timer := if s.running - 1 > 0 then s.timer else true)
    case TimerFires =>
      if s.running == 0 && s.launchingPromise.None? then
        s.(timer := false, browser := None, closed := Close(s.closed, s.browser))
      else s.(timer := false)
  }

  // ---------------------------------------------------------------- what every state keeps

  ghost predicate Inv(s: State) {
    Counting(s) && Launches(s) && Handles(s)
  }

  /** The idle closer counts the renders; its timer runs only when there is none, and whenever a
      browser is left without a render. */
  ghost predicate Counting(s: State) {
    && s.running == |s.renders|
    && (s.timer ==> s.running == 0)
    && (s.running == 0 && s.browser.Some? ==> s.timer)
  }

  /** A launch in flight is the only one, has exactly one launching render, and nothing is cached. */
  ghost predicate Launches(s: State) {
    && (s.launchingPromise.Some? ==>
          && s.browser.None? && s.launchingPromise.value < |s.promises|
          && exists r :: IsLauncher(s, r, s.launchingPromise.value))
    && (forall p: nat :: InLaunch(s, p) ==> s.launchingPromise == Some(p))
    && (forall r: RenderId, p: nat :: IsLauncher(s, r, p) ==> s.launchingPromise == Some(p))
    && (forall r: RenderId, q: RenderId, p: nat :: IsLauncher(s, r, p) && IsLauncher(s, q, p) ==> r == q)
    && (forall r :: r in s.renders && s.renders[r].Waiting? ==> s.renders[r].promise < |s.promises|)
  }

  predicate InLaunch(s: State, p: nat) {
    p < |s.promises| && s.promises[p] == Pending
  }

  ghost predicate IsLauncher(s: State, r: RenderId, p: nat) {
    r in s.renders && s.renders[r] == Launching(p)
  }

  /** The handle the launch in flight has produced but its caller not yet cached. */
  ghost predicate InFlight(s: State, h: Handle) {
    s.launchingPromise.Some? && s.launchingPromise.value < |s.promises|
    && s.promises[s.launchingPromise.value] == Resolved(h)
  }

  /** Every launched handle is cached, closed or in flight, and a handle a render holds or will get
      is closed only once it is disconnected. */
  ghost predicate Handles(s: State) {
    && (forall h: Handle :: h < s.launched ==> s.browser == Some(h) || h in s.closed || InFlight(s, h))
    && (forall h: Handle :: h in s.connected || h in s.closed || s.browser == Some(h) ==> h < s.launched)
    && (s.browser.Some? ==> s.browser.value !in s.closed)
    && (forall h: Handle :: InFlight(s, h) ==> h !in s.closed)
    && (forall p :: 0 <= p < |s.promises| && s.promises[p].Resolved? ==> s.promises[p].handle < s.launched)
    && (forall r :: r in s.renders ==> Usable(s, r))
  }

  ghost predicate Usable(s: State, r: RenderId)
    requires r in s.renders
  {
    match s.renders[r]
    case Using(h) => h < s.launched && !(h in s.connected && h in s.closed)
    case Waiting(p) => p < |s.promises| && s.promises[p].Resolved? ==>
                         !(s.promises[p].handle in s.connected && s.promises[p].handle in s.closed)
    case _ => true
  }

  lemma InitialInv()
    ensures Inv(Initial)
  {
  }

  lemma CountingKept(s: State, e: Event)
    requires Inv(s) && Enabled(s, e)
    ensures Counting(Apply(s, e))
  {
    if e.LauncherResumes? || e.WaiterResumes? {
      assert s.renders[e.r := Unwinding].Keys == s.renders.Keys;
      assert |s.renders.Keys| > 0;
      assert Apply(s, e).renders.Keys == s.renders.Keys;
    }
  }

  lemma LaunchesKept(s: State, e: Event)
    requires Inv(s) && Enabled(s, e)
    ensures Launches(Apply(s, e))
  {
    hide *;
    InvMeans(s);
    match e {
      case Begin(r) => BeginKeepsLaunches(s, r);
      case LaunchSettles(ok) => SettlingKeepsLaunches(s, ok);
      case LauncherResumes(r) => LauncherKeepsLaunches(s, r);
      case WaiterResumes(r) => WaiterKeepsLaunches(s, r);
      case Disconnects(_) => OthersKeepLaunches(s, e);
      case End(_) => OthersKeepLaunches(s, e);
      case TimerFires => OthersKeepLaunches(s, e);
    }
  }

  lemma BeginKeepsLaunches(s: State, r: RenderId)
    requires Launches(s) && Enabled(s, Begin(r))
    ensures Launches(Apply(s, Begin(r)))
  {
    hide Close;
    var t := Apply(s, Begin(r));
    assert forall q: RenderId, p: nat :: IsLauncher(t, q, p) ==>
      IsLauncher(s, q, p) || (q == r && p == |s.promises| && s.launchingPromise.None?);
    if s.launchingPromise.Some? {
      var q :| IsLauncher(s, q, s.launchingPromise.value);
      assert IsLauncher(t, q, s.launchingPromise.value);
    } else if t.launchingPromise.Some? {
      assert IsLauncher(t, r, |s.promises|);
    }
  }

  lemma SettlingKeepsLaunches(s: State, ok: bool)
    requires Launches(s) && Enabled(s, LaunchSettles(ok))
    ensures Launches(Apply(s, LaunchSettles(ok)))
  {
    var t := Apply(s, LaunchSettles(ok));
    assert forall q: RenderId, p: nat :: IsLauncher(t, q, p) == IsLauncher(s, q, p);
  }

  lemma LauncherKeepsLaunches(s: State, r: RenderId)
    requires Launches(s) && Enabled(s, LauncherResumes(r))
    ensures Launches(Apply(s, LauncherResumes(r)))
  {
    assert IsLauncher(s, r, s.renders[r].promise);
    var t := Apply(s, LauncherResumes(r));
    assert forall q: RenderId, p: nat :: IsLauncher(t, q, p) ==> q != r && IsLauncher(s, q, p);
  }

  lemma WaiterKeepsLaunches(s: State, r: RenderId)
    requires Launches(s) && Enabled(s, WaiterResumes(r))
    ensures Launches(Apply(s, WaiterResumes(r)))
  {
    var t := Apply(s, WaiterResumes(r));
    assert forall q: RenderId, p: nat :: IsLauncher(t, q, p) == IsLauncher(s, q, p);
  }

  lemma OthersKeepLaunches(s: State, e: Event)
    requires Launches(s) && Enabled(s, e) && (e.Disconnects? || e.End? || e.TimerFires?)
    ensures Launches(Apply(s, e))
  {
    hide Close;
    var t := Apply(s, e);
    assert forall q: RenderId, p: nat :: IsLauncher(t, q, p) == IsLauncher(s, q, p);
  }

  lemma UsableKept(s: State, e: Event, r: RenderId)
    requires Inv(s) && Enabled(s, e) && r in Apply(s, e).renders
    ensures Usable(Apply(s, e), r)
  {
    if e.LauncherResumes? {
      assert IsLauncher(s, e.r, s.renders[e.r].promise);
    }
    hide Launches;
    if r in s.renders {
      assert Usable(s, r);
    }
  }

  lemma HandlesKept(s: State, e: Event)
    requires Inv(s) && Enabled(s, e)
    ensures Handles(Apply(s, e))
  {
    forall r | r in Apply(s, e).renders ensures Usable(Apply(s, e), r) {
      UsableKept(s, e, r);
    }
    hide *;
    InvMeans(s);
    match e {
      case Begin(r) => BeginKeepsHandles(s, r);
      case LaunchSettles(ok) => SettlingKeepsHandles(s, ok);
      case LauncherResumes(r) => LauncherKeepsHandles(s, r);
      case WaiterResumes(_) => OthersKeepHandles(s, e);
      case Disconnects(_) => OthersKeepHandles(s, e);
      case End(_) => OthersKeepHandles(s, e);
      case TimerFires => OthersKeepHandles(s, e);
    }
  }

  lemma BeginKeepsHandles(s: State, r: RenderId)
    requires Launches(s) && Handles(s) && Enabled(s, Begin(r))
    requires var t := Apply(s, Begin(r)); forall q :: q in t.renders ==> Usable(t, q)
    ensures Handles(Apply(s, Begin(r)))
  {
    hide Usable, IsLauncher, InLaunch;
  }

  lemma SettlingKeepsHandles(s: State, ok: bool)
    requires Launches(s) && Handles(s) && Enabled(s, LaunchSettles(ok))
    requires var t := Apply(s, LaunchSettles(ok)); forall q :: q in t.renders ==> Usable(t, q)
    ensures Handles(Apply(s, LaunchSettles(ok)))
  {
    hide Usable, IsLauncher, Launches;
  }

  lemma LauncherKeepsHandles(s: State, r: RenderId)
    requires Launches(s) && Handles(s) && Enabled(s, LauncherResumes(r))
    requires var t := Apply(s, LauncherResumes(r)); forall q :: q in t.renders ==> Usable(t, q)
    ensures Handles(Apply(s, LauncherResumes(r)))
  {
    assert IsLauncher(s, r, s.renders[r].promise);
    hide Usable, InLaunch;
  }

  lemma OthersKeepHandles(s: State, e: Event)
    requires Handles(s) && Enabled(s, e) && (e.WaiterResumes? || e.Disconnects? || e.End? || e.TimerFires?)
    requires forall q :: q in Apply(s, e).renders ==> Usable(Apply(s, e), q)
    ensures Handles(Apply(s, e))
  {
    hide Usable, InLaunch;
  }

  lemma InvKept(s: State, e: Event)
    requires Inv(s) && Enabled(s, e)
    ensures Inv(Apply(s, e))
  {
    hide *;
    CountingKept(s, e);
    LaunchesKept(s, e);
    HandlesKept(s, e);
    InvMeans(Apply(s, e));
  }

  lemma InvMeans(s: State)
    ensures Inv(s) <==> Counting(s) && Launches(s) && Handles(s)
  {
  }

  // ---------------------------------------------------------------- whole runs

  ghost predicate IsRun(states: seq<State>, events: seq<Event>) {
    && |states| == |events| + 1 && states[0] == Initial
    && (forall i :: 0 <= i < |events| ==>
          Enabled(states[i], events[i]) && states[i + 1] == Apply(states[i], events[i]))
  }

  lemma {:induction false} RunsKeepInv(states: seq<State>, events: seq<Event>, i: nat)
    requires IsRun(states, events) && i < |states|
    ensures Inv(states[i])
  {
    hide Inv, Apply;
    if i == 0 {
      InitialInv();
    } else {
      RunsKeepInv(states, events, i - 1);
      InvKept(states[i - 1], events[i - 1]);
    }
  }

  /** The render that called launch is still running while the launch is in flight. */
  lemma LaunchHasRender(s: State)
    requires Inv(s)
    ensures s.launchingPromise.Some? ==> s.renders != map[] && s.running > 0
  {
    if s.launchingPromise.Some? {
      var r :| IsLauncher(s, r, s.launchingPromise.value);
      assert r in s.renders;
      assert |s.renders| > 0;
    }
  }

  /** In every interleaving: at most one launch is in flight, and then nothing is cached; every launched
      browser is cached, closed or in flight; no render is given a live browser that was closed; an idle
      browser always has its timer running. */
  lemma RunsAreSafe(states: seq<State>, events: seq<Event>, i: nat)
    requires IsRun(states, events) && i < |states|
    ensures var s := states[i];
      && (forall p: nat, q: nat :: InLaunch(s, p) && InLaunch(s, q) ==> p == q)
      && (s.launchingPromise.Some? ==> s.browser.None? && s.renders != map[])
      && (forall h: Handle :: h < s.launched ==> s.browser == Some(h) || h in s.closed || InFlight(s, h))
      && (forall r :: r in s.renders && s.renders[r].Using? && s.renders[r].handle in s.connected ==>
            s.renders[r].handle !in s.closed)
      && (s.renders == map[] && s.browser.Some? ==> s.timer)
      && s.running == |s.renders|
  {
    RunsKeepInv(states, events, i);
    var s := states[i];
    LaunchHasRender(s);
    forall r | r in s.renders && s.renders[r].Using? && s.renders[r].handle in s.connected
      ensures s.renders[r].handle !in s.closed
    {
      assert Usable(s, r);
    }
  }

  /** A settled launch was settled by an event, and the render that awaits it learns what that event said. */
  lemma {:induction false} WasSettled(states: seq<State>, events: seq<Event>, k: nat, p: nat) returns (i: nat)
    requires IsRun(states, events) && k < |states| && Settled(states[k], p)
    ensures i < k && events[i].LaunchSettles? && states[i].launchingPromise == Some(p)
    ensures states[k].promises[p] == if events[i].ok then Resolved(states[i].launched) else Rejected
  {
    var s, e := states[k - 1], events[k - 1];
    assert states[k] == Apply(s, e);
    if Settled(s, p) {
      i := WasSettled(states, events, k - 1, p);
      RunsKeepInv(states, events, k - 1);
      StaysSettled(s, e, p);
    } else {
      i := k - 1;
      JustSettled(s, e, p);
    }
  }

  lemma StaysSettled(s: State, e: Event, p: nat)
    requires Enabled(s, e) && Settled(s, p)
    ensures Settled(Apply(s, e), p) && Apply(s, e).promises[p] == s.promises[p]
  {
  }

  lemma JustSettled(s: State, e: Event, p: nat)
    requires Enabled(s, e) && !Settled(s, p) && Settled(Apply(s, e), p)
    ensures e.LaunchSettles? && s.launchingPromise == Some(p)
    ensures Apply(s, e).promises[p] == if e.ok then Resolved(s.launched) else Rejected
  {
  }

  /** A launch that settles lets its launcher resume, and the next launch begin. */
  lemma LaunchEnds(states: seq<State>, events: seq<Event>, i: nat) returns (r: RenderId)
    requires IsRun(states, events) && i < |events| && events[i].LaunchSettles?
    ensures states[i + 1].launchingPromise.Some? && Settled(states[i + 1], states[i + 1].launchingPromise.value)
    ensures Enabled(states[i + 1], LauncherResumes(r))
    ensures Apply(states[i + 1], LauncherResumes(r)).launchingPromise.None?
  {
    RunsKeepInv(states, events, i);
    assert Enabled(states[i], events[i]) && states[i + 1] == Apply(states[i], events[i]);
    r :| IsLauncher(states[i], r, states[i].launchingPromise.value);
    assert IsLauncher(states[i + 1], r, states[i].launchingPromise.value);
  }

  /** A render that launched the browser, or joined the launch, gets the very browser that was launched;
      it fails exactly when the launch did. */
  lemma LaunchReachesRender(states: seq<State>, events: seq<Event>, k: nat, r: RenderId) returns (i: nat)
    requires IsRun(states, events) && k < |events|
    requires events[k] == LauncherResumes(r) || events[k] == WaiterResumes(r)
    ensures r in states[k].renders && (states[k].renders[r].Launching? || states[k].renders[r].Waiting?)
    ensures i < k && events[i].LaunchSettles? && states[i].launchingPromise == Some(states[k].renders[r].promise)
    ensures r in states[k + 1].renders
    ensures states[k + 1].renders[r] == if events[i].ok then Using(states[i].launched) else Unwinding
  {
    assert Enabled(states[k], events[k]) && states[k + 1] == Apply(states[k], events[k]);
    i := WasSettled(states, events, k, states[k].renders[r].promise);
  }

  /** A render that begins uses the cached browser if that is connected; otherwise it awaits the launch
      in flight, and starts one only if there is none. */
  lemma BeginsWithBrowser(states: seq<State>, events: seq<Event>, k: nat, r: RenderId)
    requires IsRun(states, events) && k < |events| && events[k] == Begin(r)
    ensures var (s, t) := (states[k], states[k + 1]);
      && r in t.renders
      && (forall h: Handle :: t.renders[r] == Using(h) <==> s.browser == Some(h) && h in s.connected)
      && (forall p: nat :: t.renders[r] == Waiting(p) <==> s.launchingPromise == Some(p))
      && (t.renders[r].Launching? <==> s.launchingPromise.None? && !(s.browser.Some? && s.browser.value in s.connected))
      && (t.renders[r].Launching? ==>
            t.launchingPromise == Some(t.renders[r].promise) && InLaunch(t, t.renders[r].promise))
      && !t.renders[r].Unwinding?
  {
    RunsKeepInv(states, events, k);
    assert states[k + 1] == Apply(states[k], events[k]);
  }

  /** Between its begin and its end the phase of a render changes only when it resumes. */
  lemma PhaseChanges(states: seq<State>, events: seq<Event>, k: nat, r: RenderId)
    requires IsRun(states, events) && k < |events|
    requires r in states[k].renders && events[k] != LauncherResumes(r) && events[k] != WaiterResumes(r)
    ensures r in states[k + 1].renders <==> events[k] != End(r)
    ensures r in states[k + 1].renders ==> states[k + 1].renders[r] == states[k].renders[r]
  {
    assert Enabled(states[k], events[k]) && states[k + 1] == Apply(states[k], events[k]);
  }

  /** A render fails only after a launch it awaited has failed. */
  lemma {:induction false} FailsWithItsLaunch(states: seq<State>, events: seq<Event>, k: nat, r: RenderId)
      returns (j: nat, i: nat)
    requires IsRun(states, events) && k < |states| && r in states[k].renders && states[k].renders[r].Unwinding?
    ensures i < j < k && (events[j] == LauncherResumes(r) || events[j] == WaiterResumes(r))
    ensures events[i] == LaunchSettles(false)
    ensures r in states[j].renders && (states[j].renders[r].Launching? || states[j].renders[r].Waiting?)
    ensures states[i].launchingPromise == Some(states[j].renders[r].promise)
  {
    var e := events[k - 1];
    assert Enabled(states[k - 1], e) && states[k] == Apply(states[k - 1], e);
    if e == LauncherResumes(r) || e == WaiterResumes(r) {
      j := k - 1;
      i := LaunchReachesRender(states, events, j, r);
    } else if r in states[k - 1].renders {
      PhaseChanges(states, events, k - 1, r);
      j, i := FailsWithItsLaunch(states, events, k - 1, r);
    } else {
      assert e == Begin(r) by { OnlyBeginAdds(states[k - 1], e, r); }
      BeginsWithBrowser(states, events, k - 1, r);
      assert false;
    }
  }

  lemma OnlyBeginAdds(s: State, e: Event, r: RenderId)
    requires Enabled(s, e) && r !in s.renders && r in Apply(s, e).renders
    ensures e == Begin(r)
  {
  }

  lemma ConnectedStep(s: State, e: Event, h: Handle)
    requires Inv(s) && Enabled(s, e)
    ensures var t := Apply(s, e);
      && s.launched <= t.launched <= s.launched + 1
      && (e == Disconnects(h) ==> h < s.launched)
      && (h in t.connected <==> (h in s.connected && e != Disconnects(h)) || s.launched <= h < t.launched)
  {
  }

  /** A browser counts as connected from its launch until it disconnects. */
  lemma {:induction false} ConnectedUntilItDisconnects(states: seq<State>, events: seq<Event>, k: nat, h: Handle)
    requires IsRun(states, events) && k < |states|
    ensures h in states[k].connected <==> h < states[k].launched && Disconnects(h) !in events[..k]
    ensures h >= states[k].launched ==> Disconnects(h) !in events[..k]
  {
    if k > 0 {
      var s, e := states[k - 1], events[k - 1];
      assert Enabled(s, e) && states[k] == Apply(s, e);
      RunsKeepInv(states, events, k - 1);
      ConnectedUntilItDisconnects(states, events, k - 1, h);
      ConnectedStep(s, e, h);
      hide *;
      assert events[..k] == events[..k - 1] + [e];
    }
  }

  /** A step of a run that closes a connected browser is the idle timer, with no render running. */
  lemma ClosesOnlyWhenIdle(states: seq<State>, events: seq<Event>, i: nat, h: Handle)
    requires IsRun(states, events) && i < |events|
    requires h !in states[i].closed && h in states[i + 1].closed && h in states[i].connected
    ensures events[i] == TimerFires && states[i].renders == map[] && states[i].browser == Some(h)
  {
    RunsKeepInv(states, events, i);
    var s, e := states[i], events[i];
    assert states[i + 1] == Apply(s, e);
    if e.TimerFires? {
      assert |s.renders| == 0;
    }
  }

  /** Both guards of the idle callback always pass: without shutdown they exclude nothing. */
  lemma IdleGuardsAlwaysPass(states: seq<State>, events: seq<Event>, i: nat)
    requires IsRun(states, events) && i < |states| && states[i].timer
    ensures states[i].running == 0 && states[i].launchingPromise.None?
    ensures Apply(states[i], TimerFires).browser.None? && !Apply(states[i], TimerFires).timer
  {
    RunsKeepInv(states, events, i);
    LaunchHasRender(states[i]);
  }

  // ---------------------------------------------------------------- the code

  /** `createIdleCloser`: the closure state and its three callbacks. */
  class IdleCloser {
    var running: int
    var cancelTimer: bool

    constructor ()
      ensures running == 0 && !cancelTimer
    {
      running, cancelTimer := 0, false;
    }

    method Cancel()
      modifies this
      ensures !cancelTimer && running == old(running)
    {
      cancelTimer := false;
    }

    method Begin()
      modifies this
      ensures !cancelTimer && running == old(running) + 1
    {
      Cancel();
      running := running + 1;
    }

    method End()
      modifies this
      ensures running == old(running) - 1
      ensures cancelTimer == (if old(running) - 1 > 0 then old(cancelTimer) else true)
    {
      running := running - 1;
      if running > 0 { return; }
      Cancel();
      cancelTimer := true;
    }

    method TimerFired() returns (close: bool)
      modifies this
      ensures !cancelTimer && running == old(running) && close == (running == 0)
    {
      cancelTimer := false;
      close := running == 0;
    }
  }

  /** The module state of render.ts (`browser`, `launchingPromise`, the idle closer), beside the calls
      of `render` in progress and the browsers and promises puppeteer has handed out. */
  class RenderService {
    var browser: Option<Handle>
    var launchingPromise: Option<nat>
    const idleCloser: IdleCloser
    var renders: map<RenderId, Phase>
    var promises: seq<Promise>
    var connected: set<Handle>
    var launched: nat
    var closed: set<Handle>

    ghost function View(): State
      reads this, idleCloser
    {
      State(browser, launchingPromise, idleCloser.running, idleCloser.cancelTimer,
            renders, promises, launched, connected, closed)
    }

    constructor ()
      ensures View() == Initial && fresh(idleCloser)
    {
      browser, launchingPromise, connected := None, None, {};
      idleCloser := new IdleCloser();
      renders, promises, launched, closed := map[], [], 0, {};
    }

    /** The synchronous part of `getBrowser`: no await between the checks and the assignment. */
    method GetBrowser() returns (awaiting: Phase)
      modifies this`browser, this`launchingPromise, this`promises, this`closed
      ensures var s := old(View());
        if s.browser.Some? && s.browser.value in s.connected then
          awaiting == Using(s.browser.value) && View() == s
        else if s.launchingPromise.Some? then
          awaiting == Waiting(s.launchingPromise.value) && View() == s
        else
          && awaiting == Launching(|s.promises|)
          && View() == s.(browser := None, closed := Close(s.closed, s.browser),
                          promises := s.promises + [Pending], launchingPromise := Some(|s.promises|))
    {
      if browser.Some? && browser.value in connected {
        return Using(browser.value);
      }
      if launchingPromise.Some? {
        return Waiting(launchingPromise.value);
      }
      if browser.Some? && browser.value !in connected {
        closed := closed + {browser.value};
        browser := None;
      }
      promises := promises + [Pending];
      launchingPromise := Some(|promises| - 1);
      return Launching(|promises| - 1);
    }

    method BeginRender(r: RenderId)
      requires Enabled(View(), Begin(r))
      modifies this, idleCloser
      ensures View() == Apply(old(View()), Begin(r))
    {
      idleCloser.Begin();
      var awaiting := GetBrowser();
      renders := renders[r := awaiting];
    }

    method SettleLaunch(ok: bool)
      requires Enabled(View(), LaunchSettles(ok))
      modifies this`promises, this`connected, this`launched
      ensures View() == Apply(old(View()), LaunchSettles(ok))
    {
      if ok {
        promises := promises[launchingPromise.value := Resolved(launched)];
        connected := connected + {launched};
        launched := launched + 1;
      } else {
        promises := promises[launchingPromise.value := Rejected];
      }
    }

    /** `browser = await launchingPromise`, its `finally`, and the return or the rethrow. */
    method ResumeLauncher(r: RenderId)
      requires Enabled(View(), LauncherResumes(r))
      modifies this`browser, this`launchingPromise, this`renders
      ensures View() == Apply(old(View()), LauncherResumes(r))
    {
      var outcome := promises[renders[r].promise];
      if outcome.Resolved? {
        browser := Some(outcome.handle);
        renders := renders[r := Using(outcome.handle)];
      } else {
        renders := renders[r := Unwinding];
      }
      launchingPromise := None;
    }

    method ResumeWaiter(r: RenderId)
      requires Enabled(View(), WaiterResumes(r))
      modifies this`renders
      ensures View() == Apply(old(View()), WaiterResumes(r))
    {
      var outcome := promises[renders[r].promise];
      renders := renders[r := if outcome.Resolved? then Using(outcome.handle) else Unwinding];
    }

    method Disconnect(h: Handle)
      requires Enabled(View(), Disconnects(h))
      modifies this`connected
      ensures View() == Apply(old(View()), Disconnects(h))
    {
      connected := connected - {h};
    }

    method EndRender(r: RenderId)
      requires Enabled(View(), End(r))
      modifies this`renders, idleCloser
      ensures View() == Apply(old(View()), End(r))
    {
      idleCloser.End();
      renders := renders - {r};
    }

    method CloseIdleBrowser()
      modifies this`browser, this`closed
      ensures View() == if old(launchingPromise).Some? then old(View())
                        else old(View()).(browser := None, closed := Close(old(closed), old(browser)))
    {
      if launchingPromise.Some? { return; }
      var idle := browser;
      browser := None;
      if idle.Some? {
        closed := closed + {idle.value};
      }
    }

    method FireIdleTimer()
      requires Enabled(View(), TimerFires)
      modifies this`browser, this`closed, idleCloser
      ensures View() == Apply(old(View()), TimerFires)
    {
      var close := idleCloser.TimerFired();
      if close {
        CloseIdleBrowser();
      }
    }
  }
}
