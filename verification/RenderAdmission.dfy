/** The `/render` handler around the shared browser: admission, metrics and the duration buffer
    (apps/puppeteer-service/src/server.ts). */
module RenderAdmission {
  import opened Collections
  import opened Wrappers
  import Browser = BrowserLifecycle

  type RequestId = Browser.RenderId

  datatype Kind = DocumentPdf | ImageSnapshot

  /** An admitted request: its render runs, or has settled and its handler has not resumed yet. */
  datatype Handler = Rendering(kind: Kind) | Settled(kind: Kind, ok: bool)

  const MAX_SAMPLES := 1000

  datatype State = State(
    core: Browser.State,
    maxConcurrentRenders: int,
    rendersInFlight: int,
    pdf: nat,
    image: nat,
    errors: nat,
    rejectedBusy: nat,
    renderDurationMs: seq<real>,
    handlers: map<RequestId, Handler>,
    admitted: nat,        // history: requests let in so far
    samples: seq<real>)   // history: every duration measured so far

  function Initial(max: int): State {
    State(Browser.Initial, max, 0, 0, 0, 0, 0, [], map[], 0, [])
  }

  datatype Event =
    | Request(r: RequestId, kind: Kind)      // a well-formed, authorised request
    | RenderSettles(r: RequestId, ok: bool)  // the finally of render(), then its promise settles
    | HandlerResumes(r: RequestId, ms: real)
    | Inner(e: Browser.Event)                // a step of the browser that ends no segment of a handler

  predicate Enabled(s: State, e: Event) {
    match e
    case Request(r, _) => r !in s.handlers && r !in s.core.renders
    case RenderSettles(r, ok) => Browser.Enabled(s.core, Browser.End(r)) && r in s.handlers
                                 && (s.core.renders[r].Unwinding? ==> !ok)
    case HandlerResumes(r, _) => r in s.handlers && s.handlers[r].Settled?
    case Inner(b) => !b.Begin? && !b.End? && Browser.Enabled(s.core, b)
  }

  /** The last `n` elements, or all of them when there are fewer. */
  function Last<T>(xs: seq<T>, n: nat): (r: seq<T>)
    ensures |r| == if |xs| < n then |xs| else n
  {
    if |xs| <= n then xs else xs[|xs| - n..]
  }

  function Apply(s: State, e: Event): State
    requires Enabled(s, e)
  {
    match e
    case Request(r, kind) =>
      if s.rendersInFlight >= s.maxConcurrentRenders then s.(rejectedBusy := s.rejectedBusy + 1)
      else s.(rendersInFlight := s.rendersInFlight + 1, admitted := s.admitted + 1,
              handlers := s.handlers[r := Rendering(kind)],
              core := Browser.Apply(s.core, Browser.Begin(r)))
    case RenderSettles(r, ok) =>
      s.(core := Browser.Apply(s.core, Browser.End(r)),
         handlers := s.handlers[r := Settled(s.handlers[r].kind, ok)])
    case HandlerResumes(r, ms) =>
      var t := s.(rendersInFlight := s.rendersInFlight - 1, handlers := s.handlers - {r});
      if !s.handlers[r].ok then t.(errors := s.errors + 1)
      else
        var u := t.(renderDurationMs := Last(s.renderDurationMs + [ms], MAX_SAMPLES), samples := s.samples + [ms]);
        if s.handlers[r].kind == DocumentPdf then u.(pdf := s.pdf + 1) else u.(image := s.image + 1)
    case Inner(b) => s.(core := Browser.Apply(s.core, b))
  }

  ghost predicate Inv(s: State) {
    && Browser.Inv(s.core)
    && Admission(s)
    && Handlers(s)
    && Samples(s)
  }

  ghost predicate Admission(s: State) {
    && s.rendersInFlight == |s.handlers|
    && (s.rendersInFlight == 0 || s.rendersInFlight <= s.maxConcurrentRenders)
    && s.admitted == s.pdf + s.image + s.errors + s.rendersInFlight
  }

  /** A request is rendering exactly while its render is between begin and end. */
  ghost predicate Handlers(s: State) {
    && (forall r :: r in s.core.renders ==> r in s.handlers && s.handlers[r].Rendering?)
    && (forall r :: r in s.handlers && s.handlers[r].Rendering? ==> r in s.core.renders)
  }

  ghost predicate Samples(s: State) {
    |s.samples| == s.pdf + s.image && s.renderDurationMs == Last(s.samples, MAX_SAMPLES)
  }

  /** Trimming after every push keeps the last samples of the whole history. */
  lemma LastOfAppend<T>(xs: seq<T>, x: T, n: nat)
    requires n > 0
    ensures Last(Last(xs, n) + [x], n) == Last(xs + [x], n)
  {
  }

  lemma Cardinalities(handlers: map<RequestId, Handler>, r: RequestId, h: Handler)
    ensures |handlers[r := h]| == if r in handlers then |handlers| else |handlers| + 1
    ensures r in handlers ==> |handlers - {r}| == |handlers| - 1
  {
    var updated := handlers[r := h];
    assert updated.Keys == handlers.Keys + {r};
    assert |updated| == |updated.Keys| && |handlers| == |handlers.Keys|;
    if r in handlers {
      assert updated.Keys == handlers.Keys;
      var rest := handlers - {r};
      assert rest.Keys == handlers.Keys - {r};
    }
  }

  lemma CoreKept(s: State, e: Event)
    requires Inv(s) && Enabled(s, e)
    ensures Browser.Inv(Apply(s, e).core)
  {
    hide Browser.Inv, Browser.Apply;
    match e
    case Request(r, _) => Browser.InvKept(s.core, Browser.Begin(r));
    case RenderSettles(r, _) => Browser.InvKept(s.core, Browser.End(r));
    case HandlerResumes(_, _) =>
    case Inner(b) => Browser.InvKept(s.core, b);
  }

  lemma AdmissionKept(s: State, e: Event)
    requires Inv(s) && Enabled(s, e)
    ensures Admission(Apply(s, e)) && Samples(Apply(s, e))
  {
    hide *;
    InvMeans(s);
    match e {
      case Request(r, kind) => RequestKept(s, r, kind);
      case RenderSettles(r, ok) => SettlingKept(s, r, ok);
      case HandlerResumes(r, ms) => ResumeKept(s, r, ms);
      case Inner(b) => InnerKept(s, b);
    }
  }

  lemma InvMeans(s: State)
    ensures Inv(s) <==> Browser.Inv(s.core) && Admission(s) && Handlers(s) && Samples(s)
  {
    hide Browser.Inv, Admission, Handlers, Samples;
  }

  lemma InnerKept(s: State, b: Browser.Event)
    requires Admission(s) && Samples(s) && Enabled(s, Inner(b))
    ensures Admission(Apply(s, Inner(b))) && Samples(Apply(s, Inner(b)))
  {
    hide Last, Browser.Apply, Browser.Enabled;
  }

  lemma SettlingKept(s: State, r: RequestId, ok: bool)
    requires Admission(s) && Samples(s) && Enabled(s, RenderSettles(r, ok))
    ensures Admission(Apply(s, RenderSettles(r, ok))) && Samples(Apply(s, RenderSettles(r, ok)))
  {
    hide Last, Browser.Apply, Browser.Enabled;
    Cardinalities(s.handlers, r, Settled(s.handlers[r].kind, ok));
  }

  lemma RequestKept(s: State, r: RequestId, kind: Kind)
    requires Admission(s) && Samples(s) && Enabled(s, Request(r, kind))
    ensures Admission(Apply(s, Request(r, kind))) && Samples(Apply(s, Request(r, kind)))
  {
    hide Last, Browser.Apply;
    Cardinalities(s.handlers, r, Rendering(kind));
  }

  lemma ResumeKept(s: State, r: RequestId, ms: real)
    requires Admission(s) && Samples(s) && Enabled(s, HandlerResumes(r, ms))
    ensures Admission(Apply(s, HandlerResumes(r, ms))) && Samples(Apply(s, HandlerResumes(r, ms)))
  {
    Cardinalities(s.handlers, r, s.handlers[r]);
    LastOfAppend(s.samples, ms, MAX_SAMPLES);
    hide Last;
  }

  lemma HandlersKept(s: State, e: Event)
    requires Inv(s) && Enabled(s, e)
    ensures Handlers(Apply(s, e))
  {
    hide Browser.Inv;
  }

  lemma InvKept(s: State, e: Event)
    requires Inv(s) && Enabled(s, e)
    ensures Inv(Apply(s, e))
  {
    CoreKept(s, e);
    AdmissionKept(s, e);
    HandlersKept(s, e);
    hide Browser.Inv, Admission, Handlers, Samples, Apply;
  }

  ghost predicate IsRun(max: int, states: seq<State>, events: seq<Event>) {
    && |states| == |events| + 1 && states[0] == Initial(max)
    && (forall i :: 0 <= i < |events| ==>
          Enabled(states[i], events[i]) && states[i + 1] == Apply(states[i], events[i]))
  }

  lemma {:induction false} RunsKeepInv(max: int, states: seq<State>, events: seq<Event>, i: nat)
    requires IsRun(max, states, events) && i < |states|
    ensures Inv(states[i]) && states[i].maxConcurrentRenders == max
  {
    if i == 0 {
      Browser.InitialInv();
    } else {
      RunsKeepInv(max, states, events, i - 1);
      InvKept(states[i - 1], events[i - 1]);
      hide Inv;
    }
  }

  /** At every await point: the in-flight count stays within the limit, every admitted request is
      counted once, the idle closer never counts more than is in flight, and the buffer holds exactly
      the last durations. */
  lemma RunsAreAccounted(max: int, states: seq<State>, events: seq<Event>, i: nat)
    requires IsRun(max, states, events) && i < |states|
    ensures var s := states[i];
      && 0 <= s.rendersInFlight && (s.rendersInFlight == 0 || s.rendersInFlight <= max)
      && s.admitted == s.pdf + s.image + s.errors + s.rendersInFlight
      && 0 <= s.core.running <= s.rendersInFlight
      && |s.samples| == s.pdf + s.image
      && |s.renderDurationMs| == (if |s.samples| < 1000 then |s.samples| else 1000)
      && s.renderDurationMs == s.samples[|s.samples| - |s.renderDurationMs|..]
  {
    RunsKeepInv(max, states, events, i);
    var s := states[i];
    Browser.InvMeans(s.core);
    assert s.core.renders.Keys <= s.handlers.Keys;
    SubsetCardinality(s.core.renders.Keys, s.handlers.Keys);
    assert |s.core.renders| == |s.core.renders.Keys| && |s.handlers| == |s.handlers.Keys|;
  }

  /** A request is let in exactly when fewer than `max` are in flight. */
  lemma AdmitsBelowLimit(max: int, states: seq<State>, events: seq<Event>, k: nat)
    requires IsRun(max, states, events) && k < |events| && events[k].Request?
    ensures var (s, t) := (states[k], states[k + 1]);
      if |s.handlers| < max then
        && t.admitted == s.admitted + 1 && t.rejectedBusy == s.rejectedBusy
        && t.handlers == s.handlers[events[k].r := Rendering(events[k].kind)] && events[k].r in t.core.renders
      else t == s.(rejectedBusy := s.rejectedBusy + 1)
  {
    RunsKeepInv(max, states, events, k);
    assert Enabled(states[k], events[k]) && states[k + 1] == Apply(states[k], events[k]);
  }

  /** How many requests came with the limit reached. */
  ghost function Refused(max: int, states: seq<State>, events: seq<Event>, i: nat): nat
    requires i <= |events| <= |states|
  {
    if i == 0 then 0
    else
      Refused(max, states, events, i - 1)
        + if events[i - 1].Request? && |states[i - 1].handlers| >= max then 1 else 0
  }

  lemma {:induction false} RejectedAreCounted(max: int, states: seq<State>, events: seq<Event>, i: nat)
    requires IsRun(max, states, events) && i < |states|
    ensures states[i].rejectedBusy == Refused(max, states, events, i)
  {
    if i > 0 {
      RejectedAreCounted(max, states, events, i - 1);
      RejectsAtLimit(max, states, events, i - 1);
      hide Apply, Enabled;
    }
  }

  lemma RejectsAtLimit(max: int, states: seq<State>, events: seq<Event>, k: nat)
    requires IsRun(max, states, events) && k < |events|
    ensures states[k + 1].rejectedBusy ==
      states[k].rejectedBusy + if events[k].Request? && |states[k].handlers| >= max then 1 else 0
  {
    if events[k].Request? {
      AdmitsBelowLimit(max, states, events, k);
    } else {
      assert states[k + 1] == Apply(states[k], events[k]);
      hide Browser.Apply;
    }
  }

  /** A handler in flight goes back to its request, and one that has settled to the end of its render. */
  lemma {:induction false} HandlerHistory(max: int, states: seq<State>, events: seq<Event>, k: nat, r: RequestId)
      returns (j: nat, i: nat)
    requires IsRun(max, states, events) && k < |states| && r in states[k].handlers
    ensures j < k && events[j] == Request(r, states[k].handlers[r].kind)
    ensures states[k].handlers[r].Settled? ==> j < i < k && events[i] == RenderSettles(r, states[k].handlers[r].ok)
  {
    i := 0;
    var s, e := states[k - 1], events[k - 1];
    assert Enabled(s, e) && states[k] == Apply(s, e);
    if e.Request? && e.r == r {
      j := k - 1;
      NewHandler(s, e);
    } else {
      SameHandler(s, e, r);
      j, i := HandlerHistory(max, states, events, k - 1, r);
      if e.RenderSettles? && e.r == r {
        i := k - 1;
      }
    }
  }

  lemma NewHandler(s: State, e: Event)
    requires Enabled(s, e) && e.Request? && e.r in Apply(s, e).handlers
    ensures Apply(s, e).handlers[e.r] == Rendering(e.kind)
  {
    hide Browser.Apply;
  }

  lemma SameHandler(s: State, e: Event, r: RequestId)
    requires Enabled(s, e) && r in Apply(s, e).handlers && !(e.Request? && e.r == r)
    ensures r in s.handlers
    ensures Apply(s, e).handlers[r] ==
      if e.RenderSettles? && e.r == r then Settled(s.handlers[r].kind, e.ok) else s.handlers[r]
  {
    hide Browser.Apply;
  }

  /** A handler that resumes counts what its own render and its own request were: one success of the kind
      that was asked for, with the duration measured, or one error. */
  lemma ResumeCounts(max: int, states: seq<State>, events: seq<Event>, k: nat) returns (j: nat, i: nat)
    requires IsRun(max, states, events) && k < |events| && events[k].HandlerResumes?
    ensures j < i < k && events[j].Request? && events[j].r == events[k].r
    ensures events[i].RenderSettles? && events[i].r == events[k].r
    ensures var (s, t, ok, pdf) := (states[k], states[k + 1], events[i].ok, events[j].kind == DocumentPdf);
      && t.pdf == s.pdf + (if ok && pdf then 1 else 0)
      && t.image == s.image + (if ok && !pdf then 1 else 0)
      && t.errors == s.errors + (if ok then 0 else 1)
      && t.samples == (if ok then s.samples + [events[k].ms] else s.samples)
      && t.handlers == s.handlers - {events[k].r}
  {
    assert Enabled(states[k], events[k]) && states[k + 1] == Apply(states[k], events[k]);
    j, i := HandlerHistory(max, states, events, k, events[k].r);
    hide Last;
  }

  /** No other step counts a success or an error. */
  lemma OthersCountNothing(s: State, e: Event)
    requires Enabled(s, e) && !e.HandlerResumes?
    ensures var t := Apply(s, e);
      t.pdf == s.pdf && t.image == s.image && t.errors == s.errors && t.samples == s.samples
  {
    hide Browser.Apply;
  }

  /** With no request in flight every browser step of the handler layer is over, so an idle browser
      is one its timer will close. */
  lemma IdleServiceReleasesItsBrowser(max: int, states: seq<State>, events: seq<Event>, i: nat)
    requires IsRun(max, states, events) && i < |states| && states[i].rendersInFlight == 0
    ensures states[i].core.renders == map[]
    ensures states[i].core.browser.Some? ==>
      && Browser.Enabled(states[i].core, Browser.TimerFires)
      && Browser.Apply(states[i].core, Browser.TimerFires).browser.None?
  {
    RunsKeepInv(max, states, events, i);
    var s := states[i];
    assert |s.handlers| == 0;
    assert forall r :: r in s.core.renders ==> r in s.handlers;
    assert s.core.renders == map[];
    Browser.LaunchHasRender(s.core);
  }

  // ---------------------------------------------------------------- the code

  /** What `createApp` keeps in its closure, on top of the render service. */
  class App {
    const service: Browser.RenderService
    const maxConcurrentRenders: int
    var rendersInFlight: int
    var pdf: nat
    var image: nat
    var errors: nat
    var rejectedBusy: nat
    var renderDurationMs: seq<real>
    var handlers: map<RequestId, Handler>
    ghost var admitted: nat
    ghost var samples: seq<real>

    ghost function View(): State
      reads this, service, service.idleCloser
    {
      State(service.View(), maxConcurrentRenders, rendersInFlight, pdf, image, errors, rejectedBusy,
            renderDurationMs, handlers, admitted, samples)
    }

    constructor (max: int)
      ensures View() == Initial(max) && fresh(service) && fresh(service.idleCloser)
    {
      service := new Browser.RenderService();
      maxConcurrentRenders := max;
      rendersInFlight, pdf, image, errors, rejectedBusy := 0, 0, 0, 0, 0;
      renderDurationMs, handlers, admitted, samples := [], map[], 0, [];
    }

    /** The handler from the admission test to `await deps.render(...)`. */
    method PostRender(r: RequestId, kind: Kind) returns (busy: bool)
      requires Enabled(View(), Request(r, kind))
      modifies this, service, service.idleCloser
      ensures View() == Apply(old(View()), Request(r, kind))
      ensures busy == (old(rendersInFlight) >= maxConcurrentRenders)
    {
      if rendersInFlight >= maxConcurrentRenders {
        rejectedBusy := rejectedBusy + 1;
        return true;
      }
      rendersInFlight := rendersInFlight + 1;
      admitted := admitted + 1;
      handlers := handlers[r := Rendering(kind)];
      service.BeginRender(r);
      return false;
    }

    method SettleRender(r: RequestId, ok: bool)
      requires Enabled(View(), RenderSettles(r, ok))
      modifies this`handlers, service, service.idleCloser
      ensures View() == Apply(old(View()), RenderSettles(r, ok))
    {
      service.EndRender(r);
      handlers := handlers[r := Settled(handlers[r].kind, ok)];
    }

    /** The handler after the await: the try branch or the catch branch, then the finally. */
    method ResumeHandler(r: RequestId, ms: real)
      requires Enabled(View(), HandlerResumes(r, ms))
      modifies this
      ensures View() == Apply(old(View()), HandlerResumes(r, ms))
    {
      if handlers[r].ok {
        if handlers[r].kind == DocumentPdf { pdf := pdf + 1; } else { image := image + 1; }
        renderDurationMs := renderDurationMs + [ms];
        samples := samples + [ms];
        if |renderDurationMs| > MAX_SAMPLES {
          renderDurationMs := renderDurationMs[|renderDurationMs| - MAX_SAMPLES..];
        }
      } else {
        errors := errors + 1;
      }
      rendersInFlight := rendersInFlight - 1;
      handlers := handlers - {r};
    }
  }
}
