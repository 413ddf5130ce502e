/** The page as one immutable record and one transition per event (script.js):
    the body classes `reduced-effects` and `paused`, the children of the two
    decoration containers, the deferred work the page has scheduled, and the
    scroll-reveal observer. The browser's schedulers are not modelled as
    clocks: a pending job runs when the event that names it arrives, in any
    order the trace chooses. */
module Page {
  import opened Wrappers
  import Capability
  import Density
  import FrameRate
  import Reveal
  import Debounce

  /** The two body classes the script writes. */
  datatype BodyClass = ReducedEffects | Paused

  /** How a regeneration's `work` was scheduled: `requestIdleCallback` with a
      timeout, or `setTimeout` with a delay, in milliseconds. */
  datatype Deferral = Idle(timeout: nat) | Delay(ms: nat)

  /** Work the page has scheduled and not yet run. */
  datatype Job =
    | Work(lowPower: bool, nodeCount: nat, binaryCount: nat, deferral: Deferral)
      // the `work` closure of one `createBackgroundEffects` call
    | Paint(nodeCount: nat, texts: seq<string>)
      // its `requestAnimationFrame` append of the two filled fragments
    | Measure
      // `initPerformanceMode` waiting on `measureFPS(800)`

  /** Facts about the browser fixed for the page's lifetime: the
      `prefers-reduced-motion` query read at load, whether
      `requestIdleCallback` exists, and whether both decoration containers
      are in the document. */
  datatype Env = Env(prefersReduced: bool, idleCallback: bool, containers: bool)

  /** The page state. `nodes` is the number of children of `#data-nodes`;
      `rain` holds the text of each child of `#binary-rain`. A regeneration's
      `Work` and its `Paint` share one job id. */
  datatype PageState = PageState(
    env: Env,
    body: set<BodyClass>,
    nodes: nat,
    rain: seq<string>,
    pending: map<nat, Job>,
    nextJob: nat,
    scroll: Reveal.RevealState)

  /** What can happen to the page. */
  datatype Event =
    | Regenerate(width: nat, probe: Capability.Probe)
      // a call of `createBackgroundEffects` with this viewport width
    | RunWork(job: nat, bits: seq<bool>)
      // a scheduled `work` runs, drawing these binary digits
    | RunPaint(job: nat)
      // a scheduled append runs
    | InitPerformance
      // a call of `initPerformanceMode` (load, focus, 700 ms resize)
    | RunMeasure(job: nat, start: int, stamps: seq<int>, probe: Capability.Probe)
      // the awaited `measureFPS` resolves over these frame timestamps
    | Visibility(hidden: bool)
    | KeyDown(key: string)
    | RevealSetup(elems: set<Reveal.Elem>)
    | Intersections(entries: seq<Reveal.Entry>)

  /** `requestIdleCallback`'s timeout and `setTimeout`'s delay for `work`. */
  const IdleTimeout: nat := 1000
  const FallbackDelay: nat := 120

  /** The two resize debouncers' waits. */
  const ResizeWait: nat := 400
  const ResizeModeWait: nat := 700

  /** The page as `DOMContentLoaded` finds it. */
  function Load(env: Env): (s: PageState)
    ensures s.body == {} && s.nodes == 0 && s.rain == [] && s.pending == map[]
  {
    PageState(env, {}, 0, [], map[], 0, Reveal.Initial)
  }

  /** `classList.add` when `on`, `classList.remove` otherwise. */
  function SetClass(body: set<BodyClass>, c: BodyClass, on: bool): (b: set<BodyClass>)
    ensures c in b <==> on
    ensures forall d :: d != c ==> (d in b <==> d in body)
  {
    if on then body + {c} else body - {c}
  }

  /** `classList.toggle`. */
  function ToggleClass(body: set<BodyClass>, c: BodyClass): (b: set<BodyClass>)
    ensures c in b <==> c !in body
    ensures forall d :: d != c ==> (d in b <==> d in body)
  {
    if c in body then body - {c} else body + {c}
  }

  /** Whether the event can happen in this state: a regeneration needs both
      containers; a job event names a pending job of its kind, with as many
      random digits as its strings need, or frames that close the sample;
      the scroll observer is set up once and reports only targets it still
      observes, one entry per target. */
  predicate Enabled(s: PageState, e: Event) {
    match e
    case Regenerate(_, _) => s.env.containers
    case RunWork(j, bits) =>
      && j in s.pending && s.pending[j].Work?
      && |bits| == Density.DigitsPerString * s.pending[j].binaryCount
    case RunPaint(j) => j in s.pending && s.pending[j].Paint?
    case RunMeasure(j, start, stamps, _) =>
      && j in s.pending && s.pending[j].Measure?
      && FrameRate.MeasureFps(s.env.prefersReduced, FrameRate.InitWindow, start, stamps).Some?
    case RevealSetup(_) => s.scroll == Reveal.Initial
    case Intersections(entries) => Reveal.Delivered(s.scroll, entries)
    case _ => true
  }

  /** The synchronous part of `createBackgroundEffects`: both containers are
      emptied, `reduced-effects` follows the static heuristic alone, and one
      `work` is scheduled with counts for this width. */
  function CreateBackgroundEffects(s: PageState, width: nat, probe: Capability.Probe): (t: PageState)
    requires s.env.containers
    ensures t.nodes == 0 && t.rain == []
    ensures ReducedEffects in t.body <==> Capability.IsLowPowerDevice(probe)
    ensures Paused in t.body <==> Paused in s.body
    ensures t.pending.Keys == s.pending.Keys + {s.nextJob} && t.nextJob == s.nextJob + 1
    ensures forall j :: j in s.pending && j != s.nextJob ==> t.pending[j] == s.pending[j]
    ensures t.pending[s.nextJob].Work?
    ensures t.scroll == s.scroll && t.env == s.env
    ensures t.pending[s.nextJob].deferral.Idle? <==> s.env.idleCallback && !Capability.IsLowPowerDevice(probe)
    ensures var lp := Capability.IsLowPowerDevice(probe);
            && t.pending[s.nextJob].nodeCount == Density.NodeCount(lp, width)
            && t.pending[s.nextJob].binaryCount == Density.BinaryCount(lp, width)
  {
    var lowPower := Capability.IsLowPowerDevice(probe);
    var deferral := if s.env.idleCallback && !lowPower then Idle(IdleTimeout) else Delay(FallbackDelay);
    var work := Work(lowPower, Density.NodeCount(lowPower, width), Density.BinaryCount(lowPower, width), deferral);
    s.(nodes := 0, rain := [],
       body := SetClass(s.body, ReducedEffects, lowPower),
       pending := s.pending[s.nextJob := work],
       nextJob := s.nextJob + 1)
  }

  /** The `work` closure: build the nodes and the binary-rain strings into the
      fragments and schedule their append. The containers are untouched. */
  function DoWork(s: PageState, j: nat, bits: seq<bool>): (t: PageState)
    requires Enabled(s, RunWork(j, bits))
    ensures t.nodes == s.nodes && t.rain == s.rain && t.body == s.body
    ensures t.pending.Keys == s.pending.Keys && t.pending[j].Paint?
    ensures t.pending[j].nodeCount == s.pending[j].nodeCount
    ensures |t.pending[j].texts| == s.pending[j].binaryCount
    ensures forall k :: 0 <= k < |t.pending[j].texts| ==> Density.RainText(t.pending[j].texts[k])
    ensures forall k :: 0 <= k < |t.pending[j].texts| ==>
              Density.ReadBits(t.pending[j].texts[k])
                == bits[Density.DigitsPerString * k .. Density.DigitsPerString * (k + 1)]
    ensures forall i :: i in s.pending && i != j ==> t.pending[i] == s.pending[i]
    ensures t.nextJob == s.nextJob && t.scroll == s.scroll && t.env == s.env
  {
    var w := s.pending[j];
    s.(pending := s.pending[j := Paint(w.nodeCount, Density.RainTexts(bits, w.binaryCount))])
  }

  /** The animation-frame append: both fragments go into their containers,
      after whatever children are already there. */
  function DoPaint(s: PageState, j: nat): (t: PageState)
    requires Enabled(s, RunPaint(j))
    ensures t.nodes == s.nodes + s.pending[j].nodeCount
    ensures t.rain == s.rain + s.pending[j].texts
    ensures t.pending == s.pending - {j} && t.body == s.body
    ensures t.nextJob == s.nextJob && t.scroll == s.scroll && t.env == s.env
  {
    var p := s.pending[j];
    s.(nodes := s.nodes + p.nodeCount, rain := s.rain + p.texts, pending := s.pending - {j})
  }

  /** The synchronous part of `initPerformanceMode`: with reduced motion
      preferred it adds `reduced-effects` and stops; otherwise it starts a
      frame-rate sample and changes nothing yet. */
  function InitPerformanceMode(s: PageState): (t: PageState)
    ensures s.env.prefersReduced ==> t == s.(body := s.body + {ReducedEffects})
    ensures !s.env.prefersReduced ==>
              && t.body == s.body && t.nextJob == s.nextJob + 1
              && t.pending == s.pending[s.nextJob := Measure]
              && t.nodes == s.nodes && t.rain == s.rain && t.scroll == s.scroll && t.env == s.env
  {
    if s.env.prefersReduced then s.(body := s.body + {ReducedEffects})
    else s.(pending := s.pending[s.nextJob := Measure], nextJob := s.nextJob + 1)
  }

  /** The rest of `initPerformanceMode` once `measureFPS(800)` resolves:
      `reduced-effects` is set exactly when the sample was slow or the static
      heuristic says low-power. */
  function SettlePerformance(s: PageState, j: nat, start: int, stamps: seq<int>, probe: Capability.Probe): (t: PageState)
    requires Enabled(s, RunMeasure(j, start, stamps, probe))
    ensures !s.env.prefersReduced ==>
              forall k :: FrameRate.FirstExpiry(stamps, start, FrameRate.InitWindow, k) ==>
                (ReducedEffects in t.body <==>
                   FrameRate.LowFrameRate(k + 1, stamps[k] - start) || Capability.IsLowPowerDevice(probe))
    ensures Paused in t.body <==> Paused in s.body
    ensures t.pending == s.pending - {j}
    ensures t.nodes == s.nodes && t.rain == s.rain
    ensures t.nextJob == s.nextJob && t.scroll == s.scroll && t.env == s.env
  {
    var lowPerf := FrameRate.MeasureFps(s.env.prefersReduced, FrameRate.InitWindow, start, stamps).value;
    s.(body := SetClass(s.body, ReducedEffects, lowPerf || Capability.IsLowPowerDevice(probe)),
       pending := s.pending - {j})
  }

  /** The `keydown` handler: `'s'` toggles `reduced-effects`; `'t'` only
      scrolls, and every other key is ignored. */
  function KeyPressed(s: PageState, key: string): (t: PageState)
    ensures key == "s" ==> t == s.(body := ToggleClass(s.body, ReducedEffects))
    ensures key != "s" ==> t == s
  {
    if key == "s" then s.(body := ToggleClass(s.body, ReducedEffects)) else s
  }

  /** The events that may write `reduced-effects`. */
  predicate WritesReducedEffects(e: Event) {
    e.Regenerate? || e.InitPerformance? || e.RunMeasure? || e == KeyDown("s")
  }

  /** One event. Only the visibility handler writes `paused`; only a
      regeneration, the performance mode and the `'s'` key write
      `reduced-effects`; only a regeneration and an append touch the
      containers. */
  function Step(s: PageState, e: Event): (t: PageState)
    requires Enabled(s, e)
    ensures t.env == s.env
    ensures !e.Visibility? ==> (Paused in t.body <==> Paused in s.body)
    ensures !WritesReducedEffects(e) ==> (ReducedEffects in t.body <==> ReducedEffects in s.body)
    ensures !e.Regenerate? && !e.RunPaint? ==> t.nodes == s.nodes && t.rain == s.rain
    ensures s.nextJob <= t.nextJob
    ensures !e.RevealSetup? && !e.Intersections? ==> t.scroll == s.scroll
    ensures e.RevealSetup? || e.Intersections? ==> t.pending == s.pending && t.nextJob == s.nextJob
    ensures e.Intersections? ==>
              && |s.scroll.revealLog| <= |t.scroll.revealLog|
              && t.scroll.revealLog[..|s.scroll.revealLog|] == s.scroll.revealLog
              && s.scroll.inView <= t.scroll.inView
  {
    match e
    case Regenerate(width, probe) => CreateBackgroundEffects(s, width, probe)
    case RunWork(j, bits) => DoWork(s, j, bits)
    case RunPaint(j) => DoPaint(s, j)
    case InitPerformance => InitPerformanceMode(s)
    case RunMeasure(j, start, stamps, probe) => SettlePerformance(s, j, start, stamps, probe)
    case Visibility(hidden) => s.(body := SetClass(s.body, Paused, hidden))
    case KeyDown(key) => KeyPressed(s, key)
    case RevealSetup(elems) => s.(scroll := Reveal.Setup(elems))
    case Intersections(entries) => s.(scroll := Reveal.OnEntries(s.scroll, entries))
  }

  /** What every reachable page satisfies: job ids are below the next id,
      every binary-rain text (shown or waiting to be appended) is twelve
      digits each followed by a space, no frame-rate sample is ever pending
      when reduced motion is preferred, and the scroll reveal is one-shot. */
  predicate Inv(s: PageState) {
    && (forall j :: j in s.pending ==> j < s.nextJob)
    && (forall k :: 0 <= k < |s.rain| ==> Density.RainText(s.rain[k]))
    && (forall j :: j in s.pending && s.pending[j].Paint? ==>
          forall k :: 0 <= k < |s.pending[j].texts| ==> Density.RainText(s.pending[j].texts[k]))
    && (s.env.prefersReduced ==> forall j :: j in s.pending ==> !s.pending[j].Measure?)
    && Reveal.Inv(s.scroll)
  }

  lemma LoadInv(env: Env)
    ensures Inv(Load(env))
  {
  }

  /** Every event keeps the invariant. */
  lemma StepKeepsInv(s: PageState, e: Event)
    requires Inv(s) && Enabled(s, e)
    ensures Inv(Step(s, e))
  {
    match e
    case Intersections(entries) => Reveal.OnEntriesKeepsInv(s.scroll, entries);
    case RevealSetup(elems) => Reveal.SetupInv(elems);
    case RunPaint(j) =>
      var t := Step(s, e);
      forall k | 0 <= k < |t.rain| ensures Density.RainText(t.rain[k]) {
        if k >= |s.rain| {
          assert t.rain[k] == s.pending[j].texts[k - |s.rain|];
        }
      }
    case _ =>
  }

  /** A trace of events run from `s`: `None` if some event is not enabled
      when it arrives. */
  function Run(s: PageState, trace: seq<Event>): Option<PageState>
    decreases |trace|
  {
    if |trace| == 0 then Some(s)
    else if Enabled(s, trace[0]) then Run(Step(s, trace[0]), trace[1..])
    else None
  }

  /** Every page a trace reaches from load satisfies the invariant. */
  lemma {:induction false} RunKeepsInv(s: PageState, trace: seq<Event>)
    requires Inv(s) && Run(s, trace).Some?
    ensures Inv(Run(s, trace).value)
    decreases |trace|
  {
    if |trace| > 0 {
      StepKeepsInv(s, trace[0]);
      RunKeepsInv(Step(s, trace[0]), trace[1..]);
    }
  }

  /** An event that leaves regeneration `g` to finish alone: no other call of
      `createBackgroundEffects`, and no append but `g`'s own. */
  predicate Undisturbed(e: Event, g: nat) {
    !e.Regenerate? && (e.RunPaint? ==> e.job == g)
  }

  /** Where regeneration `g`, which asked for `n` nodes and `b` strings, has
      got to: its work or its append is pending and the containers are still
      empty, or both have run and the containers hold exactly its output. */
  predicate Tracking(t: PageState, g: nat, n: nat, b: nat) {
    && g < t.nextJob
    && if g in t.pending then
         && t.nodes == 0 && t.rain == []
         && (|| (t.pending[g].Work? && t.pending[g].nodeCount == n && t.pending[g].binaryCount == b)
             || (t.pending[g].Paint? && t.pending[g].nodeCount == n && |t.pending[g].texts| == b))
       else t.nodes == n && |t.rain| == b
  }

  lemma TrackingStep(t: PageState, e: Event, g: nat, n: nat, b: nat)
    requires Tracking(t, g, n, b) && Enabled(t, e) && Undisturbed(e, g)
    ensures Tracking(Step(t, e), g, n, b)
  {
  }

  lemma {:induction false} TrackingRun(t: PageState, trace: seq<Event>, g: nat, n: nat, b: nat)
    requires Tracking(t, g, n, b)
    requires forall k :: 0 <= k < |trace| ==> Undisturbed(trace[k], g)
    requires Run(t, trace).Some?
    ensures Tracking(Run(t, trace).value, g, n, b)
    decreases |trace|
  {
    if |trace| > 0 {
      TrackingStep(t, trace[0], g, n, b);
      TrackingRun(Step(t, trace[0]), trace[1..], g, n, b);
    }
  }

  /** A regeneration whose work and append both run with no other
      regeneration and no other append in between leaves exactly `nodeCount`
      nodes and `binaryCount` binary-rain strings, each twelve digits each
      followed by a space. */
  lemma ExactRegeneration(s: PageState, width: nat, probe: Capability.Probe, trace: seq<Event>)
    requires Inv(s) && s.env.containers
    requires forall k :: 0 <= k < |trace| ==> Undisturbed(trace[k], s.nextJob)
    requires Run(Step(s, Regenerate(width, probe)), trace).Some?
    requires s.nextJob !in Run(Step(s, Regenerate(width, probe)), trace).value.pending
    ensures var t := Run(Step(s, Regenerate(width, probe)), trace).value;
            var lowPower := Capability.IsLowPowerDevice(probe);
            && t.nodes == Density.NodeCount(lowPower, width)
            && |t.rain| == Density.BinaryCount(lowPower, width)
            && forall k :: 0 <= k < |t.rain| ==> Density.RainText(t.rain[k])
  {
    var s1 := Step(s, Regenerate(width, probe));
    var lowPower := Capability.IsLowPowerDevice(probe);
    StepKeepsInv(s, Regenerate(width, probe));
    TrackingRun(s1, trace, s.nextJob, Density.NodeCount(lowPower, width), Density.BinaryCount(lowPower, width));
    RunKeepsInv(s1, trace);
  }

  /** Two regenerations in a row (the 400 ms and the 700 ms resize
      debouncers both fire after one burst) whose deferred work and appends
      run only after the second has cleared the containers: both generations
      are appended, so the containers hold twice the counts. */
  lemma StaleWorkAccumulates(s: PageState, width: nat, probe: Capability.Probe, bits: seq<bool>)
    requires s.env.containers
    requires |bits| == Density.DigitsPerString * Density.BinaryCount(Capability.IsLowPowerDevice(probe), width)
    ensures var g := s.nextJob;
            var lowPower := Capability.IsLowPowerDevice(probe);
            var cleared := CreateBackgroundEffects(CreateBackgroundEffects(s, width, probe), width, probe);
            var built := DoWork(DoWork(cleared, g, bits), g + 1, bits);
            var shown := DoPaint(DoPaint(built, g), g + 1);
            && shown.nodes == 2 * Density.NodeCount(lowPower, width) > Density.NodeCount(lowPower, width)
            && |shown.rain| == 2 * Density.BinaryCount(lowPower, width)
  {
  }

  /** With reduced motion preferred, `initPerformanceMode` adds
      `reduced-effects`, starts no frame-rate sample, and no sample can ever
      settle, so the performance mode never removes the class. */
  lemma ReducedMotionNeverSamples(s: PageState)
    requires Inv(s) && s.env.prefersReduced
    ensures ReducedEffects in Step(s, InitPerformance).body
    ensures Step(s, InitPerformance).pending == s.pending
    ensures forall j, start, stamps, probe :: !Enabled(Step(s, InitPerformance), RunMeasure(j, start, stamps, probe))
  {
  }

  /** Without the preference, the class after a sample settles follows the
      sample or the static heuristic, whichever says reduce. */
  lemma SettledModeFollowsSample(s: PageState, j: nat, start: int, stamps: seq<int>, probe: Capability.Probe, k: nat)
    requires Inv(s) && Enabled(s, RunMeasure(j, start, stamps, probe))
    requires FrameRate.FirstExpiry(stamps, start, FrameRate.InitWindow, k)
    ensures !s.env.prefersReduced
    ensures ReducedEffects in Step(s, RunMeasure(j, start, stamps, probe)).body <==>
              FrameRate.LowFrameRate(k + 1, stamps[k] - start) || Capability.IsLowPowerDevice(probe)
  {
  }

  /** `createBackgroundEffects` consults only the static heuristic, so on a
      capable device it clears the `reduced-effects` that reduced motion made
      `initPerformanceMode` add just before. */
  lemma RegenerationOverridesReducedMotion(s: PageState, width: nat, probe: Capability.Probe)
    requires s.env.prefersReduced && s.env.containers
    requires !Capability.IsLowPowerDevice(probe)
    ensures ReducedEffects in Step(s, InitPerformance).body
    ensures ReducedEffects !in Step(Step(s, InitPerformance), Regenerate(width, probe)).body
  {
  }

  /** After a `visibilitychange`, `paused` is on exactly when the document is
      hidden; nothing else changes. */
  lemma VisibilitySetsPaused(s: PageState, hidden: bool)
    ensures Paused in Step(s, Visibility(hidden)).body <==> hidden
    ensures ReducedEffects in Step(s, Visibility(hidden)).body <==> ReducedEffects in s.body
    ensures Step(s, Visibility(hidden)).(body := s.body) == s
  {
  }

  /** Pressing `'s'` twice restores the body classes; any other key,
      `'t'` included, changes nothing. */
  lemma KeyToggles(s: PageState, key: string)
    ensures Step(Step(s, KeyDown("s")), KeyDown("s")) == s
    ensures ReducedEffects in Step(s, KeyDown("s")).body <==> ReducedEffects !in s.body
    ensures key != "s" ==> Step(s, KeyDown(key)) == s
  {
    var b := Step(Step(s, KeyDown("s")), KeyDown("s")).body;
    assert b == s.body;
  }

  /** One burst of `resize` events, each less than 400 ms after the last,
      makes each of the two resize debouncers fire exactly once, with the
      last event (here its timestamp). The 700 ms timer falls due exactly
      300 ms after the 400 ms one, so one burst yields two calls of
      `createBackgroundEffects`, 300 ms apart. */
  lemma ResizeBurstFiresBoth(calls: seq<(int, int)>, later: int)
    requires |calls| > 0 && Debounce.Burst(calls, ResizeWait)
    requires later >= calls[|calls| - 1].0 + ResizeModeWait
    ensures Debounce.Advance(Debounce.Replay(Debounce.Create(ResizeWait), calls), later).fired == [calls[|calls| - 1].1]
    ensures Debounce.Advance(Debounce.Replay(Debounce.Create(ResizeModeWait), calls), later).fired == [calls[|calls| - 1].1]
    ensures var regen := Debounce.Replay(Debounce.Create(ResizeWait), calls).armed;
            var mode := Debounce.Replay(Debounce.Create(ResizeModeWait), calls).armed;
            && regen.Some? && mode.Some?
            && regen.value.due == calls[|calls| - 1].0 + ResizeWait
            && mode.value.due == regen.value.due + (ResizeModeWait - ResizeWait)
  {
    Debounce.ReplayBurstArmsLast(Debounce.Create(ResizeWait), calls);
    Debounce.ReplayBurstArmsLast(Debounce.Create(ResizeModeWait), calls);
    Debounce.BurstFiresOnce(Debounce.Create(ResizeWait), calls, later);
    Debounce.BurstFiresOnce(Debounce.Create(ResizeModeWait), calls, later);
  }
}
