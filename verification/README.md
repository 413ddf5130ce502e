# Portfolio page effects controller, modelled in Dafny

`script.js` drives the decorative layer of a single portfolio page. This
project models its small decision core as pure Dafny functions over an immutable
page record:

- the static capability heuristic `isLowPowerDevice`, with its defaults and its
  fail-open `catch` (`capability.dfy`);
- the decoration counts and the binary-rain text of `createBackgroundEffects`
  (`density.dfy`);
- the frame-rate sample `measureFPS`, with the 40 fps threshold written in
  integers as `frames * 1000 < 40 * elapsedMs` (`frame_rate.dfy`);
- the `debounce` helper, as a state machine with an explicit clock
  (`debounce.dfy`);
- the one-shot scroll reveal of `setupScrollReveal` (`reveal.dfy`);
- the page itself (`page.dfy`). Its record holds the body classes
  `reduced-effects` and `paused`, the children of `#data-nodes` and
  `#binary-rain`, the work scheduled but not yet run, and the reveal state.
  Each handler in the script is one transition function.

The browser's schedulers (`requestIdleCallback`, `setTimeout`,
`requestAnimationFrame`, promise continuations) are not clocks here. A
regeneration's deferred `work`, its animation-frame append and a pending
frame-rate sample are jobs in a map keyed by job id. A job runs when an event
that names it arrives, in whatever order the trace chooses. The time bounds
(idle timeout 1000 ms, fallback delay 120 ms) are recorded on each job.
`Math.random` is left out except for the binary digits, which are an injected
bit sequence. The viewport width, the device signals and the frame timestamps
are event inputs.

`createBackgroundEffects` clears both containers on every call, but it does
not cancel the work that earlier calls scheduled. The work is appended whenever
it runs. So the containers are guaranteed to hold exactly one generation when no other
regeneration and no other append comes between a call and its own append
(`Page.ExactRegeneration`). Otherwise the generations can accumulate: when a
second call clears the containers and both calls' appends run after it, both
generations are shown (`Page.StaleWorkAccumulates`). One resize burst triggers both the 400 ms and
the 700 ms debouncers, so two calls arrive 300 ms apart
(`Page.ResizeBurstFiresBoth`). Idle scheduling may hold the first call's work
for up to 1000 ms. A description of the page that promises no accumulation
across regenerations is therefore stronger than what the script does; the
model follows the script. The same applies to missing containers: the script
dereferences them without a check and so would throw. The model requires both
containers (`Env.containers`) for a regeneration instead of treating their
absence as a no-op.

## Model

| member | source | states |
|---|---|---|
| Capability.IsLowPowerDevice | script.js:4-13 | A low-power verdict needs a successful read. An absent memory or core count makes the device low-power. The device counts as full capability exactly when the read threw, or when memory above 4 GB, more than 4 cores and a non-mobile (or absent) user agent are all present. |
| Capability.MatchMobile | script.js:8 | The left-to-right scan of `/Mobi|Android/i` answers true exactly when either word occurs somewhere in the agent, ignoring ASCII case. |
| Capability.AndroidAgentIsLowPower | script.js:8-9 | Any user agent that contains `Android` makes the device low-power, whatever its memory and cores. |
| Density.ScaledCount | script.js:38-39 | `max(floor, width div divisor)` is never below the floor. It is either the floor or the number of whole divisors in the width, and never fewer whole divisors than fit. |
| Density.NodeCount | script.js:38 | The node count is at least its floor (12, or 6 when low-power), never leaves a whole 80 px (or 160 px) of width uncounted, and exceeds the floor only by whole steps that fit in the width. |
| Density.BinaryCount | script.js:39 | The binary-rain count is at least its floor (8, or 4 when low-power), never leaves a whole 140 px (or 280 px) of width uncounted, and exceeds the floor only by whole steps that fit in the width. |
| Density.CountsMonotone | script.js:38-39 | Both counts never decrease as the viewport grows, for either capability class. |
| Density.DivMonotone | script.js:38-39 | Floor division by a positive divisor is monotone in the dividend; the counts rest on this. |
| Density.LowPowerNeverDenser | script.js:38-39 | A low-power page never gets more nodes or binary strings than a full page of the same width. |
| Density.CountExamples | script.js:38-39 | A full page 1600 px wide gets 20 nodes and 11 strings. A low-power page 800 px wide gets the floors, 6 and 4. |
| Density.BinaryText | script.js:64-66 | The text has two characters per drawn digit. Even positions hold the digits in draw order, and each is followed by a space. |
| Density.ReadBinaryText | script.js:64-66 | Reading the digits back out of a binary-rain text gives exactly the bits drawn for it. |
| Density.RainTexts | script.js:61-66 | `binaryCount` strings are made. Each is twelve `'0'`/`'1'` digits, each followed by a space (24 characters). String k carries the k-th run of twelve bits. |
| FrameRate.Sample | script.js:102-110 | The sample resolves exactly when some frame is at least the window after the start. It then counts the frames up to the first such frame and reports whether `frames * 1000 < 40 * elapsed`. |
| FrameRate.MeasureFps | script.js:99-114 | With reduced motion preferred, it resolves `false` without looking at any frame. Otherwise it counts frames from zero up to the first frame past the window and applies the 40 fps threshold. |
| Debounce.Create | script.js:16-17 | A fresh wrapper keeps its `wait`, has no timer armed and has fired nothing. |
| Debounce.Call | script.js:18-20 | Each call cancels whatever timer was armed and arms one `wait` ms later with its own arguments. Nothing fires at the call. |
| Debounce.Advance | script.js:20 | A timer that is not yet due, or no timer at all, changes nothing. When the clock reaches a due timer, `fn` fires once with that timer's arguments and nothing stays armed. |
| Debounce.ReplayBurstArmsLast | script.js:16-22 | Within a burst (calls less than `wait` apart), only the last call's timer is still armed. The burst fires nothing beyond a timer that was already due when it began. |
| Debounce.BurstFiresOnce | script.js:16-22 | Once the clock passes the end of a burst, `fn` has run exactly once for the whole burst, with the last call's arguments. |
| Reveal.Setup | script.js:148-151 | Every matched element gets `to-reveal` and is observed. None is in view yet. |
| Reveal.Handle | script.js:154-157 | An intersecting entry's target gets `in-view`, is unobserved and is logged, and no other element changes. A non-intersecting entry changes nothing. |
| Reveal.OnEntries | script.js:152-160 | Targets of intersecting entries get `in-view` and are unobserved. Every scheduled `in-view` addition names such a target. `to-reveal` is untouched, and a batch with no intersecting entry changes nothing. |
| Reveal.OnEntriesKeepsInv | script.js:152-161 | Over batches the observer can deliver, the one-shot invariant holds. Each element is scheduled for `in-view` at most once, the `in-view` elements are exactly those scheduled, and none of them is still observed. |
| Reveal.RevealedStaysQuiet | script.js:152-158 | An element that already has `in-view` appears in no later batch. It stays unobserved and keeps `in-view`. |
| Page.SetClass | script.js:34-35 | `classList.add`/`remove` (also at lines 119-120): the class is present exactly when asked for, and every other class keeps its presence. |
| Page.ToggleClass | script.js:240 | `classList.toggle`: the class flips, and every other class keeps its presence. |
| Page.CreateBackgroundEffects | script.js:25-86 | Both containers are emptied. `reduced-effects` holds exactly when the static heuristic says low-power, whatever reduced motion says. `paused` is untouched. One `work` is queued under a fresh job id, with the node and binary counts for this width. The work uses the idle callback exactly when it exists and the device is not low-power. |
| Page.DoWork | script.js:45-74 | The work leaves the containers, the classes, the other pending jobs, the job counter and the reveal alone. It replaces itself with an append that carries `nodeCount` nodes and `binaryCount` well-formed binary-rain texts, text k holding the k-th run of twelve drawn bits. |
| Page.DoPaint | script.js:76-79 | The append adds its nodes and texts after the children already present and retires the job. |
| Page.InitPerformanceMode | script.js:132-139 | With reduced motion preferred, only `reduced-effects` is added. Otherwise a frame-rate sample is started and no class changes yet. |
| Page.SettlePerformance | script.js:139-144 | When the sample resolves, `reduced-effects` is set exactly when the first expiring frame gives `frames * 1000 < 40 * elapsed` or the static heuristic says low-power. `paused` is untouched. |
| Page.KeyPressed | script.js:234-242 | `'s'` toggles `reduced-effects`. `'t'` and every other key leave the page as it was. |
| Page.Step | script.js:89-289 | Only a `visibilitychange` writes `paused`. Only a regeneration, the performance mode and `'s'` write `reduced-effects`. Only a regeneration and an append touch the containers. Only the reveal setup and the observer callback touch the reveal state; they leave the pending jobs and the job counter alone, and the callback only extends the reveal log and the `in-view` set. |
| Page.StepKeepsInv | script.js:25-161 | Every event keeps these facts: job ids stay below the next id; every shown or pending binary text is twelve digits each followed by a space; no sample is ever pending under reduced motion; the reveal is one-shot. |
| Page.RunKeepsInv | script.js:246-289 | Every page that a trace of enabled events reaches from a state satisfying the invariant satisfies it too. |
| Page.ExactRegeneration | script.js:25-86 | After a regeneration whose work and append both run with no other regeneration and no other append in between, the containers hold exactly `nodeCount` nodes and `binaryCount` well-formed strings. |
| Page.StaleWorkAccumulates | script.js:25-93 | Two regenerations whose work and appends all run after the second clear leave twice the counts. That is more than one generation. |
| Page.ReducedMotionNeverSamples | script.js:132-136 | Under reduced motion, `initPerformanceMode` adds `reduced-effects`, queues no sample, and no sample can ever settle. So it never removes the class. |
| Page.SettledModeFollowsSample | script.js:138-144 | A sample can settle only without reduced motion. The class then follows the slow sample or the static heuristic, whichever says reduce. |
| Page.RegenerationOverridesReducedMotion | script.js:164-169 | On a capable device, a regeneration right after reduced motion made `initPerformanceMode` add `reduced-effects` removes it again. |
| Page.VisibilitySetsPaused | script.js:117-121 | After a `visibilitychange`, `paused` holds exactly when the document is hidden. Nothing else changes. |
| Page.KeyToggles | script.js:235-241 | Two presses of `'s'` restore the page, and one press flips `reduced-effects`. Any other key changes nothing. |
| Page.ResizeBurstFiresBoth | script.js:89-93 | One resize burst with events less than 400 ms apart fires the 400 ms debouncer and the 700 ms one (line 289) exactly once each, with the last event. The 700 ms timer falls due exactly 300 ms after the 400 ms one. |

## Left out

- Random presentation parameters of the decorations (position, size, colour, animation duration and delay, font size): they are floating-point cosmetics with no effect on the logic. The binary digits are injected bits.
- Real timing of `requestIdleCallback`, `setTimeout`, `requestAnimationFrame`, promise continuations and `performance.now`: a job runs when the trace names it. The page's delay bounds are recorded but not enforced as a clock.
- Frame timestamps are integer milliseconds, and device memory is a real number. Floating-point rounding and a `NaN` memory value are not modelled.
- The one-frame delay before `in-view` is added: the addition is applied when the entry is handled. `Reveal.OnEntries` also records the addition in a log.
- The observer's delivery rule is an assumption about the browser: entries come only for observed targets, at most one per target per batch. The page's `Intersections` event requires it, and the no-duplicate half of `Reveal.OnEntriesKeepsInv` rests on it. A browser may deliver in one callback entries queued at two rendering updates, possibly for the same target; the script would then add `in-view` twice, which is harmless for a class but outside the model. `Reveal.OnEntries` itself accepts any batch.
- `createBackgroundEffectsSafe` (script.js:165-174) is not a transition of its own. It first makes and awaits the load-time `initPerformanceMode()` call (line 166), which a trace shows as `InitPerformance` followed, without reduced motion, by the `RunMeasure` that settles it, before the first `Regenerate`. Its choice of calling `createBackgroundEffects` at once, after an idle callback or after 120 ms only decides when that first `Regenerate` appears in the trace.
- Missing decoration containers: the script dereferences them and would throw, so a regeneration requires them.
- `setupPassiveListeners` (no-op listeners), `animateSkillBars`, `updateDate`, `animateTerminal`, `setupNavigation`, `setupHoverEffects`, the console banner, the opacity fade and the `'t'` key's smooth scroll: these are DOM mutations with no decision logic.
- Debounce.Advance: the debouncer's timers fire exactly at their due time. A late browser timer could be cancelled by a call that arrives after its due time; that race is not modelled.
- Page.StaleWorkAccumulates: shows one interleaving (both works and both appends after the second clear), not every interleaving that accumulates.
