# Hero banner video cycle, in Dafny

A model of the state machine inside the `Hero` React component
(`src/components/Hero.jsx`). The banner cycles through a fixed set of
`totalVideos` clips (4 in the component; here any `n >= 2`). It shows three
video elements, each chosen from the current index:

- a small preview tile, which shows the clip after the current one;
- an incoming clip, which grows to full screen on each transition;
- a background clip.

Clicking the preview tile, or pressing Enter or Space on it, latches
`hasClicked` and advances the index with `(i % n) + 1`. The transition
animation only runs once `hasClicked` is set. Every `loadeddata` event of the
three video elements adds one to `loadedVideos` and recomputes
`loadingProgress`. When the counter reaches `n - 1`, a one-shot timer is
scheduled, and when it fires the loading screen is removed.

Files:

- `slots.dfy` (module `HeroSlots`): the index rotation and its period, the
  three slot functions, and the rounded percentage as integer arithmetic.
- `video_src.dfy` (module `VideoSource`): the URL template
  `videos/hero-<index>.mp4`, the decimal numeral of the index, and a parser
  that inverts the template.
- `hero_machine.dfy` (module `HeroMachine`): the component state as a value.
  It has one step function per event, a run over a sequence of events, the
  reachable-state invariant, and lemmas about whole runs.
- `hero.dfy` (module `HeroComponent`): class `Hero`, whose fields are the
  component's state and whose methods are its handlers. Each method is proved
  to produce exactly the state of the matching `HeroMachine` step.

The model follows the code in two places where it is easy to misread:

- The background wraps to clip 1 when the index equals `totalVideos - 1`, not
  `totalVideos`. With this choice the background never shows the preview
  tile's clip (`BackgroundSlotSpec`).
- Neither the load counter nor the percentage is clamped. Extra load events
  take `loadedVideos` past `n - 1` and the percentage past 100
  (`ProgressThreshold`, `ProgressForFourClips`).

`Math.round((c / (n - 1)) * 100)` is written as `(200c + (n-1)) / (2(n-1))`.
This is the nearest integer to `100c/(n-1)`, with halves rounded up, as
JavaScript's `Math.round` does. With four clips `100c/3` is never a half, so
for every count below 33 776 997 205 279 (about 3.4·10^13) the
floating-point computation and the integer one agree.

## Model

| member | source | states |
|---|---|---|
| HeroSlots.Rotate | src/components/Hero.jsx:52 | the activated index lies in 1..n, differs from the old one, is `i + 1` below n and wraps n to 1 |
| HeroSlots.RotateNClosedForm | src/components/Hero.jsx:52 | `k` activations from index `i` land on `(i - 1 + k) % n + 1` |
| HeroSlots.RotationPeriod | src/components/Hero.jsx:25-52 | from any valid index, n activations return to it; the first n positions are pairwise distinct, so it is not back any earlier |
| HeroSlots.MiniPreviewSlot | src/components/Hero.jsx:172 | the preview tile's clip is valid and is the clip the next activation makes current |
| HeroSlots.NextVideoSlot | src/components/Hero.jsx:194 | the incoming clip is valid while the index is, and is never the preview tile's clip |
| HeroSlots.BackgroundSlot | src/components/Hero.jsx:205-207 | the background is the incoming clip or clip 1, valid while the index is, and never the preview tile's clip |
| HeroSlots.MiniPreviewIsNextIncoming | src/components/Hero.jsx:172-194 | the preview tile shows the clip after the current one, wrapping n to 1, and this is the incoming clip after the next activation |
| HeroSlots.BackgroundSlotSpec | src/components/Hero.jsx:205-207 | the background is clip 1 exactly at index 1 or n - 1; otherwise it equals the incoming clip; it never equals the preview clip |
| HeroSlots.Progress | src/components/Hero.jsx:38 | the percentage is the integer nearest to 100c/(n-1), with halves rounded up |
| HeroSlots.ProgressAtThreshold | src/components/Hero.jsx:38-44 | with n - 1 loads the percentage is exactly 100, for every n |
| HeroSlots.ProgressFullAtThreshold | src/components/Hero.jsx:38-44 | n - 1 loads show 100% for every n; for up to 200 clips no other count does |
| HeroSlots.ProgressMonotone | src/components/Hero.jsx:36-40 | a larger load count never gives a smaller percentage |
| HeroSlots.ProgressThreshold | src/components/Hero.jsx:36-44 | the percentage is 100 exactly when the count is n - 1; it is below 100 before that and above 100 after (no clamp) |
| HeroSlots.ProgressForFourClips | src/components/Hero.jsx:31-38 | with four clips, counts 0..4 show 0, 33, 67, 100, 133 |
| VideoSource.Decimal | src/components/Hero.jsx:119 | the numeral inserted into the URL is non-empty, all digits, and has no leading zero |
| VideoSource.VideoSrc | src/components/Hero.jsx:119 | the URL is the fixed prefix `videos/hero-`, then a non-empty run of digits, then `.mp4` |
| VideoSource.DecimalRoundTrip | src/components/Hero.jsx:119 | reading the numeral back gives the index |
| VideoSource.VideoSrcRoundTrip | src/components/Hero.jsx:119 | `ParseVideoSrc(VideoSrc(i)) == Some(i)`: the URL names its clip |
| VideoSource.VideoSrcInjective | src/components/Hero.jsx:119 | two clip URLs are equal exactly when their indices are |
| VideoSource.VideoSrcOfFirstClips | src/components/Hero.jsx:119 | clips 1 and 4 load `videos/hero-1.mp4` and `videos/hero-4.mp4` |
| HeroMachine.Mount | src/components/Hero.jsx:25-29 | the mount state (index 1, not clicked, loading, 0 loaded, 0%, no timer, no transition) is valid for every clip count |
| HeroMachine.TransitionEffectRuns | src/components/Hero.jsx:56-84 | the transition effect starts no timeline while `hasClicked` is false, nor when its `currentIndex` dependency did not change |
| HeroMachine.ReadinessEffectFires | src/components/Hero.jsx:44 | the readiness condition holds only when the percentage is 100, and, for up to 200 clips, whenever it is |
| HeroMachine.ReadinessLagsProgress | src/components/Hero.jsx:38-44 | with 201 clips, 199 loads already show 100% while the readiness condition does not hold |
| HeroMachine.Activate | src/components/Hero.jsx:50-58 | an activation latches `hasClicked`, moves the index to `Rotate` of the old one (so it changes), and so makes the gated transition effect start exactly one timeline; the loading fields and timer are unchanged |
| HeroMachine.LoadVideo | src/components/Hero.jsx:35-48 | a load event adds exactly one to the counter, with no cap, sets the percentage to the rounded value for the new count, and keeps the state valid; the timer is scheduled exactly when the count lands on n - 1; index, click latch, loading flag and transitions are unchanged |
| HeroMachine.FireReadyTimer | src/components/Hero.jsx:46 | loading survives the timer event exactly when no timer was pending; a pending timer becomes fired and any other timer state is kept; the other fields are unchanged |
| HeroMachine.Step | src/components/Hero.jsx:35-53 | every event keeps the state valid: index in 1..n, percentage matching the count, timer idle exactly below n - 1 loads, loading exactly until the timer fires, clicked exactly when a transition has started; Enter and Space act as a click, and any other key changes nothing |
| HeroMachine.RunInv | src/components/Hero.jsx:35-53 | any sequence of events keeps the state valid |
| HeroMachine.KeyPressIsClick | src/components/Hero.jsx:159-167 | a key press of Enter or Space gives the same state as a click; any other key changes nothing |
| HeroMachine.LoadingEndsOnlyByTimer | src/components/Hero.jsx:43-48 | `loading` turns false only when the pending readiness timer fires, which needs at least n - 1 loads |
| HeroMachine.RunEffect | src/components/Hero.jsx:35-53 | over any run, the counter rises by the number of load events, the percentage follows it, the index rotates once per activation, each activation starts one transition, and `hasClicked` and finished loading are never undone |
| HeroMachine.TimerScheduledOnce | src/components/Hero.jsx:43-48 | the readiness timer is scheduled exactly once in a run that takes the count across n - 1, and never otherwise |
| HeroMachine.RunFromMount | src/components/Hero.jsx:25-53 | from mount, the index after k activations is `k % n + 1`, the counter equals the number of load events, and the loading screen is gone only after n - 1 of them |
| HeroComponent.Hero.constructor | src/components/Hero.jsx:25-31 | the new component is in the mount state, and that state is valid |
| HeroComponent.Hero.Activate | src/components/Hero.jsx:50-58 | the click handler latches `hasClicked`, rotates the index, starts one transition, changes nothing else, and keeps the object valid |
| HeroComponent.Hero.KeyPress | src/components/Hero.jsx:163-167 | Enter and Space act exactly as a click; any other key leaves the object unchanged |
| HeroComponent.Hero.VideoLoaded | src/components/Hero.jsx:35-48 | the load handler adds exactly one to the counter and sets the rounded percentage, without clamping; the readiness timer is scheduled when the count becomes n - 1; nothing else changes |
| HeroComponent.Hero.ReadyTimerFires | src/components/Hero.jsx:46 | a pending timer ends the loading state; without a pending timer nothing changes |
| HeroComponent.Hero.Slots | src/components/Hero.jsx:172-207 | the three rendered clip indices are valid; the preview is the next clip; the incoming clip is the current one; the background wraps at n - 1; the preview differs from both others |
| HeroComponent.Hero.Sources | src/components/Hero.jsx:119-207 | the three rendered URLs come from the template, and the preview tile never loads the same file as the incoming clip or the background |

## Left out

- The GSAP transition timeline is not modelled: durations, eases, the
  `-=0.5` offset, the revert of a running timeline when the index changes
  again, and the `play()` call on the incoming clip. Only its `hasClicked`
  gate is modelled, as a count of started timelines.
- The scroll-triggered clip-path animation and the fade-in of the text are
  left out. Both are cosmetic calls into the animation library.
- The 500 ms delay of the readiness timer is left out. The timer is modelled
  only by its state: not scheduled, pending, or fired. It fires as a separate
  event, so load events may still arrive while it is pending.
- The `Button` and `VideoPreview` components and all markup are left out.
  They are rendering with no logic.
- Browser media events are left out: when `loadeddata` fires, in what order,
  and whether a changed `src` fires it again. Each load is an input event
  that may arrive at any time.
- React's batching of state updates and the timing of effects are left out.
  Each handler, with the effect it triggers, is one atomic step. In
  particular, the readiness effect sees every value of the counter.
- The number of clips is a parameter `n >= 2`; the component fixes it at 4.
  For other `n`, the floating-point `Math.round` could differ from exact
  rounding where `100c/(n-1)` lies at or next to a half. For n = 4 no such
  case exists for counts below 33 776 997 205 279 (about 3.4·10^13); at that
  count the floating-point product first lands on a half that exact
  arithmetic does not reach, and the two differ by one.
- The load counter is an unbounded `nat`. JavaScript's `prev + 1` stops
  growing at 2^53, so the exact "+1 per load event" of HeroMachine.LoadVideo,
  HeroMachine.RunEffect and HeroComponent.Hero.VideoLoaded holds in the model
  only; no page receives that many load events.
- HeroSlots.ProgressThreshold: stated for n <= 200 only, because above that
  rounding reaches 100 one load before n - 1 (`ReadinessLagsProgress`: 199
  loads of 201 clips show 100% without scheduling the timer). The
  component's n = 4 is covered.
- `getVideoSrc` is modelled on non-negative indices only, printed as plain
  decimal numerals. JavaScript prints numbers from 10^21 up in exponent form
  and does not hold integers above 2^53 exactly, so `VideoSrcInjective` over
  all indices is a fact of the model; the component's indices are 1..n.
