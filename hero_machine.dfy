/** The hero banner's state as a value: its five pieces of component state,
    the pending readiness timer and the number of transition timelines the
    animation effect has started, with one step function per event and runs
    of event sequences. The class in HeroComponent is proved against it. */
module HeroMachine {
  import opened HeroSlots

  /** The one-shot 500 ms timer the readiness effect schedules: not yet
      scheduled, scheduled and not yet fired, fired. */
  datatype ReadyTimer = Idle | Pending | Fired

  datatype HeroState = HeroState(
    currentIndex: nat,
    hasClicked: bool,
    loading: bool,
    loadedVideos: nat,
    loadingProgress: nat,
    readyTimer: ReadyTimer,
    transitionsStarted: nat)

  /** What can happen to the component: a click on the preview tile, a key
      press on it (carrying the key's name), a `loadeddata` event from one of
      the three video elements, and the readiness timer firing. */
  datatype Event = Click | KeyPress(key: string) | VideoLoaded | ReadyTimerFires

  /** The state right after mount: index 1, not clicked, loading, nothing
      loaded, 0%, no timer, no transition; valid for every clip count. */
  function Mount(): (s: HeroState)
    ensures forall n :: n >= 2 ==> Inv(s, n)
  {
    HeroState(1, false, true, 0, 0, Idle, 0)
  }

  /** What every reachable state satisfies, for `n` clips. */
  ghost predicate Inv(s: HeroState, n: nat)
  {
    && n >= 2
    && 1 <= s.currentIndex <= n
    && s.loadingProgress == Progress(s.loadedVideos, n)
    && (s.readyTimer == Idle <==> s.loadedVideos < n - 1)
    && (s.loading <==> s.readyTimer != Fired)
    && (s.hasClicked <==> s.transitionsStarted > 0)
  }

  /** The keys the preview tile treats as a click. */
  predicate IsActivationKey(key: string)
  {
    key == "Enter" || key == " "
  }

  /** The transition effect re-runs when the index it depends on changes,
      and starts a timeline only once the user has clicked. */
  predicate TransitionEffectRuns(prevIndex: nat, newIndex: nat, hasClicked: bool): (r: bool)
    ensures !hasClicked ==> !r
    ensures prevIndex == newIndex ==> !r
  {
    prevIndex != newIndex && hasClicked
  }

  /** The readiness effect's condition on the (new) load count. It holds
      only when the progress bar shows 100%, and, for up to 200 clips,
      whenever it does. */
  predicate ReadinessEffectFires(loadedVideos: nat, n: nat): (r: bool)
    requires n >= 2
    ensures r ==> Progress(loadedVideos, n) == 100
    ensures n <= 200 && Progress(loadedVideos, n) == 100 ==> r
  {
    ProgressFullAtThreshold(loadedVideos, n);
    loadedVideos == n - 1
  }

  /** Above 200 clips the percentage reaches 100 one load before the
      readiness condition holds. */
  lemma ReadinessLagsProgress()
    ensures Progress(199, 201) == 100 && !ReadinessEffectFires(199, 201)
  {
  }

  /** `handleMiniVdClick` together with the transition effect it triggers. */
  function Activate(s: HeroState, n: nat): (r: HeroState)
    requires n >= 2
    ensures r.hasClicked && r.transitionsStarted == s.transitionsStarted + 1
    ensures r.currentIndex == Rotate(s.currentIndex, n) && r.currentIndex != s.currentIndex
    ensures r.loading == s.loading && r.loadedVideos == s.loadedVideos
    ensures r.loadingProgress == s.loadingProgress && r.readyTimer == s.readyTimer
  {
    var clicked := s.(currentIndex := Rotate(s.currentIndex, n), hasClicked := true);
    clicked.(transitionsStarted :=
      if TransitionEffectRuns(s.currentIndex, clicked.currentIndex, clicked.hasClicked)
      then s.transitionsStarted + 1
      else s.transitionsStarted)
  }

  /** `handleVideoLoad` together with the readiness effect it triggers: the
      counter grows with no cap, the timer is scheduled exactly when the count
      lands on `n - 1`, and index, click latch and loading flag are untouched. */
  function LoadVideo(s: HeroState, n: nat): (r: HeroState)
    requires n >= 2
    ensures r.loadedVideos == s.loadedVideos + 1
    ensures r.loadingProgress == Progress(r.loadedVideos, n)
    ensures Inv(s, n) ==> Inv(r, n)
    ensures Inv(s, n) ==> (r.readyTimer != s.readyTimer <==> r.loadedVideos == n - 1)
    ensures r.currentIndex == s.currentIndex && r.hasClicked == s.hasClicked
    ensures r.loading == s.loading && r.transitionsStarted == s.transitionsStarted
  {
    var newCount := s.loadedVideos + 1;
    s.(loadedVideos := newCount,
       loadingProgress := Progress(newCount, n),
       readyTimer := if ReadinessEffectFires(newCount, n) then Pending else s.readyTimer)
  }

  /** The timer callback `setLoading(false)`; with no timer pending nothing
      happens. Loading survives exactly when no timer was pending, and
      afterwards none is. */
  function FireReadyTimer(s: HeroState): (r: HeroState)
    ensures r.loading <==> s.loading && s.readyTimer != Pending
    ensures r.readyTimer == (if s.readyTimer == Pending then Fired else s.readyTimer)
    ensures r.currentIndex == s.currentIndex && r.loadedVideos == s.loadedVideos
    ensures r.loadingProgress == s.loadingProgress
    ensures r.hasClicked == s.hasClicked && r.transitionsStarted == s.transitionsStarted
  {
    if s.readyTimer == Pending then s.(loading := false, readyTimer := Fired) else s
  }

  /** One event. Every event keeps the invariant; Enter and Space act as a
      click and any other key changes nothing. */
  function Step(s: HeroState, e: Event, n: nat): (r: HeroState)
    requires n >= 2
    ensures Inv(s, n) ==> Inv(r, n)
    ensures IsActivation(e) ==> r == Activate(s, n)
    ensures e.KeyPress? && !IsActivationKey(e.key) ==> r == s
  {
    match e
    case Click => Activate(s, n)
    case KeyPress(key) => if IsActivationKey(key) then Activate(s, n) else s
    case VideoLoaded => LoadVideo(s, n)
    case ReadyTimerFires => FireReadyTimer(s)
  }

  /** The state after the events of `t`, in order. */
  function Run(s: HeroState, t: seq<Event>, n: nat): HeroState
    requires n >= 2
  {
    if t == [] then s else Step(Run(s, t[..|t| - 1], n), t[|t| - 1], n)
  }

  predicate IsActivation(e: Event)
  {
    e.Click? || (e.KeyPress? && IsActivationKey(e.key))
  }

  /** Number of events in `t` that activate the preview tile. */
  function Activations(t: seq<Event>): nat
  {
    if t == [] then 0
    else Activations(t[..|t| - 1]) + (if IsActivation(t[|t| - 1]) then 1 else 0)
  }

  /** Number of load events in `t`. */
  function Loads(t: seq<Event>): nat
  {
    if t == [] then 0
    else Loads(t[..|t| - 1]) + (if t[|t| - 1] == VideoLoaded then 1 else 0)
  }

  /** Number of steps of the run of `t` from `s` in which the readiness effect
      schedules its timer. */
  function TimersScheduled(s: HeroState, t: seq<Event>, n: nat): nat
    requires n >= 2
  {
    if t == [] then 0
    else
      var before := Run(s, t[..|t| - 1], n);
      TimersScheduled(s, t[..|t| - 1], n)
      + (if t[|t| - 1] == VideoLoaded && ReadinessEffectFires(before.loadedVideos + 1, n)
         then 1 else 0)
  }

  lemma {:induction false} RunInv(s: HeroState, t: seq<Event>, n: nat)
    requires Inv(s, n)
    ensures Inv(Run(s, t, n), n)
  {
    if t != [] {
      RunInv(s, t[..|t| - 1], n);
    }
  }

  /** Pressing Enter or Space is a click; any other key changes nothing. */
  lemma KeyPressIsClick(s: HeroState, key: string, n: nat)
    requires n >= 2
    ensures Step(s, KeyPress(key), n) == (if key == "Enter" || key == " " then Step(s, Click, n) else s)
  {
  }

  /** `loading` only ever turns false through the pending timer, and only
      after `n - 1` load events. */
  lemma LoadingEndsOnlyByTimer(s: HeroState, e: Event, n: nat)
    requires Inv(s, n) && s.loading && !Step(s, e, n).loading
    ensures e == ReadyTimerFires && s.readyTimer == Pending && s.loadedVideos >= n - 1
  {
  }

  /** What a run of events does to the state: every load event adds exactly
      one to the unclamped counter, every activation rotates the index once
      and starts one transition, `hasClicked` and a finished loading phase
      are never undone. */
  lemma {:induction false} RunEffect(s: HeroState, t: seq<Event>, n: nat)
    requires Inv(s, n)
    ensures Run(s, t, n).loadedVideos == s.loadedVideos + Loads(t)
    ensures Run(s, t, n).loadingProgress == Progress(s.loadedVideos + Loads(t), n)
    ensures Run(s, t, n).currentIndex == RotateN(s.currentIndex, Activations(t), n)
    ensures Run(s, t, n).transitionsStarted == s.transitionsStarted + Activations(t)
    ensures Run(s, t, n).hasClicked <==> s.hasClicked || Activations(t) > 0
    ensures !s.loading ==> !Run(s, t, n).loading
  {
    if t != [] {
      var t', e := t[..|t| - 1], t[|t| - 1];
      RunEffect(s, t', n);
      RunInv(s, t', n);
      assert Run(s, t, n) == Step(Run(s, t', n), e, n);
      assert Loads(t) == Loads(t') + (if e == VideoLoaded then 1 else 0);
      assert Activations(t) == Activations(t') + (if IsActivation(e) then 1 else 0);
    }
  }

  /** The readiness timer is scheduled exactly once over a run that takes the
      counter across `n - 1`, and never otherwise. */
  lemma {:induction false} TimerScheduledOnce(s: HeroState, t: seq<Event>, n: nat)
    requires Inv(s, n)
    ensures TimersScheduled(s, t, n)
            == if s.loadedVideos < n - 1 <= Run(s, t, n).loadedVideos then 1 else 0
  {
    if t != [] {
      TimerScheduledOnce(s, t[..|t| - 1], n);
      RunEffect(s, t[..|t| - 1], n);
    }
  }

  /** From mount: after `k` activations the index is `k % n + 1`, so it is
      back at 1 after exactly `n`; the counter is the number of load events,
      and the loading screen is gone only after `n - 1` of them. */
  lemma {:induction false} RunFromMount(t: seq<Event>, n: nat)
    requires n >= 2
    ensures Inv(Run(Mount(), t, n), n)
    ensures Run(Mount(), t, n).currentIndex == Activations(t) % n + 1
    ensures Run(Mount(), t, n).loadedVideos == Loads(t)
    ensures Run(Mount(), t, n).hasClicked <==> Activations(t) > 0
    ensures !Run(Mount(), t, n).loading ==> Loads(t) >= n - 1
  {
    RunInv(Mount(), t, n);
    RunEffect(Mount(), t, n);
    RotateNClosedForm(1, Activations(t), n);
  }
}
