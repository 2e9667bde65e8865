/** The `Hero` component as an object whose handlers update its state in
    place. Each handler is an atomic update of the fields (a React state
    update together with the effects it triggers), and each is proved to
    take the state exactly where the corresponding HeroMachine step does. */
module HeroComponent {
  import opened HeroSlots
  import opened VideoSource
  import HeroMachine

  class Hero {
    var currentIndex: nat
    var hasClicked: bool
    var loading: bool
    var loadedVideos: nat
    var loadingProgress: nat
    /** The readiness effect's `setTimeout`, collapsed to its state. */
    var readyTimer: HeroMachine.ReadyTimer
    /** Transition timelines the animation effect has started. */
    var transitionsStarted: nat
    const totalVideos: nat

    function State(): HeroMachine.HeroState
      reads this
    {
      HeroMachine.HeroState(currentIndex, hasClicked, loading, loadedVideos,
                            loadingProgress, readyTimer, transitionsStarted)
    }

    ghost predicate Valid()
      reads this
    {
      HeroMachine.Inv(State(), totalVideos)
    }

    /** Mount: clip 1, not clicked, loading, nothing loaded, 0%. */
    constructor (n: nat)
      requires n >= 2
      ensures Valid() && totalVideos == n
      ensures State() == HeroMachine.Mount()
    {
      totalVideos := n;
      currentIndex := 1;
      hasClicked := false;
      loading := true;
      loadedVideos := 0;
      loadingProgress := 0;
      readyTimer := HeroMachine.Idle;
      transitionsStarted := 0;
    }

    /** `handleMiniVdClick`: latch `hasClicked`, rotate the index; the
        transition effect then sees a new index with the gate open and starts
        one timeline. */
    method Activate()
      requires Valid()
      modifies this
      ensures Valid()
      ensures State() == HeroMachine.Activate(old(State()), totalVideos)
      ensures hasClicked && currentIndex == Rotate(old(currentIndex), totalVideos)
      ensures transitionsStarted == old(transitionsStarted) + 1
      ensures loading == old(loading) && loadedVideos == old(loadedVideos)
      ensures loadingProgress == old(loadingProgress) && readyTimer == old(readyTimer)
    {
      hasClicked := true;
      var prevIndex := currentIndex;
      currentIndex := (currentIndex % totalVideos) + 1;
      if HeroMachine.TransitionEffectRuns(prevIndex, currentIndex, hasClicked) {
        transitionsStarted := transitionsStarted + 1;
      }
    }

    /** The preview tile's key handler: Enter and Space activate, any other
        key is ignored. */
    method KeyPress(key: string)
      requires Valid()
      modifies this
      ensures Valid()
      ensures State() == HeroMachine.Step(old(State()), HeroMachine.KeyPress(key), totalVideos)
      ensures key == "Enter" || key == " " ==>
                State() == HeroMachine.Step(old(State()), HeroMachine.Click, totalVideos)
      ensures key != "Enter" && key != " " ==> State() == old(State())
    {
      if HeroMachine.IsActivationKey(key) {
        Activate();
      }
    }

    /** `handleVideoLoad`: one more loaded clip and the recomputed percentage,
        neither clamped; the readiness effect schedules the timer when the
        count becomes `totalVideos - 1`. */
    method VideoLoaded()
      requires Valid()
      modifies this
      ensures Valid()
      ensures State() == HeroMachine.LoadVideo(old(State()), totalVideos)
      ensures loadedVideos == old(loadedVideos) + 1
      ensures loadingProgress == Progress(loadedVideos, totalVideos)
      ensures readyTimer == (if loadedVideos == totalVideos - 1 then HeroMachine.Pending
                             else old(readyTimer))
      ensures currentIndex == old(currentIndex) && hasClicked == old(hasClicked)
      ensures loading == old(loading) && transitionsStarted == old(transitionsStarted)
    {
      var newCount := loadedVideos + 1;
      loadingProgress := Progress(newCount, totalVideos);
      loadedVideos := newCount;
      if HeroMachine.ReadinessEffectFires(loadedVideos, totalVideos) {
        readyTimer := HeroMachine.Pending;
      }
    }

    /** The readiness timer's callback: the loading screen goes away. */
    method ReadyTimerFires()
      requires Valid()
      modifies this
      ensures Valid()
      ensures State() == HeroMachine.FireReadyTimer(old(State()))
      ensures old(readyTimer) == HeroMachine.Pending ==> !loading
      ensures old(readyTimer) != HeroMachine.Pending ==> State() == old(State())
    {
      if readyTimer == HeroMachine.Pending {
        loading := false;
        readyTimer := HeroMachine.Fired;
      }
    }

    /** The clip indices the three video elements render: all valid, the
        preview one ahead of the incoming clip, the background equal to the
        incoming clip except at `totalVideos - 1`, and never the preview's. */
    method Slots() returns (preview: nat, next: nat, background: nat)
      requires Valid()
      ensures 1 <= preview <= totalVideos && 1 <= next <= totalVideos
      ensures 1 <= background <= totalVideos
      ensures next == currentIndex
      ensures preview == Rotate(currentIndex, totalVideos)
      ensures background == (if currentIndex == totalVideos - 1 then 1 else currentIndex)
      ensures preview != background && preview != next
    {
      preview := MiniPreviewSlot(currentIndex, totalVideos);
      next := NextVideoSlot(currentIndex, totalVideos);
      background := BackgroundSlot(currentIndex, totalVideos);
      MiniPreviewIsNextIncoming(currentIndex, totalVideos);
      BackgroundSlotSpec(currentIndex, totalVideos);
    }

    /** The URLs the three video elements load: the preview tile never loads
        the same file as the incoming clip or the background. */
    method Sources() returns (preview: string, next: string, background: string)
      requires Valid()
      ensures preview == VideoSrc(Rotate(currentIndex, totalVideos))
      ensures next == VideoSrc(currentIndex)
      ensures background == VideoSrc(if currentIndex == totalVideos - 1 then 1 else currentIndex)
      ensures preview != next && preview != background
    {
      var p, n, b := Slots();
      preview, next, background := VideoSrc(p), VideoSrc(n), VideoSrc(b);
      VideoSrcInjective(p, n);
      VideoSrcInjective(p, b);
    }
  }
}
