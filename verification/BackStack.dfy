/**
 Android back navigation: a history of at most 24 screens, kept by an effect that runs after each
 committed screen change, against the ideal trail of every screen visited since home.
 */
module BackStack {
  /** Screens are named; `home` is the one the application opens on. */
  type Screen = string

  const HOME: Screen := "home"
  const LIMIT := 24

  datatype Navigation = Navigation(
    screen: Screen, previous: Screen, history: seq<Screen>, applyingSystemBack: bool)

  const Launched := Navigation(HOME, HOME, [], false)

  function LastN<T>(s: seq<T>, n: nat): seq<T> {
    if |s| <= n then s else s[|s| - n..]
  }

  /** The effect on `[screen]`. */
  function Committed(n: Navigation): Navigation {
    if n.screen == n.previous then n
    else if n.applyingSystemBack then n.(applyingSystemBack := false, previous := n.screen)
    else if n.screen == HOME then n.(history := [], previous := n.screen)
    else n.(history := LastN(n.history + [n.previous], LIMIT), previous := n.screen)
  }

  function Opened(n: Navigation, target: Screen): Navigation {
    Committed(n.(screen := target))
  }

  /** The branch of the hardware-back handler that leaves the current screen, and the effect after it. */
  function WentBack(n: Navigation): Navigation {
    if n.screen == HOME then n else
      var previous := if n.history == [] then HOME else n.history[|n.history| - 1];
      var rest := if n.history == [] then [] else n.history[..|n.history| - 1];
      Committed(n.(history := rest, applyingSystemBack := true,
                   screen := if previous == n.screen then HOME else previous))
  }

  /** What stands in the way of the back button before it reaches the screen history. */
  datatype Overlay = Overlay(
    keyboardVisible: bool, createOpen: bool, postDetailOpen: bool, profileSubscreen: bool, socialImmersive: bool)

  predicate Unobstructed(n: Navigation, o: Overlay) {
    && !o.keyboardVisible && !o.createOpen
    && !(n.screen == HOME && o.postDetailOpen)
    && !(n.screen == "profile" && o.profileSubscreen)
    && !(n.screen == "social" && o.socialImmersive)
  }

  datatype Handled = Consumed | Yielded | AskToQuit

  class AppNavigation {
    var screen: Screen
    var previousScreen: Screen
    var screenHistory: seq<Screen>
    var applyingSystemBack: bool

    function State(): Navigation
      reads this
    {
      Navigation(screen, previousScreen, screenHistory, applyingSystemBack)
    }

    constructor ()
      ensures State() == Launched
      ensures screen == previousScreen == "home" && screenHistory == [] && !applyingSystemBack
    {
      screen, previousScreen, screenHistory, applyingSystemBack := HOME, HOME, [], false;
    }

    method ScreenEffect()
      modifies this
      ensures State() == Committed(old(State()))
      ensures screen == previousScreen == old(screen)
      ensures screen == old(previousScreen) ==> screenHistory == old(screenHistory) && applyingSystemBack == old(applyingSystemBack)
      ensures screen != old(previousScreen) ==> !applyingSystemBack
      ensures screen != old(previousScreen) && old(applyingSystemBack) ==> screenHistory == old(screenHistory)
      ensures screen != old(previousScreen) && !old(applyingSystemBack) ==>
                screenHistory == if screen == "home" then [] else LastN(old(screenHistory) + [old(previousScreen)], 24)
    {
      if screen == previousScreen {
        return;
      }
      if applyingSystemBack {
        applyingSystemBack := false;
      } else if screen == HOME {
        screenHistory := [];
      } else {
        screenHistory := LastN(screenHistory + [previousScreen], LIMIT);
      }
      previousScreen := screen;
    }

    method SetScreen(target: Screen)
      modifies this
      ensures State() == Opened(old(State()), target)
      ensures screen == previousScreen == target
    {
      screen := target;
      ScreenEffect();
    }

    /** Only an unobstructed press away from home changes the screen. */
    method HardwareBackPress(o: Overlay) returns (handled: Handled)
      modifies this
      ensures State() == if Unobstructed(old(State()), o) then WentBack(old(State())) else old(State())
      ensures o.keyboardVisible || o.createOpen || (old(screen) == "home" && o.postDetailOpen)
              || (old(screen) == "profile" && o.profileSubscreen)
              ==> State() == old(State()) && handled == Consumed
      ensures !o.keyboardVisible && !o.createOpen && old(screen) == "home" && !o.postDetailOpen
              ==> State() == old(State()) && handled == AskToQuit
      ensures !o.keyboardVisible && !o.createOpen && old(screen) == "social" && o.socialImmersive
              ==> State() == old(State())
      ensures !o.keyboardVisible && !o.createOpen && old(screen) != "home" && !(old(screen) == "profile" && o.profileSubscreen)
              && !(old(screen) == "social" && o.socialImmersive) ==>
                && handled == Consumed && screen == previousScreen
                && screen != old(screen)
                && (old(screenHistory) == [] ==> screen == "home" && screenHistory == [])
                && (old(screenHistory) != [] ==>
                      var top := |old(screenHistory)| - 1;
                      && screenHistory == old(screenHistory)[..top]
                      && screen == if old(screenHistory)[top] == old(screen) then "home" else old(screenHistory)[top])
      ensures handled == AskToQuit <==> Unobstructed(old(State()), o) && old(screen) == HOME
      ensures handled == Yielded <==>
              !o.keyboardVisible && !o.createOpen && old(screen) == "social" && o.socialImmersive
    {
      if o.keyboardVisible || o.createOpen {
        return Consumed;
      }
      if screen == HOME && o.postDetailOpen {
        return Consumed;
      }
      if screen == "profile" && o.profileSubscreen {
        return Consumed;
      }
      if screen == "social" && o.socialImmersive {
        return Yielded;
      }
      if screen != HOME {
        var previous := HOME;
        if |screenHistory| > 0 {
          previous := screenHistory[|screenHistory| - 1];
          screenHistory := screenHistory[..|screenHistory| - 1];
        }
        applyingSystemBack := true;
        screen := if previous == screen then HOME else previous;
        ScreenEffect();
        return Consumed;
      }
      return AskToQuit;
    }

    /** The effect on the signed-in user: everything starts again from home. */
    method UserChanged()
      modifies this
      ensures State() == Launched
      ensures screen == previousScreen == "home" && screenHistory == [] && !applyingSystemBack
    {
      previousScreen := HOME;
      screenHistory := [];
      applyingSystemBack := false;
      screen := HOME;
      ScreenEffect();
    }
  }

  // ---------------------------------------------------------------- the ideal trail

  datatype Event = Open(target: Screen) | Back(overlay: Overlay) | SwitchUser

  function Step(n: Navigation, e: Event): Navigation {
    match e
    case Open(target) => Opened(n, target)
    case Back(o) => if Unobstructed(n, o) then WentBack(n) else n
    case SwitchUser => Launched
  }

  function Run(events: seq<Event>): Navigation {
    if events == [] then Launched else Step(Run(events[..|events| - 1]), events[|events| - 1])
  }

  /** Where the ideal back button leads: the end of the trail, which home has none of. */
  function TrailTarget(trail: seq<Screen>): Screen {
    if trail == [] then HOME else trail[|trail| - 1]
  }

  /** The screens left behind since home, and the most there have been at once. */
  datatype Ideal = Ideal(trail: seq<Screen>, peak: nat)

  /** The trail follows the screens that the application shows: `from` before the event and `to` after it. */
  function Follow(i: Ideal, e: Event, from: Screen, to: Screen): Ideal {
    if from == to then i
    else if to == HOME then Ideal([], 0)
    else if e.Back? then i.(trail := if i.trail == [] then [] else i.trail[..|i.trail| - 1])
    else Ideal(i.trail + [from], if |i.trail| + 1 > i.peak then |i.trail| + 1 else i.peak)
  }

  function IdealRun(events: seq<Event>): Ideal {
    if events == [] then Ideal([], 0) else
      var before := events[..|events| - 1];
      Follow(IdealRun(before), events[|events| - 1], Run(before).screen, Run(events).screen)
  }

  /** How many of the oldest entries the bound has made the history forget. */
  function Forgotten(i: Ideal): nat {
    if i.peak <= LIMIT then 0 else i.peak - LIMIT
  }

  /** The history is the trail without its forgotten beginning. */
  ghost predicate Refines(n: Navigation, i: Ideal) {
    && Forgotten(i) <= |i.trail| <= i.peak
    && (i.trail == [] ==> i.peak == 0)
    && n.history == i.trail[Forgotten(i)..]
  }

  /** The entry at `k` is not home and differs from the one below it. */
  ghost predicate Parted(trail: seq<Screen>, k: int)
    requires 0 < k < |trail|
  {
    trail[k] != HOME && trail[k] != trail[k - 1]
  }

  /** The screen is settled, neighbours differ, and home is nowhere but at the bottom. */
  ghost predicate Settled(n: Navigation, i: Ideal) {
    && n.previous == n.screen && !n.applyingSystemBack
    && (n.screen == HOME <==> i.trail == [])
    && (i.trail != [] ==> i.trail[0] == HOME && i.trail[|i.trail| - 1] != n.screen)
    && (forall k :: 0 < k < |i.trail| ==> Parted(i.trail, k))
  }

  ghost predicate Good(n: Navigation, i: Ideal) {
    Refines(n, i) && Settled(n, i) && |n.history| <= LIMIT
  }

  /** Pushing a screen and forgetting the oldest beyond the bound is dropping what a longer trail has forgotten. */
  lemma PushRefines(n: Navigation, i: Ideal, target: Screen)
    requires Good(n, i) && n.screen != target && target != HOME
    ensures Refines(Opened(n, target), Follow(i, Open(target), n.screen, target))
    ensures |Opened(n, target).history| <= LIMIT
  {
    assert n.history + [n.screen] == (i.trail + [n.screen])[Forgotten(i)..];
  }

  lemma OpenRefines(n: Navigation, i: Ideal, target: Screen)
    requires Good(n, i)
    ensures Good(Opened(n, target), Follow(i, Open(target), n.screen, target))
  {
    if n.screen != target && target != HOME {
      PushRefines(n, i, target);
      var now := i.trail + [n.screen];
      forall k | 0 < k < |now| ensures Parted(now, k) {
        assert k < |i.trail| ==> Parted(i.trail, k);
      }
    }
  }

  lemma BackRefines(n: Navigation, i: Ideal, o: Overlay)
    requires Good(n, i) && n.screen != HOME
    ensures var m := WentBack(n); Good(m, Follow(i, Back(o), n.screen, m.screen)) && m.screen != n.screen
    ensures WentBack(n).screen == if n.history == [] then HOME else TrailTarget(i.trail)
  {
    var f, top := Forgotten(i), |i.trail| - 1;
    assert top > 0 ==> Parted(i.trail, top);
    forall k | 0 < k < top ensures Parted(i.trail[..top], k) {
      assert Parted(i.trail, k);
    }
    if n.history != [] {
      assert n.history[|n.history| - 1] == i.trail[top];
      assert n.history[..|n.history| - 1] == i.trail[..top][f..];
    }
  }

  lemma {:induction false} RunRefines(events: seq<Event>)
    ensures Good(Run(events), IdealRun(events))
  {
    if events != [] {
      var before, e := events[..|events| - 1], events[|events| - 1];
      RunRefines(before);
      var n, i := Run(before), IdealRun(before);
      match e {
        case Open(target) => OpenRefines(n, i, target);
        case Back(o) => if Unobstructed(n, o) && n.screen != HOME { BackRefines(n, i, o); }
        case SwitchUser =>
      }
    }
  }

  /**
   The history never exceeds its bound and is exactly the ideal trail without the entries forgotten
   when the trail outgrew the bound; it is the whole trail when the trail never did.
   */
  lemma {:induction false} HistoryRefinesTrail(events: seq<Event>)
    ensures var n, i := Run(events), IdealRun(events);
            && |n.history| <= LIMIT
            && Forgotten(i) <= |i.trail| && n.history == i.trail[Forgotten(i)..]
            && (n.history == i.trail <==> i.peak <= LIMIT)
  {
    RunRefines(events);
  }

  /** A back press leads where the ideal one does exactly while the history is not empty, and home otherwise. */
  lemma {:induction false} BackAgreesWithTrail(events: seq<Event>, o: Overlay)
    requires Run(events).screen != HOME && Unobstructed(Run(events), o)
    ensures var n, i, m := Run(events), IdealRun(events), Run(events + [Back(o)]);
            && (n.history != [] ==> m.screen == TrailTarget(i.trail))
            && (n.history == [] ==> m.screen == HOME && (TrailTarget(i.trail) == HOME <==> |i.trail| == 1))
  {
    RunRefines(events);
    var trail := IdealRun(events).trail;
    assert |trail| > 1 ==> Parted(trail, |trail| - 1);
    BackRefines(Run(events), IdealRun(events), o);
    RunAppend(events, Back(o));
  }

  const Clear := Overlay(false, false, false, false, false)

  /** The run goes on with that many unobstructed back presses. */
  function WithBacks(events: seq<Event>, k: nat): seq<Event> {
    if k == 0 then events else WithBacks(events, k - 1) + [Back(Clear)]
  }

  /** Away from home, the press leads elsewhere than the ideal one. */
  predicate NextBackDisagrees(events: seq<Event>) {
    && Run(events).screen != HOME
    && Run(events + [Back(Clear)]).screen != TrailTarget(IdealRun(events).trail)
  }

  lemma DisagreesIff(events: seq<Event>)
    ensures NextBackDisagrees(events) <==> Run(events).history == [] && |IdealRun(events).trail| >= 2
  {
    RunRefines(events);
    if Run(events).screen != HOME {
      BackAgreesWithTrail(events, Clear);
      var trail := IdealRun(events).trail;
      assert |trail| > 1 ==> Parted(trail, |trail| - 1);
    }
  }

  lemma OneBack(events: seq<Event>)
    requires Run(events).history != []
    ensures var n, i, all := Run(events), IdealRun(events), events + [Back(Clear)];
            && Run(all).history == n.history[..|n.history| - 1]
            && |IdealRun(all).trail| == |i.trail| - 1
  {
    RunRefines(events);
    BackOnce(Run(events), IdealRun(events));
    RunAppend(events, Back(Clear));
  }

  lemma RunAppend(events: seq<Event>, e: Event)
    ensures Run(events + [e]) == Step(Run(events), e)
    ensures IdealRun(events + [e]) == Follow(IdealRun(events), e, Run(events).screen, Run(events + [e]).screen)
  {
    assert (events + [e])[..|events|] == events;
  }

  lemma BackOnce(n: Navigation, i: Ideal)
    requires Good(n, i) && n.history != []
    ensures var m := WentBack(n);
            && m.history == n.history[..|n.history| - 1]
            && |Follow(i, Back(Clear), n.screen, m.screen).trail| == |i.trail| - 1
  {
    BackRefines(n, i, Clear);
    var top := |i.trail| - 1;
    assert top > 0 ==> Parted(i.trail, top);
  }

  /** Press by press, history and trail get shorter together until the history is empty. */
  lemma {:induction false} BacksShorten(events: seq<Event>, k: nat)
    requires k <= |Run(events).history|
    ensures |Run(WithBacks(events, k)).history| == |Run(events).history| - k
    ensures |IdealRun(WithBacks(events, k)).trail| == |IdealRun(events).trail| - k
  {
    if k > 0 {
      BacksShorten(events, k - 1);
      BackShortens(WithBacks(events, k - 1), WithBacks(events, k));
    }
  }

  lemma BackShortens(events: seq<Event>, all: seq<Event>)
    requires Run(events).history != [] && all == events + [Back(Clear)]
    ensures |Run(all).history| == |Run(events).history| - 1
    ensures |IdealRun(all).trail| == |IdealRun(events).trail| - 1
  {
    OneBack(events);
  }

  lemma {:induction false} BacksStayHome(events: seq<Event>, k: nat)
    requires Run(events).screen == HOME
    ensures Run(WithBacks(events, k)).screen == HOME
  {
    if k > 0 {
      var before := WithBacks(events, k - 1);
      BacksStayHome(events, k - 1);
      assert (before + [Back(Clear)])[..|before|] == before;
    }
  }

  lemma {:induction false} BacksJoin(events: seq<Event>, j: nat, k: nat)
    ensures WithBacks(events, j + k) == WithBacks(WithBacks(events, j), k)
  {
    if k > 0 {
      BacksJoin(events, j, k - 1);
    }
  }

  /** Once the history is used up one more press is at home, and the presses after it do nothing. */
  lemma AfterLastBack(events: seq<Event>, k: nat)
    requires k > |Run(events).history|
    ensures Run(WithBacks(events, k)).screen == HOME
  {
    var n := |Run(events).history|;
    BacksShorten(events, n);
    var last := WithBacks(events, n);
    LastBackIsHome(last);
    BacksStayHome(last + [Back(Clear)], k - n - 1);
    BacksJoin(events, n + 1, k - n - 1);
  }

  lemma LastBackIsHome(events: seq<Event>)
    requires Run(events).history == []
    ensures Run(events + [Back(Clear)]).screen == HOME
  {
    if Run(events).screen != HOME {
      BackAgreesWithTrail(events, Clear);
    } else {
      RunAppend(events, Back(Clear));
    }
  }

  /**
   Going back from a state, some press leads elsewhere than the ideal one if and only if the bound has
   forgotten at least two entries: home, where the last press goes anyway, and one more.
   */
  lemma {:induction false} SomeBackDisagreesIff(events: seq<Event>)
    ensures (exists k :: k >= 0 && NextBackDisagrees(WithBacks(events, k))) <==> Forgotten(IdealRun(events)) >= 2
  {
    RunRefines(events);
    var n := |Run(events).history|;
    BacksShorten(events, n);
    DisagreesIff(WithBacks(events, n));
    forall k | k >= 0 && NextBackDisagrees(WithBacks(events, k)) ensures k == n {
      if k < n {
        BacksShorten(events, k);
        DisagreesIff(WithBacks(events, k));
      } else if k > n {
        AfterLastBack(events, k);
      }
    }
  }

  /** `n` screens opened from home, two by turns. */
  lemma {:induction false} OpenedByTurns(n: nat) returns (events: seq<Event>)
    ensures |IdealRun(events).trail| == IdealRun(events).peak == n
  {
    if n == 0 {
      events := [];
    } else {
      var before := OpenedByTurns(n - 1);
      var target := if Run(before).screen == "social" then "profile" else "social";
      assert "social"[0] != "profile"[0] && "social"[0] != HOME[0] && "profile"[0] != HOME[0];
      OpenGrows(before, target);
      events := before + [Open(target)];
    }
  }

  lemma OpenGrows(events: seq<Event>, target: Screen)
    requires Run(events).screen != target && target != HOME && IdealRun(events).peak == |IdealRun(events).trail|
    ensures var all, n := events + [Open(target)], |IdealRun(events).trail|;
            Run(all).screen == target && |IdealRun(all).trail| == n + 1 && IdealRun(all).peak == n + 1
  {
    RunAppend(events, Open(target));
    OpenShows(Run(events), target);
  }

  lemma OpenShows(n: Navigation, target: Screen)
    ensures Opened(n, target).screen == target
  {
  }

  /** 26 screens opened and 24 presses: the next one goes home, past a screen that was visited before. */
  lemma BackCanDisagree() returns (events: seq<Event>)
    ensures Run(events).screen != HOME && Run(events).history == []
    ensures TrailTarget(IdealRun(events).trail) != HOME && Run(events + [Back(Clear)]).screen == HOME
  {
    var there := OpenedByTurns(26);
    RunRefines(there);
    BacksShorten(there, 24);
    events := WithBacks(there, 24);
    RunRefines(events);
    assert Parted(IdealRun(events).trail, 1);
    BackAgreesWithTrail(events, Clear);
  }

  /**
   Between events no back is being applied, neighbours on the way back differ (so the handler's fallback
   for a previous screen equal to the current one is dead), home is at most the bottom entry, and home
   has no history.
   */
  lemma {:induction false} SettledBetweenEvents(events: seq<Event>)
    ensures var n := Run(events);
            && !n.applyingSystemBack && n.previous == n.screen
            && (n.screen == HOME ==> n.history == [])
            && (n.history != [] ==> n.history[|n.history| - 1] != n.screen)
            && (forall k :: 0 < k < |n.history| ==> Parted(n.history, k))
  {
    RunRefines(events);
    var n, i := Run(events), IdealRun(events);
    forall k | 0 < k < |n.history| ensures Parted(n.history, k) {
      assert Parted(i.trail, Forgotten(i) + k);
    }
  }

  function Presses(n: Navigation, count: nat): Navigation
    decreases count
  {
    if count == 0 then n else Presses(WentBack(n), count - 1)
  }

  /** Home is reached after one press for each entry, and one more when home itself was forgotten. */
  function PressesToHome(n: Navigation): nat {
    if n.screen == HOME then 0
    else if n.history != [] && n.history[0] == HOME then |n.history|
    else |n.history| + 1
  }

  /** Pressing back reaches home after exactly that many presses, and no sooner. */
  lemma {:induction false} BackReachesHome(n: Navigation, i: Ideal, count: nat)
    requires Good(n, i)
    ensures Presses(n, count).screen == HOME <==> count >= PressesToHome(n)
    decreases count
  {
    if count > 0 {
      if n.screen != HOME {
        BackRefines(n, i, Clear);
        var m := WentBack(n);
        BackReachesHome(m, Follow(i, Back(Clear), n.screen, m.screen), count - 1);
        assert PressesToHome(n) == PressesToHome(m) + 1;
      } else {
        BackReachesHome(n, i, count - 1);
      }
    }
  }

  lemma {:induction false} RunThenBackReachesHome(events: seq<Event>, count: nat)
    ensures Presses(Run(events), count).screen == HOME <==> count >= PressesToHome(Run(events))
    ensures PressesToHome(Run(events)) <= |Run(events).history| + 1
  {
    RunRefines(events);
    BackReachesHome(Run(events), IdealRun(events), count);
  }
}
