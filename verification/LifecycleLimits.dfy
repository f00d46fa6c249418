/**
 Where the capture service keeps less than its comments promise: runs that show
 it, for the conditions that LifecycleStarts and LifecycleHistory make exact.
 */
module LifecycleLimits {
  import opened Lifecycle
  import opened LifecycleSafety
  import opened LifecyclePairs
  import opened LifecycleStarts
  import opened LifecycleHistory

  // ----- Runs, leg by leg --------------------------------------------------------------------------

  /** The threads alone can get from one state to the other. */
  ghost predicate Reaches(s: State, t: State) { exists es :: ThreadsOnly(es) && Run(s, es) == t }

  lemma Nowhere(s: State)
    ensures Reaches(s, s)
  {
    assert ThreadsOnly([]) && Run(s, []) == s;
  }

  lemma Onwards(s: State, t: State, u: State)
    requires Reaches(s, t) && Reaches(t, u)
    ensures Reaches(s, u)
  {
    var a :| ThreadsOnly(a) && Run(s, a) == t;
    var b :| ThreadsOnly(b) && Run(t, b) == u;
    RunConcat(s, a, b);
    assert ThreadsOnly(a + b);
  }

  lemma OneStep(s: State, t: State, e: Event)
    requires Reaches(s, t) && !e.Begin?
    ensures Reaches(s, Step(t, e))
  {
    assert [e][1..] == [];
    assert ThreadsOnly([e]) && Run(t, [e]) == Step(t, e);
    Onwards(s, t, Step(t, e));
  }

  /** A step of the main thread that is answered with success, and of the others. */
  lemma Main(s: State, t: State) returns (u: State)
    requires Reaches(s, t)
    ensures u == Advance(t, Ok) && Reaches(s, u)
  {
    OneStep(s, t, MainStep(Ok));
    u := Advance(t, Ok);
  }

  lemma Cap(s: State, t: State, a: Answer) returns (u: State)
    requires Reaches(s, t)
    ensures u == Capture(t, a) && Reaches(s, u)
  {
    OneStep(s, t, CapStep(a));
    u := Capture(t, a);
  }

  lemma Vs(s: State, t: State, a: Answer) returns (u: State)
    requires Reaches(s, t)
    ensures u == Vsync(t, a) && Reaches(s, u)
  {
    OneStep(s, t, VsStep(a));
    u := Vsync(t, a);
  }

  /** The service with nothing running, and as starting it leaves it. */
  predicate Resting(s: State) {
    && !s.service.running && !s.cap.asked && !s.link.flag && s.cap.at == NoCap && s.link.at == NoConn
    && s.sync.at == NoVs && !s.sync.flag && !s.ui.on && !s.video.on
  }

  function Begun(s: State): State {
    s.(main := Idle, service := s.service.(running := true),
       cap := s.cap.(asked := true, at := ReinitUi, count := Created(s.cap.count)),
       link := s.link.(flag := true, at := ConnTest, count := Created(s.link.count)))
  }

  lemma StartLeg(s: State)
    requires Resting(s) && s.main == StartTest
    ensures Reaches(s, Begun(s))
  {
    Nowhere(s);
    var t := Main(s, s);
    t := Main(s, t);
    t := Main(s, t);
    assert t == s.(main := StartCap, service := s.service.(running := true), cap := s.cap.(asked := true));
    StartLegEnds(s, t);
  }

  lemma StartLegEnds(s: State, t: State)
    requires Reaches(s, t) && t.main == StartCap && Resting(s)
    requires t == s.(main := StartCap, service := s.service.(running := true), cap := s.cap.(asked := true))
    ensures Reaches(s, Begun(s))
  {
    var u := Main(s, t);
    u := Main(s, u);
    u := Main(s, u);
  }

  /** Setting up with one candidate for one of the backends, which loads. */
  lemma SetupLeg(s: State, restart: bool)
    requires s.main == InitState(restart) && Resting(s)
    requires var st := s.service.settings;
      if st.noGui then !st.noVideo && st.videoCandidates == 1 else st.noVideo && st.uiCandidates == 1
    ensures var st := s.service.settings;
      Reaches(s, s.(main := if restart then StartTest else Idle, sync := s.sync.(vsync := st.vsync),
                    ui := if st.noGui then s.ui.(present := false) else Loaded(s.ui.(present := false)),
                    video := if st.noVideo then s.video.(present := false) else Loaded(s.video.(present := false))))
  {
    Nowhere(s);
    var t := Main(s, s);
    t := Main(s, t);
    t := Main(s, t);
  }

  /** The capture thread from its creation into its loop; backends that are down stay down. */
  lemma EnterLoopLeg(s: State)
    requires s.cap.at == ReinitUi
    ensures Reaches(s, s.(cap := s.cap.(at := Test),
                          sync := s.sync.(flag := true, at := VsTest, count := Created(s.sync.count))))
  {
    Nowhere(s);
    var t := Cap(s, s, Failed);
    t := Cap(s, t, Failed);
    t := Cap(s, t, Failed);
  }

  /** A stop, told to everyone. */
  lemma StopLegBegins(s: State)
    requires s.main == StopTest(Return) && s.service.running && s.cap.asked && s.link.flag
    ensures Reaches(s, s.(main := StopJoinCap(Return), cap := s.cap.(asked := false), link := s.link.(flag := false)))
  {
    Nowhere(s);
    var t := Main(s, s);
    t := Main(s, t);
    t := Main(s, t);
  }

  lemma LeaveLoopLeg(s: State)
    requires s.cap.at == Test && !s.cap.asked && s.sync.flag && s.sync.at == VsTest
    ensures Reaches(s, s.(cap := s.cap.(at := EndUi),
                          sync := s.sync.(flag := false, at := NoVs, count := Joined(s.sync.count))))
  {
    Nowhere(s);
    var t := Cap(s, s, Ok);
    t := Cap(s, t, Ok);
    t := Vs(s, t, Ok);
    t := Cap(s, t, Ok);
  }

  lemma CleanLeg(s: State)
    requires s.cap.at == EndUi && !s.ui.on && !s.video.on
    ensures Reaches(s, s.(cap := s.cap.(at := CapDone), ui := Destroyed(s.ui), video := Destroyed(s.video)))
  {
    Nowhere(s);
    var t := Cap(s, s, Ok);
    t := Cap(s, t, Ok);
    t := Cap(s, t, Ok);
    t := Cap(s, t, Ok);
  }

  function Rested(s: State): State {
    s.(main := Idle, service := s.service.(running := false),
       cap := s.cap.(at := NoCap, count := Joined(s.cap.count)),
       link := s.link.(at := NoConn, count := Joined(s.link.count)))
  }

  lemma JoinLeg(s: State)
    requires s.main == StopJoinCap(Return) && s.cap.at == CapDone && s.link.at == ConnTest && !s.link.flag
    ensures Reaches(s, Rested(s))
  {
    Nowhere(s);
    OneStep(s, s, ConnStep(Ok));
    var t := Step(s, ConnStep(Ok));
    t := Main(s, t);
    t := Main(s, t);
    t := Main(s, t);
  }

  /** What a start and a stop leave behind: both backends cleaned up, everyone joined. */
  function Stopped(s: State): State {
    s.(main := Idle, service := s.service.(running := false),
       cap := s.cap.(asked := false, at := NoCap, count := Joined(s.cap.count)),
       link := s.link.(flag := false, at := NoConn, count := Joined(s.link.count)),
       sync := s.sync.(count := Joined(Created(s.sync.count))),
       ui := Destroyed(s.ui), video := Destroyed(s.video))
  }

  lemma StopLeg(s: State)
    requires s.main == StopTest(Return) && s.service.running && s.cap.asked && s.link.flag
    requires s.cap.at == ReinitUi && s.link.at == ConnTest && s.sync.at == NoVs && !s.sync.flag
    requires !s.ui.on && !s.video.on
    ensures Reaches(s, Stopped(s))
  {
    StopLegBegins(s);
    var t := s.(main := StopJoinCap(Return), cap := s.cap.(asked := false), link := s.link.(flag := false));
    EnterLoopLeg(t);
    var u := t.(cap := t.cap.(at := Test), sync := t.sync.(flag := true, at := VsTest, count := Created(t.sync.count)));
    Onwards(s, t, u);
    LeaveLoopLeg(u);
    var v := u.(cap := u.cap.(at := EndUi), sync := u.sync.(flag := false, at := NoVs, count := Joined(u.sync.count)));
    Onwards(s, u, v);
    CleanLeg(v);
    var w := v.(cap := v.cap.(at := CapDone), ui := Destroyed(v.ui), video := Destroyed(v.video));
    Onwards(s, v, w);
    JoinLeg(w);
    Onwards(s, w, Rested(w));
    assert Rested(w) == Stopped(s);
  }

  // ----- Histories, leg by leg -----------------------------------------------------------------------

  /** Some run, with callbacks, leads from one trace to the other. */
  ghost predicate Leads(h: Trace, g: Trace) { exists es :: History(h, es) == g }

  lemma {:induction false} HistoryConcat(h: Trace, a: seq<Event>, b: seq<Event>)
    ensures History(h, a + b) == History(History(h, a), b)
    decreases |a|
  {
    hide Follow;
    if a == [] {
      assert a + b == b;
    } else {
      assert (a + b)[1..] == a[1..] + b;
      HistoryConcat(Follow(h, a[0]), a[1..], b);
    }
  }

  lemma LeadsOn(h: Trace, g: Trace, k: Trace)
    requires Leads(h, g) && Leads(g, k)
    ensures Leads(h, k)
  {
    var a :| History(h, a) == g;
    var b :| History(g, b) == k;
    HistoryConcat(h, a, b);
  }

  /** All that is entered is by one and the same. */
  predicate AddedBy(before: seq<Entry>, after: seq<Entry>, who: Kind) {
    before <= after && forall i :: |before| <= i < |after| ==> after[i].who == who
  }

  lemma {:induction false} ThreadsAdd(h: Trace, es: seq<Event>)
    requires ThreadsOnly(es)
    ensures var g := History(h, es); g.who == h.who && g.tv == h.tv && AddedBy(h.log, g.log, h.who)
    decreases |es|
  {
    hide Step, BeginEntries, TvAfter;
    if es != [] {
      ThreadsAdd(Follow(h, es[0]), es[1..]);
    }
  }

  /** A leg of a run, with its history. */
  lemma Along(o: Trace, h: Trace, t: State) returns (g: Trace)
    requires Leads(o, h) && Reaches(h.now, t)
    ensures Leads(o, g) && g.now == t && g.who == h.who && g.tv == h.tv && AddedBy(h.log, g.log, h.who)
  {
    var es :| ThreadsOnly(es) && Run(h.now, es) == t;
    g := History(h, es);
    HistoryIsRun(h, es);
    ThreadsAdd(h, es);
    LeadsOn(o, h, g);
  }

  lemma Calls(o: Trace, h: Trace, cb: Callback) returns (g: Trace)
    requires Leads(o, h)
    ensures Leads(o, g) && g == Follow(h, Begin(cb))
  {
    var one := [Begin(cb)];
    assert one[1..] == [];
    g := Follow(h, one[0]);
    assert History(g, one[1..]) == g;
    assert History(h, one) == g;
    LeadsOn(o, h, g);
  }

  /** If all that was added made up for a stop, whoever added it stopped last. */
  lemma {:induction false} StopperIs(before: seq<Entry>, after: seq<Entry>, who: Kind)
    requires AddedBy(before, after, who) && Up(before) && !Up(after)
    ensures StoppedLastBy(after, who)
    decreases |after|
  {
    assert |before| == |after| ==> before == after;
    if |before| < |after| && !after[|after| - 1].what.Stopped? {
      StopperIs(before, after[..|after| - 1], who);
    }
  }

  // ----- Started once, stopped, and started again -----------------------------------------------------

  function UiOnly(): Settings { Settings(false, true, false, 1, 0, 5, [], []) }

  /** Set up, with its UI backend, and started once. */
  function UiStarted(): State {
    var c := Count(1, 0);
    State(Idle, Service(UiOnly(), true, false, false, false), Capturer(true, ReinitUi, c),
          Syncer(false, false, NoVs, Count(0, 0)), Link(true, false, ConnTest, c),
          Backend(true, true, false, [Init]), UNLOADED)
  }

  lemma UiStartedReachable()
    ensures Reaches(Boot(UiOnly(), true), UiStarted())
  {
    var s := Boot(UiOnly(), true);
    SetupLeg(s, true);
    var t := s.(main := StartTest, sync := s.sync.(vsync := false), ui := Loaded(s.ui.(present := false)),
                video := s.video.(present := false));
    StartLeg(t);
    assert UNLOADED.log + [Init] == [Init];
    assert Begun(t) == UiStarted();
    Onwards(s, t, UiStarted());
  }

  function UiOrigin(): Trace { Origin(UiOnly(), true) }

  lemma FirstStart() returns (h: Trace)
    ensures Leads(UiOrigin(), h) && h.now == UiStarted() && h.tv == TvOn
  {
    UiStartedReachable();
    assert History(UiOrigin(), []) == UiOrigin();
    h := Along(UiOrigin(), UiOrigin(), UiStarted());
  }

  /** What every trace that a run leads to is known by. */
  lemma LedIsKnown(h: Trace)
    requires Leads(UiOrigin(), h)
    ensures Known(h)
  {
    hide Known, Threads;
    var es :| History(UiOrigin(), es) == h;
    OriginIsKnown(UiOnly(), true);
    HistoryIsKnown(UiOrigin(), es);
  }

  /** Running, with the capture thread not yet in its loop and no backend started. */
  predicate Fresh(s: State) {
    && s.main == Idle && s.service.running && s.cap.asked && s.link.flag && s.cap.at == ReinitUi
    && s.link.at == ConnTest && s.sync.at == NoVs && !s.sync.flag && !s.ui.on && !s.video.on
  }

  /** A callback that stops the capture, carried out. */
  lemma StopIt(h: Trace, stop: Callback) returns (g: Trace)
    requires Leads(UiOrigin(), h) && Fresh(h.now)
    requires var u := BeginCallback(h.now, stop);
      u == h.now.(main := StopTest(Return), service := u.service) && u.service.running
    ensures Leads(UiOrigin(), g) && g.now == Stopped(BeginCallback(h.now, stop))
    ensures StoppedLastBy(g.log, KindOf(stop)) && g.tv == TvAfter(h, stop)
  {
    hide Known, Open, Up, Alternates, StoppedLastBy, TvAfter;
    var u := Calls(UiOrigin(), h, stop);
    assert u.now == BeginCallback(h.now, stop) && u.who == KindOf(stop);
    StopLeg(u.now);
    g := Along(UiOrigin(), u, Stopped(u.now));
    LedIsKnown(u);
    LedIsKnown(g);
    WasUp(u);
    IsDown(g);
    StopperIs(u.log, g.log, u.who);
  }

  lemma WasUp(h: Trace)
    requires Known(h) && h.now.main == StopTest(Return) && h.now.service.running
    ensures Up(h.log)
  {
  }

  lemma IsDown(h: Trace)
    requires Known(h) && h.now.main == Idle && !h.now.service.running
    ensures !Up(h.log)
  {
  }

  /** The start method, carried out. */
  lemma StartIt(h: Trace) returns (g: Trace)
    requires Leads(UiOrigin(), h) && Resting(h.now) && h.now.main == Idle
    ensures Leads(UiOrigin(), g) && g.now == Begun(h.now.(main := StartTest)) && g.tv == h.tv
  {
    var u := Calls(UiOrigin(), h, StartMethod);
    assert u.now == h.now.(main := StartTest);
    StartLeg(u.now);
    g := Along(UiOrigin(), u, Begun(u.now));
  }

  /** Paused with the television, then started by hand: the service runs, and switching off stops it no more. */
  lemma RunsThroughPowerOff()
    ensures exists h :: Leads(UiOrigin(), h) && h.now.main.Idle? && h.now.service.running
                        && BeginCallback(h.now, Power(false, false)) == h.now
  {
    var h := FirstStart();
    h := StopIt(h, Power(false, false));
    h := StartIt(h);
    assert h.now.service.powerPaused;
    assert BeginCallback(h.now, Power(false, false)) == h.now;
  }

  /** Paused with the television, started and stopped by hand: switching on resumes what the user stopped. */
  lemma PowerUndoesUsersStop()
    ensures exists h :: Leads(UiOrigin(), h) && StoppedLastBy(h.log, ByHand)
                        && BeginCallback(h.now, Power(true, false)).main == StartTest
  {
    hide StoppedLastBy;
    var h := FirstStart();
    h := StopIt(h, Power(false, false));
    h := StartIt(h);
    h := StopIt(h, StopMethod);
    assert h.now.main == Idle && h.now.service.powerPaused && h.now.ui.present && !h.now.service.running;
    assert BeginCallback(h.now, Power(true, false)).main == StartTest;
  }

  /** Paused in a bright room, started and stopped by hand: the dark starts what the user stopped. */
  lemma SensorUndoesUsersStop()
    ensures exists h :: Leads(UiOrigin(), h) && StoppedLastBy(h.log, ByHand)
                        && BeginCallback(h.now, Sensor(0)).main == StartTest
  {
    hide StoppedLastBy;
    var h := FirstStart();
    h := StopIt(h, Sensor(9));
    h := StartIt(h);
    h := StopIt(h, StopMethod);
    assert h.now.main == Idle && h.now.service.lumenPaused && !h.now.service.powerPaused && !h.now.service.running;
    assert BeginCallback(h.now, Sensor(0)).main == StartTest;
  }

  /** Paused in a bright room, then the television is switched off: the dark starts the capture all the same. */
  lemma SensorStartsWhileOff()
    ensures exists h :: Leads(UiOrigin(), h) && h.tv == OffMissed && BeginCallback(h.now, Sensor(0)).main == StartTest
  {
    hide StoppedLastBy, Open;
    var h := FirstStart();
    h := StopIt(h, Sensor(9));
    LedIsKnown(h);
    assert h.now.main == Idle && !h.now.service.running && !h.now.service.powerPaused && !Open(h.log, ByPower);
    h := Calls(UiOrigin(), h, Power(false, false));
    assert h.tv == OffMissed;
    assert BeginCallback(h.now, Sensor(0)).main == StartTest;
  }

  // ----- Starting what is not initialised ------------------------------------------------------------

  /** Stopped and started again; this time the backend fails to initialise, and is started all the same. */
  lemma StartedUninitialised()
    ensures exists h :: Leads(UiOrigin(), h) && !h.now.ui.initialized && h.now.ui.log == [Init, Cleanup, Start]
  {
    var h := FirstStart();
    h := StopIt(h, StopMethod);
    h := StartIt(h);
    var u := h.now;
    assert u.ui == Backend(true, false, false, [Init, Cleanup]) by {
      assert [Init] + [Cleanup] == [Init, Cleanup];
    }
    EnterLoopLeg(u);
    var v := u.(cap := u.cap.(at := Test), sync := u.sync.(flag := true, at := VsTest, count := Created(u.sync.count)));
    var t := StartDownBackend(u, v);
    h := Along(UiOrigin(), h, t);
  }

  lemma StartDownBackend(s: State, v: State) returns (t: State)
    requires Reaches(s, v) && v.cap.at == Test && v.cap.asked && v.ui == Backend(true, false, false, [Init, Cleanup])
    ensures Reaches(s, t) && !t.ui.initialized && t.ui.log == [Init, Cleanup, Start]
  {
    t := Cap(s, v, Ok);
    t := Cap(s, t, Ok);
    assert t.ui.log == [Init, Cleanup] + [Start] == [Init, Cleanup, Start];
  }

  // ----- Starting again what has failed to start ------------------------------------------------------

  /** In some run from here on the UI backend is started again after a failed start, without an init. */
  ghost predicate MayRetry(s: State, due: bool) { exists es :: CallsAgain(s, es, UiSide, due) }

  lemma Earlier(s: State, e: Event, due: bool)
    requires MayRetry(Step(s, e), FailedStart(s, e, UiSide, due))
    ensures MayRetry(s, due)
  {
    hide Step, FailedStart, StartIsCalled;
    var es :| CallsAgain(Step(s, e), es, UiSide, FailedStart(s, e, UiSide, due));
    assert ([e] + es)[0] == e && ([e] + es)[1..] == es;
    assert CallsAgain(s, [e] + es, UiSide, due);
  }

  lemma {:induction false} EarlierYet(s: State, es: seq<Event>, due: bool)
    requires forall d :: MayRetry(Run(s, es), d)
    ensures MayRetry(s, due)
    decreases |es|
  {
    hide Step, FailedStart, MayRetry;
    if es == [] {
      assert MayRetry(Run(s, es), due);
    } else {
      forall d ensures MayRetry(Run(Step(s, es[0]), es[1..]), d) {
        assert MayRetry(Run(s, es), d);
      }
      EarlierYet(Step(s, es[0]), es[1..], FailedStart(s, es[0], UiSide, due));
      Earlier(s, es[0], due);
    }
  }

  lemma OneSecondLater(s: State)
    requires s.cap.at == TryUi && s.ui.present && !s.ui.on
    ensures MayRetry(s, true)
  {
    assert CallsAgain(s, [CapStep(Ok)], UiSide, true);
  }

  /** Round the loop, woken by the signal. */
  lemma RoundLeg(s: State)
    requires s.cap.at == TryVideo && s.cap.asked && s.ui.present && !s.ui.on && s.sync.at == VsTest && s.sync.flag
    ensures MayRetry(s, true)
  {
    var t0 := Step(s, CapStep(Skip));
    var t1 := Step(t0, VsStep(Skip));
    var t2 := Step(t1, VsStep(Skip));
    var t3 := Step(t2, VsStep(Skip));
    assert t3 == s.(cap := s.cap.(at := AcquireUi));
    AcquiredLeg(t3);
    Earlier(t2, VsStep(Skip), true);
    Earlier(t1, VsStep(Skip), true);
    Earlier(t0, VsStep(Skip), true);
    Earlier(s, CapStep(Skip), true);
  }

  lemma AcquiredLeg(s: State)
    requires s.cap.at == AcquireUi && s.cap.asked && s.ui.present && !s.ui.on
    ensures MayRetry(s, true)
  {
    var t0 := Step(s, CapStep(Skip));
    var t1 := Step(t0, CapStep(Skip));
    var t2 := Step(t1, CapStep(Skip));
    assert t2 == s.(cap := s.cap.(at := TryUi));
    OneSecondLater(t2);
    Earlier(t1, CapStep(Skip), true);
    Earlier(t0, CapStep(Skip), true);
    Earlier(s, CapStep(Skip), true);
  }

  /** A start fails, and about a second later start is called again on the same initialised backend. */
  lemma StartedAgainAfterFailure()
    ensures exists es :: !FailuresReopen(false, Attempts(Boot(UiOnly(), true), es, UiSide))
  {
    hide FailuresReopen, Attempts, CallsAgain;
    var s := UiStarted();
    UiStartedReachable();
    EnterLoopLeg(s);
    var v := s.(cap := s.cap.(at := Test), sync := s.sync.(flag := true, at := VsTest, count := Created(s.sync.count)));
    var u := Cap(s, v, Ok);
    forall due ensures MayRetry(u, due) {
      RoundLeg(Step(u, CapStep(Failed)));
      Earlier(u, CapStep(Failed), due);
    }
    Onwards(Boot(UiOnly(), true), s, u);
    var es :| ThreadsOnly(es) && Run(Boot(UiOnly(), true), es) == u;
    EarlierYet(Boot(UiOnly(), true), es, false);
    var all :| CallsAgain(Boot(UiOnly(), true), all, UiSide, false);
    EveryFailedStartReopens(UiOnly(), true, all, UiSide);
  }

  // ----- Two threads terminate one capture ------------------------------------------------------

  function VideoOnly(): Settings { Settings(true, false, true, 0, 1, 0, [], []) }

  /** Set up, started, and in its loop. */
  function Capturing(): State {
    var c := Count(1, 0);
    State(Idle, Service(VideoOnly(), true, false, false, false), Capturer(true, Test, c),
          Syncer(true, true, VsTest, c), Link(true, false, ConnTest, c),
          UNLOADED, Backend(true, true, false, [Init]))
  }

  lemma CapturingReachable()
    ensures Reaches(Boot(VideoOnly(), true), Capturing())
  {
    var s := Boot(VideoOnly(), true);
    SetupLeg(s, true);
    var t := s.(main := StartTest, sync := s.sync.(vsync := true), ui := s.ui.(present := false),
                video := Loaded(s.video.(present := false)));
    StartLeg(t);
    EnterLoopLeg(Begun(t));
    Onwards(s, t, Begun(t));
    assert UNLOADED.log + [Init] == [Init];
    Onwards(s, Begun(t), Capturing());
  }

  /** The video backend is started. */
  lemma StartVideoLeg(s: State)
    requires s.cap.at == Test && s.cap.asked && !s.ui.present && s.video.present && !s.video.on
    ensures Reaches(s, s.(cap := s.cap.(at := Wait), video := Called(s.video, Start).(on := true)))
  {
    Nowhere(s);
    var t := Cap(s, s, Ok);
    t := Cap(s, t, Ok);
    t := Cap(s, t, Ok);
  }

  /** The vsync thread signals, and the capture thread goes on. */
  lemma AcquireLeg(s: State)
    requires s.cap.at == Wait && s.sync.at == VsTest && s.sync.flag
    ensures Reaches(s, s.(cap := s.cap.(at := AcquireVideo)))
  {
    Nowhere(s);
    var t := Vs(s, s, Skip);
    t := Vs(s, t, Skip);
    t := Vs(s, t, Skip);
    t := Cap(s, t, Ok);
  }

  /** With vsync both threads call terminate: one capture is terminated twice. */
  lemma TerminatedTwice()
    ensures exists t :: Reaches(Boot(VideoOnly(), true), t)
                        && t.video.log == [Init, Start, Terminate, Terminate] && PhaseAfter(t.video.log) == Broken
  {
    hide PhaseAfter, Step;
    var s := Capturing();
    CapturingReachable();
    StartVideoLeg(s);
    var t := s.(cap := s.cap.(at := Wait), video := Called(s.video, Start).(on := true));
    AcquireLeg(t);
    var u := t.(cap := t.cap.(at := AcquireVideo));
    Onwards(s, t, u);
    assert u.video.log == [Init] + [Start] == [Init, Start];
    LastSteps(s, u);
  }

  lemma LastSteps(s: State, t: State)
    requires Reaches(s, t) && t.cap.at == AcquireVideo && t.sync.flag && t.sync.vsync && t.sync.at == VsTest
    requires t.video.on && t.video.log == [Init, Start] && Reaches(Boot(VideoOnly(), true), s)
    ensures exists u :: Reaches(Boot(VideoOnly(), true), u)
                        && u.video.log == [Init, Start, Terminate, Terminate] && PhaseAfter(u.video.log) == Broken
  {
    var u := Vs(s, t, Ok);
    u := Vs(s, u, Ok);
    u := Vs(s, u, Gone);
    u := Cap(s, u, Gone);
    assert u.sync.at == VsTerm && u.cap.at == TermVideo;
    u := Cap(s, u, Ok);
    u := Vs(s, u, Ok);
    assert u.video.log == [Init, Start, Terminate, Terminate];
    TwiceIsBroken();
    Onwards(Boot(VideoOnly(), true), s, u);
  }

  lemma TwiceIsBroken()
    ensures PhaseAfter([Init, Start, Terminate, Terminate]) == Broken
  {
    var none: seq<Call> := [];
    OneMore(none, Init);
    OneMore([Init], Start);
    OneMore([Init, Start], Terminate);
    OneMore([Init, Start, Terminate], Terminate);
    assert none + [Init] == [Init] && [Init] + [Start] == [Init, Start];
    assert [Init, Start] + [Terminate] == [Init, Start, Terminate];
    assert [Init, Start, Terminate] + [Terminate] == [Init, Start, Terminate, Terminate];
  }
}
