/**
 Calls into the backends come in pairs: every successful init is followed by
 exactly one cleanup before the next init, and every successful start by
 exactly one terminate before that cleanup.
 */
module LifecyclePairs {
  import opened Lifecycle
  import opened LifecycleSafety

  // ----- The protocol of a backend ---------------------------------------------------------

  datatype Phase = Broken | Phase(up: bool, on: bool)

  function Next(p: Phase, c: Call): Phase {
    match p
    case Broken => Broken
    case Phase(up, on) =>
      match c
      case Init => if up || on then Broken else Phase(true, false)
      case Cleanup => if !up || on then Broken else Phase(false, false)
      case Start => if on then Broken else Phase(up, true)
      case Terminate => if !on then Broken else Phase(up, false)
  }

  /** Where the calls so far leave a backend. */
  function PhaseAfter(log: seq<Call>): Phase {
    if log == [] then Phase(false, false) else Next(PhaseAfter(log[..|log| - 1]), log[|log| - 1])
  }

  lemma OneMore(log: seq<Call>, c: Call)
    ensures PhaseAfter(log + [c]) == Next(PhaseAfter(log), c)
  {
    assert (log + [c])[..|log|] == log;
  }

  lemma AnyMore(log: seq<Call>)
    ensures PhaseAfter(log + [Init]) == Next(PhaseAfter(log), Init)
    ensures PhaseAfter(log + [Cleanup]) == Next(PhaseAfter(log), Cleanup)
    ensures PhaseAfter(log + [Start]) == Next(PhaseAfter(log), Start)
    ensures PhaseAfter(log + [Terminate]) == Next(PhaseAfter(log), Terminate)
  {
    hide PhaseAfter;
    OneMore(log, Init);
    OneMore(log, Cleanup);
    OneMore(log, Start);
    OneMore(log, Terminate);
  }

  // ----- The UI backend ----------------------------------------------------------------------

  /** Places of the capture thread at which the UI capture may run. */
  predicate UiMayRun(c: Cap) { Looping(c) || c.JoinVsync? || c.EndUi? || c.EndUiClear? }

  /** Nothing is initialised while the main thread sets up anew. */
  predicate UiDown(m: Main) { m.DestroyVideo? || m.InitState? || m.InitUi? || m.Exited? }

  /** The capture thread has been waited for. */
  predicate JustJoined(m: Main) { m.StopJoinConn? || m.StopEnd? || m.UndoFlags? }

  /** The calls are paired; between a call to terminate and the flag, the call counts. */
  predicate UiPaired(b: Backend, c: Cap, m: Main) {
    && PhaseAfter(b.log) == Phase(b.initialized, b.on && !c.EndUiClear?)
    && (b.on ==> UiMayRun(c)) && (c.EndUiClear? ==> b.on)
    && (b.initialized ==> b.present && !UiDown(m) && !JustJoined(m) && !c.CleanVideo? && !c.CapDone?)
  }

  lemma SetupKeepsUi(s: State, a: Answer)
    requires SettingUp(s.main) && s.cap.at.NoCap? && UiPaired(s.ui, s.cap.at, s.main)
    ensures var t := AdvanceSetup(s, a); UiPaired(t.ui, t.cap.at, t.main)
  {
    hide PhaseAfter;
    AnyMore(s.ui.log);
  }

  lemma StopKeepsUi(s: State)
    requires Stopping(s.main) && UiPaired(s.ui, s.cap.at, s.main) && (s.main.StopUni? ==> s.cap.asked)
    ensures var t := AdvanceStop(s); UiPaired(t.ui, t.cap.at, t.main)
  {
    hide PhaseAfter;
  }

  lemma StartKeepsUi(s: State, a: Answer)
    requires !Stopping(s.main) && !SettingUp(s.main) && UiPaired(s.ui, s.cap.at, s.main)
    requires (s.main.StartCap? ==> s.cap.at.NoCap?) && (s.main.UndoUni? ==> s.cap.asked)
    ensures var t := Advance(s, a); UiPaired(t.ui, t.cap.at, t.main)
  {
    hide PhaseAfter;
  }

  lemma MainKeepsUi(s: State, a: Answer)
    requires Threads(s) && UiPaired(s.ui, s.cap.at, s.main)
    ensures var t := Advance(s, a); UiPaired(t.ui, t.cap.at, t.main)
  {
    hide VsyncNested, ConnectionEnds, Counted, UiPaired, AdvanceStop, AdvanceSetup, AdvanceUndo, AdvanceStart;
    if Stopping(s.main) {
      StopKeepsUi(s);
    } else if SettingUp(s.main) {
      SetupKeepsUi(s, a);
    } else {
      StartKeepsUi(s, a);
    }
  }

  lemma CapKeepsUi(s: State, a: Answer)
    requires (s.cap.at.NoCap? || (!UiDown(s.main) && !JustJoined(s.main))) && UiPaired(s.ui, s.cap.at, s.main)
    ensures var t := Capture(s, a); UiPaired(t.ui, t.cap.at, t.main)
  {
    hide PhaseAfter;
    AnyMore(s.ui.log);
  }

  lemma UiKept(s: State, e: Event)
    requires Threads(s) && UiPaired(s.ui, s.cap.at, s.main)
    ensures var t := Step(s, e); UiPaired(t.ui, t.cap.at, t.main)
  {
    hide VsyncNested, ConnectionEnds, Counted, PhaseAfter, Advance, Capture;
    match e
    case Begin(cb) => OthersKeepUi(s, e);
    case MainStep(a) => MainKeepsUi(s, a);
    case CapStep(a) => CapKeepsUi(s, a);
    case VsStep(a) => OthersKeepUi(s, e);
    case ConnStep(a) => OthersKeepUi(s, e);
  }

  lemma OthersKeepUi(s: State, e: Event)
    requires (e.Begin? || e.VsStep? || e.ConnStep?) && UiPaired(s.ui, s.cap.at, s.main)
    ensures var t := Step(s, e); UiPaired(t.ui, t.cap.at, t.main)
  {
    hide PhaseAfter;
  }

  // ----- The video backend, while only one thread is told that its capture is gone ---------------------

  /** The thread that is told, if any: the capture thread by acquire_frame, or the vsync thread by wait. */
  datatype Told = CapTold | VsTold

  /** The other thread is not told by this event. */
  predicate TellsOnly(s: State, e: Event, w: Told) {
    match w
    case CapTold => e == VsStep(Gone) ==> !s.sync.at.VsWait?
    case VsTold => e == CapStep(Gone) ==> !(s.cap.at.AcquireVideo? && s.video.on)
  }

  /** So the other thread never terminates the capture within the loop. */
  predicate OneSided(s: State, w: Told) {
    match w
    case CapTold => !s.sync.at.VsTerm? && !s.sync.at.VsClear?
    case VsTold => !s.cap.at.TermVideo? && !s.cap.at.ClearVideo? && (s.sync.at.VsWait? ==> s.video.on)
  }

  predicate VideoMayRun(c: Cap) {
    UiMayRun(c) || c.EndVideo? || c.EndVideoClear?
  }

  predicate VideoDown(m: Main) { m.InitState? || m.InitUi? || m.InitVideo? || m.Exited? }

  /** Between a call to terminate and the flag, the call counts, whichever thread made it. */
  predicate VideoPaired(b: Backend, c: Cap, v: Vs, m: Main) {
    && PhaseAfter(b.log) == Phase(b.initialized, b.on && !c.ClearVideo? && !c.EndVideoClear? && !v.VsClear?)
    && (b.on ==> VideoMayRun(c)) && (c.TermVideo? || c.ClearVideo? || c.EndVideoClear? ==> b.on)
    && (v.VsTerm? || v.VsClear? ==> b.on)
    && (b.initialized ==> b.present && !VideoDown(m))
  }

  predicate VideoKeeps(s: State, w: Told) { VideoPaired(s.video, s.cap.at, s.sync.at, s.main) && OneSided(s, w) }

  lemma SetupKeepsVideo(s: State, a: Answer, w: Told)
    requires SettingUp(s.main) && s.cap.at.NoCap? && s.sync.at.NoVs? && VideoKeeps(s, w)
    ensures VideoKeeps(AdvanceSetup(s, a), w)
  {
    hide PhaseAfter;
    AnyMore(s.video.log);
  }

  lemma StopKeepsVideo(s: State, w: Told)
    requires Stopping(s.main) && VideoKeeps(s, w)
    ensures VideoKeeps(AdvanceStop(s), w)
  {
    hide PhaseAfter;
  }

  lemma StartKeepsVideo(s: State, a: Answer, w: Told)
    requires !Stopping(s.main) && !SettingUp(s.main) && VideoKeeps(s, w)
    requires s.main.StartCap? ==> s.cap.at.NoCap?
    ensures VideoKeeps(Advance(s, a), w)
  {
    hide PhaseAfter;
  }

  lemma MainKeepsVideo(s: State, a: Answer, w: Told)
    requires Threads(s) && VideoKeeps(s, w)
    ensures VideoKeeps(Advance(s, a), w)
  {
    hide ConnectionEnds, Counted, VideoKeeps, AdvanceStop, AdvanceSetup, AdvanceUndo, AdvanceStart;
    if Stopping(s.main) {
      StopKeepsVideo(s, w);
    } else if SettingUp(s.main) {
      SetupKeepsVideo(s, a, w);
    } else {
      StartKeepsVideo(s, a, w);
    }
  }

  lemma LoopKeepsVideo(s: State, a: Answer, w: Told)
    requires (s.cap.at.NoCap? || !VideoDown(s.main)) && VsyncNested(s.cap, s.sync)
    requires !Ending(s.cap.at) && VideoKeeps(s, w) && TellsOnly(s, CapStep(a), w)
    ensures VideoKeeps(CaptureLoop(s, a), w)
  {
    hide PhaseAfter;
    AnyMore(s.video.log);
  }

  lemma EndKeepsVideo(s: State, w: Told)
    requires !VideoDown(s.main) && VsyncNested(s.cap, s.sync) && Ending(s.cap.at) && VideoKeeps(s, w)
    ensures VideoKeeps(CaptureEnd(s), w)
  {
    hide PhaseAfter;
    AnyMore(s.video.log);
  }

  lemma CapKeepsVideo(s: State, a: Answer, w: Told)
    requires (s.cap.at.NoCap? || !VideoDown(s.main)) && VsyncNested(s.cap, s.sync)
    requires VideoKeeps(s, w) && TellsOnly(s, CapStep(a), w)
    ensures VideoKeeps(Capture(s, a), w)
  {
    hide VideoKeeps, CaptureLoop, CaptureEnd, VsyncNested, TellsOnly;
    if Ending(s.cap.at) {
      EndKeepsVideo(s, w);
    } else {
      LoopKeepsVideo(s, a, w);
    }
  }

  lemma OthersKeepVideo(s: State, e: Event, w: Told)
    requires (e.Begin? || e.VsStep? || e.ConnStep?) && VsyncNested(s.cap, s.sync)
    requires VideoKeeps(s, w) && TellsOnly(s, e, w)
    ensures VideoKeeps(Step(s, e), w)
  {
    hide PhaseAfter;
    AnyMore(s.video.log);
  }

  lemma VideoKept(s: State, e: Event, w: Told)
    requires Threads(s) && VideoKeeps(s, w) && TellsOnly(s, e, w)
    ensures VideoKeeps(Step(s, e), w)
  {
    hide VsyncNested, ConnectionEnds, Counted, PhaseAfter, Advance, Capture, VideoKeeps;
    match e
    case Begin(cb) => OthersKeepVideo(s, e, w);
    case MainStep(a) => MainKeepsVideo(s, a, w);
    case CapStep(a) => CapKeepsVideo(s, a, w);
    case VsStep(a) => OthersKeepVideo(s, e, w);
    case ConnStep(a) => OthersKeepVideo(s, e, w);
  }

  /** Throughout the run only one of the two is told. */
  predicate RunTellsOnly(s: State, es: seq<Event>, w: Told)
    decreases |es|
  {
    es == [] || (TellsOnly(s, es[0], w) && RunTellsOnly(Step(s, es[0]), es[1..], w))
  }

  /** Without vsync the vsync thread only keeps time. */
  predicate Unsynced(s: State) { !s.service.settings.vsync && !s.sync.vsync && !s.sync.at.VsWait? }

  predicate LeavesUnsynced(e: Event) { e.Begin? && e.cb.SetSettings? ==> !e.cb.settings.vsync }

  lemma UnsyncedKept(s: State, e: Event)
    requires Unsynced(s) && LeavesUnsynced(e)
    ensures Unsynced(Step(s, e)) && TellsOnly(s, e, CapTold)
  {
  }

  lemma {:induction false} UnsyncedTellsOnly(s: State, es: seq<Event>)
    requires Unsynced(s) && forall i :: 0 <= i < |es| ==> LeavesUnsynced(es[i])
    ensures RunTellsOnly(s, es, CapTold)
    decreases |es|
  {
    hide Step, Unsynced, TellsOnly, LeavesUnsynced;
    if es != [] {
      UnsyncedKept(s, es[0]);
      UnsyncedTellsOnly(Step(s, es[0]), es[1..]);
    }
  }

  // ----- Init and cleanup of the video backend, with vsync or without -----------------------------------

  /** The calls that open and close a backend. */
  function Lives(log: seq<Call>): seq<Call> {
    if log == [] then []
    else
      var c := log[|log| - 1];
      if c.Init? || c.Cleanup? then Lives(log[..|log| - 1]) + [c] else Lives(log[..|log| - 1])
  }

  lemma LivesOneMore(log: seq<Call>, c: Call)
    ensures Lives(log + [c]) == if c.Init? || c.Cleanup? then Lives(log) + [c] else Lives(log)
  {
    assert (log + [c])[..|log|] == log;
  }

  predicate LifePaired(b: Backend, c: Cap, m: Main) {
    && PhaseAfter(Lives(b.log)) == Phase(b.initialized, false)
    && (b.initialized ==> b.present && !VideoDown(m) && !JustJoined(m) && !c.CapDone?)
  }

  lemma LivesMore(log: seq<Call>)
    ensures PhaseAfter(Lives(log + [Init])) == Next(PhaseAfter(Lives(log)), Init)
    ensures PhaseAfter(Lives(log + [Cleanup])) == Next(PhaseAfter(Lives(log)), Cleanup)
    ensures Lives(log + [Start]) == Lives(log) == Lives(log + [Terminate])
  {
    hide PhaseAfter, Lives;
    LivesOneMore(log, Init);
    LivesOneMore(log, Cleanup);
    LivesOneMore(log, Start);
    LivesOneMore(log, Terminate);
    OneMore(Lives(log), Init);
    OneMore(Lives(log), Cleanup);
  }

  lemma SetupKeepsLife(s: State, a: Answer)
    requires SettingUp(s.main) && s.cap.at.NoCap? && LifePaired(s.video, s.cap.at, s.main)
    ensures var t := AdvanceSetup(s, a); LifePaired(t.video, t.cap.at, t.main)
  {
    hide PhaseAfter, Lives;
    LivesMore(s.video.log);
  }

  lemma MainKeepsLife(s: State, a: Answer)
    requires (s.main.StopUni? || s.main.UndoUni? ==> s.cap.asked) && (s.main.StartCap? ==> s.cap.at.NoCap?)
    requires SettingUp(s.main) ==> s.cap.at.NoCap?
    requires LifePaired(s.video, s.cap.at, s.main)
    ensures var t := Advance(s, a); LifePaired(t.video, t.cap.at, t.main)
  {
    hide PhaseAfter, Lives;
    if SettingUp(s.main) {
      SetupKeepsLife(s, a);
    }
  }

  lemma CapKeepsLife(s: State, a: Answer)
    requires (s.cap.at.NoCap? || (!VideoDown(s.main) && !JustJoined(s.main))) && LifePaired(s.video, s.cap.at, s.main)
    ensures var t := Capture(s, a); LifePaired(t.video, t.cap.at, t.main)
  {
    hide PhaseAfter, Lives;
    LivesMore(s.video.log);
  }

  lemma OthersKeepLife(s: State, e: Event)
    requires (e.Begin? || e.VsStep? || e.ConnStep?) && LifePaired(s.video, s.cap.at, s.main)
    ensures var t := Step(s, e); LifePaired(t.video, t.cap.at, t.main)
  {
    hide PhaseAfter, Lives;
    LivesMore(s.video.log);
  }

  lemma LifeKept(s: State, e: Event)
    requires Threads(s) && LifePaired(s.video, s.cap.at, s.main)
    ensures var t := Step(s, e); LifePaired(t.video, t.cap.at, t.main)
  {
    hide VsyncNested, ConnectionEnds, Counted, PhaseAfter, Lives, Advance, Capture;
    match e
    case Begin(cb) => OthersKeepLife(s, e);
    case MainStep(a) => MainKeepsLife(s, a);
    case CapStep(a) => CapKeepsLife(s, a);
    case VsStep(a) => OthersKeepLife(s, e);
    case ConnStep(a) => OthersKeepLife(s, e);
  }

  // ----- Every run -----------------------------------------------------------------------------------

  /** What holds in every state that can be reached. */
  predicate Safe(s: State) {
    Threads(s) && UiPaired(s.ui, s.cap.at, s.main) && LifePaired(s.video, s.cap.at, s.main)
  }

  lemma BootIsSafe(st: Settings, autostart: bool)
    ensures Safe(Boot(st, autostart)) && forall w :: VideoKeeps(Boot(st, autostart), w)
  {
  }

  lemma SafeKept(s: State, e: Event)
    requires Safe(s)
    ensures Safe(Step(s, e))
  {
    hide Threads, UiPaired, LifePaired, Step;
    ThreadsKept(s, e);
    UiKept(s, e);
    LifeKept(s, e);
  }

  /** Whatever callbacks arrive, however the threads interleave, and whatever the backends answer. */
  lemma {:induction false} RunIsSafe(s: State, es: seq<Event>)
    requires Safe(s)
    ensures Safe(Run(s, es))
    decreases |es|
  {
    hide Safe, Step;
    if es != [] {
      SafeKept(s, es[0]);
      RunIsSafe(Step(s, es[0]), es[1..]);
    }
  }

  lemma {:induction false} OneSidedRun(s: State, es: seq<Event>, w: Told)
    requires Safe(s) && VideoKeeps(s, w) && RunTellsOnly(s, es, w)
    ensures VideoKeeps(Run(s, es), w)
    decreases |es|
  {
    hide Threads, UiPaired, LifePaired, Step, VideoKeeps, TellsOnly;
    if es != [] {
      SafeKept(s, es[0]);
      VideoKept(s, es[0], w);
      OneSidedRun(Step(s, es[0]), es[1..], w);
    }
  }

  /** All flags and threads agree between callbacks, and no thread is left over when nothing runs. */
  predicate Settled(s: State) {
    && s.service.running == s.cap.asked == s.link.flag == !s.cap.at.NoCap? == !s.link.at.NoConn?
    && s.cap.count.created == s.cap.count.joined + (if s.service.running then 1 else 0)
    && s.link.count.created == s.link.count.joined + (if s.service.running then 1 else 0)
    && (!s.service.running ==> s.sync.at.NoVs? && s.sync.count.created == s.sync.count.joined && !s.link.connected)
  }

  /** A backend that has been given back: every init cleaned up, every start terminated. */
  predicate GivenBack(b: Backend) { PhaseAfter(b.log) == Phase(false, false) }

  /**
   From power-up, over every run: between two callbacks the service is settled;
   the shared state is reset only when no thread is alive and both backends are
   given back; and after shutdown everything is.
   */
  lemma EveryRun(st: Settings, autostart: bool, es: seq<Event>)
    ensures var t := Run(Boot(st, autostart), es);
      && (t.main.Idle? ==> Settled(t))
      && (t.main.InitState? || t.main.Exited? ==>
            Settled(t) && !t.service.running && GivenBack(t.ui) && !t.ui.initialized && !t.video.initialized
            && PhaseAfter(Lives(t.video.log)) == Phase(false, false))
      && PhaseAfter(t.ui.log) == Phase(t.ui.initialized, t.ui.on && !t.cap.at.EndUiClear?)
  {
    hide Run;
    BootIsSafe(st, autostart);
    RunIsSafe(Boot(st, autostart), es);
  }

  /**
   The same for the video backend, with vsync or without, in every run in which
   at most one of the two threads is told that the capture is gone.
   */
  lemma EveryOneSidedRun(st: Settings, autostart: bool, es: seq<Event>, w: Told)
    requires RunTellsOnly(Boot(st, autostart), es, w)
    ensures var t := Run(Boot(st, autostart), es);
      && PhaseAfter(t.video.log) == Phase(t.video.initialized,
           t.video.on && !t.cap.at.ClearVideo? && !t.cap.at.EndVideoClear? && !t.sync.at.VsClear?)
      && (t.main.InitState? || t.main.Exited? ==> GivenBack(t.video))
  {
    hide Run, RunTellsOnly;
    BootIsSafe(st, autostart);
    RunIsSafe(Boot(st, autostart), es);
    OneSidedRun(Boot(st, autostart), es, w);
  }

  /** Such as every run without vsync. */
  lemma EveryUnsyncedRun(st: Settings, autostart: bool, es: seq<Event>)
    requires !st.vsync && forall i :: 0 <= i < |es| ==> LeavesUnsynced(es[i])
    ensures var t := Run(Boot(st, autostart), es);
      && PhaseAfter(t.video.log) == Phase(t.video.initialized,
           t.video.on && !t.cap.at.ClearVideo? && !t.cap.at.EndVideoClear?)
      && (t.main.InitState? || t.main.Exited? ==> GivenBack(t.video))
  {
    hide Run, RunTellsOnly, PhaseAfter;
    BootIsSafe(st, autostart);
    UnsyncedTellsOnly(Boot(st, autostart), es);
    EveryOneSidedRun(st, autostart, es, CapTold);
    OneSidedRun(Boot(st, autostart), es, CapTold);
  }
}
