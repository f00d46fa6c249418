/**
 What every run of the capture service keeps: the flags agree with the threads
 that are alive, no thread is lost or joined twice, the shared state is reset
 only when nothing else runs, and backends are initialised, started,
 terminated and cleaned up in pairs.
 */
module LifecycleSafety {
  import opened Lifecycle

  // ----- Flags and threads -------------------------------------------------------------

  /** The three flags - service running, capture asked to run, connecting - and whether two threads are alive. */
  datatype Stand = Stand(running: bool, uni: bool, loop: bool, cap: bool, conn: bool)

  function StandOf(s: State): Stand {
    Stand(s.service.running, s.cap.asked, s.link.flag, !s.cap.at.NoCap?, !s.link.at.NoConn?)
  }

  const DOWN := Stand(false, false, false, false, false)
  const UP := Stand(true, true, true, true, true)

  /** Between callbacks all five agree; within one, the place of the main thread says which have changed. */
  predicate FlagsAgree(m: Main, f: Stand) {
    match m
    case Idle => f == UP || f == DOWN
    case Exited => f == DOWN
    case StopTest(k) => f == UP || f == DOWN
    case StopConn(k) => f == UP
    case StopUni(k) => f == UP.(loop := false)
    case StopJoinCap(k) => f == UP.(loop := false, uni := false)
    case StopJoinConn(k) => f == DOWN.(running := true, conn := true)
    case StopEnd(k) => f == DOWN.(running := true)
    case DestroyUi(g, stopped) => f == DOWN
    case DestroyVideo(g, stopped) => f == DOWN
    case InitState(restart) => f == DOWN
    case InitUi(restart, tries) => f == DOWN
    case InitVideo(restart, tries) => f == DOWN
    case StartTest => f == UP || f == DOWN
    case StartMark => f == DOWN
    case StartUni => f == DOWN.(running := true)
    case StartCap => f == DOWN.(running := true, uni := true)
    case StartLoop => f == UP.(loop := false, conn := false)
    case StartConn => f == UP.(conn := false)
    case UndoUni => f == UP.(conn := false)
    case UndoJoin => f == UP.(conn := false, uni := false)
    case UndoFlags => f == DOWN.(running := true, loop := true)
  }

  predicate Looping(c: Cap) {
    c.Test? || c.TryUi? || c.TryVideo? || c.Wait? || c.AcquireUi? || c.AcquireVideo? || c.TermVideo? || c.ClearVideo?
    || c.StopVsync?
  }

  /** The vsync thread lives within the life of the capture thread, from its creation to its join. */
  predicate VsyncNested(c: Capturer, v: Syncer) {
    && (!v.at.NoVs? <==> Looping(c.at) || c.at.JoinVsync?)
    && (v.flag <==> Looping(c.at))
    && (v.at.VsDone? ==> c.at.JoinVsync?)
    && (Ending(c.at) ==> !c.asked)
  }

  predicate ConnectionEnds(c: Link) {
    && (c.at.ConnDone? ==> !c.flag)
    && (c.connected ==> c.at.ConnRead? || c.at.ConnClose?)
  }

  /** One thread more created than joined while it lives, else as many. */
  predicate Counted(alive: bool, c: Count) {
    c.created == c.joined + if alive then 1 else 0
  }

  predicate AllCounted(s: State) {
    && Counted(!s.cap.at.NoCap?, s.cap.count)
    && Counted(!s.sync.at.NoVs?, s.sync.count)
    && Counted(!s.link.at.NoConn?, s.link.count)
  }

  predicate Threads(s: State) {
    FlagsAgree(s.main, StandOf(s)) && VsyncNested(s.cap, s.sync) && ConnectionEnds(s.link) && AllCounted(s)
  }

  lemma BeginKeepsThreads(s: State, cb: Callback)
    requires Threads(s)
    ensures Threads(BeginCallback(s, cb))
  {
    hide VsyncNested, ConnectionEnds, Counted;
  }

  lemma StopKeepsThreads(s: State)
    requires Threads(s) && Stopping(s.main)
    ensures Threads(AdvanceStop(s))
  {
  }

  lemma SetupKeepsThreads(s: State, a: Answer)
    requires Threads(s) && SettingUp(s.main)
    ensures Threads(AdvanceSetup(s, a))
  {
  }

  lemma StartKeepsThreads(s: State, a: Answer)
    requires Threads(s) && !Stopping(s.main) && !SettingUp(s.main) && !Undoing(s.main)
    ensures Threads(AdvanceStart(s, a))
  {
    hide VsyncNested, ConnectionEnds, AllCounted, FlagsAgree, StandOf, AdvanceStart;
    StartKeepsFlags(s, a);
    StartKeepsNesting(s, a);
    StartKeepsCounts(s, a);
  }

  lemma StartKeepsFlags(s: State, a: Answer)
    requires FlagsAgree(s.main, StandOf(s)) && !Stopping(s.main) && !SettingUp(s.main) && !Undoing(s.main)
    ensures FlagsAgree(AdvanceStart(s, a).main, StandOf(AdvanceStart(s, a)))
  {
  }

  lemma StartKeepsNesting(s: State, a: Answer)
    requires FlagsAgree(s.main, StandOf(s)) && VsyncNested(s.cap, s.sync) && ConnectionEnds(s.link)
    ensures var t := AdvanceStart(s, a); VsyncNested(t.cap, t.sync) && ConnectionEnds(t.link)
  {
  }

  lemma StartKeepsCounts(s: State, a: Answer)
    requires FlagsAgree(s.main, StandOf(s)) && AllCounted(s)
    ensures AllCounted(AdvanceStart(s, a))
  {
  }

  lemma UndoKeepsThreads(s: State)
    requires Threads(s) && Undoing(s.main)
    ensures Threads(AdvanceUndo(s))
  {
  }

  lemma LoopKeepsThreads(s: State, a: Answer)
    requires Threads(s) && !Ending(s.cap.at)
    ensures Threads(CaptureLoop(s, a))
  {
    hide FlagsAgree, ConnectionEnds;
  }

  lemma EndKeepsThreads(s: State)
    requires Threads(s) && Ending(s.cap.at)
    ensures Threads(CaptureEnd(s))
  {
    hide FlagsAgree, ConnectionEnds;
  }

  lemma VsKeepsThreads(s: State, a: Answer)
    requires Threads(s)
    ensures Threads(Vsync(s, a))
  {
    hide FlagsAgree, ConnectionEnds;
  }

  lemma ConnKeepsThreads(s: State, a: Answer)
    requires Threads(s)
    ensures Threads(Connection(s, a))
  {
    hide FlagsAgree, VsyncNested;
  }

  lemma ThreadsKept(s: State, e: Event)
    requires Threads(s)
    ensures Threads(Step(s, e))
  {
    hide Threads, BeginCallback, AdvanceStop, AdvanceSetup, AdvanceUndo, AdvanceStart,
         CaptureLoop, CaptureEnd, Vsync, Connection;
    match e
    case Begin(cb) => BeginKeepsThreads(s, cb);
    case MainStep(a) =>
      if Stopping(s.main) {
        StopKeepsThreads(s);
      } else if SettingUp(s.main) {
        SetupKeepsThreads(s, a);
      } else if Undoing(s.main) {
        UndoKeepsThreads(s);
      } else {
        StartKeepsThreads(s, a);
      }
    case CapStep(a) => if Ending(s.cap.at) { EndKeepsThreads(s); } else { LoopKeepsThreads(s, a); }
    case VsStep(a) => VsKeepsThreads(s, a);
    case ConnStep(a) => ConnKeepsThreads(s, a);
  }

  /**
   The service connects exactly when the connection thread polls, one of the two
   captures runs, and the server answers; it is disconnected exactly when that
   thread has left its reading loop.
   */
  lemma ConnectedIff(s: State, e: Event)
    requires Threads(s)
    ensures !s.link.connected ==>
      (Step(s, e).link.connected <==> s.link.at == ConnPoll && e == ConnStep(Ok) && (s.video.on || s.ui.on))
    ensures s.link.connected ==>
      (!Step(s, e).link.connected <==> s.link.at == ConnClose && e.ConnStep?)
  {
    hide FlagsAgree, VsyncNested, AllCounted, BeginCallback, AdvanceStop, AdvanceSetup, AdvanceStart, AdvanceUndo,
         CaptureLoop, CaptureEnd, Vsync;
    match e
    case Begin(cb) => KeepsConnected(s, cb, Skip);
    case MainStep(a) => KeepsConnected(s, StartMethod, a);
    case CapStep(a) => KeepsConnected(s, StartMethod, a);
    case VsStep(a) => KeepsConnected(s, StartMethod, a);
    case ConnStep(a) =>
  }

  /** No other thread touches the connection. */
  lemma KeepsConnected(s: State, cb: Callback, a: Answer)
    ensures BeginCallback(s, cb).link.connected == s.link.connected
    ensures Advance(s, a).link.connected == s.link.connected
    ensures Capture(s, a).link == s.link && Vsync(s, a).link == s.link
  {
    hide BeginCallback, AdvanceStop, AdvanceSetup, AdvanceStart, AdvanceUndo, CaptureLoop, CaptureEnd, Vsync;
    BeginKeepsLink(s, cb);
    StopKeepsConnected(s, a);
    CaptureKeepsLink(s, a);
  }

  lemma BeginKeepsLink(s: State, cb: Callback)
    ensures BeginCallback(s, cb).link == s.link
  {
  }

  lemma StopKeepsConnected(s: State, a: Answer)
    ensures AdvanceStop(s).link.connected == s.link.connected
    ensures AdvanceSetup(s, a).link == s.link && AdvanceUndo(s).link.connected == s.link.connected
    ensures AdvanceStart(s, a).link.connected == s.link.connected
  {
  }

  lemma CaptureKeepsLink(s: State, a: Answer)
    ensures CaptureLoop(s, a).link == s.link && CaptureEnd(s).link == s.link && Vsync(s, a).link == s.link
  {
  }
}
