/**
 The capture service (src/service.c, src/unicapture.c) as a machine of four
 threads: the main loop that runs one bus callback after the other, the
 capture thread, the vsync thread and the connection thread. Every step is one
 statement on shared state or one call into a backend; the threads interleave
 freely, and what backends, the network and the clock answer is part of the
 event.
 */
module Lifecycle {

  /** A successful call into a backend, as far as it has to be paired. */
  datatype Call = Init | Cleanup | Start | Terminate

  /** A backend: whether the service refers to it, its flags, and the calls made so far. */
  datatype Backend = Backend(present: bool, initialized: bool, on: bool, log: seq<Call>)

  datatype Settings = Settings(
    noGui: bool, noVideo: bool, vsync: bool,
    uiCandidates: nat, videoCandidates: nat,
    lumenThreshold: int,
    included: seq<string>, excluded: seq<string>)

  /** What the world answers: success, failure, "capture is gone" (-99), or that nothing was attempted. */
  datatype Answer = Ok | Failed | Gone | Skip

  // ----- Where each thread stands -------------------------------------------------------

  datatype Goal = Reinit | Quit

  /** What follows a stop. */
  datatype After = Return | Clean(g: Goal)

  datatype Main =
    | Idle
    | Exited
    // service_stop
    | StopTest(k: After) | StopConn(k: After) | StopUni(k: After)
    | StopJoinCap(k: After) | StopJoinConn(k: After) | StopEnd(k: After)
    // service_destroy
    | DestroyUi(g: Goal, stopped: bool) | DestroyVideo(g: Goal, stopped: bool)
    // service_init
    | InitState(restart: bool) | InitUi(restart: bool, tries: nat) | InitVideo(restart: bool, tries: nat)
    // service_start
    | StartTest | StartMark | StartUni | StartCap | StartLoop | StartConn
    | UndoUni | UndoJoin | UndoFlags

  datatype Cap =
    | NoCap
    | ReinitUi | ReinitVideo | SpawnVsync
    | Test | TryUi | TryVideo | Wait | AcquireUi | AcquireVideo | TermVideo | ClearVideo
    | StopVsync | JoinVsync
    | EndUi | EndUiClear | EndVideo | EndVideoClear
    | CleanUi | CleanVideo
    | CapDone

  datatype Vs = NoVs | VsTest | VsCheck | VsWait | VsTerm | VsClear | VsSignal | VsDone

  datatype Conn = NoConn | ConnTest | ConnPoll | ConnRead | ConnClose | ConnDone

  /** Threads created and joined so far. */
  datatype Count = Count(created: nat, joined: nat)

  /** Fields of `service_t` that only the main thread uses. */
  datatype Service = Service(
    settings: Settings, running: bool, powerPaused: bool, lumenPaused: bool, videoConnected: bool)

  /** The capture thread and the flag that keeps it running. */
  datatype Capturer = Capturer(asked: bool, at: Cap, count: Count)

  /** The vsync thread, its mode and its flag. */
  datatype Syncer = Syncer(vsync: bool, flag: bool, at: Vs, count: Count)

  /** The connection thread, its flag and whether it is connected. */
  datatype Link = Link(flag: bool, connected: bool, at: Conn, count: Count)

  datatype State = State(
    main: Main, service: Service, cap: Capturer, sync: Syncer, link: Link, ui: Backend, video: Backend)

  datatype Callback =
    | StartMethod | StopMethod | StartOrStop
    | SetSettings(settings: Settings)
    | Power(active: bool, processing: bool)
    | VideoOutput(connected: bool, app: string)
    | Sensor(luminance: int)
    | Shutdown

  datatype Event =
    Begin(cb: Callback) | MainStep(a: Answer) | CapStep(a: Answer) | VsStep(a: Answer) | ConnStep(a: Answer)

  function Called(b: Backend, c: Call): Backend { b.(log := b.log + [c]) }

  function Created(c: Count): Count { c.(created := c.created + 1) }

  function Joined(c: Count): Count { c.(joined := c.joined + 1) }

  // ----- Callbacks -------------------------------------------------------------------------

  /** Whether an application is one to capture, by the lists in the settings. */
  function ShouldStart(st: Settings, app: string): bool {
    if |st.included| > 0 then app in st.included
    else if |st.excluded| > 0 then app !in st.excluded
    else true
  }

  /** The start of a callback: what it decides before it starts or stops anything. */
  function BeginCallback(m: State, cb: Callback): State {
    var s := m.service;
    if m.main != Idle then m
    else
      match cb
      case StartMethod => m.(main := StartTest)
      case StopMethod => m.(main := StopTest(Return))
      case StartOrStop => m.(main := if s.running then StopTest(Return) else StartTest)
      case SetSettings(st) => m.(service := s.(settings := st), main := StopTest(Clean(Reinit)))
      case Power(active, processing) =>
        if !s.running && active && s.powerPaused && !processing then
          m.(service := s.(powerPaused := false),
             main := if s.videoConnected || m.ui.present then StartTest else Idle)
        else if s.running && !active && !s.powerPaused && !processing then
          m.(service := s.(powerPaused := true), main := StopTest(Return))
        else m
      case VideoOutput(connected, app) =>
        m.(service := s.(videoConnected := connected),
           main := if !connected && !m.ui.present then StopTest(Return)
                   else if ShouldStart(s.settings, app) then StartTest else StopTest(Return))
      case Sensor(luminance) =>
        if s.settings.lumenThreshold == 0 || s.powerPaused then m
        else if luminance > s.settings.lumenThreshold then
          if s.running && !s.lumenPaused
          then m.(service := s.(lumenPaused := true), main := StopTest(Return)) else m
        else
          if !s.running && s.lumenPaused
          then m.(service := s.(lumenPaused := false), main := StartTest) else m
      case Shutdown => m.(main := StopTest(Clean(Quit)))
  }

  // ----- The main thread -----------------------------------------------------------------------

  function AfterStop(k: After, stopped: bool): Main {
    match k
    case Return => Idle
    case Clean(g) => DestroyUi(g, stopped)
  }

  function Destroyed(b: Backend): Backend {
    if b.present && b.initialized then Called(b, Cleanup).(initialized := false) else b
  }

  function Loaded(b: Backend): Backend {
    Called(b, Init).(present := true, initialized := true)
  }

  /** `service_stop`, with `unicapture_stop` in the middle. */
  function AdvanceStop(m: State): State {
    match m.main
    case StopTest(k) => m.(main := if m.service.running then StopConn(k) else AfterStop(k, false))
    case StopConn(k) => m.(link := m.link.(flag := false), main := StopUni(k))
    case StopUni(k) =>
      if m.cap.asked then m.(cap := m.cap.(asked := false), main := StopJoinCap(k)) else m.(main := StopJoinConn(k))
    case StopJoinCap(k) =>
      if m.cap.at == CapDone
      then m.(cap := m.cap.(at := NoCap, count := Joined(m.cap.count)), main := StopJoinConn(k)) else m
    case StopJoinConn(k) =>
      if m.link.at == ConnDone
      then m.(link := m.link.(at := NoConn, count := Joined(m.link.count)), main := StopEnd(k)) else m
    case StopEnd(k) => m.(service := m.service.(running := false), main := AfterStop(k, true))
    case _ => m
  }

  /** The rest of `service_destroy`, and `service_init`. */
  function AdvanceSetup(m: State, a: Answer): State {
    var st := m.service.settings;
    match m.main
    case DestroyUi(g, stopped) => m.(ui := Destroyed(m.ui), main := DestroyVideo(g, stopped))
    case DestroyVideo(g, stopped) =>
      m.(video := Destroyed(m.video), main := if g == Quit then Exited else InitState(stopped))
    case InitState(restart) =>
      m.(cap := m.cap.(asked := false), sync := m.sync.(flag := false, vsync := st.vsync),
         ui := m.ui.(present := false, on := false), video := m.video.(present := false, on := false),
         main := InitUi(restart, if st.noGui then 0 else st.uiCandidates))
    case InitUi(restart, tries) =>
      var next := InitVideo(restart, if st.noVideo then 0 else st.videoCandidates);
      if tries == 0 then m.(main := next)
      else if a == Ok then m.(ui := Loaded(m.ui), main := next)
      else m.(main := InitUi(restart, tries - 1))
    case InitVideo(restart, tries) =>
      var next := if restart then StartTest else Idle;
      if tries == 0 then m.(main := next)
      else if a == Ok then m.(video := Loaded(m.video), main := next)
      else m.(main := InitVideo(restart, tries - 1))
    case _ => m
  }

  /** `service_start`, with `unicapture_start` in the middle. */
  function AdvanceStart(m: State, a: Answer): State {
    match m.main
    case StartTest => m.(main := if m.service.running then Idle else StartMark)
    case StartMark => m.(service := m.service.(running := true), main := StartUni)
    case StartUni => if m.cap.asked then m.(main := StartLoop) else m.(cap := m.cap.(asked := true), main := StartCap)
    case StartCap => m.(cap := m.cap.(at := ReinitUi, count := Created(m.cap.count)), main := StartLoop)
    case StartLoop => m.(link := m.link.(flag := true), main := StartConn)
    case StartConn =>
      if a == Ok then m.(link := m.link.(at := ConnTest, count := Created(m.link.count)), main := Idle)
      else m.(main := UndoUni)
    case _ => m
  }

  /** The way back when no connection thread can be created, with `unicapture_stop` in the middle. */
  function AdvanceUndo(m: State): State {
    match m.main
    case UndoUni => if m.cap.asked then m.(cap := m.cap.(asked := false), main := UndoJoin) else m.(main := UndoFlags)
    case UndoJoin =>
      if m.cap.at == CapDone
      then m.(cap := m.cap.(at := NoCap, count := Joined(m.cap.count)), main := UndoFlags) else m
    case UndoFlags => m.(link := m.link.(flag := false), service := m.service.(running := false), main := Idle)
    case _ => m
  }

  predicate Stopping(m: Main) {
    m.StopTest? || m.StopConn? || m.StopUni? || m.StopJoinCap? || m.StopJoinConn? || m.StopEnd?
  }

  predicate SettingUp(m: Main) {
    m.DestroyUi? || m.DestroyVideo? || m.InitState? || m.InitUi? || m.InitVideo?
  }

  predicate Undoing(m: Main) { m.UndoUni? || m.UndoJoin? || m.UndoFlags? }

  function Advance(m: State, a: Answer): State {
    if Stopping(m.main) then AdvanceStop(m)
    else if SettingUp(m.main) then AdvanceSetup(m, a)
    else if Undoing(m.main) then AdvanceUndo(m)
    else AdvanceStart(m, a)
  }

  // ----- The capture thread ----------------------------------------------------------------------

  function Reinitialised(b: Backend, a: Answer): Backend {
    if b.present && !b.initialized && a == Ok then Called(b, Init).(initialized := true) else b
  }

  function Tried(b: Backend, a: Answer): Backend {
    if a == Ok && b.present && !b.on then Called(b, Start).(on := true) else b
  }

  /** A capture thread that waits on the condition goes on; another one misses the signal. */
  function Woken(c: Capturer): Capturer { if c.at.Wait? then c.(at := AcquireUi) else c }

  /**
   `unicapture_run`: re-initialisation and the loop. A condition wait blocks
   until it is signalled, but is allowed to end without: then the answer is Ok.
   */
  function CaptureLoop(m: State, a: Answer): State {
    match m.cap.at
    case ReinitUi => m.(ui := Reinitialised(m.ui, a), cap := m.cap.(at := ReinitVideo))
    case ReinitVideo => m.(video := Reinitialised(m.video, a), cap := m.cap.(at := SpawnVsync))
    case SpawnVsync =>
      m.(sync := m.sync.(flag := true, at := VsTest, count := Created(m.sync.count)), cap := m.cap.(at := Test))
    case Test => m.(cap := m.cap.(at := if m.cap.asked then TryUi else StopVsync))
    case TryUi => m.(ui := Tried(m.ui, a), cap := m.cap.(at := TryVideo))
    case TryVideo => m.(video := Tried(m.video, a), cap := m.cap.(at := Wait))
    case Wait => if a == Ok then m.(cap := Woken(m.cap)) else m
    case AcquireUi => m.(cap := m.cap.(at := AcquireVideo))
    case AcquireVideo => m.(cap := m.cap.(at := if m.video.on && a == Gone then TermVideo else Test))
    case TermVideo => m.(video := Called(m.video, Terminate), cap := m.cap.(at := ClearVideo))
    case ClearVideo => m.(video := m.video.(on := false), cap := m.cap.(at := Test))
    case _ => m
  }

  /** `unicapture_run`: shutting down. */
  function CaptureEnd(m: State): State {
    match m.cap.at
    case StopVsync =>
      if m.sync.flag then m.(sync := m.sync.(flag := false), cap := m.cap.(at := JoinVsync))
      else m.(cap := m.cap.(at := EndUi))
    case JoinVsync =>
      if m.sync.at == VsDone
      then m.(sync := m.sync.(at := NoVs, count := Joined(m.sync.count)), cap := m.cap.(at := EndUi)) else m
    case EndUi =>
      if m.ui.on then m.(ui := Called(m.ui, Terminate), cap := m.cap.(at := EndUiClear))
      else m.(cap := m.cap.(at := EndVideo))
    case EndUiClear => m.(ui := m.ui.(on := false), cap := m.cap.(at := EndVideo))
    case EndVideo =>
      if m.video.on then m.(video := Called(m.video, Terminate), cap := m.cap.(at := EndVideoClear))
      else m.(cap := m.cap.(at := CleanUi))
    case EndVideoClear => m.(video := m.video.(on := false), cap := m.cap.(at := CleanUi))
    case CleanUi => m.(ui := Destroyed(m.ui), cap := m.cap.(at := CleanVideo))
    case CleanVideo => m.(video := Destroyed(m.video), cap := m.cap.(at := CapDone))
    case _ => m
  }

  /** The capture thread has left its loop. */
  predicate Ending(c: Cap) {
    c.StopVsync? || c.JoinVsync? || c.EndUi? || c.EndUiClear? || c.EndVideo? || c.EndVideoClear?
    || c.CleanUi? || c.CleanVideo? || c.CapDone?
  }

  function Capture(m: State, a: Answer): State {
    if Ending(m.cap.at) then CaptureEnd(m) else CaptureLoop(m, a)
  }

  // ----- The vsync and the connection thread ----------------------------------------------------------

  function Vsync(m: State, a: Answer): State {
    match m.sync.at
    case NoVs => m
    case VsTest => m.(sync := m.sync.(at := if m.sync.flag then VsCheck else VsDone))
    case VsCheck => m.(sync := m.sync.(at := if m.sync.vsync && m.video.on && a != Skip then VsWait else VsSignal))
    case VsWait => m.(sync := m.sync.(at := if a == Gone then VsTerm else VsSignal))
    case VsTerm => m.(video := Called(m.video, Terminate), sync := m.sync.(at := VsClear))
    case VsClear => m.(video := m.video.(on := false), sync := m.sync.(at := VsSignal))
    case VsSignal => m.(sync := m.sync.(at := VsTest), cap := Woken(m.cap))
    case VsDone => m
  }

  function Connection(m: State, a: Answer): State {
    match m.link.at
    case NoConn => m
    case ConnTest => m.(link := m.link.(at := if m.link.flag then ConnPoll else ConnDone))
    case ConnPoll =>
      if (m.video.on || m.ui.on) && a == Ok then m.(link := m.link.(connected := true, at := ConnRead))
      else m.(link := m.link.(at := ConnTest))
    case ConnRead =>
      m.(link := m.link.(at := if m.link.flag && m.link.connected && a == Ok then ConnRead else ConnClose))
    case ConnClose => m.(link := m.link.(connected := false, at := ConnTest))
    case ConnDone => m
  }

  // ----- Runs ------------------------------------------------------------------------------------------

  function Step(s: State, e: Event): State {
    match e
    case Begin(cb) => BeginCallback(s, cb)
    case MainStep(a) => Advance(s, a)
    case CapStep(a) => Capture(s, a)
    case VsStep(a) => Vsync(s, a)
    case ConnStep(a) => Connection(s, a)
  }

  function Run(s: State, es: seq<Event>): State
    decreases |es|
  {
    if es == [] then s else Run(Step(s, es[0]), es[1..])
  }

  const UNLOADED := Backend(false, false, false, [])

  /** A zeroed service, about to be initialised and perhaps started. */
  function Boot(st: Settings, autostart: bool): State {
    var none := Count(0, 0);
    State(InitState(autostart), Service(st, false, false, false, false),
          Capturer(false, NoCap, none), Syncer(false, false, NoVs, none), Link(false, false, NoConn, none),
          UNLOADED, UNLOADED)
  }

  lemma {:induction false} RunConcat(s: State, a: seq<Event>, b: seq<Event>)
    ensures Run(s, a + b) == Run(Run(s, a), b)
    decreases |a|
  {
    if a == [] {
      assert a + b == b;
    } else {
      assert (a + b)[1..] == a[1..] + b;
      RunConcat(Step(s, a[0]), a[1..], b);
    }
  }

  /** Threads go on; no further callback arrives. */
  predicate ThreadsOnly(es: seq<Event>) { forall i :: 0 <= i < |es| ==> !es[i].Begin? }
}
