/**
 The functions of src/service.c and src/unicapture.c in place: an object with
 their fields, whose methods set them statement by statement while the other
 threads go on. A ghost history ties every state of the object to a run of the
 machine in Lifecycle, so that whatever holds of every run holds of the object.
 */
module CaptureService {
  import opened Lifecycle
  import opened LifecycleSafety
  import opened LifecyclePairs
  import opened LifecycleProgress

  class Daemon {
    // service_t
    var settings: Settings
    var running: bool
    var powerPaused: bool
    var lumenPaused: bool
    var videoConnected: bool
    var connected: bool
    var connectionLoopRunning: bool
    // unicapture_state_t
    var captureRunning: bool
    var vsync: bool
    var vsyncThreadRunning: bool
    // the two backends, with the running flag of each
    var ui: Backend
    var video: Backend
    // where the other threads stand, and how many there have been
    var capture: Cap
    var captures: Count
    var vsyncThread: Vs
    var vsyncThreads: Count
    var connection: Conn
    var connections: Count
    // where the main thread stands, how the service began, and all that has happened since
    ghost var main: Main
    ghost const boot: State
    ghost var past: seq<Event>

    ghost function View(): State
      reads this
    {
      State(main, Service(settings, running, powerPaused, lumenPaused, videoConnected),
            Capturer(captureRunning, capture, captures),
            Syncer(vsync, vsyncThreadRunning, vsyncThread, vsyncThreads),
            Link(connectionLoopRunning, connected, connection, connections), ui, video)
    }

    /** The object is in a state that some run of the machine leads to. */
    ghost predicate Valid()
      reads this
    {
      Safe(boot) && Run(boot, past) == View()
    }

    constructor (st: Settings, autostart: bool)
      ensures Valid() && View() == Boot(st, autostart) == boot
    {
      settings := st;
      running, powerPaused, lumenPaused, videoConnected := false, false, false, false;
      connected, connectionLoopRunning, captureRunning := false, false, false;
      vsync, vsyncThreadRunning := false, false;
      ui, video := UNLOADED, UNLOADED;
      capture, captures := NoCap, Count(0, 0);
      vsyncThread, vsyncThreads := NoVs, Count(0, 0);
      connection, connections := NoConn, Count(0, 0);
      main := InitState(autostart);
      boot := Boot(st, autostart);
      past := [];
      new;
      BootIsSafe(st, autostart);
    }

    /** Whatever holds of every run holds of the object. */
    lemma Known()
      requires Valid()
      ensures Safe(View())
    {
      RunIsSafe(boot, past);
    }

    /** What the main thread alone sets. */
    ghost function Mine(): Own
      reads this
    {
      OwnOf(View())
    }

    /** The fields of the service that starting and stopping leave alone, but for running. */
    ghost function Fields(): Service
      reads this
    {
      Service(settings, running, powerPaused, lumenPaused, videoConnected)
    }

    /** How often starting the capture has been attempted: the capture threads created. */
    ghost function Starts(): nat
      reads this
    {
      captures.created
    }

    ghost function Standing(): (nat, bool)
      reads this
    {
      (Starts(), running)
    }

    /** Enters an event in the history. */
    ghost method Note(e: Event, was: State)
      requires Safe(boot) && Run(boot, past) == was && Step(was, e) == View()
      modifies `past
      ensures Valid()
    {
      past := past + [e];
      Recorded(boot, old(past), e, was, View());
    }

    // ----- The other threads ---------------------------------------------------------------

    /** One statement of `unicapture_run`, before its loop. */
    method EnterStep(a: Answer)
      requires capture.ReinitUi? || capture.ReinitVideo? || capture.SpawnVsync?
      modifies `ui, `video, `capture, `vsyncThreadRunning, `vsyncThread, `vsyncThreads
      ensures View() == CaptureLoop(old(View()), a)
    {
      match capture {
        case ReinitUi =>
          if ui.present && !ui.initialized && a == Ok {
            ui := Called(ui, Init).(initialized := true);
          }
          capture := ReinitVideo;
        case ReinitVideo =>
          if video.present && !video.initialized && a == Ok {
            video := Called(video, Init).(initialized := true);
          }
          capture := SpawnVsync;
        case SpawnVsync =>
          vsyncThreadRunning := true;
          vsyncThread, vsyncThreads := VsTest, Created(vsyncThreads);
          capture := Test;
      }
    }

    /** One statement of the loop of `unicapture_run`. */
    method LoopStep(a: Answer)
      requires Looping(capture) && !capture.StopVsync?
      modifies `ui, `video, `capture
      ensures View() == CaptureLoop(old(View()), a)
    {
      match capture {
        case Test =>
          capture := if captureRunning then TryUi else StopVsync;
        case TryUi =>
          if a == Ok && ui.present && !ui.on {
            ui := Called(ui, Start).(on := true);
          }
          capture := TryVideo;
        case TryVideo =>
          if a == Ok && video.present && !video.on {
            video := Called(video, Start).(on := true);
          }
          capture := Wait;
        case Wait =>
          if a == Ok {
            capture := AcquireUi;
          }
        case AcquireUi => capture := AcquireVideo;
        case AcquireVideo =>
          capture := if video.on && a == Gone then TermVideo else Test;
        case TermVideo =>
          video := Called(video, Terminate);
          capture := ClearVideo;
        case ClearVideo =>
          video := video.(on := false);
          capture := Test;
      }
    }

    /** One statement of `unicapture_run` behind its loop: the vsync thread is stopped and waited for. */
    method UnsyncStep()
      requires capture.StopVsync? || capture.JoinVsync?
      modifies `capture, `vsyncThreadRunning, `vsyncThread, `vsyncThreads
      ensures View() == CaptureEnd(old(View()))
    {
      match capture {
        case StopVsync =>
          if vsyncThreadRunning {
            vsyncThreadRunning := false;
            capture := JoinVsync;
          } else {
            capture := EndUi;
          }
        case JoinVsync =>
          if vsyncThread == VsDone {
            vsyncThread, vsyncThreads := NoVs, Joined(vsyncThreads);
            capture := EndUi;
          }
      }
    }

    /** And then: captures that run are terminated. */
    method EndStep()
      requires capture.EndUi? || capture.EndUiClear? || capture.EndVideo? || capture.EndVideoClear?
      modifies `ui, `video, `capture
      ensures View() == CaptureEnd(old(View()))
    {
      match capture {
        case EndUi =>
          if ui.on {
            ui := Called(ui, Terminate);
            capture := EndUiClear;
          } else {
            capture := EndVideo;
          }
        case EndUiClear =>
          ui := ui.(on := false);
          capture := EndVideo;
        case EndVideo =>
          if video.on {
            video := Called(video, Terminate);
            capture := EndVideoClear;
          } else {
            capture := CleanUi;
          }
        case EndVideoClear =>
          video := video.(on := false);
          capture := CleanUi;
      }
    }

    /** One statement of `unicapture_run` at its end: the backends are cleaned up. */
    method CleanStep()
      requires capture.CleanUi? || capture.CleanVideo?
      modifies `ui, `video, `capture
      ensures View() == CaptureEnd(old(View()))
    {
      match capture {
        case CleanUi =>
          if ui.present && ui.initialized {
            ui := Called(ui, Cleanup).(initialized := false);
          }
          capture := CleanVideo;
        case CleanVideo =>
          if video.present && video.initialized {
            video := Called(video, Cleanup).(initialized := false);
          }
          capture := CapDone;
      }
    }

    method CaptureStep(a: Answer)
      requires Valid()
      modifies this
      ensures Valid() && View() == Lifecycle.Capture(old(View()), a)
    {
      hide Safe, Run, CaptureLoop, CaptureEnd;
      Waits(View(), a);
      if capture.CleanUi? || capture.CleanVideo? {
        CleanStep();
      } else if capture.StopVsync? || capture.JoinVsync? {
        UnsyncStep();
      } else if Ending(capture) && !capture.CapDone? {
        EndStep();
      } else if Looping(capture) {
        LoopStep(a);
      } else if !capture.NoCap? && !capture.CapDone? {
        EnterStep(a);
      }
      past := past + [CapStep(a)];
      Recorded(boot, old(past), CapStep(a), old(View()), View());
    }

    /** One statement of `unicapture_vsync_handler`; the signal reaches a capture thread that waits. */
    method SyncStep(a: Answer)
      modifies `video, `capture, `vsyncThread
      ensures View() == Vsync(old(View()), a)
    {
      match vsyncThread {
        case VsTest => vsyncThread := if vsyncThreadRunning then VsCheck else VsDone;
        case VsCheck => vsyncThread := if vsync && video.on && a != Skip then VsWait else VsSignal;
        case VsWait => vsyncThread := if a == Gone then VsTerm else VsSignal;
        case VsTerm =>
          video := Called(video, Terminate);
          vsyncThread := VsClear;
        case VsClear =>
          video := video.(on := false);
          vsyncThread := VsSignal;
        case VsSignal =>
          if capture == Wait {
            capture := AcquireUi;
          }
          vsyncThread := VsTest;
        case _ =>
      }
    }

    method VsyncStep(a: Answer)
      requires Valid()
      modifies this
      ensures Valid() && View() == Vsync(old(View()), a)
    {
      hide Safe, Run, Vsync;
      SyncStep(a);
      past := past + [VsStep(a)];
      Recorded(boot, old(past), VsStep(a), old(View()), View());
    }

    /** One statement of `connection_loop`. */
    method LinkStep(a: Answer)
      modifies `connected, `connection
      ensures View() == Connection(old(View()), a)
      ensures old(connection) == ConnPoll ==> (connection == ConnRead <==> (video.on || ui.on) && a == Ok)
    {
      match connection {
        case ConnTest => connection := if connectionLoopRunning then ConnPoll else ConnDone;
        case ConnPoll =>
          if (video.on || ui.on) && a == Ok {
            connected := true;
            connection := ConnRead;
          } else {
            connection := ConnTest;
          }
        case ConnRead => connection := if connectionLoopRunning && connected && a == Ok then ConnRead else ConnClose;
        case ConnClose =>
          connected := false;
          connection := ConnTest;
        case _ =>
      }
    }

    method ConnectionStep(a: Answer)
      requires Valid()
      modifies this
      ensures Valid() && View() == Connection(old(View()), a)
    {
      hide Safe, Run, Connection;
      LinkStep(a);
      past := past + [ConnStep(a)];
      Recorded(boot, old(past), ConnStep(a), old(View()), View());
    }

    /** A step of one of the other threads; it takes no callback back from its end. */
    method OtherStep(thread: nat, a: Answer)
      requires Valid()
      modifies this
      ensures Valid() && Mine() == old(Mine()) && main == old(main)
      ensures old(Alone(View())) ==> View() == old(View())
      ensures !Returned(main) ==> Steady(View(), old(View()))
    {
      hide Valid, Lifecycle.Capture, Vsync, Connection, OwnOf, Alone, Steady, Safe, Threads, Returned;
      Known();
      SafeThreads(View());
      OthersKeepOwn(View(), a);
      NoneHinders(View(), a);
      if thread == 0 {
        CaptureStep(a);
      } else if thread == 1 {
        VsyncStep(a);
      } else {
        ConnectionStep(a);
      }
      SameMain(View(), old(View()));
    }

    /** The other threads go on for a while. */
    method Others()
      requires Valid()
      modifies this
      ensures Valid() && Mine() == old(Mine())
      ensures old(Alone(View())) ==> View() == old(View())
    {
      hide Valid, OwnOf, View, Alone, Steady, Returned;
      var n: nat := *;
      while n > 0
        invariant Valid() && Mine() == old(Mine())
        invariant old(Alone(View())) ==> View() == old(View())
      {
        var thread: nat, a: Answer := *, *;
        OtherStep(thread, a);
        n := n - 1;
      }
    }

    // ----- Joining -------------------------------------------------------------------------

    /**
     Waits for the capture thread, which has been told to finish. Any threads
     take any number of steps before the one that helps gets its turn, and
     whatever is answered to it.
     */
    method JoinCapture()
      requires Valid() && JoiningCapture(main)
      modifies this
      ensures Valid() && Mine() == old(Mine()) && capture == CapDone
    {
      hide Valid, Mine, RankOf, Steady;
      var patience: nat := *;
      while capture != CapDone
        invariant Valid() && Mine() == old(Mine()) && JoiningCapture(main)
        decreases RankOf(View()).main, RankOf(View()).tries, RankOf(View()).cap,
          RankOf(View()).vs, RankOf(View()).conn, patience
      {
        ghost var was := View();
        var thread: nat, a: Answer := *, *;
        if patience > 0 {
          patience := patience - 1;
          OtherStep(thread, a);
          NoFarther(View(), was);
        } else {
          HelpCapture(a);
          patience := *;
          NoFarther(View(), was);
        }
      }
    }

    method HelpCapture(a: Answer)
      requires Valid() && JoiningCapture(main) && capture != CapDone
      modifies this
      ensures Valid() && Mine() == old(Mine())
      ensures Less(RankOf(View()), RankOf(old(View()))) && main == old(main)
    {
      hide RankOf, Less, Safe, Lifecycle.Capture, Vsync, OwnOf, Steady;
      Known();
      SafeThreads(View());
      OthersKeepOwn(View(), a);
      HelpHelps(View(), StepOf(Helper(View()), a));
      if capture == Wait || (capture == JoinVsync && vsyncThread != VsDone) {
        VsyncStep(a);
      } else {
        CaptureStep(a);
      }
      SameMain(View(), old(View()));
    }

    /** Waits for the connection thread in the same way. */
    method JoinConnection()
      requires Valid() && main.StopJoinConn?
      modifies this
      ensures Valid() && Mine() == old(Mine()) && connection == ConnDone
    {
      hide Valid, Mine, RankOf, Steady;
      var patience: nat := *;
      while connection != ConnDone
        invariant Valid() && Mine() == old(Mine()) && main.StopJoinConn?
        decreases RankOf(View()).main, RankOf(View()).tries, RankOf(View()).cap,
          RankOf(View()).vs, RankOf(View()).conn, patience
      {
        ghost var was := View();
        var thread: nat, a: Answer := *, *;
        if patience > 0 {
          patience := patience - 1;
          OtherStep(thread, a);
          NoFarther(View(), was);
        } else {
          HelpConnection(a);
          patience := *;
          NoFarther(View(), was);
        }
      }
    }

    method HelpConnection(a: Answer)
      requires Valid() && main.StopJoinConn? && connection != ConnDone
      modifies this
      ensures Valid() && Mine() == old(Mine())
      ensures Less(RankOf(View()), RankOf(old(View()))) && main == old(main)
    {
      hide RankOf, Less, Safe, Connection, OwnOf, Steady;
      Known();
      SafeThreads(View());
      OthersKeepOwn(View(), a);
      HelpHelps(View(), StepOf(Helper(View()), a));
      ConnectionStep(a);
      SameMain(View(), old(View()));
    }

    // ----- unicapture_start and unicapture_stop ------------------------------------------------

    method UnicaptureStart() returns (ret: int)
      requires Valid() && main == StartUni
      modifies this
      ensures Starts() == old(Starts()) + (if ret == 0 then 1 else 0) && Fields() == old(Fields())
      ensures Valid() && main == StartLoop && ret == (if old(captureRunning) then 1 else 0)
    {
      hide Safe, Run, Step;
      StartSteps(View(), Ok);
      if captureRunning {
        main := StartLoop;
        Note(MainStep(Ok), old(View()));
        return 1;
      }
      captureRunning := true;
      main := StartCap;
      Note(MainStep(Ok), old(View()));
      CreateCapture();
      return 0;
    }

    method CreateCapture()
      requires Valid() && main == StartCap
      modifies this
      ensures Starts() == old(Starts()) + 1 && Fields() == old(Fields())
      ensures Valid() && main == StartLoop
    {
      hide Safe, Run, Step;
      StartSteps(View(), Ok);
      capture, captures := ReinitUi, Created(captures);
      main := StartLoop;
      Note(MainStep(Ok), old(View()));
    }

    method UnicaptureStop() returns (ret: int)
      requires Valid() && (main.StopUni? || main.UndoUni?)
      modifies this
      ensures Starts() == old(Starts()) && Fields() == old(Fields())
      ensures Valid() && main == if old(main).StopUni? then StopJoinConn(old(main).k) else UndoFlags
      ensures ret == if old(captureRunning) then 0 else 1
    {
      hide Safe, Run, Step;
      StopSteps(View());
      UndoSteps(View());
      if !captureRunning {
        main := if main.StopUni? then StopJoinConn(main.k) else UndoFlags;
        Note(MainStep(Ok), old(View()));
        return 1;
      }
      captureRunning := false;
      main := if main.StopUni? then StopJoinCap(main.k) else UndoJoin;
      Note(MainStep(Ok), old(View()));
      JoinCapture();
      CaptureJoined();
      return 0;
    }

    method CaptureJoined()
      requires Valid() && (main.StopJoinCap? || main.UndoJoin?) && capture == CapDone
      modifies this
      ensures Starts() == old(Starts()) && Fields() == old(Fields())
      ensures Valid() && main == if old(main).StopJoinCap? then StopJoinConn(old(main).k) else UndoFlags
    {
      hide Safe, Run, Step;
      StopSteps(View());
      UndoSteps(View());
      capture, captures := NoCap, Joined(captures);
      main := if main.StopJoinCap? then StopJoinConn(main.k) else UndoFlags;
      Note(MainStep(Ok), old(View()));
    }
  
    // ----- service_stop and service_start ---------------------------------------------------------

    method StopConnecting()
      requires Valid() && main.StopConn?
      modifies this
      ensures Starts() == old(Starts()) && Fields() == old(Fields()) && Valid() && main == StopUni(old(main).k)
    {
      hide Safe, Run, Step;
      StopSteps(View());
      connectionLoopRunning := false;
      main := StopUni(main.k);
      Note(MainStep(Ok), old(View()));
    }

    method ConnectionJoined()
      requires Valid() && main.StopJoinConn? && connection == ConnDone
      modifies this
      ensures Starts() == old(Starts()) && Fields() == old(Fields()) && Valid() && main == StopEnd(old(main).k)
    {
      hide Safe, Run, Step;
      StopSteps(View());
      connection, connections := NoConn, Joined(connections);
      main := StopEnd(main.k);
      Note(MainStep(Ok), old(View()));
    }

    method NotRunning()
      requires Valid() && main.StopEnd?
      modifies this
      ensures Starts() == old(Starts())
      ensures Fields() == old(Fields()).(running := false) && Valid() && main == AfterStop(old(main).k, true)
      ensures ui == old(ui) && video == old(video)
    {
      hide Safe, Run, Step;
      StopSteps(View());
      running := false;
      main := AfterStop(main.k, true);
      Note(MainStep(Ok), old(View()));
    }

    method ServiceStop() returns (ret: int)
      requires Valid() && main.StopTest?
      modifies this
      ensures Valid() && main == AfterStop(old(main).k, ret == 0)
      ensures ret == (if old(running) then 0 else 1) && Starts() == old(Starts())
      ensures Fields() == old(Fields()).(running := false)
      ensures ret == 0 ==> GivenBack(ui) && PhaseAfter(Lives(video.log)) == Phase(false, false)
      ensures ret == 0 ==> !ui.initialized && !video.initialized
    {
      hide Safe, Run, Step, PhaseAfter, Lives;
      StopSteps(View());
      if !running {
        main := AfterStop(main.k, false);
        Note(MainStep(Ok), old(View()));
        return 1;
      }
      main := StopConn(main.k);
      Note(MainStep(Ok), old(View()));
      Others();
      StopConnecting();
      Others();
      var stopped := UnicaptureStop();
      JoinConnection();
      ConnectionJoined();
      Known();
      StoppedIsDown(View());
      NotRunning();
      return 0;
    }

    method MarkRunning()
      requires Valid() && main == StartMark
      modifies this
      ensures Starts() == old(Starts()) && Fields() == old(Fields()).(running := true) && Valid() && main == StartUni
    {
      hide Safe, Run, Step;
      StartSteps(View(), Ok);
      running := true;
      main := StartUni;
      Note(MainStep(Ok), old(View()));
    }

    method StartConnecting()
      requires Valid() && main == StartLoop
      modifies this
      ensures Starts() == old(Starts()) && Fields() == old(Fields()) && Valid() && main == StartConn
    {
      hide Safe, Run, Step;
      StartSteps(View(), Ok);
      connectionLoopRunning := true;
      main := StartConn;
      Note(MainStep(Ok), old(View()));
    }

    /** pthread_create for the connection thread, which may fail. */
    method CreateConnection() returns (created: bool)
      requires Valid() && main == StartConn
      modifies this
      ensures Starts() == old(Starts())
      ensures Fields() == old(Fields()) && Valid() && main == if created then Idle else UndoUni
    {
      hide Safe, Run, Step;
      created := *;
      StartSteps(View(), Ok);
      StartSteps(View(), Failed);
      if created {
        connection, connections := ConnTest, Created(connections);
        main := Idle;
        Note(MainStep(Ok), old(View()));
      } else {
        main := UndoUni;
        Note(MainStep(Failed), old(View()));
      }
    }

    method UndoStart()
      requires Valid() && main == UndoFlags
      modifies this
      ensures Starts() == old(Starts()) && Fields() == old(Fields()).(running := false) && Valid() && main == Idle
    {
      hide Safe, Run, Step;
      UndoSteps(View());
      connectionLoopRunning := false;
      running := false;
      main := Idle;
      Note(MainStep(Ok), old(View()));
    }

    method ServiceStart() returns (ret: int)
      requires Valid() && main == StartTest
      modifies this
      ensures Valid() && main == Idle && ret in {0, 1, -1}
      ensures Starts() == old(Starts()) + (if ret == 1 then 0 else 1)
      ensures (ret == 1 <==> old(running)) && Fields() == old(Fields()).(running := ret >= 0)
    {
      hide Safe, Run, Step;
      StartSteps(View(), Ok);
      if running {
        main := Idle;
        Note(MainStep(Ok), old(View()));
        return 1;
      }
      main := StartMark;
      Note(MainStep(Ok), old(View()));
      MarkRunning();
      Known();
      NothingAsked(View());
      var started := UnicaptureStart();
      Others();
      StartConnecting();
      Others();
      var created := CreateConnection();
      if !created {
        Others();
        var stopped := UnicaptureStop();
        UndoStart();
        return -1;
      }
      return 0;
    }
  
    // ----- service_destroy and service_init -----------------------------------------------------------

    method CleanUiBackend()
      requires Valid() && main.DestroyUi?
      modifies this
      ensures Starts() == old(Starts())
      ensures Fields() == old(Fields()) && Valid() && main == DestroyVideo(old(main).g, old(main).stopped)
    {
      hide Safe, Run, Step;
      SetupSteps(View(), Ok);
      if ui.present && ui.initialized {
        ui := Called(ui, Cleanup).(initialized := false);
      }
      main := DestroyVideo(main.g, main.stopped);
      Note(MainStep(Ok), old(View()));
    }

    method CleanVideoBackend()
      requires Valid() && main.DestroyVideo?
      modifies this
      ensures Starts() == old(Starts()) && Fields() == old(Fields()) && Valid()
      ensures main == if old(main).g == Quit then Exited else InitState(old(main).stopped)
    {
      hide Safe, Run, Step;
      SetupSteps(View(), Ok);
      if video.present && video.initialized {
        video := Called(video, Cleanup).(initialized := false);
      }
      main := if main.g == Quit then Exited else InitState(main.stopped);
      Note(MainStep(Ok), old(View()));
    }

    /** Nothing runs afterwards, and both backends have been given back. */
    method ServiceDestroy() returns (ret: int)
      requires Valid() && main.StopTest? && main.k.Clean?
      modifies this
      ensures Valid() && main == if old(main).k.g == Quit then Exited else InitState(ret == 0)
      ensures ret == (if old(running) then 0 else 1) && Starts() == old(Starts())
      ensures Fields() == old(Fields()).(running := false)
      ensures Alone(View()) && GivenBack(ui) && PhaseAfter(Lives(video.log)) == Phase(false, false)
    {
      hide Safe, Run, PhaseAfter, Lives;
      ret := ServiceStop();
      CleanUiBackend();
      CleanVideoBackend();
      Known();
      DestroyedIsDown(View());
    }

    /** All that is shared with the other threads, zeroed but for the mode. */
    method ZeroState()
      modifies `captureRunning, `ui, `video, `vsyncThreadRunning, `vsync
      ensures !captureRunning && !vsyncThreadRunning && vsync == settings.vsync
      ensures ui == old(ui).(present := false, on := false) && video == old(video).(present := false, on := false)
    {
      captureRunning := false;
      ui, video := ui.(present := false, on := false), video.(present := false, on := false);
      vsyncThreadRunning := false;
      vsync := settings.vsync;
    }

    /** `unicapture_init`: everything that is shared is reset. */
    method ResetState()
      requires Valid() && main.InitState?
      modifies this
      ensures Starts() == old(Starts()) && Fields() == old(Fields()) && Valid()
      ensures main == InitUi(old(main).restart, if settings.noGui then 0 else settings.uiCandidates)
      ensures ui == old(ui).(present := false, on := false) && video == old(video).(present := false, on := false)
    {
      hide Safe, Run, Step;
      ResetStep(View());
      ZeroState();
      main := InitUi(main.restart, if settings.noGui then 0 else settings.uiCandidates);
      Note(MainStep(Ok), old(View()));
    }

    /** The result of loading one UI backend and calling its init. */
    method InitUiBackend(more: nat) returns (ret: int)
      requires Valid() && main.InitUi? && main.tries == more + 1
      modifies this
      ensures Starts() == old(Starts()) && Fields() == old(Fields()) && Valid()
      ensures main == if ret == 0
                      then InitVideo(old(main).restart, if settings.noVideo then 0 else settings.videoCandidates)
                      else InitUi(old(main).restart, more)
      ensures ui == (if ret == 0 then Loaded(old(ui)) else old(ui)) && video == old(video)
    {
      hide Safe, Run, Step;
      SetupSteps(View(), Ok);
      SetupSteps(View(), Failed);
      var loaded: bool := *;
      if loaded {
        ui := Called(ui, Init).(present := true, initialized := true);
        main := InitVideo(main.restart, if settings.noVideo then 0 else settings.videoCandidates);
        Note(MainStep(Ok), old(View()));
        return 0;
      }
      main := InitUi(main.restart, more);
      Note(MainStep(Failed), old(View()));
      return -1;
    }

    method InitVideoBackend(more: nat) returns (ret: int)
      requires Valid() && main.InitVideo? && main.tries == more + 1
      modifies this
      ensures Starts() == old(Starts()) && Fields() == old(Fields()) && Valid()
      ensures main == if ret != 0 then InitVideo(old(main).restart, more)
                      else if old(main).restart then StartTest else Idle
      ensures video == (if ret == 0 then Loaded(old(video)) else old(video)) && ui == old(ui)
    {
      hide Safe, Run, Step;
      SetupSteps(View(), Ok);
      SetupSteps(View(), Failed);
      var loaded: bool := *;
      if loaded {
        video := Called(video, Init).(present := true, initialized := true);
        main := if main.restart then StartTest else Idle;
        Note(MainStep(Ok), old(View()));
        return 0;
      }
      main := InitVideo(main.restart, more);
      Note(MainStep(Failed), old(View()));
      return -1;
    }

    method NoMoreCandidates()
      requires Valid() && (main.InitUi? || main.InitVideo?) && main.tries == 0
      modifies this
      ensures Starts() == old(Starts()) && Fields() == old(Fields()) && Valid()
      ensures main == if old(main).InitUi?
                      then InitVideo(old(main).restart, if settings.noVideo then 0 else settings.videoCandidates)
                      else if old(main).restart then StartTest else Idle
      ensures ui == old(ui) && video == old(video)
    {
      hide Safe, Run, Step;
      SetupSteps(View(), Ok);
      main := if main.InitUi? then InitVideo(main.restart, if settings.noVideo then 0 else settings.videoCandidates)
              else if main.restart then StartTest else Idle;
      Note(MainStep(Ok), old(View()));
    }

    /** A backend after set-up: freshly initialised, or as it was and not referred to. */
    ghost predicate SetUp(b: Backend, was: Backend, wanted: bool) {
      && b == (if b.present then Loaded(was.(on := false)) else was.(present := false, on := false))
      && (b.present ==> wanted)
    }

    method ServiceInit()
      requires Valid() && main.InitState?
      modifies this
      ensures Valid() && Starts() == old(Starts())
      ensures Fields() == old(Fields()) && main == if old(main).restart then StartTest else Idle
      ensures SetUp(ui, old(ui), !settings.noGui) && SetUp(video, old(video), !settings.noVideo)
    {
      hide Safe, Run, Step;
      ghost var restart := main.restart;
      ResetState();
      var tries := if settings.noGui then 0 else settings.uiCandidates;
      var ret := -1;
      while ret != 0 && tries > 0
        invariant Valid() && Starts() == old(Starts()) && Fields() == old(Fields()) && 0 <= tries
        invariant main == if ret == 0 then InitVideo(restart, if settings.noVideo then 0 else settings.videoCandidates)
                          else InitUi(restart, tries)
        invariant SetUp(ui, old(ui), !settings.noGui) && (ret != 0 ==> !ui.present) && (settings.noGui ==> tries == 0)
        invariant video == old(video).(present := false, on := false)
        decreases tries
      {
        tries := tries - 1;
        ret := InitUiBackend(tries);
      }
      if ret != 0 {
        NoMoreCandidates();
      }
      tries := if settings.noVideo then 0 else settings.videoCandidates;
      ret := -1;
      while ret != 0 && tries > 0
        invariant Valid() && Starts() == old(Starts()) && Fields() == old(Fields()) && 0 <= tries
        invariant main == if ret != 0 then InitVideo(restart, tries) else if restart then StartTest else Idle
        invariant SetUp(ui, old(ui), !settings.noGui) && SetUp(video, old(video), !settings.noVideo)
        invariant (ret != 0 ==> !video.present) && (settings.noVideo ==> tries == 0)
        decreases tries
      {
        tries := tries - 1;
        ret := InitVideoBackend(tries);
      }
      if ret != 0 {
        NoMoreCandidates();
      }
    }

    // ----- Callbacks ----------------------------------------------------------------------------------

    /** Between two callbacks: settled, and in a state of some run. */
    ghost predicate Ready()
      reads this
    {
      Valid() && main == Idle && Settled(View())
    }

    lemma IsReady()
      requires Valid() && main == Idle
      ensures Ready()
    {
      hide PhaseAfter;
      Known();
    }

    /** The bus method start. */
    method HandleStart() returns (ok: bool)
      requires Ready()
      modifies this
      ensures Ready() && Fields() == old(Fields()).(running := running) && (ok ==> !old(running) && running)
      ensures if old(running) then !ok && running else ok == running
      ensures Starts() == old(Starts()) + (if old(running) then 0 else 1)
    {
      hide Safe, Run, Settled;
      main := StartTest;
      Note(Begin(StartMethod), old(View()));
      var ret := ServiceStart();
      ok := ret == 0;
      IsReady();
    }

    /** The bus method stop. */
    method HandleStop() returns (ok: bool)
      requires Ready()
      modifies this
      ensures Ready() && ok == old(running) && Fields() == old(Fields()).(running := false)
      ensures Starts() == old(Starts())
    {
      hide Safe, Run, Settled;
      main := StopTest(Return);
      Note(Begin(StopMethod), old(View()));
      var ret := ServiceStop();
      ok := ret == 0;
      IsReady();
    }

    /** The bus method startorstop: the one or the other. */
    method HandleStartOrStop() returns (ok: bool)
      requires Ready()
      modifies this
      ensures Ready() && Fields() == old(Fields()).(running := running)
      ensures if old(running) then ok && !running else ok == running
      ensures Starts() == old(Starts()) + (if old(running) then 0 else 1)
    {
      hide Safe, Run, Settled;
      main := if running then StopTest(Return) else StartTest;
      Note(Begin(Callback.StartOrStop), old(View()));
      var ret;
      if running {
        ret := ServiceStop();
      } else {
        ret := ServiceStart();
      }
      ok := ret == 0;
      IsReady();
    }

    /** Behind the main loop: everything is torn down, and no thread is left. */
    method ShutDown()
      requires Ready()
      modifies this
      ensures Valid() && main == Exited && Alone(View()) && Starts() == old(Starts())
      ensures Fields() == old(Fields()).(running := false)
      ensures GivenBack(ui) && PhaseAfter(Lives(video.log)) == Phase(false, false)
    {
      hide Safe, Run, Settled, PhaseAfter, Lives;
      main := StopTest(Clean(Quit));
      Note(Begin(Shutdown), old(View()));
      Others();
      var ret := ServiceDestroy();
    }

    /** The bus method setSettings: torn down, set up anew, and started again exactly if it was running. */
    method ApplySettings(st: Settings)
      requires Ready()
      modifies this
      ensures Ready() && Fields() == old(Fields()).(settings := st, running := running)
      ensures (running ==> old(running)) && Starts() == old(Starts()) + (if old(running) then 1 else 0)
    {
      hide Safe, Run, Settled, PhaseAfter, Lives;
      settings := st;
      main := StopTest(Clean(Reinit));
      Note(Begin(SetSettings(st)), old(View()));
      Others();
      var ret := ServiceDestroy();
      ServiceInit();
      if ret == 0 {
        var started := ServiceStart();
      }
      IsReady();
    }

    method PowerChanged(active: bool, processing: bool)
      requires Ready()
      modifies this
      ensures Ready() && Fields() == old(Fields()).(powerPaused := powerPaused, running := running)
      ensures var resume := active && !processing && old(!running && powerPaused);
        var pause := !active && !processing && old(running && !powerPaused);
        && powerPaused == (pause || (old(powerPaused) && !resume))
        && Decided(old(Standing()), Standing(), resume && old(videoConnected || ui.present), pause)
    {
      hide Safe, Run, Settled, Step;
      PowerBegins(View(), active, processing);
      if !running && active && powerPaused && !processing {
        powerPaused := false;
        if videoConnected || ui.present {
          main := StartTest;
          Note(Begin(Power(active, processing)), old(View()));
          StartOrStop(true);
        } else {
          Note(Begin(Power(active, processing)), old(View()));
          IsReady();
        }
      } else if running && !active && !powerPaused && !processing {
        powerPaused := true;
        main := StopTest(Return);
        Note(Begin(Power(active, processing)), old(View()));
        StartOrStop(false);
      }
    }

    /** The start or the stop that a callback has decided on. */
    method StartOrStop(start: bool)
      requires Valid() && main == if start then StartTest else StopTest(Return)
      modifies this
      ensures Ready() && Fields() == old(Fields()).(running := running)
      ensures Decided(old(Standing()), Standing(), start && !old(running), !start)
    {
      hide Safe, Run, Step, Settled;
      if start {
        var ret := ServiceStart();
      } else {
        var ret := ServiceStop();
      }
      IsReady();
    }

    /** Whether the lists in the settings want this application to be captured. */
    method WantsApp(app: string) returns (start: bool)
      ensures start <==> Wanted(settings, app)
    {
      start := true;
      if |settings.included| > 0 {
        start := false;
        for i := 0 to |settings.included|
          invariant start <==> exists j :: 0 <= j < i && settings.included[j] == app
        {
          if app == settings.included[i] {
            start := true;
          }
        }
      } else if |settings.excluded| > 0 {
        var i := 0;
        while i < |settings.excluded| && start
          invariant 0 <= i <= |settings.excluded|
          invariant start <==> forall j :: 0 <= j < i ==> settings.excluded[j] != app
        {
          if app == settings.excluded[i] {
            start := false;
          }
          i := i + 1;
        }
      }
    }

    method DecideOnVideo(nowConnected: bool, app: string) returns (start: bool)
      requires Ready()
      modifies this
      ensures Valid() && main == if start then StartTest else StopTest(Return)
      ensures Fields() == old(Fields()).(videoConnected := nowConnected) && Starts() == old(Starts())
      ensures start <==> (nowConnected || old(ui.present)) && Wanted(settings, app)
    {
      hide Safe, Run, Settled, ShouldStart, Wanted, Step;
      ListsDecide(settings, app);
      VideoBegins(View(), nowConnected, app);
      videoConnected := nowConnected;
      start := false;
      if videoConnected || ui.present {
        start := WantsApp(app);
      }
      main := if start then StartTest else StopTest(Return);
      Note(Begin(VideoOutput(nowConnected, app)), old(View()));
    }

    method VideoOutputChanged(nowConnected: bool, app: string)
      requires Ready()
      modifies this
      ensures Ready() && Fields() == old(Fields()).(videoConnected := nowConnected, running := running)
      ensures var heeded := nowConnected || old(ui.present);
        var wanted := heeded && Wanted(settings, app);
        Decided(old(Standing()), Standing(), wanted && !old(running), !wanted)
    {
      hide Safe, Run, Settled, Wanted, Step;
      var start := DecideOnVideo(nowConnected, app);
      StartOrStop(start);
    }

    method LuminanceChanged(luminance: int)
      requires Ready()
      modifies this
      ensures Ready() && Fields() == old(Fields()).(lumenPaused := lumenPaused, running := running)
      ensures var heeded, bright := settings.lumenThreshold != 0 && !powerPaused, luminance > settings.lumenThreshold;
        var pause := heeded && bright && old(running && !lumenPaused);
        var resume := heeded && !bright && old(!running && lumenPaused);
        && lumenPaused == (pause || (old(lumenPaused) && !resume))
        && Decided(old(Standing()), Standing(), resume, pause)
    {
      hide Safe, Run, Settled, Step;
      if settings.lumenThreshold == 0 || powerPaused {
        return;
      }
      SensorBegins(View(), luminance);
      if luminance > settings.lumenThreshold {
        if running && !lumenPaused {
          lumenPaused := true;
          main := StopTest(Return);
          Note(Begin(Sensor(luminance)), old(View()));
          StartOrStop(false);
        }
      } else if !running && lumenPaused {
        lumenPaused := false;
        main := StartTest;
        Note(Begin(Sensor(luminance)), old(View()));
        StartOrStop(true);
      }
    }
  }

  /**
   With a list of included applications, those on it are wanted, whatever is
   excluded; without one, those that are not excluded.
   */
  ghost predicate Wanted(st: Settings, app: string) {
    if st.included != [] then exists i :: 0 <= i < |st.included| && st.included[i] == app
    else forall i :: 0 <= i < |st.excluded| ==> st.excluded[i] != app
  }

  lemma ListsDecide(st: Settings, app: string)
    ensures ShouldStart(st, app) <==> Wanted(st, app)
  {
  }

  /** Without a capture thread, or with one that is done, nothing happens. */
  lemma Waits(s: State, a: Answer)
    ensures s.cap.at.NoCap? || s.cap.at.CapDone? ==> Lifecycle.Capture(s, a) == s
    ensures Ending(s.cap.at) ==> Lifecycle.Capture(s, a) == CaptureEnd(s)
    ensures !Ending(s.cap.at) ==> Lifecycle.Capture(s, a) == CaptureLoop(s, a)
  {
  }

  lemma ResetStep(s: State)
    requires s.main.InitState?
    ensures var st := s.service.settings;
      Step(s, MainStep(Ok))
      == State(InitUi(s.main.restart, if st.noGui then 0 else st.uiCandidates), s.service,
               Capturer(false, s.cap.at, s.cap.count), Syncer(st.vsync, false, s.sync.at, s.sync.count), s.link,
               s.ui.(present := false, on := false), s.video.(present := false, on := false))
  {
  }

  /** Once both threads have been waited for, the backends are given back. */
  lemma StoppedIsDown(s: State)
    requires Safe(s) && s.main.StopEnd?
    ensures GivenBack(s.ui) && PhaseAfter(Lives(s.video.log)) == Phase(false, false)
    ensures !s.ui.initialized && !s.video.initialized
  {
    hide PhaseAfter, Lives;
  }

  lemma DestroyedIsDown(s: State)
    requires Safe(s) && (s.main.InitState? || s.main.Exited?)
    ensures Alone(s) && GivenBack(s.ui) && PhaseAfter(Lives(s.video.log)) == Phase(false, false)
    ensures !s.ui.initialized && !s.video.initialized
  {
    hide PhaseAfter, Lives;
  }

  /** After a callback that may start or stop: stopped, attempted to start, or left as it was. */
  predicate Decided(was: (nat, bool), now: (nat, bool), start: bool, stop: bool) {
    && now.0 == was.0 + (if start then 1 else 0)
    && (if stop then !now.1 else if start then !was.1 else now.1 == was.1)
  }

  lemma PowerBegins(s: State, active: bool, processing: bool)
    requires s.main.Idle?
    ensures !processing && active != s.service.running && active == s.service.powerPaused ==>
      Step(s, Begin(Power(active, processing)))
      == s.(service := s.service.(powerPaused := !active),
            main := if !active then StopTest(Return)
                    else if s.service.videoConnected || s.ui.present then StartTest else Idle)
  {
  }

  lemma SensorBegins(s: State, luminance: int)
    requires s.main.Idle? && s.service.settings.lumenThreshold != 0 && !s.service.powerPaused
    ensures var v, bright := s.service, luminance > s.service.settings.lumenThreshold;
      bright == v.running && v.running != v.lumenPaused ==>
        Step(s, Begin(Sensor(luminance)))
        == s.(service := v.(lumenPaused := bright), main := if bright then StopTest(Return) else StartTest)
  {
  }

  lemma VideoBegins(s: State, connected: bool, app: string)
    requires s.main.Idle?
    ensures Step(s, Begin(VideoOutput(connected, app)))
      == s.(service := s.service.(videoConnected := connected),
            main := if (connected || s.ui.present) && ShouldStart(s.service.settings, app)
                    then StartTest else StopTest(Return))
  {
  }

  /** When the capture is started nothing has been asked of it yet. */
  lemma NothingAsked(s: State)
    requires Safe(s) && s.main.StartUni?
    ensures !s.cap.asked
  {
  }

  lemma StartSteps(s: State, a: Answer)
    requires s.main.StartTest? || s.main.StartMark? || s.main.StartUni?
          || s.main.StartCap? || s.main.StartLoop? || s.main.StartConn?
    ensures Step(s, MainStep(a)) == AdvanceStart(s, a)
  {
  }

  lemma StopSteps(s: State)
    ensures Stopping(s.main) ==> Step(s, MainStep(Ok)) == AdvanceStop(s)
  {
  }

  lemma UndoSteps(s: State)
    ensures Undoing(s.main) ==> Step(s, MainStep(Ok)) == AdvanceUndo(s)
  {
  }

  lemma SetupSteps(s: State, a: Answer)
    ensures SettingUp(s.main) ==> Step(s, MainStep(a)) == AdvanceSetup(s, a)
  {
  }

  /** Whichever of the other threads goes on. */
  lemma NoneHinders(s: State, a: Answer)
    requires Threads(s)
    ensures !Returned(s.main) ==>
      Steady(Lifecycle.Capture(s, a), s) && Steady(Vsync(s, a), s) && Steady(Connection(s, a), s)
  {
    hide Threads, Steady, Lifecycle.Capture, Vsync, Connection, Returned;
    if !Returned(s.main) {
      HelpHelps(s, CapStep(a));
      HelpHelps(s, VsStep(a));
      HelpHelps(s, ConnStep(a));
    }
  }

  lemma NoFarther(t: State, s: State)
    requires Steady(t, s) || Less(RankOf(t), RankOf(s))
    ensures Less(RankOf(t), RankOf(s)) || RankOf(t) == RankOf(s)
  {
  }

  lemma SameMain(s: State, t: State)
    requires OwnOf(s) == OwnOf(t)
    ensures s.main == t.main
  {
  }

  /** The part of a state that only the main thread changes. */
  datatype Own = Own(main: Main, service: Service, asked: bool, connecting: bool, vsync: bool,
                     ui: bool, video: bool, captures: Count, connections: Count)

  function OwnOf(s: State): Own {
    Own(s.main, s.service, s.cap.asked, s.link.flag, s.sync.vsync, s.ui.present, s.video.present,
        s.cap.count, s.link.count)
  }

  /** No thread but the main one. */
  predicate Alone(s: State) { s.cap.at.NoCap? && s.sync.at.NoVs? && s.link.at.NoConn? }

  lemma OthersKeepOwn(s: State, a: Answer)
    ensures OwnOf(Lifecycle.Capture(s, a)) == OwnOf(s)
    ensures OwnOf(Vsync(s, a)) == OwnOf(s) && OwnOf(Connection(s, a)) == OwnOf(s)
    ensures Alone(s) ==> Lifecycle.Capture(s, a) == s && Vsync(s, a) == s && Connection(s, a) == s
  {
    hide CaptureLoop, CaptureEnd, Vsync, Connection, OwnOf;
    LoopKeepsOwn(s, a);
    EndKeepsOwn(s);
    VsyncKeepsOwn(s, a);
    ConnectionKeepsOwn(s, a);
  }

  lemma LoopKeepsOwn(s: State, a: Answer)
    ensures OwnOf(CaptureLoop(s, a)) == OwnOf(s) && (s.cap.at.NoCap? ==> CaptureLoop(s, a) == s)
  {
  }

  lemma EndKeepsOwn(s: State)
    ensures OwnOf(CaptureEnd(s)) == OwnOf(s)
  {
  }

  lemma VsyncKeepsOwn(s: State, a: Answer)
    ensures OwnOf(Vsync(s, a)) == OwnOf(s) && (s.sync.at.NoVs? ==> Vsync(s, a) == s)
  {
  }

  lemma ConnectionKeepsOwn(s: State, a: Answer)
    ensures OwnOf(Connection(s, a)) == OwnOf(s) && (s.link.at.NoConn? ==> Connection(s, a) == s)
  {
  }

  lemma Recorded(boot: State, past: seq<Event>, e: Event, was: State, now: State)
    requires Run(boot, past) == was && now == Step(was, e)
    ensures Run(boot, past + [e]) == now
  {
    RunConcat(boot, past, [e]);
    assert [e][1..] == [];
    assert Run(was, [e]) == Step(was, e);
  }
}
