/**
 No callback of the capture service can hang for good. The main thread waits in
 joins only, and whoever it waits for has been told to finish; the capture
 thread waits for the vsync thread's signal and for its end. On every fair
 schedule of the threads, whatever backends, network and clock answer, the
 callback returns.
 */
module LifecycleProgress {
  import opened Lifecycle
  import opened LifecycleSafety
  import opened LifecyclePairs

  predicate Returned(m: Main) { m.Idle? || m.Exited? }

  /** Main thread: the steps still ahead of it, whatever the answers. */
  function MainRank(m: Main): nat {
    match m
    case Idle => 0
    case Exited => 0
    case StopTest(k) => Behind(k) + 6
    case StopConn(k) => Behind(k) + 5
    case StopUni(k) => Behind(k) + 4
    case StopJoinCap(k) => Behind(k) + 3
    case StopJoinConn(k) => Behind(k) + 2
    case StopEnd(k) => Behind(k) + 1
    case DestroyUi(_, _) => 14
    case DestroyVideo(_, _) => 13
    case InitState(_) => 12
    case InitUi(_, _) => 11
    case InitVideo(_, _) => 10
    case StartTest => 9
    case StartMark => 8
    case StartUni => 7
    case StartCap => 6
    case StartLoop => 5
    case StartConn => 4
    case UndoUni => 3
    case UndoJoin => 2
    case UndoFlags => 1
  }

  /** What a stop is part of. */
  function Behind(k: After): nat { if k.Clean? then 14 else 0 }

  /** Candidates still to be tried. */
  function Tries(m: Main): nat { if m.InitUi? || m.InitVideo? then m.tries else 0 }

  /** Capture thread, once it has been asked to stop. */
  function CapRank(c: Cap): nat {
    match c
    case ReinitUi => 22
    case ReinitVideo => 21
    case SpawnVsync => 20
    case TryUi => 19
    case TryVideo => 18
    case Wait => 17
    case AcquireUi => 16
    case AcquireVideo => 15
    case TermVideo => 14
    case ClearVideo => 13
    case Test => 12
    case StopVsync => 11
    case JoinVsync => 10
    case EndUi => 9
    case EndUiClear => 8
    case EndVideo => 7
    case EndVideoClear => 6
    case CleanUi => 5
    case CleanVideo => 4
    case CapDone => 0
    case NoCap => 0
  }

  /** Vsync thread: on its way to the signal while its flag is up, to its end once it is down. */
  function VsRank(v: Vs, flag: bool): nat {
    match v
    case VsCheck => 6
    case VsWait => 5
    case VsTerm => 4
    case VsClear => 3
    case VsSignal => 2
    case VsTest => if flag then 7 else 1
    case VsDone => 0
    case NoVs => 0
  }

  /** Connection thread, once its flag is down. */
  function ConnRank(c: Conn): nat {
    match c
    case ConnPoll => 4
    case ConnRead => 3
    case ConnClose => 2
    case ConnTest => 1
    case ConnDone => 0
    case NoConn => 0
  }

  datatype Thread = MainThread | CapThread | VsThread | ConnThread

  function StepOf(h: Thread, a: Answer): Event {
    match h
    case MainThread => MainStep(a)
    case CapThread => CapStep(a)
    case VsThread => VsStep(a)
    case ConnThread => ConnStep(a)
  }

  /** The main thread waits for the capture thread. */
  predicate JoiningCapture(m: Main) { m.StopJoinCap? || m.UndoJoin? }

  /** The capture thread waits for the vsync thread: for its signal or for its end. */
  predicate WaitsForVsync(c: Cap) { c.Wait? || c.JoinVsync? }

  /** The thread that brings the callback closer to its end: the main thread, or the one it is waiting for. */
  function Helper(s: State): Thread {
    if JoiningCapture(s.main) && !s.cap.at.CapDone? then
      if s.cap.at.Wait? || (s.cap.at.JoinVsync? && !s.sync.at.VsDone?) then VsThread else CapThread
    else if s.main.StopJoinConn? && !s.link.at.ConnDone? then ConnThread
    else MainThread
  }

  datatype Rank = Rank(main: nat, tries: nat, cap: nat, vs: nat, conn: nat)

  /** A thread counts while it is waited for. */
  function RankOf(s: State): Rank {
    Rank(MainRank(s.main), Tries(s.main),
         if JoiningCapture(s.main) then CapRank(s.cap.at) else 0,
         if JoiningCapture(s.main) && WaitsForVsync(s.cap.at) then VsRank(s.sync.at, s.sync.flag) else 0,
         if s.main.StopJoinConn? then ConnRank(s.link.at) else 0)
  }

  /** Lexicographically less. */
  predicate Less(a: Rank, b: Rank) {
    || a.main < b.main
    || (a.main == b.main && a.tries < b.tries)
    || (a.main == b.main && a.tries == b.tries && a.cap < b.cap)
    || (a.main == b.main && a.tries == b.tries && a.cap == b.cap && a.vs < b.vs)
    || (a.main == b.main && a.tries == b.tries && a.cap == b.cap && a.vs == b.vs && a.conn < b.conn)
  }

  /** Closer to the end, or no farther and the same thread still the one to help. */
  predicate Steady(t: State, s: State) {
    Less(RankOf(t), RankOf(s)) || (RankOf(t) == RankOf(s) && Helper(t) == Helper(s))
  }

  // ----- One step of each thread ----------------------------------------------------------------

  lemma StopHelps(s: State)
    requires FlagsAgree(s.main, StandOf(s)) && Stopping(s.main)
    ensures if Helper(s).MainThread? then Less(RankOf(AdvanceStop(s)), RankOf(s)) else AdvanceStop(s) == s
  {
    hide CapRank, VsRank, ConnRank;
  }

  lemma SetupHelps(s: State, a: Answer)
    requires SettingUp(s.main)
    ensures Helper(s).MainThread? && Less(RankOf(AdvanceSetup(s, a)), RankOf(s))
  {
    hide CapRank, VsRank, ConnRank;
  }

  lemma UndoHelps(s: State)
    requires FlagsAgree(s.main, StandOf(s)) && Undoing(s.main)
    ensures if Helper(s).MainThread? then Less(RankOf(AdvanceUndo(s)), RankOf(s)) else AdvanceUndo(s) == s
  {
    hide CapRank, VsRank, ConnRank;
  }

  lemma StartHelps(s: State, a: Answer)
    requires !Returned(s.main) && !Stopping(s.main) && !SettingUp(s.main) && !Undoing(s.main)
    ensures Helper(s).MainThread? && Less(RankOf(AdvanceStart(s, a)), RankOf(s))
  {
    hide CapRank, VsRank, ConnRank;
  }

  lemma MainHelps(s: State, a: Answer)
    requires Threads(s) && !Returned(s.main)
    ensures if Helper(s).MainThread? then Less(RankOf(Advance(s, a)), RankOf(s)) else Advance(s, a) == s
  {
    hide VsyncNested, ConnectionEnds, Counted, RankOf, Less, Helper,
         AdvanceStop, AdvanceSetup, AdvanceUndo, AdvanceStart, FlagsAgree;
    if Stopping(s.main) {
      StopHelps(s);
    } else if SettingUp(s.main) {
      SetupHelps(s, a);
    } else if Undoing(s.main) {
      UndoHelps(s);
    } else {
      StartHelps(s, a);
    }
  }

  /** While it is joined the capture thread never goes back; and it stays where it is only while it waits. */
  lemma CapRankFalls(s: State, a: Answer)
    requires !s.cap.at.NoCap? && !s.cap.at.CapDone? && !s.cap.asked
    ensures var t := Capture(s, a);
      || CapRank(t.cap.at) < CapRank(s.cap.at)
      || (t == s && (s.cap.at.Wait? || (s.cap.at.JoinVsync? && !s.sync.at.VsDone?)))
  {
  }

  /** What the capture thread leaves alone. */
  lemma CapKeepsPlace(s: State, a: Answer)
    ensures var t := Capture(s, a);
      t.main == s.main && t.link == s.link && (s.cap.at.NoCap? || s.cap.at.CapDone? ==> t == s)
  {
  }

  lemma CapHelps(s: State, a: Answer)
    requires Threads(s)
    ensures Steady(Capture(s, a), s)
    ensures Helper(s).CapThread? ==> Less(RankOf(Capture(s, a)), RankOf(s))
  {
    hide VsyncNested, ConnectionEnds, Counted, CapRank, VsRank, ConnRank, MainRank, Capture;
    CapKeepsPlace(s, a);
    if JoiningCapture(s.main) && !s.cap.at.CapDone? {
      CapRankFalls(s, a);
    }
  }

  lemma VsHelps(s: State, a: Answer)
    requires Threads(s)
    ensures Steady(Vsync(s, a), s)
    ensures Helper(s).VsThread? ==> Less(RankOf(Vsync(s, a)), RankOf(s))
  {
    hide ConnectionEnds, Counted, FlagsAgree, MainRank, ConnRank;
  }

  lemma ConnHelps(s: State, a: Answer)
    requires Threads(s)
    ensures Steady(Connection(s, a), s)
    ensures Helper(s).ConnThread? ==> Less(RankOf(Connection(s, a)), RankOf(s))
  {
    hide Counted, VsyncNested, MainRank, CapRank, VsRank;
  }

  /** No step hinders, and a step of the helper helps, whatever the answer. */
  lemma HelpHelps(s: State, e: Event)
    requires Threads(s) && !Returned(s.main)
    ensures Steady(Step(s, e), s)
    ensures forall a :: e == StepOf(Helper(s), a) ==> Less(RankOf(Step(s, e)), RankOf(s))
  {
    hide Threads, Advance, Capture, Vsync, Connection, RankOf, Less, Helper;
    match e
    case Begin(_) =>
    case MainStep(a) => MainHelps(s, a);
    case CapStep(a) => CapHelps(s, a);
    case VsStep(a) => VsHelps(s, a);
    case ConnStep(a) => ConnHelps(s, a);
  }

  // ----- Fair schedules ------------------------------------------------------------------------

  /** The first n events of a schedule, from the i-th on. */
  function Play(s: State, f: nat -> Event, i: nat, n: nat): State
    decreases n
  {
    if n == 0 then s else Play(Step(s, f(i)), f, i + 1, n - 1)
  }

  predicate Acts(f: nat -> Event, i: nat, h: Thread) {
    match f(i)
    case Begin(_) => false
    case MainStep(_) => h.MainThread?
    case CapStep(_) => h.CapThread?
    case VsStep(_) => h.VsThread?
    case ConnStep(_) => h.ConnThread?
  }

  ghost predicate ActsFrom(f: nat -> Event, i: nat, h: Thread) { exists j: nat :: i <= j && Acts(f, j, h) }

  /** Every thread gets its turn again and again; further callbacks may arrive meanwhile. */
  ghost predicate Fair(f: nat -> Event) { forall i: nat, h: Thread :: ActsFrom(f, i, h) }

  ghost predicate Returns(s: State, f: nat -> Event, i: nat) { exists n: nat :: Returned(Play(s, f, i, n).main) }

  lemma ReturnsLater(s: State, f: nat -> Event, i: nat)
    requires Returns(Step(s, f(i)), f, i + 1)
    ensures Returns(s, f, i)
  {
    hide Step;
    var n: nat :| Returned(Play(Step(s, f(i)), f, i + 1, n).main);
    assert Play(s, f, i, n + 1) == Play(Step(s, f(i)), f, i + 1, n);
  }

  lemma ActsIsStep(f: nat -> Event, i: nat, h: Thread)
    requires Acts(f, i, h)
    ensures exists a :: f(i) == StepOf(h, a)
  {
    match f(i)
    case MainStep(a) => assert f(i) == StepOf(h, a);
    case CapStep(a) => assert f(i) == StepOf(h, a);
    case VsStep(a) => assert f(i) == StepOf(h, a);
    case ConnStep(a) => assert f(i) == StepOf(h, a);
  }

  /** The helper is going to act at j; until then nothing gets worse. */
  lemma {:induction false} HelpComes(s: State, f: nat -> Event, i: nat, j: nat)
    requires Threads(s) && Fair(f) && i <= j && Acts(f, j, Helper(s))
    ensures Returns(s, f, i)
    decreases RankOf(s).main, RankOf(s).tries, RankOf(s).cap, RankOf(s).vs, RankOf(s).conn, j - i
  {
    hide Threads, Step, RankOf, Helper, Acts, StepOf, Returned;
    if Returned(s.main) {
      assert Play(s, f, i, 0) == s;
    } else {
      var t := Step(s, f(i));
      HelpHelps(s, f(i));
      ThreadsKept(s, f(i));
      if i == j {
        ActsIsStep(f, i, Helper(s));
      }
      if Less(RankOf(t), RankOf(s)) {
        assert ActsFrom(f, i + 1, Helper(t));
        var k: nat :| i + 1 <= k && Acts(f, k, Helper(t));
        HelpComes(t, f, i + 1, k);
      } else {
        HelpComes(t, f, i + 1, j);
      }
      ReturnsLater(s, f, i);
    }
  }

  /** From every state that some run leads to, on every fair schedule and whatever the answers, the callback returns. */
  lemma EveryFairRunReturns(st: Settings, autostart: bool, es: seq<Event>, f: nat -> Event)
    requires Fair(f)
    ensures Returns(Run(Boot(st, autostart), es), f, 0)
  {
    hide Run, Threads, Helper, Acts;
    BootIsSafe(st, autostart);
    RunIsSafe(Boot(st, autostart), es);
    var s := Run(Boot(st, autostart), es);
    SafeThreads(s);
    assert ActsFrom(f, 0, Helper(s));
    var j: nat :| 0 <= j && Acts(f, j, Helper(s));
    HelpComes(s, f, 0, j);
  }

  lemma SafeThreads(s: State)
    requires Safe(s)
    ensures Threads(s)
  {
  }

  function Turn(h: Thread): nat {
    match h
    case MainThread => 0
    case CapThread => 1
    case VsThread => 2
    case ConnThread => 3
  }

  function AtTurn(k: nat): Thread {
    if k == 0 then MainThread else if k == 1 then CapThread else if k == 2 then VsThread else ConnThread
  }

  /** The threads in turn. */
  function InTurn(answers: nat -> Answer): nat -> Event {
    (n: nat) => StepOf(AtTurn(n % 4), answers(n))
  }

  lemma InTurnIsFair(answers: nat -> Answer)
    ensures Fair(InTurn(answers))
  {
    var f := InTurn(answers);
    forall i: nat, h: Thread ensures ActsFrom(f, i, h) {
      var j := 4 * (i / 4 + 1) + Turn(h);
      assert j % 4 == Turn(h) && i <= j;
      assert f(j) == StepOf(h, answers(j));
      assert Acts(f, j, h);
    }
  }

  /** No deadlock, whatever has happened before and whatever is answered from now on. */
  lemma NoDeadlock(st: Settings, autostart: bool, es: seq<Event>, answers: nat -> Answer)
    ensures Returns(Run(Boot(st, autostart), es), InTurn(answers), 0)
  {
    InTurnIsFair(answers);
    EveryFairRunReturns(st, autostart, es, InTurn(answers));
  }
}
