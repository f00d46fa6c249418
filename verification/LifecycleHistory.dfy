/**
 Who stopped the capture, and who starts it again. The service only notes that
 it is paused; the history of a run records which callback started or stopped
 what. Over every run the notes say exactly which pauses are still open, and a
 restart follows the service's own pause exactly when nobody has started the
 capture in between.
 */
module LifecycleHistory {
  import opened Lifecycle
  import opened LifecycleSafety

  // ----- Histories ---------------------------------------------------------------------------

  /** Who acts through a callback. */
  datatype Kind = ByBoot | ByHand | BySettings | ByPower | ByVideo | BySensor | ByShutdown

  function KindOf(cb: Callback): Kind {
    match cb
    case StartMethod => ByHand
    case StopMethod => ByHand
    case StartOrStop => ByHand
    case SetSettings(_) => BySettings
    case Power(_, _) => ByPower
    case VideoOutput(_, _) => ByVideo
    case Sensor(_) => BySensor
    case Shutdown => ByShutdown
  }

  /**
   What has become of the capture: stopped, started, a start given up for lack
   of a connection thread, or the television found on with nothing to capture.
   */
  datatype What = Stopped | Started | GaveUp | Waived

  datatype Entry = Entry(what: What, who: Kind)

  /** The television, by the last power message: on, or off and the service took note of it or did not. */
  datatype Tv = TvOn | OffNoted | OffMissed

  /** A state, the callback being served or served last, and what has happened. */
  datatype Trace = Trace(now: State, who: Kind, log: seq<Entry>, tv: Tv)

  /** The last that k has done is a stop. */
  predicate Open(log: seq<Entry>, k: Kind) {
    log != [] && (var e := log[|log| - 1]; if e.who == k then e.what.Stopped? else Open(log[..|log| - 1], k))
  }

  /** Started, and not stopped since. */
  predicate Up(log: seq<Entry>) {
    log != [] && (var e := log[|log| - 1]; e.what.Started? || (!e.what.Stopped? && Up(log[..|log| - 1])))
  }

  /** The last stop is by k. */
  predicate StoppedLastBy(log: seq<Entry>, k: Kind) {
    log != [] && (var e := log[|log| - 1]; if e.what.Stopped? then e.who == k else StoppedLastBy(log[..|log| - 1], k))
  }

  /** Somebody has started the capture since k last did anything. */
  predicate StartedSince(log: seq<Entry>, k: Kind) {
    log != [] && (var e := log[|log| - 1]; e.who != k && (e.what.Started? || StartedSince(log[..|log| - 1], k)))
  }

  /** Starts and stops alternate. */
  predicate Alternates(log: seq<Entry>) {
    log == [] || (var e, before := log[|log| - 1], log[..|log| - 1];
                  Alternates(before) && (e.what.Stopped? ==> Up(before)) && (e.what.Started? ==> !Up(before)))
  }

  function StepEntries(s: State, a: Answer, who: Kind): seq<Entry> {
    match s.main
    case StopEnd(_) => [Entry(Stopped, who)]
    case StartConn => if a == Ok then [Entry(Started, who)] else []
    case UndoFlags => [Entry(GaveUp, who)]
    case _ => []
  }

  function BeginEntries(s: State, cb: Callback): seq<Entry> {
    if cb == Power(true, false) && !s.service.running && !(s.service.videoConnected || s.ui.present)
    then [Entry(Waived, ByPower)] else []
  }

  function TvAfter(h: Trace, cb: Callback): Tv {
    if !cb.Power? || cb.processing then h.tv
    else if cb.active then TvOn
    else if h.now.service.running || Open(h.log, ByPower) then OffNoted
    else OffMissed
  }

  function Follow(h: Trace, e: Event): Trace {
    var t := Step(h.now, e);
    match e
    case Begin(cb) =>
      if h.now.main != Idle then h else Trace(t, KindOf(cb), h.log + BeginEntries(h.now, cb), TvAfter(h, cb))
    case MainStep(a) => h.(now := t, log := h.log + StepEntries(h.now, a, h.who))
    case _ => h.(now := t)
  }

  function History(h: Trace, es: seq<Event>): Trace
    decreases |es|
  {
    if es == [] then h else History(Follow(h, es[0]), es[1..])
  }

  function Origin(st: Settings, autostart: bool): Trace { Trace(Boot(st, autostart), ByBoot, [], TvOn) }

  lemma {:induction false} HistoryIsRun(h: Trace, es: seq<Event>)
    ensures History(h, es).now == Run(h.now, es)
    decreases |es|
  {
    hide Step, StepEntries, BeginEntries, TvAfter;
    if es != [] {
      BeginOnlyWhenIdle(h.now, es[0]);
      HistoryIsRun(Follow(h, es[0]), es[1..]);
    }
  }

  lemma BeginOnlyWhenIdle(s: State, e: Event)
    ensures e.Begin? && s.main != Idle ==> Step(s, e) == s
  {
  }

  // ----- What the notes mean --------------------------------------------------------------------

  lemma OneMoreEntry(log: seq<Entry>, e: Entry, k: Kind)
    ensures Open(log + [e], k) <==> if e.who == k then e.what.Stopped? else Open(log, k)
    ensures Up(log + [e]) <==> e.what.Started? || (!e.what.Stopped? && Up(log))
    ensures Alternates(log + [e])
      <==> Alternates(log) && (e.what.Stopped? ==> Up(log)) && (e.what.Started? ==> !Up(log))
  {
    assert (log + [e])[..|log|] == log;
  }

  predicate Starting(m: Main) {
    m.StartTest? || m.StartMark? || m.StartUni? || m.StartCap? || m.StartLoop? || m.StartConn? || Undoing(m)
  }

  /** Marked as running, but not started yet. */
  predicate Marked(m: Main) { m.StartUni? || m.StartCap? || m.StartLoop? || m.StartConn? || Undoing(m) }

  /** A note says whether the pause is open; while k's own callback is under way it is ahead of the history. */
  predicate Noted(flag: bool, k: Kind, h: Trace) {
    var m := h.now.main;
    && (h.who == k ==> m.Idle? || Stopping(m) || Starting(m))
    && if h.who == k && Stopping(m) then flag && h.now.service.running && AfterStop(m.k, true) == Idle
       else if h.who == k && Starting(m) then !flag && (m.StartTest? ==> !h.now.service.running)
       else flag == Open(h.log, k)
  }

  predicate Known(h: Trace) {
    && Noted(h.now.service.lumenPaused, BySensor, h) && Noted(h.now.service.powerPaused, ByPower, h)
    && Up(h.log) == (h.now.service.running && !Marked(h.now.main)) && Alternates(h.log)
    && (h.tv.OffNoted? ==> h.now.service.powerPaused) && (h.tv.OffMissed? ==> !h.now.service.powerPaused)
  }

  lemma NoMoreEntries(log: seq<Entry>)
    ensures log + [] == log
  {
  }

  lemma BeginKeepsKnown(h: Trace, cb: Callback)
    requires h.now.main == Idle && Known(h)
    ensures Known(Follow(h, Begin(cb)))
  {
    hide Open, Up, Alternates;
    NoMoreEntries(h.log);
    OneMoreEntry(h.log, Entry(Waived, ByPower), BySensor);
    OneMoreEntry(h.log, Entry(Waived, ByPower), ByPower);
  }

  lemma StopKeepsKnown(h: Trace, a: Answer)
    requires Known(h) && Stopping(h.now.main) && (h.now.main.StopEnd? ==> h.now.service.running)
    ensures Known(Follow(h, MainStep(a)))
  {
    hide Open, Up, Alternates;
    NoMoreEntries(h.log);
    OneMoreEntry(h.log, Entry(Stopped, h.who), BySensor);
    OneMoreEntry(h.log, Entry(Stopped, h.who), ByPower);
  }

  lemma SetupKeepsKnown(h: Trace, a: Answer)
    requires Known(h) && SettingUp(h.now.main)
    ensures Known(Follow(h, MainStep(a)))
  {
    hide Open, Up, Alternates;
    NoMoreEntries(h.log);
  }

  lemma UndoKeepsKnown(h: Trace, a: Answer)
    requires Known(h) && Undoing(h.now.main)
    ensures Known(Follow(h, MainStep(a)))
  {
    hide Open, Up, Alternates;
    NoMoreEntries(h.log);
    OneMoreEntry(h.log, Entry(GaveUp, h.who), BySensor);
    OneMoreEntry(h.log, Entry(GaveUp, h.who), ByPower);
  }

  lemma StartKeepsKnown(h: Trace, a: Answer)
    requires Known(h) && !Stopping(h.now.main) && !SettingUp(h.now.main) && !Undoing(h.now.main)
    requires if h.now.main.StartMark? then !h.now.service.running else Marked(h.now.main) ==> h.now.service.running
    ensures Known(Follow(h, MainStep(a)))
  {
    hide Open, Up, Alternates;
    NoMoreEntries(h.log);
    OneMoreEntry(h.log, Entry(Started, h.who), BySensor);
    OneMoreEntry(h.log, Entry(Started, h.who), ByPower);
  }

  lemma OthersKeepKnown(h: Trace, e: Event)
    requires Known(h) && !e.Begin? && !e.MainStep?
    ensures Known(Follow(h, e))
  {
    hide Open, Up, Alternates;
  }

  /** Every step of every thread and every callback keeps the notes in line with the history. */
  lemma HistoryKept(h: Trace, e: Event)
    requires Threads(h.now) && Known(h)
    ensures Threads(Follow(h, e).now) && Known(Follow(h, e))
  {
    hide VsyncNested, ConnectionEnds, AllCounted, Known, Follow;
    FollowSteps(h, e);
    ThreadsKept(h.now, e);
    match e
    case Begin(cb) => if h.now.main == Idle { BeginKeepsKnown(h, cb); } else { NothingBegins(h, cb); }
    case MainStep(a) =>
      if Stopping(h.now.main) {
        StopKeepsKnown(h, a);
      } else if SettingUp(h.now.main) {
        SetupKeepsKnown(h, a);
      } else if Undoing(h.now.main) {
        UndoKeepsKnown(h, a);
      } else {
        StartKeepsKnown(h, a);
      }
    case _ => OthersKeepKnown(h, e);
  }

  lemma FollowSteps(h: Trace, e: Event)
    ensures Follow(h, e).now == Step(h.now, e)
  {
    hide Step;
    BeginOnlyWhenIdle(h.now, e);
  }

  lemma NothingBegins(h: Trace, cb: Callback)
    requires h.now.main != Idle
    ensures Follow(h, Begin(cb)) == h
  {
  }

  lemma {:induction false} HistoryIsKnown(h: Trace, es: seq<Event>)
    requires Threads(h.now) && Known(h)
    ensures Threads(History(h, es).now) && Known(History(h, es))
    decreases |es|
  {
    hide Threads, Known, Follow;
    if es != [] {
      HistoryKept(h, es[0]);
      HistoryIsKnown(Follow(h, es[0]), es[1..]);
    }
  }

  lemma OriginIsKnown(st: Settings, autostart: bool)
    ensures Threads(Origin(st, autostart).now) && Known(Origin(st, autostart))
  {
  }

  /** Between two callbacks of any run: what is noted is what is still open, and running is having been started. */
  lemma NotesAreExact(st: Settings, autostart: bool, es: seq<Event>)
    ensures var h := History(Origin(st, autostart), es);
      h.now.main.Idle? ==>
        && (h.now.service.running <==> Up(h.log))
        && (h.now.service.lumenPaused <==> Open(h.log, BySensor))
        && (h.now.service.powerPaused <==> Open(h.log, ByPower))
        && (h.tv.OffNoted? ==> Open(h.log, ByPower)) && (h.tv.OffMissed? ==> !Open(h.log, ByPower))
        && Alternates(h.log)
  {
    hide Open, Up, Alternates, History;
    OriginIsKnown(st, autostart);
    HistoryIsKnown(Origin(st, autostart), es);
  }

  // ----- Whose pause it was ------------------------------------------------------------------------

  lemma {:induction false} StartedAfterOpen(log: seq<Entry>, k: Kind)
    requires Up(log) && Open(log, k)
    ensures StartedSince(log, k)
  {
    var e, before := log[|log| - 1], log[..|log| - 1];
    if !e.what.Started? {
      StartedAfterOpen(before, k);
    }
  }

  /** While k's pause is open and nothing runs, the last stop is k's exactly when nobody has started since. */
  lemma {:induction false} OwnPauseIff(log: seq<Entry>, k: Kind)
    requires Alternates(log) && !Up(log) && Open(log, k)
    ensures StoppedLastBy(log, k) <==> !StartedSince(log, k)
  {
    var e, before := log[|log| - 1], log[..|log| - 1];
    if e.who != k {
      if e.what.Stopped? {
        StartedAfterOpen(before, k);
      } else {
        OwnPauseIff(before, k);
      }
    }
  }

  /**
   The light sensor, in any run: a dark room starts the capture exactly when it
   is down, the sensor's pause is open and no power pause is. That undoes the
   last stop if and only if nobody has started the capture since that pause. A
   television that is off prevents it if and only if switching off was noted.
   */
  lemma SensorRestartsIff(st: Settings, autostart: bool, es: seq<Event>, luminance: int)
    ensures var h := History(Origin(st, autostart), es);
      h.now.main.Idle? ==>
        var t, th := BeginCallback(h.now, Sensor(luminance)), h.now.service.settings.lumenThreshold;
        var dark := th != 0 && luminance <= th && !Up(h.log) && Open(h.log, BySensor);
        && (t.main == StartTest <==> dark && !Open(h.log, ByPower))
        && (t.main == StopTest(Return)
            <==> th != 0 && luminance > th && Up(h.log) && !Open(h.log, BySensor) && !Open(h.log, ByPower))
        && (t.main == StartTest ==> (StoppedLastBy(h.log, BySensor) <==> !StartedSince(h.log, BySensor)))
        && (dark && !h.tv.TvOn? ==> (t.main == StartTest <==> h.tv.OffMissed?))
  {
    hide Open, Up, Alternates, History, StoppedLastBy, StartedSince;
    NotesAreExact(st, autostart, es);
    var h := History(Origin(st, autostart), es);
    if h.now.main.Idle? && BeginCallback(h.now, Sensor(luminance)).main == StartTest {
      OwnPauseIff(h.log, BySensor);
    }
  }

  /** Switching the television off, in any run, stops a running capture exactly when no power pause is open. */
  lemma PowerOffStopsIff(st: Settings, autostart: bool, es: seq<Event>)
    ensures var h := History(Origin(st, autostart), es);
      h.now.main.Idle? ==>
        var t := BeginCallback(h.now, Power(false, false));
        && (t.main == StopTest(Return) && t.service.powerPaused <==> Up(h.log) && !Open(h.log, ByPower))
        && (t.main != StopTest(Return) ==> t == h.now)
  {
    hide Open, Up, Alternates, History;
    NotesAreExact(st, autostart, es);
  }

  /**
   Switching it on, in any run: it resumes exactly while a power pause is open,
   with nothing running and something to capture. That undoes the last stop if
   and only if nobody has started the capture since that pause.
   */
  lemma PowerOnResumesIff(st: Settings, autostart: bool, es: seq<Event>)
    ensures var h := History(Origin(st, autostart), es);
      h.now.main.Idle? ==>
        var t := BeginCallback(h.now, Power(true, false));
        && (t.main == StartTest
            <==> !Up(h.log) && Open(h.log, ByPower) && (h.now.service.videoConnected || h.now.ui.present))
        && (t.main == StartTest ==> (StoppedLastBy(h.log, ByPower) <==> !StartedSince(h.log, ByPower)))
  {
    hide Open, Up, Alternates, History, StoppedLastBy, StartedSince;
    NotesAreExact(st, autostart, es);
    var h := History(Origin(st, autostart), es);
    if h.now.main.Idle? && BeginCallback(h.now, Power(true, false)).main == StartTest {
      OwnPauseIff(h.log, ByPower);
    }
  }
}
