/**
 What every call of start finds (unicapture.h:36-43). The capture thread tries
 to initialise a backend again and goes on when that fails; and it calls start
 again about a second after a start that failed. Recorded are the calls that
 open and close a backend and every call of start, whether it works or not.
 */
module LifecycleStarts {
  import opened Lifecycle
  import opened LifecycleSafety
  import opened LifecyclePairs

  /** Which of the two backends. */
  datatype Side = UiSide | VideoSide

  function Of(s: State, w: Side): Backend { if w.UiSide? then s.ui else s.video }

  // ----- The record of a run ---------------------------------------------------------------

  /** An init that works, a cleanup, or a call of start and whether it works. */
  datatype Attempt = Opened | Closed | StartCall(worked: bool)

  predicate Trying(c: Cap, w: Side) { if w.UiSide? then c.TryUi? else c.TryVideo? }

  /** Start is called: the backend is there and not running, and the last attempt is long enough ago. */
  predicate StartIsCalled(s: State, e: Event, w: Side) {
    Trying(s.cap.at, w) && e.CapStep? && e.a != Skip && Of(s, w).present && !Of(s, w).on
  }

  function NewAttempts(s: State, e: Event, w: Side): seq<Attempt> {
    var before, after := Of(s, w).log, Of(Step(s, e), w).log;
    if StartIsCalled(s, e, w) then [StartCall(e.a == Ok)]
    else if after == before + [Init] then [Opened]
    else if after == before + [Cleanup] then [Closed]
    else []
  }

  function Attempts(s: State, es: seq<Event>, w: Side): seq<Attempt>
    decreases |es|
  {
    if es == [] then [] else NewAttempts(s, es[0], w) + Attempts(Step(s, es[0]), es[1..], w)
  }

  predicate UpAfter(up: bool, x: Attempt) { x.Opened? || (x.StartCall? && up) }

  /** Every call of start finds the backend initialised. */
  predicate CallsFindUp(up: bool, xs: seq<Attempt>)
    decreases |xs|
  {
    xs == [] || ((xs[0].StartCall? ==> up) && CallsFindUp(UpAfter(up, xs[0]), xs[1..]))
  }

  predicate OwedAfter(owed: bool, x: Attempt) { if x.StartCall? then owed || !x.worked else owed && !x.Opened? }

  /** After a start that has failed, the backend is initialised again before start is called again. */
  predicate FailuresReopen(owed: bool, xs: seq<Attempt>)
    decreases |xs|
  {
    xs == [] || ((xs[0].StartCall? ==> !owed) && FailuresReopen(OwedAfter(owed, xs[0]), xs[1..]))
  }

  // ----- When the code breaks that -----------------------------------------------------------------

  predicate Reinitialising(c: Cap, w: Side) { if w.UiSide? then c.ReinitUi? else c.ReinitVideo? }

  /** The capture thread fails to initialise the backend again, and goes on. */
  predicate ReinitFails(s: State, e: Event, w: Side) {
    Reinitialising(s.cap.at, w) && e.CapStep? && e.a != Ok && Of(s, w).present && !Of(s, w).initialized
  }

  /** Whether the re-initialisation in this life of the capture thread has failed. */
  predicate FailedLast(s: State, e: Event, w: Side, failed: bool) {
    if Reinitialising(s.cap.at, w) && e.CapStep? then ReinitFails(s, e, w) else failed
  }

  /** Start is called in a life of the capture thread whose re-initialisation has failed. */
  predicate CallsAfterFailure(s: State, es: seq<Event>, w: Side, failed: bool)
    decreases |es|
  {
    es != [] && ((failed && StartIsCalled(s, es[0], w))
                 || CallsAfterFailure(Step(s, es[0]), es[1..], w, FailedLast(s, es[0], w, failed)))
  }

  /** Whether a start has failed in this life, or before it if re-initialisation has failed ever since. */
  predicate FailedStart(s: State, e: Event, w: Side, due: bool) {
    if Reinitialising(s.cap.at, w) && e.CapStep? then due && ReinitFails(s, e, w)
    else due || (StartIsCalled(s, e, w) && e.a != Ok)
  }

  /** Start is called again after it has failed. */
  predicate CallsAgain(s: State, es: seq<Event>, w: Side, due: bool)
    decreases |es|
  {
    es != [] && ((due && StartIsCalled(s, es[0], w))
                 || CallsAgain(Step(s, es[0]), es[1..], w, FailedStart(s, es[0], w, due)))
  }

  // ----- Why it comes to the same -----------------------------------------------------------------

  /** Behind the re-initialisation, until the loop is left. */
  predicate Serving(c: Cap, w: Side) { Looping(c) || c.SpawnVsync? || (w.UiSide? && c.ReinitVideo?) }

  /** Not yet re-initialised in this life, or cleaned up already. */
  predicate Outside(c: Cap, w: Side) {
    c.NoCap? || c.ReinitUi? || c.CapDone? || (if w.UiSide? then c.CleanVideo? else c.ReinitVideo?)
  }

  /** The backend has been dropped and a candidate for a new one is still sought. */
  predicate Blank(m: Main, w: Side) { m.InitUi? || (w.VideoSide? && m.InitVideo?) }

  predicate Down(m: Main, w: Side) { if w.UiSide? then UiDown(m) else VideoDown(m) }

  /** What the record so far says of a backend, and what the two failures say. */
  datatype Marks = Marks(up: bool, failed: bool, owed: bool, due: bool)

  predicate Tells(b: Backend, c: Cap, m: Main, w: Side, k: Marks) {
    && k.up == b.initialized && (b.initialized ==> b.present && !Down(m, w)) && (Blank(m, w) ==> !b.present)
    && (b.present && Serving(c, w) ==> k.failed == !b.initialized)
    && (b.present && !Down(m, w) ==> if b.initialized && Outside(c, w) then !k.owed else k.owed == k.due)
  }

  function Marked(k: Marks, xs: seq<Attempt>, failed: bool, due: bool): Marks {
    if xs == [] then k.(failed := failed, due := due)
    else Marks(UpAfter(k.up, xs[0]), failed, OwedAfter(k.owed, xs[0]), due)
  }

  function MarksAfter(s: State, e: Event, w: Side, k: Marks): Marks {
    Marked(k, NewAttempts(s, e, w), FailedLast(s, e, w, k.failed), FailedStart(s, e, w, k.due))
  }

  lemma LogGrows(log: seq<Call>)
    ensures log != log + [Init] && log != log + [Cleanup] && log + [Init] != log + [Cleanup]
    ensures log + [Start] != log + [Init] && log + [Start] != log + [Cleanup]
    ensures log + [Terminate] != log + [Init] && log + [Terminate] != log + [Cleanup]
  {
    assert (log + [Init])[|log|] == Init && (log + [Cleanup])[|log|] == Cleanup;
    assert (log + [Start])[|log|] == Start && (log + [Terminate])[|log|] == Terminate;
  }

  /** What a step does to the marks, by what it adds to the record. */
  lemma MarksOf(s: State, e: Event, w: Side, k: Marks)
    ensures var before, after, n := Of(s, w).log, Of(Step(s, e), w).log, MarksAfter(s, e, w, k);
      var called := StartIsCalled(s, e, w);
      && n.failed == FailedLast(s, e, w, k.failed) && n.due == FailedStart(s, e, w, k.due)
      && (called ==> n.up == k.up && n.owed == (k.owed || e.a != Ok))
      && (!called && (after == before || after == before + [Start] || after == before + [Terminate]) ==>
            n.up == k.up && n.owed == k.owed)
      && (!called && after == before + [Init] ==> n.up && !n.owed)
      && (!called && after == before + [Cleanup] ==> !n.up && n.owed == k.owed)
  {
    hide Step, FailedLast, FailedStart, StartIsCalled;
    LogGrows(Of(s, w).log);
  }

  /** What a step leaves alone that does not set up. */
  predicate Leaves(s: State, t: State, w: Side) {
    && Of(t, w) == Of(s, w) && (t.cap.at == s.cap.at || (Outside(t.cap.at, w) && Outside(s.cap.at, w)))
    && (t.main == s.main || (!Down(t.main, w) && !Blank(t.main, w) && !Down(s.main, w)))
  }

  lemma StopLeaves(s: State, w: Side)
    requires Stopping(s.main)
    ensures Leaves(s, AdvanceStop(s), w)
  {
  }

  lemma UndoLeaves(s: State, w: Side)
    requires Undoing(s.main)
    ensures Leaves(s, AdvanceUndo(s), w)
  {
  }

  lemma StartLeaves(s: State, a: Answer, w: Side)
    requires !Stopping(s.main) && !SettingUp(s.main) && !Undoing(s.main) && (s.main.StartCap? ==> s.cap.at.NoCap?)
    ensures Leaves(s, AdvanceStart(s, a), w)
  {
  }

  lemma MainLeaves(s: State, a: Answer, w: Side)
    requires Threads(s) && !SettingUp(s.main)
    ensures Leaves(s, Advance(s, a), w)
  {
    hide VsyncNested, ConnectionEnds, Counted, Leaves, AdvanceStop, AdvanceUndo, AdvanceStart;
    if Stopping(s.main) {
      StopLeaves(s, w);
    } else if Undoing(s.main) {
      UndoLeaves(s, w);
    } else {
      StartLeaves(s, a, w);
    }
  }

  lemma OutsideServesNot(c: Cap, w: Side)
    ensures Outside(c, w) ==> !Serving(c, w)
  {
  }

  /** The main thread calls no start, and sets up only while there is no capture thread. */
  lemma MainTells(s: State, a: Answer, w: Side, k: Marks)
    requires Threads(s) && Tells(Of(s, w), s.cap.at, s.main, w, k)
    ensures var t := Advance(s, a); Tells(Of(t, w), t.cap.at, t.main, w, MarksAfter(s, MainStep(a), w, k))
  {
    hide Of, Outside, Serving, Down, Blank, Advance, VsyncNested, ConnectionEnds, Counted, MarksAfter;
    if SettingUp(s.main) {
      OnlyNoCap(s);
      SetupTells(s, a, w, k);
      SetupAdvances(s, a);
    } else {
      MarksOf(s, MainStep(a), w, k);
      MainLeaves(s, a, w);
      OutsideServesNot(s.cap.at, w);
      OutsideServesNot(Advance(s, a).cap.at, w);
    }
  }

  lemma SetupAdvances(s: State, a: Answer)
    requires SettingUp(s.main)
    ensures Advance(s, a) == AdvanceSetup(s, a)
  {
  }

  lemma OnlyNoCap(s: State)
    requires Threads(s) && SettingUp(s.main)
    ensures s.cap.at.NoCap?
  {
  }

  lemma SetupTells(s: State, a: Answer, w: Side, k: Marks)
    requires SettingUp(s.main) && s.cap.at.NoCap? && Tells(Of(s, w), s.cap.at, s.main, w, k)
    ensures var t := AdvanceSetup(s, a); Tells(Of(t, w), t.cap.at, t.main, w, MarksAfter(s, MainStep(a), w, k))
  {
    hide MarksAfter;
    MarksOf(s, MainStep(a), w, k);
  }

  predicate CleaningUp(c: Cap, w: Side) { if w.UiSide? then c.CleanUi? else c.CleanVideo? }

  /** The capture thread shutting down: a backend is terminated, and then cleaned up. */
  lemma EndLeaves(s: State, w: Side)
    requires Ending(s.cap.at)
    ensures var t := CaptureEnd(s);
      && t.main == s.main && (Serving(t.cap.at, w) ==> Serving(s.cap.at, w))
      && (Outside(t.cap.at, w) <==> Outside(s.cap.at, w) || CleaningUp(s.cap.at, w))
      && if CleaningUp(s.cap.at, w) then Of(t, w) == Destroyed(Of(s, w))
         else Of(t, w) in {Of(s, w), Called(Of(s, w), Terminate), Of(s, w).(on := false)}
  {
    hide Destroyed;
  }

  lemma EndTells(s: State, a: Answer, w: Side, k: Marks)
    requires !SettingUp(s.main) && Ending(s.cap.at) && Tells(Of(s, w), s.cap.at, s.main, w, k)
    ensures var t := CaptureEnd(s); Tells(Of(t, w), t.cap.at, t.main, w, MarksAfter(s, CapStep(a), w, k))
  {
    hide CaptureEnd, MarksAfter, Down, Blank, Outside, Serving, Of;
    MarksOf(s, CapStep(a), w, k);
    EndLeaves(s, w);
    OutsideServesNot(s.cap.at, w);
    OutsideServesNot(CaptureEnd(s).cap.at, w);
    ServingIsNot(s.cap.at, w);
  }

  lemma ServingIsNot(c: Cap, w: Side)
    requires Ending(c)
    ensures !Reinitialising(c, w) && !Trying(c, w) && (CleaningUp(c, w) ==> !Outside(c, w) && !Serving(c, w))
  {
  }

  lemma LoopTells(s: State, a: Answer, w: Side, k: Marks)
    requires (s.cap.at.NoCap? || !Down(s.main, w)) && !Ending(s.cap.at) && Tells(Of(s, w), s.cap.at, s.main, w, k)
    ensures var t := Capture(s, a); Tells(Of(t, w), t.cap.at, t.main, w, MarksAfter(s, CapStep(a), w, k))
  {
    hide CaptureEnd, MarksAfter;
    MarksOf(s, CapStep(a), w, k);
  }

  lemma OthersTell(s: State, e: Event, w: Side, k: Marks)
    requires (e.Begin? || e.VsStep? || e.ConnStep?) && Tells(Of(s, w), s.cap.at, s.main, w, k)
    ensures var t := Step(s, e); Tells(Of(t, w), t.cap.at, t.main, w, MarksAfter(s, e, w, k))
  {
    hide MarksAfter;
    MarksOf(s, e, w, k);
  }

  /** Every step keeps record and flags in line; and at a call of start they say the same. */
  lemma StepTells(s: State, e: Event, w: Side, k: Marks)
    requires Threads(s) && Tells(Of(s, w), s.cap.at, s.main, w, k)
    ensures var t := Step(s, e); Tells(Of(t, w), t.cap.at, t.main, w, MarksAfter(s, e, w, k))
    ensures StartIsCalled(s, e, w) ==> k.up == !k.failed && k.owed == k.due
  {
    hide Tells, MarksAfter, StartIsCalled, Advance, Capture, VsyncNested, ConnectionEnds, AllCounted;
    CallTells(s, e, w, k);
    match e
    case MainStep(a) => MainTells(s, a, w, k);
    case CapStep(a) => if Ending(s.cap.at) { EndTells(s, a, w, k); EndsCapture(s, a); } else { LoopTells(s, a, w, k); }
    case _ => OthersTell(s, e, w, k);
  }

  lemma EndsCapture(s: State, a: Answer)
    requires Ending(s.cap.at)
    ensures Capture(s, a) == CaptureEnd(s)
  {
  }

  lemma CallTells(s: State, e: Event, w: Side, k: Marks)
    requires Threads(s) && Tells(Of(s, w), s.cap.at, s.main, w, k)
    ensures StartIsCalled(s, e, w) ==> k.up == !k.failed && k.owed == k.due
  {
    hide VsyncNested, ConnectionEnds, AllCounted;
  }

  /** What one more step adds to the record is at most one call. */
  lemma OneAttempt(s: State, e: Event, w: Side, k: Marks, rest: seq<Attempt>)
    ensures var xs, n := NewAttempts(s, e, w), MarksAfter(s, e, w, k);
      && (CallsFindUp(k.up, xs + rest) <==> (StartIsCalled(s, e, w) ==> k.up) && CallsFindUp(n.up, rest))
      && (FailuresReopen(k.owed, xs + rest) <==> (StartIsCalled(s, e, w) ==> !k.owed) && FailuresReopen(n.owed, rest))
      && n.failed == FailedLast(s, e, w, k.failed) && n.due == FailedStart(s, e, w, k.due)
  {
    hide StartIsCalled, Step, FailedLast, FailedStart;
    var xs := NewAttempts(s, e, w);
    if xs == [] {
      assert xs + rest == rest;
    } else {
      assert (xs + rest)[0] == xs[0] && (xs + rest)[1..] == rest;
    }
  }

  lemma {:induction false} RunTells(s: State, es: seq<Event>, w: Side, k: Marks)
    requires Threads(s) && Tells(Of(s, w), s.cap.at, s.main, w, k)
    ensures CallsFindUp(k.up, Attempts(s, es, w)) <==> !CallsAfterFailure(s, es, w, k.failed)
    ensures FailuresReopen(k.owed, Attempts(s, es, w)) <==> !CallsAgain(s, es, w, k.due)
    decreases |es|
  {
    hide Threads, Tells, Step, FailedLast, FailedStart, StartIsCalled, NewAttempts, MarksAfter;
    if es != [] {
      var t, n := Step(s, es[0]), MarksAfter(s, es[0], w, k);
      ThreadsKept(s, es[0]);
      StepTells(s, es[0], w, k);
      OneAttempt(s, es[0], w, k, Attempts(t, es[1..], w));
      RunTells(t, es[1..], w, n);
    }
  }

  lemma BootTells(st: Settings, autostart: bool, w: Side)
    ensures var s := Boot(st, autostart);
      Threads(s) && Tells(Of(s, w), s.cap.at, s.main, w, Marks(false, false, false, false))
  {
  }

  /**
   Over every run, for either backend, with vsync or without: every call of
   start, working or not, finds the backend initialised, if and only if none is
   made in a life of the capture thread whose re-initialisation has failed.
   */
  lemma EveryRunStartsInitialised(st: Settings, autostart: bool, es: seq<Event>, w: Side)
    ensures CallsFindUp(false, Attempts(Boot(st, autostart), es, w))
      <==> !CallsAfterFailure(Boot(st, autostart), es, w, false)
  {
    BootTells(st, autostart, w);
    RunTells(Boot(st, autostart), es, w, Marks(false, false, false, false));
  }

  /**
   Over every run as well: after every start that has failed the backend is
   initialised again before the next call, if and only if no call follows a
   failed one in the same life of the capture thread, nor in a later one while
   every re-initialisation in between has failed.
   */
  lemma EveryFailedStartReopens(st: Settings, autostart: bool, es: seq<Event>, w: Side)
    ensures FailuresReopen(false, Attempts(Boot(st, autostart), es, w))
      <==> !CallsAgain(Boot(st, autostart), es, w, false)
  {
    BootTells(st, autostart, w);
    RunTells(Boot(st, autostart), es, w, Marks(false, false, false, false));
  }
}
