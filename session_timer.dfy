/** The Pomodoro timer of the study-session page
    (src/pages/StudySessionPage.tsx).  The page keeps the countdown, the
    running flag, the study/break mode, the current subject, topic and
    subtopic, the open session, the number of completed sessions, the
    settings and the session log as state that its handlers update.  The
    once-a-second interval is not modelled: the caller invokes `Tick`, which
    does nothing in the states where the page sets up no interval. */
module SessionTimer {
  import opened Common

  datatype TimerMode = Study | Break

  /** Durations are in seconds. */
  datatype PomodoroSettings = PomodoroSettings(
    studyTime: int,
    breakTime: int,
    longBreakTime: int,
    sessionsUntilLongBreak: int,
    autoStartBreaks: bool,
    autoStartSessions: bool,
    soundEnabled: bool)

  const DefaultSettings: PomodoroSettings :=
    PomodoroSettings(25 * 60, 5 * 60, 15 * 60, 4, false, false, true)

  // ---------------------------------------------------------------------
  // Settings
  // ---------------------------------------------------------------------

  datatype SettingField =
    | StudyTimeField | BreakTimeField | LongBreakTimeField | SessionsUntilLongBreakField
    | AutoStartBreaksField | AutoStartSessionsField | SoundEnabledField

  datatype SettingValue = Num(n: int) | Flag(b: bool)

  /** The numeric fields take numbers, the switches take booleans. */
  predicate FitsField(field: SettingField, value: SettingValue)
  {
    match field
    case StudyTimeField | BreakTimeField | LongBreakTimeField | SessionsUntilLongBreakField => value.Num?
    case _ => value.Flag?
  }

  function GetSetting(s: PomodoroSettings, field: SettingField): (v: SettingValue)
    ensures FitsField(field, v)
  {
    match field
    case StudyTimeField => Num(s.studyTime)
    case BreakTimeField => Num(s.breakTime)
    case LongBreakTimeField => Num(s.longBreakTime)
    case SessionsUntilLongBreakField => Num(s.sessionsUntilLongBreak)
    case AutoStartBreaksField => Flag(s.autoStartBreaks)
    case AutoStartSessionsField => Flag(s.autoStartSessions)
    case SoundEnabledField => Flag(s.soundEnabled)
  }

  /** The settings with `field` set to `value`: that field reads back as
      `value` and every other field is unchanged. */
  function SetSetting(s: PomodoroSettings, field: SettingField, value: SettingValue): (r: PomodoroSettings)
    requires FitsField(field, value)
    ensures GetSetting(r, field) == value
    ensures forall g :: g != field ==> GetSetting(r, g) == GetSetting(s, g)
  {
    match field
    case StudyTimeField => s.(studyTime := value.n)
    case BreakTimeField => s.(breakTime := value.n)
    case LongBreakTimeField => s.(longBreakTime := value.n)
    case SessionsUntilLongBreakField => s.(sessionsUntilLongBreak := value.n)
    case AutoStartBreaksField => s.(autoStartBreaks := value.b)
    case AutoStartSessionsField => s.(autoStartSessions := value.b)
    case SoundEnabledField => s.(soundEnabled := value.b)
  }

  /** Settings are determined by their fields. */
  lemma SettingsByFields(s: PomodoroSettings, t: PomodoroSettings)
    requires forall f :: GetSetting(s, f) == GetSetting(t, f)
    ensures s == t
  {
    assert GetSetting(s, StudyTimeField) == GetSetting(t, StudyTimeField);
    assert GetSetting(s, BreakTimeField) == GetSetting(t, BreakTimeField);
    assert GetSetting(s, LongBreakTimeField) == GetSetting(t, LongBreakTimeField);
    assert GetSetting(s, SessionsUntilLongBreakField) == GetSetting(t, SessionsUntilLongBreakField);
    assert GetSetting(s, AutoStartBreaksField) == GetSetting(t, AutoStartBreaksField);
    assert GetSetting(s, AutoStartSessionsField) == GetSetting(t, AutoStartSessionsField);
    assert GetSetting(s, SoundEnabledField) == GetSetting(t, SoundEnabledField);
  }

  /** Writing back a field's own value changes nothing. */
  lemma SetSettingSame(s: PomodoroSettings, field: SettingField)
    ensures SetSetting(s, field, GetSetting(s, field)) == s
  {
    SettingsByFields(SetSetting(s, field, GetSetting(s, field)), s);
  }

  // ---------------------------------------------------------------------
  // Long breaks
  // ---------------------------------------------------------------------

  function Abs(n: int): nat
  {
    if n < 0 then -n else n
  }

  /** `(completed + 1) % every === 0` under JavaScript's `%`: the remainder
      takes the sign of the (positive) dividend, and a zero divisor gives NaN,
      which equals nothing. */
  function IsLongBreak(completed: nat, every: int): (r: bool)
    ensures every >= 1 ==> (r <==> (completed + 1) % every == 0)
  {
    every != 0 && (completed + 1) % Abs(every) == 0
  }

  lemma MulAtLeast(k: int, b: int)
    requires k >= 1 && b >= 1
    ensures k * b >= b
  {
    assert (k - 1) * b >= 0;
  }

  /** Division with remainder is unique. */
  lemma ModUnique(a: int, b: int, q: int, r: int)
    requires b >= 1 && a == q * b + r && 0 <= r < b
    ensures a % b == r
  {
    var q0, r0 := a / b, a % b;
    assert (q - q0) * b == r0 - r;
    if q > q0 {
      MulAtLeast(q - q0, b);
    } else if q < q0 {
      MulAtLeast(q0 - q, b);
    }
  }

  /** Long breaks recur every `every` completed sessions, and with a period of
      one every break is long. */
  lemma LongBreakPeriodic(completed: nat, every: int)
    requires every >= 1
    ensures IsLongBreak(completed + every, every) <==> IsLongBreak(completed, every)
    ensures every == 1 ==> IsLongBreak(completed, every)
  {
    var a := completed + 1;
    ModUnique(a + every, every, a / every + 1, a % every);
  }

  /** With the default settings the fourth, eighth, ... study interval ends
      in a long break and the others in a short one. */
  lemma DefaultLongBreaks(completed: nat)
    ensures IsLongBreak(completed, DefaultSettings.sessionsUntilLongBreak) <==> completed % 4 == 3
  {
  }

  /** The break that follows the study interval ending with `completed`
      sessions already done. */
  function BreakLength(settings: PomodoroSettings, completed: nat): (t: int)
    ensures t == settings.longBreakTime || t == settings.breakTime
  {
    if IsLongBreak(completed, settings.sessionsUntilLongBreak) then settings.longBreakTime else settings.breakTime
  }

  // ---------------------------------------------------------------------
  // The page's state and its transitions
  // ---------------------------------------------------------------------

  /** Every piece of state the timer handlers read or write. */
  datatype TimerState = TimerState(
    timer: int,
    running: bool,
    mode: TimerMode,
    subject: string,
    topic: string,
    subtopic: string,
    session: Option<StudySession>,
    completed: nat,
    settings: PomodoroSettings,
    log: seq<StudySession>)

  function Started(s: TimerState, subject: string, topic: Option<string>, subtopic: Option<string>,
                   taskId: Option<string>, now: int, id: string): TimerState
  {
    if subject == "" then s
    else s.(subject := subject, topic := OrElse(topic, ""), subtopic := OrElse(subtopic, ""),
            timer := s.settings.studyTime, mode := Study, running := true,
            session := Some(StudySession(id, subject, topic, subtopic, now, None, 0.0, false, taskId)))
  }

  /** Whole minutes between the session's start and `now`, rounded down. */
  function ElapsedMinutes(start: int, now: int): (m: int)
    ensures now >= start ==> m >= 0
  {
    ((now - start) as real / 1000.0 / 60.0).Floor
  }

  /** The record a stop writes for an open session. */
  function Abandoned(session: StudySession, now: int): StudySession
  {
    session.(endTime := Some(now), duration := ElapsedMinutes(session.startTime, now) as real, completed := false)
  }

  function Stopped(s: TimerState, now: int): TimerState
  {
    s.(log := if s.session.Some? then s.log + [Abandoned(s.session.value, now)] else s.log,
       running := false, timer := 0, session := None, subject := "", topic := "", subtopic := "")
  }

  /** The record the end of a study interval writes for the open session. */
  function Finished(session: StudySession, settings: PomodoroSettings, now: int): StudySession
  {
    session.(endTime := Some(now), duration := settings.studyTime as real / 60.0, completed := true)
  }

  /** No interval runs unless the timer is running with time left. */
  predicate Idle(s: TimerState)
  {
    !s.running || s.timer <= 0
  }

  /** One second of the countdown. */
  function Ticked(s: TimerState, now: int): TimerState
  {
    if Idle(s) then s
    else if s.timer > 1 then s.(timer := s.timer - 1)
    else if s.mode == Study then
      s.(log := if s.session.Some? then s.log + [Finished(s.session.value, s.settings, now)] else s.log,
         completed := if s.session.Some? then s.completed + 1 else s.completed,
         mode := Break, timer := BreakLength(s.settings, s.completed))
    else
      s.(mode := Study, session := None, running := false, timer := 0)
  }

  /** `k` consecutive ticks. */
  function Ticks(s: TimerState, now: int, k: nat): TimerState
    decreases k
  {
    if k == 0 then s else Ticks(Ticked(s, now), now, k - 1)
  }

  /** A running countdown at `t` seconds takes `t - 1` ticks to reach its
      last second, changing nothing else on the way. */
  lemma {:induction false} Countdown(s: TimerState, now: int)
    requires s.running && s.timer >= 1
    ensures Ticks(s, now, s.timer - 1) == s.(timer := 1)
    decreases s.timer
  {
    if s.timer > 1 {
      var next := Ticked(s, now);
      assert next == s.(timer := s.timer - 1);
      Countdown(next, now);
      assert next.(timer := 1) == s.(timer := 1);
    }
  }

  /** A running study interval ends after exactly as many ticks as it has
      seconds left: the mode turns to break, the break length is long
      exactly on every `sessionsUntilLongBreak`-th completion, and an open
      session is logged once as completed with the configured study length. */
  lemma StudyIntervalEnds(s: TimerState, now: int)
    requires s.running && s.mode == Study && s.timer >= 1
    ensures Ticks(s, now, s.timer).mode == Break
    ensures Ticks(s, now, s.timer).timer ==
      if IsLongBreak(s.completed, s.settings.sessionsUntilLongBreak) then s.settings.longBreakTime else s.settings.breakTime
    ensures s.session.Some? ==>
      && Ticks(s, now, s.timer).log == s.log + [Finished(s.session.value, s.settings, now)]
      && Ticks(s, now, s.timer).log[|s.log|].completed
      && Ticks(s, now, s.timer).log[|s.log|].duration == s.settings.studyTime as real / 60.0
      && Ticks(s, now, s.timer).completed == s.completed + 1
    ensures s.session.None? ==> Ticks(s, now, s.timer).log == s.log && Ticks(s, now, s.timer).completed == s.completed
  {
    Countdown(s, now);
    TicksSplit(s, now, s.timer - 1);
  }

  lemma {:induction false} TicksSplit(s: TimerState, now: int, k: nat)
    ensures Ticks(s, now, k + 1) == Ticked(Ticks(s, now, k), now)
    decreases k
  {
    if k > 0 {
      TicksSplit(Ticked(s, now), now, k - 1);
    }
  }

  /** A break that reaches zero stops the timer: study mode, no session,
      not running, and nothing more happens on later ticks. */
  lemma BreakEnds(s: TimerState, now: int)
    requires s.running && s.mode == Break && s.timer == 1
    ensures Ticked(s, now).mode == Study && Ticked(s, now).session.None?
    ensures !Ticked(s, now).running && Ticked(s, now).timer == 0
    ensures Ticked(s, now).log == s.log
    ensures forall k: nat :: Ticks(Ticked(s, now), now, k) == Ticked(s, now)
  {
    forall k: nat
      ensures Ticks(Ticked(s, now), now, k) == Ticked(s, now)
    {
      IdleStays(Ticked(s, now), now, k);
    }
  }

  /** An idle timer stays as it is. */
  lemma {:induction false} IdleStays(s: TimerState, now: int, k: nat)
    requires Idle(s)
    ensures Ticks(s, now, k) == s
  {
    if k > 0 {
      IdleStays(s, now, k - 1);
    }
  }

  /** After a stop the timer is idle and cleared, and exactly one record is
      added, as not completed, when a session was open. */
  lemma StopClears(s: TimerState, now: int)
    ensures Idle(Stopped(s, now)) && Stopped(s, now).session.None?
    ensures Stopped(s, now).subject == "" && Stopped(s, now).topic == "" && Stopped(s, now).subtopic == ""
    ensures |Stopped(s, now).log| == |s.log| + (if s.session.Some? then 1 else 0)
    ensures s.session.Some? ==> !Stopped(s, now).log[|s.log|].completed
    ensures Stopped(s, now).log[..|s.log|] == s.log
  {
  }

  /** `completed` counts exactly the completed records added since the log
      held `base` of them. */
  predicate Accounted(s: TimerState, base: nat)
  {
    s.completed + base == CountCompleted(s.log)
  }

  /** Every transition keeps the completed counter in step with the log. */
  lemma AccountedKept(s: TimerState, base: nat, now: int, subject: string, topic: Option<string>,
                      subtopic: Option<string>, taskId: Option<string>, id: string)
    requires Accounted(s, base)
    ensures Accounted(Ticked(s, now), base)
    ensures Accounted(Stopped(s, now), base)
    ensures Accounted(Started(s, subject, topic, subtopic, taskId, now, id), base)
    ensures Accounted(s.(running := !s.running), base)
  {
    hide ElapsedMinutes, BreakLength;
    if s.session.Some? {
      CountAppend(s.log, Finished(s.session.value, s.settings, now));
      CountAppend(s.log, Abandoned(s.session.value, now));
    }
  }

  // ---------------------------------------------------------------------
  // The page
  // ---------------------------------------------------------------------

  class StudySessionPage {
    var timer: int
    var isTimerRunning: bool
    var timerMode: TimerMode
    var currentSubject: string
    var currentTopic: string
    var currentSubtopic: string
    var currentSession: Option<StudySession>
    var completedSessions: nat
    var pomodoroSettings: PomodoroSettings
    var studySessions: seq<StudySession>

    ghost function State(): TimerState
      reads this
    {
      TimerState(timer, isTimerRunning, timerMode, currentSubject, currentTopic, currentSubtopic,
                 currentSession, completedSessions, pomodoroSettings, studySessions)
    }

    /** The page opens stopped, in study mode, with the default settings and
        the shared session log. */
    constructor (log: seq<StudySession>)
      ensures State() == TimerState(0, false, Study, "", "", "", None, 0, DefaultSettings, log)
    {
      timer := 0;
      isTimerRunning := false;
      timerMode := Study;
      currentSubject := "";
      currentTopic := "";
      currentSubtopic := "";
      currentSession := None;
      completedSessions := 0;
      pomodoroSettings := DefaultSettings;
      studySessions := log;
    }

    /** Starts a study interval on `subject`; an empty subject is ignored.
        `now` and `id` stand for the clock reading and the id made from it. */
    method StartTimer(subject: string, topic: Option<string>, subtopic: Option<string>,
                      taskId: Option<string>, now: int, id: string)
      modifies this
      ensures State() == Started(old(State()), subject, topic, subtopic, taskId, now, id)
    {
      if subject == "" {
        return;
      }
      currentSubject := subject;
      currentTopic := OrElse(topic, "");
      currentSubtopic := OrElse(subtopic, "");
      timer := pomodoroSettings.studyTime;
      timerMode := Study;
      isTimerRunning := true;
      currentSession := Some(StudySession(id, subject, topic, subtopic, now, None, 0.0, false, taskId));
    }

    method PauseTimer()
      modifies this
      ensures State() == old(State()).(running := false)
    {
      isTimerRunning := false;
    }

    method ResumeTimer()
      modifies this
      ensures State() == old(State()).(running := true)
    {
      isTimerRunning := true;
    }

    /** Stops the timer, logging an open session as not completed with the
        whole minutes it ran. */
    method StopTimer(now: int)
      modifies this
      ensures State() == Stopped(old(State()), now)
    {
      if currentSession.Some? {
        var session := currentSession.value;
        var duration := ElapsedMinutes(session.startTime, now);
        var completedSession := session.(endTime := Some(now), duration := duration as real, completed := false);
        studySessions := studySessions + [completedSession];
      }
      isTimerRunning := false;
      timer := 0;
      currentSession := None;
      currentSubject := "";
      currentTopic := "";
      currentSubtopic := "";
    }

    method HandleTimerSettingChange(field: SettingField, value: SettingValue)
      requires FitsField(field, value)
      modifies this
      ensures State() == old(State()).(settings := SetSetting(old(pomodoroSettings), field, value))
    {
      pomodoroSettings := SetSetting(pomodoroSettings, field, value);
    }

    /** One run of the interval callback; `now` stands for the clock reading
        stamped on a completed session. */
    method Tick(now: int)
      modifies this
      ensures State() == Ticked(old(State()), now)
    {
      if !(isTimerRunning && timer > 0) {
        return;
      }
      if timer <= 1 {
        if timerMode == Study {
          var longBreak := IsLongBreak(completedSessions, pomodoroSettings.sessionsUntilLongBreak);
          var breakTime := if longBreak then pomodoroSettings.longBreakTime else pomodoroSettings.breakTime;
          if currentSession.Some? {
            var completedSession := currentSession.value.(endTime := Some(now),
              duration := pomodoroSettings.studyTime as real / 60.0, completed := true);
            studySessions := studySessions + [completedSession];
            completedSessions := completedSessions + 1;
          }
          timerMode := Break;
          timer := breakTime;
        } else {
          timerMode := Study;
          currentSession := None;
          isTimerRunning := false;
          timer := 0;
        }
      } else {
        timer := timer - 1;
      }
    }
  }

  /** Pausing and then resuming a running page gives back the page as it
      was. */
  method PauseResume(page: StudySessionPage)
    requires page.State().running
    modifies page
    ensures page.State() == old(page.State())
  {
    page.PauseTimer();
    page.ResumeTimer();
  }
}
