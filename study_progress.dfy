/** The statistics of the study-progress dialog
    (src/components/study/StudyProgressModal.tsx): minutes studied in total,
    today and this week, the completed counts, minutes per subject and per
    topic, the per-subject chart rows and the recent-session history.
    Whether a session started today or this week is decided by the caller's
    calendar, passed in as predicates on the start time. */
module StudyProgress {
  import opened Common

  // ---------------------------------------------------------------------
  // Totals and counts
  // ---------------------------------------------------------------------

  /** The sum of the sessions' durations; 0 for no sessions. */
  function TotalTime(sessions: seq<StudySession>): real
  {
    if sessions == [] then 0.0 else TotalTime(sessions[..|sessions| - 1]) + sessions[|sessions| - 1].duration
  }

  /** The sessions whose start time satisfies `inPeriod`, in their order. */
  function InPeriod(sessions: seq<StudySession>, inPeriod: int -> bool): (r: seq<StudySession>)
    ensures |r| <= |sessions|
    ensures forall i :: 0 <= i < |r| ==> inPeriod(r[i].startTime)
  {
    if sessions == [] then []
    else
      var last := sessions[|sessions| - 1];
      InPeriod(sessions[..|sessions| - 1], inPeriod) + (if inPeriod(last.startTime) then [last] else [])
  }

  /** The filter keeps exactly the sessions of the period. */
  lemma {:induction false} InPeriodMembers(sessions: seq<StudySession>, inPeriod: int -> bool, x: StudySession)
    ensures x in InPeriod(sessions, inPeriod) <==> x in sessions && inPeriod(x.startTime)
  {
    if sessions != [] {
      var n := |sessions| - 1;
      InPeriodMembers(sessions[..n], inPeriod, x);
      assert sessions == sessions[..n] + [sessions[n]];
    }
  }

  /** The filter is the whole list when every session is in the period and
      empty when none is. */
  lemma {:induction false} InPeriodAllOrNone(sessions: seq<StudySession>, inPeriod: int -> bool)
    ensures (forall i :: 0 <= i < |sessions| ==> inPeriod(sessions[i].startTime)) ==> InPeriod(sessions, inPeriod) == sessions
    ensures (forall i :: 0 <= i < |sessions| ==> !inPeriod(sessions[i].startTime)) ==> InPeriod(sessions, inPeriod) == []
  {
    if sessions != [] {
      var n := |sessions| - 1;
      InPeriodAllOrNone(sessions[..n], inPeriod);
      assert sessions == sessions[..n] + [sessions[n]];
    }
  }

  /** Filtering two logs one after the other gives the filtered first log
      followed by the filtered second: together with the one-session case
      this fixes the order and the repeats the filter keeps. */
  lemma {:induction false} InPeriodAppend(a: seq<StudySession>, b: seq<StudySession>, inPeriod: int -> bool)
    ensures InPeriod(a + b, inPeriod) == InPeriod(a, inPeriod) + InPeriod(b, inPeriod)
    decreases |b|
  {
    if b == [] {
      assert a + b == a;
    } else {
      var n := |b| - 1;
      InPeriodAppend(a, b[..n], inPeriod);
      assert (a + b)[..|a + b| - 1] == a + b[..n];
      assert (a + b)[|a + b| - 1] == b[n];
    }
  }

  /** The sessions outside a period. */
  function Outside(inPeriod: int -> bool): int -> bool
  {
    t => !inPeriod(t)
  }

  /** The time inside a period and the time outside it add up to the whole. */
  lemma {:induction false} PeriodSplit(sessions: seq<StudySession>, inPeriod: int -> bool)
    ensures TotalTime(InPeriod(sessions, inPeriod)) + TotalTime(InPeriod(sessions, Outside(inPeriod))) == TotalTime(sessions)
  {
    if sessions != [] {
      var n := |sessions| - 1;
      var last := sessions[n];
      PeriodSplit(sessions[..n], inPeriod);
      var inside := InPeriod(sessions[..n], inPeriod);
      var outside := InPeriod(sessions[..n], Outside(inPeriod));
      if inPeriod(last.startTime) {
        assert InPeriod(sessions, inPeriod) == inside + [last];
        assert InPeriod(sessions, Outside(inPeriod)) == outside + [];
        TotalAppend(inside, last);
        assert outside + [] == outside;
      } else {
        assert InPeriod(sessions, inPeriod) == inside + [];
        assert InPeriod(sessions, Outside(inPeriod)) == outside + [last];
        TotalAppend(outside, last);
        assert inside + [] == inside;
      }
    }
  }

  lemma TotalAppend(sessions: seq<StudySession>, x: StudySession)
    ensures TotalTime(sessions + [x]) == TotalTime(sessions) + x.duration
  {
    assert (sessions + [x])[..|sessions|] == sessions;
  }

  /** Completed sessions of a period are completed sessions of the list. */
  lemma {:induction false} PeriodCompletedBelow(sessions: seq<StudySession>, inPeriod: int -> bool)
    ensures CountCompleted(InPeriod(sessions, inPeriod)) <= CountCompleted(sessions)
  {
    if sessions != [] {
      var n := |sessions| - 1;
      PeriodCompletedBelow(sessions[..n], inPeriod);
      CountAppend(sessions[..n], sessions[n]);
      assert sessions[..n] + [sessions[n]] == sessions;
      var inside := InPeriod(sessions[..n], inPeriod);
      if inPeriod(sessions[n].startTime) {
        CountAppend(inside, sessions[n]);
      } else {
        assert inside + [] == inside;
      }
    }
  }

  // ---------------------------------------------------------------------
  // Minutes per subject and per topic
  // ---------------------------------------------------------------------

  /** A dictionary of minutes with its keys in insertion order, which is the
      order `Object.entries` lists them in. */
  datatype Tally = Tally(keys: seq<string>, minutes: map<string, real>)

  /** Keys appear once each and are exactly the dictionary's keys. */
  ghost predicate WellFormed(t: Tally)
  {
    && (forall i, j :: 0 <= i < j < |t.keys| ==> t.keys[i] != t.keys[j])
    && (forall k :: k in t.keys <==> k in t.minutes)
  }

  /** The minutes under `k`, 0 when the key is missing. */
  function Get(minutes: map<string, real>, k: string): real
  {
    if k in minutes then minutes[k] else 0.0
  }

  datatype TallyKind = BySubject | ByTopic

  /** The key a session is counted under: its subject, or for topics
      "subject - topic" when the topic is present and non-empty. */
  function KeyOf(kind: TallyKind, s: StudySession): Option<string>
  {
    match kind
    case BySubject => Some(s.subject)
    case ByTopic => if Truthy(s.topic) then Some(s.subject + " - " + s.topic.value) else None
  }

  /** `acc[key] = (acc[key] || 0) + duration` for a keyed session. */
  function Add(t: Tally, kind: TallyKind, s: StudySession): Tally
  {
    match KeyOf(kind, s)
    case None => t
    case Some(k) =>
      Tally(if k in t.minutes then t.keys else t.keys + [k], t.minutes[k := Get(t.minutes, k) + s.duration])
  }

  /** The dictionary the reduction builds over the sessions. */
  function TallyOf(sessions: seq<StudySession>, kind: TallyKind): Tally
  {
    if sessions == [] then Tally([], map[])
    else Add(TallyOf(sessions[..|sessions| - 1], kind), kind, sessions[|sessions| - 1])
  }

  /** The minutes of the sessions counted under `k`. */
  function KeyTime(sessions: seq<StudySession>, kind: TallyKind, k: string): real
  {
    if sessions == [] then 0.0
    else
      var last := sessions[|sessions| - 1];
      KeyTime(sessions[..|sessions| - 1], kind, k) + (if KeyOf(kind, last) == Some(k) then last.duration else 0.0)
  }

  /** The minutes of every session that has a key. */
  function KeyedTime(sessions: seq<StudySession>, kind: TallyKind): real
  {
    if sessions == [] then 0.0
    else
      var last := sessions[|sessions| - 1];
      KeyedTime(sessions[..|sessions| - 1], kind) + (if KeyOf(kind, last).Some? then last.duration else 0.0)
  }

  /** Every session has a subject key, so the subject tally covers all time. */
  lemma {:induction false} SubjectsKeyAll(sessions: seq<StudySession>)
    ensures KeyedTime(sessions, BySubject) == TotalTime(sessions)
  {
    if sessions != [] {
      SubjectsKeyAll(sessions[..|sessions| - 1]);
    }
  }

  /** One update keeps the keys distinct and in step with the dictionary. */
  lemma AddWellFormed(t: Tally, kind: TallyKind, s: StudySession)
    requires WellFormed(t)
    ensures WellFormed(Add(t, kind, s))
  {
  }

  /** The tally's keys are listed once each and are its dictionary's keys. */
  lemma {:induction false} TallyWellFormed(sessions: seq<StudySession>, kind: TallyKind)
    ensures WellFormed(TallyOf(sessions, kind))
  {
    if sessions != [] {
      TallyWellFormed(sessions[..|sessions| - 1], kind);
      AddWellFormed(TallyOf(sessions[..|sessions| - 1], kind), kind, sessions[|sessions| - 1]);
    }
  }

  /** The minutes under a key are the minutes of its sessions; a key that
      never occurs is missing, which the source reads as 0. */
  lemma {:induction false} TallyValue(sessions: seq<StudySession>, kind: TallyKind, k: string)
    ensures Get(TallyOf(sessions, kind).minutes, k) == KeyTime(sessions, kind, k)
  {
    if sessions != [] {
      TallyValue(sessions[..|sessions| - 1], kind, k);
    }
  }

  /** A key is in the tally exactly when some session is counted under it. */
  lemma {:induction false} TallyKey(sessions: seq<StudySession>, kind: TallyKind, k: string)
    ensures k in TallyOf(sessions, kind).minutes <==> exists i :: 0 <= i < |sessions| && KeyOf(kind, sessions[i]) == Some(k)
  {
    if sessions != [] {
      var n := |sessions| - 1;
      var front := sessions[..n];
      TallyKey(front, kind, k);
      if exists i :: 0 <= i < |front| && KeyOf(kind, front[i]) == Some(k) {
        var i :| 0 <= i < |front| && KeyOf(kind, front[i]) == Some(k);
        assert sessions[i] == front[i];
      }
      if exists i :: 0 <= i < |sessions| && KeyOf(kind, sessions[i]) == Some(k) {
        var i :| 0 <= i < |sessions| && KeyOf(kind, sessions[i]) == Some(k);
        if i < n {
          assert front[i] == sessions[i];
        }
      }
    }
  }

  /** The minutes of the keys `keys`, added up in order. */
  function SumOver(keys: seq<string>, minutes: map<string, real>): real
  {
    if keys == [] then 0.0 else SumOver(keys[..|keys| - 1], minutes) + Get(minutes, keys[|keys| - 1])
  }

  lemma {:induction false} SumOverAgree(keys: seq<string>, m: map<string, real>, m': map<string, real>)
    requires forall k :: k in keys ==> Get(m, k) == Get(m', k)
    ensures SumOver(keys, m) == SumOver(keys, m')
  {
    if keys != [] {
      SumOverAgree(keys[..|keys| - 1], m, m');
    }
  }

  /** Raising one listed key's minutes by `d` raises the sum by `d`. */
  lemma {:induction false} SumOverBump(keys: seq<string>, m: map<string, real>, k: string, d: real)
    requires forall i, j :: 0 <= i < j < |keys| ==> keys[i] != keys[j]
    requires k in keys
    ensures SumOver(keys, m[k := Get(m, k) + d]) == SumOver(keys, m) + d
  {
    var n := |keys| - 1;
    var front := keys[..n];
    if keys[n] == k {
      assert k !in front;
      SumOverAgree(front, m, m[k := Get(m, k) + d]);
    } else {
      assert k in front by {
        var i :| 0 <= i < |keys| && keys[i] == k;
        assert i < n && front[i] == k;
      }
      SumOverBump(front, m, k, d);
    }
  }

  /** Listing a new key with `d` minutes raises the sum by `d`. */
  lemma SumOverNewKey(keys: seq<string>, m: map<string, real>, k: string, d: real)
    requires k !in keys
    ensures SumOver(keys + [k], m[k := d]) == SumOver(keys, m) + d
  {
    SumOverAgree(keys, m, m[k := d]);
    assert (keys + [k])[..|keys|] == keys;
  }

  /** One update raises the sum of the tally by the session's minutes when
      the session has a key. */
  lemma AddSum(t: Tally, kind: TallyKind, s: StudySession)
    requires WellFormed(t)
    ensures SumOver(Add(t, kind, s).keys, Add(t, kind, s).minutes)
      == SumOver(t.keys, t.minutes) + (if KeyOf(kind, s).Some? then s.duration else 0.0)
  {
    if KeyOf(kind, s).Some? {
      AddKeySum(t, KeyOf(kind, s).value, s.duration);
    }
  }

  /** Adding `d` minutes under `k`, listing `k` when it is new, raises the
      sum by `d`. */
  lemma AddKeySum(t: Tally, k: string, d: real)
    requires WellFormed(t)
    ensures SumOver(if k in t.minutes then t.keys else t.keys + [k], t.minutes[k := Get(t.minutes, k) + d])
      == SumOver(t.keys, t.minutes) + d
  {
    if k in t.minutes {
      SumOverBump(t.keys, t.minutes, k, d);
    } else {
      assert Get(t.minutes, k) == 0.0;
      SumOverNewKey(t.keys, t.minutes, k, 0.0 + d);
    }
  }

  /** The tally's values add up to the minutes of the keyed sessions. */
  lemma {:induction false} TallySum(sessions: seq<StudySession>, kind: TallyKind)
    ensures SumOver(TallyOf(sessions, kind).keys, TallyOf(sessions, kind).minutes) == KeyedTime(sessions, kind)
  {
    if sessions != [] {
      var n := |sessions| - 1;
      TallySum(sessions[..n], kind);
      TallyWellFormed(sessions[..n], kind);
      AddSum(TallyOf(sessions[..n], kind), kind, sessions[n]);
    }
  }

  /** Minutes per subject add up to the total time. */
  lemma SubjectTimeSum(sessions: seq<StudySession>)
    ensures SumOver(TallyOf(sessions, BySubject).keys, TallyOf(sessions, BySubject).minutes) == TotalTime(sessions)
  {
    TallySum(sessions, BySubject);
    SubjectsKeyAll(sessions);
  }

  /** Builds a dictionary of minutes by updating it session by session. */
  method TallyMinutes(sessions: seq<StudySession>, kind: TallyKind) returns (t: Tally)
    ensures t == TallyOf(sessions, kind)
  {
    if |sessions| == 0 {
      return Tally([], map[]);
    }
    var keys: seq<string> := [];
    var minutes: map<string, real> := map[];
    for i := 0 to |sessions|
      invariant Tally(keys, minutes) == TallyOf(sessions[..i], kind)
    {
      assert sessions[..i + 1][..i] == sessions[..i];
      var key := KeyOf(kind, sessions[i]);
      if key.Some? {
        if key.value !in minutes {
          keys := keys + [key.value];
        }
        minutes := minutes[key.value := Get(minutes, key.value) + sessions[i].duration];
      }
    }
    assert sessions[..|sessions|] == sessions;
    t := Tally(keys, minutes);
  }

  // ---------------------------------------------------------------------
  // The statistics
  // ---------------------------------------------------------------------

  datatype ProgressStats = ProgressStats(
    totalTime: real,
    todayTime: real,
    weekTime: real,
    completedSessions: nat,
    todayCompleted: nat,
    weekCompleted: nat,
    subjectTime: Tally,
    topicProgress: Tally)

  /** The statistics of the dialog for the caller's notion of today and of
      the current week. */
  method GetProgressStats(sessions: seq<StudySession>, today: int -> bool, thisWeek: int -> bool)
    returns (stats: ProgressStats)
    ensures stats.totalTime == TotalTime(sessions)
    ensures stats.todayTime == TotalTime(InPeriod(sessions, today))
    ensures stats.weekTime == TotalTime(InPeriod(sessions, thisWeek))
    ensures stats.completedSessions == CountCompleted(sessions)
    ensures stats.todayCompleted == CountCompleted(InPeriod(sessions, today))
    ensures stats.weekCompleted == CountCompleted(InPeriod(sessions, thisWeek))
    ensures stats.subjectTime == TallyOf(sessions, BySubject)
    ensures stats.topicProgress == TallyOf(sessions, ByTopic)
  {
    var todaySessions := InPeriod(sessions, today);
    var weekSessions := InPeriod(sessions, thisWeek);
    var subjectTime := TallyMinutes(sessions, BySubject);
    var topicProgress := TallyMinutes(sessions, ByTopic);
    stats := ProgressStats(TotalTime(sessions), TotalTime(todaySessions), TotalTime(weekSessions),
      CountCompleted(sessions), CountCompleted(todaySessions), CountCompleted(weekSessions),
      subjectTime, topicProgress);
  }

  // ---------------------------------------------------------------------
  // Chart rows and history
  // ---------------------------------------------------------------------

  const DefaultColor: string := "#8884d8"

  /** `subjects[i]` is the first subject called `name`. */
  predicate FirstNamed(subjects: seq<StudySubject>, name: string, i: int)
  {
    0 <= i < |subjects| && subjects[i].name == name && forall j :: 0 <= j < i ==> subjects[j].name != name
  }

  /** The colour of the first subject called `name`, or the default colour
      when there is none or it has no colour. */
  function SubjectColor(subjects: seq<StudySubject>, name: string): (c: string)
    ensures (forall i :: 0 <= i < |subjects| ==> subjects[i].name != name) ==> c == DefaultColor
    ensures forall i :: FirstNamed(subjects, name, i) ==> c == OrElse(subjects[i].color, DefaultColor)
  {
    if subjects == [] then DefaultColor
    else if subjects[0].name == name then OrElse(subjects[0].color, DefaultColor)
    else SubjectColor(subjects[1..], name)
  }

  /** One row of the per-subject chart; the percentage is absent when the
      total time is zero, where the source divides by zero. */
  datatype SubjectRow = SubjectRow(subject: string, minutes: real, color: string, percentage: Option<int>)

  function Percentage(minutes: real, total: real): Option<int>
  {
    if total == 0.0 then None else Some(Round(minutes / total * 100.0))
  }

  /** One chart row per dictionary entry, in the dictionary's key order. */
  function SubjectData(subjectTime: Tally, subjects: seq<StudySubject>, totalTime: real): (rows: seq<SubjectRow>)
    requires WellFormed(subjectTime)
    ensures |rows| == |subjectTime.keys|
    ensures forall i :: 0 <= i < |rows| ==>
      && rows[i].subject == subjectTime.keys[i]
      && rows[i].minutes == subjectTime.minutes[subjectTime.keys[i]]
      && rows[i].color == SubjectColor(subjects, subjectTime.keys[i])
      && rows[i].percentage == Percentage(rows[i].minutes, totalTime)
  {
    seq(|subjectTime.keys|, i requires 0 <= i < |subjectTime.keys| =>
      var k := subjectTime.keys[i];
      SubjectRow(k, subjectTime.minutes[k], SubjectColor(subjects, k), Percentage(subjectTime.minutes[k], totalTime)))
  }

  /** With no negative durations each subject's share is between 0 and 100
      percent. */
  lemma PercentageBounds(minutes: real, total: real)
    requires 0.0 <= minutes <= total && total > 0.0
    ensures Percentage(minutes, total).Some?
    ensures 0 <= Percentage(minutes, total).value <= 100
  {
    var f := minutes / total;
    assert f * total == minutes;
    assert 0.0 <= f <= 1.0;
    assert (f * 100.0 + 0.5).Floor <= (100.0 + 0.5).Floor;
  }

  /** The history list: the last twenty sessions (all of them when there are
      fewer), most recent first. */
  function History(sessions: seq<StudySession>): (h: seq<StudySession>)
    ensures |h| == if |sessions| < 20 then |sessions| else 20
    ensures forall i :: 0 <= i < |h| ==> h[i] == sessions[|sessions| - 1 - i]
  {
    var recent := if |sessions| < 20 then sessions else sessions[|sessions| - 20..];
    seq(|recent|, i requires 0 <= i < |recent| => recent[|recent| - 1 - i])
  }
}
