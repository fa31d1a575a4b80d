/** Record shapes shared by the planner, the assessment form, the timer and the
    statistics view, together with the few numeric helpers (JavaScript's
    Math.round, Math.ceil, Math.min and Math.max on exact reals) they use. */
module Common {

  datatype Option<+T> = None | Some(value: T)

  /** A subject as the assessment and planner pages hand it around.  Only the
      fields some core operation reads are kept. */
  datatype StudySubject = StudySubject(
    id: string,
    name: string,
    color: Option<string>,
    priority: Option<real>)

  /** One entry of the study-session log.  Dates are milliseconds since the
      epoch, supplied by the caller's clock. */
  datatype StudySession = StudySession(
    id: string,
    subject: string,
    topic: Option<string>,
    subtopic: Option<string>,
    startTime: int,
    endTime: Option<int>,
    duration: real,
    completed: bool,
    taskId: Option<string>)

  /** The number of completed sessions in a list. */
  function CountCompleted(sessions: seq<StudySession>): (n: nat)
    ensures n <= |sessions|
  {
    if sessions == [] then 0
    else CountCompleted(sessions[..|sessions| - 1]) + (if sessions[|sessions| - 1].completed then 1 else 0)
  }

  lemma CountAppend(sessions: seq<StudySession>, x: StudySession)
    ensures CountCompleted(sessions + [x]) == CountCompleted(sessions) + (if x.completed then 1 else 0)
  {
    assert (sessions + [x])[..|sessions|] == sessions;
  }

  /** JavaScript truthiness of an optional string: present and non-empty. */
  predicate Truthy(s: Option<string>)
  {
    s.Some? && s.value != ""
  }

  /** `s || fallback` on an optional string. */
  function OrElse(s: Option<string>, fallback: string): (r: string)
    ensures Truthy(s) ==> r == s.value
    ensures !Truthy(s) ==> r == fallback
  {
    if Truthy(s) then s.value else fallback
  }

  function Min(a: real, b: real): (r: real)
    ensures r <= a && r <= b && (r == a || r == b)
  {
    if a <= b then a else b
  }

  function Max(a: real, b: real): (r: real)
    ensures r >= a && r >= b && (r == a || r == b)
  {
    if a >= b then a else b
  }

  /** JavaScript's Math.round: halves round towards positive infinity. */
  function Round(x: real): (r: int)
    ensures x - 0.5 < r as real <= x + 0.5
  {
    (x + 0.5).Floor
  }

  /** Math.ceil: the least integer not below x. */
  function Ceil(x: real): (r: int)
    ensures x <= r as real < x + 1.0
  {
    -((-x).Floor)
  }

  /** The Monday-first week-day labels used by both plan generators. */
  const WeekDays: seq<string> :=
    ["Segunda", "Terça", "Quarta", "Quinta", "Sexta", "Sábado", "Domingo"]

  /** `n` copies of `x`. */
  function Repeat<T>(x: T, n: nat): (r: seq<T>)
    ensures |r| == n
    ensures forall i :: 0 <= i < n ==> r[i] == x
  {
    seq(n, _ => x)
  }

  /** `Repeat(x, n)` holds `x` exactly `n` times and nothing else. */
  lemma {:induction false} RepeatMultiset<T>(x: T, n: nat)
    ensures multiset(Repeat(x, n))[x] == n
    ensures forall y :: y != x ==> multiset(Repeat(x, n))[y] == 0
  {
    if n > 0 {
      RepeatMultiset(x, n - 1);
      assert Repeat(x, n) == Repeat(x, n - 1) + [x];
    } else {
      assert Repeat(x, n) == [];
    }
    forall y | y != x
      ensures multiset(Repeat(x, n))[y] == 0
    {
      assert y !in Repeat(x, n);
    }
  }

  /** A prefix one longer is the prefix followed by the next element. */
  lemma TakeNext<T>(s: seq<T>, n: nat)
    requires n < |s|
    ensures s[..n + 1] == s[..n] + [s[n]]
  {
  }

  /** An element inside a known prefix is that prefix's element. */
  lemma PrefixAt<T>(a: seq<T>, b: seq<T>, k: nat)
    requires |b| <= |a| && a[..|b|] == b && k < |b|
    ensures a[k] == b[k]
  {
    assert a[..|b|][k] == a[k];
  }
}
