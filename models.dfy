/**
 * The rows of the fitness tracker's tables, and the predicates the Eloquent models
 * define on them.  A row's own id is the key of the table that holds it, so it is
 * not a field here.
 *
 * Units: timestamps are whole seconds since the epoch (UTC); a calendar date is the
 * day number `t / 86400`; weight and distance are decimal(8,2) columns and are
 * carried as integer hundredths, so 62.5 kg is 6250.
 */
module Models {
  import opened Wrappers

  /** Auto-increment primary keys start at 1. */
  type Id = x: int | 1 <= x witness 1

  type Instant = int

  const SecondsPerDay := 86400

  /** The calendar date (UTC) of an instant, as SQL DATE() computes it. */
  function Day(t: Instant): int { t / SecondsPerDay }

  function StartOfDay(d: int): Instant { d * SecondsPerDay }

  function EndOfDay(d: int): Instant { d * SecondsPerDay + SecondsPerDay - 1 }

  datatype ExerciseType = Strength | Cardio | Flexibility | Other

  datatype Exercise = Exercise(
    userId: Id,
    name: string,
    description: Option<string>,
    exerciseType: ExerciseType,
    muscleGroup: Option<string>)

  /** A reusable template. */
  datatype Training = Training(
    userId: Id,
    name: string,
    description: Option<string>,
    notes: Option<string>,
    updatedAt: Instant)

  /** A template's link to an exercise (table training_exercises). */
  datatype TrainingExercise = TrainingExercise(
    trainingId: Id,
    exerciseId: Id,
    orderIndex: int,
    defaultSets: Option<int>,
    defaultReps: Option<int>,
    defaultRestSeconds: int,   // NOT NULL, default 90
    notes: Option<string>)

  datatype TrainingSession = TrainingSession(
    userId: Id,
    trainingId: Option<Id>,
    name: Option<string>,
    notes: Option<string>,
    startedAt: Instant,
    completedAt: Option<Instant>)

  /** One exercise slot of a session (table session_exercises). */
  datatype SessionExercise = SessionExercise(
    sessionId: Id,
    exerciseId: Id,
    orderIndex: int,
    notes: Option<string>)

  /** One performed set (table session_sets); `slot` is its session_exercise_id. */
  datatype SessionSet = SessionSet(
    slot: Id,
    setIndex: int,
    reps: Option<int>,
    weight: Option<int>,            // hundredths
    durationSeconds: Option<int>,
    distance: Option<int>,          // hundredths
    restSecondsActual: Option<int>,
    notes: Option<string>,
    completedAt: Option<Instant>)

  /** TrainingSession::isCompleted. */
  predicate SessionIsCompleted(s: TrainingSession) { s.completedAt.Some? }

  /** TrainingSession::isInProgress. */
  predicate SessionIsInProgress(s: TrainingSession) { s.completedAt.None? }

  /** SessionSet::isCompleted. */
  predicate SetIsCompleted(s: SessionSet) { s.completedAt.Some? }

  /** Exactly one of the two session states holds, whatever the row. */
  lemma SessionStateIsExclusive(s: TrainingSession)
    ensures SessionIsCompleted(s) != SessionIsInProgress(s)
  {
  }

  /** Integer division rounding toward zero, as PHP's (int) cast of a quotient does. */
  function QuotientTowardZero(a: int, b: int): (q: int)
    requires b > 0
    ensures a >= 0 ==> q * b <= a < q * b + b
    ensures a < 0 ==> q * b - b < a <= q * b
  {
    if a >= 0 then a / b else -((-a) / b)
  }

  /**
   * TrainingSession::getDurationMinutes: null unless both timestamps are known,
   * otherwise the signed difference in minutes, cut toward zero (Carbon 3's
   * diffInMinutes returns a signed float and the source casts it to int).
   */
  function DurationMinutes(startedAt: Option<Instant>, completedAt: Option<Instant>): (r: Option<int>)
    ensures r.None? <==> startedAt.None? || completedAt.None?
    ensures r.Some? && startedAt.value <= completedAt.value ==>
              0 <= r.value && 60 * r.value <= completedAt.value - startedAt.value < 60 * r.value + 60
    ensures r.Some? && completedAt.value < startedAt.value ==>
              r.value <= 0 && 60 * r.value - 60 < completedAt.value - startedAt.value <= 60 * r.value
  {
    if completedAt.None? || startedAt.None? then None
    else Some(QuotientTowardZero(completedAt.value - startedAt.value, 60))
  }

  /** The duration is antisymmetric: swapping the two timestamps negates it. */
  lemma DurationIsAntisymmetric(a: Instant, b: Instant)
    ensures DurationMinutes(Some(a), Some(b)).value == -DurationMinutes(Some(b), Some(a)).value
  {
  }
}
