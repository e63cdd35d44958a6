/**
 * The three authorization policies.  Each answers, for one ability, whether a user
 * may use it; the abilities on a single record compare the user with the record's
 * owner, the others are open to every signed-in user.
 */
module Policies {
  import opened Models

  datatype Ability = ViewAny | View | Create | Update | Delete

  /** The abilities that concern one existing record. */
  predicate OnRecord(a: Ability)
  {
    a.View? || a.Update? || a.Delete?
  }

  /** TrainingSessionPolicy. */
  function SessionPolicy(a: Ability, user: Id, session: TrainingSession): (allowed: bool)
    ensures !OnRecord(a) ==> allowed
    ensures OnRecord(a) ==> (allowed <==> user == session.userId)
  {
    match a
    case ViewAny => true
    case Create => true
    case _ => user == session.userId
  }

  /** ExercisePolicy. */
  function ExercisePolicy(a: Ability, user: Id, exercise: Exercise): (allowed: bool)
    ensures !OnRecord(a) ==> allowed
    ensures OnRecord(a) ==> (allowed <==> user == exercise.userId)
  {
    match a
    case ViewAny => true
    case Create => true
    case _ => user == exercise.userId
  }

  /** TrainingPolicy. */
  function TrainingPolicy(a: Ability, user: Id, training: Training): (allowed: bool)
    ensures !OnRecord(a) ==> allowed
    ensures OnRecord(a) ==> (allowed <==> user == training.userId)
  {
    match a
    case ViewAny => true
    case Create => true
    case _ => user == training.userId
  }

  /**
   * Viewing, updating and deleting are granted together: whoever may do one of them to
   * a record may do all three, and the owner may do everything.
   */
  lemma RecordAbilitiesAgree(user: Id, s: TrainingSession, e: Exercise, t: Training)
    ensures SessionPolicy(View, user, s) == SessionPolicy(Update, user, s) == SessionPolicy(Delete, user, s)
    ensures ExercisePolicy(View, user, e) == ExercisePolicy(Update, user, e) == ExercisePolicy(Delete, user, e)
    ensures TrainingPolicy(View, user, t) == TrainingPolicy(Update, user, t) == TrainingPolicy(Delete, user, t)
    ensures forall a :: SessionPolicy(a, s.userId, s) && ExercisePolicy(a, e.userId, e) && TrainingPolicy(a, t.userId, t)
  {
  }

  /**
   * The three policies decide alike: for records with the same owner, each ability is
   * granted by all three or by none.
   */
  lemma PoliciesDecideAlike(a: Ability, user: Id, s: TrainingSession, e: Exercise, t: Training)
    requires s.userId == e.userId == t.userId
    ensures SessionPolicy(a, user, s) == ExercisePolicy(a, user, e) == TrainingPolicy(a, user, t)
  {
  }
}
