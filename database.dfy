/**
 * The application's tables, held in memory by one object.  Each table maps a row's
 * id to the row; `nextId` is the next id the auto-increment hands out.
 */
module Database {
  import opened Wrappers
  import opened Models
  import opened Tables

  /** The `set_index` column of the sets of one session-exercise. */
  function SiblingIndices(sets: map<Id, SessionSet>, slot: Id): (k: map<Id, int>)
    ensures forall id :: id in k <==> id in sets && sets[id].slot == slot
    ensures forall id :: id in k ==> k[id] == sets[id].setIndex
  {
    map id | id in sets && sets[id].slot == slot :: sets[id].setIndex
  }

  /** The `order_index` column of the links of one training. */
  function LinkOrders(links: map<Id, TrainingExercise>, training: Id): (k: map<Id, int>)
    ensures forall id :: id in k <==> id in links && links[id].trainingId == training
    ensures forall id :: id in k ==> k[id] == links[id].orderIndex
  {
    map id | id in links && links[id].trainingId == training :: links[id].orderIndex
  }

  /** The `order_index` column of the exercise slots of one session. */
  function SlotOrders(slots: map<Id, SessionExercise>, session: Id): (k: map<Id, int>)
    ensures forall id :: id in k <==> id in slots && slots[id].sessionId == session
    ensures forall id :: id in k ==> k[id] == slots[id].orderIndex
  {
    map id | id in slots && slots[id].sessionId == session :: slots[id].orderIndex
  }

  /**
   * Every session-exercise's sets are numbered 1, 2, ..., n without gaps or
   * repeats.  This is what the set controllers keep; the tables' schema does not
   * enforce it.
   */
  ghost predicate Contiguous(sets: map<Id, SessionSet>)
  {
    forall slot: Id :: Dense(SiblingIndices(sets, slot), 1)
  }

  /** The user owning the session that a session-exercise belongs to, following the foreign keys. */
  function SlotOwner(slots: map<Id, SessionExercise>, sessions: map<Id, TrainingSession>, slot: Id): (r: Option<Id>)
    ensures r.Some? <==> slot in slots && slots[slot].sessionId in sessions
    ensures r.Some? ==> r.value == sessions[slots[slot].sessionId].userId
  {
    if slot in slots && slots[slot].sessionId in sessions then Some(sessions[slots[slot].sessionId].userId) else None
  }

  /** No key of the table is at or above `next`. */
  ghost predicate Below<T>(table: map<Id, T>, next: Id)
  {
    forall id :: id in table ==> id < next
  }

  /** Every set's session-exercise exists. */
  ghost predicate SetsReferToSlots(sets: map<Id, SessionSet>, slots: map<Id, SessionExercise>)
  {
    forall id :: id in sets ==> sets[id].slot in slots
  }

  /** Every session-exercise's session and exercise exist. */
  ghost predicate SlotsReferToSessions(slots: map<Id, SessionExercise>, sessions: map<Id, TrainingSession>,
                                       exercises: map<Id, Exercise>)
  {
    forall id :: id in slots ==> slots[id].sessionId in sessions && slots[id].exerciseId in exercises
  }

  /** Every link's training and exercise exist. */
  ghost predicate LinksReferToTrainings(links: map<Id, TrainingExercise>, trainings: map<Id, Training>,
                                        exercises: map<Id, Exercise>)
  {
    forall id :: id in links ==> links[id].trainingId in trainings && links[id].exerciseId in exercises
  }

  class Db {
    var exercises: map<Id, Exercise>
    var trainings: map<Id, Training>
    var links: map<Id, TrainingExercise>
    var sessions: map<Id, TrainingSession>
    var slots: map<Id, SessionExercise>
    var sets: map<Id, SessionSet>
    var nextId: Id

    /**
     * The foreign keys hold (every set's session-exercise, every session-exercise's
     * session and exercise, every link's training and exercise exist) and no id is
     * at or above the next one to be handed out.
     */
    ghost predicate Valid()
      reads this
    {
      && Below(exercises, nextId) && Below(trainings, nextId) && Below(links, nextId)
      && Below(sessions, nextId) && Below(slots, nextId) && Below(sets, nextId)
      && SetsReferToSlots(sets, slots)
      && SlotsReferToSessions(slots, sessions, exercises)
      && LinksReferToTrainings(links, trainings, exercises)
    }

    /** An empty database. */
    constructor ()
      ensures Valid() && nextId == 1
      ensures exercises == map[] && trainings == map[] && links == map[]
      ensures sessions == map[] && slots == map[] && sets == map[]
    {
      exercises, trainings, links := map[], map[], map[];
      sessions, slots, sets := map[], map[], map[];
      nextId := 1;
    }

    /** Hands out a fresh id; no table holds it. */
    method FreshId() returns (id: Id)
      requires Valid()
      modifies this`nextId
      ensures Valid() && id == old(nextId) && nextId == id + 1
      ensures id !in exercises && id !in trainings && id !in links
      ensures id !in sessions && id !in slots && id !in sets
    {
      id := nextId;
      nextId := nextId + 1;
    }
  }
}
