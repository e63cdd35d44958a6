/**
 * The sets of one session-exercise: appending a set (with the rest time written back
 * onto the set before it), the partial update of the JSON API, the full overwrite of
 * the web form, completing a set, and deleting a set with the renumbering of the sets
 * after it.  The web controller and the API controller share the append and the
 * delete; they differ in the update and in what they answer.
 *
 * Each operation is a function on the `session_sets` table (AfterAppend, Patch,
 * Overwrite, Complete, AfterDelete) and a method on the database whose postcondition
 * names that function.
 */
module SessionSets {
  import opened Wrappers
  import opened Models
  import opened Tables
  import opened Requests
  import opened Database

  // ----- Append ----------------------------------------------------------------

  /** `max('set_index') + 1` over the session-exercise's sets; with no sets the max is null and the sum is 1. */
  ghost function NextIndex(sets: map<Id, SessionSet>, slot: Id): (r: int)
    ensures forall id :: id in sets && sets[id].slot == slot ==> sets[id].setIndex < r
    ensures r == 1 || exists id :: id in sets && sets[id].slot == slot && sets[id].setIndex == r - 1
    ensures (forall id :: id in sets ==> sets[id].slot != slot) ==> r == 1
  {
    var k := SiblingIndices(sets, slot);
    match MaxOf(k)
    case None => 1
    case Some(m) =>
      assert exists id :: id in k && k[id] == m;
      m + 1
  }

  /** The row `store` creates: the validated measurements, `?? null`, stamped now. */
  function NewSet(slot: Id, index: int, v: Payload, now: Instant): SessionSet
  {
    SessionSet(slot, index,
      IntegerField(v, Reps), NumberField(v, Weight), IntegerField(v, DurationSeconds),
      NumberField(v, Distance), None, TextField(v, Notes), Some(now))
  }

  /**
   * What `->where('set_index', index)->first()` may answer: one of the session-exercise's
   * sets with that index, or nothing when it has none.
   */
  ghost predicate FoundAt(sets: map<Id, SessionSet>, slot: Id, index: int, found: Option<Id>)
  {
    && (found.Some? ==> found.value in sets && sets[found.value].slot == slot && sets[found.value].setIndex == index)
    && (found.None? ==> forall id :: id in sets && sets[id].slot == slot ==> sets[id].setIndex != index)
  }

  /**
   * The table after `store`: the new set under `newId` with number `index`, and, when a
   * rest time was given and the new set is not the first, that rest time written on
   * `prev`, the set numbered index - 1 (if there is one).
   */
  function AfterAppend(sets: map<Id, SessionSet>, slot: Id, newId: Id, index: int, v: Payload,
                       now: Instant, prev: Option<Id>): map<Id, SessionSet>
  {
    var added := sets[newId := NewSet(slot, index, v, now)];
    var rest := IntegerField(v, RestSecondsActual);
    if rest.Some? && index > 1 && prev.Some? && prev.value in sets then
      added[prev.value := sets[prev.value].(restSecondsActual := rest)]
    else
      added
  }

  /** With the sets numbered 1..n, the next number is n + 1. */
  lemma NextIndexIsCountPlusOne(sets: map<Id, SessionSet>, slot: Id)
    requires Dense(SiblingIndices(sets, slot), 1)
    ensures NextIndex(sets, slot) == |SiblingIndices(sets, slot)| + 1
  {
    var k := SiblingIndices(sets, slot);
    if k != map[] {
      DenseMax(k, 1);
    }
  }

  /** With the sets numbered 1..n and n > 0, the lookup of the previous set always finds it. */
  lemma PreviousSetExists(sets: map<Id, SessionSet>, slot: Id, prev: Option<Id>)
    requires Dense(SiblingIndices(sets, slot), 1)
    requires NextIndex(sets, slot) > 1
    requires FoundAt(sets, slot, NextIndex(sets, slot) - 1, prev)
    ensures prev.Some?
  {
    var k := SiblingIndices(sets, slot);
    NextIndexIsCountPlusOne(sets, slot);
    PigeonHole(k, 1);
    assert |k| in k.Values;
  }

  /** The new set carries the validated measurements, null where a field was absent or null, and no rest time. */
  lemma AppendedSetFields(sets: map<Id, SessionSet>, slot: Id, newId: Id, index: int, p: Payload,
                          now: Instant, prev: Option<Id>)
    requires Failures(StoreSetRules, p) == {} && newId !in sets
    ensures var s := AfterAppend(sets, slot, newId, index, Validated(StoreSetRules, p), now, prev)[newId];
      && s.slot == slot && s.setIndex == index
      && s.completedAt == Some(now) && s.restSecondsActual == None
      && (Reps !in p || p[Reps].Null? <==> s.reps.None?)
      && (Weight !in p || p[Weight].Null? <==> s.weight.None?)
      && (DurationSeconds !in p || p[DurationSeconds].Null? <==> s.durationSeconds.None?)
      && (Distance !in p || p[Distance].Null? <==> s.distance.None?)
      && (Notes !in p || p[Notes].Null? <==> s.notes.None?)
      && (s.reps.Some? ==> 1 <= s.reps.value <= 500)
      && (s.weight.Some? ==> 0 <= s.weight.value <= 999999)
  {
    StoreSetRulesMeaning(p);
    var v := Validated(StoreSetRules, p);
    if prev.Some? && prev.value in sets {
      assert prev.value != newId;
    }
  }

  /**
   * Appending adds exactly the new row; the only existing row it touches is the
   * previous set, and only its rest time, which becomes the value given.
   */
  lemma AppendChangesOnlyPrevious(sets: map<Id, SessionSet>, slot: Id, newId: Id, index: int, v: Payload,
                                  now: Instant, prev: Option<Id>)
    requires newId !in sets
    requires FoundAt(sets, slot, index - 1, prev)
    ensures var r := AfterAppend(sets, slot, newId, index, v, now, prev);
      && r.Keys == sets.Keys + {newId}
      && r[newId] == NewSet(slot, index, v, now)
      && (forall id :: id in sets && Some(id) != prev ==> r[id] == sets[id])
      && (prev.Some? ==> r[prev.value] == sets[prev.value].(restSecondsActual := r[prev.value].restSecondsActual))
      && (prev.Some? && r[prev.value] != sets[prev.value] ==>
            index > 1 && r[prev.value].restSecondsActual == IntegerField(v, RestSecondsActual))
  {
  }

  /** The numbering of a group only depends on each row's session-exercise and number. */
  lemma SiblingsIgnoreOtherFields(a: map<Id, SessionSet>, b: map<Id, SessionSet>, slot: Id)
    requires a.Keys == b.Keys
    requires forall id :: id in a ==> a[id].slot == b[id].slot && a[id].setIndex == b[id].setIndex
    ensures SiblingIndices(a, slot) == SiblingIndices(b, slot)
  {
    assert SiblingIndices(a, slot).Keys == SiblingIndices(b, slot).Keys;
  }

  /** Inserting a row adds it to its own group and to no other. */
  lemma SiblingsAfterInsert(sets: map<Id, SessionSet>, newId: Id, t: SessionSet, slot: Id)
    requires newId !in sets
    ensures SiblingIndices(sets[newId := t], slot) ==
      if t.slot == slot then SiblingIndices(sets, slot)[newId := t.setIndex] else SiblingIndices(sets, slot)
  {
  }

  /** Every session-exercise's group after the append, and the appended one in particular. */
  lemma SiblingsAfterAppend(sets: map<Id, SessionSet>, slot: Id, newId: Id, index: int, v: Payload,
                            now: Instant, prev: Option<Id>, s: Id)
    requires newId !in sets
    ensures SiblingIndices(AfterAppend(sets, slot, newId, index, v, now, prev), s) ==
      if s == slot then SiblingIndices(sets, s)[newId := index] else SiblingIndices(sets, s)
  {
    var added := sets[newId := NewSet(slot, index, v, now)];
    var r := AfterAppend(sets, slot, newId, index, v, now, prev);
    SiblingsIgnoreOtherFields(r, added, s);
    SiblingsAfterInsert(sets, newId, NewSet(slot, index, v, now), s);
  }

  /** Appending under number NextIndex keeps every session-exercise's sets numbered 1..n. */
  lemma AppendKeepsContiguous(sets: map<Id, SessionSet>, slot: Id, newId: Id, v: Payload,
                              now: Instant, prev: Option<Id>)
    requires Contiguous(sets) && newId !in sets
    ensures Contiguous(AfterAppend(sets, slot, newId, NextIndex(sets, slot), v, now, prev))
    ensures |SiblingIndices(AfterAppend(sets, slot, newId, NextIndex(sets, slot), v, now, prev), slot)|
         == |SiblingIndices(sets, slot)| + 1
  {
    var index := NextIndex(sets, slot);
    var r := AfterAppend(sets, slot, newId, index, v, now, prev);
    assert Dense(SiblingIndices(sets, slot), 1);
    NextIndexIsCountPlusOne(sets, slot);
    forall s: Id ensures Dense(SiblingIndices(r, s), 1) {
      assert Dense(SiblingIndices(sets, s), 1);
      SiblingsAfterAppend(sets, slot, newId, index, v, now, prev, s);
      if s == slot {
        assert index == 1 + |SiblingIndices(sets, s)|;
        DenseAfterAdding(SiblingIndices(sets, s), 1, newId);
      }
    }
    SiblingsAfterAppend(sets, slot, newId, index, v, now, prev, slot);
  }

  // ----- Update and complete -------------------------------------------------------

  /**
   * The API's partial update: every field whose key is present takes the given value
   * (null clears it), every other field keeps its value.
   */
  function Patch(s: SessionSet, v: Payload): SessionSet
  {
    s.(reps := if Reps in v then IntegerOf(v[Reps]) else s.reps,
       weight := if Weight in v then NumberOf(v[Weight]) else s.weight,
       durationSeconds := if DurationSeconds in v then IntegerOf(v[DurationSeconds]) else s.durationSeconds,
       distance := if Distance in v then NumberOf(v[Distance]) else s.distance,
       notes := if Notes in v then TextOf(v[Notes]) else s.notes,
       restSecondsActual := if RestSecondsActual in v then IntegerOf(v[RestSecondsActual]) else s.restSecondsActual)
  }

  /** The web form's update: the five measurement fields are all written, absent ones as null. */
  function Overwrite(s: SessionSet, v: Payload): SessionSet
  {
    s.(reps := IntegerField(v, Reps), weight := NumberField(v, Weight),
       durationSeconds := IntegerField(v, DurationSeconds), distance := NumberField(v, Distance),
       notes := TextField(v, Notes))
  }

  /** `complete`: only the completion time changes. */
  function Complete(s: SessionSet, now: Instant): SessionSet
  {
    s.(completedAt := Some(now))
  }

  /** The request body with an explicit null for every update field it leaves out. */
  function WithNulls(v: Payload): (w: Payload)
    ensures w.Keys == UpdateSetRules.Keys
  {
    map k | k in UpdateSetRules :: if k in v then v[k] else Null
  }

  /** A key absent from the update leaves its field alone; a present key sets it; the row's place never moves. */
  lemma PatchChangesOnlyPresentKeys(s: SessionSet, p: Payload)
    ensures var t := Patch(s, Validated(UpdateSetRules, p));
      && t.slot == s.slot && t.setIndex == s.setIndex && t.completedAt == s.completedAt
      && t.restSecondsActual == s.restSecondsActual
      && (Reps !in p ==> t.reps == s.reps)
      && (Reps in p && p[Reps].Null? ==> t.reps.None?)
      && (Weight !in p ==> t.weight == s.weight)
      && (Weight in p && p[Weight].Null? ==> t.weight.None?)
      && (DurationSeconds !in p ==> t.durationSeconds == s.durationSeconds)
      && (DurationSeconds in p && p[DurationSeconds].Null? ==> t.durationSeconds.None?)
      && (Distance !in p ==> t.distance == s.distance)
      && (Distance in p && p[Distance].Null? ==> t.distance.None?)
      && (Notes !in p ==> t.notes == s.notes)
      && (Notes in p && p[Notes].Null? ==> t.notes.None?)
  {
    UpdateNeverCarriesRest(p);
  }

  /** An update with an empty body changes nothing, and repeating an update changes nothing more. */
  lemma PatchIsIdempotent(s: SessionSet, v: Payload)
    ensures Patch(s, map[]) == s
    ensures Patch(Patch(s, v), v) == Patch(s, v)
  {
  }

  /** The web update is the API update of the body completed with nulls. */
  lemma OverwriteIsPatchWithNulls(s: SessionSet, p: Payload)
    ensures Overwrite(s, Validated(UpdateSetRules, p)) == Patch(s, WithNulls(Validated(UpdateSetRules, p)))
  {
  }

  /** Completing stamps the time, and completing again only restamps it. */
  lemma CompleteRestamps(s: SessionSet, t1: Instant, t2: Instant)
    ensures SetIsCompleted(Complete(s, t1))
    ensures Complete(Complete(s, t1), t2) == Complete(s, t2)
    ensures Complete(s, t1).(completedAt := s.completedAt) == s
  {
  }

  /** Replacing one row by one with the same session-exercise and number keeps the numbering. */
  lemma ReplaceKeepsContiguous(sets: map<Id, SessionSet>, id: Id, t: SessionSet)
    requires id in sets && t.slot == sets[id].slot && t.setIndex == sets[id].setIndex
    ensures forall slot: Id :: SiblingIndices(sets[id := t], slot) == SiblingIndices(sets, slot)
    ensures Contiguous(sets) ==> Contiguous(sets[id := t])
  {
    forall slot: Id ensures SiblingIndices(sets[id := t], slot) == SiblingIndices(sets, slot) {
      SiblingsIgnoreOtherFields(sets[id := t], sets, slot);
    }
    if Contiguous(sets) {
      var u := sets[id := t];
      forall slot: Id ensures Dense(SiblingIndices(u, slot), 1) {
        assert Dense(SiblingIndices(sets, slot), 1);
      }
    }
  }

  // ----- Delete ----------------------------------------------------------------------

  /** `id` is a later sibling of `d`: same session-exercise, higher number. */
  predicate Follows(sets: map<Id, SessionSet>, d: Id, id: Id)
    requires d in sets && id in sets
  {
    sets[id].slot == sets[d].slot && sets[id].setIndex > sets[d].setIndex
  }

  /** The table after `destroy`: `d` is gone and each later sibling's number is one less. */
  function AfterDelete(sets: map<Id, SessionSet>, d: Id): map<Id, SessionSet>
    requires d in sets
  {
    map id | id in sets && id != d ::
      if Follows(sets, d, id) then sets[id].(setIndex := sets[id].setIndex - 1) else sets[id]
  }

  /**
   * Deleting removes exactly that row and decrements exactly the later siblings by one;
   * earlier siblings and the sets of other session-exercises keep their rows.
   */
  lemma DeleteShiftsOnlyLaterSiblings(sets: map<Id, SessionSet>, d: Id)
    requires d in sets
    ensures var r := AfterDelete(sets, d);
      && r.Keys == sets.Keys - {d}
      && (forall id :: id in r && Follows(sets, d, id) ==>
            r[id] == sets[id].(setIndex := sets[id].setIndex - 1))
      && (forall id :: id in r && !Follows(sets, d, id) ==> r[id] == sets[id])
  {
  }

  /**
   * Deleting keeps the numbering contiguous: with the siblings numbered 1..n before,
   * the remaining ones are numbered 1..n-1 after, and no other group changes.
   */
  lemma DeleteKeepsContiguous(sets: map<Id, SessionSet>, d: Id)
    requires d in sets && Contiguous(sets)
    ensures Contiguous(AfterDelete(sets, d))
    ensures |SiblingIndices(AfterDelete(sets, d), sets[d].slot)| == |SiblingIndices(sets, sets[d].slot)| - 1
  {
    var r := AfterDelete(sets, d);
    forall s: Id ensures Dense(SiblingIndices(r, s), 1) {
      var k := SiblingIndices(sets, s);
      assert Dense(k, 1);
      if s == sets[d].slot {
        DeleteRenumbersGroup(sets, d);
        DenseAfterClosingGap(k, 1, d);
      } else {
        assert SiblingIndices(r, s) == k;
      }
    }
    DeleteRenumbersGroup(sets, d);
    DenseAfterClosingGap(SiblingIndices(sets, sets[d].slot), 1, d);
  }

  /** The deleted row's group, after the delete, is the group with the gap closed. */
  lemma DeleteRenumbersGroup(sets: map<Id, SessionSet>, d: Id)
    requires d in sets
    ensures SiblingIndices(AfterDelete(sets, d), sets[d].slot) == CloseGap(SiblingIndices(sets, sets[d].slot), d)
  {
  }

  // ----- The requests ----------------------------------------------------------------

  /**
   * The order in which a set request is refused: route binding (404), then the form
   * request's rules (422), then the controller's comparison of the session's owner
   * with the requester (403).
   */
  function SetRequestCheck(found: bool, failures: set<string>, owner: Option<Id>, user: Id): (r: Option<Error>)
    ensures r.None? <==> found && failures == {} && owner == Some(user)
    ensures !found ==> r == Some(NotFound)
    ensures found && failures != {} ==> r == Some(Invalid(failures))
    ensures found && failures == {} && owner != Some(user) ==> r == Some(Forbidden)
  {
    if !found then Some(NotFound)
    else if failures != {} then Some(Invalid(failures))
    else if owner != Some(user) then Some(Forbidden)
    else None
  }

  /** The owner of the session a set belongs to. */
  function SetOwner(db: Db, setId: Id): Option<Id>
    reads db
  {
    if setId in db.sets then SlotOwner(db.slots, db.sessions, db.sets[setId].slot) else None
  }

  /** How a request on the set `setId` is refused, given its validation failures. */
  function SetCheck(db: Db, user: Id, setId: Id, failures: set<string>): Option<Error>
    reads db
  {
    SetRequestCheck(setId in db.sets, failures, SetOwner(db, setId), user)
  }

  /** How a request appending to the session-exercise `slot` is refused. */
  function SlotCheck(db: Db, user: Id, slot: Id, failures: set<string>): Option<Error>
    reads db
  {
    SetRequestCheck(slot in db.slots, failures, SlotOwner(db.slots, db.sessions, slot), user)
  }

  /**
   * `store` (both controllers): append a set to a session-exercise and, when a rest
   * time is given, write it on the set before.  Answers the new set's id.
   */
  method StoreSet(db: Db, user: Id, slot: Id, p: Payload, now: Instant) returns (r: Result<Id>)
    requires db.Valid()
    modifies db
    ensures db.Valid()
    ensures r.Failure? <==> old(SlotCheck(db, user, slot, Failures(StoreSetRules, p))).Some?
    ensures r.Failure? ==> r.error == old(SlotCheck(db, user, slot, Failures(StoreSetRules, p))).value && unchanged(db)
    ensures r.Success? ==>
      && r.value !in old(db.sets)
      && (exists prev :: FoundAt(old(db.sets), slot, NextIndex(old(db.sets), slot) - 1, prev) &&
            db.sets == AfterAppend(old(db.sets), slot, r.value, NextIndex(old(db.sets), slot),
                                   Validated(StoreSetRules, p), now, prev))
      && db.exercises == old(db.exercises) && db.trainings == old(db.trainings) && db.links == old(db.links)
      && db.sessions == old(db.sessions) && db.slots == old(db.slots)
    ensures old(Contiguous(db.sets)) ==> Contiguous(db.sets)
  {
    var check := SlotCheck(db, user, slot, Failures(StoreSetRules, p));
    if check.Some? {
      return Failure(check.value);
    }
    var id := Append(db, slot, Validated(StoreSetRules, p), now);
    r := Success(id);
  }

  /** The writes of `store` once the request is accepted. */
  method Append(db: Db, slot: Id, v: Payload, now: Instant) returns (id: Id)
    requires db.Valid() && slot in db.slots
    modifies db`sets, db`nextId
    ensures db.Valid()
    ensures id !in old(db.sets)
    ensures exists prev :: FoundAt(old(db.sets), slot, NextIndex(old(db.sets), slot) - 1, prev) &&
                           db.sets == AfterAppend(old(db.sets), slot, id, NextIndex(old(db.sets), slot), v, now, prev)
    ensures old(Contiguous(db.sets)) ==> Contiguous(db.sets)
  {
    var before := db.sets;
    var index := NextSetIndex(before, slot);
    id := db.nextId;
    var sets := before[id := NewSet(slot, index, v, now)];
    var rest := IntegerField(v, RestSecondsActual);
    var found: Option<Id> := None;
    if rest.Some? && index > 1 {
      found := FindSet(before, slot, index - 1);
      if found.Some? {
        sets := sets[found.value := before[found.value].(restSecondsActual := rest)];
      }
    }
    ghost var prev := if rest.Some? && index > 1 then found else PreviousSet(before, slot, index - 1);
    assert sets == AfterAppend(before, slot, id, index, v, now, prev);
    AppendKeepsReferences(before, db.slots, db.nextId, slot, id, index, v, now, prev);
    db.sets, db.nextId := sets, db.nextId + 1;
    if Contiguous(before) {
      AppendKeepsContiguous(before, slot, id, v, now, prev);
    }
  }

  /** `$sessionExercise->sessionSets()->max('set_index') + 1`. */
  method NextSetIndex(sets: map<Id, SessionSet>, slot: Id) returns (index: int)
    ensures index == NextIndex(sets, slot)
  {
    var max := MaxValue(SiblingIndices(sets, slot));
    index := if max.None? then 1 else max.value + 1;
  }

  /** `$sessionExercise->sessionSets()->where('set_index', index)->first()`. */
  method FindSet(sets: map<Id, SessionSet>, slot: Id, index: int) returns (found: Option<Id>)
    ensures FoundAt(sets, slot, index, found)
  {
    found := FirstWith(SiblingIndices(sets, slot), index);
  }

  /** The appended table still refers only to existing session-exercises, all below the next id. */
  lemma AppendKeepsReferences(sets: map<Id, SessionSet>, slots: map<Id, SessionExercise>, next: Id, slot: Id,
                              newId: Id, index: int, v: Payload, now: Instant, prev: Option<Id>)
    requires SetsReferToSlots(sets, slots) && Below(sets, next) && slot in slots && newId == next
    ensures SetsReferToSlots(AfterAppend(sets, slot, newId, index, v, now, prev), slots)
    ensures Below(AfterAppend(sets, slot, newId, index, v, now, prev), next + 1)
  {
  }

  /** One answer the `first()` lookup may give, used where the source does not run it. */
  ghost function PreviousSet(sets: map<Id, SessionSet>, slot: Id, index: int): (found: Option<Id>)
    ensures FoundAt(sets, slot, index, found)
  {
    if exists j :: j in sets && sets[j].slot == slot && sets[j].setIndex == index then
      var j :| j in sets && sets[j].slot == slot && sets[j].setIndex == index;
      Some(j)
    else
      None
  }

  /** The API's `update`: the partial update; answers the row as reloaded. */
  method ApiUpdateSet(db: Db, user: Id, setId: Id, p: Payload) returns (r: Result<SessionSet>)
    requires db.Valid()
    modifies db`sets
    ensures db.Valid()
    ensures r.Failure? <==> old(SetCheck(db, user, setId, Failures(UpdateSetRules, p))).Some?
    ensures r.Failure? ==> r.error == old(SetCheck(db, user, setId, Failures(UpdateSetRules, p))).value
    ensures r.Failure? ==> db.sets == old(db.sets)
    ensures r.Success? ==>
      db.sets == old(db.sets)[setId := Patch(old(db.sets)[setId], Validated(UpdateSetRules, p))] &&
      r.value == db.sets[setId]
    ensures old(Contiguous(db.sets)) ==> Contiguous(db.sets)
  {
    var check := SetCheck(db, user, setId, Failures(UpdateSetRules, p));
    if check.Some? {
      return Failure(check.value);
    }
    var v := Validated(UpdateSetRules, p);
    var row := db.sets[setId];
    if Reps in v { row := row.(reps := IntegerOf(v[Reps])); }
    if Weight in v { row := row.(weight := NumberOf(v[Weight])); }
    if DurationSeconds in v { row := row.(durationSeconds := IntegerOf(v[DurationSeconds])); }
    if Distance in v { row := row.(distance := NumberOf(v[Distance])); }
    if Notes in v { row := row.(notes := TextOf(v[Notes])); }
    if RestSecondsActual in v { row := row.(restSecondsActual := IntegerOf(v[RestSecondsActual])); }
    assert row == Patch(db.sets[setId], v);
    Replace(db, setId, row);
    r := Success(db.sets[setId]);
  }

  /** Writes one row back in place, keeping its session-exercise and number. */
  method Replace(db: Db, setId: Id, row: SessionSet)
    requires db.Valid() && setId in db.sets
    requires row.slot == db.sets[setId].slot && row.setIndex == db.sets[setId].setIndex
    modifies db`sets
    ensures db.Valid()
    ensures db.sets == old(db.sets)[setId := row]
    ensures old(Contiguous(db.sets)) ==> Contiguous(db.sets)
  {
    ReplaceKeepsContiguous(db.sets, setId, row);
    db.sets := db.sets[setId := row];
  }

  /** The web form's `update`: overwrite the five measurement fields. */
  method WebUpdateSet(db: Db, user: Id, setId: Id, p: Payload) returns (r: Result<()>)
    requires db.Valid()
    modifies db`sets
    ensures db.Valid()
    ensures r.Failure? <==> old(SetCheck(db, user, setId, Failures(UpdateSetRules, p))).Some?
    ensures r.Failure? ==> r.error == old(SetCheck(db, user, setId, Failures(UpdateSetRules, p))).value
    ensures r.Failure? ==> db.sets == old(db.sets)
    ensures r.Success? ==> db.sets == old(db.sets)[setId := Overwrite(old(db.sets)[setId], Validated(UpdateSetRules, p))]
    ensures old(Contiguous(db.sets)) ==> Contiguous(db.sets)
  {
    var check := SetCheck(db, user, setId, Failures(UpdateSetRules, p));
    if check.Some? {
      return Failure(check.value);
    }
    var v := Validated(UpdateSetRules, p);
    var row := db.sets[setId].(reps := IntegerField(v, Reps), weight := NumberField(v, Weight),
                               durationSeconds := IntegerField(v, DurationSeconds),
                               distance := NumberField(v, Distance), notes := TextField(v, Notes));
    Replace(db, setId, row);
    r := Success(());
  }

  /** The web form's `complete`: stamp the set's completion time. */
  method CompleteSet(db: Db, user: Id, setId: Id, now: Instant) returns (r: Result<()>)
    requires db.Valid()
    modifies db`sets
    ensures db.Valid()
    ensures r.Failure? <==> old(SetCheck(db, user, setId, {})).Some?
    ensures r.Failure? ==> r.error == old(SetCheck(db, user, setId, {})).value
    ensures r.Failure? ==> db.sets == old(db.sets)
    ensures r.Success? ==> db.sets == old(db.sets)[setId := Complete(old(db.sets)[setId], now)]
    ensures old(Contiguous(db.sets)) ==> Contiguous(db.sets)
  {
    var check := SetCheck(db, user, setId, {});
    if check.Some? {
      return Failure(check.value);
    }
    Replace(db, setId, db.sets[setId].(completedAt := Some(now)));
    r := Success(());
  }

  /** A set moved one place down. */
  function Down(s: SessionSet): SessionSet
  {
    s.(setIndex := s.setIndex - 1)
  }

  /** After the delete the rows reference the same session-exercises as before, below the same bound. */
  lemma DeleteKeepsReferences(sets: map<Id, SessionSet>, slots: map<Id, SessionExercise>, next: Id, d: Id)
    requires d in sets && SetsReferToSlots(sets, slots) && Below(sets, next)
    ensures SetsReferToSlots(AfterDelete(sets, d), slots) && Below(AfterDelete(sets, d), next)
  {
  }

  /** The loop's result: the later siblings moved down, the other remaining rows as they were. */
  lemma ShiftedIsAfterDelete(before: map<Id, SessionSet>, d: Id, later: set<Id>, sets: map<Id, SessionSet>)
    requires d in before
    requires forall id :: id in later <==> id in before && id != d && Follows(before, d, id)
    requires sets.Keys == before.Keys - {d}
    requires forall id :: id in sets ==> sets[id] == if id in later then Down(before[id]) else before[id]
    ensures sets == AfterDelete(before, d)
  {
  }

  /**
   * The delete both controllers run in one transaction: remove the row, then walk the
   * later siblings in ascending order and decrement each one's number.
   */
  method DeleteAndShift(db: Db, d: Id)
    requires db.Valid() && d in db.sets
    modifies db`sets
    ensures db.Valid()
    ensures db.sets == AfterDelete(old(db.sets), d)
  {
    var before := db.sets;
    var order := LaterSiblings(before, d);
    var sets := map id | id in before && id != d :: before[id];
    ghost var done: set<Id> := {};
    for i := 0 to |order|
      invariant sets.Keys == before.Keys - {d}
      invariant forall id :: id in done <==> id in order[..i]
      invariant forall id :: id in sets ==> sets[id] == if id in done then Down(before[id]) else before[id]
    {
      var id := order[i];
      assert order[..i + 1] == order[..i] + [id];
      assert id !in order[..i];
      sets := sets[id := Down(sets[id])];
      done := done + {id};
    }
    assert order[..|order|] == order;
    ShiftedIsAfterDelete(before, d, done, sets);
    DeleteKeepsReferences(before, db.slots, db.nextId, d);
    db.sets := sets;
  }

  /**
   * `SessionSet::where('session_exercise_id', ...)->where('set_index', '>', ...)->orderBy('set_index')`:
   * the later siblings of `d`, each once, in ascending order.
   */
  method LaterSiblings(sets: map<Id, SessionSet>, d: Id) returns (order: seq<Id>)
    requires d in sets
    ensures Distinct(order)
    ensures forall id :: id in order <==> id in sets && id != d && Follows(sets, d, id)
    ensures forall i, j :: 0 <= i <= j < |order| ==> sets[order[i]].setIndex <= sets[order[j]].setIndex
  {
    var gone := sets[d];
    var later := map id | id in sets && id != d && sets[id].slot == gone.slot && sets[id].setIndex > gone.setIndex
                   :: sets[id].setIndex;
    order := OrderByKey(later);
  }

  /**
   * The API's `destroy`: delete and renumber, then answer the session-exercise's
   * remaining sets in ascending order of number.
   */
  method ApiDestroySet(db: Db, user: Id, setId: Id) returns (r: Result<seq<Id>>)
    requires db.Valid()
    modifies db`sets
    ensures db.Valid()
    ensures r.Failure? <==> old(SetCheck(db, user, setId, {})).Some?
    ensures r.Failure? ==> r.error == old(SetCheck(db, user, setId, {})).value
    ensures r.Failure? ==> db.sets == old(db.sets)
    ensures r.Success? ==>
      && db.sets == AfterDelete(old(db.sets), setId)
      && Distinct(r.value)
      && (forall id :: id in r.value <==> id in db.sets && db.sets[id].slot == old(db.sets)[setId].slot)
      && (forall i, j :: 0 <= i <= j < |r.value| ==> db.sets[r.value[i]].setIndex <= db.sets[r.value[j]].setIndex)
    ensures r.Success? && old(Contiguous(db.sets)) ==>
      Contiguous(db.sets) && forall i :: 0 <= i < |r.value| ==> db.sets[r.value[i]].setIndex == i + 1
  {
    var check := SetCheck(db, user, setId, {});
    if check.Some? {
      return Failure(check.value);
    }
    ghost var before := db.sets;
    var slot := db.sets[setId].slot;
    DeleteAndShift(db, setId);
    var remaining := OrderByKey(SiblingIndices(db.sets, slot));
    if Contiguous(before) {
      DeleteKeepsContiguous(before, setId);
      assert Dense(SiblingIndices(db.sets, slot), 1);
      DenseInOrder(SiblingIndices(db.sets, slot), 1, remaining);
    }
    r := Success(remaining);
  }

  /** The web form's `destroy`: delete and renumber. */
  method WebDestroySet(db: Db, user: Id, setId: Id) returns (r: Result<()>)
    requires db.Valid()
    modifies db`sets
    ensures db.Valid()
    ensures r.Failure? <==> old(SetCheck(db, user, setId, {})).Some?
    ensures r.Failure? ==> r.error == old(SetCheck(db, user, setId, {})).value
    ensures r.Failure? ==> db.sets == old(db.sets)
    ensures r.Success? ==> db.sets == AfterDelete(old(db.sets), setId)
    ensures r.Success? && old(Contiguous(db.sets)) ==> Contiguous(db.sets)
  {
    var check := SetCheck(db, user, setId, {});
    if check.Some? {
      return Failure(check.value);
    }
    ghost var before := db.sets;
    DeleteAndShift(db, setId);
    if Contiguous(before) {
      DeleteKeepsContiguous(before, setId);
    }
    r := Success(());
  }
}
