/**
 * TrainingSessionController and the counts of the TrainingSession model: starting a
 * session (blank, or cloned from one of the user's trainings), the nested view of a
 * session, and the page listing the trainings a session can start from.
 */
module Sessions {
  import opened Wrappers
  import opened Models
  import opened Tables
  import opened Database

  // ----- store ---------------------------------------------------------------------

  /**
   * The validated body of the start form.  `name` is `None` when the key is absent,
   * `Some(None)` when it is null.
   */
  datatype StartRequest = StartRequest(trainingId: Option<Id>, name: Option<Option<string>>, notes: Option<string>)

  /**
   * Why the transaction throws, which the controller answers with a generic "failed
   * to start" error: the template is not one of the user's trainings (`firstOrFail`),
   * or a blank session's body has no `name` key (an undefined array key).
   */
  function StartCheck(trainings: map<Id, Training>, user: Id, req: StartRequest): (r: Option<Error>)
    ensures r.None? <==>
      && (req.trainingId.Some? ==> req.trainingId.value in trainings && trainings[req.trainingId.value].userId == user)
      && (req.trainingId.None? ==> req.name.Some?)
    ensures r.Some? ==> r.value == StartFailed
  {
    match req.trainingId
    case Some(t) => if t in trainings && trainings[t].userId == user then None else Some(StartFailed)
    case None => if req.name.Some? then None else Some(StartFailed)
  }

  /** The session's name: the template's name, or the name given for a blank session. */
  function SessionName(trainings: map<Id, Training>, req: StartRequest): Option<string>
    requires req.trainingId.Some? ==> req.trainingId.value in trainings
    requires req.trainingId.None? ==> req.name.Some?
  {
    if req.trainingId.Some? then Some(trainings[req.trainingId.value].name) else req.name.value
  }

  /** The session row: started now, not completed. */
  function NewSession(user: Id, req: StartRequest, name: Option<string>, now: Instant): (s: TrainingSession)
    ensures SessionIsInProgress(s) && s.startedAt == now && s.userId == user && s.trainingId == req.trainingId
  {
    TrainingSession(user, req.trainingId, name, req.notes, now, None)
  }

  /** The session-exercise cloned from a template link: its exercise, place and notes, nothing else. */
  function CopyOf(l: TrainingExercise, session: Id): SessionExercise
  {
    SessionExercise(session, l.exerciseId, l.orderIndex, l.notes)
  }

  /** The session-exercises table after cloning the links `order`, one after the other, under ids first, first+1, ... */
  function Cloned(slots: map<Id, SessionExercise>, session: Id, links: map<Id, TrainingExercise>,
                  order: seq<Id>, first: Id): map<Id, SessionExercise>
    requires forall i :: 0 <= i < |order| ==> order[i] in links
    decreases |order|
  {
    if order == [] then slots
    else
      Cloned(slots, session, links, order[..|order| - 1], first)
        [first + |order| - 1 := CopyOf(links[order[|order| - 1]], session)]
  }

  /** Cloning adds exactly the ids first .. first+n-1. */
  lemma {:induction false} ClonedKeys(slots: map<Id, SessionExercise>, session: Id, links: map<Id, TrainingExercise>,
                                      order: seq<Id>, first: Id)
    requires forall i :: 0 <= i < |order| ==> order[i] in links
    ensures forall id :: id in Cloned(slots, session, links, order, first) <==> id in slots || first <= id < first + |order|
    decreases |order|
  {
    if order != [] {
      ClonedKeys(slots, session, links, order[..|order| - 1], first);
    }
  }

  /** Cloning keeps every existing row. */
  lemma {:induction false} ClonedKeepsRows(slots: map<Id, SessionExercise>, session: Id, links: map<Id, TrainingExercise>,
                                           order: seq<Id>, first: Id, id: Id)
    requires forall i :: 0 <= i < |order| ==> order[i] in links
    requires Below(slots, first) && id in slots
    ensures id in Cloned(slots, session, links, order, first) && Cloned(slots, session, links, order, first)[id] == slots[id]
    decreases |order|
  {
    if order != [] {
      ClonedKeepsRows(slots, session, links, order[..|order| - 1], first, id);
    }
  }

  /** The row under id first+i copies the i-th link. */
  lemma {:induction false} ClonedCopy(slots: map<Id, SessionExercise>, session: Id, links: map<Id, TrainingExercise>,
                                      order: seq<Id>, first: Id, i: nat)
    requires forall j :: 0 <= j < |order| ==> order[j] in links
    requires i < |order|
    ensures first + i in Cloned(slots, session, links, order, first)
    ensures Cloned(slots, session, links, order, first)[first + i] == CopyOf(links[order[i]], session)
    decreases |order|
  {
    if i < |order| - 1 {
      var n := |order| - 1;
      assert order[..n][i] == order[i];
      ClonedCopy(slots, session, links, order[..n], first, i);
    }
  }

  /**
   * Cloning a training's links in order_index order gives a fresh session the
   * template's exercises: the session-exercise with id first+i copies the i-th link,
   * the session has as many exercises as the training has links, and the places keep
   * their properties (distinct stays distinct, 0..n-1 stays 0..n-1).
   */
  lemma CloneFollowsTemplate(slots: map<Id, SessionExercise>, session: Id, links: map<Id, TrainingExercise>,
                             training: Id, order: seq<Id>, first: Id)
    requires Below(slots, first) && forall id :: id in slots ==> slots[id].sessionId != session
    requires Ordering(LinkOrders(links, training), order)
    ensures var k := SlotOrders(Cloned(slots, session, links, order, first), session);
      && (forall id :: id in k <==> first <= id < first + |order|)
      && (forall id :: id in k ==> k[id] == links[order[id - first]].orderIndex)
      && |k| == |LinkOrders(links, training)|
      && (Injective(LinkOrders(links, training)) ==> Injective(k))
      && (Dense(LinkOrders(links, training), 0) ==> Dense(k, 0))
  {
    var lk := LinkOrders(links, training);
    var r := Cloned(slots, session, links, order, first);
    var k := SlotOrders(r, session);
    ClonedKeys(slots, session, links, order, first);
    forall id | first <= id < first + |order| ensures id in k && k[id] == lk[order[id - first]] {
      ClonedCopy(slots, session, links, order, first, id - first);
    }
    forall id | id in k ensures first <= id < first + |order| {
      if id in slots {
        ClonedKeepsRows(slots, session, links, order, first, id);
      }
    }
    Renumbered(k, lk, order, first);
  }

  /** The count part of CloneFollowsTemplate. */
  lemma ClonedCount(slots: map<Id, SessionExercise>, session: Id, links: map<Id, TrainingExercise>,
                    training: Id, order: seq<Id>, first: Id)
    requires Below(slots, first) && forall id :: id in slots ==> slots[id].sessionId != session
    requires Ordering(LinkOrders(links, training), order)
    ensures |SlotOrders(Cloned(slots, session, links, order, first), session)| == |LinkOrders(links, training)|
  {
    CloneFollowsTemplate(slots, session, links, training, order, first);
  }

  /**
   * A group whose ids first+i carry the values of the i-th row of an ordering of
   * another group has the same size, and is distinct or dense when the other is.
   */
  lemma Renumbered(k: map<Id, int>, lk: map<Id, int>, order: seq<Id>, first: Id)
    requires Ordering(lk, order)
    requires forall id :: id in k <==> first <= id < first + |order|
    requires forall id :: id in k ==> k[id] == lk[order[id - first]]
    ensures |k| == |lk|
    ensures Injective(lk) ==> Injective(k)
    ensures Dense(lk, 0) ==> Dense(k, 0)
  {
    SpanSize(k, first, |order|);
    if Injective(lk) {
      forall a, b | a in k && b in k && k[a] == k[b] ensures a == b {
        assert order[a - first] == order[b - first];
      }
    }
  }

  /** A group whose ids are exactly first .. first+n-1 has n rows. */
  lemma SpanSize(k: map<Id, int>, first: Id, n: nat)
    requires forall id :: id in k <==> first <= id < first + n
    ensures |k| == n
  {
    assert k.Keys == Run(first, n);
  }

  /**
   * The loop of `store` that creates one session-exercise per link, each under the
   * next id.
   */
  method CloneTemplate(db: Db, session: Id, order: seq<Id>)
    requires db.Valid() && session in db.sessions
    requires forall i :: 0 <= i < |order| ==> order[i] in db.links
    modifies db`slots, db`nextId
    ensures db.Valid()
    ensures db.slots == Cloned(old(db.slots), session, db.links, order, old(db.nextId))
    ensures db.nextId == old(db.nextId) + |order|
  {
    var slots := db.slots;
    var next := db.nextId;
    for i := 0 to |order|
      invariant next == db.nextId + i
      invariant slots == Cloned(db.slots, session, db.links, order[..i], db.nextId)
      invariant Below(slots, next)
      invariant SlotsReferToSessions(slots, db.sessions, db.exercises)
      invariant SetsReferToSlots(db.sets, slots)
    {
      assert order[..i + 1][..i] == order[..i];
      slots := slots[next := CopyOf(db.links[order[i]], session)];
      next := next + 1;
    }
    assert order[..|order|] == order;
    db.slots, db.nextId := slots, next;
  }

  /** `TrainingSession::create`: insert the row under the next id; no session-exercise refers to it yet. */
  method OpenSession(db: Db, s: TrainingSession) returns (id: Id)
    requires db.Valid()
    modifies db`sessions, db`nextId
    ensures db.Valid() && id == old(db.nextId) && db.nextId == id + 1
    ensures id !in old(db.sessions) && db.sessions == old(db.sessions)[id := s]
    ensures forall sid :: sid in db.slots ==> db.slots[sid].sessionId != id
  {
    id := db.nextId;
    db.sessions, db.nextId := db.sessions[id := s], db.nextId + 1;
  }

  /**
   * `store`: create the session and, from a template, clone its links in order_index
   * order.  Everything is checked before the first write, so a failure writes nothing.
   * Answers the new session's id.
   */
  method CreateSession(db: Db, user: Id, req: StartRequest, now: Instant) returns (r: Result<Id>)
    requires db.Valid()
    modifies db`sessions, db`slots, db`nextId
    ensures db.Valid()
    ensures r.Failure? <==> old(StartCheck(db.trainings, user, req)).Some?
    ensures r.Failure? ==>
      r.error == StartFailed && db.sessions == old(db.sessions) && db.slots == old(db.slots) && db.nextId == old(db.nextId)
    ensures r.Success? ==>
      && r.value == old(db.nextId) && r.value !in old(db.sessions)
      && db.sessions == old(db.sessions)[r.value := NewSession(user, req, SessionName(db.trainings, req), now)]
      && (req.trainingId.None? ==> db.slots == old(db.slots))
      && (req.trainingId.Some? ==>
            exists order :: Ordering(LinkOrders(db.links, req.trainingId.value), order) &&
                            db.slots == Cloned(old(db.slots), r.value, db.links, order, r.value + 1))
    ensures r.Success? && req.trainingId.None? ==> TotalExercisesCount(db.slots, r.value) == 0
    ensures r.Success? && req.trainingId.Some? ==>
      TotalExercisesCount(db.slots, r.value) == |LinkOrders(db.links, req.trainingId.value)|
  {
    var check := StartCheck(db.trainings, user, req);
    if check.Some? {
      return Failure(check.value);
    }
    var id := OpenSession(db, NewSession(user, req, SessionName(db.trainings, req), now));
    if req.trainingId.Some? {
      var order := OrderByKey(LinkOrders(db.links, req.trainingId.value));
      assert Ordering(LinkOrders(db.links, req.trainingId.value), order);
      ghost var before := db.slots;
      CloneTemplate(db, id, order);
      ClonedCount(before, id, db.links, req.trainingId.value, order, id + 1);
    } else {
      assert SlotOrders(db.slots, id) == map[];
    }
    r := Success(id);
  }

  // ----- show ----------------------------------------------------------------------

  datatype SetView = SetView(id: Id, row: SessionSet, isCompleted: bool)

  datatype SlotView = SlotView(id: Id, orderIndex: int, notes: Option<string>,
                               exerciseId: Id, exercise: Exercise, sets: seq<SetView>)

  datatype TrainingRef = TrainingRef(id: Id, name: string)

  datatype SessionView = SessionView(id: Id, session: TrainingSession, isCompleted: bool, isInProgress: bool,
                                     training: Option<TrainingRef>, exercises: seq<SlotView>)

  function SetIds(sets: seq<SetView>): (q: seq<Id>)
    ensures |q| == |sets| && forall i :: 0 <= i < |q| ==> q[i] == sets[i].id
  {
    seq(|sets|, i requires 0 <= i < |sets| => sets[i].id)
  }

  function SlotIds(slots: seq<SlotView>): (q: seq<Id>)
    ensures |q| == |slots| && forall i :: 0 <= i < |slots| ==> q[i] == slots[i].id
  {
    seq(|slots|, i requires 0 <= i < |slots| => slots[i].id)
  }

  /** `$session->training ? [id, name] : null`; the template may have been deleted since. */
  function TrainingRefOf(trainings: map<Id, Training>, t: Option<Id>): Option<TrainingRef>
  {
    if t.Some? && t.value in trainings then Some(TrainingRef(t.value, trainings[t.value].name)) else None
  }

  /** The view of one session-exercise: its row, its exercise, and its sets in set_index order. */
  ghost predicate ShowsSlot(db: Db, slot: Id, v: SlotView)
    reads db
  {
    && slot in db.slots && v.id == slot
    && v.orderIndex == db.slots[slot].orderIndex && v.notes == db.slots[slot].notes
    && v.exerciseId == db.slots[slot].exerciseId && v.exerciseId in db.exercises
    && v.exercise == db.exercises[v.exerciseId]
    && Ordering(SiblingIndices(db.sets, slot), SetIds(v.sets))
    && forall i :: 0 <= i < |v.sets| ==>
         v.sets[i].row == db.sets[v.sets[i].id] && v.sets[i].isCompleted == SetIsCompleted(v.sets[i].row)
  }

  /** The view of a session: its row, the flags of the model, its template, its exercises in order_index order. */
  ghost predicate Shows(db: Db, id: Id, v: SessionView)
    reads db
  {
    && id in db.sessions && v.id == id && v.session == db.sessions[id]
    && v.isCompleted == SessionIsCompleted(v.session) && v.isInProgress == SessionIsInProgress(v.session)
    && v.training == TrainingRefOf(db.trainings, v.session.trainingId)
    && Ordering(SlotOrders(db.slots, id), SlotIds(v.exercises))
    && forall i :: 0 <= i < |v.exercises| ==> ShowsSlot(db, v.exercises[i].id, v.exercises[i])
  }

  /** One session-exercise's part of `show`. */
  method ShowSlot(db: Db, slot: Id) returns (v: SlotView)
    requires db.Valid() && slot in db.slots
    ensures ShowsSlot(db, slot, v)
  {
    var q := OrderByKey(SiblingIndices(db.sets, slot));
    var e := db.slots[slot];
    var rows := db.sets;
    var sets := seq(|q|, i requires 0 <= i < |q| => SetView(q[i], rows[q[i]], SetIsCompleted(rows[q[i]])));
    assert SetIds(sets) == q;
    v := SlotView(slot, e.orderIndex, e.notes, e.exerciseId, db.exercises[e.exerciseId], sets);
  }

  /** `show`: 404 for a missing session, 403 for another user's, otherwise the nested view. */
  method Show(db: Db, user: Id, id: Id) returns (r: Result<SessionView>)
    requires db.Valid()
    ensures id !in db.sessions ==> r == Failure(NotFound)
    ensures id in db.sessions && db.sessions[id].userId != user ==> r == Failure(Forbidden)
    ensures r.Success? <==> id in db.sessions && db.sessions[id].userId == user
    ensures r.Success? ==> Shows(db, id, r.value) && |r.value.exercises| == TotalExercisesCount(db.slots, id)
    ensures r.Success? ==> r.value.isCompleted != r.value.isInProgress
  {
    if id !in db.sessions {
      return Failure(NotFound);
    }
    var s := db.sessions[id];
    if s.userId != user {
      return Failure(Forbidden);
    }
    var order := OrderByKey(SlotOrders(db.slots, id));
    var views: seq<SlotView> := [];
    for i := 0 to |order|
      invariant |views| == i
      invariant forall j :: 0 <= j < i ==> views[j].id == order[j] && ShowsSlot(db, order[j], views[j])
    {
      var v := ShowSlot(db, order[i]);
      views := views + [v];
    }
    assert SlotIds(views) == order;
    SessionStateIsExclusive(s);
    r := Success(SessionView(id, s, SessionIsCompleted(s), SessionIsInProgress(s),
                             TrainingRefOf(db.trainings, s.trainingId), views));
  }

  // ----- start ---------------------------------------------------------------------

  datatype TrainingCard = TrainingCard(id: Id, name: string, description: Option<string>,
                                       exerciseCount: nat, updatedAt: Instant)

  /** `start`: the user's trainings, most recently updated first, each with its number of exercises. */
  method Start(db: Db, user: Id) returns (cards: seq<TrainingCard>)
    ensures forall i, j :: 0 <= i < j < |cards| ==> cards[i].id != cards[j].id
    ensures forall t :: (t in db.trainings && db.trainings[t].userId == user) <==>
                        exists i :: 0 <= i < |cards| && cards[i].id == t
    ensures forall i :: 0 <= i < |cards| ==>
      && cards[i].id in db.trainings
      && cards[i].name == db.trainings[cards[i].id].name
      && cards[i].description == db.trainings[cards[i].id].description
      && cards[i].updatedAt == db.trainings[cards[i].id].updatedAt
      && cards[i].exerciseCount == |LinkOrders(db.links, cards[i].id)|
    ensures forall i, j :: 0 <= i <= j < |cards| ==> cards[i].updatedAt >= cards[j].updatedAt
  {
    var newestFirst := map t | t in db.trainings && db.trainings[t].userId == user :: -db.trainings[t].updatedAt;
    var q := OrderByKey(newestFirst);
    var trainings, links := db.trainings, db.links;
    assert forall i :: 0 <= i < |q| ==> q[i] in newestFirst;
    assert forall i :: 0 <= i < |q| ==> q[i] in trainings;
    cards := seq(|q|, i requires 0 <= i < |q| =>
      TrainingCard(q[i], trainings[q[i]].name, trainings[q[i]].description,
                   |LinkOrders(links, q[i])|, trainings[q[i]].updatedAt));
    forall t | t in db.trainings && db.trainings[t].userId == user
      ensures exists i :: 0 <= i < |cards| && cards[i].id == t
    {
      assert t in newestFirst;
      assert t in q;
      var i :| 0 <= i < |q| && q[i] == t;
      assert cards[i].id == t;
    }
  }

  // ----- counts of the TrainingSession model -------------------------------------------

  /** getTotalExercisesCount: the number of session-exercise rows that belong to the session. */
  function TotalExercisesCount(slots: map<Id, SessionExercise>, session: Id): (n: nat)
    ensures n == |set id | id in slots && slots[id].sessionId == session|
  {
    var k := SlotOrders(slots, session);
    assert k.Keys == set id | id in slots && slots[id].sessionId == session;
    |k|
  }

  /** The sets whose session-exercise is one of `group`. */
  ghost function SetsUnder(sets: map<Id, SessionSet>, group: set<Id>): set<Id>
  {
    set id | id in sets && sets[id].slot in group
  }

  /** Adding one more session-exercise to the group adds exactly its sets. */
  lemma SetsUnderOneMore(sets: map<Id, SessionSet>, group: set<Id>, slot: Id)
    requires slot !in group
    ensures |SetsUnder(sets, group + {slot})| == |SetsUnder(sets, group)| + |SiblingIndices(sets, slot)|
  {
    assert SetsUnder(sets, group + {slot}) == SetsUnder(sets, group) + SiblingIndices(sets, slot).Keys;
    assert SetsUnder(sets, group) !! SiblingIndices(sets, slot).Keys;
  }

  /**
   * getTotalSetsCount: the per-exercise set counts added up over the session's
   * exercises, which is the number of sets in the session.
   */
  method TotalSetsCount(db: Db, session: Id) returns (n: nat)
    ensures n == |SetsUnder(db.sets, SlotOrders(db.slots, session).Keys)|
  {
    var k := SlotOrders(db.slots, session);
    var q := OrderByKey(k);
    n := CountSetsOf(db.sets, q);
    assert (set j | 0 <= j < |q| :: q[j]) == k.Keys;
  }

  /** The set counts of the distinct session-exercises `q`, added up one by one. */
  method CountSetsOf(sets: map<Id, SessionSet>, q: seq<Id>) returns (n: nat)
    requires Distinct(q)
    ensures n == |SetsUnder(sets, set j | 0 <= j < |q| :: q[j])|
  {
    n := 0;
    ghost var seen: set<Id> := {};
    for i := 0 to |q|
      invariant forall x :: x in seen <==> x in q[..i]
      invariant n == |SetsUnder(sets, seen)|
    {
      assert q[..i + 1] == q[..i] + [q[i]];
      assert q[i] !in seen;
      SetsUnderOneMore(sets, seen, q[i]);
      n := n + |SiblingIndices(sets, q[i])|;
      seen := seen + {q[i]};
    }
    assert q[..|q|] == q;
    assert seen == set j | 0 <= j < |q| :: q[j];
  }
}
