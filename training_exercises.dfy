/**
 * TrainingExerciseController: the exercises of a training template, kept in the
 * `training_exercises` table and ordered by their `order_index` from 0.
 *
 * Every action first binds the route's record (404 when it does not exist), then
 * asks TrainingPolicy whether the user may update the training (403), and only then
 * validates the body (422).  Adding, patching and removing a link are functions on
 * the table with a method that applies them; reordering is the controller's loop
 * inside a transaction.
 */
module TrainingExercises {
  import opened Wrappers
  import opened Models
  import opened Tables
  import opened Requests
  import opened Policies
  import opened Database

  const ExerciseId := "exercise_id"
  const DefaultSets := "default_sets"
  const DefaultReps := "default_reps"
  const DefaultRestSeconds := "default_rest_seconds"

  /** The rest time a new link gets when none is given (the `?? 90` and the column default). */
  const DefaultRest := 90

  /** The nullable fields of `store` and `update`; `store` also requires `exercise_id`. */
  const LinkRules: map<string, Rule> := map[
    DefaultSets := IntegerBetween(1, 20),
    DefaultReps := IntegerBetween(1, 500),
    DefaultRestSeconds := IntegerBetween(0, 600),
    Notes := TextAtMost(1000)]

  /** The order of refusals: route binding (404), then the policy (403), then the rules (422). */
  function LinkRequestCheck(found: bool, allowed: bool, failures: set<string>): (r: Option<Error>)
    ensures r.None? <==> found && allowed && failures == {}
    ensures !found ==> r == Some(NotFound)
    ensures found && !allowed ==> r == Some(Forbidden)
    ensures found && allowed && failures != {} ==> r == Some(Invalid(failures))
  {
    if !found then Some(NotFound)
    else if !allowed then Some(Forbidden)
    else if failures != {} then Some(Invalid(failures))
    else None
  }

  /** `$this->authorize('update', $training)` for a training that exists. */
  function MayEdit(db: Db, user: Id, training: Id): bool
    reads db
  {
    training in db.trainings && TrainingPolicy(Update, user, db.trainings[training])
  }

  /** `required|exists:table,id`: the key holds an integer that is the id of a row of the table. */
  function ExistingId(p: Payload, key: string, ids: set<Id>): (r: Option<Id>)
    ensures r.Some? <==> key in p && IntegerOf(p[key]).Some? && IntegerOf(p[key]).value in ids
    ensures r.Some? ==> r.value in ids && r.value == IntegerOf(p[key]).value
  {
    if key in p && IntegerOf(p[key]).Some? && IntegerOf(p[key]).value in ids then
      var n: Id := IntegerOf(p[key]).value;
      Some(n)
    else None
  }

  // ----- store ---------------------------------------------------------------------

  /** The failing keys of `store`'s rules; `exercise_id` may name any user's exercise. */
  function StoreLinkFailures(p: Payload, exerciseIds: set<Id>): (r: set<string>)
    ensures ExerciseId in r <==> ExistingId(p, ExerciseId, exerciseIds).None?
    ensures r == {} <==>
      && ExistingId(p, ExerciseId, exerciseIds).Some?
      && OptionalInteger(p, DefaultSets, 1, 20)
      && OptionalInteger(p, DefaultReps, 1, 500)
      && OptionalInteger(p, DefaultRestSeconds, 0, 600)
      && OptionalText(p, Notes, 1000)
  {
    assert DefaultSets in LinkRules && DefaultReps in LinkRules && DefaultRestSeconds in LinkRules;
    assert Notes in LinkRules && ExerciseId !in LinkRules;
    Failures(LinkRules, p) + (if ExistingId(p, ExerciseId, exerciseIds).None? then {ExerciseId} else {})
  }

  /**
   * How `store` is refused: 404/403/422 as above, then 404 again when the exercise
   * exists but belongs to someone else (`firstOrFail` on the user's exercises).
   */
  function StoreLinkCheck(db: Db, user: Id, training: Id, p: Payload): (r: Option<Error>)
    reads db
    ensures r.None? ==> training in db.trainings && db.trainings[training].userId == user
    ensures r.None? ==> ExistingId(p, ExerciseId, db.exercises.Keys).Some?
    ensures r.None? ==> db.exercises[ExistingId(p, ExerciseId, db.exercises.Keys).value].userId == user
  {
    var failures := StoreLinkFailures(p, db.exercises.Keys);
    var check := LinkRequestCheck(training in db.trainings, MayEdit(db, user, training), failures);
    if check.Some? then check
    else if db.exercises[ExistingId(p, ExerciseId, db.exercises.Keys).value].userId != user then Some(NotFound)
    else None
  }

  /** `max('order_index') ?? -1`, plus one: the place after the training's last link, 0 for the first. */
  ghost function NextOrder(links: map<Id, TrainingExercise>, training: Id): (r: int)
    ensures forall id :: id in links && links[id].trainingId == training ==> links[id].orderIndex < r
    ensures r == 0 || exists id :: id in links && links[id].trainingId == training && links[id].orderIndex == r - 1
  {
    var k := LinkOrders(links, training);
    match MaxOf(k)
    case None => 0
    case Some(m) =>
      assert exists id :: id in k && k[id] == m;
      m + 1
  }

  /** The row `store` creates from the validated body. */
  function NewLink(training: Id, exercise: Id, order: int, v: Payload): TrainingExercise
  {
    TrainingExercise(training, exercise, order,
      IntegerField(v, DefaultSets), IntegerField(v, DefaultReps),
      GetOr(IntegerField(v, DefaultRestSeconds), DefaultRest), TextField(v, Notes))
  }

  /**
   * The new link's fields: the defaults given, null where absent or null, except the
   * rest time, which is 90 when absent or null.
   */
  lemma NewLinkFields(training: Id, exercise: Id, order: int, p: Payload)
    requires Failures(LinkRules, p) == {}
    ensures var l := NewLink(training, exercise, order, Validated(LinkRules, p));
      && l.trainingId == training && l.exerciseId == exercise && l.orderIndex == order
      && (DefaultSets !in p || p[DefaultSets].Null? <==> l.defaultSets.None?)
      && (DefaultReps !in p || p[DefaultReps].Null? <==> l.defaultReps.None?)
      && (Notes !in p || p[Notes].Null? <==> l.notes.None?)
      && (l.defaultSets.Some? ==> 1 <= l.defaultSets.value <= 20)
      && (l.defaultReps.Some? ==> 1 <= l.defaultReps.value <= 500)
      && 0 <= l.defaultRestSeconds <= 600
      && (DefaultRestSeconds !in p || p[DefaultRestSeconds].Null? ==> l.defaultRestSeconds == DefaultRest)
  {
    assert DefaultSets in LinkRules && DefaultReps in LinkRules && DefaultRestSeconds in LinkRules;
    assert Notes in LinkRules;
    assert DefaultSets in p ==> Passes(LinkRules[DefaultSets], p[DefaultSets]);
    assert DefaultReps in p ==> Passes(LinkRules[DefaultReps], p[DefaultReps]);
    assert DefaultRestSeconds in p ==> Passes(LinkRules[DefaultRestSeconds], p[DefaultRestSeconds]);
    assert Notes in p ==> Passes(LinkRules[Notes], p[Notes]);
  }

  /** With the training's links numbered 0..n-1, the new one is numbered n. */
  lemma NextOrderIsCount(links: map<Id, TrainingExercise>, training: Id)
    requires Dense(LinkOrders(links, training), 0)
    ensures NextOrder(links, training) == |LinkOrders(links, training)|
  {
    var k := LinkOrders(links, training);
    if k != map[] {
      DenseMax(k, 0);
    }
  }

  /**
   * Adding a link at NextOrder keeps the order indices of every training distinct,
   * and keeps a training numbered 0..n-1 numbered 0..n.
   */
  lemma AddKeepsOrder(links: map<Id, TrainingExercise>, newId: Id, l: TrainingExercise, t: Id)
    requires newId !in links && l.orderIndex == NextOrder(links, l.trainingId)
    ensures Injective(LinkOrders(links, t)) ==> Injective(LinkOrders(links[newId := l], t))
    ensures Dense(LinkOrders(links, t), 0) ==> Dense(LinkOrders(links[newId := l], t), 0)
  {
    var k := LinkOrders(links, t);
    var k' := LinkOrders(links[newId := l], t);
    if l.trainingId == t {
      assert k' == k[newId := l.orderIndex];
      if Dense(k, 0) {
        NextOrderIsCount(links, t);
        DenseAfterAdding(k, 0, newId);
      }
    } else {
      assert k' == k;
    }
  }

  /** `store`: add an exercise at the end of the training.  Answers the new link's id. */
  method AddLink(db: Db, user: Id, training: Id, p: Payload) returns (r: Result<Id>)
    requires db.Valid()
    modifies db`links, db`nextId
    ensures db.Valid()
    ensures r.Failure? <==> old(StoreLinkCheck(db, user, training, p)).Some?
    ensures r.Failure? ==> r.error == old(StoreLinkCheck(db, user, training, p)).value
    ensures r.Failure? ==> db.links == old(db.links) && db.nextId == old(db.nextId)
    ensures r.Success? ==>
      && r.value !in old(db.links)
      && db.links == old(db.links)[r.value := NewLink(training, ExistingId(p, ExerciseId, db.exercises.Keys).value,
                                                       NextOrder(old(db.links), training), Validated(LinkRules, p))]
    ensures forall t :: old(Dense(LinkOrders(db.links, t), 0)) ==> Dense(LinkOrders(db.links, t), 0)
    ensures forall t :: old(Injective(LinkOrders(db.links, t))) ==> Injective(LinkOrders(db.links, t))
  {
    var check := StoreLinkCheck(db, user, training, p);
    if check.Some? {
      return Failure(check.value);
    }
    var exercise := ExistingId(p, ExerciseId, db.exercises.Keys).value;
    var before := db.links;
    var order := NextLinkOrder(before, training);
    var id := db.nextId;
    var l := NewLink(training, exercise, order, Validated(LinkRules, p));
    forall t ensures Injective(LinkOrders(before, t)) ==> Injective(LinkOrders(before[id := l], t))
                 ensures Dense(LinkOrders(before, t), 0) ==> Dense(LinkOrders(before[id := l], t), 0)
    {
      AddKeepsOrder(before, id, l, t);
    }
    db.links, db.nextId := before[id := l], db.nextId + 1;
    r := Success(id);
  }

  /** `$training->trainingExercises()->max('order_index') ?? -1`, plus one. */
  method NextLinkOrder(links: map<Id, TrainingExercise>, training: Id) returns (order: int)
    ensures order == NextOrder(links, training)
  {
    var max := MaxValue(LinkOrders(links, training));
    order := if max.None? then 0 else max.value + 1;
  }

  // ----- update --------------------------------------------------------------------

  /** How `update` and `destroy` on the link `id` are refused. */
  function LinkCheck(db: Db, user: Id, id: Id, failures: set<string>): (r: Option<Error>)
    reads db
    ensures r.None? ==> id in db.links && MayEdit(db, user, db.links[id].trainingId) && failures == {}
  {
    LinkRequestCheck(id in db.links, id in db.links && MayEdit(db, user, db.links[id].trainingId), failures)
  }

  /**
   * `$trainingExercise->update($validated)`: each present key overwrites its column.
   * A null rest time is accepted by the rules but the column is NOT NULL, so the
   * write fails and the row stays as it was.
   */
  function PatchLink(l: TrainingExercise, v: Payload): (r: Result<TrainingExercise>)
  {
    if DefaultRestSeconds in v && IntegerOf(v[DefaultRestSeconds]).None? then Failure(StorageError)
    else Success(l.(
      defaultSets := if DefaultSets in v then IntegerOf(v[DefaultSets]) else l.defaultSets,
      defaultReps := if DefaultReps in v then IntegerOf(v[DefaultReps]) else l.defaultReps,
      defaultRestSeconds := if DefaultRestSeconds in v then IntegerOf(v[DefaultRestSeconds]).value
                            else l.defaultRestSeconds,
      notes := if Notes in v then TextOf(v[Notes]) else l.notes))
  }

  /**
   * On a body that passed the rules, the update fails exactly when it carries an
   * explicit null rest time; otherwise present keys take their values, absent keys
   * keep theirs, and the link stays in its training, on its exercise, at its place.
   */
  lemma PatchLinkMeaning(l: TrainingExercise, p: Payload)
    requires Failures(LinkRules, p) == {}
    ensures var r := PatchLink(l, Validated(LinkRules, p));
      && (r.Failure? <==> DefaultRestSeconds in p && p[DefaultRestSeconds].Null?)
      && (r.Success? ==>
            && r.value.trainingId == l.trainingId && r.value.exerciseId == l.exerciseId
            && r.value.orderIndex == l.orderIndex
            && (DefaultSets !in p ==> r.value.defaultSets == l.defaultSets)
            && (DefaultReps !in p ==> r.value.defaultReps == l.defaultReps)
            && (DefaultRestSeconds !in p ==> r.value.defaultRestSeconds == l.defaultRestSeconds)
            && (Notes !in p ==> r.value.notes == l.notes)
            && (DefaultSets in p ==> r.value.defaultSets == IntegerOf(p[DefaultSets]))
            && (DefaultReps in p ==> r.value.defaultReps == IntegerOf(p[DefaultReps]))
            && (DefaultRestSeconds in p ==> Some(r.value.defaultRestSeconds) == IntegerOf(p[DefaultRestSeconds]))
            && (Notes in p ==> r.value.notes == TextOf(p[Notes]))
            && 0 <= r.value.defaultRestSeconds - (if DefaultRestSeconds in p then 0 else l.defaultRestSeconds)
               <= (if DefaultRestSeconds in p then 600 else 0))
  {
    assert DefaultRestSeconds in LinkRules;
    assert DefaultRestSeconds in p ==> Passes(LinkRules[DefaultRestSeconds], p[DefaultRestSeconds]);
  }

  /** Sending the same update twice leaves the link as sending it once. */
  lemma PatchLinkIsIdempotent(l: TrainingExercise, v: Payload)
    requires PatchLink(l, v).Success?
    ensures PatchLink(PatchLink(l, v).value, v) == PatchLink(l, v)
  {
  }

  /** A row rewritten in place with the same training and place leaves every training's numbering as it was. */
  lemma RewriteKeepsOrders(links: map<Id, TrainingExercise>, id: Id, l: TrainingExercise, t: Id)
    requires id in links && l.trainingId == links[id].trainingId && l.orderIndex == links[id].orderIndex
    ensures LinkOrders(links[id := l], t) == LinkOrders(links, t)
  {
    assert LinkOrders(links[id := l], t).Keys == LinkOrders(links, t).Keys;
  }

  /** `update`: patch the link's defaults.  Answers the row as stored. */
  method UpdateLink(db: Db, user: Id, id: Id, p: Payload) returns (r: Result<TrainingExercise>)
    requires db.Valid()
    modifies db`links
    ensures db.Valid()
    ensures old(LinkCheck(db, user, id, Failures(LinkRules, p))).Some? ==>
      r == Failure(old(LinkCheck(db, user, id, Failures(LinkRules, p))).value)
    ensures old(LinkCheck(db, user, id, Failures(LinkRules, p))).None? ==>
      r == PatchLink(old(db.links)[id], Validated(LinkRules, p))
    ensures r.Failure? ==> db.links == old(db.links)
    ensures r.Success? ==> db.links == old(db.links)[id := r.value]
    ensures forall t :: LinkOrders(db.links, t) == LinkOrders(old(db.links), t)
  {
    var check := LinkCheck(db, user, id, Failures(LinkRules, p));
    if check.Some? {
      return Failure(check.value);
    }
    PatchLinkMeaning(db.links[id], p);
    r := PatchLink(db.links[id], Validated(LinkRules, p));
    if r.Success? {
      forall t ensures LinkOrders(db.links[id := r.value], t) == LinkOrders(db.links, t) {
        RewriteKeepsOrders(db.links, id, r.value, t);
      }
      db.links := db.links[id := r.value];
    }
  }

  // ----- reorder -------------------------------------------------------------------

  /** One entry of the reorder body, once validated. */
  datatype Move = Move(id: Id, orderIndex: int)

  /**
   * One member of the `exercises` array, with its key: a JSON list gives the keys
   * "0", "1", ..., a JSON object its own property names.  Laravel's `array` rule
   * accepts both, and the `exercises.*` rules check the values either way.
   */
  datatype Entry = Entry(key: string, item: Payload)

  /** The error key `exercises.<key>.<field>`. */
  function ItemKey(key: string, field: string): string
  {
    "exercises." + key + "." + field
  }

  /** `exercises.*.order_index`: required|integer|min:0. */
  predicate Ordinal(item: Payload)
  {
    "order_index" in item && IntegerOf(item["order_index"]).Some? && IntegerOf(item["order_index"]).value >= 0
  }

  /** One entry passes: an existing link id and a non-negative integer place. */
  predicate ItemPasses(item: Payload, linkIds: set<Id>)
  {
    ExistingId(item, "id", linkIds).Some? && Ordinal(item)
  }

  /**
   * The failing keys of `reorder`'s rules.  `body` is the `exercises` array, `None`
   * when it is absent, null or not an array; an entry that is not an object has no keys.
   * The `exists` rule accepts the id of any training's link.
   */
  function ReorderFailures(body: Option<seq<Entry>>, linkIds: set<Id>): (r: set<string>)
    ensures body.None? || body == Some([]) ==> r == {"exercises"}
    ensures r == {} <==> body.Some? && body.value != [] &&
                         forall i :: 0 <= i < |body.value| ==> ItemPasses(body.value[i].item, linkIds)
    ensures body.Some? ==> forall i :: 0 <= i < |body.value| ==>
      (ExistingId(body.value[i].item, "id", linkIds).None? ==> ItemKey(body.value[i].key, "id") in r) &&
      (!Ordinal(body.value[i].item) ==> ItemKey(body.value[i].key, "order_index") in r)
  {
    if body.None? || body.value == [] then {"exercises"}
    else
      var es := body.value;
      var r := (set i | 0 <= i < |es| && ExistingId(es[i].item, "id", linkIds).None? :: ItemKey(es[i].key, "id"))
             + (set i | 0 <= i < |es| && !Ordinal(es[i].item) :: ItemKey(es[i].key, "order_index"));
      forall i | 0 <= i < |es| && !ItemPasses(es[i].item, linkIds) ensures r != {} {
        if ExistingId(es[i].item, "id", linkIds).None? {
          assert ItemKey(es[i].key, "id") in r;
        } else {
          assert ItemKey(es[i].key, "order_index") in r;
        }
      }
      r
  }

  /** How `reorder` on the training `training` is refused before the transaction. */
  function ReorderCheck(db: Db, user: Id, training: Id, body: Option<seq<Entry>>): (r: Option<Error>)
    reads db
    ensures r.None? ==> training in db.trainings && db.trainings[training].userId == user
    ensures r.None? ==> ReorderFailures(body, db.links.Keys) == {}
  {
    LinkRequestCheck(training in db.trainings, MayEdit(db, user, training), ReorderFailures(body, db.links.Keys))
  }

  /** `$validated['exercises']`: the entries' values, in the order given. */
  function Moves(entries: seq<Entry>, linkIds: set<Id>): (r: seq<Move>)
    requires forall i :: 0 <= i < |entries| ==> ItemPasses(entries[i].item, linkIds)
    ensures |r| == |entries|
    ensures forall i :: 0 <= i < |r| ==> r[i] == MoveOf(entries[i].item, linkIds)
  {
    seq(|entries|, i requires 0 <= i < |entries| => MoveOf(entries[i].item, linkIds))
  }

  /** One validated entry: its link id and its new place. */
  function MoveOf(item: Payload, linkIds: set<Id>): (m: Move)
    requires ItemPasses(item, linkIds)
    ensures m.id in linkIds && Some(m.id) == IntegerOf(item["id"])
    ensures Some(m.orderIndex) == IntegerOf(item["order_index"])
  {
    Move(ExistingId(item, "id", linkIds).value, IntegerOf(item["order_index"]).value)
  }

  /** Every entry names a link of this training (the `firstOrFail` inside the loop). */
  predicate InTraining(links: map<Id, TrainingExercise>, training: Id, moves: seq<Move>)
  {
    forall i :: 0 <= i < |moves| ==> moves[i].id in links && links[moves[i].id].trainingId == training
  }

  /** The table after the loop has written the entries one after the other. */
  function Reordered(links: map<Id, TrainingExercise>, moves: seq<Move>): (r: map<Id, TrainingExercise>)
    ensures r.Keys == links.Keys
    decreases |moves|
  {
    if moves == [] then links
    else
      var before := Reordered(links, moves[..|moves| - 1]);
      var m := moves[|moves| - 1];
      if m.id in before then before[m.id := before[m.id].(orderIndex := m.orderIndex)] else before
  }

  /** The place the last entry naming `id` gives it, or `default` when no entry names it. */
  function LastOrder(moves: seq<Move>, id: Id, default: int): (r: int)
    ensures (forall i :: 0 <= i < |moves| ==> moves[i].id != id) ==> r == default
    ensures |moves| > 0 && moves[|moves| - 1].id == id ==> r == moves[|moves| - 1].orderIndex
    decreases |moves|
  {
    if moves == [] then default
    else if moves[|moves| - 1].id == id then moves[|moves| - 1].orderIndex
    else LastOrder(moves[..|moves| - 1], id, default)
  }

  /**
   * What the loop does to each row: only its place changes, and it becomes the
   * place of the last entry that names it, so a later entry wins over an earlier one.
   */
  lemma {:induction false} ReorderedRows(links: map<Id, TrainingExercise>, moves: seq<Move>, id: Id)
    requires id in links
    ensures Reordered(links, moves)[id] == links[id].(orderIndex := LastOrder(moves, id, links[id].orderIndex))
    decreases |moves|
  {
    if moves != [] {
      ReorderedRows(links, moves[..|moves| - 1], id);
    }
  }

  /** When exactly one entry names `id`, its place is the one taken. */
  lemma {:induction false} LastOrderOfOnly(moves: seq<Move>, id: Id, default: int, i: int)
    requires 0 <= i < |moves| && moves[i].id == id
    requires forall j :: 0 <= j < |moves| && j != i ==> moves[j].id != id
    ensures LastOrder(moves, id, default) == moves[i].orderIndex
    decreases |moves|
  {
    if i < |moves| - 1 {
      LastOrderOfOnly(moves[..|moves| - 1], id, default, i);
    }
  }

  /** Taking the last entry's place twice is taking it once. */
  lemma {:induction false} LastOrderIsIdempotent(moves: seq<Move>, id: Id, default: int)
    ensures LastOrder(moves, id, LastOrder(moves, id, default)) == LastOrder(moves, id, default)
    decreases |moves|
  {
    if moves != [] && moves[|moves| - 1].id != id {
      LastOrderIsIdempotent(moves[..|moves| - 1], id, default);
    }
  }

  /** Sending the same reorder twice leaves the table as sending it once. */
  lemma ReorderIsIdempotent(links: map<Id, TrainingExercise>, moves: seq<Move>)
    ensures Reordered(Reordered(links, moves), moves) == Reordered(links, moves)
  {
    var once := Reordered(links, moves);
    var twice := Reordered(once, moves);
    forall id | id in links ensures twice[id] == once[id] {
      ReorderedRows(links, moves, id);
      ReorderedRows(once, moves, id);
      LastOrderIsIdempotent(moves, id, links[id].orderIndex);
    }
  }

  /** Rows whose training is not the one reordered keep their places. */
  lemma ReorderKeepsOtherTrainings(links: map<Id, TrainingExercise>, training: Id, moves: seq<Move>, t: Id)
    requires InTraining(links, training, moves) && t != training
    ensures LinkOrders(Reordered(links, moves), t) == LinkOrders(links, t)
  {
    var r := Reordered(links, moves);
    forall id | id in links ensures r[id].trainingId == links[id].trainingId
      && (links[id].trainingId == t ==> r[id].orderIndex == links[id].orderIndex)
    {
      ReorderedRows(links, moves, id);
    }
    assert LinkOrders(r, t).Keys == LinkOrders(links, t).Keys;
  }

  /**
   * A reorder that names each of the training's links once, with places that are
   * distinct and below their number, leaves the training numbered 0..n-1.
   */
  lemma ReorderArrangesDensely(links: map<Id, TrainingExercise>, training: Id, moves: seq<Move>)
    requires InTraining(links, training, moves)
    requires forall id :: id in LinkOrders(links, training) ==> exists i :: 0 <= i < |moves| && moves[i].id == id
    requires forall i, j :: 0 <= i < j < |moves| ==> moves[i].id != moves[j].id
    requires forall i, j :: 0 <= i < j < |moves| ==> moves[i].orderIndex != moves[j].orderIndex
    requires forall i :: 0 <= i < |moves| ==> 0 <= moves[i].orderIndex < |LinkOrders(links, training)|
    ensures Dense(LinkOrders(Reordered(links, moves), training), 0)
  {
    var r := Reordered(links, moves);
    var k := LinkOrders(links, training);
    var k' := LinkOrders(r, training);
    forall id | id in links ensures r[id].trainingId == links[id].trainingId
      && (links[id].trainingId == training ==>
            exists i :: 0 <= i < |moves| && moves[i].id == id && r[id].orderIndex == moves[i].orderIndex)
    {
      ReorderedRows(links, moves, id);
      if links[id].trainingId == training {
        var i :| 0 <= i < |moves| && moves[i].id == id;
        LastOrderOfOnly(moves, id, links[id].orderIndex, i);
      }
    }
    assert k'.Keys == k.Keys;
    forall a, b | a in k' && b in k' && k'[a] == k'[b] ensures a == b {
      var i :| 0 <= i < |moves| && moves[i].id == a && r[a].orderIndex == moves[i].orderIndex;
      var j :| 0 <= j < |moves| && moves[j].id == b && r[b].orderIndex == moves[j].orderIndex;
      assert i == j;
    }
  }

  /**
   * The transaction: write the entries one after the other, and undo everything
   * (answering false) at the first one naming a link of another training.
   */
  method ApplyMoves(db: Db, training: Id, moves: seq<Move>) returns (ok: bool)
    requires db.Valid()
    modifies db`links
    ensures db.Valid()
    ensures ok <==> InTraining(old(db.links), training, moves)
    ensures ok ==> db.links == Reordered(old(db.links), moves)
    ensures !ok ==> db.links == old(db.links)
  {
    var links := db.links;
    var i := 0;
    while i < |moves|
      invariant 0 <= i <= |moves|
      invariant links == Reordered(db.links, moves[..i])
      invariant InTraining(db.links, training, moves[..i])
      invariant forall id :: id in links ==>
        links[id].trainingId == db.links[id].trainingId && links[id].exerciseId == db.links[id].exerciseId
    {
      var m := moves[i];
      if m.id !in links || links[m.id].trainingId != training {
        return false;
      }
      assert moves[..i + 1][..i] == moves[..i];
      links := links[m.id := links[m.id].(orderIndex := m.orderIndex)];
      i := i + 1;
    }
    assert moves[..i] == moves;
    db.links := links;
    ok := true;
  }

  /** `reorder`: validate, then run the transaction; a foreign link id answers 404. */
  method Reorder(db: Db, user: Id, training: Id, body: Option<seq<Entry>>) returns (r: Result<()>)
    requires db.Valid()
    modifies db`links
    ensures db.Valid()
    ensures old(ReorderCheck(db, user, training, body)).Some? ==>
      r == Failure(old(ReorderCheck(db, user, training, body)).value) && db.links == old(db.links)
    ensures old(ReorderCheck(db, user, training, body)).None? ==>
      var moves := Moves(body.value, old(db.links.Keys));
      && (r.Success? <==> InTraining(old(db.links), training, moves))
      && (r.Success? ==> db.links == Reordered(old(db.links), moves))
      && (r.Failure? ==> r.error == NotFound && db.links == old(db.links))
  {
    var check := ReorderCheck(db, user, training, body);
    if check.Some? {
      return Failure(check.value);
    }
    var moves := Moves(body.value, db.links.Keys);
    var ok := ApplyMoves(db, training, moves);
    r := if ok then Success(()) else Failure(NotFound);
  }

  // ----- destroy -------------------------------------------------------------------

  /**
   * Removal leaves no two links of a training at the same place, but it does not
   * renumber: removing any link but the last of a training numbered 0..n-1 leaves a
   * gap, so the training is no longer numbered densely.  (Adding puts the next link
   * after the largest place, so the order stays consistent.)
   */
  lemma RemoveLeavesGap(links: map<Id, TrainingExercise>, d: Id)
    requires d in links
    ensures LinkOrders(Without(links, d), links[d].trainingId) == Without(LinkOrders(links, links[d].trainingId), d)
    ensures forall t :: Injective(LinkOrders(links, t)) ==> Injective(LinkOrders(Without(links, d), t))
    ensures var k := LinkOrders(links, links[d].trainingId);
            Dense(k, 0) && k[d] < |k| - 1 ==> !Dense(LinkOrders(Without(links, d), links[d].trainingId), 0)
  {
    var t0 := links[d].trainingId;
    var k := LinkOrders(links, t0);
    var w := LinkOrders(Without(links, d), t0);
    assert w == Without(k, d);
    forall t | Injective(LinkOrders(links, t)) ensures Injective(LinkOrders(Without(links, d), t)) {
      assert forall id :: id in LinkOrders(Without(links, d), t) ==> id in LinkOrders(links, t);
    }
    if Dense(k, 0) && k[d] < |k| - 1 {
      PigeonHole(k, 0);
      assert |k| - 1 in k.Values;
      var last :| last in k && k[last] == |k| - 1;
      assert last != d && last in w;
      assert |w| == |k| - 1;
    }
  }

  /** `destroy`: delete the link; the others keep their places. */
  method RemoveLink(db: Db, user: Id, id: Id) returns (r: Result<()>)
    requires db.Valid()
    modifies db`links
    ensures db.Valid()
    ensures r.Failure? <==> old(LinkCheck(db, user, id, {})).Some?
    ensures r.Failure? ==> r.error == old(LinkCheck(db, user, id, {})).value && db.links == old(db.links)
    ensures r.Success? ==> db.links == Without(old(db.links), id)
  {
    var check := LinkCheck(db, user, id, {});
    if check.Some? {
      return Failure(check.value);
    }
    db.links := Without(db.links, id);
    r := Success(());
  }
}
