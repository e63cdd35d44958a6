/**
 * The form requests: each one's rule table as a predicate on the decoded request
 * body, and `validated()` as the body restricted to the keys that have a rule.
 */
module Requests {
  import opened Wrappers
  import opened Models

  /**
   * A decoded request value.  JSON numbers written without a fraction are `Int`;
   * numbers with a fraction are `Dec`, carried to two decimal places.
   */
  datatype Value =
    | Null
    | Int(n: int)
    | Dec(hundredths: int)
    | Text(s: string)

  /** The request body: the keys it carries and their values. */
  type Payload = map<string, Value>

  /** The value as an integer, when Laravel's `integer` rule accepts it (8.0 is accepted). */
  function IntegerOf(v: Value): (r: Option<int>)
    ensures v.Int? ==> r == Some(v.n)
    ensures v.Dec? ==> (r.Some? <==> v.hundredths % 100 == 0)
    ensures r.Some? ==> NumberOf(v) == Some(r.value * 100)
  {
    match v
    case Int(n) => Some(n)
    case Dec(h) => if h % 100 == 0 then Some(h / 100) else None
    case _ => None
  }

  /** The value in hundredths, when Laravel's `numeric` rule accepts it. */
  function NumberOf(v: Value): (r: Option<int>)
    ensures r.Some? <==> v.Int? || v.Dec?
  {
    match v
    case Int(n) => Some(n * 100)
    case Dec(h) => Some(h)
    case _ => None
  }

  /** The three rule shapes these requests use; every one of them is `nullable`. */
  datatype Rule =
    | IntegerBetween(lo: int, hi: int)   // nullable|integer|min:lo|max:hi
    | NumberBetween(lo: int, hi: int)    // nullable|numeric|min|max, bounds in hundredths
    | TextAtMost(max: nat)               // nullable|string|max:n (length in characters)

  predicate Passes(rule: Rule, v: Value)
  {
    v.Null? ||
    match rule
    case IntegerBetween(lo, hi) => IntegerOf(v).Some? && lo <= IntegerOf(v).value <= hi
    case NumberBetween(lo, hi) => NumberOf(v).Some? && lo <= NumberOf(v).value <= hi
    case TextAtMost(max) => v.Text? && |v.s| <= max
  }

  /** The keys of the body whose rule fails; keys without a rule are never checked. */
  function Failures(rules: map<string, Rule>, p: Payload): (r: set<string>)
    ensures forall k :: k in r <==> k in p && k in rules && !Passes(rules[k], p[k])
  {
    set k | k in p && k in rules && !Passes(rules[k], p[k])
  }

  /** `$request->validated()`: only the keys that have a rule survive. */
  function Validated(rules: map<string, Rule>, p: Payload): (v: Payload)
    ensures v.Keys == p.Keys * rules.Keys
    ensures forall k :: k in v ==> v[k] == p[k]
  {
    map k | k in p && k in rules :: p[k]
  }

  /** `$validated[key] ?? null` for an integer column. */
  function IntegerField(v: Payload, key: string): Option<int>
  {
    if key in v then IntegerOf(v[key]) else None
  }

  /** `$validated[key] ?? null` for a decimal(8,2) column, in hundredths. */
  function NumberField(v: Payload, key: string): Option<int>
  {
    if key in v then NumberOf(v[key]) else None
  }

  /** The value as a string, when it is one. */
  function TextOf(v: Value): Option<string>
  {
    if v.Text? then Some(v.s) else None
  }

  /** `$validated[key] ?? null` for a text column. */
  function TextField(v: Payload, key: string): Option<string>
  {
    if key in v then TextOf(v[key]) else None
  }

  const Reps := "reps"
  const Weight := "weight"
  const DurationSeconds := "duration_seconds"
  const Distance := "distance"
  const Notes := "notes"
  const RestSecondsActual := "rest_seconds_actual"

  /** StoreSessionSetRequest::rules. */
  const StoreSetRules: map<string, Rule> := map[
    Reps := IntegerBetween(1, 500),
    Weight := NumberBetween(0, 999999),
    DurationSeconds := IntegerBetween(1, 86400),
    Distance := NumberBetween(0, 999999),
    Notes := TextAtMost(1000),
    RestSecondsActual := IntegerBetween(0, 3600)]

  /** UpdateSessionSetRequest::rules: the same table without a rule for the rest time. */
  const UpdateSetRules: map<string, Rule> := map[
    Reps := IntegerBetween(1, 500),
    Weight := NumberBetween(0, 999999),
    DurationSeconds := IntegerBetween(1, 86400),
    Distance := NumberBetween(0, 999999),
    Notes := TextAtMost(1000)]

  /** "null or an integer in lo..hi", or the key is absent. */
  predicate OptionalInteger(p: Payload, key: string, lo: int, hi: int)
  {
    key in p ==> p[key].Null? || (IntegerOf(p[key]).Some? && lo <= IntegerOf(p[key]).value <= hi)
  }

  /** "null or a number in lo..hi hundredths", or the key is absent. */
  predicate OptionalNumber(p: Payload, key: string, lo: int, hi: int)
  {
    key in p ==> p[key].Null? || (NumberOf(p[key]).Some? && lo <= NumberOf(p[key]).value <= hi)
  }

  /** "null or a string of at most max characters", or the key is absent. */
  predicate OptionalText(p: Payload, key: string, max: nat)
  {
    key in p ==> p[key].Null? || (p[key].Text? && |p[key].s| <= max)
  }

  /** A set body passes StoreSessionSetRequest exactly when each field is in its range. */
  lemma StoreSetRulesMeaning(p: Payload)
    ensures Failures(StoreSetRules, p) == {} <==>
      && OptionalInteger(p, Reps, 1, 500)
      && OptionalNumber(p, Weight, 0, 999999)
      && OptionalInteger(p, DurationSeconds, 1, 86400)
      && OptionalNumber(p, Distance, 0, 999999)
      && OptionalText(p, Notes, 1000)
      && OptionalInteger(p, RestSecondsActual, 0, 3600)
  {
    if Failures(StoreSetRules, p) == {} {
      assert Reps in StoreSetRules && Weight in StoreSetRules && DurationSeconds in StoreSetRules;
      assert Distance in StoreSetRules && Notes in StoreSetRules && RestSecondsActual in StoreSetRules;
      assert Reps !in Failures(StoreSetRules, p) && Weight !in Failures(StoreSetRules, p);
      assert DurationSeconds !in Failures(StoreSetRules, p) && Distance !in Failures(StoreSetRules, p);
      assert Notes !in Failures(StoreSetRules, p) && RestSecondsActual !in Failures(StoreSetRules, p);
    }
  }

  /** A body passes UpdateSessionSetRequest exactly when each field it can validate is in range. */
  lemma UpdateSetRulesMeaning(p: Payload)
    ensures Failures(UpdateSetRules, p) == {} <==>
      && OptionalInteger(p, Reps, 1, 500)
      && OptionalNumber(p, Weight, 0, 999999)
      && OptionalInteger(p, DurationSeconds, 1, 86400)
      && OptionalNumber(p, Distance, 0, 999999)
      && OptionalText(p, Notes, 1000)
  {
    if Failures(UpdateSetRules, p) == {} {
      assert Reps in UpdateSetRules && Weight in UpdateSetRules && DurationSeconds in UpdateSetRules;
      assert Distance in UpdateSetRules && Notes in UpdateSetRules;
      assert Reps !in Failures(UpdateSetRules, p) && Weight !in Failures(UpdateSetRules, p);
      assert DurationSeconds !in Failures(UpdateSetRules, p) && Distance !in Failures(UpdateSetRules, p);
      assert Notes !in Failures(UpdateSetRules, p);
    }
  }

  /** Every field is optional: an empty body passes any of these tables. */
  lemma EmptyBodyPasses(rules: map<string, Rule>)
    ensures Failures(rules, map[]) == {}
  {
  }

  /** The rest time has no update rule, so it never reaches the update's validated fields. */
  lemma UpdateNeverCarriesRest(p: Payload)
    ensures RestSecondsActual !in Validated(UpdateSetRules, p)
    ensures Validated(UpdateSetRules, p).Keys <= {Reps, Weight, DurationSeconds, Distance, Notes}
  {
  }

  /**
   * What a valid store body can put into the columns: each stored measurement is
   * null or within its rule's range.
   */
  lemma StoredSetFieldsInRange(p: Payload)
    requires Failures(StoreSetRules, p) == {}
    ensures var v := Validated(StoreSetRules, p);
      && (IntegerField(v, Reps).Some? ==> 1 <= IntegerField(v, Reps).value <= 500)
      && (NumberField(v, Weight).Some? ==> 0 <= NumberField(v, Weight).value <= 999999)
      && (IntegerField(v, DurationSeconds).Some? ==> 1 <= IntegerField(v, DurationSeconds).value <= 86400)
      && (NumberField(v, Distance).Some? ==> 0 <= NumberField(v, Distance).value <= 999999)
      && (TextField(v, Notes).Some? ==> |TextField(v, Notes).value| <= 1000)
      && (IntegerField(v, RestSecondsActual).Some? ==> 0 <= IntegerField(v, RestSecondsActual).value <= 3600)
  {
    StoreSetRulesMeaning(p);
  }

  // ----- StatsFilterRequest -------------------------------------------------------

  /** Seconds into a day. */
  type Clock = c: int | 0 <= c < 86400

  /**
   * A date query parameter: absent, null, a string the `date` rule accepts (its
   * calendar day and time of day), or any other string.  For the last, `parsed` is
   * the instant Carbon's parser still reads into it (as for "now"), or `None` when
   * the parser throws.
   */
  datatype DateParam = Absent | NullDate | OnDay(day: int, clock: Clock) | NotADate(parsed: Option<int>)

  datatype FilterError = StartNotDate | EndNotDate | EndBeforeStart

  /** The timestamp `compareDates` takes of a parameter's value: null when it cannot parse it. */
  function Stamp(d: DateParam): Option<int>
  {
    match d
    case OnDay(day, clock) => Some(day * 86400 + clock)
    case NotADate(parsed) => parsed
    case _ => None
  }

  /**
   * PHP's `>=` between two values that are each an int or null: two ints compare as
   * numbers, and once null is involved both sides are compared as booleans.
   */
  predicate LooseAtLeast(a: Option<int>, b: Option<int>)
  {
    match (a, b)
    case (Some(x), Some(y)) => x >= y
    case _ => Truthy(b) ==> Truthy(a)
  }

  /** PHP's boolean reading of an int or null: only a non-zero int is true. */
  predicate Truthy(x: Option<int>)
  {
    match x
    case Some(v) => v != 0
    case None => false
  }

  /**
   * StatsFilterRequest::rules: both dates are nullable dates, and the end must be on
   * or after the start.  Nothing bails, so `after_or_equal` runs on any end value that
   * is present and not null, even one that failed `date`: it compares the two
   * timestamps with PHP's `>=`, where a missing timestamp on either side is null.
   */
  function StatsFilterErrors(start: DateParam, end: DateParam): (r: set<FilterError>)
    ensures StartNotDate in r <==> start.NotADate?
    ensures EndNotDate in r <==> end.NotADate?
    ensures EndBeforeStart in r <==>
      && (end.OnDay? || end.NotADate?)
      && Stamp(start).Some?
      && (if Stamp(end).Some? then Stamp(end).value < Stamp(start).value else Stamp(start).value != 0)
    ensures (start.Absent? || start.NullDate?) && (end.Absent? || end.NullDate?) ==> r == {}
  {
    (if start.NotADate? then {StartNotDate} else {}) +
    (if end.NotADate? then {EndNotDate} else {}) +
    (if (end.OnDay? || end.NotADate?) && !LooseAtLeast(Stamp(end), Stamp(start)) then {EndBeforeStart} else {})
  }

  /** Between two dates, the end fails exactly when it is an earlier instant; between plain dates, an earlier day. */
  lemma DatesCompareByInstant(start: DateParam, end: DateParam)
    requires start.OnDay? && end.OnDay?
    ensures EndBeforeStart in StatsFilterErrors(start, end) <==>
      end.day < start.day || (end.day == start.day && end.clock < start.clock)
    ensures start.clock == end.clock ==> (EndBeforeStart in StatsFilterErrors(start, end) <==> end.day < start.day)
  {
  }

  /**
   * An end date the parser cannot read fails the comparison too whenever the start
   * is a date other than 1970-01-01 at midnight, so the 422 lists both end-date
   * messages; a missing or null start never makes the comparison fail.
   */
  lemma UnreadableEndFailsBoth(start: DateParam)
    ensures start.OnDay? && Stamp(start) != Some(0) ==>
      StatsFilterErrors(start, NotADate(None)) == {EndNotDate, EndBeforeStart}
    ensures start.Absent? || start.NullDate? ==>
      forall end :: EndBeforeStart !in StatsFilterErrors(start, end)
  {
  }

  /** The messages shown for each failure (the first two are the framework's default line). */
  function FilterMessage(e: FilterError): string
  {
    match e
    case StartNotDate => "The start date field must be a valid date."
    case EndNotDate => "The end date field must be a valid date."
    case EndBeforeStart => "The end date must be after or equal to the start date."
  }

  // ----- ExerciseStoreRequest and TrainingStoreRequest ----------------------------

  /** The characters PHP's trim() strips; Laravel's `required` refuses a string made only of them. */
  predicate Blank(s: string)
  {
    forall i :: 0 <= i < |s| ==> s[i] in {' ', '\t', '\n', '\r', '\0', '\U{B}'}
  }

  /** `required|string|max:n`. */
  predicate RequiredText(p: Payload, key: string, max: nat)
  {
    key in p && p[key].Text? && !Blank(p[key].s) && |p[key].s| <= max
  }

  const ExerciseTypes: set<string> := {"strength", "cardio", "flexibility", "other"}

  /** Another exercise of this user already has that name (Rule::unique scoped by user_id). */
  predicate ExerciseNameTaken(existing: map<Id, Exercise>, user: Id, name: string)
  {
    exists id :: id in existing && existing[id].userId == user && existing[id].name == name
  }

  /** The fields of an exercise body that fail ExerciseStoreRequest::rules. */
  function ExerciseStoreFailures(p: Payload, user: Id, existing: map<Id, Exercise>): (r: set<string>)
    ensures "name" !in r <==>
      RequiredText(p, "name", 255) && !ExerciseNameTaken(existing, user, p["name"].s)
    ensures "type" !in r <==> "type" in p && p["type"].Text? && p["type"].s in ExerciseTypes
    ensures "description" !in r <==> OptionalText(p, "description", 1000)
    ensures "muscle_group" !in r <==> OptionalText(p, "muscle_group", 255)
    ensures r <= {"name", "type", "description", "muscle_group"}
  {
    var nameOk := RequiredText(p, "name", 255) && !ExerciseNameTaken(existing, user, p["name"].s);
    var typeOk := "type" in p && p["type"].Text? && p["type"].s in ExerciseTypes;
    (if nameOk then {} else {"name"}) +
    (if typeOk then {} else {"type"}) +
    (if OptionalText(p, "description", 1000) then {} else {"description"}) +
    (if OptionalText(p, "muscle_group", 255) then {} else {"muscle_group"})
  }

  /** Another user's exercise never makes a name fail: uniqueness is per owner. */
  lemma ExerciseNamesArePerOwner(p: Payload, user: Id, existing: map<Id, Exercise>, id: Id, e: Exercise)
    requires id !in existing && e.userId != user
    ensures ExerciseStoreFailures(p, user, existing[id := e]) == ExerciseStoreFailures(p, user, existing)
  {
    if "name" in p && p["name"].Text? {
      var name := p["name"].s;
      assert ExerciseNameTaken(existing[id := e], user, name) == ExerciseNameTaken(existing, user, name) by {
        if ExerciseNameTaken(existing[id := e], user, name) {
          var j :| j in existing[id := e] && existing[id := e][j].userId == user && existing[id := e][j].name == name;
          assert j != id && j in existing;
        }
        if ExerciseNameTaken(existing, user, name) {
          var j :| j in existing && existing[j].userId == user && existing[j].name == name;
          assert j != id && existing[id := e][j] == existing[j];
        }
      }
    }
  }

  /** Once the user owns an exercise of that name, a second one with the same name is refused. */
  lemma ExerciseNameRepeatFails(p: Payload, user: Id, existing: map<Id, Exercise>, id: Id, e: Exercise)
    requires RequiredText(p, "name", 255) && e.userId == user && e.name == p["name"].s
    ensures "name" in ExerciseStoreFailures(p, user, existing[id := e])
  {
    assert existing[id := e][id] == e;
  }

  /** Another of this user's trainings already has that name. */
  predicate TrainingNameTaken(existing: map<Id, Training>, user: Id, name: string)
  {
    exists id :: id in existing && existing[id].userId == user && existing[id].name == name
  }

  /** The fields of a training body that fail TrainingStoreRequest::rules. */
  function TrainingStoreFailures(p: Payload, user: Id, existing: map<Id, Training>): (r: set<string>)
    ensures "name" !in r <==>
      RequiredText(p, "name", 255) && !TrainingNameTaken(existing, user, p["name"].s)
    ensures "description" !in r <==> OptionalText(p, "description", 1000)
    ensures "notes" !in r <==> OptionalText(p, "notes", 2000)
    ensures r <= {"name", "description", "notes"}
  {
    var nameOk := RequiredText(p, "name", 255) && !TrainingNameTaken(existing, user, p["name"].s);
    (if nameOk then {} else {"name"}) +
    (if OptionalText(p, "description", 1000) then {} else {"description"}) +
    (if OptionalText(p, "notes", 2000) then {} else {"notes"})
  }

  /** Another user's training never makes a name fail. */
  lemma TrainingNamesArePerOwner(p: Payload, user: Id, existing: map<Id, Training>, id: Id, t: Training)
    requires id !in existing && t.userId != user
    ensures TrainingStoreFailures(p, user, existing[id := t]) == TrainingStoreFailures(p, user, existing)
  {
    if "name" in p && p["name"].Text? {
      var name := p["name"].s;
      assert TrainingNameTaken(existing[id := t], user, name) == TrainingNameTaken(existing, user, name) by {
        if TrainingNameTaken(existing[id := t], user, name) {
          var j :| j in existing[id := t] && existing[id := t][j].userId == user && existing[id := t][j].name == name;
          assert j != id && j in existing;
        }
        if TrainingNameTaken(existing, user, name) {
          var j :| j in existing && existing[j].userId == user && existing[j].name == name;
          assert j != id && existing[id := t][j] == existing[j];
        }
      }
    }
  }
}
