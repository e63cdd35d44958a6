/**
 * ExerciseStatsController: read-only statistics about one exercise of one user.
 *
 * Every query of the controller joins session_sets to session_exercises to
 * training_sessions and keeps the rows of this exercise in sessions of this user.
 * `Joined` is that join, over the set table given as a list of rows; the queries are
 * then filters, groupings and aggregates over its result.  Weights are hundredths,
 * so a volume reps * weight is in hundredths too and `round(.., 2)` loses nothing.
 */
module Stats {
  import opened Wrappers
  import opened Models
  import opened Requests
  import opened Tables

  /** One joined row: a set, with the id and the row of the session it was performed in. */
  datatype Fact = Fact(row: SessionSet, sessionId: Id, session: TrainingSession)

  /** The inclusive window on training_sessions.started_at. */
  datatype Range = Range(start: Instant, end: Instant)

  /** Whether a set row takes part in the join for this exercise and user. */
  predicate Joins(row: SessionSet, slots: map<Id, SessionExercise>, sessions: map<Id, TrainingSession>,
                  exercise: Id, user: Id)
  {
    && row.slot in slots
    && slots[row.slot].exerciseId == exercise
    && slots[row.slot].sessionId in sessions
    && sessions[slots[row.slot].sessionId].userId == user
  }

  function FactOf(row: SessionSet, slots: map<Id, SessionExercise>, sessions: map<Id, TrainingSession>): Fact
    requires row.slot in slots && slots[row.slot].sessionId in sessions
  {
    Fact(row, slots[row.slot].sessionId, sessions[slots[row.slot].sessionId])
  }

  /** Every fact carries the row of the session its id names. */
  ghost predicate Consistent(facts: seq<Fact>, sessions: map<Id, TrainingSession>)
  {
    forall f :: f in facts ==> f.sessionId in sessions && f.session == sessions[f.sessionId]
  }

  /**
   * The inner join of the set rows with their session-exercise and session, scoped
   * to this exercise and to sessions the user owns, in row order.
   */
  function Joined(rows: seq<SessionSet>, slots: map<Id, SessionExercise>, sessions: map<Id, TrainingSession>,
                  exercise: Id, user: Id): (r: seq<Fact>)
    ensures Consistent(r, sessions)
    ensures forall f :: f in r ==> f.session.userId == user && f.row in rows
    ensures forall f :: f in r ==> f.row.slot in slots && slots[f.row.slot].exerciseId == exercise
    ensures forall row :: row in rows && Joins(row, slots, sessions, exercise, user) ==>
              FactOf(row, slots, sessions) in r
    ensures |r| <= |rows|
  {
    if |rows| == 0 then []
    else
      (if Joins(rows[0], slots, sessions, exercise, user) then [FactOf(rows[0], slots, sessions)] else [])
      + Joined(rows[1..], slots, sessions, exercise, user)
  }

  // ----- filters ---------------------------------------------------------------------

  /** The whereNotNull combinations the queries use. */
  datatype Kind =
    | Completed     // completed_at
    | WithWeight    // completed_at, weight
    | WithReps      // completed_at, reps
    | WithVolume    // completed_at, weight, reps
    | WithRest      // rest_seconds_actual (completed or not)

  predicate Holds(kind: Kind, f: Fact)
  {
    match kind
    case Completed => f.row.completedAt.Some?
    case WithWeight => f.row.completedAt.Some? && f.row.weight.Some?
    case WithReps => f.row.completedAt.Some? && f.row.reps.Some?
    case WithVolume => f.row.completedAt.Some? && f.row.weight.Some? && f.row.reps.Some?
    case WithRest => f.row.restSecondsActual.Some?
  }

  /** whereBetween on started_at, both ends included; None is no range (all time). */
  predicate Within(range: Option<Range>, f: Fact)
  {
    range.None? || range.value.start <= f.session.startedAt <= range.value.end
  }

  /**
   * The facts passing the filter, in order: each passing fact as many times as it
   * occurs among the facts, and no other.
   */
  function Select(facts: seq<Fact>, range: Option<Range>, kind: Kind): (r: seq<Fact>)
    ensures forall f :: multiset(r)[f] == if Holds(kind, f) && Within(range, f) then multiset(facts)[f] else 0
    ensures forall f :: f in r <==> f in facts && Holds(kind, f) && Within(range, f)
    ensures |r| <= |facts|
  {
    if |facts| == 0 then []
    else
      assert facts == [facts[0]] + facts[1..];
      (if Holds(kind, facts[0]) && Within(range, facts[0]) then [facts[0]] else [])
      + Select(facts[1..], range, kind)
  }

  /** Both measurements of a set are present. */
  predicate Measured(f: Fact)
  {
    f.row.reps.Some? && f.row.weight.Some?
  }

  /** A set's volume, reps times weight, in hundredths. */
  function Volume(f: Fact): int
    requires Measured(f)
  {
    f.row.reps.value * f.row.weight.value
  }

  /** SUM(reps * weight) over facts that all have both. */
  function TotalOf(facts: seq<Fact>): int
    requires forall f :: f in facts ==> Measured(f)
  {
    if |facts| == 0 then 0 else Volume(facts[0]) + TotalOf(facts[1..])
  }

  /** MAX over a column; None for no rows. */
  function Largest(xs: seq<int>): (r: Option<int>)
    ensures r.None? <==> |xs| == 0
    ensures r.Some? ==> r.value in xs && forall x :: x in xs ==> x <= r.value
  {
    if |xs| == 0 then None
    else
      var rest := Largest(xs[1..]);
      assert forall x :: x in xs ==> x == xs[0] || x in xs[1..];
      if rest.Some? && rest.value > xs[0] then rest else Some(xs[0])
  }

  // ----- the date range ----------------------------------------------------------------

  /**
   * The window the controller filters on: a supplied start date from its first
   * second, otherwise the day 90 days before today; a supplied end date to its last
   * second, otherwise the end of today.  Only reached once the request validated.
   */
  function StatsRange(start: DateParam, end: DateParam, now: Instant): (r: Range)
    requires StatsFilterErrors(start, end) == {}
    ensures r.start == StartOfDay(if start.OnDay? then start.day else Day(now) - 90)
    ensures r.end == EndOfDay(if end.OnDay? then end.day else Day(now))
  {
    var first := if start.OnDay? then start.day else Day(now - 90 * SecondsPerDay);
    var last := if end.OnDay? then end.day else Day(now);
    Range(StartOfDay(first), EndOfDay(last))
  }

  /** The window holds exactly the instants on the days from the first to the last, both included. */
  lemma WindowIsWholeDays(first: int, last: int, t: Instant)
    ensures StartOfDay(first) <= t <= EndOfDay(last) <==> first <= Day(t) <= last
  {
    var d := Day(t);
    assert d * SecondsPerDay <= t < d * SecondsPerDay + SecondsPerDay;
    if first <= d {
      assert first * SecondsPerDay <= d * SecondsPerDay;
    } else {
      assert (first - 1) * SecondsPerDay >= d * SecondsPerDay;
    }
    if d <= last {
      assert d * SecondsPerDay <= last * SecondsPerDay;
    } else {
      assert last * SecondsPerDay + SecondsPerDay <= d * SecondsPerDay;
    }
  }

  /** The default window covers today and the 90 days before it, and so is never empty. */
  lemma DefaultWindow(now: Instant, t: Instant)
    ensures var r := StatsRange(Absent, Absent, now);
            r.start <= now <= r.end &&
            (r.start <= t <= r.end <==> Day(now) - 90 <= Day(t) <= Day(now))
  {
    WindowIsWholeDays(Day(now) - 90, Day(now), now);
    WindowIsWholeDays(Day(now) - 90, Day(now), t);
  }

  /** When both dates are supplied, validation has made the window non-empty. */
  lemma SuppliedWindowIsNonEmpty(start: DateParam, end: DateParam, now: Instant)
    requires start.OnDay? && end.OnDay?
    requires StatsFilterErrors(start, end) == {}
    ensures var r := StatsRange(start, end, now); r.start <= r.end
  {
    DatesCompareByInstant(start, end);
  }

  // ----- grouping ---------------------------------------------------------------------

  /** GROUP BY date, or GROUP BY session (whose name and date are then fixed). */
  datatype Grouping = ByDate | BySession

  /** ORDER BY date; sessions of the same day are taken in id order. */
  datatype Key = Key(date: int, tie: int)

  function KeyOf(g: Grouping, f: Fact): Key
  {
    match g
    case ByDate => Key(Day(f.session.startedAt), 0)
    case BySession => Key(Day(f.session.startedAt), f.sessionId)
  }

  predicate Less(a: Key, b: Key)
  {
    a.date < b.date || (a.date == b.date && a.tie < b.tie)
  }

  /** One representative per group, in strictly ascending key order. */
  ghost predicate Increasing(g: Grouping, q: seq<Fact>)
  {
    forall i, j :: 0 <= i < j < |q| ==> Less(KeyOf(g, q[i]), KeyOf(g, q[j]))
  }

  ghost predicate Represented(g: Grouping, q: seq<Fact>, f: Fact)
  {
    exists x :: x in q && KeyOf(g, x) == KeyOf(g, f)
  }

  /** Adds `f`'s group to the sorted representatives, unless it is already there. */
  function Insert(g: Grouping, f: Fact, q: seq<Fact>): (r: seq<Fact>)
    requires Increasing(g, q)
    ensures Increasing(g, r)
    ensures forall x :: x in r ==> x in q || x == f
    ensures forall x :: x in q ==> x in r
    ensures Represented(g, r, f)
  {
    if |q| == 0 then
      assert f in [f];
      [f]
    else if KeyOf(g, f) == KeyOf(g, q[0]) then
      assert q[0] in q;
      q
    else if Less(KeyOf(g, f), KeyOf(g, q[0])) then
      assert f in [f] + q;
      [f] + q
    else
      var tail := Insert(g, f, q[1..]);
      assert forall x :: x in q[1..] ==> Less(KeyOf(g, q[0]), KeyOf(g, x));
      assert forall x :: x in tail ==> x in [q[0]] + tail;
      [q[0]] + tail
  }

  /** The groups of some facts, one representative fact each, sorted by key. */
  function Groups(g: Grouping, facts: seq<Fact>): (q: seq<Fact>)
    ensures Increasing(g, q)
    ensures forall x :: x in q ==> x in facts
  {
    if |facts| == 0 then [] else Insert(g, facts[0], Groups(g, facts[1..]))
  }

  /** Every fact's group is among the groups. */
  lemma {:induction false} GroupsRepresent(g: Grouping, facts: seq<Fact>, f: Fact)
    requires f in facts
    ensures Represented(g, Groups(g, facts), f)
  {
    var rest := Groups(g, facts[1..]);
    if f != facts[0] {
      GroupsRepresent(g, facts[1..], f);
      var x :| x in rest && KeyOf(g, x) == KeyOf(g, f);
      assert x in Groups(g, facts);
    }
  }

  /** The position of `f`'s group among the groups. */
  lemma GroupOf(g: Grouping, facts: seq<Fact>, f: Fact) returns (i: nat)
    requires f in facts
    ensures i < |Groups(g, facts)| && KeyOf(g, Groups(g, facts)[i]) == KeyOf(g, f)
  {
    GroupsRepresent(g, facts, f);
    var q := Groups(g, facts);
    var x :| x in q && KeyOf(g, x) == KeyOf(g, f);
    i :| i < |q| && q[i] == x;
  }

  // ----- max weight by date -------------------------------------------------------------

  datatype DayMax = DayMax(date: int, maxWeight: int)

  /** The weights of the facts started on day `d`. */
  function WeightsOn(facts: seq<Fact>, d: int): (r: seq<int>)
    requires forall f :: f in facts ==> f.row.weight.Some?
    ensures forall f :: f in facts && Day(f.session.startedAt) == d ==> f.row.weight.value in r
    ensures forall w :: w in r ==> exists f :: f in facts && Day(f.session.startedAt) == d && w == f.row.weight.value
  {
    if |facts| == 0 then []
    else
      var rest := WeightsOn(facts[1..], d);
      assert forall f :: f in facts ==> f == facts[0] || f in facts[1..];
      (if Day(facts[0].session.startedAt) == d then [facts[0].row.weight.value] else []) + rest
  }

  /** The row of the day `x` was done on: that day's heaviest weight. */
  function DayRow(pts: seq<Fact>, x: Fact): (r: DayMax)
    requires x in pts && forall f :: f in pts ==> f.row.weight.Some?
    ensures r.date == Day(x.session.startedAt)
  {
    var ws := WeightsOn(pts, Day(x.session.startedAt));
    assert x.row.weight.value in ws;
    DayMax(Day(x.session.startedAt), Largest(ws).value)
  }

  /** The facts the max-weight query keeps: completed sets with a weight, in the window. */
  function Weighed(facts: seq<Fact>, range: Range): (r: seq<Fact>)
    ensures forall f :: f in r <==> f in facts && Holds(WithWeight, f) && Within(Some(range), f)
    ensures forall f :: f in r ==> f.row.weight.Some?
  {
    Select(facts, Some(range), WithWeight)
  }

  /**
   * getMaxWeightByDate: one row per calendar date of a kept set's session start,
   * with that day's heaviest weight, in ascending date order.
   */
  function MaxWeightByDate(facts: seq<Fact>, range: Range): (r: seq<DayMax>)
    ensures forall i, j :: 0 <= i < j < |r| ==> r[i].date < r[j].date
  {
    var pts := Weighed(facts, range);
    var q := Groups(ByDate, pts);
    seq(|q|, i requires 0 <= i < |q| => DayRow(pts, q[i]))
  }

  /** Every day on which a kept set was done is listed. */
  lemma DateListed(facts: seq<Fact>, range: Range, f: Fact) returns (i: nat)
    requires f in Weighed(facts, range)
    ensures i < |MaxWeightByDate(facts, range)| && MaxWeightByDate(facts, range)[i].date == Day(f.session.startedAt)
  {
    i := GroupOf(ByDate, Weighed(facts, range), f);
  }

  /** A listed day's value is the weight of one of that day's kept sets, and no kept set of that day is heavier. */
  lemma DayMaxIsLargest(facts: seq<Fact>, range: Range, i: nat)
    requires i < |MaxWeightByDate(facts, range)|
    ensures var d := MaxWeightByDate(facts, range)[i];
            && (exists f :: f in Weighed(facts, range) && Day(f.session.startedAt) == d.date
                            && f.row.weight == Some(d.maxWeight))
            && forall f :: (f in Weighed(facts, range) && Day(f.session.startedAt) == d.date)
                             ==> f.row.weight.value <= d.maxWeight
  {
    var pts := Weighed(facts, range);
    var q := Groups(ByDate, pts);
    var d := MaxWeightByDate(facts, range)[i];
    assert d == DayRow(pts, q[i]);
    var ws := WeightsOn(pts, d.date);
    assert q[i].row.weight.value in ws;
    assert d.maxWeight == Largest(ws).value;
  }

  // ----- volume per session ------------------------------------------------------------

  datatype SessionVolume = SessionVolume(sessionId: Id, sessionName: Option<string>, date: int, totalVolume: int)

  /** The facts of one session. */
  function OfSession(facts: seq<Fact>, id: Id): (r: seq<Fact>)
    ensures forall f :: f in r <==> f in facts && f.sessionId == id
  {
    if |facts| == 0 then []
    else (if facts[0].sessionId == id then [facts[0]] else []) + OfSession(facts[1..], id)
  }

  /** The facts the volume queries keep: completed sets with reps and weight, in the window. */
  function Lifted(facts: seq<Fact>, range: Range): (r: seq<Fact>)
    ensures forall f :: f in r <==> f in facts && Holds(WithVolume, f) && Within(Some(range), f)
    ensures forall f :: f in r ==> Measured(f)
  {
    Select(facts, Some(range), WithVolume)
  }

  /** The row of `x`'s session: its id, name and date and the volume of its kept sets. */
  function SessionRow(pts: seq<Fact>, x: Fact): (r: SessionVolume)
    requires forall f :: f in pts ==> Measured(f)
    ensures r.sessionId == x.sessionId && r.date == Day(x.session.startedAt)
  {
    SessionVolume(x.sessionId, x.session.name, Day(x.session.startedAt), TotalOf(OfSession(pts, x.sessionId)))
  }

  /**
   * getVolumePerSession: one row per session with a kept set, with the sum of
   * reps * weight over its kept sets, ordered by date.
   */
  function VolumePerSession(facts: seq<Fact>, range: Range): (r: seq<SessionVolume>)
    ensures forall i, j :: 0 <= i < j < |r| ==> r[i].date <= r[j].date
  {
    var pts := Lifted(facts, range);
    var q := Groups(BySession, pts);
    seq(|q|, i requires 0 <= i < |q| => SessionRow(pts, q[i]))
  }

  /** Every session with a kept set is listed. */
  lemma SessionListed(facts: seq<Fact>, range: Range, f: Fact) returns (i: nat)
    requires f in Lifted(facts, range)
    ensures i < |VolumePerSession(facts, range)| && VolumePerSession(facts, range)[i].sessionId == f.sessionId
  {
    i := GroupOf(BySession, Lifted(facts, range), f);
  }

  /**
   * Given facts from the join, a listed session is listed once, with its own name
   * and date, the volume of its kept sets, and at least one kept set.
   */
  lemma SessionRowMeaning(facts: seq<Fact>, sessions: map<Id, TrainingSession>, range: Range, i: nat)
    requires Consistent(facts, sessions)
    requires i < |VolumePerSession(facts, range)|
    ensures var r := VolumePerSession(facts, range);
            && r[i].sessionId in sessions
            && r[i].sessionName == sessions[r[i].sessionId].name
            && r[i].date == Day(sessions[r[i].sessionId].startedAt)
            && r[i].totalVolume == TotalOf(OfSession(Lifted(facts, range), r[i].sessionId))
            && (exists f :: f in Lifted(facts, range) && f.sessionId == r[i].sessionId)
            && forall j :: 0 <= j < |r| && j != i ==> r[j].sessionId != r[i].sessionId
  {
    var r := VolumePerSession(facts, range);
    var pts := Lifted(facts, range);
    var q := Groups(BySession, pts);
    assert r[i] == SessionRow(pts, q[i]) && q[i] in pts;
    forall j | 0 <= j < |r| && j != i
      ensures r[j].sessionId != r[i].sessionId
    {
      assert r[j] == SessionRow(pts, q[j]) && q[j] in pts;
      if j < i {
        assert Less(KeyOf(BySession, q[j]), KeyOf(BySession, q[i]));
      } else {
        assert Less(KeyOf(BySession, q[i]), KeyOf(BySession, q[j]));
      }
    }
  }

  /** total_volume: SUM(reps * weight) over the kept sets; 0 when there are none. */
  function TotalVolume(facts: seq<Fact>, range: Range): int
  {
    TotalOf(Lifted(facts, range))
  }

  /** The sum of the volumes of a listing. */
  function SumOfVolumes(r: seq<SessionVolume>): int
  {
    if |r| == 0 then 0 else r[0].totalVolume + SumOfVolumes(r[1..])
  }

  /** The per-session volumes of a list of session ids. */
  function VolumesOf(facts: seq<Fact>, ids: seq<Id>): int
    requires forall f :: f in facts ==> Measured(f)
  {
    if |ids| == 0 then 0 else TotalOf(OfSession(facts, ids[0])) + VolumesOf(facts, ids[1..])
  }

  lemma OfSessionFirst(facts: seq<Fact>, id: Id)
    requires |facts| > 0 && forall f :: f in facts ==> Measured(f)
    ensures TotalOf(OfSession(facts, id)) ==
            TotalOf(OfSession(facts[1..], id)) + (if facts[0].sessionId == id then Volume(facts[0]) else 0)
  {
    var rest := OfSession(facts[1..], id);
    if facts[0].sessionId == id {
      assert OfSession(facts, id) == [facts[0]] + rest;
      assert ([facts[0]] + rest)[1..] == rest;
    } else {
      assert OfSession(facts, id) == rest;
    }
  }

  /** Splitting the first fact off the per-session sums of distinct ids. */
  lemma {:induction false} VolumesOfFirst(facts: seq<Fact>, ids: seq<Id>)
    requires |facts| > 0 && forall f :: f in facts ==> Measured(f)
    requires forall i, j :: 0 <= i < j < |ids| ==> ids[i] != ids[j]
    ensures VolumesOf(facts, ids) ==
            VolumesOf(facts[1..], ids) + (if facts[0].sessionId in ids then Volume(facts[0]) else 0)
  {
    if |ids| > 0 {
      VolumesOfFirst(facts, ids[1..]);
      OfSessionFirst(facts, ids[0]);
      assert facts[0].sessionId in ids <==> facts[0].sessionId == ids[0] || facts[0].sessionId in ids[1..];
      if facts[0].sessionId == ids[0] {
        assert facts[0].sessionId !in ids[1..];
      }
    }
  }

  lemma {:induction false} VolumesOfNothing(ids: seq<Id>)
    ensures VolumesOf([], ids) == 0
  {
    if |ids| > 0 {
      VolumesOfNothing(ids[1..]);
    }
  }

  /** Summing per session over distinct ids that cover every fact's session gives the total. */
  lemma {:induction false} VolumesOfCoveringIds(facts: seq<Fact>, ids: seq<Id>)
    requires forall f :: f in facts ==> Measured(f)
    requires forall i, j :: 0 <= i < j < |ids| ==> ids[i] != ids[j]
    requires forall f :: f in facts ==> f.sessionId in ids
    ensures VolumesOf(facts, ids) == TotalOf(facts)
  {
    if |facts| == 0 {
      VolumesOfNothing(ids);
    } else {
      VolumesOfFirst(facts, ids);
      assert forall f :: f in facts[1..] ==> f in facts;
      VolumesOfCoveringIds(facts[1..], ids);
    }
  }

  /** The session ids of a listing. */
  function IdsOf(r: seq<SessionVolume>): (ids: seq<Id>)
    ensures |ids| == |r| && forall i :: 0 <= i < |r| ==> ids[i] == r[i].sessionId
  {
    if |r| == 0 then [] else [r[0].sessionId] + IdsOf(r[1..])
  }

  /** A listing whose rows carry their sessions' volumes sums to the per-session volumes of its ids. */
  lemma {:induction false} SumOfVolumesIsVolumesOf(facts: seq<Fact>, r: seq<SessionVolume>)
    requires forall f :: f in facts ==> Measured(f)
    requires forall i :: 0 <= i < |r| ==> r[i].totalVolume == TotalOf(OfSession(facts, r[i].sessionId))
    ensures SumOfVolumes(r) == VolumesOf(facts, IdsOf(r))
  {
    if |r| > 0 {
      SumOfVolumesIsVolumesOf(facts, r[1..]);
    }
  }

  /** The per-session volumes add up to the summary's total volume. */
  lemma VolumesAddUp(facts: seq<Fact>, sessions: map<Id, TrainingSession>, range: Range)
    requires Consistent(facts, sessions)
    ensures SumOfVolumes(VolumePerSession(facts, range)) == TotalVolume(facts, range)
  {
    var r := VolumePerSession(facts, range);
    var pts := Lifted(facts, range);
    var ids := IdsOf(r);
    forall i | 0 <= i < |r|
      ensures r[i].totalVolume == TotalOf(OfSession(pts, r[i].sessionId))
      ensures forall j :: 0 <= j < |r| && j != i ==> ids[j] != ids[i]
    {
      SessionRowMeaning(facts, sessions, range, i);
    }
    SumOfVolumesIsVolumesOf(pts, r);
    forall f | f in pts
      ensures f.sessionId in ids
    {
      var i := SessionListed(facts, range, f);
      assert ids[i] == f.sessionId;
    }
    VolumesOfCoveringIds(pts, ids);
  }

  // ----- average rest ------------------------------------------------------------------

  /** The rest column of facts that all have one. */
  function Rests(facts: seq<Fact>): (r: seq<int>)
    requires forall f :: f in facts ==> f.row.restSecondsActual.Some?
    ensures |r| == |facts|
    ensures forall i :: 0 <= i < |r| ==> r[i] == facts[i].row.restSecondsActual.value
  {
    seq(|facts|, i requires 0 <= i < |facts| => facts[i].row.restSecondsActual.value)
  }

  function Sum(xs: seq<int>): int
  {
    if |xs| == 0 then 0 else xs[0] + Sum(xs[1..])
  }

  function FloorDivision(a: int, b: int): (q: int)
    requires a >= 0 && b > 0
    ensures q * b <= a < q * b + b
  {
    a / b
  }

  /** PHP's round() of s / n to a whole number: to the nearest integer, halves away from zero. */
  function RoundedQuotient(s: int, n: int): (r: int)
    requires n > 0
    ensures s >= 0 ==> 2 * n * r - n <= 2 * s < 2 * n * r + n
    ensures s < 0 ==> 2 * n * r - n < 2 * s <= 2 * n * r + n
  {
    if s >= 0 then FloorDivision(2 * s + n, 2 * n) else -FloorDivision(-2 * s + n, 2 * n)
  }

  /** The rests the average covers: every set in the window that has one, completed or not. */
  function RestsIn(facts: seq<Fact>, range: Range): (r: seq<int>)
    ensures forall x :: x in r <==> exists f :: f in facts && Within(Some(range), f)
                                             && f.row.restSecondsActual == Some(x)
    ensures var pts := Select(facts, Some(range), WithRest);
            |r| == |pts| && forall i :: 0 <= i < |r| ==> Some(r[i]) == pts[i].row.restSecondsActual
  {
    var pts := Select(facts, Some(range), WithRest);
    var rs := Rests(pts);
    assert forall f :: f in pts ==> exists i :: 0 <= i < |pts| && pts[i] == f && rs[i] == f.row.restSecondsActual.value;
    rs
  }

  /**
   * getAverageRestTime: AVG of the covered rests rounded to a whole number; null when
   * there is none and also when the average is 0, which PHP reads as false.
   */
  function AverageRest(facts: seq<Fact>, range: Range): (r: Option<int>)
    ensures var rests := RestsIn(facts, range);
            && (r.None? <==> |rests| == 0 || Sum(rests) == 0)
            && (r.Some? ==> var n := |rests|; var s := Sum(rests);
                  if s >= 0 then 2 * n * r.value - n <= 2 * s < 2 * n * r.value + n
                  else 2 * n * r.value - n < 2 * s <= 2 * n * r.value + n)
  {
    var rests := RestsIn(facts, range);
    if |rests| == 0 || Sum(rests) == 0 then None
    else Some(RoundedQuotient(Sum(rests), |rests|))
  }

  // ----- personal records ------------------------------------------------------------------

  datatype VolumeRecord = VolumeRecord(reps: int, weight: int, volume: int)

  /** The first fact of largest volume, among facts that all have one. */
  function Heaviest(facts: seq<Fact>): (r: Option<Fact>)
    requires forall f :: f in facts ==> Measured(f)
    ensures r.None? <==> |facts| == 0
    ensures r.Some? ==> r.value in facts && forall f :: f in facts ==> Volume(f) <= Volume(r.value)
  {
    if |facts| == 0 then None
    else
      var rest := Heaviest(facts[1..]);
      assert forall f :: f in facts ==> f == facts[0] || f in facts[1..];
      if rest.Some? && Volume(rest.value) > Volume(facts[0]) then rest else Some(facts[0])
  }

  /**
   * The max-volume record, over all time: the completed set with both reps and
   * weight whose reps * weight is largest, or null when there is none.
   */
  function MaxVolumeRecord(facts: seq<Fact>): (r: Option<VolumeRecord>)
    ensures r.None? <==> forall f :: f in facts ==> !Holds(WithVolume, f)
    ensures r.Some? ==>
              && r.value.volume == r.value.reps * r.value.weight
              && (exists f :: f in facts && Holds(WithVolume, f)
                              && f.row.reps == Some(r.value.reps) && f.row.weight == Some(r.value.weight))
              && forall f :: f in facts && Holds(WithVolume, f) ==> Volume(f) <= r.value.volume
  {
    var pts := Select(facts, None, WithVolume);
    match Heaviest(pts)
    case None => None
    case Some(f) => Some(VolumeRecord(f.row.reps.value, f.row.weight.value, Volume(f)))
  }

  /** The weight column (hundredths) of facts that all have one. */
  function Weights(facts: seq<Fact>): (r: seq<int>)
    requires forall f :: f in facts ==> f.row.weight.Some?
    ensures forall x :: x in r <==> exists f :: f in facts && f.row.weight == Some(x)
  {
    var ws := seq(|facts|, i requires 0 <= i < |facts| => facts[i].row.weight.value);
    assert forall f :: f in facts ==> exists i :: 0 <= i < |facts| && facts[i] == f && ws[i] == f.row.weight.value;
    ws
  }

  /** The reps column of facts that all have one. */
  function RepsColumn(facts: seq<Fact>): (r: seq<int>)
    requires forall f :: f in facts ==> f.row.reps.Some?
    ensures forall x :: x in r <==> exists f :: f in facts && f.row.reps == Some(x)
  {
    var rs := seq(|facts|, i requires 0 <= i < |facts| => facts[i].row.reps.value);
    assert forall f :: f in facts ==> exists i :: 0 <= i < |facts| && facts[i] == f && rs[i] == f.row.reps.value;
    rs
  }

  /** The value of the max-weight record: MAX(weight) over completed sets, all time. */
  function MaxWeightEver(facts: seq<Fact>): (r: Option<int>)
    ensures r.None? <==> forall f :: f in facts ==> !Holds(WithWeight, f)
    ensures r.Some? ==> (exists f :: f in facts && Holds(WithWeight, f) && f.row.weight == r)
                        && forall f :: f in facts && Holds(WithWeight, f) ==> f.row.weight.value <= r.value
  {
    var pts := Select(facts, None, WithWeight);
    var ws := Weights(pts);
    assert forall f :: f in pts ==> f.row.weight.value in ws;
    Largest(ws)
  }

  /** The value of the max-reps record: MAX(reps) over completed sets, all time. */
  function MaxRepsEver(facts: seq<Fact>): (r: Option<int>)
    ensures r.None? <==> forall f :: f in facts ==> !Holds(WithReps, f)
    ensures r.Some? ==> (exists f :: f in facts && Holds(WithReps, f) && f.row.reps == r)
                        && forall f :: f in facts && Holds(WithReps, f) ==> f.row.reps.value <= r.value
  {
    var pts := Select(facts, None, WithReps);
    var rs := RepsColumn(pts);
    assert forall f :: f in pts ==> f.row.reps.value in rs;
    Largest(rs)
  }

  // ----- summary ---------------------------------------------------------------------------

  /** A session counted by total_sessions: the user's, completed, started in the window, with a slot of this exercise. */
  predicate Counted(id: Id, slots: map<Id, SessionExercise>, sessions: map<Id, TrainingSession>,
                    exercise: Id, user: Id, range: Range)
    requires id in sessions
  {
    && sessions[id].userId == user
    && sessions[id].completedAt.Some?
    && range.start <= sessions[id].startedAt <= range.end
    && exists s :: s in slots && slots[s].sessionId == id && slots[s].exerciseId == exercise
  }

  /** total_sessions: the number of distinct sessions counted, taken from the session-exercise join alone. */
  function TotalSessions(slots: map<Id, SessionExercise>, sessions: map<Id, TrainingSession>,
                         exercise: Id, user: Id, range: Range): (n: nat)
    ensures n <= |sessions|
  {
    var counted := set id | id in sessions && Counted(id, slots, sessions, exercise, user, range);
    SubsetSize(counted, sessions.Keys);
    |counted|
  }

  /** total_sets: completed sets in the window, whatever they measured. */
  function TotalSets(facts: seq<Fact>, range: Range): (n: nat)
    ensures n <= |facts|
  {
    |Select(facts, Some(range), Completed)|
  }

  // ----- the action ----------------------------------------------------------------------

  /** The field a date-filter failure is reported under. */
  function FilterField(e: FilterError): string
  {
    match e
    case StartNotDate => "start_date"
    case EndNotDate => "end_date"
    case EndBeforeStart => "end_date"
  }

  function FilterFields(errors: set<FilterError>): (r: set<string>)
    ensures r == {} <==> errors == {}
  {
    var r := set e | e in errors :: FilterField(e);
    assert forall e :: e in errors ==> FilterField(e) in r;
    r
  }

  datatype PersonalRecords = PersonalRecords(maxWeight: Option<int>, maxReps: Option<int>,
                                             maxVolume: Option<VolumeRecord>)

  datatype Summary = Summary(totalSessions: nat, totalSets: nat, totalVolume: int)

  /** The page's data; `startDay` and `endDay` are the filter dates shown back. */
  datatype StatsView = StatsView(
    startDay: int, endDay: int,
    maxWeightData: seq<DayMax>,
    volumeData: seq<SessionVolume>,
    avgRestTime: Option<int>,
    records: PersonalRecords,
    summary: Summary)

  lemma DayOfBounds(d: int)
    ensures Day(StartOfDay(d)) == d && Day(EndOfDay(d)) == d
  {
    WindowIsWholeDays(d, d, StartOfDay(d));
    WindowIsWholeDays(d, d, EndOfDay(d));
  }

  /**
   * ExerciseStatsController::show.  The exercise binding answers 404 when it does not
   * resolve; the StatsFilterRequest answers 422 before the action runs; the view
   * policy answers 403 unless the requester owns the exercise.  Otherwise every query
   * runs over the same joined rows, in the window the request picks; the records
   * ignore the window.
   */
  function ShowStats(exercises: map<Id, Exercise>, rows: seq<SessionSet>, slots: map<Id, SessionExercise>,
                     sessions: map<Id, TrainingSession>, user: Id, exercise: Id,
                     start: DateParam, end: DateParam, now: Instant): (r: Result<StatsView>)
    ensures exercise !in exercises ==> r == Failure(NotFound)
    ensures exercise in exercises && StatsFilterErrors(start, end) != {} ==>
              r.Failure? && r.error.Invalid? && r.error.fields != {}
    ensures r.Success? <==>
              exercise in exercises && StatsFilterErrors(start, end) == {} && exercises[exercise].userId == user
    ensures r.Failure? && exercise in exercises && StatsFilterErrors(start, end) == {} ==> r.error == Forbidden
    ensures r.Success? ==>
              && r.value.startDay == (if start.OnDay? then start.day else Day(now) - 90)
              && r.value.endDay == (if end.OnDay? then end.day else Day(now))
              && var facts := Joined(rows, slots, sessions, exercise, user);
                 var range := StatsRange(start, end, now);
                 && r.value.maxWeightData == MaxWeightByDate(facts, range)
                 && r.value.volumeData == VolumePerSession(facts, range)
                 && SumOfVolumes(r.value.volumeData) == r.value.summary.totalVolume
                 && r.value.avgRestTime == AverageRest(facts, range)
                 && r.value.records == PersonalRecords(MaxWeightEver(facts), MaxRepsEver(facts), MaxVolumeRecord(facts))
                 && r.value.summary == Summary(TotalSessions(slots, sessions, exercise, user, range),
                                               TotalSets(facts, range), TotalVolume(facts, range))
  {
    if exercise !in exercises then Failure(NotFound)
    else if StatsFilterErrors(start, end) != {} then Failure(Invalid(FilterFields(StatsFilterErrors(start, end))))
    else if exercises[exercise].userId != user then Failure(Forbidden)
    else
      var facts := Joined(rows, slots, sessions, exercise, user);
      var range := StatsRange(start, end, now);
      DayOfBounds(if start.OnDay? then start.day else Day(now) - 90);
      DayOfBounds(if end.OnDay? then end.day else Day(now));
      VolumesAddUp(facts, sessions, range);
      Success(StatsView(
        Day(range.start), Day(range.end),
        MaxWeightByDate(facts, range),
        VolumePerSession(facts, range),
        AverageRest(facts, range),
        PersonalRecords(MaxWeightEver(facts), MaxRepsEver(facts), MaxVolumeRecord(facts)),
        Summary(TotalSessions(slots, sessions, exercise, user, range), TotalSets(facts, range), TotalVolume(facts, range))))
  }
}
