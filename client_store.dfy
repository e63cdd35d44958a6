/**
 * useSessionStore: the browser's copy of one session as a tree, session ->
 * exercises -> sets, kept in step with the server's answers to the set requests.
 *
 * Each request is one atomic step here: the server's reply is a parameter (an
 * answer carrying its data, or a refusal carrying the error body's message), and
 * the local tree is then changed the way the composable changes it.
 */
module ClientStore {
  import opened Wrappers
  import opened Models

  /** A set as the server serialises it. */
  datatype ClientSet = ClientSet(id: Id, row: SessionSet)

  /** A session-exercise with its sets, in the order the server sent them. */
  datatype ClientExercise = ClientExercise(id: Id, exerciseId: Id, orderIndex: int, sets: seq<ClientSet>)

  /** The session; `exercises` may be missing from the page's data. */
  datatype ClientSession = ClientSession(id: Id, exercises: Option<seq<ClientExercise>>, isCompleted: bool,
                                         startedAt: Instant)

  /** What the server answered. */
  datatype Reply<T> = Answer(data: T) | Refusal(message: Option<string>)

  /** `err.response?.data?.message || fallback`: an empty or missing message gives the fallback. */
  function ErrorText(message: Option<string>, fallback: string): (r: string)
    ensures r == fallback || message == Some(r)
    ensures r == "" ==> fallback == ""
    ensures message.Some? && message.value != "" ==> r == message.value
  {
    if message.Some? && message.value != "" then message.value else fallback
  }

  // ----- reading the tree ----------------------------------------------------------------

  /** The `exercises` computed: the session's exercises, or none when the key is missing. */
  function Exercises(s: ClientSession): (r: seq<ClientExercise>)
    ensures s.exercises.None? ==> r == []
    ensures s.exercises.Some? ==> r == s.exercises.value
  {
    GetOr(s.exercises, [])
  }

  /** getExerciseByIndex: the exercise at that position, or null outside the list. */
  function ExerciseAt(s: ClientSession, index: int): (r: Option<ClientExercise>)
    ensures r.Some? <==> 0 <= index < |Exercises(s)|
    ensures r.Some? ==> r.value == Exercises(s)[index]
  {
    var exs := Exercises(s);
    if 0 <= index < |exs| then Some(exs[index]) else None
  }

  /** The id an exercise or a set is found by. */
  function ExerciseKey(e: ClientExercise): Id { e.id }
  function SetKey(s: ClientSet): Id { s.id }

  /** The position of the first element whose key is `id`, as findIndex finds it. */
  function First<T>(xs: seq<T>, key: T -> Id, id: Id): (r: Option<nat>)
    ensures r.None? <==> forall j :: 0 <= j < |xs| ==> key(xs[j]) != id
    ensures r.Some? ==> r.value < |xs| && key(xs[r.value]) == id
                        && forall j :: 0 <= j < r.value ==> key(xs[j]) != id
  {
    if |xs| == 0 then None
    else if key(xs[0]) == id then Some(0)
    else match First(xs[1..], key, id)
      case None => None
      case Some(k) => Some(k + 1)
  }

  /** Array.findIndex by id, over the exercises or over one exercise's sets; -1 when none matches. */
  method Find<T>(xs: seq<T>, key: T -> Id, id: Id) returns (index: int)
    ensures index == -1 <==> First(xs, key, id).None?
    ensures index != -1 ==> First(xs, key, id) == Some(index)
  {
    index := 0;
    while index < |xs|
      invariant 0 <= index <= |xs|
      invariant forall j :: 0 <= j < index ==> key(xs[j]) != id
    {
      if key(xs[index]) == id {
        return;
      }
      index := index + 1;
    }
    index := -1;
  }

  /**
   * updateSet's scan: exercise by exercise, the first one whose sets hold this id
   * has that set replaced, and the scan stops there.
   */
  method ReplaceFirst(exs: seq<ClientExercise>, setId: Id, s: ClientSet) returns (updated: seq<ClientExercise>)
    ensures updated == Replaced(exs, setId, s)
  {
    var k := 0;
    while k < |exs|
      invariant 0 <= k <= |exs|
      invariant forall j :: 0 <= j < k ==> First(exs[j].sets, SetKey, setId).None?
    {
      var at := Find(exs[k].sets, SetKey, setId);
      if at != -1 {
        ReplacedAt(exs, setId, s, k);
        updated := exs[k := exs[k].(sets := exs[k].sets[at := s])];
        return;
      }
      k := k + 1;
    }
    ReplacedNowhere(exs, setId, s);
    updated := exs;
  }

  // ----- the local effects, as functions of the tree ----------------------------------------

  /** addSet's effect: the new set goes at the end of the first matching exercise's sets. */
  function Appended(exs: seq<ClientExercise>, slot: Id, s: ClientSet): (r: seq<ClientExercise>)
    ensures |r| == |exs|
    ensures First(exs, ExerciseKey, slot).None? ==> r == exs
    ensures First(exs, ExerciseKey, slot).Some? ==>
              var i := First(exs, ExerciseKey, slot).value;
              r[i] == exs[i].(sets := exs[i].sets + [s]) &&
              forall j :: 0 <= j < |exs| && j != i ==> r[j] == exs[j]
  {
    match First(exs, ExerciseKey, slot)
    case None => exs
    case Some(i) => exs[i := exs[i].(sets := exs[i].sets + [s])]
  }

  /** The exercise with the first set of this id replaced; requires that it holds one. */
  function ReplaceIn(e: ClientExercise, setId: Id, s: ClientSet): ClientExercise
    requires First(e.sets, SetKey, setId).Some?
  {
    e.(sets := e.sets[First(e.sets, SetKey, setId).value := s])
  }

  /**
   * updateSet's effect: in the first exercise, in order, that holds a set with this
   * id, that set's first occurrence is replaced in place; nothing else changes.
   */
  function Replaced(exs: seq<ClientExercise>, setId: Id, s: ClientSet): (r: seq<ClientExercise>)
    ensures |r| == |exs|
    ensures forall j :: 0 <= j < |exs| ==>
              r[j].id == exs[j].id && |r[j].sets| == |exs[j].sets| && r[j] == exs[j].(sets := r[j].sets)
  {
    if |exs| == 0 then []
    else if First(exs[0].sets, SetKey, setId).Some? then [ReplaceIn(exs[0], setId, s)] + exs[1..]
    else [exs[0]] + Replaced(exs[1..], setId, s)
  }

  /** When no exercise before `k` holds the set and exercise `k` does, only exercise `k` changes. */
  lemma {:induction false} ReplacedAt(exs: seq<ClientExercise>, setId: Id, s: ClientSet, k: nat)
    requires k < |exs| && First(exs[k].sets, SetKey, setId).Some?
    requires forall j :: 0 <= j < k ==> First(exs[j].sets, SetKey, setId).None?
    ensures Replaced(exs, setId, s) == exs[k := ReplaceIn(exs[k], setId, s)]
  {
    var e := ReplaceIn(exs[k], setId, s);
    if k > 0 {
      ReplacedAt(exs[1..], setId, s, k - 1);
      assert [exs[0]] + exs[1..][k - 1 := e] == exs[k := e];
    } else {
      assert [e] + exs[1..] == exs[0 := e];
    }
  }

  /** When no exercise holds the set, nothing changes. */
  lemma {:induction false} ReplacedNowhere(exs: seq<ClientExercise>, setId: Id, s: ClientSet)
    requires forall j :: 0 <= j < |exs| ==> First(exs[j].sets, SetKey, setId).None?
    ensures Replaced(exs, setId, s) == exs
  {
    if |exs| > 0 {
      ReplacedNowhere(exs[1..], setId, s);
      assert [exs[0]] + exs[1..] == exs;
    }
  }

  /** deleteSet's effect: the first matching exercise's sets become the server's list. */
  function Relisted(exs: seq<ClientExercise>, slot: Id, sets: seq<ClientSet>): (r: seq<ClientExercise>)
    ensures |r| == |exs|
    ensures First(exs, ExerciseKey, slot).None? ==> r == exs
    ensures First(exs, ExerciseKey, slot).Some? ==>
              var i := First(exs, ExerciseKey, slot).value;
              r[i] == exs[i].(sets := sets) && forall j :: 0 <= j < |exs| && j != i ==> r[j] == exs[j]
  {
    match First(exs, ExerciseKey, slot)
    case None => exs
    case Some(i) => exs[i := exs[i].(sets := sets)]
  }

  // ----- getSessionStats counts -------------------------------------------------------------

  /** The sum of the set-list lengths. */
  function SetCount(exs: seq<ClientExercise>): nat
  {
    if |exs| == 0 then 0 else |exs[0].sets| + SetCount(exs[1..])
  }

  /** The number of exercises with at least one set. */
  function StartedCount(exs: seq<ClientExercise>): nat
  {
    if |exs| == 0 then 0 else (if |exs[0].sets| > 0 then 1 else 0) + StartedCount(exs[1..])
  }

  datatype SessionStats = SessionStats(totalExercises: nat, completedExercises: nat, totalSets: nat)

  /** getSessionStats without elapsedMinutes. */
  function Stats(s: ClientSession): (r: SessionStats)
    ensures r.completedExercises <= r.totalExercises && r.completedExercises <= r.totalSets
  {
    var exs := Exercises(s);
    CountsBounded(exs);
    SessionStats(|exs|, StartedCount(exs), SetCount(exs))
  }

  /** An exercise with sets has at least one, so it is counted no more than its sets are. */
  lemma {:induction false} CountsBounded(exs: seq<ClientExercise>)
    ensures StartedCount(exs) <= |exs| && StartedCount(exs) <= SetCount(exs)
  {
    if |exs| > 0 {
      CountsBounded(exs[1..]);
    }
  }

  /** Changing one exercise's sets changes the counts by that exercise's difference. */
  lemma {:induction false} CountsAfterChange(exs: seq<ClientExercise>, i: nat, e: ClientExercise)
    requires i < |exs|
    ensures SetCount(exs[i := e]) == SetCount(exs) - |exs[i].sets| + |e.sets|
    ensures StartedCount(exs[i := e]) ==
            StartedCount(exs) - (if |exs[i].sets| > 0 then 1 else 0) + (if |e.sets| > 0 then 1 else 0)
  {
    if i == 0 {
      assert exs[i := e][1..] == exs[1..];
    } else {
      CountsAfterChange(exs[1..], i - 1, e);
      assert exs[i := e][1..] == exs[1..][i - 1 := e];
    }
  }

  /** A set added to a listed exercise counts once more; the exercise now counts as started. */
  lemma AddCountsOneMore(exs: seq<ClientExercise>, slot: Id, s: ClientSet)
    requires First(exs, ExerciseKey, slot).Some?
    ensures SetCount(Appended(exs, slot, s)) == SetCount(exs) + 1
    ensures StartedCount(Appended(exs, slot, s)) ==
            StartedCount(exs) + (if exs[First(exs, ExerciseKey, slot).value].sets == [] then 1 else 0)
  {
    var i := First(exs, ExerciseKey, slot).value;
    CountsAfterChange(exs, i, exs[i].(sets := exs[i].sets + [s]));
  }

  /** Replacing a set leaves every count as it was. */
  lemma {:induction false} UpdateKeepsCounts(exs: seq<ClientExercise>, setId: Id, s: ClientSet)
    ensures SetCount(Replaced(exs, setId, s)) == SetCount(exs)
    ensures StartedCount(Replaced(exs, setId, s)) == StartedCount(exs)
  {
    if |exs| > 0 {
      var r := Replaced(exs, setId, s);
      assert r[1..] == exs[1..] || r[1..] == Replaced(exs[1..], setId, s);
      if r[1..] != exs[1..] {
        UpdateKeepsCounts(exs[1..], setId, s);
      }
    }
  }

  /** After a delete, a listed exercise's sets count as many as the server listed. */
  lemma DeleteRecounts(exs: seq<ClientExercise>, slot: Id, sets: seq<ClientSet>)
    requires First(exs, ExerciseKey, slot).Some?
    ensures SetCount(Relisted(exs, slot, sets)) ==
            SetCount(exs) - |exs[First(exs, ExerciseKey, slot).value].sets| + |sets|
  {
    var i := First(exs, ExerciseKey, slot).value;
    CountsAfterChange(exs, i, exs[i].(sets := sets));
  }

  // ----- the store ------------------------------------------------------------------------

  class SessionStore {
    var session: ClientSession
    var loading: bool
    var error: Option<string>

    constructor (initial: ClientSession)
      ensures session == initial && !loading && error == None
    {
      session := initial;
      loading := false;
      error := None;
    }

    /**
     * addSet.  On an answer the set is pushed onto the matching exercise; a missing
     * exercises list makes findIndex throw, which ends like a refusal with the
     * fallback message.
     */
    method AddSet(slot: Id, reply: Reply<ClientSet>) returns (ok: bool)
      modifies this
      ensures !loading
      ensures ok <==> reply.Answer? && old(session).exercises.Some?
      ensures ok ==> error == None &&
                     session == old(session).(exercises := Some(Appended(old(session).exercises.value, slot, reply.data)))
      ensures !ok ==> session == old(session) &&
                      error == Some(ErrorText(if reply.Refusal? then reply.message else None, "Failed to add set"))
    {
      loading := true;
      error := None;
      if reply.Refusal? || session.exercises.None? {
        error := Some(ErrorText(if reply.Refusal? then reply.message else None, "Failed to add set"));
        loading := false;
        return false;
      }
      var exs := session.exercises.value;
      var i := Find(exs, ExerciseKey, slot);
      if i != -1 {
        exs := exs[i := exs[i].(sets := exs[i].sets + [reply.data])];
      }
      session := session.(exercises := Some(exs));
      loading := false;
      ok := true;
    }

    /**
     * updateSet: the exercises are scanned in order; in the first one holding a set
     * with this id, that set is replaced by the server's copy and the scan stops.
     */
    method UpdateSet(setId: Id, reply: Reply<ClientSet>) returns (ok: bool)
      modifies this
      ensures !loading
      ensures ok <==> reply.Answer? && old(session).exercises.Some?
      ensures ok ==> error == None &&
                     session == old(session).(exercises := Some(Replaced(old(session).exercises.value, setId, reply.data)))
      ensures !ok ==> session == old(session) &&
                      error == Some(ErrorText(if reply.Refusal? then reply.message else None, "Failed to update set"))
    {
      loading := true;
      error := None;
      if reply.Refusal? || session.exercises.None? {
        error := Some(ErrorText(if reply.Refusal? then reply.message else None, "Failed to update set"));
        loading := false;
        return false;
      }
      var updated := ReplaceFirst(session.exercises.value, setId, reply.data);
      session := session.(exercises := Some(updated));
      loading := false;
      ok := true;
    }

    /** deleteSet: the matching exercise's sets are replaced by the list the server returns. */
    method DeleteSet(setId: Id, slot: Id, reply: Reply<seq<ClientSet>>) returns (ok: bool)
      modifies this
      ensures !loading
      ensures ok <==> reply.Answer? && old(session).exercises.Some?
      ensures ok ==> error == None &&
                     session == old(session).(exercises := Some(Relisted(old(session).exercises.value, slot, reply.data)))
      ensures !ok ==> session == old(session) &&
                      error == Some(ErrorText(if reply.Refusal? then reply.message else None, "Failed to delete set"))
    {
      loading := true;
      error := None;
      if reply.Refusal? || session.exercises.None? {
        error := Some(ErrorText(if reply.Refusal? then reply.message else None, "Failed to delete set"));
        loading := false;
        return false;
      }
      var exs := session.exercises.value;
      var i := Find(exs, ExerciseKey, slot);
      if i != -1 {
        exs := exs[i := exs[i].(sets := reply.data)];
      }
      session := session.(exercises := Some(exs));
      loading := false;
      ok := true;
    }

    /** refreshSession: the whole tree becomes the server's copy. */
    method RefreshSession(reply: Reply<ClientSession>) returns (ok: bool)
      modifies this
      ensures !loading
      ensures ok <==> reply.Answer?
      ensures ok ==> error == None && session == reply.data
      ensures !ok ==> session == old(session) && error == Some(ErrorText(reply.message, "Failed to refresh session"))
    {
      loading := true;
      error := None;
      match reply
      case Refusal(message) =>
        error := Some(ErrorText(message, "Failed to refresh session"));
        loading := false;
        ok := false;
      case Answer(data) =>
        session := data;
        loading := false;
        ok := true;
    }
  }
}
