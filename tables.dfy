/**
 * Facts about the small queries the controllers run against one table: the
 * MAX() of a column over a group of rows, ORDER BY a column, and what it means for
 * a group's index column to be a dense run.  A group is given by the map from the
 * ids of its rows to the column's value.
 */
module Tables {
  import opened Wrappers
  import opened Models

  /** The integers base, base+1, ..., base+n-1. */
  function Run(base: int, n: nat): (r: set<int>)
    ensures forall i :: i in r <==> base <= i < base + n
    ensures |r| == n
  {
    if n == 0 then {} else Run(base, n - 1) + {base + n - 1}
  }

  /** No two rows of the group share a value. */
  ghost predicate Injective(k: map<Id, int>)
  {
    forall a, b :: a in k && b in k && k[a] == k[b] ==> a == b
  }

  /**
   * The group's values are distinct and lie in base..base+n-1, n being the number
   * of rows.  PigeonHole shows this is the same as "the values are exactly that run".
   */
  ghost predicate Dense(k: map<Id, int>, base: int)
  {
    Injective(k) && forall id :: id in k ==> base <= k[id] < base + |k|
  }

  lemma {:induction false} InjectiveValuesSize(k: map<Id, int>)
    requires Injective(k)
    ensures |k.Values| == |k|
    decreases |k|
  {
    if |k| > 0 {
      var a :| a in k;
      var k' := map id | id in k && id != a :: k[id];
      assert k'.Keys == k.Keys - {a};
      assert k'.Values == k.Values - {k[a]} by {
        forall v | v in k.Values ensures v in k'.Values || v == k[a] {
          var id :| id in k && k[id] == v;
          if id != a { assert k'[id] == v; }
        }
      }
      InjectiveValuesSize(k');
    }
  }

  lemma {:induction false} SubsetSize<T>(a: set<T>, b: set<T>)
    requires a <= b
    ensures |a| <= |b|
  {
    assert b == a + (b - a);
  }

  /** A dense group holds every value of its run exactly once. */
  lemma PigeonHole(k: map<Id, int>, base: int)
    requires Dense(k, base)
    ensures k.Values == Run(base, |k|)
  {
    InjectiveValuesSize(k);
    var run := Run(base, |k|);
    forall v | v in run ensures v in k.Values {
      if v !in k.Values {
        assert k.Values <= run - {v};
        SubsetSize(k.Values, run - {v});
      }
    }
  }

  /** A dense group stays dense when a row numbered one past its run joins it. */
  lemma DenseAfterAdding(k: map<Id, int>, base: int, newId: Id)
    requires Dense(k, base) && newId !in k
    ensures Dense(k[newId := base + |k|], base)
  {
    assert |k[newId := base + |k|]| == |k| + 1;
  }

  /** A map with one key left out: a group, or a table after DELETE of one row. */
  function Without<V>(k: map<Id, V>, a: Id): (r: map<Id, V>)
    ensures r.Keys == k.Keys - {a}
    ensures forall id :: id in r ==> r[id] == k[id]
  {
    map id | id in k && id != a :: k[id]
  }

  /** The group with row `d` removed and every larger value moved down by one. */
  function CloseGap(k: map<Id, int>, d: Id): (r: map<Id, int>)
    requires d in k
    ensures r.Keys == k.Keys - {d}
    ensures forall id :: id in r ==> r[id] == if k[id] > k[d] then k[id] - 1 else k[id]
  {
    map id | id in k && id != d :: if k[id] > k[d] then k[id] - 1 else k[id]
  }

  /** Removing a row from a dense group and closing the gap leaves a dense group one smaller. */
  lemma DenseAfterClosingGap(k: map<Id, int>, base: int, d: Id)
    requires Dense(k, base) && d in k
    ensures Dense(CloseGap(k, d), base) && |CloseGap(k, d)| == |k| - 1
  {
    var r := CloseGap(k, d);
    assert r.Keys == k.Keys - {d};
    forall a, b | a in r && b in r && r[a] == r[b] ensures a == b {
      assert k[a] != k[d] && k[b] != k[d];
    }
    forall id | id in r ensures base <= r[id] < base + |r| {
      assert k[id] != k[d];
    }
  }

  /** MAX(column) over a group; SQL answers NULL when the group is empty. */
  ghost function MaxOf(k: map<Id, int>): (r: Option<int>)
    ensures r.None? <==> k == map[]
    ensures r.Some? ==> (exists id :: id in k && k[id] == r.value) && forall id :: id in k ==> k[id] <= r.value
    decreases k.Keys
  {
    if k == map[] then None
    else
      var a :| a in k;
      match MaxOf(Without(k, a))
      case None => Some(k[a])
      case Some(m) => Some(if k[a] > m then k[a] else m)
  }

  /** The value MaxOf picks is the only one that is both attained and an upper bound. */
  lemma MaxOfIsUnique(k: map<Id, int>, m: int)
    requires exists id :: id in k && k[id] == m
    requires forall id :: id in k ==> k[id] <= m
    ensures MaxOf(k) == Some(m)
  {
  }

  /** The maximum of a dense group is its last run value. */
  lemma DenseMax(k: map<Id, int>, base: int)
    requires Dense(k, base) && k != map[]
    ensures MaxOf(k) == Some(base + |k| - 1)
  {
    PigeonHole(k, base);
    assert base + |k| - 1 in k.Values;
    MaxOfIsUnique(k, base + |k| - 1);
  }

  /** The aggregate query `max(column)`, scanning the group's rows one at a time. */
  method MaxValue(k: map<Id, int>) returns (r: Option<int>)
    ensures r == MaxOf(k)
    ensures r.Some? ==> (exists id :: id in k && k[id] == r.value) && forall id :: id in k ==> k[id] <= r.value
  {
    r := None;
    var todo := k.Keys;
    while todo != {}
      invariant todo <= k.Keys
      invariant r.None? <==> todo == k.Keys
      invariant r.Some? ==> exists id :: id in k && id !in todo && k[id] == r.value
      invariant r.Some? ==> forall id :: id in k && id !in todo ==> k[id] <= r.value
      decreases |todo|
    {
      var id :| id in todo;
      if r.None? || k[id] > r.value {
        r := Some(k[id]);
      }
      todo := todo - {id};
    }
    if r.Some? {
      MaxOfIsUnique(k, r.value);
    }
  }

  /** `->where(column, v)->first()` on a group: some row with that value, or none when there is none. */
  method FirstWith(k: map<Id, int>, v: int) returns (r: Option<Id>)
    ensures r.Some? ==> r.value in k && k[r.value] == v
    ensures r.None? ==> forall id :: id in k ==> k[id] != v
  {
    r := None;
    var todo := k.Keys;
    while todo != {}
      invariant todo <= k.Keys
      invariant r.Some? ==> r.value in k && k[r.value] == v
      invariant r.None? ==> forall id :: id in k && id !in todo ==> k[id] != v
      decreases |todo|
    {
      var id :| id in todo;
      if r.None? && k[id] == v {
        r := Some(id);
      }
      todo := todo - {id};
    }
  }

  /** Every element of q is distinct. */
  ghost predicate Distinct<T>(q: seq<T>)
  {
    forall i, j :: 0 <= i < j < |q| ==> q[i] != q[j]
  }

  /** q lists the group's ids, each once, in ascending order of the column. */
  ghost predicate Ordering(k: map<Id, int>, q: seq<Id>)
  {
    && |q| == |k| && Distinct(q)
    && (forall i :: 0 <= i < |q| ==> q[i] in k)
    && (forall id :: id in k ==> id in q)
    && (forall i, j :: 0 <= i <= j < |q| ==> k[q[i]] <= k[q[j]])
  }

  /**
   * `ORDER BY column` on a group: its ids, each once, in ascending order of the
   * column.  Rows with equal values may come in any order (the engine's choice).
   */
  method OrderByKey(k: map<Id, int>) returns (q: seq<Id>)
    ensures |q| == |k|
    ensures Distinct(q)
    ensures forall id :: id in q <==> id in k
    ensures forall i, j :: 0 <= i <= j < |q| ==> k[q[i]] <= k[q[j]]
  {
    q := [];
    var rest := k.Keys;
    while rest != {}
      invariant rest <= k.Keys
      invariant |q| + |rest| == |k.Keys|
      invariant forall id :: id in q <==> id in k && id !in rest
      invariant Distinct(q)
      invariant forall i, j :: 0 <= i <= j < |q| ==> k[q[i]] <= k[q[j]]
      invariant forall i, id :: 0 <= i < |q| && id in rest ==> k[q[i]] <= k[id]
      decreases |rest|
    {
      var m := MinKey(k, rest);
      q := q + [m];
      rest := rest - {m};
    }
  }

  method MinKey(k: map<Id, int>, ids: set<Id>) returns (m: Id)
    requires ids != {} && ids <= k.Keys
    ensures m in ids && forall id :: id in ids ==> k[m] <= k[id]
  {
    m :| m in ids;
    var todo := ids - {m};
    while todo != {}
      invariant todo <= ids && m in ids
      invariant forall id :: id in ids && id !in todo ==> k[m] <= k[id]
      decreases |todo|
    {
      var id :| id in todo;
      if k[id] < k[m] {
        m := id;
      }
      todo := todo - {id};
    }
  }

  /**
   * A dense group listed in ascending order holds base, base+1, ... in that order:
   * the i-th row has value base+i.
   */
  lemma {:induction false} DenseInOrder(k: map<Id, int>, base: int, q: seq<Id>)
    requires Dense(k, base)
    requires |q| == |k| && Distinct(q) && forall id :: id in q <==> id in k
    requires forall i, j :: 0 <= i <= j < |q| ==> k[q[i]] <= k[q[j]]
    ensures forall i :: 0 <= i < |q| ==> k[q[i]] == base + i
  {
    // Distinct ids carry distinct values, so the order is strict.
    assert Strict: forall i, j :: 0 <= i < j < |q| ==> k[q[i]] < k[q[j]] by {
      forall i, j | 0 <= i < j < |q| ensures k[q[i]] < k[q[j]] {
        assert q[i] != q[j];
      }
    }
    forall i | 0 <= i < |q| ensures k[q[i]] == base + i {
      StrictRunBounds(seq(|q|, j requires 0 <= j < |q| => k[q[j]]), base, i);
    }
  }

  /** A strictly increasing sequence of length n whose values lie in base..base+n-1 is that run. */
  lemma {:induction false} StrictRunBounds(s: seq<int>, base: int, i: int)
    requires forall j, l :: 0 <= j < l < |s| ==> s[j] < s[l]
    requires forall j :: 0 <= j < |s| ==> base <= s[j] < base + |s|
    requires 0 <= i < |s|
    ensures s[i] == base + i
  {
    LowerBound(s, base, i);
    UpperBound(s, base, i);
  }

  lemma {:induction false} LowerBound(s: seq<int>, base: int, i: int)
    requires forall j, l :: 0 <= j < l < |s| ==> s[j] < s[l]
    requires forall j :: 0 <= j < |s| ==> base <= s[j]
    requires 0 <= i < |s|
    ensures s[i] >= base + i
    decreases i
  {
    if i > 0 { LowerBound(s, base, i - 1); }
  }

  lemma {:induction false} UpperBound(s: seq<int>, base: int, i: int)
    requires forall j, l :: 0 <= j < l < |s| ==> s[j] < s[l]
    requires forall j :: 0 <= j < |s| ==> s[j] < base + |s|
    requires 0 <= i < |s|
    ensures s[i] <= base + i
    decreases |s| - i
  {
    if i < |s| - 1 { UpperBound(s, base, i + 1); }
  }
}
