/**
 * The report fold of the workout store: the rows of the inner join of
 * workouts with their line items are grouped by workout id, counting
 * distinct workouts and line items on the way.
 */
module Report {

  /** One row of the report query: workout columns and one line item's columns. */
  datatype ReportRow = ReportRow(
    workoutId: int,
    name: string,
    scheduledFor: int,
    exerciseId: int,
    sets: int,
    reps: int,
    weight: int)

  datatype ReportItem = ReportItem(exerciseId: int, sets: int, reps: int, weight: int)

  datatype ReportEntry = ReportEntry(name: string, scheduledFor: int, exercises: seq<ReportItem>)

  /** The report object; the dates are echoed exactly as the caller gave them. */
  datatype Report = Report(
    startDate: string,
    endDate: string,
    totalWorkouts: int,
    totalExercises: int,
    workouts: map<int, ReportEntry>)

  function ItemOf(r: ReportRow): ReportItem {
    ReportItem(r.exerciseId, r.sets, r.reps, r.weight)
  }

  /** The distinct workout ids among the rows. */
  function Ids(rows: seq<ReportRow>): set<int> {
    set i | 0 <= i < |rows| :: rows[i].workoutId
  }

  /** The line items of workout id, in row order. */
  function ItemsFor(rows: seq<ReportRow>, id: int): seq<ReportItem> {
    if rows == [] then []
    else ItemsFor(rows[..|rows| - 1], id)
         + (if rows[|rows| - 1].workoutId == id then [ItemOf(rows[|rows| - 1])] else [])
  }

  /** The first row of workout id: it supplies the entry's name and date. */
  function HeadFor(rows: seq<ReportRow>, id: int): (r: ReportRow)
    requires id in Ids(rows)
    ensures r.workoutId == id
  {
    if rows[0].workoutId == id then rows[0]
    else
      assert id in Ids(rows[1..]) by {
        var i :| 0 <= i < |rows| && rows[i].workoutId == id;
        assert rows[1..][i - 1] == rows[i];
      }
      HeadFor(rows[1..], id)
  }

  function EntryFor(rows: seq<ReportRow>, id: int): ReportEntry
    requires id in Ids(rows)
  {
    var head := HeadFor(rows, id);
    ReportEntry(head.name, head.scheduledFor, ItemsFor(rows, id))
  }

  /**
   * What the report says about its rows: the dates echoed, one line item
   * counted per row, one workout per distinct id, and per workout its
   * items in row order under the name and date of its first row.
   */
  ghost predicate Summarizes(report: Report, startDate: string, endDate: string, rows: seq<ReportRow>) {
    && report.startDate == startDate
    && report.endDate == endDate
    && report.totalExercises == |rows|
    && report.totalWorkouts == |Ids(rows)|
    && report.workouts.Keys == Ids(rows)
    && forall id :: id in report.workouts ==> report.workouts[id] == EntryFor(rows, id)
  }

  // ----- facts about one more row -----

  lemma IdsSnoc(rows: seq<ReportRow>, r: ReportRow)
    ensures Ids(rows + [r]) == Ids(rows) + {r.workoutId}
  {
    var s := rows + [r];
    forall id | id in Ids(s) ensures id in Ids(rows) + {r.workoutId} {
      var i :| 0 <= i < |s| && s[i].workoutId == id;
      if i < |rows| { assert rows[i] == s[i]; }
    }
    forall id | id in Ids(rows) ensures id in Ids(s) {
      var i :| 0 <= i < |rows| && rows[i].workoutId == id;
      assert s[i] == rows[i];
    }
    assert s[|rows|] == r;
  }

  lemma {:induction false} HeadForSnoc(rows: seq<ReportRow>, r: ReportRow, id: int)
    requires id in Ids(rows)
    ensures id in Ids(rows + [r]) && HeadFor(rows + [r], id) == HeadFor(rows, id)
  {
    IdsSnoc(rows, r);
    if rows[0].workoutId != id {
      assert (rows + [r])[1..] == rows[1..] + [r];
      assert id in Ids(rows[1..]) by {
        var i :| 0 <= i < |rows| && rows[i].workoutId == id;
        assert rows[1..][i - 1] == rows[i];
      }
      HeadForSnoc(rows[1..], r, id);
    }
  }

  lemma HeadForFresh(rows: seq<ReportRow>, r: ReportRow)
    requires r.workoutId !in Ids(rows)
    ensures r.workoutId in Ids(rows + [r]) && HeadFor(rows + [r], r.workoutId) == r
    decreases |rows|
  {
    IdsSnoc(rows, r);
    if rows != [] {
      assert rows[0].workoutId in Ids(rows);
      assert (rows + [r])[1..] == rows[1..] + [r];
      IdsTail(rows);
      HeadForFresh(rows[1..], r);
    }
  }

  lemma IdsTail(rows: seq<ReportRow>)
    requires rows != []
    ensures Ids(rows[1..]) <= Ids(rows)
  {
    forall id | id in Ids(rows[1..]) ensures id in Ids(rows) {
      var i :| 0 <= i < |rows[1..]| && rows[1..][i].workoutId == id;
      assert rows[i + 1] == rows[1..][i];
    }
  }

  lemma {:induction false} ItemsForAbsent(rows: seq<ReportRow>, id: int)
    requires id !in Ids(rows)
    ensures ItemsFor(rows, id) == []
  {
    if rows != [] {
      var front := rows[..|rows| - 1];
      assert Ids(front) <= Ids(rows) by {
        forall x | x in Ids(front) ensures x in Ids(rows) {
          var i :| 0 <= i < |front| && front[i].workoutId == x;
          assert rows[i] == front[i];
        }
      }
      assert rows[|rows| - 1].workoutId in Ids(rows);
      ItemsForAbsent(front, id);
    }
  }

  /** How one more row changes the entry of each workout. */
  lemma EntryForSnoc(rows: seq<ReportRow>, r: ReportRow, id: int)
    requires id in Ids(rows + [r])
    ensures id != r.workoutId ==> id in Ids(rows) && EntryFor(rows + [r], id) == EntryFor(rows, id)
    ensures id == r.workoutId && id in Ids(rows) ==>
      EntryFor(rows + [r], id) == EntryFor(rows, id).(exercises := EntryFor(rows, id).exercises + [ItemOf(r)])
    ensures id == r.workoutId && id !in Ids(rows) ==>
      EntryFor(rows + [r], id) == ReportEntry(r.name, r.scheduledFor, [ItemOf(r)])
  {
    IdsSnoc(rows, r);
    var s := rows + [r];
    assert s[..|s| - 1] == rows;
    assert ItemsFor(s, id) == ItemsFor(rows, id) + (if r.workoutId == id then [ItemOf(r)] else []);
    if id != r.workoutId {
      HeadForSnoc(rows, r, id);
    } else if id in Ids(rows) {
      HeadForSnoc(rows, r, id);
    } else {
      HeadForFresh(rows, r);
      ItemsForAbsent(rows, id);
    }
  }

  /**
   * The report handler's loop: a map from workout id to entry, created at
   * the first row of a workout (which also bumps the workout count) and
   * extended by one item per row.
   */
  method Summarize(startDate: string, endDate: string, rows: seq<ReportRow>) returns (report: Report)
    ensures Summarizes(report, startDate, endDate, rows)
  {
    var workouts: map<int, ReportEntry> := map[];
    var totalWorkouts, totalExercises := 0, 0;
    for i := 0 to |rows|
      invariant workouts.Keys == Ids(rows[..i])
      invariant totalWorkouts == |Ids(rows[..i])|
      invariant totalExercises == i
      invariant forall id :: id in workouts ==> workouts[id] == EntryFor(rows[..i], id)
    {
      var r := rows[i];
      ghost var seen := rows[..i];
      assert rows[..i + 1] == seen + [r];
      IdsSnoc(seen, r);
      if r.workoutId !in workouts {
        workouts := workouts[r.workoutId := ReportEntry(r.name, r.scheduledFor, [])];
        totalWorkouts := totalWorkouts + 1;
      }
      var entry := workouts[r.workoutId];
      workouts := workouts[r.workoutId := entry.(exercises := entry.exercises + [ItemOf(r)])];
      totalExercises := totalExercises + 1;
      forall id | id in workouts ensures workouts[id] == EntryFor(seen + [r], id) {
        EntryForSnoc(seen, r, id);
      }
    }
    assert rows[..|rows|] == rows;
    report := Report(startDate, endDate, totalWorkouts, totalExercises, workouts);
  }

  lemma {:induction false} ItemsForAppend(a: seq<ReportRow>, b: seq<ReportRow>, id: int)
    ensures ItemsFor(a + b, id) == ItemsFor(a, id) + ItemsFor(b, id)
    decreases |b|
  {
    if b == [] {
      assert a + b == a;
    } else {
      var front := b[..|b| - 1];
      assert (a + b)[..|a + b| - 1] == a + front;
      ItemsForAppend(a, front, id);
    }
  }

  /** Taking the same element out of two equal multisets leaves equal multisets. */
  lemma MultisetRemove<T>(front: seq<T>, x: T, left: seq<T>, right: seq<T>)
    requires multiset(front + [x]) == multiset(left + [x] + right)
    ensures multiset(front) == multiset(left + right)
  {
    assert multiset(front + [x]) == multiset(front) + multiset{x};
    assert multiset(left + [x] + right) == multiset(left + right) + multiset{x};
    forall z ensures multiset(front)[z] == multiset(left + right)[z] {
      assert (multiset(front) + multiset{x})[z] == (multiset(left + right) + multiset{x})[z];
    }
  }

  /** Moving one row to the end does not change any workout's items, up to order. */
  lemma ItemsForMove(left: seq<ReportRow>, x: ReportRow, right: seq<ReportRow>, id: int)
    ensures multiset(ItemsFor(left + [x] + right, id)) == multiset(ItemsFor(left + right, id) + ItemsFor([x], id))
  {
    ItemsForAppend(left + [x], right, id);
    ItemsForAppend(left, [x], id);
    ItemsForAppend(left, right, id);
  }

  /** Rows that are a permutation of each other give each workout the same items, up to order. */
  lemma {:induction false} ItemsForPermutation(a: seq<ReportRow>, b: seq<ReportRow>, id: int)
    requires multiset(a) == multiset(b)
    ensures multiset(ItemsFor(a, id)) == multiset(ItemsFor(b, id))
    decreases |a|
  {
    if a == [] {
      assert |b| == |multiset(b)|;
    } else {
      var front, x := a[..|a| - 1], a[|a| - 1];
      assert a == front + [x];
      assert x in multiset(b);
      var j :| 0 <= j < |b| && b[j] == x;
      var left, right := b[..j], b[j + 1..];
      assert b == left + [x] + right;
      MultisetRemove(front, x, left, right);
      ItemsForPermutation(front, left + right, id);
      ItemsForAppend(front, [x], id);
      ItemsForMove(left, x, right, id);
    }
  }

  // ----- counting -----

  lemma {:induction false} IdsBound(rows: seq<ReportRow>)
    ensures |Ids(rows)| <= |rows|
    ensures |Ids(rows)| == 0 <==> rows == []
  {
    if rows != [] {
      var front, last := rows[..|rows| - 1], rows[|rows| - 1];
      assert rows == front + [last];
      IdsSnoc(front, last);
      IdsBound(front);
    }
  }

  lemma {:induction false} ItemsForPresent(rows: seq<ReportRow>, id: int)
    requires id in Ids(rows)
    ensures |ItemsFor(rows, id)| >= 1
  {
    var front, last := rows[..|rows| - 1], rows[|rows| - 1];
    assert rows == front + [last];
    IdsSnoc(front, last);
    if last.workoutId != id {
      ItemsForPresent(front, id);
    }
  }

  /**
   * A report never counts more workouts than line items, counts none
   * exactly when it has no rows, and lists no workout without an item.
   */
  lemma ReportCounts(report: Report, startDate: string, endDate: string, rows: seq<ReportRow>)
    requires Summarizes(report, startDate, endDate, rows)
    ensures 0 <= report.totalWorkouts <= report.totalExercises
    ensures report.totalWorkouts == 0 <==> report.totalExercises == 0
    ensures forall id :: id in report.workouts ==> |report.workouts[id].exercises| >= 1
  {
    IdsBound(rows);
    forall id | id in report.workouts ensures |report.workouts[id].exercises| >= 1 {
      ItemsForPresent(rows, id);
    }
  }
}
