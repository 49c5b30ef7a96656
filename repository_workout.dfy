/**
 * The workout store: the `workouts` and `workout_exercises` tables held in
 * memory, their id sequences, and the store's operations.  Create and Update
 * run as transactions: a snapshot of both tables is taken when the
 * transaction begins, and any failed statement or commit puts the snapshot
 * back.  Id sequences advance even when a transaction rolls back, as
 * database sequences do, so no id is ever handed out twice.
 *
 * Assumed of the schema (it is not part of this model): the foreign key
 * `workout_exercises.workout_id -> workouts.id`, with deletes cascading
 * from a workout to its line items.
 */
module Repository {
  import opened Wrappers
  import opened Model
  import opened Report
  import Dates
  import Sorting

  /** A row of the `workouts` table without its key. */
  datatype WorkoutRow = WorkoutRow(
    userId: int,
    name: string,
    description: string,
    scheduledFor: int,
    createdAt: int,
    updatedAt: int)

  function RowOf(h: Header): WorkoutRow {
    WorkoutRow(h.userId, h.name, h.description, h.scheduledFor, h.createdAt, h.updatedAt)
  }

  function HeaderOf(id: int, r: WorkoutRow): Header {
    Header(id, r.userId, r.name, r.description, r.scheduledFor, r.createdAt, r.updatedAt)
  }

  /**
   * Where a database call fails: beginning the transaction, the statement
   * with the given number (0 is the first statement of the transaction), or
   * the commit.
   */
  datatype Fault = NoFault | FailBegin | FailAt(statement: nat) | FailCommit

  /** A transaction of n statements under fault f does not commit. */
  predicate Aborts(f: Fault, n: nat) {
    f.FailBegin? || f.FailCommit? || (f.FailAt? && f.statement < n)
  }

  /**
   * How a query's result set reaches the code: in full, not at all (the
   * query itself returns an error), or cut off after its first n rows when
   * fetching the next row fails. The code never asks rows.Err, so a result
   * set that was cut off is read as if it were complete.
   */
  datatype Delivery = Complete | QueryError | CutAfter(n: nat)
  {
    /** The query succeeded and at least its first row, if any, arrived. */
    predicate Fetches() {
      !QueryError? && this != CutAfter(0)
    }
  }

  /** How many of a result set's m rows reach the code. */
  function Arrived(d: Delivery, m: nat): (k: nat)
    requires !d.QueryError?
    ensures k <= m
    ensures d.Complete? ==> k == m
  {
    if d.CutAfter? && d.n < m then d.n else m
  }

  // ----- the workout_exercises table -----

  /** The rows inserted for line items es of workout wid, numbered from first. */
  function Inserted(es: seq<WorkoutExercise>, wid: int, first: int): (r: seq<WorkoutExercise>)
    ensures |r| == |es|
    ensures forall j :: 0 <= j < |es| ==> r[j] == es[j].(id := first + j, workoutId := wid)
    decreases |es|
  {
    if es == [] then [] else [es[0].(id := first, workoutId := wid)] + Inserted(es[1..], wid, first + 1)
  }

  lemma InsertedSnoc(es: seq<WorkoutExercise>, i: int, wid: int, first: int)
    requires 0 <= i < |es|
    ensures Inserted(es[..i + 1], wid, first) == Inserted(es[..i], wid, first) + [es[i].(id := first + i, workoutId := wid)]
  {
    var a, b := Inserted(es[..i + 1], wid, first), Inserted(es[..i], wid, first) + [es[i].(id := first + i, workoutId := wid)];
    assert |a| == |b|;
    forall j | 0 <= j < |a| ensures a[j] == b[j] {
      if j < i { assert es[..i + 1][j] == es[..i][j]; }
    }
  }

  /** The line items of workout wid, in table order. */
  function ItemsOf(items: seq<WorkoutExercise>, wid: int): seq<WorkoutExercise> {
    if items == [] then []
    else ItemsOf(items[..|items| - 1], wid)
         + (if items[|items| - 1].workoutId == wid then [items[|items| - 1]] else [])
  }

  /** The table after `DELETE ... WHERE workout_id = wid`. */
  function Without(items: seq<WorkoutExercise>, wid: int): seq<WorkoutExercise> {
    if items == [] then []
    else Without(items[..|items| - 1], wid)
         + (if items[|items| - 1].workoutId != wid then [items[|items| - 1]] else [])
  }

  lemma {:induction false} ItemsOfAppend(a: seq<WorkoutExercise>, b: seq<WorkoutExercise>, wid: int)
    ensures ItemsOf(a + b, wid) == ItemsOf(a, wid) + ItemsOf(b, wid)
    decreases |b|
  {
    if b == [] {
      assert a + b == a;
    } else {
      var front, last := b[..|b| - 1], b[|b| - 1];
      assert (a + b)[..|a + b| - 1] == a + front;
      ItemsOfAppend(a, front, wid);
    }
  }

  lemma {:induction false} ItemsOfUniform(s: seq<WorkoutExercise>, wid: int, x: int)
    requires forall k :: 0 <= k < |s| ==> s[k].workoutId == wid
    ensures ItemsOf(s, x) == if x == wid then s else []
  {
    if s != [] {
      ItemsOfUniform(s[..|s| - 1], wid, x);
    }
  }

  lemma {:induction false} ItemsOfAbsent(s: seq<WorkoutExercise>, x: int)
    requires forall k :: 0 <= k < |s| ==> s[k].workoutId != x
    ensures ItemsOf(s, x) == []
  {
    if s != [] {
      ItemsOfAbsent(s[..|s| - 1], x);
    }
  }

  lemma {:induction false} ItemsOfWithout(s: seq<WorkoutExercise>, wid: int, x: int)
    ensures ItemsOf(Without(s, wid), x) == if x == wid then [] else ItemsOf(s, x)
  {
    if s != [] {
      var front, last := s[..|s| - 1], s[|s| - 1];
      ItemsOfWithout(front, wid, x);
      ItemsOfAppend(Without(front, wid), if last.workoutId != wid then [last] else [], x);
    }
  }

  lemma {:induction false} WithoutKeeps(s: seq<WorkoutExercise>, wid: int)
    ensures forall k :: 0 <= k < |Without(s, wid)| ==> Without(s, wid)[k] in s && Without(s, wid)[k].workoutId != wid
  {
    if s != [] {
      var front, last := s[..|s| - 1], s[|s| - 1];
      WithoutKeeps(front, wid);
      forall k | 0 <= k < |Without(front, wid)| ensures Without(front, wid)[k] in s {
        assert Without(front, wid)[k] in front;
      }
    }
  }

  lemma {:induction false} ItemsOfMembers(s: seq<WorkoutExercise>, wid: int)
    ensures forall k :: 0 <= k < |ItemsOf(s, wid)| ==> ItemsOf(s, wid)[k] in s && ItemsOf(s, wid)[k].workoutId == wid
  {
    if s != [] {
      var front := s[..|s| - 1];
      ItemsOfMembers(front, wid);
      forall k | 0 <= k < |ItemsOf(front, wid)| ensures ItemsOf(front, wid)[k] in s {
        assert ItemsOf(front, wid)[k] in front;
      }
    }
  }

  /** Items appended for a workout that had none are exactly its items afterwards. */
  lemma AddedItems(before: seq<WorkoutExercise>, es: seq<WorkoutExercise>, wid: int, first: int)
    requires forall k :: 0 <= k < |before| ==> before[k].workoutId != wid
    ensures forall x :: (ItemsOf(before + Inserted(es, wid, first), x)
                         == if x == wid then Inserted(es, wid, first) else ItemsOf(before, x))
  {
    var added := Inserted(es, wid, first);
    forall x ensures ItemsOf(before + added, x) == if x == wid then added else ItemsOf(before, x) {
      ItemsOfAppend(before, added, x);
      ItemsOfUniform(added, wid, x);
      if x == wid { ItemsOfAbsent(before, wid); }
    }
  }

  /** Deleting a workout's items and appending new ones replaces exactly that workout's items. */
  lemma ReplacedItems(before: seq<WorkoutExercise>, es: seq<WorkoutExercise>, wid: int, first: int)
    ensures forall x :: (ItemsOf(Without(before, wid) + Inserted(es, wid, first), x)
                         == if x == wid then Inserted(es, wid, first) else ItemsOf(before, x))
  {
    WithoutKeeps(before, wid);
    AddedItems(Without(before, wid), es, wid, first);
    forall x ensures ItemsOf(Without(before, wid), x) == (if x == wid then [] else ItemsOf(before, x)) {
      ItemsOfWithout(before, wid, x);
    }
  }

  // ----- GetByID: the rows of the LEFT JOIN and their fold -----

  /**
   * One row of `workouts w LEFT JOIN workout_exercises we`: the workout's
   * columns and the line item's, or None where the right side is all NULL
   * (a workout without line items).
   */
  datatype JoinRow = JoinRow(id: int, row: WorkoutRow, item: Option<WorkoutExercise>)

  function JoinItems(id: int, row: WorkoutRow, its: seq<WorkoutExercise>): (rows: seq<JoinRow>)
    ensures |rows| == |its|
    ensures forall k :: 0 <= k < |its| ==> rows[k] == JoinRow(id, row, Some(its[k]))
  {
    if its == [] then [] else JoinItems(id, row, its[..|its| - 1]) + [JoinRow(id, row, Some(its[|its| - 1]))]
  }

  /** The rows the GetByID query returns for workout id. */
  function LeftJoin(workouts: map<int, WorkoutRow>, items: seq<WorkoutExercise>, id: int): (rows: seq<JoinRow>)
    ensures rows == [] <==> id !in workouts
    ensures forall k :: 0 <= k < |rows| ==> id in workouts && rows[k].id == id && rows[k].row == workouts[id]
  {
    if id !in workouts then []
    else if ItemsOf(items, id) == [] then [JoinRow(id, workouts[id], None)]
    else JoinItems(id, workouts[id], ItemsOf(items, id))
  }

  /**
   * Scanning the line-item columns of a join row.  The select list has no
   * `we.workout_id`, so the scanned item's WorkoutID stays 0.  A NULL right
   * side reads as the zero line item (id 0).
   */
  function ScanItem(r: JoinRow): WorkoutExercise {
    match r.item
    case None => WorkoutExercise(0, 0, 0, 0, 0, 0, "")
    case Some(e) => e.(workoutId := 0)
  }

  /** The line items the fold keeps: scanned items whose id is not 0, in row order. */
  function Kept(rows: seq<JoinRow>): seq<WorkoutExercise> {
    if rows == [] then []
    else Kept(rows[..|rows| - 1])
         + (if ScanItem(rows[|rows| - 1]).id != 0 then [ScanItem(rows[|rows| - 1])] else [])
  }

  /** Line items as GetByID returns them: without their owning workout id. */
  function Fetched(es: seq<WorkoutExercise>): (r: seq<WorkoutExercise>)
    ensures |r| == |es|
    ensures forall k :: 0 <= k < |es| ==> r[k] == es[k].(workoutId := 0)
  {
    if es == [] then [] else Fetched(es[..|es| - 1]) + [es[|es| - 1].(workoutId := 0)]
  }

  lemma {:induction false} KeptJoinItems(id: int, row: WorkoutRow, its: seq<WorkoutExercise>)
    requires forall k :: 0 <= k < |its| ==> its[k].id != 0
    ensures Kept(JoinItems(id, row, its)) == Fetched(its)
  {
    if its != [] {
      var rows := JoinItems(id, row, its);
      assert rows[..|rows| - 1] == JoinItems(id, row, its[..|its| - 1]);
      KeptJoinItems(id, row, its[..|its| - 1]);
    }
  }

  /**
   * The fold of the LEFT JOIN rows that arrive yields the workout's line
   * items in table order (with WorkoutID cleared), as many of them as
   * arrived: the NULL row of a workout without items adds nothing, and no
   * real item is dropped.
   */
  lemma GetByIDRows(workouts: map<int, WorkoutRow>, items: seq<WorkoutExercise>, id: int, d: Delivery)
    requires id in workouts && !d.QueryError?
    requires forall k :: 0 <= k < |items| ==> items[k].id != 0
    ensures Kept(LeftJoin(workouts, items, id)[..Arrived(d, |LeftJoin(workouts, items, id)|)])
         == Fetched(ItemsOf(items, id))[..Arrived(d, |ItemsOf(items, id)|)]
  {
    var its := ItemsOf(items, id);
    var rows := LeftJoin(workouts, items, id);
    if its == [] {
      assert rows[..0] == [];
      assert rows[..1][..0] == [];
    } else {
      var k := Arrived(d, |its|);
      ItemsOfMembers(items, id);
      forall j | 0 <= j < k ensures its[..k][j].id != 0 {
        var i :| 0 <= i < |items| && items[i] == its[j];
      }
      assert rows[..k] == JoinItems(id, workouts[id], its[..k]);
      KeptJoinItems(id, workouts[id], its[..k]);
      assert Fetched(its[..k]) == Fetched(its)[..k];
    }
  }

  /**
   * The fold exactly as written: database/sql refuses to scan a NULL column
   * into an int or string field, so a row with a NULL right side makes the
   * whole lookup fail (None here), whatever came before it.
   */
  function FoldAsWritten(rows: seq<JoinRow>): (r: Option<seq<WorkoutExercise>>)
    ensures r.Some? <==> forall k :: 0 <= k < |rows| ==> rows[k].item.Some?
    ensures r.Some? ==> r.value == Kept(rows)
  {
    if rows == [] then Some([])
    else match FoldAsWritten(rows[..|rows| - 1])
      case None => None
      case Some(es) =>
        var last := rows[|rows| - 1];
        if last.item.None? then None
        else Some(es + (if ScanItem(last).id != 0 then [ScanItem(last)] else []))
  }

  /** As written, looking up an existing workout that has no line items fails. */
  lemma EmptyWorkoutFailsAsWritten(workouts: map<int, WorkoutRow>, items: seq<WorkoutExercise>, id: int)
    requires id in workouts && ItemsOf(items, id) == []
    ensures FoldAsWritten(LeftJoin(workouts, items, id)) == None
    ensures Kept(LeftJoin(workouts, items, id)) == []
  {
    var rows := LeftJoin(workouts, items, id);
    assert rows[..0] == [];
  }

  // ----- GetByUserID: the rows of the user's workouts, newest first -----

  datatype Record = Record(id: int, row: WorkoutRow)

  predicate Owns(workouts: map<int, WorkoutRow>, userId: int, r: Record) {
    r.id in workouts && workouts[r.id] == r.row && r.row.userId == userId
  }

  /** The user's rows among ids 1..n, in id order; each appears once. */
  function UserRows(workouts: map<int, WorkoutRow>, userId: int, n: int): (s: seq<Record>)
    ensures forall r :: multiset(s)[r] == if 1 <= r.id <= n && Owns(workouts, userId, r) then 1 else 0
    decreases n
  {
    if n <= 0 then []
    else
      var front := UserRows(workouts, userId, n - 1);
      if n in workouts && workouts[n].userId == userId then
        assert multiset(front)[Record(n, workouts[n])] == 0;
        front + [Record(n, workouts[n])]
      else front
  }

  /** `WHERE user_id = $1 ORDER BY scheduled_for DESC` over ids 1..n. */
  function ByUser(workouts: map<int, WorkoutRow>, userId: int, n: int): (s: seq<Record>)
    ensures forall r :: multiset(s)[r] == if 1 <= r.id <= n && Owns(workouts, userId, r) then 1 else 0
    ensures forall i, j :: 0 <= i < j < |s| ==> s[i].row.scheduledFor >= s[j].row.scheduledFor
  {
    Sorting.SortBy(UserRows(workouts, userId, n), LatestFirst)
  }

  /** The sort key of GetByUserID: `ORDER BY scheduled_for DESC`. */
  function LatestFirst(r: Record): int {
    -r.row.scheduledFor
  }

  /** The ids of the user's workouts among ids 1..n. */
  ghost function OwnedIds(workouts: map<int, WorkoutRow>, userId: int, n: int): set<int> {
    set id | 1 <= id <= n && id in workouts && workouts[id].userId == userId
  }

  /**
   * GetByUserID lists as many workouts as the user owns among ids 1..n,
   * one per owned id and no other id.
   */
  lemma {:induction false} ByUserCount(workouts: map<int, WorkoutRow>, userId: int, n: int)
    ensures |ByUser(workouts, userId, n)| == |OwnedIds(workouts, userId, n)|
    ensures forall k :: 0 <= k < |ByUser(workouts, userId, n)| ==> ByUser(workouts, userId, n)[k].id in OwnedIds(workouts, userId, n)
  {
    var s := ByUser(workouts, userId, n);
    var u := UserRows(workouts, userId, n);
    assert multiset(s) == multiset(u) by {
      forall r ensures multiset(s)[r] == multiset(u)[r] { }
    }
    assert |s| == |multiset(s)| == |multiset(u)| == |u|;
    UserRowsCount(workouts, userId, n);
    forall k | 0 <= k < |s| ensures s[k].id in OwnedIds(workouts, userId, n) {
      assert s[k] in multiset(s);
    }
  }

  /** One row per owned id: the induction behind ByUserCount. */
  lemma {:induction false} UserRowsCount(workouts: map<int, WorkoutRow>, userId: int, n: int)
    ensures |UserRows(workouts, userId, n)| == |OwnedIds(workouts, userId, n)|
    decreases n
  {
    if n <= 0 {
      assert OwnedIds(workouts, userId, n) == {};
    } else {
      UserRowsCount(workouts, userId, n - 1);
      var front := OwnedIds(workouts, userId, n - 1);
      var owned := n in workouts && workouts[n].userId == userId;
      var grown := if owned then front + {n} else front;
      assert OwnedIds(workouts, userId, n) == grown by {
        forall id ensures id in OwnedIds(workouts, userId, n) <==> id in grown {
          assert id in OwnedIds(workouts, userId, n) <==> id in front || (id == n && owned);
        }
      }
      if owned {
        assert n !in front;
        assert |grown| == |front| + 1;
      }
    }
  }

  /** Each workout of ws holds, in order, the columns of the matching leading row of rows and no line items. */
  ghost predicate ScannedFrom(ws: seq<Workout>, rows: seq<Record>)
    reads ws
  {
    |ws| <= |rows| &&
    forall k :: 0 <= k < |ws| ==> ws[k].Fields() == HeaderOf(rows[k].id, rows[k].row) && ws[k].exercises == []
  }

  /** The GetByUserID loop over the first n rows: one fresh workout per row, scalar columns only. */
  method ScanRecords(rows: seq<Record>, n: nat) returns (ws: seq<Workout>)
    requires n <= |rows|
    ensures |ws| == n
    ensures forall k :: 0 <= k < |ws| ==> fresh(ws[k])
    ensures forall k :: 0 <= k < |ws| ==> ws[k].Fields() == HeaderOf(rows[k].id, rows[k].row)
    ensures forall k :: 0 <= k < |ws| ==> ws[k].exercises == []
    ensures ScannedFrom(ws, rows)
  {
    ws := [];
    for i := 0 to n
      invariant |ws| == i
      invariant forall k :: 0 <= k < i ==> fresh(ws[k])
      invariant forall k :: 0 <= k < i ==> ws[k].Fields() == HeaderOf(rows[k].id, rows[k].row)
      invariant forall k :: 0 <= k < i ==> ws[k].exercises == []
    {
      var w := new Workout.Zero();
      w.Scan(HeaderOf(rows[i].id, rows[i].row));
      ws := ws + [w];
    }
  }

  // ----- GenerateReport: the rows of the inner join -----

  predicate InRange(workouts: map<int, WorkoutRow>, userId: int, lo: int, hi: int, wid: int) {
    wid in workouts && workouts[wid].userId == userId && lo <= workouts[wid].scheduledFor <= hi
  }

  /** `workouts w JOIN workout_exercises we ... WHERE user_id = $1 AND scheduled_for BETWEEN $2 AND $3`, in table order. */
  function JoinRows(workouts: map<int, WorkoutRow>, items: seq<WorkoutExercise>, userId: int, lo: int, hi: int)
    : (rows: seq<ReportRow>)
    ensures |rows| <= |items|
    ensures forall k :: 0 <= k < |rows| ==>
      && InRange(workouts, userId, lo, hi, rows[k].workoutId)
      && rows[k].name == workouts[rows[k].workoutId].name
      && rows[k].scheduledFor == workouts[rows[k].workoutId].scheduledFor
  {
    if items == [] then []
    else
      var e := items[|items| - 1];
      JoinRows(workouts, items[..|items| - 1], userId, lo, hi)
      + if InRange(workouts, userId, lo, hi, e.workoutId) then
          var w := workouts[e.workoutId];
          [ReportRow(e.workoutId, w.name, w.scheduledFor, e.exerciseId, e.sets, e.reps, e.weight)]
        else []
  }

  /** The same rows `ORDER BY w.scheduled_for`. */
  function ReportRows(workouts: map<int, WorkoutRow>, items: seq<WorkoutExercise>, userId: int, lo: int, hi: int)
    : (rows: seq<ReportRow>)
    ensures multiset(rows) == multiset(JoinRows(workouts, items, userId, lo, hi))
    ensures forall i, j :: 0 <= i < j < |rows| ==> rows[i].scheduledFor <= rows[j].scheduledFor
    ensures forall k :: 0 <= k < |rows| ==> InRange(workouts, userId, lo, hi, rows[k].workoutId)
  {
    var joined := JoinRows(workouts, items, userId, lo, hi);
    var sorted := Sorting.SortBy(joined, EarliestFirst);
    assert forall k :: 0 <= k < |sorted| ==> sorted[k] in multiset(joined);
    sorted
  }

  /** The sort key of GenerateReport: `ORDER BY w.scheduled_for`. */
  function EarliestFirst(r: ReportRow): int {
    r.scheduledFor
  }

  lemma {:induction false} JoinRowsIds(workouts: map<int, WorkoutRow>, items: seq<WorkoutExercise>, userId: int, lo: int, hi: int)
    ensures forall id :: (id in Ids(JoinRows(workouts, items, userId, lo, hi))
                          <==> InRange(workouts, userId, lo, hi, id) && ItemsOf(items, id) != [])
  {
    if items != [] {
      var front, e := items[..|items| - 1], items[|items| - 1];
      JoinRowsIds(workouts, front, userId, lo, hi);
      var rows := JoinRows(workouts, items, userId, lo, hi);
      var prefix := JoinRows(workouts, front, userId, lo, hi);
      if InRange(workouts, userId, lo, hi, e.workoutId) {
        var w := workouts[e.workoutId];
        IdsSnoc(prefix, ReportRow(e.workoutId, w.name, w.scheduledFor, e.exerciseId, e.sets, e.reps, e.weight));
      } else {
        assert rows == prefix;
      }
    }
  }

  /** The report columns of line items: exercise, sets, reps and weight, in order. */
  function Project(es: seq<WorkoutExercise>): (r: seq<ReportItem>)
    ensures |r| == |es|
    ensures forall k :: 0 <= k < |es| ==>
      r[k] == ReportItem(es[k].exerciseId, es[k].sets, es[k].reps, es[k].weight)
  {
    if es == [] then []
    else
      var e := es[|es| - 1];
      Project(es[..|es| - 1]) + [ReportItem(e.exerciseId, e.sets, e.reps, e.weight)]
  }

  /**
   * The inner join gives every line item of an in-range workout of the user
   * exactly one row, carrying its exercise, sets, reps and weight, in table
   * order; any other workout gets no row.
   */
  lemma {:induction false} JoinRowsItems(workouts: map<int, WorkoutRow>, items: seq<WorkoutExercise>,
                                         userId: int, lo: int, hi: int, id: int)
    ensures ItemsFor(JoinRows(workouts, items, userId, lo, hi), id)
         == if InRange(workouts, userId, lo, hi, id) then Project(ItemsOf(items, id)) else []
  {
    if items != [] {
      var front, e := items[..|items| - 1], items[|items| - 1];
      JoinRowsItems(workouts, front, userId, lo, hi, id);
      var rows := JoinRows(workouts, items, userId, lo, hi);
      var prefix := JoinRows(workouts, front, userId, lo, hi);
      var own := ItemsOf(front, id);
      assert ItemsOf(items, id) == own + (if e.workoutId == id then [e] else []);
      if InRange(workouts, userId, lo, hi, e.workoutId) {
        var w := workouts[e.workoutId];
        var row := ReportRow(e.workoutId, w.name, w.scheduledFor, e.exerciseId, e.sets, e.reps, e.weight);
        assert rows == prefix + [row];
        assert rows[..|rows| - 1] == prefix;
        if e.workoutId == id {
          assert (own + [e])[..|own|] == own;
        }
      } else {
        assert rows == prefix;
      }
    }
  }

  /**
   * In the ordered report rows each in-range workout of the user has exactly
   * its line items' report columns, up to order; any other workout has none.
   */
  lemma ReportRowsItems(workouts: map<int, WorkoutRow>, items: seq<WorkoutExercise>,
                        userId: int, lo: int, hi: int, id: int)
    ensures multiset(ItemsFor(ReportRows(workouts, items, userId, lo, hi), id))
         == if InRange(workouts, userId, lo, hi, id) then multiset(Project(ItemsOf(items, id))) else multiset{}
  {
    ItemsForPermutation(ReportRows(workouts, items, userId, lo, hi), JoinRows(workouts, items, userId, lo, hi), id);
    JoinRowsItems(workouts, items, userId, lo, hi, id);
  }

  /**
   * A workout appears in the report rows if and only if it belongs to the
   * user, is scheduled within [lo, hi] and has at least one line item.
   */
  lemma ReportRowsIds(workouts: map<int, WorkoutRow>, items: seq<WorkoutExercise>, userId: int, lo: int, hi: int, id: int)
    ensures id in Ids(ReportRows(workouts, items, userId, lo, hi))
      <==> InRange(workouts, userId, lo, hi, id) && ItemsOf(items, id) != []
  {
    var j := JoinRows(workouts, items, userId, lo, hi);
    var s := ReportRows(workouts, items, userId, lo, hi);
    JoinRowsIds(workouts, items, userId, lo, hi);
    if id in Ids(s) {
      var i :| 0 <= i < |s| && s[i].workoutId == id;
      assert s[i] in multiset(j);
      var k :| 0 <= k < |j| && j[k] == s[i];
    }
    if id in Ids(j) {
      var i :| 0 <= i < |j| && j[i].workoutId == id;
      assert j[i] in multiset(s);
      var k :| 0 <= k < |s| && s[k] == j[i];
    }
  }

  /**
   * In a report over the complete rows, every in-range workout of the user
   * that has line items is listed with exactly those items' report columns,
   * up to order, so as many exercises as it has line items.
   */
  lemma ReportEntryItems(report: Report, startDate: string, endDate: string, workouts: map<int, WorkoutRow>,
                         items: seq<WorkoutExercise>, userId: int, lo: int, hi: int, id: int)
    requires Summarizes(report, startDate, endDate, ReportRows(workouts, items, userId, lo, hi))
    requires InRange(workouts, userId, lo, hi, id) && ItemsOf(items, id) != []
    ensures id in report.workouts
    ensures multiset(report.workouts[id].exercises) == multiset(Project(ItemsOf(items, id)))
    ensures |report.workouts[id].exercises| == |ItemsOf(items, id)|
  {
    ReportRowsIds(workouts, items, userId, lo, hi, id);
    ReportRowsItems(workouts, items, userId, lo, hi, id);
    var es := report.workouts[id].exercises;
    assert |es| == |multiset(es)|;
    assert |Project(ItemsOf(items, id))| == |multiset(Project(ItemsOf(items, id)))|;
  }

  datatype ReportError = InvalidStartDate | InvalidEndDate | QueryFailed

  // ----- the store -----

  class WorkoutStore {
    var workouts: map<int, WorkoutRow>
    var items: seq<WorkoutExercise>
    var nextWorkoutId: int
    var nextItemId: int

    /**
     * Ids are positive and below their sequence's next value, and every line
     * item belongs to a stored workout (the foreign key).
     */
    ghost predicate Valid()
      reads this
    {
      && 0 < nextWorkoutId && 0 < nextItemId
      && (forall id :: id in workouts ==> 0 < id < nextWorkoutId)
      && (forall k :: 0 <= k < |items| ==> 0 < items[k].id < nextItemId && items[k].workoutId in workouts)
    }

    constructor Empty()
      ensures Valid() && workouts == map[] && items == []
    {
      workouts, items := map[], [];
      nextWorkoutId, nextItemId := 1, 1;
    }

    /**
     * Inserts the workout row (statement 0), takes its generated id into
     * w.id, then inserts one row per line item (statements 1..) and commits.
     * On success the new workout and its items are exactly what was added;
     * on any failure both tables are as before.  As in the code, w.id keeps
     * the generated id when a later statement fails.
     */
    method Create(w: Workout, fault: Fault) returns (ok: bool)
      requires Valid()
      modifies this, w
      ensures Valid()
      ensures ok == !Aborts(fault, 1 + |w.exercises|)
      ensures w.exercises == old(w.exercises)
      ensures w.Fields() == old(w.Fields()).(id := w.id)
      ensures w.id == if fault.FailBegin? || fault == FailAt(0) then old(w.id) else old(nextWorkoutId)
      ensures ok ==> w.id !in old(workouts) && workouts == old(workouts)[w.id := RowOf(w.Fields())]
      ensures ok ==> items == old(items) + Inserted(w.exercises, w.id, old(nextItemId))
      ensures ok ==> ItemsOf(items, w.id) == Inserted(w.exercises, w.id, old(nextItemId))
      ensures ok ==> forall x :: x != w.id ==> ItemsOf(items, x) == ItemsOf(old(items), x)
      ensures !ok ==> workouts == old(workouts) && items == old(items)
      ensures old(nextWorkoutId) <= nextWorkoutId && old(nextItemId) <= nextItemId
    {
      if fault.FailBegin? {
        return false;
      }
      // the snapshot that the deferred Rollback restores
      var savedWorkouts, savedItems := workouts, items;
      if fault == FailAt(0) {
        return false;
      }
      w.id := nextWorkoutId;
      nextWorkoutId := nextWorkoutId + 1;
      workouts := workouts[w.id := RowOf(w.Fields())];
      ok := InsertItems(w.exercises, w.id, fault, 1);
      if ok && fault.FailCommit? {
        ok := false;
      }
      if !ok {
        workouts, items := savedWorkouts, savedItems;
        return;
      }
      AddedItems(savedItems, w.exercises, w.id, old(nextItemId));
    }

    /**
     * The line-item insert loop of Create and Update: statement base + i
     * inserts item i of es for workout wid, under the next item id.  An
     * insert for a workout id with no row breaks the foreign key and fails.
     * On failure the caller rolls the tables back.
     */
    method InsertItems(es: seq<WorkoutExercise>, wid: int, fault: Fault, base: nat) returns (ok: bool)
      requires Valid()
      modifies this
      ensures workouts == old(workouts) && nextWorkoutId == old(nextWorkoutId)
      ensures old(nextItemId) <= nextItemId
      ensures ok == (!(fault.FailAt? && base <= fault.statement < base + |es|) && (wid in workouts || es == []))
      ensures ok ==> Valid() && items == old(items) + Inserted(es, wid, old(nextItemId))
    {
      var i := 0;
      while i < |es|
        invariant 0 <= i <= |es|
        invariant workouts == old(workouts) && nextWorkoutId == old(nextWorkoutId)
        invariant nextItemId == old(nextItemId) + i
        invariant items == old(items) + Inserted(es[..i], wid, old(nextItemId))
        invariant i > 0 ==> wid in workouts
        invariant !(fault.FailAt? && base <= fault.statement < base + i)
        invariant Valid()
      {
        if fault == FailAt(base + i) || wid !in workouts {
          return false;
        }
        items := items + [es[i].(id := nextItemId, workoutId := wid)];
        nextItemId := nextItemId + 1;
        InsertedSnoc(es, i, wid, old(nextItemId));
        i := i + 1;
      }
      assert es[..i] == es;
      ok := true;
    }

    /**
     * GetByID, with the NULL scan corrected: no workout (null, no error)
     * when no row arrives, that is, when no row has the id or the result set
     * is cut off before its first row; otherwise a fresh workout carrying
     * the row's columns and the workout's line items in table order, each
     * with WorkoutID 0, as many as arrived. A failing query is an error.
     */
    method GetByID(id: int, d: Delivery) returns (w: Workout?, err: bool)
      requires Valid()
      ensures err == d.QueryError?
      ensures err ==> w == null
      ensures !err ==> (w == null <==> id !in workouts || d == CutAfter(0))
      ensures w != null ==> fresh(w) && id in workouts
      ensures w != null ==> w.Fields() == HeaderOf(id, workouts[id])
      ensures w != null ==> w.exercises == Fetched(ItemsOf(items, id))[..Arrived(d, |ItemsOf(items, id)|)]
      ensures w != null && d.Complete? ==> w.exercises == Fetched(ItemsOf(items, id))
    {
      if d.QueryError? {
        return null, true;
      }
      err := false;
      var rows := LeftJoin(workouts, items, id);
      var n := Arrived(d, |rows|);
      w := null;
      var i := 0;
      while i < n
        invariant 0 <= i <= n
        invariant w == null <==> i == 0
        invariant w != null ==> fresh(w) && id in workouts
        invariant w != null ==> w.Fields() == HeaderOf(id, workouts[id]) && w.exercises == Kept(rows[..i])
      {
        if w == null {
          w := new Workout.Zero();
        }
        var r := rows[i];
        var we := ScanItem(r);
        w.Scan(HeaderOf(r.id, r.row));
        if we.id != 0 {
          w.exercises := w.exercises + [we];
        }
        assert rows[..i + 1][..i] == rows[..i];
        i := i + 1;
      }
      if w != null {
        GetByIDRows(workouts, items, id, d);
      }
    }

    /**
     * The workouts GetByUserID gives for userId when the result set arrives
     * as d: one per arriving row of the user's workouts, newest first, in
     * that order.
     */
    ghost predicate Listed(ws: seq<Workout>, userId: int, d: Delivery)
      requires !d.QueryError?
      reads this, ws
    {
      var all := ByUser(workouts, userId, nextWorkoutId - 1);
      |ws| == Arrived(d, |all|) && ScannedFrom(ws, all)
    }

    /**
     * GetByUserID: one fresh workout per arriving row of the user's
     * workouts, newest scheduled first, each without line items. A result
     * set cut off early gives the leading part of the list, with no error.
     */
    method GetByUserID(userId: int, d: Delivery) returns (ws: seq<Workout>, err: bool)
      requires Valid()
      ensures err == d.QueryError?
      ensures err ==> ws == []
      ensures !err ==> |ws| == Arrived(d, |ByUser(workouts, userId, nextWorkoutId - 1)|)
      ensures !err ==> forall k :: 0 <= k < |ws| ==> fresh(ws[k])
      ensures !err ==> ScannedFrom(ws, ByUser(workouts, userId, nextWorkoutId - 1))
      ensures !err ==> Listed(ws, userId, d)
    {
      if d.QueryError? {
        return [], true;
      }
      err := false;
      var all := ByUser(workouts, userId, nextWorkoutId - 1);
      ws := ScanRecords(all, Arrived(d, |all|));
    }

    /**
     * Update: sets name, description, scheduled_for and updated_at of the
     * row with w.id (statement 0), deletes that workout's line items
     * (statement 1) and inserts w's items in order (statements 2..).  An
     * insert for an id with no workout row breaks the foreign key.  On
     * success user_id and created_at and every other workout are untouched,
     * the workout's items are exactly w's, and other workouts' items are
     * unchanged; on failure both tables are as before.
     */
    method Update(w: Workout, fault: Fault) returns (ok: bool)
      requires Valid()
      modifies this
      ensures Valid()
      ensures ok == (!Aborts(fault, 2 + |w.exercises|) && (w.id in old(workouts) || w.exercises == []))
      ensures ok ==> workouts.Keys == old(workouts).Keys
      ensures ok ==> forall id :: id in workouts && id != w.id ==> workouts[id] == old(workouts)[id]
      ensures ok && w.id in workouts ==> workouts[w.id] == old(workouts)[w.id].(
        name := w.name, description := w.description, scheduledFor := w.scheduledFor, updatedAt := w.updatedAt)
      ensures ok ==> items == Without(old(items), w.id) + Inserted(w.exercises, w.id, old(nextItemId))
      ensures ok ==> ItemsOf(items, w.id) == Inserted(w.exercises, w.id, old(nextItemId))
      ensures ok ==> forall x :: x != w.id ==> ItemsOf(items, x) == ItemsOf(old(items), x)
      ensures !ok ==> workouts == old(workouts) && items == old(items)
      ensures old(nextWorkoutId) <= nextWorkoutId && old(nextItemId) <= nextItemId
    {
      if fault.FailBegin? {
        return false;
      }
      // the snapshot that the deferred Rollback restores
      var savedWorkouts, savedItems := workouts, items;
      if fault == FailAt(0) {
        return false;
      }
      if w.id in workouts {
        workouts := workouts[w.id := workouts[w.id].(
          name := w.name, description := w.description, scheduledFor := w.scheduledFor, updatedAt := w.updatedAt)];
      }
      if fault == FailAt(1) {
        workouts := savedWorkouts;
        return false;
      }
      WithoutKeeps(items, w.id);
      items := Without(items, w.id);
      ok := InsertItems(w.exercises, w.id, fault, 2);
      if ok && fault.FailCommit? {
        ok := false;
      }
      if !ok {
        workouts, items := savedWorkouts, savedItems;
        return;
      }
      ReplacedItems(savedItems, w.exercises, w.id, old(nextItemId));
    }

    /**
     * Delete: removes the workout row (a single statement, no transaction);
     * its line items go with it by the assumed cascade.
     */
    method Delete(id: int, fails: bool) returns (ok: bool)
      requires Valid()
      modifies this
      ensures Valid()
      ensures ok == !fails
      ensures ok ==> workouts == old(workouts) - {id} && items == Without(old(items), id)
      ensures !ok ==> workouts == old(workouts) && items == old(items)
      ensures nextWorkoutId == old(nextWorkoutId) && nextItemId == old(nextItemId)
    {
      if fails {
        return false;
      }
      WithoutKeeps(items, id);
      workouts := workouts - {id};
      items := Without(items, id);
      ok := true;
    }

    /**
     * GenerateReport: both dates must read as "2006-01-02" (the start date is
     * checked first) before the store is queried; the bounds are the
     * midnights starting the two dates, inclusive.
     */
    method GenerateReport(userId: int, startDate: string, endDate: string, d: Delivery)
      returns (r: Result<Report, ReportError>)
      requires Valid()
      ensures Dates.ParseDate(startDate).None? ==> r == Failure(InvalidStartDate)
      ensures Dates.ParseDate(startDate).Some? && Dates.ParseDate(endDate).None? ==> r == Failure(InvalidEndDate)
      ensures Dates.ParseDate(startDate).Some? && Dates.ParseDate(endDate).Some? && d.QueryError? ==>
        r == Failure(QueryFailed)
      ensures Dates.ParseDate(startDate).Some? && Dates.ParseDate(endDate).Some? && !d.QueryError? ==>
        && r.Success?
        && var rows := ReportRows(workouts, items, userId, Dates.ParseDate(startDate).value, Dates.ParseDate(endDate).value);
           Summarizes(r.value, startDate, endDate, rows[..Arrived(d, |rows|)])
    {
      var start := Dates.ParseDate(startDate);
      if start.None? {
        return Failure(InvalidStartDate);
      }
      var end := Dates.ParseDate(endDate);
      if end.None? {
        return Failure(InvalidEndDate);
      }
      if d.QueryError? {
        return Failure(QueryFailed);
      }
      var rows := ReportRows(workouts, items, userId, start.value, end.value);
      var report := Summarize(startDate, endDate, rows[..Arrived(d, |rows|)]);
      r := Success(report);
    }
  }

  /**
   * The end bound is midnight at the start of the end date: a workout later
   * on that same day is outside the range and missing from the report.
   */
  lemma EndDayExcluded(workouts: map<int, WorkoutRow>, items: seq<WorkoutExercise>, userId: int,
                       startDate: string, endDate: string, id: int)
    requires Dates.ParseDate(startDate).Some? && Dates.ParseDate(endDate).Some?
    requires id in workouts
    requires Dates.ParseDate(endDate).value < workouts[id].scheduledFor < Dates.ParseDate(endDate).value + Dates.SecondsPerDay
    ensures id !in Ids(ReportRows(workouts, items, userId, Dates.ParseDate(startDate).value, Dates.ParseDate(endDate).value))
  {
    ReportRowsIds(workouts, items, userId, Dates.ParseDate(startDate).value, Dates.ParseDate(endDate).value, id);
  }
}
